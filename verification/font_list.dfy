/** The parameter reader of the CGM FONT LIST element: fixed strings are read one
    after another until the declared parameter length is used up. Each string
    accounts for its characters plus one length octet. */
module FontList {

  /** Parameter octets one fixed string accounts for. */
  function StringCost(name: string): nat {
    |name| + 1
  }

  /** Parameter octets a sequence of fixed strings accounts for. */
  function TotalCost(names: seq<string>): nat {
    if |names| == 0 then 0 else TotalCost(names[..|names| - 1]) + StringCost(names[|names| - 1])
  }

  /** The names a FONT LIST with a `budget`-octet parameter list takes from the
      strings `names` the input would deliver: one more while the octets counted so
      far stay below the budget. Stated from the front, independently of the loop. */
  function FontsWithin(names: seq<string>, budget: int): (taken: seq<string>)
    ensures taken <= names
  {
    if budget <= 0 || |names| == 0 then []
    else [names[0]] + FontsWithin(names[1..], budget - StringCost(names[0]))
  }

  lemma {:induction false} TotalCostPrepend(name: string, rest: seq<string>)
    ensures TotalCost([name] + rest) == StringCost(name) + TotalCost(rest)
    decreases |rest|
  {
    if |rest| > 0 {
      var all := [name] + rest;
      assert all[..|all| - 1] == [name] + rest[..|rest| - 1];
      TotalCostPrepend(name, rest[..|rest| - 1]);
    } else {
      assert ([name] + rest)[..0] == [];
    }
  }

  /** Each string costs at least one octet. */
  lemma {:induction false} CountBoundedByCost(names: seq<string>)
    ensures |names| <= TotalCost(names)
  {
    if |names| > 0 {
      CountBoundedByCost(names[..|names| - 1]);
    }
  }

  /** The reference reading ends only when the octets counted reach the budget or
      the strings run out. */
  lemma {:induction false} FontsWithinReachesBudget(names: seq<string>, budget: int)
    ensures FontsWithin(names, budget) == names || TotalCost(FontsWithin(names, budget)) >= budget
    decreases |names|
  {
    if budget > 0 && |names| > 0 {
      var rest := FontsWithin(names[1..], budget - StringCost(names[0]));
      FontsWithinReachesBudget(names[1..], budget - StringCost(names[0]));
      TotalCostPrepend(names[0], rest);
      if rest == names[1..] {
        assert [names[0]] + rest == names;
      }
    }
  }

  /** Before the last string is taken, the octets counted are still below the budget. */
  lemma {:induction false} FontsWithinBelowBudgetBeforeLast(names: seq<string>, budget: int)
    ensures var taken := FontsWithin(names, budget);
      |taken| > 0 ==> TotalCost(taken[..|taken| - 1]) < budget
    decreases |names|
  {
    if budget > 0 && |names| > 0 {
      var rest := FontsWithin(names[1..], budget - StringCost(names[0]));
      FontsWithinBelowBudgetBeforeLast(names[1..], budget - StringCost(names[0]));
      var taken := [names[0]] + rest;
      if |rest| > 0 {
        assert taken[..|taken| - 1] == [names[0]] + rest[..|rest| - 1];
        TotalCostPrepend(names[0], rest[..|rest| - 1]);
      } else {
        assert taken[..|taken| - 1] == [];
      }
    }
  }

  /** The first `i + 1` elements are the first `i` followed by element `i`. */
  lemma TakeSnoc<T>(s: seq<T>, i: nat)
    requires i < |s|
    ensures s[..i + 1] == s[..i] + [s[i]]
  {
  }

  /** Dropping `i` elements and then one more drops `i + 1`. */
  lemma DropOneMore<T>(s: seq<T>, i: nat)
    requires i < |s|
    ensures s[i..][0] == s[i] && s[i..][1..] == s[i + 1..]
  {
  }

  lemma AppendSnocAssociates<T>(a: seq<T>, x: T, b: seq<T>)
    ensures (a + [x]) + b == a + ([x] + b)
  {
  }

  lemma SnocAssociates<T>(a: seq<T>, b: seq<T>, x: T)
    ensures (a + b) + [x] == a + (b + [x])
  {
  }

  /** One loop step against the reference: taking the next string keeps the
      strings read so far followed by what the reference still takes equal to the
      reference reading. */
  lemma FontsWithinStep(names: seq<string>, i: nat, budget: int)
    requires i < |names| && budget > 0
    ensures names[..i + 1] + FontsWithin(names[i + 1..], budget - StringCost(names[i]))
         == names[..i] + FontsWithin(names[i..], budget)
  {
    DropOneMore(names, i);
    TakeSnoc(names, i);
    AppendSnocAssociates(names[..i], names[i], FontsWithin(names[i + 1..], budget - StringCost(names[i])));
  }

  lemma TotalCostStep(names: seq<string>, i: nat)
    requires i < |names|
    ensures TotalCost(names[..i + 1]) == TotalCost(names[..i]) + StringCost(names[i])
  {
    assert names[..i + 1][..i] == names[..i];
  }

  /** What holds after each iteration of the loop in `ReadParameters`: the first
      `consumed` strings were appended and counted, and taking what the reference
      still takes from the rest completes the reference reading. */
  predicate LoopInvariant(fonts: seq<string>, input: seq<string>, budget: int,
                          result: seq<string>, bytesRead: int, consumed: nat)
  {
    && consumed <= |input|
    && result == fonts + input[..consumed]
    && bytesRead == TotalCost(input[..consumed])
    && input[..consumed] + FontsWithin(input[consumed..], budget - bytesRead) == FontsWithin(input, budget)
    && (consumed > 0 ==> TotalCost(input[..consumed - 1]) < budget)
  }

  /** One iteration of the loop keeps the invariant: the next string is appended
      and its length plus one octet counted. */
  lemma LoopStep(fonts: seq<string>, input: seq<string>, budget: int,
                 result: seq<string>, bytesRead: int, consumed: nat,
                 result': seq<string>, bytesRead': int, consumed': nat)
    requires LoopInvariant(fonts, input, budget, result, bytesRead, consumed)
    requires bytesRead < budget && consumed < |input|
    requires result' == result + [input[consumed]]
    requires bytesRead' == bytesRead + |input[consumed]| + 1 && consumed' == consumed + 1
    ensures LoopInvariant(fonts, input, budget, result', bytesRead', consumed')
  {
    FontsWithinStep(input, consumed, budget - bytesRead);
    TotalCostStep(input, consumed);
    TakeSnoc(input, consumed);
    SnocAssociates(fonts, input[..consumed], input[consumed]);
    assert budget - bytesRead' == budget - bytesRead - StringCost(input[consumed]);
  }

  /** When the loop stops, the strings read are the reference reading. */
  lemma LoopExit(fonts: seq<string>, input: seq<string>, budget: int,
                 result: seq<string>, bytesRead: int, consumed: nat)
    requires LoopInvariant(fonts, input, budget, result, bytesRead, consumed)
    requires bytesRead >= budget || consumed == |input|
    ensures input[..consumed] == FontsWithin(input, budget)
    ensures consumed <= (if budget > 0 then budget else 0)
  {
    assert FontsWithin(input[consumed..], budget - bytesRead) == [];
    assert input[..consumed] + [] == input[..consumed];
    if consumed > 0 {
      CountBoundedByCost(input[..consumed - 1]);
    }
  }

  /** `FontListElement.readParameters`. `fonts` is the element's list before the
      call and `input` the strings the CGM reader would return, in order. The
      result is the list after the call, the octets counted, how many strings were
      read, and whether the loop ended normally (`false` where the Java reader
      would raise an I/O error because the input ran out). */
  method ReadParameters(fonts: seq<string>, input: seq<string>, parameterListLength: int)
    returns (result: seq<string>, bytesRead: int, consumed: nat, complete: bool)
    ensures consumed <= |input|
    ensures result == fonts + input[..consumed]
    ensures bytesRead == TotalCost(input[..consumed])
    ensures input[..consumed] == FontsWithin(input, parameterListLength)
    ensures complete <==> bytesRead >= parameterListLength
    ensures !complete ==> consumed == |input|
    ensures consumed > 0 ==> TotalCost(input[..consumed - 1]) < parameterListLength
    ensures consumed <= (if parameterListLength > 0 then parameterListLength else 0)
    ensures parameterListLength <= 0 ==> result == fonts && bytesRead == 0 && complete
  {
    result := fonts;
    bytesRead := 0;
    consumed := 0;
    while bytesRead < parameterListLength && consumed < |input|
      invariant LoopInvariant(fonts, input, parameterListLength, result, bytesRead, consumed)
      decreases parameterListLength - bytesRead
    {
      ghost var before := (result, bytesRead, consumed);
      var fontName := input[consumed];
      result := result + [fontName];
      bytesRead := bytesRead + |fontName|;
      bytesRead := bytesRead + 1;
      consumed := consumed + 1;
      LoopStep(fonts, input, parameterListLength, before.0, before.1, before.2, result, bytesRead, consumed);
    }
    complete := bytesRead >= parameterListLength;
    LoopExit(fonts, input, parameterListLength, result, bytesRead, consumed);
  }
}
