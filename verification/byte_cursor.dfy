/** A forward-only cursor over the input octets and the fixed-width field reads
    the header decoder is built from. Every read either consumes exactly the
    requested number of octets or fails with `Malformed` at the current offset. */
module ByteCursor {
  import opened NitfBase

  /** The whole input, the offset of the next unread octet, and whether the
      underlying stream supports random access. No operation moves `pos` back. */
  datatype Cursor = Cursor(data: seq<byte>, pos: nat, seekable: bool) {

    predicate Valid() {
      pos <= |data|
    }

    /** The same input, `width` octets further on. */
    function Advance(width: nat): Cursor {
      this.(pos := pos + width)
    }
  }

  /** A decoded value and the cursor just past the octets it came from. */
  datatype Read<+T> = Read(value: T, next: Cursor)

  const Space: char := ' '

  predicate IsDigit(b: byte) {
    48 <= b <= 57
  }

  predicate AllDigits(s: seq<byte>) {
    forall i :: 0 <= i < |s| ==> IsDigit(s[i])
  }

  function Pow10(n: nat): (r: nat)
    ensures r >= 1
  {
    if n == 0 then 1 else 10 * Pow10(n - 1)
  }

  /** The value of a string of ASCII decimal digits, most significant first. */
  function DecimalValue(s: seq<byte>): (v: nat)
    requires AllDigits(s)
    ensures v < Pow10(|s|)
  {
    if |s| == 0 then 0 else 10 * DecimalValue(s[..|s| - 1]) + (s[|s| - 1] - 48)
  }

  /** The zero-padded `width`-digit ASCII spelling of `v`: what a writer puts in a
      numeric field. Digits of `v` beyond `width` are dropped. */
  function EncodeDecimal(v: nat, width: nat): (s: seq<byte>)
    ensures |s| == width && AllDigits(s)
  {
    if width == 0 then [] else EncodeDecimal(v / 10, width - 1) + [48 + v % 10]
  }

  /** Every value that fits in `width` digits is read back from its spelling. */
  lemma {:induction false} DecimalRoundTrip(v: nat, width: nat)
    requires v < Pow10(width)
    ensures DecimalValue(EncodeDecimal(v, width)) == v
  {
    if width > 0 {
      var s := EncodeDecimal(v, width);
      assert s[..width - 1] == EncodeDecimal(v / 10, width - 1);
      DecimalRoundTrip(v / 10, width - 1);
    }
  }

  /** Every digit string is the spelling of its own value: together with
      `DecimalRoundTrip`, decoding is a bijection between `width`-digit strings and
      the numbers below 10^width. */
  lemma {:induction false} DigitsRoundTrip(s: seq<byte>)
    requires AllDigits(s)
    ensures EncodeDecimal(DecimalValue(s), |s|) == s
  {
    if |s| > 0 {
      var v := DecimalValue(s);
      var front := s[..|s| - 1];
      assert v / 10 == DecimalValue(front);
      assert v % 10 == s[|s| - 1] - 48;
      DigitsRoundTrip(front);
      assert s == front + [s[|s| - 1]];
    }
  }

  /** The octets as characters, each octet one ISO 8859-1 character. */
  function ToText(s: seq<byte>): (t: string)
    ensures |t| == |s|
  {
    if |s| == 0 then [] else ToText(s[..|s| - 1]) + [s[|s| - 1] as char]
  }

  /** Character i of the text is the character whose code is octet i. */
  lemma {:induction false} ToTextIndex(s: seq<byte>, i: nat)
    requires i < |s|
    ensures ToText(s)[i] as int == s[i]
  {
    if i < |s| - 1 {
      assert s[..|s| - 1][i] == s[i];
      ToTextIndex(s[..|s| - 1], i);
    }
  }

  /** `s` without its trailing space padding. */
  function TrimTrailing(s: string): (t: string)
    ensures |t| <= |s|
  {
    if |s| == 0 || s[|s| - 1] != Space then s else TrimTrailing(s[..|s| - 1])
  }

  /** Trimming keeps a prefix that does not end in a space, and removes only
      spaces. */
  lemma {:induction false} TrimTrailingSpec(s: string)
    ensures TrimTrailing(s) <= s
    ensures |TrimTrailing(s)| == 0 || TrimTrailing(s)[|TrimTrailing(s)| - 1] != Space
    ensures forall i :: |TrimTrailing(s)| <= i < |s| ==> s[i] == Space
  {
    if |s| > 0 && s[|s| - 1] == Space {
      TrimTrailingSpec(s[..|s| - 1]);
    }
  }

  /** `k` padding spaces. */
  function Spaces(k: nat): (s: string)
    ensures |s| == k && forall i :: 0 <= i < k ==> s[i] == Space
  {
    seq(k, i => Space)
  }

  /** Re-padding a trimmed value to any width and trimming again yields the value. */
  lemma {:induction false} TrimPadRoundTrip(s: string, k: nat)
    ensures TrimTrailing(TrimTrailing(s) + Spaces(k)) == TrimTrailing(s)
  {
    var t := TrimTrailing(s);
    TrimTrailingSpec(s);
    if k > 0 {
      assert (t + Spaces(k))[..|t| + k - 1] == t + Spaces(k - 1);
      TrimPadRoundTrip(s, k - 1);
    } else {
      assert t + Spaces(0) == t;
    }
  }

  /** The raw `width` octets at the cursor. */
  function ReadBytes(c: Cursor, width: nat): (r: Result<Read<seq<byte>>>)
    requires c.Valid()
    ensures r.Success? <==> c.pos + width <= |c.data|
    ensures r.Success? ==> r.value.value == c.data[c.pos..c.pos + width]
    ensures r.Success? ==> r.value.next == c.Advance(width) && r.value.next.Valid()
    ensures r.Failure? ==> r.error == Error(Malformed, c.pos)
  {
    if c.pos + width <= |c.data| then
      Success(Read(c.data[c.pos..c.pos + width], c.Advance(width)))
    else
      Failure(Error(Malformed, c.pos))
  }

  /** Consumes `width` octets without keeping them. On a forward-only input they
      are still read and discarded, so the same octets must be present. */
  function Skip(c: Cursor, width: nat): (r: Result<Cursor>)
    requires c.Valid()
    ensures r.Success? <==> c.pos + width <= |c.data|
    ensures r.Success? ==> r.value == c.Advance(width) && r.value.Valid()
    ensures r.Failure? ==> r.error == Error(Malformed, c.pos)
  {
    var field :- ReadBytes(c, width);
    Success(field.next)
  }

  /** A fixed-width text field, kept as read. */
  function ReadText(c: Cursor, width: nat): (r: Result<Read<string>>)
    requires c.Valid()
    ensures r.Success? <==> c.pos + width <= |c.data|
    ensures r.Success? ==> r.value.value == ToText(c.data[c.pos..c.pos + width])
    ensures r.Success? ==> r.value.next == c.Advance(width) && r.value.next.Valid()
    ensures r.Failure? ==> r.error == Error(Malformed, c.pos)
  {
    var field :- ReadBytes(c, width);
    Success(Read(ToText(field.value), field.next))
  }

  /** A fixed-width text field with its trailing padding removed. */
  function ReadTrimmed(c: Cursor, width: nat): (r: Result<Read<string>>)
    requires c.Valid()
    ensures r.Success? <==> c.pos + width <= |c.data|
    ensures r.Success? ==> r.value.value == TrimTrailing(ToText(c.data[c.pos..c.pos + width]))
    ensures r.Success? ==> r.value.next == c.Advance(width) && r.value.next.Valid()
    ensures r.Failure? ==> r.error == Error(Malformed, c.pos)
  {
    var field :- ReadText(c, width);
    Success(Read(TrimTrailing(field.value), field.next))
  }

  /** The value of the `width` octets at `start`, read digit by digit, or `None`
      when they run past the input or one of them is not an ASCII digit. */
  function FieldValue(data: seq<byte>, start: nat, width: nat): (r: Option<nat>)
    ensures r.Some? ==> start + width <= |data| && r.value < Pow10(width)
    decreases width
  {
    if start + width > |data| then None
    else if width == 0 then Some(0)
    else match FieldValue(data, start, width - 1)
      case None => None
      case Some(v) =>
        var b := data[start + width - 1];
        if IsDigit(b) then Some(10 * v + (b - 48)) else None
  }

  /** Reading a field in place agrees with taking its octets and decoding them. */
  lemma {:induction false} FieldValueIsDecimal(data: seq<byte>, start: nat, width: nat)
    requires start + width <= |data|
    ensures FieldValue(data, start, width).Some? <==> AllDigits(data[start..start + width])
    ensures FieldValue(data, start, width).Some? ==>
      FieldValue(data, start, width).value == DecimalValue(data[start..start + width])
    decreases width
  {
    if width > 0 {
      var s := data[start..start + width];
      assert s[..width - 1] == data[start..start + width - 1];
      assert s[width - 1] == data[start + width - 1];
      FieldValueIsDecimal(data, start, width - 1);
      if AllDigits(s) {
        assert AllDigits(s[..width - 1]);
      }
    }
  }

  /** The `width` octets at `start` are ASCII digits spelling `v`. */
  predicate FieldIs(data: seq<byte>, start: nat, width: nat, v: nat) {
    FieldValue(data, start, width) == Some(v)
  }

  /** The `width` octets at `start` are ASCII digits spelling a value above `bound`. */
  predicate FieldAbove(data: seq<byte>, start: nat, width: nat, bound: nat) {
    FieldValue(data, start, width).Some? && FieldValue(data, start, width).value > bound
  }

  /** `a` and `b` both extend to `hi` and hold the same octets from `lo` to `hi`. */
  predicate SameOctets(a: seq<byte>, b: seq<byte>, lo: nat, hi: nat) {
    && hi <= |a| && hi <= |b|
    && forall i :: lo <= i < hi ==> a[i] == b[i]
  }

  lemma SameOctetsWithin(a: seq<byte>, b: seq<byte>, lo: nat, hi: nat, lo': nat, hi': nat)
    requires SameOctets(a, b, lo, hi) && lo <= lo' && hi' <= hi
    ensures SameOctets(a, b, lo', hi')
  {
  }

  /** A field's value depends only on its own octets. */
  lemma {:induction false} FieldValueLocal(a: seq<byte>, b: seq<byte>, start: nat, width: nat)
    requires SameOctets(a, b, start, start + width)
    ensures FieldValue(a, start, width) == FieldValue(b, start, width)
    decreases width
  {
    if width > 0 {
      FieldValueLocal(a, b, start, width - 1);
    }
  }

  /** A fixed-width unsigned decimal field. Only the digits 0-9 are accepted. */
  function ReadInteger(c: Cursor, width: nat): (r: Result<Read<nat>>)
    requires c.Valid()
    ensures r.Success? <==> FieldValue(c.data, c.pos, width).Some?
    ensures r.Success? ==> FieldIs(c.data, c.pos, width, r.value.value) && r.value.value < Pow10(width)
    ensures r.Success? ==> r.value.next == c.Advance(width) && r.value.next.Valid()
    ensures r.Failure? ==> r.error == Error(Malformed, c.pos)
  {
    match FieldValue(c.data, c.pos, width)
    case None => Failure(Error(Malformed, c.pos))
    case Some(v) => Success(Read(v, c.Advance(width)))
  }

  /** Conversely to `ReadInteger`'s contract, a field that spells `v` is read as `v`. */
  lemma ReadIntegerOfField(c: Cursor, width: nat, v: nat)
    requires c.Valid() && FieldIs(c.data, c.pos, width, v)
    ensures ReadInteger(c, width) == Success(Read(v, c.Advance(width)))
  {
  }

  /** A numeric field written by `EncodeDecimal` is read back as the same value,
      for every value the width can hold (for instance "00" to "99" for CLEVEL). */
  lemma ReadIntegerOfEncoded(v: nat, width: nat, seekable: bool)
    requires v < Pow10(width)
    ensures ReadInteger(Cursor(EncodeDecimal(v, width), 0, seekable), width)
         == Success(Read(v, Cursor(EncodeDecimal(v, width), width, seekable)))
  {
    var s := EncodeDecimal(v, width);
    assert s[0..width] == s;
    DecimalRoundTrip(v, width);
    FieldValueIsDecimal(s, 0, width);
  }
}
