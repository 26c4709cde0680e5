/** Properties of the whole decode that relate several stages: the streaming
    gate, the unsupported-feature exits and the agreement between the declared
    index tables and the extracted segments. */
module HeaderProperties {
  import opened NitfBase
  import opened ByteCursor
  import opened NitfHeaderReader

  /** A streaming-mode FL on a forward-only input stops the decode right after FL,
      before HL or any index entry is read. */
  lemma {:induction false} StreamingNeedsSeekableInput(data: seq<byte>, env: Collaborators)
    requires ReadPreamble(Cursor(data, 0, false), env).Success?
    requires FieldIs(data, ReadPreamble(Cursor(data, 0, false), env).value.next.pos, FlLength, StreamingFileMode)
    ensures Decodable(data, false, env)
    ensures DecodeFile(data, false, env)
         == Failure(Error(NotSeekable, ReadPreamble(Cursor(data, 0, false), env).value.next.pos + FlLength))
  {
    var c := Cursor(data, 0, false);
    var p := ReadPreamble(c, env).value.next;
    assert ReadFileLength(p) == Failure(Error(NotSeekable, p.pos + FlLength));
    assert ReadLeadingFields(c, env) == Failure(Error(NotSeekable, p.pos + FlLength));
    assert ReadHeader(c, env) == Failure(Error(NotSeekable, p.pos + FlLength));
  }

  /** The trailer-level form of the two unsupported-feature exits. */
  lemma TrailerExits(n: Cursor)
    requires n.Valid()
    ensures FieldAbove(n.data, n.pos, NumresLength, 0)
            ==> ExtendedLengthOk(n) && ReadTrailer(n) == Failure(Error(Unsupported, n.pos + NumresLength))
    ensures FieldIs(n.data, n.pos, NumresLength, 0) && FieldAbove(n.data, n.pos + NumresLength, UdhdlLength, 0)
            ==> && ExtendedLengthOk(n)
                && ReadTrailer(n) == Failure(Error(Unsupported, n.pos + NumresLength + UdhdlLength))
  {
  }

  /** A header whose trailer fails fails the whole decode with the same error. */
  lemma TrailerFailureIsFileFailure(data: seq<byte>, seekable: bool, env: Collaborators, n: Cursor)
    requires ReadLeadingFields(Cursor(data, 0, seekable), env).Success?
    requires ReadLeadingFields(Cursor(data, 0, seekable), env).value.next == n
    requires ExtendedLengthOk(n) && ReadTrailer(n).Failure?
    ensures Decodable(data, seekable, env)
    ensures DecodeFile(data, seekable, env) == Failure(ReadTrailer(n).error)
  {
  }

  /** Any reserved extension segment is unsupported: the decode stops right after
      NUMRES, whatever follows it. */
  lemma ReservedExtensionsUnsupported(data: seq<byte>, seekable: bool, env: Collaborators,
                                      leading: Read<LeadingFields>)
    requires ReadLeadingFields(Cursor(data, 0, seekable), env) == Success(leading)
    requires FieldAbove(data, leading.next.pos, NumresLength, 0)
    ensures Decodable(data, seekable, env)
    ensures DecodeFile(data, seekable, env) == Failure(Error(Unsupported, leading.next.pos + NumresLength))
  {
    TrailerExits(leading.next);
    TrailerFailureIsFileFailure(data, seekable, env, leading.next);
  }

  /** User defined header data is unsupported: with no reserved extension
      segments, a non-zero UDHDL stops the decode right after UDHDL. */
  lemma UserDefinedHeaderUnsupported(data: seq<byte>, seekable: bool, env: Collaborators,
                                     leading: Read<LeadingFields>)
    requires ReadLeadingFields(Cursor(data, 0, seekable), env) == Success(leading)
    requires FieldIs(data, leading.next.pos, NumresLength, 0)
    requires FieldAbove(data, leading.next.pos + NumresLength, UdhdlLength, 0)
    ensures Decodable(data, seekable, env)
    ensures DecodeFile(data, seekable, env)
         == Failure(Error(Unsupported, leading.next.pos + NumresLength + UdhdlLength))
  {
    TrailerExits(leading.next);
    TrailerFailureIsFileFailure(data, seekable, env, leading.next);
  }

  /** In a decoded file, the segment at each zero-based position of a kind exists
      exactly when the header declares a data length there, and carries that
      length: the i-th segment is given the i-th declared length. */
  lemma SegmentsHaveDeclaredLengths(data: seq<byte>, seekable: bool, env: Collaborators,
                                    kind: SegmentKind, index: int)
    requires Decodable(data, seekable, env) && DecodeFile(data, seekable, env).Success?
    requires kind != DataExtension
    ensures var m := DecodeFile(data, seekable, env).value;
      && (GetSegmentZeroBase(m, kind, index).Some? <==> LengthOfData(m.header, kind, index).Some?)
      && (GetSegmentZeroBase(m, kind, index).Some? ==>
            GetSegmentZeroBase(m, kind, index).value.dataLength == LengthOfData(m.header, kind, index).value)
  {
    var body := ReadBody(data, seekable, env).value;
    var t := body.0.value.tables;
    var runs := body.1.value;
    match kind
    case Image => assert |runs.images| == |t.li|;
    case Graphic => assert |runs.graphics| == |t.ls|;
    case Text => assert |runs.texts| == |t.lt|;
  }

  /** NUMX is read and thrown away: whatever its three octets hold, the same index
      tables are decoded and the cursor ends at the same offset. */
  lemma NumxIgnored(c: Cursor, other: seq<byte>)
    requires c.Valid() && ReadIndexTables(c).Success?
    requires var t := ReadIndexTables(c).value.value;
      && |other| == |c.data|
      && SameOctets(c.data, other, c.pos, NumxOffset(c.pos, t))
      && SameOctets(c.data, other, NumtOffset(c.pos, t), |c.data|)
    ensures var c' := Cursor(other, c.pos, c.seekable);
      && ReadIndexTables(c').Success?
      && ReadIndexTables(c').value.value == ReadIndexTables(c).value.value
      && ReadIndexTables(c').value.next.pos == ReadIndexTables(c).value.next.pos
  {
    var t := ReadIndexTables(c).value.value;
    ReadIndexTablesSpell(c);
    TablesAtLocal(c.data, other, c.pos, t);
    ReadIndexTablesOfTablesAt(Cursor(other, c.pos, c.seekable), t);
  }
}
