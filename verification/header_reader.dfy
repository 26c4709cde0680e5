/** The NITF file header decoder and segment extractor. The header is read as a
    strict linear sequence of fixed-width fields (MIL-STD-2500C, Appendix A,
    Table A-1): FHDR/FVER, CLEVEL, STYPE, OSTAID, FDT, FTITLE, the file security
    block, ENCRYP, FBKGC, ONAME, OPHONE, FL, HL, four count-then-pairs index tables
    (image, graphic, text, DES, with NUMX skipped between graphic and text), NUMRES,
    UDHDL and XHDL with its optional overflow and data. Segments are extracted only
    once the whole header has been read, kind by kind in that same order. */
module NitfHeaderReader {
  import opened NitfBase
  import opened ByteCursor
  import opened Security

  // Field widths, in octets.
  const FhdrLength: nat := 4
  const FverLength: nat := 5
  const ClevelLength: nat := 2
  const StypeLength: nat := 4
  const OstaidLength: nat := 10
  const FdtLength: nat := 14
  const FtitleLength: nat := 80
  const EncrypLength: nat := 1
  const FbkgcLength: nat := 3
  const OnameLength: nat := 24
  const OphoneLength: nat := 18
  const FlLength: nat := 12
  const HlLength: nat := 6
  const NumiLength: nat := 3
  const LishLength: nat := 6
  const LiLength: nat := 10
  const NumsLength: nat := 3
  const LsshLength: nat := 4
  const LsLength: nat := 6
  const NumxLength: nat := 3
  const NumtLength: nat := 3
  const LtshLength: nat := 4
  const LtLength: nat := 5
  const NumdesLength: nat := 3
  const LdshLength: nat := 4
  const LdLength: nat := 9
  const NumresLength: nat := 3
  const UdhdlLength: nat := 5
  const XhdlLength: nat := 5
  const XhdloflLength: nat := 3

  /** The FL value announcing a streaming-mode file, whose true length is only
      known later and which therefore needs a seekable input. */
  const StreamingFileMode: nat := 999999999999

  datatype SegmentKind = Image | Graphic | Text | DataExtension

  /** What the file security block decoder reports: the record and the number of
      octets the block spans. */
  datatype SecurityBlock = SecurityBlock(metadata: SecurityMetadata, length: nat)

  /** The decoders the header reader delegates to. Each is given the dialect
      marker (the FHDR/FVER text, which decides the dialect's field widths) and
      the input from the cursor on, and says how many octets it consumes, or
      fails (`None`). */
  datatype Collaborators = Collaborators(
    fileSecurity: (string, seq<byte>) -> Option<SecurityBlock>,
    subheader: (string, SegmentKind, seq<byte>) -> Option<nat>)

  /** The fields from FHDR to OPHONE. The background colour octets are kept as
      the Java `byte`s the getters return. */
  datatype Preamble = Preamble(
    fileType: string,
    complexityLevel: nat,
    standardType: string,
    originatingStationId: string,
    fileDateTime: seq<byte>,
    fileTitle: string,
    fileSecurity: SecurityMetadata,
    backgroundRed: int8,
    backgroundGreen: int8,
    backgroundBlue: int8,
    originatorsName: string,
    originatorsPhoneNumber: string)

  /** One count-then-pairs index table, in declaration order. */
  datatype IndexTable = IndexTable(subheaderLengths: seq<nat>, dataLengths: seq<nat>)

  /** The declared segment counts and their index tables (NUMI to the last LD). */
  datatype IndexTables = IndexTables(
    numberImageSegments: nat, lish: seq<nat>, li: seq<nat>,
    numberGraphicSegments: nat, lssh: seq<nat>, ls: seq<nat>,
    numberTextSegments: nat, ltsh: seq<nat>, lt: seq<nat>,
    numberDataExtensionSegments: nat, ldsh: seq<nat>, ld: seq<nat>)
  {
    /** Each table holds exactly as many entries as its count declares. */
    predicate WellShaped() {
      && |lish| == |li| == numberImageSegments
      && |lssh| == |ls| == numberGraphicSegments
      && |ltsh| == |lt| == numberTextSegments
      && |ldsh| == |ld| == numberDataExtensionSegments
    }
  }

  /** NUMRES, UDHDL and the extended header. */
  datatype Trailer = Trailer(
    numberReservedExtensionSegments: nat,
    userDefinedHeaderDataLength: nat,
    extendedHeaderDataLength: nat,
    extendedHeaderOverflow: nat,
    extendedHeaderData: Option<string>)

  /** The fields before NUMRES. */
  datatype LeadingFields = LeadingFields(
    preamble: Preamble, fileLength: nat, headerLength: nat, tables: IndexTables)

  datatype FileHeader = FileHeader(
    preamble: Preamble, fileLength: nat, headerLength: nat, tables: IndexTables, trailer: Trailer)

  /** An extracted segment: where its subheader lies and how long its payload is.
      The payload itself is not retained. */
  datatype Segment = Segment(kind: SegmentKind, subheaderOffset: nat, subheaderLength: nat, dataLength: nat) {

    function DataOffset(): nat {
      subheaderOffset + subheaderLength
    }

    function End(): nat {
      DataOffset() + dataLength
    }
  }

  datatype FileModel = FileModel(
    header: FileHeader,
    imageSegments: seq<Segment>,
    graphicSegments: seq<Segment>,
    textSegments: seq<Segment>,
    dataExtensionSegments: seq<Segment>)

  /** `segs` lie end to end from `start`, in order. */
  predicate Contiguous(start: nat, segs: seq<Segment>) {
    && (|segs| > 0 ==> segs[0].subheaderOffset == start)
    && forall i :: 0 < i < |segs| ==> segs[i].subheaderOffset == segs[i - 1].End()
  }

  /** Where a run of segments starting at `start` ends. */
  function SpanEnd(start: nat, segs: seq<Segment>): nat {
    if |segs| == 0 then start else segs[|segs| - 1].End()
  }

  /** Octets from the start of FHDR to the end of FTITLE: where the file security
      block starts. */
  const SecurityOffset: nat :=
    FhdrLength + FverLength + ClevelLength + StypeLength + OstaidLength + FdtLength + FtitleLength

  /** Octets from ENCRYP to the end of OPHONE. */
  const OriginTailLength: nat := EncrypLength + FbkgcLength + OnameLength + OphoneLength

  /** FHDR/FVER to FTITLE, as read by `ReadFront`. */
  datatype Front = Front(
    fileType: string, complexityLevel: nat, standardType: string, originatingStationId: string,
    fileDateTime: seq<byte>, fileTitle: string)

  /** The part of `p` that `ReadFront` reads. */
  function FrontOf(p: Preamble): Front {
    Front(p.fileType, p.complexityLevel, p.standardType, p.originatingStationId, p.fileDateTime, p.fileTitle)
  }

  /** The FHDR/FVER to FTITLE fields of `f` are the ones at `start`, each at the
      offset the widths of the fields before it give. */
  predicate FrontFieldsAt(data: seq<byte>, start: nat, f: Front)
    requires start + SecurityOffset <= |data|
  {
    var clevel := start + FhdrLength + FverLength;
    var stype := clevel + ClevelLength;
    var ostaid := stype + StypeLength;
    var fdt := ostaid + OstaidLength;
    var ftitle := fdt + FdtLength;
    && f.fileType == ToText(data[start..clevel])
    && FieldIs(data, clevel, ClevelLength, f.complexityLevel)
    && f.standardType == ToText(data[stype..ostaid])
    && f.originatingStationId == TrimTrailing(ToText(data[ostaid..fdt]))
    && f.fileDateTime == data[fdt..ftitle]
    && f.fileTitle == TrimTrailing(ToText(data[ftitle..ftitle + FtitleLength]))
  }

  /** The security block to OPHONE, as read by `ReadOrigin`. */
  datatype Origin = Origin(
    security: SecurityMetadata, red: int8, green: int8, blue: int8, name: string, phone: string)

  /** The part of `p` that `ReadOrigin` reads. */
  function OriginOf(p: Preamble): Origin {
    Origin(p.fileSecurity, p.backgroundRed, p.backgroundGreen, p.backgroundBlue,
           p.originatorsName, p.originatorsPhoneNumber)
  }

  /** The ENCRYP to OPHONE octets at `start` hold the colour and originator fields
      of `o`: ENCRYP is passed over, FBKGC gives the three colour octets. */
  predicate BackFieldsAt(data: seq<byte>, start: nat, o: Origin)
    requires start + OriginTailLength <= |data|
  {
    var fbkgc := start + EncrypLength;
    var oname := fbkgc + FbkgcLength;
    var ophone := oname + OnameLength;
    && o.red == AsInt8(data[fbkgc])
    && o.green == AsInt8(data[fbkgc + 1])
    && o.blue == AsInt8(data[fbkgc + 2])
    && o.name == TrimTrailing(ToText(data[oname..ophone]))
    && o.phone == TrimTrailing(ToText(data[ophone..ophone + OphoneLength]))
  }

  /** What the security collaborator reports at the cursor, in dialect `fileType`. */
  function SecurityBlockAt(c: Cursor, fileType: string, env: Collaborators): Option<SecurityBlock>
    requires c.Valid()
  {
    env.fileSecurity(fileType, c.data[c.pos..])
  }

  /** The file security block, decoded by the security collaborator: its record
      is kept and exactly the octets it reports are consumed. */
  function ReadFileSecurity(c: Cursor, fileType: string, env: Collaborators): (r: Result<Read<SecurityMetadata>>)
    requires c.Valid()
    ensures r.Success? <==>
      SecurityBlockAt(c, fileType, env).Some? && c.pos + SecurityBlockAt(c, fileType, env).value.length <= |c.data|
    ensures r.Success? ==>
      && SecurityBlockAt(c, fileType, env).Some?
      && r.value.value == SecurityBlockAt(c, fileType, env).value.metadata
      && r.value.next == c.Advance(SecurityBlockAt(c, fileType, env).value.length)
    ensures r.Failure? ==> r.error == Error(Malformed, c.pos)
  {
    match env.fileSecurity(fileType, c.data[c.pos..])
    case None => Failure(Error(Malformed, c.pos))
    case Some(block) =>
      var next :- Skip(c, block.length);
      Success(Read(block.metadata, next))
  }

  /** FHDR/FVER to OPHONE: the fields up to FTITLE, then the security block and
      the fields after it, read in the dialect FHDR/FVER names. */
  function ReadPreamble(c: Cursor, env: Collaborators): (r: Result<Read<Preamble>>)
    requires c.Valid()
    ensures r.Success? <==>
      && ReadFront(c).Success?
      && ReadOrigin(c.Advance(SecurityOffset), ReadFront(c).value.value.fileType, env).Success?
    ensures r.Success? ==>
      && ReadFront(c) == Success(Read(FrontOf(r.value.value), c.Advance(SecurityOffset)))
      && ReadOrigin(c.Advance(SecurityOffset), r.value.value.fileType, env)
         == Success(Read(OriginOf(r.value.value), r.value.next))
    ensures r.Success? ==> r.value.next.Valid() && r.value.next.data == c.data
    ensures r.Success? ==> r.value.next.seekable == c.seekable && r.value.next.pos >= c.pos + SecurityOffset
    ensures r.Success? ==> r.value.value.complexityLevel <= 99
    ensures r.Failure? ==> r.error.kind == Malformed
  {
    var front :- ReadFront(c);
    var f := front.value;
    var origin :- ReadOrigin(front.next, f.fileType, env);
    var o := origin.value;
    Success(Read(
      Preamble(f.fileType, f.complexityLevel, f.standardType, f.originatingStationId, f.fileDateTime, f.fileTitle,
               o.security, o.red, o.green, o.blue, o.name, o.phone),
      origin.next))
  }

  /** FHDR/FVER to FTITLE: 119 octets. CLEVEL is range-checked against [0, 99];
      since it is two decimal digits the check never fires, so the read succeeds
      exactly when the octets are present and CLEVEL is two digits. */
  function ReadFront(c: Cursor): (r: Result<Read<Front>>)
    requires c.Valid()
    ensures r.Success? <==>
      c.pos + SecurityOffset <= |c.data| && FieldValue(c.data, c.pos + FhdrLength + FverLength, ClevelLength).Some?
    ensures r.Success? ==> r.value.next == c.Advance(SecurityOffset) && r.value.next.Valid()
    ensures r.Success? ==> r.value.value.complexityLevel <= 99
    ensures r.Failure? ==> r.error.kind == Malformed
  {
    var fhdrFver :- ReadText(c, FhdrLength + FverLength);
    var clevel :- ReadInteger(fhdrFver.next, ClevelLength);
    if clevel.value < 0 || clevel.value > 99 then
      Failure(Error(OutOfRange, clevel.next.pos))
    else
      var stype :- ReadText(clevel.next, StypeLength);
      var ostaid :- ReadTrimmed(stype.next, OstaidLength);
      var fdt :- ReadBytes(ostaid.next, FdtLength);
      var ftitle :- ReadTrimmed(fdt.next, FtitleLength);
      Success(Read(Front(fhdrFver.value, clevel.value, stype.value, ostaid.value, fdt.value, ftitle.value),
                   ftitle.next))
  }

  /** Soundness of `ReadFront`: every field from FHDR/FVER to FTITLE is the one
      spelled at its running offset. */
  lemma ReadFrontSpells(c: Cursor)
    requires c.Valid() && ReadFront(c).Success?
    ensures c.pos + SecurityOffset <= |c.data|
    ensures FrontFieldsAt(c.data, c.pos, ReadFront(c).value.value)
  {
  }

  /** The file security block to OPHONE: the security fields as the collaborator
      decodes them in dialect `fileType`, ENCRYP (passed over), the three FBKGC
      colour octets, ONAME and OPHONE, laid end to end. */
  function ReadOrigin(c: Cursor, fileType: string, env: Collaborators): (r: Result<Read<Origin>>)
    requires c.Valid()
    ensures r.Success? <==>
      && SecurityBlockAt(c, fileType, env).Some?
      && c.pos + SecurityBlockAt(c, fileType, env).value.length + OriginTailLength <= |c.data|
    ensures r.Success? ==>
      && SecurityBlockAt(c, fileType, env).Some?
      && r.value.value.security == SecurityBlockAt(c, fileType, env).value.metadata
      && r.value.next == c.Advance(SecurityBlockAt(c, fileType, env).value.length + OriginTailLength)
      && r.value.next.Valid()
    ensures r.Failure? ==> r.error.kind == Malformed
  {
    var security :- ReadFileSecurity(c, fileType, env);
    var encryp :- Skip(security.next, EncrypLength);
    var fbkgc :- ReadBytes(encryp, FbkgcLength);
    var oname :- ReadTrimmed(fbkgc.next, OnameLength);
    var ophone :- ReadTrimmed(oname.next, OphoneLength);
    var colour := fbkgc.value;
    Success(Read(Origin(security.value, AsInt8(colour[0]), AsInt8(colour[1]), AsInt8(colour[2]),
                        oname.value, ophone.value),
                 ophone.next))
  }

  /** Soundness of `ReadOrigin`: the colour and originator fields are the ones
      spelled right after the security block and ENCRYP. */
  lemma ReadOriginSpells(c: Cursor, fileType: string, env: Collaborators)
    requires c.Valid() && ReadOrigin(c, fileType, env).Success?
    ensures SecurityBlockAt(c, fileType, env).Some?
    ensures var l := SecurityBlockAt(c, fileType, env).value.length;
      && c.pos + l + OriginTailLength <= |c.data|
      && BackFieldsAt(c.data, c.pos + l, ReadOrigin(c, fileType, env).value.value)
  {
    var security := ReadFileSecurity(c, fileType, env).value;
    var encryp := Skip(security.next, EncrypLength).value;
    var fbkgc := ReadBytes(encryp, FbkgcLength).value;
    var oname := ReadTrimmed(fbkgc.next, OnameLength).value;
    assert fbkgc.next.pos == c.pos + SecurityBlockAt(c, fileType, env).value.length + EncrypLength + FbkgcLength;
    assert oname.next.pos == fbkgc.next.pos + OnameLength;
  }

  /** FL, and the streaming-mode gate: the sentinel value is accepted only on a
      seekable input. On a forward-only input the parse stops right after FL. */
  function ReadFileLength(c: Cursor): (r: Result<Read<nat>>)
    requires c.Valid()
    ensures r.Success? <==>
      && FieldValue(c.data, c.pos, FlLength).Some?
      && (FieldValue(c.data, c.pos, FlLength).value == StreamingFileMode ==> c.seekable)
    ensures r.Success? ==> FieldIs(c.data, c.pos, FlLength, r.value.value)
    ensures r.Success? ==> r.value.next == c.Advance(FlLength) && r.value.next.Valid()
    ensures r.Failure? && r.error.kind == NotSeekable <==>
      FieldIs(c.data, c.pos, FlLength, StreamingFileMode) && !c.seekable
    ensures r.Failure? ==> r.error == Error(Malformed, c.pos) || r.error == Error(NotSeekable, c.pos + FlLength)
  {
    var fl :- ReadInteger(c, FlLength);
    if fl.value == StreamingFileMode && !fl.next.seekable then
      Failure(Error(NotSeekable, fl.next.pos))
    else
      Success(fl)
  }

  /** Octets taken by `count` entries of `w` octets each. */
  function TableOctets(count: nat, w: nat): nat {
    if count == 0 then 0 else w + TableOctets(count - 1, w)
  }

  lemma {:induction false} TableOctetsIsProduct(count: nat, w: nat)
    ensures TableOctets(count, w) == count * w
  {
    if count > 0 {
      TableOctetsIsProduct(count - 1, w);
    }
  }

  /** One (subheader length, data length) pair. */
  function ReadIndexEntry(c: Cursor, shWidth: nat, dWidth: nat): (r: Result<Read<(nat, nat)>>)
    requires c.Valid()
    ensures r.Success? ==> FieldIs(c.data, c.pos, shWidth, r.value.value.0)
    ensures r.Success? ==> FieldIs(c.data, c.pos + shWidth, dWidth, r.value.value.1)
    ensures r.Success? ==> r.value.next == c.Advance(shWidth + dWidth) && r.value.next.Valid()
    ensures r.Failure? ==> r.error.kind == Malformed
  {
    var sh :- ReadInteger(c, shWidth);
    var d :- ReadInteger(sh.next, dWidth);
    Success(Read((sh.value, d.value), d.next))
  }

  /** The (subheader length, data length) pairs at `start` spell `shs` and `ds`,
      first entry first. */
  predicate EntriesAt(data: seq<byte>, start: nat, shWidth: nat, dWidth: nat, shs: seq<nat>, ds: seq<nat>)
    decreases |shs|
  {
    if |shs| == 0 then
      ds == []
    else
      && |ds| > 0
      && FieldIs(data, start, shWidth, shs[0])
      && FieldIs(data, start + shWidth, dWidth, ds[0])
      && EntriesAt(data, start + shWidth + dWidth, shWidth, dWidth, shs[1..], ds[1..])
  }

  /** Entry i of a spelled table is the pair of fields i entries after `start`. */
  lemma {:induction false} EntriesAtIndex(data: seq<byte>, start: nat, shWidth: nat, dWidth: nat,
                                          shs: seq<nat>, ds: seq<nat>, i: nat)
    requires EntriesAt(data, start, shWidth, dWidth, shs, ds) && i < |shs|
    ensures |ds| == |shs|
    ensures FieldIs(data, start + i * (shWidth + dWidth), shWidth, shs[i])
    ensures FieldIs(data, start + i * (shWidth + dWidth) + shWidth, dWidth, ds[i])
    decreases |shs|
  {
    EntriesAtLength(data, start, shWidth, dWidth, shs, ds);
    if i > 0 {
      EntriesAtIndex(data, start + shWidth + dWidth, shWidth, dWidth, shs[1..], ds[1..], i - 1);
      assert start + i * (shWidth + dWidth) == start + shWidth + dWidth + (i - 1) * (shWidth + dWidth);
    }
  }

  lemma {:induction false} EntriesAtLength(data: seq<byte>, start: nat, shWidth: nat, dWidth: nat,
                                           shs: seq<nat>, ds: seq<nat>)
    requires EntriesAt(data, start, shWidth, dWidth, shs, ds)
    ensures |ds| == |shs|
    decreases |shs|
  {
    if |shs| > 0 {
      EntriesAtLength(data, start + shWidth + dWidth, shWidth, dWidth, shs[1..], ds[1..]);
    }
  }

  /** `count` (subheader length, data length) pairs, read pair by pair, in
      declaration order. What the pairs are is stated by `ReadIndexTableSpells`. */
  function ReadIndexTable(c: Cursor, count: nat, shWidth: nat, dWidth: nat): (r: Result<Read<IndexTable>>)
    requires c.Valid()
    ensures r.Success? ==> |r.value.value.subheaderLengths| == count && |r.value.value.dataLengths| == count
    ensures r.Success? ==> r.value.next == c.Advance(TableOctets(count, shWidth + dWidth)) && r.value.next.Valid()
    ensures r.Failure? ==> r.error.kind == Malformed
    decreases count
  {
    if count == 0 then
      Success(Read(IndexTable([], []), c))
    else
      match ReadIndexEntry(c, shWidth, dWidth)
      case Failure(e) => Failure(e)
      case Success(entry) =>
        match ReadIndexTable(entry.next, count - 1, shWidth, dWidth)
        case Failure(e) => Failure(e)
        case Success(rest) =>
          Success(Read(IndexTable([entry.value.0] + rest.value.subheaderLengths,
                                  [entry.value.1] + rest.value.dataLengths), rest.next))
  }

  /** Soundness of `ReadIndexTable`: the lists it returns are the pairs the octets
      at the cursor spell, first entry first. */
  lemma {:induction false} ReadIndexTableSpells(c: Cursor, count: nat, shWidth: nat, dWidth: nat)
    requires c.Valid() && ReadIndexTable(c, count, shWidth, dWidth).Success?
    ensures var t := ReadIndexTable(c, count, shWidth, dWidth).value.value;
      EntriesAt(c.data, c.pos, shWidth, dWidth, t.subheaderLengths, t.dataLengths)
    decreases count
  {
    if count > 0 {
      var entry := ReadIndexEntry(c, shWidth, dWidth).value;
      var rest := ReadIndexTable(entry.next, count - 1, shWidth, dWidth).value;
      ReadIndexTableSpells(entry.next, count - 1, shWidth, dWidth);
      var shs := [entry.value.0] + rest.value.subheaderLengths;
      var ds := [entry.value.1] + rest.value.dataLengths;
      assert shs[1..] == rest.value.subheaderLengths && ds[1..] == rest.value.dataLengths;
    }
  }

  /** Completeness of `ReadIndexTable`: wherever the pairs at the cursor spell
      `shs` and `ds`, reading |shs| entries returns exactly those lists. */
  lemma {:induction false} ReadIndexTableOfEntries(c: Cursor, shWidth: nat, dWidth: nat, shs: seq<nat>, ds: seq<nat>)
    requires c.Valid() && EntriesAt(c.data, c.pos, shWidth, dWidth, shs, ds)
    ensures ReadIndexTable(c, |shs|, shWidth, dWidth)
         == Success(Read(IndexTable(shs, ds), c.Advance(TableOctets(|shs|, shWidth + dWidth))))
    decreases |shs|
  {
    if |shs| > 0 {
      ReadIntegerOfField(c, shWidth, shs[0]);
      ReadIntegerOfField(c.Advance(shWidth), dWidth, ds[0]);
      var next := c.Advance(shWidth + dWidth);
      assert ReadIndexEntry(c, shWidth, dWidth) == Success(Read((shs[0], ds[0]), next));
      ReadIndexTableOfEntries(next, shWidth, dWidth, shs[1..], ds[1..]);
      assert [shs[0]] + shs[1..] == shs && [ds[0]] + ds[1..] == ds;
    }
  }

  /** A spelled table depends only on the octets it spans. */
  lemma {:induction false} EntriesAtLocal(a: seq<byte>, b: seq<byte>, start: nat, shWidth: nat, dWidth: nat,
                                          shs: seq<nat>, ds: seq<nat>)
    requires EntriesAt(a, start, shWidth, dWidth, shs, ds)
    requires SameOctets(a, b, start, start + TableOctets(|shs|, shWidth + dWidth))
    ensures EntriesAt(b, start, shWidth, dWidth, shs, ds)
    decreases |shs|
  {
    if |shs| > 0 {
      FieldValueLocal(a, b, start, shWidth);
      FieldValueLocal(a, b, start + shWidth, dWidth);
      EntriesAtLocal(a, b, start + shWidth + dWidth, shWidth, dWidth, shs[1..], ds[1..]);
    }
  }

  /** Octets the index tables occupy from NUMI to the last LD, NUMX included. */
  function IndexTablesOctets(t: IndexTables): nat {
    NumiLength + NumsLength + NumxLength + NumtLength + NumdesLength
    + TableOctets(t.numberImageSegments, LishLength + LiLength)
    + TableOctets(t.numberGraphicSegments, LsshLength + LsLength)
    + TableOctets(t.numberTextSegments, LtshLength + LtLength)
    + TableOctets(t.numberDataExtensionSegments, LdshLength + LdLength)
  }

  /** The index tables take 15 octets of counts and 16, 10, 9 and 13 octets per
      image, graphic, text and data extension segment. */
  lemma IndexTablesOctetsValue(t: IndexTables)
    ensures IndexTablesOctets(t)
         == 15 + 16 * t.numberImageSegments + 10 * t.numberGraphicSegments
            + 9 * t.numberTextSegments + 13 * t.numberDataExtensionSegments
  {
    TableOctetsIsProduct(t.numberImageSegments, LishLength + LiLength);
    TableOctetsIsProduct(t.numberGraphicSegments, LsshLength + LsLength);
    TableOctetsIsProduct(t.numberTextSegments, LtshLength + LtLength);
    TableOctetsIsProduct(t.numberDataExtensionSegments, LdshLength + LdLength);
  }

  /** A count field of `countWidth` digits followed by that many pairs: the shape
      shared by the four index tables. */
  predicate CountedTableAt(data: seq<byte>, start: nat, countWidth: nat, shWidth: nat, dWidth: nat, table: IndexTable) {
    && FieldIs(data, start, countWidth, |table.subheaderLengths|)
    && EntriesAt(data, start + countWidth, shWidth, dWidth, table.subheaderLengths, table.dataLengths)
  }

  /** A count, then that many (subheader length, data length) pairs. */
  function ReadCountedTable(c: Cursor, countWidth: nat, shWidth: nat, dWidth: nat): (r: Result<Read<IndexTable>>)
    requires c.Valid()
    ensures r.Success? ==> |r.value.value.subheaderLengths| == |r.value.value.dataLengths|
    ensures r.Success? ==>
      && r.value.next == c.Advance(countWidth + TableOctets(|r.value.value.subheaderLengths|, shWidth + dWidth))
      && r.value.next.Valid()
    ensures r.Failure? ==> r.error.kind == Malformed
  {
    match ReadInteger(c, countWidth)
    case Failure(e) => Failure(e)
    case Success(count) => ReadIndexTable(count.next, count.value, shWidth, dWidth)
  }

  /** Soundness of `ReadCountedTable`: the count and the pairs are spelled at the cursor. */
  lemma {:induction false} ReadCountedTableSpells(c: Cursor, countWidth: nat, shWidth: nat, dWidth: nat)
    requires c.Valid() && ReadCountedTable(c, countWidth, shWidth, dWidth).Success?
    ensures CountedTableAt(c.data, c.pos, countWidth, shWidth, dWidth,
                           ReadCountedTable(c, countWidth, shWidth, dWidth).value.value)
  {
    var count := ReadInteger(c, countWidth).value;
    ReadIndexTableSpells(count.next, count.value, shWidth, dWidth);
  }

  /** Completeness of `ReadCountedTable`: a spelled table is read back exactly. */
  lemma {:induction false} ReadCountedTableOfEntries(c: Cursor, countWidth: nat, shWidth: nat, dWidth: nat, table: IndexTable)
    requires c.Valid() && CountedTableAt(c.data, c.pos, countWidth, shWidth, dWidth, table)
    ensures ReadCountedTable(c, countWidth, shWidth, dWidth)
         == Success(Read(table, c.Advance(countWidth + TableOctets(|table.subheaderLengths|, shWidth + dWidth))))
  {
    ReadIntegerOfField(c, countWidth, |table.subheaderLengths|);
    ReadIndexTableOfEntries(c.Advance(countWidth), shWidth, dWidth, table.subheaderLengths, table.dataLengths);
  }

  function ImageTable(t: IndexTables): IndexTable { IndexTable(t.lish, t.li) }
  function GraphicTable(t: IndexTables): IndexTable { IndexTable(t.lssh, t.ls) }
  function TextTable(t: IndexTables): IndexTable { IndexTable(t.ltsh, t.lt) }
  function DataExtensionTable(t: IndexTables): IndexTable { IndexTable(t.ldsh, t.ld) }

  /** Where the graphic count NUMS lies, the image table ending there. */
  function NumsOffset(start: nat, t: IndexTables): nat {
    start + NumiLength + TableOctets(|t.lish|, LishLength + LiLength)
  }

  /** Where NUMX lies, the graphic table ending there. */
  function NumxOffset(start: nat, t: IndexTables): nat {
    NumsOffset(start, t) + NumsLength + TableOctets(|t.lssh|, LsshLength + LsLength)
  }

  /** Where the text count NUMT lies. */
  function NumtOffset(start: nat, t: IndexTables): nat {
    NumxOffset(start, t) + NumxLength
  }

  /** Where the data extension count NUMDES lies, the text table ending there. */
  function NumdesOffset(start: nat, t: IndexTables): nat {
    NumtOffset(start, t) + NumtLength + TableOctets(|t.ltsh|, LtshLength + LtLength)
  }

  /** Just past the last LD of the data extension table. */
  function TablesEnd(start: nat, t: IndexTables): nat {
    NumdesOffset(start, t) + NumdesLength + TableOctets(|t.ldsh|, LdshLength + LdLength)
  }

  /** The octets from `start` spell the index tables `t`: each count at its place,
      followed by exactly that many entries, and NUMX present but unconstrained. */
  predicate TablesAt(data: seq<byte>, start: nat, t: IndexTables) {
    && |t.lish| == t.numberImageSegments
    && |t.lssh| == t.numberGraphicSegments
    && |t.ltsh| == t.numberTextSegments
    && |t.ldsh| == t.numberDataExtensionSegments
    && CountedTableAt(data, start, NumiLength, LishLength, LiLength, ImageTable(t))
    && CountedTableAt(data, NumsOffset(start, t), NumsLength, LsshLength, LsLength, GraphicTable(t))
    && TablesEnd(start, t) <= |data|
    && CountedTableAt(data, NumtOffset(start, t), NumtLength, LtshLength, LtLength, TextTable(t))
    && CountedTableAt(data, NumdesOffset(start, t), NumdesLength, LdshLength, LdLength, DataExtensionTable(t))
  }

  /** The four tables and their counts, NUMX between graphic and text
      skipped and never stored. */
  function ReadIndexTables(c: Cursor): (r: Result<Read<IndexTables>>)
    requires c.Valid()
    ensures r.Success? ==> r.value.value.WellShaped()
    ensures r.Success? ==> r.value.next == c.Advance(IndexTablesOctets(r.value.value)) && r.value.next.Valid()
    ensures r.Failure? ==> r.error.kind == Malformed
  {
    var images :- ReadCountedTable(c, NumiLength, LishLength, LiLength);
    var graphics :- ReadCountedTable(images.next, NumsLength, LsshLength, LsLength);
    var numx :- Skip(graphics.next, NumxLength);
    var texts :- ReadCountedTable(numx, NumtLength, LtshLength, LtLength);
    var des :- ReadCountedTable(texts.next, NumdesLength, LdshLength, LdLength);
    Success(Read(
      IndexTables(
        |images.value.subheaderLengths|, images.value.subheaderLengths, images.value.dataLengths,
        |graphics.value.subheaderLengths|, graphics.value.subheaderLengths, graphics.value.dataLengths,
        |texts.value.subheaderLengths|, texts.value.subheaderLengths, texts.value.dataLengths,
        |des.value.subheaderLengths|, des.value.subheaderLengths, des.value.dataLengths),
      des.next))
  }

  /** Soundness of one counted table, with the cursor after it given by its offset. */
  lemma CountedTableStepSpells(a: Cursor, countWidth: nat, shWidth: nat, dWidth: nat)
    requires a.Valid() && ReadCountedTable(a, countWidth, shWidth, dWidth).Success?
    ensures var r := ReadCountedTable(a, countWidth, shWidth, dWidth).value;
      && CountedTableAt(a.data, a.pos, countWidth, shWidth, dWidth, r.value)
      && r.next.data == a.data && r.next.seekable == a.seekable
      && r.next.pos == a.pos + countWidth + TableOctets(|r.value.subheaderLengths|, shWidth + dWidth)
  {
    ReadCountedTableSpells(a, countWidth, shWidth, dWidth);
  }

  /** Completeness of one counted table, the cursor after it given by its offset. */
  lemma CountedTableStep(a: Cursor, countWidth: nat, shWidth: nat, dWidth: nat, table: IndexTable, b: Cursor)
    requires a.Valid() && CountedTableAt(a.data, a.pos, countWidth, shWidth, dWidth, table)
    requires b.data == a.data && b.seekable == a.seekable
    requires b.pos == a.pos + countWidth + TableOctets(|table.subheaderLengths|, shWidth + dWidth)
    ensures ReadCountedTable(a, countWidth, shWidth, dWidth) == Success(Read(table, b)) && b.Valid()
  {
    ReadCountedTableOfEntries(a, countWidth, shWidth, dWidth, table);
  }

  /** Skipping NUMX, the cursor after it given by its offset. */
  lemma SkipStep(a: Cursor, width: nat, b: Cursor)
    requires a.Valid() && b.data == a.data && b.seekable == a.seekable && b.pos == a.pos + width && b.pos <= |b.data|
    ensures Skip(a, width) == Success(b) && b.Valid()
  {
  }

  /** Soundness of `ReadIndexTables`: the tables it returns are spelled at the cursor. */
  lemma {:induction false} ReadIndexTablesSpell(c: Cursor)
    requires c.Valid() && ReadIndexTables(c).Success?
    ensures TablesAt(c.data, c.pos, ReadIndexTables(c).value.value)
  {
    var t := ReadIndexTables(c).value.value;
    var images := ReadCountedTable(c, NumiLength, LishLength, LiLength).value;
    var graphics := ReadCountedTable(images.next, NumsLength, LsshLength, LsLength).value;
    var numx := Skip(graphics.next, NumxLength).value;
    var texts := ReadCountedTable(numx, NumtLength, LtshLength, LtLength).value;
    var des := ReadCountedTable(texts.next, NumdesLength, LdshLength, LdLength).value;
    ReadIndexTablesSteps(c, images.next, graphics.next, numx, texts.next, des.next,
                         images.value, graphics.value, texts.value, des.value);
    assert ImageTable(t) == images.value && GraphicTable(t) == graphics.value;
    assert TextTable(t) == texts.value && DataExtensionTable(t) == des.value;
    CountedTableStepSpells(c, NumiLength, LishLength, LiLength);
    CountedTableStepSpells(images.next, NumsLength, LsshLength, LsLength);
    CountedTableStepSpells(numx, NumtLength, LtshLength, LtLength);
    CountedTableStepSpells(texts.next, NumdesLength, LdshLength, LdLength);
    assert images.next.pos == NumsOffset(c.pos, t);
    assert numx.pos == NumtOffset(c.pos, t);
    assert texts.next.pos == NumdesOffset(c.pos, t);
  }

  /** `ReadIndexTables` is the composition of its four counted tables and the skip. */
  lemma {:induction false} ReadIndexTablesSteps(c: Cursor, c1: Cursor, c2: Cursor, c3: Cursor, c4: Cursor, c5: Cursor,
                                                a: IndexTable, b: IndexTable, d: IndexTable, e: IndexTable)
    requires c.Valid()
    requires ReadCountedTable(c, NumiLength, LishLength, LiLength) == Success(Read(a, c1))
    requires c1.Valid() && ReadCountedTable(c1, NumsLength, LsshLength, LsLength) == Success(Read(b, c2))
    requires c2.Valid() && Skip(c2, NumxLength) == Success(c3)
    requires c3.Valid() && ReadCountedTable(c3, NumtLength, LtshLength, LtLength) == Success(Read(d, c4))
    requires c4.Valid() && ReadCountedTable(c4, NumdesLength, LdshLength, LdLength) == Success(Read(e, c5))
    ensures ReadIndexTables(c) == Success(Read(
      IndexTables(|a.subheaderLengths|, a.subheaderLengths, a.dataLengths,
                  |b.subheaderLengths|, b.subheaderLengths, b.dataLengths,
                  |d.subheaderLengths|, d.subheaderLengths, d.dataLengths,
                  |e.subheaderLengths|, e.subheaderLengths, e.dataLengths), c5))
  {
  }

  /** Index tables whose counts agree with their lists are rebuilt from their four tables. */
  lemma TablesOfParts(t: IndexTables)
    requires |t.lish| == t.numberImageSegments && |t.lssh| == t.numberGraphicSegments
    requires |t.ltsh| == t.numberTextSegments && |t.ldsh| == t.numberDataExtensionSegments
    ensures t == IndexTables(
      |ImageTable(t).subheaderLengths|, ImageTable(t).subheaderLengths, ImageTable(t).dataLengths,
      |GraphicTable(t).subheaderLengths|, GraphicTable(t).subheaderLengths, GraphicTable(t).dataLengths,
      |TextTable(t).subheaderLengths|, TextTable(t).subheaderLengths, TextTable(t).dataLengths,
      |DataExtensionTable(t).subheaderLengths|, DataExtensionTable(t).subheaderLengths, DataExtensionTable(t).dataLengths)
  {
  }

  /** A counted table depends only on the octets it spans: any range of equal
      octets that covers it will do. */
  lemma CountedTableAtLocal(a: seq<byte>, b: seq<byte>, lo: nat, hi: nat, start: nat,
                            countWidth: nat, shWidth: nat, dWidth: nat, table: IndexTable)
    requires CountedTableAt(a, start, countWidth, shWidth, dWidth, table)
    requires SameOctets(a, b, lo, hi)
    requires lo <= start && start + countWidth + TableOctets(|table.subheaderLengths|, shWidth + dWidth) <= hi
    ensures CountedTableAt(b, start, countWidth, shWidth, dWidth, table)
  {
    var end := start + countWidth + TableOctets(|table.subheaderLengths|, shWidth + dWidth);
    SameOctetsWithin(a, b, lo, hi, start, end);
    FieldValueLocal(a, b, start, countWidth);
    EntriesAtLocal(a, b, start + countWidth, shWidth, dWidth, table.subheaderLengths, table.dataLengths);
  }

  /** The image and graphic tables lie before NUMX. */
  lemma FrontTablesLocal(a: seq<byte>, b: seq<byte>, start: nat, t: IndexTables)
    requires TablesAt(a, start, t)
    requires SameOctets(a, b, start, NumxOffset(start, t))
    ensures CountedTableAt(b, start, NumiLength, LishLength, LiLength, ImageTable(t))
    ensures CountedTableAt(b, NumsOffset(start, t), NumsLength, LsshLength, LsLength, GraphicTable(t))
  {
    CountedTableAtLocal(a, b, start, NumxOffset(start, t), start, NumiLength, LishLength, LiLength, ImageTable(t));
    CountedTableAtLocal(a, b, start, NumxOffset(start, t), NumsOffset(start, t),
                        NumsLength, LsshLength, LsLength, GraphicTable(t));
  }

  /** The text and data extension tables lie after NUMX. */
  lemma BackTablesLocal(a: seq<byte>, b: seq<byte>, start: nat, t: IndexTables)
    requires TablesAt(a, start, t)
    requires SameOctets(a, b, NumtOffset(start, t), TablesEnd(start, t))
    ensures CountedTableAt(b, NumtOffset(start, t), NumtLength, LtshLength, LtLength, TextTable(t))
    ensures CountedTableAt(b, NumdesOffset(start, t), NumdesLength, LdshLength, LdLength, DataExtensionTable(t))
  {
    CountedTableAtLocal(a, b, NumtOffset(start, t), TablesEnd(start, t), NumtOffset(start, t),
                        NumtLength, LtshLength, LtLength, TextTable(t));
    CountedTableAtLocal(a, b, NumtOffset(start, t), TablesEnd(start, t), NumdesOffset(start, t),
                        NumdesLength, LdshLength, LdLength, DataExtensionTable(t));
  }

  /** Spelled index tables depend on the octets of the four tables and not on
      the three octets of NUMX. */
  lemma TablesAtLocal(a: seq<byte>, b: seq<byte>, start: nat, t: IndexTables)
    requires TablesAt(a, start, t)
    requires SameOctets(a, b, start, NumxOffset(start, t))
    requires SameOctets(a, b, NumtOffset(start, t), TablesEnd(start, t))
    ensures TablesAt(b, start, t)
  {
    FrontTablesLocal(a, b, start, t);
    BackTablesLocal(a, b, start, t);
  }

  /** Completeness of `ReadIndexTables`: wherever the octets spell index tables,
      they are read back exactly. */
  lemma {:induction false} ReadIndexTablesOfTablesAt(c: Cursor, t: IndexTables)
    requires c.Valid() && TablesAt(c.data, c.pos, t)
    ensures ReadIndexTables(c) == Success(Read(t, c.Advance(IndexTablesOctets(t))))
  {
    var atNums := Cursor(c.data, NumsOffset(c.pos, t), c.seekable);
    var atNumx := Cursor(c.data, NumxOffset(c.pos, t), c.seekable);
    var atNumt := Cursor(c.data, NumtOffset(c.pos, t), c.seekable);
    var atNumdes := Cursor(c.data, NumdesOffset(c.pos, t), c.seekable);
    var after := c.Advance(IndexTablesOctets(t));
    CountedTableStep(c, NumiLength, LishLength, LiLength, ImageTable(t), atNums);
    CountedTableStep(atNums, NumsLength, LsshLength, LsLength, GraphicTable(t), atNumx);
    SkipStep(atNumx, NumxLength, atNumt);
    CountedTableStep(atNumt, NumtLength, LtshLength, LtLength, TextTable(t), atNumdes);
    CountedTableStep(atNumdes, NumdesLength, LdshLength, LdLength, DataExtensionTable(t), after);
    ReadIndexTablesSteps(c, atNums, atNumx, atNumt, atNumdes, after,
                         ImageTable(t), GraphicTable(t), TextTable(t), DataExtensionTable(t));
    TablesOfParts(t);
  }

  /** Everything before NUMRES: the preamble, then FL, HL and the index tables. */
  function ReadLeadingFields(c: Cursor, env: Collaborators): (r: Result<Read<LeadingFields>>)
    requires c.Valid()
    ensures r.Success? ==> r.value.next.Valid() && r.value.next.data == c.data
    ensures r.Success? ==> r.value.next.seekable == c.seekable
    ensures r.Success? ==> r.value.value.tables.WellShaped()
    ensures r.Success? ==>
      && ReadPreamble(c, env).Success?
      && r.value.value.preamble == ReadPreamble(c, env).value.value
      && var l := r.value.value;
         ReadLengths(ReadPreamble(c, env).value.next)
         == Success(Read((l.fileLength, l.headerLength, l.tables), r.value.next))
    ensures r.Success? ==>
      (r.value.next.pos
       == ReadPreamble(c, env).value.next.pos + FlLength + HlLength + IndexTablesOctets(r.value.value.tables))
    ensures r.Success? ==> r.value.value.fileLength != StreamingFileMode || c.seekable
    ensures r.Success? <==> ReadPreamble(c, env).Success? && ReadLengths(ReadPreamble(c, env).value.next).Success?
    ensures r.Failure? ==> r.error.kind == Malformed || r.error.kind == NotSeekable
    ensures r.Failure? && r.error.kind == NotSeekable ==> !c.seekable
  {
    var preamble :- ReadPreamble(c, env);
    var lengths :- ReadLengths(preamble.next);
    var (fl, hl, tables) := lengths.value;
    Success(Read(LeadingFields(preamble.value, fl, hl, tables), lengths.next))
  }

  /** FL with its streaming gate, HL and the index tables: FL, HL, the tables. */
  function ReadLengths(c: Cursor): (r: Result<Read<(nat, nat, IndexTables)>>)
    requires c.Valid()
    ensures r.Success? ==> r.value.next.Valid() && r.value.next.data == c.data
    ensures r.Success? ==> r.value.next.seekable == c.seekable
    ensures r.Success? ==> r.value.value.2.WellShaped()
    ensures r.Success? ==> r.value.next.pos == c.pos + FlLength + HlLength + IndexTablesOctets(r.value.value.2)
    ensures r.Success? ==> r.value.value.0 != StreamingFileMode || c.seekable
    ensures r.Failure? ==> r.error.kind == Malformed || r.error.kind == NotSeekable
    ensures r.Failure? && r.error.kind == NotSeekable ==> !c.seekable
  {
    var fl :- ReadFileLength(c);
    var hl :- ReadInteger(fl.next, HlLength);
    var tables :- ReadIndexTables(hl.next);
    Success(Read((fl.value, hl.value, tables.value), tables.next))
  }

  /** Soundness of `ReadLengths`: FL, HL and the index tables are the ones
      spelled, in that order, from the cursor. */
  lemma ReadLengthsSpell(c: Cursor)
    requires c.Valid() && ReadLengths(c).Success?
    ensures var (fl, hl, tables) := ReadLengths(c).value.value;
      && FieldIs(c.data, c.pos, FlLength, fl)
      && FieldIs(c.data, c.pos + FlLength, HlLength, hl)
      && TablesAt(c.data, c.pos + FlLength + HlLength, tables)
  {
    var fl := ReadFileLength(c).value;
    var hl := ReadInteger(fl.next, HlLength).value;
    var tables := ReadIndexTables(hl.next).value;
    ReadLengthsSteps(c, fl.value, fl.next, hl.value, hl.next, tables.value, tables.next);
    ReadIndexTablesSpell(hl.next);
    LengthFieldsAt(c, fl.value, fl.next, hl.value, hl.next, tables.value);
  }

  /** `ReadLengths` is the composition of FL, HL and the index tables. */
  lemma ReadLengthsSteps(c: Cursor, fl: nat, c1: Cursor, hl: nat, c2: Cursor, t: IndexTables, c3: Cursor)
    requires c.Valid() && ReadFileLength(c) == Success(Read(fl, c1))
    requires c1.Valid() && ReadInteger(c1, HlLength) == Success(Read(hl, c2))
    requires c2.Valid() && ReadIndexTables(c2) == Success(Read(t, c3))
    ensures ReadLengths(c) == Success(Read((fl, hl, t), c3))
  {
  }

  /** FL and HL read in turn from `c`, and tables spelled where HL ends, are
      placed at their offsets from `c`. */
  lemma LengthFieldsAt(c: Cursor, fl: nat, c1: Cursor, hl: nat, c2: Cursor, t: IndexTables)
    requires c.Valid() && ReadFileLength(c) == Success(Read(fl, c1))
    requires c1.Valid() && ReadInteger(c1, HlLength) == Success(Read(hl, c2))
    requires c2.Valid() && TablesAt(c2.data, c2.pos, t)
    ensures FieldIs(c.data, c.pos, FlLength, fl)
    ensures FieldIs(c.data, c.pos + FlLength, HlLength, hl)
    ensures TablesAt(c.data, c.pos + FlLength + HlLength, t)
  {
    assert c1 == c.Advance(FlLength) && c2 == c1.Advance(HlLength);
  }

  /** The trailer read at `c` never meets an XHDL of 1 or 2, for which the
      extended header data would have a negative width. */
  predicate ExtendedLengthOk(c: Cursor) {
    FieldIs(c.data, c.pos, NumresLength, 0) && FieldIs(c.data, c.pos + NumresLength, UdhdlLength, 0)
    ==> && !FieldIs(c.data, c.pos + NumresLength + UdhdlLength, XhdlLength, 1)
        && !FieldIs(c.data, c.pos + NumresLength + UdhdlLength, XhdlLength, 2)
  }

  /** Octets the trailer occupies: its three length fields, plus XHDL octets of
      overflow and data when XHDL is not zero. */
  function TrailerOctets(t: Trailer): nat {
    NumresLength + UdhdlLength + XhdlLength
    + (if t.extendedHeaderDataLength > 0 then t.extendedHeaderDataLength else 0)
  }

  /** NUMRES (any reserved extension segment is unsupported), UDHDL (any user
      defined header data is unsupported), then the extended header. */
  function ReadTrailer(c: Cursor): (r: Result<Read<Trailer>>)
    requires c.Valid() && ExtendedLengthOk(c)
    ensures r.Success? ==> r.value.value.numberReservedExtensionSegments == 0
    ensures r.Success? ==> r.value.value.userDefinedHeaderDataLength == 0
    ensures r.Success? ==> r.value.next == c.Advance(TrailerOctets(r.value.value)) && r.value.next.Valid()
    ensures r.Success? ==>
      var t := r.value.value;
      && FieldIs(c.data, c.pos, NumresLength, 0) && FieldIs(c.data, c.pos + NumresLength, UdhdlLength, 0)
      && ReadExtendedHeader(c.Advance(NumresLength).Advance(UdhdlLength))
      == Success(Read((t.extendedHeaderDataLength, t.extendedHeaderOverflow, t.extendedHeaderData), r.value.next))
    ensures r.Failure? ==> r.error.kind == Malformed || r.error.kind == Unsupported
  {
    var numres :- ReadInteger(c, NumresLength);
    if numres.value > 0 then
      Failure(Error(Unsupported, numres.next.pos))
    else
      var udhdl :- ReadInteger(numres.next, UdhdlLength);
      if udhdl.value > 0 then
        Failure(Error(Unsupported, udhdl.next.pos))
      else
        var extended :- ReadExtendedHeader(udhdl.next);
        var (xhdl, ofl, xhd) := extended.value;
        Success(Read(Trailer(numres.value, udhdl.value, xhdl, ofl, xhd), extended.next))
  }

  /** Completeness of `ReadTrailer`: NUMRES and UDHDL spelled as zero, followed by
      a readable extended header, give that trailer. */
  lemma ReadTrailerOfFields(c: Cursor, xhdl: nat, ofl: nat, xhd: Option<string>, next: Cursor)
    requires c.Valid()
    requires FieldIs(c.data, c.pos, NumresLength, 0) && FieldIs(c.data, c.pos + NumresLength, UdhdlLength, 0)
    requires ExtendedLengthOk(c)
    requires ReadExtendedHeader(c.Advance(NumresLength).Advance(UdhdlLength)) == Success(Read((xhdl, ofl, xhd), next))
    ensures ReadTrailer(c) == Success(Read(Trailer(0, 0, xhdl, ofl, xhd), next))
  {
    ReadIntegerOfField(c, NumresLength, 0);
    ReadIntegerOfField(c.Advance(NumresLength), UdhdlLength, 0);
  }

  /** XHDL and, when it is not zero, XHDLOFL and the extended header data that
      fill the rest of the XHDL octets. The result is XHDL, XHDLOFL (0 when
      absent) and the data with its padding trimmed. The fields are matched
      directly on their values, with the offsets `ReadInteger` and `ReadTrimmed`
      would report on failure. */
  function ReadExtendedHeader(c: Cursor): (r: Result<Read<(nat, nat, Option<string>)>>)
    requires c.Valid() && !FieldIs(c.data, c.pos, XhdlLength, 1) && !FieldIs(c.data, c.pos, XhdlLength, 2)
    ensures r.Success? <==>
      && FieldValue(c.data, c.pos, XhdlLength).Some?
      && var l := FieldValue(c.data, c.pos, XhdlLength).value;
         l > 0 ==> FieldValue(c.data, c.pos + XhdlLength, XhdloflLength).Some? && c.pos + XhdlLength + l <= |c.data|
    ensures r.Success? ==> FieldIs(c.data, c.pos, XhdlLength, r.value.value.0)
    ensures r.Success? && r.value.value.0 == 0 ==>
      r.value.value.1 == 0 && r.value.value.2 == None && r.value.next == c.Advance(XhdlLength)
    ensures r.Success? && r.value.value.0 > 0 ==>
      var (l, ofl, xhd) := r.value.value;
      && c.pos + XhdlLength + l <= |c.data|
      && FieldIs(c.data, c.pos + XhdlLength, XhdloflLength, ofl)
      && xhd == Some(TrimTrailing(ToText(c.data[c.pos + XhdlLength + XhdloflLength..c.pos + XhdlLength + l])))
      && r.value.next == c.Advance(XhdlLength + l)
    ensures r.Failure? ==> r.error.kind == Malformed
  {
    match FieldValue(c.data, c.pos, XhdlLength)
    case None => Failure(Error(Malformed, c.pos))
    case Some(l) =>
      if l == 0 then
        Success(Read((0, 0, None), c.Advance(XhdlLength)))
      else match FieldValue(c.data, c.pos + XhdlLength, XhdloflLength)
        case None => Failure(Error(Malformed, c.pos + XhdlLength))
        case Some(ofl) =>
          if c.pos + XhdlLength + l <= |c.data| then
            var xhd := TrimTrailing(ToText(c.data[c.pos + XhdlLength + XhdloflLength..c.pos + XhdlLength + l]));
            Success(Read((l, ofl, Some(xhd)), c.Advance(XhdlLength + l)))
          else
            Failure(Error(Malformed, c.pos + XhdlLength + XhdloflLength))
  }

  /** The input meets the extended header precondition wherever the header
      decode reaches the trailer. */
  predicate HeaderExtendedLengthOk(c: Cursor, env: Collaborators)
    requires c.Valid()
  {
    match ReadLeadingFields(c, env)
    case Failure(_) => true
    case Success(leading) => ExtendedLengthOk(leading.next)
  }

  /** The whole file header. From the start of FL to the end of the header it
      consumes 46 + 16 NUMI + 10 NUMS + 9 NUMT + 13 NUMDES octets, plus XHDL when
      XHDL is not zero. */
  function ReadHeader(c: Cursor, env: Collaborators): (r: Result<Read<FileHeader>>)
    requires c.Valid() && HeaderExtendedLengthOk(c, env)
    ensures r.Success? ==> r.value.next.Valid() && r.value.next.data == c.data
    ensures r.Success? ==> r.value.value.tables.WellShaped()
    ensures r.Success? ==> r.value.value.preamble.complexityLevel <= 99
    ensures r.Success? ==> r.value.value.trailer.numberReservedExtensionSegments == 0
    ensures r.Success? ==> r.value.value.trailer.userDefinedHeaderDataLength == 0
    ensures r.Success? ==> r.value.value.fileLength != StreamingFileMode || c.seekable
    ensures r.Success? ==> ReadPreamble(c, env).Success?
    ensures r.Success? ==>
      (r.value.next.pos
       == ReadPreamble(c, env).value.next.pos + 46
          + 16 * r.value.value.tables.numberImageSegments
          + 10 * r.value.value.tables.numberGraphicSegments
          + 9 * r.value.value.tables.numberTextSegments
          + 13 * r.value.value.tables.numberDataExtensionSegments
          + (if r.value.value.trailer.extendedHeaderDataLength > 0
             then r.value.value.trailer.extendedHeaderDataLength else 0))
    ensures r.Failure? ==> r.error.kind != OutOfRange
    ensures r.Failure? && r.error.kind == NotSeekable ==> !c.seekable
  {
    var leading :- ReadLeadingFields(c, env);
    var trailer :- ReadTrailer(leading.next);
    var l := leading.value;
    IndexTablesOctetsValue(l.tables);
    Success(Read(FileHeader(l.preamble, l.fileLength, l.headerLength, l.tables, trailer.value), trailer.next))
  }

  /** `ReadHeader` is the leading fields followed by the trailer: it succeeds
      exactly when both stages do, and then holds exactly what they decoded. */
  lemma ReadHeaderStages(c: Cursor, env: Collaborators)
    requires c.Valid() && HeaderExtendedLengthOk(c, env)
    ensures ReadHeader(c, env).Success? <==>
      ReadLeadingFields(c, env).Success? && ReadTrailer(ReadLeadingFields(c, env).value.next).Success?
    ensures ReadHeader(c, env).Success? ==>
      var l := ReadLeadingFields(c, env).value.value;
      var t := ReadTrailer(ReadLeadingFields(c, env).value.next).value;
      ReadHeader(c, env).value == Read(FileHeader(l.preamble, l.fileLength, l.headerLength, l.tables, t.value), t.next)
  {
  }

  /** What the subheader collaborator reports at the cursor for a segment of
      `kind`, in dialect `fileType`: the octets the subheader spans. */
  function SubheaderAt(c: Cursor, fileType: string, kind: SegmentKind, env: Collaborators): Option<nat>
    requires c.Valid()
  {
    env.subheader(fileType, kind, c.data[c.pos..])
  }

  /** Every segment of `segs` has the subheader length the collaborator reports
      at its offset in `data`. */
  predicate SubheadersDecoded(data: seq<byte>, fileType: string, kind: SegmentKind, env: Collaborators,
                              segs: seq<Segment>)
  {
    forall i :: 0 <= i < |segs| ==>
      && segs[i].subheaderOffset <= |data|
      && env.subheader(fileType, kind, data[segs[i].subheaderOffset..]) == Some(segs[i].subheaderLength)
  }

  /** One segment: its subheader, decoded by the collaborator, then `dataLength`
      payload octets, which are skipped. */
  function ReadSegment(c: Cursor, fileType: string, kind: SegmentKind, dataLength: nat, env: Collaborators)
    : (r: Result<Read<Segment>>)
    requires c.Valid()
    ensures r.Success? <==>
      SubheaderAt(c, fileType, kind, env).Some? && c.pos + SubheaderAt(c, fileType, kind, env).value + dataLength <= |c.data|
    ensures r.Success? ==> SubheaderAt(c, fileType, kind, env) == Some(r.value.value.subheaderLength)
    ensures r.Success? ==> r.value.value.kind == kind && r.value.value.dataLength == dataLength
    ensures r.Success? ==> r.value.value.subheaderOffset == c.pos
    ensures r.Success? ==> r.value.next == c.(pos := r.value.value.End()) && r.value.next.Valid()
    ensures r.Failure? ==> r.error.kind == Malformed
  {
    match env.subheader(fileType, kind, c.data[c.pos..])
    case None => Failure(Error(Malformed, c.pos))
    case Some(subheaderLength) =>
      var payload :- Skip(c, subheaderLength);
      var next :- Skip(payload, dataLength);
      Success(Read(Segment(kind, c.pos, subheaderLength, dataLength), next))
  }

  /** Independent account of when a run can be read: at each offset in turn the
      subheader collaborator reports a length, and that subheader plus the
      declared payload fit in the input; the next segment starts where this one
      ends. */
  predicate SegmentsFit(c: Cursor, fileType: string, kind: SegmentKind, dataLengths: seq<nat>, env: Collaborators)
    requires c.Valid()
    decreases |dataLengths|
  {
    |dataLengths| == 0
    || match SubheaderAt(c, fileType, kind, env)
       case None => false
       case Some(sh) =>
         && c.pos + sh + dataLengths[0] <= |c.data|
         && SegmentsFit(c.(pos := c.pos + sh + dataLengths[0]), fileType, kind, dataLengths[1..], env)
  }

  /** One segment of `kind` per entry of `dataLengths`, in order, laid end to end. */
  function ReadSegments(c: Cursor, fileType: string, kind: SegmentKind, dataLengths: seq<nat>, env: Collaborators)
    : (r: Result<Read<seq<Segment>>>)
    requires c.Valid()
    ensures r.Success? ==> |r.value.value| == |dataLengths|
    ensures r.Success? ==> forall i :: 0 <= i < |dataLengths| ==>
      r.value.value[i].kind == kind && r.value.value[i].dataLength == dataLengths[i]
    ensures r.Success? ==> Contiguous(c.pos, r.value.value)
    ensures r.Success? ==> SubheadersDecoded(c.data, fileType, kind, env, r.value.value)
    ensures r.Success? ==> r.value.next == c.(pos := SpanEnd(c.pos, r.value.value)) && r.value.next.Valid()
    ensures r.Success? <==> SegmentsFit(c, fileType, kind, dataLengths, env)
    ensures r.Failure? ==> r.error.kind == Malformed
    decreases |dataLengths|
  {
    if |dataLengths| == 0 then
      Success(Read([], c))
    else
      var first :- ReadSegment(c, fileType, kind, dataLengths[0], env);
      var rest :- ReadSegments(first.next, fileType, kind, dataLengths[1..], env);
      SegmentRunCons(c, fileType, kind, dataLengths, env, first.value, first.next, rest.value, rest.next);
      Success(Read([first.value] + rest.value, rest.next))
  }

  /** One segment read at `c`, in front of a run read where it ends, is a run
      read at `c`. */
  lemma SegmentRunCons(c: Cursor, fileType: string, kind: SegmentKind, dataLengths: seq<nat>, env: Collaborators,
                       s: Segment, mid: Cursor, rest: seq<Segment>, next: Cursor)
    requires c.Valid() && |dataLengths| > 0
    requires s.kind == kind && s.dataLength == dataLengths[0] && s.subheaderOffset == c.pos
    requires SubheaderAt(c, fileType, kind, env) == Some(s.subheaderLength)
    requires mid == c.(pos := s.End()) && mid.Valid()
    requires |rest| == |dataLengths| - 1
    requires forall i :: 0 <= i < |rest| ==> rest[i].kind == kind && rest[i].dataLength == dataLengths[1..][i]
    requires Contiguous(mid.pos, rest)
    requires SubheadersDecoded(mid.data, fileType, kind, env, rest)
    requires next == mid.(pos := SpanEnd(mid.pos, rest)) && next.Valid()
    ensures |[s] + rest| == |dataLengths|
    ensures forall i :: 0 <= i < |dataLengths| ==>
      ([s] + rest)[i].kind == kind && ([s] + rest)[i].dataLength == dataLengths[i]
    ensures Contiguous(c.pos, [s] + rest)
    ensures SubheadersDecoded(c.data, fileType, kind, env, [s] + rest)
    ensures next == c.(pos := SpanEnd(c.pos, [s] + rest)) && next.Valid()
  {
    var segs := [s] + rest;
    forall i | 0 < i < |dataLengths|
      ensures segs[i].kind == kind && segs[i].dataLength == dataLengths[i]
    {
      assert segs[i] == rest[i - 1];
      assert dataLengths[1..][i - 1] == dataLengths[i];
    }
  }

  /** The segment runs that follow the header, one per supported kind. */
  datatype SegmentRuns = SegmentRuns(images: seq<Segment>, graphics: seq<Segment>, texts: seq<Segment>)

  /** The image, graphic and text segments, in that order: exactly as many of each
      as the header declares, the i-th given the i-th declared data length, each
      run starting where the previous one ends. */
  function ReadSegmentRuns(c: Cursor, fileType: string, t: IndexTables, env: Collaborators)
    : (r: Result<Read<SegmentRuns>>)
    requires c.Valid() && t.WellShaped()
    ensures r.Success? ==>
      var runs := r.value.value;
      && |runs.images| == t.numberImageSegments
      && |runs.graphics| == t.numberGraphicSegments
      && |runs.texts| == t.numberTextSegments
      && (forall i :: 0 <= i < |runs.images| ==>
            runs.images[i].kind == Image && runs.images[i].dataLength == t.li[i])
      && (forall i :: 0 <= i < |runs.graphics| ==>
            runs.graphics[i].kind == Graphic && runs.graphics[i].dataLength == t.ls[i])
      && (forall i :: 0 <= i < |runs.texts| ==>
            runs.texts[i].kind == Text && runs.texts[i].dataLength == t.lt[i])
      && Contiguous(c.pos, runs.images)
      && Contiguous(SpanEnd(c.pos, runs.images), runs.graphics)
      && Contiguous(SpanEnd(SpanEnd(c.pos, runs.images), runs.graphics), runs.texts)
      && SubheadersDecoded(c.data, fileType, Image, env, runs.images)
      && SubheadersDecoded(c.data, fileType, Graphic, env, runs.graphics)
      && SubheadersDecoded(c.data, fileType, Text, env, runs.texts)
      && r.value.next == c.(pos := SpanEnd(SpanEnd(SpanEnd(c.pos, runs.images), runs.graphics), runs.texts))
    ensures r.Success? <==>
      && ReadSegments(c, fileType, Image, t.li, env).Success?
      && var images := ReadSegments(c, fileType, Image, t.li, env).value;
         && ReadSegments(images.next, fileType, Graphic, t.ls, env).Success?
         && var graphics := ReadSegments(images.next, fileType, Graphic, t.ls, env).value;
            ReadSegments(graphics.next, fileType, Text, t.lt, env).Success?
    ensures r.Failure? ==> r.error.kind == Malformed
  {
    var images :- ReadSegments(c, fileType, Image, t.li, env);
    var graphics :- ReadSegments(images.next, fileType, Graphic, t.ls, env);
    var texts :- ReadSegments(graphics.next, fileType, Text, t.lt, env);
    Success(Read(SegmentRuns(images.value, graphics.value, texts.value), texts.next))
  }

  /** The input meets the extended header precondition (see `ExtendedLengthOk`). */
  predicate Decodable(data: seq<byte>, seekable: bool, env: Collaborators) {
    HeaderExtendedLengthOk(Cursor(data, 0, seekable), env)
  }

  /** Per-kind form of the four segment counts agreeing with the header. */
  lemma SegmentCountsAgree(m: FileModel)
    requires |m.imageSegments| == m.header.tables.numberImageSegments
    requires |m.graphicSegments| == m.header.tables.numberGraphicSegments
    requires |m.textSegments| == m.header.tables.numberTextSegments
    requires |m.dataExtensionSegments| == m.header.tables.numberDataExtensionSegments
    ensures forall kind :: |SegmentsOf(m, kind)| == NumberOfSegments(m.header, kind)
  {
    forall kind
      ensures |SegmentsOf(m, kind)| == NumberOfSegments(m.header, kind)
    {
      match kind
      case Image =>
      case Graphic =>
      case Text =>
      case DataExtension =>
    }
  }

  /** The header followed by the segment runs it declares. */
  function ReadBody(data: seq<byte>, seekable: bool, env: Collaborators)
    : (r: Result<(Read<FileHeader>, Read<SegmentRuns>)>)
    requires Decodable(data, seekable, env)
    ensures r.Success? ==> ReadHeader(Cursor(data, 0, seekable), env) == Success(r.value.0)
    ensures r.Success? ==> r.value.0.value.tables.WellShaped()
    ensures r.Success? ==> r.value.0.next.Valid()
    ensures r.Success? ==>
      ReadSegmentRuns(r.value.0.next, r.value.0.value.preamble.fileType, r.value.0.value.tables, env)
      == Success(r.value.1)
    ensures r.Success? <==>
      && ReadHeader(Cursor(data, 0, seekable), env).Success?
      && var header := ReadHeader(Cursor(data, 0, seekable), env).value;
         ReadSegmentRuns(header.next, header.value.preamble.fileType, header.value.tables, env).Success?
    ensures r.Failure? ==> r.error.kind != OutOfRange
    ensures r.Failure? && r.error.kind == NotSeekable ==> !seekable
  {
    var header :- ReadHeader(Cursor(data, 0, seekable), env);
    var runs :- ReadSegmentRuns(header.next, header.value.preamble.fileType, header.value.tables, env);
    Success((header, runs))
  }

  /** The whole file: the header, then the segment runs; any data extension
      segment is unsupported, and that is only discovered once the text segments
      have been read. A decoded file holds exactly as many segments of each kind as
      the header declares. */
  function DecodeFile(data: seq<byte>, seekable: bool, env: Collaborators): (r: Result<FileModel>)
    requires Decodable(data, seekable, env)
    ensures r.Success? <==>
      ReadBody(data, seekable, env).Success?
      && ReadBody(data, seekable, env).value.0.value.tables.numberDataExtensionSegments == 0
    ensures r.Success? ==>
      (var body := ReadBody(data, seekable, env).value;
       r.value == FileModel(body.0.value, body.1.value.images, body.1.value.graphics, body.1.value.texts, []))
    ensures ReadBody(data, seekable, env).Success?
            && ReadBody(data, seekable, env).value.0.value.tables.numberDataExtensionSegments > 0
            ==> r == Failure(Error(Unsupported, ReadBody(data, seekable, env).value.1.next.pos))
    ensures r.Success? ==>
      forall kind :: |SegmentsOf(r.value, kind)| == NumberOfSegments(r.value.header, kind)
    ensures r.Failure? ==> r.error.kind != OutOfRange
    ensures r.Failure? && r.error.kind == NotSeekable ==> !seekable
  {
    var body :- ReadBody(data, seekable, env);
    var (header, runs) := body;
    if header.value.tables.numberDataExtensionSegments > 0 then
      Failure(Error(Unsupported, runs.next.pos))
    else
      var m := FileModel(header.value, runs.value.images, runs.value.graphics, runs.value.texts, []);
      SegmentCountsAgree(m);
      Success(m)
  }

  /** The segments of one kind, in declaration order. */
  function SegmentsOf(m: FileModel, kind: SegmentKind): seq<Segment> {
    match kind
    case Image => m.imageSegments
    case Graphic => m.graphicSegments
    case Text => m.textSegments
    case DataExtension => m.dataExtensionSegments
  }

  /** The declared count of one kind (NUMI, NUMS, NUMT, NUMDES). In a well-shaped
      header it is the number of entries in each of that kind's index tables. */
  function NumberOfSegments(h: FileHeader, kind: SegmentKind): (r: nat)
    ensures h.tables.WellShaped() ==>
      r == |DeclaredDataLengths(h, kind)| && r == |DeclaredSubheaderLengths(h, kind)|
  {
    match kind
    case Image => h.tables.numberImageSegments
    case Graphic => h.tables.numberGraphicSegments
    case Text => h.tables.numberTextSegments
    case DataExtension => h.tables.numberDataExtensionSegments
  }

  /** The declared data lengths of one kind (LI, LS, LT, LD), in declaration order. */
  function DeclaredDataLengths(h: FileHeader, kind: SegmentKind): seq<nat> {
    match kind
    case Image => h.tables.li
    case Graphic => h.tables.ls
    case Text => h.tables.lt
    case DataExtension => h.tables.ld
  }

  /** The declared subheader lengths of one kind (LISH, LSSH, LTSH, LDSH), in
      declaration order. */
  function DeclaredSubheaderLengths(h: FileHeader, kind: SegmentKind): seq<nat> {
    match kind
    case Image => h.tables.lish
    case Graphic => h.tables.lssh
    case Text => h.tables.ltsh
    case DataExtension => h.tables.ldsh
  }

  /** `getLengthOfImageSubheader`, `getLengthOfGraphicSubheader`,
      `getLengthOfTextSubheader`: the declared subheader length at a zero-based
      position; `None` where the Java reader's list lookup would fail. */
  function LengthOfSubheader(h: FileHeader, kind: SegmentKind, index: int): (r: Option<nat>)
    requires kind != DataExtension
    ensures r.Some? <==> 0 <= index < |DeclaredSubheaderLengths(h, kind)|
    ensures r.Some? ==> r.value == DeclaredSubheaderLengths(h, kind)[index]
  {
    var lengths := DeclaredSubheaderLengths(h, kind);
    if 0 <= index < |lengths| then Some(lengths[index]) else None
  }

  /** In a well-shaped header, a position has a declared subheader length exactly
      when it has a declared data length, and both exist exactly below the count. */
  lemma DeclaredLengthsPaired(h: FileHeader, kind: SegmentKind, index: int)
    requires h.tables.WellShaped() && kind != DataExtension
    ensures LengthOfSubheader(h, kind, index).Some? <==> 0 <= index < NumberOfSegments(h, kind)
    ensures LengthOfData(h, kind, index).Some? <==> 0 <= index < NumberOfSegments(h, kind)
  {
  }

  /** `getLengthOfImage`, `getLengthOfGraphic`, `getLengthOfText`: the declared
      data length at a zero-based position; `None` where the Java reader's list lookup
      would fail. There is no such getter for data extension segments. */
  function LengthOfData(h: FileHeader, kind: SegmentKind, index: int): (r: Option<nat>)
    requires kind != DataExtension
    ensures r.Some? <==> 0 <= index < |DeclaredDataLengths(h, kind)|
    ensures r.Some? ==> r.value == DeclaredDataLengths(h, kind)[index]
  {
    var lengths := DeclaredDataLengths(h, kind);
    if 0 <= index < |lengths| then Some(lengths[index]) else None
  }

  /** `getXSegmentZeroBase`: the segment at a zero-based position; `None` where the
      Java reader's list lookup would fail. */
  function GetSegmentZeroBase(m: FileModel, kind: SegmentKind, index: int): (r: Option<Segment>)
    ensures r.Some? <==> 0 <= index < |SegmentsOf(m, kind)|
    ensures r.Some? ==> r.value == SegmentsOf(m, kind)[index]
  {
    var segs := SegmentsOf(m, kind);
    if 0 <= index < |segs| then Some(segs[index]) else None
  }

  /** `getXSegment`: the segment with a one-based number. */
  function GetSegment(m: FileModel, kind: SegmentKind, number: int): (r: Option<Segment>)
    ensures r.Some? <==> 1 <= number <= |SegmentsOf(m, kind)|
    ensures r.Some? ==> r.value == SegmentsOf(m, kind)[number - 1]
  {
    GetSegmentZeroBase(m, kind, number - 1)
  }
}
