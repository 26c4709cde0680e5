# NITF file header reader, image compression codes, security metadata and CGM font list

A Dafny model of four parts of the imaging-nitf library.

- **The NITF file header reader.** `NitfHeaderReader` reads the file header of a NITF 2.1 / NSIF 1.0 file as a strict linear sequence of fixed-width fields (MIL-STD-2500C, Appendix A, Table A-1). The fields are:
  - FHDR/FVER, CLEVEL, STYPE, OSTAID, FDT and FTITLE;
  - the file security block, ENCRYP, FBKGC, ONAME and OPHONE;
  - FL (with the streaming-mode gate) and HL;
  - four count-then-pairs index tables (image, graphic, text and data extension), with NUMX skipped between the graphic and text tables;
  - NUMRES, UDHDL and XHDL, plus XHDLOFL and XHD when XHDL is not zero.

  Then it extracts the image, graphic and text segments, in that order, one per declared data length. Any data extension segment is unsupported, and so are reserved extension segments and user defined header data. The getters expose the declared counts and lengths and the segments, by zero-based and one-based position.
- **The image compression code table.** `ImageCompression` maps each compression format to its two-character IC code and back.
- **The security metadata record.** `NitfSecurityMetadata` holds a classification and seventeen optional text fields, with a setter and a getter for each.
- **The CGM font list.** `FontListElement.readParameters` reads fixed strings until the declared parameter length is used up.

Modules:

- `NitfBase` — octets, `Option`, and the typed `Error`/`Result` that stand for the reader's exceptions. The error kinds are:
  - `Malformed` for a `ParseException` or a short read;
  - `OutOfRange` for the CLEVEL range check;
  - `NotSeekable` and `Unsupported` for the two kinds of `UnsupportedOperationException`.

  Each error carries an offset. For `Malformed` it is the start of the field or block being read. For `OutOfRange`, `NotSeekable` and the NUMRES and UDHDL `Unsupported` exits it is the offset just past the field that decided the exit. For a data extension segment it is where the text segments end, because that exit is only taken after the text segments have been read.
- `ByteCursor` — the forward-only cursor and the fixed-width field reads (raw, text, trimmed text, decimal integer, skip), with their partners:
  - decimal spelling and the two decimal round trips;
  - re-padding trimmed text;
  - reading a field in place versus decoding its octets.
- `NitfHeaderReader` — the stage decoders, `DecodeFile` and the getters. The file security block decoder and the segment subheader decoders are not part of this model. They are parameters (`Collaborators`). Each is given the dialect FHDR/FVER names and the input from the cursor on, and says what it decoded and how many octets it consumes.
- `HeaderProperties` — properties that relate several stages of the decode.
- `ImageCompressionCodes`, `Security` and `FontList` — one per remaining source file.

## Model

| member | source | states |
|---|---|---|
| `ByteCursor.ReadInteger` | src/main/java/org/codice/nitf/filereader/NitfHeaderReader.java:353-355 | A numeric field succeeds exactly when its `width` octets are present and all ASCII digits. The value is their decimal value, below 10^width, and the cursor advances by exactly `width`. Otherwise the read fails as `Malformed` at the field's offset. |
| `ByteCursor.FieldValueIsDecimal` | src/main/java/org/codice/nitf/filereader/NitfHeaderReader.java:357-359 | Reading a field digit by digit in place gives a value exactly when the field's octets are all digits, and that value is the decimal value of those octets. |
| `ByteCursor.DecimalRoundTrip` | src/main/java/org/codice/nitf/filereader/NitfHeaderReader.java:311-316 | Every value that fits in `width` digits is recovered from its zero-padded `width`-digit spelling. |
| `ByteCursor.DigitsRoundTrip` | src/main/java/org/codice/nitf/filereader/NitfHeaderReader.java:349-351 | Every digit string is the zero-padded spelling of its own value. Together with `DecimalRoundTrip`, decoding is a bijection between digit strings and values below 10^width. |
| `ByteCursor.ReadIntegerOfEncoded` | src/main/java/org/codice/nitf/filereader/NitfHeaderReader.java:311-313 | A numeric field written as a zero-padded spelling is read back as the same value and consumes exactly its width (for instance every CLEVEL from 00 to 99). |
| `ByteCursor.ReadText` | src/main/java/org/codice/nitf/filereader/NitfHeaderReader.java:318-320 | A text field (FHDR/FVER, STYPE) succeeds exactly when its `width` octets are present. It yields exactly those octets as characters, one per octet, and advances by `width`. Otherwise it fails as `Malformed` at the field's offset. |
| `ByteCursor.ToTextIndex` | src/main/java/org/codice/nitf/filereader/NitfHeaderReader.java:306-320 | Character i of a text field is the character whose code is octet i (ISO 8859-1). |
| `ByteCursor.ReadTrimmed` | src/main/java/org/codice/nitf/filereader/NitfHeaderReader.java:322-324 | A trimmed text field succeeds exactly when its octets are present. It yields those octets as characters without their trailing spaces and advances by the full width. |
| `ByteCursor.TrimTrailingSpec` | src/main/java/org/codice/nitf/filereader/NitfHeaderReader.java:322-332 | A trimmed field is a prefix of the field's text that does not end in a space, and every character removed is a space. |
| `ByteCursor.TrimPadRoundTrip` | src/main/java/org/codice/nitf/filereader/NitfHeaderReader.java:330-332 | A trimmed value padded with any number of spaces and trimmed again is unchanged. |
| `ByteCursor.ReadBytes` | src/main/java/org/codice/nitf/filereader/NitfHeaderReader.java:334-339 | A raw field (FBKGC) yields exactly the `width` octets at the cursor when they are present, and fails as `Malformed` otherwise. |
| `ByteCursor.Skip` | src/main/java/org/codice/nitf/filereader/NitfHeaderReader.java:381-383 | Skipping succeeds exactly when the octets are present, and consumes exactly that many. |
| `NitfHeaderReader.ReadFileSecurity` | src/main/java/org/codice/nitf/filereader/NitfHeaderReader.java:106 | The security block is what the security collaborator reports for the input from the cursor on, in the dialect FHDR/FVER names. The read succeeds exactly when it reports a block that fits in the input. The record kept is the reported one, and the cursor moves by exactly the reported length. Otherwise the read fails as `Malformed` at the block's start. |
| `NitfHeaderReader.ReadPreamble` | src/main/java/org/codice/nitf/filereader/NitfHeaderReader.java:98-110 | FHDR/FVER to OPHONE is `ReadFront` at the cursor followed by `ReadOrigin` 119 octets on, in the dialect FHDR/FVER names. It succeeds exactly when both do, and its fields are theirs. CLEVEL is at most 99, and the only possible failure is `Malformed`, because the CLEVEL range check cannot fire on two digits. |
| `NitfHeaderReader.ReadFront` | src/main/java/org/codice/nitf/filereader/NitfHeaderReader.java:306-332 | FHDR/FVER to FTITLE succeeds exactly when the 119 octets are present and CLEVEL is two digits. It consumes exactly 119 octets, CLEVEL is at most 99, and any failure is `Malformed`. |
| `NitfHeaderReader.ReadFrontSpells` | src/main/java/org/codice/nitf/filereader/NitfHeaderReader.java:306-332 | Each of FHDR/FVER, CLEVEL, STYPE, OSTAID, FDT and FTITLE is the field spelled at its running offset (0, 9, 11, 15, 25 and 39). OSTAID and FTITLE are trimmed, and FDT is kept raw. |
| `NitfHeaderReader.ReadOrigin` | src/main/java/org/codice/nitf/filereader/NitfHeaderReader.java:106-110 | The security block to OPHONE succeeds exactly when the collaborator reports a block and the block plus the 46 octets of ENCRYP to OPHONE fit in the input. The record is the collaborator's, and exactly the block length plus 46 octets are consumed. Any failure is `Malformed`. |
| `NitfHeaderReader.ReadOriginSpells` | src/main/java/org/codice/nitf/filereader/NitfHeaderReader.java:334-347 | After the block and the one ENCRYP octet, the three FBKGC octets are the colours, as Java `byte`s from -128 to 127. ONAME and OPHONE are the trimmed fields that follow. |
| `NitfHeaderReader.ReadFileLength` | src/main/java/org/codice/nitf/filereader/NitfHeaderReader.java:111-117 | FL is read and accepted exactly when it is a 12-digit number that is not the streaming sentinel 999999999999, or the input is seekable. The sentinel on a forward-only input fails as `NotSeekable` just after FL, and that is the only way to get `NotSeekable`. |
| `NitfHeaderReader.ReadIndexEntry` | src/main/java/org/codice/nitf/filereader/NitfHeaderReader.java:361-367 | One table entry is the subheader-length field at the cursor, followed directly by the data-length field, and the entry spans exactly the two widths. |
| `NitfHeaderReader.ReadIndexTable` | src/main/java/org/codice/nitf/filereader/NitfHeaderReader.java:120-123 | Reading `count` pairs yields exactly `count` subheader lengths and `count` data lengths, and consumes `count` times the entry width. |
| `NitfHeaderReader.ReadIndexTableSpells` | src/main/java/org/codice/nitf/filereader/NitfHeaderReader.java:120-123 | Soundness: the pairs returned are the ones spelled at the cursor, first entry first. |
| `NitfHeaderReader.ReadIndexTableOfEntries` | src/main/java/org/codice/nitf/filereader/NitfHeaderReader.java:125-128 | Completeness: wherever pairs spell two lists, reading that many entries returns exactly those lists. |
| `NitfHeaderReader.EntriesAtIndex` | src/main/java/org/codice/nitf/filereader/NitfHeaderReader.java:131-134 | Entry i of a spelled table is the pair of fields i entry widths after the table's start. |
| `NitfHeaderReader.EntriesAtLocal` | src/main/java/org/codice/nitf/filereader/NitfHeaderReader.java:119-139 | A spelled table depends only on the octets it spans. |
| `NitfHeaderReader.IndexTablesOctetsValue` | src/main/java/org/codice/nitf/filereader/NitfHeaderReader.java:78-90 | The index tables take 15 count octets, plus 16, 10, 9 and 13 octets per image, graphic, text and data extension segment. |
| `NitfHeaderReader.ReadCountedTable` | src/main/java/org/codice/nitf/filereader/NitfHeaderReader.java:357-367 | A count field, then that many pairs: both lists have the same length, and the table spans the count plus that many entries. |
| `NitfHeaderReader.ReadCountedTableSpells` | src/main/java/org/codice/nitf/filereader/NitfHeaderReader.java:369-379 | Soundness: the count read is the number of entries returned, and the entries are spelled after the count. |
| `NitfHeaderReader.ReadCountedTableOfEntries` | src/main/java/org/codice/nitf/filereader/NitfHeaderReader.java:385-395 | Completeness: a spelled count and table are read back exactly. |
| `NitfHeaderReader.ReadIndexTables` | src/main/java/org/codice/nitf/filereader/NitfHeaderReader.java:119-139 | The four tables are read in order, with NUMX skipped. Each table holds as many entries as its count, the reader consumes exactly the tables' size, and any failure is `Malformed`. |
| `NitfHeaderReader.ReadIndexTablesSpell` | src/main/java/org/codice/nitf/filereader/NitfHeaderReader.java:119-139 | Soundness: the tables returned are spelled at the cursor, each count at its place with exactly that many entries after it. |
| `NitfHeaderReader.ReadIndexTablesOfTablesAt` | src/main/java/org/codice/nitf/filereader/NitfHeaderReader.java:119-139 | Completeness: wherever the octets spell index tables, they are read back exactly, with the cursor just past the last LD. |
| `NitfHeaderReader.TablesAtLocal` | src/main/java/org/codice/nitf/filereader/NitfHeaderReader.java:129 | Spelled index tables depend on the octets of the four tables, not on the NUMX octets. |
| `NitfHeaderReader.ReadLeadingFields` | src/main/java/org/codice/nitf/filereader/NitfHeaderReader.java:98-139 | Everything before NUMRES is the preamble, followed by exactly the FL, HL and index tables that `ReadLengths` reads where the preamble ends. The tables are well shaped and the streaming gate is respected. It succeeds exactly when the preamble and then `ReadLengths` succeed. A failure is `Malformed`, or `NotSeekable` only on a forward-only input. |
| `NitfHeaderReader.ReadLengths` | src/main/java/org/codice/nitf/filereader/NitfHeaderReader.java:111-139 | FL, HL and the tables consume exactly 12 + 6 octets plus the tables' size. The tables are well shaped, and a streaming-mode FL is accepted only on a seekable input. A failure is `Malformed`, or `NotSeekable` only on a forward-only input. |
| `NitfHeaderReader.ReadLengthsSpell` | src/main/java/org/codice/nitf/filereader/NitfHeaderReader.java:349-355 | Soundness: FL is the 12-digit field at the cursor and HL the 6-digit field after it, and the index tables are the ones spelled after HL. |
| `NitfHeaderReader.ReadTrailer` | src/main/java/org/codice/nitf/filereader/NitfHeaderReader.java:140-154 | A trailer is read only when NUMRES and UDHDL are both spelled as zero. It then holds exactly what the extended header read 8 octets on decodes, and it spans its fields plus XHDL octets. Any failure is `Malformed` or `Unsupported`. |
| `NitfHeaderReader.ReadTrailerOfFields` | src/main/java/org/codice/nitf/filereader/NitfHeaderReader.java:140-154 | Conversely, NUMRES and UDHDL spelled as zero, followed by an extended header that decodes, always give a trailer. It holds zero reserved extension segments, no user defined header data, and that extended header's XHDL, XHDLOFL and XHD. |
| `NitfHeaderReader.ReadExtendedHeader` | src/main/java/org/codice/nitf/filereader/NitfHeaderReader.java:150-153 | Succeeds exactly when XHDL is five digits and, when XHDL is not zero, XHDLOFL is three digits and the XHDL octets fit. A zero XHDL gives no overflow and no data and consumes 5 octets. Otherwise XHDLOFL is the field after XHDL, and XHD is the remaining XHDL - 3 octets as text, trimmed. Either way 5 + XHDL octets are consumed. |
| `NitfHeaderReader.ReadHeader` | src/main/java/org/codice/nitf/filereader/NitfHeaderReader.java:98-154 | From FL on, the header consumes 46 + 16 NUMI + 10 NUMS + 9 NUMT + 13 NUMDES octets, plus XHDL when XHDL is not zero. It never ends with `OutOfRange`. |
| `NitfHeaderReader.ReadHeaderStages` | src/main/java/org/codice/nitf/filereader/NitfHeaderReader.java:98-154 | The header decodes exactly when the leading fields decode and the trailer decodes where they end. Its preamble, FL, HL, index tables and trailer are then exactly what those two stages decoded, so the header record holds the fields in the order the constructor reads them. |
| `NitfHeaderReader.ReadSegment` | src/main/java/org/codice/nitf/filereader/NitfHeaderReader.java:429-443 | A segment read succeeds exactly when the subheader collaborator reports a length for the dialect, the kind and the input from the cursor on, and the subheader plus the declared data fit. The segment records that length, the kind and the data length, and starts at the cursor. The cursor ends just past its data. |
| `NitfHeaderReader.ReadSegments` | src/main/java/org/codice/nitf/filereader/NitfHeaderReader.java:429-445 | There is one segment per declared data length, in order, each carrying its length, laid end to end from the cursor. Each segment's subheader length is what the collaborator reports at its offset. The run succeeds exactly when `SegmentsFit` holds: at each segment's offset in turn, the collaborator reports a subheader length and that subheader plus the declared data fit in the input. |
| `NitfHeaderReader.ReadSegmentRuns` | src/main/java/org/codice/nitf/filereader/NitfHeaderReader.java:155-157 | The image, graphic and text runs follow one another. Each holds exactly the declared count of segments, the i-th with the i-th declared data length. The runs succeed exactly when the image run succeeds, then the graphic run where it ends, then the text run where that ends. |
| `NitfHeaderReader.SegmentCountsAgree` | src/main/java/org/codice/nitf/filereader/NitfHeaderReader.java:217-255 | Per-kind form of the segment counts agreeing with the header's counts. |
| `NitfHeaderReader.NumberOfSegments` | src/main/java/org/codice/nitf/filereader/NitfHeaderReader.java:217-255 | In a well-shaped header, the declared count of a kind is the number of entries in both of its length lists. |
| `NitfHeaderReader.ReadBody` | src/main/java/org/codice/nitf/filereader/NitfHeaderReader.java:155-158 | The segment runs are read from exactly where the header ends. The body succeeds exactly when the header decodes and the segment runs it declares decode from there. |
| `NitfHeaderReader.DecodeFile` | src/main/java/org/codice/nitf/filereader/NitfHeaderReader.java:447-452 | A file decodes exactly when its header and segment runs do and NUMDES is zero. A non-zero NUMDES fails as `Unsupported` after the text segments. A decoded file holds as many segments of each kind as the header declares. |
| `NitfHeaderReader.LengthOfSubheader` | src/main/java/org/codice/nitf/filereader/NitfHeaderReader.java:222-224 | The declared subheader length at a zero-based position exists exactly for positions inside the list, and is the list's entry there. |
| `NitfHeaderReader.LengthOfData` | src/main/java/org/codice/nitf/filereader/NitfHeaderReader.java:226-228 | The declared data length at a zero-based position exists exactly for positions inside the list, and is the list's entry there. |
| `NitfHeaderReader.DeclaredLengthsPaired` | src/main/java/org/codice/nitf/filereader/NitfHeaderReader.java:234-240 | In a well-shaped header, both length getters succeed exactly below the declared count. |
| `NitfHeaderReader.GetSegmentZeroBase` | src/main/java/org/codice/nitf/filereader/NitfHeaderReader.java:278-280 | The segment at a zero-based position exists exactly inside the run, and is the run's entry there. |
| `NitfHeaderReader.GetSegment` | src/main/java/org/codice/nitf/filereader/NitfHeaderReader.java:274-276 | Segment number n (one-based) exists exactly for 1 <= n <= count, and is entry n - 1. |
| `HeaderProperties.StreamingNeedsSeekableInput` | src/main/java/org/codice/nitf/filereader/NitfHeaderReader.java:112-115 | A streaming-mode FL on a forward-only input ends the whole decode with `NotSeekable`, right after FL and before HL. |
| `HeaderProperties.TrailerExits` | src/main/java/org/codice/nitf/filereader/NitfHeaderReader.java:141-149 | The two unsupported-feature exits, at the trailer. |
| `HeaderProperties.TrailerFailureIsFileFailure` | src/main/java/org/codice/nitf/filereader/NitfHeaderReader.java:140-150 | A trailer failure is the failure of the whole decode. |
| `HeaderProperties.ReservedExtensionsUnsupported` | src/main/java/org/codice/nitf/filereader/NitfHeaderReader.java:140-144 | Any reserved extension segment stops the decode as `Unsupported` right after NUMRES, whatever follows. |
| `HeaderProperties.UserDefinedHeaderUnsupported` | src/main/java/org/codice/nitf/filereader/NitfHeaderReader.java:145-149 | With NUMRES zero, a non-zero UDHDL stops the decode as `Unsupported` right after UDHDL. |
| `HeaderProperties.SegmentsHaveDeclaredLengths` | src/main/java/org/codice/nitf/filereader/NitfHeaderReader.java:429-445 | In a decoded file, the segment at each position exists exactly when a data length is declared there, and carries that length. |
| `HeaderProperties.NumxIgnored` | src/main/java/org/codice/nitf/filereader/NitfHeaderReader.java:381-383 | Whatever the three NUMX octets hold, the same index tables are decoded and the reader ends at the same offset. |
| `ImageCompressionCodes.TextEquivalent` | src/main/java/org/codice/imaging/nitf/core/ImageCompression.java:28-139 | `UNKNOWN`'s code is the empty string. Every other format has a two-character code from the standard's list. |
| `ImageCompressionCodes.TextEquivalentInjective` | src/main/java/org/codice/imaging/nitf/core/ImageCompression.java:180-182 | Distinct formats have distinct codes. |
| `ImageCompressionCodes.ListedCodesCovered` | src/main/java/org/codice/imaging/nitf/core/ImageCompression.java:34-139 | Every listed code is some format's code. |
| `ImageCompressionCodes.FirstWithText` | src/main/java/org/codice/imaging/nitf/core/ImageCompression.java:164-168 | The scan returns a member of the list whose code is exactly the given one, or nothing when no member has it. |
| `ImageCompressionCodes.EnumValue` | src/main/java/org/codice/imaging/nitf/core/ImageCompression.java:163-170 | A code decodes to a format other than `UNKNOWN` exactly when it is a listed code, and then to the only format with that code. |
| `ImageCompressionCodes.EnumValueOfTextEquivalent` | src/main/java/org/codice/imaging/nitf/core/ImageCompression.java:163-182 | Decoding any format's code gives that format back. |
| `ImageCompressionCodes.TextEquivalentOfEnumValue` | src/main/java/org/codice/imaging/nitf/core/ImageCompression.java:165-167 | A code that decodes to a known format is that format's code. |
| `ImageCompressionCodes.EnumValueIsExact` | src/main/java/org/codice/imaging/nitf/core/ImageCompression.java:165 | Matching is exact: other case, trailing padding and the empty code give `UNKNOWN`. |
| `Security.Default` | src/main/java/org/codice/imaging/nitf/core/NitfSecurityMetadata.java:24-53 | A new record has classification `UNKNOWN` and every text field absent. |
| `Security.Set` | src/main/java/org/codice/imaging/nitf/core/NitfSecurityMetadata.java:106-688 | After a setter its getter returns exactly the value stored, whatever its length. Every other getter and the classification are unchanged. |
| `Security.SetClassification` | src/main/java/org/codice/imaging/nitf/core/NitfSecurityMetadata.java:73-84 | The classification setter changes the classification and no text field. |
| `Security.Extensionality` | src/main/java/org/codice/imaging/nitf/core/NitfSecurityMetadata.java:24-47 | A record is determined by its classification and its seventeen getters. |
| `Security.SetTwiceKeepsLast` | src/main/java/org/codice/imaging/nitf/core/NitfSecurityMetadata.java:423-425 | Setting a field twice keeps only the last value. |
| `Security.SettersCommute` | src/main/java/org/codice/imaging/nitf/core/NitfSecurityMetadata.java:454-456 | Setters of different fields commute. |
| `Security.SetToCurrentIsIdentity` | src/main/java/org/codice/imaging/nitf/core/NitfSecurityMetadata.java:670-672 | Storing back what a getter returned changes nothing. |
| `Security.SetClassificationTwiceKeepsLast` | src/main/java/org/codice/imaging/nitf/core/NitfSecurityMetadata.java:73-75 | Setting the classification twice keeps only the last value. |
| `FontList.ReadParameters` | cgm/src/main/java/org/codice/imaging/cgm/FontListElement.java:45-53 | The strings read are appended, in order, to the fonts already held, and each counts its length plus one. They are exactly the reference reading `FontsWithin`. The loop ends normally exactly when the count reaches the parameter length, and otherwise only because the input ran out. The count is still below the length before the last string. A non-positive length reads nothing. |
| `FontList.FontsWithin` | cgm/src/main/java/org/codice/imaging/cgm/FontListElement.java:47-49 | The reference reading is a prefix of the strings the input would deliver. |
| `FontList.FontsWithinReachesBudget` | cgm/src/main/java/org/codice/imaging/cgm/FontListElement.java:47 | The reference reading stops only when the input runs out or the octets counted reach the parameter length. |
| `FontList.FontsWithinBelowBudgetBeforeLast` | cgm/src/main/java/org/codice/imaging/cgm/FontListElement.java:47-51 | Before the last string is taken, the octets counted are still below the parameter length, so no string is read past the limit. |

## Left out

- The `NitfReader` class is not part of this model. Two assumptions stand in for it:
  - `readBytesAsInteger` and `readBytesAsLong` accept exactly `width` ASCII digits.
  - `readTrimmedBytes` strips trailing spaces only.

  Under the first assumption CLEVEL is always between 0 and 99, so the `OutOfRange` branch of the CLEVEL check is modelled but cannot be reached.
- FDT is kept as its 14 raw octets and is not parsed as a date. `readNitfDateTime` is not part of this model, and the width comes from MIL-STD-2500C.
- ENCRYP is read as one octet and not validated. `readENCRYP` is not part of this model.
- FHDR/FVER is kept as its raw nine characters. `FileType.getEnumValue` is not part of this model.
- The security classification variants follow the classification codes of MIL-STD-2500C (U, R, C, S, T) plus `Unknown`. `NitfSecurityClassification` is not part of this model.
- The file security block parser and the image, graphic and text segment constructors are parameters of the model (`Collaborators`). They are given the input from the cursor on and report how many octets they consume. Segment payloads are skipped, not kept.
- `NitfHeaderReader.ReadTrailer`, `NitfHeaderReader.ReadTrailerOfFields`, `NitfHeaderReader.ReadExtendedHeader`, `NitfHeaderReader.ReadHeader`, `NitfHeaderReader.ReadHeaderStages`, `NitfHeaderReader.ReadBody` and `NitfHeaderReader.DecodeFile` require that XHDL is not 1 or 2 (`ExtendedLengthOk`, `HeaderExtendedLengthOk`, `Decodable`). For those values the Java reader asks for a negative number of XHD octets, and what `NitfReader` then does is not part of this model.
- Exception messages are not modelled, only the exception's kind and the offset at which it is raised. The CLEVEL message uses a `%i` conversion that `String.format` does not accept, but its branch cannot be reached.
- I/O errors, the `BufferedInputStream` wrapping and the reader's byte counter are not modelled. The input is a complete octet sequence plus a flag saying whether it is seekable.
- Java `int` and `long` overflow is not modelled, because no field can overflow: the widest field read into an `int` has 6 digits, and the widest read into a `long` has 12.
- HL and the declared subheader lengths are not checked against the octets the header and subheaders actually occupy, because the Java reader does not check them either.
- `getEnumValue(null)` throws a `NullPointerException`. The model's code is a `string` and cannot be null.
- `dumpParameters` of the font list only prints. `CgmInputReader.getStringFixed` is not part of this model: the strings it would return are an input sequence, and running out of them stands for its `IOException`.
- imaging-nitf has no length getters for data extension segments, so the model has none either. Extracting a data extension segment always fails as unsupported, so in a decoded file the list of them is empty.
- Text fields are decoded one octet per character, each octet the character with that code (ISO 8859-1), as `ByteCursor.ToTextIndex` states. The charset `NitfReader` decodes with is not part of this model. Under another charset, octets above 127 could give other characters.
- Error offsets: a `Malformed` error carries the offset where the failing field or block starts. The Java reader's `ParseException` carries `NitfReader`'s byte counter at the moment of failure, which may already lie past the start of the field.
- FontList.ReadParameters: the octet count is an unbounded integer. Java's `int bytesRead` would wrap if one string pushed it past 2^31 - 1, and that wrap-around is not modelled. The length of each font name is also counted in characters (Unicode scalar values, as Dafny's `string` holds them), whereas Java's `String.length()` counts UTF-16 code units. So a name holding a character above U+FFFF counts one less per such character here than in Java, and near the end of the parameter list the model can read one more font than the Java reader would.
