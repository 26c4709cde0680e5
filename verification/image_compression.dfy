/** The image compression code table: the two-character IC codes of an image
    subheader and the compression formats they name. Decoding is total: a code
    that is not in the table is `Unknown`, never an error. */
module ImageCompressionCodes {
  import opened NitfBase

  datatype ImageCompression =
    | Unknown                 // not a valid value in a subheader; the decode fallback
    | UserDefined             // NITF 2.0 only
    | BiLevel                 // ITU-T T.4, AMD2
    | Aridpcm                 // MIL-STD-188-197A; NITF 2.0 only
    | Jpeg                    // MIL-STD-188-198A
    | VectorQuantization      // MIL-STD-188-199
    | LosslessJpeg            // NGA N0106-97; not NITF 2.0
    | DownsampledJpeg         // NGA N0106-97; not NITF 2.0
    | NotCompressed
    | BiLevelMask
    | JpegMask
    | VectorQuantizationMask
    | LosslessJpegMask
    | NotCompressedMask
    | Jpeg2000                // ISO/IEC 15444-1; not NITF 2.0
    | Jpeg2000Mask

  /** Every value, in declaration order: the order in which decoding searches. */
  const AllValues: seq<ImageCompression> := [
    Unknown, UserDefined, BiLevel, Aridpcm, Jpeg, VectorQuantization, LosslessJpeg,
    DownsampledJpeg, NotCompressed, BiLevelMask, JpegMask, VectorQuantizationMask,
    LosslessJpegMask, NotCompressedMask, Jpeg2000, Jpeg2000Mask]

  /** The IC codes the standard lists, written out independently of the table. */
  const ListedCodes: set<string> := {
    "C0", "C1", "C2", "C3", "C4", "C5", "I1", "NC",
    "M1", "M3", "M4", "M5", "NM", "C8", "M8"}

  /** The code written for a compression format. */
  function TextEquivalent(v: ImageCompression): (code: string)
    ensures v == Unknown <==> code == ""
    ensures v != Unknown <==> code in ListedCodes
    ensures v != Unknown ==> |code| == 2
  {
    match v
    case Unknown => ""
    case UserDefined => "C0"
    case BiLevel => "C1"
    case Aridpcm => "C2"
    case Jpeg => "C3"
    case VectorQuantization => "C4"
    case LosslessJpeg => "C5"
    case DownsampledJpeg => "I1"
    case NotCompressed => "NC"
    case BiLevelMask => "M1"
    case JpegMask => "M3"
    case VectorQuantizationMask => "M4"
    case LosslessJpegMask => "M5"
    case NotCompressedMask => "NM"
    case Jpeg2000 => "C8"
    case Jpeg2000Mask => "M8"
  }

  lemma AllValuesComplete(v: ImageCompression)
    ensures v in AllValues
  {
  }

  /** Distinct formats have distinct codes. */
  lemma TextEquivalentInjective(v: ImageCompression, w: ImageCompression)
    requires TextEquivalent(v) == TextEquivalent(w)
    ensures v == w
  {
  }

  /** Every listed code is the code of some format. */
  lemma ListedCodesCovered(s: string)
    requires s in ListedCodes
    ensures exists v :: TextEquivalent(v) == s
  {
    var v :=
      if s == "C0" then UserDefined else if s == "C1" then BiLevel
      else if s == "C2" then Aridpcm else if s == "C3" then Jpeg
      else if s == "C4" then VectorQuantization else if s == "C5" then LosslessJpeg
      else if s == "I1" then DownsampledJpeg else if s == "NC" then NotCompressed
      else if s == "M1" then BiLevelMask else if s == "M3" then JpegMask
      else if s == "M4" then VectorQuantizationMask else if s == "M5" then LosslessJpegMask
      else if s == "NM" then NotCompressedMask else if s == "C8" then Jpeg2000
      else Jpeg2000Mask;
    assert TextEquivalent(v) == s;
  }

  /** The first of `vs` whose code is exactly `code` (a scan in order). */
  function FirstWithText(code: string, vs: seq<ImageCompression>): (r: Option<ImageCompression>)
    ensures r.Some? ==> r.value in vs && TextEquivalent(r.value) == code
    ensures r.None? ==> forall v :: v in vs ==> TextEquivalent(v) != code
  {
    if |vs| == 0 then None
    else if TextEquivalent(vs[0]) == code then Some(vs[0])
    else FirstWithText(code, vs[1..])
  }

  /** The format a code names: the value whose code equals `code` exactly
      (case-sensitive, no trimming), or `Unknown` when none does. */
  function EnumValue(code: string): (v: ImageCompression)
    ensures v != Unknown <==> code in ListedCodes
    ensures code in ListedCodes ==> TextEquivalent(v) == code
    ensures forall w :: TextEquivalent(w) == code ==> v == w
  {
    match FirstWithText(code, AllValues)
    case Some(v) =>
      assert forall w :: TextEquivalent(w) == code ==> v == w by {
        forall w | TextEquivalent(w) == code {
          TextEquivalentInjective(v, w);
        }
      }
      v
    case None =>
      assert code !in ListedCodes by {
        if code in ListedCodes {
          ListedCodesCovered(code);
          var w :| TextEquivalent(w) == code;
          AllValuesComplete(w);
          assert false;
        }
      }
      assert forall w :: TextEquivalent(w) != code by {
        forall w {
          AllValuesComplete(w);
        }
      }
      Unknown
  }

  /** Decoding the code of any format gives that format back. */
  lemma EnumValueOfTextEquivalent(v: ImageCompression)
    ensures EnumValue(TextEquivalent(v)) == v
  {
  }

  /** A code that decodes to a known format is that format's code. */
  lemma TextEquivalentOfEnumValue(code: string)
    requires EnumValue(code) != Unknown
    ensures TextEquivalent(EnumValue(code)) == code
  {
  }

  /** Matching is exact: other case or trailing padding gives `Unknown`, and the
      empty code is `Unknown`'s own. */
  lemma EnumValueIsExact()
    ensures EnumValue("nc") == Unknown
    ensures EnumValue("NC ") == Unknown
    ensures EnumValue("") == Unknown
  {
  }
}
