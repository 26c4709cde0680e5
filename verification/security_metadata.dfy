/** The security metadata value record carried by the file header and by every
    segment subheader: a classification and seventeen optional text fields, two of
    which exist only in NITF 2.0. The record itself does no validation: its setters
    store any value, including ones wider than the field the standard allows. */
module Security {
  import opened NitfBase

  /** Security classification. The variants follow the classification codes of
      MIL-STD-2500C (U, R, C, S, T) plus the decoder's `Unknown`. */
  datatype SecurityClassification =
    | Unknown | Unclassified | Restricted | Confidential | Secret | TopSecret

  /** The text fields, one per setter/getter pair of the record. */
  datatype StringField =
    | ClassificationSystem         // 2.1 / NSIF 1.0 only
    | Codewords
    | ControlAndHandling
    | ReleaseInstructions
    | DeclassificationType         // 2.1 / NSIF 1.0 only
    | DeclassificationDate         // 2.1 / NSIF 1.0 only
    | DeclassificationExemption    // 2.1 / NSIF 1.0 only
    | Downgrade                    // 2.1 / NSIF 1.0 only
    | DowngradeDate                // 2.1 / NSIF 1.0 only
    | ClassificationText           // 2.1 / NSIF 1.0 only
    | ClassificationAuthorityType  // 2.1 / NSIF 1.0 only
    | ClassificationAuthority
    | ClassificationReason         // 2.1 / NSIF 1.0 only
    | SecuritySourceDate           // 2.1 / NSIF 1.0 only
    | SecurityControlNumber
    | DowngradeDateOrSpecialCase   // 2.0 only
    | DowngradeEvent               // 2.0 only

  datatype SecurityMetadata = SecurityMetadata(
    classification: SecurityClassification,
    classificationSystem: Option<string>,
    codewords: Option<string>,
    controlAndHandling: Option<string>,
    releaseInstructions: Option<string>,
    declassificationType: Option<string>,
    declassificationDate: Option<string>,
    declassificationExemption: Option<string>,
    downgrade: Option<string>,
    downgradeDate: Option<string>,
    classificationText: Option<string>,
    classificationAuthorityType: Option<string>,
    classificationAuthority: Option<string>,
    classificationReason: Option<string>,
    securitySourceDate: Option<string>,
    securityControlNumber: Option<string>,
    downgradeDateOrSpecialCase: Option<string>,
    downgradeEvent: Option<string>)

  /** The getter of a text field. */
  function Get(m: SecurityMetadata, f: StringField): Option<string> {
    match f
    case ClassificationSystem => m.classificationSystem
    case Codewords => m.codewords
    case ControlAndHandling => m.controlAndHandling
    case ReleaseInstructions => m.releaseInstructions
    case DeclassificationType => m.declassificationType
    case DeclassificationDate => m.declassificationDate
    case DeclassificationExemption => m.declassificationExemption
    case Downgrade => m.downgrade
    case DowngradeDate => m.downgradeDate
    case ClassificationText => m.classificationText
    case ClassificationAuthorityType => m.classificationAuthorityType
    case ClassificationAuthority => m.classificationAuthority
    case ClassificationReason => m.classificationReason
    case SecuritySourceDate => m.securitySourceDate
    case SecurityControlNumber => m.securityControlNumber
    case DowngradeDateOrSpecialCase => m.downgradeDateOrSpecialCase
    case DowngradeEvent => m.downgradeEvent
  }

  /** A freshly constructed record: classification unknown, every text field absent. */
  function Default(): (m: SecurityMetadata)
    ensures m.classification == Unknown
    ensures forall f :: Get(m, f) == None
  {
    SecurityMetadata(Unknown, None, None, None, None, None, None, None, None,
                     None, None, None, None, None, None, None, None, None)
  }

  /** The setter of a text field: afterwards its getter returns exactly `v`
      (whatever its length), and every other getter is as before. */
  function Set(m: SecurityMetadata, f: StringField, v: Option<string>): (r: SecurityMetadata)
    ensures Get(r, f) == v
    ensures forall g :: g != f ==> Get(r, g) == Get(m, g)
    ensures r.classification == m.classification
  {
    match f
    case ClassificationSystem => m.(classificationSystem := v)
    case Codewords => m.(codewords := v)
    case ControlAndHandling => m.(controlAndHandling := v)
    case ReleaseInstructions => m.(releaseInstructions := v)
    case DeclassificationType => m.(declassificationType := v)
    case DeclassificationDate => m.(declassificationDate := v)
    case DeclassificationExemption => m.(declassificationExemption := v)
    case Downgrade => m.(downgrade := v)
    case DowngradeDate => m.(downgradeDate := v)
    case ClassificationText => m.(classificationText := v)
    case ClassificationAuthorityType => m.(classificationAuthorityType := v)
    case ClassificationAuthority => m.(classificationAuthority := v)
    case ClassificationReason => m.(classificationReason := v)
    case SecuritySourceDate => m.(securitySourceDate := v)
    case SecurityControlNumber => m.(securityControlNumber := v)
    case DowngradeDateOrSpecialCase => m.(downgradeDateOrSpecialCase := v)
    case DowngradeEvent => m.(downgradeEvent := v)
  }

  /** The classification setter: changes the classification and no text field. */
  function SetClassification(m: SecurityMetadata, c: SecurityClassification): (r: SecurityMetadata)
    ensures r.classification == c
    ensures forall f :: Get(r, f) == Get(m, f)
  {
    m.(classification := c)
  }

  /** A record is determined by its classification and its seventeen getters. */
  lemma Extensionality(m: SecurityMetadata, n: SecurityMetadata)
    requires m.classification == n.classification
    requires forall f :: Get(m, f) == Get(n, f)
    ensures m == n
  {
    assert Get(m, ClassificationSystem) == Get(n, ClassificationSystem);
    assert Get(m, Codewords) == Get(n, Codewords);
    assert Get(m, ControlAndHandling) == Get(n, ControlAndHandling);
    assert Get(m, ReleaseInstructions) == Get(n, ReleaseInstructions);
    assert Get(m, DeclassificationType) == Get(n, DeclassificationType);
    assert Get(m, DeclassificationDate) == Get(n, DeclassificationDate);
    assert Get(m, DeclassificationExemption) == Get(n, DeclassificationExemption);
    assert Get(m, Downgrade) == Get(n, Downgrade);
    assert Get(m, DowngradeDate) == Get(n, DowngradeDate);
    assert Get(m, ClassificationText) == Get(n, ClassificationText);
    assert Get(m, ClassificationAuthorityType) == Get(n, ClassificationAuthorityType);
    assert Get(m, ClassificationAuthority) == Get(n, ClassificationAuthority);
    assert Get(m, ClassificationReason) == Get(n, ClassificationReason);
    assert Get(m, SecuritySourceDate) == Get(n, SecuritySourceDate);
    assert Get(m, SecurityControlNumber) == Get(n, SecurityControlNumber);
    assert Get(m, DowngradeDateOrSpecialCase) == Get(n, DowngradeDateOrSpecialCase);
    assert Get(m, DowngradeEvent) == Get(n, DowngradeEvent);
  }

  /** Setting a field twice keeps only the last value. */
  lemma SetTwiceKeepsLast(m: SecurityMetadata, f: StringField, v: Option<string>, w: Option<string>)
    ensures Set(Set(m, f, v), f, w) == Set(m, f, w)
  {
    Extensionality(Set(Set(m, f, v), f, w), Set(m, f, w));
  }

  /** Setters of different fields commute. */
  lemma SettersCommute(m: SecurityMetadata, f: StringField, v: Option<string>, g: StringField, w: Option<string>)
    requires f != g
    ensures Set(Set(m, f, v), g, w) == Set(Set(m, g, w), f, v)
  {
    Extensionality(Set(Set(m, f, v), g, w), Set(Set(m, g, w), f, v));
  }

  /** Storing back what a getter returned changes nothing. */
  lemma SetToCurrentIsIdentity(m: SecurityMetadata, f: StringField)
    ensures Set(m, f, Get(m, f)) == m
  {
    Extensionality(Set(m, f, Get(m, f)), m);
  }

  /** Setting the classification twice keeps only the last value. */
  lemma SetClassificationTwiceKeepsLast(m: SecurityMetadata, c: SecurityClassification, d: SecurityClassification)
    ensures SetClassification(SetClassification(m, c), d) == SetClassification(m, d)
  {
  }
}
