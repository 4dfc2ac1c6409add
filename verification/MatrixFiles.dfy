/**
 * The matrix script from the JSON files on: which files it takes for reports, what it reads of
 * them by key, and the checks on what it read. The report records of `Matrix` are then not an
 * assumption but what the files are shown to hold.
 */
module MatrixFiles {
  import opened Prelude
  import opened Json
  import opened SchemaValidator
  import opened Contract
  import opened Reports
  import opened ReportSchema
  import opened MemberOrder
  import opened ReportReading
  import opened ReportDocuments
  import opened Matrix
  import PA = PlainAcceptance
  import PM = PlainMatrix
  import Canonical

  /** What `JSON.parse` makes of a file. */
  datatype File = NotJson | Parsed(v: Json)

  /** The schema document, the digest function and the secret scan of a report's JSON text. */
  datatype AnySetting = Setting(d: SchemaValidator.Document, sha256: string -> string, leaks: Json -> bool)

  /** The regular expressions are Ruby's, and the report schema has no references. */
  type Setting = s: AnySetting | Faithful(s.d)
    ghost witness Setting(
      SchemaValidator.Document.Document(map[], map[], (pattern, text) => IsDigest(text), text => 0.0),
      text => text, v => false)

  ghost predicate GoodFiles(files: seq<File>) {
    forall i :: 0 <= i < |files| && files[i].Parsed? ==> WellFormed(files[i].v)
  }

  // ---------------------------------------------------------------- validate_report! on a document

  /** The parsed text of a report, which the checks read by key once the schema accepted it. */
  ghost function ValidateJson(s: Setting, digest: string, cases: seq<Case>, v: Json): Result<Report, ReportError> {
    if SchemaValidator.Validate(s.d, v, REPORT_SCHEMA) != Valid then Err(SchemaViolation)
    else CheckRecord(digest, cases, ReadReport(v), s.sha256(CanonicalJson(At(v, "evidence"))), s.leaks(v))
  }

  /** The record checks with the secret scan of the document the record was read from. */
  function ToolsFor(s: Setting, v: Json): Tools { Tools(s.sha256, (r: Report) => s.leaks(v)) }

  lemma {:induction false} EvidenceForms(evidence: seq<Evidence>)
    ensures Arr(Map(EntryJson, evidence)) == EvidenceJson(evidence)
  {
    forall i | 0 <= i < |evidence| ensures Map(EntryJson, evidence)[i] == EvidenceJson(evidence).items[i] {
      assert EntryJson(evidence[i]).fields == EvidenceJson(evidence).items[i].fields;
    }
  }

  lemma {:induction false} EvidenceWellFormed(evidence: seq<Evidence>)
    ensures WellFormed(EvidenceJson(evidence))
  {
  }

  lemma {:induction false} AtWellFormed(v: Json, key: string)
    requires WellFormed(v)
    ensures WellFormed(At(v, key))
  {
    if v.Obj? && key in Keys(v.fields) {
      var i := GetIs(v.fields, key);
    }
  }

  /** The evidence text digested is the same, in whatever order the entries list their members. */
  lemma {:induction false} EvidenceTextRead(v: Json, version: Json, r: Report)
    requires WellFormed(v) && Same(v, ReportForm(version, r))
    ensures CanonicalJson(At(v, "evidence")) == CanonicalJson(EvidenceJson(r.evidence))
  {
    ReportMembers(v, version, r);
    EvidenceForms(r.evidence);
    EvidenceWellFormed(r.evidence);
    AtWellFormed(v, "evidence");
    Canonical.CanonicalJsonUnambiguous(At(v, "evidence"), EvidenceJson(r.evidence));
  }

  lemma {:induction false} HeldValidates(s: Setting, digest: string, cases: seq<Case>, v: Json, version: Json,
      r: Report)
    requires WellFormed(v) && IsReport(s.d, v, version, r)
    ensures r == ReadReport(v)
    ensures ValidateJson(s, digest, cases, v) == ValidateReport(ToolsFor(s, v), digest, cases, r)
  {
    ReportDocumentIff(s.d, v);
    EvidenceTextRead(v, version, r);
  }

  /** Up to the order of members the document is the JSON of a record that meets the order-free conditions. */
  ghost predicate Holds(s: Setting, digest: string, cases: seq<Case>, v: Json, r: Report) {
    PA.Plain(ToolsFor(s, v), digest, cases, r) && exists version :: IsReport(s.d, v, version, r)
  }

  /**
   * A JSON document passes `validate_report!` if and only if it is, up to the order of members, the
   * JSON of a record that meets the order-free conditions; that record is then what comes back.
   */
  lemma {:induction false} JsonAcceptedIff(s: Setting, digest: string, cases: seq<Case>, v: Json)
    requires WellFormed(v)
    ensures ValidateJson(s, digest, cases, v).Ok? <==> Holds(s, digest, cases, v, ReadReport(v))
    ensures ValidateJson(s, digest, cases, v).Ok? ==> ValidateJson(s, digest, cases, v).value == ReadReport(v)
    ensures forall r :: Holds(s, digest, cases, v, r) ==> r == ReadReport(v)
  {
    ReportDocumentIff(s.d, v);
    forall version, r | IsReport(s.d, v, version, r)
      ensures ValidateJson(s, digest, cases, v) == ValidateReport(ToolsFor(s, v), digest, cases, ReadReport(v))
    {
      HeldValidates(s, digest, cases, v, version, r);
    }
    PA.AcceptedIffPlain(ToolsFor(s, v), digest, cases, ReadReport(v));
  }

  // ---------------------------------------------------------------- the files of the directory

  /**
   * `next unless report["schemaVersion"] == 2 && report["sdk"].is_a?(Hash)`: a string answers a key
   * with a substring or `nil`, any other value that is not a hash raises.
   */
  ghost function TakenForReport(s: Setting, v: Json): Option<bool> {
    match v
    case Obj(_) => Some(RubyEqual(s.d, At(v, "schemaVersion"), Int(2)) && At(v, "sdk").Obj?)
    case Str(_) => Some(false)
    case _ => None
  }

  /** Whether a document is taken for a report, and what validating it comes to. */
  datatype Reader = Reader(taken: Json -> Option<bool>, validate: Json -> Result<Report, ReportError>)

  ghost function ReaderOf(s: Setting, digest: string, cases: seq<Case>): Reader {
    Reader((v: Json) => TakenForReport(s, v), (v: Json) => ValidateJson(s, digest, cases, v))
  }

  /** `paths.map`: every file is parsed, and every report among them validated, in order. */
  function AcceptFiles(reader: Reader, files: seq<File>): Result<seq<Report>, MatrixError> {
    if |files| == 0 then Ok([])
    else if files[0].NotJson? || reader.taken(files[0].v).None? then Err(FileUnreadable)
    else if !reader.taken(files[0].v).value then AcceptFiles(reader, files[1..])
    else
      var first := reader.validate(files[0].v);
      if first.Err? then Err(ReportRejected(first.error))
      else
        var rest := AcceptFiles(reader, files[1..]);
        if rest.Err? then rest else Ok([first.value] + rest.value)
  }

  /** The script from the directory on. */
  ghost function ValidateFiles(s: Setting, digest: string, inventory: seq<Operation>, errors: seq<CatalogError>,
      loaded: seq<Case>, runners: seq<Runner>, files: seq<File>): Result<seq<Report>, MatrixError>
  {
    if files == [] then Err(NoFiles)
    else
      var cases := Contract.Validate(inventory, errors, loaded);
      if cases.Err? then Err(ContractRejected(cases.error))
      else
        var reports := AcceptFiles(ReaderOf(s, digest, cases.value), files);
        if reports.Err? then reports else CheckReports(runners, cases.value, reports.value)
  }

  /** The documents among the files that are taken for reports. */
  function Taken(reader: Reader, files: seq<File>): seq<Json> {
    if |files| == 0 then []
    else
      (if files[0].Parsed? && reader.taken(files[0].v) == Some(true) then [files[0].v] else [])
        + Taken(reader, files[1..])
  }

  /** The script gets past the file. */
  predicate Passed(reader: Reader, f: File) {
    && f.Parsed? && reader.taken(f.v).Some?
    && (reader.taken(f.v).value ==> reader.validate(f.v).Ok?)
  }

  /** Whatever the reader: the script gets past all files or none, and returns what validating those taken gave. */
  lemma {:induction false} AcceptFilesIff(reader: Reader, files: seq<File>)
    ensures AcceptFiles(reader, files).Ok? <==> forall i :: 0 <= i < |files| ==> Passed(reader, files[i])
    ensures AcceptFiles(reader, files).Ok? ==>
      |AcceptFiles(reader, files).value| == |Taken(reader, files)| &&
        forall i :: 0 <= i < |Taken(reader, files)| ==>
          reader.validate(Taken(reader, files)[i]) == Ok(AcceptFiles(reader, files).value[i])
  {
    if |files| > 0 {
      AcceptFilesIff(reader, files[1..]);
      assert forall i :: 1 <= i < |files| ==> files[1..][i - 1] == files[i];
    }
  }

  lemma {:induction false} TakenIn(reader: Reader, files: seq<File>, v: Json)
    requires v in Taken(reader, files)
    ensures Parsed(v) in files && reader.taken(v) == Some(true)
  {
    if v in Taken(reader, files[1..]) {
      TakenIn(reader, files[1..], v);
    } else {
      assert files[0] == Parsed(v);
    }
  }

  // ---------------------------------------------------------------- what the script accepts

  /** The script passes the file over. */
  ghost predicate Ignored(s: Setting, f: File) { f.Parsed? && TakenForReport(s, f.v) == Some(false) }

  ghost predicate HoldsReport(s: Setting, digest: string, cases: seq<Case>, f: File, r: Report) {
    f.Parsed? && Holds(s, digest, cases, f.v, r)
  }

  ghost predicate Fine(s: Setting, digest: string, cases: seq<Case>, f: File) {
    Ignored(s, f) || exists r :: HoldsReport(s, digest, cases, f, r)
  }

  /** What is read of the files taken for reports. */
  ghost function ReportsIn(s: Setting, digest: string, cases: seq<Case>, files: seq<File>): seq<Report> {
    Map(ReadReport, Taken(ReaderOf(s, digest, cases), files))
  }

  lemma {:induction false} HeldIsTaken(s: Setting, v: Json, version: Json, r: Report)
    requires IsReport(s.d, v, version, r)
    ensures TakenForReport(s, v) == Some(true)
  {
    ReportMembers(v, version, r);
    SameSymmetric(At(v, "schemaVersion"), version);
    RubyEqualSame(s.d, version, At(v, "schemaVersion"), Int(2));
  }

  lemma {:induction false} HolderIsTaken(s: Setting, digest: string, cases: seq<Case>, v: Json, r: Report)
    requires Holds(s, digest, cases, v, r)
    ensures TakenForReport(s, v) == Some(true)
  {
    var version :| IsReport(s.d, v, version, r);
    HeldIsTaken(s, v, version, r);
  }

  lemma {:induction false} FineIff(s: Setting, digest: string, cases: seq<Case>, f: File)
    requires f.Parsed? ==> WellFormed(f.v)
    ensures Fine(s, digest, cases, f) <==> Passed(ReaderOf(s, digest, cases), f)
  {
    if f.Parsed? {
      JsonAcceptedIff(s, digest, cases, f.v);
      if r :| HoldsReport(s, digest, cases, f, r) {
        HolderIsTaken(s, digest, cases, f.v, r);
      }
      assert ValidateJson(s, digest, cases, f.v).Ok? ==> HoldsReport(s, digest, cases, f, ReadReport(f.v));
    }
  }

  lemma {:induction false} AllFineIff(s: Setting, digest: string, cases: seq<Case>, files: seq<File>)
    requires GoodFiles(files)
    ensures (forall f :: f in files ==> Fine(s, digest, cases, f)) <==>
      forall i :: 0 <= i < |files| ==> Passed(ReaderOf(s, digest, cases), files[i])
  {
    forall i | 0 <= i < |files|
      ensures Fine(s, digest, cases, files[i]) <==> Passed(ReaderOf(s, digest, cases), files[i])
    {
      FineIff(s, digest, cases, files[i]);
    }
  }

  lemma {:induction false} AcceptedAreRead(s: Setting, digest: string, cases: seq<Case>, files: seq<File>)
    requires GoodFiles(files) && AcceptFiles(ReaderOf(s, digest, cases), files).Ok?
    ensures AcceptFiles(ReaderOf(s, digest, cases), files).value == ReportsIn(s, digest, cases, files)
  {
    var reader := ReaderOf(s, digest, cases);
    var taken, accepted := Taken(reader, files), AcceptFiles(reader, files).value;
    AcceptFilesIff(reader, files);
    forall i | 0 <= i < |taken| ensures accepted[i] == ReadReport(taken[i]) {
      TakenIn(reader, files, taken[i]);
      var k :| 0 <= k < |files| && files[k] == Parsed(taken[i]);
      JsonAcceptedIff(s, digest, cases, taken[i]);
    }
  }

  /**
   * The script accepts a directory of arbitrary files exactly when there is a file, the contract is
   * accepted, each file is one the script passes over or holds an acceptable report, and the
   * reports held make a complete matrix.
   */
  lemma {:induction false} FilesAcceptedIff(s: Setting, digest: string, inventory: seq<Operation>,
      errors: seq<CatalogError>, cases: seq<Case>, runners: seq<Runner>, files: seq<File>)
    requires GoodFiles(files)
    ensures ValidateFiles(s, digest, inventory, errors, cases, runners, files).Ok? <==>
      && files != [] && Contract.Validate(inventory, errors, cases).Ok?
      && (forall f :: f in files ==> Fine(s, digest, cases, f))
      && PM.Plain(runners, cases, ReportsIn(s, digest, cases, files))
  {
    if Contract.Validate(inventory, errors, cases).Ok? {
      AcceptedIffComplete(inventory, errors, cases);
    }
    AcceptFilesIff(ReaderOf(s, digest, cases), files);
    AllFineIff(s, digest, cases, files);
    if AcceptFiles(ReaderOf(s, digest, cases), files).Ok? {
      AcceptedAreRead(s, digest, cases, files);
    }
    PM.CheckedIffPlain(runners, cases, ReportsIn(s, digest, cases, files));
  }

  // ---------------------------------------------------------------- coverage, down to the files

  /** Some file holds an acceptable report with evidence for the pair, and records the case as passed over it. */
  ghost predicate ShownInFile(s: Setting, digest: string, cases: seq<Case>, files: seq<File>, c: Case,
      protocol: string)
  {
    exists f, r :: f in files && HoldsReport(s, digest, cases, f, r)
      && (c.id, protocol) in EvidencePairs(r.evidence) && PassedIn(r, c.id, protocol)
  }

  lemma {:induction false} ReportHeld(s: Setting, digest: string, cases: seq<Case>, files: seq<File>, r: Report)
    returns (f: File)
    requires GoodFiles(files) && forall f :: f in files ==> Fine(s, digest, cases, f)
    requires r in ReportsIn(s, digest, cases, files)
    ensures f in files && HoldsReport(s, digest, cases, f, r)
  {
    var taken := Taken(ReaderOf(s, digest, cases), files);
    var i :| 0 <= i < |taken| && r == ReadReport(taken[i]);
    f := Parsed(taken[i]);
    TakenIn(ReaderOf(s, digest, cases), files, taken[i]);
    var k :| 0 <= k < |files| && files[k] == f;
    FineIff(s, digest, cases, f);
    JsonAcceptedIff(s, digest, cases, taken[i]);
  }

  lemma {:induction false} RequiredCaseShown(s: Setting, digest: string, cases: seq<Case>, runners: seq<Runner>,
      files: seq<File>, c: Case, protocol: string)
    requires GoodFiles(files) && forall f :: f in files ==> Fine(s, digest, cases, f)
    requires PM.Plain(runners, cases, ReportsIn(s, digest, cases, files))
    requires c in cases && c.required && protocol in c.protocols
    ensures ShownInFile(s, digest, cases, files, c, protocol)
  {
    RequiredPairOf(cases, c, protocol);
    var r := ObservedInReport(ReportsIn(s, digest, cases, files), (c.id, protocol));
    var f := ReportHeld(s, digest, cases, files, r);
    PA.AcceptedIffPlain(ToolsFor(s, f.v), digest, cases, r);
    EvidenceIsPassed(ToolsFor(s, f.v), digest, cases, r, c.id, protocol);
  }

  /**
   * If the script accepts a directory, every operation is shown over every protocol its inventory
   * entry lists: some file holds the evidence, for a required case of the operation.
   */
  lemma {:induction false} FilesCoverage(s: Setting, digest: string, inventory: seq<Operation>,
      errors: seq<CatalogError>, cases: seq<Case>, runners: seq<Runner>, files: seq<File>, operation: string,
      protocol: string)
    requires GoodFiles(files)
    requires ValidateFiles(s, digest, inventory, errors, cases, runners, files).Ok?
    requires operation in Index(inventory)
    requires IsProtocol(protocol) && protocol in Index(inventory)[operation].keys
    ensures exists c ::
      CoversPair(c, cases, operation, protocol) && ShownInFile(s, digest, cases, files, c, protocol)
  {
    FilesAcceptedIff(s, digest, inventory, errors, cases, runners, files);
    AcceptedContractCovers(inventory, errors, cases, operation, protocol);
    var c :| CoversPair(c, cases, operation, protocol);
    RequiredCaseShown(s, digest, cases, runners, files, c, protocol);
  }

  /** The same for every catalogued error code, over each protocol its required cases name. */
  lemma {:induction false} FilesErrorCoverage(s: Setting, digest: string, inventory: seq<Operation>,
      errors: seq<CatalogError>, cases: seq<Case>, runners: seq<Runner>, files: seq<File>, code: string)
    requires GoodFiles(files)
    requires ValidateFiles(s, digest, inventory, errors, cases, runners, files).Ok?
    requires code in Catalog(errors)
    ensures exists c :: RaisesCode(c, cases, code)
    ensures forall c, protocol :: RaisesCode(c, cases, code) && protocol in c.protocols ==>
              ShownInFile(s, digest, cases, files, c, protocol)
  {
    FilesAcceptedIff(s, digest, inventory, errors, cases, runners, files);
    AcceptedContractCoversErrors(inventory, errors, cases, code);
    forall c, protocol | RaisesCode(c, cases, code) && protocol in c.protocols
      ensures ShownInFile(s, digest, cases, files, c, protocol)
    {
      RequiredCaseShown(s, digest, cases, runners, files, c, protocol);
    }
  }
}
