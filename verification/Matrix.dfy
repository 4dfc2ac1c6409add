/**
 * The SDK matrix check over many reports, and what it guarantees: coverage of operations and error
 * codes down to a validated report, and a count of reports by manifest entry. A manifest whose
 * entries cannot be told apart defeats the count, and only such a one does.
 */
module Matrix {
  import opened Prelude
  import opened Sorting
  import opened Contract
  import opened Reports

  /** A manifest entry: how many reports the matrix must hold from one runner. */
  datatype Runner = Runner(name: string, language: string, protocols: seq<string>, requiredReports: int)

  /** A JSON file of the report directory; only version-2 documents with an `sdk` hash are reports. */
  datatype Document = Unrelated | ReportDocument(report: Report)

  datatype MatrixError =
    | NoFiles
    | FileUnreadable
    | ContractRejected(contract: ContractError)
    | ReportRejected(report: ReportError)
    | NoReports
    | CountDiffers(language: string, name: string)
    | UnexpectedReports
    | FailOrSkip
    | ApiVersionsDiffer
    | DatasetVersionsDiffer
    | DigestsDiffer
    | EvidenceMissing
    | ParityCaseMissing
    | ParityIncomplete

  // ---------------------------------------------------------------- the checks

  type Validator = Report -> Result<Report, ReportError>

  function ReportValidator(tools: Tools, digest: string, cases: seq<Case>): Validator {
    (report: Report) => ValidateReport(tools, digest, cases, report)
  }

  /** Every report among the documents, unless one does not validate. */
  function AcceptDocuments(validate: Validator, documents: seq<Document>): Result<seq<Report>, ReportError> {
    if |documents| == 0 then Ok([])
    else if documents[0].Unrelated? then AcceptDocuments(validate, documents[1..])
    else
      var first := validate(documents[0].report);
      if first.Err? then Err(first.error)
      else
        var rest := AcceptDocuments(validate, documents[1..]);
        if rest.Err? then rest else Ok([first.value] + rest.value)
  }

  predicate Claims(runner: Runner, report: Report) {
    && report.sdk.name == runner.name
    && report.sdk.language == runner.language
    && Sort(StringLeq, report.sdk.supportedProtocols) == Sort(StringLeq, runner.protocols)
  }

  function Claimed(runner: Runner, reports: seq<Report>): seq<Report> {
    Filter((report: Report) => Claims(runner, report), reports)
  }

  function CheckCount(reports: seq<Report>, runner: Runner): Option<MatrixError> {
    if |Claimed(runner, reports)| == runner.requiredReports then None
    else Some(CountDiffers(runner.language, runner.name))
  }

  function TotalRequired(runners: seq<Runner>): int {
    if |runners| == 0 then 0 else runners[0].requiredReports + TotalRequired(runners[1..])
  }

  predicate AllPassed(report: Report) {
    report.summary.failed == 0 && report.summary.skipped == 0 &&
      forall r :: r in report.results ==> r.status == "passed"
  }

  predicate OneValue(reports: seq<Report>, field: Report -> string) {
    forall a, b :: a in reports && b in reports ==> field(a) == field(b)
  }

  function ApiVersion(report: Report): string { report.apiVersion }

  function DatasetVersion(report: Report): string { report.datasetVersion }

  function ContractDigest(report: Report): string { report.contractDigest }

  function ObservedPairs(reports: seq<Report>): seq<(string, string)> {
    Flatten(Map((report: Report) => EvidencePairs(report.evidence), reports))
  }

  function CasePairs(c: Case): seq<(string, string)> { Map((p: string) => (c.id, p), c.protocols) }

  function RequiredPairs(cases: seq<Case>): seq<(string, string)> { Flatten(Map(CasePairs, Required(cases))) }

  predicate IsParity(c: Case) { c.expected.Success? && "protocolResultsEquivalent" in c.expected.semantics }

  function Unique(s: seq<string>): (r: seq<string>)
    ensures Distinct(r) && forall x :: x in r <==> x in s
  {
    Intersect(s, s)
  }

  function ParityProtocols(parity: Case, pairs: seq<(string, string)>): seq<string> {
    Unique(Map((pair: (string, string)) => pair.1, Filter((pair: (string, string)) => pair.0 == parity.id, pairs)))
  }

  function CheckParity(cases: seq<Case>, pairs: seq<(string, string)>): Option<MatrixError> {
    var parity := Filter(IsParity, cases);
    if parity == [] then Some(ParityCaseMissing)
    else if Sort(StringLeq, ParityProtocols(parity[0], pairs)) != Sort(StringLeq, parity[0].protocols) then
      Some(ParityIncomplete)
    else None
  }

  function Require(condition: bool, error: MatrixError, next: Result<seq<Report>, MatrixError>)
    : Result<seq<Report>, MatrixError>
  {
    if condition then next else Err(error)
  }

  function CheckReports(runners: seq<Runner>, cases: seq<Case>, reports: seq<Report>)
    : Result<seq<Report>, MatrixError>
  {
    var counts := FirstFailure((runner: Runner) => CheckCount(reports, runner), runners);
    var parity := CheckParity(cases, ObservedPairs(reports));
    Require(reports != [], NoReports,
    if counts.Some? then Err(counts.value) else
    Require(|reports| == TotalRequired(runners), UnexpectedReports,
    Require(forall report :: report in reports ==> AllPassed(report), FailOrSkip,
    Require(OneValue(reports, ApiVersion), ApiVersionsDiffer,
    Require(OneValue(reports, DatasetVersion), DatasetVersionsDiffer,
    Require(OneValue(reports, ContractDigest), DigestsDiffer,
    Require(Covered(RequiredPairs(cases), ObservedPairs(reports)), EvidenceMissing,
    if parity.Some? then Err(parity.value) else
    Ok(reports))))))))
  }

  /** The whole script: contract, documents, then the checks across reports. */
  function ValidateMatrix(tools: Tools, digest: string, inventory: seq<Operation>, errors: seq<CatalogError>,
      loaded: seq<Case>, runners: seq<Runner>, documents: seq<Document>): Result<seq<Report>, MatrixError>
  {
    if documents == [] then Err(NoFiles)
    else
      var cases := Validate(inventory, errors, loaded);
      if cases.Err? then Err(ContractRejected(cases.error))
      else
        var reports := AcceptDocuments(ReportValidator(tools, digest, cases.value), documents);
        if reports.Err? then Err(ReportRejected(reports.error))
        else CheckReports(runners, cases.value, reports.value)
  }

  // ---------------------------------------------------------------- what acceptance means

  /** The first parity case has different protocols, and evidence for it exists over exactly these. */
  ghost predicate ParityShown(cases: seq<Case>, pairs: seq<(string, string)>) {
    var parity := Filter(IsParity, cases);
    && parity != [] && Distinct(parity[0].protocols)
    && forall p :: p in parity[0].protocols <==> (parity[0].id, p) in pairs
  }

  lemma {:induction false} ParityProtocolsAre(parity: Case, pairs: seq<(string, string)>)
    ensures forall p :: p in ParityProtocols(parity, pairs) <==> (parity.id, p) in pairs
  {
    var own := Filter((pair: (string, string)) => pair.0 == parity.id, pairs);
    var protocols := Map((pair: (string, string)) => pair.1, own);
    forall p ensures p in protocols <==> (parity.id, p) in pairs {
      if p in protocols {
        var i :| 0 <= i < |own| && protocols[i] == p;
        assert own[i] in own;
      }
      if (parity.id, p) in pairs {
        assert (parity.id, p) in own;
        var i :| 0 <= i < |own| && own[i] == (parity.id, p);
        assert protocols[i] == p;
      }
    }
  }

  lemma {:induction false} ParityIff(cases: seq<Case>, pairs: seq<(string, string)>)
    ensures CheckParity(cases, pairs).None? <==> ParityShown(cases, pairs)
  {
    var parity := Filter(IsParity, cases);
    if parity != [] {
      var observed := ParityProtocols(parity[0], pairs);
      SameProtocolsIff(observed, parity[0].protocols);
      SamePermutation(observed, parity[0].protocols);
      ParityProtocolsAre(parity[0], pairs);
    }
  }

  ghost predicate CountsRight(runners: seq<Runner>, reports: seq<Report>) {
    forall runner :: runner in runners ==> |Claimed(runner, reports)| == runner.requiredReports
  }

  /** One API version, one dataset version and one contract digest across all reports. */
  ghost predicate Uniform(reports: seq<Report>) {
    forall a, b :: a in reports && b in reports ==>
      a.apiVersion == b.apiVersion && a.datasetVersion == b.datasetVersion && a.contractDigest == b.contractDigest
  }

  /** What the checks across reports ask for, in no order. */
  ghost predicate MatrixComplete(runners: seq<Runner>, cases: seq<Case>, reports: seq<Report>) {
    && reports != [] && |reports| == TotalRequired(runners)
    && CountsRight(runners, reports)
    && (forall report :: report in reports ==> AllPassed(report))
    && Uniform(reports)
    && Covered(RequiredPairs(cases), ObservedPairs(reports))
    && ParityShown(cases, ObservedPairs(reports))
  }

  lemma {:induction false} CountsIff(runners: seq<Runner>, reports: seq<Report>)
    ensures FirstFailure((runner: Runner) => CheckCount(reports, runner), runners).None? <==>
      CountsRight(runners, reports)
  {
    forall runner | runner in runners
      ensures CheckCount(reports, runner).None? <==> |Claimed(runner, reports)| == runner.requiredReports
    {
    }
  }

  lemma {:induction false} UniformIff(reports: seq<Report>)
    ensures OneValue(reports, ApiVersion) && OneValue(reports, DatasetVersion) && OneValue(reports, ContractDigest)
       <==> Uniform(reports)
  {
    if Uniform(reports) {
      forall a, b | a in reports && b in reports ensures ApiVersion(a) == ApiVersion(b) {}
      forall a, b | a in reports && b in reports ensures DatasetVersion(a) == DatasetVersion(b) {}
      forall a, b | a in reports && b in reports ensures ContractDigest(a) == ContractDigest(b) {}
    }
    if OneValue(reports, ApiVersion) && OneValue(reports, DatasetVersion) && OneValue(reports, ContractDigest) {
      forall a, b | a in reports && b in reports
        ensures a.apiVersion == b.apiVersion && a.datasetVersion == b.datasetVersion &&
          a.contractDigest == b.contractDigest
      {
        assert ApiVersion(a) == ApiVersion(b) && DatasetVersion(a) == DatasetVersion(b) &&
          ContractDigest(a) == ContractDigest(b);
      }
    }
  }

  /** The checks across reports, made in order, accept exactly the complete matrices. */
  lemma {:induction false} CheckedIffComplete(runners: seq<Runner>, cases: seq<Case>, reports: seq<Report>)
    ensures CheckReports(runners, cases, reports).Ok? <==> MatrixComplete(runners, cases, reports)
  {
    CountsIff(runners, reports);
    UniformIff(reports);
    ParityIff(cases, ObservedPairs(reports));
  }

  /** The script accepts exactly when contract, documents and the checks across reports all do. */
  lemma {:induction false} AcceptedMatrixIff(tools: Tools, digest: string, inventory: seq<Operation>,
      errors: seq<CatalogError>, cases: seq<Case>, runners: seq<Runner>, documents: seq<Document>)
    ensures var accepted := AcceptDocuments(ReportValidator(tools, digest, cases), documents);
      ValidateMatrix(tools, digest, inventory, errors, cases, runners, documents).Ok? <==>
        documents != [] && Validate(inventory, errors, cases).Ok? && accepted.Ok? &&
          CheckReports(runners, cases, accepted.value).Ok?
  {
    assert Validate(inventory, errors, cases).Ok? ==> Validate(inventory, errors, cases).value == cases by {
      AcceptedIffComplete(inventory, errors, cases);
    }
  }

  // ---------------------------------------------------------------- end-to-end coverage

  /** A report that validates comes back unchanged. */
  ghost predicate Unchanging(validate: Validator) {
    forall r :: validate(r).Ok? ==> validate(r).value == r
  }

  lemma {:induction false} ValidatorUnchanging(tools: Tools, digest: string, cases: seq<Case>)
    ensures Unchanging(ReportValidator(tools, digest, cases))
  {
    forall r | ReportValidator(tools, digest, cases)(r).Ok?
      ensures ReportValidator(tools, digest, cases)(r).value == r
    {
      AcceptanceIff(tools, digest, cases, r);
    }
  }

  lemma {:induction false} AcceptedDocuments(validate: Validator, documents: seq<Document>)
    requires Unchanging(validate) && AcceptDocuments(validate, documents).Ok?
    ensures forall r :: r in AcceptDocuments(validate, documents).value ==>
      ReportDocument(r) in documents && validate(r).Ok?
  {
    if |documents| > 0 {
      AcceptedDocuments(validate, documents[1..]);
      if documents[0].ReportDocument? {
        assert ReportDocument(documents[0].report) == documents[0];
      }
    }
  }

  /** An accepted matrix puts its evidence in a validated report that records the case as passed. */
  ghost predicate Demonstrated(tools: Tools, digest: string, cases: seq<Case>, documents: seq<Document>, c: Case,
      protocol: string)
  {
    exists report :: ReportDocument(report) in documents && ValidateReport(tools, digest, cases, report).Ok?
      && (c.id, protocol) in EvidencePairs(report.evidence)
      && PassedIn(report, c.id, protocol)
  }

  ghost predicate PassedIn(report: Report, id: string, protocol: string) {
    exists r :: r in report.results && r.caseId == id && protocol in r.protocols && r.status == "passed"
  }

  lemma {:induction false} ObservedInReport(reports: seq<Report>, pair: (string, string)) returns (report: Report)
    requires pair in ObservedPairs(reports)
    ensures report in reports && pair in EvidencePairs(report.evidence)
  {
    var lists := Map((r: Report) => EvidencePairs(r.evidence), reports);
    var i :| 0 <= i < |lists| && pair in lists[i];
    report := reports[i];
  }

  lemma {:induction false} RequiredPairOf(cases: seq<Case>, c: Case, protocol: string)
    requires c in cases && c.required && protocol in c.protocols
    ensures (c.id, protocol) in RequiredPairs(cases)
  {
    var required := Required(cases);
    assert c in required;
    var i :| 0 <= i < |required| && required[i] == c;
    var j :| 0 <= j < |c.protocols| && c.protocols[j] == protocol;
    assert CasePairs(c)[j] == (c.id, protocol);
    assert Map(CasePairs, required)[i] == CasePairs(c);
  }

  /** Every required case is demonstrated over every protocol it names. */
  lemma {:induction false} RequiredCaseDemonstrated(tools: Tools, digest: string, inventory: seq<Operation>,
      errors: seq<CatalogError>, cases: seq<Case>, runners: seq<Runner>, documents: seq<Document>, c: Case,
      protocol: string)
    requires ValidateMatrix(tools, digest, inventory, errors, cases, runners, documents).Ok?
    requires c in cases && c.required && protocol in c.protocols
    ensures Demonstrated(tools, digest, cases, documents, c, protocol)
  {
    AcceptedMatrixIff(tools, digest, inventory, errors, cases, runners, documents);
    var reports := AcceptDocuments(ReportValidator(tools, digest, cases), documents).value;
    CheckedIffComplete(runners, cases, reports);
    ValidatorUnchanging(tools, digest, cases);
    AcceptedDocuments(ReportValidator(tools, digest, cases), documents);
    DemonstratedBy(tools, digest, cases, documents, reports, c, protocol);
  }

  lemma {:induction false} DemonstratedBy(tools: Tools, digest: string, cases: seq<Case>, documents: seq<Document>,
      reports: seq<Report>, c: Case, protocol: string)
    requires Covered(RequiredPairs(cases), ObservedPairs(reports))
    requires forall r :: r in reports ==>
      ReportDocument(r) in documents && ValidateReport(tools, digest, cases, r).Ok? && AllPassed(r)
    requires c in cases && c.required && protocol in c.protocols
    ensures Demonstrated(tools, digest, cases, documents, c, protocol)
  {
    RequiredPairOf(cases, c, protocol);
    var report := ObservedInReport(reports, (c.id, protocol));
    EvidenceIsPassed(tools, digest, cases, report, c.id, protocol);
  }

  lemma {:induction false} EvidenceIsPassed(tools: Tools, digest: string, cases: seq<Case>, report: Report, id: string,
      protocol: string)
    requires ValidateReport(tools, digest, cases, report).Ok? && AllPassed(report)
    requires (id, protocol) in EvidencePairs(report.evidence)
    ensures PassedIn(report, id, protocol)
  {
    AcceptanceIff(tools, digest, cases, report);
    assert (id, protocol) in multiset(EvidencePairs(report.evidence));
    assert (id, protocol) in multiset(ExpectedPairs(report.results));
    ExpectedPairsMember(report.results, id, protocol);
  }

  /**
   * If contract and matrix are both accepted, every operation is demonstrated over every protocol
   * its inventory entry lists, by a required case of that operation.
   */
  lemma {:induction false} EndToEndCoverage(tools: Tools, digest: string, inventory: seq<Operation>,
      errors: seq<CatalogError>, cases: seq<Case>, runners: seq<Runner>, documents: seq<Document>, operation: string,
      protocol: string)
    requires ValidateMatrix(tools, digest, inventory, errors, cases, runners, documents).Ok?
    requires operation in Index(inventory)
    requires IsProtocol(protocol) && protocol in Index(inventory)[operation].keys
    ensures exists c ::
      CoversPair(c, cases, operation, protocol) && Demonstrated(tools, digest, cases, documents, c, protocol)
  {
    AcceptedMatrixIff(tools, digest, inventory, errors, cases, runners, documents);
    AcceptedContractCovers(inventory, errors, cases, operation, protocol);
    var c :| CoversPair(c, cases, operation, protocol);
    RequiredCaseDemonstrated(tools, digest, inventory, errors, cases, runners, documents, c, protocol);
  }

  /** The same for every catalogued error code: its required case is demonstrated over each protocol it names. */
  lemma {:induction false} EndToEndErrorCoverage(tools: Tools, digest: string, inventory: seq<Operation>,
      errors: seq<CatalogError>, cases: seq<Case>, runners: seq<Runner>, documents: seq<Document>, code: string)
    requires ValidateMatrix(tools, digest, inventory, errors, cases, runners, documents).Ok?
    requires code in Catalog(errors)
    ensures exists c :: RaisesCode(c, cases, code)
    ensures forall c, protocol :: RaisesCode(c, cases, code) && protocol in c.protocols ==>
              Demonstrated(tools, digest, cases, documents, c, protocol)
  {
    AcceptedMatrixIff(tools, digest, inventory, errors, cases, runners, documents);
    AcceptedContractCoversErrors(inventory, errors, cases, code);
    forall c, protocol | RaisesCode(c, cases, code) && protocol in c.protocols
      ensures Demonstrated(tools, digest, cases, documents, c, protocol)
    {
      RequiredCaseDemonstrated(tools, digest, inventory, errors, cases, runners, documents, c, protocol);
    }
  }

  // ---------------------------------------------------------------- counting

  ghost predicate SameIdentity(a: Runner, b: Runner) {
    a.name == b.name && a.language == b.language && multiset(a.protocols) == multiset(b.protocols)
  }

  /** No two manifest entries that ask for reports have the same identity. */
  ghost predicate Distinguishable(runners: seq<Runner>) {
    forall i, j :: 0 <= i < j < |runners| && runners[i].requiredReports > 0 && runners[j].requiredReports > 0 ==>
      !SameIdentity(runners[i], runners[j])
  }

  function ClaimantCount(runners: seq<Runner>, report: Report): nat {
    |Filter((runner: Runner) => Claims(runner, report), runners)|
  }

  function TotalClaims(runners: seq<Runner>, reports: seq<Report>): nat {
    if |runners| == 0 then 0 else |Claimed(runners[0], reports)| + TotalClaims(runners[1..], reports)
  }

  function TotalClaimants(runners: seq<Runner>, reports: seq<Report>): nat {
    if |reports| == 0 then 0 else ClaimantCount(runners, reports[0]) + TotalClaimants(runners, reports[1..])
  }

  lemma {:induction false} OneMoreReport(runners: seq<Runner>, reports: seq<Report>)
    requires |reports| > 0
    ensures TotalClaims(runners, reports) == ClaimantCount(runners, reports[0]) + TotalClaims(runners, reports[1..])
  {
    if |runners| > 0 {
      OneMoreReport(runners[1..], reports);
    }
  }

  /** Claims counted by runner and by report are equally many. */
  lemma {:induction false} DoubleCounting(runners: seq<Runner>, reports: seq<Report>)
    ensures TotalClaims(runners, reports) == TotalClaimants(runners, reports)
  {
    if |reports| == 0 {
      NoReportsNoClaims(runners);
      assert reports == [];
    } else {
      OneMoreReport(runners, reports);
      DoubleCounting(runners, reports[1..]);
    }
  }

  lemma {:induction false} NoReportsNoClaims(runners: seq<Runner>)
    ensures TotalClaims(runners, []) == 0
  {
    if |runners| > 0 {
      NoReportsNoClaims(runners[1..]);
    }
  }

  /** A runner claims a report exactly when any other one of its identity does; two claimants have one identity. */
  lemma {:induction false} ClaimsByIdentity(a: Runner, b: Runner, report: Report)
    ensures Claims(a, report) && SameIdentity(a, b) ==> Claims(b, report)
    ensures Claims(a, report) && Claims(b, report) ==> SameIdentity(a, b)
  {
    SameProtocolsIff(report.sdk.supportedProtocols, a.protocols);
    SameProtocolsIff(report.sdk.supportedProtocols, b.protocols);
  }

  lemma {:induction false} AtMostOneClaimant(runners: seq<Runner>, report: Report)
    requires forall i, j :: 0 <= i < j < |runners| ==> !(Claims(runners[i], report) && Claims(runners[j], report))
    ensures ClaimantCount(runners, report) <= 1
  {
    if |runners| > 0 {
      var claims, rest := (runner: Runner) => Claims(runner, report), runners[1..];
      assert forall k :: 0 <= k < |rest| ==> rest[k] == runners[k + 1];
      AtMostOneClaimant(rest, report);
      if Claims(runners[0], report) {
        FilterEmpty(claims, rest);
      }
    }
  }

  lemma {:induction false} TwoClaimants(runners: seq<Runner>, report: Report, i: nat, j: nat)
    requires i < j < |runners| && Claims(runners[i], report) && Claims(runners[j], report)
    ensures ClaimantCount(runners, report) >= 2
  {
    FilterTwo((runner: Runner) => Claims(runner, report), runners, i, j);
  }

  lemma {:induction false} RequiredCountsClaims(runners: seq<Runner>, reports: seq<Report>)
    requires forall runner :: runner in runners ==> |Claimed(runner, reports)| == runner.requiredReports
    ensures TotalRequired(runners) == TotalClaims(runners, reports)
  {
    if |runners| > 0 {
      assert runners[0] in runners;
      RequiredCountsClaims(runners[1..], reports);
    }
  }

  lemma {:induction false} ClaimantsBounded(runners: seq<Runner>, reports: seq<Report>)
    requires forall report :: report in reports ==> ClaimantCount(runners, report) <= 1
    ensures TotalClaimants(runners, reports) <= |reports|
  {
    if |reports| > 0 {
      assert reports[0] in reports;
      ClaimantsBounded(runners, reports[1..]);
    }
  }

  lemma {:induction false} EachHasOne(runners: seq<Runner>, reports: seq<Report>, i: nat)
    requires forall report :: report in reports ==> ClaimantCount(runners, report) <= 1
    requires i < |reports| && TotalClaimants(runners, reports) == |reports|
    ensures ClaimantCount(runners, reports[i]) == 1
  {
    assert reports[0] in reports;
    ClaimantsBounded(runners, reports[1..]);
    if i > 0 {
      EachHasOne(runners, reports[1..], i - 1);
    }
  }

  /** With the counts right, two claimants of a present report both ask for reports. */
  lemma {:induction false} ClaimantsAsk(runners: seq<Runner>, reports: seq<Report>, runner: Runner, report: Report)
    requires CountsRight(runners, reports) && runner in runners && report in reports && Claims(runner, report)
    ensures runner.requiredReports > 0
  {
    assert report in Claimed(runner, reports);
  }

  lemma {:induction false} DistinguishableClaimants(runners: seq<Runner>, reports: seq<Report>, report: Report)
    requires CountsRight(runners, reports) && Distinguishable(runners) && report in reports
    ensures ClaimantCount(runners, report) <= 1
  {
    forall i, j | 0 <= i < j < |runners| ensures !(Claims(runners[i], report) && Claims(runners[j], report)) {
      if Claims(runners[i], report) && Claims(runners[j], report) {
        ClaimantsAsk(runners, reports, runners[i], report);
        ClaimantsAsk(runners, reports, runners[j], report);
        ClaimsByIdentity(runners[i], runners[j], report);
      }
    }
    AtMostOneClaimant(runners, report);
  }

  lemma {:induction false} SharedIdentityShares(runners: seq<Runner>, reports: seq<Report>, i: nat, j: nat)
    returns (report: Report)
    requires CountsRight(runners, reports) && i < j < |runners|
    requires runners[i].requiredReports > 0 && SameIdentity(runners[i], runners[j])
    ensures report in reports && ClaimantCount(runners, report) >= 2
  {
    assert |Claimed(runners[i], reports)| == runners[i].requiredReports;
    report := Claimed(runners[i], reports)[0];
    assert report in Claimed(runners[i], reports);
    ClaimsByIdentity(runners[i], runners[j], report);
    TwoClaimants(runners, report, i, j);
  }

  ghost predicate EachClaimedOnce(runners: seq<Runner>, reports: seq<Report>) {
    forall report :: report in reports ==> ClaimantCount(runners, report) == 1
  }

  /**
   * Every accepted matrix has each runner's required number of reports; each report belongs to
   * exactly one runner, by pigeonhole, if and only if no two entries of one identity ask for any.
   */
  lemma {:induction false} MatrixCounting(runners: seq<Runner>, cases: seq<Case>, reports: seq<Report>)
    requires CheckReports(runners, cases, reports).Ok?
    ensures CountsRight(runners, reports)
    ensures EachClaimedOnce(runners, reports) <==> Distinguishable(runners)
  {
    CheckedIffComplete(runners, cases, reports);
    if Distinguishable(runners) {
      forall report | report in reports ensures ClaimantCount(runners, report) <= 1 {
        DistinguishableClaimants(runners, reports, report);
      }
      RequiredCountsClaims(runners, reports);
      DoubleCounting(runners, reports);
      forall report | report in reports ensures ClaimantCount(runners, report) == 1 {
        var i :| 0 <= i < |reports| && reports[i] == report;
        EachHasOne(runners, reports, i);
      }
    } else {
      var i, j :| 0 <= i < j < |runners| && runners[i].requiredReports > 0 && runners[j].requiredReports > 0
        && SameIdentity(runners[i], runners[j]);
      var report := SharedIdentityShares(runners, reports, i, j);
    }
  }

  // ---------------------------------------------------------------- a manifest that fails the condition

  function Renamed(report: Report, name: string): Report { report.(sdk := report.sdk.(name := name)) }

  lemma {:induction false} OneClaimed(runner: Runner, known: Report, stranger: Report)
    requires !Claims(runner, stranger)
    ensures |Claimed(runner, [known])| == if Claims(runner, known) then 1 else 0
    ensures Claimed(runner, [known, stranger]) == Claimed(runner, [known])
    ensures ClaimantCount([runner, runner], known) == 2 * |Claimed(runner, [known])|
    ensures ClaimantCount([runner, runner], stranger) == 0
  {
    assert [known, stranger] == [known] + [stranger];
    FilterAppend((report: Report) => Claims(runner, report), [known], [stranger]);
    FilterOne((report: Report) => Claims(runner, report), known);
    FilterOne((report: Report) => Claims(runner, report), stranger);
    PairCounts(runner, known);
    PairCounts(runner, stranger);
  }

  lemma {:induction false} PairCounts(runner: Runner, report: Report)
    ensures ClaimantCount([runner, runner], report) == if Claims(runner, report) then 2 else 0
  {
    var claims := (other: Runner) => Claims(other, report);
    assert [runner, runner] == [runner] + [runner];
    FilterAppend(claims, [runner], [runner]);
    FilterOne(claims, runner);
  }

  lemma {:induction false} ObservedTwice(known: Report, stranger: Report)
    requires stranger.evidence == known.evidence
    ensures forall pair :: pair in ObservedPairs([known, stranger]) <==> pair in ObservedPairs([known])
  {
    forall pair ensures pair in ObservedPairs([known, stranger]) <==> pair in EvidencePairs(known.evidence)
                ensures pair in ObservedPairs([known]) <==> pair in EvidencePairs(known.evidence)
    {
      ObservedIff([known, stranger], pair);
      ObservedIff([known], pair);
    }
  }

  lemma {:induction false} ObservedIff(reports: seq<Report>, pair: (string, string))
    ensures pair in ObservedPairs(reports) <==>
      exists i :: 0 <= i < |reports| && pair in EvidencePairs(reports[i].evidence)
  {
    var lists := Map((report: Report) => EvidencePairs(report.evidence), reports);
    if pair in ObservedPairs(reports) {
      var i :| 0 <= i < |lists| && pair in lists[i];
      assert pair in EvidencePairs(reports[i].evidence);
    }
    if i :| 0 <= i < |reports| && pair in EvidencePairs(reports[i].evidence) {
      assert pair in lists[i];
    }
  }

  lemma {:induction false} TwiceComplete(runner: Runner, cases: seq<Case>, known: Report, stranger: Report)
    requires MatrixComplete([runner], cases, [known]) && runner.requiredReports == 1
    requires Claimed(runner, [known, stranger]) == Claimed(runner, [known])
    requires AllPassed(stranger) && Uniform([known, stranger])
    requires forall pair :: pair in ObservedPairs([known, stranger]) <==> pair in ObservedPairs([known])
    ensures MatrixComplete([runner, runner], cases, [known, stranger])
  {
    TotalsOf(runner);
    assert runner in [runner] && known in [known];
  }

  /** The checks across reports let a stranger in when the only entry is listed twice. */
  lemma {:induction false} StrangerPasses(runner: Runner, cases: seq<Case>, known: Report, name: string)
    requires CheckReports([runner], cases, [known]).Ok? && name != runner.name
    ensures CheckReports([runner, runner], cases, [known, Renamed(known, name)]).Ok?
    ensures ClaimantCount([runner, runner], known) == 2
    ensures ClaimantCount([runner, runner], Renamed(known, name)) == 0
  {
    var stranger := Renamed(known, name);
    CheckedIffComplete([runner], cases, [known]);
    OneClaimed(runner, known, stranger);
    TotalsOf(runner);
    assert runner in [runner] && known in [known];
    ObservedTwice(known, stranger);
    TwiceComplete(runner, cases, known, stranger);
    CheckedIffComplete([runner, runner], cases, [known, stranger]);
  }

  lemma {:induction false} TotalsOf(runner: Runner)
    ensures TotalRequired([runner]) == runner.requiredReports
    ensures TotalRequired([runner, runner]) == 2 * runner.requiredReports
  {
    assert [runner][1..] == [] && [runner, runner][1..] == [runner];
  }

  lemma {:induction false} RenamedAcceptable(tools: Tools, digest: string, cases: seq<Case>, report: Report,
      name: string)
    requires Acceptable(tools, digest, cases, report) && |name| >= 1 && !tools.leaks(Renamed(report, name))
    ensures Acceptable(tools, digest, cases, Renamed(report, name))
  {
  }

  lemma {:induction false} TwoDocuments(validate: Validator, a: Report, b: Report)
    ensures AcceptDocuments(validate, [ReportDocument(a)]) ==
      if validate(a).Ok? then Ok([validate(a).value]) else Err(validate(a).error)
    ensures validate(a).Ok? && validate(b).Ok? ==>
      AcceptDocuments(validate, [ReportDocument(a), ReportDocument(b)]) == Ok([validate(a).value, validate(b).value])
  {
    LastDocument(validate, a);
    LastDocument(validate, b);
    assert [ReportDocument(a), ReportDocument(b)][1..] == [ReportDocument(b)];
    assert validate(a).Ok? && validate(b).Ok? ==>
      [validate(a).value] + [validate(b).value] == [validate(a).value, validate(b).value];
  }

  lemma {:induction false} LastDocument(validate: Validator, a: Report)
    ensures AcceptDocuments(validate, [ReportDocument(a)]) ==
      if validate(a).Ok? then Ok([validate(a).value]) else Err(validate(a).error)
  {
    assert [ReportDocument(a)][1..] == [] && AcceptDocuments(validate, []) == Ok([]);
    assert validate(a).Ok? ==> [validate(a).value] + [] == [validate(a).value];
  }

  /**
   * Listing the entry of any accepted one-report matrix twice lets in a second report that no
   * entry stands for: the script counts the first report for both entries, and the stranger, a
   * copy under another name, fills the total.
   */
  lemma {:induction false} EqualRunnersHideStranger(tools: Tools, digest: string, inventory: seq<Operation>,
      errors: seq<CatalogError>, cases: seq<Case>, runner: Runner, known: Report, name: string)
    requires ValidateMatrix(tools, digest, inventory, errors, cases, [runner], [ReportDocument(known)]).Ok?
    requires name != runner.name && |name| >= 1 && !tools.leaks(Renamed(known, name))
    ensures var documents := [ReportDocument(known), ReportDocument(Renamed(known, name))];
      ValidateMatrix(tools, digest, inventory, errors, cases, [runner, runner], documents).Ok?
    ensures ClaimantCount([runner, runner], known) == 2
    ensures ClaimantCount([runner, runner], Renamed(known, name)) == 0
  {
    var validate, stranger := ReportValidator(tools, digest, cases), Renamed(known, name);
    AcceptedMatrixIff(tools, digest, inventory, errors, cases, [runner], [ReportDocument(known)]);
    TwoDocuments(validate, known, stranger);
    AcceptanceIff(tools, digest, cases, known);
    RenamedAcceptable(tools, digest, cases, known, name);
    AcceptanceIff(tools, digest, cases, stranger);
    StrangerPasses(runner, cases, known, name);
    AcceptedMatrixIff(tools, digest, inventory, errors, cases, [runner, runner],
      [ReportDocument(known), ReportDocument(stranger)]);
  }
}
