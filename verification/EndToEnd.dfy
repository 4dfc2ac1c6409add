/**
 * From SDK runs to an accepted matrix: one runner process per adapter (TypeScript), then the
 * Ruby script over the reports they wrote. The script's verdict is brought down, check by check,
 * to conditions on the adapters, the runs and the manifest: whether the manifest is met, whether
 * each run is fit, and which protocols the adapters support.
 */
module EndToEnd {
  import opened Prelude
  import opened Contract
  import opened Reports
  import opened Matrix
  import PlainMatrix
  import R = Runner
  import RA = RunnerAcceptance
  import V = CaseVerdict

  datatype Adapter = Adapter(harness: R.Harness, sdk: Sdk)

  /** Each adapter's run returned, and wrote the report at its index. */
  ghost predicate Ran(digest: string, cases: seq<Case>, adapters: seq<Adapter>, reports: seq<Report>) {
    |reports| == |adapters| &&
    forall i :: 0 <= i < |adapters| ==> R.Run(adapters[i].harness, digest, adapters[i].sdk, cases) == Ok(reports[i])
  }

  /** The manifest entry stands for the adapter: the same name, language and protocols. */
  predicate StandsFor(runner: Runner, a: Adapter) {
    && a.sdk.name == runner.name
    && a.sdk.language == runner.language
    && multiset(a.sdk.supportedProtocols) == multiset(runner.protocols)
  }

  function Matching(runner: Runner, adapters: seq<Adapter>): seq<Adapter> {
    Filter((a: Adapter) => StandsFor(runner, a), adapters)
  }

  /** Each entry asks for as many reports as there are adapters it stands for, and in all for one of each adapter. */
  ghost predicate ManifestMet(runners: seq<Runner>, adapters: seq<Adapter>) {
    && |adapters| == TotalRequired(runners)
    && forall runner :: runner in runners ==> |Matching(runner, adapters)| == runner.requiredReports
  }

  function Written(reports: seq<Report>): seq<Document> { Map((r: Report) => ReportDocument(r), reports) }

  /** No applicable case, required or not, had a failure. */
  ghost predicate Clean(h: R.Harness, supported: seq<string>, cases: seq<Case>) {
    forall c :: c in cases && R.RunProtocols(c, supported) != [] ==> R.CaseFailures(h, supported, c) == []
  }

  /** Every applicable case, required or not, passes on the adapter's answers. */
  ghost predicate AllPass(h: R.Harness, supported: seq<string>, cases: seq<Case>) {
    forall c :: c in cases && V.Runs(c, supported) ==> V.CasePasses(h, supported, c)
  }

  /** The run of one adapter is fit for the matrix. */
  ghost predicate Fit(tools: Tools, cases: seq<Case>, a: Adapter, report: Report) {
    && Shape(report) && !tools.leaks(report)
    && RA.AllRecorded(a.harness, a.sdk.supportedProtocols, cases)
    && AllPass(a.harness, a.sdk.supportedProtocols, cases)
  }

  predicate Supports(adapters: seq<Adapter>, i: int, p: string) {
    0 <= i < |adapters| && p in adapters[i].sdk.supportedProtocols
  }

  /** Some adapter supports the protocol. */
  predicate SomeSupports(adapters: seq<Adapter>, p: string) {
    exists i :: 0 <= i < |adapters| && Supports(adapters, i, p)
  }

  /** Some adapter supports each protocol of each required case. */
  ghost predicate RequiredSupported(cases: seq<Case>, adapters: seq<Adapter>) {
    forall c, p :: c in cases && c.required && p in c.protocols ==> SomeSupports(adapters, p)
  }

  ghost predicate AllSupported(c: Case, adapters: seq<Adapter>) {
    forall p :: p in c.protocols ==> SomeSupports(adapters, p)
  }

  /** There is a parity case, and some adapter supports each protocol of the first one. */
  ghost predicate ParitySupported(cases: seq<Case>, adapters: seq<Adapter>) {
    exists i :: PlainMatrix.FirstParity(cases, i) && AllSupported(cases[i], adapters)
  }

  ghost predicate OneApiVersion(reports: seq<Report>) {
    forall a, b :: a in reports && b in reports ==> a.apiVersion == b.apiVersion
  }

  // ---------------------------------------------------------------- reading the documents

  lemma {:induction false} WrittenAccepted(validate: Validator, reports: seq<Report>)
    requires Unchanging(validate)
    ensures AcceptDocuments(validate, Written(reports)).Ok? <==>
      forall i :: 0 <= i < |reports| ==> validate(reports[i]).Ok?
    ensures AcceptDocuments(validate, Written(reports)).Ok? ==>
      AcceptDocuments(validate, Written(reports)).value == reports
  {
    if |reports| > 0 {
      var first, rest := reports[0], reports[1..];
      WrittenAccepted(validate, rest);
      FirstAccepted(validate, first, Written(rest));
      WrittenInFront(first, rest);
      assert reports == [first] + rest;
      assert (forall i :: 0 <= i < |reports| ==> validate(reports[i]).Ok?) <==>
        validate(first).Ok? && forall i :: 0 <= i < |rest| ==> validate(rest[i]).Ok? by {
        assert forall i :: 1 <= i < |reports| ==> rest[i - 1] == reports[i];
      }
    }
  }

  lemma {:induction false} WrittenInFront(first: Report, rest: seq<Report>)
    ensures Written([first] + rest) == [ReportDocument(first)] + Written(rest)
  {
  }

  lemma {:induction false} FirstAccepted(validate: Validator, report: Report, rest: seq<Document>)
    requires validate(report).Ok? ==> validate(report).value == report
    ensures var all, others := AcceptDocuments(validate, [ReportDocument(report)] + rest),
      AcceptDocuments(validate, rest);
      && (all.Ok? <==> validate(report).Ok? && others.Ok?)
      && (all.Ok? ==> all.value == [report] + others.value)
  {
    assert ([ReportDocument(report)] + rest)[1..] == rest;
  }

  // ---------------------------------------------------------------- one report

  lemma {:induction false} StatusCounts(results: seq<CaseResult>)
    requires forall r :: r in results ==> r.status == "passed"
    ensures CountStatus(results, "failed") == 0 && CountStatus(results, "skipped") == 0
  {
    NobodyHas(results, "failed");
    NobodyHas(results, "skipped");
  }

  lemma {:induction false} NobodyHas(results: seq<CaseResult>, status: string)
    requires forall r :: r in results ==> r.status != status
    ensures CountStatus(results, status) == 0
  {
    FilterEmpty((r: CaseResult) => r.status == status, results);
  }

  /** A run's report holds passed results only exactly when the run was clean. */
  lemma {:induction false} AllPassedIff(h: R.Harness, supported: seq<string>, cases: seq<Case>, report: Report)
    requires report.results == R.RunResults(h, supported, cases) && report.summary == SummaryOf(report.results)
    ensures AllPassed(report) <==> Clean(h, supported, cases)
  {
    RA.ResultsOfRun(h, supported, cases);
    if Clean(h, supported, cases) {
      forall r | r in report.results ensures r.status == "passed" {
        var c :| c in cases && R.RunProtocols(c, supported) != [] && r == R.ResultOf(h, supported, c);
      }
      StatusCounts(report.results);
    }
    if AllPassed(report) {
      forall c | c in cases && R.RunProtocols(c, supported) != [] ensures R.CaseFailures(h, supported, c) == [] {
        assert R.ResultOf(h, supported, c) in report.results;
      }
    }
  }

  /** If all cases pass, the required ones do. */
  lemma {:induction false} AllPassRequired(h: R.Harness, supported: seq<string>, cases: seq<Case>)
    ensures AllPass(h, supported, cases) ==> RA.RequiredPass(h, supported, cases)
  {
  }

  lemma {:induction false} AllPassIff(h: R.Harness, digest: string, sdk: Sdk, cases: seq<Case>)
    requires R.Run(h, digest, sdk, cases).Ok?
    ensures Clean(h, sdk.supportedProtocols, cases) <==> AllPass(h, sdk.supportedProtocols, cases)
  {
    var supported := sdk.supportedProtocols;
    forall c | c in cases ensures V.Runs(c, supported) <==> R.RunProtocols(c, supported) != [] {
      V.RunsIff(c, supported);
    }
    forall c | c in cases && V.Runs(c, supported)
      ensures R.CaseFailures(h, supported, c) == [] <==> V.CasePasses(h, supported, c)
    {
      V.FailuresIff(h, digest, sdk, cases, c);
    }
  }

  /** A run's report validates and holds passed results only exactly when it is fit. */
  lemma {:induction false} FitIff(tools: Tools, digest: string, cases: seq<Case>, checked: seq<Case>, a: Adapter,
      report: Report)
    requires R.Run(a.harness, digest, a.sdk, cases) == Ok(report)
    requires RA.WellFormedCases(cases) && multiset(cases) == multiset(checked)
    requires RA.CollationAgrees(a.harness.collate) && tools.sha256 == a.harness.sha256
    ensures ValidateReport(tools, digest, checked, report).Ok? && AllPassed(report) <==> Fit(tools, cases, a, report)
  {
    RA.RunFields(a.harness, digest, a.sdk, cases, report);
    RA.ProducerMeetsConsumer(tools, a.harness, digest, a.sdk, cases, checked);
    AllPassedIff(a.harness, a.sdk.supportedProtocols, cases, report);
    AllPassIff(a.harness, digest, a.sdk, cases);
    AllPassRequired(a.harness, a.sdk.supportedProtocols, cases);
  }

  // ---------------------------------------------------------------- the manifest's counts

  lemma {:induction false} ClaimsIff(runner: Runner, a: Adapter, report: Report)
    requires report.sdk == a.sdk
    ensures Claims(runner, report) <==> StandsFor(runner, a)
  {
    SameProtocolsIff(report.sdk.supportedProtocols, runner.protocols);
  }

  lemma {:induction false} ClaimedAreMatching(runner: Runner, adapters: seq<Adapter>, reports: seq<Report>)
    requires |reports| == |adapters| && forall i :: 0 <= i < |adapters| ==> reports[i].sdk == adapters[i].sdk
    ensures |Claimed(runner, reports)| == |Matching(runner, adapters)|
  {
    if |adapters| > 0 {
      ClaimsIff(runner, adapters[0], reports[0]);
      ClaimedAreMatching(runner, adapters[1..], reports[1..]);
    }
  }

  /** The counts of the script are right exactly when each entry stands for as many adapters as it asks for. */
  lemma {:induction false} ManifestCounts(runners: seq<Runner>, adapters: seq<Adapter>, reports: seq<Report>)
    requires |reports| == |adapters| && forall i :: 0 <= i < |adapters| ==> reports[i].sdk == adapters[i].sdk
    ensures CountsRight(runners, reports) && |reports| == TotalRequired(runners) <==> ManifestMet(runners, adapters)
  {
    forall runner | runner in runners ensures |Claimed(runner, reports)| == |Matching(runner, adapters)| {
      ClaimedAreMatching(runner, adapters, reports);
    }
  }

  // ---------------------------------------------------------------- the pairs observed

  /** A run that recorded all its pairs has evidence exactly for the protocols shared with its cases. */
  lemma {:induction false} PairsOfRun(h: R.Harness, supported: seq<string>, cases: seq<Case>, c: Case, p: string)
    requires RA.AllRecorded(h, supported, cases) && Distinct(Ids(cases)) && c in cases
    ensures (c.id, p) in EvidencePairs(R.RunEvidence(h, supported, cases)) <==> p in c.protocols && p in supported
  {
    RA.RunEvidencePairs(h, supported, cases);
    RA.ResultsOfRun(h, supported, cases);
    var results := R.RunResults(h, supported, cases);
    ExpectedPairsMember(results, c.id, p);
    if r :| r in results && r.caseId == c.id && p in r.protocols {
      RA.ResultOfId(h, supported, cases, r, c);
    }
    if p in c.protocols && p in supported {
      assert p in R.RunProtocols(c, supported);
      assert R.ResultOf(h, supported, c) in results;
    }
  }

  ghost predicate EvidenceRecorded(cases: seq<Case>, adapters: seq<Adapter>, reports: seq<Report>) {
    |reports| == |adapters| &&
    forall i :: 0 <= i < |adapters| ==>
      && reports[i].evidence == R.RunEvidence(adapters[i].harness, adapters[i].sdk.supportedProtocols, cases)
      && RA.AllRecorded(adapters[i].harness, adapters[i].sdk.supportedProtocols, cases)
  }

  /** Across all runs a pair of a case is observed exactly when the case names a protocol some adapter supports. */
  lemma {:induction false} ObservedOfRuns(cases: seq<Case>, adapters: seq<Adapter>, reports: seq<Report>, c: Case,
      p: string)
    requires EvidenceRecorded(cases, adapters, reports) && Distinct(Ids(cases)) && c in cases
    ensures (c.id, p) in ObservedPairs(reports) <==> p in c.protocols && SomeSupports(adapters, p)
  {
    ObservedIff(reports, (c.id, p));
    forall i | 0 <= i < |adapters|
      ensures (c.id, p) in EvidencePairs(reports[i].evidence) <==> p in c.protocols && Supports(adapters, i, p)
    {
      PairsOfRun(adapters[i].harness, adapters[i].sdk.supportedProtocols, cases, c, p);
    }
  }

  lemma {:induction false} CoverageIff(cases: seq<Case>, checked: seq<Case>, adapters: seq<Adapter>,
      reports: seq<Report>)
    requires EvidenceRecorded(cases, adapters, reports) && Distinct(Ids(cases))
    requires forall c :: c in cases <==> c in checked
    ensures Covered(RequiredPairs(checked), ObservedPairs(reports)) <==> RequiredSupported(checked, adapters)
  {
    if Covered(RequiredPairs(checked), ObservedPairs(reports)) {
      forall c, p | c in checked && c.required && p in c.protocols ensures SomeSupports(adapters, p) {
        RequiredPairOf(checked, c, p);
        ObservedOfRuns(cases, adapters, reports, c, p);
      }
    }
    if RequiredSupported(checked, adapters) {
      forall pair | pair in RequiredPairs(checked) ensures pair in ObservedPairs(reports) {
        var c := PlainMatrix.RequiredPairIs(checked, pair);
        ObservedOfRuns(cases, adapters, reports, c, pair.1);
      }
    }
  }

  lemma {:induction false} ParityShownIff(cases: seq<Case>, checked: seq<Case>, adapters: seq<Adapter>,
      reports: seq<Report>)
    requires EvidenceRecorded(cases, adapters, reports) && RA.WellFormedCases(cases)
    requires forall c :: c in cases <==> c in checked
    ensures ParityShown(checked, ObservedPairs(reports)) <==> ParitySupported(checked, adapters)
  {
    PlainMatrix.ParityIffSeen(checked, reports);
    forall i | PlainMatrix.FirstParity(checked, i)
      ensures Distinct(checked[i].protocols)
      ensures PlainMatrix.SeenOver(checked[i], reports) <==> AllSupported(checked[i], adapters)
    {
      assert checked[i] in checked;
      forall p ensures PlainMatrix.Seen(reports, checked[i].id, p) <==>
        p in checked[i].protocols && SomeSupports(adapters, p)
      {
        ObservedOfRuns(cases, adapters, reports, checked[i], p);
        PlainMatrix.ObservedSeen(reports, checked[i].id, p);
      }
    }
  }

  // ---------------------------------------------------------------- main result

  lemma {:induction false} RanFields(digest: string, cases: seq<Case>, adapters: seq<Adapter>, reports: seq<Report>,
      i: nat)
    requires Ran(digest, cases, adapters, reports) && i < |adapters|
    ensures reports[i].sdk == adapters[i].sdk && reports[i].contractDigest == digest
    ensures reports[i].datasetVersion == R.CANONICAL_DATASET_VERSION
    ensures reports[i].evidence == R.RunEvidence(adapters[i].harness, adapters[i].sdk.supportedProtocols, cases)
  {
  }

  lemma {:induction false} RanVersion(digest: string, cases: seq<Case>, adapters: seq<Adapter>, reports: seq<Report>)
    requires Ran(digest, cases, adapters, reports)
    ensures forall i :: 0 <= i < |reports| ==> reports[i].schemaVersion == 2
  {
    forall i | 0 <= i < |reports| ensures reports[i].schemaVersion == 2 {
      assert R.Run(adapters[i].harness, digest, adapters[i].sdk, cases) == Ok(reports[i]);
    }
  }

  ghost predicate AllFit(tools: Tools, cases: seq<Case>, adapters: seq<Adapter>, reports: seq<Report>)
    requires |reports| == |adapters|
  {
    forall i :: 0 <= i < |adapters| ==> Fit(tools, cases, adapters[i], reports[i])
  }

  /** For fit runs the checks across reports come down to manifest, coverage, parity and one API version. */
  lemma {:induction false} ChecksOfRuns(tools: Tools, digest: string, cases: seq<Case>, checked: seq<Case>,
      runners: seq<Runner>, adapters: seq<Adapter>, reports: seq<Report>)
    requires Ran(digest, cases, adapters, reports) && RA.WellFormedCases(cases)
    requires forall c :: c in cases <==> c in checked
    requires forall i :: 0 <= i < |adapters| ==> Fit(tools, cases, adapters[i], reports[i]) && AllPassed(reports[i])
    ensures CheckReports(runners, checked, reports).Ok? <==>
      && adapters != [] && ManifestMet(runners, adapters) && OneApiVersion(reports)
      && RequiredSupported(checked, adapters) && ParitySupported(checked, adapters)
  {
    forall i | 0 <= i < |adapters|
      ensures reports[i].sdk == adapters[i].sdk && reports[i].contractDigest == digest
      ensures reports[i].datasetVersion == R.CANONICAL_DATASET_VERSION
      ensures reports[i].evidence == R.RunEvidence(adapters[i].harness, adapters[i].sdk.supportedProtocols, cases)
    {
      RanFields(digest, cases, adapters, reports, i);
    }
    assert EvidenceRecorded(cases, adapters, reports);
    assert Uniform(reports) <==> OneApiVersion(reports);
    ManifestCounts(runners, adapters, reports);
    CoverageIff(cases, checked, adapters, reports);
    ParityShownIff(cases, checked, adapters, reports);
    CheckedIffComplete(runners, checked, reports);
  }

  /**
   * Adapters run over an accepted contract, and the matrix script reads what they wrote under any
   * manifest: it accepts exactly when there is an adapter, each manifest entry stands for as many
   * adapters as it asks reports for and none is left over, every run is fit (its report has the
   * schema's shape and leaks nothing, every applicable pair recorded evidence, every applicable
   * case passes on the answers), the runs saw one API version, and the adapters together support
   * every protocol of the required cases and of the parity case.
   */
  lemma {:induction false} MatrixOfRuns(tools: Tools, digest: string, inventory: seq<Operation>,
      errors: seq<CatalogError>, cases: seq<Case>, checked: seq<Case>, runners: seq<Runner>, adapters: seq<Adapter>,
      reports: seq<Report>)
    requires Validate(inventory, errors, checked).Ok?
    requires RA.WellFormedCases(cases) && multiset(cases) == multiset(checked)
    requires Ran(digest, cases, adapters, reports)
    requires forall i :: 0 <= i < |adapters| ==>
      RA.CollationAgrees(adapters[i].harness.collate) && tools.sha256 == adapters[i].harness.sha256
    ensures ValidateMatrix(tools, digest, inventory, errors, checked, runners, Written(reports)).Ok? <==>
      && adapters != [] && ManifestMet(runners, adapters)
      && AllFit(tools, cases, adapters, reports) && OneApiVersion(reports)
      && RequiredSupported(checked, adapters) && ParitySupported(checked, adapters)
  {
    var validate := ReportValidator(tools, digest, checked);
    SameMembers(cases, checked);
    forall i | 0 <= i < |adapters|
      ensures validate(reports[i]).Ok? && AllPassed(reports[i]) <==> Fit(tools, cases, adapters[i], reports[i])
    {
      FitIff(tools, digest, cases, checked, adapters[i], reports[i]);
    }
    ValidatorUnchanging(tools, digest, checked);
    WrittenAccepted(validate, reports);
    AcceptedMatrixIff(tools, digest, inventory, errors, checked, runners, Written(reports));
    if AllFit(tools, cases, adapters, reports) {
      ChecksOfRuns(tools, digest, cases, checked, runners, adapters, reports);
    } else if AcceptDocuments(validate, Written(reports)).Ok? {
      NotAllPassed(validate, tools, cases, checked, runners, adapters, reports);
    }
  }

  lemma {:induction false} NotAllPassed(validate: Validator, tools: Tools, cases: seq<Case>, checked: seq<Case>,
      runners: seq<Runner>, adapters: seq<Adapter>, reports: seq<Report>)
    requires |reports| == |adapters| && !AllFit(tools, cases, adapters, reports)
    requires forall i :: 0 <= i < |adapters| ==> validate(reports[i]).Ok?
    requires forall i :: 0 <= i < |adapters| ==>
      (validate(reports[i]).Ok? && AllPassed(reports[i]) <==> Fit(tools, cases, adapters[i], reports[i]))
    ensures CheckReports(runners, checked, reports).Err?
  {
    var i :| 0 <= i < |adapters| && !Fit(tools, cases, adapters[i], reports[i]);
    assert reports[i] in reports && !AllPassed(reports[i]);
    CheckedIffComplete(runners, checked, reports);
  }
}
