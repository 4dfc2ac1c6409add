/**
 * Producer meets consumer: `validate_report!` (Ruby) accepts what `runConformance` (TypeScript)
 * produced exactly when every applicable pair recorded evidence and no required case failed. Ids,
 * protocols, summary and digest of such a report are right by the way it was made.
 */
module RunnerAcceptance {
  import opened Prelude
  import opened Sorting
  import opened Json
  import opened Contract
  import opened Reports
  import opened Semantics
  import opened Runner
  import opened CaseVerdict
  import Canonical

  const EVIDENCE_KEYS: set<string> := {"caseId", "protocol", "requestDigest", "responseDigest"}

  /** The collation of the runner orders the four evidence keys as code points do. */
  ghost predicate CollationAgrees(collate: (string, string) -> bool) {
    forall a, b :: a in EVIDENCE_KEYS && b in EVIDENCE_KEYS ==> (collate(a, b) <==> StringLeq(a, b))
  }

  /** Unique case ids and, in each case, unique protocols. */
  ghost predicate WellFormedCases(cases: seq<Case>) {
    Distinct(Ids(cases)) && forall c :: c in cases ==> Distinct(c.protocols)
  }

  /** The adapter answered with evidence, and nothing in the guarded block threw. */
  predicate PairRecorded(h: Harness, c: Case, p: string) {
    match h.execute(c.id, p)
    case Resolved(Some(r)) =>
      && !r.value.Endless? && r.evidence.Some? && h.judge(c, r, p).Ok?
      && HasText(r.evidence.value.request) && HasText(r.evidence.value.response)
    case _ => false
  }

  /** An evidence entry of the pair, with digests of some texts. */
  ghost predicate Digested(h: Harness, c: Case, p: string, e: Evidence) {
    && e.caseId == c.id && e.protocol == p
    && (exists text :: e.requestDigest == h.sha256(text)) && (exists text :: e.responseDigest == h.sha256(text))
  }

  lemma {:induction false} StepRecords(h: Harness, c: Case, p: string)
    ensures |Step(h, c, p).evidence| == if PairRecorded(h, c, p) then 1 else 0
    ensures forall e :: e in Step(h, c, p).evidence ==> Digested(h, c, p, e)
  {
  }

  ghost predicate Recorded(h: Harness, c: Case, protocols: seq<string>) {
    forall p :: p in protocols ==> PairRecorded(h, c, p)
  }

  /** Every applicable case/protocol pair recorded evidence. */
  ghost predicate AllRecorded(h: Harness, supported: seq<string>, cases: seq<Case>) {
    forall c, p :: c in cases && Shared(c, supported, p) ==> PairRecorded(h, c, p)
  }

  /** No required applicable case had a failure. */
  ghost predicate RequiredClean(h: Harness, supported: seq<string>, cases: seq<Case>) {
    forall c :: c in cases && c.required && RunProtocols(c, supported) != [] ==> CaseFailures(h, supported, c) == []
  }

  /** Every required applicable case passes on the adapter's answers. */
  ghost predicate RequiredPass(h: Harness, supported: seq<string>, cases: seq<Case>) {
    forall c :: c in cases && c.required && Runs(c, supported) ==> CasePasses(h, supported, c)
  }

  lemma {:induction false} RequiredPassIff(h: Harness, digest: string, sdk: Sdk, cases: seq<Case>)
    requires Run(h, digest, sdk, cases).Ok?
    ensures RequiredClean(h, sdk.supportedProtocols, cases) <==> RequiredPass(h, sdk.supportedProtocols, cases)
  {
    var supported := sdk.supportedProtocols;
    forall c | c in cases ensures Runs(c, supported) <==> RunProtocols(c, supported) != [] {
      RunsIff(c, supported);
    }
    forall c | c in cases && Runs(c, supported)
      ensures CaseFailures(h, supported, c) == [] <==> CasePasses(h, supported, c)
    {
      FailuresIff(h, digest, sdk, cases, c);
    }
  }

  // ---------------------------------------------------------------- results of a run

  lemma {:induction false} ResultsOfRun(h: Harness, supported: seq<string>, cases: seq<Case>)
    ensures forall r :: r in RunResults(h, supported, cases) ==>
              exists c :: c in cases && RunProtocols(c, supported) != [] && r == ResultOf(h, supported, c)
    ensures forall c :: c in cases && RunProtocols(c, supported) != [] ==>
      ResultOf(h, supported, c) in RunResults(h, supported, cases)
  {
    if |cases| > 0 {
      var rest, last := cases[..|cases| - 1], cases[|cases| - 1];
      assert cases == rest + [last];
      ResultsOfRun(h, supported, rest);
      forall r | r in RunResults(h, supported, cases)
        ensures exists c :: c in cases && RunProtocols(c, supported) != [] && r == ResultOf(h, supported, c)
      {
        if r in RunResults(h, supported, rest) {
          var c :| c in rest && RunProtocols(c, supported) != [] && r == ResultOf(h, supported, c);
          assert c in cases;
        } else {
          assert r == ResultOf(h, supported, last) && last in cases;
        }
      }
    }
  }

  lemma {:induction false} RunIdsDistinct(h: Harness, supported: seq<string>, cases: seq<Case>)
    requires Distinct(Ids(cases))
    ensures Distinct(ResultIds(RunResults(h, supported, cases)))
  {
    if |cases| > 0 {
      var rest, last := cases[..|cases| - 1], cases[|cases| - 1];
      IdsSnoc(rest, last);
      RunIdsDistinct(h, supported, rest);
      var earlier := ResultIds(RunResults(h, supported, rest));
      assert last.id !in earlier by {
        RunIdMember(h, supported, rest, last.id);
        IdMember(rest, last.id);
      }
      ResultIdsSnoc(h, supported, rest, last);
      DistinctConcat(earlier, [last.id]);
    }
  }

  lemma {:induction false} ResultIdsSnoc(h: Harness, supported: seq<string>, rest: seq<Case>, last: Case)
    ensures ResultIds(RunResults(h, supported, rest + [last]))
         == ResultIds(RunResults(h, supported, rest)) + (if RunProtocols(last, supported) == [] then [] else [last.id])
  {
    assert (rest + [last])[..|rest|] == rest;
  }

  lemma {:induction false} IdsSnoc(rest: seq<Case>, last: Case)
    requires Distinct(Ids(rest + [last]))
    ensures Distinct(Ids(rest)) && last.id !in Ids(rest)
  {
    var ids := Ids(rest + [last]);
    assert forall i :: 0 <= i < |rest| ==> ids[i] == Ids(rest)[i];
    assert ids[|rest|] == last.id;
  }

  lemma {:induction false} ApplicableIff(supported: seq<string>, c: Case)
    ensures Intersect(c.protocols, supported) != [] <==> RunProtocols(c, supported) != []
    ensures forall p :: p in RunProtocols(c, supported) <==> p in Intersect(c.protocols, supported)
  {
    var a, b := Intersect(c.protocols, supported), RunProtocols(c, supported);
    if a != [] { assert a[0] in a; assert a[0] in b; }
    if b != [] { assert b[0] in b; assert b[0] in a; }
  }

  lemma {:induction false} RunIdMember(h: Harness, supported: seq<string>, cases: seq<Case>, id: string)
    ensures id in ResultIds(RunResults(h, supported, cases))
       <==> exists c :: c in cases && c.id == id && RunProtocols(c, supported) != []
  {
    ResultsOfRun(h, supported, cases);
    ResultIdMember(RunResults(h, supported, cases), id);
    if c :| c in cases && c.id == id && RunProtocols(c, supported) != [] {
      assert ResultOf(h, supported, c).caseId == id;
    }
  }

  lemma {:induction false} ApplicableIdMember(cases: seq<Case>, supported: seq<string>, id: string)
    ensures id in Ids(Applicable(cases, supported)) <==>
      exists c :: c in cases && c.id == id && RunProtocols(c, supported) != []
    ensures id in RequiredIds(cases, supported)
       <==> exists c :: c in cases && c.id == id && c.required && RunProtocols(c, supported) != []
  {
    IdMember(Applicable(cases, supported), id);
    IdMember(Required(Applicable(cases, supported)), id);
    forall c | c in cases
      ensures c in Applicable(cases, supported) <==> RunProtocols(c, supported) != []
    {
      ApplicableIff(supported, c);
    }
  }

  /** The ids of a run pass every id check, whatever order the validator has its cases in. */
  lemma {:induction false} RunIdsMatch(h: Harness, supported: seq<string>, cases: seq<Case>, checked: seq<Case>)
    requires Distinct(Ids(cases)) && multiset(cases) == multiset(checked)
    ensures IdsMatch(checked, supported, ResultIds(RunResults(h, supported, cases)))
  {
    var ids := ResultIds(RunResults(h, supported, cases));
    RunIdsDistinct(h, supported, cases);
    SameMembers(cases, checked);
    forall id ensures id in ids ==> id in Ids(checked) && id in Ids(Applicable(checked, supported))
              ensures id in RequiredIds(checked, supported) ==> id in ids
    {
      RunIdMember(h, supported, cases, id);
      ApplicableIdMember(checked, supported, id);
      IdMember(checked, id);
    }
  }

  lemma {:induction false} DistinctIdsPermute(cases: seq<Case>, checked: seq<Case>)
    requires Distinct(Ids(cases)) && multiset(cases) == multiset(checked)
    ensures Distinct(Ids(checked))
  {
    assert Distinct(cases) by {
      forall i, j | 0 <= i < j < |cases| ensures cases[i] != cases[j] { assert Ids(cases)[i] != Ids(cases)[j]; }
    }
    PermutationKeepsDistinct(cases, checked);
    SameMembers(cases, checked);
    forall i, j | 0 <= i < j < |checked| ensures checked[i].id != checked[j].id {
      assert checked[i] in cases && checked[j] in cases;
      if checked[i].id == checked[j].id {
        SameIdSameCase(cases, checked[i], checked[j]);
      }
    }
  }

  lemma {:induction false} FilterDistinct(p: string -> bool, s: seq<string>)
    requires Distinct(s)
    ensures Distinct(Filter(p, s))
  {
    if |s| > 0 {
      FilterDistinct(p, s[1..]);
      assert s[0] !in s[1..];
    }
  }

  lemma {:induction false} ResultMatches(h: Harness, supported: seq<string>, checked: seq<Case>, c: Case)
    requires Distinct(Ids(checked)) && c in checked && Distinct(c.protocols)
    ensures ResultProtocolsMatch(checked, supported, ResultOf(h, supported, c))
  {
    ByIdOf(checked, c);
    FilterDistinct((p: string) => p in supported, c.protocols);
    ApplicableIff(supported, c);
    DistinctSameElements(RunProtocols(c, supported), Intersect(c.protocols, supported));
  }

  lemma {:induction false} RunProtocolsMatch(h: Harness, supported: seq<string>, cases: seq<Case>, checked: seq<Case>)
    requires WellFormedCases(cases) && multiset(cases) == multiset(checked)
    ensures ProtocolsMatch(checked, supported, RunResults(h, supported, cases))
  {
    ResultsOfRun(h, supported, cases);
    SameMembers(cases, checked);
    DistinctIdsPermute(cases, checked);
    forall r | r in RunResults(h, supported, cases) ensures ResultProtocolsMatch(checked, supported, r) {
      var c :| c in cases && RunProtocols(c, supported) != [] && r == ResultOf(h, supported, c);
      ResultMatches(h, supported, checked, c);
    }
  }

  lemma {:induction false} RunPassesRequiredIff(h: Harness, supported: seq<string>, cases: seq<Case>,
      checked: seq<Case>)
    requires Distinct(Ids(cases)) && multiset(cases) == multiset(checked)
    ensures RequiredPassed(checked, supported, RunResults(h, supported, cases)) <==> RequiredClean(h, supported, cases)
  {
    SameMembers(cases, checked);
    if RequiredPassed(checked, supported, RunResults(h, supported, cases)) {
      forall c | c in cases && c.required && RunProtocols(c, supported) != []
        ensures CaseFailures(h, supported, c) == []
      {
        RequiredResult(h, supported, cases, c);
        ApplicableIdMember(checked, supported, c.id);
      }
    }
    if RequiredClean(h, supported, cases) {
      forall r | r in RunResults(h, supported, cases) && r.caseId in RequiredIds(checked, supported)
        ensures r.status == "passed"
      {
        ApplicableIdMember(checked, supported, r.caseId);
        var d :| d in checked && d.id == r.caseId && d.required && RunProtocols(d, supported) != [];
        ResultOfId(h, supported, cases, r, d);
      }
    }
  }

  lemma {:induction false} RequiredResult(h: Harness, supported: seq<string>, cases: seq<Case>, c: Case)
    requires c in cases && RunProtocols(c, supported) != []
    ensures exists r :: r in RunResults(h, supported, cases) && r.caseId == c.id
              && (r.status == "passed" <==> CaseFailures(h, supported, c) == [])
  {
    ResultsOfRun(h, supported, cases);
    assert ResultOf(h, supported, c) in RunResults(h, supported, cases);
  }

  lemma {:induction false} ResultOfId(h: Harness, supported: seq<string>, cases: seq<Case>, r: CaseResult, d: Case)
    requires Distinct(Ids(cases)) && d in cases && r in RunResults(h, supported, cases) && d.id == r.caseId
    ensures r == ResultOf(h, supported, d)
  {
    ResultsOfRun(h, supported, cases);
    var c :| c in cases && RunProtocols(c, supported) != [] && r == ResultOf(h, supported, c);
    SameIdSameCase(cases, c, d);
  }

  // ---------------------------------------------------------------- evidence of a run

  function PairsOver(id: string, protocols: seq<string>): seq<(string, string)> {
    Map((p: string) => (id, p), protocols)
  }

  lemma {:induction false} EvidencePairsAppend(a: seq<Evidence>, b: seq<Evidence>)
    ensures EvidencePairs(a + b) == EvidencePairs(a) + EvidencePairs(b)
  {
  }

  lemma {:induction false} EvidenceOverPairs(h: Harness, c: Case, protocols: seq<string>)
    ensures |EvidenceOver(h, c, protocols)| <= |protocols|
    ensures Recorded(h, c, protocols) ==> EvidencePairs(EvidenceOver(h, c, protocols)) == PairsOver(c.id, protocols)
    ensures !Recorded(h, c, protocols) ==> |EvidenceOver(h, c, protocols)| < |protocols|
  {
    if |protocols| > 0 {
      var rest, last := protocols[..|protocols| - 1], protocols[|protocols| - 1];
      assert protocols == rest + [last];
      EvidenceOverPairs(h, c, rest);
      StepRecords(h, c, last);
      EvidencePairsAppend(EvidenceOver(h, c, rest), Step(h, c, last).evidence);
      if Recorded(h, c, protocols) {
        assert Recorded(h, c, rest);
        assert EvidencePairs(Step(h, c, last).evidence) == [(c.id, last)];
      }
    }
  }

  lemma {:induction false} ExpectedPairsSnoc(results: seq<CaseResult>, r: CaseResult)
    ensures ExpectedPairs(results + [r]) == ExpectedPairs(results) + PairsOver(r.caseId, r.protocols)
  {
    assert Map(ResultPairs, results + [r]) == Map(ResultPairs, results) + [ResultPairs(r)];
    FlattenAppend(Map(ResultPairs, results), [ResultPairs(r)]);
    assert Flatten([ResultPairs(r)]) == ResultPairs(r) + Flatten([ResultPairs(r)][1..]);
    assert ResultPairs(r) == PairsOver(r.caseId, r.protocols);
  }

  /** What one more case adds to the evidence pairs and to the expected pairs. */
  lemma {:induction false} RunPairsSnoc(h: Harness, supported: seq<string>, rest: seq<Case>, last: Case)
    ensures EvidencePairs(RunEvidence(h, supported, rest + [last]))
         == EvidencePairs(RunEvidence(h, supported, rest)) +
           EvidencePairs(EvidenceOver(h, last, RunProtocols(last, supported)))
    ensures ExpectedPairs(RunResults(h, supported, rest + [last]))
         == ExpectedPairs(RunResults(h, supported, rest)) + PairsOver(last.id, RunProtocols(last, supported))
  {
    assert (rest + [last])[..|rest|] == rest;
    EvidencePairsAppend(RunEvidence(h, supported, rest), EvidenceOver(h, last, RunProtocols(last, supported)));
    if RunProtocols(last, supported) != [] {
      ExpectedPairsSnoc(RunResults(h, supported, rest), ResultOf(h, supported, last));
    } else {
      assert RunResults(h, supported, rest + [last]) == RunResults(h, supported, rest);
    }
  }

  /** Evidence pairs are the expected pairs, in the same order, unless some pair is missing. */
  lemma {:induction false} RunEvidencePairs(h: Harness, supported: seq<string>, cases: seq<Case>)
    ensures var pairs, expected := EvidencePairs(RunEvidence(h, supported, cases)),
      ExpectedPairs(RunResults(h, supported, cases));
      if AllRecorded(h, supported, cases) then pairs == expected else |pairs| < |expected|
  {
    if |cases| > 0 {
      var rest, last := cases[..|cases| - 1], cases[|cases| - 1];
      assert cases == rest + [last];
      RunEvidencePairs(h, supported, rest);
      RunPairsSnoc(h, supported, rest, last);
      EvidenceOverPairs(h, last, RunProtocols(last, supported));
      AllRecordedSnoc(h, supported, rest, last);
    }
  }

  lemma {:induction false} AllRecordedSnoc(h: Harness, supported: seq<string>, rest: seq<Case>, last: Case)
    ensures AllRecorded(h, supported, rest + [last])
       <==> AllRecorded(h, supported, rest) && Recorded(h, last, RunProtocols(last, supported))
  {
    assert forall c :: c in rest + [last] <==> c in rest || c == last;
    assert forall p :: p in RunProtocols(last, supported) <==> Shared(last, supported, p);
  }

  lemma {:induction false} RunPairsDistinct(h: Harness, supported: seq<string>, cases: seq<Case>)
    requires WellFormedCases(cases)
    ensures Distinct(ExpectedPairs(RunResults(h, supported, cases)))
  {
    if |cases| > 0 {
      var rest, last := cases[..|cases| - 1], cases[|cases| - 1];
      assert cases == rest + [last];
      CasesSnoc(rest, last);
      RunPairsDistinct(h, supported, rest);
      RunPairsSnoc(h, supported, rest, last);
      FilterDistinct((p: string) => p in supported, last.protocols);
      var earlier, more := ExpectedPairs(RunResults(h, supported, rest)),
        PairsOver(last.id, RunProtocols(last, supported));
      forall j | 0 <= j < |more| ensures more[j] !in earlier {
        NewIdHasNoPair(h, supported, rest, last.id, more[j].1);
      }
      DistinctConcat(earlier, more);
    }
  }

  lemma {:induction false} CasesSnoc(rest: seq<Case>, last: Case)
    requires WellFormedCases(rest + [last])
    ensures WellFormedCases(rest) && last.id !in Ids(rest) && Distinct(last.protocols)
  {
    IdsSnoc(rest, last);
    assert last in rest + [last];
  }

  lemma {:induction false} DistinctConcat<T>(a: seq<T>, b: seq<T>)
    requires Distinct(a) && Distinct(b)
    requires forall j :: 0 <= j < |b| ==> b[j] !in a
    ensures Distinct(a + b)
  {
  }

  lemma {:induction false} NewIdHasNoPair(h: Harness, supported: seq<string>, cases: seq<Case>, id: string, p: string)
    requires id !in Ids(cases)
    ensures (id, p) !in ExpectedPairs(RunResults(h, supported, cases))
  {
    var results := RunResults(h, supported, cases);
    ExpectedPairsMember(results, id, p);
    ResultIdMember(results, id);
    RunIdMember(h, supported, cases, id);
    IdMember(cases, id);
  }

  lemma {:induction false} EvidenceDigestAgrees(collate: (string, string) -> bool, evidence: seq<Evidence>)
    requires CollationAgrees(collate)
    ensures Stable(collate, EvidenceJson(evidence)) == CanonicalJson(EvidenceJson(evidence))
  {
    var json := EvidenceJson(evidence);
    forall i | 0 <= i < |json.items| ensures Canonical.KeysWithin(json.items[i], EVIDENCE_KEYS) {
      var fields := json.items[i].fields;
      forall j | 0 <= j < |fields|
        ensures fields[j].key in EVIDENCE_KEYS && Canonical.KeysWithin(fields[j].value, EVIDENCE_KEYS)
      {
      }
    }
    assert Canonical.KeysWithin(json, EVIDENCE_KEYS);
    Canonical.StableMeetsCanonical(collate, json, EVIDENCE_KEYS);
  }

  lemma {:induction false} RunEvidenceMatchesIff(tools: Tools, h: Harness, supported: seq<string>, cases: seq<Case>,
      report: Report)
    requires WellFormedCases(cases) && CollationAgrees(h.collate) && tools.sha256 == h.sha256
    requires report.evidence == RunEvidence(h, supported, cases) && report.results == RunResults(h, supported, cases)
    requires report.evidenceDigest == h.sha256(Stable(h.collate, EvidenceJson(report.evidence)))
    ensures EvidenceMatches(tools, report) <==> AllRecorded(h, supported, cases)
  {
    EvidenceDigestAgrees(h.collate, report.evidence);
    RunEvidencePairs(h, supported, cases);
    RunPairsDistinct(h, supported, cases);
    var pairs, expected := EvidencePairs(report.evidence), ExpectedPairs(report.results);
    if multiset(pairs) == multiset(expected) {
      assert |pairs| == |multiset(pairs)| == |multiset(expected)| == |expected|;
    }
  }

  // ---------------------------------------------------------------- main result

  lemma {:induction false} RunFields(h: Harness, digest: string, sdk: Sdk, cases: seq<Case>, report: Report)
    requires Run(h, digest, sdk, cases) == Ok(report)
    ensures report.contractDigest == digest && report.sdk == sdk
    ensures report.evidence == RunEvidence(h, sdk.supportedProtocols, cases)
    ensures report.results == RunResults(h, sdk.supportedProtocols, cases)
    ensures report.evidenceDigest == h.sha256(Stable(h.collate, EvidenceJson(report.evidence)))
    ensures report.summary == SummaryOf(report.results)
  {
  }

  /**
   * The report of a run is accepted exactly when its shape is right, it leaks nothing, every
   * applicable pair recorded evidence and every required applicable case passes on the answers.
   */
  lemma {:induction false} ProducerMeetsConsumer(tools: Tools, h: Harness, digest: string, sdk: Sdk, cases: seq<Case>,
      checked: seq<Case>)
    requires Run(h, digest, sdk, cases).Ok?
    requires WellFormedCases(cases) && multiset(cases) == multiset(checked)
    requires CollationAgrees(h.collate) && tools.sha256 == h.sha256
    ensures var report := Run(h, digest, sdk, cases).value;
      ValidateReport(tools, digest, checked, report).Ok? <==>
        && Shape(report) && !tools.leaks(report)
        && AllRecorded(h, sdk.supportedProtocols, cases)
        && RequiredPass(h, sdk.supportedProtocols, cases)
  {
    var report := Run(h, digest, sdk, cases).value;
    RunFields(h, digest, sdk, cases, report);
    AcceptanceOfRunReport(tools, h, digest, sdk.supportedProtocols, cases, checked, report);
    RequiredPassIff(h, digest, sdk, cases);
  }

  lemma {:induction false} AcceptanceOfRunReport(tools: Tools, h: Harness, digest: string, supported: seq<string>,
      cases: seq<Case>, checked: seq<Case>, report: Report)
    requires WellFormedCases(cases) && multiset(cases) == multiset(checked)
    requires CollationAgrees(h.collate) && tools.sha256 == h.sha256
    requires report.contractDigest == digest && report.sdk.supportedProtocols == supported
    requires report.evidence == RunEvidence(h, supported, cases) && report.results == RunResults(h, supported, cases)
    requires report.evidenceDigest == h.sha256(Stable(h.collate, EvidenceJson(report.evidence)))
    requires report.summary == SummaryOf(report.results)
    ensures ValidateReport(tools, digest, checked, report).Ok? <==>
      && Shape(report) && !tools.leaks(report)
      && AllRecorded(h, supported, cases)
      && RequiredClean(h, supported, cases)
  {
    AcceptanceIff(tools, digest, checked, report);
    RunIdsMatch(h, supported, cases, checked);
    RunProtocolsMatch(h, supported, cases, checked);
    RunPassesRequiredIff(h, supported, cases, checked);
    RunEvidenceMatchesIff(tools, h, supported, cases, report);
  }

  // ---------------------------------------------------------------- what a report says

  lemma {:induction false} ResultOfCase(h: Harness, supported: seq<string>, cases: seq<Case>, c: Case, r: CaseResult)
    requires Distinct(Ids(cases)) && c in cases && r in RunResults(h, supported, cases) && r.caseId == c.id
    ensures Runs(c, supported) && r == ResultOf(h, supported, c)
  {
    ResultsOfRun(h, supported, cases);
    var d :| d in cases && RunProtocols(d, supported) != [] && r == ResultOf(h, supported, d);
    SameIdSameCase(cases, c, d);
    RunsIff(c, supported);
  }

  /** Passed without a message exactly when the case passes on the answers, else failed with one. */
  ghost predicate Tells(h: Harness, supported: seq<string>, c: Case, r: CaseResult) {
    && (forall p :: p in r.protocols <==> Shared(c, supported, p))
    && (r.status == "passed" <==> CasePasses(h, supported, c))
    && (r.status == "failed" <==> !CasePasses(h, supported, c))
    && (r.message.None? <==> CasePasses(h, supported, c))
  }

  lemma {:induction false} ResultTells(h: Harness, digest: string, sdk: Sdk, cases: seq<Case>, c: Case)
    requires Run(h, digest, sdk, cases).Ok? && c in cases && Runs(c, sdk.supportedProtocols)
    ensures Tells(h, sdk.supportedProtocols, c, ResultOf(h, sdk.supportedProtocols, c))
  {
    FailuresIff(h, digest, sdk, cases, c);
    assert forall p :: p in RunProtocols(c, sdk.supportedProtocols) <==> Shared(c, sdk.supportedProtocols, p);
  }

  /**
   * A run that returns reports each executed case, over the shared protocols: as passed, without a
   * message, if and only if the case passes on the adapter's answers, and else as failed, with one.
   */
  lemma {:induction false} CaseReported(h: Harness, digest: string, sdk: Sdk, cases: seq<Case>, c: Case)
    requires Run(h, digest, sdk, cases).Ok? && Distinct(Ids(cases)) && c in cases
    ensures var results := Run(h, digest, sdk, cases).value.results;
      && (Runs(c, sdk.supportedProtocols) <==> exists r :: r in results && r.caseId == c.id)
      && forall r :: r in results && r.caseId == c.id ==> Tells(h, sdk.supportedProtocols, c, r)
  {
    var supported, results := sdk.supportedProtocols, Run(h, digest, sdk, cases).value.results;
    RunFields(h, digest, sdk, cases, Run(h, digest, sdk, cases).value);
    forall r | r in results && r.caseId == c.id ensures Runs(c, supported) && Tells(h, supported, c, r) {
      ResultOfCase(h, supported, cases, c, r);
      ResultTells(h, digest, sdk, cases, c);
    }
    if Runs(c, supported) {
      ResultReported(h, supported, cases, c);
    }
  }

  lemma {:induction false} ResultReported(h: Harness, supported: seq<string>, cases: seq<Case>, c: Case)
    requires c in cases && Runs(c, supported)
    ensures exists r :: r in RunResults(h, supported, cases) && r.caseId == c.id
  {
    ResultsOfRun(h, supported, cases);
    RunsIff(c, supported);
    assert ResultOf(h, supported, c).caseId == c.id;
  }

  /** The evidence of a pair: the digests of the texts of its request and its response. */
  ghost predicate IsEvidence(h: Harness, c: Case, p: string, e: Evidence) {
    match h.execute(c.id, p)
    case Resolved(Some(r)) =>
      && PairRecorded(h, c, p) && e.caseId == c.id && e.protocol == p
      && e.requestDigest == h.sha256(TextOf(h.collate, r.evidence.value.request).value)
      && e.responseDigest == h.sha256(TextOf(h.collate, r.evidence.value.response).value)
    case _ => false
  }

  lemma {:induction false} StepEvidenceIs(h: Harness, c: Case, p: string)
    ensures forall e :: e in Step(h, c, p).evidence <==> IsEvidence(h, c, p, e)
  {
  }

  lemma {:induction false} EvidenceOverIs(h: Harness, c: Case, protocols: seq<string>)
    ensures forall e :: e in EvidenceOver(h, c, protocols) <==> exists p :: p in protocols && IsEvidence(h, c, p, e)
  {
    if |protocols| > 0 {
      var rest, last := protocols[..|protocols| - 1], protocols[|protocols| - 1];
      assert protocols == rest + [last];
      EvidenceOverIs(h, c, rest);
      StepEvidenceIs(h, c, last);
    }
  }

  /** The report's evidence is that of the recorded pairs, and nothing else. */
  lemma {:induction false} RunEvidenceIs(h: Harness, supported: seq<string>, cases: seq<Case>)
    ensures forall e :: e in RunEvidence(h, supported, cases) <==>
      exists c, p :: c in cases && Shared(c, supported, p) && IsEvidence(h, c, p, e)
  {
    if |cases| > 0 {
      var rest, last := cases[..|cases| - 1], cases[|cases| - 1];
      assert cases == rest + [last];
      RunEvidenceIs(h, supported, rest);
      EvidenceOverIs(h, last, RunProtocols(last, supported));
      assert forall p :: p in RunProtocols(last, supported) <==> Shared(last, supported, p);
    }
  }

  // ---------------------------------------------------------------- messages

  lemma {:induction false} JoinedOccurs(failures: seq<string>, f: string)
    requires f in failures
    ensures Occurs(JoinFailures(failures), f)
  {
    var text := JoinFailures(failures);
    if failures[0] == f {
      assert text[0..|f|] == f;
      assert OccursAt(text, f, 0);
    } else {
      var rest := failures[1..];
      JoinedOccurs(rest, f);
      var i :| OccursAt(JoinFailures(rest), f, i);
      var front := failures[0] + "; ";
      assert text == front + JoinFailures(rest);
      assert text[|front| + i..|front| + i + |f|] == f;
      assert OccursAt(text, f, |front| + i);
    }
  }

  lemma {:induction false} StepwiseHas(h: Harness, c: Case, protocols: seq<string>, p: string, f: string)
    requires p in protocols && f in Step(h, c, p).failures
    ensures f in StepwiseFailures(h, c, protocols)
  {
    var rest, last := protocols[..|protocols| - 1], protocols[|protocols| - 1];
    assert protocols == rest + [last];
    if p in rest {
      StepwiseHas(h, c, rest, p, f);
    }
  }

  /** Something the judging of a recorded pair, or the adapter's own exception, says of it. */
  ghost predicate Objection(h: Harness, c: Case, p: string, f: string) {
    match h.execute(c.id, p)
    case Threw(message) => f == message
    case Resolved(Some(r)) => PairRecorded(h, c, p) && f in h.judge(c, r, p).value
    case _ => false
  }

  lemma {:induction false} ObjectionFails(h: Harness, c: Case, p: string, f: string)
    requires Objection(h, c, p, f)
    ensures p + ": " + f in Step(h, c, p).failures
  {
    match h.execute(c.id, p)
    case Resolved(Some(r)) =>
      var judged := h.judge(c, r, p).value;
      var i :| 0 <= i < |judged| && judged[i] == f;
      assert Prefixed(p, judged)[i] == p + ": " + f;
    case _ =>
  }

  /** Every objection to an executed pair stands in the message of its case, with the protocol's name. */
  lemma {:induction false} ObjectionReported(h: Harness, digest: string, sdk: Sdk, cases: seq<Case>, c: Case, p: string,
      f: string)
    requires Run(h, digest, sdk, cases).Ok? && Distinct(Ids(cases)) && c in cases
    requires Shared(c, sdk.supportedProtocols, p) && Objection(h, c, p, f)
    ensures forall r :: r in Run(h, digest, sdk, cases).value.results && r.caseId == c.id ==>
      r.message.Some? && Occurs(r.message.value, p + ": " + f)
  {
    var supported := sdk.supportedProtocols;
    var protocols := RunProtocols(c, supported);
    assert p in protocols;
    ReturnedCase(h, digest, sdk, cases, c);
    ObjectionFails(h, c, p, f);
    StepwiseHas(h, c, protocols, p, p + ": " + f);
    var failures := CaseFailures(h, supported, c);
    JoinedOccurs(failures, p + ": " + f);
    forall r | r in RunResults(h, supported, cases) && r.caseId == c.id ensures r == ResultOf(h, supported, c) {
      ResultOfId(h, supported, cases, r, c);
    }
  }

  // ---------------------------------------------------------------- shape

  /** Inputs whose run has the shape the report schema asks for. */
  ghost predicate ShapedInputs(h: Harness, digest: string, sdk: Sdk, cases: seq<Case>) {
    && IsDigest(digest) && (forall s :: IsDigest(h.sha256(s)))
    && |sdk.language| >= 1 && |sdk.name| >= 1 && |sdk.version| >= 1 && ProtocolList(sdk.supportedProtocols)
    && forall c :: c in cases ==> |c.id| >= 1 && Distinct(c.protocols)
  }

  lemma {:induction false} EvidenceOverShape(h: Harness, c: Case, protocols: seq<string>)
    requires |c.id| >= 1 && (forall s :: IsDigest(h.sha256(s)))
    requires forall p :: p in protocols ==> IsProtocol(p)
    ensures forall e :: e in EvidenceOver(h, c, protocols) ==> EvidenceShape(e)
  {
    if |protocols| > 0 {
      var last := protocols[|protocols| - 1];
      assert last in protocols;
      EvidenceOverShape(h, c, protocols[..|protocols| - 1]);
      StepRecords(h, c, last);
    }
  }

  lemma {:induction false} RunEvidenceShape(h: Harness, digest: string, sdk: Sdk, cases: seq<Case>)
    requires ShapedInputs(h, digest, sdk, cases)
    ensures forall e :: e in RunEvidence(h, sdk.supportedProtocols, cases) ==> EvidenceShape(e)
  {
    if |cases| > 0 {
      var last := cases[|cases| - 1];
      assert last in cases;
      RunEvidenceShape(h, digest, sdk, cases[..|cases| - 1]);
      EvidenceOverShape(h, last, RunProtocols(last, sdk.supportedProtocols));
    }
  }

  lemma {:induction false} ResultShaped(h: Harness, supported: seq<string>, c: Case)
    requires |c.id| >= 1 && Distinct(c.protocols) && RunProtocols(c, supported) != [] && ProtocolList(supported)
    ensures ResultShape(ResultOf(h, supported, c))
  {
    FilterDistinct((p: string) => p in supported, c.protocols);
  }

  /** Such runs always meet the report schema once they return, if the API version read is not empty. */
  lemma {:induction false} RunHasShape(h: Harness, digest: string, sdk: Sdk, cases: seq<Case>)
    requires Run(h, digest, sdk, cases).Ok? && ShapedInputs(h, digest, sdk, cases)
    requires |Run(h, digest, sdk, cases).value.apiVersion| >= 1
    ensures Shape(Run(h, digest, sdk, cases).value)
  {
    var report := Run(h, digest, sdk, cases).value;
    var supported := sdk.supportedProtocols;
    RunEvidenceShape(h, digest, sdk, cases);
    ResultsOfRun(h, supported, cases);
    forall r | r in report.results ensures ResultShape(r) {
      var c :| c in cases && RunProtocols(c, supported) != [] && r == ResultOf(h, supported, c);
      ResultShaped(h, supported, c);
    }
  }
}
