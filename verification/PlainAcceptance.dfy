/** What `validate_report!` asks of a report, in terms of cases, results and evidence entries alone. */
module PlainAcceptance {
  import opened Prelude
  import opened Sorting
  import opened Json
  import opened Contract
  import opened Reports

  // ---------------------------------------------------------------- the conditions

  /** The case names a protocol the SDK supports. */
  ghost predicate Shares(c: Case, supported: seq<string>) { exists p :: p in c.protocols && p in supported }

  /** Of the cases with the id, the last one. */
  ghost predicate IsLast(cases: seq<Case>, id: string, i: int) {
    0 <= i < |cases| && cases[i].id == id && forall j :: i < j < |cases| ==> cases[j].id != id
  }

  ghost predicate Applies(cases: seq<Case>, supported: seq<string>, id: string) {
    exists c :: c in cases && c.id == id && Shares(c, supported)
  }

  ghost predicate Reported(results: seq<CaseResult>, id: string) { exists r :: r in results && r.caseId == id }

  /** No case is reported twice, each reported one applies, and each required one that applies is reported. */
  ghost predicate IdsPlain(cases: seq<Case>, supported: seq<string>, results: seq<CaseResult>) {
    && (forall i, j :: 0 <= i < j < |results| ==> results[i].caseId != results[j].caseId)
    && (forall r :: r in results ==> Applies(cases, supported, r.caseId))
    && forall c :: c in cases && c.required && Shares(c, supported) ==> Reported(results, c.id)
  }

  ghost predicate PassedPlain(cases: seq<Case>, supported: seq<string>, results: seq<CaseResult>) {
    forall r, c :: r in results && c in cases && c.required && Shares(c, supported) && c.id == r.caseId ==>
      r.status == "passed"
  }

  ghost predicate SharedAre(protocols: seq<string>, c: Case, supported: seq<string>) {
    forall p :: p in protocols <==> p in c.protocols && p in supported
  }

  /** A result lists, each once, the protocols shared by its case and the SDK. */
  ghost predicate ProtocolsPlain(cases: seq<Case>, supported: seq<string>, r: CaseResult) {
    && Distinct(r.protocols)
    && exists i :: IsLast(cases, r.caseId, i) && SharedAre(r.protocols, cases[i], supported)
  }

  ghost predicate HasEvidence(evidence: seq<Evidence>, id: string, p: string) {
    exists e :: e in evidence && e.caseId == id && e.protocol == p
  }

  ghost predicate HasResult(results: seq<CaseResult>, id: string, p: string) {
    exists r :: r in results && r.caseId == id && p in r.protocols
  }

  /** One evidence entry for each protocol of each result, and no other. */
  ghost predicate EvidencePlain(results: seq<CaseResult>, evidence: seq<Evidence>) {
    && (forall i, j :: 0 <= i < j < |evidence| ==>
      evidence[i].caseId != evidence[j].caseId || evidence[i].protocol != evidence[j].protocol)
    && forall id, p :: HasEvidence(evidence, id, p) <==> HasResult(results, id, p)
  }

  function WithStatus(results: seq<CaseResult>, status: string): set<int> {
    set i | 0 <= i < |results| && results[i].status == status
  }

  ghost predicate SummaryPlain(results: seq<CaseResult>, s: Summary) {
    && s.passed == |WithStatus(results, "passed")|
    && s.failed == |WithStatus(results, "failed")|
    && s.skipped == |WithStatus(results, "skipped")|
  }

  ghost predicate Plain(tools: Tools, digest: string, cases: seq<Case>, report: Report) {
    && Shape(report) && report.contractDigest == digest && !tools.leaks(report)
    && IdsPlain(cases, report.sdk.supportedProtocols, report.results)
    && PassedPlain(cases, report.sdk.supportedProtocols, report.results)
    && (forall r :: r in report.results ==> ProtocolsPlain(cases, report.sdk.supportedProtocols, r))
    && report.evidenceDigest == tools.sha256(CanonicalJson(EvidenceJson(report.evidence)))
    && EvidencePlain(report.results, report.evidence)
    && SummaryPlain(report.results, report.summary)
  }

  // ---------------------------------------------------------------- ids

  lemma {:induction false} SharesIff(c: Case, supported: seq<string>)
    ensures Intersect(c.protocols, supported) != [] <==> Shares(c, supported)
  {
    if Intersect(c.protocols, supported) != [] {
      assert Intersect(c.protocols, supported)[0] in Intersect(c.protocols, supported);
    }
  }

  lemma {:induction false} ApplicableMember(cases: seq<Case>, supported: seq<string>, id: string)
    ensures id in Ids(Applicable(cases, supported)) <==> Applies(cases, supported, id)
    ensures id in RequiredIds(cases, supported) <==>
      exists c :: c in cases && c.id == id && c.required && Shares(c, supported)
  {
    IdMember(Applicable(cases, supported), id);
    IdMember(Required(Applicable(cases, supported)), id);
    forall c | c in cases ensures c in Applicable(cases, supported) <==> Shares(c, supported) {
      SharesIff(c, supported);
    }
  }

  lemma {:induction false} DistinctIds(results: seq<CaseResult>)
    ensures Distinct(ResultIds(results)) <==>
      forall i, j :: 0 <= i < j < |results| ==> results[i].caseId != results[j].caseId
  {
    assert forall i :: 0 <= i < |results| ==> ResultIds(results)[i] == results[i].caseId;
  }

  lemma {:induction false} IdsIff(cases: seq<Case>, supported: seq<string>, results: seq<CaseResult>)
    ensures IdsMatch(cases, supported, ResultIds(results)) <==> IdsPlain(cases, supported, results)
  {
    var ids := ResultIds(results);
    DistinctIds(results);
    forall id
      ensures id in ids <==> Reported(results, id)
      ensures id in Ids(Applicable(cases, supported)) <==> Applies(cases, supported, id)
      ensures id in RequiredIds(cases, supported) <==>
        exists c :: c in cases && c.id == id && c.required && Shares(c, supported)
      ensures Applies(cases, supported, id) ==> id in Ids(cases)
    {
      ResultIdMember(results, id);
      ApplicableMember(cases, supported, id);
      IdMember(cases, id);
    }
    assert (forall r :: r in results ==> Applies(cases, supported, r.caseId)) <==>
      forall id :: id in ids ==> Applies(cases, supported, id);
    if Covered(RequiredIds(cases, supported), ids) {
      forall c | c in cases && c.required && Shares(c, supported) ensures Reported(results, c.id) {
        assert c.id in RequiredIds(cases, supported);
      }
    }
  }

  lemma {:induction false} PassedIff(cases: seq<Case>, supported: seq<string>, results: seq<CaseResult>)
    ensures RequiredPassed(cases, supported, results) <==> PassedPlain(cases, supported, results)
  {
    forall id ensures id in RequiredIds(cases, supported) <==>
      exists c :: c in cases && c.id == id && c.required && Shares(c, supported)
    {
      ApplicableMember(cases, supported, id);
    }
  }

  // ---------------------------------------------------------------- protocols

  lemma {:induction false} LastExists(cases: seq<Case>, id: string) returns (i: nat)
    requires id in ById(cases)
    ensures IsLast(cases, id, i)
  {
    ByIdLookup(cases);
    IdMember(cases, id);
    var last := |cases| - 1;
    if cases[last].id == id {
      i := last;
    } else {
      i := LastExists(cases[..last], id);
    }
  }

  lemma {:induction false} ProtocolsIff(cases: seq<Case>, supported: seq<string>, r: CaseResult)
    ensures ResultProtocolsMatch(cases, supported, r) <==> ProtocolsPlain(cases, supported, r)
  {
    if r.caseId in ById(cases) {
      var i := LastExists(cases, r.caseId);
      ByIdLast(cases, i);
      var shared := Intersect(cases[i].protocols, supported);
      SamePermutation(shared, r.protocols);
    } else {
      ByIdLookup(cases);
      IdMember(cases, r.caseId);
    }
  }

  // ---------------------------------------------------------------- evidence

  lemma {:induction false} ExpectedDistinct(results: seq<CaseResult>)
    requires Distinct(ResultIds(results)) && forall r :: r in results ==> Distinct(r.protocols)
    ensures Distinct(ExpectedPairs(results))
  {
    if |results| > 0 {
      var first, rest := results[0], results[1..];
      assert first in results && forall r :: r in rest ==> r in results;
      assert ResultIds(rest) == ResultIds(results)[1..];
      ExpectedDistinct(rest);
      var own, other := ResultPairs(first), ExpectedPairs(rest);
      assert ExpectedPairs(results) == own + other by {
        assert Map(ResultPairs, results)[1..] == Map(ResultPairs, rest);
      }
      forall i, j | 0 <= i < |own| && 0 <= j < |other| ensures own[i] != other[j] {
        OtherIds(rest, other[j]);
      }
    }
  }

  lemma {:induction false} OtherIds(results: seq<CaseResult>, pair: (string, string))
    requires pair in ExpectedPairs(results)
    ensures pair.0 in ResultIds(results)
  {
    ExpectedPairsMember(results, pair.0, pair.1);
    ResultIdMember(results, pair.0);
  }

  lemma {:induction false} EvidencePairMember(evidence: seq<Evidence>, id: string, p: string)
    ensures (id, p) in EvidencePairs(evidence) <==> exists e :: e in evidence && e.caseId == id && e.protocol == p
  {
    var pairs := EvidencePairs(evidence);
    if (id, p) in pairs {
      var i :| 0 <= i < |pairs| && pairs[i] == (id, p);
      assert evidence[i] in evidence;
    }
    if e :| e in evidence && e.caseId == id && e.protocol == p {
      var i :| 0 <= i < |evidence| && evidence[i] == e;
      assert pairs[i] == (id, p);
    }
  }

  lemma {:induction false} EvidenceIff(results: seq<CaseResult>, evidence: seq<Evidence>)
    requires Distinct(ResultIds(results)) && forall r :: r in results ==> Distinct(r.protocols)
    ensures Distinct(EvidencePairs(evidence)) && multiset(EvidencePairs(evidence)) == multiset(ExpectedPairs(results))
       <==> EvidencePlain(results, evidence)
  {
    var pairs, expected := EvidencePairs(evidence), ExpectedPairs(results);
    ExpectedDistinct(results);
    SamePermutation(expected, pairs);
    forall pair ensures pair in pairs <==> HasEvidence(evidence, pair.0, pair.1)
                ensures pair in expected <==> HasResult(results, pair.0, pair.1)
    {
      EvidencePairMember(evidence, pair.0, pair.1);
      ExpectedPairsMember(results, pair.0, pair.1);
      assert pair == (pair.0, pair.1);
    }
    SamePairs(results, evidence);
    DistinctPairs(evidence);
  }

  lemma {:induction false} DistinctPairs(evidence: seq<Evidence>)
    ensures Distinct(EvidencePairs(evidence)) <==>
      forall i, j :: 0 <= i < j < |evidence| ==>
        evidence[i].caseId != evidence[j].caseId || evidence[i].protocol != evidence[j].protocol
  {
    assert forall i :: 0 <= i < |evidence| ==>
      EvidencePairs(evidence)[i] == (evidence[i].caseId, evidence[i].protocol);
  }

  lemma {:induction false} SamePairs(results: seq<CaseResult>, evidence: seq<Evidence>)
    ensures (forall pair: (string, string) ::
        HasEvidence(evidence, pair.0, pair.1) <==> HasResult(results, pair.0, pair.1))
      <==> forall id, p :: HasEvidence(evidence, id, p) <==> HasResult(results, id, p)
  {
    if forall pair: (string, string) :: HasEvidence(evidence, pair.0, pair.1) <==> HasResult(results, pair.0, pair.1) {
      forall id, p ensures HasEvidence(evidence, id, p) <==> HasResult(results, id, p) {
        var pair := (id, p);
        assert HasEvidence(evidence, pair.0, pair.1) <==> HasResult(results, pair.0, pair.1);
      }
    }
  }

  // ---------------------------------------------------------------- the summary

  lemma {:induction false} StatusSnoc(results: seq<CaseResult>, status: string)
    requires |results| > 0
    ensures var last := |results| - 1;
      |WithStatus(results, status)| ==
        |WithStatus(results[..last], status)| + (if results[last].status == status then 1 else 0)
  {
    var last := |results| - 1;
    assert WithStatus(results, status) ==
      WithStatus(results[..last], status) + (if results[last].status == status then {last} else {});
  }

  lemma {:induction false} CountIs(results: seq<CaseResult>, status: string)
    ensures CountStatus(results, status) == |WithStatus(results, status)|
  {
    if |results| == 0 {
      assert WithStatus(results, status) == {};
    } else {
      var last := |results| - 1;
      CountIs(results[..last], status);
      StatusSnoc(results, status);
      CountSnoc(results[..last], results[last], status);
      assert results == results[..last] + [results[last]];
    }
  }

  lemma {:induction false} SummaryIff(results: seq<CaseResult>, s: Summary)
    ensures s == SummaryOf(results) <==> SummaryPlain(results, s)
  {
    CountIs(results, "passed");
    CountIs(results, "failed");
    CountIs(results, "skipped");
  }

  // ---------------------------------------------------------------- main result

  lemma {:induction false} AcceptableIff(tools: Tools, digest: string, cases: seq<Case>, report: Report)
    ensures Acceptable(tools, digest, cases, report) <==> Plain(tools, digest, cases, report)
  {
    var supported := report.sdk.supportedProtocols;
    IdsIff(cases, supported, report.results);
    PassedIff(cases, supported, report.results);
    DistinctIds(report.results);
    forall r | r in report.results
      ensures ResultProtocolsMatch(cases, supported, r) <==> ProtocolsPlain(cases, supported, r)
    {
      ProtocolsIff(cases, supported, r);
    }
    if Distinct(ResultIds(report.results)) && forall r :: r in report.results ==> Distinct(r.protocols) {
      EvidenceIff(report.results, report.evidence);
    }
    SummaryIff(report.results, report.summary);
  }

  /** The validator accepts exactly the reports that meet the plain conditions, and returns them unchanged. */
  lemma {:induction false} AcceptedIffPlain(tools: Tools, digest: string, cases: seq<Case>, report: Report)
    ensures ValidateReport(tools, digest, cases, report).Ok? <==> Plain(tools, digest, cases, report)
    ensures ValidateReport(tools, digest, cases, report).Ok? ==>
      ValidateReport(tools, digest, cases, report).value == report
  {
    AcceptanceIff(tools, digest, cases, report);
    AcceptableIff(tools, digest, cases, report);
  }
}
