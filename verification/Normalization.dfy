/** `normalize_report`: redact, sort, and recompute the digest and the summary. */
module Normalization {
  import opened Prelude
  import opened Sorting
  import opened Json
  import opened Reports
  import Contract

  // ---------------------------------------------------------------- redaction of every string

  function RedactAll(redact: string -> string, s: seq<string>): seq<string> { Map(redact, s) }

  function RedactResult(redact: string -> string, r: CaseResult): CaseResult {
    CaseResult(redact(r.caseId), redact(r.status), RedactAll(redact, r.protocols),
      if r.message.Some? then Some(redact(r.message.value)) else None)
  }

  function RedactEvidence(redact: string -> string, e: Evidence): Evidence {
    Evidence(redact(e.caseId), redact(e.protocol), redact(e.requestDigest), redact(e.responseDigest))
  }

  function RedactSdk(redact: string -> string, sdk: Sdk): Sdk {
    Sdk(redact(sdk.language), redact(sdk.name), redact(sdk.version), RedactAll(redact, sdk.supportedProtocols))
  }

  function RedactedResults(redact: string -> string, results: seq<CaseResult>): seq<CaseResult> {
    Map((r: CaseResult) => RedactResult(redact, r), results)
  }

  function RedactedEvidence(redact: string -> string, evidence: seq<Evidence>): seq<Evidence> {
    Map((e: Evidence) => RedactEvidence(redact, e), evidence)
  }

  function Redacted(redact: string -> string, report: Report): Report {
    report.(
      contractDigest := redact(report.contractDigest), runnerVersion := redact(report.runnerVersion),
      sdk := RedactSdk(redact, report.sdk), apiVersion := redact(report.apiVersion),
      datasetVersion := redact(report.datasetVersion), evidenceDigest := redact(report.evidenceDigest),
      evidence := RedactedEvidence(redact, report.evidence), results := RedactedResults(redact, report.results))
  }

  // ---------------------------------------------------------------- normalization

  predicate ByCaseId(a: CaseResult, b: CaseResult) { StringLeq(a.caseId, b.caseId) }

  predicate ByPair(a: Evidence, b: Evidence) { PairLeq((a.caseId, a.protocol), (b.caseId, b.protocol)) }

  function Normalized(sha256: string -> string, redact: string -> string, report: Report): Report {
    var results := Sort(ByCaseId, RedactedResults(redact, report.results));
    var evidence := Sort(ByPair, RedactedEvidence(redact, report.evidence));
    Redacted(redact, report).(
      results := results, evidence := evidence,
      evidenceDigest := sha256(CanonicalJson(EvidenceJson(evidence))), summary := SummaryOf(results))
  }

  function Fetch(counts: map<string, nat>, status: string): nat { if status in counts then counts[status] else 0 }

  /** Group by status and count: a status nobody has gets no entry. */
  method CountByStatus(results: seq<CaseResult>) returns (counts: map<string, nat>)
    ensures forall status :: Fetch(counts, status) == CountStatus(results, status)
  {
    counts := map[];
    for i := 0 to |results|
      invariant forall status :: Fetch(counts, status) == CountStatus(results[..i], status)
    {
      ghost var before := counts;
      counts := counts[results[i].status := Fetch(counts, results[i].status) + 1];
      assert results[..i + 1] == results[..i] + [results[i]];
      forall status ensures Fetch(counts, status) == CountStatus(results[..i + 1], status) {
        assert Fetch(before, status) == CountStatus(results[..i], status);
        CountSnoc(results[..i], results[i], status);
      }
    }
    assert results[..|results|] == results;
  }

  function Counted(counts: map<string, nat>): Summary {
    Summary(Fetch(counts, "passed"), Fetch(counts, "failed"), Fetch(counts, "skipped"))
  }

  lemma {:induction false} CountedIs(counts: map<string, nat>, results: seq<CaseResult>)
    requires forall status :: Fetch(counts, status) == CountStatus(results, status)
    ensures Counted(counts) == SummaryOf(results)
  {
  }

  /** The source copies the report and then reassigns its entries one after the other. */
  method NormalizeReport(sha256: string -> string, redact: string -> string, report: Report)
    returns (normalized: Report)
    ensures normalized == Normalized(sha256, redact, report)
  {
    normalized := Redacted(redact, report);
    normalized := normalized.(results := Sort(ByCaseId, normalized.results));
    normalized := normalized.(evidence := Sort(ByPair, normalized.evidence));
    normalized := normalized.(evidenceDigest := sha256(CanonicalJson(EvidenceJson(normalized.evidence))));
    var counts := CountByStatus(normalized.results);
    CountedIs(counts, normalized.results);
    normalized := normalized.(summary := Counted(counts));
  }

  // ---------------------------------------------------------------- unique keys make sorting canonical

  /** After redaction, results have different ids and evidence different pairs. */
  ghost predicate UniqueKeys(results: seq<CaseResult>, evidence: seq<Evidence>) {
    Distinct(ResultIds(results)) && Distinct(EvidencePairs(evidence))
  }

  lemma {:induction false} ResultOrder(results: seq<CaseResult>)
    requires Distinct(ResultIds(results))
    ensures TotalPreorder(ByCaseId) && AntisymmetricOn(ByCaseId, results)
  {
    StringLeqOrder();
    forall x, y | x in results && y in results && ByCaseId(x, y) && ByCaseId(y, x) ensures x == y {
      var i :| 0 <= i < |results| && results[i] == x;
      var j :| 0 <= j < |results| && results[j] == y;
      assert ResultIds(results)[i] == x.caseId && ResultIds(results)[j] == y.caseId;
      assert x.caseId == y.caseId;
    }
  }

  lemma {:induction false} EvidenceOrder(evidence: seq<Evidence>)
    requires Distinct(EvidencePairs(evidence))
    ensures TotalPreorder(ByPair) && AntisymmetricOn(ByPair, evidence)
  {
    ByPairTotal();
    forall x, y | x in evidence && y in evidence && ByPair(x, y) && ByPair(y, x) ensures x == y {
      var i :| 0 <= i < |evidence| && evidence[i] == x;
      var j :| 0 <= j < |evidence| && evidence[j] == y;
      assert EvidencePairs(evidence)[i] == (x.caseId, x.protocol) &&
        EvidencePairs(evidence)[j] == (y.caseId, y.protocol);
      ByPairTies(x, y);
    }
  }

  lemma {:induction false} ByPairTies(x: Evidence, y: Evidence)
    requires ByPair(x, y) && ByPair(y, x)
    ensures (x.caseId, x.protocol) == (y.caseId, y.protocol)
  {
    PairLeqOrder();
  }

  lemma {:induction false} ByPairTotal()
    ensures TotalPreorder(ByPair)
  {
    PairLeqOrder();
    forall x: Evidence, y: Evidence ensures ByPair(x, y) || ByPair(y, x) {
      assert PairLeq((x.caseId, x.protocol), (y.caseId, y.protocol)) ||
        PairLeq((y.caseId, y.protocol), (x.caseId, x.protocol));
    }
    forall x: Evidence, y: Evidence, z: Evidence | ByPair(x, y) && ByPair(y, z) ensures ByPair(x, z) {
      assert PairLeq((x.caseId, x.protocol), (y.caseId, y.protocol)) &&
        PairLeq((y.caseId, y.protocol), (z.caseId, z.protocol));
    }
  }

  lemma {:induction false} MapPermutes<A, B>(f: A -> B, a: seq<A>, b: seq<A>)
    requires multiset(a) == multiset(b)
    ensures multiset(Map(f, a)) == multiset(Map(f, b))
  {
    assert |a| == |multiset(a)| == |multiset(b)| == |b|;
    if |a| > 0 {
      var j := IndexIn(a[0], a, b);
      var rest := b[..j] + b[j + 1..];
      RemoveOne(a, b, j);
      MapPermutes(f, a[1..], rest);
      assert Map(f, a) == [f(a[0])] + Map(f, a[1..]);
      assert Map(f, b) == Map(f, b[..j]) + [f(b[j])] + Map(f, b[j + 1..]);
      assert Map(f, rest) == Map(f, b[..j]) + Map(f, b[j + 1..]);
    }
  }

  lemma {:induction false} RemoveOne<A>(a: seq<A>, b: seq<A>, j: nat)
    requires |a| > 0 && j < |b| && b[j] == a[0] && multiset(a) == multiset(b)
    ensures multiset(a[1..]) == multiset(b[..j] + b[j + 1..])
  {
    assert a == [a[0]] + a[1..];
    assert b == b[..j] + [b[j]] + b[j + 1..];
    assert multiset(a[1..]) == multiset(a) - multiset{a[0]};
    assert multiset(b[..j] + b[j + 1..]) == multiset(b) - multiset{b[j]};
  }

  // ---------------------------------------------------------------- main results about the result's form

  /** Results and evidence survive, as multisets, up to redaction, and digest and summary fit them. */
  lemma {:induction false} NormalizationConserves(sha256: string -> string, redact: string -> string, report: Report)
    ensures var n := Normalized(sha256, redact, report);
      && multiset(n.results) == multiset(RedactedResults(redact, report.results))
      && multiset(n.evidence) == multiset(RedactedEvidence(redact, report.evidence))
      && |n.results| == |report.results| && |n.evidence| == |report.evidence|
      && n.evidenceDigest == sha256(CanonicalJson(EvidenceJson(n.evidence)))
      && n.summary == SummaryOf(n.results) == SummaryOf(RedactedResults(redact, report.results))
  {
    var results := RedactedResults(redact, report.results);
    SummaryPermutes(Sort(ByCaseId, results), results);
  }

  /** Any order of results and evidence gives the same normalized report, whatever the old digest and summary. */
  lemma {:induction false} NormalizationForgetsOrder(sha256: string -> string, redact: string -> string, a: Report,
      b: Report)
    requires UniqueKeys(RedactedResults(redact, a.results), RedactedEvidence(redact, a.evidence))
    requires multiset(a.results) == multiset(b.results) && multiset(a.evidence) == multiset(b.evidence)
    requires b == a.(results := b.results, evidence := b.evidence, evidenceDigest := b.evidenceDigest,
      summary := b.summary)
    ensures Normalized(sha256, redact, a) == Normalized(sha256, redact, b)
  {
    var ra, rb := RedactedResults(redact, a.results), RedactedResults(redact, b.results);
    var ea, eb := RedactedEvidence(redact, a.evidence), RedactedEvidence(redact, b.evidence);
    MapPermutes((r: CaseResult) => RedactResult(redact, r), a.results, b.results);
    MapPermutes((e: Evidence) => RedactEvidence(redact, e), a.evidence, b.evidence);
    ResultOrder(ra);
    EvidenceOrder(ea);
    SortEqualIffPermutation(ByCaseId, ra, rb);
    SortEqualIffPermutation(ByPair, ea, eb);
  }

  ghost predicate Idempotent(redact: string -> string) { forall s :: redact(redact(s)) == redact(s) }

  lemma {:induction false} RedactedResultsFixed(redact: string -> string, results: seq<CaseResult>)
    requires Idempotent(redact)
    requires forall r :: r in results ==> exists x :: r == RedactResult(redact, x)
    ensures RedactedResults(redact, results) == results
  {
    forall i | 0 <= i < |results| ensures RedactedResults(redact, results)[i] == results[i] {
      assert results[i] in results;
      var x :| results[i] == RedactResult(redact, x);
      assert RedactAll(redact, RedactAll(redact, x.protocols)) == RedactAll(redact, x.protocols);
    }
  }

  lemma {:induction false} RedactedEvidenceFixed(redact: string -> string, evidence: seq<Evidence>)
    requires Idempotent(redact)
    requires forall e :: e in evidence ==> exists x :: e == RedactEvidence(redact, x)
    ensures RedactedEvidence(redact, evidence) == evidence
  {
    forall i | 0 <= i < |evidence| ensures RedactedEvidence(redact, evidence)[i] == evidence[i] {
      assert evidence[i] in evidence;
      var x :| evidence[i] == RedactEvidence(redact, x);
    }
  }

  lemma {:induction false} SortedResultsFixed(redact: string -> string, report: Report)
    requires Idempotent(redact) && Distinct(ResultIds(RedactedResults(redact, report.results)))
    ensures var sorted := Sort(ByCaseId, RedactedResults(redact, report.results));
      Sort(ByCaseId, RedactedResults(redact, sorted)) == sorted
  {
    var results := RedactedResults(redact, report.results);
    var sorted := Sort(ByCaseId, results);
    ResultOrder(results);
    SortSorts(ByCaseId, results);
    SortMembers(ByCaseId, results);
    forall r | r in sorted ensures exists x :: r == RedactResult(redact, x) {
      assert r in results;
      var i :| 0 <= i < |results| && results[i] == r;
      assert r == RedactResult(redact, report.results[i]);
    }
    RedactedResultsFixed(redact, sorted);
    SortOfSorted(ByCaseId, sorted);
  }

  lemma {:induction false} SortedEvidenceFixed(redact: string -> string, report: Report)
    requires Idempotent(redact) && Distinct(EvidencePairs(RedactedEvidence(redact, report.evidence)))
    ensures var sorted := Sort(ByPair, RedactedEvidence(redact, report.evidence));
      Sort(ByPair, RedactedEvidence(redact, sorted)) == sorted
  {
    var evidence := RedactedEvidence(redact, report.evidence);
    var sorted := Sort(ByPair, evidence);
    EvidenceOrder(evidence);
    SortSorts(ByPair, evidence);
    SortMembers(ByPair, evidence);
    forall e | e in sorted ensures exists x :: e == RedactEvidence(redact, x) {
      assert e in evidence;
      var i :| 0 <= i < |evidence| && evidence[i] == e;
      assert e == RedactEvidence(redact, report.evidence[i]);
    }
    RedactedEvidenceFixed(redact, sorted);
    SortOfSorted(ByPair, sorted);
  }

  lemma {:induction false} NormalizationIdempotent(sha256: string -> string, redact: string -> string, report: Report)
    requires Idempotent(redact)
    requires UniqueKeys(RedactedResults(redact, report.results), RedactedEvidence(redact, report.evidence))
    ensures Normalized(sha256, redact, Normalized(sha256, redact, report)) == Normalized(sha256, redact, report)
  {
    var n := Normalized(sha256, redact, report);
    SortedResultsFixed(redact, report);
    SortedEvidenceFixed(redact, report);
    assert RedactAll(redact, n.sdk.supportedProtocols) == n.sdk.supportedProtocols;
  }

  // ---------------------------------------------------------------- validation after normalization

  lemma {:induction false} CountPermutes(a: seq<CaseResult>, b: seq<CaseResult>, status: string)
    requires multiset(a) == multiset(b)
    ensures CountStatus(a, status) == CountStatus(b, status)
  {
    assert |a| == |multiset(a)| == |multiset(b)| == |b|;
    if |a| > 0 {
      var j := IndexIn(a[0], a, b);
      var rest := b[..j] + b[j + 1..];
      RemoveOne(a, b, j);
      CountPermutes(a[1..], rest, status);
      var p := (x: CaseResult) => x.status == status;
      assert b == b[..j] + ([b[j]] + b[j + 1..]);
      FilterAppend(p, b[..j], [b[j]] + b[j + 1..]);
      FilterAppend(p, b[..j], b[j + 1..]);
      assert ([b[j]] + b[j + 1..])[1..] == b[j + 1..];
    }
  }

  lemma {:induction false} SummaryPermutes(a: seq<CaseResult>, b: seq<CaseResult>)
    requires multiset(a) == multiset(b)
    ensures SummaryOf(a) == SummaryOf(b)
  {
    CountPermutes(a, b, "passed");
    CountPermutes(a, b, "failed");
    CountPermutes(a, b, "skipped");
  }

  lemma {:induction false} ExpectedPairsAppend(a: seq<CaseResult>, b: seq<CaseResult>)
    ensures ExpectedPairs(a + b) == ExpectedPairs(a) + ExpectedPairs(b)
  {
    assert Map(ResultPairs, a + b) == Map(ResultPairs, a) + Map(ResultPairs, b);
    FlattenAppend(Map(ResultPairs, a), Map(ResultPairs, b));
  }

  lemma {:induction false} ExpectedPairsPermute(a: seq<CaseResult>, b: seq<CaseResult>)
    requires multiset(a) == multiset(b)
    ensures multiset(ExpectedPairs(a)) == multiset(ExpectedPairs(b))
  {
    assert |a| == |multiset(a)| == |multiset(b)| == |b|;
    if |a| > 0 {
      var j := IndexIn(a[0], a, b);
      RemoveOne(a, b, j);
      ExpectedPairsPermute(a[1..], b[..j] + b[j + 1..]);
      PairsTakenOut(a, 0, a[1..]);
      PairsTakenOut(b, j, b[..j] + b[j + 1..]);
    } else {
      assert a == b;
    }
  }

  lemma {:induction false} PairsTakenOut(results: seq<CaseResult>, j: nat, rest: seq<CaseResult>)
    requires j < |results| && rest == results[..j] + results[j + 1..]
    ensures multiset(ExpectedPairs(results)) == multiset(ExpectedPairs([results[j]])) + multiset(ExpectedPairs(rest))
  {
    var before, after := results[..j], results[j + 1..];
    assert results == before + [results[j]] + after;
    ExpectedPairsAppend(before + [results[j]], after);
    ExpectedPairsAppend(before, [results[j]]);
    ExpectedPairsAppend(before, after);
  }

  lemma {:induction false} IdsMatchPermutes(cases: seq<Contract.Case>, supported: seq<string>, a: seq<string>,
      b: seq<string>)
    requires multiset(a) == multiset(b) && IdsMatch(cases, supported, a)
    ensures IdsMatch(cases, supported, b)
  {
    PermutationKeepsDistinct(a, b);
    SameMembers(a, b);
  }

  /** Acceptance never depends on the order of results and evidence, only on digest and secret scan. */
  lemma {:induction false} AcceptancePermutes(tools: Tools, digest: string, cases: seq<Contract.Case>, a: Report,
      b: Report)
    requires Acceptable(tools, digest, cases, a)
    requires multiset(a.results) == multiset(b.results) && multiset(a.evidence) == multiset(b.evidence)
    requires b == a.(results := b.results, evidence := b.evidence, evidenceDigest := b.evidenceDigest)
    requires b.evidenceDigest == tools.sha256(CanonicalJson(EvidenceJson(b.evidence))) && IsDigest(b.evidenceDigest)
    requires !tools.leaks(b)
    ensures Acceptable(tools, digest, cases, b)
  {
    SameMembers(a.results, b.results);
    SameMembers(a.evidence, b.evidence);
    MapPermutes((r: CaseResult) => r.caseId, a.results, b.results);
    assert multiset(ResultIds(a.results)) == multiset(ResultIds(b.results));
    IdsMatchPermutes(cases, a.sdk.supportedProtocols, ResultIds(a.results), ResultIds(b.results));
    MapPermutes((e: Evidence) => (e.caseId, e.protocol), a.evidence, b.evidence);
    assert multiset(EvidencePairs(a.evidence)) == multiset(EvidencePairs(b.evidence));
    PermutationKeepsDistinct(EvidencePairs(a.evidence), EvidencePairs(b.evidence));
    ExpectedPairsPermute(a.results, b.results);
    SummaryPermutes(a.results, b.results);
  }

  /** The report with its digest and summary recomputed in place. */
  function Recomputed(tools: Tools, report: Report): Report {
    report.(evidenceDigest := tools.sha256(CanonicalJson(EvidenceJson(report.evidence))),
      summary := SummaryOf(report.results))
  }

  /**
   * Normalization redacts, and then repairs the digest and the summary and nothing else: its
   * output validates exactly when the redacted report does after those two are recomputed.
   */
  lemma {:induction false} NormalizationRepairs(tools: Tools, redact: string -> string, digest: string,
      cases: seq<Contract.Case>, report: Report)
    requires forall s :: IsDigest(tools.sha256(s))
    requires tools.leaks(Normalized(tools.sha256, redact, report)) ==
      tools.leaks(Recomputed(tools, Redacted(redact, report)))
    ensures ValidateReport(tools, digest, cases, Normalized(tools.sha256, redact, report)).Ok? <==>
      ValidateReport(tools, digest, cases, Recomputed(tools, Redacted(redact, report))).Ok?
  {
    var n, m := Normalized(tools.sha256, redact, report), Recomputed(tools, Redacted(redact, report));
    SummaryPermutes(n.results, m.results);
    AcceptanceIff(tools, digest, cases, n);
    AcceptanceIff(tools, digest, cases, m);
    if Acceptable(tools, digest, cases, n) {
      AcceptancePermutes(tools, digest, cases, n, m);
    }
    if Acceptable(tools, digest, cases, m) {
      AcceptancePermutes(tools, digest, cases, m, n);
    }
  }
}
