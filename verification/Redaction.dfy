/** `redact_secrets` as a walk over any JSON value, and what it leaves in a normalized report. */
module Redaction {
  import opened Prelude
  import opened Sorting
  import opened Json
  import opened SchemaValidator
  import opened Reports
  import opened ReportSchema
  import opened Normalization
  import Contract
  import JsonReads

  /** Every string value, at any depth; keys and other values stay. */
  function RedactJson(redact: string -> string, v: Json): Json {
    match v
    case Str(s) => Str(redact(s))
    case Arr(items) => Arr(RedactItems(redact, items))
    case Obj(fields) => Obj(RedactMembers(redact, fields))
    case _ => v
  }

  function RedactItems(redact: string -> string, items: seq<Json>): (r: seq<Json>)
    ensures |r| == |items| && forall i :: 0 <= i < |items| ==> r[i] == RedactJson(redact, items[i])
  {
    if |items| == 0 then [] else [RedactJson(redact, items[0])] + RedactItems(redact, items[1..])
  }

  function RedactMembers(redact: string -> string, fields: seq<Member>): (r: seq<Member>)
    ensures |r| == |fields|
    ensures forall i :: 0 <= i < |fields| ==> r[i] == Member(fields[i].key, RedactJson(redact, fields[i].value))
  {
    if |fields| == 0 then []
    else [Member(fields[0].key, RedactJson(redact, fields[0].value))] + RedactMembers(redact, fields[1..])
  }

  // ---------------------------------------------------------------- a report's JSON

  lemma {:induction false} RecordWalk(redact: string -> string, properties: seq<Property>, values: seq<Json>,
      redacted: seq<Json>)
    requires |values| == |redacted| <= |properties|
    requires forall i :: 0 <= i < |values| ==> redacted[i] == RedactJson(redact, values[i])
    ensures RedactJson(redact, Record(properties, values)) == Record(properties, redacted)
  {
    assert RedactMembers(redact, RecordFields(properties, values)) == RecordFields(properties, redacted);
  }

  lemma {:induction false} StringsWalk(redact: string -> string, s: seq<string>)
    ensures RedactJson(redact, Arr(Strings(s))) == Arr(Strings(RedactAll(redact, s)))
  {
    assert RedactItems(redact, Strings(s)) == Strings(RedactAll(redact, s));
  }

  lemma {:induction false} EntryWalk(redact: string -> string, e: Evidence)
    ensures RedactJson(redact, EntryJson(e)) == EntryJson(RedactEvidence(redact, e))
  {
    assert |EVIDENCE_PROPERTIES| == 4;
    RecordWalk(redact, EVIDENCE_PROPERTIES, EntryValues(e), EntryValues(RedactEvidence(redact, e)));
  }

  lemma {:induction false} ResultWalk(redact: string -> string, r: CaseResult)
    ensures RedactJson(redact, ResultJson(r)) == ResultJson(RedactResult(redact, r))
  {
    assert |RESULT_PROPERTIES| == 4;
    StringsWalk(redact, r.protocols);
    RecordWalk(redact, RESULT_PROPERTIES, ResultValues(r), ResultValues(RedactResult(redact, r)));
  }

  lemma {:induction false} ListsWalk(redact: string -> string, r: Report)
    ensures RedactJson(redact, Arr(Map(EntryJson, r.evidence))) ==
      Arr(Map(EntryJson, RedactedEvidence(redact, r.evidence)))
    ensures RedactJson(redact, Arr(Map(ResultJson, r.results))) ==
      Arr(Map(ResultJson, RedactedResults(redact, r.results)))
  {
    forall i | 0 <= i < |r.evidence|
      ensures RedactJson(redact, Map(EntryJson, r.evidence)[i]) == EntryJson(RedactEvidence(redact, r.evidence[i]))
    {
      EntryWalk(redact, r.evidence[i]);
    }
    assert RedactItems(redact, Map(EntryJson, r.evidence)) == Map(EntryJson, RedactedEvidence(redact, r.evidence));
    forall i | 0 <= i < |r.results|
      ensures RedactJson(redact, Map(ResultJson, r.results)[i]) == ResultJson(RedactResult(redact, r.results[i]))
    {
      ResultWalk(redact, r.results[i]);
    }
    assert RedactItems(redact, Map(ResultJson, r.results)) == Map(ResultJson, RedactedResults(redact, r.results));
  }

  lemma {:induction false} ContractWalk(redact: string -> string, digest: string, version: string)
    ensures RedactJson(redact, ContractJson(digest, version)) == ContractJson(redact(digest), redact(version))
  {
    assert |CONTRACT_PROPERTIES| == 2;
    RecordWalk(redact, CONTRACT_PROPERTIES, ContractValues(digest, version),
      ContractValues(redact(digest), redact(version)));
  }

  lemma {:induction false} SdkWalk(redact: string -> string, sdk: Sdk)
    ensures RedactJson(redact, SdkJson(sdk)) == SdkJson(RedactSdk(redact, sdk))
  {
    assert |SDK_PROPERTIES| == 4;
    StringsWalk(redact, sdk.supportedProtocols);
    RecordWalk(redact, SDK_PROPERTIES, SdkValues(sdk), SdkValues(RedactSdk(redact, sdk)));
  }

  lemma {:induction false} SummaryWalk(redact: string -> string, summary: Summary)
    ensures RedactJson(redact, SummaryJson(summary)) == SummaryJson(summary)
  {
    assert |SUMMARY_PROPERTIES| == 3;
    RecordWalk(redact, SUMMARY_PROPERTIES, SummaryValues(summary), SummaryValues(summary));
  }

  lemma {:induction false} ValuesWalk(redact: string -> string, r: Report)
    ensures var values, redacted := ReportValues(Int(r.schemaVersion), r),
        ReportValues(Int(r.schemaVersion), Redacted(redact, r));
      |values| == |redacted| == 9 && forall i :: 0 <= i < 9 ==> redacted[i] == RedactJson(redact, values[i])
  {
    ContractWalk(redact, r.contractDigest, r.runnerVersion);
    SdkWalk(redact, r.sdk);
    SummaryWalk(redact, r.summary);
    ListsWalk(redact, r);
  }

  /** Redacting the record is redacting its JSON: no string of a report is left out. */
  lemma {:induction false} RedactedIsWalk(redact: string -> string, r: Report)
    ensures ReportJson(Redacted(redact, r)) == RedactJson(redact, ReportJson(r))
  {
    ReportNames();
    ValuesWalk(redact, r);
    RecordWalk(redact, REPORT_PROPERTIES, ReportValues(Int(r.schemaVersion), r),
      ReportValues(Int(r.schemaVersion), Redacted(redact, r)));
  }

  // ---------------------------------------------------------------- the strings of a normalized report

  /** The string is a value somewhere inside. */
  ghost predicate HoldsString(v: Json, s: string) {
    match v
    case Str(t) => t == s
    case Arr(items) => exists i :: 0 <= i < |items| && HoldsString(items[i], s)
    case Obj(fields) => exists i :: 0 <= i < |fields| && HoldsString(fields[i].value, s)
    case _ => false
  }

  /** Every string inside is what redacting some string gave. */
  ghost predicate Clean(redact: string -> string, v: Json) {
    forall s :: HoldsString(v, s) ==> exists t :: s == redact(t)
  }

  lemma {:induction false} WalkIsClean(redact: string -> string, v: Json)
    ensures Clean(redact, RedactJson(redact, v))
  {
    match v
    case Arr(items) =>
      forall i | 0 <= i < |items| ensures Clean(redact, RedactJson(redact, items[i])) {
        WalkIsClean(redact, items[i]);
      }
    case Obj(fields) =>
      forall i | 0 <= i < |fields| ensures Clean(redact, RedactJson(redact, fields[i].value)) {
        WalkIsClean(redact, fields[i].value);
      }
    case _ =>
  }

  lemma {:induction false} ItemsClean(redact: string -> string, items: seq<Json>)
    requires forall i :: 0 <= i < |items| ==> Clean(redact, items[i])
    ensures Clean(redact, Arr(items))
  {
  }

  lemma {:induction false} EvidenceClean(redact: string -> string, r: Report)
    ensures Clean(redact, Arr(Map(EntryJson, Sort(ByPair, RedactedEvidence(redact, r.evidence)))))
  {
    var evidence := Sort(ByPair, RedactedEvidence(redact, r.evidence));
    forall i | 0 <= i < |evidence| ensures Clean(redact, Map(EntryJson, evidence)[i]) {
      var h := IndexIn(evidence[i], evidence, RedactedEvidence(redact, r.evidence));
      EntryWalk(redact, r.evidence[h]);
      WalkIsClean(redact, EntryJson(r.evidence[h]));
    }
    ItemsClean(redact, Map(EntryJson, evidence));
  }

  lemma {:induction false} ResultsClean(redact: string -> string, r: Report)
    ensures Clean(redact, Arr(Map(ResultJson, Sort(ByCaseId, RedactedResults(redact, r.results)))))
  {
    var results := Sort(ByCaseId, RedactedResults(redact, r.results));
    forall i | 0 <= i < |results| ensures Clean(redact, Map(ResultJson, results)[i]) {
      var h := IndexIn(results[i], results, RedactedResults(redact, r.results));
      ResultWalk(redact, r.results[h]);
      WalkIsClean(redact, ResultJson(r.results[h]));
    }
    ItemsClean(redact, Map(ResultJson, results));
  }

  lemma {:induction false} HeadClean(redact: string -> string, r: Report)
    ensures Clean(redact, ContractJson(redact(r.contractDigest), redact(r.runnerVersion)))
    ensures Clean(redact, SdkJson(RedactSdk(redact, r.sdk)))
  {
    ContractWalk(redact, r.contractDigest, r.runnerVersion);
    SdkWalk(redact, r.sdk);
    WalkIsClean(redact, ContractJson(r.contractDigest, r.runnerVersion));
    WalkIsClean(redact, SdkJson(r.sdk));
  }

  /** A record holds the strings of its values. */
  lemma {:induction false} RecordHolds(properties: seq<Property>, values: seq<Json>, s: string)
    requires |values| <= |properties| && HoldsString(Record(properties, values), s)
    ensures exists i :: 0 <= i < |values| && HoldsString(values[i], s)
  {
    var fields := RecordFields(properties, values);
    var i :| 0 <= i < |fields| && HoldsString(fields[i].value, s);
    assert fields[i].value == values[i];
  }

  lemma {:induction false} SummaryHasNone(s: Summary, t: string)
    ensures !HoldsString(SummaryJson(s), t)
  {
    assert |SUMMARY_PROPERTIES| == 3;
    if HoldsString(SummaryJson(s), t) {
      RecordHolds(SUMMARY_PROPERTIES, SummaryValues(s), t);
    }
  }

  lemma {:induction false} NormalizedClean(sha256: string -> string, redact: string -> string, r: Report)
    ensures CleanParts(redact, Normalized(sha256, redact, r))
  {
    HeadClean(redact, r);
    EvidenceClean(redact, r);
    ResultsClean(redact, r);
    WalkIsClean(redact, Str(r.apiVersion));
    WalkIsClean(redact, Str(r.datasetVersion));
  }

  /** What a report's JSON holds is one of its nine values. */
  lemma {:induction false} ReportHolds(n: Report, s: string)
    requires HoldsString(ReportJson(n), s)
    ensures var values := ReportValues(Int(n.schemaVersion), n);
      |values| == 9 && exists i :: 0 <= i < 9 && HoldsString(values[i], s)
  {
    ReportNames();
    RecordHolds(REPORT_PROPERTIES, ReportValues(Int(n.schemaVersion), n), s);
  }

  /**
   * Every string of a normalized report, its recomputed digest aside, is what redacting some string
   * gave: so none is a secret when redacting leaves none.
   */
  lemma {:induction false} NormalizedStrings(sha256: string -> string, redact: string -> string, r: Report, s: string)
    requires HoldsString(ReportJson(Normalized(sha256, redact, r)), s)
    ensures s == Normalized(sha256, redact, r).evidenceDigest || exists t :: s == redact(t)
  {
    NormalizedClean(sha256, redact, r);
    ReportStrings(redact, Normalized(sha256, redact, r), s);
  }

  ghost predicate CleanParts(redact: string -> string, n: Report) {
    && Clean(redact, ContractJson(n.contractDigest, n.runnerVersion)) && Clean(redact, SdkJson(n.sdk))
    && Clean(redact, Str(n.apiVersion)) && Clean(redact, Str(n.datasetVersion))
    && Clean(redact, Arr(Map(EntryJson, n.evidence))) && Clean(redact, Arr(Map(ResultJson, n.results)))
  }

  lemma {:induction false} ReportStrings(redact: string -> string, n: Report, s: string)
    requires CleanParts(redact, n) && HoldsString(ReportJson(n), s)
    ensures s == n.evidenceDigest || exists t :: s == redact(t)
  {
    ReportHolds(n, s);
    SummaryHasNone(n.summary, s);
    NineStrings(redact, ReportValues(Int(n.schemaVersion), n), n.evidenceDigest, s);
  }

  lemma {:induction false} NineStrings(redact: string -> string, values: seq<Json>, digest: string, s: string)
    requires |values| == 9 && exists i :: 0 <= i < 9 && HoldsString(values[i], s)
    requires values[0].Int? && Clean(redact, values[1]) && Clean(redact, values[2])
    requires Clean(redact, values[3]) && Clean(redact, values[4]) && !HoldsString(values[5], s)
    requires values[6] == Str(digest) && Clean(redact, values[7]) && Clean(redact, values[8])
    ensures s == digest || exists t :: s == redact(t)
  {
    var i :| 0 <= i < 9 && HoldsString(values[i], s);
    assert i != 0 && i != 5;
    if i != 6 {
      assert Clean(redact, values[i]);
    }
  }

  // ---------------------------------------------------------------- the order of a normalized report

  /** Equal, or earlier in code-point order. */
  ghost predicate AtMost(a: string, b: string) { a == b || JsonReads.Precedes(a, b) }

  ghost predicate ResultsAscend(results: seq<CaseResult>) {
    forall i, j :: 0 <= i < j < |results| ==> AtMost(results[i].caseId, results[j].caseId)
  }

  ghost predicate EvidenceAscends(evidence: seq<Evidence>) {
    forall i, j :: 0 <= i < j < |evidence| ==> PairAtMost(evidence[i], evidence[j])
  }

  ghost predicate PairAtMost(a: Evidence, b: Evidence) {
    AtMost(a.caseId, b.caseId) && (a.caseId == b.caseId ==> AtMost(a.protocol, b.protocol))
  }

  /** Results ascend by case id, evidence by case id and, within a case, by protocol. */
  lemma {:induction false} NormalizedAscends(sha256: string -> string, redact: string -> string, r: Report)
    ensures ResultsAscend(Normalized(sha256, redact, r).results)
    ensures EvidenceAscends(Normalized(sha256, redact, r).evidence)
  {
    ResultsSorted(RedactedResults(redact, r.results));
    EvidenceSorted(RedactedEvidence(redact, r.evidence));
  }

  lemma {:induction false} EvidenceSorted(evidence: seq<Evidence>)
    ensures EvidenceAscends(Sort(ByPair, evidence))
  {
    var sorted := Sort(ByPair, evidence);
    ByPairTotal();
    SortSorts(ByPair, evidence);
    forall i, j | 0 <= i < j < |sorted| ensures PairAtMost(sorted[i], sorted[j]) {
      assert ByPair(sorted[i], sorted[j]);
      JsonReads.StringLeqPrecedes(sorted[i].caseId, sorted[j].caseId);
      JsonReads.StringLeqPrecedes(sorted[i].protocol, sorted[j].protocol);
    }
  }

  lemma {:induction false} ResultsSorted(results: seq<CaseResult>)
    ensures ResultsAscend(Sort(ByCaseId, results))
  {
    StringLeqOrder();
    forall x: CaseResult, y: CaseResult ensures ByCaseId(x, y) || ByCaseId(y, x) {
      assert StringLeq(x.caseId, y.caseId) || StringLeq(y.caseId, x.caseId);
    }
    forall x: CaseResult, y: CaseResult, z: CaseResult | ByCaseId(x, y) && ByCaseId(y, z) ensures ByCaseId(x, z) {
      assert StringLeq(x.caseId, y.caseId) && StringLeq(y.caseId, z.caseId);
    }
    SortSorts(ByCaseId, results);
    var sorted := Sort(ByCaseId, results);
    forall i, j | 0 <= i < j < |sorted| ensures AtMost(sorted[i].caseId, sorted[j].caseId) {
      assert ByCaseId(sorted[i], sorted[j]);
      JsonReads.StringLeqPrecedes(sorted[i].caseId, sorted[j].caseId);
    }
  }
}
