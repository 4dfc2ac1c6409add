/** SDK reports and the checks `validate_report!` makes on them. */
module Reports {
  import opened Prelude
  import opened Sorting
  import opened Json
  import Contract

  datatype CaseResult = CaseResult(caseId: string, status: string, protocols: seq<string>, message: Option<string>)

  datatype Evidence = Evidence(caseId: string, protocol: string, requestDigest: string, responseDigest: string)

  datatype Sdk = Sdk(language: string, name: string, version: string, supportedProtocols: seq<string>)

  datatype Summary = Summary(passed: int, failed: int, skipped: int)

  datatype Report = Report(
    schemaVersion: int,
    contractDigest: string,
    runnerVersion: string,
    sdk: Sdk,
    apiVersion: string,
    datasetVersion: string,
    summary: Summary,
    evidenceDigest: string,
    evidence: seq<Evidence>,
    results: seq<CaseResult>)

  /** What the checks take from outside: the digest function and the secret scan. */
  datatype Tools = Tools(sha256: string -> string, leaks: Report -> bool)

  datatype ReportError =
    | SchemaViolation
    | ContractDigestDiffers
    | DuplicateResults
    | UnknownResults
    | RequiredOmitted
    | Inapplicable
    | RequiredNotPassed
    | ProtocolsDiffer(caseId: string)
    | EvidenceDigestInvalid
    | DuplicateEvidence
    | EvidenceUnbound
    | SecretFound
    | SummaryIncorrect

  const STATUSES := ["passed", "failed", "skipped"]

  predicate IsStatus(s: string) { s == "passed" || s == "failed" || s == "skipped" }

  lemma {:induction false} StatusesAre()
    ensures forall s :: s in STATUSES <==> IsStatus(s)
  {
    assert STATUSES[0] == "passed" && STATUSES[1] == "failed" && STATUSES[2] == "skipped";
  }

  // ---------------------------------------------------------------- shape fixed by the report schema

  predicate IsHex(s: string) { forall c :: c in s ==> '0' <= c <= '9' || 'a' <= c <= 'f' }

  /** A whole line of `s`, from `i` on, is 64 lower-case hexadecimal digits. */
  predicate HexLineAt(s: string, i: int) {
    && 0 <= i && i + 64 <= |s| && IsHex(s[i..i + 64])
    && (i == 0 || s[i - 1] == '\n')
    && (i + 64 == |s| || s[i + 64] == '\n')
  }

  /** The digest pattern `^[a-f0-9]{64}$`: in Ruby `^` and `$` are line anchors, so one line suffices. */
  predicate IsDigest(s: string) { exists i :: 0 <= i <= |s| - 64 && HexLineAt(s, i) }

  /** `line` is a whole line of the text, between the texts before and after it. */
  ghost predicate LineOf(text: string, before: string, line: string, after: string) {
    && text == before + line + after
    && (before == "" || before[|before| - 1] == '\n')
    && (after == "" || after[0] == '\n')
  }

  ghost predicate DigestLine(line: string) { |line| == 64 && forall c :: c in line ==> c in "0123456789abcdef" }

  /** A text is taken for a digest exactly when 64 digits of base 16 stand on a line of their own in it. */
  lemma {:induction false} DigestIff(s: string)
    ensures IsDigest(s) <==>
      exists before, line, after :: LineOf(s, before, line, after) && DigestLine(line)
  {
    forall c ensures c in "0123456789abcdef" <==> '0' <= c <= '9' || 'a' <= c <= 'f' {
      HexDigits(c);
    }
    if i :| 0 <= i <= |s| - 64 && HexLineAt(s, i) {
      assert s == s[..i] + s[i..i + 64] + s[i + 64..];
      assert LineOf(s, s[..i], s[i..i + 64], s[i + 64..]);
    }
    if before, line, after :| LineOf(s, before, line, after) && DigestLine(line) {
      var i := |before|;
      assert s[i..i + 64] == line;
      assert HexLineAt(s, i);
    }
  }

  lemma {:induction false} HexDigits(c: char)
    ensures c in "0123456789abcdef" <==> '0' <= c <= '9' || 'a' <= c <= 'f'
  {
    var digits := "0123456789abcdef";
    if '0' <= c <= '9' {
      assert digits[c as int - '0' as int] == c;
    } else if 'a' <= c <= 'f' {
      assert digits[c as int - 'a' as int + 10] == c;
    }
  }

  predicate ProtocolList(protocols: seq<string>) {
    |protocols| >= 1 && Distinct(protocols) && forall p :: p in protocols ==> Contract.IsProtocol(p)
  }

  predicate ResultShape(r: CaseResult) {
    |r.caseId| >= 1 && IsStatus(r.status) && ProtocolList(r.protocols)
  }

  predicate EvidenceShape(e: Evidence) {
    |e.caseId| >= 1 && Contract.IsProtocol(e.protocol) && IsDigest(e.requestDigest) && IsDigest(e.responseDigest)
  }

  predicate Shape(r: Report) {
    && r.schemaVersion == 2
    && IsDigest(r.contractDigest) && r.runnerVersion == "1.0.0"
    && |r.sdk.language| >= 1 && |r.sdk.name| >= 1 && |r.sdk.version| >= 1 && ProtocolList(r.sdk.supportedProtocols)
    && |r.apiVersion| >= 1 && |r.datasetVersion| >= 1
    && r.summary.passed >= 0 && r.summary.failed >= 0 && r.summary.skipped >= 0
    && IsDigest(r.evidenceDigest)
    && (forall e :: e in r.evidence ==> EvidenceShape(e))
    && (forall x :: x in r.results ==> ResultShape(x))
  }

  // ---------------------------------------------------------------- parts of a report

  function ResultIds(results: seq<CaseResult>): seq<string> { Map((r: CaseResult) => r.caseId, results) }

  /** Ruby's `a & b`: the distinct elements of `a` that occur in `b`, in the order of `a`. */
  function Intersect(a: seq<string>, b: seq<string>): (r: seq<string>)
    ensures Distinct(r)
    ensures forall x :: x in r <==> x in a && x in b
  {
    if |a| == 0 then []
    else
      var last, rest := a[|a| - 1], Intersect(a[..|a| - 1], b);
      assert a == a[..|a| - 1] + [last];
      if last in b && last !in rest then rest + [last] else rest
  }

  function Applicable(cases: seq<Contract.Case>, supported: seq<string>): seq<Contract.Case> {
    Filter((c: Contract.Case) => Intersect(c.protocols, supported) != [], cases)
  }

  function ById(cases: seq<Contract.Case>): map<string, Contract.Case> {
    if |cases| == 0 then map[]
    else
      var last := cases[|cases| - 1];
      ById(cases[..|cases| - 1])[last.id := last]
  }

  function EvidenceJson(evidence: seq<Evidence>): Json {
    Arr(Map((e: Evidence) => Obj([
      Member("caseId", Str(e.caseId)), Member("protocol", Str(e.protocol)),
      Member("requestDigest", Str(e.requestDigest)), Member("responseDigest", Str(e.responseDigest))]), evidence))
  }

  function EvidencePairs(evidence: seq<Evidence>): seq<(string, string)> {
    Map((e: Evidence) => (e.caseId, e.protocol), evidence)
  }

  function ResultPairs(r: CaseResult): seq<(string, string)> { Map((p: string) => (r.caseId, p), r.protocols) }

  function ExpectedPairs(results: seq<CaseResult>): seq<(string, string)> { Flatten(Map(ResultPairs, results)) }

  function CountStatus(results: seq<CaseResult>, status: string): nat {
    |Filter((r: CaseResult) => r.status == status, results)|
  }

  function SummaryOf(results: seq<CaseResult>): Summary {
    Summary(CountStatus(results, "passed"), CountStatus(results, "failed"), CountStatus(results, "skipped"))
  }

  lemma {:induction false} CountSnoc(results: seq<CaseResult>, r: CaseResult, status: string)
    ensures CountStatus(results + [r], status) == CountStatus(results, status) + (if r.status == status then 1 else 0)
  {
    FilterAppend((x: CaseResult) => x.status == status, results, [r]);
    FilterOne((x: CaseResult) => x.status == status, r);
  }

  // ---------------------------------------------------------------- validate_report!

  function RequiredIds(cases: seq<Contract.Case>, supported: seq<string>): seq<string> {
    Contract.Ids(Contract.Required(Applicable(cases, supported)))
  }

  function CheckProtocols(byId: map<string, Contract.Case>, supported: seq<string>, r: CaseResult)
    : Option<ReportError>
  {
    if r.caseId in byId
      && Sort(StringLeq, r.protocols) == Sort(StringLeq, Intersect(byId[r.caseId].protocols, supported)) then None
    else Some(ProtocolsDiffer(r.caseId))
  }

  function Require(condition: bool, error: ReportError, next: Result<Report, ReportError>)
    : Result<Report, ReportError>
  {
    if condition then next else Err(error)
  }

  /**
   * The checks in source order; each failure raises, so the first one decides. `evidenceDigest` and
   * `leaks` are what digesting the evidence and scanning the report come to.
   */
  function CheckRecord(contractDigest: string, cases: seq<Contract.Case>, report: Report, evidenceDigest: string,
      leaks: bool): Result<Report, ReportError>
  {
    var supported := report.sdk.supportedProtocols;
    var results, evidence := report.results, report.evidence;
    var ids := ResultIds(results);
    var requiredIds := RequiredIds(cases, supported);
    var protocolFailure := Contract.FirstFailure((r: CaseResult) => CheckProtocols(ById(cases), supported, r), results);
    Require(Shape(report), SchemaViolation,
    Require(report.contractDigest == contractDigest, ContractDigestDiffers,
    Require(Distinct(ids), DuplicateResults,
    Require(Covered(ids, Contract.Ids(cases)), UnknownResults,
    Require(Covered(requiredIds, ids), RequiredOmitted,
    Require(Covered(ids, Contract.Ids(Applicable(cases, supported))), Inapplicable,
    Require(AllRequiredPass(requiredIds, results), RequiredNotPassed,
    if protocolFailure.Some? then Err(protocolFailure.value) else
    Require(report.evidenceDigest == evidenceDigest, EvidenceDigestInvalid,
    Require(Distinct(EvidencePairs(evidence)), DuplicateEvidence,
    Require(Sort(PairLeq, EvidencePairs(evidence)) == Sort(PairLeq, ExpectedPairs(results)), EvidenceUnbound,
    Require(!leaks, SecretFound,
    Require(report.summary == SummaryOf(results), SummaryIncorrect,
    Ok(report)))))))))))))
  }

  predicate AllRequiredPass(requiredIds: seq<string>, results: seq<CaseResult>) {
    forall r :: r in results && r.caseId in requiredIds ==> r.status == "passed"
  }

  function ValidateReport(tools: Tools, contractDigest: string, cases: seq<Contract.Case>, report: Report)
    : Result<Report, ReportError>
  {
    CheckRecord(contractDigest, cases, report, tools.sha256(CanonicalJson(EvidenceJson(report.evidence))),
      tools.leaks(report))
  }

  // ---------------------------------------------------------------- what acceptance means

  lemma {:induction false} ByIdLookup(cases: seq<Contract.Case>)
    ensures forall id :: id in ById(cases) <==> id in Contract.Ids(cases)
    ensures forall id :: id in ById(cases) ==> ById(cases)[id] in cases && ById(cases)[id].id == id
  {
    if |cases| > 0 {
      var rest, last := cases[..|cases| - 1], cases[|cases| - 1];
      ByIdLookup(rest);
      assert cases == rest + [last];
      assert Contract.Ids(cases) == Contract.Ids(rest) + [last.id];
    }
  }

  lemma {:induction false} IdMember(cases: seq<Contract.Case>, id: string)
    ensures id in Contract.Ids(cases) <==> exists c :: c in cases && c.id == id
  {
    if id in Contract.Ids(cases) {
      var i :| 0 <= i < |cases| && Contract.Ids(cases)[i] == id;
      assert cases[i] in cases;
    }
    if c :| c in cases && c.id == id {
      var i :| 0 <= i < |cases| && cases[i] == c;
      assert Contract.Ids(cases)[i] == id;
    }
  }

  lemma {:induction false} ResultIdMember(results: seq<CaseResult>, id: string)
    ensures id in ResultIds(results) <==> exists r :: r in results && r.caseId == id
  {
    if id in ResultIds(results) {
      var i :| 0 <= i < |results| && ResultIds(results)[i] == id;
      assert results[i] in results;
    }
    if r :| r in results && r.caseId == id {
      var i :| 0 <= i < |results| && results[i] == r;
      assert ResultIds(results)[i] == id;
    }
  }

  /** Of the entries with one key the last one counts. */
  lemma {:induction false} ByIdLast(cases: seq<Contract.Case>, i: nat)
    requires i < |cases| && forall j :: i < j < |cases| ==> cases[j].id != cases[i].id
    ensures cases[i].id in ById(cases) && ById(cases)[cases[i].id] == cases[i]
  {
    if i < |cases| - 1 {
      ByIdLast(cases[..|cases| - 1], i);
    }
  }

  lemma {:induction false} SameIdSameCase(cases: seq<Contract.Case>, c: Contract.Case, d: Contract.Case)
    requires Distinct(Contract.Ids(cases)) && c in cases && d in cases && c.id == d.id
    ensures c == d
  {
    var i :| 0 <= i < |cases| && cases[i] == c;
    var j :| 0 <= j < |cases| && cases[j] == d;
    assert Contract.Ids(cases)[i] == Contract.Ids(cases)[j];
  }

  lemma {:induction false} ByIdOf(cases: seq<Contract.Case>, c: Contract.Case)
    requires Distinct(Contract.Ids(cases)) && c in cases
    ensures c.id in ById(cases) && ById(cases)[c.id] == c
  {
    ByIdLookup(cases);
    var i :| 0 <= i < |cases| && cases[i] == c;
    assert Contract.Ids(cases)[i] == c.id;
    SameIdSameCase(cases, c, ById(cases)[c.id]);
  }

  lemma {:induction false} SamePairsIff(a: seq<(string, string)>, b: seq<(string, string)>)
    ensures Sort(PairLeq, a) == Sort(PairLeq, b) <==> multiset(a) == multiset(b)
  {
    PairLeqOrder();
    SortEqualIffPermutation(PairLeq, a, b);
  }

  lemma {:induction false} SameProtocolsIff(a: seq<string>, b: seq<string>)
    ensures Sort(StringLeq, a) == Sort(StringLeq, b) <==> multiset(a) == multiset(b)
  {
    StringLeqOrder();
    SortEqualIffPermutation(StringLeq, a, b);
  }

  /** Each result carries its case's protocols restricted to the SDK's, in any order. */
  ghost predicate ProtocolsMatch(cases: seq<Contract.Case>, supported: seq<string>, results: seq<CaseResult>) {
    forall r :: r in results ==> ResultProtocolsMatch(cases, supported, r)
  }

  ghost predicate ResultProtocolsMatch(cases: seq<Contract.Case>, supported: seq<string>, r: CaseResult) {
    && r.caseId in ById(cases)
    && multiset(r.protocols) == multiset(Intersect(ById(cases)[r.caseId].protocols, supported))
  }

  ghost predicate IdsMatch(cases: seq<Contract.Case>, supported: seq<string>, ids: seq<string>) {
    && Distinct(ids)
    && Covered(ids, Contract.Ids(cases))
    && Covered(RequiredIds(cases, supported), ids)
    && Covered(ids, Contract.Ids(Applicable(cases, supported)))
  }

  ghost predicate RequiredPassed(cases: seq<Contract.Case>, supported: seq<string>, results: seq<CaseResult>) {
    AllRequiredPass(RequiredIds(cases, supported), results)
  }

  ghost predicate EvidenceMatches(tools: Tools, report: Report) {
    && report.evidenceDigest == tools.sha256(CanonicalJson(EvidenceJson(report.evidence)))
    && Distinct(EvidencePairs(report.evidence))
    && multiset(EvidencePairs(report.evidence)) == multiset(ExpectedPairs(report.results))
  }

  /** The validator accepts exactly the reports meeting these order-free conditions. */
  ghost predicate Acceptable(tools: Tools, digest: string, cases: seq<Contract.Case>, report: Report) {
    && Shape(report) && report.contractDigest == digest && !tools.leaks(report)
    && IdsMatch(cases, report.sdk.supportedProtocols, ResultIds(report.results))
    && RequiredPassed(cases, report.sdk.supportedProtocols, report.results)
    && ProtocolsMatch(cases, report.sdk.supportedProtocols, report.results)
    && EvidenceMatches(tools, report)
    && report.summary == SummaryOf(report.results)
  }

  lemma {:induction false} ProtocolCheckIff(cases: seq<Contract.Case>, supported: seq<string>, results: seq<CaseResult>)
    ensures Contract.FirstFailure((r: CaseResult) => CheckProtocols(ById(cases), supported, r), results).None?
       <==> ProtocolsMatch(cases, supported, results)
  {
    forall r | r in results
      ensures CheckProtocols(ById(cases), supported, r).None? <==> ResultProtocolsMatch(cases, supported, r)
    {
      if r.caseId in ById(cases) {
        SameProtocolsIff(r.protocols, Intersect(ById(cases)[r.caseId].protocols, supported));
      }
    }
  }

  /** No check raises exactly when all of them hold, and then the report itself is returned. */
  lemma {:induction false} ChecksHoldIff(digest: string, cases: seq<Contract.Case>, report: Report,
      evidenceDigest: string, leaks: bool)
    ensures var supported, ids := report.sdk.supportedProtocols, ResultIds(report.results);
      CheckRecord(digest, cases, report, evidenceDigest, leaks) == Ok(report) <==>
        && Shape(report) && report.contractDigest == digest && !leaks && IdsMatch(cases, supported, ids)
        && RequiredPassed(cases, supported, report.results)
        && Contract.FirstFailure((r: CaseResult) => CheckProtocols(ById(cases), supported, r), report.results).None?
        && report.evidenceDigest == evidenceDigest && Distinct(EvidencePairs(report.evidence))
        && Sort(PairLeq, EvidencePairs(report.evidence)) == Sort(PairLeq, ExpectedPairs(report.results))
        && report.summary == SummaryOf(report.results)
    ensures CheckRecord(digest, cases, report, evidenceDigest, leaks).Ok? ==>
      CheckRecord(digest, cases, report, evidenceDigest, leaks) == Ok(report)
  {
  }

  lemma {:induction false} AcceptanceIff(tools: Tools, digest: string, cases: seq<Contract.Case>, report: Report)
    ensures ValidateReport(tools, digest, cases, report).Ok? <==> Acceptable(tools, digest, cases, report)
    ensures ValidateReport(tools, digest, cases, report).Ok? ==>
      ValidateReport(tools, digest, cases, report).value == report
  {
    ChecksHoldIff(digest, cases, report, tools.sha256(CanonicalJson(EvidenceJson(report.evidence))),
      tools.leaks(report));
    ProtocolCheckIff(cases, report.sdk.supportedProtocols, report.results);
    SamePairsIff(EvidencePairs(report.evidence), ExpectedPairs(report.results));
  }

  /**
   * In an accepted report, evidence for a case over a protocol exists exactly when the case is
   * reported, runs over the protocol in the contract, and the SDK supports the protocol.
   */
  lemma {:induction false} AcceptedReportBindsEvidence(tools: Tools, digest: string, cases: seq<Contract.Case>,
      report: Report, c: Contract.Case, protocol: string)
    requires Distinct(Contract.Ids(cases)) && c in cases
    requires ValidateReport(tools, digest, cases, report).Ok?
    ensures (c.id, protocol) in EvidencePairs(report.evidence)
       <==> c.id in ResultIds(report.results) && protocol in c.protocols && protocol in report.sdk.supportedProtocols
  {
    AcceptanceIff(tools, digest, cases, report);
    BoundEvidence(cases, report.sdk.supportedProtocols, report.results, EvidencePairs(report.evidence), c, protocol);
  }

  lemma {:induction false} BoundEvidence(cases: seq<Contract.Case>, supported: seq<string>, results: seq<CaseResult>,
      pairs: seq<(string, string)>, c: Contract.Case, protocol: string)
    requires Distinct(Contract.Ids(cases)) && c in cases
    requires ProtocolsMatch(cases, supported, results)
    requires multiset(pairs) == multiset(ExpectedPairs(results))
    ensures (c.id, protocol) in pairs <==>
      c.id in ResultIds(results) && protocol in c.protocols && protocol in supported
  {
    var expected := ExpectedPairs(results);
    assert (c.id, protocol) in pairs <==> (c.id, protocol) in multiset(pairs);
    assert (c.id, protocol) in expected <==> (c.id, protocol) in multiset(expected);
    ExpectedPairsMember(results, c.id, protocol);
    forall r | r in results && r.caseId == c.id
      ensures protocol in r.protocols <==> protocol in c.protocols && protocol in supported
    {
      ByIdOf(cases, c);
      assert protocol in r.protocols <==> protocol in multiset(r.protocols);
      assert protocol in Intersect(c.protocols, supported) <==> protocol in multiset(Intersect(c.protocols, supported));
    }
    if c.id in ResultIds(results) {
      var i :| 0 <= i < |results| && ResultIds(results)[i] == c.id;
      assert results[i] in results;
    }
  }

  lemma {:induction false} ExpectedPairsMember(results: seq<CaseResult>, id: string, protocol: string)
    ensures (id, protocol) in ExpectedPairs(results) <==>
      exists r :: r in results && r.caseId == id && protocol in r.protocols
  {
    var lists := Map(ResultPairs, results);
    if (id, protocol) in ExpectedPairs(results) {
      var i :| 0 <= i < |lists| && (id, protocol) in lists[i];
      assert lists[i] == ResultPairs(results[i]);
      var j :| 0 <= j < |lists[i]| && lists[i][j] == (id, protocol);
      assert results[i].protocols[j] == protocol;
      assert results[i] in results;
    }
    if r :| r in results && r.caseId == id && protocol in r.protocols {
      var i :| 0 <= i < |results| && results[i] == r;
      var j :| 0 <= j < |r.protocols| && r.protocols[j] == protocol;
      assert lists[i][j] == (id, protocol);
      assert (id, protocol) in lists[i];
    }
  }

  /** In an accepted report every required case that shares a protocol with the SDK is reported as passed. */
  lemma {:induction false} AcceptedReportPassesRequired(tools: Tools, digest: string, cases: seq<Contract.Case>,
      report: Report, c: Contract.Case, p: string)
    requires ValidateReport(tools, digest, cases, report).Ok?
    requires c in cases && c.required
    requires p in c.protocols && p in report.sdk.supportedProtocols
    ensures exists r :: r in report.results && r.caseId == c.id && r.status == "passed"
  {
    AcceptanceIff(tools, digest, cases, report);
    RequiredIdOf(cases, report.sdk.supportedProtocols, c, p);
    assert c.id in ResultIds(report.results);
    var i :| 0 <= i < |report.results| && ResultIds(report.results)[i] == c.id;
    assert report.results[i] in report.results;
  }

  lemma {:induction false} RequiredIdOf(cases: seq<Contract.Case>, supported: seq<string>, c: Contract.Case, p: string)
    requires c in cases && c.required && p in c.protocols && p in supported
    ensures c.id in RequiredIds(cases, supported)
  {
    assert p in Intersect(c.protocols, supported);
    var required := Contract.Required(Applicable(cases, supported));
    assert c in required;
    var k :| 0 <= k < |required| && required[k] == c;
    assert Contract.Ids(required)[k] == c.id;
  }
}
