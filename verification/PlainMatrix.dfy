/** What the matrix script asks across reports, in terms of reports, cases and evidence entries alone. */
module PlainMatrix {
  import opened Prelude
  import opened Sorting
  import opened Contract
  import opened Reports
  import opened Matrix

  // ---------------------------------------------------------------- the conditions

  /** The manifest entry stands for the report's SDK. */
  predicate StandsForReport(runner: Runner, report: Report) {
    && report.sdk.name == runner.name
    && report.sdk.language == runner.language
    && multiset(report.sdk.supportedProtocols) == multiset(runner.protocols)
  }

  function OwnReports(runner: Runner, reports: seq<Report>): set<int> {
    set i | 0 <= i < |reports| && StandsForReport(runner, reports[i])
  }

  ghost predicate CountsPlain(runners: seq<Runner>, reports: seq<Report>) {
    forall runner :: runner in runners ==> |OwnReports(runner, reports)| == runner.requiredReports
  }

  ghost predicate PassedPlain(reports: seq<Report>) {
    forall report :: report in reports ==>
      && report.summary.failed == 0 && report.summary.skipped == 0
      && forall r :: r in report.results ==> r.status == "passed"
  }

  /** Some report has evidence for the case over the protocol. */
  ghost predicate Seen(reports: seq<Report>, id: string, p: string) {
    exists report, e :: report in reports && e in report.evidence && e.caseId == id && e.protocol == p
  }

  ghost predicate RequiredSeen(cases: seq<Case>, reports: seq<Report>) {
    forall c, p :: c in cases && c.required && p in c.protocols ==> Seen(reports, c.id, p)
  }

  /** The case asks for the same result over every protocol. */
  ghost predicate AsksEquivalence(c: Case) {
    c.expected.Success? && "protocolResultsEquivalent" in c.expected.semantics
  }

  ghost predicate FirstParity(cases: seq<Case>, i: int) {
    0 <= i < |cases| && AsksEquivalence(cases[i]) && forall j :: 0 <= j < i ==> !AsksEquivalence(cases[j])
  }

  /** There is a parity case; the first one is seen over exactly its protocols, which are different. */
  ghost predicate ParitySeen(cases: seq<Case>, reports: seq<Report>) {
    exists i :: FirstParity(cases, i) && Distinct(cases[i].protocols) && SeenOver(cases[i], reports)
  }

  ghost predicate SeenOver(c: Case, reports: seq<Report>) {
    forall p :: p in c.protocols <==> Seen(reports, c.id, p)
  }

  ghost predicate Plain(runners: seq<Runner>, cases: seq<Case>, reports: seq<Report>) {
    && reports != [] && |reports| == TotalRequired(runners)
    && CountsPlain(runners, reports)
    && PassedPlain(reports)
    && (forall a, b :: a in reports && b in reports ==>
      a.apiVersion == b.apiVersion && a.datasetVersion == b.datasetVersion && a.contractDigest == b.contractDigest)
    && RequiredSeen(cases, reports)
    && ParitySeen(cases, reports)
  }

  // ---------------------------------------------------------------- counts

  lemma {:induction false} ClaimsPlain(runner: Runner, report: Report)
    ensures Claims(runner, report) <==> StandsForReport(runner, report)
  {
    SameProtocolsIff(report.sdk.supportedProtocols, runner.protocols);
  }

  lemma {:induction false} OwnSnoc(runner: Runner, reports: seq<Report>)
    requires |reports| > 0
    ensures var last := |reports| - 1;
      |OwnReports(runner, reports)| ==
        |OwnReports(runner, reports[..last])| + (if StandsForReport(runner, reports[last]) then 1 else 0)
  {
    var last := |reports| - 1;
    assert OwnReports(runner, reports) ==
      OwnReports(runner, reports[..last]) + (if StandsForReport(runner, reports[last]) then {last} else {});
  }

  lemma {:induction false} ClaimedAre(runner: Runner, reports: seq<Report>)
    ensures |Claimed(runner, reports)| == |OwnReports(runner, reports)|
  {
    if |reports| == 0 {
      assert OwnReports(runner, reports) == {};
    } else {
      var last := |reports| - 1;
      ClaimedAre(runner, reports[..last]);
      OwnSnoc(runner, reports);
      ClaimsPlain(runner, reports[last]);
      ClaimedSnoc(runner, reports[..last], reports[last]);
      assert reports == reports[..last] + [reports[last]];
    }
  }

  lemma {:induction false} ClaimedSnoc(runner: Runner, reports: seq<Report>, last: Report)
    ensures Claimed(runner, reports + [last]) ==
      Claimed(runner, reports) + (if Claims(runner, last) then [last] else [])
  {
    FilterAppend((report: Report) => Claims(runner, report), reports, [last]);
    FilterOne((report: Report) => Claims(runner, report), last);
  }

  lemma {:induction false} CountsIffPlain(runners: seq<Runner>, reports: seq<Report>)
    ensures CountsRight(runners, reports) <==> CountsPlain(runners, reports)
  {
    forall runner | runner in runners ensures |Claimed(runner, reports)| == |OwnReports(runner, reports)| {
      ClaimedAre(runner, reports);
    }
  }

  // ---------------------------------------------------------------- evidence

  lemma {:induction false} ObservedSeen(reports: seq<Report>, id: string, p: string)
    ensures (id, p) in ObservedPairs(reports) <==> Seen(reports, id, p)
  {
    ObservedIff(reports, (id, p));
    if i :| 0 <= i < |reports| && (id, p) in EvidencePairs(reports[i].evidence) {
      var evidence := reports[i].evidence;
      var k :| 0 <= k < |evidence| && EvidencePairs(evidence)[k] == (id, p);
      assert evidence[k] in evidence && reports[i] in reports;
    }
    if report, e :| report in reports && e in report.evidence && e.caseId == id && e.protocol == p {
      var i :| 0 <= i < |reports| && reports[i] == report;
      var k :| 0 <= k < |report.evidence| && report.evidence[k] == e;
      assert EvidencePairs(report.evidence)[k] == (id, p);
    }
  }

  lemma {:induction false} RequiredPairIs(cases: seq<Case>, pair: (string, string)) returns (c: Case)
    requires pair in RequiredPairs(cases)
    ensures c in cases && c.required && c.id == pair.0 && pair.1 in c.protocols
  {
    var required := Required(cases);
    var lists := Map(CasePairs, required);
    var i :| 0 <= i < |lists| && pair in lists[i];
    var j :| 0 <= j < |lists[i]| && lists[i][j] == pair;
    c := required[i];
    assert c in required && c.protocols[j] == pair.1;
  }

  lemma {:induction false} CoveredIffSeen(cases: seq<Case>, reports: seq<Report>)
    ensures Covered(RequiredPairs(cases), ObservedPairs(reports)) <==> RequiredSeen(cases, reports)
  {
    if Covered(RequiredPairs(cases), ObservedPairs(reports)) {
      forall c, p | c in cases && c.required && p in c.protocols ensures Seen(reports, c.id, p) {
        RequiredPairOf(cases, c, p);
        ObservedSeen(reports, c.id, p);
      }
    }
    if RequiredSeen(cases, reports) {
      forall pair | pair in RequiredPairs(cases) ensures pair in ObservedPairs(reports) {
        var c := RequiredPairIs(cases, pair);
        ObservedSeen(reports, c.id, pair.1);
        assert pair == (c.id, pair.1);
      }
    }
  }

  // ---------------------------------------------------------------- parity

  lemma {:induction false} ParityIs(c: Case)
    ensures IsParity(c) <==> AsksEquivalence(c)
  {
  }

  lemma {:induction false} FirstOf(cases: seq<Case>)
    ensures var parity := Filter(IsParity, cases);
      if parity == [] then forall i :: 0 <= i < |cases| ==> !AsksEquivalence(cases[i])
      else exists i :: FirstParity(cases, i) && cases[i] == parity[0]
  {
    if |cases| > 0 {
      ParityIs(cases[0]);
      if AsksEquivalence(cases[0]) {
        assert FirstParity(cases, 0);
      } else {
        var rest := cases[1..];
        FirstOf(rest);
        assert forall i :: 1 <= i < |cases| ==> cases[i] == rest[i - 1];
        if Filter(IsParity, rest) != [] {
          var i :| FirstParity(rest, i) && rest[i] == Filter(IsParity, rest)[0];
          assert FirstParity(cases, i + 1);
        }
      }
    }
  }

  lemma {:induction false} ParityIffSeen(cases: seq<Case>, reports: seq<Report>)
    ensures ParityShown(cases, ObservedPairs(reports)) <==> ParitySeen(cases, reports)
  {
    var parity := Filter(IsParity, cases);
    FirstOf(cases);
    if parity != [] {
      var first := parity[0];
      var k :| FirstParity(cases, k) && cases[k] == first;
      forall p ensures (first.id, p) in ObservedPairs(reports) <==> Seen(reports, first.id, p) {
        ObservedSeen(reports, first.id, p);
      }
      assert forall i :: FirstParity(cases, i) ==> i == k;
    }
  }

  // ---------------------------------------------------------------- main result

  /** The checks across reports accept exactly the matrices that meet the plain conditions. */
  lemma {:induction false} CheckedIffPlain(runners: seq<Runner>, cases: seq<Case>, reports: seq<Report>)
    ensures CheckReports(runners, cases, reports).Ok? <==> Plain(runners, cases, reports)
  {
    CheckedIffComplete(runners, cases, reports);
    CountsIffPlain(runners, reports);
    CoveredIffSeen(cases, reports);
    ParityIffSeen(cases, reports);
  }
}
