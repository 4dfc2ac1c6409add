/**
 * One accepted matrix, spelled out: one operation, one case, which is also the parity case, one
 * manifest entry, and one report. Every check of the contract, of the report and across reports is
 * shown to pass, so the whole script accepts.
 *
 * Then its manifest entry is listed twice, and the script accepts a stranger along with the report.
 */
module MatrixExample {
  import opened Prelude
  import opened Contract
  import opened Reports
  import opened Matrix

  const DIGEST: string := seq(64, i => 'a')

  const TOOLS := Tools((text: string) => DIGEST, (report: Report) => false)

  const INVENTORY := [Operation("getRegion", {"rest"})]

  const CASE := Case("region", "getRegion", true, ["rest"],
    Success(Quota("cheap", Some(1), None, None), ["protocolResultsEquivalent"]))

  const ENTRY := Runner("ghanageo", "go", ["rest"], 1)

  const REPORT := Report(2, DIGEST, "1.0.0", Sdk("go", "ghanageo", "1", ["rest"]), "v1", "2026",
    Summary(1, 0, 0), DIGEST, [Evidence("region", "rest", DIGEST, DIGEST)],
    [CaseResult("region", "passed", ["rest"], None)])

  lemma {:induction false} InventoryHolds()
    ensures Index(INVENTORY) == map["getRegion" := Operation("getRegion", {"rest"})]
  {
    assert INVENTORY[..0] == [] && Index([]) == map[];
  }

  lemma {:induction false} OperationsHold()
    ensures OperationsCovered(INVENTORY, [CASE])
  {
    InventoryHolds();
    assert RunsOperation(CASE, [CASE], "getRegion") && CoversPair(CASE, [CASE], "getRegion", "rest");
  }

  lemma {:induction false} ContractHolds()
    ensures Validate(INVENTORY, [], [CASE]).Ok?
  {
    InventoryHolds();
    OperationsHold();
    assert CASE in [CASE] && AllClaimsSupported(INVENTORY, [CASE]);
    assert Catalog([]) == map[] && ErrorsCovered([], [CASE]);
    AcceptedIffComplete(INVENTORY, [], [CASE]);
  }

  lemma {:induction false} CaseParts()
    ensures Required([CASE]) == [CASE] && Filter(IsParity, [CASE]) == [CASE]
    ensures Applicable([CASE], ["rest"]) == [CASE] && Intersect(["rest"], ["rest"]) == ["rest"]
    ensures Ids([CASE]) == ["region"]
  {
    FilterOne((c: Case) => c.required, CASE);
    FilterOne(IsParity, CASE);
    assert ["rest"][..0] == [] && Intersect([], ["rest"]) == [];
    FilterOne((c: Case) => Intersect(c.protocols, ["rest"]) != [], CASE);
  }

  lemma {:induction false} ReportParts()
    ensures EvidencePairs(REPORT.evidence) == [("region", "rest")] == ExpectedPairs(REPORT.results)
    ensures ResultIds(REPORT.results) == ["region"]
  {
    var lists := Map(ResultPairs, REPORT.results);
    assert lists[0] == [("region", "rest")] && lists[1..] == [];
    assert Flatten(lists) == lists[0] + Flatten(lists[1..]);
  }

  lemma {:induction false} ReportHolds()
    ensures ValidateReport(TOOLS, DIGEST, [CASE], REPORT).Ok?
  {
    CaseParts();
    ReportParts();
    ShapeHolds();
    SummaryHolds();
    ByIdOf([CASE], CASE);
    AcceptanceIff(TOOLS, DIGEST, [CASE], REPORT);
  }

  lemma {:induction false} SummaryHolds()
    ensures SummaryOf(REPORT.results) == REPORT.summary
  {
    FilterOne((r: CaseResult) => r.status == "passed", REPORT.results[0]);
    FilterOne((r: CaseResult) => r.status == "failed", REPORT.results[0]);
    FilterOne((r: CaseResult) => r.status == "skipped", REPORT.results[0]);
  }

  lemma {:induction false} ShapeHolds()
    ensures Shape(REPORT)
  {
    assert DIGEST[0..64] == DIGEST && HexLineAt(DIGEST, 0);
    assert IsDigest(DIGEST) && ProtocolList(["rest"]);
  }

  lemma {:induction false} PairsHold()
    ensures forall pair :: pair in ObservedPairs([REPORT]) <==> pair == ("region", "rest")
    ensures RequiredPairs([CASE]) == [("region", "rest")]
  {
    CaseParts();
    ReportParts();
    forall pair ensures pair in ObservedPairs([REPORT]) <==> pair == ("region", "rest") {
      ObservedIff([REPORT], pair);
    }
    var lists := Map(CasePairs, [CASE]);
    assert lists[0] == [("region", "rest")] && lists[1..] == [];
    assert Flatten(lists) == lists[0] + Flatten(lists[1..]);
  }

  lemma {:induction false} CountHolds()
    ensures CountsRight([ENTRY], [REPORT]) && TotalRequired([ENTRY]) == 1
  {
    FilterOne((report: Report) => Claims(ENTRY, report), REPORT);
    TotalsOf(ENTRY);
  }

  lemma {:induction false} ChecksHold()
    ensures CheckReports([ENTRY], [CASE], [REPORT]).Ok?
  {
    CountHolds();
    PairsHold();
    FilterOne(IsParity, CASE);
    assert ParityShown([CASE], ObservedPairs([REPORT]));
    assert AllPassed(REPORT) && Uniform([REPORT]);
    CheckedIffComplete([ENTRY], [CASE], [REPORT]);
  }

  /** The matrix of one report is accepted, and so is the one in which a stranger fills the second place. */
  lemma {:induction false} EqualRunnersExample()
    ensures var documents := [ReportDocument(REPORT), ReportDocument(Renamed(REPORT, "stranger"))];
      ValidateMatrix(TOOLS, DIGEST, INVENTORY, [], [CASE], [ENTRY, ENTRY], documents).Ok?
    ensures ClaimantCount([ENTRY, ENTRY], Renamed(REPORT, "stranger")) == 0
  {
    ContractHolds();
    ReportHolds();
    ChecksHold();
    ValidatorUnchanging(TOOLS, DIGEST, [CASE]);
    TwoDocuments(ReportValidator(TOOLS, DIGEST, [CASE]), REPORT, REPORT);
    AcceptedMatrixIff(TOOLS, DIGEST, INVENTORY, [], [CASE], [ENTRY], [ReportDocument(REPORT)]);
    EqualRunnersHideStranger(TOOLS, DIGEST, INVENTORY, [], [CASE], ENTRY, REPORT, "stranger");
  }
}
