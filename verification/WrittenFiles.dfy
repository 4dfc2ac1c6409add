/**
 * From SDK runs to the verdict on the files they wrote: each runner process writes its report as
 * JSON, and the matrix script reads the directory back.
 *
 * A written report is well formed, is taken for a report, is read back as the record it was, and
 * is acceptable as a file exactly when it is acceptable as a record. So the script's verdict on
 * the directory is its verdict on the records, which the runs decide.
 */
module WrittenFiles {
  import opened Prelude
  import opened Json
  import opened SchemaValidator
  import opened Contract
  import opened Reports
  import opened ReportSchema
  import opened ReportReading
  import opened ReportDocuments
  import opened Matrix
  import opened MatrixFiles
  import PA = PlainAcceptance
  import PM = PlainMatrix
  import RA = RunnerAcceptance
  import E = EndToEnd

  // ---------------------------------------------------------------- what a runner writes

  lemma {:induction false} RecordWellFormed(properties: seq<Property>, values: seq<Json>)
    requires UniqueNames(properties) && |values| <= |properties|
    requires forall i :: 0 <= i < |values| ==> WellFormed(values[i])
    ensures WellFormed(Record(properties, values))
  {
    var fields := RecordFields(properties, values);
    forall i, j | 0 <= i < j < |fields| ensures Keys(fields)[i] != Keys(fields)[j] {
      assert properties[i].name != properties[j].name;
    }
  }

  lemma {:induction false} StringsWellFormed(s: seq<string>)
    ensures WellFormed(Arr(Strings(s)))
  {
  }

  lemma {:induction false} PartsWellFormed(r: Report)
    ensures WellFormed(ContractJson(r.contractDigest, r.runnerVersion))
    ensures WellFormed(SdkJson(r.sdk)) && WellFormed(SummaryJson(r.summary))
  {
    ContractNames();
    RecordWellFormed(CONTRACT_PROPERTIES, ContractValues(r.contractDigest, r.runnerVersion));
    SdkNames();
    StringsWellFormed(r.sdk.supportedProtocols);
    RecordWellFormed(SDK_PROPERTIES, SdkValues(r.sdk));
    SummaryNames();
    RecordWellFormed(SUMMARY_PROPERTIES, SummaryValues(r.summary));
  }

  lemma {:induction false} ListsWellFormed(evidence: seq<Evidence>, results: seq<CaseResult>)
    ensures WellFormed(Arr(Map(EntryJson, evidence))) && WellFormed(Arr(Map(ResultJson, results)))
  {
    forall i | 0 <= i < |evidence| ensures WellFormed(Map(EntryJson, evidence)[i]) {
      EntryNames();
      RecordWellFormed(EVIDENCE_PROPERTIES, EntryValues(evidence[i]));
    }
    forall i | 0 <= i < |results| ensures WellFormed(Map(ResultJson, results)[i]) {
      ResultNames();
      StringsWellFormed(results[i].protocols);
      RecordWellFormed(RESULT_PROPERTIES, ResultValues(results[i]));
    }
  }

  lemma {:induction false} WrittenWellFormed(r: Report)
    ensures WellFormed(ReportJson(r))
  {
    PartsWellFormed(r);
    ListsWellFormed(r.evidence, r.results);
    ReportNames();
    RecordWellFormed(REPORT_PROPERTIES, ReportValues(Int(r.schemaVersion), r));
  }

  function WrittenFile(r: Report): File { Parsed(ReportJson(r)) }

  /** The record checks that scan a report's JSON for secrets. */
  function WrittenTools(s: Setting): Tools { Tools(s.sha256, (r: Report) => s.leaks(ReportJson(r))) }

  // ---------------------------------------------------------------- reading it back

  lemma {:induction false} WrittenTaken(s: Setting, r: Report)
    requires r.schemaVersion == 2
    ensures TakenForReport(s, ReportJson(r)) == Some(true) && ReadReport(ReportJson(r)) == r
  {
    var v := ReportJson(r);
    WrittenWellFormed(r);
    SameItself(v);
    ReportMembers(v, Int(2), r);
    ReadBack(v, Int(2), r);
  }

  lemma {:induction false} SameTools(s: Setting, digest: string, cases: seq<Case>, r: Report)
    ensures PA.Plain(ToolsFor(s, ReportJson(r)), digest, cases, r) <==> PA.Plain(WrittenTools(s), digest, cases, r)
  {
  }

  lemma {:induction false} WrittenHolds(s: Setting, digest: string, cases: seq<Case>, r: Report)
    requires ValidateReport(WrittenTools(s), digest, cases, r).Ok?
    ensures Holds(s, digest, cases, ReportJson(r), r)
  {
    PA.AcceptedIffPlain(WrittenTools(s), digest, cases, r);
    WrittenWellFormed(r);
    SameItself(ReportJson(r));
    assert IsReport(s.d, ReportJson(r), Int(2), r);
    SameTools(s, digest, cases, r);
  }

  lemma {:induction false} HeldIsWritten(s: Setting, digest: string, cases: seq<Case>, r: Report, q: Report)
    requires Holds(s, digest, cases, ReportJson(r), q) && r.schemaVersion == 2
    ensures ValidateReport(WrittenTools(s), digest, cases, r).Ok?
  {
    WrittenWellFormed(r);
    WrittenTaken(s, r);
    JsonAcceptedIff(s, digest, cases, ReportJson(r));
    SameTools(s, digest, cases, r);
    PA.AcceptedIffPlain(WrittenTools(s), digest, cases, r);
  }

  lemma {:induction false} NoneHeld(s: Setting, digest: string, cases: seq<Case>, r: Report)
    requires r.schemaVersion == 2 && ValidateReport(WrittenTools(s), digest, cases, r).Err?
    ensures forall q :: !Holds(s, digest, cases, ReportJson(r), q)
  {
    forall q ensures !Holds(s, digest, cases, ReportJson(r), q) {
      if Holds(s, digest, cases, ReportJson(r), q) {
        HeldIsWritten(s, digest, cases, r, q);
      }
    }
  }

  lemma {:induction false} AcceptedIsFine(s: Setting, digest: string, cases: seq<Case>, r: Report)
    requires ValidateReport(WrittenTools(s), digest, cases, r).Ok?
    ensures Fine(s, digest, cases, WrittenFile(r))
  {
    WrittenHolds(s, digest, cases, r);
    assert HoldsReport(s, digest, cases, WrittenFile(r), r);
  }

  lemma {:induction false} RejectedIsNotFine(s: Setting, digest: string, cases: seq<Case>, r: Report)
    requires r.schemaVersion == 2 && ValidateReport(WrittenTools(s), digest, cases, r).Err?
    ensures !Fine(s, digest, cases, WrittenFile(r))
  {
    WrittenTaken(s, r);
    NoneHeld(s, digest, cases, r);
  }

  /** The file a report was written to is acceptable exactly when the record is. */
  lemma {:induction false} WrittenFine(s: Setting, digest: string, cases: seq<Case>, r: Report)
    requires r.schemaVersion == 2
    ensures Fine(s, digest, cases, WrittenFile(r)) <==> ValidateReport(WrittenTools(s), digest, cases, r).Ok?
  {
    if ValidateReport(WrittenTools(s), digest, cases, r).Ok? {
      AcceptedIsFine(s, digest, cases, r);
    } else {
      RejectedIsNotFine(s, digest, cases, r);
    }
  }

  /** If every document is taken for a report, those taken are all there are. */
  lemma {:induction false} AllTaken(reader: Reader, documents: seq<Json>)
    requires forall i :: 0 <= i < |documents| ==> reader.taken(documents[i]) == Some(true)
    ensures Taken(reader, Map((v: Json) => Parsed(v), documents)) == documents
  {
    if |documents| > 0 {
      AllTaken(reader, documents[1..]);
      assert Map((v: Json) => Parsed(v), documents)[1..] == Map((v: Json) => Parsed(v), documents[1..]);
    }
  }

  lemma {:induction false} WrittenReports(s: Setting, digest: string, cases: seq<Case>, reports: seq<Report>)
    requires forall i :: 0 <= i < |reports| ==> reports[i].schemaVersion == 2
    ensures ReportsIn(s, digest, cases, Map(WrittenFile, reports)) == reports
  {
    var documents := Map(ReportJson, reports);
    forall i | 0 <= i < |reports|
      ensures TakenForReport(s, documents[i]) == Some(true) && ReadReport(documents[i]) == reports[i]
    {
      WrittenTaken(s, reports[i]);
    }
    AllTaken(ReaderOf(s, digest, cases), documents);
    assert Map((v: Json) => Parsed(v), documents) == Map(WrittenFile, reports);
  }

  lemma {:induction false} AllFine(s: Setting, digest: string, cases: seq<Case>, reports: seq<Report>)
    requires forall i :: 0 <= i < |reports| ==> reports[i].schemaVersion == 2
    ensures (forall f :: f in Map(WrittenFile, reports) ==> Fine(s, digest, cases, f)) <==>
      forall i :: 0 <= i < |reports| ==> ValidateReport(WrittenTools(s), digest, cases, reports[i]).Ok?
  {
    var files := Map(WrittenFile, reports);
    forall i | 0 <= i < |reports|
      ensures Fine(s, digest, cases, files[i]) <==> ValidateReport(WrittenTools(s), digest, cases, reports[i]).Ok?
    {
      WrittenFine(s, digest, cases, reports[i]);
    }
    assert (forall f :: f in files ==> Fine(s, digest, cases, f)) <==>
      forall i :: 0 <= i < |files| ==> Fine(s, digest, cases, files[i]);
  }

  lemma {:induction false} RecordsAcceptedIff(tools: Tools, digest: string, inventory: seq<Operation>,
      errors: seq<CatalogError>, cases: seq<Case>, runners: seq<Runner>, reports: seq<Report>)
    ensures ValidateMatrix(tools, digest, inventory, errors, cases, runners, E.Written(reports)).Ok? <==>
      && reports != [] && Contract.Validate(inventory, errors, cases).Ok?
      && (forall i :: 0 <= i < |reports| ==> ValidateReport(tools, digest, cases, reports[i]).Ok?)
      && PM.Plain(runners, cases, reports)
  {
    ValidatorUnchanging(tools, digest, cases);
    E.WrittenAccepted(ReportValidator(tools, digest, cases), reports);
    AcceptedMatrixIff(tools, digest, inventory, errors, cases, runners, E.Written(reports));
    PM.CheckedIffPlain(runners, cases, reports);
  }

  /** The script's verdict on written reports is its verdict on the records. */
  lemma {:induction false} FilesAsRecords(s: Setting, digest: string, inventory: seq<Operation>,
      errors: seq<CatalogError>, cases: seq<Case>, runners: seq<Runner>, reports: seq<Report>)
    requires forall i :: 0 <= i < |reports| ==> reports[i].schemaVersion == 2
    ensures ValidateFiles(s, digest, inventory, errors, cases, runners, Map(WrittenFile, reports)).Ok? <==>
      ValidateMatrix(WrittenTools(s), digest, inventory, errors, cases, runners, E.Written(reports)).Ok?
  {
    var files := Map(WrittenFile, reports);
    forall i | 0 <= i < |files| ensures WellFormed(files[i].v) {
      WrittenWellFormed(reports[i]);
    }
    FilesAcceptedIff(s, digest, inventory, errors, cases, runners, files);
    WrittenReports(s, digest, cases, reports);
    AllFine(s, digest, cases, reports);
    RecordsAcceptedIff(WrittenTools(s), digest, inventory, errors, cases, runners, reports);
  }

  /**
   * Adapters run over an accepted contract, each run writes its report to a file, and the script
   * reads the directory: it accepts under exactly the conditions on adapters, runs and manifest
   * that decide it for the records.
   */
  lemma {:induction false} FilesOfRuns(s: Setting, digest: string, inventory: seq<Operation>,
      errors: seq<CatalogError>, cases: seq<Case>, checked: seq<Case>, runners: seq<Runner>,
      adapters: seq<E.Adapter>, reports: seq<Report>)
    requires Contract.Validate(inventory, errors, checked).Ok?
    requires RA.WellFormedCases(cases) && multiset(cases) == multiset(checked)
    requires E.Ran(digest, cases, adapters, reports)
    requires forall i :: 0 <= i < |adapters| ==>
      RA.CollationAgrees(adapters[i].harness.collate) && s.sha256 == adapters[i].harness.sha256
    ensures ValidateFiles(s, digest, inventory, errors, checked, runners, Map(WrittenFile, reports)).Ok? <==>
      && adapters != [] && E.ManifestMet(runners, adapters)
      && E.AllFit(WrittenTools(s), cases, adapters, reports) && E.OneApiVersion(reports)
      && E.RequiredSupported(checked, adapters) && E.ParitySupported(checked, adapters)
  {
    E.RanVersion(digest, cases, adapters, reports);
    FilesAsRecords(s, digest, inventory, errors, checked, runners, reports);
    E.MatrixOfRuns(WrittenTools(s), digest, inventory, errors, cases, checked, runners, adapters, reports);
  }
}
