/**
 * What the report checks read of a report's JSON, by key. Reading undoes writing, record by record
 * and list by list, whatever order the members come in: a document holds at most one report, and
 * the report is what the checks see.
 */
module ReportReading {
  import opened Prelude
  import opened Json
  import opened SchemaValidator
  import opened Reports
  import opened ReportSchema
  import Contract

  // ---------------------------------------------------------------- reading by key

  /** The value of a key that is there. */
  function Get(fields: seq<Member>, key: string): Json
    requires key in Keys(fields)
  {
    if fields[0].key == key then fields[0].value
    else
      assert key in Keys(fields[1..]) by {
        var i :| 0 <= i < |fields| && Keys(fields)[i] == key;
        assert Keys(fields[1..])[i - 1] == key;
      }
      Get(fields[1..], key)
  }

  lemma {:induction false} GetIs(fields: seq<Member>, key: string) returns (i: nat)
    requires key in Keys(fields)
    ensures i < |fields| && fields[i] == Member(key, Get(fields, key))
  {
    if fields[0].key == key {
      i := 0;
    } else {
      var k :| 0 <= k < |fields| && Keys(fields)[k] == key;
      assert Keys(fields[1..])[k - 1] == key;
      i := GetIs(fields[1..], key);
      i := i + 1;
    }
  }

  lemma {:induction false} GetAt(fields: seq<Member>, i: nat)
    requires Distinct(Keys(fields)) && i < |fields|
    ensures fields[i].key in Keys(fields) && Get(fields, fields[i].key) == fields[i].value
  {
    assert Keys(fields)[i] == fields[i].key;
    var k := GetIs(fields, fields[i].key);
    assert Keys(fields)[k] == Keys(fields)[i];
  }

  /** `nil` is `Null`. */
  function At(v: Json, key: string): Json {
    if v.Obj? && key in Keys(v.fields) then Get(v.fields, key) else Null
  }

  function AsText(v: Json): string { if v.Str? then v.s else "" }

  function AsNumber(v: Json): int { if v.Int? then v.n else 0 }

  function AsItems(v: Json): seq<Json> { if v.Arr? then v.items else [] }

  function TextAt(v: Json, key: string): string { AsText(At(v, key)) }

  function NumberAt(v: Json, key: string): int { AsNumber(At(v, key)) }

  function TextsAt(v: Json, key: string): seq<string> { Map(AsText, AsItems(At(v, key))) }

  function ReadSdk(v: Json): Sdk {
    Sdk(TextAt(v, "language"), TextAt(v, "name"), TextAt(v, "version"), TextsAt(v, "supportedProtocols"))
  }

  function ReadSummary(v: Json): Summary {
    Summary(NumberAt(v, "passed"), NumberAt(v, "failed"), NumberAt(v, "skipped"))
  }

  function ReadEntry(v: Json): Evidence {
    Evidence(TextAt(v, "caseId"), TextAt(v, "protocol"), TextAt(v, "requestDigest"), TextAt(v, "responseDigest"))
  }

  function ReadResult(v: Json): CaseResult {
    CaseResult(TextAt(v, "caseId"), TextAt(v, "status"), TextsAt(v, "protocols"),
      if v.Obj? && "message" in Keys(v.fields) then Some(TextAt(v, "message")) else None)
  }

  /** What the checks read of a report that passed the schema. */
  function ReadReport(v: Json): Report {
    Report(2, TextAt(At(v, "contract"), "digest"), TextAt(At(v, "contract"), "runnerVersion"),
      ReadSdk(At(v, "sdk")), TextAt(v, "apiVersion"), TextAt(v, "datasetVersion"), ReadSummary(At(v, "summary")),
      TextAt(v, "evidenceDigest"), Map(ReadEntry, AsItems(At(v, "evidence"))),
      Map(ReadResult, AsItems(At(v, "results"))))
  }

  // ---------------------------------------------------------------- reading what a record was written as

  lemma {:induction false} AtSame(a: Json, b: Json, key: string)
    requires Same(a, b) && b.Obj?
    ensures key in Keys(a.fields) <==> key in Keys(b.fields)
    ensures key in Keys(b.fields) ==> Same(At(a, key), At(b, key))
  {
    if key in Keys(b.fields) {
      var i := GetIs(a.fields, key);
      var j := GetIs(b.fields, key);
      assert a.fields[i].key == b.fields[j].key;
    }
  }

  lemma {:induction false} RecordHas(properties: seq<Property>, values: seq<Json>, i: nat)
    requires UniqueNames(properties) && |values| <= |properties| && i < |properties|
    ensures var fields := RecordFields(properties, values);
      && (properties[i].name in Keys(fields) <==> i < |values|)
      && (i < |values| ==> Get(fields, properties[i].name) == values[i])
  {
    var fields := RecordFields(properties, values);
    if i < |values| {
      assert Keys(fields)[i] == properties[i].name;
      var k := GetIs(fields, properties[i].name);
      assert fields[k] == Member(properties[k].name, values[k]);
    }
  }

  /** A value that is a record up to member order holds, under each name, the value written there. */
  lemma {:induction false} AtRecord(v: Json, properties: seq<Property>, values: seq<Json>, i: nat)
    requires UniqueNames(properties) && |values| <= |properties| && i < |properties|
    requires Same(v, Record(properties, values))
    ensures v.Obj? && (properties[i].name in Keys(v.fields) <==> i < |values|)
    ensures i < |values| ==> Same(At(v, properties[i].name), values[i])
  {
    RecordHas(properties, values, i);
    AtSame(v, Record(properties, values), properties[i].name);
  }

  lemma {:induction false} ContractNames()
    ensures UniqueNames(CONTRACT_PROPERTIES) && |CONTRACT_PROPERTIES| == 2
    ensures CONTRACT_PROPERTIES[0] == Property("digest", DIGEST)
    ensures CONTRACT_PROPERTIES[1] == Property("runnerVersion", BLANK.(constant := Some(Str("1.0.0"))))
  {
  }

  lemma {:induction false} SdkNames()
    ensures UniqueNames(SDK_PROPERTIES) && |SDK_PROPERTIES| == 4
    ensures SDK_PROPERTIES[0] == Property("language", TEXT) && SDK_PROPERTIES[1] == Property("name", TEXT)
    ensures SDK_PROPERTIES[2] == Property("version", TEXT)
    ensures SDK_PROPERTIES[3] == Property("supportedProtocols", PROTOCOL_LIST)
  {
  }

  lemma {:induction false} SummaryNames()
    ensures UniqueNames(SUMMARY_PROPERTIES) && |SUMMARY_PROPERTIES| == 3
    ensures SUMMARY_PROPERTIES[0] == Property("passed", COUNT) && SUMMARY_PROPERTIES[1] == Property("failed", COUNT)
    ensures SUMMARY_PROPERTIES[2] == Property("skipped", COUNT)
  {
  }

  lemma {:induction false} EntryNames()
    ensures UniqueNames(EVIDENCE_PROPERTIES) && |EVIDENCE_PROPERTIES| == 4
    ensures EVIDENCE_PROPERTIES[0] == Property("caseId", TEXT)
    ensures EVIDENCE_PROPERTIES[1] == Property("protocol", OneOfWords(Contract.PROTOCOLS))
    ensures EVIDENCE_PROPERTIES[2] == Property("requestDigest", DIGEST)
    ensures EVIDENCE_PROPERTIES[3] == Property("responseDigest", DIGEST)
  {
  }

  lemma {:induction false} ResultNames()
    ensures UniqueNames(RESULT_PROPERTIES) && |RESULT_PROPERTIES| == 4
    ensures RESULT_PROPERTIES[0] == Property("caseId", TEXT)
    ensures RESULT_PROPERTIES[1] == Property("status", OneOfWords(STATUSES))
    ensures RESULT_PROPERTIES[2] == Property("protocols", PROTOCOL_LIST)
    ensures RESULT_PROPERTIES[3] == Property("message", ANY_TEXT)
  {
  }

  lemma {:induction false} TextsRead(v: Json, texts: seq<string>)
    requires Same(v, Arr(Strings(texts)))
    ensures Map(AsText, AsItems(v)) == texts
  {
    forall i | 0 <= i < |texts| ensures AsText(v.items[i]) == texts[i] {
      assert Same(v.items[i], Strings(texts)[i]);
    }
  }

  lemma {:induction false} ContractRead(v: Json, digest: string, runnerVersion: string)
    requires Same(v, ContractJson(digest, runnerVersion))
    ensures TextAt(v, "digest") == digest && TextAt(v, "runnerVersion") == runnerVersion
  {
    ContractNames();
    AtRecord(v, CONTRACT_PROPERTIES, ContractValues(digest, runnerVersion), 0);
    AtRecord(v, CONTRACT_PROPERTIES, ContractValues(digest, runnerVersion), 1);
  }

  lemma {:induction false} SdkRead(v: Json, sdk: Sdk)
    requires Same(v, SdkJson(sdk))
    ensures ReadSdk(v) == sdk
  {
    SdkNames();
    AtRecord(v, SDK_PROPERTIES, SdkValues(sdk), 0);
    AtRecord(v, SDK_PROPERTIES, SdkValues(sdk), 1);
    AtRecord(v, SDK_PROPERTIES, SdkValues(sdk), 2);
    AtRecord(v, SDK_PROPERTIES, SdkValues(sdk), 3);
    TextsRead(At(v, "supportedProtocols"), sdk.supportedProtocols);
  }

  lemma {:induction false} SummaryRead(v: Json, s: Summary)
    requires Same(v, SummaryJson(s))
    ensures ReadSummary(v) == s
  {
    SummaryNames();
    AtRecord(v, SUMMARY_PROPERTIES, SummaryValues(s), 0);
    AtRecord(v, SUMMARY_PROPERTIES, SummaryValues(s), 1);
    AtRecord(v, SUMMARY_PROPERTIES, SummaryValues(s), 2);
  }

  lemma {:induction false} EntryRead(v: Json, e: Evidence)
    requires Same(v, EntryJson(e))
    ensures ReadEntry(v) == e
  {
    EntryNames();
    AtRecord(v, EVIDENCE_PROPERTIES, EntryValues(e), 0);
    AtRecord(v, EVIDENCE_PROPERTIES, EntryValues(e), 1);
    AtRecord(v, EVIDENCE_PROPERTIES, EntryValues(e), 2);
    AtRecord(v, EVIDENCE_PROPERTIES, EntryValues(e), 3);
  }

  lemma {:induction false} ResultRead(v: Json, r: CaseResult)
    requires Same(v, ResultJson(r))
    ensures ReadResult(v) == r
  {
    ResultNames();
    AtRecord(v, RESULT_PROPERTIES, ResultValues(r), 0);
    AtRecord(v, RESULT_PROPERTIES, ResultValues(r), 1);
    AtRecord(v, RESULT_PROPERTIES, ResultValues(r), 2);
    AtRecord(v, RESULT_PROPERTIES, ResultValues(r), 3);
    TextsRead(At(v, "protocols"), r.protocols);
  }

  lemma {:induction false} EntriesRead(v: Json, evidence: seq<Evidence>)
    requires Same(v, Arr(Map(EntryJson, evidence)))
    ensures Map(ReadEntry, AsItems(v)) == evidence
  {
    forall i | 0 <= i < |evidence| ensures ReadEntry(v.items[i]) == evidence[i] {
      assert Same(v.items[i], Map(EntryJson, evidence)[i]);
      EntryRead(v.items[i], evidence[i]);
    }
  }

  lemma {:induction false} ResultsRead(v: Json, results: seq<CaseResult>)
    requires Same(v, Arr(Map(ResultJson, results)))
    ensures Map(ReadResult, AsItems(v)) == results
  {
    forall i | 0 <= i < |results| ensures ReadResult(v.items[i]) == results[i] {
      assert Same(v.items[i], Map(ResultJson, results)[i]);
      ResultRead(v.items[i], results[i]);
    }
  }

  /** Each member of a report's JSON, under its name. */
  lemma {:induction false} ReportMembers(v: Json, version: Json, r: Report)
    requires Same(v, ReportForm(version, r))
    ensures v.Obj? && Same(At(v, "contract"), ContractJson(r.contractDigest, r.runnerVersion))
    ensures Same(At(v, "sdk"), SdkJson(r.sdk)) && Same(At(v, "summary"), SummaryJson(r.summary))
    ensures At(v, "apiVersion") == Str(r.apiVersion) && At(v, "datasetVersion") == Str(r.datasetVersion)
    ensures At(v, "evidenceDigest") == Str(r.evidenceDigest)
    ensures Same(At(v, "evidence"), Arr(Map(EntryJson, r.evidence)))
    ensures Same(At(v, "results"), Arr(Map(ResultJson, r.results)))
    ensures Same(At(v, "schemaVersion"), version)
  {
    MemberNames();
    ReportMember(v, version, r, 0);
    ReportMember(v, version, r, 1);
    ReportMember(v, version, r, 2);
    ReportMember(v, version, r, 3);
    ReportMember(v, version, r, 4);
    ReportMember(v, version, r, 5);
    ReportMember(v, version, r, 6);
    ReportMember(v, version, r, 7);
    ReportMember(v, version, r, 8);
  }

  lemma {:induction false} ReportMember(v: Json, version: Json, r: Report, i: nat)
    requires Same(v, ReportForm(version, r)) && i < 9
    ensures |REPORT_PROPERTIES| == 9 && v.Obj?
    ensures Same(At(v, REPORT_PROPERTIES[i].name), ReportValues(version, r)[i])
  {
    ReportNames();
    AtRecord(v, REPORT_PROPERTIES, ReportValues(version, r), i);
  }

  lemma {:induction false} MemberNames()
    ensures |REPORT_PROPERTIES| == 9
    ensures REPORT_PROPERTIES[0].name == "schemaVersion" && REPORT_PROPERTIES[1].name == "contract"
    ensures REPORT_PROPERTIES[2].name == "sdk" && REPORT_PROPERTIES[3].name == "apiVersion"
    ensures REPORT_PROPERTIES[4].name == "datasetVersion" && REPORT_PROPERTIES[5].name == "summary"
    ensures REPORT_PROPERTIES[6].name == "evidenceDigest" && REPORT_PROPERTIES[7].name == "evidence"
    ensures REPORT_PROPERTIES[8].name == "results"
  {
  }

  /** Reading undoes writing, whatever the order of members: a document holds one report at most. */
  lemma {:induction false} ReadBack(v: Json, version: Json, r: Report)
    requires Same(v, ReportForm(version, r)) && r.schemaVersion == 2
    ensures ReadReport(v) == r
  {
    ReportMembers(v, version, r);
    ContractRead(At(v, "contract"), r.contractDigest, r.runnerVersion);
    SdkRead(At(v, "sdk"), r.sdk);
    SummaryRead(At(v, "summary"), r.summary);
    EntriesRead(At(v, "evidence"), r.evidence);
    ResultsRead(At(v, "results"), r.results);
  }
}
