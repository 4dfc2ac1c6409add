/**
 * The report schema as data for the schema validator: the record shape the report checks start
 * from is exactly what `SchemaValidator` accepts of the report's JSON.
 */
module ReportSchema {
  import opened Prelude
  import opened Json
  import opened SchemaValidator
  import opened Reports
  import Contract

  const BLANK := Schema(None, Absent, None, None, None, [], [], false, None, false, None, None, None, None, None)

  const DIGEST_PATTERN := "^[a-f0-9]{64}$"

  const TEXT := BLANK.(kind := Some("string"), minLength := Some(1))

  const ANY_TEXT := BLANK.(kind := Some("string"))

  const DIGEST := BLANK.(kind := Some("string"), pattern := Some(DIGEST_PATTERN))

  const COUNT := BLANK.(kind := Some("integer"), minimum := Some(0))

  function Strings(s: seq<string>): seq<Json> { Map((x: string) => Str(x), s) }

  function OneOfWords(words: seq<string>): Schema { BLANK.(allowed := Some(Strings(words))) }

  const PROTOCOL_LIST := BLANK.(
    kind := Some("array"), minItems := Some(1), uniqueItems := true, items := Some(OneOfWords(Contract.PROTOCOLS)))

  /** A closed object whose required members come first among its properties. */
  function Closed(properties: seq<Property>, required: nat): Schema
    requires required <= |properties|
  {
    BLANK.(kind := Some("object"), closed := true, properties := properties, required := Names(properties[..required]))
  }

  function Names(properties: seq<Property>): (r: seq<string>)
    ensures |r| == |properties|
    ensures forall i :: 0 <= i < |properties| ==> r[i] == properties[i].name
  {
    seq(|properties|, i requires 0 <= i < |properties| => properties[i].name)
  }

  const CONTRACT_PROPERTIES := [Property("digest", DIGEST),
      Property("runnerVersion", BLANK.(constant := Some(Str("1.0.0"))))]

  const SDK_PROPERTIES := [
    Property("language", TEXT), Property("name", TEXT), Property("version", TEXT),
      Property("supportedProtocols", PROTOCOL_LIST)]

  const SUMMARY_PROPERTIES := [Property("passed", COUNT), Property("failed", COUNT), Property("skipped", COUNT)]

  const EVIDENCE_PROPERTIES := [
    Property("caseId", TEXT), Property("protocol", OneOfWords(Contract.PROTOCOLS)),
    Property("requestDigest", DIGEST), Property("responseDigest", DIGEST)]

  const RESULT_PROPERTIES := [
    Property("caseId", TEXT), Property("status", OneOfWords(STATUSES)), Property("protocols", PROTOCOL_LIST),
      Property("message", ANY_TEXT)]

  function ListOf(s: Schema): Schema { BLANK.(kind := Some("array"), items := Some(s)) }

  const REPORT_PROPERTIES := [
    Property("schemaVersion", BLANK.(constant := Some(Int(2)))),
    Property("contract", Closed(CONTRACT_PROPERTIES, 2)),
    Property("sdk", Closed(SDK_PROPERTIES, 4)),
    Property("apiVersion", TEXT), Property("datasetVersion", TEXT),
    Property("summary", Closed(SUMMARY_PROPERTIES, 3)),
    Property("evidenceDigest", DIGEST),
    Property("evidence", ListOf(Closed(EVIDENCE_PROPERTIES, 4))),
    Property("results", ListOf(Closed(RESULT_PROPERTIES, 3)))]

  const REPORT_SCHEMA := Closed(REPORT_PROPERTIES, 9)

  // ---------------------------------------------------------------- a report as JSON

  /** Members named after the properties, in their order. */
  function Record(properties: seq<Property>, values: seq<Json>): Json
    requires |values| <= |properties|
  {
    Obj(RecordFields(properties, values))
  }

  function RecordFields(properties: seq<Property>, values: seq<Json>): (r: seq<Member>)
    requires |values| <= |properties|
    ensures |r| == |values|
    ensures forall i :: 0 <= i < |values| ==> r[i] == Member(properties[i].name, values[i])
  {
    seq(|values|, i requires 0 <= i < |values| => Member(properties[i].name, values[i]))
  }

  function ContractValues(digest: string, runnerVersion: string): seq<Json> { [Str(digest), Str(runnerVersion)] }

  function ContractJson(digest: string, runnerVersion: string): Json {
    Record(CONTRACT_PROPERTIES, ContractValues(digest, runnerVersion))
  }

  function SdkValues(sdk: Sdk): seq<Json> {
    [Str(sdk.language), Str(sdk.name), Str(sdk.version), Arr(Strings(sdk.supportedProtocols))]
  }

  function SdkJson(sdk: Sdk): Json { Record(SDK_PROPERTIES, SdkValues(sdk)) }

  function SummaryValues(s: Summary): seq<Json> { [Int(s.passed), Int(s.failed), Int(s.skipped)] }

  function SummaryJson(s: Summary): Json { Record(SUMMARY_PROPERTIES, SummaryValues(s)) }

  function EntryValues(e: Evidence): seq<Json> {
    [Str(e.caseId), Str(e.protocol), Str(e.requestDigest), Str(e.responseDigest)]
  }

  function EntryJson(e: Evidence): Json { Record(EVIDENCE_PROPERTIES, EntryValues(e)) }

  /** A result may come with a message or without. */
  function ResultValues(r: CaseResult): (values: seq<Json>)
    ensures |values| == if r.message.Some? then 4 else 3
  {
    [Str(r.caseId), Str(r.status), Arr(Strings(r.protocols))] + if r.message.Some? then [Str(r.message.value)] else []
  }

  function ResultJson(r: CaseResult): Json { Record(RESULT_PROPERTIES, ResultValues(r)) }

  /** The JSON of a report, with whatever it has for its schema version. */
  function ReportValues(version: Json, r: Report): seq<Json> {
    [version, ContractJson(r.contractDigest, r.runnerVersion), SdkJson(r.sdk),
     Str(r.apiVersion), Str(r.datasetVersion), SummaryJson(r.summary), Str(r.evidenceDigest),
     Arr(Map(EntryJson, r.evidence)), Arr(Map(ResultJson, r.results))]
  }

  function ReportForm(version: Json, r: Report): Json { Record(REPORT_PROPERTIES, ReportValues(version, r)) }

  function ReportJson(r: Report): Json { ReportForm(Int(r.schemaVersion), r) }

  // ---------------------------------------------------------------- what each part of the schema asks

  /** A document without references, whose matcher reads the digest pattern as Ruby does. */
  ghost predicate Faithful(d: Document) {
    d.definitions == map[] && forall s :: d.matches(DIGEST_PATTERN, s) <==> IsDigest(s)
  }

  lemma {:induction false} ObjectIff(d: Document, properties: seq<Property>, required: nat, values: seq<Json>)
    requires Faithful(d) && UniqueNames(properties) && required <= |values| <= |properties|
    ensures Satisfies(d, Record(properties, values), Closed(properties, required))
       <==> forall i :: 0 <= i < |values| ==> Satisfies(d, values[i], properties[i].schema)
  {
    var v, s := Record(properties, values), Closed(properties, required);
    var fields := v.fields;
    forall k | k in Keys(fields) ensures Lookup(properties, k).Some? {
      var i :| 0 <= i < |fields| && Keys(fields)[i] == k;
      assert properties[i].name == k;
    }
    forall k | k in s.required ensures k in Keys(fields) {
      var i :| 0 <= i < required && Names(properties[..required])[i] == k;
      assert Keys(fields)[i] == k;
    }
    assert PassesKeywords(d, v, s);
    if Satisfies(d, v, s) {
      forall i | 0 <= i < |values| ensures Satisfies(d, values[i], properties[i].schema) {
        assert fields[i].key == properties[i].name;
      }
    }
    if forall i :: 0 <= i < |values| ==> Satisfies(d, values[i], properties[i].schema) {
      forall i, j | 0 <= i < |fields| && 0 <= j < |properties| && properties[j].name == fields[i].key
        ensures Satisfies(d, fields[i].value, properties[j].schema)
      {
        assert i == j;
      }
    }
  }

  lemma {:induction false} TextIff(d: Document, s: string)
    requires Faithful(d)
    ensures Satisfies(d, Str(s), TEXT) <==> |s| >= 1
    ensures Satisfies(d, Str(s), ANY_TEXT)
    ensures Satisfies(d, Str(s), DIGEST) <==> IsDigest(s)
  {
  }

  lemma {:induction false} CountIff(d: Document, n: int)
    requires Faithful(d)
    ensures Satisfies(d, Int(n), COUNT) <==> n >= 0
  {
  }

  lemma {:induction false} ConstantIff(d: Document, v: Json, c: Json)
    requires Faithful(d)
    ensures Satisfies(d, v, BLANK.(constant := Some(c))) <==> RubyEqual(d, v, c)
  {
  }

  lemma {:induction false} WordIff(d: Document, words: seq<string>, s: string)
    requires Faithful(d)
    ensures Satisfies(d, Str(s), OneOfWords(words)) <==> s in words
  {
    var allowed := Strings(words);
    if s in words {
      var i :| 0 <= i < |words| && words[i] == s;
      assert RubyEqual(d, allowed[i], Str(s));
    }
  }

  lemma {:induction false} ProtocolListIff(d: Document, protocols: seq<string>)
    requires Faithful(d)
    ensures Satisfies(d, Arr(Strings(protocols)), PROTOCOL_LIST) <==> ProtocolList(protocols)
  {
    var items := Strings(protocols);
    forall i, j | 0 <= i < j < |items| ensures Same(items[i], items[j]) <==> protocols[i] == protocols[j] {
    }
    forall i | 0 <= i < |items|
      ensures Satisfies(d, items[i], OneOfWords(Contract.PROTOCOLS)) <==> protocols[i] in Contract.PROTOCOLS
    {
      WordIff(d, Contract.PROTOCOLS, protocols[i]);
    }
    assert PROTOCOL_LIST.items == Some(OneOfWords(Contract.PROTOCOLS));
    Contract.ProtocolsAre();
    assert (forall i :: 0 <= i < |items| ==> protocols[i] in Contract.PROTOCOLS) <==>
      forall p :: p in protocols ==> Contract.IsProtocol(p);
  }

  lemma {:induction false} ListIff(d: Document, items: seq<Json>, s: Schema)
    requires Faithful(d)
    ensures Satisfies(d, Arr(items), ListOf(s)) <==> forall i :: 0 <= i < |items| ==> Satisfies(d, items[i], s)
  {
  }

  // ---------------------------------------------------------------- the records

  lemma {:induction false} ContractIff(d: Document, digest: string, runnerVersion: string)
    requires Faithful(d)
    ensures Satisfies(d, ContractJson(digest, runnerVersion), Closed(CONTRACT_PROPERTIES, 2))
       <==> IsDigest(digest) && runnerVersion == "1.0.0"
  {
    var values := ContractValues(digest, runnerVersion);
    ObjectIff(d, CONTRACT_PROPERTIES, 2, values);
    TextIff(d, digest);
    ConstantIff(d, values[1], Str("1.0.0"));
    TwoValues(d, values, CONTRACT_PROPERTIES);
  }

  lemma {:induction false} TwoValues(d: Document, values: seq<Json>, properties: seq<Property>)
    requires Acyclic(d) && |values| == 2 <= |properties|
    ensures (forall i :: 0 <= i < |values| ==> Satisfies(d, values[i], properties[i].schema)) <==>
      Satisfies(d, values[0], properties[0].schema) && Satisfies(d, values[1], properties[1].schema)
  {
  }

  predicate SdkShape(sdk: Sdk) {
    |sdk.language| >= 1 && |sdk.name| >= 1 && |sdk.version| >= 1 && ProtocolList(sdk.supportedProtocols)
  }

  lemma {:induction false} SdkIff(d: Document, sdk: Sdk)
    requires Faithful(d)
    ensures Satisfies(d, SdkJson(sdk), Closed(SDK_PROPERTIES, 4)) <==> SdkShape(sdk)
  {
    var values := SdkValues(sdk);
    ObjectIff(d, SDK_PROPERTIES, 4, values);
    TextIff(d, sdk.language);
    TextIff(d, sdk.name);
    TextIff(d, sdk.version);
    ProtocolListIff(d, sdk.supportedProtocols);
    FourValues(d, values, SDK_PROPERTIES);
  }

  lemma {:induction false} FourValues(d: Document, values: seq<Json>, properties: seq<Property>)
    requires Acyclic(d) && |values| == 4 <= |properties|
    ensures (forall i :: 0 <= i < |values| ==> Satisfies(d, values[i], properties[i].schema)) <==>
      && Satisfies(d, values[0], properties[0].schema) && Satisfies(d, values[1], properties[1].schema)
      && Satisfies(d, values[2], properties[2].schema) && Satisfies(d, values[3], properties[3].schema)
  {
  }

  lemma {:induction false} ThreeValues(d: Document, values: seq<Json>, properties: seq<Property>)
    requires Acyclic(d) && |values| == 3 <= |properties|
    ensures (forall i :: 0 <= i < |values| ==> Satisfies(d, values[i], properties[i].schema)) <==>
      && Satisfies(d, values[0], properties[0].schema) && Satisfies(d, values[1], properties[1].schema)
      && Satisfies(d, values[2], properties[2].schema)
  {
  }

  lemma {:induction false} SummaryIff(d: Document, s: Summary)
    requires Faithful(d)
    ensures Satisfies(d, SummaryJson(s), Closed(SUMMARY_PROPERTIES, 3)) <==>
      s.passed >= 0 && s.failed >= 0 && s.skipped >= 0
  {
    var values := SummaryValues(s);
    ObjectIff(d, SUMMARY_PROPERTIES, 3, values);
    CountIff(d, s.passed);
    CountIff(d, s.failed);
    CountIff(d, s.skipped);
    ThreeValues(d, values, SUMMARY_PROPERTIES);
  }

  lemma {:induction false} EntryIff(d: Document, e: Evidence)
    requires Faithful(d)
    ensures Satisfies(d, EntryJson(e), Closed(EVIDENCE_PROPERTIES, 4)) <==> EvidenceShape(e)
  {
    var values := EntryValues(e);
    ObjectIff(d, EVIDENCE_PROPERTIES, 4, values);
    TextIff(d, e.caseId);
    WordIff(d, Contract.PROTOCOLS, e.protocol);
    Contract.ProtocolsAre();
    TextIff(d, e.requestDigest);
    TextIff(d, e.responseDigest);
    FourValues(d, values, EVIDENCE_PROPERTIES);
  }

  lemma {:induction false} ResultIff(d: Document, r: CaseResult)
    requires Faithful(d)
    ensures Satisfies(d, ResultJson(r), Closed(RESULT_PROPERTIES, 3)) <==> ResultShape(r)
  {
    var core := [Str(r.caseId), Str(r.status), Arr(Strings(r.protocols))];
    var values := ResultValues(r);
    ObjectIff(d, RESULT_PROPERTIES, 3, values);
    TextIff(d, r.caseId);
    WordIff(d, STATUSES, r.status);
    StatusesAre();
    ProtocolListIff(d, r.protocols);
    if r.message.Some? {
      TextIff(d, r.message.value);
      FourValues(d, values, RESULT_PROPERTIES);
    } else {
      assert values == core;
      ThreeValues(d, values, RESULT_PROPERTIES);
    }
  }

  lemma {:induction false} EvidenceListIff(d: Document, evidence: seq<Evidence>)
    requires Faithful(d)
    ensures Satisfies(d, Arr(Map(EntryJson, evidence)), ListOf(Closed(EVIDENCE_PROPERTIES, 4)))
       <==> forall e :: e in evidence ==> EvidenceShape(e)
  {
    var items := Map(EntryJson, evidence);
    ListIff(d, items, Closed(EVIDENCE_PROPERTIES, 4));
    forall i | 0 <= i < |evidence|
      ensures Satisfies(d, items[i], Closed(EVIDENCE_PROPERTIES, 4)) <==> EvidenceShape(evidence[i])
    {
      EntryIff(d, evidence[i]);
    }
    assert (forall i :: 0 <= i < |evidence| ==> EvidenceShape(evidence[i])) <==>
      (forall e :: e in evidence ==> EvidenceShape(e));
  }

  lemma {:induction false} ResultListIff(d: Document, results: seq<CaseResult>)
    requires Faithful(d)
    ensures Satisfies(d, Arr(Map(ResultJson, results)), ListOf(Closed(RESULT_PROPERTIES, 3)))
       <==> forall r :: r in results ==> ResultShape(r)
  {
    var items := Map(ResultJson, results);
    ListIff(d, items, Closed(RESULT_PROPERTIES, 3));
    forall i | 0 <= i < |results|
      ensures Satisfies(d, items[i], Closed(RESULT_PROPERTIES, 3)) <==> ResultShape(results[i])
    {
      ResultIff(d, results[i]);
    }
    assert (forall i :: 0 <= i < |results| ==> ResultShape(results[i])) <==>
      (forall r :: r in results ==> ResultShape(r));
  }

  lemma {:induction false} NineBits(b: seq<bool>)
    requires |b| == 9
    ensures (forall i :: 0 <= i < 9 ==> b[i]) <==>
      b[0] && b[1] && b[2] && b[3] && b[4] && b[5] && b[6] && b[7] && b[8]
  {
  }

  /** Which values satisfy their properties' schemas. */
  ghost function Fits(d: Document, values: seq<Json>, properties: seq<Property>): (b: seq<bool>)
    requires Acyclic(d) && |values| <= |properties|
    ensures |b| == |values|
    ensures forall i :: 0 <= i < |values| ==> b[i] == Satisfies(d, values[i], properties[i].schema)
  {
    seq(|values|, i requires 0 <= i < |values| => Satisfies(d, values[i], properties[i].schema))
  }

  lemma {:induction false} NineFit(d: Document, values: seq<Json>, properties: seq<Property>)
    requires Acyclic(d) && |values| == 9 <= |properties|
    ensures var b := Fits(d, values, properties);
      (forall i :: 0 <= i < |values| ==> Satisfies(d, values[i], properties[i].schema)) <==>
        b[0] && b[1] && b[2] && b[3] && b[4] && b[5] && b[6] && b[7] && b[8]
  {
    var b := Fits(d, values, properties);
    NineBits(b);
    assert (forall i :: 0 <= i < 9 ==> b[i]) <==>
      forall i :: 0 <= i < |values| ==> Satisfies(d, values[i], properties[i].schema);
  }

  lemma {:induction false} VersionIff(d: Document, version: Json)
    requires Faithful(d)
    ensures Satisfies(d, version, REPORT_PROPERTIES[0].schema) <==> RubyEqual(d, version, Int(2))
  {
    ConstantIff(d, version, Int(2));
  }

  lemma {:induction false} HeadIff(d: Document, r: Report)
    requires Faithful(d)
    ensures Satisfies(d, ContractJson(r.contractDigest, r.runnerVersion), REPORT_PROPERTIES[1].schema)
       <==> IsDigest(r.contractDigest) && r.runnerVersion == "1.0.0"
    ensures Satisfies(d, SdkJson(r.sdk), REPORT_PROPERTIES[2].schema) <==> SdkShape(r.sdk)
  {
    assert REPORT_PROPERTIES[1].schema == Closed(CONTRACT_PROPERTIES, 2) &&
      REPORT_PROPERTIES[2].schema == Closed(SDK_PROPERTIES, 4);
    ContractIff(d, r.contractDigest, r.runnerVersion);
    SdkIff(d, r.sdk);
  }

  lemma {:induction false} MiddleIff(d: Document, r: Report)
    requires Faithful(d)
    ensures Satisfies(d, Str(r.apiVersion), REPORT_PROPERTIES[3].schema) <==> |r.apiVersion| >= 1
    ensures Satisfies(d, Str(r.datasetVersion), REPORT_PROPERTIES[4].schema) <==> |r.datasetVersion| >= 1
    ensures Satisfies(d, SummaryJson(r.summary), REPORT_PROPERTIES[5].schema)
       <==> r.summary.passed >= 0 && r.summary.failed >= 0 && r.summary.skipped >= 0
    ensures Satisfies(d, Str(r.evidenceDigest), REPORT_PROPERTIES[6].schema) <==> IsDigest(r.evidenceDigest)
  {
    TextIff(d, r.apiVersion);
    TextIff(d, r.datasetVersion);
    SummaryIff(d, r.summary);
    TextIff(d, r.evidenceDigest);
  }

  lemma {:induction false} TailIff(d: Document, r: Report)
    requires Faithful(d)
    ensures Satisfies(d, Arr(Map(EntryJson, r.evidence)), REPORT_PROPERTIES[7].schema) <==>
      forall e :: e in r.evidence ==> EvidenceShape(e)
    ensures Satisfies(d, Arr(Map(ResultJson, r.results)), REPORT_PROPERTIES[8].schema) <==>
      forall x :: x in r.results ==> ResultShape(x)
  {
    EvidenceListIff(d, r.evidence);
    ResultListIff(d, r.results);
  }

  lemma {:induction false} ReportNames()
    ensures UniqueNames(REPORT_PROPERTIES) && |REPORT_PROPERTIES| == 9
  {
  }

  /** The shape apart from the version, which may be any number that Ruby takes for 2. */
  lemma {:induction false} ReportIff(d: Document, version: Json, r: Report)
    requires Faithful(d)
    ensures Satisfies(d, ReportForm(version, r), REPORT_SCHEMA) <==>
      RubyEqual(d, version, Int(2)) && Shape(r.(schemaVersion := 2))
  {
    var values := ReportValues(version, r);
    ReportNames();
    ObjectIff(d, REPORT_PROPERTIES, 9, values);
    NineFit(d, values, REPORT_PROPERTIES);
    ValuesIff(d, version, r);
  }

  lemma {:induction false} ValuesIff(d: Document, version: Json, r: Report)
    requires Faithful(d)
    ensures |ReportValues(version, r)| == 9 <= |REPORT_PROPERTIES|
    ensures var b := Fits(d, ReportValues(version, r), REPORT_PROPERTIES);
      b[0] && b[1] && b[2] && b[3] && b[4] && b[5] && b[6] && b[7] && b[8] <==>
        RubyEqual(d, version, Int(2)) && Shape(r.(schemaVersion := 2))
  {
    ReportNames();
    VersionIff(d, version);
    HeadIff(d, r);
    MiddleIff(d, r);
    TailIff(d, r);
  }

  lemma {:induction false} PartsWellFormed(d: Document, properties: seq<Property>, required: nat)
    requires required <= |properties| && UniqueNames(properties)
    requires forall i :: 0 <= i < |properties| ==>
      WellFormedSchema(properties[i].schema) && Resolves(d, properties[i].schema)
    ensures WellFormedSchema(Closed(properties, required)) && Resolves(d, Closed(properties, required))
    ensures WellFormedSchema(ListOf(Closed(properties, required))) && Resolves(d, ListOf(Closed(properties, required)))
  {
  }

  lemma {:induction false} SdkWellFormed(d: Document)
    ensures WellFormedSchema(Closed(SDK_PROPERTIES, 4)) && Resolves(d, Closed(SDK_PROPERTIES, 4))
  {
    PartsWellFormed(d, SDK_PROPERTIES, 4);
  }

  lemma {:induction false} SmallPartsWellFormed(d: Document)
    ensures WellFormedSchema(Closed(CONTRACT_PROPERTIES, 2)) && Resolves(d, Closed(CONTRACT_PROPERTIES, 2))
    ensures WellFormedSchema(Closed(SUMMARY_PROPERTIES, 3)) && Resolves(d, Closed(SUMMARY_PROPERTIES, 3))
  {
    PartsWellFormed(d, CONTRACT_PROPERTIES, 2);
    PartsWellFormed(d, SUMMARY_PROPERTIES, 3);
  }

  lemma {:induction false} ListsWellFormed(d: Document)
    ensures WellFormedSchema(ListOf(Closed(EVIDENCE_PROPERTIES, 4))) &&
      Resolves(d, ListOf(Closed(EVIDENCE_PROPERTIES, 4)))
    ensures WellFormedSchema(ListOf(Closed(RESULT_PROPERTIES, 3))) && Resolves(d, ListOf(Closed(RESULT_PROPERTIES, 3)))
  {
    PartsWellFormed(d, EVIDENCE_PROPERTIES, 4);
    PartsWellFormed(d, RESULT_PROPERTIES, 3);
  }

  lemma {:induction false} SchemaWellFormed(d: Document)
    ensures WellFormedSchema(REPORT_SCHEMA) && Resolves(d, REPORT_SCHEMA)
  {
    SdkWellFormed(d);
    SmallPartsWellFormed(d);
    ListsWellFormed(d);
    ReportNames();
    PartsWellFormed(d, REPORT_PROPERTIES, 9);
  }

  /** The schema validator accepts a report's JSON exactly when the report has the shape the report checks assume. */
  lemma {:induction false} ReportSchemaIsShape(d: Document, r: Report)
    requires Faithful(d)
    ensures WellFormedDocument(d)
    ensures Validate(d, ReportJson(r), REPORT_SCHEMA) == if Shape(r) then Valid else Invalid
  {
    ReportIff(d, Int(r.schemaVersion), r);
    SchemaWellFormed(d);
    ValidateExact(d, ReportJson(r), REPORT_SCHEMA);
  }
}
