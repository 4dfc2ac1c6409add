/**
 * Arbitrary JSON against the report schema. A value that validates is taken apart property by
 * property, and is found to be, up to the order of members, the JSON of the report record that is
 * read of it. So the report checks, which are stated on records, lose no document that passes the
 * schema.
 */
module ReportDocuments {
  import opened Prelude
  import opened Json
  import opened SchemaValidator
  import opened Reports
  import opened ReportSchema
  import opened MemberOrder
  import opened ReportReading
  import Contract

  /** A well-formed value that satisfies the schema, of a document without references. */
  ghost function Standing(d: Document, v: Json, s: Schema): Verdict {
    if Faithful(d) && WellFormed(v) && Satisfies(d, v, s) then Valid else Invalid
  }

  // ---------------------------------------------------------------- what a satisfying value looks like

  /** The members are named after the properties, each once. */
  ghost predicate Named(fields: seq<Member>, properties: seq<Property>, n: nat)
    requires n <= |properties|
  {
    && (forall i :: 0 <= i < n ==> properties[i].name in Keys(fields))
    && forall k :: k in Keys(fields) ==> exists i :: 0 <= i < n && properties[i].name == k
  }

  lemma {:induction false} SameKeys(fields: seq<Member>, properties: seq<Property>, values: seq<Json>)
    requires |values| <= |properties| && Named(fields, properties, |values|)
    ensures forall k :: k in Keys(fields) <==> k in Keys(RecordFields(properties, values))
  {
    var g := RecordFields(properties, values);
    forall k ensures k in Keys(fields) <==> k in Keys(g) {
      if k in Keys(fields) {
        var i :| 0 <= i < |values| && properties[i].name == k;
        assert Keys(g)[i] == k;
      }
      if k in Keys(g) {
        var i :| 0 <= i < |g| && Keys(g)[i] == k;
        assert properties[i].name == k;
      }
    }
  }

  /** Members named after the properties make the record of values they equal. */
  lemma {:induction false} SameRecord(fields: seq<Member>, properties: seq<Property>, values: seq<Json>)
    requires Distinct(Keys(fields)) && UniqueNames(properties) && |values| <= |properties|
    requires Named(fields, properties, |values|)
    requires forall i :: 0 <= i < |values| ==> Same(At(Obj(fields), properties[i].name), values[i])
    ensures Same(Obj(fields), Record(properties, values))
  {
    var g := RecordFields(properties, values);
    SameKeys(fields, properties, values);
    forall i, j | 0 <= i < |fields| && 0 <= j < |g| && fields[i].key == g[j].key
      ensures Same(fields[i].value, g[j].value)
    {
      GetAt(fields, i);
      assert At(Obj(fields), properties[j].name) == fields[i].value;
    }
  }

  /** A value that satisfies a closed object schema has no other members than the properties. */
  lemma {:induction false} ClosedForm(d: Document, v: Json, properties: seq<Property>, required: nat)
    requires required <= |properties|
    requires Standing(d, v, Closed(properties, required)) == Valid
    ensures v.Obj? && Distinct(Keys(v.fields))
    ensures forall i :: 0 <= i < required ==> properties[i].name in Keys(v.fields)
    ensures forall k :: k in Keys(v.fields) ==> exists i :: 0 <= i < |properties| && properties[i].name == k
  {
    var s := Closed(properties, required);
    assert PassesKeywords(d, v, s);
    forall i | 0 <= i < required ensures properties[i].name in Keys(v.fields) {
      assert s.required[i] == properties[i].name;
      assert s.required[i] in s.required;
    }
    forall k | k in Keys(v.fields) ensures exists i :: 0 <= i < |properties| && properties[i].name == k {
      assert Lookup(properties, k).Some?;
    }
  }

  /** The value of a property that is there, as any required one is. */
  lemma {:induction false} PartForm(d: Document, v: Json, properties: seq<Property>, required: nat, i: nat)
    requires required <= |properties| && i < |properties|
    requires Standing(d, v, Closed(properties, required)) == Valid
    ensures v.Obj? && (i < required ==> properties[i].name in Keys(v.fields))
    ensures properties[i].name in Keys(v.fields) ==>
      Standing(d, At(v, properties[i].name), properties[i].schema) == Valid
  {
    ClosedForm(d, v, properties, required);
    if properties[i].name in Keys(v.fields) {
      var k := GetIs(v.fields, properties[i].name);
      assert v.fields[k].key == properties[i].name;
    }
  }

  /** When every property is required, the value is the record of what its properties hold. */
  lemma {:induction false} WholeRecord(d: Document, v: Json, properties: seq<Property>, parts: seq<Json>)
    requires UniqueNames(properties) && |parts| == |properties|
    requires Standing(d, v, Closed(properties, |properties|)) == Valid
    requires forall i :: 0 <= i < |parts| ==> Same(At(v, properties[i].name), parts[i])
    ensures Same(v, Record(properties, parts))
  {
    ClosedForm(d, v, properties, |properties|);
    SameRecord(v.fields, properties, parts);
  }

  lemma {:induction false} NamedFirst(fields: seq<Member>, properties: seq<Property>, n: nat, count: nat)
    requires |properties| == n + 1 && count == if properties[n].name in Keys(fields) then n + 1 else n
    requires forall i :: 0 <= i < n ==> properties[i].name in Keys(fields)
    requires forall k :: k in Keys(fields) ==> exists i :: 0 <= i < |properties| && properties[i].name == k
    ensures Named(fields, properties, count)
  {
    forall k | k in Keys(fields) ensures exists i :: 0 <= i < count && properties[i].name == k {
      var i :| 0 <= i < |properties| && properties[i].name == k;
      assert i < count;
    }
  }

  /** The same when the last property may be missing. */
  lemma {:induction false} OptionalRecord(d: Document, v: Json, properties: seq<Property>, n: nat, parts: seq<Json>)
    requires UniqueNames(properties) && |properties| == n + 1
    requires Standing(d, v, Closed(properties, n)) == Valid && v.Obj?
    requires |parts| == if properties[n].name in Keys(v.fields) then n + 1 else n
    requires forall i :: 0 <= i < |parts| ==> Same(At(v, properties[i].name), parts[i])
    ensures Same(v, Record(properties, parts))
  {
    ClosedForm(d, v, properties, n);
    NamedFirst(v.fields, properties, n, |parts|);
    SameRecord(v.fields, properties, parts);
  }

  /** What the first properties hold. */
  function Held(v: Json, properties: seq<Property>, n: nat): (parts: seq<Json>)
    requires n <= |properties|
    ensures |parts| == n && forall i :: 0 <= i < n ==> parts[i] == At(v, properties[i].name)
  {
    seq(n, i requires 0 <= i < n => At(v, properties[i].name))
  }

  lemma {:induction false} HeldRecord(d: Document, v: Json, properties: seq<Property>)
    requires Standing(d, v, Closed(properties, |properties|)) == Valid && UniqueNames(properties)
    ensures Same(v, Record(properties, Held(v, properties, |properties|)))
  {
    var n := |properties|;
    forall i | 0 <= i < n ensures Same(At(v, properties[i].name), Held(v, properties, n)[i]) {
      PartForm(d, v, properties, n, i);
      SameItself(At(v, properties[i].name));
    }
    WholeRecord(d, v, properties, Held(v, properties, n));
  }

  lemma {:induction false} HeldOptional(d: Document, v: Json, properties: seq<Property>, n: nat)
    requires |properties| == n + 1 && UniqueNames(properties)
    requires Standing(d, v, Closed(properties, n)) == Valid && v.Obj?
    ensures var count := if properties[n].name in Keys(v.fields) then n + 1 else n;
      Same(v, Record(properties, Held(v, properties, count)))
  {
    var count := if properties[n].name in Keys(v.fields) then n + 1 else n;
    forall i | 0 <= i < count ensures Same(At(v, properties[i].name), Held(v, properties, count)[i]) {
      PartForm(d, v, properties, n, i);
      SameItself(At(v, properties[i].name));
    }
    OptionalRecord(d, v, properties, n, Held(v, properties, count));
  }

  // ---------------------------------------------------------------- the parts of a report

  lemma {:induction false} KindForm(d: Document, v: Json, s: Schema)
    requires Standing(d, v, s) == Valid && s.reference.None? && s.oneOf.Absent? && s.kind.Some?
    ensures HasKind(v, s.kind.value)
  {
  }

  lemma {:induction false} WordForm(d: Document, v: Json, words: seq<string>)
    requires Standing(d, v, OneOfWords(words)) == Valid
    ensures v.Str?
  {
    var allowed := Strings(words);
    var i :| 0 <= i < |allowed| && RubyEqual(d, allowed[i], v);
    assert allowed[i] == Str(words[i]);
  }

  lemma {:induction false} ProtocolListForm(d: Document, v: Json)
    requires Standing(d, v, PROTOCOL_LIST) == Valid
    ensures v == Arr(Strings(Map(AsText, AsItems(v))))
  {
    KindForm(d, v, PROTOCOL_LIST);
    forall i | 0 <= i < |v.items| ensures v.items[i].Str? {
      WordForm(d, v.items[i], Contract.PROTOCOLS);
    }
    assert v.items == Strings(Map(AsText, v.items));
  }

  lemma {:induction false} TextForm(d: Document, v: Json)
    requires Standing(d, v, TEXT) == Valid || Standing(d, v, ANY_TEXT) == Valid || Standing(d, v, DIGEST) == Valid
    ensures v.Str?
  {
    if Standing(d, v, TEXT) == Valid {
      KindForm(d, v, TEXT);
    } else if Standing(d, v, ANY_TEXT) == Valid {
      KindForm(d, v, ANY_TEXT);
    } else {
      KindForm(d, v, DIGEST);
    }
  }

  lemma {:induction false} TextPart(d: Document, v: Json, properties: seq<Property>, required: nat, i: nat)
    requires required <= |properties| && i < |properties|
    requires Standing(d, v, Closed(properties, required)) == Valid
    requires properties[i].schema == TEXT || properties[i].schema == ANY_TEXT || properties[i].schema == DIGEST
    ensures v.Obj? && (i < required ==> properties[i].name in Keys(v.fields))
    ensures properties[i].name in Keys(v.fields) ==>
      At(v, properties[i].name) == Str(TextAt(v, properties[i].name))
  {
    PartForm(d, v, properties, required, i);
    if properties[i].name in Keys(v.fields) {
      TextForm(d, At(v, properties[i].name));
    }
  }

  lemma {:induction false} WordPart(d: Document, v: Json, properties: seq<Property>, required: nat, i: nat,
      words: seq<string>)
    requires i < required <= |properties|
    requires Standing(d, v, Closed(properties, required)) == Valid && properties[i].schema == OneOfWords(words)
    ensures v.Obj? && At(v, properties[i].name) == Str(TextAt(v, properties[i].name))
  {
    PartForm(d, v, properties, required, i);
    WordForm(d, At(v, properties[i].name), words);
  }

  lemma {:induction false} ListPart(d: Document, v: Json, properties: seq<Property>, required: nat, i: nat)
    requires i < required <= |properties|
    requires Standing(d, v, Closed(properties, required)) == Valid && properties[i].schema == PROTOCOL_LIST
    ensures v.Obj? && At(v, properties[i].name) == Arr(Strings(TextsAt(v, properties[i].name)))
  {
    PartForm(d, v, properties, required, i);
    ProtocolListForm(d, At(v, properties[i].name));
  }

  lemma {:induction false} ContractForm(d: Document, v: Json)
    requires Standing(d, v, Closed(CONTRACT_PROPERTIES, 2)) == Valid
    ensures Same(v, ContractJson(TextAt(v, "digest"), TextAt(v, "runnerVersion")))
  {
    ContractNames();
    ContractFormOf(d, v, CONTRACT_PROPERTIES);
  }

  lemma {:induction false} ContractFormOf(d: Document, v: Json, properties: seq<Property>)
    requires UniqueNames(properties) && |properties| == 2 && properties[0] == Property("digest", DIGEST)
    requires properties[1] == Property("runnerVersion", BLANK.(constant := Some(Str("1.0.0"))))
    requires Standing(d, v, Closed(properties, 2)) == Valid
    ensures Same(v, Record(properties, ContractValues(TextAt(v, "digest"), TextAt(v, "runnerVersion"))))
  {
    TextPart(d, v, properties, 2, 0);
    PartForm(d, v, properties, 2, 1);
    ConstantIff(d, At(v, "runnerVersion"), Str("1.0.0"));
    assert Held(v, properties, 2) == ContractValues(TextAt(v, "digest"), TextAt(v, "runnerVersion"));
    HeldRecord(d, v, properties);
  }

  lemma {:induction false} SdkForm(d: Document, v: Json)
    requires Standing(d, v, Closed(SDK_PROPERTIES, 4)) == Valid
    ensures Same(v, SdkJson(ReadSdk(v)))
  {
    SdkNames();
    SdkFormOf(d, v, SDK_PROPERTIES);
  }

  lemma {:induction false} HeldSdk(v: Json, properties: seq<Property>)
    requires |properties| == 4 && properties[0].name == "language" && properties[1].name == "name"
    requires properties[2].name == "version" && properties[3].name == "supportedProtocols"
    requires At(v, "language").Str? && At(v, "name").Str? && At(v, "version").Str?
    requires At(v, "supportedProtocols") == Arr(Strings(TextsAt(v, "supportedProtocols")))
    ensures Held(v, properties, 4) == SdkValues(ReadSdk(v))
  {
  }

  lemma {:induction false} SdkFormOf(d: Document, v: Json, properties: seq<Property>)
    requires UniqueNames(properties) && |properties| == 4 && properties[0] == Property("language", TEXT)
    requires properties[1] == Property("name", TEXT) && properties[2] == Property("version", TEXT)
    requires properties[3] == Property("supportedProtocols", PROTOCOL_LIST)
    requires Standing(d, v, Closed(properties, 4)) == Valid
    ensures Same(v, Record(properties, SdkValues(ReadSdk(v))))
  {
    TextPart(d, v, properties, 4, 0);
    TextPart(d, v, properties, 4, 1);
    TextPart(d, v, properties, 4, 2);
    ListPart(d, v, properties, 4, 3);
    HeldSdk(v, properties);
    HeldRecord(d, v, properties);
  }

  lemma {:induction false} SummaryForm(d: Document, v: Json)
    requires Standing(d, v, Closed(SUMMARY_PROPERTIES, 3)) == Valid
    ensures Same(v, SummaryJson(ReadSummary(v)))
  {
    SummaryNames();
    forall i | 0 <= i < 3 ensures At(v, SUMMARY_PROPERTIES[i].name).Int? {
      PartForm(d, v, SUMMARY_PROPERTIES, 3, i);
      KindForm(d, At(v, SUMMARY_PROPERTIES[i].name), COUNT);
    }
    assert Held(v, SUMMARY_PROPERTIES, 3) == SummaryValues(ReadSummary(v));
    HeldRecord(d, v, SUMMARY_PROPERTIES);
  }

  lemma {:induction false} EntryForm(d: Document, v: Json)
    requires Standing(d, v, Closed(EVIDENCE_PROPERTIES, 4)) == Valid
    ensures Same(v, EntryJson(ReadEntry(v)))
  {
    EntryNames();
    EntryFormOf(d, v, EVIDENCE_PROPERTIES);
  }

  lemma {:induction false} HeldEntry(v: Json, properties: seq<Property>)
    requires |properties| == 4 && properties[0].name == "caseId" && properties[1].name == "protocol"
    requires properties[2].name == "requestDigest" && properties[3].name == "responseDigest"
    requires At(v, "caseId").Str? && At(v, "protocol").Str?
    requires At(v, "requestDigest").Str? && At(v, "responseDigest").Str?
    ensures Held(v, properties, 4) == EntryValues(ReadEntry(v))
  {
  }

  lemma {:induction false} EntryFormOf(d: Document, v: Json, properties: seq<Property>)
    requires UniqueNames(properties) && |properties| == 4 && properties[0] == Property("caseId", TEXT)
    requires properties[1] == Property("protocol", OneOfWords(Contract.PROTOCOLS))
    requires properties[2] == Property("requestDigest", DIGEST) && properties[3] == Property("responseDigest", DIGEST)
    requires Standing(d, v, Closed(properties, 4)) == Valid
    ensures Same(v, Record(properties, EntryValues(ReadEntry(v))))
  {
    TextPart(d, v, properties, 4, 0);
    WordPart(d, v, properties, 4, 1, Contract.PROTOCOLS);
    TextPart(d, v, properties, 4, 2);
    TextPart(d, v, properties, 4, 3);
    HeldEntry(v, properties);
    HeldRecord(d, v, properties);
  }

  lemma {:induction false} ResultForm(d: Document, v: Json)
    requires Standing(d, v, Closed(RESULT_PROPERTIES, 3)) == Valid
    ensures Same(v, ResultJson(ReadResult(v)))
  {
    ResultNames();
    ResultFormOf(d, v, RESULT_PROPERTIES);
  }

  lemma {:induction false} ResultFormOf(d: Document, v: Json, properties: seq<Property>)
    requires UniqueNames(properties) && |properties| == 4 && properties[0] == Property("caseId", TEXT)
    requires properties[1] == Property("status", OneOfWords(STATUSES))
    requires properties[2] == Property("protocols", PROTOCOL_LIST) && properties[3] == Property("message", ANY_TEXT)
    requires Standing(d, v, Closed(properties, 3)) == Valid
    ensures Same(v, Record(properties, ResultValues(ReadResult(v))))
  {
    TextPart(d, v, properties, 3, 0);
    WordPart(d, v, properties, 3, 1, STATUSES);
    ListPart(d, v, properties, 3, 2);
    TextPart(d, v, properties, 3, 3);
    var count := if "message" in Keys(v.fields) then 4 else 3;
    assert Held(v, properties, count) == ResultValues(ReadResult(v));
    HeldOptional(d, v, properties, 3);
  }

  lemma {:induction false} ListForm(d: Document, v: Json, s: Schema)
    requires Standing(d, v, ListOf(s)) == Valid
    ensures v.Arr? && forall i :: 0 <= i < |v.items| ==> Standing(d, v.items[i], s) == Valid
  {
    KindForm(d, v, ListOf(s));
  }

  lemma {:induction false} EvidenceForm(d: Document, v: Json)
    requires Standing(d, v, ListOf(Closed(EVIDENCE_PROPERTIES, 4))) == Valid
    ensures Same(v, Arr(Map(EntryJson, Map(ReadEntry, AsItems(v)))))
  {
    ListForm(d, v, Closed(EVIDENCE_PROPERTIES, 4));
    forall i | 0 <= i < |v.items| ensures Same(v.items[i], EntryJson(ReadEntry(v.items[i]))) {
      EntryForm(d, v.items[i]);
    }
  }

  lemma {:induction false} ResultsForm(d: Document, v: Json)
    requires Standing(d, v, ListOf(Closed(RESULT_PROPERTIES, 3))) == Valid
    ensures Same(v, Arr(Map(ResultJson, Map(ReadResult, AsItems(v)))))
  {
    ListForm(d, v, Closed(RESULT_PROPERTIES, 3));
    forall i | 0 <= i < |v.items| ensures Same(v.items[i], ResultJson(ReadResult(v.items[i]))) {
      ResultForm(d, v.items[i]);
    }
  }

  // ---------------------------------------------------------------- whole reports

  /** The value of a property of a report that satisfies the schema. */
  lemma {:induction false} ReportPart(d: Document, v: Json, i: nat)
    requires Standing(d, v, REPORT_SCHEMA) == Valid && i < 9
    ensures |REPORT_PROPERTIES| == 9 && v.Obj?
    ensures Standing(d, At(v, REPORT_PROPERTIES[i].name), REPORT_PROPERTIES[i].schema) == Valid
  {
    ReportNames();
    PartForm(d, v, REPORT_PROPERTIES, 9, i);
  }

  lemma {:induction false} ReportSchemas()
    ensures |REPORT_PROPERTIES| == 9
    ensures REPORT_PROPERTIES[1].schema == Closed(CONTRACT_PROPERTIES, 2) &&
      REPORT_PROPERTIES[2].schema == Closed(SDK_PROPERTIES, 4)
    ensures REPORT_PROPERTIES[3].schema == TEXT && REPORT_PROPERTIES[4].schema == TEXT
    ensures REPORT_PROPERTIES[5].schema == Closed(SUMMARY_PROPERTIES, 3) && REPORT_PROPERTIES[6].schema == DIGEST
    ensures REPORT_PROPERTIES[7].schema == ListOf(Closed(EVIDENCE_PROPERTIES, 4))
    ensures REPORT_PROPERTIES[8].schema == ListOf(Closed(RESULT_PROPERTIES, 3))
  {
  }

  lemma {:induction false} HeadForms(d: Document, v: Json)
    requires Standing(d, v, REPORT_SCHEMA) == Valid
    ensures Same(At(v, "contract"), ContractJson(ReadReport(v).contractDigest, ReadReport(v).runnerVersion))
    ensures Same(At(v, "sdk"), SdkJson(ReadReport(v).sdk)) && Same(At(v, "summary"), SummaryJson(ReadReport(v).summary))
  {
    MemberNames();
    ReportSchemas();
    ReportPart(d, v, 1);
    ContractForm(d, At(v, "contract"));
    ReportPart(d, v, 2);
    SdkForm(d, At(v, "sdk"));
    ReportPart(d, v, 5);
    SummaryForm(d, At(v, "summary"));
  }

  lemma {:induction false} TextForms(d: Document, v: Json)
    requires Standing(d, v, REPORT_SCHEMA) == Valid
    ensures At(v, "apiVersion") == Str(ReadReport(v).apiVersion)
    ensures At(v, "datasetVersion") == Str(ReadReport(v).datasetVersion)
    ensures At(v, "evidenceDigest") == Str(ReadReport(v).evidenceDigest)
  {
    MemberNames();
    ReportSchemas();
    ReportPart(d, v, 3);
    TextForm(d, At(v, "apiVersion"));
    ReportPart(d, v, 4);
    TextForm(d, At(v, "datasetVersion"));
    ReportPart(d, v, 6);
    TextForm(d, At(v, "evidenceDigest"));
  }

  lemma {:induction false} ListForms(d: Document, v: Json)
    requires Standing(d, v, REPORT_SCHEMA) == Valid
    ensures Same(At(v, "evidence"), Arr(Map(EntryJson, ReadReport(v).evidence)))
    ensures Same(At(v, "results"), Arr(Map(ResultJson, ReadReport(v).results)))
  {
    MemberNames();
    ReportSchemas();
    ReportPart(d, v, 7);
    EvidenceForm(d, At(v, "evidence"));
    ReportPart(d, v, 8);
    ResultsForm(d, At(v, "results"));
  }

  lemma {:induction false} NineParts(v: Json, values: seq<Json>)
    requires |values| == 9 && v.Obj?
    requires Same(At(v, "schemaVersion"), values[0]) && Same(At(v, "contract"), values[1]) &&
      Same(At(v, "sdk"), values[2])
    requires Same(At(v, "apiVersion"), values[3]) && Same(At(v, "datasetVersion"), values[4]) &&
      Same(At(v, "summary"), values[5])
    requires Same(At(v, "evidenceDigest"), values[6]) && Same(At(v, "evidence"), values[7]) &&
      Same(At(v, "results"), values[8])
    ensures |REPORT_PROPERTIES| == 9
    ensures forall i :: 0 <= i < 9 ==> Same(At(v, REPORT_PROPERTIES[i].name), values[i])
  {
    MemberNames();
  }

  /** What satisfies the report schema is, up to member order, the JSON of the record read of it. */
  lemma {:induction false} RecordOf(d: Document, v: Json)
    requires Standing(d, v, REPORT_SCHEMA) == Valid
    ensures WellFormed(At(v, "schemaVersion")) && Same(v, ReportForm(At(v, "schemaVersion"), ReadReport(v)))
  {
    var version := At(v, "schemaVersion");
    MemberNames();
    ReportPart(d, v, 0);
    SameItself(version);
    HeadForms(d, v);
    TextForms(d, v);
    ListForms(d, v);
    NineParts(v, ReportValues(version, ReadReport(v)));
    ReportNames();
    WholeRecord(d, v, REPORT_PROPERTIES, ReportValues(version, ReadReport(v)));
  }

  /** A well-shaped record whose JSON the value is up to member order, with a version that Ruby takes for 2. */
  ghost predicate IsReport(d: Document, v: Json, version: Json, r: Report) {
    WellFormed(version) && RubyEqual(d, version, Int(2)) && Shape(r) && Same(v, ReportForm(version, r))
  }

  lemma {:induction false} RecordFound(d: Document, v: Json)
    requires Standing(d, v, REPORT_SCHEMA) == Valid
    ensures IsReport(d, v, At(v, "schemaVersion"), ReadReport(v))
  {
    RecordOf(d, v);
    FormSatisfies(d, v, At(v, "schemaVersion"), ReadReport(v));
  }

  lemma {:induction false} OneRecord(d: Document, v: Json, version: Json, r: Report)
    requires Faithful(d) && IsReport(d, v, version, r)
    ensures Satisfies(d, v, REPORT_SCHEMA) && r == ReadReport(v)
  {
    ReadBack(v, version, r);
    FormSatisfies(d, v, version, r);
  }

  /**
   * Any JSON value whatever validates against the report schema if and only if it is, up to the
   * order of members, the JSON of a record with the shape the report checks assume: of the record
   * read of it, and of no other.
   */
  lemma {:induction false} ReportDocumentIff(d: Document, v: Json)
    requires Faithful(d) && WellFormed(v)
    ensures WellFormedDocument(d)
    ensures Validate(d, v, REPORT_SCHEMA) == Valid <==> exists version, r :: IsReport(d, v, version, r)
    ensures forall version, r :: IsReport(d, v, version, r) ==> r == ReadReport(v)
  {
    SchemaWellFormed(d);
    ValidateExact(d, v, REPORT_SCHEMA);
    if Satisfies(d, v, REPORT_SCHEMA) {
      RecordFound(d, v);
    }
    forall version, r | IsReport(d, v, version, r) ensures Satisfies(d, v, REPORT_SCHEMA) && r == ReadReport(v) {
      OneRecord(d, v, version, r);
    }
  }

  lemma {:induction false} FormSatisfies(d: Document, v: Json, version: Json, r: Report)
    requires Faithful(d) && Same(v, ReportForm(version, r))
    requires r.schemaVersion == 2
    ensures Satisfies(d, v, REPORT_SCHEMA) <==> RubyEqual(d, version, Int(2)) && Shape(r)
  {
    SatisfiesSame(d, v, ReportForm(version, r), REPORT_SCHEMA);
    ReportIff(d, version, r);
    assert r.(schemaVersion := 2) == r;
  }
}
