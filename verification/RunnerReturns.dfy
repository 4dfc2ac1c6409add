/** When `runConformance` returns at all. */
module RunnerReturns {
  // No semantic check of an executed case may throw, and the run must have seen the canonical
  // dataset version and exactly one API version in what the adapter did.

  import opened Prelude
  import opened Json
  import opened Contract
  import opened Reports
  import opened Semantics
  import opened Runner

  // ---------------------------------------------------------------- dataset versions in a value

  /** Somewhere inside the value a member `datasetVersion` holds this non-empty string. */
  ghost predicate Mentions(v: Json, version: string) {
    match v
    case Arr(items) => exists i :: 0 <= i < |items| && Mentions(items[i], version)
    case Obj(fields) =>
      exists i :: 0 <= i < |fields| && (Names(fields[i], version) || Mentions(fields[i].value, version))
    case _ => false
  }

  ghost predicate Names(m: Member, version: string) {
    m.key == "datasetVersion" && m.value == Str(version) && version != ""
  }

  /** The recursive collection finds exactly the versions the value mentions. */
  lemma {:induction false} CollectedIff(v: Json, version: string)
    ensures version in CollectDatasetVersions(v) <==> Mentions(v, version)
    decreases v, 1
  {
    match v
    case Arr(items) => CollectedFromItems(items, version);
    case Obj(fields) => CollectedFromMembers(fields, version);
    case _ =>
  }

  lemma {:induction false} CollectedFromItems(items: seq<Json>, version: string)
    ensures version in CollectFromItems(items) <==> exists i :: 0 <= i < |items| && Mentions(items[i], version)
    decreases items, 0
  {
    if |items| > 0 {
      CollectedIff(items[0], version);
      CollectedFromItems(items[1..], version);
      if i :| 0 <= i < |items[1..]| && Mentions(items[1..][i], version) {
        assert Mentions(items[i + 1], version);
      }
      if i :| 1 <= i < |items| && Mentions(items[i], version) {
        assert Mentions(items[1..][i - 1], version);
      }
    }
  }

  lemma {:induction false} CollectedFromMembers(fields: seq<Member>, version: string)
    ensures version in CollectFromMembers(fields) <==>
      exists i :: 0 <= i < |fields| && (Names(fields[i], version) || Mentions(fields[i].value, version))
    decreases fields, 0
  {
    if |fields| > 0 {
      CollectedIff(fields[0].value, version);
      CollectedFromMembers(fields[1..], version);
      if i :| 0 <= i < |fields[1..]| && (Names(fields[1..][i], version) || Mentions(fields[1..][i].value, version)) {
        assert fields[i + 1] == fields[1..][i];
      }
      if i :| 1 <= i < |fields| && (Names(fields[i], version) || Mentions(fields[i].value, version)) {
        assert fields[1..][i - 1] == fields[i];
      }
    }
  }

  // ---------------------------------------------------------------- what a whole run saw

  /** Some executed case/protocol pair answered with a value that mentions the dataset version. */
  ghost predicate SawDataset(h: Harness, supported: seq<string>, cases: seq<Case>, version: string) {
    exists c, p :: c in cases && p in c.protocols && p in supported && Answered(h, c, p, version)
  }

  /** The adapter answered with a value that could be walked, whatever threw after that. */
  ghost predicate Answered(h: Harness, c: Case, p: string, version: string) {
    match h.execute(c.id, p)
    case Resolved(Some(r)) => !r.value.Endless? && Mentions(Shown(r.value), version)
    case _ => false
  }

  /** The adapter's evidence shows a request whose text names the version. */
  ghost predicate NamesApi(h: Harness, c: Case, p: string, version: string) {
    match h.execute(c.id, p)
    case Resolved(Some(r)) =>
      && !r.value.Endless? && r.evidence.Some? && HasText(r.evidence.value.request)
      && version in h.apiVersions(TextOf(h.collate, r.evidence.value.request).value)
    case _ => false
  }

  lemma {:induction false} StepApiIff(h: Harness, c: Case, p: string, version: string)
    ensures version in Step(h, c, p).apis <==> NamesApi(h, c, p, version)
  {
  }

  /** Some executed pair's request text names the API version. */
  ghost predicate SawApi(h: Harness, supported: seq<string>, cases: seq<Case>, version: string) {
    exists c, p :: c in cases && p in c.protocols && p in supported && NamesApi(h, c, p, version)
  }

  lemma {:induction false} StepDatasetIff(h: Harness, c: Case, p: string, version: string)
    ensures version in Step(h, c, p).datasets <==> Answered(h, c, p, version)
  {
    match h.execute(c.id, p)
    case Resolved(Some(r)) => CollectedIff(Shown(r.value), version);
    case _ =>
  }

  lemma {:induction false} AddAllIs(seen: seq<string>, more: seq<string>)
    requires Distinct(seen)
    ensures Distinct(AddAll(seen, more))
    ensures forall v :: v in AddAll(seen, more) <==> v in seen || v in more
    decreases more
  {
    if |more| > 0 {
      var next := if more[0] in seen then seen else seen + [more[0]];
      AddAllIs(next, more[1..]);
      assert forall v :: v in more <==> v == more[0] || v in more[1..];
      assert forall v :: v in next <==> v in seen || v == more[0];
    }
  }

  lemma {:induction false} SeenInCase(h: Harness, c: Case, protocols: seq<string>, seen: Observed, version: string)
    requires Distinct(seen.apis)
    ensures var t := ObserveCase(h, c, protocols, seen);
      && Distinct(t.apis)
      && (version in t.datasets <==>
        version in seen.datasets || exists p :: p in protocols && Answered(h, c, p, version))
      && (version in t.apis <==> version in seen.apis || exists p :: p in protocols && NamesApi(h, c, p, version))
  {
    if |protocols| > 0 {
      var rest, last := protocols[..|protocols| - 1], protocols[|protocols| - 1];
      assert protocols == rest + [last];
      SeenInCase(h, c, rest, seen, version);
      StepDatasetIff(h, c, last, version);
      StepApiIff(h, c, last, version);
      AddAllIs(ObserveCase(h, c, rest, seen).apis, Step(h, c, last).apis);
    }
  }

  lemma {:induction false} SeenInRun(h: Harness, supported: seq<string>, cases: seq<Case>, version: string)
    ensures var t := ObserveRun(h, supported, cases);
      && Distinct(t.apis)
      && (version in t.datasets <==> SawDataset(h, supported, cases, version))
      && (version in t.apis <==> SawApi(h, supported, cases, version))
  {
    if |cases| > 0 {
      var rest, last := cases[..|cases| - 1], cases[|cases| - 1];
      assert cases == rest + [last];
      SeenInRun(h, supported, rest, version);
      SeenInCase(h, last, RunProtocols(last, supported), ObserveRun(h, supported, rest), version);
      SawSnoc(h, supported, rest, last, version);
    }
  }

  lemma {:induction false} SawSnoc(h: Harness, supported: seq<string>, rest: seq<Case>, last: Case, version: string)
    ensures SawDataset(h, supported, rest + [last], version) <==>
      SawDataset(h, supported, rest, version) ||
        exists p :: p in RunProtocols(last, supported) && Answered(h, last, p, version)
    ensures SawApi(h, supported, rest + [last], version) <==>
      SawApi(h, supported, rest, version) ||
        exists p :: p in RunProtocols(last, supported) && NamesApi(h, last, p, version)
  {
    assert forall c :: c in rest + [last] <==> c in rest || c == last;
    assert forall p :: p in RunProtocols(last, supported) <==> p in last.protocols && p in supported;
  }

  // ---------------------------------------------------------------- semantic checks that throw

  /** What the adapter answered over the protocols, in their order and without those it rejected. */
  ghost function Answers(h: Harness, c: Case, protocols: seq<string>): seq<Execution> {
    if |protocols| == 0 then []
    else
      var rest, last := protocols[..|protocols| - 1], protocols[|protocols| - 1];
      match h.execute(c.id, last)
      case Resolved(r) => Answers(h, c, rest) + [(last, r)]
      case _ => Answers(h, c, rest)
  }

  lemma {:induction false} StepAnswer(h: Harness, c: Case, p: string)
    ensures Step(h, c, p).executions ==
      if h.execute(c.id, p).Resolved? then [(p, h.execute(c.id, p).result)] else []
  {
  }

  /** Every answer is handed to the semantic checks, whatever threw after it, and nothing else is. */
  lemma {:induction false} ExecutionsAnswer(h: Harness, c: Case, protocols: seq<string>)
    ensures Executions(h, c, protocols) == Answers(h, c, protocols)
  {
    if |protocols| > 0 {
      ExecutionsAnswer(h, c, protocols[..|protocols| - 1]);
      StepAnswer(h, c, protocols[|protocols| - 1]);
    }
  }

  /** The semantic checks of the case throw on the answers over its supported protocols. */
  ghost predicate CaseThrows(h: Harness, supported: seq<string>, c: Case) {
    RunProtocols(c, supported) != [] && Throws(h.collate, c, Answers(h, c, RunProtocols(c, supported)))
  }

  lemma {:induction false} CaseThrowsIff(h: Harness, supported: seq<string>, c: Case)
    ensures CaseThrows(h, supported, c) <==> RunProtocols(c, supported) != [] && CaseOutcome(h, supported, c).Err?
  {
    ExecutionsAnswer(h, c, RunProtocols(c, supported));
    ThrowsIff(h.collate, h.typeError, c, Answers(h, c, RunProtocols(c, supported)));
  }

  lemma {:induction false} ThrowingSnoc(h: Harness, supported: seq<string>, rest: seq<Case>, last: Case)
    ensures (exists c :: c in rest + [last] && CaseThrows(h, supported, c)) <==>
      (exists c :: c in rest && CaseThrows(h, supported, c)) || CaseThrows(h, supported, last)
  {
    assert forall c :: c in rest + [last] <==> c in rest || c == last;
  }

  lemma {:induction false} RejectionSnoc(h: Harness, supported: seq<string>, rest: seq<Case>, last: Case)
    ensures Rejection(h, supported, rest + [last]).Some? <==>
      Rejection(h, supported, rest).Some? || CaseThrows(h, supported, last)
  {
    CaseThrowsIff(h, supported, last);
    assert (rest + [last])[..|rest|] == rest;
  }

  /** The loop over the cases is left early exactly when the checks of some executed case throw. */
  lemma {:induction false} RejectionIff(h: Harness, supported: seq<string>, cases: seq<Case>)
    ensures Rejection(h, supported, cases).Some? <==> exists c :: c in cases && CaseThrows(h, supported, c)
  {
    if |cases| > 0 {
      var rest, last := cases[..|cases| - 1], cases[|cases| - 1];
      assert cases == rest + [last];
      RejectionIff(h, supported, rest);
      RejectionSnoc(h, supported, rest, last);
      ThrowingSnoc(h, supported, rest, last);
    }
  }

  lemma {:induction false} FirstAnswer(h: Harness, c: Case, protocols: seq<string>)
    requires |protocols| > 0 && h.execute(c.id, protocols[0]).Resolved?
    ensures |Answers(h, c, protocols)| > 0
    ensures Answers(h, c, protocols)[0] == (protocols[0], h.execute(c.id, protocols[0]).result)
  {
    if |protocols| > 1 {
      FirstAnswer(h, c, protocols[..|protocols| - 1]);
    }
  }

  /** An answer as the adapter's types promise it: an object with evidence, a value that prints, full pagination. */
  predicate WellTyped(r: Option<AdapterResult>) { r.Some? && HasText(r.value.value) && PaginationReadable(r.value) }

  lemma {:induction false} TypedAnswers(h: Harness, c: Case, protocols: seq<string>)
    requires forall p :: p in protocols && h.execute(c.id, p).Resolved? ==> WellTyped(h.execute(c.id, p).result)
    ensures forall e :: e in Answers(h, c, protocols) ==> WellTyped(e.1)
  {
    if |protocols| > 0 {
      var rest, last := protocols[..|protocols| - 1], protocols[|protocols| - 1];
      assert last in protocols && forall p :: p in rest ==> p in protocols;
      TypedAnswers(h, c, rest);
    }
  }

  lemma {:induction false} TypedReadable(collate: (string, string) -> bool, semantics: seq<string>,
      results: seq<AdapterResult>)
    requires forall i :: 0 <= i < |results| ==> HasText(results[i].value) && PaginationReadable(results[i])
    ensures !Unreadable(collate, semantics, results)
  {
    assert forall i :: 0 <= i < |results| ==> Values(results)[i] == results[i].value;
    assert forall v :: v in Values(results) ==> HasText(v);
    assert forall r :: r in results ==> PaginationReadable(r);
  }

  /** The semantic checks never throw on answers that keep the adapter's types, whatever else goes wrong. */
  lemma {:induction false} TypedNeverThrows(h: Harness, supported: seq<string>, c: Case)
    requires forall p :: p in RunProtocols(c, supported) && h.execute(c.id, p).Resolved? ==>
      WellTyped(h.execute(c.id, p).result)
    ensures !CaseThrows(h, supported, c)
  {
    var answers := Answers(h, c, RunProtocols(c, supported));
    TypedAnswers(h, c, RunProtocols(c, supported));
    forall i | 0 <= i < |answers| ensures WellTyped(answers[i].1) {
      assert answers[i] in answers;
    }
    TypedReadable(h.collate, SemanticsOf(c), ResultsOf(answers).value);
  }

  predicate ReadsEvidence(semantics: seq<string>) {
    "anonymousByDefault" in semantics || "cancellationPropagates" in semantics || "stableCursorPagination" in semantics
  }

  /**
   * The guarded block survives an answer without evidence; the semantic checks that read evidence
   * do not. If the first answer to such a case has none, the whole run rejects.
   */
  lemma {:induction false} MissingEvidenceRejects(h: Harness, digest: string, sdk: Sdk, cases: seq<Case>, c: Case,
      r: AdapterResult)
    requires c in cases && ReadsEvidence(SemanticsOf(c)) && RunProtocols(c, sdk.supportedProtocols) != []
    requires h.execute(c.id, RunProtocols(c, sdk.supportedProtocols)[0]) == Resolved(Some(r)) && r.evidence.None?
    ensures Run(h, digest, sdk, cases).Err? && Run(h, digest, sdk, cases).error.SemanticsThrew?
  {
    var answers := Answers(h, c, RunProtocols(c, sdk.supportedProtocols));
    FirstAnswer(h, c, RunProtocols(c, sdk.supportedProtocols));
    var results := ResultsOf(answers);
    if results.Some? {
      assert results.value[0] == r && r in results.value && !PaginationReadable(r);
      assert EvidenceMissed(results.value, ShowsAnonymous) && EvidenceMissed(results.value, ShowsCancelled);
    }
    assert CaseThrows(h, sdk.supportedProtocols, c);
    RejectionIff(h, sdk.supportedProtocols, cases);
  }

  // ---------------------------------------------------------------- main result

  ghost predicate OnlyMember(s: seq<string>, v: string) { v in s && forall w :: w in s ==> w == v }

  /** All requests of the run together name this API version and no other. */
  ghost predicate OnlyApi(h: Harness, supported: seq<string>, cases: seq<Case>, v: string) {
    SawApi(h, supported, cases, v) && forall w :: SawApi(h, supported, cases, w) ==> w == v
  }

  lemma {:induction false} OneElement(s: seq<string>)
    requires Distinct(s)
    ensures |s| == 1 ==> OnlyMember(s, s[0])
    ensures forall v :: OnlyMember(s, v) ==> |s| == 1 && s[0] == v
  {
    forall v | OnlyMember(s, v) ensures |s| == 1 && s[0] == v {
      OneMember(s, v);
    }
  }

  lemma {:induction false} OneMember(s: seq<string>, v: string)
    requires Distinct(s) && OnlyMember(s, v)
    ensures |s| == 1 && s[0] == v
  {
    DistinctSameElements(s, [v]);
    assert |s| == |multiset(s)| == |multiset([v])|;
    assert s[0] in s;
  }

  /**
   * A run returns a report if and only if the semantic checks of no executed case throw, some
   * answer mentions the canonical dataset version, and all requests together name exactly one API
   * version, which is then the report's.
   */
  lemma {:induction false} RunReturnsIff(h: Harness, digest: string, sdk: Sdk, cases: seq<Case>)
    ensures Run(h, digest, sdk, cases).Ok? <==>
      && (forall c :: c in cases ==> !CaseThrows(h, sdk.supportedProtocols, c))
      && SawDataset(h, sdk.supportedProtocols, cases, CANONICAL_DATASET_VERSION)
      && exists v :: OnlyApi(h, sdk.supportedProtocols, cases, v)
    ensures Run(h, digest, sdk, cases).Ok? ==>
      OnlyApi(h, sdk.supportedProtocols, cases, Run(h, digest, sdk, cases).value.apiVersion)
  {
    var supported := sdk.supportedProtocols;
    var apis := ObserveRun(h, supported, cases).apis;
    RejectionIff(h, supported, cases);
    SeenInRun(h, supported, cases, CANONICAL_DATASET_VERSION);
    ApisSeen(h, supported, cases);
    OneElement(apis);
    assert |apis| == 1 ==> OnlyApi(h, supported, cases, apis[0]);
  }

  lemma {:induction false} ApisSeen(h: Harness, supported: seq<string>, cases: seq<Case>)
    ensures forall v :: OnlyMember(ObserveRun(h, supported, cases).apis, v) <==> OnlyApi(h, supported, cases, v)
  {
    forall v ensures v in ObserveRun(h, supported, cases).apis <==> SawApi(h, supported, cases, v) {
      SeenInRun(h, supported, cases, v);
    }
  }
}
