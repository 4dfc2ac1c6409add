/** When a run reports a case as passed, in terms of the adapter's answers and what `validateResult` says of them. */
module CaseVerdict {
  import opened Prelude
  import opened Json
  import opened Contract
  import opened Reports
  import opened Semantics
  import opened Runner
  import opened RunnerReturns

  // ---------------------------------------------------------------- the conditions

  /** The protocol is one of the case's and one of the adapter's. */
  predicate Shared(c: Case, supported: seq<string>, p: string) { p in c.protocols && p in supported }

  /** The adapter supports a protocol of the case, so the run executes it. */
  ghost predicate Runs(c: Case, supported: seq<string>) { exists p :: Shared(c, supported, p) }

  /** Whatever the answer's value mentions as dataset version is the canonical one. */
  ghost predicate OnlyCanonical(v: JsValue) {
    forall version :: Mentions(Shown(v), version) ==> version == "2026.08.3-ulid"
  }

  /** The adapter resolved with readable evidence, and there was nothing to object to in the answer. */
  ghost predicate PairPasses(h: Harness, c: Case, p: string) {
    match h.execute(c.id, p)
    case Resolved(Some(r)) =>
      && !r.value.Endless? && OnlyCanonical(r.value)
      && r.evidence.Some? && HasText(r.evidence.value.request) && HasText(r.evidence.value.response)
      && h.judge(c, r, p) == Ok([])
    case _ => false
  }

  ghost function AnswerOf(h: Harness, c: Case, p: string): AdapterResult
    requires PairPasses(h, c, p)
  {
    h.execute(c.id, p).result.value
  }

  ghost predicate PairsPass(h: Harness, supported: seq<string>, c: Case) {
    forall p :: Shared(c, supported, p) ==> PairPasses(h, c, p)
  }

  /** The answers together are what the case's semantics ask for. */
  ghost predicate SemanticsPass(h: Harness, supported: seq<string>, c: Case)
    requires PairsPass(h, supported, c)
  {
    c.expected.Success? ==>
      && (forall p :: Shared(c, supported, p) ==> AnswerHolds(h.collate, c.expected.semantics, AnswerOf(h, c, p)))
      && ("protocolResultsEquivalent" in c.expected.semantics ==> AnswersAlike(h, supported, c))
  }

  /** The values of all answers print one text. */
  ghost predicate AnswersAlike(h: Harness, supported: seq<string>, c: Case)
    requires PairsPass(h, supported, c)
  {
    && (forall p :: Shared(c, supported, p) ==> HasText(AnswerOf(h, c, p).value))
    && forall p, q :: Shared(c, supported, p) && Shared(c, supported, q) ==>
      TextOf(h.collate, AnswerOf(h, c, p).value) == TextOf(h.collate, AnswerOf(h, c, q).value)
  }

  ghost predicate CasePasses(h: Harness, supported: seq<string>, c: Case) {
    PairsPass(h, supported, c) && SemanticsPass(h, supported, c)
  }

  // ---------------------------------------------------------------- one pair

  lemma {:induction false} MismatchIff(r: AdapterResult, p: string)
    ensures Mismatch(r, p) == [] <==> OnlyCanonical(r.value)
  {
    forall version
      ensures version in CollectDatasetVersions(Shown(r.value)) <==> Mentions(Shown(r.value), version)
    {
      CollectedIff(Shown(r.value), version);
    }
  }

  lemma {:induction false} StepIff(h: Harness, c: Case, p: string)
    ensures Step(h, c, p).failures == [] <==> PairPasses(h, c, p)
    ensures PairPasses(h, c, p) ==> Step(h, c, p).executions == [(p, Some(AnswerOf(h, c, p)))]
  {
    match h.execute(c.id, p)
    case Resolved(Some(r)) =>
      MismatchIff(r, p);
      PrefixedIff(p, h.judge(c, r, p));
    case _ =>
  }

  lemma {:induction false} PrefixedIff(p: string, judged: Result<seq<string>, string>)
    ensures judged.Ok? ==> (Prefixed(p, judged.value) == [] <==> judged == Ok([]))
  {
    if judged.Ok? {
      assert |Prefixed(p, judged.value)| == |judged.value|;
    }
  }

  // ---------------------------------------------------------------- all pairs of a case

  lemma {:induction false} StepwiseIff(h: Harness, c: Case, protocols: seq<string>)
    ensures StepwiseFailures(h, c, protocols) == [] <==> forall p :: p in protocols ==> PairPasses(h, c, p)
  {
    if |protocols| > 0 {
      var rest, last := protocols[..|protocols| - 1], protocols[|protocols| - 1];
      assert protocols == rest + [last];
      StepwiseIff(h, c, rest);
      StepIff(h, c, last);
    }
  }

  lemma {:induction false} ExecutionsAre(h: Harness, c: Case, protocols: seq<string>)
    requires forall p :: p in protocols ==> PairPasses(h, c, p)
    ensures |Executions(h, c, protocols)| == |protocols|
    ensures forall i :: 0 <= i < |protocols| ==>
      Executions(h, c, protocols)[i] == (protocols[i], Some(AnswerOf(h, c, protocols[i])))
  {
    if |protocols| > 0 {
      var rest, last := protocols[..|protocols| - 1], protocols[|protocols| - 1];
      assert protocols == rest + [last] && last in protocols;
      ExecutionsAre(h, c, rest);
      StepIff(h, c, last);
    }
  }

  lemma {:induction false} ResultsAre(h: Harness, c: Case, protocols: seq<string>) returns (results: seq<AdapterResult>)
    requires forall p :: p in protocols ==> PairPasses(h, c, p)
    ensures ResultsOf(Executions(h, c, protocols)) == Some(results) && |results| == |protocols|
    ensures forall i :: 0 <= i < |protocols| ==> results[i] == AnswerOf(h, c, protocols[i])
  {
    ExecutionsAre(h, c, protocols);
    results := ResultsOf(Executions(h, c, protocols)).value;
  }

  /** Conditions on all results of a list are conditions on the answers over its protocols. */
  lemma {:induction false} AnswersIff(h: Harness, supported: seq<string>, c: Case, protocols: seq<string>,
      results: seq<AdapterResult>)
    requires PairsPass(h, supported, c) && protocols != []
    requires forall p :: p in protocols <==> Shared(c, supported, p)
    requires |results| == |protocols|
    requires forall i :: 0 <= i < |protocols| ==>
      PairPasses(h, c, protocols[i]) && results[i] == AnswerOf(h, c, protocols[i])
    ensures AnswersHold(h.collate, SemanticsOf(c), results) <==> SemanticsPass(h, supported, c)
  {
    var semantics := SemanticsOf(c);
    AnswersEach(h, supported, c, protocols, results);
    if "protocolResultsEquivalent" in semantics {
      AlikeIff(h, supported, c, protocols, results);
    }
  }

  lemma {:induction false} AnswersEach(h: Harness, supported: seq<string>, c: Case, protocols: seq<string>,
      results: seq<AdapterResult>)
    requires PairsPass(h, supported, c) && |results| == |protocols|
    requires forall p :: p in protocols <==> Shared(c, supported, p)
    requires forall i :: 0 <= i < |protocols| ==>
      PairPasses(h, c, protocols[i]) && results[i] == AnswerOf(h, c, protocols[i])
    ensures (forall r :: r in results ==> AnswerHolds(h.collate, SemanticsOf(c), r)) <==>
      forall p :: Shared(c, supported, p) ==> AnswerHolds(h.collate, SemanticsOf(c), AnswerOf(h, c, p))
    ensures !c.expected.Success? ==> forall r :: AnswerHolds(h.collate, SemanticsOf(c), r)
  {
    if forall r :: r in results ==> AnswerHolds(h.collate, SemanticsOf(c), r) {
      forall p | Shared(c, supported, p) ensures AnswerHolds(h.collate, SemanticsOf(c), AnswerOf(h, c, p)) {
        var i :| 0 <= i < |protocols| && protocols[i] == p;
        assert results[i] in results;
      }
    }
    if forall p :: Shared(c, supported, p) ==> AnswerHolds(h.collate, SemanticsOf(c), AnswerOf(h, c, p)) {
      forall r | r in results ensures AnswerHolds(h.collate, SemanticsOf(c), r) {
        var i :| 0 <= i < |results| && results[i] == r;
        assert protocols[i] in protocols;
      }
    }
  }

  lemma {:induction false} AlikeIff(h: Harness, supported: seq<string>, c: Case, protocols: seq<string>,
      results: seq<AdapterResult>)
    requires PairsPass(h, supported, c) && protocols != [] && |results| == |protocols|
    requires forall p :: p in protocols <==> Shared(c, supported, p)
    requires forall i :: 0 <= i < |protocols| ==>
      PairPasses(h, c, protocols[i]) && results[i] == AnswerOf(h, c, protocols[i])
    ensures PrintAlike(h.collate, results) <==> AnswersAlike(h, supported, c)
  {
    forall r ensures r in results <==> exists p :: Shared(c, supported, p) && r == AnswerOf(h, c, p) {
      if r in results {
        var i :| 0 <= i < |results| && results[i] == r;
        assert protocols[i] in protocols;
      }
      if p :| Shared(c, supported, p) && r == AnswerOf(h, c, p) {
        var i :| 0 <= i < |protocols| && protocols[i] == p;
        assert results[i] in results;
      }
    }
    forall p | Shared(c, supported, p) ensures AnswerOf(h, c, p) in results {
    }
  }

  // ---------------------------------------------------------------- the case

  /** A case that runs has no failure exactly when it passes on the answers. */
  lemma {:induction false} CleanIff(h: Harness, supported: seq<string>, c: Case)
    requires RunProtocols(c, supported) != []
    ensures CaseOutcome(h, supported, c) == Ok([]) <==> CasePasses(h, supported, c)
  {
    var protocols := RunProtocols(c, supported);
    assert forall p :: p in protocols <==> Shared(c, supported, p);
    StepwiseIff(h, c, protocols);
    PassesIff(h.collate, h.typeError, c, Executions(h, c, protocols));
    if PairsPass(h, supported, c) {
      var results := ResultsAre(h, c, protocols);
      forall i | 0 <= i < |protocols| ensures PairPasses(h, c, protocols[i]) {
        assert protocols[i] in protocols;
      }
      AnswersIff(h, supported, c, protocols, results);
    }
  }

  lemma {:induction false} ReturnedCase(h: Harness, digest: string, sdk: Sdk, cases: seq<Case>, c: Case)
    requires Run(h, digest, sdk, cases).Ok? && c in cases && RunProtocols(c, sdk.supportedProtocols) != []
    ensures CaseOutcome(h, sdk.supportedProtocols, c).Ok?
  {
    RejectionIff(h, sdk.supportedProtocols, cases);
    CaseThrowsIff(h, sdk.supportedProtocols, c);
  }

  lemma {:induction false} RunsIff(c: Case, supported: seq<string>)
    ensures Runs(c, supported) <==> RunProtocols(c, supported) != []
  {
    var protocols := RunProtocols(c, supported);
    assert forall p :: p in protocols <==> Shared(c, supported, p);
    if protocols != [] {
      assert protocols[0] in protocols;
    }
  }

  /** In a run that returns, an executed case has no failure exactly when it passes on the answers. */
  lemma {:induction false} FailuresIff(h: Harness, digest: string, sdk: Sdk, cases: seq<Case>, c: Case)
    requires Run(h, digest, sdk, cases).Ok? && c in cases && Runs(c, sdk.supportedProtocols)
    ensures CaseFailures(h, sdk.supportedProtocols, c) == [] <==> CasePasses(h, sdk.supportedProtocols, c)
  {
    RunsIff(c, sdk.supportedProtocols);
    ReturnedCase(h, digest, sdk, cases, c);
    CleanIff(h, sdk.supportedProtocols, c);
  }
}
