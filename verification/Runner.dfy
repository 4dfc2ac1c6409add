/** `runConformance`: the loop that turns contract cases and an adapter into a report. */
module Runner {
  import opened Prelude
  import opened Json
  import opened Reports
  import opened Contract
  import opened Semantics

  const RUNNER_VERSION := "1.0.0"

  const CANONICAL_DATASET_VERSION := "2026.08.3-ulid"

  /** What awaiting `adapter.execute` comes to; `None` is an adapter that resolves with no object. */
  datatype Attempt = Threw(message: string) | Resolved(result: Option<AdapterResult>)

  /**
   * The adapter, `validateResult` (which may throw), the version scan, the collation, the digest,
   * and the engine's message for reading a property of `undefined`.
   */
  datatype Harness = Harness(
    execute: (string, string) -> Attempt,
    judge: (Case, AdapterResult, string) -> Result<seq<string>, string>,
    apiVersions: string -> seq<string>,
    collate: (string, string) -> bool,
    sha256: string -> string,
    typeError: TypeErrors)

  datatype RunError = SemanticsThrew(message: string) | DatasetNotObserved | ApiVersionCount(count: nat)

  // ---------------------------------------------------------------- one case over one protocol

  function CollectDatasetVersions(v: Json): set<string>
    decreases v, 1
  {
    match v
    case Arr(items) => CollectFromItems(items)
    case Obj(fields) => CollectFromMembers(fields)
    case _ => {}
  }

  function CollectFromItems(items: seq<Json>): set<string>
    decreases items, 0
  {
    if |items| == 0 then {} else CollectDatasetVersions(items[0]) + CollectFromItems(items[1..])
  }

  function CollectFromMembers(fields: seq<Member>): set<string>
    decreases fields, 0
  {
    if |fields| == 0 then {}
    else
      var value := fields[0].value;
      (if fields[0].key == "datasetVersion" && value.Str? && value.s != "" then {value.s} else {})
        + CollectDatasetVersions(value) + CollectFromMembers(fields[1..])
  }

  function Mismatch(r: AdapterResult, protocol: string): seq<string> {
    if exists v :: v in CollectDatasetVersions(Shown(r.value)) && v != CANONICAL_DATASET_VERSION then
      [protocol + ": dataset version differs from " + CANONICAL_DATASET_VERSION]
    else []
  }

  function Prefixed(protocol: string, failures: seq<string>): seq<string> {
    Map((failure: string) => protocol + ": " + failure, failures)
  }

  /** What the `catch` block pushes. */
  function Caught(protocol: string, thrown: Option<string>): seq<string> {
    if thrown.Some? then [protocol + ": " + thrown.value] else []
  }

  /** What one turn of the protocol loop adds to the executions, version sets, failures and evidence. */
  datatype Trace = Trace(
    executions: seq<Execution>, datasets: set<string>, apis: seq<string>, failures: seq<string>,
    evidence: seq<Evidence>)

  /** The guarded block, as far as it gets, and the failure the `catch` block adds if it is left early. */
  function Step(h: Harness, c: Case, p: string): Trace {
    match h.execute(c.id, p)
    case Threw(message) => Trace([], {}, [], [p + ": " + message], [])
    case Resolved(None) => Trace([(p, None)], {}, [], [p + ": " + h.typeError("value")], [])
    case Resolved(Some(r)) =>
      if r.value.Endless? then Trace([(p, Some(r))], {}, [], [p + ": " + r.value.message], [])
      else
        var rest := AfterVersions(h, c, p, r);
        Trace([(p, Some(r))], CollectDatasetVersions(Shown(r.value)), rest.apis, Mismatch(r, p) + rest.failures,
          rest.evidence)
  }

  /** The block after the dataset versions were collected. */
  function AfterVersions(h: Harness, c: Case, p: string, r: AdapterResult): Trace {
    if r.evidence.None? then Trace([], {}, [], [p + ": " + h.typeError("request")], [])
    else
      var request := TextOf(h.collate, r.evidence.value.request);
      if request.Err? then Trace([], {}, [], [p + ": " + request.error], [])
      else
        var apis, judged := h.apiVersions(request.value), h.judge(c, r, p);
        if judged.Err? then Trace([], {}, apis, [p + ": " + judged.error], [])
        else
          var response := TextOf(h.collate, r.evidence.value.response);
          if response.Err? then Trace([], {}, apis, Prefixed(p, judged.value) + [p + ": " + response.error], [])
          else
            Trace([], {}, apis, Prefixed(p, judged.value),
              [Evidence(c.id, p, h.sha256(request.value), h.sha256(response.value))])
  }

  // ---------------------------------------------------------------- whole run, as functions

  function RunProtocols(c: Case, supported: seq<string>): seq<string> {
    Filter((p: string) => p in supported, c.protocols)
  }

  function Executions(h: Harness, c: Case, protocols: seq<string>): seq<Execution> {
    if |protocols| == 0 then []
    else Executions(h, c, protocols[..|protocols| - 1]) + Step(h, c, protocols[|protocols| - 1]).executions
  }

  function StepwiseFailures(h: Harness, c: Case, protocols: seq<string>): seq<string> {
    if |protocols| == 0 then []
    else StepwiseFailures(h, c, protocols[..|protocols| - 1]) + Step(h, c, protocols[|protocols| - 1]).failures
  }

  function EvidenceOver(h: Harness, c: Case, protocols: seq<string>): seq<Evidence> {
    if |protocols| == 0 then []
    else EvidenceOver(h, c, protocols[..|protocols| - 1]) + Step(h, c, protocols[|protocols| - 1]).evidence
  }

  /** The failures of a case, or what its semantic checks throw outside the `try` block. */
  function CaseOutcome(h: Harness, supported: seq<string>, c: Case): Result<seq<string>, string> {
    var protocols := RunProtocols(c, supported);
    var semantic := SemanticOutcome(h.collate, h.typeError, c, Executions(h, c, protocols));
    if semantic.Err? then semantic else Ok(StepwiseFailures(h, c, protocols) + semantic.value)
  }

  /** The failures of a case whose semantic checks do not throw. */
  function CaseFailures(h: Harness, supported: seq<string>, c: Case): seq<string> {
    var outcome := CaseOutcome(h, supported, c);
    if outcome.Ok? then outcome.value else []
  }

  /** What ends the run in the loop over the cases, if anything does. */
  function Rejection(h: Harness, supported: seq<string>, cases: seq<Case>): Option<string> {
    if |cases| == 0 then None
    else
      var last := cases[|cases| - 1];
      var earlier := Rejection(h, supported, cases[..|cases| - 1]);
      if earlier.Some? || RunProtocols(last, supported) == [] || CaseOutcome(h, supported, last).Ok? then earlier
      else Some(CaseOutcome(h, supported, last).error)
  }

  function JoinFailures(failures: seq<string>): string {
    if |failures| == 0 then ""
    else if |failures| == 1 then failures[0]
    else failures[0] + "; " + JoinFailures(failures[1..])
  }

  function ResultOf(h: Harness, supported: seq<string>, c: Case): CaseResult {
    var failures := CaseFailures(h, supported, c);
    if |failures| == 0 then CaseResult(c.id, "passed", RunProtocols(c, supported), None)
    else CaseResult(c.id, "failed", RunProtocols(c, supported), Some(JoinFailures(failures)))
  }

  /** Insertion-ordered set union. */
  function AddAll(seen: seq<string>, more: seq<string>): seq<string>
    decreases more
  {
    if |more| == 0 then seen
    else AddAll(if more[0] in seen then seen else seen + [more[0]], more[1..])
  }

  datatype Observed = Observed(datasets: set<string>, apis: seq<string>)

  function ObserveStep(h: Harness, c: Case, p: string, seen: Observed): Observed {
    Observed(seen.datasets + Step(h, c, p).datasets, AddAll(seen.apis, Step(h, c, p).apis))
  }

  function ObserveCase(h: Harness, c: Case, protocols: seq<string>, seen: Observed): Observed {
    if |protocols| == 0 then seen
    else
      var last := |protocols| - 1;
      ObserveStep(h, c, protocols[last], ObserveCase(h, c, protocols[..last], seen))
  }

  function ObserveRun(h: Harness, supported: seq<string>, cases: seq<Case>): Observed {
    if |cases| == 0 then Observed({}, [])
    else
      var last := |cases| - 1;
      ObserveCase(h, cases[last], RunProtocols(cases[last], supported), ObserveRun(h, supported, cases[..last]))
  }

  function RunResults(h: Harness, supported: seq<string>, cases: seq<Case>): seq<CaseResult> {
    if |cases| == 0 then []
    else
      var last := cases[|cases| - 1];
      RunResults(h, supported, cases[..|cases| - 1])
        + (if RunProtocols(last, supported) == [] then [] else [ResultOf(h, supported, last)])
  }

  function RunEvidence(h: Harness, supported: seq<string>, cases: seq<Case>): seq<Evidence> {
    if |cases| == 0 then []
    else
      var last := cases[|cases| - 1];
      RunEvidence(h, supported, cases[..|cases| - 1]) + EvidenceOver(h, last, RunProtocols(last, supported))
  }

  function Assemble(h: Harness, digest: string, sdk: Sdk, seen: Observed, results: seq<CaseResult>,
      evidence: seq<Evidence>): Result<Report, RunError>
  {
    if CANONICAL_DATASET_VERSION !in seen.datasets then Err(DatasetNotObserved)
    else if |seen.apis| != 1 then Err(ApiVersionCount(|seen.apis|))
    else Ok(Report(2, digest, RUNNER_VERSION, sdk, seen.apis[0], CANONICAL_DATASET_VERSION,
      SummaryOf(results), h.sha256(Stable(h.collate, EvidenceJson(evidence))), evidence, results))
  }

  function Run(h: Harness, digest: string, sdk: Sdk, cases: seq<Case>): Result<Report, RunError> {
    var supported := sdk.supportedProtocols;
    var rejection := Rejection(h, supported, cases);
    if rejection.Some? then Err(SemanticsThrew(rejection.value))
    else
      Assemble(h, digest, sdk, ObserveRun(h, supported, cases),
        RunResults(h, supported, cases), RunEvidence(h, supported, cases))
  }

  // ---------------------------------------------------------------- the imperative runner

  lemma {:induction false} StepAdded(h: Harness, c: Case, protocols: seq<string>, j: nat, evidence: seq<Evidence>,
      seen: Observed)
    requires j < |protocols|
    ensures var done, next, step := protocols[..j], protocols[..j + 1], Step(h, c, protocols[j]);
      && Executions(h, c, next) == Executions(h, c, done) + step.executions
      && StepwiseFailures(h, c, next) == StepwiseFailures(h, c, done) + step.failures
      && evidence + EvidenceOver(h, c, next) == evidence + EvidenceOver(h, c, done) + step.evidence
      && ObserveCase(h, c, next, seen) == ObserveStep(h, c, protocols[j], ObserveCase(h, c, done, seen))
  {
    assert protocols[..j + 1][..j] == protocols[..j];
    var done, step := EvidenceOver(h, c, protocols[..j]), Step(h, c, protocols[j]);
    assert evidence + (done + step.evidence) == evidence + done + step.evidence;
  }

  /** The body of the inner loop: the `try` block up to where it is left, then the `catch` block if it was. */
  method ExecuteStep(h: Harness, c: Case, p: string, executions: seq<Execution>, failures: seq<string>,
      evidence: seq<Evidence>, seen: Observed)
    returns (executions': seq<Execution>, failures': seq<string>, evidence': seq<Evidence>, seen': Observed)
    ensures executions' == executions + Step(h, c, p).executions
    ensures failures' == failures + Step(h, c, p).failures
    ensures evidence' == evidence + Step(h, c, p).evidence
    ensures seen' == ObserveStep(h, c, p, seen)
  {
    executions', failures', evidence', seen' := executions, failures, evidence, seen;
    var attempt := h.execute(c.id, p);
    var thrown: Option<string> := None;
    if attempt.Threw? {
      thrown := Some(attempt.message);
    } else {
      executions' := executions' + [(p, attempt.result)];
      if attempt.result.None? {
        thrown := Some(h.typeError("value"));
      } else if attempt.result.value.value.Endless? {
        thrown := Some(attempt.result.value.value.message);
      } else {
        failures', evidence', seen', thrown := ReadResult(h, c, p, attempt.result.value, failures', evidence', seen');
      }
    }
    if thrown.Some? {
      failures' := failures' + [p + ": " + thrown.value];
    }
  }

  /** The `try` block from the collection of the dataset versions on. */
  method ReadResult(h: Harness, c: Case, p: string, result: AdapterResult, failures: seq<string>,
      evidence: seq<Evidence>, seen: Observed)
    returns (failures': seq<string>, evidence': seq<Evidence>, seen': Observed, thrown: Option<string>)
    ensures failures' + Caught(p, thrown) == failures + (Mismatch(result, p) + AfterVersions(h, c, p, result).failures)
    ensures evidence' == evidence + AfterVersions(h, c, p, result).evidence
    ensures seen' == Observed(seen.datasets + CollectDatasetVersions(Shown(result.value)),
      AddAll(seen.apis, AfterVersions(h, c, p, result).apis))
  {
    var observed := CollectDatasetVersions(Shown(result.value));
    var mismatches: seq<string> := [];
    if exists v :: v in observed && v != CANONICAL_DATASET_VERSION {
      mismatches := [p + ": dataset version differs from " + CANONICAL_DATASET_VERSION];
    }
    ghost var rest := AfterVersions(h, c, p, result).failures;
    assert failures + mismatches + rest == failures + (mismatches + rest);
    failures', evidence', seen', thrown := ReadEvidence(h, c, p, result, failures + mismatches, evidence,
      seen.(datasets := seen.datasets + observed));
  }

  /** The rest of the `try` block, from the first look at the evidence on. */
  method ReadEvidence(h: Harness, c: Case, p: string, result: AdapterResult, failures: seq<string>,
      evidence: seq<Evidence>, seen: Observed)
    returns (failures': seq<string>, evidence': seq<Evidence>, seen': Observed, thrown: Option<string>)
    ensures failures' + Caught(p, thrown) == failures + AfterVersions(h, c, p, result).failures
    ensures evidence' == evidence + AfterVersions(h, c, p, result).evidence
    ensures seen' == Observed(seen.datasets, AddAll(seen.apis, AfterVersions(h, c, p, result).apis))
  {
    failures', evidence', seen', thrown := failures, evidence, seen, None;
    if result.evidence.None? {
      thrown := Some(h.typeError("request"));
      return;
    }
    var requestText := TextOf(h.collate, result.evidence.value.request);
    if requestText.Err? {
      thrown := Some(requestText.error);
      return;
    }
    seen' := seen'.(apis := AddAll(seen'.apis, h.apiVersions(requestText.value)));
    var judged := h.judge(c, result, p);
    if judged.Err? {
      thrown := Some(judged.error);
      return;
    }
    failures' := failures' + Prefixed(p, judged.value);
    var responseText := TextOf(h.collate, result.evidence.value.response);
    if responseText.Err? {
      thrown := Some(responseText.error);
      return;
    }
    evidence' := evidence' + [Evidence(c.id, p, h.sha256(requestText.value), h.sha256(responseText.value))];
  }

  /** The inner loop over one case's protocols, then its semantic checks, which nothing catches. */
  method RunCase(h: Harness, supported: seq<string>, c: Case, evidence: seq<Evidence>, seen: Observed)
    returns (failures: Result<seq<string>, string>, evidence': seq<Evidence>, seen': Observed)
    ensures failures == CaseOutcome(h, supported, c)
    ensures evidence' == evidence + EvidenceOver(h, c, RunProtocols(c, supported))
    ensures seen' == ObserveCase(h, c, RunProtocols(c, supported), seen)
  {
    var protocols := RunProtocols(c, supported);
    var executions: seq<Execution>, stepwise: seq<string> := [], [];
    evidence', seen' := evidence, seen;
    for j := 0 to |protocols|
      invariant executions == Executions(h, c, protocols[..j])
      invariant stepwise == StepwiseFailures(h, c, protocols[..j])
      invariant evidence' == evidence + EvidenceOver(h, c, protocols[..j])
      invariant seen' == ObserveCase(h, c, protocols[..j], seen)
    {
      StepAdded(h, c, protocols, j, evidence, seen);
      executions, stepwise, evidence', seen' := ExecuteStep(h, c, protocols[j], executions, stepwise, evidence', seen');
    }
    assert protocols[..|protocols|] == protocols;
    var semantic := SemanticFailures(h.collate, h.typeError, c, executions);
    failures := if semantic.Err? then semantic else Ok(stepwise + semantic.value);
  }

  lemma {:induction false} RejectionStays(h: Harness, supported: seq<string>, cases: seq<Case>, n: nat)
    requires n <= |cases| && Rejection(h, supported, cases[..n]).Some?
    ensures Rejection(h, supported, cases) == Rejection(h, supported, cases[..n])
  {
    if n == |cases| {
      assert cases[..n] == cases;
    } else {
      var shorter := cases[..|cases| - 1];
      assert shorter[..n] == cases[..n];
      RejectionStays(h, supported, shorter, n);
    }
  }

  lemma {:induction false} CaseAdded(h: Harness, supported: seq<string>, cases: seq<Case>, i: nat)
    requires i < |cases|
    ensures var done, next, c := cases[..i], cases[..i + 1], cases[i];
      var protocols := RunProtocols(c, supported);
      && RunResults(h, supported, next) ==
        RunResults(h, supported, done) + (if protocols == [] then [] else [ResultOf(h, supported, c)])
      && RunEvidence(h, supported, next) == RunEvidence(h, supported, done) + EvidenceOver(h, c, protocols)
      && ObserveRun(h, supported, next) == ObserveCase(h, c, protocols, ObserveRun(h, supported, done))
  {
    assert cases[..i + 1][..i] == cases[..i];
  }

  lemma {:induction false} CaseRejects(h: Harness, supported: seq<string>, cases: seq<Case>, i: nat)
    requires i < |cases| && Rejection(h, supported, cases[..i]).None?
    ensures var c, next := cases[i], Rejection(h, supported, cases[..i + 1]);
      if RunProtocols(c, supported) == [] || CaseOutcome(h, supported, c).Ok? then next.None?
      else next == Some(CaseOutcome(h, supported, c).error) == Rejection(h, supported, cases)
  {
    assert cases[..i + 1][..i] == cases[..i];
    if RunProtocols(cases[i], supported) != [] && CaseOutcome(h, supported, cases[i]).Err? {
      RejectionStays(h, supported, cases, i + 1);
    }
  }

  /** The outer loop over the contract's cases, skipping those with no supported protocol. */
  method RunConformance(h: Harness, digest: string, sdk: Sdk, cases: seq<Case>) returns (r: Result<Report, RunError>)
    ensures r == Run(h, digest, sdk, cases)
  {
    var supported := sdk.supportedProtocols;
    var results: seq<CaseResult>, evidence: seq<Evidence> := [], [];
    var seen := Observed({}, []);
    for i := 0 to |cases|
      invariant Rejection(h, supported, cases[..i]).None?
      invariant results == RunResults(h, supported, cases[..i])
      invariant evidence == RunEvidence(h, supported, cases[..i])
      invariant seen == ObserveRun(h, supported, cases[..i])
    {
      var c := cases[i];
      CaseAdded(h, supported, cases, i);
      CaseRejects(h, supported, cases, i);
      var protocols := RunProtocols(c, supported);
      if |protocols| == 0 {
        continue;
      }
      var failures;
      failures, evidence, seen := RunCase(h, supported, c, evidence, seen);
      if failures.Err? {
        return Err(SemanticsThrew(failures.error));
      }
      results := results + [if |failures.value| == 0 then CaseResult(c.id, "passed", protocols, None)
                            else CaseResult(c.id, "failed", protocols, Some(JoinFailures(failures.value)))];
    }
    assert cases[..|cases|] == cases;
    r := Assemble(h, digest, sdk, seen, results, evidence);
  }
}
