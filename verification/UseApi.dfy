/** The admin console's `useApi` hook: one abort controller per effect run, responses in any order. */
module UseApi {
  // A step is a render, the effect React runs after it, an unmount, or the callback of one
  // request's promise.

  import opened Prelude

  type Key = string

  datatype Outcome = Data(data: string) | Error(error: string, named: string)

  /** What the hook returns. */
  datatype Async = Async(data: Option<string>, loading: bool, error: Option<string>)

  /** One effect run: the key it was for, its controller, and the outcome once the promise settled. */
  datatype Request = Request(key: Key, aborted: bool, outcome: Option<Outcome>)

  /** `scheduled` is an effect of the last render that has not run yet. */
  datatype Component = Component(
    state: Async, requests: seq<Request>, rendered: Option<Key>, scheduled: bool, mounted: bool)

  datatype Step = Render(key: Key) | Effect | Unmount | Land(id: nat, outcome: Outcome)

  function Initial(): Component { Component(Async(None, true, None), [], None, false, true) }

  /** An error named `AbortError` is never shown. */
  predicate Showable(o: Outcome) { o.Data? || o.named != "AbortError" }

  function Shown(o: Outcome): Async {
    match o
    case Data(data) => Async(Some(data), false, None)
    case Error(error, _) => Async(None, false, Some(error))
  }

  /** The state holds the data and no error, or the error and no data. */
  ghost predicate Displays(state: Async, o: Outcome) {
    match o
    case Data(data) => state.data == Some(data) && state.error == None && !state.loading
    case Error(error, named) =>
      named != "AbortError" && state.data == None && state.error == Some(error) && !state.loading
  }

  /** The cleanup of the effect that ran last. */
  function AbortLast(requests: seq<Request>): seq<Request> {
    if |requests| == 0 then [] else requests[|requests| - 1 := requests[|requests| - 1].(aborted := true)]
  }

  /** React runs a scheduled effect before it renders again. */
  predicate Enabled(c: Component, step: Step) {
    match step
    case Render(_) => c.mounted && !c.scheduled
    case Effect => c.mounted && c.scheduled && c.rendered.Some?
    case Unmount => c.mounted
    case Land(i, _) => i < |c.requests| && c.requests[i].outcome.None?
  }

  function Apply(c: Component, step: Step): Component
    requires Enabled(c, step)
  {
    match step
    case Render(key) => c.(rendered := Some(key), scheduled := c.rendered != Some(key))
    case Effect => c.(
      scheduled := false, state := c.state.(loading := true, error := None),
      requests := AbortLast(c.requests) + [Request(c.rendered.value, false, None)])
    case Unmount => c.(mounted := false, scheduled := false, requests := AbortLast(c.requests))
    case Land(i, outcome) => c.(
      requests := c.requests[i := c.requests[i].(outcome := Some(outcome))],
      state := if c.requests[i].aborted || !Showable(outcome) then c.state else Shown(outcome))
  }

  // ---------------------------------------------------------------- the hook

  class Hook {
    var state: Async
    var requests: seq<Request>
    var rendered: Option<Key>
    var scheduled: bool
    var mounted: bool

    function View(): Component
      reads this
    {
      Component(state, requests, rendered, scheduled, mounted)
    }

    constructor ()
      ensures View() == Initial()
    {
      state := Async(None, true, None);
      requests, rendered, scheduled, mounted := [], None, false, true;
    }

    method Render(key: Key)
      requires Enabled(View(), Step.Render(key))
      modifies this
      ensures View() == Apply(old(View()), Step.Render(key))
    {
      scheduled := rendered != Some(key);
      rendered := Some(key);
    }

    method Cleanup()
      modifies this`requests
      ensures requests == AbortLast(old(requests))
    {
      if |requests| > 0 {
        var last := |requests| - 1;
        requests := requests[last := requests[last].(aborted := true)];
      }
    }

    method RunEffect()
      requires Enabled(View(), Effect)
      modifies this
      ensures View() == Apply(old(View()), Effect)
    {
      Cleanup();
      state := state.(loading := true, error := None);
      requests := requests + [Request(rendered.value, false, None)];
      scheduled := false;
    }

    method Leave()
      requires Enabled(View(), Unmount)
      modifies this
      ensures View() == Apply(old(View()), Unmount)
    {
      Cleanup();
      mounted, scheduled := false, false;
    }

    /** The two callbacks given to `then`. */
    method OnSettled(id: nat, outcome: Outcome)
      requires Enabled(View(), Land(id, outcome))
      modifies this
      ensures View() == Apply(old(View()), Land(id, outcome))
    {
      requests := requests[id := requests[id].(outcome := Some(outcome))];
      if outcome.Data? {
        if !requests[id].aborted {
          state := Async(Some(outcome.data), false, None);
        }
      } else {
        if requests[id].aborted || outcome.named == "AbortError" {
          return;
        }
        state := Async(None, false, Some(outcome.error));
      }
    }
  }

  // ---------------------------------------------------------------- runs

  predicate ValidRun(steps: seq<Step>)
    decreases |steps|, 0
  {
    |steps| == 0 || (ValidRun(steps[..|steps| - 1]) && Enabled(After(steps[..|steps| - 1]), steps[|steps| - 1]))
  }

  function After(steps: seq<Step>): Component
    requires ValidRun(steps)
    decreases |steps|, 1
  {
    if |steps| == 0 then Initial() else Apply(After(steps[..|steps| - 1]), steps[|steps| - 1])
  }

  function Last(c: Component): Request
    requires |c.requests| > 0
  {
    c.requests[|c.requests| - 1]
  }

  /** Only the latest controller can be live, and a settled state is its request's outcome. */
  ghost predicate Invariant(c: Component) {
    && (forall i :: 0 <= i < |c.requests| - 1 ==> c.requests[i].aborted)
    && (|c.requests| > 0 ==> (Last(c).aborted <==> !c.mounted))
    && (!c.state.loading ==>
      && |c.requests| > 0 && Last(c).outcome.Some? && Showable(Last(c).outcome.value)
      && c.state == Shown(Last(c).outcome.value))
    && (c.mounted && |c.requests| > 0 && Last(c).outcome.Some? && Showable(Last(c).outcome.value) ==> !c.state.loading)
    && (c.mounted && !c.scheduled ==>
      (|c.requests| > 0 ==> c.rendered == Some(Last(c).key)) && (|c.requests| == 0 ==> c.rendered.None?))
    && (c.scheduled ==> c.rendered.Some? && (|c.requests| > 0 ==> c.rendered != Some(Last(c).key)))
  }

  lemma {:induction false} StepKeepsInvariant(c: Component, step: Step)
    requires Invariant(c) && Enabled(c, step)
    ensures Invariant(Apply(c, step))
  {
  }

  lemma {:induction false} RunKeepsInvariant(steps: seq<Step>)
    requires ValidRun(steps)
    ensures Invariant(After(steps))
  {
    if |steps| > 0 {
      RunKeepsInvariant(steps[..|steps| - 1]);
      StepKeepsInvariant(After(steps[..|steps| - 1]), steps[|steps| - 1]);
    }
  }

  /** At most one controller is live, and it belongs to the latest effect run. */
  lemma {:induction false} OneLiveController(steps: seq<Step>, i: nat)
    requires ValidRun(steps) && i < |After(steps).requests|
    ensures !After(steps).requests[i].aborted <==> i == |After(steps).requests| - 1 && After(steps).mounted
  {
    RunKeepsInvariant(steps);
  }

  /**
   * Whenever `loading` is false, what is shown is the outcome of the latest request; it belongs to
   * the key on screen exactly when no effect for a newer render is still scheduled.
   */
  lemma {:induction false} NoStaleResponse(steps: seq<Step>)
    requires ValidRun(steps) && !After(steps).state.loading
    ensures var c := After(steps); |c.requests| > 0 && Last(c).outcome.Some? && Displays(c.state, Last(c).outcome.value)
    ensures var c := After(steps); c.mounted ==> (c.rendered == Some(Last(c).key) <==> !c.scheduled)
  {
    RunKeepsInvariant(steps);
  }

  /** While mounted, `loading` ends exactly when the latest request has settled with something to show. */
  lemma {:induction false} LoadingEndsIff(steps: seq<Step>)
    requires ValidRun(steps) && After(steps).mounted
    ensures var c := After(steps);
      !c.state.loading <==>
        && |c.requests| > 0 && Last(c).outcome.Some?
        && (Last(c).outcome.value.Error? ==> Last(c).outcome.value.named != "AbortError")
  {
    RunKeepsInvariant(steps);
  }

  /** A response of an earlier effect run, or one after unmounting, changes nothing on screen. */
  lemma {:induction false} LateResponseIgnored(steps: seq<Step>, i: nat, outcome: Outcome)
    requires ValidRun(steps + [Land(i, outcome)])
    ensures ValidRun(steps)
    ensures i < |After(steps).requests| - 1 || !After(steps).mounted ==>
      After(steps + [Land(i, outcome)]).state == After(steps).state
  {
    assert (steps + [Land(i, outcome)])[..|steps|] == steps;
    RunKeepsInvariant(steps);
  }

  /** The window the hook leaves: a new key is rendered while the old key's data still counts as loaded. */
  lemma {:induction false} RenderBeforeEffect(a: Key, b: Key, data: string)
    requires a != b
    ensures var steps := [Render(a), Effect, Land(0, Data(data)), Render(b)];
      && ValidRun(steps)
      && !After(steps).state.loading && After(steps).state.data == Some(data)
      && After(steps).rendered == Some(b) && |After(steps).requests| == 1 && After(steps).requests[0].key == a
  {
    var s1 := [Render(a)];
    var s2 := s1 + [Effect];
    var s3 := s2 + [Land(0, Data(data))];
    var s4 := s3 + [Render(b)];
    assert s4[..3] == s3 && s3[..2] == s2 && s2[..1] == s1 && s1[..0] == [];
    var c1 := Initial().(rendered := Some(a), scheduled := true);
    assert After(s1) == c1;
    var c2 := c1.(scheduled := false, requests := [Request(a, false, None)]);
    assert After(s2) == c2;
    var c3 := c2.(state := Shown(Data(data)), requests := [Request(a, false, Some(Data(data)))]);
    assert After(s3) == c3;
    assert After(s4) == c3.(rendered := Some(b), scheduled := true);
    assert s4 == [Render(a), Effect, Land(0, Data(data)), Render(b)];
  }
}
