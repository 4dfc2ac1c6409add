/** The portal's promise-chain request queue, as a step system. */
module PortalQueue {
  // Every call hangs its request on the promise the module variable holds and leaves a new one
  // there; settlements and reactions interleave freely.

  import opened Prelude

  /** What the network answers to one request; an unreadable JSON body has no payload. */
  datatype Reply = NetworkError(error: string) | Http(ok: bool, payload: Option<string>, message: Option<string>)

  /** The promise a caller holds. */
  datatype State = Waiting | InFlight | Fulfilled(value: string) | Rejected(reason: string)

  datatype Tail = Pending | TailFulfilled | TailRejected

  /** A request: the tail promise it hangs on (-1 is the initial, resolved one), its state, and its own tail. */
  datatype Request = Request(after: int, state: State, tail: Tail)

  /** All requests, the tail the module variable refers to, and the order in which requests started. */
  datatype Queue = Queue(requests: seq<Request>, last: int, started: seq<nat>)

  datatype Step = Submit | Start(id: nat) | Respond(answered: nat, reply: Reply) | Release(settled: nat)

  predicate Settled(s: State) { s.Fulfilled? || s.Rejected? }

  function Empty(): Queue { Queue([], -1, []) }

  /** The request function: an error status throws, with the server's message when there is one. */
  function Outcome(reply: Reply): State {
    match reply
    case NetworkError(error) => Rejected(error)
    case Http(ok, payload, message) =>
      if ok then Fulfilled(if payload.Some? then payload.value else "{}")
      else Rejected(if message.Some? then message.value else "That request could not be completed.")
  }

  /** `result.then(() => undefined, () => undefined)`: either handler returns, so the tail is fulfilled. */
  function TailAfter(s: State): Tail {
    match s
    case Fulfilled(_) => TailFulfilled
    case Rejected(_) => TailFulfilled
    case _ => Pending
  }

  /** `then(run, run)` reacts to a tail settled in either way. */
  predicate TailSettled(q: Queue, after: int) {
    after < 0 || (after < |q.requests| && !q.requests[after].tail.Pending?)
  }

  predicate Enabled(q: Queue, step: Step) {
    match step
    case Submit => true
    case Start(i) => i < |q.requests| && q.requests[i].state.Waiting? && TailSettled(q, q.requests[i].after)
    case Respond(i, _) => i < |q.requests| && q.requests[i].state.InFlight?
    case Release(i) => i < |q.requests| && Settled(q.requests[i].state) && q.requests[i].tail.Pending?
  }

  function Apply(q: Queue, step: Step): Queue
    requires Enabled(q, step)
  {
    match step
    case Submit => q.(requests := q.requests + [Request(q.last, Waiting, Pending)], last := |q.requests|)
    case Start(i) => q.(requests := q.requests[i := q.requests[i].(state := InFlight)], started := q.started + [i])
    case Respond(i, reply) => q.(requests := q.requests[i := q.requests[i].(state := Outcome(reply))])
    case Release(i) => q.(requests := q.requests[i := q.requests[i].(tail := TailAfter(q.requests[i].state))])
  }

  // ---------------------------------------------------------------- the module variable and its callbacks

  class Portal {
    var requests: seq<Request>
    var portalRequestQueue: int
    var started: seq<nat>

    function View(): Queue
      reads this
    {
      Queue(requests, portalRequestQueue, started)
    }

    constructor ()
      ensures View() == Empty()
    {
      requests, portalRequestQueue, started := [], -1, [];
    }

    /** `portalRequest`: chain on the current tail, then make this request's tail the current one. */
    method PortalRequest() returns (id: nat)
      modifies this
      ensures View() == Apply(old(View()), Submit) && id == |old(requests)|
    {
      id := |requests|;
      requests := requests + [Request(portalRequestQueue, Waiting, Pending)];
      portalRequestQueue := id;
    }

    /** The reaction of `then(run, run)`. */
    method Run(id: nat)
      requires Enabled(View(), Start(id))
      modifies this
      ensures View() == Apply(old(View()), Start(id))
    {
      started := started + [id];
      requests := requests[id := requests[id].(state := InFlight)];
    }

    /** The response arrives and settles the caller's promise. */
    method Settle(id: nat, reply: Reply)
      requires Enabled(View(), Respond(id, reply))
      modifies this
      ensures View() == Apply(old(View()), Respond(id, reply))
    {
      var state: State;
      if reply.NetworkError? {
        state := Rejected(reply.error);
      } else if !reply.ok {
        state := Rejected(if reply.message.Some? then reply.message.value else "That request could not be completed.");
      } else {
        state := Fulfilled(if reply.payload.Some? then reply.payload.value else "{}");
      }
      requests := requests[id := requests[id].(state := state)];
    }

    /** The reaction that turns the settled result into the tail. */
    method SettleTail(id: nat)
      requires Enabled(View(), Release(id))
      modifies this
      ensures View() == Apply(old(View()), Release(id))
    {
      requests := requests[id := requests[id].(tail := TailFulfilled)];
    }
  }

  // ---------------------------------------------------------------- runs

  predicate ValidRun(steps: seq<Step>)
    decreases |steps|, 0
  {
    |steps| == 0 || (ValidRun(steps[..|steps| - 1]) && Enabled(After(steps[..|steps| - 1]), steps[|steps| - 1]))
  }

  /** The state an interleaving leads to. */
  function After(steps: seq<Step>): Queue
    requires ValidRun(steps)
    decreases |steps|, 1
  {
    if |steps| == 0 then Empty() else Apply(After(steps[..|steps| - 1]), steps[|steps| - 1])
  }

  /** Requests chain one behind the other, and each is ahead of the next by a settled tail. */
  ghost predicate Invariant(q: Queue) {
    && q.last == |q.requests| - 1
    && (forall i :: 0 <= i < |q.requests| ==> q.requests[i].after == i - 1)
    && (forall i :: 0 <= i < |q.requests| ==> !q.requests[i].tail.TailRejected?)
    && (forall i :: 0 <= i < |q.requests| && !q.requests[i].tail.Pending? ==> Settled(q.requests[i].state))
    && (forall i :: 1 <= i < |q.requests| && !q.requests[i].state.Waiting? ==> !q.requests[i - 1].tail.Pending?)
    && |q.started| <= |q.requests|
    && (forall k :: 0 <= k < |q.started| ==> q.started[k] == k)
    && (forall i :: 0 <= i < |q.requests| ==> (q.requests[i].state.Waiting? <==> i >= |q.started|))
  }

  lemma {:induction false} SubmitKeepsInvariant(q: Queue)
    requires Invariant(q)
    ensures Invariant(Apply(q, Submit))
  {
  }

  lemma {:induction false} StartKeepsInvariant(q: Queue, i: nat)
    requires Invariant(q) && Enabled(q, Start(i))
    ensures Invariant(Apply(q, Start(i)))
  {
    assert i >= |q.started|;
    assert i > 0 ==> !q.requests[i - 1].tail.Pending?;
    assert i > 0 ==> Settled(q.requests[i - 1].state);
    assert i == |q.started|;
    var t := Apply(q, Start(i));
    assert forall j :: 0 <= j < |q.requests| && j != i ==> t.requests[j] == q.requests[j];
  }

  lemma {:induction false} RespondKeepsInvariant(q: Queue, i: nat, reply: Reply)
    requires Invariant(q) && Enabled(q, Respond(i, reply))
    ensures Invariant(Apply(q, Respond(i, reply)))
  {
    var t := Apply(q, Respond(i, reply));
    assert Settled(t.requests[i].state);
    assert forall j :: 0 <= j < |q.requests| && j != i ==> t.requests[j] == q.requests[j];
  }

  lemma {:induction false} ReleaseKeepsInvariant(q: Queue, i: nat)
    requires Invariant(q) && Enabled(q, Release(i))
    ensures Invariant(Apply(q, Release(i)))
  {
    var t := Apply(q, Release(i));
    assert t.requests[i].tail.TailFulfilled?;
    assert forall j :: 0 <= j < |q.requests| && j != i ==> t.requests[j] == q.requests[j];
  }

  lemma {:induction false} StepKeepsInvariant(q: Queue, step: Step)
    requires Invariant(q) && Enabled(q, step)
    ensures Invariant(Apply(q, step))
  {
    match step
    case Submit => SubmitKeepsInvariant(q);
    case Start(i) => StartKeepsInvariant(q, i);
    case Respond(i, reply) => RespondKeepsInvariant(q, i, reply);
    case Release(i) => ReleaseKeepsInvariant(q, i);
  }

  lemma {:induction false} RunKeepsInvariant(steps: seq<Step>)
    requires ValidRun(steps)
    ensures Invariant(After(steps))
  {
    if |steps| > 0 {
      RunKeepsInvariant(steps[..|steps| - 1]);
      StepKeepsInvariant(After(steps[..|steps| - 1]), steps[|steps| - 1]);
    }
  }

  lemma {:induction false} EarlierSettled(q: Queue, i: nat, j: nat)
    requires Invariant(q) && i < j < |q.requests| && !q.requests[j].state.Waiting?
    ensures Settled(q.requests[i].state) && q.requests[i].tail.TailFulfilled?
    decreases j - i
  {
    assert !q.requests[j - 1].tail.Pending?;
    if i < j - 1 {
      EarlierSettled(q, i, j - 1);
    }
  }

  /** At most one request is in flight, whatever the interleaving. */
  lemma {:induction false} AtMostOneInFlight(steps: seq<Step>, i: nat, j: nat)
    requires ValidRun(steps) && i < j < |After(steps).requests|
    ensures !(After(steps).requests[i].state.InFlight? && After(steps).requests[j].state.InFlight?)
  {
    RunKeepsInvariant(steps);
    if !After(steps).requests[j].state.Waiting? {
      EarlierSettled(After(steps), i, j);
    }
  }

  /** Requests start in submission order. */
  lemma {:induction false} StartsInOrder(steps: seq<Step>, k: nat)
    requires ValidRun(steps) && k < |After(steps).started|
    ensures After(steps).started[k] == k
  {
    RunKeepsInvariant(steps);
  }

  /** When a request starts, every request submitted before it has settled. */
  lemma {:induction false} StartsAfterPredecessors(steps: seq<Step>, n: nat, i: nat, j: nat)
    requires ValidRun(steps) && n < |steps| && steps[n] == Start(i) && j < i
    ensures ValidRun(steps[..n])
    ensures j < |After(steps[..n]).requests| && Settled(After(steps[..n]).requests[j].state)
  {
    StepWasEnabled(steps, n);
    RunKeepsInvariant(steps[..n]);
    StartableAfter(After(steps[..n]), i, j);
  }

  lemma {:induction false} StartableAfter(q: Queue, i: nat, j: nat)
    requires Invariant(q) && Enabled(q, Start(i)) && j < i
    ensures Settled(q.requests[j].state)
  {
    assert TailSettled(q, i - 1);
    if j < i - 1 {
      EarlierSettled(q, j, i - 1);
    }
  }

  lemma {:induction false} StepWasEnabled(steps: seq<Step>, n: nat)
    requires ValidRun(steps) && n < |steps|
    ensures ValidRun(steps[..n]) && Enabled(After(steps[..n]), steps[n])
  {
    PrefixValid(steps, n + 1);
    assert steps[..n + 1][..n] == steps[..n];
  }

  lemma {:induction false} PrefixValid(steps: seq<Step>, n: nat)
    requires ValidRun(steps) && n <= |steps|
    ensures ValidRun(steps[..n])
    decreases |steps|
  {
    if n == |steps| {
      assert steps[..n] == steps;
    } else {
      PrefixValid(steps[..|steps| - 1], n);
      assert steps[..|steps| - 1][..n] == steps[..n];
    }
  }

  // ---------------------------------------------------------------- nothing blocks

  /** An internal reaction or an outstanding response that could come next. */
  ghost predicate CanMove(q: Queue) {
    exists i: nat :: i < |q.requests| &&
      (Enabled(q, Start(i)) || q.requests[i].state.InFlight? || Enabled(q, Release(i)))
  }

  /** A rejection never blocks: the queue stands still only when every request has settled. */
  lemma {:induction false} NeverBlocked(steps: seq<Step>)
    requires ValidRun(steps) && !CanMove(After(steps))
    ensures forall i :: 0 <= i < |After(steps).requests| ==> Settled(After(steps).requests[i].state)
  {
    var q := After(steps);
    RunKeepsInvariant(steps);
    if |q.started| < |q.requests| {
      WaitingCanMove(q);
    }
    forall i | 0 <= i < |q.requests| ensures Settled(q.requests[i].state) {
      assert !q.requests[i].state.InFlight?;
    }
  }

  lemma {:induction false} WaitingCanMove(q: Queue)
    requires Invariant(q) && |q.started| < |q.requests|
    ensures CanMove(q)
  {
    var n := |q.started|;
    if n > 0 && q.requests[n - 1].tail.Pending? {
      assert q.requests[n - 1].state.InFlight? || Enabled(q, Release(n - 1));
    } else {
      assert Enabled(q, Start(n));
    }
  }

  function Progress(r: Request): nat {
    (match r.state case Waiting => 0 case InFlight => 1 case _ => 2) + (if r.tail.Pending? then 0 else 1)
  }

  function TotalProgress(requests: seq<Request>): nat {
    if |requests| == 0 then 0 else TotalProgress(requests[..|requests| - 1]) + Progress(requests[|requests| - 1])
  }

  lemma {:induction false} ProgressBound(requests: seq<Request>)
    ensures TotalProgress(requests) <= 3 * |requests|
  {
    if |requests| > 0 {
      ProgressBound(requests[..|requests| - 1]);
    }
  }

  lemma {:induction false} ProgressUpdate(requests: seq<Request>, i: nat, r: Request)
    requires i < |requests|
    ensures TotalProgress(requests[i := r]) == TotalProgress(requests) - Progress(requests[i]) + Progress(r)
  {
    var last := |requests| - 1;
    if i == last {
      assert requests[i := r][..last] == requests[..last];
    } else {
      assert requests[i := r][..last] == requests[..last][i := r];
      ProgressUpdate(requests[..last], i, r);
    }
  }

  function Moves(steps: seq<Step>): nat {
    if |steps| == 0 then 0 else Moves(steps[..|steps| - 1]) + (if steps[|steps| - 1].Submit? then 0 else 1)
  }

  lemma {:induction false} StepProgress(q: Queue, step: Step)
    requires Enabled(q, step)
    ensures TotalProgress(Apply(q, step).requests) == TotalProgress(q.requests) + (if step.Submit? then 0 else 1)
  {
    match step {
      case Submit => assert Apply(q, step).requests[..|q.requests|] == q.requests;
      case Start(i) => ProgressUpdate(q.requests, i, Apply(q, step).requests[i]);
      case Respond(i, reply) => ProgressUpdate(q.requests, i, Apply(q, step).requests[i]);
      case Release(i) => ProgressUpdate(q.requests, i, Apply(q, step).requests[i]);
    }
  }

  /** Every run makes exactly the progress it took steps for, so n requests are done after 3n of them. */
  lemma {:induction false} MovesAreProgress(steps: seq<Step>)
    requires ValidRun(steps)
    ensures Moves(steps) == TotalProgress(After(steps).requests) <= 3 * |After(steps).requests|
  {
    if |steps| > 0 {
      MovesAreProgress(steps[..|steps| - 1]);
      StepProgress(After(steps[..|steps| - 1]), steps[|steps| - 1]);
      ProgressBound(After(steps).requests);
    }
  }

  // ---------------------------------------------------------------- each caller gets its own answer

  /** The one response of a run to request `i`, if there is one. */
  function ReplyTo(steps: seq<Step>, i: nat): Option<Reply> {
    if |steps| == 0 then None
    else
      var last := steps[|steps| - 1];
      if last.Respond? && last.answered == i then Some(last.reply) else ReplyTo(steps[..|steps| - 1], i)
  }

  function CountReplies(steps: seq<Step>, i: nat): nat {
    if |steps| == 0 then 0
    else
      var last := steps[|steps| - 1];
      CountReplies(steps[..|steps| - 1], i) + (if last.Respond? && last.answered == i then 1 else 0)
  }

  /**
   * A promise fulfilled with the payload of a success (an empty object when it cannot be read), or
   * rejected with the network's error, the server's message, or a general one.
   */
  ghost predicate Answers(reply: Reply, s: State) {
    && (s.Fulfilled? <==> reply.Http? && reply.ok)
    && (s.Rejected? <==> reply.NetworkError? || !reply.ok)
    && (reply.NetworkError? ==> s == Rejected(reply.error))
    && (reply.Http? && reply.ok && reply.payload.Some? ==> s == Fulfilled(reply.payload.value))
    && (reply.Http? && reply.ok && reply.payload.None? ==> s == Fulfilled("{}"))
    && (reply.Http? && !reply.ok && reply.message.Some? ==> s == Rejected(reply.message.value))
    && (reply.Http? && !reply.ok && reply.message.None? ==> s == Rejected("That request could not be completed."))
  }

  /** A caller's promise settles with the outcome of the one response to its own request. */
  lemma {:induction false} OwnOutcome(steps: seq<Step>, i: nat)
    requires ValidRun(steps) && i < |After(steps).requests|
    ensures Settled(After(steps).requests[i].state) <==> ReplyTo(steps, i).Some?
    ensures ReplyTo(steps, i).Some? ==> Answers(ReplyTo(steps, i).value, After(steps).requests[i].state)
    ensures CountReplies(steps, i) == if Settled(After(steps).requests[i].state) then 1 else 0
  {
    if |steps| > 0 {
      var before, q := steps[..|steps| - 1], After(steps[..|steps| - 1]);
      if i < |q.requests| {
        OwnOutcome(before, i);
      } else {
        NoReplyBeforeSubmission(before, i);
      }
    }
  }

  lemma {:induction false} NoReplyBeforeSubmission(steps: seq<Step>, i: nat)
    requires ValidRun(steps) && i >= |After(steps).requests|
    ensures ReplyTo(steps, i).None? && CountReplies(steps, i) == 0
  {
    if |steps| > 0 {
      NoReplyBeforeSubmission(steps[..|steps| - 1], i);
    }
  }
}
