/** The request loops of the Go, TypeScript and PHP clients over one and the same world. */
module Retry {
  import opened Prelude
  import opened Delays

  /** A `Retry-After` header as Go and TypeScript read it, and the line PHP is given. */
  datatype Header = Header(go: GoReading, ts: TsReading, line: string)

  datatype Outcome = TransportError | Response(status: int, header: Header)

  datatype Sleep = Slept | SleepFailed(aborts: bool)

  /**
   * What the world does at one attempt: cancellation before the call and seen after a failed
   * call, the outcome, and how the sleep after it ends (`again` is the sleep TypeScript starts
   * when the first one failed inside its `try`).
   */
  datatype Attempt = Attempt(cancelled: bool, outcome: Outcome, cancelledDuring: bool, sleep: Sleep, again: Sleep)

  type World = nat -> Attempt

  /**
   * `Delivered(k)`: the outcome of attempt `k`, counted from 0, decides the call. `Cancelled`: the
   * client looked and found the call cancelled. `Interrupted`: a fetch or a sleep was aborted or
   * failed, and its error ended the call.
   */
  datatype Final = Delivered(attempt: nat) | Cancelled(attempt: nat) | Interrupted(attempt: nat)

  datatype Event = Event(attempt: nat, status: Option<int>)

  datatype Run = Run(final: Final, events: seq<Event>, slept: seq<real>)

  function Then(event: seq<Event>, delay: seq<real>, rest: Run): Run {
    Run(rest.final, event + rest.events, delay + rest.slept)
  }

  lemma {:induction false} ThenThen(a: seq<Event>, b: seq<real>, c: seq<Event>, d: seq<real>, rest: Run)
    ensures Then(a, b, Then(c, d, rest)) == Then(a + c, b + d, rest)
  {
    assert a + (c + rest.events) == (a + c) + rest.events;
    assert b + (d + rest.slept) == (b + d) + rest.slept;
  }

  /** Go's `isRetryable`. */
  predicate IsRetryable(status: int) { status == 429 || status == 502 || status == 503 || status == 504 }

  /** TypeScript's `RETRYABLE_STATUS`. */
  const RETRYABLE_STATUS: set<int> := {429, 502, 503, 504}

  /** The statuses a PHP policy has by default. */
  const PHP_STATUSES: seq<int> := [429, 502, 503, 504]

  function StatusOf(o: Outcome): Option<int> { if o.Response? then Some(o.status) else None }

  const NO_GO_HEADER := GoUnreadable

  const NO_TS_HEADER := TsReading(None, None)

  // ---------------------------------------------------------------- Go

  /** One turn of a loop: it ends the call or goes round again. */
  datatype Turn = Stop(run: Run) | Again(events: seq<Event>, slept: seq<real>)

  function GoTurn(c: GoConfig, w: Attempt, attempt: nat): (turn: Turn)
    requires attempt <= c.retries
    ensures turn.Again? ==> attempt < c.retries
  {
    var event := [Event(attempt, StatusOf(w.outcome))];
    if w.cancelled then Stop(Run(Cancelled(attempt), [], []))
    else if w.outcome.TransportError? && w.cancelledDuring then Stop(Run(Cancelled(attempt), event, []))
    else if (w.outcome.Response? && !IsRetryable(w.outcome.status)) || attempt == c.retries then
      Stop(Run(Delivered(attempt), event, []))
    else
      var reading := if w.outcome.Response? then w.outcome.header.go else NO_GO_HEADER;
      var delay := [GoDelay(c, attempt, reading) as real];
      if w.sleep.SleepFailed? then Stop(Run(Interrupted(attempt), event, delay)) else Again(event, delay)
  }

  function GoFrom(c: GoConfig, world: World, attempt: nat): Run
    requires attempt <= c.retries
    decreases c.retries - attempt
  {
    var turn := GoTurn(c, world(attempt), attempt);
    if turn.Stop? then turn.run else Then(turn.events, turn.slept, GoFrom(c, world, attempt + 1))
  }

  lemma {:induction false} GoStopsHere(c: GoConfig, world: World, attempt: nat, events: seq<Event>, slept: seq<real>)
    requires attempt <= c.retries && GoTurn(c, world(attempt), attempt).Stop?
    ensures var run := GoTurn(c, world(attempt), attempt).run;
      Then(events, slept, GoFrom(c, world, attempt)) == Run(run.final, events + run.events, slept + run.slept)
  {
  }

  lemma {:induction false} GoGoesOn(c: GoConfig, world: World, attempt: nat, events: seq<Event>, slept: seq<real>)
    requires attempt <= c.retries && GoTurn(c, world(attempt), attempt).Again?
    ensures var turn := GoTurn(c, world(attempt), attempt);
      Then(events, slept, GoFrom(c, world, attempt)) ==
        Then(events + turn.events, slept + turn.slept, GoFrom(c, world, attempt + 1))
  {
    var turn := GoTurn(c, world(attempt), attempt);
    ThenThen(events, slept, turn.events, turn.slept, GoFrom(c, world, attempt + 1));
  }

  /** The Go client: options write its fields, and a request reports events and sleeps. */
  class GoClient {
    var retries: int
    var baseDelay: int
    var maxDelay: int
    var events: seq<Event>
    var slept: seq<real>

    function Config(): GoConfig
      reads this`retries, this`baseDelay, this`maxDelay
    {
      GoConfig(retries, baseDelay, maxDelay)
    }

    predicate Valid()
      reads this`retries, this`baseDelay, this`maxDelay
    {
      ValidGoConfig(Config())
    }

    constructor ()
      ensures Valid() && Config() == GoConfig(2, 100 * MILLISECOND, 2 * SECOND)
      ensures events == [] && slept == []
    {
      retries, baseDelay, maxDelay := 2, 100 * MILLISECOND, 2 * SECOND;
      events, slept := [], [];
    }

    method WithRetry(count: int, base: int, maximum: int) returns (error: Option<GoOptionError>)
      requires Valid()
      modifies this`retries, this`baseDelay, this`maxDelay
      ensures Valid()
      ensures error.None? <==> Clamp(count, base, maximum).Ok?
      ensures error.None? ==> Config() == Clamp(count, base, maximum).value
      ensures error.Some? ==> Clamp(count, base, maximum) == Err(error.value) && Config() == old(Config())
    {
      if count < 0 {
        return Some(NegativeRetries);
      }
      if base < 0 || maximum < 0 {
        return Some(NegativeDelays);
      }
      var boundedCount, boundedBase, boundedMaximum := count, base, maximum;
      if boundedCount > MAX_RETRIES {
        boundedCount := MAX_RETRIES;
      }
      if boundedMaximum > MAX_RETRY_DELAY {
        boundedMaximum := MAX_RETRY_DELAY;
      }
      if boundedBase > boundedMaximum {
        boundedBase := boundedMaximum;
      }
      retries, baseDelay, maxDelay := boundedCount, boundedBase, boundedMaximum;
      error := None;
    }

    method Request(world: World) returns (final: Final)
      requires Valid()
      modifies this`events, this`slept
      ensures Valid() && Config() == old(Config())
      ensures final == GoFrom(Config(), world, 0).final
      ensures events == old(events) + GoFrom(Config(), world, 0).events
      ensures slept == old(slept) + GoFrom(Config(), world, 0).slept
    {
      ghost var c := Config();
      ghost var whole := Then(events, slept, GoFrom(c, world, 0));
      var attempt: nat := 0;
      while attempt <= retries
        invariant Config() == c && attempt <= c.retries
        invariant whole == Then(events, slept, GoFrom(c, world, attempt))
        decreases retries - attempt
      {
        var w := world(attempt);
        ghost var turn := GoTurn(c, w, attempt);
        if turn.Stop? {
          GoStopsHere(c, world, attempt, events, slept);
        } else {
          GoGoesOn(c, world, attempt, events, slept);
        }
        if w.cancelled {
          return Cancelled(attempt);
        }
        events := events + [Event(attempt, StatusOf(w.outcome))];
        var reading := NO_GO_HEADER;
        if w.outcome.TransportError? {
          if w.cancelledDuring {
            return Cancelled(attempt);
          }
          if attempt == retries {
            return Delivered(attempt);
          }
        } else {
          if !(IsRetryable(w.outcome.status) && attempt < retries) {
            return Delivered(attempt);
          }
          reading := w.outcome.header.go;
        }
        slept := slept + [GoDelay(Config(), attempt, reading) as real];
        if w.sleep.SleepFailed? {
          return Interrupted(attempt);
        }
        attempt := attempt + 1;
      }
      assert false;
    }
  }

  // ---------------------------------------------------------------- TypeScript

  /** `None` is `retry: false`; a POST is never retried. */
  function TsLast(retry: Option<TsConfig>, post: bool): nat {
    if retry.None? || post then 0 else retry.value.maxRetries
  }

  function TsTurn(retry: Option<TsConfig>, post: bool, w: Attempt, attempt: nat): (turn: Turn)
    requires attempt <= TsLast(retry, post)
    ensures turn.Again? ==> attempt < TsLast(retry, post)
  {
    var last := attempt == TsLast(retry, post);
    if w.cancelled then Stop(Run(Cancelled(attempt), [], []))
    else if w.outcome.Response? then
      var event := [Event(attempt, StatusOf(w.outcome))];
      if last || w.outcome.status !in RETRYABLE_STATUS then Stop(Run(Delivered(attempt), event, []))
      else
        var delay := [TsDelay(retry.value, attempt, w.outcome.header.ts)];
        if w.sleep.Slept? then Again(event, delay)
        else TsCatch(retry, post, attempt, w.sleep.aborts, w.again, event, delay)
    else TsCatch(retry, post, attempt, w.cancelledDuring, w.sleep, [], [])
  }

  /** The `catch` block, entered by a failed fetch or by a sleep that failed inside the `try`. */
  function TsCatch(retry: Option<TsConfig>, post: bool, attempt: nat, aborted: bool, sleep: Sleep, events: seq<Event>,
      slept: seq<real>): Turn
    requires attempt <= TsLast(retry, post)
  {
    var emitted := events + [Event(attempt, None)];
    if aborted then Stop(Run(Interrupted(attempt), events, slept))
    else if attempt == TsLast(retry, post) then Stop(Run(Delivered(attempt), emitted, slept))
    else
      var waited := slept + [TsDelay(retry.value, attempt, NO_TS_HEADER)];
      if sleep.SleepFailed? then Stop(Run(Interrupted(attempt), emitted, waited)) else Again(emitted, waited)
  }

  function TsFrom(retry: Option<TsConfig>, post: bool, world: World, attempt: nat): Run
    requires attempt <= TsLast(retry, post)
    decreases TsLast(retry, post) - attempt
  {
    var turn := TsTurn(retry, post, world(attempt), attempt);
    if turn.Stop? then turn.run
    else Then(turn.events, turn.slept, TsFrom(retry, post, world, attempt + 1))
  }

  /** `fetchWithRetry`, as the loop with its `try` and `catch`. */
  method FetchWithRetry(retry: Option<TsConfig>, post: bool, world: World) returns (run: Run)
    ensures run == TsFrom(retry, post, world, 0)
  {
    var attempts := 1 + (if retry.Some? then retry.value.maxRetries else 0);
    var attempt: nat := 0;
    var events: seq<Event>, slept: seq<real> := [], [];
    ghost var whole := TsFrom(retry, post, world, 0);
    while attempt < attempts
      invariant attempt <= TsLast(retry, post)
      invariant whole == Then(events, slept, TsFrom(retry, post, world, attempt))
      decreases attempts - attempt
    {
      var turn := FetchOnce(retry, post, attempts, world(attempt), attempt);
      if turn.Stop? {
        return Then(events, slept, turn.run);
      }
      ThenThen(events, slept, turn.events, turn.slept, TsFrom(retry, post, world, attempt + 1));
      events, slept := events + turn.events, slept + turn.slept;
      attempt := attempt + 1;
    }
    assert false;
  }

  /** The body of that loop: the `try` block, then the `catch` block when it was left by an error. */
  method FetchOnce(retry: Option<TsConfig>, post: bool, attempts: nat, w: Attempt, attempt: nat) returns (turn: Turn)
    requires attempts == 1 + (if retry.Some? then retry.value.maxRetries else 0)
    requires attempt <= TsLast(retry, post)
    ensures turn == TsTurn(retry, post, w, attempt)
  {
    if w.cancelled {
      return Stop(Run(Cancelled(attempt), [], []));
    }
    var events: seq<Event>, slept: seq<real> := [], [];
    var aborted, sleepAfter := w.cancelledDuring, w.sleep;
    if w.outcome.Response? {
      events := [Event(attempt, Some(w.outcome.status))];
      if retry.None? || w.outcome.status !in RETRYABLE_STATUS || attempt == attempts - 1 || post {
        return Stop(Run(Delivered(attempt), events, slept));
      }
      slept := [TsDelay(retry.value, attempt, w.outcome.header.ts)];
      if w.sleep.Slept? {
        return Again(events, slept);
      }
      aborted, sleepAfter := w.sleep.aborts, w.again;
    }
    if aborted {
      return Stop(Run(Interrupted(attempt), events, slept));
    }
    events := events + [Event(attempt, None)];
    if retry.None? || attempt == attempts - 1 || post {
      return Stop(Run(Delivered(attempt), events, slept));
    }
    slept := slept + [TsDelay(retry.value, attempt, NO_TS_HEADER)];
    turn := if sleepAfter.SleepFailed? then Stop(Run(Interrupted(attempt), events, slept)) else Again(events, slept);
  }

  // ---------------------------------------------------------------- PHP

  /** One turn, by the index of its attempt; the one event of a call comes with its response. */
  function PhpTurn(policy: Option<PhpPolicy>, outcome: Outcome, draw: int -> int, attempt: nat): (turn: Turn)
    ensures turn.Again? ==> policy.Some? && attempt + 1 != policy.value.maxAttempts
  {
    if policy.None? || attempt + 1 == policy.value.maxAttempts ||
      (outcome.Response? && outcome.status !in policy.value.statuses) then
      Stop(Run(Delivered(attempt), if outcome.Response? then [Event(attempt + 1, StatusOf(outcome))] else [], []))
    else Again([], PhpWait(policy.value, outcome, draw, attempt + 1))
  }

  function PhpFrom(policy: Option<PhpPolicy>, world: World, draw: int -> int, attempt: nat): Run
    requires policy.Some? ==> attempt < policy.value.maxAttempts
    requires policy.None? ==> attempt == 0
    decreases if policy.Some? then policy.value.maxAttempts - attempt else 0
  {
    var turn := PhpTurn(policy, world(attempt).outcome, draw, attempt);
    if turn.Stop? then turn.run else Then(turn.events, turn.slept, PhpFrom(policy, world, draw, attempt + 1))
  }

  /** What PHP sleeps after the attempt with this number, when it makes another one. */
  function PhpWait(policy: PhpPolicy, outcome: Outcome, draw: int -> int, attempt: nat): seq<real> {
    PhpSleep(policy, attempt, if outcome.Response? then PhpRead(outcome.header.line) else PhpUnread, draw)
  }

  /** A delay of zero is not slept at all. */
  function PhpSleep(policy: PhpPolicy, attempt: nat, reading: PhpReading, draw: int -> int): seq<real> {
    var delay := PhpDelay(policy, attempt, reading, draw);
    if delay.Some? && delay.value > 0 then [delay.value as real] else []
  }

  /** The body of the loop of `send`, with the attempt counted before it is made. */
  method SendOnce(policy: Option<PhpPolicy>, outcome: Outcome, draw: int -> int, attempt: nat) returns (turn: Turn)
    requires attempt > 0 && (policy.Some? ==> attempt <= policy.value.maxAttempts)
    ensures turn == PhpTurn(policy, outcome, draw, attempt - 1)
  {
    if outcome.TransportError? {
      if policy.Some? && attempt < policy.value.maxAttempts {
        return Again([], PhpSleep(policy.value, attempt, PhpUnread, draw));
      }
      return Stop(Run(Delivered(attempt - 1), [], []));
    }
    if policy.Some? && attempt < policy.value.maxAttempts && outcome.status in policy.value.statuses {
      return Again([], PhpSleep(policy.value, attempt, PhpRead(outcome.header.line), draw));
    }
    return Stop(Run(Delivered(attempt - 1), [Event(attempt, Some(outcome.status))], []));
  }

  /** `send`, whose loop counts the attempt before it makes it. */
  method Send(policy: Option<PhpPolicy>, world: World, draw: int -> int) returns (run: Run)
    requires policy.Some? ==> ValidPhpPolicy(policy.value)
    ensures run == PhpFrom(policy, world, draw, 0)
  {
    var attempt: nat := 0;
    var events: seq<Event>, slept: seq<real> := [], [];
    ghost var whole := PhpFrom(policy, world, draw, 0);
    while true
      invariant policy.Some? ==> attempt < policy.value.maxAttempts
      invariant policy.None? ==> attempt == 0
      invariant whole == Then(events, slept, PhpFrom(policy, world, draw, attempt))
      decreases if policy.Some? then policy.value.maxAttempts - attempt else 0
    {
      attempt := attempt + 1;
      var turn := SendOnce(policy, world(attempt - 1).outcome, draw, attempt);
      if turn.Stop? {
        return Then(events, slept, turn.run);
      }
      ThenThen(events, slept, turn.events, turn.slept, PhpFrom(policy, world, draw, attempt));
      events, slept := events + turn.events, slept + turn.slept;
    }
  }

  // ---------------------------------------------------------------- the attempt that decides

  /** The outcomes worth another attempt: no response, too many requests, or a gateway that is down or late. */
  predicate Retried(o: Outcome) {
    o.TransportError? || o.status == 429 || o.status == 502 || o.status == 503 || o.status == 504
  }

  lemma {:induction false} RetriedStatuses(o: Outcome)
    ensures Retried(o) <==> o.TransportError? || IsRetryable(o.status)
    ensures Retried(o) <==> o.TransportError? || o.status in RETRYABLE_STATUS
    ensures Retried(o) <==> o.TransportError? || o.status in PHP_STATUSES
  {
    var s := PHP_STATUSES;
    assert s[0] == 429 && s[1] == 502 && s[2] == 503 && s[3] == 504;
  }

  /** The first outcome that is not retried, or the last attempt allowed. */
  predicate IsStop(world: World, retries: nat, k: nat) {
    && k <= retries
    && (k == retries || !Retried(world(k).outcome))
    && forall j :: 0 <= j < k ==> Retried(world(j).outcome)
  }

  lemma {:induction false} StopExists(world: World, retries: nat, from: nat) returns (k: nat)
    requires from <= retries && forall j :: 0 <= j < from ==> Retried(world(j).outcome)
    ensures IsStop(world, retries, k)
    decreases retries - from
  {
    if from == retries || !Retried(world(from).outcome) {
      k := from;
    } else {
      k := StopExists(world, retries, from + 1);
    }
  }

  /** No cancellation, and every sleep runs out. */
  ghost predicate Quiet(world: World) {
    forall k :: !world(k).cancelled && !world(k).cancelledDuring && world(k).sleep.Slept? && world(k).again.Slept?
  }

  /** No cancellation and no abort; a sleep may fail, but the one TypeScript repeats does not. */
  ghost predicate Uncancelled(world: World) {
    forall k :: !world(k).cancelled && !world(k).cancelledDuring && world(k).again.Slept?
      && (world(k).sleep.SleepFailed? ==> world(k).outcome.Response? && !world(k).sleep.aborts)
  }

  /** One event for each attempt from `from` to `k`, in order, with the status it saw. */
  function EventsTo(world: World, from: nat, k: nat): seq<Event>
    requires from <= k
    decreases k - from
  {
    [Event(from, StatusOf(world(from).outcome))] + (if from == k then [] else EventsTo(world, from + 1, k))
  }

  lemma {:induction false} GoStops(c: GoConfig, world: World, attempt: nat, k: nat)
    requires Quiet(world) && 0 <= c.retries && IsStop(world, c.retries, k) && attempt <= k
    ensures GoFrom(c, world, attempt).final == Delivered(k)
    ensures GoFrom(c, world, attempt).events == EventsTo(world, attempt, k)
    decreases k - attempt
  {
    RetriedStatuses(world(attempt).outcome);
    if attempt < k {
      GoStops(c, world, attempt + 1, k);
    }
  }

  lemma {:induction false} TsStops(retry: Option<TsConfig>, post: bool, world: World, attempt: nat, k: nat)
    requires Quiet(world) && IsStop(world, TsLast(retry, post), k) && attempt <= k
    ensures TsFrom(retry, post, world, attempt).final == Delivered(k)
    ensures TsFrom(retry, post, world, attempt).events == EventsTo(world, attempt, k)
    decreases k - attempt
  {
    TsQuietTurn(retry, post, world(attempt), attempt);
    if attempt < k {
      TsStops(retry, post, world, attempt + 1, k);
    }
  }

  /** An undisturbed turn reports its outcome once, and goes round exactly when that may be retried. */
  lemma {:induction false} TsQuietTurn(retry: Option<TsConfig>, post: bool, w: Attempt, attempt: nat)
    requires !w.cancelled && !w.cancelledDuring && w.sleep.Slept? && attempt <= TsLast(retry, post)
    ensures var turn, event := TsTurn(retry, post, w, attempt), [Event(attempt, StatusOf(w.outcome))];
      if !Retried(w.outcome) || attempt == TsLast(retry, post) then turn == Stop(Run(Delivered(attempt), event, []))
      else turn.Again? && turn.events == event
  {
    RetriedStatuses(w.outcome);
    assert [] + [Event(attempt, None)] == [Event(attempt, None)];
  }

  function PhpLast(policy: Option<PhpPolicy>): nat
    requires policy.Some? ==> ValidPhpPolicy(policy.value)
  {
    if policy.None? then 0 else policy.value.maxAttempts - 1
  }

  lemma {:induction false} PhpStops(policy: Option<PhpPolicy>, world: World, draw: int -> int, attempt: nat, k: nat)
    requires policy.Some? ==> ValidPhpPolicy(policy.value) && policy.value.statuses == PHP_STATUSES
    requires IsStop(world, PhpLast(policy), k) && attempt <= k
    ensures PhpFrom(policy, world, draw, attempt).final == Delivered(k)
    ensures PhpFrom(policy, world, draw, attempt).events
         == if world(k).outcome.Response? then [Event(k + 1, StatusOf(world(k).outcome))] else []
    decreases k - attempt
  {
    RetriedStatuses(world(attempt).outcome);
    if attempt < k {
      PhpStops(policy, world, draw, attempt + 1, k);
    }
  }

  /**
   * In a quiet world the three clients, allowed equally many retries, let the same attempt
   * decide: the first whose outcome is a response with a status other than 429, 502, 503 and 504,
   * or the last one allowed. Go and TypeScript report each attempt once, PHP the deciding response.
   */
  lemma {:induction false} RetryEquivalence(go: GoConfig, ts: TsConfig, php: PhpPolicy, draw: int -> int, world: World,
      k: nat)
    requires Quiet(world) && ValidPhpPolicy(php) && php.statuses == PHP_STATUSES
    requires go.retries == ts.maxRetries == php.maxAttempts - 1
    ensures GoFrom(go, world, 0).final == Delivered(k) <==> IsStop(world, ts.maxRetries, k)
    ensures TsFrom(Some(ts), false, world, 0).final == Delivered(k) <==> IsStop(world, ts.maxRetries, k)
    ensures PhpFrom(Some(php), world, draw, 0).final == Delivered(k) <==> IsStop(world, ts.maxRetries, k)
    ensures IsStop(world, ts.maxRetries, k) ==>
      && GoFrom(go, world, 0).events == TsFrom(Some(ts), false, world, 0).events == EventsTo(world, 0, k)
      && PhpFrom(Some(php), world, draw, 0).events
         == if world(k).outcome.Response? then [Event(k + 1, StatusOf(world(k).outcome))] else []
  {
    var stop := StopExists(world, ts.maxRetries, 0);
    GoStops(go, world, 0, stop);
    TsStops(Some(ts), false, world, 0, stop);
    PhpStops(Some(php), world, draw, 0, stop);
    if IsStop(world, ts.maxRetries, k) {
      assert stop == k;
    }
  }

  /** With a retry left, each client makes a second attempt exactly when the first outcome is one of those. */
  lemma {:induction false} SecondAttemptIff(go: GoConfig, ts: TsConfig, php: PhpPolicy, draw: int -> int, world: World)
    requires Quiet(world) && ValidPhpPolicy(php) && php.statuses == PHP_STATUSES
    requires go.retries == ts.maxRetries == php.maxAttempts - 1 > 0
    ensures var o := world(0).outcome;
      var retried := o.TransportError? || o.status in {429, 502, 503, 504};
      && (GoFrom(go, world, 0).final.attempt > 0 <==> retried)
      && (TsFrom(Some(ts), false, world, 0).final.attempt > 0 <==> retried)
      && (PhpFrom(Some(php), world, draw, 0).final.attempt > 0 <==> retried)
  {
    var stop := StopExists(world, ts.maxRetries, 0);
    RetryEquivalence(go, ts, php, draw, world, stop);
  }

  /** The sleeps between the attempts, one after each but the last, as long as the header or the backoff says. */
  lemma {:induction false} GoSleepsAre(c: GoConfig, world: World, attempt: nat, k: nat)
    requires Quiet(world) && 0 <= c.retries && IsStop(world, c.retries, k) && attempt <= k
    ensures var slept := GoFrom(c, world, attempt).slept;
      && |slept| == k - attempt
      && forall j :: attempt <= j < k ==>
        var o := world(j).outcome;
        slept[j - attempt] == GoDelay(c, j, if o.Response? then o.header.go else GoUnreadable) as real
    decreases k - attempt
  {
    RetriedStatuses(world(attempt).outcome);
    if attempt < k {
      GoSleepsAre(c, world, attempt + 1, k);
    }
  }

  lemma {:induction false} TsSleepsAre(c: TsConfig, world: World, attempt: nat, k: nat)
    requires Quiet(world) && IsStop(world, c.maxRetries, k) && attempt <= k
    ensures var slept := TsFrom(Some(c), false, world, attempt).slept;
      && |slept| == k - attempt
      && forall j :: attempt <= j < k ==>
        var o := world(j).outcome;
        slept[j - attempt] == TsDelay(c, j, if o.Response? then o.header.ts else TsReading(None, None))
    decreases k - attempt
  {
    RetriedStatuses(world(attempt).outcome);
    if attempt < k {
      TsSleepsAre(c, world, attempt + 1, k);
    }
  }

  /** The delay PHP asks for after attempt `j`, counted from zero. */
  function PhpAsked(policy: PhpPolicy, world: World, draw: int -> int, j: nat): int
    requires j + 1 < policy.maxAttempts
  {
    var o := world(j).outcome;
    PhpDelay(policy, j + 1, if o.Response? then PhpRead(o.header.line) else PhpUnread, draw).value
  }

  ghost function PhpDelays(policy: PhpPolicy, world: World, draw: int -> int, from: nat, k: nat): seq<int>
    requires from <= k < policy.maxAttempts
  {
    seq(k - from, i requires 0 <= i < k - from => PhpAsked(policy, world, draw, from + i))
  }

  /** Those that are slept: a delay of nothing is not. */
  ghost function Waited(delays: seq<int>): seq<real> {
    Map((delay: int) => delay as real, Filter((delay: int) => delay > 0, delays))
  }

  lemma {:induction false} WaitedCons(delay: int, delays: seq<int>)
    ensures Waited([delay] + delays) == (if delay > 0 then [delay as real] else []) + Waited(delays)
  {
    assert ([delay] + delays)[1..] == delays;
  }

  lemma {:induction false} PhpSleepIs(policy: PhpPolicy, world: World, draw: int -> int, j: nat)
    requires j + 1 < policy.maxAttempts
    ensures PhpWait(policy, world(j).outcome, draw, j + 1) == Waited([PhpAsked(policy, world, draw, j)])
  {
    WaitedCons(PhpAsked(policy, world, draw, j), []);
    assert [PhpAsked(policy, world, draw, j)] + [] == [PhpAsked(policy, world, draw, j)];
  }

  /** PHP sleeps the delay it asks for between two attempts, unless that is nothing. */
  lemma {:induction false} PhpSleepsAre(policy: PhpPolicy, world: World, draw: int -> int, attempt: nat, k: nat)
    requires policy.statuses == PHP_STATUSES && attempt <= k < policy.maxAttempts
    requires IsStop(world, policy.maxAttempts - 1, k)
    ensures PhpFrom(Some(policy), world, draw, attempt).slept == Waited(PhpDelays(policy, world, draw, attempt, k))
    decreases k - attempt
  {
    RetriedStatuses(world(attempt).outcome);
    if attempt < k {
      PhpSleepsAre(policy, world, draw, attempt + 1, k);
      PhpSleepIs(policy, world, draw, attempt);
      var delays := PhpDelays(policy, world, draw, attempt, k);
      assert delays == [PhpAsked(policy, world, draw, attempt)] + PhpDelays(policy, world, draw, attempt + 1, k);
      WaitedCons(PhpAsked(policy, world, draw, attempt), PhpDelays(policy, world, draw, attempt + 1, k));
    }
  }

  lemma {:induction false} EventsToAt(world: World, from: nat, k: nat)
    requires from <= k
    ensures |EventsTo(world, from, k)| == k - from + 1
    ensures forall i :: 0 <= i <= k - from ==>
      EventsTo(world, from, k)[i] == Event(from + i, StatusOf(world(from + i).outcome))
    decreases k - from
  {
    if from < k {
      EventsToAt(world, from + 1, k);
      var rest := EventsTo(world, from + 1, k);
      forall i | 0 <= i <= k - from
        ensures EventsTo(world, from, k)[i] == Event(from + i, StatusOf(world(from + i).outcome))
      {
        if i > 0 {
          assert EventsTo(world, from, k)[i] == rest[i - 1];
        }
      }
    }
  }

  // ---------------------------------------------------------------- sleeps that fail inside the try

  /** A failed in-`try` sleep adds one event, of a transport failure, to its attempt. */
  function TsEventsTo(world: World, from: nat, k: nat): seq<Event>
    requires from <= k
    decreases k - from
  {
    if from == k then [Event(k, StatusOf(world(k).outcome))]
    else
      [Event(from, StatusOf(world(from).outcome))]
        + (if world(from).sleep.SleepFailed? then [Event(from, None)] else [])
        + TsEventsTo(world, from + 1, k)
  }

  lemma {:induction false} TsStopsDespiteSleep(retry: Option<TsConfig>, post: bool, world: World, attempt: nat, k: nat)
    requires Uncancelled(world) && IsStop(world, TsLast(retry, post), k) && attempt <= k
    ensures TsFrom(retry, post, world, attempt).final == Delivered(k)
    ensures TsFrom(retry, post, world, attempt).events == TsEventsTo(world, attempt, k)
    decreases k - attempt
  {
    TsDisturbedTurn(retry, post, world(attempt), attempt);
    if attempt < k {
      TsStopsDespiteSleep(retry, post, world, attempt + 1, k);
    }
  }

  /** A turn whose sleep may fail without an abort reports a failed one as one more event. */
  lemma {:induction false} TsDisturbedTurn(retry: Option<TsConfig>, post: bool, w: Attempt, attempt: nat)
    requires !w.cancelled && !w.cancelledDuring && w.again.Slept? && attempt <= TsLast(retry, post)
    requires w.sleep.SleepFailed? ==> w.outcome.Response? && !w.sleep.aborts
    ensures var turn, event := TsTurn(retry, post, w, attempt), [Event(attempt, StatusOf(w.outcome))];
      if !Retried(w.outcome) || attempt == TsLast(retry, post) then turn == Stop(Run(Delivered(attempt), event, []))
      else turn.Again? && turn.events == event + (if w.sleep.SleepFailed? then [Event(attempt, None)] else [])
  {
    RetriedStatuses(w.outcome);
    if w.sleep.Slept? {
      TsQuietTurn(retry, post, w, attempt);
    }
  }

  lemma {:induction false} TsEventCount(world: World, from: nat, k: nat)
    requires from <= k
    ensures |TsEventsTo(world, from, k)| >= k - from + 1
    ensures |TsEventsTo(world, from, k)| == k - from + 1 <==> forall j :: from <= j < k ==> world(j).sleep.Slept?
    ensures (forall j :: from <= j < k ==> world(j).sleep.Slept?) ==>
      TsEventsTo(world, from, k) == EventsTo(world, from, k)
    decreases k - from
  {
    if from < k {
      TsEventCount(world, from + 1, k);
    }
  }

  /**
   * TypeScript still stops at the same attempt when such sleeps fail, but it reports each attempt
   * exactly once if and only if none of them failed before that attempt.
   */
  lemma {:induction false} TsReportsOnceIff(ts: TsConfig, world: World, k: nat)
    requires Uncancelled(world) && IsStop(world, ts.maxRetries, k)
    ensures TsFrom(Some(ts), false, world, 0).final == Delivered(k)
    ensures TsFrom(Some(ts), false, world, 0).events == EventsTo(world, 0, k) <==>
      forall j :: 0 <= j < k ==> world(j).sleep.Slept?
  {
    TsStopsDespiteSleep(Some(ts), false, world, 0, k);
    TsEventCount(world, 0, k);
    EventsToAt(world, 0, k);
  }

  // ---------------------------------------------------------------- total waiting

  /** A timer with a negative delay fires at once. */
  function Positive(delay: real): real { if delay < 0.0 then 0.0 else delay }

  /** The time a list of sleeps takes. */
  function Total(slept: seq<real>): real { if |slept| == 0 then 0.0 else Positive(slept[0]) + Total(slept[1..]) }

  predicate EachAtMost(slept: seq<real>, cap: int) { forall d :: d in slept ==> d <= cap as real }

  lemma {:induction false} TotalBound(slept: seq<real>, count: nat, cap: nat)
    requires |slept| <= count && EachAtMost(slept, cap)
    ensures 0.0 <= Total(slept) <= (count * cap) as real
  {
    if |slept| == 0 {
      assert count * cap >= 0;
    } else {
      var rest := slept[1..];
      assert slept[0] <= cap as real && EachAtMost(rest, cap) by {
        assert slept[0] in slept && forall d :: d in rest ==> d in slept;
      }
      TotalBound(rest, count - 1, cap);
      OneMore(Positive(slept[0]), Total(rest), count - 1, cap);
    }
  }

  lemma {:induction false} OneMore(delay: real, rest: real, count: nat, cap: nat)
    requires 0.0 <= delay <= cap as real && 0.0 <= rest <= (count * cap) as real
    ensures 0.0 <= delay + rest <= ((count + 1) * cap) as real
  {
    assert (count + 1) * cap == count * cap + cap;
  }

  /** A Go request sleeps at most once per retry, each time for at most a minute, whatever the world does. */
  lemma {:induction false} GoWaits(c: GoConfig, world: World, attempt: nat)
    requires ValidGoConfig(c) && attempt <= c.retries
    ensures |GoFrom(c, world, attempt).slept| <= c.retries - attempt
    ensures EachAtMost(GoFrom(c, world, attempt).slept, MAX_RETRY_DELAY)
    ensures 0.0 <= Total(GoFrom(c, world, attempt).slept) <= ((c.retries - attempt) * MAX_RETRY_DELAY) as real
    decreases c.retries - attempt
  {
    var w := world(attempt);
    if attempt < c.retries && !w.cancelled {
      GoWaits(c, world, attempt + 1);
      GoDelayBounds(c, attempt, if w.outcome.Response? then w.outcome.header.go else NO_GO_HEADER);
    }
    TotalBound(GoFrom(c, world, attempt).slept, c.retries - attempt, MAX_RETRY_DELAY);
  }

  /** The retried response is slept on inside the `try`, and that sleep fails without an abort. */
  predicate SleepsAgain(w: Attempt) { w.outcome.Response? && w.sleep.SleepFailed? && !w.sleep.aborts }

  lemma {:induction false} TsTurnWaits(ts: TsConfig, w: Attempt, attempt: nat)
    requires attempt <= ts.maxRetries
    ensures var turn := TsTurn(Some(ts), false, w, attempt);
      var slept := if turn.Stop? then turn.run.slept else turn.slept;
      && EachAtMost(slept, ts.maxDelayMs)
      && |slept| <= (if attempt < ts.maxRetries then 2 else 0)
      && (turn.Again? ==> |slept| == if SleepsAgain(w) then 2 else 1)
      && (turn.Stop? && !turn.run.final.Interrupted? ==> slept == [])
      && (turn.Stop? ==> turn.run.final.attempt == attempt)
  {
    TsDelayBounds(ts, attempt, NO_TS_HEADER);
    if w.outcome.Response? {
      TsDelayBounds(ts, attempt, w.outcome.header.ts);
    }
  }

  /**
   * Whatever the world does, a TypeScript request sleeps at most twice per retry, each time for at
   * most `maxDelayMs`.
   */
  lemma {:induction false} TsWaits(ts: TsConfig, world: World, attempt: nat)
    requires attempt <= ts.maxRetries
    ensures |TsFrom(Some(ts), false, world, attempt).slept| <= 2 * (ts.maxRetries - attempt)
    ensures EachAtMost(TsFrom(Some(ts), false, world, attempt).slept, ts.maxDelayMs)
    ensures var count := 2 * (ts.maxRetries - attempt);
      0.0 <= Total(TsFrom(Some(ts), false, world, attempt).slept) <= (count * ts.maxDelayMs) as real
    decreases ts.maxRetries - attempt
  {
    TsTurnWaits(ts, world(attempt), attempt);
    if TsTurn(Some(ts), false, world(attempt), attempt).Again? {
      TsWaits(ts, world, attempt + 1);
    }
    TotalBound(TsFrom(Some(ts), false, world, attempt).slept, 2 * (ts.maxRetries - attempt), ts.maxDelayMs);
  }

  /** The attempts from `from` up to `k` whose sleep inside the `try` failed without an abort. */
  function SleptAgain(world: World, from: nat, k: nat): nat
    requires from <= k
    decreases k - from
  {
    if from == k then 0 else (if SleepsAgain(world(from)) then 1 else 0) + SleptAgain(world, from + 1, k)
  }

  lemma {:induction false} SleptAgainNone(world: World, from: nat, k: nat)
    requires from <= k
    ensures SleptAgain(world, from, k) == 0 <==> forall j :: from <= j < k ==> !SleepsAgain(world(j))
    decreases k - from
  {
    if from < k {
      SleptAgainNone(world, from + 1, k);
    }
  }

  /**
   * A request that was not interrupted has slept once for each attempt it made before the last,
   * and once more for each of these whose sleep inside the `try` failed: so once per retry if and
   * only if none of them did.
   */
  lemma {:induction false} TsSleepCount(ts: TsConfig, world: World, attempt: nat)
    requires attempt <= ts.maxRetries && !TsFrom(Some(ts), false, world, attempt).final.Interrupted?
    ensures var run := TsFrom(Some(ts), false, world, attempt);
      var k := run.final.attempt;
      && attempt <= k
      && |run.slept| == k - attempt + SleptAgain(world, attempt, k)
      && (|run.slept| == k - attempt <==> forall j :: attempt <= j < k ==> !SleepsAgain(world(j)))
    decreases ts.maxRetries - attempt
  {
    TsTurnWaits(ts, world(attempt), attempt);
    if TsTurn(Some(ts), false, world(attempt), attempt).Again? {
      TsSleepCount(ts, world, attempt + 1);
    }
    SleptAgainNone(world, attempt, TsFrom(Some(ts), false, world, attempt).final.attempt);
  }

  lemma {:induction false} PhpWaitBound(p: PhpPolicy, world: World, draw: int -> int, attempt: nat)
    requires ValidPhpPolicy(p) && FairDraw(draw) && attempt + 1 < p.maxAttempts
    ensures var wait := PhpWait(p, world(attempt).outcome, draw, attempt + 1);
      |wait| <= 1 && EachAtMost(wait, p.maxDelay)
  {
    var outcome := world(attempt).outcome;
    PhpDelayBounds(p, attempt + 1, if outcome.Response? then PhpRead(outcome.header.line) else PhpUnread, draw);
  }

  /** A PHP call sleeps at most once per retry, each time for at most the policy's cap. */
  lemma {:induction false} PhpWaits(p: PhpPolicy, world: World, draw: int -> int, attempt: nat)
    requires ValidPhpPolicy(p) && FairDraw(draw) && attempt < p.maxAttempts
    ensures var slept, left := PhpFrom(Some(p), world, draw, attempt).slept, p.maxAttempts - 1 - attempt;
      |slept| <= left && EachAtMost(slept, p.maxDelay) && 0.0 <= Total(slept) <= (left * p.maxDelay) as real
    decreases p.maxAttempts - attempt
  {
    if attempt + 1 < p.maxAttempts {
      PhpWaits(p, world, draw, attempt + 1);
      PhpWaitBound(p, world, draw, attempt);
    }
    TotalBound(PhpFrom(Some(p), world, draw, attempt).slept, p.maxAttempts - 1 - attempt, p.maxDelay);
  }
}
