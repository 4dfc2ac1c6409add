/**
 * Retry delays of the three SDKs. A `Retry-After` header (section 10.2.3 of RFC 9110) enters as
 * what each language reads in it, so the bounds hold for every header text.
 */
module Delays {
  import opened Decimal
  import opened Prelude

  function Pow2(k: nat): nat { if k == 0 then 1 else 2 * Pow2(k - 1) }

  lemma {:induction false} Pow2Monotone(j: nat, k: nat)
    requires j <= k
    ensures 1 <= Pow2(j) <= Pow2(k)
  {
    if j < k {
      Pow2Monotone(j, k - 1);
    } else if k > 0 {
      Pow2Monotone(j - 1, k - 1);
    }
  }

  function Min(a: int, b: int): int { if a < b then a else b }

  // ---------------------------------------------------------------- Go

  const INT64: int := 0x1_0000_0000_0000_0000

  const MAX_INT64: int := 0x7FFF_FFFF_FFFF_FFFF

  /** Two's-complement wrap-around of 64-bit arithmetic. */
  function Wrap64(x: int): int { (x + INT64 / 2) % INT64 - INT64 / 2 }

  predicate IsInt64(x: int) { -MAX_INT64 - 1 <= x <= MAX_INT64 }

  lemma {:induction false} WrapIdentity(x: int)
    requires IsInt64(x)
    ensures Wrap64(x) == x
  {
  }

  const MILLISECOND := 1_000_000

  const SECOND := 1_000_000_000

  const MAX_RETRIES := 5

  const MAX_RETRY_DELAY := 60 * SECOND

  /** `strconv.Atoi` of the trimmed text, else the time left until an HTTP date, else neither. */
  datatype GoReading = GoSeconds(seconds: int) | GoDate(until: int) | GoUnreadable

  predicate ValidGoReading(r: GoReading) {
    (r.GoSeconds? ==> IsInt64(r.seconds)) && (r.GoDate? ==> IsInt64(r.until))
  }

  datatype GoConfig = GoConfig(retries: int, baseDelay: int, maxDelay: int)

  /** What every `Client` keeps: the options clamp to these bounds. */
  predicate ValidGoConfig(c: GoConfig) {
    0 <= c.retries <= MAX_RETRIES && 0 <= c.baseDelay <= c.maxDelay <= MAX_RETRY_DELAY
  }

  datatype GoOptionError = NegativeRetries | NegativeDelays

  /** The values `WithRetry` stores, or the error it returns. */
  function Clamp(retries: int, baseDelay: int, maximumDelay: int): (r: Result<GoConfig, GoOptionError>)
    ensures r.Ok? <==> retries >= 0 && baseDelay >= 0 && maximumDelay >= 0
    ensures r.Ok? ==> ValidGoConfig(r.value)
    ensures r.Ok? ==> r.value.retries <= retries && r.value.baseDelay <= baseDelay && r.value.maxDelay <= maximumDelay
    ensures r.Ok? ==> r.value.retries == retries || (r.value.retries == 5 < retries)
    ensures r.Ok? ==> r.value.maxDelay == maximumDelay || (r.value.maxDelay == 60_000_000_000 < maximumDelay)
    ensures r.Ok? ==> r.value.baseDelay == baseDelay || (r.value.baseDelay == r.value.maxDelay < baseDelay)
    ensures ValidGoConfig(GoConfig(retries, baseDelay, maximumDelay)) ==>
      r == Ok(GoConfig(retries, baseDelay, maximumDelay))
  {
    if retries < 0 then Err(NegativeRetries)
    else if baseDelay < 0 || maximumDelay < 0 then Err(NegativeDelays)
    else
      var cap := Min(maximumDelay, MAX_RETRY_DELAY);
      Ok(GoConfig(Min(retries, MAX_RETRIES), Min(baseDelay, cap), cap))
  }

  function GoDelay(c: GoConfig, attempt: nat, reading: GoReading): int {
    if reading.GoSeconds? && reading.seconds >= 0 then
      var d := Wrap64(reading.seconds * SECOND);
      if d > MAX_RETRY_DELAY then MAX_RETRY_DELAY else Min(d, c.maxDelay)
    else if reading.GoDate? then
      if reading.until < 0 then 0 else Min(reading.until, c.maxDelay)
    else Min(Wrap64(c.baseDelay * Pow2(attempt)), c.maxDelay)
  }

  /** The exponential delay never overflows for the attempts the loop can make. */
  lemma {:induction false} BackoffDoesNotOverflow(c: GoConfig, attempt: nat)
    requires ValidGoConfig(c) && attempt <= c.retries
    ensures Wrap64(c.baseDelay * Pow2(attempt)) == c.baseDelay * Pow2(attempt)
    ensures 0 <= c.baseDelay * Pow2(attempt) <= 32 * MAX_RETRY_DELAY
  {
    Pow2Monotone(attempt, MAX_RETRIES);
    assert Pow2(5) == 32;
    assert 0 <= c.baseDelay * Pow2(attempt) <= MAX_RETRY_DELAY * Pow2(attempt) <= MAX_RETRY_DELAY * 32;
    WrapIdentity(c.baseDelay * Pow2(attempt));
  }

  /**
   * No Go delay passes a minute, and it passes `maxDelay` exactly when the seconds read exceed a
   * minute and the cap is below one.
   */
  lemma {:induction false} GoDelayBounds(c: GoConfig, attempt: nat, reading: GoReading)
    requires ValidGoConfig(c) && attempt <= c.retries
    ensures GoDelay(c, attempt, reading) <= MAX_RETRY_DELAY
    ensures GoDelay(c, attempt, reading) > c.maxDelay <==>
              reading.GoSeconds? && reading.seconds >= 0 && Wrap64(reading.seconds * SECOND) > MAX_RETRY_DELAY &&
                c.maxDelay < MAX_RETRY_DELAY
    ensures !reading.GoSeconds? || reading.seconds <= 60 ==> GoDelay(c, attempt, reading) <= c.maxDelay
  {
    BackoffDoesNotOverflow(c, attempt);
    if reading.GoSeconds? && 0 <= reading.seconds <= 60 {
      WrapIdentity(reading.seconds * SECOND);
    }
  }

  /** A negative delay, which sleeps not at all, arises only when the seconds read wrap around. */
  lemma {:induction false} GoDelayNegative(c: GoConfig, attempt: nat, reading: GoReading)
    requires ValidGoConfig(c) && attempt <= c.retries && ValidGoReading(reading)
    ensures GoDelay(c, attempt, reading) < 0 <==>
              reading.GoSeconds? && reading.seconds >= 0 && Wrap64(reading.seconds * SECOND) < 0
    ensures reading.GoSeconds? && 0 <= reading.seconds <= MAX_INT64 / SECOND ==> GoDelay(c, attempt, reading) >= 0
    ensures reading == GoSeconds(MAX_INT64 / SECOND + 1) ==> GoDelay(c, attempt, reading) < 0
  {
    BackoffDoesNotOverflow(c, attempt);
    if reading.GoSeconds? && 0 <= reading.seconds <= MAX_INT64 / SECOND {
      WrapIdentity(reading.seconds * SECOND);
    }
    assert MAX_INT64 / SECOND == 9223372036;
  }

  // ---------------------------------------------------------------- TypeScript, in milliseconds

  /** `Number(value)` when finite and `Date.parse(value) - now` when finite; an absent header has neither. */
  datatype TsReading = TsReading(number: Option<real>, untilDate: Option<int>)

  datatype TsConfig = TsConfig(maxRetries: nat, baseDelayMs: nat, maxDelayMs: nat)

  const MAX_DELAY_MS := 60_000

  predicate ValidTsConfig(c: TsConfig) {
    c.maxRetries <= MAX_RETRIES && c.baseDelayMs <= c.maxDelayMs <= MAX_DELAY_MS
  }

  /** A JavaScript number: NaN and the infinities are not finite. */
  datatype Number = NotFinite | Finite(value: real)

  /** Finite, whole and not negative. */
  predicate IsNatural(n: Number) { n.Finite? && n.value >= 0.0 && n.value == n.value.Floor as real }

  /** `boundedInteger`: a number that is fractional, negative or not finite is a range error. */
  function BoundedInteger(value: Option<Number>, fallback: nat, maximum: nat): (r: Option<nat>)
    ensures r.None? <==> value.Some? && !IsNatural(value.value)
    ensures r.Some? ==> r.value <= maximum
    ensures value.Some? && IsNatural(value.value) && value.value.value <= maximum as real ==>
              r.Some? && r.value as real == value.value.value
    ensures value.Some? && IsNatural(value.value) && value.value.value > maximum as real ==> r == Some(maximum)
    ensures value.None? && fallback <= maximum ==> r == Some(fallback)
  {
    var resolved := if value.Some? then value.value else Finite(fallback as real);
    if !resolved.Finite? || resolved.value != resolved.value.Floor as real || resolved.value < 0.0 then None
    else Some(Min(resolved.value.Floor, maximum))
  }

  /** A setting is kept as given, or as its default when absent, unless that exceeds the bound. */
  predicate Kept(given: Option<Number>, fallback: real, bound: nat, kept: nat) {
    var asked := if given.Some? && given.value.Finite? then given.value.value else fallback;
    if asked <= bound as real then kept as real == asked else kept == bound
  }

  /** The retry settings the client constructor keeps; `None` is the range error it throws. */
  function TsConfigured(maxRetries: Option<Number>, baseDelayMs: Option<Number>,
      maxDelayMs: Option<Number>): (r: Option<TsConfig>)
    ensures r.Some? ==> ValidTsConfig(r.value)
    ensures r.None? <==> exists v :: v in [maxRetries, baseDelayMs, maxDelayMs] && v.Some? && !IsNatural(v.value)
    ensures r.Some? ==> Kept(maxRetries, 2.0, 5, r.value.maxRetries)
    ensures r.Some? ==> Kept(maxDelayMs, 2000.0, 60_000, r.value.maxDelayMs)
    ensures r.Some? ==> Kept(baseDelayMs, 100.0, r.value.maxDelayMs, r.value.baseDelayMs)
  {
    var cap := BoundedInteger(maxDelayMs, 2_000, MAX_DELAY_MS);
    var count := BoundedInteger(maxRetries, 2, MAX_RETRIES);
    var base := BoundedInteger(baseDelayMs, 100, MAX_DELAY_MS);
    assert [maxRetries, baseDelayMs, maxDelayMs][0] == maxRetries;
    assert [maxRetries, baseDelayMs, maxDelayMs][1] == baseDelayMs;
    assert [maxRetries, baseDelayMs, maxDelayMs][2] == maxDelayMs;
    if cap.None? || count.None? || base.None? then None
    else Some(TsConfig(count.value, Min(base.value, cap.value), cap.value))
  }

  function RetryAfterMs(r: TsReading): Option<real> {
    if r.number.Some? && r.number.value >= 0.0 then Some(r.number.value * 1000.0)
    else if r.untilDate.Some? then Some(if r.untilDate.value < 0 then 0.0 else r.untilDate.value as real)
    else None
  }

  function TsDelay(c: TsConfig, attempt: nat, reading: TsReading): real {
    var wanted := RetryAfterMs(reading);
    var backoff := if wanted.Some? then wanted.value else (c.baseDelayMs * Pow2(attempt)) as real;
    if backoff < c.maxDelayMs as real then backoff else c.maxDelayMs as real
  }

  lemma {:induction false} TsDelayBounds(c: TsConfig, attempt: nat, reading: TsReading)
    ensures 0.0 <= TsDelay(c, attempt, reading) <= c.maxDelayMs as real
  {
    Pow2Monotone(0, attempt);
    assert c.baseDelayMs * Pow2(attempt) >= 0;
  }

  // ---------------------------------------------------------------- PHP, in milliseconds

  /** A header of digits only, by length and value; anything else, or none, is not read. */
  datatype PhpReading = PhpDigits(length: nat, value: nat) | PhpUnread

  /** PHP's falsy strings: `send` hands them on as `null`. */
  predicate PhpFalsy(line: string) { line == "" || line == "0" }

  /** What `send` and `delayFor` make of the header line; an absent header is the empty line. */
  function PhpRead(line: string): PhpReading {
    if PhpFalsy(line) || !AllDigits(line) then PhpUnread else PhpDigits(|line|, NatValue(line))
  }

  datatype PhpPolicy = PhpPolicy(maxAttempts: int, baseDelay: int, maxDelay: int, statuses: seq<int>)

  predicate ValidPhpPolicy(p: PhpPolicy) {
    1 <= p.maxAttempts <= 6 && 0 <= p.baseDelay <= p.maxDelay
  }

  /** The constructor; `None` is its invalid-argument exception. The policies it makes are all the valid ones. */
  function PhpConfigured(maxAttempts: int, baseDelay: int, maxDelay: int, statuses: seq<int>): (r: Option<PhpPolicy>)
    ensures r.None? <==> maxAttempts !in {1, 2, 3, 4, 5, 6} || baseDelay < 0 || maxDelay < baseDelay
    ensures r.Some? <==> ValidPhpPolicy(PhpPolicy(maxAttempts, baseDelay, maxDelay, statuses))
    ensures r.Some? ==> r == Some(PhpPolicy(maxAttempts, baseDelay, maxDelay, statuses))
  {
    if maxAttempts < 1 || maxAttempts > 6 || baseDelay < 0 || maxDelay < 0 || maxDelay < baseDelay then None
    else Some(PhpPolicy(maxAttempts, baseDelay, maxDelay, statuses))
  }

  /** The interval `random_int` draws from when no header decides. */
  function PhpBackoff(p: PhpPolicy, attempt: int): int
    requires attempt >= 1
  {
    Min(p.maxDelay, p.baseDelay * Pow2(attempt - 1))
  }

  /** `draw` picks any value of the jitter interval; `None` is the exception for a wrong attempt. */
  function PhpDelay(p: PhpPolicy, attempt: int, reading: PhpReading, draw: int -> int): Option<int> {
    if attempt < 1 || attempt >= p.maxAttempts then None
    else if reading.PhpDigits? then
      Some(if reading.length > 6 then p.maxDelay else Min(p.maxDelay, reading.value * 1_000))
    else
      var delay := PhpBackoff(p, attempt);
      if delay == 0 then Some(0) else Some(draw(delay))
  }

  ghost predicate FairDraw(draw: int -> int) {
    forall delay :: delay > 0 ==> delay / 2 <= draw(delay) <= (if delay < 1 then 1 else delay)
  }

  lemma {:induction false} PhpDelayBounds(p: PhpPolicy, attempt: int, reading: PhpReading, draw: int -> int)
    requires ValidPhpPolicy(p) && FairDraw(draw)
    ensures PhpDelay(p, attempt, reading, draw).None? <==> !(1 <= attempt < p.maxAttempts)
    ensures PhpDelay(p, attempt, reading, draw).Some? ==> 0 <= PhpDelay(p, attempt, reading, draw).value <= p.maxDelay
    ensures PhpDelay(p, attempt, reading, draw).Some? && reading.PhpUnread? ==>
              PhpBackoff(p, attempt) / 2 <= PhpDelay(p, attempt, reading, draw).value <= PhpBackoff(p, attempt)
  {
    if 1 <= attempt < p.maxAttempts && reading.PhpUnread? {
      Pow2Monotone(0, attempt - 1);
      assert p.baseDelay * Pow2(attempt - 1) >= 0;
    }
  }

  // ---------------------------------------------------------------- the same header in three languages

  /** The least integer that JavaScript's `Number` reads as infinite. */
  const TS_INFINITE: int := Pow2(1024) - Pow2(970)

  /** Delta-seconds as Go reads them: `Atoi` fails beyond 64 bits, and such a text is no date. */
  function GoReads(n: nat): GoReading { if n <= MAX_INT64 then GoSeconds(n) else GoUnreadable }

  /** Delta-seconds as TypeScript reads them: an infinite number is refused, and such a text is no date. */
  function TsReads(n: nat): TsReading { TsReading(if n < TS_INFINITE then Some(n as real) else None, None) }

  lemma {:induction false} PhpReads(n: nat)
    ensures PhpRead(NatText(n)) == if n == 0 then PhpUnread else PhpDigits(|NatText(n)|, n)
    ensures |NatText(n)| > 6 <==> n >= 1_000_000
  {
    NatTextValue(n);
    NatTextValue(0);
    assert Pow10(6) == 1_000_000;
    NatTextLength(n, 6);
  }

  /** Go's delay for n delta-seconds above a minute meets the cap. */
  predicate GoMeetsCap(go: GoConfig, attempt: nat, n: nat) {
    if n > MAX_INT64 then go.baseDelay * Pow2(attempt) >= go.maxDelay
    else if Wrap64(n * SECOND) > MAX_RETRY_DELAY then go.maxDelay == MAX_RETRY_DELAY
    else Wrap64(n * SECOND) >= go.maxDelay
  }

  /** Go waits what the cap and the header ask exactly up to a minute, or when its delay meets the cap. */
  lemma {:induction false} GoWaitsAsAsked(n: nat, attempt: nat, capMs: nat, go: GoConfig)
    requires ValidGoConfig(go) && attempt <= go.retries && go.maxDelay == capMs * MILLISECOND
    ensures GoDelay(go, attempt, GoReads(n)) == Min(capMs, n * 1000) * MILLISECOND <==>
      n <= 60 || GoMeetsCap(go, attempt, n)
    ensures 60 < n <= MAX_INT64 / SECOND ==> (GoMeetsCap(go, attempt, n) <==> capMs == MAX_DELAY_MS)
  {
    BackoffDoesNotOverflow(go, attempt);
    if n <= MAX_INT64 / SECOND {
      WrapIdentity(n * SECOND);
    }
  }

  /** TypeScript waits what the cap and the header ask exactly for a finite number, or when the backoff meets it. */
  lemma {:induction false} TsWaitsAsAsked(n: nat, attempt: nat, ts: TsConfig)
    requires ValidTsConfig(ts)
    ensures TsDelay(ts, attempt, TsReads(n)) == Min(ts.maxDelayMs, n * 1000) as real <==>
      n < Pow2(1024) - Pow2(970) || ts.baseDelayMs * Pow2(attempt) >= ts.maxDelayMs
  {
    assert n as real * 1000.0 == (n * 1000) as real;
    assert TS_INFINITE > 60 by {
      Pow2Monotone(970, 1023);
      Pow2Monotone(6, 970);
      assert Pow2(1024) == 2 * Pow2(1023);
      assert Pow2(6) == 64;
    }
  }

  /**
   * PHP ignores the header `0`, so there it waits nothing exactly when the draw is nothing; any
   * other header it obeys exactly when it has at most six digits or asks for the cap at least.
   */
  lemma {:induction false} PhpWaitsAsAsked(n: nat, attempt: nat, php: PhpPolicy, draw: int -> int)
    requires ValidPhpPolicy(php) && FairDraw(draw) && attempt + 1 < php.maxAttempts
    ensures PhpDelay(php, attempt + 1, PhpRead(NatText(n)), draw) == Some(Min(php.maxDelay, n * 1000)) <==>
      if n == 0 then PhpBackoff(php, attempt + 1) == 0 || draw(PhpBackoff(php, attempt + 1)) == 0
      else n < 1_000_000 || php.maxDelay <= n * 1000
    ensures n == 0 && php.baseDelay >= 2 ==> PhpDelay(php, attempt + 1, PhpRead(NatText(n)), draw).value > 0
  {
    PhpReads(n);
    if n == 0 {
      BackoffAtLeastBase(php, attempt + 1);
    }
  }

  lemma {:induction false} BackoffAtLeastBase(p: PhpPolicy, attempt: nat)
    requires ValidPhpPolicy(p) && attempt >= 1
    ensures PhpBackoff(p, attempt) >= p.baseDelay
  {
    Pow2Monotone(0, attempt - 1);
    assert p.baseDelay * Pow2(attempt - 1) >= p.baseDelay;
  }

  /**
   * One header of `n` delta-seconds, one cap: the wait the header asks for, cut at the cap, is
   * what each client waits exactly when its own condition holds. All three agree on it for
   * 1 <= n <= 60, whatever the settings.
   */
  lemma {:induction false} SameHeaderSameDelay(n: nat, attempt: nat, capMs: nat, go: GoConfig, ts: TsConfig,
      php: PhpPolicy, draw: int -> int)
    requires ValidGoConfig(go) && ValidTsConfig(ts) && ValidPhpPolicy(php) && FairDraw(draw)
    requires go.maxDelay == capMs * MILLISECOND && ts.maxDelayMs == capMs && php.maxDelay == capMs
    requires attempt <= go.retries && attempt + 1 < php.maxAttempts
    ensures GoDelay(go, attempt, GoReads(n)) == Min(capMs, n * 1000) * MILLISECOND <==>
      n <= 60 || GoMeetsCap(go, attempt, n)
    ensures TsDelay(ts, attempt, TsReads(n)) == Min(capMs, n * 1000) as real <==>
      n < Pow2(1024) - Pow2(970) || ts.baseDelayMs * Pow2(attempt) >= capMs
    ensures PhpDelay(php, attempt + 1, PhpRead(NatText(n)), draw) == Some(Min(capMs, n * 1000)) <==>
      n > 0 || PhpBackoff(php, attempt + 1) == 0 || draw(PhpBackoff(php, attempt + 1)) == 0
  {
    GoWaitsAsAsked(n, attempt, capMs, go);
    TsWaitsAsAsked(n, attempt, ts);
    PhpWaitsAsAsked(n, attempt, php, draw);
  }

  /**
   * A header that is a date, `ms` milliseconds from now: Go and TypeScript wait until then, not at
   * all when it has passed, and never longer than the cap. PHP reads no date and draws a backoff.
   */
  lemma {:induction false} SameDateSameDelay(ms: int, attempt: nat, capMs: nat, go: GoConfig, ts: TsConfig,
      line: string)
    requires go.maxDelay == capMs * MILLISECOND && ts.maxDelayMs == capMs
    ensures var goDelay, tsDelay :=
        GoDelay(go, attempt, GoDate(ms * MILLISECOND)), TsDelay(ts, attempt, TsReading(None, Some(ms)));
      && (ms <= 0 ==> goDelay == 0 && tsDelay == 0.0)
      && (0 < ms <= capMs ==> goDelay == ms * 1_000_000 && tsDelay == ms as real)
      && (ms > capMs ==> goDelay == capMs * 1_000_000 && tsDelay == capMs as real)
    ensures (exists c :: c in line && !('0' <= c <= '9')) ==> PhpRead(line) == PhpUnread
  {
  }

  /** Without a header the delay doubles from attempt to attempt until it meets the cap. */
  lemma {:induction false} BackoffDoubles(p: PhpPolicy, attempt: nat)
    requires ValidPhpPolicy(p) && attempt >= 1
    ensures PhpBackoff(p, 1) == p.baseDelay
    ensures PhpBackoff(p, attempt + 1) == Min(p.maxDelay, 2 * PhpBackoff(p, attempt))
  {
    assert Pow2(attempt) == 2 * Pow2(attempt - 1);
    assert p.baseDelay * Pow2(attempt) == 2 * (p.baseDelay * Pow2(attempt - 1));
    Pow2Monotone(0, attempt - 1);
    assert Pow2(0) == 1;
  }

  /** With equal settings Go and TypeScript wait the same backoff, and PHP draws between half of it and all of it. */
  lemma {:induction false} SameBackoff(attempt: nat, baseMs: nat, capMs: nat, go: GoConfig, ts: TsConfig,
      php: PhpPolicy, draw: int -> int)
    requires ValidGoConfig(go) && ValidTsConfig(ts) && ValidPhpPolicy(php) && FairDraw(draw)
    requires go.baseDelay == baseMs * MILLISECOND && ts.baseDelayMs == baseMs && php.baseDelay == baseMs
    requires go.maxDelay == capMs * MILLISECOND && ts.maxDelayMs == capMs && php.maxDelay == capMs
    requires attempt <= go.retries && attempt + 1 < php.maxAttempts
    ensures var backoff := PhpBackoff(php, attempt + 1);
      && GoDelay(go, attempt, GoUnreadable) == backoff * MILLISECOND
      && TsDelay(ts, attempt, TsReading(None, None)) == backoff as real
      && backoff / 2 <= PhpDelay(php, attempt + 1, PhpUnread, draw).value <= backoff
  {
    BackoffDoesNotOverflow(go, attempt);
    ScaledBackoff(baseMs, Pow2(attempt), capMs);
    PhpDelayBounds(php, attempt + 1, PhpUnread, draw);
  }

  lemma {:induction false} ScaledBackoff(baseMs: nat, factor: nat, capMs: nat)
    ensures Min(baseMs * MILLISECOND * factor, capMs * MILLISECOND) == Min(capMs, baseMs * factor) * MILLISECOND
  {
    assert baseMs * MILLISECOND * factor == (baseMs * factor) * MILLISECOND;
  }
}
