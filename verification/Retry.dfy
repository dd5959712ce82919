/** Retrying a call with exponential backoff, optionally behind a breaker. */
module Retry {
  import opened Optional
  import opened CircuitBreaker

  datatype RetryConfig = RetryConfig(maxAttempts: int, baseDelay: real, backoffFactor: real,
                                     maxDelay: real, jitter: bool)

  /** How one execution of the call ends: an error counts as retryable unless it
      is classified permanent and not marked for retry. */
  datatype Outcome<T> = Ok(value: T) | Retryable | Permanent

  datatype Result<T> = Returned(value: T) | Rejected | Exhausted(attempts: int) | Raised | NoAttempt

  /** The environment, indexed by attempt: how the call ends, how long it takes,
      and the random draw in [0, 1) used for the pause after it. */
  datatype World<!T> = World(call: int -> Outcome<T>, duration: int -> real, noise: int -> real)

  ghost predicate Plausible<T(!new)>(w: World<T>) {
    forall k: int :: w.duration(k) >= 0.0 && 0.0 <= w.noise(k) < 1.0
  }

  function Pow(x: real, n: nat): real {
    if n == 0 then 1.0 else x * Pow(x, n - 1)
  }

  /** The geometric delay after a 1-based attempt, capped. */
  function Capped(r: RetryConfig, attempt: int): real
    requires attempt >= 1
  {
    var raw := r.baseDelay * Pow(r.backoffFactor, attempt - 1);
    if raw < r.maxDelay then raw else r.maxDelay
  }

  function Delay(r: RetryConfig, attempt: int, noise: real): real
    requires attempt >= 1
  {
    if r.jitter then Capped(r, attempt) * (0.5 + noise) else Capped(r, attempt)
  }

  /** A sleep never takes less than no time. */
  function Pause(d: real): real {
    if d > 0.0 then d else 0.0
  }

  /** What a run of the retry loop leaves behind. */
  datatype Trace<T> = Trace(result: Result<T>, breaker: Option<Stats>, now: real, calls: nat, slept: real)

  /** The loop from a given attempt on. */
  function From<T>(c: Config, r: RetryConfig, w: World<T>, b: Option<Stats>, now: real, attempt: int): Trace<T>
    requires attempt >= 1
    decreases r.maxAttempts - attempt
  {
    if attempt > r.maxAttempts then Trace(NoAttempt, b, now, 0, 0.0)
    else if b.Some? && IsActive(c, b.value, now) then Trace(Rejected, b, now, 0, 0.0)
    else
      var end := now + w.duration(attempt);
      var ok := w.call(attempt).Ok?;
      var b' := if b.None? then None else Some(End(c, Begin(c, b.value, now), ok, end));
      match w.call(attempt)
      case Ok(v) => Trace(Returned(v), b', end, 1, 0.0)
      case Permanent => Trace(Raised, b', end, 1, 0.0)
      case Retryable =>
        if attempt == r.maxAttempts then Trace(Exhausted(attempt), b', end, 1, 0.0)
        else
          var pause := Pause(Delay(r, attempt, w.noise(attempt)));
          var rest := From(c, r, w, b', end + pause, attempt + 1);
          rest.(calls := rest.calls + 1, slept := rest.slept + pause)
  }

  /** `retry_async` as a loop over one breaker that nobody else uses meanwhile. */
  method RetryAsync<T>(r: RetryConfig, w: World<T>, breaker: Breaker?, start: real, ghost c: Config)
    returns (result: Result<T>, now: real, calls: nat, slept: real)
    requires breaker != null ==> breaker.config == c
    modifies breaker
    ensures var b := if breaker == null then None else Some(old(breaker.stats));
            var b' := if breaker == null then None else Some(breaker.stats);
            Trace(result, b', now, calls, slept) == From(c, r, w, b, start, 1)
  {
    now, calls, slept := start, 0, 0.0;
    var attempt := 1;
    ghost var whole := From(c, r, w, if breaker == null then None else Some(breaker.stats), start, 1);
    while attempt <= r.maxAttempts
      invariant attempt >= 1
      invariant var rest := From(c, r, w, if breaker == null then None else Some(breaker.stats), now, attempt);
                whole == Trace(rest.result, rest.breaker, rest.now, calls + rest.calls, slept + rest.slept)
    {
      if breaker != null {
        var admitted := breaker.BeginCall(now);
        if !admitted {
          result := Rejected;
          return;
        }
      }
      calls := calls + 1;
      now := now + w.duration(attempt);
      var outcome := w.call(attempt);
      if breaker != null {
        breaker.EndCall(outcome.Ok?, now);
      }
      if outcome.Ok? {
        result := Returned(outcome.value);
        return;
      }
      if outcome.Permanent? {
        result := Raised;
        return;
      }
      if attempt == r.maxAttempts {
        result := Exhausted(attempt);
        return;
      }
      var pause := Pause(Delay(r, attempt, w.noise(attempt)));
      now := now + pause;
      slept := slept + pause;
      attempt := attempt + 1;
    }
    result := NoAttempt;
  }

  // --------------------------------------------------------- no breaker

  /** Without a breaker the loop makes exactly one call more than there were
      retryable failures first, within the allowed number. */
  lemma {:induction false} WithoutBreaker<T>(c: Config, r: RetryConfig, w: World<T>, now: real, attempt: int, last: int)
    requires 1 <= attempt <= last <= r.maxAttempts
    requires forall k :: attempt <= k < last ==> w.call(k).Retryable?
    requires last == r.maxAttempts || !w.call(last).Retryable?
    ensures var t := From(c, r, w, None, now, attempt);
            && t.calls == last - attempt + 1
            && t.result == match w.call(last)
                           case Ok(v) => Returned(v)
                           case Permanent => Raised
                           case Retryable => Exhausted(last)
    decreases last - attempt
  {
    if attempt < last {
      var end := now + w.duration(attempt);
      WithoutBreaker(c, r, w, end + Pause(Delay(r, attempt, w.noise(attempt))), attempt + 1, last);
    }
  }

  // ------------------------------------------------------- with a breaker

  /** The number of failures that open a closed breaker. */
  function FailuresLeft(c: Config, failures: int): int {
    if c.failureThreshold - failures < 1 then 1 else c.failureThreshold - failures
  }

  /** An always retryable call behind a closed breaker, from any attempt on. */
  lemma {:induction false} OpensAfter<T>(c: Config, r: RetryConfig, w: World<T>, s: Stats, now: real, attempt: int)
    requires 1 <= attempt <= r.maxAttempts && s.state.Closed?
    requires forall k :: w.call(k).Retryable?
    ensures var t := From(c, r, w, Some(s), now, attempt);
            var k := attempt + FailuresLeft(c, s.failures) - 1;
            if r.maxAttempts <= k
            then t.result == Exhausted(r.maxAttempts) && t.calls == r.maxAttempts - attempt + 1
            else if Pause(Delay(r, k, w.noise(k))) < c.cooldown
            then t.result == Rejected && t.calls == k - attempt + 1
            else t.calls > k - attempt + 1
    decreases r.maxAttempts - attempt
  {
    hide Delay;
    var end := now + w.duration(attempt);
    var s' := End(c, Begin(c, s, now), false, end);
    var pause := Pause(Delay(r, attempt, w.noise(attempt)));
    if attempt < r.maxAttempts {
      if s.failures + 1 >= c.failureThreshold {
        AfterOpening(c, r, w, s', end, pause, attempt + 1);
      } else {
        OpensAfter(c, r, w, s', end + pause, attempt + 1);
      }
    }
  }

  /** Right after an opening the next attempt is rejected exactly when the pause
      is shorter than the cooldown. */
  lemma AfterOpening<T>(c: Config, r: RetryConfig, w: World<T>, s: Stats, since: real, pause: real, attempt: int)
    requires 1 <= attempt <= r.maxAttempts
    requires s.state.Open? && s.openedAt == Some(since)
    ensures var t := From(c, r, w, Some(s), since + pause, attempt);
            if pause < c.cooldown then t.result == Rejected && t.calls == 0 else t.calls >= 1
  {
    hide Delay;
  }

  /** Retry composed with a breaker that starts CLOSED: an always retryable call
      runs as often as attempts and threshold allow exactly when the attempts
      run out first or the pause after the opening is shorter than the
      cooldown; the result says which of the two stopped it. */
  lemma {:induction false} RetryMeetsBreaker<T>(c: Config, r: RetryConfig, w: World<T>, s: Stats, now: real)
    requires r.maxAttempts >= 1 && s.state.Closed?
    requires forall k :: w.call(k).Retryable?
    ensures var t := From(c, r, w, Some(s), now, 1);
            var k := FailuresLeft(c, s.failures);
            && (t.calls == (if r.maxAttempts < k then r.maxAttempts else k)
                <==> r.maxAttempts <= k || Pause(Delay(r, k, w.noise(k))) < c.cooldown)
            && (r.maxAttempts <= k ==> t.result == Exhausted(r.maxAttempts))
            && (r.maxAttempts > k && Pause(Delay(r, k, w.noise(k))) < c.cooldown ==> t.result == Rejected)
  {
    hide Delay, From;
    OpensAfter(c, r, w, s, now, 1);
  }

  // ---------------------------------------------------------------- backoff

  /** The sum of the capped geometric delays after attempts `lo` to `hi - 1`. */
  function CappedSum(r: RetryConfig, lo: int, hi: int): real
    requires lo >= 1
    decreases hi - lo
  {
    if lo >= hi then 0.0 else Capped(r, lo) + CappedSum(r, lo + 1, hi)
  }

  lemma {:induction false} PowNonNegative(x: real, n: nat)
    requires x >= 0.0
    ensures Pow(x, n) >= 0.0
  {
    if n > 0 {
      PowNonNegative(x, n - 1);
    }
  }

  /** Delays before the cap: each is the one before times the factor. */
  ghost predicate Geometric(r: RetryConfig, raw: seq<real>) {
    && |raw| > 0 && raw[0] == r.baseDelay
    && forall i :: 0 <= i < |raw| - 1 ==> raw[i + 1] == raw[i] * r.backoffFactor
  }

  lemma {:induction false} PowIs(r: RetryConfig, raw: seq<real>, n: nat)
    requires Geometric(r, raw) && n < |raw|
    ensures r.baseDelay * Pow(r.backoffFactor, n) == raw[n]
  {
    if n > 0 {
      PowIs(r, raw, n - 1);
      var f, p := r.backoffFactor, Pow(r.backoffFactor, n - 1);
      assert r.baseDelay * (f * p) == r.baseDelay * p * f;
    }
  }

  /** After the first attempt the delay is the base delay and after each further
      one the factor times the one before, up to the cap; jitter takes up to half
      of it away or adds up to half of it. */
  lemma {:induction false} DelayIs(r: RetryConfig, raw: seq<real>, attempt: int, noise: real)
    requires Geometric(r, raw) && 1 <= attempt <= |raw|
    ensures var d := if r.maxDelay < raw[attempt - 1] then r.maxDelay else raw[attempt - 1];
            && Capped(r, attempt) == d
            && 2.0 * Delay(r, attempt, noise) == if r.jitter then d + 2.0 * (noise * d) else 2.0 * d
  {
    PowIs(r, raw, attempt - 1);
    hide Pow;
    var d := Capped(r, attempt);
    assert d * (0.5 + noise) == 0.5 * d + noise * d;
  }

  /** Whatever the configuration, delays below zero included, a pause takes the
      delay or no time. */
  lemma PauseIs(r: RetryConfig, attempt: int, noise: real)
    requires attempt >= 1
    ensures var p, d := Pause(Delay(r, attempt, noise)), Delay(r, attempt, noise);
            p >= 0.0 && p >= d && (p == 0.0 || p == d)
  {
    hide Delay;
  }

  /** The durations of a number of calls, from an attempt on. */
  function CallTime<T>(w: World<T>, attempt: int, n: nat): real {
    if n == 0 then 0.0 else CallTime(w, attempt, n - 1) + w.duration(attempt + n - 1)
  }

  lemma {:induction false} CallTimeFront<T>(w: World<T>, attempt: int, n: nat)
    ensures CallTime(w, attempt, n + 1) == w.duration(attempt) + CallTime(w, attempt + 1, n)
  {
    if n > 0 {
      CallTimeFront(w, attempt, n - 1);
    }
  }

  /** No time passes but in calls and in pauses. */
  lemma {:induction false} ClockAddsUp<T>(c: Config, r: RetryConfig, w: World<T>, b: Option<Stats>, now: real, attempt: int)
    requires attempt >= 1
    ensures var t := From(c, r, w, b, now, attempt); t.now == now + CallTime(w, attempt, t.calls) + t.slept
    decreases r.maxAttempts - attempt
  {
    hide Delay, IsActive, Begin, End;
    if attempt <= r.maxAttempts && !(b.Some? && IsActive(c, b.value, now)) {
      var end := now + w.duration(attempt);
      assert CallTime(w, attempt, 0) == 0.0 && CallTime(w, attempt, 1) == w.duration(attempt);
      if attempt < r.maxAttempts && w.call(attempt).Retryable? {
        var b' := if b.None? then None else Some(End(c, Begin(c, b.value, now), false, end));
        var next := end + Pause(Delay(r, attempt, w.noise(attempt)));
        ClockAddsUp(c, r, w, b', next, attempt + 1);
        CallTimeFront(w, attempt, From(c, r, w, b', next, attempt + 1).calls);
      }
    } else {
      assert CallTime(w, attempt, 0) == 0.0;
    }
  }

  lemma CappedBounds(r: RetryConfig, attempt: int)
    requires attempt >= 1 && r.baseDelay >= 0.0 && r.backoffFactor >= 0.0 && r.maxDelay >= 0.0
    ensures 0.0 <= Capped(r, attempt) <= r.maxDelay
  {
    PowNonNegative(r.backoffFactor, attempt - 1);
  }

  lemma PauseBounds(r: RetryConfig, attempt: int, noise: real)
    requires attempt >= 1 && r.baseDelay >= 0.0 && r.backoffFactor >= 0.0 && r.maxDelay >= 0.0
    requires 0.0 <= noise < 1.0
    ensures 0.5 * Capped(r, attempt) <= Pause(Delay(r, attempt, noise)) <= 1.5 * Capped(r, attempt)
    ensures !r.jitter ==> Pause(Delay(r, attempt, noise)) == Capped(r, attempt)
  {
    hide Capped;
    CappedBounds(r, attempt);
    var x := Capped(r, attempt);
    ScaleBounds(x, noise);
    assert Delay(r, attempt, noise) == if r.jitter then x * (0.5 + noise) else x;
    assert 0.0 <= 0.5 * x <= x <= 1.5 * x;
  }

  lemma ScaleBounds(x: real, noise: real)
    requires x >= 0.0 && 0.0 <= noise < 1.0
    ensures 0.5 * x <= x * (0.5 + noise) <= 1.5 * x
  {
    assert x * (0.5 + noise) == 0.5 * x + x * noise;
    assert 0.0 <= x * noise;
    assert 0.0 <= x * (1.0 - noise) == x - x * noise;
  }

  /** Whatever the call does and whatever the breaker decides, the total sleep
      is at most one and a half times the capped geometric delays; a loop that
      exhausts its attempts slept at least half of them, and exactly them
      without jitter. */
  lemma {:induction false} BackoffBounded<T(!new)>(c: Config, r: RetryConfig, w: World<T>, b: Option<Stats>, now: real, attempt: int)
    requires attempt >= 1 && r.baseDelay >= 0.0 && r.backoffFactor >= 0.0 && r.maxDelay >= 0.0
    requires Plausible(w)
    ensures var t, sum := From(c, r, w, b, now, attempt), CappedSum(r, attempt, r.maxAttempts);
            && 0.0 <= t.slept <= 1.5 * sum
            && (t.result.Exhausted? ==> 0.5 * sum <= t.slept && (!r.jitter ==> t.slept == sum))
    decreases r.maxAttempts - attempt
  {
    hide Delay, Capped, IsActive, Begin, End;
    CappedSumNonNegative(r, attempt, r.maxAttempts);
    if attempt < r.maxAttempts && !(b.Some? && IsActive(c, b.value, now)) && w.call(attempt).Retryable? {
      var end := now + w.duration(attempt);
      var b' := if b.None? then None else Some(End(c, Begin(c, b.value, now), false, end));
      PauseBounds(r, attempt, w.noise(attempt));
      BackoffBounded(c, r, w, b', end + Pause(Delay(r, attempt, w.noise(attempt))), attempt + 1);
    }
  }

  lemma {:induction false} CappedSumNonNegative(r: RetryConfig, lo: int, hi: int)
    requires lo >= 1 && r.baseDelay >= 0.0 && r.backoffFactor >= 0.0 && r.maxDelay >= 0.0
    ensures 0.0 <= CappedSum(r, lo, hi)
    decreases hi - lo
  {
    if lo < hi {
      CappedBounds(r, lo);
      CappedSumNonNegative(r, lo + 1, hi);
    }
  }
}
