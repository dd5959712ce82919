/** The circuit breaker: a timed state machine guarding calls to a dependency. */
module CircuitBreaker {
  import opened Optional

  datatype State = Closed | Open | HalfOpen

  datatype Config = Config(failureThreshold: int, cooldown: real, resetSuccessThreshold: int)

  datatype Stats = Stats(state: State, failures: int, successes: int, inflight: int,
                         openedAt: Option<real>, trips: nat)

  const INITIAL := Stats(Closed, 0, 0, 0, None, 0)

  function ToOpen(s: Stats, now: real): Stats {
    if s.state.Open? then s
    else s.(state := Open, openedAt := Some(now), trips := s.trips + 1, successes := 0)
  }

  function ToHalfOpen(s: Stats): Stats {
    s.(state := HalfOpen, failures := 0, successes := 0)
  }

  function ToClosed(s: Stats): Stats {
    s.(state := Closed, failures := 0, successes := 0, openedAt := None)
  }

  predicate CooldownElapsed(c: Config, s: Stats, now: real) {
    s.openedAt.None? || now - s.openedAt.value >= c.cooldown
  }

  /** Whether calls fail fast; asking after the cooldown moves to HALF_OPEN. */
  predicate IsActive(c: Config, s: Stats, now: real) {
    s.state.Open? && !CooldownElapsed(c, s, now)
  }

  function Check(c: Config, s: Stats, now: real): Stats {
    if s.state.Open? && CooldownElapsed(c, s, now) then ToHalfOpen(s) else s
  }

  function Succeed(c: Config, s: Stats): Stats {
    var s' := s.(failures := 0);
    if s.state.HalfOpen? then
      var s'' := s'.(successes := s.successes + 1);
      if s''.successes >= c.resetSuccessThreshold then ToClosed(s'') else s''
    else s'
  }

  function Fail(c: Config, s: Stats, now: real): Stats {
    var s' := s.(failures := s.failures + 1);
    match s.state
    case Closed => if s'.failures >= c.failureThreshold then ToOpen(s', now) else s'
    case HalfOpen => ToOpen(s', now)
    case Open => s'
  }

  /** The start of a protected call, when it is let through. */
  function Begin(c: Config, s: Stats, now: real): Stats {
    var s' := Check(c, s, now);
    if IsActive(c, s, now) || !s'.state.HalfOpen? then s' else s'.(inflight := s'.inflight + 1)
  }

  /** The end of a protected call. */
  function End(c: Config, s: Stats, ok: bool, now: real): Stats {
    var s' := if ok then Succeed(c, s) else Fail(c, s, now);
    if s'.state.HalfOpen? then s'.(inflight := if s'.inflight > 1 then s'.inflight - 1 else 0) else s'
  }

  // ------------------------------------------------------------------- runs

  /** Everything that users of one breaker can do, in any interleaving of
      concurrent calls; `Idle` lets time pass. */
  datatype Event = Idle | Asked | Began | Ended(ok: bool) | Succeeded | Failed | Tripped | WasReset

  datatype Timed = Timed(event: Event, at: real)

  function Step(c: Config, s: Stats, e: Event, now: real): Stats {
    match e
    case Idle => s
    case Asked => Check(c, s, now)
    case Began => Begin(c, s, now)
    case Ended(ok) => End(c, s, ok, now)
    case Succeeded => Succeed(c, s)
    case Failed => Fail(c, s, now)
    case Tripped => ToOpen(s, now)
    case WasReset => INITIAL
  }

  /** The state before step `k`. */
  function Before(c: Config, run: seq<Timed>, k: nat): Stats
    requires k <= |run|
  {
    if k == 0 then INITIAL else Step(c, Before(c, run, k - 1), run[k - 1].event, run[k - 1].at)
  }

  predicate ClockMonotone(run: seq<Timed>) {
    forall i, j :: 0 <= i <= j < |run| ==> run[i].at <= run[j].at
  }

  predicate NeverReset(run: seq<Timed>) {
    forall i :: 0 <= i < |run| ==> !run[i].event.WasReset?
  }

  /** Step `i` opens the breaker. */
  predicate Opens(c: Config, run: seq<Timed>, i: nat)
    requires i < |run|
  {
    !Before(c, run, i).state.Open? && Before(c, run, i + 1).state.Open?
  }

  /** At step `i` the breaker is asked, or a protected call starts, and it lets
      the caller through. */
  predicate LetsThrough(c: Config, run: seq<Timed>, i: nat)
    requires i < |run|
  {
    (run[i].event.Began? || run[i].event.Asked?) && !IsActive(c, Before(c, run, i), run[i].at)
  }

  /** The last opening before step `k`. */
  function LastOpening(c: Config, run: seq<Timed>, k: nat): (r: Option<nat>)
    requires k <= |run|
    ensures r.Some? ==> r.value < k && Opens(c, run, r.value)
  {
    if k == 0 then None
    else if Opens(c, run, k - 1) then Some(k - 1)
    else LastOpening(c, run, k - 1)
  }

  /** How one step can change the open state. */
  lemma StepEffect(c: Config, s: Stats, e: Event, now: real)
    requires !e.WasReset?
    ensures var s' := Step(c, s, e, now);
            && (!s.state.Open? && s'.state.Open? ==> s'.openedAt == Some(now) && s'.trips == s.trips + 1)
            && (s.state.Open? && s'.state.Open? ==> s'.openedAt == s.openedAt && s'.trips == s.trips)
            && (s.state.Open? && !s'.state.Open? ==> CooldownElapsed(c, s, now) && s'.trips == s.trips)
            && (!s.state.Open? && !s'.state.Open? ==> s'.trips == s.trips)
  {
  }

  /** No manual reset strictly between two steps. */
  predicate NoResetBetween(run: seq<Timed>, i: nat, j: nat)
    requires j <= |run|
  {
    forall k :: i < k < j ==> !run[k].event.WasReset?
  }

  /** After an opening and until a reset, the breaker stays open with that
      opening time, or the cooldown has passed. */
  lemma {:induction false} OpenOrElapsed(c: Config, run: seq<Timed>, i: nat, k: nat)
    requires i < k <= |run| && ClockMonotone(run) && Opens(c, run, i) && NoResetBetween(run, i, k)
    ensures var s := Before(c, run, k);
            || (s.state.Open? && s.openedAt == Some(run[i].at))
            || run[k - 1].at >= run[i].at + c.cooldown
  {
    hide Step, CooldownElapsed;
    var j := k - 1;
    if j == i {
      OpeningIsNoReset(c, run, i);
    } else {
      OpenOrElapsed(c, run, i, j);
    }
    StepEffect(c, Before(c, run, j), run[j].event, run[j].at);
    ElapsedMeans(c, Before(c, run, j), run[j].at);
  }

  lemma OpeningIsNoReset(c: Config, run: seq<Timed>, i: nat)
    requires i < |run| && Opens(c, run, i)
    ensures !run[i].event.WasReset?
  {
  }

  lemma ElapsedMeans(c: Config, s: Stats, now: real)
    ensures s.openedAt.Some? ==> (CooldownElapsed(c, s, now) <==> now >= s.openedAt.value + c.cooldown)
  {
  }

  /** Any two openings without a manual reset between them are at least a
      cooldown apart; what happens before, after or at them does not matter. */
  lemma OpeningsApart(c: Config, run: seq<Timed>, i: nat, j: nat)
    requires i < j < |run| && ClockMonotone(run) && NoResetBetween(run, i, j)
    requires Opens(c, run, i) && Opens(c, run, j)
    ensures run[j].at >= run[i].at + c.cooldown
  {
    hide Before;
    OpenOrElapsed(c, run, i, j);
  }

  /** So openings closer than a cooldown have a reset between them. */
  lemma CloseOpeningsNeedReset(c: Config, run: seq<Timed>, i: nat, j: nat) returns (k: nat)
    requires ClockMonotone(run)
    requires i < j < |run| && Opens(c, run, i) && Opens(c, run, j) && run[j].at < run[i].at + c.cooldown
    ensures i < k < j && run[k].event.WasReset?
  {
    if NoResetBetween(run, i, j) {
      OpeningsApart(c, run, i, j);
    }
    k :| i < k < j && run[k].event.WasReset?;
  }

  lemma Multiple(n: int, x: real, elapsed: real, more: real)
    requires n as real * x <= elapsed && more >= elapsed + x
    ensures (n + 1) as real * x <= more
  {
    assert (n + 1) as real * x == n as real * x + x;
  }

  lemma {:induction false} TripsRate(c: Config, run: seq<Timed>, k: nat)
    requires k <= |run| && ClockMonotone(run) && NeverReset(run)
    ensures var trips, last := Before(c, run, k).trips, LastOpening(c, run, k);
            if last.None? then trips == 0
            else (trips - 1) as real * c.cooldown <= run[last.value].at - run[0].at
  {
    hide Step;
    if k > 0 {
      var j := k - 1;
      TripsRate(c, run, j);
      var s, last := Before(c, run, j), LastOpening(c, run, j);
      TripsStep(c, run, j);
      hide Before;
      if Opens(c, run, j) {
        if last.Some? {
          OpeningsApart(c, run, last.value, j);
          Multiple(s.trips - 1, c.cooldown, run[last.value].at - run[0].at, run[j].at - run[0].at);
        } else {
          assert Before(c, run, k).trips - 1 == 0;
        }
      }
    }
  }

  lemma TripsStep(c: Config, run: seq<Timed>, j: nat)
    requires j < |run| && NeverReset(run)
    ensures Before(c, run, j + 1).trips == Before(c, run, j).trips + if Opens(c, run, j) then 1 else 0
  {
    StepEffect(c, Before(c, run, j), run[j].event, run[j].at);
  }

  /** The number of trips is bounded by the time that passed. */
  lemma {:induction false} TripsBounded(c: Config, run: seq<Timed>)
    requires ClockMonotone(run) && NeverReset(run) && |run| > 0
    ensures var trips := Before(c, run, |run|).trips;
            trips >= 1 ==> (trips - 1) as real * c.cooldown <= run[|run| - 1].at - run[0].at
  {
    hide Before;
    TripsRate(c, run, |run|);
  }

  /** No caller is let through, and no protected call starts, inside a cooldown
      window, unless a manual reset comes first. */
  lemma NoCallDuringCooldown(c: Config, run: seq<Timed>, i: nat, j: nat)
    requires i < j < |run| && ClockMonotone(run) && NoResetBetween(run, i, j)
    requires Opens(c, run, i) && LetsThrough(c, run, j)
    ensures run[j].at >= run[i].at + c.cooldown
  {
    hide Before;
    OpenOrElapsed(c, run, i, j);
  }

  /** A manual reset does void the separation: the breaker may open at once. */
  lemma ResetVoidsSeparation(c: Config, now: real)
    ensures var run := [Timed(Tripped, now), Timed(WasReset, now), Timed(Tripped, now)];
            ClockMonotone(run) && Opens(c, run, 0) && Opens(c, run, 2)
  {
    var run := [Timed(Tripped, now), Timed(WasReset, now), Timed(Tripped, now)];
    assert Before(c, run, 1) == ToOpen(INITIAL, now);
    assert Before(c, run, 2) == INITIAL;
    assert Before(c, run, 3) == ToOpen(INITIAL, now);
  }

  // ---------------------------------------------------------------- closing

  predicate IsSuccess(e: Event) { e == Ended(true) || e.Succeeded? }

  predicate IsFailure(e: Event) { e == Ended(false) || e.Failed? || e.Tripped? }

  function Successes(run: seq<Timed>, lo: nat, hi: nat): nat
    requires lo <= hi <= |run|
  {
    if lo == hi then 0 else Successes(run, lo, hi - 1) + if IsSuccess(run[hi - 1].event) then 1 else 0
  }

  /** HALF_OPEN was entered at step `m`, no failure came since, and the success
      counter tells how many successes did. */
  ghost predicate Probing(c: Config, run: seq<Timed>, m: nat, k: nat)
    requires m < k <= |run|
  {
    && Before(c, run, m).state.Open?
    && (forall i :: m < i <= k ==> Before(c, run, i).state.HalfOpen?)
    && (forall i :: m < i < k ==> !IsFailure(run[i].event))
    && Before(c, run, k).successes == Successes(run, m + 1, k)
    && (Successes(run, m + 1, k) == 0 || Successes(run, m + 1, k) < c.resetSuccessThreshold)
  }

  lemma {:induction false} ProbingSince(c: Config, run: seq<Timed>, k: nat) returns (m: nat)
    requires k <= |run| && Before(c, run, k).state.HalfOpen?
    ensures m < k && Probing(c, run, m, k)
  {
    var j := k - 1;
    var s, e := Before(c, run, j), run[j].event;
    if s.state.HalfOpen? {
      m := ProbingSince(c, run, j);
    } else {
      m := j;
    }
  }

  /** CLOSED is regained only from HALF_OPEN, after exactly the configured number
      of successes (at least one), with no failure since HALF_OPEN was entered
      out of OPEN. */
  lemma ClosingNeedsSuccesses(c: Config, run: seq<Timed>, k: nat) returns (m: nat)
    requires k < |run| && !run[k].event.WasReset?
    requires !Before(c, run, k).state.Closed? && Before(c, run, k + 1).state.Closed?
    ensures m < k && Before(c, run, m).state.Open?
    ensures forall i :: m < i <= k ==> Before(c, run, i).state.HalfOpen? && !IsFailure(run[i].event)
    ensures Successes(run, m + 1, k + 1) == if c.resetSuccessThreshold < 1 then 1 else c.resetSuccessThreshold
  {
    assert Before(c, run, k).state.HalfOpen?;
    m := ProbingSince(c, run, k);
  }

  /** In HALF_OPEN a failure or a trip opens at once, and the success that
      completes the configured number closes; nothing else but a reset leaves it. */
  lemma ProbesDecide(c: Config, run: seq<Timed>, k: nat) returns (m: nat)
    requires k < |run| && Before(c, run, k).state.HalfOpen?
    ensures m < k && Probing(c, run, m, k)
    ensures Before(c, run, k + 1).state
            == if IsFailure(run[k].event) then Open
               else if run[k].event.WasReset? then Closed
               else if IsSuccess(run[k].event) && Successes(run, m + 1, k + 1) >= c.resetSuccessThreshold then Closed
               else HalfOpen
  {
    m := ProbingSince(c, run, k);
  }

  /** An open breaker has been open since its last opening. */
  lemma {:induction false} OpenSinceLast(c: Config, run: seq<Timed>, k: nat)
    requires k <= |run| && Before(c, run, k).state.Open?
    ensures LastOpening(c, run, k).Some?
    ensures Before(c, run, k).openedAt == Some(run[LastOpening(c, run, k).value].at)
  {
    hide Step;
    var s, e := Before(c, run, k - 1), run[k - 1].event;
    if s.state.Open? {
      OpenSinceLast(c, run, k - 1);
    }
    if !e.WasReset? {
      StepEffect(c, s, e, run[k - 1].at);
    } else {
      ResetCloses(c, s, run[k - 1].at);
    }
  }

  lemma ResetCloses(c: Config, s: Stats, now: real)
    ensures Step(c, s, WasReset, now) == INITIAL
  {
  }

  /** In OPEN a question or a call starts probing exactly when the cooldown since
      the opening has passed; nothing else but a reset leaves it. */
  lemma {:induction false} CooldownDecides(c: Config, run: seq<Timed>, k: nat)
    requires k < |run| && Before(c, run, k).state.Open?
    ensures LastOpening(c, run, k).Some?
    ensures var since := run[LastOpening(c, run, k).value].at;
            Before(c, run, k + 1).state
            == if run[k].event.WasReset? then Closed
               else if (run[k].event.Asked? || run[k].event.Began?) && since + c.cooldown <= run[k].at then HalfOpen
               else Open
  {
    OpenSinceLast(c, run, k);
    hide LastOpening;
  }

  // ---------------------------------------------------------------- opening

  predicate IsFault(e: Event) { e == Ended(false) || e.Failed? }

  function Faults(run: seq<Timed>, lo: nat, hi: nat): nat
    requires lo <= hi <= |run|
  {
    if lo == hi then 0 else Faults(run, lo, hi - 1) + if IsFault(run[hi - 1].event) then 1 else 0
  }

  /** From step `m` to step `k` the breaker is CLOSED and nothing succeeds or is
      reset; before step `m` something did, or the breaker was not CLOSED. */
  ghost predicate ClosedSince(c: Config, run: seq<Timed>, m: nat, k: nat)
    requires k <= |run|
  {
    && m <= k
    && (forall i :: m <= i <= k ==> Before(c, run, i).state.Closed?)
    && (forall i :: m <= i < k ==> !IsSuccess(run[i].event) && !run[i].event.WasReset?)
    && (m == 0 || IsSuccess(run[m - 1].event) || run[m - 1].event.WasReset? || !Before(c, run, m - 1).state.Closed?)
  }

  /** While CLOSED the failure count is the number of failures since the last
      success, reset or closing, and short of the threshold. */
  lemma {:induction false} FailuresSince(c: Config, run: seq<Timed>, k: nat) returns (m: nat)
    requires k <= |run| && Before(c, run, k).state.Closed?
    ensures ClosedSince(c, run, m, k)
    ensures Before(c, run, k).failures == Faults(run, m, k)
    ensures Faults(run, m, k) == 0 || Faults(run, m, k) < c.failureThreshold
  {
    m := 0;
    if k > 0 {
      var s, e := Before(c, run, k - 1), run[k - 1].event;
      if s.state.Closed? && !IsSuccess(e) && !e.WasReset? {
        m := FailuresSince(c, run, k - 1);
      } else {
        m := k;
      }
    }
  }

  /** Short of a trip, CLOSED is left exactly on the failure that completes the
      threshold, at least one, with no success or reset among these failures. */
  lemma FailuresOpenIff(c: Config, run: seq<Timed>, k: nat) returns (m: nat)
    requires k < |run| && Before(c, run, k).state.Closed?
    ensures ClosedSince(c, run, m, k)
    ensures !run[k].event.Tripped? ==>
              (!Before(c, run, k + 1).state.Closed?
               <==> IsFault(run[k].event)
                    && Faults(run, m, k + 1) == if c.failureThreshold < 1 then 1 else c.failureThreshold)
    ensures !Before(c, run, k + 1).state.Closed? ==> Opens(c, run, k)
  {
    m := FailuresSince(c, run, k);
  }

  // ------------------------------------------------------------- statistics

  /** The step after the last success, reset or start of probing before step `k`. */
  function CountedFrom(c: Config, run: seq<Timed>, k: nat): (r: nat)
    requires k <= |run|
    ensures r <= k
  {
    if k == 0 || IsSuccess(run[k - 1].event) || run[k - 1].event.WasReset? || StartsProbing(c, run, k - 1) then k
    else CountedFrom(c, run, k - 1)
  }

  predicate StartsProbing(c: Config, run: seq<Timed>, i: nat)
    requires i < |run|
  {
    !Before(c, run, i).state.HalfOpen? && Before(c, run, i + 1).state.HalfOpen?
  }

  /** Openings since the last reset before step `k`. */
  function Openings(c: Config, run: seq<Timed>, k: nat): nat
    requires k <= |run|
  {
    if k == 0 || run[k - 1].event.WasReset? then 0
    else Openings(c, run, k - 1) + if Opens(c, run, k - 1) then 1 else 0
  }

  /** What the statistics of a breaker tell in every state of every run: failures
      since the last success, reset or start of probing, no successes but while
      probing, the time of the last opening unless CLOSED, and the openings since
      the last reset. */
  lemma {:induction false} StatsAre(c: Config, run: seq<Timed>, k: nat)
    requires k <= |run|
    ensures var s := Before(c, run, k);
            && s.failures == Faults(run, CountedFrom(c, run, k), k)
            && (!s.state.HalfOpen? ==> s.successes == 0)
            && (if s.state.Closed? then s.openedAt == None
                else LastOpening(c, run, k).Some? && s.openedAt == Some(run[LastOpening(c, run, k).value].at))
            && s.trips == Openings(c, run, k)
  {
    if k > 0 {
      hide Step;
      StatsAre(c, run, k - 1);
      StepStats(c, Before(c, run, k - 1), run[k - 1].event, run[k - 1].at);
    }
  }

  lemma StepStats(c: Config, s: Stats, e: Event, now: real)
    requires !s.state.HalfOpen? ==> s.successes == 0
    requires s.state.Closed? ==> s.openedAt == None
    ensures var s' := Step(c, s, e, now);
            && s'.failures == (if IsSuccess(e) || e.WasReset? || (!s.state.HalfOpen? && s'.state.HalfOpen?) then 0
                               else s.failures + if IsFault(e) then 1 else 0)
            && (!s'.state.HalfOpen? ==> s'.successes == 0)
            && s'.openedAt == (if s'.state.Closed? then None
                               else if !s.state.Open? && s'.state.Open? then Some(now) else s.openedAt)
            && s'.trips == (if e.WasReset? then 0
                            else s.trips + if !s.state.Open? && s'.state.Open? then 1 else 0)
            && (s.state.Closed? ==> !s'.state.HalfOpen?)
  {
  }

  // --------------------------------------------------------- calls in flight

  /** A call starts in HALF_OPEN. */
  predicate ProbeStarts(c: Config, run: seq<Timed>, i: nat)
    requires i < |run|
  {
    run[i].event.Began? && Before(c, run, i + 1).state.HalfOpen?
  }

  /** A call ends and leaves the breaker in HALF_OPEN. */
  predicate ProbeEnds(c: Config, run: seq<Timed>, i: nat)
    requires i < |run|
  {
    run[i].event.Ended? && Before(c, run, i + 1).state.HalfOpen?
  }

  /** Probes started minus probes ended. */
  function NetProbes(c: Config, run: seq<Timed>, lo: nat, hi: nat): int
    requires lo <= hi <= |run|
  {
    if lo == hi then 0
    else NetProbes(c, run, lo, hi - 1)
         + if ProbeStarts(c, run, hi - 1) then 1 else if ProbeEnds(c, run, hi - 1) then -1 else 0
  }

  predicate NoReset(run: seq<Timed>, lo: nat, hi: nat)
    requires hi <= |run|
  {
    forall i :: lo <= i < hi ==> !run[i].event.WasReset?
  }

  /** The count of calls in flight is never negative, and is what has started
      minus what has ended over the window where that is largest: ends that
      belong to calls from before the window do not count. */
  lemma {:induction false} InflightIs(c: Config, run: seq<Timed>, k: nat) returns (m: nat)
    requires k <= |run|
    ensures m <= k && NoReset(run, m, k) && Before(c, run, k).inflight == NetProbes(c, run, m, k)
    ensures forall j :: 0 <= j <= k && NoReset(run, j, k) ==> NetProbes(c, run, j, k) <= Before(c, run, k).inflight
  {
    m := k;
    if k > 0 {
      hide Step;
      var n := k - 1;
      var s, s' := Before(c, run, n), Before(c, run, k);
      var l := InflightIs(c, run, n);
      InflightStep(c, s, run[n].event, run[n].at);
      assert NoReset(run, n, n) && NetProbes(c, run, n, n) == 0;
      var change := if ProbeStarts(c, run, n) then 1 else if ProbeEnds(c, run, n) then -1 else 0;
      if !run[n].event.WasReset? && s'.inflight == s.inflight + change {
        m := l;
      }
      forall j | 0 <= j <= k && NoReset(run, j, k)
        ensures NetProbes(c, run, j, k) <= s'.inflight
      {
        if j < k {
          assert NoReset(run, j, n) && !run[n].event.WasReset?;
          assert NetProbes(c, run, j, k) == NetProbes(c, run, j, n) + change;
        }
      }
    }
  }

  lemma InflightStep(c: Config, s: Stats, e: Event, now: real)
    ensures var s' := Step(c, s, e, now);
            s'.inflight == if e.WasReset? then 0
                           else if e.Began? && s'.state.HalfOpen? then s.inflight + 1
                           else if e.Ended? && s'.state.HalfOpen? then (if s.inflight >= 1 then s.inflight - 1 else 0)
                           else s.inflight
  {
  }

  // ------------------------------------------------------- the mutable form

  class Breaker {
    const config: Config
    var stats: Stats

    constructor (config: Config)
      ensures this.config == config && stats == INITIAL
    {
      this.config := config;
      stats := INITIAL;
    }

    method AskActive(now: real) returns (active: bool)
      modifies this
      ensures stats == Step(config, old(stats), Asked, now)
      ensures active == IsActive(config, old(stats), now)
    {
      if stats.state != Open {
        return false;
      }
      if CooldownElapsed(config, stats, now) {
        TransitionToHalfOpen();
        return false;
      }
      return true;
    }

    method RecordSuccess()
      modifies this
      ensures stats == Succeed(config, old(stats))
    {
      stats := stats.(failures := 0);
      if stats.state == HalfOpen {
        stats := stats.(successes := stats.successes + 1);
        if stats.successes >= config.resetSuccessThreshold {
          TransitionToClosed();
        }
      }
    }

    method RecordFailure(now: real)
      modifies this
      ensures stats == Fail(config, old(stats), now)
    {
      stats := stats.(failures := stats.failures + 1);
      if stats.state == Closed {
        if stats.failures >= config.failureThreshold {
          TransitionToOpen(now);
        }
      } else if stats.state == HalfOpen {
        TransitionToOpen(now);
      }
    }

    /** The part of `execute` before the call is awaited. */
    method BeginCall(now: real) returns (admitted: bool)
      modifies this
      ensures stats == Step(config, old(stats), Began, now)
      ensures admitted == !IsActive(config, old(stats), now)
    {
      var active := AskActive(now);
      if active {
        return false;
      }
      if stats.state == HalfOpen {
        stats := stats.(inflight := stats.inflight + 1);
      }
      return true;
    }

    /** The part of `execute` after the call has ended. */
    method EndCall(ok: bool, now: real)
      modifies this
      ensures stats == Step(config, old(stats), Ended(ok), now)
    {
      if ok {
        RecordSuccess();
      } else {
        RecordFailure(now);
      }
      if stats.state == HalfOpen {
        stats := stats.(inflight := if stats.inflight - 1 > 0 then stats.inflight - 1 else 0);
      }
    }

    method TransitionToOpen(now: real)
      modifies this
      ensures stats == ToOpen(old(stats), now)
    {
      if stats.state == Open {
        return;
      }
      stats := stats.(state := Open, openedAt := Some(now), trips := stats.trips + 1, successes := 0);
    }

    method TransitionToHalfOpen()
      modifies this
      ensures stats == ToHalfOpen(old(stats))
    {
      stats := stats.(state := HalfOpen, failures := 0, successes := 0);
    }

    method TransitionToClosed()
      modifies this
      ensures stats == ToClosed(old(stats))
    {
      stats := stats.(state := Closed, failures := 0, successes := 0, openedAt := None);
    }

    method Trip(now: real)
      modifies this
      ensures stats == Step(config, old(stats), Tripped, now)
    {
      TransitionToOpen(now);
    }

    method Restart()
      modifies this
      ensures stats == INITIAL
    {
      stats := INITIAL;
    }
  }
}
