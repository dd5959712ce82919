/** Order admission of the live engine: daily limits, the pending-order limit and
    the drawdown breaker, with submissions that overlap at their one await. */
module LiveEngine {
  import opened Optional
  import CB = CircuitBreaker

  datatype Mode = Paper | Live | Warmup | Standby

  datatype Health = Healthy | Degraded | Critical | Offline

  datatype Limits = Limits(maxTrades: int, maxVolume: real, maxPending: int, lossPct: real, breaker: CB.Config)

  datatype Ticket = Ticket(id: string, quantity: real, limitPrice: Option<real>)

  /** The value a submission counts towards the daily volume; a missing or zero
      limit price counts as 1. */
  function Notional(o: Ticket): real {
    o.quantity * if o.limitPrice.None? || o.limitPrice.value == 0.0 then 1.0 else o.limitPrice.value
  }

  datatype Engine = Engine(running: bool, mode: Mode, health: Health, trades: int, volume: real,
                           pending: map<string, Ticket>, breaker: CB.Stats, peak: real, drawdown: real)

  datatype Verdict = Passed | NotRunning | InWarmup | BreakerActive | Unhealthy
                   | TradeLimit | VolumeLimit | PendingLimit | RiskRejected

  /** The checks in their order; the first that fails decides. */
  function Judge(l: Limits, e: Engine, o: Ticket, riskOk: bool, now: real): Verdict {
    if !e.running then NotRunning
    else if e.mode == Warmup then InWarmup
    else if CB.IsActive(l.breaker, e.breaker, now) then BreakerActive
    else if e.health in {Critical, Offline} then Unhealthy
    else if e.trades >= l.maxTrades then TradeLimit
    else if e.volume + Notional(o) > l.maxVolume then VolumeLimit
    else if |e.pending| >= l.maxPending then PendingLimit
    else if e.mode == Live && !riskOk then RiskRejected
    else Passed
  }

  /** Asking the breaker is the only effect of the checks. */
  function AfterJudge(l: Limits, e: Engine, now: real): Engine {
    if e.running && e.mode != Warmup then e.(breaker := CB.Check(l.breaker, e.breaker, now)) else e
  }

  /** How the execution engine answers an awaited submission. */
  datatype Answer = Taken | Declined | Threw

  function Commit(l: Limits, e: Engine, o: Ticket, answer: Answer, now: real): Engine {
    match answer
    case Taken => e.(pending := e.pending[o.id := o], trades := e.trades + 1, volume := e.volume + Notional(o))
    case Declined => e
    case Threw => e.(breaker := CB.Fail(l.breaker, e.breaker, now))
  }

  /** A tick that leaves the portfolio at `value`. */
  function Tick(l: Limits, e: Engine, value: real, now: real): Engine {
    if !e.running then e
    else
      var peak := if value > e.peak then value else e.peak;
      var e' := e.(peak := peak);
      if peak > 0.0 then
        var drawdown := (peak - value) / peak * 100.0;
        var e'' := e'.(drawdown := drawdown);
        if drawdown >= l.lossPct then e''.(breaker := CB.ToOpen(e''.breaker, now)) else e''
      else e'
  }

  function Paused(e: Engine): Engine {
    if e.running && e.mode == Live then e.(mode := Standby) else e
  }

  function Resumed(e: Engine): Engine {
    if e.running && e.mode == Standby then e.(mode := Live) else e
  }

  // ------------------------------------------------------------------- runs

  datatype Event =
    | Admit(order: Ticket, riskOk: bool)
    | Finish(index: nat, answer: Answer)
    | Ticked(value: real)
    | Filled(id: string)
    | Cancelled(id: string)
    | NewDay
    | Switch(running: bool, mode: Mode, health: Health)
    | Pause
    | Resume
    | OnBreaker(event: CB.Event)

  datatype Timed = Timed(event: Event, at: real)

  /** The engine and the submissions that wait for their answer. */
  datatype World = World(engine: Engine, waiting: seq<Ticket>)

  const START := World(Engine(false, Paper, Offline, 0, 0.0, map[], CB.INITIAL, 0.0, 0.0), [])

  function Step(l: Limits, w: World, e: Event, now: real): World {
    match e
    case Admit(o, riskOk) =>
      World(AfterJudge(l, w.engine, now),
            if Judge(l, w.engine, o, riskOk, now).Passed? then w.waiting + [o] else w.waiting)
    case Finish(i, answer) =>
      if i < |w.waiting| then
        World(Commit(l, w.engine, w.waiting[i], answer, now), w.waiting[..i] + w.waiting[i + 1..])
      else w
    case Ticked(value) => w.(engine := Tick(l, w.engine, value, now))
    case Filled(id) => w.(engine := w.engine.(pending := w.engine.pending - {id}))
    case Cancelled(id) => w.(engine := w.engine.(pending := w.engine.pending - {id}))
    case NewDay => w.(engine := w.engine.(trades := 0, volume := 0.0))
    case Switch(running, mode, health) => w.(engine := w.engine.(running := running, mode := mode, health := health))
    case Pause => w.(engine := Paused(w.engine))
    case Resume => w.(engine := Resumed(w.engine))
    case OnBreaker(b) => w.(engine := w.engine.(breaker := CB.Step(l.breaker, w.engine.breaker, b, now)))
  }

  function Before(l: Limits, run: seq<Timed>, k: nat): World
    requires k <= |run|
  {
    if k == 0 then START else Step(l, Before(l, run, k - 1), run[k - 1].event, run[k - 1].at)
  }

  // ----------------------------------------------------------------- limits

  /** At most `c` submissions ever wait at the same time; with `c == 1` every
      submission is atomic. */
  predicate Overlap(l: Limits, run: seq<Timed>, c: int) {
    forall k :: 0 <= k <= |run| ==> |Before(l, run, k).waiting| <= c
  }

  predicate NonNegative(run: seq<Timed>) {
    forall k :: 0 <= k < |run| && run[k].event.Admit? ==> Notional(run[k].event.order) >= 0.0
  }

  function NotionalSum(s: seq<Ticket>): real {
    if |s| == 0 then 0.0 else NotionalSum(s[..|s| - 1]) + Notional(s[|s| - 1])
  }

  function AtLeastZero(n: int): int { if n < 0 then 0 else n }

  /** Accepted and waiting submissions together. */
  ghost predicate WithinLimits(l: Limits, w: World, c: int) {
    && w.engine.trades + |w.waiting| <= AtLeastZero(l.maxTrades) + c - 1
    && |w.engine.pending| + |w.waiting| <= AtLeastZero(l.maxPending) + c - 1
  }

  lemma PendingGrows(pending: map<string, Ticket>, o: Ticket)
    ensures |pending[o.id := o]| <= |pending| + 1
  {
    var keys := pending.Keys;
    assert pending[o.id := o].Keys == keys + {o.id};
    assert |pending[o.id := o]| == |keys + {o.id}| <= |keys| + 1;
  }

  lemma PendingShrinks(pending: map<string, Ticket>, id: string)
    ensures |pending - {id}| <= |pending|
  {
    var keys := pending.Keys;
    assert (pending - {id}).Keys == keys - {id};
    assert |pending - {id}| == |keys - {id}|;
    assert |keys - {id}| <= |keys|;
  }

  /** Every other event leaves the waiting submissions alone and raises no count. */
  lemma OtherEventCounts(l: Limits, w: World, e: Event, now: real)
    requires !e.Admit? && !e.Finish? && 0 <= w.engine.trades
    ensures var w' := Step(l, w, e, now);
            && w'.waiting == w.waiting && 0 <= w'.engine.trades <= w.engine.trades
            && |w'.engine.pending| <= |w.engine.pending|
  {
    hide CB.Step, CB.ToOpen;
    match e {
      case Filled(id) => PendingShrinks(w.engine.pending, id);
      case Cancelled(id) => PendingShrinks(w.engine.pending, id);
      case _ =>
    }
  }

  lemma AdmitCounts(l: Limits, w: World, o: Ticket, riskOk: bool, now: real)
    ensures var w' := Step(l, w, Admit(o, riskOk), now);
            && w'.engine.trades == w.engine.trades && w'.engine.pending == w.engine.pending
            && (w'.waiting == w.waiting
                || (|w'.waiting| == |w.waiting| + 1 && w.engine.trades < l.maxTrades && |w.engine.pending| < l.maxPending))
  {
    hide CB.Check, CB.IsActive, Notional;
  }

  lemma FinishCounts(l: Limits, w: World, i: nat, answer: Answer, now: real)
    ensures var w' := Step(l, w, Finish(i, answer), now);
            if i < |w.waiting|
            then && |w'.waiting| == |w.waiting| - 1 && w.engine.trades <= w'.engine.trades <= w.engine.trades + 1
                 && |w'.engine.pending| <= |w.engine.pending| + 1
            else w' == w
  {
    hide CB.Fail, Notional;
    if i < |w.waiting| {
      PendingGrows(w.engine.pending, w.waiting[i]);
    }
  }

  lemma StepWithinLimits(l: Limits, w: World, e: Event, now: real, c: int)
    requires WithinLimits(l, w, c) && c >= 1
    requires |Step(l, w, e, now).waiting| <= c
    requires 0 <= w.engine.trades
    ensures WithinLimits(l, Step(l, w, e, now), c)
    ensures 0 <= Step(l, w, e, now).engine.trades
  {
    hide Step;
    match e {
      case Admit(o, riskOk) => AdmitCounts(l, w, o, riskOk, now);
      case Finish(i, answer) => FinishCounts(l, w, i, answer, now);
      case _ => OtherEventCounts(l, w, e, now);
    }
  }

  /** Over every run in which at most `c` submissions overlap, the trade count
      and the number of pending orders exceed their limits by at most `c - 1`:
      not at all when submissions are atomic. */
  lemma {:induction false} CountsBounded(l: Limits, run: seq<Timed>, k: nat, c: int)
    requires k <= |run| && c >= 1 && Overlap(l, run, c)
    ensures WithinLimits(l, Before(l, run, k), c) && 0 <= Before(l, run, k).engine.trades
    ensures Before(l, run, k).engine.trades <= AtLeastZero(l.maxTrades) + c - 1
    ensures |Before(l, run, k).engine.pending| <= AtLeastZero(l.maxPending) + c - 1
  {
    hide Step;
    if k > 0 {
      CountsBounded(l, run, k - 1, c);
      StepWithinLimits(l, Before(l, run, k - 1), run[k - 1].event, run[k - 1].at, c);
    }
  }

  /** Accepted and waiting volume, each waiting submission within the limit. */
  ghost predicate VolumeWithin(l: Limits, w: World, c: int) {
    && w.engine.volume >= 0.0
    && (forall i :: 0 <= i < |w.waiting| ==> 0.0 <= Notional(w.waiting[i]) <= l.maxVolume)
    && w.engine.volume + NotionalSum(w.waiting) <= c as real * l.maxVolume
  }

  lemma {:induction false} SumBounds(s: seq<Ticket>, m: real)
    requires forall i :: 0 <= i < |s| ==> 0.0 <= Notional(s[i]) <= m
    ensures 0.0 <= NotionalSum(s) <= |s| as real * m
  {
    hide Notional;
    if |s| > 0 {
      SumBounds(s[..|s| - 1], m);
      assert |s| as real * m == (|s| - 1) as real * m + m;
    }
  }

  lemma {:induction false} SumWithout(s: seq<Ticket>, i: nat)
    requires i < |s|
    ensures NotionalSum(s[..i] + s[i + 1..]) == NotionalSum(s) - Notional(s[i])
  {
    hide Notional;
    var r, n := s[..i] + s[i + 1..], |s| - 1;
    if i == n {
      assert r == s[..n];
    } else {
      SumWithout(s[..n], i);
      assert r[..|r| - 1] == s[..n][..i] + s[..n][i + 1..];
    }
  }

  lemma Scale(n: int, c: int, m: real)
    requires n <= c && m >= 0.0
    ensures n as real * m <= c as real * m
  {
    assert c as real * m - n as real * m == (c - n) as real * m;
  }

  /** A waiting list of `n` submissions, one of which has just been let in. */
  lemma {:induction false} AdmitVolume(volume: real, waiting: seq<Ticket>, o: Ticket, m: real, c: int)
    requires volume >= 0.0 && volume + Notional(o) <= m && Notional(o) >= 0.0
    requires forall i :: 0 <= i < |waiting| ==> 0.0 <= Notional(waiting[i]) <= m
    requires |waiting| + 1 <= c
    ensures volume + NotionalSum(waiting + [o]) <= c as real * m
  {
    SumOneMore(waiting, o);
    hide Notional, NotionalSum;
    SumBounds(waiting, m);
    VolumeWithRoom(volume, NotionalSum(waiting), Notional(o), m, |waiting|, c);
  }

  lemma {:induction false} SumOneMore(s: seq<Ticket>, o: Ticket)
    ensures NotionalSum(s + [o]) == NotionalSum(s) + Notional(o)
  {
    assert (s + [o])[..|s|] == s;
  }

  lemma VolumeWithRoom(volume: real, rest: real, v: real, m: real, n: int, c: int)
    requires volume + v <= m && rest <= n as real * m && n + 1 <= c && m >= 0.0
    ensures volume + (rest + v) <= c as real * m
  {
    OneMore(n, m);
    Scale(n + 1, c, m);
  }

  lemma OneMore(n: int, m: real)
    ensures (n + 1) as real * m == n as real * m + m
  {
    assert (n + 1) as real == n as real + 1.0;
  }

  lemma StepVolume(l: Limits, w: World, e: Event, now: real, c: int)
    requires VolumeWithin(l, w, c) && c >= 1 && l.maxVolume >= 0.0
    requires e.Admit? ==> Notional(e.order) >= 0.0
    requires |Step(l, w, e, now).waiting| <= c
    ensures VolumeWithin(l, Step(l, w, e, now), c)
  {
    hide CB.IsActive, CB.Check, CB.Fail, CB.ToOpen, CB.Step, Notional, NotionalSum;
    match e {
      case Admit(o, riskOk) =>
        if Judge(l, w.engine, o, riskOk, now).Passed? {
          AdmitVolume(w.engine.volume, w.waiting, o, l.maxVolume, c);
        }
      case Finish(i, answer) =>
        if i < |w.waiting| {
          SumWithout(w.waiting, i);
        }
      case NewDay =>
      case _ =>
    }
  }

  /** The daily volume stays within `c` times its limit when at most `c`
      submissions overlap: within the limit when submissions are atomic. */
  lemma {:induction false} VolumeBounded(l: Limits, run: seq<Timed>, k: nat, c: int)
    requires k <= |run| && c >= 1 && l.maxVolume >= 0.0
    requires Overlap(l, run, c) && NonNegative(run)
    ensures VolumeWithin(l, Before(l, run, k), c)
    ensures 0.0 <= Before(l, run, k).engine.volume <= c as real * l.maxVolume
  {
    hide Notional, Step, VolumeWithin;
    if k > 0 {
      VolumeBounded(l, run, k - 1, c);
      assert run[k - 1].event.Admit? ==> Notional(run[k - 1].event.order) >= 0.0;
      assert |Before(l, run, k).waiting| <= c;
      StepVolume(l, Before(l, run, k - 1), run[k - 1].event, run[k - 1].at, c);
    } else {
      StartWithin(l, c);
    }
    WithinMeans(l, Before(l, run, k), c);
  }

  lemma StartWithin(l: Limits, c: int)
    requires c >= 1 && l.maxVolume >= 0.0
    ensures VolumeWithin(l, START, c)
  {
    Scale(0, c, l.maxVolume);
  }

  lemma WithinMeans(l: Limits, w: World, c: int)
    requires VolumeWithin(l, w, c)
    ensures 0.0 <= w.engine.volume <= c as real * l.maxVolume
  {
    hide Notional;
    SumBounds(w.waiting, l.maxVolume);
  }

  // ----------------------------------------------------- the bound is reached

  const FREE := Ticket("", 0.0, None)

  /** The world at the end of a run. */
  function After(l: Limits, run: seq<Timed>): World { Before(l, run, |run|) }

  lemma {:induction false} PrefixBefore(l: Limits, run: seq<Timed>, t: Timed, k: nat)
    requires k <= |run|
    ensures Before(l, run + [t], k) == Before(l, run, k)
  {
    hide Step;
    if k > 0 {
      PrefixBefore(l, run, t, k - 1);
      assert (run + [t])[k - 1] == run[k - 1];
    }
  }

  lemma {:induction false} OneMoreStep(l: Limits, run: seq<Timed>, e: Event, c: int)
    ensures var longer := run + [Timed(e, 0.0)];
            && After(l, longer) == Step(l, After(l, run), e, 0.0)
            && (Overlap(l, run, c) && |After(l, longer).waiting| <= c ==> Overlap(l, longer, c))
  {
    hide Step;
    var t := Timed(e, 0.0);
    forall k | 0 <= k <= |run|
      ensures Before(l, run + [t], k) == Before(l, run, k)
    {
      PrefixBefore(l, run, t, k);
    }
  }

  /** A running engine, and then `m` submissions one after the other, each
      answered and filled before the next. */
  function OneByOne(m: nat): seq<Timed> {
    if m == 0 then [Timed(Switch(true, Paper, Healthy), 0.0)]
    else OneByOne(m - 1) + [Timed(Admit(FREE, true), 0.0)] + [Timed(Finish(0, Taken), 0.0)] + [Timed(Filled(""), 0.0)]
  }

  /** Then `n` submissions that are let in together. */
  function Together(m: nat, n: nat): seq<Timed> {
    if n == 0 then OneByOne(m) else Together(m, n - 1) + [Timed(Admit(FREE, true), 0.0)]
  }

  /** And the answers to the first `n` of `c` such submissions. */
  function Answers(m: nat, c: nat, n: nat): seq<Timed> {
    if n == 0 then Together(m, c) else Answers(m, c, n - 1) + [Timed(Finish(0, Taken), 0.0)]
  }

  predicate Roomy(l: Limits, m: nat) {
    m < l.maxTrades && l.maxVolume >= 0.0 && l.maxPending >= 1
  }

  function Traded(m: nat): Engine { START.engine.(running := true, health := Healthy, trades := m) }

  /** A submission of no value is let in while nothing is pending. */
  lemma {:induction false} FreeAdmitted(l: Limits, m: nat, n: nat)
    requires Roomy(l, m)
    ensures Step(l, World(Traded(m), seq(n, i => FREE)), Admit(FREE, true), 0.0) == World(Traded(m), seq(n + 1, i => FREE))
  {
    assert Notional(FREE) == 0.0;
    assert seq(n, i => FREE) + [FREE] == seq(n + 1, i => FREE);
  }

  /** The first waiting submission is taken. */
  lemma {:induction false} FirstTaken(l: Limits, w: World, n: nat)
    requires w.waiting == seq(n + 1, i => FREE)
    ensures var w' := Step(l, w, Finish(0, Taken), 0.0);
            && w'.waiting == seq(n, i => FREE)
            && w'.engine == w.engine.(trades := w.engine.trades + 1, pending := w.engine.pending["" := FREE],
                                      volume := w.engine.volume + Notional(FREE))
  {
    assert w.waiting[..0] + w.waiting[1..] == seq(n, i => FREE);
  }

  lemma {:induction false} OneByOneIs(l: Limits, m: nat, c: int)
    requires c >= 1 && (m == 0 || Roomy(l, m - 1))
    ensures After(l, OneByOne(m)) == World(Traded(m), []) && Overlap(l, OneByOne(m), c)
  {
    if m == 0 {
      SwitchedOn(l, c);
    } else {
      OneByOneIs(l, m - 1, c);
      ThreeMoreSteps(l, OneByOne(m - 1), m - 1, c);
    }
  }

  lemma {:induction false} ThreeMoreSteps(l: Limits, r0: seq<Timed>, m: nat, c: int)
    requires c >= 1 && Roomy(l, m) && After(l, r0) == World(Traded(m), []) && Overlap(l, r0, c)
    ensures var r3 := r0 + [Timed(Admit(FREE, true), 0.0)] + [Timed(Finish(0, Taken), 0.0)] + [Timed(Filled(""), 0.0)];
            After(l, r3) == World(Traded(m + 1), []) && Overlap(l, r3, c)
  {
    hide Step, After, Overlap, Traded, Roomy;
    OneRound(l, m);
    var r1 := r0 + [Timed(Admit(FREE, true), 0.0)];
    OneMoreStep(l, r0, Admit(FREE, true), c);
    assert Overlap(l, r1, c);
    var r2 := r1 + [Timed(Finish(0, Taken), 0.0)];
    OneMoreStep(l, r1, Finish(0, Taken), c);
    assert Overlap(l, r2, c);
    OneMoreStep(l, r2, Filled(""), c);
  }

  lemma {:induction false} SwitchedOn(l: Limits, c: int)
    requires c >= 1
    ensures After(l, OneByOne(0)) == World(Traded(0), []) && Overlap(l, OneByOne(0), c)
  {
    var run := OneByOne(0);
    assert Before(l, run, 0) == START && Before(l, run, 1) == World(Traded(0), []);
    hide Before;
  }

  lemma {:induction false} OneRound(l: Limits, m: nat)
    requires Roomy(l, m)
    ensures var w1 := Step(l, World(Traded(m), []), Admit(FREE, true), 0.0);
            var w2 := Step(l, w1, Finish(0, Taken), 0.0);
            |w1.waiting| == 1 && |w2.waiting| == 0 && Step(l, w2, Filled(""), 0.0) == World(Traded(m + 1), [])
  {
    assert seq(0, i => FREE) == [];
    FreeAdmitted(l, m, 0);
    var w1 := World(Traded(m), seq(1, i => FREE));
    FirstTaken(l, w1, 0);
    assert Notional(FREE) == 0.0;
    assert map["" := FREE] - {""} == map[];
  }

  lemma {:induction false} TogetherIs(l: Limits, m: nat, c: nat, n: nat)
    requires Roomy(l, m) && n <= c && c >= 1
    ensures After(l, Together(m, n)) == World(Traded(m), seq(n, i => FREE)) && Overlap(l, Together(m, n), c)
  {
    hide Step, Before, Overlap;
    if n == 0 {
      OneByOneIs(l, m, c);
      assert seq(0, i => FREE) == [];
    } else {
      TogetherIs(l, m, c, n - 1);
      OneMoreStep(l, Together(m, n - 1), Admit(FREE, true), c);
      FreeAdmitted(l, m, n - 1);
    }
  }

  lemma {:induction false} AnswersAre(l: Limits, m: nat, c: nat, n: nat)
    requires Roomy(l, m) && n <= c && c >= 1
    ensures var w := After(l, Answers(m, c, n));
            w.engine.trades == m + n && w.waiting == seq(c - n, i => FREE) && Overlap(l, Answers(m, c, n), c)
  {
    hide Step, Before, Overlap;
    if n == 0 {
      TogetherIs(l, m, c, c);
    } else {
      AnswersAre(l, m, c, n - 1);
      OneMoreStep(l, Answers(m, c, n - 1), Finish(0, Taken), c);
      FirstTaken(l, After(l, Answers(m, c, n - 1)), c - n);
    }
  }

  /** Whatever the trade limit, `c` overlapping submissions on the last trade of
      the day make `c` trades: the bound of `CountsBounded` is tight for every
      limit and every `c`. */
  lemma {:induction false} OverlapReachesBound(l: Limits, c: nat)
    requires l.maxTrades >= 1 && l.maxVolume >= 0.0 && l.maxPending >= 1 && c >= 1
    ensures var run := Answers(l.maxTrades - 1, c, c);
            Overlap(l, run, c) && After(l, run).engine.trades == AtLeastZero(l.maxTrades) + c - 1
  {
    AnswersAre(l, l.maxTrades - 1, c, c);
  }

  // ------------------------------------------------- what the counters count

  /** Step `i` answers a waiting submission, and the answer is that it is taken. */
  predicate Takes(l: Limits, run: seq<Timed>, i: nat)
    requires i < |run|
  {
    run[i].event.Finish? && run[i].event.answer.Taken? && run[i].event.index < |Before(l, run, i).waiting|
  }

  function TakenOrder(l: Limits, run: seq<Timed>, i: nat): Ticket
    requires i < |run| && Takes(l, run, i)
  {
    Before(l, run, i).waiting[run[i].event.index]
  }

  /** The submissions that are accepted from step `i` to before step `k`. */
  function Accepted(l: Limits, run: seq<Timed>, i: nat, k: nat): nat
    requires i <= k <= |run|
  {
    if i == k then 0 else Accepted(l, run, i, k - 1) + if Takes(l, run, k - 1) then 1 else 0
  }

  /** Quantity times limit price; just the quantity without a limit price or with
      one of zero. */
  ghost predicate IsValue(o: Ticket, value: real) {
    match o.limitPrice
    case None => value == o.quantity
    case Some(price) => value == if price != 0.0 then price * o.quantity else o.quantity
  }

  /** `sums` runs over the values of what is accepted from step `i` on. */
  ghost predicate SumsAccepted(l: Limits, run: seq<Timed>, i: nat, k: nat, sums: seq<real>)
    requires i <= k <= |run|
  {
    && |sums| == k - i + 1 && sums[0] == 0.0
    && forall j :: i <= j < k ==>
         if Takes(l, run, j) then IsValue(TakenOrder(l, run, j), sums[j - i + 1] - sums[j - i])
         else sums[j - i + 1] == sums[j - i]
  }

  /** The step after the last change of day before step `k`, or the first step. */
  function DayStart(run: seq<Timed>, k: nat): (r: nat)
    requires k <= |run|
    ensures r <= k
  {
    if k == 0 || run[k - 1].event.NewDay? then k else DayStart(run, k - 1)
  }

  lemma CounterStep(l: Limits, w: World, e: Event, now: real)
    ensures var w' := Step(l, w, e, now);
            if e.NewDay? then w'.engine.trades == 0 && w'.engine.volume == 0.0
            else if e.Finish? && e.answer.Taken? && e.index < |w.waiting|
            then w'.engine.trades == w.engine.trades + 1 && IsValue(w.waiting[e.index], w'.engine.volume - w.engine.volume)
            else w'.engine.trades == w.engine.trades && w'.engine.volume == w.engine.volume
  {
    hide CB.Step, CB.Check, CB.Fail, CB.ToOpen, CB.IsActive;
  }

  /** In every run the daily count and the daily volume are the number and the
      value of the submissions accepted since the last change of day: what was
      refused, what failed and what still waits is in neither. */
  lemma {:induction false} CountersCountAccepted(l: Limits, run: seq<Timed>, k: nat) returns (sums: seq<real>)
    requires k <= |run|
    ensures var e, i := Before(l, run, k).engine, DayStart(run, k);
            && e.trades == Accepted(l, run, i, k)
            && SumsAccepted(l, run, i, k, sums) && e.volume == sums[k - i]
  {
    hide Step, IsValue;
    sums := [0.0];
    if k > 0 {
      sums := CountersCountAccepted(l, run, k - 1);
      var e := Before(l, run, k).engine;
      CounterStep(l, Before(l, run, k - 1), run[k - 1].event, run[k - 1].at);
      if run[k - 1].event.NewDay? {
        sums := [0.0];
      } else {
        sums := sums + [e.volume];
      }
    }
  }

  /** Such sums are determined by the run. */
  lemma {:induction false} SumsUnique(l: Limits, run: seq<Timed>, i: nat, k: nat, a: seq<real>, b: seq<real>)
    requires i <= k <= |run| && SumsAccepted(l, run, i, k, a) && SumsAccepted(l, run, i, k, b)
    ensures a == b
  {
    if i < k {
      hide Takes, IsValue;
      SumsUnique(l, run, i, k - 1, a[..k - i], b[..k - i]);
      assert a == a[..k - i] + [a[k - i]] && b == b[..k - i] + [b[k - i]];
      SameValue(l, run, k - 1, a[k - i] - a[k - i - 1], b[k - i] - b[k - i - 1]);
    }
  }

  lemma SameValue(l: Limits, run: seq<Timed>, j: nat, x: real, y: real)
    requires j < |run|
    ensures Takes(l, run, j) && IsValue(TakenOrder(l, run, j), x) && IsValue(TakenOrder(l, run, j), y) ==> x == y
  {
  }

  /** Step `j` is a fill or a confirmed cancellation of an order. */
  predicate Settles(run: seq<Timed>, j: nat, id: string)
    requires j < |run|
  {
    run[j].event == Filled(id) || run[j].event == Cancelled(id)
  }

  /** Step `j` accepts an order under an id. */
  predicate TakesId(l: Limits, run: seq<Timed>, j: nat, id: string)
    requires j < |run|
  {
    Takes(l, run, j) && TakenOrder(l, run, j).id == id
  }

  /** The step that last accepted an order under an id, unless it is settled since. */
  function OpenedAt(l: Limits, run: seq<Timed>, k: nat, id: string): (r: Option<nat>)
    requires k <= |run|
    ensures r.Some? ==> r.value < k && TakesId(l, run, r.value, id)
    ensures r.Some? ==> forall j :: r.value < j < k ==> !Settles(run, j, id) && !TakesId(l, run, j, id)
  {
    if k == 0 || Settles(run, k - 1, id) then None
    else if TakesId(l, run, k - 1, id) then Some(k - 1)
    else OpenedAt(l, run, k - 1, id)
  }

  /** Without such a step, whatever was accepted under the id has been settled. */
  lemma {:induction false} NotOpened(l: Limits, run: seq<Timed>, k: nat, id: string, i: nat)
    requires i < k <= |run| && OpenedAt(l, run, k, id).None? && TakesId(l, run, i, id)
    ensures exists j :: i < j < k && Settles(run, j, id)
  {
    if !Settles(run, k - 1, id) {
      NotOpened(l, run, k - 1, id, i);
    } else {
      assert i != k - 1;
    }
  }

  lemma PendingStep(l: Limits, w: World, e: Event, now: real, id: string)
    ensures var p, p' := w.engine.pending, Step(l, w, e, now).engine.pending;
            if e == Filled(id) || e == Cancelled(id) then id !in p'
            else if e.Finish? && e.answer.Taken? && e.index < |w.waiting| && w.waiting[e.index].id == id
            then id in p' && p'[id] == w.waiting[e.index]
            else (id in p' <==> id in p) && (id in p ==> p'[id] == p[id])
  {
    hide CB.Step, CB.Check, CB.Fail, CB.ToOpen, CB.IsActive, Notional;
  }

  /** In every run the pending orders are those accepted and not settled since. */
  lemma {:induction false} PendingIff(l: Limits, run: seq<Timed>, k: nat, id: string)
    requires k <= |run|
    ensures var p, i := Before(l, run, k).engine.pending, OpenedAt(l, run, k, id);
            && (id in p <==> i.Some?)
            && (i.Some? ==> p[id] == TakenOrder(l, run, i.value))
  {
    if k > 0 {
      var j := k - 1;
      PendingIff(l, run, j, id);
      PendingStep(l, Before(l, run, j), run[j].event, run[j].at, id);
      hide Step;
    }
  }

  /** Over every run, an order passes exactly when the engine runs, is past its
      warmup and not down, the breaker is not inside a cooldown, what was accepted
      since the change of day leaves room for one more order and for its value,
      there is room among the pending orders, and the risk check of a live engine
      is satisfied. */
  lemma {:induction false} PassesIff(l: Limits, run: seq<Timed>, j: nat, sums: seq<real>, value: real)
    requires j < |run| && run[j].event.Admit? && IsValue(run[j].event.order, value)
    requires SumsAccepted(l, run, DayStart(run, j), j, sums)
    ensures var e, day := Before(l, run, j).engine, DayStart(run, j);
            && e.trades == Accepted(l, run, day, j) && e.volume == sums[j - day]
            && (Passes(l, run, j)
                <==> && e.running && e.mode in {Paper, Live, Standby} && e.health in {Healthy, Degraded}
                     && !(e.breaker.state.Open? && e.breaker.openedAt.Some?
                          && run[j].at < e.breaker.openedAt.value + l.breaker.cooldown)
                     && Accepted(l, run, day, j) + 1 <= l.maxTrades
                     && sums[j - day] + value <= l.maxVolume
                     && |e.pending| + 1 <= l.maxPending
                     && (e.mode == Live ==> run[j].event.riskOk))
  {
    var own := CountersCountAccepted(l, run, j);
    SumsUnique(l, run, DayStart(run, j), j, sums, own);
    JudgeIff(l, Before(l, run, j).engine, run[j].event.order, run[j].event.riskOk, run[j].at, value);
    hide Before, IsValue, SumsAccepted, Accepted, DayStart, Judge;
  }

  lemma JudgeIff(l: Limits, e: Engine, o: Ticket, riskOk: bool, now: real, value: real)
    requires IsValue(o, value)
    ensures Judge(l, e, o, riskOk, now).Passed?
            <==> && e.running && e.mode in {Paper, Live, Standby} && e.health in {Healthy, Degraded}
                 && !(e.breaker.state.Open? && e.breaker.openedAt.Some?
                      && now < e.breaker.openedAt.value + l.breaker.cooldown)
                 && e.trades + 1 <= l.maxTrades && e.volume + value <= l.maxVolume && |e.pending| + 1 <= l.maxPending
                 && (e.mode == Live ==> riskOk)
  {
    NotionalIs(o, value);
    hide IsValue, Notional;
    assert e.health.Healthy? || e.health.Degraded? || e.health.Critical? || e.health.Offline?;
    assert e.mode.Paper? || e.mode.Live? || e.mode.Warmup? || e.mode.Standby?;
    assert CB.IsActive(l.breaker, e.breaker, now)
        <==> e.breaker.state.Open? && e.breaker.openedAt.Some? && now < e.breaker.openedAt.value + l.breaker.cooldown;
  }

  lemma NotionalIs(o: Ticket, value: real)
    requires IsValue(o, value)
    ensures Notional(o) == value
  {
  }

  /** The reasons for which an order can be refused, each on its own. */
  predicate Objects(l: Limits, e: Engine, o: Ticket, riskOk: bool, now: real, v: Verdict) {
    match v
    case NotRunning => !e.running
    case InWarmup => e.mode == Warmup
    case BreakerActive => CB.IsActive(l.breaker, e.breaker, now)
    case Unhealthy => e.health == Critical || e.health == Offline
    case TradeLimit => l.maxTrades <= e.trades
    case VolumeLimit => l.maxVolume < e.volume + Notional(o)
    case PendingLimit => l.maxPending <= |e.pending|
    case RiskRejected => e.mode == Live && !riskOk
    case Passed => false
  }

  const REASONS := [NotRunning, InWarmup, BreakerActive, Unhealthy, TradeLimit, VolumeLimit, PendingLimit, RiskRejected]

  /** An order is refused for the first reason of the list that applies. */
  lemma FirstReasonDecides(l: Limits, e: Engine, o: Ticket, riskOk: bool, now: real)
    ensures var v := Judge(l, e, o, riskOk, now);
            if v.Passed? then forall i :: 0 <= i < |REASONS| ==> !Objects(l, e, o, riskOk, now, REASONS[i])
            else exists i :: && 0 <= i < |REASONS| && v == REASONS[i] && Objects(l, e, o, riskOk, now, v)
                             && forall k :: 0 <= k < i ==> !Objects(l, e, o, riskOk, now, REASONS[k])
  {
    hide CB.IsActive, Notional;
    var v := Judge(l, e, o, riskOk, now);
    if !v.Passed? {
      var i := match v case NotRunning => 0 case InWarmup => 1 case BreakerActive => 2 case Unhealthy => 3
                       case TradeLimit => 4 case VolumeLimit => 5 case PendingLimit => 6 case _ => 7;
      assert v == REASONS[i] && Objects(l, e, o, riskOk, now, v);
    }
  }

  // ---------------------------------------------------------- drawdown gate

  /** What an event means for the breaker in a given state. */
  function BreakerEvent(l: Limits, w: World, e: Event): CB.Event {
    match e
    case Admit(_, _) => if w.engine.running && w.engine.mode != Warmup then CB.Asked else CB.Idle
    case Finish(i, answer) => if i < |w.waiting| && answer.Threw? then CB.Failed else CB.Idle
    case Ticked(value) => if Trips(l, w.engine, value) then CB.Tripped else CB.Idle
    case OnBreaker(b) => b
    case _ => CB.Idle
  }

  /** A tick whose drawdown from the running peak reaches the loss limit. */
  predicate Trips(l: Limits, e: Engine, value: real) {
    var peak := if value > e.peak then value else e.peak;
    e.running && peak > 0.0 && (peak - value) / peak * 100.0 >= l.lossPct
  }

  /** A tick while running records how far the value is below the peak, as a share
      of the peak, and opens the breaker exactly when that loss is at least the
      limit's share; without a positive peak, or while stopped, it does neither. */
  lemma TickIs(l: Limits, e: Engine, value: real, now: real)
    ensures var e', b := Tick(l, e, value, now), e.breaker;
            && e' == e.(peak := e'.peak, drawdown := e'.drawdown, breaker := e'.breaker)
            && (e.running ==> e'.peak >= value && e'.peak >= e.peak && e'.peak in {value, e.peak})
            && (!e.running ==> e' == e)
            && (if e.running && e'.peak > 0.0
                then && e'.drawdown * e'.peak == 100.0 * (e'.peak - value)
                     && e'.breaker == (if 100.0 * value <= (100.0 - l.lossPct) * e'.peak && !b.state.Open?
                                       then b.(state := CB.Open, openedAt := Some(now), trips := b.trips + 1, successes := 0)
                                       else b)
                else e'.drawdown == e.drawdown && e'.breaker == b)
  {
    var e' := Tick(l, e, value, now);
    if e.running && e'.peak > 0.0 {
      LossShare(e'.peak, value, l.lossPct);
    }
  }

  lemma LossShare(peak: real, value: real, pct: real)
    requires peak > 0.0
    ensures (peak - value) / peak * 100.0 * peak == 100.0 * (peak - value)
    ensures (peak - value) / peak * 100.0 >= pct <==> 100.0 * value <= (100.0 - pct) * peak
  {
    var x := (peak - value) / peak;
    assert x * peak == peak - value;
    assert x * 100.0 * peak == 100.0 * (x * peak);
    assert (x * 100.0 - pct) * peak == 100.0 * (peak - value) - pct * peak;
    assert (100.0 - pct) * peak == 100.0 * peak - pct * peak;
  }

  function BreakerRun(l: Limits, run: seq<Timed>): seq<CB.Timed> {
    seq(|run|, k requires 0 <= k < |run| => CB.Timed(BreakerEvent(l, Before(l, run, k), run[k].event), run[k].at))
  }

  lemma OneBreakerStep(l: Limits, w: World, e: Event, now: real)
    ensures Step(l, w, e, now).engine.breaker
            == CB.Step(l.breaker, w.engine.breaker, BreakerEvent(l, w, e), now)
  {
  }

  lemma {:induction false} BreakerFollows(l: Limits, run: seq<Timed>, k: nat)
    requires k <= |run|
    ensures Before(l, run, k).engine.breaker == CB.Before(l.breaker, BreakerRun(l, run), k)
  {
    hide Step, BreakerEvent, CB.Step;
    if k > 0 {
      BreakerFollows(l, run, k - 1);
      OneBreakerStep(l, Before(l, run, k - 1), run[k - 1].event, run[k - 1].at);
    }
  }

  predicate ClockMonotone(run: seq<Timed>) {
    forall i, j :: 0 <= i <= j < |run| ==> run[i].at <= run[j].at
  }

  /** Nobody resets the breaker by hand strictly between two steps. */
  predicate NoResetBetween(run: seq<Timed>, i: nat, j: nat)
    requires j <= |run|
  {
    forall k :: i < k < j ==> run[k].event != OnBreaker(CB.WasReset)
  }

  /** The order of step `j` passes every check. */
  predicate Passes(l: Limits, run: seq<Timed>, j: nat)
    requires j < |run|
  {
    var w := Before(l, run, j);
    run[j].event.Admit? && Judge(l, w.engine, run[j].event.order, run[j].event.riskOk, run[j].at).Passed?
  }

  /** Step `i` is a tick whose drawdown opens the breaker. */
  predicate Halts(l: Limits, run: seq<Timed>, i: nat)
    requires i < |run|
  {
    && run[i].event.Ticked? && Trips(l, Before(l, run, i).engine, run[i].event.value)
    && !Before(l, run, i).engine.breaker.state.Open?
  }

  /** After a tick whose drawdown opens the breaker, no order passes the checks
      until the cooldown has passed, whatever else uses the breaker meanwhile
      short of a manual reset. */
  lemma {:induction false} DrawdownHaltsTrading(l: Limits, run: seq<Timed>, i: nat, j: nat)
    requires i < j < |run| && Halts(l, run, i)
    requires ClockMonotone(run) && NoResetBetween(run, i, j)
    requires Passes(l, run, j)
    ensures run[j].at >= run[i].at + l.breaker.cooldown
  {
    hide Before, Step;
    var b := BreakerRun(l, run);
    BreakerFollows(l, run, i);
    BreakerFollows(l, run, i + 1);
    BreakerFollows(l, run, j);
    BreakerClean(l, run, i, j);
    OpensAt(l, run, i);
    assert CB.LetsThrough(l.breaker, b, j);
    CB.NoCallDuringCooldown(l.breaker, b, i, j);
  }

  lemma {:induction false} OpensAt(l: Limits, run: seq<Timed>, i: nat)
    requires i < |run| && Halts(l, run, i)
    ensures CB.Opens(l.breaker, BreakerRun(l, run), i)
  {
    hide Step, Before, CB.Before;
    BreakerFollows(l, run, i);
    BreakerFollows(l, run, i + 1);
    OneTrip(l, run, i);
  }

  lemma OneTrip(l: Limits, run: seq<Timed>, i: nat)
    requires i < |run| && run[i].event.Ticked?
    requires Trips(l, Before(l, run, i).engine, run[i].event.value)
    ensures Before(l, run, i + 1).engine.breaker.state.Open?
  {
    var w := Before(l, run, i);
    hide Before;
    assert Step(l, w, run[i].event, run[i].at).engine.breaker.state.Open?;
  }

  lemma BreakerClean(l: Limits, run: seq<Timed>, i: nat, j: nat)
    requires j <= |run| && ClockMonotone(run) && NoResetBetween(run, i, j)
    ensures CB.ClockMonotone(BreakerRun(l, run)) && CB.NoResetBetween(BreakerRun(l, run), i, j)
  {
    hide Before;
  }

  /** Accepted and waiting submissions together, as the daily count has them. */
  function Committed(w: World): int { w.engine.trades + |w.waiting| }

  /** Inside the cooldown that a drawdown starts, at most the submissions that
      were waiting at the tick are accepted, across the change of day too; with
      none waiting none is. The day's trades and the waiting submissions together
      do not grow. */
  lemma {:induction false} HaltAcceptsOnlyWaiting(l: Limits, run: seq<Timed>, i: nat, k: nat)
    requires i < k <= |run| && Halts(l, run, i)
    requires ClockMonotone(run) && NoResetBetween(run, i, k)
    requires run[k - 1].at < run[i].at + l.breaker.cooldown
    ensures 0 <= Before(l, run, k).engine.trades
    ensures Committed(Before(l, run, k)) <= Committed(Before(l, run, i))
    ensures Accepted(l, run, i, k) + |Before(l, run, k).waiting| <= |Before(l, run, i).waiting|
  {
    hide Before, Step, Halts;
    var j := k - 1;
    TradesNotNegative(l, run, j);
    if i < j {
      HaltAcceptsOnlyWaiting(l, run, i, j);
      if Passes(l, run, j) {
        DrawdownHaltsTrading(l, run, i, j);
      }
    } else {
      HaltIsTick(l, run, i);
    }
    OneStepCommitted(l, run, j);
  }

  lemma {:induction false} HaltIsTick(l: Limits, run: seq<Timed>, i: nat)
    requires i < |run| && Halts(l, run, i)
    ensures run[i].event.Ticked?
  {
  }

  /** Only an order that passes the checks adds to the committed ones. */
  lemma {:induction false} OneStepCommitted(l: Limits, run: seq<Timed>, j: nat)
    requires j < |run| && 0 <= Before(l, run, j).engine.trades && !Passes(l, run, j)
    ensures var w, w' := Before(l, run, j), Before(l, run, j + 1);
            && 0 <= w'.engine.trades && Committed(w') <= Committed(w)
            && Accepted(l, run, j, j + 1) + |w'.waiting| <= |w.waiting|
  {
    var w := Before(l, run, j);
    assert Before(l, run, j + 1) == Step(l, w, run[j].event, run[j].at);
    hide Before, Step;
    match run[j].event {
      case Admit(o, riskOk) => RefusedCounts(l, w, o, riskOk, run[j].at);
      case Finish(n, answer) => FinishCounts(l, w, n, answer, run[j].at);
      case _ => OtherEventCounts(l, w, run[j].event, run[j].at);
    }
  }

  lemma {:induction false} RefusedCounts(l: Limits, w: World, o: Ticket, riskOk: bool, now: real)
    requires !Judge(l, w.engine, o, riskOk, now).Passed?
    ensures var w' := Step(l, w, Admit(o, riskOk), now);
            w'.waiting == w.waiting && w'.engine.trades == w.engine.trades
  {
    hide Judge, CB.Check;
  }

  lemma {:induction false} TradesNotNegative(l: Limits, run: seq<Timed>, k: nat)
    requires k <= |run|
    ensures 0 <= Before(l, run, k).engine.trades
  {
    hide Step;
    if k > 0 {
      var w, e, now := Before(l, run, k - 1), run[k - 1].event, run[k - 1].at;
      TradesNotNegative(l, run, k - 1);
      match e {
        case Admit(o, riskOk) => AdmitCounts(l, w, o, riskOk, now);
        case Finish(n, answer) => FinishCounts(l, w, n, answer, now);
        case _ => OtherEventCounts(l, w, e, now);
      }
    }
  }

  /** An order let in before a drawdown of all the capital, answered after it. */
  function LateAnswer(): seq<Timed> {
    [Timed(Switch(true, Paper, Healthy), 0.0), Timed(Admit(FREE, true), 0.0),
     Timed(Ticked(100.0), 0.0), Timed(Ticked(0.0), 0.0), Timed(Finish(0, Taken), 0.0)]
  }

  /** What waits at the tick is still accepted: the halt does not reach it. */
  lemma {:induction false} WaitingAcceptedInHalt(l: Limits)
    requires l.maxTrades >= 1 && l.maxVolume >= 0.0 && l.maxPending >= 1
    requires 0.0 < l.lossPct <= 100.0 && l.breaker.cooldown > 0.0
    ensures var run, w := LateAnswer(), Before(l, LateAnswer(), 5);
            && Halts(l, run, 3) && Before(l, run, 4).engine.trades == 0
            && w.engine.trades == 1 && CB.IsActive(l.breaker, w.engine.breaker, 0.0)
  {
    var run := LateAnswer();
    var e1 := START.engine.(running := true, health := Healthy);
    var e2 := e1.(peak := 100.0, drawdown := 0.0);
    assert Before(l, run, 1) == World(e1, []);
    assert Notional(FREE) == 0.0;
    assert Before(l, run, 2) == World(e1, [FREE]);
    assert (100.0 - 100.0) / 100.0 * 100.0 == 0.0;
    assert Before(l, run, 3) == World(e2, [FREE]);
    assert (100.0 - 0.0) / 100.0 * 100.0 == 100.0;
    var w := Before(l, run, 4);
    assert w.waiting == [FREE] && w.engine.trades == 0 && w.engine.breaker == CB.ToOpen(CB.INITIAL, 0.0);
    assert Before(l, run, 5).engine == Commit(l, w.engine, FREE, Taken, 0.0);
  }

  /** The peak is the largest portfolio value seen while running, or 0. */
  lemma {:induction false} PeakIsRunningMaximum(l: Limits, run: seq<Timed>, k: nat)
    requires k <= |run|
    ensures var peak := Before(l, run, k).engine.peak;
            && peak >= 0.0
            && (forall i :: 0 <= i < k && Seen(l, run, i) ==> run[i].event.value <= peak)
            && (peak == 0.0 || exists i :: 0 <= i < k && Seen(l, run, i) && run[i].event.value == peak)
  {
    if k > 0 {
      hide Step;
      var w, e := Before(l, run, k - 1), run[k - 1].event;
      PeakIsRunningMaximum(l, run, k - 1);
      PeakStep(l, w, e, run[k - 1].at);
      assert Seen(l, run, k - 1) <==> e.Ticked? && w.engine.running;
    }
  }

  lemma PeakStep(l: Limits, w: World, e: Event, now: real)
    ensures Step(l, w, e, now).engine.peak
            == if e.Ticked? && w.engine.running && e.value > w.engine.peak then e.value else w.engine.peak
  {
    hide CB.Step, CB.Check, CB.Fail, CB.ToOpen, CB.IsActive, Notional;
  }

  predicate Seen(l: Limits, run: seq<Timed>, i: nat)
    requires i < |run|
  {
    run[i].event.Ticked? && Before(l, run, i).engine.running
  }

  /** An engine that has not been started lets nothing through. */
  lemma {:induction false} NothingBeforeStart(l: Limits, run: seq<Timed>, k: nat)
    requires k <= |run| && forall m :: 0 <= m < k ==> !run[m].event.Switch?
    ensures !Before(l, run, k).engine.running && Before(l, run, k).waiting == []
    ensures k < |run| ==> !Passes(l, run, k)
  {
    if k > 0 {
      NothingBeforeStart(l, run, k - 1);
    }
  }

  // ----------------------------------------------------------------- pausing

  /** Nothing but the mode or the risk check would refuse the order. */
  predicate FreeOtherwise(l: Limits, e: Engine, o: Ticket, now: real) {
    && e.running && !CB.IsActive(l.breaker, e.breaker, now) && e.health !in {Critical, Offline}
    && e.trades < l.maxTrades && e.volume + Notional(o) <= l.maxVolume && |e.pending| < l.maxPending
  }

  /** In every run the mode and the risk check refuse an order exactly in warmup,
      or live with a failed check. */
  lemma {:induction false} ModeRefusesIff(l: Limits, run: seq<Timed>, j: nat)
    requires j < |run| && run[j].event.Admit?
    ensures var e, o := Before(l, run, j).engine, run[j].event.order;
            Passes(l, run, j) <==> && FreeOtherwise(l, e, o, run[j].at)
                                   && !(e.mode == Warmup || (e.mode == Live && !run[j].event.riskOk))
  {
    hide Before, CB.IsActive, Notional;
  }

  predicate KeepsMode(e: Event) { !e.Switch? && !e.Pause? && !e.Resume? }

  lemma {:induction false} StaysPaused(l: Limits, run: seq<Timed>, i: nat, k: nat)
    requires i < k <= |run| && run[i].event.Pause?
    requires Before(l, run, i).engine.running && Before(l, run, i).engine.mode == Live
    requires forall m :: i < m < k ==> KeepsMode(run[m].event)
    ensures Before(l, run, k).engine.running && Before(l, run, k).engine.mode == Standby
  {
    var w := Before(l, run, k - 1);
    if i < k - 1 {
      StaysPaused(l, run, i, k - 1);
      KeptMode(l, w, run[k - 1].event, run[k - 1].at);
    }
  }

  lemma KeptMode(l: Limits, w: World, e: Event, now: real)
    requires KeepsMode(e)
    ensures var w' := Step(l, w, e, now); w'.engine.running == w.engine.running && w'.engine.mode == w.engine.mode
  {
    hide CB.Step, CB.ToOpen, CB.Fail, CB.Check, CB.IsActive, Notional;
  }

  /** Pausing a live engine, documented to take no new orders, refuses none: in
      every run, after the pause and until the mode is set again, an order passes
      whenever nothing else refuses it, even with a failed risk check. */
  lemma {:induction false} PauseRefusesNothing(l: Limits, run: seq<Timed>, i: nat, j: nat)
    requires i < j < |run| && run[i].event.Pause? && run[j].event.Admit?
    requires Before(l, run, i).engine.running && Before(l, run, i).engine.mode == Live
    requires forall m :: i < m < j ==> KeepsMode(run[m].event)
    ensures Before(l, run, j).engine.mode == Standby
    ensures Passes(l, run, j) <==> FreeOtherwise(l, Before(l, run, j).engine, run[j].event.order, run[j].at)
  {
    hide Before, CB.IsActive, Notional;
    StaysPaused(l, run, i, j);
    ModeRefusesIff(l, run, j);
  }

  /** Only a running live engine can be paused and only a paused one resumed;
      neither touches anything but the mode. */
  lemma SwitchesAre(e: Engine)
    ensures Paused(e) == e.(mode := Paused(e).mode) && Resumed(e) == e.(mode := Resumed(e).mode)
    ensures Paused(e).mode != e.mode <==> e.running && e.mode == Live
    ensures Resumed(e).mode != e.mode <==> e.running && e.mode == Standby
    ensures e.running && e.mode == Live ==> Paused(e).mode == Standby && Resumed(Paused(e)) == e
    ensures e.running && e.mode == Standby ==> Resumed(e).mode == Live && Paused(Resumed(e)) == e
  {
  }

  /** Resuming brings a paused engine back to live, and the risk check with it. */
  lemma {:induction false} ResumeRestores(l: Limits, run: seq<Timed>, i: nat, k: nat, j: nat)
    requires i < k < j < |run| && run[i].event.Pause? && run[k].event.Resume? && run[j].event.Admit?
    requires Before(l, run, i).engine.running && Before(l, run, i).engine.mode == Live
    requires forall m :: i < m < j && m != k ==> KeepsMode(run[m].event)
    ensures Before(l, run, j).engine.running && Before(l, run, j).engine.mode == Live
    ensures Passes(l, run, j) ==> run[j].event.riskOk
  {
    StaysPaused(l, run, i, k);
    StaysLive(l, run, k, j);
    hide Before, CB.IsActive, Notional;
    ModeRefusesIff(l, run, j);
  }

  lemma {:induction false} StaysLive(l: Limits, run: seq<Timed>, k: nat, j: nat)
    requires k < j <= |run| && run[k].event.Resume?
    requires Before(l, run, k).engine.running && Before(l, run, k).engine.mode == Standby
    requires forall m :: k < m < j ==> KeepsMode(run[m].event)
    ensures Before(l, run, j).engine.running && Before(l, run, j).engine.mode == Live
  {
    var w := Before(l, run, j - 1);
    if k < j - 1 {
      StaysLive(l, run, k, j - 1);
      KeptMode(l, w, run[j - 1].event, run[j - 1].at);
    }
  }

  function PausedRun(o: Ticket): seq<Timed> {
    [Timed(Switch(true, Live, Healthy), 0.0), Timed(Pause, 0.0), Timed(Admit(o, false), 0.0), Timed(Finish(0, Taken), 0.0)]
  }

  /** And this is reached: a paused engine takes an order that fails the risk
      check, and trades. */
  lemma {:induction false} StandbyAdmits(l: Limits, o: Ticket)
    requires l.maxTrades >= 1 && Notional(o) <= l.maxVolume && l.maxPending >= 1
    ensures var run := PausedRun(o);
            && Before(l, run, 2).engine.mode == Standby && Passes(l, run, 2)
            && Before(l, run, 4).engine.trades == 1
  {
    var run := PausedRun(o);
    var live := START.engine.(running := true, mode := Live, health := Healthy);
    assert Before(l, run, 1) == World(live, []);
    assert Before(l, run, 2) == World(live.(mode := Standby), []);
    assert !CB.IsActive(l.breaker, live.breaker, 0.0);
    assert Before(l, run, 3).waiting == [o];
    assert Before(l, run, 3).engine.trades == 0;
  }

  // ------------------------------------------------------- the mutable form

  class Gate {
    const limits: Limits
    const breaker: CB.Breaker
    var running: bool
    var mode: Mode
    var health: Health
    var dailyTradeCount: int
    var dailyVolume: real
    var pendingOrders: map<string, Ticket>
    var peakPortfolioValue: real
    var currentDrawdownPct: real

    constructor (limits: Limits, breaker: CB.Breaker)
      requires breaker.config == limits.breaker && breaker.stats == CB.INITIAL
      ensures this.limits == limits && this.breaker == breaker && State() == START.engine
    {
      this.limits, this.breaker := limits, breaker;
      running, mode, health := false, Paper, Offline;
      dailyTradeCount, dailyVolume, pendingOrders := 0, 0.0, map[];
      peakPortfolioValue, currentDrawdownPct := 0.0, 0.0;
    }

    function State(): Engine
      reads this, breaker
    {
      Engine(running, mode, health, dailyTradeCount, dailyVolume, pendingOrders,
             breaker.stats, peakPortfolioValue, currentDrawdownPct)
    }

    /** `submit_order` up to its await. */
    method Check(order: Ticket, riskOk: bool, now: real) returns (verdict: Verdict)
      requires breaker.config == limits.breaker
      modifies breaker
      ensures verdict == Judge(limits, old(State()), order, riskOk, now)
      ensures State() == AfterJudge(limits, old(State()), now)
    {
      if !running {
        return NotRunning;
      }
      if mode == Warmup {
        return InWarmup;
      }
      var active := breaker.AskActive(now);
      if active {
        return BreakerActive;
      }
      if health == Critical || health == Offline {
        return Unhealthy;
      }
      if dailyTradeCount >= limits.maxTrades {
        return TradeLimit;
      }
      if dailyVolume + Notional(order) > limits.maxVolume {
        return VolumeLimit;
      }
      if |pendingOrders| >= limits.maxPending {
        return PendingLimit;
      }
      if mode == Live && !riskOk {
        return RiskRejected;
      }
      return Passed;
    }

    /** `submit_order` after its await. */
    method Answered(order: Ticket, answer: Answer, now: real)
      requires breaker.config == limits.breaker
      modifies this, breaker
      ensures State() == Commit(limits, old(State()), order, answer, now)
    {
      if answer == Taken {
        pendingOrders := pendingOrders[order.id := order];
        dailyTradeCount := dailyTradeCount + 1;
        dailyVolume := dailyVolume + Notional(order);
      } else if answer == Threw {
        breaker.RecordFailure(now);
      }
    }

    method ProcessTick(value: real, now: real)
      requires breaker.config == limits.breaker
      modifies this`peakPortfolioValue, this`currentDrawdownPct, breaker
      ensures State() == Tick(limits, old(State()), value, now)
      ensures Trips(limits, old(State()), value) ==> breaker.stats.state.Open?
      ensures running ==> value <= peakPortfolioValue
    {
      if !running {
        return;
      }
      if value > peakPortfolioValue {
        peakPortfolioValue := value;
      }
      if peakPortfolioValue > 0.0 {
        currentDrawdownPct := (peakPortfolioValue - value) / peakPortfolioValue * 100.0;
        if currentDrawdownPct >= limits.lossPct {
          breaker.Trip(now);
        }
      }
    }

    /** A fill or a confirmed cancellation takes the order off the pending list. */
    method Remove(id: string)
      modifies this`pendingOrders
      ensures State() == old(State()).(pending := old(State()).pending - {id})
    {
      pendingOrders := pendingOrders - {id};
    }

    method PauseTrading()
      modifies this`mode
      ensures State() == Paused(old(State()))
    {
      if running && mode == Live {
        mode := Standby;
      }
    }

    method ResumeTrading()
      modifies this`mode
      ensures State() == Resumed(old(State()))
    {
      if running && mode == Standby {
        mode := Live;
      }
    }

    method ResetDay()
      modifies this`dailyTradeCount, this`dailyVolume
      ensures State() == old(State()).(trades := 0, volume := 0.0)
    {
      dailyTradeCount, dailyVolume := 0, 0.0;
    }
  }
}
