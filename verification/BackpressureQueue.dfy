/** The streaming queue with watermarks: producers are paused above the high
    watermark, old entries are dropped near the capacity, and consumers release
    the producers below the low watermark. */
module BackpressureQueue {
  datatype DropPolicy = Newest | Oldest | Random | Unknown

  datatype Config = Config(capacity: nat, high: real, low: real, policy: DropPolicy)

  /** `size` is the counter the code keeps beside the queue itself. */
  datatype Queue<T> = Queue(items: seq<T>, size: int, dropped: nat, throttling: bool)

  predicate WellFormed(c: Config) { c.capacity >= 1 }

  /** How full the queue is with `n` entries. */
  function Ratio(c: Config, n: int): real
    requires WellFormed(c)
  {
    n as real / c.capacity as real
  }

  /** A watermark as a number of entries. */
  function Level(c: Config, share: real): real { share * c.capacity as real }

  /** Drops a fifth of the entries, oldest first. */
  function DropFifth<T>(q: Queue<T>): Queue<T> {
    var n := if q.size / 5 < |q.items| then q.size / 5 else |q.items|;
    if n <= 0 then q else Queue(q.items[n..], q.size - n, q.dropped + n, q.throttling)
  }

  function CheckPressure<T>(c: Config, q: Queue<T>): Queue<T>
    requires WellFormed(c)
  {
    var ratio := Ratio(c, q.size);
    var q' := if ratio >= c.high then q.(throttling := true) else q;
    if ratio >= 0.95 then DropFifth(q') else q'
  }

  /** A put that has passed the duplicate check and the pause gate. */
  function Put<T>(c: Config, q: Queue<T>, x: T): Queue<T>
    requires WellFormed(c)
  {
    if |q.items| < c.capacity then
      CheckPressure(c, q.(items := q.items + [x], size := q.size + 1))
    else
      var q' := q.(dropped := q.dropped + 1);
      if c.policy == Oldest && |q.items| > 0 then q'.(items := q.items[1..] + [x]) else q'
  }

  function Take<T>(c: Config, q: Queue<T>): Queue<T>
    requires |q.items| > 0
  {
    var size := q.size - 1;
    Queue(q.items[1..], size, q.dropped,
          q.throttling && !(size as real < Level(c, c.low)))
  }

  // ------------------------------------------------------------------- runs

  /** A history: the queue, everything offered to it and everything taken. */
  datatype History<T> = History(queue: Queue<T>, offered: seq<T>, taken: seq<T>)

  datatype Event<T> = Offer(item: T) | Consume | Stop

  function Step<T>(c: Config, h: History<T>, e: Event<T>): History<T>
    requires WellFormed(c)
  {
    match e
    case Offer(x) => History(Put(c, h.queue, x), h.offered + [x], h.taken)
    case Consume =>
      // On an empty queue the consumer waits and nothing happens.
      if |h.queue.items| == 0 then h
      else History(Take(c, h.queue), h.offered, h.taken + [h.queue.items[0]])
    case Stop => h.(queue := h.queue.(throttling := false))
  }

  function Run<T>(c: Config, events: seq<Event<T>>): History<T>
    requires WellFormed(c)
  {
    if |events| == 0 then History(Queue([], 0, 0, false), [], [])
    else Step(c, Run(c, events[..|events| - 1]), events[|events| - 1])
  }

  /** Producers wait at the pause gate: nothing is offered while throttling. */
  predicate Gated<T>(c: Config, events: seq<Event<T>>)
    requires WellFormed(c)
  {
    |events| == 0
    || var front := events[..|events| - 1];
       Gated(c, front) && (events[|events| - 1].Offer? ==> !Run(c, front).queue.throttling)
  }

  lemma {:induction false} AfterOne<T>(c: Config, events: seq<Event<T>>, e: Event<T>)
    requires WellFormed(c)
    ensures Run(c, events + [e]) == Step(c, Run(c, events), e)
    ensures Gated(c, events + [e]) <==> Gated(c, events) && (e.Offer? ==> !Run(c, events).queue.throttling)
  {
    assert (events + [e])[..|events|] == events;
  }

  /** `a` is obtained from `b` by leaving elements out. */
  predicate Subsequence<T(==)>(a: seq<T>, b: seq<T>) {
    if |a| == 0 then true
    else if |b| == 0 then false
    else if a[|a| - 1] == b[|b| - 1] then Subsequence(a[..|a| - 1], b[..|b| - 1])
    else Subsequence(a, b[..|b| - 1])
  }

  lemma {:induction false} SubsequenceSkip<T>(a: seq<T>, b: seq<T>, x: T)
    requires Subsequence(a, b)
    ensures Subsequence(a, b + [x])
    decreases |b|
  {
    assert (b + [x])[..|b|] == b;
    if |a| > 0 && a[|a| - 1] == x {
      var a', b' := a[..|a| - 1], b[..|b| - 1];
      if a[|a| - 1] == b[|b| - 1] {
        SubsequenceSkip(a', b', b[|b| - 1]);
      } else {
        SubsequenceFront(a, b');
        SubsequenceSkip(a', b', b[|b| - 1]);
      }
      assert b' + [b[|b| - 1]] == b;
    }
  }

  /** Leaving out the last element keeps a subsequence. */
  lemma {:induction false} SubsequenceFront<T>(a: seq<T>, b: seq<T>)
    requires |a| > 0 && Subsequence(a, b)
    ensures Subsequence(a[..|a| - 1], b)
    decreases |b|
  {
    var b' := b[..|b| - 1];
    assert b' + [b[|b| - 1]] == b;
    if a[|a| - 1] != b[|b| - 1] {
      SubsequenceFront(a, b');
    }
    SubsequenceSkip(a[..|a| - 1], b', b[|b| - 1]);
  }

  lemma {:induction false} SubsequenceBoth<T>(a: seq<T>, b: seq<T>, x: T)
    requires Subsequence(a, b)
    ensures Subsequence(a + [x], b + [x])
  {
    assert (a + [x])[..|a|] == a && (b + [x])[..|b|] == b;
  }

  /** Leaving out any one element keeps a subsequence. */
  lemma {:induction false} SubsequenceWithout<T>(a: seq<T>, x: T, rest: seq<T>, b: seq<T>)
    requires Subsequence(a + [x] + rest, b)
    ensures Subsequence(a + rest, b)
    decreases |b|
  {
    var s := a + [x] + rest;
    if |rest| == 0 {
      assert s[..|s| - 1] == a + rest;
      SubsequenceFront(s, b);
    } else {
      var r', b' := rest[..|rest| - 1], b[..|b| - 1];
      var z := rest[|rest| - 1];
      assert b' + [b[|b| - 1]] == b;
      if z == b[|b| - 1] {
        assert s[..|s| - 1] == a + [x] + r';
        SubsequenceWithout(a, x, r', b');
        SubsequenceBoth(a + r', b', z);
        assert a + r' + [z] == a + rest;
      } else {
        SubsequenceWithout(a, x, rest, b');
        SubsequenceSkip(a + rest, b', b[|b| - 1]);
      }
    }
  }

  lemma {:induction false} SubsequenceDrop<T>(a: seq<T>, items: seq<T>, n: nat, b: seq<T>)
    requires n <= |items| && Subsequence(a + items, b)
    ensures Subsequence(a + items[n..], b)
    decreases n
  {
    if n == 0 {
      assert items[0..] == items;
    } else {
      assert a + items == a + [items[0]] + items[1..];
      SubsequenceWithout(a, items[0], items[1..], b);
      SubsequenceDrop(a, items[1..], n - 1, b);
      assert items[1..][n - 1..] == items[n..];
    }
  }

  // -------------------------------------------------------------- invariant

  ghost predicate Sound<T>(c: Config, h: History<T>) {
    && h.queue.size == |h.queue.items| <= c.capacity
    && |h.offered| == |h.taken| + h.queue.dropped + |h.queue.items|
    && Subsequence(h.taken + h.queue.items, h.offered)
  }

  lemma StepSound<T>(c: Config, h: History<T>, e: Event<T>)
    requires WellFormed(c) && Sound(c, h)
    ensures Sound(c, Step(c, h, e))
  {
    hide Subsequence, Put;
    var q := h.queue;
    match e {
      case Offer(x) =>
        if |q.items| < c.capacity {
          OfferWithRoom(c, h, x);
        } else {
          OfferWhenFull(c, h, x);
        }
      case Consume =>
        if |q.items| > 0 {
          assert h.taken + [q.items[0]] + q.items[1..] == h.taken + q.items;
        }
      case Stop =>
    }
  }

  lemma PutWhenFull<T>(c: Config, q: Queue<T>, x: T)
    requires WellFormed(c) && |q.items| >= c.capacity
    ensures var r := Put(c, q, x);
            && r.items == (if c.policy == Oldest then q.items[1..] + [x] else q.items)
            && r.size == q.size && r.dropped == q.dropped + 1 && r.throttling == q.throttling
  {
  }

  /** Replacing the oldest queued entry by the new one keeps the order. */
  lemma {:induction false} ReplaceOldest<T>(taken: seq<T>, items: seq<T>, offered: seq<T>, x: T)
    requires |items| > 0 && Subsequence(taken + items, offered)
    ensures Subsequence(taken + (items[1..] + [x]), offered + [x])
  {
    SubsequenceDrop(taken, items, 1, offered);
    SubsequenceBoth(taken + items[1..], offered, x);
    hide Subsequence;
    assert taken + items[1..] + [x] == taken + (items[1..] + [x]);
  }

  lemma OfferWhenFull<T>(c: Config, h: History<T>, x: T)
    requires WellFormed(c) && Sound(c, h) && |h.queue.items| >= c.capacity
    ensures Sound(c, Step(c, h, Offer(x)))
  {
    PutWhenFull(c, h.queue, x);
    hide Subsequence, Put;
    if c.policy == Oldest {
      ReplaceOldest(h.taken, h.queue.items, h.offered, x);
    } else {
      SubsequenceSkip(h.taken + h.queue.items, h.offered, x);
    }
  }

  lemma PutWithRoom<T>(c: Config, q: Queue<T>, x: T)
    requires WellFormed(c) && q.size == |q.items| < c.capacity
    ensures var r, items := Put(c, q, x), q.items + [x];
            var n := r.dropped - q.dropped;
            && (n == 0 || n == |items| / 5) && r.items == items[n..] && r.size == |r.items|
  {
    assert (q.items + [x])[0..] == q.items + [x];
  }

  lemma OfferWithRoom<T>(c: Config, h: History<T>, x: T)
    requires WellFormed(c) && Sound(c, h) && |h.queue.items| < c.capacity
    ensures Sound(c, Step(c, h, Offer(x)))
  {
    var q := h.queue;
    var r, items := Put(c, q, x), q.items + [x];
    var n := r.dropped - q.dropped;
    PutWithRoom(c, q, x);
    assert Step(c, h, Offer(x)) == History(r, h.offered + [x], h.taken);
    hide Put, Subsequence, Ratio, Step;
    AppendAndDrop(h.taken, q.items, h.offered, x, n);
  }

  /** Appending an entry and dropping the oldest ones keeps the order. */
  lemma {:induction false} AppendAndDrop<T>(taken: seq<T>, items: seq<T>, offered: seq<T>, x: T, n: nat)
    requires Subsequence(taken + items, offered) && n <= |items| + 1
    ensures Subsequence(taken + (items + [x])[n..], offered + [x])
  {
    SubsequenceBoth(taken + items, offered, x);
    hide Subsequence;
    assert taken + items + [x] == taken + (items + [x]);
    SubsequenceDrop(taken, items + [x], n, offered + [x]);
  }

  /** Over every run: the counter is the queue length and within the capacity,
      every offered entry was taken, dropped or is still queued, and what was
      taken, followed by what is queued, keeps the order of the offers. */
  lemma {:induction false} RunSound<T>(c: Config, events: seq<Event<T>>)
    requires WellFormed(c)
    ensures Sound(c, Run(c, events))
  {
    if |events| > 0 {
      RunSound(c, events[..|events| - 1]);
      StepSound(c, Run(c, events[..|events| - 1]), events[|events| - 1]);
    }
  }

  // ------------------------------------------------------------- throttling

  /** The number of entries a put leaves, when there is room. */
  lemma PutSize<T>(c: Config, q: Queue<T>, x: T)
    requires WellFormed(c) && q.size == |q.items| < c.capacity
    ensures var n, r := q.size + 1, Put(c, q, x);
            && r.size == |r.items| == (if Ratio(c, n) >= 0.95 then n - n / 5 else n)
            && r.throttling == (q.throttling || Ratio(c, n) >= c.high)
  {
  }

  lemma RatioMeaning(c: Config, n: int, bound: real)
    requires WellFormed(c)
    ensures Ratio(c, n) >= bound <==> n as real >= Level(c, bound)
  {
    var r := Ratio(c, n);
    assert r * c.capacity as real == n as real;
    if r >= bound {
      assert (r - bound) * c.capacity as real >= 0.0;
    } else {
      assert (bound - r) * c.capacity as real > 0.0;
    }
  }

  lemma LevelMonotone(c: Config, a: real, b: real)
    requires WellFormed(c) && a <= b
    ensures Level(c, a) <= Level(c, b)
    ensures Level(c, 0.0) == 0.0
  {
    assert (b - a) * c.capacity as real >= 0.0;
  }

  lemma LevelPositive(c: Config, share: real)
    requires WellFormed(c) && share > 0.0
    ensures Level(c, share) > 0.0
  {
  }

  /** A paused queue is not empty, and with a low watermark of at most 0.76 that
      does not exceed the high one it holds at least the low watermark. */
  ghost predicate Pressed<T>(c: Config, q: Queue<T>) {
    q.throttling ==>
      && |q.items| > 0
      && (c.low <= 0.76 && c.low <= c.high ==> |q.items| as real >= Level(c, c.low))
  }

  /** What dropping a fifth leaves of a nearly full queue. */
  lemma FourFifths(c: Config, n: int)
    requires WellFormed(c) && n >= 1 && n as real >= Level(c, 0.95)
    ensures (n - n / 5) as real >= Level(c, 0.76)
  {
    var m, k := n as real, c.capacity as real;
    assert (n / 5) as real <= m / 5.0;
    assert (n - n / 5) as real >= 0.8 * m >= 0.76 * k;
  }

  /** Of `n` entries, at the high watermark or above the low one, a put keeps at
      least the low watermark. */
  lemma KeptAbove(c: Config, n: int)
    requires WellFormed(c) && n >= 1 && c.low <= 0.76 && c.low <= c.high
    requires n as real >= Level(c, c.high) || n as real >= Level(c, c.low)
    ensures (if n as real >= Level(c, 0.95) then n - n / 5 else n) as real >= Level(c, c.low)
  {
    LevelMonotone(c, c.low, c.high);
    LevelMonotone(c, c.low, 0.76);
    hide Level;
    if n as real >= Level(c, 0.95) {
      FourFifths(c, n);
    }
  }

  lemma PutPressed<T>(c: Config, q: Queue<T>, x: T)
    requires WellFormed(c) && c.low > 0.0
    requires q.size == |q.items| <= c.capacity && Pressed(c, q)
    ensures Pressed(c, Put(c, q, x))
  {
    hide Put, Ratio, Level;
    if |q.items| < c.capacity {
      var n := q.size + 1;
      PutSize(c, q, x);
      RatioMeaning(c, n, c.high);
      RatioMeaning(c, n, 0.95);
      if c.low <= 0.76 && c.low <= c.high && (q.throttling || n as real >= Level(c, c.high)) {
        KeptAbove(c, n);
      }
    } else {
      PutWhenFull(c, q, x);
    }
  }

  /** With a positive low watermark the queue is never paused and empty. */
  lemma {:induction false} RunPressed<T>(c: Config, events: seq<Event<T>>)
    requires WellFormed(c) && c.low > 0.0
    ensures Pressed(c, Run(c, events).queue)
  {
    hide Put, Subsequence, Level;
    if |events| > 0 {
      var front := events[..|events| - 1];
      RunPressed(c, front);
      RunSound(c, front);
      var h, e := Run(c, front), events[|events| - 1];
      if e.Offer? {
        PutPressed(c, h.queue, e.item);
      } else if e.Consume? && |h.queue.items| > 0 {
        LevelPositive(c, c.low);
      }
    }
  }

  /** `n` copies of an event after a run. */
  function Then<T>(events: seq<Event<T>>, e: Event<T>, n: nat): seq<Event<T>> {
    events + seq(n, i => e)
  }

  lemma {:induction false} ThenStep<T>(c: Config, events: seq<Event<T>>, e: Event<T>, n: nat)
    requires WellFormed(c) && n > 0
    ensures Run(c, Then(events, e, n)) == Step(c, Run(c, Then(events, e, n - 1)), e)
    ensures Gated(c, Then(events, e, n))
            <==> Gated(c, Then(events, e, n - 1)) && (e.Offer? ==> !Run(c, Then(events, e, n - 1)).queue.throttling)
  {
    AfterOne(c, Then(events, e, n - 1), e);
    hide Run, Gated;
    assert Then(events, e, n) == Then(events, e, n - 1) + [e];
  }

  lemma ThenZero<T>(events: seq<Event<T>>, e: Event<T>)
    ensures Then(events, e, 0) == events
  {
  }

  /** Draining a paused queue releases the producers: after as many takes as
      there are entries, at the latest, it is not paused. */
  lemma {:induction false} DrainReleases<T>(c: Config, events: seq<Event<T>>, n: nat)
    requires WellFormed(c) && c.low > 0.0 && n <= |Run(c, events).queue.items|
    ensures var q := Run(c, Then(events, Consume, n)).queue;
            |q.items| == |Run(c, events).queue.items| - n && (|q.items| == 0 ==> !q.throttling)
  {
    if n > 0 {
      DrainReleases(c, events, n - 1);
      ThenStep(c, events, Consume, n);
    } else {
      ThenZero(events, Consume);
    }
    RunPressed(c, Then(events, Consume, n));
  }

  /** Filling an empty queue below both thresholds. */
  lemma {:induction false} FillBelow<T>(c: Config, x: T, n: nat)
    requires WellFormed(c) && n <= c.capacity
    requires forall m: int :: 1 <= m <= n ==> Ratio(c, m) < c.high
    requires forall m: int :: 1 <= m <= n ==> Ratio(c, m) < 0.95
    ensures var q := Run(c, Then([], Offer(x), n)).queue;
            q.size == |q.items| == n && !q.throttling
    ensures Gated(c, Then([], Offer(x), n))
  {
    hide Put, Gated, Run;
    if n > 0 {
      FillBelow(c, x, n - 1);
      ThenStep(c, [], Offer(x), n);
      PutSize(c, Run(c, Then([], Offer(x), n - 1)).queue, x);
      assert Ratio(c, n) < c.high;
      assert Ratio(c, n) < 0.95;
    } else {
      ThenZero([], Offer(x));
      RunNone<T>(c);
    }
  }

  lemma {:induction false} RunNone<T>(c: Config)
    requires WellFormed(c)
    ensures Run<T>(c, []) == History(Queue([], 0, 0, false), [], []) && Gated<T>(c, [])
  {
  }

  /** Taking everything without a positive low watermark leaves the pause on. */
  lemma {:induction false} DrainStuck<T>(c: Config, events: seq<Event<T>>, n: nat)
    requires WellFormed(c) && c.low <= 0.0
    requires Run(c, events).queue.throttling && n <= |Run(c, events).queue.items|
    ensures var q := Run(c, Then(events, Consume, n)).queue;
            q.throttling && |q.items| == |Run(c, events).queue.items| - n
    ensures Gated(c, events) ==> Gated(c, Then(events, Consume, n))
  {
    hide Run, Then, Gated;
    if n > 0 {
      DrainStuck(c, events, n - 1);
      ThenStep(c, events, Consume, n);
      RunSound(c, Then(events, Consume, n - 1));
      TakeStuck(c, Run(c, Then(events, Consume, n - 1)).queue);
    } else {
      ThenZero(events, Consume);
    }
  }

  lemma TakeStuck<T>(c: Config, q: Queue<T>)
    requires WellFormed(c) && c.low <= 0.0 && q.throttling && q.size == |q.items| > 0
    ensures Take(c, q).throttling
  {
    LevelMonotone(c, c.low, 0.0);
  }

  /** The first fill level at which the high watermark is reached. */
  function FirstHigh(c: Config, n: nat): (r: nat)
    requires WellFormed(c) && 1 <= n && Ratio(c, n) >= c.high
    ensures 1 <= r <= n && Ratio(c, r) >= c.high
    ensures forall m: int :: 1 <= m < r ==> Ratio(c, m) < c.high
  {
    if n > 1 && Ratio(c, n - 1) >= c.high then FirstHigh(c, n - 1)
    else
      assert forall m: int :: 1 <= m < n ==> Ratio(c, m) < c.high by {
        forall m: int | 1 <= m < n
          ensures Ratio(c, m) < c.high
        {
          RatioMonotone(c, m, n - 1);
        }
      }
      n
  }

  lemma RatioMonotone(c: Config, m: int, n: int)
    requires WellFormed(c) && m <= n
    ensures Ratio(c, m) <= Ratio(c, n)
  {
    RatioMeaning(c, n, Ratio(c, m));
    RatioMeaning(c, m, Ratio(c, m));
    assert Level(c, Ratio(c, m)) == m as real;
  }

  /** Whether a fill level that can be reached starts throttling: at the latest
      the first level of 95 percent or more, where entries are dropped. */
  predicate CanThrottle(c: Config)
    requires WellFormed(c)
  {
    exists n :: 1 <= n <= c.capacity && Ratio(c, n - 1) < 0.95 && Ratio(c, n) >= c.high
  }

  /** A high watermark of at most 0.95 is such a level. */
  lemma HighIsReachable(c: Config)
    requires WellFormed(c) && c.high <= 0.95
    ensures CanThrottle(c)
  {
    RatioMeaning(c, c.capacity, c.high);
    LevelMonotone(c, c.high, 0.95);
    var n := FirstHigh(c, c.capacity);
    assert Ratio(c, 0) == 0.0;
    assert Ratio(c, n - 1) < 0.95;
  }

  /** No run whose producers wait at the gate ends paused on an empty queue, where
      producers and consumers wait for each other for good, exactly when the low watermark is positive or
      throttling cannot start. */
  lemma {:induction false} NeverStuckIff<T>(c: Config, x: T)
    requires WellFormed(c)
    ensures c.low > 0.0 || !CanThrottle(c)
            <==> forall events: seq<Event<T>> :: Gated(c, events) ==> !StuckAfter(c, events)
  {
    if c.low > 0.0 {
      forall events: seq<Event<T>>
        ensures !StuckAfter(c, events)
      {
        RunPressed(c, events);
      }
    } else if !CanThrottle(c) {
      forall events: seq<Event<T>>
        ensures !StuckAfter(c, events)
      {
        NeverThrottles(c, events);
      }
    } else {
      var events := StuckRun(c, x);
      assert StuckAfter(c, events);
    }
  }

  predicate StuckAfter<T>(c: Config, events: seq<Event<T>>)
    requires WellFormed(c)
  {
    Run(c, events).queue.throttling && |Run(c, events).queue.items| == 0
  }

  lemma {:induction false} NeverThrottles<T>(c: Config, events: seq<Event<T>>)
    requires WellFormed(c) && !CanThrottle(c)
    ensures var q := Run(c, events).queue;
            !q.throttling && (|q.items| < c.capacity ==> Ratio(c, |q.items|) < 0.95)
  {
    hide Put, Ratio;
    if |events| == 0 {
      RatioMeaning(c, 0, 0.95);
    } else {
      var front := events[..|events| - 1];
      NeverThrottles(c, front);
      RunSound(c, front);
      var h, e := Run(c, front), events[|events| - 1];
      if e.Offer? {
        OfferBelow(c, h.queue, e.item);
      } else if e.Consume? && |h.queue.items| > 0 {
        if |h.queue.items| == c.capacity {
          assert FullAfter(c, front);
          FewBelow(c, front);
        } else {
          RatioMonotone(c, |h.queue.items| - 1, |h.queue.items|);
        }
      }
    }
  }

  lemma FewBelow<T>(c: Config, events: seq<Event<T>>)
    requires WellFormed(c) && FullAfter(c, events)
    ensures Ratio(c, c.capacity - 1) < 0.95
  {
    if c.capacity >= 5 {
      NeverFull(c, events);
    }
    RatioMeaning(c, c.capacity - 1, 0.95);
  }

  lemma OfferBelow<T>(c: Config, q: Queue<T>, x: T)
    requires WellFormed(c) && !CanThrottle(c) && q.size == |q.items| <= c.capacity && !q.throttling
    requires |q.items| < c.capacity ==> Ratio(c, |q.items|) < 0.95
    ensures var r := Put(c, q, x); !r.throttling && (|r.items| < c.capacity ==> Ratio(c, |r.items|) < 0.95)
  {
    if |q.items| < c.capacity {
      hide Put, Ratio;
      var n := q.size + 1;
      PutSize(c, q, x);
      assert Ratio(c, n - 1) < 0.95;
      assert Ratio(c, n) < c.high;
      if n >= 5 {
        RatioMonotone(c, n - n / 5, n - 1);
      } else if Ratio(c, n) >= 0.95 {
        RatioMeaning(c, n, 0.95);
        assert n == c.capacity;
      }
    }
  }

  lemma StuckRun<T>(c: Config, x: T) returns (events: seq<Event<T>>)
    requires WellFormed(c) && CanThrottle(c) && c.low <= 0.0
    ensures Gated(c, events) && StuckAfter(c, events)
  {
    hide Put, Ratio, Gated;
    var n :| 1 <= n <= c.capacity && Ratio(c, n - 1) < 0.95 && Ratio(c, n) >= c.high;
    var m := FirstHigh(c, n);
    forall k: int | 1 <= k <= m - 1 ensures Ratio(c, k) < 0.95 {
      RatioMonotone(c, k, n - 1);
    }
    FillBelow(c, x, m - 1);
    var fill := Then([], Offer(x), m);
    ThenStep(c, [], Offer(x), m);
    PutSize(c, Run(c, Then([], Offer(x), m - 1)).queue, x);
    var left := |Run(c, fill).queue.items|;
    DrainStuck(c, fill, left);
    events := Then(fill, Consume, left);
  }

  // -------------------------------------------------------- the full branch

  /** An offer can be let through the gate to a full queue, where the drop policy
      decides, exactly when the capacity is below 5: from 5 on, a put that fills
      the queue drops at least one entry at once. */
  lemma {:induction false} FullReachableIff<T>(c: Config, x: T)
    requires WellFormed(c)
    ensures c.capacity < 5
            <==> exists events: seq<Event<T>> :: Gated(c, events + [Offer(x)]) && FullAfter(c, events)
  {
    if c.capacity < 5 {
      FillSmall(c, x, c.capacity);
      AfterOne(c, FillAndStop(x, c.capacity), Offer(x));
      assert FullAfter(c, FillAndStop(x, c.capacity));
    } else {
      forall events: seq<Event<T>>
        ensures !FullAfter(c, events)
      {
        NeverFull(c, events);
      }
    }
  }

  predicate FullAfter<T>(c: Config, events: seq<Event<T>>)
    requires WellFormed(c)
  {
    |Run(c, events).queue.items| >= c.capacity
  }

  /** `n` offers, each followed by a stop that opens the gate for the next. */
  function FillAndStop<T>(x: T, n: nat): seq<Event<T>> {
    if n == 0 then [] else FillAndStop(x, n - 1) + [Offer(x)] + [Stop]
  }

  lemma {:induction false} FillSmall<T>(c: Config, x: T, n: nat)
    requires WellFormed(c) && n <= c.capacity < 5
    ensures Gated(c, FillAndStop(x, n))
    ensures var q := Run(c, FillAndStop(x, n)).queue; q.size == |q.items| == n && !q.throttling
  {
    hide Put, Gated, Run;
    if n > 0 {
      var front := FillAndStop(x, n - 1);
      FillSmall(c, x, n - 1);
      AfterOne(c, front, Offer(x));
      AfterOne(c, front + [Offer(x)], Stop);
      PutSize(c, Run(c, front).queue, x);
    } else {
      RunNone<T>(c);
    }
  }

  lemma {:induction false} NeverFull<T>(c: Config, events: seq<Event<T>>)
    requires WellFormed(c) && c.capacity >= 5
    ensures |Run(c, events).queue.items| < c.capacity
  {
    hide Put;
    if |events| > 0 {
      var front := events[..|events| - 1];
      NeverFull(c, front);
      RunSound(c, front);
      var h, e := Run(c, front), events[|events| - 1];
      if e.Offer? {
        PutSize(c, h.queue, e.item);
        if h.queue.size + 1 == c.capacity {
          RatioMeaning(c, c.capacity, 0.95);
        }
      }
    }
  }

  // ------------------------------------------------------- the mutable form

  class StreamQueue<T(==)> {
    const config: Config
    var asyncQueue: seq<T>
    var queueSize: int
    var droppedCount: nat
    var throttling: bool

    function State(): Queue<T>
      reads this
    {
      Queue(asyncQueue, queueSize, droppedCount, throttling)
    }

    constructor (config: Config)
      ensures this.config == config && State() == Queue([], 0, 0, false)
    {
      this.config := config;
      asyncQueue, queueSize, droppedCount, throttling := [], 0, 0, false;
    }

    /** `put_async` behind the duplicate check and the pause gate. */
    method PutNow(x: T) returns (accepted: bool)
      requires WellFormed(config)
      modifies this
      ensures State() == Put(config, old(State()), x)
      ensures accepted == (|old(asyncQueue)| < config.capacity)
    {
      if |asyncQueue| < config.capacity {
        asyncQueue := asyncQueue + [x];
        queueSize := queueSize + 1;
        CheckBackpressure();
        return true;
      }
      HandleQueueFull(x);
      return false;
    }

    method CheckBackpressure()
      requires WellFormed(config)
      modifies this
      ensures State() == CheckPressure(config, old(State()))
    {
      var ratio := Ratio(config, queueSize);
      if ratio >= config.high {
        if !throttling {
          throttling := true;
        }
      }
      if ratio >= 0.95 {
        DropEntries();
      }
    }

    method DropEntries()
      modifies this`asyncQueue, this`queueSize, this`droppedCount
      ensures State() == DropFifth(old(State()))
    {
      var dropCount := queueSize / 5;
      var i := 0;
      while i < dropCount && |asyncQueue| > 0
        invariant 0 <= i <= |old(asyncQueue)| && (i <= dropCount || i == 0)
        invariant asyncQueue == old(asyncQueue)[i..]
        invariant queueSize == old(queueSize) - i && droppedCount == old(droppedCount) + i
      {
        asyncQueue := asyncQueue[1..];
        queueSize := queueSize - 1;
        droppedCount := droppedCount + 1;
        i := i + 1;
      }
    }

    method HandleQueueFull(x: T)
      requires WellFormed(config) && |asyncQueue| >= config.capacity
      modifies this`asyncQueue, this`droppedCount
      ensures State() == Put(config, old(State()), x)
    {
      droppedCount := droppedCount + 1;
      if config.policy == Oldest {
        asyncQueue := asyncQueue[1..];
        asyncQueue := asyncQueue + [x];
      }
    }

    method GetNow() returns (x: T)
      requires |asyncQueue| > 0
      modifies this`asyncQueue, this`queueSize, this`throttling
      ensures x == old(asyncQueue)[0]
      ensures State() == Take(config, old(State()))
    {
      x := asyncQueue[0];
      asyncQueue := asyncQueue[1..];
      queueSize := queueSize - 1;
      if throttling && queueSize as real < Level(config, config.low) {
        throttling := false;
      }
    }
  }
}
