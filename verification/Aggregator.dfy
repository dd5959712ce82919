/** Aggregating ticks into bars, one tick at a time. */
module Aggregator {
  import opened Market
  import opened Optional
  import opened Sequences

  datatype Resolution = Minute | Hour | Daily | Other

  /** Times count microseconds from a midnight. */
  datatype Tick = Tick(symbol: Symbol, time: int, bid: real, ask: real, bidSize: real, askSize: real)

  datatype Bar = Bar(time: int, first: real, high: real, low: real, last: real, volume: real)

  /** Every other resolution is not aggregated at all: each time is its own period. */
  function PeriodLength(r: Resolution): (n: int)
    ensures n >= 1
  {
    match r
    case Minute => 60_000_000
    case Hour => 3_600_000_000
    case Daily => 86_400_000_000
    case Other => 1
  }

  function PeriodStart(r: Resolution, time: int): int {
    time - time % PeriodLength(r)
  }

  /** Periods partition time: a start is at most the time, less than a period
      before it, and the same for exactly the times of one period. */
  lemma PeriodStartIs(r: Resolution, t: int, u: int)
    ensures PeriodStart(r, t) <= t < PeriodStart(r, t) + PeriodLength(r)
    ensures t <= u ==> PeriodStart(r, t) <= PeriodStart(r, u)
    ensures PeriodStart(r, t) <= u < PeriodStart(r, t) + PeriodLength(r) <==> PeriodStart(r, u) == PeriodStart(r, t)
  {
    var n := PeriodLength(r);
    var a, b := t / n, u / n;
    assert t == n * a + t % n && u == n * b + u % n;
    if a < b {
      assert n * (b - a) >= n;
    } else if b < a {
      assert n * (a - b) >= n;
    }
  }

  /** Time as a calendar tells it: days, hours, minutes, seconds, microseconds. */
  function Clock(day: int, hour: int, minute: int, second: int, micro: int): int {
    micro + 1_000_000 * (second + 60 * (minute + 60 * (hour + 24 * day)))
  }

  /** A period starts where the smaller fields of the clock are zero. */
  lemma PeriodZeroesClock(day: int, hour: int, minute: int, second: int, micro: int)
    requires 0 <= hour < 24 && 0 <= minute < 60 && 0 <= second < 60 && 0 <= micro < 1_000_000
    ensures var t := Clock(day, hour, minute, second, micro);
            && PeriodStart(Minute, t) == Clock(day, hour, minute, 0, 0)
            && PeriodStart(Hour, t) == Clock(day, hour, 0, 0, 0)
            && PeriodStart(Daily, t) == Clock(day, 0, 0, 0, 0)
            && PeriodStart(Other, t) == t
  {
    var d := day;
    var h := hour + 24 * d;
    var m := minute + 60 * h;
    RestIsZeroed(Minute, m, micro + 1_000_000 * second);
    RestIsZeroed(Hour, h, micro + 1_000_000 * (second + 60 * minute));
    RestIsZeroed(Daily, d, micro + 1_000_000 * (second + 60 * (minute + 60 * hour)));
    RestIsZeroed(Other, Clock(day, hour, minute, second, micro), 0);
  }

  lemma RestIsZeroed(r: Resolution, n: int, rest: int)
    requires 0 <= rest < PeriodLength(r)
    ensures PeriodStart(r, n * PeriodLength(r) + rest) == n * PeriodLength(r)
  {
    var l := PeriodLength(r);
    var t := n * l + rest;
    var q := t / l;
    assert t == l * q + t % l;
  }

  function Mid(t: Tick): real { (t.bid + t.ask) / 2.0 }

  function Volume(t: Tick): real { t.bidSize + t.askSize }

  function MaxMid(ticks: seq<Tick>): real
    requires |ticks| > 0
  {
    var p := Mid(ticks[|ticks| - 1]);
    if |ticks| == 1 then p
    else
      var m := MaxMid(ticks[..|ticks| - 1]);
      if p > m then p else m
  }

  function MinMid(ticks: seq<Tick>): real
    requires |ticks| > 0
  {
    var p := Mid(ticks[|ticks| - 1]);
    if |ticks| == 1 then p
    else
      var m := MinMid(ticks[..|ticks| - 1]);
      if p < m then p else m
  }

  function TotalVolume(ticks: seq<Tick>): real {
    if |ticks| == 0 then 0.0 else TotalVolume(ticks[..|ticks| - 1]) + Volume(ticks[|ticks| - 1])
  }

  /** The ticks that make one bar, and the start it is stamped with. */
  datatype Group = Group(start: int, ticks: seq<Tick>)

  function CreateBar(g: Group): Bar
    requires |g.ticks| > 0
  {
    Bar(g.start, Mid(g.ticks[0]), MaxMid(g.ticks), MinMid(g.ticks), Mid(g.ticks[|g.ticks| - 1]), TotalVolume(g.ticks))
  }

  /** A bar spans its ticks: no price is outside low and high, both of which
      are prices of the group. */
  lemma {:induction false} BarSpans(g: Group, i: nat)
    requires i < |g.ticks|
    ensures var b := CreateBar(g);
            && b.low <= Mid(g.ticks[i]) <= b.high
            && (exists j :: 0 <= j < |g.ticks| && Mid(g.ticks[j]) == b.high)
            && (exists j :: 0 <= j < |g.ticks| && Mid(g.ticks[j]) == b.low)
    decreases |g.ticks|
  {
    var n := |g.ticks| - 1;
    if n > 0 {
      var f := Group(g.start, g.ticks[..n]);
      BarSpans(f, if i < n then i else 0);
      var j :| 0 <= j < n && Mid(f.ticks[j]) == CreateBar(f).high;
      var k :| 0 <= k < n && Mid(f.ticks[k]) == CreateBar(f).low;
      assert Mid(g.ticks[j]) == CreateBar(f).high && Mid(g.ticks[k]) == CreateBar(f).low;
    }
    assert Mid(g.ticks[n]) == Mid(g.ticks[n]);
  }

  /** `running` adds up the sizes on both sides of the quotes. */
  ghost predicate SizesAddUp(ticks: seq<Tick>, running: seq<real>) {
    && |running| == |ticks| + 1 && running[0] == 0.0
    && forall i :: 0 <= i < |ticks| ==> running[i + 1] == running[i] + (ticks[i].askSize + ticks[i].bidSize)
  }

  lemma {:induction false} TotalVolumeIs(ticks: seq<Tick>, running: seq<real>)
    requires SizesAddUp(ticks, running)
    ensures TotalVolume(ticks) == running[|ticks|]
  {
    if |ticks| > 0 {
      TotalVolumeIs(ticks[..|ticks| - 1], running[..|ticks|]);
    }
  }

  // ---------------------------------------------------- one symbol, streaming

  /** The buffer of a symbol and the time of its latest tick. */
  datatype Stream = Stream(buffer: seq<Tick>, last: Option<int>)

  const QUIET := Stream([], None)

  /** Whether a tick closes the buffered bar. */
  predicate Closes(r: Resolution, s: Stream, t: Tick) {
    s.last.Some? && PeriodStart(r, t.time) > PeriodStart(r, s.last.value) && |s.buffer| > 0
  }

  function Add(r: Resolution, s: Stream, t: Tick): Stream {
    Stream(if Closes(r, s, t) then [t] else s.buffer + [t], Some(t.time))
  }

  function Emitted(r: Resolution, s: Stream, t: Tick): Option<Group> {
    if Closes(r, s, t) then Some(Group(PeriodStart(r, s.last.value), s.buffer)) else None
  }

  function After(r: Resolution, ticks: seq<Tick>): Stream {
    if |ticks| == 0 then QUIET else Add(r, After(r, ticks[..|ticks| - 1]), ticks[|ticks| - 1])
  }

  /** The groups emitted while the ticks arrive. */
  function During(r: Resolution, ticks: seq<Tick>): seq<Group> {
    if |ticks| == 0 then []
    else
      var front := ticks[..|ticks| - 1];
      var e := Emitted(r, After(r, front), ticks[|ticks| - 1]);
      During(r, front) + if e.Some? then [e.value] else []
  }

  /** The group that a flush emits. */
  function Rest(r: Resolution, s: Stream): seq<Group> {
    if |s.buffer| > 0 && s.last.Some? then [Group(PeriodStart(r, s.last.value), s.buffer)] else []
  }

  /** The bar that a flush makes of a stream. */
  function PendingBar(r: Resolution, s: Stream): (b: Option<Bar>)
    ensures b.Some? <==> |Rest(r, s)| == 1
    ensures b.Some? ==> |Rest(r, s)[0].ticks| > 0 && b.value == CreateBar(Rest(r, s)[0])
  {
    if |s.buffer| > 0 && s.last.Some? then Some(CreateBar(Group(PeriodStart(r, s.last.value), s.buffer))) else None
  }

  /** All groups: those emitted on the way and the flushed one. */
  function Streamed(r: Resolution, ticks: seq<Tick>): seq<Group> {
    During(r, ticks) + Rest(r, After(r, ticks))
  }

  lemma {:induction false} AfterNonEmpty(r: Resolution, ticks: seq<Tick>)
    requires |ticks| > 0
    ensures var s := After(r, ticks);
            && |s.buffer| > 0 && s.last == Some(ticks[|ticks| - 1].time)
            && s.buffer[|s.buffer| - 1] == ticks[|ticks| - 1]
  {
  }

  lemma {:induction false} OwnTick(r: Resolution, own: seq<Tick>, t: Tick)
    ensures After(r, own + [t]) == Add(r, After(r, own), t)
    ensures var e := Emitted(r, After(r, own), t);
            During(r, own + [t]) == During(r, own) + if e.Some? then [e.value] else []
  {
    hide Add, Emitted;
    assert (own + [t])[..|own|] == own;
  }

  /** A tick as a new last group, or at the end of the last one, which then
      carries the tick's period. */
  function Joined(gs: seq<Group>, isNew: bool, p: int, t: Tick): seq<Group>
    requires |gs| > 0
  {
    if isNew then gs + [Group(p, [t])] else gs[..|gs| - 1] + [Group(p, gs[|gs| - 1].ticks + [t])]
  }

  /** A tick either starts a new last group or joins the last one, which then
      carries the tick's period. */
  lemma StreamedSnoc(r: Resolution, ticks: seq<Tick>)
    requires |ticks| > 1
    ensures var front, t := ticks[..|ticks| - 1], ticks[|ticks| - 1];
            var g := Streamed(r, front);
            var p := PeriodStart(r, t.time);
            && |g| > 0
            && Streamed(r, ticks) == Joined(g, p > PeriodStart(r, front[|front| - 1].time), p, t)
  {
    hide PeriodStart;
    AfterNonEmpty(r, ticks[..|ticks| - 1]);
  }

  // -------------------------------------------------------------- in one batch

  /** The distinct period starts, ascending. */
  function Starts(r: Resolution, ticks: seq<Tick>): seq<int> {
    if |ticks| == 0 then []
    else InsertAscending(Starts(r, ticks[..|ticks| - 1]), PeriodStart(r, ticks[|ticks| - 1].time))
  }

  /** The ticks of a period, in order of arrival. */
  function InPeriod(r: Resolution, ticks: seq<Tick>, p: int): seq<Tick> {
    if |ticks| == 0 then []
    else
      var t := ticks[|ticks| - 1];
      InPeriod(r, ticks[..|ticks| - 1], p) + if PeriodStart(r, t.time) == p then [t] else []
  }

  /** The tick list grouped by period, knowing all of it. */
  function Batch(r: Resolution, ticks: seq<Tick>): seq<Group> {
    var starts := Starts(r, ticks);
    seq(|starts|, i requires 0 <= i < |starts| => Group(starts[i], InPeriod(r, ticks, starts[i])))
  }

  predicate Hits(r: Resolution, ticks: seq<Tick>, p: int) {
    exists i :: 0 <= i < |ticks| && PeriodStart(r, ticks[i].time) == p
  }

  lemma HitsSnoc(r: Resolution, ticks: seq<Tick>, p: int)
    requires |ticks| > 0
    ensures var n := |ticks| - 1;
            Hits(r, ticks, p) <==> Hits(r, ticks[..n], p) || PeriodStart(r, ticks[n].time) == p
  {
    hide PeriodStart;
    var n := |ticks| - 1;
    if Hits(r, ticks[..n], p) {
      var i :| 0 <= i < n && PeriodStart(r, ticks[..n][i].time) == p;
      assert ticks[..n][i] == ticks[i];
    }
    if Hits(r, ticks, p) && PeriodStart(r, ticks[n].time) != p {
      var i :| 0 <= i < |ticks| && PeriodStart(r, ticks[i].time) == p;
      assert ticks[..n][i] == ticks[i];
    }
  }

  /** The starts are the periods that are hit, ascending. */
  lemma {:induction false} StartsAre(r: Resolution, ticks: seq<Tick>)
    ensures Ascending(Starts(r, ticks))
    ensures forall p :: p in Starts(r, ticks) <==> Hits(r, ticks, p)
  {
    if |ticks| > 0 {
      var n := |ticks| - 1;
      var front, q := ticks[..n], PeriodStart(r, ticks[n].time);
      assert Starts(r, ticks) == InsertAscending(Starts(r, front), q);
      hide PeriodStart, Starts, InsertAscending, Ascending, Hits;
      StartsAre(r, front);
      InsertAscendingIs(Starts(r, front), q);
      forall p ensures p in Starts(r, ticks) <==> Hits(r, ticks, p) {
        HitsSnoc(r, ticks, p);
      }
    }
  }

  // ------------------------------------------------------- streaming is batch

  /** Ticks arrive period by period; late ticks inside a period are fine. */
  predicate Ordered(r: Resolution, ticks: seq<Tick>) {
    forall i, j :: 0 <= i < j < |ticks| ==> PeriodStart(r, ticks[i].time) <= PeriodStart(r, ticks[j].time)
  }

  lemma {:induction false} NoneInPeriod(r: Resolution, ticks: seq<Tick>, p: int)
    requires forall i :: 0 <= i < |ticks| ==> PeriodStart(r, ticks[i].time) != p
    ensures InPeriod(r, ticks, p) == []
  {
    hide PeriodStart;
    if |ticks| > 0 {
      NoneInPeriod(r, ticks[..|ticks| - 1], p);
    }
  }

  /** In order, the last start is the latest period. */
  lemma {:induction false} LastStart(r: Resolution, ticks: seq<Tick>)
    requires |ticks| > 0 && Ordered(r, ticks)
    ensures var s := Starts(r, ticks); |s| > 0 && s[|s| - 1] == PeriodStart(r, ticks[|ticks| - 1].time)
  {
    hide PeriodStart, Starts;
    StartsAre(r, ticks);
    var s, p := Starts(r, ticks), PeriodStart(r, ticks[|ticks| - 1].time);
    assert Hits(r, ticks, p) && p in s;
    var last := s[|s| - 1];
    assert last in s;
    var i :| 0 <= i < |ticks| && PeriodStart(r, ticks[i].time) == last;
    assert last <= p;
    var k :| 0 <= k < |s| && s[k] == p;
    assert k < |s| - 1 ==> p < last;
  }

  /** In order, only a later period adds a start. */
  lemma {:induction false} StartsSnoc(r: Resolution, ticks: seq<Tick>)
    requires |ticks| > 1 && Ordered(r, ticks)
    ensures var a, p := Starts(r, ticks[..|ticks| - 1]), PeriodStart(r, ticks[|ticks| - 1].time);
            && |a| > 0 && Ascending(a) && a[|a| - 1] == PeriodStart(r, ticks[|ticks| - 2].time)
            && a[|a| - 1] <= p
            && Starts(r, ticks) == if p > a[|a| - 1] then a + [p] else a
  {
    hide PeriodStart;
    var front, p := ticks[..|ticks| - 1], PeriodStart(r, ticks[|ticks| - 1].time);
    assert Ordered(r, front);
    LastStart(r, front);
    StartsAre(r, front);
    var a := Starts(r, front);
    assert Starts(r, ticks) == InsertAscending(a, p);
    assert PeriodStart(r, ticks[|ticks| - 2].time) <= p;
    if p > a[|a| - 1] {
      assert forall k :: 0 <= k < |a| ==> a[k] < p;
    } else {
      assert a[|a| - 1] in a;
    }
  }

  /** The batch gains a group, or its last group gains a tick. */
  lemma BatchSnoc(r: Resolution, ticks: seq<Tick>)
    requires |ticks| > 1 && Ordered(r, ticks)
    ensures var front, t := ticks[..|ticks| - 1], ticks[|ticks| - 1];
            var g := Batch(r, front);
            var p := PeriodStart(r, t.time);
            && |g| > 0
            && Batch(r, ticks) == Joined(g, p > PeriodStart(r, front[|front| - 1].time), p, t)
  {
    hide PeriodStart, Starts, Ascending;
    var front, t := ticks[..|ticks| - 1], ticks[|ticks| - 1];
    var p := PeriodStart(r, t.time);
    StartsSnoc(r, ticks);
    var a := Starts(r, front);
    var isNew := p > a[|a| - 1];
    if isNew {
      forall i | 0 <= i < |front| ensures PeriodStart(r, front[i].time) != p {
        assert PeriodStart(r, ticks[i].time) <= PeriodStart(r, ticks[|ticks| - 2].time);
      }
      NoneInPeriod(r, front, p);
    }
    var g, h := Batch(r, front), Batch(r, ticks);
    forall i | 0 <= i < |a|
      ensures h[i] == Group(a[i], g[i].ticks + if a[i] == p then [t] else [])
    {
    }
    BatchCase(a, p, t, g, h, isNew);
  }

  /** Reading the last clause of BatchSnoc off its groups. */
  lemma BatchCase(a: seq<int>, p: int, t: Tick, g: seq<Group>, h: seq<Group>, isNew: bool)
    requires Ascending(a) && |a| > 0 && |g| == |a| && (forall i :: 0 <= i < |a| ==> g[i].start == a[i])
    requires |h| == if isNew then |a| + 1 else |a|
    requires forall i :: 0 <= i < |a| ==> h[i] == Group(a[i], g[i].ticks + if a[i] == p then [t] else [])
    requires isNew ==> p > a[|a| - 1] && h[|a|] == Group(p, [t])
    requires !isNew ==> a[|a| - 1] == p
    ensures h == Joined(g, isNew, p, t)
  {
    assert forall i :: 0 <= i < |a| && a[i] != p ==> h[i].ticks == g[i].ticks;
  }

  lemma {:induction false} OrderedStreamIsBatch(r: Resolution, ticks: seq<Tick>)
    requires Ordered(r, ticks)
    ensures Streamed(r, ticks) == Batch(r, ticks)
  {
    if |ticks| > 1 {
      hide PeriodStart, Streamed, Batch;
      OrderedStreamIsBatch(r, ticks[..|ticks| - 1]);
      StreamedSnoc(r, ticks);
      BatchSnoc(r, ticks);
    } else if |ticks| == 1 {
      hide PeriodStart, Streamed, Batch;
      assert ticks == [ticks[0]];
      OneStreamed(r, ticks[0]);
      OneBatch(r, ticks[0]);
    }
  }

  lemma FirstTick(r: Resolution, t: Tick)
    ensures Add(r, QUIET, t) == Stream([t], Some(t.time)) && Emitted(r, QUIET, t) == None
  {
    hide PeriodStart;
    assert [] + [t] == [t];
  }

  lemma {:induction false} OneTick(r: Resolution, t: Tick)
    ensures After(r, [t]) == Stream([t], Some(t.time)) && During(r, [t]) == []
  {
    FirstTick(r, t);
    OwnTick(r, [], t);
    hide PeriodStart, Add, Emitted;
    assert [] + [t] == [t];
  }

  lemma OneStreamed(r: Resolution, t: Tick)
    ensures Streamed(r, [t]) == [Group(PeriodStart(r, t.time), [t])]
  {
    hide PeriodStart, After, During;
    OneTick(r, t);
  }

  lemma OneBatch(r: Resolution, t: Tick)
    ensures Batch(r, [t]) == [Group(PeriodStart(r, t.time), [t])]
  {
    hide PeriodStart;
    var p := PeriodStart(r, t.time);
    assert [t][..0] == [];
    assert InsertAscending([], p) == [p];
    assert Starts(r, [t]) == [p];
    assert InPeriod(r, [t], p) == [] + [t];
    assert Batch(r, [t])[0] == Group(p, [t]);
  }

  function Flatten(gs: seq<Group>): seq<Tick> {
    if |gs| == 0 then [] else Flatten(gs[..|gs| - 1]) + gs[|gs| - 1].ticks
  }

  lemma {:induction false} FlattenSnoc(gs: seq<Group>, g: Group)
    ensures Flatten(gs + [g]) == Flatten(gs) + g.ticks
  {
    assert (gs + [g])[..|gs|] == gs;
  }

  /** Whatever the order, the groups hold every tick once, as it arrived. */
  lemma {:induction false} StreamedKeepsTicks(r: Resolution, ticks: seq<Tick>)
    ensures Flatten(Streamed(r, ticks)) == ticks && NoneEmpty(Streamed(r, ticks))
  {
    if |ticks| > 1 {
      hide PeriodStart, Streamed, Flatten, NoneEmpty, Joined;
      var n := |ticks| - 1;
      var front, t := ticks[..n], ticks[n];
      StreamedKeepsTicks(r, front);
      StreamedSnoc(r, ticks);
      assert ticks == front + [t];
      var p := PeriodStart(r, t.time);
      OneMoreTick(Streamed(r, front), p > PeriodStart(r, front[n - 1].time), p, t);
    } else {
      FewKept(r, ticks);
    }
  }

  predicate NoneEmpty(gs: seq<Group>) {
    forall i :: 0 <= i < |gs| ==> |gs[i].ticks| > 0
  }

  lemma NoneEmptyJoined(gs: seq<Group>, isNew: bool, p: int, t: Tick)
    requires |gs| > 0 && NoneEmpty(gs)
    ensures NoneEmpty(Joined(gs, isNew, p, t))
  {
  }

  lemma {:induction false} OneMoreTick(gs: seq<Group>, isNew: bool, p: int, t: Tick)
    requires |gs| > 0 && NoneEmpty(gs)
    ensures var r := Joined(gs, isNew, p, t); Flatten(r) == Flatten(gs) + [t] && NoneEmpty(r)
  {
    NoneEmptyJoined(gs, isNew, p, t);
    hide NoneEmpty;
    var n := |gs| - 1;
    if isNew {
      FlattenSnoc(gs, Group(p, [t]));
    } else {
      assert Flatten(gs) == Flatten(gs[..n]) + gs[n].ticks;
      FlattenSnoc(gs[..n], Group(p, gs[n].ticks + [t]));
      hide Flatten;
      assert Flatten(gs[..n]) + (gs[n].ticks + [t]) == Flatten(gs[..n]) + gs[n].ticks + [t];
    }
  }

  lemma FewKept(r: Resolution, ticks: seq<Tick>)
    requires |ticks| <= 1
    ensures Flatten(Streamed(r, ticks)) == ticks && NoneEmpty(Streamed(r, ticks))
  {
    if |ticks| == 1 {
      hide PeriodStart, Streamed;
      assert ticks == [ticks[0]];
      OneStreamed(r, ticks[0]);
      var g := Group(PeriodStart(r, ticks[0].time), ticks);
      FlattenSnoc([], g);
      assert [] + [g] == [g];
    }
  }

  lemma {:induction false} InPeriodOnly(r: Resolution, ticks: seq<Tick>, p: int)
    ensures forall i :: 0 <= i < |InPeriod(r, ticks, p)| ==> PeriodStart(r, InPeriod(r, ticks, p)[i].time) == p
  {
    hide PeriodStart;
    if |ticks| > 0 {
      InPeriodOnly(r, ticks[..|ticks| - 1], p);
    }
  }

  /** Groups that are pure and ascending lie in period order. */
  lemma {:induction false} FlattenOrdered(r: Resolution, gs: seq<Group>)
    requires forall i, j :: 0 <= i < j < |gs| ==> gs[i].start < gs[j].start
    requires forall i, j :: 0 <= i < |gs| && 0 <= j < |gs[i].ticks| ==> PeriodStart(r, gs[i].ticks[j].time) == gs[i].start
    ensures Ordered(r, Flatten(gs))
    ensures forall i :: 0 <= i < |Flatten(gs)| ==>
              exists k :: 0 <= k < |gs| && gs[k].start == PeriodStart(r, Flatten(gs)[i].time)
  {
    hide PeriodStart;
    if |gs| > 0 {
      var n := |gs| - 1;
      FlattenOrdered(r, gs[..n]);
      var a, b := Flatten(gs[..n]), gs[n].ticks;
      assert Flatten(gs) == a + b;
      hide Flatten;
      forall i | 0 <= i < |a|
        ensures PeriodStart(r, a[i].time) < gs[n].start
        ensures exists k :: 0 <= k < |gs| && gs[k].start == PeriodStart(r, a[i].time)
      {
        var k :| 0 <= k < n && gs[..n][k].start == PeriodStart(r, a[i].time);
        assert gs[k].start == PeriodStart(r, a[i].time);
      }
      assert forall i :: 0 <= i < |b| ==> gs[n].start == PeriodStart(r, b[i].time);
    }
  }

  /** The bars of a stream, with the final flush, are those of the whole tick
      list grouped by period exactly when no tick is older than the period of a
      tick before it. */
  lemma StreamIsBatchIff(r: Resolution, ticks: seq<Tick>)
    ensures Streamed(r, ticks) == Batch(r, ticks) <==> Ordered(r, ticks)
  {
    hide PeriodStart, Streamed;
    if Ordered(r, ticks) {
      OrderedStreamIsBatch(r, ticks);
    }
    if Streamed(r, ticks) == Batch(r, ticks) {
      StreamedKeepsTicks(r, ticks);
      StartsAre(r, ticks);
      var g, starts := Batch(r, ticks), Starts(r, ticks);
      forall i | 0 <= i < |g|
        ensures g[i].start == starts[i]
        ensures forall j :: 0 <= j < |g[i].ticks| ==> PeriodStart(r, g[i].ticks[j].time) == g[i].start
      {
        InPeriodOnly(r, ticks, starts[i]);
      }
      FlattenOrdered(r, g);
    }
  }

  /** A group is an unbroken stretch of the ticks: all those of its period,
      between the ticks of earlier and of later ones. */
  ghost predicate IsStretch(r: Resolution, ticks: seq<Tick>, g: Group, lo: nat, hi: nat) {
    && lo < hi <= |ticks| && g.ticks == ticks[lo..hi]
    && (forall i :: 0 <= i < lo ==> PeriodStart(r, ticks[i].time) < g.start)
    && (forall i :: lo <= i < hi ==> PeriodStart(r, ticks[i].time) == g.start)
    && (forall i :: hi <= i < |ticks| ==> PeriodStart(r, ticks[i].time) > g.start)
  }

  lemma {:induction false} StretchOfNew(r: Resolution, front: seq<Tick>, t: Tick)
    requires forall i :: 0 <= i < |front| ==> PeriodStart(r, front[i].time) < PeriodStart(r, t.time)
    ensures IsStretch(r, front + [t], Group(PeriodStart(r, t.time), [t]), |front|, |front| + 1)
  {
    hide PeriodStart;
    assert (front + [t])[|front|..|front| + 1] == [t];
  }

  lemma {:induction false} StretchGrows(r: Resolution, front: seq<Tick>, t: Tick, g: Group, lo: nat)
    requires IsStretch(r, front, g, lo, |front|) && PeriodStart(r, t.time) == g.start
    ensures IsStretch(r, front + [t], Group(g.start, g.ticks + [t]), lo, |front| + 1)
  {
    hide PeriodStart;
    assert (front + [t])[lo..|front| + 1] == front[lo..|front|] + [t];
  }

  lemma {:induction false} StretchStays(r: Resolution, front: seq<Tick>, t: Tick, g: Group, lo: nat, hi: nat)
    requires IsStretch(r, front, g, lo, hi) && PeriodStart(r, t.time) > g.start
    ensures IsStretch(r, front + [t], g, lo, hi)
  {
    hide PeriodStart;
    assert (front + [t])[lo..hi] == front[lo..hi];
  }

  /** In order, every group is a stretch, and the last one reaches to the end. */
  lemma {:induction false} GroupIsStretch(r: Resolution, ticks: seq<Tick>, n: nat) returns (lo: nat, hi: nat)
    requires Ordered(r, ticks) && n < |Streamed(r, ticks)|
    ensures IsStretch(r, ticks, Streamed(r, ticks)[n], lo, hi) && (hi == |ticks| <==> n == |Streamed(r, ticks)| - 1)
  {
    hide PeriodStart, Streamed, IsStretch, Ordered;
    if |ticks| == 0 {
      assert ticks == [];
      NoneStreamed(r);
    } else if |ticks| == 1 {
      assert ticks == [ticks[0]] == [] + [ticks[0]];
      OneStreamed(r, ticks[0]);
      StretchOfNew(r, [], ticks[0]);
      lo, hi := 0, 1;
    } else {
      var front, t := ticks[..|ticks| - 1], ticks[|ticks| - 1];
      var g, p, q := Streamed(r, front), PeriodStart(r, t.time), PeriodStart(r, ticks[|ticks| - 2].time);
      assert ticks == front + [t] && front[|front| - 1] == ticks[|ticks| - 2];
      FrontOrdered(r, front, t);
      StreamedSnoc(r, ticks);
      if n == |g| {
        StretchOfNew(r, front, t);
        lo, hi := |front|, |ticks|;
      } else {
        lo, hi := GroupIsStretch(r, front, n);
        StretchPeriods(r, front, g[n], lo, hi);
        if n == |g| - 1 && p == q {
          StretchGrows(r, front, t, g[n], lo);
          hi := |ticks|;
        } else {
          StretchStays(r, front, t, g[n], lo, hi);
        }
      }
    }
  }

  lemma {:induction false} FrontOrdered(r: Resolution, front: seq<Tick>, t: Tick)
    requires |front| > 0 && Ordered(r, front + [t])
    ensures Ordered(r, front)
    ensures var p, q := PeriodStart(r, t.time), PeriodStart(r, front[|front| - 1].time);
            q <= p && (q < p ==> forall i :: 0 <= i < |front| ==> PeriodStart(r, front[i].time) < p)
  {
    hide PeriodStart;
    var ticks := front + [t];
    assert forall i :: 0 <= i < |front| ==> ticks[i] == front[i];
    assert ticks[|front|] == t;
  }

  lemma {:induction false} StretchPeriods(r: Resolution, ticks: seq<Tick>, g: Group, lo: nat, hi: nat)
    requires IsStretch(r, ticks, g, lo, hi)
    ensures |ticks| > 0 && hi <= |ticks|
    ensures var q := PeriodStart(r, ticks[|ticks| - 1].time); if hi == |ticks| then q == g.start else q > g.start
  {
  }

  lemma NoneStreamed(r: Resolution)
    ensures Streamed(r, []) == []
  {
  }

  /** In order, each bar tells of all the ticks of one period: it opens at the
      middle price of the first, closes at that of the last, its high and low are
      the largest and smallest middle prices, and its volume is the sum of the
      quoted sizes. */
  lemma {:induction false} BarTellsPeriod(r: Resolution, ticks: seq<Tick>, n: nat, running: seq<real>) returns (lo: nat, hi: nat)
    requires Ordered(r, ticks) && n < |Streamed(r, ticks)| && SizesAddUp(ticks, running)
    ensures lo < hi <= |ticks| && |Streamed(r, ticks)[n].ticks| > 0
    ensures var b := CreateBar(Streamed(r, ticks)[n]);
            && (forall i :: 0 <= i < |ticks| ==> (PeriodStart(r, ticks[i].time) == b.time <==> lo <= i < hi))
            && 2.0 * b.first == ticks[lo].bid + ticks[lo].ask
            && 2.0 * b.last == ticks[hi - 1].bid + ticks[hi - 1].ask
            && (forall i :: lo <= i < hi ==> 2.0 * b.low <= ticks[i].bid + ticks[i].ask <= 2.0 * b.high)
            && (exists i :: lo <= i < hi && ticks[i].bid + ticks[i].ask == 2.0 * b.high)
            && (exists i :: lo <= i < hi && ticks[i].bid + ticks[i].ask == 2.0 * b.low)
            && b.volume == running[hi] - running[lo]
  {
    hide PeriodStart, Streamed, MaxMid, MinMid, TotalVolume;
    lo, hi := GroupIsStretch(r, ticks, n);
    var g := Streamed(r, ticks)[n];
    StretchVolume(ticks, running, lo, hi);
    forall i | lo <= i < hi
      ensures CreateBar(g).low <= Mid(ticks[i]) <= CreateBar(g).high
    {
      BarSpans(g, i - lo);
    }
    BarSpans(g, 0);
    var j :| 0 <= j < |g.ticks| && Mid(g.ticks[j]) == CreateBar(g).high;
    var k :| 0 <= k < |g.ticks| && Mid(g.ticks[k]) == CreateBar(g).low;
    assert ticks[lo + j] == g.ticks[j] && ticks[lo + k] == g.ticks[k];
  }

  lemma {:induction false} StretchVolume(ticks: seq<Tick>, running: seq<real>, lo: nat, hi: nat)
    requires SizesAddUp(ticks, running) && lo <= hi <= |ticks|
    ensures TotalVolume(ticks[lo..hi]) == running[hi] - running[lo]
  {
    var own := seq(hi - lo + 1, i requires 0 <= i <= hi - lo => running[lo + i] - running[lo]);
    TotalVolumeIs(ticks[lo..hi], own);
  }

  /** In order, bar times strictly increase. */
  lemma BarTimesIncrease(r: Resolution, ticks: seq<Tick>)
    requires Ordered(r, ticks)
    ensures var g := Streamed(r, ticks); forall i, j :: 0 <= i < j < |g| ==> g[i].start < g[j].start
  {
    hide PeriodStart, Streamed;
    OrderedStreamIsBatch(r, ticks);
    StartsAre(r, ticks);
  }

  function BarVolume(gs: seq<Group>): real
    requires NoneEmpty(gs)
  {
    if |gs| == 0 then 0.0 else BarVolume(gs[..|gs| - 1]) + CreateBar(gs[|gs| - 1]).volume
  }

  lemma {:induction false} VolumeConcat(a: seq<Tick>, b: seq<Tick>)
    ensures TotalVolume(a + b) == TotalVolume(a) + TotalVolume(b)
  {
    if |b| == 0 {
      assert a + b == a;
    } else {
      VolumeConcat(a, b[..|b| - 1]);
      assert (a + b)[..|a + b| - 1] == a + b[..|b| - 1];
    }
  }

  lemma {:induction false} FlattenVolume(gs: seq<Group>)
    requires NoneEmpty(gs)
    ensures BarVolume(gs) == TotalVolume(Flatten(gs))
  {
    if |gs| > 0 {
      FlattenVolume(gs[..|gs| - 1]);
      VolumeConcat(Flatten(gs[..|gs| - 1]), gs[|gs| - 1].ticks);
    }
  }

  /** The bars carry the volume of all ticks, in whatever order they came. */
  lemma {:induction false} VolumeConserved(r: Resolution, ticks: seq<Tick>)
    ensures NoneEmpty(Streamed(r, ticks))
    ensures BarVolume(Streamed(r, ticks)) == TotalVolume(ticks)
  {
    StreamedKeepsTicks(r, ticks);
    FlattenVolume(Streamed(r, ticks));
  }

  // ------------------------------------------------------------ many symbols

  function StreamOf(m: map<Symbol, Stream>, s: Symbol): Stream {
    if s in m then m[s] else QUIET
  }

  function AfterAll(r: Resolution, ticks: seq<Tick>): map<Symbol, Stream> {
    if |ticks| == 0 then map[]
    else
      var m, t := AfterAll(r, ticks[..|ticks| - 1]), ticks[|ticks| - 1];
      m[t.symbol := Add(r, StreamOf(m, t.symbol), t)]
  }

  function OfSymbol(ticks: seq<Tick>, s: Symbol): seq<Tick> {
    if |ticks| == 0 then []
    else
      var t := ticks[|ticks| - 1];
      OfSymbol(ticks[..|ticks| - 1], s) + if t.symbol == s then [t] else []
  }

  /** The groups that a stream of many symbols emits for one of them. */
  function EmittedFor(r: Resolution, ticks: seq<Tick>, s: Symbol): seq<Group> {
    if |ticks| == 0 then []
    else
      var front, t := ticks[..|ticks| - 1], ticks[|ticks| - 1];
      var e := Emitted(r, StreamOf(AfterAll(r, front), t.symbol), t);
      EmittedFor(r, front, s) + if t.symbol == s && e.Some? then [e.value] else []
  }

  /** Symbols do not disturb each other: each sees its own ticks only. */
  lemma {:induction false} SymbolsIndependent(r: Resolution, ticks: seq<Tick>, s: Symbol)
    ensures StreamOf(AfterAll(r, ticks), s) == After(r, OfSymbol(ticks, s))
    ensures EmittedFor(r, ticks, s) == During(r, OfSymbol(ticks, s))
  {
    hide Add, Emitted;
    if |ticks| > 0 {
      var front, t := ticks[..|ticks| - 1], ticks[|ticks| - 1];
      SymbolsIndependent(r, front, s);
      var own := OfSymbol(front, s);
      if t.symbol == s {
        assert OfSymbol(ticks, s) == own + [t];
        OwnTick(r, own, t);
        assert StreamOf(AfterAll(r, front), t.symbol) == After(r, own);
      } else {
        assert OfSymbol(ticks, s) == own;
      }
    }
  }

  // ------------------------------------------------------- the mutable form

  class DataAggregator {
    const resolution: Resolution
    var buffers: map<Symbol, seq<Tick>>
    var lastBarTime: map<Symbol, int>

    function Streams(s: Symbol): Stream
      reads this
    {
      Stream(if s in buffers then buffers[s] else [],
             if s in lastBarTime then Some(lastBarTime[s]) else None)
    }

    constructor (resolution: Resolution)
      ensures this.resolution == resolution && forall s :: Streams(s) == QUIET
    {
      this.resolution := resolution;
      buffers, lastBarTime := map[], map[];
    }

    /** Takes a tick and returns the bar it completes, if any. */
    method AddTick(tick: Tick) returns (bar: Option<Bar>)
      modifies this
      ensures Streams(tick.symbol) == Add(resolution, old(Streams(tick.symbol)), tick)
      ensures forall s :: s != tick.symbol ==> Streams(s) == old(Streams(s))
      ensures var e := Emitted(resolution, old(Streams(tick.symbol)), tick);
              bar == if e.Some? then Some(CreateBar(e.value)) else None
    {
      var symbol := tick.symbol;
      var buffer := if symbol in buffers then buffers[symbol] else [];
      var periodStart := PeriodStart(resolution, tick.time);
      if symbol in lastBarTime {
        var lastPeriod := PeriodStart(resolution, lastBarTime[symbol]);
        if periodStart > lastPeriod && |buffer| > 0 {
          bar := Some(CreateBar(Group(lastPeriod, buffer)));
          buffers := buffers[symbol := [tick]];
          lastBarTime := lastBarTime[symbol := tick.time];
          return;
        }
      }
      buffers := buffers[symbol := buffer + [tick]];
      lastBarTime := lastBarTime[symbol := tick.time];
      bar := None;
    }

    /** Completes the pending bars of one symbol or of all, each once. */
    method Flush(symbol: Option<Symbol>) returns (bars: map<Symbol, Bar>)
      requires forall s :: s in buffers && |buffers[s]| > 0 ==> s in lastBarTime
      modifies this`buffers
      ensures forall s :: s in bars <==>
                (symbol.None? || symbol.value == s) && PendingBar(resolution, old(Streams(s))).Some?
      ensures forall s :: s in bars ==> Some(bars[s]) == PendingBar(resolution, old(Streams(s)))
      ensures forall s :: Streams(s) == if symbol.None? || symbol.value == s
                                        then old(Streams(s)).(buffer := []) else old(Streams(s))
    {
      hide PeriodStart, CreateBar, Rest, PendingBar;
      bars := map[];
      var todo := if symbol.Some? then {symbol.value} else buffers.Keys;
      ghost var chosen := todo;
      forall s | s !in buffers
        ensures PendingBar(resolution, Streams(s)).None?
        ensures Streams(s).(buffer := []) == Streams(s)
      {
        NonePending(resolution, Streams(s));
      }
      hide Streams;
      while todo != {}
        invariant todo <= chosen
        invariant forall s :: s in buffers && |buffers[s]| > 0 ==> s in lastBarTime
        invariant forall s :: s in bars <==> s in chosen - todo && PendingBar(resolution, old(Streams(s))).Some?
        invariant forall s :: s in bars ==> Some(bars[s]) == PendingBar(resolution, old(Streams(s)))
        invariant forall s :: Streams(s) == if s in chosen - todo then old(Streams(s)).(buffer := []) else old(Streams(s))
        decreases todo
      {
        var s :| s in todo;
        var bar := FlushOne(s);
        if bar.Some? {
          bars := bars[s := bar.value];
        }
        todo := todo - {s};
      }
    }

    /** Completes the pending bar of one symbol. */
    method FlushOne(symbol: Symbol) returns (bar: Option<Bar>)
      requires forall s :: s in buffers && |buffers[s]| > 0 ==> s in lastBarTime
      modifies this`buffers
      ensures forall s :: s in buffers && |buffers[s]| > 0 ==> s in lastBarTime
      ensures bar == PendingBar(resolution, old(Streams(symbol)))
      ensures forall s :: Streams(s) == if s == symbol then old(Streams(s)).(buffer := []) else old(Streams(s))
    {
      hide PeriodStart, CreateBar, Rest;
      bar := None;
      if symbol in buffers && |buffers[symbol]| > 0 {
        bar := Some(CreateBar(Group(PeriodStart(resolution, lastBarTime[symbol]), buffers[symbol])));
        buffers := buffers[symbol := []];
      }
    }

    static lemma NonePending(r: Resolution, s: Stream)
      requires s.buffer == []
      ensures PendingBar(r, s) == None
    {
    }
  }
}
