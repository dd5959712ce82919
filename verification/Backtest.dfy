/** Replay of historical bars: a merge of per-symbol series by time. */
module Backtest {
  import opened Market
  import opened Sequences

  datatype Bar = Bar(time: int, close: real)

  datatype Config = Config(start: int, end: int, symbols: seq<Symbol>)

  /** A bar event as the strategies see it. */
  datatype Emitted = Emitted(symbol: Symbol, bar: Bar)

  // ---------------------------------------------------------------- loading

  function InRange(c: Config, bars: seq<Bar>): seq<Bar> {
    if |bars| == 0 then []
    else
      var b := bars[|bars| - 1];
      InRange(c, bars[..|bars| - 1]) + if c.start <= b.time <= c.end then [b] else []
  }

  lemma {:induction false} InRangeNone(c: Config)
    ensures InRange(c, []) == []
  {
  }

  lemma {:induction false} InRangeSnoc(c: Config, bars: seq<Bar>, i: nat)
    requires i < |bars|
    ensures InRange(c, bars[..i + 1])
            == InRange(c, bars[..i]) + if c.start <= bars[i].time <= c.end then [bars[i]] else []
  {
    assert bars[..i + 1][..i] == bars[..i];
  }

  function TimeOf(b: Bar): int { b.time }

  function Loaded(c: Config, bars: seq<Bar>): seq<Bar> {
    SortBy(InRange(c, bars), TimeOf)
  }

  predicate Sorted(bars: seq<Bar>) { SortedBy(bars, TimeOf) }

  /** Loading keeps exactly the bars of the date range, sorted by time; bars of
      one time keep their order. */
  lemma {:induction false} LoadedIs(c: Config, bars: seq<Bar>, b: Bar)
    ensures Sorted(Loaded(c, bars))
    ensures multiset(Loaded(c, bars))[b] == if c.start <= b.time <= c.end then multiset(bars)[b] else 0
    ensures WithKey(Loaded(c, bars), TimeOf, b.time) == WithKey(InRange(c, bars), TimeOf, b.time)
  {
    hide SortBy, InRange, WithKey;
    SortByIs(InRange(c, bars), TimeOf);
    SortStable(InRange(c, bars), TimeOf, b.time);
    InRangeCounts(c, bars, b);
  }

  lemma {:induction false} InRangeCounts(c: Config, bars: seq<Bar>, b: Bar)
    ensures multiset(InRange(c, bars))[b] == if c.start <= b.time <= c.end then multiset(bars)[b] else 0
  {
    if |bars| > 0 {
      var n := |bars| - 1;
      var kept, inside := InRange(c, bars[..n]), c.start <= bars[n].time <= c.end;
      InRangeCounts(c, bars[..n], b);
      assert InRange(c, bars) == if inside then kept + [bars[n]] else kept by {
        assert kept + [] == kept;
      }
      hide InRange;
      CountStep(bars, kept, b, inside, c.start <= b.time <= c.end);
    }
  }

  lemma {:induction false} CountStep(bars: seq<Bar>, kept: seq<Bar>, b: Bar, inside: bool, counted: bool)
    requires |bars| > 0 && (bars[|bars| - 1] == b ==> inside == counted)
    requires multiset(kept)[b] == if counted then multiset(bars[..|bars| - 1])[b] else 0
    ensures multiset(if inside then kept + [bars[|bars| - 1]] else kept)[b] == if counted then multiset(bars)[b] else 0
  {
    var n := |bars| - 1;
    CountSnoc(bars[..n], bars[n], b);
    CountSnoc(kept, bars[n], b);
    assert bars == bars[..n] + [bars[n]];
  }

  lemma {:induction false} CountSnoc(s: seq<Bar>, x: Bar, b: Bar)
    ensures multiset(s + [x])[b] == multiset(s)[b] + if x == b then 1 else 0
  {
  }

  // ----------------------------------------------------------------- replay

  /** The cursors of a replay and the bar events emitted so far. */
  datatype Feed = Feed(index: map<Symbol, nat>, events: seq<Emitted>)

  function Cursor(f: Feed, s: Symbol): nat {
    if s in f.index then f.index[s] else 0
  }

  /** Nothing emitted and every cursor at the start, as after loading. */
  ghost predicate IsFresh(f: Feed) {
    f.events == [] && forall s :: Cursor(f, s) == 0
  }

  function BarsOf(data: map<Symbol, seq<Bar>>, s: Symbol): seq<Bar> {
    if s in data then data[s] else []
  }

  /** One symbol at a time: the bar under its cursor is emitted if it is due. */
  function Visit(data: map<Symbol, seq<Bar>>, f: Feed, s: Symbol, t: int): Feed {
    var bars, i := BarsOf(data, s), Cursor(f, s);
    if i < |bars| && bars[i].time == t then Feed(f.index[s := i + 1], f.events + [Emitted(s, bars[i])]) else f
  }

  /** All configured symbols at a time, in their order. */
  function Pass(data: map<Symbol, seq<Bar>>, symbols: seq<Symbol>, f: Feed, t: int): Feed {
    if |symbols| == 0 then f
    else Visit(data, Pass(data, symbols[..|symbols| - 1], f, t), symbols[|symbols| - 1], t)
  }

  function Replay(data: map<Symbol, seq<Bar>>, symbols: seq<Symbol>, f: Feed, times: seq<int>): Feed {
    if |times| == 0 then f
    else Pass(data, symbols, Replay(data, symbols, f, times[..|times| - 1]), times[|times| - 1])
  }

  /** The times of the replay are those of all loaded bars. */
  predicate Covers(times: seq<int>, bars: seq<Bar>) {
    forall i :: 0 <= i < |bars| ==> bars[i].time in times
  }

  // ------------------------------------------------------- one symbol's cursor

  /** How often a symbol is configured. */
  function Listings(symbols: seq<Symbol>, s: Symbol): nat {
    if |symbols| == 0 then 0
    else Listings(symbols[..|symbols| - 1], s) + if symbols[|symbols| - 1] == s then 1 else 0
  }

  /** A cursor after `m` visits at one time. */
  function Advance(bars: seq<Bar>, i: nat, t: int, m: nat): (r: nat)
    ensures i <= r <= i + m
  {
    if m == 0 then i
    else
      var j := Advance(bars, i, t, m - 1);
      if j < |bars| && bars[j].time == t then j + 1 else j
  }

  /** A cursor that starts at 0 after `m` visits at each of some times. */
  function Walk(bars: seq<Bar>, times: seq<int>, m: nat): nat {
    if |times| == 0 then 0 else Advance(bars, Walk(bars, times[..|times| - 1], m), times[|times| - 1], m)
  }

  /** The bars passed are those of the time; short of `m` there is no further one. */
  lemma {:induction false} AdvanceIs(bars: seq<Bar>, i: nat, t: int, m: nat)
    requires i <= |bars|
    ensures var r := Advance(bars, i, t, m);
            && r <= |bars|
            && (forall k :: i <= k < r ==> bars[k].time == t)
            && (r < i + m ==> r == |bars| || bars[r].time != t)
  {
    if m > 0 {
      AdvanceIs(bars, i, t, m - 1);
    }
  }

  lemma {:induction false} WalkBounded(bars: seq<Bar>, times: seq<int>, m: nat)
    ensures Walk(bars, times, m) <= |bars|
  {
    if |times| > 0 {
      WalkBounded(bars, times[..|times| - 1], m);
      AdvanceIs(bars, Walk(bars, times[..|times| - 1], m), times[|times| - 1], m);
    }
  }

  // ---------------------------------------------------------- no look-ahead

  /** The number of bars at or before a time. */
  function CountUpTo(bars: seq<Bar>, t: int): (r: nat)
    ensures r <= |bars|
  {
    if |bars| == 0 then 0
    else CountUpTo(bars[..|bars| - 1], t) + if bars[|bars| - 1].time <= t then 1 else 0
  }

  lemma {:induction false} CountSorted(bars: seq<Bar>, t: int, i: nat)
    requires Sorted(bars) && i < |bars|
    ensures bars[i].time <= t <==> i < CountUpTo(bars, t)
  {
    var n := |bars| - 1;
    if i < n {
      CountSorted(bars[..n], t, i);
      if bars[n].time <= t {
        CountAll(bars[..n], t);
      }
    } else if bars[n].time <= t {
      CountAll(bars[..n], t);
    }
  }

  lemma {:induction false} CountAll(bars: seq<Bar>, t: int)
    requires forall i :: 0 <= i < |bars| ==> bars[i].time <= t
    ensures CountUpTo(bars, t) == |bars|
  {
    if |bars| > 0 {
      CountAll(bars[..|bars| - 1], t);
    }
  }

  /** Whatever the data and the configuration, the cursor never runs ahead of the
      clock. */
  lemma {:induction false} NoLookAhead(bars: seq<Bar>, times: seq<int>, m: nat)
    requires Sorted(bars) && Ascending(times) && |times| > 0
    ensures Walk(bars, times, m) <= CountUpTo(bars, times[|times| - 1])
  {
    var n := |times| - 1;
    var i, r := Walk(bars, times[..n], m), Walk(bars, times, m);
    WalkBounded(bars, times[..n], m);
    AdvanceIs(bars, i, times[n], m);
    if i < r {
      CountSorted(bars, times[n], r - 1);
    } else if n > 0 {
      NoLookAhead(bars, times[..n], m);
      CountMonotone(bars, times[n - 1], times[n]);
    }
  }

  lemma {:induction false} CountMonotone(bars: seq<Bar>, t: int, u: int)
    requires t <= u
    ensures CountUpTo(bars, t) <= CountUpTo(bars, u)
  {
    if |bars| > 0 {
      CountMonotone(bars[..|bars| - 1], t, u);
    }
  }

  /** No time is shared by more than `m` bars: for `m` of 1, times increase
      strictly; for 0, there are no bars. */
  predicate Sparse(bars: seq<Bar>, m: nat) {
    forall i :: 0 <= i && i + m < |bars| ==> bars[i].time < bars[i + m].time
  }

  /** After `m` bars of a time there is no further one. */
  lemma SparseStops(bars: seq<Bar>, i: nat, r: nat, t: int, m: nat)
    requires Sparse(bars, m) && i <= r <= i + m && r <= |bars|
    requires forall k :: i <= k < r ==> bars[k].time == t
    requires r < i + m ==> r == |bars| || bars[r].time != t
    ensures r < |bars| ==> bars[r].time != t
  {
    if r < |bars| && r == i + m {
      assert bars[i].time < bars[i + m].time;
    }
  }

  /** With no more bars of a time than listings the cursor is exactly the number
      of bars at or before the clock. */
  lemma {:induction false} WalkCounts(bars: seq<Bar>, times: seq<int>, all: seq<int>, m: nat)
    requires Sorted(bars) && Sparse(bars, m) && Ascending(all) && Covers(all, bars)
    requires 0 < |times| <= |all| && times == all[..|times|]
    ensures Walk(bars, times, m) == CountUpTo(bars, times[|times| - 1])
  {
    var n, t := |times| - 1, times[|times| - 1];
    var i, r := Walk(bars, times[..n], m), Walk(bars, times, m);
    WalkBounded(bars, times[..n], m);
    AdvanceIs(bars, i, t, m);
    if n > 0 {
      assert times[..n] == all[..n];
      WalkCounts(bars, times[..n], all, m);
    }
    // Every bar before position i is at or before the previous time.
    if 0 < i {
      CountSorted(bars, times[n - 1], i - 1);
    }
    if i < |bars| {
      if n > 0 {
        CountSorted(bars, times[n - 1], i);
      }
      NextBar(bars, all, n, i);
      SparseStops(bars, i, r, t, m);
    }
    CountIs(bars, t, r);
  }

  /** A bar later than all earlier times is not before the current one. */
  lemma NextBar(bars: seq<Bar>, all: seq<int>, n: nat, i: nat)
    requires Ascending(all) && Covers(all, bars) && n < |all| && i < |bars|
    requires n > 0 ==> bars[i].time > all[n - 1]
    ensures bars[i].time >= all[n]
  {
    var k :| 0 <= k < |all| && all[k] == bars[i].time;
    assert k >= n;
  }

  lemma {:induction false} CountIs(bars: seq<Bar>, t: int, k: nat)
    requires Sorted(bars) && k <= |bars|
    requires 0 < k ==> bars[k - 1].time <= t
    requires k < |bars| ==> bars[k].time > t
    ensures CountUpTo(bars, t) == k
  {
    if 0 < k {
      CountSorted(bars, t, k - 1);
    }
    if k < |bars| {
      CountSorted(bars, t, k);
    }
  }

  // ----------------------------------------------------- every bar, just once

  /** The bars of one symbol among the emitted events, in order. */
  function Of(events: seq<Emitted>, s: Symbol): seq<Bar> {
    if |events| == 0 then []
    else
      var e := events[|events| - 1];
      Of(events[..|events| - 1], s) + if e.symbol == s then [e.bar] else []
  }

  lemma {:induction false} OfConcat(a: seq<Emitted>, b: seq<Emitted>, s: Symbol)
    ensures Of(a + b, s) == Of(a, s) + Of(b, s)
  {
    if |b| == 0 {
      assert a + b == a;
    } else {
      OfConcat(a, b[..|b| - 1], s);
      assert (a + b)[..|a + b| - 1] == a + b[..|b| - 1];
    }
  }

  /** One pass moves each cursor on its own, as often as its symbol is listed. */
  lemma {:induction false} PassCursor(data: map<Symbol, seq<Bar>>, symbols: seq<Symbol>, f: Feed, t: int, s: Symbol)
    ensures Cursor(Pass(data, symbols, f, t), s)
            == Advance(BarsOf(data, s), Cursor(f, s), t, Listings(symbols, s))
  {
    if |symbols| > 0 {
      PassCursor(data, symbols[..|symbols| - 1], f, t, s);
    }
  }

  lemma {:induction false} ReplayCursor(data: map<Symbol, seq<Bar>>, symbols: seq<Symbol>, f: Feed, times: seq<int>, s: Symbol)
    requires IsFresh(f)
    ensures Cursor(Replay(data, symbols, f, times), s) == Walk(BarsOf(data, s), times, Listings(symbols, s))
  {
    hide Pass, Cursor;
    if |times| > 0 {
      var n := |times| - 1;
      ReplayCursor(data, symbols, f, times[..n], s);
      PassCursor(data, symbols, Replay(data, symbols, f, times[..n]), times[n], s);
    }
  }

  /** What has been emitted of a symbol is its bars up to its cursor. */
  ghost predicate EmittedUpTo(data: map<Symbol, seq<Bar>>, f: Feed, s: Symbol) {
    Cursor(f, s) <= |BarsOf(data, s)| && Of(f.events, s) == BarsOf(data, s)[..Cursor(f, s)]
  }

  lemma VisitKeeps(data: map<Symbol, seq<Bar>>, f: Feed, v: Symbol, t: int, s: Symbol)
    requires EmittedUpTo(data, f, s)
    ensures EmittedUpTo(data, Visit(data, f, v, t), s)
  {
    var bars, i := BarsOf(data, v), Cursor(f, v);
    if i < |bars| && bars[i].time == t {
      var e := Emitted(v, bars[i]);
      assert (f.events + [e])[..|f.events|] == f.events;
      if v == s {
        assert bars[..i + 1] == bars[..i] + [bars[i]];
      }
    }
  }

  lemma {:induction false} PassKeeps(data: map<Symbol, seq<Bar>>, symbols: seq<Symbol>, f: Feed, t: int, s: Symbol)
    requires EmittedUpTo(data, f, s)
    ensures EmittedUpTo(data, Pass(data, symbols, f, t), s)
  {
    hide EmittedUpTo, Visit;
    if |symbols| > 0 {
      var n := |symbols| - 1;
      PassKeeps(data, symbols[..n], f, t, s);
      VisitKeeps(data, Pass(data, symbols[..n], f, t), symbols[n], t, s);
    }
  }

  /** For every configuration, the events of a symbol are its bars up to its
      cursor, in order and once each. */
  lemma {:induction false} OfReplay(data: map<Symbol, seq<Bar>>, symbols: seq<Symbol>, f: Feed, times: seq<int>, s: Symbol)
    requires IsFresh(f)
    ensures var n := Walk(BarsOf(data, s), times, Listings(symbols, s));
            n <= |BarsOf(data, s)| && Of(Replay(data, symbols, f, times).events, s) == BarsOf(data, s)[..n]
  {
    ReplayKeeps(data, symbols, f, times, s);
    ReplayCursor(data, symbols, f, times, s);
  }

  lemma {:induction false} ReplayKeeps(data: map<Symbol, seq<Bar>>, symbols: seq<Symbol>, f: Feed, times: seq<int>, s: Symbol)
    requires IsFresh(f)
    ensures EmittedUpTo(data, Replay(data, symbols, f, times), s)
  {
    if |times| > 0 {
      hide EmittedUpTo, Pass;
      var n := |times| - 1;
      ReplayKeeps(data, symbols, f, times[..n], s);
      PassKeeps(data, symbols, Replay(data, symbols, f, times[..n]), times[n], s);
    }
  }

  /** A time shared by more bars than listings stops the cursor for good behind
      the ones that were emitted. */
  lemma {:induction false} StuckBehind(bars: seq<Bar>, times: seq<int>, m: nat, d: nat)
    requires Sorted(bars) && Ascending(times)
    requires d + m < |bars| && bars[d].time == bars[d + m].time
    ensures Walk(bars, times, m) <= d + m
    ensures Walk(bars, times, m) > d ==> |times| > 0 && times[|times| - 1] >= bars[d].time
  {
    if |times| > 0 {
      var n := |times| - 1;
      var i := Walk(bars, times[..n], m);
      StuckBehind(bars, times[..n], m, d);
      WalkBounded(bars, times[..n], m);
      AdvanceIs(bars, i, times[n], m);
      StuckStep(bars, i, times[n], m, d);
    }
  }

  lemma {:induction false} StuckStep(bars: seq<Bar>, i: nat, t: int, m: nat, d: nat)
    requires Sorted(bars) && d + m < |bars| && bars[d].time == bars[d + m].time
    requires i <= d + m && (i > d ==> t > bars[d].time)
    ensures Advance(bars, i, t, m) <= d + m
    ensures Advance(bars, i, t, m) > d ==> t >= bars[d].time
  {
    var r := Advance(bars, i, t, m);
    AdvanceIs(bars, i, t, m);
    if i > d {
      assert bars[i].time <= bars[d + m].time;
      assert r == i;
    } else if r > d {
      assert bars[d].time == t;
    }
  }

  /** The replay emits every bar of a series exactly when no time is shared by
      more bars than the symbol is listed; otherwise the rest of it is lost. */
  lemma {:induction false} WholeSeriesIff(bars: seq<Bar>, times: seq<int>, m: nat)
    requires Sorted(bars) && Ascending(times) && Covers(times, bars)
    ensures Walk(bars, times, m) == |bars| <==> Sparse(bars, m)
  {
    hide Walk, Covers, Sorted;
    if Sparse(bars, m) {
      WholeWhenSparse(bars, times, m);
    } else {
      var i :| 0 <= i && i + m < |bars| && bars[i].time >= bars[i + m].time;
      SortedAt(bars, i, i + m);
      StuckBehind(bars, times, m, i);
    }
  }

  lemma SortedAt(bars: seq<Bar>, i: nat, j: nat)
    requires Sorted(bars) && i <= j < |bars|
    ensures bars[i].time <= bars[j].time
  {
  }

  lemma {:induction false} WholeWhenSparse(bars: seq<Bar>, times: seq<int>, m: nat)
    requires Sorted(bars) && Ascending(times) && Covers(times, bars) && Sparse(bars, m)
    ensures Walk(bars, times, m) == |bars|
  {
    BarsNeedTimes(bars, times);
    if |times| > 0 {
      hide Walk;
      assert times[..|times|] == times;
      WalkCounts(bars, times, times, m);
      forall i | 0 <= i < |bars|
        ensures bars[i].time <= times[|times| - 1]
      {
        var k :| 0 <= k < |times| && times[k] == bars[i].time;
      }
      CountAll(bars, times[|times| - 1]);
    }
  }

  lemma BarsNeedTimes(bars: seq<Bar>, times: seq<int>)
    requires Covers(times, bars)
    ensures |bars| > 0 ==> |times| > 0
  {
    if |bars| > 0 {
      assert bars[0].time in times;
    }
  }

  /** For every configuration, the replay of all loaded data is complete exactly
      when in every series no time is shared by more bars than the symbol is
      listed: listed once, times increase strictly; not listed, there are none. */
  lemma {:induction false} ReplayCompleteIff(data: map<Symbol, seq<Bar>>, symbols: seq<Symbol>, f: Feed, times: seq<int>)
    requires IsFresh(f) && Ascending(times)
    requires forall s :: s in data ==> Sorted(data[s]) && Covers(times, data[s])
    ensures (forall s :: s in data ==> Of(Replay(data, symbols, f, times).events, s) == data[s])
            <==> forall s :: s in data ==> Sparse(data[s], Listings(symbols, s))
  {
    hide Replay, Of, Walk, Sorted, Covers, Sparse, Listings;
    forall s | s in data
      ensures Of(Replay(data, symbols, f, times).events, s) == data[s]
              <==> Sparse(data[s], Listings(symbols, s))
    {
      var n := Walk(data[s], times, Listings(symbols, s));
      OfReplay(data, symbols, f, times, s);
      WholeSeriesIff(data[s], times, Listings(symbols, s));
      assert data[s][..n] == data[s] <==> n == |data[s]|;
    }
  }

  // ------------------------------------------------------------------ order

  function Position(symbols: seq<Symbol>, s: Symbol): nat {
    if |symbols| == 0 || symbols[0] == s then 0 else 1 + Position(symbols[1..], s)
  }

  /** Strictly by time, then by the order of the configured symbols. */
  predicate Precedes(symbols: seq<Symbol>, a: Emitted, b: Emitted) {
    a.bar.time < b.bar.time || (a.bar.time == b.bar.time && Position(symbols, a.symbol) < Position(symbols, b.symbol))
  }

  ghost predicate InOrder(symbols: seq<Symbol>, events: seq<Emitted>) {
    forall i, j :: 0 <= i < j < |events| ==> Precedes(symbols, events[i], events[j])
  }

  lemma {:induction false} PositionAt(symbols: seq<Symbol>, i: nat)
    requires NoRepeats(symbols) && i < |symbols|
    ensures Position(symbols, symbols[i]) == i
  {
    if i > 0 {
      PositionAt(symbols[1..], i - 1);
    }
  }

  /** A pass over the first `n` symbols appends events of its time; when no
      symbol repeats, their order is that of the symbols. */
  ghost predicate Appends(symbols: seq<Symbol>, n: nat, f: Feed, g: Feed, t: int) {
    var k, e := |f.events|, g.events;
    && k <= |e| && e[..k] == f.events
    && (forall i :: k <= i < |e| ==> e[i].bar.time == t)
    && (NoRepeats(symbols) ==>
          && (forall i :: k <= i < |e| ==> Position(symbols, e[i].symbol) < n)
          && (forall i, j :: k <= i < j < |e| ==> Position(symbols, e[i].symbol) < Position(symbols, e[j].symbol)))
  }

  lemma VisitAppends(data: map<Symbol, seq<Bar>>, symbols: seq<Symbol>, n: nat, f: Feed, g: Feed, t: int)
    requires n < |symbols| && Appends(symbols, n, f, g, t)
    ensures Appends(symbols, n + 1, f, Visit(data, g, symbols[n], t), t)
  {
    if NoRepeats(symbols) {
      PositionAt(symbols, n);
    }
    hide NoRepeats;
    var h := Visit(data, g, symbols[n], t);
    assert h.events[..|g.events|] == g.events;
    assert h.events[..|f.events|] == g.events[..|f.events|];
  }

  lemma {:induction false} PassAppends(data: map<Symbol, seq<Bar>>, symbols: seq<Symbol>, n: nat, f: Feed, t: int)
    requires n <= |symbols|
    ensures Appends(symbols, n, f, Pass(data, symbols[..n], f, t), t)
  {
    if n > 0 {
      hide Appends, Visit;
      PassAppends(data, symbols, n - 1, f, t);
      VisitAppends(data, symbols, n - 1, f, Pass(data, symbols[..n - 1], f, t), t);
      assert symbols[..n][..n - 1] == symbols[..n - 1] && symbols[..n][n - 1] == symbols[n - 1];
    }
  }

  /** Events come in order of time, at the given times. */
  ghost predicate InTime(events: seq<Emitted>, times: seq<int>) {
    && (forall i, j :: 0 <= i <= j < |events| ==> events[i].bar.time <= events[j].bar.time)
    && (forall i :: 0 <= i < |events| ==> events[i].bar.time in times)
  }

  lemma AppendsKeepsOrder(symbols: seq<Symbol>, f: Feed, g: Feed, times: seq<int>)
    requires |times| > 0 && Ascending(times) && Appends(symbols, |symbols|, f, g, times[|times| - 1])
    requires InTime(f.events, times[..|times| - 1]) && (NoRepeats(symbols) ==> InOrder(symbols, f.events))
    ensures InTime(g.events, times) && (NoRepeats(symbols) ==> InOrder(symbols, g.events))
  {
    hide NoRepeats, Position;
    var n, e := |times| - 1, g.events;
    forall i | 0 <= i < |f.events|
      ensures e[i] == f.events[i] && e[i].bar.time < times[n] && e[i].bar.time in times
    {
      assert e[..|f.events|][i] == f.events[i];
      var k :| 0 <= k < n && times[..n][k] == f.events[i].bar.time;
      assert times[k] == e[i].bar.time;
    }
  }

  /** Events come in order of time, at times of the replay; when no symbol is
      listed twice, strictly ordered by time and configured symbol, so that none
      is emitted twice. */
  lemma {:induction false} ReplayInOrder(data: map<Symbol, seq<Bar>>, symbols: seq<Symbol>, f: Feed, times: seq<int>)
    requires IsFresh(f) && Ascending(times)
    ensures InTime(Replay(data, symbols, f, times).events, times)
    ensures NoRepeats(symbols) ==> InOrder(symbols, Replay(data, symbols, f, times).events)
  {
    if |times| > 0 {
      hide Pass, NoRepeats, Appends, InOrder, InTime;
      var n := |times| - 1;
      var g := Replay(data, symbols, f, times[..n]);
      ReplayInOrder(data, symbols, f, times[..n]);
      PassAppends(data, symbols, |symbols|, g, times[n]);
      assert symbols[..|symbols|] == symbols;
      AppendsKeepsOrder(symbols, g, Pass(data, symbols, g, times[n]), times);
    }
  }

  // ------------------------------------------------------------- a second run

  /** Every configured symbol's cursor is at its end. */
  predicate Spent(data: map<Symbol, seq<Bar>>, symbols: seq<Symbol>, f: Feed) {
    forall s :: s in symbols ==> Cursor(f, s) >= |BarsOf(data, s)|
  }

  lemma {:induction false} SpentPass(data: map<Symbol, seq<Bar>>, symbols: seq<Symbol>, f: Feed, t: int)
    requires Spent(data, symbols, f)
    ensures Pass(data, symbols, f, t) == f
  {
    if |symbols| > 0 {
      SpentPass(data, symbols[..|symbols| - 1], f, t);
      assert symbols[|symbols| - 1] in symbols;
    }
  }

  /** Cursors are not reset: a replay over spent cursors emits nothing. */
  lemma {:induction false} SpentReplay(data: map<Symbol, seq<Bar>>, symbols: seq<Symbol>, f: Feed, times: seq<int>)
    requires Spent(data, symbols, f)
    ensures Replay(data, symbols, f, times) == f
  {
    hide Pass;
    if |times| > 0 {
      SpentReplay(data, symbols, f, times[..|times| - 1]);
      SpentPass(data, symbols, f, times[|times| - 1]);
    }
  }

  /** A replay that was complete leaves its cursors spent. */
  lemma {:induction false} CompleteIsSpent(data: map<Symbol, seq<Bar>>, symbols: seq<Symbol>, f: Feed, times: seq<int>)
    requires IsFresh(f) && Ascending(times)
    requires forall s :: s in data ==> Sorted(data[s]) && Covers(times, data[s]) && Sparse(data[s], Listings(symbols, s))
    ensures Spent(data, symbols, Replay(data, symbols, f, times))
  {
    hide Replay, Walk, Sorted, Covers, Sparse, Listings, Cursor;
    forall s | s in symbols
      ensures Cursor(Replay(data, symbols, f, times), s) >= |BarsOf(data, s)|
    {
      ReplayCursor(data, symbols, f, times, s);
      if s in data {
        WholeSeriesIff(data[s], times, Listings(symbols, s));
      }
    }
  }

  // ------------------------------------------------------- the mutable form

  class Engine {
    const config: Config
    var historicalData: map<Symbol, seq<Bar>>
    var currentIndex: map<Symbol, nat>
    /** The bar events in the order of their emission. */
    var events: seq<Emitted>

    function State(): Feed
      reads this
    {
      Feed(currentIndex, events)
    }

    constructor (config: Config)
      ensures this.config == config && historicalData == map[] && IsFresh(State())
    {
      this.config := config;
      historicalData, currentIndex, events := map[], map[], [];
    }

    method LoadHistoricalData(symbol: Symbol, data: seq<Bar>)
      modifies this`historicalData, this`currentIndex
      ensures historicalData == old(historicalData)[symbol := Loaded(config, data)]
      ensures currentIndex == old(currentIndex)[symbol := 0] && events == old(events)
      ensures Sorted(historicalData[symbol])
      ensures IsFresh(old(State())) ==> IsFresh(State())
    {
      hide SortBy, InRange, SortedBy;
      var filtered := [];
      var i := 0;
      assert data[..0] == [];
      InRangeNone(config);
      while i < |data|
        invariant 0 <= i <= |data| && filtered == InRange(config, data[..i])
        invariant historicalData == old(historicalData) && currentIndex == old(currentIndex)
      {
        InRangeSnoc(config, data, i);
        if config.start <= data[i].time <= config.end {
          filtered := filtered + [data[i]];
        }
        i := i + 1;
      }
      assert data[..i] == data;
      ghost var before := State();
      SortByIs(filtered, TimeOf);
      historicalData := historicalData[symbol := SortBy(filtered, TimeOf)];
      currentIndex := currentIndex[symbol := 0];
      if IsFresh(before) {
        forall s
          ensures Cursor(State(), s) == 0
        {
          assert Cursor(before, s) == 0;
        }
      }
    }

    /** All times of the loaded bars, ascending, each once. */
    method GetAllTimestamps() returns (times: seq<int>)
      ensures Ascending(times)
      ensures forall s :: s in historicalData ==> Covers(times, historicalData[s])
      ensures forall t :: t in times ==>
                exists s, i :: s in historicalData && 0 <= i < |historicalData[s]| && historicalData[s][i].time == t
    {
      times := [];
      var todo := historicalData.Keys;
      while todo != {}
        invariant todo <= historicalData.Keys && Ascending(times)
        invariant forall s :: s in historicalData && s !in todo ==> Covers(times, historicalData[s])
        invariant forall t :: t in times ==>
                    exists s, i :: s in historicalData && 0 <= i < |historicalData[s]| && historicalData[s][i].time == t
        decreases todo
      {
        var s :| s in todo;
        times := AddTimes(times, historicalData[s]);
        todo := todo - {s};
      }
    }

    /** Adds the times of one series to an ascending list. */
    static method AddTimes(known: seq<int>, bars: seq<Bar>) returns (times: seq<int>)
      requires Ascending(known)
      ensures Ascending(times) && Covers(times, bars)
      ensures forall t :: t in known ==> t in times
      ensures forall t :: t in times ==> t in known || exists i :: 0 <= i < |bars| && bars[i].time == t
    {
      times := known;
      var i := 0;
      while i < |bars|
        invariant 0 <= i <= |bars| && Ascending(times)
        invariant forall t :: t in known ==> t in times
        invariant forall j :: 0 <= j < i ==> bars[j].time in times
        invariant forall t :: t in times ==> t in known || exists j :: 0 <= j < |bars| && bars[j].time == t
      {
        InsertAscendingIs(times, bars[i].time);
        times := InsertAscending(times, bars[i].time);
        i := i + 1;
      }
    }

    /** One pass over the configured symbols at a time. */
    method ProcessTimestamp(timestamp: int)
      modifies this`currentIndex, this`events
      ensures State() == Pass(historicalData, config.symbols, old(State()), timestamp)
    {
      hide Visit;
      var n := 0;
      while n < |config.symbols|
        invariant 0 <= n <= |config.symbols|
        invariant State() == Pass(historicalData, config.symbols[..n], old(State()), timestamp)
      {
        assert config.symbols[..n + 1][..n] == config.symbols[..n];
        VisitSymbol(config.symbols[n], timestamp);
        n := n + 1;
      }
      assert config.symbols[..n] == config.symbols;
    }

    /** Emits the bar under the cursor of one symbol, if it is due. */
    method VisitSymbol(symbol: Symbol, timestamp: int)
      modifies this`currentIndex, this`events
      ensures State() == Visit(historicalData, old(State()), symbol, timestamp)
    {
      var bars := if symbol in historicalData then historicalData[symbol] else [];
      var index := if symbol in currentIndex then currentIndex[symbol] else 0;
      if index < |bars| && bars[index].time == timestamp {
        currentIndex := currentIndex[symbol := index + 1];
        events := events + [Emitted(symbol, bars[index])];
      }
    }

    /** The simulation loop, from whatever cursors there are. */
    method Run() returns (times: seq<int>)
      modifies this`currentIndex, this`events
      ensures Ascending(times) && forall s :: s in historicalData ==> Covers(times, historicalData[s])
      ensures State() == Replay(historicalData, config.symbols, old(State()), times)
      ensures IsFresh(old(State())) && (forall s :: s in historicalData ==> Sorted(historicalData[s])) ==>
                && InTime(events, times) && (NoRepeats(config.symbols) ==> InOrder(config.symbols, events))
                && ((forall s :: s in historicalData ==> Of(events, s) == historicalData[s])
                    <==> forall s :: s in historicalData ==> Sparse(historicalData[s], Listings(config.symbols, s)))
      ensures Spent(historicalData, config.symbols, old(State())) ==> State() == old(State())
    {
      hide Pass, Covers, Ascending, Sorted, InTime, InOrder, NoRepeats, Of, Sparse, Listings, Spent, IsFresh;
      times := GetAllTimestamps();
      var k := 0;
      while k < |times|
        invariant 0 <= k <= |times|
        invariant State() == Replay(historicalData, config.symbols, old(State()), times[..k])
      {
        assert times[..k + 1][..k] == times[..k];
        ProcessTimestamp(times[k]);
        k := k + 1;
      }
      assert times[..k] == times;
      hide Replay;
      if Spent(historicalData, config.symbols, old(State())) {
        SpentReplay(historicalData, config.symbols, old(State()), times);
      }
      if IsFresh(old(State())) && forall s :: s in historicalData ==> Sorted(historicalData[s]) {
        ReplayInOrder(historicalData, config.symbols, old(State()), times);
        ReplayCompleteIff(historicalData, config.symbols, old(State()), times);
      }
    }
  }
}
