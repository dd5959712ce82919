/** Sequence tracking of a market-data feed: which numbers arrived, the next one
    expected, and the gaps still open. */
module SequenceTracker {
  import opened Optional
  import opened Sequences

  /** An inclusive range of numbers that were skipped. */
  datatype Gap = Gap(start: int, end: int) {
    predicate Has(q: int) { start <= q <= end }

    function Width(): int { end - start + 1 }
  }

  datatype Tracker = Tracker(current: int, expected: int, received: set<int>, gaps: seq<Gap>)

  const FRESH := Tracker(0, 1, {}, [])

  predicate Filled(g: Gap, received: set<int>) {
    forall q :: g.start <= q <= g.end ==> q in received
  }

  /** The gaps that still miss something. */
  function Unresolved(gaps: seq<Gap>, received: set<int>): seq<Gap> {
    if |gaps| == 0 then []
    else
      var front := Unresolved(gaps[..|gaps| - 1], received);
      var g := gaps[|gaps| - 1];
      if Filled(g, received) then front else front + [g]
  }

  /** The gap that a new number opens. */
  function Opened(t: Tracker, q: int): Option<Gap> {
    if q !in t.received && q > t.expected then Some(Gap(t.expected, q - 1)) else None
  }

  /** The gap list once a new number has come in, before filtering. */
  function Grown(t: Tracker, q: int): seq<Gap> {
    if q > t.expected then t.gaps + [Gap(t.expected, q - 1)] else t.gaps
  }

  function Record(t: Tracker, q: int): Tracker {
    if q in t.received then t
    else
      var received := t.received + {q};
      Tracker(if q > t.current then q else t.current,
              if q >= t.expected then q + 1 else t.expected,
              received,
              Unresolved(Grown(t, q), received))
  }

  function MissingIn(start: int, end: int, received: set<int>): seq<int>
    decreases end - start
  {
    if start > end then []
    else MissingIn(start, end - 1, received) + (if end in received then [] else [end])
  }

  /** `get_missing_sequences`: the gaps are walked in order. */
  function Missing(gaps: seq<Gap>, received: set<int>): seq<int> {
    if |gaps| == 0 then []
    else
      var g := gaps[|gaps| - 1];
      Missing(gaps[..|gaps| - 1], received) + MissingIn(g.start, g.end, received)
  }

  // ------------------------------------------------------------------- runs

  datatype Event = Deliver(q: int) | Assign | Reset

  function Step(t: Tracker, e: Event): Tracker {
    match e
    case Deliver(q) => Record(t, q)
    case Assign => t.(current := t.current + 1)
    case Reset => FRESH
  }

  function Run(events: seq<Event>): Tracker {
    if |events| == 0 then FRESH
    else Step(Run(events[..|events| - 1]), events[|events| - 1])
  }

  // -------------------------------------------------------------- invariant

  ghost predicate Inv(t: Tracker) {
    && t.expected >= 1
    && t.current >= t.expected - 1
    && (forall q :: q in t.received ==> q < t.expected)
    && Apart(t.gaps)
    && (forall g :: g in t.gaps ==> 1 <= g.start && g.end < t.expected && !Filled(g, t.received))
    && (forall q :: 1 <= q < t.expected && q !in t.received ==> InSome(t.gaps, q))
  }

  /** Gaps are not empty, disjoint and ascending. */
  ghost predicate Apart(gaps: seq<Gap>) {
    && (forall i :: 0 <= i < |gaps| ==> gaps[i].start <= gaps[i].end)
    && (forall i, j :: 0 <= i < j < |gaps| ==> gaps[i].end < gaps[j].start)
  }

  predicate InSome(gaps: seq<Gap>, q: int) {
    exists i :: 0 <= i < |gaps| && gaps[i].Has(q)
  }

  /** What filtering keeps: exactly the unfilled gaps, in their order. */
  lemma {:induction false} UnresolvedKeeps(gaps: seq<Gap>, received: set<int>)
    requires Apart(gaps)
    ensures Apart(Unresolved(gaps, received))
    ensures forall g :: g in Unresolved(gaps, received) <==> g in gaps && !Filled(g, received)
  {
    if |gaps| > 0 {
      var n := |gaps| - 1;
      var front, f := gaps[..n], Unresolved(gaps[..n], received);
      assert Unresolved(gaps, received) == if Filled(gaps[n], received) then f else f + [gaps[n]];
      hide Unresolved, Filled;
      UnresolvedKeeps(front, received);
      assert gaps == front + [gaps[n]];
      forall g | g in f ensures g.end < gaps[n].start {
        var k :| 0 <= k < n && front[k] == g;
        assert gaps[k] == g;
      }
      ApartSnoc(f, gaps[n]);
    }
  }

  lemma ApartSnoc(gaps: seq<Gap>, g: Gap)
    requires Apart(gaps) && g.start <= g.end && forall h :: h in gaps ==> h.end < g.start
    ensures Apart(gaps + [g])
  {
  }

  /** An unreceived number inside some gap keeps a gap open. */
  lemma {:induction false} StillCovered(gaps: seq<Gap>, received: set<int>, x: int)
    requires Apart(gaps)
    requires InSome(gaps, x) && x !in received
    ensures InSome(Unresolved(gaps, received), x)
  {
    UnresolvedKeeps(gaps, received);
    var u := Unresolved(gaps, received);
    var i :| 0 <= i < |gaps| && gaps[i].Has(x);
    assert !Filled(gaps[i], received);
    var k :| 0 <= k < |u| && u[k] == gaps[i];
    assert u[k].Has(x);
  }

  lemma GrownApart(t: Tracker, q: int)
    requires Inv(t)
    ensures Apart(Grown(t, q))
    ensures forall g :: g in Grown(t, q) ==> 1 <= g.start && (g.end < t.expected || g.end < q)
  {
    hide InSome, Filled, Apart;
    if q > t.expected {
      ApartSnoc(t.gaps, Gap(t.expected, q - 1));
    }
  }

  /** It covers everything that is not received. */
  lemma GrownCovers(t: Tracker, q: int, x: int)
    requires Inv(t) && 1 <= x && (x < t.expected || x < q) && x !in t.received
    ensures InSome(Grown(t, q), x)
  {
    hide Filled, Apart;
    if x < t.expected {
      var i :| 0 <= i < |t.gaps| && t.gaps[i].Has(x);
      assert Grown(t, q)[i] == t.gaps[i];
    } else {
      assert x != q ==> Grown(t, q)[|t.gaps|].Has(x);
    }
  }

  /** What recording a new number does, apart from the filter. */
  lemma RecordShape(t: Tracker, q: int)
    requires Inv(t) && q !in t.received
    ensures var r := Record(t, q);
            && r.gaps == Unresolved(Grown(t, q), r.received) && r.received == t.received + {q}
            && r.expected == (if q >= t.expected then q + 1 else t.expected)
            && r.current >= r.expected - 1
            && forall x :: x in r.received ==> x < r.expected
  {
    hide Unresolved, InSome, Filled, Apart;
  }

  lemma RecordCovers(t: Tracker, q: int, x: int)
    requires Inv(t) && q !in t.received
    requires 1 <= x < Record(t, q).expected && x !in Record(t, q).received
    ensures InSome(Record(t, q).gaps, x)
  {
    RecordShape(t, q);
    GrownApart(t, q);
    GrownCovers(t, q, x);
    hide Unresolved, InSome, Filled, Apart, Grown, Record;
    StillCovered(Grown(t, q), Record(t, q).received, x);
  }

  lemma RecordKeepsInv(t: Tracker, q: int)
    requires Inv(t)
    ensures Inv(Record(t, q))
  {
    if q !in t.received {
      RecordShape(t, q);
      GrownApart(t, q);
      hide Unresolved, InSome, Filled, Apart, Grown, Record;
      var r := Record(t, q);
      UnresolvedKeeps(Grown(t, q), r.received);
      forall x | 1 <= x < r.expected && x !in r.received ensures InSome(r.gaps, x) {
        RecordCovers(t, q, x);
      }
    }
  }

  /** Every reachable state, whatever is delivered, assigned or reset. */
  lemma {:induction false} ReachableInv(events: seq<Event>)
    ensures Inv(Run(events))
  {
    if |events| > 0 {
      var n := |events| - 1;
      ReachableInv(events[..n]);
      if events[n].Deliver? {
        RecordKeepsInv(Run(events[..n]), events[n].q);
      }
    }
  }

  // --------------------------------------------------------- missing numbers

  lemma {:induction false} MissingInExact(start: int, end: int, received: set<int>)
    ensures Ascending(MissingIn(start, end, received))
    ensures forall q :: q in MissingIn(start, end, received) <==> start <= q <= end && q !in received
    decreases end - start
  {
    if start <= end {
      MissingInExact(start, end - 1, received);
      var f := MissingIn(start, end - 1, received);
      assert forall i :: 0 <= i < |f| ==> f[i] in f;
    }
  }

  lemma InSomeSnoc(gaps: seq<Gap>, q: int)
    requires Apart(gaps) && |gaps| > 0
    ensures var n := |gaps| - 1;
            && (InSome(gaps, q) <==> InSome(gaps[..n], q) || gaps[n].Has(q))
            && (InSome(gaps[..n], q) ==> q < gaps[n].start)
  {
    var n := |gaps| - 1;
    if InSome(gaps[..n], q) {
      var i :| 0 <= i < n && gaps[..n][i].Has(q);
      assert gaps[i].Has(q);
    }
  }

  lemma {:induction false} MissingMembers(gaps: seq<Gap>, received: set<int>, q: int)
    requires Apart(gaps)
    ensures q in Missing(gaps, received) <==> InSome(gaps, q) && q !in received
  {
    if |gaps| > 0 {
      var n := |gaps| - 1;
      MissingMembers(gaps[..n], received, q);
      MissingInExact(gaps[n].start, gaps[n].end, received);
      InSomeSnoc(gaps, q);
    }
  }

  lemma {:induction false} MissingGaps(gaps: seq<Gap>, received: set<int>)
    requires Apart(gaps)
    ensures Ascending(Missing(gaps, received))
    ensures forall q :: q in Missing(gaps, received) <==> InSome(gaps, q) && q !in received
  {
    if |gaps| > 0 {
      var n := |gaps| - 1;
      var a, b := Missing(gaps[..n], received), MissingIn(gaps[n].start, gaps[n].end, received);
      assert Missing(gaps, received) == a + b;
      hide Missing, MissingIn, Ascending, InSome;
      MissingGaps(gaps[..n], received);
      MissingInExact(gaps[n].start, gaps[n].end, received);
      forall q | q in a ensures q < gaps[n].start {
        InSomeSnoc(gaps, q);
      }
      AscendingConcat(a, b);
    }
    forall q ensures q in Missing(gaps, received) <==> InSome(gaps, q) && q !in received {
      MissingMembers(gaps, received, q);
    }
  }

  /** The missing list is the ascending list of exactly the numbers from 1 up to
      the expected one that have not arrived. */
  lemma MissingExact(t: Tracker)
    requires Inv(t)
    ensures Ascending(Missing(t.gaps, t.received))
    ensures forall q :: q in Missing(t.gaps, t.received) <==> 1 <= q < t.expected && q !in t.received
    ensures Missing(t.gaps, t.received) == [] <==> t.gaps == []
  {
    MissingGaps(t.gaps, t.received);
    if t.gaps != [] {
      var q :| t.gaps[0].start <= q <= t.gaps[0].end && q !in t.received;
      assert t.gaps[0].Has(q);
      assert q in Missing(t.gaps, t.received);
    }
  }

  // --------------------------------------------------------------- counting

  function Range(n: nat): (r: set<int>)
    ensures |r| == n
    ensures forall q :: q in r <==> 1 <= q <= n
  {
    if n == 0 then {} else Range(n - 1) + {n}
  }

  function Stray(received: set<int>): set<int> {
    set q | q in received && q < 1
  }

  /** Received and missing numbers together make up everything before the
      expected one, plus the numbers below 1 that were accepted. */
  lemma CountsExact(t: Tracker)
    requires Inv(t)
    ensures |t.received| + |Missing(t.gaps, t.received)| == t.expected - 1 + |Stray(t.received)|
  {
    hide Missing, InSome, Inv;
    MissingExact(t);
    ReceivedBelow(t);
    var all := Range(t.expected - 1);
    var lost := all - t.received;
    var good := t.received - Stray(t.received);
    AscendingCount(Missing(t.gaps, t.received), lost);
    assert all == good + lost && good !! lost;
    assert t.received == good + Stray(t.received) && good !! Stray(t.received);
  }

  lemma ReceivedBelow(t: Tracker)
    requires Inv(t)
    ensures t.expected >= 1 && forall q :: q in t.received ==> q < t.expected
  {
    hide InSome, Filled;
  }

  /** `get_completion_rate`. */
  function CompletionRate(t: Tracker): real {
    if t.expected <= 1 then 1.0 else |t.received| as real / (t.expected - 1) as real
  }

  /** When every accepted number was at least 1, the rate is a proportion, and
      it is 1 exactly when no gap is open. */
  lemma CompletionRateMeaning(t: Tracker)
    requires Inv(t) && forall q :: q in t.received ==> q >= 1
    ensures 0.0 <= CompletionRate(t) <= 1.0
    ensures CompletionRate(t) == 1.0 <==> t.gaps == []
    ensures |t.received| + |Missing(t.gaps, t.received)| == t.expected - 1
  {
    assert Stray(t.received) == {};
    hide Inv, Missing, Stray;
    CountsExact(t);
    MissingExact(t);
    ReceivedBelow(t);
    if t.expected > 1 {
      RateBoundedIff(t);
    }
  }

  /** Counts add up exactly when no number below 1 was accepted. */
  lemma CountsAddUpIff(t: Tracker)
    requires Inv(t)
    ensures |t.received| + |Missing(t.gaps, t.received)| == t.expected - 1
            <==> forall q :: q in t.received ==> q >= 1
  {
    CountsExact(t);
    if Stray(t.received) == {} {
      forall q | q in t.received
        ensures q >= 1
      {
        assert q !in Stray(t.received);
      }
    }
    if forall q :: q in t.received ==> q >= 1 {
      assert Stray(t.received) == {};
    }
  }

  /** The rate leaves its range exactly when more numbers below 1 were accepted
      than are missing; it is exactly 1 when these are equally many. */
  lemma RateBoundedIff(t: Tracker)
    requires Inv(t) && t.expected > 1
    ensures CompletionRate(t) >= 0.0
    ensures CompletionRate(t) <= 1.0 <==> |Stray(t.received)| <= |Missing(t.gaps, t.received)|
    ensures CompletionRate(t) == 1.0 <==> |Stray(t.received)| == |Missing(t.gaps, t.received)|
  {
    CountsExact(t);
    hide Inv, Missing, Stray;
    RatioOrder(|t.received|, t.expected - 1);
  }

  lemma RatioOrder(a: nat, b: nat)
    requires b > 0
    ensures var x := a as real / b as real;
            x >= 0.0 && (x <= 1.0 <==> a <= b) && (x == 1.0 <==> a == b)
  {
    var p, q := a as real, b as real;
    RatioAt(p, q, p / q);
  }

  lemma RatioAt(p: real, q: real, x: real)
    requires p >= 0.0 && q > 0.0 && x == p / q
    ensures x >= 0.0 && (x <= 1.0 <==> p <= q) && (x == 1.0 <==> p == q)
  {
    assert x * q == p;
    assert (1.0 - x) * q == q - p;
  }

  /** Its witness: a feed that numbers from 0 with nothing missing. */
  lemma RateAboveOne()
    ensures CompletionRate(Run([Deliver(0), Deliver(1)])) == 2.0
  {
    var e := [Deliver(0), Deliver(1)];
    assert e[..1] == [Deliver(0)] && e[..1][..0] == [];
    var t0 := Run(e[..1]);
    assert Run([]) == FRESH;
    var none: set<int> := {};
    assert Record(FRESH, 0).received == none + {0};
    assert none + {0} == {0} && {0} + {1} == {0, 1};
    assert t0 == Tracker(0, 1, {0}, []);
    var t1 := Run(e);
    assert t1 == Tracker(1, 2, {0, 1}, []);
    assert |{0, 1}| == 2;
  }

  // ----------------------------------------------------- order independence

  function DeliveredIn(events: seq<Event>): set<int> {
    set i | 0 <= i < |events| && events[i].Deliver? :: events[i].q
  }

  predicate NoReset(events: seq<Event>) {
    forall i :: 0 <= i < |events| ==> !events[i].Reset?
  }

  /** The expected number is one above the largest delivered, or 1. */
  ghost predicate IsHighWater(expected: int, delivered: set<int>) {
    && expected >= 1
    && (forall q :: q in delivered ==> q < expected)
    && (expected == 1 || expected - 1 in delivered)
  }

  lemma {:induction false} RunSummary(events: seq<Event>)
    requires NoReset(events)
    ensures Run(events).received == DeliveredIn(events)
    ensures IsHighWater(Run(events).expected, DeliveredIn(events))
  {
    hide Unresolved, Grown;
    if |events| > 0 {
      var n := |events| - 1;
      var front := events[..n];
      RunSummary(front);
      forall q
        ensures q in DeliveredIn(events) <==> q in DeliveredIn(front) || events[n] == Deliver(q)
      {
        if q in DeliveredIn(events) {
          var i :| 0 <= i < |events| && events[i] == Deliver(q);
          assert i < n ==> front[i] == Deliver(q);
        }
        if q in DeliveredIn(front) {
          var i :| 0 <= i < n && front[i] == Deliver(q);
          assert events[i] == Deliver(q);
        }
      }
    } else {
      assert DeliveredIn(events) == {};
    }
  }

  /** Two histories that delivered the same numbers, in any order and with any
      repetitions, agree on everything a consumer can ask for. */
  lemma {:induction false} OrderIndependence(a: seq<Event>, b: seq<Event>)
    requires NoReset(a) && NoReset(b) && DeliveredIn(a) == DeliveredIn(b)
    ensures Run(a).expected == Run(b).expected
    ensures Run(a).received == Run(b).received
    ensures Missing(Run(a).gaps, Run(a).received) == Missing(Run(b).gaps, Run(b).received)
    ensures (Run(a).gaps == []) == (Run(b).gaps == [])
    ensures CompletionRate(Run(a)) == CompletionRate(Run(b))
  {
    hide Run, Missing, Inv, DeliveredIn;
    RunSummary(a);
    RunSummary(b);
    ReachableInv(a);
    ReachableInv(b);
    MissingExact(Run(a));
    MissingExact(Run(b));
    AscendingUnique(Missing(Run(a).gaps, Run(a).received), Missing(Run(b).gaps, Run(b).received));
  }

  /** The gap lists themselves do depend on the order. */
  lemma GapListsDiffer()
    ensures Run([Deliver(2), Deliver(4)]).gaps == [Gap(1, 1), Gap(3, 3)]
    ensures Run([Deliver(4), Deliver(2)]).gaps == [Gap(1, 3)]
  {
    UpwardGaps();
    DownwardGaps();
  }

  lemma UpwardGaps()
    ensures Run([Deliver(2), Deliver(4)]).gaps == [Gap(1, 1), Gap(3, 3)]
  {
    FirstOpens(2);
    RunSnoc([Deliver(2)], Deliver(4));
    hide Run, Unresolved, Filled, Record;
    SecondOpens();
    assert [Deliver(2)] + [Deliver(4)] == [Deliver(2), Deliver(4)];
  }

  lemma SecondOpens()
    ensures Record(Tracker(2, 3, {2}, [Gap(1, 1)]), 4).gaps == [Gap(1, 1), Gap(3, 3)]
  {
    var received := {2} + {4};
    NotFilled(Gap(1, 1), received, 1);
    NotFilled(Gap(3, 3), received, 3);
    UnresolvedTwo(Gap(1, 1), Gap(3, 3), received);
    hide Unresolved, Filled;
    assert [Gap(1, 1)] + [Gap(3, 3)] == [Gap(1, 1), Gap(3, 3)];
  }

  lemma DownwardGaps()
    ensures Run([Deliver(4), Deliver(2)]).gaps == [Gap(1, 3)]
  {
    FirstOpens(4);
    RunSnoc([Deliver(4)], Deliver(2));
    hide Run, Unresolved, Filled, Record;
    StaysOpen(Tracker(4, 5, {4}, [Gap(1, 3)]), Gap(1, 3), 2);
    assert [Deliver(4)] + [Deliver(2)] == [Deliver(4), Deliver(2)];
  }

  /** A delivery inside the only gap that leaves its start missing. */
  lemma StaysOpen(t: Tracker, g: Gap, q: int)
    requires t.gaps == [g] && g.start <= g.end && g.start !in t.received
    requires q !in t.received && q < t.expected && q <= t.current && q != g.start
    ensures Record(t, q) == t.(received := t.received + {q})
  {
    NotFilled(g, t.received + {q}, g.start);
    UnresolvedOne(g, t.received + {q});
    hide Unresolved, Filled;
  }

  lemma {:induction false} RunSnoc(events: seq<Event>, e: Event)
    ensures Run(events + [e]) == Step(Run(events), e)
  {
    assert (events + [e])[..|events|] == events;
  }

  /** The first delivery, beyond the first number, opens one gap. */
  lemma FirstOpens(q: int)
    requires q > 1
    ensures Run([Deliver(q)]) == Tracker(q, q + 1, {q}, [Gap(1, q - 1)])
  {
    RunSnoc([], Deliver(q));
    assert [] + [Deliver(q)] == [Deliver(q)];
    hide Unresolved;
    NotFilled(Gap(1, q - 1), {q}, 1);
    UnresolvedOne(Gap(1, q - 1), {q});
    assert [] + [Gap(1, q - 1)] == [Gap(1, q - 1)] && {} + {q} == {q};
  }

  lemma {:induction false} UnresolvedTwo(g: Gap, h: Gap, received: set<int>)
    requires !Filled(g, received) && !Filled(h, received)
    ensures Unresolved([g, h], received) == [g, h]
  {
    UnresolvedOne(g, received);
    assert [g, h][..1] == [g];
  }

  lemma NotFilled(g: Gap, received: set<int>, q: int)
    requires g.Has(q) && q !in received
    ensures !Filled(g, received)
  {
  }

  lemma {:induction false} UnresolvedOne(g: Gap, received: set<int>)
    requires !Filled(g, received)
    ensures Unresolved([g], received) == [g]
  {
    assert [g][..0] == [];
  }

  // ------------------------------------------------ gaps and numbers given out

  /** The gap that a delivery reports holds exactly the numbers that it makes
      missing: those from the expected one up to the delivered one. */
  lemma {:induction false} OpenedIs(t: Tracker, q: int)
    requires Inv(t)
    ensures var g, before, after := Opened(t, q), Missing(t.gaps, t.received), Missing(Record(t, q).gaps, Record(t, q).received);
            && (g.Some? <==> exists x :: x in after && x !in before)
            && (g.Some? ==> g.value.start == t.expected)
            && forall x :: x in after && x !in before <==> g.Some? && g.value.start <= x <= g.value.end
  {
    hide Inv, Missing, Unresolved, Grown;
    MissingExact(t);
    RecordKeepsInv(t, q);
    MissingExact(Record(t, q));
    ReceivedBelow(t);
    if q > t.expected {
      assert t.expected in Missing(Record(t, q).gaps, Record(t, q).received);
    }
  }

  /** The number that an event carries or takes. */
  function NumberAt(events: seq<Event>, i: nat): int
    requires i < |events|
  {
    match events[i]
    case Deliver(q) => q
    case Assign => Run(events[..i]).current + 1
    case Reset => 0
  }

  predicate ResetAfter(events: seq<Event>, i: nat) {
    exists j :: i <= j < |events| && events[j].Reset?
  }

  /** The current number is the largest delivered or given out since the last
      reset, so that the next one given out is new. */
  lemma {:induction false} CurrentIsLargest(events: seq<Event>)
    ensures var c := Run(events).current;
            && c >= 0
            && (forall i :: 0 <= i < |events| && !ResetAfter(events, i) ==> NumberAt(events, i) <= c)
            && (c == 0 || exists i :: 0 <= i < |events| && !ResetAfter(events, i) && NumberAt(events, i) == c)
  {
    hide Unresolved, Grown;
    if |events| > 0 {
      var n := |events| - 1;
      var front := events[..n];
      CurrentIsLargest(front);
      forall i | 0 <= i < n
        ensures NumberAt(events, i) == NumberAt(front, i)
        ensures ResetAfter(events, i) <==> ResetAfter(front, i) || events[n].Reset?
      {
        assert events[..i] == front[..i] && events[i] == front[i];
        if ResetAfter(front, i) {
          var j :| i <= j < n && front[j].Reset?;
          assert events[j].Reset?;
        }
      }
      NumberNow(events);
    }
  }

  lemma {:induction false} NumberNow(events: seq<Event>)
    requires |events| > 0
    ensures var n := |events| - 1;
            var c := Run(events[..n]).current;
            && (events[n].Reset? <==> ResetAfter(events, n))
            && Run(events).current == if events[n].Reset? then 0
                                      else if NumberAt(events, n) > c then NumberAt(events, n) else c
  {
    hide Unresolved, Grown;
    var n := |events| - 1;
    ReachableInv(events[..n]);
    NoneAbove(Run(events[..n]));
    hide Inv;
  }

  lemma NoneAbove(t: Tracker)
    requires Inv(t)
    ensures forall q :: q in t.received ==> q <= t.current
  {
    hide Apart, InSome, Filled;
  }

  // ------------------------------------------------------------- total width

  function TotalWidth(gaps: seq<Gap>): int {
    if |gaps| == 0 then 0 else TotalWidth(gaps[..|gaps| - 1]) + gaps[|gaps| - 1].Width()
  }

  /** The width of the open gaps counts the missing numbers exactly when no open
      gap has been partly filled. */
  lemma {:induction false} WidthIsMissingIff(gaps: seq<Gap>, received: set<int>)
    requires forall i :: 0 <= i < |gaps| ==> gaps[i].start <= gaps[i].end
    ensures |Missing(gaps, received)| <= TotalWidth(gaps)
    ensures |Missing(gaps, received)| == TotalWidth(gaps)
            <==> forall q :: InSome(gaps, q) ==> q !in received
  {
    if |gaps| > 0 {
      var n := |gaps| - 1;
      var front := gaps[..n];
      WidthIsMissingIff(front, received);
      MissingInCount(gaps[n].start, gaps[n].end, received);
      forall q
        ensures InSome(gaps, q) <==> InSome(front, q) || gaps[n].Has(q)
      {
        if InSome(front, q) {
          var i :| 0 <= i < n && front[i].Has(q);
          assert gaps[i].Has(q);
        }
      }
    }
  }

  lemma {:induction false} MissingInCount(start: int, end: int, received: set<int>)
    requires start <= end + 1
    ensures |MissingIn(start, end, received)| <= end - start + 1
    ensures |MissingIn(start, end, received)| == end - start + 1
            <==> forall q :: start <= q <= end ==> q !in received
    decreases end - start
  {
    if start <= end {
      MissingInCount(start, end - 1, received);
    }
  }

  // ------------------------------------------------------- the mutable form

  class SequenceManager {
    const window: int
    var currentSeq: int
    var expectedNext: int
    var receivedSequences: set<int>
    var gaps: seq<Gap>

    function State(): Tracker
      reads this
    {
      Tracker(currentSeq, expectedNext, receivedSequences, gaps)
    }

    constructor (window: int)
      ensures this.window == window && State() == FRESH
    {
      this.window := window;
      currentSeq, expectedNext, receivedSequences, gaps := 0, 1, {}, [];
    }

    method GetNextSequence() returns (q: int)
      modifies this
      ensures State() == Step(old(State()), Assign) && q == old(currentSeq) + 1
    {
      currentSeq := currentSeq + 1;
      q := currentSeq;
    }

    /** Accepts a number unless it was accepted before; reports the gap that it
        opens, even one that it fills at once. */
    method RecordReceived(sequence: int) returns (isNew: bool, gap: Option<Gap>)
      modifies this
      ensures State() == Record(old(State()), sequence)
      ensures isNew == (sequence !in old(receivedSequences))
      ensures !isNew ==> State() == old(State()) && gap == None
      ensures gap == Opened(old(State()), sequence)
    {
      if sequence in receivedSequences {
        return false, None;
      }
      receivedSequences := receivedSequences + {sequence};
      if sequence > currentSeq {
        currentSeq := sequence;
      }
      gap := None;
      if sequence > expectedNext {
        gap := Some(Gap(expectedNext, sequence - 1));
        gaps := gaps + [gap.value];
      }
      if sequence >= expectedNext {
        expectedNext := sequence + 1;
      }
      ResolveGaps();
      isNew := true;
    }

    /** Rebuilds the gap list without the filled gaps. */
    method ResolveGaps()
      modifies this`gaps
      ensures gaps == Unresolved(old(gaps), receivedSequences)
    {
      var unresolved := [];
      var i := 0;
      while i < |gaps|
        invariant 0 <= i <= |gaps|
        invariant unresolved == Unresolved(gaps[..i], receivedSequences)
      {
        var gap := gaps[i];
        var allReceived := true;
        var seq_ := gap.start;
        while seq_ <= gap.end && allReceived
          invariant gap.start <= seq_
          invariant allReceived ==> forall q :: gap.start <= q < seq_ && q <= gap.end ==> q in receivedSequences
          invariant !allReceived ==> !Filled(gap, receivedSequences)
        {
          if seq_ !in receivedSequences {
            allReceived := false;
          }
          seq_ := seq_ + 1;
        }
        assert gaps[..i + 1][..i] == gaps[..i];
        if !allReceived {
          unresolved := unresolved + [gap];
        }
        i := i + 1;
      }
      assert gaps[..i] == gaps;
      gaps := unresolved;
    }

    method GetMissingSequences() returns (missing: seq<int>)
      ensures missing == Missing(gaps, receivedSequences)
      ensures Inv(State()) ==> Ascending(missing)
      ensures Inv(State()) ==> forall q :: q in missing <==> 1 <= q < expectedNext && q !in receivedSequences
    {
      missing := [];
      var i := 0;
      while i < |gaps|
        invariant 0 <= i <= |gaps|
        invariant missing == Missing(gaps[..i], receivedSequences)
      {
        var gap := gaps[i];
        var q := gap.start;
        while q <= gap.end
          invariant gap.start <= q <= gap.end + 1 || q == gap.start
          invariant missing == Missing(gaps[..i], receivedSequences) + MissingIn(gap.start, q - 1, receivedSequences)
        {
          if q !in receivedSequences {
            missing := missing + [q];
          }
          q := q + 1;
        }
        assert gaps[..i + 1][..i] == gaps[..i];
        i := i + 1;
      }
      assert gaps[..i] == gaps;
      if Inv(State()) {
        MissingExact(State());
      }
    }

    method GetCompletionRate() returns (rate: real)
      ensures rate == CompletionRate(State())
    {
      if expectedNext <= 1 {
        return 1.0;
      }
      rate := |receivedSequences| as real / (expectedNext - 1) as real;
    }

    method Clear()
      modifies this
      ensures State() == FRESH
    {
      currentSeq, expectedNext := 0, 1;
      receivedSequences, gaps := {}, [];
    }
  }
}
