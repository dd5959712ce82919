/** Per-symbol synchronisation status kept in step with the sequence tracker. */
module DataSync {
  import opened Market
  import opened Optional
  import opened SequenceTracker

  datatype SyncState = Synced | OutOfSync | Disconnected

  datatype Status = Status(state: SyncState, lastSequence: int, gaps: seq<Gap>,
                           totalReceived: nat, totalMissing: int, checksumFailures: nat)

  const NEW_STATUS := Status(Disconnected, 0, [], 0, 0, 0)

  /** The tracker of a symbol together with its published status. */
  datatype Channel = Channel(tracker: Tracker, status: Status)

  const NEW_CHANNEL := Channel(FRESH, NEW_STATUS)

  /** Effect of one packet: a bad checksum is only counted, a duplicate changes
      nothing, a new number updates tracker and status. */
  function Receive(c: Channel, q: int, checksumOk: bool): Channel {
    if !checksumOk then c.(status := c.status.(checksumFailures := c.status.checksumFailures + 1))
    else if q in c.tracker.received then c
    else
      var t := Record(c.tracker, q);
      Channel(t, Published(c.status, q, t.gaps))
  }

  /** The status after a new number, given the gaps that are then open. */
  function Published(st: Status, q: int, gaps: seq<Gap>): Status {
    Status(if gaps != [] then OutOfSync else Synced, q, gaps,
           st.totalReceived + 1, TotalWidth(gaps), st.checksumFailures)
  }

  ghost predicate ChannelInv(c: Channel) {
    && Inv(c.tracker)
    && c.status.gaps == c.tracker.gaps
    && c.status.totalReceived == |c.tracker.received|
    && c.status.totalMissing == TotalWidth(c.tracker.gaps)
    && (c.tracker.received == {} ==> c.status.state == Disconnected && c.tracker.gaps == [])
    && (c.tracker.received != {} ==> c.status.state == if c.tracker.gaps == [] then Synced else OutOfSync)
  }

  lemma NewChannelInv()
    ensures ChannelInv(NEW_CHANNEL)
  {
  }

  lemma ReceiveKeepsInv(c: Channel, q: int, checksumOk: bool)
    requires ChannelInv(c)
    ensures ChannelInv(Receive(c, q, checksumOk))
  {
    hide Inv;
    RecordKeepsInv(c.tracker, q);
  }

  /** What the status of a symbol that has received something says: the count
      of distinct numbers, SYNCED exactly when no number is missing, and a
      missing total that never understates, and is exact when no open gap has
      been partly filled. */
  lemma StatusMeaning(c: Channel)
    requires ChannelInv(c) && c.tracker.received != {}
    ensures c.status.totalReceived == |c.tracker.received|
    ensures c.status.state == Synced
            <==> forall q :: 1 <= q < c.tracker.expected ==> q in c.tracker.received
    ensures |Missing(c.tracker.gaps, c.tracker.received)| <= c.status.totalMissing
    ensures |Missing(c.tracker.gaps, c.tracker.received)| == c.status.totalMissing
            <==> forall q :: InSome(c.tracker.gaps, q) ==> q !in c.tracker.received
  {
    MissingExact(c.tracker);
    WidthIsMissingIff(c.tracker.gaps, c.tracker.received);
    var m := Missing(c.tracker.gaps, c.tracker.received);
    if m != [] {
      assert m[0] in m;
    }
  }

  /** A partly filled gap makes the published total too large. */
  lemma TotalMissingOverstates()
    ensures var c := Receive(Receive(NEW_CHANNEL, 5, true), 2, true);
            c.status.totalMissing == 4 && |Missing(c.tracker.gaps, c.tracker.received)| == 3
  {
    hide Record, TotalWidth, Missing;
    FirstReceived();
    SecondReceived();
    FourWithOneFilled();
  }

  lemma FirstReceived()
    ensures Record(FRESH, 5) == Tracker(5, 6, {5}, [Gap(1, 4)])
  {
    var g := Gap(1, 4);
    NotFilled(g, {5}, 1);
    UnresolvedOne(g, {5});
    hide Unresolved;
    assert [] + [g] == [g] && {} + {5} == {5};
  }

  /** A delivery inside the only gap that does not fill it. */
  lemma SecondReceived()
    ensures Record(Tracker(5, 6, {5}, [Gap(1, 4)]), 2) == Tracker(5, 6, {5, 2}, [Gap(1, 4)])
    ensures TotalWidth([Gap(1, 4)]) == 4
  {
    var g := Gap(1, 4);
    StaysOpen(Tracker(5, 6, {5}, [g]), g, 2);
    assert {5} + {2} == {5, 2};
    assert [g][..0] == [];
  }

  lemma FourWithOneFilled()
    ensures |Missing([Gap(1, 4)], {5, 2})| == 3
  {
    var g, r := Gap(1, 4), {5, 2};
    assert [g][..0] == [];
    assert MissingIn(1, 1, r) == [1];
    assert MissingIn(1, 2, r) == [1];
    assert MissingIn(1, 3, r) == [1, 3];
    assert MissingIn(1, 4, r) == [1, 3, 4];
    assert Missing([g], r) == Missing([], r) + MissingIn(1, 4, r);
  }

  // ------------------------------------------------------------------- runs

  datatype Packet = Packet(sequence: int, checksumOk: bool)

  function ReceiveAll(ps: seq<Packet>): Channel {
    if |ps| == 0 then NEW_CHANNEL
    else Receive(ReceiveAll(ps[..|ps| - 1]), ps[|ps| - 1].sequence, ps[|ps| - 1].checksumOk)
  }

  /** The deliveries of the packets whose checksum is right. */
  function Deliveries(ps: seq<Packet>): seq<Event> {
    if |ps| == 0 then []
    else Deliveries(ps[..|ps| - 1]) + if ps[|ps| - 1].checksumOk then [Deliver(ps[|ps| - 1].sequence)] else []
  }

  /** Packet `i` is the first good one with its number. */
  predicate IsNews(ps: seq<Packet>, i: nat)
    requires i < |ps|
  {
    ps[i].checksumOk && forall j :: 0 <= j < i ==> !(ps[j].checksumOk && ps[j].sequence == ps[i].sequence)
  }

  function Spoiled(ps: seq<Packet>): nat {
    if |ps| == 0 then 0 else Spoiled(ps[..|ps| - 1]) + if ps[|ps| - 1].checksumOk then 0 else 1
  }

  /** Some good packet carries a number. */
  predicate HasGood(ps: seq<Packet>, q: int) {
    exists i :: 0 <= i < |ps| && ps[i].checksumOk && ps[i].sequence == q
  }

  /** Over every run of packets a channel tracks exactly the good ones and counts
      the spoiled ones. */
  lemma {:induction false} ChannelTracks(ps: seq<Packet>)
    ensures ReceiveAll(ps).tracker == Run(Deliveries(ps))
    ensures ReceiveAll(ps).status.checksumFailures == Spoiled(ps)
  {
    hide Record, TotalWidth;
    if |ps| > 0 {
      var front, p := ps[..|ps| - 1], ps[|ps| - 1];
      ChannelTracks(front);
      if p.checksumOk {
        RunSnoc(Deliveries(front), Deliver(p.sequence));
        RecordMarks(ReceiveAll(front).tracker, p.sequence);
      } else {
        assert Deliveries(front) + [] == Deliveries(front);
      }
    }
  }

  lemma {:induction false} ReceivedAreGood(ps: seq<Packet>, q: int)
    ensures q in ReceiveAll(ps).tracker.received <==> HasGood(ps, q)
  {
    hide Record, TotalWidth;
    if |ps| > 0 {
      var front, p := ps[..|ps| - 1], ps[|ps| - 1];
      ReceivedAreGood(front, q);
      RecordMarks(ReceiveAll(front).tracker, p.sequence);
      GoodSnoc(front, p, q);
      assert front + [p] == ps;
    }
  }

  lemma {:induction false} GoodSnoc(front: seq<Packet>, p: Packet, q: int)
    ensures HasGood(front + [p], q) <==> HasGood(front, q) || (p.checksumOk && p.sequence == q)
  {
    var ps := front + [p];
    if HasGood(front, q) {
      var i :| 0 <= i < |front| && front[i].checksumOk && front[i].sequence == q;
      assert ps[i] == front[i];
    }
    assert ps[|front|] == p;
  }

  lemma {:induction false} NewsSnoc(front: seq<Packet>, p: Packet)
    ensures forall i :: 0 <= i < |front| ==> (IsNews(front + [p], i) <==> IsNews(front, i))
    ensures IsNews(front + [p], |front|) <==> p.checksumOk && !HasGood(front, p.sequence)
  {
    var ps := front + [p];
    assert ps[|front|] == p && forall i :: 0 <= i < |front| ==> ps[i] == front[i];
  }

  /** A channel publishes the number of one packet, if it publishes any. */
  ghost predicate Publishes(ps: seq<Packet>, last: int) {
    if forall i :: 0 <= i < |ps| ==> !IsNews(ps, i) then last == 0
    else exists i :: 0 <= i < |ps| && IsNews(ps, i) && last == ps[i].sequence && forall j :: i < j < |ps| ==> !IsNews(ps, j)
  }

  lemma {:induction false} PublishesSnoc(front: seq<Packet>, p: Packet, last: int)
    requires Publishes(front, last)
    ensures Publishes(front + [p], if p.checksumOk && !HasGood(front, p.sequence) then p.sequence else last)
  {
    var ps := front + [p];
    NewsSnoc(front, p);
    hide IsNews, HasGood;
    assert ps[|front|] == p && forall i :: 0 <= i < |front| ==> ps[i] == front[i];
    if !IsNews(ps, |front|) && !(forall i :: 0 <= i < |front| ==> !IsNews(front, i)) {
      var i :| 0 <= i < |front| && IsNews(front, i) && last == front[i].sequence && forall j :: i < j < |front| ==> !IsNews(front, j);
      assert IsNews(ps, i);
    }
  }

  /** The published number is that of the last good packet that is no duplicate,
      or zero before there is one. */
  lemma {:induction false} LastSequenceIs(ps: seq<Packet>)
    ensures Publishes(ps, ReceiveAll(ps).status.lastSequence)
  {
    hide Record, TotalWidth, Publishes, HasGood;
    if |ps| > 0 {
      var front, p := ps[..|ps| - 1], ps[|ps| - 1];
      LastSequenceIs(front);
      ReceivedAreGood(front, p.sequence);
      PublishesSnoc(front, p, ReceiveAll(front).status.lastSequence);
      assert front + [p] == ps;
    } else {
      NothingPublished();
      assert ps == [];
    }
  }

  lemma {:induction false} NothingPublished()
    ensures Publishes([], 0)
  {
  }

  lemma RecordMarks(t: Tracker, q: int)
    ensures Record(t, q).received == t.received + {q}
    ensures q in t.received ==> Record(t, q) == t
    ensures Step(t, Deliver(q)) == Record(t, q)
  {
    hide Unresolved;
  }

  class DataSyncManager {
    var managers: map<Symbol, SequenceManager>
    var status: map<Symbol, Status>
    var totalPackets: nat
    var checksumFailures: nat
    var gapsDetected: nat

    /** Each symbol has its own tracker, and every channel is consistent. */
    ghost predicate Valid()
      reads this, managers.Values
    {
      && managers.Keys == status.Keys
      && (forall s, s' :: s in managers && s' in managers && s != s' ==> managers[s] != managers[s'])
      && (forall s :: s in managers ==> ChannelInv(ChannelOf(s)))
    }

    function ChannelOf(s: Symbol): Channel
      requires s in managers && s in status
      reads this, managers.Values
    {
      Channel(managers[s].State(), status[s])
    }

    constructor ()
      ensures Valid() && managers == map[]
      ensures totalPackets == checksumFailures == gapsDetected == 0
    {
      managers, status := map[], map[];
      totalPackets, checksumFailures, gapsDetected := 0, 0, 0;
    }

    method RegisterSymbol(symbol: Symbol, window: int)
      requires Valid()
      modifies this`managers, this`status
      ensures Valid() && symbol in managers
      ensures symbol in old(managers) ==> managers == old(managers) && status == old(status)
      ensures symbol !in old(managers) ==>
                && fresh(managers[symbol])
                && managers == old(managers)[symbol := managers[symbol]]
                && ChannelOf(symbol) == NEW_CHANNEL
                && status == old(status)[symbol := NEW_STATUS]
    {
      hide Inv, ChannelInv;
      NewChannelInv();
      if symbol !in managers {
        var manager := new SequenceManager(window);
        managers := managers[symbol := manager];
        status := status[symbol := NEW_STATUS];
      }
    }

    /** The effect on the packet's symbol is `Receive`; no other symbol is
        touched, and the totals count what happened. */
    method ReceivePacket(symbol: Symbol, sequence: int, checksumOk: bool)
      returns (isNew: bool, gap: Option<Gap>)
      requires Valid()
      modifies this, managers.Values
      ensures Valid()
      ensures managers.Keys == old(managers.Keys) + {symbol}
      ensures symbol !in old(managers) ==> fresh(managers[symbol])
      ensures forall s :: s in old(managers) ==> managers[s] == old(managers[s])
      ensures var before := if symbol in old(managers) then old(ChannelOf(symbol)) else NEW_CHANNEL;
              && ChannelOf(symbol) == Receive(before, sequence, checksumOk)
              && isNew == (checksumOk && sequence !in before.tracker.received)
              && gap == (if checksumOk then Opened(before.tracker, sequence) else None)
      ensures forall s :: s in old(managers) && s != symbol ==> ChannelOf(s) == old(ChannelOf(s))
      ensures totalPackets == old(totalPackets) + (if isNew then 1 else 0)
      ensures checksumFailures == old(checksumFailures) + (if checksumOk then 0 else 1)
      ensures gapsDetected == old(gapsDetected) + (if gap.Some? then 1 else 0)
    {
      hide Inv, Record, Opened, TotalWidth, ChannelInv, Receive;
      RegisterSymbol(symbol, 10000);
      assert symbol !in old(managers) ==> ChannelOf(symbol) == NEW_CHANNEL;
      isNew, gap := ReceiveRegistered(symbol, sequence, checksumOk);
    }

    /** The same for a symbol that is already registered. */
    method ReceiveRegistered(symbol: Symbol, sequence: int, checksumOk: bool)
      returns (isNew: bool, gap: Option<Gap>)
      requires Valid() && symbol in managers
      modifies this`status, this`totalPackets, this`checksumFailures, this`gapsDetected, managers[symbol]
      ensures Valid()
      ensures ChannelOf(symbol) == Receive(old(ChannelOf(symbol)), sequence, checksumOk)
      ensures isNew == (checksumOk && sequence !in old(ChannelOf(symbol)).tracker.received)
      ensures gap == (if checksumOk then Opened(old(ChannelOf(symbol)).tracker, sequence) else None)
      ensures status == old(status)[symbol := status[symbol]]
      ensures forall s :: s in managers && s != symbol ==> ChannelOf(s) == old(ChannelOf(s))
      ensures totalPackets == old(totalPackets) + (if isNew then 1 else 0)
      ensures checksumFailures == old(checksumFailures) + (if checksumOk then 0 else 1)
      ensures gapsDetected == old(gapsDetected) + (if gap.Some? then 1 else 0)
    {
      hide Inv, Record, ChannelInv, Published, Opened;
      var manager := managers[symbol];
      var st := status[symbol];
      ghost var before := ChannelOf(symbol);
      ReceiveKeepsInv(before, sequence, checksumOk);
      isNew, gap := false, None;
      if !checksumOk {
        status := status[symbol := st.(checksumFailures := st.checksumFailures + 1)];
        checksumFailures := checksumFailures + 1;
      } else {
        isNew, gap := manager.RecordReceived(sequence);
        if isNew {
          status := status[symbol := Published(st, sequence, manager.gaps)];
          totalPackets := totalPackets + 1;
          if gap.Some? {
            gapsDetected := gapsDetected + 1;
          }
        }
      }
      assert ChannelOf(symbol) == Receive(before, sequence, checksumOk);
      forall s | s in managers
        ensures ChannelInv(ChannelOf(s)) && (s != symbol ==> ChannelOf(s) == old(ChannelOf(s)))
      {
        if s != symbol {
          assert managers[s] != manager;
          assert ChannelOf(s) == old(ChannelOf(s));
        }
      }
    }

    /** Forgets everything about one symbol. */
    method ResetSymbol(symbol: Symbol)
      requires Valid()
      modifies this`status, managers.Values
      ensures Valid()
      ensures symbol in managers ==> ChannelOf(symbol) == NEW_CHANNEL
      ensures forall s :: s in managers && s != symbol ==> ChannelOf(s) == old(ChannelOf(s))
      ensures status.Keys == old(status.Keys)
    {
      hide Inv, TotalWidth, ChannelInv;
      NewChannelInv();
      if symbol in managers {
        managers[symbol].Clear();
      }
      if symbol in status {
        status := status[symbol := NEW_STATUS];
      }
    }
  }
}
