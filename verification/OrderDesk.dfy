/** The order manager's state over any sequence of registrations, fills of any
    size and cancellations. */
module OrderDesk {
  import opened Market
  import opened Optional
  import opened Sequences
  import opened Accounting
  import opened Simulation

  /** The orders by id, the active ids, and the ids of each symbol. */
  datatype Desk = Desk(orders: map<string, Order>, active: set<string>, bySymbol: map<Symbol, seq<string>>)

  const NO_ORDERS := Desk(map[], {}, map[])

  datatype Booking = Registers(order: Order) | Fills(id: string, quantity: real, price: real) | Withdraws(id: string)

  function ListOf(d: Desk, s: Symbol): seq<string> {
    if s in d.bySymbol then d.bySymbol[s] else []
  }

  /** Whether an order can book a fill without an error in its average. */
  predicate Bookable(o: Order, quantity: real) {
    o.filled == 0.0 || (o.avgFill.Some? && o.filled + quantity != 0.0)
  }

  function Book(d: Desk, b: Booking): Desk {
    match b
    case Registers(o) =>
      Desk(d.orders[o.id := o], d.active + {o.id}, d.bySymbol[o.symbol := ListOf(d, o.symbol) + [o.id]])
    case Fills(id, quantity, price) =>
      if id !in d.orders || !Bookable(d.orders[id], quantity) then d
      else
        var o := UpdateFill(d.orders[id], quantity, price);
        Desk(d.orders[id := o], if IsActive(o) then d.active else d.active - {id}, d.bySymbol)
    case Withdraws(id) =>
      if id in d.orders && IsActive(d.orders[id])
      then Desk(d.orders[id := d.orders[id].(status := Cancelled)], d.active - {id}, d.bySymbol)
      else d
  }

  function BookAll(bs: seq<Booking>): Desk {
    if |bs| == 0 then NO_ORDERS else Book(BookAll(bs[..|bs| - 1]), bs[|bs| - 1])
  }

  /** Orders are registered once, with nothing filled; fills are positive. */
  predicate Legal(d: Desk, b: Booking) {
    match b
    case Registers(o) =>
      && o.id !in d.orders && o.status in {Submitted, Accepted, Pending}
      && o.filled == 0.0 && o.avgFill.None? && o.remaining == o.quantity > 0.0
    case Fills(_, quantity, _) => quantity > 0.0
    case Withdraws(_) => true
  }

  predicate AllLegal(bs: seq<Booking>) {
    forall k :: 0 <= k < |bs| ==> Legal(BookAll(bs[..k]), bs[k])
  }

  lemma FrontLegal(bs: seq<Booking>)
    requires |bs| > 0 && AllLegal(bs)
    ensures AllLegal(bs[..|bs| - 1]) && Legal(BookAll(bs[..|bs| - 1]), bs[|bs| - 1])
  {
    hide BookAll, Legal;
    var front := bs[..|bs| - 1];
    forall k | 0 <= k < |front|
      ensures Legal(BookAll(front[..k]), front[k])
    {
      assert front[..k] == bs[..k] && front[k] == bs[k];
    }
  }

  // ------------------------------------------------------- fills of an order

  /** The fills that were booked on an order, with quantity and price. */
  function FillsOf(bs: seq<Booking>, id: string): seq<(real, real)> {
    if |bs| == 0 then []
    else
      var front, b := bs[..|bs| - 1], bs[|bs| - 1];
      FillsOf(front, id)
      + if b.Fills? && b.id == id && id in BookAll(front).orders then [(b.quantity, b.price)] else []
  }

  function Quantity(fs: seq<(real, real)>): real {
    if |fs| == 0 then 0.0 else Quantity(fs[..|fs| - 1]) + fs[|fs| - 1].0
  }

  function Value(fs: seq<(real, real)>): real {
    if |fs| == 0 then 0.0 else Value(fs[..|fs| - 1]) + fs[|fs| - 1].0 * fs[|fs| - 1].1
  }

  /** An order against the fills booked on it. */
  ghost predicate Accounts(o: Order, fs: seq<(real, real)>) {
    && o.quantity > 0.0 && o.filled == Quantity(fs) && o.filled + o.remaining == o.quantity
    && (if |fs| == 0 then o.filled == 0.0 && o.avgFill.None?
        else o.filled > 0.0 && o.avgFill.Some? && o.avgFill.value * o.filled == Value(fs))
    && (o.status == Filled <==> o.remaining <= 0.0)
    && o.status in {Submitted, Accepted, Pending, PartiallyFilled, Filled, Cancelled}
  }

  lemma BookedAccounts(o: Order, fs: seq<(real, real)>, quantity: real, price: real)
    requires Accounts(o, fs) && quantity > 0.0
    ensures Bookable(o, quantity)
    ensures Accounts(UpdateFill(o, quantity, price), fs + [(quantity, price)])
  {
    var all := fs + [(quantity, price)];
    assert all[..|all| - 1] == fs;
    var o' := UpdateFill(o, quantity, price);
    if |fs| > 0 {
      var a, w := o.avgFill.value, WeightedAverage(o.filled, o.avgFill.value, quantity, price);
      AverageTimesTotal(o.filled, a, quantity, price);
      hide WeightedAverage;
      assert o'.avgFill.value * o'.filled == (o.filled + quantity) * w;
      assert o.filled * a == a * o.filled;
    } else {
      assert o'.avgFill.value == price && o'.filled == quantity;
      assert Value(all) == Value(fs) + quantity * price && Value(fs) == 0.0;
      assert price * quantity == quantity * price;
    }
  }

  /** Over every run of partial and whole fills, late ones included: filled plus
      remaining is the quantity, the average price times the filled quantity is
      the value of the fills, and an order is FILLED exactly when nothing
      remains. */
  lemma {:induction false} FillsAddUp(bs: seq<Booking>, id: string)
    requires AllLegal(bs) && id in BookAll(bs).orders
    ensures Accounts(BookAll(bs).orders[id], FillsOf(bs, id))
  {
    var front, b := bs[..|bs| - 1], bs[|bs| - 1];
    var d, fs := BookAll(front), FillsOf(front, id);
    FrontLegal(bs);
    LastBooking(bs, id);
    hide BookAll, FillsOf, Book, Accounts, Legal, AllLegal;
    if id in d.orders {
      FillsAddUp(front, id);
      StepAccounts(d, fs, b, id);
    } else {
      NoFillsBefore(front, id);
      NewAccounts(d, b, id);
    }
  }

  lemma StepAccounts(d: Desk, fs: seq<(real, real)>, b: Booking, id: string)
    requires id in d.orders && Legal(d, b) && Accounts(d.orders[id], fs)
    ensures id in Book(d, b).orders
    ensures Accounts(Book(d, b).orders[id], if b.Fills? && b.id == id then fs + [(b.quantity, b.price)] else fs)
  {
    if b.Fills? && b.id == id {
      BookedAccounts(d.orders[id], fs, b.quantity, b.price);
      hide UpdateFill, Quantity, Value;
    } else {
      hide UpdateFill, Quantity, Value;
      OtherBooking(d, b, id);
    }
  }

  lemma LastBooking(bs: seq<Booking>, id: string)
    requires |bs| > 0
    ensures var front, b := bs[..|bs| - 1], bs[|bs| - 1];
            && BookAll(bs) == Book(BookAll(front), b)
            && FillsOf(bs, id) == if b.Fills? && b.id == id && id in BookAll(front).orders
                                  then FillsOf(front, id) + [(b.quantity, b.price)] else FillsOf(front, id)
  {
    hide Book;
    assert FillsOf(bs[..|bs| - 1], id) + [] == FillsOf(bs[..|bs| - 1], id);
  }

  lemma NewAccounts(d: Desk, b: Booking, id: string)
    requires id !in d.orders && Legal(d, b) && id in Book(d, b).orders
    ensures Accounts(Book(d, b).orders[id], [])
  {
    hide UpdateFill;
  }

  /** What a booking that is no fill of an order can do to it. */
  lemma OtherBooking(d: Desk, b: Booking, id: string)
    requires id in d.orders && Legal(d, b) && !(b.Fills? && b.id == id)
    ensures id in Book(d, b).orders
    ensures var o, o' := d.orders[id], Book(d, b).orders[id];
            o' == o || (IsActive(o) && o' == o.(status := Cancelled))
  {
    hide UpdateFill;
  }

  lemma {:induction false} NoFillsBefore(bs: seq<Booking>, id: string)
    requires id !in BookAll(bs).orders
    ensures FillsOf(bs, id) == []
  {
    if |bs| > 0 {
      KeysGrow(BookAll(bs[..|bs| - 1]), bs[|bs| - 1]);
      NoFillsBefore(bs[..|bs| - 1], id);
    }
  }

  lemma KeysGrow(d: Desk, b: Booking)
    ensures d.orders.Keys <= Book(d, b).orders.Keys
  {
    hide UpdateFill;
  }

  // ----------------------------------------------------------- active orders

  /** The active ids are those of the active orders. */
  ghost predicate ActiveExact(d: Desk) {
    forall id :: id in d.active <==> id in d.orders && IsActive(d.orders[id])
  }

  /** A fill reaches a cancelled order and leaves some of it open. */
  predicate Revives(d: Desk, b: Booking) {
    b.Fills? && b.id in d.orders && d.orders[b.id].status == Cancelled && b.quantity < d.orders[b.id].remaining
  }

  lemma {:induction false} BookKeepsActiveIff(bs: seq<Booking>)
    requires |bs| > 0 && AllLegal(bs) && ActiveExact(BookAll(bs[..|bs| - 1]))
    ensures ActiveExact(BookAll(bs)) <==> !Revives(BookAll(bs[..|bs| - 1]), bs[|bs| - 1])
  {
    var front, b := bs[..|bs| - 1], bs[|bs| - 1];
    var d := BookAll(front);
    assert BookAll(bs) == Book(d, b);
    FrontLegal(bs);
    hide BookAll;
    if b.Fills? && b.id in d.orders {
      FillsAddUp(front, b.id);
      FillActiveIff(d, FillsOf(front, b.id), b.id, b.quantity, b.price);
    } else {
      hide UpdateFill;
    }
  }

  lemma FillActiveIff(d: Desk, fs: seq<(real, real)>, id: string, quantity: real, price: real)
    requires id in d.orders && ActiveExact(d) && Accounts(d.orders[id], fs) && quantity > 0.0
    ensures ActiveExact(Book(d, Fills(id, quantity, price))) <==> !Revives(d, Fills(id, quantity, price))
  {
    BookedAccounts(d.orders[id], fs, quantity, price);
    var o, o' := d.orders[id], UpdateFill(d.orders[id], quantity, price);
    var d' := Book(d, Fills(id, quantity, price));
    assert IsActive(o') <==> quantity < o.remaining;
    assert d'.orders == d.orders[id := o'];
    assert d'.active == if IsActive(o') then d.active else d.active - {id};
    hide Book, UpdateFill, Quantity, Value;
    assert id in d'.active <==> id in d.active && IsActive(o');
  }

  /** The active ids are those of the active orders all along exactly when no
      fill partly fills a cancelled order: such a fill makes it PARTIALLY_FILLED
      again, outside the active set. */
  lemma ActiveExactIff(bs: seq<Booking>)
    requires AllLegal(bs)
    ensures (forall k :: 0 <= k <= |bs| ==> ActiveExact(BookAll(bs[..k])))
            <==> forall k :: 0 <= k < |bs| ==> !Revives(BookAll(bs[..k]), bs[k])
  {
    hide BookAll, ActiveExact, Revives;
    if forall k :: 0 <= k <= |bs| ==> ActiveExact(BookAll(bs[..k])) {
      forall k | 0 <= k < |bs|
        ensures !Revives(BookAll(bs[..k]), bs[k])
      {
        assert ActiveExact(BookAll(bs[..k])) && ActiveExact(BookAll(bs[..k + 1]));
        ActiveStep(bs, k);
      }
    }
    if forall k :: 0 <= k < |bs| ==> !Revives(BookAll(bs[..k]), bs[k]) {
      forall k | 0 <= k <= |bs|
        ensures ActiveExact(BookAll(bs[..k]))
      {
        ActiveTo(bs, k);
      }
    }
  }

  lemma ActiveStep(bs: seq<Booking>, k: nat)
    requires AllLegal(bs) && k < |bs| && ActiveExact(BookAll(bs[..k]))
    ensures ActiveExact(BookAll(bs[..k + 1])) <==> !Revives(BookAll(bs[..k]), bs[k])
  {
    hide BookAll, ActiveExact, Revives, Legal;
    var s := bs[..k + 1];
    assert s[..|s| - 1] == bs[..k] && s[|s| - 1] == bs[k];
    forall i | 0 <= i < |s|
      ensures Legal(BookAll(s[..i]), s[i])
    {
      assert s[..i] == bs[..i];
    }
    BookKeepsActiveIff(s);
  }

  lemma {:induction false} ActiveTo(bs: seq<Booking>, k: nat)
    requires AllLegal(bs) && k <= |bs|
    requires forall i :: 0 <= i < |bs| ==> !Revives(BookAll(bs[..i]), bs[i])
    ensures ActiveExact(BookAll(bs[..k]))
  {
    if k > 0 {
      hide BookAll, ActiveExact, Revives, Legal;
      ActiveTo(bs, k - 1);
      ActiveStep(bs, k - 1);
    }
  }

  /** Such a run: a cancelled order is filled in part and active again, but not
      among the active ids. */
  lemma {:induction false} CancelledRevived(o: Order)
    requires o.status == Pending && o.filled == 0.0 && o.avgFill.None? && o.remaining == o.quantity == 10.0
    ensures var bs := [Registers(o), Withdraws(o.id), Fills(o.id, 1.0, 5.0)];
            && AllLegal(bs) && Revives(BookAll(bs[..2]), bs[2]) && !ActiveExact(BookAll(bs))
            && o.id in BookAll(bs).orders && BookAll(bs).orders[o.id].status == PartiallyFilled
  {
    var bs := [Registers(o), Withdraws(o.id), Fills(o.id, 1.0, 5.0)];
    assert bs[..0] == [] && BookAll(bs[..0]) == NO_ORDERS;
    assert bs[..1] == [Registers(o)] && bs[..1][..0] == [];
    assert bs[..2] == [Registers(o), Withdraws(o.id)] && bs[..2][..1] == bs[..1];
    assert bs[..3] == bs;
    var d1 := BookAll(bs[..1]);
    assert d1 == Book(NO_ORDERS, Registers(o));
    var d2 := BookAll(bs[..2]);
    assert d2 == Book(d1, Withdraws(o.id));
    assert d2.orders[o.id] == o.(status := Cancelled) && o.id !in d2.active;
    var d3 := BookAll(bs);
    assert d3 == Book(d2, bs[2]);
    assert IsActive(d3.orders[o.id]) && o.id !in d3.active;
  }

  // ------------------------------------------------------- orders of a symbol

  /** The ids registered for a symbol, in order of registration. */
  function RegisteredFor(bs: seq<Booking>, s: Symbol): seq<string> {
    if |bs| == 0 then []
    else
      var b := bs[|bs| - 1];
      RegisteredFor(bs[..|bs| - 1], s) + if b.Registers? && b.order.symbol == s then [b.order.id] else []
  }

  /** The list of a symbol holds, in order of registration and once each, exactly
      the ids of its orders. */
  lemma {:induction false} ListsAreExact(bs: seq<Booking>, s: Symbol)
    requires AllLegal(bs)
    ensures var d := BookAll(bs);
            && ListOf(d, s) == RegisteredFor(bs, s) && NoRepeats(ListOf(d, s))
            && forall id :: id in ListOf(d, s) <==> id in d.orders && d.orders[id].symbol == s
  {
    if |bs| > 0 {
      var front, b := bs[..|bs| - 1], bs[|bs| - 1];
      FrontLegal(bs);
      ListsAreExact(front, s);
      var d := BookAll(front);
      assert BookAll(bs) == Book(d, b);
      hide BookAll;
      if b.Registers? && b.order.symbol == s {
        assert b.order.id !in ListOf(d, s);
        assert ListOf(Book(d, b), s) == ListOf(d, s) + [b.order.id];
      } else {
        assert ListOf(Book(d, b), s) == ListOf(d, s);
        hide UpdateFill, RegisteredFor, NoRepeats;
        SameSymbols(d, b, s);
      }
    }
  }

  lemma SameSymbols(d: Desk, b: Booking, s: Symbol)
    requires Legal(d, b) && !(b.Registers? && b.order.symbol == s)
    ensures forall id :: (id in Book(d, b).orders && Book(d, b).orders[id].symbol == s)
                         <==> id in d.orders && d.orders[id].symbol == s
  {
    hide WeightedAverage;
  }
}
