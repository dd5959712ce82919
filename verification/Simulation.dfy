/** Orders matched against ticks without a broker: order life cycle, fills, and
    the positions they build. */
module Simulation {
  import opened Market
  import opened Optional
  import opened Sequences
  import opened Accounting

  datatype Kind = MarketOrder | Limit | Stop | StopLimit

  datatype Status = Submitted | Accepted | Pending | PartiallyFilled | Filled | Cancelled | Rejected | Expired

  datatype Order = Order(id: string, symbol: Symbol, side: Side, kind: Kind, quantity: real,
                         limitPrice: Option<real>, stopPrice: Option<real>,
                         status: Status, filled: real, remaining: real, avgFill: Option<real>)

  datatype Tick = Tick(symbol: Symbol, bid: real, ask: real, bidSize: real, askSize: real, time: int)

  /** Commission by quantity and price; slippage by price, quantity and volume. */
  datatype Costs = Costs(commission: (real, real) -> real, slippage: (real, real, real) -> real)

  predicate IsActive(o: Order) {
    o.status in {Submitted, Accepted, Pending, PartiallyFilled}
  }

  /** An order as its creator hands it over: nothing filled, and the price that
      its kind is compared with is there. */
  predicate IsNew(o: Order) {
    && o.status == Submitted && o.filled == 0.0 && o.remaining == o.quantity && o.avgFill.None?
    && o.quantity > 0.0
    && (o.kind == Limit ==> o.limitPrice.Some?)
    && (o.kind == Stop ==> o.stopPrice.Some?)
  }

  function UpdateFill(o: Order, quantity: real, price: real): Order
    requires o.filled == 0.0 || (o.avgFill.Some? && o.filled + quantity != 0.0)
  {
    var avg := if o.filled == 0.0 then price
               else WeightedAverage(o.filled, o.avgFill.value, quantity, price);
    var remaining := o.remaining - quantity;
    o.(avgFill := Some(avg), filled := o.filled + quantity, remaining := remaining,
       status := if remaining <= 0.0 then Filled else PartiallyFilled)
  }

  // --------------------------------------------------------------- matching

  /** The price at which a tick fills an order, before slippage. */
  function MatchPrice(o: Order, t: Tick): Option<real>
    requires o.kind == Limit ==> o.limitPrice.Some?
    requires o.kind == Stop ==> o.stopPrice.Some?
  {
    match o.kind
    case MarketOrder => Some((t.bid + t.ask) / 2.0)
    case Limit =>
      if o.side == Buy && t.ask <= o.limitPrice.value then
        Some(if t.ask < o.limitPrice.value then t.ask else o.limitPrice.value)
      else if o.side == Sell && t.bid >= o.limitPrice.value then
        Some(if t.bid > o.limitPrice.value then t.bid else o.limitPrice.value)
      else None
    case Stop =>
      if o.side == Buy && t.ask >= o.stopPrice.value then Some(t.ask)
      else if o.side == Sell && t.bid <= o.stopPrice.value then Some(t.bid)
      else None
    case StopLimit => None
  }

  /** The fill of everything that remains, costs applied: buyers pay the
      slippage on top, sellers receive it less. */
  function TryFill(c: Costs, o: Order, t: Tick): (r: Option<Fill>)
    requires o.kind == Limit ==> o.limitPrice.Some?
    requires o.kind == Stop ==> o.stopPrice.Some?
    ensures r.Some? ==> r.value.orderId == o.id && r.value.symbol == o.symbol && r.value.side == o.side
                        && r.value.quantity == o.remaining
  {
    var price := MatchPrice(o, t);
    if price.None? then None
    else
      var slip := c.slippage(price.value, o.remaining, t.bidSize + t.askSize);
      Some(Fill(o.id, o.symbol, o.side, o.remaining,
                if o.side == Buy then price.value + slip else price.value - slip,
                t.time, c.commission(o.remaining, price.value), slip))
  }

  /** Before costs, a limit order matches exactly when the quote is within its
      limit, at the quote, and a stop order exactly when its level is reached. */
  lemma MatchRespectsPrices(o: Order, t: Tick)
    requires o.kind == Limit ==> o.limitPrice.Some?
    requires o.kind == Stop ==> o.stopPrice.Some?
    ensures var m := MatchPrice(o, t);
            var quote := if o.side == Buy then t.ask else t.bid;
            && (m.Some? && o.kind in {Limit, Stop} ==> m.value == quote)
            && (o.kind == Limit ==>
                  (m.Some? <==> if o.side == Buy then quote <= o.limitPrice.value else quote >= o.limitPrice.value))
            && (o.kind == Stop ==>
                  (m.Some? <==> if o.side == Buy then quote >= o.stopPrice.value else quote <= o.stopPrice.value))
  {
  }

  /** The price level at which an order meets a tick, if it does: a market order
      always meets it, a limit order when the other side quotes its limit or
      better, a stop order when that quote has reached its level. */
  predicate Meets(o: Order, t: Tick)
    requires o.kind == Limit ==> o.limitPrice.Some?
    requires o.kind == Stop ==> o.stopPrice.Some?
  {
    || o.kind == MarketOrder
    || (o.kind == Limit && o.side == Buy && t.ask <= o.limitPrice.value)
    || (o.kind == Limit && o.side == Sell && o.limitPrice.value <= t.bid)
    || (o.kind == Stop && o.side == Buy && o.stopPrice.value <= t.ask)
    || (o.kind == Stop && o.side == Sell && t.bid <= o.stopPrice.value)
  }

  /** What an order fills at before costs: the middle of the quotes for a market
      order, and otherwise the quote it trades against. */
  function Base(o: Order, t: Tick): real {
    if o.kind == MarketOrder then 0.5 * t.bid + 0.5 * t.ask
    else if o.side == Buy then t.ask else t.bid
  }

  /** An order is filled by a tick exactly when it meets it, and then all that
      remains is, at the base price made worse by the slippage charged on it; the
      fill records the commission and the slippage of that price. */
  lemma FillsExactlyWhenMet(c: Costs, o: Order, t: Tick)
    requires o.kind == Limit ==> o.limitPrice.Some?
    requires o.kind == Stop ==> o.stopPrice.Some?
    ensures var base, slip := Base(o, t), c.slippage(Base(o, t), o.remaining, t.bidSize + t.askSize);
            TryFill(c, o, t)
            == if !Meets(o, t) then None
               else Some(Fill(o.id, o.symbol, o.side, o.remaining, base + (if o.side == Buy then slip else -slip),
                              t.time, c.commission(o.remaining, base), slip))
  {
  }

  function Quote(o: Order, t: Tick): real { if o.side == Buy then t.ask else t.bid }

  predicate WithinLimit(o: Order, price: real)
    requires o.limitPrice.Some?
  {
    if o.side == Buy then price <= o.limitPrice.value else price >= o.limitPrice.value
  }

  /** Slippage is added after matching: the fill of a limit order keeps to its
      limit exactly when the slippage that is charged at the quote is at most
      the room between quote and limit. */
  lemma LimitKeptIff(c: Costs, o: Order, t: Tick)
    requires o.kind == Limit && o.limitPrice.Some? && WithinLimit(o, Quote(o, t))
    ensures var f, q, limit := TryFill(c, o, t), Quote(o, t), o.limitPrice.value;
            f.Some? && (WithinLimit(o, f.value.price)
                        <==> c.slippage(q, o.remaining, t.bidSize + t.askSize)
                             <= if o.side == Buy then limit - q else q - limit)
  {
    MatchRespectsPrices(o, t);
  }

  /** A fill of a limit order, if any, is within its limit. */
  predicate KeepsLimit(c: Costs, o: Order, t: Tick)
    requires o.kind == Limit && o.limitPrice.Some?
  {
    var f := TryFill(c, o, t);
    f.Some? ==> WithinLimit(o, f.value.price)
  }

  /** An order that is met by a quote exactly at its limit. */
  function AtLimit(id: string, symbol: Symbol, quantity: real, limit: real): Order {
    Order(id, symbol, Buy, Limit, quantity, Some(limit), None, Submitted, 0.0, quantity, None)
  }

  function AtQuote(symbol: Symbol, quote: real, volume: real): Tick {
    Tick(symbol, quote, quote, volume, 0.0, 0)
  }

  /** Limits are kept for all orders and ticks exactly when no slippage is ever
      charged on a quantity. */
  lemma LimitsAlwaysKeptIff(c: Costs)
    ensures (forall o, t :: IsNew(o) && o.kind == Limit ==> KeepsLimit(c, o, t))
            <==> forall p, q, v :: q > 0.0 ==> c.slippage(p, q, v) <= 0.0
  {
    if forall o, t :: IsNew(o) && o.kind == Limit ==> KeepsLimit(c, o, t) {
      forall p, q, v | q > 0.0
        ensures c.slippage(p, q, v) <= 0.0
      {
        var o, t := AtLimit("", Symbol("", "", ""), q, p), AtQuote(Symbol("", "", ""), p, v);
        assert IsNew(o) && KeepsLimit(c, o, t);
        LimitKeptIff(c, o, t);
        assert v + 0.0 == v;
      }
    }
    if forall p, q, v :: q > 0.0 ==> c.slippage(p, q, v) <= 0.0 {
      forall o, t | IsNew(o) && o.kind == Limit
        ensures KeepsLimit(c, o, t)
      {
        MatchRespectsPrices(o, t);
        if TryFill(c, o, t).Some? {
          LimitKeptIff(c, o, t);
          assert c.slippage(Quote(o, t), o.remaining, t.bidSize + t.askSize) <= 0.0;
        }
      }
    }
  }

  // ------------------------------------------------------------------ state

  /** The orders, the active ids, the books, and the history of registrations
      and fills. */
  datatype Sim = Sim(orders: map<string, Order>, active: set<string>, book: Book,
                     registered: seq<string>, fills: seq<Fill>)

  const IDLE := Sim(map[], {}, EMPTY, [], [])

  function Submit(s: Sim, o: Order): Sim {
    s.(orders := s.orders[o.id := o.(status := Pending)], active := s.active + {o.id},
       registered := s.registered + [o.id])
  }

  predicate CanCancel(s: Sim, id: string) { id in s.orders && IsActive(s.orders[id]) }

  function Cancel(s: Sim, id: string): Sim {
    if CanCancel(s, id) then
      s.(orders := s.orders[id := s.orders[id].(status := Cancelled)], active := s.active - {id})
    else s
  }

  /** The orders a tick looks at. */
  function Candidates(s: Sim, symbol: Symbol): set<string> {
    set id | id in s.active && id in s.orders && s.orders[id].symbol == symbol && s.orders[id].status == Pending
  }

  function Priced(b: Book, symbol: Symbol, price: real): Book {
    if symbol in b.positions then b.(positions := b.positions[symbol := b.positions[symbol].(current := Some(price))])
    else b
  }

  /** One visit of a pending order. */
  function Visit(c: Costs, s: Sim, t: Tick, id: string): Sim
    requires Valid(s) && id in s.orders && s.orders[id].status == Pending
  {
    var f := TryFill(c, s.orders[id], t);
    if f.None? then s
    else
      var o := UpdateFill(s.orders[id], f.value.quantity, f.value.price);
      Sim(s.orders[id := o], if IsActive(o) then s.active else s.active - {id},
          Process(s.book, f.value), s.registered, s.fills + [f.value])
  }

  // -------------------------------------------------------------- invariant

  function FillQuantity(fills: seq<Fill>, id: string): real {
    if |fills| == 0 then 0.0
    else
      var f := fills[|fills| - 1];
      FillQuantity(fills[..|fills| - 1], id) + if f.orderId == id then f.quantity else 0.0
  }

  function FillValue(fills: seq<Fill>, id: string): real {
    if |fills| == 0 then 0.0
    else
      var f := fills[|fills| - 1];
      FillValue(fills[..|fills| - 1], id) + if f.orderId == id then f.quantity * f.price else 0.0
  }

  /** An order against the fills that were made for it. */
  ghost predicate OrderOk(o: Order, quantity: real, value: real) {
    && o.quantity > 0.0
    && (o.kind == Limit ==> o.limitPrice.Some?)
    && (o.kind == Stop ==> o.stopPrice.Some?)
    && o.filled + o.remaining == o.quantity
    && o.filled == quantity
    && (if o.avgFill.Some? then o.avgFill.value * o.filled == value else o.filled == 0.0 && value == 0.0)
    && o.status in {Pending, Filled, Cancelled}
    && (o.status == Filled ==> o.remaining == 0.0)
    && (o.status != Filled ==> o.filled == 0.0)
  }

  /** A fill of one of the orders, on its side of its symbol. */
  predicate BelongsTo(f: Fill, orders: map<string, Order>) {
    f.orderId in orders && orders[f.orderId].symbol == f.symbol && orders[f.orderId].side == f.side
  }

  /** Two books that differ at most in the last prices seen. */
  ghost predicate SameBook(a: Book, b: Book) {
    && a.trades == b.trades && a.positions.Keys == b.positions.Keys
    && forall s :: s in a.positions ==> a.positions[s].(current := None) == b.positions[s].(current := None)
  }

  ghost predicate Valid(s: Sim) {
    && (forall id :: id in s.active <==> id in s.orders && IsActive(s.orders[id]))
    && (forall id :: id in s.orders ==>
          s.orders[id].id == id && OrderOk(s.orders[id], FillQuantity(s.fills, id), FillValue(s.fills, id)))
    && (forall i :: 0 <= i < |s.fills| ==> BelongsTo(s.fills[i], s.orders) && s.fills[i].quantity > 0.0)
    && SameBook(s.book, Run(s.fills))
    && (forall id :: id in s.orders <==> id in s.registered)
    && (forall i, j :: 0 <= i < j < |s.registered| ==> s.registered[i] != s.registered[j])
  }

  lemma ProcessSame(a: Book, b: Book, f: Fill)
    requires SameBook(a, b)
    ensures SameBook(Process(a, f), Process(b, f))
  {
    var p, q := PositionFor(a, f), PositionFor(b, f);
    assert p.(current := None) == q.(current := None);
    SamePositionSteps(a, b, p, q, f);
    hide WeightedAverage, Reduces, DividesByZero, AddFill, Reduce, TradeOf;
  }

  lemma SamePositionSteps(a: Book, b: Book, p: Pos, q: Pos, f: Fill)
    requires |a.trades| == |b.trades| && p.(current := None) == q.(current := None)
    ensures Reduces(p, f) == Reduces(q, f) && DividesByZero(p, f) == DividesByZero(q, f)
    ensures Reduces(p, f) ==> TradeOf(a, p, f) == TradeOf(b, q, f)
    ensures !DividesByZero(p, f) ==> AddFill(p, f).(current := None) == AddFill(q, f).(current := None)
    ensures Reduce(p, f.quantity, f.price).(current := None) == Reduce(q, f.quantity, f.price).(current := None)
  {
    hide WeightedAverage;
  }

  lemma PricedSame(a: Book, b: Book, symbol: Symbol, price: real)
    requires SameBook(a, b)
    ensures SameBook(Priced(a, symbol, price), b)
  {
  }

  lemma {:induction false} FillSums(fills: seq<Fill>, f: Fill, id: string)
    ensures FillQuantity(fills + [f], id) == FillQuantity(fills, id) + (if f.orderId == id then f.quantity else 0.0)
    ensures FillValue(fills + [f], id) == FillValue(fills, id) + (if f.orderId == id then f.quantity * f.price else 0.0)
  {
    assert (fills + [f])[..|fills|] == fills;
  }

  lemma {:induction false} NoFills(fills: seq<Fill>, id: string)
    requires forall i :: 0 <= i < |fills| ==> fills[i].orderId != id
    ensures FillQuantity(fills, id) == 0.0 && FillValue(fills, id) == 0.0
  {
    if |fills| > 0 {
      NoFills(fills[..|fills| - 1], id);
    }
  }

  lemma FilledOk(o: Order, quantity: real, value: real, price: real, quantity': real, value': real)
    requires OrderOk(o, quantity, value) && o.status == Pending
    requires quantity' == quantity + o.remaining && value' == value + o.remaining * price
    ensures var o' := UpdateFill(o, o.remaining, price);
            && OrderOk(o', quantity', value')
            && o'.status == Filled && o'.id == o.id && o'.symbol == o.symbol && o'.side == o.side
  {
    assert o.filled == 0.0 && o.remaining == o.quantity;
    if o.avgFill.Some? {
      assert o.avgFill.value * 0.0 == 0.0;
    }
    assert price * o.remaining == o.remaining * price;
  }

  lemma {:induction false} RunSnoc(fills: seq<Fill>, f: Fill)
    ensures Run(fills + [f]) == Process(Run(fills), f)
  {
    assert (fills + [f])[..|fills|] == fills;
  }

  lemma VisitKeepsValid(c: Costs, s: Sim, t: Tick, id: string)
    requires Valid(s) && id in s.orders && s.orders[id].status == Pending
    ensures Valid(Visit(c, s, t, id))
  {
    hide OrderOk, SameBook, Process, TryFill, Run, FillQuantity, FillValue, UpdateFill;
    PendingPrices(s.orders[id], FillQuantity(s.fills, id), FillValue(s.fills, id));
    var r := TryFill(c, s.orders[id], t);
    if r.Some? {
      var f := r.value;
      var s' := Visit(c, s, t, id);
      var o := s.orders[id];
      FillSums(s.fills, f, id);
      FilledOk(o, FillQuantity(s.fills, id), FillValue(s.fills, id), f.price,
               FillQuantity(s'.fills, id), FillValue(s'.fills, id));
      ProcessSame(s.book, Run(s.fills), f);
      RunSnoc(s.fills, f);
      forall x | x in s'.orders && x != id
        ensures OrderOk(s'.orders[x], FillQuantity(s'.fills, x), FillValue(s'.fills, x))
      {
        FillSums(s.fills, f, x);
        assert FillQuantity(s'.fills, x) == FillQuantity(s.fills, x);
        assert FillValue(s'.fills, x) == FillValue(s.fills, x);
      }
    }
  }

  lemma PendingPrices(o: Order, quantity: real, value: real)
    requires OrderOk(o, quantity, value)
    ensures o.kind == Limit ==> o.limitPrice.Some?
    ensures o.kind == Stop ==> o.stopPrice.Some?
    ensures o.status == Pending ==> o.remaining > 0.0 && o.filled == 0.0
  {
  }

  // ------------------------------------------------------------------- ticks

  /** All orders of a list are pending orders of the tick's symbol. */
  predicate Ready(s: Sim, symbol: Symbol, ids: seq<string>) {
    NoRepeats(ids) && forall i :: 0 <= i < |ids| ==> ids[i] in Candidates(s, symbol)
  }

  /** The pending orders visited in a given order. */
  function VisitAll(c: Costs, s: Sim, t: Tick, ids: seq<string>): (r: Sim)
    requires Valid(s) && Ready(s, t.symbol, ids)
    ensures Valid(r)
    decreases |ids|
  {
    hide Valid, Visit, Ready;
    if |ids| == 0 then s
    else
      ReadyHead(s, t.symbol, ids);
      VisitKeepsValid(c, s, t, ids[0]);
      StillReady(c, s, t, ids);
      VisitAll(c, Visit(c, s, t, ids[0]), t, ids[1..])
  }

  lemma ReadyHead(s: Sim, symbol: Symbol, ids: seq<string>)
    requires Ready(s, symbol, ids) && |ids| > 0
    ensures ids[0] in s.orders && s.orders[ids[0]].status == Pending
  {
    assert ids[0] in Candidates(s, symbol);
  }

  lemma StillReady(c: Costs, s: Sim, t: Tick, ids: seq<string>)
    requires Valid(s) && |ids| > 0 && Ready(s, t.symbol, ids)
    ensures Ready(Visit(c, s, t, ids[0]), t.symbol, ids[1..])
  {
    hide Valid, Process, TryFill, UpdateFill;
    var s' := Visit(c, s, t, ids[0]);
    forall i | 0 <= i < |ids[1..]|
      ensures ids[1..][i] in Candidates(s', t.symbol)
    {
      assert ids[1..][i] == ids[i + 1] && ids[i + 1] in Candidates(s, t.symbol);
    }
  }

  /** What a tick does to one order, whatever happens to the others. */
  function Settled(c: Costs, o: Order, t: Tick): Order
    requires o.kind == Limit ==> o.limitPrice.Some?
    requires o.kind == Stop ==> o.stopPrice.Some?
    requires o.filled == 0.0
  {
    var f := TryFill(c, o, t);
    if f.None? then o else UpdateFill(o, f.value.quantity, f.value.price)
  }

  lemma ReadyOrder(s: Sim, symbol: Symbol, id: string)
    requires Valid(s) && id in Candidates(s, symbol)
    ensures id in s.orders && s.orders[id].filled == 0.0
    ensures s.orders[id].kind == Limit ==> s.orders[id].limitPrice.Some?
    ensures s.orders[id].kind == Stop ==> s.orders[id].stopPrice.Some?
  {
    PendingPrices(s.orders[id], FillQuantity(s.fills, id), FillValue(s.fills, id));
  }

  /** After the visits each listed order is settled on its own, every other
      order is untouched, and nobody else joins or leaves the active set. */
  lemma {:induction false} VisitAllSettles(c: Costs, s: Sim, t: Tick, ids: seq<string>, id: string)
    requires Valid(s) && Ready(s, t.symbol, ids) && id in s.orders
    decreases |ids|
    ensures var r := VisitAll(c, s, t, ids);
            && r.orders.Keys == s.orders.Keys && r.registered == s.registered
            && (id !in ids ==> r.orders[id] == s.orders[id])
            && (id in ids ==>
                  && id in Candidates(s, t.symbol)
                  && (ReadyOrder(s, t.symbol, id); r.orders[id] == Settled(c, s.orders[id], t)))
  {
    hide Valid, Process, TryFill, UpdateFill;
    if |ids| > 0 {
      var s' := Visit(c, s, t, ids[0]);
      VisitKeepsValid(c, s, t, ids[0]);
      StillReady(c, s, t, ids);
      assert id in ids <==> id == ids[0] || id in ids[1..];
      ReadyOrder(s, t.symbol, ids[0]);
      assert s'.orders.Keys == s.orders.Keys;
      VisitAllSettles(c, s', t, ids[1..], id);
      if id in ids {
        var i :| 0 <= i < |ids| && ids[i] == id;
        ReadyOrder(s, t.symbol, id);
      }
    }
  }

  /** Visiting one more order. */
  lemma {:induction false} VisitAllSnoc(c: Costs, s: Sim, t: Tick, ids: seq<string>, id: string)
    requires Valid(s) && Ready(s, t.symbol, ids + [id])
    ensures Ready(s, t.symbol, ids)
    ensures var r := VisitAll(c, s, t, ids);
            && id in r.orders && r.orders[id].status == Pending
            && VisitAll(c, s, t, ids + [id]) == Visit(c, r, t, id)
    decreases |ids|
  {
    hide Valid, Visit;
    ReadyPrefix(s, t.symbol, ids, id);
    if |ids| == 0 {
      assert ids + [id] == [id] && [id][1..] == [];
      ReadyHead(s, t.symbol, ids + [id]);
    } else {
      var all := ids + [id];
      ReadyHead(s, t.symbol, all);
      StillReady(c, s, t, all);
      VisitKeepsValid(c, s, t, ids[0]);
      assert all[1..] == ids[1..] + [id];
      VisitAllSnoc(c, Visit(c, s, t, ids[0]), t, ids[1..], id);
    }
  }

  lemma ReadyPrefix(s: Sim, symbol: Symbol, ids: seq<string>, id: string)
    requires Ready(s, symbol, ids + [id])
    ensures Ready(s, symbol, ids)
  {
    hide Candidates;
    assert forall i :: 0 <= i < |ids| ==> (ids + [id])[i] == ids[i];
  }

  /** The pending orders can be visited in any order: the same orders end up
      filled at the same prices, and the same ones stay active. */
  lemma {:induction false} VisitOrderIrrelevant(c: Costs, s: Sim, t: Tick, a: seq<string>, b: seq<string>)
    requires Valid(s) && Ready(s, t.symbol, a) && Ready(s, t.symbol, b)
    requires forall id :: id in a <==> id in b
    ensures VisitAll(c, s, t, a).orders == VisitAll(c, s, t, b).orders
    ensures VisitAll(c, s, t, a).active == VisitAll(c, s, t, b).active
  {
    hide Settled, VisitAll, Ready, Valid;
    TickKeepsKeys(c, s, t, a);
    TickKeepsKeys(c, s, t, b);
    forall id | id in s.orders
      ensures VisitAll(c, s, t, a).orders[id] == VisitAll(c, s, t, b).orders[id]
    {
      VisitAllSettles(c, s, t, a, id);
      VisitAllSettles(c, s, t, b, id);
    }
    SameOrdersSameActive(VisitAll(c, s, t, a), VisitAll(c, s, t, b));
  }

  lemma NothingToVisit(s: Sim, symbol: Symbol, ids: seq<string>)
    requires s.orders.Keys == {} && Ready(s, symbol, ids)
    ensures ids == []
  {
    if ids != [] {
      ReadyHead(s, symbol, ids);
    }
  }

  lemma SameOrdersSameActive(a: Sim, b: Sim)
    requires Valid(a) && Valid(b) && a.orders == b.orders
    ensures a.active == b.active
  {
    hide OrderOk, SameBook;
  }

  // ------------------------------------------------------------------- runs

  /** A tick names the order in which its candidates are visited. */
  datatype Event = Submits(order: Order) | Cancels(id: string) | Ticks(tick: Tick, visits: seq<string>)

  /** Orders are submitted as new, under ids not used before; a tick visits
      exactly its candidates. */
  predicate Legal(s: Sim, e: Event) {
    match e
    case Submits(o) => IsNew(o) && o.id !in s.orders
    case Cancels(_) => true
    case Ticks(t, ids) => Ready(s, t.symbol, ids) && forall id :: id in Candidates(s, t.symbol) ==> id in ids
  }

  /** A tick first reprices the position and then visits the orders. */
  function Repriced(s: Sim, t: Tick): Sim {
    s.(book := Priced(s.book, t.symbol, (t.bid + t.ask) / 2.0))
  }

  lemma RepricedValid(s: Sim, t: Tick)
    requires Valid(s)
    ensures Valid(Repriced(s, t))
  {
    PricedSame(s.book, Run(s.fills), t.symbol, (t.bid + t.ask) / 2.0);
  }

  function Step(c: Costs, s: Sim, e: Event): Sim
    requires Valid(s) && Legal(s, e)
  {
    match e
    case Submits(o) => Submit(s, o)
    case Cancels(id) => Cancel(s, id)
    case Ticks(t, ids) =>
      RepricedValid(s, t);
      VisitAll(c, Repriced(s, t), t, ids)
  }

  lemma SubmitKeepsValid(s: Sim, o: Order)
    requires Valid(s) && IsNew(o) && o.id !in s.orders
    ensures Valid(Submit(s, o))
  {
    hide SameBook, Run, FillQuantity, FillValue;
    assert forall i :: 0 <= i < |s.fills| ==> s.fills[i].orderId != o.id;
    NoFills(s.fills, o.id);
  }

  lemma CancelKeepsValid(s: Sim, id: string)
    requires Valid(s)
    ensures Valid(Cancel(s, id))
  {
    hide SameBook, Run, FillQuantity, FillValue;
  }

  lemma StepKeepsValid(c: Costs, s: Sim, e: Event)
    requires Valid(s) && Legal(s, e)
    ensures Valid(Step(c, s, e))
  {
    hide Valid, Submit, Cancel, VisitAll;
    match e {
      case Submits(o) => SubmitKeepsValid(s, o);
      case Cancels(id) => CancelKeepsValid(s, id);
      case Ticks(t, ids) => RepricedValid(s, t);
    }
  }

  /** The states of a legal run. */
  ghost predicate Reachable(c: Costs, s: Sim, events: seq<Event>)
    decreases |events|
  {
    if |events| == 0 then s == IDLE
    else
      exists before :: && Reachable(c, before, events[..|events| - 1]) && Valid(before)
                       && Legal(before, events[|events| - 1]) && s == Step(c, before, events[|events| - 1])
  }

  /** In every reachable state the active set is exactly the active orders,
      filled plus remaining is the quantity, the average fill price accounts
      for the fills of the order, and the books are those of the fills. */
  lemma {:induction false} ReachableValid(c: Costs, s: Sim, events: seq<Event>)
    requires Reachable(c, s, events)
    ensures Valid(s)
  {
    if |events| > 0 {
      var before :| && Reachable(c, before, events[..|events| - 1]) && Valid(before)
                    && Legal(before, events[|events| - 1]) && s == Step(c, before, events[|events| - 1]);
      StepKeepsValid(c, before, events[|events| - 1]);
    } else {
      IdleValid();
    }
  }

  lemma IdleValid()
    ensures Valid(IDLE)
  {
  }

  /** Over every run, a tick of its symbol decides each pending order: one that
      meets the tick is FILLED with nothing remaining, its average price the base
      price with slippage, and every other order of any kind stays as it was. */
  lemma {:induction false} TickDecides(c: Costs, s: Sim, e: Event, id: string)
    requires Valid(s) && Legal(s, e) && e.Ticks? && id in s.orders
    ensures var o, t := s.orders[id], e.tick;
            && (o.kind == Limit ==> o.limitPrice.Some?) && (o.kind == Stop ==> o.stopPrice.Some?)
            && id in Step(c, s, e).orders
            && var slip := c.slippage(Base(o, t), o.quantity, t.bidSize + t.askSize);
               Step(c, s, e).orders[id]
               == if o.symbol == t.symbol && o.status == Pending && Meets(o, t)
                  then o.(status := Filled, filled := o.quantity, remaining := 0.0,
                          avgFill := Some(Base(o, t) + if o.side == Buy then slip else -slip))
                  else o
  {
    hide Valid, VisitAll, TryFill, Candidates, UpdateFill, Meets, Base;
    var o, t := s.orders[id], e.tick;
    RepricedValid(s, t);
    var r := Repriced(s, t);
    SameCandidates(s, t);
    assert Ready(r, t.symbol, e.visits);
    VisitAllSettles(c, r, t, e.visits, id);
    OrderParts(s, id);
    CandidateIff(s, t.symbol, id);
    if id in e.visits {
      FillsExactlyWhenMet(c, o, t);
      if Meets(o, t) {
        var slip := c.slippage(Base(o, t), o.remaining, t.bidSize + t.askSize);
        WholeFill(o, Base(o, t) + if o.side == Buy then slip else -slip);
      }
    }
  }

  /** Submitting adds the order as PENDING and touches no other; cancelling ends an
      order exactly while it is pending, and touches no other. Neither trades. */
  lemma SubmitsAndCancelsDecide(c: Costs, s: Sim, e: Event, id: string)
    requires Valid(s) && Legal(s, e) && !e.Ticks?
    ensures var r := Step(c, s, e);
            && r.book == s.book && r.fills == s.fills
            && (id in r.orders <==> id in s.orders || (e.Submits? && e.order.id == id))
            && (id in r.orders ==>
                  r.orders[id] == if e.Submits? && e.order.id == id then e.order.(status := Pending)
                                  else if e == Cancels(id) && s.orders[id].status == Pending
                                  then s.orders[id].(status := Cancelled) else s.orders[id])
  {
    hide SameBook, Run, FillQuantity, FillValue;
    if e.Cancels? && e.id in s.orders {
      assert OrderOk(s.orders[e.id], FillQuantity(s.fills, e.id), FillValue(s.fills, e.id));
    }
  }

  predicate HasPrices(o: Order) {
    (o.kind == Limit ==> o.limitPrice.Some?) && (o.kind == Stop ==> o.stopPrice.Some?)
  }

  /** The fill that a tick makes of an order, if it meets it: all of it, with the
      costs of its base price. */
  function FillOf(c: Costs, o: Order, t: Tick): seq<Fill> {
    if !HasPrices(o) || !Meets(o, t) then []
    else
      var base := Base(o, t);
      var slip := c.slippage(base, o.quantity, t.bidSize + t.askSize);
      [Fill(o.id, o.symbol, o.side, o.quantity, base + (if o.side == Buy then slip else -slip),
            t.time, c.commission(o.quantity, base), slip)]
  }

  function FillsOf(c: Costs, orders: map<string, Order>, t: Tick, ids: seq<string>): seq<Fill> {
    if |ids| == 0 then []
    else (if ids[0] in orders then FillOf(c, orders[ids[0]], t) else []) + FillsOf(c, orders, t, ids[1..])
  }

  lemma {:induction false} FillsOfSame(c: Costs, a: map<string, Order>, b: map<string, Order>, t: Tick, ids: seq<string>)
    requires forall id :: id in ids ==> id in a && id in b && a[id] == b[id]
    ensures FillsOf(c, a, t, ids) == FillsOf(c, b, t, ids)
  {
    hide FillOf;
    if |ids| > 0 {
      assert ids[0] in ids && forall id :: id in ids[1..] ==> id in ids;
      FillsOfSame(c, a, b, t, ids[1..]);
    }
  }

  /** Over every run, a tick adds to the fills those of the orders that meet it, in
      the order of the visits and with their costs, and no others. */
  lemma {:induction false} TickFills(c: Costs, s: Sim, e: Event)
    requires Valid(s) && Legal(s, e) && e.Ticks?
    ensures Step(c, s, e).fills == s.fills + FillsOf(c, s.orders, e.tick, e.visits)
  {
    hide Valid, VisitAll, FillsOf, Candidates;
    RepricedValid(s, e.tick);
    SameCandidates(s, e.tick);
    VisitAllFills(c, Repriced(s, e.tick), e.tick, e.visits);
  }

  lemma {:induction false} VisitAllFills(c: Costs, s: Sim, t: Tick, ids: seq<string>)
    requires Valid(s) && Ready(s, t.symbol, ids)
    ensures VisitAll(c, s, t, ids).fills == s.fills + FillsOf(c, s.orders, t, ids)
    decreases |ids|
  {
    hide Valid, Visit, Ready, FillOf;
    if |ids| > 0 {
      ReadyHead(s, t.symbol, ids);
      VisitKeepsValid(c, s, t, ids[0]);
      StillReady(c, s, t, ids);
      var s' := Visit(c, s, t, ids[0]);
      VisitAllFills(c, s', t, ids[1..]);
      VisitFills(c, s, t, ids[0]);
      OthersKept(c, s, t, ids);
      FillsOfSame(c, s.orders, s'.orders, t, ids[1..]);
    }
  }

  lemma VisitFills(c: Costs, s: Sim, t: Tick, id: string)
    requires Valid(s) && id in s.orders && s.orders[id].status == Pending
    ensures Visit(c, s, t, id).fills == s.fills + FillOf(c, s.orders[id], t)
  {
    OrderParts(s, id);
    FillsExactlyWhenMet(c, s.orders[id], t);
    hide Valid, TryFill, Meets, Base, Process, UpdateFill;
  }

  lemma OthersKept(c: Costs, s: Sim, t: Tick, ids: seq<string>)
    requires Valid(s) && Ready(s, t.symbol, ids) && |ids| > 0
    requires ids[0] in s.orders && s.orders[ids[0]].status == Pending
    ensures forall id :: id in ids[1..] ==>
              id in s.orders && id in Visit(c, s, t, ids[0]).orders && Visit(c, s, t, ids[0]).orders[id] == s.orders[id]
  {
    hide Valid, TryFill, Process, UpdateFill;
    forall id | id in ids[1..]
      ensures id in s.orders && id != ids[0]
    {
      var i :| 0 <= i < |ids[1..]| && ids[1..][i] == id;
      assert ids[i + 1] == id && id in Candidates(s, t.symbol);
    }
  }

  /** A tick gives the position of its symbol the middle of the quotes as current
      price before any order is matched; positions opened by its own fills have no
      price yet, and those of other symbols are not touched. */
  lemma {:induction false} TickPrices(c: Costs, s: Sim, e: Event, y: Symbol)
    requires Valid(s) && Legal(s, e) && e.Ticks? && y in Step(c, s, e).book.positions
    ensures var t, p := e.tick, Step(c, s, e).book.positions[y];
            && (y != t.symbol ==> y in s.book.positions && p == s.book.positions[y])
            && (y == t.symbol ==> p.current == None || (p.current.Some? && 2.0 * p.current.value == t.bid + t.ask))
            && (y == t.symbol && FillsOf(c, s.orders, t, e.visits) == [] ==>
                  y in s.book.positions && p.current.Some? && p == s.book.positions[y].(current := p.current))
  {
    hide Valid, VisitAll, FillsOf, Candidates, Process;
    var t := e.tick;
    RepricedValid(s, t);
    SameCandidates(s, t);
    var r := Repriced(s, t);
    VisitAllPrices(c, r, t, e.visits, y);
    VisitAllFills(c, r, t, e.visits);
  }

  lemma {:induction false} VisitAllPrices(c: Costs, s: Sim, t: Tick, ids: seq<string>, y: Symbol)
    requires Valid(s) && Ready(s, t.symbol, ids)
    ensures var b, b' := s.book, VisitAll(c, s, t, ids).book;
            && (y != t.symbol ==> At(b', y) == At(b, y))
            && (y in b'.positions ==>
                  b'.positions[y].current == None || (y in b.positions && b'.positions[y].current == b.positions[y].current))
            && (FillsOf(c, s.orders, t, ids) == [] ==> b' == b)
    decreases |ids|
  {
    hide Valid, Visit, Ready, FillOf, Process;
    if |ids| > 0 {
      ReadyHead(s, t.symbol, ids);
      VisitKeepsValid(c, s, t, ids[0]);
      StillReady(c, s, t, ids);
      VisitAllPrices(c, Visit(c, s, t, ids[0]), t, ids[1..], y);
      VisitFills(c, s, t, ids[0]);
      OthersKept(c, s, t, ids);
      FillsOfSame(c, s.orders, Visit(c, s, t, ids[0]).orders, t, ids[1..]);
      HeadSymbol(s, t.symbol, ids);
      VisitPrices(c, s, t, ids[0], y);
    }
  }

  lemma HeadSymbol(s: Sim, symbol: Symbol, ids: seq<string>)
    requires Ready(s, symbol, ids) && |ids| > 0
    ensures ids[0] in s.orders && s.orders[ids[0]].symbol == symbol
  {
    assert ids[0] in Candidates(s, symbol);
  }

  lemma VisitPrices(c: Costs, s: Sim, t: Tick, id: string, y: Symbol)
    requires Valid(s) && id in s.orders && s.orders[id].status == Pending
    ensures var b, b' := s.book, Visit(c, s, t, id).book;
            && (y != s.orders[id].symbol ==> At(b', y) == At(b, y))
            && (y in b'.positions ==>
                  b'.positions[y].current == None || (y in b.positions && b'.positions[y].current == b.positions[y].current))
            && (Visit(c, s, t, id).fills == s.fills ==> b' == b)
  {
    OrderParts(s, id);
    var r := TryFill(c, s.orders[id], t);
    hide Valid, TryFill, UpdateFill;
    if r.Some? {
      assert Visit(c, s, t, id).fills == s.fills + [r.value];
      ProcessPrices(s.book, r.value, y);
    }
  }

  lemma ProcessPrices(b: Book, f: Fill, y: Symbol)
    ensures var b' := Process(b, f);
            && (y != f.symbol ==> At(b', y) == At(b, y))
            && (y in b'.positions ==>
                  b'.positions[y].current == None || (y in b.positions && b'.positions[y].current == b.positions[y].current))
  {
    hide WeightedAverage;
  }

  lemma SameCandidates(s: Sim, t: Tick)
    ensures Candidates(Repriced(s, t), t.symbol) == Candidates(s, t.symbol)
  {
  }

  lemma CandidateIff(s: Sim, symbol: Symbol, id: string)
    requires Valid(s) && id in s.orders
    ensures id in Candidates(s, symbol) <==> s.orders[id].symbol == symbol && s.orders[id].status == Pending
  {
    hide SameBook, OrderOk;
  }

  lemma OrderParts(s: Sim, id: string)
    requires Valid(s) && id in s.orders
    ensures var o := s.orders[id];
            && (o.kind == Limit ==> o.limitPrice.Some?) && (o.kind == Stop ==> o.stopPrice.Some?)
            && (o.status == Pending ==> o.filled == 0.0 && o.remaining == o.quantity && o.quantity > 0.0)
  {
    PendingPrices(s.orders[id], FillQuantity(s.fills, id), FillValue(s.fills, id));
  }

  lemma WholeFill(o: Order, price: real)
    requires o.filled == 0.0 && o.remaining == o.quantity > 0.0
    ensures UpdateFill(o, o.remaining, price)
            == o.(status := Filled, filled := o.quantity, remaining := 0.0, avgFill := Some(price))
  {
  }

  /** Filled and cancelled orders never change again. */
  lemma DoneIsForever(c: Costs, s: Sim, e: Event, id: string)
    requires Valid(s) && Legal(s, e)
    requires id in s.orders && s.orders[id].status in {Filled, Cancelled}
    ensures id in Step(c, s, e).orders && Step(c, s, e).orders[id] == s.orders[id]
  {
    hide Valid, VisitAll, Settled;
    if e.Ticks? {
      RepricedValid(s, e.tick);
      assert id !in Candidates(s, e.tick.symbol);
      assert Ready(Repriced(s, e.tick), e.tick.symbol, e.visits);
      VisitAllSettles(c, Repriced(s, e.tick), e.tick, e.visits, id);
    }
  }

  /** An order that is not filled and cannot be. */
  predicate Unfilled(o: Order) {
    o.kind == StopLimit ==> o.status in {Pending, Cancelled} && o.filled == 0.0
  }

  lemma StepUnfilled(c: Costs, s: Sim, e: Event, id: string)
    requires Valid(s) && Legal(s, e) && id in Step(c, s, e).orders
    requires id in s.orders ==> Unfilled(s.orders[id])
    ensures Unfilled(Step(c, s, e).orders[id])
  {
    hide Valid, VisitAll;
    if e.Ticks? {
      RepricedValid(s, e.tick);
      var r := Repriced(s, e.tick);
      assert Ready(r, e.tick.symbol, e.visits);
      TickKeepsKeys(c, r, e.tick, e.visits);
      VisitAllSettles(c, r, e.tick, e.visits, id);
    }
  }

  lemma {:induction false} TickKeepsKeys(c: Costs, s: Sim, t: Tick, ids: seq<string>)
    requires Valid(s) && Ready(s, t.symbol, ids)
    ensures VisitAll(c, s, t, ids).orders.Keys == s.orders.Keys
  {
    hide Valid, VisitAll;
    if s.orders.Keys != {} {
      var id :| id in s.orders.Keys;
      VisitAllSettles(c, s, t, ids, id);
    } else {
      NothingToVisit(s, t.symbol, ids);
      VisitNone(c, s, t);
    }
  }

  lemma {:induction false} VisitNone(c: Costs, s: Sim, t: Tick)
    requires Valid(s) && Ready(s, t.symbol, [])
    ensures VisitAll(c, s, t, []) == s
  {
  }

  /** Simulated matching knows no stop-limit orders: over every run they stay
      pending until they are cancelled. */
  lemma {:induction false} StopLimitNeverFills(c: Costs, s: Sim, events: seq<Event>, id: string)
    requires Reachable(c, s, events) && id in s.orders && s.orders[id].kind == StopLimit
    ensures s.orders[id].status in {Pending, Cancelled} && s.orders[id].filled == 0.0
  {
    RunUnfilled(c, s, events, id);
  }

  lemma {:induction false} RunUnfilled(c: Costs, s: Sim, events: seq<Event>, id: string)
    requires Reachable(c, s, events) && id in s.orders
    ensures Unfilled(s.orders[id])
    decreases |events|
  {
    hide Valid, Step, Legal;
    if |events| > 0 {
      var before :| && Reachable(c, before, events[..|events| - 1]) && Valid(before)
                    && Legal(before, events[|events| - 1]) && s == Step(c, before, events[|events| - 1]);
      if id in before.orders {
        RunUnfilled(c, before, events[..|events| - 1], id);
      }
      StepUnfilled(c, before, events[|events| - 1], id);
    }
  }

  /** Any slippage on a quantity shows in a run: an order submitted and met by a
      quote at its limit ends up filled beyond it. */
  lemma BeyondLimitReached(c: Costs, symbol: Symbol, p: real, q: real, v: real) returns (s: Sim, events: seq<Event>)
    requires q > 0.0 && c.slippage(p, q, v) > 0.0
    ensures Reachable(c, s, events)
    ensures exists id :: && id in s.orders && s.orders[id].kind == Limit && s.orders[id].limitPrice == Some(p)
                         && s.orders[id].status == Filled && s.orders[id].avgFill.Some?
                         && !WithinLimit(s.orders[id], s.orders[id].avgFill.value)
  {
    var o, t := AtLimit("", symbol, q, p), AtQuote(symbol, p, v);
    IdleValid();
    assert IsNew(o);
    SubmitKeepsValid(IDLE, o);
    var before := Submit(IDLE, o);
    assert Step(c, IDLE, Submits(o)) == before;
    var first := [Submits(o)];
    assert Reachable(c, IDLE, first[..0]);
    assert Reachable(c, before, first);
    var e := Ticks(t, [""]);
    assert Candidates(before, symbol) == {""};
    assert Legal(before, e);
    s, events := Step(c, before, e), first + [e];
    assert events[..1] == first;
    assert Reachable(c, s, events);
    var r := Repriced(before, t);
    RepricedValid(before, t);
    assert Ready(r, symbol, [""]);
    VisitAllSettles(c, r, t, [""], "");
    var pending := o.(status := Pending);
    LimitKeptIff(c, pending, t);
    assert v + 0.0 == v;
    assert s.orders[""] == Settled(c, pending, t);
    assert !WithinLimit(s.orders[""], s.orders[""].avgFill.value);
  }

  // ---------------------------------------------------------- net positions

  function SignedFilled(o: Order): real { if o.side == Buy then o.filled else -o.filled }

  /** Signed filled quantity of a symbol over a list of orders. */
  function FilledNet(orders: map<string, Order>, ids: seq<string>, symbol: Symbol): real {
    if |ids| == 0 then 0.0
    else
      var id := ids[|ids| - 1];
      FilledNet(orders, ids[..|ids| - 1], symbol)
      + if id in orders && orders[id].symbol == symbol then SignedFilled(orders[id]) else 0.0
  }

  /** The same sum with the filled quantities read off the fills. */
  function FilledBy(orders: map<string, Order>, ids: seq<string>, fills: seq<Fill>, symbol: Symbol): real {
    if |ids| == 0 then 0.0
    else
      var id := ids[|ids| - 1];
      FilledBy(orders, ids[..|ids| - 1], fills, symbol)
      + if id in orders && orders[id].symbol == symbol then
          (if orders[id].side == Buy then FillQuantity(fills, id) else -FillQuantity(fills, id))
        else 0.0
  }

  lemma {:induction false} FilledByNothing(orders: map<string, Order>, ids: seq<string>, symbol: Symbol)
    ensures FilledBy(orders, ids, [], symbol) == 0.0
  {
    if |ids| > 0 {
      FilledByNothing(orders, ids[..|ids| - 1], symbol);
    }
  }

  /** A fill changes the term of its own order only. */
  lemma {:induction false} FilledBySnoc(orders: map<string, Order>, ids: seq<string>, fills: seq<Fill>, f: Fill, symbol: Symbol)
    requires NoRepeats(ids) && BelongsTo(f, orders)
    ensures FilledBy(orders, ids, fills + [f], symbol)
            == FilledBy(orders, ids, fills, symbol)
               + if f.orderId in ids && f.symbol == symbol then Signed(f) else 0.0
  {
    if |ids| > 0 {
      var n := |ids| - 1;
      FilledBySnoc(orders, ids[..n], fills, f, symbol);
      FillSums(fills, f, ids[n]);
      assert f.orderId in ids <==> f.orderId in ids[..n] || f.orderId == ids[n];
      if f.orderId == ids[n] {
        assert f.orderId !in ids[..n];
      }
    }
  }

  lemma {:induction false} NetIsFilledBy(orders: map<string, Order>, ids: seq<string>, fills: seq<Fill>, symbol: Symbol)
    requires NoRepeats(ids)
    requires forall i :: 0 <= i < |fills| ==> BelongsTo(fills[i], orders) && fills[i].orderId in ids
    ensures Net(fills, symbol) == FilledBy(orders, ids, fills, symbol)
  {
    hide BelongsTo;
    if |fills| > 0 {
      var n := |fills| - 1;
      NetIsFilledBy(orders, ids, fills[..n], symbol);
      FilledBySnoc(orders, ids, fills[..n], fills[n], symbol);
      assert fills[..n] + [fills[n]] == fills;
    } else {
      assert fills == [];
      FilledByNothing(orders, ids, symbol);
    }
  }

  lemma {:induction false} FilledNetIsFilledBy(orders: map<string, Order>, ids: seq<string>, fills: seq<Fill>, symbol: Symbol)
    requires forall id :: id in orders ==> orders[id].filled == FillQuantity(fills, id)
    ensures FilledNet(orders, ids, symbol) == FilledBy(orders, ids, fills, symbol)
  {
    if |ids| > 0 {
      FilledNetIsFilledBy(orders, ids[..|ids| - 1], fills, symbol);
    }
  }

  lemma ValidParts(s: Sim)
    requires Valid(s)
    ensures NoRepeats(s.registered) && AllPositive(s.fills) && SameBook(s.book, Run(s.fills))
    ensures forall i :: 0 <= i < |s.fills| ==> BelongsTo(s.fills[i], s.orders) && s.fills[i].orderId in s.registered
    ensures forall id :: id in s.orders ==> s.orders[id].filled == FillQuantity(s.fills, id)
  {
  }

  /** In every valid state, when no fill closed more than was open, the position
      of each symbol has the sign and size of the signed filled quantities of
      its orders, and its books balance at every mark. */
  lemma {:induction false} NetPosition(s: Sim, symbol: Symbol)
    requires Valid(s) && NeverOverCloses(s.fills)
    ensures var net := FilledNet(s.orders, s.registered, symbol);
            && (symbol in s.book.positions <==> net != 0.0)
            && (symbol in s.book.positions ==>
                  && s.book.positions[symbol].quantity == (if net > 0.0 then net else -net)
                  && (s.book.positions[symbol].side == Buy <==> net > 0.0))
            && (forall mark: real :: RealizedSum(s.book.trades, symbol) + OpenProfit(s.book, symbol, mark)
                                     == Cash(s.fills, symbol) + net * mark)
  {
    hide Valid, Run, NeverOverCloses, OrderOk, FilledBy, Net, Cash, RealizedSum, BelongsTo;
    ValidParts(s);
    NetIsFilledBy(s.orders, s.registered, s.fills, symbol);
    FilledNetIsFilledBy(s.orders, s.registered, s.fills, symbol);
    PositionIsNet(s.fills, symbol);
    CleanRunBalances(s.fills, symbol);
    SamePositions(s.book, Run(s.fills), symbol);
    forall mark: real
      ensures RealizedSum(s.book.trades, symbol) + OpenProfit(s.book, symbol, mark)
              == Cash(s.fills, symbol) + FilledNet(s.orders, s.registered, symbol) * mark
    {
      assert Balanced(s.fills, symbol, mark);
      assert OpenProfit(s.book, symbol, mark) == OpenProfit(Run(s.fills), symbol, mark);
    }
  }

  lemma SamePositions(a: Book, b: Book, symbol: Symbol)
    requires SameBook(a, b)
    ensures a.trades == b.trades
    ensures symbol in a.positions <==> symbol in b.positions
    ensures symbol in a.positions ==>
              && a.positions[symbol].quantity == b.positions[symbol].quantity
              && a.positions[symbol].side == b.positions[symbol].side
    ensures forall mark: real :: OpenProfit(a, symbol, mark) == OpenProfit(b, symbol, mark)
  {
    if symbol in a.positions {
      var p, q := a.positions[symbol].(current := None), b.positions[symbol].(current := None);
      assert p == q;
      assert forall mark: real :: UnrealizedAt(a.positions[symbol], mark) == UnrealizedAt(p, mark);
      assert forall mark: real :: UnrealizedAt(b.positions[symbol], mark) == UnrealizedAt(q, mark);
    }
  }
}
