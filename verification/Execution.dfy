/** The order manager and the execution engine in simulation mode, with order
    objects updated in place. */
module Execution {
  import opened Market
  import opened Optional
  import opened Accounting
  import opened Positions
  import opened Simulation
  import OrderDesk

  /** An order object with the methods that change it in place; the manager
      below keeps the orders as values. */
  class LiveOrder {
    const initial: Order
    var status: Status
    var filledQuantity: real
    var remainingQuantity: real
    var avgFillPrice: Option<real>

    function Value(): Order
      reads this
    {
      initial.(status := status, filled := filledQuantity, remaining := remainingQuantity, avgFill := avgFillPrice)
    }

    constructor (order: Order)
      ensures Value() == order
    {
      initial, status := order, order.status;
      filledQuantity, remainingQuantity, avgFillPrice := order.filled, order.remaining, order.avgFill;
    }

    /** Books a fill: the average price is weighted by quantity. `failed` stands for
        the error in that average, which changes nothing. */
    method Update(quantity: real, price: real) returns (failed: bool)
      modifies this
      ensures failed == !OrderDesk.Bookable(old(Value()), quantity)
      ensures Value() == if failed then old(Value()) else UpdateFill(old(Value()), quantity, price)
    {
      failed := false;
      if filledQuantity == 0.0 {
        avgFillPrice := Some(price);
      } else if avgFillPrice.None? || filledQuantity + quantity == 0.0 {
        return true;
      } else {
        avgFillPrice := Some(WeightedAverage(filledQuantity, avgFillPrice.value, quantity, price));
      }
      filledQuantity := filledQuantity + quantity;
      remainingQuantity := remainingQuantity - quantity;
      if remainingQuantity <= 0.0 {
        status := Filled;
      } else {
        status := PartiallyFilled;
      }
    }

    method Cancel()
      modifies this`status
      ensures Value() == if IsActive(old(Value())) then old(Value()).(status := Cancelled) else old(Value())
    {
      if IsActive(Value()) {
        status := Cancelled;
      }
    }
  }

  class OrderManager {
    var orders: map<string, Order>
    var bySymbol: map<Symbol, seq<string>>
    var active: set<string>

    function State(): OrderDesk.Desk
      reads this
    {
      OrderDesk.Desk(orders, active, bySymbol)
    }

    constructor ()
      ensures State() == OrderDesk.NO_ORDERS
    {
      orders, bySymbol, active := map[], map[], {};
    }

    method Register(order: Order)
      modifies this
      ensures State() == OrderDesk.Book(old(State()), OrderDesk.Registers(order))
    {
      orders := orders[order.id := order];
      var ids := if order.symbol in bySymbol then bySymbol[order.symbol] else [];
      bySymbol := bySymbol[order.symbol := ids + [order.id]];
      active := active + {order.id};
    }

    /** The orders of a symbol in order of registration. */
    method GetOrdersBySymbol(symbol: Symbol) returns (found: seq<Order>)
      ensures var ids := OrderDesk.ListOf(State(), symbol);
              (forall i :: 0 <= i < |ids| ==> ids[i] in orders)
              ==> |found| == |ids| && forall i :: 0 <= i < |ids| ==> found[i] == orders[ids[i]]
    {
      var ids := if symbol in bySymbol then bySymbol[symbol] else [];
      found := [];
      for i := 0 to |ids|
        invariant (forall j :: 0 <= j < |ids| ==> ids[j] in orders)
                  ==> |found| == i && forall j :: 0 <= j < i ==> found[j] == orders[ids[j]]
      {
        if ids[i] in orders {
          found := found + [orders[ids[i]]];
        }
      }
    }

    /** Books a fill for a known order and retires it when it is done; `failed`
        stands for the error in the average price, which changes nothing. */
    method ProcessFill(id: string, quantity: real, price: real) returns (failed: bool)
      modifies this
      ensures failed == (id in old(orders) && !OrderDesk.Bookable(old(orders)[id], quantity))
      ensures State() == OrderDesk.Book(old(State()), OrderDesk.Fills(id, quantity, price))
    {
      if id !in orders {
        return false;
      }
      if !OrderDesk.Bookable(orders[id], quantity) {
        return true;
      }
      orders := orders[id := UpdateFill(orders[id], quantity, price)];
      if !IsActive(orders[id]) {
        active := active - {id};
      }
      failed := false;
    }

    /** Cancels an active order; unknown and finished orders are refused. */
    method CancelOrder(id: string) returns (ok: bool)
      modifies this
      ensures ok == (id in old(orders) && IsActive(old(orders)[id]))
      ensures State() == OrderDesk.Book(old(State()), OrderDesk.Withdraws(id))
    {
      if id !in orders {
        return false;
      }
      if !IsActive(orders[id]) {
        return false;
      }
      orders := orders[id := orders[id].(status := Cancelled)];
      active := active - {id};
      return true;
    }

    /** Cancels every active order, or every one of a symbol, and counts them. */
    method CancelAll(symbol: Option<Symbol>) returns (count: nat)
      requires forall id :: id in active ==> id in orders && IsActive(orders[id])
      modifies this
      ensures var chosen := Selected(old(orders), old(active), symbol);
              && count == |chosen| && active == old(active) - chosen
              && orders == CancelEach(old(orders), chosen) && bySymbol == old(bySymbol)
    {
      hide CancelEach;
      ghost var before, chosen := orders, Selected(orders, active, symbol);
      var todo := Selected(orders, active, symbol);
      assert chosen - todo == {};
      CancelNone(before);
      count := 0;
      while todo != {}
        invariant todo <= chosen && count == |chosen - todo|
        invariant active == old(active) - (chosen - todo) && bySymbol == old(bySymbol)
        invariant orders == CancelEach(before, chosen - todo)
        decreases todo
      {
        var id :| id in todo;
        CancelOneMore(before, chosen, todo, id);
        var ok := CancelOrder(id);
        todo := todo - {id};
        if ok {
          count := count + 1;
        }
      }
      assert chosen - todo == chosen;
    }
  }

  /** The active orders, or those of one symbol. */
  function Selected(orders: map<string, Order>, active: set<string>, symbol: Option<Symbol>): set<string> {
    set id | id in active && id in orders && (symbol.None? || orders[id].symbol == symbol.value)
  }

  function CancelEach(orders: map<string, Order>, ids: set<string>): map<string, Order> {
    map id | id in orders :: if id in ids then orders[id].(status := Cancelled) else orders[id]
  }

  lemma CancelNone(orders: map<string, Order>)
    ensures CancelEach(orders, {}) == orders
  {
  }

  lemma CancelOneMore(orders: map<string, Order>, chosen: set<string>, todo: set<string>, id: string)
    requires id in todo && todo <= chosen && id in orders
    ensures |chosen - (todo - {id})| == |chosen - todo| + 1
    ensures chosen - (todo - {id}) == chosen - todo + {id}
    ensures id in CancelEach(orders, chosen - todo) && CancelEach(orders, chosen - todo)[id] == orders[id]
    ensures CancelEach(orders, chosen - (todo - {id}))
            == CancelEach(orders, chosen - todo)[id := orders[id].(status := Cancelled)]
  {
    assert chosen - (todo - {id}) == chosen - todo + {id};
  }

  /** Cancelling the selected orders, order by order: an active order of the symbol,
      or any without one, becomes CANCELLED and leaves the active ids; every other
      stays as it is. */
  lemma CancelAllIs(orders: map<string, Order>, active: set<string>, symbol: Option<Symbol>)
    requires forall id :: id in active ==> id in orders
    ensures var chosen := Selected(orders, active, symbol);
            var after := CancelEach(orders, chosen);
            && after.Keys == orders.Keys
            && (forall id :: id in orders ==>
                  after[id] == if id in active && (symbol.Some? ==> symbol.value == orders[id].symbol)
                               then orders[id].(status := Cancelled) else orders[id])
            && (forall id :: id in active - chosen <==> id in active && symbol.Some? && symbol.value != orders[id].symbol)
            && |chosen| == |active| - |active - chosen|
  {
    var chosen := Selected(orders, active, symbol);
    assert active == chosen + (active - chosen) && chosen !! active - chosen;
    assert |active| == |chosen| + |active - chosen|;
  }

  class ExecutionEngine {
    const costs: Costs
    const manager: OrderManager
    const positions: PositionManager
    /** The state as a value, with the history of registrations and fills. */
    ghost var model: Sim

    ghost predicate Consistent()
      reads this, manager, positions, positions.positions.Values
    {
      && positions.Valid() && Simulation.Valid(model)
      && manager.orders == model.orders && manager.active == model.active
      && positions.Contents() == model.book
    }

    constructor (costs: Costs, manager: OrderManager, positions: PositionManager)
      requires manager.orders == map[] && manager.active == {}
      requires positions.Valid() && positions.positions == map[] && positions.trades == []
      ensures Consistent() && model == IDLE
      ensures this.costs == costs && this.manager == manager && this.positions == positions
    {
      this.costs, this.manager, this.positions := costs, manager, positions;
      model := IDLE;
      new;
      IdleValid();
    }

    /** Without a broker a registered order waits as PENDING. */
    method SubmitOrder(order: Order)
      requires Consistent() && IsNew(order) && order.id !in manager.orders
      modifies manager, this`model
      ensures Consistent()
      ensures model == Submit(old(model), order)
    {
      hide Simulation.Valid, IsNew;
      SubmitKeepsValid(model, order);
      model := Submit(model, order);
      manager.Register(order);
      manager.orders := manager.orders[order.id := order.(status := Pending)];
    }

    method CancelOrder(id: string) returns (ok: bool)
      requires Consistent()
      modifies manager, this`model
      ensures Consistent()
      ensures ok == CanCancel(old(model), id)
      ensures model == Simulation.Cancel(old(model), id)
    {
      hide Simulation.Valid;
      CancelKeepsValid(model, id);
      model := Simulation.Cancel(model, id);
      ok := manager.CancelOrder(id);
    }

    /** Reprices the symbol's position and matches its pending orders, visited
        in an arbitrary order. */
    method ProcessTick(tick: Tick) returns (ghost visits: seq<string>)
      requires Consistent()
      modifies manager, positions, positions.positions.Values, this`model
      ensures Consistent()
      ensures Legal(old(model), Ticks(tick, visits))
      ensures model == Simulation.Step(costs, old(model), Ticks(tick, visits))
      ensures forall s :: s in positions.positions ==>
                positions.positions[s] in old(positions.positions.Values) || fresh(positions.positions[s])
    {
      hide Simulation.Valid, Repriced;
      Reprice(tick);
      RepricedKeeps(old(model), tick);
      var pending := set id | id in manager.active && id in manager.orders
                              && manager.orders[id].symbol == tick.symbol
                              && manager.orders[id].status == Pending;
      assert pending == Candidates(model, tick.symbol);
      visits := ProcessPending(tick, pending);
    }

    /** The symbol's position takes the mid price. */
    method Reprice(tick: Tick)
      requires Consistent()
      modifies positions.positions.Values, this`model
      ensures Consistent()
      ensures model == Repriced(old(model), tick)
      ensures positions.positions == old(positions.positions)
    {
      hide Simulation.Valid;
      RepricedValid(model, tick);
      model := Repriced(model, tick);
      positions.UpdatePrice(tick.symbol, (tick.bid + tick.ask) / 2.0);
    }

    static lemma RepricedKeeps(s: Sim, t: Tick)
      ensures Repriced(s, t).orders == s.orders && Repriced(s, t).active == s.active
    {
    }

    /** Visits a set of pending orders of the tick's symbol one by one. */
    method ProcessPending(tick: Tick, pending: set<string>) returns (ghost visits: seq<string>)
      requires Consistent() && pending <= Candidates(model, tick.symbol)
      modifies manager, positions, positions.positions.Values, this`model
      ensures Consistent()
      ensures Ready(old(model), tick.symbol, visits) && forall id :: id in visits <==> id in pending
      ensures model == VisitAll(costs, old(model), tick, visits)
      ensures forall s :: s in positions.positions ==>
                positions.positions[s] in old(positions.positions.Values) || fresh(positions.positions[s])
    {
      hide Simulation.Valid, Candidates;
      ghost var start := model;
      var todo := pending;
      visits := [];
      while todo != {}
        invariant Consistent() && Simulation.Valid(start)
        invariant todo <= pending && forall id :: id in pending <==> id in todo || id in visits
        invariant forall id :: id in visits ==> id !in todo
        invariant Ready(start, tick.symbol, visits)
        invariant model == VisitAll(costs, start, tick, visits)
        invariant forall s :: s in positions.positions ==>
                    positions.positions[s] in old(positions.positions.Values) || fresh(positions.positions[s])
        decreases todo
      {
        var id :| id in todo;
        assert Ready(start, tick.symbol, visits + [id]);
        VisitAllSnoc(costs, start, tick, visits, id);
        VisitOne(tick, id);
        visits := visits + [id];
        todo := todo - {id};
      }
    }

    /** Tries to fill one pending order and books the fill. */
    method VisitOne(tick: Tick, id: string)
      requires Consistent() && id in manager.orders && manager.orders[id].status == Pending
      modifies manager, positions, positions.positions.Values, this`model
      ensures Consistent()
      ensures model == Visit(costs, old(model), tick, id)
      ensures forall s :: s in positions.positions ==>
                positions.positions[s] in old(positions.positions.Values) || fresh(positions.positions[s])
    {
      hide Simulation.Valid, Process, TryFill, UpdateFill;
      VisitKeepsValid(costs, model, tick, id);
      PendingOrder(model, id);
      var fill := TryFill(costs, manager.orders[id], tick);
      model := Visit(costs, model, tick, id);
      if fill.Some? {
        var refused := manager.ProcessFill(id, fill.value.quantity, fill.value.price);
        var trade, failed := positions.ProcessFill(fill.value);
      }
    }
  }

  lemma PendingOrder(s: Sim, id: string)
    requires Simulation.Valid(s) && id in s.orders && s.orders[id].status == Pending
    ensures s.orders[id].filled == 0.0
    ensures s.orders[id].kind == Limit ==> s.orders[id].limitPrice.Some?
    ensures s.orders[id].kind == Stop ==> s.orders[id].stopPrice.Some?
  {
    PendingPrices(s.orders[id], FillQuantity(s.fills, id), FillValue(s.fills, id));
  }
}
