/** The position manager: position objects updated in place by fills. */
module Positions {
  import opened Market
  import opened Optional
  import opened Accounting

  class Position {
    var side: Side
    var quantity: real
    var avgEntryPrice: Option<real>
    var currentPrice: Option<real>
    var openedAt: Option<int>
    var totalTrades: nat
    var realizedPnl: real

    function Value(): Pos
      reads this
    {
      Pos(side, quantity, avgEntryPrice, currentPrice, openedAt, totalTrades, realizedPnl)
    }

    constructor (fill: Fill)
      ensures Value() == NewPosition(fill)
    {
      side, quantity, avgEntryPrice, currentPrice := fill.side, 0.0, None, None;
      openedAt, totalTrades, realizedPnl := None, 0, 0.0;
    }

    method Add(fill: Fill)
      requires !DividesByZero(Value(), fill)
      modifies this
      ensures Value() == AddFill(old(Value()), fill)
    {
      if avgEntryPrice.None? {
        avgEntryPrice := Some(fill.price);
        openedAt := Some(fill.time);
      } else {
        avgEntryPrice := Some(WeightedAverage(quantity, avgEntryPrice.value, fill.quantity, fill.price));
      }
      quantity := quantity + fill.quantity;
      totalTrades := totalTrades + 1;
    }

    method ReduceBy(amount: real, price: real)
      modifies this
      ensures Value() == Reduce(old(Value()), amount, price)
    {
      var q := amount;
      if q >= quantity {
        q := quantity;
      }
      if avgEntryPrice.Some? && avgEntryPrice.value != 0.0 {
        var pnl := if side == Buy && quantity > 0.0 then q * (price - avgEntryPrice.value)
                   else q * (avgEntryPrice.value - price);
        realizedPnl := realizedPnl + pnl;
      }
      quantity := quantity - q;
      totalTrades := totalTrades + 1;
    }

    method UpdatePrice(price: real)
      modifies this`currentPrice
      ensures Value() == old(Value()).(current := Some(price))
    {
      currentPrice := Some(price);
    }

    /** `unrealized_pnl` is the open profit at the current price. */
    function UnrealizedPnl(): (r: real)
      reads this
      ensures r == if currentPrice.None? then 0.0 else UnrealizedAt(Value(), currentPrice.value)
    {
      if avgEntryPrice.None? || currentPrice.None? then 0.0
      else if side == Buy && quantity > 0.0 then quantity * (currentPrice.value - avgEntryPrice.value)
      else quantity * (avgEntryPrice.value - currentPrice.value)
    }
  }

  class PositionManager {
    var positions: map<Symbol, Position>
    var trades: seq<Trade>
    var tradeCounter: nat

    ghost predicate Valid()
      reads this
    {
      && tradeCounter == |trades|
      && forall s, s' :: s in positions && s' in positions && s != s' ==> positions[s] != positions[s']
    }

    function Contents(): Book
      reads this, positions.Values
    {
      Book(map s | s in positions :: positions[s].Value(), trades)
    }

    constructor ()
      ensures Valid() && Contents() == EMPTY && positions == map[]
    {
      positions, trades, tradeCounter := map[], [], 0;
    }

    /** Applies a fill; `failed` stands for the division error, which leaves
        everything as it was. */
    method ProcessFill(fill: Fill) returns (trade: Option<Trade>, failed: bool)
      requires Valid()
      modifies this, positions.Values
      ensures Valid()
      ensures Contents() == Process(old(Contents()), fill)
      ensures failed == Fails(old(Contents()), fill)
      ensures var p := PositionFor(old(Contents()), fill);
              trade == if Reduces(p, fill) then Some(TradeOf(old(Contents()), p, fill)) else None
      ensures forall s :: s in positions ==> (s in old(positions) && positions[s] == old(positions)[s]) || fresh(positions[s])
    {
      hide Reduce, AddFill, TradeOf, NewPosition, Contents;
      NewNeverFails(fill);
      ContentsParts();
      var position := PositionOf(fill);
      ContentsParts();
      var positionSide := if position.side == Buy && position.quantity > 0.0 then Buy else Sell;
      trade, failed := None, false;
      if position.quantity > 0.0 && fill.side != positionSide {
        SameTrade(old(Contents()), Contents(), position.Value(), fill);
        var closed := Close(position, fill);
        ContentsParts();
        trade := Some(closed);
      } else if position.avgEntryPrice.Some? && position.quantity + fill.quantity == 0.0 {
        failed := true;
      } else {
        Grow(position, fill);
      }
    }

    /** Adds a fill to a position in the book. */
    method Grow(position: Position, fill: Fill)
      requires Valid() && fill.symbol in positions && positions[fill.symbol] == position
      requires !DividesByZero(position.Value(), fill)
      modifies position
      ensures Valid()
      ensures Contents() == Book(old(Contents()).positions[fill.symbol := AddFill(old(position.Value()), fill)], trades)
    {
      hide AddFill, DividesByZero;
      position.Add(fill);
    }

    /** The position of the fill's symbol, a new and empty one if there is none. */
    method PositionOf(fill: Fill) returns (position: Position)
      requires Valid()
      modifies this`positions
      ensures Valid() && fill.symbol in positions && position == positions[fill.symbol]
      ensures positions == old(positions)[fill.symbol := position]
      ensures if fill.symbol in old(positions) then position == old(positions)[fill.symbol] else fresh(position)
      ensures position.Value() == PositionFor(old(Contents()), fill)
      ensures Contents() == Book(old(Contents()).positions[fill.symbol := position.Value()], trades)
    {
      if fill.symbol in positions {
        position := positions[fill.symbol];
      } else {
        position := new Position(fill);
        positions := positions[fill.symbol := position];
      }
    }

    lemma ContentsParts()
      ensures Contents().trades == trades && forall s :: s in Contents().positions <==> s in positions
    {
    }

    static lemma SameTrade(a: Book, b: Book, p: Pos, fill: Fill)
      requires a.trades == b.trades
      ensures TradeOf(a, p, fill) == TradeOf(b, p, fill)
    {
    }

    static lemma NewNeverFails(fill: Fill)
      ensures !Reduces(NewPosition(fill), fill) && !DividesByZero(NewPosition(fill), fill)
    {
    }

    /** Records the trade of a reducing fill and shrinks or removes the position. */
    method Close(position: Position, fill: Fill) returns (trade: Trade)
      requires Valid() && fill.symbol in positions && positions[fill.symbol] == position
      modifies this, position
      ensures Valid()
      ensures trade == TradeOf(old(Contents()), old(position.Value()), fill)
      ensures trades == old(trades) + [trade]
      ensures position.Value() == Reduce(old(position.Value()), fill.quantity, fill.price)
      ensures positions == if position.quantity <= 0.0 then old(positions) - {fill.symbol} else old(positions)
      ensures var p' := Reduce(old(position.Value()), fill.quantity, fill.price);
              Contents().positions == if p'.quantity <= 0.0 then old(Contents()).positions - {fill.symbol}
                                      else old(Contents()).positions[fill.symbol := p']
    {
      hide Reduce, TradeOf;
      trade := RecordTrade(position, fill);
      position.ReduceBy(fill.quantity, fill.price);
      if position.quantity <= 0.0 {
        positions := positions - {fill.symbol};
      }
    }

    /** Books the trade of a reducing fill at its whole quantity. */
    method RecordTrade(position: Position, fill: Fill) returns (trade: Trade)
      requires Valid()
      modifies this`trades, this`tradeCounter
      ensures Valid() && trades == old(trades) + [trade]
      ensures trade == TradeOf(old(Contents()), position.Value(), fill)
    {
      var p := position.Value();
      tradeCounter := tradeCounter + 1;
      trade := Trade(tradeCounter, fill.symbol,
                     if position.openedAt.Some? then position.openedAt.value else fill.time, fill.time,
                     position.side, fill.quantity,
                     if position.avgEntryPrice.Some? && position.avgEntryPrice.value != 0.0
                     then position.avgEntryPrice.value else fill.price,
                     fill.price, RealizedBy(p, fill), fill.commission, fill.slippage, fill.orderId);
      trades := trades + [trade];
    }

    method UpdatePrice(symbol: Symbol, price: real)
      requires Valid()
      modifies positions.Values
      ensures Valid() && Contents().trades == old(Contents()).trades
      ensures Contents().positions
              == if symbol in positions
                 then old(Contents()).positions[symbol := old(Contents()).positions[symbol].(current := Some(price))]
                 else old(Contents()).positions
    {
      if symbol in positions {
        positions[symbol].UpdatePrice(price);
      }
    }

    /** Profit of all trades after their own costs. */
    method GetRealizedPnl() returns (total: real)
      ensures total == NetSum(trades)
    {
      total := 0.0;
      var i := 0;
      while i < |trades|
        invariant 0 <= i <= |trades| && total == NetSum(trades[..i])
      {
        var t := trades[i];
        assert trades[..i + 1][..i] == trades[..i];
        total := total + (t.realized - t.commission - t.slippage);
        i := i + 1;
      }
      assert trades[..i] == trades;
    }
  }

  function NetSum(trades: seq<Trade>): real {
    if |trades| == 0 then 0.0
    else
      var t := trades[|trades| - 1];
      NetSum(trades[..|trades| - 1]) + (t.realized - t.commission - t.slippage)
  }

  /** `running` adds up what each trade realized after its commission and slippage. */
  ghost predicate NetsAddUp(trades: seq<Trade>, running: seq<real>) {
    && |running| == |trades| + 1 && running[0] == 0.0
    && forall i :: 0 <= i < |trades| ==>
         running[i + 1] + trades[i].commission + trades[i].slippage == running[i] + trades[i].realized
  }

  /** The total is the last of these sums. */
  lemma {:induction false} NetSumIs(trades: seq<Trade>, running: seq<real>)
    requires NetsAddUp(trades, running)
    ensures NetSum(trades) == running[|trades|]
  {
    if |trades| > 0 {
      NetSumIs(trades[..|trades| - 1], running[..|trades|]);
    }
  }
}
