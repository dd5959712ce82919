/** Positions, trades and profit-and-loss from a stream of fills. */
module Accounting {
  import opened Market
  import opened Optional

  datatype Fill = Fill(orderId: string, symbol: Symbol, side: Side, quantity: real, price: real, time: int,
                       commission: real, slippage: real)

  datatype Pos = Pos(side: Side, quantity: real, avgEntry: Option<real>, current: Option<real>,
                     openedAt: Option<int>, totalTrades: nat, realized: real)

  datatype Trade = Trade(id: nat, symbol: Symbol, entryTime: int, exitTime: int, side: Side, quantity: real,
                         entryPrice: real, exitPrice: real, realized: real, commission: real, slippage: real,
                         exitOrder: string)

  /** Everything the position manager remembers. */
  datatype Book = Book(positions: map<Symbol, Pos>, trades: seq<Trade>)

  function IsLong(p: Pos): bool { p.side == Buy && p.quantity > 0.0 }

  /** Profit of an open position if it were valued at `mark`. */
  function UnrealizedAt(p: Pos, mark: real): real {
    if p.avgEntry.None? then 0.0
    else if IsLong(p) then p.quantity * (mark - p.avgEntry.value)
    else p.quantity * (p.avgEntry.value - mark)
  }

  /** A fill on the other side of an open position. */
  predicate Reduces(p: Pos, f: Fill) {
    p.quantity > 0.0 && f.side != if IsLong(p) then Buy else Sell
  }

  function RealizedBy(p: Pos, f: Fill): real {
    if p.avgEntry.None? then 0.0
    else if IsLong(p) then f.quantity * (f.price - p.avgEntry.value)
    else f.quantity * (p.avgEntry.value - f.price)
  }

  /** An average over a total quantity of zero is a division error. */
  predicate DividesByZero(p: Pos, f: Fill) {
    p.avgEntry.Some? && p.quantity + f.quantity == 0.0
  }

  /** The average price of `q` units at `a` and `n` units at `x`. */
  function WeightedAverage(q: real, a: real, n: real, x: real): real
    requires q + n != 0.0
  {
    (q * a + n * x) / (q + n)
  }

  function AddFill(p: Pos, f: Fill): Pos
    requires !DividesByZero(p, f)
  {
    var p' := if p.avgEntry.None? then p.(avgEntry := Some(f.price), openedAt := Some(f.time))
              else p.(avgEntry := Some(WeightedAverage(p.quantity, p.avgEntry.value, f.quantity, f.price)));
    p'.(quantity := p.quantity + f.quantity, totalTrades := p.totalTrades + 1)
  }

  /** Reducing clamps to the open quantity; a zero average books no profit. */
  function Reduce(p: Pos, quantity: real, price: real): Pos {
    var q := if quantity >= p.quantity then p.quantity else quantity;
    var pnl := if p.avgEntry.None? || p.avgEntry.value == 0.0 then 0.0
               else if IsLong(p) then q * (price - p.avgEntry.value)
               else q * (p.avgEntry.value - price);
    p.(quantity := p.quantity - q, realized := p.realized + pnl, totalTrades := p.totalTrades + 1)
  }

  function NewPosition(f: Fill): Pos {
    Pos(f.side, 0.0, None, None, None, 0, 0.0)
  }

  /** The trade record of a reducing fill: it carries the whole fill quantity. */
  function TradeOf(b: Book, p: Pos, f: Fill): Trade {
    Trade(|b.trades| + 1, f.symbol, if p.openedAt.Some? then p.openedAt.value else f.time, f.time, p.side,
          f.quantity, if p.avgEntry.Some? && p.avgEntry.value != 0.0 then p.avgEntry.value else f.price,
          f.price, RealizedBy(p, f), f.commission, f.slippage, f.orderId)
  }

  function PositionFor(b: Book, f: Fill): Pos {
    if f.symbol in b.positions then b.positions[f.symbol] else NewPosition(f)
  }

  predicate Fails(b: Book, f: Fill) {
    !Reduces(PositionFor(b, f), f) && DividesByZero(PositionFor(b, f), f)
  }

  function Process(b: Book, f: Fill): Book {
    var p := PositionFor(b, f);
    if Reduces(p, f) then
      var p' := Reduce(p, f.quantity, f.price);
      Book(if p'.quantity <= 0.0 then b.positions - {f.symbol} else b.positions[f.symbol := p'],
           b.trades + [TradeOf(b, p, f)])
    else if DividesByZero(p, f) then b
    else Book(b.positions[f.symbol := AddFill(p, f)], b.trades)
  }

  // ------------------------------------------------------------------- runs

  const EMPTY := Book(map[], [])

  function Run(fills: seq<Fill>): Book {
    if |fills| == 0 then EMPTY else Process(Run(fills[..|fills| - 1]), fills[|fills| - 1])
  }

  function Signed(f: Fill): real { if f.side == Buy then f.quantity else -f.quantity }

  /** Bought minus sold quantity of a symbol. */
  function Net(fills: seq<Fill>, s: Symbol): real {
    if |fills| == 0 then 0.0
    else
      var f := fills[|fills| - 1];
      Net(fills[..|fills| - 1], s) + if f.symbol == s then Signed(f) else 0.0
  }

  /** Money received for sales minus money paid for purchases. */
  function Cash(fills: seq<Fill>, s: Symbol): real {
    if |fills| == 0 then 0.0
    else
      var f := fills[|fills| - 1];
      Cash(fills[..|fills| - 1], s) - if f.symbol == s then Signed(f) * f.price else 0.0
  }

  function RealizedSum(trades: seq<Trade>, s: Symbol): real {
    if |trades| == 0 then 0.0
    else
      var t := trades[|trades| - 1];
      RealizedSum(trades[..|trades| - 1], s) + if t.symbol == s then t.realized else 0.0
  }

  function OpenProfit(b: Book, s: Symbol, mark: real): real {
    if s in b.positions then UnrealizedAt(b.positions[s], mark) else 0.0
  }

  /** Profit booked so far plus open profit equals cash flow plus the value of
      what is held, at every mark price. */
  ghost predicate MarkToMarket(fills: seq<Fill>, s: Symbol) {
    forall mark: real :: Balanced(fills, s, mark)
  }

  predicate Balanced(fills: seq<Fill>, s: Symbol, mark: real) {
    RealizedSum(Run(fills).trades, s) + OpenProfit(Run(fills), s, mark)
    == Cash(fills, s) + Net(fills, s) * mark
  }

  predicate AllPositive(fills: seq<Fill>) {
    forall i :: 0 <= i < |fills| ==> fills[i].quantity > 0.0
  }

  /** Fill `k` closes more than is open. */
  predicate OverCloses(fills: seq<Fill>, k: nat)
    requires k < |fills|
  {
    var b, f := Run(fills[..k]), fills[k];
    f.symbol in b.positions && Reduces(b.positions[f.symbol], f) && f.quantity > b.positions[f.symbol].quantity
  }

  predicate NeverOverCloses(fills: seq<Fill>) {
    forall k :: 0 <= k < |fills| ==> !OverCloses(fills, k)
  }

  // -------------------------------------------------------------- invariant

  /** One symbol of a book against its cash flow and net quantity: an open
      position has the side and size of the net, and its average entry price
      ties the booked profit to the cash flow. */
  ghost predicate Ledger(position: Option<Pos>, realized: real, cash: real, net: real) {
    match position
    case None => net == 0.0 && realized == cash
    case Some(p) =>
      && p.quantity > 0.0 && p.avgEntry.Some?
      && net == (if p.side == Buy then p.quantity else -p.quantity)
      && realized == cash + net * p.avgEntry.value
  }

  function At(b: Book, s: Symbol): Option<Pos> {
    if s in b.positions then Some(b.positions[s]) else None
  }

  lemma AverageTimesTotal(q: real, a: real, n: real, x: real)
    requires q + n != 0.0
    ensures (q + n) * WeightedAverage(q, a, n, x) == q * a + n * x
  {
  }

  /** Opening or adding keeps the ledger. */
  lemma AddKeepsLedger(position: Option<Pos>, f: Fill, realized: real, cash: real, net: real)
    requires Ledger(position, realized, cash, net) && f.quantity > 0.0
    requires position.Some? ==> !Reduces(position.value, f)
    ensures var p := if position.Some? then position.value else NewPosition(f);
            && !Reduces(p, f) && !DividesByZero(p, f)
            && Ledger(Some(AddFill(p, f)), realized, cash - Signed(f) * f.price, net + Signed(f))
  {
    if position.Some? {
      var p := position.value;
      var a, q, n, x := p.avgEntry.value, p.quantity, f.quantity, f.price;
      AverageTimesTotal(q, a, n, x);
      var a' := WeightedAverage(q, a, n, x);
      if p.side == Buy {
        assert (q + n) * a' == q * a + n * x;
      } else {
        assert (-q) * a == -(q * a) && (-n) * x == -(n * x);
        assert (-q + -n) * a' == -((q + n) * a');
      }
    }
  }

  /** Closing no more than is open keeps the ledger. */
  lemma ReduceKeepsLedger(p: Pos, f: Fill, realized: real, cash: real, net: real)
    requires Ledger(Some(p), realized, cash, net) && Reduces(p, f) && 0.0 < f.quantity <= p.quantity
    ensures var p' := Reduce(p, f.quantity, f.price);
            Ledger(if p'.quantity <= 0.0 then None else Some(p'),
                   realized + RealizedBy(p, f), cash - Signed(f) * f.price, net + Signed(f))
  {
    var a, q, n, x := p.avgEntry.value, p.quantity, f.quantity, f.price;
    assert n * (x - a) == n * x - n * a && n * (a - x) == n * a - n * x;
    if p.side == Buy {
      assert (q - n) * a == q * a - n * a;
      assert (-n) * x == -(n * x);
    } else {
      assert (-q) * a == -(q * a) && (-q + n) * a == -(q * a) + n * a;
    }
  }

  /** Closing more than is open breaks the balance at every mark but one. */
  lemma OverCloseUnbalances(p: Pos, f: Fill, realized: real, cash: real, net: real, mark: real)
    requires Ledger(Some(p), realized, cash, net) && Reduces(p, f) && f.quantity > p.quantity
    ensures Reduce(p, f.quantity, f.price).quantity <= 0.0 && p.avgEntry.Some?
    ensures realized + RealizedBy(p, f) == cash - Signed(f) * f.price + (net + Signed(f)) * mark
            <==> mark == p.avgEntry.value
  {
    var a, q, n, x := p.avgEntry.value, p.quantity, f.quantity, f.price;
    assert n * (x - a) == n * x - n * a && n * (a - x) == n * a - n * x;
    var gap := if p.side == Buy then q - n else n - q;
    assert gap != 0.0;
    if p.side == Buy {
      assert (-n) * x == -(n * x);
      assert gap * a == q * a - n * a;
    } else {
      assert (-q) * a == -(q * a) && gap * a == n * a - q * a;
    }
    assert gap * mark - gap * a == gap * (mark - a);
    ZeroFactor(gap, mark - a);
  }

  lemma ZeroFactor(x: real, y: real)
    requires x != 0.0
    ensures x * y == 0.0 <==> y == 0.0
  {
    if x * y == 0.0 {
      assert y == (x * y) / x;
    }
  }

  /** A ledger is balanced at every mark. */
  lemma LedgerBalances(position: Option<Pos>, realized: real, cash: real, net: real, mark: real)
    requires Ledger(position, realized, cash, net)
    ensures realized + (if position.Some? then UnrealizedAt(position.value, mark) else 0.0) == cash + net * mark
  {
    if position.Some? {
      var q, a := position.value.quantity, position.value.avgEntry.value;
      assert q * (mark - a) == q * mark - q * a && q * (a - mark) == q * a - q * mark;
      assert (-q) * a == -(q * a) && (-q) * mark == -(q * mark);
    }
  }

  lemma {:induction false} SumSnoc(trades: seq<Trade>, t: Trade, s: Symbol)
    ensures RealizedSum(trades + [t], s) == RealizedSum(trades, s) + if t.symbol == s then t.realized else 0.0
  {
    assert (trades + [t])[..|trades|] == trades;
  }

  ghost predicate LedgerAt(fills: seq<Fill>, s: Symbol) {
    Ledger(At(Run(fills), s), RealizedSum(Run(fills).trades, s), Cash(fills, s), Net(fills, s))
  }

  /** One fill, seen from any symbol. */
  lemma {:induction false} StepLedger(b: Book, f: Fill, s: Symbol, cash: real, net: real)
    requires f.quantity > 0.0
    requires Ledger(At(b, s), RealizedSum(b.trades, s), cash, net)
    requires f.symbol == s && s in b.positions && Reduces(b.positions[s], f) ==> f.quantity <= b.positions[s].quantity
    ensures var b' := Process(b, f);
            Ledger(At(b', s), RealizedSum(b'.trades, s),
                   cash - (if f.symbol == s then Signed(f) * f.price else 0.0),
                   net + if f.symbol == s then Signed(f) else 0.0)
  {
    hide Ledger, AddFill, Reduce, RealizedSum, Signed;
    var p := PositionFor(b, f);
    SumSnoc(b.trades, TradeOf(b, p, f), s);
    if f.symbol == s {
      if Reduces(p, f) {
        NewReducesNothing(f);
        ReduceKeepsLedger(p, f, RealizedSum(b.trades, s), cash, net);
      } else {
        AddKeepsLedger(At(b, s), f, RealizedSum(b.trades, s), cash, net);
      }
    } else {
      OtherSymbol(b, f, s);
    }
  }

  lemma NewReducesNothing(f: Fill)
    ensures !Reduces(NewPosition(f), f)
  {
  }

  lemma OtherSymbol(b: Book, f: Fill, s: Symbol)
    requires f.symbol != s
    ensures At(Process(b, f), s) == At(b, s)
  {
  }

  lemma {:induction false} RunLedger(fills: seq<Fill>, s: Symbol)
    requires AllPositive(fills) && NeverOverCloses(fills)
    ensures LedgerAt(fills, s)
  {
    hide Ledger, Process, RealizedSum, Net, Cash;
    CashNetSnoc(fills, s);
    if |fills| > 0 {
      var n := |fills| - 1;
      PrefixClean(fills, n);
      RunLedger(fills[..n], s);
      assert !OverCloses(fills, n);
      var b, f := Run(fills[..n]), fills[n];
      StepLedger(b, f, s, Cash(fills[..n], s), Net(fills[..n], s));
      assert Run(fills) == Process(b, f);
      assert Cash(fills, s) == Cash(fills[..n], s) - (if f.symbol == s then Signed(f) * f.price else 0.0);
      assert Net(fills, s) == Net(fills[..n], s) + (if f.symbol == s then Signed(f) else 0.0);
    } else {
      assert fills == [];
      NoLedger(s);
    }
  }

  lemma {:induction false} NoLedger(s: Symbol)
    ensures Ledger(None, RealizedSum([], s), Cash([], s), Net([], s))
  {
  }

  lemma PrefixClean(fills: seq<Fill>, n: nat)
    requires n <= |fills| && AllPositive(fills)
    ensures AllPositive(fills[..n])
    ensures NeverOverCloses(fills) ==> NeverOverCloses(fills[..n])
  {
    forall k | 0 <= k < n
      ensures OverCloses(fills[..n], k) <==> OverCloses(fills, k)
    {
      assert fills[..n][..k] == fills[..k];
    }
  }

  /** The position of a symbol has the side and the size of its net quantity. */
  lemma {:induction false} PositionIsNet(fills: seq<Fill>, s: Symbol)
    requires AllPositive(fills) && NeverOverCloses(fills)
    ensures var b, net := Run(fills), Net(fills, s);
            && (s in b.positions <==> net != 0.0)
            && (s in b.positions ==>
                  && b.positions[s].quantity == (if net > 0.0 then net else -net)
                  && (b.positions[s].side == Buy <==> net > 0.0))
  {
    hide Run, Net, Cash, RealizedSum;
    RunLedger(fills, s);
  }

  /** For positive fills, the books balance after every prefix, for every symbol
      and at every mark price, exactly when no fill closes more than is open:
      the trade record takes the whole quantity of such a fill, while the
      position is only reduced by what it holds. */
  lemma BalancedIff(fills: seq<Fill>)
    requires AllPositive(fills)
    ensures NeverOverCloses(fills)
            <==> forall k, s :: 0 <= k <= |fills| ==> MarkToMarket(fills[..k], s)
  {
    hide Run, Balanced, OverCloses;
    if NeverOverCloses(fills) {
      forall k, s | 0 <= k <= |fills|
        ensures MarkToMarket(fills[..k], s)
      {
        PrefixClean(fills, k);
        CleanRunBalances(fills[..k], s);
      }
    } else {
      var k := FirstOverClose(fills);
      PrefixClean(fills, k);
      FirstOverCloseUnbalances(fills, k);
    }
  }

  lemma CleanRunBalances(fills: seq<Fill>, s: Symbol)
    requires AllPositive(fills) && NeverOverCloses(fills)
    ensures MarkToMarket(fills, s)
  {
    hide Ledger, Run;
    RunLedger(fills, s);
    forall mark: real
      ensures Balanced(fills, s, mark)
    {
      LedgerBalances(At(Run(fills), s), RealizedSum(Run(fills).trades, s), Cash(fills, s), Net(fills, s), mark);
    }
  }

  lemma FirstOverClose(fills: seq<Fill>) returns (k: nat)
    requires !NeverOverCloses(fills)
    ensures k < |fills| && OverCloses(fills, k) && forall j :: 0 <= j < k ==> !OverCloses(fills, j)
  {
    hide OverCloses;
    k := 0;
    while !OverCloses(fills, k)
      invariant k < |fills| && forall j :: 0 <= j < k ==> !OverCloses(fills, j)
      decreases |fills| - k
    {
      var m :| 0 <= m < |fills| && OverCloses(fills, m);
      assert k < m;
      k := k + 1;
    }
  }

  lemma FirstOverCloseUnbalances(fills: seq<Fill>, k: nat)
    requires AllPositive(fills) && k < |fills| && OverCloses(fills, k)
    requires forall j :: 0 <= j < k ==> !OverCloses(fills, j)
    ensures !MarkToMarket(fills[..k + 1], fills[k].symbol)
  {
    hide Ledger, Net, Cash, RealizedSum, Reduce, Reduces;
    var front, f := fills[..k], fills[k];
    var s, b := f.symbol, Run(front);
    forall j | 0 <= j < k
      ensures !OverCloses(front, j)
    {
      assert front[..j] == fills[..j] && front[j] == fills[j];
      assert !OverCloses(fills, j);
    }
    RunLedger(front, s);
    var p := b.positions[s];
    var mark := OtherMark(p);
    OverCloseUnbalances(p, f, RealizedSum(b.trades, s), Cash(front, s), Net(front, s), mark);
    var upTo := fills[..k + 1];
    assert upTo[..k] == front && upTo[k] == f;
    CashNetSnoc(upTo, s);
    SumSnoc(b.trades, TradeOf(b, p, f), s);
    assert Run(upTo) == Process(b, f);
    assert Process(b, f).trades == b.trades + [TradeOf(b, p, f)];
    assert s !in Process(b, f).positions;
    assert RealizedSum(Run(upTo).trades, s) == RealizedSum(b.trades, s) + RealizedBy(p, f);
    assert OpenProfit(Run(upTo), s, mark) == 0.0;
    assert Balanced(upTo, s, mark)
        <==> RealizedSum(b.trades, s) + RealizedBy(p, f)
             == Cash(front, s) - Signed(f) * f.price + (Net(front, s) + Signed(f)) * mark;
    assert !Balanced(upTo, s, mark);
  }

  function OtherMark(p: Pos): (r: real)
    ensures p.avgEntry.Some? ==> r != p.avgEntry.value
  {
    if p.avgEntry.Some? then p.avgEntry.value + 1.0 else 0.0
  }

  lemma CashNetSnoc(fills: seq<Fill>, s: Symbol)
    ensures |fills| > 0 ==>
              var f, front := fills[|fills| - 1], fills[..|fills| - 1];
              && Net(fills, s) == Net(front, s) + (if f.symbol == s then Signed(f) else 0.0)
              && Cash(fills, s) == Cash(front, s) - (if f.symbol == s then Signed(f) * f.price else 0.0)
  {
  }

  // ------------------------------------------------- trades and their history

  /** Fill `i` is on the other side of an open position of its symbol. */
  predicate Closes(fills: seq<Fill>, i: nat)
    requires i < |fills|
  {
    var held, f := Run(fills[..i]).positions, fills[i];
    f.symbol in held && held[f.symbol].quantity > 0.0 && held[f.symbol].side != f.side
  }

  /** The last fill before step `k` that brought a symbol into the book. */
  function Opener(fills: seq<Fill>, k: nat, s: Symbol): (r: Option<nat>)
    requires k <= |fills|
    ensures r.Some? ==> r.value < k
  {
    if k == 0 then None
    else if s in Run(fills[..k]).positions && s !in Run(fills[..k - 1]).positions then Some(k - 1)
    else Opener(fills, k - 1, s)
  }

  /** What a trade gained by its own prices. */
  function Gain(t: Trade): real {
    if t.side == Buy then t.quantity * (t.exitPrice - t.entryPrice) else t.quantity * (t.entryPrice - t.exitPrice)
  }

  function GainSum(trades: seq<Trade>, s: Symbol): real {
    if |trades| == 0 then 0.0
    else
      var t := trades[|trades| - 1];
      GainSum(trades[..|trades| - 1], s) + if t.symbol == s then Gain(t) else 0.0
  }

  /** How many fills of a symbol took effect from step `lo` to before step `hi`. */
  function Effective(fills: seq<Fill>, lo: nat, hi: nat, s: Symbol): nat
    requires lo <= hi <= |fills|
  {
    if lo == hi then 0
    else
      var f := fills[hi - 1];
      Effective(fills, lo, hi - 1, s) + if f.symbol == s && !Fails(Run(fills[..hi - 1]), f) then 1 else 0
  }

  /** An open position against the fills since its opener: their side, time and
      number, and the gains of the trades that reduced it. */
  ghost predicate LifeOf(fills: seq<Fill>, k: nat, s: Symbol, i: nat)
    requires i < k <= |fills|
  {
    var b := Run(fills[..k]);
    var since := |Run(fills[..i]).trades|;
    && s in b.positions && fills[i].symbol == s && since <= |b.trades|
    && (forall j :: i < j <= k ==> s in Run(fills[..j]).positions)
    && var p := b.positions[s];
       && p.avgEntry.Some? && p.openedAt == Some(fills[i].time) && p.side == fills[i].side
       && p.totalTrades == Effective(fills, i, k, s)
       && p.realized == GainSum(b.trades[since..], s)
  }

  lemma RunStep(fills: seq<Fill>, k: nat)
    requires k < |fills|
    ensures Run(fills[..k + 1]) == Process(Run(fills[..k]), fills[k])
  {
    hide Process;
    assert fills[..k + 1][..k] == fills[..k];
  }

  lemma {:induction false} GainSnoc(trades: seq<Trade>, t: Trade, since: nat, s: Symbol)
    requires since <= |trades|
    ensures GainSum((trades + [t])[since..], s) == GainSum(trades[since..], s) + if t.symbol == s then Gain(t) else 0.0
  {
    hide Gain;
    var r := (trades + [t])[since..];
    assert r[..|r| - 1] == trades[since..] && r[|r| - 1] == t;
  }

  /** What one fill does to the position of a symbol that stays open. */
  lemma ProcessLife(b: Book, f: Fill, s: Symbol)
    requires s in b.positions && b.positions[s].avgEntry.Some? && s in Process(b, f).positions
    ensures var p, p', ts, ts' := b.positions[s], Process(b, f).positions[s], b.trades, Process(b, f).trades;
            && p'.avgEntry.Some? && p'.openedAt == p.openedAt && p'.side == p.side
            && p'.totalTrades == p.totalTrades + (if f.symbol == s && !Fails(b, f) then 1 else 0)
            && ((ts' == ts && p'.realized == p.realized)
                || exists t :: ts' == ts + [t] && p'.realized == p.realized + if t.symbol == s then Gain(t) else 0.0)
  {
    hide WeightedAverage;
    var p := PositionFor(b, f);
    if Reduces(p, f) {
      var t := TradeOf(b, p, f);
      assert Process(b, f).trades == b.trades + [t];
      if f.symbol == s {
        ReduceGain(b, p, f);
      }
    }
  }

  /** A reduction takes off what is asked for, but no more than there is, and books
      the profit on what it took off, none against an average price of zero. */
  lemma ReduceIs(p: Pos, quantity: real, price: real)
    requires p.quantity > 0.0 && p.avgEntry.Some?
    ensures var r := Reduce(p, quantity, price);
            var off := p.quantity - r.quantity;
            && r.quantity >= 0.0 && (r.quantity == 0.0 || off == quantity) && off <= quantity
            && r == p.(quantity := r.quantity, realized := r.realized, totalTrades := p.totalTrades + 1)
            && r.realized == p.realized
                             + (if p.avgEntry.value == 0.0 then 0.0
                                else if p.side == Buy then off * price - off * p.avgEntry.value
                                else off * p.avgEntry.value - off * price)
  {
  }

  /** The profit that a reduced position books is the gain of the trade. */
  lemma ReduceGain(b: Book, p: Pos, f: Fill)
    requires Reduces(p, f) && p.avgEntry.Some? && Reduce(p, f.quantity, f.price).quantity > 0.0
    ensures Reduce(p, f.quantity, f.price).realized == p.realized + Gain(TradeOf(b, p, f))
  {
  }

  /** In every run an open position has the side and opening time of the fill that
      brought its symbol into the book, counts the fills that took effect since,
      and has booked exactly the gains of the trades since. */
  lemma {:induction false} PositionLife(fills: seq<Fill>, k: nat, s: Symbol)
    requires k <= |fills| && s in Run(fills[..k]).positions
    ensures Opener(fills, k, s).Some? && LifeOf(fills, k, s, Opener(fills, k, s).value)
  {
    hide Process, Run;
    if k == 0 {
      NothingHeld(fills);
    } else {
      var n := k - 1;
      var b, f := Run(fills[..n]), fills[n];
      RunStep(fills, n);
      if s in b.positions {
        PositionLife(fills, n, s);
        var i := Opener(fills, n, s).value;
        var since := |Run(fills[..i]).trades|;
        ProcessLife(b, f, s);
        hide Gain, GainSum;
        if Process(b, f).trades != b.trades {
          var t :| Process(b, f).trades == b.trades + [t]
                   && Process(b, f).positions[s].realized == b.positions[s].realized + if t.symbol == s then Gain(t) else 0.0;
          GainSnoc(b.trades, t, since, s);
        }
      } else {
        NewlyHeld(b, f, s);
        assert Run(fills[..k]).trades[|b.trades|..] == [];
        assert Effective(fills, n, n, s) == 0;
      }
    }
  }

  lemma {:induction false} NothingHeld(fills: seq<Fill>)
    ensures Run(fills[..0]) == EMPTY
  {
  }

  lemma NewlyHeld(b: Book, f: Fill, s: Symbol)
    requires s !in b.positions && s in Process(b, f).positions
    ensures f.symbol == s && !Fails(b, f) && Process(b, f).trades == b.trades
    ensures Process(b, f).positions[s] == Pos(f.side, f.quantity, Some(f.price), None, Some(f.time), 1, 0.0)
  {
  }

  /** The record that the closing fill `i` leaves as trade number `n`: at its own
      quantity, price, time and costs, against the average price and opening time
      of the position it closes; an average of zero is recorded as the exit price,
      though the profit is taken against it. */
  ghost predicate Records(fills: seq<Fill>, i: nat, n: nat, t: Trade)
    requires i < |fills| && Closes(fills, i)
  {
    var f := fills[i];
    var p := Run(fills[..i]).positions[f.symbol];
    var opener := Opener(fills, i, f.symbol);
    && p.avgEntry.Some? && opener.Some?
    && t.id == n && t.symbol == f.symbol && t.side == p.side && t.exitOrder == f.orderId
    && t.quantity == f.quantity && t.commission == f.commission && t.slippage == f.slippage
    && t.entryTime == fills[opener.value].time && t.exitTime == f.time
    && t.exitPrice == f.price
    && t.entryPrice == (if p.avgEntry.value == 0.0 then f.price else p.avgEntry.value)
    && t.realized == f.quantity * if p.side == Buy then f.price - p.avgEntry.value else p.avgEntry.value - f.price
  }

  lemma ProcessTrades(b: Book, f: Fill)
    ensures var held := f.symbol in b.positions && b.positions[f.symbol].quantity > 0.0 && b.positions[f.symbol].side != f.side;
            if held then Process(b, f).trades == b.trades + [TradeOf(b, b.positions[f.symbol], f)]
            else Process(b, f).trades == b.trades
  {
    hide AddFill, Reduce, TradeOf;
  }

  lemma TradeRecords(fills: seq<Fill>, i: nat)
    requires i < |fills| && Closes(fills, i)
    ensures var b, f := Run(fills[..i]), fills[i];
            Records(fills, i, |b.trades| + 1, TradeOf(b, b.positions[f.symbol], f))
  {
    hide Run, Opener, Effective, GainSum, Process;
    PositionLife(fills, i, fills[i].symbol);
    var b, f := Run(fills[..i]), fills[i];
    RecordIs(b, b.positions[f.symbol], f);
  }

  lemma RecordIs(b: Book, p: Pos, f: Fill)
    requires p.avgEntry.Some? && p.openedAt.Some? && p.quantity > 0.0
    ensures TradeOf(b, p, f) == Trade(|b.trades| + 1, f.symbol, p.openedAt.value, f.time, p.side, f.quantity,
                                      if p.avgEntry.value == 0.0 then f.price else p.avgEntry.value, f.price,
                                      f.quantity * (if p.side == Buy then f.price - p.avgEntry.value
                                                    else p.avgEntry.value - f.price),
                                      f.commission, f.slippage, f.orderId)
  {
  }

  /** In every run the trades are the closing fills, each once and in their order,
      each recorded as it was made. */
  lemma {:induction false} TradesAre(fills: seq<Fill>, k: nat) returns (at: seq<nat>)
    requires k <= |fills|
    ensures var trades := Run(fills[..k]).trades;
            && |at| == |trades|
            && (forall n :: 0 <= n < |at| ==> at[n] < k && Closes(fills, at[n]) && Records(fills, at[n], n + 1, trades[n]))
            && (forall m, n :: 0 <= m < n < |at| ==> at[m] < at[n])
            && (forall i :: 0 <= i < k && Closes(fills, i) ==> i in at)
  {
    hide Run, Process, Records, TradeOf;
    at := [];
    if k == 0 {
      NothingHeld(fills);
    } else {
      at := TradesAre(fills, k - 1);
      RunStep(fills, k - 1);
      ProcessTrades(Run(fills[..k - 1]), fills[k - 1]);
      if Closes(fills, k - 1) {
        TradeRecords(fills, k - 1);
        at := at + [k - 1];
      }
    }
  }

  /** A fill fails, and then changes nothing, exactly when it would add to an open
      entry a quantity that makes it zero; every other fill changes the books. */
  lemma FailsIff(b: Book, f: Fill)
    ensures Fails(b, f) <==> Process(b, f) == b
    ensures Fails(b, f) <==> && f.symbol in b.positions && b.positions[f.symbol].avgEntry.Some?
                             && !(b.positions[f.symbol].quantity > 0.0 && b.positions[f.symbol].side != f.side)
                             && b.positions[f.symbol].quantity == -f.quantity
  {
    ProcessTrades(b, f);
    var p := PositionFor(b, f);
    if !Reduces(p, f) && !DividesByZero(p, f) {
      assert Process(b, f).positions[f.symbol].totalTrades == p.totalTrades + 1;
    }
  }
}
