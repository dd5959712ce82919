/** Comparing local positions with the broker's and correcting the local side. */
module PositionSync {
  import opened Market
  import opened Optional
  import opened Sequences

  /** A position as far as synchronisation looks at it. */
  datatype Holding = Holding(side: Side, quantity: real, avgPrice: Option<real>)

  datatype Config = Config(quantityTolerance: real, priceTolerancePct: real, maxQuantityDiffPct: real,
                           autoReconcile: bool, reconcileOnCritical: bool)

  datatype Kind = MissingLocally | MissingOnBroker | QuantityMismatch | PriceMismatch | SideMismatch

  datatype Difference = Difference(kind: Kind, symbol: Symbol, broker: Option<Holding>, critical: bool)

  function Abs(x: real): real { if x < 0.0 then -x else x }

  predicate QuantityDiffers(c: Config, b: Holding, l: Holding) {
    Abs(b.quantity - l.quantity) > c.quantityTolerance
  }

  /** How far the quantities are apart, in percent of the broker's. */
  function QuantityDiffPct(b: Holding, l: Holding): real {
    if b.quantity > 0.0 then Abs(b.quantity - l.quantity) / b.quantity * 100.0
    else if l.quantity > 0.0 then 100.0 else 0.0
  }

  predicate PriceDiffers(c: Config, b: Holding, l: Holding) {
    && b.avgPrice.Some? && l.avgPrice.Some? && b.avgPrice.value > 0.0
    && Abs((b.avgPrice.value - l.avgPrice.value) / b.avgPrice.value) * 100.0 > c.priceTolerancePct
  }

  /** The differences of one symbol: missing on one side, or any of side,
      quantity and average price. */
  function Compare(c: Config, s: Symbol, b: Option<Holding>, l: Option<Holding>): seq<Difference> {
    match (b, l)
    case (None, None) => []
    case (Some(_), None) => [Difference(MissingLocally, s, b, false)]
    case (None, Some(_)) => [Difference(MissingOnBroker, s, b, true)]
    case (Some(x), Some(y)) =>
      (if x.side != y.side then [Difference(SideMismatch, s, b, true)] else [])
      + (if QuantityDiffers(c, x, y)
         then [Difference(QuantityMismatch, s, b, QuantityDiffPct(x, y) > c.maxQuantityDiffPct)] else [])
      + (if PriceDiffers(c, x, y) then [Difference(PriceMismatch, s, b, false)] else [])
  }

  // ------------------------------------------------------------- tolerances

  /** The quantities are at most the tolerance apart, whichever is larger. */
  predicate QuantityWithin(c: Config, b: Holding, l: Holding) {
    b.quantity - l.quantity <= c.quantityTolerance && l.quantity - b.quantity <= c.quantityTolerance
  }

  /** The average prices are at most the tolerated share of the broker's apart,
      where both are known and the broker's is above zero. */
  predicate PriceWithin(c: Config, b: Holding, l: Holding) {
    b.avgPrice.Some? && l.avgPrice.Some? && b.avgPrice.value > 0.0 ==>
      var p, q := b.avgPrice.value, l.avgPrice.value;
      100.0 * (p - q) <= c.priceTolerancePct * p && 100.0 * (q - p) <= c.priceTolerancePct * p
  }

  /** The quantities are apart by more than the critical share of the broker's;
      a broker without a quantity counts as wholly apart from a local one. */
  predicate FarApart(c: Config, b: Holding, l: Holding) {
    if b.quantity > 0.0 then
      || 100.0 * (b.quantity - l.quantity) > c.maxQuantityDiffPct * b.quantity
      || 100.0 * (l.quantity - b.quantity) > c.maxQuantityDiffPct * b.quantity
    else if l.quantity > 0.0 then c.maxQuantityDiffPct < 100.0
    else c.maxQuantityDiffPct < 0.0
  }

  lemma TolerancesAre(c: Config, b: Holding, l: Holding)
    ensures QuantityDiffers(c, b, l) <==> !QuantityWithin(c, b, l)
    ensures PriceDiffers(c, b, l) <==> !PriceWithin(c, b, l)
    ensures QuantityDiffPct(b, l) > c.maxQuantityDiffPct <==> FarApart(c, b, l)
  {
    PriceToleranceIs(c, b, l);
    SeverityIs(c, b, l);
    hide PriceDiffers, PriceWithin, QuantityDiffPct, FarApart;
  }

  lemma PriceToleranceIs(c: Config, b: Holding, l: Holding)
    ensures PriceDiffers(c, b, l) <==> !PriceWithin(c, b, l)
  {
    if b.avgPrice.Some? && l.avgPrice.Some? && b.avgPrice.value > 0.0 {
      var p, q := b.avgPrice.value, l.avgPrice.value;
      ShareOf(p - q, p, c.priceTolerancePct);
      assert -100.0 * (p - q) == 100.0 * (q - p);
      hide Abs;
    }
  }

  lemma SeverityIs(c: Config, b: Holding, l: Holding)
    ensures QuantityDiffPct(b, l) > c.maxQuantityDiffPct <==> FarApart(c, b, l)
  {
    if b.quantity > 0.0 {
      var p, q := b.quantity, l.quantity;
      ShareOf(p - q, p, c.maxQuantityDiffPct);
      assert -100.0 * (p - q) == 100.0 * (q - p);
      hide Abs;
    }
  }

  /** A distance as a percentage of a positive number, on both sides of a bound. */
  lemma ShareOf(d: real, x: real, pct: real)
    requires x > 0.0
    ensures Abs(d / x) * 100.0 > pct <==> 100.0 * d > pct * x || -100.0 * d > pct * x
    ensures Abs(d) / x * 100.0 > pct <==> 100.0 * d > pct * x || -100.0 * d > pct * x
  {
    var r, n := d / x, -d / x;
    assert r * x == d && n * x == -d;
    SameSide(r * 100.0, x, pct);
    SameSide(n * 100.0, x, pct);
    assert r * 100.0 * x == 100.0 * d && n * 100.0 * x == -100.0 * d;
    SignOf(r, x, d);
    assert (r + n) * x == 0.0;
    SignOf(r + n, x, 0.0);
    assert Abs(d / x) == Abs(d) / x == if d < 0.0 then n else r;
    if d < 0.0 {
      assert 100.0 * d > pct * x ==> -100.0 * d > pct * x;
    } else {
      assert -100.0 * d > pct * x ==> 100.0 * d > pct * x;
    }
  }

  lemma SameSide(a: real, x: real, b: real)
    requires x > 0.0
    ensures a > b <==> a * x > b * x
  {
    assert (a - b) * x == a * x - b * x;
    SignOf(a - b, x, a * x - b * x);
  }

  lemma SignOf(r: real, x: real, d: real)
    requires x > 0.0 && r * x == d
    ensures (r < 0.0 <==> d < 0.0) && (r > 0.0 <==> d > 0.0)
  {
  }

  /** The order in which the mismatches of one symbol are reported. */
  function Rank(k: Kind): nat {
    match k case SideMismatch => 0 case QuantityMismatch => 1 case PriceMismatch => 2 case _ => 3
  }

  /** What is reported of a symbol that both sides have, and as how severe: other
      sides, always critical; quantities outside the tolerance, critical when far
      apart; prices outside the tolerance, never critical. Each at most once, in
      this order; nothing exactly when all three agree. */
  lemma MismatchesAre(c: Config, s: Symbol, b: Holding, l: Holding)
    ensures var ds := Compare(c, s, Some(b), Some(l));
            && (forall d: Difference :: d in ds <==>
                  && d.symbol == s && d.broker == Some(b)
                  && match d.kind
                     case SideMismatch => b.side != l.side && d.critical
                     case QuantityMismatch => !QuantityWithin(c, b, l) && (d.critical <==> FarApart(c, b, l))
                     case PriceMismatch => !PriceWithin(c, b, l) && !d.critical
                     case _ => false)
            && (forall i, j :: 0 <= i < j < |ds| ==> Rank(ds[i].kind) < Rank(ds[j].kind))
            && (ds == [] <==> b.side == l.side && QuantityWithin(c, b, l) && PriceWithin(c, b, l))
  {
    TolerancesAre(c, b, l);
    hide QuantityDiffers, PriceDiffers, QuantityDiffPct, QuantityWithin, PriceWithin, FarApart;
  }

  /** What is reported of a symbol that one side lacks. */
  lemma OneSidedAre(c: Config, s: Symbol, h: Holding)
    ensures Compare(c, s, Some(h), None) == [Difference(MissingLocally, s, Some(h), false)]
    ensures Compare(c, s, None, Some(h)) == [Difference(MissingOnBroker, s, None, true)]
  {
  }

  type Positions = map<Symbol, Holding>

  function At(m: Positions, s: Symbol): Option<Holding> {
    if s in m then Some(m[s]) else None
  }

  /** The differences of the given symbols, in their order. */
  function Differences(c: Config, broker: Positions, local: Positions, symbols: seq<Symbol>): seq<Difference> {
    if |symbols| == 0 then []
    else
      var s := symbols[|symbols| - 1];
      Differences(c, broker, local, symbols[..|symbols| - 1]) + Compare(c, s, At(broker, s), At(local, s))
  }

  // ---------------------------------------------------------- reconciliation

  /** The effect of one difference on the local map. */
  function Reconcile(local: Positions, d: Difference): Positions {
    if d.symbol !in local then local
    else
      var l := local[d.symbol];
      match d.kind
      case MissingLocally => local
      case MissingOnBroker => local - {d.symbol}
      case QuantityMismatch =>
        if d.broker.Some? then local[d.symbol := l.(quantity := d.broker.value.quantity)] else local
      case PriceMismatch =>
        if d.broker.Some? && d.broker.value.avgPrice.Some? then local[d.symbol := l.(avgPrice := d.broker.value.avgPrice)] else local
      case SideMismatch =>
        if d.broker.Some? then local[d.symbol := l.(side := d.broker.value.side)] else local
  }

  /** Whether a difference counts as reconciled. */
  predicate Counts(local: Positions, d: Difference) {
    && d.symbol in local && !d.kind.MissingLocally?
    && (d.kind.QuantityMismatch? || d.kind.SideMismatch? ==> d.broker.Some?)
    && (d.kind.PriceMismatch? ==> d.broker.Some? && d.broker.value.avgPrice.Some?)
  }

  /** A difference that does not count changes nothing; one that counts leaves its
      symbol with the broker's value in the field it is about, or without an entry
      when the broker has none. */
  lemma CountsMeans(local: Positions, d: Difference)
    ensures var r := Reconcile(local, d);
            && (!Counts(local, d) ==> r == local)
            && (forall s :: s != d.symbol ==> At(r, s) == At(local, s))
            && (Counts(local, d) && d.kind.MissingOnBroker? ==> d.symbol !in r)
            && (Counts(local, d) && !d.kind.MissingOnBroker? ==>
                  && d.symbol in r && d.broker.Some?
                  && var b, l, l' := d.broker.value, local[d.symbol], r[d.symbol];
                     && l'.side == (if d.kind.SideMismatch? then b else l).side
                     && l'.quantity == (if d.kind.QuantityMismatch? then b else l).quantity
                     && l'.avgPrice == (if d.kind.PriceMismatch? then b else l).avgPrice)
  {
  }

  function ReconcileAll(local: Positions, ds: seq<Difference>): Positions {
    if |ds| == 0 then local else Reconcile(ReconcileAll(local, ds[..|ds| - 1]), ds[|ds| - 1])
  }

  function CountAll(local: Positions, ds: seq<Difference>): nat {
    if |ds| == 0 then 0
    else CountAll(local, ds[..|ds| - 1])
         + if Counts(ReconcileAll(local, ds[..|ds| - 1]), ds[|ds| - 1]) then 1 else 0
  }

  function MissingLocallyCount(ds: seq<Difference>): nat {
    if |ds| == 0 then 0
    else MissingLocallyCount(ds[..|ds| - 1]) + if ds[|ds| - 1].kind.MissingLocally? then 1 else 0
  }

  /** What becomes of a position that both sides have. */
  function Corrected(c: Config, b: Holding, l: Holding): Holding {
    Holding(b.side,
            if QuantityDiffers(c, b, l) then b.quantity else l.quantity,
            if PriceDiffers(c, b, l) then b.avgPrice else l.avgPrice)
  }

  /** The outcome of a pass for one symbol. */
  function Outcome(c: Config, b: Option<Holding>, l: Option<Holding>): Option<Holding> {
    match (b, l)
    case (Some(x), Some(y)) => Some(Corrected(c, x, y))
    case (_, _) => None
  }

  lemma {:induction false} ReconcileConcat(local: Positions, a: seq<Difference>, b: seq<Difference>)
    ensures ReconcileAll(local, a + b) == ReconcileAll(ReconcileAll(local, a), b)
    ensures CountAll(local, a + b) == CountAll(local, a) + CountAll(ReconcileAll(local, a), b)
    ensures MissingLocallyCount(a + b) == MissingLocallyCount(a) + MissingLocallyCount(b)
  {
    hide Reconcile, Counts;
    if |b| == 0 {
      assert a + b == a;
    } else {
      var n := |b| - 1;
      ReconcileConcat(local, a, b[..n]);
      assert (a + b)[..|a + b| - 1] == a + b[..n];
    }
  }

  /** The correction that one kind of mismatch makes. */
  function Adjusted(kind: Kind, b: Holding, l: Holding): Holding {
    match kind
    case SideMismatch => l.(side := b.side)
    case QuantityMismatch => l.(quantity := b.quantity)
    case PriceMismatch => if b.avgPrice.Some? then l.(avgPrice := b.avgPrice) else l
    case _ => l
  }

  /** One kind of mismatch, found or not. */
  lemma {:induction false} OneKind(local: Positions, s: Symbol, b: Holding, kind: Kind, found: bool, critical: bool)
    requires s in local && kind in {SideMismatch, QuantityMismatch, PriceMismatch}
    requires found && kind == PriceMismatch ==> b.avgPrice.Some?
    ensures var ds := if found then [Difference(kind, s, Some(b), critical)] else [];
            && ReconcileAll(local, ds) == local[s := if found then Adjusted(kind, b, local[s]) else local[s]]
            && CountAll(local, ds) == |ds| && MissingLocallyCount(ds) == 0
  {
    Single(local, if found then [Difference(kind, s, Some(b), critical)] else []);
    assert local[s := local[s]] == local;
  }

  lemma {:induction false} BothReconciled(c: Config, s: Symbol, b: Holding, local: Positions)
    requires s in local
    ensures var ds := Compare(c, s, Some(b), Some(local[s]));
            && ReconcileAll(local, ds) == local[s := Corrected(c, b, local[s])]
            && CountAll(local, ds) == |ds| && MissingLocallyCount(ds) == 0
  {
    hide QuantityDiffers, PriceDiffers, QuantityDiffPct, ReconcileAll, CountAll, MissingLocallyCount;
    var l := local[s];
    PriceDiffersNeedsPrice(c, b, l);
    var pct := QuantityDiffPct(b, l) > c.maxQuantityDiffPct;
    var side := if b.side != l.side then [Difference(SideMismatch, s, Some(b), true)] else [];
    var quantity := if QuantityDiffers(c, b, l) then [Difference(QuantityMismatch, s, Some(b), pct)] else [];
    var price := if PriceDiffers(c, b, l) then [Difference(PriceMismatch, s, Some(b), false)] else [];
    OneKind(local, s, b, SideMismatch, b.side != l.side, true);
    var local1 := ReconcileAll(local, side);
    OneKind(local1, s, b, QuantityMismatch, QuantityDiffers(c, b, l), pct);
    var local2 := ReconcileAll(local1, quantity);
    OneKind(local2, s, b, PriceMismatch, PriceDiffers(c, b, l), false);
    ReconcileConcat(local, side, quantity);
    ReconcileConcat(local, side + quantity, price);
  }

  /** One symbol's differences correct that symbol and leave all others. */
  lemma {:induction false} SymbolReconciled(c: Config, s: Symbol, b: Option<Holding>, local: Positions)
    ensures var ds := Compare(c, s, b, At(local, s));
            && At(ReconcileAll(local, ds), s) == Outcome(c, b, At(local, s))
            && (forall t :: t != s ==> At(ReconcileAll(local, ds), t) == At(local, t))
            && CountAll(local, ds) == |ds| - MissingLocallyCount(ds)
  {
    hide Corrected, QuantityDiffers, PriceDiffers, QuantityDiffPct;
    if b.Some? && s in local {
      BothReconciled(c, s, b.value, local);
    } else {
      Single(local, Compare(c, s, b, At(local, s)));
    }
  }

  /** At most one difference, spelled out. */
  lemma {:induction false} Single(local: Positions, ds: seq<Difference>)
    requires |ds| <= 1
    ensures ReconcileAll(local, ds) == if |ds| == 0 then local else Reconcile(local, ds[0])
    ensures CountAll(local, ds) == if |ds| == 1 && Counts(local, ds[0]) then 1 else 0
    ensures MissingLocallyCount(ds) == if |ds| == 1 && ds[0].kind.MissingLocally? then 1 else 0
  {
    hide Reconcile, Counts;
    if |ds| == 1 {
      assert ds[..0] == [];
    }
  }

  lemma PriceDiffersNeedsPrice(c: Config, b: Holding, l: Holding)
    ensures PriceDiffers(c, b, l) ==> b.avgPrice.Some?
  {
  }

  /** A pass corrects every visited symbol on its own, in whatever order the
      symbols come, and counts everything but what is missing locally. */
  lemma {:induction false} PassOutcome(c: Config, broker: Positions, local: Positions, symbols: seq<Symbol>)
    requires NoRepeats(symbols)
    ensures var ds := Differences(c, broker, local, symbols);
            && (forall t :: At(ReconcileAll(local, ds), t)
                            == if t in symbols then Outcome(c, At(broker, t), At(local, t)) else At(local, t))
            && CountAll(local, ds) == |ds| - MissingLocallyCount(ds)
  {
    hide Outcome, Compare, Reconcile, Counts, At;
    if |symbols| > 0 {
      var n := |symbols| - 1;
      var s := symbols[n];
      var front := Differences(c, broker, local, symbols[..n]);
      PassOutcome(c, broker, local, symbols[..n]);
      var mid := ReconcileAll(local, front);
      assert s !in symbols[..n];
      assert forall t :: t in symbols <==> t in symbols[..n] || t == s;
      SymbolReconciled(c, s, At(broker, s), mid);
      ReconcileConcat(local, front, Compare(c, s, At(broker, s), At(local, s)));
    }
  }

  /** The symbols of both sides, each once, in some order. */
  ghost predicate Enumerates(symbols: seq<Symbol>, broker: Positions, local: Positions) {
    NoRepeats(symbols) && forall s :: s in symbols <==> s in broker || s in local
  }

  /** The local map after a pass, in closed form. */
  function Synced(c: Config, broker: Positions, local: Positions): Positions {
    map s | s in local && s in broker :: Corrected(c, broker[s], local[s])
  }

  lemma {:induction false} PassIsSynced(c: Config, broker: Positions, local: Positions, symbols: seq<Symbol>)
    requires Enumerates(symbols, broker, local)
    ensures ReconcileAll(local, Differences(c, broker, local, symbols)) == Synced(c, broker, local)
    ensures var ds := Differences(c, broker, local, symbols);
            CountAll(local, ds) == |ds| - MissingLocallyCount(ds)
  {
    hide Corrected, Differences;
    PassOutcome(c, broker, local, symbols);
    var r, e := ReconcileAll(local, Differences(c, broker, local, symbols)), Synced(c, broker, local);
    forall s
      ensures At(r, s) == At(e, s)
    {
      if s !in symbols {
        assert s !in broker && s !in local;
      }
    }
    SameMaps(r, e);
  }

  lemma SameMaps(a: Positions, b: Positions)
    requires forall s :: At(a, s) == At(b, s)
    ensures a == b
  {
    forall s
      ensures s in a <==> s in b
      ensures s in a ==> a[s] == b[s]
    {
      assert At(a, s) == At(b, s);
    }
  }

  // ------------------------------------------------------------- convergence

  predicate Tolerant(c: Config) {
    c.quantityTolerance >= 0.0 && c.priceTolerancePct >= 0.0
  }

  /** Nothing is left to correct: every difference is a position missing here. */
  predicate OnlyMissingLocally(ds: seq<Difference>) {
    forall i :: 0 <= i < |ds| ==> ds[i].kind.MissingLocally?
  }

  lemma CorrectedIsClean(c: Config, s: Symbol, b: Holding, l: Holding)
    requires Tolerant(c)
    ensures Compare(c, s, Some(b), Some(Corrected(c, b, l))) == []
  {
    var l' := Corrected(c, b, l);
    assert !QuantityDiffers(c, b, l');
    if b.avgPrice.Some? && b.avgPrice.value > 0.0 {
      var x := b.avgPrice.value;
      assert (x - x) / x == 0.0;
    }
    assert !PriceDiffers(c, b, l');
  }

  /** A correction takes over the broker's side, and of quantity and price exactly
      what was outside its tolerance. */
  lemma CorrectedIs(c: Config, s: Symbol, b: Holding, l: Holding)
    requires Tolerant(c)
    ensures var l' := Corrected(c, b, l);
            && l'.side == b.side && QuantityWithin(c, b, l') && PriceWithin(c, b, l')
            && l'.quantity == (if QuantityWithin(c, b, l) then l else b).quantity
            && l'.avgPrice == (if PriceWithin(c, b, l) then l else b).avgPrice
  {
    CorrectedIsClean(c, s, b, l);
    MismatchesAre(c, s, b, Corrected(c, b, l));
    TolerancesAre(c, b, l);
    hide QuantityDiffers, PriceDiffers, QuantityWithin, PriceWithin, Compare;
  }

  lemma {:induction false} SecondPass(c: Config, broker: Positions, local: Positions, symbols: seq<Symbol>)
    requires Tolerant(c)
    ensures OnlyMissingLocally(Differences(c, broker, Synced(c, broker, local), symbols))
  {
    hide Corrected;
    if |symbols| > 0 {
      var s, l := symbols[|symbols| - 1], Synced(c, broker, local);
      SecondPass(c, broker, local, symbols[..|symbols| - 1]);
      if s in l {
        CorrectedIsClean(c, s, broker[s], local[s]);
      }
      assert OnlyMissingLocally(Compare(c, s, At(broker, s), At(l, s)));
    }
  }

  lemma {:induction false} MissingChangesNothing(local: Positions, ds: seq<Difference>)
    requires OnlyMissingLocally(ds)
    ensures ReconcileAll(local, ds) == local
  {
    if |ds| > 0 {
      MissingChangesNothing(local, ds[..|ds| - 1]);
    }
  }

  /** With tolerances that are not negative, one pass converges: every common
      symbol has the broker's side and agrees on quantity and price within the
      tolerances, what agreed before being kept; symbols unknown to the broker are
      gone, and a second pass finds only what is missing locally and changes
      nothing. */
  lemma {:induction false} OnePassConverges(c: Config, broker: Positions, local: Positions, symbols: seq<Symbol>, again: seq<Symbol>)
    requires Tolerant(c) && Enumerates(symbols, broker, local)
    requires Enumerates(again, broker, Synced(c, broker, local))
    ensures var local' := ReconcileAll(local, Differences(c, broker, local, symbols));
            var ds' := Differences(c, broker, local', again);
            && (forall s :: s in local' <==> s in local && s in broker)
            && (forall s :: s in local' ==>
                  && local'[s].side == broker[s].side
                  && QuantityWithin(c, broker[s], local'[s]) && PriceWithin(c, broker[s], local'[s])
                  && local'[s].quantity == (if QuantityWithin(c, broker[s], local[s]) then local[s] else broker[s]).quantity
                  && local'[s].avgPrice == (if PriceWithin(c, broker[s], local[s]) then local[s] else broker[s]).avgPrice)
            && OnlyMissingLocally(ds') && ReconcileAll(local', ds') == local'
  {
    PassIsSynced(c, broker, local, symbols);
    SecondPass(c, broker, local, again);
    var local' := Synced(c, broker, local);
    MissingChangesNothing(local', Differences(c, broker, local', again));
    forall s | s in local'
      ensures var b, l, l' := broker[s], local[s], local'[s];
              && l'.side == b.side && QuantityWithin(c, b, l') && PriceWithin(c, b, l')
              && l'.quantity == (if QuantityWithin(c, b, l) then l else b).quantity
              && l'.avgPrice == (if PriceWithin(c, b, l) then l else b).avgPrice
    {
      CorrectedIs(c, s, broker[s], local[s]);
    }
  }

  /** A correction brings every two positions together exactly when no tolerance is
      negative. */
  lemma ConvergesIff(c: Config, s: Symbol)
    ensures Tolerant(c)
            <==> forall b: Holding, l: Holding ::
                   var l' := Corrected(c, b, l);
                   l'.side == b.side && QuantityWithin(c, b, l') && PriceWithin(c, b, l')
  {
    if Tolerant(c) {
      forall b: Holding, l: Holding
        ensures var l' := Corrected(c, b, l); l'.side == b.side && QuantityWithin(c, b, l') && PriceWithin(c, b, l')
      {
        CorrectedIs(c, s, b, l);
      }
    } else {
      var h := Holding(Buy, 1.0, Some(1.0));
      assert Corrected(c, h, h) == h;
      assert !(QuantityWithin(c, h, h) && PriceWithin(c, h, h));
    }
  }

  /** What the caller's own objects hold after a reconciling pass: dropping an
      entry from the lookup map does not reach the caller. */
  function CallerView(c: Config, broker: Positions, local: Positions): Positions {
    map s | s in local :: if s in broker then Corrected(c, broker[s], local[s]) else local[s]
  }

  lemma CorrectedTwice(c: Config, b: Holding, l: Holding)
    requires Tolerant(c)
    ensures Corrected(c, b, Corrected(c, b, l)) == Corrected(c, b, l)
  {
    CorrectedIsClean(c, Symbol("", "", ""), b, l);
  }

  /** A second pass over the caller's objects changes nothing. */
  lemma CallerViewSettles(c: Config, broker: Positions, local: Positions)
    requires Tolerant(c)
    ensures CallerView(c, broker, CallerView(c, broker, local)) == CallerView(c, broker, local)
  {
    hide Corrected;
    forall s | s in local && s in broker
      ensures Corrected(c, broker[s], Corrected(c, broker[s], local[s])) == Corrected(c, broker[s], local[s])
    {
      CorrectedTwice(c, broker[s], local[s]);
    }
  }

  /** The caller's objects after a number of reconciling passes. */
  function AfterPasses(c: Config, broker: Positions, local: Positions, n: nat): Positions {
    if n == 0 then local else CallerView(c, broker, AfterPasses(c, broker, local, n - 1))
  }

  lemma {:induction false} PassesSettle(c: Config, broker: Positions, local: Positions, n: nat)
    requires Tolerant(c) && n > 0
    ensures AfterPasses(c, broker, local, n) == CallerView(c, broker, local)
  {
    hide CallerView;
    if n > 1 {
      PassesSettle(c, broker, local, n - 1);
      CallerViewSettles(c, broker, local);
    } else {
      assert AfterPasses(c, broker, local, 0) == local;
    }
  }

  /** Every later pass over the caller's objects, however many have gone before,
      reports exactly the symbols that one side lacks, the stale local ones
      included. */
  lemma {:induction false} StaleStaysReported(c: Config, broker: Positions, local: Positions, s: Symbol, n: nat)
    requires Tolerant(c) && n > 0
    ensures var ds := Compare(c, s, At(broker, s), At(AfterPasses(c, broker, local, n), s));
            ds == if s in broker && s !in local then [Difference(MissingLocally, s, At(broker, s), false)]
                  else if s in local && s !in broker then [Difference(MissingOnBroker, s, None, true)]
                  else []
  {
    PassesSettle(c, broker, local, n);
    if s in broker && s in local {
      CorrectedIsClean(c, s, broker[s], local[s]);
    }
  }

  /** A pass finds nothing but MissingOnBroker for what the broker lacks. */
  lemma {:induction false} OnlyStale(c: Config, broker: Positions, local: Positions, symbols: seq<Symbol>, d: Difference)
    requires d in Differences(c, broker, local, symbols) && d.symbol !in broker
    ensures d.kind.MissingOnBroker?
  {
    if |symbols| > 0 {
      var n := |symbols| - 1;
      var front, last := Differences(c, broker, local, symbols[..n]), symbols[n];
      assert Differences(c, broker, local, symbols) == front + Compare(c, last, At(broker, last), At(local, last));
      if d in front {
        OnlyStale(c, broker, local, symbols[..n], d);
      }
    }
  }

  /** No difference in a list touches a symbol, except by reporting it stale. */
  predicate Untouched(ds: seq<Difference>, s: Symbol) {
    forall i :: 0 <= i < |ds| && ds[i].symbol == s ==> ds[i].kind.MissingOnBroker?
  }

  // ------------------------------------------------------- the mutable form

  class Position {
    const symbol: Symbol
    var side: Side
    var quantity: real
    var avgPrice: Option<real>

    function Value(): Holding
      reads this
    {
      Holding(side, quantity, avgPrice)
    }

    constructor (symbol: Symbol, h: Holding)
      ensures this.symbol == symbol && Value() == h
    {
      this.symbol, side, quantity, avgPrice := symbol, h.side, h.quantity, h.avgPrice;
    }
  }

  /** A lookup map of position objects, each under its own symbol. */
  predicate Keyed(m: map<Symbol, Position>) {
    forall s :: s in m ==> m[s].symbol == s
  }

  function Values(m: map<Symbol, Position>): Positions
    reads m.Values
  {
    map s | s in m :: m[s].Value()
  }

  class PositionSynchronizer {
    const config: Config
    var totalReconciled: nat

    constructor (config: Config)
      ensures this.config == config && totalReconciled == 0
    {
      this.config, totalReconciled := config, 0;
    }

    /** Applies one difference to the local map and its objects. */
    method ReconcileSingle(diff: Difference, localMap: map<Symbol, Position>)
      returns (after: map<Symbol, Position>, count: nat)
      requires Keyed(localMap)
      modifies localMap.Values
      ensures Keyed(after) && forall s :: s in after ==> s in localMap && after[s] == localMap[s]
      ensures Values(after) == Reconcile(old(Values(localMap)), diff)
      ensures count == if Counts(old(Values(localMap)), diff) then 1 else 0
      ensures forall s :: s in localMap && Untouched([diff], s) ==> localMap[s].Value() == old(localMap[s].Value())
    {
      assert [diff][0] == diff;
      after, count := localMap, 0;
      if diff.symbol !in localMap {
        return;
      }
      var position := localMap[diff.symbol];
      match diff.kind {
        case MissingLocally =>
        case MissingOnBroker =>
          after := localMap - {diff.symbol};
          count := 1;
        case QuantityMismatch =>
          if diff.broker.Some? {
            position.quantity := diff.broker.value.quantity;
            count := 1;
          }
        case PriceMismatch =>
          if diff.broker.Some? && diff.broker.value.avgPrice.Some? {
            position.avgPrice := diff.broker.value.avgPrice;
            count := 1;
          }
        case SideMismatch =>
          if diff.broker.Some? {
            position.side := diff.broker.value.side;
            count := 1;
          }
      }
    }

    /** Applies all differences in order and counts those that took effect. */
    method ReconcileDifferences(diffs: seq<Difference>, localMap: map<Symbol, Position>)
      returns (after: map<Symbol, Position>, reconciled: nat)
      requires Keyed(localMap)
      modifies localMap.Values, this`totalReconciled
      ensures Keyed(after) && forall s :: s in after ==> s in localMap && after[s] == localMap[s]
      ensures Values(after) == ReconcileAll(old(Values(localMap)), diffs)
      ensures reconciled == CountAll(old(Values(localMap)), diffs)
      ensures totalReconciled == old(totalReconciled) + reconciled
      ensures forall s :: s in localMap && Untouched(diffs, s) ==> localMap[s].Value() == old(localMap[s].Value())
    {
      hide Reconcile, Counts;
      after, reconciled := localMap, 0;
      var i := 0;
      while i < |diffs|
        invariant 0 <= i <= |diffs|
        invariant Keyed(after) && forall s :: s in after ==> s in localMap && after[s] == localMap[s]
        invariant Values(after) == ReconcileAll(old(Values(localMap)), diffs[..i])
        invariant reconciled == CountAll(old(Values(localMap)), diffs[..i])
        invariant totalReconciled == old(totalReconciled)
        invariant forall s :: s in localMap && Untouched(diffs, s) ==> localMap[s].Value() == old(localMap[s].Value())
      {
        assert diffs[..i + 1][..i] == diffs[..i];
        forall s | Untouched(diffs, s) ensures Untouched([diffs[i]], s) {
        }
        var count;
        after, count := ReconcileSingle(diffs[i], after);
        reconciled := reconciled + count;
        i := i + 1;
      }
      assert diffs[..i] == diffs;
      totalReconciled := totalReconciled + reconciled;
    }

    /** The comparison loop and, if configured, the reconciliation. */
    method Sync(broker: Positions, localMap: map<Symbol, Position>)
      returns (diffs: seq<Difference>, matched: nat, reconciled: nat, after: map<Symbol, Position>, ghost symbols: seq<Symbol>)
      requires Keyed(localMap)
      modifies localMap.Values, this`totalReconciled
      ensures Enumerates(symbols, broker, old(Values(localMap)))
      ensures diffs == Differences(config, broker, old(Values(localMap)), symbols)
      ensures matched == CleanCount(config, broker, old(Values(localMap)), symbols)
      ensures if config.autoReconcile || (config.reconcileOnCritical && exists i :: 0 <= i < |diffs| && diffs[i].critical)
              then Values(after) == Synced(config, broker, old(Values(localMap)))
                   && reconciled == |diffs| - MissingLocallyCount(diffs)
                   && Values(localMap) == CallerView(config, broker, old(Values(localMap)))
              else Values(localMap) == old(Values(localMap)) && Values(after) == old(Values(localMap)) && reconciled == 0
    {
      hide Compare, At, Synced, Reconcile, Counts, CallerView, Differences, CleanCount;
      NothingCompared(config, broker, Values(localMap));
      ghost var local := Values(localMap);
      var todo := broker.Keys + localMap.Keys;
      diffs, matched, reconciled, after, symbols := [], 0, 0, localMap, [];
      while todo != {}
        invariant NoRepeats(symbols) && forall s :: s in symbols ==> s !in todo
        invariant forall s :: s in broker || s in localMap <==> s in todo || s in symbols
        invariant diffs == Differences(config, broker, local, symbols)
        invariant matched == CleanCount(config, broker, local, symbols)
        invariant Values(localMap) == local
        decreases todo
      {
        var s :| s in todo;
        todo := todo - {s};
        var found := Compare(config, s, At(broker, s), if s in localMap then Some(localMap[s].Value()) else None);
        LookedUp(localMap, s);
        OneMoreCompared(config, broker, local, symbols, s);
        assert diffs + [] == diffs;
        if found != [] {
          diffs := diffs + found;
        } else {
          matched := matched + 1;
        }
        symbols := symbols + [s];
      }
      if config.autoReconcile || (config.reconcileOnCritical && exists i :: 0 <= i < |diffs| && diffs[i].critical) {
        after, reconciled := ReconcilePass(broker, localMap, diffs, symbols);
      }
    }

    /** Applies all differences that a pass has found. */
    method ReconcilePass(ghost broker: Positions, localMap: map<Symbol, Position>, diffs: seq<Difference>, ghost symbols: seq<Symbol>)
      returns (after: map<Symbol, Position>, reconciled: nat)
      requires Keyed(localMap) && Enumerates(symbols, broker, Values(localMap))
      requires diffs == Differences(config, broker, Values(localMap), symbols)
      modifies localMap.Values, this`totalReconciled
      ensures Values(after) == Synced(config, broker, old(Values(localMap)))
      ensures reconciled == |diffs| - MissingLocallyCount(diffs)
      ensures Values(localMap) == CallerView(config, broker, old(Values(localMap)))
    {
      hide Compare, Corrected, Reconcile, Counts, Differences, ReconcileAll, CountAll;
      ghost var local := Values(localMap);
      after, reconciled := ReconcileDifferences(diffs, localMap);
      PassIsSynced(config, broker, local, symbols);
      forall s | s in localMap
        ensures localMap[s].Value() == CallerView(config, broker, local)[s]
      {
        if s in broker {
          assert s in Synced(config, broker, local);
          assert Values(after)[s] == after[s].Value();
        } else {
          StaleUntouched(config, broker, local, symbols, s);
        }
      }
    }

    lemma {:induction false} StaleUntouched(c: Config, broker: Positions, local: Positions, symbols: seq<Symbol>, s: Symbol)
      requires s !in broker
      ensures Untouched(Differences(c, broker, local, symbols), s)
    {
      var ds := Differences(c, broker, local, symbols);
      forall i | 0 <= i < |ds| && ds[i].symbol == s
        ensures ds[i].kind.MissingOnBroker?
      {
        OnlyStale(c, broker, local, symbols, ds[i]);
      }
    }

    lemma LookedUp(localMap: map<Symbol, Position>, s: Symbol)
      ensures At(Values(localMap), s) == if s in localMap then Some(localMap[s].Value()) else None
    {
    }
  }

  /** How many of the symbols compare clean. */
  function CleanCount(c: Config, broker: Positions, local: Positions, symbols: seq<Symbol>): nat {
    if |symbols| == 0 then 0
    else
      var s := symbols[|symbols| - 1];
      CleanCount(c, broker, local, symbols[..|symbols| - 1])
      + if Compare(c, s, At(broker, s), At(local, s)) == [] then 1 else 0
  }

  lemma {:induction false} NothingCompared(c: Config, broker: Positions, local: Positions)
    ensures Differences(c, broker, local, []) == [] && CleanCount(c, broker, local, []) == 0
  {
  }

  lemma {:induction false} OneMoreCompared(c: Config, broker: Positions, local: Positions, symbols: seq<Symbol>, s: Symbol)
    ensures var found := Compare(c, s, At(broker, s), At(local, s));
            && Differences(c, broker, local, symbols + [s]) == Differences(c, broker, local, symbols) + found
            && CleanCount(c, broker, local, symbols + [s])
               == CleanCount(c, broker, local, symbols) + if found == [] then 1 else 0
  {
    hide Compare, At;
    assert (symbols + [s])[..|symbols|] == symbols;
  }
}
