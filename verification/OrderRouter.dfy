/** Splitting an order over brokers, and taking brokers in turn. */
module OrderRouter {
  import opened Market
  import opened Optional

  /** Part `index` of `count`, cut from the order `parent`. */
  datatype Part = Part(index: nat, count: nat, parent: nat)

  datatype Order = Order(id: nat, symbol: Symbol, side: Side, quantity: real, part: Option<Part>)

  datatype Error = WeightsRequired | DivisionByZero

  datatype Outcome<T> = Ok(value: T) | Raised(error: Error)

  datatype Config = Config(minSplitQuantity: real, maxSplitParts: int, splitEqual: bool)

  datatype Routing = Routing(orders: seq<Order>, brokers: seq<string>)

  function Max(a: real, b: real): real { if a >= b then a else b }

  function Sum(s: seq<real>): real {
    if |s| == 0 then 0.0 else Sum(s[..|s| - 1]) + s[|s| - 1]
  }

  // -------------------------------------------------------------- quantities

  /** The proportion of a quantity that a weight is due. */
  function Due(q: real, w: real, total: real): real
    requires total != 0.0
  {
    q * (w / total)
  }

  /** What a part other than the last receives: what it is due, at least one. */
  function Share(q: real, w: real, total: real): real
    requires total != 0.0
  {
    Max(Due(q, w, total), 1.0)
  }

  /** The shares of the first k parts. */
  function Shares(q: real, weights: seq<real>, k: nat): seq<real>
    requires k <= |weights| && Sum(weights) != 0.0
  {
    seq(k, i requires 0 <= i < k => Share(q, weights[i], Sum(weights)))
  }

  /** All quantities of a weighted split; the last part takes what remains. */
  function Weighted(q: real, weights: seq<real>): seq<real>
    requires |weights| > 0 && Sum(weights) != 0.0
  {
    var front := Shares(q, weights, |weights| - 1);
    front + [Max(q - Sum(front), 0.0)]
  }

  function Equal(q: real, n: nat): seq<real>
    requires n > 0
  {
    seq(n, i => q / n as real)
  }

  lemma {:induction false} SumSnoc(s: seq<real>, x: real)
    ensures Sum(s + [x]) == Sum(s) + x
  {
    assert (s + [x])[..|s|] == s;
  }

  lemma {:induction false} SumConstant(n: nat, x: real)
    ensures Sum(seq(n, i => x)) == n as real * x
  {
    if n > 0 {
      SumConstant(n - 1, x);
      assert seq(n, i => x) == seq(n - 1, i => x) + [x];
      SumSnoc(seq(n - 1, i => x), x);
    }
  }

  /** An equal split loses and adds nothing. */
  lemma EqualConserves(q: real, n: nat)
    requires n > 0
    ensures Sum(Equal(q, n)) == q
  {
    SumConstant(n, q / n as real);
    assert Equal(q, n) == seq(n, i => q / n as real);
  }

  /** The parts of an equal split are equal: so many of each make the quantity. */
  lemma EqualParts(q: real, n: nat)
    requires n > 0
    ensures |Equal(q, n)| == n && forall i :: 0 <= i < n ==> n as real * Equal(q, n)[i] == q
  {
  }

  /** A part is to the quantity as its weight is to all weights, or it is one where
      that would be less than one. */
  predicate InProportion(part: real, q: real, w: real, total: real) {
    || (part >= 1.0 && part * total == q * w)
    || (part == 1.0 && if total > 0.0 then q * w <= total else q * w >= total)
  }

  lemma ShareIs(q: real, w: real, total: real)
    requires total != 0.0
    ensures InProportion(Share(q, w, total), q, w, total)
  {
    var r := w / total;
    var d := q * r;
    assert d * total == q * (r * total) == q * w;
    if d < 1.0 {
      assert (1.0 - d) * total == total - q * w;
      if total > 0.0 {
        assert (1.0 - d) * total >= 0.0;
      } else {
        assert (1.0 - d) * -total >= 0.0;
      }
    }
  }

  /** A weighted split adds up to the quantity unless the parts before the last
      already exceed it; then it adds up to those. Any weights, any sign. */
  lemma WeightedTotal(q: real, weights: seq<real>)
    requires |weights| > 0 && Sum(weights) != 0.0
    ensures Sum(Weighted(q, weights)) == Max(q, Sum(Shares(q, weights, |weights| - 1)))
    ensures Sum(Weighted(q, weights)) == q <==> Sum(Shares(q, weights, |weights| - 1)) <= q
  {
    var front := Shares(q, weights, |weights| - 1);
    SumSnoc(front, Max(q - Sum(front), 0.0));
  }

  predicate NonNegative(s: seq<real>) {
    forall i :: 0 <= i < |s| ==> s[i] >= 0.0
  }

  lemma {:induction false} SumNonNegative(s: seq<real>)
    requires NonNegative(s)
    ensures Sum(s) >= 0.0
    ensures forall i :: 0 <= i < |s| ==> s[i] <= Sum(s)
  {
    if |s| > 0 {
      SumNonNegative(s[..|s| - 1]);
      assert forall i :: 0 <= i < |s| - 1 ==> s[..|s| - 1][i] == s[i];
    }
  }

  /** The raise to one adds at most one per part. */
  lemma {:induction false} SharesBound(q: real, weights: seq<real>, k: nat)
    requires k <= |weights| && NonNegative(weights) && Sum(weights) > 0.0 && q >= 0.0
    ensures var s, due := Sum(Shares(q, weights, k)), Due(q, Sum(weights[..k]), Sum(weights));
            && k as real <= s <= due + k as real
            && ((forall i :: 0 <= i < k ==> Due(q, weights[i], Sum(weights)) >= 1.0) ==> s == due)
  {
    hide Due, Sum;
    var total := Sum(weights);
    if k == 0 {
      SumEmpty();
      assert Shares(q, weights, 0) == [] && weights[..0] == [];
      DueNothing(q, total);
    } else {
      SharesBound(q, weights, k - 1);
      var front := Shares(q, weights, k - 1);
      var x := Share(q, weights[k - 1], total);
      SumSnoc(front, x);
      assert Shares(q, weights, k) == front + [x];
      assert weights[..k] == weights[..k - 1] + [weights[k - 1]];
      SumSnoc(weights[..k - 1], weights[k - 1]);
      DueAdds(q, Sum(weights[..k - 1]), weights[k - 1], total);
      DueBetween(q, weights[k - 1], total);
    }
  }

  lemma DueNothing(q: real, total: real)
    requires total != 0.0
    ensures Due(q, 0.0, total) == 0.0
  {
  }

  lemma DueAdds(q: real, a: real, b: real, total: real)
    requires total > 0.0
    ensures Due(q, a + b, total) == Due(q, a, total) + Due(q, b, total)
  {
    var x, y := a / total, b / total;
    assert (a + b) / total == x + y;
    assert q * (x + y) == q * x + q * y;
  }

  lemma DueBetween(q: real, b: real, total: real)
    requires total > 0.0 && q >= 0.0 && b >= 0.0
    ensures Due(q, b, total) >= 0.0
    ensures b <= total ==> Due(q, b, total) <= q
  {
    var x := b / total;
    assert x >= 0.0;
    assert q * x >= 0.0;
    if b <= total {
      assert x <= 1.0;
      assert q * (1.0 - x) >= 0.0;
    }
  }

  lemma {:induction false} WeightedNonNegative(q: real, weights: seq<real>)
    requires |weights| > 0 && Sum(weights) != 0.0
    ensures NonNegative(Weighted(q, weights))
  {
    hide Due, Sum;
  }

  /** With weights that are not negative nothing is lost, at most one unit per
      part before the last is added, and nothing is added when each of those
      parts is due a whole unit. */
  lemma {:induction false} WeightedOvershoot(q: real, weights: seq<real>)
    requires |weights| > 0 && NonNegative(weights) && Sum(weights) > 0.0 && q >= 0.0
    ensures q <= Sum(Weighted(q, weights)) <= q + (|weights| - 1) as real
    ensures (forall i :: 0 <= i < |weights| - 1 ==> Due(q, weights[i], Sum(weights)) >= 1.0)
            ==> Sum(Weighted(q, weights)) == q
    ensures NonNegative(Weighted(q, weights))
  {
    hide Due, Sum, Weighted, Shares;
    var n, total := |weights| - 1, Sum(weights);
    WeightedTotal(q, weights);
    WeightedNonNegative(q, weights);
    SharesBound(q, weights, n);
    assert weights == weights[..n] + [weights[n]];
    SumSnoc(weights[..n], weights[n]);
    SumNonNegative(weights[..n]);
    DueBetween(q, Sum(weights[..n]), total);
  }

  /** The bound is met: an order of nothing still sends a unit per part but the last. */
  lemma {:induction false} OvershootReached(weights: seq<real>)
    requires |weights| > 0 && NonNegative(weights) && Sum(weights) > 0.0
    ensures Sum(Weighted(0.0, weights)) == (|weights| - 1) as real
  {
    hide Due;
    WeightedOvershoot(0.0, weights);
    WeightedTotal(0.0, weights);
    SharesBound(0.0, weights, |weights| - 1);
  }

  /** A small order is inflated: one unit over three equal brokers becomes two. */
  lemma SmallOrderInflated()
    ensures Sum([1.0, 1.0, 1.0]) == 3.0 && Sum(Weighted(1.0, [1.0, 1.0, 1.0])) == 2.0
  {
    var w := [1.0, 1.0, 1.0];
    SumConstant(3, 1.0);
    assert w == seq(3, i => 1.0) && Sum(w) == 3.0;
    WeightedTotal(1.0, w);
    SumConstant(2, 1.0);
    assert Shares(1.0, w, 2) == seq(2, i => 1.0);
  }

  function Scaled(s: seq<real>, c: real): seq<real>
    requires c != 0.0
  {
    seq(|s|, i requires 0 <= i < |s| => s[i] / c)
  }

  lemma {:induction false} SumScaled(s: seq<real>, c: real)
    requires c != 0.0
    ensures Sum(Scaled(s, c)) == Sum(s) / c
  {
    if |s| > 0 {
      var n := |s| - 1;
      var front, last := s[..n], s[n] / c;
      SumScaled(front, c);
      SumSnoc(Scaled(front, c), last);
      SumSnoc(front, s[n]);
      hide Sum;
      assert Scaled(s, c) == Scaled(front, c) + [last] && s == front + [s[n]];
      QuotientAdds(Sum(front), s[n], c);
    }
  }

  lemma QuotientAdds(a: real, b: real, c: real)
    requires c != 0.0
    ensures (a + b) / c == a / c + b / c
  {
  }

  lemma RatioOfRatios(a: real, b: real, c: real)
    requires b != 0.0 && c != 0.0
    ensures b / c != 0.0
    ensures (a / c) / (b / c) == a / b
  {
    var x, y, z := a / c, b / c, a / b;
    assert x * c == a && y * c == b && z * b == a;
    Cancel(x, y, z, c);
  }

  lemma Cancel(x: real, y: real, z: real, c: real)
    requires c != 0.0 && y * c != 0.0 && z * (y * c) == x * c
    ensures y != 0.0 && x / y == z
  {
    assert (z * y) * c == x * c;
    assert (z * y - x) * c == 0.0;
    assert z * y == x;
  }

  lemma DueScaled(q: real, a: real, b: real, c: real)
    requires b != 0.0 && c != 0.0
    ensures b / c != 0.0 && Due(q, a / c, b / c) == Due(q, a, b)
  {
    RatioOfRatios(a, b, c);
  }

  lemma {:induction false} SharesScaled(q: real, weights: seq<real>, c: real, scaled: seq<real>, k: nat)
    requires Sum(weights) != 0.0 && c != 0.0 && scaled == Scaled(weights, c)
    requires Sum(scaled) == Sum(weights) / c && Sum(scaled) != 0.0 && k <= |weights|
    ensures Shares(q, scaled, k) == Shares(q, weights, k)
  {
    hide Due, Sum;
    forall i | 0 <= i < k
      ensures Shares(q, scaled, k)[i] == Shares(q, weights, k)[i]
    {
      DueScaled(q, weights[i], Sum(weights), c);
    }
  }

  /** Only the proportions of the weights matter, not their scale. */
  lemma {:induction false} ScaleIsIrrelevant(q: real, weights: seq<real>, c: real)
    requires |weights| > 0 && Sum(weights) != 0.0 && c != 0.0
    ensures Sum(Scaled(weights, c)) != 0.0
    ensures Weighted(q, Scaled(weights, c)) == Weighted(q, weights)
  {
    hide Due, Sum;
    var scaled := Scaled(weights, c);
    SumScaled(weights, c);
    DueScaled(q, 0.0, Sum(weights), c);
    SharesScaled(q, weights, c, scaled, |weights| - 1);
  }

  // ------------------------------------------------------------------- parts

  /** Copies of an order with the given quantities, numbered from one. */
  function Parts(order: Order, quantities: seq<real>, count: nat, firstId: nat): seq<Order> {
    seq(|quantities|, i requires 0 <= i < |quantities| =>
      Order(firstId + i, order.symbol, order.side, quantities[i], Some(Part(i + 1, count, order.id))))
  }

  function Split(order: Order, numParts: int, equal: bool, weights: Option<seq<real>>, firstId: nat): Outcome<seq<Order>> {
    if numParts <= 1 then Ok([order])
    else if equal then Ok(Parts(order, Equal(order.quantity, numParts), numParts, firstId))
    else if weights.None? || |weights.value| != numParts then Raised(WeightsRequired)
    else if Sum(weights.value) == 0.0 then Raised(DivisionByZero)
    else Ok(Parts(order, Weighted(order.quantity, weights.value), numParts, firstId))
  }

  lemma PartsSnoc(order: Order, quantities: seq<real>, x: real, count: nat, firstId: nat)
    ensures Parts(order, quantities + [x], count, firstId)
            == Parts(order, quantities, count, firstId)
               + [Order(firstId + |quantities|, order.symbol, order.side, x, Some(Part(|quantities| + 1, count, order.id)))]
  {
  }

  function Quantities(orders: seq<Order>): seq<real> {
    seq(|orders|, i requires 0 <= i < |orders| => orders[i].quantity)
  }

  lemma QuantitiesOfParts(order: Order, quantities: seq<real>, count: nat, firstId: nat)
    ensures Quantities(Parts(order, quantities, count, firstId)) == quantities
  {
  }

  /** When a split yields orders, they are of the original symbol and side and
      carry its quantity, exactly so unless a weighted split gives the parts
      before the last more than the whole. */
  lemma SplitConservesIff(order: Order, numParts: int, equal: bool, weights: Option<seq<real>>, firstId: nat)
    requires Split(order, numParts, equal, weights, firstId).Ok?
    ensures var parts := Split(order, numParts, equal, weights, firstId).value;
            && |parts| == (if numParts <= 1 then 1 else numParts)
            && (forall i :: 0 <= i < |parts| ==> parts[i].symbol == order.symbol && parts[i].side == order.side)
            && (forall i, j :: 0 <= i < j < |parts| ==> parts[i].id != parts[j].id)
            && (Sum(Quantities(parts)) == order.quantity <==>
                numParts <= 1 || equal
                || Sum(Shares(order.quantity, weights.value, numParts - 1)) <= order.quantity)
  {
    var q := order.quantity;
    if numParts <= 1 {
      SumSnoc([], q);
      assert Quantities([order]) == [] + [q];
    } else if equal {
      QuantitiesOfParts(order, Equal(q, numParts), numParts, firstId);
      EqualConserves(q, numParts);
    } else {
      QuantitiesOfParts(order, Weighted(q, weights.value), numParts, firstId);
      WeightedTotal(q, weights.value);
    }
  }

  /** The parts carry the symbol and side of the order and its id, and are
      numbered from one. */
  lemma PartsAre(order: Order, quantities: seq<real>, count: nat, firstId: nat)
    ensures var ps := Parts(order, quantities, count, firstId);
            && |ps| == |quantities| && Quantities(ps) == quantities
            && forall i :: 0 <= i < |ps| ==>
                 && ps[i].symbol == order.symbol && ps[i].side == order.side
                 && ps[i].id == firstId + i && ps[i].part == Some(Part(i + 1, count, order.id))
  {
  }

  /** A split fails exactly without a weight for each part or with weights that
      add up to zero; a split into one part is the order itself. */
  lemma SplitFailsIff(order: Order, numParts: int, equal: bool, weights: Option<seq<real>>, firstId: nat)
    ensures var r, bad := Split(order, numParts, equal, weights, firstId), weights.None? || |weights.value| != numParts;
            && (numParts <= 1 ==> r == Ok([order]))
            && (r.Raised? <==> numParts > 1 && !equal && (bad || Sum(weights.value) == 0.0))
            && (r.Raised? ==> (r.error == WeightsRequired <==> bad))
  {
    hide Sum, Parts, Weighted, Equal;
  }

  /** The parts of an equal split are equal. */
  lemma EqualSplitIs(order: Order, numParts: nat, weights: Option<seq<real>>, firstId: nat) returns (quantities: seq<real>)
    requires numParts > 1
    ensures Split(order, numParts, true, weights, firstId) == Ok(Parts(order, quantities, numParts, firstId))
    ensures |quantities| == numParts && forall i :: 0 <= i < numParts ==> numParts as real * quantities[i] == order.quantity
  {
    EqualParts(order.quantity, numParts);
    hide Parts, Equal;
    quantities := Equal(order.quantity, numParts);
  }

  /** The parts of a weighted split are in proportion to the weights and at least
      one, and the last takes what remains, if anything does. */
  lemma WeightedSplitIs(order: Order, w: seq<real>, firstId: nat) returns (front: seq<real>, last: real)
    requires |w| > 1 && Sum(w) != 0.0
    ensures Split(order, |w|, false, Some(w), firstId) == Ok(Parts(order, front + [last], |w|, firstId))
    ensures |front| == |w| - 1
    ensures forall i :: 0 <= i < |front| ==> InProportion(front[i], order.quantity, w[i], Sum(w))
    ensures last == if Sum(front) <= order.quantity then order.quantity - Sum(front) else 0.0
  {
    front := Shares(order.quantity, w, |w| - 1);
    SharesInProportion(order.quantity, w, |w| - 1);
    hide Sum, Parts, Shares, InProportion;
    last := if Sum(front) <= order.quantity then order.quantity - Sum(front) else 0.0;
  }

  lemma {:induction false} SharesInProportion(q: real, w: seq<real>, k: nat)
    requires k <= |w| && Sum(w) != 0.0
    ensures |Shares(q, w, k)| == k
    ensures forall i :: 0 <= i < k ==> InProportion(Shares(q, w, k)[i], q, w[i], Sum(w))
  {
    hide Sum, Share, InProportion;
    forall i | 0 <= i < k
      ensures InProportion(Shares(q, w, k)[i], q, w[i], Sum(w))
    {
      ShareIs(q, w[i], Sum(w));
    }
  }

  /** Splits an order. Ids come from a counter that stands at `firstId`. */
  method SplitOrder(order: Order, numParts: int, equal: bool, weights: Option<seq<real>>, firstId: nat)
    returns (r: Outcome<seq<Order>>)
    ensures r == Split(order, numParts, equal, weights, firstId)
  {
    hide Parts, Weighted, Equal, Sum;
    if numParts <= 1 {
      return Ok([order]);
    }
    if equal {
      var parts := SplitEqually(order, numParts, firstId);
      return Ok(parts);
    }
    if weights.None? || |weights.value| != numParts {
      return Raised(WeightsRequired);
    }
    var total := Total(weights.value);
    if total == 0.0 {
      return Raised(DivisionByZero);
    }
    var parts := SplitByWeight(order, weights.value, total, firstId);
    r := Ok(parts);
  }

  method SplitEqually(order: Order, numParts: nat, firstId: nat) returns (parts: seq<Order>)
    requires numParts > 0
    ensures parts == Parts(order, Equal(order.quantity, numParts), numParts, firstId)
  {
    hide Parts;
    var partQuantity := order.quantity / numParts as real;
    ghost var all := Equal(order.quantity, numParts);
    parts := [];
    NoParts(order, numParts, firstId);
    for i := 0 to numParts
      invariant parts == Parts(order, all[..i], numParts, firstId)
    {
      PartsSnoc(order, all[..i], partQuantity, numParts, firstId);
      parts := parts + [Order(firstId + i, order.symbol, order.side, partQuantity, Some(Part(i + 1, numParts, order.id)))];
      assert all[..i + 1] == all[..i] + [partQuantity];
    }
    assert all[..numParts] == all;
  }

  /** The loop with its running remainder, which the last part receives. */
  method SplitByWeight(order: Order, w: seq<real>, total: real, firstId: nat) returns (parts: seq<Order>)
    requires |w| > 0 && total == Sum(w) != 0.0
    ensures parts == Parts(order, Weighted(order.quantity, w), |w|, firstId)
  {
    hide Due, Sum, Share, Parts;
    var n, remaining := |w|, order.quantity;
    parts := [];
    SumEmpty();
    NoParts(order, n, firstId);
    assert Shares(order.quantity, w, 0) == [];
    for i := 0 to n - 1
      invariant parts == Parts(order, Shares(order.quantity, w, i), n, firstId)
      invariant remaining == order.quantity - Sum(Shares(order.quantity, w, i))
    {
      var quantity := Share(order.quantity, w[i], total);
      parts := parts + [Order(firstId + i, order.symbol, order.side, quantity, Some(Part(i + 1, n, order.id)))];
      remaining := remaining - quantity;
      ghost var front := Shares(order.quantity, w, i);
      assert Shares(order.quantity, w, i + 1) == front + [quantity];
      SumSnoc(front, quantity);
      PartsSnoc(order, front, quantity, n, firstId);
    }
    PartsSnoc(order, Shares(order.quantity, w, n - 1), Max(remaining, 0.0), n, firstId);
    parts := parts + [Order(firstId + n - 1, order.symbol, order.side, Max(remaining, 0.0), Some(Part(n, n, order.id)))];
  }

  lemma NoParts(order: Order, count: nat, firstId: nat)
    ensures Parts(order, [], count, firstId) == []
  {
  }

  method Total(s: seq<real>) returns (t: real)
    ensures t == Sum(s)
  {
    t := 0.0;
    for i := 0 to |s|
      invariant t == Sum(s[..i])
    {
      t := t + s[i];
      assert s[..i + 1] == s[..i] + [s[i]];
      SumSnoc(s[..i], s[i]);
    }
    assert s[..|s|] == s;
  }

  // --------------------------------------------------------- the split routes

  /** The route that splits by configuration over the available brokers. */
  function SplitRoute(config: Config, order: Order, available: seq<string>, firstId: nat): Outcome<Routing>
    requires |available| > 0
  {
    if |available| == 1 || order.quantity < config.minSplitQuantity then Ok(Routing([order], [available[0]]))
    else
      var n := if config.maxSplitParts < |available| then config.maxSplitParts else |available|;
      match Split(order, n, config.splitEqual, None, firstId)
      case Ok(parts) => Ok(Routing(parts, available))
      case Raised(e) => Raised(e)
  }

  /** The route that weights brokers by the orders they have filled. */
  function VolumeRoute(config: Config, order: Order, available: seq<string>, filled: seq<nat>, firstId: nat): Outcome<Routing>
    requires |available| > 0 && |filled| == |available|
  {
    var f := Reals(filled);
    if Sum(f) == 0.0 then SplitRoute(config, order, available, firstId)
    else
      match Split(order, |available|, false, Some(Scaled(f, Sum(f))), firstId)
      case Ok(parts) => Ok(Routing(parts, available))
      case Raised(e) => Raised(e)
  }

  function Reals(s: seq<nat>): seq<real> {
    seq(|s|, i requires 0 <= i < |s| => s[i] as real)
  }

  /** The split route never has weights: it conserves the quantity whenever it
      yields orders, and it fails on every order it would divide by proportion. */
  lemma SplitRouteIs(config: Config, order: Order, available: seq<string>, firstId: nat)
    requires |available| > 0
    ensures var r := SplitRoute(config, order, available, firstId);
            && (r.Raised? <==> !config.splitEqual && |available| > 1 && config.maxSplitParts > 1
                               && order.quantity >= config.minSplitQuantity)
            && (r.Ok? ==> Sum(Quantities(r.value.orders)) == order.quantity)
            && (r.Ok? ==> (|r.value.orders| == |r.value.brokers| <==>
                           |available| == 1 || order.quantity < config.minSplitQuantity
                           || config.maxSplitParts >= |available|))
  {
    hide Sum, Shares, Weighted, Equal, Parts;
    var n := if config.maxSplitParts < |available| then config.maxSplitParts else |available|;
    if |available| == 1 || order.quantity < config.minSplitQuantity {
      SumEmpty();
      SumSnoc([], order.quantity);
      assert Quantities([order]) == [] + [order.quantity];
    } else if Split(order, n, config.splitEqual, None, firstId).Ok? {
      SplitConservesIff(order, n, config.splitEqual, None, firstId);
    }
  }

  /** With any history the volume route never fails, names one broker per order,
      and each broker but the last receives its proportion of the fills, at
      least one; no more than one unit each is added in all. */
  lemma VolumeRouteIs(config: Config, order: Order, available: seq<string>, filled: seq<nat>, firstId: nat)
    requires |available| > 0 && |filled| == |available|
    requires exists i :: 0 <= i < |filled| && filled[i] > 0
    requires order.quantity >= 0.0
    ensures var r := VolumeRoute(config, order, available, filled, firstId);
            var f := Reals(filled);
            && Sum(f) > 0.0 && r.Ok? && r.value.brokers == available
            && |r.value.orders| == |available|
            && order.quantity <= Sum(Quantities(r.value.orders)) <= order.quantity + (|available| - 1) as real
            && (forall i :: 0 <= i < |available| - 1 ==>
                  r.value.orders[i].quantity == Max(Due(order.quantity, filled[i] as real, Sum(f)), 1.0))
  {
    hide Scaled, Sum;
    var f, q := Reals(filled), order.quantity;
    var i :| 0 <= i < |filled| && filled[i] > 0;
    SumNonNegative(f);
    assert f[i] > 0.0;
    var w := Scaled(f, Sum(f));
    ScaleIsIrrelevant(q, f, Sum(f));
    WeightedOvershoot(q, f);
    ScaledLength(f, Sum(f));
    if |available| > 1 {
      var quantities := Weighted(q, w);
      QuantitiesOfParts(order, quantities, |available|, firstId);
      assert VolumeRoute(config, order, available, filled, firstId)
             == Ok(Routing(Parts(order, quantities, |available|, firstId), available));
    } else {
      SumSnoc([], q);
      SumEmpty();
      assert Quantities([order]) == [] + [q];
    }
  }

  lemma ScaledLength(s: seq<real>, c: real)
    requires c != 0.0
    ensures |Scaled(s, c)| == |s|
  {
  }

  lemma SumEmpty()
    ensures Sum([]) == 0.0
  {
  }

  // -------------------------------------------------------------- round robin

  function Turn(index: int, n: nat): nat
    requires n > 0
  {
    index % n
  }

  /** The brokers that k calls pick from n available ones, as positions. */
  function Picks(index: int, n: nat, k: nat): seq<nat>
    requires n > 0
    decreases k
  {
    if k == 0 then [] else [Turn(index, n)] + Picks(Turn(Turn(index, n) + 1, n), n, k - 1)
  }

  lemma {:induction false} PicksAre(index: int, n: nat, k: nat)
    requires n > 0
    ensures |Picks(index, n, k)| == k
    ensures forall j :: 0 <= j < k ==> Picks(index, n, k)[j] == Turn(index + j, n)
    decreases k
  {
    hide Turn;
    if k > 0 {
      var next := Turn(Turn(index, n) + 1, n);
      PicksAre(next, n, k - 1);
      forall j | 1 <= j < k
        ensures Picks(index, n, k)[j] == Turn(index + j, n)
      {
        assert Picks(index, n, k)[j] == Picks(next, n, k - 1)[j - 1];
        NextCongruent(index, n, j);
      }
      assert Picks(index, n, k)[0] == Turn(index, n);
    }
  }

  lemma NextCongruent(index: int, n: nat, j: int)
    requires n > 0
    ensures Turn(Turn(Turn(index, n) + 1, n) + (j - 1), n) == Turn(index + j, n)
  {
    var a, b := index % n, (index % n + 1) % n;
    Divided(index, n);
    Divided(a + 1, n);
    Plus(b + (j - 1), n, (a + 1) / n);
    Plus(b + (j - 1) + n * ((a + 1) / n), n, index / n);
  }

  lemma Divided(x: int, n: nat)
    requires n > 0
    ensures x == n * (x / n) + x % n && 0 <= x % n < n
  {
  }

  lemma QuotientUnique(n: nat, a: int, r: int, b: int, s: int)
    requires 0 <= r < n && 0 <= s < n && n * a + r == n * b + s
    ensures a == b && r == s
  {
    NotBelow(n, a, r, b, s);
    NotBelow(n, b, s, a, r);
  }

  lemma NotBelow(n: nat, a: int, r: int, b: int, s: int)
    requires 0 <= r < n && 0 <= s < n && n * a + r == n * b + s
    ensures a >= b
  {
    var e := b - a;
    assert n * e == n * b - n * a;
    if e > 0 {
      AtLeast(n, e);
    }
  }

  lemma AtLeast(n: nat, e: nat)
    requires e > 0
    ensures n * e >= n
  {
  }

  /** The quotient and remainder of a number, given its decomposition. */
  lemma DividesAs(x: int, n: nat, k: int, r: int)
    requires 0 <= r < n && x == n * k + r
    ensures x / n == k && x % n == r
  {
    Divided(x, n);
    QuotientUnique(n, x / n, x % n, k, r);
  }

  lemma Plus(x: int, n: nat, d: int)
    requires n > 0
    ensures (x + n * d) % n == x % n && (x + n * d) / n == x / n + d
  {
    Divided(x, n);
    assert x + n * d == n * (x / n + d) + x % n;
    DividesAs(x + n * d, n, x / n + d, x % n);
  }

  function Count(s: seq<nat>, b: nat): nat {
    if |s| == 0 then 0 else Count(s[..|s| - 1], b) + if s[|s| - 1] == b then 1 else 0
  }

  /** How many calls pass before broker b is picked. */
  function Wait(index: int, n: nat, b: nat): (d: nat)
    requires n > 0
    ensures d < n
  {
    (b - index) % n
  }

  lemma {:induction false} CountIs(index: int, n: nat, k: nat, b: nat)
    requires b < n
    ensures Count(Picks(index, n, k), b) == (k + n - 1 - Wait(index, n, b)) / n
  {
    var d := Wait(index, n, b);
    if k == 0 {
      DividesAs(n - 1 - d, n, 0, n - 1 - d);
    } else {
      CountIs(index, n, k - 1, b);
      PicksAre(index, n, k);
      PicksAre(index, n, k - 1);
      var s := Picks(index, n, k);
      assert s[..k - 1] == Picks(index, n, k - 1);
      TurnIff(index, n, k - 1, b);
      QuotientStep(k + n - 2 - d, n);
      Plus(k - 1 - d, n, 1);
    }
  }

  /** Broker b takes the turn exactly when its wait is over. */
  lemma TurnIff(index: int, n: nat, j: int, b: nat)
    requires b < n
    ensures Turn(index + j, n) == b <==> (j - Wait(index, n, b)) % n == 0
  {
    var d, m := Wait(index, n, b), (b - index) / n;
    Divided(b - index, n);
    assert index + j == j - d + b + n * -m;
    Plus(j - d + b, n, -m);
    RemainderIff(j - d, n, b);
  }

  lemma RemainderIff(y: int, n: nat, b: nat)
    requires b < n
    ensures (y + b) % n == b <==> y % n == 0
  {
    var k, l := y / n, (y + b) / n;
    Divided(y, n);
    Divided(y + b, n);
    if y % n == 0 {
      DividesAs(y + b, n, k, b);
    }
    if (y + b) % n == b {
      DividesAs(y, n, l, 0);
    }
  }

  lemma QuotientStep(m: nat, n: nat)
    requires n > 0
    ensures (m + 1) / n == m / n + if (m + 1) % n == 0 then 1 else 0
  {
    Divided(m, n);
    if m % n == n - 1 {
      DividesAs(m + 1, n, m / n + 1, 0);
    } else {
      DividesAs(m + 1, n, m / n, m % n + 1);
    }
  }

  /** Taking turns is fair: over any number of calls no broker is picked twice
      more often than another, and over full rounds all equally often. */
  lemma {:induction false} RoundRobinFair(index: int, n: nat, k: nat, b: nat, c: nat)
    requires b < n && c < n
    ensures Count(Picks(index, n, k), b) <= Count(Picks(index, n, k), c) + 1
    ensures k % n == 0 ==> Count(Picks(index, n, k), b) == k / n
  {
    CountIs(index, n, k, b);
    CountIs(index, n, k, c);
    CeilingBetween(k, n, Wait(index, n, b));
    CeilingBetween(k, n, Wait(index, n, c));
  }

  lemma CeilingBetween(k: nat, n: nat, d: nat)
    requires d < n
    ensures k / n <= (k + n - 1 - d) / n <= k / n + 1
    ensures k % n == 0 ==> (k + n - 1 - d) / n == k / n
  {
    Divided(k, n);
    var r := k % n + n - 1 - d;
    if r < n {
      DividesAs(k + n - 1 - d, n, k / n, r);
    } else {
      DividesAs(k + n - 1 - d, n, k / n + 1, r - n);
    }
  }

  // ---------------------------------------------------------- the mutable form

  class Router {
    const config: Config
    var roundRobinIndex: int

    constructor (config: Config, roundRobinIndex: int)
      ensures this.config == config && this.roundRobinIndex == roundRobinIndex
    {
      this.config, this.roundRobinIndex := config, roundRobinIndex;
    }

    /** Picks the next broker; from the new index the picks go on where the old
        ones would have. */
    method RouteRoundRobin(order: Order, available: seq<string>) returns (r: Routing)
      requires |available| > 0
      modifies this
      ensures r == Routing([order], [available[Turn(old(roundRobinIndex), |available|)]])
      ensures 0 <= roundRobinIndex < |available|
      ensures forall k :: k >= 0 ==> Picks(old(roundRobinIndex), |available|, k + 1)
                                     == [Turn(old(roundRobinIndex), |available|)] + Picks(roundRobinIndex, |available|, k)
    {
      var index := roundRobinIndex % |available|;
      roundRobinIndex := (index + 1) % |available|;
      r := Routing([order], [available[index]]);
    }

    method RouteSplit(order: Order, available: seq<string>, firstId: nat) returns (r: Outcome<Routing>)
      requires |available| > 0
      ensures r == SplitRoute(config, order, available, firstId)
    {
      var n := |available|;
      if n == 1 || order.quantity < config.minSplitQuantity {
        return Ok(Routing([order], [available[0]]));
      }
      var parts := SplitOrder(order, if config.maxSplitParts < n then config.maxSplitParts else n,
                              config.splitEqual, None, firstId);
      r := match parts case Ok(ps) => Ok(Routing(ps, available)) case Raised(e) => Raised(e);
    }

    /** `filled` holds the filled-order count of each available broker. */
    method RouteVolumeWeighted(order: Order, available: seq<string>, filled: seq<nat>, firstId: nat)
      returns (r: Outcome<Routing>)
      requires |available| > 0 && |filled| == |available|
      ensures r == VolumeRoute(config, order, available, filled, firstId)
    {
      var total := Total(Reals(filled));
      if total == 0.0 {
        r := RouteSplit(order, available, firstId);
        return;
      }
      var parts := SplitOrder(order, |available|, false, Some(Scaled(Reals(filled), total)), firstId);
      r := match parts case Ok(ps) => Ok(Routing(ps, available)) case Raised(e) => Raised(e);
    }
  }
}
