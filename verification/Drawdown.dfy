/** The deepest fall of an equity curve below its running peak. */
module Drawdown {
  import opened Optional

  /** The highest value up to and including position j. */
  function Peak(e: seq<real>, j: nat): real
    requires j < |e|
  {
    if j == 0 then e[0]
    else
      var p := Peak(e, j - 1);
      if e[j] > p then e[j] else p
  }

  /** No running peak is zero, so every relative fall is defined. */
  predicate Defined(e: seq<real>) {
    forall j :: 0 <= j < |e| ==> Peak(e, j) != 0.0
  }

  function Relative(peak: real, value: real): real
    requires peak != 0.0
  {
    (peak - value) / peak
  }

  /** How far the value at j lies below the peak so far, relative to it. */
  function Fall(e: seq<real>, j: nat): real
    requires j < |e| && Defined(e)
  {
    Relative(Peak(e, j), e[j])
  }

  /** i is the first position to hold the peak at j. */
  predicate PeaksAt(e: seq<real>, i: nat, j: nat)
    requires j < |e|
  {
    && i <= j
    && (forall k :: 0 <= k < i ==> e[k] < e[i])
    && (forall k :: i <= k <= j ==> e[k] <= e[i])
  }

  /** j is the first position of the deepest fall. */
  predicate Deepest(e: seq<real>, j: nat)
    requires j < |e| && Defined(e)
  {
    && (forall k :: 0 <= k < |e| ==> Fall(e, k) <= Fall(e, j))
    && (forall k :: 0 <= k < j ==> Fall(e, k) < Fall(e, j))
  }

  /** What a report of a fall, in per cent, and of its length says of a curve. */
  predicate Describes(e: seq<real>, percent: real, duration: nat)
    requires Defined(e)
  {
    if forall k :: 0 <= k < |e| ==> Fall(e, k) <= 0.0 then percent == 0.0 && duration == 0
    else exists j, i :: 0 <= j < |e| && 0 <= i <= j && PeaksAt(e, i, j) && Deepest(e, j)
                        && percent == Fall(e, j) * 100.0 && duration == j - i
  }

  lemma {:induction false} PeakIs(e: seq<real>, i: nat, j: nat)
    requires j < |e|
    ensures PeaksAt(e, i, j) ==> Peak(e, j) == e[i]
    ensures forall k :: 0 <= k <= j ==> e[k] <= Peak(e, j)
    ensures exists k :: 0 <= k <= j && PeaksAt(e, k, j) && e[k] == Peak(e, j)
    decreases j
  {
    if j == 0 {
      assert PeaksAt(e, 0, 0);
    } else {
      PeakIs(e, if i < j then i else 0, j - 1);
      var k :| 0 <= k < j && PeaksAt(e, k, j - 1) && e[k] == Peak(e, j - 1);
      if e[j] > Peak(e, j - 1) {
        assert PeaksAt(e, j, j);
      } else {
        assert PeaksAt(e, k, j);
      }
    }
  }

  /** A curve that starts above zero has positive peaks throughout. */
  lemma {:induction false} PositiveStart(e: seq<real>, j: nat)
    requires j < |e| && e[0] > 0.0
    ensures Peak(e, j) > 0.0
  {
    PeakIs(e, 0, j);
  }

  lemma FirstPeakUnique(e: seq<real>, i: nat, k: nat, j: nat)
    requires j < |e| && PeaksAt(e, i, j) && PeaksAt(e, k, j)
    ensures i == k
  {
    assert e[i] <= e[k] && e[k] <= e[i];
  }

  /** The report is determined by the curve. */
  lemma DescribesUnique(e: seq<real>, p: real, m: nat, q: real, n: nat)
    requires Defined(e) && Describes(e, p, m) && Describes(e, q, n)
    ensures p == q && m == n
  {
    hide Fall;
    if !(forall k :: 0 <= k < |e| ==> Fall(e, k) <= 0.0) {
      var i, j :| 0 <= i <= j < |e| && PeaksAt(e, i, j) && Deepest(e, j) && p == Fall(e, j) * 100.0 && m == j - i;
      var k, l :| 0 <= k <= l < |e| && PeaksAt(e, k, l) && Deepest(e, l) && q == Fall(e, l) * 100.0 && n == l - k;
      assert Fall(e, j) <= Fall(e, l) && Fall(e, l) <= Fall(e, j);
      assert j == l;
      FirstPeakUnique(e, i, k, j);
    }
  }

  lemma Quotient(x: real, y: real, z: real)
    requires y != 0.0 && x == z * y
    ensures x / y == z
  {
  }

  /** A value below zero comes after no smaller positive value than the peak. */
  predicate FallsFromPeak(e: seq<real>, j: nat)
    requires j < |e|
  {
    e[j] >= 0.0 || forall i :: 0 <= i <= j && e[i] > 0.0 ==> e[i] == Peak(e, j)
  }

  /** Position by position, and for curves of any sign that start above zero: the
      fall from the running peak is the largest fall from any earlier positive
      value exactly when the value is not below zero, or no smaller positive
      value than the peak came before it. */
  lemma {:induction false} FallIsPairMaximumIff(e: seq<real>, j: nat)
    requires j < |e| && e[0] > 0.0 && Defined(e)
    ensures (forall i :: 0 <= i <= j && e[i] > 0.0 ==> Relative(e[i], e[j]) <= Fall(e, j))
            <==> FallsFromPeak(e, j)
  {
    hide Relative;
    var p := Peak(e, j);
    PeakIs(e, 0, j);
    forall i | 0 <= i <= j && e[i] > 0.0
      ensures Relative(e[i], e[j]) <= Fall(e, j) <==> e[j] >= 0.0 || e[i] == p
    {
      RelativeOrder(p, e[i], e[j]);
    }
  }

  /** The smaller of two positive peaks shows the smaller fall, unless the value
      is below zero. */
  lemma RelativeOrder(p: real, x: real, v: real)
    requires p >= x > 0.0
    ensures Relative(x, v) <= Relative(p, v) <==> v >= 0.0 || x == p
  {
    var a, b := v / p, v / x;
    assert a * p == v && b * x == v;
    Quotient(p - v, p, 1.0 - a);
    Quotient(x - v, x, 1.0 - b);
    QuotientOrder(p, x, a, b);
    assert v >= 0.0 <==> a >= 0.0;
  }

  lemma QuotientOrder(p: real, x: real, a: real, b: real)
    requires p >= x > 0.0 && a * p == b * x
    ensures b >= a <==> a >= 0.0 || x == p
  {
    assert (b - a) * x == a * (p - x);
    if x < p {
      SameSign(b - a, x, a, p - x);
    }
  }

  lemma SameSign(u: real, x: real, w: real, y: real)
    requires x > 0.0 && y > 0.0 && u * x == w * y
    ensures u >= 0.0 <==> w >= 0.0
  {
  }

  /** One pass finds what all pairs would: over a curve that starts above zero and
      goes below it only from its peak, if at all, the report is the largest
      relative loss from any earlier positive value to any later one, and its
      length is that of such a pair. */
  lemma PairMaximum(e: seq<real>, percent: real, duration: nat)
    requires |e| > 0 && e[0] > 0.0 && forall j :: 0 <= j < |e| ==> FallsFromPeak(e, j)
    ensures Defined(e)
    ensures Describes(e, percent, duration) ==>
              && (forall i, j :: 0 <= i <= j < |e| && e[i] > 0.0 ==> Relative(e[i], e[j]) * 100.0 <= percent)
              && (exists i, j :: 0 <= i <= j < |e| && e[i] > 0.0 && j - i == duration
                                 && Relative(e[i], e[j]) * 100.0 == percent)
  {
    hide Relative;
    forall j | 0 <= j < |e| ensures Peak(e, j) > 0.0 {
      PositiveStart(e, j);
    }
    if Describes(e, percent, duration) {
      Attained(e, percent, duration);
      forall i, j | 0 <= i <= j < |e| && e[i] > 0.0
        ensures Relative(e[i], e[j]) * 100.0 <= percent
      {
        FallIsPairMaximumIff(e, j);
        assert Relative(e[i], e[j]) <= Fall(e, j);
        assert Fall(e, j) * 100.0 <= percent;
      }
    }
  }

  /** Curves that start above zero: the report is the maximum of the falls, and
      the values of a pair show it. */
  lemma Attained(e: seq<real>, percent: real, duration: nat)
    requires |e| > 0 && e[0] > 0.0 && Defined(e) && Describes(e, percent, duration)
    ensures forall k :: 0 <= k < |e| ==> Fall(e, k) * 100.0 <= percent
    ensures exists k :: 0 <= k < |e| && Fall(e, k) * 100.0 == percent
    ensures exists i, j :: 0 <= i <= j < |e| && e[i] > 0.0 && j - i == duration
                           && Relative(e[i], e[j]) * 100.0 == percent
  {
    assert Relative(e[0], e[0]) == 0.0;
    hide Relative;
    assert Peak(e, 0) == e[0];
    assert Fall(e, 0) == 0.0;
    if forall k :: 0 <= k < |e| ==> Fall(e, k) <= 0.0 {
      assert 0 - 0 == duration && Relative(e[0], e[0]) * 100.0 == percent;
    } else {
      var i, j :| 0 <= i <= j < |e| && PeaksAt(e, i, j) && Deepest(e, j)
                  && percent == Fall(e, j) * 100.0 && duration == j - i;
      PeakIs(e, i, j);
      PositiveStart(e, j);
      assert Relative(e[i], e[j]) * 100.0 == percent;
    }
  }

  /** Below zero the pairs can show a deeper fall than the one pass reports. */
  lemma BelowZeroUnderstated()
    ensures var e := [1.0, 2.0, -1.0];
            && Defined(e) && Describes(e, 150.0, 1)
            && Relative(e[0], e[2]) * 100.0 == 200.0
  {
    var e := [1.0, 2.0, -1.0];
    assert Peak(e, 0) == 1.0 && Peak(e, 1) == 2.0 && Peak(e, 2) == 2.0;
    assert Fall(e, 0) == 0.0 && Fall(e, 1) == 0.0 && Fall(e, 2) == 1.5;
    assert PeaksAt(e, 1, 2) && Deepest(e, 2);
  }

  function Scaled(e: seq<real>, c: real): seq<real> {
    seq(|e|, i requires 0 <= i < |e| => c * e[i])
  }

  lemma {:induction false} PeakScaled(e: seq<real>, c: real, j: nat)
    requires j < |e| && c > 0.0
    ensures Peak(Scaled(e, c), j) == c * Peak(e, j)
  {
    if j > 0 {
      PeakScaled(e, c, j - 1);
      var x, p, y, r := e[j], Peak(e, j - 1), Scaled(e, c)[j], Peak(Scaled(e, c), j - 1);
      ScaleOrder(c, x, p, y, r);
      assert Peak(Scaled(e, c), j) == if y > r then y else r;
    }
  }

  lemma ScaleOrder(c: real, x: real, p: real, y: real, r: real)
    requires c > 0.0 && y == c * x && r == c * p
    ensures x > p <==> y > r
  {
    assert y - r == c * (x - p);
  }

  lemma RelativeScaled(p: real, v: real, c: real, q: real, w: real)
    requires p != 0.0 && c > 0.0 && q == c * p && w == c * v
    ensures q != 0.0 && Relative(q, w) == Relative(p, v)
  {
    var a := Relative(p, v);
    assert a * p == p - v;
    assert a * q == c * (a * p) == c * (p - v) == q - w;
    Quotient(q - w, q, a);
  }

  /** The unit of account does not matter: scaling a curve keeps every fall. */
  lemma FallScaled(e: seq<real>, c: real)
    requires c > 0.0 && Defined(e)
    ensures Defined(Scaled(e, c))
    ensures forall j :: 0 <= j < |e| ==> Fall(Scaled(e, c), j) == Fall(e, j)
  {
    hide Relative, Peak;
    forall j | 0 <= j < |e|
      ensures Peak(Scaled(e, c), j) != 0.0
      ensures Relative(Peak(Scaled(e, c), j), Scaled(e, c)[j]) == Relative(Peak(e, j), e[j])
    {
      PeakScaled(e, c, j);
      RelativeScaled(Peak(e, j), e[j], c, Peak(Scaled(e, c), j), Scaled(e, c)[j]);
    }
  }

  // ------------------------------------------------------------- the one pass

  /** Nothing when a running peak of zero makes the division fail. */
  method CalculateMaxDrawdown(curve: seq<real>) returns (r: Option<(real, nat)>)
    ensures |curve| < 2 ==> r == Some((0.0, 0))
    ensures |curve| >= 2 ==> (r.Some? <==> Defined(curve))
    ensures |curve| >= 2 && r.Some? ==> Describes(curve, r.value.0, r.value.1)
  {
    if |curve| < 2 {
      return Some((0.0, 0));
    }
    var peak, peakIndex := curve[0], 0;
    var deepest, start, end := 0.0, 0, 0;
    for i := 0 to |curve|
      invariant 0 <= peakIndex < |curve| && peak == curve[peakIndex]
      invariant i == 0 ==> peakIndex == 0
      invariant i > 0 ==> peak == Peak(curve, i - 1) && PeaksAt(curve, peakIndex, i - 1)
      invariant DefinedTo(curve, i)
      invariant DeepestTo(curve, i, deepest, start, end)
    {
      hide Relative, DeepestTo, DefinedTo, PeaksAt;
      var value := curve[i];
      ghost var before := peakIndex;
      if value > peak {
        peak, peakIndex := value, i;
      }
      PeakStep(curve, i, before, peakIndex);
      if peak == 0.0 {
        assert Peak(curve, i) == 0.0;
        return None;
      }
      DefinedStep(curve, i);
      var drawdown := Relative(peak, value);
      DeepestStep(curve, i, deepest, start, end, peakIndex);
      if drawdown > deepest {
        deepest, start, end := drawdown, peakIndex, i;
      }
    }
    DescribesFrom(curve, deepest, start, end);
    r := Some((deepest * 100.0, end - start));
  }

  predicate DefinedTo(e: seq<real>, n: nat)
    requires n <= |e|
  {
    forall k :: 0 <= k < n ==> Peak(e, k) != 0.0
  }

  /** The deepest fall of the first n positions, or nothing so far. */
  predicate DeepestTo(e: seq<real>, n: nat, deepest: real, start: nat, end: nat)
    requires n <= |e| && DefinedTo(e, n)
  {
    && (forall k :: 0 <= k < n ==> Relative(Peak(e, k), e[k]) <= deepest)
    && deepest >= 0.0
    && (if deepest == 0.0 then start == end == 0
        else && start <= end < n && PeaksAt(e, start, end)
             && deepest == Relative(Peak(e, end), e[end])
             && forall k :: 0 <= k < end ==> Relative(Peak(e, k), e[k]) < deepest)
  }

  lemma PeakStep(e: seq<real>, i: nat, before: nat, after: nat)
    requires i < |e|
    requires i == 0 ==> before == 0
    requires i > 0 ==> before < i && PeaksAt(e, before, i - 1) && e[before] == Peak(e, i - 1)
    requires after == if e[i] > e[before] then i else before
    ensures Peak(e, i) == e[after] && PeaksAt(e, after, i)
  {
  }

  lemma DefinedStep(e: seq<real>, i: nat)
    requires i < |e| && DefinedTo(e, i) && Peak(e, i) != 0.0
    ensures DefinedTo(e, i + 1)
  {
  }

  lemma DeepestStep(e: seq<real>, i: nat, deepest: real, start: nat, end: nat, peakIndex: nat)
    requires i < |e| && DefinedTo(e, i + 1) && DefinedTo(e, i) && DeepestTo(e, i, deepest, start, end)
    requires PeaksAt(e, peakIndex, i)
    ensures var d := Relative(Peak(e, i), e[i]);
            if d > deepest then DeepestTo(e, i + 1, d, peakIndex, i) else DeepestTo(e, i + 1, deepest, start, end)
  {
    hide Relative, Peak;
  }

  lemma DescribesFrom(e: seq<real>, deepest: real, start: nat, end: nat)
    requires Defined(e) && DefinedTo(e, |e|) && DeepestTo(e, |e|, deepest, start, end)
    ensures start <= end && Describes(e, deepest * 100.0, end - start)
  {
    hide Relative, PeaksAt, Peak;
    if deepest > 0.0 {
      assert Fall(e, end) > 0.0;
      assert Deepest(e, end);
    }
  }

  method GetDrawdownSeries(equity: seq<real>) returns (r: Option<seq<real>>)
    ensures r.Some? <==> Defined(equity)
    ensures r.Some? ==> |r.value| == |equity|
    ensures r.Some? ==> forall j :: 0 <= j < |equity| ==> r.value[j] == Fall(equity, j) * 100.0
  {
    if |equity| == 0 {
      return Some([]);
    }
    var peak := equity[0];
    var drawdowns: seq<real> := [];
    for i := 0 to |equity|
      invariant |drawdowns| == i
      invariant peak == if i == 0 then equity[0] else Peak(equity, i - 1)
      invariant forall k :: 0 <= k < i ==> Peak(equity, k) != 0.0
      invariant forall k :: 0 <= k < i ==> drawdowns[k] == Relative(Peak(equity, k), equity[k]) * 100.0
    {
      hide Relative;
      var value := equity[i];
      if value > peak {
        peak := value;
      }
      assert peak == Peak(equity, i);
      if peak == 0.0 {
        return None;
      }
      drawdowns := drawdowns + [Relative(peak, value) * 100.0];
    }
    r := Some(drawdowns);
  }

  /** The reported maximum of a curve that starts above zero is the largest
      element of its drawdown series. */
  method MaxDrawdown(equity: seq<real>) returns (r: Option<real>)
    ensures |equity| == 0 ==> r == Some(0.0)
    ensures |equity| > 0 && equity[0] > 0.0 ==>
              && Defined(equity) && r.Some?
              && (forall j :: 0 <= j < |equity| ==> Fall(equity, j) * 100.0 <= r.value)
              && (exists j :: 0 <= j < |equity| && Fall(equity, j) * 100.0 == r.value)
  {
    hide Relative, Describes;
    if |equity| == 0 {
      return Some(0.0);
    }
    var report := CalculateMaxDrawdown(equity);
    r := if report.Some? then Some(report.value.0) else None;
    if equity[0] > 0.0 {
      forall j | 0 <= j < |equity| ensures Peak(equity, j) != 0.0 {
        PositiveStart(equity, j);
      }
      if |equity| == 1 {
        OnePoint(equity);
      }
      Attained(equity, report.value.0, report.value.1);
    }
  }

  lemma OnePoint(e: seq<real>)
    requires |e| == 1 && e[0] > 0.0
    ensures Defined(e) && Describes(e, 0.0, 0)
  {
    assert Peak(e, 0) == e[0];
    assert Relative(e[0], e[0]) == 0.0;
    assert Defined(e);
    assert forall k :: 0 <= k < |e| ==> k == 0 && Fall(e, k) == 0.0;
  }
}
