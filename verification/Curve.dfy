/** Linear yield-curve interpolation: `curve_math.cpp`. */
module Curve {
  import opened Integers
  import opened Options
  import opened Reals

  /** Share of the way from `a` to `b`. */
  function Fraction(a: int, b: int, q: int): real
    requires a < b
  {
    (q - a) as real / (b - a) as real
  }

  /** Weight of node `j` in the yield at `q`: a hat that is 1 at the node and 0 at its neighbours. */
  function Weight(dates: seq<int>, j: nat, q: int): real
    requires j < |dates|
  {
    if q == dates[j] then 1.0
    else if j > 0 && dates[j - 1] < q < dates[j] then Fraction(dates[j - 1], dates[j], q)
    else if j + 1 < |dates| && dates[j] < q < dates[j + 1] then 1.0 - Fraction(dates[j], dates[j + 1], q)
    else 0.0
  }

  /** Weighted sum of the first `n` node yields. */
  function Blend(dates: seq<int>, ys: seq<real>, q: int, n: nat): real
    requires n <= |dates| == |ys|
  {
    if n == 0 then 0.0 else Blend(dates, ys, q, n - 1) + Weight(dates, n - 1, q) * ys[n - 1]
  }

  function Interpolated(dates: seq<int>, ys: seq<real>, q: int): real
    requires |dates| == |ys|
  {
    Blend(dates, ys, q, |dates|)
  }

  predicate InRange(dates: seq<int>, q: int) {
    |dates| >= 2 && dates[0] <= q <= dates[|dates| - 1]
  }

  /** `y` lies on the straight line between nodes `i - 1` and `i`, at date `q`. */
  predicate OnSegment(dates: seq<int>, ys: seq<real>, q: int, i: nat, y: real)
    requires 0 < i < |dates| == |ys|
  {
    (y - ys[i - 1]) * (dates[i] - dates[i - 1]) as real == (ys[i] - ys[i - 1]) * (q - dates[i - 1]) as real
  }

  /** The search loop evaluates the weighted sum, a straight line on every segment; out of range it gives not-a-number. */
  method LinearYield(dates: seq<int>, ys: seq<real>, q: int) returns (r: Option<real>)
    requires |dates| == |ys| && Ascending(dates)
    ensures r.Some? <==> InRange(dates, q)
    ensures r.Some? <==> |dates| >= 2 && dates[0] <= q <= dates[|dates| - 1]
    ensures r.Some? ==> r.value == Interpolated(dates, ys, q)
    ensures r.Some? ==> forall i :: 0 < i < |dates| && dates[i - 1] <= q <= dates[i] ==> OnSegment(dates, ys, q, i, r.value)
  {
    forall i | 0 < i < |dates| && dates[i - 1] <= q <= dates[i]
      ensures OnSegment(dates, ys, q, i, Interpolated(dates, ys, q))
    {
      LinearInDate(dates, ys, q, i);
    }
    hide OnSegment;
    hide Weight;
    if |dates| < 2 || q < dates[0] || q > dates[|dates| - 1] { return None; }
    if q == dates[0] {
      AtNode(dates, ys, q, 0, |dates|);
      return Some(ys[0]);
    }
    var index := 1;
    while index < |dates|
      invariant 1 <= index <= |dates|
      invariant dates[index - 1] < q
    {
      if q == dates[index] {
        AtNode(dates, ys, q, index, |dates|);
        return Some(ys[index]);
      }
      if q < dates[index] {
        var weight := Fraction(dates[index - 1], dates[index], q);
        BetweenNodes(dates, ys, q, index, |dates|);
        SegmentForm(weight, ys[index - 1], ys[index]);
        return Some(ys[index - 1] + weight * (ys[index] - ys[index - 1]));
      }
      index := index + 1;
    }
    return None;
  }

  /** Interpolation is linear in the date on every segment, ends included. */
  lemma LinearInDate(dates: seq<int>, ys: seq<real>, q: int, i: nat)
    requires 0 < i < |dates| == |ys| && Ascending(dates) && dates[i - 1] <= q <= dates[i]
    ensures (Interpolated(dates, ys, q) - ys[i - 1]) * (dates[i] - dates[i - 1]) as real
         == (ys[i] - ys[i - 1]) * (q - dates[i - 1]) as real
  {
    hide Weight;
    if q == dates[i - 1] {
      AtNode(dates, ys, q, i - 1, |dates|);
    } else if q == dates[i] {
      AtNode(dates, ys, q, i, |dates|);
    } else {
      BetweenNodes(dates, ys, q, i, |dates|);
      Slope(Fraction(dates[i - 1], dates[i], q), ys[i - 1], ys[i],
            (q - dates[i - 1]) as real, (dates[i] - dates[i - 1]) as real);
    }
  }

  lemma Slope(w: real, a: real, b: real, e: real, p: real)
    requires p > 0.0 && w == e / p
    ensures ((1.0 - w) * a + w * b - a) * p == (b - a) * e
  {
    assert w * p == e;
    assert (1.0 - w) * a + w * b - a == w * (b - a);
    assert w * (b - a) * p == (b - a) * (w * p);
  }

  lemma SegmentForm(w: real, a: real, b: real)
    ensures a + w * (b - a) == (1.0 - w) * a + w * b
  {
  }

  /** At a node only that node counts: interpolation is exact there. */
  lemma {:induction false} AtNode(dates: seq<int>, ys: seq<real>, q: int, i: nat, n: nat)
    requires i < |dates| == |ys| && Ascending(dates) && n <= |dates| && q == dates[i]
    ensures Blend(dates, ys, q, n) == if n <= i then 0.0 else ys[i]
    decreases n
  {
    if n > 0 {
      AtNode(dates, ys, q, i, n - 1);
      NodeWeight(dates, i, n - 1);
      hide Weight;
    }
  }

  lemma NodeWeight(dates: seq<int>, i: nat, j: nat)
    requires i < |dates| && j < |dates| && Ascending(dates)
    ensures Weight(dates, j, dates[i]) == if i == j then 1.0 else 0.0
  {
  }

  /** Strictly between two nodes only those two count. */
  lemma {:induction false} BetweenNodes(dates: seq<int>, ys: seq<real>, q: int, i: nat, n: nat)
    requires 0 < i < |dates| == |ys| && Ascending(dates) && n <= |dates|
    requires dates[i - 1] < q < dates[i]
    ensures var w := Fraction(dates[i - 1], dates[i], q);
      Blend(dates, ys, q, n) == if n < i then 0.0
                                else if n == i then (1.0 - w) * ys[i - 1]
                                else (1.0 - w) * ys[i - 1] + w * ys[i]
    decreases n
  {
    if n > 0 {
      BetweenNodes(dates, ys, q, i, n - 1);
      SegmentWeight(dates, q, i, n - 1);
      hide Weight, Fraction;
    }
  }

  lemma SegmentWeight(dates: seq<int>, q: int, i: nat, j: nat)
    requires 0 < i < |dates| && j < |dates| && Ascending(dates) && dates[i - 1] < q < dates[i]
    ensures var w := Fraction(dates[i - 1], dates[i], q);
      Weight(dates, j, q) == if j == i - 1 then 1.0 - w else if j == i then w else 0.0
  {
    hide Fraction;
  }

  /** In range, a query is at a node or strictly inside one segment. */
  lemma Locate(dates: seq<int>, q: int) returns (i: nat)
    requires Ascending(dates) && InRange(dates, q)
    ensures i < |dates| && (q == dates[i] || (0 < i && dates[i - 1] < q < dates[i]))
  {
    i := 0;
    while dates[i] < q
      invariant i < |dates| && (i > 0 ==> dates[i - 1] < q)
      decreases |dates| - i
    {
      i := i + 1;
    }
  }

  /** The interpolated yield stays between the yields of its two neighbours. */
  lemma StaysBetweenNeighbours(dates: seq<int>, ys: seq<real>, q: int, i: nat)
    requires 0 < i < |dates| == |ys| && Ascending(dates) && dates[i - 1] <= q <= dates[i]
    ensures var lo := if ys[i - 1] < ys[i] then ys[i - 1] else ys[i];
      var hi := if ys[i - 1] < ys[i] then ys[i] else ys[i - 1];
      lo <= Interpolated(dates, ys, q) <= hi
  {
    hide Weight;
    if q == dates[i - 1] {
      AtNode(dates, ys, q, i - 1, |dates|);
    } else if q == dates[i] {
      AtNode(dates, ys, q, i, |dates|);
    } else {
      BetweenNodes(dates, ys, q, i, |dates|);
      StrictFraction(dates[i - 1], dates[i], q);
      hide Fraction;
      Mixture(Fraction(dates[i - 1], dates[i], q), ys[i - 1], ys[i]);
    }
  }

  lemma Mixture(w: real, a: real, b: real)
    requires 0.0 <= w <= 1.0
    ensures a <= b ==> a <= (1.0 - w) * a + w * b <= b
    ensures b <= a ==> b <= (1.0 - w) * a + w * b <= a
  {
    SegmentForm(w, a, b);
    RemainderForm(w, a, b);
    if a <= b {
      ProductNonneg(w, b - a);
      ProductNonneg(1.0 - w, b - a);
    }
    if b <= a {
      ProductNonneg(w, a - b);
      ProductNonneg(1.0 - w, a - b);
      assert w * (b - a) == -(w * (a - b)) && (1.0 - w) * (b - a) == -((1.0 - w) * (a - b));
    }
  }

  lemma RemainderForm(w: real, a: real, b: real)
    ensures b - (1.0 - w) * (b - a) == (1.0 - w) * a + w * b
  {
  }

  // ---------- Linearity in the node yields ----------

  function Bumped(ys: seq<real>, j: nat, delta: real): seq<real>
    requires j < |ys|
  {
    ys[j := ys[j] + delta]
  }

  /** Bumping one node moves the yield by the bump times that node's weight. */
  lemma {:induction false} BumpEffect(dates: seq<int>, ys: seq<real>, q: int, j: nat, delta: real, n: nat)
    requires n <= |dates| == |ys| && j < |ys|
    ensures Blend(dates, Bumped(ys, j, delta), q, n)
         == Blend(dates, ys, q, n) + if j < n then delta * Weight(dates, j, q) else 0.0
    decreases n
  {
    hide Weight;
    if n > 0 {
      BumpEffect(dates, ys, q, j, delta, n - 1);
      if n - 1 == j {
        var w := Weight(dates, j, q);
        assert w * (ys[j] + delta) == w * ys[j] + delta * w;
      }
    }
  }

  /** That weight is nonzero exactly strictly between the node's neighbours. */
  lemma WeightSupport(dates: seq<int>, j: nat, q: int)
    requires j < |dates| && Ascending(dates) && InRange(dates, q)
    ensures Weight(dates, j, q) >= 0.0
    ensures Weight(dates, j, q) > 0.0
            <==> (j > 0 ==> dates[j - 1] < q) && (j + 1 < |dates| ==> q < dates[j + 1])
  {
    if j > 0 && dates[j - 1] < q < dates[j] {
      StrictFraction(dates[j - 1], dates[j], q);
    }
    if j + 1 < |dates| && dates[j] < q < dates[j + 1] {
      StrictFraction(dates[j], dates[j + 1], q);
    }
    hide Fraction;
  }

  lemma StrictFraction(a: int, b: int, q: int)
    requires a < q < b
    ensures 0.0 < Fraction(a, b, q) < 1.0
  {
    FractionBelowOne((q - a) as real, (b - a) as real);
  }

  function Shifted(ys: seq<real>, delta: real): (r: seq<real>)
    ensures |r| == |ys|
  {
    seq(|ys|, i requires 0 <= i < |ys| => ys[i] + delta)
  }

  /** Sum of the effects of bumping each of the first `n` nodes alone. */
  function SumOfBumps(dates: seq<int>, ys: seq<real>, q: int, delta: real, n: nat): real
    requires n <= |dates| == |ys|
  {
    if n == 0 then 0.0
    else SumOfBumps(dates, ys, q, delta, n - 1)
         + (Interpolated(dates, Bumped(ys, n - 1, delta), q) - Interpolated(dates, ys, q))
  }

  function WeightSum(dates: seq<int>, q: int, n: nat): real
    requires n <= |dates|
  {
    if n == 0 then 0.0 else WeightSum(dates, q, n - 1) + Weight(dates, n - 1, q)
  }

  lemma {:induction false} WeightSumIsBlend(dates: seq<int>, ones: seq<real>, q: int, n: nat)
    requires n <= |dates| == |ones| && forall i :: 0 <= i < |ones| ==> ones[i] == 1.0
    ensures WeightSum(dates, q, n) == Blend(dates, ones, q, n)
  {
    hide Weight;
    if n > 0 { WeightSumIsBlend(dates, ones, q, n - 1); }
  }

  lemma WeightsSumToOne(dates: seq<int>, q: int)
    requires Ascending(dates) && InRange(dates, q)
    ensures WeightSum(dates, q, |dates|) == 1.0
  {
    hide Weight;
    var ones := seq(|dates|, _ => 1.0);
    WeightSumIsBlend(dates, ones, q, |dates|);
    var i := Locate(dates, q);
    if q == dates[i] {
      AtNode(dates, ones, q, i, |dates|);
    } else {
      BetweenNodes(dates, ones, q, i, |dates|);
    }
  }

  lemma {:induction false} BumpsAddUp(dates: seq<int>, ys: seq<real>, q: int, delta: real, n: nat)
    requires n <= |dates| == |ys|
    ensures SumOfBumps(dates, ys, q, delta, n) == delta * WeightSum(dates, q, n)
  {
    hide Weight;
    if n > 0 {
      BumpsAddUp(dates, ys, q, delta, n - 1);
      BumpEffect(dates, ys, q, n - 1, delta, |dates|);
      Distribute(delta, WeightSum(dates, q, n - 1), Weight(dates, n - 1, q));
    }
  }

  lemma {:induction false} ShiftEffect(dates: seq<int>, ys: seq<real>, q: int, delta: real, n: nat)
    requires n <= |dates| == |ys|
    ensures Blend(dates, Shifted(ys, delta), q, n) == Blend(dates, ys, q, n) + delta * WeightSum(dates, q, n)
  {
    hide Weight;
    if n > 0 {
      ShiftEffect(dates, ys, q, delta, n - 1);
      var w := Weight(dates, n - 1, q);
      assert w * (ys[n - 1] + delta) == w * ys[n - 1] + delta * w;
      Distribute(delta, WeightSum(dates, q, n - 1), w);
    }
  }

  /** All single-node bumps together move the yield exactly as a parallel shift does. */
  lemma BumpsEqualParallelShift(dates: seq<int>, ys: seq<real>, q: int, delta: real)
    requires |dates| == |ys| && Ascending(dates) && InRange(dates, q)
    ensures Interpolated(dates, Shifted(ys, delta), q) - Interpolated(dates, ys, q) == delta
    ensures SumOfBumps(dates, ys, q, delta, |dates|) == delta
  {
    hide Weight;
    WeightsSumToOne(dates, q);
    BumpsAddUp(dates, ys, q, delta, |dates|);
    ShiftEffect(dates, ys, q, delta, |dates|);
  }
}
