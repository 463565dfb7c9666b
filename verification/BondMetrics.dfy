/** Accrued interest, durations and convexity of a coupon bond (`bond_math.cpp`). */
module BondMetrics {
  import opened Integers
  import opened Reals
  import opened CivilCalendar
  import opened DayCount
  import opened Schedule
  import opened Pricing

  // ---------- Accrued interest ----------

  /** Start of the coupon period that ends at `nominal[next]`. */
  function PeriodStart(nominal: seq<int>, next: nat, frequency: nat): int
    requires next < |nominal|
  {
    if next == 0 then AddMonths(nominal[0], -MonthsPerPeriod(frequency)) else nominal[next - 1]
  }

  function AccruedInterest(settlement: int, nominal: seq<int>, couponRate: real, frequency: nat, face: real): real
    requires frequency > 0
  {
    var next := FirstAfter(nominal, settlement, 0);
    if next == |nominal| then 0.0
    else
      var last := PeriodStart(nominal, next, frequency);
      if settlement <= last then 0.0
      else couponRate * face * ActActBondIsma(last, settlement, last, nominal[next], frequency)
  }

  method AccruedInterestCoupon(settlement: int, nominal: seq<int>, couponRate: real, frequency: nat, face: real)
    returns (accrued: real)
    requires frequency > 0
    ensures accrued == AccruedInterest(settlement, nominal, couponRate, frequency, face)
  {
    hide AddMonths, ActActBondIsma;
    if |nominal| == 0 { return 0.0; }
    var lastCoupon, nextCoupon, found := 0, 0, false;
    var prevNominal := AddMonths(nominal[0], -MonthsPerPeriod(frequency));
    ghost var next := FirstAfter(nominal, settlement, 0);
    var i := 0;
    while i < |nominal|
      invariant 0 <= i <= |nominal|
      invariant !found && FirstAfter(nominal, settlement, i) == next
    {
      if nominal[i] > settlement {
        nextCoupon := nominal[i];
        lastCoupon := if i == 0 then prevNominal else nominal[i - 1];
        found := true;
        break;
      }
      i := i + 1;
    }
    if !found { return 0.0; }
    if settlement <= lastCoupon { return 0.0; }
    var yf := ActActBondIsma(lastCoupon, settlement, lastCoupon, nextCoupon, frequency);
    return couponRate * face * yf;
  }

  /** Two parts of one period: their ICMA fractions add up to a full coupon period. */
  lemma IsmaParts(a: int, m: int, b: int, frequency: nat)
    requires a <= m < b && frequency > 0
    ensures ActActBondIsma(a, m, a, b, frequency) + ActActBondIsma(m, b, a, b, frequency)
         == 1.0 / frequency as real
    ensures ActActBondIsma(a, m, a, b, frequency) < 1.0 / frequency as real
  {
    var p, f := (b - a) as real, frequency as real;
    IsmaPositive(b - a, b - a, frequency);
    IsmaPositive(b - m, b - a, frequency);
    assert (m - a) as real / (p * f) + (b - m) as real / (p * f) == p / (p * f);
    if a == m { assert (m - a) as real / (p * f) == 0.0; }
  }

  /** Nothing has accrued on a coupon date. */
  lemma AccruedZeroOnCouponDate(nominal: seq<int>, k: nat, couponRate: real, frequency: nat, face: real)
    requires frequency > 0 && Ascending(nominal) && k < |nominal|
    ensures AccruedInterest(nominal[k], nominal, couponRate, frequency, face) == 0.0
  {
    hide AddMonths, ActActBondIsma;
    var next := FirstAfter(nominal, nominal[k], 0);
    assert forall j :: 0 <= j <= k ==> nominal[j] <= nominal[k];
    assert k + 1 < |nominal| ==> nominal[k + 1] > nominal[k];
  }

  /** Accrued interest stays within one coupon. */
  lemma AccruedWithinCoupon(settlement: int, nominal: seq<int>, couponRate: real, frequency: nat, face: real)
    requires frequency > 0 && couponRate > 0.0 && face > 0.0
    ensures 0.0 <= AccruedInterest(settlement, nominal, couponRate, frequency, face)
              < couponRate * face / frequency as real
  {
    hide AddMonths, ActActBondIsma, PeriodStart;
    var next := FirstAfter(nominal, settlement, 0);
    ScaleStrict(0.0, couponRate, face);
    CouponShare(couponRate * face, frequency as real, 0.0);
    if next < |nominal| {
      var last := PeriodStart(nominal, next, frequency);
      if last < settlement {
        IsmaParts(last, settlement, nominal[next], frequency);
        CouponShare(couponRate * face, frequency as real,
                    ActActBondIsma(last, settlement, last, nominal[next], frequency));
      }
    }
  }

  lemma CouponShare(c: real, f: real, x: real)
    requires c > 0.0 && f > 0.0 && 0.0 <= x < 1.0 / f
    ensures 0.0 <= c * x < c / f
  {
    ScaleStrict(x, 1.0 / f, c);
    ProductNonneg(c, x);
    TimesReciprocal(c, f);
  }

  /**
    Nothing has accrued at issue exactly when the first period starts no earlier: with several
    coupons, when the day of issue exists in the month of the first one; with a single coupon,
    when it is a whole period away.
   */
  lemma AccruedAtIssueIff(issue: int, maturity: int, capacity: int, couponRate: real, frequency: nat, face: real)
    requires issue < maturity && capacity > 1 && frequency > 0 && couponRate > 0.0 && face > 0.0
    ensures var p := MonthsPerPeriod(frequency); var s := NominalDates(issue, maturity, p, capacity);
      AccruedInterest(issue, s, couponRate, frequency, face) == 0.0
      <==> if |s| > 1 then DayOf(issue) <= MonthLength(MonthOf(issue) + p) else AddMonths(maturity, -p) == issue
  {
    hide AddMonths, MonthOf, DayOf, MonthLength, ActActBondIsma, NominalDates;
    var p := MonthsPerPeriod(frequency);
    var s := NominalDates(issue, maturity, p, capacity);
    ScheduleAscending(issue, maturity, p, capacity, s);
    var start := PeriodStart(s, 0, frequency);
    assert FirstAfter(s, issue, 0) == 0;
    if |s| > 1 {
      assert s[0] == AddMonths(issue, (0 + 1) * p);
      AddMonthsSubAdditive(issue, p, -p);
      AddMonthsZero(issue);
      PartsRepresent(issue);
    }
    assert start <= issue;
    if start < issue {
      var yf := ActActBondIsma(start, issue, start, s[0], frequency);
      ScaleStrict(0.0, couponRate, face);
      ScaleStrict(0.0, yf, couponRate * face);
    }
  }

  /** Settlement lies in the period of the first surviving coupon. */
  predicate InRunningPeriod(t: Terms)
    requires ValidTerms(t) && FirstSurvivor(t) < |t.nominal|
  {
    PeriodStart(t.nominal, FirstSurvivor(t), t.frequency) <= t.settlement < t.nominal[FirstSurvivor(t)]
  }

  /**
    Accrued interest goes by nominal dates and the price by payment dates. The two agree on
    the running coupon exactly when settlement is before the nominal date of the first coupon
    not yet paid.
   */
  lemma SameCouponIff(t: Terms)
    requires ValidTerms(t) && InOrder(t) && FirstSurvivor(t) < |t.nominal|
    ensures FirstAfter(t.nominal, t.settlement, 0) == FirstSurvivor(t) <==> t.settlement < t.nominal[FirstSurvivor(t)]
    ensures FirstSurvivor(t) > 0 ==> PeriodStart(t.nominal, FirstSurvivor(t), t.frequency) <= t.settlement
  {
    hide AddMonths;
    var first := FirstSurvivor(t);
    assert forall i :: 0 <= i < first ==> t.nominal[i] <= t.payments[i] <= t.settlement;
  }

  /**
    Accrued and still-to-come interest make up the running coupon exactly when settlement lies
    in the period of the first surviving coupon.
   */
  lemma AccruedPlusStub(t: Terms, couponRate: real)
    requires ValidTerms(t) && InOrder(t) && t.coupon == couponRate * t.face / t.frequency as real
    requires couponRate > 0.0 && t.face > 0.0 && FirstSurvivor(t) < |t.nominal|
    ensures AccruedInterest(t.settlement, t.nominal, couponRate, t.frequency, t.face)
            + couponRate * t.face * StubYears(t) == t.coupon
            <==> InRunningPeriod(t)
  {
    hide AddMonths, ActActBondIsma, FirstSurvivor, AccruedInterest, InOrder;
    var first, c := FirstSurvivor(t), couponRate * t.face;
    SameCouponIff(t);
    ScaleStrict(0.0, couponRate, t.face);
    if t.settlement >= t.nominal[first] {
      assert StubYears(t) == 0.0;
      assert c * StubYears(t) == 0.0;
      AccruedWithinCoupon(t.settlement, t.nominal, couponRate, t.frequency, t.face);
    } else if InRunningPeriod(t) {
      RunningCoupon(t, couponRate);
    } else {
      BeforeFirstPeriod(t, couponRate);
    }
  }

  /** Before its period begins, a coupon is discounted over more than a period, and nothing has accrued. */
  lemma BeforeFirstPeriod(t: Terms, couponRate: real)
    requires ValidTerms(t) && t.coupon == couponRate * t.face / t.frequency as real
    requires couponRate * t.face > 0.0
    requires FirstSurvivor(t) == FirstAfter(t.nominal, t.settlement, 0) < |t.nominal|
    requires t.settlement < PeriodStart(t.nominal, FirstSurvivor(t), t.frequency)
    ensures AccruedInterest(t.settlement, t.nominal, couponRate, t.frequency, t.face) == 0.0
    ensures PeriodStart(t.nominal, FirstSurvivor(t), t.frequency) < t.nominal[FirstSurvivor(t)]
            ==> couponRate * t.face * StubYears(t) > t.coupon
    ensures PeriodStart(t.nominal, FirstSurvivor(t), t.frequency) >= t.nominal[FirstSurvivor(t)]
            ==> StubYears(t) == 0.0
  {
    hide AddMonths, ActActBondIsma, FirstSurvivor;
    var first, c, f := FirstSurvivor(t), couponRate * t.face, t.frequency as real;
    var start := PeriodStart(t.nominal, first, t.frequency);
    if start < t.nominal[first] {
      LongStub(t.settlement, start, t.nominal[first], t.frequency);
      ScaleStrict(1.0 / f, StubYears(t), c);
      TimesReciprocal(c, f);
    }
  }

  lemma LongStub(m: int, a: int, b: int, frequency: nat)
    requires m < a < b && frequency > 0
    ensures ActActBondIsma(m, b, a, b, frequency) > 1.0 / frequency as real
  {
    var p, f := (b - a) as real, frequency as real;
    IsmaPositive(b - a, b - a, frequency);
    QuotientOrder(p, (b - m) as real, p * f);
  }

  /**
    On a coupon date that is paid later, nothing has accrued while the whole coupon is still
    priced: the clean price stands to face plus coupon as it should stand to face.
   */
  lemma UnpaidCouponParity(pow: Power, y: real, t: Terms, k: nat, couponRate: real)
    requires PowerLaws(pow) && OnUnpaidCouponDate(t, k) && t.face > 0.0
    requires t.coupon == couponRate * t.face / t.frequency as real
    requires PeriodFactor(y, t.frequency) > 0.0
    ensures AccruedInterest(t.settlement, t.nominal, couponRate, t.frequency, t.face) == 0.0
    ensures var clean := DirtyPrice(pow, y, t) - AccruedInterest(t.settlement, t.nominal, couponRate, t.frequency, t.face);
      && (clean > t.face + t.coupon <==> couponRate > y)
      && (clean == t.face + t.coupon <==> couponRate == y)
  {
    hide PowerLaws, DirtyPrice, AccruedInterest, PeriodFactor;
    UnpaidCouponPrice(pow, y, t, k);
    CouponDateParity(pow, y, WithPaid(t, k), k, couponRate);
    AccruedZeroOnCouponDate(t.nominal, k, couponRate, t.frequency, t.face);
  }

  lemma RunningCoupon(t: Terms, couponRate: real)
    requires ValidTerms(t) && t.coupon == couponRate * t.face / t.frequency as real
    requires FirstSurvivor(t) == FirstAfter(t.nominal, t.settlement, 0) < |t.nominal|
    requires PeriodStart(t.nominal, FirstSurvivor(t), t.frequency) <= t.settlement
    ensures AccruedInterest(t.settlement, t.nominal, couponRate, t.frequency, t.face)
            + couponRate * t.face * StubYears(t) == t.coupon
  {
    hide AddMonths, ActActBondIsma, FirstSurvivor;
    var next, f := FirstSurvivor(t), t.frequency as real;
    var last := PeriodStart(t.nominal, next, t.frequency);
    var c := couponRate * t.face;
    IsmaParts(last, t.settlement, t.nominal[next], t.frequency);
    var acc := ActActBondIsma(last, t.settlement, last, t.nominal[next], t.frequency);
    var rest := ActActBondIsma(t.settlement, t.nominal[next], last, t.nominal[next], t.frequency);
    assert c * acc + c * rest == c * (1.0 / f) == c / f;
    if last == t.settlement { assert c * acc == 0.0; }
  }

  // ---------- Durations and convexity ----------

  function Total(xs: seq<real>): real {
    if xs == [] then 0.0 else Total(xs[..|xs| - 1]) + xs[|xs| - 1]
  }

  function Dot(xs: seq<real>, ys: seq<real>): real
    requires |xs| == |ys|
  {
    if xs == [] then 0.0
    else Dot(xs[..|xs| - 1], ys[..|ys| - 1]) + xs[|xs| - 1] * ys[|ys| - 1]
  }

  method MacaulayDuration(pvs: seq<real>, times: seq<real>, dirtyPrice: real) returns (d: real)
    requires |pvs| == |times|
    ensures d == if dirtyPrice == 0.0 then 0.0 else Dot(times, pvs) / dirtyPrice
  {
    if dirtyPrice == 0.0 { return 0.0; }
    var sum := 0.0;
    for i := 0 to |pvs|
      invariant sum == Dot(times[..i], pvs[..i])
    {
      sum := sum + times[i] * pvs[i];
      assert times[..i + 1][..i] == times[..i] && pvs[..i + 1][..i] == pvs[..i];
    }
    assert times[..|pvs|] == times && pvs[..|pvs|] == pvs;
    return sum / dirtyPrice;
  }

  /** A sum with weights of the given total lies between `lo` and `hi` on average. */
  predicate MeanBetween(lo: real, hi: real, total: real, sum: real) {
    lo * total <= sum <= hi * total
  }

  /** A weighted sum lies between its extreme times. */
  lemma {:induction false} DotWithinBounds(times: seq<real>, pvs: seq<real>, lo: real, hi: real)
    requires |times| == |pvs|
    requires forall i :: 0 <= i < |times| ==> lo <= times[i] <= hi && pvs[i] >= 0.0
    ensures Total(pvs) >= 0.0
    ensures MeanBetween(lo, hi, Total(pvs), Dot(times, pvs))
  {
    assert times == [] ==> MeanBetween(lo, hi, Total(pvs), Dot(times, pvs));
    hide MeanBetween;
    if times != [] {
      var n := |times| - 1;
      DotWithinBounds(times[..n], pvs[..n], lo, hi);
      BoundsStep(lo, hi, Total(pvs[..n]), Dot(times[..n], pvs[..n]), times[n], pvs[n], Total(pvs), Dot(times, pvs));
    }
  }

  lemma BoundsStep(lo: real, hi: real, total: real, sum: real, t: real, p: real, total': real, sum': real)
    requires MeanBetween(lo, hi, total, sum) && lo <= t <= hi && p >= 0.0
    requires total' == total + p && sum' == sum + t * p
    ensures MeanBetween(lo, hi, total', sum')
  {
    BoundProduct(lo, t, p);
    BoundProduct(t, hi, p);
    assert lo * (total + p) == lo * total + lo * p;
    assert hi * (total + p) == hi * total + hi * p;
  }

  function Deviation(t: real, p: real, c: real): real {
    p * ((t - c) * (t - c))
  }

  /** A second moment about `c`, from the moments about zero. */
  function Recentred(squares: real, sum: real, total: real, c: real): real {
    squares - 2.0 * c * sum + c * c * total
  }

  /** Second moment about `c` of the times, weighted by present value. */
  function Spread(times: seq<real>, pvs: seq<real>, c: real): real
    requires |times| == |pvs|
  {
    if times == [] then 0.0
    else
      var n := |times| - 1;
      Spread(times[..n], pvs[..n], c) + Deviation(times[n], pvs[n], c)
  }

  /** Sum of squared times, weighted by present value. */
  function SquareSum(times: seq<real>, pvs: seq<real>): real
    requires |times| == |pvs|
  {
    if times == [] then 0.0
    else
      var n := |times| - 1;
      SquareSum(times[..n], pvs[..n]) + times[n] * times[n] * pvs[n]
  }

  lemma {:induction false} SpreadExpands(times: seq<real>, pvs: seq<real>, c: real)
    requires |times| == |pvs|
    requires forall i :: 0 <= i < |pvs| ==> pvs[i] >= 0.0
    ensures Spread(times, pvs, c) >= 0.0
    ensures Spread(times, pvs, c) == Recentred(SquareSum(times, pvs), Dot(times, pvs), Total(pvs), c)
    decreases |times|
  {
    hide *;
    if times == [] {
      MomentsOfNone(times, pvs, c);
    } else {
      var n := |times| - 1;
      SpreadExpands(times[..n], pvs[..n], c);
      MomentsStep(times, pvs, c);
      RecentredStep(SquareSum(times[..n], pvs[..n]), Dot(times[..n], pvs[..n]), Total(pvs[..n]), c,
                    times[n], pvs[n], SquareSum(times, pvs), Dot(times, pvs), Total(pvs));
    }
  }

  lemma MomentsOfNone(times: seq<real>, pvs: seq<real>, c: real)
    requires times == [] && pvs == []
    ensures Spread(times, pvs, c) == 0.0
    ensures Recentred(SquareSum(times, pvs), Dot(times, pvs), Total(pvs), c) == 0.0
  {
  }

  lemma MomentsStep(times: seq<real>, pvs: seq<real>, c: real)
    requires |times| == |pvs| > 0
    ensures var n := |times| - 1;
      && Spread(times, pvs, c) == Spread(times[..n], pvs[..n], c) + Deviation(times[n], pvs[n], c)
      && SquareSum(times, pvs) == SquareSum(times[..n], pvs[..n]) + times[n] * times[n] * pvs[n]
      && Dot(times, pvs) == Dot(times[..n], pvs[..n]) + times[n] * pvs[n]
      && Total(pvs) == Total(pvs[..n]) + pvs[n]
  {
    hide Deviation;
  }

  lemma RecentredStep(squares: real, sum: real, total: real, c: real, t: real, p: real,
                      squares': real, sum': real, total': real)
    requires p >= 0.0
    requires squares' == squares + t * t * p && sum' == sum + t * p && total' == total + p
    ensures Deviation(t, p, c) >= 0.0
    ensures Recentred(squares, sum, total, c) + Deviation(t, p, c) == Recentred(squares', sum', total', c)
  {
    hide *;
    RecentredAlgebra(squares, sum, total, c, t, p);
  }

  lemma RecentredAlgebra(squares: real, sum: real, total: real, c: real, t: real, p: real)
    requires p >= 0.0
    ensures Deviation(t, p, c) >= 0.0
    ensures Recentred(squares, sum, total, c) + Deviation(t, p, c)
         == Recentred(squares + t * t * p, sum + t * p, total + p, c)
  {
    SquareNonneg(t - c);
    BoundProduct(0.0, (t - c) * (t - c), p);
    ExpandSquare(t, c, p);
    DistributeMoments(c, sum, total, t, p);
  }

  lemma ExpandSquare(t: real, c: real, p: real)
    ensures p * ((t - c) * (t - c)) == t * t * p - 2.0 * c * (t * p) + c * c * p
  {
    assert (t - c) * (t - c) == t * t - 2.0 * c * t + c * c;
    assert p * (t * t - 2.0 * c * t + c * c) == p * (t * t) - p * (2.0 * c * t) + p * (c * c);
  }

  lemma DistributeMoments(c: real, m: real, s: real, t: real, p: real)
    ensures 2.0 * c * (m + t * p) == 2.0 * c * m + 2.0 * c * (t * p)
    ensures c * c * (s + p) == c * c * s + c * c * p
  {
  }

  /** Mean of squares is at least the square of the mean (weights: present values). */
  lemma MomentInequality(times: seq<real>, pvs: seq<real>, price: real)
    requires |times| == |pvs| && price == Total(pvs) && price > 0.0
    requires forall i :: 0 <= i < |pvs| ==> pvs[i] >= 0.0
    ensures var d := Dot(times, pvs) / price; SquareSum(times, pvs) / price >= d * d
  {
    hide Recentred, Spread;
    SpreadExpands(times, pvs, Dot(times, pvs) / price);
    VarianceNonneg(SquareSum(times, pvs), Dot(times, pvs), price);
  }

  lemma VarianceNonneg(squares: real, sum: real, price: real)
    requires price > 0.0
    requires Recentred(squares, sum, price, sum / price) >= 0.0
    ensures var d := sum / price; squares / price >= d * d
  {
    var d := sum / price;
    assert sum == d * price;
    assert 2.0 * d * (d * price) == 2.0 * (d * d * price);
    assert squares >= d * d * price;
    QuotientMonotone(d * d * price, squares, price);
    assert d * d * price / price == d * d;
  }

  /** The base that the convexity loop raises, written as the source computes it. */
  function ConvexityBase(y: real, frequency: nat): (b: real)
    requires frequency > 0
    ensures b == PeriodFactor(y, frequency)
  {
    TimesReciprocal(y, frequency as real);
    1.0 + y * (1.0 / frequency as real)
  }

  function ConvexityWeight(amount: real, t: real, f: real, discount: real): real
    requires f > 0.0
  {
    amount * t * (t + 1.0 / f) * discount
  }

  function ConvexityTerm(pow: Power, y: real, frequency: nat, amount: real, t: real): real
    requires frequency > 0
  {
    ConvexityWeight(amount, t, frequency as real,
                    pow(ConvexityBase(y, frequency), -(PeriodsIn(t, frequency) + 2.0)))
  }

  function ConvexitySum(pow: Power, y: real, frequency: nat, amounts: seq<real>, times: seq<real>): real
    requires frequency > 0 && |amounts| == |times|
  {
    if times == [] then 0.0
    else
      var n := |times| - 1;
      ConvexitySum(pow, y, frequency, amounts[..n], times[..n])
      + ConvexityTerm(pow, y, frequency, amounts[n], times[n])
  }

  method Convexity(pow: Power, amounts: seq<real>, times: seq<real>, y: real, frequency: nat, dirtyPrice: real)
    returns (c: real)
    requires frequency > 0 && |amounts| == |times|
    ensures c == if dirtyPrice == 0.0 then 0.0
                 else ConvexitySum(pow, y, frequency, amounts, times) / dirtyPrice
  {
    hide ConvexityTerm;
    if dirtyPrice == 0.0 { return 0.0; }
    var sum := 0.0;
    for i := 0 to |times|
      invariant sum == ConvexitySum(pow, y, frequency, amounts[..i], times[..i])
    {
      assert times[..i + 1][..i] == times[..i] && amounts[..i + 1][..i] == amounts[..i];
      sum := sum + ConvexityTerm(pow, y, frequency, amounts[i], times[i]);
    }
    assert times[..|times|] == times && amounts[..|times|] == amounts;
    return sum / dirtyPrice;
  }

  /** A value brought forward by two periods. */
  function Forward(b: real, x: real): real {
    b * (b * x)
  }

  lemma ForwardAdd(b: real, u: real, v: real, sum: real)
    requires sum == u + v
    ensures Forward(b, sum) == Forward(b, u) + Forward(b, v)
  {
    assert b * (u + v) == b * u + b * v;
    assert b * (b * u + b * v) == b * (b * u) + b * (b * v);
  }

  lemma ForwardScale(b: real, k: real, p: real, q: real, kp: real, kq: real)
    requires Forward(b, p) == q && kp == k * p && kq == k * q
    ensures Forward(b, kp) == kq
  {
    assert b * (k * p) == k * (b * p);
    assert b * (k * (b * p)) == k * (b * (b * p));
  }

  lemma TwoPeriods(pow: Power, b: real, z: real)
    requires PowerLaws(pow) && b > 0.0
    ensures Forward(b, pow(b, -(z + 2.0))) == pow(b, -z)
  {
    assert b * pow(b, -(z + 2.0)) == pow(b, -(z + 1.0));
    assert b * pow(b, -(z + 1.0)) == pow(b, -z);
  }

  /** Discounting over two more periods is undone by two periods of growth. */
  lemma ConvexityTermValue(pow: Power, y: real, frequency: nat, amount: real, t: real, pv: real)
    requires PowerLaws(pow) && frequency > 0 && PeriodFactor(y, frequency) > 0.0
    requires pv == amount * DiscountFactor(pow, y, frequency, t)
    ensures Forward(PeriodFactor(y, frequency), ConvexityTerm(pow, y, frequency, amount, t))
         == t * t * pv + t * pv / frequency as real
  {
    hide PowerLaws, ConvexityWeight, ConvexityBase, PeriodFactor, PeriodsIn, Forward;
    var b, z := PeriodFactor(y, frequency), PeriodsIn(t, frequency);
    TwoPeriods(pow, b, z);
    ConvexityAlgebra(amount, t, frequency as real, b, pow(b, -(z + 2.0)), pow(b, -z));
  }

  lemma ConvexityAlgebra(amount: real, t: real, f: real, b: real, p: real, q: real)
    requires f > 0.0 && Forward(b, p) == q
    ensures Forward(b, ConvexityWeight(amount, t, f, p)) == t * t * (amount * q) + t * (amount * q) / f
  {
    hide Forward;
    var k := amount * t * (t + 1.0 / f);
    ForwardScale(b, k, p, q, ConvexityWeight(amount, t, f, p), k * q);
    hide ConvexityWeight;
    Expand(amount, t, 1.0 / f, q);
    TimesReciprocal(t * (amount * q), f);
  }

  lemma Expand(a: real, t: real, r: real, q: real)
    ensures a * t * (t + r) * q == t * t * (a * q) + t * (a * q) * r
  {
    assert a * t * (t + r) == a * t * t + a * t * r;
  }

  /** The present value of each cashflow, paired with its time and amount. */
  ghost predicate Valued(pow: Power, y: real, frequency: nat, pvs: seq<real>, times: seq<real>, amounts: seq<real>)
    requires frequency > 0
  {
    && |pvs| == |times| == |amounts|
    && forall i :: 0 <= i < |pvs| ==> pvs[i] == amounts[i] * DiscountFactor(pow, y, frequency, times[i])
  }

  lemma {:induction false} ConvexitySumValue(pow: Power, y: real, frequency: nat,
                                             pvs: seq<real>, times: seq<real>, amounts: seq<real>)
    requires PowerLaws(pow) && frequency > 0 && PeriodFactor(y, frequency) > 0.0
    requires Valued(pow, y, frequency, pvs, times, amounts)
    ensures Forward(PeriodFactor(y, frequency), ConvexitySum(pow, y, frequency, amounts, times))
         == SquareSum(times, pvs) + Dot(times, pvs) / frequency as real
    decreases |times|
  {
    hide *;
    var b := PeriodFactor(y, frequency);
    ValuedSplit(pow, y, frequency, pvs, times, amounts);
    if times == [] {
      NoMoments(pow, y, frequency, pvs, times, amounts);
    } else {
      var n := |times| - 1;
      ConvexitySumValue(pow, y, frequency, pvs[..n], times[..n], amounts[..n]);
      var t, p, f := times[n], pvs[n], frequency as real;
      ConvexityTermValue(pow, y, frequency, amounts[n], t, p);
      MomentsStep(times, pvs, 0.0);
      ConvexityStep(pow, y, frequency, amounts, times);
      ForwardAdd(b, ConvexitySum(pow, y, frequency, amounts[..n], times[..n]),
                 ConvexityTerm(pow, y, frequency, amounts[n], times[n]),
                 ConvexitySum(pow, y, frequency, amounts, times));
      QuotientAdd(Dot(times[..n], pvs[..n]), t * p, f, Dot(times, pvs));
    }
  }

  lemma ValuedSplit(pow: Power, y: real, frequency: nat, pvs: seq<real>, times: seq<real>, amounts: seq<real>)
    requires frequency > 0 && Valued(pow, y, frequency, pvs, times, amounts)
    ensures |pvs| == |times| == |amounts|
    ensures times != [] ==> var n := |times| - 1;
      && Valued(pow, y, frequency, pvs[..n], times[..n], amounts[..n])
      && pvs[n] == amounts[n] * DiscountFactor(pow, y, frequency, times[n])
  {
    hide DiscountFactor;
  }

  lemma NoMoments(pow: Power, y: real, frequency: nat, pvs: seq<real>, times: seq<real>, amounts: seq<real>)
    requires frequency > 0 && times == [] && pvs == [] && amounts == []
    ensures Forward(PeriodFactor(y, frequency), ConvexitySum(pow, y, frequency, amounts, times)) == 0.0
    ensures SquareSum(times, pvs) + Dot(times, pvs) / frequency as real == 0.0
  {
    assert 0.0 / frequency as real == 0.0;
  }

  lemma ConvexityStep(pow: Power, y: real, frequency: nat, amounts: seq<real>, times: seq<real>)
    requires frequency > 0 && |amounts| == |times| > 0
    ensures var n := |times| - 1;
      ConvexitySum(pow, y, frequency, amounts, times)
      == ConvexitySum(pow, y, frequency, amounts[..n], times[..n])
         + ConvexityTerm(pow, y, frequency, amounts[n], times[n])
  {
    hide ConvexityTerm;
  }

  lemma QuotientAdd(x: real, z: real, f: real, sum: real)
    requires f > 0.0 && sum == x + z
    ensures sum / f == x / f + z / f
  {
  }

  /**
    Convexity dominates the square of modified duration: scaled by the squared period
    factor it is at least D*D + D/f, for D the Macaulay duration.
   */
  lemma ConvexityDominates(pow: Power, y: real, frequency: nat,
                           pvs: seq<real>, times: seq<real>, amounts: seq<real>, price: real)
    requires PowerLaws(pow) && frequency > 0 && PeriodFactor(y, frequency) > 0.0
    requires Valued(pow, y, frequency, pvs, times, amounts)
    requires forall i :: 0 <= i < |pvs| ==> pvs[i] >= 0.0
    requires price == Total(pvs) && price > 0.0
    ensures var d := Dot(times, pvs) / price;
      Forward(PeriodFactor(y, frequency), ConvexitySum(pow, y, frequency, amounts, times) / price)
      >= d * d + d / frequency as real
  {
    assert |pvs| == |times| == |amounts|;
    hide *;
    var b := PeriodFactor(y, frequency);
    ConvexitySumValue(pow, y, frequency, pvs, times, amounts);
    MomentInequality(times, pvs, price);
    DivideThrough(b, ConvexitySum(pow, y, frequency, amounts, times),
                  SquareSum(times, pvs), Dot(times, pvs), price, frequency as real);
  }

  lemma DivideThrough(b: real, c: real, s: real, m: real, price: real, f: real)
    requires price > 0.0 && f > 0.0 && Forward(b, c) == s + m / f
    ensures Forward(b, c / price) == s / price + m / price / f
  {
    hide Forward;
    TimesReciprocal(c, price);
    TimesReciprocal(s + m / f, price);
    ForwardScale(b, 1.0 / price, c, s + m / f, c / price, (s + m / f) / price);
    SwapQuotients(m, f, price);
    QuotientAdd(s, m / f, price, s + m / f);
  }

  lemma SwapQuotients(m: real, f: real, price: real)
    requires f > 0.0 && price > 0.0
    ensures m / f / price == m / price / f
  {
    var q := m / price / f;
    assert m == q * f * price == q * price * f;
    assert m / f == q * price;
  }
}
