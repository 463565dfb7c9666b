/**
  Discounting and the coupon-bond price of `bond_math.cpp`, over exact reals.

  `std::pow` is a parameter. What is used of it is stated by `PowerLaws`, which real
  exponentiation satisfies; `PowerLawsInhabited` exhibits a function with these laws.
 */
module Pricing {
  import opened Integers
  import opened Reals
  import opened CivilCalendar
  import opened DayCount
  import opened Schedule

  type Power = (real, real) -> real

  ghost predicate PowerLaws(pow: Power) {
    && (forall b, x :: b > 0.0 ==> pow(b, x) > 0.0)
    && (forall b :: b > 0.0 ==> pow(b, 0.0) == 1.0)
    && (forall b, x, y :: b > 0.0 && x == y - 1.0 ==> b * pow(b, x) == pow(b, y))
    && (forall b, c, x :: 0.0 < b < c && x < 0.0 ==> pow(c, x) < pow(b, x))
  }

  /** Where `std::pow` is a finite number: not at a pole, and not at a fractional power of a negative base. */
  predicate PowDefined(b: real, x: real) {
    b > 0.0 || (b == 0.0 && x >= 0.0) || (b < 0.0 && x == x.Floor as real)
  }

  // ---------- Concrete powers, and an instance of the laws ----------

  function IntPow(b: real, n: nat): real {
    if n == 0 then 1.0 else b * IntPow(b, n - 1)
  }

  lemma {:induction false} IntPowPositive(b: real, n: nat)
    requires b > 0.0
    ensures IntPow(b, n) > 0.0
  {
    if n > 0 { IntPowPositive(b, n - 1); }
  }

  lemma {:induction false} IntPowIncreasing(b: real, c: real, n: nat)
    requires 0.0 < b < c && n > 0
    ensures IntPow(b, n) < IntPow(c, n)
  {
    if n > 1 {
      IntPowIncreasing(b, c, n - 1);
      IntPowPositive(b, n - 1);
      ScaleStrict(b, c, IntPow(b, n - 1));
      ScaleStrict(IntPow(b, n - 1), IntPow(c, n - 1), c);
    } else {
      assert IntPow(b, 1) == b && IntPow(c, 1) == c;
    }
  }

  /** Power with the exponent rounded up in size: the simplest function with the laws. */
  function CeilingPower(b: real, x: real): real {
    if b <= 0.0 then 0.0
    else if x <= 0.0 then IntPowPositive(b, Ceiling(-x)); 1.0 / IntPow(b, Ceiling(-x))
    else IntPow(b, x.Floor)
  }

  lemma PowerLawsInhabited()
    ensures PowerLaws(CeilingPower)
  {
    forall b: real | b > 0.0
      ensures CeilingPower(b, 0.0) == 1.0
    {
      CeilingPowerZero(b);
    }
    hide CeilingPower;
    forall b: real, x: real | b > 0.0
      ensures CeilingPower(b, x) > 0.0
    {
      CeilingPowerPositive(b, x);
    }
    forall b: real, x: real, y: real | b > 0.0 && x == y - 1.0
      ensures b * CeilingPower(b, x) == CeilingPower(b, y)
    {
      CeilingPowerStep(b, y);
    }
    forall b: real, c: real, x: real | 0.0 < b < c && x < 0.0
      ensures CeilingPower(c, x) < CeilingPower(b, x)
    {
      CeilingPowerFalls(b, c, x);
    }
  }

  lemma CeilingPowerZero(b: real)
    requires b > 0.0
    ensures CeilingPower(b, 0.0) == 1.0
  {
  }

  lemma CeilingPowerPositive(b: real, x: real)
    requires b > 0.0
    ensures CeilingPower(b, x) > 0.0
  {
    if x <= 0.0 { IntPowPositive(b, Ceiling(-x)); } else { IntPowPositive(b, x.Floor); }
  }

  lemma CeilingPowerFalls(b: real, c: real, x: real)
    requires 0.0 < b < c && x < 0.0
    ensures CeilingPower(c, x) < CeilingPower(b, x)
  {
    IntPowIncreasing(b, c, Ceiling(-x));
    IntPowPositive(b, Ceiling(-x));
    ReciprocalOrder(IntPow(b, Ceiling(-x)), IntPow(c, Ceiling(-x)));
  }

  lemma CeilingPowerStep(b: real, y: real)
    requires b > 0.0
    ensures b * CeilingPower(b, y - 1.0) == CeilingPower(b, y)
  {
    if y <= 0.0 {
      CeilingPowerBelow(b, y);
    } else if y < 1.0 {
      CeilingPowerAcross(b, y);
    } else {
      assert (y - 1.0).Floor == y.Floor - 1;
      if y == 1.0 { IntPowOne(b); }
    }
  }

  lemma CeilingPowerBelow(b: real, y: real)
    requires b > 0.0 && y <= 0.0
    ensures b * CeilingPower(b, y - 1.0) == CeilingPower(b, y)
  {
    var n: nat := Ceiling(-y);
    CeilingShift(-y);
    IntPowPositive(b, n);
    ReciprocalStep(b, IntPow(b, n));
    assert CeilingPower(b, y) == 1.0 / IntPow(b, n);
    assert IntPow(b, n + 1) == b * IntPow(b, n);
  }

  lemma CeilingPowerAcross(b: real, y: real)
    requires b > 0.0 && 0.0 < y < 1.0
    ensures b * CeilingPower(b, y - 1.0) == CeilingPower(b, y)
  {
    CeilingOfFraction(1.0 - y);
    assert y.Floor == 0;
    IntPowOne(b);
    ReciprocalStep(b, 1.0);
  }

  lemma CeilingShift(x: real)
    ensures Ceiling(x + 1.0) == Ceiling(x) + 1
  {
  }

  lemma CeilingOfFraction(x: real)
    requires 0.0 < x < 1.0
    ensures Ceiling(x) == 1
  {
  }

  lemma IntPowOne(b: real)
    ensures IntPow(b, 0) == 1.0 && IntPow(b, 1) == b
  {
  }

  lemma ReciprocalStep(b: real, p: real)
    requires b > 0.0 && p > 0.0
    ensures b * p > 0.0 && b * (1.0 / (b * p)) == 1.0 / p
  {
  }

  /** The laws fix integer exponents to the concrete power. */
  lemma {:induction false} PowerAtInteger(pow: Power, b: real, n: nat)
    requires PowerLaws(pow) && b > 0.0
    ensures IntPow(b, n) > 0.0 && pow(b, -(n as real)) == 1.0 / IntPow(b, n)
  {
    IntPowPositive(b, n);
    if n > 0 {
      PowerAtInteger(pow, b, n - 1);
      var x, y := -(n as real), -((n - 1) as real);
      assert b * pow(b, x) == pow(b, y);
      var p := IntPow(b, n - 1);
      assert b * (1.0 / (b * p)) == 1.0 / p;
    }
  }

  /** A stub and a whole number of periods separate. */
  lemma {:induction false} PowerSplits(pow: Power, b: real, w: real, n: nat)
    requires PowerLaws(pow) && b > 0.0
    ensures IntPow(b, n) > 0.0 && pow(b, -(w + n as real)) == pow(b, -w) / IntPow(b, n)
  {
    IntPowPositive(b, n);
    if n > 0 {
      PowerSplits(pow, b, w, n - 1);
      var x, y := -(w + n as real), -(w + (n - 1) as real);
      assert b * pow(b, x) == pow(b, y);
      var p := IntPow(b, n - 1);
      assert b * (pow(b, -w) / (b * p)) == pow(b, -w) / p;
    } else {
      assert w + 0.0 == w;
    }
  }

  // ---------- Cashflows and their present value ----------

  datatype Flow = Flow(time: real, amount: real)

  function DiscountFactor(pow: Power, y: real, frequency: nat, time: real): real
    requires frequency > 0
  {
    pow(PeriodFactor(y, frequency), -PeriodsIn(time, frequency))
  }

  /** Growth over one coupon period at yield `y`. */
  function PeriodFactor(y: real, frequency: nat): real
    requires frequency > 0
  {
    1.0 + y / frequency as real
  }

  /** A time in years, counted in coupon periods. */
  function PeriodsIn(time: real, frequency: nat): real {
    time * frequency as real
  }

  function PresentValue(pow: Power, y: real, frequency: nat, flows: seq<Flow>): real
    requires frequency > 0
  {
    if flows == [] then 0.0
    else
      var last := flows[|flows| - 1];
      PresentValue(pow, y, frequency, flows[..|flows| - 1])
      + last.amount * DiscountFactor(pow, y, frequency, last.time)
  }

  /** What the pricing code is given about a coupon bond. */
  datatype Terms = Terms(
    settlement: int,
    nominal: seq<int>,
    payments: seq<int>,
    coupon: real,
    frequency: nat,
    face: real
  )

  predicate ValidTerms(t: Terms) {
    |t.nominal| == |t.payments| && t.frequency > 0
  }

  /** First schedule entry paid after settlement; the schedule length if there is none. */
  function FirstSurvivor(t: Terms): (first: nat)
    requires ValidTerms(t)
    ensures first <= |t.payments|
    ensures first < |t.payments| ==> t.payments[first] > t.settlement
    ensures forall i :: 0 <= i < first ==> t.payments[i] <= t.settlement
  {
    FirstAfter(t.payments, t.settlement, 0)
  }

  function FirstAfter(dates: seq<int>, date: int, i: nat): (first: nat)
    requires i <= |dates|
    ensures i <= first <= |dates|
    ensures first < |dates| ==> dates[first] > date
    ensures forall k :: i <= k < first ==> dates[k] <= date
    decreases |dates| - i
  {
    if i == |dates| || dates[i] > date then i else FirstAfter(dates, date, i + 1)
  }

  /** Year fraction from settlement to the first surviving nominal date. */
  function StubYears(t: Terms): (stub: real)
    requires ValidTerms(t) && FirstSurvivor(t) < |t.nominal|
    ensures stub >= 0.0
  {
    var first := FirstSurvivor(t);
    var refStart := if first == 0 then AddMonths(t.nominal[0], -MonthsPerPeriod(t.frequency))
                    else t.nominal[first - 1];
    ActActBondIsma(t.settlement, t.nominal[first], refStart, t.nominal[first], t.frequency)
  }

  function FlowAt(t: Terms, i: nat): Flow
    requires ValidTerms(t) && FirstSurvivor(t) <= i < |t.nominal|
  {
    var k := (i - FirstSurvivor(t)) as real;
    Flow(StubYears(t) + k / t.frequency as real,
         if i == |t.nominal| - 1 then t.coupon + t.face else t.coupon)
  }

  /** The cashflows among the first `n` schedule entries that are paid after settlement. */
  function SurvivingFlows(t: Terms, n: nat): seq<Flow>
    requires ValidTerms(t) && n <= |t.nominal|
  {
    if n == 0 then []
    else if t.payments[n - 1] > t.settlement then SurvivingFlows(t, n - 1) + [FlowAt(t, n - 1)]
    else SurvivingFlows(t, n - 1)
  }

  function Flows(t: Terms): seq<Flow>
    requires ValidTerms(t)
  {
    SurvivingFlows(t, |t.nominal|)
  }

  function DirtyPrice(pow: Power, y: real, t: Terms): real
    requires ValidTerms(t)
  {
    PresentValue(pow, y, t.frequency, Flows(t))
  }

  /** The scan for the first cashflow that survives the settlement filter. */
  method FindFirstSurvivor(t: Terms) returns (firstIdx: nat)
    requires ValidTerms(t)
    ensures firstIdx == FirstSurvivor(t)
  {
    firstIdx := |t.nominal|;
    var i := 0;
    while i < |t.nominal|
      invariant 0 <= i <= |t.nominal|
      invariant FirstAfter(t.payments, t.settlement, i) == FirstSurvivor(t)
    {
      if t.payments[i] > t.settlement {
        return i;
      }
      i := i + 1;
    }
  }

  method BaseResidual(t: Terms, firstIdx: nat) returns (stub: real)
    requires ValidTerms(t) && firstIdx == FirstSurvivor(t) < |t.nominal|
    ensures stub == StubYears(t)
  {
    hide AddMonths, FirstSurvivor, ActActBondIsma;
    var firstNom := t.nominal[firstIdx];
    var refStart;
    if firstIdx == 0 {
      refStart := AddMonths(firstNom, -MonthsPerPeriod(t.frequency));
    } else {
      refStart := t.nominal[firstIdx - 1];
    }
    stub := ActActBondIsma(t.settlement, firstNom, refStart, firstNom, t.frequency);
  }

  lemma {:induction false} NoFlowsBeforeFirst(t: Terms, n: nat)
    requires ValidTerms(t) && n <= FirstSurvivor(t)
    ensures SurvivingFlows(t, n) == []
  {
    if n > 0 { NoFlowsBeforeFirst(t, n - 1); }
  }

  /** One surviving cashflow: its time, counted in periods from the first one, and its amount. */
  method FlowOf(t: Terms, firstIdx: nat, baseResidual: real, i: nat) returns (f: Flow)
    requires ValidTerms(t) && firstIdx == FirstSurvivor(t) <= i < |t.nominal| && baseResidual == StubYears(t)
    ensures f == FlowAt(t, i)
  {
    hide FirstSurvivor, StubYears;
    var yf := YearsAfter(baseResidual, i - firstIdx, t.frequency);
    var amount := t.coupon;
    if i == |t.nominal| - 1 {
      amount := amount + t.face;
    }
    f := Flow(yf, amount);
  }

  function FlowValue(pow: Power, y: real, frequency: nat, f: Flow): real
    requires frequency > 0
  {
    f.amount * DiscountFactor(pow, y, frequency, f.time)
  }

  predicate FlowDefined(y: real, frequency: nat, f: Flow)
    requires frequency > 0
  {
    PowDefined(PeriodFactor(y, frequency), -PeriodsIn(f.time, frequency))
  }

  /** Every discount factor of the cashflows is a finite number, and so is their sum. */
  predicate Priceable(y: real, frequency: nat, flows: seq<Flow>)
    requires frequency > 0
  {
    forall k :: 0 <= k < |flows| ==> FlowDefined(y, frequency, flows[k])
  }

  /**
    The nested pricing loops compute the present value of the surviving cashflows. `finite`
    is what the sum of doubles tells by being a number.
   */
  method CouponBondDirtyPrice(pow: Power, y: real, t: Terms) returns (sum: real, finite: bool)
    requires ValidTerms(t)
    ensures sum == DirtyPrice(pow, y, t)
    ensures finite <==> Priceable(y, t.frequency, Flows(t))
  {
    hide *;
    PriceOfSurvivors(pow, y, t);
    var n := |t.nominal|;
    var firstIdx := FindFirstSurvivor(t);
    NoFlowsBeforeFirst(t, firstIdx);
    if firstIdx == n { return 0.0, true; }
    var baseResidual := BaseResidual(t, firstIdx);
    sum, finite := 0.0, true;
    var i := firstIdx;
    while i < n
      invariant firstIdx <= i <= n
      invariant sum == PresentValue(pow, y, t.frequency, SurvivingFlows(t, i))
      invariant finite <==> Priceable(y, t.frequency, SurvivingFlows(t, i))
    {
      if t.payments[i] > t.settlement {
        var flow := FlowOf(t, firstIdx, baseResidual, i);
        SumStep(pow, y, t, i, flow);
        sum := sum + FlowValue(pow, y, t.frequency, flow);
        finite := finite && FlowDefined(y, t.frequency, flow);
      } else {
        SkipStep(t, i);
      }
      i := i + 1;
    }
  }

  /** The inner loop that adds one period at a time. */
  method YearsAfter(base: real, periods: nat, frequency: nat) returns (yf: real)
    requires frequency > 0
    ensures yf == base + periods as real / frequency as real
  {
    yf := base;
    var f := frequency as real;
    for j := 0 to periods
      invariant yf == base + j as real / f
    {
      assert (j as real + 1.0) / f == j as real / f + 1.0 / f;
      yf := yf + 1.0 / f;
    }
  }

  /** The price is the value of all surviving cashflows; of none it is zero. */
  lemma PriceOfSurvivors(pow: Power, y: real, t: Terms)
    requires ValidTerms(t)
    ensures |t.nominal| == |t.payments| && t.frequency > 0
    ensures PresentValue(pow, y, t.frequency, []) == 0.0 && Priceable(y, t.frequency, [])
    ensures DirtyPrice(pow, y, t) == PresentValue(pow, y, t.frequency, SurvivingFlows(t, |t.nominal|))
    ensures Flows(t) == SurvivingFlows(t, |t.nominal|)
  {
    hide SurvivingFlows;
  }

  lemma SkipStep(t: Terms, i: nat)
    requires ValidTerms(t) && i < |t.nominal| && t.payments[i] <= t.settlement
    ensures SurvivingFlows(t, i + 1) == SurvivingFlows(t, i)
  {
  }

  lemma SumStep(pow: Power, y: real, t: Terms, i: nat, flow: Flow)
    requires ValidTerms(t) && FirstSurvivor(t) <= i < |t.nominal| && t.payments[i] > t.settlement
    requires flow == FlowAt(t, i)
    ensures PresentValue(pow, y, t.frequency, SurvivingFlows(t, i + 1))
         == PresentValue(pow, y, t.frequency, SurvivingFlows(t, i))
            + FlowValue(pow, y, t.frequency, flow)
    ensures Priceable(y, t.frequency, SurvivingFlows(t, i + 1))
            <==> Priceable(y, t.frequency, SurvivingFlows(t, i)) && FlowDefined(y, t.frequency, flow)
  {
    hide FirstSurvivor, FlowAt, DiscountFactor, PowDefined, Priceable, PeriodFactor, PeriodsIn, PresentValue;
    AppendFlow(pow, y, t.frequency, SurvivingFlows(t, i), SurvivingFlows(t, i + 1), flow);
  }

  lemma AppendFlow(pow: Power, y: real, frequency: nat, flows: seq<Flow>, longer: seq<Flow>, f: Flow)
    requires frequency > 0 && longer == flows + [f]
    ensures PresentValue(pow, y, frequency, longer)
         == PresentValue(pow, y, frequency, flows) + FlowValue(pow, y, frequency, f)
    ensures Priceable(y, frequency, longer)
            <==> Priceable(y, frequency, flows) && FlowDefined(y, frequency, f)
  {
    hide DiscountFactor, PowDefined, Priceable, PeriodFactor, PeriodsIn;
    PresentValueAppend(pow, y, frequency, flows, f);
    PriceableAppend(y, frequency, flows, f);
  }

  lemma PriceableAppend(y: real, frequency: nat, flows: seq<Flow>, f: Flow)
    requires frequency > 0
    ensures Priceable(y, frequency, flows + [f])
            <==> Priceable(y, frequency, flows) && FlowDefined(y, frequency, f)
  {
    hide FlowDefined;
    assert forall k :: 0 <= k < |flows| ==> (flows + [f])[k] == flows[k];
    assert (flows + [f])[|flows|] == f;
  }

  lemma PresentValueAppend(pow: Power, y: real, frequency: nat, flows: seq<Flow>, f: Flow)
    requires frequency > 0
    ensures PresentValue(pow, y, frequency, flows + [f])
         == PresentValue(pow, y, frequency, flows)
            + f.amount * DiscountFactor(pow, y, frequency, f.time)
  {
    assert (flows + [f])[..|flows|] == flows;
  }

  // ---------- Price and yield ----------

  lemma FractionNonneg(k: nat, f: nat)
    requires f > 0
    ensures k as real / f as real >= 0.0
    ensures k > 0 ==> k as real / f as real > 0.0
    ensures (k as real / f as real) * f as real == k as real
  {
  }

  /** Discount factors fall with yield, strictly so exactly at positive times. */
  lemma DiscountFactorOrder(pow: Power, y1: real, y2: real, frequency: nat, time: real)
    requires PowerLaws(pow) && frequency > 0 && time >= 0.0
    requires y1 < y2 && PeriodFactor(y1, frequency) > 0.0
    ensures DiscountFactor(pow, y1, frequency, time) > 0.0
    ensures DiscountFactor(pow, y2, frequency, time) <= DiscountFactor(pow, y1, frequency, time)
    ensures DiscountFactor(pow, y2, frequency, time) < DiscountFactor(pow, y1, frequency, time)
            <==> time > 0.0
  {
    var f := frequency as real;
    QuotientOrder(y1, y2, f);
    var x := -time * f;
    if time > 0.0 {
      assert x < 0.0;
    } else {
      assert x == 0.0;
    }
  }

  ghost predicate PaysLater(flows: seq<Flow>) {
    exists k :: 0 <= k < |flows| && flows[k].time > 0.0 && flows[k].amount > 0.0
  }

  ghost predicate Nonnegative(flows: seq<Flow>) {
    forall k :: 0 <= k < |flows| ==> flows[k].time >= 0.0 && flows[k].amount >= 0.0
  }

  lemma {:induction false} PresentValueOrder(pow: Power, y1: real, y2: real, frequency: nat, flows: seq<Flow>)
    requires PowerLaws(pow) && frequency > 0 && Nonnegative(flows)
    requires y1 < y2 && PeriodFactor(y1, frequency) > 0.0
    ensures PresentValue(pow, y2, frequency, flows) <= PresentValue(pow, y1, frequency, flows)
    ensures PresentValue(pow, y2, frequency, flows) < PresentValue(pow, y1, frequency, flows)
            <==> PaysLater(flows)
  {
    hide PowerLaws, DiscountFactor, PaysLater;
    if flows == [] {
      assert !PaysLater(flows) by { NothingToPay(flows); }
    } else {
      var n := |flows| - 1;
      var rest, last := flows[..n], flows[n];
      PresentValueOrder(pow, y1, y2, frequency, rest);
      DiscountFactorOrder(pow, y1, y2, frequency, last.time);
      TermOrder(last.amount, DiscountFactor(pow, y2, frequency, last.time),
                DiscountFactor(pow, y1, frequency, last.time));
      PaysLaterSplit(flows);
      var r1, r2 := PresentValue(pow, y1, frequency, rest), PresentValue(pow, y2, frequency, rest);
      var t1 := last.amount * DiscountFactor(pow, y1, frequency, last.time);
      var t2 := last.amount * DiscountFactor(pow, y2, frequency, last.time);
      assert PresentValue(pow, y1, frequency, flows) == r1 + t1;
      assert PresentValue(pow, y2, frequency, flows) == r2 + t2;
      SumOrder(r1, r2, t1, t2);
    }
  }

  lemma SumOrder(r1: real, r2: real, t1: real, t2: real)
    requires r2 <= r1 && t2 <= t1
    ensures r2 + t2 <= r1 + t1
    ensures r2 + t2 < r1 + t1 <==> r2 < r1 || t2 < t1
  {
  }

  lemma TermOrder(amount: real, low: real, high: real)
    requires amount >= 0.0 && low <= high
    ensures amount * low <= amount * high
    ensures amount * low < amount * high <==> amount > 0.0 && low < high
  {
    assert amount * high - amount * low == amount * (high - low);
  }

  lemma NothingToPay(flows: seq<Flow>)
    requires flows == []
    ensures !PaysLater(flows)
  {
  }

  lemma PaysLaterSplit(flows: seq<Flow>)
    requires flows != []
    ensures var n := |flows| - 1;
      PaysLater(flows) <==> PaysLater(flows[..n]) || (flows[n].time > 0.0 && flows[n].amount > 0.0)
  {
    var n := |flows| - 1;
    if PaysLater(flows) {
      var k :| 0 <= k < |flows| && flows[k].time > 0.0 && flows[k].amount > 0.0;
      if k < n { assert flows[..n][k] == flows[k]; }
    }
    if PaysLater(flows[..n]) {
      var k :| 0 <= k < n && flows[..n][k].time > 0.0 && flows[..n][k].amount > 0.0;
      assert flows[k] == flows[..n][k];
    }
  }

  lemma {:induction false} FlowsNonnegative(t: Terms, n: nat)
    requires ValidTerms(t) && t.coupon >= 0.0 && t.face > 0.0 && n <= |t.nominal|
    ensures Nonnegative(SurvivingFlows(t, n))
  {
    hide FirstSurvivor, StubYears;
    if n > 0 {
      FlowsNonnegative(t, n - 1);
      if t.payments[n - 1] > t.settlement {
        FractionNonneg(n - 1 - FirstSurvivor(t), t.frequency);
      }
    }
  }

  /**
    The dirty price never rises with yield, and falls strictly exactly when some surviving
    cashflow lies at a positive time.
   */
  lemma DirtyPriceDecreasing(pow: Power, y1: real, y2: real, t: Terms)
    requires PowerLaws(pow) && ValidTerms(t) && t.coupon >= 0.0 && t.face > 0.0
    requires y1 < y2 && PeriodFactor(y1, t.frequency) > 0.0
    ensures DirtyPrice(pow, y2, t) <= DirtyPrice(pow, y1, t)
    ensures DirtyPrice(pow, y2, t) < DirtyPrice(pow, y1, t) <==> PaysLater(Flows(t))
  {
    hide PowerLaws;
    FlowsNonnegative(t, |t.nominal|);
    PresentValueOrder(pow, y1, y2, t.frequency, Flows(t));
  }

  /** Payment dates in order, as business-day adjustment of an ascending schedule leaves them. */
  ghost predicate InOrder(t: Terms) {
    && Ascending(t.nominal)
    && |t.payments| == |t.nominal|
    && (forall i, j :: 0 <= i < j < |t.payments| ==> t.payments[i] <= t.payments[j])
    && (forall i :: 0 <= i < |t.payments| ==> t.nominal[i] <= t.payments[i])
  }

  /** With payments in order, the surviving cashflows are one suffix of the schedule. */
  lemma {:induction false} SurvivorsAreSuffix(t: Terms, n: nat)
    requires ValidTerms(t) && InOrder(t) && FirstSurvivor(t) <= n <= |t.nominal|
    ensures |SurvivingFlows(t, n)| == n - FirstSurvivor(t)
    ensures forall i :: FirstSurvivor(t) <= i < n ==> SurvivingFlows(t, n)[i - FirstSurvivor(t)] == FlowAt(t, i)
  {
    hide FlowAt;
    var first := FirstSurvivor(t);
    if n == first {
      NoFlowsBeforeFirst(t, n);
    } else {
      SurvivorsAreSuffix(t, n - 1);
      assert t.payments[n - 1] >= t.payments[first] > t.settlement;
    }
  }

  /** When the price depends on the yield: two payments are left, or one that is not yet due. */
  lemma PaysLaterIff(t: Terms)
    requires ValidTerms(t) && InOrder(t) && t.coupon > 0.0 && t.face > 0.0
    ensures PaysLater(Flows(t))
            <==> FirstSurvivor(t) < |t.nominal|
                 && (FirstSurvivor(t) + 1 < |t.nominal| || StubYears(t) > 0.0)
  {
    hide FirstSurvivor, StubYears;
    var first, n := FirstSurvivor(t), |t.nominal|;
    SurvivorsAreSuffix(t, n);
    FlowsNonnegative(t, n);
    if first < n {
      FractionNonneg(n - 1 - first, t.frequency);
      assert Flows(t)[n - 1 - first] == FlowAt(t, n - 1);
    }
  }

  /**
    When a coupon bond has a price at all: at a positive period factor always, at a negative
    one when the stub is a whole number of periods, at zero when one payment is left and due.
   */
  lemma PriceableIff(y: real, t: Terms)
    requires ValidTerms(t) && InOrder(t) && FirstSurvivor(t) < |t.nominal|
    ensures var b := PeriodFactor(y, t.frequency); var w := PeriodsIn(StubYears(t), t.frequency);
      Priceable(y, t.frequency, Flows(t))
      <==> b > 0.0 || (b < 0.0 && w == w.Floor as real)
           || (b == 0.0 && w == 0.0 && FirstSurvivor(t) + 1 == |t.nominal|)
  {
    hide FirstSurvivor, StubYears, PowDefined;
    var first, n := FirstSurvivor(t), |t.nominal|;
    var b, w := PeriodFactor(y, t.frequency), PeriodsIn(StubYears(t), t.frequency);
    SurvivorsAreSuffix(t, n);
    assert w >= 0.0 by { ProductNonneg(StubYears(t), t.frequency as real); }
    forall k | 0 <= k < n - first
      ensures FlowDefined(y, t.frequency, Flows(t)[k])
              <==> b > 0.0 || (b < 0.0 && w == w.Floor as real) || (b == 0.0 && w + k as real == 0.0)
    {
      assert Flows(t)[k] == Flows(t)[(first + k) - first] == FlowAt(t, first + k);
      PeriodsOfFlow(StubYears(t), k, t.frequency);
      ShiftedPower(b, w, k);
    }
    var last := n - 1 - first;
    assert Priceable(y, t.frequency, Flows(t)) ==> FlowDefined(y, t.frequency, Flows(t)[last]);
  }

  lemma PeriodsOfFlow(stub: real, k: nat, frequency: nat)
    requires frequency > 0
    ensures PeriodsIn(stub + k as real / frequency as real, frequency) == PeriodsIn(stub, frequency) + k as real
  {
    FractionNonneg(k, frequency);
  }

  lemma ShiftedPower(b: real, w: real, k: nat)
    requires w >= 0.0
    ensures PowDefined(b, -(w + k as real))
            <==> b > 0.0 || (b < 0.0 && w == w.Floor as real) || (b == 0.0 && w + k as real == 0.0)
  {
    var x := -(w + k as real);
    if w == w.Floor as real {
      assert x == (-w.Floor - k) as real;
    }
    if x == x.Floor as real {
      assert w == (-x.Floor - k) as real;
    }
  }

  /** Central difference over one basis point. */
  function Dv01(pDown: real, pUp: real): real {
    (pDown - pUp) * 0.5
  }

  const BASIS_POINT: real := 0.0001

  lemma Dv01Positive(pow: Power, y: real, t: Terms)
    requires PowerLaws(pow) && ValidTerms(t) && t.coupon >= 0.0 && t.face > 0.0
    requires PeriodFactor(y - BASIS_POINT, t.frequency) > 0.0
    ensures var d := Dv01(DirtyPrice(pow, y - BASIS_POINT, t), DirtyPrice(pow, y + BASIS_POINT, t));
      d >= 0.0 && (d > 0.0 <==> PaysLater(Flows(t)))
  {
    hide PowerLaws;
    DirtyPriceDecreasing(pow, y - BASIS_POINT, y + BASIS_POINT, t);
  }

  // ---------- Settlement on a coupon date ----------

  /** Sum of the first `m` powers of the one-period discount factor 1/b. */
  function Annuity(b: real, m: nat): real
    requires b > 0.0
  {
    if m == 0 then 0.0
    else IntPowPositive(b, m); Annuity(b, m - 1) + 1.0 / IntPow(b, m)
  }

  lemma {:induction false} AnnuityTelescopes(b: real, m: nat)
    requires b > 0.0
    ensures IntPow(b, m) > 0.0
    ensures (b - 1.0) * Annuity(b, m) + 1.0 / IntPow(b, m) == 1.0
    ensures m > 0 ==> Annuity(b, m) > 0.0
    ensures Annuity(b, m) >= 0.0
  {
    IntPowPositive(b, m);
    if m > 0 {
      AnnuityTelescopes(b, m - 1);
      AnnuityAlgebra(b, IntPow(b, m - 1), Annuity(b, m - 1), IntPow(b, m), Annuity(b, m));
    }
  }

  lemma AnnuityAlgebra(b: real, p: real, a: real, p': real, a': real)
    requires b > 0.0 && p > 0.0 && a >= 0.0 && (b - 1.0) * a + 1.0 / p == 1.0
    requires p' == b * p && p' > 0.0 && a' == a + 1.0 / p'
    ensures (b - 1.0) * a' + 1.0 / p' == 1.0 && a' > 0.0
  {
    var q := 1.0 / p';
    ReciprocalStep(b, p);
    assert (b - 1.0) * (a + q) == (b - 1.0) * a + b * q - q;
  }

  /** Settlement falls on the `k`-th coupon date, whose own payment is no longer included. */
  ghost predicate OnCouponDate(t: Terms, k: nat) {
    && ValidTerms(t) && InOrder(t) && k + 1 < |t.nominal|
    && t.settlement == t.nominal[k] == t.payments[k]
  }

  lemma CouponDateStub(t: Terms, k: nat)
    requires OnCouponDate(t, k)
    ensures FirstSurvivor(t) == k + 1
    ensures StubYears(t) == 1.0 / t.frequency as real
  {
    hide ActActBondIsma, AddMonths;
    assert t.payments[k + 1] >= t.nominal[k + 1] > t.nominal[k];
  }

  lemma CouponDateDiscount(pow: Power, y: real, t: Terms, k: nat, i: nat)
    requires PowerLaws(pow) && OnCouponDate(t, k) && k < i < |t.nominal|
    requires PeriodFactor(y, t.frequency) > 0.0
    ensures FirstSurvivor(t) <= i
    ensures var b := PeriodFactor(y, t.frequency);
      IntPow(b, i - k) > 0.0
      && DiscountFactor(pow, y, t.frequency, FlowAt(t, i).time) == 1.0 / IntPow(b, i - k)
  {
    hide PowerLaws, IntPow, FlowAt, FirstSurvivor, InOrder, DiscountFactor;
    CouponFlowTime(t, k, i);
    WholePeriods(i - k, t.frequency as real, FlowAt(t, i).time);
    DiscountWholePeriods(pow, y, t.frequency, FlowAt(t, i).time, i - k);
  }

  lemma CouponFlowTime(t: Terms, k: nat, i: nat)
    requires OnCouponDate(t, k) && k < i < |t.nominal|
    ensures ValidTerms(t) && FirstSurvivor(t) <= i
    ensures FlowAt(t, i).time == 1.0 / t.frequency as real + (i - k - 1) as real / t.frequency as real
  {
    hide FirstSurvivor, StubYears, InOrder;
    CouponDateStub(t, k);
  }

  lemma DiscountWholePeriods(pow: Power, y: real, frequency: nat, time: real, n: nat)
    requires PowerLaws(pow) && frequency > 0 && PeriodFactor(y, frequency) > 0.0
    requires -time * frequency as real == -(n as real)
    ensures IntPow(PeriodFactor(y, frequency), n) > 0.0
    ensures DiscountFactor(pow, y, frequency, time) == 1.0 / IntPow(PeriodFactor(y, frequency), n)
  {
    hide PowerLaws, IntPow;
    PowerAtInteger(pow, PeriodFactor(y, frequency), n);
  }

  lemma WholePeriods(n: nat, f: real, time: real)
    requires f > 0.0 && n > 0 && time == 1.0 / f + (n - 1) as real / f
    ensures -time * f == -(n as real)
  {
    var x := (n - 1) as real;
    assert 1.0 / f + x / f == (1.0 + x) / f;
    assert (1.0 + x) / f * f == 1.0 + x;
  }

  lemma {:induction false} CouponDateLoop(pow: Power, y: real, t: Terms, k: nat, n: nat)
    requires PowerLaws(pow) && OnCouponDate(t, k) && k < n < |t.nominal|
    requires PeriodFactor(y, t.frequency) > 0.0
    ensures PresentValue(pow, y, t.frequency, SurvivingFlows(t, n))
         == t.coupon * Annuity(PeriodFactor(y, t.frequency), n - k - 1)
  {
    hide FirstSurvivor, StubYears, PowerLaws, InOrder, PresentValue, SurvivingFlows, Annuity, IntPow;
    var b := PeriodFactor(y, t.frequency);
    if n == k + 1 {
      CouponDateStart(pow, y, t, k);
    } else {
      CouponDateLoop(pow, y, t, k, n - 1);
      CouponDateTerm(pow, y, t, k, n - 1);
      AnnuityStep(b, n - k - 1);
      Distribute(t.coupon, Annuity(b, n - k - 2), 1.0 / IntPow(b, n - k - 1));
    }
  }

  lemma CouponDateStart(pow: Power, y: real, t: Terms, k: nat)
    requires OnCouponDate(t, k) && PeriodFactor(y, t.frequency) > 0.0
    ensures PresentValue(pow, y, t.frequency, SurvivingFlows(t, k + 1))
         == t.coupon * Annuity(PeriodFactor(y, t.frequency), 0)
  {
    CouponDateStub(t, k);
    NoFlowsBeforeFirst(t, k + 1);
    hide FirstSurvivor, StubYears, InOrder;
  }

  /** The `i`-th pass adds one coupon, discounted over `i - k` periods. */
  lemma CouponDateTerm(pow: Power, y: real, t: Terms, k: nat, i: nat)
    requires PowerLaws(pow) && OnCouponDate(t, k) && k < i < |t.nominal| - 1
    requires PeriodFactor(y, t.frequency) > 0.0
    ensures IntPow(PeriodFactor(y, t.frequency), i - k) > 0.0
    ensures PresentValue(pow, y, t.frequency, SurvivingFlows(t, i + 1))
         == PresentValue(pow, y, t.frequency, SurvivingFlows(t, i))
            + t.coupon * (1.0 / IntPow(PeriodFactor(y, t.frequency), i - k))
  {
    hide FirstSurvivor, StubYears, DiscountFactor, PowerLaws, InOrder;
    CouponDateStub(t, k);
    CouponDateDiscount(pow, y, t, k, i);
    CouponDatePaid(t, k, i);
    PresentValueAppend(pow, y, t.frequency, SurvivingFlows(t, i), FlowAt(t, i));
  }

  lemma CouponDatePaid(t: Terms, k: nat, i: nat)
    requires OnCouponDate(t, k) && k < i < |t.nominal|
    ensures t.payments[i] > t.settlement
  {
    assert t.payments[i] >= t.nominal[i] > t.nominal[k];
  }

  /**
    On a coupon date the pricing loop is the annuity closed form, so the price stands above,
    at or below par exactly as the coupon rate stands to the yield.
   */
  lemma CouponDateParity(pow: Power, y: real, t: Terms, k: nat, couponRate: real)
    requires PowerLaws(pow) && OnCouponDate(t, k) && t.face > 0.0
    requires t.coupon == couponRate * t.face / t.frequency as real
    requires PeriodFactor(y, t.frequency) > 0.0
    ensures var b := PeriodFactor(y, t.frequency);
      DirtyPrice(pow, y, t) - t.face
      == (couponRate - y) * (t.face / t.frequency as real * Annuity(b, |t.nominal| - 1 - k))
    ensures DirtyPrice(pow, y, t) > t.face <==> couponRate > y
    ensures DirtyPrice(pow, y, t) == t.face <==> couponRate == y
  {
    hide PowerLaws, InOrder, IntPow, DirtyPrice, Annuity;
    var f := t.frequency as real;
    var b, m := 1.0 + y / f, |t.nominal| - 1 - k;
    CouponDatePrice(pow, y, t, k);
    AnnuityTelescopes(b, m);
    AnnuityStep(b, m);
    ParityAlgebra(couponRate, y, t.face, f, t.coupon, Annuity(b, m), 1.0 / IntPow(b, m));
    SignOfProduct(couponRate - y, t.face / f * Annuity(b, m));
  }

  /** One period before maturity the central difference over one basis point has a closed form. */
  lemma OnePeriodDv01(pow: Power, y: real, t: Terms)
    requires PowerLaws(pow) && |t.nominal| >= 2 && OnCouponDate(t, |t.nominal| - 2)
    requires PeriodFactor(y - 0.0001, t.frequency) > 0.0
    ensures var d := Dv01(DirtyPrice(pow, y - BASIS_POINT, t), DirtyPrice(pow, y + BASIS_POINT, t));
      d * ((1.0 + (y - 0.0001) / t.frequency as real) * (1.0 + (y + 0.0001) / t.frequency as real))
      == (t.coupon + t.face) * (0.0001 / t.frequency as real)
  {
    var f := t.frequency as real;
    QuotientOrder(y - 0.0001, y + 0.0001, f);
    var p, q := 1.0 + (y - 0.0001) / f, 1.0 + (y + 0.0001) / f;
    assert q - p == 2.0 * (0.0001 / f);
    OnePeriodPrice(pow, y - 0.0001, t);
    OnePeriodPrice(pow, y + 0.0001, t);
    hide PowerLaws, OnCouponDate, DirtyPrice;
    HalfDifference(t.coupon + t.face, p, q, 0.0001 / f);
  }

  lemma OnePeriodPrice(pow: Power, y: real, t: Terms)
    requires PowerLaws(pow) && |t.nominal| >= 2 && OnCouponDate(t, |t.nominal| - 2)
    requires PeriodFactor(y, t.frequency) > 0.0
    ensures t.frequency > 0 && 1.0 + y / t.frequency as real > 0.0
    ensures DirtyPrice(pow, y, t) == (t.coupon + t.face) / (1.0 + y / t.frequency as real)
  {
    CouponDatePrice(pow, y, t, |t.nominal| - 2);
    IntPowOne(PeriodFactor(y, t.frequency));
    TimesReciprocal(t.coupon + t.face, PeriodFactor(y, t.frequency));
    hide PowerLaws, OnCouponDate, DirtyPrice, IntPow;
    assert t.coupon * 0.0 == 0.0;
  }

  lemma HalfDifference(amount: real, p: real, q: real, bump: real)
    requires p != 0.0 && q != 0.0 && q - p == 2.0 * bump
    ensures Dv01(amount / p, amount / q) * (p * q) == amount * bump
  {
    var u, v := amount / p, amount / q;
    assert u * p == amount && v * q == amount;
    assert u * (p * q) == amount * q && v * (p * q) == amount * p;
    assert (u - v) * (p * q) == u * (p * q) - v * (p * q);
    assert amount * q - amount * p == amount * (q - p);
    assert (u - v) * 0.5 * (p * q) == (u - v) * (p * q) * 0.5;
  }

  // ---------- A coupon date whose payment is still to come ----------

  /** Settlement falls on the `k`-th coupon date, whose payment a holiday has put off. */
  ghost predicate OnUnpaidCouponDate(t: Terms, k: nat) {
    && ValidTerms(t) && InOrder(t) && k + 1 < |t.nominal|
    && t.settlement == t.nominal[k] < t.payments[k]
    && (k > 0 ==> t.payments[k - 1] <= t.settlement)
  }

  /** The same terms with the `k`-th coupon already paid. */
  function WithPaid(t: Terms, k: nat): Terms
    requires k < |t.nominal| == |t.payments|
  {
    t.(payments := t.payments[k := t.nominal[k]])
  }

  lemma PaidOnCouponDate(t: Terms, k: nat)
    requires OnUnpaidCouponDate(t, k)
    ensures OnCouponDate(WithPaid(t, k), k)
  {
    var u := WithPaid(t, k);
    forall i, j | 0 <= i < j < |u.payments|
      ensures u.payments[i] <= u.payments[j]
    {
      assert i < k ==> t.payments[i] <= t.payments[k - 1];
      assert j > k ==> t.nominal[k] < t.nominal[j] <= t.payments[j];
    }
  }

  lemma UnpaidCouponStub(t: Terms, k: nat)
    requires OnUnpaidCouponDate(t, k)
    ensures FirstSurvivor(t) == k && StubYears(t) == 0.0
  {
    hide AddMonths;
    assert forall i :: 0 <= i < k ==> t.payments[i] <= t.payments[k - 1];
  }

  lemma FlowsIndex(t: Terms, j: nat)
    requires ValidTerms(t) && InOrder(t) && FirstSurvivor(t) + j < |t.nominal|
    ensures |Flows(t)| == |t.nominal| - FirstSurvivor(t) && Flows(t)[j] == FlowAt(t, FirstSurvivor(t) + j)
  {
    hide SurvivingFlows, FlowAt;
    SurvivorsAreSuffix(t, |t.nominal|);
    var i := FirstSurvivor(t) + j;
    assert Flows(t)[i - FirstSurvivor(t)] == FlowAt(t, i);
  }

  /** Terms before and after the put-off payment, side by side. */
  lemma UnpaidFacts(t: Terms, k: nat)
    requires OnUnpaidCouponDate(t, k)
    ensures ValidTerms(t) && InOrder(t) && FirstSurvivor(t) == k && StubYears(t) == 0.0 && t.frequency > 0
    ensures k + 1 < |t.nominal| == |t.payments|
    ensures var u := WithPaid(t, k);
      && OnCouponDate(u, k) && ValidTerms(u) && InOrder(u) && FirstSurvivor(u) == k + 1
      && StubYears(u) == 1.0 / t.frequency as real
      && |u.nominal| == |t.nominal| > k + 1 && u.frequency == t.frequency && u.coupon == t.coupon && u.face == t.face
  {
    PaidOnCouponDate(t, k);
    UnpaidCouponStub(t, k);
    CouponDateStub(WithPaid(t, k), k);
    hide StubYears, FirstSurvivor;
  }

  lemma FlowAtIs(t: Terms, i: nat, first: nat, stub: real)
    requires ValidTerms(t) && FirstSurvivor(t) == first <= i < |t.nominal| && StubYears(t) == stub
    ensures FlowAt(t, i) == Flow(stub + (i - first) as real / t.frequency as real,
                                 if i == |t.nominal| - 1 then t.coupon + t.face else t.coupon)
  {
    hide StubYears, FirstSurvivor;
  }

  /** A later coupon is as far away as if the unpaid one had been paid. */
  lemma UnpaidLaterFlow(t: Terms, k: nat, j: nat)
    requires OnUnpaidCouponDate(t, k) && k + 1 + j < |t.nominal|
    ensures ValidTerms(t) && ValidTerms(WithPaid(t, k))
    ensures j < |Flows(WithPaid(t, k))| == |t.nominal| - k - 1 && |Flows(t)| == |t.nominal| - k
    ensures Flows(t)[j + 1] == Flows(WithPaid(t, k))[j]
  {
    hide *;
    UnpaidFacts(t, k);
    FlowsIndex(t, j + 1);
    FlowsIndex(WithPaid(t, k), j);
    FlowAtIs(t, k + 1 + j, k, 0.0);
    FlowAtIs(WithPaid(t, k), k + 1 + j, k + 1, 1.0 / t.frequency as real);
    PeriodsAdd(j, t.frequency);
  }

  /** The unpaid coupon comes first, at no distance; the rest is as if it had been paid. */
  lemma UnpaidCouponFlows(t: Terms, k: nat)
    requires OnUnpaidCouponDate(t, k)
    ensures ValidTerms(t) && ValidTerms(WithPaid(t, k))
    ensures Flows(t) == [Flow(0.0, t.coupon)] + Flows(WithPaid(t, k))
  {
    hide *;
    UnpaidFacts(t, k);
    FlowsIndex(t, 0);
    FlowAtIs(t, k, k, 0.0);
    UnpaidLaterFlow(t, k, 0);
    var all := [Flow(0.0, t.coupon)] + Flows(WithPaid(t, k));
    forall i | 0 <= i < |all|
      ensures Flows(t)[i] == all[i]
    {
      if i > 0 { UnpaidLaterFlow(t, k, i - 1); }
    }
  }

  lemma PeriodsAdd(j: nat, f: nat)
    requires f > 0
    ensures (j + 1) as real / f as real == 1.0 / f as real + j as real / f as real
  {
  }

  lemma {:induction false} PresentValuePrepend(pow: Power, y: real, frequency: nat, first: Flow, flows: seq<Flow>)
    requires frequency > 0
    ensures PresentValue(pow, y, frequency, [first] + flows)
         == FlowValue(pow, y, frequency, first) + PresentValue(pow, y, frequency, flows)
    decreases |flows|
  {
    hide FlowValue, DiscountFactor;
    if flows == [] {
      assert [first] + flows == [] + [first];
      AppendFlow(pow, y, frequency, [], [first] + flows, first);
    } else {
      var n := |flows| - 1;
      PresentValuePrepend(pow, y, frequency, first, flows[..n]);
      assert flows == flows[..n] + [flows[n]];
      assert [first] + flows == [first] + flows[..n] + [flows[n]];
      AppendFlow(pow, y, frequency, flows[..n], flows, flows[n]);
      AppendFlow(pow, y, frequency, [first] + flows[..n], [first] + flows, flows[n]);
    }
  }

  /** Until it is paid, the coupon is priced in full on top of what the bond is worth without it. */
  lemma UnpaidCouponPrice(pow: Power, y: real, t: Terms, k: nat)
    requires PowerLaws(pow) && OnUnpaidCouponDate(t, k) && PeriodFactor(y, t.frequency) > 0.0
    ensures OnCouponDate(WithPaid(t, k), k)
    ensures DirtyPrice(pow, y, t) == t.coupon + DirtyPrice(pow, y, WithPaid(t, k))
  {
    hide *;
    UnpaidFacts(t, k);
    UnpaidCouponFlows(t, k);
    var u := WithPaid(t, k);
    PriceOfFlows(pow, y, t);
    PriceOfFlows(pow, y, u);
    PresentValuePrepend(pow, y, t.frequency, Flow(0.0, t.coupon), Flows(u));
    ValueOfDue(pow, y, t.frequency, t.coupon);
  }

  lemma PriceOfFlows(pow: Power, y: real, t: Terms)
    requires ValidTerms(t)
    ensures t.frequency > 0 && DirtyPrice(pow, y, t) == PresentValue(pow, y, t.frequency, Flows(t))
  {
  }

  lemma ValueOfDue(pow: Power, y: real, frequency: nat, amount: real)
    requires PowerLaws(pow) && frequency > 0 && PeriodFactor(y, frequency) > 0.0
    ensures FlowValue(pow, y, frequency, Flow(0.0, amount)) == amount
  {
    assert DiscountFactor(pow, y, frequency, 0.0) == 1.0;
  }

  lemma AnnuityStep(b: real, m: nat)
    requires b > 0.0 && m > 0
    ensures IntPow(b, m) > 0.0 && Annuity(b, m - 1) == Annuity(b, m) - 1.0 / IntPow(b, m)
  {
    IntPowPositive(b, m);
  }

  lemma CouponDatePrice(pow: Power, y: real, t: Terms, k: nat)
    requires PowerLaws(pow) && OnCouponDate(t, k)
    requires PeriodFactor(y, t.frequency) > 0.0
    ensures var b := PeriodFactor(y, t.frequency); var m := |t.nominal| - 1 - k;
      IntPow(b, m) > 0.0
      && DirtyPrice(pow, y, t) == t.coupon * Annuity(b, m - 1)
                                  + (t.coupon + t.face) * (1.0 / IntPow(b, m))
  {
    hide FirstSurvivor, StubYears, DiscountFactor, PowerLaws, InOrder, IntPow, PresentValue;
    var n := |t.nominal|;
    var b := PeriodFactor(y, t.frequency);
    CouponDateStub(t, k);
    CouponDateLoop(pow, y, t, k, n - 1);
    CouponDateDiscount(pow, y, t, k, n - 1);
    CouponDatePaid(t, k, n - 1);
    PresentValueAppend(pow, y, t.frequency, SurvivingFlows(t, n - 1), FlowAt(t, n - 1));
    assert n - 1 - k - 1 == n - k - 2;
  }

  lemma ParityAlgebra(c: real, y: real, face: real, f: real, coupon: real, a: real, v: real)
    requires f > 0.0 && face > 0.0 && coupon == c * face / f && a > 0.0
    requires (1.0 + y / f - 1.0) * a + v == 1.0
    ensures coupon * (a - v) + (coupon + face) * v - face == (c - y) * (face / f * a)
    ensures face / f * a > 0.0
  {
    var g := face / f;
    assert g > 0.0;
    assert c * face / f == c * g;
    assert face * ((y / f) * a) == y * (g * a) by { assert face * (y / f) == y * g; }
    assert face * v == face - face * ((y / f) * a);
    assert (c - y) * (g * a) == c * (g * a) - y * (g * a);
    assert coupon * a == c * (g * a);
  }

}
