/**
  Treasury-futures delivery: `futures_math.cpp` and the analysis of `futures_api.cpp`.
 */
module Futures {
  import opened Integers
  import opened Options
  import opened Reals
  import opened CivilCalendar
  import opened Pricing

  /** A double that may be not-a-number. */
  datatype Double = NaN | Number(value: real)

  // ---------- Rounding ----------

  function TenTo(places: nat): (r: real)
    ensures r > 0.0
  {
    if places == 0 then 1.0 else 10.0 * TenTo(places - 1)
  }

  /** `std::round`: to the nearest integer, halves away from zero. */
  function RoundHalfAway(x: real): int {
    if x >= 0.0 then (x + 0.5).Floor else -((-x + 0.5).Floor)
  }

  function RoundAtScale(value: real, scale: real): real
    requires scale > 0.0
  {
    RoundHalfAway(value * scale) as real / scale
  }

  function RoundTo(value: real, places: nat): Double {
    if places > 12 then NaN else Number(RoundAtScale(value, TenTo(places)))
  }

  /** Rounding moves a value by at most half a unit of the last place. */
  lemma RoundingError(value: real, places: nat)
    requires places <= 12
    ensures Abs(RoundTo(value, places).value - value) <= 0.5 / TenTo(places)
  {
    ScaledRoundingError(value, TenTo(places));
    hide RoundAtScale;
  }

  lemma ScaledRoundingError(value: real, scale: real)
    requires scale > 0.0
    ensures Abs(RoundAtScale(value, scale) - value) <= 0.5 / scale
  {
    NearestInteger(value * scale);
    hide RoundHalfAway;
    Unscale(value, scale, RoundHalfAway(value * scale) as real);
  }

  lemma NearestInteger(x: real)
    ensures x - 0.5 <= RoundHalfAway(x) as real <= x + 0.5
  {
  }

  lemma Unscale(value: real, scale: real, r: real)
    requires scale > 0.0 && value * scale - 0.5 <= r <= value * scale + 0.5
    ensures Abs(r / scale - value) <= 0.5 / scale
  {
    var h := 0.5 / scale;
    assert h * scale == 0.5;
    assert (value - h) * scale == value * scale - 0.5;
    assert (value + h) * scale == value * scale + 0.5;
    QuotientMonotone((value - h) * scale, r, scale);
    QuotientMonotone(r, (value + h) * scale, scale);
    assert (value - h) * scale / scale == value - h;
    assert (value + h) * scale / scale == value + h;
  }

  lemma {:induction false} TenToPower(places: nat)
    ensures TenTo(places) == IntPow(10.0, places)
  {
    if places > 0 { TenToPower(places - 1); }
  }

  /** Integers stay, halves move away from zero, and rounding is odd: with `NearestInteger`, all of it. */
  lemma RoundingTies(x: real, k: nat)
    ensures RoundHalfAway(-x) == -RoundHalfAway(x)
    ensures RoundHalfAway(k as real) == k && RoundHalfAway(k as real + 0.5) == k + 1
  {
  }

  // ---------- Conversion factor ----------

  /** Months to the next coupon, in coupon periods. */
  function StubPeriods(months: nat, frequency: nat): real {
    months as real * frequency as real / 12.0
  }

  /** Months add up, and the months of one period are exactly one period. */
  lemma StubOfWholePeriod(months: nat, more: nat, frequency: nat)
    requires 0 < frequency <= 12
    ensures StubPeriods(months + more, frequency) == StubPeriods(months, frequency) + StubPeriods(more, frequency)
    ensures 12 % frequency == 0 ==> StubPeriods(PeriodMonths(frequency), frequency) == 1.0
  {
    var f := frequency as real;
    assert (months + more) as real * f == months as real * f + more as real * f;
    var q := 12 / frequency;
    if 12 % frequency == 0 {
      assert q * frequency == 12;
      assert q as real * f == 12.0;
    }
  }

  /** The closed form, from the stub discount `w` and the discount `v` over `n - 1` periods. */
  function FactorValue(couponRate: real, nominal: real, f: real, stub: real, w: real, v: real): real
    requires nominal > 0.0 && f > 0.0
  {
    w * (couponRate / f + couponRate / nominal + (1.0 - couponRate / nominal) * v)
    - couponRate / f * (1.0 - stub)
  }

  /** The conversion factor before rounding. */
  function ClosedFormFactor(pow: Power, couponRate: real, nominal: real, frequency: nat, months: nat, n: nat): Double {
    if nominal <= 0.0 || frequency == 0 || n == 0 then NaN
    else
      var base, stub := PeriodFactor(nominal, frequency), StubPeriods(months, frequency);
      Number(FactorValue(couponRate, nominal, frequency as real, stub,
                         pow(base, -stub), pow(base, -(n as real - 1.0))))
  }

  function ConversionFactor(pow: Power, couponRate: real, nominal: real, frequency: nat, months: nat, n: nat, places: nat): Double {
    match ClosedFormFactor(pow, couponRate, nominal, frequency, months, n)
    case NaN => NaN
    case Number(x) => RoundTo(x, places)
  }

  /** The `n` coupons still to come, each discounted from its own date. */
  function DiscountedCoupons(pow: Power, base: real, stub: real, coupon: real, n: nat): real {
    if n == 0 then 0.0
    else DiscountedCoupons(pow, base, stub, coupon, n - 1) + coupon * pow(base, -(stub + (n - 1) as real))
  }

  /** Present value per unit of face: coupons, principal with the last one, less accrued interest. */
  function ExplicitFactor(pow: Power, couponRate: real, nominal: real, frequency: nat, months: nat, n: nat): real
    requires frequency > 0 && n > 0
  {
    var base, stub := PeriodFactor(nominal, frequency), StubPeriods(months, frequency);
    var coupon := couponRate / frequency as real;
    LessAccrued(DiscountedCoupons(pow, base, stub, coupon, n), pow(base, -(stub + (n - 1) as real)), coupon, stub)
  }

  function LessAccrued(coupons: real, principal: real, coupon: real, stub: real): real {
    coupons + principal - coupon * (1.0 - stub)
  }

  /** Coupons discounted by `w` and up to growth `p` sum to `sum`, in closed form. */
  predicate Telescoped(base: real, coupon: real, w: real, sum: real, p: real)
    requires p > 0.0
  {
    (base - 1.0) * sum == coupon * (w * (base - 1.0 / p))
  }

  lemma {:induction false} CouponsClosedForm(pow: Power, base: real, stub: real, coupon: real, n: nat)
    requires PowerLaws(pow) && base > 0.0 && n > 0
    ensures IntPow(base, n - 1) > 0.0
    ensures Telescoped(base, coupon, pow(base, -stub), DiscountedCoupons(pow, base, stub, coupon, n), IntPow(base, n - 1))
  {
    hide PowerLaws, Telescoped;
    IntPowPositive(base, n - 1);
    var w := pow(base, -stub);
    PowerSplits(pow, base, stub, n - 1);
    var d := DiscountedCoupons(pow, base, stub, coupon, n - 1);
    var p := IntPow(base, n - 1);
    if n == 1 {
      OneCoupon(base, coupon, w, DiscountedCoupons(pow, base, stub, coupon, n), p);
    } else {
      CouponsClosedForm(pow, base, stub, coupon, n - 1);
      var q := IntPow(base, n - 2);
      ClosedFormStep(base, coupon, w, d, q, p, DiscountedCoupons(pow, base, stub, coupon, n));
    }
  }

  lemma OneCoupon(base: real, coupon: real, w: real, sum: real, p: real)
    requires p == 1.0 && sum == coupon * (w / p)
    ensures Telescoped(base, coupon, w, sum, p)
  {
    assert w / p == w && 1.0 / p == 1.0;
    assert (base - 1.0) * (coupon * w) == coupon * (w * (base - 1.0));
  }

  lemma ClosedFormStep(base: real, coupon: real, w: real, d: real, q: real, p: real, sum: real)
    requires base > 0.0 && q > 0.0 && p == base * q && p > 0.0
    requires Telescoped(base, coupon, w, d, q) && sum == d + coupon * (w / p)
    ensures Telescoped(base, coupon, w, sum, p)
  {
    var v := 1.0 / p;
    assert w / p == w * v;
    assert base * v == 1.0 / q;
    assert (base - 1.0) * (coupon * (w * v)) == coupon * (w * (base * v)) - coupon * (w * v);
    assert coupon * (w * (base - base * v)) == coupon * (w * base) - coupon * (w * (base * v));
    assert coupon * (w * (base - v)) == coupon * (w * base) - coupon * (w * v);
  }

  /** The reported factor is that sum to half a unit of the last place, and exists exactly when it makes sense. */
  lemma FactorRounded(pow: Power, couponRate: real, nominal: real, frequency: nat, months: nat, n: nat, places: nat)
    requires PowerLaws(pow)
    ensures var r := ConversionFactor(pow, couponRate, nominal, frequency, months, n, places);
      && (r.Number? <==> nominal > 0.0 && frequency > 0 && n > 0 && places <= 12)
      && (r.Number? ==> Abs(r.value - ExplicitFactor(pow, couponRate, nominal, frequency, months, n)) <= 0.5 / TenTo(places))
  {
    hide PowerLaws, FactorValue, RoundAtScale, ExplicitFactor, PeriodFactor, StubPeriods;
    if nominal > 0.0 && frequency > 0 && n > 0 {
      ConversionFactorIsPresentValue(pow, couponRate, nominal, frequency, months, n);
      if places <= 12 {
        RoundingError(ExplicitFactor(pow, couponRate, nominal, frequency, months, n), places);
      }
    }
  }

  /** The closed form is the explicit discounted sum, for every number of coupons. */
  lemma ConversionFactorIsPresentValue(pow: Power, couponRate: real, nominal: real, frequency: nat, months: nat, n: nat)
    requires PowerLaws(pow) && nominal > 0.0 && frequency > 0 && n > 0
    ensures ClosedFormFactor(pow, couponRate, nominal, frequency, months, n)
         == Number(ExplicitFactor(pow, couponRate, nominal, frequency, months, n))
  {
    hide PowerLaws, StubPeriods;
    var f, base, stub := frequency as real, PeriodFactor(nominal, frequency), StubPeriods(months, frequency);
    var w, v := pow(base, -stub), pow(base, -(n as real - 1.0));
    FactorPowers(pow, base, stub, n);
    CouponsClosedForm(pow, base, stub, couponRate / f, n);
    FactorAlgebra(couponRate, nominal, f, stub, w, v, DiscountedCoupons(pow, base, stub, couponRate / f, n));
    hide FactorValue, LessAccrued;
  }

  lemma FactorPowers(pow: Power, base: real, stub: real, n: nat)
    requires PowerLaws(pow) && base > 0.0 && n > 0
    ensures IntPow(base, n - 1) > 0.0
    ensures pow(base, -(n as real - 1.0)) == 1.0 / IntPow(base, n - 1)
    ensures pow(base, -(stub + (n - 1) as real)) == pow(base, -stub) * (1.0 / IntPow(base, n - 1))
  {
    hide PowerLaws, IntPow;
    PowerSplits(pow, base, stub, n - 1);
    PowerAtInteger(pow, base, n - 1);
    assert -(n as real - 1.0) == -((n - 1) as real);
  }

  lemma FactorAlgebra(c: real, r: real, f: real, stub: real, w: real, v: real, sum: real)
    requires r > 0.0 && f > 0.0
    requires (1.0 + r / f - 1.0) * sum == c / f * (w * (1.0 + r / f - v))
    ensures FactorValue(c, r, f, stub, w, v) == LessAccrued(sum, w * v, c / f, stub)
  {
    var k := c / r;
    var g := r / f;
    assert g > 0.0;
    assert c == k * r;
    assert c / f == k * g by { assert k * r / f == k * (r / f); }
    assert g * sum == k * g * (w * (1.0 + g - v));
    assert g * sum == g * (k * (w * (1.0 + g - v)));
    assert sum == k * (w * (1.0 + g - v));
    assert k * (w * (1.0 + g - v)) == w * (k * g + k - k * v);
    assert w * (k * g + k + (1.0 - k) * v) == w * (k * g + k - k * v) + w * v;
  }

  /** On a coupon month the factor stands to 1 as the coupon stands to the nominal coupon. */
  lemma FactorAtCouponMonth(pow: Power, couponRate: real, nominal: real, frequency: nat, n: nat)
    requires PowerLaws(pow) && nominal > 0.0 && frequency > 0 && n > 0
    ensures var x := ClosedFormFactor(pow, couponRate, nominal, frequency, 0, n).value;
      && (couponRate == nominal ==> x == 1.0)
      && (n > 1 ==> (x > 1.0 <==> couponRate > nominal) && (x == 1.0 <==> couponRate == nominal))
  {
    hide PowerLaws;
    var f, base := frequency as real, PeriodFactor(nominal, frequency);
    assert StubPeriods(0, frequency) == 0.0;
    PowerAtInteger(pow, base, 0);
    FactorPowers(pow, base, 0.0, n);
    var v := pow(base, -(n as real - 1.0));
    if n > 1 { DiscountBelowOne(base, n - 1); }
    ParFactorAlgebra(couponRate, nominal, f, v);
    RatioToOne(couponRate, nominal);
    if n > 1 { SignOfProduct(couponRate / nominal - 1.0, 1.0 - v); }
    hide FactorValue;
  }

  lemma ParFactorAlgebra(c: real, r: real, f: real, v: real)
    requires r > 0.0 && f > 0.0
    ensures FactorValue(c, r, f, 0.0, 1.0, v) - 1.0 == (c / r - 1.0) * (1.0 - v)
  {
  }

  lemma RatioToOne(c: real, r: real)
    requires r > 0.0
    ensures c / r > 1.0 <==> c > r
    ensures c / r == 1.0 <==> c == r
  {
    var k := c / r;
    assert c == k * r;
    SignOfProduct(k - 1.0, r);
    assert (k - 1.0) * r == c - r;
  }

  lemma {:induction false} DiscountBelowOne(b: real, m: nat)
    requires b > 1.0 && m > 0
    ensures IntPow(b, m) > 1.0 && 1.0 / IntPow(b, m) < 1.0
  {
    if m > 1 {
      DiscountBelowOne(b, m - 1);
      ScaleStrict(1.0, b, IntPow(b, m - 1));
    } else {
      assert IntPow(b, 1) == b;
    }
    ReciprocalOrder(1.0, IntPow(b, m));
  }

  // ---------- The coupon chain ----------

  /** Coupon dates in ascending order, stepping back from `date` one period at a time. */
  function CouponsBack(issue: int, date: int, p: int, room: nat): seq<int>
    decreases room, date
  {
    if date > issue && room > 0 then CouponsBack(issue, AddMonths(date, -p), p, room - 1) + [date]
    else []
  }

  const MAX_COUPONS := 1000

  function Coupons(issue: int, maturity: int, p: int): seq<int> {
    CouponsBack(issue, maturity, p, MAX_COUPONS)
  }

  /** The chain meets the issue date exactly, before running out of room. */
  predicate Regular(issue: int, maturity: int, p: int) {
    var coupons := Coupons(issue, maturity, p);
    0 < |coupons| < MAX_COUPONS && AddMonths(coupons[0], -p) == issue
  }

  function Reversed(s: seq<int>): seq<int> {
    if s == [] then [] else Reversed(s[1..]) + [s[0]]
  }

  lemma {:induction false} ReversedAppend(s: seq<int>, x: int)
    ensures Reversed(s + [x]) == [x] + Reversed(s)
  {
    if s != [] {
      assert (s + [x])[1..] == s[1..] + [x];
      ReversedAppend(s[1..], x);
    }
  }

  /** The backward loop and the reversal build the chain, and tell whether it is regular. */
  method BuildCoupons(issue: int, maturity: int, p: int) returns (ok: bool, coupons: seq<int>)
    ensures coupons == Coupons(issue, maturity, p)
    ensures ok <==> Regular(issue, maturity, p)
  {
    hide AddMonths;
    coupons := [];
    var couponDate := maturity;
    while couponDate > issue && |coupons| < 1000
      invariant |coupons| <= MAX_COUPONS
      invariant Coupons(issue, maturity, p)
             == CouponsBack(issue, couponDate, p, MAX_COUPONS - |coupons|) + Reversed(coupons)
      invariant couponDate == if coupons == [] then maturity else AddMonths(coupons[|coupons| - 1], -p)
      invariant |Reversed(coupons)| == |coupons|
      invariant coupons != [] ==> Reversed(coupons)[0] == coupons[|coupons| - 1]
      decreases MAX_COUPONS - |coupons|
    {
      ReversedAppend(coupons, couponDate);
      coupons := coupons + [couponDate];
      couponDate := AddMonths(couponDate, -p);
    }
    assert CouponsBack(issue, couponDate, p, MAX_COUPONS - |coupons|) == [];
    ok := couponDate == issue && coupons != [] && |coupons| < MAX_COUPONS;
    coupons := Reversed(coupons);
  }

  /** Ascending dates after issue, each a whole number of periods of calendar months before `date`. */
  ghost predicate InSteps(s: seq<int>, issue: int, date: int, p: int) {
    && (forall i :: 0 <= i < |s| ==> MonthOf(s[i]) == MonthOf(date) - (|s| - 1 - i) * p)
    && Ascending(s)
    && (forall i :: 0 <= i < |s| ==> issue < s[i] <= date)
    && (s != [] ==> s[|s| - 1] == date)
  }

  lemma {:induction false} ChainInSteps(issue: int, date: int, p: int, room: nat)
    requires p > 0
    ensures InSteps(CouponsBack(issue, date, p, room), issue, date, p)
    decreases room
  {
    hide AddMonths;
    if date > issue && room > 0 {
      var earlier := AddMonths(date, -p);
      ChainInSteps(issue, earlier, p, room - 1);
      ChainStep(date, p);
      OneMoreStep(CouponsBack(issue, earlier, p, room - 1), issue, earlier, date, p);
    }
  }

  lemma OneMoreStep(r: seq<int>, issue: int, earlier: int, date: int, p: int)
    requires InSteps(r, issue, earlier, p) && issue < date
    requires earlier < date && MonthOf(earlier) == MonthOf(date) - p
    ensures InSteps(r + [date], issue, date, p)
  {
    hide MonthOf;
    var s := r + [date];
    forall i | 0 <= i < |s|
      ensures MonthOf(s[i]) == MonthOf(date) - (|s| - 1 - i) * p
    {
      if i < |r| { assert (|s| - 1 - i) * p == (|r| - 1 - i) * p + p; }
    }
  }

  lemma ChainStep(date: int, p: int)
    requires p > 0
    ensures AddMonths(date, -p) < date && MonthOf(AddMonths(date, -p)) == MonthOf(date) - p
  {
    hide AddMonths, MonthOf, DayOf, MonthLength;
    AddMonthsZero(date);
    AddMonthsStrictInMonths(date, -p, 0);
    AddMonthsParts(date, -p);
  }

  // ---------- Regular chains, by their dates ----------

  /** The date `n` periods back, one period at a time. */
  function SteppedBack(date: int, p: int, n: nat): int {
    if n == 0 then date else AddMonths(SteppedBack(date, p, n - 1), -p)
  }

  /** The least of a day and the lengths of the `n` months stepped back to from month `t`. */
  function LeastDay(t: int, day: int, p: int, n: nat): int {
    if n == 0 then day else Min(LeastDay(t, day, p, n - 1), MonthLength(t - n * p))
  }

  lemma {:induction false} SteppedParts(date: int, p: int, n: nat)
    ensures MonthOf(SteppedBack(date, p, n)) == MonthOf(date) - n * p
    ensures DayOf(SteppedBack(date, p, n)) == LeastDay(MonthOf(date), DayOf(date), p, n)
  {
    hide AddMonths, MonthOf, DayOf, MonthLength;
    if n > 0 {
      SteppedParts(date, p, n - 1);
      AddMonthsParts(SteppedBack(date, p, n - 1), -p);
      assert MonthOf(date) - (n - 1) * p - p == MonthOf(date) - n * p;
    }
  }

  lemma {:induction false} SteppedEarlier(date: int, p: int, m: nat, n: nat)
    requires p > 0 && m < n
    ensures SteppedBack(date, p, n) < SteppedBack(date, p, m)
    decreases n
  {
    hide AddMonths, MonthOf;
    assert SteppedBack(date, p, n) == AddMonths(SteppedBack(date, p, n - 1), -p);
    ChainStep(SteppedBack(date, p, n - 1), p);
    if m < n - 1 { SteppedEarlier(date, p, m, n - 1); }
  }

  /** Stepping back from one period earlier is one more step back. */
  lemma {:induction false} SteppedShift(date: int, p: int, n: nat)
    ensures SteppedBack(AddMonths(date, -p), p, n) == SteppedBack(date, p, n + 1)
  {
    hide AddMonths;
    if n > 0 {
      SteppedShift(date, p, n - 1);
    } else {
      assert SteppedBack(date, p, 1) == AddMonths(SteppedBack(date, p, 0), -p);
    }
  }

  /** The chain holds the steps that lie after issue, as far as there is room. */
  lemma {:induction false} ChainReach(issue: int, date: int, p: int, room: nat)
    ensures var s := CouponsBack(issue, date, p, room);
      && |s| <= room
      && (forall j :: 0 <= j < |s| ==> s[|s| - 1 - j] == SteppedBack(date, p, j) > issue)
      && (|s| < room ==> SteppedBack(date, p, |s|) <= issue)
    decreases room
  {
    hide AddMonths;
    if date > issue && room > 0 {
      var earlier := AddMonths(date, -p);
      var r, s := CouponsBack(issue, earlier, p, room - 1), CouponsBack(issue, date, p, room);
      ChainReach(issue, earlier, p, room - 1);
      assert s == r + [date];
      forall j | 0 <= j < |s|
        ensures s[|s| - 1 - j] == SteppedBack(date, p, j) > issue
      {
        if j > 0 {
          SteppedShift(date, p, j - 1);
          assert r[|r| - 1 - (j - 1)] == SteppedBack(earlier, p, j - 1);
        }
      }
      SteppedShift(date, p, |r|);
    }
  }

  /** The chain is regular exactly when some number of steps, with room to spare, meets issue. */
  lemma RegularSteps(issue: int, maturity: int, p: int, n: nat)
    requires p > 0 && 1 <= n < MAX_COUPONS && SteppedBack(maturity, p, n) == issue
    ensures Regular(issue, maturity, p)
  {
    hide AddMonths, SteppedBack, CouponsBack;
    var s := Coupons(issue, maturity, p);
    ChainReach(issue, maturity, p, MAX_COUPONS);
    if |s| < n {
      SteppedEarlier(maturity, p, |s|, n);
    }
    FirstOfChain(issue, maturity, p);
  }

  /** One step before the first coupon is the step that ends the chain. */
  lemma FirstOfChain(issue: int, maturity: int, p: int)
    requires 0 < |Coupons(issue, maturity, p)|
    ensures var s := Coupons(issue, maturity, p);
      AddMonths(s[0], -p) == SteppedBack(maturity, p, |s|)
  {
    hide AddMonths, CouponsBack;
    ChainReach(issue, maturity, p, MAX_COUPONS);
    var s := Coupons(issue, maturity, p);
    assert s[|s| - 1 - (|s| - 1)] == SteppedBack(maturity, p, |s| - 1);
  }

  /**
    Issue and maturity are a whole number of periods of calendar months apart, from 1 to 999,
    and issue falls on the least of maturity's day and the lengths of the months stepped through.
   */
  predicate RegularDates(issue: int, maturity: int, p: int)
    requires p > 0
  {
    var distance := MonthOf(maturity) - MonthOf(issue);
    && distance % p == 0 && 1 <= distance / p <= 999
    && DayOf(issue) == LeastDay(MonthOf(maturity), DayOf(maturity), p, distance / p)
  }

  /** Whether a chain is regular can be read off its two dates. */
  lemma RegularIff(issue: int, maturity: int, p: int)
    requires p > 0
    ensures Regular(issue, maturity, p) <==> RegularDates(issue, maturity, p)
  {
    hide AddMonths, MonthOf, DayOf, SteppedBack, CouponsBack, LeastDay;
    var distance := MonthOf(maturity) - MonthOf(issue);
    if Regular(issue, maturity, p) {
      var n := |Coupons(issue, maturity, p)|;
      FirstOfChain(issue, maturity, p);
      SteppedParts(maturity, p, n);
      assert distance == n * p;
      FloorUnique(distance, p, n, 0);
    } else if RegularDates(issue, maturity, p) {
      var n := distance / p;
      SteppedParts(maturity, p, n);
      PartsOrder(SteppedBack(maturity, p, n), issue);
      RegularSteps(issue, maturity, p, n);
      assert false;
    }
  }

  // ---------- Months to the conversion coupon ----------

  /** First coupon on or after `date`: `std::lower_bound` on the ascending chain. */
  function FirstFrom(coupons: seq<int>, date: int): (k: nat)
    ensures k <= |coupons|
    ensures k < |coupons| ==> coupons[k] >= date
    ensures forall i :: 0 <= i < k ==> coupons[i] < date
  {
    FirstAfter(coupons, date - 1, 0)
  }

  lemma MonthOrder(a: int, b: int)
    requires a <= b
    ensures MonthOf(a) <= MonthOf(b)
    ensures a < b && DayOf(b) == 1 ==> MonthOf(a) < MonthOf(b)
  {
    hide MonthOf, DayOf, MonthLength, MonthFirst;
    PartsOrder(a, b);
    PartsRepresent(a);
  }

  /**
    For a regular chain that reaches the delivery month: the month difference is never
    negative, so that guard cannot fire; months to the conversion coupon and the periods
    after it make up the distance to maturity; and, for a delivery date on the first of a
    month, the stub is shorter than a period exactly when issue lies before it.
   */
  lemma ConversionCoupon(issue: int, maturity: int, p: int, delivery: int)
    requires p > 0 && Regular(issue, maturity, p)
    requires FirstFrom(Coupons(issue, maturity, p), delivery) < |Coupons(issue, maturity, p)|
    ensures var s := Coupons(issue, maturity, p);
      var k := FirstFrom(s, delivery);
      var months := MonthOf(s[k]) - MonthOf(delivery);
      && months >= 0
      && months + (|s| - k - 1) * p == MonthOf(maturity) - MonthOf(delivery)
      && (DayOf(delivery) == 1 ==> (months < p <==> issue < delivery))
  {
    hide AddMonths, MonthOf, DayOf, CouponsBack;
    var s := Coupons(issue, maturity, p);
    var k := FirstFrom(s, delivery);
    ChainInSteps(issue, maturity, p, MAX_COUPONS);
    assert InSteps(s, issue, maturity, p);
    MonthOrder(delivery, s[k]);
    var previous := if k == 0 then issue else s[k - 1];
    ChainStep(s[0], p);
    assert k > 0 ==> (|s| - 1 - (k - 1)) * p == (|s| - 1 - k) * p + p;
    assert MonthOf(previous) == MonthOf(s[k]) - p;
    if previous < delivery {
      MonthOrder(previous, delivery);
    } else {
      MonthOrder(delivery, previous);
    }
  }

  /** A chain reaches the delivery month exactly when maturity is not before it. */
  lemma ConversionCouponExists(issue: int, maturity: int, p: int, delivery: int)
    requires p > 0 && Regular(issue, maturity, p)
    ensures FirstFrom(Coupons(issue, maturity, p), delivery) < |Coupons(issue, maturity, p)|
            <==> delivery <= maturity
  {
    hide AddMonths, MonthOf, CouponsBack;
    var s := Coupons(issue, maturity, p);
    ChainInSteps(issue, maturity, p, MAX_COUPONS);
    assert InSteps(s, issue, maturity, p);
  }

  // ---------- Accrued interest and its conservation ----------

  /** Accrued interest before rounding; zero from the last coupon on. */
  function Accrued(coupons: seq<int>, issue: int, date: int, amount: real): real
    requires Spaced(coupons, issue)
  {
    var next := FirstAfter(coupons, date, 0);
    if next == |coupons| then 0.0
    else
      var previous := if next == 0 then issue else coupons[next - 1];
      PeriodShare(amount, date - previous, coupons[next] - previous)
  }

  function PeriodShare(amount: real, elapsed: int, period: int): real
    requires period > 0
  {
    amount * elapsed as real / period as real
  }

  function CouponTotal(amount: real, count: int): real {
    amount * count as real
  }

  lemma CouponTotals(amount: real, i: int, j: int)
    ensures CouponTotal(amount, j - i) == CouponTotal(amount, j) - CouponTotal(amount, i)
    ensures amount > 0.0 && i < j ==> CouponTotal(amount, i) + amount <= CouponTotal(amount, j)
  {
    var a, b := i as real, j as real;
    assert amount * (b - a) == amount * b - amount * a;
    if amount > 0.0 && i < j {
      BoundProduct(a + 1.0, b, amount);
      assert (a + 1.0) * amount == amount * a + amount;
    }
  }

  /** Issue and coupon dates are strictly ascending. */
  ghost predicate Spaced(coupons: seq<int>, issue: int) {
    && (forall i :: 0 <= i < |coupons| ==> issue < coupons[i])
    && Ascending(coupons)
  }

  const ACT_ACT_BOND_ISMA: nat := 1

  /** accrued_interest: `NaN` where the source reports failure. */
  function RoundedAccrued(coupons: seq<int>, issue: int, date: int, amount: real, dayCount: nat, places: nat): Double
    requires Spaced(coupons, issue)
  {
    if dayCount != ACT_ACT_BOND_ISMA then NaN
    else if FirstAfter(coupons, date, 0) == |coupons| then Number(0.0)
    else RoundTo(Accrued(coupons, issue, date, amount), places)
  }

  /** From the last coupon on nothing accrues, whatever the rounding; another day count is not supported. */
  lemma AccruedAfterLast(coupons: seq<int>, issue: int, date: int, amount: real, dayCount: nat, places: nat)
    requires Spaced(coupons, issue) && coupons != [] && coupons[|coupons| - 1] <= date
    ensures RoundedAccrued(coupons, issue, date, amount, dayCount, places) == if dayCount == 1 then Number(0.0) else NaN
  {
    assert forall i :: 0 <= i < |coupons| ==> coupons[i] <= coupons[|coupons| - 1];
  }

  /** Interest earned from issue up to `date`: coupons paid and the running accrual. */
  function CumulativeInterest(coupons: seq<int>, issue: int, date: int, amount: real): real
    requires Spaced(coupons, issue)
  {
    CouponTotal(amount, FirstAfter(coupons, date, 0)) + Accrued(coupons, issue, date, amount)
  }

  lemma FirstAfterMonotone(dates: seq<int>, a: int, b: int)
    requires a <= b
    ensures FirstAfter(dates, a, 0) <= FirstAfter(dates, b, 0)
  {
    var i, j := FirstAfter(dates, a, 0), FirstAfter(dates, b, 0);
    assert j < |dates| ==> dates[j] > a;
  }

  /** Accrued interest is below one coupon, and nonnegative exactly from issue on. */
  lemma AccruedRange(coupons: seq<int>, issue: int, date: int, amount: real)
    requires Spaced(coupons, issue) && amount > 0.0 && FirstAfter(coupons, date, 0) < |coupons|
    ensures Accrued(coupons, issue, date, amount) < amount
    ensures Accrued(coupons, issue, date, amount) >= 0.0 <==> issue <= date
  {
    var next := FirstAfter(coupons, date, 0);
    var previous := if next == 0 then issue else coupons[next - 1];
    hide PeriodShare;
    ShareOfPeriod(amount, date - previous, coupons[next] - previous);
  }

  lemma ShareOfPeriod(amount: real, elapsed: int, period: int)
    requires amount > 0.0 && period > 0 && elapsed < period
    ensures PeriodShare(amount, elapsed, period) < amount
    ensures PeriodShare(amount, elapsed, period) >= 0.0 <==> elapsed >= 0
  {
    var e, p := elapsed as real, period as real;
    ScaleStrict(e, p, amount);
    QuotientOrder(amount * e, amount * p, p);
    assert amount * p / p == amount;
    if elapsed >= 0 {
      BoundProduct(0.0, e, amount);
      QuotientMonotone(0.0, amount * e, p);
    } else {
      ScaleStrict(e, 0.0, amount);
      QuotientOrder(amount * e, 0.0, p);
    }
  }

  /** Every day of a coupon period, its last one included, earns the coupon over the days of the period. */
  lemma DailyInterest(coupons: seq<int>, issue: int, date: int, amount: real)
    requires Spaced(coupons, issue) && FirstAfter(coupons, date, 0) < |coupons|
    ensures var next := FirstAfter(coupons, date, 0);
      var previous := PreviousCoupon(coupons, issue, next);
      MakesUp(CumulativeInterest(coupons, issue, date + 1, amount) - CumulativeInterest(coupons, issue, date, amount),
              coupons[next] - previous, amount)
  {
    var next := FirstAfter(coupons, date, 0);
    var previous := PreviousCoupon(coupons, issue, next);
    assert coupons[next] > previous;
    hide *;
    NextDayCoupon(coupons, issue, date);
    CumulativeIs(coupons, issue, date, amount, next);
    DayOfPeriod(amount, date - previous, coupons[next] - previous);
    if date + 1 == coupons[next] {
      CumulativeAtCoupon(coupons, issue, next, amount);
    } else {
      CumulativeIs(coupons, issue, date + 1, amount, next);
    }
  }

  /** A daily gain that makes up `amount` over `days` days. */
  predicate MakesUp(gain: real, days: int, amount: real) {
    gain * days as real == amount
  }

  function PreviousCoupon(coupons: seq<int>, issue: int, next: nat): int
    requires next < |coupons|
  {
    if next == 0 then issue else coupons[next - 1]
  }

  lemma CumulativeIs(coupons: seq<int>, issue: int, date: int, amount: real, next: nat)
    requires Spaced(coupons, issue) && FirstAfter(coupons, date, 0) == next < |coupons|
    ensures var previous := PreviousCoupon(coupons, issue, next);
      coupons[next] > previous
      && CumulativeInterest(coupons, issue, date, amount)
         == CouponTotal(amount, next) + PeriodShare(amount, date - previous, coupons[next] - previous)
  {
    hide FirstAfter, CouponTotal, PeriodShare;
  }

  lemma CumulativeAtCoupon(coupons: seq<int>, issue: int, k: nat, amount: real)
    requires Spaced(coupons, issue) && k < |coupons| && FirstAfter(coupons, coupons[k], 0) == k + 1
    ensures CumulativeInterest(coupons, issue, coupons[k], amount) == CouponTotal(amount, k) + amount
  {
    NothingElapsed(coupons, issue, k, amount);
    OneCouponTotal(amount, k);
    hide FirstAfter, CouponTotal, Accrued;
  }

  /** The first coupon after the next day is the same one, unless the next day is that coupon. */
  lemma NextDayCoupon(coupons: seq<int>, issue: int, date: int)
    requires Spaced(coupons, issue) && FirstAfter(coupons, date, 0) < |coupons|
    ensures var next := FirstAfter(coupons, date, 0);
      FirstAfter(coupons, date + 1, 0) == if date + 1 == coupons[next] then next + 1 else next
  {
    var next := FirstAfter(coupons, date, 0);
    assert forall i :: 0 <= i <= next ==> coupons[i] <= coupons[next];
    assert next + 1 < |coupons| ==> coupons[next] < coupons[next + 1];
  }

  lemma NothingElapsed(coupons: seq<int>, issue: int, k: nat, amount: real)
    requires Spaced(coupons, issue) && k < |coupons| && FirstAfter(coupons, coupons[k], 0) == k + 1
    ensures Accrued(coupons, issue, coupons[k], amount) == 0.0
  {
    hide FirstAfter;
    if k + 1 < |coupons| {
      assert PeriodShare(amount, 0, coupons[k + 1] - coupons[k]) == 0.0;
    }
  }

  lemma OneCouponTotal(amount: real, k: int)
    ensures CouponTotal(amount, k + 1) == CouponTotal(amount, k) + amount
  {
    assert amount * (k as real + 1.0) == amount * k as real + amount;
  }

  lemma DayOfPeriod(amount: real, e: int, p: int)
    requires p > 0
    ensures MakesUp(PeriodShare(amount, e + 1, p) - PeriodShare(amount, e, p), p, amount)
    ensures e + 1 == p ==> MakesUp(amount - PeriodShare(amount, e, p), p, amount)
  {
    var x, n := e as real, p as real;
    assert amount * (x + 1.0) / n * n == amount * x + amount;
    assert amount * x / n * n == amount * x;
    assert (amount * (x + 1.0) / n - amount * x / n) * n == amount * (x + 1.0) / n * n - amount * x / n * n;
    if e + 1 == p { assert (amount - amount * x / n) * n == amount * n - amount * x; }
  }

  /** Interest is earned every day: cumulative interest increases strictly before maturity. */
  lemma CumulativeIncreasing(coupons: seq<int>, issue: int, a: int, b: int, amount: real)
    requires Spaced(coupons, issue) && amount > 0.0 && a < b
    requires FirstAfter(coupons, b, 0) < |coupons|
    ensures CumulativeInterest(coupons, issue, a, amount) < CumulativeInterest(coupons, issue, b, amount)
  {
    hide PeriodShare, CouponTotal;
    FirstAfterMonotone(coupons, a, b);
    var i, j := FirstAfter(coupons, a, 0), FirstAfter(coupons, b, 0);
    if i == j {
      var previous := if i == 0 then issue else coupons[i - 1];
      SharesInOrder(amount, a - previous, b - previous, coupons[i] - previous);
    } else {
      AccruedRange(coupons, issue, a, amount);
      AccruedRange(coupons, issue, b, amount);
      CouponTotals(amount, i, j);
    }
  }

  lemma SharesInOrder(amount: real, e1: int, e2: int, period: int)
    requires amount > 0.0 && period > 0 && e1 < e2
    ensures PeriodShare(amount, e1, period) < PeriodShare(amount, e2, period)
  {
    ScaleStrict(e1 as real, e2 as real, amount);
    QuotientOrder(amount * e1 as real, amount * e2 as real, period as real);
  }

  /** Number of coupons paid after `purchase`, up to and on `delivery`. */
  function InterimCount(coupons: seq<int>, purchase: int, delivery: int): int {
    if purchase <= delivery then FirstAfter(coupons, delivery, 0) - FirstAfter(coupons, purchase, 0) else 0
  }

  /** `std::count_if` over the coupons. */
  method CountInterim(coupons: seq<int>, purchase: int, delivery: int, ghost issue: int) returns (n: nat)
    requires Spaced(coupons, issue)
    ensures n == InterimCount(coupons, purchase, delivery)
  {
    n := 0;
    ghost var i, j := FirstAfter(coupons, purchase, 0), FirstAfter(coupons, delivery, 0);
    if purchase <= delivery { FirstAfterMonotone(coupons, purchase, delivery); }
    for k := 0 to |coupons|
      invariant n == if k <= i || delivery < purchase then 0 else if k <= j then k - i else j - i
    {
      BeforeFirst(coupons, issue, purchase, k);
      BeforeFirst(coupons, issue, delivery, k);
      if coupons[k] > purchase && coupons[k] <= delivery { n := n + 1; }
    }
  }

  /** On ascending coupons, the ones up to `date` are exactly those before the first later one. */
  lemma BeforeFirst(coupons: seq<int>, issue: int, date: int, k: nat)
    requires Spaced(coupons, issue) && k < |coupons|
    ensures coupons[k] <= date <==> k < FirstAfter(coupons, date, 0)
  {
    var first := FirstAfter(coupons, date, 0);
    assert first < k ==> coupons[first] < coupons[k];
  }

  function InterimCoupons(coupons: seq<int>, purchase: int, delivery: int, amount: real): real {
    CouponTotal(amount, InterimCount(coupons, purchase, delivery))
  }

  /**
    Interest earned between purchase and delivery is conserved: the change in accrued
    interest plus the coupons received is the growth of cumulative interest, which is
    positive; with both accruals rounded it is off by at most one unit of the last place.
   */
  lemma InterestConserved(coupons: seq<int>, issue: int, purchase: int, delivery: int, amount: real, places: nat)
    requires Spaced(coupons, issue) && amount > 0.0 && purchase < delivery && places <= 12
    requires FirstAfter(coupons, delivery, 0) < |coupons|
    ensures var interim := InterimCoupons(coupons, purchase, delivery, amount);
      var earned := CumulativeInterest(coupons, issue, delivery, amount)
                    - CumulativeInterest(coupons, issue, purchase, amount);
      var d, p := RoundedAccrued(coupons, issue, delivery, amount, ACT_ACT_BOND_ISMA, places),
                  RoundedAccrued(coupons, issue, purchase, amount, ACT_ACT_BOND_ISMA, places);
      && earned > 0.0
      && Accrued(coupons, issue, delivery, amount) - Accrued(coupons, issue, purchase, amount) + interim == earned
      && d.Number? && p.Number?
      && Abs(d.value - p.value + interim - earned) <= 1.0 / TenTo(places)
  {
    hide Spaced, Accrued, CouponTotal, RoundedAccrued, FirstAfter;
    FirstAfterMonotone(coupons, purchase, delivery);
    CumulativeIncreasing(coupons, issue, purchase, delivery, amount);
    CouponTotals(amount, FirstAfter(coupons, purchase, 0), FirstAfter(coupons, delivery, 0));
    RoundedClose(coupons, issue, delivery, amount, places);
    RoundedClose(coupons, issue, purchase, amount, places);
    TwoHalves(TenTo(places));
  }

  lemma RoundedClose(coupons: seq<int>, issue: int, date: int, amount: real, places: nat)
    requires Spaced(coupons, issue) && places <= 12 && FirstAfter(coupons, date, 0) < |coupons|
    ensures var r := RoundedAccrued(coupons, issue, date, amount, ACT_ACT_BOND_ISMA, places);
      r.Number? && Abs(r.value - Accrued(coupons, issue, date, amount)) <= 0.5 / TenTo(places)
  {
    hide Spaced, Accrued, RoundAtScale;
    RoundingError(Accrued(coupons, issue, date, amount), places);
  }

  lemma TwoHalves(scale: real)
    requires scale > 0.0
    ensures 0.5 / scale + 0.5 / scale == 1.0 / scale
  {
  }

  // ---------- Deliverability ----------

  predicate IsDeliverable(originalMax: nat, residualMin: nat, residualMax: nat, unbounded: bool,
                          issue: int, maturity: int, deliveryFirst: int) {
    if originalMax == 0 || residualMin == 0
       || (!unbounded && (residualMax == 0 || residualMax < residualMin)) || issue >= maturity then false
    else if maturity > AddMonths(issue, originalMax) || maturity < AddMonths(deliveryFirst, residualMin) then false
    else unbounded || maturity <= AddMonths(deliveryFirst, residualMax)
  }

  /**
    Counted from the first of the delivery month, the residual-term limits are limits on
    calendar months; the upper one admits only the first day of its month.
   */
  lemma DeliverableWindow(originalMax: nat, residualMin: nat, residualMax: nat, unbounded: bool,
                          issue: int, maturity: int, deliveryFirst: int)
    requires originalMax > 0 && residualMin > 0 && (unbounded || residualMax >= residualMin)
    requires issue < maturity && DayOf(deliveryFirst) == 1
    ensures var residual := MonthOf(maturity) - MonthOf(deliveryFirst);
      IsDeliverable(originalMax, residualMin, residualMax, unbounded, issue, maturity, deliveryFirst)
      <==> maturity <= AddMonths(issue, originalMax) && residualMin <= residual
           && (unbounded || residual < residualMax || (residual == residualMax && DayOf(maturity) == 1))
  {
    hide AddMonths, MonthOf, DayOf;
    FirstOfMonthLimit(deliveryFirst, residualMin, maturity);
    FirstOfMonthLimit(deliveryFirst, residualMax, maturity);
  }

  lemma FirstOfMonthLimit(first: int, months: int, date: int)
    requires DayOf(first) == 1
    ensures AddMonths(first, months) <= date <==> months <= MonthOf(date) - MonthOf(first)
    ensures date <= AddMonths(first, months)
            <==> MonthOf(date) - MonthOf(first) < months
                 || (MonthOf(date) - MonthOf(first) == months && DayOf(date) == 1)
  {
    hide AddMonths, MonthOf, DayOf, MonthLength, MonthFirst;
    AddMonthsParts(first, months);
    MonthFirstStep(MonthOf(first) + months);
    PartsOrder(AddMonths(first, months), date);
    PartsOrder(date, AddMonths(first, months));
    PartsRepresent(date);
  }

  /** Delivery months are listed strictly ascending within 1..12; the date is the first of one of them. */
  ghost predicate DeliveryMonthListed(date: int, months: seq<nat>) {
    && 0 < |months| <= 12
    && (forall i :: 0 <= i < |months| ==> 1 <= months[i] <= 12)
    && (forall i :: 0 < i < |months| ==> months[i - 1] < months[i])
    && DaysToYmd(date).day == 1 && DaysToYmd(date).month in months
  }

  method ValidDeliveryMonth(date: int, months: seq<nat>) returns (ok: bool)
    ensures ok <==> DeliveryMonthListed(date, months)
  {
    hide DaysToYmd;
    if |months| == 0 || |months| > 12 { return false; }
    var c := DaysToYmd(date);
    var containsMonth := false;
    for i := 0 to |months|
      invariant forall k :: 0 <= k < i ==> 1 <= months[k] <= 12
      invariant forall k :: 0 < k < i ==> months[k - 1] < months[k]
      invariant containsMonth <==> c.month in months[..i]
    {
      if months[i] == 0 || months[i] > 12 || (i > 0 && months[i - 1] >= months[i]) { return false; }
      assert months[..i + 1] == months[..i] + [months[i]];
      if months[i] == c.month { containsMonth := true; }
    }
    assert months[..|months|] == months;
    return c.day == 1 && containsMonth;
  }

  // ---------- Coupon schedule metrics ----------

  datatype ScheduleInput = ScheduleInput(
    issue: int, maturity: int, frequency: nat, couponRate: real, face: real,
    dayCount: nat, places: nat, purchase: int, deliveryFirst: int, delivery: int
  )

  datatype Metrics = Metrics(months: int, remaining: nat, purchaseAccrued: real, deliveryAccrued: real, interim: real)

  function PeriodMonths(frequency: nat): (p: nat)
    requires frequency > 0
    ensures p > 0 <==> frequency <= 12
  {
    12 / frequency
  }

  function CouponPerPeriod(x: ScheduleInput): real
    requires x.frequency > 0
  {
    x.couponRate * x.face / x.frequency as real
  }

  /** The coupons of a year make up the coupon rate on face. */
  lemma YearOfCoupons(x: ScheduleInput)
    requires x.frequency > 0
    ensures CouponPerPeriod(x) * x.frequency as real == x.couponRate * x.face
  {
  }

  lemma ChainSpaced(issue: int, maturity: int, p: int)
    requires p > 0
    ensures Spaced(Coupons(issue, maturity, p), issue)
  {
    hide AddMonths, MonthOf;
    ChainInSteps(issue, maturity, p, MAX_COUPONS);
    InStepsSpaced(Coupons(issue, maturity, p), issue, maturity, p);
  }

  lemma InStepsSpaced(s: seq<int>, issue: int, date: int, p: int)
    requires InSteps(s, issue, date, p)
    ensures Spaced(s, issue)
  {
  }

  /** The metrics, or `None` where the source returns false. */
  function MetricsOf(x: ScheduleInput): Option<Metrics> {
    if x.frequency == 0 || x.face <= 0.0 || PeriodMonths(x.frequency) == 0 then None
    else
      var p := PeriodMonths(x.frequency);
      if !Regular(x.issue, x.maturity, p) then None
      else
        ChainSpaced(x.issue, x.maturity, p);
        MetricsFrom(x, Coupons(x.issue, x.maturity, p))
  }

  function MetricsFrom(x: ScheduleInput, coupons: seq<int>): Option<Metrics>
    requires x.frequency > 0 && Spaced(coupons, x.issue)
  {
    var k := FirstFrom(coupons, x.deliveryFirst);
    if k == |coupons| then None
    else
      var months := MonthOf(coupons[k]) - MonthOf(x.deliveryFirst);
      var amount := CouponPerPeriod(x);
      var purchase := RoundedAccrued(coupons, x.issue, x.purchase, amount, x.dayCount, x.places);
      var delivery := RoundedAccrued(coupons, x.issue, x.delivery, amount, x.dayCount, x.places);
      if months < 0 || purchase.NaN? || delivery.NaN? || months >= PeriodMonths(x.frequency) then None
      else Some(Metrics(months, |coupons| - k, purchase.value, delivery.value,
                        InterimCoupons(coupons, x.purchase, x.delivery, amount)))
  }

  method CouponScheduleMetrics(x: ScheduleInput) returns (m: Option<Metrics>)
    ensures m == MetricsOf(x)
  {
    hide Coupons, Regular, MetricsFrom;
    if x.frequency == 0 || x.face <= 0.0 { return None; }
    var p := 12 / x.frequency;
    if p == 0 { return None; }
    var ok, coupons := BuildCoupons(x.issue, x.maturity, p);
    if !ok { return None; }
    ChainSpaced(x.issue, x.maturity, p);
    m := MeasureChain(x, coupons);
  }

  method MeasureChain(x: ScheduleInput, coupons: seq<int>) returns (m: Option<Metrics>)
    requires x.frequency > 0 && Spaced(coupons, x.issue)
    ensures m == MetricsFrom(x, coupons)
  {
    hide MonthOf, RoundedAccrued, DaysToYmd, CouponTotal, Spaced;
    var k := FirstFrom(coupons, x.deliveryFirst);
    if k == |coupons| { return None; }
    var d, c := DaysToYmd(x.deliveryFirst), DaysToYmd(coupons[k]);
    var months := (c.year - d.year) * 12 + c.month - d.month;
    MonthDifference(x.deliveryFirst, coupons[k]);
    if months < 0 { return None; }
    var amount := CouponPerPeriod(x);
    var purchase := RoundedAccrued(coupons, x.issue, x.purchase, amount, x.dayCount, x.places);
    var delivery := RoundedAccrued(coupons, x.issue, x.delivery, amount, x.dayCount, x.places);
    if purchase.NaN? || delivery.NaN? { return None; }
    var count := CountInterim(coupons, x.purchase, x.delivery, x.issue);
    if months < 12 / x.frequency && |coupons| - k > 0 {
      return Some(Metrics(months, |coupons| - k, purchase.value, delivery.value, CouponTotal(amount, count)));
    }
    return None;
  }

  lemma MonthDifference(a: int, b: int)
    ensures var d, c := DaysToYmd(a), DaysToYmd(b);
      (c.year - d.year) * 12 + c.month - d.month == MonthOf(b) - MonthOf(a)
  {
    hide DaysToYmd;
  }

  /**
    When the metrics exist: exactly for regular dates, issued before the delivery month and
    maturing in or after it, with the supported day count and rounding.
   */
  lemma MetricsExist(x: ScheduleInput)
    requires 0 < x.frequency <= 12 && x.face > 0.0
    requires DayOf(x.deliveryFirst) == 1 && x.purchase < x.delivery < x.maturity
    ensures MetricsOf(x).Some? <==>
      && RegularDates(x.issue, x.maturity, PeriodMonths(x.frequency))
      && x.issue < x.deliveryFirst <= x.maturity
      && x.dayCount == 1 && x.places <= 12
    ensures MetricsOf(x).Some? ==> var m := MetricsOf(x).value;
      m.months + (m.remaining - 1) * PeriodMonths(x.frequency) == MonthOf(x.maturity) - MonthOf(x.deliveryFirst)
  {
    assert ACT_ACT_BOND_ISMA == 1;
    hide *;
    RegularIff(x.issue, x.maturity, PeriodMonths(x.frequency));
    MetricsOfChain(x);
  }

  lemma MetricsOfChain(x: ScheduleInput)
    requires 0 < x.frequency <= 12 && x.face > 0.0
    requires DayOf(x.deliveryFirst) == 1 && x.purchase < x.delivery < x.maturity
    ensures MetricsOf(x).Some? <==>
      && Regular(x.issue, x.maturity, PeriodMonths(x.frequency))
      && x.issue < x.deliveryFirst <= x.maturity
      && x.dayCount == ACT_ACT_BOND_ISMA && x.places <= 12
    ensures MetricsOf(x).Some? ==> var m := MetricsOf(x).value;
      m.months + (m.remaining - 1) * PeriodMonths(x.frequency) == MonthOf(x.maturity) - MonthOf(x.deliveryFirst)
  {
    hide AddMonths, MonthOf, DayOf, Accrued, RoundAtScale, CouponsBack, Spaced;
    var p := PeriodMonths(x.frequency);
    assert p > 0;
    if Regular(x.issue, x.maturity, p) {
      ConversionCouponExists(x.issue, x.maturity, p, x.deliveryFirst);
      if x.deliveryFirst <= x.maturity {
        ConversionCoupon(x.issue, x.maturity, p, x.deliveryFirst);
        NextCouponExists(x.issue, x.maturity, p, x.delivery);
        NextCouponExists(x.issue, x.maturity, p, x.purchase);
      }
    }
  }

  lemma NextCouponExists(issue: int, maturity: int, p: int, date: int)
    requires p > 0 && date < maturity && Coupons(issue, maturity, p) != []
    ensures FirstAfter(Coupons(issue, maturity, p), date, 0) < |Coupons(issue, maturity, p)|
  {
    hide AddMonths, MonthOf, CouponsBack;
    var s := Coupons(issue, maturity, p);
    ChainInSteps(issue, maturity, p, MAX_COUPONS);
    assert InSteps(s, issue, maturity, p);
  }

}
