/** The delivery analysis of `futures_api.cpp`: basis, carry, implied repo and profit. */
module Delivery {
  import opened Options
  import opened Reals
  import opened CivilCalendar
  import opened Pricing
  import opened Futures

  datatype Input = Input(
    schedule: ScheduleInput, nominalCoupon: real, factorPlaces: nat,
    originalMax: nat, residualMin: nat, residualMax: nat, unbounded: bool, deliveryMonths: seq<nat>,
    spotClean: real, futuresClean: real, financingRate: real, dayBasis: nat
  )

  datatype Status = Analyzed | Ineligible | InvalidArgument | NonFinite

  datatype Analysis = Analysis(
    metrics: Metrics, factor: real, invoice: real, purchaseDirty: real, grossBasis: real,
    financingCost: real, holdingCarry: real, netBasis: real, impliedRepo: real, profit: real
  )

  const MAX_MONTHS: nat := 2147483647

  predicate ValidRule(x: Input) {
    && 0 < x.originalMax <= MAX_MONTHS && 0 < x.residualMin <= MAX_MONTHS
    && (x.unbounded || (x.residualMax >= x.residualMin && x.residualMax <= MAX_MONTHS))
    && x.schedule.dayCount > 0 && x.factorPlaces <= 12 && x.schedule.places <= 12 && x.dayBasis > 0
  }

  predicate PositiveInputs(x: Input) {
    && x.nominalCoupon > 0.0 && x.schedule.face > 0.0 && x.schedule.couponRate > 0.0
    && x.spotClean > 0.0 && x.futuresClean > 0.0 && x.financingRate >= 0.0
  }

  /** Everything checked before any computation. */
  ghost predicate Accepted(x: Input) {
    var s := x.schedule;
    && ValidRule(x) && (s.frequency == 1 || s.frequency == 2)
    && DeliveryMonthListed(s.deliveryFirst, x.deliveryMonths)
    && s.purchase < s.delivery < s.maturity && PositiveInputs(x)
  }

  predicate Eligible(x: Input) {
    IsDeliverable(x.originalMax, x.residualMin, x.residualMax, x.unbounded,
                  x.schedule.issue, x.schedule.maturity, x.schedule.deliveryFirst)
  }

  /** What is paid and received: the economics an analysis has to respect. */
  ghost predicate Accounts(x: Input, a: Analysis) {
    && x.dayBasis > 0
    && a.purchaseDirty == x.spotClean + a.metrics.purchaseAccrued && a.purchaseDirty > 0.0
    && a.invoice == x.futuresClean * a.factor + a.metrics.deliveryAccrued && a.invoice > 0.0
    && a.financingCost * x.dayBasis as real
       == a.purchaseDirty * x.financingRate * (x.schedule.delivery - x.schedule.purchase) as real
    && a.profit == a.invoice + a.metrics.interim - a.purchaseDirty - a.financingCost
    && a.grossBasis == x.spotClean - x.futuresClean * a.factor
    && a.netBasis == a.grossBasis - a.holdingCarry == -a.profit
  }

  /**
    The implied repo rate is the break-even rate: financed at it, the purchase is repaid by
    invoice and coupons. So profit is earned exactly when it beats the financing rate.
   */
  ghost predicate RepoParity(x: Input, a: Analysis) {
    && x.dayBasis > 0
    && a.purchaseDirty * (1.0 + a.impliedRepo * (x.schedule.delivery - x.schedule.purchase) as real / x.dayBasis as real)
       == a.invoice + a.metrics.interim
    && (a.profit > 0.0 <==> a.impliedRepo > x.financingRate)
    && (a.profit == 0.0 <==> a.impliedRepo == x.financingRate)
  }

  /** The conversion factor of the delivery, once its metrics are known. */
  function FactorOf(pow: Power, x: Input, m: Metrics): Double
    requires m.months >= 0
  {
    ConversionFactor(pow, x.schedule.couponRate, x.nominalCoupon, x.schedule.frequency,
                     m.months, m.remaining, x.factorPlaces)
  }

  /** Factor, invoice and purchase price are all positive numbers. */
  predicate Meaningful(x: Input, m: Metrics, factor: Double) {
    && factor.Number? && factor.value > 0.0
    && x.futuresClean * factor.value + m.deliveryAccrued > 0.0
    && x.spotClean + m.purchaseAccrued > 0.0
  }

  /** The rule fields, one after the other. */
  method CheckRule(x: Input) returns (ok: bool)
    ensures ok <==> ValidRule(x)
  {
    if x.originalMax == 0 || x.originalMax > 0x7FFF_FFFF { return false; }
    if x.residualMin == 0 || x.residualMin > 0x7FFF_FFFF { return false; }
    if !x.unbounded {
      if x.residualMax < x.residualMin || x.residualMax == 0 || x.residualMax > 0x7FFF_FFFF { return false; }
    }
    if x.schedule.dayCount == 0 || x.factorPlaces > 12 || x.schedule.places > 12 { return false; }
    return x.dayBasis > 0;
  }

  method AnalyzeDelivery(pow: Power, x: Input) returns (status: Status, a: Option<Analysis>)
    ensures a.Some? <==> status.Analyzed?
    ensures status.Ineligible? <==> Accepted(x) && !Eligible(x)
    ensures status.InvalidArgument? <==> !Accepted(x) || (Eligible(x) && MetricsOf(x.schedule).None?)
    ensures Accepted(x) && Eligible(x) && MetricsOf(x.schedule).Some? ==>
      var m := MetricsOf(x.schedule).value;
      m.months >= 0 && (status.Analyzed? <==> Meaningful(x, m, FactorOf(pow, x, m)))
    ensures status.Analyzed? ==>
      && MetricsOf(x.schedule) == Some(a.value.metrics)
      && a.value.metrics.months >= 0 && FactorOf(pow, x, a.value.metrics) == Number(a.value.factor)
      && Accounts(x, a.value) && RepoParity(x, a.value)
  {
    hide MetricsOf, ConversionFactor, Eligible, DeliveryMonthListed;
    var s := x.schedule;
    var monthOk := ValidDeliveryMonth(s.deliveryFirst, x.deliveryMonths);
    var ruleOk := CheckRule(x);
    if !ruleOk || (s.frequency != 1 && s.frequency != 2) || !monthOk
       || s.purchase >= s.delivery || s.delivery >= s.maturity {
      return InvalidArgument, None;
    }
    if x.nominalCoupon <= 0.0 || s.face <= 0.0 || s.couponRate <= 0.0
       || x.spotClean <= 0.0 || x.futuresClean <= 0.0 || x.financingRate < 0.0 {
      return InvalidArgument, None;
    }
    if !Eligible(x) { return Ineligible, None; }
    var metrics := CouponScheduleMetrics(s);
    if metrics.None? { return InvalidArgument, None; }
    MonthsNonnegative(s);
    var m := metrics.value;
    var factor := ConversionFactor(pow, s.couponRate, x.nominalCoupon, s.frequency,
                                   m.months, m.remaining, x.factorPlaces);
    if factor.NaN? || factor.value <= 0.0 { return NonFinite, None; }
    var purchaseDirty := x.spotClean + m.purchaseAccrued;
    var invoice := x.futuresClean * factor.value + m.deliveryAccrued;
    if invoice <= 0.0 || purchaseDirty <= 0.0 { return NonFinite, None; }
    var analysis := Settle(x, m, factor.value, purchaseDirty, invoice);
    return Analyzed, Some(analysis);
  }

  /** Interest earned on the bond from purchase to delivery, by the cumulative-interest function. */
  function InterestEarned(s: ScheduleInput): real
    requires s.frequency > 0 && PeriodMonths(s.frequency) > 0
  {
    ChainSpaced(s.issue, s.maturity, PeriodMonths(s.frequency));
    var coupons := Coupons(s.issue, s.maturity, PeriodMonths(s.frequency));
    CumulativeInterest(coupons, s.issue, s.delivery, CouponPerPeriod(s))
    - CumulativeInterest(coupons, s.issue, s.purchase, CouponPerPeriod(s))
  }

  /** Before financing, the carry of every analysis is the interest earned, to one unit of the last place. */
  lemma CarryIsInterestEarned(x: Input, a: Analysis)
    requires Accepted(x) && MetricsOf(x.schedule) == Some(a.metrics) && Accounts(x, a)
    ensures InterestEarned(x.schedule) > 0.0
    ensures Abs(a.holdingCarry + a.financingCost - InterestEarned(x.schedule)) <= 1.0 / TenTo(x.schedule.places)
  {
    var s := x.schedule;
    var p := PeriodMonths(s.frequency);
    var coupons := Coupons(s.issue, s.maturity, p);
    assert a.holdingCarry + a.financingCost
        == a.metrics.deliveryAccrued - a.metrics.purchaseAccrued + a.metrics.interim;
    assert CouponPerPeriod(s) > 0.0 by { CouponPerPeriodPositive(s); }
    ChainSpaced(s.issue, s.maturity, p);
    MetricsFields(s, a.metrics);
    NextCouponExists(s.issue, s.maturity, p, s.delivery);
    hide Coupons, CumulativeInterest, Accrued, RoundedAccrued, InterimCoupons, CouponPerPeriod, MetricsOf;
    InterestConserved(coupons, s.issue, s.purchase, s.delivery, CouponPerPeriod(s), s.places);
  }

  lemma CouponPerPeriodPositive(s: ScheduleInput)
    requires s.frequency > 0 && s.couponRate > 0.0 && s.face > 0.0
    ensures CouponPerPeriod(s) > 0.0
  {
  }

  /** Where the reported accruals and coupons come from. */
  lemma MetricsFields(s: ScheduleInput, m: Metrics)
    requires s.frequency > 0 && PeriodMonths(s.frequency) > 0 && MetricsOf(s) == Some(m)
    ensures var coupons := Coupons(s.issue, s.maturity, PeriodMonths(s.frequency));
      && coupons != [] && Spaced(coupons, s.issue) && s.dayCount == ACT_ACT_BOND_ISMA
      && RoundedAccrued(coupons, s.issue, s.purchase, CouponPerPeriod(s), s.dayCount, s.places) == Number(m.purchaseAccrued)
      && RoundedAccrued(coupons, s.issue, s.delivery, CouponPerPeriod(s), s.dayCount, s.places) == Number(m.deliveryAccrued)
      && InterimCoupons(coupons, s.purchase, s.delivery, CouponPerPeriod(s)) == m.interim
  {
    ChainSpaced(s.issue, s.maturity, PeriodMonths(s.frequency));
    hide Coupons, Accrued, InterimCoupons, CouponPerPeriod, MonthOf, RoundTo, Spaced, FirstFrom;
  }

  lemma MonthsNonnegative(s: ScheduleInput)
    requires MetricsOf(s).Some?
    ensures MetricsOf(s).value.months >= 0
  {
    hide Regular, Coupons, MonthOf, RoundedAccrued, FirstFrom;
  }

  /** Basis, carry and implied repo, in the order the source computes them. */
  method Settle(x: Input, m: Metrics, factor: real, purchaseDirty: real, invoice: real) returns (a: Analysis)
    requires x.dayBasis > 0 && x.schedule.purchase < x.schedule.delivery
    requires purchaseDirty == x.spotClean + m.purchaseAccrued && purchaseDirty > 0.0
    requires invoice == x.futuresClean * factor + m.deliveryAccrued && invoice > 0.0
    ensures a.metrics == m && a.factor == factor
    ensures Accounts(x, a) && RepoParity(x, a)
  {
    var days, basis := (x.schedule.delivery - x.schedule.purchase) as real, x.dayBasis as real;
    var grossBasis := x.spotClean - x.futuresClean * factor;
    var financingCost := purchaseDirty * x.financingRate * days / basis;
    var holdingCarry := m.deliveryAccrued - m.purchaseAccrued + m.interim - financingCost;
    var netBasis := grossBasis - holdingCarry;
    var irr := ((invoice + m.interim) / purchaseDirty - 1.0) * basis / days;
    a := Analysis(m, factor, invoice, purchaseDirty, grossBasis, financingCost, holdingCarry, netBasis, irr, -netBasis);
    assert a.profit == a.invoice + a.metrics.interim - a.purchaseDirty - a.financingCost;
    hide Accounts, RepoParity;
    AccountsHold(x, a);
    ParityHolds(x, a);
  }

  lemma AccountsHold(x: Input, a: Analysis)
    requires x.dayBasis > 0
    requires a.purchaseDirty == x.spotClean + a.metrics.purchaseAccrued && a.purchaseDirty > 0.0
    requires a.invoice == x.futuresClean * a.factor + a.metrics.deliveryAccrued && a.invoice > 0.0
    requires a.financingCost
          == a.purchaseDirty * x.financingRate * (x.schedule.delivery - x.schedule.purchase) as real / x.dayBasis as real
    requires a.profit == a.invoice + a.metrics.interim - a.purchaseDirty - a.financingCost
    requires a.grossBasis == x.spotClean - x.futuresClean * a.factor
    requires a.netBasis == a.grossBasis - a.holdingCarry == -a.profit
    ensures Accounts(x, a)
  {
  }

  lemma ParityHolds(x: Input, a: Analysis)
    requires x.dayBasis > 0 && x.schedule.purchase < x.schedule.delivery && a.purchaseDirty > 0.0
    requires var days, basis := (x.schedule.delivery - x.schedule.purchase) as real, x.dayBasis as real;
      && a.financingCost == a.purchaseDirty * x.financingRate * days / basis
      && a.impliedRepo == ((a.invoice + a.metrics.interim) / a.purchaseDirty - 1.0) * basis / days
    requires a.profit == a.invoice + a.metrics.interim - a.purchaseDirty - a.financingCost
    ensures RepoParity(x, a)
  {
    var days, basis := (x.schedule.delivery - x.schedule.purchase) as real, x.dayBasis as real;
    BreakEven(a.purchaseDirty, a.invoice + a.metrics.interim, days, basis);
    RepoAlgebra(a.purchaseDirty, a.invoice + a.metrics.interim, x.financingRate, days, basis);
  }

  lemma BreakEven(paid: real, received: real, days: real, basis: real)
    requires paid > 0.0 && days > 0.0 && basis > 0.0
    ensures var irr := (received / paid - 1.0) * basis / days; paid * (1.0 + irr * days / basis) == received
  {
    var g := received / paid - 1.0;
    var irr := g * basis / days;
    assert irr * days == g * basis;
    assert g * basis / basis == g;
    assert paid * (1.0 + g) == received;
  }

  /** Profit is the excess of implied repo over the financing rate, on the money and time tied up. */
  lemma RepoAlgebra(paid: real, received: real, rate: real, days: real, basis: real)
    requires paid > 0.0 && days > 0.0 && basis > 0.0
    ensures var irr := (received / paid - 1.0) * basis / days;
      var profit := received - paid - paid * rate * days / basis;
      (profit > 0.0 <==> irr > rate) && (profit == 0.0 <==> irr == rate)
  {
    var irr := (received / paid - 1.0) * basis / days;
    var g := received / paid - 1.0;
    var h := days / basis;
    assert h > 0.0;
    assert irr * h == g by {
      assert irr * days == g * basis;
      assert irr * (days / basis) == irr * days / basis;
      assert g * basis / basis == g;
    }
    assert received - paid == paid * g;
    assert paid * rate * days / basis == paid * (rate * h);
    ProfitAlgebra(paid, g, rate, irr, h);
  }

  lemma ProfitAlgebra(paid: real, g: real, rate: real, irr: real, h: real)
    requires paid > 0.0 && h > 0.0 && irr * h == g
    ensures var profit := paid * g - paid * (rate * h);
      (profit > 0.0 <==> irr > rate) && (profit == 0.0 <==> irr == rate)
  {
    var k := paid * h;
    assert k > 0.0;
    assert paid * g - paid * (rate * h) == (irr - rate) * k;
    SignOfProduct(irr - rate, k);
  }
}
