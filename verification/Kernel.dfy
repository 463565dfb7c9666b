/**
  The bond calculation of `kernel_api.cpp`: validation, schedule, business-day adjustment,
  settlement filter, sizing protocol, price or yield, and risk metrics.
 */
module Kernel {
  import opened Options
  import opened Reals
  import opened CivilCalendar
  import opened BusinessDays
  import opened DayCount
  import opened Schedule
  import opened Pricing
  import opened BondMetrics
  import Brent
  import BrentProgress

  datatype Bond = Bond(issue: int, maturity: int, frequency: nat, couponRate: real, face: real)
  datatype Mode = YieldIn | PriceIn
  datatype Request = Request(settlement: int, mode: Mode, value: real, cal: Calendar)

  datatype Status =
    | Ok | InvalidArgument | BufferTooSmall | NoBracket | NotConverged | NonFinite | CoverageMissing

  datatype Cashflow = Cashflow(sequence: nat, nominalDate: int, paymentDate: int,
                               coupon: real, principal: real, total: real)

  datatype Result = Result(
    status: Status, cashflowCount: nat, provisional: bool,
    accrued: real, clean: real, dirty: real, yieldToMaturity: real,
    macaulay: real, modified: real, convexity: real, dv01: real
  )

  const ZERO_RESULT := Result(Ok, 0, false, 0.0, 0.0, 0.0, 0.0, 0.0, 0.0, 0.0, 0.0)
  const MAX_SCHEDULE := 120
  const TOLERANCE: real := 0.000000000001

  predicate ValidBond(b: Bond) {
    (b.frequency == 1 || b.frequency == 2) && b.issue < b.maturity && b.couponRate >= 0.0 && b.face > 0.0
  }

  method ValidateBond(b: Bond) returns (ok: bool)
    ensures ok <==> ValidBond(b)
  {
    if b.frequency != 1 && b.frequency != 2 { return false; }
    if b.maturity <= b.issue || b.couponRate < 0.0 || b.face <= 0.0 { return false; }
    return true;
  }

  predicate IsDiscount(b: Bond) {
    b.couponRate == 0.0
  }

  function CouponAmount(b: Bond): real
    requires ValidBond(b)
  {
    b.couponRate * b.face / b.frequency as real
  }

  /** Nominal dates: maturity alone for a discount bond, else the generated schedule. */
  function NominalOf(b: Bond): (s: seq<int>)
    requires ValidBond(b)
    ensures |s| > 0
  {
    if IsDiscount(b) then [b.maturity]
    else NominalDates(b.issue, b.maturity, MonthsPerPeriod(b.frequency), MAX_SCHEDULE)
  }

  function Payments(cal: Calendar, nominal: seq<int>): (s: seq<int>)
    ensures |s| == |nominal|
  {
    seq(|nominal|, i requires 0 <= i < |nominal| => Following(cal, nominal[i]))
  }

  function TermsOf(b: Bond, req: Request): (t: Terms)
    requires ValidBond(b)
    ensures ValidTerms(t)
  {
    var nominal := NominalOf(b);
    Terms(req.settlement, nominal, Payments(req.cal, nominal), CouponAmount(b), b.frequency, b.face)
  }

  predicate Outside(cal: Calendar, date: int) {
    date < cal.coverageStart || date > cal.coverageEnd
  }

  ghost predicate SomeOutside(cal: Calendar, dates: seq<int>) {
    exists i :: 0 <= i < |dates| && (dates[i] < cal.coverageStart || cal.coverageEnd < dates[i])
  }

  ghost predicate SomeBeyond(cal: Calendar, dates: seq<int>) {
    exists i :: 0 <= i < |dates| && dates[i] > cal.coverageEnd
  }

  lemma OneMoreDate(cal: Calendar, dates: seq<int>, i: nat)
    requires i < |dates|
    ensures SomeOutside(cal, dates[..i + 1]) <==> SomeOutside(cal, dates[..i]) || Outside(cal, dates[i])
    ensures SomeBeyond(cal, dates[..i + 1]) <==> SomeBeyond(cal, dates[..i]) || dates[i] > cal.coverageEnd
    ensures SomeOutside(cal, dates[..i + 1]) ==> SomeOutside(cal, dates)
  {
    var s := dates[..i + 1];
    assert s[..i] == dates[..i] && s[i] == dates[i];
    assert forall k :: 0 <= k < i ==> s[k] == dates[..i][k] == dates[k];
  }

  /** Exact coverage is required and some date of the calculation is not covered. */
  ghost predicate CoverageFails(cal: Calendar, settlement: int, payments: seq<int>) {
    cal.exactRequired && (!(cal.coverageStart <= settlement <= cal.coverageEnd) || SomeOutside(cal, payments))
  }

  /** The reported cashflows among the first `n` schedule entries. */
  function Entries(t: Terms, n: nat): seq<Cashflow>
    requires ValidTerms(t) && n <= |t.nominal|
  {
    if n == 0 then []
    else
      var rest := Entries(t, n - 1);
      if t.payments[n - 1] <= t.settlement then rest
      else
        var principal := if n == |t.nominal| then t.face else 0.0;
        rest + [Cashflow(|rest| + 1, t.nominal[n - 1], t.payments[n - 1],
                         t.coupon, principal, t.coupon + principal)]
  }

  // ---------- The settlement filters agree ----------

  /** Adjusting an ascending schedule leaves payment dates in order. */
  lemma AdjustedInOrder(b: Bond, req: Request)
    requires ValidBond(b)
    ensures InOrder(TermsOf(b, req))
  {
    hide AddMonths;
    var nominal := NominalOf(b);
    if !IsDiscount(b) {
      ScheduleAscending(b.issue, b.maturity, MonthsPerPeriod(b.frequency), MAX_SCHEDULE, nominal);
    }
    var t := TermsOf(b, req);
    hide NominalOf, Following;
    forall i, j | 0 <= i < j < |nominal|
      ensures t.payments[i] <= t.payments[j]
    {
      FollowingMonotone(req.cal, nominal[i], nominal[j]);
    }
  }

  /** The reported cashflow list and the priced cashflows are the same selection. */
  lemma {:induction false} FiltersAgree(t: Terms, n: nat)
    requires ValidTerms(t) && n <= |t.nominal|
    ensures |Entries(t, n)| == |SurvivingFlows(t, n)|
    ensures forall k :: 0 <= k < |Entries(t, n)| ==>
      Entries(t, n)[k].total == SurvivingFlows(t, n)[k].amount && Entries(t, n)[k].sequence == k + 1
  {
    hide FirstSurvivor, StubYears;
    if n > 0 {
      FiltersAgree(t, n - 1);
    }
  }

  /** The list reports the `i`-th coupon of the schedule in its place, as it is priced. */
  ghost predicate Reports(entries: seq<Cashflow>, t: Terms, i: nat)
    requires ValidTerms(t) && FirstSurvivor(t) <= i < |t.nominal|
  {
    && i - FirstSurvivor(t) < |entries|
    && var e := entries[i - FirstSurvivor(t)];
       && e.nominalDate == t.nominal[i] && e.paymentDate == t.payments[i]
       && e.coupon == t.coupon && e.principal == (if i == |t.nominal| - 1 then t.face else 0.0)
       && e.total == FlowAt(t, i).amount && e.sequence == i - FirstSurvivor(t) + 1
  }

  /** With payments in order, the reported cashflows are the same suffix of the schedule, date by date. */
  lemma {:induction false} EntriesAreSuffix(t: Terms, n: nat)
    requires ValidTerms(t) && InOrder(t) && FirstSurvivor(t) <= n <= |t.nominal|
    ensures |Entries(t, n)| == n - FirstSurvivor(t)
    ensures forall i :: FirstSurvivor(t) <= i < n ==> Reports(Entries(t, n), t, i)
  {
    hide StubYears;
    var first := FirstSurvivor(t);
    if n == first {
      NoEntriesBeforeFirst(t, n);
    } else {
      EntriesAreSuffix(t, n - 1);
      assert t.payments[n - 1] >= t.payments[first] > t.settlement;
      hide FirstSurvivor;
      forall i | first <= i < n
        ensures Reports(Entries(t, n), t, i)
      {
        assert i < n - 1 ==> Reports(Entries(t, n - 1), t, i);
      }
    }
  }

  lemma {:induction false} NoEntriesBeforeFirst(t: Terms, n: nat)
    requires ValidTerms(t) && n <= FirstSurvivor(t)
    ensures Entries(t, n) == []
  {
    if n > 0 {
      NoEntriesBeforeFirst(t, n - 1);
    }
  }

  /** Of a valid bond, reported and priced cashflows are one suffix of the schedule, from the first payment after settlement. */
  lemma CashflowsAreSuffix(b: Bond, req: Request)
    requires ValidBond(b)
    ensures var t := TermsOf(b, req); var first := FirstSurvivor(t); var entries := Entries(t, |t.nominal|);
      && |entries| == |Flows(t)| == |t.nominal| - first
      && (forall i :: first <= i < |t.nominal| ==>
            Reports(entries, t, i) && Flows(t)[i - first] == FlowAt(t, i))
  {
    hide *;
    TermsFrequency(b, req);
    AdjustedInOrder(b, req);
    SuffixOfSchedule(TermsOf(b, req));
  }

  lemma SuffixOfSchedule(t: Terms)
    requires ValidTerms(t) && InOrder(t)
    ensures var first := FirstSurvivor(t); var entries := Entries(t, |t.nominal|);
      && |entries| == |Flows(t)| == |t.nominal| - first
      && (forall i :: first <= i < |t.nominal| ==>
            Reports(entries, t, i) && Flows(t)[i - first] == FlowAt(t, i))
  {
    hide FirstSurvivor, InOrder, SurvivingFlows, FlowAt, Reports, Entries;
    EntriesAreSuffix(t, |t.nominal|);
    SurvivorsAreSuffix(t, |t.nominal|);
  }

  /**
    Every coupon bond meets a coupon date that is paid later: make that date a holiday and
    settle on it. The coupon is still priced, nothing has accrued, and interest accrued and
    to come do not make up the coupon.
   */
  lemma HolidayOnCouponDate(b: Bond, k: nat, mode: Mode, value: real) returns (req: Request)
    requires ValidBond(b) && !IsDiscount(b) && k < |NominalOf(b)|
    ensures ValidCalendar(req.cal) && req.mode == mode && req.value == value
    ensures var t := TermsOf(b, req);
      && InOrder(t) && t.settlement == t.nominal[k] < t.payments[k] && FirstSurvivor(t) <= k
      && AccruedInterest(t.settlement, t.nominal, b.couponRate, b.frequency, b.face)
         + b.couponRate * b.face * StubYears(t) != t.coupon
  {
    hide NominalOf, Following, AccruedInterest, StubYears, AccruedInterest, InOrder, FirstSurvivor, IsWeekend;
    var date := NominalOf(b)[k];
    req := Request(date, mode, value, Calendar([date], [], date, date, false));
    AdjustedInOrder(b, req);
    CouponPositive(b, req);
    HolidayPutsOff(req.cal, date);
    assert TermsOf(b, req).payments[k] == Following(req.cal, date);
    EarlierSurvivor(TermsOf(b, req), k);
    AccruedPlusStub(TermsOf(b, req), b.couponRate);
  }

  lemma HolidayPutsOff(cal: Calendar, date: int)
    requires date in cal.nonBusinessDays && date <= cal.coverageEnd
    ensures Following(cal, date) > date
  {
    assert !StopsAt(cal, date);
  }

  lemma EarlierSurvivor(t: Terms, k: nat)
    requires ValidTerms(t) && InOrder(t) && k < |t.nominal| && t.settlement == t.nominal[k] < t.payments[k]
    ensures FirstSurvivor(t) <= k && t.nominal[FirstSurvivor(t)] <= t.settlement
  {
    var first := FirstSurvivor(t);
    assert first < k ==> t.nominal[first] < t.nominal[k];
  }

  /** First loop of the calculation: adjust every date, check coverage, filter by settlement. */
  method AdjustAndFilter(t: Terms, cal: Calendar)
    returns (missing: bool, anyProvisional: bool, entries: seq<Cashflow>)
    requires ValidTerms(t) && ValidCalendar(cal) && t.payments == Payments(cal, t.nominal)
    ensures missing <==> cal.exactRequired && SomeOutside(cal, t.payments)
    ensures !missing ==> entries == Entries(t, |t.nominal|)
    ensures !missing ==> (anyProvisional <==> !cal.exactRequired && SomeBeyond(cal, t.payments))
  {
    hide Following, SomeOutside, SomeBeyond, Entries, Payments;
    missing, anyProvisional, entries := false, false, [];
    EntriesStep(t, 0);
    NoDates(cal, t.payments[..0]);
    for i := 0 to |t.nominal|
      invariant cal.exactRequired ==> !SomeOutside(cal, t.payments[..i])
      invariant anyProvisional <==> !cal.exactRequired && SomeBeyond(cal, t.payments[..i])
      invariant entries == Entries(t, i)
    {
      var paymentDate, usedProvisional := FollowingAdjust(cal, t.nominal[i]);
      PaymentAt(cal, t.nominal, i);
      OneMoreDate(cal, t.payments, i);
      EntriesStep(t, i + 1);
      if usedProvisional { anyProvisional := true; }
      if cal.exactRequired && Outside(cal, paymentDate) {
        return true, anyProvisional, [];
      }
      if paymentDate > t.settlement {
        var principal := if i == |t.nominal| - 1 then t.face else 0.0;
        entries := entries + [Cashflow(|entries| + 1, t.nominal[i], paymentDate,
                                       t.coupon, principal, t.coupon + principal)];
      }
    }
    assert t.payments[..|t.nominal|] == t.payments;
  }

  lemma PaymentAt(cal: Calendar, nominal: seq<int>, i: nat)
    requires i < |nominal|
    ensures Payments(cal, nominal)[i] == Following(cal, nominal[i])
  {
  }

  lemma EntriesStep(t: Terms, n: nat)
    requires ValidTerms(t) && n <= |t.nominal|
    ensures n == 0 ==> Entries(t, n) == []
    ensures n > 0 ==>
      var rest := Entries(t, n - 1);
      var principal := if n == |t.nominal| then t.face else 0.0;
      Entries(t, n) == if t.payments[n - 1] <= t.settlement then rest
                       else rest + [Cashflow(|rest| + 1, t.nominal[n - 1], t.payments[n - 1],
                                             t.coupon, principal, t.coupon + principal)]
  {
  }

  lemma NoDates(cal: Calendar, dates: seq<int>)
    requires dates == []
    ensures !SomeOutside(cal, dates) && !SomeBeyond(cal, dates)
  {
  }

  // ---------- Coupon bonds ----------

  function PriceResidual(pow: Power, t: Terms, accrued: real, target: real): real -> real
    requires ValidTerms(t)
  {
    y => DirtyPrice(pow, y, t) - accrued - target
  }

  /** What a converged yield is known to satisfy. */
  ghost predicate Solves(f: real -> real, y: real) {
    -0.5 <= y <= 1.0 && Brent.Answers(f, -0.5, 1.0, y, TOLERANCE, TOLERANCE)
  }

  const MAX_PASSES: nat := 100

  /** The search for a yield between -50% and 100%, where the residual changes sign. */
  function YieldSearch(f: real -> real): Brent.Ending
    requires f(-0.5) * f(1.0) < 0.0
  {
    Brent.InitialOnBracket(f, -0.5, 1.0);
    var s := Brent.Initial(f, -0.5, 1.0);
    Brent.Search(f, s, s.ends.b - s.ends.a, TOLERANCE, TOLERANCE, MAX_PASSES)
  }

  /** Outcome of solving for the yield; the yield itself when the status is `Ok`. */
  function SolvedYield(f: real -> real): (Status, real) {
    if f(-0.5) * f(1.0) >= 0.0 then (NoBracket, 0.0)
    else
      match YieldSearch(f)
      case Found(y) => (Ok, y)
      case Undefined => (NotConverged, 0.0)
      case OutOfPasses(y) => (NotConverged, y)
  }

  method SolveYield(pow: Power, t: Terms, accrued: real, target: real) returns (status: Status, y: real)
    requires ValidTerms(t)
    ensures (status, y) == SolvedYield(PriceResidual(pow, t, accrued, target))
    ensures status in {Ok, NoBracket, NotConverged}
    ensures status.Ok? ==> Solves(PriceResidual(pow, t, accrued, target), y)
  {
    hide PriceResidual, DirtyPrice, Brent.Search, Brent.Initial, Brent.SignChangeNear;
    var f := PriceResidual(pow, t, accrued, target);
    if f(-0.5) * f(1.0) >= 0.0 { return NoBracket, 0.0; }
    var ok;
    y, ok := Brent.BrentSolve(f, -0.5, 1.0, 0.000000000001, 0.000000000001, 100);
    return if ok then Ok else NotConverged, y;
  }

  /** The price-in residual falls strictly wherever the price does, so it has at most one root. */
  lemma ResidualMonotone(pow: Power, t: Terms, accrued: real, target: real)
    requires PowerLaws(pow) && ValidTerms(t) && t.coupon >= 0.0 && t.face > 0.0 && PaysLater(Flows(t))
    ensures Brent.StrictlyMonotone(PriceResidual(pow, t, accrued, target), -0.5, 1.0)
  {
    hide PowerLaws, DirtyPrice, PaysLater;
    forall x: real, y: real | -0.5 <= x < y <= 1.0
      ensures PriceResidual(pow, t, accrued, target)(y) < PriceResidual(pow, t, accrued, target)(x)
    {
      BaseAboveZero(x, t.frequency);
      DirtyPriceDecreasing(pow, x, y, t);
    }
  }

  lemma BaseAboveZero(y: real, frequency: nat)
    requires frequency > 0 && y >= -0.5
    ensures PeriodFactor(y, frequency) > 0.0
  {
    var f := frequency as real;
    assert y / f >= -0.5 / f;
    assert 0.5 / f <= 0.5 by { assert 0.5 / f * f == 0.5; }
  }

  /** Price-in finds a bracket exactly when the target lies between the clean prices at -50% and 100%. */
  lemma NoBracketIff(pow: Power, t: Terms, accrued: real, target: real)
    requires PowerLaws(pow) && ValidTerms(t) && t.coupon >= 0.0 && t.face > 0.0 && PaysLater(Flows(t))
    ensures SolvedYield(PriceResidual(pow, t, accrued, target)).0 == NoBracket
            <==> !(DirtyPrice(pow, 1.0, t) - accrued < target < DirtyPrice(pow, -0.5, t) - accrued)
  {
    hide PowerLaws, DirtyPrice, PaysLater, YieldSearch;
    BaseAboveZero(-0.5, t.frequency);
    DirtyPriceDecreasing(pow, -0.5, 1.0, t);
    var f := PriceResidual(pow, t, accrued, target);
    SignRule(f(-0.5), f(1.0));
  }

  /**
    The search for a yield is left without an answer to give exactly when one of its passes
    stalls at a yield of zero: that is its worse end and its remembered point at once.
   */
  lemma YieldSearchUndefinedIff(pow: Power, t: Terms, accrued: real, target: real)
    requires PowerLaws(pow) && ValidTerms(t) && t.coupon >= 0.0 && t.face > 0.0 && PaysLater(Flows(t))
    requires var f := PriceResidual(pow, t, accrued, target); f(-0.5) * f(1.0) < 0.0
    ensures var f := PriceResidual(pow, t, accrued, target); var s := Brent.Initial(f, -0.5, 1.0);
      && Brent.OnBracket(f, s)
      && (YieldSearch(f).Undefined?
          <==> BrentProgress.SomePassAtZero(f, s, s.ends.b - s.ends.a, TOLERANCE, TOLERANCE, MAX_PASSES))
  {
    hide PowerLaws, DirtyPrice, PaysLater, PriceResidual, Brent.Search, Brent.Initial;
    hide BrentProgress.SomePassAtZero, Brent.StrictlyMonotone, BrentProgress.Injective;
    var f := PriceResidual(pow, t, accrued, target);
    ResidualMonotone(pow, t, accrued, target);
    BrentProgress.MonotoneIsInjective(f, -0.5, 1.0);
    BrentProgress.UndefinedAtZeroIff(f, -0.5, 1.0, TOLERANCE, TOLERANCE, MAX_PASSES);
  }

  /** A solved yield is the yield: within tolerance of the only root, or of the price itself. */
  lemma SolvedYieldAccurate(pow: Power, t: Terms, accrued: real, target: real, y: real, root: real)
    requires PowerLaws(pow) && ValidTerms(t) && t.coupon >= 0.0 && t.face > 0.0 && PaysLater(Flows(t))
    requires Solves(PriceResidual(pow, t, accrued, target), y)
    requires -0.5 <= root <= 1.0 && DirtyPrice(pow, root, t) - accrued == target
    ensures Abs(y - root) <= TOLERANCE || Abs(DirtyPrice(pow, y, t) - accrued - target) <= TOLERANCE
  {
    hide PowerLaws, DirtyPrice, PaysLater;
    var f := PriceResidual(pow, t, accrued, target);
    ResidualMonotone(pow, t, accrued, target);
    if Abs(f(y)) > TOLERANCE {
      Brent.ConvergedNearRoot(f, -0.5, 1.0, root, y, TOLERANCE);
    }
  }

  /** The metrics loop recomputes exactly the priced cashflows. */
  method MetricArrays(pow: Power, y: real, t: Terms)
    returns (pvs: seq<real>, times: seq<real>, amounts: seq<real>)
    requires ValidTerms(t)
    ensures |pvs| == |times| == |amounts| == |Flows(t)|
    ensures forall k :: 0 <= k < |pvs| ==> times[k] == Flows(t)[k].time && amounts[k] == Flows(t)[k].amount
    ensures Valued(pow, y, t.frequency, pvs, times, amounts)
  {
    hide FirstSurvivor, StubYears, DiscountFactor, FlowAt;
    pvs, times, amounts := [], [], [];
    var n := |t.nominal|;
    var first := FindFirstSurvivor(t);
    NoFlowsBeforeFirst(t, first);
    var baseResidual := 0.0;
    if first < n {
      baseResidual := BaseResidual(t, first);
    }
    var i := first;
    while i < n
      invariant first <= i <= n
      invariant |pvs| == |times| == |amounts| == |SurvivingFlows(t, i)|
      invariant forall k :: 0 <= k < |pvs| ==>
        times[k] == SurvivingFlows(t, i)[k].time && amounts[k] == SurvivingFlows(t, i)[k].amount
        && pvs[k] == amounts[k] * DiscountFactor(pow, y, t.frequency, times[k])
    {
      if t.payments[i] > t.settlement {
        var flow := FlowOf(t, first, baseResidual, i);
        pvs := pvs + [flow.amount * DiscountFactor(pow, y, t.frequency, flow.time)];
        times := times + [flow.time];
        amounts := amounts + [flow.amount];
      }
      i := i + 1;
    }
  }

  /** The metric present values sum exactly to the dirty price. */
  lemma {:induction false} MetricsSumToPrice(pow: Power, y: real, frequency: nat, flows: seq<Flow>, pvs: seq<real>)
    requires frequency > 0 && |pvs| == |flows|
    requires forall k :: 0 <= k < |pvs| ==>
      pvs[k] == flows[k].amount * DiscountFactor(pow, y, frequency, flows[k].time)
    ensures Total(pvs) == PresentValue(pow, y, frequency, flows)
    decreases |flows|
  {
    hide DiscountFactor;
    if flows != [] {
      var n := |flows| - 1;
      MetricsSumToPrice(pow, y, frequency, flows[..n], pvs[..n]);
    }
  }

  function TimesOf(flows: seq<Flow>): (r: seq<real>)
    ensures |r| == |flows|
  {
    seq(|flows|, k requires 0 <= k < |flows| => flows[k].time)
  }

  function AmountsOf(flows: seq<Flow>): (r: seq<real>)
    ensures |r| == |flows|
  {
    seq(|flows|, k requires 0 <= k < |flows| => flows[k].amount)
  }

  function PvsOf(pow: Power, y: real, frequency: nat, flows: seq<Flow>): (r: seq<real>)
    requires frequency > 0
    ensures |r| == |flows|
  {
    seq(|flows|, k requires 0 <= k < |flows| =>
      flows[k].amount * DiscountFactor(pow, y, frequency, flows[k].time))
  }

  /** Macaulay duration: the present-value-weighted mean time of the cashflows. */
  function MeanTime(pow: Power, y: real, frequency: nat, flows: seq<Flow>): real
    requires frequency > 0
  {
    var price := PresentValue(pow, y, frequency, flows);
    if price == 0.0 then 0.0 else Dot(TimesOf(flows), PvsOf(pow, y, frequency, flows)) / price
  }

  function ConvexityOf(pow: Power, y: real, frequency: nat, flows: seq<Flow>): real
    requires frequency > 0
  {
    var price := PresentValue(pow, y, frequency, flows);
    if price == 0.0 then 0.0 else ConvexitySum(pow, y, frequency, AmountsOf(flows), TimesOf(flows)) / price
  }

  datatype Risk = Risk(macaulay: real, modified: real, convexity: real, dv01: real)

  /** Price, bumped prices and modified duration are all finite. */
  predicate Measurable(y: real, frequency: nat, flows: seq<Flow>)
    requires frequency > 0
  {
    && PeriodFactor(y, frequency) != 0.0 && Priceable(y, frequency, flows)
    && Priceable(y - BASIS_POINT, frequency, flows) && Priceable(y + BASIS_POINT, frequency, flows)
  }

  /** The risk figures of a coupon bond, where they are finite. */
  function RiskOf(pow: Power, y: real, t: Terms): Option<Risk>
    requires ValidTerms(t)
  {
    var b := PeriodFactor(y, t.frequency);
    var flows := Flows(t);
    if flows == [] then Some(Risk(0.0, 0.0, 0.0, 0.0))
    else if !Measurable(y, t.frequency, flows) then None
    else
      var mac := MeanTime(pow, y, t.frequency, flows);
      Some(Risk(mac, mac / b, ConvexityOf(pow, y, t.frequency, flows),
                Dv01(DirtyPrice(pow, y - BASIS_POINT, t), DirtyPrice(pow, y + BASIS_POINT, t))))
  }

  lemma ArraysOfFlows(pow: Power, y: real, frequency: nat, flows: seq<Flow>,
                      pvs: seq<real>, times: seq<real>, amounts: seq<real>)
    requires frequency > 0 && |pvs| == |times| == |amounts| == |flows|
    requires forall k :: 0 <= k < |pvs| ==> times[k] == flows[k].time && amounts[k] == flows[k].amount
    requires Valued(pow, y, frequency, pvs, times, amounts)
    ensures times == TimesOf(flows) && amounts == AmountsOf(flows) && pvs == PvsOf(pow, y, frequency, flows)
  {
    hide DiscountFactor;
    forall k | 0 <= k < |pvs|
      ensures pvs[k] == PvsOf(pow, y, frequency, flows)[k]
    {
      assert DiscountFactor(pow, y, frequency, times[k]) == DiscountFactor(pow, y, frequency, flows[k].time);
    }
  }

  method CouponRisk(pow: Power, y: real, t: Terms, dirtyPrice: real) returns (risk: Option<Risk>)
    requires ValidTerms(t) && dirtyPrice == DirtyPrice(pow, y, t) && Priceable(y, t.frequency, Flows(t))
    ensures risk == RiskOf(pow, y, t)
  {
    hide DiscountFactor, SurvivingFlows, PresentValue, Dot, ConvexitySum, Priceable;
    var pvs, times, amounts := MetricArrays(pow, y, t);
    ArraysOfFlows(pow, y, t.frequency, Flows(t), pvs, times, amounts);
    if |pvs| == 0 { return Some(Risk(0.0, 0.0, 0.0, 0.0)); }
    var b := PeriodFactor(y, t.frequency);
    var mac := MacaulayDuration(pvs, times, dirtyPrice);
    var conv := Convexity(pow, amounts, times, y, t.frequency, dirtyPrice);
    var pDown, downFinite := CouponBondDirtyPrice(pow, y - BASIS_POINT, t);
    var pUp, upFinite := CouponBondDirtyPrice(pow, y + BASIS_POINT, t);
    if b == 0.0 || !downFinite || !upFinite { return None; }
    return Some(Risk(mac, mac / b, conv, Dv01(pDown, pUp)));
  }

  /** Flow times never decrease along a schedule with payments in order. */
  lemma FlowTimesOrdered(t: Terms)
    requires ValidTerms(t) && InOrder(t)
    ensures forall k :: 0 <= k < |Flows(t)| ==>
      Flows(t)[0].time <= Flows(t)[k].time <= Flows(t)[|Flows(t)| - 1].time
  {
    hide FirstSurvivor, StubYears;
    var first, n := FirstSurvivor(t), |t.nominal|;
    SurvivorsAreSuffix(t, n);
    forall k | 0 <= k < |Flows(t)|
      ensures Flows(t)[0].time <= Flows(t)[k].time <= Flows(t)[|Flows(t)| - 1].time
    {
      assert Flows(t)[k] == Flows(t)[(first + k) - first] == FlowAt(t, first + k);
      assert Flows(t)[0] == FlowAt(t, first) && Flows(t)[n - 1 - first] == FlowAt(t, n - 1);
      FractionOrder(0, k, t.frequency);
      FractionOrder(k, n - 1 - first, t.frequency);
    }
  }

  lemma FractionOrder(j: nat, k: nat, f: nat)
    requires j <= k && f > 0
    ensures j as real / f as real <= k as real / f as real
  {
  }

  /** Macaulay duration lies between the first and the last cashflow time. */
  lemma MacaulayWithinTimes(pow: Power, y: real, t: Terms)
    requires PowerLaws(pow) && ValidTerms(t) && InOrder(t) && Flows(t) != []
    requires t.coupon > 0.0 && t.face > 0.0 && PeriodFactor(y, t.frequency) > 0.0
    ensures DirtyPrice(pow, y, t) > 0.0
    ensures Flows(t)[0].time <= MeanTime(pow, y, t.frequency, Flows(t)) <= Flows(t)[|Flows(t)| - 1].time
  {
    hide PowerLaws, DiscountFactor, SurvivingFlows, InOrder, PvsOf, PresentValue, Dot, Total;
    var flows, pvs := Flows(t), PvsOf(pow, y, t.frequency, Flows(t));
    var lo, hi := flows[0].time, flows[|flows| - 1].time;
    PositiveValues(pow, y, t);
    FlowTimesOrdered(t);
    PvsSumToPrice(pow, y, t.frequency, flows);
    DotWithinBounds(TimesOf(flows), pvs, lo, hi);
    MeanBounds(Dot(TimesOf(flows), pvs), Total(pvs), lo, hi);
  }

  lemma PvsSumToPrice(pow: Power, y: real, frequency: nat, flows: seq<Flow>)
    requires frequency > 0
    ensures Total(PvsOf(pow, y, frequency, flows)) == PresentValue(pow, y, frequency, flows)
  {
    hide DiscountFactor;
    MetricsSumToPrice(pow, y, frequency, flows, PvsOf(pow, y, frequency, flows));
  }

  lemma MeanBounds(sum: real, total: real, lo: real, hi: real)
    requires total > 0.0 && lo * total <= sum <= hi * total
    ensures lo <= sum / total <= hi
  {
    QuotientMonotone(lo * total, sum, total);
    QuotientMonotone(sum, hi * total, total);
    assert lo * total / total == lo && hi * total / total == hi;
  }

  lemma PositiveValues(pow: Power, y: real, t: Terms)
    requires PowerLaws(pow) && ValidTerms(t) && t.coupon > 0.0 && t.face > 0.0
    requires PeriodFactor(y, t.frequency) > 0.0
    ensures var pvs := PvsOf(pow, y, t.frequency, Flows(t));
      (forall k :: 0 <= k < |pvs| ==> pvs[k] > 0.0) && (Flows(t) != [] ==> Total(pvs) > 0.0)
  {
    var flows, pvs := Flows(t), PvsOf(pow, y, t.frequency, Flows(t));
    PositiveAmounts(t, |t.nominal|);
    forall k | 0 <= k < |pvs|
      ensures pvs[k] > 0.0
    {
      ScaleStrict(0.0, flows[k].amount, DiscountFactor(pow, y, t.frequency, flows[k].time));
    }
    TotalPositive(pvs);
  }

  lemma {:induction false} PositiveAmounts(t: Terms, n: nat)
    requires ValidTerms(t) && t.coupon > 0.0 && t.face > 0.0 && n <= |t.nominal|
    ensures forall k :: 0 <= k < |SurvivingFlows(t, n)| ==> SurvivingFlows(t, n)[k].amount > 0.0
  {
    hide FirstSurvivor, StubYears;
    if n > 0 { PositiveAmounts(t, n - 1); }
  }

  lemma {:induction false} TotalPositive(xs: seq<real>)
    requires forall k :: 0 <= k < |xs| ==> xs[k] > 0.0
    ensures Total(xs) >= 0.0 && (xs != [] ==> Total(xs) > 0.0)
  {
    if xs != [] { TotalPositive(xs[..|xs| - 1]); }
  }

  // ---------- Discount bonds ----------

  function DiscountPrice(face: real, y: real, years: real): real
    requires 1.0 + y * years != 0.0
  {
    face / (1.0 + y * years)
  }

  datatype Valuation = Valuation(yieldToMaturity: real, dirty: real, accrued: real, risk: Risk)

  /** No price that the calculation needs divides by zero. */
  predicate Bumpable(y: real, years: real) {
    1.0 + y * years != 0.0 && 1.0 + (y - BASIS_POINT) * years != 0.0 && 1.0 + (y + BASIS_POINT) * years != 0.0
  }

  /** The simple yield asked for, or the one that a price implies. */
  function DiscountYield(b: Bond, req: Request): Option<real> {
    var years := NaturalYears(req.settlement, b.maturity);
    if req.mode.YieldIn? then Some(req.value)
    else if req.value == 0.0 || years == 0.0 then None
    else Some((b.face / req.value - 1.0) / years)
  }

  /** The discount calculation divides by zero nowhere. */
  predicate DiscountDefined(b: Bond, req: Request) {
    var y := DiscountYield(b, req);
    y.Some? && Bumpable(y.value, NaturalYears(req.settlement, b.maturity))
  }

  /** Duration, convexity and DV01 of a single payment `years` away at simple yield `y`. */
  ghost predicate DiscountRisk(face: real, y: real, years: real, risk: Risk) {
    var denom := 1.0 + y * years;
    && Bumpable(y, years)
    && risk.dv01 == Dv01(DiscountPrice(face, y - BASIS_POINT, years), DiscountPrice(face, y + BASIS_POINT, years))
    && risk.macaulay == years && risk.modified * denom == years
    && risk.convexity == 2.0 * risk.modified * risk.modified
    && (denom - BASIS_POINT * years > 0.0 && years > 0.0 ==> risk.dv01 > 0.0)
  }

  /** What a discount-bond valuation satisfies: simple interest at the reported yield. */
  ghost predicate DiscountValued(b: Bond, req: Request, v: Valuation) {
    var years := NaturalYears(req.settlement, b.maturity);
    && v.dirty * (1.0 + v.yieldToMaturity * years) == b.face && v.accrued == 0.0
    && (if req.mode.YieldIn? then v.yieldToMaturity == req.value else v.dirty == req.value)
    && DiscountRisk(b.face, v.yieldToMaturity, years, v.risk)
  }

  /** Division by zero, which the source reports as a non-finite result, gives `None`. */
  method ValueDiscount(b: Bond, req: Request) returns (v: Option<Valuation>)
    requires ValidBond(b)
    ensures v.Some? <==> DiscountDefined(b, req)
    ensures v.Some? ==> DiscountValued(b, req, v.value)
  {
    hide CalendarPosition, DiscountRisk, Bumpable;
    var years := ActActNatural(req.settlement, b.maturity);
    var y, dirty;
    if req.mode.YieldIn? {
      y := req.value;
      if 1.0 + y * years == 0.0 {
        assert !Bumpable(y, years) by { ZeroDenominator(y, years); }
        return None;
      }
      dirty := b.face / (1.0 + y * years);
    } else {
      dirty := req.value;
      if dirty == 0.0 || years == 0.0 { return None; }
      y := (b.face / dirty - 1.0) / years;
      assert y * years == b.face / dirty - 1.0;
    }
    var risk := RiskOfDiscount(b.face, y, years);
    if risk.None? { return None; }
    v := Some(Valuation(y, dirty, 0.0, risk.value));
  }

  lemma ZeroDenominator(y: real, years: real)
    requires 1.0 + y * years == 0.0
    ensures !Bumpable(y, years)
  {
  }

  /**
    A matured discount bond has no cashflows left. Given a yield it is still valued at face;
    given a price, its yield divides by a term of zero.
   */
  lemma MaturedDiscountBond(b: Bond, req: Request)
    requires ValidBond(b) && IsDiscount(b) && Following(req.cal, b.maturity) <= req.settlement
    ensures var t := TermsOf(b, req); Entries(t, |t.nominal|) == []
    ensures DiscountDefined(b, req) <==> req.mode.YieldIn?
    ensures forall v :: DiscountValued(b, req, v) && req.mode.YieldIn? ==> v.dirty == b.face
  {
    hide CalendarPosition, Following, DiscountRisk;
    assert NaturalYears(req.settlement, b.maturity) == 0.0;
    var t := TermsOf(b, req);
    assert t.payments[0] <= t.settlement;
    forall v | DiscountValued(b, req, v) && req.mode.YieldIn?
      ensures v.dirty == b.face
    {
      assert v.yieldToMaturity * 0.0 == 0.0;
    }
  }

  /** A matured coupon bond is worth nothing. */
  lemma MaturedCouponBond(pow: Power, b: Bond, req: Request, y: real)
    requires ValidBond(b) && Following(req.cal, b.maturity) <= req.settlement
    ensures var t := TermsOf(b, req); Entries(t, |t.nominal|) == [] && DirtyPrice(pow, y, t) == 0.0
  {
    hide *;
    TermsFrequency(b, req);
    AdjustedInOrder(b, req);
    LastIsMaturity(b, req);
    NothingLeft(pow, y, TermsOf(b, req));
  }

  lemma NothingLeft(pow: Power, y: real, t: Terms)
    requires ValidTerms(t) && InOrder(t) && t.nominal != [] && t.payments[|t.nominal| - 1] <= t.settlement
    ensures Entries(t, |t.nominal|) == [] && DirtyPrice(pow, y, t) == 0.0
  {
    assert FirstSurvivor(t) == |t.nominal|;
    hide FirstSurvivor, InOrder;
    NoEntriesBeforeFirst(t, |t.nominal|);
    NoFlowsBeforeFirst(t, |t.nominal|);
    hide Entries, SurvivingFlows;
  }

  lemma LastIsMaturity(b: Bond, req: Request)
    requires ValidBond(b)
    ensures var t := TermsOf(b, req); var n := |t.nominal| - 1;
      n >= 0 && t.settlement == req.settlement && t.nominal[n] == b.maturity && t.payments[n] == Following(req.cal, b.maturity)
  {
    hide Following, AddMonths;
  }

  method RiskOfDiscount(face: real, y: real, years: real) returns (risk: Option<Risk>)
    requires face > 0.0
    ensures risk.Some? <==> Bumpable(y, years)
    ensures risk.Some? ==> DiscountRisk(face, y, years, risk.value)
  {
    var denom := 1.0 + y * years;
    if denom == 0.0 || 1.0 + (y - BASIS_POINT) * years == 0.0 || 1.0 + (y + BASIS_POINT) * years == 0.0 {
      return None;
    }
    SquareOfQuotient(years, denom);
    DiscountDv01(face, y, years);
    var pDown := DiscountPrice(face, y - BASIS_POINT, years);
    var pUp := DiscountPrice(face, y + BASIS_POINT, years);
    hide DiscountPrice;
    var modified := years / denom;
    assert modified * denom == years;
    risk := Some(Risk(years, modified, 2.0 * years * years / (denom * denom), Dv01(pDown, pUp)));
  }

  lemma SquareOfQuotient(x: real, d: real)
    requires d != 0.0
    ensures d * d != 0.0 && 2.0 * x * x / (d * d) == 2.0 * (x / d) * (x / d)
  {
    SignRule(d, d);
    var q := x / d;
    assert x == q * d;
    assert 2.0 * x * x == 2.0 * q * q * (d * d);
  }

  lemma DiscountDv01(face: real, y: real, years: real)
    requires face > 0.0
    requires 1.0 + (y - BASIS_POINT) * years != 0.0 && 1.0 + (y + BASIS_POINT) * years != 0.0
    ensures 1.0 + y * years - BASIS_POINT * years > 0.0 && years > 0.0 ==>
      DiscountPrice(face, y + BASIS_POINT, years) < DiscountPrice(face, y - BASIS_POINT, years)
  {
    var p, q := 1.0 + (y - BASIS_POINT) * years, 1.0 + (y + BASIS_POINT) * years;
    assert p == 1.0 + y * years - BASIS_POINT * years;
    assert q == p + 2.0 * BASIS_POINT * years;
    if p > 0.0 && years > 0.0 {
      ReciprocalOrder(p, q);
      ScaleStrict(1.0 / q, 1.0 / p, face);
      assert face * (1.0 / q) == face / q && face * (1.0 / p) == face / p;
    }
  }

  // ---------- The calculation ----------

  /** What a coupon-bond valuation satisfies. */
  ghost predicate CouponValued(pow: Power, b: Bond, req: Request, v: Valuation)
    requires ValidBond(b)
  {
    var t := TermsOf(b, req);
    && v.dirty == DirtyPrice(pow, v.yieldToMaturity, t)
    && v.accrued == AccruedInterest(req.settlement, t.nominal, b.couponRate, b.frequency, b.face)
    && (req.mode.YieldIn? ==> v.yieldToMaturity == req.value)
    && (req.mode.PriceIn? ==> Solves(PriceResidual(pow, t, v.accrued, req.value), v.yieldToMaturity))
    && RiskOf(pow, v.yieldToMaturity, t) == Some(v.risk)
  }

  /** The yield a coupon valuation uses: the one given, or the one that prices to the given clean price. */
  function CouponYield(pow: Power, b: Bond, req: Request): (Status, real)
    requires ValidBond(b)
  {
    var t := TermsOf(b, req);
    if req.mode.YieldIn? then (Ok, req.value)
    else SolvedYield(PriceResidual(pow, t, AccruedInterest(req.settlement, t.nominal, b.couponRate, b.frequency, b.face), req.value))
  }

  function CouponStatus(pow: Power, b: Bond, req: Request): Status
    requires ValidBond(b)
  {
    var (status, y) := CouponYield(pow, b, req);
    if status != Ok then status else if RiskOf(pow, y, TermsOf(b, req)).None? then NonFinite else Ok
  }

  method ValueCoupon(pow: Power, b: Bond, req: Request, t: Terms) returns (status: Status, v: Valuation)
    requires ValidBond(b) && t == TermsOf(b, req)
    ensures status == CouponStatus(pow, b, req) && status in {Ok, NoBracket, NotConverged, NonFinite}
    ensures status.Ok? ==> CouponValued(pow, b, req, v) && v.yieldToMaturity == CouponYield(pow, b, req).1
  {
    hide TermsOf, DirtyPrice, AccruedInterest, PriceResidual, Solves, SolvedYield, RiskOf, Priceable;
    assert ValidTerms(t) && t.frequency == b.frequency > 0 by { TermsFrequency(b, req); }
    v := Valuation(0.0, 0.0, 0.0, Risk(0.0, 0.0, 0.0, 0.0));
    var accrued := AccruedInterestCoupon(req.settlement, t.nominal, b.couponRate, b.frequency, b.face);
    var y := req.value;
    if req.mode.PriceIn? {
      status, y := SolveYield(pow, t, accrued, req.value);
      if status != Ok { return; }
    }
    var dirty, finite := CouponBondDirtyPrice(pow, y, t);
    if !finite {
      NotMeasurable(pow, y, t);
      return NonFinite, v;
    }
    var risk := CouponRisk(pow, y, t, dirty);
    if risk.None? { return NonFinite, v; }
    return Ok, Valuation(y, dirty, accrued, risk.value);
  }

  lemma NotMeasurable(pow: Power, y: real, t: Terms)
    requires ValidTerms(t) && !Priceable(y, t.frequency, Flows(t))
    ensures RiskOf(pow, y, t).None?
  {
    hide PowDefined, SurvivingFlows;
  }

  lemma TermsFrequency(b: Bond, req: Request)
    requires ValidBond(b)
    ensures ValidTerms(TermsOf(b, req)) && TermsOf(b, req).frequency == b.frequency > 0
  {
  }

  /** Nothing but the status and the sizing fields is written when a calculation does not succeed. */
  predicate Blank(r: Result) {
    && r.accrued == 0.0 == r.clean && r.dirty == 0.0 == r.yieldToMaturity
    && r.macaulay == 0.0 == r.modified && r.convexity == 0.0 == r.dv01
  }

  /** The figures of a result, as a valuation. */
  function Figures(r: Result): Valuation {
    Valuation(r.yieldToMaturity, r.dirty, r.accrued, Risk(r.macaulay, r.modified, r.convexity, r.dv01))
  }

  function ValuationStatus(pow: Power, b: Bond, req: Request): Status
    requires ValidBond(b)
  {
    if !IsDiscount(b) then CouponStatus(pow, b, req)
    else if DiscountDefined(b, req) then Ok
    else NonFinite
  }

  /** The outcome of a full calculation on valid, covered input with room for the cashflows. */
  ghost predicate Outcome(pow: Power, b: Bond, req: Request, r: Result)
    requires ValidBond(b)
  {
    && r.status == ValuationStatus(pow, b, req)
    && (r.status.Ok? ==> r.clean + r.accrued == r.dirty)
    && (r.status.Ok? ==>
        if IsDiscount(b) then DiscountValued(b, req, Figures(r)) else CouponValued(pow, b, req, Figures(r)))
  }

  /**
    The whole call. `None` for the capacity is the sizing call without a buffer; a buffer
    of capacity zero is rejected, as every mismatch of buffer and capacity is.
   */
  method Calculate(pow: Power, b: Bond, req: Request, capacity: Option<nat>)
    returns (r: Result, cashflows: seq<Cashflow>)
    ensures r.status.InvalidArgument? <==> !(ValidBond(b) && ValidCalendar(req.cal)) || capacity == Some(0)
    ensures ValidBond(b) && !r.status.InvalidArgument? ==>
      (r.status.CoverageMissing? <==> CoverageFails(req.cal, req.settlement, TermsOf(b, req).payments))
    ensures ValidBond(b) && !r.status.InvalidArgument? && !r.status.CoverageMissing? ==>
      var t := TermsOf(b, req);
      && r.cashflowCount == |Entries(t, |t.nominal|)|
      && (r.provisional <==> !req.cal.exactRequired && SomeBeyond(req.cal, t.payments))
      && (capacity.None? ==> r.status == if r.cashflowCount > 0 then BufferTooSmall else Ok)
      && (capacity.Some? ==> (r.status.BufferTooSmall? <==> capacity.value < r.cashflowCount))
      && (capacity.Some? && r.status.Ok? ==> cashflows == Entries(t, |t.nominal|))
      && (capacity.Some? && !r.status.BufferTooSmall? ==> Outcome(pow, b, req, r))
    ensures capacity.None? || !r.status.Ok? ==> Blank(r) && cashflows == []
  {
    hide TermsOf, Entries, SomeBeyond, SomeOutside, DiscountValued, CouponValued, ValidTerms, CouponYield, DiscountDefined;
    hide RiskOf;
    cashflows := [];
    r := ZERO_RESULT;
    var sortedHolidays := ValidateSortedUniqueDates(req.cal.nonBusinessDays);
    var sortedWeekends := ValidateSortedUniqueDates(req.cal.workWeekends);
    var bondOk := ValidateBond(b);
    if !bondOk || req.cal.coverageEnd < req.cal.coverageStart || !sortedHolidays || !sortedWeekends {
      return r.(status := InvalidArgument), cashflows;
    }
    if capacity == Some(0) {
      return r.(status := InvalidArgument), cashflows;
    }
    if req.cal.exactRequired && Outside(req.cal, req.settlement) {
      return r.(status := CoverageMissing), cashflows;
    }
    var t := BuildTerms(b, req);
    var missing, provisional, entries := AdjustAndFilter(t, req.cal);
    if missing {
      return r.(status := CoverageMissing), cashflows;
    }
    r := r.(cashflowCount := |entries|, provisional := provisional);
    if capacity.None? {
      return r.(status := if |entries| > 0 then BufferTooSmall else Ok), cashflows;
    }
    if capacity.value < |entries| {
      return r.(status := BufferTooSmall), cashflows;
    }
    var v;
    if b.couponRate == 0.0 {
      var valued := ValueDiscount(b, req);
      if valued.None? { return r.(status := NonFinite), cashflows; }
      v := valued.value;
    } else {
      var status;
      status, v := ValueCoupon(pow, b, req, t);
      if status != Ok { return r.(status := status), cashflows; }
    }
    r := Result(Ok, |entries|, provisional, v.accrued, v.dirty - v.accrued, v.dirty, v.yieldToMaturity,
                v.risk.macaulay, v.risk.modified, v.risk.convexity, v.risk.dv01);
    assert Figures(r) == v;
    return r, entries;
  }

  /** The schedule buffer and the payment-date array of the source, as one value. */
  method BuildTerms(b: Bond, req: Request) returns (t: Terms)
    requires ValidBond(b) && ValidCalendar(req.cal)
    ensures t == TermsOf(b, req) && ValidTerms(t) && t.payments == Payments(req.cal, t.nominal)
  {
    hide AddMonths, Following;
    var nominal := [b.maturity];
    if b.couponRate != 0.0 {
      var buffer := new int[120];
      var count := GenerateNominalSchedule(b.issue, b.maturity, b.frequency, buffer);
      nominal := buffer[..count];
      var p := MonthsPerPeriod(b.frequency);
      ScheduleUnique(b.issue, b.maturity, p, MAX_SCHEDULE, nominal,
                     NominalDates(b.issue, b.maturity, p, MAX_SCHEDULE));
    }
    var payments := [];
    for i := 0 to |nominal|
      invariant payments == Payments(req.cal, nominal[..i])
    {
      var paymentDate, _ := FollowingAdjust(req.cal, nominal[i]);
      payments := payments + [paymentDate];
    }
    assert nominal[..|nominal|] == nominal;
    t := Terms(req.settlement, nominal, payments, b.couponRate * b.face / b.frequency as real, b.frequency, b.face);
  }

  // ---------- The bond behind the terms ----------

  /** The coupons of a year make up the coupon rate on face. */
  lemma YearOfBondCoupons(b: Bond, req: Request)
    requires ValidBond(b)
    ensures var t := TermsOf(b, req); t.coupon * b.frequency as real == b.couponRate * b.face && t.face == b.face
  {
    hide *;
    TermsFrequency(b, req);
    TermsAmounts(b, req);
    QuotientBack(b.couponRate * b.face, b.frequency as real);
  }

  lemma TermsAmounts(b: Bond, req: Request)
    requires ValidBond(b)
    ensures var t := TermsOf(b, req);
      b.frequency > 0 && t.coupon == b.couponRate * b.face / b.frequency as real && t.face == b.face && t.frequency == b.frequency
  {
    hide NominalOf, Payments;
  }

  lemma QuotientBack(x: real, k: real)
    requires k != 0.0
    ensures x / k * k == x
  {
  }

  /** A bond of whole years pays `frequency` times a year, on every anniversary of issue. */
  lemma BondOfYears(b: Bond, years: int)
    requires ValidBond(b) && !IsDiscount(b) && 1 <= years && years * b.frequency <= 120
    requires b.maturity == AddMonths(b.issue, 12 * years)
    ensures var s := NominalOf(b);
      && |s| == years * b.frequency
      && (forall k :: 1 <= k <= years ==>
            0 < k * b.frequency <= |s| && s[k * b.frequency - 1] == AddMonths(b.issue, 12 * k))
  {
    hide AddMonths;
    ScheduleOfYears(b.issue, years, b.frequency, MAX_SCHEDULE, NominalOf(b));
  }

  /** On a paid coupon date a bond is priced at par exactly when its coupon rate is the yield. */
  lemma BondParity(pow: Power, b: Bond, req: Request, k: nat, y: real)
    requires PowerLaws(pow) && ValidBond(b) && OnCouponDate(TermsOf(b, req), k) && PeriodFactor(y, b.frequency) > 0.0
    ensures var price := DirtyPrice(pow, y, TermsOf(b, req));
      (price > b.face <==> b.couponRate > y) && (price == b.face <==> b.couponRate == y)
  {
    hide *;
    TermsAmounts(b, req);
    FacePositive(b);
    ParitySigns(pow, y, TermsOf(b, req), k, b.couponRate);
  }

  lemma FacePositive(b: Bond)
    requires ValidBond(b)
    ensures b.face > 0.0
  {
  }

  lemma ParitySigns(pow: Power, y: real, t: Terms, k: nat, couponRate: real)
    requires PowerLaws(pow) && OnCouponDate(t, k) && t.face > 0.0
    requires t.coupon == couponRate * t.face / t.frequency as real && PeriodFactor(y, t.frequency) > 0.0
    ensures DirtyPrice(pow, y, t) > t.face <==> couponRate > y
    ensures DirtyPrice(pow, y, t) == t.face <==> couponRate == y
  {
    hide *;
    CouponDateParity(pow, y, t, k, couponRate);
  }

  // ---------- What a result guarantees ----------

  /** Price, yield and accrued interest of a coupon result, read off its fields. */
  lemma CouponResultPrices(pow: Power, b: Bond, req: Request, r: Result)
    requires ValidBond(b) && !IsDiscount(b) && Outcome(pow, b, req, r) && r.status.Ok?
    ensures r.clean + r.accrued == r.dirty == PresentValue(pow, r.yieldToMaturity, b.frequency, Flows(TermsOf(b, req)))
    ensures 0.0 <= r.accrued && r.accrued * b.frequency as real < b.couponRate * b.face
    ensures req.mode.YieldIn? ==> r.yieldToMaturity == req.value
  {
    hide RiskOf, Solves, AccruedInterest, TermsOf, SurvivingFlows, PresentValue, CouponStatus;
    TermsFrequency(b, req);
    AccruedWithinCoupon(req.settlement, TermsOf(b, req).nominal, b.couponRate, b.frequency, b.face);
    assert b.couponRate * b.face / b.frequency as real * b.frequency as real == b.couponRate * b.face;
    ScaleStrict(r.accrued, b.couponRate * b.face / b.frequency as real, b.frequency as real);
  }

  /** Given a price, the result reprices to it, or its yield is within 1e-12 of the only one that does. */
  lemma CouponResultSolvesPrice(pow: Power, b: Bond, req: Request, r: Result, root: real)
    requires PowerLaws(pow) && ValidBond(b) && !IsDiscount(b) && req.mode.PriceIn?
    requires Outcome(pow, b, req, r) && r.status.Ok? && PaysLater(Flows(TermsOf(b, req)))
    requires -0.5 <= root <= 1.0 && DirtyPrice(pow, root, TermsOf(b, req)) - r.accrued == req.value
    ensures -0.5 <= r.yieldToMaturity <= 1.0
    ensures Abs(r.clean - req.value) <= 0.000000000001 || Abs(r.yieldToMaturity - root) <= 0.000000000001
  {
    hide PowerLaws, RiskOf, TermsOf, SurvivingFlows, PaysLater, DirtyPrice, AccruedInterest, PriceResidual, CouponStatus;
    hide Brent.Answers;
    CouponPositive(b, req);
    SolvedYieldAccurate(pow, TermsOf(b, req), r.accrued, req.value, r.yieldToMaturity, root);
  }

  /**
    Risk figures of a coupon result with cashflows left, at any yield whose lower bump keeps
    the period factor positive, read off its fields.
   */
  lemma CouponResultRisk(pow: Power, b: Bond, req: Request, r: Result)
    requires PowerLaws(pow) && ValidBond(b) && !IsDiscount(b) && Outcome(pow, b, req, r) && r.status.Ok?
    requires PeriodFactor(r.yieldToMaturity - 0.0001, b.frequency) > 0.0
    requires Flows(TermsOf(b, req)) != []
    ensures var flows := Flows(TermsOf(b, req));
      && r.dirty > 0.0
      && flows[0].time <= r.macaulay <= flows[|flows| - 1].time
      && r.modified * (1.0 + r.yieldToMaturity / b.frequency as real) == r.macaulay
      && r.convexity >= r.modified * r.modified
      && (r.dv01 > 0.0 <==> PaysLater(flows))
  {
    hide PowerLaws, RiskOf, TermsOf, Flows, CouponValued, PaysLater, CouponStatus;
    ReportedRiskFacts(pow, b, req, Figures(r));
    ModifiedQuotient(pow, b, req, Figures(r));
  }

  lemma ModifiedQuotient(pow: Power, b: Bond, req: Request, v: Valuation)
    requires ValidBond(b) && CouponValued(pow, b, req, v) && Flows(TermsOf(b, req)) != []
    requires PeriodFactor(v.yieldToMaturity - BASIS_POINT, b.frequency) > 0.0
    ensures v.risk.modified * (1.0 + v.yieldToMaturity / b.frequency as real) == v.risk.macaulay
  {
    hide *;
    TermsFrequency(b, req);
    ValuedFields(pow, b, req, v);
    BumpedBase(v.yieldToMaturity, b.frequency);
    RiskFields(pow, v.yieldToMaturity, TermsOf(b, req), v.risk);
    PeriodFactorIs(v.yieldToMaturity, b.frequency);
    QuotientBack(v.risk.macaulay, PeriodFactor(v.yieldToMaturity, b.frequency));
  }

  lemma PeriodFactorIs(y: real, frequency: nat)
    requires frequency > 0
    ensures PeriodFactor(y, frequency) == 1.0 + y / frequency as real
  {
  }

  /** A discount result, read off its fields: simple interest over the years to maturity. */
  lemma DiscountResult(pow: Power, b: Bond, req: Request, r: Result)
    requires ValidBond(b) && IsDiscount(b) && Outcome(pow, b, req, r) && r.status.Ok?
    ensures r.accrued == 0.0 && r.clean == r.dirty
    ensures if req.mode.PriceIn? then r.clean == req.value else r.yieldToMaturity == req.value
    ensures var years := NaturalYears(req.settlement, b.maturity); var growth := 1.0 + r.yieldToMaturity * years;
      && r.dirty * growth == b.face && r.macaulay == years && r.modified * growth == years
      && r.convexity == 2.0 * r.modified * r.modified
  {
    hide *;
    DiscountFigures(pow, b, req, r);
    DiscountRiskFigures(b.face, r.yieldToMaturity, NaturalYears(req.settlement, b.maturity), r);
  }

  /** Its DV01 is the central difference over one basis point, in closed form. */
  lemma DiscountResultDv01(pow: Power, b: Bond, req: Request, r: Result)
    requires ValidBond(b) && IsDiscount(b) && Outcome(pow, b, req, r) && r.status.Ok?
    ensures var years := NaturalYears(req.settlement, b.maturity);
      var growth, bump := 1.0 + r.yieldToMaturity * years, 0.0001 * years;
      r.dv01 * (growth * growth - bump * bump) == bump * b.face
  {
    hide *;
    var years := NaturalYears(req.settlement, b.maturity);
    DiscountFigures(pow, b, req, r);
    DiscountRiskFigures(b.face, r.yieldToMaturity, years, r);
    DiscountDv01Size(b.face, r.yieldToMaturity, years);
  }

  lemma DiscountFigures(pow: Power, b: Bond, req: Request, r: Result)
    requires ValidBond(b) && IsDiscount(b) && Outcome(pow, b, req, r) && r.status.Ok?
    ensures var years := NaturalYears(req.settlement, b.maturity);
      && r.accrued == 0.0 && r.clean == r.dirty && r.dirty * (1.0 + r.yieldToMaturity * years) == b.face
      && (if req.mode.PriceIn? then r.clean == req.value else r.yieldToMaturity == req.value)
      && DiscountRisk(b.face, r.yieldToMaturity, years, Risk(r.macaulay, r.modified, r.convexity, r.dv01))
  {
    hide DiscountRisk, NaturalYears, CouponStatus, DiscountDefined;
  }

  lemma DiscountRiskFigures(face: real, y: real, years: real, r: Result)
    requires DiscountRisk(face, y, years, Risk(r.macaulay, r.modified, r.convexity, r.dv01))
    ensures Bumpable(y, years)
    ensures r.macaulay == years && r.modified * (1.0 + y * years) == years && r.convexity == 2.0 * r.modified * r.modified
    ensures r.dv01 == Dv01(DiscountPrice(face, y - BASIS_POINT, years), DiscountPrice(face, y + BASIS_POINT, years))
  {
    hide Dv01, DiscountPrice;
  }

  /** The size of the central difference, in closed form. */
  lemma DiscountDv01Size(face: real, y: real, years: real)
    requires Bumpable(y, years)
    ensures var growth := 1.0 + y * years; var bump := 0.0001 * years;
      Dv01(DiscountPrice(face, y - BASIS_POINT, years), DiscountPrice(face, y + BASIS_POINT, years))
      * (growth * growth - bump * bump) == bump * face
  {
    var growth, bump := 1.0 + y * years, 0.0001 * years;
    assert 1.0 + (y - BASIS_POINT) * years == growth - bump && 1.0 + (y + BASIS_POINT) * years == growth + bump;
    HalfDifference(face, growth - bump, growth + bump, bump);
    assert (growth - bump) * (growth + bump) == growth * growth - bump * bump;
  }

  /**
    For every valid coupon bond with cashflows left, at any yield whose lower bump keeps the
    period factor positive: a positive price, a duration between the first and last
    cashflow times, a convexity no smaller than squared modified duration, and a DV01
    that is positive exactly when some payment is not yet due.
   */
  lemma ReportedRiskFacts(pow: Power, b: Bond, req: Request, v: Valuation)
    requires PowerLaws(pow) && ValidBond(b) && !IsDiscount(b) && CouponValued(pow, b, req, v)
    requires PeriodFactor(v.yieldToMaturity - BASIS_POINT, b.frequency) > 0.0
    requires Flows(TermsOf(b, req)) != []
    ensures var flows := Flows(TermsOf(b, req));
      && v.dirty > 0.0
      && flows[0].time <= v.risk.macaulay <= flows[|flows| - 1].time
      && v.risk.convexity >= v.risk.modified * v.risk.modified
      && (v.risk.dv01 > 0.0 <==> PaysLater(flows))
  {
    hide *;
    var t, y := TermsOf(b, req), v.yieldToMaturity;
    ValuedFields(pow, b, req, v);
    CouponPositive(b, req);
    AdjustedInOrder(b, req);
    TermsFrequency(b, req);
    BumpedBase(y, b.frequency);
    RiskFields(pow, y, t, v.risk);
    MacaulayWithinTimes(pow, y, t);
    Dv01Positive(pow, y, t);
    ConvexityFloor(pow, y, t);
  }

  lemma ValuedFields(pow: Power, b: Bond, req: Request, v: Valuation)
    requires ValidBond(b) && CouponValued(pow, b, req, v)
    ensures var t := TermsOf(b, req);
      v.dirty == DirtyPrice(pow, v.yieldToMaturity, t) && RiskOf(pow, v.yieldToMaturity, t) == Some(v.risk)
  {
    hide TermsOf, DirtyPrice, AccruedInterest, Solves, RiskOf;
  }

  lemma RiskFields(pow: Power, y: real, t: Terms, risk: Risk)
    requires ValidTerms(t) && Flows(t) != [] && PeriodFactor(y, t.frequency) > 0.0
    requires RiskOf(pow, y, t) == Some(risk)
    ensures risk.macaulay == MeanTime(pow, y, t.frequency, Flows(t))
    ensures risk.modified == risk.macaulay / (PeriodFactor(y, t.frequency))
    ensures risk.convexity == ConvexityOf(pow, y, t.frequency, Flows(t))
    ensures risk.dv01 == Dv01(DirtyPrice(pow, y - BASIS_POINT, t), DirtyPrice(pow, y + BASIS_POINT, t))
  {
    hide MeanTime, ConvexityOf, DirtyPrice, SurvivingFlows;
  }

  lemma CouponPositive(b: Bond, req: Request)
    requires ValidBond(b) && !IsDiscount(b)
    ensures var t := TermsOf(b, req); t.coupon > 0.0 && t.face > 0.0 && t.frequency == b.frequency
  {
    hide NominalOf, Payments;
    assert b.couponRate * b.face > 0.0;
  }

  lemma BumpedBase(y: real, frequency: nat)
    requires frequency > 0 && PeriodFactor(y - BASIS_POINT, frequency) > 0.0
    ensures PeriodFactor(y, frequency) > 0.0
  {
    QuotientOrder(y - BASIS_POINT, y, frequency as real);
  }

  lemma ConvexityFloor(pow: Power, y: real, t: Terms)
    requires PowerLaws(pow) && ValidTerms(t) && InOrder(t) && Flows(t) != []
    requires t.coupon > 0.0 && t.face > 0.0 && PeriodFactor(y, t.frequency) > 0.0
    ensures var m := MeanTime(pow, y, t.frequency, Flows(t)) / (PeriodFactor(y, t.frequency));
      ConvexityOf(pow, y, t.frequency, Flows(t)) >= m * m
  {
    hide PowerLaws, DiscountFactor, SurvivingFlows, PresentValue, Dot, Total, ConvexitySum, SquareSum;
    var flows, f := Flows(t), t.frequency as real;
    var pvs := PvsOf(pow, y, t.frequency, flows);
    var price := PresentValue(pow, y, t.frequency, flows);
    PositiveValues(pow, y, t);
    PvsSumToPrice(pow, y, t.frequency, flows);
    ConvexityDominates(pow, y, t.frequency, pvs, TimesOf(flows), AmountsOf(flows), price);
    MacaulayWithinTimes(pow, y, t);
    FirstTimeNonneg(t);
    hide MeanTime, ConvexityOf, PvsOf;
    assert MeanTime(pow, y, t.frequency, flows) == Dot(TimesOf(flows), pvs) / price by { MeanTimeIs(pow, y, t.frequency, flows); }
    var d, b := MeanTime(pow, y, t.frequency, flows), 1.0 + y / f;
    assert d / b * b == d;
    FloorAlgebra(b, ConvexityOf(pow, y, t.frequency, flows), d, f, d / b);
  }

  lemma MeanTimeIs(pow: Power, y: real, frequency: nat, flows: seq<Flow>)
    requires frequency > 0 && PresentValue(pow, y, frequency, flows) != 0.0
    ensures MeanTime(pow, y, frequency, flows)
         == Dot(TimesOf(flows), PvsOf(pow, y, frequency, flows)) / PresentValue(pow, y, frequency, flows)
  {
  }

  lemma FirstTimeNonneg(t: Terms)
    requires ValidTerms(t) && Flows(t) != [] && t.coupon > 0.0 && t.face > 0.0
    ensures Flows(t)[0].time >= 0.0
  {
    FlowsNonnegative(t, |t.nominal|);
    hide SurvivingFlows;
  }

  lemma FloorAlgebra(b: real, conv: real, d: real, f: real, m: real)
    requires b > 0.0 && d >= 0.0 && f > 0.0 && m * b == d
    requires Forward(b, conv) >= d * d + d / f
    ensures conv >= m * m
  {
    assert d / f >= 0.0;
    SquareFactors(b, d, m);
    QuotientFloor(b, b * conv, m * d);
    QuotientFloor(b, conv, m * m);
  }

  lemma SquareFactors(b: real, d: real, m: real)
    requires m * b == d
    ensures d * d == b * (m * d) && m * d == b * (m * m)
  {
  }

  lemma QuotientFloor(k: real, x: real, z: real)
    requires k > 0.0 && k * x >= k * z
    ensures x >= z
  {
    SignOfProduct(z - x, k);
    assert (z - x) * k == k * z - k * x;
  }
}
