# Verification of the fixed-income kernel, the worker, sessions and lineage paging

This project models four parts of the system and proves properties of the models.

* **The fixed-income kernel** (C++). Epoch-day and civil-date conversion on the proleptic
  Gregorian calendar of ISO 8601 and month arithmetic (`CivilCalendar`); Following adjustment
  over holiday and work-weekend tables, section 4.12 of the 2006 ISDA Definitions
  (`BusinessDays`); Actual/Actual in its ICMA form (ICMA Rule 251) and its calendar-year form
  (`DayCount`); coupon schedules (`Schedule`); prices, accrued interest, duration and
  convexity (`Pricing`, `BondMetrics`); the bracketed root solver (`Brent`, `BrentProgress`);
  the whole bond calculation with its sizing protocol (`Kernel`); conversion factors, delivery
  accrual and the basis, carry and implied-repo analysis of treasury futures (`Futures`,
  `Delivery`); integer hedging (`Hedge`); curve interpolation (`Curve`).
* **The worker** (Rust). A claimed task as a race of work, lease renewal and deadline, and the
  claim loop around it, as transition systems over traces of backend calls (`Worker`).
* **Sessions and app grants** (Rust). Calls that take the lock twice, interleaved step by step
  (`Sessions`), and the application object whose methods are the uninterrupted calls.
* **Lineage paging** (Rust). Cursor printing and parsing, and the traversal by next-cursors
  (`Lineage`).

`Integers`, `Reals` and `Options` hold shared arithmetic facts and the option type. Loops of the
source are methods with loops, proved against specification functions; the session store is a
class; the rest is functions. `dafny verify dfyconfig.toml` checks everything.

## What the main results say

* Day numbers and civil dates are mutually inverse and ordered alike for every day, negative
  ones included, and the code's corrections of truncated division are what makes it so
  (`DaysRoundTrip`, `CivilRoundTrip`, `OrderIsomorphism`, `NextDay`, `TruncFixupsAreFloor`).
* A schedule is ascending and regular because month arithmetic is monotone and sub-additive
  under clamping, with its exact equality cases (`ScheduleAscending`, `ScheduleGaps`).
* The cashflow list, the pricing loop and the metrics loop select one suffix of the schedule, so
  metric values sum to the price and the sizing call returns the capacity needed
  (`CashflowsAreSuffix`, `MetricsSumToPrice`, `Calculate`).
* The price is strictly decreasing in yield exactly when some payment is not yet due, hence one
  root at most and a positive DV01 (`DirtyPriceDecreasing`, `ResidualMonotone`, `Dv01Positive`);
  a reported coupon valuation has a duration within its cashflow times and a convexity of at
  least squared modified duration (`ReportedRiskFacts`).
* The solver keeps nested brackets whatever is interpolated, never loses the root of a monotone
  function, and finds an answer within n(2n+3) passes on a bracket narrower than 2^n tolerances
  exactly unless a pass stalls (`SearchSound`, `BracketHoldsRoot`, `BrentConverges`).
* The closed-form conversion factor is the explicit discounted sum; interest between purchase and
  delivery is conserved and is what an analysis reports as carry; profit is positive exactly when implied repo beats the financing rate
  (`ConversionFactorIsPresentValue`, `InterestConserved`, `CarryIsInterestEarned`, `AnalyzeDelivery`).
* The recommended hedge is globally optimal within twice the tolerance (`RecommendationOptimal`), and the
  interpolated yield is linear in the date between nodes (`LinearInDate`).
* What a result reports is stated on its own fields (`CouponResultPrices`, `CouponResultSolvesPrice`,
  `CouponResultRisk`, `DiscountResult`), and who is granted what in terms of the configuration
  (`UninterruptedAnswer`).
* Over every interleaving a claimed task makes one terminal call at most, and Fail exactly after a
  non-retryable error between Begin and Complete (`EveryTraceLawful`).
* Over every interleaving of calls, every grant is bounded by a session that was live during its
  call (`EveryGrantGood`, `GrantBackedBySession`); when an expiry or a revocation holds against
  every future is characterised exactly (`ExpiryHoldsIff`, `RevocationHoldsIff`).
* Following next-cursors reads a lineage exactly once, in order (`ReadAll`). A resource name with the
  field separator would be refused after its first page; the identifiers that reach
  `paginate_lineage` (`artifact.rs:205` and `artifact.rs:246`) are canonical ULIDs, which hold none,
  so for the service the result has no such exception (`ServiceReadsAll`).

## Where the code differs from what it says or seems to say

* `bond_math.cpp:129-136` and `bond_math.cpp:198-205`: the price keeps a coupon until its payment date,
  accrued interest restarts on its nominal date. From a coupon date up to a later payment date they
  disagree; on the coupon date itself the coupon is priced in full, nothing has accrued, and a bond
  with later coupons whose coupon rate equals the yield has a clean price of face plus coupon, not par (`AccruedPlusStub`, `SameCouponIff`,
  `UnpaidCouponParity`). Every coupon bond meets this on some calendar (`HolidayOnCouponDate`).
* `bond_math.cpp:196`: the first period starts one period before the first coupon, which is issue only
  if no month end clamps the day; otherwise interest has accrued on the issue date
  (`AccruedAtIssueIff`).
* `kernel_api.cpp:327-332`: a matured discount bond, given a yield, is valued at face with an empty
  cashflow list, where a matured coupon bond is worth 0 (`MaturedDiscountBond`, `MaturedCouponBond`).
* `futures_api.cpp:112-121`: a purchase before issue is not rejected, and its accrued interest is then
  negative (`AccruedRange`).
* `bond_math.cpp:265-289`: where two residuals coincide, as on the first pass, the inverse-quadratic
  denominators are zero. The guard absorbs infinities, but a candidate that is not a number passes it
  and the solver gives up on a bracket that holds a root. When that happens is stated for every pass
  of every search (`StallsExactly`, `UndefinedIff`); for a strictly monotone function a
  pass stalls only with 0 as its worse end and its remembered point, and `StallsAtZero` is the exact
  condition (`UndefinedAtZeroIff`).
  Two solvable brackets show it, on the first and on the third pass (`StallExample`,
  `LateStallExample`). The bracket [-0.5, 1] of `kernel_api.cpp:361-378` contains 0: a solvable
  price is given up exactly when a pass of its search stalls at a yield of 0, or the 100 passes run out
  (`YieldSearchUndefinedIff`).
* `bond_math.cpp:280`: the guard compares the candidate as if a < b. When the better end is the left
  one every pass bisects; this is what bounds the number of passes (`ReversedBisects`,
  `BrentConverges`). For the bracket and tolerance of `kernel_api.cpp:361-378`
  the bound is above the 100 passes allowed there, so it does not promise that those suffice.
* `lib.rs:326-328` of the worker documents that only configuration or non-retryable backend failures
  are returned. Any error of orphan maintenance is returned, retryable ones too, as are timeouts and
  invalid tasks of a claimed task (`UndocumentedErrorIff`, `UndocumentedErrorReturned`,
  `TaskCanFail`, `StopsWithRetryableError`).
* `lib.rs:380-382` documents that the original error is returned after recording; if recording
  fails, the error of recording is returned instead (`OriginalErrorReturnedIff`,
  `RecordingFailureReturned`).
* `lib.rs:410`: a lease too long for 32 bits ends a running task without recording a failure
  (`OversizedLeaseUnrecorded`, `LeaseRejectedIff`). `run_worker` rejects such a lease before it claims
  (`lib.rs:360`), so only a direct call of `run_claimed` meets this.
* `futures_math.cpp:158-160`: the guard against a negative month difference can never fire, for any
  delivery date (`ConversionCoupon`).
* `registry.rs:540-561` and `registry.rs:598-615`: the clock is read before the lock, and the
  revocation check comes before the grant, so a call under way can revive an expired session or be
  granted after a revocation (`StaleReadingRevives`, `LateRevocationMissed`).

## Model

| member | source | states |
|---|---|---|
| `CivilCalendar.TruncFixupsAreFloor` | cpp/fixed-income-kernel/src/date_utils.hpp:68-121 | for every dividend, negative ones included, each of the three correction idioms around a truncating `/` or `%` yields the floor quotient or the nonnegative remainder |
| `CivilCalendar.LeapYearRule` | cpp/fixed-income-kernel/src/date_utils.hpp:95-97 | the truncating leap test is the 4/100/400 rule of the calendar for every year, negative years included |
| `CivilCalendar.DayOfWeekRule` | cpp/fixed-income-kernel/src/date_utils.hpp:99-104 | the weekday is the nonnegative remainder of day + 4 modulo 7, before 1970 too |
| `CivilCalendar.WeekendRule` | cpp/fixed-income-kernel/src/date_utils.hpp:99-109 | the weekend is every seventh day from Saturday 3 January 1970, and the day after each |
| `CivilCalendar.ClosedForm` | cpp/fixed-income-kernel/src/date_utils.hpp:67-74 | the era computation equals one formula over a year that begins in March, for every year |
| `CivilCalendar.YearOfEra` | cpp/fixed-income-kernel/src/date_utils.hpp:80-82 | the four-division expression recovers the year of the era on all 146097 days of it |
| `CivilCalendar.MonthEnd` | cpp/fixed-income-kernel/src/date_utils.hpp:89-93 | months have 28 to 31 days and the first of a month plus its length is the first of the next, across year ends |
| `CivilCalendar.DaysRoundTrip` | cpp/fixed-income-kernel/src/date_utils.hpp:67-93 | every epoch day converts to a date that exists and back to itself |
| `CivilCalendar.CivilRoundTrip` | cpp/fixed-income-kernel/src/date_utils.hpp:67-93 | every date that exists converts to its day number and back to itself |
| `CivilCalendar.OrderIsomorphism` | cpp/fixed-income-kernel/src/date_utils.hpp:67-93 | day numbers are ordered exactly as dates are, chronologically |
| `CivilCalendar.NextDay` | cpp/fixed-income-kernel/src/date_utils.hpp:76-93 | day + 1 is the next date of the calendar, over every month and year end |
| `CivilCalendar.PartsOrder` | cpp/fixed-income-kernel/src/date_utils.hpp:76-87 | days are ordered as (calendar month, day of month) pairs, and equal only if both are |
| `CivilCalendar.AddMonthsParts` | cpp/fixed-income-kernel/src/date_utils.hpp:111-126 | moves exactly the given number of calendar months, backwards too, and clamps the day to the new month |
| `CivilCalendar.AddMonthsStrictInMonths` | cpp/fixed-income-kernel/src/date_utils.hpp:111-126 | strictly increasing in the number of months |
| `CivilCalendar.AddMonthsMonotoneInDate` | cpp/fixed-income-kernel/src/date_utils.hpp:111-126 | monotone in the date; two dates meet exactly when both are clamped to one month end |
| `CivilCalendar.AddMonthsSubAdditive` | cpp/fixed-income-kernel/src/date_utils.hpp:111-126 | two moves never pass the single one, and equal it exactly when the stop-over clamps no harder |
| `CivilCalendar.AddMonthsExactUpTo28` | cpp/fixed-income-kernel/src/date_utils.hpp:111-126 | up to day 28 moves compose exactly and can be undone |
| `CivilCalendar.AddMonthsZero` | cpp/fixed-income-kernel/src/date_utils.hpp:111-126 | moving by no months changes nothing |
| `BusinessDays.ValidateSortedUniqueDates` | cpp/fixed-income-kernel/src/kernel_api.cpp:41-48 | the comparison of neighbours accepts exactly the strictly ascending tables |
| `BusinessDays.SortedContains` | cpp/fixed-income-kernel/src/date_utils.cpp:12-14 | bisection on an ascending table decides plain membership |
| `BusinessDays.IsBusinessDay` | cpp/fixed-income-kernel/src/date_utils.cpp:18-30 | a business day is a weekday or work weekend that is no holiday |
| `BusinessDays.Following` | cpp/fixed-income-kernel/src/date_utils.cpp:32-68 | the least date on or after the input at which the adjustment may stop: nothing earlier qualifies |
| `BusinessDays.FollowingAdjust` | cpp/fixed-income-kernel/src/date_utils.cpp:32-68 | the loop terminates on that date, and sets the provisional flag exactly when a replay ends past coverage |
| `BusinessDays.FollowingIsLeast` | cpp/fixed-income-kernel/src/date_utils.cpp:32-68 | that date is the only one with the defining property |
| `BusinessDays.FollowingIdempotent` | cpp/fixed-income-kernel/src/date_utils.cpp:32-68 | adjusting twice is adjusting once |
| `BusinessDays.FollowingMonotone` | cpp/fixed-income-kernel/src/date_utils.cpp:32-68 | later dates never adjust to earlier ones |
| `BusinessDays.ExactModeBoundary` | cpp/fixed-income-kernel/src/date_utils.cpp:44-49 | with exact coverage an adjustment that leaves coverage stops on the first uncovered day, or where it started |
| `DayCount.ActActBondIsma` | cpp/fixed-income-kernel/src/day_count.cpp:10-21 | never negative, 1/f over its own reference period, positive exactly on a proper interval and period |
| `DayCount.YearSpan` | cpp/fixed-income-kernel/src/day_count.cpp:36-55 | the year length of 365 or 366 is the distance of its January firsts |
| `DayCount.YearOfDay` | cpp/fixed-income-kernel/src/day_count.cpp:28-29 | a day lies between the January firsts around the year it converts to |
| `DayCount.PositionStrictlyIncreasing` | cpp/fixed-income-kernel/src/day_count.cpp:23-58 | the calendar position increases strictly with the day |
| `DayCount.PositionPerDay` | cpp/fixed-income-kernel/src/day_count.cpp:33-57 | every day moves the position by exactly one over the days of its calendar year, across year ends too |
| `DayCount.ActActNatural` | cpp/fixed-income-kernel/src/day_count.cpp:23-58 | the year-splitting loop returns the difference of calendar positions, 0 for an empty interval |
| `DayCount.NaturalAdditive` | cpp/fixed-income-kernel/src/day_count.cpp:23-58 | additive over every split and strictly monotone |
| `DayCount.NaturalWholeYears` | cpp/fixed-income-kernel/src/day_count.cpp:46-57 | an exact integer between January firsts |
| `Schedule.GenerateNominalSchedule` | cpp/fixed-income-kernel/src/bond_math.cpp:37-71 | fills the buffer with the nominal schedule of the frequency (see `ScheduleOfYears`) and leaves the rest alone; 0 exactly for no room or a maturity not after issue |
| `Schedule.NominalDates` | cpp/fixed-income-kernel/src/bond_math.cpp:37-71 | the schedule as a value: counted back from maturity, laid forward from issue, closed by maturity |
| `Schedule.ScheduleUnique` | cpp/fixed-income-kernel/src/bond_math.cpp:45-70 | a request has exactly one schedule |
| `Schedule.ScheduleOfYears` | cpp/fixed-income-kernel/src/bond_math.cpp:44-70 | a bond of n whole years has n times frequency dates, one of them on every anniversary of issue, for frequencies 1 and 2 and every day of issue |
| `Schedule.LastStepBeforeMaturity` | cpp/fixed-income-kernel/src/bond_math.cpp:45-70 | a period that still fits counting back from maturity never overshoots it counting forward, whatever month ends clamp |
| `Schedule.ScheduleAscending` | cpp/fixed-income-kernel/src/bond_math.cpp:37-71 | strictly ascending, after issue, never past maturity |
| `Schedule.ScheduleGaps` | cpp/fixed-income-kernel/src/bond_math.cpp:37-71 | when not cut off, every period but the last spans exactly p calendar months, the last at most p, and the count is the distance rounded up |
| `Pricing.PowerLawsInhabited` | cpp/fixed-income-kernel/src/bond_math.cpp:23-27 | the laws asked of the power function are met by a concrete function |
| `Pricing.PowerAtInteger` | cpp/fixed-income-kernel/src/bond_math.cpp:23-27 | those laws fix integer exponents to repeated multiplication |
| `Pricing.PowerSplits` | cpp/fixed-income-kernel/src/bond_math.cpp:23-27 | a stub and a whole number of periods discount separately |
| `Pricing.FirstSurvivor` | cpp/fixed-income-kernel/src/bond_math.cpp:128-137 | the first payment after settlement, everything before it being due already |
| `Pricing.FindFirstSurvivor` | cpp/fixed-income-kernel/src/bond_math.cpp:128-137 | the scan finds that index, or the schedule length |
| `Pricing.YearsAfter` | cpp/fixed-income-kernel/src/bond_math.cpp:158-162 | the inner loop adds exactly one period per coupon |
| `Pricing.FlowOf` | cpp/fixed-income-kernel/src/bond_math.cpp:152-171 | time and amount of one surviving cashflow, principal with the last |
| `Pricing.CouponBondDirtyPrice` | cpp/fixed-income-kernel/src/bond_math.cpp:116-177 | the nested loops return the present value of the surviving cashflows, finite exactly when every power taken is |
| `Pricing.DiscountFactorOrder` | cpp/fixed-income-kernel/src/bond_math.cpp:23-27 | discount factors are positive and fall with yield, strictly exactly at positive times |
| `Pricing.PresentValueOrder` | cpp/fixed-income-kernel/src/bond_math.cpp:152-174 | present value never rises with yield, and falls strictly exactly when something is paid at a positive time |
| `Pricing.DirtyPriceDecreasing` | cpp/fixed-income-kernel/src/bond_math.cpp:116-177 | the dirty price is strictly decreasing in yield wherever 1+y/f > 0, exactly when some surviving cashflow lies at a positive time |
| `Pricing.SurvivorsAreSuffix` | cpp/fixed-income-kernel/src/bond_math.cpp:152-156 | with payments in order the surviving cashflows are one suffix of the schedule |
| `Pricing.PaysLaterIff` | cpp/fixed-income-kernel/src/bond_math.cpp:128-172 | when the price depends on the yield: two payments left, or one not yet due |
| `Pricing.PriceableIff` | cpp/fixed-income-kernel/src/bond_math.cpp:23-174 | when the price is a finite number: at a positive period factor always, at a negative one exactly when the stub is a whole number of periods, at zero exactly when the one payment left is due |
| `Pricing.Dv01Positive` | cpp/fixed-income-kernel/src/bond_math.cpp:351-354 | the central difference is never negative, and positive exactly when the price depends on the yield |
| `Pricing.OnePeriodDv01` | cpp/fixed-income-kernel/src/bond_math.cpp:351-354 | one period before maturity the central difference over one basis point, in closed form |
| `Pricing.AnnuityTelescopes` | cpp/fixed-income-kernel/src/bond_math.cpp:152-174 | the annuity sum in closed form, for every number of periods |
| `Pricing.CouponDateStub` | cpp/fixed-income-kernel/src/bond_math.cpp:128-150 | on a coupon date the stub is one full period |
| `Pricing.CouponDateLoop` | cpp/fixed-income-kernel/src/bond_math.cpp:152-174 | there the loop accumulates the coupon times the annuity |
| `Pricing.CouponDatePrice` | cpp/fixed-income-kernel/src/bond_math.cpp:116-177 | there the price is coupons by annuity plus discounted principal |
| `Pricing.CouponDateParity` | cpp/fixed-income-kernel/src/bond_math.cpp:116-177 | there price minus face is (coupon rate - yield) times a positive annuity: above, at or below par exactly with the rates |
| `Pricing.UnpaidCouponFlows` | cpp/fixed-income-kernel/src/bond_math.cpp:128-174 | on a coupon date that is paid later the cashflows are that coupon at time 0 and those of the same terms with it paid |
| `Pricing.UnpaidCouponPrice` | cpp/fixed-income-kernel/src/bond_math.cpp:116-177 | so the price is the whole coupon on top of the coupon-date price |
| `BondMetrics.AccruedInterestCoupon` | cpp/fixed-income-kernel/src/bond_math.cpp:179-219 | coupon rate on face over the elapsed ICMA fraction of the running period, 0 outside any period |
| `BondMetrics.AccruedZeroOnCouponDate` | cpp/fixed-income-kernel/src/bond_math.cpp:179-219 | nothing has accrued on a coupon date |
| `BondMetrics.AccruedWithinCoupon` | cpp/fixed-income-kernel/src/bond_math.cpp:179-219 | never negative and less than one coupon |
| `BondMetrics.AccruedPlusStub` | cpp/fixed-income-kernel/src/bond_math.cpp:128-219 | accrued interest and interest still to come make up the running coupon exactly when settlement lies in the period of the first coupon not yet paid |
| `BondMetrics.SameCouponIff` | cpp/fixed-income-kernel/src/bond_math.cpp:128-205 | accrual (by nominal dates) and pricing (by payment dates) take the same coupon as the next one exactly when settlement is before its nominal date |
| `BondMetrics.UnpaidCouponParity` | cpp/fixed-income-kernel/src/bond_math.cpp:116-219 | on a coupon date that is paid later nothing has accrued, and the clean price stands to face plus coupon as the coupon rate stands to the yield |
| `BondMetrics.AccruedAtIssueIff` | cpp/fixed-income-kernel/src/bond_math.cpp:193-218 | nothing has accrued at issue exactly when the day of issue exists in the month of the first of several coupons, or a single coupon is a whole period away |
| `BondMetrics.MacaulayDuration` | cpp/fixed-income-kernel/src/bond_math.cpp:320-329 | the value-weighted sum of times over the price, 0 for price 0 |
| `BondMetrics.DotWithinBounds` | cpp/fixed-income-kernel/src/bond_math.cpp:320-329 | a nonnegatively weighted sum of times lies between its extreme times |
| `BondMetrics.MomentInequality` | cpp/fixed-income-kernel/src/bond_math.cpp:335-349 | the mean of squared times is at least the square of the mean |
| `BondMetrics.Convexity` | cpp/fixed-income-kernel/src/bond_math.cpp:335-349 | the loop returns the convexity sum over the price, 0 for price 0 |
| `BondMetrics.ConvexityTermValue` | cpp/fixed-income-kernel/src/bond_math.cpp:335-349 | two extra periods of discounting in a convexity term are undone by two periods of growth |
| `BondMetrics.ConvexitySumValue` | cpp/fixed-income-kernel/src/bond_math.cpp:335-349 | the convexity sum, so grown, is the second moment plus the first over f |
| `BondMetrics.ConvexityDominates` | cpp/fixed-income-kernel/src/bond_math.cpp:335-349 | grown by two periods, convexity is at least D*D + D/f for D the Macaulay duration |
| `Brent.GuardAbsorbs` | cpp/fixed-income-kernel/src/bond_math.cpp:277-289 | whatever was interpolated, infinities included, the guard leaves a point of the bracket; only not-a-number passes it |
| `Brent.SecantExact` | cpp/fixed-income-kernel/src/bond_math.cpp:272-275 | on a straight line the secant candidate is the root |
| `Brent.InverseQuadraticExact` | cpp/fixed-income-kernel/src/bond_math.cpp:267-271 | where the point is a quadratic function of the residual the inverse quadratic candidate is its value at residual 0 |
| `Brent.KeptIff` | cpp/fixed-income-kernel/src/bond_math.cpp:277-289 | a finite candidate is kept exactly in the quarter next to the better end, within half the earlier step, which is not below xtol; otherwise the midpoint is taken |
| `Brent.NarrowKeepsBracket` | cpp/fixed-income-kernel/src/bond_math.cpp:291-309 | any point of the bracket leaves a nested bracket with f(a)f(b) < 0 or f(b) = 0, and |f(b)| <= |f(a)| |
| `Brent.OrderedEnds` | cpp/fixed-income-kernel/src/bond_math.cpp:248-252 | the two ends with the better one last; a tie is left as it is |
| `Brent.PassKeepsBracket` | cpp/fixed-income-kernel/src/bond_math.cpp:260-309 | so does every pass, whatever was interpolated, unless the candidate is not a number |
| `Brent.StallsExactly` | cpp/fixed-income-kernel/src/bond_math.cpp:265-289 | on every pass of every search and for every function, the guarded candidate is not a number exactly when the inverse quadratic is chosen with two equal residuals, at points on either side of 0 or at 0, and the earlier step is not below xtol |
| `Brent.StallExample` | cpp/fixed-income-kernel/src/bond_math.cpp:254-294 | a root that exists and is not found, for any number of passes: 2x - 2 on [0, 1.5], on the first pass |
| `Brent.LateStallExample` | cpp/fixed-income-kernel/src/bond_math.cpp:254-294 | another, on the third pass, the first not stalling: x - 0.4 on [-1, 1] |
| `Brent.UndefinedIff` | cpp/fixed-income-kernel/src/bond_math.cpp:260-294 | a search ends without an answer to give exactly when one of its unconverged passes stalls so |
| `Brent.FirstPassStallsIff` | cpp/fixed-income-kernel/src/bond_math.cpp:254-294 | the first pass stalls exactly when the end with the larger residual is 0 (and the residuals differ in size), and then the search ends at once |
| `Brent.SearchSound` | cpp/fixed-income-kernel/src/bond_math.cpp:235-318 | over every run, an answer lies in the initial bracket and is a root, within ytol, or has a sign change within xtol |
| `Brent.StopsAtOnce` | cpp/fixed-income-kernel/src/bond_math.cpp:260-264 | a narrow bracket, a small residual or a root ends the search at once with the better end |
| `Brent.BrentSolve` | cpp/fixed-income-kernel/src/bond_math.cpp:235-318 | the loop performs the search, reports success exactly when it found an answer, and returns what the search says in every other case |
| `Brent.BracketHoldsRoot` | cpp/fixed-income-kernel/src/bond_math.cpp:291-309 | the root of a strictly monotone function lies in every bracket the search passes through |
| `Brent.ConvergedNearRoot` | cpp/fixed-income-kernel/src/bond_math.cpp:260-264 | an answer without a small residual is within xtol of that root |
| `BrentProgress.ReversedBisects` | cpp/fixed-income-kernel/src/bond_math.cpp:277-289 | when the better end is the left one, every candidate but not-a-number is replaced by the midpoint |
| `BrentProgress.BisectionHalves` | cpp/fixed-income-kernel/src/bond_math.cpp:277-289 | a bisecting pass halves the bracket exactly |
| `BrentProgress.ShortStep` | cpp/fixed-income-kernel/src/bond_math.cpp:277-289 | a pass that does not bisect moves less than half as far as an earlier step, which was at least xtol |
| `BrentProgress.ShortMove` | cpp/fixed-income-kernel/src/bond_math.cpp:291-309 | after it the better end moved no further than the step, or the ends are reversed, which forces a bisection |
| `BrentProgress.ShortStepCounts` | cpp/fixed-income-kernel/src/bond_math.cpp:260-309 | so each such pass uses up one of a bounded number of them before the next bisection |
| `BrentProgress.SearchProgress` | cpp/fixed-income-kernel/src/bond_math.cpp:235-318 | a search with passes for all of these does not run out |
| `BrentProgress.StallsAtZeroIff` | cpp/fixed-income-kernel/src/bond_math.cpp:265-289 | of an injective function a pass stalls exactly when 0 is both the worse end and the remembered point, the other end has the smaller residual, and the guard has no reason of its own to bisect |
| `BrentProgress.PassesInside` | cpp/fixed-income-kernel/src/bond_math.cpp:260-309 | every pass of a search has its ends and its remembered point in the initial bracket, with residuals of the function |
| `BrentProgress.UndefinedAtZeroIff` | cpp/fixed-income-kernel/src/bond_math.cpp:235-318 | for an injective function a search ends undefined exactly when some pass stalls at 0, which then lies in the bracket and was evaluated |
| `BrentProgress.BrentConverges` | cpp/fixed-income-kernel/src/bond_math.cpp:235-318 | on a bracket narrower than 2^n xtol, n(2n+3) passes find an answer exactly unless one of them stalls; for a strictly monotone function exactly unless one stalls at 0, so always on a bracket without 0 |
| `Kernel.AdjustedInOrder` | cpp/fixed-income-kernel/src/kernel_api.cpp:249-276 | business-day adjustment leaves the payment dates of a schedule in order |
| `Kernel.FiltersAgree` | cpp/fixed-income-kernel/src/kernel_api.cpp:249-302 | the reported cashflows and the priced ones are the same selection, with equal amounts, numbered from 1 |
| `Kernel.EntriesAreSuffix` | cpp/fixed-income-kernel/src/kernel_api.cpp:249-284 | with payments in order the reported list is that suffix, entry by entry |
| `Kernel.CashflowsAreSuffix` | cpp/fixed-income-kernel/src/kernel_api.cpp:249-302 | of every valid bond, reported and priced cashflows are one suffix of the schedule, with the nominal and payment date, coupon, principal and amount of each entry |
| `Kernel.HolidayOnCouponDate` | cpp/fixed-income-kernel/src/kernel_api.cpp:249-395 | every coupon bond meets a settlement on a coupon date that is paid later, where accrued interest and interest to come do not make up the coupon |
| `Kernel.AdjustAndFilter` | cpp/fixed-income-kernel/src/kernel_api.cpp:249-284 | the first loop reports missing coverage, the provisional flag and the cashflow list exactly |
| `Kernel.BuildTerms` | cpp/fixed-income-kernel/src/kernel_api.cpp:227-242 | schedule and payment dates are the nominal dates and their adjustments |
| `Kernel.SolveYield` | cpp/fixed-income-kernel/src/kernel_api.cpp:350-382 | no bracket, no convergence or the yield found, exactly as the search over [-0.5, 1] ends; a yield found answers the price |
| `Kernel.NoBracketIff` | cpp/fixed-income-kernel/src/kernel_api.cpp:361-374 | with some payment not yet due, price-in reports no bracket exactly when the target is not strictly between the clean prices at yields 1 and -0.5 |
| `Kernel.YieldSearchUndefinedIff` | cpp/fixed-income-kernel/src/kernel_api.cpp:361-382 | the search for a yield ends undefined exactly when one of its passes stalls at a yield of 0 |
| `Kernel.ResidualMonotone` | cpp/fixed-income-kernel/src/kernel_api.cpp:149-166 | the price residual is strictly monotone on [-0.5, 1] when some payment is not yet due, so it has one root at most |
| `Kernel.SolvedYieldAccurate` | cpp/fixed-income-kernel/src/kernel_api.cpp:149-166 | a yield found is within 1e-12 of the only root, or reprices within 1e-12 |
| `Kernel.MetricArrays` | cpp/fixed-income-kernel/src/kernel_api.cpp:434-485 | the metrics loop recomputes times, amounts and present values of exactly the priced cashflows |
| `Kernel.MetricsSumToPrice` | cpp/fixed-income-kernel/src/kernel_api.cpp:462-485 | those present values sum exactly to the dirty price |
| `Kernel.CouponRisk` | cpp/fixed-income-kernel/src/kernel_api.cpp:487-507 | duration, modified duration, convexity and DV01 of the surviving cashflows, or a non-finite figure exactly when a price, a bumped price or the quotient is one; zeros without cashflows |
| `Kernel.FlowTimesOrdered` | cpp/fixed-income-kernel/src/kernel_api.cpp:462-485 | cashflow times never decrease |
| `Kernel.MacaulayWithinTimes` | cpp/fixed-income-kernel/src/kernel_api.cpp:487-490 | the price is positive and the Macaulay duration lies between the first and last cashflow times when 1+y/f > 0 |
| `Kernel.ConvexityFloor` | cpp/fixed-income-kernel/src/kernel_api.cpp:491-494 | convexity is at least the square of modified duration |
| `Kernel.ValueDiscount` | cpp/fixed-income-kernel/src/kernel_api.cpp:325-338 | a discount bond is valued exactly when no division is by zero, at simple interest, price and yield agreeing |
| `Kernel.MaturedDiscountBond` | cpp/fixed-income-kernel/src/kernel_api.cpp:325-338 | past its adjusted maturity a discount bond has no cashflows, is valued at face when a yield is given, and is non-finite when a price is |
| `Kernel.MaturedCouponBond` | cpp/fixed-income-kernel/src/kernel_api.cpp:249-395 | where a coupon bond has no cashflows and no value |
| `Kernel.RiskOfDiscount` | cpp/fixed-income-kernel/src/kernel_api.cpp:413-431 | its duration, convexity and DV01; convexity is twice squared modified duration |
| `Kernel.DiscountDv01` | cpp/fixed-income-kernel/src/kernel_api.cpp:425-431 | a simple-interest price falls with yield, so DV01 is positive |
| `Kernel.ValueCoupon` | cpp/fixed-income-kernel/src/kernel_api.cpp:339-395 | the status of a coupon valuation exactly, non-finite powers at negative period factors included, and price, accrued interest, yield and risk that agree |
| `Kernel.Calculate` | cpp/fixed-income-kernel/src/kernel_api.cpp:194-577 | the whole call: every status exactly when it is due, sizing returns the capacity that is needed and sufficient, the cashflow list, clean plus accrued equal to dirty, figures that agree, and blank figures unless it succeeds |
| `Kernel.CouponResultPrices` | cpp/fixed-income-kernel/src/kernel_api.cpp:397-522 | of every coupon result, on its own fields: clean plus accrued is dirty, dirty is the present value at the reported yield, accrued is nonnegative and below one coupon |
| `Kernel.CouponResultSolvesPrice` | cpp/fixed-income-kernel/src/kernel_api.cpp:350-395 | given a price, the reported clean price is within 1e-12 of it, or the reported yield within 1e-12 of the only one that reprices |
| `Kernel.CouponResultRisk` | cpp/fixed-income-kernel/src/kernel_api.cpp:487-526 | reported duration within the cashflow times, modified duration times the period factor equal to it, convexity at least modified duration squared, DV01 positive exactly when a payment is not yet due |
| `Kernel.DiscountResult` | cpp/fixed-income-kernel/src/kernel_api.cpp:325-424 | of every discount result, on its own fields: clean is dirty, the given price or yield, simple interest to face, duration the years to maturity, convexity twice squared modified duration |
| `Kernel.DiscountResultDv01` | cpp/fixed-income-kernel/src/kernel_api.cpp:425-431 | and its DV01 in closed form |
| `Kernel.YearOfBondCoupons` | cpp/fixed-income-kernel/src/kernel_api.cpp:206-208 | the coupons of a year make up the coupon rate on face |
| `Kernel.BondOfYears` | cpp/fixed-income-kernel/src/kernel_api.cpp:227-242 | a bond of whole years pays frequency times a year, on every anniversary of issue |
| `Kernel.BondParity` | cpp/fixed-income-kernel/src/kernel_api.cpp:194-395 | on a paid coupon date a bond is priced above, at or below face exactly as its coupon rate stands to the yield |
| `Kernel.ReportedRiskFacts` | cpp/fixed-income-kernel/src/kernel_api.cpp:396-520 | of every reported coupon valuation with cashflows left: positive price, duration within the cashflow times, convexity at least squared modified duration, DV01 positive exactly when a payment is not yet due |
| `Futures.RoundingError` | cpp/fixed-income-kernel/src/futures_math.cpp:24-30 | rounding moves a value by at most half a unit of the last place |
| `Futures.RoundingTies` | cpp/fixed-income-kernel/src/futures_math.cpp:29 | integers stay, halves move away from zero, and rounding is odd |
| `Futures.TenToPower` | cpp/fixed-income-kernel/src/futures_math.cpp:16-22 | the scale is the power of ten |
| `Futures.CouponsClosedForm` | cpp/fixed-income-kernel/src/futures_math.cpp:101-105 | n discounted coupons in closed form, for every n and stub |
| `Futures.ConversionFactorIsPresentValue` | cpp/fixed-income-kernel/src/futures_math.cpp:89-108 | before rounding the factor is the explicit sum of n coupons and principal at the nominal coupon, less the accrued adjustment |
| `Futures.FactorRounded` | cpp/fixed-income-kernel/src/futures_math.cpp:89-108 | the reported factor is that sum to half a unit of the last place, and a number exactly for positive nominal coupon, frequency and count and up to 12 places |
| `Futures.StubOfWholePeriod` | cpp/fixed-income-kernel/src/futures_math.cpp:99-102 | months add up, and the months of a period are exactly one period |
| `Futures.FactorAtCouponMonth` | cpp/fixed-income-kernel/src/futures_math.cpp:89-108 | without a stub it is 1 when coupon equals nominal coupon, and above 1 exactly when the coupon is higher |
| `Futures.BuildCoupons` | cpp/fixed-income-kernel/src/futures_math.cpp:129-138 | the backward loop and the reversal build the chain, accepted exactly when it meets issue with room to spare |
| `Futures.ChainInSteps` | cpp/fixed-income-kernel/src/futures_math.cpp:129-138 | the chain ascends, lies after issue, ends at maturity and steps by exactly p calendar months |
| `Futures.RegularIff` | cpp/fixed-income-kernel/src/futures_math.cpp:129-137 | the chain meets issue exactly when the dates are 1 to 999 whole periods of calendar months apart and issue falls on the least of the maturity day and the lengths of the months stepped through |
| `Futures.SteppedParts` | cpp/fixed-income-kernel/src/futures_math.cpp:130-134 | n steps back move n periods of calendar months, and the day is the least met on the way |
| `Futures.ConversionCoupon` | cpp/fixed-income-kernel/src/futures_math.cpp:139-179 | months to the conversion coupon are never negative, make up the distance to maturity with the periods after it, and are below a period exactly when issue precedes the delivery month |
| `Futures.ConversionCouponExists` | cpp/fixed-income-kernel/src/futures_math.cpp:139-143 | a conversion coupon exists exactly when maturity is not before the delivery month |
| `Futures.AccruedRange` | cpp/fixed-income-kernel/src/futures_math.cpp:42-54 | accrued interest stays below one coupon, and is nonnegative exactly from issue on |
| `Futures.AccruedAfterLast` | cpp/fixed-income-kernel/src/futures_math.cpp:39-46 | from the last coupon on nothing accrues, whatever the rounding, and only the one day count is supported |
| `Futures.CumulativeIncreasing` | cpp/fixed-income-kernel/src/futures_math.cpp:32-55 | interest earned since issue increases strictly with the date |
| `Futures.DailyInterest` | cpp/fixed-income-kernel/src/futures_math.cpp:42-54 | every day of a coupon period, its last included, earns the coupon over the days of the period |
| `Futures.YearOfCoupons` | cpp/fixed-income-kernel/src/futures_math.cpp:161 | the coupons of a year make up the coupon rate on face |
| `Futures.CountInterim` | cpp/fixed-income-kernel/src/futures_math.cpp:173-177 | counts the coupons after purchase up to delivery |
| `Futures.InterestConserved` | cpp/fixed-income-kernel/src/futures_math.cpp:32-177 | change in accrued interest plus interim coupons is the interest earned, which is positive; with both accruals rounded, within one unit of the last place |
| `Futures.DeliverableWindow` | cpp/fixed-income-kernel/src/futures_math.cpp:59-87 | the residual-term limits are limits on whole calendar months; the upper one admits only the first day of its month |
| `Futures.FirstOfMonthLimit` | cpp/fixed-income-kernel/src/futures_math.cpp:74-84 | limits counted from the first of a month, in calendar months |
| `Futures.ValidDeliveryMonth` | cpp/fixed-income-kernel/src/futures_api.cpp:39-63 | accepts exactly an ascending list of months and a first day of one of them |
| `Futures.CouponScheduleMetrics` | cpp/fixed-income-kernel/src/futures_math.cpp:110-180 | the metrics or the failure, for every input |
| `Futures.MeasureChain` | cpp/fixed-income-kernel/src/futures_math.cpp:139-180 | for a built chain: months to the first coupon from the delivery month on, coupons from there, both rounded accruals and the coupons received in between, or failure exactly where a check fails |
| `Futures.MetricsExist` | cpp/fixed-income-kernel/src/futures_math.cpp:121-180 | the metrics exist exactly for such dates issued before the delivery month and maturing in or after it, with supported day count and rounding; then the month identity holds |
| `Delivery.AnalyzeDelivery` | cpp/fixed-income-kernel/src/futures_api.cpp:113-191 | every status exactly when it is due; an analysis balances its accounts, its implied repo rate is the break-even rate, and its profit is positive exactly when that exceeds the financing rate |
| `Delivery.Settle` | cpp/fixed-income-kernel/src/futures_api.cpp:150-186 | profit is invoice plus interim coupons less purchase price less financing, and the negative of net basis; financed at the implied repo rate the purchase is repaid exactly |
| `Delivery.CarryIsInterestEarned` | cpp/fixed-income-kernel/src/futures_api.cpp:150-164 | before financing, the holding carry of every analysis is the interest earned between purchase and delivery, which is positive, to one unit of the last place |
| `Delivery.RepoAlgebra` | cpp/fixed-income-kernel/src/futures_api.cpp:163-164 | profit has the sign of implied repo minus financing rate |
| `Delivery.BreakEven` | cpp/fixed-income-kernel/src/futures_api.cpp:163-164 | financed at the implied repo rate the purchase is repaid exactly |
| `Hedge.Calculate` | cpp/fixed-income-kernel/src/hedge_math.cpp:45-92 | accepts exactly the requests that fit; the contract DV01 is that of 1,000,000 at the factor, the residual what is left, no other count better by more than 2e-12 relatively, and the clamp never changes the effectiveness |
| `Hedge.NearestNeighbours` | cpp/fixed-income-kernel/src/hedge_math.cpp:63-72 | no integer is closer to the raw hedge than both its floor and its ceiling |
| `Hedge.RecommendationOptimal` | cpp/fixed-income-kernel/src/hedge_math.cpp:68-86 | no integer contract count leaves less risk by more than twice the tolerance |
| `Hedge.NonzeroHedgePays` | cpp/fixed-income-kernel/src/hedge_math.cpp:68-86 | a hedge is recommended only if it cuts risk by more than the tolerance |
| `Hedge.NoWorseThanNothing` | cpp/fixed-income-kernel/src/hedge_math.cpp:73-88 | the recommendation never carries more risk than no hedge |
| `Hedge.MirrorPick` | cpp/fixed-income-kernel/src/hedge_math.cpp:26-41 | the comparison is symmetric under negation for candidates of different size, whichever is the incumbent |
| `Hedge.MirrorRecommendation` | cpp/fixed-income-kernel/src/hedge_math.cpp:45-92 | negating the target negates the recommendation |
| `Hedge.MirrorAcceptance` | cpp/fixed-income-kernel/src/hedge_math.cpp:58-67 | the negated request is accepted too exactly when the raw hedge does not floor to the most negative integer |
| `Curve.LinearYield` | cpp/fixed-income-kernel/src/curve_math.cpp:7-31 | in range, and only there, the loop returns the weighted sum of the node yields, which is linear in the date on every segment |
| `Curve.LinearInDate` | cpp/fixed-income-kernel/src/curve_math.cpp:21-28 | interpolation is linear in the date between any two neighbouring nodes, ends included |
| `Curve.AtNode` | cpp/fixed-income-kernel/src/curve_math.cpp:13-20 | exact at nodes |
| `Curve.BetweenNodes` | cpp/fixed-income-kernel/src/curve_math.cpp:21-28 | between two nodes only those two count |
| `Curve.StaysBetweenNeighbours` | cpp/fixed-income-kernel/src/curve_math.cpp:21-28 | stays between the yields of its two neighbours |
| `Curve.BumpEffect` | cpp/fixed-income-kernel/src/curve_math.cpp:7-31 | a bump of one node moves the yield by the bump times its weight |
| `Curve.WeightSupport` | cpp/fixed-income-kernel/src/curve_math.cpp:16-29 | that weight is positive exactly strictly between the neighbours of the node |
| `Curve.WeightsSumToOne` | cpp/fixed-income-kernel/src/curve_math.cpp:7-31 | the weights sum to one |
| `Curve.BumpsEqualParallelShift` | cpp/fixed-income-kernel/src/curve_math.cpp:7-31 | all single-node bumps together equal a parallel shift |
| `Worker.StepKeepsInv` | binaries/ficant-worker/src/lib.rs:383-431 | every step of a claimed task keeps its trace lawful |
| `Worker.RunKeepsInv` | binaries/ficant-worker/src/lib.rs:383-431 | so every state of every run has a lawful trace |
| `Worker.EveryTraceLawful` | binaries/ficant-worker/src/lib.rs:383-431 | over every interleaving: one terminal call at most, Complete only after six successes in order, Fail exactly after a non-retryable error between Begin and Complete, renewals only in between |
| `Worker.TraceSpelledOut` | binaries/ficant-worker/src/lib.rs:222-431 | the same on the events themselves: Fail exactly after a timeout or any error but a retryable one in the race, a retryable error ends the task, Complete after Load, Begin, ReadInput, Execute, Prepare and Promote returned in this order |
| `Worker.RunAnswers` | binaries/ficant-worker/src/lib.rs:421-430 | Complete and Fail return only right after their call |
| `Worker.FailedCompleteStays` | binaries/ficant-worker/src/lib.rs:421-430 | a Complete that failed is never followed by a Fail |
| `Worker.ResultIsReported` | binaries/ficant-worker/src/lib.rs:421-430 | a task returns the original error, or the error of recording it, or what Complete said |
| `Worker.OriginalErrorReturnedIff` | binaries/ficant-worker/src/lib.rs:423-428 | after the Fail call the task returns the error that had to be recorded exactly when recording succeeded or failed with that very error |
| `Worker.RecordingFailureReturned` | binaries/ficant-worker/src/lib.rs:423-428 | a run whose timeout is replaced by the error of recording it, for every such error |
| `Worker.RunTimely` | binaries/ficant-worker/src/lib.rs:403-417 | renewals are at least an interval apart and after Begin, and a timeout comes no sooner than the node timeout after Begin |
| `Worker.LeaseNeverRejected` | binaries/ficant-worker/src/lib.rs:408-411 | a lease that fits 32 bits is never rejected |
| `Worker.OversizedLeaseUnrecorded` | binaries/ficant-worker/src/lib.rs:408-411 | under every valid configuration whose lease does not fit, some run ends a running task with neither Complete nor Fail |
| `Worker.LeaseRejectedIff` | binaries/ficant-worker/src/lib.rs:408-411 | so a run with a rejected lease exists exactly under a lease that does not fit |
| `Worker.InvalidConfigurationCallsNothing` | binaries/ficant-worker/src/lib.rs:388 | under an invalid configuration nothing is ever called |
| `Worker.TaskCanFail` | binaries/ficant-worker/src/lib.rs:388-430 | under every valid configuration a claimed task can end with a timeout, and with an invalid task |
| `Worker.LoopRunShape` | binaries/ficant-worker/src/lib.rs:329-376 | every run of the worker follows one grammar of drain checks, maintenance, claims and tasks |
| `Worker.NoClaimAfterDrain` | binaries/ficant-worker/src/lib.rs:336-361 | nothing follows an observed drain, and every claim follows an observation of none |
| `Worker.RunMaintains` | binaries/ficant-worker/src/lib.rs:335-351 | maintenance is at least an interval apart, and no claim comes before the first |
| `Worker.ReturnsErrorIff` | binaries/ficant-worker/src/lib.rs:336-375 | the worker returns an error exactly when its last event is failed maintenance or a fatal claim or task with that error; nothing follows such an event |
| `Worker.StopsSpelledOut` | binaries/ficant-worker/src/lib.rs:222-376 | the same on the errors themselves: a retryable one only from maintenance, any other from maintenance, claim or task |
| `Worker.StopsWithRetryableError` | binaries/ficant-worker/src/lib.rs:344-373 | the worker returns a retryable error exactly when orphan maintenance met it |
| `Worker.UndocumentedErrorIff` | binaries/ficant-worker/src/lib.rs:322-376 | an error outside the documented kinds is returned exactly when the last event is maintenance that failed with it, or a claim or task that failed with a timeout or an invalid task |
| `Worker.UndocumentedErrorReturned` | binaries/ficant-worker/src/lib.rs:322-376 | and every such error is returned by some run, from maintenance or, unless retryable, from a task |
| `Sessions.StepKeepsInv` | crates/ficant-api/src/registry.rs:363-633 | every step of every interleaved call keeps sessions, calls and grants good |
| `Sessions.FromKeepsInv` | crates/ficant-api/src/registry.rs:363-633 | so does every run from a good state |
| `Sessions.RunKeepsInv` | crates/ficant-api/src/registry.rs:363-633 | and every run from the start |
| `Sessions.EveryGrantGood` | crates/ficant-api/src/registry.rs:477-516 | every grant: begun <= issued < expires <= session expiry, a life within policy, an allowed subject, scopes within both identity scopes and app capabilities |
| `Sessions.GrantBackedBySession` | crates/ficant-api/src/registry.rs:363-516 | in some state of the run with its call under way, the session that bounds a grant was stored and unexpired at that state's clock |
| `Sessions.SessionBehindCallWasLive` | crates/ficant-api/src/registry.rs:363-373 | a call past its first lock carries the expiry of a session that was stored when it looked |
| `Sessions.FreshSequenceNumbers` | crates/ficant-api/src/registry.rs:491 | no two grants share a sequence number before the 64-bit counter wraps |
| `Sessions.OthersUntouched` | crates/ficant-api/src/registry.rs:519-633 | no step touches the entry of an identity whose call it does not move |
| `Sessions.OwnEntryChange` | crates/ficant-api/src/registry.rs:519-633 | how its own calls may change an entry: a new session starts at generation 0, a refresh adds exactly one, an app operation touches one app |
| `Sessions.ExpiredStaysUnusable` | crates/ficant-api/src/registry.rs:519-633 | over every run, an expired session with only harmless calls under way fails every call until it is revoked |
| `Sessions.ExpiryHoldsIff` | crates/ficant-api/src/registry.rs:363-633 | that condition is exact: it holds if and only if every run behaves so |
| `Sessions.StaleReadingRevives` | crates/ficant-api/src/registry.rs:540-561 | a clock read before the expiry refreshes the session after it |
| `Sessions.RevokedAppCannotRefresh` | crates/ficant-api/src/registry.rs:598-632 | over every run, a revoked app is not refreshed until it is re-authorized or the session is replaced or ended, if no refresh is past its check and still grantable |
| `Sessions.RevocationHoldsIff` | crates/ficant-api/src/registry.rs:598-632 | that condition is exact: it holds if and only if every run behaves so |
| `Sessions.LateRevocationMissed` | crates/ficant-api/src/registry.rs:598-632 | a refresh past its check is granted after the app is revoked |
| `Sessions.GrantTail` | crates/ficant-api/src/registry.rs:477-516 | an uninterrupted call past its checks ends with the grant or failure that one clock reading implies |
| `Sessions.UninterruptedGrant` | crates/ficant-api/src/registry.rs:581-615 | an uninterrupted app call that passes its checks, from first lock to grant |
| `Sessions.UninterruptedRefusal` | crates/ficant-api/src/registry.rs:581-615 | an uninterrupted app call that is turned away changes nothing |
| `Sessions.UninterruptedRevocation` | crates/ficant-api/src/registry.rs:617-632 | an uninterrupted revocation adds one app to one session, and nothing else |
| `Sessions.UninterruptedAnswer` | crates/ficant-api/src/registry.rs:363-615 | an authorization or refresh is granted exactly for an unexpired session, a registered app that allows the subject, no revocation (refresh) and time left, with the scopes and expiry due; each failure exactly on its cause |
| `Sessions.UninterruptedRevokeAnswer` | crates/ficant-api/src/registry.rs:363-632 | the same for a revocation |
| `Sessions.PlatformApplication.constructor` | crates/ficant-api/src/registry.rs:332-341 | starts with no sessions and a counter at 0, a valid store at every clock |
| `Sessions.PlatformApplication.CurrentSession` | crates/ficant-api/src/registry.rs:520-538 | returns or creates the session: the state and answer of the uninterrupted schedule, the new session and each failure spelled out, every stored session still good at the later clock |
| `Sessions.PlatformApplication.RefreshSession` | crates/ficant-api/src/registry.rs:540-561 | replaces it with one generation more, or fails: the same |
| `Sessions.PlatformApplication.RevokeSession` | crates/ficant-api/src/registry.rs:563-570 | removes it and nothing else, or fails exactly without one: the same |
| `Sessions.PlatformApplication.AuthorizeApp` | crates/ficant-api/src/registry.rs:581-596 | clears the revocation and grants: the same, a grant exactly for an entitled caller with time left and each failure on its cause, under the next sequence number |
| `Sessions.PlatformApplication.RefreshApp` | crates/ficant-api/src/registry.rs:598-615 | grants unless revoked: the same |
| `Sessions.PlatformApplication.RevokeApp` | crates/ficant-api/src/registry.rs:617-632 | revokes exactly for an entitled caller: the state and answer of the uninterrupted schedule, every stored session still good |
| `Lineage.DecimalRoundTrip` | crates/ficant-api/src/artifact.rs:353-365 | parsing a printed index gives it back |
| `Lineage.DecimalInjective` | crates/ficant-api/src/artifact.rs:349-365 | a printed page size identifies the page size |
| `Lineage.HexInjective` | crates/ficant-api/src/artifact.rs:427-436 | a printed digest identifies the digest |
| `Lineage.HexDigitIs` | crates/ficant-api/src/artifact.rs:427-436 | the digits are lower-case hexadecimal |
| `Lineage.SplitInvertsJoin` | crates/ficant-api/src/artifact.rs:342-370 | splitting undoes joining for fields without the separator |
| `Lineage.PlaintextFields` | crates/ficant-api/src/artifact.rs:342-370 | a plaintext falls into its seven fields exactly when the resource has no separator |
| `Lineage.ParseAcceptsOnlyItsBinding` | crates/ficant-api/src/artifact.rs:334-370 | an issued plaintext is accepted, and gives its index, exactly for the same principal, kind, resource, hash and page size, and a resource without the separator |
| `Lineage.CursorAccepted` | crates/ficant-api/src/artifact.rs:300-318 | a nonempty cursor is accepted only if it opens to seven fields that name domain, principal, kind, resource, hash and page size and an index within the lineage; anything else is forbidden |
| `Lineage.PageSizes` | crates/ficant-api/src/artifact.rs:291-299 | no page size means 50, and exactly more than 1000 is invalid |
| `Lineage.PageStep` | crates/ficant-api/src/artifact.rs:281-332 | a page is the next slice, and its cursor continues right after it, or is refused for a resource with the separator |
| `Lineage.ReadAll` | crates/ficant-api/src/artifact.rs:281-332 | following cursors terminates after the number of pages the length calls for, having read the lineage once and in order; each other outcome with its cause |
| `Lineage.ServiceReadsAll` | crates/ficant-api/src/artifact.rs:188-262 | for the 26-character identifiers of artifacts and signal sets, and a codec that seals, every traversal reads the whole lineage |

## Left out

- Machine integers: dates and month counts are unbounded; 32-bit wrap-around of dates far outside the calendar is not modelled. The 64-bit limits of hedging, sessions and cursors are.
- Floating point: doubles are exact reals, so rounding, overflow and finiteness checks are not modelled; a division by zero is, as a non-finite status or as the infinities and not-a-number of the solver's candidate.
- std::pow: a parameter with four laws for positive bases (positive, 1 at exponent 0, one factor per unit of exponent, falling in the base at negative exponents), which a concrete function is shown to meet. Poles and fractional powers of negative bases are non-finite, as in the C++ standard library; the values at whole powers of negative bases are left to the parameter.
- ABI: struct_size, abi_version, null pointers and the reserved fields; the day-count and business-day fields that admit one value only.
- ScheduleGaps: regular gaps are stated for schedules not cut off at the buffer capacity, where the last gap may be any length.
- MetricsExist: stated for a delivery date on the first of a month, frequency up to 12 and purchase < delivery < maturity, which the entry point checks before the call; CouponScheduleMetrics itself has no such condition.
- FreshSequenceNumbers: up to 2^64 grants, after which the counter wraps.
- CouponBondDirtyPrice: the optional array of present values is not modelled, and a null array of payment dates is the nominal dates passed twice.
- SortedContains: models std::binary_search as lower-bound bisection; std::lower_bound and std::upper_bound elsewhere are first-index functions.
- Worker: the backend stays abstract (production.rs is not part of this model); failure hashes and lease identifiers are opaque, and the claim loop is modelled for a valid configuration with a lease that fits.
- Sessions: credential lookup, the identifiers and tags signed with HMAC, listing of visible apps and lock poisoning; the clock is a nondecreasing parameter. The class methods are whole uninterrupted calls; interleaving is the subject of the state machine beside them.
- Lineage: sealing and opening of cursors is a codec of which only "what is sealed opens to itself" is assumed; principals and hashes are byte strings.
- Carry and roll decomposition, year_frac_to_cashflow, dates_need_provisional, error-mapping tables, environment parsing and the HTTP and gRPC services would only add easy members.
