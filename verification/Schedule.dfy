/** Nominal coupon schedules: `generate_nominal_schedule` of `bond_math.cpp`. */
module Schedule {
  import opened Integers
  import opened CivilCalendar

  function MonthsPerPeriod(frequency: nat): (p: int)
    ensures p > 0
  {
    if frequency == 2 then 6 else 12
  }

  /** `n` is the number of periods, counted back from maturity, that it takes to reach issue. */
  predicate IsPeriodCount(issue: int, maturity: int, p: int, capacity: int, n: int) {
    && 1 <= n <= capacity
    && AddMonths(maturity, -((n - 1) * p)) > issue
    && (n == capacity || AddMonths(maturity, -(n * p)) <= issue)
  }

  /** Dates run forward from issue in whole periods; the last one is replaced by maturity. */
  ghost predicate IsNominalSchedule(issue: int, maturity: int, p: int, capacity: int, s: seq<int>) {
    && IsPeriodCount(issue, maturity, p, capacity, |s|)
    && s[|s| - 1] == maturity
    && forall i :: 0 <= i < |s| - 1 ==> s[i] == AddMonths(issue, (i + 1) * p)
  }

  /** The schedule as a value: the one schedule that `ScheduleUnique` allows. */
  function NominalDates(issue: int, maturity: int, p: int, capacity: int): (s: seq<int>)
    requires issue < maturity && p > 0 && capacity > 0
    ensures IsNominalSchedule(issue, maturity, p, capacity, s)
  {
    hide AddMonths;
    AddMonthsZero(maturity);
    var n := CountPeriods(issue, maturity, p, capacity, 1);
    seq(n, i => if i == n - 1 then maturity else AddMonths(issue, (i + 1) * p))
  }

  function CountPeriods(issue: int, maturity: int, p: int, capacity: int, n: int): (r: int)
    requires 1 <= n <= capacity && AddMonths(maturity, -((n - 1) * p)) > issue
    ensures IsPeriodCount(issue, maturity, p, capacity, r)
    decreases capacity - n
  {
    hide AddMonths;
    if n == capacity || AddMonths(maturity, -(n * p)) <= issue then n
    else CountPeriods(issue, maturity, p, capacity, n + 1)
  }

  method GenerateNominalSchedule(issue: int, maturity: int, frequency: nat, outDates: array<int>)
    returns (idx: nat)
    modifies outDates
    ensures idx <= outDates.Length
    ensures idx == 0 <==> outDates.Length == 0 || maturity <= issue
    ensures idx > 0 ==>
      IsNominalSchedule(issue, maturity, MonthsPerPeriod(frequency), outDates.Length, outDates[..idx])
    ensures forall k :: idx <= k < outDates.Length ==> outDates[k] == old(outDates[k])
  {
    hide AddMonths;
    if outDates.Length == 0 { return 0; }
    if maturity <= issue { return 0; }
    var p := MonthsPerPeriod(frequency);
    var count := 0;
    var d := maturity;
    AddMonthsZero(maturity);
    while d > issue && count < outDates.Length
      invariant 0 <= count <= outDates.Length
      invariant d == AddMonths(maturity, -(count * p))
      invariant count > 0 ==> AddMonths(maturity, -((count - 1) * p)) > issue
      invariant count == 0 ==> d > issue
      decreases outDates.Length - count
    {
      d := AddMonths(maturity, -((count + 1) * p));
      count := count + 1;
    }
    idx := 0;
    var current := issue;
    for i := 0 to count
      invariant idx == i
      invariant forall k :: 0 <= k < i ==> outDates[k] == AddMonths(issue, (k + 1) * p)
      invariant forall k :: count <= k < outDates.Length ==> outDates[k] == old(outDates[k])
    {
      current := AddMonths(issue, (i + 1) * p);
      outDates[idx] := current;
      idx := idx + 1;
    }
    if idx > 0 && outDates[idx - 1] != maturity {
      outDates[idx - 1] := maturity;
    }
  }

  /**
    A bond of `years` whole years has its coupons `frequency` times a year: that many dates a
    year, one of them on each anniversary of issue, whatever the day of issue.
   */
  lemma ScheduleOfYears(issue: int, years: int, frequency: nat, capacity: int, s: seq<int>)
    requires (frequency == 1 || frequency == 2) && 1 <= years && years * frequency <= capacity
    requires IsNominalSchedule(issue, AddMonths(issue, 12 * years), MonthsPerPeriod(frequency), capacity, s)
    ensures |s| == years * frequency
    ensures forall k :: 1 <= k <= years ==> 0 < k * frequency <= |s| && s[k * frequency - 1] == AddMonths(issue, 12 * k)
  {
    hide AddMonths;
    var p, maturity, n := MonthsPerPeriod(frequency), AddMonths(issue, 12 * years), years * frequency;
    assert n * p == 12 * years && (n - 1) * p == 12 * years - p;
    MonthsBack(issue, 12 * years, p);
    assert IsPeriodCount(issue, maturity, p, capacity, n);
    CountUnique(issue, maturity, p, capacity, |s|, n);
    forall k | 1 <= k <= years
      ensures 0 < k * frequency <= |s| && s[k * frequency - 1] == AddMonths(issue, 12 * k)
    {
      assert k * frequency <= years * frequency;
      assert k < years ==> k * frequency < n;
      assert k * frequency * p == 12 * k;
    }
  }

  /** Coming back over the whole distance never passes issue; one period less stays after it. */
  lemma MonthsBack(issue: int, months: int, p: int)
    requires 0 < p <= months
    ensures AddMonths(AddMonths(issue, months), -months) <= issue
    ensures AddMonths(AddMonths(issue, months), -(months - p)) > issue
  {
    hide AddMonths, MonthOf, DayOf, MonthLength;
    AddMonthsSubAdditive(issue, months, -months);
    AddMonthsZero(issue);
    AddMonthsParts(issue, months);
    AddMonthsParts(AddMonths(issue, months), -(months - p));
    PartsOrder(issue, AddMonths(AddMonths(issue, months), -(months - p)));
  }

  /** The number of periods is pinned by the calendar. */
  lemma CountUnique(issue: int, maturity: int, p: int, capacity: int, m: int, n: int)
    requires p > 0 && IsPeriodCount(issue, maturity, p, capacity, m) && IsPeriodCount(issue, maturity, p, capacity, n)
    ensures m == n
  {
    hide AddMonths;
    if m != n {
      var lo, hi := if m < n then m else n, if m < n then n else m;
      assert lo < hi && AddMonths(maturity, -(lo * p)) <= issue < AddMonths(maturity, -((hi - 1) * p));
      MulLe(lo, hi - 1, p);
      if lo * p < (hi - 1) * p {
        AddMonthsStrictInMonths(maturity, -((hi - 1) * p), -(lo * p));
      }
      assert false;
    }
  }

  /** One schedule is possible for each request: the count is pinned by the calendar. */
  lemma ScheduleUnique(issue: int, maturity: int, p: int, capacity: int, s: seq<int>, t: seq<int>)
    requires p > 0
    requires IsNominalSchedule(issue, maturity, p, capacity, s)
    requires IsNominalSchedule(issue, maturity, p, capacity, t)
    ensures s == t
  {
    hide AddMonths;
    CountUnique(issue, maturity, p, capacity, |s|, |t|);
  }

  lemma MulLe(a: int, b: int, p: int)
    requires a <= b && p >= 0
    ensures a * p <= b * p
    ensures a < b && p > 0 ==> a * p < b * p
  {
    MulNonneg(b - a, p);
    assert (b - a) * p == b * p - a * p;
    if a < b { MulNonneg(b - a - 1, p); assert (b - a - 1) * p == b * p - a * p - p; }
  }

  /** The step that would overshoot maturity is never taken, whatever month ends clamp. */
  lemma LastStepBeforeMaturity(issue: int, maturity: int, n: int)
    requires AddMonths(maturity, -n) > issue
    ensures AddMonths(issue, n) < maturity
  {
    hide AddMonths, MonthOf, DayOf, MonthLength, MonthFirst;
    AddMonthsParts(maturity, -n);
    AddMonthsParts(issue, n);
    PartsOrder(issue, AddMonths(maturity, -n));
    PartsOrder(AddMonths(issue, n), maturity);
    PartsRepresent(maturity);
  }

  /** Every schedule is strictly ascending, lies after issue and ends at maturity. */
  lemma ScheduleAscending(issue: int, maturity: int, p: int, capacity: int, s: seq<int>)
    requires p > 0 && issue < maturity
    requires IsNominalSchedule(issue, maturity, p, capacity, s)
    ensures Ascending(s)
    ensures forall i :: 0 <= i < |s| ==> issue < s[i] <= maturity
  {
    hide AddMonths;
    var n := |s|;
    LastStepBeforeMaturity(issue, maturity, (n - 1) * p);
    AddMonthsZero(issue);
    forall i | 0 <= i < n - 1
      ensures issue < s[i] < maturity
    {
      MulLe(0, i + 1, p);
      AddMonthsStrictInMonths(issue, 0, (i + 1) * p);
      MulLe(i + 1, n - 1, p);
      if i + 1 < n - 1 {
        AddMonthsStrictInMonths(issue, (i + 1) * p, (n - 1) * p);
      }
    }
    forall i, j | 0 <= i < j < n - 1
      ensures s[i] < s[j]
    {
      MulLe(i + 1, j + 1, p);
      AddMonthsStrictInMonths(issue, (i + 1) * p, (j + 1) * p);
    }
  }

  /** Date before the first coupon is issue itself. */
  function PreviousDate(issue: int, s: seq<int>, i: nat): int
    requires i < |s|
  {
    if i == 0 then issue else s[i - 1]
  }

  /**
    When capacity does not cut the schedule off, every period but the last spans exactly
    `p` calendar months and the last at most `p`; the number of coupons is the distance
    from issue to maturity in periods, rounded up.
   */
  lemma ScheduleGaps(issue: int, maturity: int, p: int, capacity: int, s: seq<int>)
    requires p > 0 && issue < maturity
    requires IsNominalSchedule(issue, maturity, p, capacity, s)
    requires AddMonths(maturity, -(|s| * p)) <= issue
    ensures forall i :: 0 <= i < |s| - 1 ==> MonthOf(s[i]) - MonthOf(PreviousDate(issue, s, i)) == p
    ensures MonthOf(maturity) - MonthOf(PreviousDate(issue, s, |s| - 1)) <= p
    ensures (|s| - 1) * p <= MonthOf(maturity) - MonthOf(issue) <= |s| * p
  {
    hide AddMonths, MonthOf, DayOf, MonthLength;
    var n := |s|;
    AddMonthsZero(issue);
    forall i | 0 <= i < n
      ensures i > 0 ==> MonthOf(s[i - 1]) == MonthOf(issue) + i * p
    {
      if i > 0 { AddMonthsParts(issue, i * p); }
    }
    AddMonthsParts(maturity, -(n * p));
    PartsOrder(issue, AddMonths(maturity, -(n * p)));
    AddMonthsParts(maturity, -((n - 1) * p));
    PartsOrder(issue, AddMonths(maturity, -((n - 1) * p)));
    assert n * p == (n - 1) * p + p;
    forall i | 0 <= i < n - 1
      ensures MonthOf(s[i]) - MonthOf(PreviousDate(issue, s, i)) == p
    {
      assert s[i] == s[(i + 1) - 1];
      assert (i + 1) * p == i * p + p;
    }
  }
}
