/**
  Business-day test and Following adjustment of `date_utils.cpp`, over the holiday and
  work-weekend tables that `kernel_api.cpp` validates as sorted and free of duplicates.
 */
module BusinessDays {
  import opened Integers
  import opened CivilCalendar

  /** The calendar fields of a calculation request. */
  datatype Calendar = Calendar(
    nonBusinessDays: seq<int>,
    workWeekends: seq<int>,
    coverageStart: int,
    coverageEnd: int,
    exactRequired: bool
  )

  ghost predicate ValidCalendar(cal: Calendar) {
    Ascending(cal.nonBusinessDays) && Ascending(cal.workWeekends)
    && cal.coverageStart <= cal.coverageEnd
  }

  /** The neighbour-by-neighbour validation accepts exactly the strictly ascending tables. */
  method ValidateSortedUniqueDates(dates: seq<int>) returns (ok: bool)
    ensures ok <==> Ascending(dates)
  {
    if |dates| == 0 { return true; }
    var i := 1;
    while i < |dates|
      invariant 1 <= i <= |dates|
      invariant Ascending(dates[..i])
    {
      if dates[i] <= dates[i - 1] { return false; }
      assert forall k :: 0 <= k < i ==> dates[..i][k] <= dates[..i][i - 1];
      i := i + 1;
    }
    assert dates[..i] == dates;
    return true;
  }

  /** `std::binary_search`: the lower-bound bisection followed by one comparison. */
  method SortedContains(dates: seq<int>, value: int) returns (found: bool)
    requires Ascending(dates)
    ensures found <==> value in dates
  {
    var first, count := 0, |dates|;
    while count > 0
      invariant 0 <= first && 0 <= count && first + count <= |dates|
      invariant forall i :: 0 <= i < first ==> dates[i] < value
      invariant forall i :: first + count <= i < |dates| ==> value <= dates[i]
    {
      var step := count / 2;
      if dates[first + step] < value {
        first := first + step + 1;
        count := count - (step + 1);
      } else {
        count := step;
      }
    }
    found := first < |dates| && !(value < dates[first]);
  }

  /** What a business day is: a weekday or work weekend that is not a holiday. */
  predicate BusinessDay(cal: Calendar, date: int) {
    (!IsWeekend(date) || date in cal.workWeekends) && date !in cal.nonBusinessDays
  }

  method IsBusinessDay(cal: Calendar, date: int) returns (ok: bool)
    requires ValidCalendar(cal)
    ensures ok <==> BusinessDay(cal, date)
  {
    var isWorkWeekend := false;
    if |cal.workWeekends| > 0 {
      isWorkWeekend := SortedContains(cal.workWeekends, date);
    }
    var isHoliday := false;
    if |cal.nonBusinessDays| > 0 {
      isHoliday := SortedContains(cal.nonBusinessDays, date);
    }
    ok := (!IsWeekend(date) || isWorkWeekend) && !isHoliday;
  }

  /**
    Where the adjustment may stop: on a business day by the tables up to the end of
    coverage, on any weekday after it, or at once after it when exact coverage is required.
   */
  predicate StopsAt(cal: Calendar, date: int) {
    if date <= cal.coverageEnd then BusinessDay(cal, date)
    else cal.exactRequired || !IsWeekend(date)
  }

  lemma WeekendsEnd(date: int)
    ensures !IsWeekend(date) || !IsWeekend(date + 1) || !IsWeekend(date + 2)
  {
    DayOfWeekRule(date);
    DayOfWeekRule(date + 1);
    DayOfWeekRule(date + 2);
    hide DayOfWeek;
  }

  /** Days left before a stop is certain. */
  function DaysToStop(cal: Calendar, date: int): nat {
    if date <= cal.coverageEnd then cal.coverageEnd - date + 3
    else if !IsWeekend(date) then 0
    else if !IsWeekend(date + 1) then 1
    else 2
  }

  lemma DaysToStopDecreases(cal: Calendar, date: int)
    requires !StopsAt(cal, date)
    ensures DaysToStop(cal, date + 1) < DaysToStop(cal, date)
  {
    hide IsWeekend;
    WeekendsEnd(date);
  }

  /** The adjusted date: the least stop at or after `date`. */
  function Following(cal: Calendar, date: int): (r: int)
    ensures r >= date && StopsAt(cal, r)
    ensures forall d :: date <= d < r ==> !StopsAt(cal, d)
    decreases DaysToStop(cal, date)
  {
    if StopsAt(cal, date) then date
    else
      DaysToStopDecreases(cal, date);
      Following(cal, date + 1)
  }

  /**
    The adjustment loop terminates, finds the least stop, and raises the provisional flag
    exactly when a replay ends past the covered calendar.
   */
  method FollowingAdjust(cal: Calendar, date: int) returns (adjusted: int, usedProvisional: bool)
    requires ValidCalendar(cal)
    ensures adjusted == Following(cal, date)
    ensures usedProvisional <==> !cal.exactRequired && adjusted > cal.coverageEnd
  {
    usedProvisional := false;
    adjusted := date;
    while true
      invariant date <= adjusted
      invariant Following(cal, date) == Following(cal, adjusted)
      invariant usedProvisional ==> !cal.exactRequired && adjusted > cal.coverageEnd
      decreases DaysToStop(cal, adjusted)
    {
      var beyondCoverage := adjusted > cal.coverageEnd;
      if beyondCoverage && cal.exactRequired {
        return;
      }
      var isBusiness;
      if beyondCoverage {
        isBusiness := !IsWeekend(adjusted);
        usedProvisional := true;
      } else {
        isBusiness := IsBusinessDay(cal, adjusted);
      }
      if isBusiness { break; }
      DaysToStopDecreases(cal, adjusted);
      adjusted := adjusted + 1;
    }
  }

  /** The least stop is unique: any date with the two defining properties is the adjusted date. */
  lemma FollowingIsLeast(cal: Calendar, date: int, r: int)
    requires r >= date && StopsAt(cal, r)
    requires forall d :: date <= d < r ==> !StopsAt(cal, d)
    ensures r == Following(cal, date)
  {
    assert Following(cal, date) < r ==> !StopsAt(cal, Following(cal, date));
  }

  lemma FollowingIdempotent(cal: Calendar, date: int)
    ensures Following(cal, Following(cal, date)) == Following(cal, date)
  {
    FollowingIsLeast(cal, Following(cal, date), Following(cal, date));
  }

  lemma FollowingMonotone(cal: Calendar, a: int, b: int)
    requires a <= b
    ensures Following(cal, a) <= Following(cal, b)
  {
    var r := Following(cal, b);
    assert r < Following(cal, a) ==> !StopsAt(cal, r);
  }

  /** In exact mode a date ends past coverage only at the first uncovered day (or at itself). */
  lemma ExactModeBoundary(cal: Calendar, date: int)
    requires cal.exactRequired && Following(cal, date) > cal.coverageEnd
    ensures Following(cal, date) == if date > cal.coverageEnd then date else cal.coverageEnd + 1
  {
    if date <= cal.coverageEnd {
      assert StopsAt(cal, cal.coverageEnd + 1);
    }
  }
}
