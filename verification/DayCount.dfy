/** The two day counts of `day_count.cpp`. */
module DayCount {
  import opened Reals
  import opened CivilCalendar

  /** Actual/Actual ICMA: actual days over the days of the reference period times frequency. */
  function ActActBondIsma(start: int, end: int, periodStart: int, periodEnd: int, frequency: nat): (yf: real)
    requires frequency > 0
    ensures yf >= 0.0
    ensures start == periodStart && end == periodEnd && start < end ==> yf == 1.0 / frequency as real
    ensures yf > 0.0 <==> start < end && periodStart < periodEnd
  {
    if end - start <= 0 then 0.0
    else if periodEnd - periodStart <= 0 then 0.0
    else
      IsmaPositive(end - start, periodEnd - periodStart, frequency);
      (end - start) as real / ((periodEnd - periodStart) as real * frequency as real)
  }

  lemma IsmaPositive(days: int, period: int, frequency: nat)
    requires days > 0 && period > 0 && frequency > 0
    ensures period as real * frequency as real > 0.0
    ensures days as real / (period as real * frequency as real) > 0.0
    ensures period as real / (period as real * frequency as real) == 1.0 / frequency as real
  {
    var p, f := period as real, frequency as real;
    assert p * f > 0.0;
    assert p * f / f == p;
    assert (1.0 / f) * (p * f) == p;
  }

  function JanuaryFirst(y: int): int {
    YmdToDays(Civil(y, 1, 1))
  }

  function YearLength(y: int): (days: real)
    ensures days > 0.0
  {
    if IsLeapYear(y) then 366.0 else 365.0
  }

  /** Position of a day on the calendar, in years: the year plus the elapsed fraction of it. */
  function CalendarPosition(days: int): real {
    var y := DaysToYmd(days).year;
    y as real + (days - JanuaryFirst(y)) as real / YearLength(y)
  }

  lemma YearSpan(y: int)
    ensures (JanuaryFirst(y + 1) - JanuaryFirst(y)) as real == YearLength(y)
    ensures YmdToDays(Civil(y, 12, 31)) + 1 == JanuaryFirst(y + 1)
  {
    ClosedForm(Civil(y + 1, 1, 1));
    ClosedForm(Civil(y, 1, 1));
    ClosedForm(Civil(y, 12, 31));
    MarchYearLength(y - 1);
    MarchMonthLengths();
    hide YmdToDays, IsLeapYear, MarchYearStart, MarchMonthStart;
  }

  /** A day lies in the calendar year it converts to, and years follow the order of days. */
  lemma YearOfDay(days: int)
    ensures var y := DaysToYmd(days).year; JanuaryFirst(y) <= days < JanuaryFirst(y + 1)
  {
    hide YmdToDays, DaysToYmd, IsLeapYear;
    var c := DaysToYmd(days);
    DaysRoundTrip(days);
    OrderIsomorphism(c, Civil(c.year, 1, 1));
    OrderIsomorphism(c, Civil(c.year + 1, 1, 1));
  }

  lemma {:induction false} JanuaryFirstOrder(y: int, z: int)
    requires y < z
    ensures JanuaryFirst(y) < JanuaryFirst(z)
  {
    hide YmdToDays, IsLeapYear;
    OrderIsomorphism(Civil(y, 1, 1), Civil(z, 1, 1));
  }

  lemma PositionInYear(days: int)
    ensures var y := DaysToYmd(days).year; y as real <= CalendarPosition(days) < (y + 1) as real
  {
    hide YmdToDays, DaysToYmd, IsLeapYear;
    var y := DaysToYmd(days).year;
    YearOfDay(days);
    YearSpan(y);
    FractionBelowOne((days - JanuaryFirst(y)) as real, YearLength(y));
  }

  lemma PositionStrictlyIncreasing(a: int, b: int)
    requires a < b
    ensures CalendarPosition(a) < CalendarPosition(b)
  {
    hide YmdToDays, DaysToYmd, IsLeapYear;
    var y, z := DaysToYmd(a).year, DaysToYmd(b).year;
    YearOfDay(a);
    YearOfDay(b);
    if z + 1 < y + 1 {
      if z + 1 < y { JanuaryFirstOrder(z + 1, y); }
      assert false;
    } else if y < z {
      PositionInYear(a);
      PositionInYear(b);
    } else {
      assert (a - JanuaryFirst(y)) as real < (b - JanuaryFirst(y)) as real;
      QuotientOrder((a - JanuaryFirst(y)) as real, (b - JanuaryFirst(y)) as real, YearLength(y));
    }
  }

  /** Every day moves the position by one over the days of its calendar year, across year ends too. */
  lemma PositionPerDay(days: int)
    ensures var y := DaysToYmd(days).year;
      (CalendarPosition(days + 1) - CalendarPosition(days)) * (JanuaryFirst(y + 1) - JanuaryFirst(y)) as real == 1.0
  {
    hide *;
    var y := DaysToYmd(days).year;
    YearSpan(y);
    YearAfter(days);
    PositionOf(days);
    PositionOf(days + 1);
    LengthPositive(y);
    var n := YearLength(y);
    if DaysToYmd(days + 1).year == y {
      DayShare((days - JanuaryFirst(y)) as real, n);
    } else {
      ZeroShare(y);
      DayShare(n - 1.0, n);
    }
  }

  lemma LengthPositive(y: int)
    ensures YearLength(y) > 0.0
  {
  }

  lemma ZeroShare(y: int)
    ensures YearLength(y + 1) > 0.0 && 0.0 / YearLength(y + 1) == 0.0
  {
  }

  /** The next day is in the same year, or is the first of the next one. */
  lemma YearAfter(days: int)
    ensures var y, z := DaysToYmd(days).year, DaysToYmd(days + 1).year;
      z == y || (z == y + 1 && days + 1 == JanuaryFirst(y + 1))
  {
    hide DaysToYmd, YmdToDays, IsLeapYear, JanuaryFirst;
    var y, z := DaysToYmd(days).year, DaysToYmd(days + 1).year;
    YearOfDay(days);
    YearOfDay(days + 1);
    YearNotBefore(days, days + 1);
    if y + 1 < z { JanuaryFirstOrder(y + 1, z); }
  }

  lemma DayShare(k: real, n: real)
    requires n > 0.0
    ensures ((k + 1.0) / n - k / n) * n == 1.0
    ensures k + 1.0 == n ==> (1.0 - k / n) * n == 1.0
  {
  }

  /**
    The year-splitting loop measures the increment of the calendar position; every
    property below follows from that.
   */
  method ActActNatural(start: int, end: int) returns (yf: real)
    ensures yf == if start < end then CalendarPosition(end) - CalendarPosition(start) else 0.0
  {
    hide YmdToDays, DaysToYmd, IsLeapYear, CalendarPosition, YearLength;
    if end <= start { return 0.0; }
    var y1 := DaysToYmd(start).year;
    var y2 := DaysToYmd(end).year;
    YearNotBefore(start, end);
    if y1 == y2 {
      SameYear(start, end);
      return (end - start) as real / YearLength(y1);
    }
    yf := 0.0;
    var endOfY1 := YmdToDays(Civil(y1, 12, 31));
    yf := yf + (endOfY1 - start + 1) as real / YearLength(y1);
    RestOfYear(start);
    PositionOf(end);
    var y := y1 + 1;
    while y < y2
      invariant y1 + 1 <= y <= y2
      invariant yf == y as real - CalendarPosition(start)
    {
      yf := yf + 1.0;
      y := y + 1;
    }
    yf := yf + (end - JanuaryFirst(y2)) as real / YearLength(y2);
  }

  lemma PositionOf(days: int)
    ensures var y := DaysToYmd(days).year;
      CalendarPosition(days) == y as real + (days - JanuaryFirst(y)) as real / YearLength(y)
  {
    hide YmdToDays, DaysToYmd, IsLeapYear;
  }

  lemma YearNotBefore(a: int, b: int)
    requires a < b
    ensures DaysToYmd(a).year <= DaysToYmd(b).year
  {
    hide YmdToDays, DaysToYmd, IsLeapYear;
    var y, z := DaysToYmd(a).year, DaysToYmd(b).year;
    YearOfDay(a);
    YearOfDay(b);
    if z + 1 < y {
      JanuaryFirstOrder(z + 1, y);
    }
  }

  lemma SameYear(a: int, b: int)
    requires DaysToYmd(a).year == DaysToYmd(b).year
    ensures (b - a) as real / YearLength(DaysToYmd(a).year) == CalendarPosition(b) - CalendarPosition(a)
  {
    hide YmdToDays, DaysToYmd, IsLeapYear;
  }

  lemma RestOfYear(a: int)
    ensures var y := DaysToYmd(a).year;
      (YmdToDays(Civil(y, 12, 31)) - a + 1) as real / YearLength(y)
      == (y + 1) as real - CalendarPosition(a)
  {
    hide YmdToDays, DaysToYmd, IsLeapYear;
    var y := DaysToYmd(a).year;
    YearSpan(y);
    var n := YearLength(y);
    assert (JanuaryFirst(y + 1) - a) as real == n - (a - JanuaryFirst(y)) as real;
  }

  /** The year fraction as a function of its two dates. */
  function NaturalYears(start: int, end: int): real {
    if start < end then CalendarPosition(end) - CalendarPosition(start) else 0.0
  }

  lemma NaturalAdditive(a: int, b: int, c: int)
    requires a <= b <= c
    ensures NaturalYears(a, b) + NaturalYears(b, c) == NaturalYears(a, c)
    ensures a < b ==> NaturalYears(a, b) > 0.0
    ensures b < c ==> NaturalYears(a, b) < NaturalYears(a, c)
  {
    hide CalendarPosition;
    if a < b { PositionStrictlyIncreasing(a, b); }
    if b < c { PositionStrictlyIncreasing(b, c); }
  }

  /** Between January firsts the year fraction is the exact number of years. */
  lemma NaturalWholeYears(y: int, z: int)
    requires y <= z
    ensures NaturalYears(JanuaryFirst(y), JanuaryFirst(z)) == (z - y) as real
  {
    hide YmdToDays, DaysToYmd, IsLeapYear;
    CivilRoundTrip(Civil(y, 1, 1));
    CivilRoundTrip(Civil(z, 1, 1));
    if y < z { JanuaryFirstOrder(y, z); }
  }
}
