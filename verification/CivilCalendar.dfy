/**
  Epoch-day and civil-date arithmetic of `date_utils.hpp`: the proleptic Gregorian
  calendar with 1970-01-01 as day 0.

  The C++ code computes with truncating `/` and `%`; those operators are written out
  here (`TruncDiv`, `TruncMod`), so that the code's own corrections for negative
  operands are part of what is proved.
 */
module CivilCalendar {
  import opened Integers

  // ---------- C++ integer operators ----------

  /** C++ `a / b` for a positive divisor: rounds toward zero. */
  function TruncDiv(a: int, b: int): int
    requires b > 0
  {
    if a >= 0 then a / b else -((-a) / b)
  }

  /** C++ `a % b` for a positive divisor: has the sign of `a`. */
  function TruncMod(a: int, b: int): int
    requires b > 0
  {
    a - b * TruncDiv(a, b)
  }

  // ---------- The calendar functions of the source ----------

  datatype Civil = Civil(year: int, month: int, day: int)

  predicate IsLeapYear(y: int) {
    (TruncMod(y, 4) == 0 && TruncMod(y, 100) != 0) || TruncMod(y, 400) == 0
  }

  function DaysInMonth(y: int, m: int): int
    requires 1 <= m <= 12
  {
    if m == 2 && IsLeapYear(y) then 29
    else [31, 28, 31, 30, 31, 30, 31, 31, 30, 31, 30, 31][m - 1]
  }

  /** A date that exists in the calendar. */
  predicate ValidCivil(c: Civil) {
    1 <= c.month <= 12 && 1 <= c.day <= DaysInMonth(c.year, c.month)
  }

  function YmdToDays(c: Civil): int {
    var y := c.year - (if c.month <= 2 then 1 else 0);
    var era := TruncDiv(if y >= 0 then y else y - 399, 400);
    var yoe := y - era * 400;
    var doy := (153 * (if c.month > 2 then c.month - 3 else c.month + 9) + 2) / 5 + c.day - 1;
    var doe := EraYearStart(yoe) + doy;
    era * 146097 + doe - 719468
  }

  function DaysToYmd(days: int): Civil {
    var z := days + 719468;
    var era := TruncDiv(if z >= 0 then z else z - 146096, 146097);
    var doe := z - era * 146097;
    var yoe := YearOfEraDay(doe);
    MonthAndDay(yoe + era * 400, doe - EraYearStart(yoe))
  }

  function YearOfEraDay(doe: int): int {
    (doe - doe / 1460 + doe / 36524 - doe / 146096) / 365
  }

  function EraYearStart(yoe: int): int {
    365 * yoe + yoe / 4 - yoe / 100
  }

  /** Second half of days_to_ymd: month and day from the day of a March-based year. */
  function MonthAndDay(marchYear: int, doy: int): Civil {
    var mp := (5 * doy + 2) / 153;
    var d := doy - (153 * mp + 2) / 5 + 1;
    var m := if mp < 10 then mp + 3 else mp - 9;
    Civil(marchYear + (if m <= 2 then 1 else 0), m, d)
  }

  function DayOfWeek(days: int): int {
    var d := TruncMod(days + 4, 7);
    if d < 0 then d + 7 else d
  }

  predicate IsWeekend(days: int) {
    DayOfWeek(days) == 0 || DayOfWeek(days) == 6
  }

  /** Year of a month count, with the source's correction for negative counts. */
  function YearOfTotal(total: int): int {
    if total < 0 && TruncMod(total, 12) != 0 then TruncDiv(total, 12) - 1 else TruncDiv(total, 12)
  }

  function MonthOfTotal(total: int): (m: int)
    ensures 1 <= m <= 12
  {
    if total < 0 && TruncMod(total, 12) != 0 then 12 + TruncMod(total, 12) + 1 else TruncMod(total, 12) + 1
  }

  function AddMonths(days: int, months: int): int {
    var c := DaysToYmd(days);
    var total := c.year * 12 + c.month - 1 + months;
    var ny, nm := YearOfTotal(total), MonthOfTotal(total);
    var dim := DaysInMonth(ny, nm);
    YmdToDays(Civil(ny, nm, if c.day > dim then dim else c.day))
  }

  // ---------- Reference notions, independent of the code ----------

  /** The date that follows `c` on the calendar. */
  function NextCivil(c: Civil): Civil
    requires ValidCivil(c)
  {
    if c.day < DaysInMonth(c.year, c.month) then c.(day := c.day + 1)
    else if c.month < 12 then Civil(c.year, c.month + 1, 1)
    else Civil(c.year + 1, 1, 1)
  }

  /** Chronological (lexicographic) order of civil dates. */
  predicate Earlier(a: Civil, b: Civil) {
    a.year < b.year
    || (a.year == b.year && (a.month < b.month || (a.month == b.month && a.day < b.day)))
  }

  /** Month number counted from January of year 0, with Euclidean division throughout. */
  function MonthIndex(c: Civil): int {
    12 * c.year + c.month - 1
  }

  function MonthLength(t: int): int {
    DaysInMonth(t / 12, t % 12 + 1)
  }

  function MonthFirst(t: int): int {
    YmdToDays(Civil(t / 12, t % 12 + 1, 1))
  }

  // ---------- Truncation fix-ups are floor division ----------

  /** The three idioms by which the source corrects a truncated quotient or remainder. */
  lemma TruncFixupsAreFloor(a: int, b: int)
    requires b > 0
    ensures TruncDiv(if a >= 0 then a else a - (b - 1), b) == a / b
    ensures TruncDiv(a, b) - (if a < 0 && TruncMod(a, b) != 0 then 1 else 0) == a / b
    ensures TruncMod(a, b) + (if TruncMod(a, b) < 0 then b else 0) == a % b
  {
    if a < 0 {
      ShiftedTruncation(a, b);
      NegativeTruncation(a, b);
      hide TruncDiv;
    } else {
      assert TruncDiv(a, b) == a / b;
    }
  }

  lemma ShiftedTruncation(a: int, b: int)
    requires a < 0 < b
    ensures TruncDiv(a - (b - 1), b) == a / b
  {
    var q, r := a / b, a % b;
    assert -(a - (b - 1)) == b * (-q) + (b - 1 - r);
    FloorUnique(-(a - (b - 1)), b, -q, b - 1 - r);
  }

  lemma NegativeTruncation(a: int, b: int)
    requires a < 0 < b
    ensures var q, r := a / b, a % b;
      TruncDiv(a, b) == (if r == 0 then q else q + 1) && TruncMod(a, b) == (if r == 0 then 0 else r - b)
  {
    var q, r := a / b, a % b;
    if r == 0 {
      assert -a == b * (-q);
      FloorUnique(-a, b, -q, 0);
    } else {
      assert -a == b * (-q - 1) + (b - r);
      FloorUnique(-a, b, -q - 1, b - r);
      assert b * (q + 1) == b * q + b;
    }
  }

  lemma LeapYearRule(y: int)
    ensures IsLeapYear(y) <==> (y % 4 == 0 && y % 100 != 0) || y % 400 == 0
  {
    TruncFixupsAreFloor(y, 4);
    TruncFixupsAreFloor(y, 100);
    TruncFixupsAreFloor(y, 400);
  }

  lemma DayOfWeekRule(days: int)
    ensures DayOfWeek(days) == (days + 4) % 7
  {
    TruncFixupsAreFloor(days + 4, 7);
  }

  /** 3 January 1970 was a Saturday: every seventh day from it, and the day after each, is weekend. */
  lemma WeekendRule(days: int)
    ensures IsWeekend(days) <==> (days - 2) % 7 == 0 || (days - 3) % 7 == 0
    ensures YmdToDays(Civil(1970, 1, 3)) == 2 && IsWeekend(2)
  {
    DayOfWeekRule(days);
    DayOfWeekRule(2);
    hide DayOfWeek;
  }

  // ---------- Closed form of ymd_to_days ----------

  /** Days before 1 March of year `y`, counted from 1 March of year 0. */
  function MarchYearStart(y: int): int {
    365 * y + y / 4 - y / 100 + y / 400
  }

  /** Days before the `mp`-th month of a year that starts in March. */
  function MarchMonthStart(mp: int): int {
    (153 * mp + 2) / 5
  }

  function MarchYear(c: Civil): int {
    c.year - (if c.month <= 2 then 1 else 0)
  }

  function MarchMonth(c: Civil): int {
    if c.month > 2 then c.month - 3 else c.month + 9
  }

  lemma ClosedForm(c: Civil)
    ensures YmdToDays(c) == MarchYearStart(MarchYear(c)) + MarchMonthStart(MarchMonth(c)) + c.day - 719469
  {
    var y := MarchYear(c);
    TruncFixupsAreFloor(y, 400);
    EraSplit(y);
  }

  lemma EraSplit(y: int)
    ensures var era := y / 400; var yoe := y - era * 400;
      0 <= yoe < 400 && MarchYearStart(y) == era * 146097 + EraYearStart(yoe)
  {
    var era := y / 400;
    var yoe := y - era * 400;
    FloorUnique(y, 4, 100 * era + yoe / 4, yoe % 4);
    FloorUnique(y, 100, 4 * era + yoe / 100, yoe % 100);
  }

  // ---------- Lengths of months and years ----------

  lemma MarchYearLength(y: int)
    ensures MarchYearStart(y + 1) - MarchYearStart(y) == if IsLeapYear(y + 1) then 366 else 365
  {
    LeapYearRule(y + 1);
    LeapDaysStep(y);
  }

  /** Stepping to year `y + 1` passes a leap day exactly by the 4/100/400 rule. */
  lemma LeapDaysStep(y: int)
    ensures var n := y + 1;
      (n / 4 - n / 100 + n / 400) - (y / 4 - y / 100 + y / 400)
      == if (n % 4 == 0 && n % 100 != 0) || n % 400 == 0 then 1 else 0
  {
    var n := y + 1;
    DivStep(y, 4);
    DivStep(y, 100);
    DivStep(y, 400);
    if n % 100 == 0 {
      FloorUnique(n, 4, 25 * (n / 100), 0);
    }
    if n % 400 == 0 {
      FloorUnique(n, 100, 4 * (n / 400), 0);
    }
  }

  lemma DivStep(y: int, b: int)
    requires b > 1
    ensures (y + 1) / b - y / b == if (y + 1) % b == 0 then 1 else 0
  {
    var q, r := y / b, y % b;
    if r == b - 1 {
      assert y + 1 == b * (q + 1);
      FloorUnique(y + 1, b, q + 1, 0);
    } else {
      FloorUnique(y + 1, b, q, r + 1);
    }
  }

  lemma MarchMonthLengths()
    ensures MarchMonthStart(0) == 0 && MarchMonthStart(1) == 31 && MarchMonthStart(2) == 61
    ensures MarchMonthStart(3) == 92 && MarchMonthStart(4) == 122 && MarchMonthStart(5) == 153
    ensures MarchMonthStart(6) == 184 && MarchMonthStart(7) == 214 && MarchMonthStart(8) == 245
    ensures MarchMonthStart(9) == 275 && MarchMonthStart(10) == 306 && MarchMonthStart(11) == 337
    ensures MarchMonthStart(12) == 367
  {
  }

  /** The last day of month `m` is followed by the first of the next month. */
  lemma MonthEnd(y: int, m: int)
    requires 1 <= m <= 12
    ensures 28 <= DaysInMonth(y, m) <= 31
    ensures YmdToDays(Civil(y, m, 1)) + DaysInMonth(y, m)
         == YmdToDays(if m == 12 then Civil(y + 1, 1, 1) else Civil(y, m + 1, 1))
  {
    var next := if m == 12 then Civil(y + 1, 1, 1) else Civil(y, m + 1, 1);
    ClosedForm(Civil(y, m, 1));
    ClosedForm(next);
    MarchMonthLengths();
    MarchYearLength(y - 1);
    hide YmdToDays, IsLeapYear, MarchYearStart, MarchMonthStart;
  }

  lemma MonthFirstStep(t: int)
    ensures 28 <= MonthLength(t) <= 31
    ensures MonthFirst(t + 1) == MonthFirst(t) + MonthLength(t)
  {
    hide YmdToDays, DaysInMonth;
    var y, m := t / 12, t % 12 + 1;
    MonthEnd(y, m);
    if m == 12 {
      FloorUnique(t + 1, 12, y + 1, 0);
    } else {
      FloorUnique(t + 1, 12, y, m);
    }
  }

  // ---------- days_to_ymd inverts ymd_to_days ----------

  /** A day of a 400-year era is split into century, four-year cycle, year and day of year. */
  predicate EraDay(c: int, q: int, r: int, doy: int) {
    && 0 <= c <= 3 && 0 <= q <= 24 && 0 <= r <= 3 && 0 <= doy <= 365
    && (doy == 365 ==> r == 3 && (q < 24 || c == 3))
  }

  lemma SplitEraDay(doe: int) returns (c: int, q: int, r: int, doy: int)
    requires 0 <= doe < 146097
    ensures EraDay(c, q, r, doy) && doe == 36524 * c + 1461 * q + 365 * r + doy
  {
    c := if doe == 146096 then 3 else doe / 36524;
    var doc := doe - 36524 * c;
    q := doc / 1461;
    var dof := doc - 1461 * q;
    r := if dof == 1460 then 3 else dof / 365;
    doy := dof - 365 * r;
  }

  /** The source's year-of-era expression recovers the year from the day of the era. */
  lemma YearOfEra(c: int, q: int, r: int, doy: int)
    requires EraDay(c, q, r, doy)
    ensures YearOfEraDay(36524 * c + 1461 * q + 365 * r + doy) == 100 * c + 4 * q + r
  {
    var doe := 36524 * c + 1461 * q + 365 * r + doy;
    var rest := 24 * c + q + 365 * r + doy;
    var e := if rest >= 1460 then 1 else 0;
    FloorUnique(doe, 1460, 25 * c + q + e, rest - 1460 * e);
    if doe == 146096 {
      FloorUnique(doe, 36524, 4, 0);
    } else {
      FloorUnique(doe, 36524, c, 1461 * q + 365 * r + doy);
      FloorUnique(doe, 146096, 0, doe);
    }
    FloorUnique(36500 * c + 1460 * q + 365 * r + doy - e, 365, 100 * c + 4 * q + r, doy - e);
  }

  lemma YearStartOfEra(c: int, q: int, r: int)
    requires 0 <= c <= 3 && 0 <= q <= 24 && 0 <= r <= 3
    ensures EraYearStart(100 * c + 4 * q + r) == 36524 * c + 1461 * q + 365 * r
  {
    var yoe := 100 * c + 4 * q + r;
    FloorUnique(yoe, 4, 25 * c + q, r);
    FloorUnique(yoe, 100, c, 4 * q + r);
  }

  lemma MonthOfDay(doy: int)
    requires 0 <= doy <= 365
    ensures var mp := (5 * doy + 2) / 153;
      0 <= mp <= 11 && MarchMonthStart(mp) <= doy < MarchMonthStart(mp + 1)
  {
  }

  /** A 366th day exists only in a March-based year that ends in a leap February. */
  lemma LastDayIsLeap(era: int, c: int, q: int, r: int)
    requires 0 <= c <= 3 && 0 <= q <= 24 && r == 3 && (q < 24 || c == 3)
    ensures IsLeapYear(era * 400 + 100 * c + 4 * q + r + 1)
  {
    var y := era * 400 + 100 * c + 4 * q + r + 1;
    LeapYearRule(y);
    FloorUnique(y, 4, 100 * era + 25 * c + q + 1, 0);
    if q < 24 {
      FloorUnique(y, 100, 4 * era + c, 4 * q + 4);
    } else {
      FloorUnique(y, 400, era + 1, 0);
    }
  }

  lemma MonthLengthBound(doy: int, mp: int, year: int, month: int)
    requires 0 <= mp <= 11 && MarchMonthStart(mp) <= doy < MarchMonthStart(mp + 1) && doy <= 365
    requires month == if mp < 10 then mp + 3 else mp - 9
    requires doy == 365 ==> IsLeapYear(year)
    ensures doy - MarchMonthStart(mp) + 1 <= DaysInMonth(year, month)
  {
    MarchMonthLengths();
    hide IsLeapYear, MarchMonthStart;
  }

  lemma EraDayRange(c: int, q: int, r: int, doy: int)
    requires EraDay(c, q, r, doy)
    ensures 0 <= 36524 * c + 1461 * q + 365 * r + doy < 146097
  {
  }

  /** What days_to_ymd computes, in terms of the parts of the era. */
  lemma DaysToYmdParts(days: int, era: int, c: int, q: int, r: int, doy: int)
    requires EraDay(c, q, r, doy)
    requires days + 719468 == era * 146097 + 36524 * c + 1461 * q + 365 * r + doy
    ensures DaysToYmd(days) == MonthAndDay(era * 400 + 100 * c + 4 * q + r, doy)
  {
    hide MonthAndDay, YearOfEraDay, EraYearStart, TruncDiv, TruncMod;
    var z := days + 719468;
    EraDayRange(c, q, r, doy);
    FloorUnique(z, 146097, era, 36524 * c + 1461 * q + 365 * r + doy);
    TruncFixupsAreFloor(z, 146097);
    YearOfEra(c, q, r, doy);
    YearStartOfEra(c, q, r);
  }

  lemma MonthAndDayParts(era: int, c: int, q: int, r: int, doy: int)
    requires EraDay(c, q, r, doy)
    ensures var date := MonthAndDay(era * 400 + 100 * c + 4 * q + r, doy);
      && ValidCivil(date)
      && YmdToDays(date) == era * 146097 + 36524 * c + 1461 * q + 365 * r + doy - 719468
  {
    var date := MonthAndDay(era * 400 + 100 * c + 4 * q + r, doy);
    var mp := (5 * doy + 2) / 153;
    MonthOfDay(doy);
    if doy == 365 {
      LastDayIsLeap(era, c, q, r);
    }
    hide YmdToDays, IsLeapYear, DaysInMonth;
    MonthLengthBound(doy, mp, date.year, date.month);
    RoundTripValue(era, 100 * c + 4 * q + r, doy, date);
    YearStartOfEra(c, q, r);
  }

  /** Every epoch day, negative ones included, is the number of exactly the date it converts to. */
  lemma DaysRoundTrip(days: int)
    ensures ValidCivil(DaysToYmd(days)) && YmdToDays(DaysToYmd(days)) == days
  {
    hide *;
    var era := (days + 719468) / 146097;
    var c, q, r, doy := SplitEraDay(days + 719468 - era * 146097);
    DaysToYmdParts(days, era, c, q, r, doy);
    MonthAndDayParts(era, c, q, r, doy);
  }

  lemma RoundTripValue(era: int, yoe: int, doy: int, date: Civil)
    requires 0 <= yoe < 400 && MarchYear(date) == era * 400 + yoe
    requires date.day == doy - MarchMonthStart(MarchMonth(date)) + 1
    ensures YmdToDays(date) == era * 146097 + EraYearStart(yoe) + doy - 719468
  {
    ClosedForm(date);
    FloorUnique(era * 400 + yoe, 400, era, yoe);
    EraSplit(era * 400 + yoe);
  }

  // ---------- Order isomorphism ----------

  /** Calendar month of an epoch day. */
  function MonthOf(days: int): int {
    MonthIndex(DaysToYmd(days))
  }

  /** Day of the month of an epoch day. */
  function DayOf(days: int): int {
    DaysToYmd(days).day
  }

  lemma {:induction false} MonthFirstOrder(s: int, t: int)
    requires s < t
    ensures MonthFirst(s) + MonthLength(s) <= MonthFirst(t)
    decreases t - s
  {
    hide *;
    MonthFirstStep(s);
    if s + 1 < t {
      MonthFirstStep(s + 1);
      MonthFirstOrder(s + 1, t);
    }
  }

  /** A valid date is a day of its month, counted from the first. */
  lemma CivilParts(c: Civil)
    requires ValidCivil(c)
    ensures 1 <= c.day <= MonthLength(MonthIndex(c))
    ensures YmdToDays(c) == MonthFirst(MonthIndex(c)) + c.day - 1
  {
    FloorUnique(MonthIndex(c), 12, c.year, c.month - 1);
    ClosedForm(c);
    ClosedForm(Civil(c.year, c.month, 1));
    hide YmdToDays, DaysInMonth, MarchMonthStart, MarchYearStart;
  }

  lemma PartsRepresent(days: int)
    ensures 1 <= DayOf(days) <= MonthLength(MonthOf(days))
    ensures days == MonthFirst(MonthOf(days)) + DayOf(days) - 1
  {
    hide DaysToYmd, YmdToDays, DaysInMonth, MonthLength, MonthFirst;
    DaysRoundTrip(days);
    CivilParts(DaysToYmd(days));
  }

  lemma PartsUnique(days: int, t: int, d: int)
    requires 1 <= d <= MonthLength(t) && days == MonthFirst(t) + d - 1
    ensures MonthOf(days) == t && DayOf(days) == d
  {
    hide *;
    PartsRepresent(days);
    var t' := MonthOf(days);
    if t < t' {
      MonthFirstOrder(t, t');
    } else if t' < t {
      MonthFirstOrder(t', t);
    }
  }

  /** Epoch days are ordered as (month, day of month) pairs. */
  lemma PartsOrder(a: int, b: int)
    ensures a < b <==> MonthOf(a) < MonthOf(b) || (MonthOf(a) == MonthOf(b) && DayOf(a) < DayOf(b))
    ensures a == b <==> MonthOf(a) == MonthOf(b) && DayOf(a) == DayOf(b)
  {
    hide *;
    PartsRepresent(a);
    PartsRepresent(b);
    if MonthOf(a) < MonthOf(b) {
      MonthFirstOrder(MonthOf(a), MonthOf(b));
    } else if MonthOf(b) < MonthOf(a) {
      MonthFirstOrder(MonthOf(b), MonthOf(a));
    }
  }

  lemma MonthIndexInjective(a: Civil, b: Civil)
    requires 1 <= a.month <= 12 && 1 <= b.month <= 12
    ensures MonthIndex(a) < MonthIndex(b)
            <==> a.year < b.year || (a.year == b.year && a.month < b.month)
    ensures MonthIndex(a) == MonthIndex(b) <==> a.year == b.year && a.month == b.month
  {
  }

  /** Every date of the calendar is recovered from its day number. */
  lemma CivilRoundTrip(c: Civil)
    requires ValidCivil(c)
    ensures DaysToYmd(YmdToDays(c)) == c
  {
    hide DaysToYmd, YmdToDays, DaysInMonth, MonthLength, MonthFirst;
    CivilParts(c);
    PartsUnique(YmdToDays(c), MonthIndex(c), c.day);
    DaysRoundTrip(YmdToDays(c));
    MonthIndexInjective(c, DaysToYmd(YmdToDays(c)));
  }

  /** The conversions preserve and reflect chronological order. */
  lemma OrderIsomorphism(a: Civil, b: Civil)
    requires ValidCivil(a) && ValidCivil(b)
    ensures Earlier(a, b) <==> YmdToDays(a) < YmdToDays(b)
  {
    hide DaysToYmd, YmdToDays, DaysInMonth;
    CivilRoundTrip(a);
    CivilRoundTrip(b);
    PartsOrder(YmdToDays(a), YmdToDays(b));
    MonthIndexInjective(a, b);
  }

  /** Adding one to an epoch day moves to the next date of the calendar. */
  lemma NextDay(days: int)
    ensures ValidCivil(DaysToYmd(days))
    ensures DaysToYmd(days + 1) == NextCivil(DaysToYmd(days))
  {
    hide DaysToYmd, YmdToDays, IsLeapYear;
    var c := DaysToYmd(days);
    DaysRoundTrip(days);
    NextCivilNumber(c);
    CivilRoundTrip(NextCivil(c));
  }

  lemma NextCivilNumber(c: Civil)
    requires ValidCivil(c)
    ensures ValidCivil(NextCivil(c)) && YmdToDays(NextCivil(c)) == YmdToDays(c) + 1
  {
    hide YmdToDays, IsLeapYear, MonthLength, MonthFirst;
    CivilParts(c);
    CivilParts(NextCivil(c));
    MonthFirstStep(MonthIndex(c));
    FloorUnique(MonthIndex(c), 12, c.year, c.month - 1);
    MonthLengthIs(c);
  }

  lemma MonthLengthIs(c: Civil)
    requires 1 <= c.month <= 12
    ensures MonthLength(MonthIndex(c)) == DaysInMonth(c.year, c.month)
  {
    hide DaysInMonth;
    FloorUnique(MonthIndex(c), 12, c.year, c.month - 1);
  }

  // ---------- Month arithmetic ----------

  function Min(a: int, b: int): int {
    if a < b then a else b
  }

  lemma AddMonthsValue(days: int, months: int)
    ensures var total := MonthOf(days) + months;
      AddMonths(days, months)
      == YmdToDays(Civil(total / 12, total % 12 + 1, Min(DayOf(days), MonthLength(total))))
  {
    NormalizedMonth(MonthOf(days) + months);
    hide DaysToYmd, YmdToDays, DaysInMonth, YearOfTotal, MonthOfTotal;
  }

  lemma NormalizedMonth(total: int)
    ensures YearOfTotal(total) == total / 12 && MonthOfTotal(total) == total % 12 + 1
  {
    TruncFixupsAreFloor(total, 12);
    hide TruncDiv;
  }

  /** add_months moves exactly `months` calendar months and clamps the day to the new month. */
  lemma AddMonthsParts(days: int, months: int)
    ensures MonthOf(AddMonths(days, months)) == MonthOf(days) + months
    ensures DayOf(AddMonths(days, months)) == Min(DayOf(days), MonthLength(MonthOf(days) + months))
  {
    hide DaysToYmd, YmdToDays, DaysInMonth, AddMonths, MonthFirst, MonthOf, DayOf;
    var total := MonthOf(days) + months;
    var r := Civil(total / 12, total % 12 + 1, Min(DayOf(days), MonthLength(total)));
    AddMonthsValue(days, months);
    PartsRepresent(days);
    MonthFirstStep(total);
    CivilParts(r);
    PartsUnique(YmdToDays(r), total, r.day);
  }

  lemma AddMonthsStrictInMonths(days: int, j: int, k: int)
    requires j < k
    ensures AddMonths(days, j) < AddMonths(days, k)
  {
    hide *;
    AddMonthsParts(days, j);
    AddMonthsParts(days, k);
    PartsOrder(AddMonths(days, j), AddMonths(days, k));
  }

  /** Monotone in the date; two dates meet only when both are clamped to the same month end. */
  lemma AddMonthsMonotoneInDate(a: int, b: int, months: int)
    requires a < b
    ensures AddMonths(a, months) <= AddMonths(b, months)
    ensures AddMonths(a, months) == AddMonths(b, months)
            <==> MonthOf(a) == MonthOf(b) && DayOf(a) >= MonthLength(MonthOf(b) + months)
  {
    hide MonthOf, DayOf, AddMonths, MonthLength;
    PartsOrder(a, b);
    AddMonthsParts(a, months);
    AddMonthsParts(b, months);
    PartsOrder(AddMonths(a, months), AddMonths(b, months));
    PartsOrder(AddMonths(b, months), AddMonths(a, months));
  }

  /** Two moves never pass the single move, and lag it exactly when the stop-over clamps harder. */
  lemma AddMonthsSubAdditive(days: int, j: int, k: int)
    ensures AddMonths(AddMonths(days, j), k) <= AddMonths(days, j + k)
    ensures AddMonths(AddMonths(days, j), k) == AddMonths(days, j + k)
            <==> var stop := MonthLength(MonthOf(days) + j);
                 DayOf(days) <= stop || MonthLength(MonthOf(days) + j + k) <= stop
  {
    hide MonthOf, DayOf, AddMonths, MonthLength;
    var a, b := AddMonths(AddMonths(days, j), k), AddMonths(days, j + k);
    AddMonthsParts(days, j);
    AddMonthsParts(AddMonths(days, j), k);
    AddMonthsParts(days, j + k);
    PartsOrder(a, b);
    PartsOrder(b, a);
  }

  /** Up to day 28 no month clamps, so moves compose exactly and every move can be undone. */
  lemma AddMonthsExactUpTo28(days: int, j: int, k: int)
    requires DayOf(days) <= 28
    ensures AddMonths(AddMonths(days, j), k) == AddMonths(days, j + k)
    ensures AddMonths(AddMonths(days, j), -j) == days
  {
    hide MonthOf, DayOf, AddMonths, MonthLength;
    MonthFirstStep(MonthOf(days) + j);
    AddMonthsSubAdditive(days, j, k);
    AddMonthsSubAdditive(days, j, -j);
    AddMonthsZero(days);
  }

  lemma AddMonthsZero(days: int)
    ensures AddMonths(days, 0) == days
  {
    hide MonthOf, DayOf, AddMonths, MonthLength, MonthFirst;
    AddMonthsParts(days, 0);
    PartsRepresent(days);
    PartsOrder(AddMonths(days, 0), days);
  }
}
