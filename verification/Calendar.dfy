/**
 The civil calendar behind the monthly and yearly retention buckets
 (crates/fileferry-policy/src/lib.rs, `civil_from_days`).

 The program computes a date with a handful of divisions.  The reference
 here is the Gregorian calendar itself: leap years, month lengths, and the
 rule that says which date follows which.
 */
module Calendar {

  datatype Date = Date(year: int, month: int, day: int)

  // ---------- The reference calendar ----------

  predicate IsLeap(year: int) {
    year % 4 == 0 && (year % 100 != 0 || year % 400 == 0)
  }

  function DaysInYear(year: int): int {
    if IsLeap(year) then 366 else 365
  }

  function DaysInMonth(year: int, month: int): int {
    if month == 2 then (if IsLeap(year) then 29 else 28)
    else if month == 4 || month == 6 || month == 9 || month == 11 then 30
    else 31
  }

  predicate ValidDate(d: Date) {
    1 <= d.month <= 12 && 1 <= d.day <= DaysInMonth(d.year, d.month)
  }

  function NextDate(d: Date): Date {
    if d.day < DaysInMonth(d.year, d.month) then Date(d.year, d.month, d.day + 1)
    else if d.month < 12 then Date(d.year, d.month + 1, 1)
    else Date(d.year + 1, 1, 1)
  }

  /** Days from 1970-01-01 to January 1st of `year`, one year at a time. */
  function YearStart(year: int): int
    decreases if year >= 1970 then year - 1970 else 1970 - year
  {
    if year == 1970 then 0
    else if year > 1970 then YearStart(year - 1) + DaysInYear(year - 1)
    else YearStart(year + 1) - DaysInYear(year)
  }

  function MonthStart(year: int, month: int): int
    requires 1 <= month <= 12
  {
    if month == 1 then 0 else MonthStart(year, month - 1) + DaysInMonth(year, month - 1)
  }

  function DaysFromCivil(d: Date): int
    requires ValidDate(d)
  {
    YearStart(d.year) + MonthStart(d.year, d.month) + d.day - 1
  }

  // ---------- The program's arithmetic ----------

  /** Rust's integer division, which truncates toward zero. */
  function TruncDiv(a: int, b: int): int
    requires b > 0
  {
    if a >= 0 then a / b else -((-a) / b)
  }

  /** The `as i32` cast. */
  function AsI32(x: int): int {
    (x + 0x8000_0000) % 0x1_0000_0000 - 0x8000_0000
  }

  function YearOfEra(dayOfEra: int): int {
    (dayOfEra - dayOfEra / 1460 + dayOfEra / 36524 - dayOfEra / 146096) / 365
  }

  function EraOf(z: int): int {
    TruncDiv(if z >= 0 then z else z - 146096, 146097)
  }

  function DayOfYear(dayOfEra: int): int {
    var yearOfEra := YearOfEra(dayOfEra);
    dayOfEra - (365 * yearOfEra + yearOfEra / 4 - yearOfEra / 100)
  }

  /** The date from the era, the March-based year in it and the day in that year. */
  function DateInYear(era: int, yearOfEra: int, dayOfYear: int): Date {
    var monthParam := (5 * dayOfYear + 2) / 153;
    var day := dayOfYear - (153 * monthParam + 2) / 5 + 1;
    var month := monthParam + (if monthParam < 10 then 3 else -9);
    Date(yearOfEra + era * 400 + (if month <= 2 then 1 else 0), month, day)
  }

  /** `civil_from_days` before its result is cast to (i32, u32, u32). */
  function WideCivilFromDays(days: int): Date {
    var z := days + 719468;
    var era := EraOf(z);
    var dayOfEra := z - era * 146097;
    DateInYear(era, YearOfEra(dayOfEra), DayOfYear(dayOfEra))
  }

  function CivilFromDays(days: int): Date {
    var d := WideCivilFromDays(days);
    Date(AsI32(d.year), d.month, d.day)
  }

  function CivilFromUnixSeconds(seconds: nat): Date {
    CivilFromDays(seconds / 86400)
  }

  // ---------- Years of an era, counted from March ----------

  /** First day of the March-based year `y` within its 400-year era. */
  function EraYearStart(y: int): int {
    365 * y + y / 4 - y / 100
  }

  /** The March-based year `y` ends with the leap day of civil year `y + 1`. */
  function EraYearLength(y: int): int {
    DaysInYear(y + 1)
  }

  /** Position of a day: era, March-based year in the era, day in that year. */
  predicate InEra(y: int, dayOfYear: int) {
    0 <= y < 400 && 0 <= dayOfYear < EraYearLength(y)
  }

  lemma YearOfEraSplit(c: int, q: int, r: int, dayOfYear: int)
    requires 0 <= c < 4 && 0 <= q < 25 && 0 <= r < 4
    requires InEra(100 * c + 4 * q + r, dayOfYear)
    ensures YearOfEra(EraYearStart(100 * c + 4 * q + r) + dayOfYear) == 100 * c + 4 * q + r
  {
    hide InEra, EraYearStart, YearOfEra;
    LeapDayEndsFourYears(c, q, r, dayOfYear);
    EraYearStartParts(c, q, r);
    YearOfParts(c, q, r, dayOfYear);
  }

  lemma EraYearStartParts(c: int, q: int, r: int)
    requires 0 <= c < 4 && 0 <= q < 25 && 0 <= r < 4
    ensures EraYearStart(100 * c + 4 * q + r) == 36524 * c + 1461 * q + 365 * r
  {
    var y := 100 * c + 4 * q + r;
    assert y / 4 == 25 * c + q && y / 100 == c;
  }

  lemma YearOfParts(c: int, q: int, r: int, dayOfYear: int)
    requires 0 <= c < 4 && 0 <= q < 25 && 0 <= r < 4 && 0 <= dayOfYear <= 365
    requires dayOfYear == 365 ==> r == 3 && (q < 24 || c == 3)
    ensures YearOfEra(36524 * c + 1461 * q + 365 * r + dayOfYear) == 100 * c + 4 * q + r
  {
    hide YearOfEra;
    var e, n, rest := 36524 * c + 1461 * q + 365 * r + dayOfYear, 25 * c + q, 24 * c + q + 365 * r + dayOfYear;
    FourYearsBefore(n, rest);
    CenturiesBefore(c, 1461 * q + 365 * r + dayOfYear);
    LeapDaysDropOut(c, q, r, dayOfYear, e / 1460, e / 36524, e / 146096);
    YearFromQuotients(e, e / 1460, e / 36524, e / 146096, 100 * c + 4 * q + r);
  }

  lemma LeapDaysDropOut(c: int, q: int, r: int, dayOfYear: int, fours: int, centuries: int, eras: int)
    requires 0 <= c < 4 && 0 <= q < 25 && 0 <= r < 4 && 0 <= dayOfYear <= 365
    requires dayOfYear == 365 ==> r == 3 && (q < 24 || c == 3)
    requires var e := 36524 * c + 1461 * q + 365 * r + dayOfYear;
             && fours == 25 * c + q + (if 24 * c + q + 365 * r + dayOfYear >= 1460 then 1 else 0)
             && centuries == (if e == 146096 then 4 else c) && eras == if e == 146096 then 1 else 0
    ensures var y, e := 100 * c + 4 * q + r, 36524 * c + 1461 * q + 365 * r + dayOfYear;
            365 * y <= e - fours + centuries - eras < 365 * y + 365
  {
  }

  lemma CenturiesBefore(c: int, rest: int)
    requires 0 <= c < 4 && 0 <= rest < (if c == 3 then 36525 else 36524)
    ensures var e := 36524 * c + rest;
            e / 36524 == (if e == 146096 then 4 else c) && e / 146096 == if e == 146096 then 1 else 0
  {
  }

  lemma YearFromQuotients(e: int, fours: int, centuries: int, eras: int, y: int)
    requires e / 1460 == fours && e / 36524 == centuries && e / 146096 == eras
    requires 365 * y <= e - fours + centuries - eras < 365 * y + 365
    ensures YearOfEra(e) == y
  {
  }

  /** A year of 366 days is the last of its four, and not the last of its century but in the last one. */
  lemma LeapDayEndsFourYears(c: int, q: int, r: int, dayOfYear: int)
    requires 0 <= c < 4 && 0 <= q < 25 && 0 <= r < 4
    requires InEra(100 * c + 4 * q + r, dayOfYear)
    ensures 0 <= dayOfYear <= 365
    ensures dayOfYear == 365 ==> r == 3 && (q < 24 || c == 3)
  {
  }

  lemma FourYearsBefore(n: int, rest: int)
    requires 0 <= rest < 2920
    ensures (1460 * n + rest) / 1460 == if rest >= 1460 then n + 1 else n
  {
  }

  lemma YearOfEraIsExact(y: int, dayOfYear: int)
    requires InEra(y, dayOfYear)
    ensures YearOfEra(EraYearStart(y) + dayOfYear) == y
  {
    hide YearOfEra;
    assert y == 100 * (y / 100) + 4 * (y % 100 / 4) + y % 4;
    YearOfEraSplit(y / 100, y % 100 / 4, y % 4, dayOfYear);
  }

  lemma EraYearsAbut(y: int)
    requires 0 <= y < 400
    ensures EraYearStart(y) + EraYearLength(y) == if y == 399 then 146097 else EraYearStart(y + 1)
  {
    FoursAndCenturiesAbut(y);
  }

  lemma FoursAndCenturiesAbut(y: int)
    ensures (y + 1) / 4 == y / 4 + if (y + 1) % 4 == 0 then 1 else 0
    ensures (y + 1) / 100 == y / 100 + if (y + 1) % 100 == 0 then 1 else 0
    ensures (y + 1) % 100 == 0 ==> (y + 1) % 4 == 0
  {
  }

  /** Every day of an era lies in exactly one of its years. */
  lemma FindEraYear(dayOfEra: int, upTo: int) returns (y: int, dayOfYear: int)
    requires 0 <= upTo < 400
    requires 0 <= dayOfEra < EraYearStart(upTo) + EraYearLength(upTo)
    ensures InEra(y, dayOfYear) && dayOfEra == EraYearStart(y) + dayOfYear
    decreases upTo
  {
    if EraYearStart(upTo) <= dayOfEra {
      y, dayOfYear := upTo, dayOfEra - EraYearStart(upTo);
    } else {
      EraYearsAbut(upTo - 1);
      y, dayOfYear := FindEraYear(dayOfEra, upTo - 1);
    }
  }

  function DayNumber(era: int, y: int, dayOfYear: int): int {
    era * 146097 + EraYearStart(y) + dayOfYear - 719468
  }

  lemma EraBounds(y: int, dayOfYear: int)
    requires InEra(y, dayOfYear)
    ensures 0 <= EraYearStart(y) + dayOfYear < 146097
  {
    EraYearsAbut(y);
  }

  lemma EraOfIsFloor(era: int, dayOfEra: int)
    requires 0 <= dayOfEra < 146097
    ensures EraOf(era * 146097 + dayOfEra) == era
  {
  }

  lemma CivilOfEraDay(era: int, dayOfEra: int)
    requires 0 <= dayOfEra < 146097
    ensures WideCivilFromDays(era * 146097 + dayOfEra - 719468)
            == DateInYear(era, YearOfEra(dayOfEra), DayOfYear(dayOfEra))
  {
    hide EraOf, YearOfEra, DayOfYear, DateInYear;
    EraOfIsFloor(era, dayOfEra);
  }

  lemma CivilOfPosition(era: int, y: int, dayOfYear: int)
    requires InEra(y, dayOfYear)
    ensures WideCivilFromDays(DayNumber(era, y, dayOfYear)) == DateInYear(era, y, dayOfYear)
  {
    hide YearOfEra, DayOfYear, EraOf, DateInYear, WideCivilFromDays;
    var e := EraYearStart(y) + dayOfYear;
    EraBounds(y, dayOfYear);
    CivilOfEraDay(era, e);
    YearOfEraIsExact(y, dayOfYear);
    DayOfYearOf(e, y);
  }

  lemma DayOfYearOf(dayOfEra: int, y: int)
    requires YearOfEra(dayOfEra) == y
    ensures DayOfYear(dayOfEra) == dayOfEra - EraYearStart(y)
  {
  }

  lemma FindPosition(days: int) returns (era: int, y: int, dayOfYear: int)
    ensures InEra(y, dayOfYear) && days == DayNumber(era, y, dayOfYear)
  {
    var z := days + 719468;
    era := z / 146097;
    EraYearsAbut(399);
    y, dayOfYear := FindEraYear(z % 146097, 399);
  }

  lemma {:induction false} LeapIsPeriodic(era: int, year: int)
    ensures IsLeap(year + 400 * era) == IsLeap(year)
    decreases if era >= 0 then era else -era
  {
    hide IsLeap;
    if era > 0 {
      LeapIsPeriodic(era - 1, year);
      LeapAfterOneEra(year + 400 * (era - 1));
    } else if era < 0 {
      LeapIsPeriodic(era + 1, year);
      LeapAfterOneEra(year + 400 * era);
    }
  }

  lemma LeapAfterOneEra(year: int)
    ensures IsLeap(year + 400) == IsLeap(year)
  {
  }

  lemma DateInYearSteps(era: int, y: int, dayOfYear: int)
    requires InEra(y, dayOfYear)
    ensures ValidDate(DateInYear(era, y, dayOfYear))
    ensures dayOfYear + 1 < EraYearLength(y) ==>
              DateInYear(era, y, dayOfYear + 1) == NextDate(DateInYear(era, y, dayOfYear))
    ensures dayOfYear + 1 == EraYearLength(y) && y < 399 ==>
              DateInYear(era, y + 1, 0) == NextDate(DateInYear(era, y, dayOfYear))
    ensures dayOfYear + 1 == EraYearLength(y) && y == 399 ==>
              DateInYear(era + 1, 0, 0) == NextDate(DateInYear(era, y, dayOfYear))
  {
    hide DateInYear, NextDate, ValidDate;
    DateIsValid(era, y, dayOfYear);
    if dayOfYear + 1 < EraYearLength(y) {
      NextDayOfYear(era, y, dayOfYear);
    } else {
      NextEraYear(era, y);
    }
  }

  lemma DateIsValid(era: int, y: int, dayOfYear: int)
    requires InEra(y, dayOfYear)
    ensures ValidDate(DateInYear(era, y, dayOfYear))
  {
    hide IsLeap;
    LeapIsPeriodic(era, y);
    LeapIsPeriodic(era, y + 1);
  }

  lemma NextDayOfYear(era: int, y: int, dayOfYear: int)
    requires InEra(y, dayOfYear) && dayOfYear + 1 < EraYearLength(y)
    ensures DateInYear(era, y, dayOfYear + 1) == NextDate(DateInYear(era, y, dayOfYear))
  {
    hide IsLeap;
    LeapIsPeriodic(era, y + 1);
    var m := MonthFromMarch(dayOfYear);
    MonthOfDay(dayOfYear);
    MonthOfDay(dayOfYear + 1);
    if dayOfYear + 1 < MonthFirstDay(m + 1) {
      assert MonthFromMarch(dayOfYear + 1) == m by { MonthIsUnique(dayOfYear + 1, m); }
    } else {
      assert MonthFromMarch(dayOfYear + 1) == m + 1 by { MonthIsUnique(dayOfYear + 1, m + 1); }
    }
    if m < 11 {
      MonthLength(y + 400 * era, m);
    }
  }

  // Months counted from March, as the program counts them.

  function MonthFromMarch(dayOfYear: int): int {
    (5 * dayOfYear + 2) / 153
  }

  function MonthFirstDay(m: int): int {
    (153 * m + 2) / 5
  }

  lemma MonthOfDay(dayOfYear: int)
    requires 0 <= dayOfYear <= 365
    ensures 0 <= MonthFromMarch(dayOfYear) <= 11
    ensures MonthFirstDay(MonthFromMarch(dayOfYear)) <= dayOfYear < MonthFirstDay(MonthFromMarch(dayOfYear) + 1)
  {
  }

  lemma MonthIsUnique(dayOfYear: int, m: int)
    requires 0 <= dayOfYear <= 365 && MonthFirstDay(m) <= dayOfYear < MonthFirstDay(m + 1)
    ensures MonthFromMarch(dayOfYear) == m
  {
  }

  lemma MonthLength(year: int, m: int)
    requires 0 <= m < 11
    ensures MonthFirstDay(m + 1) - MonthFirstDay(m) == DaysInMonth(year, if m < 10 then m + 3 else m - 9)
  {
  }

  /** The last day of a March-based year is the last of February. */
  lemma NextEraYear(era: int, y: int)
    requires 0 <= y < 400
    ensures NextDate(DateInYear(era, y, EraYearLength(y) - 1))
            == if y < 399 then DateInYear(era, y + 1, 0) else DateInYear(era + 1, 0, 0)
  {
    hide IsLeap;
    LeapIsPeriodic(era, y + 1);
  }

  // ---------- What the program's dates are ----------

  lemma EpochDate()
    ensures WideCivilFromDays(0) == Date(1970, 1, 1)
  {
    hide WideCivilFromDays;
    CivilOfPosition(4, 369, 306);
    assert DayNumber(4, 369, 306) == 0;
  }

  /** The position of the following day, and its date. */
  lemma NextPosition(era: int, y: int, dayOfYear: int) returns (era': int, y': int, dayOfYear': int)
    requires InEra(y, dayOfYear)
    ensures InEra(y', dayOfYear')
    ensures DayNumber(era', y', dayOfYear') == DayNumber(era, y, dayOfYear) + 1
    ensures DateInYear(era', y', dayOfYear') == NextDate(DateInYear(era, y, dayOfYear))
  {
    DateInYearSteps(era, y, dayOfYear);
    EraYearsAbut(y);
    era', y', dayOfYear' :=
      if dayOfYear + 1 < EraYearLength(y) then era else if y < 399 then era else era + 1,
      if dayOfYear + 1 < EraYearLength(y) then y else if y < 399 then y + 1 else 0,
      if dayOfYear + 1 < EraYearLength(y) then dayOfYear + 1 else 0;
  }

  lemma DateOfDay(days: int) returns (era: int, y: int, dayOfYear: int)
    ensures InEra(y, dayOfYear) && days == DayNumber(era, y, dayOfYear)
    ensures WideCivilFromDays(days) == DateInYear(era, y, dayOfYear)
  {
    era, y, dayOfYear := FindPosition(days);
    CivilOfPosition(era, y, dayOfYear);
  }

  /** Every day has a valid date, and the next day has the next date. */
  lemma DaysAndDatesAdvanceTogether(days: int)
    ensures ValidDate(WideCivilFromDays(days))
    ensures WideCivilFromDays(days + 1) == NextDate(WideCivilFromDays(days))
  {
    hide DateInYear, WideCivilFromDays;
    var era, y, d := DateOfDay(days);
    DateInYearSteps(era, y, d);
    var era', y', d' := NextPosition(era, y, d);
    CivilOfPosition(era', y', d');
  }

  lemma NextDateAddsOneDay(d: Date)
    requires ValidDate(d)
    ensures ValidDate(NextDate(d))
    ensures DaysFromCivil(NextDate(d)) == DaysFromCivil(d) + 1
  {
    MonthsFillTheYear(d.year);
    assert YearStart(d.year + 1) == YearStart(d.year) + DaysInYear(d.year);
  }

  lemma {:induction false} MonthsFillTheYear(year: int)
    ensures MonthStart(year, 12) + DaysInMonth(year, 12) == DaysInYear(year)
  {
    assert MonthStart(year, 1) == 0;
    assert MonthStart(year, 2) == 31;
    assert MonthStart(year, 3) == 31 + DaysInMonth(year, 2);
    assert MonthStart(year, 4) == MonthStart(year, 3) + 31;
    assert MonthStart(year, 5) == MonthStart(year, 4) + 30;
    assert MonthStart(year, 6) == MonthStart(year, 5) + 31;
    assert MonthStart(year, 7) == MonthStart(year, 6) + 30;
    assert MonthStart(year, 8) == MonthStart(year, 7) + 31;
    assert MonthStart(year, 9) == MonthStart(year, 8) + 31;
    assert MonthStart(year, 10) == MonthStart(year, 9) + 30;
    assert MonthStart(year, 11) == MonthStart(year, 10) + 31;
  }

  /** `dates` is the calendar: it starts at the epoch and advances date by date. */
  ghost predicate IsCalendar(dates: int -> Date) {
    dates(0) == Date(1970, 1, 1) && forall n :: AdvancesAt(dates, n)
  }

  ghost predicate AdvancesAt(dates: int -> Date, n: int) {
    ValidDate(dates(n)) && dates(n + 1) == NextDate(dates(n))
  }

  /** A calendar is determined by the reference: the n-th date is n days from the epoch. */
  lemma {:induction false} CalendarCounts(dates: int -> Date, n: int)
    requires IsCalendar(dates)
    ensures ValidDate(dates(n)) && DaysFromCivil(dates(n)) == n
    decreases if n >= 0 then n else -n
  {
    assert AdvancesAt(dates, n);
    if n > 0 {
      CalendarCounts(dates, n - 1);
      assert AdvancesAt(dates, n - 1);
      NextDateAddsOneDay(dates(n - 1));
    } else if n < 0 {
      CalendarCounts(dates, n + 1);
      NextDateAddsOneDay(dates(n));
    }
  }

  lemma CivilIsCalendar()
    ensures IsCalendar(WideCivilFromDays)
  {
    EpochDate();
    forall n ensures AdvancesAt(WideCivilFromDays, n) {
      DaysAndDatesAdvanceTogether(n);
    }
  }

  /** Counting days on the calendar inverts the program's arithmetic. */
  lemma CivilRoundTrip(days: int)
    ensures ValidDate(WideCivilFromDays(days))
    ensures DaysFromCivil(WideCivilFromDays(days)) == days
  {
    CivilIsCalendar();
    CalendarCounts(WideCivilFromDays, days);
  }

  predicate Before(a: Date, b: Date) {
    a.year < b.year || (a.year == b.year && (a.month < b.month || (a.month == b.month && a.day < b.day)))
  }

  lemma {:induction false} EarlierDatesHaveFewerDays(a: Date, b: Date)
    requires ValidDate(a) && ValidDate(b) && Before(a, b)
    ensures DaysFromCivil(a) < DaysFromCivil(b)
    decreases b.year - a.year, 12 - a.month, 31 - a.day
  {
    NextDateAddsOneDay(a);
    var n := NextDate(a);
    if n != b {
      EarlierDatesHaveFewerDays(n, b);
    }
  }

  /** Every calendar date is the date of exactly one day. */
  lemma DateRoundTrip(d: Date)
    requires ValidDate(d)
    ensures WideCivilFromDays(DaysFromCivil(d)) == d
  {
    var e := WideCivilFromDays(DaysFromCivil(d));
    CivilRoundTrip(DaysFromCivil(d));
    SameDaysSameDate(d, e);
  }

  lemma SameDaysSameDate(d: Date, e: Date)
    requires ValidDate(d) && ValidDate(e) && DaysFromCivil(d) == DaysFromCivil(e)
    ensures d == e
  {
    if Before(d, e) {
      EarlierDatesHaveFewerDays(d, e);
    } else if Before(e, d) {
      EarlierDatesHaveFewerDays(e, d);
    }
  }

  lemma LaterDaysHaveLaterDates(a: int, b: int)
    requires a < b
    ensures Before(WideCivilFromDays(a), WideCivilFromDays(b))
  {
    CivilRoundTrip(a);
    CivilRoundTrip(b);
    FewerDaysEarlierDate(WideCivilFromDays(a), WideCivilFromDays(b));
  }

  lemma FewerDaysEarlierDate(d: Date, e: Date)
    requires ValidDate(d) && ValidDate(e) && DaysFromCivil(d) < DaysFromCivil(e)
    ensures Before(d, e)
  {
    if d != e && !Before(d, e) {
      EarlierDatesHaveFewerDays(e, d);
    }
  }

  // ---------- Dates of snapshot times, and the buckets made from them ----------

  /** 2147483648-01-01, the first second whose year does not fit an i32. */
  const YEAR_OVERFLOW_SECONDS: nat := 67_767_976_233_532_800

  lemma FirstOverflowingDay()
    ensures YEAR_OVERFLOW_SECONDS == 784_351_576_777 * 86400
    ensures WideCivilFromDays(784_351_576_777) == Date(0x8000_0000, 1, 1)
  {
    hide WideCivilFromDays;
    CivilOfPosition(5_368_709, 47, 306);
    assert DayNumber(5_368_709, 47, 306) == 784_351_576_777;
  }

  lemma YearBounds(days: int)
    requires 0 <= days
    ensures WideCivilFromDays(days).year >= 1970
    ensures WideCivilFromDays(days).year < 0x8000_0000 <==> days < 784_351_576_777
  {
    hide WideCivilFromDays, CivilFromDays, DaysFromCivil;
    EpochDate();
    FirstOverflowingDay();
    if days > 0 {
      LaterDaysHaveLaterDates(0, days);
    }
    if days < 784_351_576_777 {
      LaterDaysHaveLaterDates(days, 784_351_576_777);
      CivilRoundTrip(days);
    } else if days > 784_351_576_777 {
      LaterDaysHaveLaterDates(784_351_576_777, days);
    }
  }

  lemma AsI32Fits(x: int)
    ensures AsI32(x) == x <==> -0x8000_0000 <= x < 0x8000_0000
  {
  }

  /** The casts lose nothing exactly up to the end of the year 2147483647. */
  lemma CastIsExact(seconds: nat)
    ensures CivilFromUnixSeconds(seconds) == WideCivilFromDays(seconds / 86400)
            <==> seconds < YEAR_OVERFLOW_SECONDS
  {
    var days := seconds / 86400;
    YearBounds(days);
    AsI32Fits(WideCivilFromDays(days).year);
  }

  function MonthBucket(seconds: nat): int {
    var d := CivilFromUnixSeconds(seconds);
    d.year * 12 + d.month
  }

  function YearBucket(seconds: nat): int {
    CivilFromUnixSeconds(seconds).year
  }

  lemma BucketsOf(seconds: nat)
    requires seconds < YEAR_OVERFLOW_SECONDS
    ensures var d := WideCivilFromDays(seconds / 86400);
            ValidDate(d) && MonthBucket(seconds) == d.year * 12 + d.month && YearBucket(seconds) == d.year
  {
    CastIsExact(seconds);
    CivilRoundTrip(seconds / 86400);
  }

  lemma DatesInOrder(a: int, b: int)
    requires a <= b
    ensures WideCivilFromDays(a) == WideCivilFromDays(b) || Before(WideCivilFromDays(a), WideCivilFromDays(b))
  {
    if a < b {
      LaterDaysHaveLaterDates(a, b);
    }
  }

  /** Buckets never go back in time, and two times share one exactly when their dates say so. */
  lemma BucketsFollowTheCalendar(s: nat, t: nat)
    requires s <= t < YEAR_OVERFLOW_SECONDS
    ensures MonthBucket(s) <= MonthBucket(t) && YearBucket(s) <= YearBucket(t)
    ensures var d, e := WideCivilFromDays(s / 86400), WideCivilFromDays(t / 86400);
            && (MonthBucket(s) == MonthBucket(t) <==> d.year == e.year && d.month == e.month)
            && (YearBucket(s) == YearBucket(t) <==> d.year == e.year)
  {
    BucketsOf(s);
    BucketsOf(t);
    DatesInOrder(s / 86400, t / 86400);
    DatesOrderBuckets(WideCivilFromDays(s / 86400), WideCivilFromDays(t / 86400));
  }

  lemma DatesOrderBuckets(d: Date, e: Date)
    requires ValidDate(d) && ValidDate(e) && (d == e || Before(d, e))
    ensures d.year <= e.year && d.year * 12 + d.month <= e.year * 12 + e.month
    ensures d.year * 12 + d.month == e.year * 12 + e.month <==> d.year == e.year && d.month == e.month
  {
  }

  lemma LastDateBeforeOverflow()
    ensures WideCivilFromDays(784_351_576_776) == Date(0x7fff_ffff, 12, 31)
  {
    FirstOverflowingDay();
    DaysAndDatesAdvanceTogether(784_351_576_776);
    DateBeforeNewYear(WideCivilFromDays(784_351_576_776), 0x7fff_ffff);
  }

  lemma DateBeforeNewYear(d: Date, year: int)
    requires ValidDate(d) && NextDate(d) == Date(year + 1, 1, 1)
    ensures d == Date(year, 12, 31)
  {
  }

  lemma YearBucketOnDay(seconds: nat, days: int, date: Date)
    requires seconds / 86400 == days && WideCivilFromDays(days) == date
    ensures YearBucket(seconds) == AsI32(date.year)
  {
  }

  /** One second later, past the last year an i32 can hold, the buckets fall back. */
  lemma BucketsFallBackAtOverflow()
    ensures YearBucket(YEAR_OVERFLOW_SECONDS - 1) == 0x7fff_ffff
    ensures YearBucket(YEAR_OVERFLOW_SECONDS) == -0x8000_0000
  {
    hide WideCivilFromDays, YearBucket;
    LastDateBeforeOverflow();
    FirstOverflowingDay();
    YearBucketOnDay(YEAR_OVERFLOW_SECONDS - 1, 784_351_576_776, Date(0x7fff_ffff, 12, 31));
    YearBucketOnDay(YEAR_OVERFLOW_SECONDS, 784_351_576_777, Date(0x8000_0000, 1, 1));
  }
}
