/** The proleptic Gregorian calendar as pandas' datetime columns use it:
    day numbers counted from 1970-01-01, weekday names, month names, the
    ISO 8601 week number, and the bounds of a nanosecond Timestamp. */
module Calendar {

  import opened Common

  predicate IsLeapYear(y: int)
  {
    y % 4 == 0 && (y % 100 != 0 || y % 400 == 0)
  }

  function DaysInYear(y: int): int
  {
    if IsLeapYear(y) then 366 else 365
  }

  function DaysInMonth(y: int, m: int): int
    requires 1 <= m <= 12
  {
    if m == 2 then (if IsLeapYear(y) then 29 else 28)
    else if m == 4 || m == 6 || m == 9 || m == 11 then 30
    else 31
  }

  /** Days in the years 1 .. y-1 (Python's `_days_before_year`). */
  function DaysBeforeYear(y: int): int
  {
    var x := y - 1;
    365 * x + x / 4 - x / 100 + x / 400
  }

  /** Days in the months 1 .. m-1 of year y; m == 13 gives the whole year. */
  function DaysBeforeMonth(y: int, m: int): int
    requires 1 <= m <= 13
  {
    var common :=
      if m <= 6 then
        (if m == 1 then 0 else if m == 2 then 31 else if m == 3 then 59
         else if m == 4 then 90 else if m == 5 then 120 else 151)
      else
        (if m == 7 then 181 else if m == 8 then 212 else if m == 9 then 243
         else if m == 10 then 273 else if m == 11 then 304 else if m == 12 then 334 else 365);
    common + (if m > 2 && IsLeapYear(y) then 1 else 0)
  }

  datatype Date = Date(year: int, month: int, day: int)

  predicate ValidDate(d: Date)
  {
    1 <= d.month <= 12 && 1 <= d.day <= DaysInMonth(d.year, d.month)
  }

  /** DaysBeforeYear(1970): the day number of 1970-01-01 counted from 0001-01-01. */
  const EpochOffset: int := 719162

  /** 1-based position of a date within its year. */
  function DayOfYear(d: Date): int
    requires ValidDate(d)
  {
    DaysBeforeMonth(d.year, d.month) + d.day
  }

  /** Days from 1970-01-01 to `d` (negative before it). */
  function DaysFromCivil(d: Date): int
    requires ValidDate(d)
  {
    DaysBeforeYear(d.year) + DayOfYear(d) - 1 - EpochOffset
  }

  // ---------------------------------------------------------------------
  // Facts about the year and month tables

  lemma DaysBeforeYearBounds(y: int)
    ensures 146097 * (y - 1) - 800 < 400 * DaysBeforeYear(y) < 146097 * (y - 1) + 400
  {
    var x := y - 1;
    assert 4 * (x / 4) <= x < 4 * (x / 4) + 4;
    assert 100 * (x / 100) <= x < 100 * (x / 100) + 100;
    assert 400 * (x / 400) <= x < 400 * (x / 400) + 400;
  }

  lemma DaysBeforeYearMonotone(a: int, b: int)
    requires a <= b
    ensures DaysBeforeYear(a) <= DaysBeforeYear(b)
    ensures a < b ==> DaysBeforeYear(a) + 365 <= DaysBeforeYear(b)
  {
    DaysBeforeYearBounds(a);
    DaysBeforeYearBounds(b);
    if a < b {
      YearLength(a);
      if a + 1 < b {
        DaysBeforeYearBounds(a + 1);
      }
    }
  }

  lemma DivisionSteps(y: int)
    ensures y / 4 - (y - 1) / 4 == (if y % 4 == 0 then 1 else 0)
    ensures y / 100 - (y - 1) / 100 == (if y % 100 == 0 then 1 else 0)
    ensures y / 400 - (y - 1) / 400 == (if y % 400 == 0 then 1 else 0)
  {
  }

  lemma YearLength(y: int)
    ensures DaysBeforeYear(y + 1) == DaysBeforeYear(y) + DaysInYear(y)
  {
    DivisionSteps(y);
  }

  lemma MonthLength(y: int, m: int)
    requires 1 <= m <= 12
    ensures DaysBeforeMonth(y, m + 1) == DaysBeforeMonth(y, m) + DaysInMonth(y, m)
    ensures DaysBeforeMonth(y, 13) == DaysInYear(y)
  {
  }

  lemma DaysBeforeMonthMonotone(y: int, m: int, m': int)
    requires 1 <= m <= m' <= 13
    ensures DaysBeforeMonth(y, m) + 28 * (m' - m) <= DaysBeforeMonth(y, m')
  {
  }

  /** The year containing the 0-based day `k` counted from 0001-01-01. */
  function YearOfDay(k: int): (y: int)
    ensures DaysBeforeYear(y) <= k < DaysBeforeYear(y + 1)
  {
    var x := (400 * k) / 146097;
    DaysBeforeYearBounds(x + 1);
    DaysBeforeYearBounds(x + 3);
    DaysBeforeYearMonotone(x + 2, x + 3);
    if DaysBeforeYear(x + 2) <= k then x + 2 else x + 1
  }

  /** Only one year contains a given day. */
  lemma YearOfDayUnique(k: int, y: int)
    requires DaysBeforeYear(y) <= k < DaysBeforeYear(y + 1)
    ensures YearOfDay(k) == y
  {
    var y' := YearOfDay(k);
    if y' < y {
      DaysBeforeYearMonotone(y' + 1, y);
    } else if y < y' {
      DaysBeforeYearMonotone(y + 1, y');
    }
  }

  /** The month holding the 0-based day-of-year `doy`, searching down from `m`. */
  function MonthOfDay(y: int, doy: int, m: int): (r: int)
    requires 1 <= m <= 12 && 0 <= doy < DaysBeforeMonth(y, m + 1)
    ensures 1 <= r <= m
    ensures DaysBeforeMonth(y, r) <= doy < DaysBeforeMonth(y, r + 1)
    decreases m
  {
    if m == 1 || DaysBeforeMonth(y, m) <= doy then m else MonthOfDay(y, doy, m - 1)
  }

  lemma MonthOfDayUnique(y: int, doy: int, m: int)
    requires 1 <= m <= 12 && DaysBeforeMonth(y, m) <= doy < DaysBeforeMonth(y, m + 1)
    ensures MonthOfDay(y, doy, 12) == m
  {
    var m' := MonthOfDay(y, doy, 12);
    if m' < m {
      DaysBeforeMonthMonotone(y, m' + 1, m);
    } else if m < m' {
      DaysBeforeMonthMonotone(y, m + 1, m');
    }
  }

  /** The calendar date `n` days after 1970-01-01. */
  function CivilFromDays(n: int): (d: Date)
    ensures ValidDate(d) && DaysFromCivil(d) == n
  {
    var k := n + EpochOffset;
    var y := YearOfDay(k);
    YearLength(y);
    MonthLength(y, 12);
    var doy := k - DaysBeforeYear(y);
    var m := MonthOfDay(y, doy, 12);
    MonthLength(y, m);
    Date(y, m, doy - DaysBeforeMonth(y, m) + 1)
  }

  /** `CivilFromDays` read off once the year and the month are known. */
  lemma CivilFromDaysAt(n: int, y: int, m: int, doy: int)
    requires YearOfDay(n + EpochOffset) == y && doy == n + EpochOffset - DaysBeforeYear(y)
    requires 0 <= doy < DaysBeforeMonth(y, 13) && MonthOfDay(y, doy, 12) == m
    ensures CivilFromDays(n) == Date(y, m, doy - DaysBeforeMonth(y, m) + 1)
  {
  }

  lemma RoundTripYear(d: Date)
    requires ValidDate(d)
    ensures YearOfDay(DaysFromCivil(d) + EpochOffset) == d.year
  {
    var k := DaysFromCivil(d) + EpochOffset;
    assert k == DaysBeforeYear(d.year) + (DayOfYear(d) - 1);
    IsoDateFacts(d);
    YearLength(d.year);
    YearOfDayUnique(k, d.year);
  }

  lemma RoundTripMonth(d: Date)
    requires ValidDate(d)
    ensures 0 <= DayOfYear(d) - 1 < DaysBeforeMonth(d.year, 13)
    ensures MonthOfDay(d.year, DayOfYear(d) - 1, 12) == d.month
  {
    MonthLength(d.year, d.month);
    DaysBeforeMonthMonotone(d.year, d.month + 1, 13);
    MonthOfDayUnique(d.year, DayOfYear(d) - 1, d.month);
  }

  /** Day numbers and valid dates are in one-to-one correspondence. */
  lemma {:induction false} CivilRoundTrip(d: Date)
    requires ValidDate(d)
    ensures CivilFromDays(DaysFromCivil(d)) == d
  {
    var n := DaysFromCivil(d);
    RoundTripYear(d);
    RoundTripMonth(d);
    CivilFromDaysAt(n, d.year, d.month, DayOfYear(d) - 1);
  }

  lemma DaysFromCivilInjective(d: Date, e: Date)
    requires ValidDate(d) && ValidDate(e) && DaysFromCivil(d) == DaysFromCivil(e)
    ensures d == e
  {
    CivilRoundTrip(d);
    CivilRoundTrip(e);
  }

  // ---------------------------------------------------------------------
  // Weekdays

  /** pandas' `dt.weekday`: Monday is 0, Sunday is 6; 1970-01-01 was a Thursday. */
  function Weekday(n: int): (w: int)
    ensures 0 <= w < 7
    ensures n == 0 ==> w == 3
  {
    (n + 3) % 7
  }

  /** Each day is followed by the next day of the week, Sunday by Monday. */
  lemma NextWeekday(n: int)
    ensures Weekday(n + 1) == if Weekday(n) == 6 then 0 else Weekday(n) + 1
  {
  }

  const WeekdayNames: seq<string> :=
    ["Monday", "Tuesday", "Wednesday", "Thursday", "Friday", "Saturday", "Sunday"]

  /** pandas' `dt.day_name()`. */
  function DayName(n: int): string
  {
    WeekdayNames[Weekday(n)]
  }

  predicate IsWeekend(n: int)
  {
    Weekday(n) == 5 || Weekday(n) == 6
  }

  /** The day name is one of the five working-day names exactly when the
      weekday number is not 5 or 6. */
  lemma WorkingDayNames(n: int)
    ensures DayName(n) in WeekdayNames[..5] <==> !IsWeekend(n)
  {
    assert WeekdayNames[..5] == ["Monday", "Tuesday", "Wednesday", "Thursday", "Friday"];
  }

  // ---------------------------------------------------------------------
  // Month names and seasons

  const MonthNames: seq<string> :=
    ["January", "February", "March", "April", "May", "June", "July",
     "August", "September", "October", "November", "December"]

  /** pandas' `dt.month_name()`. */
  function MonthName(m: int): string
    requires 1 <= m <= 12
  {
    MonthNames[m - 1]
  }

  /** The month-name table: a full English month name to its number. */
  function MonthFromName(s: string): (r: Option<int>)
    ensures r.Some? ==> 1 <= r.value <= 12 && MonthName(r.value) == s
  {
    if s == "January" then Some(1) else if s == "February" then Some(2)
    else if s == "March" then Some(3) else if s == "April" then Some(4)
    else if s == "May" then Some(5) else if s == "June" then Some(6)
    else if s == "July" then Some(7) else if s == "August" then Some(8)
    else if s == "September" then Some(9) else if s == "October" then Some(10)
    else if s == "November" then Some(11) else if s == "December" then Some(12)
    else None
  }

  /** The table is exactly the inverse of `MonthName`: it knows the twelve
      names and nothing else. */
  lemma MonthNameRoundTrip(m: int, s: string)
    requires 1 <= m <= 12
    ensures MonthFromName(MonthName(m)) == Some(m)
    ensures MonthFromName(s).None? <==> s !in MonthNames
  {
  }

  datatype Season = Winter | Spring | Summer | Fall

  function SeasonName(s: Season): string
  {
    match s
    case Winter => "Winter"
    case Spring => "Spring"
    case Summer => "Summer"
    case Fall => "Fall"
  }

  /** The season table: December to February is winter, then three months each. */
  function SeasonOf(m: int): Season
    requires 1 <= m <= 12
  {
    if m == 12 || m <= 2 then Winter
    else if m <= 5 then Spring
    else if m <= 8 then Summer
    else Fall
  }

  function MonthsOf(s: Season): set<int>
  {
    set m | 1 <= m <= 12 && SeasonOf(m) == s
  }

  lemma ThreeMonthsPerSeason(s: Season)
    ensures |MonthsOf(s)| == 3
    ensures s == Winter ==> MonthsOf(s) == {12, 1, 2}
    ensures s == Spring ==> MonthsOf(s) == {3, 4, 5}
    ensures s == Summer ==> MonthsOf(s) == {6, 7, 8}
    ensures s == Fall ==> MonthsOf(s) == {9, 10, 11}
  {
    match s
    case Winter => assert MonthsOf(s) == {12, 1, 2};
    case Spring => assert MonthsOf(s) == {3, 4, 5};
    case Summer => assert MonthsOf(s) == {6, 7, 8};
    case Fall => assert MonthsOf(s) == {9, 10, 11};
  }

  // ---------------------------------------------------------------------
  // ISO 8601 week numbers

  /** The week number as pandas' `isocalendar()` computes it (an estimate from
      the day of year and weekday, corrected at both ends of the year). */
  function IsoWeekNumber(d: Date): int
    requires ValidDate(d)
  {
    var dow := Weekday(DaysFromCivil(d));
    var est := ThursdayOffset(d);
    if est < 0 then
      (if est > -2 || (est == -2 && IsLeapYear(d.year - 1)) then 53 else 52)
    else if est / 7 + 1 == 53 && 31 - d.day + dow < 3 then 1
    else est / 7 + 1
  }

  /** The ISO 8601 rule stated directly: a week runs Monday to Sunday, belongs
      to the year holding its Thursday, and week 1 is the one holding that
      year's first Thursday. */
  function IsoWeekByThursday(n: int): (w: int)
  {
    var thursday := n - Weekday(n) + 3 + EpochOffset;
    (thursday - DaysBeforeYear(YearOfDay(thursday))) / 7 + 1
  }

  /** The arithmetic behind `IsoWeekNumberIsIso`, with the calendar
      abstracted to the length of the year, of the previous year and the
      start of December. */
  lemma IsoEstimateArithmetic(est: int, dow: int, day: int, month: int, doy0: int,
                              december: int, len: int, prevLen: int)
    requires 0 <= dow < 7 && est == doy0 - dow + 3 && 0 <= doy0 < len
    requires (len == 365 && december == 334) || (len == 366 && december == 335)
    requires prevLen == 365 || prevLen == 366
    requires 1 <= month <= 12 && (month < 12 ==> doy0 < december)
    requires month == 12 ==> doy0 == december + day - 1
    ensures est < 0 ==>
      (prevLen + est) / 7 + 1 == (if est > -2 || (est == -2 && prevLen == 366) then 53 else 52)
    ensures 0 <= est < len ==>
      est / 7 + 1 == (if est / 7 + 1 == 53 && 31 - day + dow < 3 then 1 else est / 7 + 1)
    ensures len <= est ==>
      (est - len) / 7 + 1 == (if est / 7 + 1 == 53 && 31 - day + dow < 3 then 1 else est / 7 + 1)
  {
  }

  /** Where the Thursday of the week of `d` lies, counted in days from the
      first day of `d`'s year (negative: in the previous year). */
  function ThursdayOffset(d: Date): int
    requires ValidDate(d)
  {
    (DayOfYear(d) - 1) - Weekday(DaysFromCivil(d)) + 3
  }

  lemma IsoDateFacts(d: Date)
    requires ValidDate(d)
    ensures 0 <= DayOfYear(d) - 1 < DaysInYear(d.year)
    ensures d.month < 12 ==> DayOfYear(d) - 1 < DaysBeforeMonth(d.year, 12)
    ensures DaysBeforeMonth(d.year, 12) == DaysInYear(d.year) - 31
    ensures DaysBeforeYear(d.year) + ThursdayOffset(d)
         == DaysFromCivil(d) - Weekday(DaysFromCivil(d)) + 3 + EpochOffset
  {
    MonthLength(d.year, d.month);
    MonthLength(d.year, 12);
    DaysBeforeMonthMonotone(d.year, d.month + 1, 13);
    if d.month < 12 {
      DaysBeforeMonthMonotone(d.year, d.month + 1, 12);
    }
  }

  /** The ISO week of a day whose Thursday `t` lies in year `y`. */
  lemma WeekOfThursday(n: int, t: int, y: int)
    requires t == n - Weekday(n) + 3 + EpochOffset
    requires DaysBeforeYear(y) <= t < DaysBeforeYear(y + 1)
    ensures IsoWeekByThursday(n) == (t - DaysBeforeYear(y)) / 7 + 1
  {
    YearOfDayUnique(t, y);
  }

  /** A Thursday before the first day of `d`'s year lies in the previous year. */
  lemma ThursdayInPreviousYear(d: Date)
    requires ValidDate(d) && -3 <= ThursdayOffset(d) < 0
    ensures IsoWeekByThursday(DaysFromCivil(d)) == (DaysInYear(d.year - 1) + ThursdayOffset(d)) / 7 + 1
  {
    var n := DaysFromCivil(d);
    var t := n - Weekday(n) + 3 + EpochOffset;
    IsoDateFacts(d);
    YearLength(d.year - 1);
    WeekOfThursday(n, t, d.year - 1);
  }

  lemma IsoWeekBeforeYear(d: Date)
    requires ValidDate(d) && ThursdayOffset(d) < 0
    ensures IsoWeekNumber(d) == IsoWeekByThursday(DaysFromCivil(d))
  {
    var n := DaysFromCivil(d);
    var est := ThursdayOffset(d);
    var prevLen := DaysInYear(d.year - 1);
    IsoDateFacts(d);
    ThursdayInPreviousYear(d);
    IsoEstimateArithmetic(est, Weekday(n), d.day, d.month, DayOfYear(d) - 1,
                          DaysBeforeMonth(d.year, 12), DaysInYear(d.year), prevLen);
  }

  lemma IsoWeekWithinYear(d: Date)
    requires ValidDate(d) && 0 <= ThursdayOffset(d) < DaysInYear(d.year)
    ensures IsoWeekNumber(d) == IsoWeekByThursday(DaysFromCivil(d))
  {
    var n := DaysFromCivil(d);
    var t := n - Weekday(n) + 3 + EpochOffset;
    IsoDateFacts(d);
    IsoEstimateArithmetic(ThursdayOffset(d), Weekday(n), d.day, d.month, DayOfYear(d) - 1,
                          DaysBeforeMonth(d.year, 12), DaysInYear(d.year), DaysInYear(d.year - 1));
    YearLength(d.year);
    WeekOfThursday(n, t, d.year);
  }

  lemma IsoWeekAfterYear(d: Date)
    requires ValidDate(d) && DaysInYear(d.year) <= ThursdayOffset(d)
    ensures IsoWeekNumber(d) == IsoWeekByThursday(DaysFromCivil(d))
  {
    var n := DaysFromCivil(d);
    var t := n - Weekday(n) + 3 + EpochOffset;
    IsoDateFacts(d);
    IsoEstimateArithmetic(ThursdayOffset(d), Weekday(n), d.day, d.month, DayOfYear(d) - 1,
                          DaysBeforeMonth(d.year, 12), DaysInYear(d.year), DaysInYear(d.year - 1));
    YearLength(d.year);
    YearLength(d.year + 1);
    WeekOfThursday(n, t, d.year + 1);
  }

  /** pandas' week number is the ISO 8601 week number, in 1 .. 53. */
  lemma IsoWeekNumberIsIso(d: Date)
    requires ValidDate(d)
    ensures IsoWeekNumber(d) == IsoWeekByThursday(DaysFromCivil(d))
    ensures 1 <= IsoWeekNumber(d) <= 53
  {
    if ThursdayOffset(d) < 0 {
      IsoWeekBeforeYear(d);
    } else if ThursdayOffset(d) < DaysInYear(d.year) {
      IsoWeekWithinYear(d);
    } else {
      IsoWeekAfterYear(d);
    }
  }

  /** The first Thursday of a year is in week 1. */
  lemma FirstThursdayIsInWeekOne(d: Date)
    requires ValidDate(d) && Weekday(DaysFromCivil(d)) == 3 && DayOfYear(d) <= 7
    ensures IsoWeekNumber(d) == 1
  {
  }

  // ---------------------------------------------------------------------
  // pandas Timestamp range

  /** Days from 1970-01-01 of the first and last midnight a nanosecond
      Timestamp can hold: 1677-09-22 and 2262-04-11. */
  const MinTimestampDay: int := -106751
  const MaxTimestampDay: int := 106751

  predicate InTimestampRange(n: int)
  {
    MinTimestampDay <= n <= MaxTimestampDay
  }

  lemma TimestampRangeDates()
    ensures DaysFromCivil(Date(1677, 9, 22)) == MinTimestampDay
    ensures DaysFromCivil(Date(2262, 4, 11)) == MaxTimestampDay
    ensures DaysFromCivil(Date(1970, 1, 1)) == 0
  {
  }
}
