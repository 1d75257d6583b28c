/** The proleptic Gregorian calendar: two closed forms between dates and day numbers, and the calendar they count. */
module Calendar {

  datatype Date = Date(year: int, month: int, day: int)

  /** Days since 1970-01-01, in eras of 400 years that start in March. */
  function DaysFromCivil(y: int, m: int, d: int): int {
    var year := if m <= 2 then y - 1 else y;
    var era := year / 400;
    var yoe := year % 400;
    var mp := (m + 9) % 12;
    var doy := (153 * mp + 2) / 5 + d - 1;
    var doe := yoe * 365 + yoe / 4 - yoe / 100 + doy;
    era * 146_097 + doe - 719_468
  }

  function DayNumber(date: Date): int {
    DaysFromCivil(date.year, date.month, date.day)
  }

  /** The date of a day number: its era, its year of the era, then its month and day of the year. */
  function CivilFromDays(days: int): Date {
    var z := days + 719_468;
    CivilOfEra(z / 146_097, z % 146_097)
  }

  function CivilOfEra(era: int, doe: int): Date {
    var yoe := (doe - doe / 1460 + doe / 36_524 - doe / 146_096) / 365;
    CivilOfYear(era, yoe, doe - (365 * yoe + yoe / 4 - yoe / 100))
  }

  function CivilOfYear(era: int, yoe: int, doy: int): Date {
    var mp := (5 * doy + 2) / 153;
    var d := doy - (153 * mp + 2) / 5 + 1;
    var m := if mp < 10 then mp + 3 else mp - 9;
    Date(yoe + era * 400 + (if m <= 2 then 1 else 0), m, d)
  }

  // ---- the calendar, day by day ----------------------------------------------------

  predicate IsLeap(year: int) {
    year % 4 == 0 && (year % 100 != 0 || year % 400 == 0)
  }

  function MonthDays(year: int, month: int): int {
    if month == 2 then (if IsLeap(year) then 29 else 28)
    else if month == 4 || month == 6 || month == 9 || month == 11 then 30
    else 31
  }

  predicate IsDate(date: Date) {
    1 <= date.month <= 12 && 1 <= date.day <= MonthDays(date.year, date.month)
  }

  function NextDay(date: Date): Date {
    if date.day < MonthDays(date.year, date.month) then date.(day := date.day + 1)
    else if date.month < 12 then Date(date.year, date.month + 1, 1)
    else Date(date.year + 1, 1, 1)
  }

  function PreviousDay(date: Date): Date {
    if date.day > 1 then date.(day := date.day - 1)
    else if date.month > 1 then Date(date.year, date.month - 1, MonthDays(date.year, date.month - 1))
    else Date(date.year - 1, 12, 31)
  }

  lemma PreviousThenNext(date: Date)
    requires IsDate(date)
    ensures IsDate(PreviousDay(date)) && NextDay(PreviousDay(date)) == date
  {
  }

  // ---- the pieces of the closed forms ----------------------------------------------

  /** The days of a March-based year before the month `mp` months after March. */
  function DaysBefore(mp: int): int {
    (153 * mp + 2) / 5
  }

  /** The days of an era before its year `yoe`. */
  function DaysBeforeYear(yoe: int): int {
    yoe * 365 + yoe / 4 - yoe / 100
  }

  /** The days of the March-based year `yoe` of an era, which ends with February of the next calendar year. */
  function YearDays(yoe: int): int {
    if yoe % 4 == 3 && (yoe % 100 != 99 || yoe == 399) then 366 else 365
  }

  lemma YearsAddUp(yoe: int)
    requires 0 <= yoe < 400
    ensures DaysBeforeYear(yoe) + YearDays(yoe) == if yoe == 399 then 146_097 else DaysBeforeYear(yoe + 1)
    ensures DaysBeforeYear(yoe) >= 0
  {
    var c, k := yoe / 100, yoe % 100;
    var a, b := k / 4, k % 4;
    assert yoe == 100 * c + 4 * a + b;
    assert yoe / 4 == 25 * c + a;
  }

  lemma EraKeepsRemainders(era: int, x: int)
    ensures (era * 400 + x) % 400 == x % 400
    ensures (era * 400 + x) % 100 == x % 100
    ensures (era * 400 + x) % 4 == x % 4
  {
    assert (era * 400 + x) / 400 == era + x / 400;
    assert (era * 400 + x) / 100 == 4 * era + x / 100;
    assert (era * 400 + x) / 4 == 100 * era + x / 4;
  }

  lemma LeapOfEra(era: int, yoe: int)
    requires 0 <= yoe < 400
    ensures IsLeap(era * 400 + yoe + 1) <==> YearDays(yoe) == 366
  {
    EraKeepsRemainders(era, yoe + 1);
    var c, k := yoe / 100, yoe % 100;
    var a, b := k / 4, k % 4;
    assert yoe % 4 == b;
  }

  /** The closed form over the days of an era recovers the year. */
  lemma YearOfEra(yoe: int, doy: int)
    requires 0 <= yoe < 400 && 0 <= doy < YearDays(yoe)
    ensures var doe := DaysBeforeYear(yoe) + doy;
      0 <= doe < 146_097 && (doe - doe / 1460 + doe / 36_524 - doe / 146_096) / 365 == yoe
  {
    var c, k := yoe / 100, yoe % 100;
    var a, b := k / 4, k % 4;
    assert yoe / 4 == 25 * c + a;
    var doe := DaysBeforeYear(yoe) + doy;
    assert doe == 36_524 * c + 1461 * a + 365 * b + doy;
    CenturyOfEra(doe, c, 1461 * a + 365 * b + doy);
    FourYears(doe, c, a, b, doy);
  }

  lemma CenturyOfEra(doe: int, c: int, s: int)
    requires 0 <= c < 4 && 0 <= s && doe == 36_524 * c + s
    requires s < 36_524 || (s == 36_524 && c == 3)
    ensures doe / 36_524 - doe / 146_096 == c
    ensures doe < 146_097
  {
  }

  lemma FourYears(doe: int, c: int, a: int, b: int, doy: int)
    requires 0 <= c < 4 && 0 <= a < 25 && 0 <= b < 4 && 0 <= doy <= 365
    requires doy == 365 ==> b == 3
    requires doe == 36_524 * c + 1461 * a + 365 * b + doy
    ensures (doe - doe / 1460 + c) / 365 == 100 * c + 4 * a + b
  {
    var over := 24 * c + a + 365 * b + doy;
    assert doe == 1460 * (25 * c + a) + over;
    assert doe / 1460 == 25 * c + a + over / 1460;
    assert over / 1460 == if over >= 1460 then 1 else 0;
  }

  /** The closed form over the days of a year recovers the month and the day. */
  lemma MonthOfYear(mp: int, day: int)
    requires 0 <= mp < 12 && 0 <= day < DaysBefore(mp + 1) - DaysBefore(mp)
    ensures (5 * (DaysBefore(mp) + day) + 2) / 153 == mp
  {
  }

  // ---- the two forms are inverse, and count the calendar ---------------------------

  /** A date as its place in an era: March-based year, month after March, and day of the month from 0. */
  lemma PlaceOfDate(date: Date) returns (era: int, yoe: int, mp: int)
    requires IsDate(date)
    ensures 0 <= yoe < 400 && 0 <= mp < 12
    ensures date.month == if mp < 10 then mp + 3 else mp - 9
    ensures date.year == era * 400 + yoe + (if mp >= 10 then 1 else 0)
    ensures DayNumber(date) == era * 146_097 + DaysBeforeYear(yoe) + DaysBefore(mp) + date.day - 1 - 719_468
    ensures mp < 11 ==> MonthDays(date.year, date.month) == DaysBefore(mp + 1) - DaysBefore(mp)
    ensures mp == 11 ==> DaysBefore(11) + MonthDays(date.year, date.month) == YearDays(yoe)
  {
    var year := if date.month <= 2 then date.year - 1 else date.year;
    era, yoe, mp := year / 400, year % 400, (date.month + 9) % 12;
    LeapOfEra(era, yoe);
  }

  lemma CivilOfPlace(date: Date, era: int, yoe: int, mp: int)
    requires 0 <= mp < 12 && date.month == if mp < 10 then mp + 3 else mp - 9
    requires date.year == era * 400 + yoe + (if mp >= 10 then 1 else 0)
    requires 1 <= date.day <= if mp < 11 then DaysBefore(mp + 1) - DaysBefore(mp) else 29
    ensures CivilOfYear(era, yoe, DaysBefore(mp) + date.day - 1) == date
  {
    if mp < 11 {
      MonthOfYear(mp, date.day - 1);
    }
  }

  /** Every valid date maps to a number and back. */
  lemma CivilOfDayNumber(date: Date)
    requires IsDate(date)
    ensures CivilFromDays(DayNumber(date)) == date
  {
    hide DayNumber, CivilOfYear, CivilOfEra;
    var era, yoe, mp := PlaceOfDate(date);
    var doy := DaysBefore(mp) + date.day - 1;
    CivilOfPlace(date, era, yoe, mp);
    YearOfEra(yoe, doy);
    EraOfDays(era, DaysBeforeYear(yoe) + doy);
    CivilOfEraDay(era, yoe, doy);
  }

  lemma CivilOfEraDay(era: int, yoe: int, doy: int)
    requires 0 <= yoe < 400 && 0 <= doy < YearDays(yoe)
    ensures CivilOfEra(era, DaysBeforeYear(yoe) + doy) == CivilOfYear(era, yoe, doy)
  {
    hide CivilOfYear;
    YearOfEra(yoe, doy);
  }

  lemma EraOfDays(era: int, doe: int)
    requires 0 <= doe < 146_097
    ensures (era * 146_097 + doe) / 146_097 == era && (era * 146_097 + doe) % 146_097 == doe
  {
  }

  /** The next calendar day has the next number. */
  lemma NextDayIsNextNumber(date: Date)
    requires IsDate(date)
    ensures IsDate(NextDay(date)) && DayNumber(NextDay(date)) == DayNumber(date) + 1
  {
    hide DayNumber, DaysBeforeYear, YearDays, IsLeap;
    var next := NextDay(date);
    var era, yoe, mp := PlaceOfDate(date);
    var era', yoe', mp' := PlaceOfDate(next);
    if mp == 11 && date.day == MonthDays(date.year, date.month) {
      YearsAddUp(yoe);
      if yoe == 399 {
        SamePlace(era + 1, 0, era', yoe');
        EraStartsAtZero();
      } else {
        SamePlace(era, yoe + 1, era', yoe');
      }
    } else {
      SamePlace(era, yoe, era', yoe');
    }
  }

  lemma EraStartsAtZero()
    ensures DaysBeforeYear(0) == 0
  {
  }

  lemma SamePlace(era: int, yoe: int, era': int, yoe': int)
    requires 0 <= yoe < 400 && 0 <= yoe' < 400 && era * 400 + yoe == era' * 400 + yoe'
    ensures era == era' && yoe == yoe'
  {
  }

  lemma EpochIsZero()
    ensures IsDate(Date(1970, 1, 1)) && DayNumber(Date(1970, 1, 1)) == 0
  {
  }

  /** The date `n` days after the epoch, counted one day at a time. */
  function Counted(n: int): Date
    decreases if n < 0 then -n else n
  {
    if n == 0 then Date(1970, 1, 1)
    else if n > 0 then NextDay(Counted(n - 1))
    else PreviousDay(Counted(n + 1))
  }

  lemma {:induction false} CountedIsNumbered(n: int)
    ensures IsDate(Counted(n)) && DayNumber(Counted(n)) == n
    decreases if n < 0 then -n else n
  {
    hide DayNumber, MonthDays;
    if n == 0 {
      EpochIsZero();
    } else if n > 0 {
      CountedIsNumbered(n - 1);
      NextDayIsNextNumber(Counted(n - 1));
    } else {
      CountedIsNumbered(n + 1);
      PreviousThenNext(Counted(n + 1));
      NextDayIsNextNumber(PreviousDay(Counted(n + 1)));
    }
  }

  /** Every day number maps to a valid date and back: the date reached by counting days from the epoch. */
  lemma CivilIsCounted(days: int)
    ensures CivilFromDays(days) == Counted(days)
    ensures IsDate(CivilFromDays(days)) && DayNumber(CivilFromDays(days)) == days
  {
    CountedIsNumbered(days);
    CivilOfDayNumber(Counted(days));
  }

  /** A day number names the date reached by counting, and only that one. */
  lemma DayNumberIff(date: Date, days: int)
    requires IsDate(date)
    ensures DayNumber(date) == days <==> date == Counted(days)
  {
    CountedIsNumbered(days);
    CivilOfDayNumber(date);
    CivilOfDayNumber(Counted(days));
  }

  // ---- order -------------------------------------------------------------------------

  /** Year, then month, then day. */
  predicate Before(a: Date, b: Date) {
    a.year < b.year || (a.year == b.year && (a.month < b.month || (a.month == b.month && a.day < b.day)))
  }

  lemma NextDayIsLater(date: Date)
    ensures Before(date, NextDay(date))
  {
  }

  lemma {:induction false} CountedInOrder(m: int, n: int)
    requires m < n
    ensures Before(Counted(m), Counted(n))
    decreases n - m
  {
    hide DayNumber, NextDay, MonthDays, Counted;
    CountedIsNumbered(n - 1);
    NextDayIsNextNumber(Counted(n - 1));
    DayNumberIff(NextDay(Counted(n - 1)), n);
    NextDayIsLater(Counted(n - 1));
    if m >= n - 1 {
    } else {
      CountedInOrder(m, n - 1);
    }
  }

  /** Dates are ordered as their numbers are. */
  lemma DatesInOrder(a: Date, b: Date)
    requires IsDate(a) && IsDate(b)
    ensures Before(a, b) <==> DayNumber(a) < DayNumber(b)
  {
    var m, n := DayNumber(a), DayNumber(b);
    DayNumberIff(a, m);
    DayNumberIff(b, n);
    if m < n {
      CountedInOrder(m, n);
    } else if n < m {
      CountedInOrder(n, m);
    }
  }
}
