/** The proleptic Gregorian calendar of section 21.4.1 of ECMA-262, in days and seconds from 1970-01-01. */
module Calendar {

  predicate Leap(y: int) {
    y % 4 == 0 && (y % 100 != 0 || y % 400 == 0)
  }

  function DaysInYear(y: int): int {
    if Leap(y) then 366 else 365
  }

  /** The day a year begins on. */
  function DayFromYear(y: int): int
    decreases if y < 1970 then 1970 - y else y - 1970
  {
    if y == 1970 then 0
    else if y > 1970 then DayFromYear(y - 1) + DaysInYear(y - 1)
    else DayFromYear(y + 1) - DaysInYear(y)
  }

  lemma NextYear(y: int)
    ensures DayFromYear(y + 1) == DayFromYear(y) + DaysInYear(y)
  {
  }

  function DayFormula(y: int): int {
    365 * (y - 1970) + (y - 1969) / 4 - (y - 1901) / 100 + (y - 1601) / 400
  }

  lemma QuotientSteps(x: int, q: int)
    requires q == 4 || q == 100 || q == 400
    ensures (x + 1) / q - x / q == if (x + 1) % q == 0 then 1 else 0
  {
  }

  lemma FormulaSteps(y: int)
    ensures DayFormula(y + 1) == DayFormula(y) + DaysInYear(y)
  {
    QuotientSteps(y - 1969, 4);
    QuotientSteps(y - 1901, 100);
    QuotientSteps(y - 1601, 400);
    SameRemainder(y, 492, 4, 1968);
    SameRemainder(y, 19, 100, 1900);
    SameRemainder(y, 4, 400, 1600);
    LeapByRemainders(y);
  }

  lemma LeapByRemainders(y: int)
    ensures y % 400 == 0 ==> y % 100 == 0
    ensures y % 100 == 0 ==> y % 4 == 0
  {
  }

  lemma SameRemainder(y: int, k: int, q: int, whole: int)
    requires (q == 4 || q == 100 || q == 400) && whole == k * q
    ensures (y - whole) % q == 0 <==> y % q == 0
  {
  }

  /** The standard's closed form counts the same days as the lengths of the years. */
  lemma {:induction false} DayFromYearIsTheFormula(y: int)
    ensures DayFromYear(y) == DayFormula(y)
    decreases if y < 1970 then 1970 - y else y - 1970
  {
    if y > 1970 {
      DayFromYearIsTheFormula(y - 1);
      FormulaSteps(y - 1);
    } else if y < 1970 {
      DayFromYearIsTheFormula(y + 1);
      FormulaSteps(y);
    }
  }

  lemma {:induction false} YearsAdvance(y: int, z: int)
    requires y <= z
    ensures DayFromYear(y) + 365 * (z - y) <= DayFromYear(z)
    decreases z - y
  {
    if y < z {
      YearsAdvance(y, z - 1);
      NextYear(z - 1);
    }
  }

  /** The year a day falls in: the greatest that begins no later. */
  function YearFrom(y: int, day: int): (r: int)
    requires DayFromYear(y) <= day
    ensures DayFromYear(r) <= day < DayFromYear(r + 1)
    decreases day - DayFromYear(y)
  {
    NextYear(y);
    if day < DayFromYear(y + 1) then y else YearFrom(y + 1, day)
  }

  lemma YearBelow(day: int)
    ensures DayFromYear(if day >= 0 then 1970 else 1970 + day) <= day
  {
    if day < 0 {
      YearsAdvance(1970 + day, 1970);
    }
  }

  function YearOf(day: int): (r: int)
    ensures DayFromYear(r) <= day < DayFromYear(r + 1)
  {
    YearBelow(day);
    YearFrom(if day >= 0 then 1970 else 1970 + day, day)
  }

  /** January being 0. */
  function MonthLength(m: int, leap: bool): (r: int)
    ensures 28 <= r <= 31
  {
    if m == 1 then (if leap then 29 else 28) else if m == 3 || m == 5 || m == 8 || m == 10 then 30 else 31
  }

  /** The days of the year before a month. */
  function MonthStart(m: int, leap: bool): (r: int)
    requires 0 <= m <= 12
    ensures r >= 0
  {
    if m == 0 then 0 else MonthStart(m - 1, leap) + MonthLength(m - 1, leap)
  }

  /** Twelve months make a year. */
  lemma MonthsMakeAYear(leap: bool)
    ensures MonthStart(12, leap) == if leap then 366 else 365
  {
    var l := if leap then 1 else 0;
    assert MonthStart(1, leap) == 31;
    assert MonthStart(2, leap) == 59 + l;
    assert MonthStart(3, leap) == 90 + l;
    assert MonthStart(4, leap) == 120 + l;
    assert MonthStart(5, leap) == 151 + l;
    assert MonthStart(6, leap) == 181 + l;
    assert MonthStart(7, leap) == 212 + l;
    assert MonthStart(8, leap) == 243 + l;
    assert MonthStart(9, leap) == 273 + l;
    assert MonthStart(10, leap) == 304 + l;
    assert MonthStart(11, leap) == 334 + l;
  }

  function MonthFrom(m: int, dayOfYear: int, leap: bool): (r: int)
    requires 0 <= m <= 11 && MonthStart(m, leap) <= dayOfYear < MonthStart(12, leap)
    ensures m <= r <= 11 && MonthStart(r, leap) <= dayOfYear < MonthStart(r + 1, leap)
    decreases 12 - m
  {
    if dayOfYear < MonthStart(m + 1, leap) then m else MonthFrom(m + 1, dayOfYear, leap)
  }

  lemma {:induction false} MonthsAdvance(m: int, n: int, leap: bool)
    requires 0 <= m <= n <= 12
    ensures MonthStart(m, leap) <= MonthStart(n, leap)
    decreases n
  {
    if m < n {
      MonthsAdvance(m, n - 1, leap);
    }
  }

  /** A date, its month and its day counted from 1. */
  datatype Date = Date(year: int, month: int, day: int)

  datatype Time = Time(hour: int, minute: int, second: int)

  const DAY: int := 86400

  function DateWithin(year: int, dayOfYear: int): (r: Date)
    requires 0 <= dayOfYear < DaysInYear(year)
    ensures r.year == year && 1 <= r.month <= 12 && 1 <= r.day <= 31
    ensures MonthStart(r.month - 1, Leap(year)) + r.day - 1 == dayOfYear
  {
    MonthsMakeAYear(Leap(year));
    var m := MonthFrom(0, dayOfYear, Leap(year));
    Date(year, m + 1, dayOfYear - MonthStart(m, Leap(year)) + 1)
  }

  function DateOf(day: int): (r: Date)
    ensures r.year == YearOf(day) && 1 <= r.month <= 12 && 1 <= r.day <= 31
    ensures DayFromYear(r.year) + MonthStart(r.month - 1, Leap(r.year)) + r.day - 1 == day
  {
    NextYear(YearOf(day));
    DateWithin(YearOf(day), day - DayFromYear(YearOf(day)))
  }

  function TimeOf(rest: int): (r: Time)
    requires 0 <= rest < DAY
    ensures 0 <= r.hour < 24 && 0 <= r.minute < 60 && 0 <= r.second < 60
    ensures r.hour * 3600 + r.minute * 60 + r.second == rest
  {
    Time(rest / 3600, rest % 3600 / 60, rest % 60)
  }

  /** MakeDay: a month outside the year carries over, and so does a day outside the month. */
  function DayOf(year: int, month0: int, day: int): int {
    var y, m := year + month0 / 12, month0 % 12;
    DayFromYear(y) + MonthStart(m, Leap(y)) + day - 1
  }

  /** MakeDate and MakeTime, in seconds. */
  function SecondsOf(year: int, month0: int, day: int, hour: int, minute: int, second: int): int {
    DayOf(year, month0, day) * DAY + hour * 3600 + minute * 60 + second
  }

  function DateAt(seconds: int): Date {
    DateOf(seconds / DAY)
  }

  function TimeAt(seconds: int): Time {
    TimeOf(seconds % DAY)
  }

  lemma DayOfMonth(year: int, m: int, day: int)
    requires 0 <= m < 12
    ensures DayOf(year, m, day) == DayFromYear(year) + MonthStart(m, Leap(year)) + day - 1
  {
    assert m / 12 == 0 && m % 12 == m;
  }

  lemma DateNamesItsDay(day: int)
    ensures var d := DateOf(day); DayOf(d.year, d.month - 1, d.day) == day
  {
    var d := DateOf(day);
    DayOfMonth(d.year, d.month - 1, d.day);
  }

  /** The fields of a second name that second. */
  lemma FieldsNameTheirSecond(seconds: int)
    ensures var d, t := DateAt(seconds), TimeAt(seconds);
      SecondsOf(d.year, d.month - 1, d.day, t.hour, t.minute, t.second) == seconds
  {
    DateNamesItsDay(seconds / DAY);
  }

  // --- the same in closed form -----------------------------------------------

  /** The days of a year, from the standard's formula for the days before it. */
  function LeapDay(year: int): int {
    DayFormula(year + 1) - DayFormula(year) - 365
  }

  /** The days of a year before a month: 153 for every five months, counted from March. */
  function MonthFormula(year: int, m: int): int {
    if m < 2 then 31 * m else 59 + LeapDay(year) + (153 * (m - 2) + 2) / 5
  }

  lemma LeapDayIs(year: int)
    ensures LeapDay(year) == if Leap(year) then 1 else 0
  {
    DayFromYearIsTheFormula(year);
    DayFromYearIsTheFormula(year + 1);
    NextYear(year);
  }

  lemma {:induction false} MonthStartIs(m: int, year: int)
    requires 0 <= m <= 12
    ensures MonthStart(m, Leap(year)) == MonthFormula(year, m)
    decreases m
  {
    LeapDayIs(year);
    if m > 0 {
      MonthStartIs(m - 1, year);
      MonthSteps(m - 1, Leap(year));
    }
  }

  /** From one month to the next the closed form grows by the month's length. */
  lemma MonthSteps(m: int, leap: bool)
    requires 0 <= m < 12
    ensures m < 1 ==> MonthLength(m, leap) == 31
    ensures m == 1 ==> 31 + MonthLength(m, leap) == 59 + if leap then 1 else 0
    ensures m >= 2 ==> (153 * (m - 1) + 2) / 5 - (153 * (m - 2) + 2) / 5 == MonthLength(m, leap)
  {
  }

  /** The date is the day's by the two formulas alone. */
  predicate IsDateOf(date: Date, day: int) {
    && 1 <= date.month <= 12 && 1 <= date.day
    && DayFormula(date.year) + MonthFormula(date.year, date.month - 1) + date.day - 1 == day
    && MonthFormula(date.year, date.month - 1) + date.day <= MonthFormula(date.year, date.month)
  }

  lemma MonthsOfYear(year: int, m: int, n: int)
    requires 0 <= m <= n <= 12
    ensures 0 <= MonthFormula(year, m) <= MonthFormula(year, n) <= 365 + LeapDay(year)
  {
    MonthStartIs(m, year);
    MonthStartIs(n, year);
    MonthsAdvance(m, n, Leap(year));
    MonthsAdvance(n, 12, Leap(year));
    MonthsMakeAYear(Leap(year));
    LeapDayIs(year);
  }

  /** Such a date lies in its year. */
  lemma DateInYear(date: Date, day: int)
    requires IsDateOf(date, day)
    ensures YearOf(day) == date.year
  {
    MonthsOfYear(date.year, date.month - 1, date.month);
    DayFromYearIsTheFormula(date.year);
    DayFromYearIsTheFormula(date.year + 1);
    if YearOf(day) < date.year {
      YearsAdvance(YearOf(day) + 1, date.year);
    } else if date.year < YearOf(day) {
      YearsAdvance(date.year + 1, YearOf(day));
    }
  }

  lemma SameYearSameDate(a: Date, b: Date, day: int)
    requires IsDateOf(a, day) && IsDateOf(b, day) && a.year == b.year
    ensures a == b
  {
    if a.month < b.month {
      MonthsOfYear(a.year, a.month, b.month - 1);
    } else if b.month < a.month {
      MonthsOfYear(a.year, b.month, a.month - 1);
    }
  }

  /** A day's date is the one the closed forms of its year and its month give, and no other. */
  lemma DateIsTheFormula(day: int, date: Date)
    ensures date == DateOf(day) <==> IsDateOf(date, day)
  {
    DateIsItsFormula(day);
    if IsDateOf(date, day) {
      DateInYear(date, day);
      SameYearSameDate(date, DateOf(day), day);
    }
  }

  lemma DateIsItsFormula(day: int)
    ensures IsDateOf(DateOf(day), day)
  {
    DateNames(day);
    NamedByFormula(DateOf(day), day);
  }

  lemma NamedByFormula(date: Date, day: int)
    requires Names(date, day)
    ensures IsDateOf(date, day)
  {
    DayFromYearIsTheFormula(date.year);
    MonthStartIs(date.month - 1, date.year);
    MonthStartIs(date.month, date.year);
  }

  predicate EarlierDate(a: Date, b: Date) {
    a.year < b.year || (a.year == b.year && (a.month < b.month || (a.month == b.month && a.day < b.day)))
  }

  predicate EarlierTime(a: Time, b: Time) {
    a.hour < b.hour || (a.hour == b.hour && (a.minute < b.minute || (a.minute == b.minute && a.second < b.second)))
  }

  lemma YearsKeepOrder(d: int, e: int)
    requires d < e
    ensures YearOf(d) <= YearOf(e)
  {
    if YearOf(e) < YearOf(d) {
      YearsAdvance(YearOf(e) + 1, YearOf(d));
    }
  }

  /** A day from its date. */
  lemma DayFromDate(day: int, date: Date)
    requires date == DateOf(day)
    ensures date.year == YearOf(day) && 1 <= date.month <= 12
    ensures day == DayFromYear(date.year) + MonthStart(date.month - 1, Leap(date.year)) + date.day - 1
  {
  }

  ghost predicate Names(date: Date, day: int)
  {
    && 1 <= date.month <= 12 && 1 <= date.day
    && day == DayFromYear(date.year) + MonthStart(date.month - 1, Leap(date.year)) + date.day - 1
    && MonthStart(date.month - 1, Leap(date.year)) + date.day <= MonthStart(date.month, Leap(date.year))
  }

  lemma DateNames(day: int)
    ensures Names(DateOf(day), day) && DateOf(day).year == YearOf(day)
  {
    DayFromDate(day, DateOf(day));
    LastDay(day);
  }

  lemma SameYearKeepsOrder(a: Date, b: Date, d: int, e: int)
    requires Names(a, d) && Names(b, e) && a.year == b.year && d < e
    ensures EarlierDate(a, b)
  {
    if b.month < a.month {
      MonthsAdvance(b.month, a.month - 1, Leap(a.year));
    }
  }

  lemma DatesKeepOrder(d: int, e: int)
    requires d < e
    ensures EarlierDate(DateOf(d), DateOf(e))
  {
    YearsKeepOrder(d, e);
    DateNames(d);
    DateNames(e);
    if YearOf(d) == YearOf(e) {
      SameYearKeepsOrder(DateOf(d), DateOf(e), d, e);
    }
  }

  /** A date lies in its month. */
  lemma LastDay(day: int)
    ensures var d := DateOf(day); MonthStart(d.month - 1, Leap(d.year)) + d.day <= MonthStart(d.month, Leap(d.year))
  {
    NextYear(YearOf(day));
    MonthsMakeAYear(Leap(YearOf(day)));
  }

  lemma TimesKeepOrder(r: int, q: int)
    requires 0 <= r < q < DAY
    ensures EarlierTime(TimeOf(r), TimeOf(q))
  {
  }

  /** An earlier second has an earlier date, or the same date and an earlier time. */
  lemma FieldsKeepOrder(s: int, t: int)
    requires s < t
    ensures EarlierDate(DateAt(s), DateAt(t)) || (DateAt(s) == DateAt(t) && EarlierTime(TimeAt(s), TimeAt(t)))
  {
    if s / DAY < t / DAY {
      DatesKeepOrder(s / DAY, t / DAY);
    } else {
      TimesKeepOrder(s % DAY, t % DAY);
    }
  }
}
