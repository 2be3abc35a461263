/** A snapshot's time as text: exact, sortable, and read back from the years 0100 to 9999. */
module CompactTimes {
  import opened Options
  import opened Text
  import opened Digits
  import opened Calendar

  /** The farthest a JavaScript date goes, either way, in milliseconds. */
  const FARTHEST: int := 8_640_000_000_000_000

  function SecondAt(ms: int): int {
    ms / 1000
  }

  function Floored(ms: int): int {
    ms / 1000 * 1000
  }

  function Two(n: int): string
    requires n >= 0
  {
    Padded(n, 10, 2)
  }

  /**
   * Four digits; six, and a plus sign, for a year they cannot hold; the minus sign of
   * an earlier one is dropped with the dashes.
   */
  function YearText(y: int): string {
    if 0 <= y <= 9999 then Padded(y, 10, 4) else if y > 9999 then "+" + Padded(y, 10, 6) else Padded(-y, 10, 6)
  }

  function DateText(d: Date): string
    requires 1 <= d.month && 1 <= d.day
  {
    YearText(d.year) + (Two(d.month) + Two(d.day))
  }

  function TimeText(t: Time): string
    requires 0 <= t.hour && 0 <= t.minute && 0 <= t.second
  {
    Two(t.hour) + (Two(t.minute) + Two(t.second))
  }

  function TextAt(second: int): string {
    DateText(DateAt(second)) + ("T" + (TimeText(TimeAt(second)) + "Z"))
  }

  /** None where the source throws, out of a date's range. */
  function CompactTime(ms: int): Option<string> {
    if -FARTHEST <= Floored(ms) <= FARTHEST then Some(TextAt(SecondAt(ms))) else None
  }

  /** Date.UTC, which takes the years 0 to 99 for 1900 to 1999. */
  function Utc(year: int, month0: int, day: int, hour: int, minute: int, second: int): int {
    SecondsOf(if 0 <= year <= 99 then 1900 + year else year, month0, day, hour, minute, second) * 1000
  }

  predicate HasShape(text: string) {
    && |text| == 16 && text[8] == 'T' && text[15] == 'Z'
    && AllDigits(text[0..4]) && AllDigits(text[4..6]) && AllDigits(text[6..8])
    && AllDigits(text[9..11]) && AllDigits(text[11..13]) && AllDigits(text[13..15])
  }

  function Number(text: string, from: int, to: int): nat
    requires 0 <= from <= to <= |text| && AllDigits(text[from..to])
  {
    Value(text[from..to], 10)
  }

  function TimeNamed(text: string): int
    requires HasShape(text)
  {
    Utc(Number(text, 0, 4), Number(text, 4, 6) - 1, Number(text, 6, 8), Number(text, 9, 11), Number(text, 11, 13),
      Number(text, 13, 15))
  }

  function ReadCompactTime(text: string): Option<int> {
    if !HasShape(text) then None
    else if CompactTime(TimeNamed(text)) == Some(text) then Some(TimeNamed(text))
    else None
  }

  // --- what the text is made of ----------------------------------------------

  lemma TwoDigits(n: int)
    requires 0 <= n < 100
    ensures |Two(n)| == 2 && AllDigits(Two(n)) && Value(Two(n), 10) == n
  {
    assert Pow(10, 2) == 100 by { assert Pow(10, 1) == 10 * Pow(10, 0); }
    LengthOfPadded(n, 10, 2);
    ValueOfPadded(n, 10, 2);
  }

  lemma FourDigits(y: int)
    requires 0 <= y <= 9999
    ensures |YearText(y)| == 4 && AllDigits(YearText(y)) && Value(YearText(y), 10) == y
  {
    assert Pow(10, 4) == 10000 by {
      assert Pow(10, 1) == 10 * Pow(10, 0);
      assert Pow(10, 2) == 10 * Pow(10, 1);
      assert Pow(10, 3) == 10 * Pow(10, 2);
    }
    LengthOfPadded(y, 10, 4);
    ValueOfPadded(y, 10, 4);
  }

  lemma SixDigits(n: nat)
    ensures |Padded(n, 10, 6)| >= 6 && AllDigits(Padded(n, 10, 6))
  {
  }

  /** Any other year takes six characters or more, digits but for a leading sign. */
  lemma LongYear(y: int)
    requires !(0 <= y <= 9999)
    ensures |YearText(y)| >= 6 && forall i | 1 <= i < |YearText(y)| :: IsDigit(YearText(y)[i])
  {
    SixDigits(if y < 0 then -y else y);
  }

  lemma ShapeOf(y: string, mo: string, d: string, h: string, mi: string, s: string)
    requires |y| == 4 && |mo| == |d| == |h| == |mi| == |s| == 2
    requires AllDigits(y) && AllDigits(mo) && AllDigits(d) && AllDigits(h) && AllDigits(mi) && AllDigits(s)
    ensures var t := (y + (mo + d)) + ("T" + ((h + (mi + s)) + "Z"));
      && HasShape(t) && t[0..4] == y && t[4..6] == mo && t[6..8] == d && t[9..11] == h && t[11..13] == mi
        && t[13..15] == s
  {
    var a, b := y + (mo + d), h + (mi + s);
    var t := a + ("T" + (b + "Z"));
    assert t[..8] == a && t[9..15] == b;
    assert a[0..4] == y && a[4..6] == mo && a[6..8] == d;
    assert b[0..2] == h && b[2..4] == mi && b[4..6] == s;
    assert t[0..4] == a[0..4] && t[4..6] == a[4..6] && t[6..8] == a[6..8];
    assert t[9..11] == b[0..2] && t[11..13] == b[2..4] && t[13..15] == b[4..6];
  }

  /** Four digits of year give a text of the shape, whose numbers are the fields. */
  lemma TextHasFields(second: int)
    requires 0 <= DateAt(second).year <= 9999
    ensures HasShape(TextAt(second))
    ensures var text, d, t := TextAt(second), DateAt(second), TimeAt(second);
      && Number(text, 0, 4) == d.year && Number(text, 4, 6) == d.month && Number(text, 6, 8) == d.day
      && Number(text, 9, 11) == t.hour && Number(text, 11, 13) == t.minute && Number(text, 13, 15) == t.second
  {
    var d, t := DateAt(second), TimeAt(second);
    FourDigits(d.year);
    TwoDigits(d.month);
    TwoDigits(d.day);
    TwoDigits(t.hour);
    TwoDigits(t.minute);
    TwoDigits(t.second);
    ShapeOf(YearText(d.year), Two(d.month), Two(d.day), Two(t.hour), Two(t.minute), Two(t.second));
  }

  lemma TextLength(second: int)
    ensures var d := DateAt(second); |TextAt(second)| == |YearText(d.year)| + 12
    ensures TextAt(second)[|TextAt(second)| - 1] == 'Z'
    ensures YearText(DateAt(second).year) <= TextAt(second)
  {
    var d, t := DateAt(second), TimeAt(second);
    TwoDigits(d.month);
    TwoDigits(d.day);
    TwoDigits(t.hour);
    TwoDigits(t.minute);
    TwoDigits(t.second);
  }

  /**
   * In the years 0000 to 9999 a time has a text, of the shape, whose numbers are
   * the date the closed forms give its day, and its time of the day.
   */
  lemma CompactTimeNamesItsDate(ms: int)
    requires DayFormula(0) <= SecondAt(ms) / DAY < DayFormula(10000)
    ensures CompactTime(ms).Some? && HasShape(CompactTime(ms).value)
    ensures var text := CompactTime(ms).value;
      var h, m, s := Number(text, 9, 11), Number(text, 11, 13), Number(text, 13, 15);
      && IsDateOf(Date(Number(text, 0, 4), Number(text, 4, 6), Number(text, 6, 8)), SecondAt(ms) / DAY)
      && h < 24 && m < 60 && s < 60 && h * 3600 + m * 60 + s == SecondAt(ms) % DAY
  {
    var second := SecondAt(ms);
    YearWithin(second / DAY);
    TextHasFields(second);
    DateIsTheFormula(second / DAY, DateAt(second));
    InRange(ms);
  }

  lemma YearWithin(day: int)
    requires DayFormula(0) <= day < DayFormula(10000)
    ensures 0 <= YearOf(day) <= 9999
  {
    DayFromYearIsTheFormula(0);
    DayFromYearIsTheFormula(10000);
    if YearOf(day) < 0 {
      YearsAdvance(YearOf(day) + 1, 0);
    } else if YearOf(day) > 9999 {
      YearsAdvance(10000, YearOf(day));
    }
  }

  lemma InRange(ms: int)
    requires DayFormula(0) <= SecondAt(ms) / DAY < DayFormula(10000)
    ensures -FARTHEST <= Floored(ms) <= FARTHEST
  {
    assert DayFormula(0) == -719528 && DayFormula(10000) == 2932897;
  }

  // --- reading back ----------------------------------------------------------

  lemma YearNotBefore(year: int, month0: int, day: int, rest: int)
    requires month0 >= 0 && day >= 1 && 0 <= rest
    ensures DateAt(DayOf(year, month0, day) * DAY + rest).year >= year
  {
    var y, m := year + month0 / 12, month0 % 12;
    YearsAdvance(year, y);
    var n := (DayOf(year, month0, day) * DAY + rest) / DAY;
    DayIsPast(DayOf(year, month0, day), rest);
    if YearOf(n) < year {
      YearsAdvance(YearOf(n) + 1, year);
    }
  }

  lemma DayIsPast(day: int, rest: int)
    requires rest >= 0
    ensures (day * DAY + rest) / DAY >= day
  {
  }

  lemma SecondsOfFloored(ms: int)
    ensures Floored(ms) == SecondAt(ms) * 1000 && SecondAt(Floored(ms)) == SecondAt(ms)
      && Floored(Floored(ms)) == Floored(ms)
    ensures SecondAt(SecondAt(ms) * 1000) == SecondAt(ms)
  {
  }

  lemma NamesItsSecond(second: int)
    requires 100 <= DateAt(second).year <= 9999
    ensures HasShape(TextAt(second)) && TimeNamed(TextAt(second)) == second * 1000
  {
    TextHasFields(second);
    FieldsNameTheirSecond(second);
  }

  /** A time reads back, to the second, exactly when its year is from 0100 to 9999. */
  lemma CompactTimeReadsBack(ms: int)
    requires CompactTime(ms).Some?
    ensures ReadCompactTime(CompactTime(ms).value) ==
      if 100 <= DateAt(SecondAt(ms)).year <= 9999 then Some(Floored(ms)) else None
  {
    var second := SecondAt(ms);
    var text, year := TextAt(second), DateAt(second).year;
    SecondsOfFloored(ms);
    if 100 <= year <= 9999 {
      NamesItsSecond(second);
    } else if 0 <= year < 100 {
      TextHasFields(second);
      OldYearsDoNotReadBack(second);
    } else {
      LongYear(year);
      TextLength(second);
    }
  }

  /** The years 0000 to 0099 are read as those of the twentieth century, and refused. */
  lemma OldYearsDoNotReadBack(second: int)
    requires 0 <= DateAt(second).year < 100 && HasShape(TextAt(second))
    ensures ReadCompactTime(TextAt(second)) == None
  {
    var text := TextAt(second);
    NamesALaterYear(second);
    if CompactTime(TimeNamed(text)) == Some(text) {
      SameTextSameYear(SecondAt(TimeNamed(text)), second);
    }
  }

  lemma NamesALaterYear(second: int)
    requires 0 <= DateAt(second).year < 100 && HasShape(TextAt(second))
    ensures DateAt(SecondAt(TimeNamed(TextAt(second)))).year >= 1900
  {
    var d, t := DateAt(second), TimeAt(second);
    TextHasFields(second);
    UtcIsLater(d.year, d.month - 1, d.day, t.hour, t.minute, t.second);
  }

  lemma UtcIsLater(year: int, month0: int, day: int, hour: int, minute: int, second: int)
    requires 0 <= year <= 99 && month0 >= 0 && day >= 1 && hour >= 0 && minute >= 0 && second >= 0
    ensures DateAt(SecondAt(Utc(year, month0, day, hour, minute, second))).year >= 1900
  {
    var rest := hour * 3600 + minute * 60 + second;
    YearNotBefore(1900 + year, month0, day, rest);
    var n := SecondsOf(1900 + year, month0, day, hour, minute, second);
    assert n == DayOf(1900 + year, month0, day) * DAY + rest;
    assert SecondAt(n * 1000) == n;
  }

  lemma SameTextSameYear(s: int, t: int)
    requires TextAt(s) == TextAt(t) && 0 <= DateAt(t).year <= 9999
    ensures DateAt(s).year == DateAt(t).year
  {
    TextHasFields(t);
    TextLength(s);
    if 0 <= DateAt(s).year <= 9999 {
      TextHasFields(s);
    } else {
      LongYear(DateAt(s).year);
    }
  }

  /**
   * A text accepted is the text of the time it was read as, whole to the second, in
   * the years 0100 to 9999; and every such time's text is accepted.
   */
  lemma AcceptedTextReprints(text: string, ms: int)
    ensures ReadCompactTime(text) == Some(ms) <==>
      CompactTime(ms) == Some(text) && Floored(ms) == ms && 100 <= DateAt(SecondAt(ms)).year <= 9999
  {
    if CompactTime(ms) == Some(text) {
      CompactTimeReadsBack(ms);
    }
  }

  /** The time a text of the shape names is never out of a date's range: reading never throws. */
  lemma ReadingNeverThrows(text: string)
    requires HasShape(text)
    ensures CompactTime(TimeNamed(text)).Some?
  {
    NumberBelow(text, 0, 4);
    NumberBelow(text, 4, 6);
    NumberBelow(text, 6, 8);
    NumberBelow(text, 9, 11);
    NumberBelow(text, 11, 13);
    NumberBelow(text, 13, 15);
    var y := Number(text, 0, 4);
    DayInRange(if 0 <= y <= 99 then 1900 + y else y, Number(text, 4, 6) - 1, Number(text, 6, 8));
    SecondsOfFloored(TimeNamed(text));
  }

  /** Any year a text may name, its months carried over, begins within so many days of 1970. */
  lemma YearInRange(z: int)
    requires -1 <= z <= 10008
    ensures -800_000 <= DayFromYear(z) <= 3_900_000
  {
    YearsAdvance(-1, z);
    YearsAdvance(z, 10008);
    DayFromYearIsTheFormula(-1);
    DayFromYearIsTheFormula(10008);
  }

  lemma MonthInYear(m: int, leap: bool)
    requires 0 <= m < 12
    ensures 0 <= MonthStart(m, leap) <= 366
  {
    MonthsAdvance(m, 12, leap);
    MonthsAdvance(0, m, leap);
    MonthsMakeAYear(leap);
  }

  lemma DayInRange(year: int, month0: int, day: int)
    requires 0 <= year <= 9999 && -1 <= month0 < 99 && 0 <= day < 100
    ensures -1_000_000 <= DayOf(year, month0, day) <= 4_000_000
  {
    var z, m := year + month0 / 12, month0 % 12;
    YearInRange(z);
    MonthInYear(m, Leap(z));
  }

  lemma NumberBelow(text: string, from: int, to: int)
    requires 0 <= from <= to <= |text| && AllDigits(text[from..to])
    ensures to - from == 2 ==> Number(text, from, to) < 100
    ensures to - from == 4 ==> Number(text, from, to) < 10000
  {
    ValueBelow(text[from..to], 10);
    assert Pow(10, 1) == 10 * Pow(10, 0);
    assert Pow(10, 2) == 10 * Pow(10, 1);
    assert Pow(10, 3) == 10 * Pow(10, 2);
    assert Pow(10, 4) == 10 * Pow(10, 3);
  }
}
