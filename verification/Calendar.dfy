/** Dates and clock times as text: the Gregorian calendar counted in days from 1970-01-01, and clock times
 in nanoseconds from midnight. */
module Calendar {
  import opened Wrappers
  import opened Text

  // ---------------------------------------------------------------------------------------------------
  // The calendar
  // ---------------------------------------------------------------------------------------------------

  datatype Date = Date(year: int, month: nat, day: nat)

  predicate Leap(year: int) { year % 4 == 0 && (year % 100 != 0 || year % 400 == 0) }

  function MonthDays(year: int, month: nat): (days: nat)
    ensures 28 <= days <= 31
  {
    if month == 2 then if Leap(year) then 29 else 28
    else if month == 4 || month == 6 || month == 9 || month == 11 then 30
    else 31
  }

  predicate Valid(d: Date) { 1 <= d.month <= 12 && 1 <= d.day <= MonthDays(d.year, d.month) }

  /** The leap years up to a year, counted from year 0 on. */
  function LeapsThrough(year: int): int { year / 4 - year / 100 + year / 400 }

  /** The day number of a year's first day. */
  function YearStart(year: int): int { 365 * (year - 1970) + LeapsThrough(year - 1) - LeapsThrough(1969) }

  function YearDays(year: int): nat { if Leap(year) then 366 else 365 }

  lemma YearStartStep(year: int)
    ensures YearStart(year + 1) == YearStart(year) + YearDays(year)
  {
    QuotientSteps(year, 4);
    QuotientSteps(year, 100);
    QuotientSteps(year, 400);
  }

  lemma QuotientSteps(n: int, k: int)
    requires k == 4 || k == 100 || k == 400
    ensures n / k == (n - 1) / k + (if n % k == 0 then 1 else 0)
  {
  }

  /** The days of a year before a month. */
  function MonthStart(year: int, month: nat): nat
    requires 1 <= month <= 13
  {
    if month == 1 then 0 else MonthStart(year, month - 1) + MonthDays(year, month - 1)
  }

  lemma YearIsItsMonths(year: int)
    ensures MonthStart(year, 13) == YearDays(year)
  {
    assert MonthStart(year, 2) == 31;
    assert MonthStart(year, 3) == YearDays(year) - 306;
    assert MonthStart(year, 5) == YearDays(year) - 245;
    assert MonthStart(year, 7) == YearDays(year) - 184;
    assert MonthStart(year, 9) == YearDays(year) - 122;
    assert MonthStart(year, 11) == YearDays(year) - 61;
  }

  /** The day number of a date. */
  function DaysOf(d: Date): int
    requires Valid(d)
  {
    YearStart(d.year) + MonthStart(d.year, d.month) + d.day - 1
  }

  function NextDay(d: Date): (next: Date)
    requires Valid(d)
    ensures Valid(next)
  {
    if d.day < MonthDays(d.year, d.month) then Date(d.year, d.month, d.day + 1)
    else if d.month < 12 then Date(d.year, d.month + 1, 1)
    else Date(d.year + 1, 1, 1)
  }

  function PreviousDay(d: Date): (previous: Date)
    requires Valid(d)
    ensures Valid(previous)
  {
    if d.day > 1 then Date(d.year, d.month, d.day - 1)
    else if d.month > 1 then Date(d.year, d.month - 1, MonthDays(d.year, d.month - 1))
    else Date(d.year - 1, 12, 31)
  }

  /** The date of a day number: the days one after another, from 1970-01-01. */
  function DateOf(days: int): (d: Date)
    ensures Valid(d)
    decreases if days < 0 then -days else days
  {
    if days == 0 then Date(1970, 1, 1)
    else if days > 0 then NextDay(DateOf(days - 1))
    else PreviousDay(DateOf(days + 1))
  }

  lemma NextDayIsOneMore(d: Date)
    requires Valid(d)
    ensures DaysOf(NextDay(d)) == DaysOf(d) + 1
  {
    YearStartStep(d.year);
    YearIsItsMonths(d.year);
  }

  lemma PreviousDayIsOneLess(d: Date)
    requires Valid(d)
    ensures DaysOf(PreviousDay(d)) == DaysOf(d) - 1
  {
    YearStartStep(d.year - 1);
    YearIsItsMonths(d.year - 1);
  }

  lemma {:induction false} DateOfIsItsDay(days: int)
    ensures DaysOf(DateOf(days)) == days
    decreases if days < 0 then -days else days
  {
    if days > 0 {
      DateOfIsItsDay(days - 1);
      NextDayIsOneMore(DateOf(days - 1));
    } else if days < 0 {
      DateOfIsItsDay(days + 1);
      PreviousDayIsOneLess(DateOf(days + 1));
    }
  }

  lemma {:induction false} YearsAreOrdered(a: int, b: int)
    requires a < b
    ensures YearStart(a) + YearDays(a) <= YearStart(b)
    decreases b - a
  {
    YearStartStep(a);
    if a + 1 < b {
      YearsAreOrdered(a + 1, b);
    }
  }

  lemma {:induction false} MonthsAreOrdered(year: int, a: nat, b: nat)
    requires 1 <= a < b <= 13
    ensures MonthStart(year, a) + MonthDays(year, a) <= MonthStart(year, b)
    decreases b - a
  {
    if a + 1 < b {
      MonthsAreOrdered(year, a, b - 1);
    }
  }

  lemma DayFitsItsYear(d: Date)
    requires Valid(d)
    ensures YearStart(d.year) <= DaysOf(d) < YearStart(d.year) + YearDays(d.year)
  {
    MonthsAreOrdered(d.year, d.month, 13);
    YearIsItsMonths(d.year);
  }

  // ---------------------------------------------------------------------------------------------------
  // Numerals of a fixed width
  // ---------------------------------------------------------------------------------------------------

  /** The last `width` digits of a number. */
  function Numeral(n: nat, width: nat): (s: string)
    ensures |s| == width && AllDigits(s)
  {
    if width == 0 then "" else Numeral(n / 10, width - 1) + [Digit(n % 10)]
  }

  lemma {:induction false} NumeralReads(n: nat, width: nat)
    requires n < Power10(width)
    ensures DigitsValue(Numeral(n, width)) == n
    decreases width
  {
    if width > 0 {
      NumeralReads(n / 10, width - 1);
      var s := Numeral(n, width);
      assert s[..|s| - 1] == Numeral(n / 10, width - 1);
    }
  }

  lemma TwoDigits(n: nat)
    requires n < 100
    ensures |Numeral(n, 2)| == 2 && DigitsValue(Numeral(n, 2)) == n
  {
    assert Power10(1) == 10 && Power10(2) == 100;
    NumeralReads(n, 2);
  }

  predicate OneOrTwoDigits(s: string) { 1 <= |s| <= 2 && AllDigits(s) }

  lemma DigitsExclude(s: string, c: char)
    requires AllDigits(s) && !IsDigit(c)
    ensures c !in s
  {
  }

  // ---------------------------------------------------------------------------------------------------
  // Dates as text
  // ---------------------------------------------------------------------------------------------------

  /** A year of four digits, or one with a sign outside 0 to 9999. */
  function YearText(year: int): string {
    if 0 <= year <= 9999 then Numeral(year, 4)
    else if year < 0 then "-" + (if -9999 <= year then Numeral(-year, 4) else NatText(-year))
    else "+" + NatText(year)
  }

  function DateText(d: Date): string {
    Join([YearText(d.year), Numeral(d.month, 2), Numeral(d.day, 2)], "-")
  }

  /** Reads a date of a year from 0001 to 9999. */
  function ReadDate(s: string): Option<int> {
    var parts := Split(s, '-');
    if |parts| == 3 && |parts[0]| == 4 && AllDigits(parts[0]) && OneOrTwoDigits(parts[1]) && OneOrTwoDigits(parts[2])
    then
      var d := Date(DigitsValue(parts[0]), DigitsValue(parts[1]), DigitsValue(parts[2]));
      if 1 <= d.year && Valid(d) then Some(DaysOf(d)) else None
    else None
  }

  predicate ReadableYear(year: int) { 1 <= year <= 9999 }

  lemma JoinThree(a: string, b: string, c: string, separator: string)
    ensures Join([a, b, c], separator) == a + separator + (b + separator + c)
  {
    assert [a, b, c][1..] == [b, c] && [b, c][1..] == [c];
    assert Join([c], separator) == c;
    assert Join([b, c], separator) == b + separator + c;
  }

  lemma SplitThree(a: string, b: string, c: string, separator: char)
    requires separator !in a && separator !in b && separator !in c
    ensures Split(Join([a, b, c], [separator]), separator) == [a, b, c]
  {
    SplitUndoesJoin([a, b, c], separator);
  }

  lemma FourDigits(n: nat)
    requires n <= 9999
    ensures |Numeral(n, 4)| == 4 && DigitsValue(Numeral(n, 4)) == n
  {
    assert Power10(1) == 10 && Power10(2) == 100 && Power10(3) == 1000 && Power10(4) == 10000;
    NumeralReads(n, 4);
  }

  /** Every year can be read off its text: four digits, behind a minus when it is negative,
    * and more behind a sign when four do not do. */
  lemma YearTextReads(year: int)
    ensures var text := YearText(year);
            if 0 <= year <= 9999 then |text| == 4 && AllDigits(text) && DigitsValue(text) == year
            else
              && |text| > 1 && text[0] == (if year < 0 then '-' else '+') && AllDigits(text[1..])
              && DigitsValue(text[1..]) == (if year < 0 then -year else year)
              && (-9999 <= year < 0 ==> |text| == 5)
  {
    if 0 <= year <= 9999 {
      FourDigits(year);
    } else {
      var size := if year < 0 then -year else year;
      NatTextRoundTrip(size);
      if size <= 9999 {
        FourDigits(size);
      }
    }
  }

  lemma DatePartsSplit(d: Date)
    requires Valid(d) && d.year >= 0
    ensures Split(DateText(d), '-') == [YearText(d.year), Numeral(d.month, 2), Numeral(d.day, 2)]
  {
    DigitsExclude(Numeral(d.year, 4), '-');
    DigitsExclude(Numeral(d.month, 2), '-');
    DigitsExclude(Numeral(d.day, 2), '-');
    assert "-" == ['-'];
    SplitThree(YearText(d.year), Numeral(d.month, 2), Numeral(d.day, 2), '-');
  }

  lemma NegativeYearStarts(d: Date)
    requires d.year < 0
    ensures DateText(d) != "" && DateText(d)[0] == '-' && Split(DateText(d), '-')[0] == ""
  {
    JoinThree(YearText(d.year), Numeral(d.month, 2), Numeral(d.day, 2), "-");
  }

  /** A date reads back exactly when its year has four digits and is not zero. */
  lemma DateReads(d: Date)
    requires Valid(d)
    ensures ReadDate(DateText(d)) == if ReadableYear(d.year) then Some(DaysOf(d)) else None
  {
    if d.year < 0 {
      NegativeYearStarts(d);
    } else {
      DatePartsSplit(d);
      TwoDigits(d.month);
      TwoDigits(d.day);
      if d.year <= 9999 {
        FourDigits(d.year);
      } else {
        assert YearText(d.year)[0] == '+' && !AllDigits(YearText(d.year));
      }
    }
  }

  // ---------------------------------------------------------------------------------------------------
  // Clock times as text
  // ---------------------------------------------------------------------------------------------------

  /** Fraction digits in groups of three, as few as the nanoseconds need. */
  function FractionText(nanos: nat): string
    requires nanos < 1_000_000_000
  {
    if nanos == 0 then ""
    else if nanos % 1_000_000 == 0 then "." + Numeral(nanos / 1_000_000, 3)
    else if nanos % 1_000 == 0 then "." + Numeral(nanos / 1_000, 6)
    else "." + Numeral(nanos, 9)
  }

  /** Hours, minutes, seconds, and the given text of what is left. */
  function ClockText(seconds: nat, fraction: string): string
    requires seconds < 86_400
  {
    Join([Numeral(seconds / 3600, 2), Numeral(seconds / 60 % 60, 2), Numeral(seconds % 60, 2) + fraction], ":")
  }

  /** Nothing, or a point and one to nine digits, in nanoseconds. */
  function ReadFraction(s: string): Option<nat> {
    if s == "" then Some(0)
    else if s[0] == '.' && 2 <= |s| <= 10 && AllDigits(s[1..]) then Some(DigitsValue(s[1..]) * Power10(10 - |s|))
    else None
  }

  /** Seconds of two digits and their fraction, in nanoseconds. */
  function ReadSeconds(s: string): Option<nat> {
    if |s| < 2 || !AllDigits(s[..2]) || DigitsValue(s[..2]) >= 60 then None
    else
      var fraction := ReadFraction(s[2..]);
      if fraction.None? then None else Some(DigitsValue(s[..2]) * 1_000_000_000 + fraction.value)
  }

  function ReadClock(s: string): Option<nat> {
    var parts := Split(s, ':');
    if |parts| == 3 && OneOrTwoDigits(parts[0]) && OneOrTwoDigits(parts[1])
       && DigitsValue(parts[0]) < 24 && DigitsValue(parts[1]) < 60
    then
      var seconds := ReadSeconds(parts[2]);
      if seconds.None? then None
      else Some((DigitsValue(parts[0]) * 60 + DigitsValue(parts[1])) * 60 * 1_000_000_000 + seconds.value)
    else None
  }

  lemma PointedFraction(n: nat, width: nat)
    requires 1 <= width <= 9 && n < Power10(width)
    ensures ReadFraction("." + Numeral(n, width)) == Some(n * Power10(9 - width))
  {
    NumeralReads(n, width);
    var s := "." + Numeral(n, width);
    assert s[1..] == Numeral(n, width) && |s| == width + 1;
  }

  lemma Powers()
    ensures Power10(0) == 1 && Power10(3) == 1_000 && Power10(6) == 1_000_000 && Power10(9) == 1_000_000_000
  {
    assert Power10(1) == 10 && Power10(2) == 100;
    assert Power10(4) == 10_000 && Power10(5) == 100_000;
    assert Power10(7) == 10_000_000 && Power10(8) == 100_000_000;
  }

  lemma FractionReads(nanos: nat)
    requires nanos < 1_000_000_000
    ensures ReadFraction(FractionText(nanos)) == Some(nanos)
    ensures ':' !in FractionText(nanos)
  {
    Powers();
    if nanos == 0 {
    } else if nanos % 1_000_000 == 0 {
      PointedFraction(nanos / 1_000_000, 3);
    } else if nanos % 1_000 == 0 {
      PointedFraction(nanos / 1_000, 6);
    } else {
      PointedFraction(nanos, 9);
    }
  }

  lemma MicrosRead(micros: nat)
    requires micros < 1_000_000
    ensures ReadFraction("." + Numeral(micros, 6)) == Some(micros * 1_000)
    ensures ':' !in "." + Numeral(micros, 6)
  {
    Powers();
    PointedFraction(micros, 6);
  }

  lemma SecondsRead(seconds: nat, fraction: string, nanos: nat)
    requires seconds < 60 && ReadFraction(fraction) == Some(nanos)
    ensures ReadSeconds(Numeral(seconds, 2) + fraction) == Some(seconds * 1_000_000_000 + nanos)
  {
    TwoDigits(seconds);
    var s := Numeral(seconds, 2) + fraction;
    assert s[..2] == Numeral(seconds, 2) && s[2..] == fraction;
  }

  lemma ClockPartsSplit(seconds: nat, fraction: string)
    requires seconds < 86_400 && ':' !in fraction
    ensures Split(ClockText(seconds, fraction), ':') ==
            [Numeral(seconds / 3600, 2), Numeral(seconds / 60 % 60, 2), Numeral(seconds % 60, 2) + fraction]
  {
    DigitsExclude(Numeral(seconds / 3600, 2), ':');
    DigitsExclude(Numeral(seconds / 60 % 60, 2), ':');
    DigitsExclude(Numeral(seconds % 60, 2), ':');
    assert ":" == [':'];
    SplitThree(Numeral(seconds / 3600, 2), Numeral(seconds / 60 % 60, 2), Numeral(seconds % 60, 2) + fraction, ':');
  }

  lemma SecondsOfDay(seconds: nat)
    requires seconds < 86_400
    ensures seconds / 3600 < 24
    ensures (seconds / 3600 * 60 + seconds / 60 % 60) * 60 + seconds % 60 == seconds
  {
  }

  /** A clock time reads back, to the nanosecond its fraction says. */
  lemma ClockReads(seconds: nat, fraction: string, nanos: nat)
    requires seconds < 86_400 && ReadFraction(fraction) == Some(nanos) && ':' !in fraction
    ensures ReadClock(ClockText(seconds, fraction)) == Some(seconds * 1_000_000_000 + nanos)
  {
    ClockPartsSplit(seconds, fraction);
    SecondsOfDay(seconds);
    TwoDigits(seconds / 3600);
    TwoDigits(seconds / 60 % 60);
    SecondsRead(seconds % 60, fraction, nanos);
  }

  // ---------------------------------------------------------------------------------------------------
  // Dates with clock times
  // ---------------------------------------------------------------------------------------------------

  /** A point in time, in nanoseconds from the start of 1970, as a date and a clock time. */
  function DatetimeText(nanos: int): string {
    DayText(nanos / 86_400_000_000_000) + (" " + TimeOfDayText(nanos % 86_400_000_000_000))
  }

  function DayText(days: int): string { DateText(DateOf(days)) }

  function TimeOfDayText(rest: nat): string
    requires rest < 86_400_000_000_000
  {
    ClockText(rest / 1_000_000_000, FractionText(rest % 1_000_000_000))
  }

  function ReadDatetime(s: string): Option<int> {
    var space := IndexOf(s, ' ');
    if space == |s| then None
    else
      var days, clock := ReadDate(s[..space]), ReadClock(s[space + 1..]);
      if days.None? || clock.None? then None else Some(days.value * 86_400_000_000_000 + clock.value)
  }

  const FIRST_DAY: int := -719_162
  const LAST_DAY: int := 2_932_896

  /** From 0001-01-01 to 9999-12-31. */
  predicate ReadableDay(days: int) { FIRST_DAY <= days <= LAST_DAY }

  lemma BoundsAreYears()
    ensures YearStart(1) == FIRST_DAY && YearStart(10000) == LAST_DAY + 1
  {
  }

  lemma YearsOfDays(year: int, days: int)
    requires YearStart(year) <= days < YearStart(year) + YearDays(year)
    ensures ReadableDay(days) <==> ReadableYear(year)
  {
    BoundsAreYears();
    if year < 1 {
      YearsAreOrdered(year, 1);
    } else if year > 9999 {
      if year > 10000 {
        YearsAreOrdered(10000, year);
      }
    } else {
      YearsAreOrdered(year, 10000);
      if year > 1 {
        YearsAreOrdered(1, year);
      }
    }
  }

  lemma ReadableDaysAreYears(days: int)
    ensures ReadableDay(days) <==> ReadableYear(DateOf(days).year)
  {
    DateOfIsItsDay(days);
    DayFitsItsYear(DateOf(days));
    YearsOfDays(DateOf(days).year, days);
  }

  /** The first day after year 9999 is in a year just after it. */
  lemma DayAfterTheLast()
    ensures 9999 < DateOf(LAST_DAY + 1).year < 10002
  {
    var d := DateOf(LAST_DAY + 1);
    DateOfIsItsDay(LAST_DAY + 1);
    DayFitsItsYear(d);
    ReadableDaysAreYears(LAST_DAY + 1);
    BoundsAreYears();
    if d.year < 10000 {
      YearsAreOrdered(d.year, 10000);
    } else if d.year > 10001 {
      YearStartStep(10000);
      YearsAreOrdered(10001, d.year);
    }
  }

  predicate ReadableDatetime(nanos: int) { ReadableDay(nanos / 86_400_000_000_000) }

  lemma DayReads(days: int)
    ensures ReadDate(DayText(days)) == if ReadableDay(days) then Some(days) else None
    ensures ' ' !in DayText(days)
  {
    DateOfIsItsDay(days);
    ReadableDaysAreYears(days);
    DateReads(DateOf(days));
    DateTextHasNoSpace(DateOf(days));
  }

  lemma DateTextHasNoSpace(d: Date)
    ensures ' ' !in DateText(d)
  {
    JoinThree(YearText(d.year), Numeral(d.month, 2), Numeral(d.day, 2), "-");
  }

  lemma SplitAtSpace(a: string, b: string)
    requires ' ' !in a
    ensures var s := a + (" " + b);
            IndexOf(s, ' ') == |a| && s[..|a|] == a && s[|a| + 1..] == b
  {
    var s := a + (" " + b);
    assert s[|a|] == ' ' && forall k :: 0 <= k < |a| ==> s[k] == a[k];
  }

  lemma SecondsAndNanosRead(seconds: nat, nanos: nat)
    requires seconds < 86_400 && nanos < 1_000_000_000
    ensures ReadClock(ClockText(seconds, FractionText(nanos))) == Some(seconds * 1_000_000_000 + nanos)
  {
    FractionReads(nanos);
    ClockReads(seconds, FractionText(nanos), nanos);
  }

  lemma SecondsAndRest(rest: nat)
    requires rest < 86_400_000_000_000
    ensures rest / 1_000_000_000 < 86_400
    ensures rest / 1_000_000_000 * 1_000_000_000 + rest % 1_000_000_000 == rest
  {
  }

  lemma TimeOfDayReads(rest: nat)
    requires rest < 86_400_000_000_000
    ensures ReadClock(TimeOfDayText(rest)) == Some(rest)
  {
    SecondsAndRest(rest);
    SecondsAndNanosRead(rest / 1_000_000_000, rest % 1_000_000_000);
  }

  lemma PartsRead(date: string, days: int, clock: string, rest: nat)
    requires ' ' !in date && ReadDate(date) == Some(days) && ReadClock(clock) == Some(rest)
    ensures ReadDatetime(date + (" " + clock)) == Some(days * 86_400_000_000_000 + rest)
  {
    SplitAtSpace(date, clock);
  }

  lemma PartsNeverRead(date: string, clock: string)
    requires ' ' !in date && ReadDate(date) == None
    ensures ReadDatetime(date + (" " + clock)) == None
  {
    SplitAtSpace(date, clock);
  }

  lemma DayAndTimeRead(days: int, rest: nat)
    requires rest < 86_400_000_000_000
    ensures ReadDatetime(DayText(days) + (" " + TimeOfDayText(rest))) ==
            if ReadableDay(days) then Some(days * 86_400_000_000_000 + rest) else None
  {
    var date, clock := DayText(days), TimeOfDayText(rest);
    DayReads(days);
    TimeOfDayReads(rest);
    if ReadableDay(days) {
      PartsRead(date, days, clock, rest);
    } else {
      PartsNeverRead(date, clock);
    }
  }

  lemma DayAndRest(nanos: int) returns (days: int, rest: nat)
    ensures days == nanos / 86_400_000_000_000 && rest == nanos % 86_400_000_000_000
    ensures rest < 86_400_000_000_000 && days * 86_400_000_000_000 + rest == nanos
  {
    days, rest := nanos / 86_400_000_000_000, nanos % 86_400_000_000_000;
  }

  /** A point in time reads back exactly when the year of its date does. */
  lemma DatetimeReads(nanos: int)
    ensures ReadDatetime(DatetimeText(nanos)) == if ReadableDatetime(nanos) then Some(nanos) else None
  {
    var days, rest := DayAndRest(nanos);
    DayAndTimeRead(days, rest);
    assert DatetimeText(nanos) == DayText(days) + (" " + TimeOfDayText(rest));
  }

  /** A sign and two digits of hours east of Greenwich, in nanoseconds. */
  function ReadZone(s: string): Option<int> {
    if |s| != 3 || !(s[0] == '+' || s[0] == '-') || !AllDigits(s[1..]) || DigitsValue(s[1..]) > 14 then None
    else Some((if s[0] == '-' then -1 else 1) * DigitsValue(s[1..]) * 3600 * 1_000_000_000)
  }

  /** A date, a clock time and the zone they are in; without a zone they are in UTC. */
  function ReadTimestamp(s: string): Option<int> {
    var cut := if |s| >= 3 then |s| - 3 else 0;
    var zone := ReadZone(s[cut..]);
    var local := ReadDatetime(if zone.Some? then s[..cut] else s);
    if local.None? then None else Some(local.value - (if zone.Some? then zone.value else 0))
  }

  lemma ZeroZone()
    ensures ReadZone("+00") == Some(0)
  {
    assert "+00"[1..] == "00" && "00"[..1] == "0" && "0"[..0] == "";
    assert DigitsValue("0") == 0 && DigitsValue("00") == 0;
  }

  lemma TimestampReads(nanos: int)
    ensures ReadTimestamp(DatetimeText(nanos) + "+00") == if ReadableDatetime(nanos) then Some(nanos) else None
  {
    var s := DatetimeText(nanos) + "+00";
    assert s[|s| - 3..] == "+00" && s[..|s| - 3] == DatetimeText(nanos);
    ZeroZone();
    DatetimeReads(nanos);
  }
}
