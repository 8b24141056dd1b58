/** ISO week years and week numbers, as the time formatter computes them, against the calendar itself. */
module IsoWeek {

  /** Division and remainder as in C: toward zero. */
  function Quotient(a: int, b: int): int
    requires b > 0
  {
    if a >= 0 then a / b else -((-a) / b)
  }

  function Remainder(a: int, b: int): int
    requires b > 0
  {
    a - b * Quotient(a, b)
  }

  const DAYS_PER_WEEK := 7

  function YearShift(year: int): int {
    Remainder(year + Quotient(year, 4) - Quotient(year, 100) + Quotient(year, 400), DAYS_PER_WEEK)
  }

  function IsoYearWeeks(year: int): int {
    52 + if YearShift(year) == 4 || YearShift(year - 1) == 3 then 1 else 0
  }

  /** wday counts from Sunday. */
  function IsoWeekNum(yday: int, wday: int): int {
    Quotient(yday + 11 - (if wday == 0 then DAYS_PER_WEEK else wday), DAYS_PER_WEEK)
  }

  function IsoWeekYear(year: int, yday: int, wday: int): int {
    var w := IsoWeekNum(yday, wday);
    if w < 1 then year - 1 else if w > IsoYearWeeks(year) then year + 1 else year
  }

  function IsoWeekOfYear(year: int, yday: int, wday: int): int {
    var w := IsoWeekNum(yday, wday);
    if w < 1 then IsoYearWeeks(year - 1) else if w > IsoYearWeeks(year) then 1 else w
  }

  // The Gregorian calendar.

  predicate Leap(year: int) {
    year % 4 == 0 && (year % 100 != 0 || year % 400 == 0)
  }

  function YearLength(year: int): int {
    if Leap(year) then 366 else 365
  }

  /** Days from the first of January of the year -1 to that of the given year, negative for earlier years. */
  function DaysBefore(year: int): int
    decreases if year < -1 then -year else year + 1
  {
    if year == -1 then 0
    else if year < -1 then DaysBefore(year + 1) - YearLength(year)
    else DaysBefore(year - 1) + YearLength(year - 1)
  }

  /** The day of the week, counted from Monday. Day 0, the first of January of the year -1, is a Friday. */
  function MondayIndex(day: int): int {
    (day + 4) % 7
  }

  /** The same counted from Sunday, as struct tm has it. */
  function SundayIndex(day: int): int {
    (MondayIndex(day) + 1) % 7
  }

  /** The Thursday of the week of a day, weeks starting on Mondays. */
  function Thursday(day: int): int {
    day - MondayIndex(day) + 3
  }

  /** Section 2.2.10 of ISO 8601:2004: a week belongs to the year that has its Thursday, and week 1 is the one with
      the first Thursday. */
  ghost predicate IsIsoWeek(day: int, year: int, week: int) {
    && DaysBefore(year) <= Thursday(day) < DaysBefore(year + 1)
    && week == (Thursday(day) - DaysBefore(year)) / 7 + 1
  }

  /** The first of January of year 1 was a Monday. */
  lemma YearOneStartsOnMonday()
    ensures DaysBefore(1) == 731 && MondayIndex(DaysBefore(1)) == 0
  {
    assert DaysBefore(0) == 365;
  }

  /** Leap years in closed form. */
  lemma {:induction false} LeapCount(year: nat)
    ensures DaysBefore(year + 1) == 731 + 365 * year + year / 4 - year / 100 + year / 400
  {
    if year == 0 {
      YearOneStartsOnMonday();
    } else {
      LeapCount(year - 1);
      NextQuotients(year);
    }
  }

  lemma NextQuotients(year: int)
    requires year > 0
    ensures year / 4 - year / 100 + year / 400 ==
            (year - 1) / 4 - (year - 1) / 100 + (year - 1) / 400 + if Leap(year) then 1 else 0
  {
    NextQuotient(year, 4);
    NextQuotient(year, 100);
    NextQuotient(year, 400);
    Centuries(year);
  }

  lemma NextQuotient(year: int, n: int)
    requires year > 0 && (n == 4 || n == 100 || n == 400)
    ensures year / n == (year - 1) / n + if year % n == 0 then 1 else 0
  {
  }

  lemma Centuries(year: int)
    ensures year % 400 == 0 ==> year % 100 == 0
    ensures year % 100 == 0 ==> year % 4 == 0
  {
  }

  /** What the code computes for a year is the day of the week on which the next one starts. */
  lemma ShiftIsNextNewYear(year: nat)
    ensures YearShift(year) == MondayIndex(DaysBefore(year + 1))
  {
    LeapCount(year);
    var p := year + year / 4 - year / 100 + year / 400;
    QuotientsDecrease(year);
    assert DaysBefore(year + 1) + 4 == p + 7 * (52 * year + 105);
    WholeWeeks(p, 52 * year + 105);
  }

  lemma QuotientsDecrease(year: nat)
    ensures year / 4 - year / 100 + year / 400 >= 0
  {
  }

  lemma WholeWeeks(p: int, weeks: int)
    ensures (p + 7 * weeks) % 7 == p % 7
  {
  }

  /** A year that starts or ends on a Thursday. */
  predicate LongYear(year: int) {
    MondayIndex(DaysBefore(year)) == 3 || MondayIndex(DaysBefore(year + 1)) == 4
  }

  /** Truncation toward zero leaves no positive remainder for a negative year. */
  lemma NegativeShift(year: int)
    requires year < 0
    ensures YearShift(year) <= 0
  {
    var n := -year;
    assert year + Quotient(year, 4) - Quotient(year, 100) + Quotient(year, 400) == -(n + n / 4 - n / 100 + n / 400);
  }

  /** From year 0 on, the long years have 53 weeks. Before it, the code lets no year have more than 52. */
  lemma WeeksOfYear(year: int)
    ensures IsoYearWeeks(year) == 52 + if year >= 0 && LongYear(year) then 1 else 0
  {
    hide YearShift;
    if year >= 1 {
      ShiftIsNextNewYear(year);
      ShiftIsNextNewYear(year - 1);
    } else {
      NegativeShift(year - 1);
      if year < 0 {
        NegativeShift(year);
      } else {
        ShiftIsNextNewYear(0);
        YearOneStartsOnMonday();
        assert DaysBefore(0) == 365;
      }
    }
  }

  /** The Thursday relative to the new year, when the new year is j days after a Monday. */
  lemma ThursdayInYear(start: int, yday: int, j: int, m: int)
    requires j == MondayIndex(start) && m == (j + yday) / 7
    ensures Thursday(start + yday) - start == 7 * m + 3 - j
    ensures MondayIndex(start + yday) == j + yday - 7 * m && 0 <= j + yday - 7 * m < 7
  {
    var n := (start + 4) / 7;
    assert start + yday + 4 == 7 * (n + m) + (j + yday - 7 * m);
  }

  /** Each new year is one day of the week later, or two after a leap year. */
  lemma YearTurns(year: int)
    ensures var j := MondayIndex(DaysBefore(year));
      MondayIndex(DaysBefore(year + 1)) ==
      if j + YearLength(year) - 364 < 7 then j + YearLength(year) - 364 else j + YearLength(year) - 371
    ensures DaysBefore(year + 1) == DaysBefore(year) + YearLength(year)
  {
    hide Leap;
    var start := DaysBefore(year);
    ShiftedWeekday(start + 4, YearLength(year));
  }

  lemma ShiftedWeekday(n: int, length: int)
    requires length == 365 || length == 366
    ensures (n + length) % 7 == if n % 7 + length - 364 < 7 then n % 7 + length - 364 else n % 7 + length - 371
  {
  }

  /** A year has a Thursday in its week 53 just when it is long. */
  lemma WeekFiftyThree(t: int, j: int, m: int, length: int, long: bool)
    requires 0 <= j < 7 && t == 7 * m + 3 - j && (length == 365 || length == 366)
    requires long <==> j == 3 || j + length - 364 == 4 || j + length - 371 == 4
    ensures 364 <= t < length ==> long
    ensures long && t >= 364 ==> t < length || t >= 371
  {
  }

  /** Likewise for the Thursday of days that come before the next new year. */
  lemma WeekBeforeYear(t: int, k: int, length: int, long: bool)
    requires 0 <= k < 7 && -3 <= t < 0 && (length == 365 || length == 366)
    requires var j := if k + length - 364 < 7 then k + length - 364 else k + length - 371;
      t == 3 - j && (long <==> k == 3 || j == 4)
    ensures (length + t) / 7 + 1 == if long then 53 else 52
  {
  }

  /** The week of the standard for a day whose Thursday is t days after the new year of the day's year. */
  function TrueYear(year: int, t: int): int {
    if t < 0 then year - 1 else if t < YearLength(year) then year else year + 1
  }

  function TrueWeek(year: int, t: int): int {
    if t < 0 then (YearLength(year - 1) + t) / 7 + 1 else if t < YearLength(year) then t / 7 + 1 else 1
  }

  lemma TrueIsIso(year: int, day: int, t: int)
    requires t == Thursday(day) - DaysBefore(year) && -3 <= t < YearLength(year) + 3
    ensures IsIsoWeek(day, TrueYear(year, t), TrueWeek(year, t))
  {
    hide Leap, Thursday;
    YearTurns(year - 1);
    YearTurns(year);
    YearTurns(year + 1);
  }

  /** What the code computes: the same, except that negative years never get a week 53. */
  lemma CodeWeek(year: int, t: int, w: int, j: int, k: int)
    requires -3 <= t < YearLength(year) + 3 && w == (t + 7) / 7 && (t - 3 + j) % 7 == 0
    requires j == MondayIndex(DaysBefore(year)) && k == MondayIndex(DaysBefore(year - 1))
    ensures w < 1 <==> t < 0
    ensures t < 0 ==> (IsoYearWeeks(year - 1) == TrueWeek(year, t) <==> !(year <= 0 && TrueWeek(year, t) == 53))
    ensures t >= 0 ==> (w > IsoYearWeeks(year) <==> t >= YearLength(year) || (year < 0 && TrueWeek(year, t) == 53))
    ensures 0 <= t < YearLength(year) ==> w == TrueWeek(year, t)
  {
    hide DaysBefore, Leap, MondayIndex, IsoYearWeeks;
    IndexRange(DaysBefore(year));
    IndexRange(DaysBefore(year - 1));
    YearTurns(year - 1);
    YearTurns(year);
    if t < 0 {
      WeeksOfYear(year - 1);
      WeekBeforeYear(t, k, YearLength(year - 1), LongYear(year - 1));
    } else {
      WeeksOfYear(year);
      WeekFiftyThree(t, j, (t - 3 + j) / 7, YearLength(year), LongYear(year));
    }
  }

  /** The guard a caller can check: the Thursday falls into the days 364 and 365 of a negative year. */
  predicate LosesWeek(year: int, yday: int, wday: int) {
    var t := yday - (wday + 6) % 7 + 3;
    (year < 0 && 364 <= t < YearLength(year)) || (year <= 0 && t < 0 && YearLength(year - 1) + t >= 364)
  }

  ghost predicate InLostWeek(day: int) {
    exists year :: year < 0 && IsIsoWeek(day, year, 53)
  }

  /** For every date with its true day of the week, year and week are those of the standard, unless that is the week 53
      of a negative year. */
  lemma IsoWeekRightIff(year: int, yday: int, wday: int)
    requires 0 <= yday < YearLength(year) && wday == SundayIndex(DaysBefore(year) + yday)
    ensures IsIsoWeek(DaysBefore(year) + yday, IsoWeekYear(year, yday, wday), IsoWeekOfYear(year, yday, wday))
       <==> !LosesWeek(year, yday, wday)
    ensures LosesWeek(year, yday, wday) <==> InLostWeek(DaysBefore(year) + yday)
  {
    hide DaysBefore, Leap, YearShift, IsoYearWeeks, Thursday, MondayIndex, IsoWeekNum, IsIsoWeek;
    var start := DaysBefore(year);
    var day := start + yday;
    var j := MondayIndex(start);
    var m := (j + yday) / 7;
    IndexRange(start);
    ThursdayInYear(start, yday, j, m);
    var t := 7 * m + 3 - j;
    WeekNumber(yday, wday, j + yday - 7 * m);
    assert t - 3 + j == 7 * m;
    TrueIsIso(year, day, t);
    CodeWeek(year, t, IsoWeekNum(yday, wday), j, MondayIndex(DaysBefore(year - 1)));
    var y, w := IsoWeekYear(year, yday, wday), IsoWeekOfYear(year, yday, wday);
    if IsIsoWeek(day, y, w) {
      IsoWeekIsUnique(day, y, w, TrueYear(year, t), TrueWeek(year, t));
    }
    if y0 :| y0 < 0 && IsIsoWeek(day, y0, 53) {
      IsoWeekIsUnique(day, y0, 53, TrueYear(year, t), TrueWeek(year, t));
    }
  }

  lemma IndexRange(day: int)
    ensures 0 <= MondayIndex(day) < 7
  {
  }

  lemma WeekNumber(yday: int, wday: int, i: int)
    requires yday >= 0 && 0 <= i < 7 && wday == (i + 1) % 7
    ensures IsoWeekNum(yday, wday) == (yday - i + 10) / 7 && i == (wday + 6) % 7
  {
  }

  lemma {:induction false} YearsFollow(a: int, b: int)
    requires a <= b
    ensures DaysBefore(a) <= DaysBefore(b)
    decreases b - a
  {
    if a < b {
      YearsFollow(a, b - 1);
    }
  }

  /** The standard leaves no choice. */
  lemma IsoWeekIsUnique(day: int, y1: int, w1: int, y2: int, w2: int)
    requires IsIsoWeek(day, y1, w1) && IsIsoWeek(day, y2, w2)
    ensures y1 == y2 && w1 == w2
  {
    if y1 < y2 {
      YearsFollow(y1 + 1, y2);
    } else if y2 < y1 {
      YearsFollow(y2 + 1, y1);
    }
  }

  /** The first of January of the year -1 is a Friday; the Thursday before it is in the week 53 of the year -2, but
      the code says 52. */
  lemma NegativeYearGoesWrong()
    ensures SundayIndex(DaysBefore(-1)) == 5 && IsoWeekYear(-1, 0, 5) == -2 && IsoWeekOfYear(-1, 0, 5) == 52
    ensures IsIsoWeek(DaysBefore(-1), -2, 53) && LosesWeek(-1, 0, 5)
  {
    assert DaysBefore(-2) == -365;
  }
}
