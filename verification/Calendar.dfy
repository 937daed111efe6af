/**
 * The UTC calendar of ECMA-262 section 21.4.1: day numbers, year, month and
 * date of a time value in milliseconds, and MakeDay with its normalisation of
 * months and dates that lie outside their usual range.
 *
 * Every `/` below has a positive constant divisor, so Dafny's Euclidean
 * division is the floor that ECMA-262 uses, also before 1970.
 */
module Calendar {

  const MS_PER_DAY: int := 86_400_000

  function Day(t: int): int { t / MS_PER_DAY }

  predicate Leap(y: int) {
    y % 4 == 0 && (y % 100 != 0 || y % 400 == 0)
  }

  function YearLength(y: int): int { if Leap(y) then 366 else 365 }

  /** The day number of 1 January of year y. */
  function DayFromYear(y: int): int {
    365 * (y - 1970) + (y - 1969) / 4 - (y - 1901) / 100 + (y - 1601) / 400
  }

  lemma FloorStep4(y: int)
    ensures (y - 1968) / 4 == (y - 1969) / 4 + if y % 4 == 0 then 1 else 0
  {
  }

  lemma FloorStep100(y: int)
    ensures (y - 1900) / 100 == (y - 1901) / 100 + if y % 100 == 0 then 1 else 0
  {
  }

  lemma FloorStep400(y: int)
    ensures (y - 1600) / 400 == (y - 1601) / 400 + if y % 400 == 0 then 1 else 0
  {
  }

  lemma LeapCounts(y: int)
    ensures (if y % 4 == 0 then 1 else 0) - (if y % 100 == 0 then 1 else 0) + (if y % 400 == 0 then 1 else 0)
         == if Leap(y) then 1 else 0
  {
    var q := y / 400;
    assert y == 400 * q + y % 400;
  }

  lemma DayFromYearStep(y: int)
    ensures DayFromYear(y + 1) == DayFromYear(y) + YearLength(y)
  {
    FloorStep4(y);
    FloorStep100(y);
    FloorStep400(y);
    LeapCounts(y);
    hide Leap;
  }

  lemma {:induction false} DayFromYearMonotone(a: int, b: int)
    requires a < b
    ensures DayFromYear(a) + 365 <= DayFromYear(b)
    decreases b - a
  {
    DayFromYearStep(b - 1);
    if a < b - 1 {
      DayFromYearMonotone(a, b - 1);
    }
  }

  lemma YearsAdvance(y: int)
    ensures DayFromYear(y - 1) < DayFromYear(y) < DayFromYear(y + 1)
  {
    DayFromYearStep(y);
    DayFromYearStep(y - 1);
    assert y - 1 + 1 == y;
    hide DayFromYear;
  }

  /** Walks from year y to the year that contains day d. */
  function YearNear(d: int, y: int): (r: int)
    ensures DayFromYear(r) <= d < DayFromYear(r + 1)
    decreases if d < DayFromYear(y) then DayFromYear(y) - d else 0,
              if d < DayFromYear(y) then 0 else d - DayFromYear(y)
  {
    YearsAdvance(y);
    if d < DayFromYear(y) then YearNear(d, y - 1)
    else if d < DayFromYear(y + 1) then y
    else YearNear(d, y + 1)
  }

  /** The year of day d: the y with DayFromYear(y) <= d < DayFromYear(y + 1). */
  function YearOf(d: int): (r: int)
    ensures DayFromYear(r) <= d < DayFromYear(r + 1)
  {
    YearNear(d, 1970)
  }

  lemma YearUnique(d: int, y: int)
    requires DayFromYear(y) <= d < DayFromYear(y + 1)
    ensures YearOf(d) == y
  {
    var r := YearOf(d);
    if r < y {
      if r + 1 < y { DayFromYearMonotone(r + 1, y); }
    } else if y < r {
      if y + 1 < r { DayFromYearMonotone(y + 1, r); }
    }
  }

  /** Day of the year on which month m (0 = January) starts; m = 12 is the year's end. */
  function MonthStart(m: int, leap: bool): int
    requires 0 <= m <= 12
  {
    var l := if leap then 1 else 0;
    if m == 0 then 0 else if m == 1 then 31 else if m == 2 then 59 + l
    else if m == 3 then 90 + l else if m == 4 then 120 + l else if m == 5 then 151 + l
    else if m == 6 then 181 + l else if m == 7 then 212 + l else if m == 8 then 243 + l
    else if m == 9 then 273 + l else if m == 10 then 304 + l else if m == 11 then 334 + l
    else 365 + l
  }

  /** The month, 0 to 11, in which the given day of the year lies. */
  function MonthIn(dayInYear: int, leap: bool): (m: int)
    requires 0 <= dayInYear < MonthStart(12, leap)
    ensures 0 <= m < 12
    ensures MonthStart(m, leap) <= dayInYear < MonthStart(m + 1, leap)
  {
    var l := if leap then 1 else 0;
    if dayInYear < 31 then 0 else if dayInYear < 59 + l then 1
    else if dayInYear < 90 + l then 2 else if dayInYear < 120 + l then 3
    else if dayInYear < 151 + l then 4 else if dayInYear < 181 + l then 5
    else if dayInYear < 212 + l then 6 else if dayInYear < 243 + l then 7
    else if dayInYear < 273 + l then 8 else if dayInYear < 304 + l then 9
    else if dayInYear < 334 + l then 10 else 11
  }

  function MonthOf(d: int): (m: int)
    ensures 0 <= m < 12
  {
    DayFromYearStep(YearOf(d));
    MonthIn(d - DayFromYear(YearOf(d)), Leap(YearOf(d)))
  }

  /** The date in the month, counted from 1. */
  function DateOf(d: int): int {
    d - DayFromYear(YearOf(d)) - MonthStart(MonthOf(d), Leap(YearOf(d))) + 1
  }

  /** ECMA-262 MakeDay: month and date may lie outside their usual range. */
  function MakeDay(year: int, month: int, date: int): int {
    var y := year + month / 12;
    DayFromYear(y) + MonthStart(month % 12, Leap(y)) + date - 1
  }

  lemma MakeDayNext(year: int, month: int, date: int)
    ensures MakeDay(year, month, date + 1) == MakeDay(year, month, date) + 1
  {
  }

  /** Splitting a day into its parts and putting them together again loses nothing. */
  lemma MakeDayInvertsParts(d: int)
    ensures MakeDay(YearOf(d), MonthOf(d), DateOf(d)) == d
    ensures 1 <= DateOf(d) <= 31
  {
    hide DayFromYear, YearNear, Leap;
    var y := YearOf(d);
    DayFromYearStep(y);
    var m := MonthIn(d - DayFromYear(y), Leap(y));
    assert MonthOf(d) == m && m / 12 == 0 && m % 12 == m;
  }

  lemma MonthFirstDay(y: int, m: int)
    requires 0 <= m <= 12
    ensures MakeDay(y, m, 1) == DayFromYear(y) + MonthStart(m, Leap(y))
  {
    if m == 12 {
      DayFromYearStep(y);
    }
  }

  /** The days from the first of a month up to the first of the next are exactly its days. */
  lemma MonthIsInterval(d: int, y: int, m: int)
    requires 0 <= m < 12
    ensures MakeDay(y, m, 1) <= d < MakeDay(y, m + 1, 1) <==> YearOf(d) == y && MonthOf(d) == m
  {
    var first, next := MakeDay(y, m, 1), MakeDay(y, m + 1, 1);
    assert first == DayFromYear(y) + MonthStart(m, Leap(y)) by { MonthFirstDay(y, m); }
    assert next == DayFromYear(y) + MonthStart(m + 1, Leap(y)) by { MonthFirstDay(y, m + 1); }
    YearMonthInterval(d, y, m, first, next);
  }

  lemma YearMonthInterval(d: int, y: int, m: int, first: int, next: int)
    requires 0 <= m < 12
    requires first == DayFromYear(y) + MonthStart(m, Leap(y))
    requires next == DayFromYear(y) + MonthStart(m + 1, Leap(y))
    ensures first <= d < next <==> YearOf(d) == y && MonthOf(d) == m
  {
    hide MonthIn, DayFromYear, Leap;
    DayFromYearStep(y);
    if YearOf(d) == y {
      MonthUniqueIff(d - DayFromYear(y), Leap(y), m);
    } else if first <= d < next {
      YearUnique(d, y);
      assert false;
    }
  }

  lemma MonthUniqueIff(k: int, leap: bool, m: int)
    requires 0 <= m < 12 && 0 <= k < MonthStart(12, leap)
    ensures MonthIn(k, leap) == m <==> MonthStart(m, leap) <= k < MonthStart(m + 1, leap)
  {
  }

  /** The number of days of month m (0 = January): thirty days hath September, and so on. */
  function DaysIn(y: int, m: int): int {
    if m == 3 || m == 5 || m == 8 || m == 10 then 30
    else if m == 1 then (if y % 400 == 0 || (y % 4 == 0 && y % 100 != 0) then 29 else 28)
    else 31
  }

  lemma MonthLengths(y: int, m: int)
    requires 0 <= m < 12
    ensures MonthStart(m + 1, Leap(y)) == MonthStart(m, Leap(y)) + DaysIn(y, m)
  {
  }

  /** The day of a valid date has that date. */
  lemma PartsOfDate(y: int, m: int, date: int)
    requires 0 <= m < 12 && 1 <= date <= DaysIn(y, m)
    ensures var d := DayFromYear(y) + MonthStart(m, Leap(y)) + date - 1;
            YearOf(d) == y && MonthOf(d) == m && DateOf(d) == date
  {
    hide MonthIn, DayFromYear, Leap, DaysIn, MonthStart;
    var d := DayFromYear(y) + MonthStart(m, Leap(y)) + date - 1;
    MonthLengths(y, m);
    YearMonthInterval(d, y, m, DayFromYear(y) + MonthStart(m, Leap(y)), DayFromYear(y) + MonthStart(m + 1, Leap(y)));
  }

  /** Every day has a valid date. */
  lemma DateIsValid(d: int)
    ensures 1 <= DateOf(d) <= DaysIn(YearOf(d), MonthOf(d))
    ensures d == DayFromYear(YearOf(d)) + MonthStart(MonthOf(d), Leap(YearOf(d))) + DateOf(d) - 1
  {
    var y := YearOf(d);
    hide DayFromYear, Leap, DaysIn, MonthStart;
    DayFromYearStep(y);
    YearEnds(Leap(y));
    MonthLengths(y, MonthOf(d));
  }

  lemma YearEnds(leap: bool)
    ensures MonthStart(0, leap) == 0 && MonthStart(12, leap) == if leap then 366 else 365
  {
  }

  /** Year, month (0 = January) and date. */
  datatype Date = Date(year: int, month: int, date: int) {
    predicate Valid() { 0 <= month < 12 && 1 <= date <= DaysIn(year, month) }

    function Tomorrow(): Date {
      if date < DaysIn(year, month) then Date(year, month, date + 1)
      else if month < 11 then Date(year, month + 1, 1)
      else Date(year + 1, 0, 1)
    }
  }

  function DateAt(d: int): Date { Date(YearOf(d), MonthOf(d), DateOf(d)) }

  /** The calendar, from one day to the next: day 0 is 1 January 1970, and the next day has the next date. */
  lemma NextDate(d: int)
    ensures DateAt(0) == Date(1970, 0, 1)
    ensures DateAt(d).Valid() && DateAt(d + 1) == DateAt(d).Tomorrow()
  {
    FirstDay();
    hide YearOf, MonthOf, DateOf, DayFromYear, Leap, DaysIn, MonthStart;
    var y, m, date := YearOf(d), MonthOf(d), DateOf(d);
    DateIsValid(d);
    MonthLengths(y, m);
    if date < DaysIn(y, m) {
      PartsOfDate(y, m, date + 1);
    } else if m < 11 {
      SomeDays(y, m + 1);
      PartsOfDate(y, m + 1, 1);
    } else {
      DayFromYearStep(y);
      YearEnds(Leap(y));
      YearEnds(Leap(y + 1));
      SomeDays(y + 1, 0);
      PartsOfDate(y + 1, 0, 1);
    }
  }

  predicate Follows(date: int -> Date, d: int) { date(d).Valid() && date(d + 1) == date(d).Tomorrow() }

  /** No other assignment of dates to days does that, after day 0 or before it. */
  lemma {:induction false} OnlyCalendar(date: int -> Date, d: int)
    requires date(0) == Date(1970, 0, 1) && forall e :: Follows(date, e)
    ensures date(d) == DateAt(d)
    decreases if d < 0 then -d else d
  {
    hide DateAt;
    NextDate(d);
    if d > 0 {
      OnlyCalendar(date, d - 1);
      NextDate(d - 1);
      assert Follows(date, d - 1);
    } else if d < 0 {
      OnlyCalendar(date, d + 1);
      assert Follows(date, d);
      OneYesterday(date(d), DateAt(d));
    }
  }

  lemma OneYesterday(a: Date, b: Date)
    requires a.Valid() && b.Valid() && a.Tomorrow() == b.Tomorrow()
    ensures a == b
  {
  }

  lemma FirstDay()
    ensures YearOf(0) == 1970 && MonthOf(0) == 0 && DateOf(0) == 1
  {
    assert DayFromYear(1970) == 0 && DayFromYear(1971) == 365;
    hide DayFromYear;
    YearUnique(0, 1970);
  }

  lemma SomeDays(y: int, m: int)
    ensures 28 <= DaysIn(y, m) <= 31
  {
  }

  /** Sunday is 0; day 0 was a Thursday. */
  function WeekDay(d: int): (w: int)
    ensures 0 <= w < 7
  {
    (d + 4) % 7
  }

  /** The days of the week follow each other, and day 0 is a Thursday. */
  lemma WeekDays(d: int)
    ensures WeekDay(0) == 4
    ensures WeekDay(d + 1) == if WeekDay(d) == 6 then 0 else WeekDay(d) + 1
  {
  }
}
