/** audit-governance-service/src/routes-governance.ts, periodWindow: the calendar windows of budgets. */
module Periods {
  import opened Calendar

  datatype Period = DayPeriod | WeekPeriod | MonthPeriod

  /** Two instants belong to the same day, week (from Sunday) or month of the UTC calendar. */
  predicate SamePeriod(p: Period, t: int, u: int) {
    SameDays(p, Day(t), Day(u))
  }

  predicate SameDays(p: Period, d: int, e: int) {
    match p
    case DayPeriod => d == e
    case WeekPeriod => (d + 4) / 7 == (e + 4) / 7
    case MonthPeriod => YearOf(d) == YearOf(e) && MonthOf(d) == MonthOf(e)
  }

  datatype Window = Window(start: int, end: int) {
    predicate Has(t: int) { start <= t < end }
  }

  /** The first day of the period, and the first day after it. */
  function FirstDay(p: Period, d: int): int {
    match p
    case DayPeriod => d
    case WeekPeriod => d - WeekDay(d)
    case MonthPeriod => MakeDay(YearOf(d), MonthOf(d), 1)
  }

  function NextDay(p: Period, d: int): int {
    match p
    case DayPeriod => d + 1
    case WeekPeriod => FirstDay(WeekPeriod, d) + 7
    case MonthPeriod => MakeDay(YearOf(d), MonthOf(d) + 1, 1)
  }

  function WindowOf(p: Period, now: int): Window {
    Window(MS_PER_DAY * FirstDay(p, Day(now)), MS_PER_DAY * NextDay(p, Day(now)))
  }

  lemma InDays(a: int, b: int, t: int)
    ensures MS_PER_DAY * a <= t < MS_PER_DAY * b <==> a <= Day(t) < b
  {
  }

  lemma WeekIsInterval(d: int, e: int)
    ensures d - WeekDay(d) <= e < d - WeekDay(d) + 7 <==> (e + 4) / 7 == (d + 4) / 7
  {
  }

  lemma DaysOfPeriod(p: Period, d: int, e: int)
    ensures FirstDay(p, d) <= e < NextDay(p, d) <==> SameDays(p, e, d)
  {
    hide MakeDay, YearOf, MonthOf;
    match p
    case DayPeriod =>
    case WeekPeriod => WeekIsInterval(d, e);
    case MonthPeriod => MonthIsInterval(e, YearOf(d), MonthOf(d));
  }

  /** The window of `now` holds exactly the instants of the same period. */
  lemma WindowIsPeriod(p: Period, now: int, t: int)
    ensures WindowOf(p, now).Has(t) <==> SamePeriod(p, t, now)
  {
    hide FirstDay, NextDay, SameDays;
    InDays(FirstDay(p, Day(now)), NextDay(p, Day(now)), t);
    DaysOfPeriod(p, Day(now), Day(t));
  }

  lemma MonthWindow(d: int)
    ensures var x := DateAt(d);
            && DateAt(FirstDay(MonthPeriod, d)) == Date(x.year, x.month, 1)
            && DateAt(NextDay(MonthPeriod, d))
               == if x.month == 11 then Date(x.year + 1, 0, 1) else Date(x.year, x.month + 1, 1)
  {
    var x := DateAt(d);
    DateIsValid(d);
    hide YearOf, MonthOf, DateOf, DaysIn, DayFromYear, Leap, MonthStart, YearLength, MonthIn;
    FirstOfMonth(x.year, x.month);
    if x.month == 11 {
      MonthFirstDay(x.year, 12);
      DayFromYearStep(x.year);
      YearEnds(Leap(x.year));
      MonthFirstDay(x.year + 1, 0);
      YearEnds(Leap(x.year + 1));
      SameMakeDay(x.year);
      FirstOfMonth(x.year + 1, 0);
    } else {
      FirstOfMonth(x.year, x.month + 1);
    }
  }

  lemma SameMakeDay(y: int)
    ensures MakeDay(y, 12, 1) == MakeDay(y + 1, 0, 1)
  {
  }

  lemma FirstOfMonth(y: int, m: int)
    requires 0 <= m < 12
    ensures DateAt(MakeDay(y, m, 1)) == Date(y, m, 1)
  {
    hide YearOf, MonthOf, DateOf, MakeDay, DaysIn, DayFromYear, Leap, MonthStart, MonthIn;
    MonthFirstDay(y, m);
    SomeDays(y, m);
    PartsOfDate(y, m, 1);
  }

  /** A day of 24 hours, seven of them from a Sunday on, or a month from its first day to the next first day. */
  lemma WindowDates(p: Period, now: int)
    ensures var w := WindowOf(p, now);
            var first, next := w.start / 86_400_000, w.end / 86_400_000;
            var today := DateAt(now / 86_400_000);
            && w.start <= now < w.end && w.start % 86_400_000 == 0 && w.end % 86_400_000 == 0
            && match p
               case DayPeriod => next == first + 1
               case WeekPeriod => next == first + 7 && WeekDay(first) == 0
               case MonthPeriod =>
                 && DateAt(first) == Date(today.year, today.month, 1)
                 && DateAt(next) == if today.month == 11 then Date(today.year + 1, 0, 1)
                                    else Date(today.year, today.month + 1, 1)
  {
    hide *;
    WindowDays(p, now);
    WindowsPartitionTime(p, now, now);
    HasMeans(WindowOf(p, now), now);
    DaysAndWeeks(now / 86_400_000);
    MonthWindow(now / 86_400_000);
  }

  lemma WindowDays(p: Period, now: int)
    ensures var w := WindowOf(p, now);
            && w.start % 86_400_000 == 0 && w.end % 86_400_000 == 0
            && w.start / 86_400_000 == FirstDay(p, now / 86_400_000)
            && w.end / 86_400_000 == NextDay(p, now / 86_400_000)
  {
    hide FirstDay, NextDay;
    AtMidnight(FirstDay(p, Day(now)));
    AtMidnight(NextDay(p, Day(now)));
  }

  lemma HasMeans(w: Window, t: int)
    requires w.Has(t)
    ensures w.start <= t < w.end
  {
  }

  lemma DaysAndWeeks(d: int)
    ensures NextDay(DayPeriod, d) == FirstDay(DayPeriod, d) + 1
    ensures NextDay(WeekPeriod, d) == FirstDay(WeekPeriod, d) + 7 && WeekDay(FirstDay(WeekPeriod, d)) == 0
  {
  }

  /** For example, the month that begins with 2025-02-01T00:00:00Z ends with 2025-03-01T00:00:00Z. */
  lemma February2025()
    ensures WindowOf(MonthPeriod, 1_738_368_000_000) == Window(1_738_368_000_000, 1_740_787_200_000)
    ensures DateAt(1_738_368_000_000 / 86_400_000) == Date(2025, 1, 1)
  {
    FebruaryDays();
    hide *;
    WindowFrom(MonthPeriod, 1_738_368_000_000, 20_120, 20_148);
  }

  lemma FebruaryDays()
    ensures FirstDay(MonthPeriod, 20_120) == 20_120 && NextDay(MonthPeriod, 20_120) == 20_148
    ensures DateAt(20_120) == Date(2025, 1, 1)
  {
    Year2025();
    hide *;
    PartsOfDate(2025, 1, 1);
    MonthFirstDay(2025, 1);
    MonthFirstDay(2025, 2);
    MonthWindowIs(20_120);
  }

  lemma Year2025()
    ensures DayFromYear(2025) == 20_089 && !Leap(2025)
    ensures MonthStart(1, false) == 31 && MonthStart(2, false) == 59 && DaysIn(2025, 1) == 28
  {
  }

  lemma MonthWindowIs(d: int)
    ensures FirstDay(MonthPeriod, d) == MakeDay(YearOf(d), MonthOf(d), 1)
    ensures NextDay(MonthPeriod, d) == MakeDay(YearOf(d), MonthOf(d) + 1, 1)
    ensures DateAt(d) == Date(YearOf(d), MonthOf(d), DateOf(d))
  {
    hide YearOf, MonthOf, DateOf, MakeDay;
  }

  lemma WindowFrom(p: Period, now: int, first: int, next: int)
    requires first == FirstDay(p, now / 86_400_000) && next == NextDay(p, now / 86_400_000)
    ensures WindowOf(p, now) == Window(86_400_000 * first, 86_400_000 * next)
  {
    hide FirstDay, NextDay;
  }

  /** The windows of one period partition time: each instant is in its own, and two are equal or disjoint. */
  lemma WindowsPartitionTime(p: Period, a: int, b: int)
    ensures WindowOf(p, a).Has(a)
    ensures WindowOf(p, a) == WindowOf(p, b) || forall t :: !(WindowOf(p, a).Has(t) && WindowOf(p, b).Has(t))
  {
    hide WindowOf;
    WindowIsPeriod(p, a, a);
    if SamePeriod(p, a, b) {
      SamePeriodSameWindow(p, a, b);
    } else {
      forall t ensures !(WindowOf(p, a).Has(t) && WindowOf(p, b).Has(t)) {
        WindowIsPeriod(p, a, t);
        WindowIsPeriod(p, b, t);
        SamePeriodSymmetric(p, t, a, b);
      }
    }
  }

  lemma SamePeriodSymmetric(p: Period, t: int, a: int, b: int)
    requires !SamePeriod(p, a, b)
    ensures !(SamePeriod(p, t, a) && SamePeriod(p, t, b))
  {
    hide YearOf, MonthOf, Day;
  }

  lemma SamePeriodSameWindow(p: Period, a: int, b: int)
    requires SamePeriod(p, a, b)
    ensures WindowOf(p, a) == WindowOf(p, b)
  {
    hide YearOf, MonthOf, MakeDay, Day;
    if p == WeekPeriod {
      WeekIsInterval(Day(a), Day(b));
      SameWeekSameStart(Day(a), Day(b));
    }
  }

  lemma SameWeekSameStart(d: int, e: int)
    requires (d + 4) / 7 == (e + 4) / 7
    ensures d - WeekDay(d) == e - WeekDay(e)
  {
  }

  /** setUTCDate: the date of t is replaced, month and year follow. */
  function WithDate(t: int, date: int): int {
    MS_PER_DAY * MakeDay(YearOf(Day(t)), MonthOf(Day(t)), date) + t % MS_PER_DAY
  }

  /** setUTCMonth, keeping the date. */
  function WithMonth(t: int, month: int): int {
    MS_PER_DAY * MakeDay(YearOf(Day(t)), month, DateOf(Day(t))) + t % MS_PER_DAY
  }

  /** Setting a part to what it is changes nothing, the time of day least of all. */
  lemma SetToSame(t: int)
    ensures WithDate(t, DateOf(Day(t))) == t && WithMonth(t, MonthOf(Day(t))) == t
  {
    MakeDayInvertsParts(Day(t));
    hide MakeDay, YearOf, MonthOf, DateOf;
  }

  /** On midnights, moving the date moves whole days. */
  lemma WithDateMoves(d: int, k: int)
    ensures WithDate(MS_PER_DAY * d, DateOf(d) + k) == MS_PER_DAY * (d + k)
  {
    hide MakeDay, YearOf, MonthOf, DateOf, Day;
    AtMidnight(d);
    MakeDayInvertsParts(d);
    MakeDayShift(YearOf(d), MonthOf(d), DateOf(d), k);
  }

  lemma MakeDayShift(y: int, m: int, date: int, k: int)
    ensures MakeDay(y, m, date + k) == MakeDay(y, m, date) + k
  {
  }

  lemma FirstOfMonthDate(d: int)
    ensures var f := MakeDay(YearOf(d), MonthOf(d), 1);
            YearOf(f) == YearOf(d) && MonthOf(f) == MonthOf(d) && DateOf(f) == 1
  {
    hide MakeDay, YearOf, MonthOf, DateOf;
    var y, m := YearOf(d), MonthOf(d);
    var f := MakeDay(y, m, 1);
    MonthIsInterval(d, y, m);
    MonthIsInterval(f, y, m);
    MakeDayInvertsParts(f);
    MakeDayShift(y, m, 1, DateOf(f) - 1);
  }

  lemma Midnight(now: int)
    ensures now - now % MS_PER_DAY == MS_PER_DAY * Day(now)
    ensures forall d :: Day(MS_PER_DAY * d) == d
  {
  }

  lemma AtMidnight(d: int)
    ensures Day(MS_PER_DAY * d) == d && MS_PER_DAY * d % MS_PER_DAY == 0
  {
  }

  lemma WithDateIsFirst(d: int)
    ensures WithDate(MS_PER_DAY * d, 1) == MS_PER_DAY * MakeDay(YearOf(d), MonthOf(d), 1)
  {
    hide MakeDay, YearOf, MonthOf, Day;
    AtMidnight(d);
  }

  lemma WithMonthOfFirst(d: int)
    ensures var f := MakeDay(YearOf(d), MonthOf(d), 1);
            WithMonth(MS_PER_DAY * f, MonthOf(f) + 1) == MS_PER_DAY * MakeDay(YearOf(d), MonthOf(d) + 1, 1)
  {
    hide MakeDay, YearOf, MonthOf, DateOf, Day;
    var f := MakeDay(YearOf(d), MonthOf(d), 1);
    FirstOfMonthDate(d);
    AtMidnight(f);
  }

  /** periodWindow, date by date. */
  method PeriodWindow(period: Period, now: int) returns (start: int, end: int)
    ensures Window(start, end) == WindowOf(period, now)
  {
    hide MakeDay, YearOf, MonthOf, DateOf, Day, WithDate, WithMonth, WeekDay;
    ghost var d := Day(now);
    Midnight(now);
    start := now - now % MS_PER_DAY;
    if period == WeekPeriod {
      var dayOfWeek := WeekDay(Day(start));
      WithDateMoves(d, -dayOfWeek);
      start := WithDate(start, DateOf(Day(start)) - dayOfWeek);
    } else if period == MonthPeriod {
      WithDateIsFirst(d);
      start := WithDate(start, 1);
    }
    ghost var first := FirstDay(period, d);
    assert start == MS_PER_DAY * first && Day(start) == first;
    end := start;
    if period == DayPeriod {
      WithDateMoves(first, 1);
      end := WithDate(end, DateOf(Day(end)) + 1);
    }
    if period == WeekPeriod {
      WithDateMoves(first, 7);
      end := WithDate(end, DateOf(Day(end)) + 7);
    }
    if period == MonthPeriod {
      WithMonthOfFirst(d);
      end := WithMonth(end, MonthOf(Day(end)) + 1);
    }
  }
}
