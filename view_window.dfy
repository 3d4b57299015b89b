/**
 * The columns of the main table for the current view and pivot date, and
 * the pivot step of the previous / next buttons.
 */
module ViewWindow {
  import opened Wrappers
  import opened CivilDate
  import opened DateKey
  import opened Types

  const DayNames: seq<string> := ["Sun", "Mon", "Tue", "Wed", "Thu", "Fri", "Sat"]

  /** The Sunday on or before `p`. */
  function StartOfWeek(p: Date): (r: Date)
    requires ValidDate(p)
    ensures ValidDate(r)
  {
    AddDays(p, -Weekday(p))
  }

  /**
   * The dates a view shows: the pivot alone; the seven days of the pivot's
   * week from Sunday; every day of the pivot's month, its length taken as
   * day 0 of the month after; and nothing for the calendar view, whose grid
   * is drawn elsewhere.
   */
  function WindowDates(view: ViewMode, p: Date): (w: seq<Date>)
    requires ValidDate(p)
    ensures forall i :: 0 <= i < |w| ==> ValidDate(w[i])
  {
    match view
    case Day => [p]
    case Week =>
      var start := StartOfWeek(p);
      seq(7, i => AddDays(start, i))
    case Month =>
      DayZeroIsLastDay(p.year, p.month);
      seq(DayZeroOfNextMonth(p.year, p.month).day, i => Date(p.year, p.month, i + 1))
    case Calendar => []
  }

  /** The header record of one column; the day view leaves `isWeekend` out. */
  function Slot(d: Date, today: Date, withWeekend: bool): (c: DailySchedule)
    requires ValidDate(d)
    ensures c.date == IsoKey(d) && c.dayName == DayNames[Weekday(d)]
    ensures c.isToday <==> d == today
    ensures c.isWeekend.Some? <==> withWeekend
    ensures c.isWeekend.Some? ==> (c.isWeekend.value <==> Weekday(d) == 0 || Weekday(d) == 6)
  {
    DailySchedule(IsoKey(d), DayNames[Weekday(d)], d == today,
      if withWeekend then Some(Weekday(d) == 0 || Weekday(d) == 6) else None)
  }

  /** The columns of a view: one slot per window date, in window order. */
  function Columns(view: ViewMode, p: Date, today: Date): (cs: seq<DailySchedule>)
    requires ValidDate(p)
  {
    var w := WindowDates(view, p);
    seq(|w|, i requires 0 <= i < |w| => Slot(w[i], today, view != Day))
  }

  lemma ColumnsLength(view: ViewMode, p: Date, today: Date)
    requires ValidDate(p)
    ensures |Columns(view, p, today)| == |WindowDates(view, p)|
    ensures view == Week ==> |Columns(view, p, today)| == 7
    ensures view == Month ==> |Columns(view, p, today)| == DayZeroOfNextMonth(p.year, p.month).day
  {
  }

  lemma ColumnAt(view: ViewMode, p: Date, today: Date, i: int)
    requires ValidDate(p) && 0 <= i < |WindowDates(view, p)|
    ensures Columns(view, p, today)[i] == Slot(WindowDates(view, p)[i], today, view != Day)
  {
  }

  lemma MonthColumnAt(p: Date, today: Date, day: int)
    requires ValidDate(p) && 1 <= day <= DaysInMonth(p.year, p.month)
    ensures ValidDate(Date(p.year, p.month, day))
    ensures day - 1 < |Columns(Month, p, today)|
    ensures Columns(Month, p, today)[day - 1] == Slot(Date(p.year, p.month, day), today, true)
  {
    DayZeroIsLastDay(p.year, p.month);
    ColumnsLength(Month, p, today);
    var w := WindowDates(Month, p);
    assert |w| == DaysInMonth(p.year, p.month) && w[day - 1] == Date(p.year, p.month, day);
    ColumnAt(Month, p, today, day - 1);
  }

  /** `visibleDates`: the column records of the current view, one pushed per date. */
  method VisibleDates(view: ViewMode, pivot: Date, today: Date) returns (dates: seq<DailySchedule>)
    requires ValidDate(pivot)
    ensures dates == Columns(view, pivot, today)
  {
    ColumnsLength(view, pivot, today);
    match view
    case Day =>
      ColumnAt(view, pivot, today, 0);
      dates := [Slot(pivot, today, false)];
    case Week =>
      dates := WeekColumns(pivot, today);
    case Month =>
      dates := MonthColumns(pivot, today);
    case Calendar =>
      dates := [];
  }

  /** The week branch: seven slots from the Sunday on or before the pivot. */
  method WeekColumns(pivot: Date, today: Date) returns (dates: seq<DailySchedule>)
    requires ValidDate(pivot)
    ensures dates == Columns(Week, pivot, today)
  {
    ghost var columns := Columns(Week, pivot, today);
    var start := StartOfWeek(pivot);
    dates := [];
    var i := 0;
    while i < 7
      invariant 0 <= i <= 7
      invariant |dates| == i
      invariant forall j :: 0 <= j < i ==> dates[j] == columns[j]
    {
      var d := AddDays(start, i);
      WeekColumnStep(pivot, today, dates, i);
      dates := dates + [Slot(d, today, true)];
      i := i + 1;
    }
    WeekColumnAt(pivot, today, 0);
    assert dates == columns;
  }

  lemma WeekColumnStep(p: Date, today: Date, dates: seq<DailySchedule>, i: int)
    requires ValidDate(p) && 0 <= i < 7
    requires |dates| == i
    requires forall j :: 0 <= j < i ==> dates[j] == Columns(Week, p, today)[j]
    ensures forall j :: 0 <= j < i + 1 ==>
      (dates + [Slot(AddDays(StartOfWeek(p), i), today, true)])[j] == Columns(Week, p, today)[j]
  {
    WeekColumnAt(p, today, i);
  }

  lemma WeekColumnAt(p: Date, today: Date, i: int)
    requires ValidDate(p) && 0 <= i < 7
    ensures |Columns(Week, p, today)| == 7
    ensures Columns(Week, p, today)[i] == Slot(AddDays(StartOfWeek(p), i), today, true)
  {
    ColumnsLength(Week, p, today);
    ColumnAt(Week, p, today, i);
  }

  /** The month branch: one slot for each day 1..n, n being day 0 of the next month. */
  method MonthColumns(pivot: Date, today: Date) returns (dates: seq<DailySchedule>)
    requires ValidDate(pivot)
    ensures dates == Columns(Month, pivot, today)
  {
    ColumnsLength(Month, pivot, today);
    DayZeroIsLastDay(pivot.year, pivot.month);
    ghost var columns := Columns(Month, pivot, today);
    var daysInMonth := DayZeroOfNextMonth(pivot.year, pivot.month).day;
    dates := [];
    var i := 1;
    while i <= daysInMonth
      invariant 1 <= i <= daysInMonth + 1
      invariant |dates| == i - 1
      invariant forall j :: 0 <= j < i - 1 ==> dates[j] == columns[j]
    {
      var d := Date(pivot.year, pivot.month, i);
      MonthColumnStep(pivot, today, dates, i);
      dates := dates + [Slot(d, today, true)];
      i := i + 1;
    }
    assert dates == columns;
  }

  /** One pass of the month loop extends a prefix of the month columns by the next column. */
  lemma MonthColumnStep(p: Date, today: Date, dates: seq<DailySchedule>, day: int)
    requires ValidDate(p) && 1 <= day <= DaysInMonth(p.year, p.month)
    requires |dates| == day - 1
    requires forall j :: 0 <= j < day - 1 ==> dates[j] == Columns(Month, p, today)[j]
    ensures ValidDate(Date(p.year, p.month, day))
    ensures var next := dates + [Slot(Date(p.year, p.month, day), today, true)];
      forall j :: 0 <= j < day ==> next[j] == Columns(Month, p, today)[j]
  {
    MonthColumnAt(p, today, day);
  }

  /** The window's dates as schedule keys, which the back-fill covers. */
  function WindowKeys(view: ViewMode, p: Date): (ks: seq<Key>)
    requires ValidDate(p)
    ensures |ks| == |WindowDates(view, p)|
    ensures forall i :: 0 <= i < |ks| ==> ks[i] == IsoKey(WindowDates(view, p)[i])
  {
    var w := WindowDates(view, p);
    seq(|w|, i requires 0 <= i < |w| => IsoKey(w[i]))
  }

  // ---------------------------------------------------------------------
  // Lemmas about the windows
  // ---------------------------------------------------------------------

  /** The week starts on a Sunday, on or before the pivot, less than a week before it. */
  lemma StartOfWeekFacts(p: Date)
    requires ValidDate(p)
    ensures Weekday(StartOfWeek(p)) == 0
    ensures DayNumber(StartOfWeek(p)) == DayNumber(p) - Weekday(p)
  {
    WeekdayAfter(p, -Weekday(p));
    AddDaysNumber(p, -Weekday(p));
  }

  /** The day view shows exactly the pivot. */
  lemma DayWindow(p: Date, today: Date)
    requires ValidDate(p)
    ensures WindowDates(Day, p) == [p]
    ensures |Columns(Day, p, today)| == 1 && Columns(Day, p, today)[0].date == IsoKey(p)
    ensures Columns(Day, p, today)[0].isWeekend.None?
  {
  }

  /**
   * The week view shows seven consecutive days, Sunday to Saturday in
   * order, and the pivot is one of them.
   */
  lemma WeekWindow(p: Date)
    requires ValidDate(p)
    ensures var w := WindowDates(Week, p);
      && |w| == 7
      && (forall i :: 0 <= i < 7 ==> Weekday(w[i]) == i)
      && (forall i :: 0 <= i < 7 ==> DayNumber(w[i]) == DayNumber(w[0]) + i)
      && DayNumber(w[0]) <= DayNumber(p) <= DayNumber(w[6])
      && w[Weekday(p)] == p
  {
    var w := WindowDates(Week, p);
    forall i | 0 <= i < 7 ensures Weekday(w[i]) == i && DayNumber(w[i]) == DayNumber(w[0]) + i {
      WeekDateAt(p, 0);
      WeekDateAt(p, i);
    }
    WeekDateAt(p, 0);
    WeekDateAt(p, 6);
    WeekDateAt(p, Weekday(p));
    StartOfWeekFacts(p);
    DayNumberInjective(w[Weekday(p)], p);
  }

  /** The i-th date of the week window is i days after its Sunday, and has weekday i. */
  lemma WeekDateAt(p: Date, i: int)
    requires ValidDate(p) && 0 <= i < 7
    ensures |WindowDates(Week, p)| == 7
    ensures ValidDate(WindowDates(Week, p)[i])
    ensures Weekday(WindowDates(Week, p)[i]) == i
    ensures DayNumber(WindowDates(Week, p)[i]) == DayNumber(StartOfWeek(p)) + i
  {
    var start := StartOfWeek(p);
    assert WindowDates(Week, p)[i] == AddDays(start, i);
    StartOfWeekFacts(p);
    WeekdayAfter(start, i);
    SmallModSeven(Weekday(start) + i);
    AddDaysNumber(start, i);
  }

  lemma SmallModSeven(x: int)
    requires 0 <= x < 7
    ensures x % 7 == x
  {
  }

  /** The month view shows days 1 to the last of the pivot's month, in order, pivot included. */
  lemma MonthWindow(p: Date)
    requires ValidDate(p)
    ensures var w := WindowDates(Month, p);
      && |w| == DaysInMonth(p.year, p.month)
      && (forall i :: 0 <= i < |w| ==> w[i] == Date(p.year, p.month, i + 1))
      && (forall i :: 0 <= i < |w| ==> DayNumber(w[i]) == DayNumber(w[0]) + i)
      && w[p.day - 1] == p
  {
    DayZeroIsLastDay(p.year, p.month);
  }

  /** The weekend flag of the week and month views marks exactly Sundays and Saturdays. */
  lemma WeekendFlag(view: ViewMode, p: Date, today: Date, i: int)
    requires ValidDate(p) && (view == Week || view == Month)
    requires 0 <= i < |Columns(view, p, today)|
    ensures var w := WindowDates(view, p);
      Columns(view, p, today)[i].isWeekend == Some(Weekday(w[i]) == 0 || Weekday(w[i]) == 6)
  {
  }

  /** Every window is strictly ascending by day, with no gaps. */
  lemma WindowConsecutive(view: ViewMode, p: Date)
    requires ValidDate(p)
    ensures var w := WindowDates(view, p);
      forall i :: 0 <= i < |w| - 1 ==> DayNumber(w[i + 1]) == DayNumber(w[i]) + 1
  {
    match view
    case Week => WeekWindow(p);
    case Month => MonthWindow(p);
    case Day =>
    case Calendar =>
  }

  /** Hence no date appears twice, and (for four-digit years) no column key either. */
  lemma WindowKeysDistinct(view: ViewMode, p: Date)
    requires ValidDate(p)
    requires forall d :: d in WindowDates(view, p) ==> 0 <= d.year <= 9999
    ensures var w := WindowDates(view, p);
      forall i, j :: 0 <= i < j < |w| ==> DayNumber(w[i]) < DayNumber(w[j]) && IsoKey(w[i]) != IsoKey(w[j])
  {
    var w := WindowDates(view, p);
    WindowConsecutive(view, p);
    forall i, j | 0 <= i < j < |w| ensures DayNumber(w[i]) < DayNumber(w[j]) && IsoKey(w[i]) != IsoKey(w[j]) {
      Ascending(w, i, j);
      IsoKeyInjective(w[i], w[j]);
    }
  }

  lemma {:induction false} Ascending(w: seq<Date>, i: int, j: int)
    requires forall k :: 0 <= k < |w| ==> ValidDate(w[k])
    requires forall k :: 0 <= k < |w| - 1 ==> DayNumber(w[k + 1]) == DayNumber(w[k]) + 1
    requires 0 <= i < j < |w|
    ensures DayNumber(w[j]) == DayNumber(w[i]) + (j - i)
    decreases j - i
  {
    if j > i + 1 {
      Ascending(w, i, j - 1);
    }
  }

  // ---------------------------------------------------------------------
  // Navigation
  // ---------------------------------------------------------------------

  /** `navigateDate(amount)`: days in the day view, weeks in the week view, months otherwise. */
  function Navigate(view: ViewMode, p: Date, amount: int): (r: Date)
    requires ValidDate(p)
    ensures ValidDate(r)
  {
    match view
    case Day => AddDays(p, amount)
    case Week => AddDays(p, 7 * amount)
    case _ => AddMonths(p, amount)
  }

  /** Day and week steps move the pivot by exactly `amount` and `7 * amount` days. */
  lemma NavigateDayCount(view: ViewMode, p: Date, amount: int)
    requires ValidDate(p) && (view == Day || view == Week)
    ensures DayNumber(Navigate(view, p, amount)) == DayNumber(p) + (if view == Day then amount else 7 * amount)
  {
    AddDaysNumber(p, if view == Day then amount else 7 * amount);
  }

  /** A week step keeps the weekday and moves the whole week window by seven days per step. */
  lemma NavigateWeekShiftsWindow(p: Date, amount: int)
    requires ValidDate(p)
    ensures Weekday(Navigate(Week, p, amount)) == Weekday(p)
    ensures DayNumber(WindowDates(Week, Navigate(Week, p, amount))[0]) == DayNumber(WindowDates(Week, p)[0]) + 7 * amount
  {
    var q := Navigate(Week, p, amount);
    assert q == AddDays(p, 7 * amount);
    var wp := Weekday(p);
    WeekdayAfter(p, 7 * amount);
    ModSevenUnique(wp + 7 * amount, amount, wp);
    assert Weekday(q) == wp;
    NavigateDayCount(Week, p, amount);
    StartOfWeekFacts(p);
    StartOfWeekFacts(q);
    WeekDateAt(p, 0);
    WeekDateAt(q, 0);
    var np, nq := DayNumber(p), DayNumber(q);
    assert nq == np + 7 * amount;
    assert DayNumber(WindowDates(Week, p)[0]) == np - wp;
    assert DayNumber(WindowDates(Week, q)[0]) == nq - wp;
  }

  /** Stepping forward and then back by the same amount returns to the pivot in the day and week views. */
  lemma NavigateBackAndForth(view: ViewMode, p: Date, amount: int)
    requires ValidDate(p) && (view == Day || view == Week)
    ensures Navigate(view, Navigate(view, p, amount), -amount) == p
  {
    var q := Navigate(view, p, amount);
    NavigateDayCount(view, p, amount);
    NavigateDayCount(view, q, -amount);
    DayNumberInjective(Navigate(view, q, -amount), p);
  }

  lemma DivMod12(x: int, q: int, r: int)
    requires x == 12 * q + r && 0 <= r < 12
    ensures x / 12 == q && x % 12 == r
  {
  }

  /** A month step from a day that every month has (1..28) keeps the day and moves the month. */
  lemma NavigateMonthKeepsDay(view: ViewMode, p: Date, amount: int)
    requires ValidDate(p) && (view == Month || view == Calendar) && p.day <= 28
    ensures var index := p.month - 1 + amount;
      Navigate(view, p, amount) == Date(p.year + index / 12, index % 12 + 1, p.day)
  {
    AddMonthsKeepsDay(p, amount);
  }

  /** On days 1..28 a month step forward and back returns to the pivot. */
  lemma NavigateMonthBackAndForth(view: ViewMode, p: Date, amount: int)
    requires ValidDate(p) && (view == Month || view == Calendar) && p.day <= 28
    ensures Navigate(view, Navigate(view, p, amount), -amount) == p
  {
    var index := p.month - 1 + amount;
    var q, r := index / 12, index % 12;
    NavigateMonthKeepsDay(view, p, amount);
    var p' := Navigate(view, p, amount);
    assert p' == Date(p.year + q, r + 1, p.day);
    NavigateMonthKeepsDay(view, p', -amount);
    DivMod12(r - amount, -q, p.month - 1);
  }

  /**
   * From the 31st of January a month step lands on the 3rd of March in a
   * common year, so the month view skips February.
   */
  lemma MonthStepSkipsFebruary()
    ensures Navigate(Month, Date(2023, 1, 31), 1) == Date(2023, 3, 3)
    ensures WindowDates(Month, Navigate(Month, Date(2023, 1, 31), 1))[0] == Date(2023, 3, 1)
  {
    JanuaryThirtyFirstPlusOneMonth();
  }
}
