/**
 * The availability page of a laboratory: the week and month calendars,
 * where a slot is drawn, the period the calendar loads, its navigation, the
 * slot form's guard, the status colours and the resource filter.
 */
module LabsAvailability {
  import opened Wrappers
  import opened Text
  import opened Js
  import opened Seqs

  // ----- calendar dates -----

  /** A month of a year; `month0` is 0 for January, as `getMonth()` counts. */
  datatype YearMonth = YearMonth(year: int, month0: int)

  /** A local calendar date. */
  datatype Civil = Civil(year: int, month0: int, day: int) {
    function Month(): YearMonth { YearMonth(year, month0) }
  }

  predicate IsLeap(year: int) {
    year % 4 == 0 && (year % 100 != 0 || year % 400 == 0)
  }

  function DaysIn(ym: YearMonth): (n: int)
    ensures 28 <= n <= 31
  {
    var m := ym.month0;
    if m == 1 then (if IsLeap(ym.year) then 29 else 28)
    else if m == 3 || m == 5 || m == 8 || m == 10 then 30
    else 31
  }

  predicate ValidMonth(ym: YearMonth) {
    0 <= ym.month0 < 12
  }

  predicate Valid(c: Civil) {
    ValidMonth(c.Month()) && 1 <= c.day <= DaysIn(c.Month())
  }

  function NextMonth(ym: YearMonth): (r: YearMonth)
    requires ValidMonth(ym)
    ensures ValidMonth(r)
  {
    if ym.month0 == 11 then YearMonth(ym.year + 1, 0) else YearMonth(ym.year, ym.month0 + 1)
  }

  function PrevMonth(ym: YearMonth): (r: YearMonth)
    requires ValidMonth(ym)
    ensures ValidMonth(r)
  {
    if ym.month0 == 0 then YearMonth(ym.year - 1, 11) else YearMonth(ym.year, ym.month0 - 1)
  }

  lemma PrevNext(ym: YearMonth)
    requires ValidMonth(ym)
    ensures PrevMonth(NextMonth(ym)) == ym && NextMonth(PrevMonth(ym)) == ym
  {
  }

  /** The last day of a month, what `setDate(0)` on the following month reaches. */
  function LastDay(ym: YearMonth): Civil {
    Civil(ym.year, ym.month0, DaysIn(ym))
  }

  /** `setDate(getDate() + n)` for a shift of at most four weeks: the day carries into the next or previous month. */
  function AddDays(c: Civil, n: int): (r: Civil)
    requires Valid(c) && -28 <= n <= 28
    ensures Valid(r)
  {
    var d := c.day + n;
    if d < 1 then
      var p := PrevMonth(c.Month());
      Civil(p.year, p.month0, DaysIn(p) + d)
    else if d > DaysIn(c.Month()) then
      var q := NextMonth(c.Month());
      Civil(q.year, q.month0, d - DaysIn(c.Month()))
    else Civil(c.year, c.month0, d)
  }

  /** Calendar order of dates. */
  predicate Before(a: Civil, b: Civil) {
    a.year < b.year
    || (a.year == b.year && a.month0 < b.month0)
    || (a.year == b.year && a.month0 == b.month0 && a.day < b.day)
  }

  /** Shifting forward lands after the date, backward before it, and by zero on it. */
  lemma AddDaysOrder(c: Civil, n: int)
    requires Valid(c) && -28 <= n <= 28
    ensures n > 0 ==> Before(c, AddDays(c, n))
    ensures n < 0 ==> Before(AddDays(c, n), c)
    ensures n == 0 ==> AddDays(c, n) == c
  {
  }

  /** Days a year's end moves the weekday on, counted from a fixed origin: one per year, one more per leap year. */
  function YearKey(y: int): int {
    y + y / 4 - y / 100 + y / 400
  }

  /** The weekday offset of a month: January and February count with the year before, as a leap day falls after them. */
  function MonthKey(ym: YearMonth): int
    requires ValidMonth(ym)
  {
    var t := [0, 3, 2, 5, 0, 3, 5, 1, 4, 6, 2, 4];
    var y := if ym.month0 < 2 then ym.year - 1 else ym.year;
    YearKey(y) + t[ym.month0]
  }

  /** `getDay()`: 0 for Sunday up to 6 for Saturday, in the proleptic Gregorian calendar. */
  function Weekday(c: Civil): (g: nat)
    requires ValidMonth(c.Month())
    ensures g < 7
  {
    (MonthKey(c.Month()) + c.day) % 7
  }

  /** `y / k` grows by one exactly at the multiples of `k`, for the three divisors of the leap-year rule. */
  lemma DivStep(y: int, k: int)
    requires k == 4 || k == 100 || k == 400
    ensures y / k - (y - 1) / k == if y % k == 0 then 1 else 0
  {
    var q, r := (y - 1) / k, (y - 1) % k;
    assert y - 1 == k * q + r && 0 <= r < k;
    if r == k - 1 {
      assert y == k * (q + 1) + 0;
    } else {
      assert y == k * q + (r + 1) && 0 <= r + 1 < k;
    }
  }

  /** The leap-year rule as a count: a multiple of 4, less a multiple of 100, plus a multiple of 400. */
  lemma LeapCount(y: int)
    ensures (if IsLeap(y) then 1 else 0)
            == (if y % 4 == 0 then 1 else 0) - (if y % 100 == 0 then 1 else 0) + (if y % 400 == 0 then 1 else 0)
  {
    if y % 400 == 0 {
      var a := y / 400;
      assert y % 100 == 0 by { assert y == 100 * (4 * a); }
      assert y % 4 == 0 by { assert y == 4 * (100 * a); }
    } else if y % 100 == 0 {
      var a := y / 100;
      assert y % 4 == 0 by { assert y == 4 * (25 * a); }
    }
  }

  /** A year moves the weekday on by one day, a leap year by two. */
  lemma YearKeyStep(y: int)
    ensures YearKey(y) == YearKey(y - 1) + (if IsLeap(y) then 2 else 1)
  {
    DivStep(y, 4);
    DivStep(y, 100);
    DivStep(y, 400);
    LeapCount(y);
  }

  /** The first day of a month follows the last day of the month before it. */
  lemma MonthKeyStep(ym: YearMonth)
    requires ValidMonth(ym)
    ensures (MonthKey(NextMonth(ym)) - MonthKey(ym) - DaysIn(ym)) % 7 == 0
  {
    if ym.month0 == 1 {
      YearKeyStep(ym.year);
    }
  }

  /** A day `shift` days on, counted from a month whose offset is `shift` more modulo 7, falls on the same weekday. */
  lemma SameWeekday(keyFrom: int, dayFrom: int, keyTo: int, shift: int)
    requires (keyTo - keyFrom - shift) % 7 == 0
    ensures (keyTo + dayFrom - shift) % 7 == (keyFrom + dayFrom) % 7
  {
    var k := (keyTo - keyFrom - shift) / 7;
    assert keyTo + dayFrom - shift == keyFrom + dayFrom + 7 * k;
  }

  /** Shifting into the next month. */
  lemma WeekdayForward(c: Civil, n: int)
    requires Valid(c) && 0 <= n <= 28 && c.day + n > DaysIn(c.Month())
    ensures Weekday(AddDays(c, n)) == (MonthKey(c.Month()) + c.day + n) % 7
  {
    var m := c.Month();
    MonthKeyStep(m);
    SameWeekday(MonthKey(m), c.day + n, MonthKey(NextMonth(m)), DaysIn(m));
  }

  /** Shifting into the previous month. */
  lemma WeekdayBack(c: Civil, n: int)
    requires Valid(c) && -28 <= n <= 0 && c.day + n < 1
    ensures Weekday(AddDays(c, n)) == (MonthKey(c.Month()) + c.day + n) % 7
  {
    var m := c.Month();
    var p := PrevMonth(m);
    PrevNext(m);
    MonthKeyStep(p);
    assert AddDays(c, n) == Civil(p.year, p.month0, DaysIn(p) + c.day + n);
    SameWeekday(MonthKey(p), DaysIn(p) + c.day + n, MonthKey(m), DaysIn(p));
  }

  /** Shifting within the month. */
  lemma WeekdayWithin(c: Civil, n: int)
    requires Valid(c) && -28 <= n <= 28 && 1 <= c.day + n <= DaysIn(c.Month())
    ensures Weekday(AddDays(c, n)) == (MonthKey(c.Month()) + c.day + n) % 7
  {
  }

  /** `(x % 7 + n) % 7 == (x + n) % 7`. */
  lemma WeekdayAdd(x: int, n: int)
    ensures (x % 7 + n) % 7 == (x + n) % 7
  {
    SameWeekday(x % 7, n, x, x - x % 7);
  }

  /** Moving the date by `n` days moves `getDay()` by `n`, modulo the week. */
  lemma WeekdayShift(c: Civil, n: int)
    requires Valid(c) && -28 <= n <= 28
    ensures Weekday(AddDays(c, n)) == (Weekday(c) + n) % 7
  {
    WeekdayAdd(MonthKey(c.Month()) + c.day, n);
    if c.day + n < 1 {
      WeekdayBack(c, n);
    } else if c.day + n > DaysIn(c.Month()) {
      WeekdayForward(c, n);
    } else {
      WeekdayWithin(c, n);
    }
  }

  /** Two shifts of at most a week compose. */
  lemma AddDaysCompose(c: Civil, a: int, b: int)
    requires Valid(c) && -7 <= a <= 7 && -7 <= b <= 7
    ensures AddDays(AddDays(c, a), b) == AddDays(c, a + b)
  {
    PrevNext(c.Month());
  }

  /**
   * `setMonth(m)`: the year and month are normalised, the day of the month
   * is kept, and a day the new month does not have runs over into the
   * month after it (January 31 plus one month is March 3 or 2).
   */
  function SetMonth(c: Civil, m: int): (r: Civil)
    requires Valid(c)
    ensures Valid(r)
  {
    var ym := YearMonth(c.year + m / 12, m % 12);
    if c.day <= DaysIn(ym) then Civil(ym.year, ym.month0, c.day)
    else
      var q := NextMonth(ym);
      Civil(q.year, q.month0, c.day - DaysIn(ym))
  }

  /** `setDate(0)`: the last day of the previous month. */
  function SetDateZero(c: Civil): (r: Civil)
    requires ValidMonth(c.Month())
    ensures Valid(r)
  {
    LastDay(PrevMonth(c.Month()))
  }

  /** A moment of a local day. */
  datatype DateTime = DateTime(date: Civil, hours: nat, minutes: nat, seconds: nat, ms: nat)

  function StartOfDay(c: Civil): DateTime { DateTime(c, 0, 0, 0, 0) }

  function EndOfDay(c: Civil): DateTime { DateTime(c, 23, 59, 59, 999) }

  // ----- weekday columns -----

  /** The column of a weekday in the Monday-first week: Sunday (0) is the last column, any other day `d` is `d - 1`. */
  function MondayIndex(g: nat): (col: nat)
    requires g < 7
    ensures col < 7
  {
    if g == 0 then 6 else g - 1
  }

  /** The weekday shown in a column. */
  function ColumnWeekday(col: nat): (g: nat)
    requires col < 7
    ensures g < 7
  {
    (col + 1) % 7
  }

  /** The mapping is a bijection of 0..6, with Monday in the first column and Sunday in the last. */
  lemma MondayIndexBijection(g: nat, col: nat)
    requires g < 7 && col < 7
    ensures ColumnWeekday(MondayIndex(g)) == g
    ensures MondayIndex(ColumnWeekday(col)) == col
    ensures MondayIndex(1) == 0 && MondayIndex(0) == 6
  {
  }

  lemma MondayIndexInjective(g: nat, h: nat)
    requires g < 7 && h < 7 && MondayIndex(g) == MondayIndex(h)
    ensures g == h
  {
    MondayIndexBijection(g, 0);
    MondayIndexBijection(h, 0);
  }

  // ----- the period the calendar loads -----

  /** The current view: `'week'`, and anything else is drawn and loaded as a month. */
  predicate IsWeekView(view: string) {
    view == "week"
  }

  /** `getStartOfPeriod()` in the week view: day offset `1 - getDay()` at 00:00. */
  function WeekStart(c: Civil): DateTime
    requires Valid(c)
  {
    StartOfDay(AddDays(c, 1 - Weekday(c)))
  }

  /** `getEndOfPeriod()` in the week view: day offset `7 - getDay()` at 23:59:59.999. */
  function WeekEnd(c: Civil): DateTime
    requires Valid(c)
  {
    EndOfDay(AddDays(c, 7 - Weekday(c)))
  }

  /** From Monday to Saturday the week loaded holds the current date. */
  lemma WeekHoldsWeekdays(c: Civil)
    requires Valid(c) && Weekday(c) != 0
    ensures !Before(c, WeekStart(c).date) && Before(c, WeekEnd(c).date)
  {
    AddDaysOrder(c, 1 - Weekday(c));
    AddDaysOrder(c, 7 - Weekday(c));
  }

  /** On a Sunday the week loaded starts the next day: the current date is not in it. */
  lemma SundayLoadsNextWeek(c: Civil)
    requires Valid(c) && Weekday(c) == 0
    ensures Before(c, WeekStart(c).date)
    ensures WeekStart(c).date == AddDays(c, 1) && WeekEnd(c).date == AddDays(c, 7)
  {
    AddDaysOrder(c, 1);
  }

  /** The week that holds the date: back to its Monday, forward to its Sunday. */
  function WeekStartMonday(c: Civil): DateTime
    requires Valid(c)
  {
    StartOfDay(AddDays(c, -(MondayIndex(Weekday(c)) as int)))
  }

  function WeekEndSunday(c: Civil): DateTime
    requires Valid(c)
  {
    EndOfDay(AddDays(c, 6 - MondayIndex(Weekday(c))))
  }

  /** The Monday-based week always holds the date, and agrees with the loaded week except on Sundays. */
  lemma WeekMondayHolds(c: Civil)
    requires Valid(c)
    ensures !Before(c, WeekStartMonday(c).date) && !Before(WeekEndSunday(c).date, c)
    ensures Weekday(c) != 0 ==> WeekStartMonday(c) == WeekStart(c) && WeekEndSunday(c) == WeekEnd(c)
  {
    AddDaysOrder(c, -(MondayIndex(Weekday(c)) as int));
    AddDaysOrder(c, 6 - MondayIndex(Weekday(c)));
  }

  /** The week loaded starts on a Monday and ends on the Sunday six days later: it is exactly seven days. */
  lemma WeekRunsMondayToSunday(c: Civil)
    requires Valid(c)
    ensures Weekday(WeekStart(c).date) == 1 && AddDays(WeekStart(c).date, 6) == WeekEnd(c).date
  {
    var g: int := Weekday(c);
    WeekdayShift(c, 1 - g);
    AddDaysCompose(c, 1 - g, 6);
  }

  /** So does the week that holds the date. */
  lemma WeekMondayRunsToSunday(c: Civil)
    requires Valid(c)
    ensures Weekday(WeekStartMonday(c).date) == 1 && AddDays(WeekStartMonday(c).date, 6) == WeekEndSunday(c).date
  {
    var g: int := Weekday(c);
    var back: int := MondayIndex(g);
    assert (g - back) % 7 == 1 by {
      if g == 0 { assert g - back == -6; } else { assert g - back == 1; }
    }
    WeekdayShift(c, -back);
    AddDaysCompose(c, -back, 6);
    assert WeekStartMonday(c).date == AddDays(c, -back);
    assert WeekEndSunday(c).date == AddDays(c, 6 - back);
  }

  /** `getStartOfPeriod()` in the month view: `setDate(1)` at 00:00. */
  function MonthStart(c: Civil): DateTime {
    StartOfDay(Civil(c.year, c.month0, 1))
  }

  /** `getEndOfPeriod()` in the month view: `setMonth(getMonth() + 1)`, then `setDate(0)`, at 23:59:59.999. */
  function MonthEnd(c: Civil): DateTime
    requires Valid(c)
  {
    EndOfDay(SetDateZero(SetMonth(c, c.month0 + 1)))
  }

  /**
   * The month loaded ends on the last day of the current month exactly
   * when the next month has the current day; otherwise `setMonth` runs
   * over and the period ends on the last day of the next month.
   */
  lemma MonthEndIff(c: Civil)
    requires Valid(c)
    ensures MonthEnd(c).date == LastDay(c.Month()) <==> c.day <= DaysIn(NextMonth(c.Month()))
    ensures c.day > DaysIn(NextMonth(c.Month())) ==> MonthEnd(c).date == LastDay(NextMonth(c.Month()))
  {
    var n := NextMonth(c.Month());
    assert YearMonth(c.year + (c.month0 + 1) / 12, (c.month0 + 1) % 12) == n;
    PrevNext(c.Month());
    PrevNext(n);
    if c.day > DaysIn(n) {
      assert MonthEnd(c).date == LastDay(n);
      assert LastDay(n) != LastDay(c.Month()) by {
        assert n != c.Month();
      }
    }
  }

  /** On January 31 of 2025 the month loaded runs to February 28. */
  lemma MonthEndOverruns()
    ensures MonthEnd(Civil(2025, 0, 31)).date == Civil(2025, 1, 28)
  {
    MonthEndIff(Civil(2025, 0, 31));
  }

  /** The intended end of the month: `setDate(1)` before moving to the next month. */
  function MonthEndFromFirst(c: Civil): DateTime
    requires Valid(c)
  {
    EndOfDay(SetDateZero(SetMonth(Civil(c.year, c.month0, 1), c.month0 + 1)))
  }

  /** Starting from the first, the period ends on the current month's last day for every date. */
  lemma MonthEndFromFirstIsLastDay(c: Civil)
    requires Valid(c)
    ensures MonthEndFromFirst(c).date == LastDay(c.Month())
    ensures c.day <= DaysIn(NextMonth(c.Month())) ==> MonthEndFromFirst(c) == MonthEnd(c)
  {
    var n := NextMonth(c.Month());
    assert YearMonth(c.year + (c.month0 + 1) / 12, (c.month0 + 1) % 12) == n;
    PrevNext(c.Month());
  }

  // ----- the calendar state -----

  /** The page's calendar state: the view and `currentDate`. */
  class Calendar {
    var view: string
    var current: Civil

    predicate Ok()
      reads this
    {
      Valid(current)
    }

    /** The page starts on the week view of today. */
    constructor (today: Civil)
      requires Valid(today)
      ensures Ok() && view == "week" && current == today
    {
      view := "week";
      current := today;
    }

    /**
     * `getStartOfPeriod()`: midnight of the first day of the month, or of
     * the week's start, which is the current date or before it except on a
     * Sunday, when it is the next day.
     */
    function StartOfPeriod(): (r: DateTime)
      reads this
      requires Ok()
      ensures r.hours == 0 && r.minutes == 0 && r.seconds == 0 && r.ms == 0
      ensures !IsWeekView(view) ==> r.date == Civil(current.year, current.month0, 1)
      ensures IsWeekView(view) ==> r.date == AddDays(current, 1 - Weekday(current)) && Weekday(r.date) == 1
      ensures IsWeekView(view) && Weekday(current) != 0 ==> !Before(current, r.date)
      ensures IsWeekView(view) && Weekday(current) == 0 ==> r.date == AddDays(current, 1)
    {
      if IsWeekView(view) then
        AddDaysOrder(current, 1 - Weekday(current));
        WeekRunsMondayToSunday(current);
        WeekStart(current)
      else MonthStart(current)
    }

    /**
     * `getEndOfPeriod()`: the last millisecond of the week's end, which is
     * always after the current date, or of the day before the first of
     * the month after `setMonth`, which is the current month's last day
     * exactly when the next month has the current day.
     */
    function EndOfPeriod(): (r: DateTime)
      reads this
      requires Ok()
      ensures r.hours == 23 && r.minutes == 59 && r.seconds == 59 && r.ms == 999
      ensures IsWeekView(view) ==> r.date == AddDays(current, 7 - Weekday(current))
      ensures IsWeekView(view) ==> Before(current, r.date)
      ensures !IsWeekView(view) ==> r.date == SetDateZero(SetMonth(current, current.month0 + 1))
      ensures !IsWeekView(view) ==>
        (r.date == LastDay(current.Month()) <==> current.day <= DaysIn(NextMonth(current.Month())))
    {
      if IsWeekView(view) then
        AddDaysOrder(current, 7 - Weekday(current));
        WeekEnd(current)
      else
        MonthEndIff(current);
        MonthEnd(current)
    }

    /**
     * `navigatePeriod(direction)` for the previous (-1) and next (1)
     * buttons: seven days in the week view, one `setMonth` step otherwise.
     */
    method NavigatePeriod(direction: int)
      requires Ok() && (direction == 1 || direction == -1)
      modifies this
      ensures Ok() && view == old(view)
      ensures IsWeekView(view) ==> current == AddDays(old(current), 7 * direction)
      ensures !IsWeekView(view) ==> current == SetMonth(old(current), old(current).month0 + direction)
    {
      if view == "week" {
        current := AddDays(current, 7 * direction);
      } else {
        current := SetMonth(current, current.month0 + direction);
      }
    }

    /** `goToToday()`. */
    method GoToToday(today: Civil)
      requires Valid(today)
      modifies this
      ensures Ok() && current == today && view == old(view)
    {
      current := today;
    }

    /** `changeCalendarView(view)`. */
    method ChangeView(v: string)
      requires Ok()
      modifies this
      ensures Ok() && view == v && current == old(current)
    {
      view := v;
    }
  }

  /** A week step moves the week loaded by exactly seven days: next then previous comes back. */
  lemma WeekStepsCancel(c: Civil)
    requires Valid(c)
    ensures AddDays(AddDays(c, 7), -7) == c
  {
    var d := AddDays(c, 7);
    PrevNext(c.Month());
  }

  // ----- the grids -----

  /** One cell of the week grid: an hour row and a Monday-first day column. */
  datatype Cell = Cell(hour: nat, column: nat)

  /** The first and last hour rows of the week view. */
  const FirstHour: nat := 8
  const LastHour: nat := 20

  /** The week grid in the order it is built: 13 hour rows from 8 to 20, each with 7 day columns. */
  method WeekGrid() returns (cells: seq<Cell>)
    ensures |cells| == 13 * 7
    ensures forall i :: 0 <= i < |cells| ==> cells[i] == Cell(FirstHour + i / 7, i % 7)
  {
    cells := [];
    var h := FirstHour;
    while h < LastHour + 1
      invariant FirstHour <= h <= LastHour + 1
      invariant |cells| == (h - FirstHour) * 7
      invariant forall i :: 0 <= i < |cells| ==> cells[i] == Cell(FirstHour + i / 7, i % 7)
    {
      var d := 0;
      while d < 7
        invariant 0 <= d <= 7
        invariant |cells| == (h - FirstHour) * 7 + d
        invariant forall i :: 0 <= i < |cells| ==> cells[i] == Cell(FirstHour + i / 7, i % 7)
      {
        cells := cells + [Cell(h, d)];
        d := d + 1;
      }
      h := h + 1;
    }
  }

  /** Every hour from 8 to 20 and every column has its cell, at row-major position. */
  lemma WeekGridCovers(cells: seq<Cell>, hour: nat, column: nat)
    requires |cells| == 13 * 7
    requires forall i :: 0 <= i < |cells| ==> cells[i] == Cell(FirstHour + i / 7, i % 7)
    requires FirstHour <= hour <= LastHour && column < 7
    ensures cells[(hour - FirstHour) * 7 + column] == Cell(hour, column)
  {
    var i := (hour - FirstHour) * 7 + column;
    assert i / 7 == hour - FirstHour && i % 7 == column;
  }

  /** Where a slot is drawn in the week view. */
  datatype Placement = Placement(cell: Cell, top: int, height: int)

  /**
   * `renderSlotInWeek`: the column of the start's weekday and the row of
   * its hour; the top is the start minute and the height the duration in
   * minutes, at least 30. A start outside the 8-20 rows has no cell and
   * the slot is not drawn.
   */
  function SlotPlacement(startWeekday: nat, startHour: nat, startMinute: nat, durationMinutes: int): (r: Option<Placement>)
    requires startWeekday < 7
    ensures r.Some? <==> FirstHour <= startHour <= LastHour
    ensures r.Some? ==> r.value.cell == Cell(startHour, MondayIndex(startWeekday))
                        && r.value.top == startMinute
                        && r.value.height >= 30
                        && r.value.height >= durationMinutes
                        && (r.value.height == 30 || r.value.height == durationMinutes)
  {
    if startHour < FirstHour || startHour > LastHour then None
    else Some(Placement(Cell(startHour, MondayIndex(startWeekday)), startMinute,
                        if durationMinutes > 30 then durationMinutes else 30))
  }

  /** The 42 cells of the month view, as day offsets from the first of the month (0 is the 1st). */
  function MonthGridOffsets(firstWeekday: nat): (r: seq<int>)
    requires firstWeekday < 7
    ensures |r| == 42
  {
    seq(42, i requires 0 <= i < 42 => 1 - firstWeekday + i)
  }

  /** `renderMonthView`'s loop: start from `1 - getDay()` of the 1st and lay out 42 days. */
  method MonthGrid(firstWeekday: nat) returns (cells: seq<int>)
    requires firstWeekday < 7
    ensures cells == MonthGridOffsets(firstWeekday)
  {
    var start := 1 - firstWeekday;
    cells := [];
    var i := 0;
    while i < 42
      invariant 0 <= i <= 42
      invariant |cells| == i
      invariant forall k :: 0 <= k < i ==> cells[k] == start + k
    {
      cells := cells + [start + i];
      i := i + 1;
    }
  }

  /** The grid shows the 1st of the month exactly when the month does not begin on a Sunday. */
  lemma MonthGridShowsFirstIff(g: nat)
    requires g < 7
    ensures 0 in MonthGridOffsets(g) <==> g != 0
  {
    if g != 0 {
      assert MonthGridOffsets(g)[g - 1] == 0;
    }
  }

  /** When the month does not begin on a Sunday every day of it is shown. */
  lemma MonthGridShowsMonth(g: nat, day: int)
    requires 0 < g < 7 && 0 <= day < 31
    ensures day in MonthGridOffsets(g)
  {
    assert MonthGridOffsets(g)[day + g - 1] == day;
  }

  /** The grid that starts on the Monday on or before the 1st. */
  function MonthGridOffsetsMonday(firstWeekday: nat): (r: seq<int>)
    requires firstWeekday < 7
    ensures |r| == 42
  {
    seq(42, i requires 0 <= i < 42 => i - MondayIndex(firstWeekday))
  }

  /** Starting on the Monday on or before the 1st, every day of any month is shown and the first cell is a Monday. */
  lemma MonthGridMondayShowsMonth(g: nat, day: int)
    requires g < 7 && 0 <= day < 31
    ensures day in MonthGridOffsetsMonday(g)
    ensures (g + MonthGridOffsetsMonday(g)[0]) % 7 == 1
  {
    assert MonthGridOffsetsMonday(g)[day + MondayIndex(g)] == day;
  }

  // ----- slot colours -----

  /** `getStatusColor(status)`. */
  function StatusColor(status: JsValue): string {
    if status == Str("DISPONIBLE") then "#10b981"
    else if status == Str("BLOQUEADO") then "#ef4444"
    else if status == Str("RESERVADO") then "#3b82f6"
    else if status == Str("MANTENIMIENTO") then "#f59e0b"
    else if status == Str("EXCLUSIVO") then "#6366f1"
    else "#64748b"
  }

  const NamedStatuses := ["DISPONIBLE", "BLOQUEADO", "RESERVADO", "MANTENIMIENTO", "EXCLUSIVO"]

  /** The five named statuses have five different colours; anything else is slate grey. */
  lemma StatusColors(status: JsValue)
    ensures (exists i :: 0 <= i < 5 && status == Str(NamedStatuses[i])) <==> StatusColor(status) != "#64748b"
    ensures forall i, j :: 0 <= i < j < 5 ==> StatusColor(Str(NamedStatuses[i])) != StatusColor(Str(NamedStatuses[j]))
  {
    if StatusColor(status) != "#64748b" {
      if status == Str("DISPONIBLE") { assert status == Str(NamedStatuses[0]); }
      else if status == Str("BLOQUEADO") { assert status == Str(NamedStatuses[1]); }
      else if status == Str("RESERVADO") { assert status == Str(NamedStatuses[2]); }
      else if status == Str("MANTENIMIENTO") { assert status == Str(NamedStatuses[3]); }
      else { assert status == Str(NamedStatuses[4]); }
    }
  }

  // ----- the slot form -----

  /** The fields `saveSlot` sends when it creates a slot. */
  datatype SlotData = SlotData(resourceId: JsValue, startsAt: int, endsAt: int, status: JsValue,
                               title: JsValue, reason: JsValue, userId: JsValue)

  /** What `saveSlot` does. */
  datatype SaveSlot =
    | FormInvalid
    | EndNotAfterStart
    | InvalidDate
    | UpdateStatus(slotId: string, status: JsValue, userId: JsValue)
    | CreateSlot(labId: JsValue, data: SlotData)

  /** `formData.get(name) || null`: a missing or empty field is `null`. */
  function FieldOrNull(v: Option<string>): (r: JsValue)
    ensures r.Null? <==> v.None? || v.value == ""
  {
    if v.Some? && v.value != "" then Str(v.value) else Null
  }

  /**
   * `saveSlot`: an invalid form stops first; then an end at or before the
   * start is refused before any request; an unparseable date makes
   * `toISOString` throw; an existing slot (`slotId` present) only has its
   * status updated; otherwise the slot is created in the current lab.
   * `startsAt`/`endsAt` are the form's dates as milliseconds, `None` when
   * they do not parse.
   */
  function SaveSlotRequest(formValid: bool, slotId: Option<string>, startsAt: Option<int>, endsAt: Option<int>,
                           resourceId: Option<string>, status: JsValue, title: Option<string>, reason: Option<string>,
                           userId: JsValue, labId: JsValue): (r: SaveSlot)
    ensures !formValid ==> r == FormInvalid
    ensures formValid && startsAt.Some? && endsAt.Some? && endsAt.value <= startsAt.value ==> r == EndNotAfterStart
    ensures r.UpdateStatus? || r.CreateSlot? ==> formValid && startsAt.Some? && endsAt.Some? && startsAt.value < endsAt.value
    ensures r.UpdateStatus? <==> formValid && startsAt.Some? && endsAt.Some? && startsAt.value < endsAt.value
                                 && slotId.Some? && slotId.value != ""
    ensures r.UpdateStatus? ==> r.status == status && r.userId == userId
    ensures r == InvalidDate <==> formValid && (startsAt.None? || endsAt.None?)
    ensures r.CreateSlot? <==> formValid && startsAt.Some? && endsAt.Some? && startsAt.value < endsAt.value
                               && (slotId.None? || slotId.value == "")
    ensures r.CreateSlot? ==> r.labId == labId && r.data.status == status && r.data.userId == userId
                              && r.data.startsAt == startsAt.value && r.data.endsAt == endsAt.value
                              && r.data.resourceId == FieldOrNull(resourceId)
                              && r.data.title == FieldOrNull(title) && r.data.reason == FieldOrNull(reason)
  {
    if !formValid then FormInvalid
    else if startsAt.Some? && endsAt.Some? && endsAt.value <= startsAt.value then EndNotAfterStart
    else if startsAt.None? || endsAt.None? then InvalidDate
    else
      var data := SlotData(FieldOrNull(resourceId), startsAt.value, endsAt.value, status,
                           FieldOrNull(title), FieldOrNull(reason), userId);
      if slotId.Some? && slotId.value != "" then UpdateStatus(slotId.value, status, userId)
      else CreateSlot(labId, data)
  }

  // ----- the resource filter -----

  /** A resource of the lab as the page lists it. */
  datatype Resource = Resource(id: int, name: string, kind: string, state: string, inventoryCode: Option<string>)

  /**
   * `filterResources`' test: the type and the state match or are not
   * chosen, and the lower-cased search is empty or found in the lower-cased
   * name or inventory code.
   */
  predicate ResourceMatches(r: Resource, kind: string, state: string, search: string) {
    (kind == "" || r.kind == kind)
    && (state == "" || r.state == state)
    && (search == "" || Contains(Lower(r.name), search)
        || (r.inventoryCode.Some? && r.inventoryCode.value != "" && Contains(Lower(r.inventoryCode.value), search)))
  }

  function Matching(kind: string, state: string, search: string): Resource -> bool {
    (r: Resource) => ResourceMatches(r, kind, state, search)
  }

  /** `filterResources()`: the search box is lower-cased before it is compared. */
  function FilterResources(resources: seq<Resource>, kind: string, state: string, searchInput: string): seq<Resource> {
    Keep(resources, Matching(kind, state, Lower(searchInput)))
  }

  /** The filtered list is the matching resources, in their order, and nothing else. */
  lemma FilterResourcesMeaning(resources: seq<Resource>, kind: string, state: string, searchInput: string)
    ensures IsSubseq(FilterResources(resources, kind, state, searchInput), resources)
    ensures forall r :: r in FilterResources(resources, kind, state, searchInput)
                        <==> r in resources && ResourceMatches(r, kind, state, Lower(searchInput))
  {
    KeepIsSubseq(resources, Matching(kind, state, Lower(searchInput)));
  }

  /** With no type, state or search every resource is listed. */
  lemma NoFilterKeepsAll(resources: seq<Resource>)
    ensures FilterResources(resources, "", "", "") == resources
  {
    assert Lower("") == "";
    KeepAll(resources, Matching("", "", ""));
  }
}
