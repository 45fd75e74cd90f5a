/**
 * The month grid of the date picker: Gregorian arithmetic standing in for
 * JavaScript's `Date`, month navigation with year wrap-around, and the grid
 * that `generateCalendarHTML` lays out.
 */
module Calendar {
  import opened Text

  // ---------------------------------------------------------------------------
  // Gregorian arithmetic (proleptic, astronomical year numbering as in `Date`)
  // ---------------------------------------------------------------------------

  predicate IsLeapYear(y: int) {
    y % 4 == 0 && (y % 100 != 0 || y % 400 == 0)
  }

  /** Days in month `m` (0 = January) of year `y`. */
  function MonthLength(y: int, m: int): (n: nat)
    requires 0 <= m <= 11
    ensures 28 <= n <= 31
    ensures m == 1 ==> (n == 29 <==> IsLeapYear(y))
  {
    if m == 1 then (if IsLeapYear(y) then 29 else 28)
    else if m == 3 || m == 5 || m == 8 || m == 10 then 30
    else 31
  }

  /** Days of year `y` that come before the first of month `m`; `m == 12` gives the length of the year. */
  function DaysBeforeMonth(y: int, m: int): nat
    requires 0 <= m <= 12
  {
    [0, 31, 59, 90, 120, 151, 181, 212, 243, 273, 304, 334, 365][m] + (if IsLeapYear(y) && m >= 2 then 1 else 0)
  }

  /** Leap years in `[0, y)` for `y >= 0`, and minus the leap years in `[y, 0)` otherwise. */
  function LeapYearsBefore(y: int): int {
    (y + 3) / 4 - (y + 99) / 100 + (y + 399) / 400
  }

  /** Days from 1 January of year 0 to 1 January of year `y`. */
  function DaysBeforeYear(y: int): int {
    365 * y + LeapYearsBefore(y)
  }

  /** Days from 1 January of year 0 to day `d` of month `m` of year `y`. */
  function DayNumber(y: int, m: int, d: int): int
    requires 0 <= m <= 11
  {
    DaysBeforeYear(y) + DaysBeforeMonth(y, m) + d - 1
  }

  /** Day of the week, 0 = Sunday .. 6 = Saturday; 1 January of year 0 was a Saturday. */
  function Weekday(y: int, m: int, d: int): (w: nat)
    requires 0 <= m <= 11
    ensures w < 7
  {
    (DayNumber(y, m, d) + 6) % 7
  }

  /** The months before `m + 1` are those before `m` and `m` itself. */
  lemma DaysBeforeNextMonth(y: int, m: int)
    requires 0 <= m <= 11
    ensures DaysBeforeMonth(y, m + 1) == DaysBeforeMonth(y, m) + MonthLength(y, m)
  {
  }

  lemma NextMultiple(y: int, k: int)
    requires k == 4 || k == 100 || k == 400
    ensures (y + k) / k - (y + k - 1) / k == if y % k == 0 then 1 else 0
  {
  }

  /** Every multiple of 400 is one of 100, and every multiple of 100 one of 4. */
  lemma MultiplesNest(y: int)
    ensures y % 400 == 0 ==> y % 100 == 0
    ensures y % 100 == 0 ==> y % 4 == 0
  {
    if y % 400 == 0 {
      var q := y / 400;
      assert y == 100 * (4 * q);
    }
    if y % 100 == 0 {
      var q := y / 100;
      assert y == 4 * (25 * q);
    }
  }

  /** Consecutive new-year days are a year's length apart. */
  lemma YearLength(y: int)
    ensures DaysBeforeYear(y + 1) == DaysBeforeYear(y) + DaysBeforeMonth(y, 12)
  {
    NextMultiple(y, 4);
    NextMultiple(y, 100);
    NextMultiple(y, 400);
    MultiplesNest(y);
    assert LeapYearsBefore(y + 1) - LeapYearsBefore(y) == if IsLeapYear(y) then 1 else 0;
    assert DaysBeforeMonth(y, 12) == 365 + if IsLeapYear(y) then 1 else 0;
  }

  // ---------------------------------------------------------------------------
  // What `new Date(year, month, day)` computes
  // ---------------------------------------------------------------------------

  /** `new Date(y, ...)` reads a year from 0 to 99 as 1900 + y. */
  function JsYear(y: int): int {
    if 0 <= y <= 99 then 1900 + y else y
  }

  /** `new Date(year, month, 1).getDay()` (main.js:724). */
  function FirstDay(month: int, year: int): (w: nat)
    requires 0 <= month <= 11
    ensures w <= 6
  {
    Weekday(JsYear(year), month, 1)
  }

  /** `new Date(year, month + 1, 0).getDate()`: day 0 of the next month is the last of this one (main.js:725). */
  function DaysInMonth(month: int, year: int): (n: nat)
    requires 0 <= month <= 11
    ensures 28 <= n <= 31
    ensures month == 1 ==> (n == 29 <==> IsLeapYear(JsYear(year)))
  {
    MonthLength(JsYear(year), month)
  }

  // ---------------------------------------------------------------------------
  // Month navigation
  // ---------------------------------------------------------------------------

  /** `data-direction` of the navigation button: anything but `next` steps back. */
  datatype Direction = Prev | Next

  /**
   * The Prev/Next handler (main.js:659-666): one month back or forward, the
   * month index wrapping across the year boundary. As a count of months
   * since year 0, the result is exactly one more or one less.
   */
  function ShiftMonth(month: int, year: int, dir: Direction): (r: (int, int))
    requires 0 <= month <= 11
    ensures 0 <= r.0 <= 11
    ensures r.1 * 12 + r.0 == year * 12 + month + (if dir == Next then 1 else -1)
  {
    var newMonth := month + (if dir == Next then 1 else -1);
    if newMonth > 11 then (0, year + 1)
    else if newMonth < 0 then (11, year - 1)
    else (newMonth, year)
  }

  /** Going forward then back shows the original month again. */
  lemma NextThenPrev(month: int, year: int)
    requires 0 <= month <= 11
    ensures var r := ShiftMonth(month, year, Next); ShiftMonth(r.0, r.1, Prev) == (month, year)
  {
  }

  /** Going back then forward shows the original month again. */
  lemma PrevThenNext(month: int, year: int)
    requires 0 <= month <= 11
    ensures var r := ShiftMonth(month, year, Prev); ShiftMonth(r.0, r.1, Next) == (month, year)
  {
  }

  /**
   * The grid of the next month starts on the weekday after this month's last
   * day, except where `new Date` jumps between year 99 (read as 1999) and 100,
   * or between year -1 and year 0 (read as 1900).
   */
  lemma NextMonthStartsAfter(month: int, year: int)
    requires 0 <= month <= 11
    requires !(month == 11 && (year == -1 || year == 99))
    ensures var r := ShiftMonth(month, year, Next);
      FirstDay(r.0, r.1) == (FirstDay(month, year) + DaysInMonth(month, year)) % 7
  {
    var r := ShiftMonth(month, year, Next);
    var a := DayNumber(JsYear(year), month, 1);
    var n := MonthLength(JsYear(year), month);
    NextMonthDayNumber(month, year);
    assert FirstDay(r.0, r.1) == (a + n + 6) % 7;
    ModShift(a + 6, n);
  }

  /** The first of the next month is the first of this month plus its length, counted in days. */
  lemma NextMonthDayNumber(month: int, year: int)
    requires 0 <= month <= 11
    requires !(month == 11 && (year == -1 || year == 99))
    ensures var r := ShiftMonth(month, year, Next);
      DayNumber(JsYear(r.1), r.0, 1) == DayNumber(JsYear(year), month, 1) + MonthLength(JsYear(year), month)
  {
    var y := JsYear(year);
    var r := ShiftMonth(month, year, Next);
    if month < 11 {
      DaysBeforeNextMonth(y, month);
      assert r == (month + 1, year);
    } else {
      assert r == (0, year + 1) && JsYear(r.1) == y + 1;
      YearLength(y);
    }
  }

  lemma ModShift(x: int, n: int)
    ensures (x + n) % 7 == (x % 7 + n) % 7
  {
    var q := x / 7;
    assert x == 7 * q + x % 7;
    assert x + n == 7 * q + (x % 7 + n);
  }

  // ---------------------------------------------------------------------------
  // The rendered grid
  // ---------------------------------------------------------------------------

  /** A cell of the grid: a weekday header, a leading blank, or a clickable day carrying its number as text. */
  datatype Cell = Header(name: string) | Blank | DayCell(text: string)

  datatype Grid = Grid(title: string, cells: seq<Cell>)

  const WeekdayNames: seq<string> := ["Sun", "Mon", "Tue", "Wed", "Thu", "Fri", "Sat"]

  const MonthNames: seq<string> :=
    ["January", "February", "March", "April", "May", "June",
     "July", "August", "September", "October", "November", "December"]

  /**
   * `generateCalendarHTML` (main.js:721-756) as the sequence of cells it
   * emits: seven weekday headers, one blank per weekday before the 1st, then
   * the days 1..DaysInMonth in order.
   */
  method GenerateCalendar(month: int, year: int) returns (g: Grid)
    requires 0 <= month <= 11
    ensures g.title == MonthNames[month] + " " + IntToString(year)
    ensures |g.cells| == 7 + FirstDay(month, year) + DaysInMonth(month, year)
    ensures forall i :: 0 <= i < 7 ==> g.cells[i] == Header(WeekdayNames[i])
    ensures forall i :: 7 <= i < 7 + FirstDay(month, year) ==> g.cells[i] == Blank
    ensures forall d :: 1 <= d <= DaysInMonth(month, year) ==>
      g.cells[6 + FirstDay(month, year) + d] == DayCell(NatToString(d))
  {
    var firstDay := FirstDay(month, year);
    var daysInMonth := DaysInMonth(month, year);
    var cells: seq<Cell> := [];
    for k := 0 to 7
      invariant |cells| == k
      invariant forall i :: 0 <= i < k ==> cells[i] == Header(WeekdayNames[i])
    {
      cells := cells + [Header(WeekdayNames[k])];
    }
    for i := 0 to firstDay
      invariant |cells| == 7 + i
      invariant forall j :: 0 <= j < 7 ==> cells[j] == Header(WeekdayNames[j])
      invariant forall j :: 7 <= j < 7 + i ==> cells[j] == Blank
    {
      cells := cells + [Blank];
    }
    for day := 1 to daysInMonth + 1
      invariant |cells| == 6 + firstDay + day
      invariant forall j :: 0 <= j < 7 ==> cells[j] == Header(WeekdayNames[j])
      invariant forall j :: 7 <= j < 7 + firstDay ==> cells[j] == Blank
      invariant forall d :: 1 <= d < day ==> cells[6 + firstDay + d] == DayCell(NatToString(d))
    {
      cells := cells + [DayCell(NatToString(day))];
    }
    g := Grid(MonthNames[month] + " " + IntToString(year), cells);
  }

  /** The example of a month that starts on a Sunday: March 2026 has no blanks and 31 days. */
  lemma March2026()
    ensures FirstDay(2, 2026) == 0 && DaysInMonth(2, 2026) == 31
  {
  }
}
