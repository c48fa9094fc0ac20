/** The window of a budget on a given day, and the key that names it. */
module BudgetPeriod {
  import opened Outcomes
  import opened Calendar
  import opened Text

  datatype Period = Daily | Weekly | Monthly | Yearly | Custom

  datatype Budget = Budget(period: Period, customStart: Option<Date>, customEnd: Option<Date>)

  datatype Window = Window(start: Date, end: Date, elapsed: int, remaining: int)

  datatype Overflow = OverflowError

  function TotalDays(w: Window): int
    requires w.start.month >= 1 && w.end.month >= 1
  {
    Ordinal(w.end) - Ordinal(w.start) + 1
  }

  function MonthEnd(y: int, m: int): Date { Date(y, m, DaysInMonth(y, m)) }

  /** date + timedelta(days=n) */
  function AddDays(d: Date, n: int): Result<Date, Overflow>
    requires Valid(d)
  {
    if 1 <= Ordinal(d) + n <= MAX_ORDINAL then Ok(FromOrdinal(Ordinal(d) + n)) else Err(OverflowError)
  }

  function Bounds(b: Budget, today: Date): Result<(Date, Date), Overflow>
    requires Valid(today)
  {
    match b.period
    case Daily => Ok((today, today))
    case Weekly =>
      (match AddDays(today, -Weekday(today))
       case Err(e) => Err(e)
       case Ok(start) =>
         match AddDays(start, 6)
         case Err(e) => Err(e)
         case Ok(end) => Ok((start, end)))
    case Monthly => Ok((Date(today.year, today.month, 1), MonthEnd(today.year, today.month)))
    case Yearly => Ok((Date(today.year, 1, 1), Date(today.year, 12, 31)))
    case Custom =>
      if b.customStart.None? || b.customEnd.None? then Ok((today, today))
      else Ok((b.customStart.value, b.customEnd.value))
  }

  function Max(a: int, b: int): int { if a < b then b else a }

  function WithCounts(start: Date, end: Date, today: Date): Window
    requires Valid(start) && Valid(end) && Valid(today)
  {
    var elapsed :=
      if Ordinal(today) < Ordinal(start) then 0
      else if Ordinal(today) > Ordinal(end) then Ordinal(end) - Ordinal(start) + 1
      else Ordinal(today) - Ordinal(start) + 1;
    Window(start, end, elapsed, Max(Ordinal(end) - Ordinal(start) + 1 - elapsed, 0))
  }

  ghost predicate ValidBudget(b: Budget) {
    && (b.customStart.Some? ==> Valid(b.customStart.value))
    && (b.customEnd.Some? ==> Valid(b.customEnd.value))
  }

  lemma BoundsAreValid(b: Budget, today: Date)
    requires Valid(today) && ValidBudget(b)
    ensures Bounds(b, today).Ok? ==> Valid(Bounds(b, today).value.0) && Valid(Bounds(b, today).value.1)
  {
  }

  function ResolvePeriodWindow(b: Budget, today: Date): Result<Window, Overflow>
    requires Valid(today) && ValidBudget(b)
  {
    BoundsAreValid(b, today);
    match Bounds(b, today)
    case Err(e) => Err(e)
    case Ok(bounds) => Ok(WithCounts(bounds.0, bounds.1, today))
  }

  // ---- The windows partition the calendar ----------------------------------------

  predicate InWindow(d: Date, w: Window)
    requires d.month >= 1 && w.start.month >= 1 && w.end.month >= 1
  {
    Ordinal(w.start) <= Ordinal(d) <= Ordinal(w.end)
  }

  function WeekStart(d: Date): int
    requires d.month >= 1
  {
    Ordinal(d) - Weekday(d)
  }

  lemma WeekFloor(n: int)
    requires n >= 1
    ensures 1 <= n - (n + 6) % 7 <= n <= n - (n + 6) % 7 + 6
  {
  }

  lemma AddDaysMoves(d: Date, n: int)
    requires Valid(d)
    ensures AddDays(d, n).Ok? <==> 1 <= Ordinal(d) + n <= MAX_ORDINAL
    ensures AddDays(d, n).Ok? ==> Valid(AddDays(d, n).value) && Ordinal(AddDays(d, n).value) == Ordinal(d) + n
  {
  }

  /** Only a week that would run past 9999-12-31 cannot be resolved. */
  lemma WeeklyOverflow(b: Budget, today: Date)
    requires Valid(today) && today.year <= 9999 && ValidBudget(b)
    ensures ResolvePeriodWindow(b, today).Err?
      <==> b.period == Weekly && Ordinal(today) - Weekday(today) + 6 > Ordinal(Date(9999, 12, 31))
  {
    LastDate();
    FromOrdinalInverse(today);
    Representable(today);
    WeekFloor(Ordinal(today));
    AddDaysMoves(today, -Weekday(today));
    if b.period == Weekly { AddDaysMoves(AddDays(today, -Weekday(today)).value, 6); }
    hide Ordinal, AddDays, Valid;
  }

  /** Where the window of a recurring budget begins and ends, as day numbers. */
  lemma WindowBounds(b: Budget, today: Date)
    requires Valid(today) && ValidBudget(b) && b.period != Custom && ResolvePeriodWindow(b, today).Ok?
    ensures
      var w := ResolvePeriodWindow(b, today).value;
      && Valid(w.start) && Valid(w.end) && InWindow(today, w)
      && (b.period == Weekly ==> Ordinal(w.start) == WeekStart(today) && Ordinal(w.end) == WeekStart(today) + 6)
      && (b.period == Monthly
        ==> w.start == Date(today.year, today.month, 1) && w.end == MonthEnd(today.year, today.month))
      && (b.period == Yearly ==> w.start == Date(today.year, 1, 1) && w.end == Date(today.year, 12, 31))
      && (b.period == Daily ==> w.start == w.end == today)
  {
    FromOrdinalInverse(today);
    BoundsAreValid(b, today);
    var bounds := Bounds(b, today).value;
    OrdinalIsMonotone(bounds.0, today);
    OrdinalIsMonotone(today, bounds.1);
  }

  lemma MonthOfDay(today: Date, d: Date)
    requires Valid(today) && Valid(d)
    requires Ordinal(Date(today.year, today.month, 1)) <= Ordinal(d) <= Ordinal(MonthEnd(today.year, today.month))
    ensures d.year == today.year && d.month == today.month
  {
    OrdinalIsMonotone(d, Date(today.year, today.month, 1));
    OrdinalIsMonotone(MonthEnd(today.year, today.month), d);
  }

  lemma YearOfDay(today: Date, d: Date)
    requires Valid(today) && Valid(d)
    requires Ordinal(Date(today.year, 1, 1)) <= Ordinal(d) <= Ordinal(Date(today.year, 12, 31))
    ensures d.year == today.year
  {
    OrdinalIsMonotone(d, Date(today.year, 1, 1));
    OrdinalIsMonotone(Date(today.year, 12, 31), d);
  }

  lemma WeekOfDay(a: Date, b: Date)
    requires a.month >= 1 && b.month >= 1
    requires WeekStart(a) <= Ordinal(b) <= WeekStart(a) + 6
    ensures WeekStart(b) == WeekStart(a)
  {
  }

  predicate SameWindow(v: Window, w: Window) { v.start == w.start && v.end == w.end }

  /** Every day of a window resolves to that same window. */
  lemma WindowIsStable(b: Budget, today: Date, d: Date)
    requires Valid(today) && Valid(d) && today.year <= 9999 && d.year <= 9999 && ValidBudget(b) && b.period != Custom
    requires ResolvePeriodWindow(b, today).Ok?
    requires Valid(ResolvePeriodWindow(b, today).value.start) && Valid(ResolvePeriodWindow(b, today).value.end)
    requires InWindow(d, ResolvePeriodWindow(b, today).value)
    ensures ResolvePeriodWindow(b, d).Ok?
      && SameWindow(ResolvePeriodWindow(b, d).value, ResolvePeriodWindow(b, today).value)
  {
    var w := ResolvePeriodWindow(b, today).value;
    WindowBounds(b, today);
    match b.period
    case Daily => OrdinalIsMonotone(d, today);
    case Weekly =>
      WeekOfDay(today, d);
      WeeklyOverflow(b, today);
      WeeklyOverflow(b, d);
      WindowBounds(b, d);
      var v := ResolvePeriodWindow(b, d).value;
      OrdinalIsMonotone(v.start, w.start);
      OrdinalIsMonotone(v.end, w.end);
    case Monthly => MonthOfDay(today, d);
    case Yearly => YearOfDay(today, d);
  }

  /** A day on which a window of this period may begin. */
  predicate IsFirstDay(p: Period, d: Date)
    requires d.month >= 1
  {
    match p
    case Weekly => Weekday(d) == 0
    case Monthly => d.day == 1
    case Yearly => d.month == 1 && d.day == 1
    case _ => true
  }

  lemma FirstDayStartsWindow(b: Budget, d: Date)
    requires Valid(d) && ValidBudget(b) && b.period != Custom && ResolvePeriodWindow(b, d).Ok?
    requires IsFirstDay(b.period, d)
    ensures ResolvePeriodWindow(b, d).value.start == d
  {
    WindowBounds(b, d);
    if b.period == Weekly { OrdinalIsMonotone(ResolvePeriodWindow(b, d).value.start, d); }
  }

  lemma MondayAfter(today: Date, next: Date)
    requires today.month >= 1 && next.month >= 1
    requires Ordinal(next) == WeekStart(today) + 7
    ensures Weekday(next) == 0
  {
    hide Ordinal;
  }

  lemma DayAfterWindow(b: Budget, today: Date)
    requires Valid(today) && ValidBudget(b) && b.period != Custom && ResolvePeriodWindow(b, today).Ok?
    ensures Valid(NextDay(ResolvePeriodWindow(b, today).value.end))
    ensures IsFirstDay(b.period, NextDay(ResolvePeriodWindow(b, today).value.end))
  {
    var w := ResolvePeriodWindow(b, today).value;
    WindowBounds(b, today);
    NextDayOrdinal(w.end);
    hide ResolvePeriodWindow, Ordinal, Valid, Weekday, WeekStart;
    if b.period == Weekly { MondayAfter(today, NextDay(w.end)); }
  }

  /** The day after a window starts the next one. */
  lemma NextWindowStarts(b: Budget, today: Date)
    requires Valid(today) && ValidBudget(b) && b.period != Custom && ResolvePeriodWindow(b, today).Ok?
    ensures
      var next := NextDay(ResolvePeriodWindow(b, today).value.end);
      && Valid(next)
      && (ResolvePeriodWindow(b, next).Ok? ==> ResolvePeriodWindow(b, next).value.start == next)
  {
    DayAfterWindow(b, today);
    var next := NextDay(ResolvePeriodWindow(b, today).value.end);
    if ResolvePeriodWindow(b, next).Ok? { FirstDayStartsWindow(b, next); }
  }

  // ---- period_key ------------------------------------------------------------------

  function Digit(n: int): char { ('0' as int + n % 10) as char }

  /** date.isoformat() */
  function IsoFormat(d: Date): string {
    [Digit(d.year / 1000), Digit(d.year / 100), Digit(d.year / 10), Digit(d.year), '-',
     Digit(d.month / 10), Digit(d.month), '-', Digit(d.day / 10), Digit(d.day)]
  }

  function PeriodKey(b: Budget, w: Window): string {
    if b.period == Custom then IsoFormat(w.start) + ":" + IsoFormat(w.end) else IsoFormat(w.start)
  }

  lemma SameDigits(a: int, b: int)
    requires 0 <= a <= 9999 && 0 <= b <= 9999
    requires a % 10 == b % 10 && a / 10 % 10 == b / 10 % 10 && a / 100 % 10 == b / 100 % 10
      && a / 1000 % 10 == b / 1000 % 10
    ensures a == b
  {
    FourDigits(a);
    FourDigits(b);
  }

  lemma FourDigits(n: int)
    requires 0 <= n <= 9999
    ensures n == 1000 * (n / 1000 % 10) + 100 * (n / 100 % 10) + 10 * (n / 10 % 10) + n % 10
  {
    var tens, hundreds, thousands := n / 10, n / 100, n / 1000;
    assert hundreds == tens / 10 && thousands == hundreds / 10;
    assert n == 10 * tens + n % 10;
    assert tens == 10 * hundreds + tens % 10;
    assert hundreds == 10 * thousands + hundreds % 10;
    assert thousands % 10 == thousands;
  }

  lemma SmallNumber(n: int)
    requires 0 <= n <= 99
    ensures n / 100 % 10 == 0 && n / 1000 % 10 == 0
  {
  }

  lemma DigitOf(a: int, b: int)
    ensures Digit(a) == Digit(b) <==> a % 10 == b % 10
  {
  }

  lemma IsoFormatIsInjective(a: Date, b: Date)
    requires Valid(a) && Valid(b) && a.year <= 9999 && b.year <= 9999
    ensures IsoFormat(a) == IsoFormat(b) <==> a == b
  {
    if IsoFormat(a) == IsoFormat(b) {
      var s, t := IsoFormat(a), IsoFormat(b);
      assert s[0] == t[0] && s[1] == t[1] && s[2] == t[2] && s[3] == t[3];
      assert s[5] == t[5] && s[6] == t[6] && s[8] == t[8] && s[9] == t[9];
      hide Digit, IsoFormat;
      DigitOf(a.year / 1000, b.year / 1000);
      DigitOf(a.year / 100, b.year / 100);
      DigitOf(a.year / 10, b.year / 10);
      DigitOf(a.year, b.year);
      SameDigits(a.year, b.year);
      DigitOf(a.month / 10, b.month / 10);
      DigitOf(a.month, b.month);
      SmallNumber(a.month);
      SmallNumber(b.month);
      SameDigits(a.month, b.month);
      DigitOf(a.day / 10, b.day / 10);
      DigitOf(a.day, b.day);
      SmallNumber(a.day);
      SmallNumber(b.day);
      SameDigits(a.day, b.day);
    }
  }

  /** An ISO date reads year, month and day. */
  lemma IsoFormatReads(d: Date)
    requires Valid(d) && d.year <= 9999
    ensures
      var s := IsoFormat(d);
      && |s| == 10 && s[4] == '-' && s[7] == '-'
      && Number(s[..4]) == d.year && Number(s[5..7]) == d.month && Number(s[8..]) == d.day
  {
    var s := IsoFormat(d);
    FourDigits(d.year);
    FourDigits(d.month);
    FourDigits(d.day);
    SmallNumber(d.month);
    SmallNumber(d.day);
    assert s[..4] == [s[0], s[1], s[2], s[3]] && s[5..7] == [s[5], s[6]] && s[8..] == [s[8], s[9]];
    assert DigitValue(s[0]) == d.year / 1000 % 10 && DigitValue(s[1]) == d.year / 100 % 10;
    assert DigitValue(s[2]) == d.year / 10 % 10 && DigitValue(s[3]) == d.year % 10;
    assert DigitValue(s[5]) == d.month / 10 % 10 && DigitValue(s[6]) == d.month % 10;
    assert DigitValue(s[8]) == d.day / 10 % 10 && DigitValue(s[9]) == d.day % 10;
    hide IsoFormat, Digit;
    NumberOfFour(s[0], s[1], s[2], s[3]);
    NumberOfTwo(s[5], s[6]);
    NumberOfTwo(s[8], s[9]);
  }

  function DigitValue(c: char): int { c as int - '0' as int }

  lemma NumberOfTwo(a: char, b: char)
    ensures Number([a, b]) == 10 * DigitValue(a) + DigitValue(b)
  {
    assert [a, b][..1] == [a] && [a][..0] == [] && Number([]) == 0;
  }

  lemma NumberOfFour(a: char, b: char, c: char, d: char)
    ensures Number([a, b, c, d]) == 1000 * DigitValue(a) + 100 * DigitValue(b) + 10 * DigitValue(c) + DigitValue(d)
  {
    NumberOfTwo(a, b);
    assert [a, b, c, d][..3] == [a, b, c] && [a, b, c][..2] == [a, b];
    assert Number([a, b, c]) == 10 * Number([a, b]) + DigitValue(c);
  }

  /** Custom windows have the same key exactly when they have the same bounds. */
  lemma KeyNamesCustomWindow(b: Budget, v: Window, w: Window)
    requires b.period == Custom && Valid(v.start) && Valid(v.end) && Valid(w.start) && Valid(w.end)
    requires v.start.year <= 9999 && v.end.year <= 9999 && w.start.year <= 9999 && w.end.year <= 9999
    ensures PeriodKey(b, v) == PeriodKey(b, w) <==> SameWindow(v, w)
  {
    IsoFormatIsInjective(v.start, w.start);
    IsoFormatIsInjective(v.end, w.end);
    var s, t := PeriodKey(b, v), PeriodKey(b, w);
    assert s[..10] == IsoFormat(v.start) && s[11..] == IsoFormat(v.end);
    assert t[..10] == IsoFormat(w.start) && t[11..] == IsoFormat(w.end);
    hide IsoFormat, PeriodKey;
  }

  /** Two days of a recurring budget share a period key exactly when they share
      a window. */
  lemma KeyNamesWindow(b: Budget, x: Date, y: Date)
    requires Valid(x) && Valid(y) && x.year <= 9999 && y.year <= 9999 && ValidBudget(b) && b.period != Custom
    requires ResolvePeriodWindow(b, x).Ok? && ResolvePeriodWindow(b, y).Ok?
    ensures
      var v, w := ResolvePeriodWindow(b, x).value, ResolvePeriodWindow(b, y).value;
      && (PeriodKey(b, v) == PeriodKey(b, w) <==> SameWindow(v, w))
      && (SameWindow(v, w) <==> Valid(v.start) && Valid(v.end) && InWindow(y, v))
  {
    var v, w := ResolvePeriodWindow(b, x).value, ResolvePeriodWindow(b, y).value;
    WindowBounds(b, x);
    WindowBounds(b, y);
    StartYear(b, x);
    StartYear(b, y);
    IsoFormatIsInjective(v.start, w.start);
    if InWindow(y, v) { WindowIsStable(b, x, y); }
    if v.start == w.start { WindowIsStable(b, x, v.start); WindowIsStable(b, y, w.start); }
  }

  lemma StartYear(b: Budget, x: Date)
    requires Valid(x) && x.year <= 9999 && ValidBudget(b) && b.period != Custom && ResolvePeriodWindow(b, x).Ok?
    ensures ResolvePeriodWindow(b, x).value.start.year <= 9999
  {
    WindowBounds(b, x);
    OrdinalIsMonotone(ResolvePeriodWindow(b, x).value.start, x);
  }

  // ---- Counting days -----------------------------------------------------------------

  /** Elapsed and remaining days add up to the window for every window that is
      not backwards; a backwards custom window by more than a day still adds up
      exactly when it has begun. */
  lemma DaysAddUp(start: Date, end: Date, today: Date)
    requires Valid(start) && Valid(end) && Valid(today)
    ensures
      var w := WithCounts(start, end, today);
      w.elapsed + w.remaining == TotalDays(w)
      <==> Ordinal(start) <= Ordinal(end) + 1 || Ordinal(start) <= Ordinal(today)
  {
  }

  /** The day numbers of a stretch of days, both ends included. */
  function Days(from: int, to: int): (days: set<int>)
    ensures forall n :: n in days <==> from <= n <= to
    ensures |days| == if from <= to then to - from + 1 else 0
    decreases if from <= to then to - from + 1 else 0
  {
    if from > to then {} else Days(from, to - 1) + {to}
  }

  /** In a window that is not backwards the elapsed days are those up to today,
      today included, and the remaining days those after it. */
  lemma DaysAreCounted(start: Date, end: Date, today: Date)
    requires Valid(start) && Valid(end) && Valid(today) && Ordinal(start) <= Ordinal(end) + 1
    ensures
      var w, days := WithCounts(start, end, today), Days(Ordinal(start), Ordinal(end));
      && w.start == start && w.end == end
      && w.elapsed == |set n | n in days && n <= Ordinal(today)|
      && w.remaining == |set n | n in days && n > Ordinal(today)|
  {
    var from, to, now := Ordinal(start), Ordinal(end), Ordinal(today);
    var last, next := if now < to then now else to, if now < from then from else now + 1;
    assert (set n | n in Days(from, to) && n <= now) == Days(from, last);
    assert (set n | n in Days(from, to) && n > now) == Days(next, to);
    hide Ordinal, Days;
  }

  /** A custom window is exactly the configured one, and today when one end is missing. */
  lemma CustomWindow(b: Budget, today: Date)
    requires Valid(today) && ValidBudget(b) && b.period == Custom
    ensures ResolvePeriodWindow(b, today).Ok?
    ensures
      var w := ResolvePeriodWindow(b, today).value;
      if b.customStart.Some? && b.customEnd.Some? then w.start == b.customStart.value && w.end == b.customEnd.value
      else w.start == today && w.end == today
  {
    hide Ordinal;
  }

  /** A backwards custom window has no day left; it counts nothing before it starts
      and a number that is not positive afterwards. */
  lemma BackwardsWindow(start: Date, end: Date, today: Date)
    requires Valid(start) && Valid(end) && Valid(today) && Ordinal(start) > Ordinal(end) + 1
    ensures
      var w := WithCounts(start, end, today);
      && w.remaining == 0
      && w.elapsed == if Ordinal(today) < Ordinal(start) then 0 else Ordinal(end) + 1 - Ordinal(start)
  {
    hide Ordinal;
  }

  /** _forecast, in exact arithmetic: projected spend and remaining allowance. */
  function Forecast(amount: real, w: Window, spend: real): (real, real)
    requires w.start.month >= 1 && w.end.month >= 1
  {
    (if w.elapsed <= 0 then spend else spend / w.elapsed as real * TotalDays(w) as real,
     if w.remaining <= 0 then 0.0 else (amount - spend) / w.remaining as real)
  }

  lemma DivideAndMultiply(x: real, n: int)
    requires n != 0
    ensures x / n as real * n as real == x
  {
  }

  /** Spending the allowance on every remaining day uses up the budget exactly,
      and the projection continues the daily average over the whole window. */
  lemma ForecastIsExact(amount: real, w: Window, spend: real)
    requires w.start.month >= 1 && w.end.month >= 1
    ensures w.remaining > 0 ==> Forecast(amount, w, spend).1 * w.remaining as real + spend == amount
    ensures w.elapsed > 0 ==> Forecast(amount, w, spend).0 * w.elapsed as real == spend * TotalDays(w) as real
    ensures w.elapsed == TotalDays(w) > 0 ==> Forecast(amount, w, spend).0 == spend
    ensures w.remaining <= 0 ==> Forecast(amount, w, spend).1 == 0.0
    ensures w.elapsed <= 0 ==> Forecast(amount, w, spend).0 == spend
  {
    if w.remaining > 0 { DivideAndMultiply(amount - spend, w.remaining); }
    if w.elapsed > 0 {
      DivideAndMultiply(spend, w.elapsed);
      var rate, total, elapsed := spend / w.elapsed as real, TotalDays(w) as real, w.elapsed as real;
      assert rate * total * elapsed == rate * elapsed * total;
    }
  }
}
