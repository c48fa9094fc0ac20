/** The proleptic Gregorian calendar of Python's datetime.date. */
module Calendar {

  datatype Date = Date(year: int, month: int, day: int)

  predicate IsLeap(y: int) { y % 4 == 0 && (y % 100 != 0 || y % 400 == 0) }

  /** calendar.monthrange(year, month)[1] */
  function DaysInMonth(y: int, m: int): int {
    if m == 2 then (if IsLeap(y) then 29 else 28)
    else if m == 4 || m == 6 || m == 9 || m == 11 then 30
    else 31
  }

  function DaysInYear(y: int): int { if IsLeap(y) then 366 else 365 }

  predicate Valid(d: Date) {
    d.year >= 1 && 1 <= d.month <= 12 && 1 <= d.day <= DaysInMonth(d.year, d.month)
  }

  function DaysBeforeYear(y: int): int { (y - 1) * 365 + (y - 1) / 4 - (y - 1) / 100 + (y - 1) / 400 }

  function DaysBeforeMonth(y: int, m: int): int
    requires 1 <= m
  {
    if m == 1 then 0 else DaysBeforeMonth(y, m - 1) + DaysInMonth(y, m - 1)
  }

  /** toordinal(): 0001-01-01 is day 1. */
  function Ordinal(d: Date): int
    requires d.month >= 1
  {
    DaysBeforeYear(d.year) + DaysBeforeMonth(d.year, d.month) + d.day
  }

  /** The last date that datetime.date can hold, 9999-12-31. */
  const MAX_ORDINAL := 3652059

  /** weekday(): Monday is 0. */
  function Weekday(d: Date): int
    requires d.month >= 1
  {
    (Ordinal(d) + 6) % 7
  }

  function NextDay(d: Date): Date {
    if d.day < DaysInMonth(d.year, d.month) then Date(d.year, d.month, d.day + 1)
    else if d.month < 12 then Date(d.year, d.month + 1, 1)
    else Date(d.year + 1, 1, 1)
  }

  predicate Earlier(a: Date, b: Date) {
    a.year < b.year || (a.year == b.year && (a.month < b.month || (a.month == b.month && a.day < b.day)))
  }

  lemma YearLength(y: int)
    ensures DaysBeforeYear(y + 1) == DaysBeforeYear(y) + DaysInYear(y)
  {
    QuotientStep(y, 4);
    QuotientStep(y, 100);
    QuotientStep(y, 400);
    MultipleOf(y, 25, 4);
    MultipleOf(y, 4, 100);
  }

  /** A multiple of a * b is a multiple of b. */
  lemma MultipleOf(y: int, a: int, b: int)
    requires (a == 25 && b == 4) || (a == 4 && b == 100)
    ensures y % (a * b) == 0 ==> y % b == 0
  {
    if y % (a * b) == 0 {
      var k := y / (a * b);
      assert y == b * (a * k);
    }
  }

  lemma QuotientStep(y: int, k: int)
    requires k == 4 || k == 100 || k == 400
    ensures y / k == (y - 1) / k + if y % k == 0 then 1 else 0
  {
  }

  lemma {:induction false} YearsAddUp(a: int, b: int)
    requires a < b
    ensures DaysBeforeYear(a) + DaysInYear(a) <= DaysBeforeYear(b)
    decreases b - a
  {
    YearLength(b - 1);
    if a < b - 1 { YearsAddUp(a, b - 1); }
  }

  lemma {:induction false} MonthsAddUp(y: int, a: int, b: int)
    requires 1 <= a < b
    ensures DaysBeforeMonth(y, a) + DaysInMonth(y, a) <= DaysBeforeMonth(y, b)
    decreases b
  {
    if a < b - 1 { MonthsAddUp(y, a, b - 1); }
  }

  lemma {:induction false} MonthStart(y: int, m: int)
    requires 1 <= m <= 12
    ensures 0 <= DaysBeforeMonth(y, m)
    ensures m == 12 ==> DaysBeforeMonth(y, m) + 31 == DaysInYear(y)
    ensures DaysBeforeMonth(y, m) == [0, 31, 59, 90, 120, 151, 181, 212, 243, 273, 304, 334][m - 1]
                                     + if m > 2 && IsLeap(y) then 1 else 0
  {
    if m > 1 { MonthStart(y, m - 1); }
  }

  lemma WithinYear(d: Date)
    requires Valid(d)
    ensures DaysBeforeYear(d.year) < Ordinal(d) <= DaysBeforeYear(d.year) + DaysInYear(d.year)
  {
    MonthStart(d.year, d.month);
    MonthStart(d.year, 12);
    if d.month < 12 { MonthsAddUp(d.year, d.month, 12); }
  }

  lemma NextDayOrdinal(d: Date)
    requires Valid(d)
    ensures Valid(NextDay(d)) && Ordinal(NextDay(d)) == Ordinal(d) + 1
  {
    MonthStart(d.year, d.month);
    if d.month == 12 { YearLength(d.year); }
  }

  /** Earlier dates have smaller ordinals. */
  lemma OrdinalIsMonotone(a: Date, b: Date)
    requires Valid(a) && Valid(b)
    ensures Earlier(a, b) <==> Ordinal(a) < Ordinal(b)
    ensures a == b <==> Ordinal(a) == Ordinal(b)
  {
    if Earlier(a, b) { OrdinalGrows(a, b); }
    if Earlier(b, a) { OrdinalGrows(b, a); }
  }

  lemma OrdinalGrows(a: Date, b: Date)
    requires Valid(a) && Valid(b) && Earlier(a, b)
    ensures Ordinal(a) < Ordinal(b)
  {
    if a.year < b.year {
      WithinYear(a);
      WithinYear(b);
      YearsAddUp(a.year, b.year);
    } else if a.month < b.month {
      MonthsAddUp(a.year, a.month, b.month);
    }
  }

  /** fromordinal() */
  function FromOrdinal(n: nat): (d: Date)
    requires n >= 1
    ensures Valid(d) && Ordinal(d) == n
  {
    if n == 1 then Date(1, 1, 1) else
      var before := FromOrdinal(n - 1);
      NextDayOrdinal(before);
      NextDay(before)
  }

  /** Counting days and reading the calendar are inverse. */
  lemma FromOrdinalInverse(d: Date)
    requires Valid(d)
    ensures Ordinal(d) >= 1 && FromOrdinal(Ordinal(d)) == d
  {
    WithinYear(d);
    if d.year > 1 { YearsAddUp(1, d.year); }
    OrdinalIsMonotone(FromOrdinal(Ordinal(d)), d);
  }

  lemma LastDate()
    ensures Valid(Date(9999, 12, 31)) && Ordinal(Date(9999, 12, 31)) == MAX_ORDINAL
  {
    MonthStart(9999, 12);
  }

  /** The dates Python can hold are those up to MAX_ORDINAL. */
  lemma Representable(d: Date)
    requires Valid(d)
    ensures d.year <= 9999 <==> Ordinal(d) <= MAX_ORDINAL
  {
    LastDate();
    OrdinalIsMonotone(d, Date(9999, 12, 31));
  }

  /** The Gregorian leap years: every fourth, of the centuries every fourth. */
  lemma LeapYears(y: int)
    ensures DaysInYear(y) == if y % 400 == 0 || (y % 4 == 0 && y % 100 != 0) then 366 else 365
    ensures DaysInMonth(y, 2) == DaysInYear(y) - 337
  {
    assert y % 400 == 0 ==> y % 4 == 0 by {
      if y % 400 == 0 { assert y == 4 * (100 * (y / 400)); }
    }
  }

  const MONTHS := [31, 28, 31, 30, 31, 30, 31, 31, 30, 31, 30, 31]

  lemma MonthLengths(y: int, m: int)
    requires 1 <= m <= 12
    ensures m != 2 ==> DaysInMonth(y, m) == MONTHS[m - 1]
  {
  }

  /** Day numbers are counted from 0001-01-01, and 2024-01-01 is a Monday. */
  lemma Anchors()
    ensures Ordinal(Date(1, 1, 1)) == 1 && Weekday(Date(2024, 1, 1)) == 0
  {
    FirstOfYear(1);
    FirstOfYear(2024);
    hide Ordinal;
  }

  lemma FirstOfYear(y: int)
    ensures Ordinal(Date(y, 1, 1)) == (y - 1) * 365 + (y - 1) / 4 - (y - 1) / 100 + (y - 1) / 400 + 1
  {
    hide DaysInMonth;
  }

  /** From day to day the weekday moves on, after Sunday to Monday. */
  lemma WeekdaysGoRound(d: Date)
    requires Valid(d)
    ensures 0 <= Weekday(d) <= 6
    ensures Weekday(NextDay(d)) == if Weekday(d) == 6 then 0 else Weekday(d) + 1
  {
    NextDayOrdinal(d);
    hide Ordinal, NextDay, Valid;
    SevenStep(Ordinal(d) + 6);
  }

  lemma SevenStep(n: int)
    ensures (n + 1) % 7 == if n % 7 == 6 then 0 else n % 7 + 1
  {
  }

  /** The next day of the calendar: the month and the year roll over at their ends. */
  lemma NextDayMeaning(d: Date)
    requires Valid(d)
    ensures Valid(NextDay(d))
    ensures NextDay(d) == Date(d.year, d.month, d.day + 1)
      || (NextDay(d) == Date(d.year, d.month + 1, 1) && d.day == DaysInMonth(d.year, d.month))
      || (NextDay(d) == Date(d.year + 1, 1, 1) && d.month == 12 && d.day == 31)
  {
  }
}
