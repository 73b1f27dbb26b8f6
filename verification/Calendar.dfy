/** The Gregorian calendar as Python's `date` has it: order, the next and
    previous day, and month arithmetic clamped to short months. */
module Calendar {
  predicate IsLeap(year: int) {
    year % 4 == 0 && (year % 100 != 0 || year % 400 == 0)
  }

  function DaysIn(year: int, month: int): (n: int)
    requires 1 <= month <= 12
    ensures 28 <= n <= 31
  {
    if month == 2 then (if IsLeap(year) then 29 else 28)
    else if month in {4, 6, 9, 11} then 30
    else 31
  }

  datatype YearMonthDay = YearMonthDay(year: int, month: int, day: int)

  predicate IsDate(d: YearMonthDay) {
    1 <= d.month <= 12 && 1 <= d.day <= DaysIn(d.year, d.month)
  }

  type Date = d: YearMonthDay | IsDate(d) witness YearMonthDay(1, 1, 1)

  type DayOfMonth = n: int | 1 <= n <= 31 witness 1

  /** Months since year 0. */
  function MonthIndex(d: Date): int {
    d.year * 12 + d.month - 1
  }

  /** A number that orders dates. */
  function Rank(d: Date): int {
    MonthIndex(d) * 32 + d.day
  }

  predicate Before(a: Date, b: Date) {
    Rank(a) < Rank(b)
  }

  predicate AtMost(a: Date, b: Date) {
    Rank(a) <= Rank(b)
  }

  function Later(a: Date, b: Date): Date {
    if Before(a, b) then b else a
  }

  lemma OrderIsLexicographic(a: Date, b: Date)
    ensures Before(a, b) <==>
      a.year < b.year || (a.year == b.year && (a.month < b.month || (a.month == b.month && a.day < b.day)))
    ensures Rank(a) == Rank(b) <==> a == b
  {
  }

  function ClampDay(year: int, month: int, day: DayOfMonth): Date
    requires 1 <= month <= 12
  {
    var last := DaysIn(year, month);
    YearMonthDay(year, month, if day <= last then day else last)
  }

  /** Day `day` of month number `n`, clamped. */
  function OnDay(n: int, day: DayOfMonth): Date {
    ClampDay(n / 12, n % 12 + 1, day)
  }

  function AddMonths(anchor: Date, months: int, day: DayOfMonth): Date {
    var total := anchor.year * 12 + (anchor.month - 1) + months;
    ClampDay(total / 12, total % 12 + 1, day)
  }

  function NextDay(d: Date): Date {
    if d.day < DaysIn(d.year, d.month) then YearMonthDay(d.year, d.month, d.day + 1)
    else if d.month < 12 then YearMonthDay(d.year, d.month + 1, 1)
    else YearMonthDay(d.year + 1, 1, 1)
  }

  function PreviousDay(d: Date): Date {
    if d.day > 1 then YearMonthDay(d.year, d.month, d.day - 1)
    else if d.month > 1 then YearMonthDay(d.year, d.month - 1, DaysIn(d.year, d.month - 1))
    else YearMonthDay(d.year - 1, 12, 31)
  }

  function AddDays(d: Date, days: int): Date
    decreases if days < 0 then -days else days
  {
    if days == 0 then d
    else if days > 0 then NextDay(AddDays(d, days - 1))
    else PreviousDay(AddDays(d, days + 1))
  }

  // --- days ----------------------------------------------------------------------

  lemma DayStep(d: Date)
    ensures Before(d, NextDay(d)) && Before(PreviousDay(d), d)
    ensures PreviousDay(NextDay(d)) == d && NextDay(PreviousDay(d)) == d
    ensures MonthIndex(d) <= MonthIndex(NextDay(d)) <= MonthIndex(d) + 1
    ensures MonthIndex(d) - 1 <= MonthIndex(PreviousDay(d)) <= MonthIndex(d)
  {
  }

  /** No date lies between a day and the next one. */
  lemma DaysAreConsecutive(d: Date, e: Date)
    ensures Before(d, e) <==> AtMost(NextDay(d), e)
  {
    hide DaysIn;
    if MonthIndex(e) == MonthIndex(d) {
      assert e.year == d.year && e.month == d.month;
    } else if d.day == DaysIn(d.year, d.month) {
      assert MonthIndex(NextDay(d)) == MonthIndex(d) + 1;
    }
  }

  lemma {:induction false} AddDaysIncreases(d: Date, i: int, j: int)
    requires 0 <= i < j
    ensures Before(AddDays(d, i), AddDays(d, j))
    decreases j
  {
    DayStep(AddDays(d, j - 1));
    if i < j - 1 {
      AddDaysIncreases(d, i, j - 1);
    }
  }

  // --- months ----------------------------------------------------------------------

  lemma OnDayFacts(n: int, day: DayOfMonth)
    ensures MonthIndex(OnDay(n, day)) == n
    ensures OnDay(n, day).day <= day
  {
  }

  lemma AddMonthsIsOnDay(anchor: Date, months: int, day: DayOfMonth)
    ensures AddMonths(anchor, months, day) == OnDay(MonthIndex(anchor) + months, day)
  {
  }

  /** Adding months lands in the target month, on the latest of its days that is
      no later in the month than the wanted one. */
  lemma AddMonthsIsLatest(anchor: Date, months: int, day: DayOfMonth)
    ensures MonthIndex(AddMonths(anchor, months, day)) == MonthIndex(anchor) + months
    ensures AddMonths(anchor, months, day).day <= day
    ensures forall d: Date | MonthIndex(d) == MonthIndex(anchor) + months && d.day <= day ::
      AtMost(d, AddMonths(anchor, months, day))
  {
    AddMonthsIsOnDay(anchor, months, day);
    OnDayFacts(MonthIndex(anchor) + months, day);
  }

  lemma OnDayIncreases(m: int, n: int, day: DayOfMonth, day': DayOfMonth)
    requires m < n
    ensures Before(OnDay(m, day), OnDay(n, day'))
  {
    OnDayFacts(m, day);
    OnDayFacts(n, day');
  }

  lemma OnDayMonotone(m: int, n: int, day: DayOfMonth)
    ensures AtMost(OnDay(m, day), OnDay(n, day)) <==> m <= n
  {
    if m < n {
      OnDayIncreases(m, n, day, day);
    } else if n < m {
      OnDayIncreases(n, m, day, day);
    }
  }

  // --- lengths ---------------------------------------------------------------------

  lemma {:induction false} WithinMonth(d: Date, days: nat)
    requires d.day + days <= DaysIn(d.year, d.month)
    ensures AddDays(d, days) == YearMonthDay(d.year, d.month, d.day + days)
  {
    if days > 0 {
      WithinMonth(d, days - 1);
    }
  }

  lemma {:induction false} DaysAddUp(d: Date, i: nat, j: nat)
    ensures AddDays(d, i + j) == AddDays(AddDays(d, i), j)
    decreases j
  {
    if j > 0 {
      DaysAddUp(d, i, j - 1);
    }
  }

  /** The days of a year before month `month`. */
  function DaysBefore(year: int, month: int): nat
    requires 1 <= month <= 12
  {
    if month == 1 then 0 else DaysBefore(year, month - 1) + DaysIn(year, month - 1)
  }

  lemma {:induction false} MonthStarts(year: int, month: int)
    requires 1 <= month <= 12
    ensures AddDays(YearMonthDay(year, 1, 1), DaysBefore(year, month)) == YearMonthDay(year, month, 1)
  {
    if month > 1 {
      MonthStarts(year, month - 1);
      var first: Date := YearMonthDay(year, month - 1, 1);
      var length := DaysIn(year, month - 1);
      WithinMonth(first, length - 1);
      DaysAddUp(first, length - 1, 1);
      NextIsOneLater(AddDays(first, length - 1));
      DaysAddUp(YearMonthDay(year, 1, 1), DaysBefore(year, month - 1), length);
    }
  }

  lemma NextIsOneLater(d: Date)
    ensures AddDays(d, 1) == NextDay(d)
  {
    assert AddDays(d, 0) == d;
  }

  /** A year has 365 days, and 366 when it is a multiple of 4 but not of 100,
      or a multiple of 400. */
  lemma YearLength(year: int)
    ensures var leap := (year % 4 == 0 && year % 100 != 0) || year % 400 == 0;
      AddDays(YearMonthDay(year, 1, 1), if leap then 366 else 365) == YearMonthDay(year + 1, 1, 1)
  {
    MonthStarts(year, 12);
    ElevenMonths(year);
    December(year);
    DaysAddUp(YearMonthDay(year, 1, 1), DaysBefore(year, 12), 31);
  }

  lemma December(year: int)
    ensures AddDays(YearMonthDay(year, 12, 1), 31) == YearMonthDay(year + 1, 1, 1)
  {
    var first: Date := YearMonthDay(year, 12, 1);
    WithinMonth(first, 30);
    DaysAddUp(first, 30, 1);
    NextIsOneLater(AddDays(first, 30));
  }

  lemma ElevenMonths(year: int)
    ensures DaysBefore(year, 12) == if IsLeap(year) then 335 else 334
  {
    assert DaysBefore(year, 2) == 31 && DaysBefore(year, 3) == 31 + DaysIn(year, 2);
    assert DaysBefore(year, 4) == DaysBefore(year, 3) + 31;
    assert DaysBefore(year, 5) == DaysBefore(year, 4) + 30;
    assert DaysBefore(year, 6) == DaysBefore(year, 5) + 31;
    assert DaysBefore(year, 7) == DaysBefore(year, 6) + 30;
    assert DaysBefore(year, 8) == DaysBefore(year, 7) + 31;
    assert DaysBefore(year, 9) == DaysBefore(year, 8) + 31;
    assert DaysBefore(year, 10) == DaysBefore(year, 9) + 30;
    assert DaysBefore(year, 11) == DaysBefore(year, 10) + 31;
  }
}
