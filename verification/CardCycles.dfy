/** Billing cycles of a credit card: close dates, due dates and periods. */
module CardCycles {
  import opened Calendar

  /** The close date that a charge is billed with. */
  function CycleCloseFor(charge: Date, closingDay: DayOfMonth): Date {
    var thisMonth := ClampDay(charge.year, charge.month, closingDay);
    if AtMost(charge, thisMonth) then thisMonth else AddMonths(thisMonth, 1, closingDay)
  }

  /** The first due day strictly after the close date. */
  function DueDateFor(close: Date, dueDay: DayOfMonth): Date {
    var sameMonth := ClampDay(close.year, close.month, dueDay);
    if Before(close, sameMonth) then sameMonth else AddMonths(close, 1, dueDay)
  }

  function PeriodStart(close: Date, closingDay: DayOfMonth): Date {
    NextDay(AddMonths(close, -1, closingDay))
  }

  /** A genuine close date: the closing day of its month, clamped. */
  predicate IsClose(d: Date, closingDay: DayOfMonth) {
    d == OnDay(MonthIndex(d), closingDay)
  }

  predicate InPeriod(d: Date, close: Date, closingDay: DayOfMonth) {
    AtMost(PeriodStart(close, closingDay), d) && AtMost(d, close)
  }

  lemma CloseIsOnDay(charge: Date, closingDay: DayOfMonth)
    ensures var n := MonthIndex(charge);
      CycleCloseFor(charge, closingDay) ==
        if AtMost(charge, OnDay(n, closingDay)) then OnDay(n, closingDay) else OnDay(n + 1, closingDay)
  {
    hide DaysIn;
    var n := MonthIndex(charge);
    OnDayFacts(n, closingDay);
    AddMonthsIsOnDay(OnDay(n, closingDay), 1, closingDay);
  }

  /** The cycle's close is the least close date on or after the charge. */
  lemma CycleCloseIsLeast(charge: Date, closingDay: DayOfMonth)
    ensures var close := CycleCloseFor(charge, closingDay);
      && IsClose(close, closingDay) && AtMost(charge, close)
      && MonthIndex(charge) <= MonthIndex(close) <= MonthIndex(charge) + 1
      && forall c: Date | IsClose(c, closingDay) && AtMost(charge, c) :: AtMost(close, c)
  {
    var n := MonthIndex(charge);
    CloseIsOnDay(charge, closingDay);
    OnDayFacts(n, closingDay);
    OnDayFacts(n + 1, closingDay);
    forall c: Date | IsClose(c, closingDay) && AtMost(charge, c)
      ensures AtMost(CycleCloseFor(charge, closingDay), c)
    {
      OnDayMonotone(MonthIndex(CycleCloseFor(charge, closingDay)), MonthIndex(c), closingDay);
    }
  }

  /** A date is its own cycle's close exactly when it is a genuine close date. */
  lemma OwnClose(d: Date, closingDay: DayOfMonth)
    ensures CycleCloseFor(d, closingDay) == d <==> IsClose(d, closingDay)
  {
    CycleCloseIsLeast(d, closingDay);
    OrderIsLexicographic(d, CycleCloseFor(d, closingDay));
  }

  lemma PeriodStartIsOnDay(close: Date, closingDay: DayOfMonth)
    ensures PeriodStart(close, closingDay) == NextDay(OnDay(MonthIndex(close) - 1, closingDay))
  {
    AddMonthsIsOnDay(close, -1, closingDay);
  }

  /** Cycles tile the calendar: a day lies in exactly the period of the cycle
      that its charges are filed under. */
  lemma PeriodsTile(d: Date, close: Date, closingDay: DayOfMonth)
    requires IsClose(close, closingDay)
    ensures InPeriod(d, close, closingDay) <==> CycleCloseFor(d, closingDay) == close
  {
    var n := MonthIndex(close);
    var own := CycleCloseFor(d, closingDay);
    PeriodStartIsOnDay(close, closingDay);
    DaysAreConsecutive(OnDay(n - 1, closingDay), d);
    CycleCloseIsLeast(d, closingDay);
    OnDayFacts(n - 1, closingDay);
    assert IsClose(OnDay(n - 1, closingDay), closingDay);
    OnDayMonotone(MonthIndex(own), n, closingDay);
    OnDayMonotone(n, MonthIndex(own), closingDay);
    OnDayMonotone(MonthIndex(own), n - 1, closingDay);
    OrderIsLexicographic(own, close);
  }

  /** Consecutive periods are adjacent, with no drift through short months. */
  lemma PeriodsAdjacent(close: Date, closingDay: DayOfMonth)
    requires IsClose(close, closingDay)
    ensures var next := AddMonths(close, 1, closingDay);
      IsClose(next, closingDay) && PeriodStart(next, closingDay) == NextDay(close)
    ensures AtMost(PeriodStart(close, closingDay), close)
    ensures PreviousDay(PeriodStart(close, closingDay)) == AddMonths(close, -1, closingDay)
  {
    hide OnDay, IsDate, NextDay, PreviousDay, PeriodStart, AddMonths;
    var n := MonthIndex(close);
    AddMonthsIsOnDay(close, 1, closingDay);
    OnDayFacts(n + 1, closingDay);
    PeriodStartIsOnDay(AddMonths(close, 1, closingDay), closingDay);
    PeriodStartIsOnDay(close, closingDay);
    OnDayIncreases(n - 1, n, closingDay, closingDay);
    DaysAreConsecutive(OnDay(n - 1, closingDay), close);
    DayStep(OnDay(n - 1, closingDay));
    AddMonthsIsOnDay(close, -1, closingDay);
  }

  /** The due date is the least due-day date strictly after the close, and it
      comes by the end of the next month. */
  lemma DueDateIsNext(close: Date, dueDay: DayOfMonth)
    ensures var due := DueDateFor(close, dueDay);
      && IsClose(due, dueDay) && Before(close, due)
      && MonthIndex(close) <= MonthIndex(due) <= MonthIndex(close) + 1
      && forall d: Date | IsClose(d, dueDay) && Before(close, d) :: AtMost(due, d)
  {
    hide OnDay;
    var n := MonthIndex(close);
    DueIsOnDay(close, dueDay);
    OnDayFacts(n, dueDay);
    OnDayFacts(n + 1, dueDay);
    forall d: Date | IsClose(d, dueDay) && Before(close, d) ensures AtMost(DueDateFor(close, dueDay), d) {
      OnDayMonotone(n, MonthIndex(d), dueDay);
      OnDayMonotone(n + 1, MonthIndex(d), dueDay);
      OnDayMonotone(MonthIndex(d), n, dueDay);
    }
  }

  lemma DueIsOnDay(close: Date, dueDay: DayOfMonth)
    ensures var n := MonthIndex(close);
      DueDateFor(close, dueDay) == if Before(close, OnDay(n, dueDay)) then OnDay(n, dueDay) else OnDay(n + 1, dueDay)
  {
    AddMonthsIsOnDay(close, 1, dueDay);
  }

  // --- the listed cycles ------------------------------------------------------------

  function Clip(n: int): (clipped: int)
    ensures clipped >= 0
  {
    if n < 0 then 0 else n
  }

  /** The close dates from `back` cycles before the current one to `ahead` after it. */
  function Closes(today: Date, closingDay: DayOfMonth, back: int, ahead: int): seq<Date> {
    var first := MonthIndex(CycleCloseFor(today, closingDay)) - Clip(back);
    seq<Date>(Clip(back) + Clip(ahead) + 1, i => OnDay(first + i, closingDay))
  }

  method ListCloses(today: Date, closingDay: DayOfMonth, back: int, ahead: int) returns (closes: seq<Date>)
    ensures closes == Closes(today, closingDay, back, ahead)
  {
    hide OnDay, IsDate, CycleCloseFor, AddMonths;
    var current := CycleCloseFor(today, closingDay);
    var firstClose := AddMonths(current, -Clip(back), closingDay);
    var lastClose := AddMonths(current, Clip(ahead), closingDay);
    ghost var spec := Closes(today, closingDay, back, ahead);
    ghost var n := MonthIndex(current);
    AddMonthsIsOnDay(current, -Clip(back), closingDay);
    AddMonthsIsOnDay(current, Clip(ahead), closingDay);
    closes := [];
    var cursor := firstClose;
    while AtMost(cursor, lastClose)
      invariant |closes| <= |spec| && closes == spec[..|closes|]
      invariant cursor == OnDay(n - Clip(back) + |closes|, closingDay)
      decreases |spec| - |closes|
    {
      OnDayMonotone(n - Clip(back) + |closes|, n + Clip(ahead), closingDay);
      OnDayFacts(n - Clip(back) + |closes|, closingDay);
      AddMonthsIsOnDay(cursor, 1, closingDay);
      closes := closes + [cursor];
      cursor := AddMonths(cursor, 1, closingDay);
    }
    OnDayMonotone(n - Clip(back) + |closes|, n + Clip(ahead), closingDay);
  }

  /** The list has exactly back + ahead + 1 entries, all genuine, in order, each
      period starting the day after the one before ends, and exactly one of
      them, the one at position `back`, contains today. */
  lemma ListedCycles(today: Date, closingDay: DayOfMonth, back: int, ahead: int)
    ensures var closes := Closes(today, closingDay, back, ahead);
      && |closes| == Clip(back) + Clip(ahead) + 1
      && (forall i | 0 <= i < |closes| :: IsClose(closes[i], closingDay))
      && (forall i | 0 <= i < |closes| - 1 :: PeriodStart(closes[i + 1], closingDay) == NextDay(closes[i]))
      && (forall i, j | 0 <= i < j < |closes| :: Before(closes[i], closes[j]))
      && (forall i | 0 <= i < |closes| :: InPeriod(today, closes[i], closingDay) <==> i == Clip(back))
  {
    hide OnDay, IsDate, CycleCloseFor, NextDay, PeriodStart, InPeriod;
    var closes := Closes(today, closingDay, back, ahead);
    var current := CycleCloseFor(today, closingDay);
    var first := MonthIndex(current) - Clip(back);
    CycleCloseIsLeast(today, closingDay);
    forall i | 0 <= i < |closes|
      ensures IsClose(closes[i], closingDay)
      ensures InPeriod(today, closes[i], closingDay) <==> i == Clip(back)
      ensures forall j | i < j < |closes| :: Before(closes[i], closes[j])
      ensures i < |closes| - 1 ==> PeriodStart(closes[i + 1], closingDay) == NextDay(closes[i])
    {
      OnDayFacts(first + i, closingDay);
      PeriodsTile(today, closes[i], closingDay);
      forall j | i < j < |closes| ensures Before(closes[i], closes[j]) {
        OnDayIncreases(first + i, first + j, closingDay, closingDay);
      }
      if i < |closes| - 1 {
        OnDayFacts(first + i + 1, closingDay);
        PeriodStartIsOnDay(closes[i + 1], closingDay);
      }
    }
  }

  /** A genuine close date is listed exactly when its month is in the window. */
  lemma ListedExactly(today: Date, closingDay: DayOfMonth, back: int, ahead: int, c: Date)
    requires IsClose(c, closingDay)
    ensures var n := MonthIndex(CycleCloseFor(today, closingDay));
      c in Closes(today, closingDay, back, ahead) <==> n - Clip(back) <= MonthIndex(c) <= n + Clip(ahead)
  {
    var closes := Closes(today, closingDay, back, ahead);
    var first := MonthIndex(CycleCloseFor(today, closingDay)) - Clip(back);
    if c in closes {
      var i :| 0 <= i < |closes| && closes[i] == c;
      OnDayFacts(first + i, closingDay);
    }
    var i := MonthIndex(c) - first;
    if 0 <= i < |closes| {
      assert closes[i] == c;
    }
  }

  function MonthsBetween(a: Date, b: Date): nat {
    var n := (b.year - a.year) * 12 + (b.month - a.month);
    if n < 0 then -n else n
  }

  /** The window that paying an invoice looks at lists every genuine close date. */
  lemma SpanListsEveryClose(close: Date, today: Date, closingDay: DayOfMonth)
    requires IsClose(close, closingDay)
    ensures var span := MonthsBetween(close, today) + 2;
      close in Closes(today, closingDay, span, span)
  {
    CycleCloseIsLeast(today, closingDay);
    ListedExactly(today, closingDay, MonthsBetween(close, today) + 2, MonthsBetween(close, today) + 2, close);
  }

  lemma {:induction false} DaysBack(d: Date, days: int)
    requires 0 <= days <= 28
    ensures MonthIndex(d) - 1 <= MonthIndex(AddDays(d, -days)) <= MonthIndex(d)
    ensures MonthIndex(AddDays(d, -days)) == MonthIndex(d) ==> AddDays(d, -days).day == d.day - days
    ensures MonthIndex(AddDays(d, -days)) < MonthIndex(d) ==>
      var e := AddDays(d, -days); days >= d.day && e.day == DaysIn(e.year, e.month) - (days - d.day)
  {
    if days > 0 {
      DaysBack(d, days - 1);
      DayStep(AddDays(d, -(days - 1)));
    }
  }

  /** Every cycle whose invoice fell due in the last seven days is among the
      two months back that auto-pay looks at. */
  lemma DueSoonIsListed(close: Date, today: Date, closingDay: DayOfMonth, dueDay: DayOfMonth)
    requires IsClose(close, closingDay)
    requires AtMost(AddDays(today, -7), DueDateFor(close, dueDay)) && AtMost(DueDateFor(close, dueDay), today)
    ensures close in Closes(today, closingDay, 2, 0)
    ensures Before(close, today)
  {
    var due := DueDateFor(close, dueDay);
    var n := MonthIndex(close);
    var current := CycleCloseFor(today, closingDay);
    DueDateIsNext(close, dueDay);
    DaysBack(today, 7);
    CycleCloseIsLeast(today, closingDay);
    CloseIsOnDay(today, closingDay);
    AddMonthsIsOnDay(close, 1, dueDay);
    OnDayFacts(n, dueDay);
    OnDayFacts(n + 1, dueDay);
    OnDayFacts(MonthIndex(today), closingDay);
    OnDayMonotone(n, MonthIndex(current), closingDay);
    ListedExactly(today, closingDay, 2, 0, close);
  }
}
