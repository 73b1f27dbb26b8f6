/** Invoices against the ledger, and against the window they are listed in. */
module InvoiceProperties {
  import opened Wrappers
  import opened Calendar
  import opened CardCycles
  import opened Recurrence
  import opened Ledger
  import opened CardInvoices

  // --- sums over the listed cycles --------------------------------------------------

  function OwedSum(txs: seq<Tx>, card: nat, closingDay: DayOfMonth, closes: seq<Date>): int {
    if closes == [] then 0 else
    OwedSum(txs, card, closingDay, closes[..|closes| - 1]) + Owed(txs, card, closingDay, closes[|closes| - 1])
  }

  function PaidSum(txs: seq<Tx>, card: nat, closingDay: DayOfMonth, closes: seq<Date>): int {
    if closes == [] then 0 else
    PaidSum(txs, card, closingDay, closes[..|closes| - 1]) + PaidTo(txs, card, closingDay, closes[|closes| - 1])
  }

  function OpeningSum(txs: seq<Tx>, card: Account, closingDay: DayOfMonth, today: Date, closes: seq<Date>): int {
    if closes == [] then 0 else
    OpeningSum(txs, card, closingDay, today, closes[..|closes| - 1])
    + OpeningIn(txs, card, closingDay, today, closes[|closes| - 1])
  }

  /** The recurring charges that the listed invoices only project. */
  function ProjectedSum(rules: seq<Rule>, card: nat, closingDay: DayOfMonth, today: Date, closes: seq<Date>): int {
    if closes == [] then 0 else
    ProjectedSum(rules, card, closingDay, today, closes[..|closes| - 1])
    + ProjectedIn(rules, card, closingDay, today, closes[|closes| - 1])
  }

  function RemainingSum(invoices: seq<Invoice>): int {
    if invoices == [] then 0 else
    RemainingSum(invoices[..|invoices| - 1]) + (invoices[|invoices| - 1].total - invoices[|invoices| - 1].paid)
  }

  ghost predicate Distinct(closes: seq<Date>) {
    forall i, j | 0 <= i < j < |closes| :: closes[i] != closes[j]
  }

  lemma {:induction false} OwedSumGrows(txs: seq<Tx>, card: nat, closingDay: DayOfMonth, closes: seq<Date>)
    requires txs != [] && Distinct(closes)
    ensures var t := txs[|txs| - 1];
      OwedSum(txs, card, closingDay, closes) == OwedSum(txs[..|txs| - 1], card, closingDay, closes)
        + if !IsPayment(t, card) && CycleCloseFor(t.date, closingDay) in closes then OwedDelta(t, card) else 0
  {
    hide CycleCloseFor, OwedDelta;
    if closes != [] {
      var init := closes[..|closes| - 1];
      OwedSumGrows(txs, card, closingDay, init);
      assert closes == init + [closes[|closes| - 1]];
      assert forall c | c in init :: c != closes[|closes| - 1];
    }
  }

  lemma {:induction false} PaidSumGrows(txs: seq<Tx>, card: nat, closingDay: DayOfMonth, closes: seq<Date>)
    requires txs != [] && Distinct(closes)
    ensures var t := txs[|txs| - 1];
      PaidSum(txs, card, closingDay, closes) == PaidSum(txs[..|txs| - 1], card, closingDay, closes)
        + if IsPayment(t, card) && TargetOf(t, closingDay) in closes then Effective(t) else 0
  {
    hide CycleCloseFor, TargetOf;
    if closes != [] {
      var init := closes[..|closes| - 1];
      PaidSumGrows(txs, card, closingDay, init);
      assert closes == init + [closes[|closes| - 1]];
      assert forall c | c in init :: c != closes[|closes| - 1];
    }
  }

  lemma {:induction false} SumsOfNothing(card: nat, closingDay: DayOfMonth, closes: seq<Date>)
    ensures OwedSum([], card, closingDay, closes) == 0 && PaidSum([], card, closingDay, closes) == 0
  {
    if closes != [] {
      SumsOfNothing(card, closingDay, closes[..|closes| - 1]);
    }
  }

  /** The transaction counts toward one of the listed cycles. */
  ghost predicate Counted(t: Tx, card: nat, closingDay: DayOfMonth, closes: seq<Date>) {
    Touches(t, card) ==>
      if IsPayment(t, card) then TargetOf(t, closingDay) in closes else CycleCloseFor(t.date, closingDay) in closes
  }

  /** Charges less payments are the negated sum of the balance legs. */
  lemma {:induction false} CyclesSumToDeltas(txs: seq<Tx>, card: nat, closingDay: DayOfMonth, closes: seq<Date>, upTo: Option<Date>)
    requires Distinct(closes)
    requires forall t | t in txs :: ValidTx(t) && Counted(t, card, closingDay, closes)
    requires upTo.Some? ==> forall t | t in txs && Touches(t, card) :: AtMost(t.date, upTo.value)
    ensures OwedSum(txs, card, closingDay, closes) - PaidSum(txs, card, closingDay, closes) == -TxDeltas(txs, card, upTo)
  {
    hide CycleCloseFor, TargetOf, OwedSum, PaidSum;
    if txs == [] {
      SumsOfNothing(card, closingDay, closes);
    } else {
      var t := txs[|txs| - 1];
      CyclesSumToDeltas(txs[..|txs| - 1], card, closingDay, closes, upTo);
      OwedSumGrows(txs, card, closingDay, closes);
      PaidSumGrows(txs, card, closingDay, closes);
      assert ValidTx(t) && Counted(t, card, closingDay, closes);
    }
  }

  lemma {:induction false} OpeningCountedOnce(txs: seq<Tx>, card: Account, closingDay: DayOfMonth, today: Date, closes: seq<Date>)
    requires Distinct(closes)
    ensures OpeningSum(txs, card, closingDay, today, closes) ==
      if FirstClose(txs, card.id, closingDay, today) in closes then -card.opening else 0
  {
    hide FirstClose;
    if closes != [] {
      var init := closes[..|closes| - 1];
      OpeningCountedOnce(txs, card, closingDay, today, init);
      assert closes == init + [closes[|closes| - 1]];
      assert forall c | c in init :: c != closes[|closes| - 1];
    }
  }

  // --- the window -----------------------------------------------------------------------

  /** A day in the window belongs to a listed cycle. */
  lemma WithinIsListed(d: Date, today: Date, closingDay: DayOfMonth, back: int, ahead: int)
    requires Within(d, WindowOf(today, closingDay, back, ahead))
    ensures CycleCloseFor(d, closingDay) in Closes(today, closingDay, back, ahead)
  {
    hide CycleCloseFor, WindowOf, Closes, OnDay, IsDate, NextDay;
    var n := MonthIndex(CycleCloseFor(today, closingDay));
    var close := CycleCloseFor(d, closingDay);
    WindowEnds(today, closingDay, back, ahead);
    CycleCloseIsLeast(d, closingDay);
    ListedExactly(today, closingDay, back, ahead, close);
    var first, last := OnDay(n - Clip(back) - 1, closingDay), OnDay(n + Clip(ahead), closingDay);
    OnDayFacts(n - Clip(back) - 1, closingDay);
    OnDayFacts(n + Clip(ahead), closingDay);
    DaysAreConsecutive(first, d);
    assert IsClose(last, closingDay);
    OnDayMonotone(MonthIndex(close), n + Clip(ahead), closingDay);
    OnDayMonotone(MonthIndex(close), n - Clip(back) - 1, closingDay);
  }

  lemma {:induction false} FirstActivityIsFirst(txs: seq<Tx>, card: nat)
    ensures var first := FirstActivity(txs, card);
      && (first.None? <==> forall t | t in txs :: !Touches(t, card))
      && (first.Some? ==>
            && (exists t :: t in txs && Touches(t, card) && t.date == first.value)
            && forall t | t in txs && Touches(t, card) :: AtMost(first.value, t.date))
  {
    if txs != [] {
      var init, t := txs[..|txs| - 1], txs[|txs| - 1];
      FirstActivityIsFirst(init, card);
      assert txs == init + [t];
      if Touches(t, card) {
        assert t in txs;
      }
      if FirstActivity(init, card).Some? {
        var u :| u in init && Touches(u, card) && u.date == FirstActivity(init, card).value;
        assert u in txs;
      }
    }
  }

  lemma PaidToAppend(txs: seq<Tx>, t: Tx, card: nat, closingDay: DayOfMonth, close: Date)
    ensures PaidTo(txs + [t], card, closingDay, close)
         == PaidTo(txs, card, closingDay, close) + if Pays(t, card, closingDay, close) then Effective(t) else 0
  {
    assert (txs + [t])[..|txs|] == txs;
  }

  lemma FetchedAppend(txs: seq<Tx>, t: Tx, card: nat, w: Window)
    ensures Fetched(txs + [t], card, w)
         == if Touches(t, card) && Within(t.date, w) then Fetched(txs, card, w) + [t] else Fetched(txs, card, w)
  {
    assert (txs + [t])[..|txs|] == txs;
  }

  /** Every payment of the cycle is dated in the window. */
  ghost predicate PaymentsWithin(txs: seq<Tx>, card: nat, closingDay: DayOfMonth, close: Date, w: Window) {
    forall t | t in txs && Pays(t, card, closingDay, close) :: Within(t.date, w)
  }

  lemma PaymentsWithinAppend(txs: seq<Tx>, t: Tx, card: nat, closingDay: DayOfMonth, close: Date, w: Window)
    ensures PaymentsWithin(txs + [t], card, closingDay, close, w) <==>
      PaymentsWithin(txs, card, closingDay, close, w) && (Pays(t, card, closingDay, close) ==> Within(t.date, w))
  {
    assert forall u | u in txs :: u in txs + [t];
    assert t in txs + [t];
  }

  /** The windowed sum of a cycle's payments misses money exactly when one of
      them is dated outside the window. */
  lemma {:induction false} PaidWithinIff(txs: seq<Tx>, card: nat, closingDay: DayOfMonth, close: Date, w: Window)
    requires forall t | t in txs :: ValidTx(t)
    ensures 0 <= PaidWithin(txs, card, closingDay, close, w) <= PaidTo(txs, card, closingDay, close)
    ensures PaidWithin(txs, card, closingDay, close, w) == PaidTo(txs, card, closingDay, close) <==>
      PaymentsWithin(txs, card, closingDay, close, w)
  {
    if txs != [] {
      hide PaidTo, Fetched, Within, PaymentsWithin, TargetOf, IsDate;
      var init, t := txs[..|txs| - 1], txs[|txs| - 1];
      PaidWithinIff(init, card, closingDay, close, w);
      assert ValidTx(t);
      assert txs == init + [t];
      PaidToAppend(init, t, card, closingDay, close);
      PaymentsWithinAppend(init, t, card, closingDay, close, w);
      FetchedAppend(init, t, card, w);
      PaidToAppend(Fetched(init, card, w), t, card, closingDay, close);
    }
  }

  // --- main results ------------------------------------------------------------------------

  lemma {:induction false} SumInvoices(txs: seq<Tx>, rules: seq<Rule>, card: Account, closingDay: DayOfMonth, dueDay: DayOfMonth,
                                       today: Date, closes: seq<Date>, w: Window, invoices: seq<Invoice>)
    requires |invoices| == |closes|
    requires forall i | 0 <= i < |closes| :: invoices[i] == InvoiceFor(txs, rules, card, closingDay, dueDay, today, closes[i], w)
    requires forall c | c in closes :: PaidWithin(txs, card.id, closingDay, c, w) == PaidTo(txs, card.id, closingDay, c)
    ensures RemainingSum(invoices) ==
      OpeningSum(txs, card, closingDay, today, closes) + OwedSum(txs, card.id, closingDay, closes)
      + ProjectedSum(rules, card.id, closingDay, today, closes) - PaidSum(txs, card.id, closingDay, closes)
  {
    hide PaidWithin, PaidTo, Owed, ProjectedIn, OpeningIn, DueDateFor, PeriodStart, StatusOf, IsDate;
    if closes != [] {
      var n := |closes| - 1;
      SumInvoices(txs, rules, card, closingDay, dueDay, today, closes[..n], w, invoices[..n]);
    }
  }

  /** Invoices agree with the ledger: over a window that covers the card's
      activity, with every payment tag a listed close date, what the invoices
      still ask for, projections aside, is the negated balance of the card at
      the last close, opening balance and converted amounts included. */
  lemma InvoicesAgreeWithLedger(txs: seq<Tx>, positions: seq<Position>, rules: seq<Rule>, card: Account,
      closingDay: DayOfMonth, dueDay: DayOfMonth, today: Date, back: int, ahead: int)
    requires forall t | t in txs :: ValidTx(t)
    requires forall p | p in positions :: p.account != card.id
    requires forall t | t in txs && Touches(t, card.id) :: Within(t.date, WindowOf(today, closingDay, back, ahead))
    requires forall t | t in txs && IsPayment(t, card.id) && t.closeTag.Some? ::
      t.closeTag.value in Closes(today, closingDay, back, ahead)
    ensures var invoices := Invoices(txs, rules, card, closingDay, dueDay, today, back, ahead);
      var lastClose := WindowOf(today, closingDay, back, ahead).end;
      RemainingSum(invoices) - ProjectedSum(rules, card.id, closingDay, today, Closes(today, closingDay, back, ahead))
      == -Balance(txs, positions, card.id, card.opening, Some(lastClose))
  {
    hide CycleCloseFor, WindowOf, Closes, PaidWithin, InvoiceFor, IsDate, IsClose, InPeriod;
    var closes := Closes(today, closingDay, back, ahead);
    var w := WindowOf(today, closingDay, back, ahead);
    ListedCycles(today, closingDay, back, ahead);
    assert Distinct(closes);
    forall t | t in txs ensures Counted(t, card.id, closingDay, closes) {
      if Touches(t, card.id) {
        WithinIsListed(t.date, today, closingDay, back, ahead);
      }
    }
    forall c | c in closes ensures PaidWithin(txs, card.id, closingDay, c, w) == PaidTo(txs, card.id, closingDay, c) {
      PaidWithinIff(txs, card.id, closingDay, c, w);
    }
    SumInvoices(txs, rules, card, closingDay, dueDay, today, closes, w,
                Invoices(txs, rules, card, closingDay, dueDay, today, back, ahead));
    CyclesSumToDeltas(txs, card.id, closingDay, closes, Some(w.end));
    OpeningCountedOnce(txs, card, closingDay, today, closes);
    FirstCloseListed(txs, card.id, closingDay, today, back, ahead);
    NoPositions(positions, card.id, Some(w.end));
    BalanceIsDeltas(txs, positions, card.id, card.opening, Some(w.end));
  }

  lemma FirstCloseListed(txs: seq<Tx>, card: nat, closingDay: DayOfMonth, today: Date, back: int, ahead: int)
    requires forall t | t in txs && Touches(t, card) :: Within(t.date, WindowOf(today, closingDay, back, ahead))
    ensures FirstClose(txs, card, closingDay, today) in Closes(today, closingDay, back, ahead)
  {
    hide CycleCloseFor, WindowOf, Closes, OnDay, IsDate;
    FirstActivityIsFirst(txs, card);
    if FirstActivity(txs, card).Some? {
      WithinIsListed(FirstActivity(txs, card).value, today, closingDay, back, ahead);
    } else {
      CycleCloseIsLeast(today, closingDay);
      ListedExactly(today, closingDay, back, ahead, CycleCloseFor(today, closingDay));
    }
  }

  /** The narrowest window that lists the cycle. */
  function NarrowWindow(today: Date, closingDay: DayOfMonth, close: Date): Window {
    var n := MonthIndex(CycleCloseFor(today, closingDay));
    WindowOf(today, closingDay, n - MonthIndex(close), MonthIndex(close) - n)
  }

  lemma WindowsNest(today: Date, closingDay: DayOfMonth, close: Date, back: int, ahead: int, d: Date)
    requires IsClose(close, closingDay) && close in Closes(today, closingDay, back, ahead)
    requires Within(d, NarrowWindow(today, closingDay, close))
    ensures Within(d, WindowOf(today, closingDay, back, ahead))
  {
    hide CycleCloseFor, WindowOf, Closes, OnDay, IsDate, NextDay;
    var n := MonthIndex(CycleCloseFor(today, closingDay));
    var m := MonthIndex(close);
    ListedExactly(today, closingDay, back, ahead, close);
    WindowEnds(today, closingDay, back, ahead);
    WindowEnds(today, closingDay, n - m, m - n);
    OnDayMonotone(n + Clip(m - n), n + Clip(ahead), closingDay);
    OnDayMonotone(n - Clip(back) - 1, n - Clip(n - m) - 1, closingDay);
    DaysAreConsecutive(OnDay(n - Clip(back) - 1, closingDay), d);
    DaysAreConsecutive(OnDay(n - Clip(n - m) - 1, closingDay), d);
  }

  /** A wider window contains a narrower one. */
  lemma WindowsGrow(today: Date, closingDay: DayOfMonth, back: int, ahead: int, back': int, ahead': int, d: Date)
    requires back <= back' && ahead <= ahead' && Within(d, WindowOf(today, closingDay, back, ahead))
    ensures Within(d, WindowOf(today, closingDay, back', ahead'))
  {
    hide CycleCloseFor, WindowOf, OnDay, IsDate, NextDay;
    var n := MonthIndex(CycleCloseFor(today, closingDay));
    WindowEnds(today, closingDay, back, ahead);
    WindowEnds(today, closingDay, back', ahead');
    OnDayMonotone(n + Clip(ahead), n + Clip(ahead'), closingDay);
    OnDayMonotone(n - Clip(back') - 1, n - Clip(back) - 1, closingDay);
    DaysAreConsecutive(OnDay(n - Clip(back') - 1, closingDay), d);
    DaysAreConsecutive(OnDay(n - Clip(back) - 1, closingDay), d);
  }

  lemma SomeWindowListsClose(today: Date, closingDay: DayOfMonth, close: Date) returns (reach: nat)
    requires IsClose(close, closingDay)
    ensures forall back, ahead | back >= reach && ahead >= reach :: close in Closes(today, closingDay, back, ahead)
  {
    hide CycleCloseFor, Closes, IsClose, OnDay;
    var n, m := MonthIndex(CycleCloseFor(today, closingDay)), MonthIndex(close);
    reach := if n < m then m - n else n - m;
    forall back, ahead | back >= reach && ahead >= reach ensures close in Closes(today, closingDay, back, ahead) {
      ListedExactly(today, closingDay, back, ahead, close);
    }
  }

  /** Some window contains every transaction of the ledger. */
  lemma {:induction false} SomeWindowCovers(txs: seq<Tx>, today: Date, closingDay: DayOfMonth) returns (reach: nat)
    ensures forall t | t in txs :: Within(t.date, WindowOf(today, closingDay, reach, reach))
  {
    hide CycleCloseFor, WindowOf, Closes, IsClose, OnDay, Within;
    reach := 0;
    if txs != [] {
      var init, t := txs[..|txs| - 1], txs[|txs| - 1];
      var earlier := SomeWindowCovers(init, today, closingDay);
      CycleCloseIsLeast(t.date, closingDay);
      var own := SomeWindowListsClose(today, closingDay, CycleCloseFor(t.date, closingDay));
      reach := if earlier < own then own else earlier;
      ListedChargeIsWithin(t.date, today, closingDay, reach, reach);
      forall u | u in init ensures Within(u.date, WindowOf(today, closingDay, reach, reach)) {
        WindowsGrow(today, closingDay, earlier, earlier, reach, reach, u.date);
      }
      assert txs == init + [t];
    }
  }

  /** Every window that lists the cycle shows what was paid over the whole ledger
      exactly when all its payments are dated in the narrowest of those windows. */
  lemma PaidIsWholeIff(txs: seq<Tx>, card: nat, closingDay: DayOfMonth, today: Date, close: Date)
    requires forall t | t in txs :: ValidTx(t)
    requires IsClose(close, closingDay)
    ensures (forall back, ahead | close in Closes(today, closingDay, back, ahead) ::
               PaidWithin(txs, card, closingDay, close, WindowOf(today, closingDay, back, ahead)) == PaidTo(txs, card, closingDay, close))
       <==> PaymentsWithin(txs, card, closingDay, close, NarrowWindow(today, closingDay, close))
  {
    hide CycleCloseFor, WindowOf, Closes, IsDate, PaidWithin, PaidTo, Pays, IsClose;
    var n, m := MonthIndex(CycleCloseFor(today, closingDay)), MonthIndex(close);
    ListedExactly(today, closingDay, n - m, m - n, close);
    PaidWithinIff(txs, card, closingDay, close, NarrowWindow(today, closingDay, close));
    if PaymentsWithin(txs, card, closingDay, close, NarrowWindow(today, closingDay, close)) {
      forall back, ahead | close in Closes(today, closingDay, back, ahead)
        ensures PaidWithin(txs, card, closingDay, close, WindowOf(today, closingDay, back, ahead)) == PaidTo(txs, card, closingDay, close)
      {
        forall t | t in txs && Pays(t, card, closingDay, close) ensures Within(t.date, WindowOf(today, closingDay, back, ahead)) {
          WindowsNest(today, closingDay, close, back, ahead, t.date);
        }
        PaidWithinIff(txs, card, closingDay, close, WindowOf(today, closingDay, back, ahead));
      }
    }
  }

  /** A cycle shows the same paid amount in any two windows that list it exactly
      when all its payments are dated in the narrowest of those windows. */
  lemma PaidIsWindowFreeIff(txs: seq<Tx>, card: nat, closingDay: DayOfMonth, today: Date, close: Date)
    requires forall t | t in txs :: ValidTx(t)
    requires IsClose(close, closingDay)
    ensures (forall back, ahead, back', ahead' |
               close in Closes(today, closingDay, back, ahead) && close in Closes(today, closingDay, back', ahead') ::
               PaidWithin(txs, card, closingDay, close, WindowOf(today, closingDay, back, ahead))
               == PaidWithin(txs, card, closingDay, close, WindowOf(today, closingDay, back', ahead')))
       <==> PaymentsWithin(txs, card, closingDay, close, NarrowWindow(today, closingDay, close))
  {
    hide CycleCloseFor, WindowOf, Closes, IsDate, PaidWithin, PaidTo, Pays, IsClose, NarrowWindow, Within;
    PaidIsWholeIff(txs, card, closingDay, today, close);
    var lists := SomeWindowListsClose(today, closingDay, close);
    var covers := SomeWindowCovers(txs, today, closingDay);
    var wide := if lists < covers then covers else lists;
    forall t | t in txs && Pays(t, card, closingDay, close) ensures Within(t.date, WindowOf(today, closingDay, wide, wide)) {
      WindowsGrow(today, closingDay, covers, covers, wide, wide, t.date);
    }
    PaidWithinIff(txs, card, closingDay, close, WindowOf(today, closingDay, wide, wide));
  }

  /** A date from the cycle's start up to today is in the narrowest window. */
  lemma TimelyIsNarrow(today: Date, closingDay: DayOfMonth, close: Date, d: Date)
    requires IsClose(close, closingDay)
    requires AtMost(PeriodStart(close, closingDay), d) && AtMost(d, today)
    ensures Within(d, NarrowWindow(today, closingDay, close))
  {
    hide CycleCloseFor, WindowOf, OnDay, IsDate, NextDay, PeriodStart;
    var n := MonthIndex(CycleCloseFor(today, closingDay));
    var m := MonthIndex(close);
    CycleCloseIsLeast(today, closingDay);
    PeriodStartIsOnDay(close, closingDay);
    WindowEnds(today, closingDay, n - m, m - n);
    OnDayMonotone(n, n + Clip(m - n), closingDay);
    DaysAreConsecutive(OnDay(m - 1, closingDay), d);
    DaysAreConsecutive(OnDay(n - Clip(n - m) - 1, closingDay), d);
    OnDayMonotone(n - Clip(n - m) - 1, m - 1, closingDay);
  }

  /** Window independence: when the cycle's payments are dated from its start
      up to today, its whole invoice is the same in every window that lists it. */
  lemma InvoiceIsWindowFree(txs: seq<Tx>, rules: seq<Rule>, card: Account, closingDay: DayOfMonth, dueDay: DayOfMonth,
      today: Date, close: Date, back: int, ahead: int, back': int, ahead': int)
    requires forall t | t in txs :: ValidTx(t)
    requires forall t | t in txs && Pays(t, card.id, closingDay, close) ::
      AtMost(PeriodStart(close, closingDay), t.date) && AtMost(t.date, today)
    requires close in Closes(today, closingDay, back, ahead) && close in Closes(today, closingDay, back', ahead')
    ensures InvoiceFor(txs, rules, card, closingDay, dueDay, today, close, WindowOf(today, closingDay, back, ahead))
         == InvoiceFor(txs, rules, card, closingDay, dueDay, today, close, WindowOf(today, closingDay, back', ahead'))
  {
    hide CycleCloseFor, WindowOf, PaidWithin, PaidTo, Total, PeriodStart, DueDateFor, StatusOf, Pays, IsDate, Closes, IsClose, InPeriod;
    ListedCycles(today, closingDay, back, ahead);
    assert IsClose(close, closingDay);
    forall t | t in txs && Pays(t, card.id, closingDay, close) ensures Within(t.date, NarrowWindow(today, closingDay, close)) {
      TimelyIsNarrow(today, closingDay, close, t.date);
    }
    PaidIsWholeIff(txs, card.id, closingDay, today, close);
  }

  const JUNE_CLOSE: Date := YearMonthDay(2024, 6, 10)
  const BEFORE_JUNE_CLOSE: Date := YearMonthDay(2024, 6, 5)

  const JANUARY_SECOND: Date := YearMonthDay(2024, 1, 2)

  lemma JuneCloses()
    ensures IsClose(JUNE_CLOSE, 10) && CycleCloseFor(BEFORE_JUNE_CLOSE, 10) == JUNE_CLOSE
    ensures MonthIndex(JUNE_CLOSE) == 24293
  {
    assert OnDay(24293, 10) == JUNE_CLOSE;
  }

  lemma JuneWindows()
    ensures JUNE_CLOSE in Closes(BEFORE_JUNE_CLOSE, 10, 0, 0) && JUNE_CLOSE in Closes(BEFORE_JUNE_CLOSE, 10, 6, 0)
    ensures !Within(JANUARY_SECOND, WindowOf(BEFORE_JUNE_CLOSE, 10, 0, 0))
    ensures Within(JANUARY_SECOND, WindowOf(BEFORE_JUNE_CLOSE, 10, 6, 0))
  {
    hide Closes, CycleCloseFor, IsClose, WindowOf, NextDay;
    JuneCloses();
    ListedExactly(BEFORE_JUNE_CLOSE, 10, 0, 0, JUNE_CLOSE);
    ListedExactly(BEFORE_JUNE_CLOSE, 10, 6, 0, JUNE_CLOSE);
    WindowEnds(BEFORE_JUNE_CLOSE, 10, 0, 0);
    WindowEnds(BEFORE_JUNE_CLOSE, 10, 6, 0);
    DaysAreConsecutive(OnDay(24292, 10), JANUARY_SECOND);
    DaysAreConsecutive(OnDay(24286, 10), JANUARY_SECOND);
  }

  /** The condition matters: a payment tagged for the June cycle but dated in
      January counts in a window of six months back, and a window that starts
      with the June cycle misses it. */
  lemma EarlyPaymentIsMissed()
    ensures var early := Tx(JANUARY_SECOND, Transfer, 2, Some(1), 500, None, Some(JUNE_CLOSE));
      && ValidTx(early)
      && JUNE_CLOSE in Closes(BEFORE_JUNE_CLOSE, 10, 0, 0) && JUNE_CLOSE in Closes(BEFORE_JUNE_CLOSE, 10, 6, 0)
      && PaidWithin([early], 1, 10, JUNE_CLOSE, WindowOf(BEFORE_JUNE_CLOSE, 10, 0, 0))
         < PaidWithin([early], 1, 10, JUNE_CLOSE, WindowOf(BEFORE_JUNE_CLOSE, 10, 6, 0))
  {
    hide WindowOf, Closes, PaidWithin, CycleCloseFor, OnDay;
    JuneWindows();
    var early := Tx(JANUARY_SECOND, Transfer, 2, Some(1), 500, None, Some(JUNE_CLOSE));
    assert Pays(early, 1, 10, JUNE_CLOSE) && early in [early];
    PaidWithinIff([early], 1, 10, JUNE_CLOSE, WindowOf(BEFORE_JUNE_CLOSE, 10, 0, 0));
    PaidWithinIff([early], 1, 10, JUNE_CLOSE, WindowOf(BEFORE_JUNE_CLOSE, 10, 6, 0));
  }
}
