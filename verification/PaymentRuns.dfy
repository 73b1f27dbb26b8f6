/** Payments made over many days: which dates stay in sight, and that nothing is
    paid twice. */
module PaymentRuns {
  import opened Wrappers
  import opened Calendar
  import opened CardCycles
  import opened Ledger
  import opened CardInvoices
  import opened InvoiceProperties
  import opened CardPayments
  import opened PaymentProperties

  // --- the pay window as days pass ----------------------------------------------------------------

  lemma CloseOfDay(today: Date, closingDay: DayOfMonth)
    ensures var n := MonthIndex(CycleCloseFor(today, closingDay));
      n == if AtMost(today, OnDay(MonthIndex(today), closingDay)) then MonthIndex(today) else MonthIndex(today) + 1
  {
    CloseIsOnDay(today, closingDay);
    OnDayFacts(MonthIndex(today), closingDay);
    OnDayFacts(MonthIndex(today) + 1, closingDay);
  }

  /** How many months `today` is from the month of the close, either way. */
  function Gap(close: Date, today: Date): nat {
    if MonthIndex(close) <= MonthIndex(today) then MonthIndex(today) - MonthIndex(close) else MonthIndex(close) - MonthIndex(today)
  }

  lemma PayWindowEnds(closingDay: DayOfMonth, close: Date, today: Date)
    ensures var n := MonthIndex(CycleCloseFor(today, closingDay));
      PayWindow(closingDay, close, today) ==
        Window(NextDay(OnDay(n - Gap(close, today) - 3, closingDay)), OnDay(n + Gap(close, today) + 2, closingDay))
  {
    hide OnDay, CycleCloseFor, NextDay, IsDate;
    var span := MonthsBetween(close, today) + 2;
    assert span == Gap(close, today) + 2;
    WindowEnds(today, closingDay, span, span);
  }

  /** The first day of the window once the cycle has closed: it moves to and fro
      between two cycles, unless every month closes on its last day. */
  function SteadyFrom(closingDay: DayOfMonth, close: Date): Date {
    NextDay(OnDay(MonthIndex(close) - (if closingDay == 31 then 3 else 2), closingDay))
  }

  /** The last day of the narrowest window from `today` on. */
  function SteadyTo(closingDay: DayOfMonth, close: Date, today: Date): Date {
    if MonthIndex(today) < MonthIndex(close) then OnDay(MonthIndex(close) + 2, closingDay)
    else OnDay(MonthIndex(CycleCloseFor(today, closingDay)) + Gap(close, today) + 2, closingDay)
  }

  /** A payment of the cycle with that date is seen today and on every later day. */
  ghost predicate StaysSeen(d: Date, closingDay: DayOfMonth, close: Date, today: Date) {
    forall later: Date | AtMost(today, later) :: Within(d, PayWindow(closingDay, close, later))
  }

  lemma SteadyIsSeen(d: Date, closingDay: DayOfMonth, close: Date, today: Date, later: Date)
    requires AtMost(today, later)
    requires AtMost(SteadyFrom(closingDay, close), d) && AtMost(d, SteadyTo(closingDay, close, today))
    ensures Within(d, PayWindow(closingDay, close, later))
  {
    hide OnDay, CycleCloseFor, NextDay, IsDate, DaysIn;
    var m, n := MonthIndex(close), MonthIndex(CycleCloseFor(later, closingDay));
    CloseOfDay(later, closingDay);
    CloseOfDay(today, closingDay);
    PayWindowEnds(closingDay, close, later);
    if closingDay == 31 {
      LastDayCloses(later);
    }
    var from := if closingDay == 31 then m - 3 else m - 2;
    OnDayMonotone(n - Gap(close, later) - 3, from, closingDay);
    DaysAreConsecutive(OnDay(from, closingDay), d);
    DaysAreConsecutive(OnDay(n - Gap(close, later) - 3, closingDay), d);
    LaterCloses(today, later, closingDay);
    var until := if MonthIndex(today) < m then m + 2 else MonthIndex(CycleCloseFor(today, closingDay)) + Gap(close, today) + 2;
    OnDayMonotone(until, n + Gap(close, later) + 2, closingDay);
  }

  lemma LaterCloses(today: Date, later: Date, closingDay: DayOfMonth)
    requires AtMost(today, later)
    ensures MonthIndex(today) <= MonthIndex(later)
    ensures MonthIndex(CycleCloseFor(today, closingDay)) <= MonthIndex(CycleCloseFor(later, closingDay))
  {
    hide CycleCloseFor, IsClose;
    CloseMonotone(today, later, closingDay);
  }

  lemma LastDayCloses(d: Date)
    ensures AtMost(d, OnDay(MonthIndex(d), 31))
  {
    OnDayFacts(MonthIndex(d), 31);
  }

  /** A day late enough, after its month's close unless every month closes on its
      last day. */
  function LateDay(close: Date, today: Date): Date {
    YearMonthDay((if close.year < today.year then today.year else close.year) + 1, 12, 31)
  }

  lemma LateDayFacts(closingDay: DayOfMonth, close: Date, today: Date)
    ensures var late := LateDay(close, today);
      && AtMost(today, late) && MonthIndex(close) <= MonthIndex(late)
      && MonthIndex(CycleCloseFor(late, closingDay)) == MonthIndex(late) + if closingDay == 31 then 0 else 1
  {
    CloseOfDay(LateDay(close, today), closingDay);
  }

  /** The day, today or later, whose window ends first. */
  function NarrowDay(close: Date, today: Date): Date {
    if MonthIndex(today) < MonthIndex(close) then YearMonthDay(close.year, close.month, 1) else today
  }

  lemma NarrowDayFacts(closingDay: DayOfMonth, close: Date, today: Date)
    ensures var day := NarrowDay(close, today);
      && AtMost(today, day)
      && OnDay(MonthIndex(CycleCloseFor(day, closingDay)) + Gap(close, day) + 2, closingDay) == SteadyTo(closingDay, close, today)
  {
    hide OnDay;
    var day := NarrowDay(close, today);
    CloseOfDay(day, closingDay);
    if MonthIndex(today) < MonthIndex(close) {
      FirstDayCloses(day, closingDay);
    }
  }

  lemma FirstDayCloses(d: Date, closingDay: DayOfMonth)
    requires d.day == 1
    ensures AtMost(d, OnDay(MonthIndex(d), closingDay))
  {
    OnDayFacts(MonthIndex(d), closingDay);
  }

  /** Exactly which dates stay in every later window: from the steady start of the
      cycle to the end of the narrowest window still to come. */
  lemma StaysSeenIff(d: Date, closingDay: DayOfMonth, close: Date, today: Date)
    ensures StaysSeen(d, closingDay, close, today) <==>
      AtMost(SteadyFrom(closingDay, close), d) && AtMost(d, SteadyTo(closingDay, close, today))
  {
    hide SteadyFrom, SteadyTo, PayWindow, Within, CycleCloseFor, LateDay, NarrowDay;
    if AtMost(SteadyFrom(closingDay, close), d) && AtMost(d, SteadyTo(closingDay, close, today)) {
      forall later: Date | AtMost(today, later) ensures Within(d, PayWindow(closingDay, close, later)) {
        SteadyIsSeen(d, closingDay, close, today, later);
      }
    }
    if StaysSeen(d, closingDay, close, today) {
      LateDayFacts(closingDay, close, today);
      NarrowDayFacts(closingDay, close, today);
      assert Within(d, PayWindow(closingDay, close, LateDay(close, today)));
      assert Within(d, PayWindow(closingDay, close, NarrowDay(close, today)));
      SeenIsSteady(d, closingDay, close, today);
    }
  }

  lemma SeenIsSteady(d: Date, closingDay: DayOfMonth, close: Date, today: Date)
    requires Within(d, PayWindow(closingDay, close, LateDay(close, today)))
    requires Within(d, PayWindow(closingDay, close, NarrowDay(close, today)))
    ensures AtMost(SteadyFrom(closingDay, close), d) && AtMost(d, SteadyTo(closingDay, close, today))
  {
    hide PayWindow, CycleCloseFor, OnDay, NextDay, LateDay, NarrowDay, SteadyTo, IsDate;
    LateDayFacts(closingDay, close, today);
    NarrowDayFacts(closingDay, close, today);
    PayWindowEnds(closingDay, close, LateDay(close, today));
    PayWindowEnds(closingDay, close, NarrowDay(close, today));
  }

  /** A date from the cycle's start up to today stays in sight. */
  lemma TimelyStaysSeen(d: Date, closingDay: DayOfMonth, close: Date, today: Date)
    requires IsClose(close, closingDay) && AtMost(PeriodStart(close, closingDay), d) && AtMost(d, today)
    ensures StaysSeen(d, closingDay, close, today)
  {
    hide PayWindow, IsClose, PeriodStart, Within;
    forall later: Date | AtMost(today, later) ensures Within(d, PayWindow(closingDay, close, later)) {
      TimelyIsSeen(close, closingDay, later, d);
    }
  }

  // --- the invariant over days ---------------------------------------------------------------------

  /** Every payment of every cycle stays in sight from today on. */
  ghost predicate AllSteady(txs: seq<Tx>, card: Account, today: Date)
    requires Configured(card)
  {
    forall later: Date | AtMost(today, later) :: AllSeen(txs, card, later)
  }

  /** It is kept, from day to day, by exactly the calls whose date stays in sight. */
  lemma SteadyAfterIff(txs: seq<Tx>, rules: seq<Rule>, bank: Bank, cardId: nat, call: Call, today: Date)
    requires Filed(bank) && PayOutcome(txs, rules, bank, cardId, call.close, call.data, today).Posted?
    requires cardId in bank.accounts && Configured(bank.accounts[cardId])
    ensures var card := bank.accounts[cardId];
      AllSteady(txs + [PayOutcome(txs, rules, bank, cardId, call.close, call.data, today).t], card, today)
      <==> AllSteady(txs, card, today) && StaysSeen(DateOf(call, today), card.closingDay.value, call.close, today)
  {
    hide PayOutcome, PayWindow, IsClose, IsDate, Within, AllSeen;
    var card, t := bank.accounts[cardId], PayOutcome(txs, rules, bank, cardId, call.close, call.data, today).t;
    forall later: Date
      ensures AllSeen(txs + [t], card, later) <==>
        AllSeen(txs, card, later) && Within(DateOf(call, today), PayWindow(card.closingDay.value, call.close, later))
    {
      SeenLaterIff(txs, rules, bank, cardId, call, today, later);
    }
  }

  lemma SeenLaterIff(txs: seq<Tx>, rules: seq<Rule>, bank: Bank, cardId: nat, call: Call, today: Date, later: Date)
    requires Filed(bank) && PayOutcome(txs, rules, bank, cardId, call.close, call.data, today).Posted?
    requires cardId in bank.accounts && Configured(bank.accounts[cardId])
    ensures var card := bank.accounts[cardId];
      AllSeen(txs + [PayOutcome(txs, rules, bank, cardId, call.close, call.data, today).t], card, later)
      <==> AllSeen(txs, card, later) && Within(DateOf(call, today), PayWindow(card.closingDay.value, call.close, later))
  {
    hide PayOutcome, PayWindow, IsClose, IsDate, Within, PaymentsWithin;
    PostedPayment(txs, rules, bank, cardId, call.close, call.data, today);
    var card, t := bank.accounts[cardId], PayOutcome(txs, rules, bank, cardId, call.close, call.data, today).t;
    var closingDay := card.closingDay.value;
    forall c: Date
      ensures PaymentsWithin(txs + [t], cardId, closingDay, c, PayWindow(closingDay, c, later)) <==>
        PaymentsWithin(txs, cardId, closingDay, c, PayWindow(closingDay, c, later))
        && (c == call.close ==> Within(DateOf(call, today), PayWindow(closingDay, c, later)))
    {
      PaymentsWithinAppend(txs, t, cardId, closingDay, c, PayWindow(closingDay, c, later));
    }
  }

  // --- calls on many days ----------------------------------------------------------------------------

  /** A call, and the day it is made. */
  datatype Visit = Visit(call: Call, today: Date)

  /** The ledger after the visits, whatever each of them is answered. */
  function LedgerAfter(txs: seq<Tx>, rules: seq<Rule>, bank: Bank, cardId: nat, visits: seq<Visit>): seq<Tx> {
    if visits == [] then txs else
    var last := visits[|visits| - 1];
    var before := LedgerAfter(txs, rules, bank, cardId, visits[..|visits| - 1]);
    match PayOutcome(before, rules, bank, cardId, last.call.close, last.call.data, last.today)
    case Posted(t) => before + [t]
    case Refused(_) => before
  }

  /** Each visit sees all that was paid to its cycle before it. */
  ghost predicate EarlierSeen(txs: seq<Tx>, card: Account, visits: seq<Visit>)
    requires Configured(card)
  {
    var closingDay := card.closingDay.value;
    && (forall j | 0 <= j < |visits| && IsClose(visits[j].call.close, closingDay) ::
          PaymentsWithin(txs, card.id, closingDay, visits[j].call.close, PayWindow(closingDay, visits[j].call.close, visits[j].today)))
    && (forall i, j | 0 <= i < j < |visits| && visits[i].call.close == visits[j].call.close && IsClose(visits[i].call.close, closingDay) ::
          Within(DateOf(visits[i].call, visits[i].today), PayWindow(closingDay, visits[j].call.close, visits[j].today)))
  }

  /** Each visit leaves the opening balance where it is. */
  ghost predicate OpeningLeft(txs: seq<Tx>, rules: seq<Rule>, bank: Bank, cardId: nat, visits: seq<Visit>)
    requires cardId in bank.accounts && Configured(bank.accounts[cardId])
  {
    forall j | 0 <= j < |visits| ::
      LeavesOpening(LedgerAfter(txs, rules, bank, cardId, visits[..j]), bank.accounts[cardId], visits[j].call, visits[j].today)
  }

  /** The cycle's total does not drop from one visit to the next. */
  ghost predicate TotalHolds(txs: seq<Tx>, rules: seq<Rule>, bank: Bank, cardId: nat, visits: seq<Visit>, c: Date)
    requires cardId in bank.accounts && Configured(bank.accounts[cardId])
  {
    var card := bank.accounts[cardId];
    forall j | 0 < j < |visits| ::
      var before := LedgerAfter(txs, rules, bank, cardId, visits[..j]);
      Total(before, rules, card, card.closingDay.value, visits[j - 1].today, c)
      <= Total(before, rules, card, card.closingDay.value, visits[j].today, c)
  }

  lemma Shorter(txs: seq<Tx>, rules: seq<Rule>, bank: Bank, cardId: nat, visits: seq<Visit>, c: Date, n: nat)
    requires cardId in bank.accounts && Configured(bank.accounts[cardId]) && n <= |visits|
    requires OpeningLeft(txs, rules, bank, cardId, visits) && TotalHolds(txs, rules, bank, cardId, visits, c)
    ensures OpeningLeft(txs, rules, bank, cardId, visits[..n]) && TotalHolds(txs, rules, bank, cardId, visits[..n], c)
  {
    hide LeavesOpening, Total, LedgerAfter;
    forall j | 0 <= j < n ensures visits[..n][..j] == visits[..j] {
    }
  }

  /** What the `j`-th visit sees of its cycle when `n` of the visits before it are done. */
  lemma {:induction false} SeenSoFar(txs: seq<Tx>, rules: seq<Rule>, bank: Bank, cardId: nat, visits: seq<Visit>, n: nat, j: nat)
    requires Filed(bank) && cardId in bank.accounts && Configured(bank.accounts[cardId])
    requires EarlierSeen(txs, bank.accounts[cardId], visits) && n <= j < |visits|
    requires IsClose(visits[j].call.close, bank.accounts[cardId].closingDay.value)
    ensures var closingDay := bank.accounts[cardId].closingDay.value;
      PaymentsWithin(LedgerAfter(txs, rules, bank, cardId, visits[..n]), cardId, closingDay, visits[j].call.close,
                     PayWindow(closingDay, visits[j].call.close, visits[j].today))
  {
    hide PayOutcome, PayWindow, IsClose, IsDate, Within, PaymentsWithin;
    if n > 0 {
      SeenSoFar(txs, rules, bank, cardId, visits, n - 1, j);
      assert visits[..n][..n - 1] == visits[..n - 1];
      var before, last := LedgerAfter(txs, rules, bank, cardId, visits[..n - 1]), visits[n - 1];
      var r := PayOutcome(before, rules, bank, cardId, last.call.close, last.call.data, last.today);
      if r.Posted? {
        var closingDay := bank.accounts[cardId].closingDay.value;
        PostedPayment(before, rules, bank, cardId, last.call.close, last.call.data, last.today);
        PaymentsWithinAppend(before, r.t, cardId, closingDay, visits[j].call.close,
                             PayWindow(closingDay, visits[j].call.close, visits[j].today));
      }
    }
  }

  lemma {:induction false} LedgerStaysValid(txs: seq<Tx>, rules: seq<Rule>, bank: Bank, cardId: nat, visits: seq<Visit>)
    requires Filed(bank) && forall t | t in txs :: ValidTx(t)
    ensures forall t | t in LedgerAfter(txs, rules, bank, cardId, visits) :: ValidTx(t)
  {
    hide PayOutcome, ValidTx;
    if visits != [] {
      var n := |visits| - 1;
      LedgerStaysValid(txs, rules, bank, cardId, visits[..n]);
      var before, last := LedgerAfter(txs, rules, bank, cardId, visits[..n]), visits[n];
      if PayOutcome(before, rules, bank, cardId, last.call.close, last.call.data, last.today).Posted? {
        PostedPayment(before, rules, bank, cardId, last.call.close, last.call.data, last.today);
      }
    }
  }

  /** No sequence of calls, on any days, pays a cycle more than its total over the
      whole ledger, if each call sees what was paid to its cycle before it,
      leaves the opening balance in place, and finds a total that has not dropped. */
  lemma {:induction false} NeverOverpaid(txs: seq<Tx>, rules: seq<Rule>, bank: Bank, cardId: nat, visits: seq<Visit>, c: Date)
    requires Filed(bank) && cardId in bank.accounts && Configured(bank.accounts[cardId])
    requires visits != [] && forall t | t in txs :: ValidTx(t)
    requires EarlierSeen(txs, bank.accounts[cardId], visits) && OpeningLeft(txs, rules, bank, cardId, visits)
    requires TotalHolds(txs, rules, bank, cardId, visits, c)
    requires var card := bank.accounts[cardId];
      PaidTo(txs, cardId, card.closingDay.value, c) <= Total(txs, rules, card, card.closingDay.value, visits[0].today, c)
    ensures var after := LedgerAfter(txs, rules, bank, cardId, visits);
      var card := bank.accounts[cardId];
      && PaidTo(after, cardId, card.closingDay.value, c)
         <= Total(after, rules, card, card.closingDay.value, visits[|visits| - 1].today, c)
      && InvoiceToPay(after, rules, card, c, visits[|visits| - 1].today).remaining >= 0
  {
    hide PayOutcome, PaidTo, Total, PayWindow, IsClose, IsDate, LeavesOpening, Within, PaymentsWithin, ValidTx, InvoiceToPay;
    var n := |visits| - 1;
    var last, card := visits[n], bank.accounts[cardId];
    var before := LedgerAfter(txs, rules, bank, cardId, visits[..n]);
    LedgerStaysValid(txs, rules, bank, cardId, visits[..n]);
    if n > 0 {
      Shorter(txs, rules, bank, cardId, visits, c, n);
      assert EarlierSeen(txs, card, visits[..n]);
      NeverOverpaid(txs, rules, bank, cardId, visits[..n], c);
      assert visits[..n][..n] == visits[..n];
    }
    assert PaidTo(before, cardId, card.closingDay.value, c) <= Total(before, rules, card, card.closingDay.value, last.today, c);
    if PayOutcome(before, rules, bank, cardId, last.call.close, last.call.data, last.today).Posted? {
      PostedPayment(before, rules, bank, cardId, last.call.close, last.call.data, last.today);
      SeenSoFar(txs, rules, bank, cardId, visits, n, n);
      PaidInFull(before, rules, bank, cardId, last.call, last.today, c);
    }
    LedgerStaysValid(txs, rules, bank, cardId, visits);
    ShownAsOwed(LedgerAfter(txs, rules, bank, cardId, visits), rules, card, c, last.today);
  }

  /** A cycle that is not overpaid is never shown as overpaid. */
  lemma ShownAsOwed(txs: seq<Tx>, rules: seq<Rule>, card: Account, c: Date, today: Date)
    requires Configured(card) && forall t | t in txs :: ValidTx(t)
    requires PaidTo(txs, card.id, card.closingDay.value, c) <= Total(txs, rules, card, card.closingDay.value, today, c)
    ensures InvoiceToPay(txs, rules, card, c, today).remaining >= 0
  {
    hide PaidTo, Total, PayWindow, IsDate, PaidWithin, PeriodStart, DueDateFor, StatusOf;
    PaidWithinIff(txs, card.id, card.closingDay.value, c, PayWindow(card.closingDay.value, c, today));
  }

  // --- what a caller can check ------------------------------------------------------------------------

  lemma {:induction false} NoRuleNoShare(rules: seq<Rule>, card: nat, from: Date, close: Date)
    requires forall rule | rule in rules :: !PostsTo(rule, card)
    ensures RuleShares(rules, card, from, close) == 0
  {
    if rules != [] {
      NoRuleNoShare(rules[..|rules| - 1], card, from, close);
    }
  }

  /** Nothing is projected into the cycle: it is over, or no rule posts to the card. */
  ghost predicate NothingProjected(rules: seq<Rule>, card: nat, today: Date, c: Date) {
    Before(c, today) || forall rule | rule in rules :: !PostsTo(rule, card)
  }

  /** Then the passing of days leaves its total alone, once the card has activity
      or if it has no opening balance. */
  lemma TotalIgnoresDay(txs: seq<Tx>, rules: seq<Rule>, card: Account, closingDay: DayOfMonth, today: Date, later: Date, c: Date)
    requires AtMost(today, later) && NothingProjected(rules, card.id, today, c)
    requires card.opening == 0 || FirstActivity(txs, card.id).Some?
    ensures Total(txs, rules, card, closingDay, today, c) == Total(txs, rules, card, closingDay, later, c)
  {
    hide Owed, CycleCloseFor, PeriodStart, NextDay, RuleShares, PostsTo, FirstActivity, IsDate;
    if !Before(c, today) {
      NoRuleNoShare(rules, card.id, Later(PeriodStart(c, closingDay), NextDay(today)), c);
      NoRuleNoShare(rules, card.id, Later(PeriodStart(c, closingDay), NextDay(later)), c);
    }
  }

  /** The days do not go back; every call is dated where it stays in sight, and not
      before the cycle that carries the opening balance. */
  ghost predicate Steady(txs: seq<Tx>, card: Account, visits: seq<Visit>)
    requires Configured(card)
  {
    var closingDay := card.closingDay.value;
    && (forall i, j | 0 <= i < j < |visits| :: AtMost(visits[i].today, visits[j].today))
    && (forall i | 0 <= i < |visits| && IsClose(visits[i].call.close, closingDay) ::
          StaysSeen(DateOf(visits[i].call, visits[i].today), closingDay, visits[i].call.close, visits[i].today))
    && (card.opening == 0 || FirstActivity(txs, card.id).Some?)
    && (forall i | 0 <= i < |visits| :: LeavesOpening(txs, card, visits[i].call, visits[i].today))
  }

  lemma SteadySees(txs: seq<Tx>, card: Account, visits: seq<Visit>)
    requires Configured(card) && visits != [] && Steady(txs, card, visits)
    requires AllSteady(txs, card, visits[0].today)
    ensures EarlierSeen(txs, card, visits)
  {
    hide PayWindow, IsClose, Within, PaymentsWithin, LeavesOpening, IsDate, FirstActivity;
    forall j | 0 <= j < |visits| && IsClose(visits[j].call.close, card.closingDay.value)
      ensures PaymentsWithin(txs, card.id, card.closingDay.value, visits[j].call.close,
                             PayWindow(card.closingDay.value, visits[j].call.close, visits[j].today))
    {
      assert AtMost(visits[0].today, visits[j].today);
      assert AllSeen(txs, card, visits[j].today);
    }
  }

  /** The cycle with the opening balance stays where it is through the visits. */
  lemma {:induction false} OpeningStaysPut(txs: seq<Tx>, rules: seq<Rule>, bank: Bank, cardId: nat, visits: seq<Visit>, n: nat)
    requires Filed(bank) && cardId in bank.accounts && Configured(bank.accounts[cardId]) && n <= |visits|
    requires Steady(txs, bank.accounts[cardId], visits)
    ensures var card := bank.accounts[cardId];
      var after := LedgerAfter(txs, rules, bank, cardId, visits[..n]);
      && (card.opening == 0 || FirstActivity(after, cardId).Some?)
      && (forall i | 0 <= i < |visits| :: LeavesOpening(after, card, visits[i].call, visits[i].today))
  {
    hide PayOutcome, IsClose, StaysSeen, KeepsFirst, IsDate, FirstActivity;
    if n > 0 {
      OpeningStaysPut(txs, rules, bank, cardId, visits, n - 1);
      assert visits[..n][..n - 1] == visits[..n - 1];
      var before, last := LedgerAfter(txs, rules, bank, cardId, visits[..n - 1]), visits[n - 1];
      var r := PayOutcome(before, rules, bank, cardId, last.call.close, last.call.data, last.today);
      if r.Posted? {
        PostedPayment(before, rules, bank, cardId, last.call.close, last.call.data, last.today);
        OpeningStaysAfter(before, r.t, bank.accounts[cardId], last, visits);
      }
    }
  }

  lemma OpeningStaysAfter(txs: seq<Tx>, t: Tx, card: Account, visit: Visit, visits: seq<Visit>)
    requires Configured(card) && IsPaymentFor(t, card.id, visit.call.close) && t.date == DateOf(visit.call, visit.today)
    requires LeavesOpening(txs, card, visit.call, visit.today)
    requires card.opening == 0 || FirstActivity(txs, card.id).Some?
    requires forall i | 0 <= i < |visits| :: LeavesOpening(txs, card, visits[i].call, visits[i].today)
    ensures card.opening == 0 || FirstActivity(txs + [t], card.id).Some?
    ensures forall i | 0 <= i < |visits| :: LeavesOpening(txs + [t], card, visits[i].call, visits[i].today)
  {
    hide CycleCloseFor, IsDate, FirstActivity;
    if card.opening != 0 {
      var closingDay := card.closingDay.value;
      FirstCloseAfter(txs, t, card.id, closingDay, visit.today, visit.call.close);
      forall i | 0 <= i < |visits| ensures KeepsFirst(txs + [t], card.id, closingDay, visits[i].today, DateOf(visits[i].call, visits[i].today)) {
        assert LeavesOpening(txs, card, visits[i].call, visits[i].today);
      }
    }
  }

  /** Over any days: calls that are dated where they stay in sight (from the cycle's
      start up to the day of the call, say) never pay a cycle more than its total. */
  lemma NeverOverpaidOverDays(txs: seq<Tx>, rules: seq<Rule>, bank: Bank, cardId: nat, visits: seq<Visit>, c: Date)
    requires Filed(bank) && cardId in bank.accounts && Configured(bank.accounts[cardId])
    requires visits != [] && forall t | t in txs :: ValidTx(t)
    requires Steady(txs, bank.accounts[cardId], visits) && AllSteady(txs, bank.accounts[cardId], visits[0].today)
    requires NothingProjected(rules, cardId, visits[0].today, c)
    requires var card := bank.accounts[cardId];
      PaidTo(txs, cardId, card.closingDay.value, c) <= Total(txs, rules, card, card.closingDay.value, visits[0].today, c)
    ensures var after := LedgerAfter(txs, rules, bank, cardId, visits);
      var card := bank.accounts[cardId];
      && PaidTo(after, cardId, card.closingDay.value, c)
         <= Total(after, rules, card, card.closingDay.value, visits[|visits| - 1].today, c)
      && InvoiceToPay(after, rules, card, c, visits[|visits| - 1].today).remaining >= 0
  {
    hide PayOutcome, PaidTo, Total, PayWindow, IsClose, IsDate, LeavesOpening, Within, PaymentsWithin, ValidTx, StaysSeen,
      InvoiceToPay,
      AllSteady, EarlierSeen, LedgerAfter, PostsTo, FirstActivity;
    var card := bank.accounts[cardId];
    SteadySees(txs, card, visits);
    forall j | 0 <= j < |visits|
      ensures LeavesOpening(LedgerAfter(txs, rules, bank, cardId, visits[..j]), card, visits[j].call, visits[j].today)
    {
      OpeningStaysPut(txs, rules, bank, cardId, visits, j);
    }
    forall j | 0 < j < |visits|
      ensures var before := LedgerAfter(txs, rules, bank, cardId, visits[..j]);
        Total(before, rules, card, card.closingDay.value, visits[j - 1].today, c)
        <= Total(before, rules, card, card.closingDay.value, visits[j].today, c)
    {
      OpeningStaysPut(txs, rules, bank, cardId, visits, j);
      assert AtMost(visits[j - 1].today, visits[j].today);
      assert NothingProjected(rules, cardId, visits[j - 1].today, c) by {
        assert AtMost(visits[0].today, visits[j - 1].today);
      }
      TotalIgnoresDay(LedgerAfter(txs, rules, bank, cardId, visits[..j]), rules, card, card.closingDay.value,
                      visits[j - 1].today, visits[j].today, c);
    }
    NeverOverpaid(txs, rules, bank, cardId, visits, c);
  }

  // --- two days are enough to overpay otherwise --------------------------------------------------------

  const MARCH_TWENTIETH: Date := YearMonthDay(2024, 3, 20)
  const AFTER_JUNE_CLOSE: Date := YearMonthDay(2024, 6, 11)
  const JULY_FIRST: Date := YearMonthDay(2024, 7, 1)
  const MARCH_PAYMENT := Tx(MARCH_TWENTIETH, Transfer, 2, Some(1), 500, None, Some(JUNE_CLOSE))
  const LATE_PAYMENT := Tx(AFTER_JUNE_CLOSE, Transfer, 2, Some(1), 500, None, Some(JUNE_CLOSE))

  lemma MarchComesAndGoes()
    ensures Within(MARCH_TWENTIETH, PayWindow(10, JUNE_CLOSE, BEFORE_JUNE_CLOSE))
    ensures !Within(MARCH_TWENTIETH, PayWindow(10, JUNE_CLOSE, AFTER_JUNE_CLOSE))
    ensures Within(MARCH_TWENTIETH, PayWindow(10, JUNE_CLOSE, JULY_FIRST))
    ensures Within(AFTER_JUNE_CLOSE, PayWindow(10, JUNE_CLOSE, AFTER_JUNE_CLOSE))
    ensures Within(AFTER_JUNE_CLOSE, PayWindow(10, JUNE_CLOSE, JULY_FIRST))
  {
    hide CycleCloseFor, PayWindow, NextDay;
    PayWindowEnds(10, JUNE_CLOSE, BEFORE_JUNE_CLOSE);
    PayWindowEnds(10, JUNE_CLOSE, AFTER_JUNE_CLOSE);
    PayWindowEnds(10, JUNE_CLOSE, JULY_FIRST);
    CloseOfDay(BEFORE_JUNE_CLOSE, 10);
    CloseOfDay(AFTER_JUNE_CLOSE, 10);
    CloseOfDay(JULY_FIRST, 10);
    DaysAreConsecutive(OnDay(24290, 10), MARCH_TWENTIETH);
    DaysAreConsecutive(OnDay(24291, 10), MARCH_TWENTIETH);
    DaysAreConsecutive(OnDay(24290, 10), AFTER_JUNE_CLOSE);
    DaysAreConsecutive(OnDay(24291, 10), AFTER_JUNE_CLOSE);
  }

  lemma PurchaseOnDay(today: Date)
    requires today == AFTER_JUNE_CLOSE || today == JULY_FIRST
    ensures Total([PURCHASE], [], CARD, 10, today, JUNE_CLOSE) == 500
    ensures PaidWithin([PURCHASE], 1, 10, JUNE_CLOSE, PayWindow(10, JUNE_CLOSE, today)) == 0
  {
    hide Owed, CycleCloseFor, FirstClose, PayWindow, PaidTo, PaidWithin;
    PurchaseIsOwed();
    PaidWithinIff([PURCHASE], 1, 10, JUNE_CLOSE, PayWindow(10, JUNE_CLOSE, today));
  }

  /** The June invoice on a later day, with one or both payments in the ledger. */
  lemma InvoiceOnDay(today: Date)
    requires today == AFTER_JUNE_CLOSE || today == JULY_FIRST
    ensures InvoiceToPay([PURCHASE, MARCH_PAYMENT], [], CARD, JUNE_CLOSE, today).remaining
         == 500 - if Within(MARCH_TWENTIETH, PayWindow(10, JUNE_CLOSE, today)) then 500 else 0
    ensures InvoiceToPay([PURCHASE, MARCH_PAYMENT], [], CARD, JUNE_CLOSE, today).status != Projected
    ensures InvoiceToPay([PURCHASE, MARCH_PAYMENT, LATE_PAYMENT], [], CARD, JUNE_CLOSE, today).remaining
         == InvoiceToPay([PURCHASE, MARCH_PAYMENT], [], CARD, JUNE_CLOSE, today).remaining
            - if Within(AFTER_JUNE_CLOSE, PayWindow(10, JUNE_CLOSE, today)) then 500 else 0
    ensures Total([PURCHASE, MARCH_PAYMENT, LATE_PAYMENT], [], CARD, 10, today, JUNE_CLOSE) == 500
    ensures PaidTo([PURCHASE, MARCH_PAYMENT, LATE_PAYMENT], 1, 10, JUNE_CLOSE) == 1000
  {
    hide CycleCloseFor, PayWindow, PaidWithin, Owed, PaidTo, PeriodStart, DueDateFor, Within, Total, KeepsFirst;
    var w := PayWindow(10, JUNE_CLOSE, today);
    PurchaseOnDay(today);
    PurchaseIsOwed();
    PeriodsAdjacent(JUNE_CLOSE, 10);
    JuneCloses();
    assert [PURCHASE] + [MARCH_PAYMENT] == [PURCHASE, MARCH_PAYMENT];
    assert [PURCHASE, MARCH_PAYMENT] + [LATE_PAYMENT] == [PURCHASE, MARCH_PAYMENT, LATE_PAYMENT];
    PaymentCounts([PURCHASE], MARCH_PAYMENT, 1, 10, JUNE_CLOSE, JUNE_CLOSE, w);
    PaymentCounts([PURCHASE, MARCH_PAYMENT], LATE_PAYMENT, 1, 10, JUNE_CLOSE, JUNE_CLOSE, w);
    PaymentOverall([PURCHASE], MARCH_PAYMENT, [], CARD, 10, today, JUNE_CLOSE, JUNE_CLOSE);
    PaymentOverall([PURCHASE, MARCH_PAYMENT], LATE_PAYMENT, [], CARD, 10, today, JUNE_CLOSE, JUNE_CLOSE);
  }

  /** A purchase of 500 is paid on the fifth of June, dated in March, and again on
      the eleventh, when March is out of sight; on the first of July both show,
      and the invoice stands at -500. Each call is dated in its own day's window. */
  lemma TwoDaysOverpay()
    ensures var bank := Bank(map[1 := CARD, 2 := CHECKING], t => true);
      var first := Call(JUNE_CLOSE, Request(None, Some(MARCH_TWENTIETH), None));
      var second := Call(JUNE_CLOSE, DEFAULTS);
      && DatedInWindow(CARD, first, BEFORE_JUNE_CLOSE) && DatedInWindow(CARD, second, AFTER_JUNE_CLOSE)
      && PayOutcome([PURCHASE], [], bank, 1, JUNE_CLOSE, first.data, BEFORE_JUNE_CLOSE) == Posted(MARCH_PAYMENT)
      && PayOutcome([PURCHASE, MARCH_PAYMENT], [], bank, 1, JUNE_CLOSE, second.data, AFTER_JUNE_CLOSE) == Posted(LATE_PAYMENT)
    ensures var after := [PURCHASE, MARCH_PAYMENT, LATE_PAYMENT];
      && PaidTo(after, 1, 10, JUNE_CLOSE) == 1000 && Total(after, [], CARD, 10, AFTER_JUNE_CLOSE, JUNE_CLOSE) == 500
      && InvoiceToPay(after, [], CARD, JUNE_CLOSE, JULY_FIRST).remaining == -500
  {
    hide InvoiceFor, PayWindow, CycleCloseFor, Within, PaidTo, Total;
    JuneCloses();
    PurchaseInvoice();
    MarchComesAndGoes();
    InvoiceOnDay(AFTER_JUNE_CLOSE);
    InvoiceOnDay(JULY_FIRST);
  }
}
