/** What paying invoices keeps: other cycles, no overpayment, and auto-pay that
    can run twice. */
module PaymentProperties {
  import opened Wrappers
  import opened Calendar
  import opened CardCycles
  import opened Ledger
  import opened CardInvoices
  import opened InvoiceProperties
  import opened CardPayments

  /** A transfer from another account that pays the cycle `close` of the card. */
  predicate IsPaymentFor(t: Tx, card: nat, close: Date) {
    t.kind == Transfer && t.toAccount == Some(card) && t.account != card && t.closeTag == Some(close)
    && t.amount > 0 && t.conversion == None
  }

  /** What is posted pays the invoice's cycle, at most what it still asks for. */
  lemma PostedPayment(txs: seq<Tx>, rules: seq<Rule>, bank: Bank, cardId: nat, close: Date, data: Request, today: Date)
    requires Filed(bank) && PayOutcome(txs, rules, bank, cardId, close, data, today).Posted?
    ensures cardId in bank.accounts && Configured(bank.accounts[cardId]) && IsClose(close, bank.accounts[cardId].closingDay.value)
    ensures var t := PayOutcome(txs, rules, bank, cardId, close, data, today).t;
      var invoice := InvoiceToPay(txs, rules, bank.accounts[cardId], close, today);
      && IsPaymentFor(t, cardId, close) && ValidTx(t)
      && 0 < t.amount <= invoice.remaining
      && t.amount == (if data.amount.Some? then data.amount.value else invoice.remaining)
      && t.date == if data.date.Some? then data.date.value else today
  {
    hide InvoiceFor, PayWindow, IsClose, IsDate;
  }

  // --- one payment ---------------------------------------------------------------------

  /** A payment is no charge, and it counts as paid for its own cycle, in the
      windows that contain its date. */
  lemma PaymentCounts(txs: seq<Tx>, t: Tx, card: nat, closingDay: DayOfMonth, close: Date, c: Date, w: Window)
    requires IsPaymentFor(t, card, close)
    ensures Owed(txs + [t], card, closingDay, c) == Owed(txs, card, closingDay, c)
    ensures PaidWithin(txs + [t], card, closingDay, c, w)
         == PaidWithin(txs, card, closingDay, c, w) + if c == close && Within(t.date, w) then t.amount else 0
  {
    hide Within, IsDate, CycleCloseFor, OwedDelta;
    assert (txs + [t])[..|txs|] == txs;
    FetchedAppend(txs, t, card, w);
    PaidToAppend(Fetched(txs, card, w), t, card, closingDay, c);
  }

  lemma CloseMonotone(a: Date, b: Date, closingDay: DayOfMonth)
    requires AtMost(a, b)
    ensures AtMost(CycleCloseFor(a, closingDay), CycleCloseFor(b, closingDay))
  {
    hide CycleCloseFor, IsClose, IsDate;
    CycleCloseIsLeast(a, closingDay);
    CycleCloseIsLeast(b, closingDay);
  }

  /** A posting on `date` leaves the opening balance in the cycle it is in. */
  predicate KeepsFirst(txs: seq<Tx>, card: nat, closingDay: DayOfMonth, today: Date, date: Date) {
    var first := CycleCloseFor(date, closingDay);
    if FirstActivity(txs, card).None? then first == CycleCloseFor(today, closingDay)
    else AtMost(FirstClose(txs, card, closingDay, today), first)
  }

  lemma FirstCloseAfter(txs: seq<Tx>, t: Tx, card: nat, closingDay: DayOfMonth, today: Date, close: Date)
    requires IsPaymentFor(t, card, close)
    ensures FirstActivity(txs + [t], card).Some?
    ensures FirstClose(txs + [t], card, closingDay, today) == FirstClose(txs, card, closingDay, today)
       <==> KeepsFirst(txs, card, closingDay, today, t.date)
  {
    hide CycleCloseFor, IsDate;
    assert (txs + [t])[..|txs|] == txs;
    var first := FirstActivity(txs, card);
    if first.Some? {
      if AtMost(first.value, t.date) {
        CloseMonotone(first.value, t.date, closingDay);
      } else {
        CloseMonotone(t.date, first.value, closingDay);
        OrderIsLexicographic(CycleCloseFor(t.date, closingDay), CycleCloseFor(first.value, closingDay));
      }
    }
  }

  /** Paying one cycle changes no other cycle's numbers exactly when there is no
      opening balance, or the posting date leaves it in its cycle. */
  lemma OtherCyclesUnchangedIff(txs: seq<Tx>, t: Tx, rules: seq<Rule>, card: Account, closingDay: DayOfMonth, today: Date, close: Date)
    requires IsPaymentFor(t, card.id, close)
    ensures forall c: Date, w | c != close ::
      PaidWithin(txs + [t], card.id, closingDay, c, w) == PaidWithin(txs, card.id, closingDay, c, w)
    ensures (forall c: Date | c != close ::
               Total(txs + [t], rules, card, closingDay, today, c) == Total(txs, rules, card, closingDay, today, c))
       <==> card.opening == 0 || KeepsFirst(txs, card.id, closingDay, today, t.date)
  {
    hide PaidWithin, Owed, FirstClose, KeepsFirst, ProjectedIn, IsDate;
    forall c: Date, w | c != close
      ensures PaidWithin(txs + [t], card.id, closingDay, c, w) == PaidWithin(txs, card.id, closingDay, c, w)
    {
      PaymentCounts(txs, t, card.id, closingDay, close, c, w);
    }
    FirstCloseAfter(txs, t, card.id, closingDay, today, close);
    forall c: Date ensures Owed(txs + [t], card.id, closingDay, c) == Owed(txs, card.id, closingDay, c) {
      PaymentCounts(txs, t, card.id, closingDay, close, c, Window(c, c));
    }
    var was, now := FirstClose(txs, card.id, closingDay, today), FirstClose(txs + [t], card.id, closingDay, today);
    if card.opening != 0 && was != now {
      var moved := if was != close then was else now;
      assert Total(txs + [t], rules, card, closingDay, today, moved) != Total(txs, rules, card, closingDay, today, moved);
    }
  }

  /** The paid cycle's own total does not change either, under the same condition. */
  lemma InvoiceAfterPayment(txs: seq<Tx>, t: Tx, rules: seq<Rule>, card: Account, closingDay: DayOfMonth, dueDay: DayOfMonth,
                            today: Date, close: Date, c: Date, w: Window)
    requires IsPaymentFor(t, card.id, close)
    requires card.opening == 0 || KeepsFirst(txs, card.id, closingDay, today, t.date)
    ensures var before := InvoiceFor(txs, rules, card, closingDay, dueDay, today, c, w);
      var after := InvoiceFor(txs + [t], rules, card, closingDay, dueDay, today, c, w);
      && after.total == before.total
      && after.remaining == before.remaining - (if c == close && Within(t.date, w) then t.amount else 0)
      && (c != close ==> after == before)
  {
    hide PaidWithin, Owed, FirstClose, KeepsFirst, ProjectedIn, IsDate, Within, PeriodStart, DueDateFor, StatusOf;
    PaymentCounts(txs, t, card.id, closingDay, close, c, w);
    FirstCloseAfter(txs, t, card.id, closingDay, today, close);
  }

  /** A payment dated outside the window that paying looks at is not seen by
      it: the very same request is accepted again. */
  lemma UnseenPaymentRepeats(txs: seq<Tx>, rules: seq<Rule>, bank: Bank, cardId: nat, close: Date, data: Request, today: Date)
    requires Filed(bank) && PayOutcome(txs, rules, bank, cardId, close, data, today).Posted?
    requires var t := PayOutcome(txs, rules, bank, cardId, close, data, today).t;
      var card := bank.accounts[cardId];
      && !Within(t.date, PayWindow(card.closingDay.value, close, today))
      && (card.opening == 0 || KeepsFirst(txs, cardId, card.closingDay.value, today, t.date))
    ensures var t := PayOutcome(txs, rules, bank, cardId, close, data, today).t;
      PayOutcome(txs + [t], rules, bank, cardId, close, data, today) == Posted(t)
  {
    hide InvoiceFor, PayWindow, IsClose, IsDate, KeepsFirst, Within, StatusOf;
    PostedPayment(txs, rules, bank, cardId, close, data, today);
    var t := PayOutcome(txs, rules, bank, cardId, close, data, today).t;
    var card := bank.accounts[cardId];
    InvoiceAfterPayment(txs, t, rules, card, card.closingDay.value, card.dueDay.value, today, close, close,
                        PayWindow(card.closingDay.value, close, today));
    SameRemainingSameInvoice(txs, txs + [t], rules, card, close, today);
  }

  /** Paying counts, so that the invoice asks for that much less the next time,
      exactly when the payment is dated in the window that paying looks at. */
  lemma PaymentIsSeenIff(txs: seq<Tx>, rules: seq<Rule>, bank: Bank, cardId: nat, close: Date, data: Request, today: Date)
    requires Filed(bank) && PayOutcome(txs, rules, bank, cardId, close, data, today).Posted?
    requires var card := bank.accounts[cardId];
      card.opening == 0 || KeepsFirst(txs, cardId, card.closingDay.value, today, DateOf(Call(close, data), today))
    ensures var t := PayOutcome(txs, rules, bank, cardId, close, data, today).t;
      var card := bank.accounts[cardId];
      var before, after := InvoiceToPay(txs, rules, card, close, today), InvoiceToPay(txs + [t], rules, card, close, today);
      after.remaining == before.remaining - t.amount <==> Within(DateOf(Call(close, data), today), PayWindow(card.closingDay.value, close, today))
  {
    hide InvoiceFor, PayWindow, IsClose, IsDate, KeepsFirst, Within;
    PostedPayment(txs, rules, bank, cardId, close, data, today);
    var t := PayOutcome(txs, rules, bank, cardId, close, data, today).t;
    var card := bank.accounts[cardId];
    InvoiceAfterPayment(txs, t, rules, card, card.closingDay.value, card.dueDay.value, today, close, close,
                        PayWindow(card.closingDay.value, close, today));
  }

  const CARD := Account(1, true, "BRL", false, 0, Some(10), Some(20), Some(2), false)
  const CHECKING := Account(2, false, "BRL", false, 0, None, None, None, false)
  const PURCHASE := Tx(YearMonthDay(2024, 6, 1), Expense, 1, None, 500, None, None)
  const OLD_PAYMENT := Tx(JANUARY_SECOND, Transfer, 2, Some(1), 500, None, Some(JUNE_CLOSE))

  lemma JanuaryIsUnseen()
    ensures !Within(JANUARY_SECOND, PayWindow(10, JUNE_CLOSE, BEFORE_JUNE_CLOSE))
  {
    hide CycleCloseFor, WindowOf, NextDay;
    JuneCloses();
    WindowEnds(BEFORE_JUNE_CLOSE, 10, 2, 2);
    DaysAreConsecutive(OnDay(24290, 10), JANUARY_SECOND);
  }

  lemma PurchaseIsOwed()
    ensures Owed([PURCHASE], 1, 10, JUNE_CLOSE) == 500 && PaidTo([PURCHASE], 1, 10, JUNE_CLOSE) == 0
    ensures PaidTo([PURCHASE, OLD_PAYMENT, OLD_PAYMENT], 1, 10, JUNE_CLOSE) == 1000
  {
    assert CycleCloseFor(PURCHASE.date, 10) == JUNE_CLOSE;
    assert [PURCHASE, OLD_PAYMENT, OLD_PAYMENT][..2] == [PURCHASE, OLD_PAYMENT];
    assert [PURCHASE, OLD_PAYMENT][..1] == [PURCHASE] && [PURCHASE][..0] == [];
    assert Pays(OLD_PAYMENT, 1, 10, JUNE_CLOSE) && !Pays(PURCHASE, 1, 10, JUNE_CLOSE);
    assert PaidTo([PURCHASE], 1, 10, JUNE_CLOSE) == 0;
    assert PaidTo([PURCHASE, OLD_PAYMENT], 1, 10, JUNE_CLOSE) == 500;
  }

  lemma PurchaseInvoice()
    ensures var invoice := InvoiceToPay([PURCHASE], [], CARD, JUNE_CLOSE, BEFORE_JUNE_CLOSE);
      invoice.remaining == 500 && invoice.status == Open
  {
    hide PayWindow, CycleCloseFor, PaidWithin, Owed, PaidTo, PeriodStart, IsClose, DueDateFor;
    JuneCloses();
    PurchaseIsOwed();
    PaidWithinIff([PURCHASE], 1, 10, JUNE_CLOSE, PayWindow(10, JUNE_CLOSE, BEFORE_JUNE_CLOSE));
    PeriodsAdjacent(JUNE_CLOSE, 10);
  }

  /** A purchase of 500 is paid twice, by the same request dated in January. */
  lemma OldPaymentIsTakenTwice()
    ensures var bank := Bank(map[1 := CARD, 2 := CHECKING], t => true);
      var data := Request(None, Some(JANUARY_SECOND), None);
      && PayOutcome([PURCHASE], [], bank, 1, JUNE_CLOSE, data, BEFORE_JUNE_CLOSE) == Posted(OLD_PAYMENT)
      && PayOutcome([PURCHASE, OLD_PAYMENT], [], bank, 1, JUNE_CLOSE, data, BEFORE_JUNE_CLOSE) == Posted(OLD_PAYMENT)
      && PaidTo([PURCHASE, OLD_PAYMENT, OLD_PAYMENT], 1, 10, JUNE_CLOSE) == 1000
  {
    hide InvoiceFor, PayWindow, CycleCloseFor, Within, PaidTo;
    var bank := Bank(map[1 := CARD, 2 := CHECKING], t => true);
    var data := Request(None, Some(JANUARY_SECOND), None);
    JuneCloses();
    PurchaseIsOwed();
    PurchaseInvoice();
    assert PayOutcome([PURCHASE], [], bank, 1, JUNE_CLOSE, data, BEFORE_JUNE_CLOSE) == Posted(OLD_PAYMENT);
    JanuaryIsUnseen();
    UnseenPaymentRepeats([PURCHASE], [], bank, 1, JUNE_CLOSE, data, BEFORE_JUNE_CLOSE);
    assert [PURCHASE] + [OLD_PAYMENT] == [PURCHASE, OLD_PAYMENT];
  }

  /** So a request dated today, and paid in full, overpays once the ledger holds
      a payment that paying does not see. */
  lemma DefaultRequestOverpays()
    ensures var bank := Bank(map[1 := CARD, 2 := CHECKING], t => true);
      var txs := [PURCHASE, OLD_PAYMENT];
      var r := PayOutcome(txs, [], bank, 1, JUNE_CLOSE, DEFAULTS, BEFORE_JUNE_CLOSE);
      && DatedInWindow(CARD, Call(JUNE_CLOSE, DEFAULTS), BEFORE_JUNE_CLOSE)
      && r.Posted? && PaidTo(txs + [r.t], 1, 10, JUNE_CLOSE) == 1000
      && Total(txs + [r.t], [], CARD, 10, BEFORE_JUNE_CLOSE, JUNE_CLOSE) == 500
  {
    hide InvoiceFor, PayWindow, CycleCloseFor, Within, PaidTo, KeepsFirst, PeriodStart, Total;
    var bank := Bank(map[1 := CARD, 2 := CHECKING], t => true);
    var txs := [PURCHASE, OLD_PAYMENT];
    OldPaymentUnseen();
    assert DatedInWindow(CARD, Call(JUNE_CLOSE, DEFAULTS), BEFORE_JUNE_CLOSE) by {
      JuneIsDue();
      TimelyIsSeen(JUNE_CLOSE, 10, BEFORE_JUNE_CLOSE, BEFORE_JUNE_CLOSE);
    }
    JuneCloses();
    var r := PayOutcome(txs, [], bank, 1, JUNE_CLOSE, DEFAULTS, BEFORE_JUNE_CLOSE);
    PostedPayment(txs, [], bank, 1, JUNE_CLOSE, DEFAULTS, BEFORE_JUNE_CLOSE);
    PaymentOverall(txs, r.t, [], CARD, 10, BEFORE_JUNE_CLOSE, JUNE_CLOSE, JUNE_CLOSE);
  }

  lemma JuneIsDue()
    ensures AtMost(PeriodStart(JUNE_CLOSE, 10), BEFORE_JUNE_CLOSE)
  {
    PeriodsAdjacent(JUNE_CLOSE, 10);
  }

  lemma OldPaymentUnseen()
    ensures var txs := [PURCHASE, OLD_PAYMENT];
      && InvoiceToPay(txs, [], CARD, JUNE_CLOSE, BEFORE_JUNE_CLOSE).remaining == 500
      && InvoiceToPay(txs, [], CARD, JUNE_CLOSE, BEFORE_JUNE_CLOSE).status == Open
      && PaidTo(txs, 1, 10, JUNE_CLOSE) == 500 && Total(txs, [], CARD, 10, BEFORE_JUNE_CLOSE, JUNE_CLOSE) == 500
  {
    hide InvoiceFor, PayWindow, CycleCloseFor, Within, PaidTo, KeepsFirst, Total;
    PurchaseInvoice();
    PurchaseTotal();
    PurchaseIsOwed();
    JanuaryIsUnseen();
    assert [PURCHASE] + [OLD_PAYMENT] == [PURCHASE, OLD_PAYMENT];
    InvoiceAfterPayment([PURCHASE], OLD_PAYMENT, [], CARD, 10, 20, BEFORE_JUNE_CLOSE, JUNE_CLOSE, JUNE_CLOSE,
                        PayWindow(10, JUNE_CLOSE, BEFORE_JUNE_CLOSE));
    SameRemainingSameInvoice([PURCHASE], [PURCHASE, OLD_PAYMENT], [], CARD, JUNE_CLOSE, BEFORE_JUNE_CLOSE);
    PaymentOverall([PURCHASE], OLD_PAYMENT, [], CARD, 10, BEFORE_JUNE_CLOSE, JUNE_CLOSE, JUNE_CLOSE);
  }

  lemma PurchaseTotal()
    ensures Total([PURCHASE], [], CARD, 10, BEFORE_JUNE_CLOSE, JUNE_CLOSE) == 500
  {
    hide Owed, CycleCloseFor, FirstClose;
    PurchaseIsOwed();
  }

  const JANUARY_CLOSE: Date := YearMonthDay(2024, 1, 10)

  /** A payment of the June cycle dated in January takes an opening balance out of
      the June invoice, and puts it into the January one, which it does not pay. */
  lemma EarlyPaymentMovesTheOpening(card: Account)
    requires card.id == 1 && card.opening != 0
    ensures Total([PURCHASE, OLD_PAYMENT], [], card, 10, BEFORE_JUNE_CLOSE, JUNE_CLOSE)
         == Total([PURCHASE], [], card, 10, BEFORE_JUNE_CLOSE, JUNE_CLOSE) + card.opening
    ensures Total([PURCHASE, OLD_PAYMENT], [], card, 10, BEFORE_JUNE_CLOSE, JANUARY_CLOSE)
         == Total([PURCHASE], [], card, 10, BEFORE_JUNE_CLOSE, JANUARY_CLOSE) - card.opening
  {
    hide Owed, ProjectedIn, IsDate;
    var before, after := [PURCHASE], [PURCHASE, OLD_PAYMENT];
    assert before[..0] == [] && after[..1] == before;
    assert FirstActivity(before, 1) == Some(PURCHASE.date);
    assert FirstActivity(after, 1) == Some(JANUARY_SECOND);
    assert CycleCloseFor(PURCHASE.date, 10) == JUNE_CLOSE && CycleCloseFor(JANUARY_SECOND, 10) == JANUARY_CLOSE;
    assert before + [OLD_PAYMENT] == after;
    PaymentCounts(before, OLD_PAYMENT, 1, 10, JUNE_CLOSE, JUNE_CLOSE, Window(JUNE_CLOSE, JUNE_CLOSE));
    PaymentCounts(before, OLD_PAYMENT, 1, 10, JUNE_CLOSE, JANUARY_CLOSE, Window(JUNE_CLOSE, JUNE_CLOSE));
  }

  lemma SameRemainingSameInvoice(txs: seq<Tx>, txs': seq<Tx>, rules: seq<Rule>, card: Account, close: Date, today: Date)
    requires Configured(card)
    requires var before := InvoiceToPay(txs, rules, card, close, today);
      var after := InvoiceToPay(txs', rules, card, close, today);
      after.remaining == before.remaining && after.total == before.total
    ensures InvoiceToPay(txs', rules, card, close, today) == InvoiceToPay(txs, rules, card, close, today)
  {
    hide Total, PaidWithin, IsDate, PayWindow, PeriodStart, DueDateFor, StatusOf;
  }

  // --- sequences of payments ------------------------------------------------------------------

  datatype Call = Call(close: Date, data: Request)

  function DateOf(call: Call, today: Date): Date {
    if call.data.date.Some? then call.data.date.value else today
  }

  /** The ledger after a day's calls, whatever each of them answers. */
  function AfterCalls(txs: seq<Tx>, rules: seq<Rule>, bank: Bank, cardId: nat, calls: seq<Call>, today: Date): seq<Tx> {
    if calls == [] then txs else
    var last := calls[|calls| - 1];
    var before := AfterCalls(txs, rules, bank, cardId, calls[..|calls| - 1], today);
    match PayOutcome(before, rules, bank, cardId, last.close, last.data, today)
    case Posted(t) => before + [t]
    case Refused(_) => before
  }

  /** The call leaves the opening balance where it is. */
  ghost predicate LeavesOpening(txs: seq<Tx>, card: Account, call: Call, today: Date)
    requires Configured(card)
  {
    card.opening == 0 || KeepsFirst(txs, card.id, card.closingDay.value, today, DateOf(call, today))
  }

  /** The call is dated in the window that paying its cycle looks at. */
  ghost predicate DatedInWindow(card: Account, call: Call, today: Date)
    requires Configured(card)
  {
    Within(DateOf(call, today), PayWindow(card.closingDay.value, call.close, today))
  }

  lemma KeepsFirstAfter(txs: seq<Tx>, t: Tx, card: nat, closingDay: DayOfMonth, today: Date, close: Date, date: Date)
    requires IsPaymentFor(t, card, close) && KeepsFirst(txs, card, closingDay, today, t.date)
    requires KeepsFirst(txs, card, closingDay, today, date)
    ensures KeepsFirst(txs + [t], card, closingDay, today, date)
  {
    hide CycleCloseFor, IsDate;
    FirstCloseAfter(txs, t, card, closingDay, today, close);
  }

  lemma TimelyIsSeen(close: Date, closingDay: DayOfMonth, today: Date, date: Date)
    requires IsClose(close, closingDay)
    requires AtMost(PeriodStart(close, closingDay), date) && AtMost(date, today)
    ensures Within(date, PayWindow(closingDay, close, today))
  {
    hide Closes, WindowOf, IsDate, Within, PeriodStart, IsClose;
    var span := MonthsBetween(close, today) + 2;
    SpanListsEveryClose(close, today, closingDay);
    TimelyIsNarrow(today, closingDay, close, date);
    WindowsNest(today, closingDay, close, span, span, date);
  }

  /** A posted payment that leaves the opening balance in place leaves it in
      place for every later call too. */
  lemma OpeningStays(txs: seq<Tx>, t: Tx, card: Account, close: Date, today: Date, call: Call)
    requires Configured(card) && IsPaymentFor(t, card.id, close)
    requires card.opening == 0 || KeepsFirst(txs, card.id, card.closingDay.value, today, t.date)
    requires LeavesOpening(txs, card, call, today)
    ensures LeavesOpening(txs + [t], card, call, today)
  {
    hide KeepsFirst;
    if card.opening != 0 {
      KeepsFirstAfter(txs, t, card.id, card.closingDay.value, today, close, DateOf(call, today));
    }
  }

  /** No sequence of a day's calls that leave the opening balance in place takes
      the amount an invoice shows as remaining below zero; totals never move. */
  lemma {:induction false} NeverShownNegative(txs: seq<Tx>, rules: seq<Rule>, bank: Bank, cardId: nat, calls: seq<Call>, today: Date, c: Date)
    requires Filed(bank) && cardId in bank.accounts && Configured(bank.accounts[cardId])
    requires forall call | call in calls :: LeavesOpening(txs, bank.accounts[cardId], call, today)
    ensures var after := AfterCalls(txs, rules, bank, cardId, calls, today);
      var card := bank.accounts[cardId];
      && InvoiceToPay(after, rules, card, c, today).total == InvoiceToPay(txs, rules, card, c, today).total
      && InvoiceToPay(after, rules, card, c, today).remaining <= InvoiceToPay(txs, rules, card, c, today).remaining
      && (InvoiceToPay(txs, rules, card, c, today).remaining >= 0 ==> InvoiceToPay(after, rules, card, c, today).remaining >= 0)
    ensures var after := AfterCalls(txs, rules, bank, cardId, calls, today);
      forall call: Call | LeavesOpening(txs, bank.accounts[cardId], call, today) :: LeavesOpening(after, bank.accounts[cardId], call, today)
  {
    hide InvoiceFor, PayWindow, IsDate, KeepsFirst, PayOutcome, PeriodStart, IsClose, Within;
    if calls != [] {
      var n := |calls| - 1;
      var card, last := bank.accounts[cardId], calls[n];
      var closingDay, dueDay := card.closingDay.value, card.dueDay.value;
      NeverShownNegative(txs, rules, bank, cardId, calls[..n], today, c);
      var before := AfterCalls(txs, rules, bank, cardId, calls[..n], today);
      assert LeavesOpening(txs, card, last, today);
      assert LeavesOpening(before, card, last, today);
      var r := PayOutcome(before, rules, bank, cardId, last.close, last.data, today);
      if r.Posted? {
        PostedPayment(before, rules, bank, cardId, last.close, last.data, today);
        InvoiceAfterPayment(before, r.t, rules, card, closingDay, dueDay, today, last.close, c, PayWindow(closingDay, c, today));
        forall call: Call | LeavesOpening(before, card, call, today) ensures LeavesOpening(before + [r.t], card, call, today) {
          OpeningStays(before, r.t, card, last.close, today, call);
        }
      }
    }
  }

  // --- what is paid in all ---------------------------------------------------------------------

  /** A payment over the whole ledger: its cycle's total stays, and what is paid
      to it grows by the amount, whatever any window shows. */
  lemma PaymentOverall(txs: seq<Tx>, t: Tx, rules: seq<Rule>, card: Account, closingDay: DayOfMonth, today: Date, close: Date, c: Date)
    requires IsPaymentFor(t, card.id, close)
    requires card.opening == 0 || KeepsFirst(txs, card.id, closingDay, today, t.date)
    ensures Total(txs + [t], rules, card, closingDay, today, c) == Total(txs, rules, card, closingDay, today, c)
    ensures PaidTo(txs + [t], card.id, closingDay, c) == PaidTo(txs, card.id, closingDay, c) + if c == close then t.amount else 0
  {
    hide Owed, FirstClose, KeepsFirst, ProjectedIn, IsDate, PaidTo, CycleCloseFor, PaidWithin;
    PaymentCounts(txs, t, card.id, closingDay, close, c, Window(c, c));
    FirstCloseAfter(txs, t, card.id, closingDay, today, close);
    PaidToAppend(txs, t, card.id, closingDay, c);
  }

  lemma FirstCloseMoves(txs: seq<Tx>, t: Tx, card: nat, closingDay: DayOfMonth, today: Date, close: Date)
    requires IsPaymentFor(t, card, close) && !KeepsFirst(txs, card, closingDay, today, t.date)
    ensures FirstClose(txs + [t], card, closingDay, today) == CycleCloseFor(t.date, closingDay)
  {
    hide CycleCloseFor, IsDate;
    assert (txs + [t])[..|txs|] == txs;
    var first := FirstActivity(txs, card);
    if first.Some? && AtMost(first.value, t.date) {
      CloseMonotone(first.value, t.date, closingDay);
      assert false;
    }
  }

  /** How much a payment of the cycle `close`, dated `date`, adds to its total by
      moving the opening balance. */
  function OpeningShift(txs: seq<Tx>, card: Account, closingDay: DayOfMonth, today: Date, close: Date, date: Date): int {
    if card.opening == 0 || KeepsFirst(txs, card.id, closingDay, today, date) then 0
    else (if CycleCloseFor(date, closingDay) == close then -card.opening else 0) - OpeningIn(txs, card, closingDay, today, close)
  }

  lemma TotalAfterPayment(txs: seq<Tx>, t: Tx, rules: seq<Rule>, card: Account, closingDay: DayOfMonth, today: Date, close: Date)
    requires IsPaymentFor(t, card.id, close)
    ensures Total(txs + [t], rules, card, closingDay, today, close)
         == Total(txs, rules, card, closingDay, today, close) + OpeningShift(txs, card, closingDay, today, close, t.date)
    ensures PaidTo(txs + [t], card.id, closingDay, close) == PaidTo(txs, card.id, closingDay, close) + t.amount
  {
    hide Owed, FirstClose, KeepsFirst, ProjectedIn, IsDate, PaidTo, CycleCloseFor, PaidWithin;
    PaymentCounts(txs, t, card.id, closingDay, close, close, Window(close, close));
    FirstCloseAfter(txs, t, card.id, closingDay, today, close);
    if !KeepsFirst(txs, card.id, closingDay, today, t.date) {
      FirstCloseMoves(txs, t, card.id, closingDay, today, close);
    }
    PaidToAppend(txs, t, card.id, closingDay, close);
  }

  /** The whole-ledger condition: whatever amount is asked for, an accepted
      request keeps the cycle from being paid more than its total if and only if
      the cycle's earlier payments that paying does not see come to no more than
      what the request's date adds to the total by moving the opening balance. */
  lemma OverpaymentIff(txs: seq<Tx>, rules: seq<Rule>, bank: Bank, cardId: nat, close: Date, data: Request, today: Date)
    requires Filed(bank) && PayOutcome(txs, rules, bank, cardId, close, data.(amount := None), today).Posted?
    requires cardId in bank.accounts && Configured(bank.accounts[cardId])
    ensures var card := bank.accounts[cardId];
      (forall amount: Option<int> | PayOutcome(txs, rules, bank, cardId, close, data.(amount := amount), today).Posted? ::
         var after := txs + [PayOutcome(txs, rules, bank, cardId, close, data.(amount := amount), today).t];
         PaidTo(after, cardId, card.closingDay.value, close) <= Total(after, rules, card, card.closingDay.value, today, close))
      <==>
        PaidTo(txs, cardId, card.closingDay.value, close)
        - PaidWithin(txs, cardId, card.closingDay.value, close, PayWindow(card.closingDay.value, close, today))
        <= OpeningShift(txs, card, card.closingDay.value, today, close, DateOf(Call(close, data), today))
  {
    hide PayOutcome, PaidTo, Total, PayWindow, IsClose, IsDate, PaidWithin, OpeningShift;
    var card := bank.accounts[cardId];
    var closingDay := card.closingDay.value;
    var w := PayWindow(closingDay, close, today);
    var shift := OpeningShift(txs, card, closingDay, today, close, DateOf(Call(close, data), today));
    forall amount: Option<int> | PayOutcome(txs, rules, bank, cardId, close, data.(amount := amount), today).Posted?
      ensures var t := PayOutcome(txs, rules, bank, cardId, close, data.(amount := amount), today).t;
        var remaining := Total(txs, rules, card, closingDay, today, close) - PaidWithin(txs, cardId, closingDay, close, w);
        && t.amount <= remaining && (amount.None? ==> t.amount == remaining)
        && Total(txs + [t], rules, card, closingDay, today, close) == Total(txs, rules, card, closingDay, today, close) + shift
        && PaidTo(txs + [t], cardId, closingDay, close) == PaidTo(txs, cardId, closingDay, close) + t.amount
    {
      PostedPayment(txs, rules, bank, cardId, close, data.(amount := amount), today);
      var t := PayOutcome(txs, rules, bank, cardId, close, data.(amount := amount), today).t;
      TotalAfterPayment(txs, t, rules, card, closingDay, today, close);
    }
    var whole := PayOutcome(txs, rules, bank, cardId, close, data.(amount := None), today).t;
    assert PaidTo(txs + [whole], cardId, closingDay, close) == PaidTo(txs, cardId, closingDay, close) + whole.amount;
  }

  /** In particular, when the request leaves the opening balance in place: if and
      only if every earlier payment of the cycle is dated in the window paying
      looks at. */
  lemma NoOverpaymentIff(txs: seq<Tx>, rules: seq<Rule>, bank: Bank, cardId: nat, close: Date, data: Request, today: Date)
    requires Filed(bank) && forall t | t in txs :: ValidTx(t)
    requires PayOutcome(txs, rules, bank, cardId, close, data.(amount := None), today).Posted?
    requires LeavesOpening(txs, bank.accounts[cardId], Call(close, data), today)
    ensures var card := bank.accounts[cardId];
      (forall amount: Option<int> | PayOutcome(txs, rules, bank, cardId, close, data.(amount := amount), today).Posted? ::
         var after := txs + [PayOutcome(txs, rules, bank, cardId, close, data.(amount := amount), today).t];
         PaidTo(after, cardId, card.closingDay.value, close) <= Total(after, rules, card, card.closingDay.value, today, close))
      <==> PaymentsWithin(txs, cardId, card.closingDay.value, close, PayWindow(card.closingDay.value, close, today))
  {
    hide PayOutcome, PaidTo, Total, PayWindow, IsClose, IsDate, KeepsFirst, Within, PaymentsWithin, PaidWithin;
    PostedPayment(txs, rules, bank, cardId, close, data.(amount := None), today);
    OverpaymentIff(txs, rules, bank, cardId, close, data, today);
    var closingDay := bank.accounts[cardId].closingDay.value;
    PaidWithinIff(txs, cardId, closingDay, close, PayWindow(closingDay, close, today));
  }

  /** Every payment of every cycle is dated in the window that paying it looks at. */
  ghost predicate AllSeen(txs: seq<Tx>, card: Account, today: Date)
    requires Configured(card)
  {
    forall c | IsClose(c, card.closingDay.value) ::
      PaymentsWithin(txs, card.id, card.closingDay.value, c, PayWindow(card.closingDay.value, c, today))
  }

  /** That invariant is kept by exactly the calls dated in the window of their cycle. */
  lemma SeenAfterIff(txs: seq<Tx>, rules: seq<Rule>, bank: Bank, cardId: nat, call: Call, today: Date)
    requires Filed(bank) && PayOutcome(txs, rules, bank, cardId, call.close, call.data, today).Posted?
    requires cardId in bank.accounts && Configured(bank.accounts[cardId])
    ensures var card := bank.accounts[cardId];
      AllSeen(txs + [PayOutcome(txs, rules, bank, cardId, call.close, call.data, today).t], card, today)
      <==> AllSeen(txs, card, today) && DatedInWindow(card, call, today)
  {
    hide PayOutcome, PayWindow, IsClose, IsDate, Within, PaymentsWithin;
    PostedPayment(txs, rules, bank, cardId, call.close, call.data, today);
    var card, t := bank.accounts[cardId], PayOutcome(txs, rules, bank, cardId, call.close, call.data, today).t;
    var closingDay := card.closingDay.value;
    forall c: Date
      ensures PaymentsWithin(txs + [t], cardId, closingDay, c, PayWindow(closingDay, c, today)) <==>
        PaymentsWithin(txs, cardId, closingDay, c, PayWindow(closingDay, c, today)) && (c == call.close ==> DatedInWindow(card, call, today))
    {
      PaymentsWithinAppend(txs, t, cardId, closingDay, c, PayWindow(closingDay, c, today));
    }
  }

  /** No sequence of a day's calls, each dated in the window of its cycle and
      leaving the opening balance in place, takes what is paid to a cycle over
      the whole ledger above the cycle's total. */
  lemma {:induction false} NeverOverpaidInADay(txs: seq<Tx>, rules: seq<Rule>, bank: Bank, cardId: nat, calls: seq<Call>, today: Date, c: Date)
    requires Filed(bank) && cardId in bank.accounts && Configured(bank.accounts[cardId])
    requires AllSeen(txs, bank.accounts[cardId], today) && forall t | t in txs :: ValidTx(t)
    requires forall call | call in calls ::
      LeavesOpening(txs, bank.accounts[cardId], call, today) && DatedInWindow(bank.accounts[cardId], call, today)
    ensures var after := AfterCalls(txs, rules, bank, cardId, calls, today);
      var card := bank.accounts[cardId];
      var closingDay := card.closingDay.value;
      && Total(after, rules, card, closingDay, today, c) == Total(txs, rules, card, closingDay, today, c)
      && PaidTo(after, cardId, closingDay, c) >= PaidTo(txs, cardId, closingDay, c)
      && (PaidTo(txs, cardId, closingDay, c) <= Total(txs, rules, card, closingDay, today, c) ==>
            PaidTo(after, cardId, closingDay, c) <= Total(after, rules, card, closingDay, today, c))
    ensures var after := AfterCalls(txs, rules, bank, cardId, calls, today);
      AllSeen(after, bank.accounts[cardId], today) && forall t | t in after :: ValidTx(t)
  {
    hide PayOutcome, PaidTo, Total, PayWindow, IsClose, IsDate, LeavesOpening, DatedInWindow, AllSeen, InvoiceToPay, ValidTx;
    if calls != [] {
      var n := |calls| - 1;
      var last := calls[n];
      NeverOverpaidInADay(txs, rules, bank, cardId, calls[..n], today, c);
      NeverShownNegative(txs, rules, bank, cardId, calls[..n], today, c);
      var before := AfterCalls(txs, rules, bank, cardId, calls[..n], today);
      if PayOutcome(before, rules, bank, cardId, last.close, last.data, today).Posted? {
        PostedPayment(before, rules, bank, cardId, last.close, last.data, today);
        SeenByPaying(before, bank.accounts[cardId], last.close, today);
        PaidInFull(before, rules, bank, cardId, last, today, c);
        SeenAfterIff(before, rules, bank, cardId, last, today);
      }
    }
  }

  lemma SeenByPaying(txs: seq<Tx>, card: Account, close: Date, today: Date)
    requires Configured(card) && AllSeen(txs, card, today) && IsClose(close, card.closingDay.value)
    ensures PaymentsWithin(txs, card.id, card.closingDay.value, close, PayWindow(card.closingDay.value, close, today))
  {
  }

  /** One call, made when every earlier payment of its cycle is seen, overpays nothing. */
  lemma PaidInFull(txs: seq<Tx>, rules: seq<Rule>, bank: Bank, cardId: nat, call: Call, today: Date, c: Date)
    requires Filed(bank) && PayOutcome(txs, rules, bank, cardId, call.close, call.data, today).Posted?
    requires cardId in bank.accounts && Configured(bank.accounts[cardId])
    requires PaymentsWithin(txs, cardId, bank.accounts[cardId].closingDay.value, call.close,
                            PayWindow(bank.accounts[cardId].closingDay.value, call.close, today))
    requires LeavesOpening(txs, bank.accounts[cardId], call, today) && forall t | t in txs :: ValidTx(t)
    ensures var t := PayOutcome(txs, rules, bank, cardId, call.close, call.data, today).t;
      var card := bank.accounts[cardId];
      var closingDay := card.closingDay.value;
      && ValidTx(t)
      && Total(txs + [t], rules, card, closingDay, today, c) == Total(txs, rules, card, closingDay, today, c)
      && PaidTo(txs + [t], cardId, closingDay, c) >= PaidTo(txs, cardId, closingDay, c)
      && (PaidTo(txs, cardId, closingDay, c) <= Total(txs, rules, card, closingDay, today, c) ==>
            PaidTo(txs + [t], cardId, closingDay, c) <= Total(txs, rules, card, closingDay, today, c))
  {
    hide PayOutcome, PaidTo, Total, PayWindow, IsClose, IsDate, KeepsFirst, Within, PaymentsWithin, PaidWithin;
    PostedPayment(txs, rules, bank, cardId, call.close, call.data, today);
    var card, t := bank.accounts[cardId], PayOutcome(txs, rules, bank, cardId, call.close, call.data, today).t;
    PaymentOverall(txs, t, rules, card, card.closingDay.value, today, call.close, c);
    PaidWithinIff(txs, cardId, card.closingDay.value, call.close, PayWindow(card.closingDay.value, call.close, today));
  }

  // --- auto-pay runs twice ---------------------------------------------------------------------

  /** A cycle that is over and still owes something began no earlier than the
      card's first activity, so paying it today leaves the opening balance alone. */
  lemma OverdueKeepsFirst(txs: seq<Tx>, rules: seq<Rule>, card: Account, closingDay: DayOfMonth, dueDay: DayOfMonth,
                          today: Date, close: Date, w: Window)
    requires forall t | t in txs :: ValidTx(t)
    requires Before(close, today)
    requires InvoiceFor(txs, rules, card, closingDay, dueDay, today, close, w).remaining > 0
    ensures card.opening == 0 || KeepsFirst(txs, card.id, closingDay, today, today)
  {
    hide CycleCloseFor, IsDate, Owed, PaidWithin, PeriodStart, DueDateFor, StatusOf;
    PaidWithinIff(txs, card.id, closingDay, close, w);
    FirstActivityIsFirst(txs, card.id);
    var first := FirstActivity(txs, card.id);
    CycleCloseIsLeast(today, closingDay);
    if first.Some? && FirstClose(txs, card.id, closingDay, today) != close && card.opening != 0 {
      var t := SomeCharge(txs, card.id, closingDay, close);
      CloseMonotone(first.value, t.date, closingDay);
    } else if first.None? && card.opening != 0 {
      OrderIsLexicographic(close, CycleCloseFor(today, closingDay));
    }
  }

  lemma {:induction false} SomeCharge(txs: seq<Tx>, card: nat, closingDay: DayOfMonth, close: Date) returns (t: Tx)
    requires Owed(txs, card, closingDay, close) > 0
    ensures t in txs && Touches(t, card) && CycleCloseFor(t.date, closingDay) == close
  {
    hide CycleCloseFor, IsDate;
    var last := txs[|txs| - 1];
    if Charges(last, card, closingDay, close) && OwedDelta(last, card) != 0 {
      t := last;
    } else {
      t := SomeCharge(txs[..|txs| - 1], card, closingDay, close);
    }
  }

  /** The invoices a pass works through, as the ledger stands. */
  function PassInvoice(txs: seq<Tx>, rules: seq<Rule>, card: Account, close: Date, today: Date): Invoice
    requires Configured(card)
  {
    InvoiceFor(txs, rules, card, card.closingDay.value, card.dueDay.value, today, close,
               WindowOf(today, card.closingDay.value, 2, 0))
  }

  function PassInvoices(txs: seq<Tx>, rules: seq<Rule>, card: Account, closes: seq<Date>, today: Date): seq<Invoice>
    requires Configured(card)
  {
    seq(|closes|, i requires 0 <= i < |closes| => PassInvoice(txs, rules, card, closes[i], today))
  }

  function AutoPayOf(txs: seq<Tx>, rules: seq<Rule>, bank: Bank, card: Account, close: Date, today: Date): PayResult {
    PayOutcome(txs, rules, bank, card.id, close, DEFAULTS, today)
  }

  /** Coming to this cycle, a pass posts nothing. */
  ghost predicate PostsNothing(txs: seq<Tx>, rules: seq<Rule>, bank: Bank, card: Account, close: Date, today: Date)
    requires Configured(card)
  {
    DueNow(PassInvoice(txs, rules, card, close, today), today) ==> AutoPayOf(txs, rules, bank, card, close, today).Refused?
  }

  ghost predicate Ready(txs: seq<Tx>, bank: Bank, card: Account) {
    && Configured(card) && Filed(bank) && card.id in bank.accounts && bank.accounts[card.id] == card
    && forall t | t in txs :: ValidTx(t)
  }

  /** A pass posts nothing when it posts nothing at each of the cycles it
      comes to, up to one where it is refused. */
  lemma {:induction false} PassPostsNothing(txs: seq<Tx>, rules: seq<Rule>, bank: Bank, card: Account,
                                            done: seq<Date>, left: seq<Date>, today: Date)
    requires Ready(txs, bank, card)
    requires forall c | c in done :: PostsNothing(txs, rules, bank, card, c, today)
    requires left != [] ==>
      DueNow(PassInvoice(txs, rules, card, left[0], today), today) && AutoPayOf(txs, rules, bank, card, left[0], today).Refused?
    ensures AutoPayOver(txs, rules, bank, card.id, PassInvoices(txs, rules, card, done + left, today), today).0 == txs
  {
    hide PassInvoice, DueNow, PayOutcome, IsDate, AutoPayOver;
    var all := done + left;
    var invoices := PassInvoices(txs, rules, card, all, today);
    if all == [] {
      AutoPayNothing(txs, rules, bank, card.id, today);
    } else {
      PassInvoiceClose(txs, rules, card, all[0], today);
      AutoPayStep(txs, rules, bank, card.id, invoices, today);
      if done != [] {
        assert all[0] == done[0] && all[1..] == done[1..] + left;
        assert invoices[1..] == PassInvoices(txs, rules, card, done[1..] + left, today);
        assert PostsNothing(txs, rules, bank, card, done[0], today);
        PassPostsNothing(txs, rules, bank, card, done[1..], left, today);
      } else {
        assert all == left;
      }
    }
  }

  lemma PassInvoiceClose(txs: seq<Tx>, rules: seq<Rule>, card: Account, close: Date, today: Date)
    requires Configured(card)
    ensures PassInvoice(txs, rules, card, close, today).closeDate == close
    ensures PassInvoice(txs, rules, card, close, today).dueDate == DueDateFor(close, card.dueDay.value)
  {
    hide Total, PaidWithin, PeriodStart, DueDateFor, StatusOf, IsDate, WindowOf;
  }

  /** An automatic payment settles its cycle and leaves every other alone. */
  lemma AutoPaymentSettles(txs: seq<Tx>, rules: seq<Rule>, bank: Bank, card: Account, close: Date, today: Date)
    requires Ready(txs, bank, card)
    requires DueNow(PassInvoice(txs, rules, card, close, today), today) && AutoPayOf(txs, rules, bank, card, close, today).Posted?
    ensures var t := AutoPayOf(txs, rules, bank, card, close, today).t;
      && Ready(txs + [t], bank, card)
      && InvoiceToPay(txs + [t], rules, card, close, today).remaining == 0
      && AutoPayOf(txs + [t], rules, bank, card, close, today).Refused?
      && forall d: Date | d != close ::
           && PassInvoice(txs + [t], rules, card, d, today) == PassInvoice(txs, rules, card, d, today)
           && AutoPayOf(txs + [t], rules, bank, card, d, today) == AutoPayOf(txs, rules, bank, card, d, today)
           && InvoiceToPay(txs + [t], rules, card, d, today) == InvoiceToPay(txs, rules, card, d, today)
  {
    hide InvoiceFor, PayWindow, WindowOf, KeepsFirst, Within, IsDate, IsClose, PeriodStart, PassInvoice;
    var t := AutoPayOf(txs, rules, bank, card, close, today).t;
    var closingDay, dueDay := card.closingDay.value, card.dueDay.value;
    PostedPayment(txs, rules, bank, card.id, close, DEFAULTS, today);
    PassInvoiceClose(txs, rules, card, close, today);
    DueDateIsNext(close, dueDay);
    PeriodsAdjacent(close, closingDay);
    TimelyIsSeen(close, closingDay, today, t.date);
    OverdueKeepsFirst(txs, rules, card, closingDay, dueDay, today, close, PayWindow(closingDay, close, today));
    InvoiceAfterPayment(txs, t, rules, card, closingDay, dueDay, today, close, close, PayWindow(closingDay, close, today));
    forall d: Date | d != close
      ensures PassInvoice(txs + [t], rules, card, d, today) == PassInvoice(txs, rules, card, d, today)
      ensures AutoPayOf(txs + [t], rules, bank, card, d, today) == AutoPayOf(txs, rules, bank, card, d, today)
      ensures InvoiceToPay(txs + [t], rules, card, d, today) == InvoiceToPay(txs, rules, card, d, today)
    {
      OtherCycleUnseen(txs, t, rules, card, close, d, today);
    }
  }

  lemma OtherCycleUnseen(txs: seq<Tx>, t: Tx, rules: seq<Rule>, card: Account, close: Date, d: Date, today: Date)
    requires Configured(card) && IsPaymentFor(t, card.id, close) && d != close
    requires card.opening == 0 || KeepsFirst(txs, card.id, card.closingDay.value, today, t.date)
    ensures PassInvoice(txs + [t], rules, card, d, today) == PassInvoice(txs, rules, card, d, today)
    ensures InvoiceToPay(txs + [t], rules, card, d, today) == InvoiceToPay(txs, rules, card, d, today)
  {
    hide InvoiceFor, PayWindow, WindowOf, KeepsFirst, IsDate;
    var closingDay, dueDay := card.closingDay.value, card.dueDay.value;
    InvoiceAfterPayment(txs, t, rules, card, closingDay, dueDay, today, close, d, PayWindow(closingDay, d, today));
    InvoiceAfterPayment(txs, t, rules, card, closingDay, dueDay, today, close, d, WindowOf(today, closingDay, 2, 0));
  }

  /** After the rest of a pass, a whole new pass posts nothing. */
  lemma {:induction false} PassTwice(txs: seq<Tx>, rules: seq<Rule>, bank: Bank, card: Account,
                                     done: seq<Date>, left: seq<Date>, today: Date)
    requires Ready(txs, bank, card) && Distinct(done + left)
    requires forall c | c in done :: PostsNothing(txs, rules, bank, card, c, today)
    ensures var after := AutoPayOver(txs, rules, bank, card.id, PassInvoices(txs, rules, card, left, today), today).0;
      AutoPayOver(after, rules, bank, card.id, PassInvoices(after, rules, card, done + left, today), today).0 == after
    decreases |left|
  {
    hide PassInvoice, DueNow, AutoPayOf, IsDate, AutoPayOver, InvoiceToPay;
    var invoices := PassInvoices(txs, rules, card, left, today);
    if left == [] {
      AutoPayNothing(txs, rules, bank, card.id, today);
      PassPostsNothing(txs, rules, bank, card, done, [], today);
    } else {
      var c := left[0];
      assert done + left == (done + [c]) + left[1..];
      assert invoices[1..] == PassInvoices(txs, rules, card, left[1..], today);
      PassStep(txs, rules, bank, card, left, today);
      var r := AutoPayOf(txs, rules, bank, card, c, today);
      if !DueNow(PassInvoice(txs, rules, card, c, today), today) {
        PassTwice(txs, rules, bank, card, done + [c], left[1..], today);
      } else if r.Refused? {
        PassPostsNothing(txs, rules, bank, card, done, left, today);
      } else {
        AutoPaymentSettles(txs, rules, bank, card, c, today);
        NotRepeated(done, left);
        assert PassInvoices(txs + [r.t], rules, card, left[1..], today) == invoices[1..];
        forall d | d in done + [c] ensures PostsNothing(txs + [r.t], rules, bank, card, d, today) {
          if d != c {
            assert PostsNothing(txs, rules, bank, card, d, today);
          }
        }
        PassTwice(txs + [r.t], rules, bank, card, done + [c], left[1..], today);
      }
    }
  }

  lemma PassStep(txs: seq<Tx>, rules: seq<Rule>, bank: Bank, card: Account, left: seq<Date>, today: Date)
    requires Configured(card) && left != []
    ensures var invoices := PassInvoices(txs, rules, card, left, today);
      var r := AutoPayOf(txs, rules, bank, card, left[0], today);
      AutoPayOver(txs, rules, bank, card.id, invoices, today) ==
        if !DueNow(PassInvoice(txs, rules, card, left[0], today), today) then
          AutoPayOver(txs, rules, bank, card.id, invoices[1..], today)
        else if r.Posted? then AutoPayOver(txs + [r.t], rules, bank, card.id, invoices[1..], today)
        else (txs, Some(r.reason))
  {
    hide PassInvoice, DueNow, PayOutcome, IsDate, AutoPayOver;
    PassInvoiceClose(txs, rules, card, left[0], today);
    AutoPayStep(txs, rules, bank, card.id, PassInvoices(txs, rules, card, left, today), today);
  }

  lemma NotRepeated(done: seq<Date>, left: seq<Date>)
    requires Distinct(done + left) && left != []
    ensures left[0] !in left[1..]
    ensures Distinct((done + [left[0]]) + left[1..])
  {
    hide IsDate;
    var all := done + left;
    assert all == (done + [left[0]]) + left[1..];
    forall i | 0 <= i < |left[1..]| ensures left[1..][i] != left[0] {
      assert all[|done|] == left[0] && all[|done| + 1 + i] == left[1..][i];
    }
  }

  /** Auto-pay is idempotent: right after a pass, complete or ended by a
      refusal, a second pass on the same day posts nothing. */
  lemma AutoPayTwice(txs: seq<Tx>, rules: seq<Rule>, bank: Bank, card: Account, today: Date)
    requires card.isCreditCard && Filed(bank) && card.id in bank.accounts && bank.accounts[card.id] == card
    requires forall t | t in txs :: ValidTx(t)
    ensures var after := AutoPay(txs, rules, bank, card, today).0;
      AutoPay(after, rules, bank, card, today).0 == after
  {
    hide AutoPayOver, InvoiceFor, Closes, WindowOf, IsDate, IsClose, InPeriod, PeriodStart, ValidTx, PassInvoices, Invoices;
    if Configured(card) {
      var closes := Closes(today, card.closingDay.value, 2, 0);
      ListedCycles(today, card.closingDay.value, 2, 0);
      assert [] + closes == closes;
      PassTwice(txs, rules, bank, card, [], closes, today);
      PassListsInvoices(txs, rules, card, today);
      PassListsInvoices(AutoPay(txs, rules, bank, card, today).0, rules, card, today);
    }
  }

  lemma PassListsInvoices(txs: seq<Tx>, rules: seq<Rule>, card: Account, today: Date)
    requires Configured(card)
    ensures PassInvoices(txs, rules, card, Closes(today, card.closingDay.value, 2, 0), today)
         == Invoices(txs, rules, card, card.closingDay.value, card.dueDay.value, today, 2, 0)
  {
    hide InvoiceFor, Closes, WindowOf, IsDate;
  }
}
