/** What an auto-pay pass pays, and when a payment is taken at all. */
module AutoPayPass {
  import opened Wrappers
  import opened Calendar
  import opened CardCycles
  import opened Ledger
  import opened CardInvoices
  import opened InvoiceProperties
  import opened CardPayments
  import opened PaymentProperties

  /** The cycle fell due on one of the last seven days, or falls due today. */
  predicate DueSoon(card: Account, close: Date, today: Date)
    requires Configured(card)
  {
    && IsClose(close, card.closingDay.value)
    && AtMost(AddDays(today, -7), DueDateFor(close, card.dueDay.value))
    && AtMost(DueDateFor(close, card.dueDay.value), today)
  }

  /** What the invoice of a cycle still asks for. */
  function StillOwed(txs: seq<Tx>, rules: seq<Rule>, card: Account, close: Date, today: Date): int
    requires Configured(card)
  {
    InvoiceToPay(txs, rules, card, close, today).remaining
  }

  /** A payment in full of one cycle that was due and owed something. */
  ghost predicate PaysInFull(t: Tx, txs: seq<Tx>, rules: seq<Rule>, card: Account, close: Date, today: Date)
    requires Configured(card)
  {
    && DueSoon(card, close, today) && StillOwed(txs, rules, card, close, today) > 0
    && card.paymentAccount.Some?
    && t == Tx(today, Transfer, card.paymentAccount.value, Some(card.id), StillOwed(txs, rules, card, close, today), None, Some(close))
  }

  ghost predicate IsAutomatic(t: Tx, txs: seq<Tx>, rules: seq<Rule>, card: Account, today: Date)
    requires Configured(card)
  {
    exists close :: PaysInFull(t, txs, rules, card, close, today)
  }

  // --- one request ----------------------------------------------------------------------

  function Asked(card: Account, data: Request): Option<nat> {
    if data.source.Some? then data.source else card.paymentAccount
  }

  function AmountOf(data: Request, remaining: int): int {
    if data.amount.Some? then data.amount.value else remaining
  }

  /** A request to pay is taken exactly when the cycle is a genuine one of a
      configured card and has begun, the amount is positive and within what is still
      owed, the money comes from another live account in the card's currency that is
      no credit card, and the transfer itself is admitted; and then that transfer is
      what is posted. */
  lemma PostedIff(txs: seq<Tx>, rules: seq<Rule>, bank: Bank, card: Account, close: Date, data: Request, today: Date, t: Tx)
    requires Filed(bank) && card.id in bank.accounts && bank.accounts[card.id] == card
    ensures PayOutcome(txs, rules, bank, card.id, close, data, today) == Posted(t) <==>
      && card.isCreditCard && card.closingDay.Some? && card.dueDay.Some?
      && IsClose(close, card.closingDay.value) && AtMost(PeriodStart(close, card.closingDay.value), today)
      && StillOwed(txs, rules, card, close, today) > 0
      && 0 < AmountOf(data, StillOwed(txs, rules, card, close, today)) <= StillOwed(txs, rules, card, close, today)
      && Asked(card, data).Some? && Asked(card, data).value != card.id
      && Asked(card, data).value in bank.accounts
      && !bank.accounts[Asked(card, data).value].archived && !bank.accounts[Asked(card, data).value].isCreditCard
      && bank.accounts[Asked(card, data).value].currency == card.currency
      && t == Tx(if data.date.Some? then data.date.value else today, Transfer, Asked(card, data).value, Some(card.id),
                 AmountOf(data, StillOwed(txs, rules, card, close, today)), None, Some(close))
      && bank.admits(t)
  {
    hide Total, PaidWithin, PayWindow, IsClose, IsDate, NextDay, PeriodStart, PreviousDay, DueDateFor;
    if Configured(card) {
      BegunIff(txs, rules, card, close, today);
    }
  }

  /** Each refusal gives a reason that is true of the request. */
  lemma RefusalIsTrue(txs: seq<Tx>, rules: seq<Rule>, bank: Bank, card: Account, close: Date, data: Request, today: Date)
    requires Filed(bank) && card.id in bank.accounts && bank.accounts[card.id] == card
    requires PayOutcome(txs, rules, bank, card.id, close, data, today).Refused?
    ensures var source := Asked(card, data);
      match PayOutcome(txs, rules, bank, card.id, close, data, today).reason
      case CardNotFound => false
      case NotACreditCard => !card.isCreditCard
      case CycleNotConfigured => card.closingDay.None? || card.dueDay.None?
      case InvoiceNotFound => card.closingDay.Some? && !IsClose(close, card.closingDay.value)
      case NotClosed => card.closingDay.Some? && Before(today, PeriodStart(close, card.closingDay.value))
      case AlreadyPaid => Configured(card) && StillOwed(txs, rules, card, close, today) <= 0
      case PaymentAccountRequired => source.None?
      case PaymentAccountNotFound => source.Some? && source.value !in bank.accounts
      case PaymentAccountIsSelf => source == Some(card.id)
      case PaymentAccountArchived => source.Some? && source.value in bank.accounts && bank.accounts[source.value].archived
      case PaymentAccountIsCreditCard => source.Some? && source.value in bank.accounts && bank.accounts[source.value].isCreditCard
      case CurrencyMismatch => source.Some? && source.value in bank.accounts && bank.accounts[source.value].currency != card.currency
      case AmountNotPositive => data.amount.Some? && data.amount.value <= 0
      case AmountExceedsRemaining => Configured(card) && data.amount.Some? && data.amount.value > StillOwed(txs, rules, card, close, today)
      case NotAdmitted => source.Some? && exists t: Tx | t.account == source.value && t.toAccount == Some(card.id) :: !bank.admits(t)
  {
    hide Total, PaidWithin, PayWindow, IsClose, IsDate, NextDay, PeriodStart, PreviousDay, DueDateFor;
    if Configured(card) {
      BegunIff(txs, rules, card, close, today);
    }
  }

  lemma BegunIff(txs: seq<Tx>, rules: seq<Rule>, card: Account, close: Date, today: Date)
    requires Configured(card)
    ensures InvoiceToPay(txs, rules, card, close, today).status == Projected <==>
      Before(today, PeriodStart(close, card.closingDay.value))
  {
    hide Total, PaidWithin, PayWindow, IsDate, NextDay, PeriodStart, PreviousDay, DueDateFor;
    var start := PeriodStart(close, card.closingDay.value);
    DayStep(start);
    DaysAreConsecutive(PreviousDay(start), today);
  }

  // --- the narrow look and the wide one ----------------------------------------------------

  lemma {:induction false} PaidGrows(txs: seq<Tx>, card: nat, closingDay: DayOfMonth, close: Date, w: Window, w': Window)
    requires forall t | t in txs :: ValidTx(t)
    requires forall d: Date | Within(d, w) :: Within(d, w')
    ensures PaidWithin(txs, card, closingDay, close, w) <= PaidWithin(txs, card, closingDay, close, w')
  {
    if txs != [] {
      hide PaidTo, Fetched, Within, TargetOf, IsDate;
      var init, t := txs[..|txs| - 1], txs[|txs| - 1];
      PaidGrows(init, card, closingDay, close, w, w');
      assert txs == init + [t];
      FetchedAppend(init, t, card, w);
      FetchedAppend(init, t, card, w');
      PaidToAppend(Fetched(init, card, w), t, card, closingDay, close);
      PaidToAppend(Fetched(init, card, w'), t, card, closingDay, close);
      assert ValidTx(t);
    }
  }

  /** A cycle with nothing left in the pass's own look has nothing left at all. */
  lemma PassSeesLess(txs: seq<Tx>, rules: seq<Rule>, card: Account, close: Date, today: Date)
    requires Configured(card) && forall t | t in txs :: ValidTx(t)
    ensures StillOwed(txs, rules, card, close, today) <= PassInvoice(txs, rules, card, close, today).remaining
  {
    hide WindowOf, IsDate, PaidWithin, Total, ValidTx, StatusOf, PeriodStart, DueDateFor, Within;
    var closingDay := card.closingDay.value;
    var span := MonthsBetween(close, today) + 2;
    forall d: Date | Within(d, WindowOf(today, closingDay, 2, 0)) ensures Within(d, PayWindow(closingDay, close, today)) {
      WindowsGrow(today, closingDay, 2, 0, span, span, d);
    }
    PaidGrows(txs, card.id, closingDay, close, WindowOf(today, closingDay, 2, 0), PayWindow(closingDay, close, today));
  }

  lemma DueNowIff(txs: seq<Tx>, rules: seq<Rule>, card: Account, close: Date, today: Date)
    requires Configured(card) && IsClose(close, card.closingDay.value)
    ensures DueNow(PassInvoice(txs, rules, card, close, today), today) <==>
      DueSoon(card, close, today) && PassInvoice(txs, rules, card, close, today).remaining > 0
  {
    hide PassInvoice, IsDate, DueDateFor, AddDays, IsClose;
    PassInvoiceClose(txs, rules, card, close, today);
  }

  // --- the pass ---------------------------------------------------------------------------

  /** What a pass over `left` does to the ledger. */
  ghost predicate Passed(txs: seq<Tx>, after: seq<Tx>, failure: Option<Refusal>, rules: seq<Rule>, bank: Bank, card: Account,
                         left: seq<Date>, today: Date)
    requires Configured(card)
  {
    && txs <= after
    && (forall d: Date | d !in left || !DueSoon(card, d, today) ::
          InvoiceToPay(after, rules, card, d, today) == InvoiceToPay(txs, rules, card, d, today))
    && (forall i | |txs| <= i < |after| :: PaysOneOf(after[i], txs, rules, card, left, today))
    && (forall i, j | |txs| <= i < j < |after| :: after[i].closeTag != after[j].closeTag)
    && (failure.None? ==> forall d | d in left && DueSoon(card, d, today) :: StillOwed(after, rules, card, d, today) <= 0)
    && (failure.Some? ==> exists d :: d in left && StoppedAt(after, failure.value, rules, bank, card, d, today))
  }

  ghost predicate PaysOneOf(t: Tx, txs: seq<Tx>, rules: seq<Rule>, card: Account, left: seq<Date>, today: Date)
    requires Configured(card)
  {
    exists d :: d in left && PaysInFull(t, txs, rules, card, d, today)
  }

  ghost predicate StoppedAt(after: seq<Tx>, reason: Refusal, rules: seq<Rule>, bank: Bank, card: Account, close: Date, today: Date)
    requires Configured(card)
  {
    DueSoon(card, close, today) && PayOutcome(after, rules, bank, card.id, close, DEFAULTS, today) == Refused(reason)
  }

  lemma {:induction false} PassPays(txs: seq<Tx>, rules: seq<Rule>, bank: Bank, card: Account, left: seq<Date>, today: Date)
    requires Ready(txs, bank, card) && InvoiceProperties.Distinct(left)
    requires forall c | c in left :: IsClose(c, card.closingDay.value)
    ensures var (after, failure) := AutoPayOver(txs, rules, bank, card.id, PassInvoices(txs, rules, card, left, today), today);
      Passed(txs, after, failure, rules, bank, card, left, today)
    decreases |left|
  {
    hide PassInvoice, DueNow, PayOutcome, IsDate, AutoPayOver, InvoiceToPay, DueSoon, IsClose, PaysInFull, Passed, ValidTx, Filed;
    if left == [] {
      AutoPayNothing(txs, rules, bank, card.id, today);
      NothingPassed(txs, None, rules, bank, card, [], today);
    } else {
      var c := left[0];
      var invoices := PassInvoices(txs, rules, card, left, today);
      assert invoices[1..] == PassInvoices(txs, rules, card, left[1..], today);
      PassStep(txs, rules, bank, card, left, today);
      DueNowIff(txs, rules, card, c, today);
      assert [] + left == left;
      NotRepeated([], left);
      assert [c] + left[1..] == left;
      TailDistinct(left);
      var r := AutoPayOf(txs, rules, bank, card, c, today);
      if !DueNow(PassInvoice(txs, rules, card, c, today), today) {
        PassPays(txs, rules, bank, card, left[1..], today);
        PassSeesLess(txs, rules, card, c, today);
        var (after, failure) := AutoPayOver(txs, rules, bank, card.id, invoices[1..], today);
        SkippedOne(txs, after, failure, rules, bank, card, left, today);
      } else if r.Refused? {
        NothingPassed(txs, Some(r.reason), rules, bank, card, left, today);
      } else {
        AutoPaymentSettles(txs, rules, bank, card, c, today);
        forall i | 0 <= i < |left[1..]| ensures PassInvoice(txs + [r.t], rules, card, left[1..][i], today) == PassInvoice(txs, rules, card, left[1..][i], today) {
          assert left[1..][i] in left[1..];
        }
        assert PassInvoices(txs + [r.t], rules, card, left[1..], today) == invoices[1..];
        PassPays(txs + [r.t], rules, bank, card, left[1..], today);
        var (after, failure) := AutoPayOver(txs + [r.t], rules, bank, card.id, invoices[1..], today);
        PaidIsInFull(txs, rules, bank, card, c, today);
        PaidOne(txs, r.t, after, failure, rules, bank, card, left, today);
      }
    }
  }

  lemma TailDistinct(left: seq<Date>)
    requires InvoiceProperties.Distinct(left) && left != []
    ensures InvoiceProperties.Distinct(left[1..])
  {
    hide IsDate;
  }

  /** A pass that posts nothing, because nothing is left or its first cycle is refused. */
  lemma NothingPassed(txs: seq<Tx>, failure: Option<Refusal>, rules: seq<Rule>, bank: Bank, card: Account, left: seq<Date>, today: Date)
    requires Configured(card)
    requires failure.None? ==> left == []
    requires failure.Some? ==> left != [] && StoppedAt(txs, failure.value, rules, bank, card, left[0], today)
    ensures Passed(txs, txs, failure, rules, bank, card, left, today)
  {
    hide IsDate, InvoiceToPay, StoppedAt;
  }

  lemma SkippedOne(txs: seq<Tx>, after: seq<Tx>, failure: Option<Refusal>, rules: seq<Rule>, bank: Bank, card: Account,
                   left: seq<Date>, today: Date)
    requires Configured(card) && left != [] && left[0] !in left[1..]
    requires DueSoon(card, left[0], today) ==> StillOwed(txs, rules, card, left[0], today) <= 0
    requires Passed(txs, after, failure, rules, bank, card, left[1..], today)
    ensures Passed(txs, after, failure, rules, bank, card, left, today)
  {
    hide IsDate, InvoiceToPay, PaysInFull, StoppedAt, DueSoon;
    assert forall d | d in left :: d == left[0] || d in left[1..];
    forall i | |txs| <= i < |after| ensures PaysOneOf(after[i], txs, rules, card, left, today) {
      assert PaysOneOf(after[i], txs, rules, card, left[1..], today);
    }
  }

  lemma PaidIsInFull(txs: seq<Tx>, rules: seq<Rule>, bank: Bank, card: Account, close: Date, today: Date)
    requires Ready(txs, bank, card) && DueSoon(card, close, today)
    requires PayOutcome(txs, rules, bank, card.id, close, DEFAULTS, today).Posted?
    ensures PaysInFull(PayOutcome(txs, rules, bank, card.id, close, DEFAULTS, today).t, txs, rules, card, close, today)
  {
    hide IsDate, InvoiceToPay, PeriodStart, DueSoon, IsClose;
    PostedIff(txs, rules, bank, card, close, DEFAULTS, today, PayOutcome(txs, rules, bank, card.id, close, DEFAULTS, today).t);
  }

  lemma PaidOne(txs: seq<Tx>, t: Tx, after: seq<Tx>, failure: Option<Refusal>, rules: seq<Rule>, bank: Bank, card: Account,
                left: seq<Date>, today: Date)
    requires Configured(card) && left != [] && left[0] !in left[1..]
    requires PaysInFull(t, txs, rules, card, left[0], today)
    requires StillOwed(txs + [t], rules, card, left[0], today) == 0
    requires forall d: Date | d != left[0] :: InvoiceToPay(txs + [t], rules, card, d, today) == InvoiceToPay(txs, rules, card, d, today)
    requires Passed(txs + [t], after, failure, rules, bank, card, left[1..], today)
    ensures Passed(txs, after, failure, rules, bank, card, left, today)
  {
    hide IsDate, InvoiceToPay, StoppedAt, DueSoon;
    assert forall d | d in left :: d == left[0] || d in left[1..];
    forall i | |txs| <= i < |after|
      ensures PaysOneOf(after[i], txs, rules, card, left, today)
      ensures i > |txs| ==> after[i].closeTag != t.closeTag
      ensures i == |txs| ==> after[i] == t
    {
      if i == |txs| {
        assert after[i] == (txs + [t])[i];
      } else {
        assert PaysOneOf(after[i], txs + [t], rules, card, left[1..], today);
        var d :| d in left[1..] && PaysInFull(after[i], txs + [t], rules, card, d, today);
        assert PaysInFull(after[i], txs, rules, card, d, today);
      }
    }
  }

  /** A pass pays what is due, and only that. When it is not stopped, no cycle due
      in its seven days owes anything afterwards. Each payment is the whole of
      what one such cycle owed before the pass, and no cycle is paid twice. When it
      is stopped, a cycle that is due was refused. */
  lemma PassPaysWhatIsDue(txs: seq<Tx>, rules: seq<Rule>, bank: Bank, card: Account, today: Date)
    requires Ready(txs, bank, card) && card.autoPay && !card.archived
    ensures var (after, failure) := AutoPay(txs, rules, bank, card, today);
      && txs <= after
      && (failure.None? ==> forall d: Date | DueSoon(card, d, today) :: StillOwed(after, rules, card, d, today) <= 0)
      && (forall i | |txs| <= i < |after| :: IsAutomatic(after[i], txs, rules, card, today))
      && (forall i, j | |txs| <= i < j < |after| :: after[i].closeTag != after[j].closeTag)
      && (forall d: Date | !DueSoon(card, d, today) ::
            InvoiceToPay(after, rules, card, d, today) == InvoiceToPay(txs, rules, card, d, today))
      && (failure.Some? ==> exists d :: StoppedAt(after, failure.value, rules, bank, card, d, today))
  {
    hide AutoPayOver, InvoiceToPay, Closes, IsDate, IsClose, InPeriod, PeriodStart, PassInvoices, Invoices, DueSoon, PaysInFull, ValidTx, Filed, StoppedAt;
    var closingDay := card.closingDay.value;
    var closes := Closes(today, closingDay, 2, 0);
    ListedCycles(today, closingDay, 2, 0);
    PassListsInvoices(txs, rules, card, today);
    PassPays(txs, rules, bank, card, closes, today);
    var (after, failure) := AutoPay(txs, rules, bank, card, today);
    assert Passed(txs, after, failure, rules, bank, card, closes, today);
    forall d: Date | DueSoon(card, d, today) ensures d in closes {
      DueSoonIsInLook(card, d, today);
    }
    forall i | |txs| <= i < |after| ensures IsAutomatic(after[i], txs, rules, card, today) {
      assert PaysOneOf(after[i], txs, rules, card, closes, today);
    }
  }

  lemma DueSoonIsInLook(card: Account, close: Date, today: Date)
    requires Configured(card) && DueSoon(card, close, today)
    ensures close in Closes(today, card.closingDay.value, 2, 0)
  {
    hide IsClose, DueDateFor, Closes;
    DueSoonIsListed(close, today, card.closingDay.value, card.dueDay.value);
  }
}
