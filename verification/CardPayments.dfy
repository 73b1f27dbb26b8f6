/** Paying card invoices, by hand and automatically. */
module CardPayments {
  import opened Wrappers
  import opened Calendar
  import opened CardCycles
  import opened Ledger
  import opened CardInvoices
  import opened InvoiceProperties

  const AUTO_PAY_WINDOW_DAYS := 7

  /** Every field is optional: the source account, the date and the amount. */
  datatype Request = Request(source: Option<nat>, date: Option<Date>, amount: Option<int>)

  const DEFAULTS := Request(None, None, None)

  datatype Refusal =
    | CardNotFound | NotACreditCard | CycleNotConfigured | InvoiceNotFound | NotClosed | AlreadyPaid
    | PaymentAccountRequired | PaymentAccountNotFound | PaymentAccountIsSelf | PaymentAccountArchived
    | PaymentAccountIsCreditCard | CurrencyMismatch | AmountNotPositive | AmountExceedsRemaining | NotAdmitted

  datatype PayResult = Posted(t: Tx) | Refused(reason: Refusal)

  /** The user's accounts, and whether the transaction service takes a transfer:
      it may have reasons of its own to refuse one. */
  datatype Bank = Bank(accounts: map<nat, Account>, admits: Tx -> bool)

  /** Accounts are filed under their own id. */
  predicate Filed(bank: Bank) {
    forall id | id in bank.accounts :: bank.accounts[id].id == id
  }

  function Configured(card: Account): bool {
    card.isCreditCard && card.closingDay.Some? && card.dueDay.Some?
  }

  /** The window paying a cycle's invoice looks at. */
  function PayWindow(closingDay: DayOfMonth, close: Date, today: Date): Window {
    var span := MonthsBetween(close, today) + 2;
    WindowOf(today, closingDay, span, span)
  }

  /** The invoice as paying it sees it. */
  function InvoiceToPay(txs: seq<Tx>, rules: seq<Rule>, card: Account, close: Date, today: Date): Invoice
    requires Configured(card)
  {
    InvoiceFor(txs, rules, card, card.closingDay.value, card.dueDay.value, today, close,
               PayWindow(card.closingDay.value, close, today))
  }

  function SourceRefusal(bank: Bank, card: Account, data: Request): Option<Refusal> {
    var source := if data.source.Some? then data.source else card.paymentAccount;
    if source.None? then Some(PaymentAccountRequired)
    else if source.value !in bank.accounts then Some(PaymentAccountNotFound)
    else
      var account := bank.accounts[source.value];
      if account.id == card.id then Some(PaymentAccountIsSelf)
      else if account.archived then Some(PaymentAccountArchived)
      else if account.isCreditCard then Some(PaymentAccountIsCreditCard)
      else if account.currency != card.currency then Some(CurrencyMismatch)
      else None
  }

  /** The transfer that a request, with its amount settled, asks for. */
  function PaymentOf(card: Account, close: Date, data: Request, amount: int, today: Date): Tx
    requires (if data.source.Some? then data.source else card.paymentAccount).Some?
  {
    Tx(if data.date.Some? then data.date.value else today, Transfer,
       (if data.source.Some? then data.source else card.paymentAccount).value,
       Some(card.id), amount, None, Some(close))
  }

  /** What paying the invoice of the cycle `close` does. */
  function PayOutcome(txs: seq<Tx>, rules: seq<Rule>, bank: Bank, cardId: nat, close: Date, data: Request, today: Date): PayResult {
    if cardId !in bank.accounts then Refused(CardNotFound)
    else if !bank.accounts[cardId].isCreditCard then Refused(NotACreditCard)
    else if !Configured(bank.accounts[cardId]) then Refused(CycleNotConfigured)
    else
      var card := bank.accounts[cardId];
      if !IsClose(close, card.closingDay.value) then Refused(InvoiceNotFound)
      else
        var invoice := InvoiceToPay(txs, rules, card, close, today);
        if invoice.status == Projected then Refused(NotClosed)
        else if invoice.remaining <= 0 then Refused(AlreadyPaid)
        else if SourceRefusal(bank, card, data).Some? then Refused(SourceRefusal(bank, card, data).value)
        else
          var amount := if data.amount.Some? then data.amount.value else invoice.remaining;
          if amount <= 0 then Refused(AmountNotPositive)
          else if amount > invoice.remaining then Refused(AmountExceedsRemaining)
          else
            var payload := PaymentOf(card, close, data, amount, today);
            if bank.admits(payload) then Posted(payload) else Refused(NotAdmitted)
  }

  /** The payments are for these cycles, in this order. */
  ghost predicate Tags(payments: seq<Tx>, closes: seq<Date>) {
    |payments| == |closes| && forall i | 0 <= i < |payments| :: payments[i].closeTag == Some(closes[i])
  }

  lemma PostedTag(txs: seq<Tx>, rules: seq<Rule>, bank: Bank, cardId: nat, close: Date, data: Request, today: Date)
    requires PayOutcome(txs, rules, bank, cardId, close, data, today).Posted?
    ensures PayOutcome(txs, rules, bank, cardId, close, data, today).t.closeTag == Some(close)
  {
    hide InvoiceFor, PayWindow, IsClose, IsDate, SourceRefusal;
  }

  /** The user's ledger, which posting a payment extends. */
  class Book {
    var txs: seq<Tx>
    const rules: seq<Rule>
    const bank: Bank

    constructor (rules: seq<Rule>, bank: Bank)
      ensures txs == [] && this.rules == rules && this.bank == bank
    {
      this.rules, this.bank, txs := rules, bank, [];
    }

    method PayInvoice(cardId: nat, close: Date, data: Request, today: Date) returns (r: PayResult)
      modifies this
      ensures r == PayOutcome(old(txs), rules, bank, cardId, close, data, today)
      ensures txs == if r.Posted? then old(txs) + [r.t] else old(txs)
    {
      hide PayWindow, InvoiceFor, Closes, WindowOf, IsDate, IsClose, InPeriod, SourceRefusal;
      if cardId !in bank.accounts {
        return Refused(CardNotFound);
      }
      var card := bank.accounts[cardId];
      if !card.isCreditCard {
        return Refused(NotACreditCard);
      }
      if card.closingDay.None? || card.dueDay.None? {
        return Refused(CycleNotConfigured);
      }
      var span := MonthsBetween(close, today) + 2;
      var listed := ListInvoices(txs, rules, card, today, span, span);
      var found := FindInvoice(listed.invoices, close);
      InvoiceIsFound(txs, rules, card, close, today, listed.invoices, found);
      if found.None? {
        return Refused(InvoiceNotFound);
      }
      var invoice := found.value;
      if invoice.status == Projected {
        return Refused(NotClosed);
      }
      if invoice.remaining <= 0 {
        return Refused(AlreadyPaid);
      }
      var refusal := SourceRefusal(bank, card, data);
      if refusal.Some? {
        return Refused(refusal.value);
      }
      var amount := if data.amount.Some? then data.amount.value else invoice.remaining;
      if amount <= 0 {
        return Refused(AmountNotPositive);
      }
      if amount > invoice.remaining {
        return Refused(AmountExceedsRemaining);
      }
      SourceGiven(bank, card, data);
      var payload := PaymentOf(card, close, data, amount, today);
      if !bank.admits(payload) {
        return Refused(NotAdmitted);
      }
      txs := txs + [payload];
      r := Posted(payload);
    }

    /** One auto-pay pass over a card. Each payment stands on its own; the
        first refusal ends the pass. */
    method PostDueInvoicePayments(card: Account, today: Date) returns (paid: seq<Date>, failure: Option<Refusal>)
      requires card.id in bank.accounts && bank.accounts[card.id] == card && card.isCreditCard
      modifies this
      ensures (txs, failure) == AutoPay(old(txs), rules, bank, card, today)
      // A card that does not pay automatically, or is archived, is left alone.
      ensures !card.autoPay || card.archived || card.closingDay.None? || card.dueDay.None? ==>
        txs == old(txs) && paid == [] && failure.None?
      // What is reported as paid is what was posted, in order.
      ensures old(txs) <= txs && Tags(txs[|old(txs)|..], paid)
    {
      hide AutoPayOver, Invoices, PayOutcome, IsDate, DueNow;
      paid, failure := [], None;
      if !card.autoPay || card.archived {
        return;
      }
      if card.closingDay.None? || card.dueDay.None? {
        return;
      }
      var listed := ListInvoices(txs, rules, card, today, 2, 0);
      var invoices := listed.invoices;
      ghost var start := txs;
      var i := 0;
      assert invoices[0..] == invoices;
      while i < |invoices|
        invariant 0 <= i <= |invoices|
        invariant start <= txs && Tags(txs[|start|..], paid)
        invariant AutoPayOver(start, rules, bank, card.id, invoices, today)
               == AutoPayOver(txs, rules, bank, card.id, invoices[i..], today)
        decreases |invoices| - i
      {
        var invoice := invoices[i];
        AutoPayStep(txs, rules, bank, card.id, invoices[i..], today);
        assert invoices[i..][1..] == invoices[i + 1..];
        if DueNow(invoice, today) {
          ghost var before := txs;
          var r := PayInvoice(card.id, invoice.closeDate, DEFAULTS, today);
          if r.Refused? {
            return paid, Some(r.reason);
          }
          PostedTag(before, rules, bank, card.id, invoice.closeDate, DEFAULTS, today);
          assert txs[|start|..] == before[|start|..] + [r.t];
          paid := paid + [invoice.closeDate];
        }
        i := i + 1;
      }
      assert invoices[i..] == [];
      AutoPayNothing(txs, rules, bank, card.id, today);
    }
  }

  method FindInvoice(invoices: seq<Invoice>, close: Date) returns (found: Option<Invoice>)
    ensures found.None? <==> forall inv | inv in invoices :: inv.closeDate != close
    ensures found.Some? ==> found.value in invoices && found.value.closeDate == close
  {
    for i := 0 to |invoices|
      invariant forall j | 0 <= j < i :: invoices[j].closeDate != close
    {
      if invoices[i].closeDate == close {
        return Some(invoices[i]);
      }
    }
    found := None;
  }

  lemma InvoiceIsFound(txs: seq<Tx>, rules: seq<Rule>, card: Account, close: Date, today: Date,
                       invoices: seq<Invoice>, found: Option<Invoice>)
    requires Configured(card)
    requires var span := MonthsBetween(close, today) + 2;
      invoices == Invoices(txs, rules, card, card.closingDay.value, card.dueDay.value, today, span, span)
    requires found.None? <==> forall inv | inv in invoices :: inv.closeDate != close
    requires found.Some? ==> found.value in invoices && found.value.closeDate == close
    ensures found == if IsClose(close, card.closingDay.value) then Some(InvoiceToPay(txs, rules, card, close, today)) else None
  {
    hide Closes, WindowOf, IsDate, IsClose, InPeriod, Total, PaidWithin, StatusOf, DueDateFor, PeriodStart;
    var closingDay := card.closingDay.value;
    var span := MonthsBetween(close, today) + 2;
    var closes := Closes(today, closingDay, span, span);
    ListedCycles(today, closingDay, span, span);
    if IsClose(close, closingDay) {
      SpanListsEveryClose(close, today, closingDay);
      var i :| 0 <= i < |closes| && closes[i] == close;
      assert invoices[i] in invoices && invoices[i].closeDate == close;
    }
    if found.Some? {
      var i :| 0 <= i < |invoices| && invoices[i] == found.value;
      assert closes[i] == close;
    }
  }

  lemma SourceGiven(bank: Bank, card: Account, data: Request)
    requires SourceRefusal(bank, card, data).None?
    ensures (if data.source.Some? then data.source else card.paymentAccount).Some?
  {
  }

  // --- changing the closing day --------------------------------------------------------------

  /** A new closing day is allowed exactly when every tagged payment of the card
      would still settle a genuine cycle. */
  method ClosingDayChangeAllowed(txs: seq<Tx>, card: nat, newClosingDay: DayOfMonth) returns (allowed: bool)
    ensures allowed <==> forall t | t in txs && t.toAccount == Some(card) && t.closeTag.Some? :: IsClose(t.closeTag.value, newClosingDay)
  {
    hide IsClose, CycleCloseFor, IsDate;
    for i := 0 to |txs|
      invariant forall t | t in txs[..i] && t.toAccount == Some(card) && t.closeTag.Some? :: IsClose(t.closeTag.value, newClosingDay)
    {
      var t := txs[i];
      if t.toAccount == Some(card) && t.closeTag.Some? {
        OwnClose(t.closeTag.value, newClosingDay);
        if CycleCloseFor(t.closeTag.value, newClosingDay) != t.closeTag.value {
          return false;
        }
      }
    }
    allowed := true;
  }

  // --- the auto-pay pass as a function ----------------------------------------------------

  predicate DueNow(invoice: Invoice, today: Date) {
    invoice.remaining > 0 && !(Before(today, invoice.dueDate) || Before(invoice.dueDate, AddDays(today, -AUTO_PAY_WINDOW_DAYS)))
  }

  function AutoPayOver(txs: seq<Tx>, rules: seq<Rule>, bank: Bank, cardId: nat, invoices: seq<Invoice>, today: Date): (seq<Tx>, Option<Refusal>)
    decreases |invoices|
  {
    if invoices == [] then (txs, None)
    else if !DueNow(invoices[0], today) then AutoPayOver(txs, rules, bank, cardId, invoices[1..], today)
    else
      match PayOutcome(txs, rules, bank, cardId, invoices[0].closeDate, DEFAULTS, today)
      case Posted(t) => AutoPayOver(txs + [t], rules, bank, cardId, invoices[1..], today)
      case Refused(reason) => (txs, Some(reason))
  }

  function AutoPay(txs: seq<Tx>, rules: seq<Rule>, bank: Bank, card: Account, today: Date): (seq<Tx>, Option<Refusal>) {
    if !card.autoPay || card.archived || card.closingDay.None? || card.dueDay.None? then (txs, None)
    else AutoPayOver(txs, rules, bank, card.id,
                     Invoices(txs, rules, card, card.closingDay.value, card.dueDay.value, today, 2, 0), today)
  }

  lemma AutoPayNothing(txs: seq<Tx>, rules: seq<Rule>, bank: Bank, cardId: nat, today: Date)
    ensures AutoPayOver(txs, rules, bank, cardId, [], today) == (txs, None)
  {
  }

  lemma AutoPayStep(txs: seq<Tx>, rules: seq<Rule>, bank: Bank, cardId: nat, invoices: seq<Invoice>, today: Date)
    requires invoices != []
    ensures var r := PayOutcome(txs, rules, bank, cardId, invoices[0].closeDate, DEFAULTS, today);
      AutoPayOver(txs, rules, bank, cardId, invoices, today) ==
        if !DueNow(invoices[0], today) then AutoPayOver(txs, rules, bank, cardId, invoices[1..], today)
        else if r.Posted? then AutoPayOver(txs + [r.t], rules, bank, cardId, invoices[1..], today)
        else (txs, Some(r.reason))
  {
    hide PayOutcome, DueNow, IsDate;
  }
}
