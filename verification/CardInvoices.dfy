/** Credit-card invoices, derived from the ledger: one per billing cycle. */
module CardInvoices {
  import opened Wrappers
  import opened Calendar
  import opened CardCycles
  import opened Recurrence
  import opened Ledger

  datatype Account = Account(
    id: nat, isCreditCard: bool, currency: string, archived: bool, opening: int,
    closingDay: Option<DayOfMonth>, dueDay: Option<DayOfMonth>,
    paymentAccount: Option<nat>, autoPay: bool)

  /** A recurring rule: its schedule and the transaction it will post. */
  datatype Rule = Rule(schedule: Schedule, kind: Kind, account: nat, amount: int, conversion: Option<int>)

  datatype Status = Open | Closed | Overdue | Paid | Projected

  datatype Invoice = Invoice(
    closeDate: Date, dueDate: Date, periodStart: Date, periodEnd: Date, currency: string,
    total: int, paid: int, remaining: int, status: Status)

  /** The days a call of `list_invoices` reads transactions of. */
  datatype Window = Window(start: Date, end: Date)

  predicate Within(d: Date, w: Window) {
    AtMost(w.start, d) && AtMost(d, w.end)
  }

  // --- what one transaction means to a card ---------------------------------------------

  predicate Touches(t: Tx, card: nat) {
    t.account == card || t.toAccount == Some(card)
  }

  /** What `t` charges to the card; an incoming payment is no charge. */
  function OwedDelta(t: Tx, card: nat): int {
    if t.account == card then
      match t.kind
      case Income => -Effective(t)
      case Interest => -Effective(t)
      case Expense => Effective(t)
      case Transfer => t.amount
    else 0
  }

  predicate IsPayment(t: Tx, card: nat) {
    t.kind == Transfer && t.toAccount == Some(card)
  }

  /** The cycle a payment settles: its tag, or else the cycle it is dated in. */
  function TargetOf(t: Tx, closingDay: DayOfMonth): Date {
    if t.closeTag.Some? then t.closeTag.value else CycleCloseFor(t.date, closingDay)
  }

  predicate Charges(t: Tx, card: nat, closingDay: DayOfMonth, close: Date) {
    !IsPayment(t, card) && CycleCloseFor(t.date, closingDay) == close
  }

  predicate Pays(t: Tx, card: nat, closingDay: DayOfMonth, close: Date) {
    IsPayment(t, card) && TargetOf(t, closingDay) == close
  }

  // --- the reference definition of a cycle's numbers ---------------------------------------

  /** The charges filed under a cycle, over the whole ledger. */
  function Owed(txs: seq<Tx>, card: nat, closingDay: DayOfMonth, close: Date): int {
    if txs == [] then 0 else
    var t := txs[|txs| - 1];
    Owed(txs[..|txs| - 1], card, closingDay, close) + if Charges(t, card, closingDay, close) then OwedDelta(t, card) else 0
  }

  /** The payments that settle a cycle, over the whole ledger. */
  function PaidTo(txs: seq<Tx>, card: nat, closingDay: DayOfMonth, close: Date): int {
    if txs == [] then 0 else
    var t := txs[|txs| - 1];
    PaidTo(txs[..|txs| - 1], card, closingDay, close) + if Pays(t, card, closingDay, close) then Effective(t) else 0
  }

  /** The date of the first transaction that touches the card. */
  function FirstActivity(txs: seq<Tx>, card: nat): Option<Date> {
    if txs == [] then None else
    var t := txs[|txs| - 1];
    var first := FirstActivity(txs[..|txs| - 1], card);
    if Touches(t, card) && (first.None? || Before(t.date, first.value)) then Some(t.date) else first
  }

  /** The cycle that carries the opening balance. */
  function FirstClose(txs: seq<Tx>, card: nat, closingDay: DayOfMonth, today: Date): Date {
    var first := FirstActivity(txs, card);
    CycleCloseFor(if first.Some? then first.value else today, closingDay)
  }

  function OpeningIn(txs: seq<Tx>, card: Account, closingDay: DayOfMonth, today: Date, close: Date): int {
    if card.opening != 0 && FirstClose(txs, card.id, closingDay, today) == close then -card.opening else 0
  }

  predicate PostsTo(rule: Rule, card: nat) {
    rule.account == card && rule.kind in {Expense, Income}
  }

  function RuleAmount(rule: Rule): int {
    if rule.conversion.Some? && rule.conversion.value != 0 then rule.conversion.value else rule.amount
  }

  function RuleShare(rule: Rule, from: Date, close: Date): int {
    (if rule.kind == Expense then 1 else -1) * RuleAmount(rule) * |Projection(rule.schedule, from, close)|
  }

  function RuleShares(rules: seq<Rule>, card: nat, from: Date, close: Date): int {
    if rules == [] then 0 else
    var rule := rules[|rules| - 1];
    RuleShares(rules[..|rules| - 1], card, from, close) + if PostsTo(rule, card) then RuleShare(rule, from, close) else 0
  }

  /** Recurring charges still to come in a cycle that is not over. */
  function ProjectedIn(rules: seq<Rule>, card: nat, closingDay: DayOfMonth, today: Date, close: Date): int {
    if Before(close, today) then 0
    else RuleShares(rules, card, Later(PeriodStart(close, closingDay), NextDay(today)), close)
  }

  function Total(txs: seq<Tx>, rules: seq<Rule>, card: Account, closingDay: DayOfMonth, today: Date, close: Date): int {
    OpeningIn(txs, card, closingDay, today, close) + Owed(txs, card.id, closingDay, close)
    + ProjectedIn(rules, card.id, closingDay, today, close)
  }

  function StatusOf(today: Date, periodStart: Date, close: Date, due: Date, remaining: int): Status {
    if AtMost(today, PreviousDay(periodStart)) then Projected
    else if AtMost(today, close) then Open
    else if remaining <= 0 then Paid
    else if AtMost(today, due) then Closed
    else Overdue
  }

  /** The transactions of the card that a window's query returns. */
  function Fetched(txs: seq<Tx>, card: nat, w: Window): seq<Tx> {
    if txs == [] then [] else
    var t := txs[|txs| - 1];
    Fetched(txs[..|txs| - 1], card, w) + if Touches(t, card) && Within(t.date, w) then [t] else []
  }

  /** The payments that settle a cycle among those dated in the window. */
  function PaidWithin(txs: seq<Tx>, card: nat, closingDay: DayOfMonth, close: Date, w: Window): int {
    PaidTo(Fetched(txs, card, w), card, closingDay, close)
  }

  function WindowOf(today: Date, closingDay: DayOfMonth, back: int, ahead: int): Window {
    var current := CycleCloseFor(today, closingDay);
    Window(NextDay(AddMonths(AddMonths(current, -Clip(back), closingDay), -1, closingDay)),
           AddMonths(current, Clip(ahead), closingDay))
  }

  /** The invoice of one cycle, as seen through a window. */
  function InvoiceFor(txs: seq<Tx>, rules: seq<Rule>, card: Account, closingDay: DayOfMonth, dueDay: DayOfMonth,
                      today: Date, close: Date, w: Window): Invoice {
    var total := Total(txs, rules, card, closingDay, today, close);
    var paid := PaidWithin(txs, card.id, closingDay, close, w);
    var start := PeriodStart(close, closingDay);
    var due := DueDateFor(close, dueDay);
    Invoice(close, due, start, close, card.currency, total, paid, total - paid,
            StatusOf(today, start, close, due, total - paid))
  }

  function Invoices(txs: seq<Tx>, rules: seq<Rule>, card: Account, closingDay: DayOfMonth, dueDay: DayOfMonth,
                    today: Date, back: int, ahead: int): seq<Invoice> {
    var closes := Closes(today, closingDay, back, ahead);
    seq(|closes|, i requires 0 <= i < |closes| =>
      InvoiceFor(txs, rules, card, closingDay, dueDay, today, closes[i], WindowOf(today, closingDay, back, ahead)))
  }

  // --- the computation -----------------------------------------------------------------------

  datatype ListResult = Listed(invoices: seq<Invoice>) | NotCreditCard

  /** A charge filed under a listed cycle is dated in the window. */
  lemma ListedChargeIsWithin(d: Date, today: Date, closingDay: DayOfMonth, back: int, ahead: int)
    requires CycleCloseFor(d, closingDay) in Closes(today, closingDay, back, ahead)
    ensures Within(d, WindowOf(today, closingDay, back, ahead))
  {
    hide CycleCloseFor, WindowOf, Closes, OnDay, IsDate, NextDay, PeriodStart;
    WindowEnds(today, closingDay, back, ahead);
    var close := CycleCloseFor(d, closingDay);
    var n := MonthIndex(CycleCloseFor(today, closingDay));
    CycleCloseIsLeast(d, closingDay);
    ListedExactly(today, closingDay, back, ahead, close);
    PeriodsTile(d, close, closingDay);
    PeriodStartIsOnDay(close, closingDay);
    OnDayMonotone(MonthIndex(close), n + Clip(ahead), closingDay);
    OnDayMonotone(n - Clip(back) - 1, MonthIndex(close) - 1, closingDay);
    DaysAreConsecutive(OnDay(n - Clip(back) - 1, closingDay), d);
    DaysAreConsecutive(OnDay(MonthIndex(close) - 1, closingDay), d);
  }

  lemma WindowEnds(today: Date, closingDay: DayOfMonth, back: int, ahead: int)
    ensures var n := MonthIndex(CycleCloseFor(today, closingDay));
      WindowOf(today, closingDay, back, ahead) ==
        Window(NextDay(OnDay(n - Clip(back) - 1, closingDay)), OnDay(n + Clip(ahead), closingDay))
  {
    hide OnDay, IsDate, CycleCloseFor, AddMonths, NextDay;
    var current := CycleCloseFor(today, closingDay);
    var n := MonthIndex(current);
    AddMonthsIsOnDay(current, -Clip(back), closingDay);
    OnDayFacts(n - Clip(back), closingDay);
    AddMonthsIsOnDay(OnDay(n - Clip(back), closingDay), -1, closingDay);
    AddMonthsIsOnDay(current, Clip(ahead), closingDay);
  }

  /** Filtering to the window loses no charge of a listed cycle. */
  lemma {:induction false} FetchKeepsCharges(txs: seq<Tx>, card: nat, closingDay: DayOfMonth, close: Date, w: Window)
    requires forall d: Date | CycleCloseFor(d, closingDay) == close :: Within(d, w)
    ensures Owed(Fetched(txs, card, w), card, closingDay, close) == Owed(txs, card, closingDay, close)
  {
    if txs != [] {
      var t := txs[|txs| - 1];
      var rest := Fetched(txs[..|txs| - 1], card, w);
      FetchKeepsCharges(txs[..|txs| - 1], card, closingDay, close, w);
      if Touches(t, card) && Within(t.date, w) {
        assert (rest + [t])[..|rest|] == rest;
      } else {
        assert Charges(t, card, closingDay, close) ==> OwedDelta(t, card) == 0;
        assert Fetched(txs, card, w) == rest;
      }
    }
  }

  lemma ListedChargesAreFetched(txs: seq<Tx>, card: nat, today: Date, closingDay: DayOfMonth, back: int, ahead: int, close: Date)
    requires close in Closes(today, closingDay, back, ahead)
    ensures Owed(Fetched(txs, card, WindowOf(today, closingDay, back, ahead)), card, closingDay, close)
         == Owed(txs, card, closingDay, close)
  {
    hide CycleCloseFor, WindowOf, Closes, Owed, Fetched;
    forall d: Date | CycleCloseFor(d, closingDay) == close ensures Within(d, WindowOf(today, closingDay, back, ahead)) {
      ListedChargeIsWithin(d, today, closingDay, back, ahead);
    }
    FetchKeepsCharges(txs, card, closingDay, close, WindowOf(today, closingDay, back, ahead));
  }

  method ListInvoices(txs: seq<Tx>, rules: seq<Rule>, card: Account, today: Date, back: int, ahead: int)
    returns (r: ListResult)
    ensures r ==
      if !card.isCreditCard then NotCreditCard
      else if card.closingDay.None? || card.dueDay.None? then Listed([])
      else Listed(Invoices(txs, rules, card, card.closingDay.value, card.dueDay.value, today, back, ahead))
  {
    if !card.isCreditCard {
      return NotCreditCard;
    }
    if card.closingDay.None? || card.dueDay.None? {
      return Listed([]);
    }
    hide CycleCloseFor, WindowOf, Closes, Owed, PaidTo, PaidWithin, Fetched, ProjectedIn, OpeningIn, DueDateFor,
      PeriodStart, StatusOf, OnDay, IsDate, IsClose, InPeriod, InvoiceFor;
    var closingDay, dueDay := card.closingDay.value, card.dueDay.value;
    var closes := ListCloses(today, closingDay, back, ahead);
    var w := WindowOf(today, closingDay, back, ahead);
    ListedCycles(today, closingDay, back, ahead);

    var totals, paid := BucketTransactions(txs, card, closingDay, today, closes, w);
    forall c | c in closes ensures Owed(Fetched(txs, card.id, w), card.id, closingDay, c) == Owed(txs, card.id, closingDay, c) {
      ListedChargesAreFetched(txs, card.id, today, closingDay, back, ahead, c);
    }
    totals := AddProjections(rules, card, closingDay, today, closes, totals);

    var invoices := BuildInvoices(txs, rules, card, closingDay, dueDay, today, closes, w, totals, paid);
    assert invoices == Invoices(txs, rules, card, closingDay, dueDay, today, back, ahead);
    r := Listed(invoices);
  }

  method BuildInvoices(ghost txs: seq<Tx>, ghost rules: seq<Rule>, card: Account, closingDay: DayOfMonth, dueDay: DayOfMonth,
                       today: Date, closes: seq<Date>, ghost w: Window, totals: map<Date, int>, paid: map<Date, int>)
    returns (invoices: seq<Invoice>)
    requires totals.Keys == paid.Keys == set c | c in closes
    requires forall c | c in closes :: totals[c] == Total(txs, rules, card, closingDay, today, c)
    requires forall c | c in closes :: paid[c] == PaidWithin(txs, card.id, closingDay, c, w)
    ensures |invoices| == |closes|
    ensures forall i | 0 <= i < |closes| ::
      invoices[i] == InvoiceFor(txs, rules, card, closingDay, dueDay, today, closes[i], w)
  {
    hide PaidWithin, Total, DueDateFor, PeriodStart, StatusOf, IsDate;
    invoices := [];
    for i := 0 to |closes|
      invariant |invoices| == i
      invariant forall j | 0 <= j < i ::
        invoices[j] == InvoiceFor(txs, rules, card, closingDay, dueDay, today, closes[j], w)
    {
      var close := closes[i];
      var periodStart := PeriodStart(close, closingDay);
      var due := DueDateFor(close, dueDay);
      var remaining := totals[close] - paid[close];
      invoices := invoices + [Invoice(close, due, periodStart, close, card.currency, totals[close], paid[close], remaining,
                                      StatusOf(today, periodStart, close, due, remaining))];
    }
  }

  /** The two dictionaries hold the numbers of every listed cycle for the transactions `seen`. */
  ghost predicate Bucketed(totals: map<Date, int>, paid: map<Date, int>, opening: map<Date, int>, card: nat,
                           closingDay: DayOfMonth, seen: seq<Tx>) {
    && totals.Keys == paid.Keys == opening.Keys
    && (forall c | c in totals :: totals[c] == opening[c] + Owed(seen, card, closingDay, c))
    && (forall c | c in paid :: paid[c] == PaidTo(seen, card, closingDay, c))
  }

  lemma BucketPayment(totals: map<Date, int>, paid: map<Date, int>, opening: map<Date, int>, card: nat,
                      closingDay: DayOfMonth, seen: seq<Tx>, t: Tx)
    requires Bucketed(totals, paid, opening, card, closingDay, seen) && IsPayment(t, card)
    ensures var target := TargetOf(t, closingDay);
      Bucketed(totals, if target in paid then paid[target := paid[target] + Effective(t)] else paid,
               opening, card, closingDay, seen + [t])
  {
    hide TargetOf, CycleCloseFor, OwedDelta, Effective, IsDate;
    assert (seen + [t])[..|seen|] == seen;
  }

  lemma BucketCharge(totals: map<Date, int>, paid: map<Date, int>, opening: map<Date, int>, card: nat,
                     closingDay: DayOfMonth, seen: seq<Tx>, t: Tx)
    requires Bucketed(totals, paid, opening, card, closingDay, seen) && !IsPayment(t, card)
    ensures var bucket := CycleCloseFor(t.date, closingDay);
      Bucketed(if bucket in totals then totals[bucket := totals[bucket] + OwedDelta(t, card)] else totals, paid,
               opening, card, closingDay, seen + [t])
  {
    hide TargetOf, CycleCloseFor, OwedDelta, Effective, IsDate;
    assert (seen + [t])[..|seen|] == seen;
  }

  /** Starts every listed cycle at zero, less the opening balance where it belongs. */
  method OpenTotals(txs: seq<Tx>, card: Account, closingDay: DayOfMonth, today: Date, closes: seq<Date>)
    returns (totals: map<Date, int>)
    ensures totals.Keys == set c | c in closes
    ensures forall c | c in closes :: totals[c] == OpeningIn(txs, card, closingDay, today, c)
  {
    hide FirstClose, IsDate;
    totals := map c | c in closes :: 0;
    if card.opening != 0 {
      var firstClose := FirstClose(txs, card.id, closingDay, today);
      if firstClose in totals {
        totals := totals[firstClose := totals[firstClose] - card.opening];
      }
    }
  }

  /** The opening balance and the booked transactions, bucketed by cycle. */
  method BucketTransactions(txs: seq<Tx>, card: Account, closingDay: DayOfMonth, today: Date, closes: seq<Date>, w: Window)
    returns (totals: map<Date, int>, paid: map<Date, int>)
    ensures totals.Keys == paid.Keys == set c | c in closes
    ensures forall c | c in closes ::
      totals[c] == OpeningIn(txs, card, closingDay, today, c) + Owed(Fetched(txs, card.id, w), card.id, closingDay, c)
    ensures forall c | c in closes :: paid[c] == PaidWithin(txs, card.id, closingDay, c, w)
  {
    hide CycleCloseFor, IsDate, PreviousDay, OwedDelta, Fetched, OpeningIn, Effective;
    totals := OpenTotals(txs, card, closingDay, today, closes);
    paid := map c | c in closes :: 0;
    ghost var opening := totals;
    var fetched := Fetched(txs, card.id, w);
    FetchedIsWithin(txs, card.id, w);
    assert Bucketed(totals, paid, opening, card.id, closingDay, fetched[..0]);
    for i := 0 to |fetched|
      invariant Bucketed(totals, paid, opening, card.id, closingDay, fetched[..i])
    {
      hide Bucketed, WindowOf;
      var t := fetched[i];
      assert fetched[..i + 1] == fetched[..i] + [t];
      WindowGuard(t.date, w);
      if AtMost(t.date, PreviousDay(w.start)) || Before(w.end, t.date) {
        assert false;
        continue;
      }
      totals, paid := BucketOne(totals, paid, opening, card.id, closingDay, fetched[..i], t);
    }
    assert fetched[..|fetched|] == fetched;
  }

  method BucketOne(totals0: map<Date, int>, paid0: map<Date, int>, ghost opening: map<Date, int>, card: nat,
                   closingDay: DayOfMonth, ghost seen: seq<Tx>, t: Tx)
    returns (totals: map<Date, int>, paid: map<Date, int>)
    requires Bucketed(totals0, paid0, opening, card, closingDay, seen)
    ensures Bucketed(totals, paid, opening, card, closingDay, seen + [t])
  {
    hide Bucketed, IsPayment, CycleCloseFor, IsDate, OwedDelta, Effective;
    totals, paid := totals0, paid0;
    var bucket := CycleCloseFor(t.date, closingDay);
    if IsPayment(t, card) {
      BucketPayment(totals, paid, opening, card, closingDay, seen, t);
      var target := if t.closeTag.Some? then t.closeTag.value else bucket;
      if target in paid {
        paid := paid[target := paid[target] + Effective(t)];
      }
      return;
    }
    BucketCharge(totals, paid, opening, card, closingDay, seen, t);
    if bucket in totals {
      totals := totals[bucket := totals[bucket] + OwedDelta(t, card)];
    }
  }

  lemma WindowGuard(d: Date, w: Window)
    requires Within(d, w)
    ensures !AtMost(d, PreviousDay(w.start)) && !Before(w.end, d)
  {
    DayStep(w.start);
  }

  lemma {:induction false} FetchedIsWithin(txs: seq<Tx>, card: nat, w: Window)
    ensures forall t | t in Fetched(txs, card, w) :: t in txs && Touches(t, card) && Within(t.date, w)
  {
    if txs != [] {
      FetchedIsWithin(txs[..|txs| - 1], card, w);
    }
  }

  /** The projected occurrences of the card's recurring rules, for cycles not over yet. */
  method AddProjections(rules: seq<Rule>, card: Account, closingDay: DayOfMonth, today: Date, closes: seq<Date>, booked: map<Date, int>)
    returns (totals: map<Date, int>)
    requires booked.Keys == set c | c in closes
    requires forall i, j | 0 <= i < j < |closes| :: Before(closes[i], closes[j])
    ensures totals.Keys == booked.Keys
    ensures forall c | c in closes :: totals[c] == booked[c] + ProjectedIn(rules, card.id, closingDay, today, c)
  {
    hide IsDate, PeriodStart, NextDay, Projection, PostsTo, RuleAmount, Later;
    totals := booked;
    for i := 0 to |closes|
      invariant totals.Keys == booked.Keys
      invariant forall j | 0 <= j < i :: totals[closes[j]] == booked[closes[j]] + ProjectedIn(rules, card.id, closingDay, today, closes[j])
      invariant forall j | i <= j < |closes| :: totals[closes[j]] == booked[closes[j]]
    {
      var close := closes[i];
      if Before(close, today) {
        continue;
      }
      var from := Later(PeriodStart(close, closingDay), NextDay(today));
      ghost var start := totals;
      for k := 0 to |rules|
        invariant totals == start[close := booked[close] + RuleShares(rules[..k], card.id, from, close)]
      {
        var rule := rules[k];
        assert rules[..k + 1][..k] == rules[..k];
        if PostsTo(rule, card.id) {
          var occurrences := ProjectOccurrenceDates(rule.schedule, from, close);
          if occurrences == [] {
            continue;
          }
          var sign := if rule.kind == Expense then 1 else -1;
          totals := totals[close := totals[close] + sign * RuleAmount(rule) * |occurrences|];
        }
      }
      assert rules[..|rules|] == rules;
    }
  }
}
