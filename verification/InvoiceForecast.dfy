/** What a projected rule stands for on an invoice: the charges that posting the
    rule's occurrences will file there. */
module InvoiceForecast {
  import opened Wrappers
  import opened Calendar
  import opened CardCycles
  import opened Recurrence
  import opened Ledger
  import opened CardInvoices

  /** The transaction that a rule posts for one of its dates. */
  function Posting(rule: Rule, d: Date): Tx {
    Tx(d, rule.kind, rule.account, None, rule.amount, rule.conversion, None)
  }

  function Postings(rule: Rule, dates: seq<Date>): seq<Tx> {
    if dates == [] then [] else Postings(rule, dates[..|dates| - 1]) + [Posting(rule, dates[|dates| - 1])]
  }

  /** Everything the rules of a card post from one day to another. */
  function Foretold(rules: seq<Rule>, card: nat, from: Date, to: Date): seq<Tx> {
    if rules == [] then [] else
    var rule := rules[|rules| - 1];
    Foretold(rules[..|rules| - 1], card, from, to)
    + if PostsTo(rule, card) then Postings(rule, Projection(rule.schedule, from, to)) else []
  }

  /** A converted amount of zero is read as no conversion by the forecast alone. */
  predicate PricedAlike(rule: Rule) {
    rule.conversion == Some(0) ==> rule.amount == 0
  }

  function Earlier(a: Date, b: Date): Date {
    if Before(a, b) then a else b
  }

  lemma {:induction false} OwedConcat(a: seq<Tx>, b: seq<Tx>, card: nat, closingDay: DayOfMonth, close: Date)
    ensures Owed(a + b, card, closingDay, close) == Owed(a, card, closingDay, close) + Owed(b, card, closingDay, close)
  {
    hide Charges, OwedDelta;
    if b == [] {
      assert a + b == a;
    } else {
      assert (a + b)[..|a + b| - 1] == a + b[..|b| - 1];
      OwedConcat(a, b[..|b| - 1], card, closingDay, close);
    }
  }

  // --- one rule ---------------------------------------------------------------------

  /** What one posting charges to the cycle its date lies in. */
  lemma PostingCharge(rule: Rule, card: nat, closingDay: DayOfMonth, close: Date, d: Date)
    requires PostsTo(rule, card) && IsClose(close, closingDay)
    ensures Charges(Posting(rule, d), card, closingDay, close) <==> InPeriod(d, close, closingDay)
    ensures OwedDelta(Posting(rule, d), card) ==
      (if rule.kind == Income then -1 else 1) * (if rule.conversion.Some? then rule.conversion.value else rule.amount)
  {
    PeriodsTile(d, close, closingDay);
  }

  /** The postings of a range charge a cycle once for each date the range shares
      with the cycle's period. */
  lemma {:induction false} PostingsOwed(rule: Rule, card: nat, closingDay: DayOfMonth, close: Date, from: Date, to: Date, n: nat)
    requires PostsTo(rule, card) && IsClose(close, closingDay) && rule.schedule.interval >= 1
    ensures Owed(Postings(rule, Occurrences(rule.schedule, from, to, n)), card, closingDay, close)
         == OwedDelta(Posting(rule, close), card)
            * |Occurrences(rule.schedule, Later(from, PeriodStart(close, closingDay)), Earlier(to, close), n)|
  {
    hide Occurrence, PeriodStart, Charges, OwedDelta, IsClose, Counts, Posting, Owed, Later, Earlier, IsDate, PostsTo;
    if n == 0 {
      NothingOwed(card, closingDay, close);
    } else {
      PostingsOwed(rule, card, closingDay, close, from, to, n - 1);
      var dates := Occurrences(rule.schedule, from, to, n - 1);
      var d := Occurrence(rule.schedule, n - 1);
      var start := PeriodStart(close, closingDay);
      CountsInCycle(rule.schedule, from, to, start, close, n - 1);
      PostingCharge(rule, card, closingDay, close, d);
      PostingCharge(rule, card, closingDay, close, close);
      if Counts(rule.schedule, from, to, n - 1) {
        assert (dates + [d])[..|dates|] == dates;
        OwedAppend(Postings(rule, dates), Posting(rule, d), card, closingDay, close);
        OneMoreCounts(OwedDelta(Posting(rule, close), card),
                      |Occurrences(rule.schedule, Later(from, start), Earlier(to, close), n - 1)|);
        assert Postings(rule, dates + [d]) == Postings(rule, dates) + [Posting(rule, d)];
        assert Occurrences(rule.schedule, from, to, n) == dates + [d];
      } else {
        assert Occurrences(rule.schedule, from, to, n) == dates;
      }
    }
  }

  lemma CountsInCycle(s: Schedule, from: Date, to: Date, start: Date, close: Date, index: nat)
    requires s.interval >= 1
    ensures Counts(s, Later(from, start), Earlier(to, close), index) <==>
      Counts(s, from, to, index) && AtMost(start, Occurrence(s, index)) && AtMost(Occurrence(s, index), close)
  {
    hide Occurrence, IsDate;
  }

  lemma OneMoreCounts(x: int, n: int)
    ensures x * (n + 1) == x * n + x
  {
  }

  lemma OwedAppend(txs: seq<Tx>, t: Tx, card: nat, closingDay: DayOfMonth, close: Date)
    ensures Owed(txs + [t], card, closingDay, close)
         == Owed(txs, card, closingDay, close) + if Charges(t, card, closingDay, close) then OwedDelta(t, card) else 0
  {
    hide Charges, OwedDelta;
    assert (txs + [t])[..|txs|] == txs;
  }

  /** A rule's share of a cycle is what its postings from `from` on will charge
      there, exactly when both read the same amount. */
  lemma ShareIsForetoldIff(rule: Rule, card: nat, closingDay: DayOfMonth, close: Date, from: Date)
    requires PostsTo(rule, card) && IsClose(close, closingDay) && AtMost(PeriodStart(close, closingDay), from)
    ensures RuleShare(rule, from, close) == Owed(Postings(rule, Projection(rule.schedule, from, close)), card, closingDay, close)
      <==> PricedAlike(rule) || Projection(rule.schedule, from, close) == []
  {
    hide IsDate, PeriodStart, Occurrences, Charges, Owed;
    var n := |Projection(rule.schedule, from, close)|;
    PostingsOwedInCycle(rule, card, closingDay, close, from);
    PostingCharge(rule, card, closingDay, close, close);
    MulCancels(OwedDelta(Posting(rule, close), card), (if rule.kind == Expense then 1 else -1) * RuleAmount(rule), n);
  }

  lemma PostingsOwedInCycle(rule: Rule, card: nat, closingDay: DayOfMonth, close: Date, from: Date)
    requires PostsTo(rule, card) && IsClose(close, closingDay) && AtMost(PeriodStart(close, closingDay), from)
    ensures Owed(Postings(rule, Projection(rule.schedule, from, close)), card, closingDay, close)
         == OwedDelta(Posting(rule, close), card) * |Projection(rule.schedule, from, close)|
  {
    hide IsDate, PeriodStart, Occurrences, OwedDelta, Charges;
    if rule.schedule.interval >= 1 {
      OrderIsLexicographic(from, PeriodStart(close, closingDay));
      PostingsOwed(rule, card, closingDay, close, from, close, MAX_OCCURRENCES);
    }
  }

  lemma MulCancels(x: int, y: int, n: nat)
    ensures x * n == y * n <==> x == y || n == 0
  {
    if n != 0 && x * n == y * n {
      assert (x - y) * n == 0;
    }
  }

  // --- all rules ---------------------------------------------------------------------

  /** What the forecast adds to a cycle is what the ledger will owe there once
      the rules have posted. */
  lemma {:induction false} SharesAreForetold(rules: seq<Rule>, card: nat, closingDay: DayOfMonth, close: Date, from: Date)
    requires IsClose(close, closingDay) && AtMost(PeriodStart(close, closingDay), from)
    requires forall rule | rule in rules :: PricedAlike(rule)
    ensures RuleShares(rules, card, from, close) == Owed(Foretold(rules, card, from, close), card, closingDay, close)
  {
    hide IsDate, PeriodStart, Projection, Charges, PostsTo, IsClose, RuleShare, PricedAlike;
    if rules != [] {
      var init, rule := rules[..|rules| - 1], rules[|rules| - 1];
      SharesAreForetold(init, card, closingDay, close, from);
      if PostsTo(rule, card) {
        ShareIsForetoldIff(rule, card, closingDay, close, from);
        OwedConcat(Foretold(init, card, from, close), Postings(rule, Projection(rule.schedule, from, close)), card, closingDay, close);
      } else {
        assert Foretold(rules, card, from, close) == Foretold(init, card, from, close);
      }
    }
  }

  /** The projection foretells the posting: with the rules of an unfinished
      cycle posted to its close and no rule left, the cycle owes the same. */
  lemma ForecastIsPosting(txs: seq<Tx>, rules: seq<Rule>, card: nat, closingDay: DayOfMonth, today: Date, close: Date)
    requires IsClose(close, closingDay) && AtMost(today, close)
    requires forall rule | rule in rules :: PricedAlike(rule)
    ensures var posted := Foretold(rules, card, Later(PeriodStart(close, closingDay), NextDay(today)), close);
      Owed(txs, card, closingDay, close) + ProjectedIn(rules, card, closingDay, today, close)
        == Owed(txs + posted, card, closingDay, close)
  {
    hide IsDate, PeriodStart, Owed, NextDay;
    var from := Later(PeriodStart(close, closingDay), NextDay(today));
    SharesAreForetold(rules, card, closingDay, close, from);
    OwedConcat(txs, Foretold(rules, card, from, close), card, closingDay, close);
  }

  // --- as days go by -------------------------------------------------------------------

  /** The dates of a range that fall in a cycle, and those still to come after
      it, are together the ones that were to come before it. */
  lemma DatesAreSplit(s: Schedule, start: Date, close: Date, today: Date, later: Date)
    requires AtMost(today, later) && AtMost(start, close)
    ensures |Projection(s, Later(NextDay(today), start), Earlier(later, close))|
            + (if Before(close, later) then 0 else |Projection(s, Later(start, NextDay(later)), close)|)
         == if Before(close, today) then 0 else |Projection(s, Later(start, NextDay(today)), close)|
  {
    hide IsDate, Projection, NextDay;
    DaysAreConsecutive(today, close);
    DaysAreConsecutive(today, later);
    DaysAreConsecutive(today, start);
    DaysAreConsecutive(later, start);
    DayStep(later);
    DaysAreConsecutive(today, NextDay(later));
    OrderIsLexicographic(start, NextDay(today));
    OrderIsLexicographic(start, NextDay(later));
    OrderIsLexicographic(later, close);
    if Before(close, today) {
      NothingInEmptyRange(s, Later(NextDay(today), start), Earlier(later, close));
    } else if !Before(close, later) {
      if Before(later, start) {
        NothingInEmptyRange(s, Later(NextDay(today), start), later);
      } else {
        AdjacentProjections(s, Later(start, NextDay(today)), later, close);
      }
    }
  }

  lemma NothingInEmptyRange(s: Schedule, from: Date, to: Date)
    requires Before(to, from)
    ensures Projection(s, from, to) == []
  {
    if Projection(s, from, to) != [] {
      OccurrencesMembers(s, from, to, MAX_OCCURRENCES, Projection(s, from, to)[0]);
    }
  }

  lemma {:induction false} SharesMove(rules: seq<Rule>, card: nat, closingDay: DayOfMonth, close: Date, today: Date, later: Date)
    requires IsClose(close, closingDay) && AtMost(today, later)
    requires forall rule | rule in rules :: PricedAlike(rule)
    ensures Owed(Foretold(rules, card, NextDay(today), later), card, closingDay, close)
            + ProjectedIn(rules, card, closingDay, later, close)
         == ProjectedIn(rules, card, closingDay, today, close)
  {
    hide IsDate, PeriodStart, Projection, NextDay, Charges, PostsTo, IsClose, RuleShare, PricedAlike;
    if rules != [] {
      var init, rule := rules[..|rules| - 1], rules[|rules| - 1];
      SharesMove(init, card, closingDay, close, today, later);
      if PostsTo(rule, card) {
        OwedConcat(Foretold(init, card, NextDay(today), later), Postings(rule, Projection(rule.schedule, NextDay(today), later)), card, closingDay, close);
        ShareMoves(rule, card, closingDay, close, today, later);
      } else {
        assert Foretold(rules, card, NextDay(today), later) == Foretold(init, card, NextDay(today), later);
      }
    }
  }

  lemma ShareMoves(rule: Rule, card: nat, closingDay: DayOfMonth, close: Date, today: Date, later: Date)
    requires PostsTo(rule, card) && PricedAlike(rule) && IsClose(close, closingDay) && AtMost(today, later)
    ensures var start := PeriodStart(close, closingDay);
      Owed(Postings(rule, Projection(rule.schedule, NextDay(today), later)), card, closingDay, close)
      + (if Before(close, later) then 0 else RuleShare(rule, Later(start, NextDay(later)), close))
      == if Before(close, today) then 0 else RuleShare(rule, Later(start, NextDay(today)), close)
  {
    hide IsDate, PeriodStart, Occurrences, NextDay, Charges, Owed;
    var start := PeriodStart(close, closingDay);
    if rule.schedule.interval >= 1 {
      PostingsOwed(rule, card, closingDay, close, NextDay(today), later, MAX_OCCURRENCES);
    }
    PeriodsAdjacent(close, closingDay);
    PostingCharge(rule, card, closingDay, close, close);
    DatesAreSplit(rule.schedule, start, close, today, later);
    assert rule.schedule.interval < 1 ==> Postings(rule, []) == [] && Owed([], card, closingDay, close) == 0 by { NothingOwed(card, closingDay, close); }
    var x := OwedDelta(Posting(rule, close), card);
    MulSplits(x, |Projection(rule.schedule, Later(NextDay(today), start), Earlier(later, close))|,
              if Before(close, later) then 0 else |Projection(rule.schedule, Later(start, NextDay(later)), close)|);
  }

  lemma NothingOwed(card: nat, closingDay: DayOfMonth, close: Date)
    ensures Owed([], card, closingDay, close) == 0
  {
  }

  lemma MulSplits(x: int, m: int, n: int)
    ensures x * (m + n) == x * m + x * n
  {
  }

  lemma {:induction false} FirstActivityStays(txs: seq<Tx>, more: seq<Tx>, card: nat)
    requires FirstActivity(txs, card).Some?
    requires forall t | t in more :: AtMost(FirstActivity(txs, card).value, t.date)
    ensures FirstActivity(txs + more, card) == FirstActivity(txs, card)
  {
    if more == [] {
      assert txs + more == txs;
    } else {
      assert (txs + more)[..|txs + more| - 1] == txs + more[..|more| - 1];
      FirstActivityStays(txs, more[..|more| - 1], card);
    }
  }

  lemma {:induction false} PostingsAreDated(rule: Rule, dates: seq<Date>, t: Tx)
    requires t in Postings(rule, dates)
    ensures t.date in dates
  {
    if t != Posting(rule, dates[|dates| - 1]) {
      PostingsAreDated(rule, dates[..|dates| - 1], t);
    }
  }

  lemma {:induction false} ForetoldIsDated(rules: seq<Rule>, card: nat, from: Date, to: Date, t: Tx)
    requires t in Foretold(rules, card, from, to)
    ensures AtMost(from, t.date) && AtMost(t.date, to)
  {
    var rule := rules[|rules| - 1];
    if t in Foretold(rules[..|rules| - 1], card, from, to) {
      ForetoldIsDated(rules[..|rules| - 1], card, from, to, t);
    } else {
      PostingsAreDated(rule, Projection(rule.schedule, from, to), t);
      OccurrencesMembers(rule.schedule, from, to, MAX_OCCURRENCES, t.date);
    }
  }

  /** No invoice jumps when its recurring charges are posted: from one day to any
      later one, with everything the rules post in between booked, the total of
      every cycle stays what it was. The opening balance stays put because the
      card has been used before. */
  lemma TotalSurvivesPosting(txs: seq<Tx>, rules: seq<Rule>, card: Account, closingDay: DayOfMonth, today: Date, later: Date, close: Date)
    requires IsClose(close, closingDay) && AtMost(today, later)
    requires forall rule | rule in rules :: PricedAlike(rule)
    requires FirstActivity(txs, card.id).Some? && AtMost(FirstActivity(txs, card.id).value, NextDay(today))
    ensures Total(txs + Foretold(rules, card.id, NextDay(today), later), rules, card, closingDay, later, close)
         == Total(txs, rules, card, closingDay, today, close)
  {
    hide IsDate, Owed, Foretold, ProjectedIn, FirstActivity, CycleCloseFor, NextDay;
    var posted := Foretold(rules, card.id, NextDay(today), later);
    forall t | t in posted ensures AtMost(FirstActivity(txs, card.id).value, t.date) {
      ForetoldIsDated(rules, card.id, NextDay(today), later, t);
    }
    FirstActivityStays(txs, posted, card.id);
    OwedConcat(txs, posted, card.id, closingDay, close);
    SharesMove(rules, card.id, closingDay, close, today, later);
  }

  // --- what an invoice shows -------------------------------------------------------------

  /** When each status is shown, told from the day, the period, the due date and
      what is left to pay. */
  lemma StatusIff(txs: seq<Tx>, rules: seq<Rule>, card: Account, closingDay: DayOfMonth, dueDay: DayOfMonth,
                  today: Date, close: Date, w: Window)
    requires IsClose(close, closingDay)
    ensures var invoice := InvoiceFor(txs, rules, card, closingDay, dueDay, today, close, w);
      && (invoice.status == Open <==> CycleCloseFor(today, closingDay) == close)
      && (invoice.status == Projected <==> Before(today, invoice.periodStart))
      && (invoice.status == Paid <==> Before(close, today) && invoice.total <= invoice.paid)
      && (invoice.status == Overdue <==> Before(invoice.dueDate, today) && invoice.total > invoice.paid)
      && (invoice.status == Closed <==>
            Before(close, today) && AtMost(today, invoice.dueDate) && invoice.total > invoice.paid)
  {
    hide IsDate, OnDay, NextDay, PreviousDay, PeriodStart, DueDateFor, CycleCloseFor, Total, PaidWithin, IsClose;
    DueDateIsNext(close, dueDay);
    PeriodsAdjacent(close, closingDay);
    PeriodsTile(today, close, closingDay);
    var start := PeriodStart(close, closingDay);
    DayStep(start);
    DaysAreConsecutive(PreviousDay(start), today);
  }
}
