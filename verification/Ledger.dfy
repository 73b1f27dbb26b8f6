/** Transactions, the signed legs they put on accounts, and balances, which are
    always derived from them. Money is in units of 0.0001. */
module Ledger {
  import opened Wrappers
  import opened Calendar

  datatype Kind = Income | Expense | Interest | Transfer

  /** `closeTag` names the cycle that a payment to a card settles. */
  datatype Tx = Tx(
    date: Date, kind: Kind, account: nat, toAccount: Option<nat>,
    amount: int, conversion: Option<int>, closeTag: Option<Date>)

  /** The CHECK constraints of the transactions table. */
  predicate ValidTx(t: Tx) {
    && t.amount > 0
    && (t.conversion.Some? ==> t.conversion.value > 0)
    && (t.kind == Transfer <==> t.toAccount.Some?)
    && t.toAccount != Some(t.account)
  }

  function Effective(t: Tx): int {
    if t.conversion.Some? then t.conversion.value else t.amount
  }

  /** An existing-position buy, which credits the wallet's investment account. */
  datatype Position = Position(date: Date, account: nat, value: int)

  datatype Leg = Leg(account: nat, date: Date, delta: int)

  function OwnLeg(t: Tx): Leg {
    Leg(t.account, t.date,
        match t.kind
        case Income => Effective(t)
        case Interest => Effective(t)
        case Expense => -Effective(t)
        case Transfer => -t.amount)
  }

  function OwnLegs(txs: seq<Tx>): seq<Leg> {
    if txs == [] then [] else OwnLegs(txs[..|txs| - 1]) + [OwnLeg(txs[|txs| - 1])]
  }

  function IncomingLegs(txs: seq<Tx>): seq<Leg> {
    if txs == [] then [] else
    var t := txs[|txs| - 1];
    IncomingLegs(txs[..|txs| - 1])
    + if t.kind == Transfer && t.toAccount.Some? then [Leg(t.toAccount.value, t.date, Effective(t))] else []
  }

  function PositionLegs(positions: seq<Position>): seq<Leg> {
    seq(|positions|, i requires 0 <= i < |positions| =>
      Leg(positions[i].account, positions[i].date, positions[i].value))
  }

  /** Every leg of every account. */
  function Legs(txs: seq<Tx>, positions: seq<Position>): seq<Leg> {
    OwnLegs(txs) + IncomingLegs(txs) + PositionLegs(positions)
  }

  /** The legs of one account, optionally only up to or from a date. */
  datatype Scope = Scope(account: nat, from: Option<Date>, upTo: Option<Date>)

  predicate InScope(leg: Leg, s: Scope) {
    && leg.account == s.account
    && (s.from.Some? ==> AtMost(s.from.value, leg.date))
    && (s.upTo.Some? ==> AtMost(leg.date, s.upTo.value))
  }

  function LegSum(legs: seq<Leg>, s: Scope): int {
    if legs == [] then 0 else
    LegSum(legs[..|legs| - 1], s) + if InScope(legs[|legs| - 1], s) then legs[|legs| - 1].delta else 0
  }

  /** An account's balance: its opening balance and every leg that touches it. */
  function Balance(txs: seq<Tx>, positions: seq<Position>, account: nat, opening: int, asOf: Option<Date>): int {
    opening + LegSum(Legs(txs, positions), Scope(account, None, asOf))
  }

  lemma {:induction false} LegSumConcat(a: seq<Leg>, b: seq<Leg>, s: Scope)
    ensures LegSum(a + b, s) == LegSum(a, s) + LegSum(b, s)
  {
    if b == [] {
      assert a + b == a;
    } else {
      assert (a + b)[..|a + b| - 1] == a + b[..|b| - 1];
      LegSumConcat(a, b[..|b| - 1], s);
    }
  }

  /** What one transaction adds to an account, both legs together. */
  function TxDelta(t: Tx, account: nat): int {
    (if t.account == account then OwnLeg(t).delta else 0)
    + (if t.kind == Transfer && t.toAccount == Some(account) then Effective(t) else 0)
  }

  function TxDeltas(txs: seq<Tx>, account: nat, upTo: Option<Date>): int {
    if txs == [] then 0 else
    var t := txs[|txs| - 1];
    TxDeltas(txs[..|txs| - 1], account, upTo)
    + if upTo.Some? ==> AtMost(t.date, upTo.value) then TxDelta(t, account) else 0
  }

  lemma LegSumAppend(legs: seq<Leg>, leg: Leg, s: Scope)
    ensures LegSum(legs + [leg], s) == LegSum(legs, s) + if InScope(leg, s) then leg.delta else 0
  {
    assert (legs + [leg])[..|legs|] == legs;
  }

  lemma {:induction false} LegsAreTxDeltas(txs: seq<Tx>, account: nat, upTo: Option<Date>)
    ensures LegSum(OwnLegs(txs), Scope(account, None, upTo)) + LegSum(IncomingLegs(txs), Scope(account, None, upTo))
         == TxDeltas(txs, account, upTo)
  {
    hide LegSum, IsDate, Effective;
    var s := Scope(account, None, upTo);
    if txs == [] {
      assert LegSum([], s) == 0 by { EmptyLegSum(s); }
    } else {
      var init, t := txs[..|txs| - 1], txs[|txs| - 1];
      LegsAreTxDeltas(init, account, upTo);
      LegSumAppend(OwnLegs(init), OwnLeg(t), s);
      if t.kind == Transfer && t.toAccount.Some? {
        LegSumAppend(IncomingLegs(init), Leg(t.toAccount.value, t.date, Effective(t)), s);
      } else {
        assert IncomingLegs(txs) == IncomingLegs(init);
      }
    }
  }

  lemma EmptyLegSum(s: Scope)
    ensures LegSum([], s) == 0
  {
  }

  /** What the existing-position buys add to an account. */
  function PositionDeltas(positions: seq<Position>, account: nat, upTo: Option<Date>): int {
    if positions == [] then 0 else
    var p := positions[|positions| - 1];
    PositionDeltas(positions[..|positions| - 1], account, upTo)
    + if p.account == account && (upTo.Some? ==> AtMost(p.date, upTo.value)) then p.value else 0
  }

  lemma {:induction false} LegsArePositionDeltas(positions: seq<Position>, account: nat, upTo: Option<Date>)
    ensures LegSum(PositionLegs(positions), Scope(account, None, upTo)) == PositionDeltas(positions, account, upTo)
  {
    if positions != [] {
      var init, p := positions[..|positions| - 1], positions[|positions| - 1];
      LegsArePositionDeltas(init, account, upTo);
      assert PositionLegs(positions) == PositionLegs(init) + [Leg(p.account, p.date, p.value)];
      LegSumAppend(PositionLegs(init), Leg(p.account, p.date, p.value), Scope(account, None, upTo));
    }
  }

  lemma {:induction false} NoPositions(positions: seq<Position>, account: nat, upTo: Option<Date>)
    requires forall p | p in positions :: p.account != account
    ensures PositionDeltas(positions, account, upTo) == 0
  {
    if positions != [] {
      NoPositions(positions[..|positions| - 1], account, upTo);
    }
  }

  /** The balance is the opening balance, the transactions' deltas and the
      existing-position buys. */
  lemma BalanceIsDeltas(txs: seq<Tx>, positions: seq<Position>, account: nat, opening: int, asOf: Option<Date>)
    ensures Balance(txs, positions, account, opening, asOf)
         == opening + TxDeltas(txs, account, asOf) + PositionDeltas(positions, account, asOf)
  {
    var s := Scope(account, None, asOf);
    LegSumConcat(OwnLegs(txs) + IncomingLegs(txs), PositionLegs(positions), s);
    LegSumConcat(OwnLegs(txs), IncomingLegs(txs), s);
    LegsAreTxDeltas(txs, account, asOf);
    LegsArePositionDeltas(positions, account, asOf);
  }

  // --- what a posting moves ------------------------------------------------------------

  lemma TxDeltasAppend(txs: seq<Tx>, t: Tx, account: nat)
    ensures TxDeltas(txs + [t], account, None) == TxDeltas(txs, account, None) + TxDelta(t, account)
  {
    assert (txs + [t])[..|txs|] == txs;
  }

  /** Spending lowers the account's balance and earning raises it, by the
      converted amount where there is one. A transfer takes its amount from one account
      and gives the converted one to the other; no other balance moves. */
  lemma PostingMoves(txs: seq<Tx>, t: Tx, positions: seq<Position>, account: nat, opening: int)
    requires ValidTx(t)
    ensures var moved := Balance(txs + [t], positions, account, opening, None) - Balance(txs, positions, account, opening, None);
      var value := if t.conversion.Some? then t.conversion.value else t.amount;
      && (t.kind == Expense && t.account == account ==> moved == -value < 0)
      && (t.kind in {Income, Interest} && t.account == account ==> moved == value > 0)
      && (t.kind == Transfer && t.account == account ==> moved == -t.amount < 0)
      && (t.kind == Transfer && t.toAccount == Some(account) ==> moved == value > 0)
      && (t.account != account && t.toAccount != Some(account) ==> moved == 0)
  {
    BalanceIsDeltas(txs + [t], positions, account, opening, None);
    BalanceIsDeltas(txs, positions, account, opening, None);
    TxDeltasAppend(txs, t, account);
  }

  /** A transfer in one currency moves money without making or losing any. */
  lemma TransferConserves(txs: seq<Tx>, t: Tx, positions: seq<Position>, opening: int, opening': int)
    requires ValidTx(t) && t.kind == Transfer && t.conversion.None?
    ensures Balance(txs + [t], positions, t.account, opening, None) + Balance(txs + [t], positions, t.toAccount.value, opening', None)
         == Balance(txs, positions, t.account, opening, None) + Balance(txs, positions, t.toAccount.value, opening', None)
  {
    PostingMoves(txs, t, positions, t.account, opening);
    PostingMoves(txs, t, positions, t.toAccount.value, opening');
  }
}
