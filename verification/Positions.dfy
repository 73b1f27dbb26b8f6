/** Average-cost positions, folded from the investment ledger. */
module Positions {
  import opened Wrappers

  /** A ledger row; sizes are exact reals. */
  datatype Entry =
    | Buy(quantity: real, price: real, fee: real)
    | Sell(quantity: real, price: real, fee: real)
    | Dividend(amount: real)
    | Yield(amount: real)
    | Fee(amount: real)

  /** The CHECK constraints of the table. */
  predicate ValidEntry(e: Entry) {
    match e
    case Buy(quantity, price, fee) => quantity > 0.0 && price >= 0.0 && fee >= 0.0
    case Sell(quantity, price, fee) => quantity > 0.0 && price >= 0.0 && fee >= 0.0
    case Dividend(amount) => amount >= 0.0
    case Yield(amount) => amount > 0.0
    case Fee(amount) => amount >= 0.0
  }

  datatype Position = Position(
    quantity: real, cost: real, realizedGain: real, dividendIncome: real, yieldBalance: real, feesPaid: real)

  const EMPTY := Position(0.0, 0.0, 0.0, 0.0, 0.0, 0.0)

  function Gross(quantity: real, price: real): real {
    quantity * price
  }

  /** What `sold` units cost at the average cost of the `held` ones. */
  function AtAverage(cost: real, held: real, sold: real): real
    requires held > 0.0
  {
    cost / held * sold
  }

  /** The part of a balance that stays with the units that stay. */
  function Kept(balance: real, held: real, sold: real): real
    requires held > 0.0
  {
    balance * ((held - sold) / held)
  }

  /** The position after one more row, or None when the row cannot be folded. */
  function Apply(p: Position, e: Entry): Option<Position> {
    match e
    case Buy(quantity, price, fee) =>
      Some(p.(quantity := p.quantity + quantity, cost := p.cost + Gross(quantity, price) + fee))
    case Sell(quantity, price, fee) =>
      if p.quantity <= 0.0 || quantity > p.quantity then None else
      var basis := AtAverage(p.cost, p.quantity, quantity);
      var left := p.quantity - quantity;
      Some(p.(quantity := left,
              cost := if left == 0.0 then 0.0 else p.cost - basis,
              realizedGain := p.realizedGain + Gross(quantity, price) - fee - basis,
              yieldBalance := Kept(p.yieldBalance, p.quantity, quantity)))
    case Dividend(amount) => Some(p.(dividendIncome := p.dividendIncome + amount))
    case Yield(amount) => if p.quantity <= 0.0 then None else Some(p.(yieldBalance := p.yieldBalance + amount))
    case Fee(amount) => Some(p.(feesPaid := p.feesPaid + amount))
  }

  function Folded(rows: seq<Entry>): Option<Position> {
    if rows == [] then Some(EMPTY) else
    var p := Folded(rows[..|rows| - 1]);
    if p.None? then None else Apply(p.value, rows[|rows| - 1])
  }

  lemma {:induction false} FoldStops(rows: seq<Entry>, n: nat)
    requires n <= |rows| && Folded(rows[..n]).None?
    ensures Folded(rows).None?
    decreases |rows|
  {
    if n < |rows| {
      assert rows[..|rows| - 1][..n] == rows[..n];
      FoldStops(rows[..|rows| - 1], n);
    } else {
      assert rows[..n] == rows;
    }
  }

  method Fold(rows: seq<Entry>) returns (position: Option<Position>)
    ensures position == Folded(rows)
  {
    hide Apply;
    var quantity, cost, realizedGain := 0.0, 0.0, 0.0;
    var dividendIncome, yieldBalance, feesPaid := 0.0, 0.0, 0.0;
    for i := 0 to |rows|
      invariant Folded(rows[..i]) == Some(Position(quantity, cost, realizedGain, dividendIncome, yieldBalance, feesPaid))
    {
      ghost var before := Position(quantity, cost, realizedGain, dividendIncome, yieldBalance, feesPaid);
      assert rows[..i + 1][..i] == rows[..i];
      var ok;
      ok, quantity, cost, realizedGain, dividendIncome, yieldBalance, feesPaid :=
        FoldRow(rows[i], quantity, cost, realizedGain, dividendIncome, yieldBalance, feesPaid);
      if !ok {
        FoldStops(rows, i + 1);
        return None;
      }
    }
    assert rows[..|rows|] == rows;
    position := Some(Position(quantity, cost, realizedGain, dividendIncome, yieldBalance, feesPaid));
  }

  /** The body of the loop. */
  method FoldRow(row: Entry, quantity0: real, cost0: real, gain0: real, dividends0: real, yields0: real, fees0: real)
    returns (ok: bool, quantity: real, cost: real, gain: real, dividends: real, yielded: real, fees: real)
    ensures var r := Apply(Position(quantity0, cost0, gain0, dividends0, yields0, fees0), row);
      && (ok <==> r.Some?)
      && (ok ==> r == Some(Position(quantity, cost, gain, dividends, yielded, fees)))
  {
    hide Gross, AtAverage, Kept;
    ok, quantity, cost, gain, dividends, yielded, fees := true, quantity0, cost0, gain0, dividends0, yields0, fees0;
    match row
    case Buy(bought, price, fee) =>
      quantity := quantity + bought;
      cost := cost + Gross(bought, price) + fee;
    case Sell(sold, price, fee) =>
      if quantity <= 0.0 || sold > quantity {
        ok := false;
        return;
      }
      var basis := AtAverage(cost, quantity, sold);
      gain := gain + Gross(sold, price) - fee - basis;
      yielded := Kept(yielded, quantity, sold);
      quantity := quantity - sold;
      cost := cost - basis;
      if quantity == 0.0 {
        cost := 0.0;
      }
    case Dividend(amount) => dividends := dividends + amount;
    case Yield(amount) =>
      if quantity <= 0.0 {
        ok := false;
        return;
      }
      yielded := yielded + amount;
    case Fee(amount) => fees := fees + amount;
  }

  // --- what the fold means --------------------------------------------------------------

  /** Quantity bought less quantity sold. */
  function Held(rows: seq<Entry>): real {
    if rows == [] then 0.0 else
    Held(rows[..|rows| - 1]) +
    match rows[|rows| - 1]
    case Buy(quantity, _, _) => quantity
    case Sell(quantity, _, _) => -quantity
    case _ => 0.0
  }

  /** What buys cost, fees included. */
  function BuyOutlay(rows: seq<Entry>): real {
    if rows == [] then 0.0 else
    BuyOutlay(rows[..|rows| - 1]) +
    match rows[|rows| - 1]
    case Buy(quantity, price, fee) => Gross(quantity, price) + fee
    case _ => 0.0
  }

  /** What sells brought in, after fees. */
  function SellProceeds(rows: seq<Entry>): real {
    if rows == [] then 0.0 else
    SellProceeds(rows[..|rows| - 1]) +
    match rows[|rows| - 1]
    case Sell(quantity, price, fee) => Gross(quantity, price) - fee
    case _ => 0.0
  }

  lemma PartIsWithin(cost: real, quantity: real, part: real)
    requires cost >= 0.0 && 0.0 < part <= quantity
    ensures 0.0 <= AtAverage(cost, quantity, part) <= cost
    ensures part == quantity ==> AtAverage(cost, quantity, part) == cost
  {
    var average := cost / quantity;
    assert average * quantity == cost;
    assert average >= 0.0;
    assert average * (quantity - part) >= 0.0;
    assert average * (quantity - part) == average * quantity - average * part;
  }

  lemma ShareIsWithin(balance: real, quantity: real, part: real)
    requires balance >= 0.0 && 0.0 < part <= quantity
    ensures Kept(balance, quantity, part) >= 0.0
    ensures part == quantity ==> Kept(balance, quantity, part) == 0.0
  {
    var share := (quantity - part) / quantity;
    assert share >= 0.0;
    assert part == quantity ==> share == 0.0;
  }

  lemma GrossIsPositive(quantity: real, price: real)
    requires quantity > 0.0 && price >= 0.0
    ensures Gross(quantity, price) >= 0.0
  {
  }

  /** For every ledger that folds: the quantity is what is held; book value is
      total outlay less total proceeds plus realized gain; nothing is negative,
      and nothing is left when nothing is held. */
  lemma {:induction false} FoldAccounts(rows: seq<Entry>)
    requires forall e | e in rows :: ValidEntry(e)
    requires Folded(rows).Some?
    ensures var p := Folded(rows).value;
      && p.quantity == Held(rows) && p.quantity >= 0.0
      && p.cost == BuyOutlay(rows) - SellProceeds(rows) + p.realizedGain
      && p.cost >= 0.0 && p.yieldBalance >= 0.0
      && (p.quantity == 0.0 ==> p.cost == 0.0 && p.yieldBalance == 0.0)
  {
    hide Gross, AtAverage, Kept;
    if rows != [] {
      var init, e := rows[..|rows| - 1], rows[|rows| - 1];
      FoldAccounts(init);
      assert ValidEntry(e);
      var p := Folded(init).value;
      match e
      case Buy(quantity, price, fee) =>
        GrossIsPositive(quantity, price);
      case Sell(quantity, price, fee) =>
        PartIsWithin(p.cost, p.quantity, quantity);
        ShareIsWithin(p.yieldBalance, p.quantity, quantity);
      case Dividend(_) =>
      case Yield(_) =>
      case Fee(_) =>
    }
  }

  // --- when a ledger folds -----------------------------------------------------------------

  /** The row is covered by what is held before it. */
  predicate Covered(held: real, e: Entry) {
    match e
    case Sell(quantity, _, _) => quantity <= held
    case Yield(_) => held > 0.0
    case _ => true
  }

  /** No prefix oversells, and every yield has a holding. */
  ghost predicate NeverOversells(rows: seq<Entry>) {
    forall i | 0 <= i < |rows| :: Covered(Held(rows[..i]), rows[i])
  }

  /** A ledger folds exactly when no prefix oversells and every yield has a holding. */
  lemma {:induction false} FoldsIff(rows: seq<Entry>)
    requires forall e | e in rows :: ValidEntry(e)
    ensures Folded(rows).Some? <==> NeverOversells(rows)
  {
    if rows != [] {
      hide Apply, Held, Covered, NeverOversells;
      var init, e := rows[..|rows| - 1], rows[|rows| - 1];
      FoldsIff(init);
      assert ValidEntry(e);
      assert rows == init + [e];
      NeverOversellsAppend(init, e);
      if Folded(init).Some? {
        FoldAccounts(init);
        AppliesIff(Folded(init).value, e);
      }
    }
  }

  lemma AppliesIff(p: Position, e: Entry)
    requires ValidEntry(e)
    ensures Apply(p, e).Some? <==> Covered(p.quantity, e)
  {
    hide Gross, AtAverage, Kept;
  }

  lemma NeverOversellsAppend(init: seq<Entry>, e: Entry)
    ensures NeverOversells(init + [e]) <==> NeverOversells(init) && Covered(Held(init), e)
  {
    hide Held, Covered;
    var rows := init + [e];
    assert rows[..|init|] == init && rows[|init|] == e;
    assert forall i | 0 <= i < |init| :: init[..i] == rows[..i] && init[i] == rows[i];
    if NeverOversells(rows) {
      forall i | 0 <= i < |init| ensures Covered(Held(init[..i]), init[i]) {
        assert Covered(Held(rows[..i]), rows[i]);
      }
    }
  }

  lemma {:induction false} HeldConcat(a: seq<Entry>, b: seq<Entry>)
    ensures Held(a + b) == Held(a) + Held(b)
  {
    if b == [] {
      assert a + b == a;
    } else {
      assert (a + b)[..|a + b| - 1] == a + b[..|b| - 1];
      HeldConcat(a, b[..|b| - 1]);
    }
  }

  lemma HeldOne(e: Entry)
    ensures Held([e]) == match e case Buy(quantity, _, _) => quantity case Sell(quantity, _, _) => -quantity case _ => 0.0
  {
    assert [e][..0] == [];
  }

  /** More is held before every row of `b` in `more + b` than in `less + b`. */
  lemma MoreHeldStillCovers(less: seq<Entry>, more: seq<Entry>, b: seq<Entry>)
    requires Held(less) <= Held(more) && NeverOversells(less + b) && NeverOversells(more)
    ensures NeverOversells(more + b)
  {
    forall i | 0 <= i < |more + b| ensures Covered(Held((more + b)[..i]), (more + b)[i]) {
      if i < |more| {
        assert (more + b)[..i] == more[..i];
        assert Covered(Held(more[..i]), more[i]);
      } else {
        var k := i - |more|;
        assert (more + b)[..i] == more + b[..k] && (less + b)[..|less| + k] == less + b[..k];
        assert (less + b)[|less| + k] == b[k] && (more + b)[i] == b[k];
        assert Covered(Held((less + b)[..|less| + k]), (less + b)[|less| + k]);
        HeldConcat(more, b[..k]);
        HeldConcat(less, b[..k]);
      }
    }
  }

  lemma PrefixNeverOversells(a: seq<Entry>, b: seq<Entry>)
    requires NeverOversells(a + b)
    ensures NeverOversells(a)
  {
    forall i | 0 <= i < |a| ensures Covered(Held(a[..i]), a[i]) {
      assert (a + b)[..i] == a[..i] && (a + b)[i] == a[i];
      assert Covered(Held((a + b)[..i]), (a + b)[i]);
    }
  }

  /** Inserting a buy anywhere in a ledger that folds keeps it folding. */
  lemma InsertedBuyFolds(a: seq<Entry>, b: seq<Entry>, e: Entry)
    requires (forall x | x in a + b :: ValidEntry(x)) && ValidEntry(e) && e.Buy?
    requires Folded(a + b).Some?
    ensures Folded(a + [e] + b).Some?
  {
    FoldsIff(a + b);
    PrefixNeverOversells(a, b);
    HeldConcat(a, [e]);
    HeldOne(e);
    assert NeverOversells(a + [e]) by {
      forall i | 0 <= i < |a + [e]| ensures Covered(Held((a + [e])[..i]), (a + [e])[i]) {
        if i < |a| {
          assert (a + [e])[..i] == a[..i];
        }
      }
    }
    MoreHeldStillCovers(a, a + [e], b);
    forall x | x in a + [e] + b ensures ValidEntry(x) {
      assert x in a + b || x == e;
    }
    FoldsIff(a + [e] + b);
  }

  /** So does removing a sell. */
  lemma RemovedSellFolds(a: seq<Entry>, b: seq<Entry>, e: Entry)
    requires (forall x | x in a + [e] + b :: ValidEntry(x)) && e.Sell?
    requires Folded(a + [e] + b).Some?
    ensures Folded(a + b).Some?
  {
    FoldsIff(a + [e] + b);
    assert e in a + [e] + b;
    PrefixNeverOversells(a + [e], b);
    PrefixNeverOversells(a, [e]);
    HeldConcat(a, [e]);
    HeldOne(e);
    MoreHeldStillCovers(a + [e], a, b);
    forall x | x in a + b ensures ValidEntry(x) {
      assert x in a + [e] + b;
    }
    FoldsIff(a + b);
  }

  // --- what a sell takes ---------------------------------------------------------------------

  /** A sell leaves the cost of a unit and the yield of a unit as they were; what
      it earns is its proceeds less what the units it takes away had cost. */
  lemma SellKeepsAverages(p: Position, quantity: real, price: real, fee: real)
    requires p.quantity > 0.0 && 0.0 < quantity <= p.quantity
    ensures var r := Apply(p, Sell(quantity, price, fee));
      && r.Some?
      && r.value.cost * p.quantity == p.cost * r.value.quantity
      && r.value.yieldBalance * p.quantity == p.yieldBalance * r.value.quantity
      && (r.value.quantity > 0.0 ==>
            r.value.realizedGain - p.realizedGain == quantity * price - fee - (p.cost - r.value.cost))
      && (r.value.quantity == 0.0 ==> r.value.realizedGain - p.realizedGain == quantity * price - fee - p.cost)
  {
    var left := p.quantity - quantity;
    SplitsAtAverage(p.cost, p.quantity, quantity);
    ShareStays(p.yieldBalance, p.quantity, left);
  }

  lemma SplitsAtAverage(cost: real, held: real, sold: real)
    requires held > 0.0
    ensures (cost - AtAverage(cost, held, sold)) * held == cost * (held - sold)
    ensures sold == held ==> AtAverage(cost, held, sold) == cost
  {
    var average := cost / held;
    assert average * held == cost;
    assert (cost - average * sold) * held == cost * held - (average * held) * sold;
  }

  lemma ShareStays(balance: real, held: real, left: real)
    requires held > 0.0
    ensures balance * (left / held) * held == balance * left
  {
    var share := left / held;
    assert share * held == left;
    assert balance * share * held == balance * (share * held);
  }

  function Dividends(rows: seq<Entry>): real {
    if rows == [] then 0.0 else
    Dividends(rows[..|rows| - 1]) + if rows[|rows| - 1].Dividend? then rows[|rows| - 1].amount else 0.0
  }

  function Fees(rows: seq<Entry>): real {
    if rows == [] then 0.0 else
    Fees(rows[..|rows| - 1]) + if rows[|rows| - 1].Fee? then rows[|rows| - 1].amount else 0.0
  }

  predicate HasSell(rows: seq<Entry>) {
    exists e | e in rows :: e.Sell?
  }

  /** What is bought, received and paid adds up: dividends and fees are the sums
      of theirs, and until something is sold nothing is earned and all yields stay. */
  lemma {:induction false} TalliesAreSums(rows: seq<Entry>)
    requires Folded(rows).Some?
    ensures var p := Folded(rows).value;
      && p.dividendIncome == Dividends(rows) && p.feesPaid == Fees(rows)
      && (!HasSell(rows) ==> p.realizedGain == 0.0 && p.cost == BuyOutlay(rows) && p.yieldBalance == Yields(rows))
  {
    hide Gross, AtAverage, Kept;
    if rows != [] {
      var init, e := rows[..|rows| - 1], rows[|rows| - 1];
      TalliesAreSums(init);
      assert e in rows && forall x | x in init :: x in rows;
    }
  }

  function Yields(rows: seq<Entry>): real {
    if rows == [] then 0.0 else
    Yields(rows[..|rows| - 1]) + if rows[|rows| - 1].Yield? then rows[|rows| - 1].amount else 0.0
  }
}
