/** Account balances month by month, with running totals. */
module BalanceTrend {
  import opened Wrappers
  import opened Calendar
  import opened Ledger

  datatype Owned = Owned(id: nat, opening: int)

  /** A balance at the end of month number `month`. */
  datatype Point = Point(month: int, account: nat, balance: int)

  /** The legs of an account dated before month number `n`. */
  function SumBefore(legs: seq<Leg>, account: nat, n: int): int {
    if legs == [] then 0 else
    var leg := legs[|legs| - 1];
    SumBefore(legs[..|legs| - 1], account, n)
    + if leg.account == account && MonthIndex(leg.date) < n then leg.delta else 0
  }

  /** The legs of an account dated in month number `n`. */
  function SumIn(legs: seq<Leg>, account: nat, n: int): int {
    if legs == [] then 0 else
    var leg := legs[|legs| - 1];
    SumIn(legs[..|legs| - 1], account, n)
    + if leg.account == account && MonthIndex(leg.date) == n then leg.delta else 0
  }

  /** A month's total as the grouped query returns it: nothing outside the
      months from the first to the last requested. */
  function Grouped(legs: seq<Leg>, account: nat, months: seq<int>, n: int): int
    requires months != []
  {
    if months[0] <= n <= months[|months| - 1] then SumIn(legs, account, n) else 0
  }

  /** The running balance after the first `k` requested months. */
  function Running(legs: seq<Leg>, account: Owned, months: seq<int>, k: nat): int
    requires months != [] && k <= |months|
  {
    if k == 0 then account.opening + SumBefore(legs, account.id, months[0])
    else Running(legs, account, months, k - 1) + Grouped(legs, account.id, months, months[k - 1])
  }

  ghost predicate DistinctIds(accounts: seq<Owned>) {
    forall i, j | 0 <= i < j < |accounts| :: accounts[i].id != accounts[j].id
  }

  ghost predicate GapFree(months: seq<int>) {
    forall i | 0 <= i < |months| - 1 :: months[i + 1] == months[i] + 1
  }

  /** `points` lists the running balances of the first `n` months, account by account. */
  ghost predicate Filled(points: seq<Point>, legs: seq<Leg>, accounts: seq<Owned>, months: seq<int>, n: nat)
    requires n <= |months| && months != []
  {
    && |points| == n * |accounts|
    && forall i, j | 0 <= i < n && 0 <= j < |accounts| :: PointAt(points, legs, accounts, months, i, j)
  }

  ghost predicate PointAt(points: seq<Point>, legs: seq<Leg>, accounts: seq<Owned>, months: seq<int>, i: nat, j: nat)
    requires i < |months| && j < |accounts|
  {
    var k := i * |accounts| + j;
    0 <= k < |points| && points[k] == Point(months[i], accounts[j].id, Running(legs, accounts[j], months, i + 1))
  }

  /** The point of month `i` and account `j` is that account's balance as of that month's end. */
  ghost predicate BalanceAt(points: seq<Point>, txs: seq<Tx>, positions: seq<Position>, accounts: seq<Owned>, months: seq<int>, i: nat, j: nat)
    requires i < |months| && j < |accounts|
  {
    var k := i * |accounts| + j;
    0 <= k < |points| && points[k] == Point(months[i], accounts[j].id,
      Balance(txs, positions, accounts[j].id, accounts[j].opening, Some(OnDay(months[i], 31))))
  }

  method AccountBalanceTrend(txs: seq<Tx>, positions: seq<Position>, accounts: seq<Owned>, months: seq<int>)
    returns (points: seq<Point>)
    requires DistinctIds(accounts)
    ensures |points| == |months| * |accounts|
    ensures forall i, j | 0 <= i < |months| && 0 <= j < |accounts| ::
      PointAt(points, Legs(txs, positions), accounts, months, i, j)
    ensures GapFree(months) ==> forall i, j | 0 <= i < |months| && 0 <= j < |accounts| ::
      BalanceAt(points, txs, positions, accounts, months, i, j)
  {
    points := [];
    if months == [] || accounts == [] {
      assert |months| * |accounts| == 0;
      return;
    }
    hide Legs, IsDate, SumIn, SumBefore, Grouped, OnDay, Balance, PointAt;
    var legs := Legs(txs, positions);
    var running: map<nat, int> := map[];
    for j := 0 to |accounts|
      invariant forall i | 0 <= i < j :: accounts[i].id in running && running[accounts[i].id] == Running(legs, accounts[i], months, 0)
    {
      running := running[accounts[j].id := accounts[j].opening + SumBefore(legs, accounts[j].id, months[0])];
    }
    for i := 0 to |months|
      invariant Runs(running, legs, accounts, months, i)
      invariant Filled(points, legs, accounts, months, i)
    {
      hide Runs, Filled, Running;
      var more;
      running, more := AddMonth(running, legs, accounts, months, i);
      FilledMore(points, more, legs, accounts, months, i);
      points := points + more;
    }
    if GapFree(months) {
      forall i, j | 0 <= i < |months| && 0 <= j < |accounts| ensures BalanceAt(points, txs, positions, accounts, months, i, j) {
        assert PointAt(points, legs, accounts, months, i, j);
        PointIsBalance(points, txs, positions, accounts, months, i, j);
      }
    }
  }

  /** Every account's running balance after the first `k` months. */
  ghost predicate Runs(running: map<nat, int>, legs: seq<Leg>, accounts: seq<Owned>, months: seq<int>, k: nat)
    requires months != [] && k <= |months|
  {
    forall j | 0 <= j < |accounts| :: accounts[j].id in running && running[accounts[j].id] == Running(legs, accounts[j], months, k)
  }

  method AddMonth(running0: map<nat, int>, legs: seq<Leg>, accounts: seq<Owned>, months: seq<int>, i: nat)
    returns (running: map<nat, int>, points: seq<Point>)
    requires DistinctIds(accounts) && i < |months| && Runs(running0, legs, accounts, months, i)
    ensures Runs(running, legs, accounts, months, i + 1)
    ensures |points| == |accounts|
    ensures forall j | 0 <= j < |accounts| :: points[j] == Point(months[i], accounts[j].id, Running(legs, accounts[j], months, i + 1))
  {
    hide Grouped, SumBefore;
    running, points := running0, [];
    for j := 0 to |accounts|
      invariant forall l | j <= l < |accounts| :: accounts[l].id in running && running[accounts[l].id] == Running(legs, accounts[l], months, i)
      invariant forall l | 0 <= l < j :: accounts[l].id in running && running[accounts[l].id] == Running(legs, accounts[l], months, i + 1)
      invariant |points| == j
      invariant forall l | 0 <= l < j :: points[l] == Point(months[i], accounts[l].id, Running(legs, accounts[l], months, i + 1))
    {
      var account := accounts[j];
      running := running[account.id := running[account.id] + Grouped(legs, account.id, months, months[i])];
      points := points + [Point(months[i], account.id, running[account.id])];
    }
  }

  lemma FilledMore(points: seq<Point>, more: seq<Point>, legs: seq<Leg>, accounts: seq<Owned>, months: seq<int>, n: nat)
    requires n < |months| && |more| == |accounts| && Filled(points, legs, accounts, months, n)
    requires forall j | 0 <= j < |accounts| :: more[j] == Point(months[n], accounts[j].id, Running(legs, accounts[j], months, n + 1))
    ensures Filled(points + more, legs, accounts, months, n + 1)
  {
    hide Running;
    assert (n + 1) * |accounts| == n * |accounts| + |accounts|;
    forall i, j | 0 <= i < n + 1 && 0 <= j < |accounts| ensures PointAt(points + more, legs, accounts, months, i, j) {
      if i < n {
        assert PointAt(points, legs, accounts, months, i, j);
      } else {
        assert (points + more)[n * |accounts| + j] == more[j];
      }
    }
  }

  lemma PointIsBalance(points: seq<Point>, txs: seq<Tx>, positions: seq<Position>, accounts: seq<Owned>, months: seq<int>, i: nat, j: nat)
    requires GapFree(months) && i < |months| && j < |accounts|
    requires PointAt(points, Legs(txs, positions), accounts, months, i, j)
    ensures BalanceAt(points, txs, positions, accounts, months, i, j)
  {
    hide Running, Balance, Legs, OnDay, IsDate;
    RunningIsBalance(txs, positions, accounts[j], months, i + 1);
  }

  // --- the running form is the simple form -----------------------------------------------

  lemma {:induction false} MonthByMonth(legs: seq<Leg>, account: nat, n: int)
    ensures SumBefore(legs, account, n + 1) == SumBefore(legs, account, n) + SumIn(legs, account, n)
  {
    hide IsDate;
    if legs != [] {
      MonthByMonth(legs[..|legs| - 1], account, n);
    }
  }

  lemma {:induction false} UpToMonthEnd(legs: seq<Leg>, account: nat, n: int)
    ensures LegSum(legs, Scope(account, None, Some(OnDay(n, 31)))) == SumBefore(legs, account, n + 1)
  {
    hide OnDay, IsDate;
    if legs != [] {
      UpToMonthEnd(legs[..|legs| - 1], account, n);
      MonthEnd(legs[|legs| - 1].date, n);
    }
  }

  /** A date is at most the last day of month `n` exactly when its month is at most `n`. */
  lemma MonthEnd(d: Date, n: int)
    ensures AtMost(d, OnDay(n, 31)) <==> MonthIndex(d) <= n
  {
    OnDayFacts(n, 31);
    if MonthIndex(d) == n {
      assert OnDay(n, 31).year == d.year && OnDay(n, 31).month == d.month;
    }
  }

  lemma {:induction false} RunningIsSum(legs: seq<Leg>, account: Owned, months: seq<int>, k: nat)
    requires months != [] && GapFree(months) && 1 <= k <= |months|
    ensures months[0] <= months[k - 1] <= months[|months| - 1]
    ensures Running(legs, account, months, k) == account.opening + SumBefore(legs, account.id, months[k - 1] + 1)
  {
    hide SumIn, SumBefore;
    Steps(months, 0, k - 1);
    Steps(months, k - 1, |months| - 1);
    MonthByMonth(legs, account.id, months[k - 1]);
    if k == 1 {
      assert Running(legs, account, months, 1) == Running(legs, account, months, 0) + Grouped(legs, account.id, months, months[0]);
    } else {
      RunningIsSum(legs, account, months, k - 1);
      assert months[k - 1] == months[k - 2 + 1];
    }
  }

  lemma {:induction false} Steps(months: seq<int>, i: nat, j: nat)
    requires GapFree(months) && i <= j < |months|
    ensures months[j] == months[i] + (j - i)
    decreases j - i
  {
    if i < j {
      Steps(months, i, j - 1);
      assert months[j - 1 + 1] == months[j - 1] + 1;
    }
  }

  /** For every gap-free ascending list of months, each running balance is the
      account's balance as of that month's end. */
  lemma RunningIsBalance(txs: seq<Tx>, positions: seq<Position>, account: Owned, months: seq<int>, k: nat)
    requires months != [] && GapFree(months) && 1 <= k <= |months|
    ensures Running(Legs(txs, positions), account, months, k)
         == Balance(txs, positions, account.id, account.opening, Some(OnDay(months[k - 1], 31)))
  {
    RunningIsSum(Legs(txs, positions), account, months, k);
    UpToMonthEnd(Legs(txs, positions), account.id, months[k - 1]);
  }
}
