/** Deleting accounts with everything that depends on them. */
module CascadeDelete {
  import opened Wrappers
  import opened Store
  import opened UndoExactness

  // --- the application's foreign keys ---------------------------------------------

  function References(table: Table, col: Column): Option<ForeignKey> {
    match (table, col)
    case (Accounts, InstitutionId) => Some(ForeignKey(Institutions, Restrict))
    case (Accounts, PaymentAccountId) => Some(ForeignKey(Accounts, Restrict))
    case (Categories, GroupId) => Some(ForeignKey(CategoryGroups, Restrict))
    case (CategorizationRules, CategoryId) => Some(ForeignKey(Categories, Cascade))
    case (Budgets, GroupId) => Some(ForeignKey(CategoryGroups, Restrict))
    case (BudgetAllocations, GroupId) => Some(ForeignKey(CategoryGroups, Restrict))
    case (RecurringRules, TemplateAccountId) => Some(ForeignKey(Accounts, Restrict))
    case (RecurringRules, TemplateToAccountId) => Some(ForeignKey(Accounts, Restrict))
    case (RecurringRules, TemplateCategoryId) => Some(ForeignKey(Categories, Restrict))
    case (Loans, CategoryId) => Some(ForeignKey(Categories, Restrict))
    case (Loans, PaymentAccountId) => Some(ForeignKey(Accounts, Restrict))
    case (Goals, AccountId) => Some(ForeignKey(Accounts, Restrict))
    case (Transactions, AccountId) => Some(ForeignKey(Accounts, Restrict))
    case (Transactions, ToAccountId) => Some(ForeignKey(Accounts, Restrict))
    case (Transactions, CategoryId) => Some(ForeignKey(Categories, Restrict))
    case (Transactions, RecurringRuleId) => Some(ForeignKey(RecurringRules, SetNull))
    case (Transactions, LoanId) => Some(ForeignKey(Loans, SetNull))
    case (Reconciliations, AccountId) => Some(ForeignKey(Accounts, Restrict))
    case (ReconciliationEntries, ReconciliationId) => Some(ForeignKey(Reconciliations, Cascade))
    case (ReconciliationEntries, TransactionId) => Some(ForeignKey(Transactions, Cascade))
    case (ReconciliationEntries, AccountId) => Some(ForeignKey(Accounts, Restrict))
    case (InvestmentWallets, AccountId) => Some(ForeignKey(Accounts, Restrict))
    case (InvestmentWallets, CashAccountId) => Some(ForeignKey(Accounts, Restrict))
    case (InvestmentWallets, InstitutionId) => Some(ForeignKey(Institutions, Restrict))
    case (InvestmentTransactions, WalletId) => Some(ForeignKey(InvestmentWallets, Restrict))
    case (InvestmentTransactions, AssetId) => Some(ForeignKey(InvestmentAssets, Restrict))
    case (InvestmentTransactions, TransactionId) => Some(ForeignKey(Transactions, Restrict))
    case _ => None
  }

  /** ck_accounts_auto_pay_requires_account */
  predicate AutoPayHasSource(row: Row) {
    AutoPay in row.cols && row.cols[AutoPay] == Flag(true) ==>
      PaymentAccountId in row.cols && row.cols[PaymentAccountId] != Null
  }

  predicate AutoPayCheck(rows: Rows) {
    forall k | k in rows :: k.table == Accounts ==> AutoPayHasSource(rows[k])
  }

  /** The links that this operation, or an ON DELETE SET NULL, may clear. */
  predicate IsLink(table: Table, col: Column) {
    (table, col) in {(Accounts, PaymentAccountId), (Transactions, LoanId), (Transactions, RecurringRuleId)}
  }

  predicate LosesLinks(k: Key, row: Row, less: Row) {
    && less.owner == row.owner && less.cols.Keys == row.cols.Keys
    && forall col | col in row.cols ::
        || less.cols[col] == row.cols[col]
        || (IsLink(k.table, col) && less.cols[col] == Null)
        || (k.table == Accounts && col == UpdatedAt && less.cols[col] != Null)
  }

  /** `less` is `rows` without some rows and links, some accounts stamped anew. */
  ghost predicate Loses(rows: Rows, less: Rows) {
    less.Keys <= rows.Keys && forall k | k in less :: LosesLinks(k, rows[k], less[k])
  }

  /** A store with the application's foreign keys. Among its other constraints is
      that CHECK; the rest (a link may be null, and no row needs another one to
      exist) survive the loss of rows and links. */
  ghost predicate AppSchema(schema: Schema) {
    && (forall table, col :: schema.foreignKey(table, col) == References(table, col))
    && (forall rows | schema.accepts(rows) :: AutoPayCheck(rows))
    && (forall rows, less | schema.accepts(rows) && Loses(rows, less) && AutoPayCheck(less) :: schema.accepts(less))
  }

  // --- the sets each statement selects -----------------------------------------------

  /** Column `col` of row `k` holds the id of a row in `targets`. */
  predicate Points(k: Key, row: Row, col: Column, table: Table, targets: set<Key>) {
    col in row.cols && row.cols[col].Id? && Key(table, row.cols[col].id) in targets
  }

  function Owned(rows: Rows, user: User, table: Table): set<Key> {
    set k | k in rows && k.table == table && rows[k].owner == user
  }

  function TargetAccounts(rows: Rows, user: User, ids: set<nat>): set<Key> {
    set k | k in Owned(rows, user, Accounts) && k.id in ids
  }

  function ByAccount(rows: Rows, user: User, table: Table, col: Column, accounts: set<Key>): set<Key> {
    set k | k in Owned(rows, user, table) && Points(k, rows[k], col, Accounts, accounts)
  }

  function TargetWallets(rows: Rows, user: User, accounts: set<Key>): set<Key> {
    ByAccount(rows, user, InvestmentWallets, AccountId, accounts)
    + ByAccount(rows, user, InvestmentWallets, CashAccountId, accounts)
  }

  function TargetTransactions(rows: Rows, user: User, accounts: set<Key>): set<Key> {
    ByAccount(rows, user, Transactions, AccountId, accounts)
    + ByAccount(rows, user, Transactions, ToAccountId, accounts)
  }

  function TargetInvestmentTransactions(rows: Rows, user: User, wallets: set<Key>, transactions: set<Key>): set<Key> {
    set k | k in Owned(rows, user, InvestmentTransactions)
      && (Points(k, rows[k], WalletId, InvestmentWallets, wallets)
          || Points(k, rows[k], TransactionId, Transactions, transactions))
  }

  function TargetRules(rows: Rows, user: User, accounts: set<Key>): set<Key> {
    ByAccount(rows, user, RecurringRules, TemplateAccountId, accounts)
    + ByAccount(rows, user, RecurringRules, TemplateToAccountId, accounts)
  }

  /** Entries that ON DELETE CASCADE removes with `parents`. */
  function EntriesOf(rows: Rows, table: Table, col: Column, parents: set<Key>): set<Key> {
    set k | k in rows && k.table == ReconciliationEntries && Points(k, rows[k], col, table, parents)
  }

  /** Surviving accounts that are paid from a target account. */
  function PaidFromTargets(rows: Rows, user: User, ids: set<nat>): set<Key> {
    set k | k in Owned(rows, user, Accounts) && k.id !in ids
      && PaymentAccountId in rows[k].cols && rows[k].cols[PaymentAccountId].Id? && rows[k].cols[PaymentAccountId].id in ids
  }

  /** The DELETE statements that run before the accounts are touched, in order. */
  datatype Statement =
    | InvestmentTransactionRows | WalletRows | EntryRows | ReconciliationRows
    | TransactionRows | GoalRows | LoanRows | RuleRows

  const STATEMENTS: nat := 8

  function StatementAt(n: nat): Statement
    requires n < STATEMENTS
  {
    match n
    case 0 => InvestmentTransactionRows
    case 1 => WalletRows
    case 2 => EntryRows
    case 3 => ReconciliationRows
    case 4 => TransactionRows
    case 5 => GoalRows
    case 6 => LoanRows
    case _ => RuleRows
  }

  /** What a statement's subqueries select in the store `rows`. */
  function Selected(statement: Statement, rows: Rows, user: User, ids: set<nat>): set<Key> {
    var accounts := TargetAccounts(rows, user, ids);
    match statement
    case InvestmentTransactionRows =>
      TargetInvestmentTransactions(rows, user, TargetWallets(rows, user, accounts), TargetTransactions(rows, user, accounts))
    case WalletRows => TargetWallets(rows, user, accounts)
    case EntryRows => ByAccount(rows, user, ReconciliationEntries, AccountId, accounts)
    case ReconciliationRows => ByAccount(rows, user, Reconciliations, AccountId, accounts)
    case TransactionRows => TargetTransactions(rows, user, accounts)
    case GoalRows => ByAccount(rows, user, Goals, AccountId, accounts)
    case LoanRows => ByAccount(rows, user, Loans, PaymentAccountId, accounts)
    case RuleRows => TargetRules(rows, user, accounts)
  }

  /** The reconciliation entries that ON DELETE CASCADE takes along. */
  function Cascading(statement: Statement, rows: Rows, user: User, ids: set<nat>): set<Key> {
    match statement
    case ReconciliationRows => EntriesOf(rows, Reconciliations, ReconciliationId, Selected(statement, rows, user, ids))
    case TransactionRows => EntriesOf(rows, Transactions, TransactionId, Selected(statement, rows, user, ids))
    case _ => {}
  }

  /** What the first `n` statements remove. */
  function Removed(n: nat, rows: Rows, user: User, ids: set<nat>): set<Key>
    requires n <= STATEMENTS
  {
    if n == 0 then {} else
    Removed(n - 1, rows, user, ids)
    + (Selected(StatementAt(n - 1), rows, user, ids) + Cascading(StatementAt(n - 1), rows, user, ids))
  }

  /** Everything that goes before the accounts themselves. */
  function Dependents(rows: Rows, user: User, ids: set<nat>): set<Key> {
    Removed(STATEMENTS, rows, user, ids)
  }

  // --- one statement ---------------------------------------------------------------------

  /** A DELETE of `keys` removes exactly `gone` and breaks no reference. */
  lemma DeleteGoesThrough(schema: Schema, rows: Rows, keys: set<Key>, gone: set<Key>)
    requires keys <= gone <= rows.Keys
    requires forall k | k in gone && k !in keys :: AnyRefers(schema, k, rows[k], Cascade, keys)
    requires forall k | k in rows && k !in gone ::
      !AnyRefers(schema, k, rows[k], Cascade, gone) && !AnyRefers(schema, k, rows[k], Restrict, gone)
    requires schema.accepts(Without(schema, rows, gone))
    ensures DeleteResult(schema, rows, keys) == Ok(Without(schema, rows, gone))
  {
    DeletedProperties(schema, rows, keys);
    DeletedIsLeast(schema, rows, keys, gone);
    forall k | k in gone ensures k in Deleted(schema, rows, keys) {
      if k !in keys {
        var col :| col in rows[k].cols && Refers(schema, k, rows[k], col, Cascade, keys);
        assert Refers(schema, k, rows[k], col, Cascade, Deleted(schema, rows, keys));
      }
    }
    assert Deleted(schema, rows, keys) == gone;
  }

  /** Two deletions in a row leave what one deletion of both sets leaves. */
  lemma WithoutTwice(schema: Schema, rows: Rows, a: set<Key>, b: set<Key>)
    ensures Without(schema, Without(schema, rows, a), b) == Without(schema, rows, a + b)
  {
    var once := Without(schema, rows, a);
    var both := Without(schema, rows, a + b);
    forall k | k in both ensures Without(schema, once, b)[k] == both[k] {
      assert Cleared(schema, k, once[k], b).cols == both[k].cols;
    }
    assert Without(schema, once, b) == both;
  }

  /** Deleting rows and clearing links never touches a column that only a
      RESTRICT or CASCADE foreign key, or none, uses. */
  lemma PointsKept(schema: Schema, rows: Rows, gone: set<Key>, k: Key, col: Column, table: Table, targets: set<Key>)
    requires AppSchema(schema) && k in rows && k !in gone
    requires References(k.table, col).Some? ==> References(k.table, col).value.onDelete != SetNull
    ensures Points(k, Without(schema, rows, gone)[k], col, table, targets) == Points(k, rows[k], col, table, targets)
    ensures Without(schema, rows, gone)[k].owner == rows[k].owner
  {
  }

  lemma ByAccountKept(schema: Schema, rows: Rows, gone: set<Key>, user: User, table: Table, col: Column, accounts: set<Key>)
    requires AppSchema(schema)
    requires References(table, col).Some? ==> References(table, col).value.onDelete != SetNull
    ensures ByAccount(Without(schema, rows, gone), user, table, col, accounts) == ByAccount(rows, user, table, col, accounts) - gone
  {
    forall k | k in rows && k !in gone && k.table == table
      ensures k in ByAccount(Without(schema, rows, gone), user, table, col, accounts) <==> k in ByAccount(rows, user, table, col, accounts)
    {
      PointsKept(schema, rows, gone, k, col, Accounts, accounts);
    }
  }

  lemma TargetsKept(schema: Schema, rows: Rows, gone: set<Key>, user: User, ids: set<nat>)
    requires AppSchema(schema)
    ensures TargetAccounts(Without(schema, rows, gone), user, ids) == TargetAccounts(rows, user, ids) - gone
  {
  }

  /** No survivor of `gone` holds a RESTRICT or CASCADE reference into `keys`. */
  ghost predicate Unreferenced(schema: Schema, rows: Rows, gone: set<Key>, keys: set<Key>) {
    forall k | k in rows && k !in gone ::
      !AnyRefers(schema, k, rows[k], Cascade, keys) && !AnyRefers(schema, k, rows[k], Restrict, keys)
  }

  lemma ClearedLoses(schema: Schema, k: Key, row: Row, gone: set<Key>)
    requires AppSchema(schema)
    ensures LosesLinks(k, row, Cleared(schema, k, row, gone))
  {
    hide AutoPayCheck, Loses;
    var less := Cleared(schema, k, row, gone);
    forall col | col in row.cols && less.cols[col] != row.cols[col] ensures IsLink(k.table, col) && less.cols[col] == Null {
      assert Refers(schema, k, row, col, SetNull, gone);
    }
  }

  lemma WithoutLoses(schema: Schema, rows: Rows, gone: set<Key>)
    requires AppSchema(schema)
    ensures Loses(rows, Without(schema, rows, gone))
  {
    hide LosesLinks, Cleared, AutoPayCheck;
    var left := Without(schema, rows, gone);
    forall k | k in left ensures LosesLinks(k, rows[k], left[k]) {
      ClearedLoses(schema, k, rows[k], gone);
    }
  }

  lemma AutoPayKept(schema: Schema, rows: Rows, gone: set<Key>)
    requires AppSchema(schema) && AutoPayCheck(rows)
    ensures AutoPayCheck(Without(schema, rows, gone))
  {
    var left := Without(schema, rows, gone);
    forall k | k in left && k.table == Accounts ensures AutoPayHasSource(left[k]) {
      assert AutoPayHasSource(rows[k]);
    }
  }

  lemma ReferenceKept(schema: Schema, k: Key, row: Row, gone: set<Key>, action: OnDelete, keys: set<Key>)
    requires action != SetNull
    ensures AnyRefers(schema, k, Cleared(schema, k, row, gone), action, keys) == AnyRefers(schema, k, row, action, keys)
  {
    var left := Cleared(schema, k, row, gone);
    forall col | col in row.cols
      ensures Refers(schema, k, left, col, action, keys) == Refers(schema, k, row, col, action, keys)
    {
    }
  }

  /** One of the DELETE statements, run when `done` has already gone: it takes
      `keys` and the entries that cascade with them, and breaks nothing. */
  lemma StageDelete(schema: Schema, rows: Rows, done: set<Key>, keys: set<Key>, entries: set<Key>)
    requires AppSchema(schema) && schema.accepts(rows)
    requires keys !! done && keys <= rows.Keys && entries <= rows.Keys
    requires forall k | k in entries :: AnyRefers(schema, k, rows[k], Cascade, keys)
    requires Unreferenced(schema, rows, done + keys + entries, keys + entries)
    ensures keys <= Without(schema, rows, done).Keys
    ensures DeleteResult(schema, Without(schema, rows, done), keys) == Ok(Without(schema, rows, done + (keys + entries)))
  {
    var left := Without(schema, rows, done);
    var gone := (keys + entries) - done;
    forall k | k in left
      ensures k !in gone ==> !AnyRefers(schema, k, left[k], Cascade, gone) && !AnyRefers(schema, k, left[k], Restrict, gone)
      ensures k in gone && k !in keys ==> AnyRefers(schema, k, left[k], Cascade, keys)
    {
      ReferenceKept(schema, k, rows[k], done, Cascade, keys);
      if k !in gone {
        ReferenceKept(schema, k, rows[k], done, Cascade, gone);
        ReferenceKept(schema, k, rows[k], done, Restrict, gone);
        Wider(schema, k, rows[k], Cascade, gone, keys + entries);
        Wider(schema, k, rows[k], Restrict, gone, keys + entries);
      }
    }
    WithoutTwice(schema, rows, done, gone);
    assert done + gone == done + (keys + entries);
    AutoPayKept(schema, rows, done + gone);
    WithoutLoses(schema, rows, done + gone);
    DeleteGoesThrough(schema, left, keys, gone);
  }

  lemma Wider(schema: Schema, k: Key, row: Row, action: OnDelete, keys: set<Key>, more: set<Key>)
    requires keys <= more
    ensures AnyRefers(schema, k, row, action, keys) ==> AnyRefers(schema, k, row, action, more)
  {
    if AnyRefers(schema, k, row, action, keys) {
      var col :| col in row.cols && Refers(schema, k, row, col, action, keys);
      assert Refers(schema, k, row, col, action, more);
    }
  }

  // --- nothing that survives a statement refers to what it deletes ----------------------------

  /** Rows and what they refer to belong to one user. */
  ghost predicate OneOwner(schema: Schema, rows: Rows) {
    forall k, col | k in rows && col in rows[k].cols && Target(schema, k, rows[k], col).Some?
      && Target(schema, k, rows[k], col).value in rows ::
      rows[Target(schema, k, rows[k], col).value].owner == rows[k].owner
  }

  predicate InTable(keys: set<Key>, table: Table) {
    forall k | k in keys :: k.table == table
  }

  lemma Referrer(schema: Schema, k: Key, row: Row, action: OnDelete, keys: set<Key>, table: Table) returns (col: Column)
    requires AppSchema(schema) && InTable(keys, table) && AnyRefers(schema, k, row, action, keys)
    ensures col in row.cols && References(k.table, col) == Some(ForeignKey(table, action))
    ensures Points(k, row, col, table, keys)
    ensures Target(schema, k, row, col) == Some(Key(table, row.cols[col].id))
  {
    col :| col in row.cols && Refers(schema, k, row, col, action, keys);
  }

  predicate Referenced(table: Table) {
    table in {Institutions, CategoryGroups, Categories, Accounts, RecurringRules, Loans, Transactions,
              Reconciliations, InvestmentWallets, InvestmentAssets}
  }

  /** Nothing refers to the rows of most tables, and only SET NULL links lead
      to loans and recurring rules. */
  lemma LeafUnreferenced(schema: Schema, rows: Rows, gone: set<Key>, keys: set<Key>, table: Table)
    requires AppSchema(schema) && InTable(keys, table)
    requires !Referenced(table) || table == Loans || table == RecurringRules
    ensures Unreferenced(schema, rows, gone, keys)
  {
    forall k, action: OnDelete | k in rows && action != SetNull ensures !AnyRefers(schema, k, rows[k], action, keys) {
      if AnyRefers(schema, k, rows[k], action, keys) {
        var col := Referrer(schema, k, rows[k], action, keys, table);
        assert false;
      }
    }
  }

  lemma WalletsUnreferenced(schema: Schema, rows: Rows, user: User, gone: set<Key>, wallets: set<Key>, transactions: set<Key>)
    requires AppSchema(schema) && OneOwner(schema, rows) && wallets <= Owned(rows, user, InvestmentWallets)
    requires TargetInvestmentTransactions(rows, user, wallets, transactions) <= gone
    ensures Unreferenced(schema, rows, gone, wallets)
  {
    forall k, action: OnDelete | k in rows && k !in gone && action != SetNull
      ensures !AnyRefers(schema, k, rows[k], action, wallets)
    {
      if AnyRefers(schema, k, rows[k], action, wallets) {
        var col := Referrer(schema, k, rows[k], action, wallets, InvestmentWallets);
        assert false;
      }
    }
  }

  lemma ParentsUnreferenced(schema: Schema, rows: Rows, user: User, gone: set<Key>, table: Table, col: Column,
                            parents: set<Key>, wallets: set<Key>)
    requires AppSchema(schema) && OneOwner(schema, rows) && parents <= Owned(rows, user, table)
    requires (table, col) in {(Reconciliations, ReconciliationId), (Transactions, TransactionId)}
    requires EntriesOf(rows, table, col, parents) <= gone
    requires table == Transactions ==> TargetInvestmentTransactions(rows, user, wallets, parents) <= gone
    ensures Unreferenced(schema, rows, gone, parents + EntriesOf(rows, table, col, parents))
  {
    var entries := EntriesOf(rows, table, col, parents);
    assert InTable(parents, table) && InTable(entries, ReconciliationEntries);
    LeafUnreferenced(schema, rows, gone, entries, ReconciliationEntries);
    hide AnyRefers;
    forall k, action: OnDelete | k in rows && k !in gone && action != SetNull
      ensures !AnyRefers(schema, k, rows[k], action, parents + entries)
    {
      if AnyRefers(schema, k, rows[k], action, parents) {
        var link := Referrer(schema, k, rows[k], action, parents, table);
        assert false;
      }
      Either(schema, k, rows[k], action, parents, entries);
    }
  }

  lemma Either(schema: Schema, k: Key, row: Row, action: OnDelete, a: set<Key>, b: set<Key>)
    ensures AnyRefers(schema, k, row, action, a + b) ==> AnyRefers(schema, k, row, action, a) || AnyRefers(schema, k, row, action, b)
  {
    if AnyRefers(schema, k, row, action, a + b) {
      var col :| col in row.cols && Refers(schema, k, row, col, action, a + b);
      assert Refers(schema, k, row, col, action, a) || Refers(schema, k, row, col, action, b);
    }
  }

  lemma EntriesCascade(schema: Schema, rows: Rows, table: Table, col: Column, parents: set<Key>)
    requires AppSchema(schema)
    requires (table, col) in {(Reconciliations, ReconciliationId), (Transactions, TransactionId)}
    ensures forall k | k in EntriesOf(rows, table, col, parents) :: AnyRefers(schema, k, rows[k], Cascade, parents)
  {
    forall k | k in EntriesOf(rows, table, col, parents) ensures AnyRefers(schema, k, rows[k], Cascade, parents) {
      assert Refers(schema, k, rows[k], col, Cascade, parents);
    }
  }

  function TableOf(statement: Statement): Table {
    match statement
    case InvestmentTransactionRows => InvestmentTransactions
    case WalletRows => InvestmentWallets
    case EntryRows => ReconciliationEntries
    case ReconciliationRows => Reconciliations
    case TransactionRows => Transactions
    case GoalRows => Goals
    case LoanRows => Loans
    case RuleRows => RecurringRules
  }

  lemma SelectedTables(statement: Statement, rows: Rows, user: User, ids: set<nat>)
    ensures Selected(statement, rows, user, ids) <= Owned(rows, user, TableOf(statement))
    ensures InTable(Cascading(statement, rows, user, ids), ReconciliationEntries)
    ensures Cascading(statement, rows, user, ids) <= rows.Keys
    ensures Rank(TableOf(statement)) <= 2 ==> Cascading(statement, rows, user, ids) == {}
  {
  }

  /** The place of a table in the order of the statements. */
  function Rank(table: Table): nat {
    match table
    case InvestmentTransactions => 0
    case InvestmentWallets => 1
    case ReconciliationEntries => 2
    case Reconciliations => 3
    case Transactions => 4
    case Goals => 5
    case Loans => 6
    case RecurringRules => 7
    case _ => 8
  }

  lemma {:induction false} RemovedRanks(n: nat, rows: Rows, user: User, ids: set<nat>)
    requires n <= STATEMENTS
    ensures forall k | k in Removed(n, rows, user, ids) :: k in rows && Rank(k.table) < n
  {
    hide Selected, Cascading;
    if n > 0 {
      RemovedRanks(n - 1, rows, user, ids);
      SelectedTables(StatementAt(n - 1), rows, user, ids);
    }
  }

  lemma {:induction false} SelectedIsRemoved(i: nat, n: nat, rows: Rows, user: User, ids: set<nat>)
    requires i < n <= STATEMENTS
    ensures Selected(StatementAt(i), rows, user, ids) + Cascading(StatementAt(i), rows, user, ids) <= Removed(n, rows, user, ids)
  {
    hide Selected, Cascading;
    if i < n - 1 {
      SelectedIsRemoved(i, n - 1, rows, user, ids);
    }
  }

  lemma RemovedElsewhere(n: nat, rows: Rows, user: User, ids: set<nat>)
    requires n < STATEMENTS
    ensures Selected(StatementAt(n), rows, user, ids) !! Removed(n, rows, user, ids)
    ensures forall k | k in Removed(n, rows, user, ids) :: k in rows && k.table != Accounts
    ensures n > 0 ==> Selected(InvestmentTransactionRows, rows, user, ids) <= Removed(n, rows, user, ids)
  {
    hide Selected, Removed, Cascading;
    RemovedRanks(n, rows, user, ids);
    SelectedTables(StatementAt(n), rows, user, ids);
    if n > 0 {
      SelectedIsRemoved(0, n, rows, user, ids);
    }
  }

  /** The subqueries of statement `n`, re-evaluated when the statements before
      it have run, select exactly what they would have selected at the start. */
  lemma SelectionKept(schema: Schema, n: nat, rows: Rows, user: User, ids: set<nat>)
    requires AppSchema(schema) && n < STATEMENTS
    ensures Selected(StatementAt(n), Without(schema, rows, Removed(n, rows, user, ids)), user, ids)
         == Selected(StatementAt(n), rows, user, ids)
  {
    hide Removed, Without, ByAccount, TargetAccounts, TargetInvestmentTransactions;
    var done := Removed(n, rows, user, ids);
    var left := Without(schema, rows, done);
    var accounts := TargetAccounts(rows, user, ids);
    RemovedElsewhere(n, rows, user, ids);
    TargetsKept(schema, rows, done, user, ids);
    assert TargetAccounts(left, user, ids) == accounts by {
      assert forall k | k in accounts :: k.table == Accounts by {
        OfTable(rows, user, ids);
      }
    }
    match StatementAt(n)
    case InvestmentTransactionRows =>
      StartsEmpty(rows, user, ids);
      WithoutNothing(schema, rows);
    case WalletRows =>
      ByAccountKept(schema, rows, done, user, InvestmentWallets, AccountId, accounts);
      ByAccountKept(schema, rows, done, user, InvestmentWallets, CashAccountId, accounts);
    case EntryRows => ByAccountKept(schema, rows, done, user, ReconciliationEntries, AccountId, accounts);
    case ReconciliationRows => ByAccountKept(schema, rows, done, user, Reconciliations, AccountId, accounts);
    case TransactionRows =>
      ByAccountKept(schema, rows, done, user, Transactions, AccountId, accounts);
      ByAccountKept(schema, rows, done, user, Transactions, ToAccountId, accounts);
    case GoalRows => ByAccountKept(schema, rows, done, user, Goals, AccountId, accounts);
    case LoanRows => ByAccountKept(schema, rows, done, user, Loans, PaymentAccountId, accounts);
    case RuleRows =>
      ByAccountKept(schema, rows, done, user, RecurringRules, TemplateAccountId, accounts);
      ByAccountKept(schema, rows, done, user, RecurringRules, TemplateToAccountId, accounts);
  }

  lemma OfTable(rows: Rows, user: User, ids: set<nat>)
    ensures InTable(TargetAccounts(rows, user, ids), Accounts)
  {
  }

  lemma WithoutNothing(schema: Schema, rows: Rows)
    ensures Without(schema, rows, {}) == rows
  {
    forall k | k in rows ensures Without(schema, rows, {})[k] == rows[k] {
      assert Without(schema, rows, {})[k].cols == rows[k].cols;
    }
  }

  /** Statement `n` breaks no reference. */
  lemma StatementUnreferenced(schema: Schema, n: nat, rows: Rows, user: User, ids: set<nat>)
    requires AppSchema(schema) && OneOwner(schema, rows) && n < STATEMENTS
    ensures var keys := Selected(StatementAt(n), rows, user, ids);
      var entries := Cascading(StatementAt(n), rows, user, ids);
      && Unreferenced(schema, rows, Removed(n, rows, user, ids) + keys + entries, keys + entries)
      && forall k | k in entries :: AnyRefers(schema, k, rows[k], Cascade, keys)
  {
    hide AnyRefers, ByAccount, TargetInvestmentTransactions, EntriesOf, TargetAccounts, OneOwner;
    var st := StatementAt(n);
    var keys := Selected(st, rows, user, ids);
    var entries := Cascading(st, rows, user, ids);
    var gone := Removed(n, rows, user, ids) + keys + entries;
    var accounts := TargetAccounts(rows, user, ids);
    var wallets := TargetWallets(rows, user, accounts);
    var transactions := TargetTransactions(rows, user, accounts);
    SelectedTables(st, rows, user, ids);
    RemovedElsewhere(n, rows, user, ids);
    match st
    case WalletRows =>
      SelectedTables(WalletRows, rows, user, ids);
      WalletsUnreferenced(schema, rows, user, gone, keys, transactions);
      assert keys + entries == keys;
    case ReconciliationRows =>
      EntriesCascade(schema, rows, Reconciliations, ReconciliationId, keys);
      ParentsUnreferenced(schema, rows, user, gone, Reconciliations, ReconciliationId, keys, wallets);
    case TransactionRows =>
      EntriesCascade(schema, rows, Transactions, TransactionId, keys);
      ParentsUnreferenced(schema, rows, user, gone, Transactions, TransactionId, keys, wallets);
    case _ =>
      LeafUnreferenced(schema, rows, gone, keys, TableOf(st));
      assert keys + entries == keys;
  }

  /** An account with its payment link cleared; the statement also stamps the
      time it was modified. */
  function Unlink(row: Row, now: string): Row {
    var cols := row.cols[PaymentAccountId := Null];
    Row(row.owner, if UpdatedAt in cols then cols[UpdatedAt := Text(now)] else cols)
  }

  /** `rows` with the payment links of surviving accounts to target accounts cleared. */
  function Unlinked(rows: Rows, user: User, ids: set<nat>, now: string): Rows {
    map k | k in rows :: if k in PaidFromTargets(rows, user, ids) then Unlink(rows[k], now) else rows[k]
  }

  /** A row with a RESTRICT reference to a target account is one of the
      dependents, except for an account's payment link. */
  lemma LinkedIsDependent(schema: Schema, rows: Rows, user: User, ids: set<nat>, k: Key, col: Column)
    requires AppSchema(schema) && OneOwner(schema, rows) && k in rows
    requires References(k.table, col) == Some(ForeignKey(Accounts, Restrict))
    requires Points(k, rows[k], col, Accounts, TargetAccounts(rows, user, ids))
    ensures rows[k].owner == user
    ensures k.table != Accounts ==> k in Dependents(rows, user, ids)
    ensures k.table == Accounts && k.id !in ids ==> k in PaidFromTargets(rows, user, ids)
  {
    hide Removed;
    var accounts := TargetAccounts(rows, user, ids);
    assert Target(schema, k, rows[k], col) == Some(Key(Accounts, rows[k].cols[col].id));
    assert rows[k].owner == user;
    if k.table != Accounts {
      assert k in ByAccount(rows, user, k.table, col, accounts);
      assert Rank(k.table) < STATEMENTS;
      SelectedIsRemoved(Rank(k.table), STATEMENTS, rows, user, ids);
    }
  }

  /** When the links are cleared and the dependents are gone, nothing refers to
      the accounts any more. */
  lemma AccountsUnreferenced(schema: Schema, rows: Rows, user: User, ids: set<nat>, now: string)
    requires AppSchema(schema) && OneOwner(schema, rows)
    ensures var accounts := TargetAccounts(rows, user, ids);
      Unreferenced(schema, Unlinked(rows, user, ids, now), Dependents(rows, user, ids) + accounts, accounts)
  {
    hide Removed, OneOwner;
    var accounts := TargetAccounts(rows, user, ids);
    var gone := Dependents(rows, user, ids) + accounts;
    var unlinked := Unlinked(rows, user, ids, now);
    OfTable(rows, user, ids);
    forall k, action: OnDelete | k in rows && k !in gone && action != SetNull
      ensures !AnyRefers(schema, k, unlinked[k], action, accounts)
    {
      if AnyRefers(schema, k, unlinked[k], action, accounts) {
        var col := Referrer(schema, k, unlinked[k], action, accounts, Accounts);
        LinkedIsDependent(schema, rows, user, ids, k, col);
        assert false;
      }
    }
  }

  // --- the operation ----------------------------------------------------------------------------

  /** The store after the deletion: the dependents and the accounts are gone,
      and the links to them are cleared. */
  function Survivors(schema: Schema, rows: Rows, user: User, ids: set<nat>, now: string): Rows {
    var accounts := TargetAccounts(rows, user, ids);
    Without(schema, Unlinked(rows, user, ids, now), Dependents(rows, user, ids) + accounts)
  }

  /** Some surviving auto-pay card is paid from an account that is to go. */
  predicate AutoPayOrphaned(rows: Rows, user: User, ids: set<nat>) {
    exists k | k in PaidFromTargets(rows, user, ids) :: AutoPay in rows[k].cols && rows[k].cols[AutoPay] == Flag(true)
  }

  predicate AllOwned(rows: Rows, user: User, ids: set<nat>) {
    forall id | id in ids :: Key(Accounts, id) in rows && rows[Key(Accounts, id)].owner == user
  }

  datatype DeleteOutcome = AccountsDeleted | AccountNotFound | Rejected(reason: Outcome)

  lemma UnlinkedProperties(schema: Schema, rows: Rows, user: User, ids: set<nat>, now: string)
    requires AutoPayCheck(rows)
    ensures Loses(rows, Unlinked(rows, user, ids, now))
    ensures AutoPayCheck(Unlinked(rows, user, ids, now)) <==> !AutoPayOrphaned(rows, user, ids)
  {
    var unlinked := Unlinked(rows, user, ids, now);
    forall k | k in rows && k.table == Accounts
      ensures AutoPayHasSource(unlinked[k]) <==>
        !(k in PaidFromTargets(rows, user, ids) && AutoPay in rows[k].cols && rows[k].cols[AutoPay] == Flag(true))
    {
      assert AutoPayHasSource(rows[k]);
    }
    if AutoPayOrphaned(rows, user, ids) {
      var k :| k in PaidFromTargets(rows, user, ids) && AutoPay in rows[k].cols && rows[k].cols[AutoPay] == Flag(true);
      assert !AutoPayHasSource(unlinked[k]);
    }
  }

  /** The new images that statement 8 writes. */
  function UpdatedLinks(rows: Rows, user: User, ids: set<nat>, now: string): Rows {
    map k | k in PaidFromTargets(rows, user, ids) :: Unlink(rows[k], now)
  }

  lemma LinksUpdated(schema: Schema, rows: Rows, user: User, ids: set<nat>, gone: set<Key>, now: string)
    requires AppSchema(schema) && forall k | k in gone :: k.table != Accounts
    ensures UpdatedLinks(Without(schema, rows, gone), user, ids, now).Keys <= Without(schema, rows, gone).Keys
    ensures Without(schema, rows, gone) + UpdatedLinks(Without(schema, rows, gone), user, ids, now)
         == Without(schema, Unlinked(rows, user, ids, now), gone)
  {
    var left := Without(schema, rows, gone);
    var updated := left + UpdatedLinks(left, user, ids, now);
    var unlinked := Without(schema, Unlinked(rows, user, ids, now), gone);
    forall k | k in left ensures updated[k] == unlinked[k] {
      if k.table == Accounts {
        AccountKept(schema, rows, gone, k);
        AccountKept(schema, Unlinked(rows, user, ids, now), gone, k);
      }
    }
    assert updated.Keys == unlinked.Keys;
  }

  /** So a DELETE of other rows leaves an account as it is. */
  lemma AccountKept(schema: Schema, rows: Rows, gone: set<Key>, k: Key)
    requires AppSchema(schema) && k in rows && k !in gone && k.table == Accounts
    ensures Without(schema, rows, gone)[k] == rows[k]
  {
    assert Without(schema, rows, gone)[k].cols == rows[k].cols;
  }

  // --- the operation, statement by statement -----------------------------------------------------

  /** The store rules that hold between transactions. */
  ghost predicate Sound(schema: Schema, rows: Rows) {
    AppSchema(schema) && schema.accepts(rows) && OneOwner(schema, rows) && Closed(schema, rows)
  }

  method DeleteSelected(db: Database, n: nat, user: User, ids: set<nat>, ghost rows: Rows)
    requires Sound(db.schema, rows) && n < STATEMENTS
    requires db.rows == Without(db.schema, rows, Removed(n, rows, user, ids))
    modifies db
    ensures db.rows == Without(db.schema, rows, Removed(n + 1, rows, user, ids))
  {
    hide Without, AnyRefers, Selected, Cascading;
    SelectionKept(db.schema, n, rows, user, ids);
    StatementUnreferenced(db.schema, n, rows, user, ids);
    RemovedElsewhere(n, rows, user, ids);
    SelectedTables(StatementAt(n), rows, user, ids);
    StageDelete(db.schema, rows, Removed(n, rows, user, ids), Selected(StatementAt(n), rows, user, ids),
                Cascading(StatementAt(n), rows, user, ids));
    var outcome := db.DeleteRows(Selected(StatementAt(n), db.rows, user, ids));
  }

  /** Deletes the accounts `ids` of `user` and everything that depends on them.
      A foreign key never stops it; only the auto-pay CHECK can. */
  method CascadeDeleteAccounts(db: Database, user: User, ids: set<nat>, now: string) returns (outcome: DeleteOutcome)
    requires Sound(db.schema, db.rows)
    modifies db
    ensures outcome.AccountNotFound? <==> !AllOwned(old(db.rows), user, ids)
    ensures outcome.AccountsDeleted? <==> AllOwned(old(db.rows), user, ids) && !AutoPayOrphaned(old(db.rows), user, ids)
    ensures outcome.Rejected? ==> outcome.reason == IntegrityViolation
    ensures !outcome.AccountsDeleted? ==> db.rows == old(db.rows) && db.journal == old(db.journal)
    ensures outcome.AccountsDeleted? ==> db.rows == Survivors(db.schema, old(db.rows), user, ids, now)
  {
    hide Removed, Survivors, Without, AutoPayCheck, OneOwner, Closed, TargetAccounts;
    if !AllOwned(db.rows, user, ids) {
      return AccountNotFound;
    }
    var savedRows, savedJournal, savedTag := db.rows, db.journal, db.tag;
    WithoutNothing(db.schema, savedRows);
    // Stage n leaves the store without the first n + 1 selections.
    StartsEmpty(savedRows, user, ids);
    DeleteSelected(db, 0, user, ids, savedRows);
    DeleteSelected(db, 1, user, ids, savedRows);
    DeleteSelected(db, 2, user, ids, savedRows);
    DeleteSelected(db, 3, user, ids, savedRows);
    DeleteSelected(db, 4, user, ids, savedRows);
    DeleteSelected(db, 5, user, ids, savedRows);
    DeleteSelected(db, 6, user, ids, savedRows);
    DeleteSelected(db, 7, user, ids, savedRows);
    // Only here can a constraint object: AutoPayOrphaned says when.
    ClearingLinks(db.schema, savedRows, user, ids, now);
    var result := db.UpdateRows(UpdatedLinks(db.rows, user, ids, now));
    if !result.Done? {
      db.rows, db.journal, db.tag := savedRows, savedJournal, savedTag;
      return Rejected(result);
    }
    // No dependent and no link is left, so nothing refers to the accounts.
    DeletingAccounts(db.schema, savedRows, user, ids, now);
    result := db.DeleteRows(TargetAccounts(db.rows, user, ids));
    outcome := AccountsDeleted;
  }

  lemma StartsEmpty(rows: Rows, user: User, ids: set<nat>)
    ensures Removed(0, rows, user, ids) == {}
  {
  }

  /** Statement 8 fails exactly when an auto-pay card would lose its source. */
  lemma ClearingLinks(schema: Schema, rows: Rows, user: User, ids: set<nat>, now: string)
    requires Sound(schema, rows)
    ensures var left := Without(schema, rows, Dependents(rows, user, ids));
      && UpdatedLinks(left, user, ids, now).Keys <= left.Keys
      && UpdateResult(schema, left, UpdatedLinks(left, user, ids, now)) ==
         if AutoPayOrphaned(rows, user, ids) then Failed(IntegrityViolation)
         else Ok(Without(schema, Unlinked(rows, user, ids, now), Dependents(rows, user, ids)))
  {
    hide Removed, Closed, OneOwner;
    var gone := Dependents(rows, user, ids);
    var left := Without(schema, rows, gone);
    assert forall k | k in gone :: k.table != Accounts && k.table != Institutions by {
      RemovedRanks(STATEMENTS, rows, user, ids);
    }
    LinksUpdated(schema, rows, user, ids, gone, now);
    UnlinkedProperties(schema, rows, user, ids, now);
    CheckAfterRemoval(schema, Unlinked(rows, user, ids, now), gone);
    WithoutLoses(schema, Unlinked(rows, user, ids, now), gone);
    UpdatedStayClosed(schema, rows, user, ids, gone, now);
  }

  lemma CheckAfterRemoval(schema: Schema, rows: Rows, gone: set<Key>)
    requires AppSchema(schema) && forall k | k in gone :: k.table != Accounts
    ensures AutoPayCheck(Without(schema, rows, gone)) == AutoPayCheck(rows)
  {
    var left := Without(schema, rows, gone);
    forall k | k in rows && k.table == Accounts ensures AutoPayHasSource(left[k]) == AutoPayHasSource(rows[k]) {
    }
    if !AutoPayCheck(rows) {
      var k :| k in rows && k.table == Accounts && !AutoPayHasSource(rows[k]);
      assert !AutoPayHasSource(left[k]);
    }
  }

  lemma UpdatedStayClosed(schema: Schema, rows: Rows, user: User, ids: set<nat>, gone: set<Key>, now: string)
    requires AppSchema(schema) && Closed(schema, rows) && forall k | k in gone :: k.table != Accounts && k.table != Institutions
    ensures var left := Without(schema, rows, gone); var images := UpdatedLinks(left, user, ids, now);
      forall k | k in images :: RowClosed(schema, left, k, images[k])
  {
    var left := Without(schema, rows, gone);
    var images := UpdatedLinks(left, user, ids, now);
    forall k | k in images ensures RowClosed(schema, left, k, images[k]) {
      AccountKept(schema, rows, gone, k);
      UnlinkedRowClosed(schema, rows, left, k, now);
    }
  }

  lemma UnlinkedRowClosed(schema: Schema, rows: Rows, left: Rows, k: Key, now: string)
    requires AppSchema(schema) && k in rows && k.table == Accounts && RowClosed(schema, rows, k, rows[k])
    requires forall m | m in rows && m.table in {Accounts, Institutions} :: m in left
    ensures RowClosed(schema, left, k, Unlink(rows[k], now))
  {
    var image := Unlink(rows[k], now);
    forall col | col in image.cols && Target(schema, k, image, col).Some?
      ensures Target(schema, k, image, col).value in left
    {
      assert Target(schema, k, rows[k], col) == Target(schema, k, image, col);
    }
  }

  /** Statement 9 goes through. */
  lemma DeletingAccounts(schema: Schema, rows: Rows, user: User, ids: set<nat>, now: string)
    requires Sound(schema, rows) && !AutoPayOrphaned(rows, user, ids)
    ensures var left := Without(schema, Unlinked(rows, user, ids, now), Dependents(rows, user, ids));
      && TargetAccounts(left, user, ids) <= left.Keys
      && DeleteResult(schema, left, TargetAccounts(left, user, ids)) == Ok(Survivors(schema, rows, user, ids, now))
  {
    hide Removed;
    var unlinked := Unlinked(rows, user, ids, now);
    var gone := Dependents(rows, user, ids);
    var accounts := TargetAccounts(rows, user, ids);
    RemovedRanks(STATEMENTS, rows, user, ids);
    UnlinkedProperties(schema, rows, user, ids, now);
    AccountsUnreferenced(schema, rows, user, ids, now);
    assert TargetAccounts(unlinked, user, ids) == accounts;
    TargetsKept(schema, unlinked, gone, user, ids);
    assert accounts - gone == accounts;
    assert gone + accounts + {} == gone + accounts && accounts + {} == accounts;
    StageDelete(schema, unlinked, gone, accounts, {});
  }

  // --- what is left ------------------------------------------------------------------------------

  lemma {:induction false} RemovalKeepsClosed(schema: Schema, n: nat, rows: Rows, user: User, ids: set<nat>)
    requires Sound(schema, rows) && n <= STATEMENTS
    ensures Closed(schema, Without(schema, rows, Removed(n, rows, user, ids)))
  {
    hide Without, Selected, Cascading, AnyRefers, Closed;
    if n == 0 {
      WithoutNothing(schema, rows);
    } else {
      var i := n - 1;
      var keys := Selected(StatementAt(i), rows, user, ids);
      RemovalKeepsClosed(schema, i, rows, user, ids);
      StatementUnreferenced(schema, i, rows, user, ids);
      RemovedElsewhere(i, rows, user, ids);
      SelectedTables(StatementAt(i), rows, user, ids);
      StageDelete(schema, rows, Removed(i, rows, user, ids), keys, Cascading(StatementAt(i), rows, user, ids));
      DeleteKeepsClosed(schema, Without(schema, rows, Removed(i, rows, user, ids)), keys);
    }
  }

  /** The deletion leaves no dangling reference. */
  lemma SurvivorsAreClosed(schema: Schema, rows: Rows, user: User, ids: set<nat>, now: string)
    requires Sound(schema, rows) && !AutoPayOrphaned(rows, user, ids)
    ensures Closed(schema, Survivors(schema, rows, user, ids, now))
  {
    hide Removed, OneOwner, AutoPayCheck, Without;
    RemovalKeepsClosed(schema, STATEMENTS, rows, user, ids);
    var gone := Dependents(rows, user, ids);
    var left := Without(schema, rows, gone);
    var unlinked := Without(schema, Unlinked(rows, user, ids, now), gone);
    ClearingLinks(schema, rows, user, ids, now);
    var images := UpdatedLinks(left, user, ids, now);
    assert unlinked == left + images && unlinked.Keys == left.Keys;
    forall k | k in unlinked ensures RowClosed(schema, unlinked, k, unlinked[k]) {
      if k in images {
        assert RowClosed(schema, left, k, images[k]);
      } else {
        assert RowClosed(schema, left, k, left[k]);
      }
    }
    DeletingAccounts(schema, rows, user, ids, now);
    DeleteKeepsClosed(schema, unlinked, TargetAccounts(unlinked, user, ids));
  }

  /** The column is a payment, loan or rule link to a row that is not left. */
  predicate LinkLost(schema: Schema, left: Rows, k: Key, row: Row, col: Column) {
    IsLink(k.table, col) && Target(schema, k, row, col).Some? && Target(schema, k, row, col).value !in left
  }

  /** A survivor is unchanged, except that a payment, loan or rule link to a
      removed row is cleared, and an account that loses its payment link is
      stamped with the time. */
  lemma SurvivorsKeepTheirColumns(schema: Schema, rows: Rows, user: User, ids: set<nat>, k: Key, col: Column, now: string)
    requires Sound(schema, rows)
    ensures var left := Survivors(schema, rows, user, ids, now);
      k in left <==> k in rows && k !in Dependents(rows, user, ids) + TargetAccounts(rows, user, ids)
    ensures var left := Survivors(schema, rows, user, ids, now);
      k in left ==>
        && left[k].owner == rows[k].owner && left[k].cols.Keys == rows[k].cols.Keys
        && (col in rows[k].cols ==>
              left[k].cols[col] ==
              if LinkLost(schema, left, k, rows[k], col) then Null
              else if col == UpdatedAt && LinkLost(schema, left, k, rows[k], PaymentAccountId) then Text(now)
              else rows[k].cols[col])
  {
    hide Dependents, OneOwner, AutoPayCheck, Survivors, Unlinked, PaidFromTargets, TargetAccounts, AnyRefers, Cleared;
    var left := Survivors(schema, rows, user, ids, now);
    var gone := Dependents(rows, user, ids) + TargetAccounts(rows, user, ids);
    SurvivorRow(schema, rows, user, ids, k, now);
    if k in left && col in rows[k].cols {
      TargetGone(schema, rows, user, ids, k, col, now);
      if k.table == Accounts {
        if PaymentAccountId in rows[k].cols {
          TargetGone(schema, rows, user, ids, k, PaymentAccountId, now);
        }
        AccountSurvivor(schema, rows, user, ids, k, col, now);
      } else {
        ClearedColumn(schema, k, rows[k], gone, col);
      }
    }
  }

  lemma ClearedColumn(schema: Schema, k: Key, row: Row, gone: set<Key>, col: Column)
    requires AppSchema(schema) && col in row.cols && k.table != Accounts
    ensures var target := Target(schema, k, row, col);
      Cleared(schema, k, row, gone).cols[col] ==
        if (k.table, col) in {(Transactions, LoanId), (Transactions, RecurringRuleId)} && target.Some? && target.value in gone
        then Null else row.cols[col]
  {
  }

  lemma SurvivorRow(schema: Schema, rows: Rows, user: User, ids: set<nat>, k: Key, now: string)
    ensures var gone := Dependents(rows, user, ids) + TargetAccounts(rows, user, ids);
      var left := Survivors(schema, rows, user, ids, now);
      && left.Keys == rows.Keys - gone
      && (k in left ==> left[k] == Cleared(schema, k, Unlinked(rows, user, ids, now)[k], gone))
      && (k in left && k.table != Accounts ==> Unlinked(rows, user, ids, now)[k] == rows[k])
      && (k in left ==> left[k].owner == rows[k].owner && left[k].cols.Keys == rows[k].cols.Keys)
  {
    hide Dependents;
  }

  lemma TargetGone(schema: Schema, rows: Rows, user: User, ids: set<nat>, k: Key, col: Column, now: string)
    requires Closed(schema, rows) && k in rows && col in rows[k].cols
    ensures var gone := Dependents(rows, user, ids) + TargetAccounts(rows, user, ids);
      var left := Survivors(schema, rows, user, ids, now);
      var target := Target(schema, k, rows[k], col);
      target.Some? ==> (target.value in gone <==> target.value !in left)
  {
    hide Dependents, Unlinked, Survivors;
    SurvivorRow(schema, rows, user, ids, k, now);
    assert RowClosed(schema, rows, k, rows[k]);
  }

  lemma AccountSurvivor(schema: Schema, rows: Rows, user: User, ids: set<nat>, k: Key, col: Column, now: string)
    requires Sound(schema, rows) && k in rows && k.table == Accounts && k !in TargetAccounts(rows, user, ids)
    requires col in rows[k].cols
    ensures var gone := Dependents(rows, user, ids) + TargetAccounts(rows, user, ids);
      var target := Target(schema, k, rows[k], col);
      var payer := Target(schema, k, rows[k], PaymentAccountId);
      Cleared(schema, k, Unlinked(rows, user, ids, now)[k], gone).cols[col] ==
        if col == PaymentAccountId && target.Some? && target.value in gone then Null
        else if col == UpdatedAt && payer.Some? && payer.value in gone then Text(now)
        else rows[k].cols[col]
  {
    hide OneOwner, Closed, AutoPayCheck, Dependents, TargetAccounts, Cleared, PaidFromTargets;
    var gone := Dependents(rows, user, ids) + TargetAccounts(rows, user, ids);
    PayerGone(schema, rows, user, ids, k);
    AccountsClearNothing(schema, k, Unlinked(rows, user, ids, now)[k], gone);
  }

  /** No ON DELETE SET NULL column is on an account. */
  lemma AccountsClearNothing(schema: Schema, k: Key, row: Row, gone: set<Key>)
    requires AppSchema(schema) && k.table == Accounts
    ensures Cleared(schema, k, row, gone).cols == row.cols
  {
  }

  /** Statement 8 selects exactly the surviving accounts paid from a row that goes. */
  lemma PayerGone(schema: Schema, rows: Rows, user: User, ids: set<nat>, k: Key)
    requires Sound(schema, rows) && k in rows && k.table == Accounts && k !in TargetAccounts(rows, user, ids)
    ensures var gone := Dependents(rows, user, ids) + TargetAccounts(rows, user, ids);
      var payer := Target(schema, k, rows[k], PaymentAccountId);
      && (k in PaidFromTargets(rows, user, ids) <==> payer.Some? && payer.value in gone)
      && (k in PaidFromTargets(rows, user, ids) ==> PaymentAccountId in rows[k].cols)
  {
    hide Removed, OneOwner, Closed, AutoPayCheck;
    RemovedRanks(STATEMENTS, rows, user, ids);
    if PaymentAccountId in rows[k].cols && rows[k].cols[PaymentAccountId].Id? {
      PaymentTarget(schema, rows, user, ids, k);
    }
  }

  /** Only the owner's own accounts are paid from a target account. */
  lemma PaymentTarget(schema: Schema, rows: Rows, user: User, ids: set<nat>, k: Key)
    requires Sound(schema, rows) && k in rows && k.table == Accounts && k !in TargetAccounts(rows, user, ids)
    requires PaymentAccountId in rows[k].cols && rows[k].cols[PaymentAccountId].Id?
    ensures k in PaidFromTargets(rows, user, ids) <==> Key(Accounts, rows[k].cols[PaymentAccountId].id) in TargetAccounts(rows, user, ids)
  {
    assert RowClosed(schema, rows, k, rows[k]);
    assert Target(schema, k, rows[k], PaymentAccountId) == Some(Key(Accounts, rows[k].cols[PaymentAccountId].id));
  }

  const PAID_FROM_ONE: Rows := map[
    Key(Accounts, 1) := Row(7, map[]),
    Key(Accounts, 2) := Row(7, map[PaymentAccountId := Id(1), AutoPay := Flag(true)])]

  /** An auto-pay card that is paid from a deleted account does stop the deletion. */
  lemma AutoPayStopsTheDeletion(schema: Schema)
    requires AppSchema(schema) && schema.accepts(PAID_FROM_ONE)
    ensures Sound(schema, PAID_FROM_ONE) && AllOwned(PAID_FROM_ONE, 7, {1}) && AutoPayOrphaned(PAID_FROM_ONE, 7, {1})
  {
    var rows := PAID_FROM_ONE;
    forall k | k in rows ensures RowClosed(schema, rows, k, rows[k]) {
      forall col | col in rows[k].cols && Target(schema, k, rows[k], col).Some?
        ensures Target(schema, k, rows[k], col).value == Key(Accounts, 1)
      {
      }
    }
    assert Key(Accounts, 2) in PaidFromTargets(rows, 7, {1});
  }

  /** A row that cannot outlive the rows in `keys`: not an account, and held to
      one of them by a RESTRICT or CASCADE reference. */
  ghost predicate Bound(schema: Schema, rows: Rows, k: Key, keys: set<Key>) {
    k in rows && k.table != Accounts
    && (AnyRefers(schema, k, rows[k], Restrict, keys) || AnyRefers(schema, k, rows[k], Cascade, keys))
  }

  ghost predicate HoldsBound(schema: Schema, rows: Rows, keys: set<Key>) {
    forall k | Bound(schema, rows, k, keys) :: k in keys
  }

  /** Exactly what must go goes: the removed set holds the accounts and every
      row bound to a removed row, and it is the least such set. */
  lemma RemovedIsLeast(schema: Schema, rows: Rows, user: User, ids: set<nat>, other: set<Key>)
    requires Sound(schema, rows)
    requires TargetAccounts(rows, user, ids) <= other
    requires HoldsBound(schema, rows, other)
    ensures var gone := Dependents(rows, user, ids) + TargetAccounts(rows, user, ids);
      && HoldsBound(schema, rows, gone)
      && gone <= other
  {
    hide Removed, OneOwner, Closed, AutoPayCheck;
    var accounts := TargetAccounts(rows, user, ids);
    var dependents := Dependents(rows, user, ids);
    OfTable(rows, user, ids);
    forall k | Bound(schema, rows, k, dependents + accounts) ensures k in dependents + accounts {
      if k !in dependents {
        NoReferenceInto(schema, STATEMENTS, rows, user, ids, k);
        Either(schema, k, rows[k], Restrict, dependents, accounts);
        Either(schema, k, rows[k], Cascade, dependents, accounts);
        var action := if AnyRefers(schema, k, rows[k], Restrict, accounts) then Restrict else Cascade;
        var col := Referrer(schema, k, rows[k], action, accounts, Accounts);
        LinkedIsDependent(schema, rows, user, ids, k, col);
      }
    }
    RemovedWithin(schema, STATEMENTS, rows, user, ids, other);
  }

  /** A row that stays refers to nothing that the first `n` statements remove. */
  lemma {:induction false} NoReferenceInto(schema: Schema, n: nat, rows: Rows, user: User, ids: set<nat>, k: Key)
    requires Sound(schema, rows) && n <= STATEMENTS && k in rows && k !in Dependents(rows, user, ids)
    ensures !AnyRefers(schema, k, rows[k], Restrict, Removed(n, rows, user, ids))
    ensures !AnyRefers(schema, k, rows[k], Cascade, Removed(n, rows, user, ids))
  {
    hide Selected, Cascading, OneOwner, Closed;
    if n > 0 {
      hide Refers;
      var i := n - 1;
      var keys := Selected(StatementAt(i), rows, user, ids);
      var entries := Cascading(StatementAt(i), rows, user, ids);
      NoReferenceInto(schema, i, rows, user, ids, k);
      StatementUnreferenced(schema, i, rows, user, ids);
      RemovedGrows(n, rows, user, ids);
      assert Removed(n, rows, user, ids) == Removed(i, rows, user, ids) + (keys + entries);
      assert k !in Removed(i, rows, user, ids) + keys + entries;
      Either(schema, k, rows[k], Restrict, Removed(i, rows, user, ids), keys + entries);
      Either(schema, k, rows[k], Cascade, Removed(i, rows, user, ids), keys + entries);
    }
  }

  lemma {:induction false} RemovedGrows(n: nat, rows: Rows, user: User, ids: set<nat>)
    requires n <= STATEMENTS
    ensures Removed(n, rows, user, ids) <= Dependents(rows, user, ids)
    decreases STATEMENTS - n
  {
    hide Selected, Cascading;
    if n < STATEMENTS {
      RemovedGrows(n + 1, rows, user, ids);
    }
  }

  lemma PointsRefers(schema: Schema, rows: Rows, k: Key, col: Column, table: Table, targets: set<Key>, other: set<Key>)
    requires AppSchema(schema) && k in rows && k.table != Accounts
    requires References(k.table, col).Some? && References(k.table, col).value.target == table
    requires References(k.table, col).value.onDelete != SetNull
    requires Points(k, rows[k], col, table, targets) && targets <= other
    ensures Bound(schema, rows, k, other)
  {
    assert Refers(schema, k, rows[k], col, References(k.table, col).value.onDelete, other);
  }

  lemma AccountDependentsWithin(schema: Schema, rows: Rows, user: User, ids: set<nat>, other: set<Key>, table: Table, col: Column)
    requires AppSchema(schema) && References(table, col) == Some(ForeignKey(Accounts, Restrict)) && table != Accounts
    requires TargetAccounts(rows, user, ids) <= other
    requires HoldsBound(schema, rows, other)
    ensures ByAccount(rows, user, table, col, TargetAccounts(rows, user, ids)) <= other
  {
    forall k | k in ByAccount(rows, user, table, col, TargetAccounts(rows, user, ids)) ensures k in other {
      PointsRefers(schema, rows, k, col, Accounts, TargetAccounts(rows, user, ids), other);
    }
  }

  lemma SelectedWithin(schema: Schema, statement: Statement, rows: Rows, user: User, ids: set<nat>, other: set<Key>)
    requires AppSchema(schema) && TargetAccounts(rows, user, ids) <= other
    requires HoldsBound(schema, rows, other)
    ensures Selected(statement, rows, user, ids) <= other
  {
    hide ByAccount, TargetAccounts, HoldsBound;
    match statement
    case InvestmentTransactionRows =>
      InvestmentsWithin(schema, rows, user, ids, other);
    case WalletRows =>
      AccountDependentsWithin(schema, rows, user, ids, other, InvestmentWallets, AccountId);
      AccountDependentsWithin(schema, rows, user, ids, other, InvestmentWallets, CashAccountId);
    case EntryRows => AccountDependentsWithin(schema, rows, user, ids, other, ReconciliationEntries, AccountId);
    case ReconciliationRows => AccountDependentsWithin(schema, rows, user, ids, other, Reconciliations, AccountId);
    case TransactionRows =>
      AccountDependentsWithin(schema, rows, user, ids, other, Transactions, AccountId);
      AccountDependentsWithin(schema, rows, user, ids, other, Transactions, ToAccountId);
    case GoalRows => AccountDependentsWithin(schema, rows, user, ids, other, Goals, AccountId);
    case LoanRows => AccountDependentsWithin(schema, rows, user, ids, other, Loans, PaymentAccountId);
    case RuleRows =>
      AccountDependentsWithin(schema, rows, user, ids, other, RecurringRules, TemplateAccountId);
      AccountDependentsWithin(schema, rows, user, ids, other, RecurringRules, TemplateToAccountId);
  }

  lemma InvestmentsWithin(schema: Schema, rows: Rows, user: User, ids: set<nat>, other: set<Key>)
    requires AppSchema(schema) && TargetAccounts(rows, user, ids) <= other
    requires HoldsBound(schema, rows, other)
    ensures Selected(InvestmentTransactionRows, rows, user, ids) <= other
  {
    hide ByAccount, TargetAccounts, Bound;
    var accounts := TargetAccounts(rows, user, ids);
    var wallets := TargetWallets(rows, user, accounts);
    var transactions := TargetTransactions(rows, user, accounts);
    AccountDependentsWithin(schema, rows, user, ids, other, InvestmentWallets, AccountId);
    AccountDependentsWithin(schema, rows, user, ids, other, InvestmentWallets, CashAccountId);
    AccountDependentsWithin(schema, rows, user, ids, other, Transactions, AccountId);
    AccountDependentsWithin(schema, rows, user, ids, other, Transactions, ToAccountId);
    forall k | k in TargetInvestmentTransactions(rows, user, wallets, transactions) ensures k in other {
      if Points(k, rows[k], WalletId, InvestmentWallets, wallets) {
        PointsRefers(schema, rows, k, WalletId, InvestmentWallets, wallets, other);
      } else {
        PointsRefers(schema, rows, k, TransactionId, Transactions, transactions, other);
      }
    }
  }

  lemma EntriesWithin(schema: Schema, rows: Rows, table: Table, col: Column, parents: set<Key>, other: set<Key>)
    requires AppSchema(schema) && parents <= other && HoldsBound(schema, rows, other)
    requires (table, col) in {(Reconciliations, ReconciliationId), (Transactions, TransactionId)}
    ensures EntriesOf(rows, table, col, parents) <= other
  {
    forall k | k in EntriesOf(rows, table, col, parents) ensures k in other {
      PointsRefers(schema, rows, k, col, table, parents, other);
    }
  }

  lemma {:induction false} RemovedWithin(schema: Schema, n: nat, rows: Rows, user: User, ids: set<nat>, other: set<Key>)
    requires AppSchema(schema) && n <= STATEMENTS && TargetAccounts(rows, user, ids) <= other
    requires HoldsBound(schema, rows, other)
    ensures Removed(n, rows, user, ids) <= other
  {
    hide Selected, HoldsBound, TargetAccounts, EntriesOf;
    if n > 0 {
      var statement := StatementAt(n - 1);
      RemovedWithin(schema, n - 1, rows, user, ids, other);
      SelectedWithin(schema, statement, rows, user, ids, other);
      var keys := Selected(statement, rows, user, ids);
      EntriesWithin(schema, rows, Reconciliations, ReconciliationId, keys, other);
      EntriesWithin(schema, rows, Transactions, TransactionId, keys, other);
    }
  }
}
