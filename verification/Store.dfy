/** The relational store seen by the services: rows keyed by table and id,
    foreign keys with their ON DELETE actions, and the row trigger that records
    every write of a tagged transaction. */
module Store {
  import opened Wrappers

  type User = nat

  /** The user-owned domain tables, and the tables that are not journaled. */
  datatype Table =
    | Institutions | Accounts | CategoryGroups | Categories | CategorizationRules
    | Budgets | BudgetAllocations | ExpectedIncome | RecurringRules | Loans | Goals
    | ManualRates | Transactions | Reconciliations | ReconciliationEntries
    | InvestmentWallets | InvestmentAssets | InvestmentTransactions
    | Unjournaled(name: string)

  /** The columns the services name; any other column is `Other`. */
  datatype Column =
    | Amount | Date | Type | Currency | UpdatedAt | Conversion(part: string)
    | AccountId | ToAccountId | PaymentAccountId | CashAccountId | AutoPay
    | TemplateAccountId | TemplateToAccountId | TemplateCategoryId
    | InstitutionId | GroupId | CategoryId | RecurringRuleId | LoanId
    | ReconciliationId | TransactionId | WalletId | AssetId
    | Other(name: string)

  datatype Key = Key(table: Table, id: nat)

  datatype Value = Null | Id(id: nat) | Text(text: string) | Flag(flag: bool)

  /** A row image; `owner` is its user_id column. */
  datatype Row = Row(owner: User, cols: map<Column, Value>)

  type Rows = map<Key, Row>

  datatype OnDelete = Restrict | Cascade | SetNull

  datatype ForeignKey = ForeignKey(target: Table, onDelete: OnDelete)

  /** What the database enforces. `accepts` stands for the CHECK, UNIQUE and
      NOT NULL constraints. */
  datatype Schema = Schema(
    columns: map<Table, set<Column>>,
    foreignKey: (Table, Column) -> Option<ForeignKey>,
    journaled: set<Table>,
    accepts: Rows -> bool)

  datatype Outcome = Done | ForeignKeyViolation | IntegrityViolation | Conflict(key: Key)

  function Get(rows: Rows, k: Key): Option<Row> {
    if k in rows then Some(rows[k]) else None
  }

  /** The key that column `col` of row `k` refers to, when `col` is a foreign key that is set. */
  function Target(schema: Schema, k: Key, row: Row, col: Column): Option<Key> {
    var foreignKey := schema.foreignKey(k.table, col);
    if foreignKey.Some? && col in row.cols && row.cols[col].Id? then
      Some(Key(foreignKey.value.target, row.cols[col].id))
    else
      None
  }

  /** Column `col` of row `k` refers into `keys` and its foreign key carries `action`. */
  predicate Refers(schema: Schema, k: Key, row: Row, col: Column, action: OnDelete, keys: set<Key>) {
    var target := Target(schema, k, row, col);
    target.Some? && target.value in keys && schema.foreignKey(k.table, col).value.onDelete == action
  }

  predicate AnyRefers(schema: Schema, k: Key, row: Row, action: OnDelete, keys: set<Key>) {
    exists col | col in row.cols :: Refers(schema, k, row, col, action, keys)
  }

  /** Every reference held by row `k` is to an existing row. */
  predicate RowClosed(schema: Schema, rows: Rows, k: Key, row: Row) {
    forall col | col in row.cols :: Target(schema, k, row, col).Some? ==> Target(schema, k, row, col).value in rows
  }

  ghost predicate Closed(schema: Schema, rows: Rows) {
    forall k | k in rows :: RowClosed(schema, rows, k, rows[k])
  }

  /** A row has exactly the columns of its table. */
  predicate RowShaped(schema: Schema, k: Key, row: Row) {
    k.table in schema.columns && row.cols.Keys == schema.columns[k.table]
  }

  // --- statements ------------------------------------------------------------

  function CascadeStep(schema: Schema, rows: Rows, keys: set<Key>): set<Key> {
    keys + set k | k in rows && AnyRefers(schema, k, rows[k], Cascade, keys)
  }

  /** The rows a DELETE of `keys` removes: `keys` closed under ON DELETE CASCADE. */
  function Deleted(schema: Schema, rows: Rows, keys: set<Key>): set<Key>
    requires keys <= rows.Keys
    decreases rows.Keys - keys
  {
    var more := CascadeStep(schema, rows, keys);
    if more == keys then keys else
      assert rows.Keys - more < rows.Keys - keys by {
        assert more > keys;
        var k :| k in more && k !in keys;
        assert k in rows.Keys - keys && k !in rows.Keys - more;
      }
      Deleted(schema, rows, more)
  }

  /** `row` with every ON DELETE SET NULL reference into `gone` cleared. */
  function Cleared(schema: Schema, k: Key, row: Row, gone: set<Key>): Row {
    Row(row.owner, map col | col in row.cols ::
      if Refers(schema, k, row, col, SetNull, gone) then Null else row.cols[col])
  }

  function Without(schema: Schema, rows: Rows, gone: set<Key>): Rows {
    map k | k in rows && k !in gone :: Cleared(schema, k, rows[k], gone)
  }

  datatype Result = Ok(rows: Rows) | Failed(reason: Outcome)

  function DeleteResult(schema: Schema, rows: Rows, keys: set<Key>): Result
    requires keys <= rows.Keys
  {
    var gone := Deleted(schema, rows, keys);
    var left := Without(schema, rows, gone);
    if exists k | k in rows :: k !in gone && AnyRefers(schema, k, rows[k], Restrict, gone) then
      Failed(ForeignKeyViolation)
    else if !schema.accepts(left) then Failed(IntegrityViolation)
    else Ok(left)
  }

  function InsertResult(schema: Schema, rows: Rows, k: Key, row: Row): Result {
    if k in rows || !schema.accepts(rows[k := row]) then Failed(IntegrityViolation)
    else if !RowClosed(schema, rows[k := row], k, row) then Failed(ForeignKeyViolation)
    else Ok(rows[k := row])
  }

  /** One UPDATE statement that gives each row in `images` a new image. */
  function UpdateResult(schema: Schema, rows: Rows, images: Rows): Result {
    if !schema.accepts(rows + images) then Failed(IntegrityViolation)
    else if exists k | k in images :: !RowClosed(schema, rows, k, images[k]) then Failed(ForeignKeyViolation)
    else Ok(rows + images)
  }

  lemma {:induction false} DeletedProperties(schema: Schema, rows: Rows, keys: set<Key>)
    requires keys <= rows.Keys
    ensures keys <= Deleted(schema, rows, keys) <= rows.Keys
    ensures forall k | k in rows && AnyRefers(schema, k, rows[k], Cascade, Deleted(schema, rows, keys)) ::
              k in Deleted(schema, rows, keys)
    decreases rows.Keys - keys
  {
    var more := CascadeStep(schema, rows, keys);
    if more != keys {
      var k :| k in more && k !in keys;
      assert k in rows.Keys - keys && k !in rows.Keys - more;
      DeletedProperties(schema, rows, more);
    } else {
      forall k | k in rows && AnyRefers(schema, k, rows[k], Cascade, keys) ensures k in keys {
        assert k in more;
      }
    }
  }

  /** The cascade is the least such set: any set that holds `keys` and is
      closed under cascading references holds every deleted row. */
  lemma {:induction false} DeletedIsLeast(schema: Schema, rows: Rows, keys: set<Key>, bound: set<Key>)
    requires keys <= rows.Keys && keys <= bound
    requires forall k | k in rows && AnyRefers(schema, k, rows[k], Cascade, bound) :: k in bound
    ensures Deleted(schema, rows, keys) <= bound
    decreases rows.Keys - keys
  {
    var more := CascadeStep(schema, rows, keys);
    if more != keys {
      forall k | k in more ensures k in bound {
        if k !in keys {
          var col :| col in rows[k].cols && Refers(schema, k, rows[k], col, Cascade, keys);
          assert Refers(schema, k, rows[k], col, Cascade, bound);
        }
      }
      var k :| k in more && k !in keys;
      assert k in rows.Keys - keys && k !in rows.Keys - more;
      DeletedIsLeast(schema, rows, more, bound);
    }
  }

  /** A DELETE that succeeds leaves no reference to a removed row. */
  lemma {:induction false} DeleteKeepsClosed(schema: Schema, rows: Rows, keys: set<Key>)
    requires keys <= rows.Keys && Closed(schema, rows)
    requires DeleteResult(schema, rows, keys).Ok?
    ensures Closed(schema, DeleteResult(schema, rows, keys).rows)
  {
    var gone := Deleted(schema, rows, keys);
    var left := Without(schema, rows, gone);
    DeletedProperties(schema, rows, keys);
    forall k, col | k in left && col in left[k].cols && Target(schema, k, left[k], col).Some?
      ensures Target(schema, k, left[k], col).value in left
    {
      var target := Target(schema, k, left[k], col).value;
      assert Target(schema, k, rows[k], col) == Some(target);
      assert RowClosed(schema, rows, k, rows[k]);
      assert target !in gone;
    }
  }

  /** So do an INSERT and an UPDATE: no statement leaves a dangling reference. */
  lemma {:induction false} WritesKeepClosed(schema: Schema, rows: Rows, k: Key, row: Row, images: Rows)
    requires Closed(schema, rows)
    ensures InsertResult(schema, rows, k, row).Ok? ==>
      k !in rows && Closed(schema, InsertResult(schema, rows, k, row).rows)
    ensures UpdateResult(schema, rows, images).Ok? && images.Keys <= rows.Keys ==>
      Closed(schema, UpdateResult(schema, rows, images).rows)
  {
    hide Target;
    if InsertResult(schema, rows, k, row).Ok? {
      StillClosed(schema, rows, rows[k := row], k);
    }
    if UpdateResult(schema, rows, images).Ok? && images.Keys <= rows.Keys {
      var after := rows + images;
      forall m | m in after ensures RowClosed(schema, after, m, after[m]) {
        if m in images {
          assert RowClosed(schema, rows, m, images[m]);
        } else {
          assert RowClosed(schema, rows, m, rows[m]);
        }
      }
    }
  }

  lemma StillClosed(schema: Schema, rows: Rows, after: Rows, k: Key)
    requires Closed(schema, rows) && k in after && after == rows[k := after[k]]
    requires RowClosed(schema, after, k, after[k])
    ensures Closed(schema, after)
  {
    hide Target;
    forall m | m in after ensures RowClosed(schema, after, m, after[m]) {
      if m != k {
        assert RowClosed(schema, rows, m, rows[m]);
      }
    }
  }

  /** The foreign keys refuse a write only for a reference of its own that leads nowhere. */
  lemma WritesRefusedIff(schema: Schema, rows: Rows, k: Key, row: Row, images: Rows)
    requires forall state :: schema.accepts(state)
    ensures InsertResult(schema, rows, k, row).Failed? <==>
      k in rows
      || exists col | col in row.cols :: Target(schema, k, row, col).Some?
           && Target(schema, k, row, col).value != k && Target(schema, k, row, col).value !in rows
    ensures images.Keys <= rows.Keys ==>
      (UpdateResult(schema, rows, images).Failed? <==>
         exists m, col | m in images && col in images[m].cols :: Target(schema, m, images[m], col).Some?
           && Target(schema, m, images[m], col).value !in rows)
  {
    hide Target;
    if images.Keys <= rows.Keys && UpdateResult(schema, rows, images).Failed? {
      var m :| m in images && !RowClosed(schema, rows, m, images[m]);
      var col :| col in images[m].cols && Target(schema, m, images[m], col).Some? && Target(schema, m, images[m], col).value !in rows;
    }
  }

  // --- the trigger -------------------------------------------------------------

  datatype Operation = Insert | Update | Delete

  datatype Entry = Entry(
    user: User, call: string, key: Key, op: Operation,
    before: Option<Row>, after: Option<Row>, undone: bool)

  function OperationOf(before: Option<Row>, after: Option<Row>): Operation {
    if before.None? then Insert else if after.None? then Delete else Update
  }

  /** The entry the trigger writes for one row change made under `call`. */
  function EntryFor(call: string, k: Key, before: Option<Row>, after: Option<Row>): Entry
    requires before.Some? || after.Some?
  {
    var image := if after.Some? then after.value else before.value;
    Entry(image.owner, call, k, OperationOf(before, after), before, after, false)
  }

  /** `log` records exactly the journaled changes from `before` to `after`, each
      row once (an UPDATE is recorded even when it changes nothing). */
  ghost predicate Records(schema: Schema, call: string, before: Rows, after: Rows, log: seq<Entry>) {
    && (forall e | e in log ::
          && (e.key in before || e.key in after)
          && e.key.table in schema.journaled
          && e == EntryFor(call, e.key, Get(before, e.key), Get(after, e.key)))
    && (call != "" ==>
          forall k: Key | k.table in schema.journaled && Get(before, k) != Get(after, k) ::
            EntryFor(call, k, Get(before, k), Get(after, k)) in log)
    && (call == "" ==> log == [])
    && (forall i, j | 0 <= i < j < |log| :: log[i].key != log[j].key)
  }

  class Database {
    const schema: Schema
    var rows: Rows
    var journal: seq<Entry>
    /** The transaction-local setting that names the running tool call; "" when unset. */
    var tag: string

    constructor (schema: Schema)
      ensures this.schema == schema && rows == map[] && journal == [] && tag == ""
    {
      this.schema := schema;
      rows, journal, tag := map[], [], "";
    }

    /** Runs the row trigger for every changed key. The order in which the
        triggers of one statement fire is left open. */
    method FireTriggers(before: Rows, touched: set<Key>)
      requires forall k: Key | Get(before, k) != Get(rows, k) :: k in touched
      requires forall k | k in touched :: k in before || k in rows
      modifies `journal
      ensures |old(journal)| <= |journal| && journal[..|old(journal)|] == old(journal)
      ensures Records(schema, tag, before, rows, journal[|old(journal)|..])
    {
      ghost var start := |journal|;
      var left := touched;
      while left != {}
        invariant left <= touched
        invariant start <= |journal| && journal[..start] == old(journal)
        invariant forall e | e in journal[start..] ::
            && e.key in touched
            && e.key.table in schema.journaled
            && e == EntryFor(tag, e.key, Get(before, e.key), Get(rows, e.key))
        invariant tag != "" ==> forall k | k in touched - left && k.table in schema.journaled ::
            EntryFor(tag, k, Get(before, k), Get(rows, k)) in journal[start..]
        invariant tag == "" ==> journal == old(journal)
        invariant forall e | e in journal[start..] :: e.key !in left
        invariant forall i, j | start <= i < j < |journal| :: journal[i].key != journal[j].key
      {
        var k :| k in left;
        ghost var was := journal;
        if tag != "" && k.table in schema.journaled {
          var e := EntryFor(tag, k, Get(before, k), Get(rows, k));
          journal := journal + [e];
          assert journal[start..] == was[start..] + [e];
          assert e in journal[start..];
          assert forall i | start <= i < |was| :: was[i] in was[start..];
        }
        left := left - {k};
      }
    }

    /** DELETE FROM ... WHERE the key is in `keys`. */
    method DeleteRows(keys: set<Key>) returns (outcome: Outcome)
      requires keys <= rows.Keys
      modifies `rows, `journal
      ensures DeleteResult(schema, old(rows), keys).Failed? ==>
                outcome == DeleteResult(schema, old(rows), keys).reason && outcome != Done
                && rows == old(rows) && journal == old(journal)
      ensures DeleteResult(schema, old(rows), keys).Ok? ==>
                && outcome == Done && rows == DeleteResult(schema, old(rows), keys).rows
                && |old(journal)| <= |journal| && journal[..|old(journal)|] == old(journal)
                && Records(schema, tag, old(rows), rows, journal[|old(journal)|..])
    {
      var result := DeleteResult(schema, rows, keys);
      if result.Failed? {
        return result.reason;
      }
      var before := rows;
      var gone := Deleted(schema, rows, keys);
      DeletedProperties(schema, rows, keys);
      rows := result.rows;
      FireTriggers(before, gone + set k | k in rows && rows[k] != before[k]);
      outcome := Done;
    }

    method InsertRow(k: Key, row: Row) returns (outcome: Outcome)
      modifies `rows, `journal
      ensures InsertResult(schema, old(rows), k, row).Failed? ==>
                outcome == InsertResult(schema, old(rows), k, row).reason && outcome != Done
                && rows == old(rows) && journal == old(journal)
      ensures InsertResult(schema, old(rows), k, row).Ok? ==>
                && outcome == Done && rows == InsertResult(schema, old(rows), k, row).rows
                && |old(journal)| <= |journal| && journal[..|old(journal)|] == old(journal)
                && Records(schema, tag, old(rows), rows, journal[|old(journal)|..])
    {
      var result := InsertResult(schema, rows, k, row);
      if result.Failed? {
        return result.reason;
      }
      var before := rows;
      rows := result.rows;
      FireTriggers(before, {k});
      outcome := Done;
    }

    method UpdateRows(images: Rows) returns (outcome: Outcome)
      requires images.Keys <= rows.Keys
      modifies `rows, `journal
      ensures UpdateResult(schema, old(rows), images).Failed? ==>
                outcome == UpdateResult(schema, old(rows), images).reason && outcome != Done
                && rows == old(rows) && journal == old(journal)
      ensures UpdateResult(schema, old(rows), images).Ok? ==>
                && outcome == Done && rows == UpdateResult(schema, old(rows), images).rows
                && |old(journal)| <= |journal| && journal[..|old(journal)|] == old(journal)
                && Records(schema, tag, old(rows), rows, journal[|old(journal)|..])
    {
      var result := UpdateResult(schema, rows, images);
      if result.Failed? {
        return result.reason;
      }
      var before := rows;
      rows := result.rows;
      FireTriggers(before, images.Keys);
      outcome := Done;
    }
  }
}
