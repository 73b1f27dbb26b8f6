/** What undo refuses: rows that moved on after the call wrote them. */
module UndoRefusal {
  import opened Wrappers
  import opened Store
  import opened JournalReplay
  import opened UndoExactness

  /** The call inserted this row. */
  ghost predicate Created(entries: seq<Entry>, k: Key) {
    exists e :: e in entries && e.key == k && e.op == Insert
  }

  /** Undo may take this row away on its way: the call created it, or it is none
      of the user's journaled rows. */
  ghost predicate MayGo(schema: Schema, user: User, entries: seq<Entry>, rows: Rows, k: Key) {
    Created(entries, k) || k.table !in schema.journaled || (k in rows && rows[k].owner != user)
  }

  /** Column `col` holds `value`, or a link that undoing other rows clears first. */
  ghost predicate HoldsOrLoses(schema: Schema, user: User, entries: seq<Entry>, rows: Rows, k: Key, row: Row,
                               col: Column, value: Value) {
    || (if col in row.cols then row.cols[col] else Null) == value
    || (&& value == Null
        && Target(schema, k, row, col).Some?
        && schema.foreignKey(k.table, col).value.onDelete == SetNull
        && MayGo(schema, user, entries, rows, Target(schema, k, row, col).value))
  }

  /** The row of `e` is as `e` left it. The time stamp and the conversion columns
      are the only ones that may differ. */
  ghost predicate AsLeftBy(schema: Schema, user: User, entries: seq<Entry>, rows: Rows, e: Entry) {
    if e.op == Delete then
      e.key in rows && rows[e.key].owner == user ==> Created(entries, e.key)
    else
      && e.after.Some? && e.after.value.owner == user
      && e.key in rows && rows[e.key].owner == user
      && forall col | col in e.after.value.cols && col != UpdatedAt && !col.Conversion? ::
           HoldsOrLoses(schema, user, entries, rows, e.key, rows[e.key], col, e.after.value.cols[col])
  }

  predicate Newest(entries: seq<Entry>, n: nat)
    requires n < |entries|
  {
    forall j | n < j < |entries| :: entries[j].key != entries[n].key
  }

  /** Every row the call wrote is as its newest write left it. */
  ghost predicate NoneMovedOn(schema: Schema, user: User, entries: seq<Entry>, rows: Rows) {
    forall n | 0 <= n < |entries| && Newest(entries, n) :: AsLeftBy(schema, user, entries, rows, entries[n])
  }

  /** The same, where the only link that may differ is one into a row the call created. */
  ghost predicate OnlyCreatedLinksDiffer(schema: Schema, entries: seq<Entry>, rows: Rows, e: Entry) {
    e.after.Some? && e.key in rows &&
    forall col | col in e.after.value.cols && col != UpdatedAt && !col.Conversion? ::
      || (if col in rows[e.key].cols then rows[e.key].cols[col] else Null) == e.after.value.cols[col]
      || (&& e.after.value.cols[col] == Null
          && Target(schema, e.key, rows[e.key], col).Some?
          && Created(entries, Target(schema, e.key, rows[e.key], col).value))
  }

  // --- one inverse -------------------------------------------------------------

  predicate Reconcilable(col: Column) {
    col in {Amount, Date, Type, Currency, AccountId, ToAccountId} || col.Conversion?
  }

  function Shown(row: Row, col: Column): Value {
    if col in row.cols then row.cols[col] else Null
  }

  /** Exactly when an inverse is refused as a conflict, told from the row itself. */
  lemma ConflictIff(schema: Schema, guard: Guard, user: User, e: Entry, rows: Rows)
    requires e.key.table in schema.journaled
    ensures e.op == Delete ==>
      (Inverse(schema, guard, user, e, rows) == Failed(Conflict(e.key)) <==>
         (e.key in rows && rows[e.key].owner == user) || e.before.None? || e.before.value.owner != user)
    ensures e.op != Delete && !(e.after.Some? && e.key in rows && rows[e.key].owner == user) ==>
      Inverse(schema, guard, user, e, rows) == Failed(Conflict(e.key))
    ensures e.op != Delete && e.after.Some? && e.key in rows && rows[e.key].owner == user ==>
      var row := rows[e.key];
      var moved := e.after.value.owner != user ||
        exists col | col in e.after.value.cols && col != UpdatedAt && !col.Conversion? ::
          Shown(row, col) != e.after.value.cols[col];
      var frozen := e.op == Update && e.key.table == Transactions && guard(rows, e.key) && e.before.Some? &&
        exists col | col in e.before.value.cols && Reconcilable(col) :: e.before.value.cols[col] != Shown(row, col);
      (Inverse(schema, guard, user, e, rows) == Failed(Conflict(e.key)) <==> moved || frozen)
  {
  }

  /** Inverses never give a row of the user to anyone else, nor take one over. */
  lemma {:induction false} OwnersStay(schema: Schema, guard: Guard, user: User, start: Rows, trace: seq<Step>, end: Rows,
                                      n: nat, m: Key)
    requires Run(schema, guard, user, start, trace, end) && n <= |trace|
    requires m in StateAt(start, trace, n) && StateAt(start, trace, n)[m].owner != user
    ensures m in start && start[m].owner != user
  {
    hide Inverse;
    if n > 0 {
      var s := trace[n - 1];
      assert Inverse(schema, guard, user, s.entry, s.before) == Ok(s.after);
      OwnerStays(schema, guard, user, s, m);
      OwnersStay(schema, guard, user, start, trace, end, n - 1, m);
    }
  }

  lemma OwnerStays(schema: Schema, guard: Guard, user: User, s: Step, m: Key)
    requires Inverse(schema, guard, user, s.entry, s.before) == Ok(s.after)
    requires m in s.after && s.after[m].owner != user
    ensures m in s.before && s.before[m].owner == s.after[m].owner
  {
  }

  /** A row that a step took away is one that undo may take away. */
  lemma GoneMayGo(schema: Schema, guard: Guard, user: User, start: Rows, trace: seq<Step>, end: Rows,
                  entries: seq<Entry>, n: nat, m: Key)
    requires Run(schema, guard, user, start, trace, end) && n < |trace|
    requires OnlyExpectedEffects(schema, user, trace, entries)
    requires m in trace[n].before && m !in trace[n].after
    ensures MayGo(schema, user, entries, start, m)
  {
    hide Inverse;
    assert trace[n].before == StateAt(start, trace, n);
    if m.table in schema.journaled {
      assert Changed(schema, trace[n], m);
      if trace[n].before[m].owner == user {
        assert Expected(entries, EffectOf(trace[n], m));
      } else {
        OwnersStay(schema, guard, user, start, trace, end, n, m);
      }
    }
  }

  /** `now` is row `k` as `rows` has it, save links that undoing other rows clears. */
  ghost predicate Faded(schema: Schema, user: User, entries: seq<Entry>, rows: Rows, k: Key, now: Row) {
    && k in rows && now.owner == rows[k].owner && now.cols.Keys == rows[k].cols.Keys
    && forall col | col in now.cols :: HoldsOrLoses(schema, user, entries, rows, k, rows[k], col, now.cols[col])
  }

  /** The inverse of another row's write at most clears a link to a removed row. */
  lemma OtherInverse(schema: Schema, guard: Guard, user: User, s: Step, k: Key)
    requires Inverse(schema, guard, user, s.entry, s.before) == Ok(s.after) && k != s.entry.key
    ensures k in s.after ==> k in s.before && s.after[k].owner == s.before[k].owner
    ensures k in s.after ==> s.after[k].cols.Keys == s.before[k].cols.Keys
    ensures k in s.after ==> forall col | col in s.after[k].cols && s.after[k].cols[col] != s.before[k].cols[col] ::
      && s.after[k].cols[col] == Null && Target(schema, k, s.before[k], col).Some?
      && schema.foreignKey(k.table, col).value.onDelete == SetNull
      && Target(schema, k, s.before[k], col).value in s.before && Target(schema, k, s.before[k], col).value !in s.after
  {
    hide Deleted;
    if s.entry.op == Insert && k in s.after {
      DeletedProperties(schema, s.before, {s.entry.key});
      var gone := Deleted(schema, s.before, {s.entry.key});
      assert s.after[k] == Cleared(schema, k, s.before[k], gone);
    }
  }

  lemma StartIsFaded(schema: Schema, user: User, entries: seq<Entry>, rows: Rows, k: Key)
    ensures k in rows ==> Faded(schema, user, entries, rows, k, rows[k])
  {
  }

  /** Until its own first inverse, a row only fades, or goes if the call created it. */
  lemma {:induction false} UntilFirst(schema: Schema, guard: Guard, user: User, start: Rows, trace: seq<Step>, end: Rows,
                                      entries: seq<Entry>, n: nat, k: Key)
    requires Run(schema, guard, user, start, trace, end) && n <= |trace|
    requires OnlyExpectedEffects(schema, user, trace, entries)
    requires forall i | 0 <= i < n :: trace[i].entry.key != k
    ensures k in StateAt(start, trace, n) ==> Faded(schema, user, entries, start, k, StateAt(start, trace, n)[k])
    ensures k in start && k !in StateAt(start, trace, n) ==> MayGo(schema, user, entries, start, k)
  {
    hide Inverse, OnlyExpectedEffects, MayGo, Faded, Expected;
    if n > 0 {
      var s := trace[n - 1];
      assert s.before == StateAt(start, trace, n - 1);
      UntilFirst(schema, guard, user, start, trace, end, entries, n - 1, k);
      forall m | m in s.before && m !in s.after ensures MayGo(schema, user, entries, start, m) {
        GoneMayGo(schema, guard, user, start, trace, end, entries, n - 1, m);
      }
      if k in s.after {
        FadesOn(schema, guard, user, entries, start, s, k);
      } else {
        assert k in start ==> k in s.before || MayGo(schema, user, entries, start, k);
      }
    } else {
      StartIsFaded(schema, user, entries, start, k);
    }
  }

  lemma FadesOn(schema: Schema, guard: Guard, user: User, entries: seq<Entry>, rows: Rows, s: Step, k: Key)
    requires Inverse(schema, guard, user, s.entry, s.before) == Ok(s.after) && k != s.entry.key && k in s.after
    requires k in s.before ==> Faded(schema, user, entries, rows, k, s.before[k])
    requires forall m | m in s.before && m !in s.after :: MayGo(schema, user, entries, rows, m)
    ensures Faded(schema, user, entries, rows, k, s.after[k])
  {
    hide Inverse, MayGo;
    OtherInverse(schema, guard, user, s, k);
    forall col | col in s.after[k].cols
      ensures HoldsOrLoses(schema, user, entries, rows, k, rows[k], col, s.after[k].cols[col])
    {
      assert HoldsOrLoses(schema, user, entries, rows, k, rows[k], col, s.before[k].cols[col]);
    }
  }

  // --- the first inverse of a row is that of its newest write ---------------------

  lemma {:induction false} FirstOfKey(s: seq<Entry>, k: Key) returns (i: nat)
    requires OfKey(s, k) != []
    ensures i < |s| && s[i] == OfKey(s, k)[0]
    ensures forall j | 0 <= j < i :: s[j].key != k
  {
    var n := |s| - 1;
    if OfKey(s[..n], k) != [] {
      i := FirstOfKey(s[..n], k);
    } else {
      i := n;
      forall j | 0 <= j < i ensures s[j].key != k {
        if s[j].key == k {
          assert s[j] in s[..n];
          OfKeyMembers(s[..n], k, s[j]);
        }
      }
    }
  }

  lemma {:induction false} NewestFirst(s: seq<Entry>, n: nat)
    requires n < |s| && Newest(s, n)
    ensures OfKey(Reversed(s), s[n].key) != [] && OfKey(Reversed(s), s[n].key)[0] == s[n]
  {
    var last := |s| - 1;
    OfKeyConcat([s[last]], Reversed(s[..last]), s[n].key);
    OfKeyOne(s[last], s[n].key);
    if n < last {
      NewestFirst(s[..last], n);
    }
  }

  /** Undo that ran to its end found every row as the call left it. */
  lemma UndoneWasAsLeft(schema: Schema, guard: Guard, user: User, start: Rows, trace: seq<Step>, end: Rows,
                        entries: seq<Entry>)
    requires Run(schema, guard, user, start, trace, end)
    requires forall k :: OfKey(Entries(trace), k) == OfKey(Reversed(entries), k)
    requires OnlyExpectedEffects(schema, user, trace, entries)
    ensures NoneMovedOn(schema, user, entries, start)
  {
    hide Inverse, OnlyExpectedEffects;
    forall n | 0 <= n < |entries| && Newest(entries, n)
      ensures AsLeftBy(schema, user, entries, start, entries[n])
    {
      var e := entries[n];
      NewestFirst(entries, n);
      var i := FirstOfKey(Entries(trace), e.key);
      assert forall j | 0 <= j < i :: Entries(trace)[j].key == trace[j].entry.key;
      UntilFirst(schema, guard, user, start, trace, end, entries, i, e.key);
      FirstFoundItsRow(schema, guard, user, start, trace[i], entries);
    }
  }

  lemma FirstFoundItsRow(schema: Schema, guard: Guard, user: User, start: Rows, s: Step, entries: seq<Entry>)
    requires Inverse(schema, guard, user, s.entry, s.before) == Ok(s.after)
    requires s.entry.key in s.before ==> Faded(schema, user, entries, start, s.entry.key, s.before[s.entry.key])
    requires s.entry.key in start && s.entry.key !in s.before ==> MayGo(schema, user, entries, start, s.entry.key)
    ensures AsLeftBy(schema, user, entries, start, s.entry)
  {
    var e := s.entry;
    if e.op != Delete {
      var now := s.before[e.key];
      forall col | col in e.after.value.cols && col != UpdatedAt && !col.Conversion?
        ensures HoldsOrLoses(schema, user, entries, start, e.key, start[e.key], col, e.after.value.cols[col])
      {
        assert ColumnOf(now, col) == e.after.value.cols[col];
        if col in now.cols {
          assert HoldsOrLoses(schema, user, entries, start, e.key, start[e.key], col, now.cols[col]);
        }
      }
    }
  }

  /** Where a row and what it refers to have one owner, a differing link can only
      be one into a row that the call created. */
  lemma LinksIntoCreated(schema: Schema, ownerOf: Key -> User, user: User, entries: seq<Entry>, rows: Rows, n: nat)
    requires NoneMovedOn(schema, user, entries, rows) && n < |entries| && Newest(entries, n)
    requires JournaledReferences(schema) && Fits(schema, ownerOf, rows)
    requires entries[n].op != Delete && entries[n].key.table in schema.journaled
    ensures OnlyCreatedLinksDiffer(schema, entries, rows, entries[n])
  {
    var e := entries[n];
    assert AsLeftBy(schema, user, entries, rows, e);
    var row := rows[e.key];
    assert ImageFits(schema, ownerOf, e.key, Some(row));
    forall col | col in e.after.value.cols && col != UpdatedAt && !col.Conversion?
                 && (if col in row.cols then row.cols[col] else Null) != e.after.value.cols[col]
      ensures e.after.value.cols[col] == Null && Target(schema, e.key, row, col).Some?
      ensures Created(entries, Target(schema, e.key, row, col).value)
    {
      assert HoldsOrLoses(schema, user, entries, rows, e.key, row, col, e.after.value.cols[col]);
      var m := Target(schema, e.key, row, col).value;
      if m in rows {
        assert ImageFits(schema, ownerOf, m, Some(rows[m]));
      }
    }
  }
}
