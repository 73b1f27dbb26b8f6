/** Why a run of inverses puts back exactly the state before the call. */
module UndoExactness {
  import opened Wrappers
  import opened Store
  import opened JournalReplay

  // --- what the trigger recorded ------------------------------------------------

  /** The store after the recorded writes `entries` (oldest first). */
  ghost function Written(pre: Rows, entries: seq<Entry>): Rows {
    if entries == [] then pre else
    var e := entries[|entries| - 1];
    var rows := Written(pre, entries[..|entries| - 1]);
    if e.after.Some? then rows[e.key := e.after.value] else rows - {e.key}
  }

  ghost predicate ImageFits(schema: Schema, ownerOf: Key -> User, k: Key, image: Option<Row>) {
    image.Some? ==> RowShaped(schema, k, image.value) && RowOwned(schema, ownerOf, k, image.value)
  }

  /** `entries` is the trigger's record of one call that started in `pre`: each
      entry carries the image its write found, no other writer came in between,
      and an id is used for a new row only once. */
  ghost predicate Recorded(schema: Schema, ownerOf: Key -> User, pre: Rows, entries: seq<Entry>) {
    entries == [] ||
    var e := entries[|entries| - 1];
    var earlier := entries[..|entries| - 1];
    && Recorded(schema, ownerOf, pre, earlier)
    && e.key.table in schema.journaled
    && e.before == Get(Written(pre, earlier), e.key)
    && (e.op == Insert ==> e.key !in pre && forall d | d in earlier :: d.key != e.key)
    && (e.op != Insert ==> e.before.Some?)
    && ImageFits(schema, ownerOf, e.key, e.before)
  }

  ghost predicate Touched(entries: seq<Entry>, k: Key) {
    exists e :: e in entries && e.key == k
  }

  lemma {:induction false} WrittenElsewhere(pre: Rows, entries: seq<Entry>, k: Key)
    requires forall e | e in entries :: e.key != k
    ensures Get(Written(pre, entries), k) == Get(pre, k)
  {
    if entries != [] {
      WrittenElsewhere(pre, entries[..|entries| - 1], k);
    }
  }

  /** The oldest entry of a row carries the row's image from before the call. */
  lemma {:induction false} OldestImage(schema: Schema, ownerOf: Key -> User, pre: Rows, entries: seq<Entry>, k: Key)
    requires Recorded(schema, ownerOf, pre, entries) && OfKey(entries, k) != []
    ensures OfKey(entries, k)[0].before == Get(pre, k)
    ensures OfKey(entries, k)[0].op == Insert <==> k !in pre
    ensures ImageFits(schema, ownerOf, k, OfKey(entries, k)[0].before)
    ensures OfKey(entries, k)[0].key == k
  {
    var n := |entries| - 1;
    var earlier := entries[..n];
    if OfKey(earlier, k) != [] {
      OldestImage(schema, ownerOf, pre, earlier, k);
    } else {
      forall d | d in earlier ensures d.key != k {
        OfKeyMembers(earlier, k, d);
      }
      WrittenElsewhere(pre, earlier, k);
    }
  }

  /** An inserted row did not exist before the call. */
  lemma {:induction false} InsertedIsNew(schema: Schema, ownerOf: Key -> User, pre: Rows, entries: seq<Entry>, e: Entry)
    requires Recorded(schema, ownerOf, pre, entries) && e in entries && e.op == Insert
    ensures e.key !in pre
  {
    var n := |entries| - 1;
    if e != entries[n] {
      InsertedIsNew(schema, ownerOf, pre, entries[..n], e);
    }
  }

  // --- ownership ------------------------------------------------------------------

  /** A row and everything it refers to have one owner. */
  ghost predicate RowOwned(schema: Schema, ownerOf: Key -> User, k: Key, row: Row) {
    && row.owner == ownerOf(k)
    && forall col | col in row.cols && Target(schema, k, row, col).Some? ::
         ownerOf(Target(schema, k, row, col).value) == ownerOf(k)
  }

  ghost predicate Fits(schema: Schema, ownerOf: Key -> User, rows: Rows) {
    forall k | k in rows :: ImageFits(schema, ownerOf, k, Some(rows[k]))
  }

  lemma DeletedHasOneOwner(schema: Schema, ownerOf: Key -> User, rows: Rows, root: Key)
    requires Fits(schema, ownerOf, rows) && root in rows
    ensures forall k | k in Deleted(schema, rows, {root}) :: k in rows && ownerOf(k) == ownerOf(root)
  {
    var bound := set k | k in rows && ownerOf(k) == ownerOf(root);
    forall k | k in rows && AnyRefers(schema, k, rows[k], Cascade, bound) ensures k in bound {
      assert ImageFits(schema, ownerOf, k, Some(rows[k]));
    }
    DeletedIsLeast(schema, rows, {root}, bound);
  }

  // --- one inverse ------------------------------------------------------------------

  /** Restoring an image that has the table's columns gives that image. */
  lemma RestoredImage(schema: Schema, k: Key, current: Row, image: Row)
    requires RowShaped(schema, k, image)
    ensures Populated(schema, k, image) == image
    ensures RowShaped(schema, k, current) && current.owner == image.owner ==>
              Overlaid(schema, k, current, image) == image
  {
    assert Populated(schema, k, image).cols == image.cols;
    if RowShaped(schema, k, current) {
      assert Overlaid(schema, k, current, image).cols == image.cols;
    }
  }

  ghost predicate InverseOk(schema: Schema, guard: Guard, user: User, e: Entry, rows: Rows, after: Rows) {
    Inverse(schema, guard, user, e, rows) == Ok(after)
  }

  /** The row itself gets its earlier image. */
  lemma InverseAtRow(schema: Schema, guard: Guard, ownerOf: Key -> User, user: User, e: Entry, rows: Rows, after: Rows)
    requires InverseOk(schema, guard, user, e, rows, after) && Fits(schema, ownerOf, rows)
    requires ImageFits(schema, ownerOf, e.key, e.before)
    requires e.op == Insert <==> e.before.None?
    ensures Get(after, e.key) == e.before
    ensures ownerOf(e.key) == user
  {
    if e.op == Insert {
      DeletedProperties(schema, rows, {e.key});
      assert ImageFits(schema, ownerOf, e.key, Some(rows[e.key]));
    } else if e.op == Delete {
      RestoredImage(schema, e.key, e.before.value, e.before.value);
    } else {
      assert ImageFits(schema, ownerOf, e.key, Some(rows[e.key]));
      RestoredImage(schema, e.key, rows[e.key], e.before.value);
    }
  }

  /** Any other row changes only by a foreign-key action of a DELETE: it is
      removed by a cascade, or it survives and drops a link to a removed row. */
  lemma InverseElsewhere(schema: Schema, guard: Guard, ownerOf: Key -> User, user: User, e: Entry, rows: Rows, after: Rows, k: Key)
    requires InverseOk(schema, guard, user, e, rows, after) && Fits(schema, ownerOf, rows)
    requires k != e.key && Get(rows, k) != Get(after, k)
    ensures e.op == Insert && k in rows && e.key in rows && rows[k].owner == user
    ensures k !in after ==> k in Deleted(schema, rows, {e.key})
    ensures k in after ==> AnyRefers(schema, k, rows[k], SetNull, Deleted(schema, rows, {e.key}))
    ensures forall m | m in Deleted(schema, rows, {e.key}) :: m in rows && m !in after && rows[m].owner == user
  {
    if e.op == Insert {
      var gone := Deleted(schema, rows, {e.key});
      DeletedProperties(schema, rows, {e.key});
      DeletedHasOneOwner(schema, ownerOf, rows, e.key);
      assert ImageFits(schema, ownerOf, e.key, Some(rows[e.key]));
      forall m | m in gone ensures rows[m].owner == user {
        assert ImageFits(schema, ownerOf, m, Some(rows[m]));
      }
      if k in after {
        ClearedOnlyLinks(schema, k, rows[k], gone);
        var col :| col in rows[k].cols && Refers(schema, k, rows[k], col, SetNull, gone);
        assert ImageFits(schema, ownerOf, k, Some(rows[k]));
      }
    }
  }

  lemma ClearedOnlyLinks(schema: Schema, k: Key, row: Row, gone: set<Key>)
    ensures Cleared(schema, k, row, gone) != row ==> AnyRefers(schema, k, row, SetNull, gone)
  {
    if !AnyRefers(schema, k, row, SetNull, gone) {
      assert Cleared(schema, k, row, gone).cols == row.cols;
    }
  }

  lemma InverseKeepsFit(schema: Schema, guard: Guard, ownerOf: Key -> User, user: User, e: Entry, rows: Rows, after: Rows)
    requires InverseOk(schema, guard, user, e, rows, after) && Fits(schema, ownerOf, rows)
    requires ImageFits(schema, ownerOf, e.key, e.before)
    requires e.op == Insert ==> e.before.None?
    requires e.op != Insert ==> e.before.Some?
    ensures Fits(schema, ownerOf, after)
  {
    InverseAtRow(schema, guard, ownerOf, user, e, rows, after);
    forall k | k in after ensures ImageFits(schema, ownerOf, k, Some(after[k])) {
      if k == e.key {
        assert Get(after, k) == e.before;
      } else if k in rows && Get(rows, k) == Get(after, k) {
        assert ImageFits(schema, ownerOf, k, Some(rows[k]));
      } else {
        InverseElsewhere(schema, guard, ownerOf, user, e, rows, after, k);
        assert ImageFits(schema, ownerOf, k, Some(rows[k]));
        var gone := Deleted(schema, rows, {e.key});
        assert after[k] == Cleared(schema, k, rows[k], gone);
        forall col | col in after[k].cols && Target(schema, k, after[k], col).Some?
          ensures ownerOf(Target(schema, k, after[k], col).value) == ownerOf(k)
        {
          assert Target(schema, k, rows[k], col) == Target(schema, k, after[k], col);
        }
      }
    }
  }

  // --- whole runs ---------------------------------------------------------------------

  function InverseOperation(op: Operation): Operation {
    match op
    case Insert => Delete
    case Update => Update
    case Delete => Insert
  }

  /** The effect is the inverse of some recorded write. */
  ghost predicate Expected(entries: seq<Entry>, effect: (Key, Operation)) {
    exists e :: e in entries && (e.key, InverseOperation(e.op)) == effect
  }

  /** Every change the run made to a row of `user`, foreign-key actions
      included, is the inverse of some recorded write. */
  ghost predicate OnlyExpectedEffects(schema: Schema, user: User, trace: seq<Step>, entries: seq<Entry>) {
    forall i, k | 0 <= i < |trace| && Changed(schema, trace[i], k) && ChangedOwner(trace[i], k) == user ::
      Expected(entries, EffectOf(trace[i], k))
  }

  /** The user the trigger files a change under. */
  ghost function ChangedOwner(s: Step, k: Key): User
    requires Get(s.before, k) != Get(s.after, k)
  {
    EntryFor("", k, Get(s.before, k), Get(s.after, k)).user
  }

  function Reversed(s: seq<Entry>): (r: seq<Entry>)
    ensures |r| == |s|
    ensures forall i | 0 <= i < |s| :: r[i] == s[|s| - 1 - i]
  {
    if s == [] then [] else [s[|s| - 1]] + Reversed(s[..|s| - 1])
  }

  /** Everything that a successful undo is known to have done and found. */
  ghost predicate UndoRun(schema: Schema, guard: Guard, ownerOf: Key -> User, user: User, pre: Rows,
                          entries: seq<Entry>, start: Rows, trace: seq<Step>, end: Rows) {
    && Run(schema, guard, user, start, trace, end)
    && (forall k :: OfKey(Entries(trace), k) == OfKey(Reversed(entries), k))
    && OnlyExpectedEffects(schema, user, trace, entries)
    && Recorded(schema, ownerOf, pre, entries)
    && Closed(schema, pre)
    && JournaledReferences(schema)
    && Fits(schema, ownerOf, start)
  }

  /** A link of a journaled table that ON DELETE may clear is to a journaled table. */
  ghost predicate JournaledReferences(schema: Schema) {
    forall table, col | table in schema.journaled && schema.foreignKey(table, col).Some?
                        && schema.foreignKey(table, col).value.onDelete == SetNull ::
      schema.foreignKey(table, col).value.target in schema.journaled
  }

  lemma {:induction false} RecordedEntry(schema: Schema, ownerOf: Key -> User, pre: Rows, entries: seq<Entry>, e: Entry)
    requires Recorded(schema, ownerOf, pre, entries) && e in entries
    ensures ImageFits(schema, ownerOf, e.key, e.before)
    ensures e.op == Insert <==> e.before.None?
    ensures e.key.table in schema.journaled
  {
    var n := |entries| - 1;
    if e != entries[n] {
      RecordedEntry(schema, ownerOf, pre, entries[..n], e);
    } else if e.op == Insert {
      WrittenElsewhere(pre, entries[..n], e.key);
    }
  }

  lemma {:induction false} OfKeyReversed(s: seq<Entry>, k: Key)
    ensures |OfKey(Reversed(s), k)| == |OfKey(s, k)|
    ensures OfKey(s, k) != [] ==> OfKey(Reversed(s), k)[|OfKey(s, k)| - 1] == OfKey(s, k)[0]
  {
    if s != [] {
      var n := |s| - 1;
      OfKeyReversed(s[..n], k);
      OfKeyConcat([s[n]], Reversed(s[..n]), k);
      OfKeyOne(s[n], k);
    }
  }

  lemma AppliedEntry(trace: seq<Step>, entries: seq<Entry>, i: nat)
    requires i < |trace| && forall k :: OfKey(Entries(trace), k) == OfKey(Reversed(entries), k)
    ensures trace[i].entry in entries
  {
    var e := trace[i].entry;
    assert Entries(trace)[i] == e;
    OfKeyMembers(Entries(trace), e.key, e);
    OfKeyMembers(Reversed(entries), e.key, e);
    var j :| 0 <= j < |entries| && Reversed(entries)[j] == e;
  }

  lemma {:induction false} OfKeyNone(s: seq<Entry>, k: Key)
    requires forall e | e in s :: e.key != k
    ensures OfKey(s, k) == []
  {
    if s != [] {
      OfKeyNone(s[..|s| - 1], k);
    }
  }

  /** The last inverse applied to a row is that of its oldest write. */
  lemma LastIsOldest(trace: seq<Step>, entries: seq<Entry>, n: nat)
    requires n < |trace| && forall k :: OfKey(Entries(trace), k) == OfKey(Reversed(entries), k)
    requires forall i | n < i < |trace| :: trace[i].entry.key != trace[n].entry.key
    ensures OfKey(entries, trace[n].entry.key) != []
    ensures trace[n].entry == OfKey(entries, trace[n].entry.key)[0]
  {
    var k := trace[n].entry.key;
    var all := Entries(trace);
    var init := all[..n + 1];
    assert all == init + all[n + 1..];
    OfKeyConcat(init, all[n + 1..], k);
    OfKeyNone(all[n + 1..], k);
    assert init[..n] + [trace[n].entry] == init;
    OfKeyReversed(entries, k);
  }

  /** The row has been reverted within the first `n` steps and is not due again. */
  ghost predicate Settled(trace: seq<Step>, n: nat, k: Key)
    requires n <= |trace|
  {
    && (exists i :: 0 <= i < n && trace[i].entry.key == k)
    && (forall i | n <= i < |trace| :: trace[i].entry.key != k)
  }

  lemma StepFacts(schema: Schema, guard: Guard, ownerOf: Key -> User, user: User, pre: Rows,
      entries: seq<Entry>, start: Rows, trace: seq<Step>, end: Rows, i: nat)
    requires UndoRun(schema, guard, ownerOf, user, pre, entries, start, trace, end) && i < |trace|
    ensures trace[i].before == StateAt(start, trace, i)
    ensures InverseOk(schema, guard, user, trace[i].entry, trace[i].before, trace[i].after)
    ensures ImageFits(schema, ownerOf, trace[i].entry.key, trace[i].entry.before)
    ensures trace[i].entry.op == Insert <==> trace[i].entry.before.None?
  {
    hide Inverse;
    AppliedEntry(trace, entries, i);
    RecordedEntry(schema, ownerOf, pre, entries, trace[i].entry);
  }

  lemma LastRestores(schema: Schema, guard: Guard, ownerOf: Key -> User, user: User, pre: Rows,
      entries: seq<Entry>, start: Rows, trace: seq<Step>, end: Rows, n: nat)
    requires UndoRun(schema, guard, ownerOf, user, pre, entries, start, trace, end) && n < |trace|
    requires forall i | n < i < |trace| :: trace[i].entry.key != trace[n].entry.key
    ensures trace[n].entry.before == Get(pre, trace[n].entry.key)
  {
    hide Inverse;
    LastIsOldest(trace, entries, n);
    OldestImage(schema, ownerOf, pre, entries, trace[n].entry.key);
  }

  /** A settled row holds its image from before the call, whatever foreign-key
      actions the later steps set off. */
  lemma {:induction false} SettledRowsStay(schema: Schema, guard: Guard, ownerOf: Key -> User, user: User, pre: Rows,
      entries: seq<Entry>, start: Rows, trace: seq<Step>, end: Rows, n: nat)
    requires UndoRun(schema, guard, ownerOf, user, pre, entries, start, trace, end) && n <= |trace|
    ensures Fits(schema, ownerOf, StateAt(start, trace, n))
    ensures forall k | Settled(trace, n, k) :: Get(StateAt(start, trace, n), k) == Get(pre, k)
  {
    hide UndoRun, InverseOk, Fits, ImageFits;
    if n == 0 {
      StartFits(schema, guard, ownerOf, user, pre, entries, start, trace, end);
    } else {
      var s := trace[n - 1];
      SettledRowsStay(schema, guard, ownerOf, user, pre, entries, start, trace, end, n - 1);
      StepFacts(schema, guard, ownerOf, user, pre, entries, start, trace, end, n - 1);
      InverseAtRow(schema, guard, ownerOf, user, s.entry, s.before, s.after);
      InverseKeepsFit(schema, guard, ownerOf, user, s.entry, s.before, s.after);
      forall k | Settled(trace, n, k) ensures Get(s.after, k) == Get(pre, k) {
        if k == s.entry.key {
          LastRestores(schema, guard, ownerOf, user, pre, entries, start, trace, end, n - 1);
        } else {
          assert Settled(trace, n - 1, k);
          SettledRowUnharmed(schema, guard, ownerOf, user, pre, entries, start, trace, end, n - 1, k);
        }
      }
    }
  }

  lemma StartFits(schema: Schema, guard: Guard, ownerOf: Key -> User, user: User, pre: Rows,
      entries: seq<Entry>, start: Rows, trace: seq<Step>, end: Rows)
    requires UndoRun(schema, guard, ownerOf, user, pre, entries, start, trace, end)
    ensures Fits(schema, ownerOf, start)
  {
    hide Inverse, OfKey;
  }

  lemma SettledRowUnharmed(schema: Schema, guard: Guard, ownerOf: Key -> User, user: User, pre: Rows,
      entries: seq<Entry>, start: Rows, trace: seq<Step>, end: Rows, n: nat, k: Key)
    requires UndoRun(schema, guard, ownerOf, user, pre, entries, start, trace, end) && n < |trace|
    requires Fits(schema, ownerOf, trace[n].before) && Settled(trace, n, k)
    requires Get(trace[n].before, k) == Get(pre, k)
    ensures Get(trace[n].before, k) == Get(trace[n].after, k)
  {
    hide Inverse, Deleted;
    var s := trace[n];
    assert InverseOk(schema, guard, user, s.entry, s.before, s.after);
    if Get(s.before, k) != Get(s.after, k) {
      var i :| 0 <= i < n && trace[i].entry.key == k;
      AppliedEntry(trace, entries, i);
      RecordedEntry(schema, ownerOf, pre, entries, trace[i].entry);
      InverseElsewhere(schema, guard, ownerOf, user, s.entry, s.before, s.after, k);
      var gone := Deleted(schema, s.before, {s.entry.key});
      if k !in s.after {
        RemovedIsNew(schema, ownerOf, user, pre, entries, trace, n, k);
      } else {
        var col :| col in s.before[k].cols && Refers(schema, k, s.before[k], col, SetNull, gone);
        var m := Target(schema, k, s.before[k], col).value;
        assert RowClosed(schema, pre, k, pre[k]);
        assert m in pre;
        if m == s.entry.key {
          AppliedEntry(trace, entries, n);
          InsertedIsNew(schema, ownerOf, pre, entries, s.entry);
        } else {
          RemovedIsNew(schema, ownerOf, user, pre, entries, trace, n, m);
        }
      }
      assert false;
    }
  }

  /** A row that a cascade removed without objection was created by the call. */
  lemma RemovedIsNew(schema: Schema, ownerOf: Key -> User, user: User, pre: Rows,
                     entries: seq<Entry>, trace: seq<Step>, n: nat, m: Key)
    requires n < |trace| && OnlyExpectedEffects(schema, user, trace, entries)
    requires Recorded(schema, ownerOf, pre, entries)
    requires m in trace[n].before && m !in trace[n].after && trace[n].before[m].owner == user
    requires m.table in schema.journaled
    ensures m !in pre
  {
    assert Changed(schema, trace[n], m);
    assert Expected(entries, EffectOf(trace[n], m));
    var e :| e in entries && (e.key, InverseOperation(e.op)) == EffectOf(trace[n], m);
    assert e.op == Insert;
    InsertedIsNew(schema, ownerOf, pre, entries, e);
  }

  /** Rows the call did not write do not change at all. */
  lemma {:induction false} UntouchedRowsStay(schema: Schema, guard: Guard, ownerOf: Key -> User, user: User, pre: Rows,
      entries: seq<Entry>, start: Rows, trace: seq<Step>, end: Rows, n: nat, k: Key)
    requires UndoRun(schema, guard, ownerOf, user, pre, entries, start, trace, end) && n <= |trace|
    requires k.table in schema.journaled && !Touched(entries, k)
    ensures Get(StateAt(start, trace, n), k) == Get(start, k)
  {
    hide UndoRun, InverseOk, Fits, ImageFits, Deleted, AnyRefers;
    if n > 0 {
      var s := trace[n - 1];
      UntouchedRowsStay(schema, guard, ownerOf, user, pre, entries, start, trace, end, n - 1, k);
      StepFacts(schema, guard, ownerOf, user, pre, entries, start, trace, end, n - 1);
      if Get(s.before, k) != Get(s.after, k) {
        SettledRowsStay(schema, guard, ownerOf, user, pre, entries, start, trace, end, n - 1);
        OnlyTouchedChange(schema, guard, ownerOf, user, pre, entries, start, trace, end, n - 1, k);
        assert false;
      }
    }
  }

  lemma OnlyTouchedChange(schema: Schema, guard: Guard, ownerOf: Key -> User, user: User, pre: Rows,
      entries: seq<Entry>, start: Rows, trace: seq<Step>, end: Rows, n: nat, k: Key)
    requires UndoRun(schema, guard, ownerOf, user, pre, entries, start, trace, end) && n < |trace|
    requires Fits(schema, ownerOf, trace[n].before) && Changed(schema, trace[n], k)
    ensures Touched(entries, k)
  {
    hide Inverse;
    var s := trace[n];
    AppliedEntry(trace, entries, n);
    if k != s.entry.key {
      assert InverseOk(schema, guard, user, s.entry, s.before, s.after);
      InverseElsewhere(schema, guard, ownerOf, user, s.entry, s.before, s.after, k);
      if k in s.after {
        ChangeKeepsOwner(schema, guard, user, s.entry, s.before, s.after, k);
      }
      assert Expected(entries, EffectOf(s, k));
    }
  }

  lemma ChangeKeepsOwner(schema: Schema, guard: Guard, user: User, e: Entry, rows: Rows, after: Rows, k: Key)
    requires InverseOk(schema, guard, user, e, rows, after) && k != e.key && k in rows && k in after
    ensures rows[k].owner == after[k].owner
  {
  }

  /** Undo is exact: every row the call wrote is back to its image from before
      the call's first write (absent if the call created it), and every other
      journaled row is as it was when the undo began. */
  lemma UndoIsExact(schema: Schema, guard: Guard, ownerOf: Key -> User, user: User, pre: Rows,
      entries: seq<Entry>, start: Rows, trace: seq<Step>, end: Rows)
    requires UndoRun(schema, guard, ownerOf, user, pre, entries, start, trace, end)
    ensures forall k | Touched(entries, k) :: Get(end, k) == Get(pre, k)
    ensures forall k: Key | k.table in schema.journaled && !Touched(entries, k) :: Get(end, k) == Get(start, k)
  {
    hide Inverse;
    SettledRowsStay(schema, guard, ownerOf, user, pre, entries, start, trace, end, |trace|);
    forall k | Touched(entries, k) ensures Get(end, k) == Get(pre, k) {
      var e :| e in entries && e.key == k;
      OfKeyMembers(entries, k, e);
      OfKeyReversed(entries, k);
      var d := OfKey(Entries(trace), k)[0];
      OfKeyMembers(Entries(trace), k, d);
      var i :| 0 <= i < |trace| && Entries(trace)[i] == d;
      assert Settled(trace, |trace|, k);
    }
    forall k: Key | k.table in schema.journaled && !Touched(entries, k) ensures Get(end, k) == Get(start, k) {
      UntouchedRowsStay(schema, guard, ownerOf, user, pre, entries, start, trace, end, |trace|, k);
    }
  }
}
