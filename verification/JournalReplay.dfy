/** Replaying the inverses of journaled writes, backwards. */
module JournalReplay {
  import opened Wrappers
  import opened Store

  /** The reconciliation check: whether the reconciled fields of a row may not change. */
  type Guard = (Rows, Key) -> bool

  const GUARDED_COLUMNS := {Amount, Date, AccountId, ToAccountId, Type, Currency}

  predicate Ignored(col: Column) {
    col == UpdatedAt || col.Conversion?
  }

  function ColumnOf(row: Row, col: Column): Value {
    if col in row.cols then row.cols[col] else Null
  }

  predicate Matches(current: Row, expected: Row) {
    && current.owner == expected.owner
    && forall col | col in expected.cols :: Ignored(col) || ColumnOf(current, col) == expected.cols[col]
  }

  /** The row that jsonb_populate_record builds from a stored image. */
  function Populated(schema: Schema, k: Key, image: Row): Row {
    Row(image.owner,
        map col | k.table in schema.columns && col in schema.columns[k.table] :: ColumnOf(image, col))
  }

  /** The row after setting every table column that the image carries. */
  function Overlaid(schema: Schema, k: Key, current: Row, image: Row): Row {
    Row(current.owner, map col | col in current.cols ::
      if k.table in schema.columns && col in schema.columns[k.table] && col in image.cols
      then image.cols[col] else current.cols[col])
  }

  predicate ChangesGuarded(current: Row, image: Row) {
    exists col | col in image.cols ::
      (col in GUARDED_COLUMNS || col.Conversion?) && image.cols[col] != ColumnOf(current, col)
  }

  function Current(user: User, rows: Rows, k: Key): Option<Row> {
    if k in rows && rows[k].owner == user then Some(rows[k]) else None
  }

  /** What reverting an entry does to the rows, or why it is refused. */
  function Inverse(schema: Schema, guard: Guard, user: User, e: Entry, rows: Rows): Result {
    var current := Current(user, rows, e.key);
    if e.key.table !in schema.journaled then Failed(Conflict(e.key))
    else if e.op == Delete then
      if current.Some? || e.before.None? || e.before.value.owner != user then Failed(Conflict(e.key))
      else InsertResult(schema, rows, e.key, Populated(schema, e.key, e.before.value))
    else if current.None? || e.after.None? || !Matches(current.value, e.after.value) then Failed(Conflict(e.key))
    else if e.op == Insert then DeleteResult(schema, rows, {e.key})
    else
      var image := if e.before.Some? then e.before.value else Row(user, map[]);
      if e.key.table == Transactions && ChangesGuarded(current.value, image) && guard(rows, e.key) then
        Failed(Conflict(e.key))
      else UpdateResult(schema, rows, map[e.key := Overlaid(schema, e.key, current.value, image)])
  }

  // --- runs of inverses --------------------------------------------------------

  /** One inverse that was applied, with the state on either side of it. */
  datatype Step = Step(entry: Entry, before: Rows, after: Rows)

  function Entries(trace: seq<Step>): seq<Entry> {
    seq(|trace|, i requires 0 <= i < |trace| => trace[i].entry)
  }

  function StateAt(start: Rows, trace: seq<Step>, i: nat): Rows
    requires i <= |trace|
  {
    if i == 0 then start else trace[i - 1].after
  }

  ghost predicate Run(schema: Schema, guard: Guard, user: User, start: Rows, trace: seq<Step>, end: Rows) {
    && end == StateAt(start, trace, |trace|)
    && forall i | 0 <= i < |trace| ::
         && trace[i].before == StateAt(start, trace, i)
         && Inverse(schema, guard, user, trace[i].entry, trace[i].before) == Ok(trace[i].after)
  }

  /** The history of one row: the entries of `s` for `k`, in the order of `s`. */
  function OfKey(s: seq<Entry>, k: Key): seq<Entry> {
    if s == [] then []
    else OfKey(s[..|s| - 1], k) + if s[|s| - 1].key == k then [s[|s| - 1]] else []
  }

  lemma {:induction false} OfKeyConcat(a: seq<Entry>, b: seq<Entry>, k: Key)
    ensures OfKey(a + b, k) == OfKey(a, k) + OfKey(b, k)
  {
    if b == [] {
      assert a + b == a;
    } else {
      var n := |b| - 1;
      assert (a + b)[..|a + b| - 1] == a + b[..n];
      OfKeyConcat(a, b[..n], k);
    }
  }

  lemma OfKeyOne(e: Entry, k: Key)
    ensures OfKey([e], k) == if e.key == k then [e] else []
  {
    assert [e][..0] == [];
  }

  lemma {:induction false} OfKeyMembers(s: seq<Entry>, k: Key, e: Entry)
    ensures e in OfKey(s, k) <==> e in s && e.key == k
  {
    if s != [] {
      OfKeyMembers(s[..|s| - 1], k, e);
      assert s == s[..|s| - 1] + [s[|s| - 1]];
    }
  }

  /** The state changed at a journaled key. */
  ghost predicate Changed(schema: Schema, s: Step, k: Key) {
    k.table in schema.journaled && Get(s.before, k) != Get(s.after, k)
  }

  function EffectOf(s: Step, k: Key): (Key, Operation) {
    (k, OperationOf(Get(s.before, k), Get(s.after, k)))
  }

  ghost predicate AllLogged(schema: Schema, call: string, trace: seq<Step>, log: seq<Entry>) {
    forall i, k | 0 <= i < |trace| && Changed(schema, trace[i], k) ::
      EntryFor(call, k, Get(trace[i].before, k), Get(trace[i].after, k)) in log
  }

  lemma AllLoggedGrows(schema: Schema, call: string, trace: seq<Step>, log: seq<Entry>, s: Step, more: seq<Entry>)
    requires call != "" && AllLogged(schema, call, trace, log)
    requires Records(schema, call, s.before, s.after, more)
    ensures AllLogged(schema, call, trace + [s], log + more)
  {
    forall i, k | 0 <= i < |trace + [s]| && Changed(schema, (trace + [s])[i], k)
      ensures EntryFor(call, k, Get((trace + [s])[i].before, k), Get((trace + [s])[i].after, k)) in log + more
    {
      if i < |trace| {
        assert Changed(schema, trace[i], k);
      }
    }
  }

  method Revert(db: Database, guard: Guard, user: User, e: Entry) returns (outcome: Outcome)
    modifies db`rows, db`journal
    ensures var result := Inverse(db.schema, guard, user, e, old(db.rows));
      && (result.Failed? ==>
            && outcome == result.reason && outcome != Done
            && db.rows == old(db.rows) && db.journal == old(db.journal))
      && (result.Ok? ==>
            && outcome == Done && db.rows == result.rows
            && |old(db.journal)| <= |db.journal| && db.journal[..|old(db.journal)|] == old(db.journal)
            && Records(db.schema, db.tag, old(db.rows), db.rows, db.journal[|old(db.journal)|..]))
  {
    if e.key.table !in db.schema.journaled {
      return Conflict(e.key);
    }
    var current := Current(user, db.rows, e.key);
    if e.op == Delete {
      if current.Some? || e.before.None? || e.before.value.owner != user {
        return Conflict(e.key);
      }
      outcome := db.InsertRow(e.key, Populated(db.schema, e.key, e.before.value));
      return;
    }
    if current.None? || e.after.None? || !Matches(current.value, e.after.value) {
      return Conflict(e.key);
    }
    if e.op == Insert {
      outcome := db.DeleteRows({e.key});
      return;
    }
    var image := if e.before.Some? then e.before.value else Row(user, map[]);
    if e.key.table == Transactions && ChangesGuarded(current.value, image) && guard(db.rows, e.key) {
      return Conflict(e.key);
    }
    outcome := db.UpdateRows(map[e.key := Overlaid(db.schema, e.key, current.value, image)]);
  }

  /** The histories of `rows` are split, row by row and in order, into what is
      done, what is deferred and what is left. */
  ghost predicate Split(done: seq<Entry>, deferred: seq<Entry>, left: seq<Entry>, rows: seq<Entry>) {
    forall k :: SplitAt(done, deferred, left, rows, k)
  }

  ghost predicate SplitAt(done: seq<Entry>, deferred: seq<Entry>, left: seq<Entry>, rows: seq<Entry>, k: Key) {
    OfKey(done, k) + OfKey(deferred, k) + OfKey(left, k) == OfKey(rows, k)
  }

  lemma Regroup<T>(a: seq<T>, b: seq<T>, c: seq<T>, d: seq<T>)
    ensures a + b + (c + d) == a + (b + c) + d
    ensures b == [] || c == [] ==> a + b + (c + d) == (a + c) + b + d
    ensures c == [] ==> b + c == b
  {
  }

  /** Only rows in `blocked` have deferred entries. */
  ghost predicate OnlyBlocked(deferred: seq<Entry>, blocked: set<Key>) {
    forall k | k !in blocked :: OfKey(deferred, k) == []
  }

  /** Deferring an entry keeps every row's history in order. */
  lemma SplitDefer(done: seq<Entry>, deferred: seq<Entry>, e: Entry, left: seq<Entry>, rows: seq<Entry>, blocked: set<Key>)
    requires Split(done, deferred, [e] + left, rows) && OnlyBlocked(deferred, blocked)
    ensures Split(done, deferred + [e], left, rows)
    ensures OnlyBlocked(deferred + [e], blocked + {e.key})
  {
    forall k
      ensures SplitAt(done, deferred + [e], left, rows, k)
      ensures k != e.key ==> OfKey(deferred + [e], k) == OfKey(deferred, k)
    {
      assert SplitAt(done, deferred, [e] + left, rows, k);
      OfKeyConcat([e], left, k);
      OfKeyConcat(deferred, [e], k);
      OfKeyOne(e, k);
      Regroup(OfKey(done, k), OfKey(deferred, k), OfKey([e], k), OfKey(left, k));
    }
  }

  /** So does applying it, when no older write of its row is deferred. */
  lemma SplitApply(done: seq<Entry>, deferred: seq<Entry>, e: Entry, left: seq<Entry>, rows: seq<Entry>)
    requires Split(done, deferred, [e] + left, rows)
    requires OfKey(deferred, e.key) == []
    ensures Split(done + [e], deferred, left, rows)
  {
    forall k ensures SplitAt(done + [e], deferred, left, rows, k) {
      assert SplitAt(done, deferred, [e] + left, rows, k);
      OfKeyConcat([e], left, k);
      OfKeyConcat(done, [e], k);
      OfKeyOne(e, k);
      Regroup(OfKey(done, k), OfKey(deferred, k), OfKey([e], k), OfKey(left, k));
    }
  }

  lemma RunGrows(schema: Schema, guard: Guard, user: User, start: Rows, trace: seq<Step>, end: Rows, s: Step)
    requires Run(schema, guard, user, start, trace, end)
    requires s.before == end && Inverse(schema, guard, user, s.entry, end) == Ok(s.after)
    ensures Run(schema, guard, user, start, trace + [s], s.after)
    ensures Entries(trace + [s]) == Entries(trace) + [s.entry]
  {
    hide Inverse;
    forall i | 0 <= i < |trace + [s]|
      ensures (trace + [s])[i].before == StateAt(start, trace + [s], i)
      ensures Inverse(schema, guard, user, (trace + [s])[i].entry, (trace + [s])[i].before) == Ok((trace + [s])[i].after)
    {
      if i < |trace| {
        assert StateAt(start, trace + [s], i) == StateAt(start, trace, i);
      }
    }
  }

  /** One inverse inside its own savepoint: it happens, or nothing does. */
  method Attempt(db: Database, guard: Guard, user: User, e: Entry, undoTag: string)
    returns (outcome: Outcome, ghost log: seq<Entry>)
    requires undoTag != ""
    modifies db
    ensures db.journal == old(db.journal) + log
    ensures forall e | e in log :: e.call == undoTag && !e.undone
    ensures outcome.Done? ==>
      && Inverse(db.schema, guard, user, e, old(db.rows)) == Ok(db.rows)
      && Records(db.schema, undoTag, old(db.rows), db.rows, log)
    ensures !outcome.Done? ==> db.rows == old(db.rows) && log == []
    ensures !outcome.Done? ==> Inverse(db.schema, guard, user, e, old(db.rows)) == Failed(outcome)
  {
    var savedRows, savedJournal, savedTag := db.rows, db.journal, db.tag;
    db.tag := undoTag;
    outcome := Revert(db, guard, user, e);
    log := db.journal[|savedJournal|..];
    if !outcome.Done? {
      db.rows, db.journal, db.tag := savedRows, savedJournal, savedTag;
    }
  }

  /** What a replay has established so far: the run it made, the trigger log of
      that run, and each row's history split in order into done, deferred and left. */
  ghost predicate Progress(db: Database, guard: Guard, user: User, undoTag: string, rows: seq<Entry>, start: Rows,
                           trace: seq<Step>, log: seq<Entry>, deferred: seq<Entry>, left: seq<Entry>)
    reads db
  {
    && (forall e | e in log :: e.call == undoTag && !e.undone)
    && Run(db.schema, guard, user, start, trace, db.rows)
    && AllLogged(db.schema, undoTag, trace, log)
    && Split(Entries(trace), deferred, left, rows)
  }

  /** What stops a replay at `rows` with `left` still to do: the next inverse of
      some row fails for a reason that no other inverse can lift, or a foreign
      key blocks the next inverse of every row. */
  ghost predicate Stuck(schema: Schema, guard: Guard, user: User, left: seq<Entry>, rows: Rows) {
    || (exists k :: Fails(schema, guard, user, left, rows, k) && !FailsOnForeignKey(schema, guard, user, left, rows, k))
    || (left != [] && forall k :: OfKey(left, k) != [] ==> FailsOnForeignKey(schema, guard, user, left, rows, k))
  }

  ghost predicate Fails(schema: Schema, guard: Guard, user: User, left: seq<Entry>, rows: Rows, k: Key) {
    OfKey(left, k) != [] && Inverse(schema, guard, user, OfKey(left, k)[0], rows).Failed?
  }

  ghost predicate FailsOnForeignKey(schema: Schema, guard: Guard, user: User, left: seq<Entry>, rows: Rows, k: Key) {
    OfKey(left, k) != [] && Inverse(schema, guard, user, OfKey(left, k)[0], rows) == Failed(ForeignKeyViolation)
  }

  /** The run applied part of every row's history, in order, and got stuck. */
  ghost predicate StuckRun(schema: Schema, guard: Guard, user: User, start: Rows, rows: seq<Entry>, trace: seq<Step>) {
    exists left ::
      && Run(schema, guard, user, start, trace, StateAt(start, trace, |trace|))
      && Split(Entries(trace), [], left, rows)
      && Stuck(schema, guard, user, left, StateAt(start, trace, |trace|))
  }

  /** Applied one after the other, all the inverses succeed. */
  ghost predicate AllApply(schema: Schema, guard: Guard, user: User, rows: Rows, entries: seq<Entry>)
    decreases |entries|
  {
    entries == [] ||
    var result := Inverse(schema, guard, user, entries[0], rows);
    result.Ok? && AllApply(schema, guard, user, result.rows, entries[1..])
  }

  /** The entry at hand is the next one of its row, and it fails for good. */
  lemma StuckAt(schema: Schema, guard: Guard, user: User, start: Rows, rows: seq<Entry>, trace: seq<Step>, end: Rows,
                deferred: seq<Entry>, e: Entry, rest: seq<Entry>, reason: Outcome)
    requires Run(schema, guard, user, start, trace, end) && Split(Entries(trace), deferred, [e] + rest, rows)
    requires OfKey(deferred, e.key) == []
    requires Inverse(schema, guard, user, e, end) == Failed(reason) && !reason.ForeignKeyViolation?
    ensures StuckRun(schema, guard, user, start, rows, trace)
  {
    hide Inverse, OfKey;
    var left := deferred + ([e] + rest);
    SplitJoined(Entries(trace), deferred, [e] + rest, rows);
    NextOfKey(deferred, e, rest);
    assert Fails(schema, guard, user, left, end, e.key);
  }

  lemma NextOfKey(deferred: seq<Entry>, e: Entry, rest: seq<Entry>)
    requires OfKey(deferred, e.key) == []
    ensures OfKey(deferred + ([e] + rest), e.key) == [e] + OfKey(rest, e.key)
  {
    OfKeyConcat(deferred, [e] + rest, e.key);
    OfKeyConcat([e], rest, e.key);
    OfKeyOne(e, e.key);
  }

  lemma SplitJoined(done: seq<Entry>, deferred: seq<Entry>, left: seq<Entry>, rows: seq<Entry>)
    requires Split(done, deferred, left, rows)
    ensures Split(done, [], deferred + left, rows)
  {
    forall k ensures SplitAt(done, [], deferred + left, rows, k) {
      assert SplitAt(done, deferred, left, rows, k);
      OfKeyConcat(deferred, left, k);
    }
  }

  /** A foreign key blocks the next inverse of every deferred row. */
  ghost predicate AllBlocked(schema: Schema, guard: Guard, user: User, deferred: seq<Entry>, rows: Rows) {
    forall k :: OfKey(deferred, k) != [] ==> FailsOnForeignKey(schema, guard, user, deferred, rows, k)
  }

  lemma OneMore(deferred: seq<Entry>, e: Entry, blocked: set<Key>)
    requires forall k | k in blocked :: OfKey(deferred, k) != []
    ensures forall k | k in blocked + {e.key} :: OfKey(deferred + [e], k) != []
  {
    forall k | k in blocked + {e.key} ensures OfKey(deferred + [e], k) != [] {
      OfKeyConcat(deferred, [e], k);
      OfKeyOne(e, k);
    }
  }

  lemma NothingBlocked(schema: Schema, guard: Guard, user: User, rows: Rows)
    ensures AllBlocked(schema, guard, user, [], rows)
  {
  }

  lemma StillBlocked(schema: Schema, guard: Guard, user: User, deferred: seq<Entry>, e: Entry, rows: Rows)
    requires AllBlocked(schema, guard, user, deferred, rows)
    requires OfKey(deferred, e.key) != [] || Inverse(schema, guard, user, e, rows) == Failed(ForeignKeyViolation)
    ensures AllBlocked(schema, guard, user, deferred + [e], rows)
  {
    hide Inverse;
    forall k | OfKey(deferred + [e], k) != [] ensures FailsOnForeignKey(schema, guard, user, deferred + [e], rows, k) {
      OfKeyConcat(deferred, [e], k);
      OfKeyOne(e, k);
    }
  }

  /** One pass over the pending entries. An entry that a foreign key blocks is
      deferred, together with the older writes of the same row. */
  method Pass(db: Database, guard: Guard, user: User, pending: seq<Entry>, undoTag: string,
              ghost rows: seq<Entry>, ghost start: Rows, ghost trace0: seq<Step>, ghost log0: seq<Entry>)
    returns (outcome: Outcome, deferred: seq<Entry>, ghost trace: seq<Step>, ghost log: seq<Entry>)
    requires undoTag != ""
    requires Progress(db, guard, user, undoTag, rows, start, trace0, log0, [], pending)
    modifies db
    ensures |log0| <= |log| && db.journal == old(db.journal) + log[|log0|..] && log[..|log0|] == log0
    ensures forall e | e in log :: e.call == undoTag && !e.undone
    ensures outcome.Done? ==>
      && |deferred| <= |pending|
      && Progress(db, guard, user, undoTag, rows, start, trace, log, deferred, [])
    ensures !outcome.Done? ==> StuckRun(db.schema, guard, user, start, rows, trace)
    ensures outcome.Done? && |deferred| == |pending| ==> AllBlocked(db.schema, guard, user, deferred, db.rows)
    ensures AllApply(db.schema, guard, user, old(db.rows), pending) ==> outcome.Done? && deferred == []
  {
    hide Inverse, Records, Split, AllLogged, Run, StuckRun, AllBlocked;
    ghost var smooth := AllApply(db.schema, guard, user, db.rows, pending);
    trace, log, deferred := trace0, log0, [];
    var blocked: set<Key> := {};
    var i := 0;
    assert pending[0..] == pending;
    NothingBlocked(db.schema, guard, user, db.rows);
    while i < |pending|
      invariant 0 <= i <= |pending| && |deferred| <= i
      invariant |log0| <= |log| && db.journal == old(db.journal) + log[|log0|..] && log[..|log0|] == log0
      invariant Progress(db, guard, user, undoTag, rows, start, trace, log, deferred, pending[i..])
      invariant OnlyBlocked(deferred, blocked)
      invariant forall k | k in blocked :: OfKey(deferred, k) != []
      invariant |deferred| == i ==> AllBlocked(db.schema, guard, user, deferred, db.rows)
      invariant smooth ==> deferred == [] && AllApply(db.schema, guard, user, db.rows, pending[i..])
    {
      var row := pending[i];
      assert pending[i..] == [row] + pending[i + 1..];
      if row.key in blocked {
        SplitDefer(Entries(trace), deferred, row, pending[i + 1..], rows, blocked);
        assert blocked + {row.key} == blocked;
        if |deferred| == i {
          StillBlocked(db.schema, guard, user, deferred, row, db.rows);
        }
        OneMore(deferred, row, blocked);
        deferred := deferred + [row];
      } else {
        ghost var before := db.rows;
        var result;
        ghost var more;
        result, more := Attempt(db, guard, user, row, undoTag);
        if result.Done? {
          ghost var s := Step(row, before, db.rows);
          AllLoggedGrows(db.schema, undoTag, trace, log, s, more);
          RunGrows(db.schema, guard, user, start, trace, before, s);
          SplitApply(Entries(trace), deferred, row, pending[i + 1..], rows);
          trace, log := trace + [s], log + more;
        } else if result.ForeignKeyViolation? {
          SplitDefer(Entries(trace), deferred, row, pending[i + 1..], rows, blocked);
          if |deferred| == i {
            StillBlocked(db.schema, guard, user, deferred, row, db.rows);
          }
          OneMore(deferred, row, blocked);
          deferred := deferred + [row];
          blocked := blocked + {row.key};
        } else {
          StuckAt(db.schema, guard, user, start, rows, trace, db.rows, deferred, row, pending[i + 1..], result);
          return result, deferred, trace, log;
        }
      }
      i := i + 1;
    }
    assert pending[i..] == [];
    outcome := Done;
  }

  /** Applies the inverses of `rows` (newest write first) in as many passes as
      it takes; a pass that applies nothing is refused. When it is done,
      `trace` is the run it made: every entry applied, each row's own entries
      in the order of `rows`. */
  method Replay(db: Database, guard: Guard, user: User, rows: seq<Entry>, undoTag: string)
    returns (outcome: Outcome, ghost trace: seq<Step>, ghost log: seq<Entry>)
    requires undoTag != ""
    modifies db
    ensures db.journal == old(db.journal) + log
    ensures forall e | e in log :: e.call == undoTag && !e.undone
    ensures outcome.Done? ==>
      && Run(db.schema, guard, user, old(db.rows), trace, db.rows)
      && (forall k :: OfKey(Entries(trace), k) == OfKey(rows, k))
      && AllLogged(db.schema, undoTag, trace, log)
    // It is refused only where nothing more can be done, and never when the
    // inverses apply as they stand.
    ensures !outcome.Done? ==> StuckRun(db.schema, guard, user, old(db.rows), rows, trace)
    ensures AllApply(db.schema, guard, user, old(db.rows), rows) ==> outcome.Done?
  {
    hide Inverse, Records, StuckRun;
    trace, log := [], [];
    var pending := rows;
    while pending != []
      invariant db.journal == old(db.journal) + log
      invariant Progress(db, guard, user, undoTag, rows, old(db.rows), trace, log, [], pending)
      invariant pending != [] && AllApply(db.schema, guard, user, old(db.rows), rows) ==>
          AllApply(db.schema, guard, user, db.rows, pending)
      decreases |pending|
    {
      var deferred;
      outcome, deferred, trace, log := Pass(db, guard, user, pending, undoTag, rows, old(db.rows), trace, log);
      if !outcome.Done? {
        return;
      }
      if |deferred| == |pending| {
        SplitRound(Entries(trace), deferred, rows);
        StuckRound(db.schema, guard, user, old(db.rows), rows, trace, db.rows, deferred);
        return Conflict(deferred[0].key), trace, log;
      }
      SplitRound(Entries(trace), deferred, rows);
      pending := deferred;
    }
    forall k ensures OfKey(Entries(trace), k) == OfKey(rows, k) {
      assert SplitAt(Entries(trace), [], pending, rows, k);
    }
    outcome := Done;
  }

  lemma StuckRound(schema: Schema, guard: Guard, user: User, start: Rows, rows: seq<Entry>, trace: seq<Step>, end: Rows,
                   left: seq<Entry>)
    requires Run(schema, guard, user, start, trace, end) && Split(Entries(trace), [], left, rows)
    requires left != [] && AllBlocked(schema, guard, user, left, end)
    ensures StuckRun(schema, guard, user, start, rows, trace)
  {
    hide Inverse, Split;
  }

  /** The deferred entries are the pending ones of the next pass. */
  lemma SplitRound(done: seq<Entry>, deferred: seq<Entry>, rows: seq<Entry>)
    requires Split(done, deferred, [], rows)
    ensures Split(done, [], deferred, rows)
  {
    forall k ensures SplitAt(done, [], deferred, rows, k) {
      assert SplitAt(done, deferred, [], rows, k);
    }
  }
}
