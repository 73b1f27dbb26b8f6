/** What the trigger leaves in the journal when a tool call runs: exactly the
    record that undoing the call relies on. */
module CallRecord {
  import opened Wrappers
  import opened Store
  import opened JournalReplay
  import opened UndoExactness
  import opened ChangeJournal

  /** In the journaled tables `rows` is what the recorded writes make of `pre`. */
  ghost predicate Tracks(schema: Schema, pre: Rows, entries: seq<Entry>, rows: Rows) {
    forall k: Key | k.table in schema.journaled :: Get(rows, k) == Get(Written(pre, entries), k)
  }

  /** The ids of the rows that `log` inserts are new: no row had them before the
      call, and no write of the call so far. */
  ghost predicate NewIds(pre: Rows, entries: seq<Entry>, log: seq<Entry>) {
    forall e | e in log && e.op == Insert :: e.key !in pre && forall d | d in entries :: d.key != e.key
  }

  lemma WrittenNext(pre: Rows, entries: seq<Entry>, e: Entry, k: Key)
    ensures Get(Written(pre, entries + [e]), k) == if k == e.key then e.after else Get(Written(pre, entries), k)
  {
    assert (entries + [e])[..|entries|] == entries;
  }

  /** The state between two triggers of a statement: the rows logged so far are
      new, the others are as before. */
  lemma {:induction false} WrittenBetween(schema: Schema, call: string, pre: Rows, entries: seq<Entry>, before: Rows, after: Rows,
                                          log: seq<Entry>, n: nat, k: Key)
    requires Records(schema, call, before, after, log) && Tracks(schema, pre, entries, before)
    requires n <= |log| && k.table in schema.journaled
    ensures Get(Written(pre, entries + log[..n]), k) ==
      if exists i :: 0 <= i < n && log[i].key == k then Get(after, k) else Get(before, k)
  {
    hide Tracks, Written;
    if n == 0 {
      assert entries + log[..0] == entries;
      TracksAt(schema, pre, entries, before, k);
    } else {
      WrittenBetween(schema, call, pre, entries, before, after, log, n - 1, k);
      var e := log[n - 1];
      assert e in log && e.after == Get(after, e.key);
      WrittenNext(pre, entries + log[..n - 1], e, k);
      assert entries + log[..n] == (entries + log[..n - 1]) + [e];
    }
  }

  lemma TracksAt(schema: Schema, pre: Rows, entries: seq<Entry>, rows: Rows, k: Key)
    requires Tracks(schema, pre, entries, rows) && k.table in schema.journaled
    ensures Get(Written(pre, entries), k) == Get(rows, k)
  {
  }

  lemma RecordedGrows(schema: Schema, ownerOf: Key -> User, pre: Rows, entries: seq<Entry>, e: Entry)
    requires Recorded(schema, ownerOf, pre, entries) && e.key.table in schema.journaled
    requires e.before == Get(Written(pre, entries), e.key) && ImageFits(schema, ownerOf, e.key, e.before)
    requires e.op == Insert ==> e.key !in pre && forall d | d in entries :: d.key != e.key
    requires e.op != Insert ==> e.before.Some?
    ensures Recorded(schema, ownerOf, pre, entries + [e])
  {
    hide ImageFits;
    assert (entries + [e])[..|entries|] == entries;
  }

  lemma {:induction false} RecordedPart(schema: Schema, ownerOf: Key -> User, call: string, pre: Rows, entries: seq<Entry>,
                                        before: Rows, after: Rows, log: seq<Entry>, n: nat)
    requires Records(schema, call, before, after, log) && Tracks(schema, pre, entries, before)
    requires Recorded(schema, ownerOf, pre, entries) && NewIds(pre, entries, log)
    requires Fits(schema, ownerOf, before) && n <= |log|
    ensures Recorded(schema, ownerOf, pre, entries + log[..n])
  {
    hide Tracks, ImageFits, Recorded, Written, Fits;
    if n == 0 {
      assert entries + log[..0] == entries;
    } else {
      RecordedPart(schema, ownerOf, call, pre, entries, before, after, log, n - 1);
      var e := log[n - 1];
      assert e in log;
      WrittenBetween(schema, call, pre, entries, before, after, log, n - 1, e.key);
      ImageOf(schema, ownerOf, before, e.key);
      RecordedGrows(schema, ownerOf, pre, entries + log[..n - 1], e);
      assert entries + log[..n] == (entries + log[..n - 1]) + [e];
    }
  }

  lemma ImageOf(schema: Schema, ownerOf: Key -> User, rows: Rows, k: Key)
    requires Fits(schema, ownerOf, rows)
    ensures ImageFits(schema, ownerOf, k, Get(rows, k))
  {
  }

  /** A tagged statement extends the call's record: the trigger's entries are the
      images its writes found, in a state that the record already tracks. */
  lemma StatementExtends(schema: Schema, ownerOf: Key -> User, call: string, pre: Rows, entries: seq<Entry>,
                         before: Rows, after: Rows, log: seq<Entry>)
    requires call != "" && Records(schema, call, before, after, log) && Tracks(schema, pre, entries, before)
    requires Recorded(schema, ownerOf, pre, entries) && NewIds(pre, entries, log) && Fits(schema, ownerOf, before)
    ensures Recorded(schema, ownerOf, pre, entries + log) && Tracks(schema, pre, entries + log, after)
  {
    assert log[..|log|] == log;
    RecordedPart(schema, ownerOf, call, pre, entries, before, after, log, |log|);
    forall k: Key | k.table in schema.journaled ensures Get(after, k) == Get(Written(pre, entries + log), k) {
      WrittenBetween(schema, call, pre, entries, before, after, log, |log|, k);
      if Get(before, k) != Get(after, k) {
        var e := EntryFor(call, k, Get(before, k), Get(after, k));
        assert e in log;
        var i :| 0 <= i < |log| && log[i] == e;
        assert log[i].key == k;
      }
    }
  }

  // --- a whole call -------------------------------------------------------------------------------------

  /** One tagged statement, with the state on either side of it and what its
      triggers logged. */
  datatype Write = Write(before: Rows, after: Rows, log: seq<Entry>)

  function Logs(writes: seq<Write>): seq<Entry> {
    if writes == [] then [] else Logs(writes[..|writes| - 1]) + writes[|writes| - 1].log
  }

  function StateBefore(pre: Rows, writes: seq<Write>): Rows {
    if writes == [] then pre else writes[|writes| - 1].after
  }

  /** The call's statements, with nobody else's between them, on the user's own rows. */
  ghost predicate CallRun(schema: Schema, ownerOf: Key -> User, user: User, call: string, pre: Rows, writes: seq<Write>) {
    writes == [] ||
    var last, earlier := writes[|writes| - 1], writes[..|writes| - 1];
    && CallRun(schema, ownerOf, user, call, pre, earlier)
    && last.before == StateBefore(pre, earlier) && Fits(schema, ownerOf, last.before)
    && Records(schema, call, last.before, last.after, last.log)
    && NewIds(pre, Logs(earlier), last.log)
    && forall e | e in last.log :: e.user == user
  }

  lemma {:induction false} CallIsTracked(schema: Schema, ownerOf: Key -> User, user: User, call: string, pre: Rows, writes: seq<Write>)
    requires call != "" && CallRun(schema, ownerOf, user, call, pre, writes)
    ensures Recorded(schema, ownerOf, pre, Logs(writes)) && Tracks(schema, pre, Logs(writes), StateBefore(pre, writes))
    ensures forall e | e in Logs(writes) :: OfCall(e, user, call) && !e.undone
  {
    hide Recorded, Tracks, NewIds, Fits;
    if writes == [] {
      NothingWritten(schema, ownerOf, pre);
    } else {
      var last, earlier := writes[|writes| - 1], writes[..|writes| - 1];
      CallIsTracked(schema, ownerOf, user, call, pre, earlier);
      StatementExtends(schema, ownerOf, call, pre, Logs(earlier), last.before, last.after, last.log);
    }
  }

  lemma NothingWritten(schema: Schema, ownerOf: Key -> User, pre: Rows)
    ensures Recorded(schema, ownerOf, pre, []) && Tracks(schema, pre, [], pre)
  {
  }

  lemma {:induction false} PendingConcat(a: seq<Entry>, b: seq<Entry>, user: User, call: string)
    ensures Pending(a + b, user, call) == Pending(a, user, call) + Pending(b, user, call)
  {
    if b == [] {
      assert a + b == a;
    } else {
      var n := |b| - 1;
      assert (a + b)[..|a + b| - 1] == a + b[..n];
      PendingConcat(a, b[..n], user, call);
    }
  }

  lemma {:induction false} PendingAll(log: seq<Entry>, user: User, call: string)
    requires forall e | e in log :: OfCall(e, user, call) && !e.undone
    ensures Pending(log, user, call) == log
  {
    if log != [] {
      PendingAll(log[..|log| - 1], user, call);
      assert log == log[..|log| - 1] + [log[|log| - 1]];
    }
  }

  lemma PendingNone(log: seq<Entry>, user: User, call: string)
    requires forall e | e in log :: !OfCall(e, user, call)
    ensures Pending(log, user, call) == []
  {
    if Pending(log, user, call) != [] {
      PendingMembers(log, user, call, Pending(log, user, call)[0]);
      assert false;
    }
  }

  /** However long before and after it the journal is: what is pending for the call
      is exactly the trigger's log of its statements, and that is the record of
      the state before the call on which the exactness of undo rests. */
  lemma CallIsRecorded(schema: Schema, ownerOf: Key -> User, user: User, call: string, pre: Rows, writes: seq<Write>,
                       earlier: seq<Entry>, later: seq<Entry>)
    requires call != "" && CallRun(schema, ownerOf, user, call, pre, writes)
    requires forall e | e in earlier + later :: !OfCall(e, user, call)
    ensures var entries := Pending(earlier + Logs(writes) + later, user, call);
      entries == Logs(writes) && Recorded(schema, ownerOf, pre, entries)
  {
    CallIsTracked(schema, ownerOf, user, call, pre, writes);
    PendingConcat(earlier + Logs(writes), later, user, call);
    PendingConcat(earlier, Logs(writes), user, call);
    PendingAll(Logs(writes), user, call);
    forall e | e in earlier ensures !OfCall(e, user, call) {
      assert e in earlier + later;
    }
    forall e | e in later ensures !OfCall(e, user, call) {
      assert e in earlier + later;
    }
    PendingNone(earlier, user, call);
    PendingNone(later, user, call);
  }
}
