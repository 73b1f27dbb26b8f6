/** Undo: a call's journaled writes are taken back together, or not at all. */
module ChangeJournal {
  import opened Wrappers
  import opened Store
  import opened JournalReplay
  import opened UndoExactness
  import opened UndoRefusal

  datatype UndoResult = Undone(count: nat) | NotFound | ChangeModified

  predicate OfCall(e: Entry, user: User, call: string) {
    e.user == user && e.call == call
  }

  /** The writes of the call that have not been undone, oldest first. */
  function Pending(journal: seq<Entry>, user: User, call: string): seq<Entry> {
    if journal == [] then [] else
    var e := journal[|journal| - 1];
    Pending(journal[..|journal| - 1], user, call) + if OfCall(e, user, call) && !e.undone then [e] else []
  }

  predicate Known(journal: seq<Entry>, user: User, call: string) {
    exists e | e in journal :: OfCall(e, user, call)
  }

  function WithoutCall(journal: seq<Entry>, user: User, call: string): seq<Entry> {
    if journal == [] then [] else
    var e := journal[|journal| - 1];
    WithoutCall(journal[..|journal| - 1], user, call) + if OfCall(e, user, call) then [] else [e]
  }

  function Marked(journal: seq<Entry>, user: User, call: string): (marked: seq<Entry>)
    ensures |marked| == |journal|
    ensures forall i | 0 <= i < |journal| ::
      marked[i] == if OfCall(journal[i], user, call) then journal[i].(undone := true) else journal[i]
  {
    seq(|journal|, i requires 0 <= i < |journal| =>
      if OfCall(journal[i], user, call) then journal[i].(undone := true) else journal[i])
  }

  /** The entries that neither the call nor its undo made for the user. */
  function Elsewhere(journal: seq<Entry>, user: User, call: string): seq<Entry> {
    if journal == [] then [] else
    var e := journal[|journal| - 1];
    Elsewhere(journal[..|journal| - 1], user, call)
    + if e.user == user && (e.call == call || e.call == UndoTag(call)) then [] else [e]
  }

  function UndoTag(call: string): string {
    "undo:" + call
  }

  /** The undo's own record shows a change that reverses none of the call's writes. */
  ghost predicate SideEffect(journal: seq<Entry>, entries: seq<Entry>, user: User, undoTag: string) {
    exists e :: e in journal && OfCall(e, user, undoTag) && !Expected(entries, (e.key, e.op))
  }

  method Undo(db: Database, guard: Guard, user: User, call: string, ghost pre: Rows, ghost ownerOf: Key -> User)
    returns (r: UndoResult, ghost log: seq<Entry>, ghost trace: seq<Step>)
    modifies db
    // Refused, or nothing left to undo: nothing at all has changed.
    ensures !r.Undone? || Pending(old(db.journal), user, call) == [] ==>
      db.rows == old(db.rows) && db.journal == old(db.journal)
    ensures Pending(old(db.journal), user, call) == [] ==>
      r == if Known(old(db.journal), user, call) then Undone(0) else NotFound
    ensures r.Undone? ==> r.count == |Pending(old(db.journal), user, call)|
    // It is undone only if every row is as the call's newest write left it, ...
    ensures r.Undone? ==> NoneMovedOn(db.schema, user, Pending(old(db.journal), user, call), old(db.rows))
    // ... and refused only if the inverses got stuck or changed something else.
    ensures Pending(old(db.journal), user, call) != [] && !r.Undone? ==>
      && r == ChangeModified
      && (StuckRun(db.schema, guard, user, old(db.rows), Reversed(Pending(old(db.journal), user, call)), trace)
          || SideEffect(old(db.journal) + log, Pending(old(db.journal), user, call), user, UndoTag(call)))
    ensures r == ChangeModified ==>
      AllApply(db.schema, guard, user, old(db.rows), Reversed(Pending(old(db.journal), user, call))) ==>
      SideEffect(old(db.journal) + log, Pending(old(db.journal), user, call), user, UndoTag(call))
    // Undone: the call's entries are marked, and the undo's own entries are dropped.
    ensures r.Undone? && r.count > 0 ==>
      && (forall e | e in log :: e.call == UndoTag(call))
      && db.journal == Marked(WithoutCall(old(db.journal) + log, user, UndoTag(call)), user, call)
    ensures r.Undone? ==> Pending(db.journal, user, call) == [] && Known(db.journal, user, call)
    // Entries of other calls and other users stay as they are, in order.
    ensures r.Undone? ==> Elsewhere(db.journal, user, call) == Elsewhere(old(db.journal) + log, user, call)
    // And it is exact.
    ensures var entries := Pending(old(db.journal), user, call);
      r.Undone? && Recorded(db.schema, ownerOf, pre, entries) && Closed(db.schema, pre)
        && JournaledReferences(db.schema) && Fits(db.schema, ownerOf, old(db.rows)) ==>
      && (forall k | Touched(entries, k) :: Get(db.rows, k) == Get(pre, k))
      && (forall k: Key | k.table in db.schema.journaled && !Touched(entries, k) :: Get(db.rows, k) == Get(old(db.rows), k))
  {
    log, trace := [], [];
    var entries := Pending(db.journal, user, call);
    if entries == [] {
      assert db.journal + log == db.journal;
      r := if Known(db.journal, user, call) then Undone(0) else NotFound;
      return;
    }
    hide Inverse, Recorded, Fits, Run, AllLogged, Marked, WithoutCall, StuckRun, NoneMovedOn, AllApply;
    var savedRows, savedJournal, savedTag := db.rows, db.journal, db.tag;
    var undoTag := UndoTag(call);
    db.tag := undoTag;
    var outcome;
    outcome, trace, log := Replay(db, guard, user, Reversed(entries), undoTag);
    var clean := false;
    if outcome.Done? {
      clean := EffectsAreExpected(db.journal, entries, user, undoTag);
    }
    if !clean {
      db.rows, db.journal, db.tag := savedRows, savedJournal, savedTag;
      return ChangeModified, log, trace;
    }
    ghost var replayed := db.journal;
    db.journal := Marked(WithoutCall(db.journal, user, undoTag), user, call);
    db.tag := "";
    r := Undone(|entries|);
    MarkedIsDone(savedJournal, log, user, call);
    OthersStay(savedJournal + log, user, call);
    ExpectedFromLog(db.schema, user, trace, entries, replayed, savedJournal, log, undoTag);
    UndoneWasAsLeft(db.schema, guard, user, savedRows, trace, db.rows, entries);
    if Recorded(db.schema, ownerOf, pre, entries) && Closed(db.schema, pre)
       && JournaledReferences(db.schema) && Fits(db.schema, ownerOf, savedRows) {
      UndoIsExact(db.schema, guard, ownerOf, user, pre, entries, savedRows, trace, db.rows);
    }
  }

  /** The side-effect check: every change made under `undoTag` must be the
      inverse of one of the call's own writes. */
  method EffectsAreExpected(journal: seq<Entry>, entries: seq<Entry>, user: User, undoTag: string) returns (clean: bool)
    ensures clean <==> forall e | e in journal && OfCall(e, user, undoTag) :: Expected(entries, (e.key, e.op))
  {
    var expected := set e | e in entries :: (e.key, InverseOperation(e.op));
    for i := 0 to |journal|
      invariant forall e | e in journal[..i] && OfCall(e, user, undoTag) :: Expected(entries, (e.key, e.op))
    {
      var e := journal[i];
      assert Expected(entries, (e.key, e.op)) <==> (e.key, e.op) in expected;
      if OfCall(e, user, undoTag) && (e.key, e.op) !in expected {
        return false;
      }
    }
    clean := true;
  }

  lemma ExpectedFromLog(schema: Schema, user: User, trace: seq<Step>, entries: seq<Entry>,
                        journal: seq<Entry>, before: seq<Entry>, log: seq<Entry>, undoTag: string)
    requires AllLogged(schema, undoTag, trace, log) && journal == before + log
    requires forall e | e in journal && OfCall(e, user, undoTag) :: Expected(entries, (e.key, e.op))
    ensures OnlyExpectedEffects(schema, user, trace, entries)
  {
    forall i, k | 0 <= i < |trace| && Changed(schema, trace[i], k) && ChangedOwner(trace[i], k) == user
      ensures Expected(entries, EffectOf(trace[i], k))
    {
      var e := EntryFor(undoTag, k, Get(trace[i].before, k), Get(trace[i].after, k));
      assert e in log;
      assert e in journal && OfCall(e, user, undoTag);
    }
  }

  lemma {:induction false} PendingMembers(journal: seq<Entry>, user: User, call: string, e: Entry)
    ensures e in Pending(journal, user, call) <==> e in journal && e.user == user && e.call == call && !e.undone
  {
    if journal != [] {
      var n := |journal| - 1;
      PendingMembers(journal[..n], user, call, e);
      assert journal == journal[..n] + [journal[n]];
    }
  }

  lemma {:induction false} WithoutCallMembers(journal: seq<Entry>, user: User, call: string, e: Entry)
    ensures e in WithoutCall(journal, user, call) <==> e in journal && !OfCall(e, user, call)
  {
    if journal != [] {
      var n := |journal| - 1;
      WithoutCallMembers(journal[..n], user, call, e);
      assert journal == journal[..n] + [journal[n]];
    }
  }

  lemma {:induction false} OthersStay(journal: seq<Entry>, user: User, call: string)
    ensures Elsewhere(Marked(WithoutCall(journal, user, UndoTag(call)), user, call), user, call) == Elsewhere(journal, user, call)
  {
    if journal != [] {
      var init, e := journal[..|journal| - 1], journal[|journal| - 1];
      OthersStay(init, user, call);
      var kept := WithoutCall(init, user, UndoTag(call));
      if !OfCall(e, user, UndoTag(call)) {
        var marked := Marked(kept + [e], user, call);
        assert WithoutCall(journal, user, UndoTag(call)) == kept + [e];
        assert marked[..|kept|] == Marked(kept, user, call);
        assert marked[|kept|] == if OfCall(e, user, call) then e.(undone := true) else e;
      } else {
        assert WithoutCall(journal, user, UndoTag(call)) == kept;
      }
    }
  }

  /** Once marked, the call is known and has nothing pending: undoing it again
      returns 0 and changes nothing. */
  lemma MarkedIsDone(journal: seq<Entry>, log: seq<Entry>, user: User, call: string)
    requires Pending(journal, user, call) != []
    ensures var marked := Marked(WithoutCall(journal + log, user, UndoTag(call)), user, call);
      Pending(marked, user, call) == [] && Known(marked, user, call)
  {
    var kept := WithoutCall(journal + log, user, UndoTag(call));
    var marked := Marked(kept, user, call);
    if Pending(marked, user, call) != [] {
      PendingMembers(marked, user, call, Pending(marked, user, call)[0]);
      assert false;
    }
    var e := Pending(journal, user, call)[0];
    PendingMembers(journal, user, call, e);
    assert |UndoTag(call)| == |call| + 5;
    assert e in journal + log;
    WithoutCallMembers(journal + log, user, UndoTag(call), e);
    var i :| 0 <= i < |kept| && kept[i] == e;
    assert marked[i] in marked && OfCall(marked[i], user, call);
  }

  /** The order and completeness of a replay, said of the call's history: each
      row's writes are reversed newest first, and every write exactly once. */
  lemma ReplayReversesHistory(trace: seq<Step>, entries: seq<Entry>)
    requires forall k :: OfKey(Entries(trace), k) == OfKey(Reversed(entries), k)
    ensures forall k :: OfKey(Entries(trace), k) == Reversed(OfKey(entries, k))
    ensures multiset(Entries(trace)) == multiset(entries)
  {
    forall k ensures OfKey(Entries(trace), k) == Reversed(OfKey(entries, k)) {
      HistoryReversed(entries, k);
    }
    forall e ensures multiset(Entries(trace))[e] == multiset(entries)[e] {
      OfKeyCount(Entries(trace), e);
      OfKeyCount(entries, e);
      HistoryReversed(entries, e.key);
      ReversedCount(OfKey(entries, e.key));
    }
  }

  lemma {:induction false} HistoryReversed(s: seq<Entry>, k: Key)
    ensures OfKey(Reversed(s), k) == Reversed(OfKey(s, k))
  {
    if s != [] {
      var n := |s| - 1;
      HistoryReversed(s[..n], k);
      OfKeyConcat([s[n]], Reversed(s[..n]), k);
      OfKeyOne(s[n], k);
      if s[n].key == k {
        assert OfKey(s, k)[..|OfKey(s, k)| - 1] == OfKey(s[..n], k);
      }
    }
  }

  lemma {:induction false} ReversedCount(s: seq<Entry>)
    ensures multiset(Reversed(s)) == multiset(s)
  {
    if s != [] {
      var n := |s| - 1;
      ReversedCount(s[..n]);
      assert s == s[..n] + [s[n]];
    }
  }

  lemma {:induction false} OfKeyCount(s: seq<Entry>, e: Entry)
    ensures multiset(OfKey(s, e.key))[e] == multiset(s)[e]
  {
    if s != [] {
      var n := |s| - 1;
      OfKeyCount(s[..n], e);
      assert s == s[..n] + [s[n]];
    }
  }
}
