/** Confirming a pending tool call: one compare-and-set claim, many requests. */
module ConfirmClaim {
  import opened Wrappers

  datatype Status = Idle | Awaiting

  /** pending_call_id: the id of a call, or the marker of a claimed one. */
  datatype Pending = CallId(id: string) | Running

  /** The two columns of the conversation row that the protocol uses. */
  datatype Row = Row(status: Status, pending: Option<Pending>)

  // --- the atomic statements ---------------------------------------------------------------

  predicate IsPending(row: Row, id: string) {
    row == Row(Awaiting, Some(CallId(id)))
  }

  predicate IsClaimed(row: Row) {
    row == Row(Awaiting, Some(Running))
  }

  const IDLE := Row(Idle, None)

  /** The compare-and-set: only a row where the call is pending changes. */
  function Claimed(row: Row, id: string): Row {
    if IsPending(row, id) then Row(Awaiting, Some(Running)) else row
  }

  function Released(row: Row, id: string): Row {
    if IsClaimed(row) then Row(Awaiting, Some(CallId(id))) else row
  }

  function Parked(id: string): Row {
    Row(Awaiting, Some(CallId(id)))
  }

  class Conversation {
    var status: Status
    var pendingCallId: Option<Pending>

    constructor ()
      ensures Current() == IDLE
    {
      status, pendingCallId := Idle, None;
    }

    function Current(): Row
      reads this
    {
      Row(status, pendingCallId)
    }

    /** The claim: a conditional update that at most one request wins. */
    method ClaimPending(id: string) returns (claimed: bool)
      modifies this
      ensures claimed <==> IsPending(old(Current()), id)
      ensures Current() == Claimed(old(Current()), id)
    {
      claimed := status == Awaiting && pendingCallId == Some(CallId(id));
      if claimed {
        pendingCallId := Some(Running);
      }
    }

    /** Puts a claimed call back. */
    method ReleaseClaim(id: string)
      modifies this
      ensures Current() == Released(old(Current()), id)
    {
      if status == Awaiting && pendingCallId == Some(Running) {
        pendingCallId := Some(CallId(id));
      }
    }

    /** The turn loop leaves a write call for the user. */
    method Park(id: string)
      modifies this
      ensures Current() == Parked(id)
    {
      status, pendingCallId := Awaiting, Some(CallId(id));
    }

    method BecomeIdle()
      modifies this
      ensures Current() == IDLE
    {
      status, pendingCallId := Idle, None;
    }
  }

  // --- interleaved requests ----------------------------------------------------------------------

  /** A confirm request: it has passed the first look, holds the claim, or has
      finished its tool call (or recorded the rejection) and is about to go on. */
  datatype Phase = Looked | Holding | Completed

  datatype Confirm = Confirm(id: string, approved: bool, phase: Phase)

  /** A call that ran to completion, or was rejected for good. */
  datatype Done = Done(id: string, approved: bool)

  datatype State = State(
    row: Row, confirms: map<nat, Confirm>, turns: set<nat>, parked: set<string>, done: seq<Done>)

  /** One atomic step of one request. */
  datatype Step =
    | Look(request: nat, id: string, approved: bool)
    | Claim(request: nat)
    | Release(request: nat)
    | Complete(request: nat)
    | Finish(request: nat)
    | NewMessage(request: nat)
    | ParkCall(request: nat, id: string)
    | EndTurn(request: nat, writes: bool)

  const START := State(IDLE, map[], {}, {}, [])

  predicate InPhase(s: State, request: nat, phase: Phase) {
    request in s.confirms && s.confirms[request].phase == phase
  }

  predicate Enabled(s: State, step: Step) {
    match step
    case Look(request, _, _) => request !in s.confirms && request !in s.turns
    case Claim(request) => InPhase(s, request, Looked)
    case Release(request) => InPhase(s, request, Holding)
    case Complete(request) => InPhase(s, request, Holding)
    case Finish(request) => InPhase(s, request, Completed)
    case NewMessage(request) => request !in s.confirms && request !in s.turns
    // Tool-call ids are unique.
    case ParkCall(request, id) => request in s.turns && id !in s.parked
    case EndTurn(request, _) => request in s.turns
  }

  function After(s: State, step: Step): State
    requires Enabled(s, step)
  {
    match step
    case Look(request, id, approved) =>
      if IsPending(s.row, id) then s.(confirms := s.confirms[request := Confirm(id, approved, Looked)]) else s
    case Claim(request) =>
      if IsPending(s.row, s.confirms[request].id) then
        s.(row := Claimed(s.row, s.confirms[request].id), confirms := s.confirms[request := s.confirms[request].(phase := Holding)])
      else s.(confirms := s.confirms - {request})
    case Release(request) =>
      s.(row := Released(s.row, s.confirms[request].id), confirms := s.confirms - {request})
    case Complete(request) =>
      s.(done := s.done + [Done(s.confirms[request].id, s.confirms[request].approved)],
         confirms := s.confirms[request := s.confirms[request].(phase := Completed)])
    case Finish(request) =>
      s.(row := IDLE, confirms := s.confirms - {request}, turns := s.turns + {request})
    case NewMessage(request) =>
      if s.row.status == Awaiting then s else s.(turns := s.turns + {request})
    case ParkCall(request, id) =>
      s.(row := Parked(id), turns := s.turns - {request}, parked := s.parked + {id})
    case EndTurn(request, writes) =>
      s.(row := if writes then IDLE else s.row, turns := s.turns - {request})
  }

  ghost predicate Run(states: seq<State>, steps: seq<Step>) {
    Continues(START, states, steps)
  }

  /** The steps lead from `start` through the states. */
  ghost predicate Continues(start: State, states: seq<State>, steps: seq<Step>) {
    && |states| == |steps| + 1 && states[0] == start
    && forall i | 0 <= i < |steps| :: Enabled(states[i], steps[i]) && states[i + 1] == After(states[i], steps[i])
  }

  predicate Holds(s: State, request: nat) {
    InPhase(s, request, Holding) || InPhase(s, request, Completed)
  }

  ghost predicate IsDone(s: State, id: string) {
    exists i :: 0 <= i < |s.done| && s.done[i].id == id
  }

  /** A parked call is in one place: pending, held by one request, done, or lost. */
  ghost predicate Invariant(s: State) {
    && (s.row.status == Awaiting <==> s.row.pending.Some?)
    && (forall p, q | Holds(s, p) && Holds(s, q) && p != q :: s.confirms[p].id != s.confirms[q].id)
    && (s.row.pending.Some? && s.row.pending.value.CallId? ==>
          var id := s.row.pending.value.id;
          id in s.parked && !IsDone(s, id) && forall p | Holds(s, p) :: s.confirms[p].id != id)
    && (forall p | InPhase(s, p, Holding) :: !IsDone(s, s.confirms[p].id))
    && (forall p | Holds(s, p) :: s.confirms[p].id in s.parked)
    && (forall i | 0 <= i < |s.done| :: s.done[i].id in s.parked)
    && (forall i, j | 0 <= i < j < |s.done| :: s.done[i].id != s.done[j].id)
  }

  lemma StepKeepsInvariant(s: State, step: Step)
    requires Invariant(s) && Enabled(s, step)
    ensures Invariant(After(s, step))
  {
    match step
    case Complete(request) => CompleteKeepsInvariant(s, request);
    case Release(request) => ReleaseKeepsInvariant(s, request);
    case Claim(request) => ClaimKeepsInvariant(s, request);
    case ParkCall(request, id) => ParkKeepsInvariant(s, request, id);
    case Finish(request) => FinishKeepsInvariant(s, request);
    case _ =>
      var s' := After(s, step);
      assert forall p | Holds(s', p) :: Holds(s, p);
      assert forall p | InPhase(s', p, Holding) :: InPhase(s, p, Holding);
      assert forall id | IsDone(s', id) :: IsDone(s, id);
  }

  lemma FinishKeepsInvariant(s: State, request: nat)
    requires Invariant(s) && Enabled(s, Finish(request))
    ensures Invariant(After(s, Finish(request)))
  {
    var s' := After(s, Finish(request));
    assert forall p | Holds(s', p) :: Holds(s, p);
    assert forall p | InPhase(s', p, Holding) :: InPhase(s, p, Holding);
    assert forall id | IsDone(s', id) :: IsDone(s, id);
  }

  lemma ParkKeepsInvariant(s: State, request: nat, id: string)
    requires Invariant(s) && Enabled(s, ParkCall(request, id))
    ensures Invariant(After(s, ParkCall(request, id)))
  {
    var s' := After(s, ParkCall(request, id));
    assert forall p | Holds(s', p) :: Holds(s, p);
    assert forall p | InPhase(s', p, Holding) :: InPhase(s, p, Holding);
    assert forall other | IsDone(s', other) :: IsDone(s, other);
  }

  lemma CompleteKeepsInvariant(s: State, request: nat)
    requires Invariant(s) && Enabled(s, Complete(request))
    ensures Invariant(After(s, Complete(request)))
  {
    var s' := After(s, Complete(request));
    var id := s.confirms[request].id;
    assert Holds(s, request);
    forall other | IsDone(s', other) ensures IsDone(s, other) || other == id {
      var i :| 0 <= i < |s'.done| && s'.done[i].id == other;
      assert i < |s.done| ==> s.done[i].id == other;
    }
    assert forall p | Holds(s', p) :: Holds(s, p);
    assert forall p | InPhase(s', p, Holding) :: InPhase(s, p, Holding) && p != request;
    forall i | 0 <= i < |s.done| ensures s.done[i].id != id {
      assert !IsDone(s, id);
    }
  }

  lemma ReleaseKeepsInvariant(s: State, request: nat)
    requires Invariant(s) && Enabled(s, Release(request))
    ensures Invariant(After(s, Release(request)))
  {
    var s' := After(s, Release(request));
    assert Holds(s, request);
    assert forall p | Holds(s', p) :: Holds(s, p) && p != request;
    assert forall p | InPhase(s', p, Holding) :: InPhase(s, p, Holding);
    assert forall id | IsDone(s', id) :: IsDone(s, id);
  }

  lemma ClaimKeepsInvariant(s: State, request: nat)
    requires Invariant(s) && Enabled(s, Claim(request))
    ensures Invariant(After(s, Claim(request)))
  {
    var s' := After(s, Claim(request));
    assert forall p | Holds(s', p) && p != request :: Holds(s, p);
    assert forall p | InPhase(s', p, Holding) && p != request :: InPhase(s, p, Holding);
    assert forall id | IsDone(s', id) :: IsDone(s, id);
  }

  lemma {:induction false} InvariantHolds(states: seq<State>, steps: seq<Step>, n: nat)
    requires Run(states, steps) && n < |states|
    ensures Invariant(states[n])
  {
    if n > 0 {
      InvariantHolds(states, steps, n - 1);
      StepKeepsInvariant(states[n - 1], steps[n - 1]);
    }
  }

  /** In every interleaving: awaiting means exactly that a call is pending; no
      two requests hold the same call; a call runs to completion or is rejected
      at most once, so approve and reject never both take effect. */
  lemma CallsSettleOnce(states: seq<State>, steps: seq<Step>, n: nat)
    requires Run(states, steps) && n < |states|
    ensures states[n].row.status == Awaiting <==> states[n].row.pending.Some?
    ensures forall p, q | Holds(states[n], p) && Holds(states[n], q) && states[n].confirms[p].id == states[n].confirms[q].id :: p == q
    ensures forall i, j | 0 <= i < |states[n].done| && 0 <= j < |states[n].done| && states[n].done[i].id == states[n].done[j].id :: i == j
  {
    InvariantHolds(states, steps, n);
  }

  // --- one claim in the whole conversation ----------------------------------------------------------

  /** Every message that starts a turn comes when no turn is running. */
  ghost predicate TurnsApart(states: seq<State>, steps: seq<Step>)
    requires |states| == |steps| + 1
  {
    forall i | 0 <= i < |steps| && steps[i].NewMessage? && states[i].row.status == Idle :: states[i].turns == {}
  }

  ghost predicate OneAtATime(s: State) {
    && (forall p, q | p in s.turns && q in s.turns :: p == q)
    && (forall p | Holds(s, p) :: s.turns == {} && IsClaimed(s.row))
    && (forall p, q | Holds(s, p) && Holds(s, q) :: p == q)
    && (s.turns != {} ==> s.row == Row(Idle, None))
    && (s.row.status == Awaiting <==> s.row.pending.Some?)
  }

  /** While turns do not overlap, at most one request in the conversation holds
      a claim, and no turn runs beside it. */
  lemma {:induction false} OneClaimAtATime(states: seq<State>, steps: seq<Step>, n: nat)
    requires Run(states, steps) && TurnsApart(states, steps) && n < |states|
    ensures OneAtATime(states[n])
  {
    if n > 0 {
      OneClaimAtATime(states, steps, n - 1);
      StepKeepsOne(states[n - 1], steps[n - 1]);
    }
  }

  lemma StepKeepsOne(s: State, step: Step)
    requires OneAtATime(s) && Enabled(s, step)
    requires step.NewMessage? && s.row.status == Idle ==> s.turns == {}
    ensures OneAtATime(After(s, step))
  {
    var s' := After(s, step);
    forall p | Holds(s', p) ensures Holds(s, p) || (step == Claim(p) && IsPending(s.row, s.confirms[p].id)) {
    }
    match step
    case Finish(request) => assert Holds(s, request);
    case Release(request) => assert Holds(s, request);
    case Complete(request) => assert Holds(s, request);
    case _ =>
  }

  // --- and only then ---------------------------------------------------------------------------------

  ghost predicate OneHolder(s: State) {
    forall p, q | Holds(s, p) && Holds(s, q) :: p == q
  }

  /** Whatever comes after `s`, as long as it starts no overlapping turn, two
      requests never hold a claim at once. */
  ghost predicate Secure(s: State) {
    forall states, steps, n: nat | Continues(s, states, steps) && TurnsApart(states, steps) && n < |states| :: OneHolder(states[n])
  }

  lemma {:induction false} ContinuationKeepsOne(start: State, states: seq<State>, steps: seq<Step>, n: nat)
    requires OneAtATime(start) && Continues(start, states, steps) && TurnsApart(states, steps) && n < |states|
    ensures OneAtATime(states[n])
  {
    if n > 0 {
      ContinuationKeepsOne(start, states, steps, n - 1);
      StepKeepsOne(states[n - 1], steps[n - 1]);
    }
  }

  lemma {:induction false} AboveAll(numbers: set<nat>) returns (bound: nat)
    ensures forall n | n in numbers :: n < bound
  {
    bound := 0;
    if numbers != {} {
      var n :| n in numbers;
      var rest := AboveAll(numbers - {n});
      bound := if rest <= n then n + 1 else rest;
      assert forall m | m in numbers :: m == n || m in numbers - {n};
    }
  }

  /** A call id of that length. */
  function IdOf(length: nat): (id: string)
    ensures |id| == length
  {
    seq(length, i => 'a')
  }

  /** A turn leaves a call for the user, and a request claims it. */
  lemma ParkAndClaim(start: State, states0: seq<State>, steps0: seq<Step>, turn: nat, id: string, request: nat)
      returns (states: seq<State>, steps: seq<Step>)
    requires Continues(start, states0, steps0)
    requires turn in states0[|steps0|].turns && id !in states0[|steps0|].parked
    requires request !in states0[|steps0|].confirms && request !in states0[|steps0|].turns
    ensures Continues(start, states, steps)
    ensures steps == steps0 + [ParkCall(turn, id), Look(request, id, true), Claim(request)]
    ensures var before, after := states0[|steps0|], states[|steps|];
      && after.turns == before.turns - {turn} && after.parked == before.parked + {id}
      && after.confirms == before.confirms[request := Confirm(id, true, Holding)]
  {
    states, steps := Extend(start, states0, steps0, ParkCall(turn, id));
    states, steps := Extend(start, states, steps, Look(request, id, true));
    states, steps := Extend(start, states, steps, Claim(request));
  }

  /** Two turns can always bring two holders about: each leaves a call for the
      user, and each call is claimed before the other settles. */
  lemma TwoTurnsTwoHolders(s: State, p: nat, q: nat) returns (states: seq<State>, steps: seq<Step>)
    requires p in s.turns && q in s.turns && p != q
    ensures Continues(s, states, steps) && TurnsApart(states, steps)
    ensures !OneHolder(states[|steps|])
  {
    hide After, Invariant;
    var lengths := set id | id in s.parked :: |id|;
    var length := AboveAll(lengths);
    forall id | id in s.parked ensures |id| < length {
      assert |id| in lengths;
    }
    var request := AboveAll(s.confirms.Keys + s.turns);
    var a, b := IdOf(length), IdOf(length + 1);
    assert a !in s.parked && b !in s.parked && a != b;
    states, steps := ParkAndClaim(s, [s], [], p, a, request);
    states, steps := ParkAndClaim(s, states, steps, q, b, request + 1);
    assert Holds(states[|steps|], request) && Holds(states[|steps|], request + 1);
  }

  /** At no point of a run can two requests come to hold a claim at once, by
      steps that start no further overlapping turn, if and only if the run itself
      has started none. */
  lemma OneHolderIff(states: seq<State>, steps: seq<Step>)
    requires Run(states, steps)
    ensures (forall n | 0 <= n < |states| :: Secure(states[n])) <==> TurnsApart(states, steps)
  {
    hide Holds, Invariant;
    if TurnsApart(states, steps) {
      forall n, states', steps', k: nat | 0 <= n < |states| && Continues(states[n], states', steps') && TurnsApart(states', steps') && k < |states'|
        ensures OneHolder(states'[k])
      {
        OneClaimAtATime(states, steps, n);
        ContinuationKeepsOne(states[n], states', steps', k);
      }
    } else {
      var i :| 0 <= i < |steps| && steps[i].NewMessage? && states[i].row.status == Idle && states[i].turns != {};
      var p :| p in states[i].turns;
      assert Enabled(states[i], steps[i]) && states[i + 1] == After(states[i], steps[i]);
      var states', steps' := TwoTurnsTwoHolders(states[i + 1], p, steps[i].request);
      assert !Secure(states[i + 1]);
    }
  }

  /** The condition matters: the guard on new messages looks only at the status,
      so two messages sent to an idle conversation start two turns, and then two
      requests can hold a claim at once, each on its own call. */
  lemma OverlappingTurnsShareTheClaim() returns (states: seq<State>, steps: seq<Step>)
    ensures Run(states, steps)
    ensures Holds(states[|steps|], 3) && Holds(states[|steps|], 4)
  {
    states, steps := [START], [];
    states, steps := Extend(START, states, steps, NewMessage(1));
    states, steps := Extend(START, states, steps, NewMessage(2));
    states, steps := Extend(START, states, steps, ParkCall(1, "a"));
    states, steps := Extend(START, states, steps, Look(3, "a", true));
    states, steps := Extend(START, states, steps, Claim(3));
    states, steps := Extend(START, states, steps, ParkCall(2, "b"));
    states, steps := Extend(START, states, steps, Look(4, "b", true));
    states, steps := Extend(START, states, steps, Claim(4));
  }

  lemma Extend(start: State, states0: seq<State>, steps0: seq<Step>, step: Step) returns (states: seq<State>, steps: seq<Step>)
    requires Continues(start, states0, steps0) && Enabled(states0[|steps0|], step)
    ensures Continues(start, states, steps) && steps == steps0 + [step]
    ensures states[|steps|] == After(states0[|steps0|], step)
  {
    states, steps := states0 + [After(states0[|steps0|], step)], steps0 + [step];
    forall i | 0 <= i < |steps| ensures Enabled(states[i], steps[i]) && states[i + 1] == After(states[i], steps[i]) {
      if i < |steps0| {
        assert Enabled(states0[i], steps0[i]) && states0[i + 1] == After(states0[i], steps0[i]);
      }
    }
  }

  // --- one request by itself --------------------------------------------------------------------------

  /** How the work on a claimed call ends: it is not found, its preview has
      changed, it raises, or it runs (or is rejected) to the end. */
  datatype Work = NotFound | PreviewChanged | Raised | RanToEnd

  /** What becomes of the claim: never taken, put back, or settled. */
  datatype Answer = NoPendingTool | PutBack | Settled

  /** A confirmation with nothing between its steps, and the turn that follows it
      (which may leave the next call, `leaves`, for the user): the statements on
      the row are the steps that the runs above interleave. Call ids are unique. */
  method StreamConfirm(conversation: Conversation, id: string, approved: bool, work: Work, leaves: Option<string>) returns (answer: Answer)
    requires leaves != Some(id)
    modifies conversation
    ensures answer == if !IsPending(old(conversation.Current()), id) then NoPendingTool
                      else if work == RanToEnd || (!approved && work != NotFound) then Settled else PutBack
    ensures var looked := After(State(old(conversation.Current()), map[], {}, {id}, []), Look(0, id, approved));
      if answer == NoPendingTool then
        0 !in looked.confirms && conversation.Current() == old(conversation.Current())
      else
        var holding := After(looked, Claim(0));
        && Holds(holding, 0)
        && if answer == PutBack then
             conversation.Current() == After(holding, Release(0)).row == old(conversation.Current())
           else
             var finished := After(After(holding, Complete(0)), Finish(0));
             conversation.Current() ==
               After(finished, if leaves.Some? then ParkCall(0, leaves.value) else EndTurn(0, true)).row
  {
    if conversation.status != Awaiting || conversation.pendingCallId != Some(CallId(id)) {
      return NoPendingTool;
    }
    var claimed := conversation.ClaimPending(id);
    if !claimed {
      return NoPendingTool;
    }
    if work == NotFound {
      conversation.ReleaseClaim(id);
      return PutBack;
    }
    if approved && (work == PreviewChanged || work == Raised) {
      conversation.ReleaseClaim(id);
      return PutBack;
    }
    conversation.BecomeIdle();
    if leaves.Some? {
      conversation.Park(leaves.value);
    }
    answer := Settled;
  }
}
