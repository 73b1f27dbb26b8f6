/** The guess limiter on a user row: reserve a guess, lock, clear. */
module AttemptLimiter {
  import opened Wrappers

  type Time = int

  datatype Limit = Limit(maxAttempts: nat, lockout: int)

  /** The committed counter and lock of one factor. */
  datatype Row = Row(attempts: nat, lockedUntil: Option<Time>)

  // --- the atomic steps on the row ------------------------------------------------------

  predicate Unlocked(row: Row, now: Time) {
    row.lockedUntil.None? || row.lockedUntil.value <= now
  }

  function Locked(limit: Limit, now: Time): Row {
    Row(0, Some(now + limit.lockout))
  }

  /** Reserving commits the new count, or the lock when the count is over the limit. */
  function Reserved(limit: Limit, row: Row, now: Time, lockNow: Time): Row {
    if !Unlocked(row, now) then row
    else if row.attempts + 1 > limit.maxAttempts then Locked(limit, lockNow)
    else row.(attempts := row.attempts + 1)
  }

  /** The guess number, or None when the guess is refused. */
  function GuessNumber(limit: Limit, row: Row, now: Time): Option<nat> {
    if Unlocked(row, now) && row.attempts + 1 <= limit.maxAttempts then Some(row.attempts + 1) else None
  }

  class UserRow {
    var attempts: nat
    var lockedUntil: Option<Time>
    /** The last TOTP step and the backup codes that have been used. */
    var lastStep: Option<int>
    var usedCodes: set<nat>

    constructor ()
      ensures Current() == Row(0, None) && lastStep == None && usedCodes == {}
    {
      attempts, lockedUntil, lastStep, usedCodes := 0, None, None, {};
    }

    function Current(): Row
      reads this
    {
      Row(attempts, lockedUntil)
    }

    /** One transaction: the row stays locked from the increment to the commit,
        also when it goes on to engage the lock. */
    method ReserveAttempt(limit: Limit, now: Time, lockNow: Time) returns (count: Option<nat>)
      modifies `attempts, `lockedUntil
      ensures count == GuessNumber(limit, old(Current()), now)
      ensures Current() == Reserved(limit, old(Current()), now, lockNow)
    {
      if lockedUntil.Some? && now < lockedUntil.value {
        return None;
      }
      attempts := attempts + 1;
      if attempts > limit.maxAttempts {
        EngageLock(limit, lockNow);
        return None;
      }
      count := Some(attempts);
    }

    method EngageLock(limit: Limit, now: Time)
      modifies `attempts, `lockedUntil
      ensures Current() == Locked(limit, now)
    {
      attempts, lockedUntil := 0, Some(now + limit.lockout);
    }

    method ClearAttempts()
      modifies `attempts, `lockedUntil
      ensures Current() == Row(0, None)
    {
      attempts, lockedUntil := 0, None;
    }

    /** The update that moves the used step forward, or loses. On a row that has
        seen the claims `history`, it decides as the next claim of that history. */
    method ClaimTotpStep(step: int) returns (claimed: bool)
      modifies `lastStep
      ensures lastStep == Advanced(old(lastStep), step)
      ensures forall history | old(lastStep) == LastStep(history) ::
        && (claimed <==> StepAccepted(history + [step], |history|))
        && lastStep == LastStep(history + [step])
    {
      ghost var before := lastStep;
      claimed := lastStep.None? || lastStep.value < step;
      if claimed {
        lastStep := Some(step);
      }
      forall history | before == LastStep(history)
        ensures claimed <==> StepAccepted(history + [step], |history|)
        ensures lastStep == LastStep(history + [step])
      {
        assert (history + [step])[..|history|] == history;
      }
    }

    /** The conditional UPDATE that marks a backup code used: it wins exactly when
        no claim of the row's history was for that code. */
    method ClaimBackupCode(code: nat) returns (claimed: bool)
      modifies `usedCodes
      ensures forall history | old(usedCodes) == UsedCodes(history) ::
        && (claimed <==> code !in history)
        && usedCodes == UsedCodes(history + [code])
    {
      ghost var before := usedCodes;
      claimed := code !in usedCodes;
      if claimed {
        usedCodes := usedCodes + {code};
      }
      forall history | before == UsedCodes(history)
        ensures claimed <==> code !in history
        ensures usedCodes == UsedCodes(history + [code])
      {
        assert (history + [code])[..|history|] == history;
        UsedAreClaimed(history);
      }
    }
  }

  // --- interleaved requests ----------------------------------------------------------------

  /** The row and the guesses being checked, by request, with their numbers. */
  datatype State = State(row: Row, checking: map<nat, nat>)

  datatype Action = Reserve | Fail | Succeed

  /** One atomic step of one request. It takes effect at `at`; its clock was read
      at `read`, and again at `lockRead` when it engages a lock. */
  datatype Step = Step(request: nat, action: Action, at: Time, read: Time, lockRead: Time)

  predicate Grants(limit: Limit, s: State, step: Step) {
    step.action == Reserve && GuessNumber(limit, s.row, step.read).Some?
  }

  /** The step sets the counter back to zero. */
  predicate Resets(limit: Limit, s: State, step: Step) {
    match step.action
    case Reserve => Unlocked(s.row, step.read) && !Grants(limit, s, step)
    case Fail => step.request in s.checking && s.checking[step.request] >= limit.maxAttempts
    case Succeed => true
  }

  predicate Enabled(s: State, step: Step) {
    if step.action == Reserve then step.request !in s.checking else step.request in s.checking
  }

  function After(limit: Limit, s: State, step: Step): State
    requires Enabled(s, step)
  {
    match step.action
    case Reserve =>
      var number := GuessNumber(limit, s.row, step.read);
      State(Reserved(limit, s.row, step.read, step.lockRead),
            if number.Some? then s.checking[step.request := number.value] else s.checking)
    case Fail =>
      State(if s.checking[step.request] >= limit.maxAttempts then Locked(limit, step.lockRead) else s.row,
            s.checking - {step.request})
    case Succeed => State(Row(0, None), s.checking - {step.request})
  }

  /** A run of interleaved requests: time does not go back, and every clock read
      comes at most `delay` before the step takes effect. */
  ghost predicate Run(limit: Limit, delay: int, states: seq<State>, steps: seq<Step>) {
    && |states| == |steps| + 1
    && states[0] == State(Row(0, None), map[])
    && (forall i | 0 <= i < |steps| ::
          && Enabled(states[i], steps[i]) && states[i + 1] == After(limit, states[i], steps[i])
          && steps[i].at - delay <= steps[i].read <= steps[i].lockRead <= steps[i].at)
    && (forall i, j | 0 <= i < j < |steps| :: steps[i].at <= steps[j].at)
  }

  /** In every reachable state the counter is within the limit, and so is every
      number that was granted. */
  lemma {:induction false} CounterWithinLimit(limit: Limit, delay: int, states: seq<State>, steps: seq<Step>, n: nat)
    requires Run(limit, delay, states, steps) && n < |states|
    ensures states[n].row.attempts <= limit.maxAttempts
    ensures forall r | r in states[n].checking :: 1 <= states[n].checking[r] <= limit.maxAttempts
  {
    if n > 0 {
      CounterWithinLimit(limit, delay, states, steps, n - 1);
    }
  }

  /** How many of the steps from `i` up to `j` are grants. */
  function GrantCount(limit: Limit, states: seq<State>, steps: seq<Step>, i: nat, j: nat): nat
    requires i <= j <= |steps| <= |states|
  {
    if i == j then 0 else
    GrantCount(limit, states, steps, i, j - 1) + if Grants(limit, states[j - 1], steps[j - 1]) then 1 else 0
  }

  ghost predicate NoResets(limit: Limit, states: seq<State>, steps: seq<Step>, i: nat, j: nat)
    requires i <= j <= |steps| <= |states|
  {
    forall k | i <= k < j :: !Resets(limit, states[k], steps[k])
  }

  /** Between resets the counter counts the grants. */
  lemma {:induction false} CounterCountsGrants(limit: Limit, delay: int, states: seq<State>, steps: seq<Step>, i: nat, j: nat)
    requires Run(limit, delay, states, steps) && i <= j <= |steps|
    requires NoResets(limit, states, steps, i, j)
    ensures states[j].row.attempts == states[i].row.attempts + GrantCount(limit, states, steps, i, j)
  {
    if i < j {
      CounterCountsGrants(limit, delay, states, steps, i, j - 1);
      assert !Resets(limit, states[j - 1], steps[j - 1]);
    }
  }

  /** A success leaves no trace: the next guess is number one, and the counter
      counts only the grants since then. */
  lemma FreshAfterSuccess(limit: Limit, delay: int, states: seq<State>, steps: seq<Step>, i: nat, j: nat)
    requires Run(limit, delay, states, steps) && i < j <= |steps| && steps[i].action == Succeed
    requires NoResets(limit, states, steps, i + 1, j)
    ensures states[j].row.attempts == GrantCount(limit, states, steps, i + 1, j)
    ensures limit.maxAttempts >= 1 && i + 1 < |steps| && steps[i + 1].action == Reserve ==>
      GuessNumber(limit, states[i + 1].row, steps[i + 1].read) == Some(1)
  {
    CounterCountsGrants(limit, delay, states, steps, i + 1, j);
  }

  /** Two grants with no reset between them carry different numbers, the later one the higher. */
  lemma GrantsAreDistinct(limit: Limit, delay: int, states: seq<State>, steps: seq<Step>, i: nat, j: nat)
    requires Run(limit, delay, states, steps) && i < j < |steps|
    requires Grants(limit, states[i], steps[i]) && Grants(limit, states[j], steps[j])
    requires NoResets(limit, states, steps, i, j)
    ensures GuessNumber(limit, states[i].row, steps[i].read).value < GuessNumber(limit, states[j].row, steps[j].read).value
  {
    CounterCountsGrants(limit, delay, states, steps, i + 1, j);
  }

  /** From a lock on, as long as no guess succeeds, every grant waits until the
      lockout has passed since any moment before the lock. */
  lemma {:induction false} LockHolds(limit: Limit, delay: int, states: seq<State>, steps: seq<Step>, first: nat, lock: nat, n: nat)
    requires Run(limit, delay, states, steps) && first <= lock < n < |states|
    requires Resets(limit, states[lock], steps[lock])
    requires forall k | lock <= k < n :: steps[k].action != Succeed
    ensures states[n].row.lockedUntil.Some?
    ensures states[n].row.lockedUntil.value >= steps[first].at - delay + limit.lockout
  {
    assert steps[first].at <= steps[n - 1].at;
    if n > lock + 1 {
      LockHolds(limit, delay, states, steps, first, lock, n - 1);
    }
  }

  /** Any maxAttempts + 1 grants in a row with no success between the first and
      the last span at least the lockout, less the time between a clock read
      and its step. */
  lemma GrantsSpanTheLockout(limit: Limit, delay: int, states: seq<State>, steps: seq<Step>, first: nat, last: nat)
    requires Run(limit, delay, states, steps) && first < last < |steps|
    requires Grants(limit, states[first], steps[first]) && Grants(limit, states[last], steps[last])
    requires GrantCount(limit, states, steps, first, last) >= limit.maxAttempts
    requires forall k | first < k < last :: steps[k].action != Succeed
    ensures steps[last].at - steps[first].at >= limit.lockout - delay
  {
    CounterWithinLimit(limit, delay, states, steps, last + 1);
    if NoResets(limit, states, steps, first, last) {
      CounterCountsGrants(limit, delay, states, steps, first, last);
      assert false;
    }
    var lock :| first <= lock < last && Resets(limit, states[lock], steps[lock]);
    assert lock != first;
    LockHolds(limit, delay, states, steps, first, lock, last);
  }

  // --- the delay really costs that much -----------------------------------------------------

  lemma AnotherStep(limit: Limit, delay: int, states0: seq<State>, steps0: seq<Step>, step: Step)
      returns (states: seq<State>, steps: seq<Step>)
    requires Run(limit, delay, states0, steps0) && Enabled(states0[|steps0|], step)
    requires step.at - delay <= step.read <= step.lockRead <= step.at
    requires forall i | 0 <= i < |steps0| :: steps0[i].at <= step.at
    ensures Run(limit, delay, states, steps)
    ensures states == states0 + [After(limit, states0[|steps0|], step)] && steps == steps0 + [step]
  {
    states, steps := states0 + [After(limit, states0[|steps0|], step)], steps0 + [step];
    forall i | 0 <= i < |steps|
      ensures Enabled(states[i], steps[i]) && states[i + 1] == After(limit, states[i], steps[i])
      ensures steps[i].at - delay <= steps[i].read <= steps[i].lockRead <= steps[i].at
    {
      if i < |steps0| {
        assert states[i] == states0[i] && states[i + 1] == states0[i + 1] && steps[i] == steps0[i];
      }
    }
  }

  /** `count` requests, numbered from `request`, that reserve at `at` after the
      run and are all granted. */
  lemma {:induction false} Burst(limit: Limit, delay: int, states0: seq<State>, steps0: seq<Step>, count: nat, at: Time, request: nat)
      returns (states: seq<State>, steps: seq<Step>)
    requires Run(limit, delay, states0, steps0) && delay >= 0
    requires forall i | 0 <= i < |steps0| :: steps0[i].at <= at
    requires Unlocked(states0[|steps0|].row, at) && states0[|steps0|].row.attempts + count <= limit.maxAttempts
    requires forall r | r in states0[|steps0|].checking :: r < request
    ensures Run(limit, delay, states, steps) && |steps| == |steps0| + count
    ensures states0 <= states && steps0 <= steps
    ensures forall i | |steps0| <= i < |steps| :: Grants(limit, states[i], steps[i]) && steps[i].at == at
    ensures var last := states0[|steps0|];
      && states[|steps|].row == last.row.(attempts := last.row.attempts + count)
      && (count > 0 ==> request + count - 1 in states[|steps|].checking
                        && states[|steps|].checking[request + count - 1] == last.row.attempts + count)
      && forall r | r in states[|steps|].checking :: r < request + count
  {
    states, steps := states0, steps0;
    if count > 0 {
      states, steps := Burst(limit, delay, states0, steps0, count - 1, at, request);
      var before, beforeSteps := states, steps;
      states, steps := AnotherStep(limit, delay, states, steps, Step(request + count - 1, Reserve, at, at, at));
      assert forall i | 0 <= i < |before| :: states[i] == before[i];
    }
  }

  lemma {:induction false} AllGrants(limit: Limit, states: seq<State>, steps: seq<Step>, i: nat, m: nat, j: nat)
    requires i <= m <= j <= |steps| <= |states|
    requires forall k | m <= k < j :: Grants(limit, states[k], steps[k])
    ensures GrantCount(limit, states, steps, i, j) == GrantCount(limit, states, steps, i, m) + (j - m)
  {
    if m < j {
      AllGrants(limit, states, steps, i, m, j - 1);
    }
  }

  /** Two grants `first` and `last`, with at least `maxAttempts` grants from the
      one up to the other and no success between them. */
  ghost predicate GrantsApart(limit: Limit, delay: int, states: seq<State>, steps: seq<Step>, first: nat, last: nat) {
    && Run(limit, delay, states, steps) && first < last < |steps|
    && Grants(limit, states[first], steps[first]) && Grants(limit, states[last], steps[last])
    && GrantCount(limit, states, steps, first, last) >= limit.maxAttempts
    && forall k | first < k < last :: steps[k].action != Succeed
  }

  /** One guess is left unfinished while the account locks and opens again; then
      it fails, and locks the account from an early clock. */
  lemma StaleFailure(limit: Limit, delay: int) returns (states: seq<State>, steps: seq<Step>)
    requires limit.maxAttempts >= 1 && 0 <= delay <= limit.lockout
    ensures var first := limit.maxAttempts + 1;
      && Run(limit, delay, states, steps) && |steps| == first + 2
      && Grants(limit, states[first], steps[first]) && steps[first].at == limit.lockout
      && steps[first + 1].action == Fail
      && (forall i | 0 <= i < |steps| :: steps[i].at <= limit.lockout)
    ensures states[|steps|].row == Row(0, Some(2 * limit.lockout - delay))
    ensures forall r | r in states[|steps|].checking :: r <= limit.maxAttempts
  {
    var n, lockout := limit.maxAttempts, limit.lockout;
    var states0, steps0 := Burst(limit, delay, [State(Row(0, None), map[])], [], n, 0, 0);
    var states1, steps1 := AnotherStep(limit, delay, states0, steps0, Step(n, Reserve, 0, 0, 0));
    var states2, steps2 := AnotherStep(limit, delay, states1, steps1, Step(n, Reserve, lockout, lockout, lockout));
    states, steps := AnotherStep(limit, delay, states2, steps2, Step(n - 1, Fail, lockout, lockout - delay, lockout - delay));
  }

  /** For every limit and every delay up to the lockout there is a run that loses
      the whole delay. */
  lemma DelayIsLost(limit: Limit, delay: int) returns (states: seq<State>, steps: seq<Step>, first: nat, last: nat)
    requires limit.maxAttempts >= 1 && 0 <= delay <= limit.lockout
    ensures GrantsApart(limit, delay, states, steps, first, last)
    ensures steps[last].at - steps[first].at == limit.lockout - delay
  {
    hide GrantCount, Run;
    var n := limit.maxAttempts;
    var states0, steps0 := StaleFailure(limit, delay);
    RunLength(limit, delay, states0, steps0);
    states, steps := Burst(limit, delay, states0, steps0, n, 2 * limit.lockout - delay, n + 1);
    RunLength(limit, delay, states, steps);
    first, last := n + 1, |steps| - 1;
    assert steps[first] == steps0[first] && states[first] == states0[first] && steps[first + 1] == steps0[first + 1];
    OneGrant(limit, states, steps, first);
    AllGrants(limit, states, steps, first, |steps0|, last);
    forall k | first < k < last ensures steps[k].action != Succeed {
      assert k < |steps0| ==> k == first + 1;
      assert k >= |steps0| ==> Grants(limit, states[k], steps[k]);
    }
  }

  lemma RunLength(limit: Limit, delay: int, states: seq<State>, steps: seq<Step>)
    requires Run(limit, delay, states, steps)
    ensures |states| == |steps| + 1
  {
  }

  lemma OneGrant(limit: Limit, states: seq<State>, steps: seq<Step>, first: nat)
    requires first + 2 <= |steps| <= |states|
    requires Grants(limit, states[first], steps[first]) && steps[first + 1].action == Fail
    ensures GrantCount(limit, states, steps, first, first + 2) == 1
  {
    assert GrantCount(limit, states, steps, first, first) == 0;
    assert GrantCount(limit, states, steps, first, first + 1) == 1;
  }

  /** So, whatever the limit, maxAttempts + 1 grants always span a full lockout
      if and only if no time passes between a clock read and its step. */
  lemma FullLockoutIff(limit: Limit, delay: int)
    requires limit.maxAttempts >= 1 && limit.lockout > 0
    ensures (forall states: seq<State>, steps: seq<Step>, first: nat, last: nat | GrantsApart(limit, delay, states, steps, first, last) ::
               steps[last].at - steps[first].at >= limit.lockout)
       <==> delay <= 0
  {
    hide GrantCount, Grants;
    forall states: seq<State>, steps: seq<Step>, first: nat, last: nat | GrantsApart(limit, delay, states, steps, first, last)
      ensures steps[last].at - steps[first].at >= limit.lockout - delay
    {
      GrantsSpanTheLockout(limit, delay, states, steps, first, last);
    }
    if delay > 0 {
      var lost := if delay < limit.lockout then delay else limit.lockout;
      var states, steps, first, last := DelayIsLost(limit, lost);
      assert GrantsApart(limit, delay, states, steps, first, last);
    }
  }

  // --- one request by itself ----------------------------------------------------------------

  datatype Verdict = Accepted | Invalid | AccountLocked

  /** A password check with its limit: the steps that the runs above interleave. */
  method VerifyWithLockout(row: UserRow, limit: Limit, matches: bool, now: Time, lockNow: Time, later: Time)
    returns (verdict: Verdict)
    modifies row
    ensures var before := State(old(row.Current()), map[]);
      var reserved := After(limit, before, Step(0, Reserve, now, now, lockNow));
      if 0 !in reserved.checking then
        verdict == AccountLocked && row.Current() == reserved.row
      else
        && verdict == (if matches then Accepted else Invalid)
        && row.Current() == After(limit, reserved, Step(0, if matches then Succeed else Fail, later, later, later)).row
    ensures row.lastStep == old(row.lastStep) && row.usedCodes == old(row.usedCodes)
  {
    var count := row.ReserveAttempt(limit, now, lockNow);
    if count.None? {
      return AccountLocked;
    }
    if !matches {
      if count.value >= limit.maxAttempts {
        row.EngageLock(limit, later);
      }
      return Invalid;
    }
    row.ClearAttempts();
    verdict := Accepted;
  }

  // --- one-time codes -------------------------------------------------------------------------

  /** The stored step after a claim: it only moves forward. */
  function Advanced(last: Option<int>, step: int): Option<int> {
    if last.None? || last.value < step then Some(step) else last
  }

  /** The last used step after a sequence of claims. */
  function LastStep(claims: seq<int>): Option<int> {
    if claims == [] then None else Advanced(LastStep(claims[..|claims| - 1]), claims[|claims| - 1])
  }

  /** The `i`-th claim of the sequence wins. */
  predicate StepAccepted(claims: seq<int>, i: nat)
    requires i < |claims|
  {
    var last := LastStep(claims[..i]);
    last.None? || last.value < claims[i]
  }

  /** Whatever the order in which racing requests claim steps, a claim wins
      exactly when its step is newer than every step claimed before it. */
  lemma StepAcceptedIff(claims: seq<int>, i: nat)
    requires i < |claims|
    ensures StepAccepted(claims, i) <==> forall j | 0 <= j < i :: claims[j] < claims[i]
  {
    forall j | 0 <= j < i ensures LastStep(claims[..i]).Some? && LastStep(claims[..i]).value >= claims[j] {
      LastStepCovers(claims, j, i);
    }
    if LastStep(claims[..i]).Some? {
      var j := LastStepClaimed(claims[..i]);
      assert claims[..i][j] == claims[j];
    }
  }

  lemma {:induction false} LastStepClaimed(claims: seq<int>) returns (i: nat)
    requires LastStep(claims).Some?
    ensures i < |claims| && claims[i] == LastStep(claims).value
  {
    var n := |claims| - 1;
    if LastStep(claims) == Some(claims[n]) {
      i := n;
    } else {
      i := LastStepClaimed(claims[..n]);
    }
  }

  /** So a step is accepted at most once, and never after a later one. */
  lemma StepsAcceptedOnce(claims: seq<int>, i: nat, j: nat)
    requires i < j < |claims| && StepAccepted(claims, j)
    ensures claims[i] < claims[j]
  {
    hide StepAccepted;
    StepAcceptedIff(claims, j);
  }

  lemma {:induction false} LastStepCovers(claims: seq<int>, i: nat, j: nat)
    requires i < j <= |claims|
    ensures LastStep(claims[..j]).Some? && LastStep(claims[..j]).value >= claims[i]
  {
    assert claims[..j][..j - 1] == claims[..j - 1];
    if i < j - 1 {
      LastStepCovers(claims, i, j - 1);
    }
  }

  /** The backup codes used up by a sequence of claims, one conditional update at a time. */
  function UsedCodes(claims: seq<nat>): set<nat> {
    if claims == [] then {} else
    var used := UsedCodes(claims[..|claims| - 1]);
    var code := claims[|claims| - 1];
    if code !in used then used + {code} else used
  }

  lemma {:induction false} UsedAreClaimed(claims: seq<nat>)
    ensures forall code :: code in UsedCodes(claims) <==> code in claims
  {
    if claims != [] {
      UsedAreClaimed(claims[..|claims| - 1]);
      assert claims == claims[..|claims| - 1] + [claims[|claims| - 1]];
    }
  }

  /** How many of the claims win with the code. */
  function Wins(claims: seq<nat>, code: nat): nat {
    if claims == [] then 0 else
    var init := claims[..|claims| - 1];
    Wins(init, code) + if claims[|claims| - 1] == code && code !in UsedCodes(init) then 1 else 0
  }

  /** Over any sequence of racing claims a backup code is good for exactly one
      win, if it is claimed at all. */
  lemma {:induction false} CodeWinsOnce(claims: seq<nat>, code: nat)
    ensures Wins(claims, code) == if code in claims then 1 else 0
  {
    if claims != [] {
      var init := claims[..|claims| - 1];
      CodeWinsOnce(init, code);
      UsedAreClaimed(init);
      assert claims == init + [claims[|claims| - 1]];
    }
  }
}
