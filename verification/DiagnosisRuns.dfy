/** One diagnosis run and the tasks that compete for it: claim, retry, stale recovery and
    supersession by task id.

    Claim, recovery and the final ownership check with its save are atomic steps, and a task id has
    one live execution at a time. Enqueueing is two steps, because the task is sent before its id
    is registered on the row. */
module DiagnosisRuns {
  import opened Options

  type TaskId = nat

  datatype Status = Pending | Running | Success | Failed

  const MAX_RETRIES: nat := 2

  /** `recorder` is the task whose result the row holds. */
  datatype Row = Row(
    status: Status,
    owner: Option<TaskId>,
    heartbeat: Option<int>,
    startedAt: Option<int>,
    recorder: Option<TaskId>)

  /** `messages` and `live` map queued and executing tasks to their retry count; `registering`
      holds tasks that were sent but whose id is not yet on the row. */
  datatype State = State(
    row: Row,
    issued: nat,
    registering: set<TaskId>,
    messages: map<TaskId, nat>,
    live: map<TaskId, nat>)

  datatype Step =
    | Enqueue
    | Register(task: TaskId)
    | Claim(task: TaskId, now: int)
    | Finish(task: TaskId, ok: bool, now: int)
    | Recover(now: int)
    | ManualRetry

  /******* The row updates *******/

  /** A claim is refused for a completed run, a superseded task, or a run with a fresh heartbeat. */
  predicate MayClaim(row: Row, task: TaskId, now: int, staleMinutes: int) {
    && row.status != Success
    && (row.owner == None || row.owner == Some(task))
    && !(row.status == Running && row.heartbeat.Some? && row.heartbeat.value >= now - staleMinutes)
  }

  function ClaimRow(row: Row, task: TaskId, now: int, staleMinutes: int): Row {
    if MayClaim(row, task, now, staleMinutes)
    then row.(status := Running, startedAt := Some(now), heartbeat := Some(now))
    else row
  }

  predicate Retries(row: Row, task: TaskId, retries: nat, ok: bool) {
    !ok && row.owner == Some(task) && retries < MAX_RETRIES
  }

  /** Only the registered owner records anything. */
  function FinishRow(row: Row, task: TaskId, retries: nat, ok: bool, now: int): Row {
    if row.owner != Some(task) then row
    else if ok then row.(status := Success, heartbeat := Some(now), recorder := Some(task))
    else if retries < MAX_RETRIES then row.(status := Pending, heartbeat := Some(now))
    else row.(status := Failed, heartbeat := Some(now))
  }

  predicate IsStale(row: Row, now: int, staleMinutes: int) {
    row.status == Running &&
    ((row.heartbeat.Some? && row.heartbeat.value < now - staleMinutes) ||
     (row.heartbeat == None && row.startedAt.Some? && row.startedAt.value < now - staleMinutes))
  }

  function Disowned(row: Row): Row {
    row.(status := Pending, owner := None)
  }

  class DiagnosisRow {
    var status: Status
    var owner: Option<TaskId>
    var heartbeat: Option<int>
    var startedAt: Option<int>
    var recorder: Option<TaskId>

    constructor ()
      ensures Value() == Row(Pending, None, None, None, None)
    {
      status, owner, heartbeat, startedAt, recorder := Pending, None, None, None, None;
    }

    function Value(): Row
      reads this
    {
      Row(status, owner, heartbeat, startedAt, recorder)
    }

    method ClaimTask(task: TaskId, now: int, staleMinutes: int) returns (claimed: bool)
      modifies this
      ensures claimed == MayClaim(old(Value()), task, now, staleMinutes)
      ensures Value() == ClaimRow(old(Value()), task, now, staleMinutes)
      ensures claimed <==>
        && old(status) != Success && (old(owner) == None || old(owner) == Some(task))
        && (old(status) == Running && old(heartbeat).Some? ==> old(heartbeat).value < now - staleMinutes)
      ensures owner == old(owner) && recorder == old(recorder)
      ensures if claimed then status == Running && startedAt == heartbeat == Some(now)
        else status == old(status) && startedAt == old(startedAt) && heartbeat == old(heartbeat)
    {
      if status == Success {
        return false;
      }
      if owner != None && owner != Some(task) {
        return false;
      }
      if status == Running && heartbeat != None {
        if heartbeat.value >= now - staleMinutes {
          return false;
        }
      }
      status, startedAt, heartbeat := Running, Some(now), Some(now);
      return true;
    }

    method FinishTask(task: TaskId, retries: nat, ok: bool, now: int) returns (retry: bool)
      modifies this
      ensures retry == Retries(old(Value()), task, retries, ok)
      ensures Value() == FinishRow(old(Value()), task, retries, ok, now)
      ensures owner == old(owner) && startedAt == old(startedAt)
      ensures owner != Some(task) ==>
        !retry && status == old(status) && heartbeat == old(heartbeat) && recorder == old(recorder)
      ensures owner == Some(task) ==>
        && retry == (!ok && retries < 2) && heartbeat == Some(now)
        && status == (if ok then Success else if retry then Pending else Failed)
        && recorder == if ok then Some(task) else old(recorder)
    {
      if owner != Some(task) {
        return false;
      }
      heartbeat := Some(now);
      if ok {
        status, recorder := Success, Some(task);
        return false;
      }
      if retries < MAX_RETRIES {
        status := Pending;
        return true;
      }
      status := Failed;
      return false;
    }

    method RecoverIfStale(now: int, staleMinutes: int) returns (recovered: bool)
      modifies this
      ensures recovered == IsStale(old(Value()), now, staleMinutes)
      ensures Value() == if recovered then Disowned(old(Value())) else old(Value())
      ensures recovered <==> old(status) == Running && match old(heartbeat)
        case Some(beat) => beat < now - staleMinutes
        case None => old(startedAt).Some? && old(startedAt).value < now - staleMinutes
      ensures heartbeat == old(heartbeat) && startedAt == old(startedAt) && recorder == old(recorder)
      ensures if recovered then status == Pending && owner == None else status == old(status) && owner == old(owner)
    {
      if status != Running {
        return false;
      }
      var staleBefore := now - staleMinutes;
      recovered :=
        (heartbeat != None && heartbeat.value < staleBefore) ||
        (heartbeat == None && startedAt != None && startedAt.value < staleBefore);
      if recovered {
        status, owner := Pending, None;
      }
    }

    method RegisterTask(task: TaskId)
      modifies this
      ensures Value() == old(Value()).(owner := Some(task))
    {
      owner := Some(task);
    }
  }

  /******* The protocol *******/

  /** Sending a task with a fresh id; its registration is still to come. */
  function Sent(s: State, row: Row): State {
    s.(row := row, issued := s.issued + 1, registering := s.registering + {s.issued},
       messages := s.messages[s.issued := 0])
  }

  ghost predicate Enabled(s: State, step: Step, staleMinutes: int) {
    match step
    case Enqueue => true
    case Register(t) => t in s.registering
    case Claim(t, _) => t in s.messages && t !in s.live
    case Finish(t, _, _) => t in s.live
    case Recover(now) => IsStale(s.row, now, staleMinutes)
    case ManualRetry => s.row.status != Running
  }

  function Apply(s: State, step: Step, staleMinutes: int): State
    requires Enabled(s, step, staleMinutes)
  {
    match step
    case Enqueue => Sent(s, s.row)
    case Register(t) => s.(row := s.row.(owner := Some(t)), registering := s.registering - {t})
    case Claim(t, now) =>
      s.(row := ClaimRow(s.row, t, now, staleMinutes), messages := s.messages - {t},
         live := if MayClaim(s.row, t, now, staleMinutes) then s.live[t := s.messages[t]] else s.live)
    case Finish(t, ok, now) =>
      s.(row := FinishRow(s.row, t, s.live[t], ok, now), live := s.live - {t},
         messages := if Retries(s.row, t, s.live[t], ok) then s.messages[t := s.live[t] + 1] else s.messages)
    case Recover(now) => Sent(s, Disowned(s.row))
    case ManualRetry => Sent(s, Disowned(s.row))
  }

  ghost predicate Runs(s: State, steps: seq<Step>, t: State, staleMinutes: int)
    decreases |steps|
  {
    if steps == [] then s == t
    else Enabled(s, steps[0], staleMinutes) && Runs(Apply(s, steps[0], staleMinutes), steps[1..], t, staleMinutes)
  }

  /** A new row, before its first enqueue. */
  const Fresh: State := State(Row(Pending, None, None, None, None), 0, {}, map[], map[])

  /******* Task ids *******/

  ghost predicate IdsInv(s: State) {
    && (forall t :: t in s.registering || t in s.messages || t in s.live || s.row.owner == Some(t) ==> t < s.issued)
    && (forall t :: t in s.messages ==> t !in s.live && s.messages[t] <= MAX_RETRIES)
    && (forall t :: t in s.live ==> s.live[t] <= MAX_RETRIES)
    && (forall t :: t in s.registering ==> s.row.owner != Some(t))
  }

  lemma IdsStep(s: State, step: Step, w: int)
    requires IdsInv(s) && Enabled(s, step, w)
    ensures IdsInv(Apply(s, step, w))
  {
  }

  /** A task that was issued, is past its registration and does not own the row never owns it again. */
  lemma {:induction false} DisownedForever(s: State, steps: seq<Step>, u: State, w: int, t: TaskId)
    requires IdsInv(s) && Runs(s, steps, u, w)
    requires t < s.issued && t !in s.registering && s.row.owner != Some(t)
    ensures u.row.owner != Some(t)
    decreases |steps|
  {
    if steps == [] {
    } else {
      IdsStep(s, steps[0], w);
      DisownedForever(Apply(s, steps[0], w), steps[1..], u, w, t);
    }
  }

  /** Stale recovery disowns the old task for good: it records nothing ever after. */
  lemma RecoveryIsFinal(s: State, now: int, steps: seq<Step>, u: State, w: int, t: TaskId, ok: bool, at: int)
    requires IdsInv(s) && s.row.owner == Some(t) && Enabled(s, Recover(now), w)
    requires Runs(Apply(s, Recover(now), w), steps, u, w) && Enabled(u, Finish(t, ok, at), w)
    ensures Apply(u, Finish(t, ok, at), w).row == u.row
  {
    IdsStep(s, Recover(now), w);
    DisownedForever(Apply(s, Recover(now), w), steps, u, w, t);
  }

  /** The row waits for its registered task, whose message is queued. */
  ghost predicate Awaits(s: State, t: TaskId) {
    s.row.status == Pending && s.row.owner == Some(t) && t in s.messages
  }

  /** The step neither changes the owner nor delivers the task's message. */
  predicate LeavesAlone(step: Step, t: TaskId) {
    !step.Register? && !step.Recover? && !step.ManualRetry? && !(step.Claim? && step.task == t)
  }

  /** A row that waits for its task keeps waiting, whatever other tasks do, and accepts its claim. */
  lemma {:induction false} WaitsForOwner(s: State, steps: seq<Step>, u: State, w: int, t: TaskId, at: int)
    requires IdsInv(s) && Awaits(s, t) && Runs(s, steps, u, w)
    requires forall k :: 0 <= k < |steps| ==> LeavesAlone(steps[k], t)
    ensures Awaits(u, t) && Enabled(u, Claim(t, at), w) && MayClaim(u.row, t, at, w)
    decreases |steps|
  {
    if steps == [] {
    } else {
      IdsStep(s, steps[0], w);
      WaitsForOwner(Apply(s, steps[0], w), steps[1..], u, w, t, at);
    }
  }

  /** Recovery and a manual retry restart the run: once the task they send is registered, the row waits for
      that task's claim, and accepts it whenever it comes, unless the owner is changed before. */
  lemma {:induction false} RecoveryRestarts(s: State, restart: Step, steps: seq<Step>, u: State, w: int, at: int)
    requires IdsInv(s) && (restart.Recover? || restart.ManualRetry?) && Enabled(s, restart, w)
    requires var r := Apply(s, restart, w);
      Enabled(r, Register(s.issued), w) && Runs(Apply(r, Register(s.issued), w), steps, u, w)
    requires forall k :: 0 <= k < |steps| ==> LeavesAlone(steps[k], s.issued)
    ensures Enabled(u, Claim(s.issued, at), w)
    ensures var v := Apply(u, Claim(s.issued, at), w);
      v.row.status == Running && v.row.owner == Some(s.issued) && s.issued in v.live
  {
    var r := Apply(s, restart, w);
    IdsStep(s, restart, w);
    IdsStep(r, Register(s.issued), w);
    WaitsForOwner(Apply(r, Register(s.issued), w), steps, u, w, s.issued, at);
  }

  /** The step looks at the clock no later than `deadline`. */
  predicate By(step: Step, deadline: int) {
    match step
    case Claim(_, now) => now <= deadline
    case Recover(now) => now <= deadline
    case _ => true
  }

  /** The lease: until its heartbeat is older than the limit, nothing takes the run from its executing
      owner but its own end or another registration. No later claim or recovery touches the row. */
  lemma {:induction false} LeaseHolds(s: State, steps: seq<Step>, u: State, w: int, t: TaskId, beat: int)
    requires s.row.status == Running && s.row.heartbeat == Some(beat) && s.row.owner == Some(t) && t in s.live
    requires Runs(s, steps, u, w)
    requires forall k :: 0 <= k < |steps| ==>
      By(steps[k], beat + w) && !steps[k].Register? && !(steps[k].Finish? && steps[k].task == t)
    ensures u.row == s.row && t in u.live
    decreases |steps|
  {
    if steps == [] {
    } else {
      LeaseHolds(Apply(s, steps[0], w), steps[1..], u, w, t, beat);
    }
  }

  /** An accepted claim of the registered task starts such a lease: the row it wrote stays for as long. */
  lemma ClaimStartsLease(s: State, t: TaskId, now: int, steps: seq<Step>, u: State, w: int)
    requires Enabled(s, Claim(t, now), w) && s.row.owner == Some(t) && s.row.status != Success
    requires s.row.status == Running && s.row.heartbeat.Some? ==> s.row.heartbeat.value < now - w
    requires Runs(Apply(s, Claim(t, now), w), steps, u, w)
    requires forall k :: 0 <= k < |steps| ==>
      By(steps[k], now + w) && !steps[k].Register? && !(steps[k].Finish? && steps[k].task == t)
    ensures u.row == Row(Running, Some(t), Some(now), Some(now), s.row.recorder) && t in u.live
  {
    LeaseHolds(Apply(s, Claim(t, now), w), steps, u, w, t, now);
  }

  /** Supersession: from its registration until the next registration, recovery or manual retry, the
      registered task is the only one whose end changes the row. */
  lemma {:induction false} RegisteredTaskRules(s: State, t: TaskId, steps: seq<Step>, u: State, w: int)
    requires Enabled(s, Register(t), w) && Runs(Apply(s, Register(t), w), steps, u, w)
    requires forall k :: 0 <= k < |steps| ==> !steps[k].Register? && !steps[k].Recover? && !steps[k].ManualRetry?
    ensures u.row.owner == Some(t)
    ensures forall v, ok, now :: v != t && Enabled(u, Finish(v, ok, now), w) ==>
      Apply(u, Finish(v, ok, now), w).row == u.row
  {
    OwnerStays(Apply(s, Register(t), w), steps, u, w);
  }

  lemma {:induction false} OwnerStays(s: State, steps: seq<Step>, u: State, w: int)
    requires Runs(s, steps, u, w)
    requires forall k :: 0 <= k < |steps| ==> !steps[k].Register? && !steps[k].Recover? && !steps[k].ManualRetry?
    ensures u.row.owner == s.row.owner
    decreases |steps|
  {
    if steps == [] {
    } else {
      OwnerStays(Apply(s, steps[0], w), steps[1..], u, w);
    }
  }

  /******* Retries *******/

  /** How often task `t` ends. */
  function Ends(steps: seq<Step>, t: TaskId): nat {
    if steps == [] then 0
    else (if steps[0].Finish? && steps[0].task == t then 1 else 0) + Ends(steps[1..], t)
  }

  /** The retry count that the task carries, or will carry. */
  function RetryCount(s: State, t: TaskId): nat {
    if t in s.live then s.live[t] else if t in s.messages then s.messages[t] else 0
  }

  ghost predicate Gone(s: State, t: TaskId) {
    t < s.issued && t !in s.live && t !in s.messages
  }

  lemma {:induction false} GoneForever(s: State, steps: seq<Step>, u: State, w: int, t: TaskId)
    requires IdsInv(s) && Runs(s, steps, u, w) && Gone(s, t)
    ensures Gone(u, t)
    decreases |steps|
  {
    if steps == [] {
    } else {
      IdsStep(s, steps[0], w);
      GoneForever(Apply(s, steps[0], w), steps[1..], u, w, t);
    }
  }

  lemma CountStep(s: State, step: Step, w: int, t: TaskId)
    requires IdsInv(s) && Enabled(s, step, w) && !Gone(Apply(s, step, w), t)
    ensures RetryCount(Apply(s, step, w), t) ==
      RetryCount(s, t) + if step.Finish? && step.task == t then 1 else 0
  {
  }

  lemma {:induction false} CountRuns(s: State, steps: seq<Step>, u: State, w: int, t: TaskId)
    requires IdsInv(s) && Runs(s, steps, u, w) && !Gone(u, t)
    ensures RetryCount(u, t) == RetryCount(s, t) + Ends(steps, t)
    decreases |steps|
  {
    if steps == [] {
    } else {
      var m := Apply(s, steps[0], w);
      IdsStep(s, steps[0], w);
      if Gone(m, t) { GoneForever(m, steps[1..], u, w, t); }
      CountStep(s, steps[0], w, t);
      CountRuns(m, steps[1..], u, w, t);
    }
  }

  lemma {:induction false} RunsIds(s: State, steps: seq<Step>, u: State, w: int)
    requires IdsInv(s) && Runs(s, steps, u, w)
    ensures IdsInv(u)
    decreases |steps|
  {
    if steps == [] {
    } else {
      IdsStep(s, steps[0], w);
      RunsIds(Apply(s, steps[0], w), steps[1..], u, w);
    }
  }

  /** Over every run an executing task has ended before at most twice. When it ends again while it owns the
      row, a failure is retried before the third end and recorded as final at the third. */
  lemma FailsAtThirdEnd(steps: seq<Step>, u: State, w: int, t: TaskId, now: int)
    requires Runs(Fresh, steps, u, w) && t in u.live
    ensures Ends(steps, t) <= 2
    ensures u.row.owner == Some(t) ==>
      var v := Apply(u, Finish(t, false, now), w);
      if Ends(steps, t) < 2 then v.row.status == Pending && t in v.messages
      else v.row.status == Failed && Gone(v, t)
  {
    RunsIds(Fresh, steps, u, w);
    CountRuns(Fresh, steps, u, w, t);
  }

  /******* Success is never overwritten *******/

  /** Enqueues of one run do not overlap: nothing is sent while a registration is outstanding. */
  ghost predicate Serial(s: State, steps: seq<Step>, w: int)
    decreases |steps|
  {
    steps != [] ==>
      && Enabled(s, steps[0], w)
      && (steps[0].Enqueue? || steps[0].Recover? || steps[0].ManualRetry? ==> s.registering == {})
      && Serial(Apply(s, steps[0], w), steps[1..], w)
  }

  /** A task that runs before its registration does so on an unowned row; a completed run's owner
      is no longer executing. */
  ghost predicate Inv(s: State) {
    && IdsInv(s)
    && (forall t, u :: t in s.registering && u in s.registering ==> t == u)
    && (forall t :: t in s.registering && t in s.live ==> s.row.owner == None)
    && (s.row.status == Success ==> s.row.owner.Some? && s.row.owner.value !in s.live)
  }

  lemma StepInv(s: State, step: Step, w: int)
    requires Inv(s) && Enabled(s, step, w)
    requires step.Enqueue? || step.Recover? || step.ManualRetry? ==> s.registering == {}
    ensures Inv(Apply(s, step, w))
  {
  }

  lemma {:induction false} RunsInv(s: State, steps: seq<Step>, u: State, w: int)
    requires Inv(s) && Runs(s, steps, u, w) && Serial(s, steps, w)
    ensures Inv(u)
    decreases |steps|
  {
    if steps == [] {
    } else {
      StepInv(s, steps[0], w);
      RunsInv(Apply(s, steps[0], w), steps[1..], u, w);
    }
  }

  /** No task is registered on a completed row while it is still executing. */
  ghost predicate Prompt(s: State, steps: seq<Step>, w: int)
    decreases |steps|
  {
    steps != [] ==>
      && Enabled(s, steps[0], w)
      && (steps[0].Register? && s.row.status == Success ==> steps[0].task !in s.live)
      && Prompt(Apply(s, steps[0], w), steps[1..], w)
  }

  ghost predicate Recorded(s: State) {
    s.row.status == Success && s.row.owner.Some? && s.row.owner.value !in s.live
  }

  lemma {:induction false} SuccessStays(s: State, steps: seq<Step>, u: State, w: int)
    requires Recorded(s) && Runs(s, steps, u, w) && Prompt(s, steps, w)
    requires forall i :: 0 <= i < |steps| ==> !steps[i].ManualRetry?
    ensures Recorded(u) && u.row.recorder == s.row.recorder
    decreases |steps|
  {
    if steps == [] {
    } else {
      SuccessStays(Apply(s, steps[0], w), steps[1..], u, w);
    }
  }

  /** Exactly a late registration exposes a recorded success: registering `t` lets some finish
      change the row if and only if `t` is executing at that moment. */
  lemma LateRegistrationExposes(s: State, t: TaskId, w: int)
    requires Recorded(s) && t in s.registering
    ensures t in s.live <==>
      var r := Apply(s, Register(t), w);
      exists v, ok, now :: Enabled(r, Finish(v, ok, now), w) && Apply(r, Finish(v, ok, now), w).row != r.row
  {
    var r := Apply(s, Register(t), w);
    if t in s.live {
      var now := if r.row.heartbeat == Some(0) then 1 else 0;
      assert Enabled(r, Finish(t, true, now), w) && Apply(r, Finish(t, true, now), w).row.heartbeat == Some(now);
    }
  }

  lemma {:induction false} SerialIsPrompt(s: State, steps: seq<Step>, w: int)
    requires Inv(s) && Serial(s, steps, w)
    ensures Prompt(s, steps, w)
    decreases |steps|
  {
    if steps == [] {
    } else {
      StepInv(s, steps[0], w);
      SerialIsPrompt(Apply(s, steps[0], w), steps[1..], w);
    }
  }

  /** In every run of enqueue, claim, finish and recover whose enqueues do not overlap, a recorded
      success is final: no later task replaces it. Only an explicit manual retry reopens the run. */
  lemma SuccessIsFinal(before: seq<Step>, s: State, steps: seq<Step>, u: State, w: int)
    requires Runs(Fresh, before, s, w) && Serial(Fresh, before, w) && s.row.status == Success
    requires Runs(s, steps, u, w) && Serial(s, steps, w) && forall i :: 0 <= i < |steps| ==> !steps[i].ManualRetry?
    ensures u.row.status == Success && u.row.recorder == s.row.recorder
  {
    RunsInv(Fresh, before, s, w);
    SerialIsPrompt(s, steps, w);
    SuccessStays(s, steps, u, w);
  }

  /** Task 0 starts before its registration, is recovered as stale and replaced by task 1, which succeeds. */
  const OVERLAP: seq<Step> :=
    [Enqueue, Claim(0, 0), Recover(100), Register(1), Claim(1, 101), Finish(1, true, 102)]

  const REPLACED: State :=
    State(Row(Success, Some(1), Some(102), Some(101), Some(1)), 2, {0}, map[], map[0 := 0])

  /** Overlapping enqueues break it: the late registration of task 0 lets it overwrite the success
      that task 1 recorded. */
  lemma OverlapOverwrites()
    ensures Runs(Fresh, OVERLAP, REPLACED, 30) && REPLACED.row.status == Success && REPLACED.row.recorder == Some(1)
    ensures Enabled(REPLACED, Register(0), 30)
    ensures var r := Apply(REPLACED, Register(0), 30);
      Enabled(r, Finish(0, true, 103), 30) && Apply(r, Finish(0, true, 103), 30).row.recorder == Some(0)
  {
  }
}
