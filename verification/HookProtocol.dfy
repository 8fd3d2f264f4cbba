/** Concurrent hooks updating one session's state file.

    Every mutator runs load, mutate, save under the session lock.  Calls wait,
    time out, fail to save and die at any step, in any interleaving.  Call
    numbers are fresh, so one number is one call. */
module HookProtocol {
  import opened Wrappers
  import opened HookState
  import Sorting

  type CallId = nat

  datatype Phase =
    | Waiting
    | Locked
    | Loaded(state: State)
    | Saved
    | Returned
    | TimedOut
    | SaveFailed
    | Died

  datatype Call = Call(op: Op, phase: Phase)

  /** `log` is a history variable: the calls whose save replaced the file, in
      save order. */
  datatype System = System(
    file: Option<State>,
    lock: Option<CallId>,
    calls: map<CallId, Call>,
    log: seq<CallId>)

  datatype Event =
    | Start(id: CallId, op: Op)
    | TryLock(id: CallId)
    | Deadline(id: CallId)
    | Load(id: CallId)
    | Save(id: CallId)
    | FailSave(id: CallId)
    | Return(id: CallId)
    | Crash(id: CallId)

  const EMPTY: System := System(None, None, map[], [])

  function Content(s: System): State {
    match s.file case None => DEFAULT case Some(state) => state
  }

  function Move(s: System, id: CallId, phase: Phase): System
    requires id in s.calls
  {
    s.(calls := s.calls[id := s.calls[id].(phase := phase)])
  }

  function Unlock(s: System, id: CallId): System {
    if s.lock == Some(id) then s.(lock := None) else s
  }

  predicate Live(phase: Phase) {
    phase.Waiting? || phase.Locked? || phase.Loaded? || phase.Saved?
  }

  function Exec(s: System, e: Event): System {
    if e.Start? then
      if e.id in s.calls then s else s.(calls := s.calls[e.id := Call(e.op, Waiting)])
    else if e.id !in s.calls then s
    else
      var c := s.calls[e.id];
      match e
      case TryLock(id) => if c.phase.Waiting? && s.lock.None? then Move(s.(lock := Some(id)), id, Locked) else s
      case Deadline(id) => if c.phase.Waiting? then Move(s, id, TimedOut) else s
      case Load(id) => if c.phase.Locked? then Move(s, id, Loaded(Content(s))) else s
      case Save(id) =>
        if c.phase.Loaded? then Move(s.(file := Some(Apply(c.phase.state, c.op)), log := s.log + [id]), id, Saved) else s
      case FailSave(id) => if c.phase.Loaded? then Move(Unlock(s, id), id, SaveFailed) else s
      case Return(id) => if c.phase.Saved? then Move(Unlock(s, id), id, Returned) else s
      case Crash(id) => if Live(c.phase) then Move(Unlock(s, id), id, Died) else s
      case Start(_, _) => s
  }

  function Run(schedule: seq<Event>): System {
    if schedule == [] then EMPTY else Exec(Run(schedule[..|schedule| - 1]), schedule[|schedule| - 1])
  }

  predicate Inside(phase: Phase) {
    phase.Locked? || phase.Loaded? || phase.Saved?
  }

  /** Phases that can only be reached through a completed save. */
  predicate Committed(phase: Phase) {
    phase.Saved? || phase.Returned?
  }

  /** Phases that exclude one. */
  predicate Uncommitted(phase: Phase) {
    phase.Waiting? || phase.Locked? || phase.Loaded? || phase.TimedOut? || phase.SaveFailed?
  }

  ghost predicate CallOk(s: System, id: CallId, c: Call) {
    && (Inside(c.phase) ==> s.lock == Some(id))
    && (c.phase.Loaded? ==> c.phase.state == Content(s))
    && (Committed(c.phase) ==> id in s.log)
    && (Uncommitted(c.phase) ==> id !in s.log)
  }

  function LoggedOps(s: System, log: seq<CallId>): seq<Op>
    requires forall id | id in log :: id in s.calls
  {
    if log == [] then [] else LoggedOps(s, log[..|log| - 1]) + [s.calls[log[|log| - 1]].op]
  }

  ghost predicate Distinct(log: seq<CallId>) {
    forall i, j | 0 <= i < j < |log| :: log[i] != log[j]
  }

  ghost predicate Inv(s: System) {
    && (forall id | id in s.calls :: CallOk(s, id, s.calls[id]))
    && (s.lock.Some? ==> s.lock.value in s.calls && Inside(s.calls[s.lock.value].phase))
    && (forall id | id in s.log :: id in s.calls)
    && Distinct(s.log)
    && Content(s) == Replay(LoggedOps(s, s.log))
  }

  lemma {:induction false} LoggedOpsFrame(s: System, t: System, log: seq<CallId>)
    requires forall id | id in log :: id in s.calls && id in t.calls && t.calls[id].op == s.calls[id].op
    ensures LoggedOps(t, log) == LoggedOps(s, log)
    decreases |log|
  {
    if log != [] { LoggedOpsFrame(s, t, log[..|log| - 1]); }
  }

  /** Steps other than a save leave file and log alone. */
  lemma QuietStep(s: System, e: Event)
    requires !e.Save?
    ensures var t := Exec(s, e);
            && t.file == s.file && t.log == s.log
            && (forall id | id in s.calls :: id in t.calls && t.calls[id].op == s.calls[id].op)
            && (t.lock.Some? && s.lock == t.lock && t.lock.value in s.calls && Inside(s.calls[t.lock.value].phase) ==>
                  Inside(t.calls[t.lock.value].phase))
            && (t.lock.Some? && s.lock != t.lock ==> t.lock.value in t.calls && Inside(t.calls[t.lock.value].phase))
  {
    hide Apply;
  }

  lemma QuietKeepsCalls(s: System, e: Event)
    requires !e.Save? && forall id | id in s.calls :: CallOk(s, id, s.calls[id])
    requires forall id | id in s.log :: id in s.calls
    ensures var t := Exec(s, e); forall id | id in t.calls :: CallOk(t, id, t.calls[id])
  {
    hide Apply;
    var t := Exec(s, e);
    forall id | id in t.calls ensures CallOk(t, id, t.calls[id]) {
      assert id in s.calls ==> CallOk(s, id, s.calls[id]);
    }
  }

  lemma ExecKeepsInv(s: System, e: Event)
    requires Inv(s)
    ensures Inv(Exec(s, e))
  {
    if e.Save? {
      if e.id in s.calls && s.calls[e.id].phase.Loaded? { SaveKeepsInv(s, e.id); }
    } else {
      QuietStep(s, e);
      QuietKeepsCalls(s, e);
      hide Exec, CallOk, Replay, Inside;
      LoggedOpsFrame(s, Exec(s, e), s.log);
    }
  }

  /** The saved state is the mutator applied to what the file still holds. */
  lemma SaveKeepsInv(s: System, id: CallId)
    requires Inv(s) && id in s.calls && s.calls[id].phase.Loaded?
    ensures Inv(Exec(s, Save(id)))
  {
    hide Apply;
    var t := Exec(s, Save(id));
    assert CallOk(s, id, s.calls[id]);
    LoggedOpsFrame(s, t, s.log);
    assert t.log[..|t.log| - 1] == s.log;
    assert LoggedOps(t, t.log) == LoggedOps(s, s.log) + [s.calls[id].op];
    var ops := LoggedOps(t, t.log);
    assert ops[..|ops| - 1] == LoggedOps(s, s.log);
    forall other | other in t.calls ensures CallOk(t, other, t.calls[other]) {
      assert CallOk(s, other, s.calls[other]);
    }
  }

  lemma {:induction false} RunKeepsInv(schedule: seq<Event>)
    ensures Inv(Run(schedule))
    decreases |schedule|
  {
    if schedule != [] {
      RunKeepsInv(schedule[..|schedule| - 1]);
      ExecKeepsInv(Run(schedule[..|schedule| - 1]), schedule[|schedule| - 1]);
    }
  }

  /** No update is lost and none is invented: after any schedule the file holds
      the mutators of exactly the saved calls, applied one after another in save
      order.  A call that returned success is among them once; one that timed
      out, failed to save or is still on its way contributes nothing. */
  lemma NoLostUpdate(schedule: seq<Event>)
    ensures var s := Run(schedule);
            && (forall id | id in s.log :: id in s.calls)
            && Content(s) == Replay(LoggedOps(s, s.log))
            && Distinct(s.log)
            && (forall id | id in s.calls && Committed(s.calls[id].phase) :: id in s.log)
            && (forall id | id in s.calls && Uncommitted(s.calls[id].phase) :: id !in s.log)
  {
    RunKeepsInv(schedule);
    var s := Run(schedule);
    assert forall id | id in s.calls :: CallOk(s, id, s.calls[id]);
  }

  /** At most one call is inside the critical section. */
  lemma OneInside(schedule: seq<Event>, a: CallId, b: CallId)
    requires var s := Run(schedule);
             a in s.calls && b in s.calls && Inside(s.calls[a].phase) && Inside(s.calls[b].phase)
    ensures a == b
  {
    RunKeepsInv(schedule);
    var s := Run(schedule);
    assert CallOk(s, a, s.calls[a]) && CallOk(s, b, s.calls[b]);
  }

  lemma RunStep(schedule: seq<Event>)
    requires schedule != []
    ensures Run(schedule) == Exec(Run(schedule[..|schedule| - 1]), schedule[|schedule| - 1])
  {
    hide Exec;
  }

  lemma RunAppend(schedule: seq<Event>, later: seq<Event>)
    requires later != []
    ensures Run(schedule + later) == Exec(Run(schedule + later[..|later| - 1]), later[|later| - 1])
  {
    hide Exec, Run;
    var all := schedule + later;
    RunStep(all);
    assert all[..|all| - 1] == schedule + later[..|later| - 1] && all[|all| - 1] == later[|later| - 1];
  }

  lemma {:induction false} LoggedOpsPrefix(s: System, log: seq<CallId>, k: nat)
    requires k <= |log| && forall id | id in log :: id in s.calls
    ensures LoggedOps(s, log[..k]) <= LoggedOps(s, log)
    decreases |log|
  {
    if k == |log| {
      assert log[..k] == log;
    } else {
      assert log[..|log| - 1][..k] == log[..k];
      LoggedOpsPrefix(s, log[..|log| - 1], k);
    }
  }

  lemma ExecExtends(s: System, e: Event)
    ensures s.log <= Exec(s, e).log
    ensures forall id | id in s.calls :: id in Exec(s, e).calls && Exec(s, e).calls[id].op == s.calls[id].op
  {
    hide Apply;
  }

  lemma {:induction false} RunExtends(schedule: seq<Event>, later: seq<Event>)
    ensures var s, t := Run(schedule), Run(schedule + later);
            && s.log <= t.log
            && (forall id | id in s.calls :: id in t.calls && t.calls[id].op == s.calls[id].op)
    decreases |later|
  {
    hide Exec, Run;
    if later == [] {
      assert schedule + later == schedule;
    } else {
      RunExtends(schedule, later[..|later| - 1]);
      RunAppend(schedule, later);
      ExecExtends(Run(schedule + later[..|later| - 1]), later[|later| - 1]);
    }
  }

  /** What is committed stays: whatever happens later, the file holds the same
      mutators in the same order, followed by those committed since. */
  lemma LogOnlyGrows(schedule: seq<Event>, later: seq<Event>)
    ensures var s, t := Run(schedule), Run(schedule + later);
            && (forall id | id in s.log :: id in s.calls) && (forall id | id in t.log :: id in t.calls)
            && s.log <= t.log
            && LoggedOps(s, s.log) <= LoggedOps(t, t.log)
            && Content(t) == Replay(LoggedOps(t, t.log))
  {
    hide Run, Replay;
    var s, t := Run(schedule), Run(schedule + later);
    NoLostUpdate(schedule);
    NoLostUpdate(schedule + later);
    RunExtends(schedule, later);
    assert t.log[..|s.log|] == s.log;
    LoggedOpsFrame(s, t, s.log);
    LoggedOpsPrefix(t, t.log, |s.log|);
  }

  /** The receipt cursor in the file is at least what every refresh worker that
      reported success counted, whatever the order they finished in, and never
      more than some saved worker counted. */
  lemma CursorCoversWorkers(schedule: seq<Event>)
    ensures var s := Run(schedule);
            && (forall id | id in s.calls && Committed(s.calls[id].phase) && s.calls[id].op.MarkRefreshed? ::
                  s.calls[id].op.count <= Content(s).refreshedReceipts)
            && (Content(s).refreshedReceipts == 0 ||
                exists id :: id in s.log && id in s.calls && s.calls[id].op.MarkRefreshed?
                             && s.calls[id].op.count == Content(s).refreshedReceipts)
  {
    hide Apply;
    NoLostUpdate(schedule);
    var s := Run(schedule);
    var ops := LoggedOps(s, s.log);
    CursorIsMaximum(ops);
    LoggedOpsIndex(s, s.log);
    forall id | id in s.calls && Committed(s.calls[id].phase) && s.calls[id].op.MarkRefreshed?
      ensures s.calls[id].op.count <= Content(s).refreshedReceipts
    {
      var i :| 0 <= i < |s.log| && s.log[i] == id;
      assert ops[i] == s.calls[id].op;
    }
    if Content(s).refreshedReceipts != 0 {
      var i :| 0 <= i < |ops| && ops[i].MarkRefreshed? && ops[i].count == Content(s).refreshedReceipts;
      assert s.log[i] in s.log && s.calls[s.log[i]].op == ops[i];
    }
  }

  lemma {:induction false} LoggedOpsIndex(s: System, log: seq<CallId>)
    requires forall id | id in log :: id in s.calls
    ensures |LoggedOps(s, log)| == |log|
    ensures forall i | 0 <= i < |log| :: LoggedOps(s, log)[i] == s.calls[log[i]].op
    decreases |log|
  {
    if log != [] { LoggedOpsIndex(s, log[..|log| - 1]); }
  }

  /** In every reachable state the delivered set is exactly what the committed
      history left visible in the current epoch, strictly sorted. */
  lemma DeliveredExactAlways(schedule: seq<Event>)
    ensures var s := Run(schedule);
            && (forall id | id in s.log :: id in s.calls)
            && Sorting.StrictlySorted(DeliveredOrder, Content(s).delivered)
            && forall m :: m in Content(s).delivered <==> Visible(LoggedOps(s, s.log), m)
  {
    NoLostUpdate(schedule);
    var s := Run(schedule);
    DeliveredExact(LoggedOps(s, s.log));
  }

  // ------------------------------------------------------------------ progress

  /** The session is never stuck: in every reachable state a lock in use is
      released when its call dies, and a call that then runs by itself saves its
      mutator, on top of what the file holds, and returns success. */
  lemma NeverStuck(schedule: seq<Event>, id: CallId, op: Op) returns (leave: seq<Event>)
    requires id !in Run(schedule).calls
    ensures var lock := Run(schedule).lock; leave == if lock.Some? then [Crash(lock.value)] else []
    ensures var s := Run(schedule);
            var t := Run(schedule + leave + [Start(id, op), TryLock(id), Load(id), Save(id), Return(id)]);
            && id in t.calls && t.calls[id] == Call(op, Returned) && t.lock.None?
            && Content(t) == Apply(Content(s), op) && t.log == s.log + [id]
  {
    var s := Run(schedule);
    RunKeepsInv(schedule);
    leave := if s.lock.Some? then [Crash(s.lock.value)] else [];
    LeavesFree(schedule, leave);
    LoneCall(schedule + leave, id, op);
  }

  lemma LeavesFree(schedule: seq<Event>, leave: seq<Event>)
    requires var s := Run(schedule); leave == if s.lock.Some? then [Crash(s.lock.value)] else []
    ensures var s, t := Run(schedule), Run(schedule + leave);
            t.lock.None? && t.file == s.file && t.log == s.log && t.calls.Keys == s.calls.Keys
  {
    RunKeepsInv(schedule);
    var s := Run(schedule);
    if s.lock.Some? {
      RunAppend(schedule, leave);
      assert schedule + leave[..0] == schedule;
    } else {
      assert schedule + leave == schedule;
    }
  }

  lemma LoneCall(schedule: seq<Event>, id: CallId, op: Op)
    requires Run(schedule).lock.None? && id !in Run(schedule).calls
    ensures var s := Run(schedule);
            Run(schedule + [Start(id, op), TryLock(id), Load(id), Save(id), Return(id)]) ==
            System(Some(Apply(Content(s), op)), None, s.calls[id := Call(op, Returned)], s.log + [id])
  {
    hide Run, Apply;
    var s := Run(schedule);
    var later := [Start(id, op), TryLock(id), Load(id), Save(id), Return(id)];
    var x1 := Exec(s, later[0]);
    var x2 := Exec(x1, later[1]);
    var x3 := Exec(x2, later[2]);
    assert x3 == s.(lock := Some(id), calls := s.calls[id := Call(op, Loaded(Content(s)))]);
    var x4 := Exec(x3, later[3]);
    var x5 := Exec(x4, later[4]);
    assert x5 == System(Some(Apply(Content(s), op)), None, s.calls[id := Call(op, Returned)], s.log + [id]);
    hide Exec;
    assert schedule + later[..0] == schedule;
    forall k: nat | 0 < k <= 5 ensures Run(schedule + later[..k]) == Exec(Run(schedule + later[..k - 1]), later[k - 1]) {
      RunAppend(schedule, later[..k]);
      assert later[..k][..k - 1] == later[..k - 1];
    }
    assert later[..5] == later;
  }

  /** In every reachable state a waiting call can time out and changes nothing by
      it, and a save that fails leaves the file alone and frees the lock. */
  lemma ErrorsLetGo(schedule: seq<Event>, id: CallId)
    requires id in Run(schedule).calls
    ensures var s := Run(schedule);
            var c := s.calls[id];
            && (c.phase.Waiting? ==> Exec(s, Deadline(id)) == s.(calls := s.calls[id := Call(c.op, TimedOut)]))
            && (c.phase.Loaded? ==>
                  Exec(s, FailSave(id)) == s.(lock := None, calls := s.calls[id := Call(c.op, SaveFailed)]))
  {
    RunKeepsInv(schedule);
    hide Run, Replay, Apply;
    var s := Run(schedule);
    assert CallOk(s, id, s.calls[id]);
  }
}
