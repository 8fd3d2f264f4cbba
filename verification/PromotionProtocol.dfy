/** Concurrent promotions into one curated file.

    Calls may be for any notes.  Each can fail or die between any two steps, the
    lock goes with it, and other processes may add audit events; outside edits
    of the file are a step of their own, absent where a theorem says so. */
module PromotionProtocol {
  import opened Wrappers
  import opened Text
  import opened Promotion
  import PromotionTarget

  type CallId = nat

  /** `edits` in `Ready` is how many outside edits there had been when the file
      was compared for the last time. */
  datatype Phase =
    | Waiting
    | Pending
    | Locked
    | Read(seen: Content)
    | Ready(seen: Content, edits: nat)
    | Marked
    | Appended
    | Recorded(promoted: bool)
    | Returned(promoted: bool)
    | Failed
    | Died

  datatype Call = Call(request: Request, phase: Phase)

  /** `appends` and `records` are history: the calls that replaced the file and
      those that wrote an event, in order; `edits` counts outside edits. */
  datatype System = System(
    content: Content,
    events: seq<AuditEvent>,
    lock: Option<CallId>,
    calls: map<CallId, Call>,
    appends: seq<CallId>,
    records: seq<CallId>,
    edits: nat)

  datatype Event =
    | Start(id: CallId, request: Request)
    | Check(id: CallId)
    | Acquire(id: CallId)
    | ReadTarget(id: CallId)
    | Compare(id: CallId)
    | WriteTarget(id: CallId)
    | WriteEvent(id: CallId)
    | Return(id: CallId)
    | Fail(id: CallId)
    | Crash(id: CallId)
    | OtherEvent(event: AuditEvent)
    | Edit(content: Content)

  function Initial(content: Content, events: seq<AuditEvent>): System {
    System(content, events, None, map[], [], [], 0)
  }

  function Move(s: System, id: CallId, phase: Phase): System
    requires id in s.calls
  {
    s.(calls := s.calls[id := s.calls[id].(phase := phase)])
  }

  function Unlock(s: System, id: CallId): System {
    if s.lock == Some(id) then s.(lock := None) else s
  }

  predicate Live(phase: Phase) {
    !phase.Returned? && !phase.Failed? && !phase.Died?
  }

  function Step(target: string, s: System, e: Event): System
    requires !e.Start? && !e.OtherEvent? && !e.Edit? && e.id in s.calls
  {
    var r, phase := s.calls[e.id].request, s.calls[e.id].phase;
    match e
    case Check(id) =>
      if !phase.Waiting? then s
      else Move(s, id, if PromotionExists(s.events, r.note, target) then Returned(false) else Pending)
    case Acquire(id) => if phase.Pending? && s.lock.None? then Move(s.(lock := Some(id)), id, Locked) else s
    case ReadTarget(id) =>
      if !phase.Locked? then s
      else Move(s, id, if HasMarker(s.content, r.note, target) then Marked else Read(s.content))
    case Compare(id) =>
      if !phase.Read? then s
      else if s.content != phase.seen then Move(Unlock(s, id), id, Failed)
      else Move(s, id, Ready(phase.seen, s.edits))
    case WriteTarget(id) =>
      if !phase.Ready? then s
      else Move(s.(content := AfterAppend(phase.seen, r, target), appends := s.appends + [id]), id, Appended)
    case WriteEvent(id) =>
      if !phase.Marked? && !phase.Appended? then s
      else Move(s.(events := s.events + [EventFor(r.note, target)], records := s.records + [id]), id, Recorded(phase.Appended?))
    case Return(id) => if phase.Recorded? then Move(Unlock(s, id), id, Returned(phase.promoted)) else s
    case Fail(id) => if Live(phase) && !phase.Recorded? then Move(Unlock(s, id), id, Failed) else s
    case Crash(id) => if Live(phase) then Move(Unlock(s, id), id, Died) else s
  }

  function Exec(target: string, s: System, e: Event): System {
    match e
    case OtherEvent(event) => s.(events := s.events + [event])
    case Edit(content) => s.(content := content, edits := s.edits + 1)
    case Start(id, r) => if id in s.calls then s else s.(calls := s.calls[id := Call(r, Waiting)])
    case _ => if e.id in s.calls then Step(target, s, e) else s
  }

  function Run(target: string, s: System, schedule: seq<Event>): System {
    if schedule == [] then s
    else Exec(target, Run(target, s, schedule[..|schedule| - 1]), schedule[|schedule| - 1])
  }

  ghost predicate Undisturbed(schedule: seq<Event>) {
    forall k | 0 <= k < |schedule| :: !schedule[k].Edit?
  }

  // ------------------------------------------------------------- for every run

  predicate Inside(phase: Phase) {
    phase.Locked? || phase.Read? || phase.Ready? || phase.Marked? || phase.Appended? || phase.Recorded?
  }

  ghost predicate LockOk(s: System) {
    forall id | id in s.calls && Inside(s.calls[id].phase) :: s.lock == Some(id)
  }

  /** A compared file is still what was read unless an edit came after. */
  ghost predicate CompareOk(s: System) {
    forall id | id in s.calls && s.calls[id].phase.Ready? ::
      s.calls[id].phase.edits <= s.edits && (s.calls[id].phase.edits == s.edits ==> s.calls[id].phase.seen == s.content)
  }

  ghost predicate RecordOk(target: string, s: System) {
    forall id | id in s.calls && (s.calls[id].phase.Recorded? || s.calls[id].phase.Returned?) ::
      PromotionExists(s.events, s.calls[id].request.note, target)
  }

  lemma ExecKeepsLock(target: string, s: System, e: Event)
    requires LockOk(s)
    ensures LockOk(Exec(target, s, e))
  {
  }

  lemma ExecKeepsCompare(target: string, s: System, e: Event)
    requires LockOk(s) && CompareOk(s)
    ensures CompareOk(Exec(target, s, e))
  {
    hide PromotionExists, HasMarker, AfterAppend, EventFor;
  }

  lemma ExecEvents(target: string, s: System, e: Event)
    requires PromotionTarget.Clean(target)
    ensures forall note :: PromotionExists(s.events, note, target) ==> PromotionExists(Exec(target, s, e).events, note, target)
    ensures e.WriteEvent? && e.id in s.calls && (s.calls[e.id].phase.Marked? || s.calls[e.id].phase.Appended?) ==>
              PromotionExists(Exec(target, s, e).events, s.calls[e.id].request.note, target)
  {
    hide PromotionExists, HasMarker, AfterAppend, EventFor;
    forall note
      ensures PromotionExists(s.events, note, target) ==> PromotionExists(Exec(target, s, e).events, note, target)
    {
      if e.OtherEvent? {
        ExistsGrows(s.events, e.event, note, target);
      } else if e.WriteEvent? && e.id in s.calls {
        ExistsGrows(s.events, EventFor(s.calls[e.id].request.note, target), note, target);
      }
    }
    if e.WriteEvent? && e.id in s.calls {
      var note := s.calls[e.id].request.note;
      EventReadsBack(note, target);
      ExistsGrows(s.events, EventFor(note, target), note, target);
    }
  }

  lemma ExecKeepsRecord(target: string, s: System, e: Event)
    requires PromotionTarget.Clean(target) && RecordOk(target, s)
    ensures RecordOk(target, Exec(target, s, e))
  {
    hide PromotionExists, HasMarker, AfterAppend, EventFor;
    ExecEvents(target, s, e);
  }

  lemma {:induction false} RunKeepsRecord(target: string, s: System, schedule: seq<Event>)
    requires PromotionTarget.Clean(target) && RecordOk(target, s)
    ensures RecordOk(target, Run(target, s, schedule))
    decreases |schedule|
  {
    if schedule != [] {
      var n := |schedule| - 1;
      RunKeepsRecord(target, s, schedule[..n]);
      ExecKeepsRecord(target, Run(target, s, schedule[..n]), schedule[n]);
    }
  }

  lemma {:induction false} RunKeepsLock(target: string, s: System, schedule: seq<Event>)
    requires LockOk(s) && CompareOk(s)
    ensures LockOk(Run(target, s, schedule)) && CompareOk(Run(target, s, schedule))
    decreases |schedule|
  {
    if schedule != [] {
      var n := |schedule| - 1;
      RunKeepsLock(target, s, schedule[..n]);
      ExecKeepsLock(target, Run(target, s, schedule[..n]), schedule[n]);
      ExecKeepsCompare(target, Run(target, s, schedule[..n]), schedule[n]);
    }
  }

  /** Whatever happened to the file, a call that reported success left a
      promotion event that names its note and target. */
  lemma OkMeansRecorded(target: string, content: Content, events: seq<AuditEvent>, schedule: seq<Event>, id: CallId)
    requires PromotionTarget.Clean(target)
    requires var s := Run(target, Initial(content, events), schedule); id in s.calls && s.calls[id].phase.Returned?
    ensures var s := Run(target, Initial(content, events), schedule);
            PromotionExists(s.events, s.calls[id].request.note, target)
  {
    hide PromotionExists;
    RunKeepsRecord(target, Initial(content, events), schedule);
  }

  lemma WriteContent(target: string, s: System, id: CallId)
    requires id in s.calls && s.calls[id].phase.Ready?
    ensures Exec(target, s, WriteTarget(id)).content == AfterAppend(s.calls[id].phase.seen, s.calls[id].request, target)
  {
  }

  /** A write replaces exactly what was compared, plus the appended text, unless
      an outside edit landed after the comparison; so no earlier edit is lost. */
  lemma WriteExtends(target: string, content: Content, events: seq<AuditEvent>, schedule: seq<Event>, id: CallId)
    requires var s := Run(target, Initial(content, events), schedule);
             id in s.calls && s.calls[id].phase.Ready? && s.calls[id].phase.edits == s.edits
    ensures var s := Run(target, Initial(content, events), schedule);
            var t := Exec(target, s, WriteTarget(id));
            t.content == AfterAppend(s.content, s.calls[id].request, target) && s.content <= t.content
  {
    RunKeepsLock(target, Initial(content, events), schedule);
    hide Run, HasMarker, AfterAppend, PromotionExists, IsUtf8, LockOk;
    var s := Run(target, Initial(content, events), schedule);
    assert s.calls[id].phase.seen == s.content;
    AppendMarks(s.content, s.calls[id].request, target);
    WriteContent(target, s, id);
  }

  // ------------------------------------------------------------ later calls

  predicate Idle(phase: Phase) {
    phase == Waiting || phase == Returned(false) || phase == Failed || phase == Died
  }

  /** Calls for `note` that `s` does not know yet have changed nothing by `t`. */
  ghost predicate LaterIdle(target: string, note: string, s: System, t: System) {
    && PromotionExists(t.events, note, target)
    && (forall id | id in t.calls && id !in s.calls && t.calls[id].request.note == note ::
          Idle(t.calls[id].phase) && id !in t.appends && id !in t.records)
    && (forall id | id in s.calls :: id in t.calls)
    && (forall id | id in t.appends || id in t.records :: id in t.calls)
  }

  lemma ExecHistory(target: string, s: System, e: Event, id: CallId)
    ensures var t := Exec(target, s, e);
            && (id in t.appends && id !in s.appends ==> id in s.calls && s.calls[id].phase.Ready?)
            && (id in t.records && id !in s.records ==>
                  id in s.calls && (s.calls[id].phase.Marked? || s.calls[id].phase.Appended?))
            && (id in s.calls ==> id in t.calls && t.calls[id].request == s.calls[id].request)
            && (id in t.calls && id !in s.calls ==> t.calls[id].phase.Waiting?)
  {
    hide PromotionExists, HasMarker, AfterAppend, EventFor;
  }

  lemma IdleStep(target: string, s: System, e: Event, id: CallId)
    requires id in s.calls && Idle(s.calls[id].phase) && PromotionExists(s.events, s.calls[id].request.note, target)
    ensures id in Exec(target, s, e).calls && Idle(Exec(target, s, e).calls[id].phase)
  {
    hide PromotionExists, HasMarker, AfterAppend, EventFor;
  }

  lemma ExecKeepsLaterIdle(target: string, note: string, s: System, t: System, e: Event)
    requires PromotionTarget.Clean(target) && LaterIdle(target, note, s, t)
    ensures LaterIdle(target, note, s, Exec(target, t, e))
  {
    hide PromotionExists, Exec;
    ExecEvents(target, t, e);
    forall id ensures id in t.calls && Idle(t.calls[id].phase) && t.calls[id].request.note == note ==>
                        id in Exec(target, t, e).calls && Idle(Exec(target, t, e).calls[id].phase)
    {
      if id in t.calls && Idle(t.calls[id].phase) && t.calls[id].request.note == note { IdleStep(target, t, e, id); }
    }
    forall id: CallId {
      ExecHistory(target, t, e, id);
    }
  }

  lemma {:induction false} RunKeepsLaterIdle(target: string, note: string, s: System, schedule: seq<Event>)
    requires PromotionTarget.Clean(target) && PromotionExists(s.events, note, target) && HistoryKnown(s)
    ensures LaterIdle(target, note, s, Run(target, s, schedule))
    decreases |schedule|
  {
    hide PromotionExists;
    if schedule != [] {
      var n := |schedule| - 1;
      RunKeepsLaterIdle(target, note, s, schedule[..n]);
      ExecKeepsLaterIdle(target, note, s, Run(target, s, schedule[..n]), schedule[n]);
    }
  }

  ghost predicate HistoryKnown(s: System) {
    forall id | id in s.appends || id in s.records :: id in s.calls
  }

  lemma {:induction false} RunKeepsHistory(target: string, s: System, schedule: seq<Event>)
    requires HistoryKnown(s)
    ensures HistoryKnown(Run(target, s, schedule))
    decreases |schedule|
  {
    if schedule != [] {
      var n := |schedule| - 1;
      RunKeepsHistory(target, s, schedule[..n]);
      hide Exec;
      forall id: CallId {
        ExecHistory(target, Run(target, s, schedule[..n]), schedule[n], id);
      }
    }
  }

  /** Once a promotion is recorded, calls for it that start later only return:
      they append nothing and record nothing, whatever else goes on. */
  lemma LaterCallsChangeNothing(
      target: string, content: Content, events: seq<AuditEvent>, before: seq<Event>, after: seq<Event>, note: string)
    requires PromotionTarget.Clean(target)
    requires PromotionExists(Run(target, Initial(content, events), before).events, note, target)
    ensures var s := Run(target, Initial(content, events), before); LaterIdle(target, note, s, Run(target, s, after))
  {
    RunKeepsHistory(target, Initial(content, events), before);
    RunKeepsLaterIdle(target, note, Run(target, Initial(content, events), before), after);
  }

  // ------------------------------------------------------------ append at most once

  /** The notes appended, in order. */
  function Appends(s: System, ids: seq<CallId>): seq<Request>
    requires forall id | id in ids :: id in s.calls
  {
    if ids == [] then [] else Appends(s, ids[..|ids| - 1]) + [s.calls[ids[|ids| - 1]].request]
  }

  function AfterAll(content: Content, requests: seq<Request>, target: string): Content {
    if requests == [] then content
    else AfterAppend(AfterAll(content, requests[..|requests| - 1], target), requests[|requests| - 1], target)
  }

  /** No note was appended twice. */
  ghost predicate OncePerNote(s: System) {
    forall i, j | 0 <= i < j < |s.appends| && s.appends[i] in s.calls && s.appends[j] in s.calls ::
      s.calls[s.appends[i]].request.note != s.calls[s.appends[j]].request.note
  }

  ghost predicate CallOk(target: string, s: System, id: CallId, c: Call) {
    && (Inside(c.phase) ==> s.lock == Some(id))
    && (c.phase.Read? || c.phase.Ready? ==> c.phase.seen == s.content && !HasMarker(s.content, c.request.note, target))
  }

  ghost predicate Inv(target: string, initial: Content, s: System) {
    && HistoryKnown(s)
    && (forall id | id in s.calls :: CallOk(target, s, id, s.calls[id]))
    && (forall id | id in s.appends :: HasMarker(s.content, s.calls[id].request.note, target))
    && OncePerNote(s)
    && IsUtf8(s.content)
    && s.content == AfterAll(initial, Appends(s, s.appends), target)
  }

  lemma {:induction false} AppendsFrame(s: System, t: System, ids: seq<CallId>)
    requires forall id | id in ids :: id in s.calls && id in t.calls && t.calls[id].request == s.calls[id].request
    ensures Appends(t, ids) == Appends(s, ids)
    decreases |ids|
  {
    if ids != [] { AppendsFrame(s, t, ids[..|ids| - 1]); }
  }

  lemma QuietStep(target: string, s: System, e: Event)
    requires !e.WriteTarget? && !e.Edit?
    ensures var t := Exec(target, s, e);
            && t.content == s.content && t.appends == s.appends
            && (forall id | id in s.calls :: id in t.calls && t.calls[id].request == s.calls[id].request)
            && (HistoryKnown(s) ==> HistoryKnown(t))
  {
    hide PromotionExists, HasMarker, AfterAppend, EventFor;
  }

  lemma QuietKeepsCalls(target: string, s: System, e: Event)
    requires !e.WriteTarget? && !e.Edit? && forall id | id in s.calls :: CallOk(target, s, id, s.calls[id])
    ensures var t := Exec(target, s, e); forall id | id in t.calls :: CallOk(target, t, id, t.calls[id])
  {
    hide PromotionExists, HasMarker, AfterAppend, EventFor;
  }

  lemma WriteStep(target: string, s: System, id: CallId)
    requires id in s.calls && s.calls[id].phase.Ready? && CallOk(target, s, id, s.calls[id])
    ensures var t := Exec(target, s, WriteTarget(id));
            && !HasMarker(s.content, s.calls[id].request.note, target)
            && t.content == AfterAppend(s.content, s.calls[id].request, target)
            && t.appends == s.appends + [id] && t.records == s.records
            && (forall other | other in s.calls :: other in t.calls && t.calls[other].request == s.calls[other].request)
  {
  }

  lemma WriteKeepsCalls(target: string, s: System, id: CallId)
    requires forall other | other in s.calls :: CallOk(target, s, other, s.calls[other])
    requires id in s.calls && s.calls[id].phase.Ready?
    ensures var t := Exec(target, s, WriteTarget(id));
            forall other | other in t.calls :: CallOk(target, t, other, t.calls[other])
  {
  }

  lemma WriteKeepsInv(target: string, initial: Content, s: System, id: CallId)
    requires Inv(target, initial, s) && id in s.calls && s.calls[id].phase.Ready?
    ensures Inv(target, initial, Exec(target, s, WriteTarget(id)))
  {
    hide HasMarker, AfterAppend, IsUtf8, Exec, CallOk;
    var t := Exec(target, s, WriteTarget(id));
    var r := s.calls[id].request;
    WriteStep(target, s, id);
    WriteKeepsCalls(target, s, id);
    AppendMarks(s.content, r, target);
    AppendsFrame(s, t, s.appends);
    assert t.appends[..|s.appends|] == s.appends;
    var before, after := Appends(s, s.appends), Appends(t, t.appends);
    assert after == before + [r] && after[..|before|] == before;
    assert forall k | 0 <= k < |s.appends| :: s.appends[k] in s.appends;
  }

  lemma ExecKeepsInv(target: string, initial: Content, s: System, e: Event)
    requires Inv(target, initial, s) && !e.Edit?
    ensures Inv(target, initial, Exec(target, s, e))
  {
    hide HasMarker, AfterAppend, IsUtf8, Exec, CallOk;
    if e.WriteTarget? {
      WriteOrNothing(target, s, e.id);
      if e.id in s.calls && s.calls[e.id].phase.Ready? { WriteKeepsInv(target, initial, s, e.id); }
    } else {
      QuietStep(target, s, e);
      QuietKeepsCalls(target, s, e);
      AppendsFrame(s, Exec(target, s, e), s.appends);
      assert forall k | 0 <= k < |s.appends| :: s.appends[k] in s.appends;
    }
  }

  lemma WriteOrNothing(target: string, s: System, id: CallId)
    ensures (id in s.calls && s.calls[id].phase.Ready?) || Exec(target, s, WriteTarget(id)) == s
  {
  }

  lemma {:induction false} RunKeepsInv(target: string, content: Content, events: seq<AuditEvent>, schedule: seq<Event>)
    requires IsUtf8(content) && Undisturbed(schedule)
    ensures Inv(target, content, Run(target, Initial(content, events), schedule))
    decreases |schedule|
  {
    hide Exec, CallOk;
    if schedule != [] {
      var n := |schedule| - 1;
      RunKeepsInv(target, content, events, schedule[..n]);
      ExecKeepsInv(target, content, Run(target, Initial(content, events), schedule[..n]), schedule[n]);
    }
  }

  lemma {:induction false} AfterAllExtends(content: Content, requests: seq<Request>, target: string)
    ensures content <= AfterAll(content, requests, target)
    decreases |requests|
  {
    if requests != [] {
      var n := |requests| - 1;
      AfterAllExtends(content, requests[..n], target);
      AppendMarks(AfterAll(content, requests[..n], target), requests[n], target);
    }
  }

  /** Over every interleaving, with crashes between append and event, a file
      that started as text holds its earlier bytes followed by one block per
      appended note: retries never append a note twice. */
  lemma AppendAtMostOnce(target: string, content: Content, events: seq<AuditEvent>, schedule: seq<Event>)
    requires IsUtf8(content) && Undisturbed(schedule)
    ensures var s := Run(target, Initial(content, events), schedule);
            && OncePerNote(s)
            && (forall id | id in s.appends :: id in s.calls)
            && s.content == AfterAll(content, Appends(s, s.appends), target)
            && content <= s.content
  {
    hide CallOk;
    RunKeepsInv(target, content, events, schedule);
    AfterAllExtends(content, Appends(Run(target, Initial(content, events), schedule),
                                     Run(target, Initial(content, events), schedule).appends), target);
  }

  // ------------------------------------------------- files that are not UTF-8

  function UntilDeath(id: CallId): seq<Event> {
    [ReadTarget(id)] + ([Compare(id)] + ([WriteTarget(id)] + ([Crash(id)] + [])))
  }

  /** One call up to and including its append, then its death. */
  function AppendAndDie(id: CallId, r: Request): seq<Event> {
    [Start(id, r)] + ([Check(id)] + ([Acquire(id)] + UntilDeath(id)))
  }

  lemma {:induction false} RunAppend(target: string, s: System, a: seq<Event>, b: seq<Event>)
    ensures Run(target, s, a + b) == Run(target, Run(target, s, a), b)
    decreases |b|
  {
    if b == [] {
      assert a + b == a;
    } else {
      assert (a + b)[..|a + b| - 1] == a + b[..|b| - 1];
      RunAppend(target, s, a, b[..|b| - 1]);
    }
  }

  lemma RunCons(target: string, s: System, e: Event, rest: seq<Event>)
    ensures Run(target, s, [e] + rest) == Run(target, Exec(target, s, e), rest)
  {
    RunAppend(target, s, [e], rest);
    assert [e][..0] == [];
  }

  lemma AppendAndDieRuns(target: string, s: System, id: CallId, r: Request)
    requires id !in s.calls && s.lock.None? && !PromotionExists(s.events, r.note, target) && !HasMarker(s.content, r.note, target)
    ensures Run(target, s, AppendAndDie(id, r)) ==
            s.(content := AfterAppend(s.content, r, target), appends := s.appends + [id], calls := s.calls[id := Call(r, Died)])
  {
    hide PromotionExists, AfterAppend, HasMarker, Run;
    var x0 := Exec(target, s, Start(id, r));
    var x1 := Exec(target, x0, Check(id));
    var x2 := Exec(target, x1, Acquire(id));
    var x3 := Exec(target, x2, ReadTarget(id));
    assert x3 == s.(lock := Some(id), calls := s.calls[id := Call(r, Read(s.content))]);
    var x4 := Exec(target, x3, Compare(id));
    var x5 := Exec(target, x4, WriteTarget(id));
    var x6 := Exec(target, x5, Crash(id));
    assert x6 == s.(content := AfterAppend(s.content, r, target), appends := s.appends + [id],
                    calls := s.calls[id := Call(r, Died)]);
    hide Exec;
    RunEmpty(target, x6);
    RunCons(target, x5, Crash(id), []);
    RunCons(target, x4, WriteTarget(id), [Crash(id)] + []);
    RunCons(target, x3, Compare(id), [WriteTarget(id)] + ([Crash(id)] + []));
    RunCons(target, x2, ReadTarget(id), [Compare(id)] + ([WriteTarget(id)] + ([Crash(id)] + [])));
    RunCons(target, x1, Acquire(id), UntilDeath(id));
    RunCons(target, x0, Check(id), [Acquire(id)] + UntilDeath(id));
    RunCons(target, s, Start(id, r), [Check(id)] + ([Acquire(id)] + UntilDeath(id)));
  }

  lemma RunEmpty(target: string, s: System)
    ensures Run(target, s, []) == s
  {
  }

  lemma NoPromotion(note: string, target: string)
    ensures !PromotionExists([], note, target)
  {
  }

  /** A retry after a crash appends the note again when the file is not UTF-8,
      because the marker is then never found. */
  lemma NotUtf8Duplicates(target: string, content: Content, r: Request) returns (schedule: seq<Event>)
    requires !IsUtf8(content)
    ensures Undisturbed(schedule) && !OncePerNote(Run(target, Initial(content, []), schedule))
  {
    hide Run, PromotionExists, AfterAppend, IsUtf8;
    var first, second := AppendAndDie(0, r), AppendAndDie(1, r);
    schedule := first + second;
    var s := Initial(content, []);
    NoPromotion(r.note, target);
    AppendAndDieRuns(target, s, 0, r);
    AppendMarks(content, r, target);
    AppendAndDieRuns(target, Run(target, s, first), 1, r);
    RunAppend(target, s, first, second);
    var t := Run(target, s, schedule);
    assert t.appends == [0, 1] && t.appends[0] in t.calls && t.appends[1] in t.calls;
    assert t.calls[t.appends[0]].request == t.calls[t.appends[1]].request;
  }

  /** Retries are safe for a file exactly when it is text. */
  lemma AppendAtMostOnceIff(target: string, content: Content)
    ensures IsUtf8(content) <==>
            forall events, schedule | Undisturbed(schedule) :: OncePerNote(Run(target, Initial(content, events), schedule))
  {
    if IsUtf8(content) {
      forall events, schedule | Undisturbed(schedule)
        ensures OncePerNote(Run(target, Initial(content, events), schedule))
      {
        AppendAtMostOnce(target, content, events, schedule);
      }
    } else {
      var schedule := NotUtf8Duplicates(target, content, Request("", "", false));
    }
  }

  // ------------------------------------------------- promoted text is in the file

  function Concat(blocks: seq<string>): string {
    if blocks == [] then [] else Concat(blocks[..|blocks| - 1]) + blocks[|blocks| - 1]
  }

  /** The first content, and after it, on lines of their own, the blocks. */
  ghost predicate Followed(content: Content, after: Content, blocks: seq<string>) {
    after == content + (if blocks == [] || content == [] || content[|content| - 1] == Ch('\n') then [] else [Ch('\n')])
             + Encoded(Concat(blocks))
  }

  lemma FollowedNext(content: Content, middle: Content, after: Content, blocks: seq<string>, block: string)
    requires Followed(content, middle, blocks)
    requires blocks != [] ==> middle != [] && middle[|middle| - 1] == Ch('\n')
    requires after == middle + (if middle == [] || middle[|middle| - 1] == Ch('\n') then [] else [Ch('\n')]) + Encoded(block)
    ensures Followed(content, after, blocks + [block])
  {
    assert (blocks + [block])[..|blocks|] == blocks;
    assert Encoded(Concat(blocks) + block) == Encoded(Concat(blocks)) + Encoded(block);
    if blocks == [] {
      assert middle == content;
    }
  }

  lemma BlockEnds(block: string, r: Request, target: string)
    requires Carries(block, r, target)
    ensures block != [] && block[|block| - 1] == '\n'
  {
    hide Comment, TrimmedTo;
  }

  /** Appending notes one after another puts one block for each, in order, after
      the first content, and every block carries its note's text. */
  lemma {:induction false} TextsInOrder(content: Content, requests: seq<Request>, target: string) returns (blocks: seq<string>)
    ensures |blocks| == |requests| && forall k | 0 <= k < |blocks| :: Carries(blocks[k], requests[k], target)
    ensures var after := AfterAll(content, requests, target);
            Followed(content, after, blocks) && (blocks != [] ==> after != [] && after[|after| - 1] == Ch('\n'))
    decreases |requests|
  {
    hide Carries, Followed, AfterAppend;
    if requests == [] {
      blocks := [];
      assert Followed(content, content, []) by { FollowedNothing(content); }
    } else {
      var n := |requests| - 1;
      var before := TextsInOrder(content, requests[..n], target);
      var middle, after := AfterAll(content, requests[..n], target), AfterAll(content, requests, target);
      AppendAddsText(middle, requests[n], target);
      var block :| Carries(block, requests[n], target)
                   && after == middle + (if middle == [] || middle[|middle| - 1] == Ch('\n') then [] else [Ch('\n')]) + Encoded(block);
      BlockEnds(block, requests[n], target);
      FollowedNext(content, middle, after, before, block);
      blocks := before + [block];
    }
  }

  lemma FollowedNothing(content: Content)
    ensures Followed(content, content, [])
  {
    assert content + [] + Encoded([]) == content;
  }

  /** This call appended: it stands after its write and reports a promotion. */
  predicate Promoted(phase: Phase) {
    phase.Appended? || phase == Recorded(true) || phase == Returned(true)
  }

  ghost predicate TextInv(target: string, initial: Content, s: System) {
    && HistoryKnown(s)
    && (forall id | id in s.calls :: CallOk(target, s, id, s.calls[id]))
    && (forall id | id in s.calls && Promoted(s.calls[id].phase) :: id in s.appends)
    && s.content == AfterAll(initial, Appends(s, s.appends), target)
  }

  lemma PromotedKnown(target: string, s: System, e: Event)
    requires forall id | id in s.calls && Promoted(s.calls[id].phase) :: id in s.appends
    ensures var t := Exec(target, s, e); forall id | id in t.calls && Promoted(t.calls[id].phase) :: id in t.appends
  {
    hide PromotionExists, HasMarker, AfterAppend, EventFor;
  }

  lemma WriteKeepsText(target: string, initial: Content, s: System, id: CallId)
    requires TextInv(target, initial, s) && id in s.calls && s.calls[id].phase.Ready?
    ensures TextInv(target, initial, Exec(target, s, WriteTarget(id)))
  {
    hide HasMarker, AfterAppend, Exec, CallOk, Promoted;
    var t := Exec(target, s, WriteTarget(id));
    PromotedKnown(target, s, WriteTarget(id));
    WriteStep(target, s, id);
    WriteKeepsCalls(target, s, id);
    AppendsFrame(s, t, s.appends);
    assert t.appends[..|s.appends|] == s.appends;
    var before, after := Appends(s, s.appends), Appends(t, t.appends);
    assert after == before + [s.calls[id].request] && after[..|before|] == before;
  }

  lemma ExecKeepsText(target: string, initial: Content, s: System, e: Event)
    requires TextInv(target, initial, s) && !e.Edit?
    ensures TextInv(target, initial, Exec(target, s, e))
  {
    hide HasMarker, AfterAppend, Exec, CallOk, Promoted;
    if e.WriteTarget? {
      WriteOrNothing(target, s, e.id);
      if e.id in s.calls && s.calls[e.id].phase.Ready? { WriteKeepsText(target, initial, s, e.id); }
    } else {
      PromotedKnown(target, s, e);
      QuietStep(target, s, e);
      QuietKeepsCalls(target, s, e);
      AppendsFrame(s, Exec(target, s, e), s.appends);
    }
  }

  lemma {:induction false} RunKeepsText(target: string, content: Content, events: seq<AuditEvent>, schedule: seq<Event>)
    requires Undisturbed(schedule)
    ensures TextInv(target, content, Run(target, Initial(content, events), schedule))
    decreases |schedule|
  {
    hide Exec, CallOk;
    if schedule != [] {
      var n := |schedule| - 1;
      RunKeepsText(target, content, events, schedule[..n]);
      ExecKeepsText(target, content, Run(target, Initial(content, events), schedule[..n]), schedule[n]);
    }
  }

  lemma {:induction false} AppendsAre(s: System, ids: seq<CallId>)
    requires forall id | id in ids :: id in s.calls
    ensures |Appends(s, ids)| == |ids| && forall k | 0 <= k < |ids| :: Appends(s, ids)[k] == s.calls[ids[k]].request
    decreases |ids|
  {
    if ids != [] { AppendsAre(s, ids[..|ids| - 1]); }
  }

  /** Over every interleaving the file is its first content followed by one block
      for every call that appended, in order, each with its note's own text; and
      a call that reports a promotion is one of them. */
  lemma PromotedTextsArrive(target: string, content: Content, events: seq<AuditEvent>, schedule: seq<Event>)
    returns (blocks: seq<string>)
    requires Undisturbed(schedule)
    ensures var s := Run(target, Initial(content, events), schedule);
            && Followed(content, s.content, blocks)
            && |blocks| == |s.appends|
            && (forall k | 0 <= k < |blocks| ::
                  s.appends[k] in s.calls && Carries(blocks[k], s.calls[s.appends[k]].request, target))
            && (forall id | id in s.calls && (s.calls[id].phase == Recorded(true) || s.calls[id].phase == Returned(true)) ::
                  id in s.appends)
  {
    hide Run, Carries, Followed, CallOk, AfterAll;
    RunKeepsText(target, content, events, schedule);
    var s := Run(target, Initial(content, events), schedule);
    blocks := TextsInOrder(content, Appends(s, s.appends), target);
    AppendsAre(s, s.appends);
  }

  // --------------------------------------------------- what success promises

  /** Some call for this note appended. */
  ghost predicate NoteAppended(s: System, note: string) {
    exists id :: id in s.appends && id in s.calls && s.calls[id].request.note == note
  }

  /** Requests whose blocks leave other notes' markers alone. */
  ghost predicate Honest(note: string, target: string, r: Request) {
    '\n' !in r.note && !Quotes(r, note, target)
  }

  ghost predicate HonestSchedule(note: string, target: string, schedule: seq<Event>) {
    forall k | 0 <= k < |schedule| ::
      && !schedule[k].Edit?
      && (schedule[k].Start? ==> Honest(note, target, schedule[k].request))
      && (schedule[k].OtherEvent? ==> !Claims(schedule[k].event, note, target))
  }

  /** Past the point where marker, event or append settled the call. */
  predicate Settled(phase: Phase) {
    phase.Marked? || phase.Appended? || phase.Recorded? || phase.Returned?
  }

  /** Marker, event and success for this note each mean that it was appended. */
  ghost predicate SuccessInv(note: string, target: string, s: System) {
    && IsUtf8(s.content)
    && (HasMarker(s.content, note, target) ==> NoteAppended(s, note))
    && (PromotionExists(s.events, note, target) ==> NoteAppended(s, note))
    && (forall id | id in s.calls :: Honest(note, target, s.calls[id].request))
    && (forall id | id in s.calls && s.calls[id].request.note == note ::
          Settled(s.calls[id].phase) ==> NoteAppended(s, note))
  }

  lemma OnlyClaims(events: seq<AuditEvent>, e: AuditEvent, note: string, target: string)
    ensures PromotionExists(events + [e], note, target) <==> PromotionExists(events, note, target) || Claims(e, note, target)
  {
    hide Claims;
    var more := events + [e];
    ExistsGrows(events, e, note, target);
    assert forall k | 0 <= k < |events| :: more[k] == events[k];
  }

  /** What one step does to the markers, events and calls of one note. */
  lemma ExecPromises(note: string, target: string, s: System, e: Event)
    requires PromotionTarget.Clean(target) && '\n' !in note && HonestSchedule(note, target, [e])
    requires forall id | id in s.calls :: Honest(note, target, s.calls[id].request)
    ensures var t := Exec(target, s, e);
            && (forall id | id in t.calls :: Honest(note, target, t.calls[id].request))
            && (PromotionExists(t.events, note, target) ==>
                  PromotionExists(s.events, note, target)
                  || (e.WriteEvent? && e.id in s.calls && s.calls[e.id].request.note == note
                      && (s.calls[e.id].phase.Marked? || s.calls[e.id].phase.Appended?)))
  {
    hide PromotionExists, HasMarker, AfterAppend, EventFor, Quotes, Claims;
    assert [e][0] == e;
    if e.OtherEvent? {
      OnlyClaims(s.events, e.event, note, target);
    } else if e.WriteEvent? && e.id in s.calls {
      var other := s.calls[e.id].request.note;
      OnlyClaims(s.events, EventFor(other, target), note, target);
      EventClaimsOnlyItself(other, target, note, target);
    }
  }

  /** Appends, and the phases that stand for success, after one step. */
  lemma ExecPhases(note: string, target: string, s: System, e: Event, id: CallId)
    requires id in Exec(target, s, e).calls && Exec(target, s, e).calls[id].request.note == note
    requires Settled(Exec(target, s, e).calls[id].phase)
    ensures && id in s.calls && s.calls[id].request.note == note
            && (|| Settled(s.calls[id].phase)
                || HasMarker(s.content, note, target) || PromotionExists(s.events, note, target)
                || id in Exec(target, s, e).appends)
  {
    hide PromotionExists, HasMarker, AfterAppend, EventFor;
  }

  lemma AppendedStays(note: string, target: string, s: System, e: Event)
    ensures NoteAppended(s, note) ==> NoteAppended(Exec(target, s, e), note)
  {
    hide PromotionExists, HasMarker, AfterAppend, EventFor;
    if NoteAppended(s, note) {
      var id :| id in s.appends && id in s.calls && s.calls[id].request.note == note;
      assert id in Exec(target, s, e).appends;
      ExecHistory(target, s, e, id);
    }
  }

  /** What the file's markers mean after one step. */
  lemma ExecMarkers(note: string, target: string, s: System, e: Event)
    requires PromotionTarget.Clean(target) && '\n' !in note && HonestSchedule(note, target, [e]) && IsUtf8(s.content)
    requires forall id | id in s.calls :: CallOk(target, s, id, s.calls[id]) && Honest(note, target, s.calls[id].request)
    ensures var t := Exec(target, s, e);
            && IsUtf8(t.content)
            && (HasMarker(t.content, note, target) ==> HasMarker(s.content, note, target) || NoteAppended(t, note))
  {
    hide HasMarker, AfterAppend, IsUtf8, Exec, CallOk, Quotes;
    assert [e][0] == e;
    if e.WriteTarget? {
      WriteOrNothing(target, s, e.id);
      if e.id in s.calls && s.calls[e.id].phase.Ready? {
        var r := s.calls[e.id].request;
        WriteStep(target, s, e.id);
        MarkerAfterAppend(s.content, r, note, target);
        AppendMarks(s.content, r, target);
        assert e.id in Exec(target, s, e).appends;
      }
    } else {
      QuietStep(target, s, e);
    }
  }

  lemma ExecKeepsSuccess(note: string, target: string, s: System, e: Event)
    requires PromotionTarget.Clean(target) && '\n' !in note && HonestSchedule(note, target, [e])
    requires SuccessInv(note, target, s) && forall id | id in s.calls :: CallOk(target, s, id, s.calls[id])
    ensures SuccessInv(note, target, Exec(target, s, e))
  {
    hide HasMarker, PromotionExists, IsUtf8, Exec, CallOk, Honest, HonestSchedule, NoteAppended;
    var t := Exec(target, s, e);
    AppendedStays(note, target, s, e);
    ExecMarkers(note, target, s, e);
    ExecPromises(note, target, s, e);
    forall id | id in t.calls && t.calls[id].request.note == note
      ensures Settled(t.calls[id].phase) ==> NoteAppended(t, note)
    {
      if Settled(t.calls[id].phase) {
        ExecPhases(note, target, s, e, id);
        AppendedHere(t, id);
      }
    }
  }

  lemma AppendedHere(s: System, id: CallId)
    requires id in s.calls
    ensures id in s.appends ==> NoteAppended(s, s.calls[id].request.note)
  {
  }

  lemma {:induction false} RunKeepsSuccess(
      note: string, target: string, content: Content, events: seq<AuditEvent>, schedule: seq<Event>)
    requires PromotionTarget.Clean(target) && '\n' !in note && HonestSchedule(note, target, schedule)
    requires IsUtf8(content) && !HasMarker(content, note, target) && !PromotionExists(events, note, target)
    ensures SuccessInv(note, target, Run(target, Initial(content, events), schedule))
    decreases |schedule|
  {
    hide HasMarker, PromotionExists, IsUtf8, Exec, CallOk, Honest;
    if schedule != [] {
      var n := |schedule| - 1;
      RunKeepsSuccess(note, target, content, events, schedule[..n]);
      RunKeepsText(target, content, events, schedule[..n]);
      hide SuccessInv;
      ExecKeepsSuccess(note, target, Run(target, Initial(content, events), schedule[..n]), schedule[n]);
    }
  }

  /** Success means that the text is there.  When neither file nor events knew
      the note, nobody else records it, and no other block quotes its marker,
      then any call for it that returned without an error, also one that found
      marker or event, leaves a block with the text that some call was given. */
  lemma SuccessMeansText(
      note: string, target: string, content: Content, events: seq<AuditEvent>, schedule: seq<Event>, id: CallId)
    returns (r: Request, block: string)
    requires PromotionTarget.Clean(target) && '\n' !in note && HonestSchedule(note, target, schedule)
    requires IsUtf8(content) && !HasMarker(content, note, target) && !PromotionExists(events, note, target)
    requires var s := Run(target, Initial(content, events), schedule);
             id in s.calls && s.calls[id].phase.Returned? && s.calls[id].request.note == note
    ensures var s := Run(target, Initial(content, events), schedule);
            && r.note == note && (exists other :: other in s.appends && other in s.calls && s.calls[other].request == r)
            && Carries(block, r, target)
            && IsUtf8(s.content) && Contains(Decoded(s.content), block)
  {
    hide Run, HasMarker, PromotionExists, Carries, CallOk, AfterAll;
    assert Undisturbed(schedule);
    RunKeepsSuccess(note, target, content, events, schedule);
    var s := Run(target, Initial(content, events), schedule);
    var blocks := PromotedTextsArrive(target, content, events, schedule);
    var other :| other in s.appends && other in s.calls && s.calls[other].request.note == note;
    var k :| 0 <= k < |s.appends| && s.appends[k] == other;
    r, block := s.calls[other].request, blocks[k];
    BlockInside(content, s.content, blocks, k);
  }

  lemma {:induction false} ConcatSplit(blocks: seq<string>, k: nat) returns (a: string, b: string)
    requires k < |blocks|
    ensures Concat(blocks) == a + blocks[k] + b
    decreases |blocks|
  {
    var n := |blocks| - 1;
    if k == n {
      a, b := Concat(blocks[..n]), "";
      assert a + blocks[k] + b == a + blocks[k];
    } else {
      var x, y := ConcatSplit(blocks[..n], k);
      a, b := x, y + blocks[n];
      assert a + blocks[k] + b == (x + blocks[k] + y) + blocks[n];
    }
  }

  lemma BlockInside(content: Content, after: Content, blocks: seq<string>, k: nat)
    requires Followed(content, after, blocks) && k < |blocks| && IsUtf8(after)
    ensures Contains(Decoded(after), blocks[k])
  {
    hide Contains, Concat;
    var a, b := ConcatSplit(blocks, k);
    var m := |after| - |Concat(blocks)|;
    var front := Decoded(after)[..m];
    assert Decoded(after) == front + Concat(blocks);
    assert front + (a + blocks[k] + b) == (front + a) + blocks[k] + b;
    OccursInside(front + a, blocks[k], b);
  }

  /** One call that finds the marker and records only the event. */
  function FindAndRecord(id: CallId, r: Request): seq<Event> {
    [Start(id, r)] + ([Check(id)] + ([Acquire(id)] + ([ReadTarget(id)] + ([WriteEvent(id)] + ([Return(id)] + [])))))
  }

  lemma FindAndRecordRuns(target: string, s: System, id: CallId, r: Request)
    requires id !in s.calls && s.lock.None? && !PromotionExists(s.events, r.note, target) && HasMarker(s.content, r.note, target)
    ensures var t := Run(target, s, FindAndRecord(id, r));
            t.appends == s.appends && t.calls == s.calls[id := Call(r, Returned(false))]
  {
    hide PromotionExists, AfterAppend, HasMarker, Run, EventFor;
    var x0 := Exec(target, s, Start(id, r));
    var x1 := Exec(target, x0, Check(id));
    var x2 := Exec(target, x1, Acquire(id));
    var x3 := Exec(target, x2, ReadTarget(id));
    assert x3 == s.(lock := Some(id), calls := s.calls[id := Call(r, Marked)]);
    var x4 := Exec(target, x3, WriteEvent(id));
    var x5 := Exec(target, x4, Return(id));
    assert x5.appends == s.appends && x5.calls == s.calls[id := Call(r, Returned(false))];
    hide Exec;
    RunEmpty(target, x5);
    RunCons(target, x4, Return(id), []);
    RunCons(target, x3, WriteEvent(id), [Return(id)] + []);
    RunCons(target, x2, ReadTarget(id), [WriteEvent(id)] + ([Return(id)] + []));
    RunCons(target, x1, Acquire(id), [ReadTarget(id)] + ([WriteEvent(id)] + ([Return(id)] + [])));
    RunCons(target, x0, Check(id), [Acquire(id)] + ([ReadTarget(id)] + ([WriteEvent(id)] + ([Return(id)] + []))));
    RunCons(target, s, Start(id, r), [Check(id)] + ([Acquire(id)] + ([ReadTarget(id)] + ([WriteEvent(id)] + ([Return(id)] + [])))));
  }

  /** Nothing but calls with these requests. */
  ghost predicate OnlyThese(requests: set<Request>, schedule: seq<Event>) {
    forall k | 0 <= k < |schedule| ::
      !schedule[k].Edit? && !schedule[k].OtherEvent? && (schedule[k].Start? ==> schedule[k].request in requests)
  }

  /** Every note whose promotion succeeded was appended. */
  ghost predicate Delivered(s: System) {
    forall id | id in s.calls && s.calls[id].phase.Returned? :: NoteAppended(s, s.calls[id].request.note)
  }

  lemma NothingMarked(note: string, target: string)
    ensures !HasMarker([], note, target)
  {
    assert Decoded([]) == "" && MarkerText(note, target) != "";
    hide MarkerText;
  }

  /** A note whose block quotes another note's marker makes the promotion of
      that other one succeed without its text. */
  lemma QuotedMarkerLosesText(target: string, r: Request, q: Request) returns (schedule: seq<Event>)
    requires PromotionTarget.Clean(target) && '\n' !in q.note && Quotes(r, q.note, target)
    ensures OnlyThese({r, q}, schedule) && !Delivered(Run(target, Initial([], []), schedule))
  {
    hide Run, PromotionExists, AfterAppend, HasMarker, Quotes;
    var first, second := AppendAndDie(0, r), FindAndRecord(1, q);
    schedule := first + second;
    var s := Initial([], []);
    NothingMarked(r.note, target);
    NoPromotion(r.note, target);
    NoPromotion(q.note, target);
    AppendAndDieRuns(target, s, 0, r);
    MarkerAfterAppend([], r, q.note, target);
    FindAndRecordRuns(target, Run(target, s, first), 1, q);
    RunAppend(target, s, first, second);
    var t := Run(target, s, schedule);
    assert t.appends == [0] && t.calls[0].request == r && t.calls[1] == Call(q, Returned(false));
    assert r.note != q.note by { QuotesAnother(r, q.note, target); }
  }

  lemma QuotesAnother(r: Request, note: string, target: string)
    requires Quotes(r, note, target)
    ensures r.note != note
  {
  }

  lemma HonestEnough(requests: set<Request>, schedule: seq<Event>, note: string, target: string)
    requires OnlyThese(requests, schedule) && forall r | r in requests :: Honest(note, target, r)
    ensures HonestSchedule(note, target, schedule)
  {
    hide Honest;
  }

  /** For calls with given requests into a new file, success always means that
      the note was appended exactly when no block quotes another's marker. */
  lemma SuccessMeansTextIff(target: string, requests: set<Request>)
    requires PromotionTarget.Clean(target) && forall r | r in requests :: '\n' !in r.note
    ensures (forall r, q | r in requests && q in requests :: !Quotes(r, q.note, target)) <==>
            (forall schedule | OnlyThese(requests, schedule) :: Delivered(Run(target, Initial([], []), schedule)))
  {
    if r, q :| r in requests && q in requests && Quotes(r, q.note, target) {
      var schedule := QuotedMarkerLosesText(target, r, q);
      assert OnlyThese(requests, schedule);
    } else {
      forall schedule | OnlyThese(requests, schedule) ensures Delivered(Run(target, Initial([], []), schedule)) {
        HonestDelivers(target, requests, schedule);
      }
    }
  }

  lemma HonestDelivers(target: string, requests: set<Request>, schedule: seq<Event>)
    requires PromotionTarget.Clean(target) && OnlyThese(requests, schedule)
    requires forall r, q | r in requests && q in requests :: '\n' !in r.note && !Quotes(r, q.note, target)
    ensures Delivered(Run(target, Initial([], []), schedule))
  {
    hide Run, HasMarker, PromotionExists, Quotes;
    var s := Run(target, Initial([], []), schedule);
    RequestsKnown(target, requests, schedule);
    forall id | id in s.calls && s.calls[id].phase.Returned? ensures NoteAppended(s, s.calls[id].request.note) {
      var q := s.calls[id].request;
      var note := q.note;
      assert q in requests;
      assert forall r | r in requests :: !Quotes(r, q.note, target);
      HonestEnough(requests, schedule, note, target);
      NothingMarked(note, target);
      NoPromotion(note, target);
      RunKeepsSuccess(note, target, [], [], schedule);
    }
  }

  ghost predicate Asked(requests: set<Request>, s: System) {
    forall id | id in s.calls :: s.calls[id].request in requests
  }

  lemma {:induction false} RequestsKnown(target: string, requests: set<Request>, schedule: seq<Event>)
    requires OnlyThese(requests, schedule)
    ensures Asked(requests, Run(target, Initial([], []), schedule))
    decreases |schedule|
  {
    if schedule != [] {
      hide Exec;
      var n := |schedule| - 1;
      RequestsKnown(target, requests, schedule[..n]);
      RequestsStep(target, requests, Run(target, Initial([], []), schedule[..n]), schedule[n]);
    }
  }

  lemma RequestsStep(target: string, requests: set<Request>, s: System, e: Event)
    requires Asked(requests, s) && (e.Start? ==> e.request in requests)
    ensures Asked(requests, Exec(target, s, e))
  {
    hide PromotionExists, HasMarker, AfterAppend, EventFor;
  }

  /** Such notes exist: a verbatim body that is another note's marker. */
  lemma QuotingBody(note: string, other: string, target: string)
    requires note != other
    ensures Quotes(Request(note, MarkerText(other, target), true), other, target)
  {
    var m := MarkerText(other, target);
    MarkerTrims(other, target);
    hide MarkerText, TrimStart, TrimEnd;
    var r := Request(note, m, true);
    var front := "\n<!-- " + MarkerText(note, target) + " -->\n\n";
    VerbatimText(MarkerText(note, target), m);
    OccursInside(front, m, "\n");
  }

  lemma MarkerTrims(note: string, target: string)
    ensures TrimEnd(TrimStart(MarkerText(note, target))) == MarkerText(note, target)
  {
    var m := MarkerText(note, target);
    assert m[0] == 'h' && m[|m| - 1] == '"';
  }

  lemma VerbatimText(a: string, b: string)
    ensures "\n<!-- " + a + (" -->\n\n" + b + "\n") == "\n<!-- " + a + " -->\n\n" + b + "\n"
  {
  }

  // ------------------------------------------------------------------ progress

  ghost predicate LockLive(s: System) {
    && LockOk(s)
    && (s.lock.Some? ==> s.lock.value in s.calls && Inside(s.calls[s.lock.value].phase))
  }

  lemma ExecKeepsLive(target: string, s: System, e: Event)
    requires LockLive(s)
    ensures LockLive(Exec(target, s, e))
  {
    hide PromotionExists, HasMarker, AfterAppend, EventFor;
  }

  lemma {:induction false} RunKeepsLive(target: string, s: System, schedule: seq<Event>)
    requires LockLive(s)
    ensures LockLive(Run(target, s, schedule))
    decreases |schedule|
  {
    hide Exec, LockLive;
    if schedule != [] {
      RunKeepsLive(target, s, schedule[..|schedule| - 1]);
      ExecKeepsLive(target, Run(target, s, schedule[..|schedule| - 1]), schedule[|schedule| - 1]);
    }
  }

  /** One call does exactly these steps, with nobody in between. */
  function Undivided(target: string, s: System, id: CallId, r: Request): System {
    var begun := Exec(target, Exec(target, Exec(target, s, Start(id, r)), Check(id)), Acquire(id));
    var read := Exec(target, Exec(target, begun, ReadTarget(id)), Compare(id));
    Exec(target, Exec(target, Exec(target, read, WriteTarget(id)), WriteEvent(id)), Return(id))
  }

  /** Promotion is never stuck: in every reachable state a lock in use is released
      when its call dies, and a call that then runs undivided always succeeds.
      It returns at once when the promotion is recorded, records only the event
      when the marker is there, and otherwise appends and records. */
  lemma NeverStuck(
      target: string, content: Content, events: seq<AuditEvent>, schedule: seq<Event>, id: CallId, r: Request)
    requires id !in Run(target, Initial(content, events), schedule).calls
    ensures var s := Run(target, Initial(content, events), schedule);
            var free := if s.lock.Some? then Exec(target, s, Crash(s.lock.value)) else s;
            var t := Undivided(target, free, id, r);
            && free.content == s.content && free.events == s.events && free.appends == s.appends && t.lock.None?
            && id in t.calls && t.calls[id].request == r
            && (if PromotionExists(s.events, r.note, target) then
                  t.calls[id].phase == Returned(false) && t.content == s.content && t.events == s.events
                else if HasMarker(s.content, r.note, target) then
                  t.calls[id].phase == Returned(false) && t.content == s.content && t.events == s.events + [EventFor(r.note, target)]
                else
                  t.calls[id].phase == Returned(true) && t.appends == s.appends + [id]
                  && t.events == s.events + [EventFor(r.note, target)] && Adds(s.content, t.content, r, target))
  {
    hide PromotionExists, HasMarker, AfterAppend, EventFor, Run, Adds;
    RunKeepsLive(target, Initial(content, events), schedule);
    var s := Run(target, Initial(content, events), schedule);
    var free := if s.lock.Some? then Exec(target, s, Crash(s.lock.value)) else s;
    UndividedRuns(target, free, id, r);
    AppendAddsText(s.content, r, target);
  }

  lemma UndividedRuns(target: string, s: System, id: CallId, r: Request)
    requires s.lock.None? && id !in s.calls
    ensures var t := Undivided(target, s, id, r);
            if PromotionExists(s.events, r.note, target) then t == s.(calls := s.calls[id := Call(r, Returned(false))])
            else if HasMarker(s.content, r.note, target) then
              t == s.(calls := s.calls[id := Call(r, Returned(false))], events := s.events + [EventFor(r.note, target)],
                      records := s.records + [id])
            else
              t == s.(calls := s.calls[id := Call(r, Returned(true))], events := s.events + [EventFor(r.note, target)],
                      records := s.records + [id], appends := s.appends + [id], content := AfterAppend(s.content, r, target))
  {
    hide PromotionExists, HasMarker, AfterAppend, EventFor;
    var begun := Exec(target, Exec(target, Exec(target, s, Start(id, r)), Check(id)), Acquire(id));
    if PromotionExists(s.events, r.note, target) {
      assert begun == s.(calls := s.calls[id := Call(r, Returned(false))]);
    } else {
      assert begun == s.(calls := s.calls[id := Call(r, Locked)], lock := Some(id));
      var read := Exec(target, Exec(target, begun, ReadTarget(id)), Compare(id));
      if HasMarker(s.content, r.note, target) {
        assert read == s.(calls := s.calls[id := Call(r, Marked)], lock := Some(id));
      } else {
        assert read == s.(calls := s.calls[id := Call(r, Ready(s.content, s.edits))], lock := Some(id));
      }
    }
  }

  /** In every reachable state a call can fail at any step before its event is
      written; it then leaves file and events as they are and frees the lock. */
  lemma ErrorsLetGo(target: string, content: Content, events: seq<AuditEvent>, schedule: seq<Event>, id: CallId)
    requires var s := Run(target, Initial(content, events), schedule);
             id in s.calls && Inside(s.calls[id].phase) && !s.calls[id].phase.Recorded?
    ensures var s := Run(target, Initial(content, events), schedule);
            Exec(target, s, Fail(id)) == s.(lock := None, calls := s.calls[id := Call(s.calls[id].request, Failed)])
  {
    RunKeepsLive(target, Initial(content, events), schedule);
    hide Run, PromotionExists, HasMarker, AfterAppend, EventFor;
  }
}
