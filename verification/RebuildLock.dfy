/** The host-local lock protocol around one store's index cache.

    Any number of rebuilders and pruners run at once.  Every system call is one
    step: open-or-create, flock, the inode comparison, each existence probe and
    the unlink.  A schedule is an arbitrary sequence of events, so a statement
    about `Run(schedule)` is a statement about every interleaving, including
    ones in which calls die between any two steps. */
module RebuildLock {
  import opened Wrappers

  type Pid = nat
  type Inode = nat

  /** Where one call stands.  The first four belong to `try_rebuild_lock`, the
      rest to one entry of `prune_unreferenced_index_locks`. */
  datatype Pc =
    | OpenLock(left: nat)
    | TryLock(left: nat, ino: Inode)
    | VerifyLock(left: nat, ino: Inode)
    | Holding(ino: Inode)
    | ScanData
    | ScanLegacy
    | OpenOrphan
    | TryOrphan(ino: Inode)
    | VerifyOrphan(ino: Inode)
    | RecheckData(ino: Inode)
    | RecheckLegacy(ino: Inode)
    | Unlink(ino: Inode)
    | Close(ino: Inode)
  {
    /** Steps at which the call's open file owns the flock. */
    predicate Owns() {
      VerifyLock? || Holding? || VerifyOrphan? || RecheckData? || RecheckLegacy? || Unlink? || Close?
    }

    /** Steps after a successful inode comparison and before the unlink. */
    predicate Verified() {
      Holding? || RecheckData? || RecheckLegacy? || Unlink?
    }

    predicate HasInode() {
      TryLock? || TryOrphan? || Owns()
    }
  }

  /** `path` is the inode the lock path names; `data` and `legacy` say whether
      the cached index and the old fingerprint sidecar exist. */
  datatype System = System(
    path: Option<Inode>,
    next: Inode,
    owner: map<Inode, Pid>,
    calls: map<Pid, Pc>,
    data: bool,
    legacy: bool)

  datatype Event =
    | StartRebuild(pid: Pid)
    | StartPrune(pid: Pid)
    | Advance(pid: Pid)
    | Publish(pid: Pid)
    | Crash(pid: Pid)
    | RemoveData
    | RemoveLegacy

  const ATTEMPTS: nat := 4

  predicate Init(s: System) {
    && s.calls == map[]
    && s.owner == map[]
    && (s.path.Some? ==> s.path.value < s.next)
  }

  function Goto(s: System, p: Pid, pc: Pc): System {
    s.(calls := s.calls[p := pc])
  }

  /** The call ends; the kernel drops its file and with it the flock. */
  function End(s: System, p: Pid): System {
    s.(calls := s.calls - {p}, owner := map i | i in s.owner && s.owner[i] != p :: s.owner[i])
  }

  function Release(s: System, p: Pid): System {
    s.(owner := map i | i in s.owner && s.owner[i] != p :: s.owner[i])
  }

  function Step(s: System, p: Pid): System
    requires p in s.calls
  {
    match s.calls[p]
    case OpenLock(left) =>
      if left == 0 then End(s, p)
      else if s.path.Some? then Goto(s, p, TryLock(left - 1, s.path.value))
      else Goto(s.(path := Some(s.next), next := s.next + 1), p, TryLock(left - 1, s.next))
    case TryLock(left, i) =>
      if i in s.owner then End(s, p)
      else Goto(s.(owner := s.owner[i := p]), p, VerifyLock(left, i))
    case VerifyLock(left, i) =>
      if s.path == Some(i) then Goto(s, p, Holding(i))
      else Goto(Release(s, p), p, OpenLock(left))
    case Holding(_) => End(s, p)
    case ScanData => if s.data then End(s, p) else Goto(s, p, ScanLegacy)
    case ScanLegacy => if s.legacy then End(s, p) else Goto(s, p, OpenOrphan)
    case OpenOrphan => if s.path.Some? then Goto(s, p, TryOrphan(s.path.value)) else End(s, p)
    case TryOrphan(i) =>
      if i in s.owner then End(s, p)
      else Goto(s.(owner := s.owner[i := p]), p, VerifyOrphan(i))
    case VerifyOrphan(i) => if s.path == Some(i) then Goto(s, p, RecheckData(i)) else End(s, p)
    case RecheckData(i) => if s.data then End(s, p) else Goto(s, p, RecheckLegacy(i))
    case RecheckLegacy(i) => if s.legacy then End(s, p) else Goto(s, p, Unlink(i))
    case Unlink(i) => Goto(s.(path := None), p, Close(i))
    case Close(_) => End(s, p)
  }

  /** One event; an event that is not enabled changes nothing. */
  function Exec(s: System, e: Event): System {
    match e
    case StartRebuild(p) => if p in s.calls then s else Goto(s, p, OpenLock(ATTEMPTS))
    case StartPrune(p) => if p in s.calls then s else Goto(s, p, ScanData)
    case Advance(p) => if p in s.calls then Step(s, p) else s
    case Publish(p) => if p in s.calls && s.calls[p].Holding? then s.(data := true) else s
    case Crash(p) => if p in s.calls then End(s, p) else s
    case RemoveData => s.(data := false)
    case RemoveLegacy => s.(legacy := false)
  }

  function Run(s: System, schedule: seq<Event>): System {
    if schedule == [] then s else Exec(Run(s, schedule[..|schedule| - 1]), schedule[|schedule| - 1])
  }

  /** What holds of every live call: its inode exists already, its flock is
      recorded, past the inode comparison the path names its inode, and past a
      recheck the file it looked for is absent. */
  ghost predicate CallOk(s: System, p: Pid, pc: Pc) {
    && (pc.HasInode() ==> pc.ino < s.next)
    && (pc.Owns() ==> pc.ino in s.owner && s.owner[pc.ino] == p)
    && (pc.Verified() ==> s.path == Some(pc.ino))
    && (pc.RecheckLegacy? ==> !s.data)
    && (pc.Unlink? ==> !s.data && !s.legacy)
  }

  ghost predicate OwnerOk(s: System, i: Inode, p: Pid) {
    p in s.calls && s.calls[p].Owns() && s.calls[p].ino == i
  }

  /** The inductive invariant: every call past its inode comparison owns the
      flock on the inode the path names now, and flocks have no other owners. */
  ghost predicate Inv(s: System) {
    && (s.path.Some? ==> s.path.value < s.next)
    && (forall p | p in s.calls :: CallOk(s, p, s.calls[p]))
    && (forall i | i in s.owner :: OwnerOk(s, i, s.owner[i]))
  }

  lemma EndKeepsInv(s: System, p: Pid)
    requires Inv(s)
    ensures Inv(End(s, p))
    ensures forall left :: Inv(Goto(Release(s, p), p, OpenLock(left)))
  {
    var t := End(s, p);
    forall q | q in t.calls ensures CallOk(t, q, t.calls[q]) {
      assert CallOk(s, q, s.calls[q]);
    }
    forall i | i in t.owner ensures OwnerOk(t, i, t.owner[i]) {
      assert OwnerOk(s, i, s.owner[i]);
    }
    forall pc: Pc | !pc.HasInode() ensures Inv(Goto(Release(s, p), p, pc)) {
      var u := Goto(Release(s, p), p, pc);
      forall q | q in u.calls ensures CallOk(u, q, u.calls[q]) {
        assert q != p ==> CallOk(t, q, t.calls[q]);
      }
      forall i | i in u.owner ensures OwnerOk(u, i, u.owner[i]) {
        assert OwnerOk(t, i, t.owner[i]);
      }
    }
  }

  /** A call moves on without touching path, flocks or files. */
  lemma MoveKeepsInv(s: System, p: Pid, pc: Pc)
    requires Inv(s)
    requires CallOk(s, p, pc)
    requires p in s.calls && s.calls[p].Owns() ==> pc.Owns() && pc.ino == s.calls[p].ino
    ensures Inv(Goto(s, p, pc))
  {
  }

  lemma CreateKeepsInv(s: System)
    requires Inv(s) && s.path.None?
    ensures Inv(s.(path := Some(s.next), next := s.next + 1))
  {
  }

  /** A free flock is taken; `pc` is the inode comparison that follows. */
  lemma AcquireKeepsInv(s: System, p: Pid, pc: Pc)
    requires Inv(s) && p in s.calls && !s.calls[p].Owns() && s.calls[p].HasInode()
    requires pc.VerifyLock? || pc.VerifyOrphan?
    requires pc.ino == s.calls[p].ino && pc.ino !in s.owner
    ensures Inv(Goto(s.(owner := s.owner[pc.ino := p]), p, pc))
  {
  }

  /** Two calls past the inode comparison are the same call. */
  lemma VerifiedIsUnique(s: System, p: Pid, q: Pid)
    requires Inv(s)
    requires p in s.calls && q in s.calls && s.calls[p].Verified() && s.calls[q].Verified()
    ensures p == q
  {
  }

  lemma UnlinkKeepsInv(s: System, p: Pid)
    requires Inv(s) && p in s.calls && s.calls[p].Unlink?
    ensures Inv(Step(s, p))
  {
  }

  lemma StepKeepsInv(s: System, p: Pid)
    requires Inv(s) && p in s.calls
    ensures Inv(Step(s, p))
  {
    var pc := s.calls[p];
    assert CallOk(s, p, pc);
    EndKeepsInv(s, p);
    match pc
    case OpenLock(left) =>
      if left > 0 {
        if s.path.Some? {
          MoveKeepsInv(s, p, TryLock(left - 1, s.path.value));
        } else {
          CreateKeepsInv(s);
          MoveKeepsInv(s.(path := Some(s.next), next := s.next + 1), p, TryLock(left - 1, s.next));
        }
      }
    case TryLock(left, i) => if i !in s.owner { AcquireKeepsInv(s, p, VerifyLock(left, i)); }
    case VerifyLock(left, i) => if s.path == Some(i) { MoveKeepsInv(s, p, Holding(i)); }
    case Holding(_) =>
    case ScanData => if !s.data { MoveKeepsInv(s, p, ScanLegacy); }
    case ScanLegacy => if !s.legacy { MoveKeepsInv(s, p, OpenOrphan); }
    case OpenOrphan => if s.path.Some? { MoveKeepsInv(s, p, TryOrphan(s.path.value)); }
    case TryOrphan(i) => if i !in s.owner { AcquireKeepsInv(s, p, VerifyOrphan(i)); }
    case VerifyOrphan(i) => if s.path == Some(i) { MoveKeepsInv(s, p, RecheckData(i)); }
    case RecheckData(i) => if !s.data { MoveKeepsInv(s, p, RecheckLegacy(i)); }
    case RecheckLegacy(i) => if !s.legacy { MoveKeepsInv(s, p, Unlink(i)); }
    case Unlink(i) => UnlinkKeepsInv(s, p);
    case Close(_) =>
  }

  lemma ExecKeepsInv(s: System, e: Event)
    requires Inv(s)
    ensures Inv(Exec(s, e))
  {
    match e
    case StartRebuild(p) => if p !in s.calls { MoveKeepsInv(s, p, OpenLock(ATTEMPTS)); }
    case StartPrune(p) => if p !in s.calls { MoveKeepsInv(s, p, ScanData); }
    case Advance(p) => if p in s.calls { StepKeepsInv(s, p); }
    case Crash(p) => EndKeepsInv(s, p);
    case _ => FilesKeepInv(s, e);
  }

  /** Publishing needs the lock, so no pruner can be past its recheck then. */
  lemma FilesKeepInv(s: System, e: Event)
    requires Inv(s) && (e.Publish? || e.RemoveData? || e.RemoveLegacy?)
    ensures Inv(Exec(s, e))
  {
  }

  lemma {:induction false} RunKeepsInv(s: System, schedule: seq<Event>)
    requires Init(s)
    ensures Inv(Run(s, schedule))
    decreases |schedule|
  {
    if schedule != [] {
      RunKeepsInv(s, schedule[..|schedule| - 1]);
      ExecKeepsInv(Run(s, schedule[..|schedule| - 1]), schedule[|schedule| - 1]);
    }
  }

  ghost predicate Holds(s: System, p: Pid) {
    p in s.calls && s.calls[p].Holding?
  }

  /** In every reachable state at most one call holds a verified lock. */
  lemma MutualExclusion(s: System, schedule: seq<Event>, p: Pid, q: Pid)
    requires Init(s)
    requires Holds(Run(s, schedule), p) && Holds(Run(s, schedule), q)
    ensures p == q
  {
    RunKeepsInv(s, schedule);
    VerifiedIsUnique(Run(s, schedule), p, q);
  }

  /** Whenever a step takes the lock path away, no call holds the lock, the
      index it guards is unreferenced, and what goes away is the very inode the
      pruner locked. */
  lemma UnlinkIsSafe(s: System, schedule: seq<Event>, e: Event)
    requires Init(s)
    requires Run(s, schedule).path.Some? && Exec(Run(s, schedule), e).path.None?
    ensures forall p :: !Holds(Run(s, schedule), p)
    ensures !Run(s, schedule).data && !Run(s, schedule).legacy
    ensures e.Advance? && e.pid in Run(s, schedule).calls
    ensures Run(s, schedule).calls[e.pid] == Unlink(Run(s, schedule).path.value)
  {
    RunKeepsInv(s, schedule);
    var t := Run(s, schedule);
    assert CallOk(t, e.pid, t.calls[e.pid]);
    forall p | Holds(t, p) ensures false {
      VerifiedIsUnique(t, p, e.pid);
    }
  }

  ghost predicate Ends(e: Event, p: Pid) {
    e == Advance(p) || e == Crash(p)
  }

  lemma GrantSurvives(s: System, e: Event, p: Pid)
    requires Inv(s) && Holds(s, p) && !Ends(e, p)
    ensures Holds(Exec(s, e), p) && Exec(s, e).calls[p] == s.calls[p]
  {
  }

  lemma RunAppend(s: System, schedule: seq<Event>, e: Event)
    ensures Run(s, schedule + [e]) == Exec(Run(s, schedule), e)
  {
  }

  /** From the moment a call is granted the lock until it drops it or dies, the
      lock path keeps naming its inode and it keeps the flock on it, whatever
      all the others do. */
  lemma {:induction false} GrantIsStable(s: System, schedule: seq<Event>, later: seq<Event>, p: Pid)
    requires Init(s)
    requires Holds(Run(s, schedule), p)
    requires forall e | e in later :: !Ends(e, p)
    ensures Holds(Run(s, schedule + later), p)
    ensures Run(s, schedule + later).path == Some(Run(s, schedule).calls[p].ino)
    ensures Run(s, schedule + later).calls[p] == Run(s, schedule).calls[p]
    decreases |later|
  {
    RunKeepsInv(s, schedule + later);
    if later == [] {
      assert schedule + later == schedule;
    } else {
      var before, e := later[..|later| - 1], later[|later| - 1];
      GrantIsStable(s, schedule, before, p);
      assert schedule + later == (schedule + before) + [e];
      RunAppend(s, schedule + before, e);
      RunKeepsInv(s, schedule + before);
      GrantSurvives(Run(s, schedule + before), e, p);
    }
    var t := Run(s, schedule + later);
    assert CallOk(t, p, t.calls[p]);
  }

  // ------------------------------------------------------------------ progress

  /** How many steps of its own a call can still take before it holds the lock
      or is over: three for each attempt of a rebuilder, nine for a pruner. */
  function StepsLeft(pc: Pc): nat {
    match pc
    case OpenLock(left) => 3 * left + 1
    case TryLock(left, _) => 3 * left + 3
    case VerifyLock(left, _) => 3 * left + 2
    case Holding(_) => 0
    case ScanData => 9
    case ScanLegacy => 8
    case OpenOrphan => 7
    case TryOrphan(_) => 6
    case VerifyOrphan(_) => 5
    case RecheckData(_) => 4
    case RecheckLegacy(_) => 3
    case Unlink(_) => 2
    case Close(_) => 1
  }

  function OwnSteps(schedule: seq<Event>, p: Pid): nat {
    if schedule == [] then 0
    else OwnSteps(schedule[..|schedule| - 1], p) + if schedule[|schedule| - 1] == Advance(p) then 1 else 0
  }

  lemma OwnStep(s: System, p: Pid)
    requires p in s.calls && !Holds(s, p)
    ensures var t := Step(s, p); p in t.calls && !Holds(t, p) ==> StepsLeft(t.calls[p]) < StepsLeft(s.calls[p])
  {
  }

  lemma OneStepLess(s: System, e: Event, p: Pid)
    requires e != StartRebuild(p) && e != StartPrune(p)
    ensures p !in s.calls ==> p !in Exec(s, e).calls
    ensures Holds(s, p) ==> p !in Exec(s, e).calls || Holds(Exec(s, e), p)
    ensures p in s.calls && !Holds(s, p) && p in Exec(s, e).calls && !Holds(Exec(s, e), p) ==>
              StepsLeft(Exec(s, e).calls[p]) + (if e == Advance(p) then 1 else 0) <= StepsLeft(s.calls[p])
  {
    hide StepsLeft;
    if e == Advance(p) && p in s.calls && !Holds(s, p) { OwnStep(s, p); }
  }

  /** Nobody waits: whatever the others do in between, after so many steps of
      its own a call holds the lock or is over.  A new rebuilder has at most
      thirteen of them, a new pruner nine. */
  lemma {:induction false} NeverWaits(s: System, schedule: seq<Event>, p: Pid)
    requires p in s.calls && !Holds(s, p) && forall e | e in schedule :: e != StartRebuild(p) && e != StartPrune(p)
    ensures var t := Run(s, schedule);
            p in t.calls && !Holds(t, p) ==> StepsLeft(t.calls[p]) + OwnSteps(schedule, p) <= StepsLeft(s.calls[p])
    ensures OwnSteps(schedule, p) >= StepsLeft(s.calls[p]) ==> p !in Run(s, schedule).calls || Holds(Run(s, schedule), p)
    decreases |schedule|
  {
    hide Exec;
    if schedule != [] {
      var n := |schedule| - 1;
      assert forall e | e in schedule[..n] :: e in schedule;
      assert schedule[n] in schedule;
      NeverWaits(s, schedule[..n], p);
      OneStepLess(Run(s, schedule[..n]), schedule[n], p);
    }
  }

  lemma NewCalls(s: System, p: Pid)
    requires p !in s.calls
    ensures p in Exec(s, StartRebuild(p)).calls && StepsLeft(Exec(s, StartRebuild(p)).calls[p]) == 13
    ensures p in Exec(s, StartPrune(p)).calls && StepsLeft(Exec(s, StartPrune(p)).calls[p]) == 9
  {
  }

  /** This call alone goes on for `n` steps. */
  function Alone(s: System, p: Pid, n: nat): System {
    if n == 0 then s else Exec(Alone(s, p, n - 1), Advance(p))
  }

  predicate Free(s: System) {
    s.path.None? || s.path.value !in s.owner
  }

  lemma NextIsFree(s: System)
    requires Inv(s)
    ensures s.next !in s.owner
  {
    assert s.next in s.owner ==> OwnerOk(s, s.next, s.owner[s.next]);
  }

  lemma Granted(s: System, p: Pid)
    requires Inv(s) && p !in s.calls
    ensures var start := Exec(s, StartRebuild(p));
            if Free(s) then Holds(Alone(start, p, 3), p) else Alone(start, p, 2) == s
  {
    NextIsFree(s);
    var start := Exec(s, StartRebuild(p));
    assert start == Goto(s, p, OpenLock(4));
    FirstSteps(start, p);
    if Free(s) {
      assert Holds(Exec(Exec(Exec(start, Advance(p)), Advance(p)), Advance(p)), p);
    } else {
      NobodyElse(s, p);
      var second := Exec(Exec(start, Advance(p)), Advance(p));
      assert second.calls == s.calls && second.owner == s.owner;
    }
  }

  /** In every reachable state a new rebuilder that meets a free lock gets it in
      three steps, and one that meets a held lock is turned away in two and
      leaves everything as it was. */
  lemma GrantedIff(s: System, schedule: seq<Event>, p: Pid)
    requires Init(s) && p !in Run(s, schedule).calls
    ensures var t := Run(s, schedule);
            var start := Exec(t, StartRebuild(p));
            if Free(t) then Holds(Alone(start, p, 3), p) else Alone(start, p, 2) == t
  {
    hide Run, Exec;
    RunKeepsInv(s, schedule);
    Granted(Run(s, schedule), p);
  }

  lemma FirstSteps(s: System, p: Pid)
    ensures Alone(s, p, 1) == Exec(s, Advance(p))
    ensures Alone(s, p, 2) == Exec(Exec(s, Advance(p)), Advance(p))
    ensures Alone(s, p, 3) == Exec(Exec(Exec(s, Advance(p)), Advance(p)), Advance(p))
  {
    hide Exec;
    assert Alone(s, p, 0) == s;
    assert Alone(s, p, 1) == Exec(Alone(s, p, 0), Advance(p));
    assert Alone(s, p, 2) == Exec(Alone(s, p, 1), Advance(p));
  }

  lemma NobodyElse(s: System, p: Pid)
    requires Inv(s) && p !in s.calls
    ensures forall i | i in s.owner :: s.owner[i] != p
  {
    forall i | i in s.owner ensures s.owner[i] != p {
      assert OwnerOk(s, i, s.owner[i]);
    }
  }

  /** And a new pruner that meets a free lock of an index that is not there
      removes the lock path, and nothing else. */
  lemma PrunerRemoves(s: System, schedule: seq<Event>, p: Pid)
    requires Init(s) && p !in Run(s, schedule).calls
    requires var t := Run(s, schedule); !t.data && !t.legacy && t.path.Some? && t.path.value !in t.owner
    ensures var t := Run(s, schedule); Alone(Exec(t, StartPrune(p)), p, 9) == t.(path := None)
  {
    hide Run;
    RunKeepsInv(s, schedule);
    var t := Run(s, schedule);
    var i := t.path.value;
    NobodyElse(t, p);
    var x0 := Goto(t, p, ScanData);
    assert Exec(t, StartPrune(p)) == x0;
    OrphanFound(t, p);
    var x3 := Goto(t, p, TryOrphan(i));
    OrphanLocked(t, p, i);
    var x6 := Goto(t.(owner := t.owner[i := p]), p, RecheckLegacy(i));
    OrphanRemoved(t, p, i);
    AloneAdds(x0, p, 3, 6);
    AloneAdds(x3, p, 3, 3);
  }

  lemma {:induction false} AloneAdds(s: System, p: Pid, m: nat, n: nat)
    ensures Alone(s, p, m + n) == Alone(Alone(s, p, m), p, n)
  {
    if n > 0 { AloneAdds(s, p, m, n - 1); }
  }

  lemma OrphanFound(t: System, p: Pid)
    requires !t.data && !t.legacy && t.path.Some?
    ensures Alone(Goto(t, p, ScanData), p, 3) == Goto(t, p, TryOrphan(t.path.value))
  {
    FirstSteps(Goto(t, p, ScanData), p);
    assert Goto(Goto(Goto(Goto(t, p, ScanData), p, ScanLegacy), p, OpenOrphan), p, TryOrphan(t.path.value))
        == Goto(t, p, TryOrphan(t.path.value));
  }

  lemma OrphanLocked(t: System, p: Pid, i: Inode)
    requires !t.data && t.path == Some(i) && i !in t.owner
    ensures Alone(Goto(t, p, TryOrphan(i)), p, 3) == Goto(t.(owner := t.owner[i := p]), p, RecheckLegacy(i))
  {
    FirstSteps(Goto(t, p, TryOrphan(i)), p);
    var u := t.(owner := t.owner[i := p]);
    assert Goto(Goto(Goto(u, p, VerifyOrphan(i)), p, RecheckData(i)), p, RecheckLegacy(i)) == Goto(u, p, RecheckLegacy(i));
  }

  lemma OrphanRemoved(t: System, p: Pid, i: Inode)
    requires !t.legacy && t.path == Some(i) && i !in t.owner && p !in t.calls && forall j | j in t.owner :: t.owner[j] != p
    ensures Alone(Goto(t.(owner := t.owner[i := p]), p, RecheckLegacy(i)), p, 3) == t.(path := None)
  {
    var u := t.(owner := t.owner[i := p]);
    var last := Goto(u.(path := None), p, Close(i));
    FirstSteps(Goto(u, p, RecheckLegacy(i)), p);
    assert Exec(Goto(u, p, RecheckLegacy(i)), Advance(p)) == Goto(u, p, Unlink(i));
    assert Exec(Goto(u, p, Unlink(i)), Advance(p)) == last;
    assert Exec(last, Advance(p)) == End(last, p);
    hide Exec;
    EndsClean(t, p, i);
  }

  lemma EndsClean(t: System, p: Pid, i: Inode)
    requires i !in t.owner && p !in t.calls && forall j | j in t.owner :: t.owner[j] != p
    ensures End(Goto(t.(owner := t.owner[i := p], path := None), p, Close(i)), p) == t.(path := None)
  {
    var last := Goto(t.(owner := t.owner[i := p], path := None), p, Close(i));
    assert End(last, p).calls == t.calls && End(last, p).owner == t.owner;
  }

  /** A rebuilder that locked a file which had been unlinked meanwhile tries again
      with the one the path names now, as long as it has attempts left. */
  lemma ReplacedIsRetried(s: System, schedule: seq<Event>, p: Pid)
    requires Init(s)
    requires var t := Run(s, schedule);
             && p in t.calls && t.calls[p].TryLock? && t.calls[p].ino !in t.owner
             && t.path != Some(t.calls[p].ino) && Free(t)
    ensures var t := Run(s, schedule);
            var left := t.calls[p].left;
            if left > 0 then Holds(Alone(t, p, 5), p) else p !in Alone(t, p, 3).calls
  {
    RunKeepsInv(s, schedule);
    hide Run;
    var t := Run(s, schedule);
    Replaced(t, p);
    if t.calls[p].left > 0 { AloneAdds(t, p, 2, 3); } else { AloneAdds(t, p, 2, 1); }
  }

  lemma Replaced(t: System, p: Pid)
    requires Inv(t) && p in t.calls && t.calls[p].TryLock? && t.calls[p].ino !in t.owner
    requires t.path != Some(t.calls[p].ino) && Free(t)
    ensures var left := t.calls[p].left;
            var u := Alone(t, p, 2);
            if left > 0 then Holds(Alone(u, p, 3), p) else p !in Alone(u, p, 1).calls
  {
    var left, i := t.calls[p].left, t.calls[p].ino;
    NextIsFree(t);
    assert CallOk(t, p, t.calls[p]);
    FirstSteps(t, p);
    var u := Alone(t, p, 2);
    assert u.calls[p] == OpenLock(left) && u.path == t.path && u.next == t.next;
    assert forall j | j in u.owner :: j in t.owner;
    LastSteps(u, p, left);
  }

  lemma LastSteps(u: System, p: Pid, left: nat)
    requires p in u.calls && u.calls[p] == OpenLock(left) && Free(u) && u.next !in u.owner
    ensures if left > 0 then Holds(Alone(u, p, 3), p) else p !in Alone(u, p, 1).calls
  {
    FirstSteps(u, p);
    if left > 0 {
      var i := if u.path.Some? then u.path.value else u.next;
      var next := Exec(u, Advance(p));
      assert next.calls[p] == TryLock(left - 1, i) && next.path == Some(i) && next.owner == u.owner;
      FlockAndCompare(next, p, left - 1, i);
    }
  }

  lemma FlockAndCompare(s: System, p: Pid, left: nat, i: Inode)
    requires p in s.calls && s.calls[p] == TryLock(left, i) && s.path == Some(i) && i !in s.owner
    ensures Holds(Exec(Exec(s, Advance(p)), Advance(p)), p)
  {
    var t := Exec(s, Advance(p));
    assert t.calls[p] == VerifyLock(left, i) && t.path == Some(i);
  }
}
