/** Rebuilds under the rebuild lock: one machine in which every call locks, reads
    the cache, looks at its own view of the store and publishes as separate
    steps, in any interleaving and with crashes between any two of them. */
module IndexProtocol {
  import opened Wrappers
  import L = RebuildLock
  import opened IndexFile
  import opened IndexRebuild

  /** `seen` is the cache file each holder has read.  A reading belongs to one
      grant of the lock: it is gone when the call is.  `log` is history: the
      views of the rebuilds that got to their end, in order. */
  datatype System = System(lock: L.System, file: Option<string>, seen: map<L.Pid, Option<string>>, log: seq<View>)

  /** `Lock` is a step of the lock protocol by itself.  The cache file changes
      when a rebuild publishes it and when it is removed. */
  datatype Event =
    | Lock(event: L.Event)
    | Load(pid: L.Pid)
    | Publish(pid: L.Pid, view: View)
    | RemoveCache

  predicate Holds(s: System, p: L.Pid) {
    p in s.lock.calls && s.lock.calls[p].Holding?
  }

  /** The file after the last step of a rebuild that read `seen`; a rebuild that
      publishes nothing does not touch it. */
  function Published(env: Env, s: System, seen: Option<string>, v: View): Option<string> {
    var (file, r) := Rebuild(env, seen, v);
    if r.Ok? && r.value.published then file else s.file
  }

  function Exec(env: Env, s: System, e: Event): System {
    match e
    case Lock(event) =>
      if event.Publish? || event.RemoveData? then s
      else
        var lock := L.Exec(s.lock, event);
        s.(lock := lock, seen := map p | p in s.seen && p in lock.calls && lock.calls[p].Holding? :: s.seen[p])
    case Load(p) => if Holds(s, p) then s.(seen := s.seen[p := s.file]) else s
    case Publish(p, view) =>
      if Holds(s, p) && p in s.seen then
        var file := Published(env, s, s.seen[p], view);
        System(if file.Some? then L.Exec(s.lock, L.Publish(p)) else s.lock, file, s.seen - {p}, s.log + [view])
      else s
    case RemoveCache => s.(lock := L.Exec(s.lock, L.RemoveData), file := None)
  }

  function Run(env: Env, s: System, schedule: seq<Event>): System {
    if schedule == [] then s
    else Exec(env, Run(env, s, schedule[..|schedule| - 1]), schedule[|schedule| - 1])
  }

  ghost predicate Init(env: Env, s: System) {
    && L.Init(s.lock) && s.seen == map[] && s.log == []
    && Undamaged(env, s.file) && s.lock.data == s.file.Some?
  }

  /** What a holder has read is still the file, unless it was removed since. */
  ghost predicate Inv(env: Env, s: System) {
    && L.Inv(s.lock)
    && (forall p | p in s.seen ::
          Holds(s, p) && Undamaged(env, s.seen[p]) && (s.file == s.seen[p] || s.file.None?))
    && Undamaged(env, s.file)
    && s.lock.data == s.file.Some?
  }

  ghost predicate NeverRemoved(schedule: seq<Event>) {
    forall k | 0 <= k < |schedule| :: !schedule[k].RemoveCache?
  }

  // -------------------------------------------------------------- the invariant

  lemma LockKeepsInv(env: Env, s: System, event: L.Event)
    requires Inv(env, s)
    ensures Inv(env, Exec(env, s, Lock(event)))
  {
    hide L.Exec, L.Inv, Undamaged;
    if !event.Publish? && !event.RemoveData? {
      L.ExecKeepsInv(s.lock, event);
      LockKeepsData(s.lock, event);
    }
  }

  lemma LockKeepsData(s: L.System, event: L.Event)
    requires !event.Publish? && !event.RemoveData?
    ensures L.Exec(s, event).data == s.data
  {
  }

  /** Only the holder publishes, so nobody else's reading goes stale. */
  lemma PublishKeepsInv(env: Env, s: System, p: L.Pid, v: View)
    requires env.codec.Sound() && Inv(env, s) && Holds(s, p) && p in s.seen
    ensures Inv(env, Exec(env, s, Publish(p, v)))
    ensures Covers(Stored(env, Published(env, s, s.seen[p], v)), Stored(env, s.file))
    ensures s.file == s.seen[p] ==> Published(env, s, s.seen[p], v) == Rebuild(env, s.file, v).0
  {
    RebuildCovers(env, s.seen[p], v);
    L.ExecKeepsInv(s.lock, L.Publish(p));
    RebuildFile(env, s.seen[p], v);
    NothingStored(env);
    forall q | q in s.seen ensures q == p {
      L.VerifiedIsUnique(s.lock, p, q);
    }
    hide Rebuild, Undamaged, Stored, L.Inv;
  }

  lemma RebuildFile(env: Env, file: Option<string>, v: View)
    ensures var (file', r) := Rebuild(env, file, v);
            if r.Ok? && r.value.published then file'.Some? else file' == file
  {
    hide PreviousGeneration, MergeView, BuildProjection, Render;
  }

  lemma NothingStored(env: Env)
    ensures Stored(env, None) == []
    ensures forall entries: seq<Entry> :: Covers(entries, []) && Covers(entries, entries)
  {
  }

  lemma ExecKeepsInv(env: Env, s: System, e: Event)
    requires env.codec.Sound() && Inv(env, s)
    ensures Inv(env, Exec(env, s, e))
    ensures !e.RemoveCache? ==> Covers(Stored(env, Exec(env, s, e).file), Stored(env, s.file))
  {
    NothingStored(env);
    match e
    case Lock(event) => LockKeepsInv(env, s, event);
    case Load(p) =>
    case Publish(p, v) => if Holds(s, p) && p in s.seen { PublishKeepsInv(env, s, p, v); }
    case RemoveCache => L.ExecKeepsInv(s.lock, L.RemoveData);
  }

  lemma InitInv(env: Env, s: System)
    requires Init(env, s)
    ensures Inv(env, s)
  {
    hide Undamaged;
  }

  lemma {:induction false} RunKeepsInv(env: Env, s: System, schedule: seq<Event>)
    requires env.codec.Sound() && Inv(env, s)
    ensures Inv(env, Run(env, s, schedule))
    ensures NeverRemoved(schedule) ==> Covers(Stored(env, Run(env, s, schedule).file), Stored(env, s.file))
    decreases |schedule|
  {
    hide Exec, Inv, Stored;
    if schedule == [] {
      NothingStored(env);
    } else {
      var n := |schedule| - 1;
      var t := Run(env, s, schedule[..n]);
      RunKeepsInv(env, s, schedule[..n]);
      ExecKeepsInv(env, t, schedule[n]);
      if NeverRemoved(schedule) {
        CoversTransitive(Stored(env, Exec(env, t, schedule[n]).file), Stored(env, t.file), Stored(env, s.file));
      }
    }
  }

  // ---------------------------------------------------------------- the theorems

  /** History never shrinks under concurrency: from any reachable state on, as
      long as the cache is not removed, every id and every event-backed id that
      was served is still served, whatever rebuilders, pruners and crashes do. */
  lemma ConcurrentHistoryNeverShrinks(env: Env, s: System, before: seq<Event>, after: seq<Event>)
    requires env.codec.Sound() && Init(env, s) && NeverRemoved(after)
    ensures var t := Run(env, s, before);
            Covers(Stored(env, Run(env, t, after).file), Stored(env, t.file))
  {
    hide Init, Inv, Stored;
    InitInv(env, s);
    RunKeepsInv(env, s, before);
    RunKeepsInv(env, Run(env, s, before), after);
  }

  /** While the cache is not removed, the file is what the finished rebuilds make
      one after another, each over its own view: interleaving loses none. */
  lemma {:induction false} RebuildsLinearize(env: Env, s: System, schedule: seq<Event>)
    requires env.codec.Sound() && Init(env, s) && NeverRemoved(schedule)
    ensures var t := Run(env, s, schedule);
            && t.file == RunAll(env, s.file, t.log)
            && (forall p | p in t.seen :: t.seen[p] == t.file)
    decreases |schedule|
  {
    hide Rebuild, Undamaged, L.Exec, L.Inv, Published;
    if schedule != [] {
      var n := |schedule| - 1;
      var t, e := Run(env, s, schedule[..n]), schedule[n];
      RebuildsLinearize(env, s, schedule[..n]);
      InitInv(env, s);
      RunKeepsInv(env, s, schedule[..n]);
      if e.Publish? && Holds(t, e.pid) && e.pid in t.seen {
        PublishKeepsInv(env, t, e.pid, e.view);
        assert (t.log + [e.view])[..|t.log|] == t.log;
        forall q | q in t.seen ensures q == e.pid { L.VerifiedIsUnique(t.lock, e.pid, q); }
      }
    }
  }

  /** With rebuilders, pruners and crashes interleaved in any way: what is served
      as fresh for a scan was there at the start, or was published by a rebuild
      that took this very scan before and after it read the notes. */
  lemma ServedAsScanned(env: Env, s: System, schedule: seq<Event>, now: Freshness)
    requires env.codec.Sound() && Init(env, s) && NeverRemoved(schedule)
    requires LoadFresh(env.codec, Run(env, s, schedule).file, now).Some?
    ensures var t := Run(env, s, schedule);
            t.file == s.file || exists k: nat :: k < |t.log| && ScannedBy(env, s.file, t.log, k, now)
  {
    hide Run, Init, LoadFresh, RunAll, ScannedBy;
    RebuildsLinearize(env, s, schedule);
    FreshMeansScanned(env, s.file, Run(env, s, schedule).log, now);
  }

  /** At most one call can publish at any moment. */
  lemma OnePublisher(env: Env, s: System, schedule: seq<Event>, p: L.Pid, q: L.Pid)
    requires env.codec.Sound() && Init(env, s)
    requires var t := Run(env, s, schedule); Holds(t, p) && Holds(t, q)
    ensures p == q
  {
    InitInv(env, s);
    hide Undamaged;
    RunKeepsInv(env, s, schedule);
    L.VerifiedIsUnique(Run(env, s, schedule).lock, p, q);
  }

  lemma PathGone(s: L.System, e: L.Event)
    requires s.path.Some? && L.Exec(s, e).path.None?
    ensures e.Advance? && e.pid in s.calls && s.calls[e.pid].Unlink?
  {
  }

  /** The lock path goes away only when there is no cache to guard and nobody
      holds the lock. */
  lemma UnlinkOnlyWithoutCache(env: Env, s: System, schedule: seq<Event>, e: Event)
    requires env.codec.Sound() && Init(env, s)
    requires var t := Run(env, s, schedule); t.lock.path.Some? && Exec(env, t, e).lock.path.None?
    ensures var t := Run(env, s, schedule); t.file.None? && forall p :: !Holds(t, p)
  {
    InitInv(env, s);
    RunKeepsInv(env, s, schedule);
    hide Undamaged, L.Exec, Init, Published, Run;
    var t := Run(env, s, schedule);
    var step := match e case Lock(event) => event case Publish(p, _) => L.Publish(p) case _ => L.RemoveData;
    PathGone(t.lock, step);
    var pid := step.pid;
    assert L.CallOk(t.lock, pid, t.lock.calls[pid]);
    forall p ensures !Holds(t, p) {
      if Holds(t, p) { L.VerifiedIsUnique(t.lock, p, pid); }
    }
  }

  // ------------------------------------------------------------------ progress

  function Advanced(env: Env, s: System, p: L.Pid, n: nat): System {
    if n == 0 then s else Exec(env, Advanced(env, s, p, n - 1), Lock(L.Advance(p)))
  }

  lemma {:induction false} AdvancedIs(env: Env, s: System, p: L.Pid, n: nat)
    requires p !in s.seen
    ensures var t := Advanced(env, s, p, n);
            t.lock == L.Alone(s.lock, p, n) && t.file == s.file && t.log == s.log && p !in t.seen
    decreases n
  {
    hide L.Exec;
    if n > 0 { AdvancedIs(env, s, p, n - 1); }
  }

  lemma Unread(env: Env, s: System, p: L.Pid)
    requires Inv(env, s) && p !in s.lock.calls
    ensures p !in s.seen && p !in Exec(env, s, Lock(L.StartRebuild(p))).seen
  {
    hide Undamaged;
  }

  /** In every reachable state a rebuild that meets a free lock and is then left
      alone does its work: the cache file becomes what one rebuild makes of it. */
  lemma LoneRebuild(env: Env, s: System, schedule: seq<Event>, p: L.Pid, v: View)
    requires env.codec.Sound() && Init(env, s)
    requires var t := Run(env, s, schedule); p !in t.lock.calls && L.Free(t.lock)
    ensures var t := Run(env, s, schedule);
            var holding := Advanced(env, Exec(env, t, Lock(L.StartRebuild(p))), p, 3);
            var done := Exec(env, Exec(env, holding, Load(p)), Publish(p, v));
            && Holds(holding, p) && holding.file == t.file
            && done.file == Rebuild(env, t.file, v).0 && done.log == t.log + [v]
  {
    InitInv(env, s);
    RunKeepsInv(env, s, schedule);
    hide Run, Undamaged, Rebuild, L.Exec;
    var t := Run(env, s, schedule);
    Unread(env, t, p);
    L.Granted(t.lock, p);
    var start := Exec(env, t, Lock(L.StartRebuild(p)));
    AdvancedIs(env, start, p, 3);
    RebuildFile(env, t.file, v);
    hide Inv, Init;
    var holding := Advanced(env, start, p, 3);
    var loaded := Exec(env, holding, Load(p));
    assert loaded.seen[p] == t.file && loaded.file == t.file && Holds(loaded, p);
    assert Published(env, loaded, loaded.seen[p], v) == Rebuild(env, t.file, v).0;
  }
}
