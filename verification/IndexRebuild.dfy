/** Rebuilding a store's cached index: merge what this walk saw with the last
    good generation, then publish, keep or refuse.

    One rebuild reads a possibly partial or changing view of the store.  The
    theorems are about any number of rebuilds, each with its own view. */
module IndexRebuild {
  import opened Wrappers
  import opened Text
  import opened Sorting
  import opened IndexFile

  datatype Warning = Warning(path: string, message: string)

  /** Everything one rebuild observes outside the cache file. */
  datatype View = View(
    before: Result<Scan, string>,
    registry: Result<(), string>,
    notes: Result<(seq<Entry>, seq<Warning>), string>,
    curated: Result<Curated, string>,
    after: Result<Scan, string>,
    writeFails: bool)

  datatype Curated = Curated(entries: seq<Entry>, aliases: string, warnings: seq<Warning>)

  datatype Report = Report(entries: seq<Entry>, projection: Projection, published: bool, current: bool)

  /** `covers` says whether a warning's path is at or above an entry's path;
      `builtin` is the alias table a legacy cache is served with. */
  datatype Env = Env(codec: Codec, root: string, covers: (Warning, Entry) -> bool, builtin: string)

  datatype Previous = Previous(freshness: Freshness, entries: seq<Entry>, projection: Projection)

  predicate ByPath(a: Entry, b: Entry) {
    if a.notePath == b.notePath then StringLe(a.id, b.id) else StringLe(a.notePath, b.notePath)
  }

  const PathOrder: (Entry, Entry) -> bool := (a, b) => ByPath(a, b)

  // ------------------------------------------------------------------- merge

  /** Position of the last entry with this id. */
  function LastIndex(entries: seq<Entry>, id: string): (r: Option<nat>)
    ensures r.Some? ==> r.value < |entries| && entries[r.value].id == id
    ensures r.Some? ==> forall j | r.value < j < |entries| :: entries[j].id != id
    ensures r.None? ==> forall e | e in entries :: e.id != id
  {
    if entries == [] then None
    else if entries[|entries| - 1].id == id then Some(|entries| - 1)
    else LastIndex(entries[..|entries| - 1], id)
  }

  /** The candidate lost its event although the previous generation had one. */
  predicate Regressed(previous: Entry, candidate: Entry) {
    previous.eventPath.Some? && candidate.eventPath.None?
  }

  function MergeOne(entries: seq<Entry>, previous: Entry): (seq<Entry>, nat) {
    match LastIndex(entries, previous.id)
    case Some(i) => if Regressed(previous, entries[i]) then (entries[i := previous], 1) else (entries, 0)
    case None => (entries + [previous], 1)
  }

  function MergeAll(previous: seq<Entry>, entries: seq<Entry>): (seq<Entry>, nat) {
    if previous == [] then (entries, 0)
    else
      var (sofar, restored) := MergeAll(previous[..|previous| - 1], entries);
      var (merged, more) := MergeOne(sofar, previous[|previous| - 1]);
      (merged, restored + more)
  }

  function Merge(previous: seq<Entry>, candidates: seq<Entry>): (seq<Entry>, nat) {
    var (merged, restored) := MergeAll(previous, candidates);
    (StableSort(PathOrder, merged), restored)
  }

  /** The last position of every id, as the map that the loop maintains. */
  ghost predicate Positions(positions: map<string, nat>, entries: seq<Entry>) {
    forall id :: LastIndex(entries, id) == if id in positions then Some(positions[id]) else None
  }

  lemma PositionsStep(positions: map<string, nat>, entries: seq<Entry>, e: Entry)
    requires Positions(positions, entries)
    ensures Positions(positions[e.id := |entries|], entries + [e])
  {
  }

  lemma PositionsReplace(positions: map<string, nat>, entries: seq<Entry>, i: nat, e: Entry)
    requires Positions(positions, entries) && i < |entries| && entries[i].id == e.id
    ensures Positions(positions, entries[i := e])
  {
    forall id ensures LastIndex(entries[i := e], id) == LastIndex(entries, id) {
      LastIndexReplace(entries, i, e, id);
    }
  }

  lemma LastIndexReplace(entries: seq<Entry>, i: nat, e: Entry, id: string)
    requires i < |entries| && entries[i].id == e.id
    ensures LastIndex(entries[i := e], id) == LastIndex(entries, id)
  {
    hide LastIndex;
    var changed := entries[i := e];
    var a, b := LastIndex(entries, id), LastIndex(changed, id);
    assert forall k | 0 <= k < |entries| :: changed[k].id == entries[k].id;
    assert a.Some? ==> changed[a.value] in changed;
    assert b.Some? ==> entries[b.value] in entries;
  }

  lemma NoPositions()
    ensures Positions(map[], [])
  {
  }

  lemma MergeAllNext(previous: seq<Entry>, candidates: seq<Entry>, k: nat)
    requires k < |previous|
    ensures var (sofar, restored) := MergeAll(previous[..k], candidates);
            var (merged, more) := MergeOne(sofar, previous[k]);
            MergeAll(previous[..k + 1], candidates) == (merged, restored + more)
  {
    assert previous[..k + 1][..k] == previous[..k];
  }

  method MergeRegressedSnapshot(previous: seq<Entry>, candidates: seq<Entry>) returns (entries: seq<Entry>, restored: nat)
    ensures (entries, restored) == Merge(previous, candidates)
  {
    hide LastIndex, StableSort;
    var positions: map<string, nat> := map[];
    NoPositions();
    for i := 0 to |candidates|
      invariant Positions(positions, candidates[..i])
    {
      PositionsStep(positions, candidates[..i], candidates[i]);
      assert candidates[..i] + [candidates[i]] == candidates[..i + 1];
      positions := positions[candidates[i].id := i];
    }
    assert candidates[..|candidates|] == candidates;
    entries, restored := candidates, 0;
    for k := 0 to |previous|
      invariant Positions(positions, entries)
      invariant (entries, restored) == MergeAll(previous[..k], candidates)
    {
      var p := previous[k];
      MergeAllNext(previous, candidates, k);
      hide MergeAll;
      assert LastIndex(entries, p.id) == if p.id in positions then Some(positions[p.id]) else None;
      if p.id in positions {
        var i := positions[p.id];
        if p.eventPath.Some? && entries[i].eventPath.None? {
          PositionsReplace(positions, entries, i, p);
          entries := entries[i := p];
          restored := restored + 1;
        }
      } else {
        PositionsStep(positions, entries, p);
        positions := positions[p.id := |entries|];
        entries := entries + [p];
        restored := restored + 1;
      }
    }
    assert previous[..|previous|] == previous;
    entries := StableSort(PathOrder, entries);
  }

  // ---------------------------------------------------- what a merge preserves

  ghost predicate HasId(entries: seq<Entry>, id: string) {
    exists e :: e in entries && e.id == id
  }

  ghost predicate HasEvent(entries: seq<Entry>, id: string) {
    exists e :: e in entries && e.id == id && e.eventPath.Some?
  }

  /** Nothing remembered in `old` is missing from `new`. */
  ghost predicate Covers(new': seq<Entry>, old': seq<Entry>) {
    && (forall id | HasId(old', id) :: HasId(new', id))
    && (forall id | HasEvent(old', id) :: HasEvent(new', id))
  }

  lemma MergeOneCovers(entries: seq<Entry>, p: Entry)
    ensures Covers(MergeOne(entries, p).0, entries) && Covers(MergeOne(entries, p).0, [p])
  {
    var merged := MergeOne(entries, p).0;
    forall e | e in entries
      ensures HasId(merged, e.id) && (e.eventPath.Some? ==> HasEvent(merged, e.id))
    {
      var k :| 0 <= k < |entries| && entries[k] == e;
      assert merged[k] in merged;
    }
    match LastIndex(entries, p.id)
    case Some(i) => assert merged[i] in merged;
    case None => assert p in merged;
  }

  lemma {:induction false} MergeAllCovers(previous: seq<Entry>, entries: seq<Entry>)
    ensures Covers(MergeAll(previous, entries).0, entries) && Covers(MergeAll(previous, entries).0, previous)
    decreases |previous|
  {
    if previous != [] {
      hide MergeOne, HasId, HasEvent;
      var n := |previous| - 1;
      MergeAllCovers(previous[..n], entries);
      MergeOneCovers(MergeAll(previous[..n], entries).0, previous[n]);
      LastOrEarlier(previous);
    }
  }

  lemma LastOrEarlier(s: seq<Entry>)
    requires s != []
    ensures forall id | HasId(s, id) :: HasId(s[..|s| - 1], id) || HasId([s[|s| - 1]], id)
    ensures forall id | HasEvent(s, id) :: HasEvent(s[..|s| - 1], id) || HasEvent([s[|s| - 1]], id)
  {
  }

  lemma SameElementsCover(a: seq<Entry>, b: seq<Entry>)
    requires multiset(a) == multiset(b)
    ensures Covers(a, b)
  {
    forall e ensures e in b <==> e in a {
      assert e in b <==> e in multiset(b);
      assert e in a <==> e in multiset(a);
    }
  }

  /** A merge keeps every id and every event of both generations. */
  lemma MergeCovers(previous: seq<Entry>, candidates: seq<Entry>)
    ensures Covers(Merge(previous, candidates).0, previous)
    ensures Covers(Merge(previous, candidates).0, candidates)
  {
    MergeAllCovers(previous, candidates);
    SameElementsCover(Merge(previous, candidates).0, MergeAll(previous, candidates).0);
  }

  /** Some previous entry shows that `e` regressed. */
  ghost predicate RegressedAgainst(previous: seq<Entry>, e: Entry) {
    exists p :: p in previous && p.id == e.id && Regressed(p, e)
  }

  lemma {:induction false} MergeAllKeeps(previous: seq<Entry>, entries: seq<Entry>)
    ensures |MergeAll(previous, entries).0| >= |entries|
    ensures forall k | 0 <= k < |entries| ::
              var m := MergeAll(previous, entries).0[k];
              m == entries[k] || (m in previous && m.id == entries[k].id && Regressed(m, entries[k]))
    ensures forall k | |entries| <= k < |MergeAll(previous, entries).0| :: MergeAll(previous, entries).0[k] in previous
    decreases |previous|
  {
    if previous != [] {
      var n := |previous| - 1;
      MergeAllKeeps(previous[..n], entries);
      var sofar := MergeAll(previous[..n], entries).0;
      assert previous[n] in previous;
      assert forall e | e in previous[..n] :: e in previous;
      match LastIndex(sofar, previous[n].id)
      case Some(i) => assert Regressed(previous[n], sofar[i]) && i < |entries| ==> sofar[i] == entries[i];
      case None =>
    }
  }

  /** Candidates that did not regress are kept as they are, and nothing appears
      that neither generation held. */
  lemma MergeKeeps(previous: seq<Entry>, candidates: seq<Entry>)
    ensures forall e | e in candidates && !RegressedAgainst(previous, e) :: e in Merge(previous, candidates).0
    ensures forall e | e in Merge(previous, candidates).0 :: e in candidates || e in previous
  {
    MergeAllKeeps(previous, candidates);
    var merged := MergeAll(previous, candidates).0;
    var sorted := Merge(previous, candidates).0;
    forall e ensures e in sorted <==> e in merged {
      assert e in sorted <==> e in multiset(sorted);
      assert e in merged <==> e in multiset(merged);
    }
    forall e | e in candidates && !RegressedAgainst(previous, e) ensures e in merged {
      var k :| 0 <= k < |candidates| && candidates[k] == e;
      assert merged[k] in merged;
    }
  }

  ghost predicate DistinctIds(entries: seq<Entry>) {
    forall i, j | 0 <= i < j < |entries| :: entries[i].id != entries[j].id
  }

  lemma {:induction false} MergeAllDistinct(previous: seq<Entry>, entries: seq<Entry>)
    requires DistinctIds(entries)
    ensures DistinctIds(MergeAll(previous, entries).0)
    decreases |previous|
  {
    if previous != [] { MergeAllDistinct(previous[..|previous| - 1], entries); }
  }

  lemma {:induction false} NothingToRestore(previous: seq<Entry>, entries: seq<Entry>)
    requires DistinctIds(entries) && Covers(entries, previous)
    ensures MergeAll(previous, entries) == (entries, 0)
    decreases |previous|
  {
    if previous != [] {
      var n := |previous| - 1;
      var p := previous[n];
      assert p in previous && HasId(previous, p.id);
      assert p.eventPath.Some? ==> HasEvent(previous, p.id);
      assert forall e | e in previous[..n] :: e in previous;
      assert Covers(entries, previous[..n]) by {
        forall id | HasId(previous[..n], id) ensures HasId(previous, id) {}
        forall id | HasEvent(previous[..n], id) ensures HasEvent(previous, id) {}
      }
      NothingToRestore(previous[..n], entries);
      var i := LastIndex(entries, p.id).value;
      if p.eventPath.Some? {
        var e :| e in entries && e.id == p.id && e.eventPath.Some?;
        var k :| 0 <= k < |entries| && entries[k] == e;
        assert k == i;
      }
    }
  }

  lemma PathOrderTotal()
    ensures TotalPreorder(PathOrder)
  {
    forall a: Entry, b: Entry ensures PathOrder(a, b) || PathOrder(b, a) {
      StringLeTotal(a.notePath, b.notePath);
      StringLeTotal(a.id, b.id);
    }
    forall a: Entry, b: Entry, c: Entry | PathOrder(a, b) && PathOrder(b, c) ensures PathOrder(a, c) {
      StringLeTotal(a.notePath, b.notePath);
      StringLeTotal(b.notePath, c.notePath);
      StringLeTotal(a.notePath, c.notePath);
      if a.notePath == b.notePath == c.notePath {
        StringLeTransitive(a.id, b.id, c.id);
      } else if a.notePath != b.notePath && b.notePath != c.notePath {
        StringLeTransitive(a.notePath, b.notePath, c.notePath);
      }
    }
  }

  /** With distinct ids, merging the result again with the same previous
      generation restores nothing and changes nothing. */
  lemma MergeIdempotent(previous: seq<Entry>, candidates: seq<Entry>)
    requires DistinctIds(candidates)
    ensures var merged := Merge(previous, candidates).0; Merge(previous, merged) == (merged, 0)
  {
    var merged := Merge(previous, candidates).0;
    MergeCovers(previous, candidates);
    MergeAllDistinct(previous, candidates);
    DistinctUpToOrder(MergeAll(previous, candidates).0, merged);
    NothingToRestore(previous, merged);
    PathOrderTotal();
    StableSortSorted(PathOrder, MergeAll(previous, candidates).0);
    SortOfSorted(PathOrder, merged);
  }

  lemma {:induction false} DistinctUpToOrder(a: seq<Entry>, b: seq<Entry>)
    requires DistinctIds(a) && multiset(a) == multiset(b)
    ensures DistinctIds(b)
  {
    forall i, j | 0 <= i < j < |b| ensures b[i].id != b[j].id {
      assert b[i] in multiset(b) && b[j] in multiset(b);
      var k :| 0 <= k < |a| && a[k] == b[i];
      var l :| 0 <= l < |a| && a[l] == b[j];
      if b[i] == b[j] {
        TwiceInSeq(b, i, j);
        OnceInSeq(a, k);
      }
    }
  }

  lemma TwiceInSeq(s: seq<Entry>, i: nat, j: nat)
    requires i < j < |s| && s[i] == s[j]
    ensures multiset(s)[s[i]] >= 2
  {
    assert s == s[..j] + s[j..];
    assert s[..j][i] == s[i] && s[j..][0] == s[i];
    assert s[i] in multiset(s[..j]) && s[i] in multiset(s[j..]);
  }

  lemma OnceInSeq(s: seq<Entry>, k: nat)
    requires DistinctIds(s) && k < |s|
    ensures multiset(s)[s[k]] == 1
  {
    assert s == s[..k] + [s[k]] + s[k + 1..];
    assert s[k] !in s[..k] && s[k] !in s[k + 1..];
  }

  // --------------------------------------------------------------- projection

  predicate Restorable(env: Env, warnings: seq<Warning>, present: set<string>, e: Entry) {
    IsCurated(e) && e.id !in present && exists w :: w in warnings && env.covers(w, e)
  }

  /** Curated entries a warning hides, taken back from the last projection; the
      second part collects the ids already present. */
  function Restore(env: Env, warnings: seq<Warning>, previous: seq<Entry>, entries: seq<Entry>, present: set<string>)
    : (seq<Entry>, set<string>)
  {
    if previous == [] then (entries, present)
    else
      var (sofar, ids) := Restore(env, warnings, previous[..|previous| - 1], entries, present);
      var e := previous[|previous| - 1];
      if Restorable(env, warnings, ids, e) then (sofar + [e], ids + {e.id}) else (sofar, ids)
  }

  function IdSet(entries: seq<Entry>): set<string> {
    set e | e in entries :: e.id
  }

  function RestoreWarned(env: Env, warnings: seq<Warning>, previous: Projection, p: Projection): Projection {
    p.(entries := StableSort(PathOrder, Restore(env, warnings, previous.entries, p.entries, IdSet(p.entries)).0))
  }

  method RestoreWarnedCuratedEntries(env: Env, warnings: seq<Warning>, previous: Projection, p: Projection)
    returns (r: Projection)
    ensures r == RestoreWarned(env, warnings, previous, p)
  {
    var entries, present := p.entries, IdSet(p.entries);
    for k := 0 to |previous.entries|
      invariant (entries, present) == Restore(env, warnings, previous.entries[..k], p.entries, IdSet(p.entries))
    {
      assert previous.entries[..k + 1][..k] == previous.entries[..k];
      var e := previous.entries[k];
      if !IsCurated(e) || e.id in present || !exists w :: w in warnings && env.covers(w, e) {
        continue;
      }
      present := present + {e.id};
      entries := entries + [e];
    }
    assert previous.entries[..|previous.entries|] == previous.entries;
    r := p.(entries := StableSort(PathOrder, entries));
  }

  ghost predicate Hidden(env: Env, warnings: seq<Warning>, e: Entry) {
    IsCurated(e) && exists w :: w in warnings && env.covers(w, e)
  }

  lemma {:induction false} RestoreExact(env: Env, warnings: seq<Warning>, previous: seq<Entry>, entries: seq<Entry>)
    ensures var (r, ids) := Restore(env, warnings, previous, entries, IdSet(entries));
            && ids == IdSet(r) && entries <= r
            && (forall k | |entries| <= k < |r| ::
                  r[k] in previous && Hidden(env, warnings, r[k]) && r[k].id !in IdSet(r[..k]))
            && (forall e | e in previous && Hidden(env, warnings, e) :: e.id in IdSet(r))
    decreases |previous|
  {
    if previous != [] {
      var n := |previous| - 1;
      var e := previous[n];
      var (sofar, ids) := Restore(env, warnings, previous[..n], entries, IdSet(entries));
      RestoreExact(env, warnings, previous[..n], entries);
      assert forall p | p in previous :: p in previous[..n] || p == e;
      forall k | 0 <= k <= |sofar| ensures (sofar + [e])[..k] == sofar[..k] {}
      assert IdSet(sofar + [e]) == IdSet(sofar) + {e.id} by {
        assert forall p :: p in sofar + [e] <==> p in sofar || p == e;
        assert e in sofar + [e];
      }
    }
  }

  lemma NewIds(base: seq<Entry>, back: seq<Entry>)
    requires var all := base + back; forall k | |base| <= k < |all| :: all[k].id !in IdSet(all[..k])
    ensures DistinctIds(back) && forall e | e in back :: e.id !in IdSet(base)
    ensures DistinctIds(base) ==> DistinctIds(base + back)
  {
    var all, n := base + back, |base|;
    forall j, k | 0 <= j < k < |all| && n <= k ensures all[j].id != all[k].id {
      assert all[..k][j] == all[j] && all[j] in all[..k];
    }
    forall e | e in back ensures e.id !in IdSet(base) {
      var k :| 0 <= k < |back| && back[k] == e;
      assert forall j | 0 <= j < n :: all[j] == base[j] && all[j].id != all[n + k].id;
    }
    forall j, k | 0 <= j < k < |back| ensures back[j].id != back[k].id {
      assert all[n + j] == back[j] && all[n + k] == back[k];
    }
  }

  /** Curated entries that a warning hides come back from the last projection:
      one per id, every id that this walk did not find, and no id that it did.
      What the walk found stays, copy for copy, and nothing else is added. */
  lemma RestoredCurated(env: Env, warnings: seq<Warning>, previous: Projection, p: Projection) returns (back: seq<Entry>)
    ensures multiset(RestoreWarned(env, warnings, previous, p).entries) == multiset(p.entries) + multiset(back)
    ensures forall e | e in back :: e in previous.entries && Hidden(env, warnings, e) && e.id !in IdSet(p.entries)
    ensures DistinctIds(back)
    ensures forall e | e in previous.entries && Hidden(env, warnings, e) && e.id !in IdSet(p.entries) :: HasId(back, e.id)
    ensures DistinctIds(p.entries) ==> DistinctIds(RestoreWarned(env, warnings, previous, p).entries)
  {
    hide Restore, StableSort, Hidden, DistinctIds;
    RestoreExact(env, warnings, previous.entries, p.entries);
    var all := Restore(env, warnings, previous.entries, p.entries, IdSet(p.entries)).0;
    back := all[|p.entries|..];
    assert all == p.entries + back;
    NewIds(p.entries, back);
    forall e | e in previous.entries && Hidden(env, warnings, e) && e.id !in IdSet(p.entries) ensures HasId(back, e.id) {
      var x :| x in all && x.id == e.id;
      assert x in p.entries || x in back;
    }
    if DistinctIds(p.entries) { DistinctUpToOrder(all, RestoreWarned(env, warnings, previous, p).entries); }
  }

  /** The projection of this rebuild before its completeness is settled. */
  function BuildProjection(env: Env, previous: Option<Previous>, entries: seq<Entry>, found: Curated): Projection {
    var p := Hydrate(Projection(found.warnings == [], found.entries, found.aliases), entries);
    if found.warnings != [] && previous.Some?
    then RestoreWarned(env, found.warnings, previous.value.projection, p)
    else p
  }

  // ------------------------------------------------------------------ rebuild

  function PreviousGeneration(env: Env, file: Option<string>): Option<Previous> {
    match ReadCapped(env.codec, file)
    case None => None
    case Some((h, entries)) =>
      if h.freshness.root != env.root then None
      else if h.freshness.schema == SCHEMA && GenerationValid(env.codec, h, entries) then
        Some(Previous(h.freshness, entries, Hydrate(h.projection.value, entries)))
      else if h.freshness.schema == LEGACY_SCHEMA then
        Some(Previous(h.freshness, entries, Projection(false, entries, env.builtin)))
      else None
  }

  function MergeView(previous: Option<Previous>, notes: seq<Entry>): (seq<Entry>, nat) {
    if previous.Some? then Merge(previous.value.entries, notes) else (notes, 0)
  }

  /** The cache file and the report after one rebuild. */
  function Rebuild(env: Env, file: Option<string>, v: View): (Option<string>, Result<Report, string>) {
    var previous := PreviousGeneration(env, file);
    if v.before.Err? then (file, Err(v.before.error))
    else if v.registry.Err? then (file, Err(v.registry.error))
    else if v.notes.Err? then (file, Err(v.notes.error))
    else if v.curated.Err? then (file, Err(v.curated.error))
    else if v.after.Err? then (file, Err(v.after.error))
    else if v.before != v.after then
      if previous.Some? then (file, Ok(Report(previous.value.entries, previous.value.projection, false, false)))
      else (file, Err("canonical view changed during index rebuild; retry refresh"))
    else
      Publish(env, file, v, previous)
  }

  /** The last part of a rebuild over a view that held still. */
  function Publish(env: Env, file: Option<string>, v: View, previous: Option<Previous>): (Option<string>, Result<Report, string>)
    requires v.notes.Ok? && v.curated.Ok? && v.after.Ok?
  {
    var (entries, restored) := MergeView(previous, v.notes.value.0);
    var clean := v.notes.value.1 == [] && restored == 0 && v.curated.value.warnings == [];
    var built := BuildProjection(env, previous, entries, v.curated.value);
    var projection := built.(complete := built.complete && clean);
    var freshness := Freshness(SCHEMA, env.root, v.after.value);
    var current := projection.complete && restored == 0;
    if previous == Some(Previous(freshness, entries, projection)) then
      (file, Ok(Report(entries, projection, false, current)))
    else
      var jsonl := Render(env.codec, freshness, projection, entries);
      if ByteLen(jsonl) > MAX_BYTES then (file, Err("rendered index is over the cache cap"))
      else if v.writeFails then (file, Err("write index"))
      else (Some(jsonl), Ok(Report(entries, projection, true, current)))
  }

  /** The cache file of one store. */
  class IndexCache {
    const env: Env
    var file: Option<string>

    constructor (env: Env)
      ensures this.env == env && file == None
    {
      this.env := env;
      file := None;
    }

    method RebuildIndex(v: View) returns (r: Result<Report, string>)
      modifies this
      ensures (file, r) == Rebuild(env, old(file), v)
    {
      hide PreviousGeneration, Merge, Render, Hydrate, RestoreWarned;
      var previous := PreviousGeneration(env, file);
      if v.before.Err? { return Err(v.before.error); }
      if v.registry.Err? { return Err(v.registry.error); }
      if v.notes.Err? { return Err(v.notes.error); }
      var entries, warnings := v.notes.value.0, v.notes.value.1;
      var restored := 0;
      if previous.Some? {
        entries, restored := MergeRegressedSnapshot(previous.value.entries, entries);
        if restored > 0 {
          warnings := warnings + [Warning(env.root, "retained last-known-good entries")];
        }
      }
      assert (entries, restored) == MergeView(previous, v.notes.value.0);
      if v.curated.Err? { return Err(v.curated.error); }
      var found := v.curated.value;
      var projection := Hydrate(Projection(found.warnings == [], found.entries, found.aliases), entries);
      if found.warnings != [] && previous.Some? {
        projection := RestoreWarnedCuratedEntries(env, found.warnings, previous.value.projection, projection);
      }
      assert projection == BuildProjection(env, previous, entries, found);
      warnings := warnings + found.warnings;
      projection := projection.(complete := projection.complete && warnings == []);
      if v.after.Err? { return Err(v.after.error); }
      if v.before.value != v.after.value {
        if previous.Some? {
          return Ok(Report(previous.value.entries, previous.value.projection, false, false));
        }
        return Err("canonical view changed during index rebuild; retry refresh");
      }
      r := PublishGeneration(v, previous, entries, restored, projection);
    }

    method PublishGeneration(v: View, previous: Option<Previous>, entries: seq<Entry>, restored: nat, projection: Projection)
      returns (r: Result<Report, string>)
      requires v.notes.Ok? && v.curated.Ok? && v.after.Ok?
      requires (entries, restored) == MergeView(previous, v.notes.value.0)
      requires var built := BuildProjection(env, previous, entries, v.curated.value);
               projection == built.(complete := built.complete && v.notes.value.1 == [] && restored == 0
                                                && v.curated.value.warnings == [])
      modifies this
      ensures (file, r) == Publish(env, old(file), v, previous)
    {
      hide MergeView, BuildProjection, Render;
      var freshness := Freshness(SCHEMA, env.root, v.after.value);
      if previous.Some? && previous.value.freshness == freshness
         && previous.value.entries == entries && previous.value.projection == projection {
        return Ok(Report(entries, projection, false, projection.complete && restored == 0));
      }
      var jsonl := RenderJsonl(env.codec, freshness, projection, entries);
      if ByteLen(jsonl) > MAX_BYTES { return Err("rendered index is over the cache cap"); }
      if v.writeFails { return Err("write index"); }
      file := Some(jsonl);
      r := Ok(Report(entries, projection, true, projection.complete && restored == 0));
    }
  }

  // ------------------------------------------------------------- over all runs

  function RunAll(env: Env, file: Option<string>, views: seq<View>): Option<string> {
    if views == [] then file else Rebuild(env, RunAll(env, file, views[..|views| - 1]), views[|views| - 1]).0
  }

  /** The entries a reader of this cache file is served. */
  function Stored(env: Env, file: Option<string>): seq<Entry> {
    match PreviousGeneration(env, file)
    case Some(p) => p.entries
    case None => []
  }

  /** No cache yet, or one that some rebuild published. */
  ghost predicate Undamaged(env: Env, file: Option<string>) {
    file.None? || exists f, p, entries ::
      && file == Some(Render(env.codec, f, p, entries))
      && f.schema == SCHEMA && f.root == env.root
      && ByteLen(file.value) <= MAX_BYTES
  }

  lemma StoredAfterPublish(env: Env, f: Freshness, p: Projection, entries: seq<Entry>)
    requires env.codec.Sound() && f.schema == SCHEMA && f.root == env.root
    requires ByteLen(Render(env.codec, f, p, entries)) <= MAX_BYTES
    ensures PreviousGeneration(env, Some(Render(env.codec, f, p, entries))) ==
            Some(Previous(f, entries, Hydrate(StoredPart(p), entries)))
  {
    RenderRoundTrip(env.codec, f, p, entries);
  }

  lemma RebuildCovers(env: Env, file: Option<string>, v: View)
    requires env.codec.Sound() && Undamaged(env, file)
    ensures Undamaged(env, Rebuild(env, file, v).0)
    ensures Covers(Stored(env, Rebuild(env, file, v).0), Stored(env, file))
    ensures var (file', r) := Rebuild(env, file, v);
            r.Ok? && r.value.published ==> Stored(env, file') == r.value.entries && Covers(r.value.entries, v.notes.value.0)
  {
    hide Render, Merge, PreviousGeneration, BuildProjection;
    var (file', r) := Rebuild(env, file, v);
    var previous := PreviousGeneration(env, file);
    if r.Ok? && r.value.published {
      var freshness := Freshness(SCHEMA, env.root, v.after.value);
      StoredAfterPublish(env, freshness, r.value.projection, r.value.entries);
      if previous.Some? {
        MergeCovers(previous.value.entries, v.notes.value.0);
      }
    }
  }

  lemma CoversTransitive(a: seq<Entry>, b: seq<Entry>, c: seq<Entry>)
    requires Covers(a, b) && Covers(b, c)
    ensures Covers(a, c)
  {
  }

  /** History never shrinks: whatever partial, unreadable, changing or oversized
      views later rebuilds meet, every id and every event-backed id that any
      earlier cache file served is still served. */
  lemma {:induction false} HistoryNeverShrinks(env: Env, file: Option<string>, views: seq<View>, k: nat)
    requires env.codec.Sound() && Undamaged(env, file) && k <= |views|
    ensures Undamaged(env, RunAll(env, file, views))
    ensures Covers(Stored(env, RunAll(env, file, views)), Stored(env, RunAll(env, file, views[..k])))
    decreases |views|
  {
    hide Rebuild, Stored;
    var n := |views| - 1;
    if k == |views| {
      assert views[..k] == views;
      if views != [] {
        HistoryNeverShrinks(env, file, views[..n], n);
        RebuildCovers(env, RunAll(env, file, views[..n]), views[n]);
      }
    } else {
      HistoryNeverShrinks(env, file, views[..n], k);
      assert views[..n][..k] == views[..k];
      RebuildCovers(env, RunAll(env, file, views[..n]), views[n]);
      CoversTransitive(Stored(env, RunAll(env, file, views)), Stored(env, RunAll(env, file, views[..n])),
                       Stored(env, RunAll(env, file, views[..k])));
    }
  }

  // -------------------------------------------------- what a rebuild may claim

  /** No step before the comparison of the two scans failed. */
  predicate ReadThrough(v: View) {
    v.before.Ok? && v.registry.Ok? && v.notes.Ok? && v.curated.Ok? && v.after.Ok?
  }

  /** A store that changed while it was read is never published: the file stays,
      nothing is called current, and the report is the generation the old file
      holds.  Without one, or after an error, there is no report. */
  lemma ChangedStore(env: Env, file: Option<string>, v: View)
    requires v.before != v.after
    ensures var (file', r) := Rebuild(env, file, v);
            && file' == file
            && (r.Ok? <==> ReadThrough(v) && PreviousGeneration(env, file).Some?)
            && (r.Ok? ==> !r.value.published && !r.value.current && r.value.entries == Stored(env, file))
            && (r.Ok? ==> forall f: Freshness, e, p | f.root == env.root && LoadFresh(env.codec, file, f) == Some((e, p)) ::
                            (r.value.entries, r.value.projection) == (e, p))
  {
    hide Publish, Hydrate, Read;
  }

  /** The same for a file that a rebuild published: its entries and its stored
      projection are reported. */
  lemma ChangedStoreServesLast(env: Env, f: Freshness, p: Projection, entries: seq<Entry>, v: View)
    requires env.codec.Sound() && f.schema == SCHEMA && f.root == env.root
    requires ByteLen(Render(env.codec, f, p, entries)) <= MAX_BYTES
    requires v.before != v.after && ReadThrough(v)
    ensures var file := Some(Render(env.codec, f, p, entries));
            Rebuild(env, file, v) == (file, Ok(Report(entries, Hydrate(StoredPart(p), entries), false, false)))
  {
    StoredAfterPublish(env, f, p, entries);
    hide PreviousGeneration, Publish, Hydrate, Render;
  }

  /** A rebuild that does not publish leaves the file alone, and what it does
      publish is fresh for exactly one scan: one taken both before and after
      the notes were read. */
  lemma PublishedForOneScan(env: Env, file: Option<string>, v: View)
    requires env.codec.Sound()
    ensures var (file', r) := Rebuild(env, file, v);
            if r.Ok? && r.value.published
            then v.before.Ok? && v.after == v.before
                 && forall now :: LoadFresh(env.codec, file', now).Some? <==> now == Freshness(SCHEMA, env.root, v.before.value)
            else file' == file
  {
    PublishedFile(env, file, v);
    hide Render, Rebuild, LoadFresh;
    var (_, r) := Rebuild(env, file, v);
    if r.Ok? && r.value.published {
      FreshForOneScan(env, Freshness(SCHEMA, env.root, v.before.value), r.value.projection, r.value.entries);
    }
  }

  lemma PublishedFile(env: Env, file: Option<string>, v: View)
    ensures var (file', r) := Rebuild(env, file, v);
            if r.Ok? && r.value.published
            then v.before.Ok? && v.after == v.before
                 && file' == Some(Render(env.codec, Freshness(SCHEMA, env.root, v.before.value), r.value.projection, r.value.entries))
                 && ByteLen(file'.value) <= MAX_BYTES
            else file' == file
  {
    hide Render, MergeView, BuildProjection, PreviousGeneration;
  }

  lemma FreshForOneScan(env: Env, f: Freshness, p: Projection, entries: seq<Entry>)
    requires env.codec.Sound() && f.schema == SCHEMA && ByteLen(Render(env.codec, f, p, entries)) <= MAX_BYTES
    ensures forall now :: LoadFresh(env.codec, Some(Render(env.codec, f, p, entries)), now).Some? <==> now == f
  {
    RenderRoundTrip(env.codec, f, p, entries);
    hide Render, Read, GenerationValid, Codec.Sound;
  }

  /** The last note with the id of `p` has an event if `p` had one. */
  ghost predicate StillThere(notes: seq<Entry>, p: Entry) {
    exists k :: 0 <= k < |notes| && notes[k].id == p.id
                && (forall j | k < j < |notes| :: notes[j].id != p.id)
                && (p.eventPath.Some? ==> notes[k].eventPath.Some?)
  }

  lemma MergeOneRestores(notes: seq<Entry>, p: Entry)
    ensures MergeOne(notes, p).1 == 0 <==> StillThere(notes, p)
    ensures MergeOne(notes, p).1 == 0 ==> MergeOne(notes, p).0 == notes
  {
    hide LastIndex;
    var last := LastIndex(notes, p.id);
    if last.Some? && !Regressed(p, notes[last.value]) {
      assert StillThere(notes, p);
    }
    if StillThere(notes, p) {
      var k: nat :| k < |notes| && notes[k].id == p.id
                    && (forall j | k < j < |notes| :: notes[j].id != p.id)
                    && (p.eventPath.Some? ==> notes[k].eventPath.Some?);
      assert notes[k] in notes;
      assert last.value == k;
    }
  }

  /** A merge restores nothing exactly when nothing was lost. */
  lemma {:induction false} RestoresNothingIff(previous: seq<Entry>, notes: seq<Entry>)
    ensures MergeAll(previous, notes).1 == 0 <==> forall p | p in previous :: StillThere(notes, p)
    ensures MergeAll(previous, notes).1 == 0 ==> MergeAll(previous, notes).0 == notes
    decreases |previous|
  {
    hide MergeOne, StillThere;
    if previous != [] {
      var n := |previous| - 1;
      RestoresNothingIff(previous[..n], notes);
      MergeOneRestores(notes, previous[n]);
      assert forall p :: p in previous <==> p in previous[..n] || p == previous[n];
      assert (forall p | p in previous :: StillThere(notes, p)) <==>
             (forall p | p in previous[..n] :: StillThere(notes, p)) && StillThere(notes, previous[n]);
      assert MergeAll(previous, notes).1 == MergeAll(previous[..n], notes).1 + MergeOne(MergeAll(previous[..n], notes).0, previous[n]).1;
      assert MergeAll(previous[..n], notes).1 == 0 ==> MergeAll(previous[..n], notes).0 == notes;
    }
  }

  /** A report calls itself current exactly when the store held still, nothing
      was warned about, and nothing served before has been lost. */
  lemma CurrentIff(env: Env, file: Option<string>, v: View)
    requires Rebuild(env, file, v).1.Ok?
    ensures var r := Rebuild(env, file, v).1.value;
            && v.notes.Ok? && v.curated.Ok?
            && (r.current <==>
                && v.before == v.after && v.notes.value.1 == [] && v.curated.value.warnings == []
                && forall p | p in Stored(env, file) :: StillThere(v.notes.value.0, p))
            && (r.current ==> multiset(r.entries) == multiset(v.notes.value.0))
  {
    hide Render, PreviousGeneration, MergeAll, StillThere, RestoreWarned;
    var previous := PreviousGeneration(env, file);
    if previous.Some? { RestoresNothingIff(previous.value.entries, v.notes.value.0); }
    hide Merge;
    if v.before == v.after { SettledCurrent(env, file, v); }
  }

  lemma SettledCurrent(env: Env, file: Option<string>, v: View)
    requires v.before == v.after && Rebuild(env, file, v).1.Ok?
    ensures var r := Rebuild(env, file, v).1.value;
            var (entries, restored) := MergeView(PreviousGeneration(env, file), v.notes.value.0);
            && r.entries == entries
            && (r.current <==> v.notes.value.1 == [] && restored == 0 && v.curated.value.warnings == [])
  {
    hide Render, PreviousGeneration, Merge;
  }

  // ------------------------------------------------------------ cache agreement

  /** After a rebuild over a view that held still, a fresh read serves exactly
      the reported entries, and a projection of those entries followed by the
      stored curated part. */
  lemma FreshReadAgrees(env: Env, file: Option<string>, v: View)
    requires env.codec.Sound()
    requires v.before == v.after && Rebuild(env, file, v).1.Ok?
    ensures var (file', r) := Rebuild(env, file, v);
            LoadFresh(env.codec, file', Freshness(SCHEMA, env.root, v.after.value)) ==
            Some((r.value.entries,
                  if r.value.published then Hydrate(StoredPart(r.value.projection), r.value.entries)
                  else r.value.projection))
  {
    hide Render, Merge, BuildProjection;
    var (file', r) := Rebuild(env, file, v);
    if r.value.published {
      RenderRoundTrip(env.codec, Freshness(SCHEMA, env.root, v.after.value), r.value.projection, r.value.entries);
    }
  }

  /** This rebuild, over notes read between two equal scans, published what the
      cache now serves. */
  ghost predicate ScannedBy(env: Env, file: Option<string>, views: seq<View>, k: nat, now: Freshness)
    requires k < |views|
  {
    var r := Rebuild(env, RunAll(env, file, views[..k]), views[k]).1;
    && views[k].before.Ok? && views[k].after == views[k].before
    && now == Freshness(SCHEMA, env.root, views[k].before.value)
    && r.Ok? && r.value.published
    && LoadFresh(env.codec, RunAll(env, file, views), now) ==
       Some((r.value.entries, Hydrate(StoredPart(r.value.projection), r.value.entries)))
  }

  /** Over any sequence of rebuilds: what a reader is served as fresh for a scan is
      either the first cache file, or the generation of a rebuild that took this
      very scan both before and after it read the notes. */
  lemma {:induction false} FreshMeansScanned(env: Env, file: Option<string>, views: seq<View>, now: Freshness)
    requires env.codec.Sound() && LoadFresh(env.codec, RunAll(env, file, views), now).Some?
    ensures RunAll(env, file, views) == file || exists k: nat :: k < |views| && ScannedBy(env, file, views, k, now)
    decreases |views|
  {
    hide Rebuild, LoadFresh, Hydrate, StoredPart;
    if views != [] {
      var n := |views| - 1;
      var before := RunAll(env, file, views[..n]);
      PublishedForOneScan(env, before, views[n]);
      var r := Rebuild(env, before, views[n]).1;
      if r.Ok? && r.value.published {
        FreshReadAgrees(env, before, views[n]);
        assert ScannedBy(env, file, views, n, now);
      } else {
        FreshMeansScanned(env, file, views[..n], now);
        if k: nat :| k < n && ScannedBy(env, file, views[..n], k, now) {
          assert views[..n][..k] == views[..k] && views[..n][k] == views[k];
          assert ScannedBy(env, file, views, k, now);
        }
      }
    }
  }

  lemma FilterNone(s: seq<Entry>)
    ensures Filter(CuratedOnly, s) == [] <==> forall e | e in s :: !IsCurated(e)
  {
  }

  /** No note read now and no entry served so far has an id that looks curated. */
  ghost predicate CuratedFree(env: Env, file: Option<string>, v: View)
    requires v.notes.Ok?
  {
    (forall e | e in v.notes.value.0 :: !IsCurated(e)) && (forall e | e in Stored(env, file) :: !IsCurated(e))
  }

  lemma MergedCuratedFree(previous: seq<Entry>, candidates: seq<Entry>)
    ensures (forall e | e in Merge(previous, candidates).0 :: !IsCurated(e)) <==>
            (forall e | e in candidates :: !IsCurated(e)) && (forall e | e in previous :: !IsCurated(e))
  {
    hide Merge;
    MergeCovers(previous, candidates);
    MergeKeeps(previous, candidates);
    var merged := Merge(previous, candidates).0;
    if forall e | e in merged :: !IsCurated(e) {
      forall e | e in previous ensures !IsCurated(e) { SameIdCurated(merged, previous, e); }
      forall e | e in candidates ensures !IsCurated(e) { SameIdCurated(merged, candidates, e); }
    }
  }

  lemma SameIdCurated(merged: seq<Entry>, part: seq<Entry>, e: Entry)
    requires Covers(merged, part) && e in part
    ensures exists m :: m in merged && IsCurated(m) == IsCurated(e)
  {
    assert HasId(part, e.id);
    var m :| m in merged && m.id == e.id;
  }

  lemma ReportedCuratedFree(env: Env, file: Option<string>, v: View)
    requires v.before == v.after && Rebuild(env, file, v).1.Ok?
    ensures v.notes.Ok?
    ensures (forall e | e in Rebuild(env, file, v).1.value.entries :: !IsCurated(e)) <==> CuratedFree(env, file, v)
  {
    hide BuildProjection, Render, Merge, PreviousGeneration;
    var previous := PreviousGeneration(env, file);
    if previous.Some? { MergedCuratedFree(previous.value.entries, v.notes.value.0); }
    hide IsCurated;
  }

  /** When this rebuild published and no curated file was warned about, the
      projection served afterwards is the reported one if and only if neither
      the notes nor the previous generation hold an id that looks curated. */
  lemma ProjectionAgreesIff(env: Env, file: Option<string>, v: View)
    requires env.codec.Sound()
    requires v.before == v.after && Rebuild(env, file, v).1.Ok? && Rebuild(env, file, v).1.value.published
    requires v.curated.value.warnings == [] && forall e | e in v.curated.value.entries :: IsCurated(e)
    ensures var (file', r) := Rebuild(env, file, v);
            var loaded := LoadFresh(env.codec, file', Freshness(SCHEMA, env.root, v.after.value));
            loaded == Some((r.value.entries, r.value.projection)) <==> CuratedFree(env, file, v)
  {
    FreshReadAgrees(env, file, v);
    ReportedCuratedFree(env, file, v);
    hide CuratedFree;
    var report := Rebuild(env, file, v).1.value;
    ReportedProjection(env, file, v);
    CuratedPartAlone(report.projection, report.entries, v.curated.value.entries);
  }

  lemma ReportedProjection(env: Env, file: Option<string>, v: View)
    requires v.before == v.after && Rebuild(env, file, v).1.Ok? && Rebuild(env, file, v).1.value.published
    requires v.curated.value.warnings == []
    ensures var r := Rebuild(env, file, v).1.value; r.projection.entries == r.entries + v.curated.value.entries
  {
  }

  lemma CuratedPartAlone(p: Projection, entries: seq<Entry>, found: seq<Entry>)
    requires p.entries == entries + found && forall e | e in found :: IsCurated(e)
    ensures Hydrate(StoredPart(p), entries) == p <==> forall e | e in entries :: !IsCurated(e)
  {
    FilterAppend(CuratedOnly, entries, found);
    FilterNone(entries);
    FilterEverything(CuratedOnly, found);
    var kept := Filter(CuratedOnly, entries);
    assert StoredPart(p).entries == kept + found;
    assert |entries + (kept + found)| == |entries + found| + |kept|;
    if kept == [] {
      assert kept + found == found;
    }
  }

  /** What a projection holds, up to order: this generation, the curated files
      found, and curated entries brought back. */
  lemma BuiltProjection(env: Env, previous: Option<Previous>, entries: seq<Entry>, found: Curated) returns (back: seq<Entry>)
    ensures forall e | e in back :: IsCurated(e)
    ensures multiset(BuildProjection(env, previous, entries, found).entries) ==
            multiset(entries) + multiset(found.entries) + multiset(back)
  {
    hide RestoreWarned, IsCurated, Hidden, DistinctIds, HasId, IdSet;
    back := [];
    if found.warnings != [] && previous.Some? {
      var p := Hydrate(Projection(found.warnings == [], found.entries, found.aliases), entries);
      back := RestoredCurated(env, found.warnings, previous.value.projection, p);
      HiddenAreCurated(env, found.warnings);
    }
  }

  lemma HiddenAreCurated(env: Env, warnings: seq<Warning>)
    ensures forall e | Hidden(env, warnings, e) :: IsCurated(e)
  {
  }

  lemma CuratedCopies(entries: seq<Entry>, all: seq<Entry>, curated: multiset<Entry>)
    requires multiset(all) == multiset(entries) + curated && forall e | e in curated :: IsCurated(e)
    ensures multiset(entries + Filter(CuratedOnly, all)) == multiset(all) <==> forall e | e in entries :: !IsCurated(e)
  {
    forall e ensures multiset(Filter(CuratedOnly, all))[e] ==
                     (if IsCurated(e) then multiset(entries)[e] else 0) + curated[e]
    {
      FilterCount(CuratedOnly, all, e);
    }
    if forall e | e in entries :: !IsCurated(e) {
      assert multiset(Filter(CuratedOnly, all)) == curated;
    } else {
      var e :| e in entries && IsCurated(e);
      assert e in multiset(entries);
      assert multiset(entries + Filter(CuratedOnly, all))[e] > multiset(all)[e];
    }
  }

  /** Up to order the same holds for every rebuild that published, also when
      curated entries had to be brought back. */
  lemma ProjectionContentsAgreeIff(env: Env, file: Option<string>, v: View)
    requires env.codec.Sound()
    requires v.before == v.after && Rebuild(env, file, v).1.Ok? && Rebuild(env, file, v).1.value.published
    requires forall e | e in v.curated.value.entries :: IsCurated(e)
    ensures var (file', r) := Rebuild(env, file, v);
            var loaded := LoadFresh(env.codec, file', Freshness(SCHEMA, env.root, v.after.value));
            && loaded.Some?
            && (multiset(loaded.value.1.entries) == multiset(r.value.projection.entries) <==> CuratedFree(env, file, v))
  {
    FreshReadAgrees(env, file, v);
    PublishedProjection(env, file, v);
    ReportedCuratedFree(env, file, v);
    hide Rebuild, LoadFresh, BuildProjection, CuratedFree;
    var report, previous := Rebuild(env, file, v).1.value, PreviousGeneration(env, file);
    var back := BuiltProjection(env, previous, report.entries, v.curated.value);
    var curated := multiset(v.curated.value.entries) + multiset(back);
    CuratedCopies(report.entries, report.projection.entries, curated);
  }

  lemma PublishedProjection(env: Env, file: Option<string>, v: View)
    requires v.before == v.after && Rebuild(env, file, v).1.Ok? && Rebuild(env, file, v).1.value.published
    ensures v.curated.Ok?
    ensures var r := Rebuild(env, file, v).1.value;
            r.projection.entries == BuildProjection(env, PreviousGeneration(env, file), r.entries, v.curated.value).entries
  {
    hide BuildProjection, Render, Merge, PreviousGeneration;
  }

  /** The smallest failure: the first rebuild of a store with one note whose id
      looks curated reports it once and serves it twice. */
  lemma CuratedLookingNote(env: Env, scan: Scan, aliases: string, note: Entry)
    requires env.codec.Sound() && note.id == "curated:x"
    requires Rebuild(env, None, OneNote(scan, aliases, note)).1.Ok?
    ensures var (file', r) := Rebuild(env, None, OneNote(scan, aliases, note));
            && r.value.projection.entries == [note]
            && LoadFresh(env.codec, file', Freshness(SCHEMA, env.root, scan)).Some?
            && LoadFresh(env.codec, file', Freshness(SCHEMA, env.root, scan)).value.1.entries == [note, note]
  {
    hide Render, LoadFresh, ByteLen, GenerationValid;
    var v := OneNote(scan, aliases, note);
    assert IsCurated(note) by { assert note.id[..8] == CURATED; }
    FreshReadAgrees(env, None, v);
    assert Filter(CuratedOnly, [note]) == [note] by { FilterEverything(CuratedOnly, [note]); }
    assert [note] + [] == [note] && [note] + [note] == [note, note];
    hide IsCurated;
  }

  function OneNote(scan: Scan, aliases: string, note: Entry): View {
    View(Ok(scan), Ok(()), Ok(([note], [])), Ok(Curated([], aliases, [])), Ok(scan), false)
  }

  /** What a rebuild takes for its last good generation: the whole of a published
      one of this store and schema; the entries of one of the older schema, with
      the built-in aliases and never complete; and nothing of another store,
      another schema or an oversized file. */
  lemma LastGoodGeneration(env: Env, f: Freshness, p: Projection, entries: seq<Entry>)
    requires env.codec.Sound()
    ensures var file := Render(env.codec, f, p, entries);
            PreviousGeneration(env, Some(file)) ==
            if ByteLen(file) > 256 * 1024 * 1024 || f.root != env.root then None
            else if f.schema == 12 then Some(Previous(f, entries, Hydrate(StoredPart(p), entries)))
            else if f.schema == 10 then Some(Previous(f, entries, Projection(false, entries, env.builtin)))
            else None
    ensures PreviousGeneration(env, None) == None
  {
    RenderRoundTrip(env.codec, f, p, entries);
    hide Render, Read, Hydrate, StoredPart, Codec.Sound;
  }
}
