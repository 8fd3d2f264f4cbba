/** The background classifier: one bounded pass over pending records with
    retries, backend failover, and verdicts written back by retagging. */
module ClassifierRun {
  import opened Wrappers
  import opened Text
  import opened Sorting
  import opened NoteFormat
  import opened Retag

  /** An index entry and the note it was built from. */
  datatype Indexed = Indexed(notePath: string, entry: IndexEntry)

  datatype Certainty = Low | Medium | High

  /** A backend's answer; no kind when it is unclear. */
  datatype Answer = Answer(kind: Option<Kind>, confidence: Certainty)

  const MAX_ENTRY_ATTEMPTS: nat := 2
  const MAX_CONSECUTIVE_ERRORS: nat := 3

  /** `answers` says what each backend call will return, `None` for a failure,
      and `clock` what time it then is. */
  datatype Config = Config(
    codec: Codec,
    eventCodec: EventCodec,
    backends: seq<string>,
    answers: nat -> Option<Answer>,
    clock: nat -> string,
    threshold: Certainty,
    version: nat,
    dryRun: bool)

  type Store = map<string, Files>

  // ------------------------------------------------------------- pending records

  /** Readable by everyone, and without a human or current verdict. */
  predicate Owed(version: nat, x: Indexed) {
    && x.entry.audience == [] && x.entry.scope != "agent-private"
    && match x.entry.classified
       case None => true
       case Some(c) => c.source.Llm? && c.version < version
  }

  function IsOwed(version: nat): Indexed -> bool {
    x => Owed(version, x)
  }

  const OlderFirst: (Indexed, Indexed) -> bool := (a: Indexed, b: Indexed) => StringLe(a.entry.createdAt, b.entry.createdAt)

  function Pending(version: nat, entries: seq<Indexed>): seq<Indexed> {
    StableSort(OlderFirst, Filter(IsOwed(version), entries))
  }

  ghost predicate EveryoneMayRead(e: IndexEntry) {
    |e.audience| == 0 && e.scope != "agent-private"
  }

  /** A human gave the verdict, or a classifier of this version or a later one. */
  ghost predicate UpToDate(version: nat, verdict: Classified) {
    verdict.source.Manual? || verdict.version >= version
  }

  lemma OwedRule(version: nat, x: Indexed)
    ensures Owed(version, x) <==>
            EveryoneMayRead(x.entry) && (x.entry.classified.Some? ==> !UpToDate(version, x.entry.classified.value))
  {
  }

  /** Exactly the records that everyone may read and that have no verdict, or an
      outdated one, oldest first. */
  lemma PendingExact(version: nat, entries: seq<Indexed>)
    ensures forall x :: x in Pending(version, entries) <==> x in entries && Owed(version, x)
    ensures forall x :: x in Pending(version, entries) <==>
                        x in entries && EveryoneMayRead(x.entry)
                        && (x.entry.classified.Some? ==> !UpToDate(version, x.entry.classified.value))
    ensures Sorted(OlderFirst, Pending(version, entries))
    ensures multiset(Pending(version, entries)) == multiset(Filter(IsOwed(version), entries))
  {
    var owed := Filter(IsOwed(version), entries);
    forall a, b ensures OlderFirst(a, b) || OlderFirst(b, a) {
      StringLeTotal(a.entry.createdAt, b.entry.createdAt);
    }
    forall a, b, c | OlderFirst(a, b) && OlderFirst(b, c) ensures OlderFirst(a, c) {
      StringLeTransitive(a.entry.createdAt, b.entry.createdAt, c.entry.createdAt);
    }
    StableSortSorted(OlderFirst, owed);
    forall x ensures x in Pending(version, entries) <==> x in owed {
      assert x in StableSort(OlderFirst, owed) <==> x in multiset(StableSort(OlderFirst, owed));
      assert x in owed <==> x in multiset(owed);
    }
    forall x ensures Owed(version, x) <==>
                     EveryoneMayRead(x.entry) && (x.entry.classified.Some? ==> !UpToDate(version, x.entry.classified.value))
    {
      OwedRule(version, x);
    }
  }

  // -------------------------------------------------------------------- verdicts

  datatype Decision = Apply(kind: Kind) | MarkOnly

  function Rank(c: Certainty): nat {
    match c case Low => 0 case Medium => 1 case High => 2
  }

  function ApplyPolicy(a: Answer, current: Option<Kind>, threshold: Certainty): Decision {
    if a.kind.None? then MarkOnly
    else if Rank(a.confidence) < Rank(threshold) || a.kind == current then MarkOnly
    else Apply(a.kind.value)
  }

  function Decide(g: Config, a: Answer, e: IndexEntry): Decision {
    var d := ApplyPolicy(a, e.kind, g.threshold);
    if d.Apply? && !KindContextOk(Some(d.kind), e.scope, e.projectId) then MarkOnly else d
  }

  function KindFor(d: Decision, e: IndexEntry): Option<Kind> {
    match d case Apply(kind) => Some(kind) case MarkOnly => e.kind
  }

  function Provenance(g: Config, backend: string, a: Answer, call: nat): Classified {
    Classified(Llm, Some(backend), g.clock(call), g.version,
               Some(match a.confidence case Low => "low" case Medium => "medium" case High => "high"))
  }

  /** Writes a verdict unless the note has changed since it was indexed. */
  function ApplyUpdate(g: Config, store: Store, x: Indexed, kind: Option<Kind>, classified: Classified): Store {
    if x.notePath !in store then store
    else
      var f := store[x.notePath];
      match ParseNote(g.codec, f.note)
      case Err(_) => store
      case Ok(n) =>
        if n.frontMatter.kind != x.entry.kind || n.frontMatter.classified != x.entry.classified then store
        else store[x.notePath := Retagged(g.codec, g.eventCodec, f, Input(true, kind, None, None, Set(classified))).1]
  }

  // -------------------------------------------------------------------- the loop

  /** The loop's variables.  `tried`, `used` and `verdicts` are history: the record
      and the backend of each call, and the records judged. */
  datatype State = State(
    store: Store,
    index: nat,
    backend: nat,
    consecutive: nat,
    attempts: nat,
    judged: nat,
    applied: nat,
    markedOnly: nat,
    errors: nat,
    aborted: bool,
    lastBackend: Option<string>,
    tried: seq<nat>,
    used: seq<nat>,
    verdicts: seq<nat>)

  function Start(g: Config, store: Store): State {
    State(store, 0, 0, 0, 0, 0, 0, 0, 0, false, if g.backends == [] then None else Some(g.backends[0]), [], [], [])
  }

  predicate Finished(batch: seq<Indexed>, s: State) {
    s.aborted || s.index >= |batch|
  }

  function Failed(g: Config, s: State): State {
    var t := s.(errors := s.errors + 1, consecutive := s.consecutive + 1, attempts := s.attempts + 1);
    var u := if t.attempts >= MAX_ENTRY_ATTEMPTS then t.(index := t.index + 1, attempts := 0) else t;
    if u.consecutive >= MAX_CONSECUTIVE_ERRORS then
      u.(backend := u.backend + 1, consecutive := 0, aborted := u.backend + 1 >= |g.backends|)
    else u
  }

  function Judged(g: Config, s: State, x: Indexed, a: Answer, backend: string): State {
    var d := Decide(g, a, x.entry);
    s.(consecutive := 0, judged := s.judged + 1,
       applied := s.applied + (if d.Apply? then 1 else 0),
       markedOnly := s.markedOnly + (if d.Apply? then 0 else 1),
       store := if g.dryRun then s.store
                else ApplyUpdate(g, s.store, x, KindFor(d, x.entry), Provenance(g, backend, a, |s.tried|)),
       verdicts := s.verdicts + [s.index],
       index := s.index + 1, attempts := 0)
  }

  /** One trip around the loop. */
  function Step(g: Config, batch: seq<Indexed>, s: State): State {
    if Finished(batch, s) || s.backend >= |g.backends| then s
    else
      var t := match g.answers(|s.tried|)
               case None => Failed(g, s)
               case Some(a) => Judged(g, s, batch[s.index], a, g.backends[s.backend]);
      t.(tried := s.tried + [s.index], used := s.used + [s.backend], lastBackend := Some(g.backends[s.backend]))
  }

  function Iterate(g: Config, batch: seq<Indexed>, store: Store, n: nat): State {
    if n == 0 then Start(g, store) else Step(g, batch, Iterate(g, batch, store, n - 1))
  }

  function Times(s: seq<nat>, i: nat): nat {
    multiset(s)[i]
  }

  ghost predicate Inv(g: Config, batch: seq<Indexed>, s: State) {
    && s.index <= |batch|
    && (if s.aborted then s.backend == |g.backends| else s.backend < |g.backends|)
    && s.attempts < MAX_ENTRY_ATTEMPTS
    && (s.attempts > 0 ==> s.index < |batch|)
    && s.consecutive < MAX_CONSECUTIVE_ERRORS
    && s.judged == s.applied + s.markedOnly
    && s.judged <= s.index
    && 2 * (s.index - s.judged) + s.attempts <= s.errors <= 2 * (s.index - s.judged) + s.judged + s.attempts
    && 3 * s.backend + s.consecutive <= s.errors <= 3 * s.backend + s.consecutive + 2 * s.judged
    && |s.tried| == s.judged + s.errors
    && |s.tried| <= 2 * s.index + s.attempts
    && (forall i: nat :: Times(s.tried, i) <= if i < s.index then 2 else if i == s.index then s.attempts else 0)
    && |s.verdicts| == s.judged
    && (forall k | 0 <= k < |s.verdicts| :: s.verdicts[k] < s.index)
    && (forall j, k | 0 <= j < k < |s.verdicts| :: s.verdicts[j] < s.verdicts[k])
  }

  lemma StepKeepsInv(g: Config, batch: seq<Indexed>, s: State)
    requires Inv(g, batch, s)
    ensures Inv(g, batch, Step(g, batch, s))
    ensures !Finished(batch, s) ==> |Step(g, batch, s).tried| == |s.tried| + 1
  {
    hide Decide, ApplyUpdate, Provenance, KindFor;
    if !Finished(batch, s) {
      StepFields(g, batch, s);
      hide Step;
      var t := Step(g, batch, s);
      assert t.tried == s.tried + [s.index];
      forall i: nat ensures Times(t.tried, i) == Times(s.tried, i) + if i == s.index then 1 else 0 {
        assert multiset(s.tried + [s.index]) == multiset(s.tried) + multiset{s.index};
      }
      hide Times;
      assert forall i: nat :: Times(s.tried, i) <= if i < s.index then 2 else if i == s.index then s.attempts else 0;
    }
  }

  /** A trip around the loop, field by field. */
  lemma StepFields(g: Config, batch: seq<Indexed>, s: State)
    requires !Finished(batch, s) && s.backend < |g.backends|
    ensures var a := g.answers(|s.tried|);
            var name := g.backends[s.backend];
            var tried, used := s.tried + [s.index], s.used + [s.backend];
            if a.None? then
              var skip := s.attempts + 1 >= MAX_ENTRY_ATTEMPTS;
              var rotate := s.consecutive + 1 >= MAX_CONSECUTIVE_ERRORS;
              Step(g, batch, s) ==
              State(s.store, if skip then s.index + 1 else s.index, if rotate then s.backend + 1 else s.backend,
                    if rotate then 0 else s.consecutive + 1, if skip then 0 else s.attempts + 1,
                    s.judged, s.applied, s.markedOnly, s.errors + 1,
                    if rotate then s.backend + 1 >= |g.backends| else s.aborted, Some(name), tried, used, s.verdicts)
            else
              var x := batch[s.index];
              var d := Decide(g, a.value, x.entry);
              Step(g, batch, s) ==
              State(if g.dryRun then s.store
                    else ApplyUpdate(g, s.store, x, KindFor(d, x.entry), Provenance(g, name, a.value, |s.tried|)),
                    s.index + 1, s.backend, 0, 0, s.judged + 1,
                    if d.Apply? then s.applied + 1 else s.applied, if d.Apply? then s.markedOnly else s.markedOnly + 1,
                    s.errors, s.aborted, Some(name), tried, used, s.verdicts + [s.index])
  {
  }

  lemma StartInv(g: Config, batch: seq<Indexed>, store: Store)
    requires g.backends != []
    ensures Inv(g, batch, Start(g, store))
  {
  }

  lemma {:induction false} IterateKeepsInv(g: Config, batch: seq<Indexed>, store: Store, n: nat)
    requires g.backends != []
    ensures Inv(g, batch, Iterate(g, batch, store, n))
    ensures !Finished(batch, Iterate(g, batch, store, n)) ==> |Iterate(g, batch, store, n).tried| == n
    decreases n
  {
    hide Inv, Step;
    if n == 0 {
      StartInv(g, batch, store);
    } else {
      IterateKeepsInv(g, batch, store, n - 1);
      var s := Iterate(g, batch, store, n - 1);
      StepKeepsInv(g, batch, s);
      FinishedStays(g, batch, s);
    }
  }

  lemma FinishedStays(g: Config, batch: seq<Indexed>, s: State)
    ensures Finished(batch, s) ==> Step(g, batch, s) == s
  {
  }

  lemma {:induction false} FinalReached(g: Config, batch: seq<Indexed>, store: Store, n: nat, m: nat)
    requires Finished(batch, Iterate(g, batch, store, n)) && n <= m
    ensures Iterate(g, batch, store, m) == Iterate(g, batch, store, n)
    decreases m
  {
    hide Step;
    if n < m {
      FinalReached(g, batch, store, n, m - 1);
      FinishedStays(g, batch, Iterate(g, batch, store, m - 1));
    }
  }

  /** The state when the loop is over. */
  function Final(g: Config, batch: seq<Indexed>, store: Store): State {
    Iterate(g, batch, store, 2 * |batch|)
  }

  /** The loop is over after at most two backend calls a record, and however
      many of them failed, the counters account for every record and call. */
  lemma RunEnds(g: Config, batch: seq<Indexed>, store: Store)
    requires g.backends != []
    ensures var s := Final(g, batch, store);
            && Finished(batch, s)
            && |s.tried| == s.judged + s.errors <= 2 * |batch|
            && s.judged == s.applied + s.markedOnly
            && s.judged <= s.index <= |batch|
            && 2 * (s.index - s.judged) + s.attempts <= s.errors <= 2 * (s.index - s.judged) + s.judged + s.attempts
  {
    IterateKeepsInv(g, batch, store, 2 * |batch|);
  }

  /** No record is tried more than twice or judged more than once. */
  lemma TriedTwiceJudgedOnce(g: Config, batch: seq<Indexed>, store: Store, n: nat)
    requires g.backends != []
    ensures var s := Iterate(g, batch, store, n);
            && (forall i: nat :: Times(s.tried, i) <= 2)
            && (forall j, k | 0 <= j < k < |s.verdicts| :: s.verdicts[j] < s.verdicts[k] < |batch|)
  {
    hide Times;
    IterateKeepsInv(g, batch, store, n);
  }

  /** A run gives up exactly when every backend was rotated out; until then the
      backend in use exists.  Every rotation costs three failures, and only a
      success can excuse another two. */
  lemma AbortedIff(g: Config, batch: seq<Indexed>, store: Store, n: nat)
    requires g.backends != []
    ensures var s := Iterate(g, batch, store, n);
            && (s.aborted <==> s.backend == |g.backends|)
            && (!s.aborted ==> s.backend < |g.backends|)
            && 3 * s.backend <= s.errors <= 3 * s.backend + 2 * s.judged + 2
            && (s.aborted ==> 3 * |g.backends| <= s.errors <= 3 * |g.backends| + 2 * s.judged)
  {
    IterateKeepsInv(g, batch, store, n);
  }

  // ---------------------------------------------------------- when it rotates

  predicate FailedCall(g: Config, k: int) {
    k >= 0 && g.answers(k).None?
  }

  /** Calls `k - 2`, `k - 1` and `k` all failed on one backend. */
  predicate ThreeFailures(g: Config, used: seq<nat>, k: int) {
    && 2 <= k < |used| && used[k - 2] == used[k] && used[k - 1] == used[k]
    && FailedCall(g, k - 2) && FailedCall(g, k - 1) && FailedCall(g, k)
  }

  /** Calls `k - 1` and `k` both failed on one record. */
  predicate TwoFailures(g: Config, tried: seq<nat>, k: int) {
    1 <= k < |tried| && tried[k - 1] == tried[k] && FailedCall(g, k - 1) && FailedCall(g, k)
  }

  /** The next call takes the next backend after three failures and the same one
      otherwise. */
  ghost predicate Rotates(g: Config, used: seq<nat>) {
    && (used != [] ==> used[0] == 0)
    && forall k | 0 <= k < |used| - 1 :: used[k + 1] == used[k] + if ThreeFailures(g, used, k) then 1 else 0
  }

  /** The next call is about the next record after an answer or two failures, and
      about the same one otherwise. */
  ghost predicate Advances(g: Config, tried: seq<nat>) {
    && (tried != [] ==> tried[0] == 0)
    && forall k | 0 <= k < |tried| - 1 ::
         tried[k + 1] == tried[k] + if g.answers(k).Some? || TwoFailures(g, tried, k) then 1 else 0
  }

  ghost predicate BackendOk(g: Config, s: State) {
    var c := |s.used|;
    && c == |s.tried| && Rotates(g, s.used)
    && s.backend == (if c == 0 then 0 else s.used[c - 1] + if ThreeFailures(g, s.used, c - 1) then 1 else 0)
    && s.consecutive < 3 && s.consecutive <= c
    && (forall j | c - s.consecutive <= j < c :: FailedCall(g, j) && s.used[j] == s.backend)
    && (s.consecutive < c ==> !FailedCall(g, c - s.consecutive - 1) || s.used[c - s.consecutive - 1] != s.backend)
  }

  ghost predicate RecordOk(g: Config, s: State) {
    var c := |s.tried|;
    && Advances(g, s.tried)
    && s.index == (if c == 0 then 0
                   else s.tried[c - 1] + if g.answers(c - 1).Some? || TwoFailures(g, s.tried, c - 1) then 1 else 0)
    && s.attempts == if c > 0 && FailedCall(g, c - 1) && !TwoFailures(g, s.tried, c - 1) then 1 else 0
  }

  ghost predicate AnsweredWithin(g: Config, first: nat, last: nat) {
    exists k: nat :: first <= k <= last && g.answers(k).Some?
  }

  lemma ThreeFailuresFrame(g: Config, used: seq<nat>, b: nat, k: int)
    requires k < |used|
    ensures ThreeFailures(g, used + [b], k) == ThreeFailures(g, used, k)
  {
  }

  lemma TwoFailuresFrame(g: Config, tried: seq<nat>, i: nat, k: int)
    requires k < |tried|
    ensures TwoFailures(g, tried + [i], k) == TwoFailures(g, tried, k)
  {
  }

  lemma StepKeepsBackend(g: Config, batch: seq<Indexed>, s: State)
    requires BackendOk(g, s)
    ensures BackendOk(g, Step(g, batch, s))
  {
    hide Decide, ApplyUpdate, Provenance, KindFor, ThreeFailures;
    if !Finished(batch, s) && s.backend < |g.backends| {
      StepFields(g, batch, s);
      hide Step;
      var c, used := |s.used|, s.used + [s.backend];
      forall k | 0 <= k < c ensures ThreeFailures(g, used, k) == ThreeFailures(g, s.used, k) {
        ThreeFailuresFrame(g, s.used, s.backend, k);
      }
      LastThree(g, s);
    }
  }

  /** The failure counter says whether the next failure is the third. */
  lemma LastThree(g: Config, s: State)
    requires BackendOk(g, s)
    ensures ThreeFailures(g, s.used + [s.backend], |s.used|) <==> FailedCall(g, |s.used|) && s.consecutive == 2
  {
    var c := |s.used|;
    if s.consecutive == 2 {
      assert FailedCall(g, c - 2) && FailedCall(g, c - 1);
    }
    hide Rotates;
  }

  lemma StepKeepsRecord(g: Config, batch: seq<Indexed>, s: State)
    requires RecordOk(g, s)
    ensures RecordOk(g, Step(g, batch, s))
  {
    hide Decide, ApplyUpdate, Provenance, KindFor;
    if !Finished(batch, s) && s.backend < |g.backends| {
      StepFields(g, batch, s);
      hide Step;
      var c := |s.tried|;
      forall k | 0 <= k < c ensures TwoFailures(g, s.tried + [s.index], k) == TwoFailures(g, s.tried, k) {
        TwoFailuresFrame(g, s.tried, s.index, k);
      }
    }
  }

  lemma {:induction false} IterateKeepsHistory(g: Config, batch: seq<Indexed>, store: Store, n: nat)
    ensures BackendOk(g, Iterate(g, batch, store, n)) && RecordOk(g, Iterate(g, batch, store, n))
    decreases n
  {
    hide Step;
    if n > 0 {
      hide BackendOk, RecordOk;
      IterateKeepsHistory(g, batch, store, n - 1);
      StepKeepsBackend(g, batch, Iterate(g, batch, store, n - 1));
      StepKeepsRecord(g, batch, Iterate(g, batch, store, n - 1));
    }
  }

  /** At any point of a run, from the outcomes of the calls alone: the backend
      changes after a call exactly when that call and the two before it failed on
      the same backend, the record exactly after an answer or a second failure,
      no backend sees four failures in a row, and the run is aborted exactly when
      the last call was the third failure in a row of the last backend. */
  lemma RotatesAfterThree(g: Config, batch: seq<Indexed>, store: Store, n: nat)
    requires g.backends != []
    ensures var s := Iterate(g, batch, store, n);
            var c := |s.tried|;
            && |s.used| == c && Rotates(g, s.used) && Advances(g, s.tried)
            && (forall k: nat | k + 3 < c && s.used[k] == s.used[k + 3] :: AnsweredWithin(g, k, k + 3))
            && (s.aborted <==> ThreeFailures(g, s.used, c - 1) && s.used[c - 1] == |g.backends| - 1)
            && (c > 0 ==> s.used[c - 1] < |g.backends| && s.lastBackend == Some(g.backends[s.used[c - 1]]))
  {
    hide Iterate, Rotates, Advances;
    IterateKeepsInv(g, batch, store, n);
    IterateKeepsHistory(g, batch, store, n);
    LastBackendUsed(g, batch, store, n);
    var s := Iterate(g, batch, store, n);
    forall k: nat | k + 3 < |s.used| && s.used[k] == s.used[k + 3] ensures AnsweredWithin(g, k, k + 3) {
      FourCalls(g, s.used, k);
    }
  }

  lemma FourCalls(g: Config, used: seq<nat>, k: nat)
    requires Rotates(g, used) && k + 3 < |used| && used[k] == used[k + 3]
    ensures AnsweredWithin(g, k, k + 3)
  {
    assert used[k + 1] >= used[k] && used[k + 2] >= used[k + 1] && used[k + 3] >= used[k + 2];
    assert used[k + 2 + 1] == used[k + 2] + if ThreeFailures(g, used, k + 2) then 1 else 0;
    assert !FailedCall(g, k) || !FailedCall(g, k + 1) || !FailedCall(g, k + 2);
  }

  lemma {:induction false} LastBackendUsed(g: Config, batch: seq<Indexed>, store: Store, n: nat)
    requires g.backends != []
    ensures var s := Iterate(g, batch, store, n);
            s.used != [] ==> var b := s.used[|s.used| - 1]; b < |g.backends| && s.lastBackend == Some(g.backends[b])
    decreases n
  {
    hide Decide, ApplyUpdate, Provenance, KindFor, Step;
    if n > 0 {
      var s := Iterate(g, batch, store, n - 1);
      LastBackendUsed(g, batch, store, n - 1);
      if Finished(batch, s) || s.backend >= |g.backends| { StepNothing(g, batch, s); } else { StepFields(g, batch, s); }
    }
  }

  lemma StepNothing(g: Config, batch: seq<Indexed>, s: State)
    requires Finished(batch, s) || s.backend >= |g.backends|
    ensures Step(g, batch, s) == s
  {
  }

  /** Equal but for what was written. */
  ghost predicate SameCounts(s: State, t: State) {
    s.(store := t.store) == t
  }

  lemma DryStep(g: Config, batch: seq<Indexed>, s: State, t: State)
    requires SameCounts(s, t)
    ensures SameCounts(Step(g.(dryRun := true), batch, s), Step(g.(dryRun := false), batch, t))
    ensures Step(g.(dryRun := true), batch, s).store == s.store
  {
    var dry, wet := g.(dryRun := true), g.(dryRun := false);
    if !Finished(batch, s) && s.backend < |g.backends| {
      StepFields(dry, batch, s);
      StepFields(wet, batch, t);
      var answer := g.answers(|s.tried|);
      if answer.Some? { assert Decide(dry, answer.value, batch[s.index].entry) == Decide(wet, answer.value, batch[s.index].entry); }
      hide Step, Decide, ApplyUpdate, Provenance, KindFor;
    }
  }

  /** A dry run writes nothing and counts the same. */
  lemma {:induction false} DryRunCounts(g: Config, batch: seq<Indexed>, store: Store, n: nat)
    ensures SameCounts(Iterate(g.(dryRun := true), batch, store, n), Iterate(g.(dryRun := false), batch, store, n))
    ensures Iterate(g.(dryRun := true), batch, store, n).store == store
    decreases n
  {
    hide Step;
    if n > 0 {
      DryRunCounts(g, batch, store, n - 1);
      DryStep(g, batch, Iterate(g.(dryRun := true), batch, store, n - 1), Iterate(g.(dryRun := false), batch, store, n - 1));
    }
  }

  datatype Outcome = Ran | Aborted | SkippedNoBackend

  datatype Report = Report(
    outcome: Outcome, backend: Option<string>, pending: nat, judged: nat, applied: nat, markedOnly: nat, errors: nat)

  function Batch(g: Config, entries: seq<Indexed>, limit: nat): seq<Indexed> {
    var pending := Pending(g.version, entries);
    pending[..if limit < |pending| then limit else |pending|]
  }

  function ReportOf(g: Config, entries: seq<Indexed>, s: State): Report {
    if g.backends == [] then Report(SkippedNoBackend, None, 0, 0, 0, 0, 0)
    else Report(if s.aborted then Aborted else Ran, s.lastBackend, |Pending(g.version, entries)|,
                s.judged, s.applied, s.markedOnly, s.errors)
  }

  /** The worker, once it holds its lock. */
  class Worker {
    var store: Store

    constructor (store: Store)
      ensures this.store == store
    {
      this.store := store;
    }

    method Run(g: Config, entries: seq<Indexed>, limit: nat) returns (r: Report)
      modifies this
      ensures r == ReportOf(g, entries, Final(g, Batch(g, entries, limit), old(store)))
      ensures store == Final(g, Batch(g, entries, limit), old(store)).store
    {
      hide Decide, ApplyUpdate, Provenance, KindFor, Pending, Inv, Batch, Iterate, Final, Step;
      var batch := Batch(g, entries, limit);
      if g.backends == [] {
        NoBackend(g, batch, store);
        return Report(SkippedNoBackend, None, 0, 0, 0, 0, 0);
      }
      IterateZero(g, batch, store);
      var index: nat, backend: nat, consecutive: nat, attempts: nat := 0, 0, 0, 0;
      var judged: nat, applied: nat, markedOnly: nat, errors: nat, calls: nat := 0, 0, 0, 0, 0;
      var aborted := false;
      var lastBackend := Some(g.backends[0]);
      ghost var tried: seq<nat>, used: seq<nat>, verdicts: seq<nat> := [], [], [];
      while index < |batch| && !aborted
        invariant backend < |g.backends| || aborted
        invariant attempts < MAX_ENTRY_ATTEMPTS
        invariant |tried| == calls
        invariant Iterate(g, batch, old(store), calls) ==
                  State(store, index, backend, consecutive, attempts, judged, applied, markedOnly, errors, aborted,
                        lastBackend, tried, used, verdicts)
        decreases if aborted then 0 else 1, 2 * (|batch| - index) - attempts
      {
        ghost var s := State(store, index, backend, consecutive, attempts, judged, applied, markedOnly, errors, aborted,
                             lastBackend, tried, used, verdicts);
        IterateNext(g, batch, old(store), calls);
        StepFields(g, batch, s);
        var name, x, answer := g.backends[backend], batch[index], g.answers(calls);
        lastBackend := Some(name);
        tried, used := tried + [index], used + [backend];
        if answer.None? {
          errors := errors + 1;
          consecutive := consecutive + 1;
          attempts := attempts + 1;
          if attempts >= MAX_ENTRY_ATTEMPTS {
            index := index + 1;
            attempts := 0;
          }
          if consecutive >= MAX_CONSECUTIVE_ERRORS {
            backend := backend + 1;
            consecutive := 0;
            if backend >= |g.backends| {
              aborted := true;
            }
          }
          calls := calls + 1;
          continue;
        }
        judged := judged + 1;
        consecutive := 0;
        var decision := Decide(g, answer.value, x.entry);
        if decision.Apply? {
          applied := applied + 1;
        } else {
          markedOnly := markedOnly + 1;
        }
        if !g.dryRun {
          store := ApplyUpdate(g, store, x, KindFor(decision, x.entry), Provenance(g, name, answer.value, calls));
        }
        verdicts := verdicts + [index];
        index := index + 1;
        attempts := 0;
        calls := calls + 1;
      }
      FinalIs(g, batch, old(store), calls);
      return Report(if aborted then Aborted else Ran, lastBackend, |Pending(g.version, entries)|,
                    judged, applied, markedOnly, errors);
    }
  }

  lemma IterateZero(g: Config, batch: seq<Indexed>, store: Store)
    ensures Iterate(g, batch, store, 0) == Start(g, store)
  {
  }

  lemma IterateNext(g: Config, batch: seq<Indexed>, store: Store, n: nat)
    ensures Iterate(g, batch, store, n + 1) == Step(g, batch, Iterate(g, batch, store, n))
  {
  }

  lemma {:induction false} NothingWithoutBackend(g: Config, batch: seq<Indexed>, store: Store, n: nat)
    requires g.backends == []
    ensures Iterate(g, batch, store, n).store == store
    decreases n
  {
    if n > 0 { NothingWithoutBackend(g, batch, store, n - 1); }
  }

  lemma NoBackend(g: Config, batch: seq<Indexed>, store: Store)
    requires g.backends == []
    ensures Final(g, batch, store).store == store
  {
    NothingWithoutBackend(g, batch, store, 2 * |batch|);
  }

  lemma FinalIs(g: Config, batch: seq<Indexed>, store: Store, n: nat)
    requires g.backends != [] && Finished(batch, Iterate(g, batch, store, n))
    ensures Iterate(g, batch, store, n) == Final(g, batch, store)
  {
    hide Iterate, Inv;
    RunEnds(g, batch, store);
    if n <= 2 * |batch| { FinalReached(g, batch, store, n, 2 * |batch|); } else { FinalReached(g, batch, store, 2 * |batch|, n); }
  }

  // -------------------------------------------------------------- human verdicts

  /** What may happen between two trips of the loop; a worker's check and rewrite
      are one step. */
  datatype Move = Trip | UserRetag(path: string, input: Input)

  function Moved(g: Config, batch: seq<Indexed>, s: State, moves: seq<Move>): State {
    if moves == [] then s
    else
      var t, m := Moved(g, batch, s, moves[..|moves| - 1]), moves[|moves| - 1];
      match m
      case Trip => Step(g, batch, t)
      case UserRetag(path, i) =>
        if path in t.store then t.(store := t.store[path := Retagged(g.codec, g.eventCodec, t.store[path], i).1]) else t
  }

  predicate HasManualVerdict(c: Codec, f: Files) {
    var n := ParseNote(c, f.note);
    n.Ok? && n.value.frontMatter.classified.Some? && n.value.frontMatter.classified.value.source.Manual?
  }

  lemma UpdateSparesManual(g: Config, store: Store, x: Indexed, kind: Option<Kind>, classified: Classified, path: string)
    requires path in store && HasManualVerdict(g.codec, store[path]) && Owed(g.version, x)
    ensures path in ApplyUpdate(g, store, x, kind, classified)
    ensures ApplyUpdate(g, store, x, kind, classified)[path] == store[path]
  {
  }

  lemma StepSparesManual(g: Config, batch: seq<Indexed>, s: State, path: string)
    requires path in s.store && HasManualVerdict(g.codec, s.store[path]) && forall x | x in batch :: Owed(g.version, x)
    ensures path in Step(g, batch, s).store && Step(g, batch, s).store[path] == s.store[path]
  {
    hide Decide, ApplyUpdate, Provenance, KindFor, HasManualVerdict, Owed;
    if !Finished(batch, s) && s.backend < |g.backends| {
      StepFields(g, batch, s);
      var answer := g.answers(|s.tried|);
      if answer.Some? {
        var x, a := batch[s.index], answer.value;
        UpdateSparesManual(g, s.store, x, KindFor(Decide(g, a, x.entry), x.entry),
                           Provenance(g, g.backends[s.backend], a, |s.tried|), path);
      }
    }
  }

  lemma {:induction false} MovesSpareManual(g: Config, batch: seq<Indexed>, s: State, moves: seq<Move>, path: string)
    requires path in s.store && HasManualVerdict(g.codec, s.store[path]) && forall x | x in batch :: Owed(g.version, x)
    requires forall m | m in moves :: m.UserRetag? ==> m.path != path
    ensures path in Moved(g, batch, s, moves).store && Moved(g, batch, s, moves).store[path] == s.store[path]
    decreases |moves|
  {
    hide Step, HasManualVerdict, Owed, Retagged;
    if moves != [] {
      var n := |moves| - 1;
      MovesSpareManual(g, batch, s, moves[..n], path);
      StepSparesManual(g, batch, Moved(g, batch, s, moves[..n]), path);
      assert moves[n] in moves;
    }
  }

  /** A human verdict stands: once a manual retag of a record succeeded, at any
      point of a run, nothing the worker does afterwards changes the record, and
      a rebuild shows the human's kind and provenance. */
  lemma ManualVerdictStands(
      g: Config, entries: seq<Indexed>, limit: nat, s: State, path: string, i: Input, verdict: Classified, moves: seq<Move>)
    requires g.codec.Sound() && g.eventCodec.Sound() && path in s.store
    requires i.updateKind && i.classified == Set(verdict) && verdict.source.Manual?
    requires Retagged(g.codec, g.eventCodec, s.store[path], i).0.None?
    requires Splits(g.codec, EditedMatter(g.codec, s.store[path], i))
    requires forall m | m in moves :: m.UserRetag? ==> m.path != path
    ensures var t := Moved(g, Batch(g, entries, limit), s, [UserRetag(path, i)] + moves);
            && path in t.store
            && t.store[path] == Retagged(g.codec, g.eventCodec, s.store[path], i).1
            && Entry(g.codec, g.eventCodec, t.store[path]).Some?
            && Entry(g.codec, g.eventCodec, t.store[path]).value.kind == i.kind
            && Entry(g.codec, g.eventCodec, t.store[path]).value.classified == Some(verdict)
  {
    var batch, f := Batch(g, entries, limit), s.store[path];
    PendingExact(g.version, entries);
    assert forall x | x in batch :: x in Pending(g.version, entries);
    RetagAgreesIff(g.codec, g.eventCodec, f, i);
    RetagReadsBackIff(g.codec, g.eventCodec, f, i);
    hide Step, Owed, Retagged, ParseNote, Entry, Pending, Batch, Splits;
    MovedFirst(g, batch, s, UserRetag(path, i), moves);
    var u := s.(store := s.store[path := Retagged(g.codec, g.eventCodec, f, i).1]);
    MovesSpareManual(g, batch, u, moves, path);
  }

  lemma {:induction false} MovedFirst(g: Config, batch: seq<Indexed>, s: State, m: Move, moves: seq<Move>)
    ensures Moved(g, batch, s, [m] + moves) == Moved(g, batch, Moved(g, batch, s, [m]), moves)
    decreases |moves|
  {
    hide Step, Retagged;
    if moves == [] {
      assert [m] + moves == [m];
    } else {
      var n := |moves| - 1;
      assert ([m] + moves)[..n + 1] == [m] + moves[..n];
      MovedFirst(g, batch, s, m, moves[..n]);
    }
  }

  /** The note no longer says what the batch was built from. */
  ghost predicate Superseded(g: Config, batch: seq<Indexed>, path: string, f: Files) {
    forall x | x in batch && x.notePath == path ::
      var n := ParseNote(g.codec, f.note);
      n.Err? || n.value.frontMatter.kind != x.entry.kind || n.value.frontMatter.classified != x.entry.classified
  }

  lemma UpdateSparesSuperseded(g: Config, batch: seq<Indexed>, store: Store, x: Indexed, kind: Option<Kind>, c: Classified, path: string)
    requires path in store && Superseded(g, batch, path, store[path]) && x in batch
    ensures path in ApplyUpdate(g, store, x, kind, c) && ApplyUpdate(g, store, x, kind, c)[path] == store[path]
  {
    hide ParseNote, Retagged;
  }

  lemma StepSparesSuperseded(g: Config, batch: seq<Indexed>, s: State, path: string)
    requires path in s.store && Superseded(g, batch, path, s.store[path])
    ensures path in Step(g, batch, s).store && Step(g, batch, s).store[path] == s.store[path]
  {
    hide Decide, ApplyUpdate, Provenance, KindFor, Superseded;
    if !Finished(batch, s) && s.backend < |g.backends| {
      StepFields(g, batch, s);
      var answer := g.answers(|s.tried|);
      if answer.Some? {
        var x, a := batch[s.index], answer.value;
        UpdateSparesSuperseded(g, batch, s.store, x, KindFor(Decide(g, a, x.entry), x.entry),
                               Provenance(g, g.backends[s.backend], a, |s.tried|), path);
      }
    }
  }

  /** A note whose kind or verdict was changed, by whomever, after the batch was
      drawn up is left alone by the rest of the run. */
  lemma {:induction false} ChangedNoteStands(g: Config, batch: seq<Indexed>, s: State, moves: seq<Move>, path: string)
    requires path in s.store && Superseded(g, batch, path, s.store[path])
    requires forall m | m in moves :: m.UserRetag? ==> m.path != path
    ensures path in Moved(g, batch, s, moves).store && Moved(g, batch, s, moves).store[path] == s.store[path]
    decreases |moves|
  {
    hide Step, Superseded, Retagged;
    if moves != [] {
      var n := |moves| - 1;
      ChangedNoteStands(g, batch, s, moves[..n], path);
      StepSparesSuperseded(g, batch, Moved(g, batch, s, moves[..n]), path);
      assert moves[n] in moves;
    }
  }

  ghost predicate ConfidentEnough(a: Certainty, threshold: Certainty) {
    match threshold
    case Low => true
    case Medium => a != Low
    case High => a == High
  }

  /** A project fact belongs to a project that the record names. */
  ghost predicate FitsRecord(kind: Kind, e: IndexEntry) {
    kind.ProjectFact? ==> e.scope == "project" && e.projectId != None
  }

  lemma WantedRule(g: Config, a: Answer, e: IndexEntry)
    ensures Wanted(g, a, e) ==
            if a.kind.Some? && ConfidentEnough(a.confidence, g.threshold) && FitsRecord(a.kind.value, e)
            then a.kind else e.kind
  {
  }

  /** A written verdict says which backend gave it, when, under which version and
      how sure it was, and that no human did. */
  lemma VerdictSays(g: Config, backend: string, a: Answer, call: nat)
    ensures var v := Provenance(g, backend, a, call);
            && v.source.Llm? && v.backend == Some(backend) && v.version == g.version && v.at == g.clock(call)
            && (v.confidence == Some("high") <==> a.confidence.High?)
            && (v.confidence == Some("medium") <==> a.confidence.Medium?)
            && (v.confidence == Some("low") <==> a.confidence.Low?)
  {
    assert "high"[0] == 'h' && "medium"[0] == 'm' && "low"[0] == 'l';
  }

  /** The kind a record should have after an answer: the answer's, when it is
      clear, confident enough and fits the record's scope and project. */
  function Wanted(g: Config, a: Answer, e: IndexEntry): Option<Kind> {
    if a.kind.Some? && Rank(a.confidence) >= Rank(g.threshold) && KindContextOk(a.kind, e.scope, e.projectId)
    then a.kind else e.kind
  }

  lemma DecisionIsWanted(g: Config, a: Answer, e: IndexEntry)
    ensures KindFor(Decide(g, a, e), e) == Wanted(g, a, e)
    ensures Decide(g, a, e).Apply? <==> Wanted(g, a, e) != e.kind
  {
  }

  /** How many of the answered calls wanted another kind for their record. */
  function KindChanges(g: Config, batch: seq<Indexed>, tried: seq<nat>): nat
    requires forall k | 0 <= k < |tried| :: tried[k] < |batch|
  {
    if tried == [] then 0
    else
      var n := |tried| - 1;
      var a, e := g.answers(n), batch[tried[n]].entry;
      KindChanges(g, batch, tried[..n]) + if a.Some? && Wanted(g, a.value, e) != e.kind then 1 else 0
  }

  ghost predicate Counted(g: Config, batch: seq<Indexed>, s: State) {
    && (forall k | 0 <= k < |s.tried| :: s.tried[k] < |batch|)
    && s.applied == KindChanges(g, batch, s.tried)
    && |s.tried| == s.applied + s.markedOnly + s.errors
  }

  lemma StepKeepsCounted(g: Config, batch: seq<Indexed>, s: State)
    requires Counted(g, batch, s)
    ensures Counted(g, batch, Step(g, batch, s))
  {
    hide Decide, Wanted, ApplyUpdate, Provenance, KindFor;
    if !Finished(batch, s) && s.backend < |g.backends| {
      StepFields(g, batch, s);
      hide Step;
      assert (s.tried + [s.index])[..|s.tried|] == s.tried;
      var a := g.answers(|s.tried|);
      if a.Some? { DecisionIsWanted(g, a.value, batch[s.index].entry); }
    }
  }

  /** At any point of a run `applied` is the number of answers that wanted
      another kind for their record, and `markedOnly` that of all other answers. */
  lemma {:induction false} AppliedCountsChanges(g: Config, batch: seq<Indexed>, store: Store, n: nat)
    ensures var s := Iterate(g, batch, store, n);
            && (forall k | 0 <= k < |s.tried| :: s.tried[k] < |batch|)
            && s.applied == KindChanges(g, batch, s.tried)
            && s.markedOnly == |s.tried| - s.errors - KindChanges(g, batch, s.tried)
    decreases n
  {
    hide Step;
    if n > 0 {
      AppliedCountsChanges(g, batch, store, n - 1);
      StepKeepsCounted(g, batch, Iterate(g, batch, store, n - 1));
    }
  }

  /** A verdict that was written settles the record exactly when the note still
      reads back: a rebuild then shows the wanted kind and this verdict, nothing
      else changed, and the record is owed no further review. */
  lemma WrittenVerdictSettles(g: Config, store: Store, x: Indexed, a: Answer, backend: string, call: nat)
    requires g.codec.Sound() && g.eventCodec.Sound() && x.notePath in store
    requires var f := store[x.notePath];
             && ParseNote(g.codec, f.note).Ok?
             && ParseNote(g.codec, f.note).value.frontMatter.kind == x.entry.kind
             && ParseNote(g.codec, f.note).value.frontMatter.classified == x.entry.classified
             && Retagged(g.codec, g.eventCodec, f, VerdictInput(g, x.entry, a, backend, call)).0.None?
    ensures var verdict := Provenance(g, backend, a, call);
            var after := ApplyUpdate(g, store, x, KindFor(Decide(g, a, x.entry), x.entry), verdict);
            && x.notePath in after
            && Entry(g.codec, g.eventCodec, store[x.notePath]).Some?
            && var y := Entry(g.codec, g.eventCodec, store[x.notePath]).value
                        .(kind := Wanted(g, a, x.entry), classified := Some(verdict));
               && (Entry(g.codec, g.eventCodec, after[x.notePath]) == Some(y) <==>
                   Splits(g.codec, EditedMatter(g.codec, store[x.notePath], VerdictInput(g, x.entry, a, backend, call))))
               && !Owed(g.version, Indexed(x.notePath, y))
  {
    var f, i := store[x.notePath], VerdictInput(g, x.entry, a, backend, call);
    RetagAgreesIff(g.codec, g.eventCodec, f, i);
    DecisionIsWanted(g, a, x.entry);
    hide Retagged, ParseNote, Entry, Decide, KindFor, Splits;
  }

  /** The retag that writes a verdict. */
  function VerdictInput(g: Config, e: IndexEntry, a: Answer, backend: string, call: nat): Input {
    Input(true, Wanted(g, a, e), None, None, Set(Provenance(g, backend, a, call)))
  }

  // -------------------------------------------------- what a run leaves behind

  ghost predicate DistinctNotes(batch: seq<Indexed>) {
    forall i, j | 0 <= i < j < |batch| :: batch[i].notePath != batch[j].notePath
  }

  /** The store after this one verdict alone. */
  function Verdict(g: Config, store: Store, x: Indexed, a: Answer, backend: string, call: nat): Store {
    ApplyUpdate(g, store, x, Wanted(g, a, x.entry), Provenance(g, backend, a, call))
  }

  /** Every call so far was about a record of the batch and to an existing
      backend, and the answered ones were about different, earlier records. */
  ghost predicate CallsOk(g: Config, batch: seq<Indexed>, s: State) {
    && |s.used| == |s.tried|
    && (forall k: nat | k < |s.tried| :: s.tried[k] < |batch| && s.used[k] < |g.backends|)
    && (forall k: nat | k < |s.tried| && g.answers(k).Some? :: s.tried[k] < s.index)
  }

  /** Each file holds what it held at first, or after the one verdict on it. */
  ghost predicate Written(g: Config, batch: seq<Indexed>, first: Store, s: State)
    requires CallsOk(g, batch, s)
  {
    && s.store.Keys == first.Keys
    && (forall path | path in first && s.store[path] != first[path] ::
          exists k: nat :: k < |s.tried| && g.answers(k).Some? && batch[s.tried[k]].notePath == path)
    && (forall k: nat | k < |s.tried| && g.answers(k).Some? && batch[s.tried[k]].notePath in first ::
          WrittenBy(g, batch, first, s, k))
  }

  ghost predicate WrittenBy(g: Config, batch: seq<Indexed>, first: Store, s: State, k: nat)
    requires k < |s.tried| == |s.used| && s.tried[k] < |batch| && s.used[k] < |g.backends| && g.answers(k).Some?
  {
    var x := batch[s.tried[k]];
    var after := Verdict(g, first, x, g.answers(k).value, g.backends[s.used[k]], k);
    x.notePath in after && x.notePath in s.store && s.store[x.notePath] == after[x.notePath]
  }

  lemma UpdateIsLocal(g: Config, a: Store, b: Store, x: Indexed, kind: Option<Kind>, classified: Classified)
    requires a.Keys == b.Keys && (x.notePath in a ==> a[x.notePath] == b[x.notePath])
    ensures var t := ApplyUpdate(g, a, x, kind, classified);
            && t.Keys == a.Keys
            && (forall path | path in a && path != x.notePath :: t[path] == a[path])
            && (x.notePath in a ==> t[x.notePath] == ApplyUpdate(g, b, x, kind, classified)[x.notePath])
    ensures ApplyUpdate(g, b, x, kind, classified).Keys == b.Keys
  {
    hide ParseNote, Retagged;
  }

  lemma AnsweredStep(g: Config, batch: seq<Indexed>, s: State)
    requires !Finished(batch, s) && s.backend < |g.backends| && g.answers(|s.tried|).Some? && !g.dryRun
    ensures Step(g, batch, s).store ==
            Verdict(g, s.store, batch[s.index], g.answers(|s.tried|).value, g.backends[s.backend], |s.tried|)
  {
    StepFields(g, batch, s);
    DecisionIsWanted(g, g.answers(|s.tried|).value, batch[s.index].entry);
    hide Step, ApplyUpdate, Provenance, Decide, KindFor, Wanted;
  }

  lemma CallStep(g: Config, batch: seq<Indexed>, s: State)
    requires !Finished(batch, s) && s.backend < |g.backends|
    ensures var t := Step(g, batch, s);
            && t.tried == s.tried + [s.index] && t.used == s.used + [s.backend] && t.index >= s.index
            && (g.answers(|s.tried|).Some? ==> t.index == s.index + 1)
            && (g.answers(|s.tried|).None? || g.dryRun ==> t.store == s.store)
  {
    StepFields(g, batch, s);
    hide Step, ApplyUpdate, Provenance, Decide, KindFor;
  }

  lemma StepKeepsWritten(g: Config, batch: seq<Indexed>, first: Store, s: State)
    requires !Finished(batch, s) && s.backend < |g.backends| && DistinctNotes(batch) && !g.dryRun
    requires CallsOk(g, batch, s) && Written(g, batch, first, s)
    ensures CallsOk(g, batch, Step(g, batch, s)) && Written(g, batch, first, Step(g, batch, s))
  {
    hide Step, Verdict;
    CallStep(g, batch, s);
    var t, c := Step(g, batch, s), |s.tried|;
    if g.answers(c).Some? {
      var x := batch[s.index];
      AnsweredStep(g, batch, s);
      assert x.notePath in first ==> s.store[x.notePath] == first[x.notePath];
      VerdictIsLocal(g, s.store, first, x, g.answers(c).value, g.backends[s.backend], c);
      assert t.tried[c] == s.index;
    }
    forall k: nat | k < c && g.answers(k).Some? && batch[s.tried[k]].notePath in first ensures WrittenBy(g, batch, first, t, k) {
      assert WrittenBy(g, batch, first, s, k);
    }
    forall path | path in first && t.store[path] != first[path]
      ensures exists k: nat :: k < |t.tried| && g.answers(k).Some? && batch[t.tried[k]].notePath == path
    {
      if s.store[path] != first[path] {
        var k: nat :| k < c && g.answers(k).Some? && batch[s.tried[k]].notePath == path;
        assert t.tried[k] == s.tried[k];
      }
    }
  }

  lemma VerdictIsLocal(g: Config, a: Store, b: Store, x: Indexed, answer: Answer, backend: string, call: nat)
    requires a.Keys == b.Keys && (x.notePath in a ==> a[x.notePath] == b[x.notePath])
    ensures var t := Verdict(g, a, x, answer, backend, call);
            && t.Keys == a.Keys
            && (forall path | path in a && path != x.notePath :: t[path] == a[path])
            && (x.notePath in a ==> t[x.notePath] == Verdict(g, b, x, answer, backend, call)[x.notePath])
    ensures Verdict(g, b, x, answer, backend, call).Keys == b.Keys
  {
    UpdateIsLocal(g, a, b, x, Wanted(g, answer, x.entry), Provenance(g, backend, answer, call));
    hide ApplyUpdate;
  }

  /** A run changes no file but those of the records it got an answer for, and
      each of those holds what the one verdict on it made of its first content. */
  lemma {:induction false} RunWritesVerdicts(g: Config, batch: seq<Indexed>, first: Store, n: nat)
    requires DistinctNotes(batch) && !g.dryRun
    ensures var s := Iterate(g, batch, first, n); CallsOk(g, batch, s) && Written(g, batch, first, s)
    decreases n
  {
    hide Step, Finished, Written;
    if n == 0 {
      assert Written(g, batch, first, Start(g, first)) by { NothingWritten(g, batch, first); }
    } else {
      RunWritesVerdicts(g, batch, first, n - 1);
      var s := Iterate(g, batch, first, n - 1);
      if Finished(batch, s) || s.backend >= |g.backends| {
        StepNothing(g, batch, s);
      } else {
        StepKeepsWritten(g, batch, first, s);
      }
    }
  }

  lemma NothingWritten(g: Config, batch: seq<Indexed>, first: Store)
    ensures CallsOk(g, batch, Start(g, first)) && Written(g, batch, first, Start(g, first))
  {
  }

  // -------------------------------------------------------------- which records

  /** A batch is the oldest records owed a verdict, as many as the limit allows:
      none that is left out is older than one that is taken. */
  lemma BatchIsOldest(g: Config, entries: seq<Indexed>, limit: nat)
    ensures var batch := Batch(g, entries, limit);
            && |batch| == (if limit < |Pending(g.version, entries)| then limit else |Pending(g.version, entries)|)
            && (forall x | x in batch :: x in entries && Owed(g.version, x))
            && (forall x, y | x in batch && y in entries && Owed(g.version, y) && y !in batch ::
                  StringLe(x.entry.createdAt, y.entry.createdAt))
            && (forall j, k | 0 <= j < k < |batch| :: StringLe(batch[j].entry.createdAt, batch[k].entry.createdAt))
  {
    hide Owed;
    PendingExact(g.version, entries);
    hide Pending, StringLe;
    var pending, batch := Pending(g.version, entries), Batch(g, entries, limit);
    assert forall x | x in batch :: x in pending;
    forall x, y | x in batch && y in entries && Owed(g.version, y) && y !in batch
      ensures StringLe(x.entry.createdAt, y.entry.createdAt)
    {
      var j :| 0 <= j < |batch| && batch[j] == x;
      var k :| 0 <= k < |pending| && pending[k] == y;
      assert forall m | 0 <= m < |batch| :: batch[m] == pending[m] && batch[m] != y;
      assert OlderFirst(pending[j], pending[k]);
    }
    forall j, k | 0 <= j < k < |batch| ensures StringLe(batch[j].entry.createdAt, batch[k].entry.createdAt) {
      assert OlderFirst(pending[j], pending[k]);
    }
  }
}