/** One session's hook state: what each hook's mutator does to it, and what a
    whole history of mutators adds up to. */
module HookState {
  import opened Wrappers
  import opened Sorting

  type U64 = n: nat | n < 0x1_0000_0000_0000_0000

  const WORD: nat := 0x1_0000_0000_0000_0000

  datatype Delivered = Delivered(id: string, digest: string)

  datatype RecallTopic = RecallTopic(query: string, storeKey: string, projectId: Option<string>)

  /** The persisted record. */
  datatype State = State(
    recallTopic: Option<RecallTopic>,
    memoryPending: bool,
    pendingReason: Option<string>,
    updatedAt: Option<string>,
    refreshedReceipts: nat,
    contextKey: Option<string>,
    startupIds: seq<string>,
    recallKey: Option<string>,
    recallIds: seq<string>,
    recallUpdatedAt: Option<string>,
    delivered: seq<Delivered>,
    deliveredContextKey: Option<string>,
    deliveredRecallKey: Option<string>,
    turnRecallIds: seq<string>,
    turnContextIds: seq<string>,
    epoch: U64,
    epochStartedAt: Option<string>)
  {
    predicate HasDelivered(id: string, digest: string) {
      Delivered(id, digest) in delivered
    }
  }

  const DEFAULT: State :=
    State(None, false, None, None, 0, None, [], None, [], None, [], None, None, [], [], 0, None)

  /** Bookkeeping a hook applies after writing its response. */
  datatype Update = Update(
    epoch: U64,
    memories: seq<Delivered>,
    contextKey: Option<string>,
    recallKey: Option<string>,
    turnRecallIds: seq<string>,
    turnContextIds: Option<seq<string>>,
    untrackedContextKey: Option<string>,
    untrackedContextIds: seq<string>,
    untrackedRecallKey: Option<string>,
    untrackedRecallIds: seq<string>)

  /** One mutator call; `now` is the clock it reads and `accepted` whether the
      topic passed validation. */
  datatype Op =
    | MarkPending(reason: string, now: string)
    | MarkSatisfied(now: string)
    | MarkRefreshed(count: nat, clearPending: bool, now: string)
    | MarkContextKey(key: string, now: string)
    | MarkStartup(key: string, ids: seq<string>, now: string)
    | MarkRecall(key: string, ids: seq<string>, recallNow: string, now: string)
    | ResetEpoch(now: string)
    | SetTopic(epoch: U64, topic: Option<RecallTopic>, accepted: bool, now: string)
    | Deliver(update: Update, now: string)

  predicate DeliveredLe(a: Delivered, b: Delivered) {
    if a.id == b.id then StringLe(a.digest, b.digest) else StringLe(a.id, b.id)
  }

  const DeliveredOrder: (Delivered, Delivered) -> bool := (a, b) => DeliveredLe(a, b)

  function Merge(ids: seq<string>, more: seq<string>): seq<string> {
    SortDedup(StringOrder, ids + more)
  }

  function MergeDelivered(all: seq<Delivered>, more: seq<Delivered>): seq<Delivered> {
    SortDedup(DeliveredOrder, all + more)
  }

  function Ids(all: seq<Delivered>): (ids: seq<string>)
    ensures |ids| == |all| && forall i | 0 <= i < |all| :: ids[i] == all[i].id
  {
    seq(|all|, i requires 0 <= i < |all| => all[i].id)
  }

  function DeliverMemories(s: State, u: Update): State {
    var t := if u.memories == [] then s else s.(delivered := MergeDelivered(s.delivered, u.memories));
    t.(deliveredContextKey := if u.contextKey.Some? then u.contextKey else s.deliveredContextKey,
       deliveredRecallKey := if u.recallKey.Some? then u.recallKey else s.deliveredRecallKey)
  }

  function DeliverTurn(s: State, u: Update): State {
    s.(turnRecallIds := if u.turnRecallIds == [] then s.turnRecallIds else Merge(s.turnRecallIds, u.turnRecallIds),
       turnContextIds := if u.turnContextIds.Some? then u.turnContextIds.value else s.turnContextIds)
  }

  /** Untracked fields stay as untracked hooks would have left them: a new
      selection replaces the old ids, the same one extends them, and whatever
      is still visible counts as sent. */
  function DeliverUntrackedContext(s: State, u: Update): State {
    if u.untrackedContextKey.None? then s
    else
      var kept := if s.contextKey == u.untrackedContextKey then s.startupIds else [];
      s.(contextKey := u.untrackedContextKey, startupIds := Merge(kept + u.untrackedContextIds, Ids(s.delivered)))
  }

  function DeliverUntrackedRecall(s: State, u: Update, now: string): State {
    if u.untrackedRecallKey.None? then s
    else s.(recallKey := u.untrackedRecallKey, recallIds := Merge(s.recallIds, u.untrackedRecallIds),
            recallUpdatedAt := Some(now))
  }

  function ApplyUpdate(s: State, u: Update, now: string): State {
    if u.epoch != s.epoch then s
    else
      DeliverUntrackedRecall(DeliverUntrackedContext(DeliverTurn(DeliverMemories(s, u), u), u), u, now)
      .(updatedAt := Some(now))
  }

  function Apply(s: State, op: Op): State {
    match op
    case MarkPending(reason, now) =>
      s.(memoryPending := true, pendingReason := Some(reason), updatedAt := Some(now))
    case MarkSatisfied(now) =>
      s.(memoryPending := false, pendingReason := None, updatedAt := Some(now))
    case MarkRefreshed(count, clear, now) =>
      var t := s.(refreshedReceipts := if count > s.refreshedReceipts then count else s.refreshedReceipts,
                  updatedAt := Some(now));
      if clear then t.(memoryPending := false, pendingReason := None) else t
    case MarkContextKey(key, now) => s.(contextKey := Some(key), updatedAt := Some(now))
    case MarkStartup(key, ids, now) => s.(contextKey := Some(key), startupIds := ids, updatedAt := Some(now))
    case MarkRecall(key, ids, recallNow, now) =>
      s.(recallKey := Some(key), recallIds := Merge(s.recallIds, ids),
         recallUpdatedAt := Some(recallNow), updatedAt := Some(now))
    case ResetEpoch(now) =>
      s.(recallTopic := None, delivered := [], deliveredContextKey := None, deliveredRecallKey := None,
         turnRecallIds := [], turnContextIds := [], epoch := (s.epoch + 1) % WORD,
         contextKey := None, startupIds := [], recallKey := None, recallIds := [], recallUpdatedAt := None,
         epochStartedAt := Some(now), updatedAt := Some(now))
    case SetTopic(epoch, topic, accepted, now) =>
      if s.epoch == epoch then s.(recallTopic := if accepted then topic else None, updatedAt := Some(now)) else s
    case Deliver(u, now) => ApplyUpdate(s, u, now)
  }

  /** The state after a history of mutators, starting from no file. */
  function Replay(ops: seq<Op>): State {
    if ops == [] then DEFAULT else Apply(Replay(ops[..|ops| - 1]), ops[|ops| - 1])
  }

  // -------------------------------------------------------- history, restated

  function Resets(ops: seq<Op>): nat {
    if ops == [] then 0 else Resets(ops[..|ops| - 1]) + if ops[|ops| - 1].ResetEpoch? then 1 else 0
  }

  /** Operation `i` delivered `m`, in the epoch current when it committed, and
      no reset has happened since. */
  ghost predicate VisibleAt(ops: seq<Op>, i: nat, m: Delivered) {
    && i < |ops|
    && ops[i].Deliver?
    && m in ops[i].update.memories
    && ops[i].update.epoch == Resets(ops[..i]) % WORD
    && (forall j | i < j < |ops| :: !ops[j].ResetEpoch?)
  }

  ghost predicate Visible(ops: seq<Op>, m: Delivered) {
    exists i: nat :: VisibleAt(ops, i, m)
  }

  ghost predicate Clears(op: Op) {
    op.MarkSatisfied? || (op.MarkRefreshed? && op.clearPending)
  }

  /** Some intent was marked and nothing after it cleared the debt. */
  ghost predicate Owed(ops: seq<Op>, reason: string) {
    exists i ::
      && 0 <= i < |ops|
      && ops[i].MarkPending? && ops[i].reason == reason
      && forall j | i < j < |ops| :: !Clears(ops[j]) && !ops[j].MarkPending?
  }

  lemma DeliveredOrderTotal()
    ensures TotalOrder(DeliveredOrder)
  {
    StringOrderTotal();
    forall a: Delivered, b: Delivered
      ensures DeliveredOrder(a, b) || DeliveredOrder(b, a)
      ensures DeliveredOrder(a, b) && DeliveredOrder(b, a) ==> a == b
    {
      StringLeTotal(a.id, b.id);
      StringLeTotal(a.digest, b.digest);
    }
    forall a: Delivered, b: Delivered, c: Delivered | DeliveredOrder(a, b) && DeliveredOrder(b, c)
      ensures DeliveredOrder(a, c)
    {
      StringLeTotal(a.id, b.id); StringLeTotal(b.id, c.id);
      if a.id == b.id == c.id {
        StringLeTransitive(a.digest, b.digest, c.digest);
      } else if a.id != b.id && b.id != c.id {
        StringLeTransitive(a.id, b.id, c.id);
        StringLeTotal(a.id, c.id);
      }
    }
  }

  /** What one operation does to the fields the histories below speak of. */
  lemma ApplyEffect(s: State, op: Op)
    ensures Apply(s, op).epoch == if op.ResetEpoch? then (s.epoch + 1) % WORD else s.epoch
    ensures Apply(s, op).refreshedReceipts ==
            if op.MarkRefreshed? && op.count > s.refreshedReceipts then op.count else s.refreshedReceipts
    ensures Apply(s, op).memoryPending == (op.MarkPending? || (s.memoryPending && !Clears(op)))
    ensures Apply(s, op).pendingReason ==
            if op.MarkPending? then Some(op.reason) else if Clears(op) then None else s.pendingReason
    ensures Apply(s, op).delivered ==
            if op.ResetEpoch? then []
            else if op.Deliver? && op.update.epoch == s.epoch && op.update.memories != [] then
              MergeDelivered(s.delivered, op.update.memories)
            else s.delivered
    ensures op.Deliver? && op.update.epoch != s.epoch ==> Apply(s, op) == s
    ensures op.SetTopic? && op.epoch != s.epoch ==> Apply(s, op) == s
    ensures op.SetTopic? && op.epoch == s.epoch ==>
              Apply(s, op).recallTopic == if op.accepted then op.topic else None
  {
    if op.Deliver? && op.update.epoch == s.epoch {
      UpdateEffect(s, op.update, op.now);
    }
  }

  lemma UpdateEffect(s: State, u: Update, now: string)
    requires u.epoch == s.epoch
    ensures var t := ApplyUpdate(s, u, now);
            && t.epoch == s.epoch && t.refreshedReceipts == s.refreshedReceipts
            && t.memoryPending == s.memoryPending && t.pendingReason == s.pendingReason
            && t.delivered == if u.memories == [] then s.delivered else MergeDelivered(s.delivered, u.memories)
  {
  }

  lemma {:induction false} EpochCountsResets(ops: seq<Op>)
    ensures Replay(ops).epoch == Resets(ops) % WORD
    decreases |ops|
  {
    hide Apply;
    if ops != [] {
      EpochCountsResets(ops[..|ops| - 1]);
      ApplyEffect(Replay(ops[..|ops| - 1]), ops[|ops| - 1]);
      NextResidue(Resets(ops[..|ops| - 1]));
    }
  }

  lemma NextResidue(n: nat)
    ensures (n % WORD + 1) % WORD == (n + 1) % WORD
  {
  }

  /** The delivered set is exact: strictly sorted, so free of duplicates, and
      precisely the memories visible in the current epoch of the history. */
  lemma {:induction false} DeliveredExact(ops: seq<Op>)
    ensures StrictlySorted(DeliveredOrder, Replay(ops).delivered)
    ensures forall m :: m in Replay(ops).delivered <==> Visible(ops, m)
    decreases |ops|
  {
    hide Apply;
    if ops != [] {
      var n := |ops| - 1;
      var before, op := Replay(ops[..n]), ops[n];
      DeliveredExact(ops[..n]);
      EpochCountsResets(ops[..n]);
      ApplyEffect(before, op);
      DeliveredOrderTotal();
      if op.Deliver? {
        SortDedupCanonical(DeliveredOrder, before.delivered + op.update.memories);
      }
      forall m ensures m in Replay(ops).delivered <==> Visible(ops, m) {
        VisibleStep(ops, m);
      }
    }
  }

  /** How one more operation changes what is visible. */
  lemma VisibleStep(ops: seq<Op>, m: Delivered)
    requires ops != []
    ensures var n := |ops| - 1;
            Visible(ops, m) <==>
              !ops[n].ResetEpoch? &&
              (Visible(ops[..n], m) ||
               (ops[n].Deliver? && m in ops[n].update.memories && ops[n].update.epoch == Resets(ops[..n]) % WORD))
  {
    var n := |ops| - 1;
    if Visible(ops, m) {
      var i: nat :| VisibleAt(ops, i, m);
      assert i < n ==> ops[..n][..i] == ops[..i];
      assert i < n ==> VisibleAt(ops[..n], i, m);
    }
    if Visible(ops[..n], m) && !ops[n].ResetEpoch? {
      var i: nat :| VisibleAt(ops[..n], i, m);
      assert ops[..n][..i] == ops[..i];
      assert VisibleAt(ops, i, m);
    }
    if ops[n].Deliver? && m in ops[n].update.memories && ops[n].update.epoch == Resets(ops[..n]) % WORD {
      assert VisibleAt(ops, n, m);
    }
  }

  /** The receipt cursor is the largest count any worker reported, whatever the
      order they finished in and however many resets happened meanwhile. */
  lemma {:induction false} CursorIsMaximum(ops: seq<Op>)
    ensures forall i | 0 <= i < |ops| && ops[i].MarkRefreshed? :: ops[i].count <= Replay(ops).refreshedReceipts
    ensures Replay(ops).refreshedReceipts == 0 ||
            exists i :: 0 <= i < |ops| && ops[i].MarkRefreshed? && ops[i].count == Replay(ops).refreshedReceipts
    decreases |ops|
  {
    hide Apply;
    if ops != [] {
      var n := |ops| - 1;
      CursorIsMaximum(ops[..n]);
      ApplyEffect(Replay(ops[..n]), ops[n]);
      var before := Replay(ops[..n]).refreshedReceipts;
      if before != 0 {
        var i :| 0 <= i < n && ops[..n][i].MarkRefreshed? && ops[..n][i].count == before;
        assert ops[i] == ops[..n][i];
      }
    }
  }

  /** Durable-memory debt is pending exactly when some marked intent has not
      been cleared since, with that intent's reason; resets do not touch it. */
  lemma {:induction false} DebtExact(ops: seq<Op>)
    ensures Replay(ops).memoryPending <==> exists reason :: Owed(ops, reason)
    ensures Replay(ops).memoryPending <==> Replay(ops).pendingReason.Some?
    ensures forall reason :: Owed(ops, reason) <==> Replay(ops).pendingReason == Some(reason)
    decreases |ops|
  {
    hide Apply;
    if ops != [] {
      var n := |ops| - 1;
      DebtExact(ops[..n]);
      ApplyEffect(Replay(ops[..n]), ops[n]);
      forall reason
        ensures Owed(ops, reason) <==> Replay(ops).pendingReason == Some(reason)
      {
        OwedStep(ops, reason);
      }
      if Replay(ops).memoryPending {
        assert Owed(ops, Replay(ops).pendingReason.value);
      }
    }
  }

  lemma OwedStep(ops: seq<Op>, reason: string)
    requires ops != []
    ensures var n := |ops| - 1;
            Owed(ops, reason) <==>
              (ops[n].MarkPending? && ops[n].reason == reason) ||
              (!ops[n].MarkPending? && !Clears(ops[n]) && Owed(ops[..n], reason))
  {
  }

  lemma RecallFields(s: State, key: string, ids: seq<string>, recallNow: string, now: string)
    ensures Apply(s, MarkRecall(key, ids, recallNow, now)) ==
            s.(recallKey := Some(key), recallIds := Merge(s.recallIds, ids),
               recallUpdatedAt := Some(recallNow), updatedAt := Some(now))
  {
  }

  lemma {:induction false} ResetsAppend(a: seq<Op>, b: seq<Op>)
    ensures Resets(a + b) == Resets(a) + Resets(b)
    decreases |b|
  {
    if b == [] {
      assert a + b == a;
    } else {
      assert (a + b)[..|a + b| - 1] == a + b[..|b| - 1];
      ResetsAppend(a, b[..|b| - 1]);
    }
  }

  /** Bookkeeping stamped with the epoch of one moment and committed later is
      dropped whole when the number of resets in between is not a multiple of
      2^64.  When it is, the stamp is current: the update does all that one made
      now would do, field by field, and delivers every memory it carries. */
  lemma StaleUpdate(early: seq<Op>, between: seq<Op>, u: Update, now: string)
    requires u.epoch == Replay(early).epoch
    ensures var s := Replay(early + between);
            var t := Apply(s, Deliver(u, now));
            if Resets(between) % WORD != 0 then t == s
            else
              && u.epoch == s.epoch
              && t == Apply(s, Deliver(u.(epoch := s.epoch), now))
              && t.updatedAt == Some(now)
              && (forall m | m in u.memories :: m in t.delivered)
              && (u.contextKey.Some? ==> t.deliveredContextKey == u.contextKey)
              && (u.recallKey.Some? ==> t.deliveredRecallKey == u.recallKey)
              && (forall id | id in u.turnRecallIds :: id in t.turnRecallIds)
              && (u.turnContextIds.Some? ==> t.turnContextIds == u.turnContextIds.value)
              && (u.untrackedContextKey.Some? ==>
                    t.contextKey == u.untrackedContextKey && forall id | id in u.untrackedContextIds :: id in t.startupIds)
              && (u.untrackedRecallKey.Some? ==>
                    t.recallKey == u.untrackedRecallKey && forall id | id in u.untrackedRecallIds :: id in t.recallIds)
  {
    hide Apply, Replay, Resets, MergeDelivered, Merge;
    var s := Replay(early + between);
    ApplyEffect(s, Deliver(u, now));
    EpochCountsResets(early);
    EpochCountsResets(early + between);
    ResetsAppend(early, between);
    SameResidue(Resets(early), Resets(between));
    MergeKeepsNew(s.delivered, u.memories);
    if Resets(between) % WORD == 0 { CurrentUpdate(s, u, now); }
  }

  lemma MergeKeepsIds(ids: seq<string>, more: seq<string>)
    ensures forall id | id in ids || id in more :: id in Merge(ids, more)
  {
    StringOrderTotal();
    SortDedupCanonical(StringOrder, ids + more);
    assert forall id | id in ids || id in more :: id in ids + more;
  }

  /** Everything an update with the current stamp carries is in the state. */
  lemma CurrentUpdate(s: State, u: Update, now: string)
    requires u.epoch == s.epoch
    ensures var t := Apply(s, Deliver(u, now));
            && t.updatedAt == Some(now)
            && (u.contextKey.Some? ==> t.deliveredContextKey == u.contextKey)
            && (u.recallKey.Some? ==> t.deliveredRecallKey == u.recallKey)
            && (forall id | id in u.turnRecallIds :: id in t.turnRecallIds)
            && (u.turnContextIds.Some? ==> t.turnContextIds == u.turnContextIds.value)
            && (u.untrackedContextKey.Some? ==>
                  t.contextKey == u.untrackedContextKey && forall id | id in u.untrackedContextIds :: id in t.startupIds)
            && (u.untrackedRecallKey.Some? ==>
                  t.recallKey == u.untrackedRecallKey && forall id | id in u.untrackedRecallIds :: id in t.recallIds)
  {
    UpdateFields(s, u, now);
    hide Apply, Merge, Ids;
    var t := Apply(s, Deliver(u, now));
    var kept := if s.contextKey == u.untrackedContextKey then s.startupIds else [];
    MergeKeepsIds(s.turnRecallIds, u.turnRecallIds);
    MergeKeepsIds(kept + u.untrackedContextIds, Ids(t.delivered));
    MergeKeepsIds(s.recallIds, u.untrackedRecallIds);
    assert forall id | id in u.untrackedContextIds :: id in kept + u.untrackedContextIds;
  }

  lemma UpdateFields(s: State, u: Update, now: string)
    requires u.epoch == s.epoch
    ensures var t := Apply(s, Deliver(u, now));
            && t.updatedAt == Some(now)
            && (u.contextKey.Some? ==> t.deliveredContextKey == u.contextKey)
            && (u.recallKey.Some? ==> t.deliveredRecallKey == u.recallKey)
            && (u.turnRecallIds != [] ==> t.turnRecallIds == Merge(s.turnRecallIds, u.turnRecallIds))
            && (u.turnContextIds.Some? ==> t.turnContextIds == u.turnContextIds.value)
            && (u.untrackedContextKey.Some? ==>
                  var kept := if s.contextKey == u.untrackedContextKey then s.startupIds else [];
                  && t.contextKey == u.untrackedContextKey
                  && t.startupIds == Merge(kept + u.untrackedContextIds, Ids(t.delivered)))
            && (u.untrackedRecallKey.Some? ==>
                  t.recallKey == u.untrackedRecallKey && t.recallIds == Merge(s.recallIds, u.untrackedRecallIds))
  {
    hide Merge, MergeDelivered, Ids;
    var a := DeliverTurn(DeliverMemories(s, u), u);
    assert a.contextKey == s.contextKey && a.startupIds == s.startupIds && a.recallIds == s.recallIds;
  }

  lemma MergeKeepsNew(all: seq<Delivered>, more: seq<Delivered>)
    ensures forall m | m in more :: m in MergeDelivered(all, more)
  {
    DeliveredOrderTotal();
    SortDedupCanonical(DeliveredOrder, all + more);
    assert forall m | m in more :: m in all + more;
  }

  /** The same for a recall topic. */
  lemma StaleTopic(early: seq<Op>, between: seq<Op>, topic: Option<RecallTopic>, accepted: bool, now: string)
    ensures var s := Replay(early + between);
            var t := Apply(s, SetTopic(Replay(early).epoch, topic, accepted, now));
            if Resets(between) % WORD != 0 then t == s
            else t.recallTopic == (if accepted then topic else None)
  {
    hide Apply, Replay, Resets;
    ApplyEffect(Replay(early + between), SetTopic(Replay(early).epoch, topic, accepted, now));
    EpochCountsResets(early);
    EpochCountsResets(early + between);
    ResetsAppend(early, between);
    SameResidue(Resets(early), Resets(between));
  }

  lemma SameResidue(a: nat, b: nat)
    ensures (a + b) % WORD == a % WORD <==> b % WORD == 0
  {
  }

  // ------------------------------------------------------- what a reset forgets

  /** A reset leaves a new session with the next epoch number: of what was there
      only the debt and the receipt cursor remain. */
  lemma ResetForgets(s: State, now: string)
    ensures Apply(s, ResetEpoch(now)) ==
            DEFAULT.(memoryPending := s.memoryPending, pendingReason := s.pendingReason,
                     refreshedReceipts := s.refreshedReceipts, epoch := (s.epoch + 1) % WORD,
                     epochStartedAt := Some(now), updatedAt := Some(now))
  {
  }

  /** Equal in everything but debt and receipts. */
  ghost predicate SameView(s: State, t: State) {
    s.(memoryPending := t.memoryPending, pendingReason := t.pendingReason, refreshedReceipts := t.refreshedReceipts) == t
  }

  lemma ApplyKeepsSameView(s: State, t: State, op: Op)
    requires SameView(s, t)
    ensures SameView(Apply(s, op), Apply(t, op))
  {
    hide Merge, ApplyUpdate;
    if op.Deliver? { UpdateKeepsSameView(s, t, op.update, op.now); }
  }

  lemma UpdateKeepsSameView(s: State, t: State, u: Update, now: string)
    requires SameView(s, t)
    ensures SameView(ApplyUpdate(s, u, now), ApplyUpdate(t, u, now))
  {
    hide DeliverMemories, DeliverTurn, DeliverUntrackedContext, DeliverUntrackedRecall;
    if u.epoch == s.epoch {
      var a, b := DeliverTurn(DeliverMemories(s, u), u), DeliverTurn(DeliverMemories(t, u), u);
      TurnKeepsSameView(s, t, u);
      UntrackedKeepsSameView(a, b, u, now);
    }
  }

  lemma TurnKeepsSameView(s: State, t: State, u: Update)
    requires SameView(s, t)
    ensures SameView(DeliverTurn(DeliverMemories(s, u), u), DeliverTurn(DeliverMemories(t, u), u))
  {
    hide Merge, MergeDelivered;
  }

  lemma UntrackedKeepsSameView(s: State, t: State, u: Update, now: string)
    requires SameView(s, t)
    ensures SameView(DeliverUntrackedRecall(DeliverUntrackedContext(s, u), u, now), DeliverUntrackedRecall(DeliverUntrackedContext(t, u), u, now))
  {
    hide Merge, Ids;
  }

  /** What the session knows of the model's view after a reset depends only on
      what happened since, whatever came before. */
  lemma {:induction false} OnlySinceReset(a: seq<Op>, b: seq<Op>, now: string, since: seq<Op>)
    requires Resets(a) % WORD == Resets(b) % WORD
    ensures SameView(Replay(a + [ResetEpoch(now)] + since), Replay(b + [ResetEpoch(now)] + since))
    decreases |since|
  {
    hide Apply, SameView;
    var x, y := a + [ResetEpoch(now)], b + [ResetEpoch(now)];
    if since == [] {
      assert x + since == x && y + since == y && x[..|a|] == a && y[..|b|] == b;
      EpochCountsResets(a);
      EpochCountsResets(b);
      ResetForgets(Replay(a), now);
      ResetForgets(Replay(b), now);
      SameDefault(Replay(x), Replay(y));
    } else {
      var n := |since| - 1;
      OnlySinceReset(a, b, now, since[..n]);
      assert (x + since)[..|x + since| - 1] == x + since[..n] && (y + since)[..|y + since| - 1] == y + since[..n];
      ApplyKeepsSameView(Replay(x + since[..n]), Replay(y + since[..n]), since[n]);
    }
  }

  lemma SameDefault(s: State, t: State)
    requires s == t.(memoryPending := s.memoryPending, pendingReason := s.pendingReason, refreshedReceipts := s.refreshedReceipts)
    ensures SameView(s, t)
  {
  }

  /** The operation brings this id to the recall list, or to the turn's. */
  ghost predicate Brings(op: Op, epoch: nat, turn: bool, id: string) {
    if turn then op.Deliver? && op.update.epoch == epoch && id in op.update.turnRecallIds
    else
      || (op.MarkRecall? && id in op.ids)
      || (op.Deliver? && op.update.epoch == epoch && op.update.untrackedRecallKey.Some? && id in op.update.untrackedRecallIds)
  }

  ghost predicate BroughtAt(ops: seq<Op>, i: nat, turn: bool, id: string) {
    i < |ops| && Brings(ops[i], Resets(ops[..i]) % WORD, turn, id) && forall j | i < j < |ops| :: !ops[j].ResetEpoch?
  }

  ghost predicate Brought(ops: seq<Op>, turn: bool, id: string) {
    exists i: nat :: BroughtAt(ops, i, turn, id)
  }

  lemma BroughtStep(ops: seq<Op>, turn: bool, id: string)
    requires ops != []
    ensures var n := |ops| - 1;
            Brought(ops, turn, id) <==>
              !ops[n].ResetEpoch? && (Brought(ops[..n], turn, id) || Brings(ops[n], Resets(ops[..n]) % WORD, turn, id))
  {
    var n := |ops| - 1;
    if Brought(ops, turn, id) {
      var i: nat :| BroughtAt(ops, i, turn, id);
      assert i < n ==> ops[..n][..i] == ops[..i];
      assert i < n ==> BroughtAt(ops[..n], i, turn, id);
    }
    if Brought(ops[..n], turn, id) && !ops[n].ResetEpoch? {
      var i: nat :| BroughtAt(ops[..n], i, turn, id);
      assert ops[..n][..i] == ops[..i];
      assert BroughtAt(ops, i, turn, id);
    }
    if Brings(ops[n], Resets(ops[..n]) % WORD, turn, id) && !ops[n].ResetEpoch? {
      assert BroughtAt(ops, n, turn, id);
    }
  }

  lemma IdsEffect(s: State, op: Op, id: string)
    ensures id in Apply(s, op).recallIds <==> !op.ResetEpoch? && (id in s.recallIds || Brings(op, s.epoch, false, id))
    ensures id in Apply(s, op).turnRecallIds <==> !op.ResetEpoch? && (id in s.turnRecallIds || Brings(op, s.epoch, true, id))
  {
    if op.MarkRecall? { MergeExact(s.recallIds, op.ids, id); }
    if op.Deliver? && op.update.epoch == s.epoch {
      MergeExact(s.recallIds, op.update.untrackedRecallIds, id);
      MergeExact(s.turnRecallIds, op.update.turnRecallIds, id);
      UpdateIds(s, op.update, op.now);
    }
    hide Merge, MergeDelivered, ApplyUpdate;
  }

  lemma MergeExact(ids: seq<string>, more: seq<string>, id: string)
    ensures id in Merge(ids, more) <==> id in ids || id in more
  {
    StringOrderTotal();
    SortDedupCanonical(StringOrder, ids + more);
  }

  lemma UpdateIds(s: State, u: Update, now: string)
    requires u.epoch == s.epoch
    ensures var t := ApplyUpdate(s, u, now);
            && t.recallIds == (if u.untrackedRecallKey.Some? then Merge(s.recallIds, u.untrackedRecallIds) else s.recallIds)
            && t.turnRecallIds == (if u.turnRecallIds != [] then Merge(s.turnRecallIds, u.turnRecallIds) else s.turnRecallIds)
  {
    hide Merge, MergeDelivered, Ids;
  }

  /** The ids that suppress a later recall are exactly those that a recall or a
      current delivery brought since the last reset, and the turn's likewise. */
  lemma {:induction false} RecallIdsExact(ops: seq<Op>)
    ensures forall id :: id in Replay(ops).recallIds <==> Brought(ops, false, id)
    ensures forall id :: id in Replay(ops).turnRecallIds <==> Brought(ops, true, id)
    decreases |ops|
  {
    hide Apply, Brings;
    if ops != [] {
      var n := |ops| - 1;
      RecallIdsExact(ops[..n]);
      EpochCountsResets(ops[..n]);
      forall id
        ensures id in Replay(ops).recallIds <==> Brought(ops, false, id)
        ensures id in Replay(ops).turnRecallIds <==> Brought(ops, true, id)
      {
        BroughtStep(ops, false, id);
        BroughtStep(ops, true, id);
        IdsEffect(Replay(ops[..n]), ops[n], id);
      }
    }
  }

  // ------------------------------------------------------------ last write wins

  datatype Slot = ContextKey | RecallKey | RecallTime | DeliveredContext | DeliveredRecall

  function SlotValue(s: State, slot: Slot): Option<string> {
    match slot
    case ContextKey => s.contextKey
    case RecallKey => s.recallKey
    case RecallTime => s.recallUpdatedAt
    case DeliveredContext => s.deliveredContextKey
    case DeliveredRecall => s.deliveredRecallKey
  }

  /** What the operation puts into the slot, if anything. */
  ghost predicate Writes(op: Op, epoch: nat, slot: Slot, key: string) {
    || (slot.ContextKey? && (op.MarkContextKey? || op.MarkStartup?) && op.key == key)
    || (slot.RecallKey? && op.MarkRecall? && op.key == key)
    || (slot.RecallTime? && op.MarkRecall? && op.recallNow == key)
    || (op.Deliver? && op.update.epoch == epoch
        && Some(key) == match slot
                        case ContextKey => op.update.untrackedContextKey
                        case RecallKey => op.update.untrackedRecallKey
                        case RecallTime => if op.update.untrackedRecallKey.Some? then Some(op.now) else None
                        case DeliveredContext => op.update.contextKey
                        case DeliveredRecall => op.update.recallKey)
  }

  ghost predicate WritesSome(op: Op, epoch: nat, slot: Slot) {
    exists key :: Writes(op, epoch, slot, key)
  }

  lemma SlotEffect(s: State, op: Op, slot: Slot)
    ensures op.ResetEpoch? ==> SlotValue(Apply(s, op), slot) == None
    ensures forall key | Writes(op, s.epoch, slot, key) :: SlotValue(Apply(s, op), slot) == Some(key)
    ensures !op.ResetEpoch? && !WritesSome(op, s.epoch, slot) ==> SlotValue(Apply(s, op), slot) == SlotValue(s, slot)
  {
    ApplyEffect(s, op);
    hide Merge, ApplyUpdate;
    if op.Deliver? && op.update.epoch == s.epoch {
      UpdateKeys(s, op.update, op.now);
      hide Apply;
      var key := match slot
                 case ContextKey => op.update.untrackedContextKey
                 case RecallKey => op.update.untrackedRecallKey
                 case RecallTime => if op.update.untrackedRecallKey.Some? then Some(op.now) else None
                 case DeliveredContext => op.update.contextKey
                 case DeliveredRecall => op.update.recallKey;
      if key.Some? { assert Writes(op, s.epoch, slot, key.value); }
    } else if op.MarkContextKey? || op.MarkStartup? || op.MarkRecall? {
      assert slot.ContextKey? && !op.MarkRecall? ==> Writes(op, s.epoch, slot, op.key);
      assert slot.RecallKey? && op.MarkRecall? ==> Writes(op, s.epoch, slot, op.key);
      assert slot.RecallTime? && op.MarkRecall? ==> Writes(op, s.epoch, slot, op.recallNow);
    }
  }

  lemma UpdateKeys(s: State, u: Update, now: string)
    requires u.epoch == s.epoch
    ensures var t := Apply(s, Deliver(u, now));
            && t.contextKey == (if u.untrackedContextKey.Some? then u.untrackedContextKey else s.contextKey)
            && t.recallKey == (if u.untrackedRecallKey.Some? then u.untrackedRecallKey else s.recallKey)
            && t.recallUpdatedAt == (if u.untrackedRecallKey.Some? then Some(now) else s.recallUpdatedAt)
            && t.deliveredContextKey == (if u.contextKey.Some? then u.contextKey else s.deliveredContextKey)
            && t.deliveredRecallKey == (if u.recallKey.Some? then u.recallKey else s.deliveredRecallKey)
  {
    hide Merge, MergeDelivered, Ids;
  }

  ghost predicate LastWrite(ops: seq<Op>, i: nat, slot: Slot, key: string) {
    && i < |ops| && Writes(ops[i], Resets(ops[..i]) % WORD, slot, key)
    && forall j | i < j < |ops| :: !ops[j].ResetEpoch? && !WritesSome(ops[j], Resets(ops[..j]) % WORD, slot)
  }

  ghost predicate LastWritten(ops: seq<Op>, slot: Slot, key: string) {
    exists i: nat :: LastWrite(ops, i, slot, key)
  }

  lemma LastWriteStep(ops: seq<Op>, slot: Slot, key: string)
    requires ops != []
    ensures var n := |ops| - 1;
            LastWritten(ops, slot, key) <==>
              Writes(ops[n], Resets(ops[..n]) % WORD, slot, key)
              || (!ops[n].ResetEpoch? && !WritesSome(ops[n], Resets(ops[..n]) % WORD, slot) && LastWritten(ops[..n], slot, key))
  {
    hide Writes, WritesSome, Resets;
    var n := |ops| - 1;
    forall j | 0 <= j < n ensures ops[..n][..j] == ops[..j] && ops[..n][j] == ops[j] {}
    if LastWritten(ops, slot, key) {
      var i: nat :| LastWrite(ops, i, slot, key);
      assert i < n ==> LastWrite(ops[..n], i, slot, key);
    }
    if Writes(ops[n], Resets(ops[..n]) % WORD, slot, key) {
      assert LastWrite(ops, n, slot, key);
    }
    if !ops[n].ResetEpoch? && !WritesSome(ops[n], Resets(ops[..n]) % WORD, slot) && LastWritten(ops[..n], slot, key) {
      var i: nat :| LastWrite(ops[..n], i, slot, key);
      assert LastWrite(ops, i, slot, key);
    }
  }

  /** Each selection key, and the time of the last recall, is the last one written
      since the last reset. */
  lemma {:induction false} LastKeyWins(ops: seq<Op>, slot: Slot)
    ensures forall key :: SlotValue(Replay(ops), slot) == Some(key) <==> LastWritten(ops, slot, key)
    decreases |ops|
  {
    hide Apply, SlotValue, Writes;
    if ops == [] {
      assert SlotValue(DEFAULT, slot) == None by { NoKeys(slot); }
    } else {
      var n := |ops| - 1;
      LastKeyWins(ops[..n], slot);
      EpochCountsResets(ops[..n]);
      SlotEffect(Replay(ops[..n]), ops[n], slot);
      ResetWritesNothing(ops[n], Resets(ops[..n]) % WORD, slot);
      forall key ensures SlotValue(Replay(ops), slot) == Some(key) <==> LastWritten(ops, slot, key) {
        LastWriteStep(ops, slot, key);
      }
    }
  }

  lemma NoKeys(slot: Slot)
    ensures SlotValue(DEFAULT, slot) == None
  {
  }

  lemma ResetWritesNothing(op: Op, epoch: nat, slot: Slot)
    ensures op.ResetEpoch? ==> !WritesSome(op, epoch, slot)
  {
  }

  /** What an untracked session counts as sent: a startup's ids; and after a
      current delivery with an untracked selection, its ids, everything visible,
      and, if the selection is the same as before, what counted already. */
  lemma StartupIdsExact(s: State, op: Op, id: string)
    ensures var t := Apply(s, op);
            var selected := op.Deliver? && op.update.epoch == s.epoch && op.update.untrackedContextKey.Some?;
            id in t.startupIds <==>
              || (op.MarkStartup? && id in op.ids)
              || (selected && (id in op.update.untrackedContextIds || exists m :: m in t.delivered && m.id == id))
              || (id in s.startupIds && !op.MarkStartup? && !op.ResetEpoch?
                  && (selected ==> s.contextKey == op.update.untrackedContextKey))
  {
    ApplyEffect(s, op);
    hide ApplyUpdate, MergeDelivered;
    if op.Deliver? && op.update.epoch == s.epoch {
      var u := op.update;
      UpdateFields(s, u, op.now);
      UpdateStartup(s, u, op.now);
      var t := Apply(s, op);
      var kept := if s.contextKey == u.untrackedContextKey then s.startupIds else [];
      MergeExact(kept + u.untrackedContextIds, Ids(t.delivered), id);
      IdsOf(t.delivered, id);
      hide Apply, Merge, Ids;
    }
  }

  lemma UpdateStartup(s: State, u: Update, now: string)
    requires u.epoch == s.epoch
    ensures u.untrackedContextKey.None? ==> Apply(s, Deliver(u, now)).startupIds == s.startupIds
  {
    hide Merge, MergeDelivered, Ids;
  }

  lemma IdsOf(all: seq<Delivered>, id: string)
    ensures id in Ids(all) <==> exists m :: m in all && m.id == id
  {
    if id in Ids(all) {
      var k :| 0 <= k < |all| && Ids(all)[k] == id;
      assert all[k] in all && all[k].id == id;
    }
    if m :| m in all && m.id == id {
      var k :| 0 <= k < |all| && all[k] == m;
      assert Ids(all)[k] == id;
    }
  }

  // ------------------------------------------------------ the record in memory

  /** The in-memory record every mutator edits field by field. */
  class HookRecord {
    var recallTopic: Option<RecallTopic>
    var memoryPending: bool
    var pendingReason: Option<string>
    var updatedAt: Option<string>
    var refreshedReceipts: nat
    var contextKey: Option<string>
    var startupIds: seq<string>
    var recallKey: Option<string>
    var recallIds: seq<string>
    var recallUpdatedAt: Option<string>
    var delivered: seq<Delivered>
    var deliveredContextKey: Option<string>
    var deliveredRecallKey: Option<string>
    var turnRecallIds: seq<string>
    var turnContextIds: seq<string>
    var epoch: U64
    var epochStartedAt: Option<string>

    function View(): State
      reads this
    {
      State(recallTopic, memoryPending, pendingReason, updatedAt, refreshedReceipts, contextKey, startupIds,
            recallKey, recallIds, recallUpdatedAt, delivered, deliveredContextKey, deliveredRecallKey,
            turnRecallIds, turnContextIds, epoch, epochStartedAt)
    }

    constructor Load(s: State)
      ensures View() == s
    {
      recallTopic, memoryPending, pendingReason, updatedAt := s.recallTopic, s.memoryPending, s.pendingReason, s.updatedAt;
      refreshedReceipts, contextKey, startupIds := s.refreshedReceipts, s.contextKey, s.startupIds;
      recallKey, recallIds, recallUpdatedAt := s.recallKey, s.recallIds, s.recallUpdatedAt;
      delivered, deliveredContextKey, deliveredRecallKey := s.delivered, s.deliveredContextKey, s.deliveredRecallKey;
      turnRecallIds, turnContextIds, epoch, epochStartedAt := s.turnRecallIds, s.turnContextIds, s.epoch, s.epochStartedAt;
    }

    method MarkMemoryPending(reason: string, now: string)
      modifies this
      ensures View() == Apply(old(View()), MarkPending(reason, now))
    {
      memoryPending := true;
      pendingReason := Some(reason);
      updatedAt := Some(now);
    }

    method MarkMemorySatisfied(now: string)
      modifies this
      ensures View() == Apply(old(View()), MarkSatisfied(now))
    {
      memoryPending := false;
      pendingReason := None;
      updatedAt := Some(now);
    }

    method MarkReceiptsRefreshed(count: nat, clear: bool, now: string)
      modifies this
      ensures View() == Apply(old(View()), MarkRefreshed(count, clear, now))
    {
      if count > refreshedReceipts { refreshedReceipts := count; }
      if clear {
        memoryPending := false;
        pendingReason := None;
      }
      updatedAt := Some(now);
    }

    method MarkContext(key: string, now: string)
      modifies this
      ensures View() == Apply(old(View()), MarkContextKey(key, now))
    {
      contextKey := Some(key);
      updatedAt := Some(now);
    }

    method MarkStartupContext(key: string, ids: seq<string>, now: string)
      modifies this
      ensures View() == Apply(old(View()), MarkStartup(key, ids, now))
    {
      contextKey := Some(key);
      startupIds := ids;
      updatedAt := Some(now);
    }

    method MarkPromptRecall(key: string, ids: seq<string>, recallNow: string, now: string)
      modifies this
      ensures View() == Apply(old(View()), MarkRecall(key, ids, recallNow, now))
    {
      var merged := recallIds + ids;
      merged := StableSort(StringOrder, merged);
      merged := Dedup(merged);
      RecallFields(View(), key, ids, recallNow, now);
      assert merged == Merge(recallIds, ids);
      hide Merge, StableSort, Dedup, Apply;
      recallKey := Some(key);
      recallIds := merged;
      recallUpdatedAt := Some(recallNow);
      updatedAt := Some(now);
    }

    method ClearTracked()
      modifies `recallTopic, `delivered, `deliveredContextKey, `deliveredRecallKey, `turnRecallIds, `turnContextIds, `epoch
      ensures recallTopic == None && delivered == [] && deliveredContextKey == None && deliveredRecallKey == None
      ensures turnRecallIds == [] && turnContextIds == [] && epoch == (old(epoch) + 1) % WORD
    {
      recallTopic, delivered, deliveredContextKey, deliveredRecallKey := None, [], None, None;
      turnRecallIds, turnContextIds, epoch := [], [], (epoch + 1) % WORD;
    }

    method ResetContextEpoch(now: string)
      modifies this
      ensures View() == Apply(old(View()), ResetEpoch(now))
    {
      ClearTracked();
      contextKey, startupIds := None, [];
      recallKey, recallIds, recallUpdatedAt := None, [], None;
      epochStartedAt, updatedAt := Some(now), Some(now);
    }

    method SetRecallTopic(stamp: U64, topic: Option<RecallTopic>, accepted: bool, now: string)
      modifies this
      ensures View() == Apply(old(View()), SetTopic(stamp, topic, accepted, now))
    {
      if epoch == stamp {
        recallTopic := if accepted then topic else None;
        updatedAt := Some(now);
      }
    }

    method AddDelivered(u: Update)
      modifies `delivered, `deliveredContextKey, `deliveredRecallKey
      ensures View() == DeliverMemories(old(View()), u)
    {
      hide StableSort, Dedup;
      var merged := delivered;
      if u.memories != [] {
        merged := merged + u.memories;
        merged := StableSort(DeliveredOrder, merged);
        merged := Dedup(merged);
      }
      assert merged == DeliverMemories(View(), u).delivered;
      delivered := merged;
      deliveredContextKey := if u.contextKey.Some? then u.contextKey else deliveredContextKey;
      deliveredRecallKey := if u.recallKey.Some? then u.recallKey else deliveredRecallKey;
    }

    method AddTurn(u: Update)
      modifies `turnRecallIds, `turnContextIds
      ensures View() == DeliverTurn(old(View()), u)
    {
      hide StableSort, Dedup;
      if u.turnRecallIds != [] {
        var merged := turnRecallIds + u.turnRecallIds;
        merged := StableSort(StringOrder, merged);
        turnRecallIds := Dedup(merged);
      }
      if u.turnContextIds.Some? { turnContextIds := u.turnContextIds.value; }
    }

    method AddUntrackedContext(u: Update)
      modifies `contextKey, `startupIds
      ensures View() == DeliverUntrackedContext(old(View()), u)
    {
      hide StableSort, Dedup;
      if u.untrackedContextKey.None? {
        return;
      }
      var ids := if contextKey != u.untrackedContextKey then [] else startupIds;
      ids := ids + u.untrackedContextIds;
      ids := ids + Ids(delivered);
      ids := StableSort(StringOrder, ids);
      ids := Dedup(ids);
      assert ids == DeliverUntrackedContext(View(), u).startupIds;
      contextKey, startupIds := u.untrackedContextKey, ids;
    }

    method AddUntrackedRecall(u: Update, now: string)
      modifies `recallKey, `recallIds, `recallUpdatedAt
      ensures View() == DeliverUntrackedRecall(old(View()), u, now)
    {
      hide StableSort, Dedup;
      if u.untrackedRecallKey.None? {
        return;
      }
      var merged := recallIds + u.untrackedRecallIds;
      merged := StableSort(StringOrder, merged);
      merged := Dedup(merged);
      assert merged == DeliverUntrackedRecall(View(), u, now).recallIds;
      recallKey, recallIds, recallUpdatedAt := u.untrackedRecallKey, merged, Some(now);
    }

    method Touch(now: string)
      modifies `updatedAt
      ensures View() == old(View()).(updatedAt := Some(now))
    {
      updatedAt := Some(now);
    }

    method ApplyDelivery(u: Update, now: string)
      modifies this
      ensures View() == Apply(old(View()), Deliver(u, now))
    {
      hide DeliverMemories, DeliverTurn, DeliverUntrackedContext, DeliverUntrackedRecall;
      if u.epoch != epoch {
        return;
      }
      ghost var before := View();
      assert before.epoch == epoch;
      hide View;
      AddDelivered(u);
      AddTurn(u);
      AddUntrackedContext(u);
      AddUntrackedRecall(u, now);
      Touch(now);
      assert View() == ApplyUpdate(before, u, now);
    }
  }
}
