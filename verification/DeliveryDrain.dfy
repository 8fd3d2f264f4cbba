/** Repeated hooks draining one context: each selects what the session state
    does not list as delivered, sends it, and records the delivery. */
module DeliveryDrain {
  import opened Wrappers
  import opened Sorting
  import opened Text
  import opened HookState
  import P = ContextPacking

  /** `digest` is the digest of a section's rendered body.  Every round has its
      own limit, since other output takes more or less of the hook's, and its
      own time. */
  datatype Setup = Setup(
    limits: nat -> Option<P.Limit>, times: nat -> string, prefix: string, sections: seq<P.Section>,
    digest: P.Section -> string)
  {
    function Key(s: P.Section): Delivered {
      Delivered(s.id, digest(s))
    }

    function Unseen(state: State): P.Section -> bool {
      (s: P.Section) => !state.HasDelivered(s.id, digest(s))
    }
  }

  function Keys(x: Setup, sections: seq<P.Section>): (keys: seq<Delivered>)
    ensures |keys| == |sections| && forall i | 0 <= i < |keys| :: keys[i] == x.Key(sections[i])
  {
    seq(|sections|, i requires 0 <= i < |sections| => x.Key(sections[i]))
  }

  /** What one hook selects. */
  function Selection(x: Setup, round: nat, state: State): P.Subset {
    P.Select(x.limits(round), x.prefix, x.sections, x.Unseen(state))
  }

  /** The bookkeeping applied in the epoch the selection was made in. */
  function Record(x: Setup, round: nat, state: State): State {
    var u := Update(state.epoch, Keys(x, Selection(x, round, state).sections), None, None, [], None, None, [], None, []);
    Apply(state, Deliver(u, x.times(round)))
  }

  function StateAfter(x: Setup, state: State, rounds: nat): State {
    if rounds == 0 then state else Record(x, rounds - 1, StateAfter(x, state, rounds - 1))
  }

  function SentIn(x: Setup, state: State, round: nat): seq<P.Section> {
    Selection(x, round, StateAfter(x, state, round)).sections
  }

  function SentBy(x: Setup, state: State, rounds: nat): seq<P.Section> {
    if rounds == 0 then [] else SentBy(x, state, rounds - 1) + SentIn(x, state, rounds - 1)
  }

  lemma RecordAdds(x: Setup, round: nat, state: State)
    ensures forall m :: m in Record(x, round, state).delivered <==>
                        m in state.delivered || m in Keys(x, Selection(x, round, state).sections)
    ensures Record(x, round, state).epoch == state.epoch
  {
    hide Apply;
    var keys := Keys(x, Selection(x, round, state).sections);
    var u := Update(state.epoch, keys, None, None, [], None, None, [], None, []);
    ApplyEffect(state, Deliver(u, x.times(round)));
    DeliveredOrderTotal();
    SortDedupCanonical(DeliveredOrder, state.delivered + keys);
  }

  /** A selection holds only sections the state does not list yet. */
  lemma SelectionIsUnseen(x: Setup, round: nat, state: State)
    ensures forall s | s in Selection(x, round, state).sections :: s in x.sections && !(x.Key(s) in state.delivered)
  {
  }

  lemma {:induction false} DeliveredGrows(x: Setup, state: State, i: nat, j: nat)
    requires i <= j
    ensures forall m | m in StateAfter(x, state, i).delivered :: m in StateAfter(x, state, j).delivered
    decreases j
  {
    hide Record, Selection;
    if i < j {
      DeliveredGrows(x, state, i, j - 1);
      RecordAdds(x, j - 1, StateAfter(x, state, j - 1));
    }
  }

  /** No text is ever sent under the same id in two different rounds, and nothing
      already delivered before the first round is sent at all. */
  lemma NeverSentTwice(x: Setup, state: State, i: nat, j: nat, a: P.Section, b: P.Section)
    requires i < j && a in SentIn(x, state, i) && b in SentIn(x, state, j)
    ensures x.Key(a) != x.Key(b)
    ensures x.Key(a) !in state.delivered
  {
    hide Record, Selection;
    var atI := StateAfter(x, state, i);
    SelectionIsUnseen(x, i, atI);
    SelectionIsUnseen(x, j, StateAfter(x, state, j));
    DeliveredGrows(x, state, 0, i);
    RecordAdds(x, i, atI);
    assert StateAfter(x, state, i + 1) == Record(x, i, atI);
    DeliveredGrows(x, state, i + 1, j);
    var sent := Selection(x, i, atI).sections;
    var k :| 0 <= k < |sent| && sent[k] == a;
    assert Keys(x, sent)[k] == x.Key(a);
  }

  // -------------------------------------------------------------------- drain

  /** Every section fits the whole hook after the prefix, whatever is left of it
      in a round. */
  ghost predicate Drainable(x: Setup) {
    forall round, s | s in x.sections && x.limits(round).Some? :: P.FitsAlone(x.limits(round).value, x.prefix, s)
  }

  /** The whole hook is left in this round. */
  ghost predicate Full(x: Setup, round: nat) {
    x.limits(round).Some? ==> x.limits(round).value.max >= x.limits(round).value.aloneMax
  }

  ghost function FullRounds(x: Setup, rounds: nat): nat {
    if rounds == 0 then 0 else FullRounds(x, rounds - 1) + if Full(x, rounds - 1) then 1 else 0
  }

  /** With every section fitting alone, a selection is a run of the unseen
      sections from the front; a full round's is empty only when none is unseen. */
  lemma SelectionIsFront(x: Setup, round: nat, state: State)
    requires Drainable(x)
    ensures var todo := Filter(x.Unseen(state), x.sections);
            var sent := Selection(x, round, state).sections;
            sent <= todo && (Full(x, round) && todo != [] ==> sent != [])
  {
    var todo := Filter(x.Unseen(state), x.sections);
    NoneOversized(x, round);
    hide P.Oversized, P.Fits, P.FitCount, P.Page, P.FitsAlone;
    FilterEverything(P.Whole(x.limits(round), x.prefix), todo[..P.FitCount(x.limits(round), x.prefix, todo)]);
    if todo != [] && Full(x, round) {
      assert todo[0] in x.sections;
      FitsNow(x, round, todo[0]);
      FirstFits(x.limits(round), x.prefix, todo);
    }
  }

  lemma NoneOversized(x: Setup, round: nat)
    requires Drainable(x)
    ensures forall s | s in x.sections :: !P.Oversized(x.limits(round), x.prefix, s)
  {
    hide P.FitsAlone;
    forall s | s in x.sections ensures !P.Oversized(x.limits(round), x.prefix, s) {
      if x.limits(round).Some? { P.OversizedRule(x.limits(round).value, x.prefix, s); }
    }
  }

  lemma FitsNow(x: Setup, round: nat, s: P.Section)
    requires Drainable(x) && Full(x, round) && s in x.sections
    ensures P.Fits(x.limits(round), x.prefix + s.block)
  {
    if x.limits(round).Some? { P.RoomRule(x.limits(round).value, x.prefix, s.block); }
  }

  lemma FirstFits(limit: Option<P.Limit>, prefix: string, sections: seq<P.Section>)
    requires sections != [] && P.Fits(limit, prefix + sections[0].block) && !P.Oversized(limit, prefix, sections[0])
    ensures P.FitCount(limit, prefix, sections) > 0
  {
    hide P.Oversized, P.Fits, P.FitCount;
    P.FitCountLongest(limit, prefix, sections, 1);
    assert sections[..1] == [sections[0]];
    P.PageNext(limit, prefix, [], sections[0]);
    assert [] + [sections[0]] == [sections[0]];
  }

  /** What is unseen after a round is what is left of the unseen sections behind
      the ones it sent. */
  lemma UnseenShrinks(x: Setup, round: nat, state: State)
    requires Drainable(x)
    ensures var todo, unseen := Filter(x.Unseen(state), x.sections), x.Unseen(Record(x, round, state));
            var n := |Selection(x, round, state).sections|;
            && n <= |todo|
            && Filter(unseen, x.sections) == Filter(unseen, todo[n..])
  {
    hide Record, Selection, Filter;
    var todo, unseen := Filter(x.Unseen(state), x.sections), x.Unseen(Record(x, round, state));
    var sent := Selection(x, round, state).sections;
    var n := |sent|;
    SelectionIsFront(x, round, state);
    RecordAdds(x, round, state);
    FilterTwice(unseen, x.Unseen(state), x.sections);
    assert todo == todo[..n] + todo[n..];
    FilterAppend(unseen, todo[..n], todo[n..]);
    forall i | 0 <= i < n ensures !unseen(todo[i]) {
      assert Keys(x, sent)[i] == x.Key(todo[i]);
    }
    FilterNothing(unseen, todo[..n]);
    assert [] + Filter(unseen, todo[n..]) == Filter(unseen, todo[n..]);
  }

  lemma {:induction false} DeliveredIs(x: Setup, state: State, rounds: nat, m: Delivered)
    ensures m in StateAfter(x, state, rounds).delivered <==>
            m in state.delivered || m in Keys(x, SentBy(x, state, rounds))
    decreases rounds
  {
    hide Record, Selection;
    if rounds > 0 {
      var before, last := SentBy(x, state, rounds - 1), SentIn(x, state, rounds - 1);
      DeliveredIs(x, state, rounds - 1, m);
      RecordAdds(x, rounds - 1, StateAfter(x, state, rounds - 1));
      assert Keys(x, before + last) == Keys(x, before) + Keys(x, last);
    }
  }

  /** Every full round with something unseen leaves less of it, and no round
      leaves more. */
  lemma {:induction false} DrainShrinks(x: Setup, state: State, rounds: nat)
    requires Drainable(x)
    ensures var todo := Filter(x.Unseen(state), x.sections);
            var left := Filter(x.Unseen(StateAfter(x, state, rounds)), x.sections);
            left == [] || |left| + FullRounds(x, rounds) <= |todo|
    decreases rounds
  {
    hide Record, Selection, Filter;
    if rounds > 0 {
      var at := StateAfter(x, state, rounds - 1);
      DrainShrinks(x, state, rounds - 1);
      SelectionIsFront(x, rounds - 1, at);
      UnseenShrinks(x, rounds - 1, at);
    }
  }

  /** After as many full rounds as there are undelivered sections, with any other
      rounds between them, the text of every section has been delivered: each
      was delivered before or has been sent. */
  lemma DrainsAll(x: Setup, state: State, rounds: nat)
    requires Drainable(x) && FullRounds(x, rounds) >= |Filter(x.Unseen(state), x.sections)|
    ensures forall s | s in x.sections ::
              && x.Key(s) in StateAfter(x, state, rounds).delivered
              && (x.Key(s) in state.delivered || x.Key(s) in Keys(x, SentBy(x, state, rounds)))
  {
    DrainShrinks(x, state, rounds);
    var after := StateAfter(x, state, rounds);
    assert Filter(x.Unseen(after), x.sections) == [];
    hide StateAfter, Selection, Filter;
    forall s | s in x.sections
      ensures x.Key(s) in after.delivered
      ensures x.Key(s) in state.delivered || x.Key(s) in Keys(x, SentBy(x, state, rounds))
    {
      assert !x.Unseen(after)(s);
      DeliveredIs(x, state, rounds, x.Key(s));
    }
  }

  // --------------------------------------------------- distinct ids and digests

  lemma {:induction false} FilterFull(keep: P.Section -> bool, s: seq<P.Section>)
    requires |Filter(keep, s)| == |s|
    ensures Filter(keep, s) == s
    decreases |s|
  {
    if s != [] {
      FilterFull(keep, s[..|s| - 1]);
      assert s == s[..|s| - 1] + [s[|s| - 1]];
    }
  }

  /** A round sends no text twice when the unseen sections have distinct keys,
      and a round that holds nothing back only then. */
  lemma OneRoundDistinct(x: Setup, round: nat, state: State)
    ensures var todo, r := Filter(x.Unseen(state), x.sections), Selection(x, round, state);
            && (DistinctKeys(x, todo) ==> DistinctKeys(x, r.sections))
            && (r.overBudget == 0 && r.omitted == [] ==> (DistinctKeys(x, r.sections) <==> DistinctKeys(x, todo)))
  {
    var todo := Filter(x.Unseen(state), x.sections);
    var whole, sent := P.Whole(x.limits(round), x.prefix), todo[..P.FitCount(x.limits(round), x.prefix, todo)];
    P.SentOrOmitted(x.limits(round), x.prefix, sent);
    hide P.FitCount, P.OmittedIds, P.Page;
    if DistinctKeys(x, todo) { DistinctFilter(x, whole, sent); }
    if |Filter(whole, sent)| == |sent| { FilterFull(whole, sent); }
    assert todo[..|todo|] == todo;
  }

  /** With distinct keys exactly the sections a round sent stop being unseen. */
  lemma UnseenStep(x: Setup, round: nat, state: State)
    requires Drainable(x) && DistinctKeys(x, x.sections)
    ensures var todo := Filter(x.Unseen(state), x.sections);
            var n := |Selection(x, round, state).sections|;
            n <= |todo| && forall s | s in todo[n..] :: x.Unseen(Record(x, round, state))(s)
  {
    var todo := Filter(x.Unseen(state), x.sections);
    assert forall s | s in todo :: x.Unseen(state)(s);
    DistinctFilter(x, x.Unseen(state), x.sections);
    hide Record, Selection, Filter;
    var sent := Selection(x, round, state).sections;
    var after := Record(x, round, state);
    var n := |sent|;
    SelectionIsFront(x, round, state);
    RecordAdds(x, round, state);
    forall j | n <= j < |todo| ensures x.Unseen(after)(todo[j]) {
      assert todo[j] in todo;
      forall i | 0 <= i < n ensures Keys(x, sent)[i] != x.Key(todo[j]) {
        assert sent[i] == todo[i];
      }
    }
  }

  lemma {:induction false} FilterNothing(keep: P.Section -> bool, s: seq<P.Section>)
    requires forall i | 0 <= i < |s| :: !keep(s[i])
    ensures Filter(keep, s) == []
    decreases |s|
  {
    if s != [] { FilterNothing(keep, s[..|s| - 1]); }
  }

  ghost predicate DistinctKeys(x: Setup, s: seq<P.Section>) {
    forall i, j | 0 <= i < j < |s| :: x.Key(s[i]) != x.Key(s[j])
  }

  lemma {:induction false} DistinctFilter(x: Setup, keep: P.Section -> bool, s: seq<P.Section>)
    requires DistinctKeys(x, s)
    ensures DistinctKeys(x, Filter(keep, s))
    decreases |s|
  {
    if s != [] {
      var n := |s| - 1;
      DistinctFilter(x, keep, s[..n]);
      var front := Filter(keep, s[..n]);
      forall i | 0 <= i < |front| ensures x.Key(front[i]) != x.Key(s[n]) {
        assert front[i] in s[..n];
      }
    }
  }

  /** With distinct keys, after any number of rounds what was sent so far followed
      by what is still unseen is the original list, in order. */
  lemma {:induction false} DrainStep(x: Setup, state: State, rounds: nat)
    requires Drainable(x) && DistinctKeys(x, x.sections)
    ensures SentBy(x, state, rounds) + Filter(x.Unseen(StateAfter(x, state, rounds)), x.sections) ==
            Filter(x.Unseen(state), x.sections)
    decreases rounds
  {
    hide Record, Selection, Filter;
    if rounds > 0 {
      var at := StateAfter(x, state, rounds - 1);
      DrainStep(x, state, rounds - 1);
      SelectionIsFront(x, rounds - 1, at);
      UnseenShrinks(x, rounds - 1, at);
      UnseenStep(x, rounds - 1, at);
      var before, sent := Filter(x.Unseen(at), x.sections), Selection(x, rounds - 1, at).sections;
      FilterEverything(x.Unseen(Record(x, rounds - 1, at)), before[|sent|..]);
      assert before == sent + before[|sent|..];
    }
  }

  /** With distinct keys, after as many full rounds as there are undelivered
      sections every one of them has been sent exactly once, in the original
      order. */
  lemma Drains(x: Setup, state: State, rounds: nat)
    requires Drainable(x) && DistinctKeys(x, x.sections)
    requires FullRounds(x, rounds) >= |Filter(x.Unseen(state), x.sections)|
    ensures SentBy(x, state, rounds) == Filter(x.Unseen(state), x.sections)
  {
    DrainStep(x, state, rounds);
    DrainShrinks(x, state, rounds);
    hide Filter;
    assert SentBy(x, state, rounds) + [] == SentBy(x, state, rounds);
  }
}
