/** Who is shown what: the rules of an assembled context stated on the request
    and the records alone, and proved of whatever `Assemble` returns. */
module ContextRules {
  import opened Wrappers
  import opened Text
  import opened Sorting
  import opened ContextAssembly
  import MemoryBlock
  import P = ContextPacking

  // ---------------------------------------------------------------- the rules

  /** An agent-private record is for its audience; one without an audience is
      for its writer; nobody unknown sees either. */
  ghost predicate MaySee(viewer: Option<string>, scope: string, audience: seq<string>, writer: string) {
    scope == "agent-private" ==>
      viewer.Some? && (viewer.value in audience || (|audience| == 0 && writer == viewer.value))
  }

  ghost function Origin(e: Entry): string {
    if |e.id| >= 8 && e.id[..8] == "curated:" then "curated"
    else match e.entryKind case Remember => "remembered" case Note => "inbox"
  }

  /** A source is named or all are; remembered ones come by default, and the
      inbox when it is switched on. */
  ghost predicate Requested(sources: seq<string>, includeInbox: bool, origin: string) {
    || origin in sources
    || "all" in sources
    || (origin == "remembered" && |sources| == 0)
    || (origin == "inbox" && includeInbox)
  }

  ghost predicate InScope(scopes: seq<string>, scope: string) {
    |scopes| > 0 ==> scope in scopes
  }

  /** Project records belong to the active project: they bear its id, or one that
      is listed under the name the active id is listed under, if any. */
  ghost predicate InProject(active: Option<string>, aliases: map<string, string>, scope: string, project: Option<string>) {
    scope == "project" ==>
      && active.Some? && project.Some?
      && (|| project == active
          || (project.value in aliases && active.value in aliases && aliases[project.value] == aliases[active.value])
          || (project.value in aliases && active.value !in aliases && aliases[project.value] == active.value))
  }

  ghost predicate ProjectHolds(i: Input, e: Entry) {
    i.filterProject ==> InProject(i.projectId, i.aliases, e.scope, e.projectId)
  }

  ghost predicate Readable(i: Input, e: Entry) {
    MaySee(i.agentId, e.scope, e.audience, e.agentId)
  }

  ghost predicate Permitted(i: Input, e: Entry) {
    Requested(i.sources, i.includeInbox, Origin(e)) && InScope(i.scopes, e.scope) && ProjectHolds(i, e) && Readable(i, e)
  }

  /** The ids hidden by corrections: valid records that the viewer may read, from
      a requested source, decide, whatever their scope and project. */
  ghost function Corrected(i: Input, p: Policy, entries: seq<Entry>): set<string> {
    p.suppressed(StableSort(Order(p),
      Filter((e: Entry) => Requested(i.sources, i.includeInbox, Origin(e)) && Readable(i, e) && p.valid(e), entries)))
  }

  ghost predicate Presentable(p: Policy, hidden: set<string>, e: Entry) {
    e.id !in hidden && p.valid(e) && |e.body| > 0 && !p.searchOnly(e)
  }

  /** Curated before remembered before inbox, then the more confident, then the
      later, then the smaller path. */
  ghost predicate RanksNoLower(p: Policy, x: Entry, y: Entry) {
    && (Origin(y) == "curated" ==> Origin(x) == "curated")
    && (Origin(x) == "inbox" ==> Origin(y) == "inbox")
    && (Origin(x) == Origin(y) ==>
          && (y.confidence.High? ==> x.confidence.High?)
          && (x.confidence.Low? ==> y.confidence.Low?)
          && (x.confidence == y.confidence ==>
                && p.timestamp(x.createdAt) >= p.timestamp(y.createdAt)
                && (p.timestamp(x.createdAt) == p.timestamp(y.createdAt) ==> StringLe(x.notePath, y.notePath))))
  }

  /** The step at which a record is turned away. */
  ghost predicate TurnedAway(i: Input, p: Policy, hidden: set<string>, e: Entry, reason: Reason) {
    var source, scope, project, reader := Requested(i.sources, i.includeInbox, Origin(e)),
                                          InScope(i.scopes, e.scope), ProjectHolds(i, e), Readable(i, e);
    match reason
    case Source => !source
    case Scope => source && !scope
    case Project => source && scope && !project
    case Audience => source && scope && project && !reader
    case Supersession => Permitted(i, e) && e.id in hidden
    case Validity => Permitted(i, e) && e.id !in hidden && !p.valid(e)
    case Unreadable => Permitted(i, e) && e.id !in hidden && p.valid(e) && |e.body| == 0
    case SearchOnly => Permitted(i, e) && e.id !in hidden && p.valid(e) && |e.body| > 0 && p.searchOnly(e)
    case _ => false
  }

  // ------------------------------------------------------- the model obeys them

  lemma OriginIs(e: Entry)
    ensures Origin(e) == "curated" <==> IsCurated(e)
    ensures Origin(e) == "remembered" <==> !IsCurated(e) && e.entryKind.Remember?
    ensures Origin(e) == "inbox" <==> !IsCurated(e) && e.entryKind.Note?
  {
    assert "curated"[0] == 'c' && "remembered"[0] == 'r' && "inbox"[0] == 'i';
  }

  lemma SourceRule(i: Input, e: Entry)
    ensures SourceAllowed(i, e) <==> Requested(i.sources, i.includeInbox, Origin(e))
  {
    OriginIs(e);
    hide Origin, IsCurated;
    assert Origin(e) == "curated" || Origin(e) == "remembered" || Origin(e) == "inbox";
  }

  lemma ProjectRule(i: Input, e: Entry)
    ensures ProjectAllowed(i, e) <==> InProject(i.projectId, i.aliases, e.scope, e.projectId)
  {
  }

  lemma AudienceRule(i: Input, e: Entry)
    ensures AudienceAllows(i, e) <==> Readable(i, e)
  {
  }

  /** A record is turned away at exactly the first rule it breaks. */
  lemma ReasonRule(i: Input, p: Policy, hidden: set<string>, e: Entry, reason: Reason)
    ensures SkipReason(i, p, hidden, e) == Some(reason) <==> TurnedAway(i, p, hidden, e, reason)
    ensures SkipReason(i, p, hidden, e).None? <==> Permitted(i, e) && Presentable(p, hidden, e)
  {
    SourceRule(i, e);
    ProjectRule(i, e);
    AudienceRule(i, e);
    hide SourceAllowed, ProjectAllowed, AudienceAllows, Requested, InProject, Readable, Origin;
  }

  lemma CorrectedRule(i: Input, p: Policy, entries: seq<Entry>)
    ensures Superseded(i, p, StableSort(Order(p), entries)) == Corrected(i, p, entries)
  {
    OrderTotal(p);
    FilterSort(Order(p), Suppressors(i, p), entries);
    var rule := (e: Entry) => Requested(i.sources, i.includeInbox, Origin(e)) && Readable(i, e) && p.valid(e);
    forall e ensures Suppressors(i, p)(e) == rule(e) {
      SourceRule(i, e);
      AudienceRule(i, e);
    }
    hide Requested, Readable, Origin, MaySuppress, StableSort;
    SameFilter(Suppressors(i, p), rule, entries);
  }

  lemma RankRule(p: Policy, x: Entry, y: Entry)
    requires Before(p, x, y)
    ensures RanksNoLower(p, x, y)
  {
    OriginIs(x);
    OriginIs(y);
    hide Origin, IsCurated, StringLe;
  }

  // -------------------------------------------------------- what is rendered

  /** The attributes a reader finds behind a tag's name. */
  function ReadAttributes(s: string): seq<(string, string)> {
    if s == [] || s[0] != ' ' then []
    else
      var rest := s[1..];
      var k := IndexOf(rest, '=');
      if k + 1 >= |rest| || rest[k + 1] != '"' then []
      else
        var value := rest[k + 2..];
        var m := IndexOf(value, '"');
        if m == |value| then [] else [(rest[..k], value[..m])] + ReadAttributes(value[m + 1..])
  }

  lemma ReadAttribute(name: string, value: string, rest: string)
    requires '=' !in name && '"' !in value
    ensures ReadAttributes(MemoryBlock.RawAttr(name, value) + rest) == [(name, value)] + ReadAttributes(rest)
  {
    var s := " " + name + "=\"" + value + "\"" + rest;
    var after := value + "\"" + rest;
    var behind := name + ("=\"" + after);
    assert s == " " + behind;
    assert s[1..] == behind;
    assert behind[..|name|] == name;
    IndexOfUnique(behind, '=', |name|);
    assert behind[|name| + 2..] == after;
    assert after[..|value|] == value;
    IndexOfUnique(after, '"', |value|);
    assert after[|value| + 1..] == rest;
  }

  lemma ReadAttr(name: string, value: string, rest: string)
    requires '=' !in name
    ensures ReadAttributes(MemoryBlock.Attr(name, value) + rest) == [(name, MemoryBlock.EscapeAttr(value))] + ReadAttributes(rest)
  {
    hide ReadAttributes, MemoryBlock.EscapeAttr;
    MemoryBlock.EscapeAttrRoundTrip(value);
    ReadAttribute(name, MemoryBlock.EscapeAttr(value), rest);
  }

  lemma ReadTrust(trust: string)
    requires '"' !in trust
    ensures ReadAttributes(" trust=\"" + trust + "\">") == [("trust", trust)]
  {
    assert " trust=\"" + trust + "\">" == MemoryBlock.RawAttr("trust", trust) + ">";
    ReadAttribute("trust", trust, ">");
    assert ReadAttributes(">") == [];
  }

  /** Whatever the values hold, a reader of an opening line finds the record's id,
      writer, store, scope, project and trust there, and nothing else. */
  lemma AttributesReadBack(i: Input, e: Entry)
    ensures OpeningLine(i, e) == "<memory" + Attributes(i, e)
    ensures ReadAttributes(Attributes(i, e)) ==
            [("id", MemoryBlock.EscapeAttr(e.id)), ("agent", MemoryBlock.EscapeAttr(e.agentId)),
             ("store", MemoryBlock.EscapeAttr(i.storeName)), ("scope", MemoryBlock.EscapeAttr(e.scope))]
            + (if e.projectId.Some? then [("project_id", MemoryBlock.EscapeAttr(e.projectId.value))] else [])
            + [("trust", if Origin(e) == "inbox" then "raw" else Origin(e))]
  {
    TrustIs(e);
    hide ReadAttributes, MemoryBlock.EscapeAttr, MemoryBlock.Attr, TrustOf, Origin;
    var trust := " trust=\"" + TrustOf(e) + "\">";
    var project := if e.projectId.Some? then MemoryBlock.Attr("project_id", e.projectId.value) else "";
    ReadTrust(TrustOf(e));
    if e.projectId.Some? { ReadAttr("project_id", e.projectId.value, trust); } else { assert "" + trust == trust; }
    var r := project + trust;
    ReadAttr("scope", e.scope, r);
    ReadAttr("store", i.storeName, MemoryBlock.Attr("scope", e.scope) + r);
    ReadAttr("agent", e.agentId, MemoryBlock.Attr("store", i.storeName) + (MemoryBlock.Attr("scope", e.scope) + r));
    ReadAttr("id", e.id, MemoryBlock.Attr("agent", e.agentId) + (MemoryBlock.Attr("store", i.storeName) + (MemoryBlock.Attr("scope", e.scope) + r)));
    Grouped(MemoryBlock.Attr("id", e.id), MemoryBlock.Attr("agent", e.agentId), MemoryBlock.Attr("store", i.storeName), MemoryBlock.Attr("scope", e.scope), project, trust);
  }

  lemma Grouped(a: string, b: string, c: string, d: string, e: string, f: string)
    ensures a + b + c + d + e + f == a + (b + (c + (d + (e + f))))
  {
  }

  lemma TrustIs(e: Entry)
    ensures TrustOf(e) == if Origin(e) == "inbox" then "raw" else Origin(e)
    ensures '"' !in TrustOf(e)
  {
    OriginIs(e);
    hide Origin, IsCurated;
    assert Origin(e) == "curated" || Origin(e) == "remembered" || Origin(e) == "inbox";
  }

  /** The section shows this record. */
  ghost predicate Shows(i: Input, e: Entry, s: Section) {
    && s.id == e.id && s.store == i.storeName && s.scope == e.scope && s.projectId == e.projectId
    && s.audience == e.audience && s.notePath == e.notePath
    && s.trust == (if Origin(e) == "inbox" then "raw" else Origin(e))
    && s.body == MemoryBlock.EscapeBody(e.body)
    && s.tokens == (ByteLen(s.block) + 3) / 4
  }

  lemma RenderShows(i: Input, e: Entry)
    ensures Shows(i, e, Render(i, e))
  {
    OriginIs(e);
    hide Origin, IsCurated, RenderBlock, ByteLen, MemoryBlock.EscapeBody;
    assert Origin(e) == "curated" || Origin(e) == "remembered" || Origin(e) == "inbox";
  }

  lemma {:induction false} RenderedShows(i: Input, s: seq<Entry>)
    ensures forall k | 0 <= k < |s| :: Shows(i, s[k], Rendered(i, s)[k])
    decreases |s|
  {
    hide Shows, Render;
    if s != [] {
      RenderedShows(i, s[..|s| - 1]);
      RenderShows(i, s[|s| - 1]);
    }
  }

  ghost predicate InOrder(p: Policy, s: seq<Entry>) {
    forall a, b | 0 <= a < b < |s| :: Before(p, s[a], s[b])
  }

  lemma {:induction false} FilterInOrder(p: Policy, keep: Entry -> bool, s: seq<Entry>)
    requires InOrder(p, s)
    ensures InOrder(p, Filter(keep, s))
    decreases |s|
  {
    hide Before;
    if s != [] {
      var n := |s| - 1;
      FilterInOrder(p, keep, s[..n]);
      var front := Filter(keep, s[..n]);
      forall a | 0 <= a < |front| ensures Before(p, front[a], s[n]) {
        assert front[a] in front;
      }
    }
  }

  lemma {:induction false} DistinctInOrder(i: Input, p: Policy, s: seq<Entry>)
    requires InOrder(p, s)
    ensures InOrder(p, Distinct(i, s))
    decreases |s|
  {
    hide Before, DuplicateKey;
    if s != [] {
      var n := |s| - 1;
      DistinctInOrder(i, p, s[..n]);
      var front := Distinct(i, s[..n]);
      forall a | 0 <= a < |front| ensures Before(p, front[a], s[n]) {
        DistinctKeepsFirst(i, s[..n], front[a]);
        assert front[a] in front;
      }
    }
  }

  ghost function Acceptable(i: Input, p: Policy, entries: seq<Entry>): Entry -> bool {
    var hidden := Corrected(i, p, entries);
    e => Permitted(i, e) && Presentable(p, hidden, e)
  }

  /** The eligible candidates are the acceptable records, in rank order. */
  lemma EligibleCandidates(i: Input, p: Policy, entries: seq<Entry>) returns (eligible: seq<Entry>)
    ensures Chosen(i, p, entries) == Distinct(i, eligible)
    ensures InOrder(p, eligible)
    ensures forall e :: e in eligible <==> e in entries && Acceptable(i, p, entries)(e)
  {
    hide Before, SkipReason, Permitted, Presentable, Corrected, Superseded, Distinct;
    var candidates := StableSort(Order(p), entries);
    var hidden := Superseded(i, p, candidates);
    CorrectedRule(i, p, entries);
    eligible := Filter(Eligible(i, p, hidden), candidates);
    OrderTotal(p);
    StableSortSorted(Order(p), entries);
    FilterInOrder(p, Eligible(i, p, hidden), candidates);
    forall e ensures e in eligible <==> e in entries && Acceptable(i, p, entries)(e) {
      ReasonRule(i, p, hidden, e, Source);
      assert e in candidates <==> e in multiset(candidates);
      assert e in entries <==> e in multiset(entries);
    }
  }

  /** Every section shows a record that the request, the viewer and the
      corrections permit; no two show duplicates; higher ranks come first. */
  lemma SectionsFollowRules(i: Input, p: Policy, entries: seq<Entry>) returns (from: seq<Entry>)
    ensures var sections := Assemble(i, p, entries).sections;
            && |from| == |sections|
            && (forall k | 0 <= k < |from| ::
                  from[k] in entries && Shows(i, from[k], sections[k]) && Permitted(i, from[k])
                  && Presentable(p, Corrected(i, p, entries), from[k]))
            && (forall a, b | 0 <= a < b < |from| ::
                  RanksNoLower(p, from[a], from[b]) && DuplicateKey(i, from[a]) != DuplicateKey(i, from[b]))
  {
    hide *;
    var d := Chosen(i, p, entries);
    AssembleRefines(i, p, entries);
    from := d[..Fit(i, d)];
    RenderedShows(i, from);
    ChosenFollows(i, p, entries);
  }

  lemma ChosenFollows(i: Input, p: Policy, entries: seq<Entry>)
    ensures var d := Chosen(i, p, entries);
            && (forall k | 0 <= k < |d| ::
                  d[k] in entries && Permitted(i, d[k]) && Presentable(p, Corrected(i, p, entries), d[k]))
            && (forall a, b | 0 <= a < b < |d| ::
                  RanksNoLower(p, d[a], d[b]) && DuplicateKey(i, d[a]) != DuplicateKey(i, d[b]))
  {
    hide Before, DuplicateKey, Permitted, Presentable, Corrected, RanksNoLower, Chosen, Distinct, Keys;
    var eligible := EligibleCandidates(i, p, entries);
    var d := Chosen(i, p, entries);
    DistinctInOrder(i, p, eligible);
    DistinctKeys(i, eligible);
    forall k | 0 <= k < |d| ensures d[k] in eligible {
      DistinctKeepsFirst(i, eligible, d[k]);
      assert d[k] in d;
    }
    forall a, b | 0 <= a < b < |d| ensures RanksNoLower(p, d[a], d[b]) {
      RankRule(p, d[a], d[b]);
    }
  }

  /** Nothing permitted is passed over: each such record is shown, or a duplicate
      of it that ranks no lower is, or the budget ended before its turn, at a
      record that ranks no lower. */
  lemma NothingPassedOver(i: Input, p: Policy, entries: seq<Entry>, e: Entry) returns (f: Entry)
    requires e in entries && Permitted(i, e) && Presentable(p, Corrected(i, p, entries), e)
    ensures f in entries && RanksNoLower(p, f, e)
    ensures Permitted(i, f) && Presentable(p, Corrected(i, p, entries), f)
    ensures var o := Assemble(i, p, entries);
            || (DuplicateKey(i, f) == DuplicateKey(i, e) && exists k :: 0 <= k < |o.sections| && o.sections[k] == Render(i, f))
            || o.tokens + EstimateTokens(RenderBlock(i, f)) > i.maxTokens
  {
    hide Assemble, Before, DuplicateKey, Permitted, Presentable, Corrected, RanksNoLower, Cost, Chosen, Distinct, Render,
         RenderBlock, EstimateTokens, Rendered;
    var d := Chosen(i, p, entries);
    var m := Fit(i, d);
    var eligible := EligibleCandidates(i, p, entries);
    var k := FirstCopy(i, p, eligible, e);
    if k < m {
      f := d[k];
      ShownAt(i, p, entries, k);
    } else {
      f := d[m];
      StoppedAt(i, p, entries);
      DistinctInOrder(i, p, eligible);
      BeforeBoth(p, d, m, k, e);
    }
    DistinctKeepsFirst(i, eligible, f);
    assert f in d;
    RankRule(p, f, e);
  }

  lemma BeforeBoth(p: Policy, d: seq<Entry>, m: nat, k: nat, e: Entry)
    requires InOrder(p, d) && m <= k < |d| && Before(p, d[k], e)
    ensures Before(p, d[m], e)
  {
    hide Before;
    OrderTotal(p);
    if m < k {
      assert Order(p)(d[m], d[k]) && Order(p)(d[k], e);
    }
  }

  lemma ShownAt(i: Input, p: Policy, entries: seq<Entry>, k: nat)
    requires var d := Chosen(i, p, entries); k < Fit(i, d)
    ensures var o, d := Assemble(i, p, entries), Chosen(i, p, entries);
            k < |o.sections| && k < |d| && o.sections[k] == Render(i, d[k])
  {
    hide *;
    AssembleRefines(i, p, entries);
    var d := Chosen(i, p, entries);
    RenderedAt(i, d[..Fit(i, d)], k);
  }

  lemma StoppedAt(i: Input, p: Policy, entries: seq<Entry>)
    requires var d := Chosen(i, p, entries); Fit(i, d) < |d|
    ensures var d := Chosen(i, p, entries);
            Assemble(i, p, entries).tokens + EstimateTokens(RenderBlock(i, d[Fit(i, d)])) > i.maxTokens
  {
    hide *;
    AssembleRefines(i, p, entries);
    var d := Chosen(i, p, entries);
    FitLongest(i, d);
    CostNext(i, d, Fit(i, d));
  }

  lemma {:induction false} RenderedAt(i: Input, s: seq<Entry>, k: nat)
    requires k < |s|
    ensures Rendered(i, s)[k] == Render(i, s[k])
    decreases |s|
  {
    hide Render;
    if k < |s| - 1 { RenderedAt(i, s[..|s| - 1], k); }
  }

  lemma FirstComesFirst(i: Input, s: seq<Entry>, a: nat, b: nat)
    requires a < |s| && b < |s| && DuplicateKey(i, s[a]) == DuplicateKey(i, s[b])
    ensures First(i, s, a) ==> a <= b
  {
    hide DuplicateKey;
    if b < a {
      assert s[..a][b] == s[b];
      assert s[b] in s[..a];
    }
  }

  /** Deduplication keeps a copy that comes no later. */
  lemma FirstCopy(i: Input, p: Policy, s: seq<Entry>, e: Entry) returns (k: nat)
    requires InOrder(p, s) && e in s
    ensures k < |Distinct(i, s)| && DuplicateKey(i, Distinct(i, s)[k]) == DuplicateKey(i, e)
    ensures Before(p, Distinct(i, s)[k], e)
  {
    hide Before, DuplicateKey, Distinct;
    DistinctKeys(i, s);
    var d := Distinct(i, s);
    assert DuplicateKey(i, e) in Keys(i, d);
    var f :| f in d && DuplicateKey(i, f) == DuplicateKey(i, e);
    k :| 0 <= k < |d| && d[k] == f;
    DistinctKeepsFirst(i, s, f);
    var a :| 0 <= a < |s| && s[a] == f && First(i, s, a);
    var b :| 0 <= b < |s| && s[b] == e;
    FirstComesFirst(i, s, a, b);
    OrderTotal(p);
    assert Order(p)(f, e) || Order(p)(e, f);
  }

  // ------------------------------------------------------------ noninterference

  /** Records the viewer may not read change nothing it is shown: they are not
      rendered, suppress nothing, take no duplicate key and no budget. */
  lemma AudienceNoninterference(i: Input, p: Policy, a: seq<Entry>, b: seq<Entry>)
    requires var readable := (e: Entry) => MaySee(i.agentId, e.scope, e.audience, e.agentId);
             Filter(readable, a) == Filter(readable, b)
    ensures SameOutput(Assemble(i, p, a), Assemble(i, p, b))
  {
    hide Assemble;
    var readable := (e: Entry) => MaySee(i.agentId, e.scope, e.audience, e.agentId);
    forall e ensures readable(e) == Visible(i)(e) { AudienceRule(i, e); }
    hide MaySee, AudienceAllows;
    SameFilter(readable, Visible(i), a);
    SameFilter(readable, Visible(i), b);
    VisibleNoninterference(i, p, a, b);
  }

  /** So the unreadable ones can all be removed first. */
  lemma UnreadableRemoved(i: Input, p: Policy, entries: seq<Entry>)
    ensures var readable := (e: Entry) => MaySee(i.agentId, e.scope, e.audience, e.agentId);
            SameOutput(Assemble(i, p, entries), Assemble(i, p, Filter(readable, entries)))
  {
    hide Assemble, MaySee;
    var readable := (e: Entry) => MaySee(i.agentId, e.scope, e.audience, e.agentId);
    FilterTwice(readable, readable, entries);
    AudienceNoninterference(i, p, entries, Filter(readable, entries));
  }

  // ---------------------------------------------------------------- explanations

  /** With explanations on, the decisions say of the candidates, in rank order,
      at which rule each was turned away, and of nothing that breaks no rule. */
  lemma DecisionsFollowRules(i: Input, p: Policy, entries: seq<Entry>) returns (candidates: seq<Entry>)
    requires i.explain
    ensures multiset(candidates) == multiset(entries)
    ensures forall a, b | 0 <= a < b < |candidates| :: RanksNoLower(p, candidates[a], candidates[b])
    ensures var decisions, hidden := Assemble(i, p, entries).decisions, Corrected(i, p, entries);
            && |decisions| <= |candidates|
            && (forall k | 0 <= k < |decisions| ::
                  var e, d := candidates[k], decisions[k];
                  && d.id == e.id && d.notePath == e.notePath
                  && (if d.reason.Duplicate? || d.reason.Budget? || d.reason.Included?
                      then Permitted(i, e) && Presentable(p, hidden, e)
                      else TurnedAway(i, p, hidden, e, d.reason)))
  {
    hide Before, RanksNoLower, Corrected, Permitted, Presentable, TurnedAway, SkipReason, Superseded, VisitAll, Fit, Distinct,
         Keys, DuplicateKey;
    candidates := StableSort(Order(p), entries);
    OrderTotal(p);
    StableSortSorted(Order(p), entries);
    forall a, b | 0 <= a < b < |candidates| ensures RanksNoLower(p, candidates[a], candidates[b]) {
      assert Order(p)(candidates[a], candidates[b]);
      RankRule(p, candidates[a], candidates[b]);
    }
    CorrectedRule(i, p, entries);
    var hidden := Superseded(i, p, candidates);
    DecisionsExact(i, p, hidden, candidates);
    forall k | 0 <= k < |candidates|
      ensures var e, reason := candidates[k], ReasonAt(i, p, hidden, candidates, k);
              if reason.Duplicate? || reason.Budget? || reason.Included?
              then Permitted(i, e) && Presentable(p, hidden, e)
              else TurnedAway(i, p, hidden, e, reason)
    {
      ReasonRule(i, p, hidden, candidates[k], ReasonAt(i, p, hidden, candidates, k));
    }
  }

  // ------------------------------------------------------------------ duplicates

  predicate SameLetter(c: char, d: char) {
    || c == d
    || ('A' <= c <= 'Z' && d as int == c as int + 32)
    || ('A' <= d <= 'Z' && c as int == d as int + 32)
  }

  ghost predicate SameWord(v: string, w: string) {
    |v| == |w| && forall k | 0 <= k < |v| :: SameLetter(v[k], w[k])
  }

  /** The same words in the same order, up to the case of ASCII letters. */
  ghost predicate SameText(a: string, b: string) {
    var v, w := SplitWords(a), SplitWords(b);
    |v| == |w| && forall k | 0 <= k < |v| :: SameWord(v[k], w[k])
  }

  function Lowered(words: seq<string>): (r: seq<string>)
    ensures |r| == |words| && forall k | 0 <= k < |r| :: r[k] == AsciiLower(words[k])
  {
    seq(|words|, k requires 0 <= k < |words| => AsciiLower(words[k]))
  }

  lemma LowerAppend(a: string, b: string)
    ensures AsciiLower(a + b) == AsciiLower(a) + AsciiLower(b)
  {
  }

  lemma {:induction false} LowerJoin(words: seq<string>)
    ensures AsciiLower(Join(words, " ")) == Join(Lowered(words), " ")
    decreases |words|
  {
    hide AsciiLower;
    if words == [] {
      assert AsciiLower("") == "" by { LowerNothing(); }
    } else if |words| > 1 {
      LowerJoin(words[1..]);
      assert Lowered(words)[1..] == Lowered(words[1..]);
      LowerAppend(words[0] + " ", Join(words[1..], " "));
      LowerAppend(words[0], " ");
      assert AsciiLower(" ") == " " by { LowerNothing(); }
    }
  }

  lemma LowerNothing()
    ensures AsciiLower("") == "" && AsciiLower(" ") == " "
  {
  }

  lemma LowerWords(words: seq<string>)
    requires forall w | w in words :: IsWord(w)
    ensures forall w | w in Lowered(words) :: IsWord(w)
  {
    forall w | w in Lowered(words) ensures IsWord(w) {
      var k :| 0 <= k < |words| && w == AsciiLower(words[k]);
      assert IsWord(words[k]);
      forall j | 0 <= j < |w| ensures !IsWhite(w[j]) {
        assert words[k][j] in words[k];
      }
    }
  }

  lemma LowerSameWord(v: string, w: string)
    ensures AsciiLower(v) == AsciiLower(w) <==> SameWord(v, w)
  {
    if AsciiLower(v) == AsciiLower(w) {
      assert |AsciiLower(v)| == |v| && |AsciiLower(w)| == |w|;
      forall k | 0 <= k < |v| ensures SameLetter(v[k], w[k]) {
        assert AsciiLower(v)[k] == AsciiLower(w)[k];
      }
    }
  }

  /** What is compared is the words, up to ASCII case. */
  lemma NormalizedIff(a: string, b: string)
    ensures Normalized(a) == Normalized(b) <==> SameText(a, b)
    ensures SplitWords(Normalized(a)) == Lowered(SplitWords(a))
  {
    hide AsciiLower, SplitWords, SameWord;
    var v, w := SplitWords(a), SplitWords(b);
    WordsAreWords(a);
    WordsAreWords(b);
    LowerJoin(v);
    LowerJoin(w);
    LowerWords(v);
    LowerWords(w);
    WordsOfJoin(Lowered(v));
    WordsOfJoin(Lowered(w));
    forall k | 0 <= k < |v| && k < |w| ensures Lowered(v)[k] == Lowered(w)[k] <==> SameWord(v[k], w[k]) {
      LowerSameWord(v[k], w[k]);
    }
    assert (|v| == |w| && forall k | 0 <= k < |v| :: Lowered(v)[k] == Lowered(w)[k]) <==> Lowered(v) == Lowered(w);
  }

  /** The project family of a project record; everything else is one group. */
  function Group(i: Input, e: Entry): Option<string> {
    if e.scope != "project" then None
    else if e.projectId.None? then Some("")
    else if e.projectId.value in i.aliases then Some(i.aliases[e.projectId.value])
    else e.projectId
  }

  function GroupKey(group: Option<string>): string {
    if group.None? then "" else "project:" + group.value + ":"
  }

  lemma KeyIs(i: Input, e: Entry)
    ensures DuplicateKey(i, e) == GroupKey(Group(i, e)) + Normalized(e.body)
  {
    hide Normalized;
    if e.scope != "project" { assert "" + Normalized(e.body) == Normalized(e.body); }
  }

  /** Within a group two records are duplicates exactly when their texts are the
      same. */
  lemma DuplicatesInGroup(i: Input, a: Entry, b: Entry)
    requires Group(i, a) == Group(i, b)
    ensures DuplicateKey(i, a) == DuplicateKey(i, b) <==> SameText(a.body, b.body)
  {
    hide Normalized, DuplicateKey, SameText, GroupKey, Group;
    KeyIs(i, a);
    KeyIs(i, b);
    NormalizedIff(a.body, b.body);
    var key := GroupKey(Group(i, a));
    assert (key + Normalized(a.body))[|key|..] == Normalized(a.body);
    assert (key + Normalized(b.body))[|key|..] == Normalized(b.body);
  }

  /** No capital, and whitespace is one space between two other characters. */
  predicate TidyAt(s: string, k: nat)
    requires k < |s|
  {
    && !('A' <= s[k] <= 'Z')
    && (IsWhite(s[k]) ==> s[k] == ' ' && 0 < k < |s| - 1 && !IsWhite(s[k + 1]))
  }

  /** Lower case, and single spaces between words only. */
  ghost predicate Tidy(s: string) {
    forall k | 0 <= k < |s| :: TidyAt(s, k)
  }

  ghost predicate LowerWord(w: string) {
    IsWord(w) && forall c | c in w :: !('A' <= c <= 'Z')
  }

  lemma TidyWord(w: string)
    requires LowerWord(w)
    ensures Tidy(w) && !IsWhite(w[0])
  {
    hide IsWhite;
    assert w[0] in w;
    forall k | 0 <= k < |w| ensures TidyAt(w, k) {
      assert w[k] in w;
    }
  }

  lemma TidyBefore(w: string, rest: string)
    requires LowerWord(w) && Tidy(rest) && rest != [] && !IsWhite(rest[0])
    ensures Tidy(w + " " + rest)
  {
    assert !IsWhite('a') && IsWhite(' ');
    hide IsWhite;
    var s := w + " " + rest;
    forall k | 0 <= k < |s| ensures TidyAt(s, k) {
      if k < |w| {
        assert s[k] == w[k] && w[k] in w;
      } else if k == |w| {
        assert s[k] == ' ' && s[k + 1] == rest[0];
      } else {
        assert s[k] == rest[k - |w| - 1] && TidyAt(rest, k - |w| - 1);
        assert k < |s| - 1 ==> s[k + 1] == rest[k - |w|];
      }
    }
  }

  lemma {:induction false} JoinTidy(words: seq<string>)
    requires forall w | w in words :: LowerWord(w)
    ensures Tidy(Join(words, " "))
    ensures words != [] ==> Join(words, " ") != [] && !IsWhite(Join(words, " ")[0])
    decreases |words|
  {
    hide LowerWord, Tidy, IsWhite;
    if words == [] {
      assert Tidy("") by { TidyNothing(); }
    } else {
      var w := words[0];
      assert w in words;
      TidyWord(w);
      assert w != [] by { LowerWordFilled(w); }
      if |words| > 1 {
        assert forall v | v in words[1..] :: v in words;
        JoinTidy(words[1..]);
        TidyBefore(w, Join(words[1..], " "));
      }
    }
  }

  lemma LowerWordFilled(w: string)
    requires LowerWord(w)
    ensures w != []
  {
  }

  lemma TidyNothing()
    ensures Tidy("")
  {
  }

  lemma LowerIsLower(w: string)
    ensures forall c | c in AsciiLower(w) :: !('A' <= c <= 'Z')
  {
  }

  lemma WordIsLower(w: string)
    requires IsWord(w) && forall c | c in w :: !('A' <= c <= 'Z')
    ensures LowerWord(w)
  {
  }

  lemma NormalizedTidy(body: string)
    ensures Tidy(Normalized(body))
  {
    hide Tidy, SplitWords, Join, AsciiLower, LowerWord;
    WordsAreWords(body);
    LowerJoin(SplitWords(body));
    LowerWords(SplitWords(body));
    var lowered := Lowered(SplitWords(body));
    forall w | w in lowered ensures LowerWord(w) {
      var k :| 0 <= k < |lowered| && lowered[k] == w;
      LowerIsLower(SplitWords(body)[k]);
      assert IsWord(w);
      WordIsLower(w);
    }
    JoinTidy(lowered);
  }

  /** Tidy texts are the ones that comparing leaves as they are. */
  lemma {:induction false} TidyIff(s: string)
    ensures Normalized(s) == s <==> Tidy(s)
    decreases |s|
  {
    NormalizedTidy(s);
    if Tidy(s) { TidyStays(s); }
  }

  lemma LowerStays(s: string)
    requires Tidy(s)
    ensures AsciiLower(s) == s
  {
    hide IsWhite;
    forall k | 0 <= k < |s| ensures AsciiLower(s)[k] == s[k] {
      assert TidyAt(s, k);
    }
  }

  /** The first word of a tidy text, and what follows the space behind it. */
  lemma FirstWord(s: string) returns (w: string, rest: string)
    requires Tidy(s) && s != []
    ensures IsWord(w) && (s == w || (s == w + [' '] + rest && Tidy(rest) && rest != []))
  {
    hide IsWhite;
    var k := IndexOf(s, ' ');
    w := s[..k];
    assert TidyAt(s, 0);
    forall j | 0 <= j < k ensures !IsWhite(w[j]) {
      assert TidyAt(s, j) && s[j] == w[j] && w[j] in w;
    }
    assert IsWhite(' ') by { SpaceIsWhite(); }
    if k == |s| {
      rest := "";
    } else {
      rest := s[k + 1..];
      assert TidyAt(s, k);
      forall j | 0 <= j < |rest| ensures TidyAt(rest, j) {
        assert TidyAt(s, k + 1 + j) && rest[j] == s[k + 1 + j];
        assert j < |rest| - 1 ==> rest[j + 1] == s[k + 1 + j + 1];
      }
    }
  }

  lemma SpaceIsWhite()
    ensures IsWhite(' ')
  {
  }

  lemma {:induction false} WordsStay(s: string)
    requires Tidy(s)
    ensures Join(SplitWords(s), " ") == s
    decreases |s|
  {
    hide SplitWords, Tidy, IsWhite;
    if s == [] {
      SplitWord("");
    } else {
      var w, rest := FirstWord(s);
      SplitWord(w);
      if s != w {
        WordsStay(rest);
        SpaceIsWhite();
        SplitAtWhite(w, ' ', rest);
        assert SplitWords(s) == [w] + SplitWords(rest);
        assert SplitWords(rest) != [];
        assert ([w] + SplitWords(rest))[1..] == SplitWords(rest);
      }
    }
  }

  lemma TidyStays(s: string)
    requires Tidy(s)
    ensures Normalized(s) == s
  {
    LowerStays(s);
    WordsStay(s);
    hide Tidy, SplitWords, Join, AsciiLower;
  }

  /** Some text of one group has the key of some text of the other. */
  ghost predicate Confused(g: Option<string>, h: Option<string>) {
    exists x, y :: x != "" && y != "" && GroupKey(g) + Normalized(x) == GroupKey(h) + Normalized(y)
  }

  lemma TidyPrefix(t: string, u: string)
    requires Tidy(t + u) && t != [] && !IsWhite(t[|t| - 1])
    ensures Tidy(t)
  {
    hide IsWhite;
    var s := t + u;
    forall k | 0 <= k < |t| ensures TidyAt(t, k) {
      assert TidyAt(s, k) && s[k] == t[k];
      assert k < |t| - 1 ==> s[k + 1] == t[k + 1];
    }
  }

  lemma TidyLonger(t: string)
    requires Tidy(t)
    ensures Tidy(t + "x") && Tidy("x")
  {
    assert !IsWhite('x');
    hide IsWhite;
    var s := t + "x";
    forall k | 0 <= k < |s| ensures TidyAt(s, k) {
      if k < |t| {
        assert TidyAt(t, k) && s[k] == t[k];
        assert s[k + 1] == if k < |t| - 1 then t[k + 1] else 'x';
      }
    }
  }

  lemma ConfusedWhenTidy(g: Option<string>, h: Option<string>)
    requires GroupKey(g) <= GroupKey(h) && GroupKey(g) != GroupKey(h) && Tidy(GroupKey(h)[|GroupKey(g)|..])
    ensures Confused(g, h) && Confused(h, g)
  {
    var t := GroupKey(h)[|GroupKey(g)|..];
    assert t[|t| - 1] == ':';
    var x, y := t + "x", "x";
    TidyLonger(t);
    hide GroupKey, Normalized, Tidy;
    TidyIff(x);
    TidyIff(y);
    assert GroupKey(h) == GroupKey(g) + t;
    assert GroupKey(g) + x == GroupKey(h) + y;
  }

  lemma TidyWhenConfused(g: Option<string>, h: Option<string>, x: string, y: string)
    requires GroupKey(g) != GroupKey(h) && |GroupKey(g)| <= |GroupKey(h)|
    requires GroupKey(g) + Normalized(x) == GroupKey(h) + Normalized(y)
    ensures GroupKey(g) <= GroupKey(h) && Tidy(GroupKey(h)[|GroupKey(g)|..])
  {
    var p, q := GroupKey(g), GroupKey(h);
    assert q != [] ==> q[|q| - 1] == ':';
    hide GroupKey, Normalized, Tidy;
    var s := p + Normalized(x);
    assert s[..|q|] == q && s[..|p|] == p && q[..|p|] == s[..|p|];
    var t := q[|p|..];
    assert q == p + t && t != [] && t[|t| - 1] == q[|q| - 1];
    assert s[|p|..] == Normalized(x) && (q + Normalized(y))[|p|..] == t + Normalized(y);
    NormalizedTidy(x);
    TidyPrefix(t, Normalized(y));
  }

  lemma GroupKeysDiffer(g: Option<string>, h: Option<string>)
    requires g != h
    ensures GroupKey(g) != GroupKey(h)
  {
    assert g.Some? ==> GroupKey(g)[8..|GroupKey(g)| - 1] == g.value;
    assert h.Some? ==> GroupKey(h)[8..|GroupKey(h)| - 1] == h.value;
  }

  /** Across groups no record should be another's duplicate, but the key is one
      string.  Two groups can be confused exactly when what one key has beyond
      the other is a tidy text: for the records outside projects and a project,
      when the family's name is in lower case and single-spaced. */
  lemma ConfusedIff(g: Option<string>, h: Option<string>)
    requires g != h
    ensures Confused(g, h) <==>
            var p, q := GroupKey(g), GroupKey(h);
            (p <= q && Tidy(q[|p|..])) || (q <= p && Tidy(p[|q|..]))
  {
    hide GroupKey, Normalized, Tidy;
    GroupKeysDiffer(g, h);
    var p, q := GroupKey(g), GroupKey(h);
    if p <= q && Tidy(q[|p|..]) { ConfusedWhenTidy(g, h); }
    if q <= p && Tidy(p[|q|..]) { ConfusedWhenTidy(h, g); }
    if Confused(g, h) {
      var x, y :| x != "" && y != "" && GroupKey(g) + Normalized(x) == GroupKey(h) + Normalized(y);
      if |p| <= |q| { TidyWhenConfused(g, h, x, y); } else { TidyWhenConfused(h, g, y, x); }
    }
  }

  lemma ConfusedWithProject(family: string)
    ensures Confused(None, Some(family)) <==> Tidy("project:" + family + ":")
  {
    hide Normalized, Tidy;
    ConfusedIff(None, Some(family));
    assert GroupKey(Some(family))[0..] == GroupKey(Some(family));
  }

  // -------------------------------------------------------- header and pointers

  function Named(value: Option<string>, default: string): string {
    Sanitize(match value case Some(v) => v case None => default)
  }

  function Listed(values: seq<string>, default: string): string {
    if |values| > 0 then Join(values, ",") else default
  }

  lemma FirstPiece(s: string, t: string)
    requires '\n' !in s
    ensures MemoryBlock.Split(s + "\n" + t) == [s] + MemoryBlock.Split(t)
  {
    MemoryBlock.SplitAppend(s, t);
    MemoryBlock.SplitOne(s);
  }

  predicate Unbroken(s: string) {
    '\n' !in s && '\r' !in s && '\t' !in s
  }

  lemma PartUnbroken(s: string, i: nat, j: nat)
    requires Unbroken(s) && i <= j <= |s|
    ensures Unbroken(s[i..j])
  {
    assert forall c | c in s[i..j] :: c in s;
  }

  /** Sanitized text is one line, and text that is clean is shown as it is. */
  lemma SanitizedIsOneLine(s: string)
    ensures Unbroken(Sanitize(s))
    ensures Unbroken(s) && (s == [] || (!IsWhite(s[0]) && !IsWhite(s[|s| - 1]))) ==> Sanitize(s) == s
  {
    hide IsWhite, Blanked, TrimEnd, TrimStart, Unbroken;
    var t := Blanked(s);
    var x := TrimStart(t);
    BlankedIsOneLine(s);
    PartUnbroken(t, |t| - |x|, |t|);
    TrimEndPrefix(x);
    PartUnbroken(x, 0, |TrimEnd(x)|);
    assert t[|t| - |x|..|t|] == x && x[0..|TrimEnd(x)|] == TrimEnd(x);
    if s == [] || (!IsWhite(s[0]) && !IsWhite(s[|s| - 1])) { NothingToTrim(s); }
  }

  lemma BlankedIsOneLine(s: string)
    ensures Unbroken(Blanked(s))
    ensures Unbroken(s) ==> Blanked(s) == s
  {
  }

  lemma NothingToTrim(s: string)
    requires s == [] || (!IsWhite(s[0]) && !IsWhite(s[|s| - 1]))
    ensures TrimStart(s) == s && TrimEnd(s) == s
  {
    hide IsWhite;
  }

  lemma {:induction false} TrimEndPrefix(s: string)
    ensures TrimEnd(s) <= s
    decreases |s|
  {
    hide IsWhite;
    if s != [] && IsWhite(s[|s| - 1]) { TrimEndPrefix(s[..|s| - 1]); }
  }

  lemma LinePiece(name: string, value: string, rest: string)
    requires '\n' !in name && '\n' !in value
    ensures MemoryBlock.Split(HeaderLine(name, value) + rest) == [name + value] + MemoryBlock.Split(rest)
  {
    FirstPiece(name + value, rest);
  }

  lemma SanitizedPiece(name: string, value: string, rest: string)
    requires '\n' !in name
    ensures MemoryBlock.Split(HeaderLine(name, Sanitize(value)) + rest) == [name + Sanitize(value)] + MemoryBlock.Split(rest)
  {
    hide Sanitize, HeaderLine;
    SanitizedIsOneLine(value);
    LinePiece(name, Sanitize(value), rest);
  }

  /** A reader of the header finds store, agent, project, path, scopes and sources
      each on a line of its own, whatever the names hold. */
  lemma HeaderReadsBack(i: Input)
    requires '\n' !in Listed(i.scopes, "all") && '\n' !in Listed(i.sources, "remembered")
    ensures MemoryBlock.Split(Header(i)) ==
            ["Hive Memory Context", "store: " + Sanitize(i.storeName), "agent: " + Named(i.agentId, "unknown"),
             "project: " + Named(i.projectId, "none"), "path: " + Named(i.pathHint, "none"),
             "scopes: " + Listed(i.scopes, "all"), "sources: " + Listed(i.sources, "remembered"), "", ""]
  {
    HeaderParts(i);
    hide MemoryBlock.Split, Sanitize, Join, HeaderLine, Header, Listed;
    LowerHeader(i);
    var rest := HeaderRest(i);
    var project := HeaderLine("project: ", Named(i.projectId, "none")) + rest;
    var agent := HeaderLine("agent: ", Named(i.agentId, "unknown")) + project;
    var store := HeaderLine("store: ", Sanitize(i.storeName)) + agent;
    hide HeaderRest;
    SanitizedPiece("project: ", match i.projectId case Some(v) => v case None => "none", rest);
    SanitizedPiece("agent: ", match i.agentId case Some(v) => v case None => "unknown", project);
    SanitizedPiece("store: ", i.storeName, agent);
    FirstPiece("Hive Memory Context", store);
    assert "Hive Memory Context" + "\n" + store == "Hive Memory Context\n" + store;
  }

  function HeaderRest(i: Input): string {
    HeaderLine("path: ", Named(i.pathHint, "none"))
    + (HeaderLine("scopes: ", Listed(i.scopes, "all")) + (HeaderLine("sources: ", Listed(i.sources, "remembered")) + "\n"))
  }

  lemma HeaderParts(i: Input)
    ensures Header(i) == "Hive Memory Context\n" + (HeaderLine("store: ", Sanitize(i.storeName))
                         + (HeaderLine("agent: ", Named(i.agentId, "unknown"))
                         + (HeaderLine("project: ", Named(i.projectId, "none")) + HeaderRest(i))))
  {
    hide HeaderLine, Sanitize, Join;
  }

  lemma LowerHeader(i: Input)
    requires '\n' !in Listed(i.scopes, "all") && '\n' !in Listed(i.sources, "remembered")
    ensures MemoryBlock.Split(HeaderRest(i)) ==
            ["path: " + Named(i.pathHint, "none"), "scopes: " + Listed(i.scopes, "all"),
             "sources: " + Listed(i.sources, "remembered"), "", ""]
  {
    hide MemoryBlock.Split, Sanitize, HeaderLine, Listed;
    var sources := HeaderLine("sources: ", Listed(i.sources, "remembered")) + "\n";
    var scopes := HeaderLine("scopes: ", Listed(i.scopes, "all")) + sources;
    FirstPiece("", "");
    MemoryBlock.SplitOne("");
    assert "" + "\n" + "" == "\n";
    LinePiece("sources: ", Listed(i.sources, "remembered"), "\n");
    LinePiece("scopes: ", Listed(i.scopes, "all"), sources);
    SanitizedPiece("path: ", match i.pathHint case Some(v) => v case None => "none", scopes);
  }

  /** A pointer has the attributes of the block it stands for, says how many bytes
      were left out, and ends with the command that reads them. */
  lemma PointerReadsBack(s: P.Section) returns (attributes: string, bytes: string, ask: string)
    requires '"' !in s.trust
    ensures P.Pointer(s) == "<memory" + attributes + ">\n" + P.PointerText(s) + "\n</memory>\n\n"
    ensures ReadAttributes(attributes + ">\n") ==
            [("id", MemoryBlock.EscapeAttr(s.id)), ("store", MemoryBlock.EscapeAttr(s.store)),
             ("scope", MemoryBlock.EscapeAttr(s.scope)), ("trust", s.trust), ("omitted", "too-large")]
    ensures P.ReadDecimal(bytes) == ByteLen(s.body) && ask != "" && ask[0] == ' '
    ensures P.PointerText(s) == "This memory (" + bytes + ask
                                + ("hm get --store " + MemoryBlock.EscapeAttr(s.store) + " " + MemoryBlock.EscapeAttr(s.id))
  {
    hide *;
    attributes := P.PointerAttributes(s);
    PointerParts(s);
    PointerAttributesRead(s);
    bytes, ask := PointerTextSays(s);
  }

  lemma PointerParts(s: P.Section)
    ensures P.Pointer(s) == "<memory" + P.PointerAttributes(s) + ">\n" + P.PointerText(s) + "\n</memory>\n\n"
  {
    hide P.PointerAttributes, P.PointerText;
  }

  lemma PointerTextSays(s: P.Section) returns (bytes: string, ask: string)
    ensures P.ReadDecimal(bytes) == ByteLen(s.body) && ask != "" && ask[0] == ' '
    ensures P.PointerText(s) == "This memory (" + bytes + ask
                                + ("hm get --store " + MemoryBlock.EscapeAttr(s.store) + " " + MemoryBlock.EscapeAttr(s.id))
  {
    hide P.ReadDecimal, P.Decimal, ByteLen, MemoryBlock.EscapeAttr;
    P.DecimalReads(ByteLen(s.body));
    bytes, ask := P.Decimal(ByteLen(s.body)), " bytes)" + " is too large for hook context. If it is relevant, read it with: ";
  }

  lemma PointerAttributesRead(s: P.Section)
    requires '"' !in s.trust
    ensures ReadAttributes(P.PointerAttributes(s) + ">\n") ==
            [("id", MemoryBlock.EscapeAttr(s.id)), ("store", MemoryBlock.EscapeAttr(s.store)),
             ("scope", MemoryBlock.EscapeAttr(s.scope)), ("trust", s.trust), ("omitted", "too-large")]
  {
    MemoryBlock.EscapeAttrRoundTrip(s.id);
    MemoryBlock.EscapeAttrRoundTrip(s.store);
    MemoryBlock.EscapeAttrRoundTrip(s.scope);
    hide MemoryBlock.EscapeAttr, ReadAttributes, MemoryBlock.RawAttr;
    var omitted := MemoryBlock.RawAttr("omitted", "too-large");
    var trust := MemoryBlock.RawAttr("trust", s.trust) + omitted;
    var scope := MemoryBlock.Attr("scope", s.scope) + trust;
    var store := MemoryBlock.Attr("store", s.store) + scope;
    NoAttributes();
    ReadAttribute("omitted", "too-large", ">\n");
    ReadAttributeThen("trust", s.trust, omitted, ">\n");
    ReadAttributeThen("scope", MemoryBlock.EscapeAttr(s.scope), trust, ">\n");
    ReadAttributeThen("store", MemoryBlock.EscapeAttr(s.store), scope, ">\n");
    ReadAttributeThen("id", MemoryBlock.EscapeAttr(s.id), store, ">\n");
  }

  lemma NoAttributes()
    ensures ReadAttributes(">\n") == []
  {
  }

  lemma ReadAttributeThen(name: string, value: string, more: string, rest: string)
    requires '=' !in name && '"' !in value
    ensures ReadAttributes(MemoryBlock.RawAttr(name, value) + more + rest) == [(name, value)] + ReadAttributes(more + rest)
  {
    hide ReadAttributes, MemoryBlock.RawAttr;
    ReadAttribute(name, value, more + rest);
    assert MemoryBlock.RawAttr(name, value) + more + rest == MemoryBlock.RawAttr(name, value) + (more + rest);
  }
}
