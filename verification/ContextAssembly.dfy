/** Assembling bounded context from the local index: eligibility, supersession,
    deduplication and the token budget, in priority order. */
module ContextAssembly {
  import opened Wrappers
  import opened Text
  import opened Sorting
  import MemoryBlock
  import P = ContextPacking

  datatype EntryKind = Remember | Note
  datatype Confidence = High | Medium | Low

  datatype Entry = Entry(
    id: string,
    entryKind: EntryKind,
    scope: string,
    projectId: Option<string>,
    audience: seq<string>,
    agentId: string,
    confidence: Confidence,
    createdAt: string,
    body: string,
    notePath: string,
    rest: string)

  /** Decisions made by other modules: validity now, whom a list of suppressors
      suppresses, the search-only class under the active strategy, and the rank
      of a timestamp. */
  datatype Policy = Policy(
    valid: Entry -> bool,
    suppressed: seq<Entry> -> set<string>,
    searchOnly: Entry -> bool,
    timestamp: string -> int)

  /** The request, without the entries. */
  datatype Input = Input(
    storeName: string,
    scopes: seq<string>,
    sources: seq<string>,
    includeInbox: bool,
    agentId: Option<string>,
    projectId: Option<string>,
    pathHint: Option<string>,
    maxTokens: nat,
    explain: bool,
    filterProject: bool,
    aliases: map<string, string>)

  /** What became of a candidate; everything but `Included` is a skip. */
  datatype Reason =
    | Source | Scope | Project | Audience | Supersession | Validity | Unreadable | SearchOnly
    | Duplicate | Budget | Included

  datatype Decision = Decision(id: string, notePath: string, reason: Reason)

  datatype Section = Section(
    id: string, store: string, scope: string, projectId: Option<string>, trust: string,
    audience: seq<string>, notePath: string, body: string, block: string, tokens: nat)

  datatype Output = Output(
    markdown: string, sections: seq<Section>, decisions: seq<Decision>, tokens: nat, warnings: seq<string>)

  function EstimateTokens(text: string): nat {
    (ByteLen(text) + 3) / 4
  }

  // ------------------------------------------------------------------- ranking

  predicate IsCurated(e: Entry) {
    "curated:" <= e.id
  }

  function SourceRank(e: Entry): nat {
    if IsCurated(e) then 0 else if e.entryKind.Remember? then 1 else 2
  }

  function ConfidenceRank(c: Confidence): nat {
    match c case High => 3 case Medium => 2 case Low => 1
  }

  /** Source first, then confidence and age from high to low, then path. */
  predicate Before(p: Policy, a: Entry, b: Entry) {
    if SourceRank(a) != SourceRank(b) then SourceRank(a) < SourceRank(b)
    else if ConfidenceRank(a.confidence) != ConfidenceRank(b.confidence) then
      ConfidenceRank(a.confidence) > ConfidenceRank(b.confidence)
    else if p.timestamp(a.createdAt) != p.timestamp(b.createdAt) then
      p.timestamp(a.createdAt) > p.timestamp(b.createdAt)
    else StringLe(a.notePath, b.notePath)
  }

  function Order(p: Policy): (Entry, Entry) -> bool {
    (a, b) => Before(p, a, b)
  }

  lemma OrderTotal(p: Policy)
    ensures TotalPreorder(Order(p))
  {
    forall a: Entry, b: Entry ensures Order(p)(a, b) || Order(p)(b, a) {
      StringLeTotal(a.notePath, b.notePath);
    }
    forall a: Entry, b: Entry, c: Entry | Order(p)(a, b) && Order(p)(b, c) ensures Order(p)(a, c) {
      if StringLe(a.notePath, b.notePath) && StringLe(b.notePath, c.notePath) {
        StringLeTransitive(a.notePath, b.notePath, c.notePath);
      }
    }
  }

  // --------------------------------------------------------------- eligibility

  predicate SourceAllowed(i: Input, e: Entry) {
    || "all" in i.sources
    || (if IsCurated(e) then "curated" in i.sources
        else if e.entryKind.Remember? then i.sources == [] || "remembered" in i.sources
        else i.includeInbox || "inbox" in i.sources)
  }

  predicate ScopeAllowed(i: Input, e: Entry) {
    i.scopes == [] || e.scope in i.scopes
  }

  function Family(i: Input, projectId: string): string {
    if projectId in i.aliases then i.aliases[projectId] else projectId
  }

  /** Ids of the active project's alias family, and the id itself. */
  function FamilyIds(i: Input): Option<set<string>> {
    match i.projectId
    case None => None
    case Some(p) => Some((set id | id in i.aliases && i.aliases[id] == Family(i, p)) + {p})
  }

  predicate ProjectAllowed(i: Input, e: Entry) {
    || e.scope != "project"
    || (FamilyIds(i).Some? && e.projectId.Some? && e.projectId.value in FamilyIds(i).value)
  }

  predicate AudienceAllows(i: Input, e: Entry) {
    || e.scope != "agent-private"
    || (i.agentId.Some? && if e.audience == [] then e.agentId == i.agentId.value else i.agentId.value in e.audience)
  }

  predicate MaySuppress(i: Input, p: Policy, e: Entry) {
    SourceAllowed(i, e) && AudienceAllows(i, e) && p.valid(e)
  }

  function Suppressors(i: Input, p: Policy): Entry -> bool {
    e => MaySuppress(i, p, e)
  }

  function Superseded(i: Input, p: Policy, candidates: seq<Entry>): set<string> {
    p.suppressed(Filter(Suppressors(i, p), candidates))
  }

  /** Why a candidate is skipped before deduplication, if it is. */
  function SkipReason(i: Input, p: Policy, superseded: set<string>, e: Entry): (r: Option<Reason>)
    ensures r.Some? ==> !r.value.Duplicate? && !r.value.Budget? && !r.value.Included?
  {
    if !SourceAllowed(i, e) then Some(Source)
    else if !ScopeAllowed(i, e) then Some(Scope)
    else if i.filterProject && !ProjectAllowed(i, e) then Some(Project)
    else if !AudienceAllows(i, e) then Some(Audience)
    else if e.id in superseded then Some(Supersession)
    else if !p.valid(e) then Some(Validity)
    else if e.body == [] then Some(Unreadable)
    else if p.searchOnly(e) then Some(SearchOnly)
    else None
  }

  function AsciiLower(s: string): string {
    seq(|s|, k requires 0 <= k < |s| => if 'A' <= s[k] <= 'Z' then s[k] - 'A' + 'a' else s[k])
  }

  function Normalized(body: string): string {
    AsciiLower(Join(SplitWords(body), " "))
  }

  /** Bodies are duplicates within their project family, or across all other
      scopes, after folding whitespace and ASCII case. */
  function DuplicateKey(i: Input, e: Entry): string {
    if e.scope != "project" then Normalized(e.body)
    else "project:" + (if e.projectId.Some? then Family(i, e.projectId.value) else "") + ":" + Normalized(e.body)
  }

  // ----------------------------------------------------------------- rendering

  function TrustOf(e: Entry): string {
    if IsCurated(e) then "curated" else if e.entryKind.Remember? then "remembered" else "raw"
  }

  function Attributes(i: Input, e: Entry): string {
    MemoryBlock.Attr("id", e.id) + MemoryBlock.Attr("agent", e.agentId) + MemoryBlock.Attr("store", i.storeName) + MemoryBlock.Attr("scope", e.scope)
    + (if e.projectId.Some? then MemoryBlock.Attr("project_id", e.projectId.value) else "")
    + (" trust=\"" + TrustOf(e) + "\">")
  }

  function OpeningLine(i: Input, e: Entry): string {
    "<memory" + Attributes(i, e)
  }

  function RenderBlock(i: Input, e: Entry): (block: string)
    ensures block != []
  {
    MemoryBlock.Block(OpeningLine(i, e), e.body)
  }

  function Render(i: Input, e: Entry): Section {
    var block := RenderBlock(i, e);
    Section(e.id, i.storeName, e.scope, e.projectId, TrustOf(e), e.audience, e.notePath,
            MemoryBlock.EscapeBody(e.body), block, EstimateTokens(block))
  }

  function Blanked(s: string): string {
    seq(|s|, k requires 0 <= k < |s| => if s[k] in "\r\n\t" then ' ' else s[k])
  }

  function Sanitize(s: string): string {
    TrimEnd(TrimStart(Blanked(s)))
  }

  function Or(value: Option<string>, default: string): string {
    if value.Some? then value.value else default
  }

  function HeaderLine(name: string, value: string): string {
    name + value + "\n"
  }

  function Header(i: Input): string {
    "Hive Memory Context\n"
    + (HeaderLine("store: ", Sanitize(i.storeName))
    + (HeaderLine("agent: ", Sanitize(Or(i.agentId, "unknown")))
    + (HeaderLine("project: ", Sanitize(Or(i.projectId, "none")))
    + (HeaderLine("path: ", Sanitize(Or(i.pathHint, "none")))
    + (HeaderLine("scopes: ", if i.scopes == [] then "all" else Join(i.scopes, ","))
    + (HeaderLine("sources: ", if i.sources == [] then "remembered" else Join(i.sources, ",")) + "\n"))))))
  }

  // ------------------------------------------------------------------ the loop

  /** The loop's variables; `done` once the budget stopped it. */
  datatype Progress = Progress(
    markdown: string, tokens: nat, sections: seq<Section>, seen: set<string>,
    warnings: seq<string>, decisions: seq<Decision>, done: bool)

  function Outcome(i: Input, p: Policy, superseded: set<string>, g: Progress, e: Entry): Reason {
    var skip := SkipReason(i, p, superseded, e);
    if skip.Some? then skip.value
    else if DuplicateKey(i, e) in g.seen then Duplicate
    else if g.tokens + Render(i, e).tokens > i.maxTokens then Budget
    else Included
  }

  function Advance(i: Input, g: Progress, e: Entry, outcome: Reason): Progress {
    if outcome.Unreadable? then g.(warnings := g.warnings + [e.notePath])
    else if outcome.Budget? then g.(seen := g.seen + {DuplicateKey(i, e)}, done := true)
    else if outcome.Included? then
      var section := Render(i, e);
      g.(markdown := g.markdown + section.block, tokens := g.tokens + section.tokens,
         sections := g.sections + [section], seen := g.seen + {DuplicateKey(i, e)})
    else g
  }

  function Decide(i: Input, g: Progress, e: Entry, reason: Reason): Progress {
    if i.explain then g.(decisions := g.decisions + [Decision(e.id, e.notePath, reason)]) else g
  }

  function Visit(i: Input, p: Policy, superseded: set<string>, g: Progress, e: Entry): Progress {
    if g.done then g
    else
      var outcome := Outcome(i, p, superseded, g, e);
      Decide(i, Advance(i, g, e, outcome), e, outcome)
  }

  function Start(i: Input): Progress {
    Progress(Header(i), EstimateTokens(Header(i)), [], {}, [], [], false)
  }

  function VisitAll(i: Input, p: Policy, superseded: set<string>, candidates: seq<Entry>): Progress {
    if candidates == [] then Start(i)
    else Visit(i, p, superseded, VisitAll(i, p, superseded, candidates[..|candidates| - 1]), candidates[|candidates| - 1])
  }

  function Assemble(i: Input, p: Policy, entries: seq<Entry>): Output {
    var candidates := StableSort(Order(p), entries);
    var g := VisitAll(i, p, Superseded(i, p, candidates), candidates);
    Output(g.markdown, g.sections, g.decisions, g.tokens, g.warnings)
  }

  lemma {:induction false} DoneStays(i: Input, p: Policy, superseded: set<string>, candidates: seq<Entry>, k: nat)
    requires k <= |candidates| && VisitAll(i, p, superseded, candidates[..k]).done
    ensures VisitAll(i, p, superseded, candidates) == VisitAll(i, p, superseded, candidates[..k])
    decreases |candidates|
  {
    hide Outcome, Advance, Decide, Start;
    var n := |candidates| - 1;
    if k == |candidates| {
      assert candidates[..k] == candidates;
    } else {
      assert candidates[..n][..k] == candidates[..k];
      DoneStays(i, p, superseded, candidates[..n], k);
    }
  }

  lemma VisitNext(i: Input, p: Policy, superseded: set<string>, candidates: seq<Entry>, k: nat)
    requires k < |candidates|
    ensures VisitAll(i, p, superseded, candidates[..k + 1]) ==
            Visit(i, p, superseded, VisitAll(i, p, superseded, candidates[..k]), candidates[k])
  {
    assert candidates[..k + 1][..k] == candidates[..k];
  }

  method AssembleLocalIndexContext(i: Input, p: Policy, entries: seq<Entry>) returns (o: Output)
    ensures o == Assemble(i, p, entries)
  {
    hide Render, Header, DuplicateKey, SkipReason, StableSort, Superseded;
    var markdown := Header(i);
    var tokens: nat := EstimateTokens(markdown);
    var sections: seq<Section>, decisions: seq<Decision>, warnings: seq<string> := [], [], [];
    var seen: set<string> := {};
    var candidates := StableSort(Order(p), entries);
    var superseded := Superseded(i, p, candidates);
    for k := 0 to |candidates|
      invariant VisitAll(i, p, superseded, candidates[..k]) ==
                Progress(markdown, tokens, sections, seen, warnings, decisions, false)
    {
      var e := candidates[k];
      ghost var g := VisitAll(i, p, superseded, candidates[..k]);
      ghost var outcome := Outcome(i, p, superseded, g, e);
      VisitNext(i, p, superseded, candidates, k);
      assert VisitAll(i, p, superseded, candidates[..k + 1]) == Decide(i, Advance(i, g, e, outcome), e, outcome);
      hide VisitAll;
      var skip := SkipReason(i, p, superseded, e);
      if skip.Some? {
        if skip.value.Unreadable? {
          warnings := warnings + [e.notePath];
        }
        if i.explain { decisions := decisions + [Decision(e.id, e.notePath, skip.value)]; }
        continue;
      }
      var key := DuplicateKey(i, e);
      if key in seen {
        if i.explain { decisions := decisions + [Decision(e.id, e.notePath, Duplicate)]; }
        continue;
      }
      seen := seen + {key};
      var section := Render(i, e);
      if tokens + section.tokens > i.maxTokens {
        if i.explain { decisions := decisions + [Decision(e.id, e.notePath, Budget)]; }
        DoneStays(i, p, superseded, candidates, k + 1);
        return Output(markdown, sections, decisions, tokens, warnings);
      }
      markdown := markdown + section.block;
      tokens := tokens + section.tokens;
      sections := sections + [section];
      if i.explain { decisions := decisions + [Decision(e.id, e.notePath, Included)]; }
    }
    assert candidates[..|candidates|] == candidates;
    o := Output(markdown, sections, decisions, tokens, warnings);
  }

  // ------------------------------------------------ the simple specification

  function Eligible(i: Input, p: Policy, superseded: set<string>): Entry -> bool {
    e => SkipReason(i, p, superseded, e).None?
  }

  function Keys(i: Input, s: seq<Entry>): set<string> {
    set e | e in s :: DuplicateKey(i, e)
  }

  /** Keeps the first entry of every duplicate key. */
  function Distinct(i: Input, s: seq<Entry>): seq<Entry> {
    if s == [] then []
    else
      var n := |s| - 1;
      Distinct(i, s[..n]) + if DuplicateKey(i, s[n]) in Keys(i, s[..n]) then [] else [s[n]]
  }

  function Rendered(i: Input, s: seq<Entry>): (r: seq<Section>)
    ensures |r| == |s|
  {
    if s == [] then [] else Rendered(i, s[..|s| - 1]) + [Render(i, s[|s| - 1])]
  }

  function Packed(sections: seq<Section>): seq<P.Section> {
    if sections == [] then []
    else
      var s := sections[|sections| - 1];
      Packed(sections[..|sections| - 1]) + [P.Section(s.id, s.store, s.scope, s.trust, s.body, s.block)]
  }

  /** Header and blocks of the first entries, in estimated tokens. */
  function Cost(i: Input, s: seq<Entry>): nat {
    if s == [] then EstimateTokens(Header(i)) else Cost(i, s[..|s| - 1]) + EstimateTokens(RenderBlock(i, s[|s| - 1]))
  }

  /** Length of the longest run from the front that stays within the budget. */
  function Fit(i: Input, s: seq<Entry>): (m: nat)
    ensures m <= |s|
  {
    if s == [] then 0
    else
      var n := |s| - 1;
      var m := Fit(i, s[..n]);
      if m == n && Cost(i, s) <= i.maxTokens then |s| else m
  }

  function Chosen(i: Input, p: Policy, entries: seq<Entry>): seq<Entry> {
    var candidates := StableSort(Order(p), entries);
    Distinct(i, Filter(Eligible(i, p, Superseded(i, p, candidates)), candidates))
  }

  /** The entry at `k` is the first with its key. */
  predicate First(i: Input, s: seq<Entry>, k: nat)
    requires k < |s|
  {
    DuplicateKey(i, s[k]) !in Keys(i, s[..k])
  }

  /** No two kept entries share a key, and every entry's key is kept. */
  lemma {:induction false} DistinctKeys(i: Input, s: seq<Entry>)
    ensures Keys(i, Distinct(i, s)) == Keys(i, s)
    ensures var d := Distinct(i, s);
            forall a, b | 0 <= a < b < |d| :: DuplicateKey(i, d[a]) != DuplicateKey(i, d[b])
    decreases |s|
  {
    hide DuplicateKey;
    if s != [] {
      var n := |s| - 1;
      DistinctKeys(i, s[..n]);
      var front := Distinct(i, s[..n]);
      assert s == s[..n] + [s[n]];
      KeysOf(i, s[..n], s[n]);
      KeysOf(i, front, s[n]);
      forall a | 0 <= a < |front| ensures DuplicateKey(i, front[a]) in Keys(i, s[..n]) {
        assert front[a] in front;
      }
    }
  }

  lemma KeysOf(i: Input, s: seq<Entry>, e: Entry)
    ensures Keys(i, s + [e]) == Keys(i, s) + {DuplicateKey(i, e)}
  {
  }

  /** The kept entry is the first with its key. */
  lemma {:induction false} DistinctKeepsFirst(i: Input, s: seq<Entry>, e: Entry)
    ensures e in Distinct(i, s) <==> exists k :: 0 <= k < |s| && s[k] == e && First(i, s, k)
    decreases |s|
  {
    hide DuplicateKey, Keys;
    if s != [] {
      var n := |s| - 1;
      DistinctKeepsFirst(i, s[..n], e);
      forall k | 0 <= k < n ensures First(i, s[..n], k) == First(i, s, k) {
        assert s[..n][..k] == s[..k];
      }
      if e in Distinct(i, s[..n]) {
        var k :| 0 <= k < n && s[..n][k] == e && First(i, s[..n], k);
        assert s[k] == e && First(i, s, k);
      } else if First(i, s, n) {
        assert forall k | 0 <= k < n && s[k] == e :: s[..n][k] == e && !First(i, s[..n], k);
      } else {
        assert forall k | 0 <= k < n && s[k] == e :: s[..n][k] == e && !First(i, s[..n], k);
      }
    }
  }

  lemma CostNext(i: Input, s: seq<Entry>, k: nat)
    requires k < |s|
    ensures Cost(i, s[..k + 1]) == Cost(i, s[..k]) + EstimateTokens(RenderBlock(i, s[k]))
  {
    assert s[..k + 1][..k] == s[..k];
  }

  /** `Fit` is the longest run: all of it fits, one more does not. */
  lemma {:induction false} FitLongest(i: Input, s: seq<Entry>)
    ensures Fit(i, s) > 0 ==> Cost(i, s[..Fit(i, s)]) <= i.maxTokens
    ensures Fit(i, s) < |s| ==> Cost(i, s[..Fit(i, s) + 1]) > i.maxTokens
    decreases |s|
  {
    hide Cost;
    if s != [] {
      var n, m := |s| - 1, Fit(i, s);
      FitLongest(i, s[..n]);
      assert s[..|s|] == s;
      if m <= n {
        assert s[..n][..m] == s[..m];
        assert m < n ==> s[..n][..m + 1] == s[..m + 1];
      }
    }
  }

  ghost predicate Refined(i: Input, g: Progress, eligible: seq<Entry>) {
    var d := Distinct(i, eligible);
    var m := Fit(i, d);
    && g.sections == Rendered(i, d[..m])
    && g.markdown == Header(i) + P.Blocks(Packed(g.sections))
    && g.tokens == Cost(i, d[..m])
    && (g.done <==> m < |d|)
    && (!g.done ==> g.seen == Keys(i, eligible))
  }

  lemma VisitEligible(i: Input, p: Policy, superseded: set<string>, g: Progress, e: Entry)
    requires SkipReason(i, p, superseded, e).None? && !g.done
    ensures var v, key, section := Visit(i, p, superseded, g, e), DuplicateKey(i, e), Render(i, e);
            if key in g.seen then v.(decisions := g.decisions) == g
            else if g.tokens + section.tokens > i.maxTokens then
              v.(decisions := g.decisions) == g.(seen := g.seen + {key}, done := true)
            else
              v.(decisions := g.decisions) ==
              g.(markdown := g.markdown + section.block, tokens := g.tokens + section.tokens,
                 sections := g.sections + [section], seen := g.seen + {key})
  {
    hide DuplicateKey, SkipReason, Render;
  }

  lemma DistinctNext(i: Input, s: seq<Entry>, e: Entry)
    ensures Distinct(i, s + [e]) == Distinct(i, s) + if DuplicateKey(i, e) in Keys(i, s) then [] else [e]
    ensures Keys(i, s + [e]) == Keys(i, s) + {DuplicateKey(i, e)}
  {
  }

  lemma FitNext(i: Input, d: seq<Entry>, e: Entry)
    ensures Cost(i, d + [e]) == Cost(i, d) + Render(i, e).tokens
    ensures Fit(i, d + [e]) ==
            if Fit(i, d) == |d| && Cost(i, d + [e]) <= i.maxTokens then |d| + 1 else Fit(i, d)
    ensures (d + [e])[..Fit(i, d)] == d[..Fit(i, d)]
  {
    hide Render, RenderBlock;
    assert (d + [e])[..|d|] == d && d[..|d|] == d;
    CostNext(i, d + [e], |d|);
    RenderTokens(i, e);
  }

  lemma RenderTokens(i: Input, e: Entry)
    ensures Render(i, e).tokens == EstimateTokens(RenderBlock(i, e))
  {
  }

  lemma StepRefines(i: Input, p: Policy, superseded: set<string>, g: Progress, eligible: seq<Entry>, e: Entry)
    requires Refined(i, g, eligible) && SkipReason(i, p, superseded, e).None?
    ensures Refined(i, Visit(i, p, superseded, g, e), eligible + [e])
  {
    hide DuplicateKey, SkipReason, Header, Render, Rendered, Cost, Keys, P.Blocks, Packed, Outcome, Advance, Decide,
         Distinct, Fit;
    var d := Distinct(i, eligible);
    assert d[..|d|] == d && d + [] == d && (d + [e])[..|d| + 1] == d + [e];
    DistinctNext(i, eligible, e);
    FitNext(i, d, e);
    if !g.done {
      VisitEligible(i, p, superseded, g, e);
      hide Visit;
      RenderedNext(i, d, e);
      PackedNext(g.sections, Render(i, e));
      assert Header(i) + P.Blocks(Packed(g.sections)) + Render(i, e).block
          == Header(i) + (P.Blocks(Packed(g.sections)) + Render(i, e).block);
    }
  }

  lemma RenderedNext(i: Input, s: seq<Entry>, e: Entry)
    ensures Rendered(i, s + [e]) == Rendered(i, s) + [Render(i, e)]
  {
  }

  lemma PackedNext(sections: seq<Section>, s: Section)
    ensures P.Blocks(Packed(sections + [s])) == P.Blocks(Packed(sections)) + s.block
  {
  }

  lemma {:induction false} VisitRefines(i: Input, p: Policy, superseded: set<string>, candidates: seq<Entry>)
    ensures Refined(i, VisitAll(i, p, superseded, candidates), Filter(Eligible(i, p, superseded), candidates))
    decreases |candidates|
  {
    hide SkipReason, Refined, Visit;
    if candidates == [] {
      StartRefined(i);
    } else {
      var n := |candidates| - 1;
      var e, eligible := candidates[n], Filter(Eligible(i, p, superseded), candidates[..n]);
      VisitRefines(i, p, superseded, candidates[..n]);
      var g := VisitAll(i, p, superseded, candidates[..n]);
      if SkipReason(i, p, superseded, e).None? {
        StepRefines(i, p, superseded, g, eligible, e);
      } else {
        SkipRefines(i, p, superseded, g, eligible, e);
      }
    }
  }

  lemma SkipRefines(i: Input, p: Policy, superseded: set<string>, g: Progress, eligible: seq<Entry>, e: Entry)
    requires Refined(i, g, eligible) && SkipReason(i, p, superseded, e).Some?
    ensures Refined(i, Visit(i, p, superseded, g, e), eligible)
  {
    hide DuplicateKey, Header, Render, Rendered, Cost, Keys, P.Blocks, Fit, Distinct;
  }

  lemma StartRefined(i: Input)
    ensures Refined(i, Start(i), [])
  {
    hide Header, EstimateTokens;
  }

  /** The sections are the longest run, within the budget, of the sorted,
      eligible, deduplicated candidates; the Markdown is the header and exactly
      their blocks. */
  lemma AssembleRefines(i: Input, p: Policy, entries: seq<Entry>)
    ensures var o, d := Assemble(i, p, entries), Chosen(i, p, entries);
            && o.sections == Rendered(i, d[..Fit(i, d)])
            && o.markdown == Header(i) + P.Blocks(Packed(o.sections))
            && o.tokens == Cost(i, d[..Fit(i, d)])
    ensures multiset(StableSort(Order(p), entries)) == multiset(entries)
    ensures Sorted(Order(p), StableSort(Order(p), entries))
  {
    hide Header, Cost, Rendered, Fit, VisitAll, Distinct;
    OrderTotal(p);
    StableSortSorted(Order(p), entries);
    var candidates := StableSort(Order(p), entries);
    VisitRefines(i, p, Superseded(i, p, candidates), candidates);
  }

  lemma {:induction false} PackedBlocksNonEmpty(i: Input, s: seq<Entry>)
    ensures forall b | b in Packed(Rendered(i, s)) :: b.block != []
    decreases |s|
  {
    hide RenderBlock;
    if s != [] {
      var n := |s| - 1;
      PackedBlocksNonEmpty(i, s[..n]);
      var front := Rendered(i, s[..n]);
      assert (front + [Render(i, s[n])])[..n] == front;
    }
  }

  /** The packer accepts every assembled context, and splits off its header. */
  lemma AlwaysSplittable(i: Input, p: Policy, entries: seq<Entry>)
    ensures var o := Assemble(i, p, entries);
            var q := P.Output(o.markdown, Packed(o.sections));
            P.Splittable(q) && P.Prefix(q) == Header(i)
  {
    hide Header, Rendered, Fit, Assemble, Chosen, Cost;
    AssembleRefines(i, p, entries);
    var d := Chosen(i, p, entries);
    PackedBlocksNonEmpty(i, d[..Fit(i, d)]);
    var blocks := P.Blocks(Packed(Assemble(i, p, entries).sections));
    assert (Header(i) + blocks)[|Header(i)|..] == blocks;
    assert (Header(i) + blocks)[..|Header(i)|] == Header(i);
  }

  // ----------------------------------------------------------------- the budget

  lemma {:induction false} EstimateAtMostCost(i: Input, s: seq<Entry>)
    ensures EstimateTokens(Header(i) + P.Blocks(Packed(Rendered(i, s)))) <= Cost(i, s)
    decreases |s|
  {
    hide Header, RenderBlock, ByteLen;
    if s == [] {
      assert Header(i) + P.Blocks([]) == Header(i);
    } else {
      var n := |s| - 1;
      EstimateAtMostCost(i, s[..n]);
      var front, last := Rendered(i, s[..n]), Render(i, s[n]);
      PackedNext(front, last);
      var text := Header(i) + P.Blocks(Packed(front));
      assert Header(i) + P.Blocks(Packed(front + [last])) == text + last.block;
      ByteLenAppend(text, last.block);
    }
  }

  /** What is sent is never estimated above the larger of the header alone and
      the budget, and the running total never underestimates it. */
  lemma WithinBudget(i: Input, p: Policy, entries: seq<Entry>)
    ensures var o := Assemble(i, p, entries);
            && EstimateTokens(o.markdown) <= o.tokens
            && (o.tokens <= i.maxTokens || (o.sections == [] && o.markdown == Header(i)))
  {
    hide Header, Rendered, Fit, Assemble, Chosen, EstimateTokens;
    AssembleRefines(i, p, entries);
    var d := Chosen(i, p, entries);
    FitLongest(i, d);
    EstimateAtMostCost(i, d[..Fit(i, d)]);
    if Fit(i, d) == 0 {
      NoBlocks();
      assert d[..0] == [];
      assert Assemble(i, p, entries).sections == [];
      assert Header(i) + [] == Header(i);
    }
  }

  lemma NoBlocks()
    ensures P.Blocks(Packed([])) == []
  {
  }

  lemma {:induction false} SameFilter<T>(a: T -> bool, b: T -> bool, s: seq<T>)
    requires forall x | x in s :: a(x) == b(x)
    ensures Filter(a, s) == Filter(b, s)
    decreases |s|
  {
    if s != [] {
      SameFilter(a, b, s[..|s| - 1]);
    }
  }

  /** The two requests select from the same candidates and print them alike. */
  ghost predicate SameButBudget(i: Input, j: Input) {
    j == i.(maxTokens := j.maxTokens, explain := j.explain)
  }

  lemma SameChoice(i: Input, j: Input, p: Policy, entries: seq<Entry>)
    requires SameButBudget(i, j)
    ensures Chosen(i, p, entries) == Chosen(j, p, entries)
    ensures forall s :: Rendered(i, s) == Rendered(j, s) && Cost(i, s) == Cost(j, s)
  {
    var candidates := StableSort(Order(p), entries);
    forall e ensures Suppressors(i, p)(e) == Suppressors(j, p)(e) {}
    var superseded := Superseded(i, p, candidates);
    forall e ensures Eligible(i, p, superseded)(e) == Eligible(j, p, superseded)(e) { SameReason(i, j, p, superseded, e); }
    hide MaySuppress, SkipReason, StableSort, Distinct, Rendered, Cost;
    SameFilter(Suppressors(i, p), Suppressors(j, p), candidates);
    SameFilter(Eligible(i, p, superseded), Eligible(j, p, superseded), candidates);
    SameDistinct(i, j, Filter(Eligible(i, p, superseded), candidates));
    forall s ensures Rendered(i, s) == Rendered(j, s) && Cost(i, s) == Cost(j, s) {
      SameRendered(i, j, s);
    }
  }

  lemma SameKey(i: Input, j: Input, e: Entry)
    requires SameButBudget(i, j)
    ensures DuplicateKey(i, e) == DuplicateKey(j, e)
    ensures Render(i, e) == Render(j, e)
  {
  }

  lemma {:induction false} SameDistinct(i: Input, j: Input, s: seq<Entry>)
    requires SameButBudget(i, j)
    ensures Distinct(i, s) == Distinct(j, s)
    decreases |s|
  {
    hide DuplicateKey;
    forall e ensures DuplicateKey(i, e) == DuplicateKey(j, e) {
      SameKey(i, j, e);
    }
    if s != [] {
      SameDistinct(i, j, s[..|s| - 1]);
      assert Keys(i, s[..|s| - 1]) == Keys(j, s[..|s| - 1]);
    }
  }

  lemma {:induction false} SameRendered(i: Input, j: Input, s: seq<Entry>)
    requires SameButBudget(i, j)
    ensures Rendered(i, s) == Rendered(j, s) && Cost(i, s) == Cost(j, s)
    decreases |s|
  {
    if s == [] {
      assert Header(i) == Header(j);
    } else {
      SameRendered(i, j, s[..|s| - 1]);
      SameKey(i, j, s[|s| - 1]);
    }
  }

  lemma {:induction false} FitGrows(i: Input, j: Input, s: seq<Entry>)
    requires i.maxTokens <= j.maxTokens && forall t :: Cost(i, t) == Cost(j, t)
    ensures Fit(i, s) <= Fit(j, s)
    decreases |s|
  {
    if s != [] {
      FitGrows(i, j, s[..|s| - 1]);
    }
  }

  lemma {:induction false} RenderedPrefix(i: Input, s: seq<Entry>, m: nat)
    requires m <= |s|
    ensures Rendered(i, s[..m]) <= Rendered(i, s)
    decreases |s|
  {
    if m == |s| {
      assert s[..m] == s;
    } else {
      assert s[..|s| - 1][..m] == s[..m];
      RenderedPrefix(i, s[..|s| - 1], m);
    }
  }

  /** A larger budget only extends the section list. */
  lemma LargerBudgetExtends(i: Input, j: Input, p: Policy, entries: seq<Entry>)
    requires SameButBudget(i, j) && i.maxTokens <= j.maxTokens
    ensures Assemble(i, p, entries).sections <= Assemble(j, p, entries).sections
  {
    hide *;
    SameChoice(i, j, p, entries);
    AssembleRefines(i, p, entries);
    AssembleRefines(j, p, entries);
    var d := Chosen(i, p, entries);
    FitGrows(i, j, d);
    assert d[..Fit(j, d)][..Fit(i, d)] == d[..Fit(i, d)];
    RenderedPrefix(i, d[..Fit(j, d)], Fit(i, d));
  }

  // ------------------------------------------------------------ noninterference

  /** Equal in everything a viewer is shown. */
  ghost predicate SameShown(g: Progress, h: Progress) {
    g.(decisions := h.decisions) == h
  }

  function Visible(i: Input): Entry -> bool {
    e => AudienceAllows(i, e)
  }

  lemma InvisibleStep(i: Input, p: Policy, superseded: set<string>, g: Progress, e: Entry)
    requires !AudienceAllows(i, e)
    ensures SameShown(Visit(i, p, superseded, g, e), g)
  {
  }

  lemma SameStep(i: Input, p: Policy, superseded: set<string>, g: Progress, h: Progress, e: Entry)
    requires SameShown(g, h)
    ensures SameShown(Visit(i, p, superseded, g, e), Visit(i, p, superseded, h, e))
  {
    hide SkipReason, DuplicateKey, Render;
  }

  lemma {:induction false} OnlyVisibleMatter(i: Input, p: Policy, superseded: set<string>, candidates: seq<Entry>)
    ensures SameShown(VisitAll(i, p, superseded, candidates),
                      VisitAll(i, p, superseded, Filter(Visible(i), candidates)))
    decreases |candidates|
  {
    hide Visit, AudienceAllows;
    if candidates != [] {
      var n := |candidates| - 1;
      OnlyVisibleMatter(i, p, superseded, candidates[..n]);
      var g := VisitAll(i, p, superseded, candidates[..n]);
      var kept := Filter(Visible(i), candidates[..n]);
      var h := VisitAll(i, p, superseded, kept);
      if AudienceAllows(i, candidates[n]) {
        SameStep(i, p, superseded, g, h, candidates[n]);
        assert (kept + [candidates[n]])[..|kept|] == kept;
      } else {
        InvisibleStep(i, p, superseded, g, candidates[n]);
      }
    }
  }

  ghost predicate SameOutput(a: Output, b: Output) {
    a.(decisions := b.decisions) == b
  }

  lemma VisibleNoninterference(i: Input, p: Policy, a: seq<Entry>, b: seq<Entry>)
    requires Filter(Visible(i), a) == Filter(Visible(i), b)
    ensures SameOutput(Assemble(i, p, a), Assemble(i, p, b))
  {
    hide VisitAll, MaySuppress, AudienceAllows;
    OrderTotal(p);
    FilterSort(Order(p), Visible(i), a);
    FilterSort(Order(p), Visible(i), b);
    var ca, cb := StableSort(Order(p), a), StableSort(Order(p), b);
    forall e | MaySuppress(i, p, e) ensures AudienceAllows(i, e) {
      SuppressorsVisible(i, p, e);
    }
    FilterTwice(Suppressors(i, p), Visible(i), ca);
    FilterTwice(Suppressors(i, p), Visible(i), cb);
    var superseded := Superseded(i, p, ca);
    assert superseded == Superseded(i, p, cb);
    OnlyVisibleMatter(i, p, superseded, ca);
    OnlyVisibleMatter(i, p, superseded, cb);
  }

  lemma SuppressorsVisible(i: Input, p: Policy, e: Entry)
    requires MaySuppress(i, p, e)
    ensures AudienceAllows(i, e)
  {
  }

  lemma {:induction false} ExplainSteps(i: Input, j: Input, p: Policy, superseded: set<string>, candidates: seq<Entry>)
    requires j == i.(explain := j.explain)
    ensures SameShown(VisitAll(i, p, superseded, candidates), VisitAll(j, p, superseded, candidates))
    decreases |candidates|
  {
    hide Visit, Header;
    if candidates != [] {
      var n := |candidates| - 1;
      ExplainSteps(i, j, p, superseded, candidates[..n]);
      var g, h := VisitAll(i, p, superseded, candidates[..n]), VisitAll(j, p, superseded, candidates[..n]);
      ExplainStep(i, j, p, superseded, g, h, candidates[n]);
    } else {
      SameHeader(i, j);
    }
  }

  lemma SameHeader(i: Input, j: Input)
    requires SameButBudget(i, j)
    ensures Header(i) == Header(j)
  {
  }

  lemma ExplainStep(i: Input, j: Input, p: Policy, superseded: set<string>, g: Progress, h: Progress, e: Entry)
    requires j == i.(explain := j.explain) && SameShown(g, h)
    ensures SameShown(Visit(i, p, superseded, g, e), Visit(j, p, superseded, h, e))
  {
    hide DuplicateKey, SkipReason, Render;
    SameKey(i, j, e);
    SameReason(i, j, p, superseded, e);
  }

  lemma SameReason(i: Input, j: Input, p: Policy, superseded: set<string>, e: Entry)
    requires SameButBudget(i, j)
    ensures SkipReason(i, p, superseded, e) == SkipReason(j, p, superseded, e)
  {
  }

  /** Asking for explanations changes only the explanations. */
  lemma ExplainChangesOnlyDecisions(i: Input, j: Input, p: Policy, entries: seq<Entry>)
    requires j == i.(explain := j.explain)
    ensures SameOutput(Assemble(i, p, entries), Assemble(j, p, entries))
  {
    hide VisitAll;
    var candidates := StableSort(Order(p), entries);
    SameFilter(Suppressors(i, p), Suppressors(j, p), candidates);
    ExplainSteps(i, j, p, Superseded(i, p, candidates), candidates);
  }

  // ---------------------------------------------------------------- explanations

  /** Why the candidate at `k` is in or out, from the candidates alone. */
  ghost function ReasonAt(i: Input, p: Policy, superseded: set<string>, candidates: seq<Entry>, k: nat): Reason
    requires k < |candidates|
  {
    var e, eligible := candidates[k], Filter(Eligible(i, p, superseded), candidates[..k]);
    var d := Distinct(i, eligible);
    if SkipReason(i, p, superseded, e).Some? then SkipReason(i, p, superseded, e).value
    else if DuplicateKey(i, e) in Keys(i, eligible) then Duplicate
    else if Fit(i, d + [e]) == |d| + 1 then Included
    else Budget
  }

  function Unreadables(decisions: seq<Decision>): seq<string> {
    if decisions == [] then []
    else
      var d := decisions[|decisions| - 1];
      Unreadables(decisions[..|decisions| - 1]) + if d.reason.Unreadable? then [d.notePath] else []
  }

  ghost predicate Explained(i: Input, p: Policy, superseded: set<string>, candidates: seq<Entry>, g: Progress) {
    var d := g.decisions;
    && |d| <= |candidates|
    && (forall k | 0 <= k < |d| ::
          d[k] == Decision(candidates[k].id, candidates[k].notePath, ReasonAt(i, p, superseded, candidates, k)))
    && (forall k | 0 <= k < |d| :: d[k].reason.Budget? <==> g.done && k == |d| - 1)
    && (if g.done then d != [] else |d| == |candidates|)
    && g.warnings == Unreadables(d)
  }

  lemma OutcomeIsReason(i: Input, p: Policy, superseded: set<string>, candidates: seq<Entry>, k: nat, g: Progress)
    requires k < |candidates| && !g.done
    requires Refined(i, g, Filter(Eligible(i, p, superseded), candidates[..k]))
    ensures Outcome(i, p, superseded, g, candidates[k]) == ReasonAt(i, p, superseded, candidates, k)
  {
    hide DuplicateKey, SkipReason, Header, Render, Rendered, Cost, Keys, P.Blocks, Packed, Distinct, Fit;
    var e, eligible := candidates[k], Filter(Eligible(i, p, superseded), candidates[..k]);
    var d := Distinct(i, eligible);
    FitNext(i, d, e);
    assert d[..|d|] == d;
  }

  lemma ExplainedFrame(i: Input, p: Policy, superseded: set<string>, candidates: seq<Entry>, n: nat, k: nat)
    requires k < n <= |candidates|
    ensures ReasonAt(i, p, superseded, candidates[..n], k) == ReasonAt(i, p, superseded, candidates, k)
  {
    assert candidates[..n][..k] == candidates[..k];
  }

  lemma ExplainedFields(i: Input, g: Progress, e: Entry, r: Reason)
    requires i.explain && !g.done
    ensures var v := Decide(i, Advance(i, g, e, r), e, r);
            && v.decisions == g.decisions + [Decision(e.id, e.notePath, r)]
            && v.done == r.Budget?
            && v.warnings == g.warnings + if r.Unreadable? then [e.notePath] else []
  {
  }

  lemma ExplainedStep(i: Input, p: Policy, superseded: set<string>, candidates: seq<Entry>, g: Progress, r: Reason)
    requires candidates != [] && i.explain
    requires Explained(i, p, superseded, candidates[..|candidates| - 1], g)
    requires r == ReasonAt(i, p, superseded, candidates, |candidates| - 1)
    ensures g.done ==> Explained(i, p, superseded, candidates, g)
    ensures var e := candidates[|candidates| - 1];
            !g.done ==> Explained(i, p, superseded, candidates, Decide(i, Advance(i, g, e, r), e, r))
  {
    hide ReasonAt, Decide, Advance;
    var n := |candidates| - 1;
    forall k | 0 <= k < n
      ensures ReasonAt(i, p, superseded, candidates[..n], k) == ReasonAt(i, p, superseded, candidates, k)
    {
      ExplainedFrame(i, p, superseded, candidates, n, k);
    }
    if !g.done {
      ExplainedFields(i, g, candidates[n], r);
      var d := g.decisions + [Decision(candidates[n].id, candidates[n].notePath, r)];
      assert d[..|d| - 1] == g.decisions;
    }
  }

  /** With explanations on, every candidate up to where the budget stops gets
      one decision, in order, and unreadable ones are exactly the warnings. */
  lemma {:induction false} DecisionsExact(i: Input, p: Policy, superseded: set<string>, candidates: seq<Entry>)
    requires i.explain
    ensures Explained(i, p, superseded, candidates, VisitAll(i, p, superseded, candidates))
    decreases |candidates|
  {
    hide Refined, ReasonAt, Outcome, Advance, Decide, Header;
    if candidates == [] {
      assert Explained(i, p, superseded, [], Start(i));
    } else {
      var n := |candidates| - 1;
      DecisionsExact(i, p, superseded, candidates[..n]);
      VisitRefines(i, p, superseded, candidates[..n]);
      var g := VisitAll(i, p, superseded, candidates[..n]);
      hide Explained;
      ExplainedStep(i, p, superseded, candidates, g, ReasonAt(i, p, superseded, candidates, n));
      if !g.done {
        OutcomeIsReason(i, p, superseded, candidates, n, g);
      }
    }
  }

  // ------------------------------------------------------------- data boundaries

  /** The values that reach an opening line hold no newline. */
  predicate OneLine(i: Input, e: Entry) {
    && '\n' !in i.storeName && '\n' !in e.id && '\n' !in e.agentId && '\n' !in e.scope
    && (e.projectId.Some? ==> '\n' !in e.projectId.value)
  }

  function Openings(i: Input, s: seq<Entry>): (r: seq<string>)
    ensures |r| == |s| && forall k | 0 <= k < |s| :: r[k] == OpeningLine(i, s[k])
  {
    seq(|s|, k requires 0 <= k < |s| => OpeningLine(i, s[k]))
  }

  function Bodies(s: seq<Entry>): (r: seq<string>)
    ensures |r| == |s| && forall k | 0 <= k < |s| :: r[k] == s[k].body
  {
    seq(|s|, k requires 0 <= k < |s| => s[k].body)
  }

  function SectionBodies(sections: seq<Section>): (r: seq<string>)
    ensures |r| == |sections| && forall k | 0 <= k < |r| :: r[k] == sections[k].body
  {
    seq(|sections|, k requires 0 <= k < |sections| => sections[k].body)
  }

  /** No opening bracket, and no newline where one line is promised. */
  predicate Safe(s: string, oneLine: bool) {
    '<' !in s && (oneLine ==> '\n' !in s)
  }

  lemma SafeAppend(a: string, b: string, oneLine: bool)
    requires Safe(a, oneLine) && Safe(b, oneLine)
    ensures Safe(a + b, oneLine)
  {
  }

  lemma AttrSafe(name: string, value: string, oneLine: bool)
    requires Safe(name, true) && (oneLine ==> '\n' !in value)
    ensures Safe(MemoryBlock.Attr(name, value), oneLine)
  {
    hide MemoryBlock.EscapeAttr;
    MemoryBlock.EscapeAttrRoundTrip(value);
  }

  lemma NamesSafe()
    ensures Safe("id", true) && Safe("agent", true) && Safe("store", true) && Safe("scope", true)
    ensures Safe("project_id", true) && Safe("", true)
  {
  }

  lemma TrustSafe(e: Entry, oneLine: bool)
    ensures Safe(" trust=\"" + TrustOf(e) + "\">", oneLine)
  {
  }

  lemma AttributesSafe(i: Input, e: Entry)
    ensures Safe(Attributes(i, e), OneLine(i, e))
  {
    hide Safe, MemoryBlock.Attr, TrustOf;
    var o := OneLine(i, e);
    NamesSafe();
    SafeLess("", o);
    TrustSafe(e, o);
    AttrSafe("id", e.id, o);
    AttrSafe("agent", e.agentId, o);
    AttrSafe("store", i.storeName, o);
    AttrSafe("scope", e.scope, o);
    if e.projectId.Some? { AttrSafe("project_id", e.projectId.value, o); }
    var project := if e.projectId.Some? then MemoryBlock.Attr("project_id", e.projectId.value) else "";
    var a, b, c, d := MemoryBlock.Attr("id", e.id), MemoryBlock.Attr("agent", e.agentId), MemoryBlock.Attr("store", i.storeName), MemoryBlock.Attr("scope", e.scope);
    SafeAppend(a, b, o);
    SafeAppend(a + b, c, o);
    SafeAppend(a + b + c, d, o);
    SafeAppend(a + b + c + d, project, o);
    SafeAppend(a + b + c + d + project, " trust=\"" + TrustOf(e) + "\">", o);
  }

  lemma SafeLess(s: string, oneLine: bool)
    requires Safe(s, true)
    ensures Safe(s, oneLine)
  {
  }

  /** An opening line opens its block whatever the attributes hold, and is one
      line when they are. */
  lemma OpeningOpens(i: Input, e: Entry)
    ensures MemoryBlock.OpensBlock(OpeningLine(i, e))
    ensures OneLine(i, e) ==> '\n' !in OpeningLine(i, e)
  {
    AttributesSafe(i, e);
    MemoryTag(Attributes(i, e));
    hide Attributes, OneLine;
  }

  lemma MemoryTag(rest: string)
    requires '<' !in rest
    ensures MemoryBlock.OpensBlock("<memory" + rest)
  {
    assert ("<memory" + rest)[1..] == "memory" + rest;
  }

  lemma {:induction false} BlocksAreBlocks(i: Input, s: seq<Entry>)
    ensures P.Blocks(Packed(Rendered(i, s))) == MemoryBlock.Blocks(Openings(i, s), Bodies(s))
    ensures SectionBodies(Rendered(i, s)) == MemoryBlock.EscapedBodies(Bodies(s))
    decreases |s|
  {
    hide OpeningLine, MemoryBlock.Block, MemoryBlock.Blocks, MemoryBlock.EscapeBody, P.Blocks, Packed, Rendered;
    if s == [] {
      NoBlocksAtAll(i);
    } else {
      var front, e := s[..|s| - 1], s[|s| - 1];
      assert s == front + [e];
      BlocksAreBlocks(i, front);
      RenderedNext(i, front, e);
      PackedNext(Rendered(i, front), Render(i, e));
      MemoryBlock.BlocksLast(Openings(i, front), Bodies(front), OpeningLine(i, e), e.body);
      assert Openings(i, s) == Openings(i, front) + [OpeningLine(i, e)];
      assert Bodies(s) == Bodies(front) + [e.body];
      assert SectionBodies(Rendered(i, s)) == SectionBodies(Rendered(i, front)) + [MemoryBlock.EscapeBody(e.body)];
      assert MemoryBlock.EscapedBodies(Bodies(s)) ==
             MemoryBlock.EscapedBodies(Bodies(front)) + [MemoryBlock.EscapeBody(e.body)];
    }
  }

  lemma NoBlocksAtAll(i: Input)
    ensures P.Blocks(Packed(Rendered(i, []))) == MemoryBlock.Blocks(Openings(i, []), Bodies([]))
    ensures SectionBodies(Rendered(i, [])) == MemoryBlock.EscapedBodies(Bodies([]))
  {
  }

  ghost predicate Recovered(sections: seq<Section>, bodies: seq<string>) {
    && MemoryBlock.ScanLines(MemoryBlock.Outside([]), MemoryBlock.Split(P.Blocks(Packed(sections)))) ==
       MemoryBlock.Outside(bodies)
    && |bodies| == |sections|
    && (forall k | 0 <= k < |bodies| :: MemoryBlock.EndsWith(bodies[k], sections[k].body))
  }

  lemma RenderedRecovered(i: Input, s: seq<Entry>) returns (bodies: seq<string>)
    ensures Recovered(Rendered(i, s), bodies)
    ensures (forall e | e in s :: OneLine(i, e)) ==> bodies == SectionBodies(Rendered(i, s))
  {
    hide Rendered, OneLine, OpeningLine, MemoryBlock.Split, MemoryBlock.ScanLines,
         MemoryBlock.OpensBlock, MemoryBlock.EndsWith, MemoryBlock.Received;
    forall k | 0 <= k < |s|
      ensures MemoryBlock.OpensBlock(Openings(i, s)[k])
      ensures s[k] in s && (OneLine(i, s[k]) ==> '\n' !in Openings(i, s)[k])
    {
      OpeningOpens(i, s[k]);
    }
    BlocksAreBlocks(i, s);
    bodies := MemoryBlock.ReceivedBodies(Openings(i, s), Bodies(s));
    MemoryBlock.BlocksRoundTrip([], Openings(i, s), Bodies(s));
    assert [] + bodies == bodies;
    forall k | 0 <= k < |bodies| ensures MemoryBlock.EndsWith(bodies[k], Rendered(i, s)[k].body) {
      assert SectionBodies(Rendered(i, s))[k] == MemoryBlock.EscapedBodies(Bodies(s))[k];
    }
  }

  /** Whatever memories and their attributes hold, a reader that splits the
      assembled blocks at their boundaries ends outside with exactly one body
      per section, in order, each ending in the section's body; and they are the
      sections' bodies when no attribute has a newline.  So no memory can end its
      block early or open another one. */
  lemma BoundariesHold(i: Input, p: Policy, entries: seq<Entry>) returns (bodies: seq<string>)
    ensures var sections := Assemble(i, p, entries).sections;
            && Recovered(sections, bodies)
            && ((forall e | e in entries :: OneLine(i, e)) ==> bodies == SectionBodies(sections))
  {
    hide Assemble, Chosen, Cost, Rendered, Fit, OneLine, Recovered;
    AssembleRefines(i, p, entries);
    ChosenAreEntries(i, p, entries);
    var d := Chosen(i, p, entries);
    bodies := RenderedRecovered(i, d[..Fit(i, d)]);
  }

  lemma ChosenAreEntries(i: Input, p: Policy, entries: seq<Entry>)
    ensures forall e | e in Chosen(i, p, entries) :: e in entries
  {
    var candidates := StableSort(Order(p), entries);
    forall e | e in Chosen(i, p, entries) ensures e in entries {
      DistinctKeepsFirst(i, Filter(Eligible(i, p, Superseded(i, p, candidates)), candidates), e);
      assert e in candidates;
      assert e in multiset(candidates);
    }
  }
}
