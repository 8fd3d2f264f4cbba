/** Promoting a raw note into a curated file: append, then record an event, with
    retries after a crash between the two. */
module Promotion {
  import opened Wrappers
  import opened Text
  import PromotionTarget

  /** File content decoded as far as possible: characters, and bytes that are
      not part of valid UTF-8. */
  datatype Unit = Ch(c: char) | Bad(byte: bv8)

  type Content = seq<Unit>

  predicate IsUtf8(content: Content) {
    forall k | 0 <= k < |content| :: content[k].Ch?
  }

  function Decoded(content: Content): (s: string)
    requires IsUtf8(content)
    ensures |s| == |content| && forall k | 0 <= k < |s| :: content[k] == Ch(s[k])
  {
    seq(|content|, k requires 0 <= k < |content| => content[k].c)
  }

  function Encoded(s: string): (content: Content)
    ensures |content| == |s| && forall k | 0 <= k < |s| :: content[k] == Ch(s[k])
    ensures IsUtf8(content)
  {
    seq(|s|, k requires 0 <= k < |s| => Ch(s[k]))
  }

  datatype Request = Request(note: string, body: string, verbatim: bool)

  /** An audit event; only promotions matter here. */
  datatype AuditEvent = AuditEvent(isPromotion: bool, sourceRef: Option<string>, body: string)

  // ------------------------------------------------------------ event and marker

  const TARGET_KEY: string := "target_path = "

  function EventBody(note: string, target: string): string {
    "source_note_id = \"" + note + "\"\n" + (TARGET_KEY + "\"" + target + "\"\n")
  }

  function EventFor(note: string, target: string): AuditEvent {
    AuditEvent(true, Some(note), EventBody(note, target))
  }

  function TrimQuotes(s: string): string {
    if s != [] && s[0] == '"' then TrimQuotes(s[1..])
    else if s != [] && s[|s| - 1] == '"' then TrimQuotes(s[..|s| - 1])
    else s
  }

  predicate LineNames(line: string, target: string) {
    TARGET_KEY <= line && TrimQuotes(line[|TARGET_KEY|..]) == target
  }

  predicate Claims(e: AuditEvent, note: string, target: string) {
    && e.isPromotion
    && e.sourceRef == Some(note)
    && exists line :: line in Lines(e.body) && LineNames(line, target)
  }

  predicate PromotionExists(events: seq<AuditEvent>, note: string, target: string) {
    exists k :: 0 <= k < |events| && Claims(events[k], note, target)
  }

  function MarkerText(note: string, target: string): string {
    "hive-memory:promoted source=\"" + note + "\" target=\"" + target + "\""
  }

  function CuratedAppend(r: Request, target: string): string {
    if r.verbatim then
      "\n<!-- " + MarkerText(r.note, target) + (" -->\n\n" + TrimEnd(TrimStart(r.body)) + "\n")
    else
      ("\n- " + Join(SplitWords(r.body), " ") + "\n  <!-- ") + MarkerText(r.note, target) + " -->\n"
  }

  predicate HasMarker(content: Content, note: string, target: string) {
    IsUtf8(content) && Contains(Decoded(content), MarkerText(note, target))
  }

  function Separated(content: Content): Content {
    if content != [] && content[|content| - 1] != Ch('\n') then content + [Ch('\n')] else content
  }

  function AfterAppend(content: Content, r: Request, target: string): Content {
    Separated(content) + Encoded(CuratedAppend(r, target))
  }

  lemma TrimNothing(s: string)
    requires '"' !in s
    ensures TrimQuotes(s) == s
  {
  }

  lemma TrimOne(s: string)
    requires s != []
    ensures s[0] == '"' ==> TrimQuotes(s) == TrimQuotes(s[1..])
    ensures s[0] != '"' && s[|s| - 1] == '"' ==> TrimQuotes(s) == TrimQuotes(s[..|s| - 1])
  {
  }

  lemma TrimQuoted(target: string)
    requires '"' !in target
    ensures TrimQuotes("\"" + target + "\"") == target
  {
    hide TrimQuotes;
    var s, back := "\"" + target + "\"", target + "\"";
    TrimOne(s);
    TrimOne(back);
    TrimNothing(target);
    assert s[1..] == back && back[..|target|] == target;
    if target == "" {
      assert back[1..] == target;
    } else {
      assert back[0] == target[0] && target[0] in target;
    }
  }

  lemma EventLines(note: string, target: string)
    requires '\n' !in target
    ensures Lines(EventBody(note, target)) ==
            Lines("source_note_id = \"" + note + "\"\n") + [TARGET_KEY + "\"" + target + "\""]
  {
    var line := TARGET_KEY + "\"" + target + "\"";
    assert '\n' !in line;
    assert EventBody(note, target) == ("source_note_id = \"" + note + "\"\n") + (line + "\n");
    LinesAppend("source_note_id = \"" + note + "\"\n", line + "\n");
    LinesOfOne(line);
    assert line[|line| - 1] == '"';
  }

  lemma LinesNameTarget(note: string, target: string, other: string)
    requires PromotionTarget.Clean(target)
    ensures LineNames(TARGET_KEY + "\"" + target + "\"", other) <==> other == target
    ensures !LineNames("source_note_id = \"" + note + "\"", other)
  {
    var line := TARGET_KEY + "\"" + target + "\"";
    TrimQuoted(target);
    assert line[|TARGET_KEY|..] == "\"" + target + "\"";
    assert ("source_note_id = \"" + note + "\"")[0] == 's' && TARGET_KEY[0] == 't';
  }

  /** The event is read back for every target that can be quoted on one line,
      which covers every accepted one. */
  lemma EventReadsBack(note: string, target: string)
    requires PromotionTarget.Clean(target)
    ensures Claims(EventFor(note, target), note, target)
  {
    EventLines(note, target);
    LinesNameTarget(note, target, target);
    hide LineNames, Lines, EventBody;
    assert TARGET_KEY + "\"" + target + "\"" in Lines(EventBody(note, target));
  }

  lemma FirstLine(note: string)
    requires '\n' !in note
    ensures Lines("source_note_id = \"" + note + "\"\n") == ["source_note_id = \"" + note + "\""]
  {
    var first := "source_note_id = \"" + note + "\"";
    LinesOfOne(first);
    assert first + "\n" == "source_note_id = \"" + note + "\"\n";
    assert first[|first| - 1] == '"';
  }

  /** And it claims no other note or target; nor does an event of another type
      or about another note claim this one. */
  lemma EventClaimsOnlyItself(note: string, target: string, otherNote: string, otherTarget: string)
    requires PromotionTarget.Clean(target) && '\n' !in note
    ensures Claims(EventFor(note, target), otherNote, otherTarget) <==> otherNote == note && otherTarget == target
    ensures forall e: AuditEvent | !e.isPromotion || e.sourceRef != Some(note) :: !Claims(e, note, target)
  {
    EventReadsBack(note, target);
    EventLines(note, target);
    FirstLine(note);
    LinesNameTarget(note, target, otherTarget);
    hide LineNames, Lines, EventBody;
  }

  lemma AppendHasMarker(r: Request, target: string)
    ensures Contains(CuratedAppend(r, target), MarkerText(r.note, target))
  {
    hide Contains, MarkerText, TrimStart, TrimEnd, Join, SplitWords;
    var m := MarkerText(r.note, target);
    if r.verbatim {
      OccursInside("\n<!-- ", m, " -->\n\n" + TrimEnd(TrimStart(r.body)) + "\n");
    } else {
      OccursInside("\n- " + Join(SplitWords(r.body), " ") + "\n  <!-- ", m, " -->\n");
    }
  }

  // ------------------------------------------------------------ the text arrives

  /** `t` is the body without the whitespace around it. */
  ghost predicate TrimmedTo(body: string, t: string) {
    && (exists k: nat :: k + |t| <= |body| && body[k..k + |t|] == t && IsBlank(body[..k]) && IsBlank(body[k + |t|..]))
    && (t != [] ==> !IsWhite(t[0]) && !IsWhite(t[|t| - 1]))
  }

  function Comment(note: string, target: string): string {
    "<!-- hive-memory:promoted source=\"" + note + "\" target=\"" + target + "\" -->"
  }

  /** The block holds the note's own text: the trimmed body after the empty line
      that follows the marker, or one bullet line with the body's words. */
  ghost predicate Carries(block: string, r: Request, target: string) {
    if r.verbatim then
      exists t :: TrimmedTo(r.body, t) && block == "\n" + Comment(r.note, target) + "\n\n" + t + "\n"
    else
      exists t :: SplitWords(t) == SplitWords(r.body) && (forall c | c in t :: c == ' ' || !IsWhite(c))
                  && block == "\n- " + t + "\n  " + Comment(r.note, target) + "\n"
  }

  /** One block is added at the end of the file, on a line of its own. */
  ghost predicate Adds(before: Content, after: Content, r: Request, target: string) {
    exists block ::
      && Carries(block, r, target)
      && after == before + (if before == [] || before[|before| - 1] == Ch('\n') then [] else [Ch('\n')]) + Encoded(block)
  }

  lemma {:induction false} TrimEndKeeps(s: string)
    ensures TrimEnd(s) <= s && IsBlank(s[|TrimEnd(s)|..])
    ensures TrimEnd(s) != [] ==> !IsWhite(TrimEnd(s)[|TrimEnd(s)| - 1])
    decreases |s|
  {
    hide IsWhite;
    if s != [] && IsWhite(s[|s| - 1]) {
      var n := |s| - 1;
      TrimEndKeeps(s[..n]);
      assert s[|TrimEnd(s)|..] == s[..n][|TrimEnd(s)|..] + [s[n]];
    }
  }

  lemma Trims(body: string)
    ensures TrimmedTo(body, TrimEnd(TrimStart(body)))
  {
    hide TrimStart, TrimEnd, IsWhite;
    var x := TrimStart(body);
    var t, k := TrimEnd(x), |body| - |x|;
    TrimEndKeeps(x);
    assert body[k..k + |t|] == x[..|t|];
    assert body[k + |t|..] == x[|t|..];
  }

  lemma AppendCarries(r: Request, target: string)
    ensures Carries(CuratedAppend(r, target), r, target)
  {
    hide TrimmedTo, TrimStart, TrimEnd, Join, SplitWords, IsWhite;
    if r.verbatim {
      Trims(r.body);
      VerbatimBlock(r, target);
    } else {
      OneLineOfWords(r.body);
      BulletBlock(r, target);
    }
  }

  lemma VerbatimBlock(r: Request, target: string)
    requires r.verbatim
    ensures CuratedAppend(r, target) == "\n" + Comment(r.note, target) + "\n\n" + TrimEnd(TrimStart(r.body)) + "\n"
  {
    hide TrimStart, TrimEnd, MarkerText, Comment;
    CommentIs(r.note, target);
    Regroup(MarkerText(r.note, target), TrimEnd(TrimStart(r.body)));
  }

  lemma CommentIs(note: string, target: string)
    ensures Comment(note, target) == "<!-- " + MarkerText(note, target) + " -->"
  {
  }

  lemma Regroup(m: string, t: string)
    ensures "\n<!-- " + m + (" -->\n\n" + t + "\n") == "\n" + ("<!-- " + m + " -->") + "\n\n" + t + "\n"
    ensures ("\n- " + t + "\n  <!-- ") + m + " -->\n" == "\n- " + t + "\n  " + ("<!-- " + m + " -->") + "\n"
  {
    assert "\n<!-- " == "\n" + "<!-- " && " -->\n\n" == " -->" + "\n\n";
    assert "\n  <!-- " == "\n  " + "<!-- " && " -->\n" == " -->" + "\n";
  }

  lemma BulletBlock(r: Request, target: string)
    requires !r.verbatim
    ensures CuratedAppend(r, target) == "\n- " + Join(SplitWords(r.body), " ") + "\n  " + Comment(r.note, target) + "\n"
  {
    hide Join, SplitWords, MarkerText, Comment;
    CommentIs(r.note, target);
    Regroup(MarkerText(r.note, target), Join(SplitWords(r.body), " "));
  }

  /** An append adds exactly one block, and that block carries the note's text. */
  lemma AppendAddsText(content: Content, r: Request, target: string)
    ensures Adds(content, AfterAppend(content, r, target), r, target)
  {
    hide Carries, CuratedAppend;
    AppendCarries(r, target);
  }

  /** A reader of the block finds the text on its lines again. */
  lemma BlockReadsBack(block: string, r: Request, target: string) returns (t: string)
    requires Carries(block, r, target) && '\n' !in r.note && PromotionTarget.Clean(target)
    ensures if r.verbatim
            then TrimmedTo(r.body, t) && exists head ::
                   EndsLine(head) && Lines(head) == ["", Comment(r.note, target), ""] && block == head + t + "\n"
            else SplitWords(t) == SplitWords(r.body) && Lines(block) == ["", "- " + t, "  " + Comment(r.note, target)]
  {
    hide TrimmedTo, Lines, SplitWords, IsWhite, EndsLine, Comment, StripCr;
    var comment := Comment(r.note, target);
    CommentLine(r.note, target);
    if r.verbatim {
      t :| TrimmedTo(r.body, t) && block == "\n" + comment + "\n\n" + t + "\n";
      var head := VerbatimHead(comment);
      assert block == head + t + "\n";
    } else {
      t :| SplitWords(t) == SplitWords(r.body) && (forall c | c in t :: c == ' ' || !IsWhite(c))
           && block == "\n- " + t + "\n  " + comment + "\n";
      BulletLine(t);
      TwoLines("- " + t, "  " + comment);
      assert block == "\n" + (("- " + t) + "\n") + (("  " + comment) + "\n");
    }
  }

  lemma VerbatimHead(comment: string) returns (head: string)
    requires '\n' !in comment && StripCr(comment) == comment
    ensures head == "\n" + comment + "\n\n" && EndsLine(head) && Lines(head) == ["", comment, ""]
  {
    TwoLines(comment, "");
    head := "\n" + (comment + "\n") + ("" + "\n");
  }

  lemma TwoLines(a: string, b: string)
    requires '\n' !in a && StripCr(a) == a && '\n' !in b && StripCr(b) == b
    ensures Lines("\n" + (a + "\n") + (b + "\n")) == ["", a, b]
  {
    hide Lines, StripCr;
    LinesOfOne("");
    LinesOfOne(a);
    LinesOfOne(b);
    LinesAppend("\n", a + "\n");
    LinesAppend("\n" + (a + "\n"), b + "\n");
    assert "" + "\n" == "\n" && [""] + [a] + [b] == ["", a, b];
    assert StripCr("") == "" by { EmptyStrips(); }
  }

  lemma EmptyStrips()
    ensures StripCr("") == ""
  {
  }

  lemma CommentLine(note: string, target: string)
    requires '\n' !in note && PromotionTarget.Clean(target)
    ensures '\n' !in Comment(note, target) && '\n' !in "  " + Comment(note, target)
    ensures StripCr(Comment(note, target)) == Comment(note, target)
    ensures StripCr("  " + Comment(note, target)) == "  " + Comment(note, target)
  {
    var c := Comment(note, target);
    assert c[|c| - 1] == '>';
  }

  lemma BulletLine(t: string)
    requires forall c | c in t :: c == ' ' || !IsWhite(c)
    ensures '\n' !in "- " + t && StripCr("- " + t) == "- " + t
  {
    assert t != [] ==> t[|t| - 1] in t;
  }

  lemma ContainsWithin(a: string, b: string, c: string, pattern: string)
    requires Contains(b, pattern)
    ensures Contains(a + b + c, pattern)
  {
    var i := Find(b, pattern).value;
    var s := a + b + c;
    assert s[|a| + i..|a| + i + |pattern|] == b[i..i + |pattern|];
    assert OccursAt(s, pattern, |a| + i);
  }

  lemma AppendShape(content: Content, r: Request, target: string)
    ensures content <= Separated(content) <= AfterAppend(content, r, target)
    ensures IsUtf8(Separated(content)) <==> IsUtf8(content)
    ensures IsUtf8(AfterAppend(content, r, target)) <==> IsUtf8(content)
    ensures IsUtf8(content) ==>
              Decoded(AfterAppend(content, r, target)) == Decoded(Separated(content)) + CuratedAppend(r, target)
  {
  }

  lemma MarkerStays(a: Content, b: Content, note: string, target: string)
    requires a <= b && IsUtf8(b) && HasMarker(a, note, target)
    ensures HasMarker(b, note, target)
  {
    hide Contains, MarkerText;
    var more := Decoded(b)[|a|..];
    OccursExtends(Decoded(a), MarkerText(note, target), more);
    assert Decoded(b) == Decoded(a) + more;
  }

  /** After an append, the marker is found exactly when the file was readable
      as text; markers already there are still found. */
  lemma AppendMarks(content: Content, r: Request, target: string)
    ensures content <= AfterAppend(content, r, target)
    ensures IsUtf8(AfterAppend(content, r, target)) <==> IsUtf8(content)
    ensures HasMarker(AfterAppend(content, r, target), r.note, target) <==> IsUtf8(content)
    ensures forall note | HasMarker(content, note, target) :: HasMarker(AfterAppend(content, r, target), note, target)
  {
    AppendShape(content, r, target);
    hide Contains, CuratedAppend, MarkerText, AfterAppend, Separated, IsUtf8, Decoded;
    var next, text := AfterAppend(content, r, target), CuratedAppend(r, target);
    if IsUtf8(content) {
      var before := Decoded(Separated(content));
      AppendHasMarker(r, target);
      ContainsWithin(before, text, "", MarkerText(r.note, target));
      assert before + text + "" == before + text;
      forall note | HasMarker(content, note, target) ensures HasMarker(next, note, target) {
        MarkerStays(content, next, note, target);
      }
    }
  }

  /** The block written for `r` mentions the marker of another note. */
  ghost predicate Quotes(r: Request, note: string, target: string) {
    r.note != note && Contains(CuratedAppend(r, target), MarkerText(note, target))
  }

  lemma NoOccurrenceAcross(a: string, b: string, pattern: string, k: nat)
    requires '\n' !in pattern && k < |a| < k + |pattern|
    requires a[|a| - 1] == '\n' || (b != [] && b[0] == '\n')
    ensures !OccursAt(a + b, pattern, k)
  {
    hide OccursAt;
    var s := a + b;
    OccursLetter(s, pattern, k, |a| - 1 - k);
    OccursLetter(s, pattern, k, |a| - k);
  }

  lemma NoStraddling(a: string, b: string, pattern: string)
    requires '\n' !in pattern && (a == [] || a[|a| - 1] == '\n' || (b != [] && b[0] == '\n'))
    ensures Contains(a + b, pattern) <==> Contains(a, pattern) || Contains(b, pattern)
  {
    hide Find;
    if Contains(a, pattern) {
      OccursExtends(a, pattern, b);
    }
    if Contains(b, pattern) {
      ContainsWithin(a, b, "", pattern);
      assert a + b + "" == a + b;
    }
    if Contains(a + b, pattern) {
      var k := Find(a + b, pattern).value;
      if k >= |a| {
        OccursInSuffix(a, b, pattern, k - |a|);
      } else if k + |pattern| <= |a| {
        assert a[k..k + |pattern|] == (a + b)[k..k + |pattern|];
        assert OccursAt(a, pattern, k);
      } else {
        NoOccurrenceAcross(a, b, pattern, k);
      }
    }
  }

  lemma MarkerIsOneLine(note: string, target: string)
    requires '\n' !in note && PromotionTarget.Clean(target)
    ensures '\n' !in MarkerText(note, target) && MarkerText(note, target) != []
  {
  }

  lemma BlockStarts(r: Request, target: string)
    ensures CuratedAppend(r, target) != [] && CuratedAppend(r, target)[0] == '\n'
  {
  }

  lemma SeparatedMarker(content: Content, note: string, target: string)
    requires '\n' !in note && PromotionTarget.Clean(target) && IsUtf8(content)
    ensures Contains(Decoded(Separated(content)), MarkerText(note, target)) <==> HasMarker(content, note, target)
  {
    MarkerIsOneLine(note, target);
    hide Contains, MarkerText;
    if Separated(content) != content {
      assert Decoded(Separated(content)) == Decoded(content) + "\n";
      NoStraddling(Decoded(content), "\n", MarkerText(note, target));
      NewlineAlone(MarkerText(note, target));
    }
  }

  lemma NewlineAlone(pattern: string)
    requires '\n' !in pattern && pattern != []
    ensures !Contains("\n", pattern)
  {
    hide Find, OccursAt;
    assert pattern[0] in pattern;
    forall k: nat ensures !OccursAt("\n", pattern, k) {
      OccursStart("\n", pattern, k);
    }
  }

  /** An append brings only the markers that stand in its own block. */
  lemma MarkerAfterAppend(content: Content, r: Request, note: string, target: string)
    requires '\n' !in note && PromotionTarget.Clean(target) && IsUtf8(content)
    ensures HasMarker(AfterAppend(content, r, target), note, target) <==>
            HasMarker(content, note, target) || note == r.note || Quotes(r, note, target)
  {
    hide MarkerText, CuratedAppend, Contains, AfterAppend, Separated;
    AppendShape(content, r, target);
    MarkerIsOneLine(note, target);
    BlockStarts(r, target);
    SeparatedMarker(content, note, target);
    AppendHasMarker(r, target);
    NoStraddling(Decoded(Separated(content)), CuratedAppend(r, target), MarkerText(note, target));
  }

  lemma ExistsGrows(events: seq<AuditEvent>, e: AuditEvent, note: string, target: string)
    ensures PromotionExists(events, note, target) ==> PromotionExists(events + [e], note, target)
    ensures Claims(e, note, target) ==> PromotionExists(events + [e], note, target)
  {
    hide Claims;
    var more := events + [e];
    if PromotionExists(events, note, target) {
      var k :| 0 <= k < |events| && Claims(events[k], note, target);
      assert more[k] == events[k];
    }
    assert more[|events|] == e;
  }

  // -------------------------------------------------------------- one call alone

  /** The store as one call sees it while nothing else runs. */
  class Store {
    const target: string
    var content: Content
    var events: seq<AuditEvent>

    constructor (target: string, content: Content, events: seq<AuditEvent>)
      ensures this.target == target && this.content == content && this.events == events
    {
      this.target := target;
      this.content := content;
      this.events := events;
    }

    /** An undisturbed call: a recorded promotion changes nothing, a marked file
        gets only the missing event, anything else gets both. */
    method Promote(r: Request) returns (promoted: bool)
      requires PromotionTarget.Clean(target)
      modifies `content, `events
      ensures PromotionExists(events, r.note, target)
      ensures old(PromotionExists(events, r.note, target)) ==>
                !promoted && content == old(content) && events == old(events)
      ensures !old(PromotionExists(events, r.note, target)) ==>
                && events == old(events) + [EventFor(r.note, target)]
                && promoted == !HasMarker(old(content), r.note, target)
                && content == (if promoted then AfterAppend(old(content), r, target) else old(content))
      ensures promoted ==> Adds(old(content), content, r, target)
    {
      hide PromotionExists, HasMarker, CuratedAppend, EventFor, Adds;
      if PromotionExists(events, r.note, target) {
        return false;
      }
      EventReadsBack(r.note, target);
      ExistsGrows(events, EventFor(r.note, target), r.note, target);
      var before := content;
      if HasMarker(before, r.note, target) {
        events := events + [EventFor(r.note, target)];
        return false;
      }
      var next := before;
      if next != [] && next[|next| - 1] != Ch('\n') {
        next := next + [Ch('\n')];
      }
      next := next + Encoded(CuratedAppend(r, target));
      content := next;
      events := events + [EventFor(r.note, target)];
      AppendAddsText(before, r, target);
      return true;
    }
  }
}
