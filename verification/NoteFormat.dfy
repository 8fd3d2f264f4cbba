/** Markdown notes with TOML front matter: validation, printing and parsing. */
module NoteFormat {
  import opened Wrappers
  import opened Text

  datatype Kind = Preference | ProjectFact | Incident | Reference
  datatype Verdict = Llm | Manual
  datatype EntryKind = Remember | Note

  datatype Classified =
    Classified(source: Verdict, backend: Option<string>, at: string, version: nat, confidence: Option<string>)

  /** `meta` stands for subject, tags and confidence, `rest` for the remaining
      fields, which are only copied. */
  datatype FrontMatter = FrontMatter(
    schemaVersion: nat,
    noteType: string,
    entryKind: EntryKind,
    id: string,
    storeId: string,
    storeName: string,
    createdAt: string,
    agentId: string,
    hostId: string,
    scope: string,
    projectId: Option<string>,
    expiresAt: Option<string>,
    validFrom: Option<string>,
    validTo: Option<string>,
    supersedes: seq<string>,
    kind: Option<Kind>,
    classified: Option<Classified>,
    audience: seq<string>,
    meta: string,
    rest: string)

  datatype MarkdownNote = MarkdownNote(frontMatter: FrontMatter, body: string)

  datatype NoteError =
    | MissingFrontMatter
    | InvalidFrontMatter
    | UnsupportedSchema(version: nat)
    | WrongType(found: string)
    | MissingField(field: string)
    | InvalidTimestamp(field: string, value: string)
    | InvalidWindow(validFrom: string, validTo: string)
    | MissingAudience

  /** TOML and RFC 3339, about which only `Sound` is assumed. */
  datatype Codec = Codec(
    toToml: FrontMatter -> string,
    fromToml: string -> Option<FrontMatter>,
    time: string -> Option<int>)
  {
    /** Pretty TOML ends in a newline and escapes '\r'; it reads back without
        that last newline.  Blank text is no timestamp. */
    ghost predicate Sound() {
      && (forall fm :: toToml(fm) != "" && toToml(fm)[|toToml(fm)| - 1] == '\n' && '\r' !in toToml(fm))
      && (forall fm :: fromToml(toToml(fm)[..|toToml(fm)| - 1]) == Some(fm))
      && (forall s :: IsBlank(s) ==> time(s).None?)
    }
  }

  const VERSION: nat := 1

  // ----------------------------------------------------------------- validation

  function RequireTime(c: Codec, field: string, value: string): Option<NoteError> {
    if c.time(value).None? then Some(InvalidTimestamp(field, value)) else None
  }

  function OrElse(first: Option<NoteError>, second: Option<NoteError>): Option<NoteError> {
    if first.Some? then first else second
  }

  function RequireText(field: string, value: string): Option<NoteError> {
    if IsBlank(value) then Some(MissingField(field)) else None
  }

  function CheckWindow(c: Codec, validFrom: Option<string>, validTo: Option<string>): Option<NoteError> {
    if validFrom.None? then
      if validTo.Some? then RequireTime(c, "valid_to", validTo.value) else None
    else if c.time(validFrom.value).None? then Some(InvalidTimestamp("valid_from", validFrom.value))
    else if validTo.None? then None
    else if c.time(validTo.value).None? then Some(InvalidTimestamp("valid_to", validTo.value))
    else if c.time(validFrom.value).value >= c.time(validTo.value).value then
      Some(InvalidWindow(validFrom.value, validTo.value))
    else None
  }

  function CheckText(fm: FrontMatter): Option<NoteError> {
    OrElse(RequireText("id", fm.id),
    OrElse(RequireText("store_id", fm.storeId),
    OrElse(RequireText("store_name", fm.storeName),
    OrElse(RequireText("created_at", fm.createdAt),
    OrElse(RequireText("agent_id", fm.agentId),
    OrElse(RequireText("host_id", fm.hostId),
           RequireText("scope", fm.scope)))))))
  }

  function CheckTimes(c: Codec, fm: FrontMatter): Option<NoteError> {
    OrElse(RequireTime(c, "created_at", fm.createdAt),
    OrElse(if fm.expiresAt.Some? then RequireTime(c, "expires_at", fm.expiresAt.value) else None,
    OrElse(CheckWindow(c, fm.validFrom, fm.validTo),
           if fm.classified.Some? then RequireTime(c, "classified.at", fm.classified.value.at) else None)))
  }

  /** The first violated rule, if any. */
  function Check(c: Codec, fm: FrontMatter): Option<NoteError> {
    if fm.schemaVersion != VERSION then Some(UnsupportedSchema(fm.schemaVersion))
    else if fm.noteType != "note" then Some(WrongType(fm.noteType))
    else
      OrElse(CheckText(fm),
      OrElse(CheckTimes(c, fm),
             if fm.scope == "agent-private" && fm.audience == [] then Some(MissingAudience) else None))
  }

  function NormalizeBlank(value: Option<string>): Option<string> {
    if value.Some? && IsBlank(value.value) then None else value
  }

  function Normalize(fm: FrontMatter): FrontMatter {
    fm.(expiresAt := NormalizeBlank(fm.expiresAt), validFrom := NormalizeBlank(fm.validFrom),
        validTo := NormalizeBlank(fm.validTo))
  }

  /** Valid front matter has no blank timestamps left to fold away. */
  lemma ValidIsNormal(c: Codec, fm: FrontMatter)
    requires c.Sound() && Check(c, fm).None?
    ensures Normalize(fm) == fm
  {
  }

  // ------------------------------------------------------------ print and parse

  const CLOSE_BLANK: string := "\n+++\n\n"
  const CLOSE: string := "\n+++\n"

  function Rendered(c: Codec, n: MarkdownNote): string {
    "+++\n" + (c.toToml(n.frontMatter) + "+++\n\n" + n.body)
  }

  function RenderNote(c: Codec, n: MarkdownNote): Result<string, NoteError> {
    match Check(c, n.frontMatter)
    case Some(e) => Err(e)
    case None => Ok(Rendered(c, n))
  }

  /** Replaces every "\r\n" by "\n". */
  function FoldCrLf(s: string): string {
    if s == [] then []
    else if "\r\n" <= s then "\n" + FoldCrLf(s[2..])
    else [s[0]] + FoldCrLf(s[1..])
  }

  /** Replaces every remaining '\r' by '\n'. */
  function FoldCr(s: string): (r: string)
    ensures |r| == |s| && forall k | 0 <= k < |s| :: r[k] == if s[k] == '\r' then '\n' else s[k]
  {
    seq(|s|, k requires 0 <= k < |s| => if s[k] == '\r' then '\n' else s[k])
  }

  function Canonical(s: string): (r: string)
    ensures '\r' !in r
  {
    FoldCr(FoldCrLf(s))
  }

  function SplitOnce(s: string, separator: string): (r: Option<(string, string)>)
  {
    match Find(s, separator)
    case None => None
    case Some(k) => Some((s[..k], s[k + |separator|..]))
  }

  /** The canonical closing first, then one directly followed by the body, then
      one at the very end. */
  function SplitFrontMatter(rest: string): Option<(string, string)> {
    if SplitOnce(rest, CLOSE_BLANK).Some? then SplitOnce(rest, CLOSE_BLANK)
    else if SplitOnce(rest, CLOSE).Some? then SplitOnce(rest, CLOSE)
    else if |rest| >= 4 && rest[|rest| - 4..] == "\n+++" then Some((rest[..|rest| - 4], ""))
    else None
  }

  function Interpret(c: Codec, parts: (string, string)): Result<MarkdownNote, NoteError> {
    match c.fromToml(parts.0)
    case None => Err(InvalidFrontMatter)
    case Some(fm) =>
      match Check(c, Normalize(fm))
      case Some(e) => Err(e)
      case None => Ok(MarkdownNote(Normalize(fm), parts.1))
  }

  function ParseNote(c: Codec, input: string): Result<MarkdownNote, NoteError> {
    var text := Canonical(input);
    if !("+++\n" <= text) then Err(MissingFrontMatter)
    else
      match SplitFrontMatter(text[4..])
      case None => Err(MissingFrontMatter)
      case Some(parts) => Interpret(c, parts)
  }

  /** What every readable note promises about itself. */
  ghost predicate Valid(c: Codec, fm: FrontMatter) {
    && fm.schemaVersion == 1 && fm.noteType == "note"
    && (forall text | text in [fm.id, fm.storeId, fm.storeName, fm.createdAt, fm.agentId, fm.hostId, fm.scope] ::
          exists ch :: ch in text && !IsWhite(ch))
    && c.time(fm.createdAt).Some?
    && (fm.expiresAt.Some? ==> c.time(fm.expiresAt.value).Some?)
    && (fm.validFrom.Some? ==> c.time(fm.validFrom.value).Some?)
    && (fm.validTo.Some? ==> c.time(fm.validTo.value).Some?)
    && (fm.validFrom.Some? && fm.validTo.Some? ==> c.time(fm.validFrom.value).value < c.time(fm.validTo.value).value)
    && (fm.classified.Some? ==> c.time(fm.classified.value.at).Some?)
    && (fm.scope == "agent-private" ==> |fm.audience| > 0)
  }

  lemma TextIff(fm: FrontMatter)
    ensures CheckText(fm).None? <==>
            forall text | text in [fm.id, fm.storeId, fm.storeName, fm.createdAt, fm.agentId, fm.hostId, fm.scope] ::
              exists ch :: ch in text && !IsWhite(ch)
  {
    var all := [fm.id, fm.storeId, fm.storeName, fm.createdAt, fm.agentId, fm.hostId, fm.scope];
    assert all[0] in all && all[1] in all && all[2] in all && all[3] in all && all[4] in all && all[5] in all && all[6] in all;
    forall text: string ensures !IsBlank(text) <==> exists ch :: ch in text && !IsWhite(ch) {}
    hide IsBlank, IsWhite;
  }

  /** The checks find nothing exactly in valid front matter. */
  lemma ValidIff(c: Codec, fm: FrontMatter)
    ensures Check(c, fm).None? <==> Valid(c, fm)
  {
    TextIff(fm);
    hide CheckText, IsWhite;
  }

  /** Blank timestamps read as absent; nothing else is changed by reading. */
  ghost predicate Folded(raw: FrontMatter, fm: FrontMatter) {
    && fm == raw.(expiresAt := fm.expiresAt, validFrom := fm.validFrom, validTo := fm.validTo)
    && forall k | 0 <= k < 3 ::
         var x, y := [raw.expiresAt, raw.validFrom, raw.validTo][k], [fm.expiresAt, fm.validFrom, fm.validTo][k];
         if x.Some? && IsBlank(x.value) then y.None? else y == x
  }

  /** A note that parses is valid, and is its TOML but for blank timestamps. */
  lemma ParsedIsValid(c: Codec, input: string) returns (toml: string)
    requires ParseNote(c, input).Ok?
    ensures var fm := ParseNote(c, input).value.frontMatter;
            && Valid(c, fm)
            && c.fromToml(toml).Some? && Folded(c.fromToml(toml).value, fm)
            && ("+++\n" + toml + "\n+++") <= Canonical(input)
  {
    hide Check, Canonical, Valid;
    var text := Canonical(input);
    toml := SplitFrontMatter(text[4..]).value.0;
    ValidIff(c, ParseNote(c, input).value.frontMatter);
    FrontPart(text[4..]);
    assert text == "+++\n" + text[4..];
    assert "+++\n" + (toml + "\n+++") == "+++\n" + toml + "\n+++";
  }

  lemma FrontPart(rest: string)
    ensures SplitFrontMatter(rest).Some? ==> (SplitFrontMatter(rest).value.0 + "\n+++") <= rest
  {
    assert CLOSE_BLANK[..4] == "\n+++" && CLOSE[..4] == "\n+++";
    AroundSeparator(rest, CLOSE_BLANK);
    AroundSeparator(rest, CLOSE);
    hide SplitOnce;
    var n := |rest| - 4;
    if n >= 0 && rest[n..] == "\n+++" {
      assert rest[..n] + "\n+++" == rest;
    }
  }

  lemma AroundSeparator(s: string, separator: string)
    requires |separator| >= 4 && separator[..4] == "\n+++"
    ensures SplitOnce(s, separator).Some? ==> (SplitOnce(s, separator).value.0 + "\n+++") <= s
  {
    if Find(s, separator).Some? {
      var k := Find(s, separator).value;
      assert s[k..k + |separator|][..4] == s[k..k + 4];
      assert s[..k] + s[k..k + 4] == s[..k + 4];
    }
  }

  // ---------------------------------------------------------------- line endings

  lemma {:induction false} FoldNothing(s: string)
    requires '\r' !in s
    ensures FoldCrLf(s) == s
  {
    if s != [] {
      assert s[0] in s;
      FoldNothing(s[1..]);
    }
  }

  lemma CanonicalNothing(s: string)
    requires '\r' !in s
    ensures Canonical(s) == s
  {
    FoldNothing(s);
    assert forall k | 0 <= k < |s| :: s[k] in s;
  }

  function ToCrLf(s: string): string {
    if s == [] then [] else (if s[0] == '\n' then "\r\n" else [s[0]]) + ToCrLf(s[1..])
  }

  function ToCr(s: string): (r: string)
    ensures |r| == |s| && forall k | 0 <= k < |s| :: r[k] == if s[k] == '\n' then '\r' else s[k]
  {
    seq(|s|, k requires 0 <= k < |s| => if s[k] == '\n' then '\r' else s[k])
  }

  lemma {:induction false} FoldCrLfUndoes(s: string)
    requires '\r' !in s
    ensures FoldCrLf(ToCrLf(s)) == s
  {
    if s != [] {
      assert s[0] in s;
      FoldCrLfUndoes(s[1..]);
      var tail := ToCrLf(s[1..]);
      if s[0] == '\n' {
        assert ("\r\n" + tail)[2..] == tail;
      } else {
        assert ([s[0]] + tail)[1..] == tail;
      }
    }
  }

  lemma {:induction false} FoldKeepsLoneCr(s: string)
    requires '\n' !in s
    ensures FoldCrLf(s) == s
  {
    if s != [] {
      assert |s| > 1 ==> s[1] in s;
      FoldKeepsLoneCr(s[1..]);
    }
  }

  /** Canonical text survives conversion to either foreign line ending. */
  lemma LineEndingsUndone(s: string)
    requires '\r' !in s
    ensures Canonical(ToCrLf(s)) == s && Canonical(ToCr(s)) == s
  {
    FoldCrLfUndoes(s);
    CanonicalNothing(s);
    FoldNothing(s);
    FoldKeepsLoneCr(ToCr(s));
    assert forall k | 0 <= k < |s| :: s[k] in s;
  }

  // ------------------------------------------------------------------ round trip

  /** The closing delimiter as `RenderNote` writes it does not occur earlier. */
  predicate Splits(c: Codec, fm: FrontMatter) {
    !Contains(c.toToml(fm), CLOSE_BLANK)
  }

  /** An occurrence that starts before the written delimiter lies inside the TOML. */
  lemma NoEarlierClose(toml: string, body: string, j: nat)
    requires toml != "" && toml[|toml| - 1] == '\n' && j < |toml| - 1
    ensures OccursAt(toml + "+++\n\n" + body, CLOSE_BLANK, j) <==> OccursAt(toml, CLOSE_BLANK, j)
  {
    var tail := "+++\n\n" + body;
    var s := toml + "+++\n\n" + body;
    assert s == toml + tail && |CLOSE_BLANK| == 6;
    var n := |toml| - 1;
    assert forall k | 0 <= k < |toml| :: s[k] == toml[k];
    assert forall k | 0 <= k < 5 :: s[|toml| + k] == "+++\n\n"[k];
    if j + 6 <= |toml| {
      assert s[j..j + 6] == toml[j..j + 6];
    } else if j + 6 <= |s| {
      // The newline that ends the TOML falls on a plus sign, or the plus sign
      // after it falls on the last newline.
      assert s[n] == '\n' && s[n + 1] == '+';
      assert s[j..j + 6][n - j] == s[n] && s[j..j + 6][1] == s[j + 1] && s[j..j + 6][5] == s[j + 5];
      assert CLOSE_BLANK[1] == '+' && CLOSE_BLANK[2] == '+' && CLOSE_BLANK[3] == '+' && CLOSE_BLANK[5] == '\n';
    }
  }

  lemma CloseAtToml(toml: string, body: string)
    requires toml != "" && toml[|toml| - 1] == '\n'
    ensures OccursAt(toml + "+++\n\n" + body, CLOSE_BLANK, |toml| - 1)
  {
  }

  /** Where the printed text is split. */
  lemma SplitRendered(toml: string, body: string)
    requires toml != "" && toml[|toml| - 1] == '\n'
    ensures var r := SplitFrontMatter(toml + "+++\n\n" + body);
            && r.Some?
            && (!Contains(toml, CLOSE_BLANK) ==> r.value == (toml[..|toml| - 1], body))
            && (Contains(toml, CLOSE_BLANK) ==> |r.value.1| > |body|)
  {
    var s := toml + "+++\n\n" + body;
    CloseAtToml(toml, body);
    forall j: nat | j < |toml| - 1
      ensures OccursAt(s, CLOSE_BLANK, j) <==> OccursAt(toml, CLOSE_BLANK, j)
    {
      NoEarlierClose(toml, body, j);
    }
    var k := Find(s, CLOSE_BLANK).value;
    assert |CLOSE_BLANK| == 6;
    if Contains(toml, CLOSE_BLANK) {
      var i := Find(toml, CLOSE_BLANK).value;
      assert OccursAt(s, CLOSE_BLANK, i);
    } else {
      assert !OccursAt(toml, CLOSE_BLANK, |toml| - 1);
      assert k == |toml| - 1;
      assert s[..k] == toml[..k] && s[k + 6..] == body;
    }
  }

  lemma CanonicalKeeps(a: string, b: string)
    requires '\r' !in a
    ensures Canonical(a + b) == a + Canonical(b)
    decreases |a|
  {
    FoldAfter(a, b);
    var x := FoldCrLf(b);
    assert forall k | 0 <= k < |a| :: a[k] in a;
  }

  lemma {:induction false} FoldAfter(a: string, b: string)
    requires '\r' !in a
    ensures FoldCrLf(a + b) == a + FoldCrLf(b)
    decreases |a|
  {
    if a == [] {
      assert a + b == b;
    } else {
      assert a[0] in a && (a + b)[0] == a[0];
      assert (a + b)[1..] == a[1..] + b;
      FoldAfter(a[1..], b);
      assert [a[0]] + (a[1..] + FoldCrLf(b)) == a + FoldCrLf(b);
    }
  }

  /** Parsing what was printed gives the note back exactly when its body has no
      carriage return and its TOML does not itself contain a closing delimiter
      followed by a blank line. */
  lemma RoundTripIff(c: Codec, n: MarkdownNote)
    requires c.Sound() && RenderNote(c, n).Ok?
    ensures ParseNote(c, RenderNote(c, n).value) == Ok(n) <==> '\r' !in n.body && Splits(c, n.frontMatter)
  {
    hide Contains, Canonical, Check, SplitFrontMatter, Codec.Sound, Normalize;
    var toml, body := c.toToml(n.frontMatter), Canonical(n.body);
    TomlShape(c, n.frontMatter);
    CanonicalOfRendered(c, n);
    SplitRendered(toml, body);
    SplitPieces(toml + "+++\n\n" + body);
    ValidIsNormal(c, n.frontMatter);
    CanonicalLength(n.body);
    if '\r' !in n.body { CanonicalNothing(n.body); }
  }

  lemma TomlShape(c: Codec, fm: FrontMatter)
    requires c.Sound()
    ensures var toml := c.toToml(fm);
            && toml != "" && toml[|toml| - 1] == '\n' && '\r' !in toml
            && c.fromToml(toml[..|toml| - 1]) == Some(fm)
  {
  }

  lemma CanonicalOfRendered(c: Codec, n: MarkdownNote)
    requires '\r' !in c.toToml(n.frontMatter)
    ensures var text := Canonical(Rendered(c, n));
            && "+++\n" <= text
            && text[4..] == c.toToml(n.frontMatter) + "+++\n\n" + Canonical(n.body)
  {
    hide Canonical;
    var toml := c.toToml(n.frontMatter);
    var head := "+++\n" + toml + "+++\n\n";
    assert '\r' !in head;
    CanonicalKeeps(head, n.body);
    assert Rendered(c, n) == head + n.body;
    var rest := toml + "+++\n\n" + Canonical(n.body);
    assert head + Canonical(n.body) == "+++\n" + rest;
    AfterOpening(rest);
  }

  lemma AfterOpening(rest: string)
    ensures "+++\n" <= "+++\n" + rest && ("+++\n" + rest)[4..] == rest
  {
  }

  /** Otherwise the parser splits inside the TOML: the file no longer parses, or
      its body has swallowed the rest of the TOML. */
  lemma DelimiterMovesBody(c: Codec, n: MarkdownNote)
    requires c.Sound() && RenderNote(c, n).Ok? && '\r' !in n.body && !Splits(c, n.frontMatter)
    ensures var r := ParseNote(c, RenderNote(c, n).value); r.Ok? ==> |r.value.body| > |n.body|
  {
    hide Contains, Canonical, Check, SplitFrontMatter, Codec.Sound, Normalize;
    TomlShape(c, n.frontMatter);
    CanonicalOfRendered(c, n);
    CanonicalNothing(n.body);
    SplitRendered(c.toToml(n.frontMatter), n.body);
  }

  lemma CanonicalLength(s: string)
    ensures |Canonical(s)| <= |s|
  {
    FoldShrinks(s);
  }

  lemma {:induction false} FoldShrinks(s: string)
    ensures |FoldCrLf(s)| <= |s|
  {
    if s != [] {
      if "\r\n" <= s { FoldShrinks(s[2..]); } else { FoldShrinks(s[1..]); }
    }
  }

  /** A printed note still parses after a foreign editor rewrote its line ends. */
  lemma RoundTripForeign(c: Codec, n: MarkdownNote)
    requires c.Sound() && RenderNote(c, n).Ok? && '\r' !in n.body && Splits(c, n.frontMatter)
    ensures var printed := RenderNote(c, n).value;
            ParseNote(c, ToCrLf(printed)) == Ok(n) && ParseNote(c, ToCr(printed)) == Ok(n)
  {
    hide Check, SplitFrontMatter, Interpret;
    RoundTripIff(c, n);
    var printed := RenderNote(c, n).value;
    assert '\r' !in c.toToml(n.frontMatter);
    assert '\r' !in printed;
    LineEndingsUndone(printed);
    CanonicalNothing(printed);
  }

  lemma SplitPieces(s: string)
    ensures SplitFrontMatter(s).Some? ==> forall ch | ch in SplitFrontMatter(s).value.1 :: ch in s
  {
  }

  /** Whatever parses can be printed again, and parses back to the same note
      unless its TOML holds a closing delimiter. */
  lemma ParsedRoundTrips(c: Codec, input: string)
    requires c.Sound() && ParseNote(c, input).Ok?
    ensures var n := ParseNote(c, input).value;
            && '\r' !in n.body
            && RenderNote(c, n).Ok?
            && (Splits(c, n.frontMatter) ==> ParseNote(c, RenderNote(c, n).value) == Ok(n))
  {
    hide Check, Canonical, SplitFrontMatter, Normalize, Splits;
    var text := Canonical(input);
    SplitPieces(text[4..]);
    var n := ParseNote(c, input).value;
    RoundTripIff(c, n);
  }

  /** A note whose closing delimiter ends the file has an empty body. */
  lemma ClosedAtEnd(c: Codec, fm: FrontMatter)
    requires c.Sound() && Check(c, fm).None? && !Contains(c.toToml(fm), CLOSE)
    ensures ParseNote(c, "+++\n" + c.toToml(fm) + "+++") == Ok(MarkdownNote(fm, ""))
  {
    hide Check, Find;
    var toml := c.toToml(fm);
    var rest, input := toml + "+++", "+++\n" + toml + "+++";
    CanonicalNothing(input);
    assert input == "+++\n" + rest;
    AfterOpening(rest);
    NoCloseAtEnd(toml);
    assert rest[|rest| - 4..] == [toml[|toml| - 1]] + "+++" && rest[..|rest| - 4] == toml[..|toml| - 1];
    ValidIsNormal(c, fm);
  }

  lemma NoCloseAtEnd(toml: string)
    requires toml != "" && toml[|toml| - 1] == '\n' && !Contains(toml, CLOSE)
    ensures !Contains(toml + "+++", CLOSE) && !Contains(toml + "+++", CLOSE_BLANK)
  {
    var s := toml + "+++";
    assert |CLOSE| == 5 && CLOSE[4] == '\n' && CLOSE_BLANK[..5] == CLOSE;
    forall j: nat ensures !OccursAt(s, CLOSE, j) && !OccursAt(s, CLOSE_BLANK, j) {
      if j + 5 <= |s| {
        assert j + 5 > |toml| ==> s[j..j + 5][4] == s[j + 4] == '+';
        assert j + 5 <= |toml| ==> s[j..j + 5] == toml[j..j + 5];
        assert !OccursAt(toml, CLOSE, j);
        assert j + 6 <= |s| ==> s[j..j + 6][..5] == s[j..j + 5];
      }
    }
  }

  /** Where the two delimiters are first found. */
  lemma DirectFinds(toml: string, body: string)
    requires toml != "" && toml[|toml| - 1] == '\n' && !Contains(toml, CLOSE)
    ensures var s, n := toml + "+++\n" + body, |toml| - 1;
            && s == toml[..n] + (CLOSE + body)
            && Find(s, CLOSE) == Some(n)
            && (Contains(CLOSE + body, CLOSE_BLANK) <==> Find(s, CLOSE_BLANK).Some?)
            && (Find(s, CLOSE_BLANK).Some? ==> n <= Find(s, CLOSE_BLANK).value <= |s| - 6)
  {
    var s, n, late := toml + "+++\n" + body, |toml| - 1, CLOSE + body;
    assert s == toml[..n] + late;
    forall j: nat | j < n ensures !OccursAt(s, CLOSE, j) && !OccursAt(s, CLOSE_BLANK, j) {
      CloseStartsLate(toml, body, j);
    }
    FindInSuffix(toml[..n], late, CLOSE);
    FindInSuffix(toml[..n], late, CLOSE_BLANK);
    FoundFirst(body);
    hide Find;
  }

  lemma FoundFirst(body: string)
    ensures Find(CLOSE + body, CLOSE) == Some(0)
  {
  }

  /** With nothing between delimiter and body, the first delimiter is the one
      after the TOML, and everything depends on whether the canonical closing
      occurs from there on. */
  lemma SplitDirect(toml: string, body: string)
    requires toml != "" && toml[|toml| - 1] == '\n' && !Contains(toml, CLOSE)
    ensures var r := SplitFrontMatter(toml + "+++\n" + body);
            && r.Some?
            && (!Contains(CLOSE + body, CLOSE_BLANK) ==> r.value == (toml[..|toml| - 1], body))
            && (Contains(CLOSE + body, CLOSE_BLANK) ==> |r.value.1| < |body|)
  {
    DirectFinds(toml, body);
    hide Find, Contains;
    var s, n := toml + "+++\n" + body, |toml| - 1;
    assert s[..n] == toml[..n] && s[n + 5..] == body;
  }

  lemma CloseStartsLate(toml: string, body: string, j: nat)
    requires toml != "" && toml[|toml| - 1] == '\n' && !Contains(toml, CLOSE) && j < |toml| - 1
    ensures !OccursAt(toml + "+++\n" + body, CLOSE, j) && !OccursAt(toml + "+++\n" + body, CLOSE_BLANK, j)
  {
    var s := toml + "+++\n" + body;
    assert |CLOSE| == 5 && CLOSE[4] == '\n' && CLOSE_BLANK[..5] == CLOSE && !OccursAt(toml, CLOSE, j);
    assert forall k | 0 <= k < 4 :: s[|toml| + k] == "+++\n"[k];
    if j + 5 <= |toml| {
      assert s[j..j + 5] == toml[j..j + 5];
      assert j + 6 <= |s| ==> s[j..j + 6][..5] == s[j..j + 5];
    } else {
      assert s[j..j + 5][4] == s[j + 4] == '+';
      assert j + 6 <= |s| ==> s[j..j + 6][..5] == s[j..j + 5];
    }
  }

  /** A hand-written note without the blank separator keeps its body exactly
      when no canonical closing occurs at or after its delimiter; otherwise the
      parser splits at that later one. */
  lemma DirectBodyIff(c: Codec, n: MarkdownNote)
    requires c.Sound() && Check(c, n.frontMatter).None? && '\r' !in n.body && !Contains(c.toToml(n.frontMatter), CLOSE)
    ensures ParseNote(c, "+++\n" + (c.toToml(n.frontMatter) + "+++\n" + n.body)) == Ok(n) <==>
            !Contains(CLOSE + n.body, CLOSE_BLANK)
  {
    hide Check, Contains, SplitFrontMatter;
    var toml := c.toToml(n.frontMatter);
    var rest := toml + "+++\n" + n.body;
    CanonicalNothing("+++\n" + rest);
    AfterOpening(rest);
    SplitDirect(toml, n.body);
    ValidIsNormal(c, n.frontMatter);
  }

  /** A body with a carriage return is not given back. */
  lemma CarriageReturnLost(c: Codec, fm: FrontMatter)
    requires c.Sound() && Check(c, fm).None?
    ensures var n := MarkdownNote(fm, "a\rb"); ParseNote(c, RenderNote(c, n).value) != Ok(n)
  {
    var n := MarkdownNote(fm, "a\rb");
    assert n.body[1] == '\r';
    hide Check;
    RoundTripIff(c, n);
  }

  /** A body that starts with a newline right after the delimiter loses it: the
      text is that of the note without it. */
  lemma LeadingNewlineLost(c: Codec, fm: FrontMatter, body: string)
    requires c.Sound() && Check(c, fm).None? && Splits(c, fm) && '\r' !in body
    ensures ParseNote(c, "+++\n" + (c.toToml(fm) + "+++\n" + ("\n" + body))) == Ok(MarkdownNote(fm, body))
  {
    var n := MarkdownNote(fm, body);
    assert c.toToml(fm) + "+++\n" + ("\n" + body) == c.toToml(fm) + "+++\n\n" + body;
    hide Check, ParseNote, Splits;
    RoundTripIff(c, n);
  }
}
