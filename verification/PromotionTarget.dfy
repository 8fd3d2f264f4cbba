/** Which store-relative paths a note may be promoted into. */
module PromotionTarget {
  import opened Wrappers
  import opened Text
  import opened Sorting

  datatype TargetError = Absolute | BadCharacter | Parent | Empty | NotCollected | NotMarkdown

  /** What lies between slashes; at least one piece. */
  function Pieces(path: string): (r: seq<string>)
    ensures r != []
  {
    var k := IndexOf(path, '/');
    if k == |path| then [path] else [path[..k]] + Pieces(path[k + 1..])
  }

  /** Empty pieces and `.` vanish when a path is taken apart. */
  predicate Vanishes(piece: string) {
    piece == "" || piece == "."
  }

  /** The characters that would break an event body line or a marker. */
  predicate Clean(name: string) {
    forall c | c in name :: c != '"' && c != '\n' && c != '\r' && c != '\\'
  }

  function Normalize(pieces: seq<string>): Result<seq<string>, TargetError> {
    if pieces == [] then Ok([])
    else
      var front, piece := Normalize(pieces[..|pieces| - 1]), pieces[|pieces| - 1];
      if front.Err? || Vanishes(piece) then front
      else if piece == ".." then Err(Parent)
      else if !Clean(piece) then Err(BadCharacter)
      else Ok(front.value + [piece])
  }

  predicate SafeProjectId(id: string) {
    Pieces(id) == [id] && !Vanishes(id) && id != ".."
  }

  /** The directories the curated collector walks. */
  predicate Collected(names: seq<string>) {
    || (|names| >= 2 && (names[0] == "rules" || names[0] == "people"))
    || (|names| >= 3 && names[0] == "memories" && names[1] == "global")
    || (|names| >= 4 && names[0] == "memories" && names[1] == "projects" && SafeProjectId(names[2]))
  }

  /** The extension is `md`: something precedes the last dot. */
  predicate IsMarkdown(names: seq<string>) {
    names != [] && var last := names[|names| - 1]; |last| > 3 && last[|last| - 3..] == ".md"
  }

  function Validate(path: string): Result<seq<string>, TargetError> {
    if "/" <= path then Err(Absolute)
    else
      match Normalize(Pieces(path))
      case Err(e) => Err(e)
      case Ok(names) =>
        if names == [] then Err(Empty)
        else if !Collected(names) then Err(NotCollected)
        else if !IsMarkdown(names) then Err(NotMarkdown)
        else Ok(names)
  }

  lemma {:induction false} ErrorStays(pieces: seq<string>, k: nat)
    requires k <= |pieces| && Normalize(pieces[..k]).Err?
    ensures Normalize(pieces) == Normalize(pieces[..k])
    decreases |pieces|
  {
    if k == |pieces| {
      assert pieces[..k] == pieces;
    } else {
      var n := |pieces| - 1;
      assert pieces[..n][..k] == pieces[..k];
      ErrorStays(pieces[..n], k);
    }
  }

  method ValidateTarget(path: string) returns (r: Result<seq<string>, TargetError>)
    ensures r == Validate(path)
  {
    if "/" <= path {
      return Err(Absolute);
    }
    var pieces := Pieces(path);
    var normalized: seq<string> := [];
    for k := 0 to |pieces|
      invariant Normalize(pieces[..k]) == Ok(normalized)
    {
      assert pieces[..k + 1][..k] == pieces[..k];
      if Vanishes(pieces[k]) {
        continue;
      }
      if pieces[k] == ".." {
        ErrorStays(pieces, k + 1);
        return Err(Parent);
      }
      if !Clean(pieces[k]) {
        ErrorStays(pieces, k + 1);
        return Err(BadCharacter);
      }
      normalized := normalized + [pieces[k]];
    }
    assert pieces[..|pieces|] == pieces;
    if normalized == [] {
      return Err(Empty);
    }
    if !Collected(normalized) {
      return Err(NotCollected);
    }
    if !IsMarkdown(normalized) {
      return Err(NotMarkdown);
    }
    return Ok(normalized);
  }

  function Target(names: seq<string>): string {
    Join(names, "/")
  }

  predicate PlainName(name: string) {
    '/' !in name && !Vanishes(name) && name != ".." && Clean(name)
  }

  lemma {:induction false} PiecesHaveNoSlash(path: string)
    ensures forall k | 0 <= k < |Pieces(path)| :: '/' !in Pieces(path)[k]
    decreases |path|
  {
    var k := IndexOf(path, '/');
    if k < |path| {
      PiecesHaveNoSlash(path[k + 1..]);
    } else {
      assert path[..k] == path;
    }
  }

  lemma {:induction false} NormalizedArePlain(pieces: seq<string>)
    requires forall k | 0 <= k < |pieces| :: '/' !in pieces[k]
    ensures Normalize(pieces).Ok? ==> forall k | 0 <= k < |Normalize(pieces).value| :: PlainName(Normalize(pieces).value[k])
    decreases |pieces|
  {
    if pieces != [] {
      NormalizedArePlain(pieces[..|pieces| - 1]);
    }
  }

  lemma PiecesCons(name: string, rest: string)
    requires '/' !in name
    ensures Pieces(name) == [name]
    ensures Pieces(name + "/" + rest) == [name] + Pieces(rest)
  {
    assert name[..|name|] == name;
    IndexOfUnique(name, '/', |name|);
    var s := name + "/" + rest;
    assert s[..|name|] == name && s[|name| + 1..] == rest;
    IndexOfUnique(s, '/', |name|);
  }

  lemma {:induction false} PiecesOfTarget(names: seq<string>)
    requires names != [] && forall k | 0 <= k < |names| :: PlainName(names[k])
    ensures Pieces(Target(names)) == names
    ensures Clean(Target(names)) && Target(names) != "" && Target(names)[0] != '/'
  {
    hide Clean, Pieces;
    assert PlainName(names[0]) && names[0] != "" && names[0][0] in names[0];
    if |names| == 1 {
      PiecesCons(names[0], "");
    } else {
      PiecesOfTarget(names[1..]);
      PiecesCons(names[0], Target(names[1..]));
      CleanJoin(names[0], Target(names[1..]));
    }
  }

  lemma CleanJoin(a: string, b: string)
    requires Clean(a) && Clean(b)
    ensures Clean(a + "/" + b)
  {
  }

  lemma {:induction false} NormalizePlain(names: seq<string>)
    requires forall k | 0 <= k < |names| :: PlainName(names[k])
    ensures Normalize(names) == Ok(names)
    decreases |names|
  {
    if names != [] {
      var n := |names| - 1;
      NormalizePlain(names[..n]);
      assert PlainName(names[n]) && names == names[..n] + [names[n]];
    }
  }

  /** An accepted target stays inside the store under a collected directory, is
      in normal form, and can be quoted on one line. */
  lemma AcceptedTarget(path: string)
    requires Validate(path).Ok?
    ensures var names := Validate(path).value;
            && (forall k | 0 <= k < |names| :: PlainName(names[k]))
            && Collected(names) && IsMarkdown(names)
            && Clean(Target(names)) && Target(names) != ""
            && Validate(Target(names)) == Ok(names)
  {
    hide Collected, IsMarkdown, Clean, Normalize, Pieces;
    var names := Validate(path).value;
    PiecesHaveNoSlash(path);
    NormalizedArePlain(Pieces(path));
    PiecesOfTarget(names);
    NormalizePlain(names);
  }

  /** Two accepted paths name the same file exactly when their text agrees. */
  lemma TargetDetermines(a: string, b: string)
    requires Validate(a).Ok? && Validate(b).Ok?
    ensures Target(Validate(a).value) == Target(Validate(b).value) <==> Validate(a).value == Validate(b).value
  {
    hide Validate;
    AcceptedTarget(a);
    AcceptedTarget(b);
  }

  // ------------------------------------------------------------- the exact rule

  const Names: string -> bool := piece => piece != "" && piece != "."

  ghost predicate Forbidden(name: string) {
    name == ".." || exists c :: c in name && (c == '"' || c == '\n' || c == '\r' || c == '\\')
  }

  /** A directory that is collected, with something below it. */
  ghost predicate UnderCollected(names: seq<string>) {
    || (|names| > 1 && names[0] in {"rules", "people"})
    || (|names| > 2 && names[..2] == ["memories", "global"])
    || (|names| > 3 && names[..2] == ["memories", "projects"])
  }

  ghost predicate EndsInMd(name: string) {
    exists stem :: stem != "" && name == stem + ".md"
  }

  lemma {:induction false} NormalizeIs(pieces: seq<string>)
    ensures Normalize(pieces).Ok? <==> forall piece | piece in pieces && Names(piece) :: !Forbidden(piece)
    ensures Normalize(pieces).Ok? ==> Normalize(pieces).value == Filter(Names, pieces)
    decreases |pieces|
  {
    if pieces != [] {
      var n := |pieces| - 1;
      NormalizeIs(pieces[..n]);
      var piece := pieces[n];
      assert forall p :: p in pieces <==> p in pieces[..n] || p == piece;
      ForbiddenIs(piece);
      hide Forbidden, Clean;
    }
  }

  lemma ForbiddenIs(piece: string)
    ensures Forbidden(piece) <==> piece == ".." || !Clean(piece)
  {
  }

  lemma CollectedIs(names: seq<string>)
    requires forall k | 0 <= k < |names| :: PlainName(names[k])
    ensures Collected(names) <==> UnderCollected(names)
  {
    if |names| > 2 {
      assert PlainName(names[2]);
      PiecesCons(names[2], "");
    }
    hide PlainName, Pieces;
    assert |names| > 1 ==> names[..2] == [names[0], names[1]];
  }

  lemma MarkdownIs(names: seq<string>)
    requires names != []
    ensures IsMarkdown(names) <==> EndsInMd(names[|names| - 1])
  {
    var last := names[|names| - 1];
    if IsMarkdown(names) {
      assert last == last[..|last| - 3] + ".md";
    }
    if EndsInMd(last) {
      var stem :| stem != "" && last == stem + ".md";
      assert last[|last| - 3..] == ".md";
    }
  }

  /** A path is accepted exactly when it is relative and its names, without empty
      pieces and dots, contain no way up and no character that would break a
      quoted line, lie under a collected directory and end in a Markdown file. */
  lemma AcceptedIff(path: string)
    ensures var names := Filter(Names, Pieces(path));
            && (Validate(path).Ok? <==>
                  && path != "" && path[0] != '/' && names != []
                  && (forall name | name in names :: !Forbidden(name))
                  && UnderCollected(names) && EndsInMd(names[|names| - 1]))
            && (Validate(path).Ok? ==> Validate(path).value == names)
  {
    hide Pieces, Collected, IsMarkdown, UnderCollected, EndsInMd, Normalize, Forbidden;
    var pieces := Pieces(path);
    var names := Filter(Names, pieces);
    NormalizeIs(pieces);
    PiecesHaveNoSlash(path);
    NormalizedArePlain(pieces);
    NothingNamed(path);
    if Normalize(pieces).Ok? {
      CollectedIs(names);
      if names != [] { MarkdownIs(names); }
    }
    assert "/" <= path <==> path != "" && path[0] == '/';
  }

  lemma NothingNamed(path: string)
    ensures path == "" ==> Filter(Names, Pieces(path)) == []
  {
    if path == "" {
      assert Pieces(path) == [""];
      assert [""][..0] == [];
    }
  }
}
