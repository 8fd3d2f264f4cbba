/** The data-boundary blocks that carry memory text into an agent's prompt. */
module MemoryBlock {
  import opened Text
  import opened Wrappers

  // ----------------------------------------------------------------- rendering

  function EscapeAttrChar(c: char): string {
    if c == '&' then "&amp;" else if c == '"' then "&quot;" else if c == '<' then "&lt;"
    else if c == '>' then "&gt;" else [c]
  }

  function EscapeAttr(s: string): string {
    if s == [] then [] else EscapeAttr(s[..|s| - 1]) + EscapeAttrChar(s[|s| - 1])
  }

  function RawAttr(name: string, value: string): string {
    " " + name + "=\"" + value + "\""
  }

  function Attr(name: string, value: string): string {
    RawAttr(name, EscapeAttr(value))
  }

  /** Front matter and diff markers, and both ends of a memory block. */
  predicate Marker(trimmed: string) {
    "---" <= trimmed || "+++" <= trimmed || "<memory" <= trimmed || "</memory" <= trimmed
  }

  function EscapeLine(line: string): string {
    if Marker(TrimStart(line)) then "\\" + line else line
  }

  function EscapeLines(lines: seq<string>): (r: seq<string>)
    ensures |r| == |lines| && forall i | 0 <= i < |r| :: r[i] == EscapeLine(lines[i])
  {
    seq(|lines|, i requires 0 <= i < |lines| => EscapeLine(lines[i]))
  }

  function EscapeBody(body: string): string {
    Join(EscapeLines(Lines(body)), "\n")
  }

  /** A block: its opening line, the escaped body, the closing line, a blank. */
  function Block(opening: string, body: string): string {
    opening + "\n" + EscapeBody(body) + "\n</memory>\n\n"
  }

  // ------------------------------------------------------------------- reading

  /** Pieces between newlines; at least one. */
  function Split(s: string): (r: seq<string>)
    ensures r != []
  {
    var k := IndexOf(s, '\n');
    if k == |s| then [s] else [s[..k]] + Split(s[k + 1..])
  }

  datatype Scanner = Outside(bodies: seq<string>) | Inside(bodies: seq<string>, lines: seq<string>)

  /** Reads one line the way a consumer of the blocks does: a block opens at a
      line that starts `<memory` after trimming and closes at `</memory`. */
  function ScanLine(s: Scanner, line: string): Scanner {
    match s
    case Outside(bodies) => if "<memory" <= TrimStart(line) then Inside(bodies, []) else s
    case Inside(bodies, lines) =>
      if "</memory" <= TrimStart(line) then Outside(bodies + [Join(lines, "\n")]) else Inside(bodies, lines + [line])
  }

  function ScanLines(s: Scanner, lines: seq<string>): Scanner {
    if lines == [] then s else ScanLine(ScanLines(s, lines[..|lines| - 1]), lines[|lines| - 1])
  }

  // -------------------------------------------------------------- line algebra

  lemma {:induction false} SplitAppend(a: string, b: string)
    ensures Split(a + "\n" + b) == Split(a) + Split(b)
    decreases |a|
  {
    var s := a + "\n" + b;
    var k := IndexOf(a, '\n');
    assert s[..k] == a[..k];
    IndexOfUnique(s, '\n', k);
    if k == |a| {
      assert s[k + 1..] == b && a[..k] == a;
    } else {
      assert s[k + 1..] == a[k + 1..] + "\n" + b;
      SplitAppend(a[k + 1..], b);
    }
  }

  lemma SplitOne(line: string)
    requires '\n' !in line
    ensures Split(line) == [line]
  {
  }

  lemma {:induction false} SplitJoin(lines: seq<string>)
    requires lines != [] && forall i | 0 <= i < |lines| :: '\n' !in lines[i]
    ensures Split(Join(lines, "\n")) == lines
  {
    SplitOne(lines[0]);
    if |lines| > 1 {
      SplitAppend(lines[0], Join(lines[1..], "\n"));
      SplitJoin(lines[1..]);
    }
  }

  lemma {:induction false} LinesHaveNoNewline(s: string)
    ensures forall i | 0 <= i < |Lines(s)| :: '\n' !in Lines(s)[i]
    decreases |s|
  {
    if s != [] {
      var k := IndexOf(s, '\n');
      if k < |s| {
        LinesHaveNoNewline(s[k + 1..]);
        var stripped := StripCr(s[..k]);
        assert forall c | c in stripped :: c in s[..k];
      } else {
        assert s[..k] == s;
      }
    }
  }

  lemma EscapedLineIsSafe(line: string)
    requires '\n' !in line
    ensures '\n' !in EscapeLine(line) && !Marker(TrimStart(EscapeLine(line)))
  {
    var e := "\\" + line;
    assert TrimStart(e) == e && e[0] == '\\' && '\n' !in e;
    NotMarker(e);
    hide Marker, TrimStart;
  }

  lemma TrimEmpty()
    ensures TrimStart("") == ""
  {
  }

  lemma NotMarker(s: string)
    requires s == [] || s[0] == '\\'
    ensures !Marker(s)
  {
  }

  /** Every line of an escaped body is a body line, possibly with a backslash
      put in front, and none of them starts a marker after trimming. */
  lemma EscapedLines(body: string)
    ensures Split(EscapeBody(body)) == if body == [] then [""] else EscapeLines(Lines(body))
    ensures forall line | line in Split(EscapeBody(body)) ::
              var t := TrimStart(line); !("---" <= t) && !("+++" <= t) && !("<memory" <= t) && !("</memory" <= t)
    ensures forall line | line in Lines(body) :: EscapeLine(line) == line || EscapeLine(line) == "\\" + line
    ensures forall line | line in Lines(body) && EscapeLine(line) != line ::
              var t := TrimStart(line); "---" <= t || "+++" <= t || "<memory" <= t || "</memory" <= t
  {
    NoMarkers(body);
    hide Split, EscapeBody, TrimStart;
  }

  lemma NoMarkers(body: string)
    ensures Split(EscapeBody(body)) == if body == [] then [""] else EscapeLines(Lines(body))
    ensures forall line | line in Split(EscapeBody(body)) :: !Marker(TrimStart(line))
  {
    hide Marker, TrimStart, EscapeLine, Split;
    var lines := EscapeLines(Lines(body));
    LinesHaveNoNewline(body);
    forall i | 0 <= i < |lines| ensures '\n' !in lines[i] && !Marker(TrimStart(lines[i])) {
      EscapedLineIsSafe(Lines(body)[i]);
    }
    if body == [] {
      TrimEmpty();
      SplitOne("");
      NotMarker("");
    } else {
      SplitJoin(lines);
    }
  }

  lemma {:induction false} ScanAppend(s: Scanner, a: seq<string>, b: seq<string>)
    ensures ScanLines(s, a + b) == ScanLines(ScanLines(s, a), b)
    decreases |b|
  {
    if b == [] {
      assert a + b == a;
    } else {
      assert (a + b)[..|a + b| - 1] == a + b[..|b| - 1];
      ScanAppend(s, a, b[..|b| - 1]);
    }
  }

  lemma ScanNext(s: Scanner, lines: seq<string>, line: string)
    ensures ScanLines(s, lines + [line]) == ScanLine(ScanLines(s, lines), line)
  {
  }

  predicate ClosesBlock(line: string) {
    "</memory" <= TrimStart(line)
  }

  lemma ScanInside(bodies: seq<string>, lines: seq<string>, line: string)
    requires !ClosesBlock(line)
    ensures ScanLine(Inside(bodies, lines), line) == Inside(bodies, lines + [line])
  {
  }

  lemma {:induction false} ScanBody(bodies: seq<string>, before: seq<string>, lines: seq<string>)
    requires forall line | line in lines :: !ClosesBlock(line)
    ensures ScanLines(Inside(bodies, before), lines) == Inside(bodies, before + lines)
    decreases |lines|
  {
    hide ClosesBlock, ScanLine;
    if lines == [] {
      assert before + lines == before;
    } else {
      var n := |lines| - 1;
      ScanBody(bodies, before, lines[..n]);
      ScanInside(bodies, before + lines[..n], lines[n]);
      assert before + lines == before + lines[..n] + [lines[n]];
    }
  }

  /** What attributes leave of an opening: it starts the block, and holds no
      other angle bracket.  It may have newlines. */
  predicate OpensBlock(opening: string) {
    "<memory" <= opening && '<' !in opening[1..]
  }

  lemma {:induction false} SplitChars(s: string)
    ensures forall k | 0 <= k < |Split(s)| :: forall c | c in Split(s)[k] :: c in s
    decreases |s|
  {
    var k := IndexOf(s, '\n');
    if k == |s| {
      assert s[..k] == s;
    } else {
      SplitChars(s[k + 1..]);
      assert forall c | c in s[..k] || c in s[k + 1..] :: c in s;
    }
  }

  lemma NoAngle(line: string)
    requires '<' !in line
    ensures !ClosesBlock(line)
  {
    var t := TrimStart(line);
    assert t != [] ==> t[0] == line[|line| - |t|] && t[0] in line;
    assert "</memory"[0] == '<';
  }

  /** Only the first line of an opening opens a block, and none closes it. */
  lemma OpeningPieces(opening: string)
    requires OpensBlock(opening)
    ensures "<memory" <= Split(opening)[0]
    ensures forall k | 1 <= k < |Split(opening)| :: !ClosesBlock(Split(opening)[k])
  {
    var k := IndexOf(opening, '\n');
    assert opening[..7] == "<memory" && forall j | 0 <= j < 7 :: opening[j] == "<memory"[j] && opening[j] != '\n';
    assert k >= 7 && opening[..k][..7] == opening[..7];
    if k < |opening| {
      var rest := opening[k + 1..];
      SplitChars(rest);
      assert forall c | c in rest :: c in opening[1..];
      assert Split(opening) == [opening[..k]] + Split(rest);
      forall j | 0 <= j < |Split(rest)| ensures !ClosesBlock(Split(rest)[j]) { NoAngle(Split(rest)[j]); }
      hide Split, ClosesBlock;
    }
  }

  function Blocks(openings: seq<string>, bodies: seq<string>): string
    requires |openings| == |bodies|
  {
    if openings == [] then [] else Block(openings[0], bodies[0]) + Blocks(openings[1..], bodies[1..])
  }

  lemma {:induction false} BlocksLast(openings: seq<string>, bodies: seq<string>, opening: string, body: string)
    requires |openings| == |bodies|
    ensures Blocks(openings + [opening], bodies + [body]) == Blocks(openings, bodies) + Block(opening, body)
  {
    hide Block;
    var all, texts := openings + [opening], bodies + [body];
    if openings == [] {
      assert all[1..] == [] && texts[1..] == [];
      assert Blocks([], []) == "";
    } else {
      assert all[1..] == openings[1..] + [opening] && texts[1..] == bodies[1..] + [body];
      BlocksLast(openings[1..], bodies[1..], opening, body);
    }
  }

  function EscapedBodies(bodies: seq<string>): (r: seq<string>)
    ensures |r| == |bodies| && forall i | 0 <= i < |r| :: r[i] == EscapeBody(bodies[i])
  {
    seq(|bodies|, i requires 0 <= i < |bodies| => EscapeBody(bodies[i]))
  }

  /** What a reader takes to be a block's body: what follows the first line of
      its opening, then the escaped body. */
  function Received(opening: string, body: string): string {
    Join(Split(opening)[1..] + Split(EscapeBody(body)), "\n")
  }

  function ReceivedBodies(openings: seq<string>, bodies: seq<string>): (r: seq<string>)
    requires |openings| == |bodies|
    ensures |r| == |bodies| && forall i | 0 <= i < |r| :: r[i] == Received(openings[i], bodies[i])
  {
    seq(|bodies|, i requires 0 <= i < |bodies| => Received(openings[i], bodies[i]))
  }

  predicate EndsWith(s: string, end: string) {
    |end| <= |s| && s[|s| - |end|..] == end
  }

  lemma {:induction false} JoinAppend(a: seq<string>, b: seq<string>)
    requires a != [] && b != []
    ensures Join(a + b, "\n") == Join(a, "\n") + "\n" + Join(b, "\n")
    decreases |a|
  {
    assert (a + b)[1..] == a[1..] + b;
    if |a| == 1 {
      assert a[1..] + b == b;
    } else {
      JoinAppend(a[1..], b);
    }
  }

  /** A received body ends in the escaped body, and is nothing else when the
      opening is one line. */
  lemma ReceivedEnds(opening: string, body: string)
    ensures EndsWith(Received(opening, body), EscapeBody(body))
    ensures '\n' !in opening ==> Received(opening, body) == EscapeBody(body)
  {
    JoinEscaped(body);
    var extra, inner := Split(opening)[1..], Split(EscapeBody(body));
    if '\n' !in opening { SplitOne(opening); }
    hide Split, Join, EscapeBody;
    if extra == [] {
      assert extra + inner == inner;
    } else {
      JoinAppend(extra, inner);
    }
  }

  lemma SplitBlock(opening: string, body: string, rest: string)
    ensures Split(Block(opening, body) + rest) ==
            Split(opening) + Split(EscapeBody(body)) + ["</memory>", ""] + Split(rest)
  {
    hide Split, EscapeBody;
    var escaped := EscapeBody(body);
    var blank := "" + "\n" + rest;
    var closing := "</memory>" + "\n" + blank;
    var inner := escaped + "\n" + closing;
    assert Block(opening, body) + rest == opening + "\n" + inner;
    SplitAppend(opening, inner);
    SplitAppend(escaped, closing);
    SplitAppend("</memory>", blank);
    SplitAppend("", rest);
    SplitOne("</memory>"); SplitOne("");
  }

  lemma EscapedStaysInside(body: string)
    ensures forall line | line in Split(EscapeBody(body)) :: !ClosesBlock(line)
  {
    hide Split, EscapeBody, TrimStart;
    EscapedLines(body);
  }

  lemma ScanBlock(found: seq<string>, opening: string, body: string, rest: string)
    requires OpensBlock(opening)
    ensures ScanLines(Outside(found), Split(Block(opening, body) + rest)) ==
            ScanLines(Outside(found + [Received(opening, body)]), Split(rest))
  {
    hide Split, EscapeBody, ScanLines, ScanLine, ClosesBlock, Join, OpensBlock, Block;
    var head, inner, tail := Split(opening), Split(EscapeBody(body)), ["</memory>", ""];
    var first, lines := [head[0]], head[1..] + inner;
    SplitBlock(opening, body, rest);
    OpeningPieces(opening);
    EscapedStaysInside(body);
    assert head + inner == first + lines;
    ScanAppend(Outside(found), first + lines + tail, Split(rest));
    ScanAppend(Outside(found), first + lines, tail);
    ScanAppend(Outside(found), first, lines);
    ScanBody(found, [], lines);
    assert [] + lines == lines;
    Opens(found, head[0]);
    Closes(found, lines, "</memory>", "");
  }

  lemma Opens(found: seq<string>, line: string)
    requires "<memory" <= line
    ensures ScanLines(Outside(found), [line]) == Inside(found, [])
  {
    assert line[0] == "<memory"[0] && !IsWhite('<');
    assert TrimStart(line) == line;
    ScanNext(Outside(found), [], line);
    assert [] + [line] == [line];
  }

  lemma Closes(found: seq<string>, inner: seq<string>, closing: string, blank: string)
    requires closing == "</memory>" && blank == ""
    ensures ScanLines(Inside(found, inner), [closing, blank]) == Outside(found + [Join(inner, "\n")])
  {
    CloseStep(found, inner, closing);
    BlankStep(found + [Join(inner, "\n")], blank);
    hide *;
    TwoScans(Inside(found, inner), closing, blank);
  }

  lemma TwoScans(s: Scanner, a: string, b: string)
    ensures ScanLines(s, [a, b]) == ScanLine(ScanLine(s, a), b)
  {
    hide ScanLines, ScanLine;
    ScanNothing(s);
    ScanNext(s, [], a);
    ScanNext(s, [a], b);
    assert [] + [a] == [a] && [a] + [b] == [a, b];
  }

  lemma CloseStep(found: seq<string>, inner: seq<string>, closing: string)
    requires closing == "</memory>"
    ensures ScanLine(Inside(found, inner), closing) == Outside(found + [Join(inner, "\n")])
  {
    hide Join;
    TrimClosing(closing);
  }

  lemma BlankStep(found: seq<string>, blank: string)
    requires blank == ""
    ensures ScanLine(Outside(found), blank) == Outside(found)
  {
  }

  lemma TrimClosing(closing: string)
    requires closing == "</memory>"
    ensures TrimStart(closing) == closing && "</memory" <= closing
  {
  }

  lemma ScanNothing(s: Scanner)
    ensures ScanLines(s, []) == s
  {
  }

  lemma JoinEscaped(body: string)
    ensures Join(Split(EscapeBody(body)), "\n") == EscapeBody(body)
  {
    hide Split;
    EscapedLines(body);
    if body == [] {
      assert Join([""], "\n") == "";
    }
  }

  /** Boundary safety: from any sequence of rendered blocks, whatever bodies and
      attributes hold, a reader finds as many blocks as there are, each ending
      in its escaped body and equal to it when the opening is one line. */
  lemma {:induction false} BlocksRoundTrip(found: seq<string>, openings: seq<string>, bodies: seq<string>)
    requires |openings| == |bodies| && forall i | 0 <= i < |openings| :: OpensBlock(openings[i])
    ensures ScanLines(Outside(found), Split(Blocks(openings, bodies))) == Outside(found + ReceivedBodies(openings, bodies))
    ensures forall i | 0 <= i < |bodies| :: EndsWith(ReceivedBodies(openings, bodies)[i], EscapeBody(bodies[i]))
    ensures (forall i | 0 <= i < |openings| :: '\n' !in openings[i]) ==>
              ReceivedBodies(openings, bodies) == EscapedBodies(bodies)
    decreases |openings|
  {
    hide Split, EscapeBody, ScanLines, ScanLine, Block, Received, OpensBlock, EndsWith;
    if openings == [] {
      SplitOne("");
      NothingToScan(found);
      assert found + ReceivedBodies(openings, bodies) == found;
    } else {
      var r := Received(openings[0], bodies[0]);
      ScanBlock(found, openings[0], bodies[0], Blocks(openings[1..], bodies[1..]));
      BlocksRoundTrip(found + [r], openings[1..], bodies[1..]);
      assert found + ReceivedBodies(openings, bodies) == found + [r] + ReceivedBodies(openings[1..], bodies[1..]);
    }
    forall i | 0 <= i < |bodies|
      ensures EndsWith(ReceivedBodies(openings, bodies)[i], EscapeBody(bodies[i]))
      ensures '\n' !in openings[i] ==> ReceivedBodies(openings, bodies)[i] == EscapedBodies(bodies)[i]
    {
      ReceivedEnds(openings[i], bodies[i]);
    }
  }

  lemma NothingToScan(found: seq<string>)
    ensures ScanLines(Outside(found), [""]) == Outside(found)
  {
  }

  // ---------------------------------------------------------------- attributes

  /** Undoes the four escapes; any other text stands for itself. */
  function UnescapeAttr(s: string): string {
    if s == [] then []
    else if "&amp;" <= s then "&" + UnescapeAttr(s[5..])
    else if "&quot;" <= s then "\"" + UnescapeAttr(s[6..])
    else if "&lt;" <= s then "<" + UnescapeAttr(s[4..])
    else if "&gt;" <= s then ">" + UnescapeAttr(s[4..])
    else [s[0]] + UnescapeAttr(s[1..])
  }

  lemma {:induction false} EscapeAttrCons(c: char, s: string)
    ensures EscapeAttr([c] + s) == EscapeAttrChar(c) + EscapeAttr(s)
    decreases |s|
  {
    hide EscapeAttrChar;
    var all := [c] + s;
    if s == [] {
      assert all == [c] && all[..0] == [];
    } else {
      var n := |s| - 1;
      assert all[..|all| - 1] == [c] + s[..n] && all[|all| - 1] == s[n];
      EscapeAttrCons(c, s[..n]);
    }
  }

  lemma UnescapeOne(c: char, tail: string)
    ensures UnescapeAttr(EscapeAttrChar(c) + tail) == [c] + UnescapeAttr(tail)
  {
    var e := EscapeAttrChar(c) + tail;
    assert e[|EscapeAttrChar(c)|..] == tail;
    if c == '&' {
      assert e[..5] == "&amp;";
    } else if c == '"' {
      assert e[..6] == "&quot;" && e[1] == 'q';
    } else if c == '<' {
      assert e[..4] == "&lt;" && e[1] == 'l';
    } else if c == '>' {
      assert e[..4] == "&gt;" && e[1] == 'g';
    } else {
      assert e[0] == c;
    }
  }

  /** An escaped attribute holds no quote, angle bracket or new newline, and
      determines the value it came from. */
  lemma {:induction false} EscapeAttrRoundTrip(s: string)
    ensures forall c | c in EscapeAttr(s) :: c != '"' && c != '<' && c != '>' && (c == '\n' ==> c in s)
    ensures UnescapeAttr(EscapeAttr(s)) == s
    decreases |s|
  {
    if s != [] {
      var c, rest := s[0], s[1..];
      assert s == [c] + rest;
      EscapeAttrRoundTrip(rest);
      EscapeAttrCons(c, rest);
      UnescapeOne(c, EscapeAttr(rest));
      EscapedChar(c);
      hide EscapeAttr, EscapeAttrChar, UnescapeAttr;
      forall d | d in EscapeAttr(s) ensures d != '"' && d != '<' && d != '>' && (d == '\n' ==> d in s) {
        assert d in EscapeAttrChar(c) || d in EscapeAttr(rest);
      }
    }
  }

  lemma EscapedChar(c: char)
    ensures forall d | d in EscapeAttrChar(c) :: d != '"' && d != '<' && d != '>' && (d == '\n' ==> d == c)
  {
  }
}
