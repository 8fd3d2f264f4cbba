/** Text operations with the meaning the standard string library gives them:
    line iteration, whitespace trimming, substring search. */
module Text {
  import opened Wrappers

  // ------------------------------------------------------------------- lines

  /** Position of the first `c`, or the length. */
  function IndexOf(s: string, c: char): (k: nat)
    ensures k <= |s|
    ensures c !in s[..k]
    ensures k < |s| ==> s[k] == c
  {
    if s == [] || s[0] == c then 0 else 1 + IndexOf(s[1..], c)
  }

  function StripCr(line: string): string {
    if line != [] && line[|line| - 1] == '\r' then line[..|line| - 1] else line
  }

  /** Lines end at '\n' or "\r\n"; a last line may lack its terminator. */
  function Lines(s: string): seq<string> {
    if s == [] then []
    else
      var k := IndexOf(s, '\n');
      if k == |s| then [s] else [StripCr(s[..k])] + Lines(s[k + 1..])
  }

  predicate EndsLine(s: string) {
    s == [] || s[|s| - 1] == '\n'
  }

  lemma IndexOfUnique(s: string, c: char, k: nat)
    requires k <= |s| && c !in s[..k] && (k < |s| ==> s[k] == c)
    ensures IndexOf(s, c) == k
  {
    if k > 0 {
      assert s[0] in s[..k];
      assert forall d | d in s[1..][..k - 1] :: d in s[..k];
      IndexOfUnique(s[1..], c, k - 1);
    }
  }

  lemma {:induction false} LinesAppend(a: string, b: string)
    requires EndsLine(a)
    ensures Lines(a + b) == Lines(a) + Lines(b)
    decreases |a|
  {
    if a == [] {
      assert a + b == b;
    } else {
      var k := IndexOf(a, '\n');
      assert a[..|a|] == a && a[|a| - 1] in a;
      assert (a + b)[..k] == a[..k];
      IndexOfUnique(a + b, '\n', k);
      assert (a + b)[k + 1..] == a[k + 1..] + b;
      LinesAppend(a[k + 1..], b);
    }
  }

  lemma LinesOfOne(line: string)
    requires '\n' !in line
    ensures Lines(line + "\n") == [StripCr(line)]
    ensures line != [] ==> Lines(line) == [line]
  {
    var s := line + "\n";
    assert s[..|line|] == line;
    IndexOfUnique(s, '\n', |line|);
    assert s[|line| + 1..] == [];
    assert line[..|line|] == line;
    IndexOfUnique(line, '\n', |line|);
  }

  // -------------------------------------------------------------- whitespace

  /** Unicode White_Space, as `char::is_whitespace` tests it. */
  predicate IsWhite(c: char) {
    || '\t' <= c <= '\r' || c == ' ' || c == '\U{85}' || c == '\U{A0}' || c == '\U{1680}'
    || '\U{2000}' <= c <= '\U{200A}' || c == '\U{2028}' || c == '\U{2029}' || c == '\U{202F}'
    || c == '\U{205F}' || c == '\U{3000}'
  }

  /** `line.trim().is_empty()`. */
  predicate IsBlank(line: string) {
    forall c | c in line :: IsWhite(c)
  }

  function TrimStart(s: string): (r: string)
    ensures |r| <= |s| && s[|s| - |r|..] == r
    ensures IsBlank(s[..|s| - |r|])
    ensures r != [] ==> !IsWhite(r[0])
  {
    if s != [] && IsWhite(s[0]) then TrimStart(s[1..]) else s
  }

  function TrimEnd(s: string): string {
    if s != [] && IsWhite(s[|s| - 1]) then TrimEnd(s[..|s| - 1]) else s
  }

  /** Words separated by runs of whitespace. */
  function SplitWords(s: string): seq<string> {
    if s == [] then []
    else
      var front, c := SplitWords(s[..|s| - 1]), s[|s| - 1];
      if IsWhite(c) then front
      else if |s| == 1 || IsWhite(s[|s| - 2]) || front == [] then front + [[c]]
      else front[..|front| - 1] + [front[|front| - 1] + [c]]
  }

  function Join(parts: seq<string>, separator: string): string {
    if parts == [] then []
    else if |parts| == 1 then parts[0]
    else parts[0] + separator + Join(parts[1..], separator)
  }

  predicate IsWord(w: string) {
    w != [] && forall c | c in w :: !IsWhite(c)
  }

  /** Words are what lies between whitespace: nothing has no words, a word is its
      own only word, and whitespace separates (`SplitAtWhite`). */
  lemma {:induction false} SplitWord(w: string)
    requires w == [] || IsWord(w)
    ensures SplitWords(w) == if w == [] then [] else [w]
    decreases |w|
  {
    if w != [] {
      var n := |w| - 1;
      assert w == w[..n] + [w[n]];
      assert forall c | c in w[..n] :: c in w;
      SplitWord(w[..n]);
    }
  }

  lemma {:induction false} WordsAreWords(s: string)
    ensures forall w | w in SplitWords(s) :: IsWord(w)
    ensures s != [] && !IsWhite(s[|s| - 1]) ==> SplitWords(s) != []
    decreases |s|
  {
    if s != [] {
      var front := SplitWords(s[..|s| - 1]);
      WordsAreWords(s[..|s| - 1]);
      assert front != [] ==> front[|front| - 1] in front;
    }
  }

  lemma SplitNext(s: string, c: char)
    ensures var front := SplitWords(s);
            SplitWords(s + [c]) ==
            if IsWhite(c) then front
            else if s == [] || IsWhite(s[|s| - 1]) || front == [] then front + [[c]]
            else front[..|front| - 1] + [front[|front| - 1] + [c]]
  {
    assert (s + [c])[..|s|] == s;
  }

  lemma {:induction false} SplitAtWhite(a: string, c: char, b: string)
    requires IsWhite(c)
    ensures SplitWords(a + [c] + b) == SplitWords(a) + SplitWords(b)
    decreases |b|
  {
    hide SplitWords, IsWhite;
    if b == [] {
      SplitNext(a, c);
      assert a + [c] + b == a + [c];
      assert SplitWords([]) == [] by { SplitWord([]); }
    } else {
      var n := |b| - 1;
      var s, x, y := a + [c] + b[..n], SplitWords(a), SplitWords(b[..n]);
      SplitAtWhite(a, c, b[..n]);
      WordsAreWords(b[..n]);
      SplitNext(s, b[n]);
      SplitNext(b[..n], b[n]);
      assert s + [b[n]] == a + [c] + b && b[..n] + [b[n]] == b;
      assert s[|s| - 1] == if n > 0 then b[n - 1] else c;
      assert y != [] ==> (x + y)[..|x + y| - 1] == x + y[..|y| - 1];
    }
  }

  /** Words joined by single spaces are the words again. */
  lemma {:induction false} WordsOfJoin(words: seq<string>)
    requires forall w | w in words :: IsWord(w)
    ensures SplitWords(Join(words, " ")) == words
    decreases |words|
  {
    if words != [] {
      SplitWord(words[0]);
      if |words| > 1 {
        WordsOfJoin(words[1..]);
        SplitAtWhite(words[0], ' ', Join(words[1..], " "));
      }
    }
  }

  lemma {:induction false} JoinedCharacters(words: seq<string>, c: char)
    requires c in Join(words, " ")
    ensures c == ' ' || exists w :: w in words && c in w
    decreases |words|
  {
    if |words| == 1 {
      assert words[0] in words;
    } else if |words| > 1 {
      if c in words[0] {
        assert words[0] in words;
      } else if c in Join(words[1..], " ") {
        JoinedCharacters(words[1..], c);
      }
    }
  }

  /** A text on one line: its words, with one space between two. */
  lemma OneLineOfWords(s: string)
    ensures var line := Join(SplitWords(s), " ");
            && SplitWords(line) == SplitWords(s)
            && forall c | c in line :: c == ' ' || !IsWhite(c)
  {
    hide SplitWords, IsWhite;
    WordsAreWords(s);
    WordsOfJoin(SplitWords(s));
    forall c | c in Join(SplitWords(s), " ") ensures c == ' ' || !IsWhite(c) {
      JoinedCharacters(SplitWords(s), c);
    }
  }

  // ------------------------------------------------------------------ search

  predicate OccursAt(s: string, pattern: string, i: nat) {
    i + |pattern| <= |s| && s[i..i + |pattern|] == pattern
  }

  predicate Contains(s: string, pattern: string) {
    Find(s, pattern).Some?
  }

  /** First occurrence. */
  function Find(s: string, pattern: string): (r: Option<nat>)
    ensures r.Some? ==> OccursAt(s, pattern, r.value) && forall j | 0 <= j < r.value :: !OccursAt(s, pattern, j)
    ensures r.None? ==> forall j: nat :: !OccursAt(s, pattern, j)
  {
    if pattern <= s then assert OccursAt(s, pattern, 0); Some(0)
    else if s == [] then None
    else
      assert forall j: nat | j > 0 :: OccursAt(s, pattern, j) ==> OccursAt(s[1..], pattern, j - 1);
      assert forall j: nat :: OccursAt(s[1..], pattern, j) ==> OccursAt(s, pattern, j + 1);
      match Find(s[1..], pattern)
      case Some(k) => Some(k + 1)
      case None => None
  }

  lemma OccursStart(s: string, pattern: string, i: nat)
    requires pattern != []
    ensures OccursAt(s, pattern, i) ==> s[i] == pattern[0] && s[i] in s
  {
    assert OccursAt(s, pattern, i) ==> s[i..i + |pattern|][0] == s[i];
  }

  lemma OccursLetter(s: string, pattern: string, i: nat, j: nat)
    requires j < |pattern|
    ensures OccursAt(s, pattern, i) ==> s[i + j] == pattern[j] && s[i + j] in pattern
  {
    assert OccursAt(s, pattern, i) ==> s[i..i + |pattern|][j] == s[i + j];
  }

  lemma OccursInSuffix(a: string, b: string, pattern: string, j: nat)
    ensures OccursAt(a + b, pattern, |a| + j) <==> OccursAt(b, pattern, j)
  {
    var s := a + b;
    if j + |pattern| <= |b| {
      assert s[|a| + j..|a| + j + |pattern|] == b[j..j + |pattern|];
    }
  }

  lemma FindStep(s: string, pattern: string)
    requires s != [] && !OccursAt(s, pattern, 0)
    ensures Find(s, pattern) == match Find(s[1..], pattern) case Some(k) => Some(k + 1) case None => None
  {
  }

  /** A pattern that does not start in the front is found where the rest has it. */
  lemma {:induction false} FindInSuffix(a: string, b: string, pattern: string)
    requires forall j: nat | j < |a| :: !OccursAt(a + b, pattern, j)
    ensures Find(a + b, pattern) == match Find(b, pattern) case Some(k) => Some(|a| + k) case None => None
    decreases |a|
  {
    hide Find, OccursAt;
    if a == [] {
      assert a + b == b;
    } else {
      var rest := a[1..];
      FindStep(a + b, pattern);
      assert (a + b)[1..] == rest + b && a + b == a[..1] + (rest + b);
      forall j: nat | j < |rest| ensures !OccursAt(rest + b, pattern, j) {
        OccursInSuffix(a[..1], rest + b, pattern, j);
        assert !OccursAt(a + b, pattern, 1 + j);
      }
      FindInSuffix(rest, b, pattern);
    }
  }

  lemma OccursInside(a: string, pattern: string, b: string)
    ensures OccursAt(a + pattern + b, pattern, |a|)
    ensures Contains(a + pattern + b, pattern)
  {
    var s := a + pattern + b;
    assert s[|a|..|a| + |pattern|] == pattern;
    assert OccursAt(s, pattern, |a|);
  }

  lemma OccursExtends(a: string, pattern: string, b: string)
    requires Contains(a, pattern)
    ensures Contains(a + b, pattern)
  {
    var i := Find(a, pattern).value;
    assert (a + b)[i..i + |pattern|] == a[i..i + |pattern|];
    assert OccursAt(a + b, pattern, i);
  }

  // ------------------------------------------------------------------- sizes

  /** UTF-8 bytes of one character. */
  function Utf8Len(c: char): nat {
    if c < '\U{80}' then 1 else if c < '\U{800}' then 2 else if c < '\U{10000}' then 3 else 4
  }

  function ByteLen(s: string): nat {
    if s == [] then 0 else ByteLen(s[..|s| - 1]) + Utf8Len(s[|s| - 1])
  }

  lemma {:induction false} ByteLenAppend(a: string, b: string)
    ensures ByteLen(a + b) == ByteLen(a) + ByteLen(b)
    decreases |b|
  {
    if b == [] {
      assert a + b == a;
    } else {
      assert (a + b)[..|a + b| - 1] == a + b[..|b| - 1];
      ByteLenAppend(a, b[..|b| - 1]);
    }
  }
}
