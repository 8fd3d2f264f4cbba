/** Re-rendering a subset of an assembled context within the host's limits. */
module ContextPacking {
  import opened Wrappers
  import opened Text
  import opened Sorting
  import MemoryBlock

  datatype Section = Section(id: string, store: string, scope: string, trust: string, body: string, block: string)

  datatype Output = Output(markdown: string, sections: seq<Section>)

  datatype Measure = Bytes | JsonString

  /** `aloneMax` is the hook's whole limit, `max` what is left of it now, and
      `rawMax` an independent bound in plain bytes. */
  datatype Limit = Limit(max: nat, aloneMax: nat, measure: Measure, rawMax: nat)

  datatype Subset = Subset(markdown: string, sections: seq<Section>, filtered: nat, overBudget: nat, omitted: seq<string>)

  // ------------------------------------------------------------------- sizes

  function CharSize(m: Measure, c: char): nat {
    match m
    case Bytes => Utf8Len(c)
    case JsonString =>
      if c in "\"\\\n\r\t\U{8}\U{c}" then 2
      else if c <= '\U{1f}' || c == '\U{7f}' then 6
      else Utf8Len(c)
  }

  function Size(m: Measure, s: string): nat {
    if s == [] then 0 else Size(m, s[..|s| - 1]) + CharSize(m, s[|s| - 1])
  }

  lemma {:induction false} SizeAppend(m: Measure, a: string, b: string)
    ensures Size(m, a + b) == Size(m, a) + Size(m, b)
    decreases |b|
  {
    if b == [] {
      assert a + b == a;
    } else {
      assert (a + b)[..|a + b| - 1] == a + b[..|b| - 1];
      SizeAppend(m, a, b[..|b| - 1]);
    }
  }

  function HexDigit(n: nat): char
    requires n < 16
  {
    "0123456789abcdef"[n]
  }

  /** One character inside a JSON string, section 7 of RFC 8259, with DEL
      written as an escape too. */
  function JsonChar(c: char): string {
    if c == '"' then "\\\"" else if c == '\\' then "\\\\"
    else if c == '\n' then "\\n" else if c == '\r' then "\\r" else if c == '\t' then "\\t"
    else if c == '\U{8}' then "\\b" else if c == '\U{c}' then "\\f"
    else if c <= '\U{1f}' || c == '\U{7f}' then
      "\\u00" + [HexDigit(c as int / 16), HexDigit(c as int % 16)]
    else [c]
  }

  function JsonEscape(s: string): string {
    if s == [] then [] else JsonEscape(s[..|s| - 1]) + JsonChar(s[|s| - 1])
  }

  lemma PairLen(a: char, b: char)
    ensures ByteLen([a]) == Utf8Len(a)
    ensures ByteLen([a, b]) == Utf8Len(a) + Utf8Len(b)
  {
  }

  lemma JsonCharSize(c: char)
    ensures ByteLen(JsonChar(c)) == CharSize(JsonString, c)
  {
    hide ByteLen;
    var e := JsonChar(c);
    if |e| == 1 {
      PairLen(c, c);
    } else if |e| == 2 {
      assert e == [e[0], e[1]];
      PairLen(e[0], e[1]);
    } else {
      var a, b, d := ['\\', 'u'], ['0', '0'], [e[4], e[5]];
      assert e == a + b + d;
      ByteLenAppend(a + b, d);
      ByteLenAppend(a, b);
      PairLen('\\', 'u'); PairLen('0', '0'); PairLen(e[4], e[5]);
    }
  }

  /** Each measure is the byte length of a concrete rendering: the text itself,
      or the text escaped as the inside of a JSON string. */
  lemma {:induction false} MeasureIsByteLength(s: string)
    ensures Size(Bytes, s) == ByteLen(s)
    ensures Size(JsonString, s) == ByteLen(JsonEscape(s))
    decreases |s|
  {
    if s != [] {
      var n := |s| - 1;
      MeasureIsByteLength(s[..n]);
      JsonCharSize(s[n]);
      ByteLenAppend(JsonEscape(s[..n]), JsonChar(s[n]));
    }
  }

  function HexValue(c: char): Option<nat> {
    if '0' <= c <= '9' then Some(c as int - '0' as int)
    else if 'a' <= c <= 'f' then Some(c as int - 'a' as int + 10)
    else None
  }

  /** The first character a JSON reader takes from the inside of a string, and
      what is left; quotes, control characters and DEL must be written escaped. */
  function ReadOne(s: string): Option<(char, string)>
    requires s != []
  {
    if s[0] == '\\' then
      if |s| < 2 then None
      else if s[1] == '"' || s[1] == '\\' then Some((s[1], s[2..]))
      else if s[1] == 'n' then Some(('\n', s[2..]))
      else if s[1] == 'r' then Some(('\r', s[2..]))
      else if s[1] == 't' then Some(('\t', s[2..]))
      else if s[1] == 'b' then Some(('\U{8}', s[2..]))
      else if s[1] == 'f' then Some(('\U{c}', s[2..]))
      else if s[1] == 'u' && |s| >= 6 && s[2..4] == "00" && HexValue(s[4]).Some? && HexValue(s[5]).Some? then
        Some(((16 * HexValue(s[4]).value + HexValue(s[5]).value) as char, s[6..]))
      else None
    else if s[0] == '"' || s[0] <= '\U{1f}' || s[0] == '\U{7f}' then None
    else Some((s[0], s[1..]))
  }

  function ReadJson(s: string): Option<string> {
    if s == [] then Some("")
    else
      match ReadOne(s)
      case None => None
      case Some((c, rest)) =>
        if |rest| >= |s| then None
        else match ReadJson(rest) case None => None case Some(text) => Some([c] + text)
  }

  lemma {:induction false} JsonEscapeAppend(a: string, b: string)
    ensures JsonEscape(a + b) == JsonEscape(a) + JsonEscape(b)
    decreases |b|
  {
    hide JsonChar;
    if b == [] {
      assert a + b == a;
    } else {
      var n := |b| - 1;
      assert (a + b)[..|a + b| - 1] == a + b[..n];
      JsonEscapeAppend(a, b[..n]);
    }
  }

  lemma ReadsOne(c: char, rest: string)
    ensures JsonChar(c) != [] && ReadOne(JsonChar(c) + rest) == Some((c, rest))
  {
    var e := JsonChar(c);
    var s := e + rest;
    assert s[|e|..] == rest && forall k | 0 <= k < |e| :: s[k] == e[k];
    if |e| == 6 {
      var n := c as int;
      HexReads(n / 16);
      HexReads(n % 16);
      assert s[2..4] == "00";
    }
  }

  lemma HexReads(n: nat)
    requires n < 16
    ensures HexValue(HexDigit(n)) == Some(n)
  {
  }

  /** The escaped text reads back, so it is the inside of a JSON string, with no
      raw control character, quote or DEL in it. */
  lemma {:induction false} JsonRoundTrip(s: string)
    ensures ReadJson(JsonEscape(s)) == Some(s)
    decreases |s|
  {
    hide JsonChar, ReadOne;
    if s != [] {
      var c, rest := s[0], JsonEscape(s[1..]);
      JsonRoundTrip(s[1..]);
      JsonEscapeAppend([c], s[1..]);
      assert [c] + s[1..] == s && JsonEscape([c]) == JsonChar(c) by { assert [c][..0] == []; }
      ReadsOne(c, rest);
    }
  }

  // ----------------------------------------------------------------- pointers

  function Decimal(n: nat): string {
    if n < 10 then [HexDigit(n)] else Decimal(n / 10) + [HexDigit(n % 10)]
  }

  function PointerAttributes(s: Section): string {
    MemoryBlock.Attr("id", s.id) + (MemoryBlock.Attr("store", s.store) + (MemoryBlock.Attr("scope", s.scope)
    + (MemoryBlock.RawAttr("trust", s.trust) + MemoryBlock.RawAttr("omitted", "too-large"))))
  }

  function PointerText(s: Section): string {
    "This memory (" + Decimal(ByteLen(s.body))
    + (" bytes)" + " is too large for hook context. If it is relevant, read it with: ")
    + ("hm get --store " + MemoryBlock.EscapeAttr(s.store) + " " + MemoryBlock.EscapeAttr(s.id))
  }

  function Pointer(s: Section): string {
    "<memory" + PointerAttributes(s) + ">\n" + PointerText(s) + "\n</memory>\n\n"
  }

  function ReadDecimal(s: string): nat {
    if s == [] then 0
    else 10 * ReadDecimal(s[..|s| - 1]) + (match HexValue(s[|s| - 1]) case Some(d) => d case None => 0)
  }

  lemma {:induction false} DecimalReads(n: nat)
    ensures ReadDecimal(Decimal(n)) == n
    decreases n
  {
    HexReads(n % 10);
    if n >= 10 {
      DecimalReads(n / 10);
      assert Decimal(n)[..|Decimal(n)| - 1] == Decimal(n / 10);
    } else {
      assert Decimal(n)[..0] == [];
    }
  }

  // --------------------------------------------------------------------- spec

  function Blocks(sections: seq<Section>): string {
    if sections == [] then [] else Blocks(sections[..|sections| - 1]) + sections[|sections| - 1].block
  }

  predicate Fits(limit: Option<Limit>, text: string) {
    limit.None? || (Size(limit.value.measure, text) <= limit.value.max && ByteLen(text) <= limit.value.rawMax)
  }

  /** Too large for the hook's whole limit even right after the prefix. */
  predicate Oversized(limit: Option<Limit>, prefix: string, s: Section) {
    limit.Some? &&
    (|| Size(limit.value.measure, prefix + s.block)
        > (if limit.value.aloneMax > limit.value.max then limit.value.aloneMax else limit.value.max)
     || ByteLen(prefix + s.block) > limit.value.rawMax)
  }

  function Emitted(limit: Option<Limit>, prefix: string, s: Section): string {
    if Oversized(limit, prefix, s) then Pointer(s) else s.block
  }

  /** The prefix followed by the block or pointer of every section. */
  function Page(limit: Option<Limit>, prefix: string, sections: seq<Section>): string {
    if sections == [] then prefix
    else Page(limit, prefix, sections[..|sections| - 1]) + Emitted(limit, prefix, sections[|sections| - 1])
  }

  /** How many of the sections, in order, fit before the first that does not. */
  function FitCount(limit: Option<Limit>, prefix: string, sections: seq<Section>): (k: nat)
    ensures k <= |sections|
  {
    if sections == [] then 0
    else
      var n := |sections| - 1;
      var k := FitCount(limit, prefix, sections[..n]);
      if k == n && Fits(limit, Page(limit, prefix, sections)) then |sections| else k
  }

  function Whole(limit: Option<Limit>, prefix: string): Section -> bool {
    s => !Oversized(limit, prefix, s)
  }

  function OmittedIds(limit: Option<Limit>, prefix: string, sections: seq<Section>): seq<string> {
    if sections == [] then []
    else
      var n := |sections| - 1;
      OmittedIds(limit, prefix, sections[..n]) + if Oversized(limit, prefix, sections[n]) then [sections[n].id] else []
  }

  function Select(limit: Option<Limit>, prefix: string, sections: seq<Section>, keep: Section -> bool): Subset {
    var accepted := Filter(keep, sections);
    var sent := accepted[..FitCount(limit, prefix, accepted)];
    Subset(if Fits(limit, prefix) then Page(limit, prefix, sent) else "",
           Filter(Whole(limit, prefix), sent),
           |sections| - |accepted|,
           |accepted| - |sent|,
           OmittedIds(limit, prefix, sent))
  }

  /** The Markdown is some prefix followed by exactly the sections' blocks. */
  predicate Splittable(o: Output) {
    && (forall s | s in o.sections :: s.block != [])
    && |Blocks(o.sections)| <= |o.markdown|
    && o.markdown[|o.markdown| - |Blocks(o.sections)|..] == Blocks(o.sections)
  }

  function Prefix(o: Output): string
    requires Splittable(o)
  {
    o.markdown[..|o.markdown| - |Blocks(o.sections)|]
  }

  // --------------------------------------------------------------- the packer

  lemma BlocksNext(sections: seq<Section>, i: nat)
    requires i < |sections|
    ensures Blocks(sections[..i + 1]) == Blocks(sections[..i]) + sections[i].block
  {
    assert sections[..i + 1][..i] == sections[..i];
  }

  lemma {:induction false} BlocksPrefix(sections: seq<Section>, i: nat)
    requires i <= |sections|
    ensures |Blocks(sections[..i])| <= |Blocks(sections)|
    ensures Blocks(sections)[..|Blocks(sections[..i])|] == Blocks(sections[..i])
    decreases |sections| - i
  {
    if i == |sections| {
      assert sections[..i] == sections;
    } else {
      BlocksNext(sections, i);
      BlocksPrefix(sections, i + 1);
      var short, long := Blocks(sections[..i]), Blocks(sections[..i + 1]);
      assert Blocks(sections)[..|long|][..|short|] == Blocks(sections)[..|short|];
    }
  }

  method CountBlocks(sections: seq<Section>) returns (total: Option<nat>)
    ensures total.Some? <==> forall s | s in sections :: s.block != []
    ensures total.Some? ==> total.value == |Blocks(sections)|
  {
    var sum := 0;
    for i := 0 to |sections|
      invariant forall k | 0 <= k < i :: sections[k].block != []
      invariant sum == |Blocks(sections[..i])|
    {
      if sections[i].block == [] {
        return None;
      }
      BlocksNext(sections, i);
      sum := sum + |sections[i].block|;
    }
    assert sections[..|sections|] == sections;
    total := Some(sum);
  }

  /** Finds where the first block starts, or nothing when the Markdown does not
      end with the blocks in order. */
  method SplitPrefix(o: Output) returns (prefixLen: Option<nat>)
    ensures prefixLen.Some? <==> Splittable(o)
    ensures prefixLen.Some? ==> prefixLen.value == |o.markdown| - |Blocks(o.sections)|
  {
    var total := CountBlocks(o.sections);
    if total.None? || total.value > |o.markdown| {
      return None;
    }
    var start := |o.markdown| - total.value;
    var cursor := start;
    for i := 0 to |o.sections|
      invariant cursor == start + |Blocks(o.sections[..i])| <= |o.markdown|
      invariant o.markdown[start..cursor] == Blocks(o.sections[..i])
    {
      BlocksNext(o.sections, i);
      BlocksPrefix(o.sections, i + 1);
      var end := cursor + |o.sections[i].block|;
      assert o.markdown[start..end] == o.markdown[start..cursor] + o.markdown[cursor..end];
      BlockInPlace(o, i, start, cursor, end);
      if o.markdown[cursor..end] != o.sections[i].block {
        return None;
      }
      cursor := end;
    }
    assert o.sections[..|o.sections|] == o.sections;
    assert o.markdown[start..cursor] == o.markdown[start..];
    prefixLen := Some(start);
  }

  /** Where the Markdown can be split, every block sits at its own offset. */
  lemma BlockInPlace(o: Output, i: nat, start: nat, cursor: nat, end: nat)
    requires i < |o.sections| && start + |Blocks(o.sections)| == |o.markdown|
    requires cursor == start + |Blocks(o.sections[..i])| && end == cursor + |o.sections[i].block| <= |o.markdown|
    ensures Splittable(o) ==> o.markdown[cursor..end] == o.sections[i].block
  {
    BlocksNext(o.sections, i);
    BlocksPrefix(o.sections, i + 1);
    if Splittable(o) {
      var all := Blocks(o.sections);
      var upTo := Blocks(o.sections[..i + 1]);
      assert o.markdown[start..] == all;
      assert o.markdown[cursor..end] == all[cursor - start..end - start];
      assert all[cursor - start..end - start] == all[..end - start][cursor - start..];
      assert upTo[cursor - start..] == o.sections[i].block;
    }
  }

  lemma PageNext(limit: Option<Limit>, prefix: string, sections: seq<Section>, s: Section)
    ensures Page(limit, prefix, sections + [s]) == Page(limit, prefix, sections) + Emitted(limit, prefix, s)
    ensures OmittedIds(limit, prefix, sections + [s]) ==
            OmittedIds(limit, prefix, sections) + if Oversized(limit, prefix, s) then [s.id] else []
    ensures FitCount(limit, prefix, sections + [s]) ==
            if FitCount(limit, prefix, sections) == |sections| && Fits(limit, Page(limit, prefix, sections + [s]))
            then |sections| + 1 else FitCount(limit, prefix, sections)
    ensures Filter(Whole(limit, prefix), sections + [s]) ==
            Filter(Whole(limit, prefix), sections) + if Oversized(limit, prefix, s) then [] else [s]
  {
    hide Emitted, Fits, Oversized, Page, FitCount;
    assert (sections + [s])[..|sections|] == sections;
    PageAndCountNext(limit, prefix, sections, s);
  }

  lemma PageAndCountNext(limit: Option<Limit>, prefix: string, sections: seq<Section>, s: Section)
    ensures Page(limit, prefix, sections + [s]) == Page(limit, prefix, sections) + Emitted(limit, prefix, s)
    ensures FitCount(limit, prefix, sections + [s]) ==
            if FitCount(limit, prefix, sections) == |sections| && Fits(limit, Page(limit, prefix, sections + [s]))
            then |sections| + 1 else FitCount(limit, prefix, sections)
  {
    hide Emitted, Fits;
    assert (sections + [s])[..|sections|] == sections;
  }

  lemma FitsMonotone(limit: Option<Limit>, a: string, b: string)
    requires Fits(limit, a + b)
    ensures Fits(limit, a)
  {
    if limit.Some? {
      SizeAppend(limit.value.measure, a, b);
      ByteLenAppend(a, b);
    }
  }

  lemma {:induction false} PageExtends(limit: Option<Limit>, prefix: string, sections: seq<Section>)
    requires Fits(limit, Page(limit, prefix, sections))
    ensures Fits(limit, prefix)
    decreases |sections|
  {
    if sections != [] {
      var n := |sections| - 1;
      FitsMonotone(limit, Page(limit, prefix, sections[..n]), Emitted(limit, prefix, sections[n]));
      PageExtends(limit, prefix, sections[..n]);
    }
  }

  /** One more accepted section either extends what is sent or is over budget. */
  lemma AcceptedNext(limit: Option<Limit>, prefix: string, accepted: seq<Section>, sent: seq<Section>, s: Section)
    requires |sent| <= |accepted| && sent == accepted[..|sent|] && FitCount(limit, prefix, accepted) == |sent|
    ensures var next := Page(limit, prefix, sent) + Emitted(limit, prefix, s);
            FitCount(limit, prefix, accepted + [s]) ==
            if |sent| == |accepted| && Fits(limit, next) then |sent| + 1 else |sent|
    ensures !Fits(limit, prefix) ==> !Fits(limit, Page(limit, prefix, sent) + Emitted(limit, prefix, s))
    ensures Page(limit, prefix, sent + [s]) == Page(limit, prefix, sent) + Emitted(limit, prefix, s)
    ensures OmittedIds(limit, prefix, sent + [s]) ==
            OmittedIds(limit, prefix, sent) + if Oversized(limit, prefix, s) then [s.id] else []
    ensures Filter(Whole(limit, prefix), sent + [s]) ==
            Filter(Whole(limit, prefix), sent) + if Oversized(limit, prefix, s) then [] else [s]
  {
    PageNext(limit, prefix, accepted, s);
    PageNext(limit, prefix, sent, s);
    assert |sent| == |accepted| ==> sent == accepted;
    if Fits(limit, Page(limit, prefix, sent + [s])) {
      PageExtends(limit, prefix, sent + [s]);
    }
  }

  method SelectSections(o: Output, keep: Section -> bool, limit: Option<Limit>) returns (r: Option<Subset>)
    ensures r.Some? <==> Splittable(o)
    ensures r.Some? ==> r.value == Select(limit, Prefix(o), o.sections, keep)
  {
    var start := SplitPrefix(o);
    if start.None? {
      return None;
    }
    var prefix := o.markdown[..start.value];
    var subset := PackSections(o.sections, prefix, keep, limit);
    r := Some(subset);
  }

  lemma PackNothing(limit: Option<Limit>, prefix: string)
    ensures Page(limit, prefix, []) == prefix && FitCount(limit, prefix, []) == 0
    ensures OmittedIds(limit, prefix, []) == [] && Filter(Whole(limit, prefix), []) == []
  {
  }

  lemma FilterNext(keep: Section -> bool, sections: seq<Section>, s: Section)
    ensures Filter(keep, sections + [s]) == if keep(s) then Filter(keep, sections) + [s] else Filter(keep, sections)
  {
  }

  method PackSections(sections: seq<Section>, prefix: string, keep: Section -> bool, limit: Option<Limit>)
    returns (r: Subset)
    ensures r == Select(limit, prefix, sections, keep)
  {
    hide Page, FitCount, OmittedIds, Size, ByteLen, Filter, Pointer;
    PackNothing(limit, prefix);
    var filtered, overBudget := 0, 0;
    var omitted: seq<string>, kept: seq<Section> := [], [];
    var markdown := prefix;
    var prefixSize := if limit.Some? then Size(limit.value.measure, prefix) else 0;
    var used, rawUsed := prefixSize, ByteLen(prefix);
    var budgetReached := limit.Some? && (prefixSize > limit.value.max || rawUsed > limit.value.rawMax);
    ghost var sent: seq<Section> := [];
    for i := 0 to |sections|
      invariant var accepted := Filter(keep, sections[..i]);
                && |accepted| == |sent| + overBudget && sent == accepted[..|sent|]
                && FitCount(limit, prefix, accepted) == |sent|
                && filtered == i - |accepted|
      invariant markdown == Page(limit, prefix, sent)
      invariant kept == Filter(Whole(limit, prefix), sent) && omitted == OmittedIds(limit, prefix, sent)
      invariant budgetReached <==> !Fits(limit, prefix) || overBudget > 0
      invariant !Fits(limit, prefix) ==> sent == []
      invariant Fits(limit, prefix) ==> Fits(limit, markdown)
      invariant limit.Some? ==> used == Size(limit.value.measure, markdown) && rawUsed == ByteLen(markdown)
    {
      var s := sections[i];
      ghost var accepted := Filter(keep, sections[..i]);
      assert sections[..i + 1] == sections[..i] + [s];
      FilterNext(keep, sections[..i], s);
      if !keep(s) {
        filtered := filtered + 1;
        continue;
      }
      AcceptedNext(limit, prefix, accepted, sent, s);
      if budgetReached {
        overBudget := overBudget + 1;
        continue;
      }
      if limit.None? {
        markdown := markdown + s.block;
        kept := kept + [s];
        sent := sent + [s];
        continue;
      }
      var l := limit.value;
      var blockSize := Size(l.measure, s.block);
      SizeAppend(l.measure, prefix, s.block);
      ByteLenAppend(prefix, s.block);
      if prefixSize + blockSize > (if l.aloneMax > l.max then l.aloneMax else l.max)
         || ByteLen(prefix) + ByteLen(s.block) > l.rawMax {
        var pointer := Pointer(s);
        var pointerSize := Size(l.measure, pointer);
        SizeAppend(l.measure, markdown, pointer);
        ByteLenAppend(markdown, pointer);
        if used + pointerSize > l.max || rawUsed + ByteLen(pointer) > l.rawMax {
          budgetReached := true;
          overBudget := overBudget + 1;
        } else {
          markdown := markdown + pointer;
          used := used + pointerSize;
          rawUsed := rawUsed + ByteLen(pointer);
          omitted := omitted + [s.id];
          sent := sent + [s];
        }
        continue;
      }
      SizeAppend(l.measure, markdown, s.block);
      ByteLenAppend(markdown, s.block);
      if used + blockSize > l.max || rawUsed + ByteLen(s.block) > l.rawMax {
        budgetReached := true;
        overBudget := overBudget + 1;
        continue;
      }
      markdown := markdown + s.block;
      used := used + blockSize;
      rawUsed := rawUsed + ByteLen(s.block);
      kept := kept + [s];
      sent := sent + [s];
    }
    assert sections[..|sections|] == sections;
    if limit.Some? && (used > limit.value.max || rawUsed > limit.value.rawMax) {
      markdown := "";
    }
    r := Subset(markdown, kept, filtered, overBudget, omitted);
  }

  // ------------------------------------------------- what a selection satisfies

  lemma {:induction false} PagePrefix(limit: Option<Limit>, prefix: string, sections: seq<Section>, k: nat)
    requires k <= |sections| && Fits(limit, Page(limit, prefix, sections))
    ensures Fits(limit, Page(limit, prefix, sections[..k]))
    decreases |sections|
  {
    var n := |sections| - 1;
    if k == |sections| {
      assert sections[..k] == sections;
    } else {
      FitsMonotone(limit, Page(limit, prefix, sections[..n]), Emitted(limit, prefix, sections[n]));
      PagePrefix(limit, prefix, sections[..n], k);
      assert sections[..n][..k] == sections[..k];
    }
  }

  /** The count is the longest run that fits: a run of `k` sections is within
      it exactly when its page fits. */
  lemma {:induction false} FitCountLongest(limit: Option<Limit>, prefix: string, sections: seq<Section>, k: nat)
    requires 0 < k <= |sections|
    ensures k <= FitCount(limit, prefix, sections) <==> Fits(limit, Page(limit, prefix, sections[..k]))
    decreases |sections|
  {
    var n := |sections| - 1;
    if k <= n {
      FitCountLongest(limit, prefix, sections[..n], k);
      assert sections[..n][..k] == sections[..k];
    } else {
      assert sections[..k] == sections;
      if Fits(limit, Page(limit, prefix, sections)) && n > 0 {
        PagePrefix(limit, prefix, sections, n);
        FitCountLongest(limit, prefix, sections[..n], n);
        assert sections[..n][..n] == sections[..n];
      }
    }
  }

  lemma {:induction false} SentOrOmitted(limit: Option<Limit>, prefix: string, sections: seq<Section>)
    ensures |OmittedIds(limit, prefix, sections)| + |Filter(Whole(limit, prefix), sections)| == |sections|
    decreases |sections|
  {
    if sections != [] { SentOrOmitted(limit, prefix, sections[..|sections| - 1]); }
  }

  lemma NothingFits(limit: Option<Limit>)
    ensures Fits(limit, "")
  {
  }

  /** A selection never exceeds either limit, accounts for every section once,
      and its page is the prefix with the longest in-order run of accepted
      sections that fits: nothing follows the first that does not. */
  lemma SelectionMeetsSpec(limit: Option<Limit>, prefix: string, sections: seq<Section>, keep: Section -> bool)
    ensures var r := Select(limit, prefix, sections, keep);
            var accepted := Filter(keep, sections);
            var sent := |accepted| - r.overBudget;
            && Fits(limit, r.markdown)
            && r.filtered + r.overBudget + |r.omitted| + |r.sections| == |sections|
            && 0 <= sent <= |accepted|
            && (Fits(limit, prefix) ==> r.markdown == Page(limit, prefix, accepted[..sent]))
            && (!Fits(limit, prefix) ==> r.markdown == "" && sent == 0)
            && (forall k: nat | 0 < k <= |accepted| :: k <= sent <==> Fits(limit, Page(limit, prefix, accepted[..k])))
  {
    PackNothing(limit, prefix);
    NothingFits(limit);
    hide Page, FitCount, OmittedIds, Size, ByteLen, Filter, Pointer;
    var accepted := Filter(keep, sections);
    var sent := FitCount(limit, prefix, accepted);
    SentOrOmitted(limit, prefix, accepted[..sent]);
    forall k: nat | 0 < k <= |accepted|
      ensures k <= sent <==> Fits(limit, Page(limit, prefix, accepted[..k]))
    {
      FitCountLongest(limit, prefix, accepted, k);
    }
    if sent > 0 {
      FitCountLongest(limit, prefix, accepted, sent);
      PageExtends(limit, prefix, accepted[..sent]);
    } else {
      assert accepted[..sent] == [];
    }
  }

  /** An oversized section becomes a pointer and never counts as sent; every
      other one that is sent appears whole. */
  lemma {:induction false} SentWholeOrPointer(limit: Option<Limit>, prefix: string, sections: seq<Section>, keep: Section -> bool)
    ensures var r := Select(limit, prefix, sections, keep);
            forall s | s in r.sections :: s in sections && keep(s) && !Oversized(limit, prefix, s)
    ensures var r := Select(limit, prefix, sections, keep);
            forall id | id in r.omitted :: exists s :: s in sections && keep(s) && Oversized(limit, prefix, s) && s.id == id
  {
    hide Page, FitCount, Oversized, OmittedIds;
    var accepted := Filter(keep, sections);
    var sent := accepted[..FitCount(limit, prefix, accepted)];
    OmittedAreOversized(limit, prefix, sent);
    assert forall s | s in sent :: s in accepted;
  }

  lemma {:induction false} OmittedAreOversized(limit: Option<Limit>, prefix: string, sections: seq<Section>)
    ensures forall id | id in OmittedIds(limit, prefix, sections) ::
              exists s :: s in sections && Oversized(limit, prefix, s) && s.id == id
    decreases |sections|
  {
    if sections != [] {
      var n := |sections| - 1;
      OmittedAreOversized(limit, prefix, sections[..n]);
      forall id | id in OmittedIds(limit, prefix, sections)
        ensures exists s :: s in sections && Oversized(limit, prefix, s) && s.id == id
      {
        if id in OmittedIds(limit, prefix, sections[..n]) {
          var s :| s in sections[..n] && Oversized(limit, prefix, s) && s.id == id;
          assert s in sections;
        } else {
          assert sections[n] in sections;
        }
      }
    }
  }

  // ------------------------------------------------------- the fate of a section

  /** The whole hook would have room for this block right after the prefix: in
      the measure within the hook's limit or what is left of it, whichever is
      larger, and in bytes within the other limit. */
  ghost predicate FitsAlone(l: Limit, prefix: string, s: Section) {
    && (|| Size(l.measure, prefix) + Size(l.measure, s.block) <= l.aloneMax
        || Size(l.measure, prefix) + Size(l.measure, s.block) <= l.max)
    && ByteLen(prefix) + ByteLen(s.block) <= l.rawMax
  }

  /** There is room for more text behind this page. */
  ghost predicate HasRoom(l: Limit, page: string, text: string) {
    && Size(l.measure, page) + Size(l.measure, text) <= l.max
    && ByteLen(page) + ByteLen(text) <= l.rawMax
  }

  ghost function Alone(l: Limit, prefix: string): Section -> bool {
    s => FitsAlone(l, prefix, s)
  }

  ghost function TooLarge(l: Limit, prefix: string): Section -> bool {
    s => !FitsAlone(l, prefix, s)
  }

  function Ids(sections: seq<Section>): (r: seq<string>)
    ensures |r| == |sections| && forall k | 0 <= k < |r| :: r[k] == sections[k].id
  {
    seq(|sections|, k requires 0 <= k < |sections| => sections[k].id)
  }

  /** What the page shows of each section: its block or its pointer. */
  ghost function Shown(l: Limit, prefix: string, sections: seq<Section>): (r: seq<Section>)
    ensures |r| == |sections| && forall k | 0 <= k < |r| ::
              r[k] == if FitsAlone(l, prefix, sections[k]) then sections[k] else sections[k].(block := Pointer(sections[k]))
  {
    seq(|sections|, k requires 0 <= k < |sections| =>
      if FitsAlone(l, prefix, sections[k]) then sections[k] else sections[k].(block := Pointer(sections[k])))
  }

  lemma OversizedRule(l: Limit, prefix: string, s: Section)
    ensures Oversized(Some(l), prefix, s) <==> !FitsAlone(l, prefix, s)
  {
    SizeAppend(l.measure, prefix, s.block);
    ByteLenAppend(prefix, s.block);
  }

  lemma RoomRule(l: Limit, page: string, text: string)
    ensures Fits(Some(l), page + text) <==> HasRoom(l, page, text)
  {
    SizeAppend(l.measure, page, text);
    ByteLenAppend(page, text);
  }

  lemma {:induction false} FatesOfSent(l: Limit, prefix: string, sections: seq<Section>)
    ensures Filter(Whole(Some(l), prefix), sections) == Filter(Alone(l, prefix), sections)
    ensures OmittedIds(Some(l), prefix, sections) == Ids(Filter(TooLarge(l, prefix), sections))
    decreases |sections|
  {
    hide Oversized, FitsAlone;
    if sections != [] {
      var n := |sections| - 1;
      FatesOfSent(l, prefix, sections[..n]);
      OversizedRule(l, prefix, sections[n]);
      var large := Filter(TooLarge(l, prefix), sections[..n]);
      assert Ids(large + [sections[n]]) == Ids(large) + [sections[n].id];
    }
  }

  lemma {:induction false} PageShows(l: Limit, prefix: string, sections: seq<Section>)
    ensures Page(Some(l), prefix, sections) == prefix + Blocks(Shown(l, prefix, sections))
    decreases |sections|
  {
    hide Oversized, FitsAlone, Pointer;
    if sections == [] {
      assert prefix + [] == prefix;
    } else {
      var n := |sections| - 1;
      PageShows(l, prefix, sections[..n]);
      OversizedRule(l, prefix, sections[n]);
      var shown := Shown(l, prefix, sections);
      assert shown[..n] == Shown(l, prefix, sections[..n]);
      assert prefix + (Blocks(shown[..n]) + shown[n].block) == (prefix + Blocks(shown[..n])) + shown[n].block;
    }
  }

  /** The accepted sections in order: up to the first for which there is no room,
      those that fit the whole hook are sent as they are and the others are
      listed as omitted; from that one on everything is over budget. */
  lemma SectionFates(l: Limit, prefix: string, sections: seq<Section>, keep: Section -> bool)
    ensures var r, accepted := Select(Some(l), prefix, sections, keep), Filter(keep, sections);
            var sent := |accepted| - r.overBudget;
            && 0 <= sent <= |accepted|
            && r.sections == Filter(Alone(l, prefix), accepted[..sent])
            && r.omitted == Ids(Filter(TooLarge(l, prefix), accepted[..sent]))
            && r.markdown == (if HasRoom(l, prefix, "") then prefix + Blocks(Shown(l, prefix, accepted[..sent])) else "")
            && (sent < |accepted| ==>
                  var next := accepted[sent];
                  || !HasRoom(l, prefix, "")
                  || !HasRoom(l, r.markdown, if FitsAlone(l, prefix, next) then next.block else Pointer(next)))
  {
    hide FitCount, OmittedIds, Size, ByteLen, Filter, Pointer, Oversized, FitsAlone, HasRoom, Fits, Page, Whole;
    var accepted := Filter(keep, sections);
    var sent := FitCount(Some(l), prefix, accepted);
    FatesOfSent(l, prefix, accepted[..sent]);
    PageShows(l, prefix, accepted[..sent]);
    SelectionMeetsSpec(Some(l), prefix, sections, keep);
    RoomRule(l, prefix, "");
    assert prefix + "" == prefix;
    if sent < |accepted| {
      var next := accepted[sent];
      FitCountLongest(Some(l), prefix, accepted, sent + 1);
      PageNext(Some(l), prefix, accepted[..sent], next);
      assert accepted[..sent + 1] == accepted[..sent] + [next];
      OversizedRule(l, prefix, next);
      RoomRule(l, Page(Some(l), prefix, accepted[..sent]), Emitted(Some(l), prefix, next));
    }
  }

  /** A section that fits the whole hook is never replaced by a pointer: either it
      is sent whole now, or it and every accepted section behind it wait. */
  lemma HeldBackWhole(l: Limit, prefix: string, sections: seq<Section>, keep: Section -> bool, k: nat)
    requires k < |Filter(keep, sections)| && FitsAlone(l, prefix, Filter(keep, sections)[k])
    requires forall j | 0 <= j < |Filter(keep, sections)| && j != k :: Filter(keep, sections)[j].id != Filter(keep, sections)[k].id
    ensures var r, accepted := Select(Some(l), prefix, sections, keep), Filter(keep, sections);
            && accepted[k].id !in r.omitted
            && (accepted[k] in r.sections <==> k < |accepted| - r.overBudget)
  {
    hide Select, FitsAlone, HasRoom, Filter, Blocks, Pointer;
    SectionFates(l, prefix, sections, keep);
    var accepted := Filter(keep, sections);
    FateOfOne(l, prefix, accepted, |accepted| - Select(Some(l), prefix, sections, keep).overBudget, k);
  }

  lemma FateOfOne(l: Limit, prefix: string, accepted: seq<Section>, sent: nat, k: nat)
    requires k < |accepted| && sent <= |accepted| && FitsAlone(l, prefix, accepted[k])
    requires forall j | 0 <= j < |accepted| && j != k :: accepted[j].id != accepted[k].id
    ensures accepted[k].id !in Ids(Filter(TooLarge(l, prefix), accepted[..sent]))
    ensures accepted[k] in Filter(Alone(l, prefix), accepted[..sent]) <==> k < sent
  {
    hide FitsAlone;
    assert k < sent ==> accepted[..sent][k] == accepted[k];
    var large := Filter(TooLarge(l, prefix), accepted[..sent]);
    forall m | 0 <= m < |large| ensures large[m].id != accepted[k].id {
      assert large[m] in large;
    }
  }

  /** Without a limit everything accepted is sent. */
  lemma {:induction false} WithoutLimit(prefix: string, sections: seq<Section>, keep: Section -> bool)
    ensures var accepted := Filter(keep, sections);
            Select(None, prefix, sections, keep) ==
            Subset(prefix + Blocks(accepted), accepted, |sections| - |accepted|, 0, [])
  {
    hide Filter;
    var accepted := Filter(keep, sections);
    AllFit(prefix, accepted);
    assert accepted[..|accepted|] == accepted;
    FilterEverything(Whole(None, prefix), accepted);
  }

  lemma {:induction false} AllFit(prefix: string, sections: seq<Section>)
    ensures FitCount(None, prefix, sections) == |sections| && OmittedIds(None, prefix, sections) == []
    ensures Page(None, prefix, sections) == prefix + Blocks(sections)
    decreases |sections|
  {
    if sections != [] {
      var n := |sections| - 1;
      AllFit(prefix, sections[..n]);
      assert prefix + (Blocks(sections[..n]) + sections[n].block) == (prefix + Blocks(sections[..n])) + sections[n].block;
    } else {
      assert prefix + [] == prefix;
    }
  }
}