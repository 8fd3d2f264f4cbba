/** One generation of the cached index: a header line that carries the freshness
    fingerprint and authenticates the rows, followed by one line per entry. */
module IndexFile {
  import opened Wrappers
  import opened Text
  import opened Sorting
  import Fingerprint

  /** An index row; `rest` stands for the fields these operations only copy. */
  datatype Entry = Entry(id: string, notePath: string, eventPath: Option<string>, rest: string)

  /** The canonical-free read model; `aliases` stands for both alias tables. */
  datatype Projection = Projection(complete: bool, entries: seq<Entry>, aliases: string)

  datatype Scan = Scan(totals: Fingerprint.Totals, registryModified: nat)

  datatype Freshness = Freshness(schema: nat, root: string, scan: Scan)

  datatype Header = Header(
    format: nat,
    freshness: Freshness,
    entryCount: nat,
    entriesDigest: string,
    projectionDigest: string,
    projection: Option<Projection>)

  const FORMAT: nat := 1
  const SCHEMA: nat := 12
  const LEGACY_SCHEMA: nat := 10
  const MAX_BYTES: nat := 256 * 1024 * 1024
  const CURATED: string := "curated:"

  /** JSON and the digest, about which only `Sound` is assumed. */
  datatype Codec = Codec(
    headerJson: Header -> string,
    parseHeader: string -> Option<Header>,
    entryJson: Entry -> string,
    parseEntry: string -> Option<Entry>,
    projectionJson: Projection -> string,
    digest: string -> string)
  {
    static ghost predicate OneLine(json: string) {
      '\n' !in json && !IsBlank(json) && StripCr(json) == json
    }

    ghost predicate Sound() {
      && (forall h :: OneLine(headerJson(h)) && parseHeader(headerJson(h)) == Some(h))
      && (forall e :: OneLine(entryJson(e)) && parseEntry(entryJson(e)) == Some(e))
      && (forall p, q :: projectionJson(p) == projectionJson(q) ==> p == q)
      && (forall s, t :: digest(s) == digest(t) ==> s == t)
    }

    /** JSON objects cut short do not parse. */
    ghost predicate PrefixFree() {
      forall h, k: nat :: k < |headerJson(h)| ==> parseHeader(headerJson(h)[..k]) == None
    }
  }

  predicate IsCurated(e: Entry) {
    CURATED <= e.id
  }

  const CuratedOnly: Entry -> bool := e => IsCurated(e)

  // ------------------------------------------------------------------ writing

  function Rows(c: Codec, entries: seq<Entry>): string {
    if entries == [] then "" else Rows(c, entries[..|entries| - 1]) + c.entryJson(entries[|entries| - 1]) + "\n"
  }

  function StoredPart(p: Projection): Projection {
    p.(entries := Filter(CuratedOnly, p.entries))
  }

  function HeaderFor(c: Codec, f: Freshness, p: Projection, entries: seq<Entry>): Header {
    Header(FORMAT, f, |entries|, c.digest(Rows(c, entries)), c.digest(c.projectionJson(StoredPart(p))), Some(StoredPart(p)))
  }

  function Render(c: Codec, f: Freshness, p: Projection, entries: seq<Entry>): string {
    c.headerJson(HeaderFor(c, f, p, entries)) + "\n" + Rows(c, entries)
  }

  method RenderJsonl(c: Codec, f: Freshness, p: Projection, entries: seq<Entry>) returns (output: string)
    ensures output == Render(c, f, p, entries)
  {
    output := c.headerJson(HeaderFor(c, f, p, entries)) + "\n";
    ghost var head := output;
    for i := 0 to |entries|
      invariant output == head + Rows(c, entries[..i])
    {
      output := output + (c.entryJson(entries[i]) + "\n");
      assert entries[..i + 1][..i] == entries[..i];
    }
    assert entries[..|entries|] == entries;
  }

  // ------------------------------------------------------------------ reading

  function EntriesIn(c: Codec, lines: seq<string>): seq<Entry> {
    if lines == [] then []
    else
      var front, line := EntriesIn(c, lines[..|lines| - 1]), lines[|lines| - 1];
      match if IsBlank(line) then None else c.parseEntry(line)
      case Some(e) => front + [e]
      case None => front
  }

  /** Position of the first line that is not blank, or the number of lines. */
  function FirstFilled(lines: seq<string>): (k: nat)
    ensures k <= |lines|
    ensures forall i | 0 <= i < k :: IsBlank(lines[i])
    ensures k < |lines| ==> !IsBlank(lines[k])
  {
    if lines == [] || !IsBlank(lines[0]) then 0 else 1 + FirstFilled(lines[1..])
  }

  /** The header, when the first filled line is one, and every row that parses. */
  function Read(c: Codec, contents: string): (Option<Header>, seq<Entry>) {
    var lines := Lines(contents);
    var k := FirstFilled(lines);
    if k == |lines| then (None, [])
    else
      match c.parseHeader(lines[k])
      case Some(h) => if h.format == FORMAT then (Some(h), EntriesIn(c, lines[k + 1..])) else (None, EntriesIn(c, lines[k..]))
      case None => (None, EntriesIn(c, lines[k..]))
  }

  predicate GenerationValid(c: Codec, h: Header, entries: seq<Entry>) {
    && h.freshness.schema == SCHEMA
    && h.entryCount == |entries|
    && h.entriesDigest == c.digest(Rows(c, entries))
    && h.projection.Some?
    && h.projectionDigest == c.digest(c.projectionJson(h.projection.value))
  }

  /** A read declines files over the cap before looking at them. */
  function ReadCapped(c: Codec, file: Option<string>): Option<(Header, seq<Entry>)> {
    if file.None? || ByteLen(file.value) > MAX_BYTES then None
    else
      match Read(c, file.value)
      case (Some(h), entries) => Some((h, entries))
      case (None, _) => None
  }

  function Hydrate(p: Projection, entries: seq<Entry>): Projection {
    p.(entries := entries + p.entries)
  }

  /** What `load_fresh_index` serves when the store's fingerprint is `now`. */
  function LoadFresh(c: Codec, file: Option<string>, now: Freshness): Option<(seq<Entry>, Projection)> {
    match ReadCapped(c, file)
    case Some((h, entries)) =>
      if h.freshness == now && GenerationValid(c, h, entries)
      then Some((entries, Hydrate(h.projection.value, entries)))
      else None
    case None => None
  }

  // ------------------------------------------------------------ round trip

  lemma {:induction false} EntriesInAppend(c: Codec, a: seq<string>, b: seq<string>)
    ensures EntriesIn(c, a + b) == EntriesIn(c, a) + EntriesIn(c, b)
    decreases |b|
  {
    if b == [] {
      assert a + b == a;
    } else {
      assert (a + b)[..|a + b| - 1] == a + b[..|b| - 1];
      EntriesInAppend(c, a, b[..|b| - 1]);
    }
  }

  /** Rows read back as exactly the entries they were written from. */
  lemma {:induction false} RowsRoundTrip(c: Codec, entries: seq<Entry>)
    requires c.Sound()
    ensures EndsLine(Rows(c, entries))
    ensures EntriesIn(c, Lines(Rows(c, entries))) == entries
    decreases |entries|
  {
    hide Codec.Sound, Lines, EntriesIn, EndsLine, Rows;
    if entries == [] {
      NoRows(c);
    } else {
      var front, e := entries[..|entries| - 1], entries[|entries| - 1];
      RowsRoundTrip(c, front);
      var json := c.entryJson(e);
      OneRow(c, e);
      RowsNext(c, entries);
      LinesAppend(Rows(c, front), json + "\n");
      EntriesInAppend(c, Lines(Rows(c, front)), [json]);
      EndsAppend(Rows(c, front), json);
    }
  }

  lemma NoRows(c: Codec)
    ensures EndsLine(Rows(c, [])) && EntriesIn(c, Lines(Rows(c, []))) == []
  {
  }

  lemma RowsNext(c: Codec, entries: seq<Entry>)
    requires entries != []
    ensures Rows(c, entries) ==
            Rows(c, entries[..|entries| - 1]) + (c.entryJson(entries[|entries| - 1]) + "\n")
  {
  }

  lemma EndsAppend(a: string, line: string)
    ensures EndsLine(a + (line + "\n"))
  {
  }

  lemma OneRow(c: Codec, e: Entry)
    requires c.Sound()
    ensures Lines(c.entryJson(e) + "\n") == [c.entryJson(e)]
    ensures EntriesIn(c, [c.entryJson(e)]) == [e]
  {
    var json := c.entryJson(e);
    assert Codec.OneLine(json);
    LinesOfOne(json);
    assert [json][..0] == [];
  }

  /** A file that begins with a header line reads as that header and whatever
      rows follow it. */
  lemma ReadHeaderFirst(c: Codec, h: Header, body: string)
    requires c.Sound() && h.format == FORMAT
    ensures Read(c, c.headerJson(h) + "\n" + body) == (Some(h), EntriesIn(c, Lines(body)))
    ensures Read(c, c.headerJson(h)) == (Some(h), [])
  {
    var json := c.headerJson(h);
    assert Codec.OneLine(json);
    LinesAppend(json + "\n", body);
    LinesOfOne(json);
    var lines := Lines(json + "\n" + body);
    assert lines == [json] + Lines(body);
    assert FirstFilled(lines) == 0;
    assert lines[1..] == Lines(body);
    assert json != "";
    assert Lines(json)[1..] == [];
  }

  /** A published generation reads back whole and valid. */
  lemma RenderRoundTrip(c: Codec, f: Freshness, p: Projection, entries: seq<Entry>)
    requires c.Sound()
    ensures Read(c, Render(c, f, p, entries)) == (Some(HeaderFor(c, f, p, entries)), entries)
    ensures f.schema == SCHEMA ==> GenerationValid(c, HeaderFor(c, f, p, entries), entries)
  {
    ReadHeaderFirst(c, HeaderFor(c, f, p, entries), Rows(c, entries));
    RowsRoundTrip(c, entries);
  }

  // --------------------------------------------------------------- integrity

  /** Whatever a file holds: if it validates under the digests of a published
      generation, its rows and stored projection are exactly the published ones. */
  lemma Integrity(c: Codec, h: Header, read: seq<Entry>, f: Freshness, p: Projection, entries: seq<Entry>)
    requires c.Sound() && GenerationValid(c, h, read)
    requires h.entriesDigest == HeaderFor(c, f, p, entries).entriesDigest
    requires h.projectionDigest == HeaderFor(c, f, p, entries).projectionDigest
    ensures read == entries && h.projection == Some(StoredPart(p))
  {
    RowsRoundTrip(c, read);
    RowsRoundTrip(c, entries);
  }

  /** Any change below the header line either invalidates the generation or
      leaves the entries as published. */
  lemma DamagedRows(c: Codec, f: Freshness, p: Projection, entries: seq<Entry>, body: string)
    requires c.Sound()
    ensures var (h, read) := Read(c, c.headerJson(HeaderFor(c, f, p, entries)) + "\n" + body);
            h.Some? && (GenerationValid(c, h.value, read) ==> read == entries && h.value == HeaderFor(c, f, p, entries))
  {
    var h := HeaderFor(c, f, p, entries);
    ReadHeaderFirst(c, h, body);
    var read := EntriesIn(c, Lines(body));
    if GenerationValid(c, h, read) {
      Integrity(c, h, read, f, p, entries);
    }
  }

  /** The same for a file torn at any point, header included. */
  lemma TornFile(c: Codec, f: Freshness, p: Projection, entries: seq<Entry>, k: nat)
    requires c.Sound() && c.PrefixFree() && k <= |Render(c, f, p, entries)|
    ensures var (h, read) := Read(c, Render(c, f, p, entries)[..k]);
            h.Some? && GenerationValid(c, h.value, read) ==> read == entries && h.value == HeaderFor(c, f, p, entries)
  {
    var h := HeaderFor(c, f, p, entries);
    var json := c.headerJson(h);
    var all := Render(c, f, p, entries);
    assert Codec.OneLine(json);
    if k < |json| {
      var torn := json[..k];
      assert all[..k] == torn;
      assert '\n' !in torn by { assert forall x | x in torn :: x in json; }
      if k > 0 {
        LinesOfOne(torn);
        assert Lines(torn) == [torn];
      }
    } else if k == |json| {
      assert all[..k] == json;
      ReadHeaderFirst(c, h, "");
      if GenerationValid(c, h, []) {
        Integrity(c, h, [], f, p, entries);
      }
    } else {
      var body := all[|json| + 1..k];
      assert all[..k] == json + "\n" + body;
      DamagedRows(c, f, p, entries, body);
    }
  }

  /** A file that starts with a header line and goes on with rows, whoever wrote
      it, is fresh for `now` exactly when it is within the cap, of this format
      and schema, stamped for `now`, and its count and both digests are right. */
  lemma FreshIff(c: Codec, h: Header, entries: seq<Entry>, now: Freshness)
    requires c.Sound()
    ensures var file := c.headerJson(h) + "\n" + Rows(c, entries);
            LoadFresh(c, Some(file), now).Some? <==>
              && ByteLen(file) <= 256 * 1024 * 1024
              && h.format == 1 && h.freshness == now && now.schema == 12
              && h.entryCount == |entries| && h.entriesDigest == c.digest(Rows(c, entries))
              && h.projection.Some? && h.projectionDigest == c.digest(c.projectionJson(h.projection.value))
  {
    RowsRoundTrip(c, entries);
    if h.format == FORMAT {
      ReadHeaderFirst(c, h, Rows(c, entries));
    } else {
      ForeignFormat(c, h, Rows(c, entries));
    }
    hide Codec.Sound, Read, Rows, ByteLen;
  }

  lemma ForeignFormat(c: Codec, h: Header, body: string)
    requires c.Sound() && h.format != FORMAT
    ensures Read(c, c.headerJson(h) + "\n" + body).0.None?
  {
    var json := c.headerJson(h);
    assert Codec.OneLine(json);
    LinesAppend(json + "\n", body);
    LinesOfOne(json);
    assert Lines(json + "\n" + body) == [json] + Lines(body);
    assert FirstFilled(Lines(json + "\n" + body)) == 0;
  }
}
