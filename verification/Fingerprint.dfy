/** The freshness fingerprint of a store's canonical files.

    A directory walk folds every file's (relative path, size, mtime) into a
    64-bit word: FNV-1a over the encoding, the MurmurHash3 finalizer, and a
    wrapping sum over all files. */
module Fingerprint {
  import opened Words

  const FNV_OFFSET: U64 := 0xcbf2_9ce4_8422_2325
  const FNV_PRIME: U64 := 0x0000_0100_0000_01b3
  const MIX_1: U64 := 0xff51_afd7_ed55_8ccd
  const MIX_2: U64 := 0xc4ce_b9fe_1a85_ec53

  datatype FileMeta = FileMeta(path: seq<Byte>, size: U64, modified: U128)

  // ---------------------------------------------------------------- one file

  function Encode(f: FileMeta): seq<Byte> {
    f.path + LittleEndian(8, f.size) + LittleEndian(16, f.modified)
  }

  function FnvStep(hash: U64, byte: Byte): U64 {
    WrappingMul(Xor64(hash, byte), FNV_PRIME)
  }

  function Fnv(hash: U64, bytes: seq<Byte>): U64 {
    if bytes == [] then hash else FnvStep(Fnv(hash, bytes[..|bytes| - 1]), bytes[|bytes| - 1])
  }

  function Finalize(h: U64): U64 {
    XorShift33(WrappingMul(XorShift33(WrappingMul(XorShift33(h), MIX_1)), MIX_2))
  }

  function IdentityHash(f: FileMeta): U64 {
    Finalize(Fnv(FNV_OFFSET, Encode(f)))
  }

  method FileIdentityHash(f: FileMeta) returns (hash: U64)
    ensures hash == IdentityHash(f)
  {
    hash := FNV_OFFSET;
    var bytes := f.path + LittleEndian(8, f.size) + LittleEndian(16, f.modified);
    for i := 0 to |bytes|
      invariant hash == Fnv(FNV_OFFSET, bytes[..i])
    {
      assert bytes[..i + 1][..i] == bytes[..i];
      hash := Xor64(hash, bytes[i]);
      hash := WrappingMul(hash, FNV_PRIME);
    }
    assert bytes[..|bytes|] == bytes;
    hash := XorShift33(hash);
    hash := WrappingMul(hash, MIX_1);
    hash := XorShift33(hash);
    hash := WrappingMul(hash, MIX_2);
    hash := XorShift33(hash);
  }

  lemma FactorsInvert()
    ensures WrappingMul(FNV_PRIME, 0xce96_5057_aff6_957b) == 1
    ensures WrappingMul(MIX_1, 0x4f74_430c_22a5_4005) == 1
    ensures WrappingMul(MIX_2, 0x9cb4_b2f8_1293_37db) == 1
  {
  }

  lemma FnvStepInjective(h: U64, k: U64, b: Byte, c: Byte)
    requires FnvStep(h, b) == FnvStep(k, c)
    ensures b == c ==> h == k
    ensures h == k ==> b == c
  {
    FactorsInvert();
    MulInjective(FNV_PRIME, 0xce96_5057_aff6_957b, Xor64(h, b), Xor64(k, c));
    if b == c { Xor64Injective(h, k, b); }
    if h == k { Xor64Injective(b, c, h); }
  }

  lemma FinalizeInjective(h: U64, k: U64)
    requires Finalize(h) == Finalize(k)
    ensures h == k
  {
    FactorsInvert();
    var h1, k1 := WrappingMul(XorShift33(h), MIX_1), WrappingMul(XorShift33(k), MIX_1);
    XorShiftInjective(WrappingMul(XorShift33(h1), MIX_2), WrappingMul(XorShift33(k1), MIX_2));
    MulInjective(MIX_2, 0x9cb4_b2f8_1293_37db, XorShift33(h1), XorShift33(k1));
    XorShiftInjective(h1, k1);
    MulInjective(MIX_1, 0x4f74_430c_22a5_4005, XorShift33(h), XorShift33(k));
    XorShiftInjective(h, k);
  }

  ghost predicate OneByteApart(a: seq<Byte>, b: seq<Byte>, i: nat) {
    |a| == |b| && i < |a| && a[i] != b[i] && forall j | 0 <= j < |a| && j != i :: a[j] == b[j]
  }

  lemma {:induction false} FnvSensitive(h: U64, a: seq<Byte>, b: seq<Byte>, i: nat)
    requires OneByteApart(a, b, i)
    ensures Fnv(h, a) != Fnv(h, b)
    decreases |a|
  {
    var n := |a| - 1;
    assert i == n ==> a[..n] == b[..n];
    if Fnv(h, a) == Fnv(h, b) {
      FnvStepInjective(Fnv(h, a[..n]), Fnv(h, b[..n]), a[n], b[n]);
      if i != n {
        FnvSensitive(h, a[..n], b[..n], i);
      }
    }
  }

  /** A file's hash changes whenever exactly one byte of its encoding does. */
  lemma HashSensitive(f: FileMeta, g: FileMeta, i: nat)
    requires OneByteApart(Encode(f), Encode(g), i)
    ensures IdentityHash(f) != IdentityHash(g)
  {
    FnvSensitive(FNV_OFFSET, Encode(f), Encode(g), i);
    if IdentityHash(f) == IdentityHash(g) {
      FinalizeInjective(Fnv(FNV_OFFSET, Encode(f)), Fnv(FNV_OFFSET, Encode(g)));
    }
  }

  /** No separator is needed: encodings are equal only for equal identities. */
  lemma EncodeInjective(f: FileMeta, g: FileMeta)
    requires Encode(f) == Encode(g)
    ensures f == g
  {
    var a, b := Encode(f), Encode(g);
    var n := |f.path|;
    assert |a| == n + 24 && |b| == |g.path| + 24;
    assert a[..n] == f.path && b[..n] == g.path;
    assert a[n..n + 8] == LittleEndian(8, f.size) && b[n..n + 8] == LittleEndian(8, g.size);
    assert a[n + 8..] == LittleEndian(16, f.modified) && b[n + 8..] == LittleEndian(16, g.modified);
    assert Pow256(8) == 0x1_0000_0000_0000_0000;
    assert Pow256(16) == 0x1_0000_0000_0000_0000_0000_0000_0000_0000;
    LittleEndianInjective(8, f.size, g.size);
    LittleEndianInjective(16, f.modified, g.modified);
  }

  // ---------------------------------------------------------------- the walk

  /** What one directory entry turned out to be during the walk.  Atomic
      writers' temporary files and non-regular files are `Ignored`. */
  datatype Node =
    | Dir(modified: U128, children: seq<Node>)
    | File(meta: FileMeta)
    | Ignored

  ghost function Files(n: Node): multiset<FileMeta> {
    match n
    case Dir(_, children) => FilesOf(children)
    case File(meta) => multiset{meta}
    case Ignored => multiset{}
  }

  ghost function FilesOf(nodes: seq<Node>): multiset<FileMeta> {
    if nodes == [] then multiset{} else FilesOf(nodes[..|nodes| - 1]) + Files(nodes[|nodes| - 1])
  }

  ghost function Dirs(n: Node): multiset<U128> {
    match n
    case Dir(modified, children) => multiset{modified} + DirsOf(children)
    case File(_) => multiset{}
    case Ignored => multiset{}
  }

  ghost function DirsOf(nodes: seq<Node>): multiset<U128> {
    if nodes == [] then multiset{} else DirsOf(nodes[..|nodes| - 1]) + Dirs(nodes[|nodes| - 1])
  }

  ghost function HashSum(files: multiset<FileMeta>): U64 {
    if files == multiset{} then 0
    else
      var f :| f in files;
      WrappingAdd(HashSum(files - multiset{f}), IdentityHash(f))
  }

  /** `latest` is the newest of `times`, or 0 for none. */
  ghost predicate IsNewest(latest: U128, times: multiset<U128>) {
    (forall t | t in times :: t <= latest) && (latest == 0 || latest in times)
  }

  ghost predicate IsNewestFile(latest: U128, files: multiset<FileMeta>) {
    (forall f | f in files :: f.modified <= latest) && (latest == 0 || exists f | f in files :: f.modified == latest)
  }

  /** What a walk over exactly these directories and files must report. */
  ghost predicate Reports(scan: Totals, dirs: multiset<U128>, files: multiset<FileMeta>) {
    && scan.dirs == |dirs|
    && scan.files == |files|
    && scan.combined == HashSum(files)
    && IsNewest(scan.latestDir, dirs)
    && IsNewestFile(scan.latestFile, files)
  }

  datatype Totals = Totals(dirs: nat, files: nat, latestDir: U128, latestFile: U128, combined: U64)

  /** The sum does not depend on which term is taken first. */
  lemma {:induction false} HashSumAdd(files: multiset<FileMeta>, f: FileMeta)
    ensures HashSum(files + multiset{f}) == WrappingAdd(HashSum(files), IdentityHash(f))
    decreases |files|
  {
    var all := files + multiset{f};
    var g :| g in all && HashSum(all) == WrappingAdd(HashSum(all - multiset{g}), IdentityHash(g));
    if g == f {
      assert all - multiset{g} == files;
    } else {
      var rest := files - multiset{g};
      assert all - multiset{g} == rest + multiset{f};
      assert rest + multiset{g} == files;
      HashSumAdd(rest, f);
      HashSumAdd(rest, g);
      WrappingAddCommutes(HashSum(rest), IdentityHash(f), IdentityHash(g));
    }
  }

  function AddDir(t: Totals, modified: U128): Totals {
    t.(dirs := t.dirs + 1, latestDir := if modified > t.latestDir then modified else t.latestDir)
  }

  function AddFile(t: Totals, meta: FileMeta): Totals {
    t.(files := t.files + 1,
       latestFile := if meta.modified > t.latestFile then meta.modified else t.latestFile,
       combined := WrappingAdd(t.combined, IdentityHash(meta)))
  }

  lemma AddDirReports(t: Totals, dirs: multiset<U128>, files: multiset<FileMeta>, modified: U128)
    requires Reports(t, dirs, files)
    ensures Reports(AddDir(t, modified), dirs + multiset{modified}, files)
  {
  }

  lemma AddFileReports(t: Totals, dirs: multiset<U128>, files: multiset<FileMeta>, f: FileMeta)
    requires Reports(t, dirs, files)
    ensures Reports(AddFile(t, f), dirs, files + multiset{f})
  {
    HashSumAdd(files, f);
    var all := files + multiset{f};
    assert f in all;
    if f.modified <= t.latestFile && t.latestFile != 0 {
      var g :| g in files && g.modified == t.latestFile;
      assert g in all;
    }
  }

  class CanonicalScan {
    var dirs: nat
    var files: nat
    var latestDir: U128
    var latestFile: U128
    var combined: U64

    function View(): Totals
      reads this
    {
      Totals(dirs, files, latestDir, latestFile, combined)
    }

    constructor ()
      ensures Reports(View(), multiset{}, multiset{})
    {
      dirs, files, latestDir, latestFile, combined := 0, 0, 0, 0, 0;
    }

    /** Folds one entry and everything below it into the totals. */
    method Collect(n: Node, ghost seenDirs: multiset<U128>, ghost seenFiles: multiset<FileMeta>)
      requires Reports(View(), seenDirs, seenFiles)
      modifies this
      ensures Reports(View(), seenDirs + Dirs(n), seenFiles + Files(n))
      decreases n
    {
      match n
      case Dir(modified, children) =>
        AddDirReports(View(), seenDirs, seenFiles, modified);
        dirs := dirs + 1;
        latestDir := if modified > latestDir then modified else latestDir;
        assert View() == AddDir(old(View()), modified);
        CollectAll(children, seenDirs + multiset{modified}, seenFiles);
        assert seenDirs + multiset{modified} + DirsOf(children) == seenDirs + Dirs(n);
      case File(meta) =>
        AddFileReports(View(), seenDirs, seenFiles, meta);
        files := files + 1;
        latestFile := if meta.modified > latestFile then meta.modified else latestFile;
        var hash := FileIdentityHash(meta);
        combined := WrappingAdd(combined, hash);
        assert View() == AddFile(old(View()), meta);
        assert seenDirs + Dirs(n) == seenDirs;
      case Ignored =>
        assert seenDirs + Dirs(n) == seenDirs && seenFiles + Files(n) == seenFiles;
    }

    method CollectAll(nodes: seq<Node>, ghost seenDirs: multiset<U128>, ghost seenFiles: multiset<FileMeta>)
      requires Reports(View(), seenDirs, seenFiles)
      modifies this
      ensures Reports(View(), seenDirs + DirsOf(nodes), seenFiles + FilesOf(nodes))
      decreases nodes
    {
      assert seenDirs + DirsOf([]) == seenDirs && seenFiles + FilesOf([]) == seenFiles;
      for i := 0 to |nodes|
        invariant Reports(View(), seenDirs + DirsOf(nodes[..i]), seenFiles + FilesOf(nodes[..i]))
      {
        Collect(nodes[i], seenDirs + DirsOf(nodes[..i]), seenFiles + FilesOf(nodes[..i]));
        TakeNext(nodes, i, seenDirs, seenFiles);
      }
      assert nodes[..|nodes|] == nodes;
    }
  }

  lemma TakeNext(nodes: seq<Node>, i: nat, dirs: multiset<U128>, files: multiset<FileMeta>)
    requires i < |nodes|
    ensures dirs + DirsOf(nodes[..i + 1]) == dirs + DirsOf(nodes[..i]) + Dirs(nodes[i])
    ensures files + FilesOf(nodes[..i + 1]) == files + FilesOf(nodes[..i]) + Files(nodes[i])
  {
    assert nodes[..i + 1][..i] == nodes[..i];
  }

  /** One walk over the fingerprint's trees, in whatever order they list. */
  method Scan(trees: seq<Node>) returns (totals: Totals)
    ensures Reports(totals, DirsOf(trees), FilesOf(trees))
  {
    var scan := new CanonicalScan();
    scan.CollectAll(trees, multiset{}, multiset{});
    totals := scan.View();
    assert multiset{} + DirsOf(trees) == DirsOf(trees) && multiset{} + FilesOf(trees) == FilesOf(trees);
  }

  // ------------------------------------------------------------- what it sees

  /** Directories and files alone determine every total. */
  lemma ReportsUnique(a: Totals, b: Totals, dirs: multiset<U128>, files: multiset<FileMeta>)
    requires Reports(a, dirs, files) && Reports(b, dirs, files)
    ensures a == b
  {
  }

  /** `b` lists the same entries as `a`, in any order at every level. */
  ghost predicate Reordered(a: seq<Node>, b: seq<Node>)
    decreases a
  {
    exists mid: seq<Node> ::
      && |mid| == |a|
      && multiset(mid) == multiset(b)
      && forall i | 0 <= i < |a| :: SameEntry(a[i], mid[i])
  }

  ghost predicate SameEntry(a: Node, b: Node)
    decreases a
  {
    match a
    case Dir(modified, children) => b.Dir? && b.modified == modified && Reordered(children, b.children)
    case _ => a == b
  }

  lemma {:induction false} ContentsAppend(a: seq<Node>, b: seq<Node>)
    ensures FilesOf(a + b) == FilesOf(a) + FilesOf(b)
    ensures DirsOf(a + b) == DirsOf(a) + DirsOf(b)
    decreases |b|
  {
    if b == [] {
      assert a + b == a;
    } else {
      var n := |b| - 1;
      assert (a + b)[..|a + b| - 1] == a + b[..n];
      ContentsAppend(a, b[..n]);
    }
  }

  lemma ContentsOfOne(node: Node)
    ensures FilesOf([node]) == Files(node) && DirsOf([node]) == Dirs(node)
  {
  }

  lemma RemoveAt(nodes: seq<Node>, k: nat)
    requires k < |nodes|
    ensures FilesOf(nodes) == FilesOf(nodes[..k] + nodes[k + 1..]) + Files(nodes[k])
    ensures DirsOf(nodes) == DirsOf(nodes[..k] + nodes[k + 1..]) + Dirs(nodes[k])
  {
    hide FilesOf, DirsOf, Files, Dirs;
    var front, back := nodes[..k], nodes[k + 1..];
    assert nodes == front + [nodes[k]] + back;
    ContentsAppend(front + [nodes[k]], back);
    ContentsAppend(front, [nodes[k]]);
    ContentsAppend(front, back);
    ContentsOfOne(nodes[k]);
  }

  lemma {:induction false} PermutationKeepsContents(a: seq<Node>, b: seq<Node>)
    requires multiset(a) == multiset(b)
    ensures FilesOf(a) == FilesOf(b) && DirsOf(a) == DirsOf(b)
    decreases |a|
  {
    assert |multiset(a)| == |a| && |multiset(b)| == |b|;
    if a != [] {
      var n := |a| - 1;
      assert a[n] in multiset(b);
      var k :| 0 <= k < |b| && b[k] == a[n];
      var rest := b[..k] + b[k + 1..];
      assert b == b[..k] + [b[k]] + b[k + 1..];
      assert a == a[..n] + [a[n]];
      assert multiset(b) - multiset{b[k]} == multiset(rest);
      assert multiset(a) - multiset{a[n]} == multiset(a[..n]);
      RemoveAt(b, k);
      PermutationKeepsContents(a[..n], rest);
    }
  }

  lemma {:induction false} ReorderedKeepsContents(a: seq<Node>, b: seq<Node>)
    requires Reordered(a, b)
    ensures FilesOf(a) == FilesOf(b) && DirsOf(a) == DirsOf(b)
    decreases a, 1
  {
    var mid: seq<Node> :| |mid| == |a| && multiset(mid) == multiset(b)
      && forall i | 0 <= i < |a| :: SameEntry(a[i], mid[i]);
    PointwiseKeepsContents(a, mid);
    PermutationKeepsContents(mid, b);
  }

  lemma {:induction false} PointwiseKeepsContents(a: seq<Node>, mid: seq<Node>)
    requires |mid| == |a| && forall i | 0 <= i < |a| :: SameEntry(a[i], mid[i])
    ensures FilesOf(a) == FilesOf(mid) && DirsOf(a) == DirsOf(mid)
    decreases a, 0
  {
    if a != [] {
      var n := |a| - 1;
      PointwiseKeepsContents(a[..n], mid[..n]);
      if a[n].Dir? {
        ReorderedKeepsContents(a[n].children, mid[n].children);
      }
    }
  }

  /** The fingerprint does not depend on directory enumeration order. */
  lemma OrderIndependent(a: Totals, b: Totals, listed: seq<Node>, relisted: seq<Node>)
    requires Reports(a, DirsOf(listed), FilesOf(listed))
    requires Reports(b, DirsOf(relisted), FilesOf(relisted))
    requires Reordered(listed, relisted)
    ensures a == b
  {
    ReorderedKeepsContents(listed, relisted);
    ReportsUnique(a, b, DirsOf(listed), FilesOf(listed));
  }

  /** When one file changes, the combined word changes exactly when that file's
      own hash does: the other terms never cancel or hide it. */
  lemma OneFileChanged(before: Totals, after: Totals, dirs: multiset<U128>, dirs': multiset<U128>,
                       others: multiset<FileMeta>, f: FileMeta, g: FileMeta)
    requires Reports(before, dirs, others + multiset{f})
    requires Reports(after, dirs', others + multiset{g})
    ensures before.combined == after.combined <==> IdentityHash(f) == IdentityHash(g)
  {
    HashSumAdd(others, f);
    HashSumAdd(others, g);
    if before.combined == after.combined {
      WrappingAddInjective(HashSum(others), IdentityHash(f), IdentityHash(g));
    }
  }

  /** A single changed byte anywhere in one file's path, size or mtime is always
      seen, whatever the rest of the store holds. */
  lemma ByteChangeDetected(before: Totals, after: Totals, dirs: multiset<U128>, dirs': multiset<U128>,
                           others: multiset<FileMeta>, f: FileMeta, g: FileMeta, i: nat)
    requires Reports(before, dirs, others + multiset{f})
    requires Reports(after, dirs', others + multiset{g})
    requires OneByteApart(Encode(f), Encode(g), i)
    ensures before.combined != after.combined
  {
    HashSensitive(f, g, i);
    OneFileChanged(before, after, dirs, dirs', others, f, g);
  }
}
