/** Stable sorting, sort-then-dedup, filtering, and the orders they use. */
module Sorting {
  ghost predicate TotalPreorder<T(!new)>(le: (T, T) -> bool) {
    && (forall x, y :: le(x, y) || le(y, x))
    && (forall x, y, z :: le(x, y) && le(y, z) ==> le(x, z))
  }

  ghost predicate TotalOrder<T(!new)>(le: (T, T) -> bool) {
    TotalPreorder(le) && forall x, y :: le(x, y) && le(y, x) ==> x == y
  }

  ghost predicate Sorted<T>(le: (T, T) -> bool, s: seq<T>) {
    forall i, j | 0 <= i < j < |s| :: le(s[i], s[j])
  }

  /** Places `x` after every element that is not greater, which is what makes
      the sort stable. */
  function Insert<T>(le: (T, T) -> bool, s: seq<T>, x: T): (r: seq<T>)
    ensures multiset(r) == multiset(s) + multiset{x}
  {
    if s == [] then [x]
    else
      var n := |s| - 1;
      assert s == s[..n] + [s[n]];
      if le(s[n], x) then s + [x] else Insert(le, s[..n], x) + [s[n]]
  }

  function StableSort<T>(le: (T, T) -> bool, s: seq<T>): (r: seq<T>)
    ensures multiset(r) == multiset(s)
  {
    if s == [] then []
    else
      var n := |s| - 1;
      assert s == s[..n] + [s[n]];
      Insert(le, StableSort(le, s[..n]), s[n])
  }

  lemma {:induction false} InsertSorted<T(!new)>(le: (T, T) -> bool, s: seq<T>, x: T)
    requires TotalPreorder(le) && Sorted(le, s)
    ensures Sorted(le, Insert(le, s, x))
    decreases |s|
  {
    if s != [] && !le(s[|s| - 1], x) {
      var n := |s| - 1;
      InsertSorted(le, s[..n], x);
      var r := Insert(le, s[..n], x);
      forall i | 0 <= i < |r| ensures le(r[i], s[n]) {
        assert r[i] in multiset(r);
        assert r[i] == x || r[i] in multiset(s[..n]);
      }
    }
  }

  lemma {:induction false} StableSortSorted<T(!new)>(le: (T, T) -> bool, s: seq<T>)
    requires TotalPreorder(le)
    ensures Sorted(le, StableSort(le, s))
    decreases |s|
  {
    if s != [] {
      StableSortSorted(le, s[..|s| - 1]);
      InsertSorted(le, StableSort(le, s[..|s| - 1]), s[|s| - 1]);
    }
  }

  lemma InsertLast<T>(le: (T, T) -> bool, s: seq<T>, x: T)
    requires s == [] || le(s[|s| - 1], x)
    ensures Insert(le, s, x) == s + [x]
  {
  }

  lemma {:induction false} SortOfSorted<T>(le: (T, T) -> bool, s: seq<T>)
    requires Sorted(le, s)
    ensures StableSort(le, s) == s
    decreases |s|
  {
    hide Insert;
    if s != [] {
      var n := |s| - 1;
      SortOfSorted(le, s[..n]);
      InsertLast(le, s[..n], s[n]);
      assert s == s[..n] + [s[n]];
    }
  }

  // --------------------------------------------------------------- filtering

  function Filter<T>(keep: T -> bool, s: seq<T>): (r: seq<T>)
    ensures forall x | x in r :: x in s && keep(x)
    ensures forall x | x in s && keep(x) :: x in r
    ensures |r| <= |s|
  {
    if s == [] then []
    else if keep(s[|s| - 1]) then Filter(keep, s[..|s| - 1]) + [s[|s| - 1]]
    else Filter(keep, s[..|s| - 1])
  }

  lemma {:induction false} FilterAppend<T>(keep: T -> bool, a: seq<T>, b: seq<T>)
    ensures Filter(keep, a + b) == Filter(keep, a) + Filter(keep, b)
    decreases |b|
  {
    if b == [] {
      assert a + b == a;
    } else {
      assert (a + b)[..|a + b| - 1] == a + b[..|b| - 1];
      FilterAppend(keep, a, b[..|b| - 1]);
    }
  }

  /** Filtering keeps every copy of what it keeps. */
  lemma {:induction false} FilterCount<T>(keep: T -> bool, s: seq<T>, x: T)
    ensures multiset(Filter(keep, s))[x] == if keep(x) then multiset(s)[x] else 0
    decreases |s|
  {
    if s != [] {
      FilterCount(keep, s[..|s| - 1], x);
      assert s == s[..|s| - 1] + [s[|s| - 1]];
    }
  }

  lemma {:induction false} FilterTwice<T>(narrow: T -> bool, wide: T -> bool, s: seq<T>)
    requires forall x | x in s && narrow(x) :: wide(x)
    ensures Filter(narrow, Filter(wide, s)) == Filter(narrow, s)
    decreases |s|
  {
    if s != [] {
      var n := |s| - 1;
      FilterTwice(narrow, wide, s[..n]);
      var kept := Filter(wide, s[..n]);
      assert (kept + [s[n]])[..|kept|] == kept;
    }
  }

  lemma {:induction false} FilterEverything<T>(keep: T -> bool, s: seq<T>)
    requires forall x | x in s :: keep(x)
    ensures Filter(keep, s) == s
    decreases |s|
  {
    if s != [] {
      FilterEverything(keep, s[..|s| - 1]);
      assert s == s[..|s| - 1] + [s[|s| - 1]];
    }
  }

  lemma {:induction false} FilterInsert<T(!new)>(le: (T, T) -> bool, keep: T -> bool, s: seq<T>, x: T)
    requires TotalPreorder(le) && Sorted(le, s)
    ensures Filter(keep, Insert(le, s, x)) ==
            if keep(x) then Insert(le, Filter(keep, s), x) else Filter(keep, s)
    decreases |s|
  {
    if s == [] {
      assert Filter(keep, [x][..0]) == [];
    } else {
      var n := |s| - 1;
      var kept := Filter(keep, s);
      if le(s[n], x) {
        assert (s + [x])[..|s|] == s;
        if kept != [] {
          assert kept[|kept| - 1] in s;
          assert le(kept[|kept| - 1], x);
        }
      } else {
        FilterInsert(le, keep, s[..n], x);
        var r := Insert(le, s[..n], x);
        assert (r + [s[n]])[..|r|] == r;
        var front := Filter(keep, s[..n]);
        if keep(s[n]) {
          assert (front + [s[n]])[..|front|] == front;
        }
      }
    }
  }

  /** A stable sort of the survivors is the surviving part of the stable sort. */
  lemma {:induction false} FilterSort<T(!new)>(le: (T, T) -> bool, keep: T -> bool, s: seq<T>)
    requires TotalPreorder(le)
    ensures Filter(keep, StableSort(le, s)) == StableSort(le, Filter(keep, s))
    decreases |s|
  {
    if s != [] {
      var n := |s| - 1;
      FilterSort(le, keep, s[..n]);
      StableSortSorted(le, s[..n]);
      FilterInsert(le, keep, StableSort(le, s[..n]), s[n]);
      var front := Filter(keep, s[..n]);
      assert (front + [s[n]])[..|front|] == front;
    }
  }

  // ------------------------------------------------------------ sort + dedup

  /** Drops every element equal to the one before it. */
  function Dedup<T(==,!new)>(s: seq<T>): (r: seq<T>)
    ensures forall x :: x in r <==> x in s
    ensures s != [] ==> r != [] && r[|r| - 1] == s[|s| - 1]
  {
    if |s| <= 1 then s
    else
      var n := |s| - 1;
      if s[n] == s[n - 1] then Dedup(s[..n]) else Dedup(s[..n]) + [s[n]]
  }

  function SortDedup<T(==,!new)>(le: (T, T) -> bool, s: seq<T>): seq<T> {
    Dedup(StableSort(le, s))
  }

  ghost predicate StrictlySorted<T>(le: (T, T) -> bool, s: seq<T>) {
    forall i, j | 0 <= i < j < |s| :: le(s[i], s[j]) && s[i] != s[j]
  }

  lemma {:induction false} DedupStrict<T(!new)>(le: (T, T) -> bool, s: seq<T>)
    requires TotalOrder(le) && Sorted(le, s)
    ensures StrictlySorted(le, Dedup(s))
    decreases |s|
  {
    if |s| > 1 {
      var n := |s| - 1;
      DedupStrict(le, s[..n]);
      var r := Dedup(s[..n]);
      forall i | 0 <= i < |r| ensures le(r[i], s[n]) && (s[n] != s[n - 1] ==> r[i] != s[n]) {
        assert r[i] in s[..n];
        var k :| 0 <= k < n && s[k] == r[i];
        assert k < n - 1 ==> le(s[k], s[n - 1]);
        assert le(s[n - 1], s[n]);
      }
    }
  }

  /** Sorting and deduplicating yields a strictly increasing sequence of the
      same elements. */
  lemma SortDedupCanonical<T(!new)>(le: (T, T) -> bool, s: seq<T>)
    requires TotalOrder(le)
    ensures StrictlySorted(le, SortDedup(le, s))
    ensures forall x :: x in SortDedup(le, s) <==> x in s
  {
    StableSortSorted(le, s);
    DedupStrict(le, StableSort(le, s));
    var r := StableSort(le, s);
    forall x ensures x in r <==> x in s {
      assert x in r <==> x in multiset(r);
      assert x in s <==> x in multiset(s);
    }
  }

  // ------------------------------------------------------------------ orders

  /** Byte order of UTF-8 strings, which is code-point order. */
  predicate StringLe(a: string, b: string) {
    a == [] || (b != [] && (a[0] < b[0] || (a[0] == b[0] && StringLe(a[1..], b[1..]))))
  }

  lemma {:induction false} StringLeTotal(a: string, b: string)
    ensures StringLe(a, b) || StringLe(b, a)
    ensures StringLe(a, b) && StringLe(b, a) ==> a == b
  {
    if a != [] && b != [] && a[0] == b[0] {
      StringLeTotal(a[1..], b[1..]);
      assert a == [a[0]] + a[1..] && b == [b[0]] + b[1..];
    }
  }

  lemma {:induction false} StringLeTransitive(a: string, b: string, c: string)
    requires StringLe(a, b) && StringLe(b, c)
    ensures StringLe(a, c)
  {
    if a != [] && a[0] == b[0] && b[0] == c[0] {
      StringLeTransitive(a[1..], b[1..], c[1..]);
    }
  }

  const StringOrder: (string, string) -> bool := (a, b) => StringLe(a, b)

  lemma StringOrderTotal()
    ensures TotalOrder(StringOrder)
  {
    forall a, b ensures StringOrder(a, b) || StringOrder(b, a) { StringLeTotal(a, b); }
    forall a, b | StringOrder(a, b) && StringOrder(b, a) ensures a == b { StringLeTotal(a, b); }
    forall a, b, c | StringOrder(a, b) && StringOrder(b, c) ensures StringOrder(a, c) {
      StringLeTransitive(a, b, c);
    }
  }
}
