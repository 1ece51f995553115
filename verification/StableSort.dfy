/** The library sorts over records: sort.Slice and sort.SliceStable. */
module StableSort {
  import opened Counting

  ghost predicate SortedBy<T>(s: seq<T>, le: (T, T) -> bool) {
    forall i, j :: 0 <= i < j < |s| ==> le(s[i], s[j])
  }

  /** A total preorder on the elements of s. */
  ghost predicate Preorder<T>(s: seq<T>, le: (T, T) -> bool) {
    && (forall a, b :: a in s && b in s ==> le(a, b) || le(b, a))
    && (forall a, b, c :: a in s && b in s && c in s && le(a, b) && le(b, c) ==> le(a, c))
  }

  /** Puts x behind everything that may precede it. */
  function InsertBy<T>(s: seq<T>, x: T, le: (T, T) -> bool): seq<T> {
    if s == [] then [x]
    else if le(s[|s| - 1], x) then s + [x]
    else InsertBy(s[..|s| - 1], x, le) + [s[|s| - 1]]
  }

  function SortBy<T>(s: seq<T>, le: (T, T) -> bool): seq<T> {
    if s == [] then [] else InsertBy(SortBy(s[..|s| - 1], le), s[|s| - 1], le)
  }

  lemma {:induction false} InsertByKeeps<T>(s: seq<T>, x: T, le: (T, T) -> bool)
    ensures multiset(InsertBy(s, x, le)) == multiset(s) + multiset{x}
    ensures |InsertBy(s, x, le)| == |s| + 1
  {
    if s != [] && !le(s[|s| - 1], x) {
      InsertByKeeps(s[..|s| - 1], x, le);
      assert s == s[..|s| - 1] + [s[|s| - 1]];
    }
  }

  lemma {:induction false} SortByKeeps<T>(s: seq<T>, le: (T, T) -> bool)
    ensures multiset(SortBy(s, le)) == multiset(s)
    ensures |SortBy(s, le)| == |s|
  {
    if s != [] {
      SortByKeeps(s[..|s| - 1], le);
      InsertByKeeps(SortBy(s[..|s| - 1], le), s[|s| - 1], le);
      assert s == s[..|s| - 1] + [s[|s| - 1]];
    }
  }

  lemma SortByMembers<T>(s: seq<T>, le: (T, T) -> bool)
    requires s != []
    ensures forall y :: y in SortBy(s[..|s| - 1], le) + [s[|s| - 1]] ==> y in s
  {
    var n := |s| - 1;
    var r := SortBy(s[..n], le);
    SortByKeeps(s[..n], le);
    forall y | y in r + [s[n]] ensures y in s {
      if y in r {
        assert y in multiset(r) && y in multiset(s[..n]);
      }
    }
  }

  lemma {:induction false} InsertBySorted<T>(s: seq<T>, x: T, le: (T, T) -> bool)
    requires Preorder(s + [x], le) && SortedBy(s, le)
    ensures SortedBy(InsertBy(s, x, le), le)
  {
    if s != [] {
      var n := |s| - 1;
      assert forall y :: y in s[..n] + [x] ==> y in s + [x];
      assert s[n] in s + [x] && x in s + [x];
      if le(s[n], x) {
        forall i | 0 <= i < |s| ensures le(s[i], x) {
          assert s[i] in s + [x];
        }
      } else {
        InsertBySorted(s[..n], x, le);
        InsertByKeeps(s[..n], x, le);
        var r := InsertBy(s[..n], x, le);
        forall i | 0 <= i < |r| ensures le(r[i], s[n]) {
          assert r[i] in multiset(r);
          if r[i] != x {
            assert r[i] in multiset(s[..n]);
            assert r[i] in s[..n];
          }
        }
      }
    }
  }

  lemma {:induction false} SortBySorted<T>(s: seq<T>, le: (T, T) -> bool)
    requires Preorder(s, le)
    ensures SortedBy(SortBy(s, le), le)
  {
    if s != [] {
      var n := |s| - 1;
      assert forall y :: y in s[..n] ==> y in s;
      SortBySorted(s[..n], le);
      SortByMembers(s, le);
      InsertBySorted(SortBy(s[..n], le), s[n], le);
    }
  }

  /** The elements of p are mutually equivalent under le. */
  ghost predicate OneClass<T>(s: seq<T>, p: T -> bool, le: (T, T) -> bool) {
    forall a, b :: a in s && b in s && p(a) && p(b) ==> le(a, b)
  }

  lemma {:induction false} InsertByStable<T>(s: seq<T>, x: T, p: T -> bool, le: (T, T) -> bool)
    requires OneClass(s + [x], p, le)
    ensures Filter(InsertBy(s, x, le), p) == Filter(s, p) + (if p(x) then [x] else [])
  {
    if s == [] {
      assert [x][..0] == [];
    } else {
      var n := |s| - 1;
      var r := InsertBy(s, x, le);
      assert forall y :: y in s[..n] + [x] ==> y in s + [x];
      assert s[n] in s + [x] && x in s + [x];
      if le(s[n], x) {
        assert r[..|r| - 1] == s;
      } else {
        InsertByStable(s[..n], x, p, le);
        assert r[..|r| - 1] == InsertBy(s[..n], x, le);
      }
    }
  }

  /** Stability: elements no comparison separates keep their order. */
  lemma {:induction false} SortByStable<T>(s: seq<T>, p: T -> bool, le: (T, T) -> bool)
    requires OneClass(s, p, le)
    ensures Filter(SortBy(s, le), p) == Filter(s, p)
  {
    if s != [] {
      var n := |s| - 1;
      assert forall y :: y in s[..n] ==> y in s;
      SortByStable(s[..n], p, le);
      SortByMembers(s, le);
      InsertByStable(SortBy(s[..n], le), s[n], p, le);
    }
  }
}
