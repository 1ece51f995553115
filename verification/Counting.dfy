/** Counting, filtering and summing over sequences: the vocabulary in which the
    specifications of the analyzers' loops are written. */
module Counting {

  /** How many elements of s satisfy p. */
  function CountIf<T>(s: seq<T>, p: T -> bool): nat {
    if s == [] then 0
    else CountIf(s[..|s| - 1], p) + (if p(s[|s| - 1]) then 1 else 0)
  }

  /** The elements of s that satisfy p, in order. */
  function Filter<T>(s: seq<T>, p: T -> bool): (r: seq<T>)
    ensures |r| == CountIf(s, p)
    ensures forall x :: x in r ==> x in s && p(x)
    ensures forall x :: x in s && p(x) ==> x in r
  {
    if s == [] then []
    else
      var rest := Filter(s[..|s| - 1], p);
      assert s == s[..|s| - 1] + [s[|s| - 1]];
      if p(s[|s| - 1]) then rest + [s[|s| - 1]] else rest
  }

  lemma CountStep<T>(s: seq<T>, p: T -> bool, i: nat)
    requires i < |s|
    ensures CountIf(s[..i + 1], p) == CountIf(s[..i], p) + (if p(s[i]) then 1 else 0)
  {
    assert s[..i + 1][..i] == s[..i];
  }

  lemma FilterStep<T>(s: seq<T>, p: T -> bool, i: nat)
    requires i < |s|
    ensures Filter(s[..i + 1], p) == Filter(s[..i], p) + (if p(s[i]) then [s[i]] else [])
  {
    assert s[..i + 1][..i] == s[..i];
  }

  lemma {:induction false} CountConcat<T>(a: seq<T>, b: seq<T>, p: T -> bool)
    ensures CountIf(a + b, p) == CountIf(a, p) + CountIf(b, p)
  {
    if b == [] {
      assert a + b == a;
    } else {
      CountConcat(a, b[..|b| - 1], p);
      assert (a + b)[..|a + b| - 1] == a + b[..|b| - 1];
    }
  }

  lemma {:induction false} FilterConcat<T>(a: seq<T>, b: seq<T>, p: T -> bool)
    ensures Filter(a + b, p) == Filter(a, p) + Filter(b, p)
  {
    if b == [] {
      assert a + b == a;
    } else {
      var front, x := b[..|b| - 1], b[|b| - 1];
      FilterConcat(a, front, p);
      FilterAppend(a + front, x, p);
      FilterAppend(front, x, p);
      ConcatAssociates(a, front, [x]);
      ConcatAssociates(Filter(a, p), Filter(front, p), if p(x) then [x] else []);
      assert b == front + [x];
    }
  }

  lemma ConcatAssociates<T>(a: seq<T>, b: seq<T>, c: seq<T>)
    ensures (a + b) + c == a + (b + c)
  {
  }

  lemma FilterAppend<T>(s: seq<T>, x: T, p: T -> bool)
    ensures Filter(s + [x], p) == Filter(s, p) + (if p(x) then [x] else [])
  {
    assert (s + [x])[..|s|] == s;
  }

  lemma {:induction false} CountMonotone<T>(s: seq<T>, p: T -> bool, q: T -> bool)
    requires forall x :: x in s && p(x) ==> q(x)
    ensures CountIf(s, p) <= CountIf(s, q)
  {
    if s != [] {
      assert s[|s| - 1] in s;
      assert forall x :: x in s[..|s| - 1] ==> x in s;
      CountMonotone(s[..|s| - 1], p, q);
    }
  }

  lemma CountSame<T>(s: seq<T>, p: T -> bool, q: T -> bool)
    requires forall x :: x in s ==> p(x) == q(x)
    ensures CountIf(s, p) == CountIf(s, q)
  {
    CountMonotone(s, p, q);
    CountMonotone(s, q, p);
  }

  lemma {:induction false} CountZero<T>(s: seq<T>, p: T -> bool)
    ensures CountIf(s, p) == 0 <==> forall x :: x in s ==> !p(x)
  {
    if s != [] {
      CountZero(s[..|s| - 1], p);
      assert s == s[..|s| - 1] + [s[|s| - 1]];
    }
  }

  /** A predicate and its complement split the sequence. */
  lemma {:induction false} CountSplit<T>(s: seq<T>, p: T -> bool, q: T -> bool)
    requires forall x :: x in s ==> p(x) == !q(x)
    ensures CountIf(s, p) + CountIf(s, q) == |s|
  {
    if s != [] {
      assert s[|s| - 1] in s;
      assert forall x :: x in s[..|s| - 1] ==> x in s;
      CountSplit(s[..|s| - 1], p, q);
    }
  }

  /** Two predicates no element satisfies together count at most |s| between them. */
  lemma {:induction false} CountDisjoint<T>(s: seq<T>, p: T -> bool, q: T -> bool)
    requires forall x :: x in s ==> !(p(x) && q(x))
    ensures CountIf(s, p) + CountIf(s, q) <= |s|
  {
    if s != [] {
      assert s[|s| - 1] in s;
      assert forall x :: x in s[..|s| - 1] ==> x in s;
      CountDisjoint(s[..|s| - 1], p, q);
    }
  }

  /** Takes one occurrence of x out of s. */
  lemma Extract<T>(s: seq<T>, x: T, p: T -> bool) returns (rest: seq<T>)
    requires x in multiset(s)
    ensures multiset(rest) == multiset(s) - multiset{x} && |rest| == |s| - 1
    ensures CountIf(s, p) == CountIf(rest, p) + (if p(x) then 1 else 0)
  {
    var i :| 0 <= i < |s| && s[i] == x;
    rest := s[..i] + s[i + 1..];
    assert s == s[..i] + [x] + s[i + 1..];
    CountConcat(s[..i] + [x], s[i + 1..], p);
    CountConcat(s[..i], s[i + 1..], p);
    assert (s[..i] + [x])[..i] == s[..i];
  }

  /** A list whose elements all occur in another, as often, counts no more. */
  lemma {:induction false} CountSubmultiset<T>(a: seq<T>, b: seq<T>, p: T -> bool)
    requires multiset(a) <= multiset(b)
    ensures CountIf(a, p) <= CountIf(b, p)
  {
    if a != [] {
      var n := |a| - 1;
      var x := a[n];
      assert a == a[..n] + [x];
      assert x in multiset(a);
      var rest := Extract(b, x, p);
      assert multiset(a[..n]) == multiset(a) - multiset{x};
      CountSubmultiset(a[..n], rest, p);
    }
  }

  lemma CountPermutation<T>(a: seq<T>, b: seq<T>, p: T -> bool)
    requires multiset(a) == multiset(b)
    ensures CountIf(a, p) == CountIf(b, p)
  {
    CountSubmultiset(a, b, p);
    CountSubmultiset(b, a, p);
  }

  lemma {:induction false} FilterKeepsAll<T>(s: seq<T>, p: T -> bool)
    requires forall x :: x in s ==> p(x)
    ensures Filter(s, p) == s
  {
    if s != [] {
      var n := |s| - 1;
      assert s[n] in s;
      assert forall x :: x in s[..n] ==> x in s;
      FilterKeepsAll(s[..n], p);
      assert s == s[..n] + [s[n]];
    }
  }

  function Clamp(n: int): nat {
    if n < 0 then 0 else n
  }

  lemma SubsetSize<T>(a: set<T>, b: set<T>)
    requires a <= b
    ensures |a| <= |b|
  {
    if a != {} {
      var x :| x in a;
      SubsetSize(a - {x}, b - {x});
    }
  }

  /** The count is the number of positions whose element satisfies p. */
  lemma {:induction false} CountIsSize<T>(s: seq<T>, p: T -> bool, at: set<int>)
    requires forall i :: i in at <==> 0 <= i < |s| && p(s[i])
    ensures CountIf(s, p) == |at|
  {
    if s == [] {
      assert forall i :: i !in at;
    } else {
      var n := |s| - 1;
      assert forall i :: 0 <= i < n ==> s[..n][i] == s[i];
      CountIsSize(s[..n], p, at - {n});
    }
  }

  /** [x] if on, and nothing otherwise. */
  function When<T>(on: bool, x: T): seq<T> {
    if on then [x] else []
  }

  /** What n elements out of t leave of a budget: min(max(0, n), t). */
  function Capped(n: int, t: nat): nat {
    if n < 0 then 0 else if n < t then n else t
  }

  /** If exactly the elements below index n satisfy p, the count is n, capped. */
  lemma {:induction false} CountPrefix<T>(s: seq<T>, p: T -> bool, n: int)
    requires forall i :: 0 <= i < |s| ==> (p(s[i]) <==> i < n)
    ensures CountIf(s, p) == Capped(n, |s|)
  {
    if s != [] {
      CountPrefix(s[..|s| - 1], p, n);
    }
  }
}
