/**
 Sequence operations shared by the table transforms: row selection (a
 boolean-mask filter), sums, distinct keys in first-appearance order, and
 sorting under a caller-supplied total preorder with a top-N cut.
 */
module Seqs {

  /** `a` can be obtained from `b` by deleting elements. */
  ghost predicate SubseqOf<T>(a: seq<T>, b: seq<T>)
    decreases |b|
  {
    if |a| == 0 then true
    else if |b| == 0 then false
    else (a[0] == b[0] && SubseqOf(a[1..], b[1..])) || SubseqOf(a, b[1..])
  }

  lemma {:induction false} SubseqOfSelf<T>(a: seq<T>)
    ensures SubseqOf(a, a)
    decreases |a|
  {
    if |a| > 0 {
      SubseqOfSelf(a[1..]);
    }
  }

  /** Keeps, in order, the elements satisfying `p` (a boolean-mask filter). */
  function Select<T(!new)>(xs: seq<T>, p: T -> bool): (r: seq<T>)
    ensures |r| <= |xs|
    ensures forall x :: x in r <==> x in xs && p(x)
    ensures SubseqOf(r, xs)
    ensures multiset(r) <= multiset(xs)
  {
    if |xs| == 0 then []
    else
      var rest := Select(xs[1..], p);
      assert xs == [xs[0]] + xs[1..];
      if p(xs[0]) then
        assert ([xs[0]] + rest)[1..] == rest;
        [xs[0]] + rest
      else rest
  }

  /** Selection keeps every accepted element as often as it occurs, and no other element. */
  lemma {:induction false} SelectCount<T(!new)>(xs: seq<T>, p: T -> bool)
    ensures forall x :: multiset(Select(xs, p))[x] == if p(x) then multiset(xs)[x] else 0
  {
    if |xs| > 0 {
      SelectCount(xs[1..], p);
      assert xs == [xs[0]] + xs[1..];
      assert multiset(xs) == multiset{xs[0]} + multiset(xs[1..]);
      var rest := Select(xs[1..], p);
      if p(xs[0]) {
        assert Select(xs, p) == [xs[0]] + rest;
        assert multiset([xs[0]] + rest) == multiset{xs[0]} + multiset(rest);
      }
    }
  }

  /** Selecting twice is selecting once with the conjunction. */
  lemma {:induction false} SelectSelect<T(!new)>(xs: seq<T>, p: T -> bool, q: T -> bool, pq: T -> bool)
    requires forall x :: pq(x) == (p(x) && q(x))
    ensures Select(Select(xs, p), q) == Select(xs, pq)
  {
    if |xs| > 0 {
      SelectSelect(xs[1..], p, q, pq);
    }
  }

  /** Selections by pointwise-equal masks coincide. */
  lemma {:induction false} SelectSame<T(!new)>(xs: seq<T>, p: T -> bool, q: T -> bool)
    requires forall x :: p(x) == q(x)
    ensures Select(xs, p) == Select(xs, q)
  {
    if |xs| > 0 {
      SelectSame(xs[1..], p, q);
    }
  }

  /** Selecting by a mask every element satisfies keeps everything. */
  lemma {:induction false} SelectAll<T(!new)>(xs: seq<T>, p: T -> bool)
    requires forall x :: x in xs ==> p(x)
    ensures Select(xs, p) == xs
  {
    if |xs| > 0 {
      SelectAll(xs[1..], p);
    }
  }

  /** Selection distributes over concatenation. */
  lemma {:induction false} SelectAppend<T(!new)>(xs: seq<T>, ys: seq<T>, p: T -> bool)
    ensures Select(xs + ys, p) == Select(xs, p) + Select(ys, p)
  {
    if |xs| == 0 {
      assert xs + ys == ys;
    } else {
      assert (xs + ys)[1..] == xs[1..] + ys;
      SelectAppend(xs[1..], ys, p);
    }
  }

  function Sum(xs: seq<int>): int {
    if |xs| == 0 then 0 else xs[0] + Sum(xs[1..])
  }

  lemma {:induction false} SumAppend(xs: seq<int>, ys: seq<int>)
    ensures Sum(xs + ys) == Sum(xs) + Sum(ys)
  {
    if |xs| == 0 {
      assert xs + ys == ys;
    } else {
      assert (xs + ys)[1..] == xs[1..] + ys;
      SumAppend(xs[1..], ys);
    }
  }

  /** Sum of `value` over the elements whose key is `k` (one group's total). */
  function SumWhere<T, K(==)>(xs: seq<T>, key: T -> K, value: T -> int, k: K): int {
    if |xs| == 0 then 0
    else (if key(xs[0]) == k then value(xs[0]) else 0) + SumWhere(xs[1..], key, value, k)
  }

  function SumOf<T>(xs: seq<T>, value: T -> int): int {
    if |xs| == 0 then 0 else value(xs[0]) + SumOf(xs[1..], value)
  }

  ghost predicate NoDuplicates<T>(xs: seq<T>) {
    forall i, j :: 0 <= i < j < |xs| ==> xs[i] != xs[j]
  }

  /** Without duplicates every value occurs at most once. */
  lemma {:induction false} NoDuplicatesCount<T>(xs: seq<T>, x: T)
    requires NoDuplicates(xs)
    ensures multiset(xs)[x] <= 1
  {
    if |xs| > 0 {
      assert xs == [xs[0]] + xs[1..];
      assert NoDuplicates(xs[1..]) by {
        assert forall i :: 0 <= i < |xs[1..]| ==> xs[1..][i] == xs[i + 1];
      }
      NoDuplicatesCount(xs[1..], x);
      if xs[0] == x {
        assert x !in xs[1..];
      }
    }
  }

  /** Two equal entries at different positions make a value occur at least twice. */
  lemma RepeatCount<T>(xs: seq<T>, i: int, j: int)
    requires 0 <= i < j < |xs| && xs[i] == xs[j]
    ensures multiset(xs)[xs[i]] >= 2
  {
    assert xs == xs[..i] + [xs[i]] + xs[i + 1..j] + [xs[j]] + xs[j + 1..];
  }

  /** Taking part of a duplicate-free multiset keeps a sequence duplicate-free. */
  lemma NoDuplicatesSub<T>(a: seq<T>, b: seq<T>)
    requires multiset(a) <= multiset(b)
    requires NoDuplicates(b)
    ensures NoDuplicates(a)
  {
    forall i, j | 0 <= i < j < |a| ensures a[i] != a[j] {
      if a[i] == a[j] {
        RepeatCount(a, i, j);
        NoDuplicatesCount(b, a[i]);
        assert false;
      }
    }
  }

  /** Entries taken from a list whose keys are pairwise distinct have pairwise distinct keys. */
  lemma DistinctKeysSub<T, K>(xs: seq<T>, r: seq<T>, key: T -> K)
    requires forall i, j :: 0 <= i < j < |xs| ==> key(xs[i]) != key(xs[j])
    requires multiset(r) <= multiset(xs)
    ensures forall i, j :: 0 <= i < j < |r| ==> key(r[i]) != key(r[j])
  {
    NoDuplicatesSub(r, xs);
    forall i, j | 0 <= i < j < |r| ensures key(r[i]) != key(r[j]) {
      assert r[i] in multiset(r) && r[j] in multiset(r);
      var a :| 0 <= a < |xs| && xs[a] == r[i];
      var b :| 0 <= b < |xs| && xs[b] == r[j];
      assert a != b;
    }
  }

  /** Every element of a sub-multiset of `xs` is an element of `xs`. */
  lemma Kept<T>(xs: seq<T>, r: seq<T>)
    requires multiset(r) <= multiset(xs)
    ensures forall i :: 0 <= i < |r| ==> r[i] in xs
  {
    forall i | 0 <= i < |r| ensures r[i] in xs {
      assert r[i] in multiset(r);
    }
  }

  /** The distinct keys of `xs`, in order of first appearance (pandas' `unique`). */
  function Distinct<T(!new, ==)>(xs: seq<T>): (r: seq<T>)
    ensures NoDuplicates(r)
    ensures forall x :: x in r <==> x in xs
    ensures |r| <= |xs|
  {
    if |xs| == 0 then []
    else
      var rest := Distinct(xs[..|xs| - 1]);
      assert xs == xs[..|xs| - 1] + [xs[|xs| - 1]];
      if xs[|xs| - 1] in rest then rest else rest + [xs[|xs| - 1]]
  }

  function MapSeq<T, U>(xs: seq<T>, f: T -> U): (r: seq<U>)
    ensures |r| == |xs|
    ensures forall i :: 0 <= i < |xs| ==> r[i] == f(xs[i])
  {
    seq(|xs|, i requires 0 <= i < |xs| => f(xs[i]))
  }

  /**
   Summing the group totals over a duplicate-free list of keys that covers
   every element's key gives the total of all elements: grouping neither
   loses nor double-counts a value.
   */
  lemma {:induction false} GroupTotalsConserve<T, K>(xs: seq<T>, key: T -> K, value: T -> int, ks: seq<K>)
    requires NoDuplicates(ks)
    requires forall x :: x in xs ==> key(x) in ks
    ensures SumOf(MapSeq(ks, k => SumWhere(xs, key, value, k)), x => x) == SumOf(xs, value)
  {
    if |xs| == 0 {
      ZeroGroups(ks, key, value);
    } else {
      var tail := xs[1..];
      GroupTotalsConserve(tail, key, value, ks);
      SplitFirst(xs, key, value, ks);
    }
  }

  lemma {:induction false} ZeroGroups<T, K>(ks: seq<K>, key: T -> K, value: T -> int)
    ensures SumOf(MapSeq(ks, k => SumWhere([], key, value, k)), x => x) == 0
  {
    if |ks| > 0 {
      ZeroGroups(ks[1..], key, value);
      assert MapSeq(ks, k => SumWhere([], key, value, k))[1..]
          == MapSeq(ks[1..], k => SumWhere([], key, value, k));
    }
  }

  /** Removing the first element takes its value out of exactly one group. */
  lemma {:induction false} SplitFirst<T, K>(xs: seq<T>, key: T -> K, value: T -> int, ks: seq<K>)
    requires |xs| > 0
    requires NoDuplicates(ks)
    requires key(xs[0]) in ks
    ensures SumOf(MapSeq(ks, k => SumWhere(xs, key, value, k)), x => x)
         == value(xs[0]) + SumOf(MapSeq(ks, k => SumWhere(xs[1..], key, value, k)), x => x)
  {
    if ks[0] == key(xs[0]) {
      assert key(xs[0]) !in ks[1..];
      SplitAbsent(xs, key, value, ks[1..]);
      assert MapSeq(ks, k => SumWhere(xs, key, value, k))[1..]
          == MapSeq(ks[1..], k => SumWhere(xs, key, value, k));
      assert MapSeq(ks, k => SumWhere(xs[1..], key, value, k))[1..]
          == MapSeq(ks[1..], k => SumWhere(xs[1..], key, value, k));
    } else {
      SplitFirst(xs, key, value, ks[1..]);
      assert MapSeq(ks, k => SumWhere(xs, key, value, k))[1..]
          == MapSeq(ks[1..], k => SumWhere(xs, key, value, k));
      assert MapSeq(ks, k => SumWhere(xs[1..], key, value, k))[1..]
          == MapSeq(ks[1..], k => SumWhere(xs[1..], key, value, k));
    }
  }

  lemma {:induction false} SplitAbsent<T, K>(xs: seq<T>, key: T -> K, value: T -> int, ks: seq<K>)
    requires |xs| > 0
    requires key(xs[0]) !in ks
    ensures SumOf(MapSeq(ks, k => SumWhere(xs, key, value, k)), x => x)
         == SumOf(MapSeq(ks, k => SumWhere(xs[1..], key, value, k)), x => x)
  {
    if |ks| > 0 {
      SplitAbsent(xs, key, value, ks[1..]);
      assert MapSeq(ks, k => SumWhere(xs, key, value, k))[1..]
          == MapSeq(ks[1..], k => SumWhere(xs, key, value, k));
      assert MapSeq(ks, k => SumWhere(xs[1..], key, value, k))[1..]
          == MapSeq(ks[1..], k => SumWhere(xs[1..], key, value, k));
    }
  }

  // ---------------------------------------------------------------------
  // Sorting under a total preorder
  // ---------------------------------------------------------------------

  ghost predicate TotalPreorder<T(!new)>(le: (T, T) -> bool) {
    && (forall a, b :: le(a, b) || le(b, a))
    && (forall a, b, c :: le(a, b) && le(b, c) ==> le(a, c))
  }

  ghost predicate Sorted<T>(xs: seq<T>, le: (T, T) -> bool) {
    forall i, j :: 0 <= i < j < |xs| ==> le(xs[i], xs[j])
  }

  function Insert<T(!new)>(x: T, xs: seq<T>, le: (T, T) -> bool): (r: seq<T>)
    requires TotalPreorder(le)
    requires Sorted(xs, le)
    ensures Sorted(r, le)
    ensures multiset(r) == multiset(xs) + multiset{x}
    ensures |r| == |xs| + 1
  {
    if |xs| == 0 then [x]
    else if le(x, xs[0]) then
      assert forall j :: 0 <= j < |xs| ==> le(x, xs[j]);
      [x] + xs
    else
      var rest := Insert(x, xs[1..], le);
      HeadBelowInsert(x, xs, rest, le);
      assert xs == [xs[0]] + xs[1..];
      [xs[0]] + rest
  }

  /** The head of a sorted sequence stays below everything inserted after it. */
  lemma HeadBelowInsert<T(!new)>(x: T, xs: seq<T>, rest: seq<T>, le: (T, T) -> bool)
    requires TotalPreorder(le)
    requires Sorted(xs, le) && |xs| > 0 && !le(x, xs[0])
    requires multiset(rest) == multiset(xs[1..]) + multiset{x}
    ensures forall j :: 0 <= j < |rest| ==> le(xs[0], rest[j])
  {
    forall j | 0 <= j < |rest| ensures le(xs[0], rest[j]) {
      assert rest[j] in multiset(rest);
      if rest[j] != x {
        assert rest[j] in multiset(xs[1..]);
        var k :| 0 <= k < |xs[1..]| && xs[1..][k] == rest[j];
        assert xs[k + 1] == rest[j];
      }
    }
  }

  /** A stable sort: the result is a permutation of `xs` ordered by `le`. */
  function Sort<T(!new)>(xs: seq<T>, le: (T, T) -> bool): (r: seq<T>)
    requires TotalPreorder(le)
    ensures Sorted(r, le)
    ensures multiset(r) == multiset(xs)
    ensures |r| == |xs|
  {
    if |xs| == 0 then []
    else
      assert xs == [xs[0]] + xs[1..];
      Insert(xs[0], Sort(xs[1..], le), le)
  }

  /**
   Inserting `x` puts it in front of every element it ties with, so the
   elements of a class that `le` orders both ways keep their order.
   */
  lemma {:induction false} InsertStable<T(!new)>(x: T, xs: seq<T>, le: (T, T) -> bool, p: T -> bool)
    requires TotalPreorder(le) && Sorted(xs, le)
    requires forall a, b :: p(a) && p(b) ==> le(a, b)
    ensures Select(Insert(x, xs, le), p) == (if p(x) then [x] else []) + Select(xs, p)
  {
    if |xs| > 0 && !le(x, xs[0]) {
      InsertPast(x, xs, le);
      InsertStable(x, xs[1..], le, p);
      NotBoth(x, xs[0], le, p);
      StepPast(x, xs[0], xs[1..], Insert(x, xs[1..], le), p);
    } else {
      InsertFront(x, xs, le);
      PassOver(x, xs, xs, p);
    }
  }

  /** Inserting an element no greater than the head puts it in front. */
  lemma InsertFront<T(!new)>(x: T, xs: seq<T>, le: (T, T) -> bool)
    requires TotalPreorder(le) && Sorted(xs, le)
    requires |xs| == 0 || le(x, xs[0])
    ensures Insert(x, xs, le) == [x] + xs
  { }

  /** Inserting an element greater than the head keeps the head in front. */
  lemma InsertPast<T(!new)>(x: T, xs: seq<T>, le: (T, T) -> bool)
    requires TotalPreorder(le) && Sorted(xs, le)
    requires |xs| > 0 && !le(x, xs[0])
    ensures xs == [xs[0]] + xs[1..]
    ensures Sorted(xs[1..], le)
    ensures Insert(x, xs, le) == [xs[0]] + Insert(x, xs[1..], le)
  { }

  /** Two elements that both satisfy `p` are ordered both ways, so one out of order with `x` is not in `x`'s class. */
  lemma NotBoth<T>(x: T, y: T, le: (T, T) -> bool, p: T -> bool)
    requires forall a, b :: p(a) && p(b) ==> le(a, b)
    requires !le(x, y)
    ensures !(p(x) && p(y))
  { }

  /** Selecting from `[x] + rest`, where `rest` selects like `ys`. */
  lemma PassOver<T(!new)>(x: T, ys: seq<T>, rest: seq<T>, p: T -> bool)
    requires Select(rest, p) == Select(ys, p)
    ensures Select([x] + rest, p) == (if p(x) then [x] else []) + Select(ys, p)
  {
    var xs := [x] + rest;
    assert xs[0] == x && xs[1..] == rest;
    if p(x) {
      assert Select(xs, p) == [x] + Select(rest, p);
    } else {
      assert Select(xs, p) == Select(rest, p);
    }
  }

  /** Moving `x` past an element `y` it does not tie with leaves the selection unchanged. */
  lemma StepPast<T(!new)>(x: T, y: T, ys: seq<T>, rest: seq<T>, p: T -> bool)
    requires !(p(x) && p(y))
    requires Select(rest, p) == (if p(x) then [x] else []) + Select(ys, p)
    ensures Select([y] + rest, p) == (if p(x) then [x] else []) + Select([y] + ys, p)
  {
    PassOver(y, rest, rest, p);
    PassOver(y, ys, ys, p);
    var sel := Select(ys, p);
    if p(x) {
      assert Select([y] + rest, p) == Select(rest, p);
      assert Select([y] + ys, p) == sel;
    } else {
      assert Select(rest, p) == sel;
    }
  }

  /** `Sort` is stable: each class of elements that `le` orders both ways keeps its input order. */
  lemma {:induction false} SortStable<T(!new)>(xs: seq<T>, le: (T, T) -> bool, p: T -> bool)
    requires TotalPreorder(le)
    requires forall a, b :: p(a) && p(b) ==> le(a, b)
    ensures Select(Sort(xs, le), p) == Select(xs, p)
  {
    if |xs| > 0 {
      SortStable(xs[1..], le, p);
      InsertStable(xs[0], Sort(xs[1..], le), le, p);
      SortStep(xs, le);
      PassOver(xs[0], xs[1..], xs[1..], p);
    }
  }

  /** Sorting a non-empty list inserts its head into the sorted tail. */
  lemma SortStep<T(!new)>(xs: seq<T>, le: (T, T) -> bool)
    requires TotalPreorder(le) && |xs| > 0
    ensures xs == [xs[0]] + xs[1..]
    ensures Sort(xs, le) == Insert(xs[0], Sort(xs[1..], le), le)
  { }

  /**
   The first `n` elements of `xs` in `le` order (`sort_values(...).head(n)`):
   every element left out is ranked no earlier than every element kept.
   */
  function TopN<T(!new)>(xs: seq<T>, le: (T, T) -> bool, n: nat): (r: seq<T>)
    requires TotalPreorder(le)
    ensures |r| == if |xs| < n then |xs| else n
    ensures Sorted(r, le)
    ensures multiset(r) <= multiset(xs)
    ensures forall x :: x in xs && x !in r ==> forall i :: 0 <= i < |r| ==> le(r[i], x)
  {
    var s := Sort(xs, le);
    var k := if |s| < n then |s| else n;
    PrefixFacts(xs, s, k, le);
    s[..k]
  }

  /** A prefix of a sorted permutation is sorted, contained, and ranked before the rest. */
  lemma PrefixFacts<T(!new)>(xs: seq<T>, s: seq<T>, k: nat, le: (T, T) -> bool)
    requires Sorted(s, le) && multiset(s) == multiset(xs) && k <= |s|
    ensures Sorted(s[..k], le)
    ensures multiset(s[..k]) <= multiset(xs)
    ensures forall x :: x in xs && x !in s[..k] ==> forall i :: 0 <= i < k ==> le(s[..k][i], x)
  {
    assert s == s[..k] + s[k..];
    forall x | x in xs && x !in s[..k] ensures forall i :: 0 <= i < k ==> le(s[..k][i], x) {
      assert x in multiset(s);
      var j :| 0 <= j < |s| && s[j] == x;
      assert j >= k;
    }
  }
}
