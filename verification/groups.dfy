/**
 `groupby(key).agg(...)` over a sequence of records: the distinct keys,
 and per key the sum, minimum and maximum of a value over the records
 carrying that key.
 */
module Groups {
  import opened Wrappers
  import opened Seqs

  /** Some record of `xs` carries key `k`. */
  predicate HasKey<T, K(==)>(xs: seq<T>, key: T -> K, k: K) {
    exists i :: 0 <= i < |xs| && key(xs[i]) == k
  }

  /** The groups of `xs`: each key present, once, in order of first appearance. */
  function GroupKeys<T, K(!new, ==)>(xs: seq<T>, key: T -> K): (ks: seq<K>)
    ensures NoDuplicates(ks)
    ensures forall k :: k in ks <==> HasKey(xs, key, k)
    ensures |ks| <= |xs|
  {
    var all := MapSeq(xs, key);
    assert forall k :: k in all <==> HasKey(xs, key, k) by {
      forall k | HasKey(xs, key, k) ensures k in all {
        var i :| 0 <= i < |xs| && key(xs[i]) == k;
        assert all[i] == k;
      }
    }
    Distinct(all)
  }

  /** The smallest `value` in group `k`; `None` when the group is empty. */
  function MinWhere<T, K(==)>(xs: seq<T>, key: T -> K, value: T -> int, k: K): (m: Option<int>)
    ensures m.Some? <==> HasKey(xs, key, k)
    ensures m.Some? ==> exists i :: 0 <= i < |xs| && key(xs[i]) == k && value(xs[i]) == m.value
    ensures m.Some? ==> forall i :: 0 <= i < |xs| && key(xs[i]) == k ==> m.value <= value(xs[i])
  {
    if |xs| == 0 then None
    else
      var rest := MinWhere(xs[1..], key, value, k);
      assert forall i :: 1 <= i < |xs| ==> xs[i] == xs[1..][i - 1];
      assert HasKey(xs[1..], key, k) ==> HasKey(xs, key, k) by {
        if HasKey(xs[1..], key, k) {
          var j :| 0 <= j < |xs[1..]| && key(xs[1..][j]) == k;
          assert key(xs[j + 1]) == k;
        }
      }
      if key(xs[0]) != k then rest
      else match rest
        case None => Some(value(xs[0]))
        case Some(v) => Some(if value(xs[0]) <= v then value(xs[0]) else v)
  }

  /** The largest `value` in group `k`; `None` when the group is empty. */
  function MaxWhere<T, K(==)>(xs: seq<T>, key: T -> K, value: T -> int, k: K): (m: Option<int>)
    ensures m.Some? <==> HasKey(xs, key, k)
    ensures m.Some? ==> exists i :: 0 <= i < |xs| && key(xs[i]) == k && value(xs[i]) == m.value
    ensures m.Some? ==> forall i :: 0 <= i < |xs| && key(xs[i]) == k ==> value(xs[i]) <= m.value
  {
    if |xs| == 0 then None
    else
      var rest := MaxWhere(xs[1..], key, value, k);
      assert forall i :: 1 <= i < |xs| ==> xs[i] == xs[1..][i - 1];
      assert HasKey(xs[1..], key, k) ==> HasKey(xs, key, k) by {
        if HasKey(xs[1..], key, k) {
          var j :| 0 <= j < |xs[1..]| && key(xs[1..][j]) == k;
          assert key(xs[j + 1]) == k;
        }
      }
      if key(xs[0]) != k then rest
      else match rest
        case None => Some(value(xs[0]))
        case Some(v) => Some(if value(xs[0]) >= v then value(xs[0]) else v)
  }

  /** Within a non-empty group the maximum is at least the minimum. */
  lemma MaxAtLeastMin<T, K>(xs: seq<T>, key: T -> K, value: T -> int, k: K)
    requires HasKey(xs, key, k)
    ensures MinWhere(xs, key, value, k).value <= MaxWhere(xs, key, value, k).value
  {
    var i :| 0 <= i < |xs| && key(xs[i]) == k;
    assert MinWhere(xs, key, value, k).value <= value(xs[i]);
  }

  /** Two sums agree when their terms agree position by position. */
  lemma {:induction false} SumOfPointwise<A, B>(a: seq<A>, f: A -> int, b: seq<B>, g: B -> int)
    requires |a| == |b|
    requires forall i :: 0 <= i < |a| ==> f(a[i]) == g(b[i])
    ensures SumOf(a, f) == SumOf(b, g)
  {
    if |a| > 0 {
      assert forall i :: 1 <= i < |a| ==> a[1..][i - 1] == a[i] && b[1..][i - 1] == b[i];
      SumOfPointwise(a[1..], f, b[1..], g);
    }
  }

  /**
   The per-group totals over all groups add up to the total over all
   records: grouping loses and double-counts nothing.
   */
  lemma GroupTotalsAddUp<T, K(!new)>(xs: seq<T>, key: T -> K, value: T -> int)
    ensures var ks := GroupKeys(xs, key);
      SumOf(MapSeq(ks, k => SumWhere(xs, key, value, k)), x => x) == SumOf(xs, value)
  {
    var ks := GroupKeys(xs, key);
    forall x | x in xs ensures key(x) in ks {
      var i :| 0 <= i < |xs| && xs[i] == x;
      assert HasKey(xs, key, key(x));
    }
    GroupTotalsConserve(xs, key, value, ks);
  }
}
