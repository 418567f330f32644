/** Insertion-ordered grouping (`dict.setdefault(key, []).append(row)`), stated independently of any
    loop: the keys in order of first appearance, and for each key the rows carrying it in order. */
module Grouping {
  import opened Common

  function Filter<T(!new)>(p: T -> bool, xs: seq<T>): (r: seq<T>)
    ensures |r| <= |xs|
  {
    if xs == [] then []
    else
      var last := xs[|xs| - 1];
      Filter(p, xs[..|xs| - 1]) + (if p(last) then [last] else [])
  }

  lemma {:induction false} FilterMembers<T(!new)>(p: T -> bool, xs: seq<T>)
    ensures forall x :: x in Filter(p, xs) <==> x in xs && p(x)
  {
    if xs != [] {
      var n := |xs| - 1;
      FilterMembers(p, xs[..n]);
      assert xs == xs[..n] + [xs[n]];
    }
  }

  /** A filter keeps everything exactly when it keeps the length. */
  lemma {:induction false} FilterKeepsAll<T(!new)>(p: T -> bool, xs: seq<T>)
    ensures (forall i :: 0 <= i < |xs| ==> p(xs[i])) <==> |Filter(p, xs)| == |xs|
    ensures |Filter(p, xs)| == |xs| ==> Filter(p, xs) == xs
  {
    if xs != [] {
      var n := |xs| - 1;
      FilterKeepsAll(p, xs[..n]);
      assert xs == xs[..n] + [xs[n]];
      assert forall i :: 0 <= i < n ==> xs[..n][i] == xs[i];
    }
  }

  /** The first element of a filter is the first that satisfies it, and the filter is a singleton exactly when no other
      does. */
  lemma {:induction false} FilterHead<T(!new)>(p: T -> bool, xs: seq<T>) returns (i: nat)
    requires Filter(p, xs) != []
    ensures i < |xs| && p(xs[i]) && Filter(p, xs)[0] == xs[i] && forall j :: 0 <= j < i ==> !p(xs[j])
    ensures |Filter(p, xs)| == 1 <==> forall j :: 0 <= j < |xs| && j != i ==> !p(xs[j])
  {
    var n := |xs| - 1;
    if Filter(p, xs[..n]) == [] {
      i := n;
      forall j | 0 <= j < n ensures !p(xs[j]) {
        FilterMembers(p, xs[..n]);
        assert xs[..n][j] == xs[j];
      }
    } else {
      i := FilterHead(p, xs[..n]);
      assert forall j :: 0 <= j < n ==> xs[..n][j] == xs[j];
    }
  }

  function Positions<T(!new)>(p: T -> bool, xs: seq<T>): set<int> {
    set i | 0 <= i < |xs| && p(xs[i])
  }

  /** A filter is as long as there are positions it keeps. */
  lemma {:induction false} FilterCount<T(!new)>(p: T -> bool, xs: seq<T>)
    ensures |Filter(p, xs)| == |Positions(p, xs)|
  {
    if xs == [] {
      assert Positions(p, xs) == {};
    } else {
      var n := |xs| - 1;
      FilterCount(p, xs[..n]);
      assert forall i :: 0 <= i < n ==> xs[..n][i] == xs[i];
      assert Positions(p, xs) == Positions(p, xs[..n]) + if p(xs[n]) then {n} else {};
    }
  }

  lemma FilterAppend<T(!new)>(p: T -> bool, xs: seq<T>, x: T)
    ensures Filter(p, xs + [x]) == if p(x) then Filter(p, xs) + [x] else Filter(p, xs)
  {
    assert (xs + [x])[..|xs|] == xs;
  }

  lemma {:induction false} FilterConcat<T(!new)>(p: T -> bool, a: seq<T>, b: seq<T>)
    ensures Filter(p, a + b) == Filter(p, a) + Filter(p, b)
  {
    if b == [] {
      assert a + b == a;
    } else {
      assert (a + b)[..|a + b| - 1] == a + b[..|b| - 1];
      FilterConcat(p, a, b[..|b| - 1]);
    }
  }

  lemma {:induction false} FilterMultiset<T(!new)>(p: T -> bool, xs: seq<T>, x: T)
    ensures multiset(Filter(p, xs))[x] == if p(x) then multiset(xs)[x] else 0
  {
    if xs != [] {
      var n := |xs| - 1;
      FilterMultiset(p, xs[..n], x);
      assert xs == xs[..n] + [xs[n]];
    }
  }

  lemma FilterPermutation<T(!new)>(p: T -> bool, xs: seq<T>, ys: seq<T>)
    requires Permutation(xs, ys)
    ensures Permutation(Filter(p, xs), Filter(p, ys))
  {
    forall x ensures multiset(Filter(p, xs))[x] == multiset(Filter(p, ys))[x] {
      FilterMultiset(p, xs, x);
      FilterMultiset(p, ys, x);
    }
  }

  // ---------------------------------------------------------------- grouping

  function HasKey<T(!new), K(==,!new)>(key: T -> K, k: K): T -> bool {
    x => key(x) == k
  }

  /** The rows whose key is `k`, in their original order. */
  function Group<T(!new), K(==,!new)>(key: T -> K, xs: seq<T>, k: K): seq<T> {
    Filter(HasKey(key, k), xs)
  }

  /** The keys of `xs` in order of first appearance. */
  function Keys<T(!new), K(==,!new)>(key: T -> K, xs: seq<T>): (ks: seq<K>)
    ensures Distinct(ks)
  {
    if xs == [] then []
    else
      var n := |xs| - 1;
      var before := Keys(key, xs[..n]);
      if key(xs[n]) in before then before else before + [key(xs[n])]
  }

  lemma {:induction false} KeysMembers<T(!new), K(!new)>(key: T -> K, xs: seq<T>)
    ensures forall k :: k in Keys(key, xs) <==> exists x :: x in xs && key(x) == k
  {
    if xs != [] {
      var n := |xs| - 1;
      KeysMembers(key, xs[..n]);
      assert xs == xs[..n] + [xs[n]];
    }
  }

  lemma KeysAppend<T(!new), K(!new)>(key: T -> K, xs: seq<T>, x: T)
    ensures Keys(key, xs + [x]) == if key(x) in Keys(key, xs) then Keys(key, xs) else Keys(key, xs) + [key(x)]
  {
    assert (xs + [x])[..|xs|] == xs;
  }

  lemma KeysPermutation<T(!new), K(!new)>(key: T -> K, xs: seq<T>, ys: seq<T>)
    requires Permutation(xs, ys)
    ensures Permutation(Keys(key, xs), Keys(key, ys))
  {
    PermutationMembers(xs, ys);
    KeysMembers(key, xs);
    KeysMembers(key, ys);
    DistinctSameMembers(Keys(key, xs), Keys(key, ys));
  }

  lemma DistinctSameMembers<T(!new)>(a: seq<T>, b: seq<T>)
    requires Distinct(a) && Distinct(b)
    requires forall x :: x in a <==> x in b
    ensures Permutation(a, b)
  {
    DistinctIffSingle(a);
    DistinctIffSingle(b);
    forall x ensures multiset(a)[x] == multiset(b)[x] {
      assert x in a <==> x in multiset(a);
      assert x in b <==> x in multiset(b);
    }
  }

  /** The groups of a list of keys, one after the other. */
  function Regroup<T(!new), K(==,!new)>(key: T -> K, xs: seq<T>, ks: seq<K>): seq<T> {
    if ks == [] then [] else Group(key, xs, ks[0]) + Regroup(key, xs, ks[1..])
  }

  lemma {:induction false} RegroupCounts<T(!new), K(!new)>(key: T -> K, xs: seq<T>, ks: seq<K>, x: T)
    requires Distinct(ks)
    ensures multiset(Regroup(key, xs, ks))[x] == if key(x) in ks then multiset(xs)[x] else 0
  {
    if ks != [] {
      FilterMultiset(HasKey(key, ks[0]), xs, x);
      RegroupCounts(key, xs, ks[1..], x);
      assert key(x) in ks <==> key(x) == ks[0] || key(x) in ks[1..];
      assert ks[0] !in ks[1..];
    }
  }

  /** Grouping loses nothing and duplicates nothing, whatever order the groups are listed in. */
  lemma GroupsPartition<T(!new), K(!new)>(key: T -> K, xs: seq<T>, ks: seq<K>)
    requires Permutation(ks, Keys(key, xs))
    ensures Permutation(Regroup(key, xs, ks), xs)
  {
    PermutationDistinct(Keys(key, xs), ks);
    PermutationMembers(ks, Keys(key, xs));
    KeysMembers(key, xs);
    forall x ensures multiset(Regroup(key, xs, ks))[x] == multiset(xs)[x] {
      RegroupCounts(key, xs, ks, x);
      if x in multiset(xs) {
        assert x in xs && key(x) in Keys(key, xs);
      }
    }
  }

  lemma {:induction false} FilterSame<T(!new)>(p: T -> bool, q: T -> bool, xs: seq<T>)
    requires forall x :: x in xs ==> p(x) == q(x)
    ensures Filter(p, xs) == Filter(q, xs)
  {
    if xs != [] {
      FilterSame(p, q, xs[..|xs| - 1]);
    }
  }
}
