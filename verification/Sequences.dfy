/** Nested loops over lists, as one concatenated list. */
module Sequences {
  import opened Common
  import opened Grouping

  function FlatMap<A, B>(f: A -> seq<B>, xs: seq<A>): seq<B> {
    if xs == [] then [] else FlatMap(f, xs[..|xs| - 1]) + f(xs[|xs| - 1])
  }

  lemma FlatMapStep<A, B>(f: A -> seq<B>, xs: seq<A>, i: nat)
    requires i < |xs|
    ensures FlatMap(f, xs[..i + 1]) == FlatMap(f, xs[..i]) + f(xs[i])
  {
    assert xs[..i + 1][..i] == xs[..i];
  }

  lemma {:induction false} FlatMapMember<A, B>(f: A -> seq<B>, xs: seq<A>, b: B)
    ensures b in FlatMap(f, xs) <==> exists i :: 0 <= i < |xs| && b in f(xs[i])
  {
    if xs != [] {
      var n := |xs| - 1;
      FlatMapMember(f, xs[..n], b);
      if b in FlatMap(f, xs[..n]) {
        var i :| 0 <= i < n && b in f(xs[..n][i]);
        assert xs[i] == xs[..n][i];
      }
    }
  }

  lemma {:induction false} FlatMapLength<A, B>(f: A -> seq<B>, xs: seq<A>, n: nat)
    requires forall i :: 0 <= i < |xs| ==> |f(xs[i])| == n
    ensures |FlatMap(f, xs)| == |xs| * n
  {
    if xs != [] {
      FlatMapLength(f, xs[..|xs| - 1], n);
      assert |xs| * n == (|xs| - 1) * n + n;
    }
  }

  /** Blocks of one length: place `k` of block `i` is place `i * n + k` of the whole. */
  lemma {:induction false} FlatMapAt<A, B>(f: A -> seq<B>, xs: seq<A>, n: nat, i: nat, k: nat)
    requires forall j :: 0 <= j < |xs| ==> |f(xs[j])| == n
    requires i < |xs| && k < n
    ensures 0 <= i * n + k < |FlatMap(f, xs)| && FlatMap(f, xs)[i * n + k] == f(xs[i])[k]
  {
    var m := |xs| - 1;
    FlatMapLength(f, xs[..m], n);
    if i == m {
      assert FlatMap(f, xs)[|FlatMap(f, xs[..m])| + k] == f(xs[m])[k];
    } else {
      FlatMapAt(f, xs[..m], n, i, k);
    }
  }

  /** Blocks that are duplicate-free and pairwise disjoint concatenate without duplicates. */
  lemma {:induction false} FlatMapDistinct<A, B>(f: A -> seq<B>, xs: seq<A>)
    requires forall i :: 0 <= i < |xs| ==> Distinct(f(xs[i]))
    requires forall i, j, b :: 0 <= i < j < |xs| && b in f(xs[i]) ==> b !in f(xs[j])
    ensures Distinct(FlatMap(f, xs))
  {
    if xs != [] {
      var n := |xs| - 1;
      var before, last := FlatMap(f, xs[..n]), f(xs[n]);
      FlatMapDistinct(f, xs[..n]);
      forall b | b in before ensures b !in last {
        FlatMapMember(f, xs[..n], b);
        var i :| 0 <= i < n && b in f(xs[..n][i]);
        assert b in f(xs[i]);
      }
      DistinctConcat(before, last);
    }
  }

  lemma DistinctConcat<T>(a: seq<T>, b: seq<T>)
    requires Distinct(a) && Distinct(b) && forall x :: x in a ==> x !in b
    ensures Distinct(a + b)
  {
    forall i, j | 0 <= i < j < |a + b| ensures (a + b)[i] != (a + b)[j] {
      if i < |a| <= j {
        assert a[i] in a && b[j - |a|] in b;
      }
    }
  }

  /** A filter that only one block survives yields what it keeps of that block. */
  lemma {:induction false} FilterOneBlock<A, B(!new)>(p: B -> bool, f: A -> seq<B>, xs: seq<A>, i: nat)
    requires i < |xs|
    requires forall j :: 0 <= j < |xs| && j != i ==> Filter(p, f(xs[j])) == []
    ensures Filter(p, FlatMap(f, xs)) == Filter(p, f(xs[i]))
  {
    var n := |xs| - 1;
    FilterConcat(p, FlatMap(f, xs[..n]), f(xs[n]));
    if i == n {
      FilterNoBlock(p, f, xs[..n]);
    } else {
      assert Filter(p, f(xs[n])) == [];
      FilterOneBlock(p, f, xs[..n], i);
    }
  }

  lemma {:induction false} FilterNoBlock<A, B(!new)>(p: B -> bool, f: A -> seq<B>, xs: seq<A>)
    requires forall j :: 0 <= j < |xs| ==> Filter(p, f(xs[j])) == []
    ensures Filter(p, FlatMap(f, xs)) == []
  {
    if xs != [] {
      var n := |xs| - 1;
      FilterConcat(p, FlatMap(f, xs[..n]), f(xs[n]));
      FilterNoBlock(p, f, xs[..n]);
      assert Filter(p, f(xs[n])) == [];
    }
  }

  lemma {:induction false} FlatMapMultiset<A, B>(f: A -> seq<B>, g: A -> seq<B>, xs: seq<A>)
    requires forall i :: 0 <= i < |xs| ==> Permutation(f(xs[i]), g(xs[i]))
    ensures Permutation(FlatMap(f, xs), FlatMap(g, xs))
  {
    if xs != [] {
      FlatMapMultiset(f, g, xs[..|xs| - 1]);
    }
  }

  /** An element of an earlier block sits before an element of a later one. */
  lemma {:induction false} FlatMapPositions<A, B>(f: A -> seq<B>, xs: seq<A>, i: nat, j: nat, b: B, c: B)
    returns (p: nat, q: nat)
    requires i < j < |xs| && b in f(xs[i]) && c in f(xs[j])
    ensures p < q < |FlatMap(f, xs)| && FlatMap(f, xs)[p] == b && FlatMap(f, xs)[q] == c
  {
    var n := |xs| - 1;
    var before, last := FlatMap(f, xs[..n]), f(xs[n]);
    if j < n {
      p, q := FlatMapPositions(f, xs[..n], i, j, b, c);
    } else {
      assert xs[..n][i] == xs[i];
      FlatMapMember(f, xs[..n], b);
      p :| 0 <= p < |before| && before[p] == b;
      var k :| 0 <= k < |last| && last[k] == c;
      q := |before| + k;
    }
  }

  lemma {:induction false} FilterNone<T(!new)>(p: T -> bool, xs: seq<T>)
    requires forall x :: x in xs ==> !p(x)
    ensures Filter(p, xs) == []
  {
    if xs != [] {
      FilterNone(p, xs[..|xs| - 1]);
    }
  }

  function Map<A, B>(f: A -> B, xs: seq<A>): (ys: seq<B>)
    ensures |ys| == |xs|
  {
    if xs == [] then [] else Map(f, xs[..|xs| - 1]) + [f(xs[|xs| - 1])]
  }

  lemma {:induction false} MapAt<A, B>(f: A -> B, xs: seq<A>, i: nat)
    requires i < |xs|
    ensures Map(f, xs)[i] == f(xs[i])
  {
    if i < |xs| - 1 {
      MapAt(f, xs[..|xs| - 1], i);
    }
  }

  lemma {:induction false} MapMember<A(!new), B>(f: A -> B, xs: seq<A>, y: B)
    ensures y in Map(f, xs) <==> exists x :: x in xs && f(x) == y
  {
    forall i | 0 <= i < |xs| ensures Map(f, xs)[i] == f(xs[i]) {
      MapAt(f, xs, i);
    }
    if y in Map(f, xs) {
      var i :| 0 <= i < |Map(f, xs)| && Map(f, xs)[i] == y;
      assert xs[i] in xs && f(xs[i]) == y;
    }
    if x :| x in xs && f(x) == y {
      var i :| 0 <= i < |xs| && xs[i] == x;
      assert Map(f, xs)[i] == y;
    }
  }

  lemma {:induction false} MapAfterMap<A, B, C>(f: B -> C, g: A -> B, h: A -> C, xs: seq<A>)
    requires forall i :: 0 <= i < |xs| ==> f(g(xs[i])) == h(xs[i])
    ensures Map(f, Map(g, xs)) == Map(h, xs)
  {
    if xs != [] {
      var n := |xs| - 1;
      MapAfterMap(f, g, h, xs[..n]);
      assert Map(g, xs)[..n] == Map(g, xs[..n]);
    }
  }

  function Yields<A, B(==)>(f: A -> B, y: B): A -> bool {
    (x: A) => f(x) == y
  }

  lemma {:induction false} MapCount<A(!new), B>(f: A -> B, xs: seq<A>, y: B)
    ensures multiset(Map(f, xs))[y] == |Filter(Yields(f, y), xs)|
  {
    if xs != [] {
      var n := |xs| - 1;
      MapCount(f, xs[..n], y);
    }
  }

  lemma MapPermutation<A(!new), B(!new)>(f: A -> B, xs: seq<A>, ys: seq<A>)
    requires Permutation(xs, ys)
    ensures Permutation(Map(f, xs), Map(f, ys))
  {
    forall y ensures multiset(Map(f, xs))[y] == multiset(Map(f, ys))[y] {
      MapCount(f, xs, y);
      MapCount(f, ys, y);
      FilterPermutation(Yields(f, y), xs, ys);
      PermutationMembers(Filter(Yields(f, y), xs), Filter(Yields(f, y), ys));
    }
  }

  /** Filtering after a map is mapping after a filter. */
  lemma {:induction false} FilterMap<A(!new), B(!new)>(p: B -> bool, f: A -> B, q: A -> bool, xs: seq<A>)
    requires forall x :: x in xs ==> q(x) == p(f(x))
    ensures Filter(p, Map(f, xs)) == Map(f, Filter(q, xs))
  {
    if xs != [] {
      var n := |xs| - 1;
      FilterMap(p, f, q, xs[..n]);
      FilterAppend(p, Map(f, xs[..n]), f(xs[n]));
      FilterAppend(q, xs[..n], xs[n]);
      assert xs == xs[..n] + [xs[n]];
      var kept := Filter(q, xs[..n]);
      assert (kept + [xs[n]])[..|kept|] == kept;
    }
  }

  /** `list(dict.fromkeys(xs))`: each value once, at its first position. */
  function Dedup<T(==)>(xs: seq<T>): (r: seq<T>)
    ensures Distinct(r)
  {
    if xs == [] then []
    else
      var before, last := Dedup(xs[..|xs| - 1]), xs[|xs| - 1];
      if last in before then before else before + [last]
  }

  lemma DedupAppend<T>(xs: seq<T>, x: T)
    ensures Dedup(xs + [x]) == if x in Dedup(xs) then Dedup(xs) else Dedup(xs) + [x]
  {
    assert (xs + [x])[..|xs|] == xs;
  }

  lemma {:induction false} DedupMembers<T>(xs: seq<T>)
    ensures forall x :: x in Dedup(xs) <==> x in xs
  {
    if xs != [] {
      var n := |xs| - 1;
      DedupMembers(xs[..n]);
      assert xs == xs[..n] + [xs[n]];
    }
  }

  lemma {:induction false} FlatMapAgree<A, B, C>(f: A -> seq<C>, xs: seq<A>, g: B -> seq<C>, ys: seq<B>)
    requires |xs| == |ys| && forall i :: 0 <= i < |xs| ==> f(xs[i]) == g(ys[i])
    ensures FlatMap(f, xs) == FlatMap(g, ys)
  {
    if xs != [] {
      FlatMapAgree(f, xs[..|xs| - 1], g, ys[..|ys| - 1]);
    }
  }

  /** `range(1, n + 1)` */
  function OneTo(n: nat): (r: seq<nat>)
    ensures |r| == n && forall i :: 0 <= i < n ==> r[i] == i + 1
  {
    seq(n, i requires 0 <= i < n => i + 1)
  }
}
