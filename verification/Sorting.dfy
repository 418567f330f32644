/** Python's `sorted`, with the facts the pipeline needs of it: it is a permutation, it is ordered,
    and on totally ordered elements its result depends on the multiset of its input alone. */
module Sorting {
  import opened Common
  import opened Grouping

  ghost predicate TotalPreorder<T(!new)>(le: (T, T) -> bool) {
    && (forall a, b :: le(a, b) || le(b, a))
    && (forall a, b, c :: le(a, b) && le(b, c) ==> le(a, c))
  }

  ghost predicate TotalOrder<T(!new)>(le: (T, T) -> bool) {
    TotalPreorder(le) && forall a, b :: le(a, b) && le(b, a) ==> a == b
  }

  ghost predicate Sorted<T>(le: (T, T) -> bool, s: seq<T>) {
    forall i, j :: 0 <= i < j < |s| ==> le(s[i], s[j])
  }

  function Insert<T>(le: (T, T) -> bool, x: T, s: seq<T>): (r: seq<T>)
    ensures |r| == |s| + 1
    ensures multiset(r) == multiset{x} + multiset(s)
  {
    if s == [] || le(x, s[0]) then [x] + s
    else
      assert s == [s[0]] + s[1..];
      [s[0]] + Insert(le, x, s[1..])
  }

  function Sort<T>(le: (T, T) -> bool, xs: seq<T>): (r: seq<T>)
    ensures Permutation(r, xs) && |r| == |xs|
  {
    if xs == [] then []
    else
      assert xs == [xs[0]] + xs[1..];
      Insert(le, xs[0], Sort(le, xs[1..]))
  }

  lemma {:induction false} InsertSorted<T(!new)>(le: (T, T) -> bool, x: T, s: seq<T>)
    requires TotalPreorder(le) && Sorted(le, s)
    ensures Sorted(le, Insert(le, x, s))
  {
    if s != [] && !le(x, s[0]) {
      InsertSorted(le, x, s[1..]);
      var rest := Insert(le, x, s[1..]);
      forall k | 0 <= k < |rest| ensures le(s[0], rest[k]) {
        assert rest[k] in multiset(rest);
        assert rest[k] == x || rest[k] in s[1..];
      }
    }
  }

  lemma {:induction false} SortSorted<T(!new)>(le: (T, T) -> bool, xs: seq<T>)
    requires TotalPreorder(le)
    ensures Sorted(le, Sort(le, xs))
  {
    if xs != [] {
      SortSorted(le, xs[1..]);
      InsertSorted(le, xs[0], Sort(le, xs[1..]));
    }
  }

  lemma TailMultiset<T>(s: seq<T>)
    requires s != []
    ensures multiset(s[1..]) == multiset(s) - multiset{s[0]}
  {
    assert s == [s[0]] + s[1..];
  }

  lemma {:induction false} SortedUnique<T(!new)>(le: (T, T) -> bool, a: seq<T>, b: seq<T>)
    requires TotalOrder(le) && Sorted(le, a) && Sorted(le, b) && Permutation(a, b)
    ensures a == b
  {
    PermutationMembers(a, b);
    if a != [] {
      assert a[0] in b && b[0] in a;
      assert a[0] == b[0];
      TailMultiset(a);
      TailMultiset(b);
      SortedUnique(le, a[1..], b[1..]);
    }
  }

  /** Sorting forgets the order of its input. */
  lemma {:induction false} SortPermutationInvariant<T(!new)>(le: (T, T) -> bool, xs: seq<T>, ys: seq<T>)
    requires TotalOrder(le) && Permutation(xs, ys)
    ensures Sort(le, xs) == Sort(le, ys)
  {
    SortSorted(le, xs);
    SortSorted(le, ys);
    SortedUnique(le, Sort(le, xs), Sort(le, ys));
  }

  // ---------------------------------------------------------------- orders used by the pipeline

  predicate RealLe(a: real, b: real) { a <= b }

  predicate TextLe(a: string, b: string) {
    a == [] || (b != [] && (a[0] < b[0] || (a[0] == b[0] && TextLe(a[1..], b[1..]))))
  }

  lemma {:induction false} TextTotal(a: string, b: string)
    ensures TextLe(a, b) || TextLe(b, a)
    ensures TextLe(a, b) && TextLe(b, a) ==> a == b
  {
    if a != [] && b != [] {
      TextTotal(a[1..], b[1..]);
      assert a == [a[0]] + a[1..] && b == [b[0]] + b[1..];
    }
  }

  lemma {:induction false} TextTransitive(a: string, b: string, c: string)
    requires TextLe(a, b) && TextLe(b, c)
    ensures TextLe(a, c)
  {
    if a != [] && a[0] == b[0] && b[0] == c[0] {
      TextTransitive(a[1..], b[1..], c[1..]);
    }
  }

  /** Ordering by printed form. */
  function ByText<K>(show: K -> string): (K, K) -> bool {
    (a, b) => TextLe(show(a), show(b))
  }

  ghost predicate Injective<K(!new)>(show: K -> string) {
    forall a, b :: show(a) == show(b) ==> a == b
  }

  lemma ByTextTotal<K(!new)>(show: K -> string)
    requires Injective(show)
    ensures TotalOrder(ByText(show))
  {
    forall a, b: K {
      TextTotal(show(a), show(b));
    }
    ByTextPreorder(show);
  }

  lemma ByTextPreorder<K(!new)>(show: K -> string)
    ensures TotalPreorder(ByText(show))
  {
    forall a, b: K {
      TextTotal(show(a), show(b));
    }
    forall a, b, c: K | ByText(show)(a, b) && ByText(show)(b, c) ensures ByText(show)(a, c) {
      TextTransitive(show(a), show(b), show(c));
    }
  }

  // ---------------------------------------------------------------- what sorting by text is

  /** The order of texts: one is the start of the other, or smaller at the first character in which they differ. */
  lemma {:induction false} TextLeIff(a: string, b: string)
    ensures TextLe(a, b) <==> a <= b || exists k :: DiffersAt(a, b, k) && a[k] < b[k]
  {
    if a != [] && b != [] {
      TextLeIff(a[1..], b[1..]);
      if a[0] == b[0] {
        assert a <= b <==> a[1..] <= b[1..] by { assert a == [a[0]] + a[1..] && b == [b[0]] + b[1..]; }
        if k :| DiffersAt(a[1..], b[1..], k) && a[1..][k] < b[1..][k] {
          assert a[..k + 1] == [a[0]] + a[1..][..k] && b[..k + 1] == [b[0]] + b[1..][..k];
          assert DiffersAt(a, b, k + 1);
        }
        if k :| DiffersAt(a, b, k) && a[k] < b[k] {
          assert a[1..][..k - 1] == a[..k][1..] && b[1..][..k - 1] == b[..k][1..];
          assert DiffersAt(a[1..], b[1..], k - 1);
        }
      } else if a[0] < b[0] {
        assert DiffersAt(a, b, 0);
      } else {
        assert forall k :: 0 < k <= |a| && k <= |b| ==> a[..k][0] == a[0] && b[..k][0] == b[0];
      }
    }
  }

  /** `k` is the first place at which the texts differ. */
  predicate DiffersAt(a: string, b: string, k: int) {
    0 <= k < |a| && k < |b| && a[..k] == b[..k] && a[k] != b[k]
  }

  /** The elements shown as `t`. */
  function ShownAs<K>(show: K -> string, t: string): K -> bool {
    x => show(x) == t
  }

  /** Sorting by text ascends in the text shown, and elements shown alike keep their order. */
  lemma SortByTextIs<K(!new)>(show: K -> string, xs: seq<K>)
    ensures forall i, j :: 0 <= i < j < |xs| ==>
              TextLe(show(Sort(ByText(show), xs)[i]), show(Sort(ByText(show), xs)[j]))
    ensures forall t :: Filter(ShownAs(show, t), Sort(ByText(show), xs)) == Filter(ShownAs(show, t), xs)
  {
    ByTextPreorder(show);
    SortSorted(ByText(show), xs);
    var r := Sort(ByText(show), xs);
    forall i, j | 0 <= i < j < |xs| ensures TextLe(show(r[i]), show(r[j])) {
      assert ByText(show)(r[i], r[j]);
    }
    forall t ensures Filter(ShownAs(show, t), r) == Filter(ShownAs(show, t), xs) {
      SortIsStable(show, xs, t);
    }
  }

  lemma {:induction false} SortIsStable<K(!new)>(show: K -> string, xs: seq<K>, t: string)
    ensures Filter(ShownAs(show, t), Sort(ByText(show), xs)) == Filter(ShownAs(show, t), xs)
  {
    hide Filter, Insert, TextLe, ByText, ShownAs;
    if xs != [] {
      var rest := Sort(ByText(show), xs[1..]);
      SortIsStable(show, xs[1..], t);
      InsertIsStable(show, xs[0], rest, t);
      FilterFront(ShownAs(show, t), xs[0], xs[1..]);
      FilterFront(ShownAs(show, t), xs[0], rest);
      assert xs == [xs[0]] + xs[1..];
    }
  }

  lemma {:induction false} InsertIsStable<K(!new)>(show: K -> string, x: K, s: seq<K>, t: string)
    ensures Filter(ShownAs(show, t), Insert(ByText(show), x, s)) == Filter(ShownAs(show, t), [x] + s)
  {
    var shown := ShownAs(show, t);
    if s != [] && !ByText(show)(x, s[0]) {
      InsertIsStable(show, x, s[1..], t);
      TextTotal(show(x), show(s[0]));
      assert show(x) != show(s[0]);
      assert s == [s[0]] + s[1..];
      FilterFront(shown, s[0], Insert(ByText(show), x, s[1..]));
      FilterFront(shown, x, s[1..]);
      FilterFront(shown, x, s);
      FilterFront(shown, s[0], s[1..]);
    }
  }

  lemma FilterFront<T(!new)>(p: T -> bool, x: T, xs: seq<T>)
    ensures Filter(p, [x] + xs) == (if p(x) then [x] else []) + Filter(p, xs)
  {
    FilterConcat(p, [x], xs);
    FilterAppend(p, [], x);
    assert [] + [x] == [x];
  }
}
