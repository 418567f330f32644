/** The interpolating quartile rule of the V3 auditor, over exact real arithmetic. */
module Quartiles {
  import opened Common
  import opened Sorting

  datatype Summary = Summary(median: real, q1: real, q3: real, iqr: real)

  /** The point a fraction `t` of the way from `lo` to `hi`. */
  function Mix(lo: real, hi: real, t: real): real {
    lo + (hi - lo) * t
  }

  /** `percentile`, as a function of the fractional position inside an ordered list. */
  function Interpolate(ordered: seq<real>, position: real): real
    requires ordered != [] && 0.0 <= position <= (|ordered| - 1) as real
  {
    var lower := position.Floor;
    var upper := if lower + 1 < |ordered| - 1 then lower + 1 else |ordered| - 1;
    Mix(ordered[lower], ordered[upper], position - lower as real)
  }

  /** Where a fraction falls among `n` ordered values. */
  function Position(n: nat, fraction: real): (p: real)
    requires n > 0 && 0.0 <= fraction <= 1.0
    ensures 0.0 <= p <= (n - 1) as real
  {
    var m := (n - 1) as real;
    assert 0.0 <= m * (1.0 - fraction) == m - m * fraction;
    m * fraction
  }

  function Percentile(ordered: seq<real>, fraction: real): real
    requires ordered != [] && 0.0 <= fraction <= 1.0
  {
    Interpolate(ordered, Position(|ordered|, fraction))
  }

  function SummarizeOrdered(ordered: seq<real>): Summary
    requires ordered != []
  {
    var q1, median, q3 := Percentile(ordered, 0.25), Percentile(ordered, 0.5), Percentile(ordered, 0.75);
    Summary(median, q1, q3, q3 - q1)
  }

  /** `_quartiles`: nothing for no values, otherwise the three quartiles and their spread. */
  function Summarize(values: seq<real>): Option<Summary> {
    if values == [] then None else Some(SummarizeOrdered(Sort(RealLe, values)))
  }

  // ---------------------------------------------------------------- interpolation on ordered lists

  lemma MixBounds(lo: real, hi: real, t: real)
    requires lo <= hi && 0.0 <= t <= 1.0
    ensures lo <= Mix(lo, hi, t) <= hi
  {
    var gap := hi - lo;
    assert 0.0 <= gap * t;
    assert 0.0 <= gap * (1.0 - t) == gap - gap * t;
  }

  lemma MixFurther(lo: real, hi: real, t: real, u: real)
    requires lo <= hi && t <= u
    ensures Mix(lo, hi, t) <= Mix(lo, hi, u)
  {
    var gap := hi - lo;
    assert 0.0 <= gap * (u - t) == gap * u - gap * t;
  }

  lemma MixGrows(lo: real, hi: real, lo': real, hi': real, t: real)
    requires lo <= lo' && hi <= hi' && 0.0 <= t <= 1.0
    ensures Mix(lo, hi, t) <= Mix(lo', hi', t)
  {
    var a, b, v := lo' - lo, hi' - hi, 1.0 - t;
    assert a * v >= 0.0 && b * t >= 0.0;
    assert Mix(lo', hi', t) - Mix(lo, hi, t) == a * v + b * t;
  }

  lemma MixMirror(lo: real, hi: real, t: real)
    ensures Mix(-hi, -lo, t) == -Mix(lo, hi, 1.0 - t)
  {
  }

  ghost predicate Ascending(s: seq<real>) {
    Sorted(RealLe, s)
  }

  lemma RealLeTotal()
    ensures TotalOrder(RealLe)
  {
  }

  lemma OrderedBelow(s: seq<real>, i: nat, j: nat)
    requires Ascending(s) && i <= j < |s|
    ensures s[i] <= s[j]
  {
    if i < j { assert RealLe(s[i], s[j]); }
  }

  /** An interpolated value lies between its two neighbours. */
  lemma Between(s: seq<real>, p: real)
    requires Ascending(s) && s != [] && 0.0 <= p <= (|s| - 1) as real
    ensures s[p.Floor] <= Interpolate(s, p)
    ensures p.Floor + 1 < |s| ==> Interpolate(s, p) <= s[p.Floor + 1]
    ensures Interpolate(s, p) <= s[|s| - 1]
    ensures s[0] <= Interpolate(s, p)
  {
    var lower := p.Floor;
    var upper := if lower + 1 < |s| - 1 then lower + 1 else |s| - 1;
    OrderedBelow(s, 0, lower);
    OrderedBelow(s, lower, upper);
    OrderedBelow(s, upper, |s| - 1);
    MixBounds(s[lower], s[upper], p - lower as real);
  }

  lemma MonotoneInPosition(s: seq<real>, p: real, q: real)
    requires Ascending(s) && s != [] && 0.0 <= p <= q <= (|s| - 1) as real
    ensures Interpolate(s, p) <= Interpolate(s, q)
  {
    Between(s, p);
    Between(s, q);
    if p.Floor < q.Floor {
      OrderedBelow(s, p.Floor + 1, q.Floor);
    } else {
      var lower := p.Floor;
      var upper := if lower + 1 < |s| - 1 then lower + 1 else |s| - 1;
      OrderedBelow(s, lower, upper);
      MixFurther(s[lower], s[upper], p - lower as real, q - lower as real);
    }
  }

  ghost predicate Below(a: seq<real>, b: seq<real>) {
    |a| == |b| && forall i :: 0 <= i < |a| ==> a[i] <= b[i]
  }

  lemma MonotoneInValues(a: seq<real>, b: seq<real>, p: real)
    requires a != [] && Below(a, b) && 0.0 <= p <= (|a| - 1) as real
    ensures Interpolate(a, p) <= Interpolate(b, p)
  {
    var lower := p.Floor;
    var upper := if lower + 1 < |a| - 1 then lower + 1 else |a| - 1;
    MixGrows(a[lower], a[upper], b[lower], b[upper], p - lower as real);
  }

  /** An ordered list read backwards with its sign changed. */
  function Mirror(s: seq<real>): (r: seq<real>)
    ensures |r| == |s|
  {
    seq(|s|, i requires 0 <= i < |s| => -s[|s| - 1 - i])
  }

  lemma AtWholePosition(s: seq<real>, k: nat)
    requires k < |s|
    ensures Interpolate(s, k as real) == s[k]
  {
  }

  lemma AtFraction(s: seq<real>, k: nat, t: real)
    requires k + 1 < |s| && 0.0 < t < 1.0
    ensures Interpolate(s, k as real + t) == Mix(s[k], s[k + 1], t)
  {
    assert (k as real + t).Floor == k;
  }

  lemma MirrorInterpolates(s: seq<real>, p: real)
    requires s != [] && 0.0 <= p <= (|s| - 1) as real
    ensures Interpolate(Mirror(s), p) == -Interpolate(s, (|s| - 1) as real - p)
  {
    var m, k := |s| - 1, p.Floor;
    var t := p - k as real;
    assert Mirror(s)[k] == -s[m - k];
    if t == 0.0 {
      AtWholePosition(Mirror(s), k);
      AtWholePosition(s, m - k);
      assert m as real - p == (m - k) as real;
    } else {
      assert Mirror(s)[k + 1] == -s[m - 1 - k];
      AtFraction(Mirror(s), k, t);
      AtFraction(s, m - 1 - k, 1.0 - t);
      assert m as real - p == (m - 1 - k) as real + (1.0 - t);
      MixMirror(s[m - 1 - k], s[m - k], t);
    }
  }

  // ---------------------------------------------------------------- sorting and pointwise change

  lemma {:induction false} InsertAt(x: real, s: seq<real>, k: nat)
    requires Ascending(s) && k <= |s|
    ensures Insert(RealLe, x, s)[k] ==
            if k < |s| && s[k] < x then s[k] else if k == 0 || s[k - 1] < x then x else s[k - 1]
  {
    if s != [] && !RealLe(x, s[0]) {
      if k > 0 { InsertAt(x, s[1..], k - 1); }
    } else if k > 0 {
      OrderedBelow(s, 0, k - 1);
      if k < |s| { OrderedBelow(s, 0, k); }
    }
  }

  lemma {:induction false} SortMonotone(a: seq<real>, b: seq<real>)
    requires Below(a, b)
    ensures Below(Sort(RealLe, a), Sort(RealLe, b))
  {
    if a != [] {
      var s, t := Sort(RealLe, a[1..]), Sort(RealLe, b[1..]);
      SortMonotone(a[1..], b[1..]);
      RealLeTotal();
      SortSorted(RealLe, a[1..]);
      SortSorted(RealLe, b[1..]);
      forall k | 0 <= k <= |s| ensures Insert(RealLe, a[0], s)[k] <= Insert(RealLe, b[0], t)[k] {
        InsertAt(a[0], s, k);
        InsertAt(b[0], t, k);
        if k > 0 && k < |s| { OrderedBelow(s, k - 1, k); OrderedBelow(t, k - 1, k); }
      }
    }
  }

  function Negated(values: seq<real>): (r: seq<real>)
    ensures |r| == |values|
  {
    seq(|values|, i requires 0 <= i < |values| => -values[i])
  }

  lemma {:induction false} NegatedCounts(values: seq<real>, x: real)
    ensures multiset(Negated(values))[x] == multiset(values)[-x]
  {
    if values != [] {
      NegatedCounts(values[1..], x);
      assert values == [values[0]] + values[1..];
      assert Negated(values) == [-values[0]] + Negated(values[1..]);
    }
  }

  lemma {:induction false} MirrorCounts(values: seq<real>, x: real)
    ensures multiset(Mirror(values))[x] == multiset(values)[-x]
  {
    if values != [] {
      MirrorCounts(values[1..], x);
      assert values == [values[0]] + values[1..];
      assert Mirror(values) == Mirror(values[1..]) + [-values[0]];
    }
  }

  lemma SortOfNegated(values: seq<real>)
    ensures Sort(RealLe, Negated(values)) == Mirror(Sort(RealLe, values))
  {
    var s := Sort(RealLe, values);
    RealLeTotal();
    SortSorted(RealLe, values);
    SortSorted(RealLe, Negated(values));
    forall x ensures multiset(Mirror(s))[x] == multiset(Sort(RealLe, Negated(values)))[x] {
      MirrorCounts(s, x);
      NegatedCounts(values, x);
      assert multiset(s)[-x] == multiset(values)[-x];
    }
    forall i, j | 0 <= i < j < |s| ensures RealLe(Mirror(s)[i], Mirror(s)[j]) {
      OrderedBelow(s, |s| - 1 - j, |s| - 1 - i);
    }
    SortedUnique(RealLe, Sort(RealLe, Negated(values)), Mirror(s));
  }

  // ---------------------------------------------------------------- percentiles at a fraction

  lemma PositionLaws(n: nat, f: real, g: real)
    requires n > 0 && 0.0 <= f <= 1.0 && 0.0 <= g <= 1.0
    ensures f <= g ==> Position(n, f) <= Position(n, g)
    ensures Position(n, 1.0 - f) == (n - 1) as real - Position(n, f)
  {
    var m := (n - 1) as real;
    if f <= g { assert 0.0 <= m * (g - f) == m * g - m * f; }
    assert m * (1.0 - f) == m - m * f;
  }

  lemma PercentileInside(s: seq<real>, f: real)
    requires Ascending(s) && s != [] && 0.0 <= f <= 1.0
    ensures s[0] <= Percentile(s, f) <= s[|s| - 1]
  {
    Between(s, Position(|s|, f));
  }

  lemma PercentileOrdered(s: seq<real>, f: real, g: real)
    requires Ascending(s) && s != [] && 0.0 <= f <= g <= 1.0
    ensures Percentile(s, f) <= Percentile(s, g)
  {
    PositionLaws(|s|, f, g);
    MonotoneInPosition(s, Position(|s|, f), Position(|s|, g));
  }

  lemma PercentileGrows(a: seq<real>, b: seq<real>, f: real)
    requires a != [] && Below(a, b) && 0.0 <= f <= 1.0
    ensures Percentile(a, f) <= Percentile(b, f)
  {
    MonotoneInValues(a, b, Position(|a|, f));
  }

  lemma PercentileMirrored(s: seq<real>, f: real, g: real)
    requires s != [] && 0.0 <= f <= 1.0 && f + g == 1.0
    ensures Percentile(Mirror(s), f) == -Percentile(s, g)
  {
    MirrorInterpolates(s, Position(|s|, f));
    PositionLaws(|s|, f, f);
  }

  lemma SummaryMirrored(s: seq<real>)
    requires s != []
    ensures var q := SummarizeOrdered(s); SummarizeOrdered(Mirror(s)) == Summary(-q.median, -q.q3, -q.q1, q.iqr)
  {
    PercentileMirrored(s, 0.25, 0.75);
    PercentileMirrored(s, 0.5, 0.5);
    PercentileMirrored(s, 0.75, 0.25);
  }

  lemma MirroredSummaries(a: seq<real>, b: seq<real>)
    requires a != [] && b != [] && Sort(RealLe, b) == Mirror(Sort(RealLe, a))
    ensures var s := Summarize(a).value; Summarize(b) == Some(Summary(-s.median, -s.q3, -s.q1, s.iqr))
  {
    hide Percentile;
    SummaryMirrored(Sort(RealLe, a));
  }

  // ---------------------------------------------------------------- the quartile laws

  /** The three quartiles are ordered and stay inside any bounds on the data, its own extremes included. */
  lemma QuartilesOrdered(values: seq<real>, lo: real, hi: real)
    requires values != [] && forall i :: 0 <= i < |values| ==> lo <= values[i] <= hi
    ensures Summarize(values).Some?
    ensures var s := Summarize(values).value; lo <= s.q1 <= s.median <= s.q3 <= hi && s.iqr >= 0.0
  {
    var ordered := Sort(RealLe, values);
    RealLeTotal();
    SortSorted(RealLe, values);
    PermutationMembers(ordered, values);
    assert ordered[0] in values && ordered[|ordered| - 1] in values;
    PercentileInside(ordered, 0.25);
    PercentileInside(ordered, 0.75);
    PercentileOrdered(ordered, 0.25, 0.5);
    PercentileOrdered(ordered, 0.5, 0.75);
  }

  lemma QuartilesPermutationInvariant(a: seq<real>, b: seq<real>)
    requires Permutation(a, b)
    ensures Summarize(a) == Summarize(b)
  {
    PermutationMembers(a, b);
    RealLeTotal();
    SortPermutationInvariant(RealLe, a, b);
  }

  /** When every value grows, so does every quartile. */
  lemma QuartilesMonotone(a: seq<real>, b: seq<real>)
    requires a != [] && Below(a, b)
    ensures var s, t := Summarize(a).value, Summarize(b).value;
            s.q1 <= t.q1 && s.median <= t.median && s.q3 <= t.q3
  {
    SortMonotone(a, b);
    PercentileGrows(Sort(RealLe, a), Sort(RealLe, b), 0.25);
    PercentileGrows(Sort(RealLe, a), Sort(RealLe, b), 0.5);
    PercentileGrows(Sort(RealLe, a), Sort(RealLe, b), 0.75);
  }

  /** Swapping the arms of every pair negates each delta: the median changes sign, the outer quartiles
      trade places with a change of sign, and the spread stays. */
  lemma QuartilesNegated(values: seq<real>)
    requires values != []
    ensures var s := Summarize(values).value;
            Summarize(Negated(values)) == Some(Summary(-s.median, -s.q3, -s.q1, s.iqr))
  {
    SortOfNegated(values);
    MirroredSummaries(values, Negated(values));
  }

  // ---------------------------------------------------------------- the summariser's library form

  /** `statistics.median` of an ordered list. */
  function MedianOf(ordered: seq<real>): real
    requires ordered != []
  {
    var n := |ordered|;
    if n % 2 == 1 then ordered[n / 2] else (ordered[n / 2 - 1] + ordered[n / 2]) / 2.0
  }

  /** The `i`-th of `statistics.quantiles(ordered, n=4, method="inclusive")`. */
  function InclusiveQuartile(ordered: seq<real>, i: nat): real
    requires |ordered| >= 2 && 1 <= i <= 3
  {
    var m := |ordered| - 1;
    var j, delta := i * m / 4, i * m % 4;
    (ordered[j] * (4 - delta) as real + ordered[j + 1] * delta as real) / 4.0
  }

  datatype QuartileSummary = QuartileSummary(n: nat, median: real, q1: real, q3: real, iqr: real)

  /** `_quartile_summary` of the cohort summariser. */
  function QuartileSummaryOf(values: seq<real>): Option<QuartileSummary> {
    if values == [] then None
    else
      var ordered := Sort(RealLe, values);
      var median := MedianOf(ordered);
      var q1 := if |values| == 1 then median else InclusiveQuartile(ordered, 1);
      var q3 := if |values| == 1 then median else InclusiveQuartile(ordered, 3);
      Some(QuartileSummary(|values|, median, q1, q3, q3 - q1))
  }

  lemma QuarterWeights(x: real, y: real, delta: nat)
    requires delta < 4
    ensures (x * (4 - delta) as real + y * delta as real) / 4.0 == Mix(x, y, delta as real * 0.25)
  {
    if delta == 0 {
      assert (x * 4.0 + y * 0.0) / 4.0 == x == Mix(x, y, 0.0);
    } else if delta == 1 {
      assert (x * 3.0 + y * 1.0) / 4.0 == Mix(x, y, 0.25);
    } else if delta == 2 {
      assert (x * 2.0 + y * 2.0) / 4.0 == Mix(x, y, 0.5);
    } else {
      assert (x * 1.0 + y * 3.0) / 4.0 == Mix(x, y, 0.75);
    }
  }

  lemma InclusiveIsPercentile(ordered: seq<real>, i: nat)
    requires |ordered| >= 2 && 1 <= i <= 3
    ensures InclusiveQuartile(ordered, i) == Percentile(ordered, i as real * 0.25)
  {
    var m := |ordered| - 1;
    var j, delta := i * m / 4, i * m % 4;
    var t := delta as real * 0.25;
    QuarterWeights(ordered[j], ordered[j + 1], delta);
    assert InclusiveQuartile(ordered, i) == Mix(ordered[j], ordered[j + 1], t);
    assert i * m == 4 * j + delta;
    assert Position(|ordered|, i as real * 0.25) == j as real + t by {
      assert m as real * (i as real * 0.25) == (i * m) as real * 0.25;
    }
    if delta == 0 {
      AtWholePosition(ordered, j);
    } else {
      AtFraction(ordered, j, t);
    }
    assert Interpolate(ordered, j as real + t) == Mix(ordered[j], ordered[j + 1], t);
  }

  lemma MedianIsPercentile(ordered: seq<real>)
    requires ordered != []
    ensures MedianOf(ordered) == Percentile(ordered, 0.5)
  {
    var m := |ordered| - 1;
    if m % 2 == 0 {
      assert m as real * 0.5 == (m / 2) as real;
      AtWholePosition(ordered, m / 2);
    } else {
      assert m as real * 0.5 == (m / 2) as real + 0.5;
      AtFraction(ordered, m / 2, 0.5);
    }
  }

  /** The two independently written quartile routines agree on every input. */
  lemma SummariserMatchesAuditor(values: seq<real>)
    ensures QuartileSummaryOf(values).Some? <==> Summarize(values).Some?
    ensures Summarize(values).Some? ==>
              var s := Summarize(values).value;
              QuartileSummaryOf(values).value == QuartileSummary(|values|, s.median, s.q1, s.q3, s.iqr)
  {
    if values != [] {
      var ordered := Sort(RealLe, values);
      MedianIsPercentile(ordered);
      if |values| >= 2 {
        InclusiveIsPercentile(ordered, 1);
        InclusiveIsPercentile(ordered, 3);
      }
    }
  }

  // ---------------------------------------------------------------- quartiles as ranks

  lemma InterpolateAt(ordered: seq<real>, j: nat)
    requires j < |ordered|
    ensures Interpolate(ordered, j as real) == ordered[j]
  {
  }

  /** With `4 * k + 1` values the quartiles are the values of ranks `k`, `2 * k` and `3 * k`. */
  lemma QuartilesAreRanks(values: seq<real>, k: nat)
    requires |values| == 4 * k + 1
    ensures var ordered := Sort(RealLe, values);
      Summarize(values) == Some(Summary(ordered[2 * k], ordered[k], ordered[3 * k], ordered[3 * k] - ordered[k]))
  {
    hide Interpolate, Sort;
    var ordered := Sort(RealLe, values);
    InterpolateAt(ordered, k);
    InterpolateAt(ordered, 2 * k);
    InterpolateAt(ordered, 3 * k);
    assert Position(|ordered|, 0.25) == k as real && Position(|ordered|, 0.5) == (2 * k) as real;
    assert Position(|ordered|, 0.75) == (3 * k) as real;
  }

  /** Between two values they lie a quarter, a half and three quarters of the way. */
  lemma QuartilesOfTwo(low: real, high: real)
    requires low <= high
    ensures Summarize([low, high]) ==
      Some(Summary((low + high) / 2.0, (3.0 * low + high) / 4.0, (low + 3.0 * high) / 4.0, (high - low) / 2.0))
  {
    SortOfTwo(low, high);
    hide Sort;
    var ordered := [low, high];
    assert Position(2, 0.25) == 0.25 && Position(2, 0.5) == 0.5 && Position(2, 0.75) == 0.75;
    Halfway(ordered, 0.25);
    Halfway(ordered, 0.5);
    Halfway(ordered, 0.75);
  }

  lemma Halfway(ordered: seq<real>, t: real)
    requires |ordered| == 2 && 0.0 <= t < 1.0
    ensures Interpolate(ordered, t) == Mix(ordered[0], ordered[1], t)
  {
    assert t.Floor == 0;
  }

  lemma SortOfTwo(low: real, high: real)
    requires low <= high
    ensures Sort(RealLe, [low, high]) == [low, high]
  {
    assert [low, high][..1] == [low] && [low][..0] == [];
    assert Sort(RealLe, [low]) == [low];
  }
}
