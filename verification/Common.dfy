/** Vocabulary shared by every component: optional and fallible results, the two experimental arms,
    and the Python string and list operations the evaluation scripts rely on. */
module Common {

  datatype Option<+T> = None | Some(value: T)

  datatype Result<+T, +E> = Ok(value: T) | Err(error: E)

  /** The two arms of every paired comparison. */
  datatype Condition = Baseline | Treatment {
    function Name(): string {
      if Baseline? then "baseline" else "treatment"
    }
  }

  ghost predicate Distinct<T>(s: seq<T>) {
    forall i, j :: 0 <= i < j < |s| ==> s[i] != s[j]
  }

  ghost predicate Permutation<T>(a: seq<T>, b: seq<T>) {
    multiset(a) == multiset(b)
  }

  lemma PermutationMembers<T>(a: seq<T>, b: seq<T>)
    requires Permutation(a, b)
    ensures |a| == |b|
    ensures forall x :: x in a <==> x in b
  {
    assert |multiset(a)| == |multiset(b)|;
    forall x ensures x in a <==> x in b {
      assert x in a <==> x in multiset(a);
    }
  }

  lemma PermutationDistinct<T>(a: seq<T>, b: seq<T>)
    requires Permutation(a, b) && Distinct(a)
    ensures Distinct(b)
  {
    DistinctIffSingle(a);
    DistinctIffSingle(b);
  }

  lemma {:induction false} DistinctIffSingle<T>(s: seq<T>)
    ensures Distinct(s) <==> forall x :: multiset(s)[x] <= 1
  {
    if s != [] {
      var rest := s[1..];
      DistinctIffSingle(rest);
      assert s == [s[0]] + rest;
      assert multiset(s) == multiset{s[0]} + multiset(rest);
      if Distinct(s) {
        assert s[0] !in rest;
        forall x ensures multiset(s)[x] <= 1 {
          assert multiset(rest)[x] <= 1;
        }
      }
      if forall x :: multiset(s)[x] <= 1 {
        forall x ensures multiset(rest)[x] <= 1 {
          assert multiset(rest)[x] <= multiset(s)[x];
        }
        assert multiset(s)[s[0]] == 1 + multiset(rest)[s[0]];
        assert s[0] !in multiset(rest);
        forall i, j | 0 <= i < j < |s| ensures s[i] != s[j] {
          assert s[j] == rest[j - 1];
          if i > 0 { assert s[i] == rest[i - 1]; } else { assert rest[j - 1] in multiset(rest); }
        }
      }
    }
  }

  function Members<T>(s: seq<T>): set<T> {
    set x | x in s
  }

  /** `len(set(xs)) == len(xs)` exactly when nothing repeats. */
  lemma {:induction false} DistinctIffCardinality<T>(s: seq<T>)
    ensures |Members(s)| <= |s|
    ensures Distinct(s) <==> |Members(s)| == |s|
  {
    if s != [] {
      var n := |s| - 1;
      var before, last := s[..n], s[n];
      DistinctIffCardinality(before);
      assert s == before + [last];
      assert Members(s) == Members(before) + {last};
      assert last in Members(before) <==> exists i :: 0 <= i < n && before[i] == last;
      assert Distinct(s) <==> Distinct(before) && last !in before;
    }
  }

  // ---------------------------------------------------------------- strings

  predicate StartsWith(s: string, prefix: string) {
    prefix <= s
  }

  predicate EndsWith(s: string, suffix: string) {
    |suffix| <= |s| && s[|s| - |suffix|..] == suffix
  }

  predicate OccursAt(s: string, needle: string, at: nat) {
    at + |needle| <= |s| && s[at..at + |needle|] == needle
  }

  /** `str.find`: the least position at which `needle` occurs, or None. */
  function Find(s: string, needle: string): (r: Option<nat>)
    ensures r.Some? ==> OccursAt(s, needle, r.value)
    ensures r.Some? ==> forall k: nat :: k < r.value ==> !OccursAt(s, needle, k)
    ensures r.None? ==> forall k: nat :: !OccursAt(s, needle, k)
  {
    if OccursAt(s, needle, 0) then Some(0)
    else if s == [] then None
    else
      var rest := Find(s[1..], needle);
      assert forall k: nat :: 0 < k ==> OccursAt(s, needle, k) == OccursAt(s[1..], needle, k - 1);
      if rest.None? then None else Some(rest.value + 1)
  }

  /** Splitting on one separator character: never empty, `k` separators give `k + 1` fields. */
  function Split(s: string, sep: char): (fields: seq<string>)
    ensures fields != []
    ensures sep !in s ==> fields == [s]
  {
    if s == [] then [[]]
    else
      var rest := Split(s[1..], sep);
      if s[0] == sep then [[]] + rest
      else
        assert sep !in s ==> rest[0] == s[1..] && s == [s[0]] + s[1..];
        [[s[0]] + rest[0]] + rest[1..]
  }

  lemma {:induction false} SplitFirst(first: string, rest: string, sep: char)
    requires sep !in first
    ensures Split(first + [sep] + rest, sep) == [first] + Split(rest, sep)
  {
    var s := first + [sep] + rest;
    if first == [] {
      assert s[1..] == rest;
    } else {
      assert s[1..] == first[1..] + [sep] + rest;
      SplitFirst(first[1..], rest, sep);
      assert [first[0]] + first[1..] == first;
    }
  }

  /** The first field is what stands before the first separator. */
  lemma {:induction false} FirstField(s: string, sep: char, first: string)
    ensures Split(s, sep)[0] == first <==> sep !in first && (s == first || first + [sep] <= s)
  {
    if s != [] && s[0] != sep && first != [] {
      FirstField(s[1..], sep, first[1..]);
      assert first == [first[0]] + first[1..] && s == [s[0]] + s[1..];
      assert first[0] == s[0] ==> (first + [sep] <= s <==> first[1..] + [sep] <= s[1..]);
    }
  }

  lemma SuffixIff(s: string, suffix: string)
    ensures EndsWith(s, suffix) <==> exists front :: s == front + suffix
  {
    if EndsWith(s, suffix) { assert s == s[..|s| - |suffix|] + suffix; }
  }
}
