/** Greedy stratified selection of target tasks: eligibility, a shuffled walk that skips repositories
    already taken, and the refusal when a stratum cannot be filled. */
module Selection {
  import opened Common
  import opened Grouping
  import opened Patch
  import opened Sequences

  const TASKS_PER_STRATUM := 4
  const MAX_PRODUCTION_TARGETS := 6
  const EXCLUDED_TASKS: set<string> := {"textual-richlog-follow-state"}

  datatype Stratum = Stratum(name: string, languages: set<string>, backend: string)

  const STRATA: seq<Stratum> := [
    Stratum("codeindex-python", {"python"}, "codeindex"),
    Stratum("codegraph-js-ts", {"javascript", "typescript"}, "codegraph"),
    Stratum("codegraph-go-rust", {"go", "rust"}, "codegraph")]

  /** A dataset entry: its metadata and, when the file exists, the lines of its solution patch. */
  datatype Entry = Entry(taskId: string, language: string, repository: string, patch: Option<seq<string>>)

  datatype Candidate = Candidate(
    taskId: string, language: string, repository: string, targets: seq<string>, kinds: Kinds)

  // ---------------------------------------------------------------- eligibility

  /** Entries whose patch is read at all. */
  predicate Considered(e: Entry) {
    e.taskId !in EXCLUDED_TASKS && e.patch.Some?
  }

  function CandidateOf(e: Entry): Candidate
    requires e.patch.Some?
  {
    var sections := Sections(e.patch.value);
    Candidate(e.taskId, e.language, e.repository, Production(sections), ByKind(sections))
  }

  /** Whether a stratum admits an entry: the right language and one to six production targets. */
  predicate Admits(s: Stratum, e: Entry) {
    Considered(e) && 1 <= |CandidateOf(e).targets| <= MAX_PRODUCTION_TARGETS && e.language in s.languages
  }

  function Admitted(s: Stratum, entries: seq<Entry>): seq<Candidate> {
    if entries == [] then []
    else
      var e := entries[|entries| - 1];
      Admitted(s, entries[..|entries| - 1]) + (if Admits(s, e) then [CandidateOf(e)] else [])
  }

  predicate Broken(e: Entry) {
    Considered(e) && FirstMalformed(e.patch.value).Some?
  }

  /** Entry `k` is the first whose patch is malformed, and `line` is the first malformed header of that patch. */
  ghost predicate BreaksFirst(entries: seq<Entry>, k: int, line: string) {
    0 <= k < |entries| && Broken(entries[k]) && FirstMalformed(entries[k].patch.value) == Some(line)
    && forall j :: 0 <= j < k ==> !Broken(entries[j])
  }

  ghost predicate LanguagesDisjoint(strata: seq<Stratum>) {
    forall i, j :: 0 <= i < j < |strata| ==> strata[i].languages !! strata[j].languages
  }

  ghost predicate NamesDistinct(strata: seq<Stratum>) {
    forall i, j :: 0 <= i < j < |strata| ==> strata[i].name != strata[j].name
  }

  lemma StrataAreWellFormed()
    ensures LanguagesDisjoint(STRATA) && NamesDistinct(STRATA) && |STRATA| == 3
  {
    assert STRATA[0].name[4] == 'i' && STRATA[1].name[10] == 'j' && STRATA[2].name[10] == 'g';
  }

  ghost predicate FiledUnder(strata: seq<Stratum>, entries: seq<Entry>, eligible: map<string, seq<Candidate>>) {
    && (forall s :: s in strata ==> s.name in eligible)
    && forall s :: s in strata ==> eligible[s.name] == Admitted(s, entries)
  }

  lemma AdmittedAppend(s: Stratum, entries: seq<Entry>, e: Entry)
    ensures Admitted(s, entries + [e]) ==
            if Admits(s, e) then Admitted(s, entries) + [CandidateOf(e)] else Admitted(s, entries)
  {
    assert (entries + [e])[..|entries|] == entries;
  }

  /** `_eligible_tasks`: read every patch, keep the entries of the right size, file each under the first
      stratum of its language. A malformed patch aborts the whole build. */
  method EligibleTasks(entries: seq<Entry>, strata: seq<Stratum>)
    returns (r: Result<map<string, seq<Candidate>>, string>)
    requires LanguagesDisjoint(strata) && NamesDistinct(strata)
    ensures r.Err? <==> exists i :: 0 <= i < |entries| && Broken(entries[i])
    ensures r.Err? ==> exists k :: BreaksFirst(entries, k, r.error)
    ensures r.Ok? ==> FiledUnder(strata, entries, r.value)
  {
    hide Sections, ByKind, Production;
    var eligible: map<string, seq<Candidate>> := map s | s in strata :: s.name := [];
    for i := 0 to |entries|
      invariant forall k :: 0 <= k < i ==> !Broken(entries[k])
      invariant FiledUnder(strata, entries[..i], eligible)
    {
      var e := entries[i];
      assert entries[..i + 1] == entries[..i] + [e];
      forall s { AdmittedAppend(s, entries[..i], e); }
      if e.taskId in EXCLUDED_TASKS || e.patch.None? {
        continue;
      }
      var targets := ProductionPaths(e.patch.value);
      if targets.Err? {
        assert BreaksFirst(entries, i, targets.error);
        return Err(targets.error);
      }
      var kinds := ProductionPathsByKind(e.patch.value);
      if !(1 <= |targets.value| <= MAX_PRODUCTION_TARGETS) {
        continue;
      }
      var candidate := Candidate(e.taskId, e.language, e.repository, targets.value, kinds.value);
      eligible := File(strata, e, candidate, eligible, entries[..i]);
    }
    assert entries[..|entries|] == entries;
    return Ok(eligible);
  }

  lemma AdmitsByLanguage(s: Stratum, e: Entry)
    requires Considered(e) && 1 <= |CandidateOf(e).targets| <= MAX_PRODUCTION_TARGETS
    ensures Admits(s, e) <==> e.language in s.languages
  {
  }

  /** The inner loop over strata: file the candidate under the first stratum of its language. */
  method File(strata: seq<Stratum>, e: Entry, candidate: Candidate, before: map<string, seq<Candidate>>,
              ghost entries: seq<Entry>)
    returns (eligible: map<string, seq<Candidate>>)
    requires LanguagesDisjoint(strata) && NamesDistinct(strata)
    requires Considered(e) && candidate == CandidateOf(e) && 1 <= |candidate.targets| <= MAX_PRODUCTION_TARGETS
    requires FiledUnder(strata, entries, before)
    ensures FiledUnder(strata, entries + [e], eligible)
  {
    hide Admitted, Admits, CandidateOf;
    forall s
      ensures Admitted(s, entries + [e]) ==
              if e.language in s.languages then Admitted(s, entries) + [candidate] else Admitted(s, entries)
    {
      AdmittedAppend(s, entries, e);
      AdmitsByLanguage(s, e);
    }
    for i := 0 to |strata|
      invariant forall k :: 0 <= k < i ==> e.language !in strata[k].languages
    {
      if e.language in strata[i].languages {
        var name := strata[i].name;
        eligible := before[name := before[name] + [candidate]];
        forall s | s in strata ensures s.name in eligible && eligible[s.name] == Admitted(s, entries + [e]) {
          var j :| 0 <= j < |strata| && strata[j] == s;
          assert j != i ==> s.name != name && e.language !in s.languages;
        }
        return;
      }
    }
    eligible := before;
  }

  // ---------------------------------------------------------------- one stratum

  function Repositories(cs: seq<Candidate>): set<string> {
    set c | c in cs :: c.repository
  }

  /** The candidates whose repository has not occurred before them. */
  function Firsts(cs: seq<Candidate>): (r: seq<Candidate>)
    ensures |r| <= |cs|
  {
    if cs == [] then []
    else
      var n := |cs| - 1;
      Firsts(cs[..n]) + (if cs[n].repository in Repositories(cs[..n]) then [] else [cs[n]])
  }

  lemma FirstsStep(cs: seq<Candidate>, i: nat)
    requires i < |cs|
    ensures Firsts(cs[..i + 1]) ==
            if cs[i].repository in Repositories(cs[..i]) then Firsts(cs[..i]) else Firsts(cs[..i]) + [cs[i]]
    ensures Repositories(cs[..i + 1]) == Repositories(cs[..i]) + {cs[i].repository}
  {
    assert cs[..i + 1][..i] == cs[..i];
    assert cs[..i + 1] == cs[..i] + [cs[i]];
  }

  lemma {:induction false} FirstsPrefix(cs: seq<Candidate>, i: nat)
    requires i <= |cs|
    ensures Firsts(cs[..i]) <= Firsts(cs)
    decreases |cs| - i
  {
    if i < |cs| {
      FirstsStep(cs, i);
      FirstsPrefix(cs, i + 1);
    } else {
      assert cs[..i] == cs;
    }
  }

  /** There is one first candidate per repository. */
  lemma {:induction false} FirstsCoverRepositories(cs: seq<Candidate>)
    ensures |Firsts(cs)| == |Repositories(cs)|
    ensures Repositories(Firsts(cs)) == Repositories(cs)
  {
    if cs != [] {
      var n := |cs| - 1;
      FirstsCoverRepositories(cs[..n]);
      FirstsStep(cs, n);
      assert cs[..n + 1] == cs;
      RepositoriesAppend(Firsts(cs[..n]), cs[n]);
    }
  }

  lemma RepositoriesAppend(cs: seq<Candidate>, c: Candidate)
    ensures Repositories(cs + [c]) == Repositories(cs) + {c.repository}
  {
  }

  lemma RepositorySeen(cs: seq<Candidate>, repository: string)
    ensures repository in Repositories(cs) <==> exists i :: 0 <= i < |cs| && cs[i].repository == repository
  {
    if i :| 0 <= i < |cs| && cs[i].repository == repository {
      assert cs[i] in cs;
    }
  }

  lemma {:induction false} FirstsDistinct(cs: seq<Candidate>)
    ensures forall i, j :: 0 <= i < j < |Firsts(cs)| ==> Firsts(cs)[i].repository != Firsts(cs)[j].repository
  {
    if cs != [] {
      var n := |cs| - 1;
      FirstsDistinct(cs[..n]);
      FirstsCoverRepositories(cs[..n]);
      RepositorySeen(Firsts(cs[..n]), cs[n].repository);
    }
  }

  /** `c` opens its repository at position `p` of the walk. */
  ghost predicate OpensAt(cs: seq<Candidate>, c: Candidate, p: nat) {
    p < |cs| && cs[p] == c && forall q :: 0 <= q < p ==> cs[q].repository != c.repository
  }

  /** `c` is the first candidate of its repository in the walk. */
  ghost predicate Opens(cs: seq<Candidate>, c: Candidate) {
    exists p: nat :: OpensAt(cs, c, p)
  }

  lemma {:induction false} FirstsOpen(cs: seq<Candidate>, c: Candidate)
    ensures c in Firsts(cs) <==> Opens(cs, c)
  {
    hide Firsts, Repositories;
    NothingTaken("");
    if cs != [] {
      var n := |cs| - 1;
      var before := cs[..n];
      FirstsOpen(before, c);
      FirstsStep(cs, n);
      assert cs[..n + 1] == cs;
      forall p: nat | p < n ensures OpensAt(before, c, p) <==> OpensAt(cs, c, p) {
        assert before[p] == cs[p];
        assert forall q :: 0 <= q < p ==> before[q] == cs[q];
      }
      RepositorySeen(before, c.repository);
      assert OpensAt(cs, c, n) <==> c == cs[n] && c.repository !in Repositories(before);
    }
  }

  /** First candidates keep the order of the walk. */
  lemma {:induction false} FirstsOrdered(cs: seq<Candidate>, a: nat, b: nat) returns (p: nat, q: nat)
    requires a < b < |Firsts(cs)|
    ensures p < q && OpensAt(cs, Firsts(cs)[a], p) && OpensAt(cs, Firsts(cs)[b], q)
  {
    hide Firsts, Repositories;
    NothingTaken("");
    var n := |cs| - 1;
    var before := cs[..n];
    FirstsStep(cs, n);
    assert cs[..n + 1] == cs;
    if b < |Firsts(before)| {
      p, q := FirstsOrdered(before, a, b);
    } else {
      assert Firsts(before)[a] in Firsts(before);
      FirstsOpen(before, Firsts(cs)[a]);
      p :| OpensAt(before, Firsts(cs)[a], p);
      q := n;
      RepositorySeen(before, cs[n].repository);
    }
    assert forall k :: 0 <= k < n ==> before[k] == cs[k];
  }

  // ---------------------------------------------------------------- the selection

  datatype Pick = Pick(stratum: string, candidate: Candidate)

  datatype Shortage = Shortage(stratum: string, count: nat)

  function TaggedWith(name: string): Pick -> bool {
    (p: Pick) => p.stratum == name
  }

  function Tag(name: string, cs: seq<Candidate>): (r: seq<Pick>)
    ensures |r| == |cs|
  {
    seq(|cs|, i requires 0 <= i < |cs| => Pick(name, cs[i]))
  }

  /** What one stratum contributes: its first candidates, at most four of them. */
  function Taken(walk: seq<Candidate>): seq<Candidate> {
    if |Firsts(walk)| <= TASKS_PER_STRATUM then Firsts(walk) else Firsts(walk)[..TASKS_PER_STRATUM]
  }

  function Contribution(walk: string -> seq<Candidate>): string -> seq<Pick> {
    name => Tag(name, Taken(walk(name)))
  }

  /** The first stratum, in order, that cannot supply four repositories. */
  function FirstShortage(names: seq<string>, walk: string -> seq<Candidate>): Option<Shortage> {
    if names == [] then None
    else if |Taken(walk(names[0]))| != TASKS_PER_STRATUM then Some(Shortage(names[0], |Taken(walk(names[0]))|))
    else FirstShortage(names[1..], walk)
  }

  lemma NothingTaken(name: string)
    ensures Tag(name, []) == [] && Firsts([]) == [] && Repositories([]) == {}
  {
  }

  lemma TagAppend(before: seq<Pick>, name: string, cs: seq<Candidate>, c: Candidate)
    ensures before + Tag(name, cs + [c]) == before + Tag(name, cs) + [Pick(name, c)]
  {
    assert Tag(name, cs + [c]) == Tag(name, cs) + [Pick(name, c)];
  }

  lemma CountContribution(before: seq<Pick>, name: string, cs: seq<Candidate>)
    requires Filter(TaggedWith(name), before) == []
    ensures |Filter(TaggedWith(name), before + Tag(name, cs))| == |cs|
  {
    FilterConcat(TaggedWith(name), before, Tag(name, cs));
    FilterAll(name, cs);
  }

  lemma {:induction false} FilterAll(name: string, cs: seq<Candidate>)
    ensures Filter(TaggedWith(name), Tag(name, cs)) == Tag(name, cs)
  {
    if cs != [] {
      var n := |cs| - 1;
      FilterAll(name, cs[..n]);
      assert Tag(name, cs) == Tag(name, cs[..n]) + [Pick(name, cs[n])];
      FilterAppend(TaggedWith(name), Tag(name, cs[..n]), Pick(name, cs[n]));
    }
  }

  /** The inner loop: walk one stratum, skipping repositories already taken, until four are selected. */
  method SelectStratum(name: string, walk: seq<Candidate>, before: seq<Pick>) returns (selected: seq<Pick>, count: nat)
    requires Filter(TaggedWith(name), before) == []
    ensures selected == before + Tag(name, Taken(walk))
    ensures count == |Taken(walk)|
  {
    hide Firsts, Repositories, Tag, Filter;
    NothingTaken(name);
    assert walk[..0] == [] && before + [] == before;
    selected := before;
    var repositories: set<string> := {};
    ghost var taken: seq<Candidate> := [];
    var i := 0;
    while i < |walk|
      invariant i <= |walk|
      invariant taken == Firsts(walk[..i]) && |taken| < TASKS_PER_STRATUM
      invariant selected == before + Tag(name, taken)
      invariant repositories == Repositories(walk[..i])
    {
      var candidate := walk[i];
      FirstsStep(walk, i);
      i := i + 1;
      if candidate.repository in repositories {
        continue;
      }
      TagAppend(before, name, taken, candidate);
      taken := taken + [candidate];
      selected := selected + [Pick(name, candidate)];
      repositories := repositories + {candidate.repository};
      CountContribution(before, name, taken);
      if |Filter(TaggedWith(name), selected)| == TASKS_PER_STRATUM {
        break;
      }
    }
    FirstsPrefix(walk, i);
    assert i == |walk| ==> walk[..i] == walk;
    assert taken == Taken(walk);
    CountContribution(before, name, taken);
    count := |Filter(TaggedWith(name), selected)|;
  }

  /** `_select`: the strata in order, each walked in its shuffled order. */
  method Select(names: seq<string>, walk: string -> seq<Candidate>) returns (r: Result<seq<Pick>, Shortage>)
    requires Distinct(names)
    ensures r.Err? <==> FirstShortage(names, walk).Some?
    ensures r.Err? ==> r.error == FirstShortage(names, walk).value
    ensures r.Ok? ==> r.value == FlatMap(Contribution(walk), names)
  {
    var selected: seq<Pick> := [];
    for i := 0 to |names|
      invariant selected == FlatMap(Contribution(walk), names[..i])
      invariant FirstShortage(names, walk) == FirstShortage(names[i..], walk)
    {
      OtherStrataOnly(names, walk, i);
      var count: nat;
      selected, count := SelectStratum(names[i], walk(names[i]), selected);
      FlatMapStep(Contribution(walk), names, i);
      assert names[i..][1..] == names[i + 1..];
      if count != TASKS_PER_STRATUM {
        return Err(Shortage(names[i], count));
      }
    }
    assert names[..|names|] == names;
    return Ok(selected);
  }

  lemma OtherStrataOnly(names: seq<string>, walk: string -> seq<Candidate>, i: nat)
    requires Distinct(names) && i < |names|
    ensures Filter(TaggedWith(names[i]), FlatMap(Contribution(walk), names[..i])) == []
  {
    forall j | 0 <= j < i ensures Filter(TaggedWith(names[i]), Contribution(walk)(names[..i][j])) == [] {
      FilterNone(TaggedWith(names[i]), Contribution(walk)(names[j]));
    }
    FilterNoBlock(TaggedWith(names[i]), Contribution(walk), names[..i]);
  }

  // ---------------------------------------------------------------- what selection guarantees

  /** A walk visits exactly the eligible candidates of each stratum, in any order. */
  ghost predicate WalksOf(names: seq<string>, eligible: map<string, seq<Candidate>>, walk: string -> seq<Candidate>) {
    forall i :: 0 <= i < |names| ==> names[i] in eligible && Permutation(walk(names[i]), eligible[names[i]])
  }

  lemma {:induction false} NoShortageIff(names: seq<string>, walk: string -> seq<Candidate>)
    ensures FirstShortage(names, walk).None? <==>
            forall i :: 0 <= i < |names| ==> |Repositories(walk(names[i]))| >= TASKS_PER_STRATUM
  {
    if names != [] {
      NoShortageIff(names[1..], walk);
      FirstsCoverRepositories(walk(names[0]));
      assert forall i :: 1 <= i < |names| ==> names[1..][i - 1] == names[i];
      assert forall i :: 0 <= i < |names[1..]| ==> names[1..][i] == names[i + 1];
    }
  }

  /** Success does not depend on the shuffle: it happens exactly when every stratum has at least four
      distinct repositories. */
  lemma {:induction false} SelectionSucceedsIff(names: seq<string>, eligible: map<string, seq<Candidate>>,
      walk: string -> seq<Candidate>)
    requires WalksOf(names, eligible, walk)
    ensures FirstShortage(names, walk).None? <==>
            forall i :: 0 <= i < |names| ==> |Repositories(eligible[names[i]])| >= TASKS_PER_STRATUM
  {
    NoShortageIff(names, walk);
    forall i | 0 <= i < |names| ensures Repositories(walk(names[i])) == Repositories(eligible[names[i]]) {
      PermutationMembers(walk(names[i]), eligible[names[i]]);
    }
  }

  /** On failure the reported stratum is the first that falls short, with its true repository count. */
  lemma {:induction false} ShortageIsTheFirst(names: seq<string>, walk: string -> seq<Candidate>) returns (k: nat)
    requires FirstShortage(names, walk).Some?
    ensures k < |names|
    ensures FirstShortage(names, walk).value == Shortage(names[k], |Repositories(walk(names[k]))|)
    ensures |Repositories(walk(names[k]))| < TASKS_PER_STRATUM
    ensures forall i :: 0 <= i < k ==> |Repositories(walk(names[i]))| >= TASKS_PER_STRATUM
  {
    FirstsCoverRepositories(walk(names[0]));
    if |Taken(walk(names[0]))| != TASKS_PER_STRATUM {
      k := 0;
    } else {
      var j := ShortageIsTheFirst(names[1..], walk);
      k := j + 1;
      assert forall i :: 1 <= i < k ==> names[i] == names[1..][i - 1];
    }
  }

  /** On success every stratum contributes exactly four picks from four repositories, and each pick is the
      candidate that opens its repository in the shuffled walk. */
  lemma PicksAreFirst(names: seq<string>, walk: string -> seq<Candidate>, i: nat)
    requires FirstShortage(names, walk).None? && i < |names|
    ensures var picks := Contribution(walk)(names[i]);
            && |picks| == TASKS_PER_STRATUM
            && (forall a :: 0 <= a < |picks| ==> picks[a].stratum == names[i])
            && (forall a, b :: 0 <= a < b < |picks| ==>
                  picks[a].candidate.repository != picks[b].candidate.repository)
            && (forall a :: 0 <= a < |picks| ==> Opens(walk(names[i]), picks[a].candidate))
  {
    hide Firsts, Repositories, Opens;
    var cs := walk(names[i]);
    NoShortageIff(names, walk);
    FirstsCoverRepositories(cs);
    FirstsDistinct(cs);
    var picks := Contribution(walk)(names[i]);
    assert |Firsts(cs)| >= TASKS_PER_STRATUM;
    forall a | 0 <= a < TASKS_PER_STRATUM
      ensures picks[a] == Pick(names[i], Firsts(cs)[a]) && Opens(cs, picks[a].candidate)
    {
      assert Firsts(cs)[a] in Firsts(cs);
      FirstsOpen(cs, Firsts(cs)[a]);
    }
    forall a, b | 0 <= a < b < TASKS_PER_STRATUM
      ensures picks[a].candidate.repository != picks[b].candidate.repository
    {
      assert picks[a] == Pick(names[i], Firsts(cs)[a]) && picks[b] == Pick(names[i], Firsts(cs)[b]);
    }
    assert |picks| == TASKS_PER_STRATUM;
  }

  /** Within a stratum the picks follow the shuffled walk. */
  lemma PicksFollowTheWalk(names: seq<string>, walk: string -> seq<Candidate>, i: nat, a: nat, b: nat)
    returns (p: nat, q: nat)
    requires FirstShortage(names, walk).None? && i < |names| && a < b < TASKS_PER_STRATUM
    ensures |Contribution(walk)(names[i])| == TASKS_PER_STRATUM && p < q
    ensures OpensAt(walk(names[i]), Contribution(walk)(names[i])[a].candidate, p)
    ensures OpensAt(walk(names[i]), Contribution(walk)(names[i])[b].candidate, q)
  {
    PicksAreFirst(names, walk, i);
    p, q := FirstsOrdered(walk(names[i]), a, b);
  }

  /** The selection lists four picks per stratum, strata in order. */
  lemma SelectionShape(names: seq<string>, walk: string -> seq<Candidate>)
    requires FirstShortage(names, walk).None?
    ensures |FlatMap(Contribution(walk), names)| == |names| * TASKS_PER_STRATUM
  {
    forall i | 0 <= i < |names| ensures |Contribution(walk)(names[i])| == TASKS_PER_STRATUM {
      PicksAreFirst(names, walk, i);
    }
    FlatMapLength(Contribution(walk), names, TASKS_PER_STRATUM);
  }

  // ---------------------------------------------------------------- eligibility read off the entries

  lemma {:induction false} AdmittedMembers(s: Stratum, entries: seq<Entry>, c: Candidate)
    ensures c in Admitted(s, entries) <==>
        exists i :: 0 <= i < |entries| && Admits(s, entries[i]) && c == CandidateOf(entries[i])
  {
    hide Admits, CandidateOf;
    if entries != [] {
      var n := |entries| - 1;
      AdmittedMembers(s, entries[..n], c);
      assert forall i :: 0 <= i < n ==> entries[..n][i] == entries[i];
    }
  }

  /** The candidate an entry becomes, field by field, where a stratum of these languages may take it. */
  predicate Offers(e: Entry, languages: set<string>, c: Candidate) {
    && e.taskId != "textual-richlog-follow-state" && e.patch.Some? && e.language in languages
    && c.taskId == e.taskId && c.language == e.language && c.repository == e.repository
    && c.targets == Production(Sections(e.patch.value)) && 1 <= |c.targets| <= 6
    && c.kinds == ByKind(Sections(e.patch.value))
  }

  /** What is eligible where: each stratum by its name, its languages and the entries it takes. */
  lemma EligibleOnFields(entries: seq<Entry>, eligible: map<string, seq<Candidate>>, c: Candidate)
    requires FiledUnder(STRATA, entries, eligible)
    ensures "codeindex-python" in eligible && "codegraph-js-ts" in eligible && "codegraph-go-rust" in eligible
    ensures c in eligible["codeindex-python"] <==> exists e :: e in entries && Offers(e, {"python"}, c)
    ensures c in eligible["codegraph-js-ts"] <==> exists e :: e in entries && Offers(e, {"javascript", "typescript"}, c)
    ensures c in eligible["codegraph-go-rust"] <==> exists e :: e in entries && Offers(e, {"go", "rust"}, c)
  {
    hide Sections, Production, ByKind;
    assert STRATA[0] in STRATA && STRATA[1] in STRATA && STRATA[2] in STRATA;
    assert STRATA[0].name == "codeindex-python" && STRATA[1].name == "codegraph-js-ts"
        && STRATA[2].name == "codegraph-go-rust";
    forall k | 0 <= k < 3
      ensures c in Admitted(STRATA[k], entries) <==> exists e :: e in entries && Offers(e, STRATA[k].languages, c)
    {
      OfferedIn(STRATA[k], entries, c);
    }
    hide Offers, Admitted;
  }

  lemma OfferedIn(s: Stratum, entries: seq<Entry>, c: Candidate)
    ensures c in Admitted(s, entries) <==> exists e :: e in entries && Offers(e, s.languages, c)
  {
    hide Sections, Production, ByKind, Admitted;
    AdmittedMembers(s, entries, c);
    forall e ensures Offers(e, s.languages, c) <==> Admits(s, e) && c == CandidateOf(e) {
      OfferIff(s, e, c);
    }
    hide Offers, Admits, CandidateOf;
    if e :| e in entries && Offers(e, s.languages, c) {
      var i :| 0 <= i < |entries| && entries[i] == e;
    }
  }

  lemma OfferIff(s: Stratum, e: Entry, c: Candidate)
    ensures Offers(e, s.languages, c) <==> Admits(s, e) && c == CandidateOf(e)
  {
    hide Sections, Production, ByKind;
    assert "textual-richlog-follow-state" in EXCLUDED_TASKS;
  }

  /** An entry that breaks the build: not the excluded task, with a patch, and in it a header without a target. */
  lemma BrokenIff(e: Entry)
    ensures Broken(e) <==>
      (e.taskId != "textual-richlog-follow-state" && e.patch.Some?
       && exists i :: 0 <= i < |e.patch.value| && NoTarget(e.patch.value[i]))
  {
    hide NoTarget, Malformed;
    assert "textual-richlog-follow-state" in EXCLUDED_TASKS;
    if e.patch.Some? {
      forall i | 0 <= i < |e.patch.value| ensures Malformed(e.patch.value[i]) <==> NoTarget(e.patch.value[i]) {
        NoTargetIff(e.patch.value[i]);
      }
    }
  }
}
