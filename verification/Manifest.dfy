/** The frozen target manifest between its producer and its two consumers: the cohort driver, which
    insists on twelve tasks in three strata of four, and the summariser, which scores against it. */
module Manifest {
  import opened Common
  import opened Grouping
  import opened Patch
  import opened Paths
  import opened Selection
  import opened Sequences
  import opened Sorting

  const FROZEN_TASK_COUNT := 12

  datatype ManifestTask = ManifestTask(
    taskId: string, stratum: string, language: string, backend: string, repository: string,
    production: Option<seq<string>>, existing: Option<seq<string>>, created: Option<seq<string>>)

  // ---------------------------------------------------------------- the producer

  const NAMES: seq<string> := [STRATA[0].name, STRATA[1].name, STRATA[2].name]

  function BackendOf(stratum: string): string {
    if stratum == STRATA[0].name then STRATA[0].backend
    else if stratum == STRATA[1].name then STRATA[1].backend
    else STRATA[2].backend
  }

  function TaskOf(p: Pick): ManifestTask {
    var c := p.candidate;
    ManifestTask(c.taskId, p.stratum, c.language, BackendOf(p.stratum), c.repository,
                 Some(c.targets), Some(c.kinds.existing), Some(c.kinds.created))
  }

  function IdOf(c: Candidate): string {
    c.taskId
  }

  ghost predicate Shuffles(shuffle: seq<Candidate> -> seq<Candidate>) {
    forall cs :: Permutation(shuffle(cs), cs)
  }

  /** The candidates of a stratum sorted by task id and then shuffled. */
  function WalkOf(eligible: map<string, seq<Candidate>>,
      shuffle: seq<Candidate> -> seq<Candidate>): string -> seq<Candidate> {
    name => if name in eligible then shuffle(Sort(ByText(IdOf), eligible[name])) else []
  }

  datatype BuildError =
    | MalformedPatch(line: string)
    | TooFewRepositories(shortage: Shortage)
    | MissingDigest(taskId: string)

  /** The name under which the dataset lists a task's digest. */
  function DigestName(p: Pick): string {
    "datacurve/" + p.candidate.taskId
  }

  /** `build_manifest`; `digests` are the names the dataset lists. The eligible candidates are returned as well, for
      specification only. */
  method BuildManifest(entries: seq<Entry>, shuffle: seq<Candidate> -> seq<Candidate>, digests: set<string>)
    returns (r: Result<seq<ManifestTask>, BuildError>, ghost eligible: map<string, seq<Candidate>>)
    ensures (r.Err? && r.error.MalformedPatch?) <==> exists i :: 0 <= i < |entries| && Broken(entries[i])
    ensures r.Err? && r.error.MalformedPatch? ==> exists k :: BreaksFirst(entries, k, r.error.line)
    ensures r.Ok? || !r.error.MalformedPatch? ==> FiledUnder(STRATA, entries, eligible)
    ensures r.Err? && r.error.TooFewRepositories? ==>
              FirstShortage(NAMES, WalkOf(eligible, shuffle)) == Some(r.error.shortage)
    ensures r.Ok? || r.error.MissingDigest? ==> FirstShortage(NAMES, WalkOf(eligible, shuffle)).None?
    ensures var picks := FlatMap(Contribution(WalkOf(eligible, shuffle)), NAMES);
            && (r.Ok? ==> r.value == Map(TaskOf, picks)
                          && forall k :: 0 <= k < |picks| ==> DigestName(picks[k]) in digests)
            && (r.Err? && r.error.MissingDigest? ==>
                  exists k :: UnlistedFirst(picks, digests, k, r.error.taskId))
  {
    hide WalkOf, FirstShortage, Contribution, FiledUnder;
    eligible := map[];
    StrataAreWellFormed();
    NamesAreDistinct();
    var filed := EligibleTasks(entries, STRATA);
    if filed.Err? {
      return Err(MalformedPatch(filed.error)), eligible;
    }
    eligible := filed.value;
    var selected := Select(NAMES, WalkOf(filed.value, shuffle));
    if selected.Err? {
      return Err(TooFewRepositories(selected.error)), eligible;
    }
    var described := Describe(selected.value, digests);
    return described, eligible;
  }

  /** Pick `k`, of task `id`, is the first whose digest is not listed. */
  predicate UnlistedFirst(picks: seq<Pick>, digests: set<string>, k: int, id: string) {
    0 <= k < |picks| && picks[k].candidate.taskId == id
    && DigestName(picks[k]) !in digests && forall j :: 0 <= j < k ==> DigestName(picks[j]) in digests
  }

  /** The loop that turns picks into manifest rows, looking up each task's digest. */
  method Describe(picks: seq<Pick>, digests: set<string>) returns (r: Result<seq<ManifestTask>, BuildError>)
    ensures r.Ok? ==> r.value == Map(TaskOf, picks) && forall k :: 0 <= k < |picks| ==> DigestName(picks[k]) in digests
    ensures r.Err? ==> r.error.MissingDigest?
    ensures r.Err? ==> exists k :: UnlistedFirst(picks, digests, k, r.error.taskId)
  {
    hide TaskOf, DigestName;
    var tasks := [];
    for i := 0 to |picks|
      invariant tasks == Map(TaskOf, picks[..i])
      invariant forall j :: 0 <= j < i ==> DigestName(picks[j]) in digests
    {
      if DigestName(picks[i]) !in digests {
        assert UnlistedFirst(picks, digests, i, picks[i].candidate.taskId);
        return Err(MissingDigest(picks[i].candidate.taskId));
      }
      assert picks[..i + 1][..i] == picks[..i];
      tasks := tasks + [TaskOf(picks[i])];
    }
    assert picks[..|picks|] == picks;
    return Ok(tasks);
  }

  lemma NamesAreDistinct()
    ensures Distinct(NAMES) && |NAMES| == 3
    ensures forall i :: 0 <= i < 3 ==> NAMES[i] == STRATA[i].name && NAMES[i] != ""
  {
    StrataAreWellFormed();
  }

  // ---------------------------------------------------------------- the driver's frozen check

  datatype LoadError =
    | EmptyTaskId
    | DuplicateTaskIds
    | EmptyField
    | WrongTaskCount(count: nat)
    | WrongStrata

  function InStratum(name: string): ManifestTask -> bool {
    (t: ManifestTask) => t.stratum == name
  }

  function StrataOf(tasks: seq<ManifestTask>): set<string> {
    set t | t in tasks :: t.stratum
  }

  /** Three strata of four tasks each. */
  predicate Balanced(tasks: seq<ManifestTask>) {
    |StrataOf(tasks)| == 3 && forall s | s in StrataOf(tasks) :: |Filter(InStratum(s), tasks)| == TASKS_PER_STRATUM
  }

  predicate FieldsPresent(t: ManifestTask) {
    t.stratum != "" && t.language != "" && t.backend != ""
  }

  function IdsOf(tasks: seq<ManifestTask>): (ids: seq<string>)
    ensures |ids| == |tasks|
  {
    seq(|tasks|, i requires 0 <= i < |tasks| => tasks[i].taskId)
  }

  /** The first complaint of the frozen check, in its order. */
  ghost function Complaint(tasks: seq<ManifestTask>): Option<LoadError> {
    if exists i :: 0 <= i < |tasks| && tasks[i].taskId == "" then Some(EmptyTaskId)
    else if !Distinct(IdsOf(tasks)) then Some(DuplicateTaskIds)
    else if exists i :: 0 <= i < |tasks| && !FieldsPresent(tasks[i]) then Some(EmptyField)
    else if |tasks| != FROZEN_TASK_COUNT then Some(WrongTaskCount(|tasks|))
    else if !Balanced(tasks) then Some(WrongStrata)
    else None
  }

  ghost predicate Counted(tasks: seq<ManifestTask>, counts: map<string, nat>) {
    counts.Keys == StrataOf(tasks) && forall s :: s in counts ==> counts[s] == |Filter(InStratum(s), tasks)|
  }

  /** `counts[stratum] = counts.get(stratum, 0) + 1` over all rows. */
  method CountStrata(tasks: seq<ManifestTask>) returns (counts: map<string, nat>)
    ensures Counted(tasks, counts)
  {
    counts := map[];
    for i := 0 to |tasks|
      invariant Counted(tasks[..i], counts)
    {
      CountStep(tasks[..i], tasks[i], counts);
      assert tasks[..i + 1] == tasks[..i] + [tasks[i]];
      var s := tasks[i].stratum;
      counts := counts[s := (if s in counts then counts[s] else 0) + 1];
    }
    assert tasks[..|tasks|] == tasks;
  }

  lemma CountStep(tasks: seq<ManifestTask>, t: ManifestTask, counts: map<string, nat>)
    requires Counted(tasks, counts)
    ensures Counted(tasks + [t], counts[t.stratum := (if t.stratum in counts then counts[t.stratum] else 0) + 1])
  {
    assert StrataOf(tasks + [t]) == StrataOf(tasks) + {t.stratum};
    if t.stratum !in counts {
      FilterNone(InStratum(t.stratum), tasks);
    }
    forall s ensures |Filter(InStratum(s), tasks + [t])|
        == |Filter(InStratum(s), tasks)| + (if s == t.stratum then 1 else 0)
    {
      FilterAppend(InStratum(s), tasks, t);
    }
  }

  /** `load_target_manifest` of the cohort driver, with the frozen requirement on. */
  method LoadFrozen(tasks: seq<ManifestTask>) returns (r: Result<seq<ManifestTask>, LoadError>)
    ensures r.Ok? <==> Complaint(tasks).None?
    ensures r.Ok? ==> r.value == tasks
    ensures r.Err? ==> Complaint(tasks) == Some(r.error)
  {
    for i := 0 to |tasks|
      invariant forall k :: 0 <= k < i ==> tasks[k].taskId != ""
    {
      if tasks[i].taskId == "" { return Err(EmptyTaskId); }
    }
    DistinctIffCardinality(IdsOf(tasks));
    if |Members(IdsOf(tasks))| != |tasks| { return Err(DuplicateTaskIds); }
    for i := 0 to |tasks|
      invariant forall k :: 0 <= k < i ==> FieldsPresent(tasks[k])
    {
      if !FieldsPresent(tasks[i]) { return Err(EmptyField); }
    }
    if |tasks| != FROZEN_TASK_COUNT { return Err(WrongTaskCount(|tasks|)); }
    var counts := CountStrata(tasks);
    BalancedIffCounts(tasks, counts);
    if counts.Values != {TASKS_PER_STRATUM} || |counts| != 3 { return Err(WrongStrata); }
    return Ok(tasks);
  }

  lemma BalancedIffCounts(tasks: seq<ManifestTask>, counts: map<string, nat>)
    requires Counted(tasks, counts) && |tasks| > 0
    ensures Balanced(tasks) <==> counts.Values == {TASKS_PER_STRATUM} && |counts| == 3
  {
    assert |counts| == |counts.Keys|;
    assert tasks[0] in tasks && tasks[0].stratum in counts;
    if counts.Values == {TASKS_PER_STRATUM} {
      forall s | s in counts ensures counts[s] == TASKS_PER_STRATUM { assert counts[s] in counts.Values; }
    }
    if Balanced(tasks) {
      assert counts[tasks[0].stratum] in counts.Values;
      assert forall v :: v in counts.Values ==> v == TASKS_PER_STRATUM;
    }
  }

  // ---------------------------------------------------------------- producer and driver agree

  /** `p` is one of the picks, taken from an entry its stratum admits. */
  lemma PickComesFrom(entries: seq<Entry>, eligible: map<string, seq<Candidate>>,
      shuffle: seq<Candidate> -> seq<Candidate>,
                      i: nat, p: Pick) returns (e: Entry)
    requires FiledUnder(STRATA, entries, eligible) && Shuffles(shuffle) && i < 3
    requires p in Contribution(WalkOf(eligible, shuffle))(NAMES[i])
    ensures e in entries && Admits(STRATA[i], e) && p == Pick(NAMES[i], CandidateOf(e))
  {
    hide Firsts, Admits, CandidateOf, Sort;
    NamesAreDistinct();
    var name := NAMES[i];
    assert STRATA[i] in STRATA;
    var sorted := Sort(ByText(IdOf), eligible[name]);
    var walk := shuffle(sorted);
    assert WalkOf(eligible, shuffle)(name) == walk;
    assert p.candidate in Firsts(walk);
    FirstsOpen(walk, p.candidate);
    var k: nat :| OpensAt(walk, p.candidate, k);
    PermutationMembers(walk, sorted);
    PermutationMembers(sorted, eligible[name]);
    assert p.candidate in walk;
    e := AdmittedEntry(STRATA[i], entries, p.candidate);
  }

  lemma {:induction false} AdmittedEntry(s: Stratum, entries: seq<Entry>, c: Candidate) returns (e: Entry)
    requires c in Admitted(s, entries)
    ensures e in entries && Admits(s, e) && CandidateOf(e) == c
  {
    hide Admits, CandidateOf;
    var n := |entries| - 1;
    if c in Admitted(s, entries[..n]) {
      e := AdmittedEntry(s, entries[..n], c);
    } else {
      e := entries[n];
    }
  }

  lemma PicksOfStratum(walk: string -> seq<Candidate>, i: nat)
    requires i < 3
    ensures Filter(TaggedWith(NAMES[i]), FlatMap(Contribution(walk), NAMES)) == Contribution(walk)(NAMES[i])
  {
    hide Taken;
    NamesAreDistinct();
    forall j | 0 <= j < 3 && j != i ensures Filter(TaggedWith(NAMES[i]), Contribution(walk)(NAMES[j])) == [] {
      assert NAMES[i] != NAMES[j];
      FilterNone(TaggedWith(NAMES[i]), Contribution(walk)(NAMES[j]));
    }
    FilterOneBlock(TaggedWith(NAMES[i]), Contribution(walk), NAMES, i);
    FilterAll(NAMES[i], Taken(walk(NAMES[i])));
  }

  function Built(walk: string -> seq<Candidate>): seq<ManifestTask> {
    Map(TaskOf, FlatMap(Contribution(walk), NAMES))
  }

  lemma StratumCount(walk: string -> seq<Candidate>, i: nat)
    requires FirstShortage(NAMES, walk).None? && i < 3
    ensures |Filter(InStratum(NAMES[i]), Built(walk))| == TASKS_PER_STRATUM
  {
    NamesAreDistinct();
    PicksOfStratum(walk, i);
    PicksAreFirst(NAMES, walk, i);
    FilterMap(InStratum(NAMES[i]), TaskOf, TaggedWith(NAMES[i]), FlatMap(Contribution(walk), NAMES));
  }

  lemma BuiltMember(walk: string -> seq<Candidate>, t: ManifestTask) returns (i: nat, p: Pick)
    requires t in Built(walk)
    ensures i < 3 && p in Contribution(walk)(NAMES[i]) && p.stratum == NAMES[i] && t == TaskOf(p)
  {
    hide Taken;
    NamesAreDistinct();
    MapMember(TaskOf, FlatMap(Contribution(walk), NAMES), t);
    p :| p in FlatMap(Contribution(walk), NAMES) && TaskOf(p) == t;
    FlatMapMember(Contribution(walk), NAMES, p);
    i :| 0 <= i < 3 && p in Contribution(walk)(NAMES[i]);
  }

  lemma BuiltIsBalanced(walk: string -> seq<Candidate>)
    requires FirstShortage(NAMES, walk).None?
    ensures |Built(walk)| == FROZEN_TASK_COUNT && Balanced(Built(walk))
  {
    hide Taken, TaskOf;
    NamesAreDistinct();
    SelectionShape(NAMES, walk);
    var tasks := Built(walk);
    forall i: nat | i < 3
        ensures NAMES[i] in StrataOf(tasks) && |Filter(InStratum(NAMES[i]), tasks)| == TASKS_PER_STRATUM
    {
      StratumCount(walk, i);
      FilterMembers(InStratum(NAMES[i]), tasks);
      var t := Filter(InStratum(NAMES[i]), tasks)[0];
      assert t in Filter(InStratum(NAMES[i]), tasks);
    }
    forall s | s in StrataOf(tasks) ensures s in Members(NAMES) {
      var t :| t in tasks && t.stratum == s;
      var i, p := BuiltMember(walk, t);
      TaskStratum(p);
    }
    assert StrataOf(tasks) == Members(NAMES) by {
      assert forall s :: s in Members(NAMES) ==> s == NAMES[0] || s == NAMES[1] || s == NAMES[2];
    }
    DistinctIffCardinality(NAMES);
  }

  lemma TaskStratum(p: Pick)
    ensures TaskOf(p).stratum == p.stratum && TaskOf(p).taskId == p.candidate.taskId
  {
  }

  /** A built manifest passes the driver's frozen check exactly when its task ids are present and unique;
      every other requirement holds by construction. */
  lemma FrozenAcceptsIff(entries: seq<Entry>, eligible: map<string, seq<Candidate>>,
      shuffle: seq<Candidate> -> seq<Candidate>)
    requires FiledUnder(STRATA, entries, eligible) && Shuffles(shuffle)
    requires FirstShortage(NAMES, WalkOf(eligible, shuffle)).None?
    ensures var tasks := Built(WalkOf(eligible, shuffle));
            Complaint(tasks).None? <==>
            Distinct(IdsOf(tasks)) && forall i :: 0 <= i < |tasks| ==> tasks[i].taskId != ""
  {
    hide FirstShortage, Balanced, WalkOf, Built, FieldsPresent, FiledUnder, Admits, CandidateOf, TaskOf, Contribution;
    hide Shuffles;
    var walk := WalkOf(eligible, shuffle);
    var tasks := Built(walk);
    BuiltIsBalanced(walk);
    forall i | 0 <= i < |tasks| ensures FieldsPresent(tasks[i]) {
      var j, p := BuiltMember(walk, tasks[i]);
      var e := PickComesFrom(entries, eligible, shuffle, j, p);
      FieldsOfPick(j, p, e);
    }
  }

  lemma FieldsOfPick(i: nat, p: Pick, e: Entry)
    requires i < 3 && Admits(STRATA[i], e) && p == Pick(NAMES[i], CandidateOf(e))
    ensures FieldsPresent(TaskOf(p))
  {
    hide Considered, Sections, Production, ByKind;
    NamesAreDistinct();
  }

  /** In particular a dataset whose entries have present and unique ids builds an accepted manifest whenever its strata
      can be filled. */
  lemma UniqueDatasetIsAccepted(entries: seq<Entry>, eligible: map<string, seq<Candidate>>,
      shuffle: seq<Candidate> -> seq<Candidate>)
    requires FiledUnder(STRATA, entries, eligible) && Shuffles(shuffle)
    requires FirstShortage(NAMES, WalkOf(eligible, shuffle)).None?
    requires forall e :: e in entries ==> e.taskId != ""
    requires forall e, f :: e in entries && f in entries && e.taskId == f.taskId ==> e == f
    ensures Complaint(Built(WalkOf(eligible, shuffle))).None?
  {
    hide FirstShortage, WalkOf, TaskOf, Complaint;
    var walk := WalkOf(eligible, shuffle);
    var picks, tasks := FlatMap(Contribution(walk), NAMES), Built(walk);
    FrozenAcceptsIff(entries, eligible, shuffle);
    forall i | 0 <= i < |tasks| ensures tasks[i].taskId != "" {
      var j, p := BuiltMember(walk, tasks[i]);
      var e := PickComesFrom(entries, eligible, shuffle, j, p);
      TaskStratum(p);
      assert p.candidate.taskId == e.taskId by { SameId(e); }
    }
    PickIdsDistinct(entries, eligible, shuffle);
    IdsOfMapped(picks);
  }

  lemma {:induction false} IdsOfMapped(picks: seq<Pick>)
    ensures IdsOf(Map(TaskOf, picks)) == Map(PickId, picks)
  {
    hide TaskOf;
    forall i | 0 <= i < |picks| ensures IdsOf(Map(TaskOf, picks))[i] == Map(PickId, picks)[i] {
      MapAt(TaskOf, picks, i);
      MapAt(PickId, picks, i);
      TaskStratum(picks[i]);
    }
  }

  lemma SameId(e: Entry)
    requires e.patch.Some?
    ensures CandidateOf(e).taskId == e.taskId && CandidateOf(e).repository == e.repository
  {
  }

  function PickId(p: Pick): string {
    p.candidate.taskId
  }

  function PickIds(walk: string -> seq<Candidate>): string -> seq<string> {
    name => Map(PickId, Contribution(walk)(name))
  }

  lemma {:induction false} MapFlatMap<A, B, C>(g: B -> C, f: A -> seq<B>, h: A -> seq<C>, xs: seq<A>)
    requires forall i :: 0 <= i < |xs| ==> h(xs[i]) == Map(g, f(xs[i]))
    ensures Map(g, FlatMap(f, xs)) == FlatMap(h, xs)
  {
    if xs != [] {
      var n := |xs| - 1;
      MapFlatMap(g, f, h, xs[..n]);
      MapConcat(g, FlatMap(f, xs[..n]), f(xs[n]));
      assert h(xs[n]) == Map(g, f(xs[n]));
    }
  }

  lemma {:induction false} MapConcat<B, C>(g: B -> C, a: seq<B>, b: seq<B>)
    ensures Map(g, a + b) == Map(g, a) + Map(g, b)
  {
    if b == [] {
      assert a + b == a;
    } else {
      assert (a + b)[..|a + b| - 1] == a + b[..|b| - 1];
      MapConcat(g, a, b[..|b| - 1]);
    }
  }

  lemma PickIdsDistinct(entries: seq<Entry>, eligible: map<string, seq<Candidate>>,
      shuffle: seq<Candidate> -> seq<Candidate>)
    requires FiledUnder(STRATA, entries, eligible) && Shuffles(shuffle)
    requires FirstShortage(NAMES, WalkOf(eligible, shuffle)).None?
    requires forall e, f :: e in entries && f in entries && e.taskId == f.taskId ==> e == f
    ensures Distinct(Map(PickId, FlatMap(Contribution(WalkOf(eligible, shuffle)), NAMES)))
  {
    hide FirstShortage, WalkOf, Taken, Admits, CandidateOf;
    var walk := WalkOf(eligible, shuffle);
    var f := PickIds(walk);
    NamesAreDistinct();
    forall i: nat | i < 3 ensures Distinct(f(NAMES[i])) {
      StratumIdsDistinct(entries, eligible, shuffle, i);
    }
    forall i, j, id | 0 <= i < j < 3 && id in f(NAMES[i]) ensures id !in f(NAMES[j]) {
      StrataShareNoId(entries, eligible, shuffle, i, j, id);
    }
    FlatMapDistinct(f, NAMES);
    MapFlatMap(PickId, Contribution(walk), f, NAMES);
  }

  lemma StratumIdsDistinct(entries: seq<Entry>, eligible: map<string, seq<Candidate>>,
      shuffle: seq<Candidate> -> seq<Candidate>, i: nat)
    requires FiledUnder(STRATA, entries, eligible) && Shuffles(shuffle) && i < 3
    requires FirstShortage(NAMES, WalkOf(eligible, shuffle)).None?
    requires forall e, f :: e in entries && f in entries && e.taskId == f.taskId ==> e == f
    ensures Distinct(PickIds(WalkOf(eligible, shuffle))(NAMES[i]))
  {
    hide FirstShortage, WalkOf, Taken, Admits, CandidateOf;
    NamesAreDistinct();
    var walk := WalkOf(eligible, shuffle);
    PicksAreFirst(NAMES, walk, i);
    var picks := Contribution(walk)(NAMES[i]);
    forall a, b | 0 <= a < b < |picks| ensures Map(PickId, picks)[a] != Map(PickId, picks)[b] {
      MapAt(PickId, picks, a);
      MapAt(PickId, picks, b);
      assert picks[a] in picks && picks[b] in picks;
      var e := PickComesFrom(entries, eligible, shuffle, i, picks[a]);
      var e' := PickComesFrom(entries, eligible, shuffle, i, picks[b]);
      AdmittedSameId(i, e);
      AdmittedSameId(i, e');
      assert picks[a].candidate.repository != picks[b].candidate.repository;
    }
  }

  lemma AdmittedSameId(i: nat, e: Entry)
    requires i < 3 && Admits(STRATA[i], e)
    ensures CandidateOf(e).taskId == e.taskId && CandidateOf(e).repository == e.repository
        && e.language in STRATA[i].languages
  {
    SameId(e);
  }

  lemma StrataShareNoId(entries: seq<Entry>, eligible: map<string, seq<Candidate>>,
      shuffle: seq<Candidate> -> seq<Candidate>,
                        i: nat, j: nat, id: string)
    requires FiledUnder(STRATA, entries, eligible) && Shuffles(shuffle) && i < j < 3
    requires forall e, f :: e in entries && f in entries && e.taskId == f.taskId ==> e == f
    ensures !(id in PickIds(WalkOf(eligible, shuffle))(NAMES[i]) && id in PickIds(WalkOf(eligible, shuffle))(NAMES[j]))
  {
    hide WalkOf, Taken, Admits, CandidateOf;
    StrataAreWellFormed();
    var walk := WalkOf(eligible, shuffle);
    MapMember(PickId, Contribution(walk)(NAMES[i]), id);
    MapMember(PickId, Contribution(walk)(NAMES[j]), id);
    forall p, q | p in Contribution(walk)(NAMES[i]) && q in Contribution(walk)(NAMES[j])
      ensures PickId(p) != PickId(q)
    {
      var e := PickComesFrom(entries, eligible, shuffle, i, p);
      var f := PickComesFrom(entries, eligible, shuffle, j, q);
      AdmittedSameId(i, e);
      AdmittedSameId(j, f);
      assert STRATA[i].languages !! STRATA[j].languages;
    }
  }

  // ---------------------------------------------------------------- the summariser's targets

  datatype TargetError = LacksProductionPaths | InvalidProductionPaths

  predicate AllSafe(paths: seq<string>) {
    forall i :: 0 <= i < |paths| ==> SafeRelative(paths[i])
  }

  /** The scored paths of one manifest row: the production list, or the union of the split lists when the
      production list is missing or unsafe. */
  function TargetPaths(t: ManifestTask): Result<seq<string>, TargetError> {
    if t.production.Some? && AllSafe(t.production.value) then Ok(t.production.value)
    else if t.existing.None? || t.created.None? then Err(LacksProductionPaths)
    else
      var union := Dedup(t.existing.value + t.created.value);
      if AllSafe(union) then Ok(union) else Err(InvalidProductionPaths)
  }

  /** Whether one of the first five candidate paths is a target. */
  predicate Hit(candidates: seq<string>, targets: seq<string>) {
    exists i :: 0 <= i < |candidates| && i < 5 && candidates[i] in targets
  }

  lemma UnionIsProduction(sections: seq<Section>, p: string)
    ensures p in Dedup(ByKind(sections).existing + ByKind(sections).created) <==> p in Production(sections)
  {
    hide ByKind, Production;
    KindsCoverProduction(sections);
    DedupMembers(ByKind(sections).existing + ByKind(sections).created);
  }

  /** For a row built from a patch the fallback changes nothing: the union of the split lists holds the
      same paths, is safe exactly when the production list is, and so scores every answer alike. A row with
      an unsafe path is refused by either route. */
  lemma FallbackScoresAlike(sections: seq<Section>, t: ManifestTask, candidates: seq<string>)
    requires t.production == Some(Production(sections))
    requires t.existing == Some(ByKind(sections).existing) && t.created == Some(ByKind(sections).created)
    ensures TargetPaths(t).Ok? <==> AllSafe(Production(sections))
    ensures TargetPaths(t.(production := None)).Ok? <==> AllSafe(Production(sections))
    ensures TargetPaths(t).Ok? ==>
              Hit(candidates, TargetPaths(t).value) == Hit(candidates, TargetPaths(t.(production := None)).value)
    ensures TargetPaths(t).Ok? ==>
              (Hit(candidates, TargetPaths(t).value) <==>
               exists i :: 0 <= i < |candidates| && i <= 4 && candidates[i] in Production(sections))
    ensures TargetPaths(t).Err? ==> TargetPaths(t).error == InvalidProductionPaths
  {
    hide ByKind, Production, SafeRelative;
    var production, union := Production(sections), Dedup(ByKind(sections).existing + ByKind(sections).created);
    forall p ensures p in union <==> p in production {
      UnionIsProduction(sections, p);
    }
    SafeMembers(production);
    SafeMembers(union);
  }

  lemma SafeMembers(paths: seq<string>)
    ensures AllSafe(paths) <==> forall p :: p in paths ==> SafeRelative(p)
  {
    hide SafeRelative;
    if AllSafe(paths) {
      forall p | p in paths ensures SafeRelative(p) {
        var i :| 0 <= i < |paths| && paths[i] == p;
      }
    }
  }

  // ---------------------------------------------------------------- a manifest read off its rows

  /** A row of a built manifest comes from an entry of the dataset, field by field. */
  predicate DescribesEntry(t: ManifestTask, e: Entry) {
    && t.taskId == e.taskId && t.language == e.language && t.repository == e.repository && e.patch.Some?
    && t.production == Some(Production(Sections(e.patch.value)))
    && t.existing == Some(ByKind(Sections(e.patch.value)).existing)
    && t.created == Some(ByKind(Sections(e.patch.value)).created)
    && ((t.stratum == "codeindex-python" && t.backend == "codeindex" && e.language == "python")
        || (t.stratum == "codegraph-js-ts" && t.backend == "codegraph" && e.language in {"javascript", "typescript"})
        || (t.stratum == "codegraph-go-rust" && t.backend == "codegraph" && e.language in {"go", "rust"}))
  }

  lemma PickDescribes(i: nat, p: Pick, e: Entry)
    requires i < 3 && Admits(STRATA[i], e) && p == Pick(NAMES[i], CandidateOf(e))
    ensures DescribesEntry(TaskOf(p), e) && DigestName(p) == "datacurve/" + e.taskId
  {
    hide Sections, Production, ByKind;
    NamesAreDistinct();
  }

  /** Every row of a built manifest describes an entry; there are twelve, four of each of the three strata. */
  lemma BuiltRowsDescribeEntries(entries: seq<Entry>, eligible: map<string, seq<Candidate>>,
      shuffle: seq<Candidate> -> seq<Candidate>, t: ManifestTask)
    returns (e: Entry)
    requires FiledUnder(STRATA, entries, eligible) && Shuffles(shuffle)
    requires FirstShortage(NAMES, WalkOf(eligible, shuffle)).None?
    requires t in Built(WalkOf(eligible, shuffle))
    ensures e in entries && DescribesEntry(t, e)
    ensures var tasks := Built(WalkOf(eligible, shuffle));
      |tasks| == 12 && |Filter(InStratum("codeindex-python"), tasks)| == 4
      && |Filter(InStratum("codegraph-js-ts"), tasks)| == 4 && |Filter(InStratum("codegraph-go-rust"), tasks)| == 4
  {
    hide FirstShortage, WalkOf, Built, TaskOf, DescribesEntry, Admits, CandidateOf, Contribution, FiledUnder, Shuffles;
    var walk := WalkOf(eligible, shuffle);
    var i, p := BuiltMember(walk, t);
    e := PickComesFrom(entries, eligible, shuffle, i, p);
    PickDescribes(i, p, e);
    BuiltIsBalanced(walk);
    StratumCount(walk, 0);
    StratumCount(walk, 1);
    StratumCount(walk, 2);
    assert NAMES[0] == "codeindex-python" && NAMES[1] == "codegraph-js-ts" && NAMES[2] == "codegraph-go-rust";
  }

  /** What the frozen check accepts, on the rows: twelve of them with present and pairwise different ids and present
      fields, in three strata of four. */
  lemma FrozenIff(tasks: seq<ManifestTask>)
    ensures Complaint(tasks).None? <==>
      (|tasks| == 12
       && (forall t :: t in tasks ==> t.taskId != "" && t.stratum != "" && t.language != "" && t.backend != "")
       && (forall i, j :: 0 <= i < j < |tasks| ==> tasks[i].taskId != tasks[j].taskId)
       && |StrataOf(tasks)| == 3
       && forall t :: t in tasks ==> |Filter(InStratum(t.stratum), tasks)| == 4)
  {
    hide Filter, InStratum;
    if Distinct(IdsOf(tasks)) {
      forall i, j | 0 <= i < j < |tasks| ensures tasks[i].taskId != tasks[j].taskId {
        assert IdsOf(tasks)[i] != IdsOf(tasks)[j];
      }
    }
    assert forall i :: 0 <= i < |tasks| ==> tasks[i] in tasks;
    assert (forall s | s in StrataOf(tasks) :: |Filter(InStratum(s), tasks)| == TASKS_PER_STRATUM) <==>
      (forall t :: t in tasks ==> |Filter(InStratum(t.stratum), tasks)| == 4) by {
      assert forall t :: t in tasks ==> t.stratum in StrataOf(tasks);
    }
  }

  function WithId(id: string): Candidate -> bool {
    (c: Candidate) => c.taskId == id
  }

  /** A stratum's walk is its candidates in ascending task id, one id's duplicates in dataset order, and then
      shuffled. */
  lemma WalkIs(eligible: map<string, seq<Candidate>>, shuffle: seq<Candidate> -> seq<Candidate>, name: string)
      returns (sorted: seq<Candidate>)
    requires name in eligible
    ensures WalkOf(eligible, shuffle)(name) == shuffle(sorted) && Permutation(sorted, eligible[name])
    ensures forall i, j :: 0 <= i < j < |sorted| ==> TextLe(sorted[i].taskId, sorted[j].taskId)
    ensures forall id :: Filter(WithId(id), sorted)
                      == Filter(WithId(id), eligible[name])
  {
    hide TextLe, Filter, Sort;
    sorted := Sort(ByText(IdOf), eligible[name]);
    SortByTextIs(IdOf, eligible[name]);
    forall id ensures Filter(WithId(id), sorted)
                   == Filter(WithId(id), eligible[name])
    {
      FilterSame(ShownAs(IdOf, id), WithId(id), sorted);
      FilterSame(ShownAs(IdOf, id), WithId(id), eligible[name]);
    }
  }
}
