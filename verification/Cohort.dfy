/** End to end: a plan is executed, each run leaves its files, the summariser discovers them, reads every row back
    from record, packet and path, and pairs the rows. */
module Cohort {
  import opened Common
  import opened Discovery
  import opened Grouping
  import opened Inference
  import opened Pairing
  import opened Paths
  import opened Plan
  import opened Sequences

  // ---------------------------------------------------------------- what runs leave

  /** `driver-run.json`, always written last by the driver. */
  function DriverFields(run: PlannedRun): Fields {
    Fields(Some(run.taskId), Some(run.condition.Name()), Some(run.useMode), Some(run.replicate))
  }

  /** `output/run.json`: the runner names neither arm, mode nor replicate. */
  function RunnerFields(run: PlannedRun): Fields {
    Fields(Some(run.taskId), None, None, None)
  }

  /** `output/orientation.json` */
  function PacketFields(run: PlannedRun): Fields {
    Fields(None, Some(run.condition.Name()), Some(run.useMode), None)
  }

  /** The driver always leaves its record; the runner writes its record after its packet. */
  predicate Leavable(l: Left) {
    l.driver && (l.run ==> l.orientation)
  }

  /** What else a row reports: where it was found, whether it is valid, how long the agent took. */
  datatype Outcome = Outcome(run: string, valid: bool, seconds: Reading)

  /** A plan, what its runs left, and the fixed surroundings of a summary. */
  datatype Study = Study(
    settings: Settings, tasks: seq<TaskSpec>, replicates: nat, left: FilePath -> Left,
    targets: seq<string>, strata: map<string, string>, runtime: string, outcome: FilePath -> Outcome)
  {
    function Runs(): seq<PlannedRun> {
      PlannedRuns(settings, tasks, replicates)
    }

    function Dirs(): set<FilePath> {
      set run | run in Runs() :: run.runDir.parts
    }

    ghost predicate WellPlanned() {
      && settings.useMode == "voluntary" && settings.root.absolute
      && (forall i :: 0 <= i < |tasks| ==> TaskName(tasks[i].taskId) && StaysBelow(tasks[i].stratum))
      && (forall i, j :: 0 <= i < j < |tasks| ==> tasks[i].taskId != tasks[j].taskId)
      && (forall d :: Leavable(left(d)))
    }

    /** The files hold what the runs wrote. */
    ghost predicate Recorded(content: Contents) {
      forall run :: run in Runs() ==>
        var d := run.runDir.parts;
        && content(d + [DRIVER]) == Some(DriverFields(run))
        && (left(d).run ==> content(Output(d) + [RUN]) == Some(RunnerFields(run)))
        && (left(d).orientation ==> content(Output(d) + [ORIENTATION]) == Some(PacketFields(run)))
    }

    /** The row read from a record, a packet and a path. */
    function RowFrom(source: (Fields, Fields), root: FilePath): Row {
      var (record, packet) := source;
      var task := InferTask(record, targets, ["/"] + root);
      var path := PathText(Path(true, root));
      Row(task, if task.Some? && task.value in strata then Some(strata[task.value]) else None,
          InferCondition(record, packet, path), InferMode(record, packet, path), runtime,
          InferReplicate(record, path), outcome(root).run, outcome(root).valid, outcome(root).seconds)
    }

    /** A row, field by field: the record speaks before the packet, and both before the path; the stratum is the
        task's. */
    lemma RowReads(record: Fields, packet: Fields, root: FilePath)
      ensures var row, path := RowFrom((record, packet), root), PathText(Path(true, root));
        && (forall t :: row.taskId == Some(t) <==>
              if record.taskId.Some? && record.taskId.value != "" then record.taskId.value == t
              else exists k: nat :: Longest(targets, ["/"] + root, k) && targets[k] == t)
        && row.stratum == (if row.taskId.Some? && row.taskId.value in strata then Some(strata[row.taskId.value])
            else None)
        && (forall c: Condition :: row.condition == Some(c) <==>
              var value := if record.condition.Some? then record.condition else packet.condition;
              if value == Some("baseline") || value == Some("treatment") then value == Some(c.Name())
              else NamesFirst(path, c.Name(), "baseline", "treatment"))
        && (forall m :: m == "voluntary" || m == "assisted" ==>
              var value := if record.useMode.Some? then record.useMode else packet.useMode;
              (row.useMode == Some(m) <==>
                if value == Some("voluntary") || value == Some("assisted") then value == Some(m)
                else NamesFirst(path, m, "voluntary", "assisted")))
        && row.replicate == InferReplicate(record, path) && row.runtime == runtime
        && row.run == outcome(root).run && row.valid == outcome(root).valid && row.seconds == outcome(root).seconds
    {
      InferredFromFields(record, packet, PathText(Path(true, root)));
      forall t { TaskIsInferred(record, targets, ["/"] + root, t); }
      hide InferTask, InferCondition, InferMode, InferReplicate, PathText, Longest, NamesFirst;
    }

    /** The summariser's row of a discovered root. */
    function RowAt(files: seq<FilePath>, content: Contents): FilePath -> Row {
      (root: FilePath) => RowFrom(RowSource(files, content, root), root)
    }

    /** The directory under which a planned run is found. */
    function RootOf(run: PlannedRun): FilePath {
      var d := run.runDir.parts;
      if left(d).orientation then Output(d) else d
    }

    /** The record and the packet a planned run is read from: a runner record hides the driver's. */
    function SourceOf(run: PlannedRun): (Fields, Fields) {
      var l := left(run.runDir.parts);
      (if l.run then RunnerFields(run) else DriverFields(run), if l.orientation then PacketFields(run) else NO_FIELDS)
    }

    function RowOf(run: PlannedRun): Row {
      RowFrom(SourceOf(run), RootOf(run))
    }

    function Rows(): seq<Row> {
      Map((run: PlannedRun) => RowOf(run), Runs())
    }

    /** The identity under which a planned pair must be summarised. */
    function PlannedKey(task: TaskSpec, replicate: nat): PairKey {
      PairKey(Some(task.taskId), if task.taskId in strata then Some(strata[task.taskId]) else None,
              Some("voluntary"), runtime, Some(replicate))
    }

    function TaskKeys(): TaskSpec -> seq<PairKey> {
      (task: TaskSpec) => seq(replicates, i requires 0 <= i < replicates => PlannedKey(task, i + 1))
    }

    function PlannedKeys(): seq<PairKey> {
      FlatMap(TaskKeys(), tasks)
    }

    function Run(task: TaskSpec, r: nat, c: Condition): PlannedRun {
      RunOf(settings, task, r, c)
    }

    /** The replicate, if any, that the path down to a task's stratum already seems to name. */
    function Mark(task: TaskSpec): Option<nat> {
      PathReplicate(PathText(TaskDir(settings.root, task)))
    }

    /** The replicate a planned run is summarised under: a run with a runner record goes by its path, and there a mark
        comes before the run's own directory. */
    function ReadAs(task: TaskSpec, r: nat, c: Condition): nat {
      if left(Run(task, r, c).runDir.parts).run && Mark(task).Some? then Mark(task).value else r
    }
  }

  /** Every planned run is summarised under its own replicate. */
  ghost predicate ReadsOwn(st: Study) {
    forall i: nat, r: nat, c :: i < |st.tasks| && 1 <= r <= st.replicates ==> OwnAt(st, i, r, c)
  }

  predicate OwnAt(st: Study, i: nat, r: nat, c: Condition)
    requires i < |st.tasks|
  {
    st.ReadAs(st.tasks[i], r, c) == r
  }

  /** The pair of a planned task and replicate: its own baseline run joined with its own treatment run. */
  function PlannedPair(st: Study, task: TaskSpec, r: nat): Pair {
    PairUp(st.PlannedKey(task, r), [st.RowOf(st.Run(task, r, Baseline))], [st.RowOf(st.Run(task, r, Treatment))])
  }

  // ---------------------------------------------------------------- the directories of a plan

  lemma PlannedDir(st: Study, task: TaskSpec, r: nat, c: Condition)
    requires st.WellPlanned() && task in st.tasks
    ensures var tail := [task.taskId] + ParsePath(task.stratum).parts;
            && st.Run(task, r, c).runDir.absolute
            && st.Run(task, r, c).runDir.parts == st.settings.root.parts + tail + RunTail(r, c)
            && TaskDir(st.settings.root, task) == Path(true, st.settings.root.parts + tail)
  {
    hide RunTail, TaskDir, RunDir, ParsePath, Resolved;
    var i :| 0 <= i < |st.tasks| && st.tasks[i] == task;
    TaskDirShape(st.settings.root, task);
    RunDirShape(st.settings.root, task, r, c);
    assert RunTail(r, c) == ["voluntary", "rep-" + Decimal.Show02(r), c.Name()] by { TailIs(r, c); }
  }

  lemma TailIs(r: nat, c: Condition)
    ensures RunTail(r, c) == ["voluntary", "rep-" + Decimal.Show02(r), c.Name()]
  {
  }

  lemma RunIsPlanned(st: Study, run: PlannedRun) returns (i: nat, r: nat)
    requires run in st.Runs()
    ensures i < |st.tasks| && 1 <= r <= st.replicates && run == st.Run(st.tasks[i], r, run.condition)
  {
    hide RunOf, PlannedRuns;
    RunMember(st.settings, st.tasks, st.replicates, run);
    i, r :| i < |st.tasks| && 1 <= r <= st.replicates && run == RunOf(st.settings, st.tasks[i], r, run.condition);
  }

  /** Run directories of different tasks part at the task's name; those of one task have one depth. */
  lemma DirInside(st: Study, a: PlannedRun, b: PlannedRun)
    requires st.WellPlanned() && a in st.Runs() && b in st.Runs()
    requires a.runDir.parts <= Output(b.runDir.parts)
    ensures a == b
  {
    var i, r := RunIsPlanned(st, a);
    var j, q := RunIsPlanned(st, b);
    PlannedDir(st, st.tasks[i], r, a.condition);
    PlannedDir(st, st.tasks[j], q, b.condition);
    hide RunOf, RunTail, ParsePath, TaskDir;
    var x, y := ParsePath(st.tasks[i].stratum).parts, ParsePath(st.tasks[j].stratum).parts;
    PrefixOfOutput(st.settings.root.parts, st.tasks[i].taskId, x, RunTail(r, a.condition),
                   st.tasks[j].taskId, y, RunTail(q, b.condition));
    assert i == j;
    RunTailInjective(r, a.condition, q, b.condition);
  }

  lemma PrefixOfOutput(home: FilePath, id: string, x: FilePath, t: FilePath, id': string, x': FilePath, t': FilePath)
    requires |t| == |t'| == 3 && home + ([id] + x) + t <= Output(home + ([id'] + x') + t')
    ensures id == id' && (x == x' ==> t == t')
  {
    var d, e := home + ([id] + x) + t, home + ([id'] + x') + t';
    assert d[|home|] == id && Output(e)[|home|] == id';
    if x == x' {
      var n := |home| + 1 + |x|;
      assert d[n..] == t && Output(e)[n..n + 3] == t';
      assert d == Output(e)[..|d|];
    }
  }

  lemma DirsAreSeparate(st: Study)
    requires st.WellPlanned()
    ensures Separate(st.Dirs())
  {
    hide PlannedRuns;
    forall d, e | d in st.Dirs() && e in st.Dirs() && d <= Output(e) ensures d == e {
      var a :| a in st.Runs() && a.runDir.parts == d;
      var b :| b in st.Runs() && b.runDir.parts == e;
      DirInside(st, a, b);
    }
  }

  lemma RunsAreDistinct(st: Study)
    requires st.WellPlanned()
    ensures Distinct(st.Runs())
  {
    hide PlannedRuns, TaskDir, Resolved, StaysBelow, TaskName, ParsePath;
    var s, n := st.settings, |Resolved(st.settings.root).parts|;
    forall i | 0 <= i < |st.tasks|
      ensures |TaskDirs(s.root, st.tasks)[i].parts| > n && TaskDirs(s.root, st.tasks)[i].parts[n] == st.tasks[i].taskId
    {
      TaskDirShape(s.root, st.tasks[i]);
    }
    forall i, j | 0 <= i < j < |st.tasks| ensures TaskDirs(s.root, st.tasks)[i] != TaskDirs(s.root, st.tasks)[j] {
      assert st.tasks[i].taskId != st.tasks[j].taskId;
    }
    PlannedRunsDistinct(s, st.tasks, st.replicates);
  }

  // ---------------------------------------------------------------- discovery finds every run once

  lemma RootBelowDir(st: Study, run: PlannedRun)
    ensures run.runDir.parts <= st.RootOf(run) <= Output(run.runDir.parts)
  {
  }

  lemma RootsAreDistinct(st: Study, a: PlannedRun, b: PlannedRun)
    requires st.WellPlanned() && a in st.Runs() && b in st.Runs() && st.RootOf(a) == st.RootOf(b)
    ensures a == b
  {
    hide PlannedRuns, Output;
    RootBelowDir(st, a);
    RootBelowDir(st, b);
    DirInside(st, a, b);
  }

  /** The discovered roots are those of the planned runs, one each. */
  lemma RootsOfRuns(st: Study, files: seq<FilePath>, root: FilePath)
    requires st.WellPlanned() && Layout(files, st.Dirs(), st.left)
    ensures IsRowRoot(files, root) <==> root in Map((run: PlannedRun) => st.RootOf(run), st.Runs())
  {
    hide PlannedRuns, IsRowRoot, Layout, Output;
    DirsAreSeparate(st);
    RowsOfTheCohort(files, st.Dirs(), st.left, root);
    MapMember((run: PlannedRun) => st.RootOf(run), st.Runs(), root);
    assert forall d :: Leavable(st.left(d));
    if d :| d in st.Dirs() && root in RowsOf(d, st.left(d)) {
      var run :| run in st.Runs() && run.runDir.parts == d;
      assert st.RootOf(run) == root;
    }
    if run :| run in st.Runs() && st.RootOf(run) == root {
      assert run.runDir.parts in st.Dirs() && root in RowsOf(run.runDir.parts, st.left(run.runDir.parts));
    }
  }

  lemma NoDirIsOutput(st: Study, d: FilePath, e: FilePath)
    requires Separate(st.Dirs()) && d in st.Dirs() && e in st.Dirs()
    ensures d != Output(e)
  {
    assert e <= Output(e) <= Output(Output(e));
    assert |Output(e)| == |e| + 1;
    assert e <= Output(d) ==> e == d;
  }

  /** A planned run that left a packet: its row's packet is that one, its record the runner's if there is one, and
      otherwise the driver's. */
  lemma OrientedSource(st: Study, files: seq<FilePath>, content: Contents, run: PlannedRun)
    requires st.WellPlanned() && Layout(files, st.Dirs(), st.left) && st.Recorded(content) && run in st.Runs()
    requires st.left(run.runDir.parts).orientation
    ensures RowSource(files, content, st.RootOf(run)) == st.SourceOf(run)
  {
    hide PlannedRuns, Output, Layout, Separate;
    var d := run.runDir.parts;
    var root := Output(d);
    assert d in st.Dirs();
    DirsAreSeparate(st);
    LaidOrientationRoots(files, st.Dirs(), st.left, root);
    LastOrientationIs(files, root);
    var p := LastOrientation(files, root).value;
    OnlyOrientation(st, files, d, p);
    LaidMetadata(files, st.Dirs(), st.left, root);
    LaidMetadata(files, st.Dirs(), st.left, d);
    assert root + [RUN] in files <==> st.left(d).run by {
      if e :| e in st.Dirs() && st.left(e).run && root == Output(e) { OutputInjective(d, e); }
    }
    assert root + [DRIVER] !in files by {
      if e :| e in st.Dirs() && root == e { NoDirIsOutput(st, e, d); }
    }
    assert Leavable(st.left(d));
    assert d + [DRIVER] in files;
    assert Parent(root) == d by { OutputParent(d); }
    var paths := RecordPaths(root);
    assert paths[1..][1..] == [d + [DRIVER]] && paths[1..][0] == root + [DRIVER];
    hide FirstReadable;
    FirstOfThree(files, content, root);
  }

  lemma FirstOfThree(files: seq<FilePath>, content: Contents, root: FilePath)
    requires root + [DRIVER] !in files
    requires root + [RUN] in files ==> content(root + [RUN]).Some?
    requires Parent(root) + [DRIVER] in files && content(Parent(root) + [DRIVER]).Some?
    ensures FirstReadable(files, content, RecordPaths(root))
         == if root + [RUN] in files then content(root + [RUN]) else content(Parent(root) + [DRIVER])
  {
    var paths := RecordPaths(root);
    var third := [Parent(root) + [DRIVER]];
    var second := [root + [DRIVER]] + third;
    assert paths[1..] == second && second[1..] == third;
    assert FirstReadable(files, content, third) == content(third[0]);
    assert FirstReadable(files, content, second) == FirstReadable(files, content, third);
  }

  lemma OutputInjective(d: FilePath, e: FilePath)
    ensures Output(d) == Output(e) <==> d == e
  {
    if Output(d) == Output(e) { assert Output(d)[..|d|] == d && Output(e)[..|e|] == e; }
  }

  lemma OutputParent(d: FilePath)
    ensures Parent(Output(d)) == d
  {
  }

  lemma OnlyOrientation(st: Study, files: seq<FilePath>, d: FilePath, p: FilePath)
    requires Layout(files, st.Dirs(), st.left) && p in files && Orients(p, Output(d))
    ensures p == Output(d) + [ORIENTATION]
  {
    hide PlannedRuns, Layout, Output;
    LeftOrientation(files, st.Dirs(), st.left, p);
    var e :| e in st.Dirs() && st.left(e).orientation && p == Output(e) + [ORIENTATION];
    OutputRoot(e);
  }

  /** A planned run that left no packet is read from the driver's record. */
  lemma UnorientedSource(st: Study, files: seq<FilePath>, content: Contents, run: PlannedRun)
    requires st.WellPlanned() && Layout(files, st.Dirs(), st.left) && st.Recorded(content) && run in st.Runs()
    requires !st.left(run.runDir.parts).orientation
    ensures RowSource(files, content, st.RootOf(run)) == st.SourceOf(run)
  {
    hide PlannedRuns, Output, Layout, Separate;
    var d := run.runDir.parts;
    assert d in st.Dirs() && Leavable(st.left(d));
    DirsAreSeparate(st);
    LaidOrientationRoots(files, st.Dirs(), st.left, d);
    LastOrientationIs(files, d);
    LaidMetadata(files, st.Dirs(), st.left, d);
    forall e | e in st.Dirs() ensures d != Output(e) { NoDirIsOutput(st, d, e); }
  }

  /** The discovered row of a planned run is read from what the run left. */
  lemma RowIsRead(st: Study, files: seq<FilePath>, content: Contents, run: PlannedRun)
    requires st.WellPlanned() && Layout(files, st.Dirs(), st.left) && st.Recorded(content) && run in st.Runs()
    ensures st.RowAt(files, content)(st.RootOf(run)) == st.RowOf(run)
  {
    if st.left(run.runDir.parts).orientation {
      OrientedSource(st, files, content, run);
    } else {
      UnorientedSource(st, files, content, run);
    }
  }

  /** However the roots are listed, the discovered rows are the rows of the planned runs. */
  lemma DiscoveredRows(st: Study, files: seq<FilePath>, content: Contents, roots: seq<FilePath>)
    requires st.WellPlanned() && Layout(files, st.Dirs(), st.left) && st.Recorded(content)
    requires Distinct(roots) && forall root :: root in roots <==> IsRowRoot(files, root)
    ensures Permutation(Map(st.RowAt(files, content), roots), st.Rows())
  {
    hide PlannedRuns, Layout, IsRowRoot, Map;
    var rootOf := (run: PlannedRun) => st.RootOf(run);
    var planned := Map(rootOf, st.Runs());
    RunsAreDistinct(st);
    forall i, j | 0 <= i < j < |planned| ensures planned[i] != planned[j] {
      MapAt(rootOf, st.Runs(), i);
      MapAt(rootOf, st.Runs(), j);
      if st.RootOf(st.Runs()[i]) == st.RootOf(st.Runs()[j]) { RootsAreDistinct(st, st.Runs()[i], st.Runs()[j]); }
    }
    forall root ensures root in roots <==> root in planned { RootsOfRuns(st, files, root); }
    DistinctSameMembers(roots, planned);
    MapPermutation(st.RowAt(files, content), roots, planned);
    forall i | 0 <= i < |st.Runs()|
      ensures st.RowAt(files, content)(rootOf(st.Runs()[i])) == ((run: PlannedRun) => st.RowOf(run))(st.Runs()[i])
    {
      RowIsRead(st, files, content, st.Runs()[i]);
    }
    MapAfterMap(st.RowAt(files, content), rootOf, (run: PlannedRun) => st.RowOf(run), st.Runs());
  }

  // ---------------------------------------------------------------- what a row reads

  lemma PathOfRun(st: Study, task: TaskSpec, r: nat, c: Condition)
    requires st.WellPlanned() && task in st.tasks
    ensures PathText(Path(true, Output(st.Run(task, r, c).runDir.parts)))
         == PathText(TaskDir(st.settings.root, task)) + RunSuffix(r, c)
  {
    PlannedDir(st, task, r, c);
    hide RunOf, TaskDir, ParsePath, RunTail;
    var base := st.settings.root.parts + ([task.taskId] + ParsePath(task.stratum).parts);
    var d := st.Run(task, r, c).runDir.parts;
    TextOfOutput(base, r, c);
    assert d == base + RunTail(r, c);
  }

  lemma TextOfOutput(base: FilePath, r: nat, c: Condition)
    ensures PathText(Path(true, Output(base + RunTail(r, c)))) == PathText(Path(true, base)) + RunSuffix(r, c)
  {
    TailIs(r, c);
    SlashedTail("rep-" + Decimal.Show02(r), c.Name());
    SuffixText(r, c);
    hide RunTail, Slashed, RunSuffix, Decimal.Show02;
    var tail := RunTail(r, c) + ["output"];
    assert ["/"] + Output(base + RunTail(r, c)) == (["/"] + base) + tail;
    SlashedAppend(["/"] + base, tail);
    assert Slashed(["/"] + base) + "/" + Slashed(tail) == Slashed(["/"] + base) + ("/" + Slashed(tail));
  }

  lemma SlashedTail(rep: string, arm: string)
    ensures "/" + Slashed(["voluntary", rep, arm] + ["output"]) == "/voluntary/" + (rep + ("/" + (arm + "/output")))
  {
    var parts := ["voluntary", rep, arm] + ["output"];
    assert parts[..3] == ["voluntary", rep, arm] && ["voluntary", rep, arm][..2] == ["voluntary", rep];
    assert ["voluntary", rep][..1] == ["voluntary"];
    assert Slashed(["voluntary"]) == "voluntary";
    assert Slashed(["voluntary", rep]) == "voluntary" + "/" + rep;
    assert Slashed(["voluntary", rep, arm]) == "voluntary" + "/" + rep + "/" + arm;
    assert Slashed(parts) == "voluntary" + "/" + rep + "/" + arm + "/" + "output";
  }

  lemma SuffixText(r: nat, c: Condition)
    ensures RunSuffix(r, c) == "/voluntary/" + (("rep-" + Decimal.Show02(r)) + ("/" + (c.Name() + "/output")))
  {
    hide Decimal.Show02;
    assert "/voluntary/rep-" == "/voluntary/" + "rep-";
  }

  /** A planned run is read as a pairable row of its own task and arm, under the replicate it is read as. */
  lemma RowReadsBack(st: Study, task: TaskSpec, r: nat, c: Condition)
    requires st.WellPlanned() && task in st.tasks && r >= 1
    ensures var row := st.RowOf(st.Run(task, r, c));
            Pairable(row) && KeyOf(row) == st.PlannedKey(task, st.ReadAs(task, r, c)) && row.condition == Some(c)
  {
    hide RunOf, TaskDir, RunSuffix, PathReplicate, PathText, Decimal.Show02;
    var run := st.Run(task, r, c);
    RunFields(st, task, r, c);
    assert Leavable(st.left(run.runDir.parts));
    assert TaskName(task.taskId) by { var i :| 0 <= i < |st.tasks| && st.tasks[i] == task; }
    if st.left(run.runDir.parts).run {
      PathOfRun(st, task, r, c);
      PlannedPath(PathText(TaskDir(st.settings.root, task)), r, c);
      RunnerRoute(st, run);
    } else {
      Decimal.LabelRoundTrip(r);
      DriverRoute(st, run, r);
    }
  }

  lemma RunFields(st: Study, task: TaskSpec, r: nat, c: Condition)
    ensures var run := st.Run(task, r, c);
            && run.taskId == task.taskId && run.condition == c && run.useMode == st.settings.useMode
            && run.replicate == Decimal.Show02(r)
  {
  }

  /** Read by a runner record: the packet gives arm and mode, the path the replicate. */
  lemma RunnerRoute(st: Study, run: PlannedRun)
    requires st.left(run.runDir.parts).run && st.left(run.runDir.parts).orientation
    requires run.taskId != "" && run.useMode == "voluntary"
    ensures var row := st.RowOf(run);
            && row.taskId == Some(run.taskId) && row.condition == Some(run.condition)
            && row.useMode == Some("voluntary")
            && row.stratum == (if run.taskId in st.strata then Some(st.strata[run.taskId]) else None)
            && row.runtime == st.runtime
            && row.replicate == PathReplicate(PathText(Path(true, Output(run.runDir.parts))))
  {
    Names();
    hide PathReplicate, PathText;
  }

  /** Read by the driver's record: it names everything. */
  lemma DriverRoute(st: Study, run: PlannedRun, r: nat)
    requires !st.left(run.runDir.parts).run && Decimal.ReadPositive(run.replicate) == Some(r)
    requires run.taskId != "" && run.useMode == "voluntary"
    ensures var row := st.RowOf(run);
            && row.taskId == Some(run.taskId) && row.condition == Some(run.condition)
            && row.useMode == Some("voluntary")
            && row.stratum == (if run.taskId in st.strata then Some(st.strata[run.taskId]) else None)
            && row.runtime == st.runtime && row.replicate == Some(r)
  {
    Names();
    hide PathReplicate, PathText, Decimal.ReadPositive;
  }

  lemma Names()
    ensures Baseline.Name() == "baseline" && Treatment.Name() == "treatment" && "baseline" != "treatment"
  {
    assert "baseline"[0] == 'b' && "treatment"[0] == 't';
  }

  // ---------------------------------------------------------------- one row for each arm of each planned identity

  function BelongsTo(st: Study, k: PairKey, c: Condition): PlannedRun -> bool {
    (run: PlannedRun) => InArm(k, c)(st.RowOf(run))
  }

  lemma BelongsIff(st: Study, t: TaskSpec, k: nat, c: Condition, t': TaskSpec, r': nat, c': Condition)
    requires st.WellPlanned() && t' in st.tasks && r' >= 1
    ensures BelongsTo(st, st.PlannedKey(t, k), c)(st.Run(t', r', c')) <==>
            t.taskId == t'.taskId && k == st.ReadAs(t', r', c') && c == c'
  {
    hide RunOf;
    RowReadsBack(st, t', r', c');
    var key, read := st.PlannedKey(t, k), st.PlannedKey(t', st.ReadAs(t', r', c'));
    assert key == read <==> t.taskId == t'.taskId && k == st.ReadAs(t', r', c');
    assert BelongsTo(st, key, c)(st.Run(t', r', c')) == InArm(key, c)(st.RowOf(st.Run(t', r', c')));
  }

  lemma OneInReplicate(st: Study, t: TaskSpec, r: nat, c: Condition, t': TaskSpec, r': nat)
    requires st.WellPlanned() && t' in st.tasks && r' >= 1 && forall c' :: st.ReadAs(t', r', c') == r'
    ensures Filter(BelongsTo(st, st.PlannedKey(t, r), c), ReplicateRuns(st.settings, t', r')) ==
            if t.taskId == t'.taskId && r == r' then [st.Run(t', r, c)] else []
  {
    hide RunOf, BelongsTo;
    var p, order := BelongsTo(st, st.PlannedKey(t, r), c), ConditionOrder(r');
    var a, b := st.Run(t', r', order[0]), st.Run(t', r', order[1]);
    BelongsIff(st, t, r, c, t', r', order[0]);
    BelongsIff(st, t, r, c, t', r', order[1]);
    FilterAppend(p, [], a);
    FilterAppend(p, [a], b);
    assert [] + [a] == [a] && [a] + [b] == [a, b];
    assert c == order[0] || c == order[1];
  }

  lemma OneInTask(st: Study, t: TaskSpec, r: nat, c: Condition, t': TaskSpec)
    requires st.WellPlanned() && t' in st.tasks && 1 <= r <= st.replicates
    requires forall q: nat, c' :: 1 <= q <= st.replicates ==> st.ReadAs(t', q, c') == q
    ensures Filter(BelongsTo(st, st.PlannedKey(t, r), c), TaskRuns(st.settings, st.replicates)(t')) ==
            if t.taskId == t'.taskId then [st.Run(t', r, c)] else []
  {
    hide RunOf, BelongsTo, ReplicateRuns;
    var p, reps := BelongsTo(st, st.PlannedKey(t, r), c), OneTo(st.replicates);
    forall i | 0 <= i < st.replicates
      ensures Filter(p, RunsOf(st.settings, t')(reps[i])) ==
              if t.taskId == t'.taskId && r == i + 1 then [st.Run(t', r, c)] else []
    {
      OneInReplicate(st, t, r, c, t', i + 1);
    }
    FilterOneBlock(p, RunsOf(st.settings, t'), reps, r - 1);
  }

  /** Where every run reads its own replicate, each arm of a planned identity holds exactly the row of its one run. */
  lemma PlannedArm(st: Study, i: nat, r: nat, c: Condition)
    requires st.WellPlanned() && ReadsOwn(st) && i < |st.tasks| && 1 <= r <= st.replicates
    ensures Arm(st.Rows(), st.PlannedKey(st.tasks[i], r), c) == [st.RowOf(st.Run(st.tasks[i], r, c))]
  {
    hide RunOf, BelongsTo;
    var k, tasks := st.PlannedKey(st.tasks[i], r), st.tasks;
    var p, runs := BelongsTo(st, k, c), st.Runs();
    forall j | 0 <= j < |tasks|
      ensures Filter(p, TaskRuns(st.settings, st.replicates)(tasks[j])) ==
              if j == i then [st.Run(tasks[i], r, c)] else []
    {
      forall q: nat, c' | 1 <= q <= st.replicates ensures st.ReadAs(tasks[j], q, c') == q {
        assert OwnAt(st, j, q, c');
      }
      OneInTask(st, tasks[i], r, c, tasks[j]);
      assert i < j ==> tasks[i].taskId != tasks[j].taskId;
      assert j < i ==> tasks[j].taskId != tasks[i].taskId;
    }
    FilterOneBlock(p, TaskRuns(st.settings, st.replicates), tasks, i);
    ArmOfRows(st, runs, k, c);
    assert Filter(p, runs) == [st.Run(tasks[i], r, c)];
    assert [st.Run(tasks[i], r, c)][..0] == [];
  }

  lemma ArmOfRows(st: Study, runs: seq<PlannedRun>, k: PairKey, c: Condition)
    ensures Arm(Map((run: PlannedRun) => st.RowOf(run), runs), k, c)
         == Map((run: PlannedRun) => st.RowOf(run), Filter(BelongsTo(st, k, c), runs))
  {
    FilterMap(InArm(k, c), (run: PlannedRun) => st.RowOf(run), BelongsTo(st, k, c), runs);
  }

  lemma PlannedKeysMember(st: Study, k: PairKey)
    ensures k in st.PlannedKeys() <==>
            exists i: nat, r: nat :: i < |st.tasks| && 1 <= r <= st.replicates && k == st.PlannedKey(st.tasks[i], r)
  {
    var tasks := st.tasks;
    FlatMapMember(st.TaskKeys(), tasks, k);
    forall i: nat | i < |tasks|
      ensures k in st.TaskKeys()(tasks[i]) <==>
          exists r: nat :: 1 <= r <= st.replicates && k == st.PlannedKey(tasks[i], r)
    {
      var keys := st.TaskKeys()(tasks[i]);
      if r: nat :| 1 <= r <= st.replicates && k == st.PlannedKey(tasks[i], r) {
        assert keys[r - 1] == k;
      }
    }
  }

  lemma PlannedKeysDistinct(st: Study)
    requires st.WellPlanned()
    ensures Distinct(st.PlannedKeys())
    ensures |st.PlannedKeys()| == |st.tasks| * st.replicates
  {
    var f, tasks := st.TaskKeys(), st.tasks;
    forall i, j, k | 0 <= i < j < |tasks| && k in f(tasks[i]) ensures k !in f(tasks[j]) {
      assert k.taskId == Some(tasks[i].taskId);
      assert forall k' :: k' in f(tasks[j]) ==> k'.taskId == Some(tasks[j].taskId);
    }
    FlatMapDistinct(f, tasks);
    FlatMapLength(f, tasks, st.replicates);
  }

  /** A row of the study is that of one planned run, under the replicate the run is read as. */
  lemma RowComesFromPlan(st: Study, row: Row) returns (i: nat, r: nat, c: Condition)
    requires st.WellPlanned() && row in st.Rows()
    ensures i < |st.tasks| && 1 <= r <= st.replicates
    ensures Pairable(row) && KeyOf(row) == st.PlannedKey(st.tasks[i], st.ReadAs(st.tasks[i], r, c))
        && row.condition == Some(c)
  {
    hide RunOf, PlannedRuns;
    MapMember((run: PlannedRun) => st.RowOf(run), st.Runs(), row);
    var run :| run in st.Runs() && st.RowOf(run) == row;
    i, r := RunIsPlanned(st, run);
    c := run.condition;
    RowReadsBack(st, st.tasks[i], r, c);
  }

  lemma BothArmsIffPlanned(st: Study, rows: seq<Row>, k: PairKey)
    requires st.WellPlanned() && ReadsOwn(st) && Permutation(rows, st.Rows())
    ensures BothArms(rows, k) <==> k in st.PlannedKeys()
  {
    hide RunOf, PlannedRuns;
    ArmPermutation(st.Rows(), rows, k, Baseline);
    ArmPermutation(st.Rows(), rows, k, Treatment);
    if k in st.PlannedKeys() { PlannedHasBothArms(st, k); }
    if BothArms(rows, k) { ArmKeyIsPlanned(st, k); }
  }

  lemma PlannedHasBothArms(st: Study, k: PairKey)
    requires st.WellPlanned() && ReadsOwn(st) && k in st.PlannedKeys()
    ensures BothArms(st.Rows(), k)
  {
    hide RunOf, PlannedRuns;
    PlannedKeysMember(st, k);
    var i: nat, r: nat :| i < |st.tasks| && 1 <= r <= st.replicates && k == st.PlannedKey(st.tasks[i], r);
    PlannedArm(st, i, r, Baseline);
    PlannedArm(st, i, r, Treatment);
  }

  lemma ArmKeyIsPlanned(st: Study, k: PairKey)
    requires st.WellPlanned() && ReadsOwn(st) && Arm(st.Rows(), k, Baseline) != []
    ensures k in st.PlannedKeys()
  {
    hide RunOf, PlannedRuns;
    PlannedKeysMember(st, k);
    FilterMembers(InArm(k, Baseline), st.Rows());
    var row := Arm(st.Rows(), k, Baseline)[0];
    assert row in Arm(st.Rows(), k, Baseline);
    var i, r, c := RowComesFromPlan(st, row);
    assert OwnAt(st, i, r, c);
  }

  lemma PlannedPairFound(st: Study, rows: seq<Row>, show: PairKey -> string, i: nat, r: nat)
    requires st.WellPlanned() && ReadsOwn(st) && Permutation(rows, st.Rows())
    requires i < |st.tasks| && 1 <= r <= st.replicates
    ensures PlannedPair(st, st.tasks[i], r) in Pairs(rows, show)
  {
    hide RunOf, PlannedRuns;
    var k := st.PlannedKey(st.tasks[i], r);
    PlannedArm(st, i, r, Baseline);
    PlannedArm(st, i, r, Treatment);
    ArmPermutation(st.Rows(), rows, k, Baseline);
    ArmPermutation(st.Rows(), rows, k, Treatment);
    ArmKeysAreSorted(rows, show, k);
    PairsForMember(rows, SortedKeys(rows, show), PlannedPair(st, st.tasks[i], r));
  }

  /** If one planned run is read under another replicate, its own planned identity yields no pair at all. */
  lemma MisreadLosesItsPair(st: Study, rows: seq<Row>, show: PairKey -> string, i: nat, r: nat, c: Condition)
    requires st.WellPlanned() && Permutation(rows, st.Rows())
    requires i < |st.tasks| && 1 <= r <= st.replicates && !OwnAt(st, i, r, c)
    ensures st.PlannedKey(st.tasks[i], r) in st.PlannedKeys()
    ensures st.PlannedKey(st.tasks[i], r) !in KeysOfPairs(Pairs(rows, show))
  {
    hide RunOf, PlannedRuns;
    var k := st.PlannedKey(st.tasks[i], r);
    PlannedKeysMember(st, k);
    OnePairPerIdentity(rows, show);
    ArmPermutation(st.Rows(), rows, k, c);
    forall row | row in st.Rows() ensures !InArm(k, c)(row) {
      NotInOwnArm(st, row, i, r, c);
    }
    FilterNone(InArm(k, c), st.Rows());
  }

  lemma KeysDiffer(st: Study, i: nat, r: nat, j: nat, q: nat)
    requires st.WellPlanned() && i < |st.tasks| && j < |st.tasks| && (i != j || r != q)
    ensures st.PlannedKey(st.tasks[i], r) != st.PlannedKey(st.tasks[j], q)
  {
    assert i < j ==> st.tasks[i].taskId != st.tasks[j].taskId;
    assert j < i ==> st.tasks[j].taskId != st.tasks[i].taskId;
  }

  lemma NotInOwnArm(st: Study, row: Row, i: nat, r: nat, c: Condition)
    requires st.WellPlanned() && row in st.Rows() && i < |st.tasks| && !OwnAt(st, i, r, c)
    ensures !InArm(st.PlannedKey(st.tasks[i], r), c)(row)
  {
    hide RunOf, PlannedRuns, OwnAt, Study.ReadAs, Study.PlannedKey, Study.Rows;
    var j, q, c' := RowComesFromPlan(st, row);
    NeverReads(st, i, r, c, q);
    if i != j || c == c' { KeysDiffer(st, i, r, j, st.ReadAs(st.tasks[j], q, c')); }
  }

  lemma NeverReads(st: Study, i: nat, r: nat, c: Condition, q: nat)
    requires i < |st.tasks| && !OwnAt(st, i, r, c)
    ensures st.ReadAs(st.tasks[i], q, c) != r
  {
    hide RunOf, PathReplicate;
  }

  // ---------------------------------------------------------------- the end-to-end law

  lemma OwnReadingsSuffice(st: Study, rows: seq<Row>, show: PairKey -> string)
    requires st.WellPlanned() && ReadsOwn(st) && Permutation(rows, st.Rows())
    ensures |Pairs(rows, show)| == |st.tasks| * st.replicates
    ensures Permutation(KeysOfPairs(Pairs(rows, show)), st.PlannedKeys())
    ensures forall i: nat, r: nat :: i < |st.tasks| && 1 <= r <= st.replicates ==>
              PlannedPair(st, st.tasks[i], r) in Pairs(rows, show)
  {
    hide RunOf, PlannedPair, PlannedRuns;
    OnePairPerIdentity(rows, show);
    PlannedKeysDistinct(st);
    forall k ensures k in KeysOfPairs(Pairs(rows, show)) <==> k in st.PlannedKeys() {
      BothArmsIffPlanned(st, rows, k);
    }
    DistinctSameMembers(KeysOfPairs(Pairs(rows, show)), st.PlannedKeys());
    PermutationMembers(KeysOfPairs(Pairs(rows, show)), st.PlannedKeys());
    forall i: nat, r: nat | i < |st.tasks| && 1 <= r <= st.replicates
      ensures PlannedPair(st, st.tasks[i], r) in Pairs(rows, show)
    {
      PlannedPairFound(st, rows, show, i, r);
    }
  }

  lemma MisreadingsBreak(st: Study, rows: seq<Row>, show: PairKey -> string)
    requires st.WellPlanned() && !ReadsOwn(st) && Permutation(rows, st.Rows())
    ensures !Permutation(KeysOfPairs(Pairs(rows, show)), st.PlannedKeys())
  {
    hide PlannedRuns, Pairs, KeysOfPairs, OwnAt;
    var i: nat, r: nat, c :| i < |st.tasks| && 1 <= r <= st.replicates && !OwnAt(st, i, r, c);
    MisreadLosesItsPair(st, rows, show, i, r, c);
    var k := st.PlannedKey(st.tasks[i], r);
    assert multiset(st.PlannedKeys())[k] > 0 && multiset(KeysOfPairs(Pairs(rows, show)))[k] == 0;
  }

  /** The end-to-end law. Whatever the runs produced, and in whatever order their files are found, pairing the
      discovered rows yields the planned identities, one pair each, if and only if every run reads its own replicate;
      each pair then joins the two runs of one planned task and replicate. */
  lemma PlanSurvivesTheRoundTrip(st: Study, files: seq<FilePath>, content: Contents, roots: seq<FilePath>,
      show: PairKey -> string)
    requires st.WellPlanned() && Layout(files, st.Dirs(), st.left) && st.Recorded(content)
    requires Distinct(roots) && forall root :: root in roots <==> IsRowRoot(files, root)
    ensures var pairs := Pairs(Map(st.RowAt(files, content), roots), show);
            && (Permutation(KeysOfPairs(pairs), st.PlannedKeys()) <==> ReadsOwn(st))
            && (ReadsOwn(st) ==> |pairs| == |st.tasks| * st.replicates)
            && (ReadsOwn(st) ==> forall i: nat, r: nat :: i < |st.tasks| && 1 <= r <= st.replicates ==>
                  PlannedPair(st, st.tasks[i], r) in pairs)
  {
    hide Layout, IsRowRoot, PlannedPair, PlannedRuns, Pairs, KeysOfPairs, ReadsOwn, Separate, RowSource;
    var rows := Map(st.RowAt(files, content), roots);
    DiscoveredRows(st, files, content, roots);
    if ReadsOwn(st) {
      OwnReadingsSuffice(st, rows, show);
    } else {
      MisreadingsBreak(st, rows, show);
    }
  }

  /** What reading one's own replicate comes to: nothing before the run directory may name another replicate, if the
      run left a runner record. */
  lemma ReadsOwnIff(st: Study)
    ensures ReadsOwn(st) <==> forall i: nat, r: nat, c :: i < |st.tasks| && 1 <= r <= st.replicates ==>
      (st.left(st.Run(st.tasks[i], r, c).runDir.parts).run ==> st.Mark(st.tasks[i]) in {None, Some(r)})
  {
    hide PathReplicate, RunOf;
    forall i: nat, r: nat, c | i < |st.tasks| && 1 <= r <= st.replicates
      ensures OwnAt(st, i, r, c) <==>
        (st.left(st.Run(st.tasks[i], r, c).runDir.parts).run ==> st.Mark(st.tasks[i]) in {None, Some(r)})
    {
    }
  }

  /** When every run completed, and there are at least two replicates, the law holds exactly for plans in which neither
      the output root, nor a task id, nor a stratum reads like a replicate. */
  lemma CompletedReadsOwnIff(st: Study)
    requires st.replicates >= 2
    requires forall i: nat, r: nat, c :: i < |st.tasks| && 1 <= r <= st.replicates ==>
      st.left(st.Run(st.tasks[i], r, c).runDir.parts).run
    ensures ReadsOwn(st) <==> forall i: nat :: i < |st.tasks| ==> st.Mark(st.tasks[i]).None?
  {
    hide PathReplicate, RunOf;
    ReadsOwnIff(st);
    if ReadsOwn(st) {
      forall i: nat | i < |st.tasks| ensures st.Mark(st.tasks[i]).None? {
        assert OwnAt(st, i, 1, Baseline) && OwnAt(st, i, 2, Baseline);
      }
    }
  }

  /** A task id that does: every replicate of "fix-rep-2" is read as the second. */
  lemma MarkedTaskId(st: Study)
    requires st.settings.root == Path(true, ["out"]) && st.tasks == [TaskSpec("fix-rep-2", "s", "", "", "")]
    ensures st.Mark(st.tasks[0]) == Some(2)
  {
    MarkedSegments();
    JoinSegment(st.settings.root, "fix-rep-2");
    JoinSegment(Path(true, ["out", "fix-rep-2"]), "s");
    assert ["out"] + ["fix-rep-2"] == ["out", "fix-rep-2"] && ["out", "fix-rep-2"] + ["s"] == ["out", "fix-rep-2", "s"];
    MarkedText();
    MarkedPath();
  }

  lemma MarkedSegments()
    ensures SingleSegment("fix-rep-2") && SingleSegment("s")
  {
    assert |"fix-rep-2"| == 9 && |"s"| == 1 && "s"[0] == 's';
  }

  lemma MarkedText()
    ensures PathText(Path(true, ["out", "fix-rep-2", "s"])) == MARKED
  {
    var parts := ["/"] + ["out", "fix-rep-2", "s"];
    assert parts[..3] == ["/", "out", "fix-rep-2"] && parts[..3][..2] == ["/", "out"] && parts[..3][..2][..1] == ["/"];
    assert Slashed(["/"]) == "/";
    assert Slashed(["/", "out"]) == "/" + "/" + "out";
    assert Slashed(["/", "out", "fix-rep-2"]) == "/" + "/" + "out" + "/" + "fix-rep-2";
    assert Slashed(parts) == "//out/fix-rep-2/s";
  }

  const MARKED := "//out/fix-rep-2/s"

  /** Where words can start in it, and with which letters. */
  lemma MarkedStarts(q: nat)
    requires q < 17 && Starts(MARKED, q)
    ensures q in {0, 1, 2, 6, 10, 14, 16}
    ensures MARKED[q] in {'/', 'o', 'f', 'r', '2', 's'} && (MARKED[q] == 'r' <==> q == 10)
  {
    var s := MARKED;
    assert s[0] == '/' && s[1] == '/' && s[2] == 'o' && s[3] == 'u' && s[4] == 't' && s[5] == '/' && s[6] == 'f';
    assert s[7] == 'i' && s[8] == 'x' && s[9] == '-' && s[10] == 'r' && s[11] == 'e' && s[12] == 'p' && s[13] == '-';
    assert s[14] == '2' && s[15] == '/' && s[16] == 's';
  }

  lemma MarkedRep()
    ensures RepAt(MARKED, 10) == Some(2) && |MARKED| == 17
  {
    var s := MARKED;
    assert s[9] == '-' && s[13] == '-' && s[14] == '2' && s[15] == '/' && s[10..13] == "rep";
    NotHere(s, "licate", 13);
    DigitsOver(s, 14, 15);
    assert s[14..15] == "2";
    assert Decimal.Value("2") == 2 by { assert "2"[..0] == ""; }
  }

  lemma MarkedPath()
    ensures PathReplicate(MARKED) == Some(2)
  {
    MarkedRep();
    hide MARKED, RepAt;
    var s := MARKED;
    forall q: nat | q <= 17 ensures ArmsIn(s)(q).None? { NoArm(q); }
    FirstNone(ArmsIn(s), 0, 17);
    forall q: nat | q < 10 ensures RepsIn(s)(q).None? { NoRep(q); }
    FirstNone(RepsIn(s), 0, 9);
    FirstSplit(RepsIn(s), 0, 9, 17);
    assert RepsIn(s)(10) == Some(2);
  }

  lemma NoArm(q: nat)
    ensures ArmAt(MARKED, q).None?
  {
    MarkedRep();
    hide MARKED;
    if q < 17 && Starts(MARKED, q) {
      MarkedStarts(q);
      NotHere(MARKED, "baseline", q);
      NotHere(MARKED, "treatment", q);
    }
  }

  lemma NoRep(q: nat)
    requires q < 10
    ensures RepAt(MARKED, q).None?
  {
    MarkedRep();
    hide MARKED;
    if Starts(MARKED, q) {
      MarkedStarts(q);
      NotHere(MARKED, "rep", q);
    }
  }

  /** The discovered layout is the planned one: what discovery calls a run's output is the plan's output directory. */
  lemma OutputIsPlanned(st: Study, task: TaskSpec, r: nat, c: Condition, root: FilePath)
    requires st.settings.useMode == "voluntary"
    ensures Output(st.Run(task, r, c).runDir.parts) == st.Run(task, r, c).outputDir.parts
    ensures forall d: FilePath, l :: root in RowsOf(d, l) <==>
              ((l.orientation || l.run) && root == d + ["output"]) || (!l.orientation && l.driver && root == d)
  {
    hide Join, RunDir;
    RunOfIs(st.settings, task, r, c);
  }
}
