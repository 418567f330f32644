/** The counterbalanced cohort plan: its runs, where they live and the keys their pairs are printed under. */
module Plan {
  import opened Common
  import opened Decimal
  import opened Grouping
  import opened Paths
  import opened Sequences

  // ---------------------------------------------------------------- the plan

  datatype TaskSpec = TaskSpec(taskId: string, stratum: string, language: string, backend: string, image: string)

  datatype PlannedRun = PlannedRun(
    taskId: string, stratum: string, backend: string, useMode: string, condition: Condition,
    toolSurface: string, budget: int, replicate: string, pairKey: string, image: string,
    runDir: Path, sourceDir: Path, outputDir: Path)

  datatype ReplicatePlan = ReplicatePlan(replicate: string, order: seq<Condition>, pairKey: string,
      runs: seq<PlannedRun>)

  datatype TaskPlan = TaskPlan(taskId: string, stratum: string, language: string, backend: string,
      replicates: seq<ReplicatePlan>)

  datatype PlanError = UnsupportedUseMode | ReplicatesNotPositive | BudgetTooSmall

  function ConditionOrder(replicate: nat): seq<Condition> {
    if replicate % 2 == 1 then [Baseline, Treatment] else [Treatment, Baseline]
  }

  function Surface(c: Condition): string {
    if c.Baseline? then "text-only" else "additive"
  }

  function RunDir(root: Path, task: TaskSpec, replicate: nat, c: Condition, useMode: string): Path {
    Join(Join(Join(Join(Join(root, task.taskId), task.stratum), useMode), "rep-" + Show02(replicate)), c.Name())
  }

  function PairKeyText(task: TaskSpec, useMode: string, replicate: nat): string {
    task.taskId + ":" + task.stratum + ":" + useMode + ":" + Show02(replicate)
  }

  /** The settings a whole plan shares. */
  datatype Settings = Settings(root: Path, useMode: string, budget: int)

  function RunOf(s: Settings, task: TaskSpec, replicate: nat, c: Condition): PlannedRun {
    PlannedRun(task.taskId, task.stratum, task.backend, s.useMode, c, Surface(c), s.budget, Show02(replicate),
               PairKeyText(task, s.useMode, replicate), task.image, RunDir(s.root, task, replicate, c, s.useMode),
               Join(RunDir(s.root, task, replicate, c, s.useMode), "source"),
               Join(RunDir(s.root, task, replicate, c, s.useMode), "output"))
  }

  function ReplicateRuns(s: Settings, task: TaskSpec, replicate: nat): seq<PlannedRun> {
    var order := ConditionOrder(replicate);
    [RunOf(s, task, replicate, order[0]), RunOf(s, task, replicate, order[1])]
  }

  function RunsOf(s: Settings, task: TaskSpec): nat -> seq<PlannedRun> {
    (replicate: nat) => ReplicateRuns(s, task, replicate)
  }

  function TaskRuns(s: Settings, replicates: nat): TaskSpec -> seq<PlannedRun> {
    task => FlatMap(RunsOf(s, task), OneTo(replicates))
  }

  /** Every run of a plan, in execution order. */
  function PlannedRuns(s: Settings, tasks: seq<TaskSpec>, replicates: nat): seq<PlannedRun> {
    FlatMap(TaskRuns(s, replicates), tasks)
  }

  function RunsOfReplicate(r: ReplicatePlan): seq<PlannedRun> {
    r.runs
  }

  function RunsOfTask(t: TaskPlan): seq<PlannedRun> {
    FlatMap(RunsOfReplicate, t.replicates)
  }

  /** The runs of a finished plan in the order the driver executes them. */
  function RunsIn(plan: seq<TaskPlan>): seq<PlannedRun> {
    FlatMap(RunsOfTask, plan)
  }

  function ReplicatePlanOf(s: Settings, task: TaskSpec, r: nat): ReplicatePlan {
    ReplicatePlan(Show02(r), ConditionOrder(r), PairKeyText(task, s.useMode, r), ReplicateRuns(s, task, r))
  }

  function ReplicatePlans(s: Settings, task: TaskSpec, replicates: nat): (plans: seq<ReplicatePlan>)
    ensures |plans| == replicates
  {
    seq(replicates, i requires 0 <= i < replicates => ReplicatePlanOf(s, task, i + 1))
  }

  function TaskPlanOf(s: Settings, task: TaskSpec, replicates: nat): TaskPlan {
    TaskPlan(task.taskId, task.stratum, task.language, task.backend, ReplicatePlans(s, task, replicates))
  }

  method BuildRuns(s: Settings, task: TaskSpec, replicate: nat) returns (runs: seq<PlannedRun>)
    ensures runs == ReplicateRuns(s, task, replicate)
  {
    hide RunDir, PairKeyText, Show02, Join;
    var order := ConditionOrder(replicate);
    var pairKey := PairKeyText(task, s.useMode, replicate);
    runs := [];
    for k := 0 to |order|
      invariant |runs| == k
      invariant forall m :: 0 <= m < k ==> runs[m] == RunOf(s, task, replicate, order[m])
    {
      var c := order[k];
      var runDir := RunDir(s.root, task, replicate, c, s.useMode);
      var sourceDir, outputDir := Join(runDir, "source"), Join(runDir, "output");
      var surface := if c.Baseline? then "text-only" else "additive";
      runs := runs + [PlannedRun(task.taskId, task.stratum, task.backend, s.useMode, c, surface, s.budget,
                                 Show02(replicate), pairKey, task.image, runDir, sourceDir, outputDir)];
    }
  }

  method BuildReplicates(s: Settings, task: TaskSpec, replicates: nat) returns (plans: seq<ReplicatePlan>)
    ensures plans == ReplicatePlans(s, task, replicates)
  {
    hide RunDir, PairKeyText, Show02, ReplicateRuns;
    plans := [];
    for replicate := 1 to replicates + 1
      invariant plans == ReplicatePlans(s, task, replicate - 1)
    {
      var runs := BuildRuns(s, task, replicate);
      plans := plans + [ReplicatePlan(Show02(replicate), ConditionOrder(replicate),
                                      PairKeyText(task, s.useMode, replicate), runs)];
    }
  }

  method BuildTasks(s: Settings, tasks: seq<TaskSpec>, replicates: nat) returns (plans: seq<TaskPlan>)
    ensures |plans| == |tasks|
    ensures forall i :: 0 <= i < |tasks| ==> plans[i] == TaskPlanOf(s, tasks[i], replicates)
  {
    hide ReplicatePlans, ReplicatePlanOf;
    plans := [];
    for i := 0 to |tasks|
      invariant |plans| == i
      invariant forall j :: 0 <= j < i ==> plans[j] == TaskPlanOf(s, tasks[j], replicates)
    {
      var replicatePlans := BuildReplicates(s, tasks[i], replicates);
      plans := plans + [TaskPlan(tasks[i].taskId, tasks[i].stratum, tasks[i].language, tasks[i].backend,
          replicatePlans)];
    }
  }

  /** The driver's nested loops over tasks, replicates and arms. */
  method BuildPlan(tasks: seq<TaskSpec>, root: Path, replicates: int, useMode: string, budget: int)
    returns (r: Result<seq<TaskPlan>, PlanError>)
    ensures r == Err(UnsupportedUseMode) <==> useMode != "voluntary"
    ensures r == Err(ReplicatesNotPositive) <==> useMode == "voluntary" && replicates < 1
    ensures r == Err(BudgetTooSmall) <==> useMode == "voluntary" && replicates >= 1 && budget < 2
    ensures r.Ok? ==> useMode == "voluntary" && replicates >= 1 && budget >= 2
    ensures r.Ok? ==> |r.value| == |tasks|
    ensures r.Ok? ==> forall i :: 0 <= i < |tasks| ==>
              r.value[i] == TaskPlanOf(Settings(root, useMode, budget), tasks[i], replicates)
  {
    if useMode != "voluntary" { return Err(UnsupportedUseMode); }
    if replicates < 1 { return Err(ReplicatesNotPositive); }
    if budget < 2 { return Err(BudgetTooSmall); }
    var plans := BuildTasks(Settings(root, useMode, budget), tasks, replicates);
    return Ok(plans);
  }

  /** Executing a finished plan runs exactly the planned runs, task by task and replicate by replicate. */
  lemma PlanRunsAreThePlannedRuns(s: Settings, tasks: seq<TaskSpec>, replicates: nat, plan: seq<TaskPlan>)
    requires |plan| == |tasks| && forall i :: 0 <= i < |tasks| ==> plan[i] == TaskPlanOf(s, tasks[i], replicates)
    ensures RunsIn(plan) == PlannedRuns(s, tasks, replicates)
  {
    hide ReplicateRuns;
    forall i | 0 <= i < |tasks| ensures RunsOfTask(plan[i]) == TaskRuns(s, replicates)(tasks[i]) {
      FlatMapAgree(RunsOfReplicate, plan[i].replicates, RunsOf(s, tasks[i]), OneTo(replicates));
    }
    FlatMapAgree(RunsOfTask, plan, TaskRuns(s, replicates), tasks);
  }

  /** Where one arm of a task and replicate stands: its run on fields, directory by directory. */
  predicate IsRun(run: PlannedRun, s: Settings, task: TaskSpec, r: nat, c: Condition) {
    && run.taskId == task.taskId && run.stratum == task.stratum && run.backend == task.backend
    && run.image == task.image
    && run.useMode == s.useMode && run.budget == s.budget && run.condition == c && run.replicate == Show02(r)
    && run.toolSurface == (if c == Baseline then "text-only" else "additive")
    && run.pairKey == task.taskId + ":" + task.stratum + ":" + s.useMode + ":" + Show02(r)
    && var base := Join(Join(s.root, task.taskId), task.stratum);
    && run.runDir == base.(parts := base.parts + ["voluntary", "rep-" + Show02(r), c.Name()])
    && run.sourceDir == run.runDir.(parts := run.runDir.parts + ["source"])
    && run.outputDir == run.runDir.(parts := run.runDir.parts + ["output"])
  }

  lemma RunOfIs(s: Settings, task: TaskSpec, r: nat, c: Condition)
    requires s.useMode == "voluntary"
    ensures IsRun(RunOf(s, task, r, c), s, task, r, c)
  {
    hide RunDir, Join;
    RunDirShape(s.root, task, r, c);
    JoinSegment(RunDir(s.root, task, r, c, "voluntary"), "source");
    JoinSegment(RunDir(s.root, task, r, c, "voluntary"), "output");
  }

  /** The plan is counterbalanced: task `i` and replicate `r` take places `2 * (i * replicates + r - 1)` and the next,
      the baseline arm first when `r` is odd and the treatment arm first when it is even. */
  lemma PlanIsCounterbalanced(s: Settings, tasks: seq<TaskSpec>, replicates: nat, plan: seq<TaskPlan>, i: nat, r: nat)
    requires s.useMode == "voluntary" && i < |tasks| && 1 <= r <= replicates
    requires |plan| == |tasks| && forall j :: 0 <= j < |tasks| ==> plan[j] == TaskPlanOf(s, tasks[j], replicates)
    ensures var p := 2 * (i * replicates + r - 1);
            && |RunsIn(plan)| == 2 * (|tasks| * replicates) && 0 <= p && p + 1 < |RunsIn(plan)|
            && IsRun(RunsIn(plan)[p], s, tasks[i], r, if r % 2 == 1 then Baseline else Treatment)
            && IsRun(RunsIn(plan)[p + 1], s, tasks[i], r, if r % 2 == 1 then Treatment else Baseline)
  {
    hide FlatMap, RunOf, IsRun, TaskPlanOf;
    PlanRunsAreThePlannedRuns(s, tasks, replicates, plan);
    var n := replicates * 2;
    forall j | 0 <= j < |tasks| ensures |TaskRuns(s, replicates)(tasks[j])| == n {
      FlatMapLength(RunsOf(s, tasks[j]), OneTo(replicates), 2);
    }
    FlatMapLength(TaskRuns(s, replicates), tasks, n);
    FlatMapAt(RunsOf(s, tasks[i]), OneTo(replicates), 2, r - 1, 0);
    FlatMapAt(RunsOf(s, tasks[i]), OneTo(replicates), 2, r - 1, 1);
    FlatMapAt(TaskRuns(s, replicates), tasks, n, i, (r - 1) * 2);
    FlatMapAt(TaskRuns(s, replicates), tasks, n, i, (r - 1) * 2 + 1);
    PlaceArithmetic(i, replicates, |tasks|, r);
    RunOfIs(s, tasks[i], r, Baseline);
    RunOfIs(s, tasks[i], r, Treatment);
  }

  lemma PlaceArithmetic(i: nat, replicates: nat, count: nat, r: nat)
    requires i < count && 1 <= r <= replicates
    ensures i * (replicates * 2) + (r - 1) * 2 == 2 * (i * replicates + r - 1)
    ensures count * (replicates * 2) == 2 * (count * replicates)
    ensures 0 <= i * replicates && 2 * (i * replicates + r - 1) + 1 < 2 * (count * replicates)
  {
    Doubled(i, replicates);
    Doubled(count, replicates);
    LaterBlock(i, count, replicates);
  }

  lemma Doubled(a: nat, b: nat)
    ensures a * (b * 2) == 2 * (a * b) && a * b >= 0
  {
  }

  lemma {:induction false} LaterBlock(i: nat, count: nat, n: nat)
    requires i < count
    ensures i * n + n <= count * n
  {
    if i + 1 < count {
      LaterBlock(i, count - 1, n);
      assert count * n == (count - 1) * n + n;
    } else {
      assert count * n == i * n + n;
    }
  }

  /** What the nested plan says besides its runs: per task its fields, per replicate its label, order and pair key. */
  lemma PlanHeads(s: Settings, task: TaskSpec, replicates: nat, r: nat)
    requires 1 <= r <= replicates
    ensures var t := TaskPlanOf(s, task, replicates);
            && t.taskId == task.taskId && t.stratum == task.stratum && t.language == task.language
            && t.backend == task.backend && |t.replicates| == replicates
            && t.replicates[r - 1].replicate == Show02(r)
            && t.replicates[r - 1].order == (if r % 2 == 1 then [Baseline, Treatment] else [Treatment, Baseline])
            && t.replicates[r - 1].pairKey == task.taskId + ":" + task.stratum + ":" + s.useMode + ":" + Show02(r)
            && |t.replicates[r - 1].runs| == 2
            && t.replicates[r - 1].runs[0].condition == t.replicates[r - 1].order[0]
            && t.replicates[r - 1].runs[1].condition == t.replicates[r - 1].order[1]
  {
    hide RunDir, Join, Show02;
    assert TaskPlanOf(s, task, replicates).replicates[r - 1] == ReplicatePlanOf(s, task, r);
  }

  // ---------------------------------------------------------------- run directories

  /** The directory all runs of one task share. */
  function TaskDir(root: Path, task: TaskSpec): Path {
    Join(Join(root, task.taskId), task.stratum)
  }

  /** The same directory as the file system sees it. */
  function TaskDirs(root: Path, tasks: seq<TaskSpec>): seq<Path> {
    seq(|tasks|, i requires 0 <= i < |tasks| => Resolved(TaskDir(root, tasks[i])))
  }

  /** The run directories as the file system sees them. */
  function DirsOf(runs: seq<PlannedRun>): (dirs: seq<Path>)
    ensures |dirs| == |runs|
  {
    seq(|runs|, i requires 0 <= i < |runs| => Resolved(runs[i].runDir))
  }

  lemma RepIsSegment(replicate: nat)
    ensures SingleSegment("rep-" + Show02(replicate))
  {
    var text := "rep-" + Show02(replicate);
    assert text[0] == 'r';
    forall i | 0 <= i < |text| ensures text[i] != '/' {
      if i >= 4 { assert text[i] == Show02(replicate)[i - 4]; }
    }
  }

  lemma RunDirShape(root: Path, task: TaskSpec, replicate: nat, c: Condition)
    ensures var base := TaskDir(root, task);
            RunDir(root, task, replicate, c, "voluntary") ==
            base.(parts := base.parts + ["voluntary", "rep-" + Show02(replicate), c.Name()])
  {
    hide Join;
    var base := TaskDir(root, task);
    var rep, arm := "rep-" + Show02(replicate), c.Name();
    RepIsSegment(replicate);
    var p1 := base.(parts := base.parts + ["voluntary"]);
    var p2 := p1.(parts := p1.parts + [rep]);
    JoinSegment(base, "voluntary");
    JoinSegment(p1, rep);
    JoinSegment(p2, arm);
    assert p2.parts + [arm] == base.parts + ["voluntary", rep, arm];
  }

  function RunTail(replicate: nat, c: Condition): (tail: seq<string>)
    ensures |tail| == 3 && ".." !in tail
  {
    var rep := "rep-" + Show02(replicate);
    assert rep[0] == 'r' && c.Name()[0] != '.' && "voluntary"[0] == 'v';
    ["voluntary", rep, c.Name()]
  }

  lemma RunTailInjective(r: nat, c: Condition, r': nat, c': Condition)
    ensures RunTail(r, c) == RunTail(r', c') <==> r == r' && c == c'
  {
    hide Show02;
    if RunTail(r, c) == RunTail(r', c') {
      assert RunTail(r, c)[1] == RunTail(r', c')[1] && RunTail(r, c)[2] == RunTail(r', c')[2];
      assert ("rep-" + Show02(r))[4..] == Show02(r) && ("rep-" + Show02(r'))[4..] == Show02(r');
      LabelInjective(r, r');
    }
  }

  /** The last three components of a run directory never step upwards. */
  lemma RunDirResolves(root: Path, task: TaskSpec, replicate: nat, c: Condition)
    ensures var base := Resolved(TaskDir(root, task));
            Resolved(RunDir(root, task, replicate, c, "voluntary"))
                == base.(parts := base.parts + RunTail(replicate, c))
  {
    hide RunDir, TaskDir;
    RunDirShape(root, task, replicate, c);
    ResolveAppend(TaskDir(root, task).parts, RunTail(replicate, c));
  }

  lemma RunDirEqual(root: Path, t: TaskSpec, r: nat, c: Condition, t': TaskSpec, r': nat, c': Condition)
    ensures Resolved(RunDir(root, t, r, c, "voluntary")) == Resolved(RunDir(root, t', r', c', "voluntary"))
            <==> Resolved(TaskDir(root, t)) == Resolved(TaskDir(root, t')) && r == r' && c == c'
  {
    hide RunDir, TaskDir, Resolved, RunTail;
    RunDirResolves(root, t, r, c);
    RunDirResolves(root, t', r', c');
    RunTailInjective(r, c, r', c');
    var b, b' := Resolved(TaskDir(root, t)), Resolved(TaskDir(root, t'));
    var tail, tail' := RunTail(r, c), RunTail(r', c');
    if b.parts + tail == b'.parts + tail' {
      var n := |b.parts|;
      assert n == |b'.parts|;
      assert (b.parts + tail)[..n] == b.parts && (b'.parts + tail')[..n] == b'.parts;
      assert (b.parts + tail)[n..] == tail && (b'.parts + tail')[n..] == tail';
    }
  }

  lemma RunMember(s: Settings, tasks: seq<TaskSpec>, replicates: nat, run: PlannedRun)
    ensures run in PlannedRuns(s, tasks, replicates) <==>
            exists i: nat, r: nat :: i < |tasks| && 1 <= r <= replicates && run == RunOf(s, tasks[i], r, run.condition)
  {
    hide RunOf, TaskRuns;
    FlatMapMember(TaskRuns(s, replicates), tasks, run);
    forall i: nat | i < |tasks|
      ensures run in TaskRuns(s, replicates)(tasks[i]) <==>
              exists r: nat :: 1 <= r <= replicates && run == RunOf(s, tasks[i], r, run.condition)
    {
      TaskRunMember(s, tasks[i], replicates, run);
    }
  }

  lemma TaskRunMember(s: Settings, task: TaskSpec, replicates: nat, run: PlannedRun)
    ensures run in TaskRuns(s, replicates)(task) <==>
            exists r: nat :: 1 <= r <= replicates && run == RunOf(s, task, r, run.condition)
  {
    hide RunOf, ReplicateRuns;
    FlatMapMember(RunsOf(s, task), OneTo(replicates), run);
    forall i | 0 <= i < replicates
      ensures run in RunsOf(s, task)(OneTo(replicates)[i]) <==> run == RunOf(s, task, i + 1, run.condition)
    {
      ReplicateRunMember(s, task, i + 1, run);
    }
    if r: nat :| 1 <= r <= replicates && run == RunOf(s, task, r, run.condition) {
      assert OneTo(replicates)[r - 1] == r;
    }
  }

  lemma ReplicateRunMember(s: Settings, task: TaskSpec, replicate: nat, run: PlannedRun)
    ensures run in ReplicateRuns(s, task, replicate) <==> run == RunOf(s, task, replicate, run.condition)
  {
    hide RunDir, PairKeyText, Show02, Join;
    var order := ConditionOrder(replicate);
    assert run.condition == order[0] || run.condition == order[1];
  }

  lemma PlannedRunsDistinct(s: Settings, tasks: seq<TaskSpec>, replicates: nat)
    requires s.useMode == "voluntary" && Distinct(TaskDirs(s.root, tasks))
    ensures Distinct(PlannedRuns(s, tasks, replicates))
  {
    hide RunDir, PairKeyText, TaskDir, Show02, Resolved, Join;
    forall i | 0 <= i < |tasks| ensures Distinct(TaskRuns(s, replicates)(tasks[i])) {
      TaskRunsDistinct(s, tasks[i], replicates);
    }
    forall i, j, run | 0 <= i < j < |tasks| && run in TaskRuns(s, replicates)(tasks[i])
      ensures run !in TaskRuns(s, replicates)(tasks[j])
    {
      TaskRunMember(s, tasks[i], replicates, run);
      TaskRunMember(s, tasks[j], replicates, run);
      assert TaskDirs(s.root, tasks)[i] != TaskDirs(s.root, tasks)[j];
      forall r: nat, r': nat, c ensures RunOf(s, tasks[i], r, c) != RunOf(s, tasks[j], r', c) {
        RunDirEqual(s.root, tasks[i], r, c, tasks[j], r', c);
      }
    }
    FlatMapDistinct(TaskRuns(s, replicates), tasks);
  }

  lemma TaskRunsDistinct(s: Settings, task: TaskSpec, replicates: nat)
    requires s.useMode == "voluntary"
    ensures Distinct(TaskRuns(s, replicates)(task))
  {
    hide RunDir, PairKeyText, Show02, Resolved, Join;
    var reps := OneTo(replicates);
    forall i, j, run | 0 <= i < j < |reps| && run in RunsOf(s, task)(reps[i])
      ensures run !in RunsOf(s, task)(reps[j])
    {
      ReplicateRunMember(s, task, reps[i], run);
      ReplicateRunMember(s, task, reps[j], run);
      RunDirEqual(s.root, task, reps[i], run.condition, task, reps[j], run.condition);
    }
    FlatMapDistinct(RunsOf(s, task), reps);
  }

  lemma RunsApart(s: Settings, tasks: seq<TaskSpec>, replicates: nat, a: PlannedRun, b: PlannedRun)
    requires s.useMode == "voluntary" && Distinct(TaskDirs(s.root, tasks))
    requires a in PlannedRuns(s, tasks, replicates) && b in PlannedRuns(s, tasks, replicates) && a != b
    ensures Resolved(a.runDir) != Resolved(b.runDir)
  {
    hide RunDir, PairKeyText, TaskDir, Show02, Resolved, Join, PlannedRuns;
    RunMember(s, tasks, replicates, a);
    RunMember(s, tasks, replicates, b);
    var i: nat, r: nat :| i < |tasks| && 1 <= r <= replicates && a == RunOf(s, tasks[i], r, a.condition);
    var j: nat, r': nat :| j < |tasks| && 1 <= r' <= replicates && b == RunOf(s, tasks[j], r', b.condition);
    RunDirEqual(s.root, tasks[i], r, a.condition, tasks[j], r', b.condition);
    assert TaskDirs(s.root, tasks)[i] == Resolved(TaskDir(s.root, tasks[i]));
    assert TaskDirs(s.root, tasks)[j] == Resolved(TaskDir(s.root, tasks[j]));
  }

  /** No two runs share a directory of the file system exactly when no two tasks do. */
  lemma RunDirsDistinctIff(s: Settings, tasks: seq<TaskSpec>, replicates: nat)
    requires s.useMode == "voluntary" && replicates >= 1
    ensures Distinct(DirsOf(PlannedRuns(s, tasks, replicates))) <==> Distinct(TaskDirs(s.root, tasks))
  {
    hide RunDir, PairKeyText, TaskDir, Show02, Resolved, Join;
    var runs := PlannedRuns(s, tasks, replicates);
    if Distinct(TaskDirs(s.root, tasks)) {
      PlannedRunsDistinct(s, tasks, replicates);
      forall a, b | 0 <= a < b < |runs| ensures DirsOf(runs)[a] != DirsOf(runs)[b] {
        assert runs[a] in runs && runs[b] in runs;
        RunsApart(s, tasks, replicates, runs[a], runs[b]);
      }
    } else {
      var i, j :| 0 <= i < j < |tasks| && TaskDirs(s.root, tasks)[i] == TaskDirs(s.root, tasks)[j];
      var run, run' := RunOf(s, tasks[i], 1, Baseline), RunOf(s, tasks[j], 1, Baseline);
      TaskRunMember(s, tasks[i], replicates, run);
      TaskRunMember(s, tasks[j], replicates, run');
      RunDirEqual(s.root, tasks[i], 1, Baseline, tasks[j], 1, Baseline);
      var a, b := FlatMapPositions(TaskRuns(s, replicates), tasks, i, j, run, run');
      assert DirsOf(runs)[a] == DirsOf(runs)[b];
    }
  }

  /** A stratum that stays below the directory it is joined to. */
  predicate StaysBelow(stratum: string) {
    var p := ParsePath(stratum);
    !p.absolute && ".." !in p.parts
  }

  /** What the driver accepts as a task id: one path component that does not step upwards. */
  predicate TaskName(taskId: string) {
    SingleSegment(taskId) && taskId != ".."
  }

  lemma TaskDirShape(root: Path, task: TaskSpec)
    requires TaskName(task.taskId) && StaysBelow(task.stratum)
    ensures var tail := [task.taskId] + ParsePath(task.stratum).parts;
            && TaskDir(root, task) == root.(parts := root.parts + tail)
            && Resolved(TaskDir(root, task)) == Resolved(root).(parts := Resolved(root).parts + tail)
            && ".." !in tail
  {
    JoinSegment(root, task.taskId);
    var tail := [task.taskId] + ParsePath(task.stratum).parts;
    hide ParsePath;
    assert root.parts + [task.taskId] + ParsePath(task.stratum).parts == root.parts + tail;
    ResolveAppend(root.parts, tail);
  }

  /** Distinct task names with strata that stay below them always give distinct run directories. */
  lemma RelativeStrataSuffice(s: Settings, tasks: seq<TaskSpec>, replicates: nat)
    requires s.useMode == "voluntary" && replicates >= 1
    requires forall i, j :: 0 <= i < j < |tasks| ==> tasks[i].taskId != tasks[j].taskId
    requires forall i :: 0 <= i < |tasks| ==> TaskName(tasks[i].taskId) && StaysBelow(tasks[i].stratum)
    ensures Distinct(DirsOf(PlannedRuns(s, tasks, replicates)))
  {
    hide TaskDir, Resolved, StaysBelow, TaskName;
    var n := |Resolved(s.root).parts|;
    forall i | 0 <= i < |tasks|
      ensures |TaskDirs(s.root, tasks)[i].parts| > n && TaskDirs(s.root, tasks)[i].parts[n] == tasks[i].taskId
    {
      TaskDirShape(s.root, tasks[i]);
    }
    forall i, j | 0 <= i < j < |tasks| ensures TaskDirs(s.root, tasks)[i] != TaskDirs(s.root, tasks)[j] {
      assert tasks[i].taskId != tasks[j].taskId;
    }
    RunDirsDistinctIff(s, tasks, replicates);
  }

  /** An absolute stratum discards what precedes it, so tasks that share one share every run directory. */
  lemma AbsoluteStratumCollides(s: Settings, replicates: nat)
    requires s.useMode == "voluntary" && replicates >= 1
    ensures var tasks := [TaskSpec("a", "/x", "", "", ""), TaskSpec("b", "/x", "", "", "")];
            !Distinct(DirsOf(PlannedRuns(s, tasks, replicates)))
  {
    var tasks := [TaskSpec("a", "/x", "", "", ""), TaskSpec("b", "/x", "", "", "")];
    RunDirsDistinctIff(s, tasks, replicates);
    assert TaskDirs(s.root, tasks)[0] == TaskDirs(s.root, tasks)[1];
  }

  /** A stratum that steps upwards can lead into the directory of another task. */
  lemma UpwardStratumCollides(s: Settings, replicates: nat)
    requires s.useMode == "voluntary" && replicates >= 1
    ensures var tasks := [TaskSpec("a", "../b/x", "", "", ""), TaskSpec("b", "x", "", "", "")];
            !Distinct(DirsOf(PlannedRuns(s, tasks, replicates)))
  {
    var t, u := TaskSpec("a", "../b/x", "", "", ""), TaskSpec("b", "x", "", "", "");
    RunDirsDistinctIff(s, [t, u], replicates);
    UpIntoSibling(s.root, t, u);
    hide TaskDir, Resolved;
    assert TaskDirs(s.root, [t, u])[0] == TaskDirs(s.root, [t, u])[1];
  }

  lemma UpIntoSibling(root: Path, t: TaskSpec, u: TaskSpec)
    requires t.taskId == "a" && t.stratum == "../b/x" && u.taskId == "b" && u.stratum == "x"
    ensures Resolved(TaskDir(root, t)) == Resolved(TaskDir(root, u))
  {
    JoinSegment(root, "a");
    JoinSegment(root, "b");
    ParseSegment("x");
    ParseUpward();
    hide ParsePath;
    UpAndDown(root.parts);
  }

  lemma UpAndDown(home: seq<string>)
    ensures Resolve(home + ["a"] + ["..", "b", "x"]) == Resolve(home + ["b"] + ["x"])
  {
    hide Resolve;
    var below, tail := home + ["a"], ["b", "x"];
    assert |".."| == 2 && ".." !in ["a"] && ".." !in tail;
    ResolveAppend(home, ["a"]);
    ResolveUp(below);
    ResolveAppend(below + [".."], tail);
    ResolveAppend(home, tail);
    assert below + ["..", "b", "x"] == (below + [".."]) + tail;
    assert home + ["b"] + ["x"] == home + tail;
    assert (Resolve(home) + ["a"])[..|Resolve(home)|] == Resolve(home);
  }

  lemma ParseUpward()
    ensures ParsePath("../b/x") == Path(false, ["..", "b", "x"])
  {
    SplitUpward();
    hide Split;
    assert "../b/x"[0] == '.';
    var fields := ["..", "b", "x"];
    forall i | 0 <= i < 3 ensures Kept(fields[i]) { assert |".."| == 2 && "b"[0] == 'b' && "x"[0] == 'x'; }
    FilterKeepsAll(Kept, fields);
  }

  lemma SplitUpward()
    ensures Split("../b/x", '/') == ["..", "b", "x"]
  {
    hide Split;
    var tail := "b" + ['/'] + "x";
    assert '/' !in "x" && '/' !in "b" && '/' !in "..";
    SplitFirst("b", "x", '/');
    SplitFirst("..", tail, '/');
    assert tail == "b/x" && ".." + ['/'] + tail == "../b/x";
  }

  // ---------------------------------------------------------------- pair keys

  /** What a pair key starts with. */
  function TaskLabel(t: TaskSpec): string {
    t.taskId + ":" + t.stratum
  }

  lemma {:induction false} LastField(a: string, n: string, b: string, m: string)
    requires ':' !in n && ':' !in m && a + ":" + n == b + ":" + m
    ensures a == b && n == m
  {
    var x, y := a + ":" + n, b + ":" + m;
    assert x[|x| - 1] == y[|y| - 1];
    assert n != "" ==> x[|x| - 1] == n[|n| - 1] && n[|n| - 1] in n;
    assert m != "" ==> y[|y| - 1] == m[|m| - 1] && m[|m| - 1] in m;
    if n != "" && m != "" {
      var n', m' := n[..|n| - 1], m[..|m| - 1];
      assert x[..|x| - 1] == a + ":" + n' && y[..|y| - 1] == b + ":" + m';
      LastField(a, n', b, m');
      assert n == n' + [n[|n| - 1]] && m == m' + [m[|m| - 1]];
    } else {
      assert x[..|a|] == a && y[..|b|] == b;
    }
  }

  /** Two pair keys are one text exactly when the replicates are one and the task labels are. */
  lemma PairKeyEqualIff(t: TaskSpec, r: nat, t': TaskSpec, r': nat, useMode: string)
    ensures PairKeyText(t, useMode, r) == PairKeyText(t', useMode, r') <==> r == r' && TaskLabel(t) == TaskLabel(t')
  {
    hide Show02;
    var x, x' := TaskLabel(t) + ":" + useMode, TaskLabel(t') + ":" + useMode;
    assert PairKeyText(t, useMode, r) == x + ":" + Show02(r) && PairKeyText(t', useMode, r') == x' + ":" + Show02(r');
    if PairKeyText(t, useMode, r) == PairKeyText(t', useMode, r') {
      LastField(x, Show02(r), x', Show02(r'));
      LabelInjective(r, r');
      assert x[..|TaskLabel(t)|] == TaskLabel(t) && x'[..|TaskLabel(t')|] == TaskLabel(t');
    }
  }

  /** The pair keys of a plan, one for each task and replicate. */
  function KeysOfTask(useMode: string, replicates: nat): TaskSpec -> seq<string> {
    (t: TaskSpec) => seq(replicates, i requires 0 <= i < replicates => PairKeyText(t, useMode, i + 1))
  }

  function PlanKeys(useMode: string, tasks: seq<TaskSpec>, replicates: nat): seq<string> {
    FlatMap(KeysOfTask(useMode, replicates), tasks)
  }

  function TaskLabels(tasks: seq<TaskSpec>): seq<string> {
    seq(|tasks|, i requires 0 <= i < |tasks| => TaskLabel(tasks[i]))
  }

  /** The keys of a plan are pairwise different exactly when its task labels are. */
  lemma PlanKeysDistinctIff(useMode: string, tasks: seq<TaskSpec>, replicates: nat)
    requires replicates >= 1
    ensures Distinct(PlanKeys(useMode, tasks, replicates)) <==> Distinct(TaskLabels(tasks))
  {
    hide PairKeyText, TaskLabel;
    var f := KeysOfTask(useMode, replicates);
    if Distinct(TaskLabels(tasks)) {
      forall i | 0 <= i < |tasks| ensures Distinct(f(tasks[i])) {
        forall a, b | 0 <= a < b < replicates ensures f(tasks[i])[a] != f(tasks[i])[b] {
          PairKeyEqualIff(tasks[i], a + 1, tasks[i], b + 1, useMode);
        }
      }
      forall i, j, k | 0 <= i < j < |tasks| && k in f(tasks[i]) ensures k !in f(tasks[j]) {
        assert TaskLabels(tasks)[i] != TaskLabels(tasks)[j];
        forall a, b | 0 <= a < replicates && 0 <= b < replicates ensures f(tasks[i])[a] != f(tasks[j])[b] {
          PairKeyEqualIff(tasks[i], a + 1, tasks[j], b + 1, useMode);
        }
      }
      FlatMapDistinct(f, tasks);
    } else {
      var i, j :| 0 <= i < j < |tasks| && TaskLabels(tasks)[i] == TaskLabels(tasks)[j];
      PairKeyEqualIff(tasks[i], 1, tasks[j], 1, useMode);
      assert f(tasks[i])[0] in f(tasks[i]) && f(tasks[j])[0] in f(tasks[j]);
      var a, b := FlatMapPositions(f, tasks, i, j, f(tasks[i])[0], f(tasks[j])[0]);
    }
  }

  lemma {:induction false} FirstField(a: string, rest: string, a': string, rest': string)
    requires ':' !in a && ':' !in a' && a + ":" + rest == a' + ":" + rest'
    ensures a == a' && rest == rest'
  {
    assert (a + ":" + rest)[0] == (a' + ":" + rest')[0];
    if a != "" && a' != "" {
      assert (a + ":" + rest)[1..] == a[1..] + ":" + rest;
      assert (a' + ":" + rest')[1..] == a'[1..] + ":" + rest';
      FirstField(a[1..], rest, a'[1..], rest');
      assert a == [a[0]] + a[1..] && a' == [a'[0]] + a'[1..];
    } else {
      assert (a + ":" + rest)[1..] == (a' + ":" + rest')[1..];
    }
  }

  /** In particular distinct task ids without a colon never share a key. */
  lemma ColonFreeIdsSuffice(useMode: string, tasks: seq<TaskSpec>, replicates: nat)
    requires replicates >= 1
    requires forall i :: 0 <= i < |tasks| ==> ':' !in tasks[i].taskId
    requires forall i, j :: 0 <= i < j < |tasks| ==> tasks[i].taskId != tasks[j].taskId
    ensures Distinct(PlanKeys(useMode, tasks, replicates))
  {
    forall i, j | 0 <= i < j < |tasks| ensures TaskLabels(tasks)[i] != TaskLabels(tasks)[j] {
      if TaskLabels(tasks)[i] == TaskLabels(tasks)[j] {
        FirstField(tasks[i].taskId, tasks[i].stratum, tasks[j].taskId, tasks[j].stratum);
      }
    }
    PlanKeysDistinctIff(useMode, tasks, replicates);
  }

  /** Two different tasks whose labels are one text, and so share every key. */
  lemma ColonCollision(useMode: string, replicates: nat)
    requires replicates >= 1
    ensures !Distinct(PlanKeys(useMode, [TaskSpec("a:b", "c", "", "", ""), TaskSpec("a", "b:c", "", "", "")],
        replicates))
  {
    var tasks := [TaskSpec("a:b", "c", "", "", ""), TaskSpec("a", "b:c", "", "", "")];
    assert "a:b" + ":" + "c" == "a" + ":" + "b:c";
    PlanKeysDistinctIff(useMode, tasks, replicates);
    assert TaskLabels(tasks)[0] == TaskLabels(tasks)[1];
  }

  /** Which task ids and strata keep run directories in place, on their texts. */
  lemma PlaceableIff(taskId: string, stratum: string)
    ensures TaskName(taskId) <==> taskId !in {"", ".", ".."} && '/' !in taskId
    ensures StaysBelow(stratum) <==> (stratum == "" || stratum[0] != '/') && ".." !in Split(stratum, '/')
  {
    assert "." != ".." && Kept("..");
    FilterMembers(Kept, Split(stratum, '/'));
    hide Filter, Split;
    assert StartsWith(stratum, "/") <==> stratum != "" && stratum[0] == '/';
  }
}
