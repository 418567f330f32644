/** The preregistered pilot: the frozen cell matrix and its counterbalanced order, and the run that gates after every
    cell and writes each artifact exactly once. */
module Pilot {
  import opened Common
  import opened Decimal
  import opened Paths
  import opened Sequences

  const REQUESTED_MODEL := "glm-5.3-flash"
  const FIXED_BUDGET := "0.50"

  datatype Cell = Cell(task: string, replicate: nat, condition: Condition)

  // ---------------------------------------------------------------- the matrix and its order

  function BothConditions(task: string): nat -> seq<Cell> {
    (r: nat) => [Cell(task, r, Baseline), Cell(task, r, Treatment)]
  }

  /** `CONDITIONS if rep % 2 else CONDITIONS[::-1]` */
  function Counterbalanced(task: string): nat -> seq<Cell> {
    (r: nat) => if r % 2 != 0 then [Cell(task, r, Baseline), Cell(task, r, Treatment)]
                else [Cell(task, r, Treatment), Cell(task, r, Baseline)]
  }

  function TaskCells(replicates: seq<nat>): string -> seq<Cell> {
    task => FlatMap(BothConditions(task), replicates)
  }

  function TaskOrder(replicates: seq<nat>): string -> seq<Cell> {
    task => FlatMap(Counterbalanced(task), replicates)
  }

  function ExpectedCells(tasks: seq<string>, replicates: seq<nat>): seq<Cell> {
    FlatMap(TaskCells(replicates), tasks)
  }

  function ExecutionOrder(tasks: seq<string>, replicates: seq<nat>): seq<Cell> {
    FlatMap(TaskOrder(replicates), tasks)
  }

  /** The execution order visits exactly the expected cells. */
  lemma OrderIsPermutation(tasks: seq<string>, replicates: seq<nat>)
    ensures Permutation(ExecutionOrder(tasks, replicates), ExpectedCells(tasks, replicates))
  {
    forall i | 0 <= i < |tasks| ensures Permutation(TaskOrder(replicates)(tasks[i]), TaskCells(replicates)(tasks[i])) {
      FlatMapMultiset(Counterbalanced(tasks[i]), BothConditions(tasks[i]), replicates);
    }
    FlatMapMultiset(TaskOrder(replicates), TaskCells(replicates), tasks);
  }

  /** Both arms of every task and replicate run one right after the other, in an order fixed by the replicate's
      parity: task `t`, replicate `r` takes places `2 * (t * |replicates| + r)` and the next. */
  lemma ArmsAreAdjacent(tasks: seq<string>, replicates: seq<nat>, t: nat, r: nat) returns (p: nat)
    requires t < |tasks| && r < |replicates|
    ensures p == (t * |replicates| + r) * 2
    ensures |ExecutionOrder(tasks, replicates)| == |tasks| * |replicates| * 2
        && p + 1 < |ExecutionOrder(tasks, replicates)|
    ensures var first := if replicates[r] % 2 != 0 then Baseline else Treatment;
            && ExecutionOrder(tasks, replicates)[p] == Cell(tasks[t], replicates[r], first)
            && ExecutionOrder(tasks, replicates)[p + 1]
                == Cell(tasks[t], replicates[r], if first.Baseline? then Treatment else Baseline)
  {
    hide FlatMap;
    var n := |replicates| * 2;
    forall i | 0 <= i < |tasks| ensures |TaskOrder(replicates)(tasks[i])| == n {
      FlatMapLength(Counterbalanced(tasks[i]), replicates, 2);
    }
    FlatMapLength(TaskOrder(replicates), tasks, n);
    OneTaskAt(tasks[t], replicates, r);
    var k := r * 2;
    FlatMapAt(TaskOrder(replicates), tasks, n, t, k);
    FlatMapAt(TaskOrder(replicates), tasks, n, t, k + 1);
    p := t * n + k;
    BlockArithmetic(t, |replicates|);
    BlockArithmetic(|tasks|, |replicates|);
  }

  lemma OrderLength(tasks: seq<string>, replicates: seq<nat>)
    ensures |ExecutionOrder(tasks, replicates)| == |tasks| * |replicates| * 2
  {
    hide FlatMap;
    var n := |replicates| * 2;
    forall i | 0 <= i < |tasks| ensures |TaskOrder(replicates)(tasks[i])| == n {
      FlatMapLength(Counterbalanced(tasks[i]), replicates, 2);
    }
    FlatMapLength(TaskOrder(replicates), tasks, n);
    BlockArithmetic(|tasks|, |replicates|);
  }

  lemma BlockArithmetic(a: nat, b: nat)
    ensures a * (b * 2) == a * b * 2
  {
  }

  lemma OneTaskAt(task: string, replicates: seq<nat>, r: nat)
    requires r < |replicates|
    ensures |TaskOrder(replicates)(task)| == |replicates| * 2
    ensures TaskOrder(replicates)(task)[r * 2] == Counterbalanced(task)(replicates[r])[0]
    ensures TaskOrder(replicates)(task)[r * 2 + 1] == Counterbalanced(task)(replicates[r])[1]
  {
    hide FlatMap;
    FlatMapLength(Counterbalanced(task), replicates, 2);
    FlatMapAt(Counterbalanced(task), replicates, 2, r, 0);
    FlatMapAt(Counterbalanced(task), replicates, 2, r, 1);
  }

  lemma TaskOrderMember(task: string, replicates: seq<nat>, c: Cell)
    ensures c in TaskOrder(replicates)(task) <==> c.task == task && c.replicate in replicates
  {
    hide FlatMap;
    FlatMapMember(Counterbalanced(task), replicates, c);
    forall i | 0 <= i < |replicates|
      ensures c in Counterbalanced(task)(replicates[i]) <==> c.task == task && c.replicate == replicates[i]
    {
      assert c.condition == Baseline || c.condition == Treatment;
    }
  }

  lemma OrderMember(tasks: seq<string>, replicates: seq<nat>, c: Cell)
    ensures c in ExecutionOrder(tasks, replicates) <==> c.task in tasks && c.replicate in replicates
  {
    hide TaskOrder, FlatMap;
    FlatMapMember(TaskOrder(replicates), tasks, c);
    forall i | 0 <= i < |tasks|
      ensures c in TaskOrder(replicates)(tasks[i]) <==> c.task == tasks[i] && c.replicate in replicates
    {
      TaskOrderMember(tasks[i], replicates, c);
    }
  }

  lemma TaskOrderDistinct(task: string, replicates: seq<nat>)
    requires Distinct(replicates)
    ensures Distinct(TaskOrder(replicates)(task))
  {
    hide FlatMap;
    FlatMapDistinct(Counterbalanced(task), replicates);
  }

  /** No cell is planned twice. */
  lemma OrderDistinct(tasks: seq<string>, replicates: seq<nat>)
    requires Distinct(tasks) && Distinct(replicates)
    ensures Distinct(ExecutionOrder(tasks, replicates)) && Distinct(ExpectedCells(tasks, replicates))
  {
    hide TaskOrder, FlatMap;
    forall i | 0 <= i < |tasks| ensures Distinct(TaskOrder(replicates)(tasks[i])) {
      TaskOrderDistinct(tasks[i], replicates);
    }
    forall i, j, c | 0 <= i < j < |tasks| && c in TaskOrder(replicates)(tasks[i])
      ensures c !in TaskOrder(replicates)(tasks[j])
    {
      TaskOrderMember(tasks[i], replicates, c);
      TaskOrderMember(tasks[j], replicates, c);
    }
    FlatMapDistinct(TaskOrder(replicates), tasks);
    OrderIsPermutation(tasks, replicates);
    PermutationDistinct(ExecutionOrder(tasks, replicates), ExpectedCells(tasks, replicates));
  }

  // ---------------------------------------------------------------- artifacts and the gate

  datatype Packet = Packet(hardProtocolStop: bool)

  /** What one cell produced: an exception, or everything the gate looks at. */
  datatype Outcome =
    | Raised(error: string)
    | Finished(packet: Option<Packet>, sourceClean: bool, identityMatches: bool, fingerprint: Option<string>)

  datatype Record = Record(cell: Cell, outcome: Outcome)

  datatype Stage = ModelIdentity | ProtocolValidation

  datatype Artifact =
    | Preregistration(expected: seq<Cell>, order: seq<Cell>)
    | Environment
    | DriverRun(record: Record)
    | PreregistrationStop
    | ProtocolStop(stage: Stage, trigger: Record, completed: nat, remaining: seq<Cell>)
    | PilotResults(runs: seq<Record>)

  type Files = map<FilePath, Artifact>

  const STOP_PATH: FilePath := ["protocol-stop.json"]
  const RESULTS_PATH: FilePath := ["pilot-results.json"]
  const PREREG_PATH: FilePath := ["preregistration.json"]
  const ENVIRONMENT_PATH: FilePath := ["environment.json"]
  const DRIVER_RUN := "driver-run.json"

  function CellDir(c: Cell): (dir: FilePath)
    ensures |dir| == 3
  {
    [c.task, "rep-" + Show02(c.replicate), c.condition.Name()]
  }

  function DriverPath(c: Cell): (path: FilePath)
    ensures |path| == 4 && path[..3] == CellDir(c) && path[3] == DRIVER_RUN
  {
    CellDir(c) + [DRIVER_RUN]
  }

  lemma CellDirInjective(a: Cell, b: Cell)
    ensures CellDir(a) == CellDir(b) <==> a == b
  {
    hide Show02;
    if CellDir(a) == CellDir(b) {
      assert CellDir(a)[0] == CellDir(b)[0] && CellDir(a)[1] == CellDir(b)[1] && CellDir(a)[2] == CellDir(b)[2];
      assert ("rep-" + Show02(a.replicate))[4..] == Show02(a.replicate);
      assert ("rep-" + Show02(b.replicate))[4..] == Show02(b.replicate);
      LabelInjective(a.replicate, b.replicate);
    }
  }

  lemma DriverPathInjective(a: Cell, b: Cell)
    ensures DriverPath(a) == DriverPath(b) <==> a == b
  {
    hide CellDir, DriverPath;
    CellDirInjective(a, b);
  }

  /** The fingerprint the preflight recorded for each arm. */
  type ArmFingerprints = Condition -> Option<string>

  /** The gate after each cell. */
  predicate GatePasses(r: Record, expected: ArmFingerprints) {
    && r.outcome.Finished? && r.outcome.packet.Some?
    && r.outcome.sourceClean && r.outcome.identityMatches
    && r.outcome.fingerprint == expected(r.cell.condition)
    && !r.outcome.packet.value.hardProtocolStop
  }

  function StopStage(r: Record): Stage {
    if r.outcome.Finished? && r.outcome.identityMatches then ProtocolValidation else ModelIdentity
  }

  /** How preregistration ended: before anything was written, after the design was written, or in full. */
  datatype Registration =
    | IdentityFailed
    | EnvironmentFailed
    | Registered(fingerprints: ArmFingerprints)

  // ---------------------------------------------------------------- what a run leaves behind

  function RecordAt(order: seq<Cell>, outcomes: nat -> Outcome, i: nat): Record
    requires i < |order|
  {
    Record(order[i], outcomes(i))
  }

  function Records(order: seq<Cell>, outcomes: nat -> Outcome, n: nat): (rs: seq<Record>)
    requires n <= |order|
    ensures |rs| == n
  {
    if n == 0 then [] else Records(order, outcomes, n - 1) + [RecordAt(order, outcomes, n - 1)]
  }

  lemma {:induction false} RecordsAt(order: seq<Cell>, outcomes: nat -> Outcome, n: nat, i: nat)
    requires i < n <= |order|
    ensures Records(order, outcomes, n)[i] == RecordAt(order, outcomes, i)
  {
    if i < n - 1 { RecordsAt(order, outcomes, n - 1, i); }
  }

  /** The first cell, from `i` on, whose record fails the gate. */
  function FirstFailure(order: seq<Cell>, outcomes: nat -> Outcome, expected: ArmFingerprints, i: nat): (k: Option<nat>)
    requires i <= |order|
    ensures k.Some? ==> i <= k.value < |order| && !GatePasses(RecordAt(order, outcomes, k.value), expected)
    ensures forall j :: i <= j < (if k.Some? then k.value else |order|) ==>
        GatePasses(RecordAt(order, outcomes, j), expected)
    decreases |order| - i
  {
    if i == |order| then None
    else if !GatePasses(RecordAt(order, outcomes, i), expected) then Some(i)
    else FirstFailure(order, outcomes, expected, i + 1)
  }

  function Executed(order: seq<Cell>, outcomes: nat -> Outcome, expected: ArmFingerprints): (n: nat)
    ensures n <= |order|
  {
    var k := FirstFailure(order, outcomes, expected, 0);
    if k.Some? then k.value + 1 else |order|
  }

  function DriverFiles(rs: seq<Record>): Files {
    if rs == [] then map[]
    else
      var r := rs[|rs| - 1];
      DriverFiles(rs[..|rs| - 1])[DriverPath(r.cell) := DriverRun(r)]
  }

  function Opening(tasks: seq<string>, replicates: seq<nat>): Files {
    map[PREREG_PATH := Preregistration(ExpectedCells(tasks, replicates), ExecutionOrder(tasks, replicates)),
        ENVIRONMENT_PATH := Environment]
  }

  function Closing(order: seq<Cell>, outcomes: nat -> Outcome, expected: ArmFingerprints): Files {
    var k := FirstFailure(order, outcomes, expected, 0);
    if k.None? then map[RESULTS_PATH := PilotResults(Records(order, outcomes, |order|))]
    else
      var r := RecordAt(order, outcomes, k.value);
      map[STOP_PATH := ProtocolStop(StopStage(r), r, k.value + 1, order[k.value + 1..])]
  }

  /** Every file a run leaves under its root. */
  function FinalFiles(tasks: seq<string>, replicates: seq<nat>, reg: Registration, outcomes: nat -> Outcome): Files {
    var order := ExecutionOrder(tasks, replicates);
    match reg
    case IdentityFailed => map[STOP_PATH := PreregistrationStop]
    case EnvironmentFailed =>
      map[PREREG_PATH := Preregistration(ExpectedCells(tasks, replicates), order),
          STOP_PATH := PreregistrationStop]
    case Registered(expected) =>
      Opening(tasks, replicates) + DriverFiles(Records(order, outcomes, Executed(order, outcomes, expected)))
      + Closing(order, outcomes, expected)
  }

  // ---------------------------------------------------------------- the run itself

  /** A directory in which files are only ever created, never replaced. */
  class RunRoot {
    var present: bool
    var dirs: set<FilePath>
    var files: Files

    ghost predicate Valid()
      reads this
    {
      !present ==> dirs == {} && files == map[]
    }

    constructor ()
      ensures Valid() && !present
    {
      present, dirs, files := false, {}, map[];
    }

    /** `mkdir(parents=True)`: fails on a directory that is already there. */
    method MakeDirectory(dir: FilePath) returns (ok: bool)
      requires present
      modifies this`dirs
      ensures ok <==> dir !in old(dirs)
      ensures dirs == old(dirs) + {dir}
    {
      ok := dir !in dirs;
      dirs := dirs + {dir};
    }

    /** `open("x")`: fails on a file that is already there and then changes nothing. */
    method CreateExclusive(path: FilePath, content: Artifact) returns (ok: bool)
      requires present && path != [] && (|path| == 1 || path[..|path| - 1] in dirs)
      modifies this`files
      ensures ok <==> path !in old(files)
      ensures files == if ok then old(files)[path := content] else old(files)
    {
      ok := path !in files;
      if ok {
        files := files[path := content];
      }
    }
  }

  datatype RunResult = Refused | Stopped(runs: seq<Record>) | Completed(runs: seq<Record>)

  function LoopResult(order: seq<Cell>, outcomes: nat -> Outcome, expected: ArmFingerprints): RunResult {
    var runs := Records(order, outcomes, Executed(order, outcomes, expected));
    if FirstFailure(order, outcomes, expected, 0).None? then Completed(runs) else Stopped(runs)
  }

  /** Every cell directory a run leaves. */
  ghost function FinalDirs(tasks: seq<string>, replicates: seq<nat>, reg: Registration,
      outcomes: nat -> Outcome): set<FilePath> {
    var order := ExecutionOrder(tasks, replicates);
    if reg.Registered? then CellDirs(order, Executed(order, outcomes, reg.fingerprints)) else {}
  }

  /** The run result that goes with the final files. */
  function FinalResult(tasks: seq<string>, replicates: seq<nat>, reg: Registration,
      outcomes: nat -> Outcome): RunResult {
    var order := ExecutionOrder(tasks, replicates);
    match reg
    case IdentityFailed => Stopped([])
    case EnvironmentFailed => Stopped([])
    case Registered(expected) =>
      LoopResult(order, outcomes, expected)
  }

  lemma DriverFilesAppend(order: seq<Cell>, outcomes: nat -> Outcome, n: nat)
    requires n < |order|
    ensures DriverFiles(Records(order, outcomes, n + 1)) ==
            DriverFiles(Records(order, outcomes, n))[DriverPath(order[n]) := DriverRun(RecordAt(order, outcomes, n))]
  {
    hide DriverPath;
    assert Records(order, outcomes, n + 1)[..n] == Records(order, outcomes, n);
  }

  lemma {:induction false} DriverFilesKeys(order: seq<Cell>, outcomes: nat -> Outcome, n: nat, path: FilePath)
    requires n <= |order|
    ensures path in DriverFiles(Records(order, outcomes, n)) <==> exists i :: 0 <= i < n && path == DriverPath(order[i])
  {
    hide DriverPath;
    if n == 0 {
      NoDriverFiles();
    } else {
      hide DriverFiles, Records;
      var m := n - 1;
      DriverFilesAppend(order, outcomes, m);
      DriverFilesKeys(order, outcomes, m, path);
      if i :| 0 <= i < n && path == DriverPath(order[i]) {
        assert i == m || i < m;
      }
    }
  }

  /** The opening files and the driver records of the first `n` cells. */
  function FilesAfter(opening: Files, order: seq<Cell>, outcomes: nat -> Outcome, n: nat): Files
    requires n <= |order|
  {
    opening + DriverFiles(Records(order, outcomes, n))
  }

  lemma DriverFilesStep(order: seq<Cell>, outcomes: nat -> Outcome, n: nat, opening: Files)
    requires n < |order| && Distinct(order)
    requires forall path :: path in opening ==> |path| == 1
    ensures DriverPath(order[n]) !in FilesAfter(opening, order, outcomes, n)
    ensures FilesAfter(opening, order, outcomes, n + 1) ==
            FilesAfter(opening, order, outcomes, n)[DriverPath(order[n]) := DriverRun(RecordAt(order, outcomes, n))]
  {
    hide DriverPath, DriverFiles, Records;
    DriverFilesAppend(order, outcomes, n);
    DriverFilesKeys(order, outcomes, n, DriverPath(order[n]));
    forall i | 0 <= i < n ensures DriverPath(order[i]) != DriverPath(order[n]) {
      DriverPathInjective(order[i], order[n]);
    }
  }

  lemma DriverPathsAreDeep(order: seq<Cell>, outcomes: nat -> Outcome, n: nat)
    requires n <= |order|
    ensures forall path :: path in DriverFiles(Records(order, outcomes, n)) ==> |path| == 4
  {
    hide DriverPath, DriverFiles, Records;
    forall path | path in DriverFiles(Records(order, outcomes, n)) ensures |path| == 4 {
      DriverFilesKeys(order, outcomes, n, path);
    }
  }

  /** A closing file is new next to the opening files and the driver records. */
  lemma ClosingIsNew(order: seq<Cell>, outcomes: nat -> Outcome, n: nat, opening: Files, path: FilePath)
    requires n <= |order| && |path| == 1 && path !in opening
    ensures path !in FilesAfter(opening, order, outcomes, n)
  {
    hide DriverFiles, Records;
    DriverPathsAreDeep(order, outcomes, n);
  }

  ghost function CellDirs(order: seq<Cell>, n: nat): set<FilePath>
    requires n <= |order|
  {
    set i | 0 <= i < n :: CellDir(order[i])
  }

  /** Making the directory of the next cell never meets one that is already there. */
  lemma CellDirIsNew(order: seq<Cell>, index: nat)
    requires index < |order| && Distinct(order)
    ensures CellDir(order[index]) !in CellDirs(order, index)
    ensures CellDirs(order, index + 1) == CellDirs(order, index) + {CellDir(order[index])}
  {
    hide CellDir;
    forall i | 0 <= i < index ensures CellDir(order[i]) != CellDir(order[index]) {
      CellDirInjective(order[i], order[index]);
    }
  }

  /** One cell: its directory, then its driver record. */
  method WriteCell(root: RunRoot, record: Record)
    requires root.present && CellDir(record.cell) !in root.dirs && DriverPath(record.cell) !in root.files
    modifies root`files, root`dirs
    ensures root.dirs == old(root.dirs) + {CellDir(record.cell)}
    ensures root.files == old(root.files)[DriverPath(record.cell) := DriverRun(record)]
  {
    hide CellDir, DriverPath;
    var made := root.MakeDirectory(CellDir(record.cell));
    assert made;
    var written := root.CreateExclusive(DriverPath(record.cell), DriverRun(record));
    assert written;
  }

  lemma LoopStep(order: seq<Cell>, outcomes: nat -> Outcome, expected: ArmFingerprints, index: nat)
    requires index < |order|
    ensures Records(order, outcomes, index + 1) == Records(order, outcomes, index) + [RecordAt(order, outcomes, index)]
    ensures FirstFailure(order, outcomes, expected, index)
         == if GatePasses(RecordAt(order, outcomes, index), expected)
             then FirstFailure(order, outcomes, expected, index + 1)
            else Some(index)
  {
  }

  /** How the loop leaves its files when cell `index` is the first whose record fails the gate. */
  lemma LoopStops(order: seq<Cell>, outcomes: nat -> Outcome, expected: ArmFingerprints, index: nat)
    requires index < |order| && FirstFailure(order, outcomes, expected, 0) == Some(index)
    ensures var r := RecordAt(order, outcomes, index);
            Closing(order, outcomes, expected)
                == map[STOP_PATH := ProtocolStop(StopStage(r), r, index + 1, order[index + 1..])]
    ensures LoopResult(order, outcomes, expected) == Stopped(Records(order, outcomes, index + 1))
    ensures Executed(order, outcomes, expected) == index + 1
  {
  }

  lemma LoopCompletes(order: seq<Cell>, outcomes: nat -> Outcome, expected: ArmFingerprints)
    requires FirstFailure(order, outcomes, expected, 0).None?
    ensures Closing(order, outcomes, expected) == map[RESULTS_PATH := PilotResults(Records(order, outcomes, |order|))]
    ensures LoopResult(order, outcomes, expected) == Completed(Records(order, outcomes, |order|))
    ensures Executed(order, outcomes, expected) == |order|
  {
  }

  /** `_stop`: the record that ends a run early. */
  method Stop(root: RunRoot, records: seq<Record>, order: seq<Cell>, index: nat, stage: Stage) returns (r: RunResult)
    requires root.present && records != [] && index < |order| && STOP_PATH !in root.files
    modifies root`files
    ensures root.files == old(root.files)
        + map[STOP_PATH := ProtocolStop(stage, records[|records| - 1], |records|, order[index + 1..])]
    ensures r == Stopped(records)
  {
    var stopped := root.CreateExclusive(STOP_PATH,
        ProtocolStop(stage, records[|records| - 1], |records|, order[index + 1..]));
    assert stopped;
    return Stopped(records);
  }

  method Finish(root: RunRoot, records: seq<Record>) returns (r: RunResult)
    requires root.present && RESULTS_PATH !in root.files
    modifies root`files
    ensures root.files == old(root.files) + map[RESULTS_PATH := PilotResults(records)]
    ensures r == Completed(records)
  {
    var finished := root.CreateExclusive(RESULTS_PATH, PilotResults(records));
    assert finished;
    return Completed(records);
  }

  /** The cell loop: run, record, gate; stop at the first record the gate rejects. */
  method RunCells(root: RunRoot, order: seq<Cell>, expected: ArmFingerprints, outcomes: nat -> Outcome,
      ghost opening: Files)
    returns (r: RunResult)
    requires root.present && Distinct(order) && root.dirs == {} && root.files == opening
    requires forall path :: path in opening ==> |path| == 1
    requires STOP_PATH !in opening && RESULTS_PATH !in opening
    modifies root`files, root`dirs
    ensures root.files == FilesAfter(opening, order, outcomes, Executed(order, outcomes, expected))
                          + Closing(order, outcomes, expected)
    ensures root.dirs == CellDirs(order, Executed(order, outcomes, expected))
    ensures r == LoopResult(order, outcomes, expected)
  {
    hide DriverPath, FilesAfter, GatePasses, CellDir, StopStage, Closing, LoopResult, Executed, FirstFailure, CellDirs;
    var records: seq<Record> := [];
    NoCellYet(opening, order, outcomes);
    hide Records;
    for index := 0 to |order|
      invariant records == Records(order, outcomes, index)
      invariant root.files == FilesAfter(opening, order, outcomes, index)
      invariant root.dirs == CellDirs(order, index)
      invariant FirstFailure(order, outcomes, expected, 0) == FirstFailure(order, outcomes, expected, index)
    {
      var record := Record(order[index], outcomes(index));
      CellDirIsNew(order, index);
      DriverFilesStep(order, outcomes, index, opening);
      WriteCell(root, record);
      records := records + [record];
      LoopStep(order, outcomes, expected, index);
      if !GatePasses(record, expected) {
        ClosingIsNew(order, outcomes, index + 1, opening, STOP_PATH);
        LoopStops(order, outcomes, expected, index);
        r := Stop(root, records, order, index, StopStage(record));
        return;
      }
    }
    ClosingIsNew(order, outcomes, |order|, opening, RESULTS_PATH);
    assert FirstFailure(order, outcomes, expected, 0).None? by { NothingLeft(order, outcomes, expected); }
    LoopCompletes(order, outcomes, expected);
    r := Finish(root, records);
  }

  lemma NothingLeft(order: seq<Cell>, outcomes: nat -> Outcome, expected: ArmFingerprints)
    ensures FirstFailure(order, outcomes, expected, |order|).None?
  {
  }

  lemma NoCellYet(opening: Files, order: seq<Cell>, outcomes: nat -> Outcome)
    ensures CellDirs(order, 0) == {}
    ensures Records(order, outcomes, 0) == []
    ensures FilesAfter(opening, order, outcomes, 0) == opening
  {
    NoDriverFiles();
  }

  lemma NoDriverFiles()
    ensures DriverFiles([]) == map[]
  {
  }

  /** `run_pilot`. Every artifact it creates is new: no exclusive creation ever fails. */
  method RunPilot(root: RunRoot, model: string, budget: string, tasks: seq<string>, replicates: seq<nat>,
                  reg: Registration, outcomes: nat -> Outcome) returns (r: RunResult)
    requires root.Valid() && Distinct(tasks) && Distinct(replicates)
    modifies root
    ensures r.Refused? <==> model != REQUESTED_MODEL || budget != FIXED_BUDGET || old(root.present)
    ensures r.Refused? ==>
        root.files == old(root.files) && root.dirs == old(root.dirs) && root.present == old(root.present)
    ensures !r.Refused? ==> root.files == FinalFiles(tasks, replicates, reg, outcomes)
    ensures !r.Refused? ==> r == FinalResult(tasks, replicates, reg, outcomes)
    ensures !r.Refused? ==> root.present && root.dirs == FinalDirs(tasks, replicates, reg, outcomes)
  {
    hide Records, DriverFiles, FirstFailure, ExpectedCells, ExecutionOrder;
    if model != REQUESTED_MODEL || budget != FIXED_BUDGET || root.present {
      return Refused;
    }
    root.present := true;
    var order := ExecutionOrder(tasks, replicates);
    if reg.IdentityFailed? {
      var stopped := root.CreateExclusive(STOP_PATH, PreregistrationStop);
      assert stopped;
      return Stopped([]);
    }
    var registered := root.CreateExclusive(PREREG_PATH, Preregistration(ExpectedCells(tasks, replicates), order));
    assert registered;
    if reg.EnvironmentFailed? {
      var stopped := root.CreateExclusive(STOP_PATH, PreregistrationStop);
      assert stopped;
      return Stopped([]);
    }
    var described := root.CreateExclusive(ENVIRONMENT_PATH, Environment);
    assert described;
    OrderDistinct(tasks, replicates);
    r := RunCells(root, order, reg.fingerprints, outcomes, Opening(tasks, replicates));
  }

  // ---------------------------------------------------------------- what every run keeps

  function CellsOf(runs: seq<Record>): (cells: seq<Cell>)
    ensures |cells| == |runs| && forall i :: 0 <= i < |runs| ==> cells[i] == runs[i].cell
  {
    seq(|runs|, i requires 0 <= i < |runs| => runs[i].cell)
  }

  lemma {:induction false} RecordsCells(order: seq<Cell>, outcomes: nat -> Outcome, n: nat)
    requires n <= |order|
    ensures CellsOf(Records(order, outcomes, n)) == order[..n]
  {
    forall i | 0 <= i < n ensures CellsOf(Records(order, outcomes, n))[i] == order[i] {
      RecordsAt(order, outcomes, n, i);
    }
  }

  /** What a file under the root holds, by the name of the file. */
  lemma FinalLookups(tasks: seq<string>, replicates: seq<nat>, reg: Registration, outcomes: nat -> Outcome)
    requires reg.Registered?
    ensures var order := ExecutionOrder(tasks, replicates);
            var files := FinalFiles(tasks, replicates, reg, outcomes);
            var closing := Closing(order, outcomes, reg.fingerprints);
            && (STOP_PATH in files <==> STOP_PATH in closing) && (RESULTS_PATH in files <==> RESULTS_PATH in closing)
            && (STOP_PATH in closing ==> files[STOP_PATH] == closing[STOP_PATH])
            && (RESULTS_PATH in closing ==> files[RESULTS_PATH] == closing[RESULTS_PATH])
            && PREREG_PATH in files && files[PREREG_PATH] == Preregistration(ExpectedCells(tasks, replicates), order)
            && ENVIRONMENT_PATH in files
  {
    var order := ExecutionOrder(tasks, replicates);
    hide ExecutionOrder, ExpectedCells, DriverFiles, Records, Executed, FirstFailure, StopStage;
    DriverPathsAreDeep(order, outcomes, Executed(order, outcomes, reg.fingerprints));
  }

  /** Whatever the outcomes, exactly one closing record is written, and it is the one the run reports. */
  lemma ExactlyOneClosingRecord(tasks: seq<string>, replicates: seq<nat>, reg: Registration, outcomes: nat -> Outcome)
    ensures var files := FinalFiles(tasks, replicates, reg, outcomes);
            var result := FinalResult(tasks, replicates, reg, outcomes);
            && !result.Refused?
            && (STOP_PATH in files <==> result.Stopped?)
            && (RESULTS_PATH in files <==> result.Completed?)
  {
    hide ExecutionOrder, ExpectedCells, DriverFiles, Records, FirstFailure, StopStage;
    if reg.Registered? {
      FinalLookups(tasks, replicates, reg, outcomes);
    }
  }

  /** A stop in the middle of a run loses no cell: what ran, then what remains, is the preregistered order; all
      records but the last passed the gate, the last failed it, and it is the one the stop record names. */
  lemma StopConservesCells(tasks: seq<string>, replicates: seq<nat>, reg: Registration, outcomes: nat -> Outcome)
    requires reg.Registered? && FinalResult(tasks, replicates, reg, outcomes).Stopped?
    ensures var files := FinalFiles(tasks, replicates, reg, outcomes);
            var runs := FinalResult(tasks, replicates, reg, outcomes).runs;
            && STOP_PATH in files && files[STOP_PATH].ProtocolStop?
            && var stop := files[STOP_PATH];
            && runs != [] && stop.trigger == runs[|runs| - 1] && stop.completed == |runs|
            && CellsOf(runs) + stop.remaining == ExecutionOrder(tasks, replicates)
            && (forall i :: 0 <= i < |runs| ==> runs[i].outcome == outcomes(i))
            && (forall i :: 0 <= i < |runs| - 1 ==> GatePasses(runs[i], reg.fingerprints))
            && !GatePasses(stop.trigger, reg.fingerprints)
            && (stop.stage == ProtocolValidation <==>
                stop.trigger.outcome.Finished? && stop.trigger.outcome.identityMatches)
  {
    var order := ExecutionOrder(tasks, replicates);
    hide ExecutionOrder, ExpectedCells, DriverFiles, Records, GatePasses, FinalFiles;
    FinalLookups(tasks, replicates, reg, outcomes);
    var n := Executed(order, outcomes, reg.fingerprints);
    RecordsCells(order, outcomes, n);
    forall i | 0 <= i < n ensures Records(order, outcomes, n)[i] == RecordAt(order, outcomes, i) {
      RecordsAt(order, outcomes, n, i);
    }
    assert order[..n] + order[n..] == order;
  }

  /** A run completes exactly when every cell of the preregistered order passes the gate; it then reports them all. */
  lemma CompletesIffEveryCellPasses(tasks: seq<string>, replicates: seq<nat>, reg: Registration,
      outcomes: nat -> Outcome)
    ensures var order := ExecutionOrder(tasks, replicates);
            var result := FinalResult(tasks, replicates, reg, outcomes);
            && (result.Completed? <==>
                reg.Registered? && forall i :: 0 <= i < |order| ==>
                    GatePasses(RecordAt(order, outcomes, i), reg.fingerprints))
            && (result.Completed? ==>
                && CellsOf(result.runs) == order
                && RESULTS_PATH in FinalFiles(tasks, replicates, reg, outcomes)
                && FinalFiles(tasks, replicates, reg, outcomes)[RESULTS_PATH] == PilotResults(result.runs))
  {
    var order := ExecutionOrder(tasks, replicates);
    hide ExecutionOrder, ExpectedCells, DriverFiles, Records, GatePasses;
    if reg.Registered? {
      RecordsCells(order, outcomes, Executed(order, outcomes, reg.fingerprints));
      assert order[..|order|] == order;
      FinalLookups(tasks, replicates, reg, outcomes);
    }
  }

  /** A cell has a driver record exactly when it ran, and the record is the one the run reports. */
  lemma DriverRecordsAreTheRuns(tasks: seq<string>, replicates: seq<nat>, reg: Registration, outcomes: nat -> Outcome,
      c: Cell)
    requires Distinct(tasks) && Distinct(replicates)
    ensures var files := FinalFiles(tasks, replicates, reg, outcomes);
            var runs := FinalResult(tasks, replicates, reg, outcomes).runs;
            && (DriverPath(c) in files <==> c in CellsOf(runs))
            && (forall i :: 0 <= i < |runs| && runs[i].cell == c ==>
                  DriverPath(c) in files && files[DriverPath(c)] == DriverRun(runs[i]))
  {
    hide ExecutionOrder, ExpectedCells, DriverFiles, Records, GatePasses, DriverPath;
    var order := ExecutionOrder(tasks, replicates);
    if reg.Registered? {
      var n := Executed(order, outcomes, reg.fingerprints);
      RecordsCells(order, outcomes, n);
      OrderDistinct(tasks, replicates);
      DriverFilesKeys(order, outcomes, n, DriverPath(c));
      if DriverPath(c) in DriverFiles(Records(order, outcomes, n)) {
        var i :| 0 <= i < n && DriverPath(c) == DriverPath(order[i]);
        DriverPathInjective(c, order[i]);
        assert CellsOf(Records(order, outcomes, n))[i] == c;
      }
      forall i | 0 <= i < n && order[i] == c
        ensures DriverPath(c) in DriverFiles(Records(order, outcomes, n))
        ensures DriverFiles(Records(order, outcomes, n))[DriverPath(c)] == DriverRun(Records(order, outcomes, n)[i])
      {
        DriverFilesLookup(order, outcomes, n, i);
      }
    }
  }

  lemma {:induction false} DriverFilesLookup(order: seq<Cell>, outcomes: nat -> Outcome, n: nat, i: nat)
    requires i < n <= |order| && Distinct(order)
    ensures DriverPath(order[i]) in DriverFiles(Records(order, outcomes, n))
    ensures DriverFiles(Records(order, outcomes, n))[DriverPath(order[i])] == DriverRun(Records(order, outcomes, n)[i])
  {
    hide DriverPath, DriverFiles, Records;
    var m := n - 1;
    DriverFilesAppend(order, outcomes, m);
    RecordsAt(order, outcomes, n, i);
    if i < m {
      RecordsAt(order, outcomes, m, i);
      DriverFilesLookup(order, outcomes, m, i);
      DriverPathInjective(order[i], order[m]);
    }
  }

  // ---------------------------------------------------------------- where artifacts stand

  /** The names of a pilot's artifacts under its root. */
  lemma ArtifactPaths(c: Cell)
    ensures DriverPath(c) ==
      [c.task, "rep-" + Show02(c.replicate), if c.condition == Baseline then "baseline"
          else "treatment", "driver-run.json"]
    ensures STOP_PATH == ["protocol-stop.json"] && RESULTS_PATH == ["pilot-results.json"]
    ensures PREREG_PATH == ["preregistration.json"] && ENVIRONMENT_PATH == ["environment.json"]
  {
  }

  /** The expected cells stand task by task, replicate by replicate, always baseline first. */
  lemma ExpectedCellsAt(tasks: seq<string>, replicates: seq<nat>, t: nat, r: nat) returns (p: nat)
    requires t < |tasks| && r < |replicates|
    ensures p == (t * |replicates| + r) * 2
    ensures |ExpectedCells(tasks, replicates)| == |tasks| * |replicates| * 2
        && p + 1 < |ExpectedCells(tasks, replicates)|
    ensures ExpectedCells(tasks, replicates)[p] == Cell(tasks[t], replicates[r], Baseline)
         && ExpectedCells(tasks, replicates)[p + 1] == Cell(tasks[t], replicates[r], Treatment)
  {
    hide FlatMap;
    var n := |replicates| * 2;
    forall i | 0 <= i < |tasks| ensures |TaskCells(replicates)(tasks[i])| == n {
      FlatMapLength(BothConditions(tasks[i]), replicates, 2);
    }
    FlatMapLength(TaskCells(replicates), tasks, n);
    var k := r * 2;
    FlatMapAt(BothConditions(tasks[t]), replicates, 2, r, 0);
    FlatMapAt(BothConditions(tasks[t]), replicates, 2, r, 1);
    FlatMapAt(TaskCells(replicates), tasks, n, t, k);
    FlatMapAt(TaskCells(replicates), tasks, n, t, k + 1);
    p := t * n + k;
    BlockArithmetic(t, |replicates|);
    BlockArithmetic(|tasks|, |replicates|);
  }

  /** What the gate lets through: a run that finished with a packet, a clean source, the right model, the recorded
      fingerprint of its arm and no hard stop. */
  lemma GateOnOutcomes(cell: Cell, error: string, hard: bool, clean: bool, matches: bool, stamp: Option<string>,
      expected: ArmFingerprints)
    ensures !GatePasses(Record(cell, Raised(error)), expected)
    ensures !GatePasses(Record(cell, Finished(None, clean, matches, stamp)), expected)
    ensures GatePasses(Record(cell, Finished(Some(Packet(hard)), clean, matches, stamp)), expected) <==>
            !hard && clean && matches && stamp == expected(cell.condition)
  {
  }

  /** What every run leaves besides its cells' records, by how its registration ended. */
  lemma OpeningIs(tasks: seq<string>, replicates: seq<nat>, reg: Registration, outcomes: nat -> Outcome)
    ensures var files, design := FinalFiles(tasks, replicates, reg, outcomes),
        Preregistration(ExpectedCells(tasks, replicates), ExecutionOrder(tasks, replicates));
      match reg
      case IdentityFailed => files == map[["protocol-stop.json"] := PreregistrationStop]
      case EnvironmentFailed =>
        files == map[["preregistration.json"] := design, ["protocol-stop.json"] := PreregistrationStop]
      case Registered(_) =>
        ["preregistration.json"] in files && files[["preregistration.json"]] == design
        && ["environment.json"] in files && files[["environment.json"]] == Environment
  {
    var order := ExecutionOrder(tasks, replicates);
    hide ExecutionOrder, ExpectedCells, DriverFiles, Records, Executed, FirstFailure, StopStage;
    if reg.Registered? {
      DriverPathsAreDeep(order, outcomes, Executed(order, outcomes, reg.fingerprints));
    }
  }
}
