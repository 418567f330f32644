/** The auditor's structural acceptance of a pilot's root, and its agreement with the run that left it. */
module PilotAudit {
  import opened Common
  import opened Decimal
  import opened Paths
  import opened Pilot

  datatype AuditFailure =
    | HasStopRecord
    | ArtifactMissing
    | MatrixChanged
    | OrderChanged
    | ResultMatrixInvalid
    | ResultOrderInvalid
    | DriverArtifactsDiffer

  /** The directories in which a driver record is found, three levels below the root. */
  function DriverDirs(files: Files): set<FilePath> {
    set path | path in files && |path| == 4 && path[3] == DRIVER_RUN :: path[..3]
  }

  function CellDirsOf(cells: seq<Cell>): set<FilePath> {
    set c | c in cells :: CellDir(c)
  }

  /** The structural checks of `_require_complete_root`, in its order, and then the path check of `audit_pilot`. */
  function AuditStructure(files: Files, tasks: seq<string>, replicates: seq<nat>): Option<AuditFailure> {
    if STOP_PATH in files then Some(HasStopRecord)
    else if PREREG_PATH !in files || !files[PREREG_PATH].Preregistration? || RESULTS_PATH !in files
         || !files[RESULTS_PATH].PilotResults? || ENVIRONMENT_PATH !in files then Some(ArtifactMissing)
    else
      var design, runs := files[PREREG_PATH], files[RESULTS_PATH].runs;
      var matrix, order := ExpectedCells(tasks, replicates), ExecutionOrder(tasks, replicates);
      if design.expected != matrix then Some(MatrixChanged)
      else if design.order != order then Some(OrderChanged)
      else if Members(CellsOf(runs)) != Members(matrix) || |runs| != |matrix| then Some(ResultMatrixInvalid)
      else if CellsOf(runs) != order then Some(ResultOrderInvalid)
      else if DriverDirs(files) != CellDirsOf(matrix) then Some(DriverArtifactsDiffer)
      else None
  }

  lemma DriverDirsMember(files: Files, c: Cell)
    ensures CellDir(c) in DriverDirs(files) <==> DriverPath(c) in files
  {
    hide CellDir;
    if CellDir(c) in DriverDirs(files) {
      var path :| path in files && |path| == 4 && path[3] == DRIVER_RUN && path[..3] == CellDir(c);
      assert path == path[..3] + [path[3]];
    }
    if DriverPath(c) in files {
      assert DriverPath(c)[..3] == CellDir(c);
    }
  }

  /** An accepted root, however it came about, holds one reported run for every planned cell, in the planned order,
      and driver records for exactly those cells. */
  lemma AuditIsSound(files: Files, tasks: seq<string>, replicates: seq<nat>, c: Cell) returns (i: nat)
    requires Distinct(tasks) && Distinct(replicates)
    requires AuditStructure(files, tasks, replicates).None? && c.task in tasks && c.replicate in replicates
    ensures DriverPath(c) in files
    ensures i < |files[RESULTS_PATH].runs| && files[RESULTS_PATH].runs[i].cell == c
    ensures forall k :: 0 <= k < |files[RESULTS_PATH].runs| && files[RESULTS_PATH].runs[k].cell == c ==> k == i
  {
    hide ExecutionOrder, ExpectedCells, DriverPath, CellDir;
    OrderMember(tasks, replicates, c);
    OrderIsPermutation(tasks, replicates);
    PermutationMembers(ExecutionOrder(tasks, replicates), ExpectedCells(tasks, replicates));
    OrderDistinct(tasks, replicates);
    DriverDirsMember(files, c);
    var order := ExecutionOrder(tasks, replicates);
    i :| 0 <= i < |order| && order[i] == c;
    assert CellsOf(files[RESULTS_PATH].runs) == order;
  }

  /** The observed-order check already implies the set and length checks that precede it. */
  lemma OrderCheckSubsumesMatrixCheck(runs: seq<Record>, tasks: seq<string>, replicates: seq<nat>)
    requires CellsOf(runs) == ExecutionOrder(tasks, replicates)
    ensures Members(CellsOf(runs)) == Members(ExpectedCells(tasks, replicates))
        && |runs| == |ExpectedCells(tasks, replicates)|
  {
    hide ExecutionOrder, ExpectedCells;
    OrderIsPermutation(tasks, replicates);
    PermutationMembers(ExecutionOrder(tasks, replicates), ExpectedCells(tasks, replicates));
  }

  /** Every four-part path under the root is the driver record of a cell that ran. */
  lemma DeepFilesAreDriverRecords(tasks: seq<string>, replicates: seq<nat>, reg: Registration,
      outcomes: nat -> Outcome, path: FilePath)
    returns (c: Cell)
    requires path in FinalFiles(tasks, replicates, reg, outcomes) && |path| == 4
    ensures c in CellsOf(FinalResult(tasks, replicates, reg, outcomes).runs) && path == DriverPath(c)
  {
    var order := ExecutionOrder(tasks, replicates);
    hide ExecutionOrder, ExpectedCells, DriverPath, CellDir, Records, DriverFiles, GatePasses, FirstFailure;
    var n := Executed(order, outcomes, reg.fingerprints);
    hide Executed;
    DriverFilesKeys(order, outcomes, n, path);
    RecordsCells(order, outcomes, n);
    var i :| 0 <= i < n && path == DriverPath(order[i]);
    c := order[i];
    assert order[..n][i] == c;
  }

  lemma CompletedDriverDirs(tasks: seq<string>, replicates: seq<nat>, reg: Registration, outcomes: nat -> Outcome)
    requires Distinct(tasks) && Distinct(replicates)
    requires FinalResult(tasks, replicates, reg, outcomes).Completed?
    ensures DriverDirs(FinalFiles(tasks, replicates, reg, outcomes)) == CellDirsOf(ExpectedCells(tasks, replicates))
  {
    hide ExecutionOrder, ExpectedCells, DriverPath, CellDir, FinalFiles, FinalResult;
    var matrix := ExpectedCells(tasks, replicates);
    var files := FinalFiles(tasks, replicates, reg, outcomes);
    CompletesIffEveryCellPasses(tasks, replicates, reg, outcomes);
    OrderIsPermutation(tasks, replicates);
    PermutationMembers(ExecutionOrder(tasks, replicates), matrix);
    forall dir | dir in DriverDirs(files) ensures dir in CellDirsOf(matrix) {
      var path :| path in files && |path| == 4 && path[3] == DRIVER_RUN && path[..3] == dir;
      var c := DeepFilesAreDriverRecords(tasks, replicates, reg, outcomes, path);
      assert c in matrix && CellDir(c) == dir;
    }
    forall dir | dir in CellDirsOf(matrix) ensures dir in DriverDirs(files) {
      var c :| c in matrix && CellDir(c) == dir;
      DriverRecordsAreTheRuns(tasks, replicates, reg, outcomes, c);
      DriverDirsMember(files, c);
    }
  }

  /** Producer and auditor agree: the auditor accepts what a run leaves exactly when the run completed. */
  lemma AuditAcceptsExactlyCompletedRuns(tasks: seq<string>, replicates: seq<nat>, reg: Registration,
      outcomes: nat -> Outcome)
    requires Distinct(tasks) && Distinct(replicates)
    ensures AuditStructure(FinalFiles(tasks, replicates, reg, outcomes), tasks, replicates).None?
       <==> FinalResult(tasks, replicates, reg, outcomes).Completed?
  {
    ExactlyOneClosingRecord(tasks, replicates, reg, outcomes);
    if FinalResult(tasks, replicates, reg, outcomes).Completed? {
      CompletesIffEveryCellPasses(tasks, replicates, reg, outcomes);
      CompletedDriverDirs(tasks, replicates, reg, outcomes);
      var runs := FinalResult(tasks, replicates, reg, outcomes).runs;
      OrderCheckSubsumesMatrixCheck(runs, tasks, replicates);
      FinalLookups(tasks, replicates, reg, outcomes);
    }
  }

  /** A driver record stands in the directory. */
  ghost predicate HoldsDriverRecord(files: Files, dir: FilePath) {
    |dir| == 3 && dir + ["driver-run.json"] in files
  }

  /** The directory is that of a cell of the matrix. */
  ghost predicate IsCellPlace(tasks: seq<string>, replicates: seq<nat>, dir: FilePath) {
    exists c: Cell :: c.task in tasks && c.replicate in replicates
      && dir == [c.task, "rep-" + Show02(c.replicate), if c.condition == Baseline then "baseline" else "treatment"]
  }

  lemma PlacesAre(files: Files, tasks: seq<string>, replicates: seq<nat>, dir: FilePath)
    ensures dir in DriverDirs(files) <==> HoldsDriverRecord(files, dir)
    ensures dir in CellDirsOf(ExpectedCells(tasks, replicates)) <==> IsCellPlace(tasks, replicates, dir)
  {
    hide ExpectedCells, ExecutionOrder, Show02;
    OrderIsPermutation(tasks, replicates);
    PermutationMembers(ExecutionOrder(tasks, replicates), ExpectedCells(tasks, replicates));
    forall c: Cell ensures c in ExpectedCells(tasks, replicates) <==> c.task in tasks && c.replicate in replicates {
      OrderMember(tasks, replicates, c);
    }
    if dir in DriverDirs(files) {
      var path :| path in files && |path| == 4 && path[3] == DRIVER_RUN && path[..3] == dir;
      assert path == dir + [DRIVER_RUN];
    }
    if HoldsDriverRecord(files, dir) {
      var path := dir + ["driver-run.json"];
      assert path in files && |path| == 4 && path[3] == DRIVER_RUN && path[..3] == dir;
    }
  }

  /** What the structural checks accept, on the files: no stop record; a preregistration of exactly this matrix and this
      order; results that report the cells of the order one by one; an environment; and driver records at exactly the
      places of the matrix's cells. */
  lemma AcceptedIff(files: Files, tasks: seq<string>, replicates: seq<nat>)
    ensures AuditStructure(files, tasks, replicates).None? <==>
      (["protocol-stop.json"] !in files && ["environment.json"] in files
       && ["preregistration.json"] in files
       && files[["preregistration.json"]] ==
            Preregistration(ExpectedCells(tasks, replicates), ExecutionOrder(tasks, replicates))
       && ["pilot-results.json"] in files && files[["pilot-results.json"]].PilotResults?
       && CellsOf(files[["pilot-results.json"]].runs) == ExecutionOrder(tasks, replicates)
       && forall dir :: HoldsDriverRecord(files, dir) <==> IsCellPlace(tasks, replicates, dir))
  {
    hide ExpectedCells, ExecutionOrder, CellDirsOf, HoldsDriverRecord, IsCellPlace;
    var matrix, order := ExpectedCells(tasks, replicates), ExecutionOrder(tasks, replicates);
    if RESULTS_PATH in files && files[RESULTS_PATH].PilotResults? && CellsOf(files[RESULTS_PATH].runs) == order {
      OrderCheckSubsumesMatrixCheck(files[RESULTS_PATH].runs, tasks, replicates);
    }
    forall dir
      ensures dir in DriverDirs(files) <==> HoldsDriverRecord(files, dir)
      ensures dir in CellDirsOf(matrix) <==> IsCellPlace(tasks, replicates, dir)
    {
      PlacesAre(files, tasks, replicates, dir);
    }
    hide DriverDirs, Members;
    if forall dir :: HoldsDriverRecord(files, dir) <==> IsCellPlace(tasks, replicates, dir) {
      assert DriverDirs(files) == CellDirsOf(matrix);
    }
  }
}
