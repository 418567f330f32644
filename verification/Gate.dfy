/** The expansion gate: how many complete valid pairs a pilot's audited records hold, what disqualifies them, and
    whether a larger cohort may be requested. */
module Gate {
  import opened Common
  import opened Grouping
  import opened Sequences
  import Evaluator
  import Pilot

  type Cell = Pilot.Cell

  /** One audited cell. */
  datatype Row = Row(
    cell: Cell,
    valid: bool,
    failures: seq<Evaluator.Failure>,
    semanticMatches: bool,
    payloadMatches: bool,
    identityValid: bool,
    categoriesMatch: bool)

  datatype Report = Report(
    noProtocolStop: bool,
    completeCount: nat,
    completeByTask: map<string, nat>,
    astCount: nat,
    structuralCount: nat,
    semanticCount: nat,
    payloadCount: nat,
    identityCount: nat,
    eligible: bool)

  predicate AstFails(r: Row) { Evaluator.LocusUnresolved in r.failures }
  predicate StructureFails(r: Row) {
    Evaluator.TopFieldsInvalid in r.failures || Evaluator.LocusFieldsInvalid in r.failures
  }
  predicate SemanticDiffers(r: Row) { !r.semanticMatches }
  predicate PayloadDiffers(r: Row) { !r.payloadMatches }
  predicate IdentityFails(r: Row) { !r.identityValid || !r.categoriesMatch }
  predicate IsValid(r: Row) { r.valid }

  /** `{cell: row for row in records}`: the last row of a cell wins. */
  function ByCell(rows: seq<Row>): map<Cell, Row> {
    if rows == [] then map[] else ByCell(rows[..|rows| - 1])[rows[|rows| - 1].cell := rows[|rows| - 1]]
  }

  // ---------------------------------------------------------------- what the gate is meant to count

  predicate BothPresent(m: map<Cell, Row>, task: string, r: nat) {
    Pilot.Cell(task, r, Baseline) in m && Pilot.Cell(task, r, Treatment) in m
  }

  predicate BothValid(m: map<Cell, Row>, task: string, r: nat) {
    BothPresent(m, task, r) && m[Pilot.Cell(task, r, Baseline)].valid && m[Pilot.Cell(task, r, Treatment)].valid
  }

  /** The replicates of a task of which both arms are valid. */
  function TaskPairs(m: map<Cell, Row>, task: string, replicates: seq<nat>): set<nat> {
    set r | r in replicates && BothValid(m, task, r)
  }

  function CompletePairs(m: map<Cell, Row>, tasks: seq<string>, replicates: seq<nat>): set<(string, nat)> {
    set t, r | t in tasks && r in replicates && BothValid(m, t, r) :: (t, r)
  }

  function Eligible(rowCount: nat, matrixSize: nat, noStop: bool, pairs: nat, byTask: map<string, nat>,
      failures: nat): bool {
    rowCount == matrixSize && noStop && pairs >= 3 && (forall t :: t in byTask ==> byTask[t] >= 1) && failures == 0
  }

  /** The report, each number given as the size of what it counts. */
  function GateReport(rows: seq<Row>, tasks: seq<string>, replicates: seq<nat>, noStop: bool): Report {
    var m := ByCell(rows);
    var byTask := map t | t in tasks :: |TaskPairs(m, t, replicates)|;
    var ast, structural := |Filter(AstFails, rows)|, |Filter(StructureFails, rows)|;
    var semantic, payload := |Filter(SemanticDiffers, rows)|, |Filter(PayloadDiffers, rows)|;
    var identity := |Filter(IdentityFails, rows)|;
    Report(noStop, |CompletePairs(m, tasks, replicates)|, byTask, ast, structural, semantic, payload, identity,
           Eligible(|rows|, |Pilot.ExpectedCells(tasks, replicates)|, noStop, |CompletePairs(m, tasks, replicates)|,
               byTask,
                    ast + structural + semantic + payload + identity))
  }

  // ---------------------------------------------------------------- the verdict lists both gates build

  /** What the loop over one task's replicates appends: one verdict for every replicate with both arms present. */
  function Verdicts(m: map<Cell, Row>, task: string, replicates: seq<nat>): seq<bool> {
    if replicates == [] then []
    else
      var r := replicates[|replicates| - 1];
      Verdicts(m, task, replicates[..|replicates| - 1])
      + if BothPresent(m, task, r) then [BothValid(m, task, r)] else []
  }

  /** `sum(rows)` over booleans. */
  function CountTrue(bs: seq<bool>): nat {
    if bs == [] then 0 else CountTrue(bs[..|bs| - 1]) + if bs[|bs| - 1] then 1 else 0
  }

  lemma CountTrueAppend(bs: seq<bool>, b: bool)
    ensures CountTrue(bs + [b]) == CountTrue(bs) + if b then 1 else 0
  {
    assert (bs + [b])[..|bs|] == bs;
  }

  lemma VerdictsAppend(m: map<Cell, Row>, task: string, before: seq<nat>, r: nat)
    ensures CountTrue(Verdicts(m, task, before + [r]))
        == CountTrue(Verdicts(m, task, before)) + if BothValid(m, task, r) then 1 else 0
  {
    assert (before + [r])[..|before|] == before;
    var verdicts := Verdicts(m, task, before);
    hide Verdicts, BothValid;
    if BothPresent(m, task, r) {
      CountTrueAppend(verdicts, BothValid(m, task, r));
    } else {
      assert verdicts + [] == verdicts;
      assert !BothValid(m, task, r) by { ValidIsPresent(m, task, r); }
    }
  }

  lemma ValidIsPresent(m: map<Cell, Row>, task: string, r: nat)
    ensures BothValid(m, task, r) ==> BothPresent(m, task, r)
  {
  }

  lemma TaskPairsAppend(m: map<Cell, Row>, task: string, before: seq<nat>, r: nat)
    requires r !in before
    ensures |TaskPairs(m, task, before + [r])| == |TaskPairs(m, task, before)| + if BothValid(m, task, r) then 1 else 0
  {
    hide BothValid;
    assert TaskPairs(m, task, before + [r]) == TaskPairs(m, task, before) + if BothValid(m, task, r) then {r} else {};
  }

  lemma {:induction false} VerdictsCountPairs(m: map<Cell, Row>, task: string, replicates: seq<nat>)
    requires Distinct(replicates)
    ensures CountTrue(Verdicts(m, task, replicates)) == |TaskPairs(m, task, replicates)|
  {
    if replicates == [] {
      assert TaskPairs(m, task, replicates) == {};
    } else {
      hide Verdicts, CountTrue, BothValid, TaskPairs;
      var n := |replicates| - 1;
      var before, r := replicates[..n], replicates[n];
      VerdictsCountPairs(m, task, before);
      VerdictsAppend(m, task, before, r);
      assert replicates == before + [r] && r !in before;
      TaskPairsAppend(m, task, before, r);
    }
  }

  /** `sum(counts.values())`, the values in the order of the tasks. */
  function SumOf(tasks: seq<string>, counts: map<string, nat>): nat
    requires forall t :: t in tasks ==> t in counts
  {
    if tasks == [] then 0 else SumOf(tasks[..|tasks| - 1], counts) + counts[tasks[|tasks| - 1]]
  }

  function Tagged(task: string, rs: set<nat>): set<(string, nat)> {
    set r | r in rs :: (task, r)
  }

  lemma {:induction false} TaggedSize(task: string, rs: set<nat>)
    ensures |Tagged(task, rs)| == |rs|
  {
    if rs == {} {
      assert Tagged(task, rs) == {};
    } else {
      var r :| r in rs;
      TaggedSize(task, rs - {r});
      assert Tagged(task, rs) == Tagged(task, rs - {r}) + {(task, r)};
    }
  }

  lemma {:induction false} SumIsPairCount(m: map<Cell, Row>, tasks: seq<string>, replicates: seq<nat>,
      counts: map<string, nat>)
    requires Distinct(tasks)
    requires forall t :: t in tasks ==> t in counts && counts[t] == |TaskPairs(m, t, replicates)|
    ensures SumOf(tasks, counts) == |CompletePairs(m, tasks, replicates)|
  {
    if tasks == [] {
      assert CompletePairs(m, tasks, replicates) == {};
    } else {
      hide CompletePairs, TaskPairs;
      var n := |tasks| - 1;
      var before, t := tasks[..n], tasks[n];
      SumIsPairCount(m, before, replicates, counts);
      assert tasks == before + [t] && t !in before;
      CompletePairsAppend(m, before, t, replicates);
    }
  }

  lemma CompletePairsAppend(m: map<Cell, Row>, before: seq<string>, t: string, replicates: seq<nat>)
    requires t !in before
    ensures |CompletePairs(m, before + [t], replicates)|
        == |CompletePairs(m, before, replicates)| + |TaskPairs(m, t, replicates)|
  {
    hide BothValid;
    var own := Tagged(t, TaskPairs(m, t, replicates));
    assert CompletePairs(m, before + [t], replicates) == CompletePairs(m, before, replicates) + own;
    assert CompletePairs(m, before, replicates) !! own;
    TaggedSize(t, TaskPairs(m, t, replicates));
  }

  // ---------------------------------------------------------------- the V9 gate

  /** The loop over the replicates of one task, which appends into that task's list. */
  method AppendVerdicts(m: map<Cell, Row>, pairs: map<string, seq<bool>>, task: string, replicates: seq<nat>)
    returns (updated: map<string, seq<bool>>)
    requires task in pairs
    ensures updated == pairs[task := pairs[task] + Verdicts(m, task, replicates)]
  {
    updated := pairs;
    for j := 0 to |replicates|
      invariant updated.Keys == pairs.Keys && forall t :: t in pairs && t != task ==> updated[t] == pairs[t]
      invariant updated[task] == pairs[task] + Verdicts(m, task, replicates[..j])
    {
      var replicate := replicates[j];
      assert replicates[..j + 1][..j] == replicates[..j];
      if Pilot.Cell(task, replicate, Baseline) in m && Pilot.Cell(task, replicate, Treatment) in m {
        var verdict := m[Pilot.Cell(task, replicate, Baseline)].valid
            && m[Pilot.Cell(task, replicate, Treatment)].valid;
        updated := updated[task := updated[task] + [verdict]];
      }
    }
    assert replicates[..|replicates|] == replicates;
  }

  /** The nested loop that fills `pairs_by_task`. */
  method PairsByTask(m: map<Cell, Row>, tasks: seq<string>, replicates: seq<nat>)
    returns (pairsByTask: map<string, seq<bool>>)
    requires Distinct(tasks)
    ensures pairsByTask == map t | t in tasks :: Verdicts(m, t, replicates)
  {
    hide Verdicts;
    pairsByTask := map t | t in tasks :: [];
    for i := 0 to |tasks|
      invariant forall t :: t in pairsByTask <==> t in tasks
      invariant forall k :: 0 <= k < |tasks| ==>
                  pairsByTask[tasks[k]] == if k < i then Verdicts(m, tasks[k], replicates) else []
    {
      pairsByTask := AppendVerdicts(m, pairsByTask, tasks[i], replicates);
    }
  }

  /** `sum(p(row) for row in records)` */
  method CountRows(p: Row -> bool, rows: seq<Row>) returns (n: nat)
    ensures n == |Filter(p, rows)|
  {
    n := 0;
    for i := 0 to |rows|
      invariant n == |Filter(p, rows[..i])|
    {
      assert rows[..i + 1] == rows[..i] + [rows[i]];
      FilterAppend(p, rows[..i], rows[i]);
      if p(rows[i]) {
        n := n + 1;
      }
    }
    assert rows[..|rows|] == rows;
  }

  /** The five sums both gates take over the records. */
  method CountFailures(rows: seq<Row>) returns (ast: nat, structural: nat, semantic: nat, payload: nat, identity: nat)
    ensures ast == |Filter(AstFails, rows)| && structural == |Filter(StructureFails, rows)|
    ensures semantic == |Filter(SemanticDiffers, rows)| && payload == |Filter(PayloadDiffers, rows)|
    ensures identity == |Filter(IdentityFails, rows)|
  {
    hide Filter;
    ast := CountRows(AstFails, rows);
    structural := CountRows(StructureFails, rows);
    semantic := CountRows(SemanticDiffers, rows);
    payload := CountRows(PayloadDiffers, rows);
    identity := CountRows(IdentityFails, rows);
  }

  /** `_expansion_gate` of the V9 auditor. */
  method ExpansionGate(rows: seq<Row>, tasks: seq<string>, replicates: seq<nat>) returns (report: Report)
    requires Distinct(tasks) && Distinct(replicates)
    ensures report == GateReport(rows, tasks, replicates, true)
  {
    hide Verdicts, CountTrue, Filter, SumOf, TaskPairs, CompletePairs, ByCell, Pilot.ExpectedCells;
    var m := ByCell(rows);
    var pairsByTask := PairsByTask(m, tasks, replicates);
    var completeByTask := map t | t in pairsByTask :: CountTrue(pairsByTask[t]);
    forall t | t in tasks ensures completeByTask[t] == |TaskPairs(m, t, replicates)| {
      VerdictsCountPairs(m, t, replicates);
    }
    SumIsPairCount(m, tasks, replicates, completeByTask);
    var completeCount := SumOf(tasks, completeByTask);
    var ast, structural, semantic, payload, identity := CountFailures(rows);
    var eligible :=
      |rows| == |Pilot.ExpectedCells(tasks, replicates)| && completeCount >= 3
      && (forall t :: t in completeByTask ==> completeByTask[t] >= 1)
      && ast == 0 && structural == 0 && semantic == 0 && payload == 0 && identity == 0;
    report := Report(true, completeCount, completeByTask, ast, structural, semantic, payload, identity, eligible);
  }

  // ---------------------------------------------------------------- the V7 gate in its two steps

  datatype PairRow = PairRow(replicate: nat, baselineValid: bool, treatmentValid: bool, complete: bool)

  /** A matrix baseline whose treatment is missing: the V7 lookup raises KeyError. */
  predicate Unpaired(m: map<Cell, Row>, tasks: seq<string>, replicates: seq<nat>) {
    exists t :: t in tasks && TaskUnpaired(m, t, replicates)
  }

  predicate TaskUnpaired(m: map<Cell, Row>, task: string, replicates: seq<nat>) {
    exists r :: r in replicates && Orphan(m, task, r)
  }

  predicate Orphan(m: map<Cell, Row>, task: string, r: nat) {
    Pilot.Cell(task, r, Baseline) in m && Pilot.Cell(task, r, Treatment) !in m
  }

  function PairRows(m: map<Cell, Row>, task: string, replicates: seq<nat>): seq<PairRow> {
    if replicates == [] then []
    else
      var r := replicates[|replicates| - 1];
      PairRows(m, task, replicates[..|replicates| - 1])
      + if BothPresent(m, task, r)
        then [PairRow(r, m[Pilot.Cell(task, r, Baseline)].valid, m[Pilot.Cell(task, r, Treatment)].valid,
            BothValid(m, task, r))]
        else []
  }

  predicate IsComplete(p: PairRow) { p.complete }

  lemma {:induction false} PairRowsCountVerdicts(m: map<Cell, Row>, task: string, replicates: seq<nat>)
    ensures |Filter(IsComplete, PairRows(m, task, replicates))| == CountTrue(Verdicts(m, task, replicates))
  {
    if replicates != [] {
      var n := |replicates| - 1;
      var before, r := replicates[..n], replicates[n];
      PairRowsCountVerdicts(m, task, before);
      var rows, verdicts := PairRows(m, task, before), Verdicts(m, task, before);
      if BothPresent(m, task, r) {
        var row := PairRow(r, m[Pilot.Cell(task, r, Baseline)].valid, m[Pilot.Cell(task, r, Treatment)].valid,
            BothValid(m, task, r));
        FilterAppend(IsComplete, rows, row);
        CountTrueAppend(verdicts, BothValid(m, task, r));
      } else {
        assert rows + [] == rows && verdicts + [] == verdicts;
      }
    }
  }

  method AppendPairRows(m: map<Cell, Row>, pairs: map<string, seq<PairRow>>, task: string, replicates: seq<nat>)
    returns (updated: Result<map<string, seq<PairRow>>, Cell>)
    requires task in pairs
    ensures updated.Err? <==> TaskUnpaired(m, task, replicates)
    ensures updated.Ok? ==> updated.value == pairs[task := pairs[task] + PairRows(m, task, replicates)]
  {
    var current := pairs;
    for j := 0 to |replicates|
      invariant current.Keys == pairs.Keys && forall t :: t in pairs && t != task ==> current[t] == pairs[t]
      invariant current[task] == pairs[task] + PairRows(m, task, replicates[..j])
      invariant forall l :: 0 <= l < j ==> !Orphan(m, task, replicates[l])
    {
      var replicate := replicates[j];
      assert replicates[..j + 1][..j] == replicates[..j];
      if Pilot.Cell(task, replicate, Baseline) in m {
        if Pilot.Cell(task, replicate, Treatment) !in m {
          assert Orphan(m, task, replicate);
          return Err(Pilot.Cell(task, replicate, Treatment));
        }
        var baseline, treatment := m[Pilot.Cell(task, replicate, Baseline)], m[Pilot.Cell(task, replicate, Treatment)];
        var row := PairRow(replicate, baseline.valid, treatment.valid, baseline.valid && treatment.valid);
        current := current[task := current[task] + [row]];
      }
    }
    assert replicates[..|replicates|] == replicates;
    return Ok(current);
  }

  lemma NextIsNew<T>(xs: seq<T>, i: nat)
    requires Distinct(xs) && i < |xs|
    ensures xs[i] !in xs[..i] && xs[..i + 1] == xs[..i] + [xs[i]]
  {
  }

  /** `_paired_navigation_records`; the failure is the KeyError of an orphaned baseline. */
  method PairedNavigation(m: map<Cell, Row>, tasks: seq<string>, replicates: seq<nat>)
    returns (paired: Result<map<string, seq<PairRow>>, Cell>)
    requires Distinct(tasks)
    ensures paired.Err? <==> Unpaired(m, tasks, replicates)
    ensures paired.Ok? ==> paired.value == map t | t in tasks :: PairRows(m, t, replicates)
  {
    hide PairRows, TaskUnpaired, Distinct;
    var byTask: map<string, seq<PairRow>> := map t | t in tasks :: [];
    for i := 0 to |tasks|
      invariant forall t :: t in byTask <==> t in tasks
      invariant forall t :: t in tasks ==> byTask[t] == if t in tasks[..i] then PairRows(m, t, replicates) else []
      invariant forall t :: t in tasks[..i] ==> !TaskUnpaired(m, t, replicates)
    {
      NextIsNew(tasks, i);
      var updated := AppendPairRows(m, byTask, tasks[i], replicates);
      if updated.Err? {
        assert TaskUnpaired(m, tasks[i], replicates);
        return Err(updated.error);
      }
      byTask := updated.value;
    }
    assert tasks[..|tasks|] == tasks;
    return Ok(byTask);
  }

  /** `_expansion_gate` of the V7 auditor: with no orphaned baseline it gives the V9 report, and without a protocol
      stop the very same one. */
  method ExpansionGateV7(rows: seq<Row>, tasks: seq<string>, replicates: seq<nat>, noStop: bool)
    returns (report: Result<Report, Cell>)
    requires Distinct(tasks) && Distinct(replicates)
    ensures report.Err? <==> Unpaired(ByCell(rows), tasks, replicates)
    ensures report.Ok? ==> report.value == GateReport(rows, tasks, replicates, noStop)
  {
    hide Verdicts, CountTrue, Filter, SumOf, TaskPairs, CompletePairs, ByCell, Pilot.ExpectedCells, PairRows, Unpaired;
    var m := ByCell(rows);
    var paired := PairedNavigation(m, tasks, replicates);
    if paired.Err? {
      return Err(paired.error);
    }
    var byTask := paired.value;
    var completeByTask := map t | t in byTask :: |Filter(IsComplete, byTask[t])|;
    forall t | t in tasks ensures completeByTask[t] == |TaskPairs(m, t, replicates)| {
      PairRowsCountVerdicts(m, t, replicates);
      VerdictsCountPairs(m, t, replicates);
    }
    SumIsPairCount(m, tasks, replicates, completeByTask);
    var completeCount := SumOf(tasks, completeByTask);
    var ast, structural, semantic, payload, identity := CountFailures(rows);
    var eligible :=
      |rows| == |Pilot.ExpectedCells(tasks, replicates)| && noStop && completeCount >= 3
      && (forall t :: t in completeByTask ==> completeByTask[t] >= 1)
      && ast == 0 && structural == 0 && semantic == 0 && payload == 0 && identity == 0;
    return Ok(Report(noStop, completeCount, completeByTask, ast, structural, semantic, payload, identity, eligible));
  }

  // ---------------------------------------------------------------- properties of the report

  function CellOf(r: Row): Cell { r.cell }

  lemma {:induction false} ByCellMember(rows: seq<Row>, c: Cell)
    ensures c in ByCell(rows) <==> exists i :: 0 <= i < |rows| && rows[i].cell == c
    ensures c in ByCell(rows) ==> ByCell(rows)[c] in rows && ByCell(rows)[c].cell == c
  {
    if rows != [] {
      var n := |rows| - 1;
      ByCellMember(rows[..n], c);
      if i :| 0 <= i < n && rows[i].cell == c {
        assert rows[..n][i].cell == c;
      }
      assert rows == rows[..n] + [rows[n]];
    }
  }

  predicate HasValid(rows: seq<Row>, c: Cell) {
    exists row :: row in rows && row.cell == c && row.valid
  }

  predicate AllValid(rows: seq<Row>, c: Cell) {
    forall row :: row in rows && row.cell == c ==> row.valid
  }

  /** No choice is left: an arm has no valid row at all, or every row of both arms is valid. */
  predicate Decided(rows: seq<Row>, task: string, r: nat) {
    var b, t := Pilot.Cell(task, r, Baseline), Pilot.Cell(task, r, Treatment);
    HasValid(rows, b) && HasValid(rows, t) ==> AllValid(rows, b) && AllValid(rows, t)
  }

  ghost predicate OrderFree(rows: seq<Row>, tasks: seq<string>, replicates: seq<nat>) {
    forall t, r :: t in tasks && r in replicates ==> Decided(rows, t, r)
  }

  /** Where nothing is left to choose, a pair is complete exactly when both of its arms have a valid row. */
  lemma DecidedPair(rows: seq<Row>, task: string, r: nat)
    requires Decided(rows, task, r)
    ensures BothValid(ByCell(rows), task, r) <==>
            HasValid(rows, Pilot.Cell(task, r, Baseline)) && HasValid(rows, Pilot.Cell(task, r, Treatment))
  {
    hide ByCell;
    forall c: Cell ensures c in ByCell(rows) && ByCell(rows)[c].valid ==> HasValid(rows, c)
      ensures HasValid(rows, c) && AllValid(rows, c) ==> c in ByCell(rows) && ByCell(rows)[c].valid
    {
      ByCellMember(rows, c);
      if HasValid(rows, c) {
        var row :| row in rows && row.cell == c;
        var i :| 0 <= i < |rows| && rows[i] == row;
      }
    }
  }

  lemma SameMembersSameArms(a: seq<Row>, b: seq<Row>, c: Cell)
    requires forall row :: row in a <==> row in b
    ensures HasValid(a, c) == HasValid(b, c) && AllValid(a, c) == AllValid(b, c)
  {
    if HasValid(a, c) { var row :| row in a && row.cell == c && row.valid; assert row in b; }
    if HasValid(b, c) { var row :| row in b && row.cell == c && row.valid; assert row in a; }
    if AllValid(a, c) { forall row | row in b && row.cell == c ensures row.valid { assert row in a; } }
    if AllValid(b, c) { forall row | row in a && row.cell == c ensures row.valid { assert row in b; } }
  }

  lemma OrderFreeSuffices(a: seq<Row>, b: seq<Row>, tasks: seq<string>, replicates: seq<nat>, noStop: bool)
    requires Permutation(a, b) && OrderFree(a, tasks, replicates)
    ensures GateReport(a, tasks, replicates, noStop) == GateReport(b, tasks, replicates, noStop)
  {
    PermutationMembers(a, b);
    hide ByCell, Filter, HasValid, AllValid, BothValid, Pilot.ExpectedCells;
    forall t, r | t in tasks && r in replicates ensures BothValid(ByCell(a), t, r) == BothValid(ByCell(b), t, r) {
      assert Decided(a, t, r);
      SameMembersSameArms(a, b, Pilot.Cell(t, r, Baseline));
      SameMembersSameArms(a, b, Pilot.Cell(t, r, Treatment));
      DecidedPair(a, t, r);
      DecidedPair(b, t, r);
    }
    SamePairs(ByCell(a), ByCell(b), tasks, replicates);
    FilterCountPermutation(AstFails, a, b);
    FilterCountPermutation(StructureFails, a, b);
    FilterCountPermutation(SemanticDiffers, a, b);
    FilterCountPermutation(PayloadDiffers, a, b);
    FilterCountPermutation(IdentityFails, a, b);
    hide CompletePairs, TaskPairs, OrderFree, Permutation;
  }

  lemma SamePairs(m: map<Cell, Row>, n: map<Cell, Row>, tasks: seq<string>, replicates: seq<nat>)
    requires forall t, r :: t in tasks && r in replicates ==> BothValid(m, t, r) == BothValid(n, t, r)
    ensures CompletePairs(m, tasks, replicates) == CompletePairs(n, tasks, replicates)
    ensures forall t :: t in tasks ==> TaskPairs(m, t, replicates) == TaskPairs(n, t, replicates)
  {
    hide BothValid;
  }

  lemma FilterCountPermutation(p: Row -> bool, a: seq<Row>, b: seq<Row>)
    requires Permutation(a, b)
    ensures |Filter(p, a)| == |Filter(p, b)|
  {
    FilterPermutation(p, a, b);
    PermutationMembers(Filter(p, a), Filter(p, b));
  }

  lemma ByCellAppend(rows: seq<Row>, row: Row)
    ensures ByCell(rows + [row]) == ByCell(rows)[row.cell := row]
  {
    assert (rows + [row])[..|rows|] == rows;
  }

  lemma ByCellThree(rows: seq<Row>, a: Row, b: Row, c: Row)
    ensures ByCell(rows + [a] + [b] + [c]) == ByCell(rows)[a.cell := a][b.cell := b][c.cell := c]
  {
    hide ByCell;
    ByCellAppend(rows, a);
    ByCellAppend(rows + [a], b);
    ByCellAppend(rows + [a] + [b], c);
  }

  lemma TakeOut(rows: seq<Row>, row: Row) returns (rest: seq<Row>)
    requires row in rows
    ensures multiset(rows) == multiset(rest) + multiset{row}
  {
    var i :| 0 <= i < |rows| && rows[i] == row;
    rest := rows[..i] + rows[i + 1..];
    assert rows == rows[..i] + [row] + rows[i + 1..];
  }

  /** Two orders of the same rows whose reports differ, if something is left to choose: once the invalid row comes last,
      once the two valid ones do. */
  lemma OrderMatters(rows: seq<Row>, tasks: seq<string>, replicates: seq<nat>, noStop: bool, t: string, r: nat)
    returns (a: seq<Row>, b: seq<Row>)
    requires t in tasks && r in replicates && !Decided(rows, t, r)
    ensures Permutation(rows, a) && Permutation(rows, b)
    ensures GateReport(a, tasks, replicates, noStop).completeCount
         != GateReport(b, tasks, replicates, noStop).completeCount
  {
    var baseline, treatment := Pilot.Cell(t, r, Baseline), Pilot.Cell(t, r, Treatment);
    var vb :| vb in rows && vb.cell == baseline && vb.valid;
    var vt :| vt in rows && vt.cell == treatment && vt.valid;
    var x :| x in rows && (x.cell == baseline || x.cell == treatment) && !x.valid;
    var rest := TakeThree(rows, vb, vt, x);
    a, b := rest + [vb] + [vt] + [x], rest + [x] + [vb] + [vt];
    ByCellThree(rest, vb, vt, x);
    ByCellThree(rest, x, vb, vt);
    hide ByCell, Filter, Pilot.ExpectedCells;
    LastDecides(ByCell(rest), vb, vt, x, t, r, tasks, replicates);
    hide CompletePairs, TaskPairs;
  }

  lemma TakeThree(rows: seq<Row>, vb: Row, vt: Row, x: Row) returns (rest: seq<Row>)
    requires vb in rows && vt in rows && x in rows && vb.valid && vt.valid && !x.valid && vb.cell != vt.cell
    ensures Permutation(rows, rest + [vb] + [vt] + [x]) && Permutation(rows, rest + [x] + [vb] + [vt])
  {
    var rest1 := TakeOut(rows, vb);
    assert multiset(rows)[vt] == multiset(rest1)[vt] && multiset(rows)[x] == multiset(rest1)[x];
    assert vt in multiset(rest1) && x in multiset(rest1);
    var rest2 := TakeOut(rest1, vt);
    assert multiset(rest1)[x] == multiset(rest2)[x] && x in multiset(rest2);
    rest := TakeOut(rest2, x);
  }

  lemma LastDecides(m: map<Cell, Row>, vb: Row, vt: Row, x: Row, t: string, r: nat, tasks: seq<string>,
      replicates: seq<nat>)
    requires vb.cell == Pilot.Cell(t, r, Baseline) && vt.cell == Pilot.Cell(t, r, Treatment) && vb.valid && vt.valid
    requires (x.cell == vb.cell || x.cell == vt.cell) && !x.valid && t in tasks && r in replicates
    ensures |CompletePairs(m[vb.cell := vb][vt.cell := vt][x.cell := x], tasks, replicates)| !=
            |CompletePairs(m[x.cell := x][vb.cell := vb][vt.cell := vt], tasks, replicates)|
  {
    var p, q := m[vb.cell := vb][vt.cell := vt][x.cell := x], m[x.cell := x][vb.cell := vb][vt.cell := vt];
    assert !BothValid(p, t, r) && BothValid(q, t, r);
    forall u, s | u != t || s != r ensures BothValid(p, u, s) == BothValid(q, u, s) {
    }
    hide BothValid;
    assert CompletePairs(q, tasks, replicates) == CompletePairs(p, tasks, replicates) + {(t, r)};
    assert (t, r) !in CompletePairs(p, tasks, replicates);
  }

  /** Exactly when the report does not depend on the order of the rows. */
  lemma ReportOrderFreeIff(rows: seq<Row>, tasks: seq<string>, replicates: seq<nat>, noStop: bool)
    ensures (forall other :: Permutation(rows, other) ==>
              GateReport(other, tasks, replicates, noStop) == GateReport(rows, tasks, replicates, noStop))
       <==> OrderFree(rows, tasks, replicates)
  {
    hide GateReport, Decided;
    if OrderFree(rows, tasks, replicates) {
      forall other | Permutation(rows, other)
        ensures GateReport(other, tasks, replicates, noStop) == GateReport(rows, tasks, replicates, noStop)
      {
        OrderFreeSuffices(rows, other, tasks, replicates, noStop);
      }
    } else {
      var t, r :| t in tasks && r in replicates && !Decided(rows, t, r);
      var a, b := OrderMatters(rows, tasks, replicates, noStop, t, r);
      assert GateReport(a, tasks, replicates, noStop) != GateReport(b, tasks, replicates, noStop);
    }
  }

  ghost predicate UniqueCells(rows: seq<Row>) {
    forall i, j :: 0 <= i < j < |rows| ==> rows[i].cell != rows[j].cell
  }

  /** In particular, when no cell has two rows. */
  lemma ReportIgnoresRowOrder(a: seq<Row>, b: seq<Row>, tasks: seq<string>, replicates: seq<nat>, noStop: bool)
    requires Permutation(a, b) && UniqueCells(a)
    ensures GateReport(a, tasks, replicates, noStop) == GateReport(b, tasks, replicates, noStop)
  {
    hide GateReport, Decided;
    forall t, r | t in tasks && r in replicates ensures Decided(a, t, r) { UniqueIsDecided(a, t, r); }
    ReportOrderFreeIff(a, tasks, replicates, noStop);
  }

  lemma UniqueIsDecided(rows: seq<Row>, task: string, r: nat)
    requires UniqueCells(rows)
    ensures Decided(rows, task, r)
  {
    forall x, y | x in rows && y in rows && x.cell == y.cell ensures x == y {
      var i :| 0 <= i < |rows| && rows[i] == x;
      var j :| 0 <= j < |rows| && rows[j] == y;
      assert i == j;
    }
  }

  /** The cells of both arms of a set of pairs. */
  function ArmCells(pairs: set<(string, nat)>): set<Cell> {
    (set p | p in pairs :: Pilot.Cell(p.0, p.1, Baseline)) + (set p | p in pairs :: Pilot.Cell(p.0, p.1, Treatment))
  }

  lemma {:induction false} ArmCellsSize(pairs: set<(string, nat)>)
    ensures |ArmCells(pairs)| == 2 * |pairs|
  {
    if pairs == {} {
      assert ArmCells(pairs) == {};
    } else {
      var p :| p in pairs;
      var rest := pairs - {p};
      ArmCellsSize(rest);
      var both := {Pilot.Cell(p.0, p.1, Baseline), Pilot.Cell(p.0, p.1, Treatment)};
      assert ArmCells(pairs) == ArmCells(rest) + both;
      assert ArmCells(rest) !! both;
    }
  }

  lemma {:induction false} SubsetSize<T>(a: set<T>, b: set<T>)
    requires a <= b
    ensures |a| <= |b|
  {
    if a != {} {
      var x :| x in a;
      SubsetSize(a - {x}, b - {x});
    }
  }

  /** Every complete pair takes two valid rows of its own, on any list of rows. */
  lemma PairsNeedTwoValidRows(rows: seq<Row>, tasks: seq<string>, replicates: seq<nat>, noStop: bool)
    ensures 2 * GateReport(rows, tasks, replicates, noStop).completeCount <= |Filter(IsValid, rows)|
  {
    hide ByCell, Filter;
    var m := ByCell(rows);
    var pairs := CompletePairs(m, tasks, replicates);
    var valid := Filter(IsValid, rows);
    var cells := Map(CellOf, valid);
    FilterMembers(IsValid, rows);
    forall c | c in ArmCells(pairs) ensures c in Members(cells) {
      ByCellMember(rows, c);
      assert m[c] in valid && CellOf(m[c]) == c;
      MapMember(CellOf, valid, c);
    }
    ArmCellsSize(pairs);
    SubsetSize(ArmCells(pairs), Members(cells));
    DistinctIffCardinality(cells);
  }

  /** An eligible pilot holds at least six valid rows and a complete pair of every task. */
  lemma EligibleNeedsSixValidRows(rows: seq<Row>, tasks: seq<string>, replicates: seq<nat>, noStop: bool)
    requires GateReport(rows, tasks, replicates, noStop).eligible
    ensures noStop && |Filter(IsValid, rows)| >= 6
    ensures forall t :: t in tasks ==> exists r :: r in replicates && BothValid(ByCell(rows), t, r)
  {
    hide ByCell, Filter;
    PairsNeedTwoValidRows(rows, tasks, replicates, noStop);
    forall t | t in tasks ensures exists r :: r in replicates && BothValid(ByCell(rows), t, r) {
      var byTask := GateReport(rows, tasks, replicates, noStop).completeByTask;
      assert t in byTask && byTask[t] >= 1 && byTask[t] == |TaskPairs(ByCell(rows), t, replicates)|;
      var r :| r in TaskPairs(ByCell(rows), t, replicates);
    }
  }

  /** The rows `audit_pilot` builds, one for every expected cell, have unique cells and no orphaned baseline: on them
      neither gate fails and both agree. */
  lemma {:induction false} AuditRowsAreComplete(rows: seq<Row>, tasks: seq<string>, replicates: seq<nat>)
    requires Distinct(tasks) && Distinct(replicates)
    requires Map(CellOf, rows) == Pilot.ExpectedCells(tasks, replicates)
    ensures UniqueCells(rows)
    ensures !Unpaired(ByCell(rows), tasks, replicates)
    ensures |rows| == |Pilot.ExpectedCells(tasks, replicates)|
    ensures forall r :: r in rows ==> r.cell in ByCell(rows) && ByCell(rows)[r.cell] == r
  {
    hide Map, Pilot.ExpectedCells, Pilot.ExecutionOrder, ByCell;
    Pilot.OrderDistinct(tasks, replicates);
    Pilot.OrderIsPermutation(tasks, replicates);
    PermutationMembers(Pilot.ExecutionOrder(tasks, replicates), Pilot.ExpectedCells(tasks, replicates));
    forall i | 0 <= i < |rows| ensures Map(CellOf, rows)[i] == rows[i].cell { MapAt(CellOf, rows, i); }
    forall t, r | t in tasks && r in replicates ensures !Orphan(ByCell(rows), t, r) {
      var c := Pilot.Cell(t, r, Treatment);
      Pilot.OrderMember(tasks, replicates, c);
      var i :| 0 <= i < |rows| && Map(CellOf, rows)[i] == c;
      ByCellMember(rows, c);
    }
    forall r | r in rows ensures r.cell in ByCell(rows) && ByCell(rows)[r.cell] == r {
      ByCellMember(rows, r.cell);
    }
  }

  lemma {:induction false} SumOfConstant(tasks: seq<string>, counts: map<string, nat>, n: nat)
    requires forall t :: t in tasks ==> t in counts && counts[t] == n
    ensures SumOf(tasks, counts) == |tasks| * n
  {
    if tasks != [] {
      SumOfConstant(tasks[..|tasks| - 1], counts, n);
      assert |tasks| * n == (|tasks| - 1) * n + n;
    }
  }

  /** If every pair is complete there are as many as tasks times replicates. */
  lemma FullMatrixCount(m: map<Cell, Row>, tasks: seq<string>, replicates: seq<nat>)
    requires Distinct(tasks) && Distinct(replicates)
    requires forall t, r :: t in tasks && r in replicates ==> BothValid(m, t, r)
    ensures |CompletePairs(m, tasks, replicates)| == |tasks| * |replicates|
  {
    hide BothValid, SumOf, CompletePairs;
    var counts := map t | t in tasks :: |TaskPairs(m, t, replicates)|;
    DistinctIffCardinality(replicates);
    forall t | t in tasks ensures counts[t] == |replicates| {
      assert TaskPairs(m, t, replicates) == Members(replicates);
    }
    SumIsPairCount(m, tasks, replicates, counts);
    SumOfConstant(tasks, counts, |replicates|);
  }

  /** On the rows of an audit the pair count reaches tasks times replicates exactly when every row is valid. */
  lemma {:induction false} EveryPairIffEveryRowValid(rows: seq<Row>, tasks: seq<string>, replicates: seq<nat>,
      noStop: bool)
    requires Distinct(tasks) && Distinct(replicates)
    requires Map(CellOf, rows) == Pilot.ExpectedCells(tasks, replicates)
    ensures GateReport(rows, tasks, replicates, noStop).completeCount == |tasks| * |replicates|
       <==> forall i :: 0 <= i < |rows| ==> rows[i].valid
  {
    hide Map, Filter, ByCell, CompletePairs, Pilot.ExpectedCells, Pilot.ExecutionOrder;
    AuditRowsAreComplete(rows, tasks, replicates);
    Pilot.OrderIsPermutation(tasks, replicates);
    PermutationMembers(Pilot.ExecutionOrder(tasks, replicates), Pilot.ExpectedCells(tasks, replicates));
    Pilot.OrderLength(tasks, replicates);
    PairsNeedTwoValidRows(rows, tasks, replicates, noStop);
    FilterKeepsAll(IsValid, rows);
    if forall i :: 0 <= i < |rows| ==> rows[i].valid {
      forall t, r | t in tasks && r in replicates ensures BothValid(ByCell(rows), t, r) {
        EveryArmValid(rows, tasks, replicates, t, r);
      }
      FullMatrixCount(ByCell(rows), tasks, replicates);
    }
  }

  lemma {:induction false} EveryArmValid(rows: seq<Row>, tasks: seq<string>, replicates: seq<nat>, t: string, r: nat)
    requires Distinct(tasks) && Distinct(replicates) && t in tasks && r in replicates
    requires Map(CellOf, rows) == Pilot.ExpectedCells(tasks, replicates)
    requires forall i :: 0 <= i < |rows| ==> rows[i].valid
    ensures BothValid(ByCell(rows), t, r)
  {
    hide Map, ByCell, Pilot.ExpectedCells, Pilot.ExecutionOrder;
    Pilot.OrderIsPermutation(tasks, replicates);
    PermutationMembers(Pilot.ExecutionOrder(tasks, replicates), Pilot.ExpectedCells(tasks, replicates));
    forall c: Cell | c.task == t && c.replicate == r ensures c in ByCell(rows) && ByCell(rows)[c] in rows {
      Pilot.OrderMember(tasks, replicates, c);
      var i :| 0 <= i < |rows| && Map(CellOf, rows)[i] == c;
      MapAt(CellOf, rows, i);
      ByCellMember(rows, c);
    }
  }

  // ---------------------------------------------------------------- the report read off the records

  /** The last record of a cell is there and valid. */
  ghost predicate LastIsValid(rows: seq<Row>, task: string, r: nat, c: Condition) {
    exists i :: 0 <= i < |rows| && rows[i].cell == Pilot.Cell(task, r, c) && rows[i].valid
      && forall j :: i < j < |rows| ==> rows[j].cell != Pilot.Cell(task, r, c)
  }

  lemma {:induction false} LastRow(rows: seq<Row>, c: Cell) returns (i: nat)
    requires c in ByCell(rows)
    ensures i < |rows| && rows[i].cell == c && ByCell(rows)[c] == rows[i] && forall j :: i < j < |rows| ==>
        rows[j].cell != c
  {
    var n := |rows| - 1;
    if rows[n].cell == c {
      i := n;
    } else {
      i := LastRow(rows[..n], c);
      assert forall j :: 0 <= j < n ==> rows[..n][j] == rows[j];
    }
  }

  lemma ArmIsValidIff(rows: seq<Row>, task: string, r: nat, c: Condition)
    ensures var cell := Pilot.Cell(task, r, c);
            (cell in ByCell(rows) && ByCell(rows)[cell].valid) <==> LastIsValid(rows, task, r, c)
  {
    hide ByCell;
    var cell := Pilot.Cell(task, r, c);
    ByCellMember(rows, cell);
    if cell in ByCell(rows) {
      var i := LastRow(rows, cell);
    }
  }

  /** The replicates of a task of which the last records of both arms are valid. */
  ghost function ValidReplicates(rows: seq<Row>, task: string, replicates: seq<nat>): set<nat> {
    set r | r in replicates && LastIsValid(rows, task, r, Baseline) && LastIsValid(rows, task, r, Treatment)
  }

  ghost function ValidPairs(rows: seq<Row>, tasks: seq<string>, replicates: seq<nat>): set<(string, nat)> {
    set t, r | t in tasks && r in replicates
      && LastIsValid(rows, t, r, Baseline) && LastIsValid(rows, t, r, Treatment) :: (t, r)
  }

  lemma PairsOnRecords(rows: seq<Row>, tasks: seq<string>, replicates: seq<nat>, noStop: bool)
    ensures GateReport(rows, tasks, replicates, noStop).completeCount == |ValidPairs(rows, tasks, replicates)|
    ensures forall t :: t in tasks ==>
              t in GateReport(rows, tasks, replicates, noStop).completeByTask
              && GateReport(rows, tasks, replicates, noStop).completeByTask[t] ==
                 |ValidReplicates(rows, t, replicates)|
  {
    hide ByCell, LastIsValid;
    var m := ByCell(rows);
    forall t, r
      ensures BothValid(m, t, r) <==> LastIsValid(rows, t, r, Baseline) && LastIsValid(rows, t, r, Treatment)
    {
      ArmIsValidIff(rows, t, r, Baseline);
      ArmIsValidIff(rows, t, r, Treatment);
    }
    hide BothValid, Filter;
    assert CompletePairs(m, tasks, replicates) == ValidPairs(rows, tasks, replicates);
    forall t | t in tasks
      ensures TaskPairs(m, t, replicates) == ValidReplicates(rows, t, replicates)
    {
    }
  }

  /** Each failure count is the number of records with the failure, on their fields. */
  lemma CountsOnRecords(rows: seq<Row>, tasks: seq<string>, replicates: seq<nat>, noStop: bool)
    ensures var report := GateReport(rows, tasks, replicates, noStop);
      && report.noProtocolStop == noStop
      && report.astCount == |set i | 0 <= i < |rows| && Evaluator.LocusUnresolved in rows[i].failures|
      && report.structuralCount == |set i | 0 <= i < |rows| &&
           (Evaluator.TopFieldsInvalid in rows[i].failures || Evaluator.LocusFieldsInvalid in rows[i].failures)|
      && report.semanticCount == |set i | 0 <= i < |rows| && !rows[i].semanticMatches|
      && report.payloadCount == |set i | 0 <= i < |rows| && !rows[i].payloadMatches|
      && report.identityCount == |set i | 0 <= i < |rows| && !(rows[i].identityValid && rows[i].categoriesMatch)|
  {
    FilterCount(AstFails, rows);
    FilterCount(StructureFails, rows);
    FilterCount(SemanticDiffers, rows);
    FilterCount(PayloadDiffers, rows);
    FilterCount(IdentityFails, rows);
    assert Positions(AstFails, rows) ==
           set i | 0 <= i < |rows| && Evaluator.LocusUnresolved in rows[i].failures;
    assert Positions(StructureFails, rows) == set i | 0 <= i < |rows| &&
           (Evaluator.TopFieldsInvalid in rows[i].failures || Evaluator.LocusFieldsInvalid in rows[i].failures);
    assert Positions(SemanticDiffers, rows) == set i | 0 <= i < |rows| && !rows[i].semanticMatches;
    assert Positions(PayloadDiffers, rows) == set i | 0 <= i < |rows| && !rows[i].payloadMatches;
    assert Positions(IdentityFails, rows) ==
           set i | 0 <= i < |rows| && !(rows[i].identityValid && rows[i].categoriesMatch);
    hide Filter, ByCell, CompletePairs, TaskPairs, Eligible;
  }

  predicate CleanRecord(row: Row) {
    && Evaluator.LocusUnresolved !in row.failures && Evaluator.TopFieldsInvalid !in row.failures
    && Evaluator.LocusFieldsInvalid !in row.failures
    && row.semanticMatches && row.payloadMatches && row.identityValid && row.categoriesMatch
  }

  /** When a report is eligible, on the records: no stop, one record for each cell's worth, three or more valid pairs,
      one or more of every task, and no record with any counted failure. */
  lemma EligibleIff(rows: seq<Row>, tasks: seq<string>, replicates: seq<nat>, noStop: bool)
    ensures GateReport(rows, tasks, replicates, noStop).eligible <==>
      (noStop && |rows| == |tasks| * |replicates| * 2 && |ValidPairs(rows, tasks, replicates)| >= 3
       && (forall t :: t in tasks ==>
             exists r :: r in replicates && LastIsValid(rows, t, r, Baseline) && LastIsValid(rows, t, r, Treatment))
       && forall row :: row in rows ==> CleanRecord(row))
  {
    hide ByCell, LastIsValid, ValidPairs, Pilot.ExpectedCells, Pilot.ExecutionOrder, CompletePairs, TaskPairs;
    PairsOnRecords(rows, tasks, replicates, noStop);
    Pilot.OrderLength(tasks, replicates);
    Pilot.OrderIsPermutation(tasks, replicates);
    PermutationMembers(Pilot.ExecutionOrder(tasks, replicates), Pilot.ExpectedCells(tasks, replicates));
    NoFailuresIff(rows);
    var byTask := GateReport(rows, tasks, replicates, noStop).completeByTask;
    forall t | t in tasks
      ensures byTask[t] >= 1 <==>
        exists r :: r in replicates && LastIsValid(rows, t, r, Baseline) && LastIsValid(rows, t, r, Treatment)
    {
      var rs := ValidReplicates(rows, t, replicates);
      if rs != {} { var r :| r in rs; }
      if r :| r in replicates && LastIsValid(rows, t, r, Baseline) && LastIsValid(rows, t, r, Treatment) {
        assert r in rs;
      }
    }
    hide Filter, CleanRecord;
  }

  lemma NoFailuresIff(rows: seq<Row>)
    ensures |Filter(AstFails, rows)| + |Filter(StructureFails, rows)| + |Filter(SemanticDiffers, rows)|
            + |Filter(PayloadDiffers, rows)| + |Filter(IdentityFails, rows)| == 0
            <==> forall row :: row in rows ==> CleanRecord(row)
  {
    NoneIff(AstFails, rows);
    NoneIff(StructureFails, rows);
    NoneIff(SemanticDiffers, rows);
    NoneIff(PayloadDiffers, rows);
    NoneIff(IdentityFails, rows);
    hide Filter;
  }

  lemma NoneIff(p: Row -> bool, rows: seq<Row>)
    ensures |Filter(p, rows)| == 0 <==> forall row :: row in rows ==> !p(row)
  {
    FilterMembers(p, rows);
    if Filter(p, rows) != [] { assert Filter(p, rows)[0] in Filter(p, rows); }
  }

  /** V7's first step on the records: some matrix cell has a baseline record and no treatment record. */
  lemma UnpairedOnRecords(rows: seq<Row>, tasks: seq<string>, replicates: seq<nat>)
    ensures Unpaired(ByCell(rows), tasks, replicates) <==>
      exists t, r :: t in tasks && r in replicates
        && (exists i :: 0 <= i < |rows| && rows[i].cell == Pilot.Cell(t, r, Baseline))
        && forall i :: 0 <= i < |rows| ==> rows[i].cell != Pilot.Cell(t, r, Treatment)
  {
    hide ByCell;
    forall t, r ensures Orphan(ByCell(rows), t, r) <==>
      (exists i :: 0 <= i < |rows| && rows[i].cell == Pilot.Cell(t, r, Baseline))
      && forall i :: 0 <= i < |rows| ==> rows[i].cell != Pilot.Cell(t, r, Treatment)
    {
      ByCellMember(rows, Pilot.Cell(t, r, Baseline));
      ByCellMember(rows, Pilot.Cell(t, r, Treatment));
    }
    hide Orphan;
    if t, r :| t in tasks && r in replicates && Orphan(ByCell(rows), t, r) {
      assert TaskUnpaired(ByCell(rows), t, replicates);
    }
  }

  /** V7's pair records, replicate by replicate: both verdicts, and their conjunction. */
  lemma PairRowsAre(m: map<Cell, Row>, task: string, before: seq<nat>, r: nat)
    ensures PairRows(m, task, []) == []
    ensures var b, t := Pilot.Cell(task, r, Baseline), Pilot.Cell(task, r, Treatment);
      PairRows(m, task, before + [r]) == PairRows(m, task, before) +
        if b in m && t in m then [PairRow(r, m[b].valid, m[t].valid, m[b].valid && m[t].valid)] else []
  {
    assert (before + [r])[..|before|] == before;
  }
}
