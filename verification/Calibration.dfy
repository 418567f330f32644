/** The calibration preflight: the commands it fingerprints, when it completes, what the pilot accepts of it, and what a
    completed pilot has in common with it. */
module Calibration {
  import opened Common
  import opened Fingerprints
  import opened Surface
  import Decimal
  import Pilot

  datatype Slot = Slot(replicate: nat, condition: Condition)

  const SLOTS: seq<Slot> := [Slot(1, Baseline), Slot(1, Treatment), Slot(2, Treatment), Slot(2, Baseline)]
  const CALIBRATION_TASK := "v9-runtime-identity-calibration"

  /** The canonical model names of the three surfaces. */
  datatype Labels = Labels(assistant: seq<string>, session: seq<string>, usage: seq<string>)

  datatype Categories = Categories(valid: bool, labels: Labels)

  /** What one calibration run left: the inner command, if it was written; the categories rebuilt from its stream; and
      whether everything else holds that a validation looks at: the files, their hashes, the return code, the inner
      surface and the packet. */
  datatype Trace = Trace(inner: Option<Command>, categories: Categories, sound: bool)

  /** One calibration as the preflight file records it. */
  datatype Entry = Entry(slot: Slot, output: string, outer: Command, fingerprint: string, categories: Categories)

  /** `identity-preflight.json`. */
  datatype Preflight = Preflight(
    complete: bool, matrix: seq<Slot>, entries: seq<Entry>, categoriesValid: bool, labels: Labels,
    fingerprints: Pilot.ArmFingerprints)

  /** What both producers run with, and the digest and the rewriting of the inner configuration. */
  datatype Tools = Tools(python: string, runner: string, surface: string, digest: (Command, Command) -> string,
                         config: string -> Rewrite) {
    function Outer(marker: string, l: Local, s: Setting): Command {
      OuterCommand(python, runner, surface, marker, l, s)
    }

    function Stamp(outer: Command, inner: Command): Result<string, CommandError> {
      Fingerprint(digest, config, outer, inner)
    }

    predicate Usable() {
      Operand(python) && Operand(runner) && Operand(surface)
    }

    predicate Plain(l: Local) {
      Operands(python, runner, surface, l)
    }
  }

  // ---------------------------------------------------------------- the preflight

  function OutputOf(slot: Slot): string {
    "calibrations/rep-" + Decimal.Show02(slot.replicate) + "/" + slot.condition.Name() + "/output"
  }

  function LocalOf(directory: string, slot: Slot): Local {
    Local(CALIBRATION_TASK, directory + "/calibration-source", directory + "/calibration-instruction.md",
          directory + "/" + OutputOf(slot))
  }

  function CalibrationCommand(tools: Tools, directory: string, binary: string, slot: Slot): Command {
    tools.Outer(CALIBRATION_MARKER, LocalOf(directory, slot), Setting(slot.condition, binary))
  }

  function EntryOf(tools: Tools, directory: string, binary: string, traces: string -> Trace,
      slot: Slot): Result<Entry, CommandError> {
    var trace, outer := traces(OutputOf(slot)), CalibrationCommand(tools, directory, binary, slot);
    var stamp := tools.Stamp(outer, if trace.inner.Some? then trace.inner.value else []);
    if stamp.Err? then Err(stamp.error) else Ok(Entry(slot, OutputOf(slot), outer, stamp.value, trace.categories))
  }

  /** The entries of the first `n` slots; a command without a normal form aborts the preflight. */
  function Entries(tools: Tools, directory: string, binary: string, traces: string -> Trace,
      n: nat): Result<seq<Entry>, CommandError>
    requires n <= |SLOTS|
  {
    if n == 0 then Ok([])
    else
      var before := Entries(tools, directory, binary, traces, n - 1);
      if before.Err? then before
      else
        var entry := EntryOf(tools, directory, binary, traces, SLOTS[n - 1]);
        if entry.Err? then Err(entry.error) else Ok(before.value + [entry.value])
  }

  /** `next(record of the arm)` */
  function ArmFingerprint(entries: seq<Entry>, condition: Condition): Option<string> {
    if entries == [] then None
    else if entries[0].slot.condition == condition then Some(entries[0].fingerprint)
    else ArmFingerprint(entries[1..], condition)
  }

  function ArmsOf(entries: seq<Entry>): Pilot.ArmFingerprints {
    (c: Condition) => ArmFingerprint(entries, c)
  }

  predicate FingerprintsMatch(entries: seq<Entry>, fingerprints: Pilot.ArmFingerprints) {
    forall k :: 0 <= k < |entries| ==> Some(entries[k].fingerprint) == fingerprints(entries[k].slot.condition)
  }

  predicate CategoriesAgree(entries: seq<Entry>, labels: Labels) {
    forall k :: 0 <= k < |entries| ==> entries[k].categories == Categories(true, labels)
  }

  /** The checks `_validate_calibration` makes of the outer command. */
  predicate OuterValid(outer: Command, surface: string, condition: Condition) {
    && CALIBRATION_MARKER in outer && CONTRACT_MARKER !in outer
    && CommandValue(outer, "--model") == Ok(Pilot.REQUESTED_MODEL)
    && CommandValue(outer, "--condition") == Ok(condition.Name())
    && CommandValue(outer, "--task-id") == Ok(CALIBRATION_TASK)
    && CommandValue(outer, "--treatment-surface") == Ok(surface)
  }

  /** `_validate_calibration` raises nothing. */
  predicate Validated(tools: Tools, entry: Entry, trace: Trace) {
    && entry.slot in SLOTS && trace.inner.Some? && trace.sound
    && tools.Stamp(entry.outer, trace.inner.value) == Ok(entry.fingerprint)
    && entry.categories == trace.categories && trace.categories.valid
    && OuterValid(entry.outer, tools.surface, entry.slot.condition)
  }

  predicate AllValidated(tools: Tools, entries: seq<Entry>, traces: string -> Trace) {
    forall k :: 0 <= k < |entries| ==> Validated(tools, entries[k], traces(entries[k].output))
  }

  /** The file written for the entries of a preflight. */
  function Summary(tools: Tools, entries: seq<Entry>, traces: string -> Trace, versionOk: bool): Preflight
    requires entries != []
  {
    var labels := entries[0].categories.labels;
    Preflight(versionOk && CategoriesAgree(entries, labels) && FingerprintsMatch(entries, ArmsOf(entries))
              && AllValidated(tools, entries, traces),
              SLOTS, entries, CategoriesAgree(entries, labels), labels, ArmsOf(entries))
  }

  lemma {:induction false} EntryAt(tools: Tools, directory: string, binary: string, traces: string -> Trace, n: nat)
    requires n <= |SLOTS| && Entries(tools, directory, binary, traces, n).Ok?
    ensures var entries := Entries(tools, directory, binary, traces, n).value;
            |entries| == n && forall k :: 0 <= k < n ==>
                EntryOf(tools, directory, binary, traces, SLOTS[k]) == Ok(entries[k])
  {
    hide EntryOf;
    if n > 0 {
      EntryAt(tools, directory, binary, traces, n - 1);
    }
  }

  lemma {:induction false} EntriesStayErr(tools: Tools, directory: string, binary: string, traces: string -> Trace,
      n: nat, m: nat)
    requires n <= m <= |SLOTS| && Entries(tools, directory, binary, traces, n).Err?
    ensures Entries(tools, directory, binary, traces, m) == Entries(tools, directory, binary, traces, n)
  {
    if n < m { EntriesStayErr(tools, directory, binary, traces, n, m - 1); }
  }

  /** The loop that validates every recorded calibration. */
  method ValidateAll(tools: Tools, entries: seq<Entry>, traces: string -> Trace, before: bool) returns (complete: bool)
    ensures complete <==> before && AllValidated(tools, entries, traces)
  {
    hide Validated;
    complete := before;
    for k := 0 to |entries|
      invariant complete <==>
          before && forall j :: 0 <= j < k ==> Validated(tools, entries[j], traces(entries[j].output))
    {
      if !Validated(tools, entries[k], traces(entries[k].output)) {
        complete := false;
      }
    }
  }

  /** `run_preflight`: one loop records the calibrations, another validates them. */
  method RunPreflight(tools: Tools, directory: string, binary: string, traces: string -> Trace, versionOk: bool)
    returns (r: Result<Preflight, CommandError>)
    ensures r.Err? <==> Entries(tools, directory, binary, traces, |SLOTS|).Err?
    ensures r.Err? ==> Err(r.error) == Entries(tools, directory, binary, traces, |SLOTS|)
    ensures r.Ok? ==> r.value.entries == Entries(tools, directory, binary, traces, |SLOTS|).value
    ensures r.Ok? ==> r.value.entries != [] && r.value == Summary(tools, r.value.entries, traces, versionOk)
  {
    hide EntryOf, AllValidated, ArmFingerprint, FingerprintsMatch, CategoriesAgree;
    var entries: seq<Entry> := [];
    for n := 0 to |SLOTS|
      invariant Entries(tools, directory, binary, traces, n) == Ok(entries) && |entries| == n
    {
      var entry := EntryOf(tools, directory, binary, traces, SLOTS[n]);
      if entry.Err? {
        EntriesStayErr(tools, directory, binary, traces, n + 1, |SLOTS|);
        return Err(entry.error);
      }
      entries := entries + [entry.value];
    }
    var labels := entries[0].categories.labels;
    var fingerprints := ArmsOf(entries);
    var agree := CategoriesAgree(entries, labels);
    var complete := ValidateAll(tools, entries, traces, versionOk && agree && FingerprintsMatch(entries, fingerprints));
    return Ok(Preflight(complete, SLOTS, entries, agree, labels, fingerprints));
  }

  // ---------------------------------------------------------------- what the pilot accepts

  /** `_model_identity` raises nothing: the matrix is the frozen one, every retained calibration validates, and every
      recorded fingerprint is the one recorded for its arm. */
  predicate Accepted(tools: Tools, pre: Preflight, traces: string -> Trace) {
    && pre.matrix == SLOTS && AllValidated(tools, pre.entries, traces)
    && pre.complete && |pre.entries| == |SLOTS|
    && (forall k :: 0 <= k < |SLOTS| ==> pre.entries[k].slot == SLOTS[k])
    && pre.categoriesValid
    && (forall k :: 0 <= k < |SLOTS| ==> traces(pre.entries[k].output).categories.labels == pre.labels)
    && FingerprintsMatch(pre.entries, pre.fingerprints)
  }

  /** Producer and consumer agree: the pilot accepts a preflight's own file exactly when it says it is complete. */
  lemma AcceptedIffComplete(tools: Tools, directory: string, binary: string, traces: string -> Trace, versionOk: bool)
    requires Entries(tools, directory, binary, traces, |SLOTS|).Ok?
    ensures var entries := Entries(tools, directory, binary, traces, |SLOTS|).value;
            entries != [] && var pre := Summary(tools, entries, traces, versionOk);
            Accepted(tools, pre, traces) <==> pre.complete
  {
    EntryAt(tools, directory, binary, traces, |SLOTS|);
    hide Entries, CalibrationCommand, OutputOf, OuterValid;
    var entries := Entries(tools, directory, binary, traces, |SLOTS|).value;
    var pre := Summary(tools, entries, traces, versionOk);
    forall k | 0 <= k < |SLOTS| ensures entries[k].slot == SLOTS[k] {
      assert EntryOf(tools, directory, binary, traces, SLOTS[k]) == Ok(entries[k]);
    }
    if pre.complete {
      forall k | 0 <= k < |SLOTS| ensures traces(pre.entries[k].output).categories.labels == pre.labels {
        assert Validated(tools, entries[k], traces(entries[k].output));
        assert entries[k].categories == Categories(true, pre.labels);
      }
    }
  }

  // ---------------------------------------------------------------- when a preflight completes

  lemma ReadsFlag(command: Command, flag: string, i: nat)
    requires i + 1 < |command| && command[i] == flag && forall j :: 0 <= j < i ==> command[j] != flag
    ensures CommandValue(command, flag) == Ok(command[i + 1])
  {
    FirstIndexIs(command, flag, i);
  }

  lemma LocalIsPlain(tools: Tools, directory: string, slot: Slot)
    requires tools.Usable() && Operand(directory)
    ensures tools.Plain(LocalOf(directory, slot))
  {
    hide OutputOf;
    assert CALIBRATION_TASK[0] == 'v';
    assert forall x: string :: (directory + "/" + x)[0] == directory[0];
  }

  /** The command a preflight builds passes the checks a validation makes of it. */
  lemma BuiltCommandIsValid(tools: Tools, directory: string, binary: string, slot: Slot)
    requires tools.Usable() && Operand(directory) && Operand(binary)
    ensures OuterValid(CalibrationCommand(tools, directory, binary, slot), tools.surface, slot.condition)
  {
    LocalIsPlain(tools, directory, slot);
    var l := LocalOf(directory, slot);
    assert l.task == CALIBRATION_TASK;
    hide LocalOf, OutputOf;
    CommandReads(tools, l, Setting(slot.condition, binary));
  }

  lemma CommandReads(tools: Tools, l: Local, s: Setting)
    requires tools.Plain(l) && Operand(s.binary)
    ensures var outer := tools.Outer(CALIBRATION_MARKER, l, s);
            && CALIBRATION_MARKER in outer && CONTRACT_MARKER !in outer
            && CommandValue(outer, "--model") == Ok(Pilot.REQUESTED_MODEL)
            && CommandValue(outer, "--condition") == Ok(s.condition.Name())
            && CommandValue(outer, "--task-id") == Ok(l.task)
            && CommandValue(outer, "--treatment-surface") == Ok(tools.surface)
  {
    var outer := tools.Outer(CALIBRATION_MARKER, l, s);
    NoContractMarker(tools, l, s);
    assert outer[16] == CALIBRATION_MARKER;
    FlagPlaces(tools, l, s);
    ReadsFlag(outer, "--condition", 2);
    ReadsFlag(outer, "--task-id", 4);
    ReadsFlag(outer, "--treatment-surface", 14);
    ReadsFlag(outer, "--model", 17);
  }

  lemma FlagPlaces(tools: Tools, l: Local, s: Setting)
    requires tools.Plain(l)
    ensures var outer := tools.Outer(CALIBRATION_MARKER, l, s);
            && (forall j :: 0 <= j < 2 ==> outer[j] != "--condition")
            && (forall j :: 0 <= j < 4 ==> outer[j] != "--task-id")
            && (forall j :: 0 <= j < 14 ==> outer[j] != "--treatment-surface")
            && (forall j :: 0 <= j < 17 ==> outer[j] != "--model")
  {
    assert |"--condition"| == 11 && |"--task-id"| == 9 && |"--treatment-surface"| == 19 && |"--model"| == 7;
    assert |"--source-dir"| == 12 && |"--instruction-file"| == 18 && |"--output-dir"| == 12 && |"--use-mode"| == 10;
    assert |CALIBRATION_MARKER| == 32 && "voluntary"[0] == 'v' && Baseline.Name()[0] == 'b'
        && Treatment.Name()[0] == 't';
  }

  lemma NoContractMarker(tools: Tools, l: Local, s: Setting)
    requires tools.Plain(l) && Operand(s.binary)
    ensures CONTRACT_MARKER !in tools.Outer(CALIBRATION_MARKER, l, s)
  {
    ReservedWords();
    OtherWords();
    OperandsArePlain(tools.python, tools.runner, tools.surface, l);
    OperandIsNoMarker(s.binary);
    assert MARKERS[1] == CONTRACT_MARKER && MARKERS[1] in MARKERS && MARKERS[0] == CALIBRATION_MARKER
        && MARKERS[0] in MARKERS;
    FrontMarker(tools.python, tools.runner, tools.surface, CALIBRATION_MARKER, l, s.condition);
    hide Front, Reserved, FLAGS, MARKERS;
  }

  /** Two calibrations of one arm carry one fingerprint exactly when their inner commands have one normal form: nothing
      that depends on the run shows. */
  lemma SameArmSameFingerprint(tools: Tools, directory: string, binary: string, a: Slot, b: Slot, x: Command,
      y: Command)
    requires tools.Usable() && Operand(directory)
    requires CollisionFree(tools.digest) && a.condition == b.condition
    requires var f := tools.Stamp(CalibrationCommand(tools, directory, binary, a), x);
             var g := tools.Stamp(CalibrationCommand(tools, directory, binary, b), y);
             f.Ok? && g.Ok?
    ensures tools.Stamp(CalibrationCommand(tools, directory, binary, a), x)
         == tools.Stamp(CalibrationCommand(tools, directory, binary, b), y)
       <==> NormalInner(tools.config, x) == NormalInner(tools.config, y)
  {
    LocalIsPlain(tools, directory, a);
    LocalIsPlain(tools, directory, b);
    assert CALIBRATION_MARKER in MARKERS by { assert MARKERS[0] in MARKERS; }
    NormalOfCommand(tools.python, tools.runner, tools.surface, CALIBRATION_MARKER, LocalOf(directory, a),
        Setting(a.condition, binary));
    NormalOfCommand(tools.python, tools.runner, tools.surface, CALIBRATION_MARKER, LocalOf(directory, b),
        Setting(b.condition, binary));
    hide NormalOuter, NormalInner, OuterCommand, LocalOf, Operands, HIDDEN, MARKERS;
  }

  function TraceOf(traces: string -> Trace, slot: Slot): Trace {
    traces(OutputOf(slot))
  }

  /** Every calibration left sound evidence and its inner command, all with the same valid categories, and the inner
      commands of one arm have one normal form. */
  predicate Consistent(tools: Tools, traces: string -> Trace) {
    && (forall k :: 0 <= k < |SLOTS| ==>
          var t := TraceOf(traces, SLOTS[k]);
          t.inner.Some? && t.sound && t.categories == Categories(true, TraceOf(traces, SLOTS[0]).categories.labels))
    && SameInner(tools, traces, SLOTS[0], SLOTS[3]) && SameInner(tools, traces, SLOTS[1], SLOTS[2])
  }

  predicate SameInner(tools: Tools, traces: string -> Trace, a: Slot, b: Slot) {
    var x, y := TraceOf(traces, a).inner, TraceOf(traces, b).inner;
    x.Some? && y.Some? && NormalInner(tools.config, x.value) == NormalInner(tools.config, y.value)
  }

  /** What an entry holds, read off its slot and its trace. */
  predicate Recorded(tools: Tools, directory: string, binary: string, traces: string -> Trace, slot: Slot, entry: Entry)
  {
    var trace := TraceOf(traces, slot);
    && entry.slot == slot && entry.output == OutputOf(slot) && entry.categories == trace.categories
    && entry.outer == CalibrationCommand(tools, directory, binary, slot)
    && (trace.inner.Some? ==> tools.Stamp(entry.outer, trace.inner.value) == Ok(entry.fingerprint))
  }

  predicate Evident(trace: Trace) {
    trace.inner.Some? && trace.sound && trace.categories.valid
  }

  lemma EntryIsRecorded(tools: Tools, directory: string, binary: string, traces: string -> Trace, slot: Slot,
      entry: Entry)
    requires tools.Usable() && Operand(directory) && Operand(binary) && slot in SLOTS
    requires EntryOf(tools, directory, binary, traces, slot) == Ok(entry)
    ensures Recorded(tools, directory, binary, traces, slot, entry)
    ensures Validated(tools, entry, traces(entry.output)) <==> Evident(TraceOf(traces, slot))
  {
    BuiltCommandIsValid(tools, directory, binary, slot);
    hide CalibrationCommand, OuterValid, OutputOf, Operand;
  }

  lemma FourMatch(entries: seq<Entry>)
    requires |entries| == |SLOTS| && forall k :: 0 <= k < |SLOTS| ==> entries[k].slot == SLOTS[k]
    ensures FingerprintsMatch(entries, ArmsOf(entries)) <==>
            entries[0].fingerprint == entries[3].fingerprint && entries[1].fingerprint == entries[2].fingerprint
  {
    assert ArmFingerprint(entries, Baseline) == Some(entries[0].fingerprint);
    assert ArmFingerprint(entries, Treatment) == Some(entries[1].fingerprint);
    assert forall k :: 0 <= k < |entries| ==>
        ArmsOf(entries)(entries[k].slot.condition) == ArmFingerprint(entries, SLOTS[k].condition);
  }

  lemma ArmMatches(tools: Tools, directory: string, binary: string, traces: string -> Trace, a: Slot, b: Slot, x: Entry,
      y: Entry)
    requires tools.Usable() && CollisionFree(tools.digest) && Operand(directory) && a.condition == b.condition
    requires Recorded(tools, directory, binary, traces, a, x) && Recorded(tools, directory, binary, traces, b, y)
    requires TraceOf(traces, a).inner.Some? && TraceOf(traces, b).inner.Some?
    ensures x.fingerprint == y.fingerprint <==> SameInner(tools, traces, a, b)
  {
    hide TraceOf, CalibrationCommand, NormalInner, CollisionFree, OutputOf;
    SameArmSameFingerprint(tools, directory, binary, a, b, TraceOf(traces, a).inner.value,
        TraceOf(traces, b).inner.value);
  }

  /** A preflight completes exactly when its evidence is consistent: the outer commands it builds never matter. */
  lemma CompleteIff(tools: Tools, directory: string, binary: string, traces: string -> Trace, versionOk: bool)
    requires tools.Usable() && CollisionFree(tools.digest) && Operand(directory) && Operand(binary)
    requires Entries(tools, directory, binary, traces, |SLOTS|).Ok?
    ensures var entries := Entries(tools, directory, binary, traces, |SLOTS|).value;
            entries != [] && (Summary(tools, entries, traces, versionOk).complete <==>
                versionOk && Consistent(tools, traces))
  {
    var entries := Entries(tools, directory, binary, traces, |SLOTS|).value;
    EntryAt(tools, directory, binary, traces, |SLOTS|);
    hide Entries, EntryOf, CollisionFree, Validated, Evident, SameInner, FingerprintsMatch, ArmsOf;
    forall k | 0 <= k < |SLOTS|
      ensures Recorded(tools, directory, binary, traces, SLOTS[k], entries[k])
      ensures Validated(tools, entries[k], traces(entries[k].output)) <==> Evident(TraceOf(traces, SLOTS[k]))
    {
      assert SLOTS[k] in SLOTS;
      EntryIsRecorded(tools, directory, binary, traces, SLOTS[k], entries[k]);
    }
    FourMatch(entries);
    AllEvident(tools, directory, binary, traces, entries);
  }

  lemma AllEvident(tools: Tools, directory: string, binary: string, traces: string -> Trace, entries: seq<Entry>)
    requires tools.Usable() && CollisionFree(tools.digest) && Operand(directory) && |entries| == |SLOTS|
    requires forall k :: 0 <= k < |SLOTS| ==>
      Recorded(tools, directory, binary, traces, SLOTS[k], entries[k])
      && (Validated(tools, entries[k], traces(entries[k].output)) <==> Evident(TraceOf(traces, SLOTS[k])))
    ensures var labels := entries[0].categories.labels;
      CategoriesAgree(entries, labels) && AllValidated(tools, entries, traces)
      && entries[0].fingerprint == entries[3].fingerprint && entries[1].fingerprint == entries[2].fingerprint
      <==> Consistent(tools, traces)
  {
    hide Validated, NormalInner, CollisionFree, CalibrationCommand, OutputOf, Operand, TraceOf, SameInner;
    forall k | 0 <= k < |SLOTS| ensures entries[k].categories == TraceOf(traces, SLOTS[k]).categories {
      assert Recorded(tools, directory, binary, traces, SLOTS[k], entries[k]);
    }
    hide Recorded;
    if AllValidated(tools, entries, traces) || Consistent(tools, traces) {
      ArmMatches(tools, directory, binary, traces, SLOTS[0], SLOTS[3], entries[0], entries[3]);
      ArmMatches(tools, directory, binary, traces, SLOTS[1], SLOTS[2], entries[1], entries[2]);
    }
  }

  // ---------------------------------------------------------------- the pilot under an accepted preflight

  /** What a pilot cell came to: an error raised on the way, or its packet, its checks and its inner command, if that
      was written. */
  datatype CellRun = CellRun(l: Local, error: Option<string>, inner: Option<Command>, packet: Option<Pilot.Packet>,
                             sourceClean: bool, identityMatches: bool)

  function CellCommand(tools: Tools, binary: string, cell: Pilot.Cell, l: Local): Command {
    tools.Outer(CONTRACT_MARKER, l, Setting(cell.condition, binary))
  }

  /** The outcome `run_pilot` records: a fingerprint only where an inner command was written. */
  function OutcomeOf(tools: Tools, binary: string, cell: Pilot.Cell, run: CellRun): Pilot.Outcome {
    if run.error.Some? then Pilot.Raised(run.error.value)
    else if run.inner.None? then Pilot.Finished(run.packet, run.sourceClean, run.identityMatches, None)
    else
      var stamp := tools.Stamp(CellCommand(tools, binary, cell, run.l), run.inner.value);
      if stamp.Err? then Pilot.Raised("")
          else Pilot.Finished(run.packet, run.sourceClean, run.identityMatches, Some(stamp.value))
  }

  function Outcomes(tools: Tools, binary: string, order: seq<Pilot.Cell>, runs: nat -> CellRun): nat -> Pilot.Outcome {
    (i: nat) => if i < |order| then OutcomeOf(tools, binary, order[i], runs(i)) else Pilot.Raised("")
  }

  /** Everything the gate asks besides the fingerprint. */
  predicate OtherwisePasses(run: CellRun) {
    run.error.None? && run.packet.Some? && !run.packet.value.hardProtocolStop && run.sourceClean && run.identityMatches
    && run.inner.Some?
  }

  /** A cell and a calibration have the same normal forms, outside and inside. */
  predicate Alike(tools: Tools, binary: string, cell: Pilot.Cell, run: CellRun, entry: Entry, trace: Trace) {
    run.inner.Some? && trace.inner.Some?
    && NormalOuter(CellCommand(tools, binary, cell, run.l)) == NormalOuter(entry.outer)
    && NormalInner(tools.config, run.inner.value) == NormalInner(tools.config, trace.inner.value)
  }

  /** The gate compares texts; what it decides is whether the cell ran as the calibrations of its arm did. */
  lemma GateIffAlike(tools: Tools, binary: string, cell: Pilot.Cell, run: CellRun, pre: Preflight,
      traces: string -> Trace)
    requires CollisionFree(tools.digest) && tools.Plain(run.l) && Accepted(tools, pre, traces)
    ensures Pilot.GatePasses(Pilot.Record(cell, OutcomeOf(tools, binary, cell, run)), pre.fingerprints) <==>
            OtherwisePasses(run) && forall k :: 0 <= k < |SLOTS| && SLOTS[k].condition == cell.condition ==>
              Alike(tools, binary, cell, run, pre.entries[k], traces(pre.entries[k].output))
  {
    hide Validated, Alike, CollisionFree, CellCommand, Operands;
    var own := if cell.condition.Baseline? then 0 else 1;
    assert SLOTS[own].condition == cell.condition;
    forall k | 0 <= k < |SLOTS| && SLOTS[k].condition == cell.condition && run.inner.Some?
      ensures pre.fingerprints(cell.condition) == Some(pre.entries[k].fingerprint)
      ensures tools.Stamp(CellCommand(tools, binary, cell, run.l), run.inner.value) == Ok(pre.entries[k].fingerprint)
         <==> Alike(tools, binary, cell, run, pre.entries[k], traces(pre.entries[k].output))
    {
      assert Validated(tools, pre.entries[k], traces(pre.entries[k].output));
      StampsAgreeIffAlike(tools, binary, cell, run, pre.entries[k], traces(pre.entries[k].output));
    }
    hide Accepted;
  }

  lemma StampsAgreeIffAlike(tools: Tools, binary: string, cell: Pilot.Cell, run: CellRun, entry: Entry, trace: Trace)
    requires CollisionFree(tools.digest) && tools.Plain(run.l) && run.inner.Some? && Validated(tools, entry, trace)
    ensures tools.Stamp(CellCommand(tools, binary, cell, run.l), run.inner.value) == Ok(entry.fingerprint)
       <==> Alike(tools, binary, cell, run, entry, trace)
  {
    hide NormalOuter, NormalInner, OuterCommand, OuterValid, Operands;
  }

  /** A pilot run under an accepted preflight completes exactly when nothing else fails and every cell has the normal
      forms, outside and inside, of both calibrations of its arm. */
  lemma CompletesIffAlike(tools: Tools, binary: string, pre: Preflight, traces: string -> Trace, tasks: seq<string>,
      replicates: seq<nat>, runs: nat -> CellRun)
    requires CollisionFree(tools.digest) && Accepted(tools, pre, traces)
    requires forall i :: 0 <= i < |Pilot.ExecutionOrder(tasks, replicates)| ==> tools.Plain(runs(i).l)
    ensures var order := Pilot.ExecutionOrder(tasks, replicates);
      Pilot.FinalResult(tasks, replicates, Pilot.Registered(pre.fingerprints),
          Outcomes(tools, binary, order, runs)).Completed?
      <==> forall i :: 0 <= i < |order| ==>
        OtherwisePasses(runs(i)) && forall k :: 0 <= k < |SLOTS| && SLOTS[k].condition == order[i].condition ==>
          Alike(tools, binary, order[i], runs(i), pre.entries[k], traces(pre.entries[k].output))
  {
    var order := Pilot.ExecutionOrder(tasks, replicates);
    var outcomes := Outcomes(tools, binary, order, runs);
    hide Pilot.ExecutionOrder, Pilot.GatePasses, Pilot.FinalResult, OutcomeOf, Alike, OtherwisePasses, CollisionFree;
    Pilot.CompletesIffEveryCellPasses(tasks, replicates, Pilot.Registered(pre.fingerprints), outcomes);
    forall i | 0 <= i < |order|
      ensures Pilot.GatePasses(Pilot.RecordAt(order, outcomes, i), pre.fingerprints) <==>
        OtherwisePasses(runs(i)) && forall k :: 0 <= k < |SLOTS| && SLOTS[k].condition == order[i].condition ==>
          Alike(tools, binary, order[i], runs(i), pre.entries[k], traces(pre.entries[k].output))
    {
      GateIffAlike(tools, binary, order[i], runs(i), pre, traces);
    }
    hide Accepted;
  }

  /** Against the entries of a preflight run with binary `calibrated`, a cell is alike exactly when it ran the same
      binary and its inner command has the calibration's normal form. */
  lemma AlikeIffSameBinary(tools: Tools, directory: string, calibrated: string, binary: string, traces: string -> Trace,
      slot: Slot, cell: Pilot.Cell, run: CellRun, entry: Entry)
    requires tools.Usable() && Operand(directory) && Operand(calibrated) && Operand(binary) && tools.Plain(run.l)
    requires Recorded(tools, directory, calibrated, traces, slot, entry) && slot.condition == cell.condition
    ensures Alike(tools, binary, cell, run, entry, traces(entry.output)) <==>
      binary == calibrated && SameInnerAt(tools, traces, slot, run)
  {
    LocalIsPlain(tools, directory, slot);
    NormalFormPinsTheSetting(tools.python, tools.runner, tools.surface, run.l, Setting(cell.condition, binary),
                             LocalOf(directory, slot), Setting(slot.condition, calibrated));
    hide NormalOuter, NormalInner, OuterCommand, Operands, OutputOf, LocalOf;
  }

  predicate SameInnerAt(tools: Tools, traces: string -> Trace, slot: Slot, run: CellRun) {
    var x, y := run.inner, TraceOf(traces, slot).inner;
    x.Some? && y.Some? && NormalInner(tools.config, x.value) == NormalInner(tools.config, y.value)
  }

  /** The inner command of a cell has the normal form of both calibrations of its arm. */
  predicate SameInnerAsCalibrated(tools: Tools, traces: string -> Trace, cell: Pilot.Cell, run: CellRun) {
    forall k :: 0 <= k < |SLOTS| && SLOTS[k].condition == cell.condition ==> SameInnerAt(tools, traces, SLOTS[k], run)
  }

  /** From preflight to pilot: under a completed preflight a run with cells completes exactly when it runs the
      calibrated binary, nothing else fails, and every inner command has the normal form of its arm's calibrations. */
  lemma CompletesIffCalibrated(tools: Tools, directory: string, calibrated: string, traces: string -> Trace,
      versionOk: bool, binary: string, tasks: seq<string>, replicates: seq<nat>, runs: nat -> CellRun)
    requires tools.Usable() && CollisionFree(tools.digest)
    requires Operand(directory) && Operand(calibrated) && Operand(binary)
    requires var es := Entries(tools, directory, calibrated, traces, |SLOTS|);
             es.Ok? && es.value != [] && Summary(tools, es.value, traces, versionOk).complete
    requires var order := Pilot.ExecutionOrder(tasks, replicates);
             order != [] && forall i :: 0 <= i < |order| ==> tools.Plain(runs(i).l)
    ensures var pre := Summary(tools, Entries(tools, directory, calibrated, traces, |SLOTS|).value, traces, versionOk);
      var order := Pilot.ExecutionOrder(tasks, replicates);
      Pilot.FinalResult(tasks, replicates, Pilot.Registered(pre.fingerprints),
          Outcomes(tools, binary, order, runs)).Completed?
      <==> binary == calibrated && forall i :: 0 <= i < |order| ==>
             OtherwisePasses(runs(i)) && SameInnerAsCalibrated(tools, traces, order[i], runs(i))
  {
    hide Pilot.ExecutionOrder, Pilot.FinalResult, Entries, EntryOf, Accepted, CollisionFree, Recorded, Operand;
    hide Operands;
    hide Outcomes, TraceOf, OutputOf, Validated, FingerprintsMatch, CategoriesAgree, AllValidated, ArmsOf;
    var entries := Entries(tools, directory, calibrated, traces, |SLOTS|).value;
    var pre := Summary(tools, entries, traces, versionOk);
    var order := Pilot.ExecutionOrder(tasks, replicates);
    AcceptedIffComplete(tools, directory, calibrated, traces, versionOk);
    EntryAt(tools, directory, calibrated, traces, |SLOTS|);
    CompletesIffAlike(tools, binary, pre, traces, tasks, replicates, runs);
    hide Summary;
    forall i, k | 0 <= i < |order| && 0 <= k < |SLOTS| && SLOTS[k].condition == order[i].condition
      ensures Alike(tools, binary, order[i], runs(i), entries[k], traces(entries[k].output)) <==>
        (binary == calibrated && SameInnerAt(tools, traces, SLOTS[k], runs(i)))
    {
      assert SLOTS[k] in SLOTS;
      EntryIsRecorded(tools, directory, calibrated, traces, SLOTS[k], entries[k]);
      AlikeIffSameBinary(tools, directory, calibrated, binary, traces, SLOTS[k], order[i], runs(i), entries[k]);
    }
    hide Alike, OtherwisePasses, SameInnerAt;
    var own := if order[0].condition.Baseline? then 0 else 1;
    assert SLOTS[own].condition == order[0].condition;
  }

  // ---------------------------------------------------------------- acceptance read off the commands

  /** What an accepted preflight holds: the four frozen slots in order, each with evidence, the fingerprint of its own
      commands, one set of valid categories, and a command that reads as a calibration of its arm. */
  lemma AcceptedHolds(tools: Tools, pre: Preflight, traces: string -> Trace, k: nat)
    requires Accepted(tools, pre, traces) && k < 4
    ensures pre.complete && |pre.entries| == 4 && pre.categoriesValid
    ensures pre.matrix == [Slot(1, Baseline), Slot(1, Treatment), Slot(2, Treatment), Slot(2, Baseline)]
    ensures var entry, trace := pre.entries[k], traces(pre.entries[k].output);
      && entry.slot == Slot(if k < 2 then 1 else 2, if k == 0 || k == 3 then Baseline else Treatment)
      && trace.sound && trace.inner.Some? && trace.categories == Categories(true, pre.labels) == entry.categories
      && tools.Stamp(entry.outer, trace.inner.value) == Ok(entry.fingerprint)
      && pre.fingerprints(entry.slot.condition) == Some(entry.fingerprint)
      && "--temporal-review-v9-calibration" in entry.outer && "--temporal-review-v9-contract" !in entry.outer
      && CommandValue(entry.outer, "--model") == Ok("glm-5.3-flash")
      && CommandValue(entry.outer, "--condition") == Ok(entry.slot.condition.Name())
      && CommandValue(entry.outer, "--task-id") == Ok("v9-runtime-identity-calibration")
      && CommandValue(entry.outer, "--treatment-surface") == Ok(tools.surface)
  {
    hide CommandValue;
    assert Validated(tools, pre.entries[k], traces(pre.entries[k].output));
  }

  /** Where a calibration works: the frozen task, one source and one instruction for all, and an output of its own. */
  lemma CalibrationPlaces(directory: string, slot: Slot)
    ensures LocalOf(directory, slot) ==
      Local("v9-runtime-identity-calibration", directory + "/calibration-source",
            directory + "/calibration-instruction.md",
            directory + "/" + ("calibrations/rep-" + Decimal.Show02(slot.replicate) + "/"
              + (if slot.condition == Baseline then "baseline" else "treatment") + "/output"))
  {
  }

  /** What the pilot records of a cell: no fingerprint without an inner command, and none that another command has. */
  lemma OutcomeMeans(tools: Tools, binary: string, cell: Pilot.Cell, run: CellRun)
    ensures var outcome := OutcomeOf(tools, binary, cell, run);
      && (run.error.Some? ==> outcome == Pilot.Raised(run.error.value))
      && (run.error.None? && run.inner.None? ==>
            outcome == Pilot.Finished(run.packet, run.sourceClean, run.identityMatches, None))
      && (run.error.None? && run.inner.Some? ==>
            var stamp := tools.Stamp(CellCommand(tools, binary, cell, run.l), run.inner.value);
            if stamp.Ok? then outcome
                == Pilot.Finished(run.packet, run.sourceClean, run.identityMatches, Some(stamp.value))
            else outcome.Raised?)
  {
    hide CellCommand;
  }
}
