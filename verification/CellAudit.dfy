/** The audit of one cell and of a whole pilot: what a valid record, a complete pair and an eligible report say about
    the retained answers and streams. */
module CellAudit {
  import opened Common
  import opened Grouping
  import opened Json
  import opened Surface
  import Calibration
  import Evaluator
  import Fingerprints
  import Gate
  import Pilot
  import RawResponse
  import Resolver
  import Sequences
  import Stream

  /** A frozen task: its contract and the locus its answers must name. */
  datatype Task = Task(item: RawResponse.Contract, required: Evaluator.Required)

  /** Model categories of one cell, from its packet or rebuilt from its stream. */
  datatype Categories = Categories(valid: bool, raw: Calibration.Labels, canonical: Calibration.Labels)

  datatype Model = Model(requested: string, categories: Categories)

  /** The model identity the preregistration froze. */
  datatype Identity = Identity(requested: string, canonical: Calibration.Labels, fingerprints: Pilot.ArmFingerprints)

  /** What the auditor works with besides the cell. */
  datatype Auditor = Auditor(
    decode: string -> Option<Json>, render: Json -> string, sha: string -> string, canonical: Json -> Option<string>,
    categories: seq<Json> -> Categories, tools: Calibration.Tools, identity: Identity)

  /** What a cell retains. `complete`, `contractValid`, `commandValid` and `warmReused` stand for conjunctions of
      checks on single fields: protocol, status and return codes; the driver's copy of the contract; the shape of the
      two commands; the warm repeat. */
  datatype Retained = Retained(
    events: seq<Json>, final: Json, toolCount: Json, toolNames: Json, observation: Option<Evaluator.Outcome>,
    certificate: Json, model: Option<Model>, driverMatches: bool, outer: Command, inner: Command,
    sourceClean: bool, head: map<string, seq<Resolver.Stmt>>,
    complete: bool, contractValid: bool, commandValid: bool, warmReused: bool)

  // ---------------------------------------------------------------- the record of one cell

  function EnvOf(aud: Auditor, e: Retained): Evaluator.Env {
    Evaluator.Env(e.head, aud.decode, aud.render)
  }

  function ReaderOf(aud: Auditor, task: Task): Stream.Reader {
    Stream.Reader(aud.decode, aud.sha, (response: Json) => RawResponse.ParseRaw(aud.decode, task.item, response))
  }

  function OrNull(value: Option<Json>): Json {
    if value.Some? then value.value else Null
  }

  /** The answer under audit: the payload of the retained final result. */
  function Answer(aud: Auditor, e: Retained): Json {
    OrNull(Stream.Payload(aud.decode, e.final))
  }

  function StreamAnswer(aud: Auditor, e: Retained): Json {
    var i := Stream.FinalIndex(aud.decode, e.events);
    if i.Some? then OrNull(Stream.Payload(aud.decode, e.events[i.value])) else Null
  }

  function CanonicalText(aud: Auditor, value: Json): Option<string> {
    if value.Obj? then aud.canonical(value) else None
  }

  predicate SameText(aud: Auditor, a: Json, b: Json) {
    CanonicalText(aud, a).Some? && CanonicalText(aud, a) == CanonicalText(aud, b)
  }

  function Response(selected: Option<Stream.Row>): Json {
    if selected.Some? then selected.value.response else Null
  }

  /** The replayed evaluation of the answer. */
  function Semantic(aud: Auditor, task: Task, c: Condition, e: Retained,
      selected: Option<Stream.Row>): Evaluator.Outcome
  {
    if !e.sourceClean then Evaluator.Outcome(false, [Evaluator.SourceUnusable])
    else
      var failures := Evaluator.FailuresOne(EnvOf(aud, e), task.item, task.required, Answer(aud, e), c.Name(),
          Response(selected), true);
      Evaluator.Outcome(failures == [], failures)
  }

  predicate IdentityValid(aud: Auditor, e: Retained) {
    var seen := aud.categories(e.events);
    && e.driverMatches && e.model.Some? && e.model.value.requested == aud.identity.requested
    && e.model.value.categories.valid && seen.valid
    && e.model.value.categories.raw == seen.raw && e.model.value.categories.canonical == seen.canonical
    && seen.canonical == aud.identity.canonical
  }

  predicate CategoriesMatch(aud: Auditor, e: Retained) {
    e.model.Some? && e.model.value.categories == aud.categories(e.events)
  }

  /** The fingerprint of a cell whose commands have the right shape; reading one may fail. */
  function CellFingerprint(aud: Auditor, e: Retained): Result<Option<string>, CommandError> {
    if !e.commandValid then Ok(None)
    else
      var stamp := aud.tools.Stamp(e.outer, e.inner);
      if stamp.Err? then Err(stamp.error) else Ok(Some(stamp.value))
  }

  predicate WarmValid(c: Condition, e: Retained, selected: Option<Stream.Row>) {
    c.Baseline? || (selected.Some? && e.warmReused)
  }

  /** The conjunction that makes a record valid. */
  predicate RecordValid(aud: Auditor, task: Task, c: Condition, e: Retained, st: Stream.State,
      fingerprint: Option<string>)
  {
    var final := Stream.FinalIndex(aud.decode, e.events);
    var selected := Stream.Selected(c, st.raw, final);
    && e.complete && e.sourceClean && IdentityValid(aud, e) && e.contractValid && e.commandValid
    && fingerprint == aud.identity.fingerprints(c)
    && Stream.RawTraceValid(c, st.raw, final)
    && Stream.ToolTraceValid(c, st.toolNames, e.toolCount, e.toolNames)
    && SameText(aud, Answer(aud, e), StreamAnswer(aud, e))
    && Semantic(aud, task, c, e, selected).passed && e.observation == Some(Semantic(aud, task, c, e, selected))
    && Stream.CertificateMatches(c, e.certificate, selected) && WarmValid(c, e, selected)
  }

  function StateOf(aud: Auditor, task: Task, e: Retained): Stream.State {
    Stream.Replay(ReaderOf(aud, task), e.events)
  }

  function SelectedOf(aud: Auditor, task: Task, c: Condition, e: Retained): Option<Stream.Row> {
    Stream.Selected(c, StateOf(aud, task, e).raw, Stream.FinalIndex(aud.decode, e.events))
  }

  /** The audited record. */
  function RecordOf(aud: Auditor, task: Task, cell: Pilot.Cell, e: Retained): Result<Gate.Row, CommandError> {
    var fingerprint, semantic :=
        CellFingerprint(aud, e), Semantic(aud, task, cell.condition, e, SelectedOf(aud, task, cell.condition, e));
    if fingerprint.Err? then Err(fingerprint.error)
    else
      Ok(Gate.Row(cell, RecordValid(aud, task, cell.condition, e, StateOf(aud, task, e), fingerprint.value),
                  semantic.failures, e.observation == Some(semantic),
                  SameText(aud, Answer(aud, e), StreamAnswer(aud, e)), IdentityValid(aud, e),
                  CategoriesMatch(aud, e)))
  }

  /** `_audit_cell`: fingerprint, replay of the stream, final answer, evaluation, verdict. */
  method AuditCell(aud: Auditor, task: Task, cell: Pilot.Cell, e: Retained) returns (r: Result<Gate.Row, CommandError>)
    requires Evaluator.WellNamed(EnvOf(aud, e))
    ensures r == RecordOf(aud, task, cell, e)
  {
    hide Stream.Replay, Stream.Selected, Stream.Payload, IdentityValid, CategoriesMatch, SameText;
    hide Evaluator.FailuresOne;
    hide Stream.RawTraceValid, Stream.ToolTraceValid, Stream.CertificateMatches, Evaluator.PassesOne;
    hide Evaluator.WellNamed;
    var c := cell.condition;
    var fingerprint := CellFingerprint(aud, e);
    if fingerprint.Err? {
      return Err(fingerprint.error);
    }
    var payload, final := Stream.StreamPayload(aud.decode, e.events);
    Stream.LastFinalUnique(aud.decode, e.events, final, Stream.FinalIndex(aud.decode, e.events));
    var raw, toolNames := Stream.RawBranchDiff(ReaderOf(aud, task), e.events);
    var selected := Stream.Selected(c, raw, final);
    var semantic: Evaluator.Outcome;
    if e.sourceClean {
      semantic := Evaluator.EvaluateOne(EnvOf(aud, e), task.item, task.required, Answer(aud, e), c.Name(),
          Response(selected), true);
      Evaluator.OnePassesIffNoFailure(EnvOf(aud, e), task.item, task.required, Answer(aud, e), c.Name(),
          Response(selected), true);
    } else {
      semantic := Evaluator.Outcome(false, [Evaluator.SourceUnusable]);
    }
    assert semantic == Semantic(aud, task, c, e, selected);
    var payloadMatches, semanticMatches :=
        SameText(aud, Answer(aud, e), OrNull(payload)), e.observation == Some(semantic);
    var identityValid := IdentityValid(aud, e);
    var valid :=
      e.complete && e.sourceClean && identityValid && e.contractValid && e.commandValid
      && fingerprint.value == aud.identity.fingerprints(c)
      && Stream.RawTraceValid(c, raw, final) && Stream.ToolTraceValid(c, toolNames, e.toolCount, e.toolNames)
      && payloadMatches && semantic.passed && semanticMatches
      && Stream.CertificateMatches(c, e.certificate, selected) && WarmValid(c, e, selected);
    return Ok(Gate.Row(cell, valid, semantic.failures, semanticMatches, payloadMatches, identityValid,
        CategoriesMatch(aud, e)));
  }

  // ---------------------------------------------------------------- what a valid record says

  /** Event `f` is the stream's last result with a payload, and that payload is the answer under audit. */
  ghost predicate FinalAt(aud: Auditor, e: Retained, f: nat) {
    f < |e.events| && Stream.LastFinal(aud.decode, e.events, Some(f))
    && SameText(aud, Answer(aud, e), OrNull(Stream.Payload(aud.decode, e.events[f])))
  }

  predicate Passes(aud: Auditor, task: Task, c: Condition, e: Retained, response: Json) {
    Evaluator.PassesOne(EnvOf(aud, e), task.item, task.required, Answer(aud, e), c.Name(), response)
  }

  /** Every response of the stream is valid and precedes the final result, which is the answer; the answer passes on the
      last response of the stream, and the certificate names that response. */
  ghost predicate TreatmentStands(aud: Auditor, task: Task, e: Retained) {
    var raw := StateOf(aud, task, e).raw;
    raw != [] && (exists f: nat :: FinalAt(aud, e, f) && Stream.AllEarlyAndValid(raw, f))
    && Passes(aud, task, Treatment, e, raw[|raw| - 1].response)
    && Stream.CertificateMatches(Treatment, e.certificate, Some(raw[|raw| - 1]))
  }

  /** The stream holds no response and its final result is the answer, which passes without one. */
  ghost predicate BaselineStands(aud: Auditor, task: Task, e: Retained) {
    StateOf(aud, task, e).raw == [] && (exists f: nat :: FinalAt(aud, e, f))
    && Passes(aud, task, Baseline, e, Null) && e.certificate == Null
  }

  ghost predicate Stands(aud: Auditor, task: Task, c: Condition, e: Retained) {
    if c.Treatment? then TreatmentStands(aud, task, e) else BaselineStands(aud, task, e)
  }

  /** The checks of a valid record that do not reach into stream and answer. */
  predicate Checked(aud: Auditor, task: Task, c: Condition, e: Retained) {
    var names := StateOf(aud, task, e).toolNames;
    && e.complete && e.sourceClean && IdentityValid(aud, e) && e.contractValid && e.commandValid
    && CellFingerprint(aud, e) == Ok(aud.identity.fingerprints(c))
    && e.observation == Some(Evaluator.Outcome(true, []))
    && Stream.ReportsTools(names, e.toolCount, e.toolNames) && Stream.OnlyOwnTools(c, names)
    && (c.Treatment? ==> e.warmReused)
  }

  lemma SemanticPasses(aud: Auditor, task: Task, c: Condition, e: Retained, selected: Option<Stream.Row>)
    requires e.sourceClean
    ensures Semantic(aud, task, c, e, selected).passed <==> Passes(aud, task, c, e, Response(selected))
    ensures Semantic(aud, task, c, e, selected).passed ==>
        Semantic(aud, task, c, e, selected) == Evaluator.Outcome(true, [])
  {
    hide Evaluator.PassesOne, Evaluator.FailuresOne, Response, Answer;
    Evaluator.OnePassesIffNoFailure(EnvOf(aud, e), task.item, task.required, Answer(aud, e), c.Name(),
        Response(selected), true);
  }

  lemma FinalAtIff(aud: Auditor, e: Retained, f: nat)
    ensures FinalAt(aud, e, f) <==>
            Stream.FinalIndex(aud.decode, e.events) == Some(f) && SameText(aud, Answer(aud, e), StreamAnswer(aud, e))
  {
    hide Stream.Payload, Stream.IsFinal, SameText, Answer;
    if FinalAt(aud, e, f) {
      Stream.LastFinalUnique(aud.decode, e.events, Some(f), Stream.FinalIndex(aud.decode, e.events));
    }
  }

  lemma SameTextNeedsFinal(aud: Auditor, e: Retained)
    requires SameText(aud, Answer(aud, e), StreamAnswer(aud, e))
    ensures Stream.FinalIndex(aud.decode, e.events).Some?
  {
  }

  /** An answer stands exactly when the trace is valid, the final result is the answer, the answer passes on the
      selected response and the certificate names that response. */
  lemma StandsIff(aud: Auditor, task: Task, c: Condition, e: Retained)
    ensures var raw, final, selected :=
        StateOf(aud, task, e).raw, Stream.FinalIndex(aud.decode, e.events), SelectedOf(aud, task, c, e);
      Stands(aud, task, c, e) <==>
        (Stream.RawTraceValid(c, raw, final) && SameText(aud, Answer(aud, e), StreamAnswer(aud, e))
         && Passes(aud, task, c, e, Response(selected)) && Stream.CertificateMatches(c, e.certificate, selected))
  {
    hide Stream.RawTraceValid, Stream.Replay, SameText, FinalAt, Answer, StreamAnswer, Passes, Stream.AllEarlyAndValid;
    hide EnvOf, ReaderOf, Stream.PreFinal, Stream.ValidPreFinal;
    var raw, final := StateOf(aud, task, e).raw, Stream.FinalIndex(aud.decode, e.events);
    Stream.RawTraceValidIff(raw, final);
    if SameText(aud, Answer(aud, e), StreamAnswer(aud, e)) { SameTextNeedsFinal(aud, e); }
    forall f: nat ensures FinalAt(aud, e, f) <==>
        final == Some(f) && SameText(aud, Answer(aud, e), StreamAnswer(aud, e))
    {
      FinalAtIff(aud, e, f);
    }
    if c.Treatment? && Stream.RawTraceValid(c, raw, final) { Stream.SelectedIsLastResponse(raw, final); }
  }

  /** A record is valid exactly when its checks hold and its answer stands: in a treatment the answer is the stream's
      final result and passes on the last response of the whole stream. */
  lemma ValidIffStands(aud: Auditor, task: Task, cell: Pilot.Cell, e: Retained)
    requires RecordOf(aud, task, cell, e).Ok?
    ensures RecordOf(aud, task, cell, e).value.valid <==>
            Checked(aud, task, cell.condition, e) && Stands(aud, task, cell.condition, e)
  {
    hide Stream.RawTraceValid, Stream.ToolTraceValid, Stream.Replay, SameText, IdentityValid, Semantic, Answer, Stands;
    hide StreamAnswer, Passes, Stream.ReportsTools, Stream.OnlyOwnTools, CellFingerprint, CategoriesMatch, EnvOf;
    hide ReaderOf;
    hide Stream.PreFinal, Stream.ValidPreFinal;
    var c, st := cell.condition, StateOf(aud, task, e);
    Stream.ToolTraceValidIff(c, st.toolNames, e.toolCount, e.toolNames);
    StandsIff(aud, task, c, e);
    if e.sourceClean { SemanticPasses(aud, task, c, e, SelectedOf(aud, task, c, e)); }
  }

  /** With a digest that does not collide a valid record's commands have, outside and inside, the normal forms of every
      calibration of its arm, under any accepted preflight whose fingerprints the preregistration holds. */
  lemma ValidRecordIsCalibrated(aud: Auditor, task: Task, cell: Pilot.Cell, e: Retained, pre: Calibration.Preflight,
      traces: string -> Calibration.Trace, k: nat)
    requires RecordOf(aud, task, cell, e).Ok? && RecordOf(aud, task, cell, e).value.valid
    requires Fingerprints.CollisionFree(aud.tools.digest) && Calibration.Accepted(aud.tools, pre, traces)
    requires pre.fingerprints(cell.condition) == aud.identity.fingerprints(cell.condition)
    requires k < |pre.entries| && pre.entries[k].slot.condition == cell.condition
    ensures var trace := traces(pre.entries[k].output);
            && NormalOuter(e.outer) == NormalOuter(pre.entries[k].outer)
            && trace.inner.Some?
            && Fingerprints.NormalInner(aud.tools.config, e.inner)
                == Fingerprints.NormalInner(aud.tools.config, trace.inner.value)
  {
    hide NormalOuter, Fingerprints.NormalInner, Stream.RawTraceValid, Stream.ToolTraceValid, SameText, IdentityValid;
    hide Semantic;
    hide Stream.Selected, Stream.Replay, Calibration.OuterValid, Stream.CertificateMatches, CategoriesMatch;
    assert Calibration.Validated(aud.tools, pre.entries[k], traces(pre.entries[k].output));
  }

  /** A valid record fails in none of the ways the gate counts. */
  lemma ValidRecordFailsNothing(aud: Auditor, task: Task, cell: Pilot.Cell, e: Retained)
    requires RecordOf(aud, task, cell, e).Ok? && RecordOf(aud, task, cell, e).value.valid
    ensures Faultless(RecordOf(aud, task, cell, e).value)
  {
    hide Semantic, SameText, StateOf, Stream.RawTraceValid, Stream.ToolTraceValid, Stream.CertificateMatches;
    hide Answer, StreamAnswer, CellFingerprint, Stream.Selected, Passes, WarmValid, Response;
    SemanticPasses(aud, task, cell.condition, e, SelectedOf(aud, task, cell.condition, e));
  }

  predicate Faultless(row: Gate.Row) {
    !Gate.AstFails(row) && !Gate.StructureFails(row) && !Gate.SemanticDiffers(row) && !Gate.PayloadDiffers(row)
    && !Gate.IdentityFails(row)
  }

  // ---------------------------------------------------------------- the whole audit

  /** A pilot's root: its matrix, the frozen tasks, and what every cell retains. */
  datatype Root = Root(tasks: seq<string>, replicates: seq<nat>, frozen: string -> Task,
      retained: Pilot.Cell -> Retained)

  function CellRecord(aud: Auditor, root: Root, cell: Pilot.Cell): Result<Gate.Row, CommandError> {
    RecordOf(aud, root.frozen(cell.task), cell, root.retained(cell))
  }

  /** One record for every expected cell, in order. */
  predicate Audited(aud: Auditor, root: Root, rows: seq<Gate.Row>) {
    var cells := Pilot.ExpectedCells(root.tasks, root.replicates);
    |rows| == |cells| && forall k :: 0 <= k < |rows| ==> CellRecord(aud, root, cells[k]) == Ok(rows[k])
  }

  ghost predicate FailsFirst(aud: Auditor, root: Root, k: nat, error: CommandError) {
    var cells := Pilot.ExpectedCells(root.tasks, root.replicates);
    k < |cells| && CellRecord(aud, root, cells[k]) == Err(error)
    && forall j :: 0 <= j < k ==> CellRecord(aud, root, cells[j]).Ok?
  }

  /** `audit_pilot` behind its structural checks: every cell in the expected order, then the gate. */
  method AuditPilot(aud: Auditor, root: Root) returns (r: Result<(seq<Gate.Row>, Gate.Report), CommandError>)
    requires Distinct(root.tasks) && Distinct(root.replicates)
    requires forall cell :: Evaluator.WellNamed(EnvOf(aud, root.retained(cell)))
    ensures r.Ok? ==> Audited(aud, root, r.value.0)
                      && r.value.1 == Gate.GateReport(r.value.0, root.tasks, root.replicates, true)
    ensures r.Err? ==> exists k: nat :: FailsFirst(aud, root, k, r.error)
  {
    hide RecordOf, Evaluator.WellNamed, Pilot.ExpectedCells, Gate.GateReport;
    var cells := Pilot.ExpectedCells(root.tasks, root.replicates);
    var rows: seq<Gate.Row> := [];
    for k := 0 to |cells|
      invariant |rows| == k && forall j :: 0 <= j < k ==> CellRecord(aud, root, cells[j]) == Ok(rows[j])
    {
      var row := AuditCell(aud, root.frozen(cells[k].task), cells[k], root.retained(cells[k]));
      if row.Err? {
        assert FailsFirst(aud, root, k, row.error);
        return Err(row.error);
      }
      rows := rows + [row.value];
    }
    var report := Gate.ExpansionGate(rows, root.tasks, root.replicates);
    return Ok((rows, report));
  }

  /** Both arms of a task and replicate are checked and stand. */
  ghost predicate PairStands(aud: Auditor, root: Root, task: string, r: nat) {
    ArmStands(aud, root, Pilot.Cell(task, r, Baseline)) && ArmStands(aud, root, Pilot.Cell(task, r, Treatment))
  }

  ghost predicate ArmStands(aud: Auditor, root: Root, cell: Pilot.Cell) {
    var task, e := root.frozen(cell.task), root.retained(cell);
    Checked(aud, task, cell.condition, e) && Stands(aud, task, cell.condition, e)
  }

  /** The record of an expected cell is in the list, and is the one the gate finds. */
  lemma RecordIsFound(aud: Auditor, root: Root, rows: seq<Gate.Row>, cell: Pilot.Cell)
    requires Distinct(root.tasks) && Distinct(root.replicates) && Audited(aud, root, rows)
    requires cell.task in root.tasks && cell.replicate in root.replicates
    ensures CellRecord(aud, root, cell).Ok? && CellRecord(aud, root, cell).value in rows
    ensures cell in Gate.ByCell(rows) && Gate.ByCell(rows)[cell] == CellRecord(aud, root, cell).value
  {
    hide Pilot.ExpectedCells, Pilot.ExecutionOrder, Gate.ByCell, RecordOf, CellRecord, Gate.Unpaired, Gate.UniqueCells;
    var cells := Pilot.ExpectedCells(root.tasks, root.replicates);
    CellsOfRows(aud, root, rows);
    Gate.AuditRowsAreComplete(rows, root.tasks, root.replicates);
    Pilot.OrderMember(root.tasks, root.replicates, cell);
    Pilot.OrderIsPermutation(root.tasks, root.replicates);
    PermutationMembers(Pilot.ExecutionOrder(root.tasks, root.replicates), cells);
    var k :| 0 <= k < |cells| && cells[k] == cell;
    assert rows[k] in rows && rows[k].cell == cell by { RecordCell(aud, root, cell); }
  }

  lemma RecordCell(aud: Auditor, root: Root, cell: Pilot.Cell)
    ensures CellRecord(aud, root, cell).Ok? ==> CellRecord(aud, root, cell).value.cell == cell
  {
  }

  lemma CellsOfRows(aud: Auditor, root: Root, rows: seq<Gate.Row>)
    requires Audited(aud, root, rows)
    ensures Sequences.Map(Gate.CellOf, rows) == Pilot.ExpectedCells(root.tasks, root.replicates)
  {
    hide CellRecord, Pilot.ExpectedCells;
    var cells := Pilot.ExpectedCells(root.tasks, root.replicates);
    forall k | 0 <= k < |rows| ensures Sequences.Map(Gate.CellOf, rows)[k] == cells[k] {
      Sequences.MapAt(Gate.CellOf, rows, k);
      RecordCell(aud, root, cells[k]);
    }
  }

  /** What the gate counts: its complete pairs are the pairs of which both arms are checked and stand. */
  lemma CompletePairsStand(aud: Auditor, root: Root, rows: seq<Gate.Row>, task: string, r: nat)
    requires Distinct(root.tasks) && Distinct(root.replicates) && Audited(aud, root, rows)
    requires task in root.tasks && r in root.replicates
    ensures Gate.BothValid(Gate.ByCell(rows), task, r) <==> PairStands(aud, root, task, r)
  {
    hide Gate.ByCell, Audited, RecordOf, Checked, Stands;
    forall c: Condition
      ensures var cell := Pilot.Cell(task, r, c);
        cell in Gate.ByCell(rows) && (Gate.ByCell(rows)[cell].valid <==> ArmStands(aud, root, cell))
    {
      var cell := Pilot.Cell(task, r, c);
      RecordIsFound(aud, root, rows, cell);
      ValidIffStands(aud, root.frozen(task), cell, root.retained(cell));
    }
    assert Gate.BothPresent(Gate.ByCell(rows), task, r);
    hide ArmStands;
  }

  ghost function StandingPairs(aud: Auditor, root: Root): set<(string, nat)> {
    set t, r | t in root.tasks && r in root.replicates && PairStands(aud, root, t, r) :: (t, r)
  }

  lemma PairCountIsStandingPairs(aud: Auditor, root: Root, rows: seq<Gate.Row>)
    requires Distinct(root.tasks) && Distinct(root.replicates) && Audited(aud, root, rows)
    ensures Gate.GateReport(rows, root.tasks, root.replicates, true).completeCount == |StandingPairs(aud, root)|
  {
    hide Gate.ByCell, Audited, Gate.BothValid, PairStands;
    forall t, r | t in root.tasks && r in root.replicates
      ensures Gate.BothValid(Gate.ByCell(rows), t, r) <==> PairStands(aud, root, t, r)
    {
      CompletePairsStand(aud, root, rows, t, r);
    }
    assert Gate.CompletePairs(Gate.ByCell(rows), root.tasks, root.replicates) == StandingPairs(aud, root);
  }

  /** Replay and record agree on a cell, and a clean cell's answer has the frozen fields and a locus that resolves. */
  predicate CellAgrees(aud: Auditor, root: Root, cell: Pilot.Cell) {
    var task, e := root.frozen(cell.task), root.retained(cell);
    var locus := Get(Answer(aud, e), "review_locus");
    && e.observation == Some(Semantic(aud, task, cell.condition, e, SelectedOf(aud, task, cell.condition, e)))
    && SameText(aud, Answer(aud, e), StreamAnswer(aud, e)) && IdentityValid(aud, e)
    && (e.sourceClean ==>
          Evaluator.HasExactly(Answer(aud, e), Evaluator.TOP_FIELDS)
              && Evaluator.HasExactly(locus, Evaluator.LOCUS_FIELDS)
          && Evaluator.HasIdentity(locus) && Evaluator.Resolves(EnvOf(aud, e), Evaluator.IdentityOf(locus)))
  }

  lemma FaultlessAgrees(aud: Auditor, root: Root, cell: Pilot.Cell)
    requires CellRecord(aud, root, cell).Ok? && Faultless(CellRecord(aud, root, cell).value)
    ensures CellAgrees(aud, root, cell)
  {
    var task, e := root.frozen(cell.task), root.retained(cell);
    var response := Response(SelectedOf(aud, task, cell.condition, e));
    Evaluator.CountedFailures(EnvOf(aud, e), task.item, task.required, Answer(aud, e), cell.condition.Name(), response,
        true);
    hide RecordValid, SelectedOf, StateOf, SameText, Answer, StreamAnswer, IdentityValid, CategoriesMatch;
    hide CellFingerprint;
    hide Evaluator.FailuresOne, Evaluator.Resolves, Evaluator.HasIdentity, Evaluator.HasExactly, EnvOf;
  }

  lemma EligibleIsFaultless(rows: seq<Gate.Row>, tasks: seq<string>, replicates: seq<nat>, row: Gate.Row)
    requires Gate.GateReport(rows, tasks, replicates, true).eligible && row in rows
    ensures Faultless(row)
  {
    FilterMembers(Gate.AstFails, rows);
    FilterMembers(Gate.StructureFails, rows);
    FilterMembers(Gate.SemanticDiffers, rows);
    FilterMembers(Gate.PayloadDiffers, rows);
    FilterMembers(Gate.IdentityFails, rows);
    hide Filter, Gate.AstFails, Gate.StructureFails, Gate.SemanticDiffers, Gate.PayloadDiffers, Gate.IdentityFails;
  }

  /** What an eligible report says about the retained files: at least three pairs stand, one or more of every task, and
      in every cell, counted or not, replay and record agree and a clean answer's locus resolves. */
  lemma EligibleMeans(aud: Auditor, root: Root, rows: seq<Gate.Row>)
    requires Distinct(root.tasks) && Distinct(root.replicates) && Audited(aud, root, rows)
    requires Gate.GateReport(rows, root.tasks, root.replicates, true).eligible
    ensures |StandingPairs(aud, root)| >= 3
    ensures forall t :: t in root.tasks ==> exists r :: r in root.replicates && PairStands(aud, root, t, r)
    ensures forall cell: Pilot.Cell :: cell.task in root.tasks && cell.replicate in root.replicates ==>
        CellAgrees(aud, root, cell)
  {
    PairCountIsStandingPairs(aud, root, rows);
    Gate.EligibleNeedsSixValidRows(rows, root.tasks, root.replicates, true);
    forall cell: Pilot.Cell | cell.task in root.tasks && cell.replicate in root.replicates
        ensures CellAgrees(aud, root, cell)
    {
      RecordIsFound(aud, root, rows, cell);
      EligibleIsFaultless(rows, root.tasks, root.replicates, CellRecord(aud, root, cell).value);
      FaultlessAgrees(aud, root, cell);
    }
    hide Gate.ByCell, Gate.BothValid, PairStands, Audited, CellAgrees, StandingPairs;
    forall t | t in root.tasks ensures exists r :: r in root.replicates && PairStands(aud, root, t, r) {
      var r :| r in root.replicates && Gate.BothValid(Gate.ByCell(rows), t, r);
      CompletePairsStand(aud, root, rows, t, r);
    }
  }

  /** A pilot of at least three pairs in which every arm of every pair stands is eligible. */
  lemma AllStandingIsEligible(aud: Auditor, root: Root, rows: seq<Gate.Row>)
    requires Distinct(root.tasks) && Distinct(root.replicates) && Audited(aud, root, rows)
    requires |root.tasks| * |root.replicates| >= 3
    requires forall t, r :: t in root.tasks && r in root.replicates ==> PairStands(aud, root, t, r)
    ensures Gate.GateReport(rows, root.tasks, root.replicates, true).eligible
  {
    hide Gate.ByCell, Gate.BothValid, PairStands, Audited, Filter, Faultless, Pilot.ExpectedCells, Gate.CompletePairs;
    forall t, r | t in root.tasks && r in root.replicates ensures Gate.BothValid(Gate.ByCell(rows), t, r) {
      CompletePairsStand(aud, root, rows, t, r);
    }
    forall row | row in rows ensures Faultless(row) { StandingIsFaultless(aud, root, rows, row); }
    Gate.FullMatrixCount(Gate.ByCell(rows), root.tasks, root.replicates);
    NoFailureCounts(rows);
    CellsOfRows(aud, root, rows);
    assert root.replicates != [];
    forall t | t in root.tasks ensures |Gate.TaskPairs(Gate.ByCell(rows), t, root.replicates)| >= 1 {
      assert root.replicates[0] in Gate.TaskPairs(Gate.ByCell(rows), t, root.replicates);
    }
    hide Gate.TaskPairs;
  }

  lemma StandingIsFaultless(aud: Auditor, root: Root, rows: seq<Gate.Row>, row: Gate.Row)
    requires Distinct(root.tasks) && Distinct(root.replicates) && Audited(aud, root, rows) && row in rows
    requires forall t, r :: t in root.tasks && r in root.replicates ==> PairStands(aud, root, t, r)
    ensures Faultless(row)
  {
    hide Pilot.ExpectedCells, Pilot.ExecutionOrder, RecordOf, Checked, Stands, Faultless;
    var cells := Pilot.ExpectedCells(root.tasks, root.replicates);
    var k :| 0 <= k < |rows| && rows[k] == row;
    var cell := cells[k];
    Pilot.OrderMember(root.tasks, root.replicates, cell);
    Pilot.OrderIsPermutation(root.tasks, root.replicates);
    PermutationMembers(Pilot.ExecutionOrder(root.tasks, root.replicates), cells);
    assert PairStands(aud, root, cell.task, cell.replicate);
    assert ArmStands(aud, root, cell) by {
      assert cell == Pilot.Cell(cell.task, cell.replicate, if cell.condition.Baseline? then Baseline else Treatment);
    }
    ValidIffStands(aud, root.frozen(cell.task), cell, root.retained(cell));
    ValidRecordFailsNothing(aud, root.frozen(cell.task), cell, root.retained(cell));
  }

  lemma NoFailureCounts(rows: seq<Gate.Row>)
    requires forall row :: row in rows ==> Faultless(row)
    ensures Filter(Gate.AstFails, rows) == [] && Filter(Gate.StructureFails, rows) == []
    ensures Filter(Gate.SemanticDiffers, rows) == [] && Filter(Gate.PayloadDiffers, rows) == []
    ensures Filter(Gate.IdentityFails, rows) == []
  {
    Sequences.FilterNone(Gate.AstFails, rows);
    Sequences.FilterNone(Gate.StructureFails, rows);
    Sequences.FilterNone(Gate.SemanticDiffers, rows);
    Sequences.FilterNone(Gate.PayloadDiffers, rows);
    Sequences.FilterNone(Gate.IdentityFails, rows);
  }

  // ---------------------------------------------------------------- the record read off the retained fields

  /** The verdicts a record carries besides its validity: identity against the preregistered model, categories against
      the rebuilt ones, the packet's observation against the replay, and the answer against the stream's final
      payload. */
  lemma RecordOnFields(aud: Auditor, task: Task, cell: Pilot.Cell, e: Retained)
    requires RecordOf(aud, task, cell, e).Ok?
    ensures var row, seen := RecordOf(aud, task, cell, e).value, aud.categories(e.events);
      && row.cell == cell
      && (row.identityValid <==>
            e.driverMatches && seen.valid && seen.canonical == aud.identity.canonical
            && e.model == Some(Model(aud.identity.requested, seen)))
      && (row.categoriesMatch <==> e.model.Some? && e.model.value.categories == seen)
      && (row.semanticMatches <==>
            e.observation == Some(Evaluator.Outcome(row.failures == [], row.failures)))
      && (!e.sourceClean ==> row.failures == [Evaluator.SourceUnusable])
      && (row.valid ==> e.commandValid && aud.tools.Stamp(e.outer, e.inner).Ok?)
      && (row.valid ==> aud.identity.fingerprints(cell.condition) == Some(aud.tools.Stamp(e.outer, e.inner).value))
      && (row.valid ==>
            row.identityValid && row.categoriesMatch && row.semanticMatches && row.payloadMatches && row.failures == [])
  {
    hide RecordValid, StateOf, SelectedOf, SameText, Answer, StreamAnswer, CellFingerprint, Evaluator.FailuresOne;
    if RecordOf(aud, task, cell, e).value.valid { RecordValidFlags(aud, task, cell, e); }
  }

  lemma RecordValidFlags(aud: Auditor, task: Task, cell: Pilot.Cell, e: Retained)
    requires RecordOf(aud, task, cell, e).Ok? && RecordOf(aud, task, cell, e).value.valid
    ensures var row := RecordOf(aud, task, cell, e).value;
            row.identityValid && row.semanticMatches && row.payloadMatches && row.failures == []
    ensures e.commandValid && aud.tools.Stamp(e.outer, e.inner).Ok?
    ensures aud.identity.fingerprints(cell.condition) == Some(aud.tools.Stamp(e.outer, e.inner).value)
  {
    hide SameText, Answer, StreamAnswer, Evaluator.FailuresOne, Stream.RawTraceValid;
    hide Stream.ToolTraceValid, Stream.CertificateMatches, Stream.Selected, Stream.Replay, IdentityValid;
    hide CategoriesMatch;
  }

  /** The answer is compared as canonical text of objects: the final result's payload against that of the stream's last
      result event with one. */
  lemma PayloadOnFields(aud: Auditor, task: Task, cell: Pilot.Cell, e: Retained)
    requires RecordOf(aud, task, cell, e).Ok?
    ensures RecordOf(aud, task, cell, e).value.payloadMatches <==>
      exists f: nat, mine, theirs, text ::
        f < |e.events| && Stream.LastFinal(aud.decode, e.events, Some(f))
        && Stream.Payload(aud.decode, e.final) == Some(mine) && Stream.Payload(aud.decode, e.events[f]) == Some(theirs)
        && aud.canonical(mine) == Some(text) && aud.canonical(theirs) == Some(text)
  {
    hide RecordValid, Semantic, IdentityValid, CategoriesMatch, CellFingerprint, StateOf, SelectedOf;
    hide Stream.IsFinal;
    forall event ensures Stream.Payload(aud.decode, event).Some? ==> Stream.Payload(aud.decode, event).value.Obj? {
    }
    hide Stream.Payload;
    var i := Stream.FinalIndex(aud.decode, e.events);
    if SameText(aud, Answer(aud, e), StreamAnswer(aud, e)) {
      var mine, theirs := Answer(aud, e), StreamAnswer(aud, e);
      assert Stream.Payload(aud.decode, e.final) == Some(mine)
          && Stream.Payload(aud.decode, e.events[i.value]) == Some(theirs);
      assert aud.canonical(mine) == Some(aud.canonical(mine).value);
    }
    if f: nat, mine, theirs, text :|
        f < |e.events| && Stream.LastFinal(aud.decode, e.events, Some(f))
        && Stream.Payload(aud.decode, e.final) == Some(mine) && Stream.Payload(aud.decode, e.events[f]) == Some(theirs)
        && aud.canonical(mine) == Some(text) && aud.canonical(theirs) == Some(text) {
      Stream.LastFinalUnique(aud.decode, e.events, Some(f), i);
    }
  }

  /** What stands, on the answer itself: in a treatment the answer is the object the frozen locus asks for, and the
      delta of the stream's last response names that locus. */
  lemma TreatmentAnswerIs(aud: Auditor, task: Task, e: Retained)
    requires TreatmentStands(aud, task, e)
    ensures var raw := StateOf(aud, task, e).raw;
      && raw != []
      && Evaluator.Resolves(EnvOf(aud, e), (task.required.path, task.required.qualname))
      && Evaluator.ResponseSupports(EnvOf(aud, e), task.item, [task.required], raw[|raw| - 1].response)
      && exists why, reason :: Evaluator.NotBlank(why) && Evaluator.NotBlank(reason)
           && Answer(aud, e) == Obj(map["decision" := Evaluator.DecisionOf(Treatment, why),
                "review_locus" := Evaluator.LocusOf(task.required.path, task.required.qualname, reason)])
  {
    hide Evaluator.PassesOne, Evaluator.ResponseSupports, Evaluator.Resolves, Evaluator.NotBlank, StateOf, Answer;
    hide Stream.CertificateMatches, FinalAt, EnvOf, Stream.AllEarlyAndValid, Evaluator.DecisionOf, Evaluator.LocusOf;
    var raw := StateOf(aud, task, e).raw;
    Evaluator.PassingAnswerIs(EnvOf(aud, e), task.item, task.required, Answer(aud, e), Treatment,
        raw[|raw| - 1].response);
  }

  /** A cell's audit fails exactly when its commands have the right shape and no normal form. */
  lemma AuditFailsIff(aud: Auditor, task: Task, cell: Pilot.Cell, e: Retained)
    ensures RecordOf(aud, task, cell, e).Err? <==> e.commandValid && aud.tools.Stamp(e.outer, e.inner).Err?
  {
    hide RecordValid, Semantic, IdentityValid, CategoriesMatch, StateOf, SelectedOf, SameText, Answer, StreamAnswer;
  }
}
