/** The commands of a calibration and of a pilot, and when their fingerprints agree. */
module Fingerprints {
  import opened Common
  import opened Surface
  import Pilot

  // ---------------------------------------------------------------- the commands of the calibration and of the pilot

  /** What differs from run to run and must not show in the fingerprint. */
  datatype Local = Local(task: string, source: string, instruction: string, output: string)

  /** What is left to choose: both producers refuse any model and any budget but the fixed ones. */
  datatype Setting = Setting(condition: Condition, binary: string)

  function Front(python: string, runner: string, surface: string, marker: string, l: Local,
      condition: Condition): (r: Command)
    ensures |r| == 18
  {
    [python, runner, "--condition", condition.Name(), "--task-id", l.task, "--source-dir", l.source,
     "--instruction-file", l.instruction, "--output-dir", l.output, "--use-mode", "voluntary",
     "--treatment-surface", surface, marker, "--model"]
  }

  function Tail(s: Setting): (r: Command)
    ensures |r| == 5
  {
    [Pilot.REQUESTED_MODEL, "--max-budget-usd", Pilot.FIXED_BUDGET, "--loomgraph-binary", s.binary]
  }

  /** The list `_calibration_outer_command` and `run_pilot` build; they differ in the marker. */
  function OuterCommand(python: string, runner: string, surface: string, marker: string, l: Local,
      s: Setting): Command {
    Front(python, runner, surface, marker, l, s.condition) + Tail(s)
  }

  /** An operand does not start with a dash: absolute paths, the frozen task ids and the surface name never do. */
  predicate Operand(word: string) {
    word != "" && word[0] != '-'
  }

  predicate Operands(python: string, runner: string, surface: string, l: Local) {
    Operand(python) && Operand(runner) && Operand(surface)
    && Operand(l.task) && Operand(l.source) && Operand(l.instruction) && Operand(l.output)
  }

  lemma OperandsArePlain(python: string, runner: string, surface: string, l: Local)
    requires Operands(python, runner, surface, l)
    ensures !Reserved(python) && !Reserved(runner) && !Reserved(surface) && Plain(l)
  {
    ReservedWords();
    hide FLAGS, MARKERS;
  }

  predicate Plain(l: Local) {
    !Reserved(l.task) && !Reserved(l.source) && !Reserved(l.instruction) && !Reserved(l.output)
  }

  /** The literal words of the list that are neither flags to normalise nor markers. */
  lemma OtherWords()
    ensures !Reserved("--condition") && !Reserved("--use-mode") && !Reserved("voluntary")
    ensures !Reserved("--treatment-surface") && !Reserved("--model") && !Reserved("--max-budget-usd")
    ensures !Reserved("--loomgraph-binary") && !Reserved(Baseline.Name()) && !Reserved(Treatment.Name())
    ensures !Reserved(Pilot.REQUESTED_MODEL) && !Reserved(Pilot.FIXED_BUDGET)
  {
    ReservedWords();
    assert |"--condition"| == 11 && |"--use-mode"| == 10 && "voluntary"[0] == 'v' && |"--treatment-surface"| == 19;
    assert |"--model"| == 7 && |"--max-budget-usd"| == 16 && |"--loomgraph-binary"| == 18
        && "--loomgraph-binary"[2] == 'l';
    assert Pilot.REQUESTED_MODEL[0] == 'g' && Pilot.FIXED_BUDGET[0] == '0';
    assert FLAGS[1][2] == 'i' && Baseline.Name()[0] == 'b' && Treatment.Name()[0] == 't';
  }

  /** The local values of every normalised command. */
  const HIDDEN: Local :=
    Local(Placeholder("--task-id"), Placeholder("--source-dir"), Placeholder("--instruction-file"),
        Placeholder("--output-dir"))

  lemma PlaceholderIsPlain(flag: string)
    ensures !Reserved(Placeholder(flag))
  {
    ReservedWords();
  }

  /** Replacing the value of the flag at an even place of the front. */
  lemma SetInFront(front: Command, tail: Command, k: nat, i: nat)
    requires k < |FLAGS| && i + 1 < |front| && front[i] == FLAGS[k] && forall j :: 0 <= j < i ==> front[j] != FLAGS[k]
    ensures SetAfter(front + tail, FLAGS[k]) == Ok(front[i + 1 := Placeholder(FLAGS[k])] + tail)
  {
    hide Placeholder, FLAGS;
    var command := front + tail;
    assert forall j :: 0 <= j < i ==> command[..i][j] == front[j];
    FirstIndexIs(command, FLAGS[k], i);
    assert command[i + 1 := Placeholder(FLAGS[k])] == front[i + 1 := Placeholder(FLAGS[k])] + tail;
  }

  /** The front holds each flag once, so its four run-local values are the ones replaced. */
  lemma FrontFlags(python: string, runner: string, surface: string, marker: string, l: Local, condition: Condition,
      tail: Command)
    requires !Reserved(python) && !Reserved(runner) && Plain(l)
    ensures SetFlags(Front(python, runner, surface, marker, l, condition) + tail, 4)
         == Ok(Front(python, runner, surface, marker, HIDDEN, condition) + tail)
  {
    ReservedWords();
    OtherWords();
    PlaceholderIsPlain("--source-dir");
    PlaceholderIsPlain("--instruction-file");
    PlaceholderIsPlain("--output-dir");
    var l1 := l.(source := Placeholder("--source-dir"));
    var l2 := l1.(instruction := Placeholder("--instruction-file"));
    var l3 := l2.(output := Placeholder("--output-dir"));
    SetSource(python, runner, surface, marker, l, condition, tail);
    SetInstruction(python, runner, surface, marker, l1, condition, tail);
    SetOutput(python, runner, surface, marker, l2, condition, tail);
    SetTask(python, runner, surface, marker, l3, condition, tail);
    hide Front, Placeholder, SetAfter, Reserved;
    FourFlags(Front(python, runner, surface, marker, l, condition) + tail);
    assert l3.(task := Placeholder("--task-id")) == HIDDEN;
  }

  lemma FourFlags(command: Command)
    requires SetAfter(command, FLAGS[0]).Ok?
    requires var c1 := SetAfter(command, FLAGS[0]).value; SetAfter(c1, FLAGS[1]).Ok?
    requires var c2 := SetAfter(SetAfter(command, FLAGS[0]).value, FLAGS[1]).value; SetAfter(c2, FLAGS[2]).Ok?
    ensures SetFlags(command, 4)
         == SetAfter(SetAfter(SetAfter(SetAfter(command, FLAGS[0]).value, FLAGS[1]).value, FLAGS[2]).value, FLAGS[3])
  {
    hide SetAfter;
    assert SetFlags(command, 0) == Ok(command);
    assert SetFlags(command, 1) == SetAfter(command, FLAGS[0]);
    assert SetFlags(command, 2) == SetAfter(SetFlags(command, 1).value, FLAGS[1]);
    assert SetFlags(command, 3) == SetAfter(SetFlags(command, 2).value, FLAGS[2]);
  }

  lemma SetSource(python: string, runner: string, surface: string, marker: string, l: Local, condition: Condition,
      tail: Command)
    requires !Reserved(python) && !Reserved(runner) && Plain(l)
    ensures SetAfter(Front(python, runner, surface, marker, l, condition) + tail, FLAGS[0])
         == Ok(Front(python, runner, surface, marker, l.(source := Placeholder("--source-dir")), condition) + tail)
  {
    ReservedWords();
    OtherWords();
    SetInFront(Front(python, runner, surface, marker, l, condition), tail, 0, 6);
    assert Front(python, runner, surface, marker, l, condition)[7 := Placeholder("--source-dir")]
        == Front(python, runner, surface, marker, l.(source := Placeholder("--source-dir")), condition);
  }

  lemma SetInstruction(python: string, runner: string, surface: string, marker: string, l: Local,
      condition: Condition, tail: Command)
    requires !Reserved(python) && !Reserved(runner) && Plain(l)
    ensures SetAfter(Front(python, runner, surface, marker, l, condition) + tail, FLAGS[1])
         == Ok(Front(python, runner, surface, marker, l.(instruction := Placeholder("--instruction-file")), condition)
             + tail)
  {
    ReservedWords();
    OtherWords();
    SetInFront(Front(python, runner, surface, marker, l, condition), tail, 1, 8);
    assert Front(python, runner, surface, marker, l, condition)[9 := Placeholder("--instruction-file")]
        == Front(python, runner, surface, marker, l.(instruction := Placeholder("--instruction-file")), condition);
  }

  lemma SetOutput(python: string, runner: string, surface: string, marker: string, l: Local, condition: Condition,
      tail: Command)
    requires !Reserved(python) && !Reserved(runner) && Plain(l)
    ensures SetAfter(Front(python, runner, surface, marker, l, condition) + tail, FLAGS[2])
         == Ok(Front(python, runner, surface, marker, l.(output := Placeholder("--output-dir")), condition) + tail)
  {
    ReservedWords();
    OtherWords();
    SetInFront(Front(python, runner, surface, marker, l, condition), tail, 2, 10);
    assert Front(python, runner, surface, marker, l, condition)[11 := Placeholder("--output-dir")]
        == Front(python, runner, surface, marker, l.(output := Placeholder("--output-dir")), condition);
  }

  lemma SetTask(python: string, runner: string, surface: string, marker: string, l: Local, condition: Condition,
      tail: Command)
    requires !Reserved(python) && !Reserved(runner) && Plain(l)
    ensures SetAfter(Front(python, runner, surface, marker, l, condition) + tail, FLAGS[3])
         == Ok(Front(python, runner, surface, marker, l.(task := Placeholder("--task-id")), condition) + tail)
  {
    ReservedWords();
    OtherWords();
    SetInFront(Front(python, runner, surface, marker, l, condition), tail, 3, 4);
    assert Front(python, runner, surface, marker, l, condition)[5 := Placeholder("--task-id")]
        == Front(python, runner, surface, marker, l.(task := Placeholder("--task-id")), condition);
  }

  lemma SetMarkerInConcat(front: Command, tail: Command, marker: string, i: nat)
    ensures marker !in front ==> SetMarker(front + tail, marker) == front + SetMarker(tail, marker)
    ensures i < |front| && front[i] == marker && marker !in front[..i]
      ==> SetMarker(front + tail, marker) == front[i := COMMON_MARKER] + tail
  {
    hide COMMON_MARKER;
    var command := front + tail;
    if marker !in front {
      var k := FirstIndex(tail, marker);
      if k.Some? {
        var at := |front| + k.value;
        assert command[..at] == front + tail[..k.value];
        FirstIndexIs(command, marker, at);
        assert command[at := COMMON_MARKER] == front + tail[k.value := COMMON_MARKER];
      } else {
        assert marker !in command;
      }
    }
    if i < |front| && front[i] == marker && marker !in front[..i] {
      assert command[..i] == front[..i];
      FirstIndexIs(command, marker, i);
      assert command[i := COMMON_MARKER] == front[i := COMMON_MARKER] + tail;
    }
  }

  /** The other of the two markers. */
  function OtherMarker(marker: string): string {
    if marker == CALIBRATION_MARKER then CONTRACT_MARKER else CALIBRATION_MARKER
  }

  lemma FrontMarker(python: string, runner: string, surface: string, marker: string, l: Local, condition: Condition)
    requires !Reserved(python) && !Reserved(runner) && !Reserved(surface) && Plain(l) && marker !in FLAGS
    ensures var front := Front(python, runner, surface, marker, l, condition);
            && (forall other :: other in MARKERS && other != marker ==> other !in front)
            && (marker in MARKERS ==> marker !in front[..16])
            && front[16 := COMMON_MARKER] == Front(python, runner, surface, COMMON_MARKER, l, condition)
  {
    ReservedWords();
    OtherWords();
    var front := Front(python, runner, surface, marker, l, condition);
    forall other, j | other in MARKERS && 0 <= j < 18 && j != 16 ensures front[j] != other {
    }
  }

  /** What the marker of the other producer turns into when it is the text of a binary. */
  function Shown(binary: string, marker: string): string {
    if binary == marker then COMMON_MARKER else binary
  }

  lemma TailMarker(s: Setting, marker: string)
    requires marker in MARKERS
    ensures SetMarker(Tail(s), marker) == Tail(s.(binary := Shown(s.binary, marker)))
  {
    OtherWords();
    ReservedWords();
    var tail := Tail(s);
    assert marker !in tail[..4] by {
      assert tail[..4] == [Pilot.REQUESTED_MODEL, "--max-budget-usd", Pilot.FIXED_BUDGET, "--loomgraph-binary"];
    }
    hide MARKERS, FLAGS;
    if s.binary == marker {
      FirstIndexIs(tail, marker, 4);
      assert tail[4 := COMMON_MARKER] == Tail(s.(binary := COMMON_MARKER));
    } else {
      assert tail == tail[..4] + [s.binary];
      assert marker !in tail;
    }
  }

  /** The normal form in full: the run-local values and the command's own marker are gone, and so is a binary that
      reads like the other marker. */
  lemma NormalOfCommand(python: string, runner: string, surface: string, marker: string, l: Local, s: Setting)
    requires Operands(python, runner, surface, l) && marker in MARKERS
    ensures NormalOuter(OuterCommand(python, runner, surface, marker, l, s)) ==
      Ok(OuterCommand(python, runner, surface, COMMON_MARKER, HIDDEN,
          s.(binary := Shown(s.binary, OtherMarker(marker)))))
  {
    ReservedWords();
    OperandsArePlain(python, runner, surface, l);
    PlaceholderIsPlain("--task-id");
    PlaceholderIsPlain("--source-dir");
    PlaceholderIsPlain("--instruction-file");
    PlaceholderIsPlain("--output-dir");
    FrontFlags(python, runner, surface, marker, l, s.condition, Tail(s));
    FrontMarker(python, runner, surface, marker, HIDDEN, s.condition);
    FrontMarker(python, runner, surface, COMMON_MARKER, HIDDEN, s.condition);
    var front, tail := Front(python, runner, surface, marker, HIDDEN, s.condition), Tail(s);
    var common := Front(python, runner, surface, COMMON_MARKER, HIDDEN, s.condition);
    TwoMarkers(front + tail);
    TailMarker(s, OtherMarker(marker));
    hide Front, Tail, SetMarker, SetMarkers, SetFlags, Reserved;
    if marker == CALIBRATION_MARKER {
      SetMarkerInConcat(front, tail, CALIBRATION_MARKER, 16);
      SetMarkerInConcat(common, tail, CONTRACT_MARKER, 16);
    } else {
      SetMarkerInConcat(front, tail, CALIBRATION_MARKER, 16);
      SetMarkerInConcat(front, SetMarker(tail, CALIBRATION_MARKER), CONTRACT_MARKER, 16);
    }
  }

  /** Two binaries the normal form cannot tell apart: one and the same, unless it reads like a marker; or each either
      the common marker or the marker of the other producer. */
  predicate SameBinary(pilot: string, calibration: string) {
    (pilot == calibration && pilot !in MARKERS)
    || (pilot in {CALIBRATION_MARKER, COMMON_MARKER} && calibration in {CONTRACT_MARKER, COMMON_MARKER})
  }

  lemma ShownAlikeIff(pilot: string, calibration: string)
    ensures Shown(pilot, CALIBRATION_MARKER) == Shown(calibration, CONTRACT_MARKER) <==> SameBinary(pilot, calibration)
  {
    ReservedWords();
    assert MARKERS == [CALIBRATION_MARKER, CONTRACT_MARKER];
    assert CALIBRATION_MARKER in MARKERS && CONTRACT_MARKER in MARKERS && COMMON_MARKER !in MARKERS;
    assert CALIBRATION_MARKER != CONTRACT_MARKER by { assert MARKERS[0] != MARKERS[1]; }
  }

  /** Exactly when a pilot command and a calibration command have one normal form, whatever their run-local values. */
  lemma NormalFormsAgreeIff(python: string, runner: string, surface: string, pilot: Local, p: Setting,
      calibration: Local, c: Setting)
    requires Operands(python, runner, surface, pilot) && Operands(python, runner, surface, calibration)
    ensures NormalOuter(OuterCommand(python, runner, surface, CONTRACT_MARKER, pilot, p))
         == NormalOuter(OuterCommand(python, runner, surface, CALIBRATION_MARKER, calibration, c))
       <==> p.condition == c.condition && SameBinary(p.binary, c.binary)
  {
    ReservedWords();
    NormalOfCommand(python, runner, surface, CONTRACT_MARKER, pilot, p);
    NormalOfCommand(python, runner, surface, CALIBRATION_MARKER, calibration, c);
    ShownAlikeIff(p.binary, c.binary);
    var x, y := Shown(p.binary, CALIBRATION_MARKER), Shown(c.binary, CONTRACT_MARKER);
    hide NormalOuter, Reserved, Operands, Shown, SameBinary, CALIBRATION_MARKER, CONTRACT_MARKER;
    SameCommand(python, runner, surface, p.(binary := x), c.(binary := y));
  }

  lemma SameCommand(python: string, runner: string, surface: string, p: Setting, c: Setting)
    ensures (OuterCommand(python, runner, surface, COMMON_MARKER, HIDDEN, p)
             == OuterCommand(python, runner, surface, COMMON_MARKER, HIDDEN, c)) <==> p == c
  {
    var a := OuterCommand(python, runner, surface, COMMON_MARKER, HIDDEN, p);
    var b := OuterCommand(python, runner, surface, COMMON_MARKER, HIDDEN, c);
    hide HIDDEN, COMMON_MARKER;
    assert a[3] == p.condition.Name() && b[3] == c.condition.Name() && a[22] == p.binary && b[22] == c.binary;
    assert p.condition.Name()[0] == c.condition.Name()[0] <==> p.condition == c.condition;
  }

  /** No operand is the text of a marker. The runner reads its binary as the operand of an option, so no run carries a
      binary that is. */
  lemma OperandIsNoMarker(word: string)
    requires Operand(word)
    ensures word !in MARKERS
  {
    ReservedWords();
  }

  /** Outside the marker texts binaries show alike exactly when they are equal. */
  lemma SameOutsideMarkers(pilot: string, calibration: string)
    requires pilot !in MARKERS && calibration !in MARKERS
    ensures SameBinary(pilot, calibration) <==> pilot == calibration
  {
    assert CALIBRATION_MARKER == MARKERS[0] && CONTRACT_MARKER == MARKERS[1];
    hide MARKERS, COMMON_MARKER;
  }

  /** The normal form pins the setting: for binaries a runner accepts the normal forms agree exactly when condition and
      binary do; model and budget are fixed in both commands. */
  lemma NormalFormPinsTheSetting(python: string, runner: string, surface: string, pilot: Local, p: Setting,
      calibration: Local, c: Setting)
    requires Operands(python, runner, surface, pilot) && Operands(python, runner, surface, calibration)
    requires Operand(p.binary) && Operand(c.binary)
    ensures NormalOuter(OuterCommand(python, runner, surface, CONTRACT_MARKER, pilot, p))
         == NormalOuter(OuterCommand(python, runner, surface, CALIBRATION_MARKER, calibration, c))
       <==> p == c
  {
    NormalFormsAgreeIff(python, runner, surface, pilot, p, calibration, c);
    OperandIsNoMarker(p.binary);
    OperandIsNoMarker(c.binary);
    SameOutsideMarkers(p.binary, c.binary);
    hide NormalOuter, OuterCommand, SameBinary, MARKERS, Operand;
  }

  // ---------------------------------------------------------------- the inner command and the fingerprint

  const TERMINAL_INSTRUCTION := "<TERMINAL_INSTRUCTION>"

  /** What parsing the MCP configuration, blanking its database path and printing it again comes to: new text, no
      change because it is not JSON, or an uncaught error because it is JSON but not an object. */
  datatype Rewrite = Rewritten(text: string) | Unreadable | Crash

  function SetInstructionWord(inner: Command): Result<Command, CommandError> {
    var i := FirstIndex(inner, "--");
    if i.None? then Ok(inner)
    else if i.value + 1 >= |inner| then Err(NoValue)
    else Ok(inner[i.value + 1 := TERMINAL_INSTRUCTION])
  }

  function SetConfig(config: string -> Rewrite, inner: Command): Result<Command, CommandError> {
    var k := FirstIndex(inner, "--mcp-config");
    if k.None? || k.value + 1 >= |inner| then Ok(inner)
    else
      match config(inner[k.value + 1])
      case Rewritten(text) => Ok(inner[k.value + 1 := text])
      case Unreadable => Ok(inner)
      case Crash => Err(ConfigCrash)
  }

  function NormalInner(config: string -> Rewrite, inner: Command): Result<Command, CommandError> {
    var named := SetInstructionWord(inner);
    if named.Err? then named else SetConfig(config, named.value)
  }

  /** `command_surface_fingerprint`, over any digest. */
  function Fingerprint<D>(digest: (Command, Command) -> D, config: string -> Rewrite, outer: Command,
      inner: Command): Result<D, CommandError> {
    var o, i := NormalOuter(outer), NormalInner(config, inner);
    if o.Err? then Err(o.error) else if i.Err? then Err(i.error) else Ok(digest(o.value, i.value))
  }

  /** The prompt after `--` never shows in the normal form, even when it is itself the text of an option. */
  lemma InstructionNeverShows(config: string -> Rewrite, before: Command, after: Command, one: string, two: string)
    requires "--" !in before
    ensures NormalInner(config, before + ["--", one] + after) == NormalInner(config, before + ["--", two] + after)
  {
    forall word: string
      ensures SetInstructionWord(before + ["--", word] + after) == Ok(before + ["--", TERMINAL_INSTRUCTION] + after)
    {
      var inner := before + ["--", word] + after;
      assert inner[..|before|] == before;
      FirstIndexIs(inner, "--", |before|);
      assert inner[|before| + 1 := TERMINAL_INSTRUCTION] == before + ["--", TERMINAL_INSTRUCTION] + after;
    }
  }

  ghost predicate CollisionFree<D(!new)>(digest: (Command, Command) -> D) {
    forall a, b, c, d :: digest(a, b) == digest(c, d) ==> a == c && b == d
  }

  /** With a digest that does not collide, a pilot cell carries its calibration's fingerprint exactly when condition and
      binary are the calibrated ones, as far as they show, and the inner commands have one normal form. */
  lemma FingerprintPinsTheSurface<D(!new)>(digest: (Command, Command) -> D, config: string -> Rewrite,
      python: string, runner: string, surface: string, pilot: Local, p: Setting, calibration: Local, c: Setting,
      pilotInner: Command, calibrationInner: Command)
    requires CollisionFree(digest)
    requires Operands(python, runner, surface, pilot) && Operands(python, runner, surface, calibration)
    requires NormalInner(config, pilotInner).Ok? && NormalInner(config, calibrationInner).Ok?
    ensures var f := Fingerprint(digest, config, OuterCommand(python, runner, surface, CONTRACT_MARKER, pilot, p),
        pilotInner);
            var g := Fingerprint(digest, config,
                OuterCommand(python, runner, surface, CALIBRATION_MARKER, calibration, c), calibrationInner);
            f == g <==> (p.condition == c.condition && SameBinary(p.binary, c.binary)
                         && NormalInner(config, pilotInner) == NormalInner(config, calibrationInner))
  {
    NormalFormsAgreeIff(python, runner, surface, pilot, p, calibration, c);
    assert MARKERS[0] in MARKERS && MARKERS[1] in MARKERS;
    assert MARKERS[0] == CALIBRATION_MARKER && MARKERS[1] == CONTRACT_MARKER;
    NormalOfCommand(python, runner, surface, CONTRACT_MARKER, pilot, p);
    NormalOfCommand(python, runner, surface, CALIBRATION_MARKER, calibration, c);
    hide NormalOuter, NormalInner, OuterCommand, Operands, SameBinary, Shown, HIDDEN, MARKERS;
  }

  /** The first configuration of an inner command is rewritten, kept where it is no JSON, or the error of the rewriting;
      an option without a value, or no option at all, changes nothing. */
  lemma ConfigIs(config: string -> Rewrite, before: Command, text: string, after: Command)
    requires "--mcp-config" !in before
    ensures SetConfig(config, before) == Ok(before)
        && SetConfig(config, before + ["--mcp-config"]) == Ok(before + ["--mcp-config"])
    ensures SetConfig(config, before + ["--mcp-config", text] + after) ==
        match config(text)
        case Rewritten(clean) => Ok(before + ["--mcp-config", clean] + after)
        case Unreadable => Ok(before + ["--mcp-config", text] + after)
        case Crash => Err(ConfigCrash)
  {
    var i, inner, last := |before|, before + ["--mcp-config", text] + after, before + ["--mcp-config"];
    assert inner[..i] == before && last[..i] == before;
    FirstIndexIs(inner, "--mcp-config", i);
    FirstIndexIs(last, "--mcp-config", i);
    if config(text).Rewritten? {
      assert inner[i + 1 := config(text).text] == before + ["--mcp-config", config(text).text] + after;
    }
    hide FirstIndex;
  }

  /** The word behind the first separator is the prompt; a separator without one is an error. */
  lemma PromptIs(before: Command, prompt: string, after: Command)
    requires "--" !in before
    ensures SetInstructionWord(before) == Ok(before) && SetInstructionWord(before + ["--"]) == Err(NoValue)
    ensures SetInstructionWord(before + ["--", prompt] + after) == Ok(before + ["--", "<TERMINAL_INSTRUCTION>"] + after)
  {
    var i, inner, last := |before|, before + ["--", prompt] + after, before + ["--"];
    assert inner[..i] == before && last[..i] == before;
    FirstIndexIs(inner, "--", i);
    FirstIndexIs(last, "--", i);
    assert inner[i + 1 := "<TERMINAL_INSTRUCTION>"] == before + ["--", "<TERMINAL_INSTRUCTION>"] + after;
  }

  /** The normal form of an inner command with one configuration and a prompt behind it. */
  lemma NormalInnerIs(config: string -> Rewrite, before: Command, text: string, middle: Command, prompt: string,
      after: Command)
    requires "--" !in before && "--mcp-config" !in before && "--" !in middle && text != "--"
    ensures NormalInner(config, before + ["--mcp-config", text] + middle + ["--", prompt] + after) ==
        match config(text)
        case Rewritten(clean) => Ok(before + ["--mcp-config", clean] + middle + ["--", "<TERMINAL_INSTRUCTION>"]
            + after)
        case Unreadable => Ok(before + ["--mcp-config", text] + middle + ["--", "<TERMINAL_INSTRUCTION>"] + after)
        case Crash => Err(ConfigCrash)
  {
    assert |"--"| == 2 && |"--mcp-config"| == 12;
    PromptIs(before + ["--mcp-config", text] + middle, prompt, after);
    var rest := middle + ["--", "<TERMINAL_INSTRUCTION>"] + after;
    forall word ensures before + ["--mcp-config", word] + rest ==
      before + ["--mcp-config", word] + middle + ["--", "<TERMINAL_INSTRUCTION>"] + after
    {
    }
    ConfigIs(config, before, text, rest);
    hide SetConfig, SetInstructionWord;
  }

  /** What both producers pass, word by word. */
  lemma CommandWords(python: string, runner: string, surface: string, marker: string, l: Local, s: Setting)
    ensures OuterCommand(python, runner, surface, marker, l, s) ==
      [python, runner, "--condition", if s.condition == Baseline then "baseline" else "treatment", "--task-id", l.task,
       "--source-dir", l.source, "--instruction-file", l.instruction, "--output-dir", l.output,
       "--use-mode", "voluntary", "--treatment-surface", surface, marker, "--model", "glm-5.3-flash",
       "--max-budget-usd", "0.50", "--loomgraph-binary", s.binary]
  {
  }

  /** What is hashed, word by word: the outer command with its places and marker hidden, then the inner command with its
      configuration rewritten and its prompt hidden. */
  lemma FingerprintIs<D>(digest: (Command, Command) -> D, config: string -> Rewrite, python: string, runner: string,
      surface: string, marker: string, l: Local, s: Setting, before: Command, text: string, middle: Command,
      prompt: string, after: Command)
    requires Operands(python, runner, surface, l) && Operand(s.binary)
    requires marker == "--temporal-review-v9-calibration" || marker == "--temporal-review-v9-contract"
    requires "--" !in before && "--mcp-config" !in before && "--" !in middle && text != "--" && config(text).Rewritten?
    ensures Fingerprint(digest, config, OuterCommand(python, runner, surface, marker, l, s),
        before + ["--mcp-config", text] + middle + ["--", prompt] + after) ==
      Ok(digest(
        [python, runner, "--condition", if s.condition == Baseline then "baseline" else "treatment",
         "--task-id", "<TASK-ID>", "--source-dir", "<SOURCE-DIR>", "--instruction-file", "<INSTRUCTION-FILE>",
         "--output-dir", "<OUTPUT-DIR>", "--use-mode", "voluntary", "--treatment-surface", surface,
         "--temporal-review-v9-marker", "--model", "glm-5.3-flash", "--max-budget-usd", "0.50",
         "--loomgraph-binary", s.binary],
        before + ["--mcp-config", config(text).text] + middle + ["--", "<TERMINAL_INSTRUCTION>"] + after))
  {
    assert marker in MARKERS by { assert MARKERS[0] in MARKERS && MARKERS[1] in MARKERS; }
    NormalOfCommand(python, runner, surface, marker, l, s);
    assert Shown(s.binary, OtherMarker(marker)) == s.binary;
    PlaceholderTexts();
    CommandWords(python, runner, surface, COMMON_MARKER, HIDDEN, s);
    NormalInnerIs(config, before, text, middle, prompt, after);
    hide NormalOuter, NormalInner, OuterCommand, Operands, Shown, MARKERS, Placeholder;
  }
}
