/** Command lists: reading and replacing one-value options, and the normal form of an outer command. */
module Surface {
  import opened Common

  type Command = seq<string>

  datatype CommandError = NoSuchFlag | NoValue | ConfigCrash

  /** `command.index(word)` */
  function FirstIndex(command: Command, word: string): (i: Option<nat>)
    ensures i.Some? ==> i.value < |command| && command[i.value] == word && word !in command[..i.value]
    ensures i.None? ==> word !in command
  {
    if command == [] then None
    else if command[0] == word then Some(0)
    else
      var rest := FirstIndex(command[1..], word);
      assert rest.Some? ==> command[..rest.value + 1] == [command[0]] + command[1..][..rest.value];
      assert command == [command[0]] + command[1..];
      if rest.None? then None else Some(rest.value + 1)
  }

  lemma {:induction false} FirstIndexIs(command: Command, word: string, i: nat)
    requires i < |command| && command[i] == word && word !in command[..i]
    ensures FirstIndex(command, word) == Some(i)
  {
    if i > 0 {
      assert command[..i][0] == command[0];
      assert command[..i] == [command[0]] + command[1..][..i - 1];
      FirstIndexIs(command[1..], word, i - 1);
    }
  }

  // ---------------------------------------------------------------- one-value options of the cohort driver

  /** `command_value` */
  function CommandValue(command: Command, flag: string): Result<string, CommandError> {
    var i := FirstIndex(command, flag);
    if i.None? || i.value + 1 >= |command| then Err(NoValue) else Ok(command[i.value + 1])
  }

  /** `_replace_command_value`: the errors are those of `index` and of the assignment. */
  function ReplaceCommandValue(command: Command, flag: string, value: string): Result<Command, CommandError> {
    var i := FirstIndex(command, flag);
    if i.None? then Err(NoSuchFlag)
    else if i.value + 1 >= |command| then Err(NoValue)
    else Ok(command[i.value + 1 := value])
  }

  /** A replaced value is read back, whatever it is; every other option reads as before unless the old or the new
      value is itself that option's flag. */
  lemma ReplacedValueReadsBack(command: Command, flag: string, value: string, other: string)
    requires ReplaceCommandValue(command, flag, value).Ok?
    ensures var updated := ReplaceCommandValue(command, flag, value).value;
            && CommandValue(updated, flag) == Ok(value)
            && (other != flag && other != value && CommandValue(command, flag) != Ok(other)
                ==> CommandValue(updated, other) == CommandValue(command, other))
  {
    var i := FirstIndex(command, flag).value;
    var updated := command[i + 1 := value];
    assert updated[..i] == command[..i];
    FirstIndexIs(updated, flag, i);
    if other != flag && other != value && command[i + 1] != other {
      var k := FirstIndex(command, other);
      if k.Some? {
        forall j | 0 <= j < k.value ensures updated[j] != other {
          assert command[j] == command[..k.value][j];
        }
        FirstIndexIs(updated, other, k.value);
      } else {
        assert other !in updated;
      }
    }
  }

  // ---------------------------------------------------------------- the normal form of an outer command

  const FLAGS: seq<string> := ["--source-dir", "--instruction-file", "--output-dir", "--task-id"]
  const CALIBRATION_MARKER := "--temporal-review-v9-calibration"
  const CONTRACT_MARKER := "--temporal-review-v9-contract"
  const COMMON_MARKER := "--temporal-review-v9-marker"
  const MARKERS: seq<string> := [CALIBRATION_MARKER, CONTRACT_MARKER]

  function Upper(s: string): (r: string)
    ensures |r| == |s|
  {
    seq(|s|, i requires 0 <= i < |s| => if 'a' <= s[i] <= 'z' then s[i] - ' ' else s[i])
  }

  /** `f"<{flag[2:].upper()}>"` */
  function Placeholder(flag: string): (r: string)
    ensures r != [] && r[0] == '<'
  {
    "<" + Upper(if |flag| < 2 then "" else flag[2..]) + ">"
  }

  predicate Reserved(word: string) {
    word in FLAGS || word in MARKERS
  }

  /** Every flag and every marker starts with a dash, and no two of them are the same word. */
  lemma ReservedWords()
    ensures forall k :: 0 <= k < |FLAGS| ==> FLAGS[k] != [] && FLAGS[k][0] == '-'
    ensures forall k :: 0 <= k < |MARKERS| ==> MARKERS[k] != [] && MARKERS[k][0] == '-'
    ensures COMMON_MARKER[0] == '-' && !Reserved(COMMON_MARKER)
    ensures forall k, m :: 0 <= k < |FLAGS| && 0 <= m < |MARKERS| ==> FLAGS[k] != MARKERS[m]
    ensures Distinct(FLAGS) && Distinct(MARKERS)
  {
    assert |FLAGS[0]| == 12 && |FLAGS[1]| == 18 && |FLAGS[2]| == 12 && |FLAGS[3]| == 9;
    assert FLAGS[0][2] == 's' && FLAGS[2][2] == 'o';
    assert |MARKERS[0]| == 32 && |MARKERS[1]| == 29 && |COMMON_MARKER| == 27;
  }

  function SetAfter(command: Command, flag: string): Result<Command, CommandError> {
    var i := FirstIndex(command, flag);
    if i.None? then Ok(command)
    else if i.value + 1 >= |command| then Err(NoValue)
    else Ok(command[i.value + 1 := Placeholder(flag)])
  }

  function SetFlags(command: Command, n: nat): Result<Command, CommandError>
    requires n <= |FLAGS|
  {
    if n == 0 then Ok(command)
    else
      var before := SetFlags(command, n - 1);
      if before.Err? then before else SetAfter(before.value, FLAGS[n - 1])
  }

  function SetMarker(command: Command, marker: string): (r: Command)
    ensures |r| == |command|
  {
    var i := FirstIndex(command, marker);
    if i.None? then command else command[i.value := COMMON_MARKER]
  }

  function SetMarkers(command: Command, n: nat): (r: Command)
    requires n <= |MARKERS|
    ensures |r| == |command|
  {
    if n == 0 then command else SetMarker(SetMarkers(command, n - 1), MARKERS[n - 1])
  }

  /** The outer command with its run-local values and its marker replaced. */
  function NormalOuter(command: Command): Result<Command, CommandError> {
    var flagged := SetFlags(command, |FLAGS|);
    if flagged.Err? then flagged else Ok(SetMarkers(flagged.value, |MARKERS|))
  }

  /** The outer half of `command_surface_fingerprint`, which overwrites entries of a copied list. */
  method NormalizeOuter(outer: Command) returns (normalized: Result<Command, CommandError>)
    ensures normalized == NormalOuter(outer)
  {
    var words := outer;
    for k := 0 to |FLAGS|
      invariant SetFlags(outer, k) == Ok(words)
    {
      var index := FirstIndex(words, FLAGS[k]);
      if index.Some? {
        if index.value + 1 >= |words| {
          FlagsStayErr(outer, k + 1);
          return Err(NoValue);
        }
        words := words[index.value + 1 := Placeholder(FLAGS[k])];
      }
    }
    ghost var flagged := words;
    for k := 0 to |MARKERS|
      invariant words == SetMarkers(flagged, k)
    {
      var index := FirstIndex(words, MARKERS[k]);
      if index.Some? {
        words := words[index.value := COMMON_MARKER];
      }
    }
    return Ok(words);
  }

  lemma {:induction false} FlagsStayErr(outer: Command, n: nat)
    requires n <= |FLAGS| && SetFlags(outer, n).Err?
    ensures SetFlags(outer, |FLAGS|) == SetFlags(outer, n)
    decreases |FLAGS| - n
  {
    if n < |FLAGS| { FlagsStayErr(outer, n + 1); }
  }

  // ---------------------------------------------------------------- which places the flags overwrite

  /** The first place, from `i` on and outside `out`, where a word stands. */
  function FirstOutside(command: Command, word: string, out: set<nat>, i: nat): (r: Option<nat>)
    requires i <= |command|
    ensures r.Some? ==> i <= r.value < |command| && command[r.value] == word && r.value !in out
    ensures r.Some? ==> forall j :: i <= j < r.value ==> command[j] != word || j in out
    ensures r.None? ==> forall j :: i <= j < |command| ==> command[j] != word || j in out
    decreases |command| - i
  {
    if i == |command| then None
    else if command[i] == word && i !in out then Some(i)
    else FirstOutside(command, word, out, i + 1)
  }

  /** The occurrence flag `k` acts on: its first one that no earlier flag has overwritten. */
  function Hit(command: Command, k: nat): Option<nat>
    requires k < |FLAGS|
    decreases k, 1
  {
    FirstOutside(command, FLAGS[k], Overwritten(command, k), 0)
  }

  /** The places the first `k` flags overwrite: each the one after its hit. */
  function Overwritten(command: Command, k: nat): set<nat>
    requires k <= |FLAGS|
    decreases k, 0
  {
    if k == 0 then {}
    else
      var hit := Hit(command, k - 1);
      Overwritten(command, k - 1) + if hit.Some? then {hit.value + 1} else {}
  }

  /** What the first `k` flags make of a command, place by place. */
  ghost predicate Stage(command: Command, words: Command, k: nat)
    requires k <= |FLAGS|
  {
    && |words| == |command|
    && (forall i: nat :: i < |words| && i !in Overwritten(command, k) ==> words[i] == command[i])
    && (forall i: nat :: i in Overwritten(command, k) ==> Covered(words, i))
    && (forall j: nat :: j < k ==> Acted(command, words, j))
  }

  predicate Covered(words: Command, i: nat) {
    i < |words| && words[i] != "" && words[i][0] == '<'
  }

  /** Flag `j` has put its placeholder behind its hit. */
  predicate Acted(command: Command, words: Command, j: nat)
    requires j < |FLAGS|
  {
    var h := Hit(command, j);
    h.Some? ==> h.value + 1 < |words| && words[h.value + 1] == Placeholder(FLAGS[j])
  }

  predicate Dashed(word: string) {
    word != "" && word[0] == '-'
  }

  /** Words that start with a dash stand exactly where they stood and were not overwritten. */
  lemma StageFinds(command: Command, words: Command, k: nat, word: string)
    requires k <= |FLAGS| && Stage(command, words, k) && Dashed(word)
    ensures FirstIndex(words, word) == FirstOutside(command, word, Overwritten(command, k), 0)
  {
    hide Overwritten, Hit, FLAGS;
    var i, r := FirstIndex(words, word), FirstOutside(command, word, Overwritten(command, k), 0);
    if r.Some? {
      forall j: nat | j < r.value ensures words[..r.value][j] != word {
        assert words[..r.value][j] == words[j];
      }
      FirstIndexIs(words, word, r.value);
    } else {
      forall j: nat | j < |words| ensures words[j] != word {
      }
    }
  }

  lemma OverwrittenGrows(command: Command, j: nat, k: nat)
    requires j <= k <= |FLAGS|
    ensures Overwritten(command, j) <= Overwritten(command, k)
    ensures j < k && Hit(command, j).Some? ==> Hit(command, j).value + 1 in Overwritten(command, k)
    decreases k - j
  {
    hide FLAGS;
    if j < k { OverwrittenGrows(command, j, k - 1); }
  }

  lemma {:induction false} FlagsStage(command: Command, k: nat)
    requires k <= |FLAGS| && SetFlags(command, k).Ok?
    ensures Stage(command, SetFlags(command, k).value, k)
  {
    ReservedWords();
    if k > 0 {
      var m := k - 1;
      FlagsStage(command, m);
      var words := SetFlags(command, m).value;
      assert Dashed(FLAGS[m]);
      StageFinds(command, words, m, FLAGS[m]);
      StageStep(command, words, m);
    }
  }

  lemma HitWord(command: Command, k: nat)
    requires k < |FLAGS| && Hit(command, k).Some?
    ensures Hit(command, k).value < |command| && command[Hit(command, k).value] == FLAGS[k]
    ensures Hit(command, k).value !in Overwritten(command, k)
  {
    hide Overwritten;
  }

  lemma HitsDiffer(command: Command, j: nat, k: nat)
    requires j < |FLAGS| && k < |FLAGS| && j != k && Hit(command, j).Some? && Hit(command, k).Some?
    ensures Hit(command, j) != Hit(command, k)
  {
    ReservedWords();
    HitWord(command, j);
    HitWord(command, k);
    assert FLAGS[j] != FLAGS[k];
    hide Hit, FLAGS;
  }

  lemma OverwrittenStep(command: Command, m: nat)
    requires m < |FLAGS|
    ensures Overwritten(command, m + 1) ==
            Overwritten(command, m) + if Hit(command, m).Some? then {Hit(command, m).value + 1} else {}
  {
  }

  lemma StageStep(command: Command, words: Command, m: nat)
    requires m < |FLAGS| && Stage(command, words, m) && FirstIndex(words, FLAGS[m]) == Hit(command, m)
    requires SetAfter(words, FLAGS[m]).Ok?
    ensures Stage(command, SetAfter(words, FLAGS[m]).value, m + 1)
  {
    OverwrittenStep(command, m);
    var updated := SetAfter(words, FLAGS[m]).value;
    var h := Hit(command, m);
    StageKeepsActed(command, words, m);
    assert updated == if h.Some? then words[h.value + 1 := Placeholder(FLAGS[m])] else words;
    hide Placeholder, FLAGS, Hit, Overwritten, SetAfter, FirstIndex, Acted;
    forall i: nat | i in Overwritten(command, m + 1) ensures Covered(updated, i) {
      if i in Overwritten(command, m) { assert Covered(words, i); }
    }
  }

  lemma StageKeepsActed(command: Command, words: Command, m: nat)
    requires m < |FLAGS| && FirstIndex(words, FLAGS[m]) == Hit(command, m) && SetAfter(words, FLAGS[m]).Ok?
    requires forall j: nat :: j < m ==> Acted(command, words, j)
    ensures forall j: nat :: j < m + 1 ==> Acted(command, SetAfter(words, FLAGS[m]).value, j)
  {
    var updated := SetAfter(words, FLAGS[m]).value;
    var h := Hit(command, m);
    assert updated == if h.Some? then words[h.value + 1 := Placeholder(FLAGS[m])] else words;
    hide Placeholder, FLAGS, Hit, SetAfter, FirstIndex;
    forall j: nat | j < m + 1 ensures Acted(command, updated, j) {
      if j < m {
        assert Acted(command, words, j);
        if h.Some? && Hit(command, j).Some? { HitsDiffer(command, j, m); }
      }
    }
  }

  // ---------------------------------------------------------------- normalising twice

  /** The first occurrence of `flag` is followed by its placeholder. */
  predicate Settled(command: Command, flag: string) {
    var i := FirstIndex(command, flag);
    i.Some? ==> i.value + 1 < |command| && command[i.value + 1] == Placeholder(flag)
  }

  lemma {:induction false} SetFlagsIdentity(command: Command, n: nat)
    requires n <= |FLAGS| && forall k :: 0 <= k < |FLAGS| ==> SetAfter(command, FLAGS[k]) == Ok(command)
    ensures SetFlags(command, n) == Ok(command)
  {
    if n > 0 { SetFlagsIdentity(command, n - 1); }
  }

  lemma {:induction false} SetMarkersIdentity(command: Command, n: nat)
    requires n <= |MARKERS| && forall k :: 0 <= k < n ==> MARKERS[k] !in command
    ensures SetMarkers(command, n) == command
  {
    if n > 0 { SetMarkersIdentity(command, n - 1); }
  }

  lemma TwoMarkers(command: Command)
    ensures SetMarkers(command, 2) == SetMarker(SetMarker(command, MARKERS[0]), MARKERS[1])
  {
    assert SetMarkers(command, 0) == command;
    assert SetMarkers(command, 1) == SetMarker(command, MARKERS[0]);
  }

  /** A list in which every flag is settled and no marker stands is its own normal form. */
  lemma SettledIsNormal(command: Command)
    requires forall k :: 0 <= k < |FLAGS| ==> Settled(command, FLAGS[k])
    requires forall k :: 0 <= k < |MARKERS| ==> MARKERS[k] !in command
    ensures NormalOuter(command) == Ok(command)
  {
    forall k | 0 <= k < |FLAGS| ensures SetAfter(command, FLAGS[k]) == Ok(command) {
      SettledIsUnchanged(command, FLAGS[k]);
    }
    SetFlagsIdentity(command, |FLAGS|);
    SetMarkersIdentity(command, |MARKERS|);
  }

  lemma SettledIsUnchanged(command: Command, flag: string)
    requires Settled(command, flag)
    ensures SetAfter(command, flag) == Ok(command)
  {
    hide Placeholder;
    var i := FirstIndex(command, flag);
    if i.Some? { assert command[i.value + 1 := Placeholder(flag)] == command; }
  }

  /** What the markers' stage does to one place: only a marker changes, and the first of each kind does. */
  lemma MarkersStage(words: Command, i: nat)
    requires i < |words|
    ensures SetMarkers(words, 2)[i] ==
      if FirstIndex(words, MARKERS[0]) == Some(i) || FirstIndex(words, MARKERS[1]) == Some(i) then COMMON_MARKER
          else words[i]
  {
    ReservedWords();
    TwoMarkers(words);
    assert MARKERS[0] != MARKERS[1] && COMMON_MARKER != MARKERS[1];
    var once := SetMarker(words, MARKERS[0]);
    hide SetMarkers, MARKERS, FLAGS, COMMON_MARKER, FirstIndex, SetMarker;
    forall p: nat | p < |words| ensures words[p] == MARKERS[1] <==> once[p] == MARKERS[1] {
      MarkerAt(words, MARKERS[0], p);
    }
    SameFirst(words, once, MARKERS[1]);
    MarkerAt(words, MARKERS[0], i);
    MarkerAt(once, MARKERS[1], i);
  }

  lemma MarkerAt(words: Command, marker: string, i: nat)
    requires i < |words|
    ensures SetMarker(words, marker)[i] == if FirstIndex(words, marker) == Some(i) then COMMON_MARKER else words[i]
    ensures FirstIndex(words, marker) == Some(i) ==> words[i] == marker
  {
    hide COMMON_MARKER;
  }

  /** Replacing one marker moves no occurrence of another word. */
  lemma SameFirst(words: Command, once: Command, word: string)
    requires |words| == |once| && forall i :: 0 <= i < |words| ==> (words[i] == word <==> once[i] == word)
    ensures FirstIndex(words, word) == FirstIndex(once, word)
  {
    var k := FirstIndex(words, word);
    if k.Some? {
      forall j | 0 <= j < k.value ensures once[..k.value][j] != word { assert words[..k.value][j] == words[j]; }
      FirstIndexIs(once, word, k.value);
    } else {
      assert forall j :: 0 <= j < |once| ==> once[j] != word;
    }
  }

  /** A list that is its own normal form holds no marker. */
  lemma FixedHasNoMarker(command: Command, m: nat)
    requires NormalOuter(command) == Ok(command) && m < 2
    ensures MARKERS[m] !in command
  {
    ReservedWords();
    FlagsStage(command, |FLAGS|);
    var words := SetFlags(command, |FLAGS|).value;
    hide FLAGS, MARKERS, SetFlags, SetMarkers, Overwritten, Hit, SetAfter;
    forall p: nat | p < |command| ensures command[p] != MARKERS[m] {
      MarkersStage(words, p);
      var f := FirstIndex(words, MARKERS[m]);
      if f.Some? { MarkersStage(words, f.value); }
    }
  }

  lemma HitIsFirst(command: Command, k: nat, i: nat)
    requires k < |FLAGS| && FirstIndex(command, FLAGS[k]) == Some(i) && i !in Overwritten(command, |FLAGS|)
    ensures Hit(command, k) == Some(i)
  {
    OverwrittenGrows(command, k, |FLAGS|);
    hide Overwritten, FLAGS;
    assert forall j: nat :: j < i ==> command[..i][j] == command[j];
  }

  /** And every flag of it is settled. */
  lemma FixedIsSettled(command: Command, k: nat)
    requires NormalOuter(command) == Ok(command) && k < |FLAGS|
    ensures Settled(command, FLAGS[k])
  {
    ReservedWords();
    FlagsStage(command, |FLAGS|);
    var words := SetFlags(command, |FLAGS|).value;
    assert FLAGS[k] != COMMON_MARKER && FLAGS[k][0] == '-' && Placeholder(FLAGS[k]) !in MARKERS;
    assert MARKERS[0] in MARKERS && MARKERS[1] in MARKERS;
    hide FLAGS, MARKERS, COMMON_MARKER, SetFlags, SetMarkers, SetAfter, Placeholder, Overwritten, Hit, FirstIndex;
    FirstIndexWord(command, FLAGS[k]);
    var i := FirstIndex(command, FLAGS[k]);
    if i.Some? {
      MarkersStage(words, i.value);
      assert i.value in Overwritten(command, |FLAGS|) ==> Covered(words, i.value);
      assert i.value !in Overwritten(command, |FLAGS|);
      HitIsFirst(command, k, i.value);
      AfterSurvivor(command, words, k, i.value);
      MarkersStage(words, i.value + 1);
      FirstIndexWord(words, MARKERS[0]);
      FirstIndexWord(words, MARKERS[1]);
    }
  }

  /** A command that normalising leaves as it is after one pass. Each marker stands at most once where no flag
      overwrites it; and for each flag the first occurrence that survives is the one the flag acted on, or is followed
      by the placeholder already. */
  ghost predicate Clean(command: Command) {
    && OnceVisible(command, 0) && OnceVisible(command, 1)
    && (forall k: nat :: k < |FLAGS| ==> CleanFlag(command, k))
  }

  predicate CleanFlag(command: Command, k: nat)
    requires k < |FLAGS|
  {
    var v := FirstOutside(command, FLAGS[k], Overwritten(command, |FLAGS|), 0);
    v.Some? ==> v == Hit(command, k) || (v.value + 1 < |command| && command[v.value + 1] == Placeholder(FLAGS[k]))
  }

  /** Normalising twice is normalising once exactly for clean commands. */
  lemma IdempotentIff(command: Command)
    requires NormalOuter(command).Ok?
    ensures NormalOuter(NormalOuter(command).value) == NormalOuter(command) <==> Clean(command)
  {
    var normal := NormalOuter(command).value;
    hide NormalOuter, CleanFlag, Settled, Overwritten;
    forall k: nat | k < |FLAGS| ensures Settled(normal, FLAGS[k]) <==> CleanFlag(command, k) {
      SettledIffClean(command, k);
    }
    forall m: nat | m < 2 ensures MARKERS[m] !in normal <==> OnceVisible(command, m) { GoneIffOnce(command, m); }
    if NormalOuter(normal) == Ok(normal) {
      forall k: nat | k < |FLAGS| ensures CleanFlag(command, k) { FixedIsSettled(normal, k); }
      forall m: nat | m < 2 ensures OnceVisible(command, m) { FixedHasNoMarker(normal, m); }
    }
    if Clean(command) {
      SettledIsNormal(normal);
    }
  }

  ghost predicate OnceVisible(command: Command, m: nat)
    requires m < 2
  {
    var out := Overwritten(command, |FLAGS|);
    forall a: nat, b: nat | a < |command| && b < |command| && a !in out && b !in out ::
      command[a] == MARKERS[m] && command[b] == MARKERS[m] ==> a == b
  }

  /** A marker is gone from the normal form exactly when it stood at most once at a place no flag overwrites. */
  lemma GoneIffOnce(command: Command, m: nat)
    requires NormalOuter(command).Ok? && m < 2
    ensures MARKERS[m] !in NormalOuter(command).value <==> OnceVisible(command, m)
  {
    ReservedWords();
    FlagsStage(command, |FLAGS|);
    var words := SetFlags(command, |FLAGS|).value;
    var normal := NormalOuter(command).value;
    StageFinds(command, words, |FLAGS|, MARKERS[m]);
    var f := FirstIndex(words, MARKERS[m]);
    hide FLAGS, MARKERS, SetFlags, SetMarkers, Overwritten, Hit, SetAfter, FirstIndex;
    forall p: nat | p < |words| ensures normal[p] == MARKERS[m] <==> words[p] == MARKERS[m] && f != Some(p) {
      MarkersStage(words, p);
      FirstIndexWord(words, MARKERS[0]);
      FirstIndexWord(words, MARKERS[1]);
    }
    if MARKERS[m] !in normal && f.Some? {
      forall a: nat | a < |command| && command[a] == MARKERS[m] && a !in Overwritten(command, |FLAGS|)
          ensures f == Some(a)
      {
        assert normal[a] != MARKERS[m];
      }
    }
    if OnceVisible(command, m) {
      forall p: nat | p < |words| ensures normal[p] != MARKERS[m] {
      }
    }
  }

  lemma FirstIndexWord(command: Command, word: string)
    ensures FirstIndex(command, word).Some? ==>
      FirstIndex(command, word).value < |command| && command[FirstIndex(command, word).value] == word
  {
  }

  /** A flag is settled in the normal form exactly when it is clean in the command. */
  lemma SettledIffClean(command: Command, k: nat)
    requires NormalOuter(command).Ok? && k < |FLAGS|
    ensures Settled(NormalOuter(command).value, FLAGS[k]) <==> CleanFlag(command, k)
  {
    ReservedWords();
    FlagsStage(command, |FLAGS|);
    var words := SetFlags(command, |FLAGS|).value;
    var normal := NormalOuter(command).value;
    StageFinds(command, words, |FLAGS|, FLAGS[k]);
    assert FLAGS[k] != COMMON_MARKER && FLAGS[k] !in MARKERS && MARKERS[0] in MARKERS && MARKERS[1] in MARKERS;
    assert Placeholder(FLAGS[k]) != COMMON_MARKER && Placeholder(FLAGS[k]) !in MARKERS;
    hide FLAGS, MARKERS, COMMON_MARKER, SetFlags, SetMarkers, Overwritten, Hit, SetAfter, Placeholder, FirstIndex;
    hide FirstOutside;
    FirstIndexWord(words, MARKERS[0]);
    FirstIndexWord(words, MARKERS[1]);
    forall p: nat | p < |words|
      ensures (normal[p] == FLAGS[k] <==> words[p] == FLAGS[k])
      ensures (normal[p] == Placeholder(FLAGS[k]) <==> words[p] == Placeholder(FLAGS[k]))
    {
      MarkersStage(words, p);
    }
    SameFirst(words, normal, FLAGS[k]);
    FirstIndexWord(words, FLAGS[k]);
    var v := FirstIndex(words, FLAGS[k]);
    if v.Some? { AfterSurvivor(command, words, k, v.value); }
  }

  /** Behind a surviving flag stands its own placeholder if it acted there, and the original word if it did not. */
  lemma AfterSurvivor(command: Command, words: Command, k: nat, v: nat)
    requires k < |FLAGS| && Stage(command, words, |FLAGS|) && v < |command| && command[v] == FLAGS[k]
    ensures Hit(command, k) == Some(v) ==> v + 1 < |words| && words[v + 1] == Placeholder(FLAGS[k])
    ensures Hit(command, k) != Some(v) && v + 1 < |words| ==> words[v + 1] == command[v + 1]
  {
    hide FLAGS, Overwritten, Placeholder, Hit;
    assert Acted(command, words, k);
    if Hit(command, k) != Some(v) { NotOverwritten(command, k, v); }
  }

  lemma NotOverwritten(command: Command, k: nat, v: nat)
    requires k < |FLAGS| && v < |command| && command[v] == FLAGS[k] && Hit(command, k) != Some(v)
    ensures v + 1 !in Overwritten(command, |FLAGS|)
  {
    hide FLAGS, Overwritten, Hit;
    HitsBefore(command, |FLAGS|, v + 1);
    forall j: nat | j < |FLAGS| ensures Hit(command, j) != Some(v) {
      if Hit(command, j).Some? {
        HitWord(command, j);
        DifferentFlags(j, k);
      }
    }
  }

  lemma DifferentFlags(j: nat, k: nat)
    requires j < |FLAGS| && k < |FLAGS|
    ensures FLAGS[j] == FLAGS[k] ==> j == k
  {
    ReservedWords();
    hide FLAGS;
  }

  lemma {:induction false} HitsBefore(command: Command, n: nat, p: nat)
    requires n <= |FLAGS| && p > 0
    ensures p in Overwritten(command, n) <==> exists j: nat :: j < n && Hit(command, j) == Some(p - 1)
  {
    if n == 0 {
      assert Overwritten(command, 0) == {};
    } else {
      var m := n - 1;
      hide FLAGS, Hit, Overwritten;
      OverwrittenStep(command, m);
      HitsBefore(command, m, p);
      if j: nat :| j < n && Hit(command, j) == Some(p - 1) { assert j < m || j == m; }
      if Hit(command, m).Some? && Hit(command, m).value + 1 == p { assert Hit(command, m) == Some(p - 1); }
    }
  }

  ghost predicate AtMostOnce(command: Command, word: string) {
    forall i, j :: 0 <= i < |command| && 0 <= j < |command| && command[i] == word && command[j] == word ==> i == j
  }

  lemma SingleIsClean(command: Command, k: nat)
    requires k < |FLAGS| && AtMostOnce(command, FLAGS[k])
    ensures CleanFlag(command, k)
  {
    OverwrittenGrows(command, k, |FLAGS|);
    hide FLAGS, Overwritten, FirstOutside;
    var v, h := FirstOutside(command, FLAGS[k], Overwritten(command, |FLAGS|), 0), Hit(command, k);
    if v.Some? {
      assert v.value !in Overwritten(command, k);
      assert h.Some?;
      assert command[h.value] == command[v.value] == FLAGS[k];
    }
  }

  /** Where no flag is repeated, only the markers decide: idempotent if and only if none stands twice at places that no
      flag overwrites. */
  lemma SingleFlagsIdempotentIff(command: Command)
    requires forall k :: 0 <= k < |FLAGS| ==> AtMostOnce(command, FLAGS[k])
    requires NormalOuter(command).Ok?
    ensures NormalOuter(NormalOuter(command).value) == NormalOuter(command) <==>
            (OnceVisible(command, 0) && OnceVisible(command, 1))
  {
    IdempotentIff(command);
    hide NormalOuter;
    forall k: nat | k < |FLAGS| ensures CleanFlag(command, k) {
      SingleIsClean(command, k);
    }
    hide CleanFlag, Overwritten, FLAGS, MARKERS;
  }

  /** In particular on commands in which no flag and no marker is repeated, even when a flag stands where the value of
      another is expected. */
  lemma NormalFormIsNormal(command: Command)
    requires forall word :: Reserved(word) ==> AtMostOnce(command, word)
    requires NormalOuter(command).Ok?
    ensures NormalOuter(NormalOuter(command).value) == NormalOuter(command)
  {
    hide NormalOuter, Overwritten;
    forall k | 0 <= k < |FLAGS| ensures AtMostOnce(command, FLAGS[k]) { assert Reserved(FLAGS[k]); }
    assert Reserved(MARKERS[0]) && Reserved(MARKERS[1]);
    SingleFlagsIdempotentIff(command);
  }

  /** A marker repeated in plain sight is replaced once only. */
  lemma RepeatedMarkerIsNotNormal()
    ensures NormalOuter([CONTRACT_MARKER, CONTRACT_MARKER]) == Ok([COMMON_MARKER, CONTRACT_MARKER])
    ensures NormalOuter([COMMON_MARKER, CONTRACT_MARKER]) == Ok([COMMON_MARKER, COMMON_MARKER])
  {
    ReservedWords();
    UnflaggedNormal([CONTRACT_MARKER, CONTRACT_MARKER]);
    UnflaggedNormal([COMMON_MARKER, CONTRACT_MARKER]);
    var both, second := [CONTRACT_MARKER, CONTRACT_MARKER], [COMMON_MARKER, CONTRACT_MARKER];
    FirstIndexIs(both, CONTRACT_MARKER, 0);
    assert both[0 := COMMON_MARKER] == second;
    assert second[..1] == [COMMON_MARKER];
    FirstIndexIs(second, CONTRACT_MARKER, 1);
    assert second[1 := COMMON_MARKER] == [COMMON_MARKER, COMMON_MARKER];
  }

  lemma UnflaggedNormal(command: Command)
    requires forall k :: 0 <= k < |FLAGS| ==> FLAGS[k] !in command
    requires CALIBRATION_MARKER !in command
    ensures NormalOuter(command) == Ok(SetMarker(command, CONTRACT_MARKER))
  {
    SetFlagsIdentity(command, |FLAGS|);
    SetMarkersIdentity(command, 1);
    TwoMarkers(command);
  }

  /** One that repeats as the value of a flag does no harm. */
  lemma HiddenRepeatIsClean()
    ensures Clean([FLAGS[0], CONTRACT_MARKER, CONTRACT_MARKER])
  {
    ReservedWords();
    var command := [FLAGS[0], CONTRACT_MARKER, CONTRACT_MARKER];
    assert Hit(command, 0) == Some(0) && Overwritten(command, 1) == {1};
    assert Hit(command, 1).None? && Overwritten(command, 2) == {1};
    assert Hit(command, 2).None? && Overwritten(command, 3) == {1};
    assert Hit(command, 3).None? && Overwritten(command, 4) == {1};
  }

  /** Standing behind a flag is not enough: a flag that is itself overwritten as a value overwrites nothing. */
  lemma OverwrittenFlagHidesNothing()
    ensures !Clean([FLAGS[0], FLAGS[2], CONTRACT_MARKER, CONTRACT_MARKER])
  {
    ReservedWords();
    var command := [FLAGS[0], FLAGS[2], CONTRACT_MARKER, CONTRACT_MARKER];
    assert MARKERS[1] == CONTRACT_MARKER;
    assert Hit(command, 0) == Some(0) && Overwritten(command, 1) == {1};
    assert Hit(command, 1).None? && Overwritten(command, 2) == {1};
    assert Hit(command, 2).None? && Overwritten(command, 3) == {1};
    assert Hit(command, 3).None? && Overwritten(command, 4) == {1};
    assert command[2] == command[3] == MARKERS[1];
    assert !OnceVisible(command, 1);
  }

  /** A flag that repeats behind one of its occurrences that another flag overwrites is not clean. */
  lemma RepeatedFlagIsNotClean(a: string, b: string)
    requires !Reserved(a) && !Reserved(b) && b != Placeholder(FLAGS[0])
    ensures !Clean([FLAGS[1], FLAGS[0], a, FLAGS[0], b])
  {
    ReservedWords();
    var command := [FLAGS[1], FLAGS[0], a, FLAGS[0], b];
    assert command[0] == FLAGS[1] && command[1] == FLAGS[0];
    assert a !in FLAGS && b !in FLAGS && FLAGS[0] in FLAGS && FLAGS[1] in FLAGS && FLAGS[2] in FLAGS
        && FLAGS[3] in FLAGS;
    assert FLAGS[0] != FLAGS[1] && FLAGS[1] != FLAGS[2] && FLAGS[2] != FLAGS[3];
    assert FLAGS[0] != FLAGS[2] && FLAGS[0] != FLAGS[3] && FLAGS[1] != FLAGS[3];
    hide FLAGS, Placeholder;
    assert Hit(command, 0) == Some(1) && Overwritten(command, 1) == {2};
    assert Hit(command, 1) == Some(0) && Overwritten(command, 2) == {1, 2};
    assert Hit(command, 2).None? && Overwritten(command, 3) == {1, 2};
    assert Hit(command, 3).None? && Overwritten(command, 4) == {1, 2};
    var v := FirstOutside(command, FLAGS[0], {1, 2}, 0);
    assert command[3] == FLAGS[0];
    assert v == Some(3);
    assert !CleanFlag(command, 0);
  }

  // ---------------------------------------------------------------- the words of the normaliser

  lemma UpperIs(s: string, t: string)
    requires |s| == |t| && forall i :: 0 <= i < |s| ==> t[i] == (if 'a' <= s[i] <= 'z' then s[i] - ' ' else s[i])
    ensures Upper(s) == t
  {
  }

  lemma PlaceholderIs(flag: string, word: string, upper: string)
    requires flag == "--" + word && |word| == |upper|
    requires forall i :: 0 <= i < |word| ==> upper[i] == (if 'a' <= word[i] <= 'z' then word[i] - ' ' else word[i])
    ensures Placeholder(flag) == "<" + upper + ">"
  {
    assert flag[2..] == word;
    UpperIs(word, upper);
  }

  /** What the four run-local values are replaced by. */
  lemma PlaceholderTexts()
    ensures Placeholder("--source-dir") == "<SOURCE-DIR>" && Placeholder("--instruction-file") == "<INSTRUCTION-FILE>"
    ensures Placeholder("--output-dir") == "<OUTPUT-DIR>" && Placeholder("--task-id") == "<TASK-ID>"
  {
    SourcePlaceholder();
    InstructionPlaceholder();
    OutputPlaceholder();
    TaskPlaceholder();
    hide Placeholder;
  }

  lemma SourcePlaceholder()
    ensures Placeholder("--source-dir") == "<SOURCE-DIR>"
  {
    hide Placeholder;
    PlaceholderIs("--source-dir", "source-dir", "SOURCE-DIR");
    assert "<" + "SOURCE-DIR" + ">" == "<SOURCE-DIR>";
  }

  lemma InstructionPlaceholder()
    ensures Placeholder("--instruction-file") == "<INSTRUCTION-FILE>"
  {
    hide Placeholder;
    PlaceholderIs("--instruction-file", "instruction-file", "INSTRUCTION-FILE");
    assert "<" + "INSTRUCTION-FILE" + ">" == "<INSTRUCTION-FILE>";
  }

  lemma OutputPlaceholder()
    ensures Placeholder("--output-dir") == "<OUTPUT-DIR>"
  {
    hide Placeholder;
    PlaceholderIs("--output-dir", "output-dir", "OUTPUT-DIR");
    assert "<" + "OUTPUT-DIR" + ">" == "<OUTPUT-DIR>";
  }

  lemma TaskPlaceholder()
    ensures Placeholder("--task-id") == "<TASK-ID>"
  {
    hide Placeholder;
    PlaceholderIs("--task-id", "task-id", "TASK-ID");
    assert "<" + "TASK-ID" + ">" == "<TASK-ID>";
  }

  /** Reading and replacing the first value of an option, and their errors: no flag, or a flag at the end. */
  lemma OptionIs(before: Command, flag: string, former: string, value: string, after: Command)
    requires flag !in before
    ensures CommandValue(before + [flag, former] + after, flag) == Ok(former)
    ensures ReplaceCommandValue(before + [flag, former] + after, flag, value) == Ok(before + [flag, value] + after)
    ensures CommandValue(before, flag) == Err(NoValue) && CommandValue(before + [flag], flag) == Err(NoValue)
    ensures ReplaceCommandValue(before, flag, value) == Err(NoSuchFlag)
    ensures ReplaceCommandValue(before + [flag], flag, value) == Err(NoValue)
  {
    var i, whole, last := |before|, before + [flag, former] + after, before + [flag];
    assert whole[..i] == before && last[..i] == before;
    FirstIndexIs(whole, flag, i);
    FirstIndexIs(last, flag, i);
    assert whole[i + 1 := value] == before + [flag, value] + after;
    hide FirstIndex;
  }
}
