/** How the summariser identifies a run: from its record and packet, and, when neither names the replicate, from
    the text of its path. */
module Inference {
  import opened Common
  import opened Decimal

  // ---------------------------------------------------------------- the two path patterns

  predicate IsSep(c: char) {
    c == '-' || c == '_' || c == '/'
  }

  /** The end of the digits that start at `i`. */
  function DigitsEnd(s: string, i: nat): (j: nat)
    requires i <= |s|
    ensures i <= j <= |s| && IsDigits(s[i..j])
    ensures j < |s| ==> !IsDigit(s[j])
    decreases |s| - i
  {
    if i < |s| && IsDigit(s[i]) then DigitsEnd(s, i + 1) else i
  }

  /** `(\d+)(?:[-_/]|$)`: a shorter run of digits would be followed by a digit. */
  function NumberAt(s: string, i: nat): Option<nat> {
    if i > |s| then None
    else
      var j := DigitsEnd(s, i);
      if j > i && (j == |s| || IsSep(s[j])) then Some(Value(s[i..j])) else None
  }

  /** `(?:^|[-_/])` ends at `q`. */
  predicate Starts(s: string, q: nat) {
    q == 0 || (q <= |s| && IsSep(s[q - 1]))
  }

  /** `(?:^|[-_/])rep(?:licate)?[-_](\d+)(?:[-_/]|$)`, its word starting at `q`. */
  function RepAt(s: string, q: nat): Option<nat> {
    if !Starts(s, q) || !OccursAt(s, "rep", q) then None
    else
      var e := if OccursAt(s, "licate", q + 3) then q + 9 else q + 3;
      if e < |s| && (s[e] == '-' || s[e] == '_') then NumberAt(s, e + 1) else None
  }

  /** `(?:one|two)[-_/]` at `q`: where it ends. */
  function AfterEither(s: string, q: nat, one: string, two: string): Option<nat> {
    if OccursAt(s, one, q) && q + |one| < |s| && IsSep(s[q + |one|]) then Some(q + |one| + 1)
    else if OccursAt(s, two, q) && q + |two| < |s| && IsSep(s[q + |two|]) then Some(q + |two| + 1)
    else None
  }

  /** `(?:^|[-_/])(?:baseline|treatment)[-_/](?:voluntary|assisted)[-_/](\d+)(?:[-_/]|$)`, its word starting at `q`. */
  function ArmAt(s: string, q: nat): Option<nat> {
    var m := if Starts(s, q) then AfterEither(s, q, "baseline", "treatment") else None;
    var n := if m.Some? then AfterEither(s, m.value, "voluntary", "assisted") else None;
    if n.Some? then NumberAt(s, n.value) else None
  }

  /** The leftmost match from `q` to `n`. */
  function First(at: nat -> Option<nat>, q: nat, n: nat): Option<nat>
    decreases n + 1 - q
  {
    if q > n then None else if at(q).Some? then at(q) else First(at, q + 1, n)
  }

  function RepsIn(s: string): nat -> Option<nat> {
    (q: nat) => RepAt(s, q)
  }

  function ArmsIn(s: string): nat -> Option<nat> {
    (q: nat) => ArmAt(s, q)
  }

  /** The replicate a path names: by arm and mode first, by `rep-N` otherwise. */
  function PathReplicate(s: string): Option<nat> {
    var byArm := First(ArmsIn(s), 0, |s|);
    if byArm.Some? then byArm else First(RepsIn(s), 0, |s|)
  }

  // ---------------------------------------------------------------- record, packet and path together

  /** The text fields a record or a packet may hold. */
  datatype Fields = Fields(
    taskId: Option<string>, condition: Option<string>, useMode: Option<string>, replicate: Option<string>)

  const NO_FIELDS := Fields(None, None, None, None)

  predicate NamedIn(parts: seq<string>, target: string) {
    exists i :: 0 <= i < |parts| && Find(parts[i], target).Some?
  }

  /** The longest target that a part of the path holds, the earlier of equally long ones. */
  function LongestNamed(targets: seq<string>, parts: seq<string>): Option<string> {
    if targets == [] then None
    else
      var rest := LongestNamed(targets[1..], parts);
      if NamedIn(parts, targets[0]) && (rest.None? || |rest.value| <= |targets[0]|) then Some(targets[0]) else rest
  }

  /** `_infer_task_id`: the record's task, else the longest target of the manifest that the path holds. */
  function InferTask(record: Fields, targets: seq<string>, parts: seq<string>): Option<string> {
    if record.taskId.Some? && record.taskId.value != "" then record.taskId else LongestNamed(targets, parts)
  }

  /** The record's value if it has one, else the packet's. */
  function Either(record: Option<string>, packet: Option<string>): Option<string> {
    if record.Some? then record else packet
  }

  /** `(?:^|[-_/])word(?:[-_/]|$)`, its word starting at `q`. */
  predicate WordMatches(s: string, word: string, q: nat) {
    Starts(s, q) && OccursAt(s, word, q) && (q + |word| == |s| || IsSep(s[q + |word|]))
  }

  /** The leftmost match of either word from `q`. */
  function FirstWord(s: string, one: string, two: string, q: nat): (r: Option<string>)
    ensures r.Some? ==> r.value == one || r.value == two
    decreases |s| + 1 - q
  {
    if q > |s| then None
    else if WordMatches(s, one, q) then Some(one)
    else if WordMatches(s, two, q) then Some(two)
    else FirstWord(s, one, two, q + 1)
  }

  /** `_infer_condition`: a known condition of record or packet, else the first the path names. */
  function InferCondition(record: Fields, packet: Fields, path: string): Option<Condition> {
    var value := Either(record.condition, packet.condition);
    var known := if value == Some("baseline") || value == Some("treatment") then value
                 else FirstWord(path, "baseline", "treatment", 0);
    if known.None? then None else Some(if known.value == "baseline" then Baseline else Treatment)
  }

  /** `_infer_mode` */
  function InferMode(record: Fields, packet: Fields, path: string): Option<string> {
    var value := Either(record.useMode, packet.useMode);
    if value == Some("voluntary") || value == Some("assisted") then value
    else FirstWord(path, "voluntary", "assisted", 0)
  }

  /** `_infer_replicate`: a positive number in the record, else whatever the path says, zero included. */
  function InferReplicate(record: Fields, path: string): Option<nat> {
    var value := if record.replicate.Some? then ReadPositive(record.replicate.value) else None;
    if value.Some? then value else PathReplicate(path)
  }

  // ---------------------------------------------------------------- the path of a planned run

  /** What a planned run's path adds to its stratum directory. */
  function RunSuffix(replicate: nat, c: Condition): string {
    "/voluntary/rep-" + (Show02(replicate) + ("/" + (c.Name() + "/output")))
  }

  lemma {:induction false} FirstAgree(f: nat -> Option<nat>, g: nat -> Option<nat>, q: nat, n: nat)
    requires forall k: nat :: q <= k <= n ==> f(k) == g(k)
    ensures First(f, q, n) == First(g, q, n)
    decreases n + 1 - q
  {
    if q <= n { FirstAgree(f, g, q + 1, n); }
  }

  lemma {:induction false} FirstNone(f: nat -> Option<nat>, q: nat, n: nat)
    requires forall k: nat :: q <= k <= n ==> f(k).None?
    ensures First(f, q, n).None?
    decreases n + 1 - q
  {
    if q <= n { FirstNone(f, q + 1, n); }
  }

  lemma {:induction false} FirstSplit(f: nat -> Option<nat>, q: nat, k: nat, n: nat)
    requires q <= k + 1 && k <= n
    ensures First(f, q, n) == if First(f, q, k).Some? then First(f, q, k) else First(f, k + 1, n)
    decreases n + 1 - q
  {
    if q <= k && f(q).None? { FirstSplit(f, q + 1, k, n); }
  }

  /** A word does not stand over a character it does not hold. */
  lemma NotOver(s: string, word: string, q: nat, k: nat)
    requires q <= k < |s| && k < q + |word| && s[k] !in word
    ensures !OccursAt(s, word, q)
  {
    if q + |word| <= |s| { assert s[q..q + |word|][k - q] == s[k]; }
  }

  /** A word without a slash that starts no later than a slash ends before it. */
  lemma OccursBefore(p: string, s: string, word: string, q: nat)
    requires s != "" && s[0] == '/' && '/' !in word && q <= |p|
    ensures OccursAt(p + s, word, q) == OccursAt(p, word, q)
  {
    var whole := p + s;
    if q + |word| > |p| {
      NotOver(whole, word, q, |p|);
    } else {
      assert whole[q..q + |word|] == p[q..q + |word|];
    }
  }

  lemma {:induction false} DigitsBefore(p: string, s: string, i: nat)
    requires s != "" && s[0] == '/' && i <= |p|
    ensures DigitsEnd(p + s, i) == DigitsEnd(p, i)
    decreases |p| - i
  {
    if i < |p| && IsDigit(p[i]) { DigitsBefore(p, s, i + 1); }
  }

  lemma NumberBefore(p: string, s: string, i: nat)
    requires s != "" && s[0] == '/' && i <= |p|
    ensures NumberAt(p + s, i) == NumberAt(p, i)
  {
    DigitsBefore(p, s, i);
    var j := DigitsEnd(p, i);
    assert (p + s)[i..j] == p[i..j];
  }

  /** The second pattern never reaches over a slash. */
  lemma RepBefore(p: string, s: string, q: nat)
    requires s != "" && s[0] == '/' && q <= |p|
    ensures RepAt(p + s, q) == RepAt(p, q)
  {
    hide NumberAt, OccursAt;
    assert '/' !in "rep" && '/' !in "licate";
    OccursBefore(p, s, "rep", q);
    if RepStarts(p, q) {
      assert q + 3 <= |p| by { WordFits(p, "rep", q); }
      OccursBefore(p, s, "licate", q + 3);
      WordFits(p, "licate", q + 3);
      var e := if OccursAt(p, "licate", q + 3) then q + 9 else q + 3;
      assert e <= |p|;
      if e < |p| { NumberBefore(p, s, e + 1); }
    }
  }

  predicate RepStarts(p: string, q: nat) {
    Starts(p, q) && OccursAt(p, "rep", q)
  }

  lemma WordFits(p: string, word: string, q: nat)
    ensures OccursAt(p, word, q) ==> q + |word| <= |p|
  {
  }

  /** Before the suffix of a run the first pattern matches nothing new: the mode is followed by `rep`, not a number. */
  lemma ArmBefore(p: string, s: string, q: nat)
    requires |s| > 11 && s[0] == '/' && s[1] == 'v' && s[11] == 'r' && q <= |p|
    ensures ArmAt(p + s, q) == ArmAt(p, q)
  {
    hide NumberAt, OccursAt;
    var whole := p + s;
    assert '/' !in "baseline" && '/' !in "treatment" && '/' !in "voluntary" && '/' !in "assisted";
    EitherBefore(p, s, q, "baseline", "treatment");
    var m := AfterEither(whole, q, "baseline", "treatment");
    if m.Some? {
      if m.value <= |p| {
        EitherBefore(p, s, m.value, "voluntary", "assisted");
        var n := AfterEither(whole, m.value, "voluntary", "assisted");
        if n.Some? {
          if n.value <= |p| { NumberBefore(p, s, n.value); } else { NoNumber(whole, n.value); }
        }
      } else {
        var n := AfterEither(whole, m.value, "voluntary", "assisted");
        if n.Some? {
          NotHere(whole, "assisted", m.value);
          NoNumber(whole, n.value);
        }
      }
    }
  }

  lemma NoNumber(s: string, i: nat)
    requires i < |s| && !IsDigit(s[i])
    ensures NumberAt(s, i).None?
  {
  }

  lemma NotHere(s: string, word: string, q: nat)
    requires word != "" && q < |s| && s[q] != word[0]
    ensures !OccursAt(s, word, q)
  {
    if q + |word| <= |s| { assert s[q..q + |word|][0] == s[q]; }
  }

  lemma NotBoth(s: string, one: string, two: string, q: nat)
    requires one != "" && two != "" && one[0] != two[0]
    ensures !(OccursAt(s, one, q) && OccursAt(s, two, q))
  {
    if q < |s| {
      if s[q] != one[0] { NotHere(s, one, q); } else { NotHere(s, two, q); }
    }
  }

  lemma EitherBefore(p: string, s: string, q: nat, one: string, two: string)
    requires s != "" && s[0] == '/' && '/' !in one && '/' !in two && q <= |p|
    requires one != "" && two != "" && one[0] != two[0]
    ensures var m := AfterEither(p + s, q, one, two);
            && (m.Some? && m.value <= |p| ==> m == AfterEither(p, q, one, two))
            && (m.None? ==> AfterEither(p, q, one, two).None?)
            && (m.Some? && m.value > |p| ==> m.value == |p| + 1 && AfterEither(p, q, one, two).None?)
  {
    NotBoth(p, one, two, q);
    OccursBefore(p, s, one, q);
    OccursBefore(p, s, two, q);
    WordFits(p, one, q);
    WordFits(p, two, q);
    hide OccursAt;
  }

  // ---------------------------------------------------------------- the suffix itself

  const RUN_HEAD := "/voluntary/rep-"

  function ArmTail(c: Condition): string {
    "/" + (c.Name() + "/output")
  }

  lemma NamesAreWords(c: Condition)
    ensures forall i :: 0 <= i < |c.Name()| ==> !IsSep(c.Name()[i])
    ensures |c.Name()| >= 8 && c.Name() == if c.Baseline? then "baseline" else "treatment"
  {
  }

  /** Separators of the head stand at 0, 10 and 14. */
  lemma HeadChars()
    ensures |RUN_HEAD| == 15 && RUN_HEAD[1] == 'v' && RUN_HEAD[11] == 'r' && RUN_HEAD[14] == '-'
    ensures forall k :: 0 <= k < 15 ==> (IsSep(RUN_HEAD[k]) <==> k == 0 || k == 10 || k == 14)
    ensures RUN_HEAD[0] == '/' && RUN_HEAD[11..14] == "rep"
  {
    var h := RUN_HEAD;
    assert h[0] == '/' && h[10] == '/' && h[14] == '-' && h[11] == 'r' && h[12] == 'e' && h[13] == 'p';
  }

  lemma TailChars(c: Condition)
    ensures var b, n := ArmTail(c), |c.Name()|;
            && |b| == n + 8 && b[0] == '/' && b[1..n + 1] == c.Name() && b[n + 1] == '/' && b[n + 2] == 'o'
            && forall k :: 1 <= k < |b| && IsSep(b[k]) ==> k == n + 1
  {
    NamesAreWords(c);
    var b, n, out := ArmTail(c), |c.Name()|, "/output";
    hide IsSep;
    assert b[1..n + 1] == c.Name() && b[n + 1..] == out;
    assert forall k :: 1 <= k < n + 1 ==> b[k] == b[1..n + 1][k - 1];
    assert forall k :: n + 1 <= k < |b| ==> b[k] == out[k - n - 1];
    OutputLetters();
  }

  lemma OutputLetters()
    ensures forall k :: 1 <= k < 7 ==> !IsSep("/output"[k])
  {
    var w := "/output";
    assert w[1] == 'o' && w[2] == 'u' && w[3] == 't' && w[4] == 'p' && w[5] == 'u' && w[6] == 't';
  }

  /** In a suffix, only the arm starts with a letter an arm starts with. */
  lemma ArmTokens(digits: string, c: Condition, k: nat)
    requires IsDigits(digits) && digits != ""
    requires var t := RUN_HEAD + (digits + ArmTail(c)); 1 <= k < |t| && IsSep(t[k - 1]) && (t[k] == 'b' || t[k] == 't')
    ensures k == 16 + |digits|
  {
    HeadChars();
    TailChars(c);
    var b := ArmTail(c);
    hide RUN_HEAD, ArmTail;
    var t, m := RUN_HEAD + (digits + b), 15 + |digits|;
    assert forall i :: 0 <= i < 15 ==> t[i] == RUN_HEAD[i];
    assert forall i :: 15 <= i < m ==> t[i] == digits[i - 15];
    assert forall i :: m <= i < |t| ==> t[i] == b[i - m];
  }

  lemma SuffixParts(r: nat, c: Condition)
    ensures RunSuffix(r, c) == RUN_HEAD + (Show02(r) + ArmTail(c))
  {
  }

  /** The first pattern does not match inside the suffix: its arm is followed by `output`. */
  lemma ArmAfter(p: string, r: nat, c: Condition, q: nat)
    requires q > |p|
    ensures ArmAt(p + RunSuffix(r, c), q).None?
  {
    SuffixParts(r, c);
    var digits, b := Show02(r), ArmTail(c);
    var t := RUN_HEAD + (digits + b);
    var whole := p + t;
    HeadChars();
    TailChars(c);
    NamesAreWords(c);
    hide RUN_HEAD, ArmTail, Show02, NumberAt, RunSuffix;
    if q < |whole| && Starts(whole, q) && AfterEither(whole, q, "baseline", "treatment").Some? {
      var k := q - |p|;
      assert whole[q] == t[k] && whole[q - 1] == t[k - 1];
      if whole[q] != 'b' { NotHere(whole, "baseline", q); }
      if whole[q] != 't' { NotHere(whole, "treatment", q); }
      ArmTokens(digits, c, k);
      var at := |p| + 15 + |digits|;
      assert forall i :: 0 <= i < |b| ==> whole[at + i] == b[i];
      OwnName(whole, q, c);
      var m := q + |c.Name()| + 1;
      assert whole[m] == 'o';
      NotHere(whole, "voluntary", m);
      NotHere(whole, "assisted", m);
    }
  }

  /** Where an arm's name stands, no other arm's does. */
  lemma OwnName(s: string, q: nat, c: Condition)
    requires q + |c.Name()| < |s| && s[q..q + |c.Name()|] == c.Name()
    ensures AfterEither(s, q, "baseline", "treatment")
         == if IsSep(s[q + |c.Name()|]) then Some(q + |c.Name()| + 1) else None
  {
    NamesAreWords(c);
    assert s[q] == s[q..q + |c.Name()|][0];
    if c.Baseline? { NotHere(s, "treatment", q); } else { NotHere(s, "baseline", q); }
  }

  lemma {:induction false} DigitsOver(s: string, i: nat, j: nat)
    requires i <= j < |s| && (forall k :: i <= k < j ==> IsDigit(s[k])) && !IsDigit(s[j])
    ensures DigitsEnd(s, i) == j
    decreases j - i
  {
    if i < j { DigitsOver(s, i + 1, j); }
  }

  /** The second pattern reads the replicate of the run off its own directory, and nothing before it in the suffix. */
  lemma RepAfter(p: string, r: nat, c: Condition)
    ensures RepAt(p + RunSuffix(r, c), |p| + 11) == Some(r)
    ensures forall q :: |p| < q < |p| + 11 ==> RepAt(p + RunSuffix(r, c), q).None?
  {
    SuffixParts(r, c);
    HeadChars();
    TailChars(c);
    var digits, b := Show02(r), ArmTail(c);
    var t := RUN_HEAD + (digits + b);
    var whole := p + t;
    ValueOfLabel(r);
    hide RUN_HEAD, ArmTail, Show02, RunSuffix, Value;
    assert forall i :: 0 <= i < 15 ==> whole[|p| + i] == RUN_HEAD[i];
    var i := |p| + 15;
    var j := i + |digits|;
    assert whole[i..j] == digits;
    assert forall k :: i <= k < j ==> whole[k] == digits[k - i];
    assert whole[j] == b[0];
    DigitsOver(whole, i, j);
    assert NumberAt(whole, i) == Some(r);
    assert whole[|p| + 11..|p| + 14] == RUN_HEAD[11..14];
    NotHere(whole, "licate", |p| + 14);
    forall q | |p| < q < |p| + 11 ensures RepAt(whole, q).None? {
      var k := q - |p|;
      assert whole[q - 1] == RUN_HEAD[k - 1];
      if k == 1 { NotHere(whole, "rep", q); }
    }
  }

  lemma ValueOfLabel(r: nat)
    ensures Value(Show02(r)) == r
  {
    ValueOfShow(r);
    ValueIgnoresLeadingZero(Show(r));
  }

  /** What the path of a planned run says: a match in the part before the suffix wins, whatever the run; only if there
      is none does the run's own replicate show. */
  lemma PlannedPath(p: string, r: nat, c: Condition)
    ensures PathReplicate(p + RunSuffix(r, c)) == if PathReplicate(p).Some? then PathReplicate(p) else Some(r)
  {
    var s := RunSuffix(r, c);
    var whole := p + s;
    SuffixParts(r, c);
    HeadChars();
    hide RunSuffix, ArmAt, RepAt, RUN_HEAD, ArmTail, Show02;
    assert |s| > 15 && s[0] == '/' && s[1] == 'v' && s[11] == 'r';
    forall q: nat | q <= |p| ensures ArmsIn(whole)(q) == ArmsIn(p)(q) && RepsIn(whole)(q) == RepsIn(p)(q) {
      ArmBefore(p, s, q);
      RepBefore(p, s, q);
    }
    FirstAgree(ArmsIn(whole), ArmsIn(p), 0, |p|);
    FirstAgree(RepsIn(whole), RepsIn(p), 0, |p|);
    FirstSplit(ArmsIn(whole), 0, |p|, |whole|);
    FirstSplit(RepsIn(whole), 0, |p|, |whole|);
    forall q: nat | |p| < q <= |whole| ensures ArmsIn(whole)(q).None? { ArmAfter(p, r, c, q); }
    FirstNone(ArmsIn(whole), |p| + 1, |whole|);
    RepAfter(p, r, c);
    FirstSplit(RepsIn(whole), |p| + 1, |p| + 10, |whole|);
    FirstNone(RepsIn(whole), |p| + 1, |p| + 10);
  }

  // ---------------------------------------------------------------- the patterns read off the text

  predicate Mark(c: char) {
    c == '-' || c == '_' || c == '/'
  }

  /** Digits that are followed by a separator or by nothing, and the number they write. */
  predicate Numeral(digits: string, after: string, n: nat) {
    digits != "" && (forall c :: c in digits ==> '0' <= c <= '9') && IsDigits(digits) && Value(digits) == n
    && (after == "" || Mark(after[0]))
  }

  /** A word starts at `q`: at the start of the text or behind a separator. */
  predicate WordStart(s: string, q: nat) {
    q <= |s| && (q == 0 || Mark(s[q - 1]))
  }

  lemma {:induction false} DigitsEndIs(s: string, i: nat, j: nat)
    requires i <= j <= |s| && (forall k :: i <= k < j ==> IsDigit(s[k])) && (j == |s| || !IsDigit(s[j]))
    ensures DigitsEnd(s, i) == j
    decreases j - i
  {
    if i < j { DigitsEndIs(s, i + 1, j); }
  }

  lemma NumberIff(s: string, i: nat, n: nat)
    requires i <= |s|
    ensures NumberAt(s, i) == Some(n) <==> exists digits, after :: s[i..] == digits + after && Numeral(digits, after, n)
  {
    var j := DigitsEnd(s, i);
    if NumberAt(s, i) == Some(n) {
      assert s[i..] == s[i..j] + s[j..];
      assert Numeral(s[i..j], s[j..], n);
    }
    if digits, after :| s[i..] == digits + after && Numeral(digits, after, n) {
      var k := i + |digits|;
      assert s[i..k] == digits
          && s[k..] == after by { assert s[i..][..|digits|] == digits && s[i..][|digits|..] == after; }
      assert k < |s| ==> s[k] == after[0];
      assert forall m :: i <= m < k ==> s[m] == digits[m - i];
      DigitsEndIs(s, i, k);
    }
  }

  /** `rep` or `replicate`, a dash or an underscore, and a number. */
  predicate RepText(text: string, word: string, mark: char, digits: string, after: string, n: nat) {
    text == word + ([mark] + (digits + after)) && (word == "rep" || word == "replicate") && (mark == '-' || mark == '_')
    && Numeral(digits, after, n)
  }

  lemma WordAt(s: string, q: nat, word: string, rest: string)
    requires q <= |s| && s[q..] == word + rest
    ensures OccursAt(s, word, q) && q + |word| <= |s| && s[q + |word|..] == rest
  {
    assert s[q..][..|word|] == word && s[q..][|word|..] == rest;
    assert s[q..q + |word|] == word;
  }

  lemma WordOf(s: string, q: nat, word: string)
    requires OccursAt(s, word, q)
    ensures s[q..] == word + s[q + |word|..]
  {
    assert s[q..] == s[q..q + |word|] + s[q + |word|..];
  }

  lemma RepIff(s: string, q: nat, n: nat)
    requires q <= |s|
    ensures RepAt(s, q) == Some(n) <==>
      (WordStart(s, q) && exists word, mark, digits, after :: RepText(s[q..], word, mark, digits, after, n))
  {
    hide RepAt, RepText, WordStart;
    if RepAt(s, q) == Some(n) {
      var word, mark, digits, after := RepParts(s, q, n);
    }
    if word, mark, digits, after :| WordStart(s, q) && RepText(s[q..], word, mark, digits, after, n) {
      RepFound(s, q, n, word, mark, digits, after);
    }
  }

  lemma RepParts(s: string, q: nat, n: nat) returns (word: string, mark: char, digits: string, after: string)
    requires q <= |s| && RepAt(s, q) == Some(n)
    ensures WordStart(s, q) && RepText(s[q..], word, mark, digits, after, n)
  {
    hide NumberAt, OccursAt, Numeral;
    var long := OccursAt(s, "licate", q + 3);
    var e := if long then q + 9 else q + 3;
    word, mark := if long then "replicate" else "rep", s[e];
    RepWord(s, q, long);
    NumberIff(s, e + 1, n);
    digits, after :| s[e + 1..] == digits + after && Numeral(digits, after, n);
    assert s[e..] == [s[e]] + s[e + 1..];
  }

  /** The word of the pattern and what follows it. */
  lemma RepWord(s: string, q: nat, long: bool)
    requires OccursAt(s, "rep", q) && (long ==> OccursAt(s, "licate", q + 3))
    ensures s[q..] == if long then "replicate" + s[q + 9..] else "rep" + s[q + 3..]
  {
    WordOf(s, q, "rep");
    if long {
      WordOf(s, q + 3, "licate");
      assert "rep" + ("licate" + s[q + 9..]) == "replicate" + s[q + 9..];
    }
  }

  lemma RepFound(s: string, q: nat, n: nat, word: string, mark: char, digits: string, after: string)
    requires q <= |s| && WordStart(s, q) && RepText(s[q..], word, mark, digits, after, n)
    ensures RepAt(s, q) == Some(n)
  {
    hide NumberAt, OccursAt, Numeral;
    var e := q + |word|;
    var rest := digits + after;
    RepOccurs(s, q, word, mark, rest);
    Behind(s, q, word, mark, rest);
    FoundNumber(s, e + 1, digits, after, n);
    hide RepText;
  }

  lemma FoundNumber(s: string, i: nat, digits: string, after: string, n: nat)
    requires i <= |s| && s[i..] == digits + after && Numeral(digits, after, n)
    ensures NumberAt(s, i) == Some(n)
  {
    hide NumberAt, Numeral;
    NumberIff(s, i, n);
  }

  lemma RepOccurs(s: string, q: nat, word: string, mark: char, rest: string)
    requires q <= |s| && s[q..] == word + ([mark] + rest) && (word == "rep" || word == "replicate")
    requires mark == '-' || mark == '_'
    ensures OccursAt(s, "rep", q) && (OccursAt(s, "licate", q + 3) <==> word == "replicate")
    ensures q + |word| < |s| && s[q + |word|] == mark
  {
    WordAt(s, q, word, [mark] + rest);
    assert s[q + |word|] == s[q + |word|..][0];
    if word == "replicate" {
      assert "replicate" + ([mark] + rest) == "rep" + ("licate" + ([mark] + rest));
      WordAt(s, q, "rep", "licate" + ([mark] + rest));
      WordAt(s, q + 3, "licate", [mark] + rest);
    } else {
      NotHere(s, "licate", q + 3);
    }
  }

  /** An arm, a mode and a number, each behind a separator. */
  predicate ArmText(text: string, arm: string, x: char, mode: string, y: char, digits: string, after: string, n: nat) {
    text == arm + ([x] + (mode + ([y] + (digits + after))))
    && (arm == "baseline" || arm == "treatment") && Mark(x)
    && (mode == "voluntary" || mode == "assisted") && Mark(y) && Numeral(digits, after, n)
  }

  lemma EitherIff(s: string, q: nat, one: string, two: string, e: nat)
    requires one != "" && two != "" && one[0] != two[0] && q <= |s|
    ensures AfterEither(s, q, one, two) == Some(e) <==>
      (e <= |s| && exists word, x ::
        ((word == one || word == two) && Mark(x) && s[q..] == word + ([x] + s[e..]) && e == q + |word| + 1))
  {
    NotBoth(s, one, two, q);
    hide OccursAt;
    if AfterEither(s, q, one, two) == Some(e) {
      var word := if OccursAt(s, one, q) && q + |one| < |s| && IsSep(s[q + |one|]) then one else two;
      WordOf(s, q, word);
      assert s[q + |word|..] == [s[e - 1]] + s[e..];
    }
    if word, x :|
      ((word == one || word == two) && Mark(x) && e <= |s| && s[q..] == word + ([x] + s[e..]) && e == q + |word| + 1)
    {
      WordAt(s, q, word, [x] + s[e..]);
      assert s[q + |word|] == s[q + |word|..][0] == x;
    }
  }

  lemma ArmIff(s: string, q: nat, n: nat)
    requires q <= |s|
    ensures ArmAt(s, q) == Some(n) <==>
      (WordStart(s, q) && exists arm, x, mode, y, digits, after :: ArmText(s[q..], arm, x, mode, y, digits, after, n))
  {
    hide ArmAt, ArmText, WordStart;
    if ArmAt(s, q) == Some(n) {
      var arm, x, mode, y, digits, after := ArmParts(s, q, n);
    }
    if arm, x, mode, y, digits, after :| WordStart(s, q) && ArmText(s[q..], arm, x, mode, y, digits, after, n) {
      ArmFound(s, q, n, arm, x, mode, y, digits, after);
    }
  }

  lemma ArmParts(s: string, q: nat, n: nat)
    returns (arm: string, x: char, mode: string, y: char, digits: string, after: string)
    requires q <= |s| && ArmAt(s, q) == Some(n)
    ensures WordStart(s, q) && ArmText(s[q..], arm, x, mode, y, digits, after, n)
  {
    hide NumberAt, Numeral, AfterEither;
    var m := AfterEither(s, q, "baseline", "treatment").value;
    EitherIff(s, q, "baseline", "treatment", m);
    arm, x :| (arm == "baseline" || arm == "treatment") && Mark(x) && s[q..] == arm + ([x] + s[m..])
        && m == q + |arm| + 1;
    var k := AfterEither(s, m, "voluntary", "assisted").value;
    EitherIff(s, m, "voluntary", "assisted", k);
    mode, y :| (mode == "voluntary" || mode == "assisted") && Mark(y) && s[m..] == mode + ([y] + s[k..])
               && k == m + |mode| + 1;
    NumberIff(s, k, n);
    digits, after :| s[k..] == digits + after && Numeral(digits, after, n);
  }

  lemma ArmFound(s: string, q: nat, n: nat, arm: string, x: char, mode: string, y: char, digits: string, after: string)
    requires q <= |s| && WordStart(s, q) && ArmText(s[q..], arm, x, mode, y, digits, after, n)
    ensures ArmAt(s, q) == Some(n)
  {
    hide NumberAt, Numeral, AfterEither;
    var inner := mode + ([y] + (digits + after));
    var m := q + |arm| + 1;
    Behind(s, q, arm, x, inner);
    EitherIff(s, q, "baseline", "treatment", m);
    var k := m + |mode| + 1;
    Behind(s, m, mode, y, digits + after);
    EitherIff(s, m, "voluntary", "assisted", k);
    FoundNumber(s, k, digits, after, n);
    hide ArmText;
  }

  lemma Behind(s: string, q: nat, word: string, x: char, rest: string)
    requires q <= |s| && s[q..] == word + ([x] + rest)
    ensures q + |word| + 1 <= |s| && s[q + |word| + 1..] == rest
  {
    assert s[q..][|word| + 1..] == rest;
  }

  /** The first place from `q` on at which a pattern matches. */
  lemma {:induction false} FirstIs(at: nat -> Option<nat>, q: nat, last: nat, p: nat, n: nat)
    ensures q <= p <= last && at(p) == Some(n) && (forall k :: q <= k < p ==> at(k).None?) ==>
        First(at, q, last) == Some(n)
    decreases last + 1 - q
  {
    if q < p <= last { FirstIs(at, q + 1, last, p, n); }
  }

  lemma {:induction false} FirstPlace(at: nat -> Option<nat>, q: nat, last: nat) returns (p: nat)
    requires First(at, q, last).Some?
    ensures q <= p <= last && at(p) == First(at, q, last) && forall k :: q <= k < p ==> at(k).None?
    decreases last + 1 - q
  {
    if at(q).Some? { p := q; } else { p := FirstPlace(at, q + 1, last); }
  }

  /** Whether either pattern matches at `q` with number `n`, on the text from there on. */
  ghost predicate ArmHere(s: string, q: nat, n: nat) {
    WordStart(s, q) && exists arm, x, mode, y, digits, after :: ArmText(s[q..], arm, x, mode, y, digits, after, n)
  }

  ghost predicate RepHere(s: string, q: nat, n: nat) {
    WordStart(s, q) && exists word, mark, digits, after :: RepText(s[q..], word, mark, digits, after, n)
  }

  ghost predicate NoArm(s: string, last: nat) {
    forall k: nat, m: nat :: k < last ==> !ArmHere(s, k, m)
  }

  ghost predicate NoRep(s: string, last: nat) {
    forall k: nat, m: nat :: k < last ==> !RepHere(s, k, m)
  }

  lemma ArmHereIff(s: string, q: nat)
    ensures forall n: nat :: ArmHere(s, q, n) <==> q <= |s| && ArmAt(s, q) == Some(n)
    ensures forall n: nat :: RepHere(s, q, n) <==> q <= |s| && RepAt(s, q) == Some(n)
  {
    forall n: nat
      ensures ArmHere(s, q, n) <==> q <= |s| && ArmAt(s, q) == Some(n)
      ensures RepHere(s, q, n) <==> q <= |s| && RepAt(s, q) == Some(n)
    {
      if q <= |s| {
        ArmIff(s, q, n);
        RepIff(s, q, n);
      }
    }
  }

  lemma NothingHere(s: string, q: nat)
    requires q <= |s|
    ensures (forall n: nat :: !ArmHere(s, q, n)) ==> ArmAt(s, q).None?
    ensures (forall n: nat :: !RepHere(s, q, n)) ==> RepAt(s, q).None?
  {
    hide ArmHere, RepHere, ArmAt, RepAt;
    ArmHereIff(s, q);
    if ArmAt(s, q).Some? { assert ArmHere(s, q, ArmAt(s, q).value); }
    if RepAt(s, q).Some? { assert RepHere(s, q, RepAt(s, q).value); }
  }

  /** The number a path names: that of the first arm, mode and number in it, or, where there is none at all, that of the
      first `rep` or `replicate` with a number. */
  lemma PathReplicateIff(s: string, n: nat)
    ensures PathReplicate(s) == Some(n) <==>
      ((exists q: nat :: ArmHere(s, q, n) && NoArm(s, q))
       || (NoArm(s, |s| + 1) && exists q: nat :: RepHere(s, q, n) && NoRep(s, q)))
  {
    hide ArmAt, RepAt, ArmHere, RepHere, First;
    forall q: nat
      ensures forall m: nat :: ArmHere(s, q, m) <==> q <= |s| && ArmAt(s, q) == Some(m)
      ensures forall m: nat :: RepHere(s, q, m) <==> q <= |s| && RepAt(s, q) == Some(m)
    {
      ArmHereIff(s, q);
    }
    FirstArmIff(s, n);
    FirstRepIff(s, n);
    NoFirstArm(s);
  }

  lemma FirstArmIff(s: string, n: nat)
    ensures First(ArmsIn(s), 0, |s|) == Some(n) <==> exists q: nat :: ArmHere(s, q, n) && NoArm(s, q)
  {
    hide ArmAt, ArmHere, First;
    forall q: nat ensures forall m: nat :: ArmHere(s, q, m) <==> q <= |s| && ArmAt(s, q) == Some(m) {
      ArmHereIff(s, q);
    }
    if First(ArmsIn(s), 0, |s|) == Some(n) {
      var p := FirstPlace(ArmsIn(s), 0, |s|);
      assert ArmsIn(s)(p) == ArmAt(s, p) && ArmHere(s, p, n);
      forall k: nat, m: nat | k < p ensures !ArmHere(s, k, m) {
        ArmHereIff(s, k);
        assert ArmsIn(s)(k) == ArmAt(s, k);
      }
      ArmHereIff(s, p);
    }
    if q: nat :| ArmHere(s, q, n) && NoArm(s, q) {
      ArmHereIff(s, q);
      forall k: nat | k < q ensures ArmsIn(s)(k).None? {
        NothingHere(s, k);
      }
      FirstIs(ArmsIn(s), 0, |s|, q, n);
    }
  }

  lemma FirstRepIff(s: string, n: nat)
    ensures First(RepsIn(s), 0, |s|) == Some(n) <==> exists q: nat :: RepHere(s, q, n) && NoRep(s, q)
  {
    hide RepAt, RepHere, First;
    forall q: nat ensures forall m: nat :: RepHere(s, q, m) <==> q <= |s| && RepAt(s, q) == Some(m) {
      ArmHereIff(s, q);
    }
    if First(RepsIn(s), 0, |s|) == Some(n) {
      var p := FirstPlace(RepsIn(s), 0, |s|);
      assert RepsIn(s)(p) == RepAt(s, p) && RepHere(s, p, n);
      forall k: nat, m: nat | k < p ensures !RepHere(s, k, m) {
        ArmHereIff(s, k);
        assert RepsIn(s)(k) == RepAt(s, k);
      }
      ArmHereIff(s, p);
    }
    if q: nat :| RepHere(s, q, n) && NoRep(s, q) {
      ArmHereIff(s, q);
      forall k: nat | k < q ensures RepsIn(s)(k).None? {
        NothingHere(s, k);
      }
      FirstIs(RepsIn(s), 0, |s|, q, n);
    }
  }

  lemma NoFirstArm(s: string)
    ensures First(ArmsIn(s), 0, |s|).None? <==> NoArm(s, |s| + 1)
  {
    hide ArmAt, ArmHere, First;
    forall q: nat ensures forall m: nat :: ArmHere(s, q, m) <==> q <= |s| && ArmAt(s, q) == Some(m) {
      ArmHereIff(s, q);
    }
    if First(ArmsIn(s), 0, |s|).Some? {
      var p := FirstPlace(ArmsIn(s), 0, |s|);
      assert ArmHere(s, p, ArmAt(s, p).value);
    } else {
      forall k: nat, m: nat | k < |s| + 1 ensures !ArmHere(s, k, m) {
        if ArmAt(s, k).Some? { FirstSome(ArmsIn(s), 0, |s|, k); }
      }
    }
  }

  lemma {:induction false} FirstSome(at: nat -> Option<nat>, q: nat, last: nat, k: nat)
    requires q <= k <= last && at(k).Some?
    ensures First(at, q, last).Some?
    decreases last + 1 - q
  {
    if at(q).None? { FirstSome(at, q + 1, last, k); }
  }

  // ---------------------------------------------------------------- inference read off the fields

  /** `word` stands at `q`, between separators or the ends of the text. */
  predicate WordHere(s: string, word: string, q: nat) {
    q + |word| <= |s| && s[q..q + |word|] == word
    && (q == 0 || s[q - 1] == '-' || s[q - 1] == '_' || s[q - 1] == '/')
    && (q + |word| == |s| || s[q + |word|] == '-' || s[q + |word|] == '_' || s[q + |word|] == '/')
  }

  ghost predicate NoWord(s: string, one: string, two: string, n: nat) {
    forall q: nat :: q < n ==> !WordHere(s, one, q) && !WordHere(s, two, q)
  }

  /** `word` is the first of the two words that `s` names. */
  ghost predicate NamesFirst(s: string, word: string, one: string, two: string) {
    exists q: nat :: WordHere(s, word, q) && NoWord(s, one, two, q)
  }

  lemma {:induction false} FirstWordIff(s: string, one: string, two: string, word: string, q: nat)
    requires word == one || word == two
    requires one != "" && two != "" && one[0] != two[0] && NoWord(s, one, two, q)
    ensures FirstWord(s, one, two, q) == Some(word) <==> NamesFirst(s, word, one, two)
    decreases |s| + 1 - q
  {
    forall w: string, p: nat ensures WordMatches(s, w, p) <==> WordHere(s, w, p) {
    }
    hide WordMatches;
    if q <= |s| {
      if WordHere(s, one, q) || WordHere(s, two, q) {
        OneWordHere(s, one, two, q);
      } else {
        FirstWordIff(s, one, two, word, q + 1);
      }
    }
  }

  lemma OneWordHere(s: string, one: string, two: string, q: nat)
    requires one != "" && two != "" && one[0] != two[0]
    ensures !(WordHere(s, one, q) && WordHere(s, two, q))
  {
    assert q + |one| <= |s| ==> s[q..q + |one|][0] == s[q];
    assert q + |two| <= |s| ==> s[q..q + |two|][0] == s[q];
  }

  /** The target a path is taken for: the longest one that is part of a part, the earliest of those. */
  ghost predicate Contained(parts: seq<string>, target: string) {
    exists before, after :: before + target + after in parts
  }

  lemma NamedInIff(parts: seq<string>, target: string)
    ensures NamedIn(parts, target) <==> Contained(parts, target)
  {
    if i :| 0 <= i < |parts| && Find(parts[i], target).Some? {
      var at := Find(parts[i], target).value;
      assert parts[i] == parts[i][..at] + target + parts[i][at + |target|..];
    }
    if before, after :| before + target + after in parts {
      var i :| 0 <= i < |parts| && parts[i] == before + target + after;
      assert OccursAt(parts[i], target, |before|);
    }
  }

  /** Target `k` is in the path, and no other there is longer or as long and earlier. */
  ghost predicate Longest(targets: seq<string>, parts: seq<string>, k: nat) {
    k < |targets| && Contained(parts, targets[k])
    && forall j :: 0 <= j < |targets| && Contained(parts, targets[j]) ==>
         |targets[j]| < |targets[k]| || (|targets[j]| == |targets[k]| && k <= j)
  }

  lemma {:induction false} LongestIs(targets: seq<string>, parts: seq<string>)
    ensures match LongestNamed(targets, parts)
            case Some(t) => exists k: nat :: Longest(targets, parts, k) && targets[k] == t
            case None => forall k :: 0 <= k < |targets| ==> !Contained(parts, targets[k])
  {
    forall t ensures NamedIn(parts, t) <==> Contained(parts, t) { NamedInIff(parts, t); }
    hide NamedIn, Contained;
    if targets != [] {
      LongestIs(targets[1..], parts);
      var rest := LongestNamed(targets[1..], parts);
      if NamedIn(parts, targets[0]) && (rest.None? || |rest.value| <= |targets[0]|) {
        assert Longest(targets, parts, 0);
      } else if rest.Some? {
        var k: nat :| Longest(targets[1..], parts, k) && targets[1..][k] == rest.value;
        assert Longest(targets, parts, k + 1);
      }
    }
  }

  /** A row's task: the record's, else the longest target of the manifest that a part of the path holds. */
  lemma TaskIsInferred(record: Fields, targets: seq<string>, parts: seq<string>, t: string)
    ensures InferTask(record, targets, parts) == Some(t) <==>
      if record.taskId.Some? && record.taskId.value != "" then record.taskId.value == t
      else exists k: nat :: Longest(targets, parts, k) && targets[k] == t
  {
    LongestIs(targets, parts);
    hide LongestNamed, Contained;
  }

  /** What a row takes from its record, packet and path: condition and mode from the record where it has one, else from
      the packet, and where that value is unknown from the first of the words in the path; a replicate from the record's
      positive numeral, else from the path. */
  lemma InferredFromFields(record: Fields, packet: Fields, path: string)
    ensures var value := if record.condition.Some? then record.condition else packet.condition;
      forall c: Condition :: InferCondition(record, packet, path) == Some(c) <==>
        if value == Some("baseline") || value == Some("treatment") then value == Some(c.Name())
        else NamesFirst(path, c.Name(), "baseline", "treatment")
    ensures var value := if record.useMode.Some? then record.useMode else packet.useMode;
      forall m :: m == "voluntary" || m == "assisted" ==>
        (InferMode(record, packet, path) == Some(m) <==>
          if value == Some("voluntary") || value == Some("assisted") then value == Some(m)
          else NamesFirst(path, m, "voluntary", "assisted"))
    ensures forall n :: n > 0 && record.replicate == Some(Show02(n)) ==> InferReplicate(record, path) == Some(n)
    ensures record.replicate.None? || (forall c :: c in record.replicate.value ==> c == '0') ==>
      InferReplicate(record, path) == PathReplicate(path)
    ensures record.replicate.Some? && (exists c :: c in record.replicate.value && !('0' <= c <= '9')) ==>
      InferReplicate(record, path) == PathReplicate(path)
  {
    FirstWordIff(path, "baseline", "treatment", "baseline", 0);
    FirstWordIff(path, "baseline", "treatment", "treatment", 0);
    FirstWordIff(path, "voluntary", "assisted", "voluntary", 0);
    FirstWordIff(path, "voluntary", "assisted", "assisted", 0);
    hide FirstWord, NamesFirst;
    assert "baseline"[0] == 'b' && "treatment"[0] == 't';
    hide PathReplicate, Show02;
    forall n: nat | n > 0 && record.replicate == Some(Show02(n)) ensures InferReplicate(record, path) == Some(n) {
      LabelRoundTrip(n);
    }
    if record.replicate.Some? && forall c :: c in record.replicate.value ==>
        c == '0' { ZerosAreZero(record.replicate.value); }
  }

  lemma {:induction false} ZerosAreZero(s: string)
    requires forall c :: c in s ==> c == '0'
    ensures IsDigits(s) && Value(s) == 0
  {
    assert forall i :: 0 <= i < |s| ==> s[i] in s;
    if s != [] {
      assert forall c :: c in s[..|s| - 1] ==> c in s;
      ZerosAreZero(s[..|s| - 1]);
    }
  }
}
