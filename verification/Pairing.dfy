/** The cohort summariser: rows are paired arm by arm inside one run identity, and the pairs are
    grouped without merging task, stratum, runtime or mode. */
module Pairing {
  import opened Common
  import opened Sorting
  import opened Grouping
  import opened Quartiles

  /** A timing as it may appear in an artifact. */
  datatype Reading = Absent | NotFinite | Number(value: real)

  datatype Row = Row(
    taskId: Option<string>, stratum: Option<string>, condition: Option<Condition>, useMode: Option<string>,
    runtime: string, replicate: Option<int>, run: string, valid: bool, seconds: Reading)

  datatype PairKey = PairKey(
    taskId: Option<string>, stratum: Option<string>, useMode: Option<string>, runtime: string, replicate: Option<int>)

  datatype Reason =
    | DuplicateConditionRows
    | BaselineExcluded
    | TreatmentExcluded
    | BaselineSecondsMissing
    | TreatmentSecondsMissing

  datatype Pair = Pair(
    key: PairKey, baselineRun: string, treatmentRun: string, eligible: bool, reasons: seq<Reason>, delta: Option<real>)

  function KeyOf(row: Row): PairKey {
    PairKey(row.taskId, row.stratum, row.useMode, row.runtime, row.replicate)
  }

  /** Rows without a known condition or without a replicate never enter a pair. */
  predicate Pairable(row: Row) {
    row.condition.Some? && row.replicate.Some?
  }

  predicate Timed(row: Row) {
    row.seconds.Number? && row.seconds.value >= 0.0
  }

  function InArm(k: PairKey, c: Condition): Row -> bool {
    row => Pairable(row) && KeyOf(row) == k && row.condition == Some(c)
  }

  /** The rows of one arm of one identity, in input order. */
  function Arm(rows: seq<Row>, k: PairKey, c: Condition): seq<Row> {
    Filter(InArm(k, c), rows)
  }

  /** The pair made of the first row of each arm, with every reason to exclude it. */
  function PairUp(k: PairKey, baselines: seq<Row>, treatments: seq<Row>): Pair
    requires baselines != [] && treatments != []
  {
    var b, t := baselines[0], treatments[0];
    var reasons :=
      (if |baselines| != 1 || |treatments| != 1 then [DuplicateConditionRows] else [])
      + (if !b.valid then [BaselineExcluded] else [])
      + (if !t.valid then [TreatmentExcluded] else [])
      + (if !Timed(b) then [BaselineSecondsMissing] else [])
      + (if !Timed(t) then [TreatmentSecondsMissing] else []);
    Pair(k, b.run, t.run, reasons == [], reasons,
         if reasons == [] then Some(t.seconds.value - b.seconds.value) else None)
  }

  predicate BothArms(rows: seq<Row>, k: PairKey) {
    Arm(rows, k, Baseline) != [] && Arm(rows, k, Treatment) != []
  }

  function PairsFor(rows: seq<Row>, keys: seq<PairKey>): seq<Pair> {
    if keys == [] then []
    else
      var n := |keys| - 1;
      PairsFor(rows, keys[..n]) +
      (if BothArms(rows, keys[n]) then [PairUp(keys[n], Arm(rows, keys[n], Baseline), Arm(rows, keys[n], Treatment))]
       else [])
  }

  function SortedKeys(rows: seq<Row>, show: PairKey -> string): seq<PairKey> {
    Sort(ByText(show), PairableKeys(rows))
  }

  function Pairs(rows: seq<Row>, show: PairKey -> string): seq<Pair> {
    PairsFor(rows, SortedKeys(rows, show))
  }

  datatype Arms = Arms(baseline: seq<Row>, treatment: seq<Row>)

  function ArmsOf(rows: seq<Row>, k: PairKey): Arms {
    Arms(Arm(rows, k, Baseline), Arm(rows, k, Treatment))
  }

  /** The dictionary the summariser has built after reading `rows`, with its keys in insertion order. */
  ghost predicate Collected(rows: seq<Row>, order: seq<PairKey>, grouped: map<PairKey, Arms>) {
    && order == PairableKeys(rows)
    && (forall k :: k in grouped <==> k in order)
    && (forall k :: k in grouped ==> grouped[k] == ArmsOf(rows, k))
  }

  function Append(arms: Arms, row: Row): Arms {
    if row.condition == Some(Baseline) then arms.(baseline := arms.baseline + [row])
    else arms.(treatment := arms.treatment + [row])
  }

  lemma ArmsAppend(rows: seq<Row>, row: Row, k: PairKey)
    ensures ArmsOf(rows + [row], k) ==
            if Pairable(row) && KeyOf(row) == k then Append(ArmsOf(rows, k), row) else ArmsOf(rows, k)
  {
    FilterAppend(InArm(k, Baseline), rows, row);
    FilterAppend(InArm(k, Treatment), rows, row);
    if Pairable(row) && KeyOf(row) == k {
      match row.condition.value
      case Baseline => assert InArm(k, Baseline)(row) && !InArm(k, Treatment)(row);
      case Treatment => assert InArm(k, Treatment)(row) && !InArm(k, Baseline)(row);
    }
  }

  function PairableKeys(rows: seq<Row>): seq<PairKey> {
    Keys(KeyOf, Filter(Pairable, rows))
  }

  lemma PairableKeysAppend(rows: seq<Row>, row: Row)
    ensures PairableKeys(rows + [row]) ==
            if Pairable(row) && KeyOf(row) !in PairableKeys(rows) then PairableKeys(rows) + [KeyOf(row)]
            else PairableKeys(rows)
  {
    FilterAppend(Pairable, rows, row);
    Grouping.KeysAppend(KeyOf, Filter(Pairable, rows), row);
  }

  lemma ArmKeyIsPairable(rows: seq<Row>, k: PairKey, c: Condition)
    ensures Arm(rows, k, c) != [] ==> k in PairableKeys(rows)
  {
    FilterMembers(InArm(k, c), rows);
    FilterMembers(Pairable, rows);
    KeysMembers(KeyOf, Filter(Pairable, rows));
    if Arm(rows, k, c) != [] {
      var row := Arm(rows, k, c)[0];
      assert row in Arm(rows, k, c);
      assert row in Filter(Pairable, rows) && KeyOf(row) == k;
    }
  }

  /** One step of the collecting loop. */
  lemma CollectStep(rows: seq<Row>, row: Row, order: seq<PairKey>, grouped: map<PairKey, Arms>,
                    order': seq<PairKey>, grouped': map<PairKey, Arms>)
    requires Collected(rows, order, grouped) && Pairable(row)
    requires order' == if KeyOf(row) in grouped then order else order + [KeyOf(row)]
    requires grouped' == grouped[KeyOf(row) :=
        Append(if KeyOf(row) in grouped then grouped[KeyOf(row)] else Arms([], []), row)]
    ensures Collected(rows + [row], order', grouped')
  {
    PairableKeysAppend(rows, row);
    ArmKeyIsPairable(rows, KeyOf(row), Baseline);
    ArmKeyIsPairable(rows, KeyOf(row), Treatment);
    forall k ensures k in grouped' ==> grouped'[k] == ArmsOf(rows + [row], k) {
      ArmsAppend(rows, row, k);
    }
  }

  lemma CollectSkip(rows: seq<Row>, row: Row, order: seq<PairKey>, grouped: map<PairKey, Arms>)
    requires Collected(rows, order, grouped) && !Pairable(row)
    ensures Collected(rows + [row], order, grouped)
  {
    PairableKeysAppend(rows, row);
    forall k ensures k in grouped ==> grouped[k] == ArmsOf(rows + [row], k) {
      ArmsAppend(rows, row, k);
    }
  }

  /** The summariser's first loop: both arms of every identity, identities in order of appearance. */
  method CollectArms(rows: seq<Row>) returns (order: seq<PairKey>, grouped: map<PairKey, Arms>)
    ensures Collected(rows, order, grouped)
  {
    order, grouped := [], map[];
    for i := 0 to |rows|
      invariant Collected(rows[..i], order, grouped)
    {
      var row := rows[i];
      assert rows[..i + 1] == rows[..i] + [row];
      if !Pairable(row) {
        CollectSkip(rows[..i], row, order, grouped);
        continue;
      }
      ghost var order0, grouped0 := order, grouped;
      var k := KeyOf(row);
      if k !in grouped {
        order := order + [k];
        grouped := grouped[k := Arms([], [])];
      }
      grouped := grouped[k := Append(grouped[k], row)];
      CollectStep(rows[..i], row, order0, grouped0, order, grouped);
    }
    assert rows[..|rows|] == rows;
  }

  lemma PairsForStep(rows: seq<Row>, keys: seq<PairKey>, i: nat)
    requires i < |keys|
    ensures PairsFor(rows, keys[..i + 1]) ==
            PairsFor(rows, keys[..i]) +
            (if BothArms(rows, keys[i])
                then [PairUp(keys[i], Arm(rows, keys[i], Baseline), Arm(rows, keys[i], Treatment))]
             else [])
  {
    assert keys[..i + 1][..i] == keys[..i];
  }

  /** The whole pairing step: collect both arms of every identity, then pair the identities in the order
      of their printed keys. `show` is Python's printed form of the key tuple. */
  method PairEfficiency(rows: seq<Row>, show: PairKey -> string) returns (pairs: seq<Pair>)
    ensures pairs == Pairs(rows, show)
  {
    var order, grouped := CollectArms(rows);
    var keys := Sort(ByText(show), order);
    PermutationMembers(keys, order);
    pairs := [];
    for i := 0 to |keys|
      invariant pairs == PairsFor(rows, keys[..i])
    {
      hide PairUp;
      PairsForStep(rows, keys, i);
      assert keys[i] in order;
      var arms := grouped[keys[i]];
      if arms.baseline == [] || arms.treatment == [] {
        continue;
      }
      pairs := pairs + [PairUp(keys[i], arms.baseline, arms.treatment)];
    }
    assert keys[..|keys|] == keys;
  }

  // ---------------------------------------------------------------- what a pair says

  /** Exactly one row in each arm, both valid and both with a finite, non-negative time. */
  predicate CleanPair(rows: seq<Row>, k: PairKey) {
    var bs, ts := Arm(rows, k, Baseline), Arm(rows, k, Treatment);
    |bs| == 1 && |ts| == 1 && bs[0].valid && ts[0].valid && Timed(bs[0]) && Timed(ts[0])
  }

  lemma {:induction false} PairsForMember(rows: seq<Row>, keys: seq<PairKey>, p: Pair)
    ensures p in PairsFor(rows, keys) <==>
            p.key in keys && BothArms(rows, p.key)
            && p == PairUp(p.key, Arm(rows, p.key, Baseline), Arm(rows, p.key, Treatment))
  {
    if keys != [] {
      var n := |keys| - 1;
      PairsForMember(rows, keys[..n], p);
      assert keys == keys[..n] + [keys[n]];
    }
  }

  function KeysOfPairs(pairs: seq<Pair>): (ks: seq<PairKey>)
    ensures |ks| == |pairs| && forall i :: 0 <= i < |ks| ==> ks[i] == pairs[i].key
  {
    seq(|pairs|, i requires 0 <= i < |pairs| => pairs[i].key)
  }

  lemma {:induction false} PairsForKeys(rows: seq<Row>, keys: seq<PairKey>)
    requires Distinct(keys)
    ensures Distinct(KeysOfPairs(PairsFor(rows, keys)))
    ensures forall k :: k in KeysOfPairs(PairsFor(rows, keys)) <==> k in keys && BothArms(rows, k)
  {
    if keys != [] {
      var n := |keys| - 1;
      PairsForKeys(rows, keys[..n]);
      assert keys == keys[..n] + [keys[n]];
      assert keys[n] !in keys[..n];
      var before, after := PairsFor(rows, keys[..n]), PairsFor(rows, keys);
      assert forall k :: k in keys <==> k in keys[..n] || k == keys[n];
      if !BothArms(rows, keys[n]) {
        assert after == before;
      } else {
        var p := PairUp(keys[n], Arm(rows, keys[n], Baseline), Arm(rows, keys[n], Treatment));
        assert KeysOfPairs(after) == KeysOfPairs(before) + [keys[n]];
      }
    }
  }

  lemma ArmKeysAreSorted(rows: seq<Row>, show: PairKey -> string, k: PairKey)
    requires BothArms(rows, k)
    ensures k in SortedKeys(rows, show)
  {
    ArmKeyIsPairable(rows, k, Baseline);
    PermutationMembers(SortedKeys(rows, show), PairableKeys(rows));
  }

  ghost predicate Ascends<K>(show: K -> string, keys: seq<K>) {
    forall i, j :: 0 <= i < j < |keys| ==> TextLe(show(keys[i]), show(keys[j]))
  }

  /** Pairs come in the order of their printed identities. */
  lemma PairsAscend(rows: seq<Row>, show: PairKey -> string)
    ensures Ascends(show, KeysOfPairs(Pairs(rows, show)))
  {
    SortByTextIs(show, PairableKeys(rows));
    hide Sort, TextLe, Filter;
    PairsKeepOrder(rows, SortedKeys(rows, show), show);
  }

  lemma {:induction false} PairsKeepOrder(rows: seq<Row>, keys: seq<PairKey>, show: PairKey -> string)
    requires Ascends(show, keys)
    ensures Ascends(show, KeysOfPairs(PairsFor(rows, keys)))
    ensures forall k :: k in KeysOfPairs(PairsFor(rows, keys)) ==> k in keys
  {
    hide TextLe, BothArms, Arm;
    if keys != [] {
      var n := |keys| - 1;
      PairsKeepOrder(rows, keys[..n], show);
      assert keys == keys[..n] + [keys[n]];
      var before, after := PairsFor(rows, keys[..n]), PairsFor(rows, keys);
      assert forall k :: k in keys[..n] ==> TextLe(show(k), show(keys[n]));
      if !BothArms(rows, keys[n]) {
        assert after == before;
      } else {
        assert KeysOfPairs(after) == KeysOfPairs(before) + [keys[n]];
      }
    }
  }

  /** Each identity with rows in both arms yields exactly one pair, and nothing else does. */
  lemma OnePairPerIdentity(rows: seq<Row>, show: PairKey -> string)
    ensures Distinct(KeysOfPairs(Pairs(rows, show)))
    ensures forall k :: k in KeysOfPairs(Pairs(rows, show)) <==> BothArms(rows, k)
  {
    var keys := PairableKeys(rows);
    PermutationDistinct(keys, SortedKeys(rows, show));
    PairsForKeys(rows, SortedKeys(rows, show));
    forall k | BothArms(rows, k) ensures k in SortedKeys(rows, show) {
      ArmKeysAreSorted(rows, show, k);
    }
  }

  /** A pair is eligible, and carries a delta, exactly when its identity is clean; the delta is then the
      treatment time minus the baseline time. A duplicated arm therefore never yields a delta. */
  lemma DeltaIffClean(rows: seq<Row>, show: PairKey -> string, p: Pair)
    requires p in Pairs(rows, show)
    ensures p.eligible <==> CleanPair(rows, p.key)
    ensures p.delta.Some? <==> CleanPair(rows, p.key)
    ensures CleanPair(rows, p.key) ==>
              p.delta.value ==
                Arm(rows, p.key, Treatment)[0].seconds.value - Arm(rows, p.key, Baseline)[0].seconds.value
    ensures |Arm(rows, p.key, Baseline)| > 1 || |Arm(rows, p.key, Treatment)| > 1 ==> p.delta.None? && !p.eligible
  {
    PairsForMember(rows, SortedKeys(rows, show), p);
  }

  /** A row of one arm of a run identity, on its fields. */
  predicate IsArmRow(row: Row, k: PairKey, c: Condition) {
    && row.condition == Some(c) && row.replicate.Some? && row.replicate == k.replicate
    && row.taskId == k.taskId && row.stratum == k.stratum && row.useMode == k.useMode && row.runtime == k.runtime
  }

  predicate OnlyRow(rows: seq<Row>, k: PairKey, c: Condition, i: nat) {
    forall j :: 0 <= j < |rows| && j != i ==> !IsArmRow(rows[j], k, c)
  }

  predicate HasTime(row: Row) {
    row.seconds.Number? && row.seconds.value >= 0.0
  }

  lemma ArmRows(rows: seq<Row>, k: PairKey, c: Condition) returns (i: nat)
    requires Arm(rows, k, c) != []
    ensures i < |rows| && IsArmRow(rows[i], k, c) && Arm(rows, k, c)[0] == rows[i]
    ensures forall j :: 0 <= j < i ==> !IsArmRow(rows[j], k, c)
    ensures |Arm(rows, k, c)| == 1 <==> OnlyRow(rows, k, c, i)
  {
    assert forall row :: InArm(k, c)(row) <==> IsArmRow(row, k, c);
    i := FilterHead(InArm(k, c), rows);
  }

  lemma PairUpMeans(k: PairKey, bs: seq<Row>, ts: seq<Row>)
    requires bs != [] && ts != []
    ensures var p, b, t := PairUp(k, bs, ts), bs[0], ts[0];
      && p.key == k && p.baselineRun == b.run && p.treatmentRun == t.run
      && (DuplicateConditionRows in p.reasons <==> |bs| != 1 || |ts| != 1)
      && (BaselineExcluded in p.reasons <==> !b.valid) && (TreatmentExcluded in p.reasons <==> !t.valid)
      && (BaselineSecondsMissing in p.reasons <==> !HasTime(b))
      && (TreatmentSecondsMissing in p.reasons <==> !HasTime(t))
      && (p.eligible <==> p.reasons == [])
      && p.delta == if p.reasons == [] then Some(t.seconds.value - b.seconds.value) else None
  {
  }

  /** A pair read off the rows: it names the first row of each arm of its identity, gives every reason against it, and
      carries treatment minus baseline when there is none. */
  lemma PairReadsItsRows(rows: seq<Row>, show: PairKey -> string, p: Pair) returns (b: nat, t: nat)
    requires p in Pairs(rows, show)
    ensures b < |rows| && IsArmRow(rows[b], p.key, Baseline) && p.baselineRun == rows[b].run
    ensures t < |rows| && IsArmRow(rows[t], p.key, Treatment) && p.treatmentRun == rows[t].run
    ensures forall j :: 0 <= j < b ==> !IsArmRow(rows[j], p.key, Baseline)
    ensures forall j :: 0 <= j < t ==> !IsArmRow(rows[j], p.key, Treatment)
    ensures DuplicateConditionRows in p.reasons <==>
            !(OnlyRow(rows, p.key, Baseline, b) && OnlyRow(rows, p.key, Treatment, t))
    ensures BaselineExcluded in p.reasons <==> !rows[b].valid
    ensures TreatmentExcluded in p.reasons <==> !rows[t].valid
    ensures BaselineSecondsMissing in p.reasons <==> !HasTime(rows[b])
    ensures TreatmentSecondsMissing in p.reasons <==> !HasTime(rows[t])
    ensures p.eligible <==> p.reasons == []
    ensures p.reasons == [] ==> rows[b].seconds.Number? && rows[t].seconds.Number?
    ensures p.delta == if p.reasons == [] then Some(rows[t].seconds.value - rows[b].seconds.value) else None
  {
    hide Arm, OnlyRow, IsArmRow, PairUp, SortedKeys;
    PairsForMember(rows, SortedKeys(rows, show), p);
    assert BothArms(rows, p.key) && p == PairUp(p.key, Arm(rows, p.key, Baseline), Arm(rows, p.key, Treatment));
    hide Pairs, PairsFor;
    b := ArmRows(rows, p.key, Baseline);
    t := ArmRows(rows, p.key, Treatment);
    PairUpMeans(p.key, Arm(rows, p.key, Baseline), Arm(rows, p.key, Treatment));
  }

  /** Rows of both arms of one identity make a pair of it. */
  lemma RowsMakeAPair(rows: seq<Row>, show: PairKey -> string, k: PairKey, b: nat, t: nat) returns (p: Pair)
    requires b < |rows| && t < |rows| && IsArmRow(rows[b], k, Baseline) && IsArmRow(rows[t], k, Treatment)
    ensures p in Pairs(rows, show) && p.key == k
  {
    FilterMembers(InArm(k, Baseline), rows);
    FilterMembers(InArm(k, Treatment), rows);
    assert rows[b] in Arm(rows, k, Baseline) && rows[t] in Arm(rows, k, Treatment);
    p := PairUp(k, Arm(rows, k, Baseline), Arm(rows, k, Treatment));
    ArmKeysAreSorted(rows, show, k);
    PairsForMember(rows, SortedKeys(rows, show), p);
  }

  // ---------------------------------------------------------------- row order does not matter

  /** The scored content of a pair; the retained run names and reasons are reporting only. */
  datatype Verdict = Verdict(key: PairKey, eligible: bool, delta: Option<real>)

  function VerdictOf(p: Pair): Verdict {
    Verdict(p.key, p.eligible, p.delta)
  }

  function Verdicts(pairs: seq<Pair>): (vs: seq<Verdict>)
    ensures |vs| == |pairs|
  {
    seq(|pairs|, i requires 0 <= i < |pairs| => VerdictOf(pairs[i]))
  }

  lemma ArmPermutation(rows: seq<Row>, other: seq<Row>, k: PairKey, c: Condition)
    requires Permutation(rows, other)
    ensures |Arm(rows, k, c)| == |Arm(other, k, c)|
    ensures |Arm(rows, k, c)| == 1 ==> Arm(rows, k, c) == Arm(other, k, c)
  {
    FilterPermutation(InArm(k, c), rows, other);
    PermutationMembers(Arm(rows, k, c), Arm(other, k, c));
    if |Arm(rows, k, c)| == 1 {
      assert Arm(rows, k, c)[0] in Arm(other, k, c);
    }
  }

  lemma SameVerdict(k: PairKey, bs: seq<Row>, ts: seq<Row>, bs': seq<Row>, ts': seq<Row>)
    requires bs != [] && ts != [] && |bs| == |bs'| && |ts| == |ts'|
    requires |bs| == 1 ==> bs == bs'
    requires |ts| == 1 ==> ts == ts'
    ensures VerdictOf(PairUp(k, bs, ts)) == VerdictOf(PairUp(k, bs', ts'))
  {
    if |bs| == 1 && |ts| == 1 {
      assert bs == bs' && ts == ts';
    } else {
      assert DuplicateConditionRows in PairUp(k, bs, ts).reasons;
      assert DuplicateConditionRows in PairUp(k, bs', ts').reasons;
    }
  }

  lemma {:induction false} VerdictsPermutation(rows: seq<Row>, other: seq<Row>, keys: seq<PairKey>)
    requires Permutation(rows, other)
    ensures |PairsFor(rows, keys)| == |PairsFor(other, keys)|
    ensures forall i :: 0 <= i < |PairsFor(rows, keys)| ==>
              VerdictOf(PairsFor(rows, keys)[i]) == VerdictOf(PairsFor(other, keys)[i])
  {
    if keys != [] {
      var k := keys[|keys| - 1];
      VerdictsPermutation(rows, other, keys[..|keys| - 1]);
      ArmPermutation(rows, other, k, Baseline);
      ArmPermutation(rows, other, k, Treatment);
      if BothArms(rows, k) {
        SameVerdict(k, Arm(rows, k, Baseline), Arm(rows, k, Treatment),
                    Arm(other, k, Baseline), Arm(other, k, Treatment));
      }
    }
  }

  /** Reordering the rows, duplicates included, changes no identity, no eligibility and no delta, and
      leaves the pairs in the same order. */
  lemma PairingIgnoresRowOrder(rows: seq<Row>, other: seq<Row>, show: PairKey -> string)
    requires Permutation(rows, other) && Injective(show)
    ensures Verdicts(Pairs(rows, show)) == Verdicts(Pairs(other, show))
  {
    FilterPermutation(Pairable, rows, other);
    KeysPermutation(KeyOf, Filter(Pairable, rows), Filter(Pairable, other));
    ByTextTotal(show);
    SortPermutationInvariant(ByText(show), PairableKeys(rows), Keys(KeyOf, Filter(Pairable, other)));
    VerdictsPermutation(rows, other, SortedKeys(rows, show));
  }

  // ---------------------------------------------------------------- grouping pairs

  datatype GroupKey = GroupKey(taskId: Option<string>, stratum: Option<string>, runtime: string,
      useMode: Option<string>)

  datatype PairGroup = PairGroup(
    key: GroupKey, pairs: seq<Pair>, nPairs: nat, nEligible: nat, deltas: Option<QuartileSummary>)

  function GroupKeyOf(p: Pair): GroupKey {
    GroupKey(p.key.taskId, p.key.stratum, p.key.runtime, p.key.useMode)
  }

  predicate Eligible(p: Pair) {
    p.eligible
  }

  /** The deltas a group contributes: those of its eligible pairs that carry a number. */
  function DeltasOf(pairs: seq<Pair>): seq<real> {
    if pairs == [] then []
    else
      var p := pairs[|pairs| - 1];
      DeltasOf(pairs[..|pairs| - 1]) + (if p.eligible && p.delta.Some? then [p.delta.value] else [])
  }

  function Summarised(k: GroupKey, pairs: seq<Pair>): PairGroup {
    PairGroup(k, pairs, |pairs|, |Filter(Eligible, pairs)|, QuartileSummaryOf(DeltasOf(pairs)))
  }

  function GroupsFor(pairs: seq<Pair>, keys: seq<GroupKey>): (groups: seq<PairGroup>)
    ensures |groups| == |keys|
  {
    seq(|keys|, i requires 0 <= i < |keys| => Summarised(keys[i], Group(GroupKeyOf, pairs, keys[i])))
  }

  function SortedGroupKeys(pairs: seq<Pair>, show: GroupKey -> string): seq<GroupKey> {
    Sort(ByText(show), Keys(GroupKeyOf, pairs))
  }

  function Groups(pairs: seq<Pair>, show: GroupKey -> string): seq<PairGroup> {
    GroupsFor(pairs, SortedGroupKeys(pairs, show))
  }

  /** The members of one group walked pair by pair, as the summariser does. */
  method SummariseGroup(k: GroupKey, pairs: seq<Pair>) returns (g: PairGroup)
    ensures g == Summarised(k, pairs)
  {
    var values: seq<real>, eligible := [], 0;
    for i := 0 to |pairs|
      invariant values == DeltasOf(pairs[..i])
      invariant eligible == |Filter(Eligible, pairs[..i])|
    {
      assert pairs[..i + 1] == pairs[..i] + [pairs[i]];
      FilterAppend(Eligible, pairs[..i], pairs[i]);
      assert pairs[..i + 1][..i] == pairs[..i];
      if !pairs[i].eligible {
        continue;
      }
      eligible := eligible + 1;
      if pairs[i].delta.Some? {
        values := values + [pairs[i].delta.value];
      }
    }
    assert pairs[..|pairs|] == pairs;
    g := PairGroup(k, pairs, |pairs|, eligible, QuartileSummaryOf(values));
  }

  ghost predicate Grouped(pairs: seq<Pair>, order: seq<GroupKey>, grouped: map<GroupKey, seq<Pair>>) {
    && order == Keys(GroupKeyOf, pairs)
    && (forall k :: k in grouped <==> k in order)
    && (forall k :: k in grouped ==> grouped[k] == Group(GroupKeyOf, pairs, k))
  }

  lemma GroupStep(pairs: seq<Pair>, p: Pair, order: seq<GroupKey>, grouped: map<GroupKey, seq<Pair>>,
                  order': seq<GroupKey>, grouped': map<GroupKey, seq<Pair>>)
    requires Grouped(pairs, order, grouped)
    requires var k := GroupKeyOf(p);
             && order' == (if k in grouped then order else order + [k])
             && grouped' == grouped[k := (if k in grouped then grouped[k] else []) + [p]]
    ensures Grouped(pairs + [p], order', grouped')
  {
    KeysAppend(GroupKeyOf, pairs, p);
    GroupEmptyUnlessKey(pairs, GroupKeyOf(p));
    forall k ensures k in grouped' ==> grouped'[k] == Group(GroupKeyOf, pairs + [p], k) {
      FilterAppend(HasKey(GroupKeyOf, k), pairs, p);
    }
  }

  method CollectGroups(pairs: seq<Pair>) returns (order: seq<GroupKey>, grouped: map<GroupKey, seq<Pair>>)
    ensures Grouped(pairs, order, grouped)
  {
    order, grouped := [], map[];
    for i := 0 to |pairs|
      invariant Grouped(pairs[..i], order, grouped)
    {
      ghost var order0, grouped0 := order, grouped;
      var k := GroupKeyOf(pairs[i]);
      if k !in grouped {
        order := order + [k];
        grouped := grouped[k := []];
      }
      grouped := grouped[k := grouped[k] + [pairs[i]]];
      GroupStep(pairs[..i], pairs[i], order0, grouped0, order, grouped);
      assert pairs[..i + 1] == pairs[..i] + [pairs[i]];
    }
    assert pairs[..|pairs|] == pairs;
  }

  lemma GroupsForStep(pairs: seq<Pair>, keys: seq<GroupKey>, i: nat)
    requires i < |keys|
    ensures GroupsFor(pairs, keys[..i + 1]) ==
            GroupsFor(pairs, keys[..i]) + [Summarised(keys[i], Group(GroupKeyOf, pairs, keys[i]))]
  {
  }

  method SummarizeGroups(pairs: seq<Pair>, show: GroupKey -> string) returns (groups: seq<PairGroup>)
    ensures groups == Groups(pairs, show)
  {
    var order, grouped := CollectGroups(pairs);
    var keys := Sort(ByText(show), order);
    PermutationMembers(keys, order);
    groups := [];
    for i := 0 to |keys|
      invariant groups == GroupsFor(pairs, keys[..i])
    {
      assert keys[i] in order;
      var g := SummariseGroup(keys[i], grouped[keys[i]]);
      groups := groups + [g];
      GroupsForStep(pairs, keys, i);
    }
    assert keys[..|keys|] == keys;
  }

  lemma {:induction false} GroupEmptyUnlessKey(pairs: seq<Pair>, k: GroupKey)
    ensures Group(GroupKeyOf, pairs, k) == [] || k in Keys(GroupKeyOf, pairs)
  {
    var g := Group(GroupKeyOf, pairs, k);
    FilterMembers(HasKey(GroupKeyOf, k), pairs);
    KeysMembers(GroupKeyOf, pairs);
    if g != [] {
      assert g[0] in g;
    }
  }

  // ---------------------------------------------------------------- grouping conserves pairs

  function TotalPairs(groups: seq<PairGroup>): nat {
    if groups == [] then 0 else groups[0].nPairs + TotalPairs(groups[1..])
  }

  function AllPairs(groups: seq<PairGroup>): seq<Pair> {
    if groups == [] then [] else groups[0].pairs + AllPairs(groups[1..])
  }

  lemma {:induction false} AllPairsRegroup(pairs: seq<Pair>, keys: seq<GroupKey>)
    ensures AllPairs(GroupsFor(pairs, keys)) == Regroup(GroupKeyOf, pairs, keys)
    ensures TotalPairs(GroupsFor(pairs, keys)) == |AllPairs(GroupsFor(pairs, keys))|
  {
    if keys != [] {
      AllPairsRegroup(pairs, keys[1..]);
      assert GroupsFor(pairs, keys)[1..] == GroupsFor(pairs, keys[1..]);
    }
  }

  /** The groups partition the pairs: nothing lost, nothing counted twice. */
  lemma GroupingConservesPairs(pairs: seq<Pair>, show: GroupKey -> string)
    ensures Permutation(AllPairs(Groups(pairs, show)), pairs)
    ensures TotalPairs(Groups(pairs, show)) == |pairs|
  {
    AllPairsRegroup(pairs, SortedGroupKeys(pairs, show));
    GroupsPartition(GroupKeyOf, pairs, SortedGroupKeys(pairs, show));
    PermutationMembers(AllPairs(Groups(pairs, show)), pairs);
  }

  /** Groups are homogeneous, carry every pair of their key in input order, and no key has two groups. */
  lemma GroupsAreHomogeneous(pairs: seq<Pair>, show: GroupKey -> string, i: nat)
    requires i < |Groups(pairs, show)|
    ensures var g := Groups(pairs, show)[i];
            && (forall p :: p in g.pairs <==>
                  p in pairs && p.key.taskId == g.key.taskId && p.key.stratum == g.key.stratum
                  && p.key.runtime == g.key.runtime && p.key.useMode == g.key.useMode)
            && g.pairs == Filter(HasKey(GroupKeyOf, g.key), pairs)
            && g.pairs != []
            && forall j :: 0 <= j < |Groups(pairs, show)| && j != i ==> Groups(pairs, show)[j].key != g.key
  {
    var keys := SortedGroupKeys(pairs, show);
    PermutationDistinct(Keys(GroupKeyOf, pairs), keys);
    PermutationMembers(Keys(GroupKeyOf, pairs), keys);
    FilterMembers(HasKey(GroupKeyOf, keys[i]), pairs);
    KeysMembers(GroupKeyOf, pairs);
    assert keys[i] in keys;
    var p :| p in pairs && GroupKeyOf(p) == keys[i];
    assert p in Group(GroupKeyOf, pairs, keys[i]);
  }

  /** Groups come in the order of their printed keys. */
  lemma GroupsAscend(pairs: seq<Pair>, show: GroupKey -> string)
    ensures var gs := Groups(pairs, show);
            |gs| == |Keys(GroupKeyOf, pairs)| && Ascends(show, seq(|gs|, i requires 0 <= i < |gs| => gs[i].key))
  {
    SortByTextIs(show, Keys(GroupKeyOf, pairs));
    hide Sort, TextLe, Filter;
  }

  /** Two pairs are in one group exactly when task, stratum, runtime and mode agree, whatever their replicates. */
  lemma SameGroupIff(pairs: seq<Pair>, show: GroupKey -> string, p: Pair, q: Pair) returns (i: nat)
    requires p in pairs && q in pairs
    ensures i < |Groups(pairs, show)| && p in Groups(pairs, show)[i].pairs
    ensures q in Groups(pairs, show)[i].pairs <==>
            (p.key.taskId == q.key.taskId && p.key.stratum == q.key.stratum && p.key.runtime == q.key.runtime
             && p.key.useMode == q.key.useMode)
  {
    var keys := SortedGroupKeys(pairs, show);
    PermutationMembers(Keys(GroupKeyOf, pairs), keys);
    KeysMembers(GroupKeyOf, pairs);
    assert GroupKeyOf(p) in keys;
    i :| 0 <= i < |keys| && keys[i] == GroupKeyOf(p);
    GroupsAreHomogeneous(pairs, show, i);
    FilterMembers(HasKey(GroupKeyOf, keys[i]), pairs);
  }

  lemma {:induction false} DeltaPerEligible(pairs: seq<Pair>)
    requires forall p :: p in pairs ==> (p.eligible <==> p.delta.Some?)
    ensures |DeltasOf(pairs)| == |Filter(Eligible, pairs)|
  {
    if pairs != [] {
      DeltaPerEligible(pairs[..|pairs| - 1]);
    }
  }

  /** For pairs built by the pairing step, the quartile count of a group is its eligible count, and there
      are quartiles exactly when some pair of the group is eligible. */
  lemma QuartileCountIsEligibleCount(rows: seq<Row>, showPair: PairKey -> string, showGroup: GroupKey -> string, i: nat)
    requires i < |Groups(Pairs(rows, showPair), showGroup)|
    ensures var g := Groups(Pairs(rows, showPair), showGroup)[i];
            && (g.deltas.Some? <==> g.nEligible > 0)
            && (g.deltas.Some? ==> g.deltas.value.n == g.nEligible)
  {
    var pairs := Pairs(rows, showPair);
    GroupsAreHomogeneous(pairs, showGroup, i);
    var g := Groups(pairs, showGroup)[i];
    forall p | p in g.pairs ensures p.eligible <==> p.delta.Some? {
      DeltaIffClean(rows, showPair, p);
    }
    DeltaPerEligible(g.pairs);
  }

  // ---------------------------------------------------------------- the whole summary ignores row order

  /** The reported statistics of a group, without the retained pair records. */
  datatype GroupStat = GroupStat(key: GroupKey, nPairs: nat, nEligible: nat, deltas: Option<QuartileSummary>)

  function StatOf(g: PairGroup): GroupStat {
    GroupStat(g.key, g.nPairs, g.nEligible, g.deltas)
  }

  function StatsOf(groups: seq<PairGroup>): (stats: seq<GroupStat>)
    ensures |stats| == |groups|
  {
    seq(|groups|, i requires 0 <= i < |groups| => StatOf(groups[i]))
  }

  /** Two pair lists with the same verdicts, position by position. */
  ghost predicate Alike(a: seq<Pair>, b: seq<Pair>) {
    |a| == |b| && forall i :: 0 <= i < |a| ==> VerdictOf(a[i]) == VerdictOf(b[i])
  }

  lemma {:induction false} AlikeKeys(a: seq<Pair>, b: seq<Pair>)
    requires Alike(a, b)
    ensures Keys(GroupKeyOf, a) == Keys(GroupKeyOf, b)
  {
    if a != [] {
      AlikeKeys(a[..|a| - 1], b[..|b| - 1]);
      assert VerdictOf(a[|a| - 1]) == VerdictOf(b[|b| - 1]);
    }
  }

  lemma {:induction false} AlikeFilter(f: Pair -> bool, a: seq<Pair>, b: seq<Pair>)
    requires Alike(a, b)
    requires forall p, q :: VerdictOf(p) == VerdictOf(q) ==> f(p) == f(q)
    ensures Alike(Filter(f, a), Filter(f, b))
  {
    if a != [] {
      AlikeFilter(f, a[..|a| - 1], b[..|b| - 1]);
      assert VerdictOf(a[|a| - 1]) == VerdictOf(b[|b| - 1]);
    }
  }

  lemma {:induction false} AlikeDeltas(a: seq<Pair>, b: seq<Pair>)
    requires Alike(a, b)
    ensures DeltasOf(a) == DeltasOf(b)
  {
    if a != [] {
      AlikeDeltas(a[..|a| - 1], b[..|b| - 1]);
      assert VerdictOf(a[|a| - 1]) == VerdictOf(b[|b| - 1]);
    }
  }

  lemma AlikeStat(a: seq<Pair>, b: seq<Pair>, k: GroupKey)
    requires Alike(a, b)
    ensures StatOf(Summarised(k, a)) == StatOf(Summarised(k, b))
  {
    AlikeFilter(Eligible, a, b);
    AlikeDeltas(a, b);
  }

  lemma AlikeGroup(a: seq<Pair>, b: seq<Pair>, k: GroupKey)
    requires Alike(a, b)
    ensures Alike(Group(GroupKeyOf, a, k), Group(GroupKeyOf, b, k))
  {
    forall p, q | VerdictOf(p) == VerdictOf(q)
      ensures HasKey(GroupKeyOf, k)(p) == HasKey(GroupKeyOf, k)(q)
    {
      assert VerdictOf(p).key == VerdictOf(q).key;
      assert GroupKeyOf(p) == GroupKeyOf(q);
      assert HasKey(GroupKeyOf, k)(p) == (GroupKeyOf(p) == k) && HasKey(GroupKeyOf, k)(q) == (GroupKeyOf(q) == k);
    }
    AlikeFilter(HasKey(GroupKeyOf, k), a, b);
  }

  lemma AlikeStats(a: seq<Pair>, b: seq<Pair>, show: GroupKey -> string)
    requires Alike(a, b)
    ensures StatsOf(Groups(a, show)) == StatsOf(Groups(b, show))
  {
    hide Summarised;
    AlikeKeys(a, b);
    var keys := SortedGroupKeys(a, show);
    forall i | 0 <= i < |keys|
      ensures StatOf(Summarised(keys[i], Group(GroupKeyOf, a, keys[i])))
           == StatOf(Summarised(keys[i], Group(GroupKeyOf, b, keys[i])))
    {
      AlikeGroup(a, b, keys[i]);
      AlikeStat(Group(GroupKeyOf, a, keys[i]), Group(GroupKeyOf, b, keys[i]), keys[i]);
    }
  }

  /** From rows to reported statistics: any reordering of the rows reports the same groups, counts and
      quartiles in the same order. */
  lemma SummaryIgnoresRowOrder(
      rows: seq<Row>, other: seq<Row>, showPair: PairKey -> string, showGroup: GroupKey -> string)
    requires Permutation(rows, other) && Injective(showPair)
    ensures StatsOf(Groups(Pairs(rows, showPair), showGroup)) == StatsOf(Groups(Pairs(other, showPair), showGroup))
  {
    PairingIgnoresRowOrder(rows, other, showPair);
    var a, b := Pairs(rows, showPair), Pairs(other, showPair);
    forall i | 0 <= i < |a| ensures VerdictOf(a[i]) == VerdictOf(b[i]) {
      assert Verdicts(a)[i] == Verdicts(b)[i];
    }
    AlikeStats(a, b, showGroup);
  }
}
