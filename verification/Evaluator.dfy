/** The answer evaluators: the multi-locus V5 form, which accumulates failures in a loop, and the single-locus V6 and
    V9 forms. Each is proved against one declarative reading of a passing answer. */
module Evaluator {
  import opened Common
  import opened Json
  import opened RawResponse
  import Resolver

  datatype Failure =
    | ConditionInvalid
    | TopFieldsInvalid
    | DecisionFieldsInvalid
    | BoundaryBreaksRule
    | DecisionRationaleMissing
    | LociCountInvalid
    | LocusFieldsInvalid
    | LocusValuesInvalid
    | LocusUnresolved
    | LocusDuplicate
    | LocusRationaleMissing
    | RequiredIdentityMissing
    | RawInvalid(reason: string)
    | BoundaryBreaksRaw
    | RawUnsupportive
    | SourceUnusable // the auditor's own: the checkout is missing or dirty and nothing was evaluated

  datatype Outcome = Outcome(passed: bool, failures: seq<Failure>)

  type Identity = (string, string)

  /** A review locus the frozen oracle requires, with its evidence kind for the treatment arm. */
  datatype Required = Required(path: string, qualname: string, evidence: string)

  /** What an evaluation may look at besides the answer: the parsed files of the frozen head (a file that cannot be
      read or parsed is absent), the JSON decoder, and the text Python gives a value that is not text. */
  datatype Env = Env(head: map<string, seq<Resolver.Stmt>>, decode: string -> Option<Json>, render: Json -> string)

  predicate WellNamed(env: Env) {
    forall path :: path in env.head ==> Resolver.WellNamed(env.head[path])
  }

  function Tree(env: Env, path: string): Option<seq<Resolver.Stmt>> {
    if path in env.head then Some(env.head[path]) else None
  }

  predicate Resolves(env: Env, id: Identity) {
    Resolver.Resolves(Tree(env, id.0), id.0, id.1)
  }

  // ---------------------------------------------------------------- the pieces of an answer

  const TOP_FIELDS_V5 := {"decision", "review_loci"}
  const TOP_FIELDS := {"decision", "review_locus"}
  const DECISION_FIELDS := {"boundary", "rationale"}
  const LOCUS_FIELDS := {"path", "qualname", "rationale"}
  const CONDITIONS := {"baseline", "treatment"}

  predicate HasExactly(value: Json, fields: set<string>) {
    value.Obj? && value.fields.Keys == fields
  }

  predicate Space(c: char) {
    c == ' ' || '\t' <= c <= '\r' || '\U{1c}' <= c <= '\U{1f}'
  }

  /** `_non_empty`: text that is more than white space. */
  predicate NonEmpty(value: Json) {
    value.Str? && exists i :: 0 <= i < |value.s| && !Space(value.s[i])
  }

  /** The public boundary rule of each arm. */
  function PublicBoundary(condition: string): Json {
    Str(if condition == "baseline" then "comparison_not_observed" else "content_comparison_available")
  }

  function BoundaryForRaw(comparison: Json): Json {
    Str(if Get(Get(comparison, "content_comparison"), "status") == Str("available")
        then "content_comparison_available" else "content_comparison_unavailable")
  }

  function Text(env: Env, value: Json, key: string): string {
    if !(value.Obj? && key in value.fields) then ""
    else if value.fields[key].Str? then value.fields[key].s else env.render(value.fields[key])
  }

  /** One entry of a content delta names the locus: its file before the first colon, its name by suffix. */
  predicate EntrySupports(env: Env, entry: Json, r: Required) {
    entry.Obj? && Split(Text(env, entry, "source_id"), ':')[0] == r.path
        && EndsWith(Text(env, entry, "name"), r.qualname)
  }

  function Changed(diff: Json): seq<Json> {
    var changed := Get(Get(diff, "content_comparison"), "changed");
    if changed.List? then changed.items else []
  }

  /** `_raw_supports_identity` */
  predicate RawSupports(env: Env, diff: Json, r: Required) {
    diff.Obj? && r.evidence == "content_delta"
    && exists i :: 0 <= i < |Changed(diff)| && EntrySupports(env, Changed(diff)[i], r)
  }

  // ---------------------------------------------------------------- what a passing answer is

  predicate DecisionPasses(decision: Json, condition: string) {
    HasExactly(decision, DECISION_FIELDS) && Get(decision, "boundary") == PublicBoundary(condition)
    && NonEmpty(Get(decision, "rationale"))
  }

  predicate HasIdentity(locus: Json) {
    HasExactly(locus, LOCUS_FIELDS) && Get(locus, "path").Str? && Get(locus, "qualname").Str?
  }

  function IdentityOf(locus: Json): Identity
    requires HasIdentity(locus)
  {
    (Get(locus, "path").s, Get(locus, "qualname").s)
  }

  predicate LocusPasses(env: Env, locus: Json) {
    HasIdentity(locus) && Resolves(env, IdentityOf(locus)) && NonEmpty(Get(locus, "rationale"))
  }

  /** In the treatment arm the selected raw response must be valid, agree with the boundary and support every locus. */
  predicate RawPasses(env: Env, item: Contract, required: seq<Required>, decision: Json, condition: string,
      response: Json) {
    condition == "treatment" ==>
      var parsed := ParseRaw(env.decode, item, response);
      && parsed.Valid?
      && Get(decision, "boundary") == BoundaryForRaw(parsed.comparison)
      && parsed.diff.Obj?
      && forall i :: 0 <= i < |required| ==> RawSupports(env, parsed.diff, required[i])
  }

  /** Every locus passes and no identity stands twice. */
  predicate LociGood(env: Env, loci: seq<Json>) {
    (forall i :: 0 <= i < |loci| ==> LocusPasses(env, loci[i]))
    && (forall i, j :: 0 <= i < j < |loci| ==> IdentityOf(loci[i]) != IdentityOf(loci[j]))
  }

  predicate HasId(locus: Json, id: Identity) {
    HasIdentity(locus) && IdentityOf(locus) == id
  }

  predicate Named(loci: seq<Json>, id: Identity) {
    exists i :: 0 <= i < |loci| && HasId(loci[i], id)
  }

  predicate Covers(loci: seq<Json>, required: seq<Required>) {
    forall k :: 0 <= k < |required| ==> Named(loci, (required[k].path, required[k].qualname))
  }

  /** One to three loci, all passing, no identity twice, and every required identity among them. */
  predicate LociPass(env: Env, loci: seq<Json>, required: seq<Required>) {
    1 <= |loci| <= 3 && LociGood(env, loci) && Covers(loci, required)
  }

  predicate PassesMany(env: Env, item: Contract, required: seq<Required>, answer: Json, condition: string,
      response: Json) {
    condition in CONDITIONS && HasExactly(answer, TOP_FIELDS_V5)
    && DecisionPasses(Get(answer, "decision"), condition)
    && Get(answer, "review_loci").List? && LociPass(env, Get(answer, "review_loci").items, required)
    && RawPasses(env, item, required, Get(answer, "decision"), condition, response)
  }

  predicate PassesOne(env: Env, item: Contract, r: Required, answer: Json, condition: string, response: Json) {
    condition in CONDITIONS && HasExactly(answer, TOP_FIELDS)
    && DecisionPasses(Get(answer, "decision"), condition)
    && LocusPasses(env, Get(answer, "review_locus")) && IdentityOf(Get(answer, "review_locus")) == (r.path, r.qualname)
    && RawPasses(env, item, [r], Get(answer, "decision"), condition, response)
  }

  // ---------------------------------------------------------------- the failures, in the order they are reported

  /** The V5 and V6 checks of the decision: both are always made. */
  function DecisionFailures(decision: Json, condition: string): seq<Failure> {
    if !HasExactly(decision, DECISION_FIELDS) then [DecisionFieldsInvalid]
    else
      (if Get(decision, "boundary") != PublicBoundary(condition) then [BoundaryBreaksRule] else [])
      + (if !NonEmpty(Get(decision, "rationale")) then [DecisionRationaleMissing] else [])
  }

  /** The V9 checks: the rationale is looked at only when the boundary is right. */
  function FirstDecisionFailure(decision: Json, condition: string): seq<Failure> {
    if !HasExactly(decision, DECISION_FIELDS) then [DecisionFieldsInvalid]
    else if Get(decision, "boundary") != PublicBoundary(condition) then [BoundaryBreaksRule]
    else if !NonEmpty(Get(decision, "rationale")) then [DecisionRationaleMissing]
    else []
  }

  datatype Scan = Scan(failures: seq<Failure>, observed: set<Identity>)

  function ScanLocus(env: Env, st: Scan, locus: Json): Scan {
    if !HasExactly(locus, LOCUS_FIELDS) then st.(failures := st.failures + [LocusFieldsInvalid])
    else if !HasIdentity(locus) then st.(failures := st.failures + [LocusValuesInvalid])
    else
      var id := IdentityOf(locus);
      var named := if !Resolves(env, id) then st.(failures := st.failures + [LocusUnresolved])
                   else if id in st.observed then st.(failures := st.failures + [LocusDuplicate])
                   else st.(observed := st.observed + {id});
      if !NonEmpty(Get(locus, "rationale")) then named.(failures := named.failures + [LocusRationaleMissing]) else named
  }

  function ScanLoci(env: Env, loci: seq<Json>): Scan {
    if loci == [] then Scan([], {}) else ScanLocus(env, ScanLoci(env, loci[..|loci| - 1]), loci[|loci| - 1])
  }

  function MissingFailures(required: seq<Required>, observed: set<Identity>): seq<Failure> {
    if required == [] then []
    else
      var r := required[|required| - 1];
      MissingFailures(required[..|required| - 1], observed)
      + if (r.path, r.qualname) !in observed then [RequiredIdentityMissing] else []
  }

  function LociFailures(env: Env, loci: Json, required: seq<Required>): seq<Failure> {
    if !loci.List? || loci.items == [] || |loci.items| > 3 then [LociCountInvalid]
    else ScanLoci(env, loci.items).failures + MissingFailures(required, ScanLoci(env, loci.items).observed)
  }

  /** The raw-trust checks: the first failing one is reported. */
  function RawFailures(env: Env, item: Contract, required: seq<Required>, decision: Json, condition: string,
      response: Json): seq<Failure> {
    if condition != "treatment" then []
    else
      var parsed := ParseRaw(env.decode, item, response);
      if parsed.Invalid? then [RawInvalid(parsed.reason)]
      else if decision.Obj? && Get(decision, "boundary") != BoundaryForRaw(parsed.comparison) then [BoundaryBreaksRaw]
      else if !AllSupported(env, parsed.diff, required) then [RawUnsupportive]
      else []
  }

  /** `_raw_supports_identities` as a whole. */
  predicate AllSupported(env: Env, diff: Json, required: seq<Required>) {
    diff.Obj? && forall i :: 0 <= i < |required| ==> RawSupports(env, diff, required[i])
  }

  function FailuresMany(env: Env, item: Contract, required: seq<Required>, answer: Json, condition: string,
      response: Json): seq<Failure> {
    if condition !in CONDITIONS then [ConditionInvalid]
    else if !HasExactly(answer, TOP_FIELDS_V5) then [TopFieldsInvalid]
    else
      DecisionFailures(Get(answer, "decision"), condition)
      + LociFailures(env, Get(answer, "review_loci"), required)
      + RawFailures(env, item, required, Get(answer, "decision"), condition, response)
  }

  function OneLocusFailures(env: Env, r: Required, locus: Json): seq<Failure> {
    if !HasExactly(locus, LOCUS_FIELDS) then [LocusFieldsInvalid]
    else
      var resolved := HasIdentity(locus) && Resolves(env, IdentityOf(locus));
      (if !resolved then [LocusUnresolved] else [])
      + (if !resolved || IdentityOf(locus) != (r.path, r.qualname) then [RequiredIdentityMissing] else [])
      + (if !NonEmpty(Get(locus, "rationale")) then [LocusRationaleMissing] else [])
  }

  function FailuresOne(env: Env, item: Contract, r: Required, answer: Json, condition: string, response: Json,
      first: bool): seq<Failure> {
    if condition !in CONDITIONS then [ConditionInvalid]
    else if !HasExactly(answer, TOP_FIELDS) then [TopFieldsInvalid]
    else
      var decision := Get(answer, "decision");
      (if first then FirstDecisionFailure(decision, condition) else DecisionFailures(decision, condition))
      + OneLocusFailures(env, r, Get(answer, "review_locus"))
      + RawFailures(env, item, [r], decision, condition, response)
  }

  // ---------------------------------------------------------------- the evaluators

  /** The V5 loop over the loci. */
  method ReviewLoci(env: Env, loci: seq<Json>) returns (failures: seq<Failure>, observed: set<Identity>)
    requires WellNamed(env)
    ensures Scan(failures, observed) == ScanLoci(env, loci)
  {
    hide Resolver.Resolves, NonEmpty;
    failures, observed := [], {};
    for i := 0 to |loci|
      invariant Scan(failures, observed) == ScanLoci(env, loci[..i])
    {
      var locus := loci[i];
      assert loci[..i + 1][..i] == loci[..i];
      if !HasExactly(locus, LOCUS_FIELDS) {
        failures := failures + [LocusFieldsInvalid];
        continue;
      }
      var path, qualname := Get(locus, "path"), Get(locus, "qualname");
      if !path.Str? || !qualname.Str? {
        failures := failures + [LocusValuesInvalid];
        continue;
      }
      var identity := Resolver.CanonicalHeadIdentity(Tree(env, path.s), path.s, qualname.s);
      if identity.None? {
        failures := failures + [LocusUnresolved];
      } else if identity.value in observed {
        failures := failures + [LocusDuplicate];
      } else {
        observed := observed + {identity.value};
      }
      if !NonEmpty(Get(locus, "rationale")) {
        failures := failures + [LocusRationaleMissing];
      }
    }
    assert loci[..|loci|] == loci;
  }

  /** `_raw_supports_identities` of V5. */
  method SupportsAll(env: Env, diff: Json, required: seq<Required>) returns (ok: bool)
    ensures ok <==> AllSupported(env, diff, required)
  {
    if !diff.Obj? {
      return false;
    }
    for i := 0 to |required|
      invariant forall k :: 0 <= k < i ==> RawSupports(env, diff, required[k])
    {
      var r := required[i];
      if r.evidence != "content_delta" {
        return false;
      }
      var changed := Changed(diff);
      if !exists k :: 0 <= k < |changed| && EntrySupports(env, changed[k], r) {
        return false;
      }
    }
    return true;
  }

  method RawTrust(env: Env, item: Contract, required: seq<Required>, decision: Json, condition: string, response: Json)
    returns (failures: seq<Failure>)
    ensures failures == RawFailures(env, item, required, decision, condition, response)
  {
    hide ParseRaw, BoundaryForRaw, AllSupported, Get;
    failures := [];
    if condition == "treatment" {
      var parsed := ParseRaw(env.decode, item, response);
      if parsed.Invalid? {
        failures := failures + [RawInvalid(parsed.reason)];
      } else if decision.Obj? && Get(decision, "boundary") != BoundaryForRaw(parsed.comparison) {
        failures := failures + [BoundaryBreaksRaw];
      } else {
        var supported := SupportsAll(env, parsed.diff, required);
        if !supported {
          failures := failures + [RawUnsupportive];
        }
      }
    }
  }

  /** `evaluate_answer` of V5. */
  method EvaluateMany(env: Env, item: Contract, required: seq<Required>, answer: Json, condition: string,
      response: Json)
    returns (outcome: Outcome)
    requires WellNamed(env)
    ensures outcome.failures == FailuresMany(env, item, required, answer, condition, response)
    ensures outcome.passed <==> PassesMany(env, item, required, answer, condition, response)
  {
    hide ScanLoci, RawFailures, NonEmpty, PassesMany, DecisionFailures;
    ManyPassesIffNoFailure(env, item, required, answer, condition, response);
    if condition !in CONDITIONS {
      return Outcome(false, [ConditionInvalid]);
    }
    if !HasExactly(answer, TOP_FIELDS_V5) {
      return Outcome(false, [TopFieldsInvalid]);
    }
    var decision := Get(answer, "decision");
    var failures := ReviewDecision(decision, condition, false);
    var loci := Get(answer, "review_loci");
    if !loci.List? || loci.items == [] || |loci.items| > 3 {
      failures := failures + [LociCountInvalid];
    } else {
      var found, observed := ReviewLoci(env, loci.items);
      var missing := MissingIdentities(required, observed);
      failures := failures + (found + missing);
    }
    var raw := RawTrust(env, item, required, decision, condition, response);
    failures := failures + raw;
    return Outcome(failures == [], failures);
  }

  method MissingIdentities(required: seq<Required>, observed: set<Identity>) returns (failures: seq<Failure>)
    ensures failures == MissingFailures(required, observed)
  {
    failures := [];
    for i := 0 to |required|
      invariant failures == MissingFailures(required[..i], observed)
    {
      assert required[..i + 1][..i] == required[..i];
      if (required[i].path, required[i].qualname) !in observed {
        failures := failures + [RequiredIdentityMissing];
      }
    }
    assert required[..|required|] == required;
  }

  /** The single-locus checks V6 and V9 share. */
  method ReviewLocus(env: Env, r: Required, locus: Json) returns (failures: seq<Failure>)
    requires WellNamed(env)
    ensures failures == OneLocusFailures(env, r, locus)
  {
    hide Resolver.Resolves, NonEmpty;
    failures := [];
    if !HasExactly(locus, LOCUS_FIELDS) {
      return [LocusFieldsInvalid];
    }
    var path, qualname := Get(locus, "path"), Get(locus, "qualname");
    var identity: Option<Identity> := None;
    if path.Str? && qualname.Str? {
      identity := Resolver.CanonicalHeadIdentity(Tree(env, path.s), path.s, qualname.s);
    }
    if identity.None? {
      failures := failures + [LocusUnresolved];
    }
    if identity != Some((r.path, r.qualname)) {
      failures := failures + [RequiredIdentityMissing];
    }
    if !NonEmpty(Get(locus, "rationale")) {
      failures := failures + [LocusRationaleMissing];
    }
  }

  /** The decision checks: V9 stops at the first one that fails. */
  method ReviewDecision(decision: Json, condition: string, first: bool) returns (failures: seq<Failure>)
    ensures failures ==
            if first then FirstDecisionFailure(decision, condition) else DecisionFailures(decision, condition)
  {
    hide NonEmpty, PublicBoundary;
    failures := [];
    if !HasExactly(decision, DECISION_FIELDS) {
      failures := failures + [DecisionFieldsInvalid];
    } else {
      var boundaryWrong := Get(decision, "boundary") != PublicBoundary(condition);
      if boundaryWrong {
        failures := failures + [BoundaryBreaksRule];
      }
      if !(first && boundaryWrong) && !NonEmpty(Get(decision, "rationale")) {
        failures := failures + [DecisionRationaleMissing];
      }
    }
  }

  /** `evaluate_answer` of V6, and of V9 when `first` is set: V9 reports only the first failure of the decision. */
  method EvaluateOne(env: Env, item: Contract, r: Required, answer: Json, condition: string, response: Json,
      first: bool)
    returns (outcome: Outcome)
    requires WellNamed(env)
    ensures outcome.failures == FailuresOne(env, item, r, answer, condition, response, first)
    ensures outcome.passed <==> PassesOne(env, item, r, answer, condition, response)
  {
    hide RawFailures, NonEmpty, OneLocusFailures, PassesOne, DecisionFailures, FirstDecisionFailure;
    OnePassesIffNoFailure(env, item, r, answer, condition, response, first);
    if condition !in CONDITIONS {
      return Outcome(false, [ConditionInvalid]);
    }
    if !HasExactly(answer, TOP_FIELDS) {
      return Outcome(false, [TopFieldsInvalid]);
    }
    var decision := Get(answer, "decision");
    var failures := ReviewDecision(decision, condition, first);
    var located := ReviewLocus(env, r, Get(answer, "review_locus"));
    failures := failures + located;
    var raw := RawTrust(env, item, [r], decision, condition, response);
    failures := failures + raw;
    return Outcome(failures == [], failures);
  }

  // ---------------------------------------------------------------- no failure means a passing answer

  /** The scan stays silent exactly on passing, pairwise distinct loci, and has then observed their identities. */
  lemma {:induction false} ScanSilentIffGood(env: Env, loci: seq<Json>)
    ensures ScanLoci(env, loci).failures == [] <==> LociGood(env, loci)
    ensures LociGood(env, loci) ==>
      forall id :: id in ScanLoci(env, loci).observed <==> Named(loci, id)
  {
    hide Resolves, NonEmpty, ScanLocus, LociGood, Named;
    if loci == [] {
      NoLoci(env);
    } else {
      var n := |loci| - 1;
      var before, last := loci[..n], loci[n];
      ScanSilentIffGood(env, before);
      assert loci == before + [last];
      GoodAppend(env, before, last);
      LocusSilentIff(env, ScanLoci(env, before), last);
    }
  }

  lemma NoLoci(env: Env)
    ensures LociGood(env, []) && forall id :: !Named([], id)
  {
  }

  lemma LocusSilentIff(env: Env, st: Scan, locus: Json)
    ensures ScanLocus(env, st, locus).failures == [] <==>
            st.failures == [] && LocusPasses(env, locus) && IdentityOf(locus) !in st.observed
    ensures LocusPasses(env, locus) && IdentityOf(locus) !in st.observed ==>
            ScanLocus(env, st, locus).observed == st.observed + {IdentityOf(locus)}
  {
    hide Resolves, NonEmpty, HasExactly;
  }

  lemma GoodAppend(env: Env, before: seq<Json>, last: Json)
    ensures LociGood(env, before + [last]) <==>
            LociGood(env, before) && LocusPasses(env, last) && !Named(before, IdentityOf(last))
    ensures LocusPasses(env, last) ==>
            forall id :: Named(before + [last], id) <==> Named(before, id) || id == IdentityOf(last)
  {
    hide Resolves, NonEmpty, HasExactly;
    var loci, n := before + [last], |before|;
    assert forall i :: 0 <= i < n ==> loci[i] == before[i];
    assert loci[n] == last;
    if LociGood(env, loci) {
      forall i, j | 0 <= i < j < n ensures IdentityOf(before[i]) != IdentityOf(before[j]) {
        assert IdentityOf(loci[i]) != IdentityOf(loci[j]);
      }
      forall i | 0 <= i < n ensures !HasId(before[i], IdentityOf(last)) {
        assert IdentityOf(loci[i]) != IdentityOf(loci[n]);
      }
    }
    if LociGood(env, before) && LocusPasses(env, last) && !Named(before, IdentityOf(last)) {
      forall i, j | 0 <= i < j <= n ensures IdentityOf(loci[i]) != IdentityOf(loci[j]) {
        if j == n { assert !HasId(before[i], IdentityOf(last)); }
      }
    }
    forall id ensures Named(loci, id) <==> Named(before, id) || HasId(last, id) {
      if Named(before, id) {
        var i :| 0 <= i < n && HasId(before[i], id);
        assert HasId(loci[i], id);
      }
      if HasId(last, id) { assert HasId(loci[n], id); }
    }
  }

  predicate AllObserved(required: seq<Required>, observed: set<Identity>) {
    forall k :: 0 <= k < |required| ==> (required[k].path, required[k].qualname) in observed
  }

  lemma {:induction false} NothingMissing(required: seq<Required>, observed: set<Identity>)
    ensures MissingFailures(required, observed) == [] <==> AllObserved(required, observed)
  {
    if required != [] {
      var n := |required| - 1;
      NothingMissing(required[..n], observed);
      MissingStep(required, observed);
      hide MissingFailures;
      var before, last := required[..n], required[n];
      assert required == before + [last];
      assert AllObserved(required, observed) <==>
          AllObserved(before, observed) && (last.path, last.qualname) in observed;
    }
  }

  lemma MissingStep(required: seq<Required>, observed: set<Identity>)
    requires required != []
    ensures MissingFailures(required, observed) == [] <==>
      (MissingFailures(required[..|required| - 1], observed) == []
       && (required[|required| - 1].path, required[|required| - 1].qualname) in observed)
  {
  }

  lemma LociPassIffSilent(env: Env, loci: seq<Json>, required: seq<Required>)
    requires 1 <= |loci| <= 3
    ensures ScanLoci(env, loci).failures + MissingFailures(required, ScanLoci(env, loci).observed) == []
       <==> LociPass(env, loci, required)
  {
    hide LociGood, Covers, ScanLoci, MissingFailures;
    ScanSilentIffGood(env, loci);
    var st := ScanLoci(env, loci);
    NothingMissing(required, st.observed);
    if LociGood(env, loci) { ObservedCovers(loci, required, st.observed); }
  }

  lemma ObservedCovers(loci: seq<Json>, required: seq<Required>, observed: set<Identity>)
    requires forall id :: id in observed <==> Named(loci, id)
    ensures Covers(loci, required) <==> AllObserved(required, observed)
  {
    hide Named;
  }

  lemma RawSilentIffPasses(env: Env, item: Contract, required: seq<Required>, decision: Json, condition: string,
      response: Json)
    requires decision.Obj?
    ensures RawFailures(env, item, required, decision, condition, response) == []
       <==> RawPasses(env, item, required, decision, condition, response)
  {
    hide ParseRaw, RawSupports, BoundaryForRaw;
  }

  /** The V5 loop passes exactly the answers the declarative reading passes. */
  lemma ManyPassesIffNoFailure(env: Env, item: Contract, required: seq<Required>, answer: Json, condition: string,
      response: Json)
    ensures FailuresMany(env, item, required, answer, condition, response) == []
       <==> PassesMany(env, item, required, answer, condition, response)
  {
    hide ScanLoci, MissingFailures, RawFailures, RawPasses, LociPass, NonEmpty;
    var decision, loci := Get(answer, "decision"), Get(answer, "review_loci");
    if decision.Obj? { RawSilentIffPasses(env, item, required, decision, condition, response); }
    if loci.List? && 1 <= |loci.items| <= 3 { LociPassIffSilent(env, loci.items, required); }
    CountOutside(env, loci, required);
  }

  lemma CountOutside(env: Env, loci: Json, required: seq<Required>)
    ensures loci.List? && LociPass(env, loci.items, required) ==> 1 <= |loci.items| <= 3
  {
  }

  /** The V6 and V9 evaluators pass exactly the same answers, though V9 may report fewer failures. */
  lemma OnePassesIffNoFailure(env: Env, item: Contract, r: Required, answer: Json, condition: string, response: Json,
      first: bool)
    ensures FailuresOne(env, item, r, answer, condition, response, first) == []
       <==> PassesOne(env, item, r, answer, condition, response)
  {
    hide RawFailures, RawPasses, NonEmpty, Resolves;
    var decision := Get(answer, "decision");
    if decision.Obj? { RawSilentIffPasses(env, item, [r], decision, condition, response); }
  }

  // ---------------------------------------------------------------- one locus: V5 and V6 agree

  function ManyAnswer(decision: Json, locus: Json): Json {
    Obj(map["decision" := decision, "review_loci" := List([locus])])
  }

  function OneAnswer(decision: Json, locus: Json): Json {
    Obj(map["decision" := decision, "review_locus" := locus])
  }

  /** On one locus and one required identity the V5 loop gives the verdict of the single-locus evaluator, whatever
      decision, locus, arm and raw response it is given. */
  lemma SingletonAgrees(env: Env, item: Contract, r: Required, decision: Json, locus: Json, condition: string,
      response: Json)
    ensures PassesMany(env, item, [r], ManyAnswer(decision, locus), condition, response)
       <==> PassesOne(env, item, r, OneAnswer(decision, locus), condition, response)
  {
    hide RawPasses, LocusPasses, DecisionPasses;
    var loci := [locus];
    AnswerFields(decision, locus);
    OneLocusPasses(env, locus, r);
    hide ManyAnswer, OneAnswer, HasExactly, Get, LociPass;
  }

  lemma AnswerFields(decision: Json, locus: Json)
    ensures HasExactly(ManyAnswer(decision, locus), TOP_FIELDS_V5) && HasExactly(OneAnswer(decision, locus), TOP_FIELDS)
    ensures Get(ManyAnswer(decision, locus), "decision") == decision == Get(OneAnswer(decision, locus), "decision")
    ensures Get(ManyAnswer(decision, locus), "review_loci") == List([locus])
    ensures Get(OneAnswer(decision, locus), "review_locus") == locus
  {
    assert |"decision"| == 8 && |"review_loci"| == 11 && |"review_locus"| == 12;
  }

  lemma OneLocusPasses(env: Env, locus: Json, r: Required)
    ensures LocusPasses(env, locus) ==> HasIdentity(locus)
    ensures LociPass(env, [locus], [r]) <==>
        LocusPasses(env, locus) && HasIdentity(locus) && IdentityOf(locus) == (r.path, r.qualname)
  {
    hide Resolves, NonEmpty;
    var loci, required := [locus], [r];
    assert loci[0] == locus && required[0] == r;
  }

  // ---------------------------------------------------------------- what the failures the gate counts mean

  /** The failures the expansion gate counts, read off the answer: an unresolvable locus, a wrong top level, wrong
      locus fields. */
  lemma CountedFailures(env: Env, item: Contract, r: Required, answer: Json, condition: string, response: Json,
      first: bool)
    requires condition in CONDITIONS
    ensures var failures := FailuresOne(env, item, r, answer, condition, response, first);
            var locus := Get(answer, "review_locus");
            && (TopFieldsInvalid in failures <==> !HasExactly(answer, TOP_FIELDS))
            && (LocusFieldsInvalid in failures <==> HasExactly(answer, TOP_FIELDS) && !HasExactly(locus, LOCUS_FIELDS))
            && (LocusUnresolved in failures <==>
                (HasExactly(answer, TOP_FIELDS) && HasExactly(locus, LOCUS_FIELDS)
                 && !(HasIdentity(locus) && Resolves(env, IdentityOf(locus)))))
  {
    var decision, locus := Get(answer, "decision"), Get(answer, "review_locus");
    NotCounted(env, item, r, decision, condition, response);
    CountedAtTheLocus(env, r, locus);
    hide DecisionFailures, FirstDecisionFailure, OneLocusFailures, RawFailures, NonEmpty, Resolves;
  }

  predicate Counted(f: Failure) {
    f.TopFieldsInvalid? || f.LocusFieldsInvalid? || f.LocusUnresolved?
  }

  lemma NotCounted(env: Env, item: Contract, r: Required, decision: Json, condition: string, response: Json)
    ensures forall f :: f in DecisionFailures(decision, condition) ==> !Counted(f)
    ensures forall f :: f in FirstDecisionFailure(decision, condition) ==> !Counted(f)
    ensures forall f :: f in RawFailures(env, item, [r], decision, condition, response) ==> !Counted(f)
  {
    hide NonEmpty, ParseRaw, AllSupported, BoundaryForRaw, PublicBoundary, HasExactly;
  }

  lemma CountedAtTheLocus(env: Env, r: Required, locus: Json)
    ensures var failures := OneLocusFailures(env, r, locus);
            && TopFieldsInvalid !in failures
            && (LocusFieldsInvalid in failures <==> !HasExactly(locus, LOCUS_FIELDS))
            && (LocusUnresolved in failures <==>
                HasExactly(locus, LOCUS_FIELDS) && !(HasIdentity(locus) && Resolves(env, IdentityOf(locus))))
  {
    hide NonEmpty, Resolves;
  }

  /** Under a contract that expects an available comparison, a boundary that breaks the raw response breaks the public
      rule of the treatment arm as well: the second check never decides alone. */
  lemma RawBoundaryIsImplied(env: Env, item: Contract, required: seq<Required>, decision: Json, response: Json)
    requires FixesAll(item) && Expected(item, "status") == Str("available")
    requires BoundaryBreaksRaw in RawFailures(env, item, required, decision, "treatment", response)
    ensures Get(decision, "boundary") != PublicBoundary("treatment")
  {
    ValidReportsTheContract(env.decode, item, response);
    hide ParseRaw, AllSupported, FixesAll, Expected;
  }

  // ---------------------------------------------------------------- a passing answer, read off its fields

  /** The text Python reads under a key: the text itself, the printed form of anything else, nothing if it is
      missing. */
  predicate Reads(env: Env, entry: map<string, Json>, key: string, text: string) {
    if key !in entry then text == "" else if entry[key].Str? then entry[key] == Str(text)
        else text == env.render(entry[key])
  }

  /** A changed entry names the required locus: its source id up to the first colon is the path, and its name ends in
      the qualified name. */
  ghost predicate NamesLocus(env: Env, entry: Json, path: string, qualname: string) {
    entry.Obj? && exists source, front ::
      Reads(env, entry.fields, "source_id", source) && Reads(env, entry.fields, "name", front + qualname)
      && ':' !in path && (source == path || path + ":" <= source)
  }

  /** Some entry of the delta's `content_comparison.changed` names the required locus. */
  ghost predicate DeltaNames(env: Env, diff: Json, path: string, qualname: string) {
    && diff.Obj? && "content_comparison" in diff.fields && diff.fields["content_comparison"].Obj?
    && "changed" in diff.fields["content_comparison"].fields
    && diff.fields["content_comparison"].fields["changed"].List?
    && var changed := diff.fields["content_comparison"].fields["changed"].items;
    exists i :: 0 <= i < |changed| && NamesLocus(env, changed[i], path, qualname)
  }

  lemma ReadsText(env: Env, entry: Json, key: string, text: string)
    requires entry.Obj?
    ensures Reads(env, entry.fields, key, text) <==> Text(env, entry, key) == text
  {
  }

  lemma EntrySupportsIff(env: Env, entry: Json, r: Required)
    ensures EntrySupports(env, entry, r) <==> NamesLocus(env, entry, r.path, r.qualname)
  {
    hide Text, Reads, Split, EndsWith;
    if entry.Obj? {
      forall key, text ensures Reads(env, entry.fields, key, text) <==> Text(env, entry, key) == text {
        ReadsText(env, entry, key, text);
      }
      var source, name := Text(env, entry, "source_id"), Text(env, entry, "name");
      FirstField(source, ':', r.path);
      SuffixIff(name, r.qualname);
      assert [':'] == ":";
      if EntrySupports(env, entry, r) {
        var front :| name == front + r.qualname;
        assert Reads(env, entry.fields, "source_id", source) && Reads(env, entry.fields, "name", front + r.qualname);
      }
    }
  }

  /** What support by a raw response means, on its fields. */
  lemma SupportIff(env: Env, diff: Json, r: Required)
    ensures RawSupports(env, diff, r) <==> r.evidence == "content_delta" && DeltaNames(env, diff, r.path, r.qualname)
  {
    hide EntrySupports, NamesLocus;
    var changed := Changed(diff);
    forall i | 0 <= i < |changed| ensures EntrySupports(env, changed[i], r) <==>
        NamesLocus(env, changed[i], r.path, r.qualname)
    {
      EntrySupportsIff(env, changed[i], r);
    }
  }

  /** Text with a character that is no white space. */
  predicate NotBlank(s: string) {
    exists i :: 0 <= i < |s|
        && s[i] !in {' ', '\t', '\n', '\U{b}', '\U{c}', '\r', '\U{1c}', '\U{1d}', '\U{1e}', '\U{1f}'}
  }

  lemma NotBlankIff(value: Json)
    ensures NonEmpty(value) <==> value.Str? && NotBlank(value.s)
  {
    forall c: char ensures Space(c) <==>
      c in {' ', '\t', '\n', '\U{b}', '\U{c}', '\r', '\U{1c}', '\U{1d}', '\U{1e}', '\U{1f}'}
    {
    }
  }

  /** The decision an arm must take, with a rationale. */
  function DecisionOf(c: Condition, why: string): Json {
    Obj(map["boundary" := Str(if c == Baseline then "comparison_not_observed" else "content_comparison_available"),
            "rationale" := Str(why)])
  }

  function LocusOf(path: string, qualname: string, why: string): Json {
    Obj(map["path" := Str(path), "qualname" := Str(qualname), "rationale" := Str(why)])
  }

  lemma DecisionIff(decision: Json, c: Condition)
    ensures DecisionPasses(decision, c.Name()) <==> exists why :: NotBlank(why) && decision == DecisionOf(c, why)
  {
    assert |"boundary"| == 8 && |"rationale"| == 9 && "baseline"[0] == 'b' && "treatment"[0] == 't';
    if decision.Obj? && "rationale" in decision.fields { NotBlankIff(decision.fields["rationale"]); }
    hide NonEmpty, NotBlank;
    if DecisionPasses(decision, c.Name()) {
      var why := decision.fields["rationale"].s;
      assert decision.fields == DecisionOf(c, why).fields;
    }
    if why :| NotBlank(why) && decision == DecisionOf(c, why) {
      assert DecisionOf(c, why).fields.Keys == DECISION_FIELDS;
    }
  }

  lemma LocusIff(env: Env, locus: Json, path: string, qualname: string)
    ensures LocusPasses(env, locus) && IdentityOf(locus) == (path, qualname) <==>
            Resolves(env, (path, qualname)) && exists why :: NotBlank(why) && locus == LocusOf(path, qualname, why)
  {
    assert |"path"| == 4 && |"qualname"| == 8 && |"rationale"| == 9;
    if locus.Obj? && "rationale" in locus.fields { NotBlankIff(locus.fields["rationale"]); }
    hide NonEmpty, NotBlank, Resolves;
    if LocusPasses(env, locus) && IdentityOf(locus) == (path, qualname) {
      var why := locus.fields["rationale"].s;
      assert locus.fields == LocusOf(path, qualname, why).fields;
    }
    if why :| NotBlank(why) && locus == LocusOf(path, qualname, why) {
      assert LocusOf(path, qualname, why).fields.Keys == LOCUS_FIELDS;
    }
  }

  /** What a treatment's selected response must say: the frozen comparison is available and a changed entry names every
      required locus. */
  ghost predicate ResponseSupports(env: Env, item: Contract, required: seq<Required>, response: Json) {
    var seen := ParseRaw(env.decode, item, response);
    && seen.Valid?
    && seen.comparison.Obj? && "content_comparison" in seen.comparison.fields
    && HasField(seen.comparison.fields["content_comparison"], "status", Str("available"))
    && seen.diff.Obj?
    && forall k :: 0 <= k < |required| ==>
         required[k].evidence == "content_delta" && DeltaNames(env, seen.diff, required[k].path, required[k].qualname)
  }

  lemma AvailableIff(comparison: Json)
    ensures BoundaryForRaw(comparison) == Str("content_comparison_available") <==>
      (comparison.Obj? && "content_comparison" in comparison.fields
       && HasField(comparison.fields["content_comparison"], "status", Str("available")))
  {
    assert |"content_comparison_available"| == 28 && |"content_comparison_unavailable"| == 30;
    GetIsField(Get(comparison, "content_comparison"), "status", Str("available"));
  }

  lemma SupportedIff(env: Env, diff: Json, required: seq<Required>)
    ensures (forall k :: 0 <= k < |required| ==> RawSupports(env, diff, required[k])) <==>
      (forall k :: 0 <= k < |required| ==>
         required[k].evidence == "content_delta" && DeltaNames(env, diff, required[k].path, required[k].qualname))
  {
    hide RawSupports, DeltaNames;
    forall k | 0 <= k < |required|
      ensures RawSupports(env, diff, required[k]) <==>
        required[k].evidence == "content_delta" && DeltaNames(env, diff, required[k].path, required[k].qualname)
    {
      SupportIff(env, diff, required[k]);
    }
  }

  lemma DecidedBoundary(decision: Json, c: Condition)
    requires DecisionPasses(decision, c.Name())
    ensures c == Treatment ==> Get(decision, "boundary") == Str("content_comparison_available")
    ensures c.Name() == "treatment" <==> c == Treatment
  {
    hide NonEmpty, HasExactly, Get;
    assert "baseline"[0] == 'b' && "treatment"[0] == 't';
  }

  lemma ResponseSupportsIff(env: Env, item: Contract, required: seq<Required>, decision: Json, c: Condition,
      response: Json)
    requires DecisionPasses(decision, c.Name())
    ensures RawPasses(env, item, required, decision, c.Name(), response) <==>
            (c == Treatment ==> ResponseSupports(env, item, required, response))
  {
    hide DecisionPasses, ParseRaw, RawSupports, DeltaNames, BoundaryForRaw, Get, HasField;
    DecidedBoundary(decision, c);
    var seen := ParseRaw(env.decode, item, response);
    if c == Treatment && seen.Valid? {
      SupportedIff(env, seen.diff, required);
      AvailableIff(seen.comparison);
    }
  }

  /** An object of two fields, by its fields. */
  lemma TwoFields(value: Json, one: string, two: string, x: Json, y: Json)
    requires one != two
    ensures value == Obj(map[one := x, two := y]) <==>
            HasExactly(value, {one, two}) && Get(value, one) == x && Get(value, two) == y
  {
    if HasExactly(value, {one, two}) && Get(value, one) == x && Get(value, two) == y {
      assert value.fields == map[one := x, two := y];
    }
    if value == Obj(map[one := x, two := y]) {
      assert value.fields.Keys == {one, two};
    }
  }

  lemma ArmNames(c: Condition)
    ensures c.Name() in CONDITIONS && "decision" != "review_locus" && "decision" != "review_loci"
  {
    assert |"decision"| == 8 && |"review_locus"| == 12 && |"review_loci"| == 11;
  }

  /** An answer passes exactly when it is this object: the arm's decision and the required locus, each with a rationale,
      nothing else; the locus resolves; and a treatment's response is a valid one whose delta names the locus. */
  lemma PassingAnswerIs(env: Env, item: Contract, r: Required, answer: Json, c: Condition, response: Json)
    ensures PassesOne(env, item, r, answer, c.Name(), response) <==>
      ((exists why, reason :: NotBlank(why) && NotBlank(reason)
          && answer == Obj(map["decision" := DecisionOf(c, why), "review_locus" :=
              LocusOf(r.path, r.qualname, reason)]))
       && Resolves(env, (r.path, r.qualname))
       && (c == Treatment ==> ResponseSupports(env, item, [r], response)))
  {
    ArmNames(c);
    var decision, locus := Get(answer, "decision"), Get(answer, "review_locus");
    DecisionIff(decision, c);
    LocusIff(env, locus, r.path, r.qualname);
    if DecisionPasses(decision, c.Name()) { ResponseSupportsIff(env, item, [r], decision, c, response); }
    hide DecisionPasses, LocusPasses, RawPasses, NotBlank, Resolves, ResponseSupports, DecisionOf, LocusOf, IdentityOf;
    hide HasExactly, Get, CONDITIONS;
    forall why, reason
      ensures answer == Obj(map["decision" := DecisionOf(c, why), "review_locus" :=
          LocusOf(r.path, r.qualname, reason)]) <==>
        HasExactly(answer, TOP_FIELDS) && decision == DecisionOf(c, why) && locus == LocusOf(r.path, r.qualname, reason)
    {
      TwoFields(answer, "decision", "review_locus", DecisionOf(c, why), LocusOf(r.path, r.qualname, reason));
    }
  }

  /** One to three loci with pairwise different identities that resolve, each with a rationale, and every required
      identity among them. */
  ghost predicate LociStand(env: Env, loci: seq<Json>, required: seq<Required>) {
    1 <= |loci| <= 3 && exists ids: seq<Identity> ::
      Identifies(env, loci, ids) && AllAmong(required, ids)
  }

  ghost predicate Identifies(env: Env, loci: seq<Json>, ids: seq<Identity>) {
    |ids| == |loci| && Distinct(ids)
    && forall i :: 0 <= i < |loci| ==> LocusAt(env, loci[i], ids[i])
  }

  ghost predicate LocusAt(env: Env, locus: Json, id: Identity) {
    Resolves(env, id) && exists why :: NotBlank(why) && locus == LocusOf(id.0, id.1, why)
  }

  lemma LociStandIff(env: Env, loci: seq<Json>, required: seq<Required>)
    ensures LociPass(env, loci, required) <==> LociStand(env, loci, required)
  {
    hide NonEmpty, LocusOf, NotBlank, Resolves, IdentityOf, HasIdentity;
    forall i, id: Identity | 0 <= i < |loci|
      ensures LocusPasses(env, loci[i]) && HasId(loci[i], id) <==> LocusAt(env, loci[i], id)
    {
      LocusIff(env, loci[i], id.0, id.1);
    }
    hide LocusAt;
    if LociPass(env, loci, required) {
      var ids := seq(|loci|, i requires 0 <= i < |loci| => IdentityOf(loci[i]));
      assert forall i :: 0 <= i < |loci| ==> HasId(loci[i], ids[i]) && LocusAt(env, loci[i], ids[i]);
      assert Identifies(env, loci, ids);
      NamedAmong(loci, ids, required);
    }
    if LociStand(env, loci, required) {
      var ids :| Identifies(env, loci, ids) && AllAmong(required, ids);
      assert forall i :: 0 <= i < |loci| ==> LocusPasses(env, loci[i]) && HasId(loci[i], ids[i]);
      NamedAmong(loci, ids, required);
    }
  }

  predicate AllAmong(required: seq<Required>, ids: seq<Identity>) {
    forall k :: 0 <= k < |required| ==> (required[k].path, required[k].qualname) in ids
  }

  lemma NamedAmong(loci: seq<Json>, ids: seq<Identity>, required: seq<Required>)
    requires |ids| == |loci| && forall i :: 0 <= i < |loci| ==> HasId(loci[i], ids[i])
    ensures Covers(loci, required) <==> AllAmong(required, ids)
  {
    forall id ensures Named(loci, id) <==> id in ids {
    }
    hide Named;
  }

  /** The same for the multi-locus form: an answer passes exactly when it is this object and its loci stand. */
  lemma PassingManyIs(env: Env, item: Contract, required: seq<Required>, answer: Json, c: Condition, response: Json)
    ensures PassesMany(env, item, required, answer, c.Name(), response) <==>
      ((exists why, loci :: NotBlank(why) && LociStand(env, loci, required)
          && answer == Obj(map["decision" := DecisionOf(c, why), "review_loci" := List(loci)]))
       && (c == Treatment ==> ResponseSupports(env, item, required, response)))
  {
    ArmNames(c);
    var decision, loci := Get(answer, "decision"), Get(answer, "review_loci");
    DecisionIff(decision, c);
    if loci.List? { LociStandIff(env, loci.items, required); }
    if DecisionPasses(decision, c.Name()) { ResponseSupportsIff(env, item, required, decision, c, response); }
    hide DecisionPasses, LociPass, LociStand, RawPasses, NotBlank, ResponseSupports, DecisionOf, HasExactly, Get;
    hide CONDITIONS;
    forall why, items
      ensures answer == Obj(map["decision" := DecisionOf(c, why), "review_loci" := List(items)]) <==>
        HasExactly(answer, TOP_FIELDS_V5) && decision == DecisionOf(c, why) && loci == List(items)
    {
      TwoFields(answer, "decision", "review_loci", DecisionOf(c, why), List(items));
    }
  }

  // ---------------------------------------------------------------- what each failure of one locus says

  predicate HasKeys(value: Json, keys: set<string>) {
    value.Obj? && value.fields.Keys == keys
  }

  /** The decision's failures on its fields; V9 looks at the rationale only behind a right boundary. */
  lemma DecisionFailuresMean(decision: Json, c: Condition)
    ensures var shaped := HasKeys(decision, {"boundary", "rationale"});
      var right := shaped && decision.fields["boundary"] ==
                   Str(if c == Baseline then "comparison_not_observed" else "content_comparison_available");
      var reasoned := shaped && decision.fields["rationale"].Str? && NotBlank(decision.fields["rationale"].s);
      && DecisionFailures(decision, c.Name()) ==
           (if !shaped then [DecisionFieldsInvalid]
            else (if right then [] else [BoundaryBreaksRule]) + (if reasoned then [] else [DecisionRationaleMissing]))
      && FirstDecisionFailure(decision, c.Name()) ==
           (if !shaped then [DecisionFieldsInvalid] else if !right then [BoundaryBreaksRule]
            else if !reasoned then [DecisionRationaleMissing] else [])
  {
    assert "baseline"[0] == 'b' && "treatment"[0] == 't' && |"boundary"| == 8 && |"rationale"| == 9;
    if decision.Obj? && "rationale" in decision.fields { NotBlankIff(decision.fields["rationale"]); }
    hide NonEmpty, NotBlank;
  }

  /** The locus' failures on its fields. */
  lemma LocusFailuresMean(env: Env, r: Required, locus: Json)
    ensures var shaped := HasKeys(locus, {"path", "qualname", "rationale"});
      var named := shaped && locus.fields["path"].Str? && locus.fields["qualname"].Str?;
      var found := named && Resolves(env, (locus.fields["path"].s, locus.fields["qualname"].s));
      var wanted := found && locus.fields["path"].s == r.path && locus.fields["qualname"].s == r.qualname;
      var reasoned := shaped && locus.fields["rationale"].Str? && NotBlank(locus.fields["rationale"].s);
      OneLocusFailures(env, r, locus) ==
        if !shaped then [LocusFieldsInvalid]
        else (if found then [] else [LocusUnresolved]) + (if wanted then [] else [RequiredIdentityMissing])
             + (if reasoned then [] else [LocusRationaleMissing])
  {
    assert |"path"| == 4 && |"qualname"| == 8 && |"rationale"| == 9;
    if locus.Obj? && "rationale" in locus.fields { NotBlankIff(locus.fields["rationale"]); }
    hide NonEmpty, NotBlank, Resolves;
  }

  /** The raw-trust failures: none in a baseline; in a treatment the first of an invalid response, a boundary the
      response contradicts, and a delta that does not name every required locus. */
  lemma RawFailuresMean(env: Env, item: Contract, required: seq<Required>, decision: Json, c: Condition, response: Json)
    ensures var seen := ParseRaw(env.decode, item, response);
      RawFailures(env, item, required, decision, c.Name(), response) ==
        if c == Baseline then []
        else if seen.Invalid? then [RawInvalid(seen.reason)]
        else if decision.Obj? && !HasField(decision, "boundary",
                  Str(if Available(seen.comparison) then "content_comparison_available"
                      else "content_comparison_unavailable"))
          then [BoundaryBreaksRaw]
        else if !(seen.diff.Obj? && AllNamed(env, required, seen.diff)) then [RawUnsupportive] else []
  {
    hide ParseRaw, RawSupports, DeltaNames, Get, HasField, BoundaryForRaw;
    RightName(c);
    var seen := ParseRaw(env.decode, item, response);
    if c == Treatment && seen.Valid? {
      SupportedIff(env, seen.diff, required);
      RawBoundaryIs(seen.comparison);
      GetIsField(decision, "boundary", BoundaryForRaw(seen.comparison));
    }
  }

  predicate Available(comparison: Json) {
    comparison.Obj? && "content_comparison" in comparison.fields
    && HasField(comparison.fields["content_comparison"], "status", Str("available"))
  }

  ghost predicate AllNamed(env: Env, required: seq<Required>, diff: Json) {
    forall k :: 0 <= k < |required| ==>
      required[k].evidence == "content_delta" && DeltaNames(env, diff, required[k].path, required[k].qualname)
  }

  lemma RightName(c: Condition)
    ensures c.Name() == "treatment" <==> c == Treatment
  {
    assert "baseline"[0] == 'b' && "treatment"[0] == 't';
  }

  lemma RawBoundaryIs(comparison: Json)
    ensures BoundaryForRaw(comparison) ==
      Str(if Available(comparison) then "content_comparison_available" else "content_comparison_unavailable")
  {
    GetIsField(Get(comparison, "content_comparison"), "status", Str("available"));
  }

  /** The whole list of failures: V9 and V6 on one locus, V5 on several. Each part is read off its fields above. */
  lemma FailuresAre(env: Env, item: Contract, required: seq<Required>, r: Required, answer: Json, c: Condition,
      response: Json)
    ensures !HasKeys(answer, {"decision", "review_locus"}) ==>
      FailuresOne(env, item, r, answer, c.Name(), response, true) == [TopFieldsInvalid]
      == FailuresOne(env, item, r, answer, c.Name(), response, false)
    ensures HasKeys(answer, {"decision", "review_locus"}) ==>
      var decision, locus := answer.fields["decision"], answer.fields["review_locus"];
      var rest := OneLocusFailures(env, r, locus) + RawFailures(env, item, [r], decision, c.Name(), response);
      && FailuresOne(env, item, r, answer, c.Name(), response, true) == FirstDecisionFailure(decision, c.Name()) + rest
      && FailuresOne(env, item, r, answer, c.Name(), response, false) == DecisionFailures(decision, c.Name()) + rest
    ensures !HasKeys(answer, {"decision", "review_loci"}) ==>
      FailuresMany(env, item, required, answer, c.Name(), response) == [TopFieldsInvalid]
    ensures HasKeys(answer, {"decision", "review_loci"}) ==>
      var decision := answer.fields["decision"];
      FailuresMany(env, item, required, answer, c.Name(), response) ==
        DecisionFailures(decision, c.Name())
        + (LociFailures(env, answer.fields["review_loci"], required)
           + RawFailures(env, item, required, decision, c.Name(), response))
  {
    ArmNames(c);
    hide DecisionFailures, FirstDecisionFailure, OneLocusFailures, RawFailures, LociFailures, CONDITIONS;
  }

  /** When a review identity resolves: in the parsed file of that very path, a `src/` Python file, down the dotted
      name. */
  lemma ResolvesInHead(env: Env, path: string, qualname: string)
    ensures Resolves(env, (path, qualname)) <==>
      (path in env.head && "src/" <= path && (exists front :: path == front + ".py")
       && qualname != "" && (forall k :: 0 <= k < |qualname| - 1 ==> !(qualname[k] == ':' && qualname[k + 1] == ':'))
       && Resolver.Chain(env.head[path], Split(qualname, '.')))
  {
    Resolver.ResolvesIff(if path in env.head then Some(env.head[path]) else None, path, qualname);
    hide Resolver.Resolves, Resolver.Chain, Split;
  }
}
