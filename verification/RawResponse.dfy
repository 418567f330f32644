/** Validation of one raw branch-diff response against the frozen task contract. */
module RawResponse {
  import opened Common
  import opened Json

  datatype Ref = Ref(alias: string, sha: string)

  /** The part of a frozen contract a raw response is checked against. */
  datatype Contract = Contract(base: Ref, head: Ref, expected: map<string, Json>)

  datatype Observation = Invalid(reason: string) | Valid(comparison: Json, diff: Json)

  const PROVISIONED: set<Json> := {Str("created"), Str("reused"), Str("rebuilt")}
  const COMPARED: seq<string> := ["version", "scope", "status", "reason", "base_backend", "head_backend"]

  predicate RefMatches(snapshot: Json, expected: Ref) {
    snapshot.Obj? && Get(snapshot, "ref") == Str(expected.alias) && Get(snapshot, "sha") == Str(expected.sha)
  }

  predicate SnapshotUsable(snapshot: Json) {
    Get(snapshot, "provisioned") in PROVISIONED && Get(snapshot, "workspace").Str?
  }

  predicate ComparisonMatches(content: Json, expected: map<string, Json>) {
    content.Obj? && forall k | k in COMPARED :: k in expected ==> Get(content, k) == expected[k]
  }

  function ComparisonOf(base: Json, head: Json, content: Json): Json {
    Obj(map[
      "base_ref" := Get(base, "ref"), "head_ref" := Get(head, "ref"),
      "base_backend" := Get(content, "base_backend"), "head_backend" := Get(content, "head_backend"),
      "base_provisioned" := Get(base, "provisioned"), "head_provisioned" := Get(head, "provisioned"),
      "content_comparison" := Obj(map["status" := Get(content, "status"), "reason" := Get(content, "reason")])])
  }

  /** `parse_raw_response`: the first failing check names the reason. */
  function ParseRaw(decode: string -> Option<Json>, item: Contract, response: Json): Observation {
    var raw := AsObject(decode, response);
    if raw.None? || Get(raw.value, "success") != Bool(true) || !Get(raw.value, "data").Obj?
        then Invalid("raw_response_invalid")
    else
      var data := Get(raw.value, "data");
      var base, head, diff := Get(data, "base"), Get(data, "head"), Get(data, "diff");
      var content := Get(diff, "content_comparison");
      if !RefMatches(base, item.base) then Invalid("base_ref_or_sha_mismatch")
      else if !SnapshotUsable(base) then Invalid("base_snapshot_invalid")
      else if !RefMatches(head, item.head) then Invalid("head_ref_or_sha_mismatch")
      else if !SnapshotUsable(head) then Invalid("head_snapshot_invalid")
      else if !ComparisonMatches(content, item.expected) then Invalid("content_comparison_mismatch")
      else Valid(ComparisonOf(base, head, content), diff)
  }

  /** The contract fixes every field a comparison is checked on. */
  predicate FixesAll(item: Contract) {
    forall k :: k in COMPARED ==> k in item.expected
  }

  function Expected(item: Contract, field: string): Json {
    Get(Obj(item.expected), field)
  }

  /** What a valid observation reports is what the contract froze: its references, its backends and its comparison. */
  lemma ValidReportsTheContract(decode: string -> Option<Json>, item: Contract, response: Json)
    requires ParseRaw(decode, item, response).Valid? && FixesAll(item)
    ensures var seen := ParseRaw(decode, item, response);
            && seen.diff.Obj?
            && Get(seen.comparison, "base_ref") == Str(item.base.alias)
            && Get(seen.comparison, "head_ref") == Str(item.head.alias)
            && Get(seen.comparison, "base_backend") == Expected(item, "base_backend")
            && Get(seen.comparison, "head_backend") == Expected(item, "head_backend")
            && Get(seen.comparison, "base_provisioned") in PROVISIONED
            && Get(seen.comparison, "head_provisioned") in PROVISIONED
            && Get(Get(seen.comparison, "content_comparison"), "status") == Expected(item, "status")
            && Get(Get(seen.comparison, "content_comparison"), "reason") == Expected(item, "reason")
  {
    hide ParseRaw, Get, ComparisonOf, ComparisonMatches, FixesAll, Expected, PROVISIONED;
    var base, head, diff, content := ValidParts(decode, item, response);
    SnapshotFields(base, head, content);
    ContentFields(base, head, content);
    ExpectedFields(content, item);
    DiffIsObject(diff);
  }

  lemma ExpectedFields(content: Json, item: Contract)
    requires ComparisonMatches(content, item.expected) && FixesAll(item)
    ensures content.Obj?
    ensures Get(content, "status") == Expected(item, "status") && Get(content, "reason") == Expected(item, "reason")
    ensures Get(content, "base_backend") == Expected(item, "base_backend")
    ensures Get(content, "head_backend") == Expected(item, "head_backend")
  {
    assert COMPARED[2] in COMPARED && COMPARED[3] in COMPARED && COMPARED[4] in COMPARED && COMPARED[5] in COMPARED;
  }

  /** The parts a valid observation was read from, with the checks they passed. */
  lemma ValidParts(decode: string -> Option<Json>, item: Contract, response: Json)
    returns (base: Json, head: Json, diff: Json, content: Json)
    requires ParseRaw(decode, item, response).Valid?
    ensures ParseRaw(decode, item, response) == Valid(ComparisonOf(base, head, content), diff)
    ensures RefMatches(base, item.base) && SnapshotUsable(base) && RefMatches(head, item.head) && SnapshotUsable(head)
    ensures content == Get(diff, "content_comparison") && ComparisonMatches(content, item.expected)
  {
    hide Get, AsObject, ComparisonOf, ComparisonMatches, RefMatches, SnapshotUsable;
    var data := Get(AsObject(decode, response).value, "data");
    base, head, diff := Get(data, "base"), Get(data, "head"), Get(data, "diff");
    content := Get(diff, "content_comparison");
  }

  lemma DiffIsObject(diff: Json)
    ensures Get(diff, "content_comparison").Obj? ==> diff.Obj?
  {
  }

  lemma SnapshotFields(base: Json, head: Json, content: Json)
    ensures var c := ComparisonOf(base, head, content);
            && Get(c, "base_ref") == Get(base, "ref") && Get(c, "head_ref") == Get(head, "ref")
            && Get(c, "base_provisioned") == Get(base, "provisioned")
            && Get(c, "head_provisioned") == Get(head, "provisioned")
  {
    var c := ComparisonOf(base, head, content);
    LaterKeys();
    assert c.fields["base_ref"] == Get(base, "ref");
    assert c.fields["head_ref"] == Get(head, "ref");
    assert c.fields["base_provisioned"] == Get(base, "provisioned");
    assert c.fields["head_provisioned"] == Get(head, "provisioned");
  }

  lemma ContentFields(base: Json, head: Json, content: Json)
    ensures var c := ComparisonOf(base, head, content);
            && Get(c, "base_backend") == Get(content, "base_backend")
            && Get(c, "head_backend") == Get(content, "head_backend")
            && Get(Get(c, "content_comparison"), "status") == Get(content, "status")
            && Get(Get(c, "content_comparison"), "reason") == Get(content, "reason")
  {
    var c := ComparisonOf(base, head, content);
    LaterKeys();
    assert c.fields["base_backend"] == Get(content, "base_backend");
    assert c.fields["head_backend"] == Get(content, "head_backend");
    assert "status"[0] == 's' && "reason"[0] == 'r';
  }

  /** No field of a comparison is overwritten by a later one. */
  lemma LaterKeys()
    ensures "base_ref" !in {"head_ref", "base_backend", "head_backend", "base_provisioned", "head_provisioned",
        "content_comparison"}
    ensures "head_ref" !in {"base_backend", "head_backend", "base_provisioned", "head_provisioned",
        "content_comparison"}
    ensures "base_backend" !in {"head_backend", "base_provisioned", "head_provisioned", "content_comparison"}
    ensures "head_backend" !in {"base_provisioned", "head_provisioned", "content_comparison"}
    ensures "base_provisioned" !in {"head_provisioned", "content_comparison"}
    ensures "head_provisioned" != "content_comparison"
  {
    assert |"base_ref"| == 8 && |"head_ref"| == 8 && "base_ref"[0] == 'b' && "head_ref"[0] == 'h';
    assert |"base_backend"| == 12 && |"head_backend"| == 12 && "base_backend"[0] == 'b' && "head_backend"[0] == 'h';
    assert |"base_provisioned"| == 16 && |"head_provisioned"| == 16 && "base_provisioned"[0] == 'b'
        && "head_provisioned"[0] == 'h';
    assert |"content_comparison"| == 18;
  }

  // ---------------------------------------------------------------- validity read off the response's fields

  /** Both references of one side are the contract's, its state is a known one and its workspace is text. */
  predicate FrozenRef(data: map<string, Json>, side: string, frozen: Ref) {
    side in data && HasField(data[side], "ref", Str(frozen.alias)) && HasField(data[side], "sha", Str(frozen.sha))
  }

  predicate Provisioned(data: map<string, Json>, side: string) {
    && side in data
    && (HasField(data[side], "provisioned", Str("created")) || HasField(data[side], "provisioned", Str("reused"))
        || HasField(data[side], "provisioned", Str("rebuilt")))
    && "workspace" in data[side].fields && data[side].fields["workspace"].Str?
  }

  /** A field a comparison may leave out reads as null. */
  predicate Reports(content: map<string, Json>, key: string, expected: Json) {
    if key in content then content[key] == expected else expected == Null
  }

  predicate FrozenComparison(data: map<string, Json>, expected: map<string, Json>)
    requires {"version", "scope", "status", "reason", "base_backend", "head_backend"} <= expected.Keys
  {
    && "diff" in data && data["diff"].Obj?
    && "content_comparison" in data["diff"].fields && data["diff"].fields["content_comparison"].Obj?
    && var content := data["diff"].fields["content_comparison"].fields;
    && Reports(content, "version", expected["version"]) && Reports(content, "scope", expected["scope"])
    && Reports(content, "status", expected["status"]) && Reports(content, "reason", expected["reason"])
    && Reports(content, "base_backend", expected["base_backend"])
    && Reports(content, "head_backend", expected["head_backend"])
  }

  /** `raw` is what the response is, or what its text decodes to. */
  predicate Decodes(decode: string -> Option<Json>, response: Json, raw: map<string, Json>) {
    response == Obj(raw) || (response.Str? && decode(response.s) == Some(Obj(raw)))
  }

  lemma FrozenRefIs(data: map<string, Json>, side: string, frozen: Ref)
    ensures RefMatches(Get(Obj(data), side), frozen) <==> FrozenRef(data, side, frozen)
  {
  }

  lemma ProvisionedIs(data: map<string, Json>, side: string)
    ensures SnapshotUsable(Get(Obj(data), side)) <==> Provisioned(data, side)
  {
  }

  lemma ReportsIs(content: map<string, Json>, key: string, expected: Json)
    ensures Get(Obj(content), key) == expected <==> Reports(content, key, expected)
  {
  }

  lemma ComparedNames(key: string)
    ensures key in COMPARED <==> key in {"version", "scope", "status", "reason", "base_backend", "head_backend"}
  {
    var c := COMPARED;
    assert |c| == 6 && c[0] == "version" && c[1] == "scope" && c[2] == "status" && c[3] == "reason";
    assert c[4] == "base_backend" && c[5] == "head_backend";
  }

  lemma SixCompared(content: Json, expected: map<string, Json>)
    requires {"version", "scope", "status", "reason", "base_backend", "head_backend"} <= expected.Keys
    ensures ComparisonMatches(content, expected) <==>
      (content.Obj? && Get(content, "version") == expected["version"] && Get(content, "scope") == expected["scope"]
       && Get(content, "status") == expected["status"] && Get(content, "reason") == expected["reason"]
       && Get(content, "base_backend") == expected["base_backend"]
       && Get(content, "head_backend") == expected["head_backend"])
  {
    forall key ensures key in COMPARED <==>
      key in {"version", "scope", "status", "reason", "base_backend", "head_backend"}
    {
      ComparedNames(key);
    }
    hide COMPARED, Get;
    assert "version" in COMPARED && "scope" in COMPARED && "status" in COMPARED && "reason" in COMPARED
        && "base_backend" in COMPARED && "head_backend" in COMPARED;
  }

  lemma FrozenComparisonIs(data: map<string, Json>, expected: map<string, Json>)
    requires {"version", "scope", "status", "reason", "base_backend", "head_backend"} <= expected.Keys
    ensures ComparisonMatches(Get(Get(Obj(data), "diff"), "content_comparison"), expected)
       <==> FrozenComparison(data, expected)
  {
    var content := Get(Get(Obj(data), "diff"), "content_comparison");
    SixCompared(content, expected);
    if content.Obj? {
      ReportsIs(content.fields, "version", expected["version"]);
      ReportsIs(content.fields, "scope", expected["scope"]);
      ReportsIs(content.fields, "status", expected["status"]);
      ReportsIs(content.fields, "reason", expected["reason"]);
      ReportsIs(content.fields, "base_backend", expected["base_backend"]);
      ReportsIs(content.fields, "head_backend", expected["head_backend"]);
    }
    hide COMPARED, Reports, ComparisonMatches;
  }

  /** When a response is valid, on its decoded fields: success, the two frozen commits by alias and sha, known states
      and workspaces, and the six frozen comparison fields. The first group that fails names the reason, and a valid
      observation reports the diff as it came. */
  lemma ValidIff(decode: string -> Option<Json>, item: Contract, response: Json, raw: map<string, Json>)
    requires {"version", "scope", "status", "reason", "base_backend", "head_backend"} <= item.expected.Keys
    requires Decodes(decode, response, raw)
    ensures var seen := ParseRaw(decode, item, response);
      if !(HasField(Obj(raw), "success", Bool(true)) && "data" in raw && raw["data"].Obj?) then
        seen == Invalid("raw_response_invalid")
      else
        var data := raw["data"].fields;
        if !FrozenRef(data, "base", item.base) then seen == Invalid("base_ref_or_sha_mismatch")
        else if !Provisioned(data, "base") then seen == Invalid("base_snapshot_invalid")
        else if !FrozenRef(data, "head", item.head) then seen == Invalid("head_ref_or_sha_mismatch")
        else if !Provisioned(data, "head") then seen == Invalid("head_snapshot_invalid")
        else if !FrozenComparison(data, item.expected) then seen == Invalid("content_comparison_mismatch")
        else seen.Valid? && seen.diff == data["diff"]
  {
    assert AsObject(decode, response) == Some(Obj(raw));
    if "data" in raw && raw["data"].Obj? {
      var data := raw["data"].fields;
      assert Get(Obj(raw), "data") == Obj(data);
      FrozenRefIs(data, "base", item.base);
      FrozenRefIs(data, "head", item.head);
      ProvisionedIs(data, "base");
      ProvisionedIs(data, "head");
      FrozenComparisonIs(data, item.expected);
      hide RefMatches, SnapshotUsable, ComparisonMatches, FrozenRef, Provisioned, ComparisonOf;
    }
  }

  /** A response that is no object and no text of one is invalid. */
  lemma UndecodableIsInvalid(decode: string -> Option<Json>, item: Contract, response: Json)
    requires forall raw :: !Decodes(decode, response, raw)
    ensures ParseRaw(decode, item, response) == Invalid("raw_response_invalid")
  {
    if AsObject(decode, response).Some? { assert Decodes(decode, response, AsObject(decode, response).value.fields); }
  }
}
