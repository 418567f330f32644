/** Rebuilding a cell from its retained event stream: which tool calls were made, what every branch-diff
    call returned, which answer was final, and which response the answer may rely on. */
module Stream {
  import opened Common
  import opened Grouping
  import opened Json
  import opened RawResponse

  const BRANCH_DIFF := "mcp__loomgraph__loomgraph_branch_diff"
  const MCP_PREFIX := "mcp__"

  /** One response of the branch-diff tool. */
  datatype Row = Row(eventIndex: nat, toolUseId: string, response: Json, sha: string, observation: Observation)

  /** JSON decoding, hashing and response validation, as the auditor sees them. */
  datatype Reader = Reader(decode: string -> Option<Json>, sha: string -> string, observe: Json -> Observation)

  /** The auditor's three accumulators. */
  datatype State = State(toolById: map<string, string>, toolNames: seq<string>, raw: seq<Row>)

  const Start := State(map[], [], [])

  // ---------------------------------------------------------------- one item

  /** The content items of an event; none when the event carries no message list. */
  function Items(event: Json): seq<Json> {
    var contents := Get(Get(event, "message"), "content");
    if contents.List? then contents.items else []
  }

  datatype Binding = Binding(id: string, name: string)

  /** A tool use with a text id and a text name. */
  function BindingOf(item: Json): Option<Binding> {
    if Get(item, "type") == Str("tool_use") && Get(item, "id").Str? && Get(item, "name").Str?
    then Some(Binding(Get(item, "id").s, Get(item, "name").s)) else None
  }

  /** The call a tool result answers. */
  function AnsweredId(item: Json): Option<string> {
    if Get(item, "type") == Str("tool_result") && Get(item, "tool_use_id").Str?
    then Some(Get(item, "tool_use_id").s) else None
  }

  function TextOf(part: Json): Option<string> {
    var text := if part.Obj? then Get(part, "text") else part;
    if text.Str? then Some(text.s) else None
  }

  function RowOf(reader: Reader, index: nat, id: string, text: string): Row {
    var decoded := reader.decode(text);
    var response := if decoded.Some? then decoded.value else Null;
    Row(index, id, response, reader.sha(text), reader.observe(response))
  }

  function PartRows(reader: Reader, index: nat, id: string, parts: seq<Json>): seq<Row> {
    if parts == [] then []
    else
      var n := |parts| - 1;
      var text := TextOf(parts[n]);
      PartRows(reader, index, id, parts[..n]) + (if text.Some? then [RowOf(reader, index, id, text.value)] else [])
  }

  /** The text parts of a result, whether its content is a list or a single value. */
  function Parts(item: Json): seq<Json> {
    var content := Get(item, "content");
    if content.List? then content.items else [content]
  }

  function Bind(st: State, b: Binding): State {
    st.(toolById := st.toolById[b.id := b.name], toolNames := st.toolNames + [b.name])
  }

  function Step(reader: Reader, st: State, index: nat, item: Json): State {
    var b, id := BindingOf(item), AnsweredId(item);
    if b.Some? then Bind(st, b.value)
    else if id.Some? && id.value in st.toolById && st.toolById[id.value] == BRANCH_DIFF
    then st.(raw := st.raw + PartRows(reader, index, id.value, Parts(item)))
    else st
  }

  // ---------------------------------------------------------------- the whole stream

  /** An item together with the index of its event. */
  datatype Placed = Placed(index: nat, item: Json)

  function Place(index: nat, items: seq<Json>): (r: seq<Placed>)
    ensures |r| == |items|
  {
    seq(|items|, i requires 0 <= i < |items| => Placed(index, items[i]))
  }

  /** All items of a stretch of the stream whose first event has index `first`. */
  function Flat(first: nat, events: seq<Json>): seq<Placed> {
    if events == [] then []
    else
      var n := |events| - 1;
      Flat(first, events[..n]) + Place(first + n, Items(events[n]))
  }

  function RunFrom(reader: Reader, st: State, placed: seq<Placed>): State {
    if placed == [] then st
    else
      var n := |placed| - 1;
      Step(reader, RunFrom(reader, st, placed[..n]), placed[n].index, placed[n].item)
  }

  function Replay(reader: Reader, events: seq<Json>): State {
    RunFrom(reader, Start, Flat(0, events))
  }

  lemma RunAppend(reader: Reader, st: State, placed: seq<Placed>, p: Placed)
    ensures RunFrom(reader, st, placed + [p]) == Step(reader, RunFrom(reader, st, placed), p.index, p.item)
  {
    assert (placed + [p])[..|placed|] == placed;
  }

  lemma PlaceStep(before: seq<Placed>, index: nat, items: seq<Json>, j: nat)
    requires j < |items|
    ensures before + Place(index, items[..j + 1]) == before + Place(index, items[..j]) + [Placed(index, items[j])]
  {
    assert Place(index, items[..j + 1]) == Place(index, items[..j]) + [Placed(index, items[j])];
  }

  /** `_raw_branch_diff`: the nested loops over events, items and text parts. */
  method RawBranchDiff(reader: Reader, events: seq<Json>) returns (raw: seq<Row>, toolNames: seq<string>)
    ensures raw == Replay(reader, events).raw
    ensures toolNames == Replay(reader, events).toolNames
  {
    hide Step;
    var toolById: map<string, string> := map[];
    toolNames, raw := [], [];
    for i := 0 to |events|
      invariant State(toolById, toolNames, raw) == RunFrom(reader, Start, Flat(0, events[..i]))
    {
      var items := Items(events[i]);
      ghost var before := Flat(0, events[..i]);
      assert before + Place(i, items[..0]) == before;
      for j := 0 to |items|
        invariant State(toolById, toolNames, raw) == RunFrom(reader, Start, before + Place(i, items[..j]))
      {
        PlaceStep(before, i, items, j);
        RunAppend(reader, Start, before + Place(i, items[..j]), Placed(i, items[j]));
        toolById, toolNames, raw := ReadItem(reader, toolById, toolNames, raw, i, items[j]);
      }
      assert items[..|items|] == items && events[..i + 1][..i] == events[..i];
    }
    assert events[..|events|] == events;
  }

  method ReadItem(reader: Reader, toolById: map<string, string>, toolNames: seq<string>, raw: seq<Row>, index: nat,
      item: Json)
    returns (toolById': map<string, string>, toolNames': seq<string>, raw': seq<Row>)
    ensures State(toolById', toolNames', raw') == Step(reader, State(toolById, toolNames, raw), index, item)
  {
    toolById', toolNames', raw' := toolById, toolNames, raw;
    if !item.Obj? { return; }
    if Get(item, "type") == Str("tool_use") && Get(item, "id").Str? {
      var name := Get(item, "name");
      if name.Str? {
        toolById' := toolById'[Get(item, "id").s := name.s];
        toolNames' := toolNames' + [name.s];
      }
    }
    var id := Get(item, "tool_use_id");
    if Get(item, "type") != Str("tool_result") || !id.Str? || id.s !in toolById' || toolById'[id.s] != BRANCH_DIFF {
      return;
    }
    var content := Get(item, "content");
    var values := if content.List? then content.items else [content];
    for k := 0 to |values|
      invariant raw' == raw + PartRows(reader, index, id.s, values[..k])
    {
      assert values[..k + 1][..k] == values[..k];
      var text := if values[k].Obj? then Get(values[k], "text") else values[k];
      if !text.Str? {
        continue;
      }
      raw' := raw' + [RowOf(reader, index, id.s, text.s)];
    }
    assert values[..|values|] == values;
  }

  // ---------------------------------------------------------------- resuming a replay

  lemma {:induction false} RunConcat(reader: Reader, st: State, a: seq<Placed>, b: seq<Placed>)
    ensures RunFrom(reader, st, a + b) == RunFrom(reader, RunFrom(reader, st, a), b)
  {
    if b == [] {
      assert a + b == a;
    } else {
      var n := |b| - 1;
      assert a + b == (a + b[..n]) + [b[n]];
      RunAppend(reader, st, a + b[..n], b[n]);
      RunConcat(reader, st, a, b[..n]);
    }
  }

  lemma {:induction false} FlatConcat(first: nat, a: seq<Json>, b: seq<Json>)
    ensures Flat(first, a + b) == Flat(first, a) + Flat(first + |a|, b)
  {
    hide Place, Items;
    if b == [] {
      assert a + b == a;
    } else {
      var n := |b| - 1;
      assert (a + b)[..|a + b| - 1] == a + b[..n];
      FlatConcat(first, a, b[..n]);
    }
  }

  /** Replaying a stream in two stretches, carrying the state and the event count over, is replaying it whole. */
  lemma ReplayResumes(reader: Reader, a: seq<Json>, b: seq<Json>)
    ensures Replay(reader, a + b) == RunFrom(reader, Replay(reader, a), Flat(|a|, b))
  {
    hide Step, Flat;
    FlatConcat(0, a, b);
    RunConcat(reader, Start, Flat(0, a), Flat(|a|, b));
  }

  // ---------------------------------------------------------------- what the replay means

  /** At position `p` the most recent tool use with this id is the one that named `name`. */
  ghost predicate BoundBefore(placed: seq<Placed>, p: nat, id: string, name: string)
    requires p <= |placed|
  {
    exists q :: 0 <= q < p && BindingOf(placed[q].item) == Some(Binding(id, name)) && Unbound(placed, q, p, id)
  }

  /** No tool use strictly between `after` and `to` reuses this id. */
  ghost predicate Unbound(placed: seq<Placed>, after: nat, to: nat, id: string)
    requires to <= |placed|
  {
    forall r :: after < r < to ==> BindingOf(placed[r].item).None? || BindingOf(placed[r].item).value.id != id
  }

  /** The rows position `p` contributes: the text parts of a result whose call is, by its latest binding,
      a branch-diff call. */
  ghost function RowsAt(reader: Reader, placed: seq<Placed>, p: nat): seq<Row>
    requires p < |placed|
  {
    var id := AnsweredId(placed[p].item);
    if id.Some? && BoundBefore(placed, p, id.value, BRANCH_DIFF)
    then PartRows(reader, placed[p].index, id.value, Parts(placed[p].item)) else []
  }

  ghost function DeclaredRows(reader: Reader, placed: seq<Placed>, n: nat): seq<Row>
    requires n <= |placed|
  {
    if n == 0 then [] else DeclaredRows(reader, placed, n - 1) + RowsAt(reader, placed, n - 1)
  }

  function DeclaredNames(placed: seq<Placed>): seq<string> {
    if placed == [] then []
    else
      var b := BindingOf(placed[|placed| - 1].item);
      DeclaredNames(placed[..|placed| - 1]) + (if b.Some? then [b.value.name] else [])
  }

  lemma BoundStep(placed: seq<Placed>, p: nat, id: string, name: string)
    requires p < |placed|
    ensures BoundBefore(placed, p + 1, id, name) <==>
            var b := BindingOf(placed[p].item);
            if b.Some? && b.value.id == id then b.value.name == name else BoundBefore(placed, p, id, name)
  {
    var b := BindingOf(placed[p].item);
    if b.Some? && b.value.id == id {
      if b.value.name == name {
        assert b == Some(Binding(id, name)) && Unbound(placed, p, p + 1, id);
      }
    } else {
      forall q | 0 <= q < p ensures Unbound(placed, q, p + 1, id) <==> Unbound(placed, q, p, id) {
      }
    }
  }

  /** The id table after `p` items holds, for every id, its latest binding and nothing else. */
  ghost predicate TableIsLatest(table: map<string, string>, placed: seq<Placed>, p: nat)
    requires p <= |placed|
  {
    forall id, name :: (id in table && table[id] == name) <==> BoundBefore(placed, p, id, name)
  }

  lemma TableStep(reader: Reader, st: State, placed: seq<Placed>, p: nat)
    requires p < |placed| && TableIsLatest(st.toolById, placed, p)
    ensures TableIsLatest(Step(reader, st, placed[p].index, placed[p].item).toolById, placed, p + 1)
  {
    hide PartRows, Parts, BoundBefore, BindingOf, AnsweredId;
    var table, next := Step(reader, st, placed[p].index, placed[p].item).toolById, p + 1;
    forall id, name ensures (id in table && table[id] == name) <==> BoundBefore(placed, next, id, name) {
      BoundStep(placed, p, id, name);
    }
  }

  lemma RowsStep(reader: Reader, st: State, placed: seq<Placed>, p: nat)
    requires p < |placed| && TableIsLatest(st.toolById, placed, p)
    ensures Step(reader, st, placed[p].index, placed[p].item).raw == st.raw + RowsAt(reader, placed, p)
  {
    hide PartRows, Parts, BoundBefore;
    assert BindingOf(placed[p].item).Some? ==> AnsweredId(placed[p].item).None?;
    assert st.raw + [] == st.raw;
  }

  lemma {:induction false} ReplayPrefix(reader: Reader, placed: seq<Placed>, p: nat)
    requires p <= |placed|
    ensures var st := RunFrom(reader, Start, placed[..p]);
            && TableIsLatest(st.toolById, placed, p)
            && st.raw == DeclaredRows(reader, placed, p)
            && st.toolNames == DeclaredNames(placed[..p])
  {
    hide PartRows, Parts, RowsAt, TableIsLatest;
    if p > 0 {
      var st := RunFrom(reader, Start, placed[..p - 1]);
      ReplayPrefix(reader, placed, p - 1);
      assert placed[..p][..p - 1] == placed[..p - 1];
      TableStep(reader, st, placed, p - 1);
      RowsStep(reader, st, placed, p - 1);
    } else {
      TableAtStart(placed);
    }
  }

  lemma TableAtStart(placed: seq<Placed>)
    ensures TableIsLatest(map[], placed, 0)
  {
  }

  /** Stream replay is sound and complete: the rows are, in stream order, exactly the text parts of results
      whose call's latest earlier binding is the branch-diff tool, and the names are exactly the named uses. */
  lemma ReplayIsDeclared(reader: Reader, events: seq<Json>)
    ensures var placed := Flat(0, events);
            && Replay(reader, events).raw == DeclaredRows(reader, placed, |placed|)
            && Replay(reader, events).toolNames == DeclaredNames(placed)
  {
    var placed := Flat(0, events);
    ReplayPrefix(reader, placed, |placed|);
    assert placed[..|placed|] == placed;
  }

  // ---------------------------------------------------------------- the replay read off the stream's fields

  /** An event whose message holds exactly these items. */
  predicate Carries(event: Json, items: seq<Json>) {
    event.Obj? && "message" in event.fields && HasField(event.fields["message"], "content", List(items))
  }

  predicate Uses(item: Json, id: string, name: string) {
    HasField(item, "type", Str("tool_use")) && HasField(item, "id", Str(id)) && HasField(item, "name", Str(name))
  }

  predicate Answers(item: Json, id: string) {
    HasField(item, "type", Str("tool_result")) && HasField(item, "tool_use_id", Str(id))
  }

  /** No item from position `after` on uses `id`. */
  ghost predicate Unused(placed: seq<Placed>, after: nat, id: string) {
    forall r, name :: after <= r < |placed| ==> !Uses(placed[r].item, id, name)
  }

  /** The latest use of `id` is a use of the tool `name`. */
  ghost predicate Calls(placed: seq<Placed>, id: string, name: string) {
    exists q :: 0 <= q < |placed| && Uses(placed[q].item, id, name) && Unused(placed, q + 1, id)
  }

  lemma UsesIsBinding(item: Json, id: string, name: string)
    ensures BindingOf(item) == Some(Binding(id, name)) <==> Uses(item, id, name)
    ensures BindingOf(item).Some? ==> Uses(item, BindingOf(item).value.id, BindingOf(item).value.name)
    ensures BindingOf(item).Some? ==> AnsweredId(item).None?
  {
    assert |"tool_use"| == 8 && |"tool_result"| == 11;
  }

  lemma AnswersIsId(item: Json, id: string)
    ensures AnsweredId(item) == Some(id) <==> Answers(item, id)
    ensures AnsweredId(item).Some? ==> Answers(item, AnsweredId(item).value)
  {
  }

  lemma UnusedIsUnbound(placed: seq<Placed>, q: nat, id: string)
    requires q < |placed|
    ensures Unbound(placed, q, |placed|, id) <==> Unused(placed, q + 1, id)
  {
    hide BindingOf, Uses;
    forall r | q < r < |placed|
      ensures (BindingOf(placed[r].item).None? || BindingOf(placed[r].item).value.id != id)
         <==> forall name :: !Uses(placed[r].item, id, name)
    {
      NoUse(placed[r].item, id);
    }
  }

  lemma NoUse(item: Json, id: string)
    ensures (BindingOf(item).None? || BindingOf(item).value.id != id) <==> forall name :: !Uses(item, id, name)
  {
    hide BindingOf, Uses;
    forall name ensures BindingOf(item) == Some(Binding(id, name)) <==> Uses(item, id, name) {
      UsesIsBinding(item, id, name);
    }
    UsesIsBinding(item, id, "");
  }

  lemma CallsIsBound(placed: seq<Placed>, id: string, name: string)
    ensures BoundBefore(placed, |placed|, id, name) <==> Calls(placed, id, name)
  {
    hide BindingOf, Uses, Unused, Unbound;
    forall q | 0 <= q < |placed|
      ensures BindingOf(placed[q].item) == Some(Binding(id, name)) <==> Uses(placed[q].item, id, name)
      ensures Unbound(placed, q, |placed|, id) <==> Unused(placed, q + 1, id)
    {
      UsesIsBinding(placed[q].item, id, name);
      UnusedIsUnbound(placed, q, id);
    }
  }

  /** How a stream is laid out: an event that carries a list of items adds each of them under its own index, and an
      event without such a list adds nothing. */
  lemma FlatIs(events: seq<Json>, event: Json, items: seq<Json>)
    ensures Flat(0, []) == []
    ensures Carries(event, items) ==> Flat(0, events + [event]) == Flat(0, events) + Place(|events|, items)
    ensures |Place(|events|, items)| == |items|
    ensures forall k :: 0 <= k < |items| ==> Place(|events|, items)[k] == Placed(|events|, items[k])
    ensures (forall xs :: !Carries(event, xs)) ==> Flat(0, events + [event]) == Flat(0, events)
  {
    assert (events + [event])[..|events|] == events;
    if Items(event) != [] {
      assert Carries(event, Items(event));
    }
    assert Carries(event, items) ==> Items(event) == items;
    assert Flat(0, events) + [] == Flat(0, events);
  }

  /** One more item in the last event is one more step. */
  lemma OneMoreItem(reader: Reader, events: seq<Json>, before: Json, event: Json, items: seq<Json>, item: Json)
    requires Carries(before, items) && Carries(event, items + [item])
    ensures Replay(reader, events + [event]) == Step(reader, Replay(reader, events + [before]), |events|, item)
    ensures Flat(0, events + [event]) == Flat(0, events + [before]) + [Placed(|events|, item)]
  {
    hide Step, RunFrom, Flat, Carries;
    OneMorePlace(events, before, event, items, item);
    RunAppend(reader, Start, Flat(0, events + [before]), Placed(|events|, item));
  }

  lemma OneMorePlace(events: seq<Json>, before: Json, event: Json, items: seq<Json>, item: Json)
    requires Carries(before, items) && Carries(event, items + [item])
    ensures Flat(0, events + [event]) == Flat(0, events + [before]) + [Placed(|events|, item)]
  {
    hide Flat;
    FlatIs(events, before, items);
    FlatIs(events, event, items + [item]);
    hide Carries;
    var earlier, last := Place(|events|, items), [Placed(|events|, item)];
    assert Place(|events|, items + [item]) == earlier + last;
    assert Flat(0, events) + earlier + last == Flat(0, events) + (earlier + last);
  }

  /** A named tool use is recorded under its name and adds no response. */
  lemma UseIsRecorded(reader: Reader, events: seq<Json>, before: Json, event: Json, items: seq<Json>, item: Json,
      id: string, name: string)
    requires Carries(before, items) && Carries(event, items + [item]) && Uses(item, id, name)
    ensures var st, next := Replay(reader, events + [before]), Replay(reader, events + [event]);
            next.toolNames == st.toolNames + [name] && next.raw == st.raw
  {
    OneMoreItem(reader, events, before, event, items, item);
    UsesIsBinding(item, id, name);
  }

  predicate HasText(part: Json) {
    part.Str? || (part.Obj? && "text" in part.fields && part.fields["text"].Str?)
  }

  function TextIn(part: Json): string
    requires HasText(part)
  {
    if part.Str? then part.s else part.fields["text"].s
  }

  /** A response read from the text `t`, with every field. */
  predicate ReadFrom(reader: Reader, row: Row, index: nat, id: string, t: string) {
    var decoded := reader.decode(t);
    && row.eventIndex == index && row.toolUseId == id && row.sha == reader.sha(t)
    && row.response == (if decoded.Some? then decoded.value else Null)
    && row.observation == reader.observe(row.response)
  }

  /** The rows added are read, in order, from the text parts at the positions `at`, and these are all there are. */
  ghost predicate ReadInOrder(reader: Reader, rows: seq<Row>, index: nat, id: string, parts: seq<Json>, at: seq<nat>) {
    && |rows| == |at|
    && (forall j, k :: 0 <= j < k < |at| ==> at[j] < at[k])
    && (forall j :: 0 <= j < |at| ==>
          at[j] < |parts| && HasText(parts[at[j]]) && ReadFrom(reader, rows[j], index, id, TextIn(parts[at[j]])))
    && (forall k :: 0 <= k < |parts| && HasText(parts[k]) ==> k in at)
  }

  lemma {:induction false} PartRowsInOrder(reader: Reader, index: nat, id: string,
      parts: seq<Json>) returns (at: seq<nat>)
    ensures ReadInOrder(reader, PartRows(reader, index, id, parts), index, id, parts, at)
  {
    at := [];
    if parts != [] {
      var n := |parts| - 1;
      at := PartRowsInOrder(reader, index, id, parts[..n]);
      assert forall k :: 0 <= k < n ==> parts[..n][k] == parts[k];
      if HasText(parts[n]) {
        ghost var before := at;
        at := at + [n];
        assert at[|before|] == n && forall k :: k in before ==> k in at;
      }
    }
  }

  /** A result whose call is, by the latest use of its id, a branch-diff call, read off its fields: one text gives one
      response, a list gives one for each of its text parts in order, and anything else none. */
  lemma ResultIsRead(reader: Reader, events: seq<Json>, before: Json, event: Json, items: seq<Json>, item: Json,
      id: string)
    returns (rows: seq<Row>, at: seq<nat>)
    requires Carries(before, items) && Carries(event, items + [item]) && Answers(item, id)
    requires Calls(Flat(0, events + [before]), id, "mcp__loomgraph__loomgraph_branch_diff")
    ensures var st, next := Replay(reader, events + [before]), Replay(reader, events + [event]);
            next.raw == st.raw + rows && next.toolNames == st.toolNames
    ensures var content := if "content" in item.fields then item.fields["content"] else Null;
            && (content.List? ==> ReadInOrder(reader, rows, |events|, id, content.items, at))
            && (!content.List? && HasText(content) ==>
                |rows| == 1 && ReadFrom(reader, rows[0], |events|, id, TextIn(content)))
            && (!content.List? && !HasText(content) ==> rows == [])
  {
    var placed := Flat(0, events + [before]);
    OneMoreItem(reader, events, before, event, items, item);
    AnswersIsId(item, id);
    if BindingOf(item).Some? { UsesIsBinding(item, "", ""); }
    CallsIsBound(placed, id, BRANCH_DIFF);
    ReplayPrefix(reader, placed, |placed|);
    assert placed[..|placed|] == placed;
    var st := Replay(reader, events + [before]);
    assert id in st.toolById && st.toolById[id] == BRANCH_DIFF;
    rows := PartRows(reader, |events|, id, Parts(item));
    hide RunFrom, Flat, BoundBefore, TableIsLatest, Calls;
    at := PartRowsInOrder(reader, |events|, id, Parts(item));
    var content := if "content" in item.fields then item.fields["content"] else Null;
    if !content.List? { OnePart(reader, |events|, id, content); }
  }

  lemma OnePart(reader: Reader, index: nat, id: string, part: Json)
    ensures var rows := PartRows(reader, index, id, [part]);
            if HasText(part) then |rows| == 1 && ReadFrom(reader, rows[0], index, id, TextIn(part)) else rows == []
  {
    assert [part][..0] == [];
  }

  /** Every other item changes nothing: neither a named use, nor an answer to a branch-diff call. */
  lemma OthersAreIgnored(reader: Reader, events: seq<Json>, before: Json, event: Json, items: seq<Json>, item: Json)
    requires Carries(before, items) && Carries(event, items + [item])
    requires forall id, name :: !Uses(item, id, name)
    requires forall id :: Answers(item, id) ==>
               !Calls(Flat(0, events + [before]), id, "mcp__loomgraph__loomgraph_branch_diff")
    ensures Replay(reader, events + [event]) == Replay(reader, events + [before])
  {
    var placed := Flat(0, events + [before]);
    OneMoreItem(reader, events, before, event, items, item);
    UsesIsBinding(item, "", "");
    assert placed[..|placed|] == placed;
    ReplayPrefix(reader, placed, |placed|);
    var answered := AnsweredId(item);
    if answered.Some? {
      AnswersIsId(item, answered.value);
      CallsIsBound(placed, answered.value, BRANCH_DIFF);
    }
    hide RunFrom, Flat, BoundBefore, Calls, Uses, Answers, BindingOf, AnsweredId, PartRows, Parts;
  }

  /** An event without items, or without a list of them, changes nothing. */
  lemma BareEventIsIgnored(reader: Reader, events: seq<Json>, event: Json)
    requires forall items :: Carries(event, items) ==> items == []
    ensures Replay(reader, events + [event]) == Replay(reader, events)
  {
    hide RunFrom, Flat;
    FlatIs(events, event, []);
    assert Flat(0, events + [event]) == Flat(0, events) by {
      if Carries(event, []) { assert Flat(0, events + [event]) == Flat(0, events) + []; }
    }
  }

  // ---------------------------------------------------------------- the final answer

  /** `_payload`: the structured output of an event, or its text result when that decodes to an object. */
  function Payload(decode: string -> Option<Json>, event: Json): Option<Json> {
    var structured, encoded := Get(event, "structured_output"), Get(event, "result");
    if structured.Obj? then Some(structured)
    else if encoded.Str? then
      var decoded := decode(encoded.s);
      if decoded.Some? && decoded.value.Obj? then decoded else None
    else None
  }

  predicate IsFinal(decode: string -> Option<Json>, event: Json) {
    Get(event, "type") == Str("result") && Payload(decode, event).Some?
  }

  /** `i` is the position of the last result event that carries a payload; None when there is none. */
  ghost predicate LastFinal(decode: string -> Option<Json>, events: seq<Json>, i: Option<nat>) {
    match i
    case None => forall j :: 0 <= j < |events| ==> !IsFinal(decode, events[j])
    case Some(k) => k < |events| && IsFinal(decode, events[k])
                    && forall j :: k < j < |events| ==> !IsFinal(decode, events[j])
  }

  /** The position of the last result event with a payload. */
  function FinalIndex(decode: string -> Option<Json>, events: seq<Json>): (i: Option<nat>)
    ensures LastFinal(decode, events, i)
  {
    if events == [] then None
    else if IsFinal(decode, events[|events| - 1]) then Some(|events| - 1)
    else FinalIndex(decode, events[..|events| - 1])
  }

  /** V9's single backward search. */
  method StreamPayload(decode: string -> Option<Json>, events: seq<Json>) returns (payload: Option<Json>,
      index: Option<nat>)
    ensures LastFinal(decode, events, index)
    ensures payload == if index.Some? then Payload(decode, events[index.value]) else None
  {
    var i: nat := |events|;
    while i > 0
      invariant 0 <= i <= |events|
      invariant forall j :: i <= j < |events| ==> !IsFinal(decode, events[j])
    {
      i := i - 1;
      if Get(events[i], "type") == Str("result") {
        var value := Payload(decode, events[i]);
        if value.Some? { return value, Some(i); }
      }
    }
    return None, None;
  }

  /** V7's search for the index, which inspects the event by itself. */
  method FinalIndexV7(decode: string -> Option<Json>, events: seq<Json>) returns (index: Option<nat>)
    ensures LastFinal(decode, events, index)
  {
    var i: nat := |events|;
    while i > 0
      invariant 0 <= i <= |events|
      invariant forall j :: i <= j < |events| ==> !IsFinal(decode, events[j])
    {
      i := i - 1;
      if Get(events[i], "type") != Str("result") {
        continue;
      }
      if Get(events[i], "structured_output").Obj? { return Some(i); }
      var result := Get(events[i], "result");
      if result.Str? {
        var decoded := decode(result.s);
        if decoded.Some? && decoded.value.Obj? { return Some(i); }
      }
    }
    return None;
  }

  /** V7's separate search for the payload. */
  method FinalPayloadV7(decode: string -> Option<Json>, events: seq<Json>) returns (payload: Option<Json>)
    ensures exists index: Option<nat> :: LastFinal(decode, events, index)
                            && payload == if index.Some? then Payload(decode, events[index.value]) else None
  {
    var i: nat := |events|;
    while i > 0
      invariant 0 <= i <= |events|
      invariant forall j :: i <= j < |events| ==> !IsFinal(decode, events[j])
    {
      i := i - 1;
      if Get(events[i], "type") != Str("result") {
        continue;
      }
      payload := Payload(decode, events[i]);
      if payload.Some? {
        assert LastFinal(decode, events, Some(i));
        return;
      }
    }
    assert LastFinal(decode, events, None);
    return None;
  }

  lemma LastFinalUnique(decode: string -> Option<Json>, events: seq<Json>, a: Option<nat>, b: Option<nat>)
    requires LastFinal(decode, events, a) && LastFinal(decode, events, b)
    ensures a == b
  {
  }

  /** The fused search returns exactly what the two separate searches return. */
  method FusedSearchAgrees(decode: string -> Option<Json>, events: seq<Json>)
    returns (fused: (Option<Json>, Option<nat>), separate: (Option<Json>, Option<nat>))
    ensures fused == separate
    ensures LastFinal(decode, events, fused.1)
  {
    var payload, index := StreamPayload(decode, events);
    var payload7 := FinalPayloadV7(decode, events);
    var index7 := FinalIndexV7(decode, events);
    ghost var at: Option<nat> :|
      LastFinal(decode, events, at) && payload7 == if at.Some? then Payload(decode, events[at.value]) else None;
    LastFinalUnique(decode, events, index, at);
    LastFinalUnique(decode, events, index, index7);
    return (payload, index), (payload7, index7);
  }

  // ---------------------------------------------------------------- trusting a cell

  function BeforeFinal(final: Option<nat>): Row -> bool {
    (row: Row) => final.Some? && row.eventIndex < final.value
  }

  predicate IsValid(row: Row) {
    row.observation.Valid?
  }

  function PreFinal(raw: seq<Row>, final: Option<nat>): seq<Row> {
    Filter(BeforeFinal(final), raw)
  }

  function ValidPreFinal(raw: seq<Row>, final: Option<nat>): seq<Row> {
    Filter(IsValid, PreFinal(raw, final))
  }

  /** The response a treatment answer relies on: the last valid one before the final result. */
  function Selected(c: Condition, raw: seq<Row>, final: Option<nat>): Option<Row> {
    var valid := ValidPreFinal(raw, final);
    if c.Treatment? && valid != [] then Some(valid[|valid| - 1]) else None
  }

  /** A treatment needs responses, all before the final result and all valid; a baseline must have none. */
  predicate RawTraceValid(c: Condition, raw: seq<Row>, final: Option<nat>) {
    if c.Treatment? then
      final.Some? && PreFinal(raw, final) != [] && |PreFinal(raw, final)| == |raw|
      && |ValidPreFinal(raw, final)| == |PreFinal(raw, final)|
    else raw == []
  }

  predicate IsMcp(name: string) {
    StartsWith(name, MCP_PREFIX)
  }

  predicate ForbiddenMcp(name: string) {
    IsMcp(name) && name != BRANCH_DIFF
  }

  predicate ReportsTools(toolNames: seq<string>, reportedCount: Json, reportedNames: Json) {
    && reportedCount == Num(|toolNames| as real)
    && reportedNames == List(seq(|toolNames|, i requires 0 <= i < |toolNames| => Str(toolNames[i])))
  }

  /** The packet reports the rebuilt names, no foreign MCP tool was used, and a baseline used none at all. */
  predicate ToolTraceValid(c: Condition, toolNames: seq<string>, reportedCount: Json, reportedNames: Json) {
    && ReportsTools(toolNames, reportedCount, reportedNames)
    && Filter(ForbiddenMcp, toolNames) == []
    && (c.Treatment? || forall i :: 0 <= i < |toolNames| ==> !IsMcp(toolNames[i]))
  }

  ghost predicate Ascending(raw: seq<Row>) {
    forall i, j :: 0 <= i < j < |raw| ==> raw[i].eventIndex <= raw[j].eventIndex
  }

  ghost predicate PlacedAscending(placed: seq<Placed>, bound: nat) {
    && (forall i, j :: 0 <= i < j < |placed| ==> placed[i].index <= placed[j].index)
    && (forall i :: 0 <= i < |placed| ==> placed[i].index < bound)
  }

  lemma {:induction false} FlatAscending(first: nat, events: seq<Json>)
    ensures PlacedAscending(Flat(first, events), first + |events|)
  {
    if events != [] {
      FlatAscending(first, events[..|events| - 1]);
    }
  }

  lemma {:induction false} PartRowsIndexed(reader: Reader, index: nat, id: string, parts: seq<Json>)
    ensures forall row :: row in PartRows(reader, index, id, parts) ==> row.eventIndex == index && row.toolUseId == id
  {
    if parts != [] {
      PartRowsIndexed(reader, index, id, parts[..|parts| - 1]);
    }
  }

  lemma {:induction false} RowsAscend(reader: Reader, placed: seq<Placed>, bound: nat)
    requires PlacedAscending(placed, bound)
    ensures Ascending(RunFrom(reader, Start, placed).raw)
    ensures forall row :: row in RunFrom(reader, Start, placed).raw ==> row.eventIndex < bound
    ensures placed != [] ==>
              forall row :: row in RunFrom(reader, Start, placed).raw ==> row.eventIndex <= placed[|placed| - 1].index
  {
    hide PartRows, Parts, BindingOf, AnsweredId;
    if placed != [] {
      var n := |placed| - 1;
      var before := RunFrom(reader, Start, placed[..n]);
      RowsAscend(reader, placed[..n], bound);
      forall row | row in before.raw ensures row.eventIndex <= placed[n].index {
        assert n > 0 ==> placed[..n][n - 1].index <= placed[n].index;
      }
      forall id: string {
        PartRowsIndexed(reader, placed[n].index, id, Parts(placed[n].item));
      }
      var after := RunFrom(reader, Start, placed).raw;
      assert forall i :: 0 <= i < |before.raw| ==> before.raw[i] in before.raw;
      assert forall i :: |before.raw| <= i < |after| ==> after[i] in after[|before.raw|..];
    }
  }

  /** Rebuilt event indexes never decrease. */
  lemma ReplayAscends(reader: Reader, events: seq<Json>)
    ensures Ascending(Replay(reader, events).raw)
    ensures forall row :: row in Replay(reader, events).raw ==> row.eventIndex < |events|
  {
    FlatAscending(0, events);
    RowsAscend(reader, Flat(0, events), |events|);
  }

  /** So the rows before the final result are a prefix of all rows. */
  lemma {:induction false} PreFinalIsPrefix(raw: seq<Row>, final: Option<nat>)
    requires Ascending(raw)
    ensures PreFinal(raw, final) == raw[..|PreFinal(raw, final)|]
    ensures forall j :: |PreFinal(raw, final)| <= j < |raw| ==> !BeforeFinal(final)(raw[j])
  {
    if raw != [] {
      var n := |raw| - 1;
      PreFinalIsPrefix(raw[..n], final);
      FilterAppend(BeforeFinal(final), raw[..n], raw[n]);
      assert raw == raw[..n] + [raw[n]];
      if BeforeFinal(final)(raw[n]) {
        FilterKeepsAll(BeforeFinal(final), raw[..n]);
      }
    }
  }

  /** In a treatment cell with a valid raw trace every response is valid and precedes the final result, and
      the selected one is the last branch-diff response of the whole stream. */
  lemma SelectedIsLastResponse(raw: seq<Row>, final: Option<nat>)
    requires RawTraceValid(Treatment, raw, final)
    ensures raw != [] && Selected(Treatment, raw, final) == Some(raw[|raw| - 1])
    ensures forall i :: 0 <= i < |raw| ==> raw[i].observation.Valid? && raw[i].eventIndex < final.value
  {
    FilterKeepsAll(BeforeFinal(final), raw);
    FilterKeepsAll(IsValid, raw);
  }

  /** A treatment's raw trace is valid exactly when there is a final result and at least one response, and every
      response is valid and precedes it; a baseline's exactly when there is no response. */
  lemma RawTraceValidIff(raw: seq<Row>, final: Option<nat>)
    ensures RawTraceValid(Treatment, raw, final) <==> final.Some? && raw != [] && AllEarlyAndValid(raw, final.value)
    ensures RawTraceValid(Baseline, raw, final) <==> raw == []
  {
    FilterKeepsAll(BeforeFinal(final), raw);
    FilterKeepsAll(IsValid, raw);
  }

  predicate AllEarlyAndValid(raw: seq<Row>, final: nat) {
    forall i :: 0 <= i < |raw| ==> raw[i].observation.Valid? && raw[i].eventIndex < final
  }

  /** The tool trace is valid exactly when it is reported as it was and the arm used no MCP tool but its own. */
  lemma ToolTraceValidIff(c: Condition, toolNames: seq<string>, reportedCount: Json, reportedNames: Json)
    ensures ToolTraceValid(c, toolNames, reportedCount, reportedNames) <==>
            ReportsTools(toolNames, reportedCount, reportedNames) && OnlyOwnTools(c, toolNames)
  {
    FilterMembers(ForbiddenMcp, toolNames);
    if Filter(ForbiddenMcp, toolNames) != [] {
      assert Filter(ForbiddenMcp, toolNames)[0] in Filter(ForbiddenMcp, toolNames);
    }
    assert forall i :: 0 <= i < |toolNames| ==> toolNames[i] in toolNames;
  }

  predicate OnlyOwnTools(c: Condition, toolNames: seq<string>) {
    forall name :: name in toolNames && IsMcp(name) ==> c.Treatment? && name == BRANCH_DIFF
  }

  /** Whatever the trace, a selected response is valid and precedes the final result, and every later
      response before the final result is invalid. */
  lemma SelectedIsLastValid(raw: seq<Row>, final: Option<nat>) returns (k: nat)
    requires Ascending(raw) && Selected(Treatment, raw, final).Some?
    ensures k < |raw| && raw[k] == Selected(Treatment, raw, final).value
    ensures raw[k].observation.Valid? && final.Some? && raw[k].eventIndex < final.value
    ensures forall j :: k < j < |raw| && raw[j].eventIndex < final.value ==> raw[j].observation.Invalid?
  {
    hide Filter;
    PreFinalIsPrefix(raw, final);
    FilterMembers(BeforeFinal(final), raw);
    var early := PreFinal(raw, final);
    k := LastValid(early);
    assert early[k] in early && early[k] == raw[k];
    assert forall j :: 0 <= j < |early| ==> early[j] == raw[j];
    assert BeforeFinal(final)(raw[k]);
  }

  lemma {:induction false} LastValid(raw: seq<Row>) returns (k: nat)
    requires Filter(IsValid, raw) != []
    ensures k < |raw| && IsValid(raw[k]) && raw[k] == Filter(IsValid, raw)[|Filter(IsValid, raw)| - 1]
    ensures forall j :: k < j < |raw| ==> !IsValid(raw[j])
  {
    var n := |raw| - 1;
    if IsValid(raw[n]) {
      k := n;
    } else {
      k := LastValid(raw[..n]);
    }
  }

  lemma {:induction false} RowsNeedTheTool(reader: Reader, placed: seq<Placed>)
    ensures var st := RunFrom(reader, Start, placed);
            && (forall id :: id in st.toolById ==> st.toolById[id] in st.toolNames)
            && (st.raw != [] ==> BRANCH_DIFF in st.toolNames)
  {
    hide PartRows, Parts, BindingOf, AnsweredId;
    if placed != [] {
      RowsNeedTheTool(reader, placed[..|placed| - 1]);
    }
  }

  /** A baseline whose tool trace is valid has no branch-diff rows, so its raw trace is valid as well. */
  lemma ValidBaselineHasNoRows(reader: Reader, events: seq<Json>, reportedCount: Json, reportedNames: Json,
      final: Option<nat>)
    requires ToolTraceValid(Baseline, Replay(reader, events).toolNames, reportedCount, reportedNames)
    ensures Replay(reader, events).raw == [] && RawTraceValid(Baseline, Replay(reader, events).raw, final)
  {
    hide RunFrom, Flat;
    RowsNeedTheTool(reader, Flat(0, events));
    assert IsMcp(BRANCH_DIFF) by { assert BRANCH_DIFF[..5] == MCP_PREFIX; }
    var names := Replay(reader, events).toolNames;
    assert forall name :: name in names ==> !IsMcp(name);
  }

  // ---------------------------------------------------------------- the certificate

  /** The retained certificate must name the selected response; a baseline must have none. */
  predicate CertificateMatches(c: Condition, certificate: Json, selected: Option<Row>) {
    if c.Treatment? then
      && certificate.Obj? && selected.Some?
      && Get(certificate, "selected_raw_event_index") == Num(selected.value.eventIndex as real)
      && Get(certificate, "tool_use_id") == Str(selected.value.toolUseId)
      && Get(certificate, "raw_sha256") == Str(selected.value.sha)
      && Get(certificate, "comparison") ==
         (if selected.value.observation.Valid? then selected.value.observation.comparison else Null)
    else certificate == Null
  }

  /** A matching certificate in a treatment cell with a valid trace names the stream's last response and
      the comparison that response reported, and that response came before the final result. */
  lemma CertificateNamesLastResponse(reader: Reader, events: seq<Json>, final: Option<nat>, certificate: Json)
    requires var raw := Replay(reader, events).raw;
             RawTraceValid(Treatment, raw, final)
                 && CertificateMatches(Treatment, certificate, Selected(Treatment, raw, final))
    ensures var raw := Replay(reader, events).raw;
            && raw != [] && final.Some?
            && Get(certificate, "selected_raw_event_index") == Num(raw[|raw| - 1].eventIndex as real)
            && Get(certificate, "raw_sha256") == Str(raw[|raw| - 1].sha)
            && raw[|raw| - 1].observation.Valid?
            && Get(certificate, "comparison") == raw[|raw| - 1].observation.comparison
            && raw[|raw| - 1].eventIndex < final.value
  {
    hide RunFrom, Flat;
    SelectedIsLastResponse(Replay(reader, events).raw, final);
  }

  // ---------------------------------------------------------------- final answer and traces read off fields

  /** A result event's payload: the object under `structured_output`, or else the object its `result` text decodes
      to. */
  lemma PayloadOnFields(decode: string -> Option<Json>, event: Json, value: Json)
    ensures var structured := event.Obj? && "structured_output" in event.fields
        && event.fields["structured_output"].Obj?;
      Payload(decode, event) == Some(value) <==>
        (value.Obj?
         && (HasField(event, "structured_output", value)
             || (!structured && event.Obj? && "result" in event.fields && event.fields["result"].Str?
                 && decode(event.fields["result"].s) == Some(value))))
    ensures IsFinal(decode, event) <==> HasField(event, "type", Str("result")) && Payload(decode, event).Some?
  {
  }

  /** The tool trace on its texts: the packet reports count and names as rebuilt, and a name that starts with "mcp__" is
      the branch-diff tool of a treatment. */
  lemma ToolTraceOnFields(c: Condition, toolNames: seq<string>, reportedCount: Json, reportedNames: Json)
    ensures ToolTraceValid(c, toolNames, reportedCount, reportedNames) <==>
      (reportedCount == Num(|toolNames| as real)
       && reportedNames.List? && |reportedNames.items| == |toolNames|
       && (forall i :: 0 <= i < |toolNames| ==> reportedNames.items[i] == Str(toolNames[i]))
       && forall name :: name in toolNames && "mcp__" <= name ==>
            c == Treatment && name == "mcp__loomgraph__loomgraph_branch_diff")
  {
    ToolTraceValidIff(c, toolNames, reportedCount, reportedNames);
    if reportedNames.List? && |reportedNames.items| == |toolNames|
       && forall i :: 0 <= i < |toolNames| ==> reportedNames.items[i] == Str(toolNames[i]) {
      assert reportedNames.items == seq(|toolNames|, i requires 0 <= i < |toolNames| => Str(toolNames[i]));
    }
    hide ToolTraceValid;
  }

  /** The certificate on its fields: it names event, call, digest and comparison of the selected response. */
  lemma CertificateOnFields(certificate: Json, row: Row)
    requires row.observation.Valid? && row.observation.comparison.Obj?
    ensures CertificateMatches(Treatment, certificate, Some(row)) <==>
      (HasField(certificate, "selected_raw_event_index", Num(row.eventIndex as real))
       && HasField(certificate, "tool_use_id", Str(row.toolUseId)) && HasField(certificate, "raw_sha256", Str(row.sha))
       && HasField(certificate, "comparison", row.observation.comparison))
    ensures !CertificateMatches(Treatment, certificate, None)
    ensures CertificateMatches(Baseline, certificate, None) <==> certificate == Null
  {
    GetIsField(certificate, "selected_raw_event_index", Num(row.eventIndex as real));
    GetIsField(certificate, "tool_use_id", Str(row.toolUseId));
    GetIsField(certificate, "raw_sha256", Str(row.sha));
    GetIsField(certificate, "comparison", row.observation.comparison);
    hide Get, HasField;
  }
}
