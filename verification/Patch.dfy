/** The two readers of a solution patch: production paths in order, and the same paths split into files
    that existed and files the patch creates. Only header lines are read. */
module Patch {
  import opened Common
  import opened Grouping
  import opened Paths
  import opened Sequences

  const HEADER := "diff --git a/"
  const TARGET_MARK := " b/"
  const NEW_FILE := "new file mode "
  const NON_PRODUCTION_PARTS: set<string> := {"docs", "examples", "test", "tests", "__snapshots__"}

  predicate IsHeader(line: string) {
    StartsWith(line, HEADER)
  }

  /** What follows the first " b/" of a header, if there is one. */
  function Target(line: string): Option<string> {
    var at := Find(line, TARGET_MARK);
    if at.None? then None else Some(line[at.value + |TARGET_MARK|..])
  }

  predicate Malformed(line: string) {
    IsHeader(line) && Target(line).None?
  }

  predicate IsProduction(path: string) {
    forall part | part in ParsePath(path).parts :: part !in NON_PRODUCTION_PARTS
  }

  datatype Kinds = Kinds(existing: seq<string>, created: seq<string>)

  // ---------------------------------------------------------------- what a patch says

  /** One header and whether its section carries a "new file" line. */
  datatype Section = Section(path: string, isNew: bool)

  predicate NewBeforeNextHeader(lines: seq<string>) {
    lines != [] && !IsHeader(lines[0]) && (StartsWith(lines[0], NEW_FILE) || NewBeforeNextHeader(lines[1..]))
  }

  function Sections(lines: seq<string>): seq<Section> {
    if lines == [] then []
    else if IsHeader(lines[0]) && Target(lines[0]).Some? then
      [Section(Target(lines[0]).value, NewBeforeNextHeader(lines[1..]))] + Sections(lines[1..])
    else Sections(lines[1..])
  }

  function FirstMalformed(lines: seq<string>): (r: Option<string>)
    ensures r.Some? <==> exists i :: 0 <= i < |lines| && Malformed(lines[i])
  {
    if lines == [] then None
    else if Malformed(lines[0]) then Some(lines[0])
    else FirstMalformed(lines[1..])
  }

  function PathOf(s: Section): string {
    s.path
  }

  predicate ProductionExisting(s: Section) {
    IsProduction(s.path) && !s.isNew
  }

  predicate ProductionNew(s: Section) {
    IsProduction(s.path) && s.isNew
  }

  function HeadedPaths(sections: seq<Section>): seq<string> {
    Dedup(Map(PathOf, sections))
  }

  function Production(sections: seq<Section>): seq<string> {
    Filter(IsProduction, HeadedPaths(sections))
  }

  function ByKind(sections: seq<Section>): Kinds {
    Kinds(Dedup(Map(PathOf, Filter(ProductionExisting, sections))), Dedup(Map(PathOf, Filter(ProductionNew, sections))))
  }

  // ---------------------------------------------------------------- the two scanners

  lemma ReadLine(lines: seq<string>, i: nat)
    requires i < |lines|
    ensures FirstMalformed(lines[i..]) == if Malformed(lines[i]) then Some(lines[i]) else FirstMalformed(lines[i + 1..])
    ensures Sections(lines[i..]) ==
            (if IsHeader(lines[i]) && Target(lines[i]).Some?
             then [Section(Target(lines[i]).value, NewBeforeNextHeader(lines[i + 1..]))] else [])
            + Sections(lines[i + 1..])
    ensures NewBeforeNextHeader(lines[i..]) <==>
            !IsHeader(lines[i]) && (StartsWith(lines[i], NEW_FILE) || NewBeforeNextHeader(lines[i + 1..]))
  {
    assert lines[i..][1..] == lines[i + 1..];
  }

  /** `_patch_paths`: the targets of all headers, each once. A malformed header is the error. */
  method PatchPaths(lines: seq<string>) returns (r: Result<seq<string>, string>)
    ensures r.Err? <==> FirstMalformed(lines).Some?
    ensures r.Err? ==> r.error == FirstMalformed(lines).value
    ensures r.Ok? ==> r.value == HeadedPaths(Sections(lines))
  {
    hide Sections, NewBeforeNextHeader, FirstMalformed, IsHeader, Target, HeadedPaths;
    assert HeadedPaths([]) == [] && lines[0..] == lines by { EmptyReadings(); }
    var paths: seq<string> := [];
    ghost var done: seq<Section> := [];
    for i := 0 to |lines|
      invariant FirstMalformed(lines) == FirstMalformed(lines[i..])
      invariant Sections(lines) == done + Sections(lines[i..])
      invariant paths == HeadedPaths(done)
    {
      ReadLine(lines, i);
      if !IsHeader(lines[i]) {
        continue;
      }
      var target := Target(lines[i]);
      if target.None? {
        return Err(lines[i]);
      }
      ghost var s := Section(target.value, NewBeforeNextHeader(lines[i + 1..]));
      HeadedAppend(done, s);
      done := done + [s];
      if target.value !in paths {
        paths := paths + [target.value];
      }
    }
    EmptyReadings();
    assert lines[|lines|..] == [];
    assert Sections(lines) == done;
    return Ok(paths);
  }

  lemma EmptyReadings()
    ensures Sections([]) == [] && FirstMalformed([]).None? && HeadedPaths([]) == [] && ByKind([]) == Kinds([], [])
    ensures !NewBeforeNextHeader([])
  {
  }

  lemma HeadedAppend(sections: seq<Section>, s: Section)
    ensures HeadedPaths(sections + [s]) ==
            if s.path in HeadedPaths(sections) then HeadedPaths(sections) else HeadedPaths(sections) + [s.path]
  {
    assert (sections + [s])[..|sections|] == sections;
    DedupAppend(Map(PathOf, sections), s.path);
  }

  method ProductionPaths(lines: seq<string>) returns (r: Result<seq<string>, string>)
    ensures r.Err? <==> FirstMalformed(lines).Some?
    ensures r.Err? ==> r.error == FirstMalformed(lines).value
    ensures r.Ok? ==> r.value == Production(Sections(lines))
  {
    r := PatchPaths(lines);
    if r.Ok? {
      r := Ok(Filter(IsProduction, r.value));
    }
  }

  /** `add_current`: file a finished section under its kind. */
  function AddCurrent(kinds: Kinds, path: Option<string>, isNew: bool): Kinds {
    if path.None? || !IsProduction(path.value) then kinds
    else if isNew then
      if path.value in kinds.created then kinds else kinds.(created := kinds.created + [path.value])
    else if path.value in kinds.existing then kinds else kinds.(existing := kinds.existing + [path.value])
  }

  lemma ByKindAppend(sections: seq<Section>, s: Section)
    ensures ByKind(sections + [s]) == AddCurrent(ByKind(sections), Some(s.path), s.isNew)
  {
    FilterAppend(ProductionExisting, sections, s);
    FilterAppend(ProductionNew, sections, s);
    MapAppend(Filter(ProductionExisting, sections), s);
    MapAppend(Filter(ProductionNew, sections), s);
  }

  lemma MapAppend(sections: seq<Section>, s: Section)
    ensures Dedup(Map(PathOf, sections + [s])) ==
            if s.path in Dedup(Map(PathOf, sections)) then Dedup(Map(PathOf, sections))
            else Dedup(Map(PathOf, sections)) + [s.path]
  {
    HeadedAppend(sections, s);
  }

  /** The section being read: closed only when the next header, or the end, is reached. */
  ghost function Pending(path: Option<string>, isNew: bool, rest: seq<string>): seq<Section> {
    if path.None? then [] else [Section(path.value, isNew || NewBeforeNextHeader(rest))]
  }

  ghost function Closed(path: Option<string>, isNew: bool): seq<Section> {
    if path.None? then [] else [Section(path.value, isNew)]
  }

  lemma CloseSection(sections: seq<Section>, path: Option<string>, isNew: bool)
    ensures ByKind(sections + Closed(path, isNew)) == AddCurrent(ByKind(sections), path, isNew)
  {
    hide ByKind, IsProduction;
    if path.Some? {
      ByKindAppend(sections, Section(path.value, isNew));
    } else {
      assert sections + [] == sections;
    }
  }

  /** A header closes the section before it and opens its own. */
  lemma AtHeader(lines: seq<string>, i: nat, done: seq<Section>, path: Option<string>, isNew: bool)
    requires i < |lines| && IsHeader(lines[i])
    requires Sections(lines) == done + Pending(path, isNew, lines[i..]) + Sections(lines[i..])
    ensures Target(lines[i]).Some? ==>
      Sections(lines) ==
      done + Closed(path, isNew) + Pending(Target(lines[i]), false, lines[i + 1..]) + Sections(lines[i + 1..])
  {
    hide Sections, NewBeforeNextHeader, Target, IsHeader, FirstMalformed;
    ReadLine(lines, i);
    assert Pending(path, isNew, lines[i..]) == Closed(path, isNew);
    assert done + Closed(path, isNew) + (Pending(Target(lines[i]), false, lines[i + 1..]) + Sections(lines[i + 1..])) ==
           done + Closed(path, isNew) + Pending(Target(lines[i]), false, lines[i + 1..]) + Sections(lines[i + 1..]);
  }

  /** Any other line belongs to the section being read. */
  lemma AtLine(lines: seq<string>, i: nat, done: seq<Section>, path: Option<string>, isNew: bool)
    requires i < |lines| && !IsHeader(lines[i])
    requires Sections(lines) == done + Pending(path, isNew, lines[i..]) + Sections(lines[i..])
    ensures Sections(lines) ==
      done + Pending(path, isNew || StartsWith(lines[i], NEW_FILE), lines[i + 1..]) + Sections(lines[i + 1..])
  {
    hide Sections, NewBeforeNextHeader, Target, IsHeader, FirstMalformed;
    ReadLine(lines, i);
    assert [] + Sections(lines[i + 1..]) == Sections(lines[i + 1..]);
  }

  /** `_production_paths_by_kind`: the line state machine. */
  method ProductionPathsByKind(lines: seq<string>) returns (r: Result<Kinds, string>)
    ensures r.Err? <==> FirstMalformed(lines).Some?
    ensures r.Err? ==> r.error == FirstMalformed(lines).value
    ensures r.Ok? ==> r.value == ByKind(Sections(lines))
  {
    hide Sections, NewBeforeNextHeader, FirstMalformed, IsHeader, Target, ByKind, AddCurrent;
    EmptyReadings();
    assert lines[0..] == lines;
    var kinds := Kinds([], []);
    var currentPath: Option<string> := None;
    var currentIsNew := false;
    ghost var done: seq<Section> := [];
    assert Sections(lines) == done + Pending(currentPath, currentIsNew, lines[0..]) + Sections(lines[0..]);
    hide Pending, Closed;
    for i := 0 to |lines|
      invariant FirstMalformed(lines) == FirstMalformed(lines[i..])
      invariant Sections(lines) == done + Pending(currentPath, currentIsNew, lines[i..]) + Sections(lines[i..])
      invariant kinds == ByKind(done)
    {
      ReadLine(lines, i);
      if IsHeader(lines[i]) {
        AtHeader(lines, i, done, currentPath, currentIsNew);
        CloseSection(done, currentPath, currentIsNew);
        done := done + Closed(currentPath, currentIsNew);
        kinds := AddCurrent(kinds, currentPath, currentIsNew);
        var target := Target(lines[i]);
        if target.None? {
          return Err(lines[i]);
        }
        currentPath := target;
        currentIsNew := false;
      } else {
        AtLine(lines, i, done, currentPath, currentIsNew);
        if StartsWith(lines[i], NEW_FILE) {
          currentIsNew := true;
        }
      }
    }
    CloseSection(done, currentPath, currentIsNew);
    assert lines[|lines|..] == [];
    NothingPending(currentPath, currentIsNew);
    assert Sections(lines) == done + Closed(currentPath, currentIsNew);
    kinds := AddCurrent(kinds, currentPath, currentIsNew);
    return Ok(kinds);
  }

  lemma NothingPending(path: Option<string>, isNew: bool)
    ensures Pending(path, isNew, []) == Closed(path, isNew) && Sections([]) == []
  {
  }

  // ---------------------------------------------------------------- the two readings agree

  /** Existing and created paths together are the production paths, and neither list repeats a path. */
  lemma KindsCoverProduction(sections: seq<Section>)
    ensures var k := ByKind(sections);
            && Distinct(k.existing) && Distinct(k.created) && Distinct(HeadedPaths(sections))
            && forall p :: p in Production(sections) <==> p in k.existing || p in k.created
  {
    forall p ensures p in Production(sections) <==> p in ByKind(sections).existing || p in ByKind(sections).created {
      ProductionMember(sections, p);
      KindMember(sections, p);
    }
  }

  lemma ProductionMember(sections: seq<Section>, p: string)
    ensures p in Production(sections) <==> IsProduction(p) && exists s :: s in sections && s.path == p
  {
    FilterMembers(IsProduction, HeadedPaths(sections));
    DedupMembers(Map(PathOf, sections));
    MapMember(PathOf, sections, p);
    assert forall s: Section :: PathOf(s) == s.path;
  }

  lemma KindMember(sections: seq<Section>, p: string)
    ensures p in ByKind(sections).existing <==> IsProduction(p) && Section(p, false) in sections
    ensures p in ByKind(sections).created <==> IsProduction(p) && Section(p, true) in sections
  {
    var existing, created := Filter(ProductionExisting, sections), Filter(ProductionNew, sections);
    FilterMembers(ProductionExisting, sections);
    FilterMembers(ProductionNew, sections);
    DedupMembers(Map(PathOf, existing));
    DedupMembers(Map(PathOf, created));
    MapMember(PathOf, existing, p);
    MapMember(PathOf, created, p);
    if IsProduction(p) && Section(p, false) in sections { assert PathOf(Section(p, false)) == p; }
    if IsProduction(p) && Section(p, true) in sections { assert PathOf(Section(p, true)) == p; }
  }

  /** A production path headed once as existing and once as new. */
  ghost predicate Mixed(sections: seq<Section>, p: string) {
    IsProduction(p) && Section(p, false) in sections && Section(p, true) in sections
  }

  /** The two lists are disjoint exactly when no production path is headed both ways. */
  lemma KindsDisjointIff(sections: seq<Section>)
    ensures var k := ByKind(sections);
            (forall p :: !(p in k.existing && p in k.created)) <==> forall p :: !Mixed(sections, p)
  {
    forall p ensures p in ByKind(sections).existing && p in ByKind(sections).created <==> Mixed(sections, p) {
      KindMember(sections, p);
    }
  }

  predicate HeadedAsNew(sections: seq<Section>, p: string) {
    Section(p, true) in sections
  }

  function OfKind(all: seq<Section>, asNew: bool): string -> bool {
    p => IsProduction(p) && HeadedAsNew(all, p) == asNew
  }

  function Listed(kinds: Kinds, asNew: bool): seq<string> {
    if asNew then kinds.created else kinds.existing
  }

  lemma FiltersCommuteStep(all: seq<Section>, before: seq<Section>, s: Section, asNew: bool)
    requires s in all && !Mixed(all, s.path)
    requires Listed(ByKind(before), asNew) == Filter(OfKind(all, asNew), HeadedPaths(before))
    ensures Listed(ByKind(before + [s]), asNew) == Filter(OfKind(all, asNew), HeadedPaths(before + [s]))
  {
    hide IsProduction, ByKind, HeadedPaths, Filter;
    var keep, headed := OfKind(all, asNew), HeadedPaths(before);
    ByKindAppend(before, s);
    HeadedAppend(before, s);
    FilterAppend(keep, headed, s.path);
    FilterMembers(keep, headed);
    assert s == Section(s.path, s.isNew);
    assert keep(s.path) <==> IsProduction(s.path) && s.isNew == asNew;
  }

  lemma {:induction false} FiltersCommute(all: seq<Section>, sections: seq<Section>, asNew: bool)
    requires forall p :: !Mixed(all, p)
    requires forall s :: s in sections ==> s in all
    ensures Listed(ByKind(sections), asNew) == Filter(OfKind(all, asNew), HeadedPaths(sections))
  {
    hide IsProduction, ByKind, HeadedPaths;
    EmptyReadings();
    if sections != [] {
      var n := |sections| - 1;
      FiltersCommute(all, sections[..n], asNew);
      FiltersCommuteStep(all, sections[..n], sections[n], asNew);
      assert sections == sections[..n] + [sections[n]];
    }
  }

  /** Then each list is the production list filtered by kind, in the same order. */
  lemma KindsAreFilters(sections: seq<Section>)
    requires forall p :: !Mixed(sections, p)
    ensures ByKind(sections).created == Filter(Created(sections), Production(sections))
    ensures ByKind(sections).existing == Filter(NotCreated(sections), Production(sections))
  {
    hide ByKind;
    FiltersCommute(sections, sections, true);
    FiltersCommute(sections, sections, false);
    FilterTwice(IsProduction, Created(sections), OfKind(sections, true), HeadedPaths(sections));
    FilterTwice(IsProduction, NotCreated(sections), OfKind(sections, false), HeadedPaths(sections));
  }

  function Created(sections: seq<Section>): string -> bool {
    p => HeadedAsNew(sections, p)
  }

  function NotCreated(sections: seq<Section>): string -> bool {
    p => !HeadedAsNew(sections, p)
  }

  lemma {:induction false} FilterTwice(first: string -> bool, second: string -> bool, both: string -> bool,
      paths: seq<string>)
    requires forall p :: both(p) == (first(p) && second(p))
    ensures Filter(second, Filter(first, paths)) == Filter(both, paths)
  {
    if paths != [] {
      var n := |paths| - 1;
      FilterTwice(first, second, both, paths[..n]);
      FilterAppend(second, Filter(first, paths[..n]), paths[n]);
      FilterAppend(first, paths[..n], paths[n]);
      FilterAppend(both, paths[..n], paths[n]);
      assert paths == paths[..n] + [paths[n]];
    }
  }

  /** Headers that never repeat a path cannot mix kinds. */
  lemma DistinctHeadersNeverMix(sections: seq<Section>)
    requires Distinct(Map(PathOf, sections))
    ensures forall p :: !Mixed(sections, p)
  {
    forall p ensures !Mixed(sections, p) {
      if Mixed(sections, p) {
        var i :| 0 <= i < |sections| && sections[i] == Section(p, false);
        var j :| 0 <= j < |sections| && sections[j] == Section(p, true);
        MapAt(PathOf, sections, i);
        MapAt(PathOf, sections, j);
        assert false;
      }
    }
  }

  /** A path headed twice, first as a new file and then as an existing one, appears in both lists. */
  lemma RepeatedHeaderIsInBothLists(header: string, mark: string, path: string)
    requires IsHeader(header) && Target(header) == Some(path) && IsProduction(path)
    requires !IsHeader(mark) && StartsWith(mark, NEW_FILE)
    ensures var k := ByKind(Sections([header, mark, header])); path in k.existing && path in k.created
  {
    hide ByKind, IsProduction, IsHeader, Target;
    var lines := [header, mark, header];
    assert lines[1..] == [mark, header] && lines[1..][1..] == [header] && [header][1..] == [];
    assert Sections([header]) == [Section(path, false)];
    assert Sections([mark, header]) == Sections([header]);
    assert NewBeforeNextHeader([mark, header]);
    assert Sections(lines) == [Section(path, true)] + [Section(path, false)];
    KindMember(Sections(lines), path);
  }

  /** Such a patch exists: "x" is created and then headed again. */
  lemma RepeatedHeaderExists()
    ensures var lines := ["diff --git a/x b/x", "new file mode 100644", "diff --git a/x b/x"];
            "x" in ByKind(Sections(lines)).existing && "x" in ByKind(Sections(lines)).created
  {
    hide ByKind, Sections, IsHeader, Target, IsProduction;
    HeaderTarget();
    MarkIsNoHeader();
    OneLetterIsProduction();
    RepeatedHeaderIsInBothLists("diff --git a/x b/x", "new file mode 100644", "x");
  }

  lemma MarkIsNoHeader()
    ensures !IsHeader("new file mode 100644") && StartsWith("new file mode 100644", NEW_FILE)
  {
    assert "new file mode 100644"[0] == 'n';
  }

  lemma OneLetterIsProduction()
    ensures IsProduction("x")
  {
    hide ParsePath;
    ParseSegment("x");
  }

  lemma TargetOfHeader(before: string, path: string)
    requires 'b' !in before
    ensures Target(before + TARGET_MARK + path) == Some(path)
  {
    var line, n := before + TARGET_MARK + path, |before|;
    assert OccursAt(line, TARGET_MARK, n) by { assert line[n..n + 3] == TARGET_MARK; }
    forall k: nat | k < n ensures !OccursAt(line, TARGET_MARK, k) {
      assert line[k..k + 3][1] == line[k + 1] == if k + 1 < n then before[k + 1] else ' ';
    }
    var at := Find(line, TARGET_MARK);
    assert at == Some(n);
    assert line[n + 3..] == path;
  }

  lemma HeaderTarget()
    ensures IsHeader("diff --git a/x b/x") && Target("diff --git a/x b/x") == Some("x")
  {
    hide Target;
    TargetOfHeader("diff --git a/x", "x");
    assert "diff --git a/x" + TARGET_MARK + "x" == "diff --git a/x b/x";
  }

  // ---------------------------------------------------------------- a patch read off its lines

  /** A production path: no segment is one of the five names. */
  lemma ProductionIff(path: string)
    ensures IsProduction(path) <==>
      forall part :: part in Split(path, '/') ==>
        part != "docs" && part != "examples" && part != "test" && part != "tests" && part != "__snapshots__"
  {
    FilterMembers(Kept, Split(path, '/'));
    hide Filter, Split;
    var parts := ParsePath(path).parts;
    assert forall part :: part in parts <==> part in Split(path, '/') && Kept(part);
    if IsProduction(path) {
      forall part | part in Split(path, '/') ensures part !in NON_PRODUCTION_PARTS {
        assert part in parts <==> Kept(part);
      }
    } else {
      var part :| part in parts && part in NON_PRODUCTION_PARTS;
      assert part in Split(path, '/');
    }
  }

  /** A header line, and its target: what follows the first " b/". */
  lemma HeaderOnText(line: string, path: string)
    ensures IsHeader(line) <==> "diff --git a/" <= line
    ensures Target(line) == Some(path) <==>
      exists front :: line == front + " b/" + path && forall k: nat :: k < |front| ==> !OccursAt(line, " b/", k)
    ensures Target(line).None? <==> forall k: nat :: !OccursAt(line, " b/", k)
  {
    hide Find;
    var at := Find(line, " b/");
    if at.Some? {
      assert line == line[..at.value] + " b/" + line[at.value + 3..];
    }
    if front :| line == front + " b/" + path && forall k: nat :: k < |front| ==> !OccursAt(line, " b/", k) {
      assert line[|front|..|front| + 3] == " b/" && line[|front| + 3..] == path;
      assert OccursAt(line, " b/", |front|);
      hide OccursAt;
      assert at == Some(|front|);
    }
  }

  lemma {:induction false} NewIff(lines: seq<string>)
    ensures NewBeforeNextHeader(lines) <==>
      exists k :: 0 <= k < |lines| && "new file mode " <= lines[k] && forall j :: 0 <= j <= k ==>
          !("diff --git a/" <= lines[j])
  {
    if lines != [] {
      NewIff(lines[1..]);
      assert forall k :: 0 <= k < |lines| - 1 ==> lines[1..][k] == lines[k + 1];
      if k :| 0 <= k < |lines| && "new file mode " <= lines[k] && forall j :: 0 <= j <= k ==>
          !("diff --git a/" <= lines[j])
      {
        if k > 0 { assert "new file mode " <= lines[1..][k - 1]; }
      }
      if NewBeforeNextHeader(lines) {
        if !("new file mode " <= lines[0]) {
          var k :| 0 <= k < |lines[1..]| && "new file mode " <= lines[1..][k]
                   && forall j :: 0 <= j <= k ==> !("diff --git a/" <= lines[1..][j]);
          assert "new file mode " <= lines[k + 1];
          assert forall j :: 0 < j <= k + 1 ==> lines[j] == lines[1..][j - 1];
        }
      }
    }
  }

  /** A patch line by line: a well-formed header opens a section, which is new when a "new file mode" line stands before
      the next header; every other line opens none. */
  lemma SectionsOnLines(line: string, rest: seq<string>)
    ensures Sections([]) == []
    ensures Sections([line] + rest) ==
      if "diff --git a/" <= line && Target(line).Some? then
        [Section(Target(line).value,
                 exists k :: 0 <= k < |rest| && "new file mode " <= rest[k]
                             && forall j :: 0 <= j <= k ==> !("diff --git a/" <= rest[j]))] + Sections(rest)
      else Sections(rest)
  {
    assert ([line] + rest)[1..] == rest;
    NewIff(rest);
    hide NewBeforeNextHeader, Target;
  }

  /** The malformed header a patch is refused for: its first header line without any " b/". */
  lemma {:induction false} FirstMalformedIs(lines: seq<string>, line: string)
    ensures FirstMalformed(lines) == Some(line) <==>
      exists i :: 0 <= i < |lines| && lines[i] == line && NoTarget(lines[i]) && forall j :: 0 <= j < i ==>
          !NoTarget(lines[j])
  {
    hide Target;
    if lines != [] {
      FirstMalformedIs(lines[1..], line);
      NoTargetIff(lines[0]);
      assert forall j :: 0 < j < |lines| ==> lines[1..][j - 1] == lines[j];
      if i :| 0 <= i < |lines| && lines[i] == line && NoTarget(lines[i]) && forall j :: 0 <= j < i ==>
          !NoTarget(lines[j])
      {
        if i > 0 { assert lines[1..][i - 1] == line; }
      }
      if FirstMalformed(lines) == Some(line) && !NoTarget(lines[0]) {
        var i :| 0 <= i < |lines| - 1 && lines[1..][i] == line && NoTarget(lines[1..][i])
                 && forall j :: 0 <= j < i ==> !NoTarget(lines[1..][j]);
        assert lines[i + 1] == line;
        assert forall j :: 0 < j < i + 1 ==> lines[j] == lines[1..][j - 1];
      }
    }
  }

  predicate NoTarget(line: string) {
    "diff --git a/" <= line && forall k :: 0 <= k <= |line| ==> !OccursAt(line, " b/", k)
  }

  lemma NoTargetIff(line: string)
    ensures Malformed(line) <==> NoTarget(line)
  {
    HeaderOnText(line, "");
    assert forall k: nat :: k > |line| ==> !OccursAt(line, " b/", k);
    hide IsHeader, Target, OccursAt;
  }
}
