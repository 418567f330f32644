/** Which directories of a cohort's output become rows of its summary. */
module Discovery {
  import opened Common
  import opened Inference
  import opened Paths

  const ORIENTATION := "orientation.json"
  const RUN := "run.json"
  const DRIVER := "driver-run.json"

  /** `path.parent`; the root is its own parent. */
  function Parent(p: FilePath): FilePath {
    if p == [] then [] else p[..|p| - 1]
  }

  predicate Named(p: FilePath, name: string) {
    p != [] && p[|p| - 1] == name
  }

  /** `_run_root`: the directory of an orientation file, or the one above when that is called `artifacts`. */
  function RunRoot(p: FilePath): FilePath {
    if Named(Parent(p), "artifacts") then Parent(Parent(p)) else Parent(p)
  }

  predicate Orients(p: FilePath, root: FilePath) {
    Named(p, ORIENTATION) && RunRoot(p) == root
  }

  /** The root is that of an orientation file, or lies above one. */
  predicate Covered(roots: set<FilePath>, root: FilePath) {
    exists r :: r in roots && root <= r
  }

  // ---------------------------------------------------------------- the two dictionaries of `summarize`

  /** The last orientation file of a root. */
  function LastOrientation(files: seq<FilePath>, root: FilePath): Option<FilePath> {
    if files == [] then None
    else if Orients(files[|files| - 1], root) then Some(files[|files| - 1])
    else LastOrientation(files[..|files| - 1], root)
  }

  /** `{_run_root(path): path for path in orientation_paths}`: the last file of a root stays. */
  method CollectOrientations(files: seq<FilePath>) returns (entries: map<FilePath, FilePath>)
    ensures forall root :: root in entries <==> LastOrientation(files, root).Some?
    ensures forall root :: root in entries ==> LastOrientation(files, root) == Some(entries[root])
  {
    entries := map[];
    for i := 0 to |files|
      invariant forall root :: root in entries <==> LastOrientation(files[..i], root).Some?
      invariant forall root :: root in entries ==> LastOrientation(files[..i], root) == Some(entries[root])
    {
      hide RunRoot;
      assert files[..i + 1][..i] == files[..i];
      if Named(files[i], ORIENTATION) {
        entries := entries[RunRoot(files[i]) := files[i]];
      }
    }
    assert files[..|files|] == files;
  }

  lemma {:induction false} LastOrientationIs(files: seq<FilePath>, root: FilePath)
    ensures LastOrientation(files, root).Some? <==> IsOrientationRoot(files, root)
    ensures LastOrientation(files, root).Some? ==>
      LastOrientation(files, root).value in files && Orients(LastOrientation(files, root).value, root)
  {
    hide Orients;
    if files != [] {
      var n := |files| - 1;
      LastOrientationIs(files[..n], root);
      if i :| 0 <= i < n && Orients(files[i], root) { assert files[..n][i] == files[i]; }
    }
  }

  /** One pass of the metadata loop: files of one name, uncovered, `setdefault`. */
  method CollectMetadata(files: seq<FilePath>, roots: set<FilePath>, name: string, known: map<FilePath, FilePath>)
    returns (entries: map<FilePath, FilePath>)
    ensures forall root :: root in entries <==> root in known || (root + [name] in files && !Covered(roots, root))
    ensures forall root :: root in entries ==> entries[root] == if root in known then known[root] else root + [name]
  {
    hide Covered;
    entries := known;
    for i := 0 to |files|
      invariant forall root :: root in entries <==>
          root in known || (root + [name] in files[..i] && !Covered(roots, root))
      invariant forall root :: root in entries ==> entries[root] == if root in known then known[root] else root + [name]
    {
      forall root
        ensures root + [name] in files[..i + 1] <==> root + [name] in files[..i] || root + [name] == files[i]
      {
        assert files[..i + 1] == files[..i] + [files[i]];
      }
      if Named(files[i], name) {
        var root := Parent(files[i]);
        assert files[i] == root + [name];
        assert forall other :: other + [name] == files[i] ==> other == root by { OnlyParent(files[i], name); }
        if !Covered(roots, root) && root !in entries {
          entries := entries[root := files[i]];
        }
      }
    }
    assert files[..|files|] == files;
  }

  lemma OnlyParent(p: FilePath, name: string)
    requires p != []
    ensures forall other: FilePath :: other + [name] == p ==> other == Parent(p)
  {
    forall other: FilePath | other + [name] == p ensures other == Parent(p) {
      assert (other + [name])[..|other|] == other;
    }
  }

  predicate IsOrientationRoot(files: seq<FilePath>, root: FilePath) {
    exists i :: 0 <= i < |files| && Orients(files[i], root)
  }

  ghost predicate AboveOrientation(files: seq<FilePath>, root: FilePath) {
    exists r :: root <= r && IsOrientationRoot(files, r)
  }

  /** A directory with metadata but no orientation file at or below it. */
  ghost predicate IsMetadataRoot(files: seq<FilePath>, root: FilePath) {
    (root + [RUN] in files || root + [DRIVER] in files) && !AboveOrientation(files, root)
  }

  ghost predicate IsRowRoot(files: seq<FilePath>, root: FilePath) {
    IsOrientationRoot(files, root) || IsMetadataRoot(files, root)
  }

  /** The two dictionaries: the last orientation file of every orientation root, and a metadata file of every metadata
      root, `run.json` before `driver-run.json`. */
  ghost predicate Discovered(files: seq<FilePath>, orientations: map<FilePath, FilePath>,
      metadata: map<FilePath, FilePath>)
  {
    && (forall root :: root in orientations <==> IsOrientationRoot(files, root))
    && (forall root :: root in orientations ==> LastOrientation(files, root) == Some(orientations[root]))
    && (forall root :: root in metadata <==> IsMetadataRoot(files, root))
    && (forall root :: root in metadata ==> metadata[root] == root + [if root + [RUN] in files then RUN else DRIVER])
    && orientations.Keys !! metadata.Keys
  }

  /** The rows of `summarize`: one for every orientation root, one for every metadata root, never two for one root. */
  method Discover(files: seq<FilePath>)
    returns (orientations: map<FilePath, FilePath>, metadata: map<FilePath, FilePath>)
    ensures Discovered(files, orientations, metadata)
  {
    hide Orients, LastOrientation, IsOrientationRoot;
    orientations := CollectOrientations(files);
    forall root ensures root in orientations <==> IsOrientationRoot(files, root) { LastOrientationIs(files, root); }
    forall root ensures Covered(orientations.Keys, root) <==> AboveOrientation(files, root) {
    }
    var runs := CollectMetadata(files, orientations.Keys, RUN, map[]);
    metadata := CollectMetadata(files, orientations.Keys, DRIVER, runs);
    forall root | root in orientations ensures root !in metadata {
      assert root <= root;
    }
  }

  // ---------------------------------------------------------------- what a row is read from

  /** What `_json_object` makes of a file: its fields, or nothing when it cannot be read as an object. */
  type Contents = FilePath -> Option<Fields>

  /** The first of some files that is there and can be read. */
  function FirstReadable(files: seq<FilePath>, content: Contents, paths: seq<FilePath>): Option<Fields> {
    if paths == [] then None
    else if paths[0] in files && content(paths[0]).Some? then content(paths[0])
    else FirstReadable(files, content, paths[1..])
  }

  /** The records an orientation row looks for, in order. */
  function RecordPaths(root: FilePath): seq<FilePath> {
    [root + [RUN], root + [DRIVER], Parent(root) + [DRIVER]]
  }

  function OrNone(fields: Option<Fields>): Fields {
    if fields.Some? then fields.value else NO_FIELDS
  }

  /** The loop over the record files of an orientation row: the first readable one ends it. */
  method ReadRecord(files: seq<FilePath>, content: Contents, root: FilePath) returns (record: Fields)
    ensures record == OrNone(FirstReadable(files, content, RecordPaths(root)))
  {
    record := NO_FIELDS;
    var paths := RecordPaths(root);
    for i := 0 to |paths|
      invariant record == NO_FIELDS
      invariant FirstReadable(files, content, paths) == FirstReadable(files, content, paths[i..])
    {
      assert paths[i..][0] == paths[i] && paths[i..][1..] == paths[i + 1..];
      if paths[i] !in files {
        continue;
      }
      var value := content(paths[i]);
      if value.Some? {
        record := value.value;
        break;
      }
    }
  }

  /** The record and the packet of the row of a root. */
  function RowSource(files: seq<FilePath>, content: Contents, root: FilePath): (Fields, Fields) {
    var orientation := LastOrientation(files, root);
    if orientation.Some? then
      (OrNone(FirstReadable(files, content, RecordPaths(root))), OrNone(content(orientation.value)))
    else
      (OrNone(content(root + [if root + [RUN] in files then RUN else DRIVER])), NO_FIELDS)
  }

  /** No artifact is lost and none is invented. An orientation file is the entry of its root unless a later one is; a
      metadata file's directory has an entry exactly when no orientation root is at or below it, and the entry is that
      file unless it is a driver record beside a runner's; every entry is one of the files. */
  lemma NothingIsLost(files: seq<FilePath>, orientations: map<FilePath, FilePath>, metadata: map<FilePath, FilePath>,
      p: FilePath)
    requires Discovered(files, orientations, metadata) && p in files
    ensures Named(p, ORIENTATION) ==> RunRoot(p) in orientations && Orients(orientations[RunRoot(p)], RunRoot(p))
    ensures Named(p, RUN) || Named(p, DRIVER) ==>
              (Parent(p) in metadata <==> !Covered(orientations.Keys, Parent(p)))
    ensures (Named(p, RUN) || Named(p, DRIVER)) && Parent(p) in metadata ==>
              metadata[Parent(p)] == p || (Named(p, DRIVER) && metadata[Parent(p)] == Parent(p) + [RUN])
    ensures forall root :: root in orientations ==> orientations[root] in files
    ensures forall root :: root in metadata ==> metadata[root] in files
  {
    hide RunRoot, LastOrientation;
    forall root | root in orientations ensures orientations[root] in files && Orients(orientations[root], root) {
      LastOrientationIs(files, root);
    }
    forall root ensures Covered(orientations.Keys, root) <==> AboveOrientation(files, root) {
    }
    var i :| 0 <= i < |files| && files[i] == p;
    if Named(p, ORIENTATION) { assert Orients(files[i], RunRoot(p)); }
    if Named(p, RUN) { assert p == Parent(p) + [RUN]; }
    if Named(p, DRIVER) { assert p == Parent(p) + [DRIVER]; }
  }

  // ---------------------------------------------------------------- the layout a cohort run leaves

  /** What one planned run left: the driver's record, and in `output/` the runner's two files. */
  datatype Left = Left(driver: bool, run: bool, orientation: bool)

  function Output(d: FilePath): FilePath {
    d + ["output"]
  }

  predicate LeftBy(p: FilePath, d: FilePath, l: Left) {
    (l.driver && p == d + [DRIVER]) || (l.run && p == Output(d) + [RUN])
        || (l.orientation && p == Output(d) + [ORIENTATION])
  }

  /** The artifacts found are those the planned runs left. */
  ghost predicate Layout(files: seq<FilePath>, dirs: set<FilePath>, left: FilePath -> Left) {
    forall p :: (p in files && (Named(p, ORIENTATION) || Named(p, RUN) || Named(p, DRIVER))) <==>
        exists d :: d in dirs && LeftBy(p, d, left(d))
  }

  /** No run directory is, or lies inside, another run's directory or output. */
  ghost predicate Separate(dirs: set<FilePath>) {
    forall d, e :: d in dirs && e in dirs && d <= Output(e) ==> d == e
  }

  function RowsOf(d: FilePath, l: Left): set<FilePath> {
    if l.orientation then {Output(d)}
    else (if l.run then {Output(d)} else {}) + (if l.driver then {d} else {})
  }

  lemma ArtifactNames()
    ensures ORIENTATION != RUN && ORIENTATION != DRIVER && RUN != DRIVER && "output" != "artifacts"
  {
    assert |ORIENTATION| == 16 && |RUN| == 8 && |DRIVER| == 15 && |"output"| == 6 && |"artifacts"| == 9;
  }

  lemma LaidOrientationRoots(files: seq<FilePath>, dirs: set<FilePath>, left: FilePath -> Left, root: FilePath)
    requires Layout(files, dirs, left)
    ensures IsOrientationRoot(files, root) <==> exists d :: d in dirs && left(d).orientation && root == Output(d)
  {
    if i :| 0 <= i < |files| && Orients(files[i], root) {
      LeftOrientation(files, dirs, left, files[i]);
      var d :| d in dirs && left(d).orientation && files[i] == Output(d) + [ORIENTATION];
      OutputRoot(d);
    }
    if d :| d in dirs && left(d).orientation && root == Output(d) {
      var p := Output(d) + [ORIENTATION];
      assert LeftBy(p, d, left(d));
      OutputRoot(d);
      hide RunRoot, Output;
      assert p in files;
      var i :| 0 <= i < |files| && files[i] == p;
      assert Orients(files[i], root);
    }
  }

  lemma LeftOrientation(files: seq<FilePath>, dirs: set<FilePath>, left: FilePath -> Left, p: FilePath)
    requires Layout(files, dirs, left) && p in files && Named(p, ORIENTATION)
    ensures exists d :: d in dirs && left(d).orientation && p == Output(d) + [ORIENTATION]
  {
    ArtifactNames();
    hide Output;
    var d :| d in dirs && LeftBy(p, d, left(d));
  }

  lemma OutputRoot(d: FilePath)
    ensures RunRoot(Output(d) + [ORIENTATION]) == Output(d)
  {
    ArtifactNames();
    assert Parent(Output(d) + [ORIENTATION]) == Output(d);
    assert !Named(Output(d), "artifacts");
  }

  lemma LaidMetadata(files: seq<FilePath>, dirs: set<FilePath>, left: FilePath -> Left, root: FilePath)
    requires Layout(files, dirs, left)
    ensures root + [RUN] in files <==> exists d :: d in dirs && left(d).run && root == Output(d)
    ensures root + [DRIVER] in files <==> exists d :: d in dirs && left(d).driver && root == d
  {
    ArtifactNames();
    assert Named(root + [RUN], RUN) && Named(root + [DRIVER], DRIVER);
    if root + [RUN] in files {
      var d :| d in dirs && LeftBy(root + [RUN], d, left(d));
      SameParent(root, RUN, Output(d), RUN);
      SameParent(root, RUN, d, DRIVER);
      SameParent(root, RUN, Output(d), ORIENTATION);
    }
    if d :| d in dirs && left(d).run && root == Output(d) {
      assert LeftBy(root + [RUN], d, left(d));
    }
    if root + [DRIVER] in files {
      var d :| d in dirs && LeftBy(root + [DRIVER], d, left(d));
      SameParent(root, DRIVER, Output(d), RUN);
      SameParent(root, DRIVER, d, DRIVER);
      SameParent(root, DRIVER, Output(d), ORIENTATION);
    }
    if d :| d in dirs && left(d).driver && root == d {
      assert LeftBy(root + [DRIVER], d, left(d));
    }
  }

  lemma SameParent(a: FilePath, x: string, b: FilePath, y: string)
    ensures a + [x] == b + [y] <==> a == b && x == y
  {
    if a + [x] == b + [y] {
      assert (a + [x])[..|a|] == a && (b + [y])[..|b|] == b;
      assert (a + [x])[|a|] == x && (b + [y])[|b|] == y;
    }
  }

  /** The rows are exactly those of the planned runs. */
  lemma RowsOfTheCohort(files: seq<FilePath>, dirs: set<FilePath>, left: FilePath -> Left, root: FilePath)
    requires Layout(files, dirs, left) && Separate(dirs)
    ensures IsRowRoot(files, root) <==> exists d :: d in dirs && root in RowsOf(d, left(d))
  {
    hide Layout, IsOrientationRoot, Output;
    LaidOrientationRoots(files, dirs, left, root);
    LaidMetadata(files, dirs, left, root);
    forall d | d in dirs && (root == d || root == Output(d))
      ensures AboveOrientation(files, root) <==> left(d).orientation
    {
      AboveOwnOrientation(files, dirs, left, d, root);
    }
  }

  lemma AboveOwnOrientation(files: seq<FilePath>, dirs: set<FilePath>, left: FilePath -> Left, d: FilePath,
      root: FilePath)
    requires Layout(files, dirs, left) && Separate(dirs) && d in dirs && (root == d || root == Output(d))
    ensures AboveOrientation(files, root) <==> left(d).orientation
  {
    hide Layout, IsOrientationRoot;
    if AboveOrientation(files, root) {
      var r :| root <= r && IsOrientationRoot(files, r);
      LaidOrientationRoots(files, dirs, left, r);
      var e :| e in dirs && left(e).orientation && r == Output(e);
      assert d <= root <= r;
      assert d == e;
    }
    if left(d).orientation {
      LaidOrientationRoots(files, dirs, left, Output(d));
      assert root <= Output(d);
    }
  }

  /** The directories a row can have at all. */
  function Directories(files: seq<FilePath>): set<FilePath> {
    (set i | 0 <= i < |files| :: RunRoot(files[i])) + (set i | 0 <= i < |files| :: Parent(files[i]))
  }

  /** The rows at or below a directory. */
  ghost function RowRootsUnder(files: seq<FilePath>, d: FilePath): set<FilePath> {
    set root | root in Directories(files) && d <= root && IsRowRoot(files, root)
  }

  lemma RowRootIsDirectory(files: seq<FilePath>, root: FilePath)
    requires IsRowRoot(files, root)
    ensures root in Directories(files)
  {
    hide RunRoot;
    if IsOrientationRoot(files, root) {
      var i :| 0 <= i < |files| && Orients(files[i], root);
    } else {
      var name := if root + [RUN] in files then RUN else DRIVER;
      var i :| 0 <= i < |files| && files[i] == root + [name];
      assert Parent(files[i]) == root;
    }
  }

  /** Under a run's directory stand exactly the rows of that run. */
  lemma RowsUnderRun(files: seq<FilePath>, dirs: set<FilePath>, left: FilePath -> Left, d: FilePath)
    requires Layout(files, dirs, left) && Separate(dirs) && d in dirs
    ensures RowRootsUnder(files, d) == RowsOf(d, left(d))
  {
    hide Layout, IsRowRoot, Directories;
    forall root ensures root in RowRootsUnder(files, d) <==> root in RowsOf(d, left(d)) {
      RowsOfTheCohort(files, dirs, left, root);
      if root in RowRootsUnder(files, d) {
        var e :| e in dirs && root in RowsOf(e, left(e));
        assert root == e || root == Output(e);
        assert e <= Output(e);
        assert d <= Output(e);
      }
      if root in RowsOf(d, left(d)) {
        RowRootIsDirectory(files, root);
        assert d <= Output(d);
      }
    }
  }

  /** A run directory yields exactly one row if and only if the run left an orientation, or just one of the two metadata
      files; a runner record without an orientation, beside the driver's record, yields two. */
  lemma OneRowIff(files: seq<FilePath>, dirs: set<FilePath>, left: FilePath -> Left, d: FilePath)
    requires Layout(files, dirs, left) && Separate(dirs) && d in dirs
    ensures |RowRootsUnder(files, d)| == 1 <==> left(d).orientation || left(d).run != left(d).driver
    ensures |RowRootsUnder(files, d)| == 2 <==> !left(d).orientation && left(d).run && left(d).driver
  {
    RowsUnderRun(files, dirs, left, d);
    hide RowRootsUnder, Layout, Separate;
    assert |Output(d)| == |d| + 1;
    var rows := RowsOf(d, left(d));
    assert rows == {Output(d), d} || rows == {Output(d)} || rows == {d} || rows == {};
  }

  // ---------------------------------------------------------------- discovery read off the paths

  lemma OrientsIff(p: FilePath, root: FilePath)
    ensures Orients(p, root) <==>
      (p == root + ["artifacts", "orientation.json"]
       || (p == root + ["orientation.json"] && !(root != [] && root[|root| - 1] == "artifacts"))
       || (p == ["orientation.json"] && root == []))
  {
    assert root + ["artifacts", "orientation.json"] == root + ["artifacts"] + ["orientation.json"];
    if Orients(p, root) {
      assert p == Parent(p) + ["orientation.json"];
      if Named(Parent(p), "artifacts") { assert Parent(p) == root + ["artifacts"]; }
    }
    var packed := root + ["artifacts", "orientation.json"];
    assert Parent(packed) == root + ["artifacts"] && Parent(root + ["artifacts"]) == root;
    assert Parent(root + ["orientation.json"]) == root;
  }

  /** The two dictionaries on their paths. A root has an orientation entry when it holds `orientation.json` itself,
      and is not called `artifacts`, or in a directory of that name; the entry is one of these. It has a metadata
      entry when it holds `run.json` or `driver-run.json` and no orientation root is at or below it; the entry is the
      former if there. */
  lemma DiscoveredOnPaths(files: seq<FilePath>, orientations: map<FilePath, FilePath>,
      metadata: map<FilePath, FilePath>, root: FilePath)
    requires Discovered(files, orientations, metadata)
    ensures var packed, plain := root + ["artifacts", "orientation.json"], root + ["orientation.json"];
      var named := root != [] && root[|root| - 1] == "artifacts";
      && (root in orientations <==> packed in files || (plain in files && !named))
      && (root in orientations ==>
            orientations[root] in files && (orientations[root] == packed || (orientations[root] == plain && !named)))
    ensures root in metadata <==>
      ((root + ["run.json"] in files || root + ["driver-run.json"] in files)
       && forall r :: r in orientations ==> !(root <= r))
    ensures root in metadata ==>
      metadata[root] == if root + ["run.json"] in files then root + ["run.json"] else root + ["driver-run.json"]
  {
    hide Orients, LastOrientation, Discovered;
    forall p ensures Orients(p, root) <==>
      (p == root + ["artifacts", "orientation.json"]
       || (p == root + ["orientation.json"] && !(root != [] && root[|root| - 1] == "artifacts"))
       || (p == ["orientation.json"] && root == []))
    {
      OrientsIff(p, root);
    }
    assert [] + ["orientation.json"] == ["orientation.json"];
    LastOrientationIs(files, root);
    DiscoveredRoots(files, orientations, metadata, root);
    hide Parent, RunRoot;
    var packed, plain := root + ["artifacts", "orientation.json"], root + ["orientation.json"];
    if packed in files { var i :| 0 <= i < |files| && files[i] == packed; assert Orients(files[i], root); }
    if plain in files && !(root != [] && root[|root| - 1] == "artifacts") {
      var i :| 0 <= i < |files| && files[i] == plain;
      assert Orients(files[i], root);
    }
  }

  lemma DiscoveredRoots(files: seq<FilePath>, orientations: map<FilePath, FilePath>, metadata: map<FilePath, FilePath>,
      root: FilePath)
    requires Discovered(files, orientations, metadata)
    ensures root in orientations <==> IsOrientationRoot(files, root)
    ensures root in orientations ==> LastOrientation(files, root) == Some(orientations[root])
    ensures root in metadata <==>
      ((root + ["run.json"] in files || root + ["driver-run.json"] in files)
       && forall r :: r in orientations ==> !(root <= r))
    ensures root in metadata ==>
      metadata[root] == if root + ["run.json"] in files then root + ["run.json"] else root + ["driver-run.json"]
  {
    hide IsOrientationRoot, LastOrientation;
  }

  /** The record of an orientation row: of its own `run.json` and `driver-run.json` and the `driver-run.json` one
      level up the first that is there and readable, and without any of them no field at all. */
  lemma RecordOnPaths(files: seq<FilePath>, content: Contents, d: FilePath, name: string)
    ensures var root := d + [name];
      var own, driver, above := root + ["run.json"], root + ["driver-run.json"], d + ["driver-run.json"];
      OrNone(FirstReadable(files, content, RecordPaths(root))) ==
        if own in files && content(own).Some? then content(own).value
        else if driver in files && content(driver).Some? then content(driver).value
        else if above in files && content(above).Some? then content(above).value
        else Fields(None, None, None, None)
  {
    var root := d + [name];
    assert Parent(root) == d;
    var one := [d + ["driver-run.json"]];
    var two := [root + ["driver-run.json"]] + one;
    assert RecordPaths(root) == [root + ["run.json"]] + two;
    assert RecordPaths(root)[1..] == two && two[1..] == one && one[1..] == [];
    assert FirstReadable(files, content, []).None?;
    var above := d + ["driver-run.json"];
    assert FirstReadable(files, content, one) == if above in files && content(above).Some? then content(above)
        else None;
  }

  /** The row of a root: with an orientation its record and that packet, without one its metadata file and no packet. */
  lemma RowSourceOnPaths(files: seq<FilePath>, content: Contents, root: FilePath, orientations: map<FilePath, FilePath>,
      metadata: map<FilePath, FilePath>)
    requires Discovered(files, orientations, metadata)
    ensures root in orientations ==>
      RowSource(files, content, root) ==
      (OrNone(FirstReadable(files, content, RecordPaths(root))), OrNone(content(orientations[root])))
    ensures root in metadata ==>
      RowSource(files, content, root) == (OrNone(content(metadata[root])), Fields(None, None, None, None))
    ensures OrNone(None) == Fields(None, None, None, None) && forall fields :: OrNone(Some(fields)) == fields
  {
    hide FirstReadable, RecordPaths, LastOrientation, AboveOrientation;
    LastOrientationIs(files, root);
    if root in metadata {
      assert AboveOrientation(files, root) || !IsOrientationRoot(files, root) by { NotAboveItself(files, root); }
    }
  }

  lemma NotAboveItself(files: seq<FilePath>, root: FilePath)
    ensures IsOrientationRoot(files, root) ==> AboveOrientation(files, root)
  {
    hide IsOrientationRoot;
    assert root <= root;
  }
}
