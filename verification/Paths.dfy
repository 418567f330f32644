/** POSIX paths as `pathlib` treats them. */
module Paths {
  import opened Common
  import opened Grouping

  /** A POSIX path as `pathlib` keeps it: empty and "." segments are gone. */
  datatype Path = Path(absolute: bool, parts: seq<string>)

  /** The parts of a path below a fixed root. */
  type FilePath = seq<string>

  predicate Kept(part: string) {
    part != "" && part != "."
  }

  function ParsePath(text: string): Path {
    Path(StartsWith(text, "/"), Filter(Kept, Split(text, '/')))
  }

  /** The `/` operator: an absolute right-hand side replaces the left one. */
  function Join(base: Path, text: string): Path {
    var p := ParsePath(text);
    if p.absolute then p else base.(parts := base.parts + p.parts)
  }

  /** Text that names exactly one path component. */
  predicate SingleSegment(text: string) {
    Kept(text) && '/' !in text
  }

  lemma ParseSegment(text: string)
    requires SingleSegment(text)
    ensures ParsePath(text) == Path(false, [text])
  {
    FilterAppend(Kept, [], text);
    assert [] + [text] == [text];
  }

  lemma JoinSegment(base: Path, text: string)
    requires SingleSegment(text)
    ensures Join(base, text) == base.(parts := base.parts + [text])
  {
    ParseSegment(text);
  }

  /** A relative path with at least one component and no step upwards. */
  predicate SafeRelative(text: string) {
    var p := ParsePath(text);
    !p.absolute && p.parts != [] && ".." !in p.parts
  }

  /** Where an absolute path leads on a file system without links: each upward step drops what precedes it. */
  function Resolve(parts: seq<string>): seq<string> {
    if parts == [] then []
    else
      var before, last := Resolve(parts[..|parts| - 1]), parts[|parts| - 1];
      if last == ".." then (if before == [] then [] else before[..|before| - 1]) else before + [last]
  }

  function Resolved(p: Path): Path {
    p.(parts := Resolve(p.parts))
  }

  lemma {:induction false} ResolveAppend(a: seq<string>, b: seq<string>)
    requires ".." !in b
    ensures Resolve(a + b) == Resolve(a) + b
  {
    if b == [] {
      assert a + b == a && Resolve(a) + b == Resolve(a);
    } else {
      var n := |b| - 1;
      assert (a + b)[..|a + b| - 1] == a + b[..n];
      ResolveAppend(a, b[..n]);
      assert Resolve(a) + b[..n] + [b[n]] == Resolve(a) + b;
    }
  }

  lemma ResolveUp(a: seq<string>)
    ensures Resolve(a + [".."]) == if Resolve(a) == [] then [] else Resolve(a)[..|Resolve(a)| - 1]
  {
    assert (a + [".."])[..|a|] == a;
  }

  /** `"/".join(parts)` */
  function Slashed(parts: seq<string>): string {
    if parts == [] then "" else if |parts| == 1 then parts[0]
        else Slashed(parts[..|parts| - 1]) + "/" + parts[|parts| - 1]
  }

  lemma {:induction false} SlashedAppend(a: seq<string>, b: seq<string>)
    requires a != [] && b != []
    ensures Slashed(a + b) == Slashed(a) + "/" + Slashed(b)
  {
    var n := |b| - 1;
    assert (a + b)[..|a + b| - 1] == a + b[..n];
    if n == 0 {
      assert a + b[..n] == a;
    } else {
      SlashedAppend(a, b[..n]);
      assert Slashed(a) + "/" + Slashed(b[..n]) + "/" + b[n] == Slashed(a) + "/" + (Slashed(b[..n]) + "/" + b[n]);
    }
  }

  /** `"/".join(path.parts)`: the anchor of an absolute path is itself a part. */
  function PathText(p: Path): string {
    Slashed((if p.absolute then ["/"] else []) + p.parts)
  }

  // ---------------------------------------------------------------- paths read off their text

  /** A path's parts, segment by segment: empty segments and single dots are dropped. */
  lemma SegmentsOfText(segment: string, rest: string)
    requires '/' !in segment
    ensures var own := if segment == "" || segment == "." then [] else [segment];
            ParsePath(segment).parts == own && ParsePath(segment + "/" + rest).parts == own + ParsePath(rest).parts
    ensures forall text :: ParsePath(text).absolute <==> text != "" && text[0] == '/'
  {
    SplitFirst(segment, rest, '/');
    assert segment + ['/'] + rest == segment + "/" + rest;
    FilterConcat(Kept, [segment], Split(rest, '/'));
    FilterAppend(Kept, [], segment);
    assert [] + [segment] == [segment];
    hide Filter, Split;
    forall text ensures StartsWith(text, "/") <==> text != "" && text[0] == '/' {
    }
  }

  /** A safe relative path: no leading slash, no upward segment, and something besides empty segments and dots. */
  lemma SafeRelativeIff(text: string)
    ensures SafeRelative(text) <==>
      ((text == "" || text[0] != '/') && ".." !in Split(text, '/')
       && exists part :: part in Split(text, '/') && part != "" && part != ".")
  {
    FilterMembers(Kept, Split(text, '/'));
    var parts := ParsePath(text).parts;
    if parts != [] { assert parts[0] in parts; }
    hide Filter, Split;
  }
}
