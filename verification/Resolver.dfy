/** Resolving a dotted class or function name in the syntax tree of a source file. */
module Resolver {
  import opened Common

  /** A statement, as far as the resolver looks: a compound statement (`if`, `for`, `with`, `try`, ...) carries the
      statements of all its blocks. */
  datatype Stmt =
    | Function(name: string, body: seq<Stmt>)
    | Class(name: string, body: seq<Stmt>)
    | Compound(blocks: seq<Stmt>)
    | Simple

  /** A Python identifier is not empty and holds no dot. */
  predicate Identifier(name: string) {
    name != "" && '.' !in name
  }

  predicate WellNamedNode(node: Stmt) {
    match node
    case Function(name, body) => Identifier(name) && WellNamed(body)
    case Class(name, body) => Identifier(name) && WellNamed(body)
    case Compound(blocks) => WellNamed(blocks)
    case Simple => true
  }

  predicate WellNamed(body: seq<Stmt>) {
    forall i :: 0 <= i < |body| ==> WellNamedNode(body[i])
  }

  // ---------------------------------------------------------------- what a name means

  /** `chain` leads through nested class bodies to a class or function definition, starting at `node`. */
  predicate NodeChain(node: Stmt, chain: seq<string>)
    decreases |chain|, 0
  {
    chain != [] && (node.Class? || node.Function?) && node.name == chain[0]
    && (|chain| == 1 || (node.Class? && Chain(node.body, chain[1..])))
  }

  predicate Chain(body: seq<Stmt>, chain: seq<string>)
    decreases |chain|, 1
  {
    exists i :: 0 <= i < |body| && NodeChain(body[i], chain)
  }

  /** `".".join(chain)` */
  function Dotted(chain: seq<string>): string {
    if chain == [] then "" else if |chain| == 1 then chain[0]
        else Dotted(chain[..|chain| - 1]) + "." + chain[|chain| - 1]
  }

  /** `f"{prefix}.{name}" if prefix else name` */
  function Joined(prefix: string, name: string): string {
    if prefix == "" then name else prefix + "." + name
  }

  function Extend(prefix: string, chain: seq<string>): string
    decreases |chain|
  {
    if chain == [] then prefix else Extend(Joined(prefix, chain[0]), chain[1..])
  }

  /** `name` is what the visitor calls some chain of `node` under `prefix`. */
  ghost predicate NodeNames(node: Stmt, prefix: string, name: string) {
    exists chain :: NodeChain(node, chain) && Extend(prefix, chain) == name
  }

  ghost predicate Names(body: seq<Stmt>, prefix: string, name: string) {
    exists i :: 0 <= i < |body| && NodeNames(body[i], prefix, name)
  }

  lemma NamesStep(body: seq<Stmt>, i: nat, prefix: string, name: string)
    requires i < |body|
    ensures Names(body[..i + 1], prefix, name) <==> Names(body[..i], prefix, name) || NodeNames(body[i], prefix, name)
  {
    hide NodeNames;
    if Names(body[..i + 1], prefix, name) {
      var k :| 0 <= k < i + 1 && NodeNames(body[..i + 1][k], prefix, name);
      if k < i { assert body[..i][k] == body[..i + 1][k]; }
    }
    if Names(body[..i], prefix, name) {
      var k :| 0 <= k < i && NodeNames(body[..i][k], prefix, name);
      assert body[..i + 1][k] == body[..i][k];
    }
    if NodeNames(body[i], prefix, name) {
      assert body[..i + 1][i] == body[i];
    }
  }

  /** A definition is called by its own name; what a class holds is called by names that extend it. */
  lemma DefinitionNames(node: Stmt, prefix: string, name: string)
    requires node.Class? || node.Function?
    ensures var own := Joined(prefix, node.name);
            NodeNames(node, prefix, name) <==> name == own || (node.Class? && Names(node.body, own, name))
  {
    var own := Joined(prefix, node.name);
    OwnName(node, prefix);
    if NodeNames(node, prefix, name) && name != own {
      var chain :| NodeChain(node, chain) && Extend(prefix, chain) == name;
      InnerName(node, prefix, chain);
    }
    if node.Class? && Names(node.body, own, name) {
      OuterName(node, prefix, name);
    }
  }

  lemma OwnName(node: Stmt, prefix: string)
    requires node.Class? || node.Function?
    ensures NodeNames(node, prefix, Joined(prefix, node.name))
  {
    assert NodeChain(node, [node.name]) && Extend(prefix, [node.name]) == Extend(Joined(prefix, node.name), []);
  }

  lemma InnerName(node: Stmt, prefix: string, chain: seq<string>)
    requires NodeChain(node, chain)
    ensures var own := Joined(prefix, node.name);
            Extend(prefix, chain) == own || (node.Class? && Names(node.body, own, Extend(prefix, chain)))
  {
    var own, rest := Joined(prefix, node.name), chain[1..];
    assert Extend(prefix, chain) == Extend(own, rest);
    if rest != [] {
      assert node.Class? && Chain(node.body, rest);
      var i :| 0 <= i < |node.body| && NodeChain(node.body[i], rest);
      assert NodeNames(node.body[i], own, Extend(own, rest));
    }
  }

  lemma OuterName(node: Stmt, prefix: string, name: string)
    requires node.Class? && Names(node.body, Joined(prefix, node.name), name)
    ensures NodeNames(node, prefix, name)
  {
    var own := Joined(prefix, node.name);
    var i :| 0 <= i < |node.body| && NodeNames(node.body[i], own, name);
    var rest :| NodeChain(node.body[i], rest) && Extend(own, rest) == name;
    var chain := [node.name] + rest;
    assert chain[1..] == rest && Chain(node.body, rest);
    assert NodeChain(node, chain) && Extend(prefix, chain) == name;
  }

  lemma NothingElseNames(node: Stmt, prefix: string, name: string)
    requires node.Compound? || node.Simple?
    ensures !NodeNames(node, prefix, name)
  {
  }

  // ---------------------------------------------------------------- the visitor

  /** The set the nested `visit` fills. */
  class Collector {
    var names: set<string>

    constructor ()
      ensures names == {}
    {
      names := {};
    }

    /** Adds exactly the names that chains of class definitions give under `prefix`. */
    method Visit(body: seq<Stmt>, prefix: string)
      modifies this
      ensures forall name :: name in names <==> name in old(names) || Names(body, prefix, name)
      decreases body
    {
      hide Names, NodeNames, Joined;
      assert forall name :: !Names(body[..0], prefix, name) by { NoNames(prefix); }
      for i := 0 to |body|
        invariant forall name :: name in names <==> name in old(names) || Names(body[..i], prefix, name)
      {
        var node := body[i];
        forall name
          ensures Names(body[..i + 1], prefix, name) <==>
              Names(body[..i], prefix, name) || NodeNames(node, prefix, name)
        {
          NamesStep(body, i, prefix, name);
        }
        if node.Function? || node.Class? {
          var name := Joined(prefix, node.name);
          forall n ensures NodeNames(node, prefix, n) <==> n == name || (node.Class? && Names(node.body, name, n)) {
            DefinitionNames(node, prefix, n);
          }
          names := names + {name};
          if node.Class? {
            Visit(node.body, name);
          }
        } else {
          forall n ensures !NodeNames(node, prefix, n) { NothingElseNames(node, prefix, n); }
        }
      }
      assert body[..|body|] == body;
    }
  }

  lemma NoNames(prefix: string)
    ensures forall name :: !Names([], prefix, name)
  {
  }

  // ---------------------------------------------------------------- names and chains

  lemma {:induction false} ChainIdentifiers(body: seq<Stmt>, chain: seq<string>)
    requires WellNamed(body) && Chain(body, chain)
    ensures chain != [] && forall k :: 0 <= k < |chain| ==> Identifier(chain[k])
    decreases |chain|
  {
    var i :| 0 <= i < |body| && NodeChain(body[i], chain);
    assert WellNamedNode(body[i]);
    if |chain| > 1 {
      ChainIdentifiers(body[i].body, chain[1..]);
      forall k | 0 <= k < |chain| ensures Identifier(chain[k]) {
        if k > 0 { assert chain[k] == chain[1..][k - 1]; }
      }
    }
  }

  lemma {:induction false} ExtendAppend(prefix: string, chain: seq<string>, last: string)
    ensures Extend(prefix, chain + [last]) == Joined(Extend(prefix, chain), last)
    decreases |chain|
  {
    if chain == [] {
      assert Extend(prefix, [last]) == Extend(Joined(prefix, last), []);
    } else {
      assert (chain + [last])[1..] == chain[1..] + [last];
      ExtendAppend(Joined(prefix, chain[0]), chain[1..], last);
    }
  }

  /** The name the visitor builds from the front is the dotted join. */
  lemma {:induction false} ExtendIsDotted(chain: seq<string>)
    requires forall k :: 0 <= k < |chain| ==> chain[k] != ""
    ensures Extend("", chain) == Dotted(chain)
    ensures chain != [] ==> Dotted(chain) != ""
  {
    if chain != [] {
      var n := |chain| - 1;
      ExtendIsDotted(chain[..n]);
      ExtendAppend("", chain[..n], chain[n]);
      assert chain == chain[..n] + [chain[n]];
      if n == 0 { assert chain[..n] == []; }
    }
  }

  lemma {:induction false} SplitAppend(s: string, last: string)
    requires '.' !in last
    ensures Split(s + "." + last, '.') == Split(s, '.') + [last]
  {
    if s == [] {
      assert s + "." + last == "." + last && ("." + last)[1..] == last;
      assert Split("." + last, '.') == [[]] + Split(last, '.');
    } else {
      assert (s + "." + last)[1..] == s[1..] + "." + last;
      SplitAppend(s[1..], last);
    }
  }

  /** Splitting a qualified name at its dots gives its chain back: a name has one chain only. */
  lemma {:induction false} SplitGivesChain(chain: seq<string>)
    requires chain != [] && forall k :: 0 <= k < |chain| ==> Identifier(chain[k])
    ensures Split(Dotted(chain), '.') == chain
  {
    var n := |chain| - 1;
    if n > 0 {
      SplitGivesChain(chain[..n]);
      SplitAppend(Dotted(chain[..n]), chain[n]);
      assert chain == chain[..n] + [chain[n]];
    } else {
      assert chain == [chain[0]];
    }
  }

  lemma NamesAreChains(body: seq<Stmt>, name: string)
    requires WellNamed(body)
    ensures Names(body, "", name) <==> Chain(body, Split(name, '.')) && Dotted(Split(name, '.')) == name
  {
    if Names(body, "", name) {
      var i :| 0 <= i < |body| && NodeNames(body[i], "", name);
      var chain :| NodeChain(body[i], chain) && Extend("", chain) == name;
      assert Chain(body, chain);
      ChainIdentifiers(body, chain);
      ExtendIsDotted(chain);
      SplitGivesChain(chain);
    }
    var chain := Split(name, '.');
    if Chain(body, chain) && Dotted(chain) == name {
      ChainIdentifiers(body, chain);
      ExtendIsDotted(chain);
      var i :| 0 <= i < |body| && NodeChain(body[i], chain);
      assert NodeNames(body[i], "", name);
    }
  }

  // ---------------------------------------------------------------- the resolver

  predicate PathAccepted(path: string, qualname: string) {
    StartsWith(path, "src/") && EndsWith(path, ".py") && qualname != "" && Find(qualname, "::").None?
  }

  /** Whether the qualified name is defined through class bodies alone. */
  predicate Resolves(tree: Option<seq<Stmt>>, path: string, qualname: string) {
    PathAccepted(path, qualname) && tree.Some? && Chain(tree.value, Split(qualname, '.'))
  }

  /** `canonical_head_identity`; `tree` is the parsed file, or nothing when it cannot be read or parsed. */
  method CanonicalHeadIdentity(tree: Option<seq<Stmt>>, path: string, qualname: string)
    returns (identity: Option<(string, string)>)
    requires tree.Some? ==> WellNamed(tree.value)
    ensures identity == if Resolves(tree, path, qualname) then Some((path, qualname)) else None
  {
    if !PathAccepted(path, qualname) || tree.None? {
      return None;
    }
    var collector := new Collector();
    collector.Visit(tree.value, "");
    NamesAreChains(tree.value, qualname);
    DottedSplit(qualname);
    return if qualname in collector.names then Some((path, qualname)) else None;
  }

  lemma {:induction false} DottedFront(field: string, rest: seq<string>)
    requires rest != []
    ensures Dotted([field] + rest) == field + "." + Dotted(rest)
  {
    var n := |rest| - 1;
    var all := [field] + rest;
    if n == 0 {
      assert all[..1] == [field];
    } else {
      assert all[..|all| - 1] == [field] + rest[..n];
      DottedFront(field, rest[..n]);
    }
  }

  lemma {:induction false} DottedSplit(s: string)
    ensures Dotted(Split(s, '.')) == s
  {
    if s != [] {
      var fields := Split(s[1..], '.');
      DottedSplit(s[1..]);
      if s[0] == '.' {
        DottedFront([], fields);
        assert [[]] + fields == Split(s, '.');
      } else {
        var first := [s[0]] + fields[0];
        if |fields| == 1 {
          assert Split(s, '.') == [first];
        } else {
          assert fields == [fields[0]] + fields[1..];
          DottedFront(fields[0], fields[1..]);
          DottedFront(first, fields[1..]);
        }
      }
    }
  }

  // ---------------------------------------------------------------- what resolution does and does not depend on

  /** Dropping the last component of a chain leaves a chain: whatever encloses a resolvable name is resolvable. */
  lemma {:induction false} ParentsResolve(body: seq<Stmt>, chain: seq<string>)
    requires Chain(body, chain) && |chain| > 1
    ensures Chain(body, chain[..|chain| - 1])
    decreases |chain|
  {
    var i :| 0 <= i < |body| && NodeChain(body[i], chain);
    var parent := chain[..|chain| - 1];
    if |chain| > 2 {
      ParentsResolve(body[i].body, chain[1..]);
      assert chain[1..][..|chain| - 2] == parent[1..];
    }
    assert NodeChain(body[i], parent);
  }

  /** `"A.b.c"` resolves only if `"A.b"` does. */
  lemma EnclosingNameResolves(tree: seq<Stmt>, path: string, parent: string, last: string)
    requires WellNamed(tree) && '.' !in last && parent != ""
    requires Resolves(Some(tree), path, parent + "." + last)
    ensures Resolves(Some(tree), path, parent)
  {
    SplitAppend(parent, last);
    var chain := Split(parent, '.') + [last];
    ParentsResolve(tree, chain);
    assert chain[..|chain| - 1] == Split(parent, '.');
    forall k: nat ensures !OccursAt(parent, "::", k) {
      if OccursAt(parent, "::", k) {
        assert (parent + "." + last)[k..k + 2] == parent[k..k + 2];
        assert OccursAt(parent + "." + last, "::", k);
      }
    }
  }

  /** The tree without function bodies and without compound statements. */
  function Stripped(body: seq<Stmt>): (r: seq<Stmt>)
    ensures |r| == |body|
    ensures forall i :: 0 <= i < |body| ==> r[i] == StrippedNode(body[i])
  {
    seq(|body|, i requires 0 <= i < |body| => StrippedNode(body[i]))
  }

  function StrippedNode(node: Stmt): Stmt {
    match node
    case Function(name, _) => Function(name, [])
    case Class(name, body) => Class(name, Stripped(body))
    case Compound(_) => Simple
    case Simple => Simple
  }

  /** What functions and compound statements contain never matters: only class bodies are searched. */
  lemma {:induction false} OnlyClassBodiesMatter(body: seq<Stmt>, chain: seq<string>)
    ensures Chain(Stripped(body), chain) <==> Chain(body, chain)
    decreases |chain|
  {
    forall i | 0 <= i < |body| ensures NodeChain(Stripped(body)[i], chain) <==> NodeChain(body[i], chain) {
      if body[i].Class? && |chain| > 1 {
        OnlyClassBodiesMatter(body[i].body, chain[1..]);
      }
    }
  }

  // ---------------------------------------------------------------- resolution read off the texts

  /** When a name resolves: a path that starts with "src/" and ends in ".py", a name that is not empty and holds
      no "::", a parsed file, and definitions that lead from its top level through classes along the name's dotted
      parts. */
  lemma ResolvesIff(tree: Option<seq<Stmt>>, path: string, qualname: string)
    ensures Resolves(tree, path, qualname) <==>
      ("src/" <= path && (exists front :: path == front + ".py")
       && qualname != "" && (forall k :: 0 <= k < |qualname| - 1 ==> !(qualname[k] == ':' && qualname[k + 1] == ':'))
       && tree.Some? && Chain(tree.value, Split(qualname, '.')))
  {
    hide Chain, Split, Find;
    SuffixIff(path, ".py");
    hide EndsWith;
    forall k: nat ensures OccursAt(qualname, "::", k) <==>
        k + 1 < |qualname| && qualname[k] == ':' && qualname[k + 1] == ':'
    {
      if k + 2 <= |qualname| { assert qualname[k..k + 2] == [qualname[k], qualname[k + 1]]; }
    }
    hide OccursAt;
    if k: nat :| OccursAt(qualname, "::", k) {
      assert k < |qualname| - 1 && qualname[k] == ':' && qualname[k + 1] == ':';
    }
    if k: nat :| k < |qualname| - 1 && qualname[k] == ':' && qualname[k + 1] == ':' {
      assert OccursAt(qualname, "::", k);
    }
  }

  /** A chain, step by step: a definition of the first name, and inside a class the rest. */
  lemma ChainIff(body: seq<Stmt>, first: string, rest: seq<string>)
    ensures !Chain(body, [])
    ensures Chain(body, [first] + rest) <==>
      exists i :: 0 <= i < |body| &&
        if rest == [] then
          exists inner :: body[i] == Class(first, inner) || body[i] == Function(first, inner)
        else
          exists inner :: body[i] == Class(first, inner) && Chain(inner, rest)
  {
    var chain := [first] + rest;
    assert chain[1..] == rest;
    forall i | 0 <= i < |body|
      ensures NodeChain(body[i], chain) <==>
        if rest == [] then
          exists inner :: body[i] == Class(first, inner) || body[i] == Function(first, inner)
        else
          exists inner :: body[i] == Class(first, inner) && Chain(inner, rest)
    {
      match body[i]
      case Class(name, inner) => assert body[i] == Class(name, inner);
      case Function(name, inner) => assert body[i] == Function(name, inner);
      case Compound(_) =>
      case Simple =>
    }
  }
}
