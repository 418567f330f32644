/** The candidate paths of an orientation packet: which are scored, and what disqualifies the packet. */
module Candidates {
  import opened Common
  import opened Grouping
  import opened Json
  import opened Paths
  import opened Sequences

  datatype Reason = CandidatesMissing | PathInvalid | PathNotRelative | CandidatesEmpty

  /** A candidate is an object with a text path. */
  predicate HasPath(candidate: Json) {
    candidate.Obj? && Get(candidate, "path").Str?
  }

  predicate Usable(candidate: Json) {
    HasPath(candidate) && SafeRelative(Get(candidate, "path").s)
  }

  function CandidateText(candidate: Json): string {
    if HasPath(candidate) then Get(candidate, "path").s else ""
  }

  function Complaint(candidate: Json): seq<Reason> {
    if !HasPath(candidate) then [PathInvalid] else if !Usable(candidate) then [PathNotRelative] else []
  }

  function Complaints(candidates: seq<Json>): seq<Reason> {
    if candidates == [] then []
        else Complaints(candidates[..|candidates| - 1]) + Complaint(candidates[|candidates| - 1])
  }

  /** `paths[:5]` */
  function FirstFive(paths: seq<string>): (r: seq<string>)
    ensures |r| <= 5 && r <= paths
  {
    if |paths| <= 5 then paths else paths[..5]
  }

  function UsablePaths(candidates: seq<Json>): seq<string> {
    Map(CandidateText, Filter(Usable, candidates))
  }

  /** `_candidate_paths` */
  method CandidatePaths(candidates: Json) returns (paths: seq<string>, reasons: seq<Reason>)
    ensures !candidates.List? ==> paths == [] && reasons == [CandidatesMissing]
    ensures candidates.List? ==> paths == FirstFive(UsablePaths(candidates.items))
    ensures candidates.List? ==>
      reasons == Dedup(Complaints(candidates.items)
                       + if UsablePaths(candidates.items) == [] then [CandidatesEmpty] else [])
  {
    hide SafeRelative, Dedup;
    if !candidates.List? {
      return [], [CandidatesMissing];
    }
    var items := candidates.items;
    paths, reasons := [], [];
    for i := 0 to |items|
      invariant paths == UsablePaths(items[..i])
      invariant reasons == Complaints(items[..i])
    {
      var candidate := items[i];
      UsableStep(items, i);
      assert items[..i + 1][..i] == items[..i];
      if !candidate.Obj? || !Get(candidate, "path").Str? {
        reasons := reasons + [PathInvalid];
        continue;
      }
      var path := Get(candidate, "path").s;
      if !SafeRelative(path) {
        reasons := reasons + [PathNotRelative];
        continue;
      }
      paths := paths + [path];
    }
    assert items[..|items|] == items;
    if paths == [] {
      reasons := reasons + [CandidatesEmpty];
    } else {
      assert reasons + [] == reasons;
    }
    paths, reasons := FirstFive(paths), Dedup(reasons);
  }

  lemma UsableStep(items: seq<Json>, i: nat)
    requires i < |items|
    ensures UsablePaths(items[..i + 1]) ==
            UsablePaths(items[..i]) + if Usable(items[i]) then [CandidateText(items[i])] else []
  {
    hide Usable, CandidateText;
    assert items[..i + 1] == items[..i] + [items[i]];
    FilterAppend(Usable, items[..i], items[i]);
    var kept := Filter(Usable, items[..i]);
    assert (kept + [items[i]])[..|kept|] == kept;
  }

  lemma {:induction false} NoComplaintIffUsable(candidates: seq<Json>)
    ensures Complaints(candidates) == [] <==> forall i :: 0 <= i < |candidates| ==> Usable(candidates[i])
  {
    hide SafeRelative;
    if candidates != [] {
      var n := |candidates| - 1;
      NoComplaintIffUsable(candidates[..n]);
      assert candidates == candidates[..n] + [candidates[n]];
    }
  }

  /** A packet draws no complaint exactly when it lists at least one candidate and every one is a relative path. */
  lemma CleanIffAllUsable(items: seq<Json>)
    ensures Dedup(Complaints(items) + if UsablePaths(items) == [] then [CandidatesEmpty] else []) == []
       <==> items != [] && forall i :: 0 <= i < |items| ==> Usable(items[i])
  {
    hide Usable;
    NoComplaintIffUsable(items);
    var all := Complaints(items) + if UsablePaths(items) == [] then [CandidatesEmpty] else [];
    DedupMembers(all);
    assert Dedup(all) == [] <==> all == [] by {
      if all != [] { assert all[0] in Dedup(all); }
    }
    FilterMembers(Usable, items);
    if items != [] && forall i :: 0 <= i < |items| ==> Usable(items[i]) {
      assert items[0] in Filter(Usable, items);
    }
  }

  /** What is scored: every scored path is a relative path of some candidate, and a candidate among the first five
      usable ones is scored. */
  lemma ScoredPaths(items: seq<Json>, k: nat)
    requires k < |Filter(Usable, items)| && k < 5
    ensures k < |FirstFive(UsablePaths(items))|
    ensures FirstFive(UsablePaths(items))[k] == CandidateText(Filter(Usable, items)[k])
    ensures Filter(Usable, items)[k] in items && SafeRelative(FirstFive(UsablePaths(items))[k])
  {
    hide SafeRelative;
    FilterMembers(Usable, items);
    assert Filter(Usable, items)[k] in Filter(Usable, items);
    MapAt(CandidateText, Filter(Usable, items), k);
  }

  // ---------------------------------------------------------------- the complaints read off the candidates

  /** A candidate that names the path `path`. */
  predicate Names(candidate: Json, path: string) {
    HasField(candidate, "path", Str(path))
  }

  /** A path is scored when it has no leading slash, no upward segment and a segment that is neither empty nor a dot. */
  predicate Scorable(path: string) {
    (path == "" || path[0] != '/') && ".." !in Split(path, '/')
    && exists part :: part in Split(path, '/') && part != "" && part != "."
  }

  lemma UsableIff(candidate: Json)
    ensures HasPath(candidate) <==> exists path :: Names(candidate, path)
    ensures Usable(candidate) <==> exists path :: Names(candidate, path) && Scorable(path)
    ensures forall path :: Names(candidate, path) ==> CandidateText(candidate) == path
  {
    if HasPath(candidate) {
      var path := Get(candidate, "path").s;
      assert Names(candidate, path);
      SafeRelativeIff(path);
    }
    hide SafeRelative, Scorable;
  }

  lemma {:induction false} ComplaintsMean(items: seq<Json>)
    ensures PathInvalid in Complaints(items) <==> exists i :: 0 <= i < |items| && !HasPath(items[i])
    ensures PathNotRelative in Complaints(items) <==>
        exists i :: 0 <= i < |items| && HasPath(items[i]) && !Usable(items[i])
    ensures forall r :: r in Complaints(items) ==> r == PathInvalid || r == PathNotRelative
  {
    hide SafeRelative, HasPath;
    if items != [] {
      var n := |items| - 1;
      ComplaintsMean(items[..n]);
      assert forall i :: 0 <= i < n ==> items[..n][i] == items[i];
    }
  }

  /** What each complaint of a packet says about its candidates. */
  lemma ReasonsMean(items: seq<Json>)
    ensures var reasons := Dedup(Complaints(items) + if UsablePaths(items) == [] then [CandidatesEmpty] else []);
      && (PathInvalid in reasons <==> exists i :: 0 <= i < |items| && !HasPath(items[i]))
      && (PathNotRelative in reasons <==> exists i :: 0 <= i < |items| && HasPath(items[i]) && !Usable(items[i]))
      && (CandidatesEmpty in reasons <==> forall i :: 0 <= i < |items| ==> !Usable(items[i]))
      && CandidatesMissing !in reasons
  {
    hide HasPath, Usable, Dedup, Complaints, UsablePaths;
    var all := Complaints(items) + if UsablePaths(items) == [] then [CandidatesEmpty] else [];
    DedupMembers(all);
    ComplaintsMean(items);
    NoPathsIff(items);
    assert forall r :: r in all <==> r in Complaints(items) || (r == CandidatesEmpty && UsablePaths(items) == []);
  }

  lemma NoPathsIff(items: seq<Json>)
    ensures UsablePaths(items) == [] <==> forall i :: 0 <= i < |items| ==> !Usable(items[i])
  {
    hide Usable, CandidateText;
    FilterMembers(Usable, items);
    hide Filter;
    var kept := Filter(Usable, items);
    if kept != [] {
      assert kept[0] in kept;
      var i :| 0 <= i < |items| && items[i] == kept[0];
    }
    forall i | 0 <= i < |items| && Usable(items[i]) ensures kept != [] {
      assert items[i] in kept;
    }
  }
}
