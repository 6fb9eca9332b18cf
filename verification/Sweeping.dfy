/** The two stale-temp sweeps. */
module Sweeping {
  import opened FileSystem
  import opened TempNames
  import opened Walking
  import opened QuietTrees
  import opened QuietWalks

  datatype SweepResult = SweepResult(removed: nat, failed: nat, unreadable: nat)

  const NOTHING: SweepResult := SweepResult(0, 0, 0)

  datatype Sweep = Sweep(tree: Tree, result: SweepResult)

  function BaseName(p: Path): Name { if p == [] then "." else p[|p| - 1] }

  /** One candidate: a fresh look at it, then the unlink if it is a stale regular file of
      the temp shape. Gone is fine; what cannot be inspected or unlinked is counted. */
  function Reap(s: Sweep, q: Path, cutoff: int): Sweep {
    if !IsTempName(BaseName(q)) || q !in s.tree then s else
    match s.tree[q]
    case Regular(mtime, fate) =>
      if fate.StatFails? then s.(result := s.result.(failed := s.result.failed + 1))
      else if mtime > cutoff then s
      else if fate.RemoveFails? then s.(result := s.result.(failed := s.result.failed + 1))
      else Sweep(s.tree - {q}, s.result.(removed := s.result.removed + 1))
    case Directory(_) => s
    case other => if other.statFails then s.(result := s.result.(failed := s.result.failed + 1)) else s
  }

  /** The walk callback of both sweeps; only the confined one is ever told not to descend. */
  function VisitWith(cutoff: int, deep: bool): Callback<Sweep> {
    (s: Sweep, v: Visit) =>
      match v
      case Unreadable(q) =>
        if q == [] then (s, Some(Broken(EACCES))) else (s.(result := s.result.(unreadable := s.result.unreadable + 1)), None)
      case Entered(q, isDir) =>
        if isDir then (s, if !deep && q != [] then Some(SkipDir) else None) else (Reap(s, q, cutoff), None)
  }

  // ---- What a sweep has to do ---------------------------------------------------

  predicate StaleTemp(t: Tree, cutoff: int, q: Path) {
    q in t && IsTempName(BaseName(q)) && t[q].Regular? && t[q].fate.Removable? && t[q].mtime <= cutoff
  }

  predicate Stubborn(t: Tree, cutoff: int, q: Path) {
    q in t && IsTempName(BaseName(q)) &&
    match t[q]
    case Regular(mtime, fate) => fate.StatFails? || (fate.RemoveFails? && mtime <= cutoff)
    case Directory(_) => false
    case other => other.statFails
  }

  /** The files to reclaim: regular, of the temp shape, not changed after the cutoff, in
      the root directory or, when descending, in any directory that can be reached. */
  ghost function ToReclaim(t: Tree, cutoff: int, deep: bool): set<Path> {
    set q | q in t && Due(t, [], deep, Entered(q, false)) && StaleTemp(t, cutoff, q)
  }

  ghost function ToReport(t: Tree, cutoff: int, deep: bool): set<Path> {
    set q | q in t && Due(t, [], deep, Entered(q, false)) && Stubborn(t, cutoff, q)
  }

  ghost function Closed(t: Tree, deep: bool): set<Path> {
    set q | q in t && Due(t, [], deep, Unreadable(q))
  }

  ghost function Swept(t: Tree, cutoff: int, deep: bool): Sweep {
    Sweep(t - ToReclaim(t, cutoff, deep),
          SweepResult(|ToReclaim(t, cutoff, deep)|, |ToReport(t, cutoff, deep)|, |Closed(t, deep)|))
  }

  // ---- Any complete order of visits does exactly that ----------------------------

  function FilesIn(vs: seq<Visit>): set<Path> { set v | v in vs && v.Entered? && !v.isDir :: v.path }

  function ClosedIn(vs: seq<Visit>): set<Path> { set v | v in vs && v.Unreadable? :: v.path }

  ghost function ReclaimedIn(t: Tree, cutoff: int, vs: seq<Visit>): set<Path> { set q | q in FilesIn(vs) && StaleTemp(t, cutoff, q) }

  ghost function ReportedIn(t: Tree, cutoff: int, vs: seq<Visit>): set<Path> { set q | q in FilesIn(vs) && Stubborn(t, cutoff, q) }

  /** The visits still to come find what the tree held at the start. */
  ghost predicate StillThere(t: Tree, s: Sweep, vs: seq<Visit>) {
    forall k :: 0 <= k < |vs| && vs[k].Entered? && !vs[k].isDir ==> Unchanged(t, s.tree, vs[k].path)
  }

  predicate Unchanged(t: Tree, tree: Tree, q: Path) { (q in tree <==> q in t) && (q in t ==> tree[q] == t[q]) }

  lemma LaterVisits(t: Tree, s: Sweep, s': Sweep, v: Visit, rest: seq<Visit>)
    requires DistinctVisits([v] + rest) && StillThere(t, s, [v] + rest)
    requires s'.tree == s.tree || (v.Entered? && !v.isDir && s'.tree == s.tree - {v.path})
    ensures DistinctVisits(rest) && StillThere(t, s', rest)
  {
    var all := [v] + rest;
    forall i, j | 0 <= i < j < |rest|
      ensures rest[i] != rest[j]
    {
      assert rest[i] == all[i + 1] && rest[j] == all[j + 1];
    }
    forall k | 0 <= k < |rest| && rest[k].Entered? && !rest[k].isDir
      ensures Unchanged(t, s'.tree, rest[k].path)
    {
      assert rest[k] == all[k + 1] && all[0] != all[k + 1];
      assert Unchanged(t, s.tree, all[k + 1].path);
    }
  }

  /** One visit and the rest: what each adds to the files and to the closed directories. */
  ghost predicate Peels(all: seq<Visit>, v: Visit, vs: seq<Visit>) {
    && (v.Entered? && !v.isDir ==> FilesIn(all) == {v.path} + FilesIn(vs) && v.path !in FilesIn(vs))
    && (!(v.Entered? && !v.isDir) ==> FilesIn(all) == FilesIn(vs))
    && (v.Unreadable? ==> ClosedIn(all) == {v.path} + ClosedIn(vs) && v.path !in ClosedIn(vs))
    && (!v.Unreadable? ==> ClosedIn(all) == ClosedIn(vs))
  }

  lemma FilesInSplit(v: Visit, vs: seq<Visit>)
    requires DistinctVisits([v] + vs)
    ensures Peels([v] + vs, v, vs)
  {
    var all := [v] + vs;
    forall k | 0 <= k < |vs|
      ensures vs[k] != v
    {
      assert all[k + 1] == vs[k] && all[0] == v;
    }
    assert forall u :: u in all <==> u == v || u in vs;
    if v.Entered? && !v.isDir {
      assert forall u :: u in vs && u.Entered? && !u.isDir && u.path == v.path ==> u == v;
    }
    if v.Unreadable? {
      assert forall u :: u in vs && u.Unreadable? && u.path == v.path ==> u == v;
    }
  }

  /** What folding over the visits has to come to. */
  ghost function SweptBy(t: Tree, cutoff: int, s: Sweep, vs: seq<Visit>): Sweep {
    Sweep(s.tree - ReclaimedIn(t, cutoff, vs),
          SweepResult(s.result.removed + |ReclaimedIn(t, cutoff, vs)|, s.result.failed + |ReportedIn(t, cutoff, vs)|,
                      s.result.unreadable + |ClosedIn(vs)|))
  }

  lemma {:induction false} FoldSweeps(t: Tree, cutoff: int, deep: bool, s: Sweep, vs: seq<Visit>)
    requires DistinctVisits(vs) && StillThere(t, s, vs) && Unreadable([]) !in vs
    ensures Fold(VisitWith(cutoff, deep), s, vs) == SweptBy(t, cutoff, s, vs)
    decreases |vs|
  {
    if vs == [] {
      assert s.tree - {} == s.tree;
    } else {
      var v, rest := vs[0], vs[1..];
      assert vs == [v] + rest && v in vs;
      var s' := VisitWith(cutoff, deep)(s, v).0;
      assert SweptBy(t, cutoff, s, vs) == SweptBy(t, cutoff, s', rest) by {
        assert v.Entered? && !v.isDir ==> Unchanged(t, s.tree, vs[0].path);
        FilesInSplit(v, rest);
        OneVisit(t, cutoff, deep, s, vs, v, rest);
      }
      assert DistinctVisits(rest) && StillThere(t, s', rest) by {
        TouchesOneFile(cutoff, deep, s, v);
        LaterVisits(t, s, s', v, rest);
      }
      FoldSweeps(t, cutoff, deep, s', rest);
    }
  }

  lemma TouchesOneFile(cutoff: int, deep: bool, s: Sweep, v: Visit)
    ensures var s' := VisitWith(cutoff, deep)(s, v).0;
            s'.tree == s.tree || (v.Entered? && !v.isDir && s'.tree == s.tree - {v.path})
  {
  }

  lemma OneVisit(t: Tree, cutoff: int, deep: bool, s: Sweep, vs: seq<Visit>, v: Visit, rest: seq<Visit>)
    requires Peels(vs, v, rest) && v != Unreadable([]) && (v.Entered? && !v.isDir ==> Unchanged(t, s.tree, v.path))
    ensures SweptBy(t, cutoff, s, vs) == SweptBy(t, cutoff, VisitWith(cutoff, deep)(s, v).0, rest)
  {
    match v {
      case Unreadable(q) => ClosedVisit(t, cutoff, s, vs, q, rest);
      case Entered(q, true) => SameFilesSameSets(t, cutoff, vs, rest);
      case Entered(q, false) => FileVisit(t, cutoff, s, vs, q, rest);
    }
  }

  lemma ClosedVisit(t: Tree, cutoff: int, s: Sweep, vs: seq<Visit>, q: Path, rest: seq<Visit>)
    requires FilesIn(vs) == FilesIn(rest) && ClosedIn(vs) == {q} + ClosedIn(rest) && q !in ClosedIn(rest)
    ensures SweptBy(t, cutoff, s, vs) ==
            SweptBy(t, cutoff, s.(result := s.result.(unreadable := s.result.unreadable + 1)), rest)
  {
  }

  lemma SameFilesSameSets(t: Tree, cutoff: int, vs: seq<Visit>, us: seq<Visit>)
    requires FilesIn(vs) == FilesIn(us)
    ensures ReclaimedIn(t, cutoff, vs) == ReclaimedIn(t, cutoff, us) && ReportedIn(t, cutoff, vs) == ReportedIn(t, cutoff, us)
  {
  }

  lemma OneMoreReclaimed(t: Tree, cutoff: int, vs: seq<Visit>, q: Path, rest: seq<Visit>)
    requires FilesIn(vs) == {q} + FilesIn(rest) && q !in FilesIn(rest)
    ensures var now, later := ReclaimedIn(t, cutoff, vs), ReclaimedIn(t, cutoff, rest);
            if StaleTemp(t, cutoff, q) then now == later + {q} && |now| == |later| + 1 else now == later
  {
  }

  lemma OneMoreReported(t: Tree, cutoff: int, vs: seq<Visit>, q: Path, rest: seq<Visit>)
    requires FilesIn(vs) == {q} + FilesIn(rest) && q !in FilesIn(rest)
    ensures |ReportedIn(t, cutoff, vs)| == |ReportedIn(t, cutoff, rest)| + if Stubborn(t, cutoff, q) then 1 else 0
  {
    var later := ReportedIn(t, cutoff, rest);
    assert q !in later;
    if Stubborn(t, cutoff, q) {
      assert ReportedIn(t, cutoff, vs) == later + {q};
    } else {
      assert ReportedIn(t, cutoff, vs) == later;
    }
  }

  lemma FileVisit(t: Tree, cutoff: int, s: Sweep, vs: seq<Visit>, q: Path, rest: seq<Visit>)
    requires FilesIn(vs) == {q} + FilesIn(rest) && q !in FilesIn(rest) && ClosedIn(vs) == ClosedIn(rest)
    requires Unchanged(t, s.tree, q)
    ensures SweptBy(t, cutoff, s, vs) == SweptBy(t, cutoff, Reap(s, q, cutoff), rest)
  {
    ReapDoes(t, cutoff, s, q);
    OneMoreReported(t, cutoff, vs, q, rest);
    OneMoreReclaimed(t, cutoff, vs, q, rest);
    if StaleTemp(t, cutoff, q) {
      RemoveBoth(s.tree, q, ReclaimedIn(t, cutoff, rest));
    }
  }

  lemma RemoveBoth(tree: Tree, q: Path, others: set<Path>)
    ensures (tree - {q}) - others == tree - (others + {q})
  {
  }

  /** One reap, told by what the candidate was at the start. */
  lemma ReapDoes(t: Tree, cutoff: int, s: Sweep, q: Path)
    requires Unchanged(t, s.tree, q)
    ensures Reap(s, q, cutoff) ==
      if StaleTemp(t, cutoff, q) then Sweep(s.tree - {q}, s.result.(removed := s.result.removed + 1))
      else if Stubborn(t, cutoff, q) then s.(result := s.result.(failed := s.result.failed + 1))
      else s
    ensures !(StaleTemp(t, cutoff, q) && Stubborn(t, cutoff, q))
  {
  }

  /** Whatever the order, visiting exactly what is due reclaims exactly the stale temps,
      and the counts are the sizes of the three sets. */
  lemma CompleteVisitsSweepExactly(t: Tree, cutoff: int, deep: bool, told: bool, vs: seq<Visit>)
    requires Complete(t, [], deep, vs) && IsDirAt(t, []) && t[[]].readable
    ensures Fold(VisitWith(cutoff, told), Sweep(t, NOTHING), vs) == Swept(t, cutoff, deep)
  {
    FoldSweeps(t, cutoff, told, Sweep(t, NOTHING), vs);
    forall q
      ensures q in FilesIn(vs) <==> Due(t, [], deep, Entered(q, false))
      ensures q in ClosedIn(vs) <==> Due(t, [], deep, Unreadable(q))
    {
      assert Entered(q, false) in vs <==> Due(t, [], deep, Entered(q, false));
      assert Unreadable(q) in vs <==> Due(t, [], deep, Unreadable(q));
    }
    assert ReclaimedIn(t, cutoff, vs) == ToReclaim(t, cutoff, deep);
    assert ReportedIn(t, cutoff, vs) == ToReport(t, cutoff, deep);
    assert ClosedIn(vs) == Closed(t, deep);
  }
}
