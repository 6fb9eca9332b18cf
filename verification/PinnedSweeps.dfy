/** The confined sweep as it runs: its candidates are reaped through the pinned parent. */
module PinnedSweeps {
  import opened FileSystem
  import opened TempNames
  import opened Walking
  import opened QuietTrees
  import opened QuietWalks
  import opened Sweeping
  import opened Sweeps
  import opened Contested
  import opened Pinning

  // ---- The tree below an open directory ------------------------------------------

  /** The inode a path names when no component before the last is a symlink. */
  function Named(v: View, root: Ino, p: Path): Option<Ino> {
    if p == [] then Some(root) else
    match Direct(v, root, p[..|p| - 1])
    case None => None
    case Some(d) => Pinning.Bound(v, Slot(d, p[|p| - 1]))
  }

  /** What the tree says of an inode; fates and readability are not in the inode. */
  predicate Shows(v: View, i: Ino, o: Obj) {
    i in v.kind && i in v.mtime &&
    match o
    case Regular(mtime, _) => v.kind[i] == RegularFile && v.mtime[i] == mtime
    case Directory(_) => v.kind[i] == RealDir
    case Link(_) => v.kind[i] == SoftLink
    case Odd(_) => v.kind[i] == Device
  }

  /** The tree is what is below the root; a directory has one path only. */
  ghost predicate Mirrors(v: View, root: Ino, t: Tree) {
    && (forall p: Path :: p in t <==> Named(v, root, p).Some?)
    && (forall p: Path :: p in t ==> Shows(v, Named(v, root, p).value, t[p]))
    && (forall p: Path, q: Path :: Direct(v, root, p).Some? && Direct(v, root, p) == Direct(v, root, q) ==> p == q)
  }

  lemma {:induction false} UnlinkingKeepsDirectories(v: View, sl: Slot, dir: Ino, p: Path)
    requires sl in v.entries && BoundToFile(v, sl.dir, sl.name, v.entries[sl])
    ensures Direct(Without(v, sl), dir, p) == Direct(v, dir, p)
    decreases |p|
  {
    if p != [] {
      var first := Slot(dir, p[0]);
      if first in v.entries && BoundToDir(v, dir, p[0], v.entries[first]) {
        UnlinkingKeepsDirectories(v, sl, v.entries[first], p[1..]);
      }
    }
  }

  /** Unlinking a file takes exactly its own path out of the tree. */
  lemma UnlinkingIsRemoving(v: View, root: Ino, t: Tree, q: Path, sl: Slot)
    requires Mirrors(v, root, t) && RegularAt(v, root, q) == Some(sl)
    ensures Mirrors(Without(v, sl), root, t - {q})
  {
    var v' := Without(v, sl);
    forall p: Path
      ensures Direct(v', root, p) == Direct(v, root, p)
    {
      UnlinkingKeepsDirectories(v, sl, root, p);
    }
    forall p: Path
      ensures Named(v', root, p) == if p == q then None else Named(v, root, p)
    {
      OnePathToTheFile(v, root, t, q, sl, p);
    }
  }

  lemma OnePathToTheFile(v: View, root: Ino, t: Tree, q: Path, sl: Slot, p: Path)
    requires Mirrors(v, root, t) && RegularAt(v, root, q) == Some(sl) && (forall r: Path :: Direct(Without(v, sl), root, r) == Direct(v, root, r))
    ensures Named(Without(v, sl), root, p) == if p == q then None else Named(v, root, p)
  {
    if p != [] && Direct(v, root, p[..|p| - 1]) == Some(sl.dir) && p[|p| - 1] == sl.name {
      assert p[..|p| - 1] == q[..|q| - 1];
      assert p == p[..|p| - 1] + [sl.name] == q[..|q| - 1] + [sl.name] == q;
    }
  }

  /** The pinned lookup and the tree agree on what is stale. */
  lemma StaleIsStale(v: View, root: Ino, t: Tree, q: Path, cutoff: int)
    requires Mirrors(v, root, t) && q in t && !t[q].Directory?
    ensures StaleTempAt(v, root, q, cutoff).Some? <==> IsTempName(BaseName(q)) && t[q].Regular? && t[q].mtime <= cutoff
  {
    assert Named(v, root, []) == Some(root);
    if IsTempName(BaseName(q)) {
      TempNamesNameEntries(q);
    }
  }

  // ---- What a candidate turned out to be -------------------------------------------

  /** The candidate's fate, as it turned out. */
  function Told(o: Obj, failed: bool): Obj {
    match o
    case Regular(mtime, _) => Regular(mtime, if failed then StatFails else Removable)
    case Directory(readable) => o
    case Link(_) => Link(failed)
    case Odd(_) => Odd(failed)
  }

  function Fated(t: Tree, q: Path, failed: bool): Tree { if q in t then t[q := Told(t[q], failed)] else t }

  /** Only the visit of a candidate tells a fate. */
  function Learned(t: Tree, v: Visit, failed: bool): Tree { if v.Entered? && !v.isDir then Fated(t, v.path, failed) else t }

  predicate SameButFate(a: Obj, b: Obj) { b == a || b == Told(a, true) || b == Told(a, false) }

  ghost predicate SameButFates(a: Tree, b: Tree) { a.Keys == b.Keys && forall p: Path :: p in a ==> SameButFate(a[p], b[p]) }

  lemma FatesAreNotSeen(v: View, root: Ino, t: Tree, q: Path, failed: bool)
    requires Mirrors(v, root, t)
    ensures Mirrors(v, root, Fated(t, q, failed))
  {
  }

  /** Fates decide nothing about which visits are due. */
  lemma SameVisitsAreDue(a: Tree, b: Tree, deep: bool, vs: seq<Visit>)
    requires SameButFates(a, b) && Complete(a, [], deep, vs)
    ensures Complete(b, [], deep, vs)
  {
    forall v
      ensures Due(a, [], deep, v) <==> Due(b, [], deep, v)
    {
    }
  }

  /** A candidate not met yet is in the tree as it was, and its fate mattered to nothing. */
  lemma {:induction false} NotMetYet(cutoff: int, deep: bool, t: Tree, r: SweepResult, vs: seq<Visit>, q: Path, failed: bool)
    requires q in t && Entered(q, false) !in vs
    ensures var s := Fold(VisitWith(cutoff, deep), Sweep(t, r), vs);
            && q in s.tree && s.tree[q] == t[q]
            && Fold(VisitWith(cutoff, deep), Sweep(Fated(t, q, failed), r), vs) == Sweep(Fated(s.tree, q, failed), s.result)
    decreases |vs|
  {
    if vs != [] {
      var s' := VisitWith(cutoff, deep)(Sweep(t, r), vs[0]).0;
      OneVisitCommutes(cutoff, deep, t, r, vs[0], q, failed);
      NotMetYet(cutoff, deep, s'.tree, s'.result, vs[1..], q, failed);
    }
  }

  lemma OneVisitCommutes(cutoff: int, deep: bool, t: Tree, r: SweepResult, v: Visit, q: Path, failed: bool)
    requires q in t && v != Entered(q, false)
    ensures var s' := VisitWith(cutoff, deep)(Sweep(t, r), v).0;
            && q in s'.tree && s'.tree[q] == t[q]
            && VisitWith(cutoff, deep)(Sweep(Fated(t, q, failed), r), v).0 == Sweep(Fated(s'.tree, q, failed), s'.result)
  {
    if v.Entered? && !v.isDir {
      var p := v.path;
      assert Fated(t, q, failed) - {p} == Fated(t - {p}, q, failed);
    }
  }

  lemma FoldOneMore(cutoff: int, deep: bool, start: Sweep, done: seq<Visit>, v: Visit)
    ensures Fold(VisitWith(cutoff, deep), start, done + [v]) ==
            VisitWith(cutoff, deep)(Fold(VisitWith(cutoff, deep), start, done), v).0
  {
    FoldSplits(VisitWith(cutoff, deep), start, done, [v]);
    assert [v][1..] == [];
  }

  /** Meeting a candidate now is having known its fate from the start. */
  lemma FateKnownFromTheStart(cutoff: int, deep: bool, known: Tree, done: seq<Visit>, q: Path, failed: bool)
    requires q in known && Entered(q, false) !in done
    ensures var s := Fold(VisitWith(cutoff, deep), Sweep(known, NOTHING), done);
            && q in s.tree && s.tree[q] == known[q]
            && Fold(VisitWith(cutoff, deep), Sweep(Fated(known, q, failed), NOTHING), done + [Entered(q, false)])
               == Reap(Sweep(Fated(s.tree, q, failed), s.result), q, cutoff)
  {
    NotMetYet(cutoff, deep, known, NOTHING, done, q, failed);
    FoldOneMore(cutoff, deep, Sweep(Fated(known, q, failed), NOTHING), done, Entered(q, false));
  }

  /** The pinned reap is the reap of the tree, once the fate is known. */
  lemma PinnedReapIsReap(v: View, v': View, root: Ino, t: Tree, q: Path, cutoff: int, didRemove: bool, didFail: bool,
                         troubled: bool, r: SweepResult)
    requires Mirrors(v, root, t) && q in t && !t[q].Directory? && q != [] && Reaps(v, v', root, q, cutoff, didRemove, didFail, troubled)
    ensures var s := Reap(Sweep(Fated(t, q, didFail), r), q, cutoff);
            s.result == Counted(r, didRemove, didFail) && Mirrors(v', root, s.tree)
    ensures didFail ==> troubled
  {
    assert Named(v, root, q).Some?;
    WhyNotSplits(v, root, q[..|q| - 1], []);
    StaleIsStale(v, root, t, q, cutoff);
    FatesAreNotSeen(v, root, t, q, didFail);
    if didRemove {
      UnlinkingIsRemoving(v, root, Fated(t, q, didFail), q, StaleTempAt(v, root, q, cutoff).value);
    }
  }

  /** As far as the tree says, nothing is in the way of any candidate. */
  ghost predicate Calm(t: Tree) { forall q: Path :: q in t ==> t[q] == Told(t[q], false) }

  /** A sweep in the middle: its tree is the one below the root, and tree and counts are
      what the visits made come to, had the fates they met been known from the start. */
  ghost predicate Midway(v: View, root: Ino, first: Tree, known: Tree, cutoff: int, deep: bool, s: Sweep, done: seq<Visit>) {
    && IsDirAt(first, []) && SameButFates(first, known) && Mirrors(v, root, s.tree)
    && s == Fold(VisitWith(cutoff, deep), Sweep(known, NOTHING), done)
  }

  /** A visit the walk may still make. */
  ghost predicate ToCome(first: Tree, done: seq<Visit>, v: Visit) {
    v !in done && (v.Entered? ==> v.path in first && (v.isDir <==> first[v.path].Directory?))
  }

  lemma CandidateMet(v: View, v': View, root: Ino, first: Tree, known: Tree, cutoff: int, deep: bool, s: Sweep, done: seq<Visit>,
                     q: Path, didRemove: bool, didFail: bool, troubled: bool)
    requires Midway(v, root, first, known, cutoff, deep, s, done) && ToCome(first, done, Entered(q, false))
    requires q != [] && Reaps(v, v', root, q, cutoff, didRemove, didFail, troubled)
    ensures var s' := Reap(Sweep(Fated(s.tree, q, didFail), s.result), q, cutoff);
            && s'.result == Counted(s.result, didRemove, didFail)
            && Midway(v', root, first, Fated(known, q, didFail), cutoff, deep, s', done + [Entered(q, false)])
    ensures (didFail ==> troubled) && (Calm(first) && known == first && !didFail ==> Fated(known, q, didFail) == first)
  {
    FateKnownFromTheStart(cutoff, deep, known, done, q, didFail);
    PinnedReapIsReap(v, v', root, s.tree, q, cutoff, didRemove, didFail, troubled, s.result);
    ToldAgain(first[q], known[q], didFail);
  }

  lemma ToldAgain(a: Obj, b: Obj, failed: bool)
    requires SameButFate(a, b)
    ensures SameButFate(a, Told(b, failed)) && (b.Directory? <==> a.Directory?)
  {
  }

  // ---- The sweep ----------------------------------------------------------------------

  class RootSweep {
    const w: Kernel
    const root: Handle
    const cutoff: int
    const recursive: bool
    var result: SweepResult
    ghost const first: Tree
    ghost var known: Tree               // `first`, with the fates of the candidates met
    ghost var tree: Tree                // what is left of it
    ghost var done: seq<Visit>
    ghost const troubles: nat           // the failed calls when it began

    ghost predicate Valid()
      reads this, w
    {
      && w.Valid() && w.quiet && root in w.held && Midway(w.now, w.held[root], first, known, cutoff, recursive, Now(), done)
      && FailuresAreCalls()
    }

    /** No more candidates have failed than calls have; and if none has, every fate is as the
        tree has it. */
    ghost predicate FailuresAreCalls()
      reads this, w
    {
      troubles + result.failed <= w.troubles && (Calm(first) && w.troubles == troubles ==> known == first)
    }

    ghost function Now(): Sweep
      reads this
    {
      Sweep(tree, result)
    }

    constructor (w: Kernel, root: Handle, cutoff: int, recursive: bool, ghost t: Tree)
      requires w.Valid() && w.quiet && root in w.held && Mirrors(w.now, w.held[root], t)
      ensures Valid() && this.w == w && this.root == root && this.cutoff == cutoff && this.recursive == recursive
      ensures first == known == tree == t && result == NOTHING && done == [] && troubles == w.troubles
    {
      assert Named(w.now, w.held[root], []) == Some(w.held[root]);
      this.w, this.root, this.cutoff, this.recursive := w, root, cutoff, recursive;
      this.result, this.first, this.known, this.tree, this.done, this.troubles := NOTHING, t, t, t, [], w.troubles;
    }

    /** One candidate, reaped through its pinned parent. */
    method ReapEntry(q: Path) returns (ghost failed: bool)
      requires Valid() && ToCome(first, done, Entered(q, false))
      modifies this, w
      ensures Valid() && w.held == old(w.held) && done == old(done) + [Entered(q, false)]
      ensures known == Fated(old(known), q, failed) && Now() == Reap(Sweep(Fated(old(tree), q, failed), old(result)), q, cutoff)
      ensures w.CallsOnly() && (failed ==> w.troubles > old(w.troubles))
    {
      ghost var before, calls := w.now, w.troubles;
      var didRemove, didFail, chain, times, seen, inspected := ReapStaleTempInRoot(w, root, q, cutoff);
      failed := didFail;
      CandidateMet(before, w.now, w.held[root], first, known, cutoff, recursive, Now(), done, q, didRemove, didFail, w.troubles > calls);
      known, tree, done := Fated(known, q, failed), Reap(Sweep(Fated(tree, q, failed), result), q, cutoff).tree, done + [Entered(q, false)];
      Count(didRemove, didFail);
    }

    method Count(didRemove: bool, didFail: bool)
      modifies this`result
      ensures result == Counted(old(result), didRemove, didFail)
    {
      if didRemove {
        result := result.(removed := result.removed + 1);
      }
      if didFail {
        result := result.(failed := result.failed + 1);
      }
    }

    /** The walk callback, unless the context is done: then nothing happens. */
    method VisitEntry(v: Visit) returns (cancelled: bool, answer: Option<WalkError>, ghost failed: bool)
      requires Valid() && ToCome(first, done, v)
      modifies this, w
      ensures Valid() && w.held == old(w.held)
      ensures cancelled ==> w.now == old(w.now) && Now() == old(Now()) && known == old(known) && done == old(done) && answer == Some(Broken(ECANCELLED))
      ensures !cancelled ==>
                && done == old(done) + [v] && known == Learned(old(known), v, failed)
                && (Now(), answer) == VisitWith(cutoff, recursive)(Sweep(Learned(old(tree), v, failed), old(result)), v)
      ensures old(w.troubles) <= w.troubles && (failed ==> w.troubles > old(w.troubles))
      ensures w.looks == old(w.looks) + 1 && w.stops == old(w.stops) + if cancelled then 1 else 0
    {
      failed := false;
      cancelled := w.IsDone();
      if cancelled {
        return cancelled, Some(Broken(ECANCELLED)), failed;
      }
      if v.Entered? && !v.isDir {
        failed := ReapEntry(v.path);
        return cancelled, None, failed;
      }
      FoldOneMore(cutoff, recursive, Sweep(known, NOTHING), done, v);
      done := done + [v];
      if v.Unreadable? {
        if v.path == [] {
          return cancelled, Some(Broken(EACCES)), failed;
        }
        result := result.(unreadable := result.unreadable + 1);
        return cancelled, None, failed;
      }
      return cancelled, if !recursive && v.path != [] then Some(SkipDir) else None, failed;
    }

    /** After any first part of the visits due, nothing but stale temps is gone and the
        counts are right; after all of them, the sweep is exact. */
    lemma SweptSoFar(vs: seq<Visit>, k: nat)
      requires Valid() && first[[]].readable && Complete(first, [], recursive, vs)
      requires k <= |vs| && done == [Entered([], true)] + vs[..k]
      ensures Mirrors(w.now, w.held[root], tree)
      ensures PartlySwept(known, cutoff, recursive, Now(), ReclaimedIn(known, cutoff, vs[..k]), ReportedIn(known, cutoff, vs[..k]), ClosedIn(vs[..k]))
      ensures k == |vs| ==> Now() == Swept(known, cutoff, recursive)
    {
      assert done[1..] == vs[..k];
      SameVisitsAreDue(first, known, recursive, vs);
      StoppedSweepsReclaimNothingElse(known, cutoff, recursive, recursive, vs, k);
      if k == |vs| {
        assert vs[..k] == vs;
        CompleteVisitsSweepExactly(known, cutoff, recursive, recursive, vs);
      }
    }

    /** One visit; only a real error ends the walk. */
    method VisitNext(v: Visit) returns (err: Option<Errno>)
      requires Valid() && ToCome(first, done, v)
      modifies this, w
      ensures Valid() && w.held == old(w.held)
      ensures err == None ==> done == old(done) + [v] && v != Unreadable([])
      ensures err.Some? ==> (err == Some(ECANCELLED) && done == old(done)) || (err == Some(EACCES) && done == old(done) + [v] && v == Unreadable([]))
      ensures old(w.troubles) <= w.troubles && w.stops == old(w.stops) + if err == Some(ECANCELLED) then 1 else 0
    {
      var cancelled, answer, _ := VisitEntry(v);
      var (_, broken) := Classify(answer);
      err := broken;
    }

    /** The callback for one visit after another, as long as it lets the walk go on. */
    method SweepVisits(visits: seq<Visit>) returns (err: Option<Errno>)
      requires Valid() && done == [] && DistinctVisits(visits) && AreIn(first, visits)
      modifies this, w
      ensures Valid() && w.held == old(w.held) && done <= visits
      ensures err == None ==> done == visits && Unreadable([]) !in visits
      ensures err.Some? ==> err == Some(ECANCELLED) || (err == Some(EACCES) && Unreadable([]) in done)
      ensures old(w.troubles) <= w.troubles && w.stops == old(w.stops) + if err == Some(ECANCELLED) then 1 else 0
    {
      err := VisitAll(visits);
      if err.Some? {
        return;
      }
      var cancelled := w.IsDone();
      return if cancelled then Some(ECANCELLED) else None;
    }

    /** The visits one after another, until one of them ends the walk. */
    method VisitAll(visits: seq<Visit>) returns (err: Option<Errno>)
      requires Valid() && done == [] && DistinctVisits(visits) && AreIn(first, visits)
      modifies this, w
      ensures Valid() && w.held == old(w.held) && done <= visits
      ensures err == None ==> done == visits && Unreadable([]) !in visits
      ensures err.Some? ==> err == Some(ECANCELLED) || (err == Some(EACCES) && Unreadable([]) in done)
      ensures old(w.troubles) <= w.troubles && w.stops == old(w.stops) + if err == Some(ECANCELLED) then 1 else 0
    {
      err := None;
      for k := 0 to |visits|
        invariant Valid() && w.held == old(w.held) && done == visits[..k] && Unreadable([]) !in done && err == None
        invariant old(w.troubles) <= w.troubles && w.stops == old(w.stops)
      {
        assert visits[k] !in visits[..k];
        err := VisitNext(visits[k]);
        if err.Some? {
          return;
        }
      }
      assert visits[..|visits|] == visits;
    }

    /** What the object has done by then is one of the ends of a confined sweep. */
    lemma SweepHasEnded(listing: Listing, depth: nat, err: Option<Errno>)
      requires Valid() && ListsTree(first, listing) && DepthWithin(first, depth)
      requires var visits := TreeVisits(first, listing, recursive, depth);
               && done <= visits && (err == None ==> done == visits && Unreadable([]) !in visits)
               && (err.Some? ==> err == Some(ECANCELLED) || (err == Some(EACCES) && Unreadable([]) in done))
      ensures Ends(known, cutoff, recursive, true, Now(), err)
    {
      if first[[]].readable {
        ReadableSweepHasEnded(VisitsBelow(first, listing, recursive, depth), err);
      } else {
        assert TreeVisits(first, listing, recursive, depth) == [Entered([], true), Unreadable([])];
        UnreadableSweepHasEnded(err);
      }
    }

    lemma ReadableSweepHasEnded(vs: seq<Visit>, err: Option<Errno>)
      requires Valid() && first[[]].readable && Complete(first, [], recursive, vs) && done <= [Entered([], true)] + vs
      requires err == None ==> done == [Entered([], true)] + vs
      requires err.Some? ==> err == Some(ECANCELLED) || (err == Some(EACCES) && Unreadable([]) in done)
      ensures Ends(known, cutoff, recursive, true, Now(), err)
    {
      assert IsDirAt(known, []) && known[[]].readable;
      assert forall v :: v in done ==> v == Entered([], true) || v in vs;
      if done == [] {
        assert PartlySwept(known, cutoff, recursive, Sweep(known, NOTHING), {}, {}, {}) by { assert known - {} == known; }
      } else {
        assert done == [Entered([], true)] + vs[..|done| - 1];
        SweptSoFar(vs, |done| - 1);
      }
    }

    lemma UnreadableSweepHasEnded(err: Option<Errno>)
      requires Valid() && !first[[]].readable && done <= [Entered([], true), Unreadable([])]
      requires err.Some? && (err == Some(ECANCELLED) || (err == Some(EACCES) && Unreadable([]) in done))
      ensures Ends(known, cutoff, recursive, true, Now(), err)
    {
      assert !known[[]].readable;
      var fn, start := VisitWith(cutoff, recursive), Sweep(known, NOTHING);
      assert Fold(fn, start, []) == start && Fold(fn, start, [Unreadable([])]) == start;
      assert done == [] || done[1..] == [] || done[1..] == [Unreadable([])];
      assert PartlySwept(known, cutoff, recursive, start, {}, {}, {}) by { assert known - {} == known; }
    }
  }

  ghost predicate AreIn(t: Tree, visits: seq<Visit>) {
    forall v :: v in visits && v.Entered? ==> v.path in t && (v.isDir <==> t[v.path].Directory?)
  }

  lemma TreeVisitsAreIn(t: Tree, listing: Listing, deep: bool, depth: nat)
    requires WellFormed(t) && ListsTree(t, listing) && DepthWithin(t, depth)
    ensures AreIn(t, TreeVisits(t, listing, deep, depth)) && DistinctVisits(TreeVisits(t, listing, deep, depth))
  {
    var vs := TreeVisits(t, listing, deep, depth)[1..];
    if t[[]].readable {
      var below := VisitsBelow(t, listing, deep, depth);
      assert vs == below && Complete(t, [], deep, vs);
    } else {
      WalkIsComplete(t, listing, [], depth);
      assert Complete(t, [], true, vs);
    }
    DistinctConcat([Entered([], true)], vs);
  }

  // ---- The entry point ------------------------------------------------------------------

  /** The confined sweep on the system calls: the walk's visits in its order, each handed to
      the callback, which reaps through the pinned parent. On a tree nobody else touches the
      walk makes the same visits whatever the callback removes. */
  method CleanupStaleTempsInRoot(w: Kernel, root: Handle, t: Tree, listing: Listing, now: int, maxAge: int, recursive: bool)
    returns (result: SweepResult, err: Option<Errno>, ghost known: Tree, ghost left: Tree)
    requires w.Valid() && w.quiet && root in w.held && Mirrors(w.now, w.held[root], t) && ListsTree(t, listing)
    modifies w
    ensures w.Valid() && w.held == old(w.held) && SameButFates(t, known) && Mirrors(w.now, w.held[root], left)
    ensures maxAge <= 0 ==> w.now == old(w.now) && result == NOTHING && err == None
    ensures maxAge > 0 ==> Ends(known, now - maxAge, recursive, true, Sweep(left, result), err)
    ensures w.stops == old(w.stops) + if err == Some(ECANCELLED) then 1 else 0
    ensures result.failed <= w.troubles - old(w.troubles) && (Calm(t) && w.troubles == old(w.troubles) ==> known == t)
  {
    known, left := t, t;
    if maxAge <= 0 {
      return NOTHING, None, known, left;
    }
    result, err, known, left := SweepRoot(w, root, t, listing, now - maxAge, recursive);
  }

  method SweepRoot(w: Kernel, root: Handle, t: Tree, listing: Listing, cutoff: int, recursive: bool)
    returns (result: SweepResult, err: Option<Errno>, ghost known: Tree, ghost left: Tree)
    requires w.Valid() && w.quiet && root in w.held && Mirrors(w.now, w.held[root], t) && ListsTree(t, listing)
    modifies w
    ensures w.Valid() && w.held == old(w.held) && SameButFates(t, known) && Mirrors(w.now, w.held[root], left)
    ensures Ends(known, cutoff, recursive, true, Sweep(left, result), err)
    ensures w.stops == old(w.stops) + if err == Some(ECANCELLED) then 1 else 0
    ensures result.failed <= w.troubles - old(w.troubles) && (Calm(t) && w.troubles == old(w.troubles) ==> known == t)
  {
    var sweep := new RootSweep(w, root, cutoff, recursive, t);
    err := SweepTree(sweep, t, listing);
    result, known, left := sweep.result, sweep.known, sweep.tree;
  }

  /** The visits of the walk, which hands one after another to its callback. */
  method VisitsOf(t: Tree, listing: Listing, deep: bool) returns (visits: seq<Visit>, ghost depth: nat)
    requires WellFormed(t) && ListsTree(t, listing)
    ensures DepthWithin(t, depth) && visits == TreeVisits(t, listing, deep, depth) && AreIn(t, visits) && DistinctVisits(visits)
  {
    ghost var batches;
    depth, batches := TreesAreFinite(t, listing, Recording(deep));
    WalkRecords(t, listing, deep, depth, batches);
    TreeVisitsAreIn(t, listing, deep, depth);
    var end, _ := WalkDirInRoot(QuietWorld(t, listing, Recording(deep)), Timed([], None), depth, batches);
    visits := end.s;
  }

  method SweepTree(sweep: RootSweep, t: Tree, listing: Listing) returns (err: Option<Errno>)
    requires sweep.Valid() && sweep.first == t && sweep.done == [] && ListsTree(t, listing)
    modifies sweep, sweep.w
    ensures sweep.Valid() && sweep.w.held == old(sweep.w.held)
    ensures Ends(sweep.known, sweep.cutoff, sweep.recursive, true, sweep.Now(), err)
    ensures sweep.w.stops == old(sweep.w.stops) + if err == Some(ECANCELLED) then 1 else 0
  {
    var visits, depth := VisitsOf(t, listing, sweep.recursive);
    err := sweep.SweepVisits(visits);
    sweep.SweepHasEnded(listing, depth, err);
  }
}
