/** The sweeps as they run, and their agreement. */
module Sweeps {
  import opened FileSystem
  import opened TempNames
  import opened Contexts
  import opened Walking
  import opened QuietTrees
  import opened QuietWalks
  import opened WalkLooks
  import opened AmbientOrder
  import opened Sweeping

  const EIO: Errno := 5

  lemma VisitsArePolite(cutoff: int, deep: bool)
    ensures Polite(VisitWith(cutoff, deep), deep)
  {
  }

  /** The sweep as it stood when it was stopped: some of the files a whole one reclaims
      are gone, nothing else is, and the counts say how many of each kind were met. */
  ghost predicate PartlySwept(t: Tree, cutoff: int, deep: bool, s: Sweep, gone: set<Path>, reported: set<Path>, closed: set<Path>) {
    && gone <= ToReclaim(t, cutoff, deep) && reported <= ToReport(t, cutoff, deep) && closed <= Closed(t, deep)
    && s == Sweep(t - gone, SweepResult(|gone|, |reported|, |closed|))
  }

  /** How a confined sweep may end: swept exactly; or, with a context that can be done,
      stopped; or not begun because its root cannot be read. */
  ghost predicate Ends(t: Tree, cutoff: int, deep: bool, mayStop: bool, s: Sweep, err: Option<Errno>) {
    if err == Some(ECANCELLED) then
      mayStop && exists gone, reported, closed :: PartlySwept(t, cutoff, deep, s, gone, reported, closed)
    else if IsDirAt(t, []) && t[[]].readable then err == None && s == Swept(t, cutoff, deep)
    else err == Some(EACCES) && s == Sweep(t, NOTHING)
  }

  /** The visits below the root that the confined walk makes. */
  ghost function VisitsBelow(t: Tree, listing: Listing, deep: bool, depth: nat): (vs: seq<Visit>)
    requires WellFormed(t) && ListsTree(t, listing) && DepthWithin(t, depth) && t[[]].readable
    ensures Complete(t, [], deep, vs) && TreeVisits(t, listing, deep, depth) == [Entered([], true)] + vs
  {
    if deep then
      WalkIsComplete(t, listing, [], depth);
      WalkVisits(t, listing, [], depth)
    else
      FlatIsComplete(t, listing);
      EntryVisits([], HandedOver(listing[[]]))
  }

  /** The confined sweep: the walk of the tree with the sweep's visit as its callback. */
  lemma ConfinedSweepIsExact(t: Tree, listing: Listing, cutoff: int, deep: bool, checks: Option<nat>, depth: nat, batches: nat)
    requires WellFormed(t) && ListsTree(t, listing) && DepthWithin(t, depth) && t[[]].readable
    requires Bounded(QuietWorld(t, listing, VisitWith(cutoff, deep)), depth, batches)
    ensures var r := WalkTree(QuietWorld(t, listing, VisitWith(cutoff, deep)), Timed(Sweep(t, NOTHING), checks), depth, batches);
            Ends(t, cutoff, deep, checks.Some?, r.s.s, r.err)
  {
    VisitsArePolite(cutoff, deep);
    var fn, start, from := VisitWith(cutoff, deep), Sweep(t, NOTHING), Timed(Sweep(t, NOTHING), checks);
    var n := TreeFolds(t, listing, fn, deep, from, depth, batches);
    var vs := VisitsBelow(t, listing, deep, depth);
    var r := WalkTree(QuietWorld(t, listing, fn), from, depth, batches);
    FoldEnds(t, cutoff, deep, from, vs, n, r.s, r.err);
  }

  lemma FoldEnds(t: Tree, cutoff: int, deep: bool, from: Timed<Sweep>, vs: seq<Visit>, n: nat, end: Timed<Sweep>, err: Option<Errno>)
    requires UpTo(VisitWith(cutoff, deep), from, [Entered([], true)] + vs, n, end, err) && from.s == Sweep(t, NOTHING)
    requires Complete(t, [], deep, vs) && IsDirAt(t, []) && t[[]].readable
    ensures Ends(t, cutoff, deep, from.left.Some?, end.s, err)
  {
    var visits := [Entered([], true)] + vs;
    if err == None {
      assert visits[..n][1..] == vs;
      CompleteVisitsSweepExactly(t, cutoff, deep, deep, vs);
    } else {
      if n > 0 { assert visits[..n][0] == Entered([], true) && visits[..n][1..] == vs[..n - 1]; }
      StoppedSweepsReclaimNothingElse(t, cutoff, deep, deep, vs, if n > 0 then n - 1 else 0);
    }
  }

  /** A root that cannot be read is an error, not an unreadable sub-path. */
  lemma UnreadableRootIsAnError(t: Tree, listing: Listing, cutoff: int, deep: bool, checks: Option<nat>, depth: nat, batches: nat)
    requires IsDirAt(t, []) && !t[[]].readable && Bounded(QuietWorld(t, listing, VisitWith(cutoff, deep)), depth, batches)
    ensures var r := WalkTree(QuietWorld(t, listing, VisitWith(cutoff, deep)), Timed(Sweep(t, NOTHING), checks), depth, batches);
            && Ends(t, cutoff, deep, checks.Some?, r.s.s, r.err) && r.s.s == Sweep(t, NOTHING)
            && (checks == None ==> r.err == Some(EACCES))
  {
    VisitsArePolite(cutoff, deep);
    RootThenBelow(t, listing, VisitWith(cutoff, deep), deep, Timed(Sweep(t, NOTHING), checks), depth, batches);
    assert VisitOf([], None) == Unreadable([]);
    assert t - {} == t;
    assert PartlySwept(t, cutoff, deep, Sweep(t, NOTHING), {}, {}, {});
  }

  /** Both recursive sweeps leave the same tree and report the same counts, whatever order
      and batches the directories were read in. */
  lemma SweepsAgree(t: Tree, confined: Listing, ambient: Listing, cutoff: int, depth: nat, batches: nat)
    requires WellFormed(t) && ListsTree(t, confined) && ListsTree(t, ambient) && DepthWithin(t, depth) && t[[]].readable
    requires Bounded(QuietWorld(t, confined, VisitWith(cutoff, true)), depth, batches)
    ensures WalkTree(QuietWorld(t, confined, VisitWith(cutoff, true)), Timed(Sweep(t, NOTHING), None), depth, batches).s.s
            == Fold(VisitWith(cutoff, true), Sweep(t, NOTHING), AmbientVisits(t, ambient, [], depth))
            == Swept(t, cutoff, true)
  {
    ConfinedSweepIsExact(t, confined, cutoff, true, None, depth, batches);
    AmbientIsComplete(t, ambient, [], depth);
    CompleteVisitsSweepExactly(t, cutoff, true, true, AmbientVisits(t, ambient, [], depth));
  }

  /** What a flat sweep reclaims, a recursive one reclaims too. */
  lemma FlatIsPartOfDeep(t: Tree, cutoff: int)
    ensures ToReclaim(t, cutoff, false) <= ToReclaim(t, cutoff, true)
  {
  }

  /** A sweep that stops early has reclaimed only what a whole one would, and its counts
      are still the sizes of what it met. */
  lemma StoppedSweepsReclaimNothingElse(t: Tree, cutoff: int, deep: bool, told: bool, vs: seq<Visit>, k: nat)
    requires k <= |vs| && Complete(t, [], deep, vs) && IsDirAt(t, []) && t[[]].readable
    ensures PartlySwept(t, cutoff, deep, Fold(VisitWith(cutoff, told), Sweep(t, NOTHING), vs[..k]),
                        ReclaimedIn(t, cutoff, vs[..k]), ReportedIn(t, cutoff, vs[..k]), ClosedIn(vs[..k]))
  {
    forall v | v in vs[..k]
      ensures v in vs && Due(t, [], deep, v)
    {
    }
    FoldSweeps(t, cutoff, told, Sweep(t, NOTHING), vs[..k]);
  }

  /** A fresh look at one candidate, then the unlink. */
  method ReapStaleTemp(before: Tree, q: Path, cutoff: int) returns (tree: Tree, didRemove: bool, didFail: bool)
    ensures !(didRemove && didFail)
    ensures forall result: SweepResult :: Reap(Sweep(before, result), q, cutoff) == Sweep(tree, Counted(result, didRemove, didFail))
  {
    tree := before;
    if !IsTempName(BaseName(q)) {
      return tree, false, false;
    }
    if q !in tree {
      return tree, false, false;
    }
    if tree[q].Directory? {
      return tree, false, false;
    }
    if !tree[q].Regular? {
      return tree, false, tree[q].statFails;
    }
    if tree[q].fate.StatFails? {
      return tree, false, true;
    }
    if tree[q].mtime > cutoff {
      return tree, false, false;
    }
    if tree[q].fate.RemoveFails? {
      return tree, false, true;
    }
    return tree - {q}, true, false;
  }

  function Counted(r: SweepResult, didRemove: bool, didFail: bool): SweepResult {
    SweepResult(r.removed + if didRemove then 1 else 0, r.failed + if didFail then 1 else 0, r.unreadable)
  }

  /** `troubles` counts the reads of directories that failed. */
  class AmbientSweep {
    const ctx: Context
    const cutoff: int
    var tree: Tree
    var result: SweepResult
    ghost var troubles: nat

    constructor (ctx: Context, tree: Tree, cutoff: int)
      ensures this.ctx == ctx && this.tree == tree && this.cutoff == cutoff && result == NOTHING && troubles == 0
    {
      this.ctx, this.tree, this.cutoff, this.result, this.troubles := ctx, tree, cutoff, NOTHING, 0;
    }

    function Now(): Sweep
      reads this
    {
      Sweep(tree, result)
    }

    method Count(didRemove: bool, didFail: bool)
      modifies this`result
      ensures result == Counted(old(result), didRemove, didFail)
    {
      if didRemove {
        result := result.(removed := result.removed + 1);
      }
      if didFail {
        result := result.(failed := result.failed + 1);
      }
    }

    /** The tree walk's callback: it never asks to skip a directory. It looks at the context
        first, and gives up if and only if that is done. */
    method VisitEntry(v: Visit) returns (answer: Option<WalkError>)
      modifies this, ctx
      ensures ctx.looks == old(ctx.looks) + 1 && (old(ctx.done) ==> ctx.done) && troubles == old(troubles)
      ensures ctx.done ==> Now() == old(Now()) && answer == Some(Broken(ECANCELLED))
      ensures !ctx.done ==> (Now(), answer) == VisitWith(cutoff, true)(old(Now()), v)
    {
      var cancelled := ctx.IsDone();
      if cancelled {
        return Some(Broken(ECANCELLED));
      }
      if v.Unreadable? {
        if v.path == [] {
          return Some(Broken(EACCES));
        }
        result := result.(unreadable := result.unreadable + 1);
        return None;
      }
      if v.isDir {
        return None;
      }
      var now, didRemove, didFail := ReapStaleTemp(tree, v.path, cutoff);
      tree := now;
      Count(didRemove, didFail);
      return None;
    }

    /** One batch: every entry goes to the reaper, directories too. */
    method ReapBatch(ghost t: Tree, ghost done: seq<Entry>, batch: seq<Entry>)
      requires DirsStay(t, tree) && TypesFit(t, batch) && Now() == ReapedAfter(t, cutoff, done)
      modifies this`tree, this`result
      ensures DirsStay(t, tree) && Now() == ReapedAfter(t, cutoff, done + batch)
    {
      assert done + batch[..0] == done;
      for j := 0 to |batch|
        invariant DirsStay(t, tree) && Now() == ReapedAfter(t, cutoff, done + batch[..j])
      {
        ghost var before := Now();
        var now, didRemove, didFail := ReapStaleTemp(tree, [batch[j].name], cutoff);
        tree := now;
        Count(didRemove, didFail);
        assert Now() == Reap(before, [batch[j].name], cutoff);
        OneMoreReaped(t, cutoff, before, done + batch[..j], batch[j]);
        assert done + batch[..j] + [batch[j]] == done + batch[..j + 1];
      }
      assert batch[..|batch|] == batch;
    }

    /** The flat sweep: the open directory batch by batch, stopped between batches by a done
        context, which is looked at before each, or by a failed read; by nothing else. Stopped
        after `read` batches it has done what those called for, and unless it is stopped it has
        read them all. */
    method ReapBatches(ghost t: Tree, batches: seq<seq<Entry>>) returns (err: Option<WalkError>, ghost read: nat)
      requires DirsStay(t, tree) && Now() == ReapedAfter(t, cutoff, [])
      requires forall k :: 0 <= k < |batches| ==> TypesFit(t, batches[k])
      modifies this, ctx
      ensures read <= |batches| && Now() == ReapedAfter(t, cutoff, Flatten(batches[..read]))
      ensures Stopped(batches, err, read)
    {
      read, err := 0, None;
      var k := 0;
      while true
        invariant k == read <= |batches| && err == None && DirsStay(t, tree)
        invariant Now() == ReapedAfter(t, cutoff, Flatten(batches[..k]))
        invariant ctx.looks == old(ctx.looks) + k && troubles == old(troubles) && (k > 0 ==> !ctx.done) && (old(ctx.done) ==> ctx.done)
        decreases |batches| - k
      {
        var cancelled := ctx.IsDone();
        if cancelled {
          return Some(Broken(ECANCELLED)), read;
        }
        if k == |batches| {
          return None, read;
        }
        ReapBatch(t, Flatten(batches[..k]), batches[k]);
        FlattenNext(batches, k);
        read, k := k + 1, k + 1;
        var failed: bool := *;
        if failed {
          troubles := troubles + 1;
          return Some(Broken(EIO)), read;
        }
      }
    }

    /** How a flat sweep ends: its result is the context's, a failed read's, or nil with
        everything read; and the context was looked at once before each read. */
    twostate predicate Stopped(batches: seq<seq<Entry>>, new err: Option<WalkError>, read: nat)
      reads this, ctx
    {
      && (err == Some(Broken(ECANCELLED)) <==> ctx.done)
      && (err == Some(Broken(EIO)) <==> troubles > old(troubles))
      && (err == None || ctx.done || troubles > old(troubles)) && (err == None ==> read == |batches|)
      && ctx.looks == old(ctx.looks) + read + if troubles > old(troubles) then 0 else 1
    }

    /** Unless it is stopped, the flat sweep reclaims exactly the stale temps. */
    method ReapDir(ghost t: Tree, batches: seq<seq<Entry>>) returns (err: Option<WalkError>, ghost read: nat)
      requires WellFormed(t) && t[[]].readable && EntriesOf(t, [], Flatten(batches)) && Now() == Sweep(t, NOTHING)
      modifies this, ctx
      ensures read <= |batches| && Now() == ReapedAfter(t, cutoff, Flatten(batches[..read]))
      ensures Stopped(batches, err, read)
      ensures err == None ==> Now() == Swept(t, cutoff, false)
    {
      forall k | 0 <= k < |batches|
        ensures TypesFit(t, batches[k])
      {
        FlattenAround(batches, k);
        TypesFitWithin(t, Flatten(batches), Flatten(batches[..k]), batches[k], Flatten(batches[k + 1..]));
      }
      err, read := ReapBatches(t, batches);
      if err == None {
        assert batches[..read] == batches;
        FlatReadSweeps(t, cutoff, Flatten(batches));
      }
    }
  }

  lemma {:induction false} FlattenAround(batches: seq<seq<Entry>>, k: nat)
    requires k < |batches|
    ensures Flatten(batches) == Flatten(batches[..k]) + (batches[k] + Flatten(batches[k + 1..]))
  {
    if k > 0 {
      FlattenAround(batches[1..], k - 1);
      assert batches[1..][..k - 1] == batches[..k][1..] && batches[1..][k..] == batches[k + 1..];
    }
  }

  lemma FlattenNext(batches: seq<seq<Entry>>, k: nat)
    requires k < |batches|
    ensures Flatten(batches[..k + 1]) == Flatten(batches[..k]) + batches[k]
  {
    FlattenAround(batches[..k + 1], k);
    assert batches[..k + 1][..k] == batches[..k] && batches[..k + 1][k + 1..] == [];
  }

  /** The sweep once the entries read so far have been reaped. */
  ghost function ReapedAfter(t: Tree, cutoff: int, done: seq<Entry>): Sweep {
    Fold(VisitWith(cutoff, true), Sweep(t, NOTHING), EntryVisits([], done))
  }

  lemma FlatReadSweeps(t: Tree, cutoff: int, all: seq<Entry>)
    requires WellFormed(t) && t[[]].readable && EntriesOf(t, [], all)
    ensures ReapedAfter(t, cutoff, all) == Swept(t, cutoff, false)
  {
    EntriesAreComplete(t, all);
    CompleteVisitsSweepExactly(t, cutoff, false, true, EntryVisits([], all));
  }

  ghost predicate TypesFit(t: Tree, entries: seq<Entry>) {
    forall k :: 0 <= k < |entries| ==> [entries[k].name] in t && (entries[k].isDir <==> t[[entries[k].name]].Directory?)
  }

  lemma TypesFitWithin(t: Tree, all: seq<Entry>, a: seq<Entry>, b: seq<Entry>, c: seq<Entry>)
    requires EntriesOf(t, [], all) && all == a + (b + c)
    ensures TypesFit(t, b)
  {
    forall k | 0 <= k < |b|
      ensures [b[k].name] in t && (b[k].isDir <==> t[[b[k].name]].Directory?)
    {
      assert all[|a| + k] == b[k] && [] + [b[k].name] == [b[k].name];
    }
  }

  /** A sweep never takes a directory away. */
  ghost predicate DirsStay(t: Tree, now: Tree) { forall q :: IsDirAt(t, q) ==> IsDirAt(now, q) }

  /** Reaping an entry is visiting it: for a directory both do nothing. */
  lemma OneMoreReaped(t: Tree, cutoff: int, s: Sweep, done: seq<Entry>, e: Entry)
    requires DirsStay(t, s.tree) && s == ReapedAfter(t, cutoff, done)
    requires [e.name] in t && (e.isDir <==> t[[e.name]].Directory?)
    ensures ReapedAfter(t, cutoff, done + [e]) == Reap(s, [e.name], cutoff)
    ensures DirsStay(t, Reap(s, [e.name], cutoff).tree)
  {
    assert Step([], e.name) == [e.name];
    assert EntryVisits([], done + [e]) == EntryVisits([], done) + [Entered([e.name], e.isDir)];
    FoldSplits(VisitWith(cutoff, true), Sweep(t, NOTHING), EntryVisits([], done), [Entered([e.name], e.isDir)]);
    assert [Entered([e.name], e.isDir)][1..] == [];
    if e.isDir {
      assert IsDirAt(t, [e.name]);
    }
  }

  // ---- The two entry points ------------------------------------------------------

  /** How often a sweep looks at its context: as often as its walk does, but that it ends at
      the root's own report when the root cannot be read. */
  ghost function SweepLooks(t: Tree, listing: Listing, deep: bool, depth: nat): nat
    requires WellFormed(t) && ListsTree(t, listing) && DepthWithin(t, depth)
  {
    if t[[]].readable then TreeLooks(t, listing, deep, depth) else 3
  }

  lemma SweepIsCutIffDoneWithin(t: Tree, listing: Listing, cutoff: int, deep: bool, checks: Option<nat>, depth: nat, batches: nat)
    requires WellFormed(t) && ListsTree(t, listing) && DepthWithin(t, depth)
    requires Bounded(QuietWorld(t, listing, VisitWith(cutoff, deep)), depth, batches)
    ensures var r := WalkTree(QuietWorld(t, listing, VisitWith(cutoff, deep)), Timed(Sweep(t, NOTHING), checks), depth, batches);
            r.err == Some(ECANCELLED) <==> checks.Some? && checks.value < SweepLooks(t, listing, deep, depth)
  {
    VisitsArePolite(cutoff, deep);
    var from := Timed(Sweep(t, NOTHING), checks);
    if t[[]].readable {
      WalkIsCutIffDoneWithin(t, listing, VisitWith(cutoff, deep), deep, from, depth, batches);
    } else {
      RootThenBelow(t, listing, VisitWith(cutoff, deep), deep, from, depth, batches);
      assert VisitOf([], None) == Unreadable([]);
    }
  }

  lemma WalkSweeps(t: Tree, listing: Listing, cutoff: int, deep: bool, checks: Option<nat>) returns (depth: nat, batches: nat)
    requires WellFormed(t) && ListsTree(t, listing)
    ensures DepthWithin(t, depth) && Bounded(QuietWorld(t, listing, VisitWith(cutoff, deep)), depth, batches)
    ensures var r := WalkTree(QuietWorld(t, listing, VisitWith(cutoff, deep)), Timed(Sweep(t, NOTHING), checks), depth, batches);
            && Ends(t, cutoff, deep, checks.Some?, r.s.s, r.err)
            && (r.err == Some(ECANCELLED) <==> checks.Some? && checks.value < SweepLooks(t, listing, deep, depth))
  {
    depth, batches := TreesAreFinite(t, listing, VisitWith(cutoff, deep));
    SweepIsCutIffDoneWithin(t, listing, cutoff, deep, checks, depth, batches);
    if t[[]].readable {
      ConfinedSweepIsExact(t, listing, cutoff, deep, checks, depth, batches);
    } else {
      UnreadableRootIsAnError(t, listing, cutoff, deep, checks, depth, batches);
    }
  }

  /** The confined sweep as it is called: the walk with the sweep's visit as its callback,
      not started at all for a non-positive age. Its context is found done after `checks`
      more checks, or never; that ends the sweep if and only if it looks as often. `depth` is
      the tree's. */
  method CleanupStaleTempsInRoot(t: Tree, listing: Listing, checks: Option<nat>, now: int, maxAge: int, recursive: bool)
    returns (s: Sweep, err: Option<Errno>, ghost depth: nat)
    requires WellFormed(t) && ListsTree(t, listing)
    ensures maxAge <= 0 ==> s == Sweep(t, NOTHING) && err == None
    ensures maxAge > 0 ==> Ends(t, now - maxAge, recursive, checks.Some?, s, err)
    ensures DepthWithin(t, depth)
    ensures maxAge > 0 ==> (err == Some(ECANCELLED) <==> checks.Some? && checks.value < SweepLooks(t, listing, recursive, depth))
  {
    ghost var batches;
    depth, batches := WalkSweeps(t, listing, now - maxAge, recursive, checks);
    if maxAge <= 0 {
      return Sweep(t, NOTHING), None, depth;
    }
    var end: Timed<Sweep>;
    end, err := WalkDirInRoot(QuietWorld(t, listing, VisitWith(now - maxAge, recursive)), Timed(Sweep(t, NOTHING), checks), depth, batches);
    s := end.s;
  }

  /** The walk of a tree ends: there is a bound on its depth and on the batches of a read. */
  lemma TreesAreFinite<S(!new)>(t: Tree, listing: Listing, fn: Callback<S>) returns (depth: nat, batches: nat)
    ensures DepthWithin(t, depth) && Bounded(QuietWorld(t, listing, fn), depth, batches)
  {
    var depths := set p | p in t :: |p|;
    var counts := set p | p in listing :: |listing[p]|;
    var deepest := Greatest(depths);
    batches := Greatest(counts);
    depth := deepest + 1;
    assert forall p :: p in t ==> |p| in depths;
    assert forall p :: p in listing ==> |listing[p]| in counts;
  }

  lemma {:induction false} Greatest(sizes: set<nat>) returns (most: nat)
    ensures forall n :: n in sizes ==> n <= most
    decreases sizes
  {
    if sizes == {} {
      return 0;
    }
    var n :| n in sizes;
    var rest := Greatest(sizes - {n});
    most := if n > rest then n else rest;
    assert forall m :: m in sizes ==> m == n || m in sizes - {n};
  }
}
