/** The confined walk of a quiet tree, with a callback that aborts only when the context is
    done: it comes down to folding the callback over the visits due, parents before
    children, up to the moment the context is found done. */
module QuietWalks {
  import opened FileSystem
  import opened Walking
  import opened QuietTrees

  type Callback<!S> = (S, Visit) -> (S, Option<WalkError>)

  const EACCES: Errno := 13
  const ECANCELLED: Errno := 125

  function VisitOf(path: Path, entry: Option<Entry>): Visit {
    if entry.Some? then Entered(path, entry.value.isDir) else Unreadable(path)
  }

  /** The callback's own state, and how many more checks will find the context not done:
      as many as one likes for a context that is never done. */
  datatype Timed<S> = Timed(s: S, left: Option<nat>) {
    predicate Done() { left == Some(0) }

    function Tick(): Timed<S> { if left.Some? && left.value > 0 then Timed(s, Some(left.value - 1)) else this }
  }

  /** The world of a walk in which nothing changes but the callback's state and the context,
      which the walk checks before every batch and the callback before anything else. */
  function QuietWorld<S>(t: Tree, listing: Listing, fn: Callback<S>): World<Timed<S>> {
    World(
      (now: Timed<S>) => if now.Done() then (now, Some(ECANCELLED)) else (now.Tick(), None),
      (now: Timed<S>) => (now, None),
      (now: Timed<S>, p: Path) => (now, if IsDirAt(t, p) && t[p].readable then None else Some(EACCES)),
      (now: Timed<S>, p: Path, k: nat) => (now, if p in listing && k < |listing[p]| then Batch(listing[p][k], More) else Batch([], EOF)),
      (now: Timed<S>, p: Path, entry: Option<Entry>, failed: Option<Errno>) => Checking(fn, now, VisitOf(p, entry)))
  }

  /** The callback, unless the context is done. */
  function Checking<S>(fn: Callback<S>, now: Timed<S>, v: Visit): (Timed<S>, Option<WalkError>) {
    if now.Done() then (now, Some(Broken(ECANCELLED))) else
    (now.Tick().(s := fn(now.s, v).0), fn(now.s, v).1)
  }

  /** The callback lets the walk go on, descending into subdirectories or skipping them all. */
  ghost predicate Polite<S(!new)>(fn: Callback<S>, deep: bool) {
    forall s, v :: v != Unreadable([]) ==>
      fn(s, v).1 == if !deep && v.Entered? && v.isDir && v.path != [] then Some(SkipDir) else None
  }

  /** It lets the walk end even where the root itself cannot be read. */
  ghost predicate TakesUnreadableRoot<S(!new)>(fn: Callback<S>) { forall s :: fn(s, Unreadable([])).1 == None }

  function Fold<S>(fn: Callback<S>, s: S, vs: seq<Visit>): S
    decreases |vs|
  {
    if vs == [] then s else Fold(fn, fn(s, vs[0]).0, vs[1..])
  }

  lemma {:induction false} FoldSplits<S>(fn: Callback<S>, s: S, a: seq<Visit>, b: seq<Visit>)
    ensures Fold(fn, s, a + b) == Fold(fn, Fold(fn, s, a), b)
    decreases |a|
  {
    if a == [] {
      assert a + b == b;
    } else {
      assert (a + b)[1..] == a[1..] + b;
      FoldSplits(fn, fn(s, a[0]).0, a[1..], b);
    }
  }

  // ---- As far as the context allows ------------------------------------------------

  /** The callback was applied to the first `k` of the visits: to all of them, unless the
      context was found done. */
  ghost predicate UpTo<S>(fn: Callback<S>, from: Timed<S>, vs: seq<Visit>, k: nat, end: Timed<S>, err: Option<Errno>) {
    && k <= |vs| && end.s == Fold(fn, from.s, vs[..k]) && (end.left.Some? <==> from.left.Some?)
    && (if err == None then k == |vs| else err == Some(ECANCELLED) && from.left.Some?)
  }

  lemma UpToThen<S>(fn: Callback<S>, from: Timed<S>, a: seq<Visit>, mid: Timed<S>, b: seq<Visit>, k: nat, end: Timed<S>, err: Option<Errno>)
    requires UpTo(fn, from, a, |a|, mid, None) && UpTo(fn, mid, b, k, end, err)
    ensures UpTo(fn, from, a + b, |a| + k, end, err)
  {
    assert a[..|a|] == a && (a + b)[..|a| + k] == a + b[..k];
    FoldSplits(fn, from.s, a, b[..k]);
  }

  lemma UpToStops<S>(fn: Callback<S>, from: Timed<S>, a: seq<Visit>, k: nat, end: Timed<S>, err: Option<Errno>, b: seq<Visit>)
    requires UpTo(fn, from, a, k, end, err) && err.Some?
    ensures UpTo(fn, from, a + b, k, end, err)
  {
    assert (a + b)[..k] == a[..k];
  }

  /** A first part and, unless that was cut short, a second. */
  lemma TwoParts<S>(fn: Callback<S>, from: Timed<S>, a: seq<Visit>, n: nat, mid: Timed<S>, cut: Option<Errno>,
                    b: seq<Visit>, m: nat, end: Timed<S>, err: Option<Errno>)
    returns (k: nat)
    requires UpTo(fn, from, a, n, mid, cut) && UpTo(fn, mid, b, m, end, err)
    ensures UpTo(fn, from, a + b, k, if cut.Some? then mid else end, if cut.Some? then cut else err)
  {
    if cut.Some? {
      UpToStops(fn, from, a, n, mid, cut, b);
      k := n;
    } else {
      UpToThen(fn, from, a, mid, b, m, end, err);
      k := |a| + m;
    }
  }

  lemma OneCall<S(!new)>(fn: Callback<S>, deep: bool, from: Timed<S>, v: Visit) returns (k: nat)
    requires Polite(fn, deep) && (v == Unreadable([]) ==> TakesUnreadableRoot(fn))
    ensures var (end, answer) := Checking(fn, from, v);
            UpTo(fn, from, [v], k, end, Classify(answer).1) && (from.Done() <==> Classify(answer).1.Some?)
  {
    k := if from.Done() then 0 else 1;
    assert [v][..1] == [v] && [v][1..] == [] && [v][..0] == [];
  }

  /** What reading some entries of a directory comes to, and what it leaves to be walked. */
  ghost predicate Reads<S>(fn: Callback<S>, deep: bool, from: Timed<S>, dir: Path, entries: seq<Entry>, n: nat, v: Visited<Timed<S>>) {
    && UpTo(fn, from, EntryVisits(dir, entries), n, v.s, v.err) && !v.stop
    && (v.err == None ==> v.subdirs == if deep then SubdirsOf(dir, entries) else [])
  }

  lemma {:induction false} SubdirsSplit(p: Path, a: seq<Entry>, b: seq<Entry>)
    ensures SubdirsOf(p, a + b) == SubdirsOf(p, a) + SubdirsOf(p, b)
  {
    if a == [] {
      assert a + b == b;
    } else {
      assert (a + b)[1..] == a[1..] + b;
      SubdirsSplit(p, a[1..], b);
    }
  }

  lemma ReadsThen<S>(fn: Callback<S>, deep: bool, from: Timed<S>, dir: Path, now: seq<Entry>, v: Visited<Timed<S>>,
                     later: seq<Entry>, n: nat, rest: Visited<Timed<S>>)
    requires Reads(fn, deep, from, dir, now, |now|, v) && v.err == None && Reads(fn, deep, v.s, dir, later, n, rest)
    ensures Reads(fn, deep, from, dir, now + later, |now| + n, Prepended(v.subdirs, rest))
  {
    assert EntryVisits(dir, now + later) == EntryVisits(dir, now) + EntryVisits(dir, later);
    UpToThen(fn, from, EntryVisits(dir, now), v.s, EntryVisits(dir, later), n, rest.s, rest.err);
    SubdirsSplit(dir, now, later);
  }

  lemma ReadsStop<S>(fn: Callback<S>, deep: bool, from: Timed<S>, dir: Path, now: seq<Entry>, n: nat, v: Visited<Timed<S>>, later: seq<Entry>)
    requires Reads(fn, deep, from, dir, now, n, v) && v.err.Some?
    ensures Reads(fn, deep, from, dir, now + later, n, v)
  {
    assert EntryVisits(dir, now + later) == EntryVisits(dir, now) + EntryVisits(dir, later);
    UpToStops(fn, from, EntryVisits(dir, now), n, v.s, v.err, EntryVisits(dir, later));
  }

  /** The state after the callback was called with the context not done. */
  function Called<S>(fn: Callback<S>, from: Timed<S>, v: Visit): Timed<S> { from.Tick().(s := fn(from.s, v).0) }

  lemma VisitOnce<S(!new)>(t: Tree, listing: Listing, fn: Callback<S>, deep: bool, from: Timed<S>, dir: Path, entries: seq<Entry>)
    requires Polite(fn, deep) && entries != []
    ensures var e, w := entries[0], QuietWorld(t, listing, fn);
            VisitEntries(w, from, dir, entries) ==
            if from.Done() then Visited(from, [], true, false, Some(ECANCELLED))
            else Prepended(if deep then SubdirsOf(dir, [e]) else [],
                           VisitEntries(w, Called(fn, from, Entered(Step(dir, e.name), e.isDir)), dir, entries[1..]))
  {
    var e := entries[0];
    assert VisitOf(dir + [e.name], Some(e)) == Entered(Step(dir, e.name), e.isDir);
    assert SubdirsOf(dir, [e]) == if e.isDir then [Step(dir, e.name)] else [];
    var rest := VisitEntries(QuietWorld(t, listing, fn), Called(fn, from, Entered(Step(dir, e.name), e.isDir)), dir, entries[1..]);
    assert Prepended([], rest) == rest;
  }

  lemma OneEntry<S>(fn: Callback<S>, deep: bool, from: Timed<S>, dir: Path, e: Entry)
    requires !from.Done()
    ensures Reads(fn, deep, from, dir, [e], 1,
                  Visited(Called(fn, from, Entered(Step(dir, e.name), e.isDir)), if deep then SubdirsOf(dir, [e]) else [], false, false, None))
  {
    var vs := EntryVisits(dir, [e]);
    assert vs[..1] == vs && vs[1..] == [];
  }

  lemma {:induction false} EntriesFold<S(!new)>(t: Tree, listing: Listing, fn: Callback<S>, deep: bool, from: Timed<S>, dir: Path, entries: seq<Entry>)
    returns (k: nat)
    requires Polite(fn, deep)
    ensures var v := VisitEntries(QuietWorld(t, listing, fn), from, dir, entries);
            Reads(fn, deep, from, dir, entries, k, v) && (v.ended <==> v.err.Some?)
    decreases |entries|
  {
    k := 0;
    if entries != [] {
      VisitOnce(t, listing, fn, deep, from, dir, entries);
      if !from.Done() {
        var e, rest := entries[0], entries[1..];
        var one := Visited(Called(fn, from, Entered(Step(dir, e.name), e.isDir)), if deep then SubdirsOf(dir, [e]) else [], false, false, None);
        k := EntriesFold(t, listing, fn, deep, one.s, dir, rest);
        OneEntry(fn, deep, from, dir, e);
        ReadsThen(fn, deep, from, dir, [e], one, rest, k, VisitEntries(QuietWorld(t, listing, fn), one.s, dir, rest));
        assert [e] + rest == entries;
        k := 1 + k;
      }
    }
  }

  /** One batch and the rest of the directory. */
  lemma StreamOnce<S(!new)>(t: Tree, listing: Listing, fn: Callback<S>, from: Timed<S>, dir: Path, k: nat, depth: nat, batches: nat)
    requires Bounded(QuietWorld(t, listing, fn), depth, batches) && dir in listing && k <= |listing[dir]| && !from.Done()
    ensures var w := QuietWorld(t, listing, fn);
            var v := VisitEntries(w, from.Tick(), dir, if k < |listing[dir]| then SortEntries(listing[dir][k]) else []);
            StreamFrom(w, from, dir, k, depth, batches) ==
            if v.ended || k == |listing[dir]| then v else Prepended(v.subdirs, StreamFrom(w, v.s, dir, k + 1, depth, batches))
  {
    var w := QuietWorld(t, listing, fn);
    assert w.readDir(from.Tick(), dir, k).1 == if k < |listing[dir]| then Batch(listing[dir][k], More) else Batch([], EOF);
    assert SortEntries([]) == [];
  }

  lemma {:induction false} StreamFolds<S(!new)>(t: Tree, listing: Listing, fn: Callback<S>, deep: bool, from: Timed<S>, dir: Path, k: nat, depth: nat, batches: nat)
    returns (n: nat)
    requires Polite(fn, deep) && Bounded(QuietWorld(t, listing, fn), depth, batches) && dir in listing && k <= |listing[dir]|
    ensures Reads(fn, deep, from, dir, HandedOver(listing[dir][k..]), n, StreamFrom(QuietWorld(t, listing, fn), from, dir, k, depth, batches))
    decreases |listing[dir]| - k
  {
    var w, left := QuietWorld(t, listing, fn), listing[dir][k..];
    if from.Done() {
      return 0;
    }
    StreamOnce(t, listing, fn, from, dir, k, depth, batches);
    if k == |listing[dir]| {
      return 0;
    }
    assert left[0] == listing[dir][k] && left[1..] == listing[dir][k + 1..];
    var now := SortEntries(left[0]);
    var v := VisitEntries(w, from.Tick(), dir, now);
    var m := EntriesFold(t, listing, fn, deep, from.Tick(), dir, now);
    n := StreamFolds(t, listing, fn, deep, v.s, dir, k + 1, depth, batches);
    n := ReadsJoin(fn, deep, from, dir, now, m, v, HandedOver(left[1..]), n, StreamFrom(w, v.s, dir, k + 1, depth, batches));
  }

  /** A batch and, unless that was cut short, the rest of the directory. */
  lemma ReadsJoin<S>(fn: Callback<S>, deep: bool, from: Timed<S>, dir: Path, now: seq<Entry>, m: nat, v: Visited<Timed<S>>,
                     later: seq<Entry>, n: nat, rest: Visited<Timed<S>>)
    returns (k: nat)
    requires Reads(fn, deep, from.Tick(), dir, now, m, v) && Reads(fn, deep, v.s, dir, later, n, rest)
    ensures Reads(fn, deep, from, dir, now + later, k, if v.err.Some? then v else Prepended(v.subdirs, rest))
  {
    if v.err.Some? {
      ReadsStop(fn, deep, from, dir, now, m, v, later);
      k := m;
    } else {
      ReadsThen(fn, deep, from, dir, now, v, later, n, rest);
      k := |now| + n;
    }
  }

  /** What walking a readable directory comes to: reading it, then its subdirectories. */
  lemma WalkOnce<S(!new)>(t: Tree, listing: Listing, fn: Callback<S>, from: Timed<S>, dir: Path, depth: nat, batches: nat) returns (n: nat)
    requires WellFormed(t) && ListsTree(t, listing) && DepthWithin(t, depth) && IsDirAt(t, dir) && t[dir].readable
    requires Polite(fn, true) && Bounded(QuietWorld(t, listing, fn), depth, batches)
    ensures |dir| < depth
    ensures var w, entries := QuietWorld(t, listing, fn), HandedOver(listing[dir]);
            var v, dirs := StreamFrom(w, from, dir, 0, depth, batches), SubdirsOf(dir, entries);
            && UpTo(fn, from, EntryVisits(dir, entries), n, v.s, v.err)
            && WalkDir(w, from, dir, depth, batches) ==
               if v.err.Some? then Walked(v.s, false, v.err, 1)
               else var r := WalkEach(w, v.s, dirs, |dir| + 1, depth, batches); r.(opens := 1 + r.opens)
  {
    assert listing[dir][0..] == listing[dir];
    assert QuietWorld(t, listing, fn).openDir(from, dir) == (from, None);
    n := StreamFolds(t, listing, fn, true, from, dir, 0, depth, batches);
  }

  lemma DirsBelow(t: Tree, listing: Listing, dir: Path, depth: nat)
    requires WellFormed(t) && ListsTree(t, listing) && DepthWithin(t, depth) && IsDirAt(t, dir) && t[dir].readable
    ensures var entries := HandedOver(listing[dir]);
            var dirs := SubdirsOf(dir, entries);
            && (forall k :: 0 <= k < |dirs| ==> |dirs[k]| == |dir| + 1 && IsDirAt(t, dirs[k]))
            && WalkVisits(t, listing, dir, depth) == EntryVisits(dir, entries) + EachVisits(t, listing, dirs, |dir| + 1, depth)
  {
    HandedOverIsListing(t, dir, listing[dir]);
    SubdirsAreDirs(t, dir, HandedOver(listing[dir]));
  }

  /** The whole walk of a directory is a fold over its visits. */
  lemma {:induction false} WalkFolds<S(!new)>(t: Tree, listing: Listing, fn: Callback<S>, from: Timed<S>, dir: Path, depth: nat, batches: nat)
    returns (n: nat)
    requires WellFormed(t) && ListsTree(t, listing) && DepthWithin(t, depth) && IsDirAt(t, dir) && (dir == [] && !t[dir].readable ==> TakesUnreadableRoot(fn))
    requires Polite(fn, true) && Bounded(QuietWorld(t, listing, fn), depth, batches)
    ensures var r := WalkDir(QuietWorld(t, listing, fn), from, dir, depth, batches);
            UpTo(fn, from, WalkVisits(t, listing, dir, depth), n, r.s, r.err) && !r.stop
    decreases depth - |dir|, 0, 0
  {
    if !t[dir].readable {
      n := UnreadableFolds(t, listing, fn, true, from, dir, depth, batches);
    } else {
      DirsBelow(t, listing, dir, depth);
      var w, own := QuietWorld(t, listing, fn), HandedOver(listing[dir]);
      n := WalkOnce(t, listing, fn, from, dir, depth, batches);
      var v, dirs := StreamFrom(w, from, dir, 0, depth, batches), SubdirsOf(dir, own);
      var m := EachFolds(t, listing, fn, v.s, dirs, |dir| + 1, depth, batches);
      var r := WalkEach(w, v.s, dirs, |dir| + 1, depth, batches);
      n := TwoParts(fn, from, EntryVisits(dir, own), n, v.s, v.err, EachVisits(t, listing, dirs, |dir| + 1, depth), m, r.s, r.err);
    }
  }

  lemma UnreadableFolds<S(!new)>(t: Tree, listing: Listing, fn: Callback<S>, deep: bool, from: Timed<S>, dir: Path, depth: nat, batches: nat) returns (n: nat)
    requires IsDirAt(t, dir) && !t[dir].readable && (dir == [] ==> TakesUnreadableRoot(fn)) && |dir| <= depth
    requires Polite(fn, deep) && Bounded(QuietWorld(t, listing, fn), depth, batches)
    ensures var r := WalkDir(QuietWorld(t, listing, fn), from, dir, depth, batches);
            UpTo(fn, from, [Unreadable(dir)], n, r.s, r.err) && !r.stop
  {
    assert VisitOf(dir, None) == Unreadable(dir);
    n := OneCall(fn, deep, from, Unreadable(dir));
  }

  lemma {:induction false} EachFolds<S(!new)>(t: Tree, listing: Listing, fn: Callback<S>, from: Timed<S>, dirs: seq<Path>, level: nat, depth: nat, batches: nat)
    returns (n: nat)
    requires WellFormed(t) && ListsTree(t, listing) && DepthWithin(t, depth) && 0 < level <= depth
    requires forall k :: 0 <= k < |dirs| ==> |dirs[k]| == level && IsDirAt(t, dirs[k])
    requires Polite(fn, true) && Bounded(QuietWorld(t, listing, fn), depth, batches)
    ensures var r := WalkEach(QuietWorld(t, listing, fn), from, dirs, level, depth, batches);
            UpTo(fn, from, EachVisits(t, listing, dirs, level, depth), n, r.s, r.err) && !r.stop
    decreases depth - level, 1, |dirs|
  {
    n := 0;
    if dirs != [] {
      var w := QuietWorld(t, listing, fn);
      var first, later := WalkVisits(t, listing, dirs[0], depth), EachVisits(t, listing, dirs[1..], level, depth);
      n := WalkFolds(t, listing, fn, from, dirs[0], depth, batches);
      var here := WalkDir(w, from, dirs[0], depth, batches);
      var m := EachFolds(t, listing, fn, here.s, dirs[1..], level, depth, batches);
      var rest := WalkEach(w, here.s, dirs[1..], level, depth, batches);
      n := TwoParts(fn, from, first, n, here.s, here.err, later, m, rest.s, rest.err);
    }
  }

  // ---- The whole tree -------------------------------------------------------------

  /** The visits of a walk from the root, the root's own first. */
  ghost function TreeVisits(t: Tree, listing: Listing, deep: bool, depth: nat): seq<Visit>
    requires WellFormed(t) && ListsTree(t, listing) && DepthWithin(t, depth)
  {
    [Entered([], true)] + if deep || !t[[]].readable then WalkVisits(t, listing, [], depth) else EntryVisits([], HandedOver(listing[[]]))
  }

  lemma BelowFolds<S(!new)>(t: Tree, listing: Listing, fn: Callback<S>, deep: bool, from: Timed<S>, depth: nat, batches: nat) returns (n: nat)
    requires WellFormed(t) && ListsTree(t, listing) && DepthWithin(t, depth) && (!t[[]].readable ==> TakesUnreadableRoot(fn))
    requires Polite(fn, deep) && Bounded(QuietWorld(t, listing, fn), depth, batches)
    ensures var r := WalkDir(QuietWorld(t, listing, fn), from, [], depth, batches);
            UpTo(fn, from, TreeVisits(t, listing, deep, depth)[1..], n, r.s, r.err)
  {
    if !t[[]].readable {
      n := UnreadableFolds(t, listing, fn, deep, from, [], depth, batches);
    } else if deep {
      n := WalkFolds(t, listing, fn, from, [], depth, batches);
    } else {
      assert listing[[]][0..] == listing[[]] && QuietWorld(t, listing, fn).openDir(from, []).1.None?;
      n := StreamFolds(t, listing, fn, false, from, [], 0, depth, batches);
    }
  }

  /** The walk as it begins: two checks of the context, and the root's own visit. */
  lemma RootThenBelow<S(!new)>(t: Tree, listing: Listing, fn: Callback<S>, deep: bool, from: Timed<S>, depth: nat, batches: nat)
    requires Polite(fn, deep) && Bounded(QuietWorld(t, listing, fn), depth, batches)
    ensures var w, next := QuietWorld(t, listing, fn), Checking(fn, from.Tick(), Entered([], true)).0;
            WalkTree(w, from, depth, batches) ==
            if from.Done() || from.Tick().Done() then Walked(from.Tick(), false, Some(ECANCELLED), 0)
            else WalkDir(w, next, [], depth, batches)
  {
    assert VisitOf([], Some(Entry(".", true))) == Entered([], true);
  }

  /** With a polite callback the confined walk is the fold of the callback over the visits
      of the tree, and ends without an error; found done, the context ends it after some
      first part of them. */
  lemma TreeFolds<S(!new)>(t: Tree, listing: Listing, fn: Callback<S>, deep: bool, from: Timed<S>, depth: nat, batches: nat) returns (n: nat)
    requires WellFormed(t) && ListsTree(t, listing) && DepthWithin(t, depth) && (!t[[]].readable ==> TakesUnreadableRoot(fn))
    requires Polite(fn, deep) && Bounded(QuietWorld(t, listing, fn), depth, batches)
    ensures var r := WalkTree(QuietWorld(t, listing, fn), from, depth, batches);
            UpTo(fn, from, TreeVisits(t, listing, deep, depth), n, r.s, r.err)
  {
    RootThenBelow(t, listing, fn, deep, from, depth, batches);
    if from.Done() || from.Tick().Done() {
      return 0;
    }
    var next := Checking(fn, from.Tick(), Entered([], true)).0;
    n := BelowFolds(t, listing, fn, deep, next, depth, batches);
    var r := WalkDir(QuietWorld(t, listing, fn), next, [], depth, batches);
    RootFirst(fn, deep, from, TreeVisits(t, listing, deep, depth)[1..], n, r.s, r.err);
    n := 1 + n;
  }

  lemma RootFirst<S(!new)>(fn: Callback<S>, deep: bool, from: Timed<S>, below: seq<Visit>, n: nat, end: Timed<S>, err: Option<Errno>)
    requires Polite(fn, deep) && !from.Done() && !from.Tick().Done()
    requires UpTo(fn, Checking(fn, from.Tick(), Entered([], true)).0, below, n, end, err)
    ensures UpTo(fn, from, [Entered([], true)] + below, 1 + n, end, err)
  {
    var k := OneCall(fn, deep, from.Tick(), Entered([], true));
    UpToThen(fn, from, [Entered([], true)], Checking(fn, from.Tick(), Entered([], true)).0, below, n, end, err);
  }

  lemma FlatIsComplete(t: Tree, listing: Listing)
    requires WellFormed(t) && ListsTree(t, listing) && t[[]].readable
    ensures Complete(t, [], false, EntryVisits([], HandedOver(listing[[]])))
  {
    var entries := HandedOver(listing[[]]);
    HandedOverIsListing(t, [], listing[[]]);
    EntriesAreComplete(t, entries);
  }

  /** Any listing of the root's entries makes exactly the visits due without descending. */
  lemma EntriesAreComplete(t: Tree, entries: seq<Entry>)
    requires WellFormed(t) && t[[]].readable && EntriesOf(t, [], entries)
    ensures Complete(t, [], false, EntryVisits([], entries))
  {
    var vs := EntryVisits([], entries);
    EntryVisitsDistinct([], entries);
    forall v
      ensures v in vs <==> Due(t, [], false, v)
    {
      if v in vs {
        var k :| 0 <= k < |vs| && vs[k] == v;
        DueEntry(t, [], entries[k].name);
      }
      if Due(t, [], false, v) {
        var n := v.path[0];
        assert v.path == [] + [n];
        var k :| 0 <= k < |entries| && entries[k].name == n;
        assert vs[k] == v;
      }
    }
  }

  // ---- Parents first ----------------------------------------------------------------

  /** The directory a visit needs to have been entered before it. */
  function Ancestor(v: Visit): Path {
    if v.Entered? && v.path != [] then v.path[..|v.path| - 1] else v.path
  }

  /** Every visit comes after the one that entered its parent, unless the parent is among
      `entered` already. */
  ghost predicate ParentsFirst(entered: set<Path>, vs: seq<Visit>) {
    forall i :: 0 <= i < |vs| ==> Ancestor(vs[i]) in entered || Entered(Ancestor(vs[i]), true) in vs[..i]
  }

  lemma ParentsFirstConcat(entered: set<Path>, a: seq<Visit>, inner: set<Path>, b: seq<Visit>)
    requires ParentsFirst(entered, a) && ParentsFirst(inner, b)
    requires forall q :: q in inner ==> q in entered || Entered(q, true) in a
    ensures ParentsFirst(entered, a + b)
  {
    forall i | 0 <= i < |a + b|
      ensures var v := (a + b)[i]; Ancestor(v) in entered || Entered(Ancestor(v), true) in (a + b)[..i]
    {
      if i < |a| {
        assert (a + b)[..i] == a[..i];
      } else {
        assert (a + b)[..i] == a + b[..i - |a|];
      }
    }
  }

  function Paths(dirs: seq<Path>): set<Path> { set q | q in dirs }

  lemma EntriesParentsFirst(p: Path, entries: seq<Entry>)
    ensures ParentsFirst({p}, EntryVisits(p, entries))
  {
  }

  lemma DirsAreEntered(t: Tree, p: Path, entries: seq<Entry>)
    requires EntriesOf(t, p, entries)
    ensures forall q :: q in Paths(SubdirsOf(p, entries)) ==> Entered(q, true) in EntryVisits(p, entries)
  {
    var own := EntryVisits(p, entries);
    SubdirsAreDirs(t, p, entries);
    forall q | q in Paths(SubdirsOf(p, entries))
      ensures Entered(q, true) in own
    {
      var k :| 0 <= k < |entries| && entries[k].isDir && q == Step(p, entries[k].name);
      assert own[k] == Entered(q, true);
    }
  }

  lemma {:induction false} WalkVisitsParentsFirst(t: Tree, listing: Listing, p: Path, depth: nat)
    requires WellFormed(t) && ListsTree(t, listing) && DepthWithin(t, depth) && IsDirAt(t, p)
    ensures ParentsFirst({p}, WalkVisits(t, listing, p, depth))
    decreases depth - |p|, 0, 0
  {
    if t[p].readable {
      var entries := HandedOver(listing[p]);
      HandedOverIsListing(t, p, listing[p]);
      SubdirsAreDirs(t, p, entries);
      var dirs := SubdirsOf(p, entries);
      var own := EntryVisits(p, entries);
      EachParentsFirst(t, listing, dirs, |p| + 1, depth);
      EntriesParentsFirst(p, entries);
      var inner := Paths(dirs);
      DirsAreEntered(t, p, entries);
      ParentsFirstConcat({p}, own, inner, EachVisits(t, listing, dirs, |p| + 1, depth));
    }
  }

  lemma {:induction false} EachParentsFirst(t: Tree, listing: Listing, dirs: seq<Path>, level: nat, depth: nat)
    requires WellFormed(t) && ListsTree(t, listing) && DepthWithin(t, depth)
    requires forall k :: 0 <= k < |dirs| ==> |dirs[k]| == level && IsDirAt(t, dirs[k])
    ensures ParentsFirst(Paths(dirs), EachVisits(t, listing, dirs, level, depth))
    decreases depth - level, 1, |dirs|
  {
    if dirs != [] {
      var all := Paths(dirs);
      WalkVisitsParentsFirst(t, listing, dirs[0], depth);
      EachParentsFirst(t, listing, dirs[1..], level, depth);
      ParentsFirstWeaken({dirs[0]}, all, WalkVisits(t, listing, dirs[0], depth));
      ParentsFirstConcat(all, WalkVisits(t, listing, dirs[0], depth), Paths(dirs[1..]), EachVisits(t, listing, dirs[1..], level, depth));
    }
  }

  lemma ParentsFirstWeaken(few: set<Path>, many: set<Path>, vs: seq<Visit>)
    requires ParentsFirst(few, vs) && few <= many
    ensures ParentsFirst(many, vs)
  {
  }

  // ---- Coverage --------------------------------------------------------------------

  /** The callback that remembers its visits, and answers nil unless it is not to descend. */
  function Recording(deep: bool): Callback<seq<Visit>> {
    (log: seq<Visit>, v: Visit) => (log + [v], if !deep && v.Entered? && v.isDir && v.path != [] then Some(SkipDir) else None)
  }

  lemma {:induction false} RecordingRecords(deep: bool, log: seq<Visit>, vs: seq<Visit>)
    ensures Fold(Recording(deep), log, vs) == log + vs
    decreases |vs|
  {
    if vs != [] {
      RecordingRecords(deep, log + [vs[0]], vs[1..]);
      assert log + [vs[0]] + vs[1..] == log + vs;
    } else {
      assert log + vs == log;
    }
  }

  /** The visits a walk of the tree makes, when it is left to end. */
  lemma WalkRecords(t: Tree, listing: Listing, deep: bool, depth: nat, batches: nat)
    requires WellFormed(t) && ListsTree(t, listing) && DepthWithin(t, depth)
    requires Bounded(QuietWorld(t, listing, Recording(deep)), depth, batches)
    ensures var r := WalkTree(QuietWorld(t, listing, Recording(deep)), Timed([], None), depth, batches);
            r.s.s == TreeVisits(t, listing, deep, depth) && r.err == None
  {
    var visits := TreeVisits(t, listing, deep, depth);
    var n := TreeFolds(t, listing, Recording(deep), deep, Timed([], None), depth, batches);
    assert visits[..|visits|] == visits;
    RecordingRecords(deep, [], visits);
    assert [] + visits == visits;
  }

  /** On an unchanging tree with a callback that always answers nil and a context that is
      never done: the root is visited first; then every path that is reached through
      readable real directories exactly once, and nothing else - so nothing below a symlink;
      every directory before what is in it; and each unreadable directory is reported once
      more, for its own path. */
  lemma WalkCoversTheTree(t: Tree, listing: Listing, depth: nat, batches: nat)
    requires WellFormed(t) && ListsTree(t, listing) && DepthWithin(t, depth)
    requires Bounded(QuietWorld(t, listing, Recording(true)), depth, batches)
    ensures var r := WalkTree(QuietWorld(t, listing, Recording(true)), Timed([], None), depth, batches);
            && r.err == None && |r.s.s| > 0 && r.s.s[0] == Entered([], true)
            && Complete(t, [], true, r.s.s[1..]) && ParentsFirst({[]}, r.s.s[1..])
  {
    WalkRecords(t, listing, true, depth, batches);
    assert TreeVisits(t, listing, true, depth)[1..] == WalkVisits(t, listing, [], depth);
    WalkIsComplete(t, listing, [], depth);
    WalkVisitsParentsFirst(t, listing, [], depth);
  }
}
