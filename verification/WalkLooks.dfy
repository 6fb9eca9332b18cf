/** How often a walk of a quiet tree looks at its context, and so exactly when a context that
    is done after so many looks cuts it short. */
module WalkLooks {
  import opened FileSystem
  import opened Walking
  import opened QuietTrees
  import opened QuietWalks

  // ---- The number of looks ----------------------------------------------------------------

  /** Reading a directory: a look before each batch, one for each entry, and one before the
      read that finds the end. */
  function LooksAt(batches: seq<seq<Entry>>): nat {
    if batches == [] then 1 else 1 + |batches[0]| + LooksAt(batches[1..])
  }

  /** The same for all that is below a directory; one that cannot be read is reported. */
  ghost function LooksBelow(t: Tree, listing: Listing, p: Path, depth: nat): nat
    requires WellFormed(t) && ListsTree(t, listing) && DepthWithin(t, depth) && IsDirAt(t, p)
    decreases depth - |p|, 0, 0
  {
    if !t[p].readable then 1 else
    var entries := HandedOver(listing[p]);
    HandedOverIsListing(t, p, listing[p]);
    SubdirsAreDirs(t, p, entries);
    LooksAt(listing[p]) + LooksBelowEach(t, listing, SubdirsOf(p, entries), |p| + 1, depth)
  }

  ghost function LooksBelowEach(t: Tree, listing: Listing, dirs: seq<Path>, level: nat, depth: nat): nat
    requires WellFormed(t) && ListsTree(t, listing) && DepthWithin(t, depth)
    requires forall k :: 0 <= k < |dirs| ==> |dirs[k]| == level && IsDirAt(t, dirs[k])
    decreases depth - level, 1, |dirs|
  {
    if dirs == [] then 0 else
    LooksBelow(t, listing, dirs[0], depth) + LooksBelowEach(t, listing, dirs[1..], level, depth)
  }

  /** A whole walk: one look before it, one for the root, and those below. */
  ghost function TreeLooks(t: Tree, listing: Listing, deep: bool, depth: nat): nat
    requires WellFormed(t) && ListsTree(t, listing) && DepthWithin(t, depth)
  {
    2 + if deep || !t[[]].readable then LooksBelow(t, listing, [], depth) else LooksAt(listing[[]])
  }

  // ---- Cut short or not -------------------------------------------------------------------

  /** It takes `looks` looks, and is cut short if and only if the context has fewer left. */
  predicate Takes(from: Option<nat>, looks: nat, end: Option<nat>, err: Option<Errno>) {
    match from
    case None => end == None && err == None
    case Some(n) => if n < looks then err == Some(ECANCELLED) else err == None && end == Some(n - looks)
  }

  /** A first part and, unless that was cut short, a second. */
  lemma TakesBoth(from: Option<nat>, a: nat, mid: Option<nat>, cut: Option<Errno>, b: nat, end: Option<nat>, err: Option<Errno>)
    requires Takes(from, a, mid, cut) && (cut == None ==> Takes(mid, b, end, err))
    ensures Takes(from, a + b, if cut.Some? then mid else end, if cut.Some? then cut else err)
  {
  }

  lemma LookFirst<S>(from: Timed<S>, looks: nat, end: Option<nat>, err: Option<Errno>)
    requires !from.Done() && Takes(from.Tick().left, looks, end, err)
    ensures Takes(from.left, 1 + looks, end, err)
  {
  }

  lemma OneLook<S(!new)>(fn: Callback<S>, deep: bool, from: Timed<S>, v: Visit)
    requires Polite(fn, deep) && (v == Unreadable([]) ==> TakesUnreadableRoot(fn))
    ensures var (end, answer) := Checking(fn, from, v); Takes(from.left, 1, end.left, Classify(answer).1)
  {
  }

  lemma {:induction false} EntriesTake<S(!new)>(t: Tree, listing: Listing, fn: Callback<S>, deep: bool, from: Timed<S>, dir: Path, entries: seq<Entry>)
    requires Polite(fn, deep)
    ensures var v := VisitEntries(QuietWorld(t, listing, fn), from, dir, entries); Takes(from.left, |entries|, v.s.left, v.err)
    decreases |entries|
  {
    if entries != [] {
      VisitOnce(t, listing, fn, deep, from, dir, entries);
      if !from.Done() {
        EntriesTake(t, listing, fn, deep, Called(fn, from, Entered(Step(dir, entries[0].name), entries[0].isDir)), dir, entries[1..]);
      }
    }
  }

  lemma SortingKeepsTheNumber(entries: seq<Entry>)
    ensures |SortEntries(entries)| == |entries|
  {
    SortEntriesSorts(entries);
    assert |multiset(SortEntries(entries))| == |multiset(entries)|;
  }

  /** One batch, and the rest of the directory unless that was cut short. */
  lemma BatchThenRest<S(!new)>(t: Tree, listing: Listing, fn: Callback<S>, deep: bool, from: Timed<S>, dir: Path, k: nat, depth: nat, batches: nat)
    requires Polite(fn, deep) && Bounded(QuietWorld(t, listing, fn), depth, batches) && dir in listing && k < |listing[dir]| && !from.Done()
    ensures var w := QuietWorld(t, listing, fn);
            var v := VisitEntries(w, from.Tick(), dir, SortEntries(listing[dir][k]));
            var all, rest := StreamFrom(w, from, dir, k, depth, batches), StreamFrom(w, v.s, dir, k + 1, depth, batches);
            && all.s.left == (if v.err.Some? then v.s.left else rest.s.left) && all.err == (if v.err.Some? then v.err else rest.err)
            && Takes(from.Tick().left, |listing[dir][k]|, v.s.left, v.err)
  {
    var now := SortEntries(listing[dir][k]);
    SortingKeepsTheNumber(listing[dir][k]);
    StreamOnce(t, listing, fn, from, dir, k, depth, batches);
    EntriesTake(t, listing, fn, deep, from.Tick(), dir, now);
    var _ := EntriesFold(t, listing, fn, deep, from.Tick(), dir, now);
  }

  lemma {:induction false} StreamTakes<S(!new)>(t: Tree, listing: Listing, fn: Callback<S>, deep: bool, from: Timed<S>, dir: Path, k: nat, depth: nat, batches: nat)
    requires Polite(fn, deep) && Bounded(QuietWorld(t, listing, fn), depth, batches) && dir in listing && k <= |listing[dir]|
    ensures var v := StreamFrom(QuietWorld(t, listing, fn), from, dir, k, depth, batches); Takes(from.left, LooksAt(listing[dir][k..]), v.s.left, v.err)
    decreases |listing[dir]| - k
  {
    var left := listing[dir][k..];
    if k == |listing[dir]| && !from.Done() {
      StreamOnce(t, listing, fn, from, dir, k, depth, batches);
    } else if !from.Done() {
      assert left[0] == listing[dir][k] && left[1..] == listing[dir][k + 1..];
      BatchThenRest(t, listing, fn, deep, from, dir, k, depth, batches);
      var v := VisitEntries(QuietWorld(t, listing, fn), from.Tick(), dir, SortEntries(left[0]));
      var rest := StreamFrom(QuietWorld(t, listing, fn), v.s, dir, k + 1, depth, batches);
      StreamTakes(t, listing, fn, deep, v.s, dir, k + 1, depth, batches);
      TakesBoth(from.Tick().left, |left[0]|, v.s.left, v.err, LooksAt(left[1..]), rest.s.left, rest.err);
      LookFirst(from, |left[0]| + LooksAt(left[1..]), if v.err.Some? then v.s.left else rest.s.left, if v.err.Some? then v.err else rest.err);
    }
  }

  lemma LooksOfDirectory(t: Tree, listing: Listing, dir: Path, depth: nat)
    requires WellFormed(t) && ListsTree(t, listing) && DepthWithin(t, depth) && IsDirAt(t, dir) && t[dir].readable
    ensures var dirs := SubdirsOf(dir, HandedOver(listing[dir]));
            && (forall k :: 0 <= k < |dirs| ==> |dirs[k]| == |dir| + 1 && IsDirAt(t, dirs[k]))
            && LooksBelow(t, listing, dir, depth) == LooksAt(listing[dir]) + LooksBelowEach(t, listing, dirs, |dir| + 1, depth)
  {
    HandedOverIsListing(t, dir, listing[dir]);
    SubdirsAreDirs(t, dir, HandedOver(listing[dir]));
  }

  /** A readable directory, and then its subdirectories unless that was cut short. */
  lemma DirectoryThenRest<S(!new)>(t: Tree, listing: Listing, fn: Callback<S>, from: Timed<S>, dir: Path, depth: nat, batches: nat)
    requires WellFormed(t) && ListsTree(t, listing) && DepthWithin(t, depth) && IsDirAt(t, dir) && t[dir].readable
    requires Polite(fn, true) && Bounded(QuietWorld(t, listing, fn), depth, batches)
    ensures |dir| < depth
    ensures var w, dirs := QuietWorld(t, listing, fn), SubdirsOf(dir, HandedOver(listing[dir]));
            var v := StreamFrom(w, from, dir, 0, depth, batches);
            var all, rest := WalkDir(w, from, dir, depth, batches), WalkEach(w, v.s, dirs, |dir| + 1, depth, batches);
            && all.s.left == (if v.err.Some? then v.s.left else rest.s.left) && all.err == (if v.err.Some? then v.err else rest.err)
            && Takes(from.left, LooksAt(listing[dir]), v.s.left, v.err)
  {
    assert listing[dir][0..] == listing[dir];
    StreamTakes(t, listing, fn, true, from, dir, 0, depth, batches);
    var _ := WalkOnce(t, listing, fn, from, dir, depth, batches);
  }

  lemma {:induction false} WalkTakes<S(!new)>(t: Tree, listing: Listing, fn: Callback<S>, from: Timed<S>, dir: Path, depth: nat, batches: nat)
    requires WellFormed(t) && ListsTree(t, listing) && DepthWithin(t, depth) && IsDirAt(t, dir) && (dir == [] && !t[dir].readable ==> TakesUnreadableRoot(fn))
    requires Polite(fn, true) && Bounded(QuietWorld(t, listing, fn), depth, batches)
    ensures var r := WalkDir(QuietWorld(t, listing, fn), from, dir, depth, batches); Takes(from.left, LooksBelow(t, listing, dir, depth), r.s.left, r.err)
    decreases depth - |dir|, 0, 0
  {
    if !t[dir].readable {
      UnreadableTakes(t, listing, fn, true, from, dir, depth, batches);
    } else {
      LooksOfDirectory(t, listing, dir, depth);
      DirectoryThenRest(t, listing, fn, from, dir, depth, batches);
      var w, dirs := QuietWorld(t, listing, fn), SubdirsOf(dir, HandedOver(listing[dir]));
      var v := StreamFrom(w, from, dir, 0, depth, batches);
      EachTakes(t, listing, fn, v.s, dirs, |dir| + 1, depth, batches);
      var rest := WalkEach(w, v.s, dirs, |dir| + 1, depth, batches);
      TakesBoth(from.left, LooksAt(listing[dir]), v.s.left, v.err, LooksBelowEach(t, listing, dirs, |dir| + 1, depth), rest.s.left, rest.err);
    }
  }

  lemma UnreadableTakes<S(!new)>(t: Tree, listing: Listing, fn: Callback<S>, deep: bool, from: Timed<S>, dir: Path, depth: nat, batches: nat)
    requires IsDirAt(t, dir) && !t[dir].readable && (dir == [] ==> TakesUnreadableRoot(fn)) && |dir| <= depth
    requires Polite(fn, deep) && Bounded(QuietWorld(t, listing, fn), depth, batches)
    ensures var r := WalkDir(QuietWorld(t, listing, fn), from, dir, depth, batches); Takes(from.left, 1, r.s.left, r.err)
  {
    assert VisitOf(dir, None) == Unreadable(dir);
    OneLook(fn, deep, from, Unreadable(dir));
  }

  /** The first of some directories, and then the others unless that was cut short. */
  lemma FirstThenRest<S(!new)>(t: Tree, listing: Listing, fn: Callback<S>, from: Timed<S>, dirs: seq<Path>, level: nat, depth: nat, batches: nat)
    requires WellFormed(t) && ListsTree(t, listing) && DepthWithin(t, depth) && 0 < level <= depth && dirs != []
    requires forall k :: 0 <= k < |dirs| ==> |dirs[k]| == level && IsDirAt(t, dirs[k])
    requires Polite(fn, true) && Bounded(QuietWorld(t, listing, fn), depth, batches)
    ensures var w := QuietWorld(t, listing, fn);
            var first := WalkDir(w, from, dirs[0], depth, batches);
            var all, rest := WalkEach(w, from, dirs, level, depth, batches), WalkEach(w, first.s, dirs[1..], level, depth, batches);
            all.s.left == (if first.err.Some? then first.s.left else rest.s.left) && all.err == (if first.err.Some? then first.err else rest.err)
  {
    var _ := WalkFolds(t, listing, fn, from, dirs[0], depth, batches);
  }

  lemma {:induction false} EachTakes<S(!new)>(t: Tree, listing: Listing, fn: Callback<S>, from: Timed<S>, dirs: seq<Path>, level: nat, depth: nat, batches: nat)
    requires WellFormed(t) && ListsTree(t, listing) && DepthWithin(t, depth) && 0 < level <= depth
    requires forall k :: 0 <= k < |dirs| ==> |dirs[k]| == level && IsDirAt(t, dirs[k])
    requires Polite(fn, true) && Bounded(QuietWorld(t, listing, fn), depth, batches)
    ensures var r := WalkEach(QuietWorld(t, listing, fn), from, dirs, level, depth, batches);
            Takes(from.left, LooksBelowEach(t, listing, dirs, level, depth), r.s.left, r.err)
    decreases depth - level, 1, |dirs|
  {
    if dirs != [] {
      var w := QuietWorld(t, listing, fn);
      WalkTakes(t, listing, fn, from, dirs[0], depth, batches);
      FirstThenRest(t, listing, fn, from, dirs, level, depth, batches);
      var first := WalkDir(w, from, dirs[0], depth, batches);
      EachTakes(t, listing, fn, first.s, dirs[1..], level, depth, batches);
      var rest := WalkEach(w, first.s, dirs[1..], level, depth, batches);
      TakesBoth(from.left, LooksBelow(t, listing, dirs[0], depth), first.s.left, first.err, LooksBelowEach(t, listing, dirs[1..], level, depth), rest.s.left, rest.err);
    }
  }

  lemma BelowTakes<S(!new)>(t: Tree, listing: Listing, fn: Callback<S>, deep: bool, from: Timed<S>, depth: nat, batches: nat)
    requires WellFormed(t) && ListsTree(t, listing) && DepthWithin(t, depth) && (!t[[]].readable ==> TakesUnreadableRoot(fn))
    requires Polite(fn, deep) && Bounded(QuietWorld(t, listing, fn), depth, batches)
    ensures var r := WalkDir(QuietWorld(t, listing, fn), from, [], depth, batches); Takes(from.left, TreeLooks(t, listing, deep, depth) - 2, r.s.left, r.err)
  {
    if !t[[]].readable {
      UnreadableTakes(t, listing, fn, deep, from, [], depth, batches);
    } else if deep {
      WalkTakes(t, listing, fn, from, [], depth, batches);
    } else {
      FlatTakes(t, listing, fn, from, depth, batches);
    }
  }

  lemma FlatTakes<S(!new)>(t: Tree, listing: Listing, fn: Callback<S>, from: Timed<S>, depth: nat, batches: nat)
    requires WellFormed(t) && ListsTree(t, listing) && t[[]].readable && Polite(fn, false) && Bounded(QuietWorld(t, listing, fn), depth, batches)
    ensures var r := WalkDir(QuietWorld(t, listing, fn), from, [], depth, batches); Takes(from.left, LooksAt(listing[[]]), r.s.left, r.err)
  {
    assert listing[[]][0..] == listing[[]] && QuietWorld(t, listing, fn).openDir(from, []) == (from, None);
    StreamTakes(t, listing, fn, false, from, [], 0, depth, batches);
    var _ := StreamFolds(t, listing, fn, false, from, [], 0, depth, batches);
  }

  lemma TwoLooks<S>(from: Timed<S>, below: nat, end: Option<nat>, err: Option<Errno>)
    requires if from.Done() || from.Tick().Done() then err == Some(ECANCELLED) else Takes(from.Tick().Tick().left, below, end, err)
    ensures Takes(from.left, 2 + below, end, err)
  {
  }

  /** A walk with a polite callback is cut short if and only if its context is done within
      `TreeLooks` looks. */
  lemma WalkIsCutIffDoneWithin<S(!new)>(t: Tree, listing: Listing, fn: Callback<S>, deep: bool, from: Timed<S>, depth: nat, batches: nat)
    requires WellFormed(t) && ListsTree(t, listing) && DepthWithin(t, depth) && (!t[[]].readable ==> TakesUnreadableRoot(fn))
    requires Polite(fn, deep) && Bounded(QuietWorld(t, listing, fn), depth, batches)
    ensures var r := WalkTree(QuietWorld(t, listing, fn), from, depth, batches); Takes(from.left, TreeLooks(t, listing, deep, depth), r.s.left, r.err)
  {
    RootThenBelow(t, listing, fn, deep, from, depth, batches);
    var next := Checking(fn, from.Tick(), Entered([], true)).0;
    BelowTakes(t, listing, fn, deep, next, depth, batches);
    var below := WalkDir(QuietWorld(t, listing, fn), next, [], depth, batches);
    var r := WalkTree(QuietWorld(t, listing, fn), from, depth, batches);
    TwoLooks(from, TreeLooks(t, listing, deep, depth) - 2, r.s.left, r.err);
  }
}
