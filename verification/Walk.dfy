/** Walking a confined tree: the batched loop over an explicit stack of names, and the
    recursive meaning it refines, for any callback and any world that changes under it. */
module Walking {
  import opened FileSystem

  type Errno = int

  /** What a callback may answer besides nil. */
  datatype WalkError = SkipDir | SkipAll | Broken(err: Errno)

  datatype WalkAction = WalkContinue | WalkSkipDir | WalkStop

  /** `isDir` is the type the directory entry itself reports: false for a symlink. */
  datatype Entry = Entry(name: Name, isDir: bool)

  datatype ReadEnd = More | EOF | ReadFailed(err: Errno)
  datatype Batch = Batch(entries: seq<Entry>, end: ReadEnd)

  /** Everything the walk talks to, as functions of one state that holds the filesystem,
      the callback's own variables, the context and whatever else may change. */
  datatype World<!S> = World(
    ctxErr: S -> (S, Option<Errno>),
    statRoot: S -> (S, Option<Errno>),
    openDir: (S, Path) -> (S, Option<Errno>),
    readDir: (S, Path, nat) -> (S, Batch),
    fn: (S, Path, Option<Entry>, Option<Errno>) -> (S, Option<WalkError>))

  /** Paths have a greatest length and directories a greatest number of batches. */
  ghost predicate Bounded<S(!new)>(w: World<S>, depth: nat, batches: nat) {
    && (forall s, p :: |p| >= depth ==> w.openDir(s, p).1.Some?)
    && (forall s, p, k :: k >= batches ==> !w.readDir(s, p, k).1.end.More?)
  }

  /** Only a real error is ever propagated. */
  function Classify(answer: Option<WalkError>): (WalkAction, Option<Errno>) {
    match answer
    case None => (WalkContinue, None)
    case Some(SkipAll) => (WalkStop, None)
    case Some(SkipDir) => (WalkSkipDir, None)
    case Some(Broken(err)) => (WalkContinue, Some(err))
  }

  // ---- Sorting within a batch -------------------------------------------------

  predicate NameLeq(a: Name, b: Name) {
    if a == [] then true else if b == [] then false else a[0] < b[0] || (a[0] == b[0] && NameLeq(a[1..], b[1..]))
  }

  /** The order of strings: the first character in which two names differ decides, and a
      proper prefix comes first. */
  lemma {:induction false} NameLeqIsLexicographic(a: Name, b: Name)
    ensures NameLeq(a, b) <==> a <= b || exists k :: 0 <= k < |a| && k < |b| && a[..k] == b[..k] && a[k] < b[k]
  {
    if a != [] && b != [] {
      NameLeqIsLexicographic(a[1..], b[1..]);
      var x, y := a[1..], b[1..];
      if a[0] == b[0] {
        if k :| 0 <= k < |x| && k < |y| && x[..k] == y[..k] && x[k] < y[k] {
          assert a[..k + 1] == [a[0]] + x[..k] && b[..k + 1] == [b[0]] + y[..k] && a[k + 1] < b[k + 1];
        }
        if k :| 0 <= k < |a| && k < |b| && a[..k] == b[..k] && a[k] < b[k] {
          assert k > 0 && x[..k - 1] == a[..k][1..] && y[..k - 1] == b[..k][1..] && x[k - 1] < y[k - 1];
        }
        assert a <= b <==> x <= y by { assert a == [a[0]] + x && b == [b[0]] + y; }
      } else if a[0] < b[0] {
        assert a[..0] == b[..0] && a[0] < b[0];
      }
    }
  }

  lemma {:induction false} NameLeqTotal(a: Name, b: Name)
    ensures NameLeq(a, b) || NameLeq(b, a)
  {
    if a != [] && b != [] && a[0] == b[0] {
      NameLeqTotal(a[1..], b[1..]);
    }
  }

  lemma {:induction false} NameLeqTransitive(a: Name, b: Name, c: Name)
    requires NameLeq(a, b) && NameLeq(b, c)
    ensures NameLeq(a, c)
  {
    if a != [] && a[0] == b[0] == c[0] {
      NameLeqTransitive(a[1..], b[1..], c[1..]);
    }
  }

  ghost predicate SortedByName(entries: seq<Entry>) {
    forall i, j :: 0 <= i < j < |entries| ==> NameLeq(entries[i].name, entries[j].name)
  }

  function Insert(e: Entry, entries: seq<Entry>): seq<Entry> {
    if entries == [] || NameLeq(e.name, entries[0].name) then [e] + entries
    else [entries[0]] + Insert(e, entries[1..])
  }

  /** The order of a batch after slices.SortFunc. */
  function SortEntries(entries: seq<Entry>): seq<Entry> {
    if entries == [] then [] else Insert(entries[0], SortEntries(entries[1..]))
  }

  lemma {:induction false} InsertPermutes(e: Entry, entries: seq<Entry>)
    ensures multiset(Insert(e, entries)) == multiset{e} + multiset(entries)
  {
    if entries != [] && !NameLeq(e.name, entries[0].name) {
      InsertPermutes(e, entries[1..]);
      assert entries == [entries[0]] + entries[1..];
    }
  }

  lemma {:induction false} InsertSorts(e: Entry, entries: seq<Entry>)
    requires SortedByName(entries)
    ensures SortedByName(Insert(e, entries))
  {
    if entries != [] {
      if NameLeq(e.name, entries[0].name) {
        forall j | 0 <= j < |entries|
          ensures NameLeq(e.name, entries[j].name)
        {
          if j > 0 { NameLeqTransitive(e.name, entries[0].name, entries[j].name); }
        }
      } else {
        NameLeqTotal(e.name, entries[0].name);
        InsertSorts(e, entries[1..]);
        InsertPermutes(e, entries[1..]);
        var rest := Insert(e, entries[1..]);
        forall j | 0 <= j < |rest|
          ensures NameLeq(entries[0].name, rest[j].name)
        {
          assert rest[j] in multiset(rest) && multiset(rest) == multiset{e} + multiset(entries[1..]);
          if rest[j] != e {
            assert rest[j] in entries[1..];
            var i :| 0 <= i < |entries[1..]| && entries[1..][i] == rest[j];
            assert entries[i + 1] == rest[j];
          }
        }
      }
    }
  }

  /** A batch is handed over sorted by name, and is still the same batch. */
  lemma {:induction false} SortEntriesSorts(entries: seq<Entry>)
    ensures SortedByName(SortEntries(entries)) && multiset(SortEntries(entries)) == multiset(entries)
  {
    if entries != [] {
      SortEntriesSorts(entries[1..]);
      assert entries == [entries[0]] + entries[1..];
      InsertPermutes(entries[0], SortEntries(entries[1..]));
      InsertSorts(entries[0], SortEntries(entries[1..]));
    }
  }

  // ---- The meaning of a walk --------------------------------------------------

  /** Visiting a run of entries: the subdirectories to descend into, and whether the
      directory, or the whole walk, is over. */
  datatype Visited<S> = Visited(s: S, subdirs: seq<Path>, ended: bool, stop: bool, err: Option<Errno>)

  function VisitEntries<S>(w: World<S>, s: S, dir: Path, entries: seq<Entry>): (v: Visited<S>)
    ensures forall k :: 0 <= k < |v.subdirs| ==> |v.subdirs[k]| == |dir| + 1
    ensures v.stop || v.err.Some? ==> v.ended
  {
    if entries == [] then Visited(s, [], false, false, None) else
    var path := dir + [entries[0].name];
    var (s', answer) := w.fn(s, path, Some(entries[0]), None);
    var (action, err) := Classify(answer);
    if err.Some? then Visited(s', [], true, false, err)
    else if action.WalkStop? then Visited(s', [], true, true, None)
    else if action.WalkSkipDir? && !entries[0].isDir then Visited(s', [], true, false, None)
    else
      var rest := VisitEntries(w, s', dir, entries[1..]);
      if action.WalkContinue? && entries[0].isDir then Prepended([path], rest) else rest
  }

  /** The same outcome with more subdirectories found earlier. */
  function Prepended<S>(earlier: seq<Path>, v: Visited<S>): Visited<S> { v.(subdirs := earlier + v.subdirs) }

  lemma PrependedTwice<S>(first: seq<Path>, second: seq<Path>, v: Visited<S>)
    ensures Prepended(first, Prepended(second, v)) == Prepended(first + second, v)
  {
  }

  /** The result of walking a part of the tree; `opens` counts the directories tried. */
  datatype Walked<S> = Walked(s: S, stop: bool, err: Option<Errno>, opens: nat) {
    predicate Over() { stop || err.Some? }
  }

  function ReportFailure<S>(w: World<S>, s: S, dir: Path, err: Errno): Visited<S> {
    var (s', answer) := w.fn(s, dir, None, Some(err));
    var (action, cbErr) := Classify(answer);
    Visited(s', [], true, cbErr.None? && action.WalkStop?, cbErr)
  }

  /** All batches of an open directory, from the `k`th on. */
  function StreamFrom<S(!new)>(w: World<S>, s: S, dir: Path, k: nat, ghost depth: nat, ghost batches: nat): (v: Visited<S>)
    requires Bounded(w, depth, batches)
    ensures forall i :: 0 <= i < |v.subdirs| ==> |v.subdirs[i]| == |dir| + 1
    decreases batches - k
  {
    var (s1, cancelled) := w.ctxErr(s);
    if cancelled.Some? then Visited(s1, [], true, false, cancelled) else
    var (s2, batch) := w.readDir(s1, dir, k);
    var v := VisitEntries(w, s2, dir, SortEntries(batch.entries));
    if v.ended then v else
    match batch.end
    case EOF => v
    case ReadFailed(err) => ReportFailure(w, v.s, dir, err).(subdirs := v.subdirs)
    case More =>
      var rest := StreamFrom(w, v.s, dir, k + 1, depth, batches);
      Prepended(v.subdirs, rest)
  }

  function OpenAndStream<S(!new)>(w: World<S>, s: S, dir: Path, ghost depth: nat, ghost batches: nat): (v: Visited<S>)
    requires Bounded(w, depth, batches)
    ensures AllAtLevel(v.subdirs, |dir| + 1, depth)
  {
    var (s', failed) := w.openDir(s, dir);
    if failed.Some? then ReportFailure(w, s', dir, failed.value) else StreamFrom(w, s', dir, 0, depth, batches)
  }

  ghost predicate AllAtLevel(dirs: seq<Path>, level: nat, depth: nat) { forall k :: 0 <= k < |dirs| ==> |dirs[k]| == level <= depth }

  /** The walk of a directory: all its entries, then the whole walk of each subdirectory
      that was queued, in the order they were read. */
  ghost function WalkDir<S(!new)>(w: World<S>, s: S, dir: Path, depth: nat, batches: nat): Walked<S>
    requires Bounded(w, depth, batches) && |dir| <= depth
    decreases depth - |dir|, 0, 0
  {
    var v := OpenAndStream(w, s, dir, depth, batches);
    if v.err.Some? || v.stop then Walked(v.s, v.stop, v.err, 1)
    else
      var r := WalkEach(w, v.s, v.subdirs, |dir| + 1, depth, batches);
      r.(opens := 1 + r.opens)
  }

  ghost function WalkEach<S(!new)>(w: World<S>, s: S, dirs: seq<Path>, level: nat, depth: nat, batches: nat): Walked<S>
    requires Bounded(w, depth, batches) && AllAtLevel(dirs, level, depth)
    decreases depth - level, 1, |dirs|
  {
    if dirs == [] then Walked(s, false, None, 0) else
    var first := WalkDir(w, s, dirs[0], depth, batches);
    if first.Over() then first else
    var rest := WalkEach(w, first.s, dirs[1..], level, depth, batches);
    rest.(opens := first.opens + rest.opens)
  }

  /** A whole walk: the context, the root itself, then everything below it. */
  ghost function WalkTree<S(!new)>(w: World<S>, s: S, depth: nat, batches: nat): Walked<S>
    requires Bounded(w, depth, batches)
  {
    var (s1, cancelled) := w.ctxErr(s);
    if cancelled.Some? then Walked(s1, false, cancelled, 0) else
    var (s2, failed) := w.statRoot(s1);
    if failed.Some? then
      var (s3, answer) := w.fn(s2, [], None, failed);
      Walked(s3, false, Classify(answer).1, 0)
    else
      var (s3, answer) := w.fn(s2, [], Some(Entry(".", true)), None);
      var (action, err) := Classify(answer);
      if err.Some? || !action.WalkContinue? then Walked(s3, false, err, 0) else WalkDir(w, s3, [], depth, batches)
  }

  // ---- The explicit stack ------------------------------------------------------

  /** Walking any list of directories, whatever their depths, one after the other. */
  ghost function WalkAll<S(!new)>(w: World<S>, s: S, dirs: seq<Path>, depth: nat, batches: nat): Walked<S>
    requires Bounded(w, depth, batches) && forall k :: 0 <= k < |dirs| ==> |dirs[k]| <= depth
    decreases |dirs|
  {
    if dirs == [] then Walked(s, false, None, 0) else
    var first := WalkDir(w, s, dirs[0], depth, batches);
    if first.Over() then first else
    var rest := WalkAll(w, first.s, dirs[1..], depth, batches);
    rest.(opens := first.opens + rest.opens)
  }

  lemma {:induction false} EachIsAll<S(!new)>(w: World<S>, s: S, dirs: seq<Path>, level: nat, depth: nat, batches: nat)
    requires Bounded(w, depth, batches) && AllAtLevel(dirs, level, depth)
    ensures WalkEach(w, s, dirs, level, depth, batches) == WalkAll(w, s, dirs, depth, batches)
    decreases |dirs|
  {
    if dirs != [] {
      var first := WalkDir(w, s, dirs[0], depth, batches);
      if !first.Over() {
        EachIsAll(w, first.s, dirs[1..], level, depth, batches);
      }
    }
  }

  lemma {:induction false} WalkAllSplits<S(!new)>(w: World<S>, s: S, a: seq<Path>, b: seq<Path>, depth: nat, batches: nat)
    requires Bounded(w, depth, batches) && (forall k :: 0 <= k < |a| ==> |a[k]| <= depth) && forall k :: 0 <= k < |b| ==> |b[k]| <= depth
    ensures var first := WalkAll(w, s, a, depth, batches);
            WalkAll(w, s, a + b, depth, batches) ==
            if first.Over() then first else
              var rest := WalkAll(w, first.s, b, depth, batches);
              rest.(opens := first.opens + rest.opens)
    decreases |a|
  {
    if a == [] {
      assert a + b == b;
    } else {
      assert (a + b)[1..] == a[1..] + b;
      var first := WalkDir(w, s, a[0], depth, batches);
      if !first.Over() {
        WalkAllSplits(w, first.s, a[1..], b, depth, batches);
      }
    }
  }

  /** Popping one directory and pushing its subdirectories in its place leaves the same
      walk to do, one open shorter. */
  lemma PopAndPush<S(!new)>(w: World<S>, s: S, dir: Path, rest: seq<Path>, depth: nat, batches: nat)
    requires Bounded(w, depth, batches) && |dir| <= depth && forall k :: 0 <= k < |rest| ==> |rest[k]| <= depth
    ensures var v := OpenAndStream(w, s, dir, depth, batches);
            var all := WalkAll(w, s, [dir] + rest, depth, batches);
            if v.err.Some? || v.stop then all == Walked(v.s, v.stop, v.err, 1)
            else
              var left := WalkAll(w, v.s, v.subdirs + rest, depth, batches);
              all == left.(opens := 1 + left.opens)
  {
    var v := OpenAndStream(w, s, dir, depth, batches);
    assert ([dir] + rest)[0] == dir && ([dir] + rest)[1..] == rest;
    if !(v.err.Some? || v.stop) {
      EachIsAll(w, v.s, v.subdirs, |dir| + 1, depth, batches);
      WalkAllSplits(w, v.s, v.subdirs, rest, depth, batches);
    }
  }

  function Reversed<T>(xs: seq<T>): (r: seq<T>)
    ensures |r| == |xs| && forall k :: 0 <= k < |xs| ==> r[k] == xs[|xs| - 1 - k]
  {
    seq(|xs|, k requires 0 <= k < |xs| => xs[|xs| - 1 - k])
  }

  lemma ReversedPop<T>(xs: seq<T>)
    requires xs != []
    ensures Reversed(xs) == [xs[|xs| - 1]] + Reversed(xs[..|xs| - 1])
  {
  }

  lemma ReversedPush<T>(xs: seq<T>, ys: seq<T>)
    ensures Reversed(xs + Reversed(ys)) == ys + Reversed(xs)
  {
  }

  /** One turn of the stack loop. */
  lemma StackTurn<S(!new)>(w: World<S>, s: S, pending: seq<Path>, depth: nat, batches: nat)
    requires Bounded(w, depth, batches) && pending != [] && forall k :: 0 <= k < |pending| ==> |pending[k]| <= depth
    ensures var rest := pending[..|pending| - 1];
            var v := OpenAndStream(w, s, pending[|pending| - 1], depth, batches);
            var all := WalkAll(w, s, Reversed(pending), depth, batches);
            if v.err.Some? || v.stop then all.s == v.s && all.err == v.err
            else
              var left := WalkAll(w, v.s, Reversed(rest + Reversed(v.subdirs)), depth, batches);
              all.s == left.s && all.err == left.err && left.opens < all.opens
  {
    var dir, rest := pending[|pending| - 1], pending[..|pending| - 1];
    ReversedPop(pending);
    PopAndPush(w, s, dir, Reversed(rest), depth, batches);
    ReversedPush(rest, OpenAndStream(w, s, dir, depth, batches).subdirs);
  }

  /** How far reading a directory has come: the whole of it is `v`, and either that is
      what has happened (`over`), or the batches from the `k`th on are still to come. */
  ghost predicate Streamed<S(!new)>(w: World<S>, depth: nat, batches: nat, v: Visited<S>, dir: Path, k: nat,
                                    s: S, stopped: bool, subdirs: seq<Path>, over: bool, err: Option<Errno>)
    requires Bounded(w, depth, batches)
  {
    if over then v.s == s && v.stop == stopped && v.err == err && (err.None? ==> v.subdirs == subdirs)
    else !stopped && err.None? && k <= batches && v == Prepended(subdirs, StreamFrom(w, s, dir, k, depth, batches))
  }

  lemma StreamedFurther<S(!new)>(w: World<S>, depth: nat, batches: nat, v: Visited<S>, first: seq<Path>, u: Visited<S>, dir: Path, k: nat,
                                 s: S, stopped: bool, subdirs: seq<Path>, over: bool, err: Option<Errno>)
    requires Bounded(w, depth, batches) && v == Prepended(first, u) && Streamed(w, depth, batches, u, dir, k, s, stopped, subdirs, over, err)
    ensures Streamed(w, depth, batches, v, dir, k, s, stopped, first + subdirs, over, err)
  {
  }

  // ---- The walk as it runs -----------------------------------------------------

  class RootWalk<S(!new)> {
    const w: World<S>
    ghost const depth: nat
    ghost const batches: nat
    var s: S
    var stopped: bool

    ghost predicate Valid()
    {
      Bounded(w, depth, batches)
    }

    constructor (w: World<S>, s: S, ghost depth: nat, ghost batches: nat)
      requires Bounded(w, depth, batches)
      ensures Valid() && this.w == w && this.s == s && !stopped && this.depth == depth && this.batches == batches
    {
      this.w, this.s, this.stopped, this.depth, this.batches := w, s, false, depth, batches;
    }

    method Call(path: Path, entry: Option<Entry>, failed: Option<Errno>) returns (action: WalkAction, err: Option<Errno>)
      modifies this`s
      ensures s == w.fn(old(s), path, entry, failed).0 && (action, err) == Classify(w.fn(old(s), path, entry, failed).1)
    {
      var (next, answer) := w.fn(s, path, entry, failed);
      s := next;
      var (a, e) := Classify(answer);
      action, err := a, e;
    }

    method VisitBatch(dir: Path, entries: seq<Entry>) returns (subdirs: seq<Path>, endDir: bool, err: Option<Errno>)
      requires !stopped
      modifies this
      ensures VisitEntries(w, old(s), dir, entries) == Visited(s, subdirs, endDir, stopped, err)
    {
      subdirs := [];
      for k := 0 to |entries|
        invariant !stopped
        invariant VisitEntries(w, old(s), dir, entries) == Prepended(subdirs, VisitEntries(w, s, dir, entries[k..]))
      {
        var entry := entries[k];
        assert entries[k..][1..] == entries[k + 1..];
        var action, cbErr := Call(dir + [entry.name], Some(entry), None);
        if cbErr.Some? {
          return subdirs, true, cbErr;
        } else if action.WalkStop? {
          stopped := true;
          return subdirs, true, None;
        } else if action.WalkSkipDir? && !entry.isDir {
          return subdirs, true, None;
        } else if action.WalkSkipDir? {
          continue;
        } else if entry.isDir {
          PrependedTwice(subdirs, [dir + [entry.name]], VisitEntries(w, s, dir, entries[k + 1..]));
          subdirs := subdirs + [dir + [entry.name]];
        }
      }
      return subdirs, false, None;
    }

    method ReportDirFailure(dir: Path, failed: Errno) returns (err: Option<Errno>)
      requires !stopped
      modifies this
      ensures ReportFailure(w, old(s), dir, failed) == Visited(s, [], true, stopped, err)
    {
      var action, cbErr := Call(dir, None, Some(failed));
      if cbErr.Some? {
        return cbErr;
      }
      if action.WalkStop? {
        stopped := true;
      }
      return None;
    }

    /** One batch of an open directory. */
    method StreamBatch(dir: Path, k: nat) returns (subdirs: seq<Path>, over: bool, err: Option<Errno>)
      requires Valid() && !stopped
      modifies this
      ensures Streamed(w, depth, batches, StreamFrom(w, old(s), dir, k, depth, batches), dir, k + 1, s, stopped, subdirs, over, err) && (!over ==> k < batches)
    {
      var (afterCtx, cancelled) := w.ctxErr(s);
      s := afterCtx;
      if cancelled.Some? {
        return [], true, cancelled;
      }
      var (afterRead, batch) := w.readDir(s, dir, k);
      s := afterRead;
      subdirs, over, err := VisitBatch(dir, SortEntries(batch.entries));
      if err.Some? || over {
        return subdirs, true, err;
      }
      match batch.end {
        case EOF => over := true;
        case ReadFailed(failure) =>
          over := true;
          err := ReportDirFailure(dir, failure);
        case More =>
      }
    }

    /** One directory: opened, read to its end batch after batch on one handle, closed. */
    method StreamDir(dir: Path) returns (subdirs: seq<Path>, err: Option<Errno>)
      requires Valid() && !stopped
      modifies this
      ensures Streamed(w, depth, batches, OpenAndStream(w, old(s), dir, depth, batches), dir, 0, s, stopped, subdirs, true, err)
    {
      var (next, failed) := w.openDir(s, dir);
      s := next;
      if failed.Some? {
        err := ReportDirFailure(dir, failed.value);
        return [], err;
      }
      subdirs, err := StreamOpened(dir);
    }

    method StreamOpened(dir: Path) returns (subdirs: seq<Path>, err: Option<Errno>)
      requires Valid() && !stopped
      modifies this
      ensures Streamed(w, depth, batches, StreamFrom(w, old(s), dir, 0, depth, batches), dir, 0, s, stopped, subdirs, true, err)
    {
      ghost var v := StreamFrom(w, s, dir, 0, depth, batches);
      subdirs, err := [], None;
      var k, over := 0, false;
      assert v == Prepended(subdirs, v);
      while !over
        invariant Streamed(w, depth, batches, v, dir, k, s, stopped, subdirs, over, err)
        decreases !over, batches - k
      {
        ghost var u := StreamFrom(w, s, dir, k, depth, batches);
        var more;
        more, over, err := StreamBatch(dir, k);
        StreamedFurther(w, depth, batches, v, subdirs, u, dir, k + 1, s, stopped, more, over, err);
        subdirs, k := subdirs + more, k + 1;
      }
    }

    /** The walk as it runs. It makes exactly the calls of the recursive walk, in its order,
        and ends as it ends. */
    method Run() returns (err: Option<Errno>)
      requires Valid() && !stopped
      modifies this
      ensures var r := WalkTree(w, old(s), depth, batches); r.s == s && r.err == err
    {
      var (s1, cancelled) := w.ctxErr(s);
      s := s1;
      if cancelled.Some? {
        return cancelled;
      }
      var (s2, failed) := w.statRoot(s);
      s := s2;
      if failed.Some? {
        var _, rootErr := Call([], None, failed);
        return rootErr;
      }
      var action, cbErr := Call([], Some(Entry(".", true)), None);
      if cbErr.Some? || !action.WalkContinue? {
        return cbErr;
      }
      err := Descend();
    }

    /** The stack loop, from the root on. */
    method Descend() returns (err: Option<Errno>)
      requires Valid() && !stopped
      modifies this
      ensures var r := WalkDir(w, old(s), [], depth, batches); r.s == s && r.err == err
    {
      var pending: seq<Path> := [[]];
      WalkAllOfOne(s);
      ghost var all := WalkAll(w, s, [[]], depth, batches);
      ghost var left := all;
      assert Reversed(pending) == [[]];
      while pending != []
        invariant !stopped && forall k :: 0 <= k < |pending| ==> |pending[k]| <= depth
        invariant left == WalkAll(w, s, Reversed(pending), depth, batches) && left.s == all.s && left.err == all.err
        decreases left.opens
      {
        StackTurn(w, s, pending, depth, batches);
        var dir := pending[|pending| - 1];
        pending := pending[..|pending| - 1];
        var subdirs;
        subdirs, err := StreamDir(dir);
        if err.Some? {
          return;
        }
        if stopped {
          return None;
        }
        pending := pending + Reversed(subdirs);
        left := WalkAll(w, s, Reversed(pending), depth, batches);
      }
      return None;
    }

    lemma WalkAllOfOne(start: S)
      requires Valid()
      ensures WalkAll(w, start, [[]], depth, batches) == WalkDir(w, start, [], depth, batches)
    {
    }
  }

  /** The entry point hides the two answers that only steer the walk; the walk itself never
      lets them out. */
  method WalkDirInRoot<S(!new)>(w: World<S>, s: S, ghost depth: nat, ghost batches: nat) returns (end: S, err: Option<Errno>)
    requires Bounded(w, depth, batches)
    ensures var r := WalkTree(w, s, depth, batches); end == r.s && err == r.err
  {
    var walk := new RootWalk<S>(w, s, depth, batches);
    err := walk.Run();
    end := walk.s;
  }
}
