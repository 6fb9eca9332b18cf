/** The pinned descent, and the two removals that go through it. */
module Pinning {
  import opened FileSystem
  import opened TempNames
  import opened Contested

  /** Each directory of the chain was, when it was inspected, bound to the next component
      as a real directory; and the inspections were made in this order. */
  ghost predicate Descends(history: seq<View>, from: nat, path: Path, chain: seq<Ino>, times: seq<nat>) {
    && |chain| == |path| + 1 && |times| == |path|
    && (forall k :: 0 <= k < |path| ==> from <= times[k] < |history| && BoundToDir(history[times[k]], chain[k], path[k], chain[k + 1]))
    && (forall j, k :: 0 <= j < k < |path| ==> times[j] < times[k])
  }

  lemma DescendsLater(history: seq<View>, more: seq<View>, from: nat, path: Path, chain: seq<Ino>, times: seq<nat>)
    requires Descends(history, from, path, chain, times) && history <= more
    ensures Descends(more, from, path, chain, times)
  {
  }

  lemma DescendsFurther(history: seq<View>, from: nat, path: Path, chain: seq<Ino>, times: seq<nat>, at: nat, name: Name, child: Ino)
    requires Descends(history, from, path, chain, times) && from <= at < |history| && (forall k :: 0 <= k < |path| ==> times[k] < at)
    requires BoundToDir(history[at], chain[|path|], name, child)
    ensures Descends(history, from, path + [name], chain + [child], times + [at])
  {
  }

  /** The directory a path names when nothing moves and no component is a symlink. */
  function Direct(v: View, dir: Ino, path: Path): Option<Ino>
    decreases |path|
  {
    if path == [] then Some(dir) else
    var sl := Slot(dir, path[0]);
    if sl in v.entries && BoundToDir(v, dir, path[0], v.entries[sl]) then Direct(v, v.entries[sl], path[1..]) else None
  }

  lemma {:induction false} DirectSplits(v: View, dir: Ino, a: Path, b: Path)
    ensures Direct(v, dir, a + b) == match Direct(v, dir, a) case None => None case Some(d) => Direct(v, d, b)
    decreases |a|
  {
    if a == [] {
      assert a + b == b;
    } else {
      assert (a + b)[1..] == a[1..] + b;
      var sl := Slot(dir, a[0]);
      if sl in v.entries {
        DirectSplits(v, v.entries[sl], a[1..], b);
      }
    }
  }

  /** Why a descent fails when nothing moves and no call fails: the first component that is
      no real directory is something else, or is not there. */
  function WhyNot(v: View, dir: Ino, path: Path): (why: Option<Failure>)
    ensures why.Some? ==> why.value.Missing? || why.value.NotADirectory?
    decreases |path|
  {
    if path == [] then None else
    var sl := Slot(dir, path[0]);
    if sl !in v.entries then Some(Missing)
    else if BoundToDir(v, dir, path[0], v.entries[sl]) then WhyNot(v, v.entries[sl], path[1..])
    else Some(NotADirectory)
  }

  lemma {:induction false} WhyNotSplits(v: View, dir: Ino, a: Path, b: Path)
    ensures WhyNot(v, dir, a + b) == match Direct(v, dir, a) case None => WhyNot(v, dir, a) case Some(d) => WhyNot(v, d, b)
    ensures WhyNot(v, dir, a) == None <==> Direct(v, dir, a).Some?
    decreases |a|
  {
    if a == [] {
      assert a + b == b;
    } else {
      assert (a + b)[1..] == a[1..] + b;
      var sl := Slot(dir, a[0]);
      if sl in v.entries {
        WhyNotSplits(v, v.entries[sl], a[1..], b);
      }
    }
  }

  /** What was met at an entry, at some moment from `from` on, that explains the failure. */
  ghost predicate Met(history: seq<View>, from: nat, dir: Ino, name: Name, cutoff: Option<int>, why: Failure) {
    exists t :: from <= t < |history| && Explains(history, from, t, Slot(dir, name), cutoff, why)
  }

  ghost predicate Explains(history: seq<View>, from: nat, t: nat, sl: Slot, cutoff: Option<int>, why: Failure)
    requires from <= t < |history|
  {
    var v := history[t];
    match why
    case Missing => sl !in v.entries
    case NotADirectory => sl in v.entries && !BoundToDir(v, sl.dir, sl.name, v.entries[sl])
    case Changed =>
      // bound to another inode than the directory it was bound to before
      sl in v.entries && exists u, child :: from <= u < t && BoundToDir(history[u], sl.dir, sl.name, child) && v.entries[sl] != child
    case NotRegularFile => sl in v.entries && !BoundToFile(v, sl.dir, sl.name, v.entries[sl])
    case TooYoung =>
      && sl in v.entries && BoundToFile(v, sl.dir, sl.name, v.entries[sl])
      && cutoff.Some? && v.entries[sl] in v.mtime && v.mtime[v.entries[sl]] > cutoff.value
    case _ => false
  }

  lemma MetLater(history: seq<View>, more: seq<View>, from: nat, from': nat, dir: Ino, name: Name, cutoff: Option<int>, why: Failure)
    requires Met(history, from, dir, name, cutoff, why) && history <= more && from' <= from
    ensures Met(more, from', dir, name, cutoff, why)
  {
    var t :| from <= t < |history| && Explains(history, from, t, Slot(dir, name), cutoff, why);
    assert more[t] == history[t];
    if why.Changed? {
      var u, child :| from <= u < t && BoundToDir(history[u], dir, name, child) && history[t].entries[Slot(dir, name)] != child;
      assert more[u] == history[u];
    }
    assert Explains(more, from', t, Slot(dir, name), cutoff, why);
  }

  /** A descent that came to a component which explains the failure. */
  ghost predicate Stuck(history: seq<View>, from: nat, path: Path, chain: seq<Ino>, times: seq<nat>, why: Failure) {
    && 0 < |chain| <= |path| && Descends(history, from, path[..|chain| - 1], chain, times)
    && Met(history, from, chain[|chain| - 1], path[|chain| - 1], None, why)
  }

  /** What a descent can fail with. */
  predicate PinFailure(f: Failure) { f.Missing? || f.NotADirectory? || f.Changed? || f.Trouble? }

  /** Open one component: refuse what is not a real directory, and what is not the
      directory that was inspected. */
  method PinChild(w: Kernel, parent: Handle, name: Name) returns (failure: Option<Failure>, next: Handle, ghost at: nat)
    requires w.Valid() && parent in w.held
    modifies w
    ensures w.Valid() && w.OthersOnly()
    ensures failure == None ==>
              && next !in old(w.held) && next in w.held && w.held == old(w.held)[next := w.held[next]]
              && |old(w.history)| <= at < |w.history| && BoundToDir(w.history[at], w.held[parent], name, w.held[next])
    ensures failure.Some? ==> w.held == old(w.held) && PinFailure(failure.value)
    ensures w.quiet ==> failure == WhyNot(w.now, w.held[parent], [name]) || failure == Some(Trouble)
    ensures w.quiet && failure == None ==> Direct(w.now, w.held[parent], [name]) == Some(w.held[next])
    ensures failure == Some(Trouble) ==> w.troubles > old(w.troubles)
    ensures failure.Some? && failure != Some(Trouble) ==> Met(w.history, |old(w.history)|, w.held[parent], name, None, failure.value)
  {
    next, at := 0, |w.history|;
    var st: Stat;
    failure, st := w.Lstat(parent, name);
    assert failure == Some(Missing) ==> Explains(w.history, at, at, Slot(w.held[parent], name), None, Missing);
    if failure.Some? {
      return;
    }
    if st.kind != RealDir {
      assert Explains(w.history, at, at, Slot(w.held[parent], name), None, NotADirectory);
      failure := Some(NotADirectory);
      return;
    }
    assert BoundToDir(w.history[at], w.held[parent], name, st.ino);
    ghost var seen := w.history;
    failure, next := OpenConfirmed(w, parent, name, st.ino);
    assert seen[at] == w.history[at];
  }

  lemma FailedOpenIsMet(history: seq<View>, at: nat, sl: Slot, why: Failure)
    requires at + 1 < |history| && (why.Missing? || why.NotADirectory?)
    requires var v := history[at + 1]; Coherent(v) && if why.Missing? then sl !in v.entries else sl in v.entries && v.kind[v.entries[sl]] != RealDir
    ensures Met(history, at, sl.dir, sl.name, None, why)
  {
    assert Explains(history, at, at + 1, sl, None, why);
  }

  /** Another directory was opened than the one inspected just before. */
  lemma ChangedIsMet(history: seq<View>, at: nat, sl: Slot, inspected: Ino, child: Ino)
    requires at + 1 < |history| && InodesStay(history) && BoundToDir(history[at], sl.dir, sl.name, inspected) && child != inspected
    requires Coherent(history[at + 1]) && sl in history[at + 1].entries
    requires history[at + 1].kind[history[at + 1].entries[sl]] == RealDir ==> child == history[at + 1].entries[sl]
    ensures Met(history, at, sl.dir, sl.name, None, Changed)
  {
    assert NeverReused(history[at], history[at + 1]);
    assert history[at + 1].entries[sl] != inspected;
    assert Explains(history, at, at + 1, sl, None, Changed);
  }

  /** Open the component, and make sure it is the directory that was inspected. */
  method OpenConfirmed(w: Kernel, parent: Handle, name: Name, ino: Ino) returns (failure: Option<Failure>, next: Handle)
    requires w.Valid() && parent in w.held && BoundToDir(w.now, w.held[parent], name, ino)
    modifies w
    ensures w.Valid() && w.OthersOnly()
    ensures failure == None ==> next !in old(w.held) && w.held == old(w.held)[next := ino]
    ensures failure.Some? ==> w.held == old(w.held) && PinFailure(failure.value)
    ensures w.quiet && failure.Some? ==> failure == Some(Trouble)
    ensures failure == Some(Trouble) ==> w.troubles > old(w.troubles)
    ensures failure.Some? && failure != Some(Trouble) ==> Met(w.history, |old(w.history)| - 1, w.held[parent], name, None, failure.value)
  {
    ghost var at, sl := |w.history| - 1, Slot(w.held[parent], name);
    failure, next := w.OpenDir(parent, name);
    if failure.Some? {
      if failure != Some(Trouble) { FailedOpenIsMet(w.history, at, sl, failure.value); }
      return;
    }
    if w.held[next] != ino { ChangedIsMet(w.history, at, sl, ino, w.held[next]); }
    failure := Confirm(w, next, ino, at, sl);
  }

  /** Make sure an open directory is the one inspected; otherwise close it again. */
  method Confirm(w: Kernel, child: Handle, ino: Ino, ghost from: nat, ghost sl: Slot) returns (failure: Option<Failure>)
    requires w.Valid() && child in w.held
    requires w.held[child] != ino ==> Met(w.history, from, sl.dir, sl.name, None, Changed)
    modifies w
    ensures w.Valid() && w.OthersOnly()
    ensures failure == None ==> w.held == old(w.held) && w.held[child] == ino
    ensures failure.Some? ==> w.held == old(w.held) - {child} && failure.value in {Trouble, Changed}
    ensures failure == Some(Trouble) ==> w.troubles > old(w.troubles)
    ensures failure == Some(Changed) ==> old(w.held)[child] != ino && Met(w.history, from, sl.dir, sl.name, None, Changed)
  {
    ghost var before := w.history;
    var self: Stat;
    failure, self := w.StatSelf(child);
    if failure.Some? {
      w.Close(child);
    } else if ino != self.ino {
      w.Close(child);
      MetLater(before, w.history, from, from, sl.dir, sl.name, None, Changed);
      failure := Some(Changed);
    }
  }

  lemma DirectStep(v: View, dir: Ino, path: Path, k: nat, child: Ino)
    requires k < |path| && Direct(v, dir, path[..k]) == Some(child)
    ensures Direct(v, dir, path[..k + 1]) == Direct(v, child, [path[k]])
    ensures WhyNot(v, child, [path[k]]).Some? ==> WhyNot(v, dir, path) == WhyNot(v, child, [path[k]])
  {
    WhyNotSplits(v, dir, path[..k], [path[k]]);
    WhyNotSplits(v, dir, path[..k + 1], path[k + 1..]);
    DirectSplits(v, dir, path[..k], [path[k]]);
    DirectSplits(v, dir, path[..k + 1], path[k + 1..]);
    assert path[..k] + [path[k]] == path[..k + 1] && path[..k + 1] + path[k + 1..] == path;
  }

  /** One turn of the descent: the next directory replaces the current one. */
  method Advance(w: Kernel, current: Handle, name: Name, ghost from: nat, ghost path: Path, ghost chain: seq<Ino>, ghost times: seq<nat>)
    returns (failure: Option<Failure>, next: Handle, ghost at: nat)
    requires w.Valid() && current in w.held && from <= |w.history|
    requires Descends(w.history, from, path, chain, times) && chain[|path|] == w.held[current]
    modifies w
    ensures w.Valid() && w.OthersOnly()
    ensures failure == None ==>
              && next !in old(w.held) && next in w.held && w.held == (old(w.held) - {current})[next := w.held[next]]
              && Descends(w.history, from, path + [name], chain + [w.held[next]], times + [at])
    ensures failure.Some? ==> w.held == old(w.held) - {current} && PinFailure(failure.value)
    ensures w.quiet ==> failure == WhyNot(w.now, chain[|path|], [name]) || failure == Some(Trouble)
    ensures w.quiet && failure == None ==> Direct(w.now, chain[|path|], [name]) == Some(w.held[next])
    ensures failure == Some(Trouble) ==> w.troubles > old(w.troubles)
    ensures failure.Some? ==> Descends(w.history, from, path, chain, times)
    ensures failure.Some? && failure != Some(Trouble) ==> Met(w.history, from, chain[|path|], name, None, failure.value)
  {
    ghost var before := w.history;
    failure, next, at := PinChild(w, current, name);
    ghost var after := w.history;
    w.Close(current);
    if failure.Some? {
      DescendsLater(before, w.history, from, path, chain, times);
      if failure != Some(Trouble) { MetLater(after, w.history, |before|, from, chain[|path|], name, None, failure.value); }
    } else {
      assert Descends(w.history, from, path + [name], chain + [w.held[next]], times + [at]) by {
        DescendsLater(before, after, from, path, chain, times);
        DescendsFurther(after, from, path, chain, times, at, name, w.held[next]);
        DescendsLater(after, w.history, from, path + [name], chain + [w.held[next]], times + [at]);
      }
    }
  }

  /** Descend from the root, holding one handle at a time. */
  method PinDir(w: Kernel, root: Handle, path: Path)
    returns (failure: Option<Failure>, pinned: Handle, ghost chain: seq<Ino>, ghost times: seq<nat>)
    requires w.Valid() && root in w.held
    modifies w
    ensures w.Valid() && w.OthersOnly()
    ensures failure == None ==>
              && Descends(w.history, |old(w.history)|, path, chain, times) && chain[0] == old(w.held)[root]
              && pinned !in old(w.held) && w.held == old(w.held)[pinned := chain[|path|]]
    ensures failure.Some? ==> w.held == old(w.held) && PinFailure(failure.value)
    ensures w.quiet ==> failure == WhyNot(w.now, old(w.held)[root], path) || failure == Some(Trouble)
    ensures w.quiet && failure == None ==> Direct(w.now, old(w.held)[root], path) == Some(w.held[pinned])
    ensures failure == Some(Trouble) ==> w.troubles > old(w.troubles)
    ensures failure.Some? && failure != Some(Trouble) ==>
              chain != [] && chain[0] == old(w.held)[root] && Stuck(w.history, |old(w.history)|, path, chain, times, failure.value)
  {
    chain, times := [w.held[root]], [];
    failure, pinned := w.Reopen(root);
    if failure.Some? {
      return;
    }
    for k := 0 to |path|
      invariant w.Valid() && w.OthersOnly() && failure == None
      invariant Descends(w.history, |old(w.history)|, path[..k], chain, times) && chain[0] == old(w.held)[root]
      invariant pinned !in old(w.held) && w.held == old(w.held)[pinned := chain[k]]
      invariant w.quiet ==> Direct(w.now, chain[0], path[..k]) == Some(chain[k])
    {
      var next: Handle;
      ghost var at: nat;
      failure, next, at := Advance(w, pinned, path[k], |old(w.history)|, path[..k], chain, times);
      if w.quiet {
        DirectStep(w.now, chain[0], path, k, chain[k]);
      }
      if failure.Some? {
        return;
      }
      chain, times, pinned := chain + [w.held[next]], times + [at], next;
      assert path[..k] + [path[k]] == path[..k + 1];
    }
    assert path[..|path|] == path;
    WhyNotSplits(w.now, chain[0], path, []);
  }

  /** The parent directory of a name, pinned, and a fresh handle even for the root. */
  method OpenParentInRoot(w: Kernel, root: Handle, name: Path)
    returns (failure: Option<Failure>, parent: Handle, base: Name, ghost chain: seq<Ino>, ghost times: seq<nat>)
    requires w.Valid() && root in w.held
    modifies w
    ensures w.Valid() && w.OthersOnly()
    ensures failure == Some(Unsafe) <==> name == [] || name[|name| - 1] in ["", ".", ".."]
    ensures failure.Some? && failure != Some(Unsafe) ==> PinFailure(failure.value)
    ensures failure == None ==>
              && base == name[|name| - 1] && Descends(w.history, |old(w.history)|, name[..|name| - 1], chain, times)
              && chain[0] == old(w.held)[root] && parent !in old(w.held) && w.held == old(w.held)[parent := chain[|name| - 1]]
    ensures failure.Some? ==> w.held == old(w.held)
    ensures w.quiet && NamesAnEntry(name) ==> failure == WhyNot(w.now, old(w.held)[root], name[..|name| - 1]) || failure == Some(Trouble)
    ensures w.quiet && failure == None ==> Direct(w.now, old(w.held)[root], name[..|name| - 1]) == Some(w.held[parent])
    ensures failure == Some(Trouble) ==> w.troubles > old(w.troubles)
    ensures failure.Some? && failure.value !in {Trouble, Unsafe} ==>
              chain != [] && chain[0] == old(w.held)[root] && Stuck(w.history, |old(w.history)|, name[..|name| - 1], chain, times, failure.value)
  {
    parent, base, chain, times := 0, "", [], [];
    if !NamesAnEntry(name) {
      return Some(Unsafe), parent, base, chain, times;
    }
    base := name[|name| - 1];
    failure, parent, chain, times := PinDir(w, root, name[..|name| - 1]);
  }

  // ---- Removal -----------------------------------------------------------------

  /** One unlink through the pinned directory: the entry was inspected at `seen`, and at
      `at` it was taken away, whatever it held by then. Nothing else changed. */
  ghost predicate RemovesEntry(history: seq<View>, u: Unlink, seen: nat, inspected: Ino) {
    && seen < u.at < |history| && BoundToFile(history[seen], u.sl.dir, u.sl.name, inspected)
    && u.sl in history[u.at - 1].entries && history[u.at - 1].entries[u.sl] == u.gone
    && history[u.at] == history[u.at - 1].(entries := history[u.at - 1].entries - {u.sl})
  }

  /** Nobody rebinds the entry from its inspection up to the unlink. */
  ghost predicate LeftAlone(history: seq<View>, sl: Slot, from: nat, upTo: nat) {
    forall k :: from < k < upTo && k < |history| ==> Bound(history[k], sl) == Bound(history[k - 1], sl)
  }

  function Bound(v: View, sl: Slot): Option<Ino> { if sl in v.entries then Some(v.entries[sl]) else None }

  lemma {:induction false} LeftAloneKeeps(history: seq<View>, sl: Slot, from: nat, upTo: nat)
    requires LeftAlone(history, sl, from, upTo) && from < upTo <= |history|
    ensures Bound(history[upTo - 1], sl) == Bound(history[from], sl)
    decreases upTo - from
  {
    if from + 1 < upTo {
      LeftAloneKeeps(history, sl, from, upTo - 1);
      assert Bound(history[upTo - 1], sl) == Bound(history[upTo - 2], sl);
    }
  }

  /** Redirect-proof up to the last race: the file removed is the one inspected if and only
      if the entry holds, just before the unlink, what it held at the inspection - swapped
      away and back it may be - and then it still is a regular file. Leaving it alone is
      enough. No other entry is touched. */
  lemma RemovesTheInspectedFileIffBack(history: seq<View>, u: Unlink, seen: nat, inspected: Ino)
    requires RemovesEntry(history, u, seen, inspected) && InodesStay(history)
    ensures u.gone == inspected <==> Bound(history[u.at - 1], u.sl) == Bound(history[seen], u.sl)
    ensures u.gone == inspected ==> BoundToFile(history[u.at - 1], u.sl.dir, u.sl.name, inspected)
    ensures LeftAlone(history, u.sl, seen, u.at) ==> u.gone == inspected
    ensures forall sl :: sl != u.sl ==> Bound(history[u.at], sl) == Bound(history[u.at - 1], sl)
  {
    KindsStay(history, seen, u.at, inspected);
    if LeftAlone(history, u.sl, seen, u.at) {
      LeftAloneKeeps(history, u.sl, seen, u.at);
    }
  }

  lemma {:induction false} KindsStay(history: seq<View>, from: nat, upTo: nat, i: Ino)
    requires InodesStay(history) && from < upTo <= |history| && i in history[from].kind
    ensures i in history[upTo - 1].kind && history[upTo - 1].kind[i] == history[from].kind[i]
    decreases upTo - from
  {
    if from + 1 < upTo {
      KindsStay(history, from, upTo - 1, i);
      assert NeverReused(history[upTo - 2], history[upTo - 1]);
    }
  }

  /** The last race is real: a directory swapped in between goes instead of the file. */
  lemma SwappedEntryGoesInstead() returns (history: seq<View>, u: Unlink, inspected: Ino)
    ensures RemovesEntry(history, u, 0, inspected) && forall v :: v in history ==> Coherent(v)
    ensures u.gone != inspected && BoundToDir(history[1], u.sl.dir, u.sl.name, u.gone)
    ensures InodesStay(history)
  {
    var kind := map[0 := RealDir, 1 := RegularFile, 2 := RealDir];
    var mtime := map[0 := 0, 1 := 0, 2 := 0];
    var sl := Slot(0, "victim");
    history := [View(kind, map[sl := 1], mtime), View(kind, map[sl := 2], mtime), View(kind, map[], mtime)];
    u, inspected := Unlink(sl, 2, 2), 1;
    assert history[1].entries - {sl} == map[];
  }

  /** What a removal through the pinned parent did: one unlink, of the last component. */
  ghost predicate RemovedThrough(history: seq<View>, from: nat, root: Ino, name: Path, u: Unlink,
                                 chain: seq<Ino>, times: seq<nat>, seen: nat, inspected: Ino)
  {
    && NamesAnEntry(name) && Descends(history, from, name[..|name| - 1], chain, times) && chain[0] == root
    && u.sl == Slot(chain[|name| - 1], name[|name| - 1])
    && (forall k :: 0 <= k < |times| ==> times[k] < seen) && RemovesEntry(history, u, seen, inspected)
  }

  /** The regular file a name stands for when nothing moves. */
  function RegularAt(v: View, root: Ino, name: Path): (at: Option<Slot>)
    ensures at.Some? ==> NamesAnEntry(name) && at.value.name == name[|name| - 1] && at.value in v.entries
  {
    if !NamesAnEntry(name) then None else
    match Direct(v, root, name[..|name| - 1])
    case None => None
    case Some(d) =>
      var sl := Slot(d, name[|name| - 1]);
      if sl in v.entries && BoundToFile(v, d, name[|name| - 1], v.entries[sl]) then Some(sl) else None
  }

  /** The stale regular temp file a name stands for when nothing moves. */
  function StaleTempAt(v: View, root: Ino, name: Path, cutoff: int): Option<Slot> {
    var at := RegularAt(v, root, name);
    if at.Some? && IsTempName(at.value.name) && v.entries[at.value] in v.mtime && v.mtime[v.entries[at.value]] <= cutoff then at else None
  }

  function Without(v: View, sl: Slot): View { v.(entries := v.entries - {sl}) }

  /** Why an entry is left where it is when nothing moves and no call fails. */
  function WhyKept(v: View, sl: Slot, cutoff: Option<int>): Option<Failure> {
    if sl !in v.entries then Some(Missing)
    else if !BoundToFile(v, sl.dir, sl.name, v.entries[sl]) then Some(NotRegularFile)
    else if cutoff.Some? && v.entries[sl] in v.mtime && v.mtime[v.entries[sl]] > cutoff.value then Some(TooYoung)
    else None
  }

  /** Inspect the entry, and unlink it if it is a regular file not younger than the cutoff
      (any regular file without one). The handle is closed either way. */
  method RemoveThroughParent(w: Kernel, parent: Handle, base: Name, cutoff: Option<int>)
    returns (failure: Option<Failure>, ghost seen: nat, ghost inspected: Ino)
    requires w.Valid() && parent in w.held
    modifies w
    ensures w.Valid() && old(w.history) <= w.history && w.held == old(w.held) - {parent} && failure != Some(Unsafe)
    ensures failure.Some? ==> w.OthersOnly()
    ensures failure == None ==>
              && |w.unlinks| == |old(w.unlinks)| + 1 && w.unlinks[..|old(w.unlinks)|] == old(w.unlinks) && seen >= |old(w.history)|
              && w.unlinks[|old(w.unlinks)|].sl == Slot(old(w.held)[parent], base)
              && RemovesEntry(w.history, w.unlinks[|old(w.unlinks)|], seen, inspected)
              && (cutoff.Some? ==> inspected in w.history[seen].mtime && w.history[seen].mtime[inspected] <= cutoff.value)
    ensures w.quiet ==> failure == WhyKept(old(w.now), Slot(old(w.held)[parent], base), cutoff) || failure == Some(Trouble)
    ensures w.CallsOnly() && (failure == Some(Trouble) ==> w.troubles > old(w.troubles))
    ensures failure.Some? ==> failure.value in {Missing, NotRegularFile, TooYoung, Trouble}
    ensures w.quiet && failure == None ==> w.now == Without(old(w.now), Slot(old(w.held)[parent], base))
    ensures failure.Some? && failure != Some(Trouble) ==> Met(w.history, |old(w.history)|, old(w.held)[parent], base, cutoff, failure.value)
  {
    seen := |w.history|;
    ghost var from, dir := seen, w.held[parent];
    failure, inspected := InspectCandidate(w, parent, base, cutoff);
    if failure == None {
      failure := w.Remove(parent, base);
      assert failure == Some(Missing) ==> Explains(w.history, from, |w.history| - 1, Slot(dir, base), cutoff, Missing);
    }
    ghost var before := w.history;
    w.Close(parent);
    if failure.Some? && failure != Some(Trouble) { MetLater(before, w.history, from, from, dir, base, cutoff, failure.value); }
  }

  /** A fresh look at the entry: a regular file, and not younger than the cutoff. */
  method InspectCandidate(w: Kernel, parent: Handle, base: Name, cutoff: Option<int>) returns (failure: Option<Failure>, ghost inspected: Ino)
    requires w.Valid() && parent in w.held
    modifies w
    ensures w.Valid() && w.OthersOnly() && w.held == old(w.held) && |w.history| == |old(w.history)| + 1
    ensures failure == None ==>
              && BoundToFile(w.now, w.held[parent], base, inspected)
              && (cutoff.Some? ==> inspected in w.now.mtime && w.now.mtime[inspected] <= cutoff.value)
    ensures w.quiet ==> failure == WhyKept(w.now, Slot(w.held[parent], base), cutoff) || failure == Some(Trouble)
    ensures failure.Some? ==> failure.value in {Missing, NotRegularFile, TooYoung, Trouble}
    ensures failure == Some(Trouble) ==> w.troubles > old(w.troubles)
    ensures failure.Some? && failure != Some(Trouble) ==> Met(w.history, |old(w.history)|, w.held[parent], base, cutoff, failure.value)
  {
    ghost var at, sl := |w.history|, Slot(w.held[parent], base);
    inspected := 0;
    var st: Stat;
    failure, st := w.Lstat(parent, base);
    assert failure == Some(Missing) ==> Explains(w.history, at, at, sl, cutoff, Missing);
    if failure.Some? {
      return;
    }
    inspected := st.ino;
    if st.kind != RegularFile {
      failure := Some(NotRegularFile);
    } else if cutoff.Some? && st.mtime > cutoff.value {
      failure := Some(TooYoung);
    }
    assert failure.Some? ==> Explains(w.history, at, at, sl, cutoff, failure.value);
  }

  /** Why a file is not removed when nothing moves and no call fails: an unsafe name, a parent
      that cannot be pinned, an entry that is missing or is no regular file. */
  function WhyNotRemoved(v: View, root: Ino, name: Path): Option<Failure> {
    if !NamesAnEntry(name) then Some(Unsafe) else
    match Direct(v, root, name[..|name| - 1])
    case None => WhyNot(v, root, name[..|name| - 1])
    case Some(d) => WhyKept(v, Slot(d, name[|name| - 1]), None)
  }

  /** Why an entry was left where it is, whatever the others did: the way to it was stuck, or
      something was met at the entry itself. */
  ghost predicate LeftBecause(history: seq<View>, from: nat, name: Path, chain: seq<Ino>, times: seq<nat>, cutoff: Option<int>, why: Failure)
    requires name != []
  {
    var dir := name[..|name| - 1];
    || Stuck(history, from, dir, chain, times, why)
    || (Descends(history, from, dir, chain, times) && Met(history, from, chain[|dir|], name[|dir|], cutoff, why))
  }

  /** The way to a candidate was no real directory, or was exchanged under the sweep. */
  ghost predicate CannotPin(history: seq<View>, from: nat, name: Path, chain: seq<Ino>, times: seq<nat>)
    requires name != []
  {
    || Stuck(history, from, name[..|name| - 1], chain, times, NotADirectory)
    || Stuck(history, from, name[..|name| - 1], chain, times, Changed)
  }

  /** A candidate vanished, or is no regular file, or is too young. */
  ghost predicate NothingToReap(history: seq<View>, from: nat, name: Path, chain: seq<Ino>, times: seq<nat>, cutoff: int)
    requires name != []
  {
    || LeftBecause(history, from, name, chain, times, Some(cutoff), Missing)
    || LeftBecause(history, from, name, chain, times, Some(cutoff), NotRegularFile)
    || LeftBecause(history, from, name, chain, times, Some(cutoff), TooYoung)
  }

  /** Remove a regular file by name. Every outcome leaves the handles as they were; only
      success unlinks, and it unlinks one entry of the pinned directory. */
  method RemoveFileInRoot(w: Kernel, root: Handle, name: Path)
    returns (failure: Option<Failure>, ghost chain: seq<Ino>, ghost times: seq<nat>, ghost seen: nat, ghost inspected: Ino)
    requires w.Valid() && root in w.held
    modifies w
    ensures w.Valid() && old(w.history) <= w.history && w.held == old(w.held)
    ensures failure.Some? ==> w.OthersOnly()
    ensures failure == None ==>
              && |w.unlinks| == |old(w.unlinks)| + 1 && w.unlinks[..|old(w.unlinks)|] == old(w.unlinks)
              && RemovedThrough(w.history, |old(w.history)|, w.held[root], name, w.unlinks[|old(w.unlinks)|], chain, times, seen, inspected)
    ensures w.quiet ==> failure == WhyNotRemoved(old(w.now), w.held[root], name) || failure == Some(Trouble)
    ensures w.quiet && failure == None ==> RegularAt(old(w.now), w.held[root], name).Some?
                                           && w.now == Without(old(w.now), RegularAt(old(w.now), w.held[root], name).value)
    ensures w.CallsOnly() && (failure == Some(Trouble) ==> w.troubles > old(w.troubles))
    ensures failure == Some(Unsafe) <==> name == [] || name[|name| - 1] in ["", ".", ".."]
    ensures failure.Some? && failure.value !in {Trouble, Unsafe} ==>
              LeftBecause(w.history, |old(w.history)|, name, chain, times, None, failure.value)
  {
    chain, times, seen, inspected := [], [], 0, 0;
    if name != [] { WhyNotSplits(w.now, w.held[root], name[..|name| - 1], []); }
    var parent: Handle, base: Name;
    failure, parent, base, chain, times := OpenParentInRoot(w, root, name);
    if failure.Some? {
      return;
    }
    ghost var pinnedBy := w.history;
    failure, seen, inspected := RemoveThroughParent(w, parent, base, None);
    DescendsLater(pinnedBy, w.history, |old(w.history)|, name[..|name| - 1], chain, times);
    if failure.Some? && failure != Some(Trouble) {
      MetLater(w.history, w.history, |pinnedBy|, |old(w.history)|, chain[|name| - 1], base, None, failure.value);
    }
  }

  /** What reaping a candidate through its pinned parent comes to when nothing else moves:
      exactly a stale regular temp is removed, and only a call that fails, or a component on
      the way that is there and no real directory, counts as a failure. */
  ghost predicate Reaps(v: View, v': View, root: Ino, q: Path, cutoff: int, didRemove: bool, didFail: bool, troubled: bool)
    requires q != []
  {
    && (didFail ==> IsTempName(q[|q| - 1]) && !didRemove) && (!didRemove ==> v' == v)
    && (didFail ==> troubled || WhyNot(v, root, q[..|q| - 1]) == Some(NotADirectory))
    && (IsTempName(q[|q| - 1]) && WhyNot(v, root, q[..|q| - 1]) == Some(NotADirectory) ==> didFail)
    && (!didFail ==> match StaleTempAt(v, root, q, cutoff)
                     case Some(sl) => didRemove && v' == Without(v, sl)
                     case None => !didRemove)
  }

  lemma TempNamesNameEntries(q: Path)
    requires q != [] && IsTempName(q[|q| - 1])
    ensures NamesAnEntry(q)
  {
  }

  /** One candidate of the confined sweep. A vanished file, or one that is no stale regular
      temp, is neither removed nor a failure; only `didRemove` unlinks. */
  method ReapStaleTempInRoot(w: Kernel, root: Handle, name: Path, cutoff: int)
    returns (didRemove: bool, didFail: bool, ghost chain: seq<Ino>, ghost times: seq<nat>, ghost seen: nat, ghost inspected: Ino)
    requires w.Valid() && root in w.held && name != []
    modifies w
    ensures w.Valid() && old(w.history) <= w.history && w.held == old(w.held) && !(didRemove && didFail)
    ensures !didRemove ==> w.OthersOnly()
    ensures didRemove ==>
              && IsTempName(name[|name| - 1])
              && |w.unlinks| == |old(w.unlinks)| + 1 && w.unlinks[..|old(w.unlinks)|] == old(w.unlinks)
              && RemovedThrough(w.history, |old(w.history)|, w.held[root], name, w.unlinks[|old(w.unlinks)|], chain, times, seen, inspected)
              && inspected in w.history[seen].mtime && w.history[seen].mtime[inspected] <= cutoff
    ensures !IsTempName(name[|name| - 1]) ==> !didFail
    ensures w.quiet ==> Reaps(old(w.now), w.now, w.held[root], name, cutoff, didRemove, didFail, w.troubles > old(w.troubles))
    ensures w.CallsOnly()
    ensures didFail ==> w.troubles > old(w.troubles) || CannotPin(w.history, |old(w.history)|, name, chain, times)
    ensures IsTempName(name[|name| - 1]) && !didRemove && !didFail ==> NothingToReap(w.history, |old(w.history)|, name, chain, times, cutoff)
  {
    didRemove, didFail, chain, times, seen, inspected := false, false, [], [], 0, 0;
    if !IsTempName(name[|name| - 1]) {
      return;
    }
    TempNamesNameEntries(name);
    WhyNotSplits(w.now, w.held[root], name[..|name| - 1], []);
    var failure: Option<Failure>, parent: Handle, base: Name;
    failure, parent, base, chain, times := OpenParentInRoot(w, root, name);
    if failure.Some? {
      didFail := failure.value != Missing;
      return;
    }
    ghost var pinnedBy := w.history;
    failure, seen, inspected := RemoveThroughParent(w, parent, base, Some(cutoff));
    DescendsLater(pinnedBy, w.history, |old(w.history)|, name[..|name| - 1], chain, times);
    if failure.Some? && failure != Some(Trouble) {
      MetLater(w.history, w.history, |pinnedBy|, |old(w.history)|, chain[|name| - 1], base, Some(cutoff), failure.value);
    }
    didRemove := failure == None;
    didFail := failure.Some? && failure.value !in {Missing, NotRegularFile, TooYoung};
  }
}
