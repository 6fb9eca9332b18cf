/** A directory tree that somebody else may rewrite between any two system calls. */
module Contested {
  import opened FileSystem

  datatype Kind = RealDir | RegularFile | SoftLink | Device

  /** One instant: which inodes there are, what every entry holds, and each mtime. */
  datatype View = View(kind: map<Ino, Kind>, entries: map<Slot, Ino>, mtime: map<Ino, int>)

  /** One unlink of ours: the entry, what it held, and which instant brought it about. */
  datatype Unlink = Unlink(sl: Slot, gone: Ino, at: nat)

  datatype Stat = Stat(ino: Ino, kind: Kind, mtime: int)

  datatype Failure = Missing | NotADirectory | Changed | NotRegularFile | TooYoung | Unsafe | Trouble

  type Handle = nat

  ghost predicate Coherent(v: View) {
    && (forall sl :: sl in v.entries ==> v.entries[sl] in v.kind)
    && (forall i :: i in v.kind ==> i in v.mtime)
  }

  /** An inode number always means the same inode. */
  ghost predicate NeverReused(before: View, later: View) {
    forall i :: i in before.kind ==> i in later.kind && later.kind[i] == before.kind[i]
  }

  /** All through the history. */
  ghost predicate InodesStay(history: seq<View>) { forall k :: 0 < k < |history| ==> NeverReused(history[k - 1], history[k]) }

  /** The entry itself is a directory: not a symlink to one. */
  predicate BoundToDir(v: View, dir: Ino, name: Name, child: Ino) {
    var sl := Slot(dir, name);
    sl in v.entries && v.entries[sl] == child && child in v.kind && v.kind[child] == RealDir
  }

  predicate BoundToFile(v: View, dir: Ino, name: Name, child: Ino) {
    var sl := Slot(dir, name);
    sl in v.entries && v.entries[sl] == child && child in v.kind && v.kind[child] == RegularFile
  }

  class Kernel {
    const quiet: bool                   // nobody else is there
    var now: View
    ghost var history: seq<View>        // every instant so far
    ghost var unlinks: seq<Unlink>      // those that are our doing
    ghost var troubles: nat             // how many of our calls failed with nothing in their way
    ghost var looks: nat                // how often the context was looked at
    ghost var stops: nat                // and found done
    var held: map<Handle, Ino>          // our own open directory handles
    var nextHandle: Handle

    ghost predicate Valid()
      reads this
    {
      && Coherent(now) && history != [] && history[|history| - 1] == now && InodesStay(history)
      && (forall h :: h in held ==> h < nextHandle && held[h] in now.kind && now.kind[held[h]] == RealDir)
    }

    /** What a call that unlinks nothing may have done to the rest of the world. */
    twostate predicate OthersOnly()
      reads this
    {
      old(history) <= history && unlinks == old(unlinks) && (quiet ==> now == old(now)) && CallsOnly()
    }

    /** Failed calls stay counted, and the context was not looked at. */
    twostate predicate CallsOnly()
      reads this
    {
      old(troubles) <= troubles && looks == old(looks) && stops == old(stops)
    }

    constructor (v: View, root: Ino, quiet: bool)
      requires Coherent(v) && root in v.kind && v.kind[root] == RealDir
      ensures Valid() && now == v && held == map[0 := root] && this.quiet == quiet && history == [v] && unlinks == []
      ensures troubles == looks == stops == 0
    {
      this.quiet, now, held, nextHandle, history, unlinks := quiet, v, map[0 := root], 1, [v], [];
      troubles, looks, stops := 0, 0, 0;
    }

    /** The others do as they like. */
    method Interfere()
      requires Valid()
      modifies `now, `history
      ensures Valid() && OthersOnly() && NeverReused(old(now), now) && history == old(history) + [now]
    {
      var idle: bool := *;
      if !quiet && !idle {
        var entries: map<Slot, Ino> := *;
        var newKind: map<Ino, Kind> := *;
        var mtime: map<Ino, int> := *;
        var kind := newKind + now.kind;
        now := View(kind,
                    map sl | sl in entries && entries[sl] in kind :: entries[sl],
                    map i | i in kind :: if i in mtime then mtime[i] else 0);
      }
      history := history + [now];
    }

    /** A look at the context. */
    method IsDone() returns (done: bool)
      requires Valid()
      modifies `looks, `stops
      ensures Valid() && looks == old(looks) + 1 && stops == old(stops) + if done then 1 else 0
    {
      done := *;
      looks := looks + 1;
      if done {
        stops := stops + 1;
      }
    }

    /** Inspect an entry, without following a symlink. */
    method Lstat(h: Handle, name: Name) returns (failure: Option<Failure>, st: Stat)
      requires Valid() && h in held
      modifies `now, `history, `troubles
      ensures Valid() && OthersOnly() && |history| == |old(history)| + 1
      ensures failure == None ==>
                && Slot(held[h], name) in now.entries && now.entries[Slot(held[h], name)] == st.ino
                && now.kind[st.ino] == st.kind && now.mtime[st.ino] == st.mtime
      ensures failure.Some? ==> failure.value in {Missing, Trouble} && (failure.value.Missing? ==> Slot(held[h], name) !in now.entries)
      ensures failure == Some(Trouble) ==> troubles > old(troubles)
    {
      st := Stat(0, Device, 0);
      Interfere();
      var trouble: bool := *;
      if trouble {
        troubles := troubles + 1;
        return Some(Trouble), st;
      }
      var sl := Slot(held[h], name);
      if sl !in now.entries {
        return Some(Missing), st;
      }
      var i := now.entries[sl];
      return None, Stat(i, now.kind[i], now.mtime[i]);
    }

    /** Open an entry as a directory, through a symlink to any directory if it is one. */
    method OpenDir(h: Handle, name: Name) returns (failure: Option<Failure>, child: Handle)
      requires Valid() && h in held
      modifies `now, `history, `held, `nextHandle, `troubles
      ensures Valid() && OthersOnly()
      ensures failure == None ==> child !in old(held) && child in held && held == old(held)[child := held[child]]
      ensures failure == None ==> Slot(held[h], name) in now.entries
                                  && (now.kind[now.entries[Slot(held[h], name)]] == RealDir ==> held[child] == now.entries[Slot(held[h], name)])
      ensures |history| == |old(history)| + 1
      ensures failure.Some? ==> held == old(held) && failure.value in {Missing, NotADirectory, Trouble}
      ensures failure == Some(Missing) ==> Slot(held[h], name) !in now.entries
      ensures failure == Some(NotADirectory) ==> Slot(held[h], name) in now.entries && now.kind[now.entries[Slot(held[h], name)]] != RealDir
      ensures failure == Some(Trouble) ==> troubles > old(troubles)
    {
      child := 0;
      Interfere();
      var trouble: bool := *;
      if trouble {
        troubles := troubles + 1;
        return Some(Trouble), child;
      }
      var sl := Slot(held[h], name);
      if sl !in now.entries {
        return Some(Missing), child;
      }
      var i := now.entries[sl];
      if now.kind[i] == SoftLink {
        i := *;
        if i !in now.kind || now.kind[i] != RealDir {
          return Some(NotADirectory), child;
        }
      } else if now.kind[i] != RealDir {
        return Some(NotADirectory), child;
      }
      child := nextHandle;
      held, nextHandle := held[child := i], nextHandle + 1;
      return None, child;
    }

    /** A second handle onto an open directory: no name is looked up. */
    method Reopen(h: Handle) returns (failure: Option<Failure>, again: Handle)
      requires Valid() && h in held
      modifies `now, `history, `held, `nextHandle, `troubles
      ensures Valid() && OthersOnly()
      ensures failure == None ==> again !in old(held) && held == old(held)[again := old(held)[h]]
      ensures failure.Some? ==> held == old(held) && failure.value.Trouble?
      ensures failure == Some(Trouble) ==> troubles > old(troubles)
    {
      again := 0;
      Interfere();
      var trouble: bool := *;
      if trouble {
        troubles := troubles + 1;
        return Some(Trouble), again;
      }
      again := nextHandle;
      held, nextHandle := held[again := held[h]], nextHandle + 1;
      return None, again;
    }

    /** Which directory an open handle is. */
    method StatSelf(h: Handle) returns (failure: Option<Failure>, st: Stat)
      requires Valid() && h in held
      modifies `now, `history, `troubles
      ensures Valid() && OthersOnly()
      ensures failure == None ==> st.ino == held[h]
      ensures failure.Some? ==> failure.value.Trouble?
      ensures failure == Some(Trouble) ==> troubles > old(troubles)
    {
      st := Stat(0, Device, 0);
      Interfere();
      var trouble: bool := *;
      if trouble {
        troubles := troubles + 1;
        return Some(Trouble), st;
      }
      return None, Stat(held[h], RealDir, now.mtime[held[h]]);
    }

    method Close(h: Handle)
      requires Valid() && h in held
      modifies `now, `history, `held
      ensures Valid() && OthersOnly() && held == old(held) - {h}
    {
      Interfere();
      held := held - {h};
    }

    /** Unlink whatever the entry holds at this very moment. */
    method Remove(h: Handle, name: Name) returns (failure: Option<Failure>)
      requires Valid() && h in held
      modifies `now, `history, `unlinks, `troubles
      ensures Valid() && old(history) <= history && CallsOnly()
      ensures failure == None ==>
                var n := |old(history)|; var sl := Slot(held[h], name);
                && |history| == n + 2 && (quiet ==> history[n] == old(now)) && sl in history[n].entries
                && history[n + 1] == history[n].(entries := history[n].entries - {sl})
                && unlinks == old(unlinks) + [Unlink(sl, history[n].entries[sl], n + 1)]
      ensures failure.Some? ==> OthersOnly() && failure.value in {Missing, Trouble}
      ensures failure == Some(Missing) ==> Slot(held[h], name) !in now.entries
      ensures failure == Some(Trouble) ==> troubles > old(troubles)
    {
      Interfere();
      var trouble: bool := *;
      if trouble {
        troubles := troubles + 1;
        return Some(Trouble);
      }
      var sl := Slot(held[h], name);
      if sl !in now.entries {
        return Some(Missing);
      }
      unlinks := unlinks + [Unlink(sl, now.entries[sl], |history|)];
      now := now.(entries := now.entries - {sl});
      history := history + [now];
      return None;
    }
  }
}
