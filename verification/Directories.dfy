/** Creating the parent chain of a target, level by level. */
module Directories {
  import opened FileSystem
  import opened Modes
  import opened Publishing
  import opened Interference
  import opened Hosts
  import opened Syncs

  datatype Level = Created | Existed | LevelFailed

  /** The directory a level of the chain made: bound where it was made, and holding
      exactly the requested mode bits. */
  ghost predicate MadeAt(s: State, me: Wid, sl: Slot, mode: FileMode) {
    && sl in s.fs.bind && MadeBy(me, s, s.fs.bind[sl]) && IsDir(s.fs, s.fs.bind[sl])
    && ChmodBits(s.fs.nodes[s.fs.bind[sl]].mode) == ChmodBits(mode)
  }

  /** Why a directory is not made: a call failed, the filesystem does not store the modes it
      is asked for, or a name on the way was found taken by something that leads nowhere. */
  ghost predicate NotMadeBecause(w: Host, troubles: nat, taken: nat, path: Path)
    reads w
  {
    w.troubles > troubles || !w.storesModes || (w.taken > taken && Resolve(w.s.fs, w.root, path, w.hops).Lost?)
  }

  /** chmod and read back, on a handle of a directory this write made. */
  method EnforceDirMode(w: Host, me: Wid, dir: Path, mode: FileMode, ghost made: Ino) returns (ok: bool)
    requires w.Valid() && Resolve(w.s.fs, w.root, dir, w.hops).At? && Resolve(w.s.fs, w.root, dir, w.hops).ino == made
    requires MadeBy(me, w.s, made)
    modifies w
    ensures w.Valid() && w.OnlyCalls(me) && WriterOf(w.s, me) == old(WriterOf(w.s, me))
    ensures forall i :: MadeBy(me, w.s, i) <==> MadeBy(me, old(w.s), i)
    ensures forall i :: MadeBy(me, w.s, i) && i != made ==> SameNode(old(w.s), w.s, i)
    ensures ok ==> IsDir(w.s.fs, made) && ChmodBits(w.s.fs.nodes[made].mode) == ChmodBits(mode)
    ensures ok ==> |w.own| == |old(w.own)| + 1 && w.own[..|old(w.own)|] == old(w.own)
                   && w.own[|old(w.own)|].ChmodDir? && w.own[|old(w.own)|].w == me && w.own[|old(w.own)|].ino == made
    ensures w.faults == old(w.faults) + if ok then [] else [MakeDirectory]
    ensures !ok ==> w.troubles > old(w.troubles)
                    || (!w.storesModes && IsDir(w.s.fs, made) && ChmodBits(w.s.fs.nodes[made].mode) != ChmodBits(mode))
  {
    var handle := w.OpenMadeDir(me, dir, made);
    if handle.None? {
      return false;
    }
    ok := w.FchmodDir(me, handle.value, mode);
    if !ok {
      return false;
    }
    var stored := w.FstatDir(me, handle.value);
    if stored.None? {
      return false;
    }
    ok := ChmodBits(stored.value) == ChmodBits(mode);
    if !ok {
      w.Note(MakeDirectory);
    }
  }

  /** One level: create it and prove its mode, or accept the directory that is there. */
  method MkdirLevel(w: Host, me: Wid, parent: Path, name: Name, mode: FileMode) returns (r: Level, ghost ops: seq<Act>)
    requires w.Valid()
    modifies w
    ensures w.Valid() && w.OnlyCalls(me) && WriterOf(w.s, me) == old(WriterOf(w.s, me))
    ensures !r.LevelFailed? ==> Resolve(w.s.fs, w.root, parent + [name], w.hops).At?
    ensures r.Created? ==>
              var d := Resolve(w.s.fs, w.root, parent, w.hops);
              && d.At? && MadeAt(w.s, me, Slot(d.ino, name), mode)
              && Vacant(old(w.s.fs), Slot(d.ino, name)) && IsNewest(me, old(w.s), w.s, w.s.fs.bind[Slot(d.ino, name)])
              && w.own == old(w.own) + ops && MakesLevel(ops, me, Slot(d.ino, name))
    ensures r.Existed? ==> w.own == old(w.own) && Undisturbed(me, old(w.s), w.s) && w.taken > old(w.taken)
    ensures w.faults == old(w.faults) + if r.LevelFailed? then [MakeDirectory] else []
    ensures r.LevelFailed? ==> Resolve(w.s.fs, w.root, parent, w.hops).Lost? || NotMadeBecause(w, old(w.troubles), old(w.taken), parent + [name])
  {
    var answer := w.MkdirAt(me, parent, name);
    if answer.MkdirFailed? {
      return LevelFailed, [];
    }
    if answer.DirTaken? {
      var isDir := w.StatIsDir(me, parent + [name]);
      return if isDir == Some(true) then Existed else LevelFailed, [];
    }
    ghost var made, prior, d := w.s, w.acts, Resolve(w.s.fs, w.root, parent, w.hops);
    ghost var ino := w.s.fs.bind[Slot(d.ino, name)];
    ChildResolves(w.s.fs, w.root, parent, name, w.hops);
    var ok := EnforceDirMode(w, me, parent + [name], mode, ino);
    if !ok {
      return LevelFailed, [];
    }
    LevelStays(w, prior, made, parent, name);
    ops := w.own[|old(w.own)|..];
    return Created, ops;
  }

  /** The calls that make one level. */
  predicate MakesLevel(ops: seq<Act>, me: Wid, sl: Slot) {
    && |ops| == 2 && ops[0].Mkdir? && ops[0].w == me && ops[0].slot == sl
    && ops[1].ChmodDir? && ops[1].w == me && ops[1].ino == ops[0].ino
  }

  lemma ChildResolves(fs: FS, root: Ino, parent: Path, name: Name, hops: nat)
    requires Resolve(fs, root, parent, hops).At?
    requires var sl := Slot(Resolve(fs, root, parent, hops).ino, name); sl in fs.bind && IsDir(fs, fs.bind[sl])
    ensures Resolve(fs, root, parent + [name], hops).At?
    ensures Resolve(fs, root, parent + [name], hops).ino == fs.bind[Slot(Resolve(fs, root, parent, hops).ino, name)]
  {
    WalkSplits(fs.nodes, Live(fs), root, root, parent, [name], hops);
  }

  lemma LevelStays(w: Host, prior: seq<Act>, before: State, parent: Path, name: Name)
    requires w.Valid() && w.Passed(prior, before) && IsDir(before.fs, w.root)
    requires Resolve(before.fs, w.root, parent, w.hops).At?
    requires var sl := Slot(Resolve(before.fs, w.root, parent, w.hops).ino, name); sl in before.fs.bind && IsDir(before.fs, before.fs.bind[sl])
    ensures Resolve(w.s.fs, w.root, parent, w.hops) == Resolve(before.fs, w.root, parent, w.hops)
    ensures var sl := Slot(Resolve(before.fs, w.root, parent, w.hops).ino, name);
            sl in w.s.fs.bind && w.s.fs.bind[sl] == before.fs.bind[sl] && IsDir(w.s.fs, w.s.fs.bind[sl])
    ensures Resolve(w.s.fs, w.root, parent + [name], w.hops).At?
  {
    w.Since(prior, before);
    w.Invariant();
    OnwardResolves(before, w.s, w.root, parent, w.hops);
    assert NonFileLink(before.fs, Slot(Resolve(before.fs, w.root, parent, w.hops).ino, name));
    ChildResolves(w.s.fs, w.root, parent, name, w.hops);
  }

  // ---- The whole chain ------------------------------------------------------

  /** The entries in `made` are exactly the directories this write has created since
      `start`: each was vacant then, and each holds the requested mode. */
  ghost predicate MadeExactly(start: State, s: State, me: Wid, made: set<Slot>, mode: FileMode) {
    && (forall sl :: sl in made ==> MadeAt(s, me, sl, mode) && Vacant(start.fs, sl))
    && (forall i :: MadeBy(me, s, i) <==> MadeBy(me, start, i) || exists sl :: sl in made && sl in s.fs.bind && s.fs.bind[sl] == i)
  }

  /** The same, folded: most methods only pass it on, and `ReadLedger` opens it. */
  ghost predicate Ledger(start: State, s: State, me: Wid, made: set<Slot>, mode: FileMode) {
    forall k: nat {:trigger Asked(k)} :: Asked(k) ==> MadeExactly(start, s, me, made, mode)
  }

  lemma ReadLedger(start: State, s: State, me: Wid, made: set<Slot>, mode: FileMode)
    ensures Ledger(start, s, me, made, mode) <==> MadeExactly(start, s, me, made, mode)
  {
    assert Asked(0);
  }

  /** The levels made so far, outermost first: which component each is, the calls that made
      it, its entry, and whether the sync of the directory it was made in succeeded. */
  datatype Chain = NoLevels | LevelAfter(earlier: Chain, k: nat, calls: seq<Act>, sl: Slot, synced: bool)

  function MadeIn(c: Chain): set<Slot> {
    match c
    case NoLevels => {}
    case LevelAfter(earlier, _, _, sl, _) => MadeIn(earlier) + {sl}
  }

  /** Every call of a chain: make the level, set its mode, sync its directory, then the next. */
  function CallsOf(c: Chain, me: Wid): seq<Act> {
    match c
    case NoLevels => []
    case LevelAfter(earlier, _, calls, sl, synced) => CallsOf(earlier, me) + calls + if synced then [SyncEntries(me, sl.dir)] else []
  }

  predicate MakesEach(c: Chain, me: Wid) {
    match c
    case NoLevels => true
    case LevelAfter(earlier, _, calls, sl, _) => MakesEach(earlier, me) && MakesLevel(calls, me, sl)
  }

  predicate AllSynced(c: Chain) {
    match c
    case NoLevels => true
    case LevelAfter(earlier, _, _, _, synced) => AllSynced(earlier) && synced
  }

  /** Every level whose sync succeeded stays there for good. */
  predicate SyncedSettled(c: Chain, fs: FS) {
    match c
    case NoLevels => true
    case LevelAfter(earlier, _, _, sl, synced) => SyncedSettled(earlier, fs) && (synced ==> Settled(fs, sl))
  }

  lemma {:induction false} AllSettled(c: Chain, fs: FS)
    requires AllSynced(c) && SyncedSettled(c, fs)
    ensures forall sl :: sl in MadeIn(c) ==> Settled(fs, sl)
  {
    match c
    case NoLevels =>
    case LevelAfter(earlier, _, _, _, _) => AllSettled(earlier, fs);
  }

  /** Each level is a component of `dir` before the `upTo`th, and they come in order. */
  predicate Fits(c: Chain, dir: Path, upTo: nat)
    requires upTo <= |dir|
  {
    match c
    case NoLevels => true
    case LevelAfter(earlier, k, _, sl, _) => k < upTo && sl.name == dir[k] && Fits(earlier, dir, k)
  }

  predicate OnlySyncFaults(faults: seq<Step>) { forall k :: 0 <= k < |faults| ==> faults[k].SyncParent? }

  lemma LedgerStays(start: State, before: State, s: State, me: Wid, made: set<Slot>, mode: FileMode)
    requires Ledger(start, before, me, made, mode) && Undisturbed(me, before, s) && Onward(before, s)
    ensures Ledger(start, s, me, made, mode)
  {
    ReadLedger(start, before, me, made, mode);
    ReadLedger(start, s, me, made, mode);
  }

  lemma LedgerGrows(start: State, before: State, s: State, me: Wid, made: set<Slot>, sl: Slot, mode: FileMode)
    requires Ledger(start, before, me, made, mode) && Onward(start, before) && Onward(before, s)
    requires MadeAt(s, me, sl, mode) && Vacant(before.fs, sl) && IsNewest(me, before, s, s.fs.bind[sl])
    ensures Ledger(start, s, me, made + {sl}, mode)
  {
    ReadLedger(start, before, me, made, mode);
    ReadLedger(start, s, me, made + {sl}, mode);
    forall t | t in made + {sl}
      ensures MadeAt(s, me, t, mode) && Vacant(start.fs, t)
      ensures t in made ==> s.fs.bind[t] == before.fs.bind[t]
    {
      if t in made {
        assert MadeAt(before, me, t, mode) && NonFileLink(before.fs, t);
      }
    }
    forall i
      ensures MadeBy(me, s, i) <==> MadeBy(me, start, i) || exists t :: t in made + {sl} && t in s.fs.bind && s.fs.bind[t] == i
    {
      if i == s.fs.bind[sl] {
        assert sl in made + {sl};
      } else if MadeBy(me, before, i) && !MadeBy(me, start, i) {
        var t :| t in made && t in before.fs.bind && before.fs.bind[t] == i;
        assert t in made + {sl};
      }
    }
  }

  /** Entries of the skeleton stay settled. */
  lemma StaySettled(before: State, s: State, made: set<Slot>)
    requires Onward(before, s) && Sound(s.fs)
    requires forall sl :: sl in made ==> NonFileLink(before.fs, sl) && Settled(before.fs, sl)
    ensures forall sl :: sl in made ==> Settled(s.fs, sl)
  {
  }

  lemma LedgerHolds(w: Host, prior: seq<Act>, before: State, start: State, me: Wid, made: set<Slot>, mode: FileMode)
    requires w.Valid() && w.Passed(prior, before) && Ledger(start, before, me, made, mode) && Undisturbed(me, before, w.s)
    ensures Ledger(start, w.s, me, made, mode)
  {
    w.Since(prior, before);
    LedgerStays(start, before, w.s, me, made, mode);
  }

  lemma LedgerTakes(w: Host, run: seq<Act>, start: State, prior: seq<Act>, before: State, me: Wid, made: set<Slot>, sl: Slot, mode: FileMode)
    requires w.Valid() && w.Passed(run, start) && w.Passed(prior, before) && run <= prior && Ledger(start, before, me, made, mode)
    requires MadeAt(w.s, me, sl, mode) && Vacant(before.fs, sl) && IsNewest(me, before, w.s, w.s.fs.bind[sl])
    ensures Ledger(start, w.s, me, made + {sl}, mode)
  {
    w.Since(prior, before);
    PassedBefore(w, run, start, prior, before);
    LedgerGrows(start, before, w.s, me, made, sl, mode);
  }

  /** The fsync of the directory a level was just made in. */
  method SyncLevel(w: Host, me: Wid, parent: Path, name: Name, mode: FileMode, ghost start: State, ghost made: set<Slot>, ghost sl: Slot) returns (synced: bool)
    requires w.Valid() && Ledger(start, w.s, me, made + {sl}, mode) && MadeAt(w.s, me, sl, mode)
    requires var d := Resolve(w.s.fs, w.root, parent, w.hops); d.At? && sl == Slot(d.ino, name)
    modifies w
    ensures w.Valid() && w.NoLooks() && WriterOf(w.s, me) == old(WriterOf(w.s, me))
    ensures Ledger(start, w.s, me, made + {sl}, mode) && Resolve(w.s.fs, w.root, parent + [name], w.hops).At?
    ensures Resolve(w.s.fs, w.root, parent, w.hops) == old(Resolve(w.s.fs, w.root, parent, w.hops))
    ensures w.own == old(w.own) + if synced then [SyncEntries(me, sl.dir)] else []
    ensures w.Synced(me) == old(w.Synced(me)) + if synced then [sl.dir] else []
    ensures synced ==> Settled(w.s.fs, sl)
    ensures w.faults == old(w.faults) + if synced then [] else [SyncParent]
    ensures !synced ==> w.troubles > old(w.troubles)
  {
    ghost var there, prior := w.s, w.acts;
    synced := w.SyncDirectory(me, parent);
    LevelStays(w, prior, there, parent, name);
    LedgerHolds(w, prior, there, start, me, made + {sl}, mode);
  }

  /** One level, entered in the ledger if this write made it. */
  method LedgerLevel(w: Host, me: Wid, parent: Path, name: Name, mode: FileMode, ghost run: seq<Act>, ghost start: State, ghost made: set<Slot>)
    returns (level: Level, ghost sl: Slot, ghost ops: seq<Act>)
    requires w.Valid() && w.Passed(run, start) && Ledger(start, w.s, me, made, mode)
    modifies w
    ensures w.Valid() && w.OnlyCalls(me) && WriterOf(w.s, me) == old(WriterOf(w.s, me))
    ensures !level.LevelFailed? ==> Resolve(w.s.fs, w.root, parent + [name], w.hops).At?
    ensures level.Existed? ==> Ledger(start, w.s, me, made, mode) && w.own == old(w.own)
    ensures level.Created? ==>
              && Ledger(start, w.s, me, made + {sl}, mode) && MadeAt(w.s, me, sl, mode)
              && Resolve(w.s.fs, w.root, parent, w.hops).At? && sl == Slot(Resolve(w.s.fs, w.root, parent, w.hops).ino, name)
              && w.own == old(w.own) + ops && MakesLevel(ops, me, sl)
    ensures w.faults == old(w.faults) + if level.LevelFailed? then [MakeDirectory] else []
    ensures level.LevelFailed? ==> Resolve(w.s.fs, w.root, parent, w.hops).Lost? || NotMadeBecause(w, old(w.troubles), old(w.taken), parent + [name])
  {
    ghost var before, prior := w.s, w.acts;
    sl := Slot(w.root, name);
    level, ops := MkdirLevel(w, me, parent, name, mode);
    if level.Existed? {
      LedgerHolds(w, prior, before, start, me, made, mode);
    } else if level.Created? {
      sl := Slot(Resolve(w.s.fs, w.root, parent, w.hops).ino, name);
      LedgerTakes(w, run, start, prior, before, me, made, sl, mode);
    }
  }

  /** One level and, if this write made it, the fsync of the directory it was made in. */
  method ChainLevel(w: Host, me: Wid, parent: Path, name: Name, mode: FileMode, ghost run: seq<Act>, ghost start: State, ghost made: set<Slot>)
    returns (level: Level, synced: bool, ghost sl: Slot, ghost ops: seq<Act>)
    requires w.Valid() && w.Passed(run, start) && Ledger(start, w.s, me, made, mode)
    modifies w
    ensures w.Valid() && w.NoLooks() && WriterOf(w.s, me) == old(WriterOf(w.s, me))
    ensures !level.LevelFailed? ==> Resolve(w.s.fs, w.root, parent + [name], w.hops).At?
    ensures level.Existed? ==> Ledger(start, w.s, me, made, mode) && synced && w.own == old(w.own) && w.Synced(me) == old(w.Synced(me))
    ensures level.Created? ==> MakesLevel(ops, me, sl) && (synced ==> Settled(w.s.fs, sl)) && w.Synced(me) == old(w.Synced(me)) + if synced then [sl.dir] else []
    ensures level.Created? ==> Resolve(w.s.fs, w.root, parent, w.hops).At? && sl == Slot(Resolve(w.s.fs, w.root, parent, w.hops).ino, name)
    ensures level.Created? ==> w.own == old(w.own) + ops + if synced then [SyncEntries(me, sl.dir)] else []
    ensures level.Created? ==> Ledger(start, w.s, me, made + {sl}, mode)
    ensures w.faults == old(w.faults) + if level.LevelFailed? then [MakeDirectory] else if synced then [] else [SyncParent]
    ensures level.LevelFailed? ==> Resolve(w.s.fs, w.root, parent, w.hops).Lost? || NotMadeBecause(w, old(w.troubles), old(w.taken), parent + [name])
    ensures !synced ==> w.troubles > old(w.troubles)
  {
    synced := true;
    level, sl, ops := LedgerLevel(w, me, parent, name, mode, run, start, made);
    if level.Created? {
      synced := SyncLevel(w, me, parent, name, mode, start, made, sl);
    }
  }

  /** Two moments of one run are ordered by the calls made before them. */
  lemma PassedBefore(w: Host, run: seq<Act>, start: State, prior: seq<Act>, before: State)
    requires w.Valid() && w.Passed(run, start) && w.Passed(prior, before) && run <= prior
    ensures Onward(start, before)
  {
    w.Later(run, start);
    Unfold(w.s0, prior, before);
    Unfold(w.s0, run, start);
    RunSplits(w.s0, prior, |run|);
    assert prior[..|run|] == run;
    RunIsOnward(w.s0, start, prior[|run|..]);
  }

  /** What the loop has done after `k` levels. */
  ghost predicate ChainMade(w: Host, me: Wid, start: State, firstOwn: seq<Act>, dir: Path, k: nat, mode: FileMode, chain: Chain)
    requires k <= |dir|
    reads w
  {
    && WriterOf(w.s, me) == WriterOf(start, me)
    && Resolve(w.s.fs, w.root, dir[..k], w.hops).At? && Ledger(start, w.s, me, MadeIn(chain), mode) && Fits(chain, dir, k)
    && ChainCalled(firstOwn, w.own, w.s, me, chain)
  }

  /** The calls made since `firstOwn` are exactly those of the chain. */
  ghost predicate ChainCalled(firstOwn: seq<Act>, own: seq<Act>, s: State, me: Wid, chain: Chain) {
    own == firstOwn + CallsOf(chain, me) && MakesEach(chain, me) && SyncedSettled(chain, s.fs)
  }

  /** The levels were made from the deepest directory there was on, and the directories
      synced since `run` are those they were made in. */
  ghost predicate ChainSynced(start: State, run: seq<Act>, now: seq<Ino>, me: Wid, root: Ino, dir: Path, hops: nat, chain: Chain) {
    LevelsSynced(start.fs, SyncedBy(run, me), now, root, dir, hops, MadeIn(chain), AllSynced(chain))
  }

  lemma ChainSyncedFurther(w: Host, run: seq<Act>, start: State, soFar: seq<Ino>, me: Wid, dir: Path, chain: Chain, k: nat, calls: seq<Act>, sl: Slot,
                           synced: bool, mode: FileMode)
    requires w.Valid() && w.Passed(run, start) && IsDir(start.fs, w.root) && ChainSynced(start, run, soFar, me, w.root, dir, w.hops, chain)
    requires k < |dir| && Resolve(w.s.fs, w.root, dir[..k], w.hops).At? && sl == Slot(Resolve(w.s.fs, w.root, dir[..k], w.hops).ino, dir[k])
    requires Ledger(start, w.s, me, MadeIn(chain) + {sl}, mode)
    ensures ChainSynced(start, run, soFar + if synced then [sl.dir] else [], me, w.root, dir, w.hops, LevelAfter(chain, k, calls, sl, synced))
  {
    w.Since(run, start);
    w.Invariant();
    ReadLevelsSynced(start.fs, SyncedBy(run, me), soFar, w.root, dir, w.hops, MadeIn(chain), AllSynced(chain));
    ReadLedger(start, w.s, me, MadeIn(chain) + {sl}, mode);
    assert Vacant(start.fs, sl) by { assert sl in MadeIn(chain) + {sl}; }
    LevelIsDeepestOrNew(start, w.s, w.root, dir, w.hops, k);
    SyncsFitMore(SyncedBy(run, me), soFar, DirsOf(MadeIn(chain)), AllSynced(chain), sl.dir, synced);
    OneMoreDir(MadeIn(chain), sl);
  }

  lemma ConcatAssociates(a: seq<Act>, b: seq<Act>, c: seq<Act>, d: seq<Act>)
    ensures a + b + c + d == a + (b + c + d)
  {
  }

  /** One iteration of the loop. */
  method ChainStep(w: Host, me: Wid, dir: Path, k: nat, mode: FileMode, ghost run: seq<Act>, ghost start: State, ghost firstOwn: seq<Act>, ghost chain: Chain)
    returns (level: Level, ok: bool, ghost chain': Chain)
    requires w.Valid() && k < |dir| && w.Passed(run, start) && ChainMade(w, me, start, firstOwn, dir, k, mode, chain)
    requires IsDir(start.fs, w.root) && ChainSynced(start, run, w.Synced(me), me, w.root, dir, w.hops, chain)
    modifies w
    ensures w.Valid() && w.NoLooks() && WriterOf(w.s, me) == WriterOf(start, me)
    ensures !level.LevelFailed? ==> ChainMade(w, me, start, firstOwn, dir, k + 1, mode, chain')
    ensures !level.LevelFailed? ==> ChainSynced(start, run, w.Synced(me), me, w.root, dir, w.hops, chain')
    ensures AllSynced(chain') <==> AllSynced(chain) && ok
    ensures w.faults == old(w.faults) + (if level.LevelFailed? then [MakeDirectory] else if ok then [] else [SyncParent])
    ensures level.LevelFailed? ==> NotMadeBecause(w, old(w.troubles), old(w.taken), dir)
    ensures !ok ==> w.troubles > old(w.troubles)
  {
    ghost var before, prior, soFar, synced := w.s, w.acts, w.own, w.Synced(me);
    ghost var step, sl;
    level, ok, sl, step := ChainLevel(w, me, dir[..k], dir[k], mode, run, start, MadeIn(chain));
    chain' := chain;
    OneLevelDown(dir, k);
    if level.LevelFailed? {
      ok := true;
      StillLeadsThere(w, prior, before, dir[..k]);
      if Resolve(w.s.fs, w.root, dir[..k + 1], w.hops).Lost? { LostBelow(w.s.fs, w.root, dir, k, w.hops); }
      return;
    }
    assert SyncedSettled(chain, w.s.fs) by { StaysSettled(w, prior, before, start, me, chain, mode); }
    if level.Created? {
      chain' := LevelAfter(chain, k, step, sl, ok);
      CallsGrow(firstOwn, soFar, w.own, w.s, me, chain, k, step, sl, ok);
      ChainSyncedFurther(w, run, start, synced, me, dir, chain, k, step, sl, ok, mode);
    }
  }

  /** What the way to a level led to it still does. */
  lemma StillLeadsThere(w: Host, prior: seq<Act>, before: State, path: Path)
    requires w.Valid() && w.Passed(prior, before) && IsDir(before.fs, w.root) && Resolve(before.fs, w.root, path, w.hops).At?
    ensures Resolve(w.s.fs, w.root, path, w.hops) == Resolve(before.fs, w.root, path, w.hops)
  {
    w.Since(prior, before);
    w.Invariant();
    OnwardResolves(before, w.s, w.root, path, w.hops);
  }

  /** No path goes on through a level that leads nowhere. */
  lemma LostBelow(fs: FS, root: Ino, dir: Path, k: nat, hops: nat)
    requires k < |dir| && Resolve(fs, root, dir[..k + 1], hops).Lost?
    ensures Resolve(fs, root, dir, hops).Lost?
  {
    assert dir[..k + 1] + dir[k + 1..] == dir;
    WalkSplits(fs.nodes, Live(fs), root, root, dir[..k + 1], dir[k + 1..], hops);
  }

  lemma OneLevelDown(dir: Path, k: nat)
    requires k < |dir|
    ensures dir[..k] + [dir[k]] == dir[..k + 1]
  {
  }

  lemma CallsGrow(firstOwn: seq<Act>, soFar: seq<Act>, own: seq<Act>, s: State, me: Wid, chain: Chain, k: nat, step: seq<Act>, sl: Slot, ok: bool)
    requires soFar == firstOwn + CallsOf(chain, me) && MakesEach(chain, me) && SyncedSettled(chain, s.fs)
    requires MakesLevel(step, me, sl) && (ok ==> Settled(s.fs, sl)) && own == soFar + step + if ok then [SyncEntries(me, sl.dir)] else []
    ensures ChainCalled(firstOwn, own, s, me, LevelAfter(chain, k, step, sl, ok))
  {
    ConcatAssociates(firstOwn, CallsOf(chain, me), step, if ok then [SyncEntries(me, sl.dir)] else []);
  }

  /** Create every missing level of `dir`, outermost first. On success the whole chain is
      there; the levels made by this call are the ones that were missing, each with
      exactly the requested mode; its calls are exactly those that make, chmod and sync
      these levels, in order; and the result is durable exactly when every sync of a
      parent succeeded. */
  method MkdirAllInRoot(w: Host, me: Wid, dir: Path, mode: FileMode) returns (durable: bool, ok: bool, ghost chain: Chain, ghost since: seq<Step>)
    requires w.Valid()
    modifies w
    ensures w.Valid() && w.NoLooks() && WriterOf(w.s, me) == old(WriterOf(w.s, me))
    ensures ok ==> Resolve(w.s.fs, w.root, dir, w.hops).At? && Ledger(old(w.s), w.s, me, MadeIn(chain), mode) && Fits(chain, dir, |dir|)
    ensures ok ==> ChainCalled(old(w.own), w.own, w.s, me, chain)
    ensures ok ==> ChainSynced(old(w.s), old(w.acts), w.Synced(me), me, w.root, dir, w.hops, chain)
    ensures durable ==> ok && forall sl :: sl in MadeIn(chain) ==> Settled(w.s.fs, sl)
    ensures OnlySyncFaults(since) && (ok ==> (durable <==> since == []) && (durable <==> AllSynced(chain)))
    ensures w.faults == old(w.faults) + since + (if ok then [] else [MakeDirectory])
    ensures !ok ==> NotMadeBecause(w, old(w.troubles), old(w.taken), dir)
    ensures since != [] ==> w.troubles > old(w.troubles)
  {
    ghost var run, start, firstOwn, firstFaults := w.acts, w.s, w.own, w.faults;
    durable, ok, chain, since := true, true, NoLevels, [];
    assert dir[..0] == [];
    for k := 0 to |dir|
      invariant w.Valid() && w.Passed(run, start) && ChainMade(w, me, start, firstOwn, dir, k, mode, chain)
      invariant ChainSynced(start, run, w.Synced(me), me, w.root, dir, w.hops, chain)
      invariant w.faults == firstFaults + since && OnlySyncFaults(since)
      invariant (durable <==> since == []) && (durable <==> AllSynced(chain))
      invariant w.NoLooks() && (since != [] ==> w.troubles > old(w.troubles))
    {
      var level, synced;
      level, synced, chain := ChainStep(w, me, dir, k, mode, run, start, firstOwn, chain);
      if level.LevelFailed? {
        return false, false, chain, since;
      }
      durable := durable && synced;
      since := since + if synced then [] else [SyncParent];
    }
    assert dir[..|dir|] == dir;
    if durable {
      AllSettled(chain, w.s.fs);
    }
  }

  /** No level is left to chance: each one that was missing at the start is now a directory
      that this write made, and recorded, or that another write made meanwhile. */
  lemma MissingLevelsWereMade(w: Host, prior: seq<Act>, start: State, me: Wid, dir: Path, k: nat, made: set<Slot>, mode: FileMode)
    requires w.Valid() && w.Passed(prior, start) && IsDir(start.fs, w.root) && k <= |dir|
    requires Resolve(w.s.fs, w.root, dir, w.hops).At? && Ledger(start, w.s, me, made, mode)
    requires Resolve(start.fs, w.root, dir[..k], w.hops).Lost?
    ensures var r := Resolve(w.s.fs, w.root, dir[..k], w.hops);
            && r.At? && r.ino in w.s.made
            && (w.s.made[r.ino] == me ==> exists sl :: sl in made && sl in w.s.fs.bind && w.s.fs.bind[sl] == r.ino)
  {
    ReadLedger(start, w.s, me, made, mode);
    assert dir[..k] + dir[k..] == dir;
    WalkSplits(w.s.fs.nodes, Live(w.s.fs), w.root, w.root, dir[..k], dir[k..], w.hops);
    w.Since(prior, start);
    w.Invariant();
    OnwardResolves(start, w.s, w.root, dir[..k], w.hops);
    var i := Resolve(w.s.fs, w.root, dir[..k], w.hops).ino;
    w.Later(prior, start);
    NewDirectoriesAreMade(w.s0, start, w.acts[|prior|..], i);
    assert !MadeBy(me, start, i) && MadeBy(me, w.s, i) == (w.s.made[i] == me);
  }

  /** What is settled stays settled, whatever others do. */
  lemma StaysSettled(w: Host, prior: seq<Act>, before: State, start: State, me: Wid, chain: Chain, mode: FileMode)
    requires w.Valid() && w.Passed(prior, before) && Ledger(start, before, me, MadeIn(chain), mode) && SyncedSettled(chain, before.fs)
    ensures SyncedSettled(chain, w.s.fs)
  {
    w.Since(prior, before);
    w.Invariant();
    ReadLedger(start, before, me, MadeIn(chain), mode);
    forall sl | sl in MadeIn(chain)
      ensures NonFileLink(before.fs, sl)
    {
      assert MadeAt(before, me, sl, mode);
    }
    ChainStaysSettled(before, w.s, chain);
  }

  lemma {:induction false} ChainStaysSettled(before: State, s: State, chain: Chain)
    requires Onward(before, s) && Sound(s.fs) && SyncedSettled(chain, before.fs)
    requires forall sl :: sl in MadeIn(chain) ==> NonFileLink(before.fs, sl)
    ensures SyncedSettled(chain, s.fs)
  {
    match chain
    case NoLevels =>
    case LevelAfter(earlier, _, _, sl, _) =>
      assert sl in MadeIn(chain) && NonFileLink(before.fs, sl);
      ChainStaysSettled(before, s, earlier);
  }
}
