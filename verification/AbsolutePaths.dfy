/** The absolute-path writes: split the directory at what exists, create the rest below
    it, and hand over to the engine in the opened parent. */
module AbsolutePaths {
  import opened FileSystem
  import opened Publishing
  import opened Interference
  import opened Hosts
  import opened Directories
  import opened Int64
  import opened Staging
  import opened Engine
  import opened Levels

  // ---- stat(2) ----------------------------------------------------------------

  /** A path is there, or its last resolvable component is missing, or it cannot be
      followed: through a file, too many symlinks, no permission. */
  datatype Stat = IsThere(dir: bool) | NotThere | Refused

  function StatWalk(nodes: map<Ino, Node>, look: Slot -> Binding, root: Ino, cur: Ino, path: Path, hops: nat): Stat
    decreases hops, |path|
  {
    if path == [] then IsThere(true) else
    match look(Slot(cur, path[0]))
    case Absent => NotThere
    case Bound(c) =>
      if c !in nodes then NotThere else
      match nodes[c]
      case Dir(_) => StatWalk(nodes, look, root, c, path[1..], hops)
      case Symlink(target) => if hops == 0 then Refused else StatWalk(nodes, look, root, root, target + path[1..], hops - 1)
      case _ => if |path| == 1 then IsThere(false) else Refused
  }

  function StatOf(fs: FS, root: Ino, path: Path, hops: nat): Stat { StatWalk(fs.nodes, Live(fs), root, root, path, hops) }

  /** stat finds a directory exactly where resolution reaches one. */
  lemma {:induction false} StatFindsWhatWalkReaches(nodes: map<Ino, Node>, look: Slot -> Binding, root: Ino, cur: Ino, path: Path, hops: nat)
    ensures StatWalk(nodes, look, root, cur, path, hops) == IsThere(true) <==> Walk(nodes, look, root, cur, path, hops).At?
    decreases hops, |path|
  {
    if path != [] {
      match look(Slot(cur, path[0])) {
        case Absent =>
        case Bound(c) =>
          if c in nodes {
            match nodes[c] {
              case Dir(_) => StatFindsWhatWalkReaches(nodes, look, root, c, path[1..], hops);
              case Symlink(target) =>
                if hops > 0 {
                  StatFindsWhatWalkReaches(nodes, look, root, root, target + path[1..], hops - 1);
                }
              case _ =>
            }
          }
      }
    }
  }

  method StatPath(w: Host, me: Wid, path: Path) returns (st: Stat)
    requires w.Valid()
    modifies w`s, w`acts, w`troubles
    ensures w.Valid() && w.OnlyCalls(me) && Undisturbed(me, old(w.s), w.s)
    ensures st == StatOf(w.s.fs, w.root, path, w.hops) || (st == Refused && w.troubles > old(w.troubles))
    ensures st == IsThere(true) <==> st != Refused && Resolve(w.s.fs, w.root, path, w.hops).At?
  {
    w.Interfere(me);
    StatFindsWhatWalkReaches(w.s.fs.nodes, Live(w.s.fs), w.root, w.root, path, w.hops);
    st := StatOf(w.s.fs, w.root, path, w.hops);
    var broken: bool := *;
    if broken {
      w.troubles := w.troubles + 1;
      st := Refused;
    }
  }

  // ---- The split ---------------------------------------------------------------

  datatype SplitFailure = NotADirectory | StatFailed

  /** `base` is a directory, `rel` the rest of the path, and no level of `rel` is there. */
  ghost predicate Splits(fs: FS, root: Ino, hops: nat, dir: Path, base: Path, rel: Path) {
    && base + rel == dir && StatOf(fs, root, base, hops) == IsThere(true)
    && forall k :: |base| < k <= |dir| ==> StatOf(fs, root, dir[..k], hops) == NotThere
  }

  /** There is one deepest existing directory. */
  lemma SplitsOnce(fs: FS, root: Ino, hops: nat, dir: Path, base: Path, rel: Path, base': Path, rel': Path)
    requires Splits(fs, root, hops, dir, base, rel) && Splits(fs, root, hops, dir, base', rel')
    ensures base == base' && rel == rel'
  {
    assert dir[..|base|] == base && dir[..|base'|] == base';
    assert dir[|base|..] == rel && dir[|base'|..] == rel';
  }

  /** Nothing but the deepest level that is not missing decides the split: with nobody else
      there and no failed call, there is one if and only if that level is a directory, and
      then it is `base`. */
  lemma SplitIffDirectory(fs: FS, root: Ino, hops: nat, dir: Path, base: Path, rel: Path, failure: Option<SplitFailure>)
    requires base + rel == dir && StatOf(fs, root, base, hops) == Found(failure)
    requires forall k :: |base| < k <= |dir| ==> StatOf(fs, root, dir[..k], hops) == NotThere
    ensures failure == None <==> exists b, r :: Splits(fs, root, hops, dir, b, r)
    ensures failure == None ==> Splits(fs, root, hops, dir, base, rel)
  {
    assert failure == None ==> Splits(fs, root, hops, dir, base, rel);
    forall b, r | Splits(fs, root, hops, dir, b, r)
      ensures failure == None
    {
      assert dir[..|b|] == b && dir[..|base|] == base;
    }
  }

  /** Levels missing at a later moment were missing all along. */
  lemma MissingWasMissing(w: Host, prior: seq<Act>, start: State, path: Path)
    requires w.Valid() && w.Passed(prior, start) && IsDir(start.fs, w.root) && Resolve(w.s.fs, w.root, path, w.hops).Lost?
    ensures Resolve(start.fs, w.root, path, w.hops).Lost?
  {
    w.Since(prior, start);
    w.Invariant();
    OnwardResolves(start, w.s, w.root, path, w.hops);
  }

  /** The levels below `cur` were missing when the search began; if nothing has happened
      since, that is what stat says of them now. */
  ghost predicate MissingBelow(w: Host, prior: seq<Act>, start: State, dir: Path, cur: Path)
    reads w
  {
    forall k :: |cur| < k <= |dir| ==>
      && Resolve(start.fs, w.root, dir[..k], w.hops).Lost?
      && (w.acts == prior ==> StatOf(start.fs, w.root, dir[..k], w.hops) == NotThere)
  }

  /** What stat said of the deepest level that is not simply missing. */
  function Found(failure: Option<SplitFailure>): Stat {
    match failure
    case None => IsThere(true)
    case Some(NotADirectory) => IsThere(false)
    case Some(StatFailed) => Refused
  }

  /** Go up until something is there, or cannot be asked for. The root always is. */
  method DeepestExistingDir(w: Host, me: Wid, dir: Path) returns (failure: Option<SplitFailure>, base: Path, rel: Path)
    requires w.Valid()
    modifies w`s, w`acts, w`troubles
    ensures w.Valid() && w.OnlyCalls(me) && Undisturbed(me, old(w.s), w.s)
    ensures base + rel == dir && MissingBelow(w, old(w.acts), old(w.s), dir, base)
    ensures failure == None ==> Resolve(w.s.fs, w.root, base, w.hops).At?
    ensures StatOf(w.s.fs, w.root, base, w.hops) == Found(failure) || (failure == Some(StatFailed) && w.troubles > old(w.troubles))
    ensures failure == None && w.acts == old(w.acts) ==> Splits(w.s.fs, w.root, w.hops, dir, base, rel)
  {
    ghost var prior, start := w.acts, w.s;
    base, rel := dir, [];
    assert Undisturbed(me, start, w.s) by { w.Invariant(); }
    while true
      invariant w.Valid() && w.Passed(prior, start) && Undisturbed(me, start, w.s)
      invariant base + rel == dir && MissingBelow(w, prior, start, dir, base) && w.OnlyCalls(me)
      decreases |base|
    {
      var st := StatPath(w, me, base);
      w.NothingHappened(prior, start);
      match st {
        case IsThere(isDir) =>
          failure := if isDir then None else Some(NotADirectory);
          return;
        case Refused =>
          failure := Some(StatFailed);
          return;
        case NotThere =>
          assert dir[..|base|] == base;
          MissingWasMissing(w, prior, start, base);
          rel := [base[|base| - 1]] + rel;
          base := base[..|base| - 1];
      }
    }
  }

  // ---- Creating what is missing ---------------------------------------------------

  /** A directory that was missing later was missing from the start. */
  lemma LedgerFromTheStart(w: Host, prior: seq<Act>, start: State, from: State, s: State, me: Wid, made: set<Slot>, mode: FileMode)
    requires w.Valid() && w.Passed(prior, start) && w.s == from && Undisturbed(me, start, from) && Ledger(from, s, me, made, mode)
    ensures Ledger(start, s, me, made, mode)
  {
    w.Since(prior, start);
    ReadLedger(from, s, me, made, mode);
    ReadLedger(start, s, me, made, mode);
    forall sl | sl in made
      ensures Vacant(start.fs, sl)
    {
      VacantBefore(start, from, sl);
    }
  }

  /** `rel` is there, as seen from the directory `base`. */
  ghost predicate ThereBelow(w: Host, base: Path, rel: Path)
    reads w
  {
    var b := Resolve(w.s.fs, w.root, base, w.hops);
    b.At? && Resolve(w.s.fs, b.ino, rel, w.hops).At?
  }

  /** `dir` is there in two parts, the second as seen from the first. */
  ghost predicate PartsThere(w: Host, dir: Path)
    reads w
  {
    exists base, rel :: base + rel == dir && ThereBelow(w, base, rel)
  }

  /** So, but that the second part goes through a symlink, which reads otherwise from the
      root of all. */
  ghost predicate PartsThereBySymlink(w: Host, dir: Path)
    reads w
  {
    exists base, rel :: base + rel == dir && ThereBelow(w, base, rel) && Resolve(w.s.fs, Resolve(w.s.fs, w.root, base, w.hops).ino, rel, w.hops).hops < w.hops
  }

  /** A path that follows no symlink leads to the same place inside any root. */
  lemma {:induction false} PlainPathsLeadAlike(nodes: map<Ino, Node>, look: Slot -> Binding, root: Ino, other: Ino, cur: Ino, path: Path, hops: nat, left: nat)
    ensures var r := Walk(nodes, look, root, cur, path, hops);
            r.At? ==> r.hops <= hops && (r.hops == hops ==> Walk(nodes, look, other, cur, path, left) == At(r.ino, left))
    decreases hops, |path|
  {
    if path != [] {
      match look(Slot(cur, path[0]))
      case Absent =>
      case Bound(c) =>
        if c in nodes {
          match nodes[c]
          case Dir(_) => PlainPathsLeadAlike(nodes, look, root, other, c, path[1..], hops, left);
          case Symlink(target) => if hops > 0 { PlainPathsLeadAlike(nodes, look, root, other, root, target + path[1..], hops - 1, left); }
          case _ =>
        }
    }
  }

  /** Parts that are there, when the whole leads nowhere. */
  lemma LostOnlyBySymlink(w: Host, dir: Path)
    requires PartsThere(w, dir) && Resolve(w.s.fs, w.root, dir, w.hops).Lost?
    ensures PartsThereBySymlink(w, dir)
  {
    var base, rel :| base + rel == dir && ThereBelow(w, base, rel);
    var b := Resolve(w.s.fs, w.root, base, w.hops);
    WalkSplits(w.s.fs.nodes, Live(w.s.fs), w.root, w.root, base, rel, w.hops);
    PlainPathsLeadAlike(w.s.fs.nodes, Live(w.s.fs), b.ino, w.root, b.ino, rel, w.hops, b.hops);
  }

  ghost predicate WasThere(s: State, w: Host, dir: Path)
    reads w
  {
    exists base, rel :: base + rel == dir && Resolve(s.fs, w.root, base, w.hops).At? && Resolve(s.fs, Resolve(s.fs, w.root, base, w.hops).ino, rel, w.hops).At?
  }

  lemma PartsStayThere(w: Host, prior: seq<Act>, before: State, dir: Path)
    requires w.Valid() && w.Passed(prior, before) && IsDir(before.fs, w.root) && WasThere(before, w, dir)
    ensures PartsThere(w, dir)
  {
    var base, rel :| base + rel == dir && Resolve(before.fs, w.root, base, w.hops).At? && Resolve(before.fs, Resolve(before.fs, w.root, base, w.hops).ino, rel, w.hops).At?;
    StillLeadsThere(w, prior, before, base);
    w.Since(prior, before);
    w.Invariant();
    OnwardResolves(before, w.s, Resolve(before.fs, w.root, base, w.hops).ino, rel, w.hops);
    assert ThereBelow(w, base, rel);
  }

  /** Why directories are not made below `base`: as for a chain, or what was found there is
      no directory that could be asked. */
  ghost predicate NotMadeBelow(w: Host, troubles: nat, taken: nat, base: Path, rel: Path)
    reads w
  {
    var b := Resolve(w.s.fs, w.root, base, w.hops);
    || w.troubles > troubles || !w.storesModes
    || StatOf(w.s.fs, w.root, base, w.hops) == IsThere(false) || StatOf(w.s.fs, w.root, base, w.hops) == Refused
    || (w.taken > taken && b.At? && Resolve(w.s.fs, b.ino, rel, w.hops).Lost?)
  }

  /** Create every level of `dir` that is missing, inside a root opened on the deepest
      directory that is there. */
  method MkdirAllAbs(w: Host, me: Wid, dir: Path, mode: FileMode)
    returns (dirSyncFailed: bool, ok: bool, ghost base: Path, ghost rel: Path, ghost chain: Chain, ghost since: seq<Step>)
    requires w.Valid()
    modifies w
    ensures w.Valid() && w.NoLooks() && WriterOf(w.s, me) == old(WriterOf(w.s, me))
    ensures base + rel == dir && forall k :: |base| < k <= |dir| ==> Resolve(old(w.s).fs, w.root, dir[..k], w.hops).Lost?
    ensures ok ==> ThereBelow(w, base, rel) && Ledger(old(w.s), w.s, me, MadeIn(chain), mode) && Fits(chain, rel, |rel|)
    ensures ok ==> (dirSyncFailed <==> since != []) && (!dirSyncFailed ==> forall sl :: sl in MadeIn(chain) ==> Settled(w.s.fs, sl))
    ensures OnlySyncFaults(since) && w.faults == old(w.faults) + since + (if ok then [] else [MakeDirectory])
    ensures !ok ==> NotMadeBelow(w, old(w.troubles), old(w.taken), base, rel)
    ensures since != [] ==> w.troubles > old(w.troubles)
  {
    ghost var prior, start := w.acts, w.s;
    chain, since, dirSyncFailed, ok := NoLevels, [], false, false;
    var failure, base', rel' := DeepestExistingDir(w, me, dir);
    base, rel := base', rel';
    if failure.Some? {
      w.Note(MakeDirectory);
      return;
    }
    if rel' == [] {
      ok := true;
      return;
    }
    var refused: bool := *;
    if refused {
      w.Trouble(MakeDirectory);
      return;
    }
    ghost var from, split := w.s, w.acts;
    var inner := new Host.Confined(w, Resolve(w.s.fs, w.root, base', w.hops).ino);
    var durable;
    durable, ok, chain, since := MkdirAllInRoot(inner, me, rel', mode);
    if ok {
      LedgerFromTheStart(w, prior, start, from, inner.s, me, MadeIn(chain), mode);
    }
    w.Rejoin(inner);
    StillLeadsThere(w, split, from, base);
    dirSyncFailed := !durable;
  }

  // ---- The absolute write ----------------------------------------------------------

  function DirOf(path: Path): Path { if path == [] then [] else ParentOf(path) }

  function NameIn(path: Path): Path { if path == [] then [] else [BaseOf(path)] }

  ghost predicate ParentsNotMade(w: Host, troubles: nat, taken: nat, dir: Path)
    reads w
  {
    exists base, rel :: base + rel == dir && NotMadeBelow(w, troubles, taken, base, rel)
  }

  method MakeAbsParents(w: Host, me: Wid, dir: Path, mode: FileMode)
    returns (failure: Option<WriteFailure>, dirSyncFailed: bool, ghost made: set<Slot>, ghost since: seq<Step>)
    requires w.Valid()
    modifies w
    ensures w.Valid() && w.NoLooks() && WriterOf(w.s, me) == old(WriterOf(w.s, me))
    ensures failure == None ==> OnlySyncFaults(since) && (dirSyncFailed <==> since != [])
    ensures failure == None ==> forall sl :: sl in made ==> NonFileLink(w.s.fs, sl) && (!dirSyncFailed ==> Settled(w.s.fs, sl))
    ensures failure == None ==> MadeAreIn(old(w.s), w.s, me, made)
    ensures failure.Some? ==> failure.value.NoParent? && FirstPhase(since) == None && MakeDirectory in since
    ensures w.faults == old(w.faults) + since
    ensures failure.Some? ==> ParentsNotMade(w, old(w.troubles), old(w.taken), dir)
    ensures failure == None ==> PartsThere(w, dir)
  {
    var ok;
    ghost var start, base, rel, chain := w.s, [], [], NoLevels;
    dirSyncFailed, ok, base, rel, chain, since := MkdirAllAbs(w, me, dir, mode);
    made := MadeIn(chain);
    if !ok {
      SyncFaultsHaveNoPhase(since, [MakeDirectory]);
      return Some(NoParent), dirSyncFailed, made, since + [MakeDirectory];
    }
    failure := None;
    ReadLedger(start, w.s, me, made, mode);
    assert forall sl :: sl in made ==> MadeAt(w.s, me, sl, mode);
    assert ThereBelow(w, base, rel);
  }

  /** Why there is no root to write in. */
  ghost predicate NotOpened(w: Host, troubles: nat, taken: nat, looks: seq<Look>, dir: Path, cfg: Config, error: WriteFailure)
    reads w
  {
    match error
    case Cancelled => FoundDone(looks, w.looks)
    case NoParent => cfg.mkdirMode != 0 && ParentsNotMade(w, troubles, taken, dir)
    case WriteError(PhaseTempCreate) =>
      w.troubles > troubles || (Resolve(w.s.fs, w.root, dir, w.hops).Lost? && (cfg.mkdirMode == 0 || PartsThereBySymlink(w, dir)))
    case _ => false
  }

  /** The same, folded. */
  ghost predicate NotOpenedBecause(w: Host, troubles: nat, taken: nat, looks: seq<Look>, dir: Path, cfg: Config, error: WriteFailure)
    reads w
  {
    forall k: nat {:trigger Asked(k)} :: Asked(k) ==> NotOpened(w, troubles, taken, looks, dir, cfg, error)
  }

  lemma ReadNotOpened(w: Host, troubles: nat, taken: nat, looks: seq<Look>, dir: Path, cfg: Config, error: WriteFailure)
    ensures NotOpenedBecause(w, troubles, taken, looks, dir, cfg, error) <==> NotOpened(w, troubles, taken, looks, dir, cfg, error)
  {
    assert Asked(0);
  }

  lemma LostBySymlink(w: Host, prior: seq<Act>, before: State, dir: Path, mode: FileMode)
    requires w.Valid() && w.Passed(prior, before) && IsDir(before.fs, w.root) && (mode != 0 ==> WasThere(before, w, dir))
    ensures Resolve(w.s.fs, w.root, dir, w.hops).Lost? && mode != 0 ==> PartsThereBySymlink(w, dir)
  {
    if mode != 0 && Resolve(w.s.fs, w.root, dir, w.hops).Lost? {
      PartsStayThere(w, prior, before, dir);
      LostOnlyBySymlink(w, dir);
    }
  }

  /** The parent directory, created if that is asked for, opened as a root of its own. */
  method OpenParentRoot(w: Host, me: Wid, path: Path, cfg: Config)
    returns (failure: Option<WriteFailure>, inner: Host?, dirSyncFailed: bool, ghost made: set<Slot>, ghost since: seq<Step>)
    requires w.Valid()
    modifies w
    ensures w.Valid() && w.GoesOn() && WriterOf(w.s, me) == old(WriterOf(w.s, me))
    ensures failure == None ==> inner != null && fresh(inner) && OpenedOn(w, inner, DirOf(path))
    ensures failure == None ==> OnlySyncFaults(since) && (dirSyncFailed <==> since != [])
    ensures failure == None ==> forall sl :: sl in made ==> NonFileLink(w.s.fs, sl) && (!dirSyncFailed ==> Settled(w.s.fs, sl))
    ensures failure == None ==> RecordsLevels(old(w.s), w.s, me, w.root, DirOf(path), w.hops, made)
    ensures failure.Some? ==> Blames(failure, since) && Excused(failure.value, since, [], cfg) && !IsRefusal(failure.value)
    ensures w.faults == old(w.faults) + since && (cfg.mkdirMode == 0 ==> w.own == old(w.own) && made == {})
    ensures failure.Some? ==> NotOpenedBecause(w, old(w.troubles), old(w.taken), old(w.looks), DirOf(path), cfg, failure.value)
    ensures w.looks == old(w.looks) + [Look(MomentOf(WriterOf(old(w.s), me)), failure == Some(Cancelled))]
  {
    ghost var troubles, taken, looks := w.troubles, w.taken, w.looks;
    var done := w.IsDone(me);
    if done {
      w.Note(ContextDone);
      failure, inner, dirSyncFailed, made, since := Some(Cancelled), null, false, {}, [ContextDone];
      ReadNotOpened(w, troubles, taken, looks, DirOf(path), cfg, failure.value);
      return;
    }
    failure, inner, dirSyncFailed, made, since := MakeAndOpen(w, me, DirOf(path), cfg);
    if failure.Some? {
      ReadNotOpened(w, troubles, taken, looks, DirOf(path), cfg, failure.value);
    }
  }

  /** The same once the context was found not done. */
  method MakeAndOpen(w: Host, me: Wid, dir: Path, cfg: Config)
    returns (failure: Option<WriteFailure>, inner: Host?, dirSyncFailed: bool, ghost made: set<Slot>, ghost since: seq<Step>)
    requires w.Valid()
    modifies w
    ensures w.Valid() && w.NoLooks() && WriterOf(w.s, me) == old(WriterOf(w.s, me))
    ensures failure == None ==> inner != null && fresh(inner) && OpenedOn(w, inner, dir)
    ensures failure == None ==> OnlySyncFaults(since) && (dirSyncFailed <==> since != [])
    ensures failure == None ==> forall sl :: sl in made ==> NonFileLink(w.s.fs, sl) && (!dirSyncFailed ==> Settled(w.s.fs, sl))
    ensures failure == None ==> RecordsLevels(old(w.s), w.s, me, w.root, dir, w.hops, made)
    ensures failure.Some? ==> Blames(failure, since) && (failure.value.NoParent? || failure.value == WriteError(PhaseTempCreate)) && Excused(failure.value, since, [], cfg)
    ensures w.faults == old(w.faults) + since && (cfg.mkdirMode == 0 ==> w.own == old(w.own) && made == {})
    ensures failure.Some? ==> NotOpened(w, old(w.troubles), old(w.taken), [], dir, cfg, failure.value)
  {
    ghost var first, start := w.acts, w.s;
    failure, inner, dirSyncFailed, made, since := None, null, false, {}, [];
    if cfg.mkdirMode != 0 {
      failure, dirSyncFailed, made, since := MakeAbsParents(w, me, dir, cfg.mkdirMode);
      if failure.Some? {
        return;
      }
    }
    inner := OpenRoot(w, me, dir, first, start, made, dirSyncFailed, cfg.mkdirMode);
    if inner == null {
      SyncFaultsHaveNoPhase(since, [OpenParent]);
      failure, since := Some(WriteError(PhaseTempCreate)), since + [OpenParent];
    }
  }

  /** Open a directory as a root; by then the levels made on the way to it are recorded. */
  method OpenRoot(w: Host, me: Wid, dir: Path, ghost first: seq<Act>, ghost start: State, ghost made: set<Slot>, ghost dirSyncFailed: bool, ghost mode: FileMode)
    returns (inner: Host?)
    requires w.Valid() && w.Passed(first, start) && MadeAreIn(start, w.s, me, made)
    requires forall sl :: sl in made ==> NonFileLink(w.s.fs, sl) && (!dirSyncFailed ==> Settled(w.s.fs, sl))
    requires mode != 0 ==> PartsThere(w, dir)
    modifies w
    ensures w.Valid() && w.OnlyCalls(me) && w.own == old(w.own) && WriterOf(w.s, me) == old(WriterOf(w.s, me))
    ensures inner != null ==> fresh(inner) && OpenedOn(w, inner, dir) && w.faults == old(w.faults)
    ensures RecordsLevels(start, w.s, me, w.root, dir, w.hops, made)
    ensures inner == null ==> w.faults == old(w.faults) + [OpenParent]
    ensures inner == null ==> w.troubles > old(w.troubles) || (Resolve(w.s.fs, w.root, dir, w.hops).Lost? && (mode == 0 || PartsThereBySymlink(w, dir)))
    ensures forall sl :: sl in made ==> NonFileLink(w.s.fs, sl) && (!dirSyncFailed ==> Settled(w.s.fs, sl))
  {
    ghost var prior, before := w.acts, w.s;
    w.Interfere(me);
    MadeStay(w, prior, before, made, dirSyncFailed);
    StayMade(w, prior, before, start, me, made);
    RecordNow(w, first, start, me, dir, made);
    var d := Resolve(w.s.fs, w.root, dir, w.hops);
    if d.Lost? {
      LostBySymlink(w, prior, before, dir, mode);
      w.Note(OpenParent);
      return null;
    }
    var refused: bool := *;
    if refused {
      w.Trouble(OpenParent);
      return null;
    }
    assert IsDir(w.s.fs, d.ino);
    inner := new Host.Confined(w, d.ino);
  }

  /** The same system and moment, seen from the directory `dir`. */
  ghost predicate OpenedOn(w: Host, inner: Host, dir: Path)
    reads w, inner
  {
    var d := Resolve(w.s.fs, w.root, dir, w.hops);
    && d.At? && inner.Valid() && inner.root == d.ino && inner.hops == w.hops
    && inner.s0 == w.s0 && inner.s == w.s && inner.SameLogs(w) && inner.storesModes == w.storesModes
  }

  lemma StayMade(w: Host, prior: seq<Act>, before: State, start: State, me: Wid, made: set<Slot>)
    requires w.Valid() && w.Passed(prior, before) && MadeAreIn(start, before, me, made) && Undisturbed(me, before, w.s)
    requires forall sl :: sl in made ==> NonFileLink(before.fs, sl)
    ensures MadeAreIn(start, w.s, me, made)
  {
    w.Since(prior, before);
    forall i | MadeBy(me, w.s, i) && !MadeBy(me, start, i)
      ensures exists sl :: sl in made && sl in w.s.fs.bind && w.s.fs.bind[sl] == i
    {
      assert MadeBy(me, before, i);
      var sl :| sl in made && sl in before.fs.bind && before.fs.bind[sl] == i;
      assert NonFileLink(before.fs, sl) && w.s.fs.bind[sl] == i;
    }
  }

  /** What the engine met in the opened parent, told from outside. */
  lemma WarrantedOutside(w: Host, inner: Host, troubles: nat, taken: nat, looks: seq<Look>, path: Path, cfg: Config, unable: bool, error: WriteFailure)
    requires inner.s == w.s && inner.SameLogs(w) && inner.storesModes == w.storesModes && inner.hops == w.hops
    requires var d := Resolve(w.s.fs, w.root, DirOf(path), w.hops); d.At? && d.ino == inner.root
    requires Warranted(inner, troubles, taken, looks, NameIn(path), cfg, unable, error)
    ensures Warranted(w, troubles, taken, looks, path, cfg, unable, error)
  {
    ReadWarranted(inner, troubles, taken, looks, NameIn(path), cfg, unable, error);
    assert path != [] ==> ParentOf(NameIn(path)) == [] && BaseOf(NameIn(path)) == BaseOf(path);
    assert Resolve(inner.s.fs, inner.root, [], inner.hops) == At(inner.root, inner.hops);
    ReadWarranted(w, troubles, taken, looks, path, cfg, unable, error);
  }

  /** The engine in the opened parent, told from outside: `first` are the levels made on
      the way to it, `opening` the syncs of those that failed. */
  method WriteBeneath(w: Host, inner: Host, me: Wid, path: Path, cfg: Config, payload: Payload, dirSyncFailed: bool,
                      ghost run: seq<Act>, ghost start: State, ghost first: set<Slot>, ghost opening: seq<Step>)
    returns (r: Outcome, ghost p: Publication, ghost made: set<Slot>, ghost rest: seq<Step>)
    requires w.Valid() && inner != w && OpenedOn(w, inner, DirOf(path))
    requires WriterOf(w.s, me).Idle? && PlainName(path) && cfg.maxBytes <= MAX_INT64 && FitsMemory(payload)
    requires OnlySyncFaults(opening) && (dirSyncFailed <==> opening != [])
    requires forall sl :: sl in first ==> NonFileLink(w.s.fs, sl) && (!dirSyncFailed ==> Settled(w.s.fs, sl))
    requires w.Passed(run, start) && IsDir(start.fs, w.root) && RecordsLevels(start, w.s, me, w.root, DirOf(path), w.hops, first)
    modifies w, inner
    ensures w.Valid() && w.GoesOn()
    ensures r.Success? ==> NamesAnEntry(path) && Delivered(w.s, w.root, w.hops, start, me, path, ContentOf(payload), cfg, r.durable, p, first + made, opening + rest)
    ensures r.Failure? ==> Undone(w.s, me, ContentOf(payload), cfg, r.error, opening + rest)
    ensures r.Failure? ==> RefusedFor(r.error, w.s, w.root, w.hops, path)
    ensures w.faults == old(w.faults) + rest && Blames(if r.Failure? then Some(r.error) else None, opening + rest)
    ensures r.Failure? ==> Warranted(w, old(w.troubles), old(w.taken), old(w.looks), path, cfg, Unable(payload, cfg.maxBytes), r.error)
    ensures SourceFails(payload) ==> r.Failure?
    ensures r.Success? ==> w.looks == old(w.looks) + LooksOf(payload)
  {
    ghost var prior, before, troubles, taken, looks := w.acts, w.s, w.troubles, w.taken, w.looks;
    r, p, made, rest := WriteAtomicInRoot(inner, me, NameIn(path), cfg, payload);
    w.Rejoin(inner);
    StillLeadsThere(w, prior, before, DirOf(path));
    if r.Failure? { WarrantedOutside(w, inner, troubles, taken, looks, path, cfg, Unable(payload, cfg.maxBytes), r.error); }
    OpeningChangesNoVerdict(w.s, me, ContentOf(payload), cfg, r, opening, rest);
    if r.Success? {
      RecordStays(w, prior, before, start, me, DirOf(path), first);
      r := Success(r.durable && !dirSyncFailed);
      if r.durable {
        MadeStay(w, prior, before, first, dirSyncFailed);
        DeliveredDurably(w, run, start, me, DirOf(path), p, first + made);
      }
    }
  }

  /** An absolute write. Its verdict also counts the directories made on the way. */
  method WriteAtomic(w: Host, me: Wid, path: Path, cfg: Config, payload: Payload)
    returns (r: Outcome, ghost p: Publication, ghost made: set<Slot>, ghost since: seq<Step>)
    requires w.Valid() && WriterOf(w.s, me).Idle? && PlainName(path) && cfg.maxBytes <= MAX_INT64 && FitsMemory(payload)
    modifies w
    ensures w.Valid() && w.GoesOn()
    ensures r.Success? ==> NamesAnEntry(path) && Delivered(w.s, w.root, w.hops, old(w.s), me, path, ContentOf(payload), cfg, r.durable, p, made, since)
    ensures r.Failure? ==> Undone(w.s, me, ContentOf(payload), cfg, r.error, since)
    ensures r.Failure? ==> RefusedFor(r.error, w.s, w.root, w.hops, path)
    ensures w.faults == old(w.faults) + since && Blames(if r.Failure? then Some(r.error) else None, since)
    ensures r.Failure? ==>
              || NotOpenedBecause(w, old(w.troubles), old(w.taken), old(w.looks), DirOf(path), cfg, r.error)
              || Warranted(w, old(w.troubles), old(w.taken), old(w.looks), path, cfg, Unable(payload, cfg.maxBytes), r.error)
    ensures SourceFails(payload) ==> r.Failure?
    ensures r.Success? ==> w.looks == old(w.looks) + [Look(AtFirst, false)] + LooksOf(payload)
  {
    p := Publication(me, Slot(w.root, ""), w.root, [], None);
    ghost var run, start, troubles, taken, looks := w.acts, w.s, w.troubles, w.taken, w.looks;
    var failure, inner, dirSyncFailed;
    failure, inner, dirSyncFailed, made, since := OpenParentRoot(w, me, path, cfg);
    if failure.Some? {
      AbandonedNeverPublished(w, me);
      return Failure(failure.value), p, made, since;
    }
    ghost var more, rest, t, k, l := {}, [], w.troubles, w.taken, w.looks;
    r, p, more, rest := WriteBeneath(w, inner, me, path, cfg, payload, dirSyncFailed, run, start, made, since);
    if r.Failure? { WarrantedEarlier(w, troubles, taken, looks, t, k, l, path, cfg, Unable(payload, cfg.maxBytes), r.error); }
    made, since := made + more, since + rest;
  }
}
