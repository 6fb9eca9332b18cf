/** The write engine: preamble, staging, temp-side barrier, rename, directory sync. */
module Engine {
  import opened FileSystem
  import opened Modes
  import opened TempNames
  import opened Publishing
  import opened Interference
  import opened Hosts
  import opened Int64
  import opened Staging
  import opened Directories
  import opened Syncs
  import opened Levels

  /** `mkdirMode == 0` leaves a missing parent an error; `maxBytes <= 0` means no cap. */
  datatype Config = Config(mode: Option<FileMode>, mkdirMode: FileMode, maxBytes: int)

  datatype WritePhase = PhaseTempCreate | PhaseTempWrite | PhaseTempChmod | PhaseTempSync | PhaseTempClose | PhaseRename

  datatype WriteFailure =
    | UnsafePath | Cancelled | TargetUnreadable | SymlinkTarget | NotRegular | NoParent
    | StagedUnreadable | FileTooLarge | Aborted
    | WriteError(phase: WritePhase)

  /** What refuses a write before anything has gone wrong. */
  predicate IsRefusal(f: WriteFailure) { f.UnsafePath? || f.SymlinkTarget? || f.NotRegular? }

  datatype Outcome = Success(durable: bool) | Failure(error: WriteFailure)

  const MAX_COLLISIONS: nat := 10000

  /** The phase a failed step is reported under, if it is reported as a write error. */
  function PhaseOf(step: Step): Option<WritePhase> {
    match step
    case OpenParent => Some(PhaseTempCreate)
    case CreateTemp => Some(PhaseTempCreate)
    case ProveOwnerOnly => Some(PhaseTempCreate)
    case WriteData => Some(PhaseTempWrite)
    case ProveMode => Some(PhaseTempChmod)
    case SyncTemp => Some(PhaseTempSync)
    case CloseTemp => Some(PhaseTempClose)
    case RenameTemp => Some(PhaseRename)
    case _ => None
  }

  /** The phase of the first failed step that has one. */
  function FirstPhase(faults: seq<Step>): Option<WritePhase> {
    if faults == [] then None else
    if PhaseOf(faults[0]).Some? then PhaseOf(faults[0]) else FirstPhase(faults[1..])
  }

  lemma {:induction false} FirstPhaseSplits(a: seq<Step>, b: seq<Step>)
    ensures FirstPhase(a + b) == if FirstPhase(a).Some? then FirstPhase(a) else FirstPhase(b)
  {
    if a == [] {
      assert a + b == b;
    } else {
      assert (a + b)[1..] == a[1..] + b;
      FirstPhaseSplits(a[1..], b);
    }
  }

  /** The write of `me` is over without a publication, and its handle is closed. */
  ghost predicate Abandoned(wr: Writer) { wr.Idle? || wr.Gone? || wr.Dropped? || (wr.Sealed? && !wr.open) }

  /** How an abandoned write leaves its temp: unlinked, unless the removal itself failed. */
  ghost predicate TempRemoved(wr: Writer, since: seq<Step>) {
    wr.Idle? || wr.Gone? || (since != [] && since[|since| - 1] == RemoveTemp)
  }

  ghost predicate Proved(w: Host, me: Wid, want: Option<FileMode>)
    requires w.Open(me)
    reads w
  {
    want.Some? ==> ChmodBits(w.Mode(me)) == ChmodBits(want.value)
  }

  /** chmod(2) then fstat(2) on the open handle: success means the mode is stored. */
  method EnforceMode(w: Host, me: Wid, mode: FileMode, step: Step) returns (ok: bool)
    requires w.Valid() && w.Open(me)
    modifies w
    ensures w.Valid() && w.OnlyCalls(me) && w.Open(me) && w.s.writers[me] == old(w.s.writers[me])
    ensures w.Data(me) == old(w.Data(me)) && (ok ==> ChmodBits(w.Mode(me)) == ChmodBits(mode))
    ensures w.faults == old(w.faults) + if ok then [] else [step]
    ensures !ok ==> w.troubles > old(w.troubles) || (!w.storesModes && ChmodBits(w.Mode(me)) != ChmodBits(mode))
  {
    ok := w.Fchmod(me, mode, step);
    if !ok {
      return;
    }
    var stat := w.Fstat(me, step);
    if stat.None? {
      return false;
    }
    ok := ChmodBits(stat.value.1) == ChmodBits(mode);
    if !ok {
      w.Note(step);
    }
  }

  /** Why there is no temp: a call failed, its directory is not there, 10001 drawn names in a
      row were taken, or a demanded mode cannot be stored. */
  ghost predicate NoTempBecause(w: Host, troubles: nat, taken: nat, dir: Path, cfg: Config)
    reads w
  {
    || w.troubles > troubles || Resolve(w.s.fs, w.root, dir, w.hops).Lost?
    || w.taken >= taken + 10001 || (cfg.mode.Some? && !w.storesModes)
  }

  /** Stage an exclusive temp beside the target. Under a demanded mode it is proved
      owner-only before any byte can go into it. */
  method CreateTempInRoot(w: Host, me: Wid, dir: Path, cfg: Config) returns (ok: bool, ghost draws: nat)
    requires w.Valid() && WriterOf(w.s, me).Idle?
    modifies w
    ensures w.Valid() && w.OnlyCalls(me) && 0 < draws <= 10001
    ensures ok ==> RecordsLevels(old(w.s), w.s, me, w.root, dir, w.hops, {})
    ensures ok ==> w.StagesIn(me, dir, cfg.mode) && w.Data(me) == [] && w.Private(me)
    ensures ok ==> w.faults == old(w.faults)
    ensures !ok ==> Abandoned(WriterOf(w.s, me)) && old(w.faults) < w.faults
                    && PhaseOf(w.faults[|old(w.faults)|]) == Some(PhaseTempCreate)
                    && TempRemoved(WriterOf(w.s, me), w.faults[|old(w.faults)|..])
    ensures !ok ==> NoTempBecause(w, old(w.troubles), old(w.taken), dir, cfg)
  {
    ghost var run, start := w.acts, w.s;
    draws := 0;
    for try := 0 to MAX_COLLISIONS + 1
      invariant w.Valid() && w.OnlyCalls(me) && WriterOf(w.s, me).Idle? && w.faults == old(w.faults) && draws == try
      invariant w.taken >= old(w.taken) + try
      invariant forall i :: MadeBy(me, w.s, i) <==> MadeBy(me, start, i)
    {
      var draw: nat :| draw < TWO_TO_THE_64;
      draws := draws + 1;
      DrawsAreRecognisedAndDistinct(draw, draw);
      var created := w.CreateExcl(me, dir, TempName(draw), cfg.mode);
      if created.MadeTemp? {
        RecordNow(w, run, start, me, dir, {});
        ok := ProveOwnerOnlyTemp(w, me, dir, cfg, start, {});
        return;
      }
      if created.CreateFailed? {
        return false, draws;
      }
    }
    w.Note(CreateTemp);
    return false, draws;
  }

  /** Under a demanded mode the fresh temp is proved owner-only, or closed and removed. */
  method ProveOwnerOnlyTemp(w: Host, me: Wid, dir: Path, cfg: Config, ghost start: State, ghost made: set<Slot>) returns (ok: bool)
    requires w.Valid() && w.StagesIn(me, dir, cfg.mode) && w.Data(me) == [] && RecordsLevels(start, w.s, me, w.root, dir, w.hops, made)
    modifies w
    ensures w.Valid() && w.OnlyCalls(me)
    ensures ok ==> w.StagesIn(me, dir, cfg.mode) && w.Data(me) == [] && w.Private(me)
    ensures ok ==> w.faults == old(w.faults) && RecordsLevels(start, w.s, me, w.root, dir, w.hops, made)
    ensures !ok ==> Abandoned(WriterOf(w.s, me)) && old(w.faults) < w.faults
                    && w.faults[|old(w.faults)|] == ProveOwnerOnly && TempRemoved(WriterOf(w.s, me), w.faults[|old(w.faults)|..])
    ensures !ok ==> w.troubles > old(w.troubles) || (cfg.mode.Some? && !w.storesModes)
  {
    if cfg.mode.None? {
      return true;
    }
    ghost var prior, before := w.acts, w.s;
    ok := EnforceMode(w, me, OWNER_ONLY, ProveOwnerOnly);
    OwnerOnlyMeans(w.Mode(me));
    if ok {
      StillLeadsThere(w, prior, before, dir);
      RecordStays(w, prior, before, start, me, dir, made);
    } else {
      var _ := w.CloseHandle(me, false);
      var _ := w.Remove(me);
    }
  }

  /** The levels of the path this write has made are recorded, and stay so. */
  lemma RecordNow(w: Host, prior: seq<Act>, start: State, me: Wid, path: Path, made: set<Slot>)
    requires w.Valid() && w.Passed(prior, start) && MadeAreIn(start, w.s, me, made)
    ensures RecordsLevels(start, w.s, me, w.root, path, w.hops, made)
  {
    w.Later(prior, start);
    LevelsAreRecorded(w.s0, start, w.acts[|prior|..], me, w.root, path, w.hops, made);
  }

  lemma RecordStays(w: Host, prior: seq<Act>, before: State, start: State, me: Wid, path: Path, made: set<Slot>)
    requires w.Valid() && w.Passed(prior, before) && IsDir(before.fs, w.root) && Resolve(before.fs, w.root, path, w.hops).At?
    requires RecordsLevels(start, before, me, w.root, path, w.hops, made)
    ensures RecordsLevels(start, w.s, me, w.root, path, w.hops, made)
  {
    w.Later(prior, before);
    RecordStands(w.s0, start, before, w.acts[|prior|..], me, w.root, path, w.hops, made);
  }

  // ---- The preamble ---------------------------------------------------------

  /** A rename onto `base` in `dir`, should the directory exist, can replace nothing but a
      regular file. */
  ghost predicate TargetSafe(s: State, root: Ino, hops: nat, dir: Path, base: Name) {
    var d := Resolve(s.fs, root, dir, hops);
    d.At? && NonFileLink(s.fs, Slot(d.ino, base)) ==> IsDir(s.fs, s.fs.bind[Slot(d.ino, base)])
  }

  method CheckWriteTargetInRoot(w: Host, me: Wid, dir: Path, base: Name) returns (refusal: Option<WriteFailure>)
    requires w.Valid()
    modifies w
    ensures w.Valid() && w.OnlyCalls(me) && Undisturbed(me, old(w.s), w.s)
    ensures refusal.None? ==> TargetSafe(w.s, w.root, w.hops, dir, base)
    ensures refusal.None? ==> var d := Resolve(w.s.fs, w.root, dir, w.hops); d.At? ==> !NonFileLink(w.s.fs, Slot(d.ino, base))
    ensures w.own == old(w.own) && (refusal == Some(TargetUnreadable) ==> w.troubles > old(w.troubles))
    ensures refusal.Some? ==> refusal.value.SymlinkTarget? || refusal.value.NotRegular? || refusal.value.TargetUnreadable?
    ensures var d := Resolve(w.s.fs, w.root, dir, w.hops);
            && (refusal == Some(SymlinkTarget) ==> d.At? && IsSymlink(w.s.fs, Slot(d.ino, base)))
            && (refusal == Some(NotRegular) ==> d.At? && NonFileLink(w.s.fs, Slot(d.ino, base)) && !IsSymlink(w.s.fs, Slot(d.ino, base)))
    ensures w.faults == old(w.faults) + if refusal == Some(TargetUnreadable) then [InspectTarget] else []
  {
    var kind := w.Lstat(me, dir, base);
    match kind
    case Missing => return None;
    case Regular => return None;
    case Link => return Some(SymlinkTarget);
    case Other => return Some(NotRegular);
    case LstatFailed => return Some(TargetUnreadable);
  }

  /** The refusal of symlinks and special files stays good until the rename, even if the
      parent directory was still missing at the check. */
  lemma TargetStaysSafe(w: Host, prior: seq<Act>, before: State, dir: Path, base: Name)
    requires w.Valid() && w.Passed(prior, before) && IsDir(before.fs, w.root) && TargetSafe(before, w.root, w.hops, dir, base)
    ensures TargetSafe(w.s, w.root, w.hops, dir, base)
  {
    w.Since(prior, before);
    w.Invariant();
    OnwardResolves(before, w.s, w.root, dir, w.hops);
  }

  /** The cleaned relative name, split: everything but the last component, and it. */
  function ParentOf(name: Path): Path requires name != [] { name[..|name| - 1] }

  function BaseOf(name: Path): Name requires name != [] { name[|name| - 1] }

  lemma ParentAndBaseJoin(name: Path)
    requires name != []
    ensures ParentOf(name) + [BaseOf(name)] == name
  {
  }

  /** The last component has not the shape of a temp name. */
  predicate PlainName(name: Path) { name == [] || !IsTempName(BaseOf(name)) }

  /** Guard, check the target, create the parents - in that order. */
  method PrepareTarget(w: Host, me: Wid, name: Path, cfg: Config)
    returns (failure: Option<WriteFailure>, dirSyncFailed: bool, ghost made: set<Slot>, ghost since: seq<Step>)
    requires w.Valid()
    modifies w
    ensures w.Valid() && w.GoesOn() && WriterOf(w.s, me) == old(WriterOf(w.s, me))
    ensures failure.None? ==> NamesAnEntry(name) && TargetSafe(w.s, w.root, w.hops, ParentOf(name), BaseOf(name))
    ensures failure.None? && cfg.mkdirMode != 0 ==>
              Resolve(w.s.fs, w.root, ParentOf(name), w.hops).At? && RecordsLevels(old(w.s), w.s, me, w.root, ParentOf(name), w.hops, made)
    ensures cfg.mkdirMode == 0 ==> made == {} && forall i :: MadeBy(me, w.s, i) <==> MadeBy(me, old(w.s), i)
    ensures failure.None? ==> LevelsSynced(old(w.s).fs, old(w.Synced(me)), w.Synced(me), w.root, ParentOf(name), w.hops, made, !dirSyncFailed)
    ensures failure.None? ==> OnlySyncFaults(since) && (dirSyncFailed <==> since != [])
    ensures failure.None? ==> forall sl :: sl in made ==> NonFileLink(w.s.fs, sl) && (!dirSyncFailed ==> Settled(w.s.fs, sl))
    ensures failure.Some? ==> !failure.value.WriteError? && FirstPhase(since) == None && Excused(failure.value, since, [], cfg)
    ensures !NamesAnEntry(name) ==> failure == Some(UnsafePath)
    ensures failure.Some? ==> RefusedFor(failure.value, w.s, w.root, w.hops, name)
    ensures w.faults == old(w.faults) + since && (failure.Some? && failure != Some(NoParent) ==> w.own == old(w.own))
    ensures failure.Some? ==> Warranted(w, old(w.troubles), old(w.taken), old(w.looks), name, cfg, false, failure.value)
    ensures w.looks == old(w.looks) + FirstLook(name, me, w.s, failure)
  {
    dirSyncFailed, made := false, {};
    ghost var first, start, troubles, taken, looks := w.acts, w.s, w.troubles, w.taken, w.looks;
    failure, since := MayWrite(w, me, name, cfg);
    if failure.None? && cfg.mkdirMode != 0 {
      ghost var prior, before, synced := w.acts, w.s, w.Synced(me);
      failure, dirSyncFailed, made, since := MakeParents(w, me, ParentOf(name), BaseOf(name), cfg);
      if failure.None? {
        MadeSinceEarlier(w, first, start, prior, before, ParentOf(name), synced, w.Synced(me), made, !dirSyncFailed);
      } else {
        ReadWarranted(w, troubles, taken, looks, name, cfg, false, NoParent);
      }
    }
  }

  lemma MadeSinceEarlier(w: Host, first: seq<Act>, start: State, prior: seq<Act>, before: State, path: Path,
                         synced: seq<Ino>, now: seq<Ino>, made: set<Slot>, all: bool)
    requires w.Valid() && w.Passed(first, start) && w.Passed(prior, before) && first <= prior && IsDir(start.fs, w.root)
    requires LevelsSynced(before.fs, synced, now, w.root, path, w.hops, made, all)
    ensures LevelsSynced(start.fs, synced, now, w.root, path, w.hops, made, all)
  {
    PassedBefore(w, first, start, prior, before);
    w.Since(first, start);
    w.Since(prior, before);
    ReadLevelsSynced(before.fs, synced, now, w.root, path, w.hops, made, all);
    DeepestBefore(start, before, w.root, path, w.hops, made);
    ReadLevelsSynced(start.fs, synced, now, w.root, path, w.hops, made, all);
  }

  /** The guard on the name, the context, and what is there already. */
  method MayWrite(w: Host, me: Wid, name: Path, cfg: Config) returns (failure: Option<WriteFailure>, ghost since: seq<Step>)
    requires w.Valid()
    modifies w
    ensures w.Valid() && w.SyncsNothing(me) && Undisturbed(me, old(w.s), w.s)
    ensures failure.None? ==> NamesAnEntry(name) && TargetSafe(w.s, w.root, w.hops, ParentOf(name), BaseOf(name)) && since == []
    ensures failure.Some? ==> !failure.value.WriteError? && FirstPhase(since) == None && Excused(failure.value, since, [], cfg)
    ensures failure.Some? ==> RefusedFor(failure.value, w.s, w.root, w.hops, name)
    ensures failure == Some(UnsafePath) <==> name == [] || BaseOf(name) == "" || BaseOf(name) == "." || BaseOf(name) == ".."
    ensures w.faults == old(w.faults) + since && w.own == old(w.own)
    ensures failure.Some? ==> Warranted(w, old(w.troubles), old(w.taken), old(w.looks), name, cfg, false, failure.value)
    ensures w.looks == old(w.looks) + FirstLook(name, me, w.s, failure)
  {
    since := [];
    ghost var troubles, taken, looks := w.troubles, w.taken, w.looks;
    assert Undisturbed(me, w.s, w.s) by { w.Invariant(); }
    if !NamesAnEntry(name) {
      ReadWarranted(w, troubles, taken, looks, name, cfg, false, UnsafePath);
      return Some(UnsafePath), since;
    }
    var done := w.IsDone(me);
    if done {
      w.Note(ContextDone);
      ReadWarranted(w, troubles, taken, looks, name, cfg, false, Cancelled);
      return Some(Cancelled), [ContextDone];
    }
    failure := CheckWriteTargetInRoot(w, me, ParentOf(name), BaseOf(name));
    if failure == Some(TargetUnreadable) {
      since := [InspectTarget];
    }
    if failure.Some? { ReadWarranted(w, troubles, taken, looks, name, cfg, false, failure.value); }
  }

  /** The one look at the context before anything is touched. */
  function FirstLook(name: Path, me: Wid, s: State, failure: Option<WriteFailure>): seq<Look> {
    if NamesAnEntry(name) then [Look(MomentOf(WriterOf(s, me)), failure == Some(Cancelled))] else []
  }

  /** Why a write may fail with this error, told by what its calls met: since the counts
      given, a call failed though nothing stood in its way, or else something did. `unable`
      says that the data step had a reason of its own. (`RefusedFor` and `Excused` say what a
      refusal and a size over the cap mean.) */
  ghost predicate WarrantedBy(w: Host, troubles: nat, taken: nat, looks: seq<Look>, name: Path, cfg: Config, unable: bool, error: WriteFailure)
    reads w
  {
    if name == [] then error.UnsafePath? else
    match error
    case UnsafePath => true
    case SymlinkTarget => true
    case NotRegular => true
    case FileTooLarge => true
    case Aborted => false
    case Cancelled => FoundDone(looks, w.looks)
    case NoParent => cfg.mkdirMode != 0 && NotMadeBecause(w, troubles, taken, ParentOf(name))
    case TargetUnreadable => w.troubles > troubles
    case StagedUnreadable => w.troubles > troubles
    case WriteError(phase) =>
      || w.troubles > troubles
      || match phase
         case PhaseTempCreate => NoTempBecause(w, troubles, taken, ParentOf(name), cfg) && (cfg.mkdirMode != 0 ==> Resolve(w.s.fs, w.root, ParentOf(name), w.hops).At?)
         case PhaseTempWrite => unable || FoundDone(looks, w.looks)
         case PhaseTempChmod => cfg.mode.Some? && !w.storesModes
         case PhaseRename => DirectoryInTheWay(w, name)
         case _ => false
  }

  /** The same, folded: most methods only pass it on. */
  ghost predicate Warranted(w: Host, troubles: nat, taken: nat, looks: seq<Look>, name: Path, cfg: Config, unable: bool, error: WriteFailure)
    reads w
  {
    forall k: nat {:trigger Asked(k)} :: Asked(k) ==> WarrantedBy(w, troubles, taken, looks, name, cfg, unable, error)
  }

  lemma ReadWarranted(w: Host, troubles: nat, taken: nat, looks: seq<Look>, name: Path, cfg: Config, unable: bool, error: WriteFailure)
    ensures Warranted(w, troubles, taken, looks, name, cfg, unable, error) <==> WarrantedBy(w, troubles, taken, looks, name, cfg, unable, error)
  {
    assert Asked(0);
  }

  /** What warrants a failure since some moment warrants it since any earlier one. */
  lemma WarrantedEarlier(w: Host, troubles: nat, taken: nat, looks: seq<Look>, t: nat, k: nat, l: seq<Look>, name: Path, cfg: Config, unable: bool, error: WriteFailure)
    requires Warranted(w, t, k, l, name, cfg, unable, error) && troubles <= t && taken <= k && looks <= l
    ensures Warranted(w, troubles, taken, looks, name, cfg, unable, error)
  {
    ReadWarranted(w, t, k, l, name, cfg, unable, error);
    ReadWarranted(w, troubles, taken, looks, name, cfg, unable, error);
  }

  lemma RenameIsWarranted(w: Host, troubles: nat, taken: nat, looks: seq<Look>, name: Path, cfg: Config, unable: bool)
    requires name != [] && (w.troubles > troubles || DirectoryInTheWay(w, name))
    ensures Warranted(w, troubles, taken, looks, name, cfg, unable, WriteError(PhaseRename))
  {
    ReadWarranted(w, troubles, taken, looks, name, cfg, unable, WriteError(PhaseRename));
  }

  lemma UnableChangesNothing(w: Host, troubles: nat, taken: nat, looks: seq<Look>, name: Path, cfg: Config, unable: bool, error: WriteFailure)
    requires Warranted(w, troubles, taken, looks, name, cfg, false, error)
    ensures Warranted(w, troubles, taken, looks, name, cfg, unable, error)
  {
    ReadWarranted(w, troubles, taken, looks, name, cfg, false, error);
    ReadWarranted(w, troubles, taken, looks, name, cfg, unable, error);
  }

  /** Something that is no file has come to be where the rename was to land. */
  ghost predicate DirectoryInTheWay(w: Host, name: Path)
    requires name != []
    reads w
  {
    var d := Resolve(w.s.fs, w.root, ParentOf(name), w.hops);
    d.At? && NonFileLink(w.s.fs, Slot(d.ino, BaseOf(name)))
  }

  /** What a refusal says of the target is so. */
  ghost predicate RefusedFor(failure: WriteFailure, s: State, root: Ino, hops: nat, name: Path) {
    match failure
    case UnsafePath => !NamesAnEntry(name)
    case SymlinkTarget => TargetIs(s, root, hops, name, true)
    case NotRegular => TargetIs(s, root, hops, name, false)
    case _ => true
  }

  /** The name is there, bound to a symlink or to something else that is no regular file. */
  ghost predicate TargetIs(s: State, root: Ino, hops: nat, name: Path, symlink: bool) {
    NamesAnEntry(name) &&
    var d := Resolve(s.fs, root, ParentOf(name), hops);
    d.At? && NonFileLink(s.fs, Slot(d.ino, BaseOf(name))) && (symlink <==> IsSymlink(s.fs, Slot(d.ino, BaseOf(name))))
  }

  /** The step, besides the ones that have a phase, that stops a write with this failure. */
  function Culprit(failure: WriteFailure): Option<Step> {
    match failure
    case Cancelled => Some(ContextDone)
    case TargetUnreadable => Some(InspectTarget)
    case NoParent => Some(MakeDirectory)
    case StagedUnreadable => Some(StatStaged)
    case _ => None
  }

  /** A failure has a reason: the step it names did fail, or the write was refused for what
      it is. (A write error names its step by its phase.) */
  predicate Excused(failure: WriteFailure, since: seq<Step>, content: seq<Byte>, cfg: Config) {
    && (failure.FileTooLarge? ==> cfg.maxBytes > 0 && |content| > cfg.maxBytes)
    && (Culprit(failure).Some? ==> Culprit(failure).value in since)
    && !failure.Aborted?
  }

  /** The parents, if they are to be created. The target stays safe meanwhile. */
  method MakeParents(w: Host, me: Wid, dir: Path, base: Name, cfg: Config)
    returns (failure: Option<WriteFailure>, dirSyncFailed: bool, ghost made: set<Slot>, ghost since: seq<Step>)
    requires w.Valid() && TargetSafe(w.s, w.root, w.hops, dir, base)
    modifies w
    ensures w.Valid() && w.NoLooks() && WriterOf(w.s, me) == old(WriterOf(w.s, me))
    ensures failure.None? ==> Resolve(w.s.fs, w.root, dir, w.hops).At? && TargetSafe(w.s, w.root, w.hops, dir, base)
    ensures failure.None? ==> OnlySyncFaults(since) && (dirSyncFailed <==> since != [])
    ensures failure.None? ==> forall sl :: sl in made ==> NonFileLink(w.s.fs, sl) && (!dirSyncFailed ==> Settled(w.s.fs, sl))
    ensures failure.None? ==> LevelsSynced(old(w.s).fs, old(w.Synced(me)), w.Synced(me), w.root, dir, w.hops, made, !dirSyncFailed)
    ensures failure.None? ==> RecordsLevels(old(w.s), w.s, me, w.root, dir, w.hops, made)
    ensures failure.Some? ==> failure == Some(NoParent) && MakeDirectory in since && FirstPhase(since) == None
    ensures w.faults == old(w.faults) + since
    ensures failure.Some? ==> NotMadeBecause(w, old(w.troubles), old(w.taken), dir)
    ensures since != [] ==> w.troubles > old(w.troubles) || failure.Some?
  {
    ghost var prior, before := w.acts, w.s;
    var durable, ok;
    ghost var chain;
    durable, ok, chain, since := MkdirAllInRoot(w, me, dir, cfg.mkdirMode);
    made := MadeIn(chain);
    if !ok {
      SyncFaultsHaveNoPhase(since, [MakeDirectory]);
      return Some(NoParent), false, made, since + [MakeDirectory];
    }
    failure, dirSyncFailed := None, !durable;
    ReadLedger(before, w.s, me, made, cfg.mkdirMode);
    TargetStaysSafe(w, prior, before, dir, base);
    RecordNow(w, prior, before, me, dir, made);
    assert forall sl :: sl in made ==> MadeAt(w.s, me, sl, cfg.mkdirMode);
  }

  lemma {:induction false} SyncFaultsHaveNoPhase(syncs: seq<Step>, rest: seq<Step>)
    requires OnlySyncFaults(syncs)
    ensures FirstPhase(syncs + rest) == FirstPhase(rest)
  {
    if syncs == [] {
      assert syncs + rest == rest;
    } else {
      assert (syncs + rest)[1..] == syncs[1..] + rest;
      SyncFaultsHaveNoPhase(syncs[1..], rest);
    }
  }

  lemma MadeStaySettled(w: Host, prior: seq<Act>, before: State, made: set<Slot>)
    requires w.Valid() && w.Passed(prior, before)
    requires forall sl :: sl in made ==> NonFileLink(before.fs, sl) && Settled(before.fs, sl)
    ensures forall sl :: sl in made ==> NonFileLink(w.s.fs, sl) && Settled(w.s.fs, sl)
  {
    w.Since(prior, before);
    w.Invariant();
    StaySettled(before, w.s, made);
    forall sl | sl in made
      ensures NonFileLink(w.s.fs, sl)
    {
      assert NonFileLink(before.fs, sl);
    }
  }

  lemma MadeStay(w: Host, prior: seq<Act>, before: State, made: set<Slot>, dirSyncFailed: bool)
    requires w.Valid() && w.Passed(prior, before)
    requires forall sl :: sl in made ==> NonFileLink(before.fs, sl) && (!dirSyncFailed ==> Settled(before.fs, sl))
    ensures forall sl :: sl in made ==> NonFileLink(w.s.fs, sl) && (!dirSyncFailed ==> Settled(w.s.fs, sl))
  {
    if dirSyncFailed {
      w.Since(prior, before);
    } else {
      MadeStaySettled(w, prior, before, made);
    }
  }

  /** The whole preamble: everything before the first byte is written. */
  method OpenTempForRoot(w: Host, me: Wid, name: Path, cfg: Config)
    returns (failure: Option<WriteFailure>, dirSyncFailed: bool, ghost made: set<Slot>, ghost since: seq<Step>)
    requires w.Valid() && WriterOf(w.s, me).Idle?
    modifies w
    ensures w.Valid() && w.GoesOn()
    ensures failure.None? ==>
              && NamesAnEntry(name) && w.StagesIn(me, ParentOf(name), cfg.mode) && w.Data(me) == []
              && w.Private(me)
    ensures failure.None? ==> Prepared(w.s, w.root, w.hops, old(w.s), me, name, made, dirSyncFailed)
    ensures failure.None? ==> LevelsSynced(old(w.s).fs, old(w.Synced(me)), w.Synced(me), w.root, ParentOf(name), w.hops, made, !dirSyncFailed)
    ensures failure.None? ==> OnlySyncFaults(since) && (dirSyncFailed <==> since != [])
    ensures failure.Some? ==>
              && FirstPhase(since) == (if failure.value.WriteError? then Some(failure.value.phase) else None)
              && Abandoned(WriterOf(w.s, me)) && TempRemoved(WriterOf(w.s, me), since)
    ensures failure.Some? ==> Excused(failure.value, since, [], cfg) && RefusedFor(failure.value, w.s, w.root, w.hops, name)
    ensures !NamesAnEntry(name) ==> failure == Some(UnsafePath)
    ensures w.faults == old(w.faults) + since
    ensures failure.Some? ==> Warranted(w, old(w.troubles), old(w.taken), old(w.looks), name, cfg, false, failure.value)
    ensures w.looks == old(w.looks) + FirstLook(name, me, old(w.s), failure)
  {
    ghost var start, troubles, taken, looks := w.s, w.troubles, w.taken, w.looks;
    failure, dirSyncFailed, made, since := PrepareTarget(w, me, name, cfg);
    if failure.Some? {
      return;
    }
    ghost var prior, before, count := w.acts, w.s, |w.faults|;
    var ok;
    ghost var draws;
    ok, draws := CreateTempInRoot(w, me, ParentOf(name), cfg);
    if !ok {
      failure := Some(WriteError(PhaseTempCreate));
      SyncFaultsHaveNoPhase(since, w.faults[count..]);
      since := since + w.faults[count..];
      if cfg.mkdirMode != 0 { StillLeadsThere(w, prior, before, ParentOf(name)); }
      ReadWarranted(w, troubles, taken, looks, name, cfg, false, failure.value);
      return;
    }
    TargetStaysSafe(w, prior, before, ParentOf(name), BaseOf(name));
    if cfg.mkdirMode != 0 {
      RecordStays(w, prior, before, start, me, ParentOf(name), made);
    }
    MadeStay(w, prior, before, made, dirSyncFailed);
  }

  // ---- The two barriers -----------------------------------------------------

  /** Sealed, closed, within the cap, and under a demanded mode proved to hold it: fit to
      be renamed. */
  ghost predicate Publishable(w: Host, me: Wid, temp: Temp, content: seq<Byte>, cfg: Config)
    reads w
  {
    && Held(w.s, me) && w.s.writers[me] == Sealed(temp, content, false)
    && (cfg.maxBytes > 0 ==> |content| <= cfg.maxBytes)
    && temp.want == cfg.mode && (cfg.mode.Some? ==> ModeProved(w.s.fs, temp, cfg.mode.value))
  }

  /** The barrier's checks on the open handle: context, cap against the real size, mode. */
  method ProveStaged(w: Host, me: Wid, cfg: Config) returns (failure: Option<WriteFailure>, ghost since: seq<Step>)
    requires w.Valid() && w.Open(me) && w.s.writers[me].temp.want == cfg.mode
    modifies w
    ensures w.Valid() && w.SyncsNothing(me) && w.Open(me) && w.s.writers[me] == old(w.s.writers[me]) && w.Data(me) == old(w.Data(me))
    ensures failure.None? ==> (cfg.maxBytes > 0 ==> |w.Data(me)| <= cfg.maxBytes) && Proved(w, me, cfg.mode)
    ensures failure == Some(FileTooLarge) ==> cfg.maxBytes > 0 && |w.Data(me)| > cfg.maxBytes
    ensures failure.Some? && failure != Some(FileTooLarge) ==> Excused(failure.value, since, [], cfg) && !IsRefusal(failure.value)
    ensures w.faults == old(w.faults) + since && Blames(failure, since) && (failure.None? ==> since == [])
    ensures failure.Some? ==> StoppedBecause(w, old(w.troubles), old(w.looks), cfg, failure.value)
    ensures w.looks == old(w.looks) + [Look(WhileStaging, failure == Some(Cancelled))]
  {
    var done := w.IsDone(me);
    if done {
      w.Note(ContextDone);
      return Some(Cancelled), [ContextDone];
    }
    failure, since := ProveSizeAndMode(w, me, cfg);
  }

  method ProveSizeAndMode(w: Host, me: Wid, cfg: Config) returns (failure: Option<WriteFailure>, ghost since: seq<Step>)
    requires w.Valid() && w.Open(me)
    modifies w
    ensures w.Valid() && w.OnlyCalls(me) && w.Open(me) && w.s.writers[me] == old(w.s.writers[me]) && w.Data(me) == old(w.Data(me))
    ensures failure.None? ==> (cfg.maxBytes > 0 ==> |w.Data(me)| <= cfg.maxBytes) && Proved(w, me, cfg.mode)
    ensures failure == Some(FileTooLarge) ==> cfg.maxBytes > 0 && |w.Data(me)| > cfg.maxBytes
    ensures failure.Some? ==> StoppedBecause(w, old(w.troubles), old(w.looks), cfg, failure.value)
    ensures failure.Some? ==> failure.value.FileTooLarge? || failure.value.StagedUnreadable? || failure == Some(WriteError(PhaseTempChmod))
    ensures w.faults == old(w.faults) + since && since == StepsOf(failure)
  {
    failure, since := ProveSize(w, me, cfg.maxBytes);
    if failure.None? {
      failure, since := ProveStoredMode(w, me, cfg);
    }
  }

  /** The step that makes the barrier stop with this failure. */
  function StepsOf(failure: Option<WriteFailure>): seq<Step> {
    match failure
    case Some(StagedUnreadable) => [StatStaged]
    case Some(WriteError(PhaseTempChmod)) => [ProveMode]
    case _ => []
  }

  /** The mode, if one is demanded. */
  method ProveStoredMode(w: Host, me: Wid, cfg: Config) returns (failure: Option<WriteFailure>, ghost since: seq<Step>)
    requires w.Valid() && w.Open(me)
    modifies w
    ensures w.Valid() && w.OnlyCalls(me) && w.Open(me) && w.s.writers[me] == old(w.s.writers[me]) && w.Data(me) == old(w.Data(me))
    ensures failure.None? ==> since == [] && Proved(w, me, cfg.mode)
    ensures failure.Some? ==> failure == Some(WriteError(PhaseTempChmod)) && since == [ProveMode]
    ensures failure.Some? ==> cfg.mode.Some? && (w.troubles > old(w.troubles) || !w.storesModes)
    ensures w.faults == old(w.faults) + since
  {
    if cfg.mode.Some? {
      var proved := EnforceMode(w, me, cfg.mode.value, ProveMode);
      if !proved {
        return Some(WriteError(PhaseTempChmod)), [ProveMode];
      }
    }
    return None, [];
  }

  /** The cap, against the real size. */
  method ProveSize(w: Host, me: Wid, maxBytes: int) returns (failure: Option<WriteFailure>, ghost since: seq<Step>)
    requires w.Valid() && w.Open(me)
    modifies w
    ensures w.Valid() && w.OnlyCalls(me) && w.Open(me) && w.s.writers[me] == old(w.s.writers[me]) && w.Data(me) == old(w.Data(me))
    ensures failure.None? ==> since == [] && (maxBytes > 0 ==> |w.Data(me)| <= maxBytes)
    ensures failure.Some? ==> (failure == Some(FileTooLarge) && since == [] && maxBytes > 0 && |w.Data(me)| > maxBytes)
                              || (failure == Some(StagedUnreadable) && since == [StatStaged])
    ensures w.faults == old(w.faults) + since && (failure == Some(StagedUnreadable) ==> w.troubles > old(w.troubles))
  {
    failure, since := None, [];
    if maxBytes > 0 {
      var stat := w.Fstat(me, StatStaged);
      if stat.None? {
        return Some(StagedUnreadable), [StatStaged];
      }
      if stat.value.0 > maxBytes {
        return Some(FileTooLarge), [];
      }
    }
  }

  /** Why a staged temp does not pass the barrier. (`Excused` says what too large means.) */
  ghost predicate StoppedBecause(w: Host, troubles: nat, looks: seq<Look>, cfg: Config, error: WriteFailure)
    reads w
  {
    match error
    case Cancelled => FoundDone(looks, w.looks)
    case FileTooLarge => true
    case StagedUnreadable => w.troubles > troubles
    case WriteError(PhaseTempChmod) => w.troubles > troubles || (cfg.mode.Some? && !w.storesModes)
    case WriteError(PhaseTempSync) => w.troubles > troubles
    case WriteError(PhaseTempClose) => w.troubles > troubles
    case _ => false
  }

  lemma StoppedIsWarranted(w: Host, troubles: nat, taken: nat, looks: seq<Look>, name: Path, cfg: Config, unable: bool, error: WriteFailure)
    requires name != [] && StoppedBecause(w, troubles, looks, cfg, error)
    ensures Warranted(w, troubles, taken, looks, name, cfg, unable, error)
  {
    ReadWarranted(w, troubles, taken, looks, name, cfg, unable, error);
  }

  /** The barrier looks at the context as it begins, and again once the temp is synced. */
  const LAST_LOOKS: seq<Look> := [Look(WhileStaging, false), Look(OnceSynced, false)]

  /** The failure is the one of the first failed step that has a phase, and without a
      failure no such step failed. */
  ghost predicate Blames(failure: Option<WriteFailure>, since: seq<Step>) {
    FirstPhase(since) == if failure.Some? && failure.value.WriteError? then Some(failure.value.phase) else None
  }

  /** A last look at the context, and close. */
  method CloseSynced(w: Host, me: Wid) returns (failure: Option<WriteFailure>, ghost since: seq<Step>)
    requires w.Valid() && Held(w.s, me) && IsFile(w.s.fs, w.s.writers[me].temp.ino) && w.s.writers[me].Sealed? && w.s.writers[me].open
    modifies w
    ensures w.Valid() && w.SyncsNothing(me) && Held(w.s, me) && w.s.writers[me] == old(w.s.writers[me]).(open := false)
    ensures IsFile(w.s.fs, w.s.writers[me].temp.ino) && w.Mode(me) == old(w.Mode(me))
    ensures failure.Some? ==> failure.value == WriteError(PhaseTempClose) || (failure.value.Cancelled? && ContextDone in since)
    ensures w.faults == old(w.faults) + since && Blames(failure, since) && (failure.None? ==> since == [])
    ensures failure.Some? && failure.value.WriteError? ==> w.troubles > old(w.troubles)
    ensures w.looks == old(w.looks) + [Look(OnceSynced, failure == Some(Cancelled))]
  {
    failure, since := None, [];
    var done := w.IsDone(me);
    if done {
      w.Note(ContextDone);
      var _ := w.CloseHandle(me, false);
      return Some(Cancelled), [ContextDone];
    }
    var closed := w.CloseHandle(me, true);
    if !closed {
      return Some(WriteError(PhaseTempClose)), [CloseTemp];
    }
  }

  /** fsync, a last look at the context, close. On every path the handle ends closed. */
  method SyncAndClose(w: Host, me: Wid) returns (failure: Option<WriteFailure>, ghost since: seq<Step>)
    requires w.Valid() && w.Open(me)
    modifies w
    ensures w.Valid() && w.SyncsNothing(me) && Held(w.s, me) && w.s.writers[me].temp == old(w.s.writers[me].temp)
    ensures IsFile(w.s.fs, w.s.writers[me].temp.ino) && w.Mode(me) == old(w.Mode(me))
    ensures failure.None? ==> w.s.writers[me] == Sealed(old(w.s.writers[me].temp), old(w.Data(me)), false)
    ensures failure.Some? ==> w.s.writers[me].Dropped? || (w.s.writers[me].Sealed? && !w.s.writers[me].open)
    ensures failure.Some? ==> failure.value.WriteError? || (failure.value.Cancelled? && ContextDone in since)
    ensures w.faults == old(w.faults) + since && Blames(failure, since) && (failure.None? ==> since == [])
    ensures failure.Some? && failure.value.WriteError? ==>
              w.troubles > old(w.troubles) && (failure.value.phase.PhaseTempSync? || failure.value.phase.PhaseTempClose?)
    ensures failure == None ==> w.looks == old(w.looks) + [Look(OnceSynced, false)]
    ensures failure == Some(Cancelled) ==> w.looks == old(w.looks) + [Look(OnceSynced, true)]
  {
    failure, since := None, [];
    var synced := w.Fsync(me);
    if synced {
      failure, since := CloseSynced(w, me);
    } else {
      var _ := w.CloseHandle(me, false);
      failure, since := Some(WriteError(PhaseTempSync)), [SyncTemp];
    }
  }

  /** The temp-side barrier. */
  method FinalizeTempFile(w: Host, me: Wid, cfg: Config) returns (failure: Option<WriteFailure>, ghost since: seq<Step>)
    requires w.Valid() && w.Open(me) && w.s.writers[me].temp.want == cfg.mode
    modifies w
    ensures w.Valid() && w.SyncsNothing(me) && Held(w.s, me) && w.s.writers[me].temp == old(w.s.writers[me].temp)
    ensures failure.None? ==> Publishable(w, me, old(w.s.writers[me].temp), old(w.Data(me)), cfg)
    ensures failure.Some? ==> w.s.writers[me].Dropped? || (w.s.writers[me].Sealed? && !w.s.writers[me].open)
    ensures failure == Some(FileTooLarge) ==> cfg.maxBytes > 0 && |old(w.Data(me))| > cfg.maxBytes
    ensures failure.Some? && failure != Some(FileTooLarge) ==> Excused(failure.value, since, [], cfg) && !IsRefusal(failure.value)
    ensures w.faults == old(w.faults) + since && Blames(failure, since) && (failure.None? ==> since == [])
    ensures failure.Some? ==> StoppedBecause(w, old(w.troubles), old(w.looks), cfg, failure.value)
    ensures failure.None? ==> w.looks == old(w.looks) + LAST_LOOKS
  {
    failure, since := ProveStaged(w, me, cfg);
    if failure.Some? {
      var _ := w.CloseHandle(me, false);
      return;
    }
    failure, since := SyncAndClose(w, me);
  }

  /** The commit-side barrier: rename, then sync the directory. Once the rename is done
      there is no failure any more, only a verdict on durability. */
  method CommitTempInRoot(w: Host, me: Wid, dir: Path, base: Name, cfg: Config, ghost temp: Temp, ghost content: seq<Byte>)
    returns (r: Outcome, ghost since: seq<Step>)
    requires w.Valid() && Publishable(w, me, temp, content, cfg) && !IsTempName(base)
    requires Resolve(w.s.fs, w.root, dir, w.hops).At? && Resolve(w.s.fs, w.root, dir, w.hops).ino == temp.slot.dir
    requires TargetSafe(w.s, w.root, w.hops, dir, base)
    modifies w
    ensures w.Valid() && w.NoLooks()
    ensures r.Success? ==> Publication(me, Slot(temp.slot.dir, base), temp.ino, content, cfg.mode) in w.s.log && WriterOf(w.s, me).Published?
    ensures r.Success? ==> Resolve(w.s.fs, w.root, dir, w.hops) == old(Resolve(w.s.fs, w.root, dir, w.hops))
    ensures r.Success? && r.durable ==> Settled(w.s.fs, Slot(temp.slot.dir, base))
    ensures r.Success? ==> w.Synced(me) == old(w.Synced(me)) + if r.durable then [temp.slot.dir] else []
    ensures r.Success? ==> since == if r.durable then [] else [SyncParent]
    ensures r.Failure? ==> r.error == WriteError(PhaseRename) && Abandoned(WriterOf(w.s, me)) && (since == [RenameTemp] || since == [RenameTemp, RemoveTemp])
    ensures r.Failure? && !WriterOf(w.s, me).Gone? ==> since == [RenameTemp, RemoveTemp]
    ensures w.faults == old(w.faults) + since
    ensures r.Failure? ==> w.troubles > old(w.troubles) || NonFileLink(w.s.fs, Slot(temp.slot.dir, base))
    ensures r.Success? && !r.durable ==> w.troubles > old(w.troubles)
  {
    ghost var before, prior := w.s, w.acts;
    var renamed := w.Rename(me, dir, base);
    if !renamed {
      ghost var failed, sofar := w.s, w.acts;
      var removed := w.Remove(me);
      LinkStays(w, sofar, failed, Slot(temp.slot.dir, base));
      since := if removed then [RenameTemp] else [RenameTemp, RemoveTemp];
      return Failure(WriteError(PhaseRename)), since;
    }
    ghost var published, run := w.s, w.acts;
    var synced := w.SyncDirectory(me, dir);
    since := if synced then [] else [SyncParent];
    StillLeadsThere(w, prior, before, dir);
    LogStays(w, run, published);
    return Success(synced), since;
  }

  lemma LinkStays(w: Host, prior: seq<Act>, before: State, sl: Slot)
    requires w.Valid() && w.Passed(prior, before)
    ensures NonFileLink(before.fs, sl) ==> NonFileLink(w.s.fs, sl)
  {
    w.Since(prior, before);
  }

  lemma LogStays(w: Host, prior: seq<Act>, before: State)
    requires w.Valid() && w.Passed(prior, before)
    ensures before.log <= w.s.log
  {
    w.Since(prior, before);
  }

  // ---- The whole write ------------------------------------------------------

  /** What the caller wants published: a buffer, or a source delivering chunks and then
      ending or failing. */
  datatype Payload = Whole(data: seq<Byte>) | Stream(chunks: seq<seq<Byte>>, sourceFails: bool)

  function ContentOf(payload: Payload): seq<Byte> {
    match payload
    case Whole(data) => data
    case Stream(chunks, _) => Concat(chunks)
  }

  predicate SourceFails(payload: Payload) { payload.Stream? && payload.sourceFails }

  /** The data step cannot succeed: its source fails, or delivers more than the cap. */
  predicate Unable(payload: Payload, maxBytes: int) {
    SourceFails(payload) || (payload.Stream? && maxBytes > 0 && |Concat(payload.chunks)| > maxBytes)
  }

  /** The looks at the context of a whole write that finds it never done: one at first, one
      before every read of a stream, and those of the barrier. */
  function LooksOf(payload: Payload): seq<Look> { [Look(AtFirst, false)] + LooksWhileCopying(payload) + LAST_LOOKS }

  function LooksWhileCopying(payload: Payload): seq<Look> {
    match payload
    case Whole(_) => []
    case Stream(chunks, _) => LooksPerRead(|chunks| + 1)
  }

  lemma LooksAddUp(before: seq<Look>, mid: seq<Look>, now: seq<Look>, payload: Payload)
    requires mid == before + [Look(AtFirst, false)] && now == mid + LooksWhileCopying(payload) + LAST_LOOKS
    ensures now == before + LooksOf(payload)
  {
  }

  predicate FitsMemory(payload: Payload) {
    payload.Stream? ==> forall k :: 0 <= k < |payload.chunks| ==> |payload.chunks[k]| <= MAX_INT64
  }

  /** The caller's data step. It succeeds only with the whole payload staged. */
  method StageData(w: Host, me: Wid, payload: Payload, maxBytes: int) returns (ok: bool)
    requires w.Valid() && w.Open(me) && w.Private(me) && w.Data(me) == []
    requires maxBytes <= MAX_INT64 && FitsMemory(payload)
    modifies w
    ensures w.Valid() && w.SyncsNothing(me) && w.Open(me) && w.s.writers[me] == old(w.s.writers[me])
    ensures w.Data(me) <= ContentOf(payload) && (ok ==> w.Data(me) == ContentOf(payload))
    ensures w.faults == old(w.faults) + if ok then [] else [WriteData]
    ensures ok ==> !SourceFails(payload) && w.looks == old(w.looks) + LooksWhileCopying(payload)
    ensures !ok ==> w.troubles > old(w.troubles) || FoundDone(old(w.looks), w.looks) || Unable(payload, maxBytes)
  {
    var file := new StagedFile(w, me);
    match payload
    case Whole(data) =>
      var n;
      n, ok := file.Write(data);
      assert ok ==> data[..n] == data;
    case Stream(chunks, sourceFails) =>
      ok := CopyReader(file, chunks, sourceFails, maxBytes);
  }

  ghost predicate NeverPublished(log: seq<Publication>, me: Wid) {
    forall k :: 0 <= k < |log| ==> log[k].writer != me
  }

  lemma AbandonedNeverPublished(w: Host, me: Wid)
    requires w.Valid() && !WriterOf(w.s, me).Published?
    ensures NeverPublished(w.s.log, me)
  {
    w.Invariant();
  }

  /** The deferred removal of an abandoned temp. It changes neither blame nor reason. */
  method DiscardTemp(w: Host, me: Wid, ghost failure: WriteFailure, ghost since: seq<Step>, ghost content: seq<Byte>, ghost cfg: Config)
    returns (ghost removal: seq<Step>)
    requires w.Valid() && Held(w.s, me) && (w.s.writers[me].Dropped? || (w.s.writers[me].Sealed? && !w.s.writers[me].open))
    requires Blames(Some(failure), since) && Excused(failure, since, content, cfg)
    modifies w
    ensures w.Valid() && w.OnlyCalls(me) && Abandoned(WriterOf(w.s, me)) && TempRemoved(WriterOf(w.s, me), since + removal)
    ensures Blames(Some(failure), since + removal) && Excused(failure, since + removal, content, cfg)
    ensures w.faults == old(w.faults) + removal
  {
    var removed := w.Remove(me);
    removal := if removed then [] else [RemoveTemp];
    RemovalHasNoBlame(Some(failure), since, removal);
  }

  lemma RemovalHasNoBlame(failure: Option<WriteFailure>, since: seq<Step>, removal: seq<Step>)
    requires Blames(failure, since) && (removal == [] || removal == [RemoveTemp])
    ensures Blames(failure, since + removal)
  {
    FirstPhaseSplits(since, removal);
  }

  /** The temp-side barrier; a temp that does not pass it is removed. */
  method FinalizeOrDiscard(w: Host, me: Wid, cfg: Config) returns (failure: Option<WriteFailure>, ghost since: seq<Step>)
    requires w.Valid() && w.Open(me) && w.s.writers[me].temp.want == cfg.mode
    modifies w
    ensures w.Valid() && w.SyncsNothing(me)
    ensures failure.None? ==> Publishable(w, me, old(w.s.writers[me].temp), old(w.Data(me)), cfg)
    ensures failure.Some? ==> Abandoned(WriterOf(w.s, me)) && TempRemoved(WriterOf(w.s, me), since)
    ensures failure.Some? ==> Excused(failure.value, since, old(w.Data(me)), cfg) && !IsRefusal(failure.value)
    ensures w.faults == old(w.faults) + since && Blames(failure, since) && (failure.None? ==> since == [])
    ensures failure.Some? ==> StoppedBecause(w, old(w.troubles), old(w.looks), cfg, failure.value)
    ensures failure.None? ==> w.looks == old(w.looks) + LAST_LOOKS
  {
    ghost var content := w.Data(me);
    failure, since := FinalizeTempFile(w, me, cfg);
    if failure.Some? {
      ghost var removal := DiscardTemp(w, me, failure.value, since, content, cfg);
      since := since + removal;
    }
  }

  /** Data and temp-side barrier; on any failure the handle is closed and the temp removed. */
  method StageAndFinalize(w: Host, me: Wid, payload: Payload, cfg: Config, ghost name: Path) returns (failure: Option<WriteFailure>, ghost since: seq<Step>)
    requires w.Valid() && w.Open(me) && w.s.writers[me].temp.want == cfg.mode && w.Data(me) == []
    requires w.Private(me) && cfg.maxBytes <= MAX_INT64 && FitsMemory(payload)
    modifies w
    ensures w.Valid() && w.SyncsNothing(me)
    ensures failure.None? ==> Publishable(w, me, old(w.s.writers[me].temp), ContentOf(payload), cfg)
    ensures failure.Some? ==> Abandoned(WriterOf(w.s, me)) && TempRemoved(WriterOf(w.s, me), since)
    ensures failure.Some? ==> Excused(failure.value, since, ContentOf(payload), cfg) && !IsRefusal(failure.value)
    ensures if failure.Some? then w.faults == old(w.faults) + since && Blames(failure, since) else w.faults == old(w.faults) && since == []
    ensures failure.None? ==> !SourceFails(payload) && w.looks == old(w.looks) + LooksWhileCopying(payload) + LAST_LOOKS
    ensures failure.Some? && name != [] ==>
              Warranted(w, old(w.troubles), old(w.taken), old(w.looks), name, cfg, Unable(payload, cfg.maxBytes), failure.value)
  {
    ghost var troubles, taken, looks := w.troubles, w.taken, w.looks;
    failure, since := StageOrAbandon(w, me, payload, cfg, name);
    if failure.None? {
      failure, since := FinalizeWarranted(w, me, cfg, name, troubles, taken, looks, Unable(payload, cfg.maxBytes));
    }
  }

  /** The data step; a temp that could not be staged is closed and removed. */
  method StageOrAbandon(w: Host, me: Wid, payload: Payload, cfg: Config, ghost name: Path) returns (failure: Option<WriteFailure>, ghost since: seq<Step>)
    requires w.Valid() && w.Open(me) && w.Data(me) == [] && w.Private(me) && cfg.maxBytes <= MAX_INT64 && FitsMemory(payload)
    modifies w
    ensures w.Valid() && w.SyncsNothing(me)
    ensures failure.None? ==> w.Open(me) && w.s.writers[me] == old(w.s.writers[me]) && w.Data(me) == ContentOf(payload) && since == []
    ensures failure.Some? ==> failure == Some(WriteError(PhaseTempWrite)) && Abandoned(WriterOf(w.s, me)) && TempRemoved(WriterOf(w.s, me), since)
    ensures failure.Some? ==> Excused(failure.value, since, ContentOf(payload), cfg) && Blames(failure, since)
    ensures if failure.Some? then w.faults == old(w.faults) + since else w.faults == old(w.faults)
    ensures failure.None? ==> !SourceFails(payload) && w.looks == old(w.looks) + LooksWhileCopying(payload)
    ensures failure.Some? && name != [] ==>
              Warranted(w, old(w.troubles), old(w.taken), old(w.looks), name, cfg, Unable(payload, cfg.maxBytes), failure.value)
  {
    ghost var faults, troubles, taken, looks, unable := w.faults, w.troubles, w.taken, w.looks, Unable(payload, cfg.maxBytes);
    var staged := StageData(w, me, payload, cfg.maxBytes);
    failure, since := None, [];
    if !staged {
      failure := Some(WriteError(PhaseTempWrite));
      since := AbandonStaging(w, me, faults, payload, cfg, name, troubles, taken, looks, unable);
    }
  }

  /** The temp-side barrier, with its failure told since an earlier moment. */
  method FinalizeWarranted(w: Host, me: Wid, cfg: Config, ghost name: Path, ghost troubles: nat, ghost taken: nat, ghost looks: seq<Look>, ghost unable: bool)
    returns (failure: Option<WriteFailure>, ghost since: seq<Step>)
    requires w.Valid() && w.Open(me) && w.s.writers[me].temp.want == cfg.mode && troubles <= w.troubles && taken <= w.taken && looks <= w.looks
    modifies w
    ensures w.Valid() && w.SyncsNothing(me)
    ensures failure.None? ==> Publishable(w, me, old(w.s.writers[me].temp), old(w.Data(me)), cfg)
    ensures failure.Some? ==> Abandoned(WriterOf(w.s, me)) && TempRemoved(WriterOf(w.s, me), since)
    ensures failure.Some? ==> Excused(failure.value, since, old(w.Data(me)), cfg) && !IsRefusal(failure.value)
    ensures if failure.Some? then w.faults == old(w.faults) + since && Blames(failure, since) else w.faults == old(w.faults) && since == []
    ensures failure.Some? && name != [] ==> Warranted(w, troubles, taken, looks, name, cfg, unable, failure.value)
    ensures failure.None? ==> w.looks == old(w.looks) + LAST_LOOKS
  {
    ghost var t, k, l := w.troubles, w.taken, w.looks;
    failure, since := FinalizeOrDiscard(w, me, cfg);
    if failure.Some? && name != [] {
      StoppedIsWarranted(w, t, k, l, name, cfg, unable, failure.value);
      WarrantedEarlier(w, troubles, taken, looks, t, k, l, name, cfg, unable, failure.value);
    }
  }

  /** The data step failed: close, and remove the temp. */
  method AbandonStaging(w: Host, me: Wid, ghost before: seq<Step>, ghost payload: Payload, ghost cfg: Config, ghost name: Path,
                        ghost troubles: nat, ghost taken: nat, ghost looks: seq<Look>, ghost unable: bool)
    returns (ghost since: seq<Step>)
    requires w.Valid() && w.Open(me) && w.faults == before + [WriteData]
    requires troubles < w.troubles || FoundDone(looks, w.looks) || (troubles == w.troubles && unable)
    modifies w
    ensures w.Valid() && w.OnlyCalls(me) && Abandoned(WriterOf(w.s, me)) && TempRemoved(WriterOf(w.s, me), since)
    ensures Excused(WriteError(PhaseTempWrite), since, ContentOf(payload), cfg) && Blames(Some(WriteError(PhaseTempWrite)), since)
    ensures w.faults == before + since
    ensures name != [] ==> Warranted(w, troubles, taken, looks, name, cfg, unable, WriteError(PhaseTempWrite))
  {
    var _ := w.CloseHandle(me, false);
    ghost var removal := DiscardTemp(w, me, WriteError(PhaseTempWrite), [WriteData], ContentOf(payload), cfg);
    since := [WriteData] + removal;
    if name != [] { ReadWarranted(w, troubles, taken, looks, name, cfg, unable, WriteError(PhaseTempWrite)); }
  }

  /** The publication of a successful write, as the log records it. */
  ghost predicate IsPublished(s: State, root: Ino, hops: nat, me: Wid, name: Path, content: seq<Byte>, cfg: Config, p: Publication)
    requires name != []
  {
    var d := Resolve(s.fs, root, ParentOf(name), hops);
    && d.At? && p in s.log && p.writer == me && p.slot == Slot(d.ino, BaseOf(name)) && p.content == content && p.want == cfg.mode
    && (cfg.maxBytes > 0 ==> |content| <= cfg.maxBytes)
  }

  /** The way to the target is clear: the parent is there, the rename can replace nothing
      but a regular file, and the directories made on the way are recorded and, unless a
      sync failed, there for good. */
  ghost predicate Prepared(s: State, root: Ino, hops: nat, start: State, me: Wid, name: Path, made: set<Slot>, dirSyncFailed: bool)
    requires name != []
  {
    && Resolve(s.fs, root, ParentOf(name), hops).At? && TargetSafe(s, root, hops, ParentOf(name), BaseOf(name))
    && RecordsLevels(start, s, me, root, ParentOf(name), hops, made)
    && forall sl :: sl in made ==> NonFileLink(s.fs, sl) && (!dirSyncFailed ==> Settled(s.fs, sl))
  }

  lemma StaysPrepared(w: Host, prior: seq<Act>, before: State, start: State, me: Wid, name: Path, made: set<Slot>, dirSyncFailed: bool)
    requires w.Valid() && w.Passed(prior, before) && IsDir(before.fs, w.root) && name != []
    requires Prepared(before, w.root, w.hops, start, me, name, made, dirSyncFailed)
    ensures Prepared(w.s, w.root, w.hops, start, me, name, made, dirSyncFailed)
    ensures Resolve(w.s.fs, w.root, ParentOf(name), w.hops) == Resolve(before.fs, w.root, ParentOf(name), w.hops)
  {
    StillLeadsThere(w, prior, before, ParentOf(name));
    TargetStaysSafe(w, prior, before, ParentOf(name), BaseOf(name));
    RecordStays(w, prior, before, start, me, ParentOf(name), made);
    MadeStay(w, prior, before, made, dirSyncFailed);
  }

  /** What a success promises: exactly the content is published; it is durable exactly when
      no step failed; and then the entry, every directory this write made and, if the path
      was safe, the whole path to it survive every crash. */
  ghost predicate Delivered(s: State, root: Ino, hops: nat, start: State, me: Wid, name: Path, content: seq<Byte>, cfg: Config,
                            durable: bool, p: Publication, made: set<Slot>, since: seq<Step>)
    requires name != []
  {
    && IsPublished(s, root, hops, me, name, content, cfg, p) && OnlySyncFaults(since) && (durable <==> since == [])
    && RecordsLevels(start, s, me, root, ParentOf(name), hops, made)
    && (durable ==> DurablyThere(s, root, hops, start, me, ParentOf(name), p, made))
  }

  ghost predicate DurablyThere(s: State, root: Ino, hops: nat, start: State, me: Wid, dir: Path, p: Publication, made: set<Slot>) {
    && Settled(s.fs, p.slot) && (forall sl :: sl in made ==> Settled(s.fs, sl))
    && (PathWasSafe(start, s, me, root, dir, hops) ==> PathSettled(s.fs, root, dir, hops))
  }

  /** What a failure promises: nothing was published, the handle is closed, the temp is gone
      unless unlinking it failed, and there was a reason. */
  ghost predicate Undone(s: State, me: Wid, content: seq<Byte>, cfg: Config, error: WriteFailure, since: seq<Step>) {
    && NeverPublished(s.log, me) && Abandoned(WriterOf(s, me)) && TempRemoved(WriterOf(s, me), since)
    && Excused(error, since, content, cfg)
  }

  /** A durable verdict is sound if every entry of the path that was already there was
      durable, which the caller can see before the call, and nobody else was at work on
      the path. */
  lemma DurableIsSound(w: Host, prior: seq<Act>, start: State, me: Wid, path: Path, made: set<Slot>)
    requires w.Valid() && w.Passed(prior, start) && IsDir(start.fs, w.root) && Resolve(w.s.fs, w.root, path, w.hops).At?
    requires RecordsLevels(start, w.s, me, w.root, path, w.hops, made) && forall sl :: sl in made ==> Settled(w.s.fs, sl)
    requires PathWasSafe(start, w.s, me, w.root, path, w.hops)
    ensures PathSettled(w.s.fs, w.root, path, w.hops)
  {
    w.Later(prior, start);
    FoundAndMadeAreAll(w.s0, start, w.acts[|prior|..], me, w.root, path, w.hops, made);
  }

  lemma DeliveredDurably(w: Host, prior: seq<Act>, start: State, me: Wid, path: Path, p: Publication, made: set<Slot>)
    requires w.Valid() && w.Passed(prior, start) && IsDir(start.fs, w.root) && Resolve(w.s.fs, w.root, path, w.hops).At?
    requires RecordsLevels(start, w.s, me, w.root, path, w.hops, made)
    requires Settled(w.s.fs, p.slot) && forall sl :: sl in made ==> Settled(w.s.fs, sl)
    ensures DurablyThere(w.s, w.root, w.hops, start, me, path, p, made)
  {
    if PathWasSafe(start, w.s, me, w.root, path, w.hops) {
      DurableIsSound(w, prior, start, me, path, made);
    }
  }

  /** The verdict is on the rename's own sync and on those made on the way. */
  lemma CommitDelivers(w: Host, first: seq<Act>, start: State, me: Wid, name: Path, content: seq<Byte>, cfg: Config,
                       synced: bool, dirSyncFailed: bool, p: Publication, made: set<Slot>, opening: seq<Step>, rest: seq<Step>)
    requires w.Valid() && w.Passed(first, start) && IsDir(start.fs, w.root) && name != []
    requires IsPublished(w.s, w.root, w.hops, me, name, content, cfg, p)
    requires Prepared(w.s, w.root, w.hops, start, me, name, made, dirSyncFailed)
    requires OnlySyncFaults(opening) && (dirSyncFailed <==> opening != [])
    requires (synced ==> Settled(w.s.fs, p.slot)) && rest == if synced then [] else [SyncParent]
    ensures Delivered(w.s, w.root, w.hops, start, me, name, content, cfg, synced && !dirSyncFailed, p, made, opening + rest)
  {
    if synced && !dirSyncFailed {
      DeliveredDurably(w, first, start, me, ParentOf(name), p, made);
    }
  }

  /** The commit-side barrier and the verdict on it. `opening` are the syncs that failed
      before the temp was opened. */
  method CommitPrepared(w: Host, me: Wid, name: Path, cfg: Config, dirSyncFailed: bool, ghost temp: Temp, ghost content: seq<Byte>,
                        ghost first: seq<Act>, ghost start: State, ghost made: set<Slot>, ghost opening: seq<Step>)
    returns (r: Outcome, ghost p: Publication, ghost rest: seq<Step>)
    requires w.Valid() && name != [] && PlainName(name) && Publishable(w, me, temp, content, cfg)
    requires Prepared(w.s, w.root, w.hops, start, me, name, made, dirSyncFailed)
    requires Resolve(w.s.fs, w.root, ParentOf(name), w.hops).ino == temp.slot.dir
    requires OnlySyncFaults(opening) && (dirSyncFailed <==> opening != []) && w.Passed(first, start) && IsDir(start.fs, w.root)
    requires LevelsSynced(start.fs, SyncedBy(first, me), w.Synced(me), w.root, ParentOf(name), w.hops, made, !dirSyncFailed)
    modifies w
    ensures w.Valid() && w.NoLooks() && Prepared(w.s, w.root, w.hops, start, me, name, made, dirSyncFailed)
    ensures r.Success? <==> WriterOf(w.s, me).Published?
    ensures r.Success? ==> Delivered(w.s, w.root, w.hops, start, me, name, content, cfg, r.durable, p, made, opening + rest)
    ensures r.Success? ==> WriteSynced(start.fs, SyncedBy(first, me), w.Synced(me), w.root, ParentOf(name), w.hops, made, p.slot.dir, r.durable)
    ensures r.Failure? ==> r.error == WriteError(PhaseRename) && Undone(w.s, me, content, cfg, r.error, rest)
    ensures w.faults == old(w.faults) + rest && Blames(if r.Failure? then Some(r.error) else None, rest)
    ensures r.Failure? ==> w.troubles > old(w.troubles) || DirectoryInTheWay(w, name)
  {
    ghost var before, run, synced := w.s, w.acts, w.Synced(me);
    p := Publication(me, Slot(temp.slot.dir, BaseOf(name)), temp.ino, content, cfg.mode);
    r, rest := CommitTempInRoot(w, me, ParentOf(name), BaseOf(name), cfg, temp, content);
    StaysPrepared(w, run, before, start, me, name, made, dirSyncFailed);
    if r.Failure? {
      AbandonedNeverPublished(w, me);
    } else {
      TargetSynced(start.fs, SyncedBy(first, me), synced, w.Synced(me), w.root, ParentOf(name), w.hops, made, !dirSyncFailed, temp.slot.dir, r.durable);
      CommitDelivers(w, first, start, me, name, content, cfg, r.durable, dirSyncFailed, p, made, opening, rest);
      r := Success(r.durable && !dirSyncFailed);
    }
  }

  /** Failed syncs on the way to the target blame no step and excuse no failure. */
  lemma OpeningChangesNoVerdict(s: State, me: Wid, content: seq<Byte>, cfg: Config, r: Outcome, opening: seq<Step>, rest: seq<Step>)
    requires OnlySyncFaults(opening) && Blames(if r.Failure? then Some(r.error) else None, rest)
    requires r.Failure? ==> Undone(s, me, content, cfg, r.error, rest)
    ensures Blames(if r.Failure? then Some(r.error) else None, opening + rest)
    ensures r.Failure? ==> Undone(s, me, content, cfg, r.error, opening + rest)
  {
    SyncFaultsHaveNoPhase(opening, rest);
  }

  /** The engine. */
  method WriteAtomicInRoot(w: Host, me: Wid, name: Path, cfg: Config, payload: Payload)
    returns (r: Outcome, ghost p: Publication, ghost made: set<Slot>, ghost since: seq<Step>)
    requires w.Valid() && WriterOf(w.s, me).Idle? && PlainName(name) && cfg.maxBytes <= MAX_INT64 && FitsMemory(payload)
    modifies w
    ensures w.Valid() && w.GoesOn()
    ensures r.Success? ==> NamesAnEntry(name) && Delivered(w.s, w.root, w.hops, old(w.s), me, name, ContentOf(payload), cfg, r.durable, p, made, since)
    ensures r.Success? ==> WriteSynced(old(w.s).fs, old(w.Synced(me)), w.Synced(me), w.root, ParentOf(name), w.hops, made, p.slot.dir, r.durable)
    ensures r.Failure? ==> Undone(w.s, me, ContentOf(payload), cfg, r.error, since)
    ensures r.Failure? ==> RefusedFor(r.error, w.s, w.root, w.hops, name)
    ensures !NamesAnEntry(name) ==> r == Failure(UnsafePath)
    ensures w.faults == old(w.faults) + since && Blames(if r.Failure? then Some(r.error) else None, since)
    ensures r.Failure? ==> Warranted(w, old(w.troubles), old(w.taken), old(w.looks), name, cfg, Unable(payload, cfg.maxBytes), r.error)
    ensures SourceFails(payload) ==> r.Failure?
    ensures r.Success? ==> w.looks == old(w.looks) + LooksOf(payload)
  {
    p := Publication(me, Slot(w.root, ""), w.root, [], None);
    ghost var first, start, troubles, taken, looks, unable := w.acts, w.s, w.troubles, w.taken, w.looks, Unable(payload, cfg.maxBytes);
    var failure, dirSyncFailed;
    failure, dirSyncFailed, made, since := OpenTempForRoot(w, me, name, cfg);
    if failure.Some? {
      AbandonedNeverPublished(w, me);
      UnableChangesNothing(w, troubles, taken, looks, name, cfg, unable, failure.value);
      return Failure(failure.value), p, made, since;
    }
    ghost var rest, t, k, l := [], w.troubles, w.taken, w.looks;
    r, p, rest := PublishOpened(w, me, name, cfg, payload, dirSyncFailed, first, start, made, since);
    OpeningChangesNoVerdict(w.s, me, ContentOf(payload), cfg, r, since, rest);
    if r.Failure? {
      WarrantedEarlier(w, troubles, taken, looks, t, k, l, name, cfg, unable, r.error);
    } else {
      LooksAddUp(looks, l, w.looks, payload);
    }
    since := since + rest;
  }

  /** From the open temp to the verdict. */
  method PublishOpened(w: Host, me: Wid, name: Path, cfg: Config, payload: Payload, dirSyncFailed: bool,
                       ghost first: seq<Act>, ghost start: State, ghost made: set<Slot>, ghost opening: seq<Step>)
    returns (r: Outcome, ghost p: Publication, ghost rest: seq<Step>)
    requires w.Valid() && name != [] && PlainName(name) && cfg.maxBytes <= MAX_INT64 && FitsMemory(payload)
    requires w.StagesIn(me, ParentOf(name), cfg.mode) && w.Data(me) == [] && w.Private(me)
    requires Prepared(w.s, w.root, w.hops, start, me, name, made, dirSyncFailed)
    requires OnlySyncFaults(opening) && (dirSyncFailed <==> opening != []) && w.Passed(first, start) && IsDir(start.fs, w.root)
    requires LevelsSynced(start.fs, SyncedBy(first, me), w.Synced(me), w.root, ParentOf(name), w.hops, made, !dirSyncFailed)
    modifies w
    ensures w.Valid() && w.GoesOn()
    ensures r.Success? ==> Delivered(w.s, w.root, w.hops, start, me, name, ContentOf(payload), cfg, r.durable, p, made, opening + rest)
    ensures r.Success? ==> WriteSynced(start.fs, SyncedBy(first, me), w.Synced(me), w.root, ParentOf(name), w.hops, made, p.slot.dir, r.durable)
    ensures r.Failure? ==> Undone(w.s, me, ContentOf(payload), cfg, r.error, rest) && !IsRefusal(r.error)
    ensures w.faults == old(w.faults) + rest && Blames(if r.Failure? then Some(r.error) else None, rest)
    ensures r.Failure? ==> Warranted(w, old(w.troubles), old(w.taken), old(w.looks), name, cfg, Unable(payload, cfg.maxBytes), r.error)
    ensures SourceFails(payload) ==> r.Failure?
    ensures r.Success? ==> w.looks == old(w.looks) + LooksWhileCopying(payload) + LAST_LOOKS
  {
    ghost var temp, troubles, taken, looks := w.s.writers[me].temp, w.troubles, w.taken, w.looks;
    p := Publication(me, Slot(w.root, ""), w.root, [], None);
    var failure;
    failure, rest := StageBeside(w, me, name, cfg, payload, dirSyncFailed, first, start, made);
    if failure.Some? {
      r := Failure(failure.value);
      return;
    } else {
      r, p, rest := CommitWarranted(w, me, name, cfg, dirSyncFailed, temp, ContentOf(payload), first, start, made, opening, troubles, taken, looks, Unable(payload, cfg.maxBytes));
    }
  }

  /** Data and barrier, with the way to the target still clear afterwards. */
  method StageBeside(w: Host, me: Wid, name: Path, cfg: Config, payload: Payload, ghost dirSyncFailed: bool,
                     ghost first: seq<Act>, ghost start: State, ghost made: set<Slot>)
    returns (failure: Option<WriteFailure>, ghost since: seq<Step>)
    requires w.Valid() && name != [] && cfg.maxBytes <= MAX_INT64 && FitsMemory(payload)
    requires w.StagesIn(me, ParentOf(name), cfg.mode) && w.Data(me) == [] && w.Private(me) && w.Passed(first, start)
    requires Prepared(w.s, w.root, w.hops, start, me, name, made, dirSyncFailed)
    requires LevelsSynced(start.fs, SyncedBy(first, me), w.Synced(me), w.root, ParentOf(name), w.hops, made, !dirSyncFailed)
    modifies w
    ensures w.Valid() && w.GoesOn() && w.Passed(first, start)
    ensures failure.None? ==> Publishable(w, me, old(w.s.writers[me].temp), ContentOf(payload), cfg) && since == []
    ensures failure.None? ==> Prepared(w.s, w.root, w.hops, start, me, name, made, dirSyncFailed)
                              && Resolve(w.s.fs, w.root, ParentOf(name), w.hops).ino == old(w.s.writers[me].temp).slot.dir
    ensures failure.None? ==> LevelsSynced(start.fs, SyncedBy(first, me), w.Synced(me), w.root, ParentOf(name), w.hops, made, !dirSyncFailed)
    ensures failure.Some? ==> Undone(w.s, me, ContentOf(payload), cfg, failure.value, since) && !IsRefusal(failure.value)
    ensures if failure.Some? then w.faults == old(w.faults) + since && Blames(failure, since) else w.faults == old(w.faults)
    ensures failure.Some? ==> Warranted(w, old(w.troubles), old(w.taken), old(w.looks), name, cfg, Unable(payload, cfg.maxBytes), failure.value)
    ensures failure.None? ==> !SourceFails(payload) && w.looks == old(w.looks) + LooksWhileCopying(payload) + LAST_LOOKS
  {
    ghost var before, run := w.s, w.acts;
    failure, since := StageAndFinalize(w, me, payload, cfg, name);
    if failure.Some? {
      AbandonedNeverPublished(w, me);
    } else {
      StaysPrepared(w, run, before, start, me, name, made, dirSyncFailed);
    }
  }

  /** The commit-side barrier, with its failure told since an earlier moment. */
  method CommitWarranted(w: Host, me: Wid, name: Path, cfg: Config, dirSyncFailed: bool, ghost temp: Temp, ghost content: seq<Byte>,
                         ghost first: seq<Act>, ghost start: State, ghost made: set<Slot>, ghost opening: seq<Step>,
                         ghost troubles: nat, ghost taken: nat, ghost looks: seq<Look>, ghost unable: bool)
    returns (r: Outcome, ghost p: Publication, ghost rest: seq<Step>)
    requires w.Valid() && name != [] && PlainName(name) && Publishable(w, me, temp, content, cfg) && troubles <= w.troubles
    requires Prepared(w.s, w.root, w.hops, start, me, name, made, dirSyncFailed)
    requires Resolve(w.s.fs, w.root, ParentOf(name), w.hops).ino == temp.slot.dir
    requires OnlySyncFaults(opening) && (dirSyncFailed <==> opening != []) && w.Passed(first, start) && IsDir(start.fs, w.root)
    requires LevelsSynced(start.fs, SyncedBy(first, me), w.Synced(me), w.root, ParentOf(name), w.hops, made, !dirSyncFailed)
    modifies w
    ensures w.Valid() && w.NoLooks()
    ensures Prepared(w.s, w.root, w.hops, start, me, name, made, dirSyncFailed) && (r.Success? <==> WriterOf(w.s, me).Published?)
    ensures r.Success? ==> Delivered(w.s, w.root, w.hops, start, me, name, content, cfg, r.durable, p, made, opening + rest)
    ensures r.Success? ==> WriteSynced(start.fs, SyncedBy(first, me), w.Synced(me), w.root, ParentOf(name), w.hops, made, p.slot.dir, r.durable)
    ensures r.Failure? ==> Undone(w.s, me, content, cfg, r.error, rest) && !IsRefusal(r.error)
    ensures w.faults == old(w.faults) + rest && Blames(if r.Failure? then Some(r.error) else None, rest)
    ensures r.Failure? ==> Warranted(w, troubles, taken, looks, name, cfg, unable, r.error)
  {
    r, p, rest := CommitPrepared(w, me, name, cfg, dirSyncFailed, temp, content, first, start, made, opening);
    if r.Failure? {
      RenameIsWarranted(w, troubles, taken, looks, name, cfg, unable);
    }
  }

  /** The whole-buffer entry point: an over-cap buffer is refused before anything is
      staged. */
  method WriteFileInRoot(w: Host, me: Wid, name: Path, cfg: Config, data: seq<Byte>)
    returns (r: Outcome, ghost p: Publication, ghost made: set<Slot>, ghost since: seq<Step>)
    requires w.Valid() && WriterOf(w.s, me).Idle? && PlainName(name) && cfg.maxBytes <= MAX_INT64
    modifies w
    ensures w.Valid() && w.GoesOn()
    ensures r.Success? ==> NamesAnEntry(name) && Delivered(w.s, w.root, w.hops, old(w.s), me, name, data, cfg, r.durable, p, made, since)
    ensures r.Success? ==> WriteSynced(old(w.s).fs, old(w.Synced(me)), w.Synced(me), w.root, ParentOf(name), w.hops, made, p.slot.dir, r.durable)
    ensures r.Failure? ==> Undone(w.s, me, data, cfg, r.error, since)
    ensures if cfg.maxBytes > 0 && |data| > cfg.maxBytes then r == Failure(FileTooLarge) && w.s == old(w.s)
            else (r.Failure? ==> RefusedFor(r.error, w.s, w.root, w.hops, name)) && (!NamesAnEntry(name) ==> r == Failure(UnsafePath))
    ensures w.faults == old(w.faults) + since && Blames(if r.Failure? then Some(r.error) else None, since)
    ensures r.Failure? ==> r.error.FileTooLarge? || Warranted(w, old(w.troubles), old(w.taken), old(w.looks), name, cfg, false, r.error)
    ensures r.Success? ==> w.looks == old(w.looks) + LooksOf(Whole(data))
  {
    if cfg.maxBytes > 0 && |data| > cfg.maxBytes {
      AbandonedNeverPublished(w, me);
      return Failure(FileTooLarge), Publication(me, Slot(w.root, ""), w.root, [], None), {}, [];
    }
    r, p, made, since := WriteAtomicInRoot(w, me, name, cfg, Whole(data));
  }
}
