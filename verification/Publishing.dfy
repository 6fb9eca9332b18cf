/** The publication protocol as a state machine: any number of writers, each
    staging, syncing and renaming one temp file, and any number of sweeps, all
    interleaved one system call at a time. A failed call that changes nothing is no
    step at all, so every fault schedule is some run of this machine. */
module Publishing {
  import opened FileSystem
  import opened Modes
  import opened TempNames

  type Wid = nat

  /** A temp file held by a writer: the entry it created, the inode behind it, and
      the mode its owner demanded, if any. */
  datatype Temp = Temp(slot: Slot, ino: Ino, want: Option<FileMode>)

  /** How far one write has come. Each write has its own id, used once. */
  datatype Writer =
    | Idle
    | Staging(temp: Temp)                                    // handle open, bytes may still change
    | Sealed(temp: Temp, content: seq<Byte>, open: bool)     // fsynced; no byte changes after this
    | Dropped(temp: Temp)                                    // handle closed, nothing will be published
    | Published
    | Gone                                                   // the temp name has been unlinked

  /** The record of one rename that published a file. */
  datatype Publication = Publication(writer: Wid, slot: Slot, ino: Ino, content: seq<Byte>, want: Option<FileMode>)

  /** `made` are the directories writes created, `condemned` the entries some sweep
      has decided to unlink, and `drawn` the temp names drawn so far or left behind by
      earlier processes. A sweep reclaims what was last changed by `cutoff`. */
  datatype State = State(
    fs: FS, writers: map<Wid, Writer>, log: seq<Publication>,
    made: map<Ino, Wid>, condemned: set<Slot>, drawn: set<Name>, cutoff: int)

  /** The successful system calls, and who makes them. `mode` is the mode the
      filesystem stored, whatever was asked. */
  datatype Act =
    | Create(w: Wid, slot: Slot, ino: Ino, mode: FileMode, want: Option<FileMode>, now: int)
    | Stage(w: Wid, data: seq<Byte>, now: int)
    | Chmod(w: Wid, mode: FileMode)
    | Seal(w: Wid)
    | Close(w: Wid)
    | Publish(w: Wid, name: Name)
    | Unlink(w: Wid)
    | Mkdir(w: Wid, slot: Slot, ino: Ino, mode: FileMode)
    | ChmodDir(w: Wid, ino: Ino, mode: FileMode)
    | SyncEntries(w: Wid, dir: Ino)
    | Inspect(w: Wid, slot: Slot)
    | Reap(w: Wid, slot: Slot)

  function WriterOf(s: State, w: Wid): Writer {
    if w in s.writers then s.writers[w] else Idle
  }

  predicate Holds(wr: Writer) { wr.Staging? || wr.Sealed? || wr.Dropped? }

  predicate ModeProved(fs: FS, temp: Temp, mode: FileMode) {
    temp.want.Some? ==> IsFile(fs, temp.ino) && ChmodBits(fs.nodes[temp.ino].mode) == ChmodBits(mode)
  }

  /** What the protocol demands of each call. The rename moves whatever inode the temp
      name is bound to: being the writer's own is a theorem, not a condition. */
  predicate Enabled(s: State, a: Act) {
    match a
    case Create(w, slot, ino, _, _, _) =>
      WriterOf(s, w).Idle? && IsDir(s.fs, slot.dir) && IsTempName(slot.name) && slot !in s.fs.bind && ino !in s.fs.nodes
    case Stage(w, _, _) =>
      var wr := WriterOf(s, w);
      wr.Staging? && IsFile(s.fs, wr.temp.ino) && ModeProved(s.fs, wr.temp, OWNER_ONLY)
    case Chmod(w, _) => var wr := WriterOf(s, w); wr.Staging? && IsFile(s.fs, wr.temp.ino)
    case Seal(w) => var wr := WriterOf(s, w); wr.Staging? && IsFile(s.fs, wr.temp.ino)
    case Close(w) => var wr := WriterOf(s, w); wr.Staging? || (wr.Sealed? && wr.open)
    case Publish(w, name) =>
      var wr := WriterOf(s, w);
      && wr.Sealed? && !wr.open && wr.temp.slot in s.fs.bind
      && !IsTempName(name) && name != wr.temp.slot.name && !NonFileLink(s.fs, Slot(wr.temp.slot.dir, name))
      && (Slot(wr.temp.slot.dir, name) in s.fs.bind ==> !IsDir(s.fs, s.fs.bind[wr.temp.slot]))
      && (wr.temp.want.Some? ==> ModeProved(s.fs, wr.temp, wr.temp.want.value))
    case Unlink(w) => var wr := WriterOf(s, w); wr.Dropped? || (wr.Sealed? && !wr.open)
    case Mkdir(w, slot, ino, _) =>
      IsDir(s.fs, slot.dir) && slot !in s.fs.bind && ino !in s.fs.nodes
    case ChmodDir(w, ino, _) => ino in s.made && s.made[ino] == w && IsDir(s.fs, ino)
    case SyncEntries(_, _) => true
    case Inspect(_, slot) =>
      IsTempName(slot.name) && slot in s.fs.bind && IsFile(s.fs, s.fs.bind[slot]) && s.fs.nodes[s.fs.bind[slot]].mtime <= s.cutoff
    case Reap(_, slot) => slot in s.condemned
  }

  function RemoveEntry(fs: FS, sl: Slot): FS {
    if sl in fs.bind then Rebind(fs, sl, Absent) else fs
  }

  function Apply(s: State, a: Act): State
    requires Enabled(s, a)
  {
    match a
    case Create(w, slot, ino, mode, want, now) =>
      s.(fs := Rebind(SetNode(s.fs, ino, File([], false, mode, now)), slot, Bound(ino)),
         writers := s.writers[w := Staging(Temp(slot, ino, want))], drawn := s.drawn + {slot.name})
    case Stage(w, data, now) =>
      var i := WriterOf(s, w).temp.ino;
      s.(fs := SetNode(s.fs, i, s.fs.nodes[i].(data := data, synced := false, mtime := now)))
    case Chmod(w, mode) =>
      var i := WriterOf(s, w).temp.ino;
      s.(fs := SetNode(s.fs, i, s.fs.nodes[i].(mode := mode)))
    case Seal(w) =>
      var temp := WriterOf(s, w).temp;
      s.(fs := SetNode(s.fs, temp.ino, s.fs.nodes[temp.ino].(synced := true)),
         writers := s.writers[w := Sealed(temp, s.fs.nodes[temp.ino].data, true)])
    case Close(w) =>
      var wr := WriterOf(s, w);
      s.(writers := s.writers[w := if wr.Sealed? then wr.(open := false) else Dropped(wr.temp)])
    case Publish(w, name) =>
      var wr := WriterOf(s, w);
      var to := Slot(wr.temp.slot.dir, name);
      s.(fs := RenameEntry(s.fs, wr.temp.slot, to), writers := s.writers[w := Published],
         log := s.log + [Publication(w, to, s.fs.bind[wr.temp.slot], wr.content, wr.temp.want)])
    case Unlink(w) =>
      s.(fs := RemoveEntry(s.fs, WriterOf(s, w).temp.slot), writers := s.writers[w := Gone])
    case Mkdir(w, slot, ino, mode) =>
      s.(fs := Rebind(SetNode(s.fs, ino, Dir(mode)), slot, Bound(ino)), made := s.made[ino := w])
    case ChmodDir(w, ino, mode) => s.(fs := SetNode(s.fs, ino, Dir(mode)))
    case SyncEntries(_, dir) => s.(fs := SyncDir(s.fs, dir))
    case Inspect(_, slot) => s.(condemned := s.condemned + {slot})
    case Reap(_, slot) => s.(fs := RemoveEntry(s.fs, slot))
  }

  /** The one assumption the atomicity of a write beside a sweep rests on: a new temp or
      directory does not take a name that another writer still holds or that a sweep is
      about to unlink. */
  predicate ReuseSafe(s: State, a: Act) {
    a.Create? || a.Mkdir? ==> a.slot !in s.condemned && forall v | v in s.writers && Holds(s.writers[v]) :: s.writers[v].temp.slot != a.slot
  }

  predicate Allowed(s: State, a: Act) { Enabled(s, a) && ReuseSafe(s, a) }

  ghost predicate Initial(s: State) {
    && Sound(s.fs) && s.writers == map[] && s.log == [] && s.made == map[] && s.condemned == {}
    && forall sl :: sl in s.fs.bind && IsTempName(sl.name) && !NonFileLink(s.fs, sl) ==> sl.name in s.drawn
  }

  ghost predicate AllowedRun(s: State, acts: seq<Act>)
    decreases |acts|
  {
    acts == [] || (Allowed(s, acts[0]) && AllowedRun(Apply(s, acts[0]), acts[1..]))
  }

  ghost function After(s: State, acts: seq<Act>): State
    requires AllowedRun(s, acts)
    decreases |acts|
  {
    if acts == [] then s else After(Apply(s, acts[0]), acts[1..])
  }

  // ---- The invariant ------------------------------------------------------

  ghost predicate Held(s: State, w: Wid) { w in s.writers && Holds(s.writers[w]) }

  ghost predicate TempsStand(s: State) {
    forall w :: Held(s, w) ==>
      var t := s.writers[w].temp;
      IsFile(s.fs, t.ino) && IsDir(s.fs, t.slot.dir) && IsTempName(t.slot.name)
      && Lookup(s.fs, t.slot) in {Bound(t.ino), Absent}
  }

  /** A temp's inode is reachable by its own name only, now and after any crash. */
  ghost predicate TempsArePrivate(s: State) {
    forall w, sl :: Held(s, w) && Bound(s.writers[w].temp.ino) in Possible(s.fs, sl) ==> sl == s.writers[w].temp.slot
  }

  ghost predicate TempsAreDistinct(s: State) {
    forall v, w :: Held(s, v) && Held(s, w) && v != w ==>
      s.writers[v].temp.ino != s.writers[w].temp.ino && s.writers[v].temp.slot != s.writers[w].temp.slot
  }

  ghost predicate SealHolds(s: State) {
    forall w :: w in s.writers && s.writers[w].Sealed? ==>
      var wr := s.writers[w];
      IsFile(s.fs, wr.temp.ino) && s.fs.nodes[wr.temp.ino].synced && s.fs.nodes[wr.temp.ino].data == wr.content
  }

  /** Everything ever published is a complete file, synced after its last write, and
      under a demanded mode it holds exactly that mode. */
  ghost predicate PublicationStands(fs: FS, p: Publication) {
    && IsFile(fs, p.ino) && fs.nodes[p.ino].synced && fs.nodes[p.ino].data == p.content
    && (p.want.Some? ==> ChmodBits(fs.nodes[p.ino].mode) == ChmodBits(p.want.value))
  }

  ghost predicate LogStands(s: State) {
    && (forall k :: 0 <= k < |s.log| ==> PublicationStands(s.fs, s.log[k]))
    && (forall k, w :: 0 <= k < |s.log| && Held(s, w) ==> s.writers[w].temp.ino != s.log[k].ino)
  }

  /** A write publishes at most once, and never at a temp name. */
  ghost predicate WritesPublishOnce(s: State) {
    && (forall k :: 0 <= k < |s.log| ==> WriterOf(s, s.log[k].writer).Published? && !IsTempName(s.log[k].slot.name))
    && (forall j, k :: 0 <= j < k < |s.log| ==> s.log[j].writer != s.log[k].writer)
  }

  ghost predicate PublishedAt(log: seq<Publication>, sl: Slot, b: Binding) {
    exists k :: 0 <= k < |log| && log[k].slot == sl && b == Bound(log[k].ino)
  }

  function LastOn(log: seq<Publication>, sl: Slot): Option<Publication> {
    if log == [] then None else
    if log[|log| - 1].slot == sl then Some(log[|log| - 1]) else LastOn(log[..|log| - 1], sl)
  }

  ghost predicate IsMadeDir(s: State, b: Binding) { b.Bound? && b.ino in s.made }

  /** What a crash may leave at a name that is not a temp's: something it could have
      left at the start, a directory a write made, or a published file. */
  ghost predicate NamesArePublished(s0: State, s: State) {
    forall sl: Slot, b: Binding :: !IsTempName(sl.name) && b in Possible(s.fs, sl) ==>
      b in Possible(s0.fs, sl) || IsMadeDir(s, b) || PublishedAt(s.log, sl, b)
  }

  ghost predicate NameIsCurrent(s0: State, s: State, sl: Slot) {
    match LastOn(s.log, sl)
    case Some(p) => Lookup(s.fs, sl) == Bound(p.ino)
    case None => Lookup(s.fs, sl) == Lookup(s0.fs, sl) || (Lookup(s0.fs, sl) == Absent && IsMadeDir(s, Lookup(s.fs, sl)))
  }

  ghost predicate NamesAreCurrent(s0: State, s: State) {
    forall sl: Slot :: !IsTempName(sl.name) ==> NameIsCurrent(s0, s, sl)
  }

  predicate KeepsNodes(before: FS, after: FS) {
    forall i :: i in before.nodes ==> i in after.nodes && after.nodes[i] == before.nodes[i]
  }

  ghost predicate OldNodesKept(s0: State, s: State) {
    && KeepsNodes(s0.fs, s.fs)
    && (forall w :: Held(s, w) ==> s.writers[w].temp.ino !in s0.fs.nodes)
    && (forall i :: i in s.made ==> i !in s0.fs.nodes && IsDir(s.fs, i))
  }

  /** Every temp name in use, or about to be unlinked, has been drawn. */
  ghost predicate NamesAreDrawn(s: State) {
    && (forall sl :: sl in s.condemned ==> sl.name in s.drawn)
    && (forall sl :: sl in s.fs.bind && IsTempName(sl.name) && !NonFileLink(s.fs, sl) ==> sl.name in s.drawn)
    && (forall w :: Held(s, w) ==> s.writers[w].temp.slot.name in s.drawn)
  }

  ghost predicate SweepIsConfined(s: State) {
    && (forall sl :: sl in s.condemned ==> IsTempName(sl.name) && !NonFileLink(s.fs, sl))
    && (forall w :: Held(s, w) && s.writers[w].temp.slot !in s.condemned ==>
          Lookup(s.fs, s.writers[w].temp.slot) == Bound(s.writers[w].temp.ino))
  }

  ghost predicate Inv(s0: State, s: State) {
    && Sound(s.fs)
    && TempsStand(s) && TempsArePrivate(s) && TempsAreDistinct(s)
    && SealHolds(s) && LogStands(s) && WritesPublishOnce(s)
    && NamesArePublished(s0, s) && NamesAreCurrent(s0, s)
    && OldNodesKept(s0, s) && SweepIsConfined(s) && NamesAreDrawn(s)
  }

  lemma InitialInv(s: State)
    requires Initial(s)
    ensures Inv(s, s)
  {
  }

  // ---- The invariant is inductive -------------------------------------------
  // One lemma for each part of the invariant and each group of calls: those that leave
  // every entry alone, those that add one, and those that move or remove one.

  predicate Adds(a: Act) { a.Create? || a.Mkdir? }

  predicate Moves(a: Act) { a.Publish? || a.Unlink? || a.Reap? }

  predicate Leaves(a: Act) { !Adds(a) && !Moves(a) }

  lemma LeavingKeepsSoundness(s: State, a: Act)
    requires Sound(s.fs) && TempsStand(s)
    requires Allowed(s, a) && Leaves(a)
    ensures Sound(Apply(s, a).fs)
  {
  }

  lemma AddingKeepsSoundness(s: State, a: Act)
    requires Sound(s.fs) && TempsStand(s)
    requires Allowed(s, a) && Adds(a)
    ensures Sound(Apply(s, a).fs)
  {
  }

  lemma MovingKeepsSoundness(s: State, a: Act)
    requires Sound(s.fs) && TempsStand(s)
    requires Allowed(s, a) && Moves(a)
    ensures Sound(Apply(s, a).fs)
  {
  }

  lemma LeavingKeepsTempsStanding(s: State, a: Act)
    requires Sound(s.fs) && TempsStand(s) && TempsAreDistinct(s)
    requires Allowed(s, a) && Leaves(a)
    ensures TempsStand(Apply(s, a))
  {
  }

  lemma AddingKeepsTempsStanding(s: State, a: Act)
    requires Sound(s.fs) && TempsStand(s) && TempsAreDistinct(s)
    requires Allowed(s, a) && Adds(a)
    ensures TempsStand(Apply(s, a))
  {
  }

  lemma MovingKeepsTempsStanding(s: State, a: Act)
    requires Sound(s.fs) && TempsStand(s) && TempsAreDistinct(s)
    requires Allowed(s, a) && Moves(a)
    ensures TempsStand(Apply(s, a))
  {
  }

  lemma StayingKeepsTempsPrivate(s: State, a: Act)
    requires Sound(s.fs) && TempsStand(s) && TempsArePrivate(s) && TempsAreDistinct(s)
    requires Allowed(s, a) && !Moves(a)
    ensures TempsArePrivate(Apply(s, a))
  {
  }

  lemma MovingKeepsTempsPrivate(s: State, a: Act)
    requires Sound(s.fs) && TempsStand(s) && TempsArePrivate(s) && TempsAreDistinct(s)
    requires Allowed(s, a) && Moves(a)
    ensures TempsArePrivate(Apply(s, a))
  {
  }

  lemma StayingKeepsTempsDistinct(s: State, a: Act)
    requires TempsStand(s) && TempsAreDistinct(s)
    requires Allowed(s, a) && !Moves(a)
    ensures TempsAreDistinct(Apply(s, a))
  {
  }

  lemma MovingKeepsTempsDistinct(s: State, a: Act)
    requires TempsStand(s) && TempsAreDistinct(s)
    requires Allowed(s, a) && Moves(a)
    ensures TempsAreDistinct(Apply(s, a))
  {
  }

  lemma StepKeepsSeals(s: State, a: Act)
    requires TempsStand(s) && TempsAreDistinct(s) && SealHolds(s)
    requires Allowed(s, a)
    ensures SealHolds(Apply(s, a))
  {
  }

  lemma LeavingKeepsLog(s0: State, s: State, a: Act)
    requires TempsStand(s) && TempsAreDistinct(s) && SealHolds(s) && LogStands(s) && OldNodesKept(s0, s)
    requires Allowed(s, a) && Leaves(a)
    ensures LogStands(Apply(s, a))
  {
  }

  lemma AddingKeepsLog(s0: State, s: State, a: Act)
    requires TempsStand(s) && TempsAreDistinct(s) && SealHolds(s) && LogStands(s) && OldNodesKept(s0, s)
    requires Allowed(s, a) && Adds(a)
    ensures LogStands(Apply(s, a))
  {
  }

  lemma MovingKeepsLog(s0: State, s: State, a: Act)
    requires TempsStand(s) && TempsAreDistinct(s) && SealHolds(s) && LogStands(s) && OldNodesKept(s0, s)
    requires Allowed(s, a) && Moves(a)
    ensures LogStands(Apply(s, a))
  {
  }

  lemma StepKeepsSinglePublication(s: State, a: Act)
    requires WritesPublishOnce(s)
    requires Allowed(s, a)
    ensures WritesPublishOnce(Apply(s, a))
  {
  }

  lemma StayingKeepsNamesPublished(s0: State, s: State, a: Act)
    requires Sound(s.fs) && TempsStand(s) && SweepIsConfined(s) && NamesArePublished(s0, s)
    requires Allowed(s, a) && !Moves(a)
    ensures NamesArePublished(s0, Apply(s, a))
  {
  }

  lemma MovingKeepsNamesPublished(s0: State, s: State, a: Act)
    requires Sound(s.fs) && TempsStand(s) && SweepIsConfined(s) && NamesArePublished(s0, s)
    requires Allowed(s, a) && Moves(a)
    ensures NamesArePublished(s0, Apply(s, a))
  {
    var s' := Apply(s, a);
    forall sl: Slot, b: Binding | !IsTempName(sl.name) && b in Possible(s'.fs, sl)
      ensures b in Possible(s0.fs, sl) || IsMadeDir(s', b) || PublishedAt(s'.log, sl, b)
    {
      if b in Possible(s.fs, sl) {
        if PublishedAt(s.log, sl, b) {
          var k :| 0 <= k < |s.log| && s.log[k].slot == sl && b == Bound(s.log[k].ino);
          assert s'.log[k] == s.log[k];
        }
      } else if a.Publish? {
        assert s'.log[|s.log|].slot == sl;
      }
    }
  }

  lemma StayingKeepsNamesCurrent(s0: State, s: State, a: Act)
    requires TempsStand(s) && SweepIsConfined(s) && NamesAreCurrent(s0, s)
    requires Allowed(s, a) && !Moves(a)
    ensures NamesAreCurrent(s0, Apply(s, a))
  {
  }

  lemma MovingKeepsNamesCurrent(s0: State, s: State, a: Act)
    requires TempsStand(s) && SweepIsConfined(s) && NamesAreCurrent(s0, s)
    requires Allowed(s, a) && Moves(a)
    ensures NamesAreCurrent(s0, Apply(s, a))
  {
  }

  lemma LeavingKeepsOldNodes(s0: State, s: State, a: Act)
    requires TempsStand(s) && TempsAreDistinct(s) && OldNodesKept(s0, s)
    requires Allowed(s, a) && Leaves(a)
    ensures OldNodesKept(s0, Apply(s, a))
  {
    LeavingChangesNoOldNode(s0, s, a);
  }

  lemma LeavingChangesNoOldNode(s0: State, s: State, a: Act)
    requires TempsStand(s) && OldNodesKept(s0, s)
    requires Allowed(s, a) && Leaves(a)
    ensures KeepsNodes(s0.fs, Apply(s, a).fs)
  {
  }

  lemma AddingKeepsOldNodes(s0: State, s: State, a: Act)
    requires TempsStand(s) && TempsAreDistinct(s) && OldNodesKept(s0, s)
    requires Allowed(s, a) && Adds(a)
    ensures OldNodesKept(s0, Apply(s, a))
  {
  }

  lemma MovingKeepsOldNodes(s0: State, s: State, a: Act)
    requires TempsStand(s) && TempsAreDistinct(s) && OldNodesKept(s0, s)
    requires Allowed(s, a) && Moves(a)
    ensures OldNodesKept(s0, Apply(s, a))
  {
  }

  lemma LeavingKeepsSweepConfined(s: State, a: Act)
    requires Sound(s.fs) && TempsStand(s) && TempsAreDistinct(s) && SweepIsConfined(s)
    requires Allowed(s, a) && Leaves(a)
    ensures SweepIsConfined(Apply(s, a))
  {
  }

  lemma AddingKeepsSweepConfined(s: State, a: Act)
    requires Sound(s.fs) && TempsStand(s) && TempsAreDistinct(s) && SweepIsConfined(s)
    requires Allowed(s, a) && Adds(a)
    ensures SweepIsConfined(Apply(s, a))
  {
  }

  lemma PublishingKeepsSweepConfined(s: State, a: Act)
    requires Sound(s.fs) && TempsStand(s) && TempsAreDistinct(s) && SweepIsConfined(s)
    requires Allowed(s, a) && a.Publish?
    ensures SweepIsConfined(Apply(s, a))
  {
  }

  lemma RemovingKeepsSweepConfined(s: State, a: Act)
    requires Sound(s.fs) && TempsStand(s) && TempsAreDistinct(s) && SweepIsConfined(s)
    requires Allowed(s, a) && Moves(a) && !a.Publish?
    ensures SweepIsConfined(Apply(s, a))
  {
  }

  lemma StayingKeepsNamesDrawn(s: State, a: Act)
    requires Sound(s.fs) && TempsStand(s) && NamesAreDrawn(s)
    requires Allowed(s, a) && !Moves(a)
    ensures NamesAreDrawn(Apply(s, a))
  {
  }

  lemma MovingKeepsNamesDrawn(s: State, a: Act)
    requires Sound(s.fs) && TempsStand(s) && NamesAreDrawn(s)
    requires Allowed(s, a) && Moves(a)
    ensures NamesAreDrawn(Apply(s, a))
  {
  }

  /** Whatever call comes next, by whichever writer or sweep, the invariant holds after it. */
  lemma StepKeepsInv(s0: State, s: State, a: Act)
    requires Inv(s0, s) && Allowed(s, a)
    ensures Inv(s0, Apply(s, a))
  {
    StepKeepsSeals(s, a);
    StepKeepsSinglePublication(s, a);
    if Moves(a) {
      MovingKeepsSoundness(s, a);
      MovingKeepsTempsStanding(s, a);
      MovingKeepsTempsPrivate(s, a);
      MovingKeepsTempsDistinct(s, a);
      MovingKeepsLog(s0, s, a);
      MovingKeepsNamesPublished(s0, s, a);
      MovingKeepsNamesCurrent(s0, s, a);
      MovingKeepsOldNodes(s0, s, a);
      MovingKeepsNamesDrawn(s, a);
      if a.Publish? { PublishingKeepsSweepConfined(s, a); } else { RemovingKeepsSweepConfined(s, a); }
    } else {
      StayingKeepsTempsPrivate(s, a);
      StayingKeepsTempsDistinct(s, a);
      StayingKeepsNamesPublished(s0, s, a);
      StayingKeepsNamesCurrent(s0, s, a);
      StayingKeepsNamesDrawn(s, a);
      if Adds(a) {
        AddingKeepsSoundness(s, a);
        AddingKeepsTempsStanding(s, a);
        AddingKeepsLog(s0, s, a);
        AddingKeepsOldNodes(s0, s, a);
        AddingKeepsSweepConfined(s, a);
      } else {
        LeavingKeepsSoundness(s, a);
        LeavingKeepsTempsStanding(s, a);
        LeavingKeepsLog(s0, s, a);
        LeavingKeepsOldNodes(s0, s, a);
        LeavingKeepsSweepConfined(s, a);
      }
    }
  }
}
