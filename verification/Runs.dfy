/** What every run of the publication protocol guarantees: at each of its states, for
    each name, on the live filesystem and after a crash. A run may stop anywhere, so a
    statement about the state after a run is one about every crash point. */
module Runs {
  import opened FileSystem
  import opened Modes
  import opened TempNames
  import opened Publishing

  lemma {:induction false} RunKeepsInv(s0: State, s: State, acts: seq<Act>)
    requires Inv(s0, s) && AllowedRun(s, acts)
    ensures Inv(s0, After(s, acts))
    decreases |acts|
  {
    if acts != [] {
      StepKeepsInv(s0, s, acts[0]);
      RunKeepsInv(s0, Apply(s, acts[0]), acts[1..]);
    }
  }

  // ---- Atomicity ------------------------------------------------------------

  /** The entry names the same inode as before, and that inode is as it was. */
  ghost predicate Untouched(before: FS, after: FS, sl: Slot) {
    && Lookup(after, sl) == Lookup(before, sl)
    && (sl in before.bind && before.bind[sl] in before.nodes ==>
          before.bind[sl] in after.nodes && after.nodes[before.bind[sl]] == before.nodes[before.bind[sl]])
  }

  /** The live target is the initial file, untouched, or the whole content of the writer
      that renamed onto it last. (A name that was free may also have become a directory
      some write created on its way to a deeper target.) */
  ghost predicate LiveIsAtomic(s0: State, s: State, target: Slot) {
    match LastOn(s.log, target)
    case Some(p) => Lookup(s.fs, target) == Bound(p.ino) && PublicationStands(s.fs, p)
    case None => Untouched(s0.fs, s.fs, target) || (target !in s0.fs.bind && IsMadeDir(s, Lookup(s.fs, target)))
  }

  lemma LiveTargetIsAtomic(s0: State, acts: seq<Act>, target: Slot)
    requires Initial(s0) && AllowedRun(s0, acts) && !IsTempName(target.name)
    ensures LiveIsAtomic(s0, After(s0, acts), target)
  {
    InitialInv(s0);
    RunKeepsInv(s0, s0, acts);
    var s := After(s0, acts);
    assert NameIsCurrent(s0, s, target);
    LastOnIsLogged(s.log, target);
  }

  lemma {:induction false} LastOnIsLogged(log: seq<Publication>, sl: Slot)
    ensures match LastOn(log, sl)
            case Some(p) => exists k :: 0 <= k < |log| && log[k] == p && p.slot == sl && forall j :: k < j < |log| ==> log[j].slot != sl
            case None => forall k :: 0 <= k < |log| ==> log[k].slot != sl
  {
    if log != [] {
      LastOnIsLogged(log[..|log| - 1], sl);
    }
  }

  /** What one crash image shows at an entry. */
  ghost predicate Shows(img: Image, sl: Slot, ino: Ino, content: seq<Byte>) {
    img.look(sl) == Bound(ino) && img.bytes(ino) == content
  }

  ghost predicate ShowsInitial(s0: State, img: Image, sl: Slot) {
    var b := img.look(sl);
    && b in Possible(s0.fs, sl)
    && (b.Bound? && IsFile(s0.fs, b.ino) && s0.fs.nodes[b.ino].synced ==> img.bytes(b.ino) == s0.fs.nodes[b.ino].data)
  }

  ghost predicate ShowsPublished(s: State, img: Image, sl: Slot) {
    exists k :: 0 <= k < |s.log| && s.log[k].slot == sl && Shows(img, sl, s.log[k].ino, s.log[k].content)
  }

  /** The crash image shows what the initial state could have shown, a directory a write
      made, or the whole content of a writer that renamed onto the target. */
  ghost predicate CrashIsAtomic(s0: State, s: State, img: Image, target: Slot) {
    ShowsInitial(s0, img, target) || IsMadeDir(s, img.look(target)) || ShowsPublished(s, img, target)
  }

  /** Every crash image of every state shows at the target something the initial state
      could have shown, or the whole content of a writer that renamed onto it. */
  lemma CrashedTargetIsAtomic(s0: State, acts: seq<Act>, img: Image, target: Slot)
    requires Initial(s0) && AllowedRun(s0, acts) && !IsTempName(target.name)
    requires CrashOf(After(s0, acts).fs, img)
    ensures CrashIsAtomic(s0, After(s0, acts), img, target)
  {
    InitialInv(s0);
    RunKeepsInv(s0, s0, acts);
    var s := After(s0, acts);
    var b := img.look(target);
    if b !in Possible(s0.fs, target) && !IsMadeDir(s, b) {
      assert PublishedAt(s.log, target, b);
      var k :| 0 <= k < |s.log| && s.log[k].slot == target && b == Bound(s.log[k].ino);
      assert PublicationStands(s.fs, s.log[k]);
    }
  }

  /** The headline promise: over a target that was durable, every crash shows the complete
      old file or the complete content of one writer that renamed. */
  lemma OldFileOrNewContent(s0: State, acts: seq<Act>, img: Image, target: Slot, prior: Ino)
    requires Initial(s0) && AllowedRun(s0, acts) && !IsTempName(target.name)
    requires CrashOf(After(s0, acts).fs, img)
    requires Lookup(s0.fs, target) == Bound(prior) && Settled(s0.fs, target) && IsFile(s0.fs, prior) && s0.fs.nodes[prior].synced
    ensures Shows(img, target, prior, s0.fs.nodes[prior].data) || ShowsPublished(After(s0, acts), img, target)
  {
    CrashedTargetIsAtomic(s0, acts, img, target);
    InitialInv(s0);
    RunKeepsInv(s0, s0, acts);
    NeverADirectory(s0, s0, acts, target);
  }

  /** No directory is ever made at a name that is taken. */
  lemma {:induction false} NeverADirectory(s0: State, s: State, acts: seq<Act>, target: Slot)
    requires Inv(s0, s) && AllowedRun(s, acts) && !IsTempName(target.name) && target in s.fs.bind
    requires forall b :: b in Possible(s.fs, target) ==> !IsMadeDir(s, b)
    ensures forall b :: b in Possible(After(s, acts).fs, target) ==> !IsMadeDir(After(s, acts), b)
    decreases |acts|
  {
    if acts != [] {
      var s' := Apply(s, acts[0]);
      StepKeepsInv(s0, s, acts[0]);
      StepMakesNoDirectoryAt(s, acts[0], target);
      NeverADirectory(s0, s', acts[1..], target);
    }
  }

  lemma StepMakesNoDirectoryAt(s: State, a: Act, target: Slot)
    requires Sound(s.fs) && TempsStand(s) && SweepIsConfined(s) && forall i :: i in s.made ==> IsDir(s.fs, i)
    requires Allowed(s, a) && !IsTempName(target.name) && target in s.fs.bind
    requires forall b :: b in Possible(s.fs, target) ==> !IsMadeDir(s, b)
    ensures target in Apply(s, a).fs.bind && forall b :: b in Possible(Apply(s, a).fs, target) ==> !IsMadeDir(Apply(s, a), b)
  {
    var s' := Apply(s, a);
    forall b | b in Possible(s'.fs, target)
      ensures !IsMadeDir(s', b)
    {
      assert b in Possible(s.fs, target) || (a.Publish? && b == Bound(WriterOf(s, a.w).temp.ino));
    }
  }

  // ---- The directory skeleton -------------------------------------------------

  lemma StepGrows(s: State, a: Act)
    requires Sound(s.fs) && TempsStand(s) && SweepIsConfined(s) && Allowed(s, a)
    ensures Grows(s.fs, Apply(s, a).fs)
  {
    match a
    case Create(w, slot, ino, mode, want, now) => NewEntryGrows(s.fs, slot, ino, File([], false, mode, now));
    case Stage(w, data, now) =>
      var i := WriterOf(s, w).temp.ino;
      SetNodeGrows(s.fs, i, s.fs.nodes[i].(data := data, synced := false, mtime := now));
    case Chmod(w, mode) =>
      var i := WriterOf(s, w).temp.ino;
      SetNodeGrows(s.fs, i, s.fs.nodes[i].(mode := mode));
    case Seal(w) =>
      var i := WriterOf(s, w).temp.ino;
      SetNodeGrows(s.fs, i, s.fs.nodes[i].(synced := true));
    case Close(_) =>
    case Publish(w, name) =>
      var from := WriterOf(s, w).temp.slot;
      RebindGrows(s.fs, from, Absent);
      var cleared := Rebind(s.fs, from, Absent);
      RebindGrows(cleared, Slot(from.dir, name), Bound(s.fs.bind[from]));
      GrowsTransitive(s.fs, cleared, Apply(s, a).fs);
    case Unlink(w) => RebindGrows(s.fs, WriterOf(s, w).temp.slot, Absent);
    case Mkdir(w, slot, ino, mode) => NewEntryGrows(s.fs, slot, ino, Dir(mode));
    case ChmodDir(w, ino, mode) => SetNodeGrows(s.fs, ino, Dir(mode));
    case SyncEntries(_, dir) => SyncDirGrows(s.fs, dir);
    case Inspect(_, _) =>
    case Reap(_, slot) => RebindGrows(s.fs, slot, Absent);
  }

  /** Along any run directories and symlinks stay where they are, new links lead to new
      directories only, and links that were durable stay durable. */
  lemma {:induction false} RunGrows(s0: State, s: State, acts: seq<Act>)
    requires Inv(s0, s) && AllowedRun(s, acts)
    ensures Grows(s.fs, After(s, acts).fs)
    decreases |acts|
  {
    if acts != [] {
      var s' := Apply(s, acts[0]);
      StepGrows(s, acts[0]);
      StepKeepsInv(s0, s, acts[0]);
      RunGrows(s0, s', acts[1..]);
      GrowsTransitive(s.fs, s'.fs, After(s, acts).fs);
    }
  }

  // ---- Durability -----------------------------------------------------------

  predicate RenamesOnto(s: State, a: Act, target: Slot) {
    a.Publish? && Holds(WriterOf(s, a.w)) && Slot(WriterOf(s, a.w).temp.slot.dir, a.name) == target
  }

  ghost predicate NoRenameOnto(s: State, acts: seq<Act>, target: Slot)
    requires AllowedRun(s, acts)
    decreases |acts|
  {
    acts == [] || (!RenamesOnto(s, acts[0], target) && NoRenameOnto(Apply(s, acts[0]), acts[1..], target))
  }

  /** The entry can come back from a crash only as published by `p`, whole. */
  ghost predicate PublishedForGood(fs: FS, target: Slot, p: Publication) {
    Lookup(fs, target) == Bound(p.ino) && Settled(fs, target) && PublicationStands(fs, p)
  }

  lemma StepKeepsPublication(s: State, a: Act, target: Slot, p: Publication)
    requires Sound(s.fs) && TempsStand(s) && TempsArePrivate(s) && SweepIsConfined(s) && Allowed(s, a)
    requires !IsTempName(target.name) && PublishedForGood(s.fs, target, p) && !RenamesOnto(s, a, target)
    requires forall w :: Held(s, w) ==> s.writers[w].temp.ino != p.ino
    ensures PublishedForGood(Apply(s, a).fs, target, p)
  {
    StepKeepsEntry(s, a, target);
    StepKeepsContent(s, a, p);
  }

  lemma StepKeepsEntry(s: State, a: Act, target: Slot)
    requires Sound(s.fs) && TempsStand(s) && SweepIsConfined(s) && Allowed(s, a)
    requires !IsTempName(target.name) && target in s.fs.bind && Settled(s.fs, target) && !RenamesOnto(s, a, target)
    ensures Lookup(Apply(s, a).fs, target) == Lookup(s.fs, target) && Settled(Apply(s, a).fs, target)
  {
  }

  lemma StepKeepsContent(s: State, a: Act, p: Publication)
    requires PublicationStands(s.fs, p) && Allowed(s, a)
    requires forall w :: Held(s, w) ==> s.writers[w].temp.ino != p.ino
    ensures PublicationStands(Apply(s, a).fs, p)
  {
  }

  lemma {:induction false} RunKeepsPublication(s0: State, s: State, acts: seq<Act>, target: Slot, p: Publication)
    requires Inv(s0, s) && AllowedRun(s, acts) && p in s.log
    requires !IsTempName(target.name) && PublishedForGood(s.fs, target, p) && NoRenameOnto(s, acts, target)
    ensures PublishedForGood(After(s, acts).fs, target, p)
    decreases |acts|
  {
    if acts != [] {
      StepKeepsPublication(s, acts[0], target, p);
      StepKeepsInv(s0, s, acts[0]);
      RunKeepsPublication(s0, Apply(s, acts[0]), acts[1..], target, p);
    }
  }

  /** Once a publication's entry and every entry of the path to it are synced, no crash
      before the next rename onto that name loses the path or a byte of the content,
      whatever any writer or sweep does meanwhile. */
  lemma DurableWriteSurvives(s0: State, s: State, acts: seq<Act>, img: Image,
                             root: Ino, dirPath: Path, hops: nat, base: Name, p: Publication)
    requires Inv(s0, s) && p in s.log && IsDir(s.fs, root) && !IsTempName(base)
    requires Resolve(s.fs, root, dirPath, hops).At? && PathSettled(s.fs, root, dirPath, hops)
    requires PublishedForGood(s.fs, Slot(Resolve(s.fs, root, dirPath, hops).ino, base), p)
    requires AllowedRun(s, acts) && NoRenameOnto(s, acts, Slot(Resolve(s.fs, root, dirPath, hops).ino, base))
    requires CrashOf(After(s, acts).fs, img)
    ensures var there := Walk(After(s, acts).fs.nodes, img.look, root, root, dirPath, hops);
            there == Resolve(s.fs, root, dirPath, hops) && Shows(img, Slot(there.ino, base), p.ino, p.content)
  {
    var target := Slot(Resolve(s.fs, root, dirPath, hops).ino, base);
    RunKeepsPublication(s0, s, acts, target, p);
    RunGrows(s0, s, acts);
    RunKeepsInv(s0, s, acts);
    var s' := After(s, acts);
    SettledPathGrows(s.fs, s'.fs, root, dirPath, hops);
    SettledPathSurvives(s'.fs, root, dirPath, hops, img);
    assert img.look(target) in Possible(s'.fs, target);
  }
}
