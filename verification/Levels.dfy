/** Which entries of a path a write found, which it made itself, and what that is worth. */
module Levels {
  import opened FileSystem
  import opened Publishing
  import opened Runs
  import opened Interference

  /** Every entry on the way that is already there is durable - what a caller can look at
      before the call. */
  ghost predicate ExistingSettled(fs: FS, root: Ino, path: Path, hops: nat) {
    forall sl :: sl in PathLinks(fs, root, path, hops) && NonFileLink(fs, sl) ==> Settled(fs, sl)
  }

  /** Whatever directory of the path this write has made since `start` is in `made`. */
  ghost predicate RecordsLevels(start: State, s: State, me: Wid, root: Ino, path: Path, hops: nat, made: set<Slot>) {
    forall sl :: sl in PathLinks(s.fs, root, path, hops) && NewlyMade(start, s, me, sl) ==> sl in made
  }

  predicate NewlyMade(start: State, s: State, me: Wid, sl: Slot) {
    sl in s.fs.bind && MadeBy(me, s, s.fs.bind[sl]) && !MadeBy(me, start, s.fs.bind[sl])
  }

  /** No other writer has made a directory of the path since `start`. */
  ghost predicate NobodyElseMade(start: State, s: State, me: Wid, root: Ino, path: Path, hops: nat) {
    forall sl :: sl in PathLinks(s.fs, root, path, hops) && sl in s.fs.bind && s.fs.bind[sl] in s.made && s.fs.bind[sl] !in start.made ==>
      s.made[s.fs.bind[sl]] == me
  }

  /** What was there was durable, and nobody else was at work on the path. */
  ghost predicate PathWasSafe(start: State, s: State, me: Wid, root: Ino, path: Path, hops: nat) {
    ExistingSettled(start.fs, root, path, hops) && NobodyElseMade(start, s, me, root, path, hops)
  }

  /** The directories made since `start` are bound at entries of `made`. */
  ghost predicate MadeAreIn(start: State, s: State, me: Wid, made: set<Slot>) {
    forall i :: MadeBy(me, s, i) && !MadeBy(me, start, i) ==> exists sl :: sl in made && sl in s.fs.bind && s.fs.bind[sl] == i
  }

  // ---- What a run does to directories -----------------------------------------------

  /** A directory goes by one name. */
  ghost predicate OneName(s: State, i: Ino) {
    IsDir(s.fs, i) ==> forall a, b :: Lookup(s.fs, a) == Bound(i) && Lookup(s.fs, b) == Bound(i) ==> a == b
  }

  lemma StepKeepsOneName(s: State, a: Act, i: Ino)
    requires Sound(s.fs) && TempsStand(s) && Allowed(s, a) && OneName(s, i)
    ensures OneName(Apply(s, a), i)
  {
  }

  lemma {:induction false} NewDirectoriesHaveOneName(s0: State, s: State, acts: seq<Act>, i: Ino)
    requires Inv(s0, s) && AllowedRun(s, acts) && OneName(s, i)
    ensures OneName(After(s, acts), i)
    decreases |acts|
  {
    if acts != [] {
      StepKeepsInv(s0, s, acts[0]);
      StepKeepsOneName(s, acts[0], i);
      NewDirectoriesHaveOneName(s0, Apply(s, acts[0]), acts[1..], i);
    }
  }

  /** What is made is new: an inode that existed is never entered as made. */
  lemma {:induction false} MadeWereNew(s0: State, s: State, acts: seq<Act>, i: Ino)
    requires Inv(s0, s) && AllowedRun(s, acts) && i in s.fs.nodes && i in After(s, acts).made
    ensures i in s.made
    decreases |acts|
  {
    if acts != [] {
      StepKeepsInv(s0, s, acts[0]);
      StepGrows(s, acts[0]);
      MadeWereNew(s0, Apply(s, acts[0]), acts[1..], i);
    }
  }

  /** An entry a crash may drop stays one until its directory is synced. */
  lemma {:induction false} UnsyncedStaysLosable(s0: State, s: State, acts: seq<Act>, sl: Slot)
    requires Inv(s0, s) && AllowedRun(s, acts) && Absent in Possible(s.fs, sl)
    requires forall k :: 0 <= k < |acts| && acts[k].SyncEntries? ==> acts[k].dir != sl.dir
    ensures Absent in Possible(After(s, acts).fs, sl)
    decreases |acts|
  {
    if acts != [] {
      StepKeepsInv(s0, s, acts[0]);
      StepKeepsLosable(s, acts[0], sl);
      UnsyncedStaysLosable(s0, Apply(s, acts[0]), acts[1..], sl);
    }
  }

  lemma StepKeepsLosable(s: State, a: Act, sl: Slot)
    requires Enabled(s, a) && Absent in Possible(s.fs, sl) && (a.SyncEntries? ==> a.dir != sl.dir)
    requires TempsStand(s)
    ensures Absent in Possible(Apply(s, a).fs, sl)
  {
  }

  // ---- The levels of a path ----------------------------------------------------------

  lemma LevelsAreRecorded(s0: State, start: State, acts: seq<Act>, me: Wid, root: Ino, path: Path, hops: nat, made: set<Slot>)
    requires Inv(s0, start) && AllowedRun(start, acts) && MadeAreIn(start, After(start, acts), me, made)
    ensures RecordsLevels(start, After(start, acts), me, root, path, hops, made)
  {
    var s := After(start, acts);
    RunKeepsInv(s0, start, acts);
    forall sl | sl in PathLinks(s.fs, root, path, hops) && NewlyMade(start, s, me, sl)
      ensures sl in made
    {
      var i := s.fs.bind[sl];
      if i in start.fs.nodes {
        MadeWereNew(s0, start, acts, i);
        RunIsOnward(s0, start, acts);
        assert false;
      }
      NewDirectoriesHaveOneName(s0, start, acts, i);
      var t :| t in made && t in s.fs.bind && s.fs.bind[t] == i;
      assert Lookup(s.fs, t) == Bound(i) && Lookup(s.fs, sl) == Bound(i);
    }
  }

  /** Once the path resolves, no more of its levels can be made. */
  lemma RecordStands(s0: State, start: State, before: State, acts: seq<Act>, me: Wid, root: Ino, path: Path, hops: nat, made: set<Slot>)
    requires Inv(s0, before) && AllowedRun(before, acts) && IsDir(before.fs, root) && Resolve(before.fs, root, path, hops).At?
    requires RecordsLevels(start, before, me, root, path, hops, made)
    ensures RecordsLevels(start, After(before, acts), me, root, path, hops, made)
  {
    var s := After(before, acts);
    RunKeepsInv(s0, before, acts);
    RunIsOnward(s0, before, acts);
    OnwardResolves(before, s, root, path, hops);
    LinksAreSkeleton(before.fs, root, root, path, hops);
    forall sl | sl in PathLinks(s.fs, root, path, hops) && NewlyMade(start, s, me, sl)
      ensures sl in made
    {
      assert NonFileLink(before.fs, sl);
      MadeWereNew(s0, before, acts, s.fs.bind[sl]);
    }
  }

  /** If what was there was durable, and nobody else made a level of the path, then with
      every level this write made durable, the whole path is. */
  lemma FoundAndMadeAreAll(s0: State, start: State, acts: seq<Act>, me: Wid, root: Ino, path: Path, hops: nat, made: set<Slot>)
    requires Inv(s0, start) && AllowedRun(start, acts) && IsDir(start.fs, root)
    requires var s := After(start, acts);
             && Resolve(s.fs, root, path, hops).At? && RecordsLevels(start, s, me, root, path, hops, made)
             && PathWasSafe(start, s, me, root, path, hops) && forall sl :: sl in made ==> Settled(s.fs, sl)
    ensures PathSettled(After(start, acts).fs, root, path, hops)
  {
    var s := After(start, acts);
    RunKeepsInv(s0, start, acts);
    RunGrows(s0, start, acts);
    LinksAreSkeleton(s.fs, root, root, path, hops);
    LinksGrow(start.fs, s.fs, root, root, path, hops);
    forall sl | sl in PathLinks(s.fs, root, path, hops)
      ensures Settled(s.fs, sl)
    {
      if NonFileLink(start.fs, sl) {
        assert Settled(start.fs, sl) && Lookup(s.fs, sl) in Possible(s.fs, sl);
      } else {
        NewDirectoriesAreMade(s0, start, acts, s.fs.bind[sl]);
        assert NewlyMade(start, s, me, sl);
      }
    }
  }

  /** And if something that was there could still be lost, and nobody syncs the directory
      it is in, then some crash loses the path, whatever the write did. */
  lemma LosableEntryLosesThePath(s0: State, start: State, acts: seq<Act>, root: Ino, path: Path, hops: nat, sl: Slot) returns (img: Image)
    requires Inv(s0, start) && AllowedRun(start, acts) && IsDir(start.fs, root) && Resolve(After(start, acts).fs, root, path, hops).At?
    requires sl in PathLinks(start.fs, root, path, hops) && NonFileLink(start.fs, sl) && Absent in Possible(start.fs, sl)
    requires forall k :: 0 <= k < |acts| && acts[k].SyncEntries? ==> acts[k].dir != sl.dir
    ensures var fs := After(start, acts).fs;
            CrashOf(fs, img) && Walk(fs.nodes, img.look, root, root, path, hops) == Lost
  {
    var s := After(start, acts);
    RunKeepsInv(s0, start, acts);
    RunGrows(s0, start, acts);
    LinksGrow(start.fs, s.fs, root, root, path, hops);
    UnsyncedStaysLosable(s0, start, acts, sl);
    img := WithoutEntry(s.fs, sl);
    LosingIsACrash(s.fs, sl);
    WalkLost(s.fs.nodes, Live(s.fs), img.look, root, root, path, hops, sl);
  }

  lemma LosingIsACrash(fs: FS, sl: Slot)
    requires Sound(fs) && Absent in Possible(fs, sl)
    ensures CrashOf(fs, WithoutEntry(fs, sl))
  {
  }
}
