/** What Durable == true is worth. */
module Durability {
  import opened FileSystem
  import opened TempNames
  import opened Publishing
  import opened Runs
  import opened Interference
  import opened Hosts
  import opened Directories
  import opened Engine
  import opened Levels
  import opened Syncs
  import opened Schedules

  /** The full path of the target leads there in the crash image, to the whole file that was
      renamed onto it last - this write's, unless another has been renamed over it already. */
  ghost predicate ShowsTheLast(w: Host, after: State, img: Image, name: Path, p: Publication)
    requires name != []
    reads w
  {
    var there := Walk(after.fs.nodes, img.look, w.root, w.root, ParentOf(name), w.hops);
    && LastOn(w.s.log, p.slot).Some? && there.At? && Slot(there.ino, BaseOf(name)) == p.slot
    && Shows(img, p.slot, LastOn(w.s.log, p.slot).value.ino, LastOn(w.s.log, p.slot).value.content)
    && ((forall q :: q in w.s.log && q.slot == p.slot ==> q == p) ==> LastOn(w.s.log, p.slot).value == p)
  }

  lemma SettledMeansCrashProof(w: Host, start: State, me: Wid, name: Path, content: seq<Byte>, cfg: Config, p: Publication,
                               made: set<Slot>, since: seq<Step>, later: seq<Act>, img: Image)
    requires w.Valid() && name != [] && Delivered(w.s, w.root, w.hops, start, me, name, content, cfg, true, p, made, since)
    requires PathSettled(w.s.fs, w.root, ParentOf(name), w.hops)
    requires AllowedRun(w.s, later) && NoRenameOnto(w.s, later, p.slot) && CrashOf(After(w.s, later).fs, img)
    ensures ShowsTheLast(w, After(w.s, later), img, name, p)
  {
    w.Invariant();
    LastOnIsLogged(w.s.log, p.slot);
    var last := LastOn(w.s.log, p.slot).value;
    assert NameIsCurrent(w.s0, w.s, p.slot);
    DurableWriteSurvives(w.s0, w.s, later, img, w.root, ParentOf(name), w.hops, BaseOf(name), last);
  }

  /** A durable success - of any of the entry points, a pending file's Commit included -
      over a path that was safe before the call survives every crash up to the next rename
      onto the name. */
  lemma DurableMeansCrashProof(w: Host, start: State, me: Wid, name: Path, content: seq<Byte>, cfg: Config, p: Publication,
                               made: set<Slot>, since: seq<Step>, later: seq<Act>, img: Image)
    requires w.Valid() && name != [] && Delivered(w.s, w.root, w.hops, start, me, name, content, cfg, true, p, made, since)
    requires PathWasSafe(start, w.s, me, w.root, ParentOf(name), w.hops)
    requires AllowedRun(w.s, later) && NoRenameOnto(w.s, later, p.slot) && CrashOf(After(w.s, later).fs, img)
    ensures ShowsTheLast(w, After(w.s, later), img, name, p)
  {
    SettledMeansCrashProof(w, start, me, name, content, cfg, p, made, since, later, img);
  }

  /** Every entry on the way that is already there is durable, or lies in the deepest
      directory that is: the one directory that was there which the write will sync. A
      caller can look at this before the call. */
  ghost predicate FoundWillSettle(fs: FS, root: Ino, path: Path, hops: nat) {
    forall sl :: sl in PathLinks(fs, root, path, hops) && NonFileLink(fs, sl) ==> Settled(fs, sl) || sl.dir == Deepest(fs, root, path, hops)
  }

  /** No other writer has synced a directory in which an entry of the path was found unsettled. */
  ghost predicate OthersLeaveUnsynced(start: State, acts: seq<Act>, me: Wid, root: Ino, path: Path, hops: nat) {
    forall sl, k :: sl in PathLinks(start.fs, root, path, hops) && NonFileLink(start.fs, sl) && !Settled(start.fs, sl)
                    && 0 <= k < |acts| && acts[k].w != me ==>
      !(acts[k].SyncEntries? && acts[k].dir == sl.dir)
  }

  /** Each entry that was found comes back from a crash as it is or not at all. */
  ghost predicate FoundAreAddedOnly(fs: FS, root: Ino, path: Path, hops: nat) {
    forall sl :: sl in PathLinks(fs, root, path, hops) && NonFileLink(fs, sl) ==> Possible(fs, sl) <= {Lookup(fs, sl), Absent}
  }

  /** What a durable write's own calls were: it synced the directories it made levels in,
      from the deepest there was on, and that of the target, and no others. */
  ghost predicate SyncedItsOwn(start: State, acts: seq<Act>, me: Wid, root: Ino, path: Path, hops: nat, made: set<Slot>, target: Ino) {
    && MadeFromDeepest(start.fs, root, path, hops, made)
    && (forall d :: SyncEntries(me, d) in acts <==> d in DirsOf(made) || d == target)
  }

  lemma DurableSyncsAreItsOwn(start: State, prior: seq<Act>, acts: seq<Act>, me: Wid, root: Ino, path: Path, hops: nat, made: set<Slot>, target: Ino)
    requires prior <= acts
    requires WriteSynced(start.fs, SyncedBy(prior, me), SyncedBy(acts, me), root, path, hops, made, target, true)
    ensures SyncedItsOwn(start, acts[|prior|..], me, root, path, hops, made, target)
  {
    ReadWriteSynced(start.fs, SyncedBy(prior, me), SyncedBy(acts, me), root, path, hops, made, target, true);
    SyncsAreCalls(prior, acts, me);
    var before, now := SyncedBy(prior, me), SyncedBy(acts, me);
    forall d
      ensures SyncEntries(me, d) in acts[|prior|..] <==> d in DirsOf(made) || d == target
    {
      if d in now[|before|..] {
        var k :| 0 <= k < |now[|before|..]| && now[|before|..][k] == d;
        assert now[|before| + k] == d;
      }
    }
  }

  /** Exactly when Durable is worth what it says: with nobody else at work on the path, the
      path of a durable write survives all crashes if and only if, before the call, every
      directory and symlink of it that was already there was durable or lay in the deepest
      directory that was. */
  lemma DurableIffFoundDirectoriesWere(w: Host, prior: seq<Act>, start: State, me: Wid, name: Path, content: seq<Byte>, cfg: Config,
                                       p: Publication, made: set<Slot>, since: seq<Step>)
    requires w.Valid() && w.Passed(prior, start) && IsDir(start.fs, w.root) && name != []
    requires Delivered(w.s, w.root, w.hops, start, me, name, content, cfg, true, p, made, since)
    requires WriteSynced(start.fs, SyncedBy(prior, me), w.Synced(me), w.root, ParentOf(name), w.hops, made, p.slot.dir, true)
    requires NobodyElseMade(start, w.s, me, w.root, ParentOf(name), w.hops)
    requires OthersLeaveUnsynced(start, w.acts[|prior|..], me, w.root, ParentOf(name), w.hops)
    requires FoundAreAddedOnly(start.fs, w.root, ParentOf(name), w.hops)
    ensures SurvivesCrashes(w.s.fs, w.root, ParentOf(name), w.hops) <==> FoundWillSettle(start.fs, w.root, ParentOf(name), w.hops)
    ensures FoundWillSettle(start.fs, w.root, ParentOf(name), w.hops) ==> PathSettled(w.s.fs, w.root, ParentOf(name), w.hops)
  {
    var path, acts := ParentOf(name), w.acts[|prior|..];
    w.Later(prior, start);
    DurableSyncsAreItsOwn(start, prior, w.acts, me, w.root, path, w.hops, made, p.slot.dir);
    if FoundWillSettle(start.fs, w.root, path, w.hops) {
      WillSettleIsSettled(w.s0, start, acts, me, w.root, path, w.hops, made, p.slot.dir);
      assert PathSettled(w.s.fs, w.root, path, w.hops);
      forall img | CrashOf(w.s.fs, img)
        ensures Walk(w.s.fs.nodes, img.look, w.root, w.root, path, w.hops) == Resolve(w.s.fs, w.root, path, w.hops)
      {
        SettledPathSurvives(w.s.fs, w.root, path, w.hops, img);
      }
    } else {
      var sl :| sl in PathLinks(start.fs, w.root, path, w.hops) && NonFileLink(start.fs, sl) && !Settled(start.fs, sl)
                && sl.dir != Deepest(start.fs, w.root, path, w.hops);
      OwnSyncsLeaveIt(w.s0, start, acts, me, w.root, path, w.hops, made, p.slot.dir, sl);
      UnsettledCanBeLost(start.fs, sl);
      var img := LosableEntryLosesThePath(w.s0, start, acts, w.root, path, w.hops, sl);
      assert Walk(w.s.fs.nodes, img.look, w.root, w.root, path, w.hops) != Resolve(w.s.fs, w.root, path, w.hops);
    }
  }

  /** The end of a write that delivered: the path resolves, and what this write made of it is
      recorded and durable; the target lies where it leads. */
  ghost predicate MadeOfIt(start: State, s: State, me: Wid, root: Ino, path: Path, hops: nat, made: set<Slot>, target: Ino) {
    var r := Resolve(s.fs, root, path, hops);
    && r.At? && r.ino == target && RecordsLevels(start, s, me, root, path, hops, made)
    && NobodyElseMade(start, s, me, root, path, hops) && forall sl :: sl in made ==> Settled(s.fs, sl)
  }

  /** If the condition holds, the whole path is durable at the end. */
  lemma WillSettleIsSettled(s0: State, start: State, acts: seq<Act>, me: Wid, root: Ino, path: Path, hops: nat, made: set<Slot>, target: Ino)
    requires Inv(s0, start) && AllowedRun(start, acts) && IsDir(start.fs, root)
    requires MadeOfIt(start, After(start, acts), me, root, path, hops, made, target)
    requires SyncedItsOwn(start, acts, me, root, path, hops, made, target) && FoundWillSettle(start.fs, root, path, hops)
    ensures PathSettled(After(start, acts).fs, root, path, hops)
  {
    var s := After(start, acts);
    RunKeepsInv(s0, start, acts);
    RunGrows(s0, start, acts);
    LinksAreSkeleton(s.fs, root, root, path, hops);
    LinksGrow(start.fs, s.fs, root, root, path, hops);
    DeepestIsSynced(s0, start, acts, me, root, path, hops, made, target);
    forall sl | sl in PathLinks(s.fs, root, path, hops)
      ensures Settled(s.fs, sl)
    {
      if !NonFileLink(start.fs, sl) {
        NewDirectoriesAreMade(s0, start, acts, s.fs.bind[sl]);
        assert NewlyMade(start, s, me, sl);
      } else if Settled(start.fs, sl) {
        assert Lookup(s.fs, sl) in Possible(s.fs, sl);
      } else {
        SyncedEntrySettles(s0, start, acts, SyncEntries(me, sl.dir), sl);
      }
    }
  }

  /** The deepest directory that was there is one the write has synced. */
  lemma DeepestIsSynced(s0: State, start: State, acts: seq<Act>, me: Wid, root: Ino, path: Path, hops: nat, made: set<Slot>, target: Ino)
    requires Inv(s0, start) && AllowedRun(start, acts) && IsDir(start.fs, root)
    requires MadeOfIt(start, After(start, acts), me, root, path, hops, made, target)
    requires SyncedItsOwn(start, acts, me, root, path, hops, made, target)
    ensures SyncEntries(me, Deepest(start.fs, root, path, hops)) in acts
  {
    var s := After(start, acts);
    RunKeepsInv(s0, start, acts);
    RunIsOnward(s0, start, acts);
    OnwardResolves(start, s, root, path, hops);
    if Resolve(start.fs, root, path, hops).Lost? {
      var sl := FirstNewLink(start.fs, s.fs, root, root, path, hops);
      LinksAreSkeleton(s.fs, root, root, path, hops);
      NewDirectoriesAreMade(s0, start, acts, s.fs.bind[sl]);
      assert NewlyMade(start, s, me, sl);
    }
  }

  /** And it has synced no other directory that was there. */
  lemma OwnSyncsLeaveIt(s0: State, start: State, acts: seq<Act>, me: Wid, root: Ino, path: Path, hops: nat, made: set<Slot>, target: Ino, sl: Slot)
    requires Inv(s0, start) && AllowedRun(start, acts) && IsDir(start.fs, root) && Resolve(After(start, acts).fs, root, path, hops).At?
    requires Resolve(After(start, acts).fs, root, path, hops).ino == target && SyncedItsOwn(start, acts, me, root, path, hops, made, target)
    requires OthersLeaveUnsynced(start, acts, me, root, path, hops)
    requires sl in PathLinks(start.fs, root, path, hops) && NonFileLink(start.fs, sl) && !Settled(start.fs, sl)
    requires sl.dir != Deepest(start.fs, root, path, hops)
    ensures forall k :: 0 <= k < |acts| && acts[k].SyncEntries? ==> acts[k].dir != sl.dir
  {
    var s := After(start, acts);
    RunKeepsInv(s0, start, acts);
    RunIsOnward(s0, start, acts);
    assert path[..|path|] == path;
    OldPrefix(start, s, root, path, hops, |path|);
    forall k | 0 <= k < |acts| && acts[k].SyncEntries?
      ensures acts[k].dir != sl.dir
    {
      if acts[k].w == me {
        assert acts[k] == SyncEntries(me, acts[k].dir) && acts[k] in acts;
      }
    }
  }

  lemma UnsettledCanBeLost(fs: FS, sl: Slot)
    requires Sound(fs) && !Settled(fs, sl) && Possible(fs, sl) <= {Lookup(fs, sl), Absent}
    ensures Absent in Possible(fs, sl)
  {
    assert Lookup(fs, sl) in Possible(fs, sl);
    assert Possible(fs, sl) != {Lookup(fs, sl)};
  }

  // ---- A retry after Durable == false ---------------------------------------

  /** Write 1 has made the directory "a", but its sync of the parent failed. */
  function FailedWrite(): seq<Act> { [Mkdir(1, Slot(0, "a"), 1, 0)] }

  /** Write 2, the retry, finds "a" and goes through without a single fault. */
  function Retry(temp: Name): seq<Act> {
    [Create(2, Slot(1, temp), 2, 0, None, 0)] + ([Seal(2)] + ([Close(2)] + ([Publish(2, "x")] + [SyncEntries(2, 1)])))
  }

  /** What every state of the retry keeps: the directory is there, unsynced, made by write 1. */
  ghost predicate DirectoryUnsynced(s: State) {
    && s.made == map[1 := 1] && IsDir(s.fs, 0) && IsDir(s.fs, 1) && LiveIsPossible(s.fs)
    && Lookup(s.fs, Slot(0, "a")) == Bound(1) && Possible(s.fs, Slot(0, "a")) == {Absent, Bound(1)}
  }

  ghost predicate LiveIsPossible(fs: FS) { forall sl :: Lookup(fs, sl) in Possible(fs, sl) }

  lemma WriteOneFails() returns (start: State)
    ensures Leads(EmptyDirectory(), FailedWrite(), start) && DirectoryUnsynced(start)
    ensures start.fs.nodes == map[0 := Dir(0), 1 := Dir(0)] && start.fs.bind == map[Slot(0, "a") := 1] && start.writers == map[] && start.log == []
  {
    start := One(EmptyDirectory(), Mkdir(1, Slot(0, "a"), 1, 0));
  }

  lemma RetryStages(s: State, temp: Name) returns (end: State)
    requires IsTempName(temp) && DirectoryUnsynced(s) && s.writers == map[] && s.log == []
    requires s.fs.nodes == map[0 := Dir(0), 1 := Dir(0)] && s.fs.bind == map[Slot(0, "a") := 1]
    ensures Leads(s, [Create(2, Slot(1, temp), 2, 0, None, 0)], end) && DirectoryUnsynced(end) && end.log == []
    ensures end.fs.nodes == s.fs.nodes[2 := File([], false, 0, 0)] && end.fs.bind == s.fs.bind[Slot(1, temp) := 2]
    ensures end.writers == map[2 := Publishing.Staging(Temp(Slot(1, temp), 2, None))]
  {
    end := One(s, Create(2, Slot(1, temp), 2, 0, None, 0));
  }

  lemma RetrySeals(s: State, temp: Name) returns (end: State)
    requires DirectoryUnsynced(s) && s.fs.nodes == map[0 := Dir(0), 1 := Dir(0), 2 := File([], false, 0, 0)]
    requires s.writers == map[2 := Publishing.Staging(Temp(Slot(1, temp), 2, None))]
    ensures Leads(s, [Seal(2)], end) && DirectoryUnsynced(end) && end.log == s.log && end.fs.bind == s.fs.bind
    ensures end.fs.nodes == s.fs.nodes[2 := File([], true, 0, 0)] && end.writers == map[2 := Sealed(Temp(Slot(1, temp), 2, None), [], true)]
  {
    end := One(s, Seal(2));
  }

  lemma RetryCloses(s: State, temp: Name) returns (end: State)
    requires DirectoryUnsynced(s) && s.writers == map[2 := Sealed(Temp(Slot(1, temp), 2, None), [], true)]
    ensures Leads(s, [Close(2)], end) && DirectoryUnsynced(end) && end.log == s.log && end.fs == s.fs
    ensures end.writers == map[2 := Sealed(Temp(Slot(1, temp), 2, None), [], false)]
  {
    end := One(s, Close(2));
  }

  lemma RetryRenames(s: State, temp: Name) returns (end: State)
    requires IsTempName(temp) && DirectoryUnsynced(s) && s.log == [] && s.fs.bind == map[Slot(0, "a") := 1, Slot(1, temp) := 2]
    requires IsFile(s.fs, 2) && s.writers == map[2 := Sealed(Temp(Slot(1, temp), 2, None), [], false)]
    ensures Leads(s, [Publish(2, "x")], end) && DirectoryUnsynced(end)
    ensures end.fs.nodes == s.fs.nodes && end.fs.bind == map[Slot(0, "a") := 1, Slot(1, "x") := 2]
    ensures end.log == [Publication(2, Slot(1, "x"), 2, [], None)]
  {
    assert temp != "x";
    RenamedEntries(s.fs, temp);
    end := One(s, Publish(2, "x"));
  }

  lemma RenamedEntries(fs: FS, temp: Name)
    requires fs.bind == map[Slot(0, "a") := 1, Slot(1, temp) := 2] && temp != "x"
    ensures RenameEntry(fs, Slot(1, temp), Slot(1, "x")).bind == map[Slot(0, "a") := 1, Slot(1, "x") := 2]
  {
  }

  lemma RetrySyncs(s: State) returns (end: State)
    requires DirectoryUnsynced(s) && Lookup(s.fs, Slot(1, "x")) == Bound(2)
    ensures Leads(s, [SyncEntries(2, 1)], end) && DirectoryUnsynced(end) && Settled(end.fs, Slot(1, "x"))
    ensures end.fs.nodes == s.fs.nodes && end.fs.bind == s.fs.bind && end.log == s.log
  {
    end := One(s, SyncEntries(2, 1));
  }

  lemma RetryGoesThrough(start: State, temp: Name) returns (end: State)
    requires IsTempName(temp) && DirectoryUnsynced(start) && start.writers == map[] && start.log == []
    requires start.fs.nodes == map[0 := Dir(0), 1 := Dir(0)] && start.fs.bind == map[Slot(0, "a") := 1]
    ensures Leads(start, Retry(temp), end) && DirectoryUnsynced(end) && Settled(end.fs, Slot(1, "x"))
    ensures end.fs.nodes == map[0 := Dir(0), 1 := Dir(0), 2 := File([], true, 0, 0)] && end.fs.bind == map[Slot(0, "a") := 1, Slot(1, "x") := 2]
    ensures end.log == [Publication(2, Slot(1, "x"), 2, [], None)]
  {
    var staged := RetryStages(start, temp);
    var sealed := RetrySeals(staged, temp);
    var closed := RetryCloses(sealed, temp);
    var renamed := RetryRenames(closed, temp);
    end := RetrySyncs(renamed);
    Then(closed, [Publish(2, "x")], renamed, [SyncEntries(2, 1)], end);
    Then(sealed, [Close(2)], closed, [Publish(2, "x")] + [SyncEntries(2, 1)], end);
    Then(staged, [Seal(2)], sealed, [Close(2)] + ([Publish(2, "x")] + [SyncEntries(2, 1)]), end);
    Then(start, [Create(2, Slot(1, temp), 2, 0, None, 0)], staged, [Seal(2)] + ([Close(2)] + ([Publish(2, "x")] + [SyncEntries(2, 1)])), end);
  }

  /** The retry meets no fault: all that a durable success promises holds of it. Yet the
      directory it found was not settled when it began, and a crash at its end loses the
      path. */
  lemma RetryForgetsTheDirectory(temp: Name, hops: nat) returns (start: State, end: State, p: Publication, img: Image)
    requires IsTempName(temp)
    ensures RetryHappens(temp, start, end)
    ensures Delivered(end, 0, hops, start, 2, ["a", "x"], [], Config(None, 0, 0), true, p, {}, [])
    ensures !FoundWillSettle(start.fs, 0, ["a"], hops)
    ensures CrashOf(end.fs, img) && Walk(end.fs.nodes, img.look, 0, 0, ["a"], hops) == Lost
  {
    start, end := RetryRuns(temp);
    p, img := RetryDelivers(start, end, hops);
  }

  /** From an empty directory, write 1 leads to where the retry starts, and the retry to its end. */
  ghost predicate RetryHappens(temp: Name, start: State, end: State) {
    Initial(EmptyDirectory()) && Leads(EmptyDirectory(), FailedWrite(), start) && Leads(start, Retry(temp), end)
  }

  lemma RetryRuns(temp: Name) returns (start: State, end: State)
    requires IsTempName(temp)
    ensures RetryHappens(temp, start, end)
    ensures DirectoryUnsynced(start) && DirectoryUnsynced(end) && Settled(end.fs, Slot(1, "x"))
    ensures end.log == [Publication(2, Slot(1, "x"), 2, [], None)]
  {
    start := WriteOneFails();
    end := RetryGoesThrough(start, temp);
    EmptyIsInitial();
  }

  lemma RetryDelivers(start: State, end: State, hops: nat) returns (p: Publication, img: Image)
    requires DirectoryUnsynced(start) && DirectoryUnsynced(end) && Settled(end.fs, Slot(1, "x"))
    requires end.log == [Publication(2, Slot(1, "x"), 2, [], None)]
    ensures Delivered(end, 0, hops, start, 2, ["a", "x"], [], Config(None, 0, 0), true, p, {}, [])
    ensures !ExistingSettled(start.fs, 0, ["a"], hops) && !FoundWillSettle(start.fs, 0, ["a"], hops)
    ensures CrashOf(end.fs, img) && Walk(end.fs.nodes, img.look, 0, 0, ["a"], hops) == Lost
  {
    p, img := Publication(2, Slot(1, "x"), 2, [], None), WithoutEntry(end.fs, Slot(0, "a"));
    LoneDirectoryCanVanish(start.fs, hops);
    LoneDirectoryCanVanish(end.fs, hops);
    assert ParentOf(["a", "x"]) == ["a"];
    assert RecordsLevels(start, end, 2, 0, ["a"], hops, {});
  }

  lemma LoneDirectoryCanVanish(fs: FS, hops: nat)
    requires IsDir(fs, 1) && Lookup(fs, Slot(0, "a")) == Bound(1) && Possible(fs, Slot(0, "a")) == {Absent, Bound(1)}
    requires LiveIsPossible(fs)
    ensures Resolve(fs, 0, ["a"], hops) == At(1, hops) && PathLinks(fs, 0, ["a"], hops) == [Slot(0, "a")]
    ensures !ExistingSettled(fs, 0, ["a"], hops) && !FoundWillSettle(fs, 0, ["a"], hops)
    ensures CrashOf(fs, WithoutEntry(fs, Slot(0, "a"))) && Walk(fs.nodes, WithoutEntry(fs, Slot(0, "a")).look, 0, 0, ["a"], hops) == Lost
  {
    assert ["a"][1..] == [] && Live(fs)(Slot(0, "a")) == Bound(1);
    assert Links(fs.nodes, Live(fs), 0, 1, [], hops) == [] && Walk(fs.nodes, Live(fs), 0, 1, [], hops) == At(1, hops);
    assert Walk(fs.nodes, Live(fs), 0, 0, ["a"], hops) == Walk(fs.nodes, Live(fs), 0, 1, ["a"][1..], hops);
    assert PathLinks(fs, 0, ["a"], hops) == [Slot(0, "a")];
    assert Slot(0, "a") in PathLinks(fs, 0, ["a"], hops) && NonFileLink(fs, Slot(0, "a"));
  }

  /** Another writer at work on the path is enough: write 2 begins over an empty directory,
      where all that is there is durable; write 1 makes "a" meanwhile and has not synced it
      when write 2, which found it there, reports a durable success. */
  lemma ConcurrentMakerLosesThePath(temp: Name, hops: nat) returns (start: State, end: State, p: Publication, img: Image)
    requires IsTempName(temp)
    ensures RetryHappens(temp, start, end)
    ensures Delivered(end, 0, hops, EmptyDirectory(), 2, ["a", "x"], [], Config(None, 0, 0), true, p, {}, [])
    ensures ExistingSettled(EmptyDirectory().fs, 0, ["a"], hops) && !NobodyElseMade(EmptyDirectory(), end, 2, 0, ["a"], hops)
    ensures CrashOf(end.fs, img) && Walk(end.fs.nodes, img.look, 0, 0, ["a"], hops) == Lost
  {
    start, end := RetryRuns(temp);
    p, img := DeliversOverEmpty(start, end, hops);
  }

  lemma DeliversOverEmpty(start: State, end: State, hops: nat) returns (p: Publication, img: Image)
    requires DirectoryUnsynced(start) && DirectoryUnsynced(end) && Settled(end.fs, Slot(1, "x"))
    requires end.log == [Publication(2, Slot(1, "x"), 2, [], None)]
    ensures Delivered(end, 0, hops, EmptyDirectory(), 2, ["a", "x"], [], Config(None, 0, 0), true, p, {}, [])
    ensures ExistingSettled(EmptyDirectory().fs, 0, ["a"], hops) && !NobodyElseMade(EmptyDirectory(), end, 2, 0, ["a"], hops)
    ensures CrashOf(end.fs, img) && Walk(end.fs.nodes, img.look, 0, 0, ["a"], hops) == Lost
  {
    p, img := RetryDelivers(start, end, hops);
    LoneDirectoryCanVanish(end.fs, hops);
    AnotherMadeIt(end, hops);
    assert ParentOf(["a", "x"]) == ["a"];
    DeliveredSinceEarlier(end, 0, hops, EmptyDirectory(), start, 2, ["a", "x"], [], Config(None, 0, 0), p, {}, []);
  }

  /** Nothing is promised of the path when another writer has made a level of it. */
  lemma DeliveredSinceEarlier(s: State, root: Ino, hops: nat, earlier: State, start: State, me: Wid, name: Path, content: seq<Byte>, cfg: Config,
                              p: Publication, made: set<Slot>, since: seq<Step>)
    requires name != [] && Delivered(s, root, hops, start, me, name, content, cfg, true, p, made, since)
    requires RecordsLevels(earlier, s, me, root, ParentOf(name), hops, made) && !NobodyElseMade(earlier, s, me, root, ParentOf(name), hops)
    ensures Delivered(s, root, hops, earlier, me, name, content, cfg, true, p, made, since)
  {
  }

  lemma AnotherMadeIt(end: State, hops: nat)
    requires DirectoryUnsynced(end) && PathLinks(end.fs, 0, ["a"], hops) == [Slot(0, "a")]
    ensures ExistingSettled(EmptyDirectory().fs, 0, ["a"], hops) && !NobodyElseMade(EmptyDirectory(), end, 2, 0, ["a"], hops)
    ensures RecordsLevels(EmptyDirectory(), end, 2, 0, ["a"], hops, {})
  {
    assert Slot(0, "a") in PathLinks(end.fs, 0, ["a"], hops);
  }
}
