/** What a rename by name moves, in every run that is possible at all: sweeps included, and
    with nothing assumed about temp names. */
module Renames {
  import opened FileSystem
  import opened Modes
  import opened TempNames
  import opened Publishing
  import opened Runs
  import opened Interference
  import opened Schedules

  // ---- What holds without any assumption --------------------------------------------

  ghost predicate TempsAreFiles(s: State) {
    forall w :: Held(s, w) ==> IsFile(s.fs, s.writers[w].temp.ino) && IsTempName(s.writers[w].temp.slot.name)
  }

  ghost predicate InodesAreDistinct(s: State) {
    forall v, w :: Held(s, v) && Held(s, w) && v != w ==> s.writers[v].temp.ino != s.writers[w].temp.ino
  }

  /** Temps are files of their own under temp-shaped names, and sealed ones stay whole. */
  ghost predicate Orderly(s: State) { Sound(s.fs) && TempsAreFiles(s) && InodesAreDistinct(s) && SealHolds(s) }

  lemma InitialIsOrderly(s: State)
    requires Initial(s)
    ensures Orderly(s)
  {
  }

  lemma StepKeepsSoundness(s: State, a: Act)
    requires Sound(s.fs) && TempsAreFiles(s) && Enabled(s, a)
    ensures Sound(Apply(s, a).fs)
  {
    if Moves(a) { MoveKeepsSoundness(s, a); }
  }

  lemma MoveKeepsSoundness(s: State, a: Act)
    requires Sound(s.fs) && Enabled(s, a) && Moves(a)
    ensures Sound(Apply(s, a).fs)
  {
  }

  lemma StepKeepsTempsFiles(s: State, a: Act)
    requires TempsAreFiles(s) && Enabled(s, a)
    ensures TempsAreFiles(Apply(s, a))
  {
  }

  lemma StepKeepsInodesDistinct(s: State, a: Act)
    requires TempsAreFiles(s) && InodesAreDistinct(s) && Enabled(s, a)
    ensures InodesAreDistinct(Apply(s, a))
  {
  }

  lemma StepKeepsSealed(s: State, a: Act)
    requires TempsAreFiles(s) && InodesAreDistinct(s) && SealHolds(s) && Enabled(s, a)
    ensures SealHolds(Apply(s, a))
  {
  }

  lemma StepKeepsOrder(s: State, a: Act)
    requires Orderly(s) && Enabled(s, a)
    ensures Orderly(Apply(s, a))
  {
    StepKeepsSoundness(s, a);
    StepKeepsTempsFiles(s, a);
    StepKeepsInodesDistinct(s, a);
    StepKeepsSealed(s, a);
  }

  lemma {:induction false} RunKeepsOrder(s: State, acts: seq<Act>, end: State)
    requires Orderly(s) && Leads(s, acts, end)
    ensures Orderly(end)
    decreases |acts|
  {
    if acts != [] {
      StepKeepsOrder(s, acts[0]);
      RunKeepsOrder(Apply(s, acts[0]), acts[1..], end);
    }
  }

  // ---- Who holds the name -------------------------------------------------------------

  /** The call puts a new inode under the name. */
  predicate Takes(a: Act, sl: Slot) { (a.Create? || a.Mkdir?) && a.slot == sl }

  predicate Taken(acts: seq<Act>, sl: Slot) { exists k :: 0 <= k < |acts| && Takes(acts[k], sl) }

  /** The inode under the name when it is not free: the last one put there, or else `first`. */
  function Holder(acts: seq<Act>, sl: Slot, first: Ino): Ino
    decreases |acts|
  {
    if acts == [] then first else
    Holder(acts[1..], sl, if Takes(acts[0], sl) then acts[0].ino else first)
  }

  predicate HeldBy(fs: FS, sl: Slot, i: Ino) { sl in fs.bind ==> fs.bind[sl] == i }

  lemma StepKeepsHolder(s: State, a: Act, sl: Slot, i: Ino)
    requires IsTempName(sl.name) && Enabled(s, a) && HeldBy(s.fs, sl, i)
    ensures HeldBy(Apply(s, a).fs, sl, if Takes(a, sl) then a.ino else i)
  {
  }

  /** A name of the temp shape holds the last inode put there, or is free. */
  lemma {:induction false} RunKeepsHolder(s: State, acts: seq<Act>, end: State, sl: Slot, i: Ino)
    requires IsTempName(sl.name) && Leads(s, acts, end) && HeldBy(s.fs, sl, i)
    ensures HeldBy(end.fs, sl, Holder(acts, sl, i))
    decreases |acts|
  {
    if acts != [] {
      StepKeepsHolder(s, acts[0], sl, i);
      RunKeepsHolder(Apply(s, acts[0]), acts[1..], end, sl, if Takes(acts[0], sl) then acts[0].ino else i);
    }
  }

  lemma StepKeepsInodes(s: State, a: Act)
    requires Enabled(s, a)
    ensures forall i :: i in s.fs.nodes ==> i in Apply(s, a).fs.nodes
  {
  }

  /** Whoever takes the name puts an inode there that is new, so the holder is still the
      first one exactly when nobody has. */
  lemma {:induction false} HolderIsFirstIffNotTaken(s: State, acts: seq<Act>, end: State, sl: Slot, own: Ino, first: Ino)
    requires Leads(s, acts, end) && own in s.fs.nodes
    ensures Holder(acts, sl, first) == own <==> first == own && !Taken(acts, sl)
    decreases |acts|
  {
    if acts != [] {
      var a := acts[0];
      StepKeepsInodes(s, a);
      HolderIsFirstIffNotTaken(Apply(s, a), acts[1..], end, sl, own, if Takes(a, sl) then a.ino else first);
      TakenSplits(acts, sl);
      assert Takes(a, sl) ==> a.ino != own;
    }
  }

  lemma TakenSplits(acts: seq<Act>, sl: Slot)
    requires acts != []
    ensures Taken(acts, sl) <==> Takes(acts[0], sl) || Taken(acts[1..], sl)
  {
    if Taken(acts[1..], sl) {
      var k :| 0 <= k < |acts[1..]| && Takes(acts[1..][k], sl);
      assert Takes(acts[k + 1], sl);
    }
    if Taken(acts, sl) && !Takes(acts[0], sl) {
      var k :| 0 <= k < |acts| && Takes(acts[k], sl);
      assert Takes(acts[1..][k - 1], sl);
    }
  }

  // ---- The rename ---------------------------------------------------------------------

  lemma StepKeepsTemp(s: State, a: Act, w: Wid)
    requires Enabled(s, a) && Held(Apply(s, a), w) && !WriterOf(s, w).Idle?
    ensures Held(s, w) && s.writers[w].temp == Apply(s, a).writers[w].temp
  {
  }

  lemma StepKeepsBusy(s: State, a: Act, w: Wid)
    requires Enabled(s, a) && !WriterOf(s, w).Idle?
    ensures !WriterOf(Apply(s, a), w).Idle?
  {
  }

  lemma {:induction false} RunKeepsTemp(s: State, acts: seq<Act>, end: State, w: Wid)
    requires Leads(s, acts, end) && !WriterOf(s, w).Idle? && Held(end, w)
    ensures Held(s, w) && s.writers[w].temp == end.writers[w].temp
    decreases |acts|
  {
    if acts != [] {
      StepKeepsBusy(s, acts[0], w);
      RunKeepsTemp(Apply(s, acts[0]), acts[1..], end, w);
      StepKeepsTemp(s, acts[0], w);
    }
  }

  /** The temp name holds the writer's own inode, synced, with exactly the content sealed. */
  ghost predicate HoldsItsOwn(s: State, w: Wid) {
    var wr := WriterOf(s, w);
    && wr.Sealed? && wr.temp.slot in s.fs.bind && s.fs.bind[wr.temp.slot] == wr.temp.ino && IsFile(s.fs, wr.temp.ino)
    && s.fs.nodes[wr.temp.ino].synced && s.fs.nodes[wr.temp.ino].data == wr.content
  }

  /** The rename goes by name. In every possible run, whatever sweeps and other writers do
      and whatever names are drawn: when a writer can rename, what it would move is its own
      file, whole, if and only if nobody has taken its temp name since it held it. */
  lemma RenamePublishesItsOwnFile(s: State, acts: seq<Act>, end: State, w: Wid, name: Name)
    requires Orderly(s) && Held(s, w) && HeldBy(s.fs, s.writers[w].temp.slot, s.writers[w].temp.ino)
    requires Leads(s, acts, end) && Enabled(end, Publish(w, name))
    ensures end.writers[w].temp == s.writers[w].temp
    ensures end.fs.bind[s.writers[w].temp.slot] == Holder(acts, s.writers[w].temp.slot, s.writers[w].temp.ino)
    ensures HoldsItsOwn(end, w) <==> !Taken(acts, s.writers[w].temp.slot)
  {
    var temp := s.writers[w].temp;
    RunKeepsTemp(s, acts, end, w);
    RunKeepsOrder(s, acts, end);
    RunKeepsHolder(s, acts, end, temp.slot, temp.ino);
    HolderIsFirstIffNotTaken(s, acts, end, temp.slot, temp.ino, temp.ino);
  }

  /** And just after the rename the target is the writer's file, whole, unless its name was
      taken and the last inode put there is not by then a whole file of the same content
      and mode. */
  lemma TornIffTakenByAnotherContent(s0: State, s: State, acts: seq<Act>, end: State, w: Wid, name: Name)
    requires Orderly(s) && Held(s, w) && HeldBy(s.fs, s.writers[w].temp.slot, s.writers[w].temp.ino)
    requires Leads(s, acts, end) && Enabled(end, Publish(w, name))
    ensures var temp, to := s.writers[w].temp, Slot(s.writers[w].temp.slot.dir, name);
            var moved := Holder(acts, temp.slot, temp.ino);
            && Lookup(Apply(end, Publish(w, name)).fs, to) == Bound(moved)
            && (LiveIsAtomic(s0, Apply(end, Publish(w, name)), to) <==>
                  !Taken(acts, temp.slot) || PublicationStands(end.fs, Publication(w, to, moved, end.writers[w].content, temp.want)))
  {
    RenamePublishesItsOwnFile(s, acts, end, w, name);
  }

  // ---- Whole runs -----------------------------------------------------------------------

  /** Every rename of the run moves its writer's own file, whole. */
  ghost predicate OwnRenames(s: State, acts: seq<Act>) {
    forall k: nat, mid: State :: k < |acts| && acts[k].Publish? && Leads(s, acts[..k], mid) ==> HoldsItsOwn(mid, acts[k].w)
  }

  /** Between a writer's creation of its temp and its rename nobody puts anything else under
      the name. This can be read off the calls alone. */
  ghost predicate NamesKept(acts: seq<Act>) {
    forall i: nat, j: nat, k: nat :: i < j < k < |acts| && acts[i].Create? && acts[k].Publish? && acts[k].w == acts[i].w ==>
      !Takes(acts[j], acts[i].slot)
  }

  lemma {:induction false} LeadsSplits(s: State, acts: seq<Act>, end: State, k: nat) returns (mid: State)
    requires Leads(s, acts, end) && k <= |acts|
    ensures Leads(s, acts[..k], mid) && Leads(mid, acts[k..], end)
    decreases k
  {
    if k == 0 {
      assert acts[..0] == [] && acts[0..] == acts;
      mid := s;
    } else {
      mid := LeadsSplits(Apply(s, acts[0]), acts[1..], end, k - 1);
      assert acts[..k][1..] == acts[1..][..k - 1] && acts[1..][k - 1..] == acts[k..];
    }
  }

  lemma {:induction false} LeadsOneWay(s: State, acts: seq<Act>, a: State, b: State)
    requires Leads(s, acts, a) && Leads(s, acts, b)
    ensures a == b
    decreases |acts|
  {
    if acts != [] {
      LeadsOneWay(Apply(s, acts[0]), acts[1..], a, b);
    }
  }

  /** The state before the `k`th call, and the calls from just after the `i`th up to it. */
  lemma Between(s: State, acts: seq<Act>, end: State, i: nat, k: nat) returns (created: State, mid: State)
    requires Leads(s, acts, end) && i < k < |acts|
    ensures Leads(s, acts[..i], created) && Enabled(created, acts[i])
    ensures Leads(Apply(created, acts[i]), acts[i + 1..k], mid) && Leads(s, acts[..k], mid) && Enabled(mid, acts[k])
  {
    mid := LeadsSplits(s, acts, end, k);
    assert acts[k..][0] == acts[k];
    created := LeadsSplits(s, acts[..k], mid, i);
    assert acts[..k][..i] == acts[..i] && acts[..k][i..] == [acts[i]] + acts[i + 1..k];
    assert ([acts[i]] + acts[i + 1..k])[1..] == acts[i + 1..k];
  }

  /** Where a writer that has come further began. */
  lemma {:induction false} CreatedBefore(s: State, acts: seq<Act>, end: State, w: Wid) returns (i: nat)
    requires Leads(s, acts, end) && WriterOf(s, w).Idle? && !WriterOf(end, w).Idle?
    ensures i < |acts| && acts[i].Create? && acts[i].w == w
    decreases |acts|
  {
    var next := Apply(s, acts[0]);
    if WriterOf(next, w).Idle? {
      i := CreatedBefore(next, acts[1..], end, w);
      i := i + 1;
    } else {
      i := 0;
    }
  }

  lemma CreatingHolds(s: State, a: Act)
    requires Orderly(s) && Enabled(s, a) && a.Create?
    ensures var s' := Apply(s, a);
            Orderly(s') && Held(s', a.w) && s'.writers[a.w].temp == Temp(a.slot, a.ino, a.want) && HeldBy(s'.fs, a.slot, a.ino)
  {
    StepKeepsOrder(s, a);
  }

  lemma OwnIffKept(s: State, acts: seq<Act>, end: State, i: nat, k: nat) returns (mid: State)
    requires Orderly(s) && Leads(s, acts, end) && i < k < |acts|
    requires acts[i].Create? && acts[k].Publish? && acts[k].w == acts[i].w
    ensures Leads(s, acts[..k], mid) && (HoldsItsOwn(mid, acts[k].w) <==> !Taken(acts[i + 1..k], acts[i].slot))
  {
    var created;
    created, mid := Between(s, acts, end, i, k);
    RunKeepsOrder(s, acts[..i], created);
    CreatingHolds(created, acts[i]);
    assert acts[k] == Publish(acts[i].w, acts[k].name);
    RenamePublishesItsOwnFile(Apply(created, acts[i]), acts[i + 1..k], mid, acts[i].w, acts[k].name);
  }

  /** In every possible run all renames move their writers' own files, whole, if and only if
      no name is taken between a temp's creation and its rename. */
  lemma OwnRenamesIffNamesKept(s0: State, acts: seq<Act>, end: State)
    requires Initial(s0) && Leads(s0, acts, end)
    ensures OwnRenames(s0, acts) <==> NamesKept(acts)
  {
    InitialIsOrderly(s0);
    if NamesKept(acts) {
      forall k: nat, mid: State | k < |acts| && acts[k].Publish? && Leads(s0, acts[..k], mid)
        ensures HoldsItsOwn(mid, acts[k].w)
      {
        KeptIsOwn(s0, acts, end, k, mid);
      }
    }
    if OwnRenames(s0, acts) {
      forall i: nat, j: nat, k: nat | i < j < k < |acts| && acts[i].Create? && acts[k].Publish? && acts[k].w == acts[i].w
        ensures !Takes(acts[j], acts[i].slot)
      {
        var mid := OwnIffKept(s0, acts, end, i, k);
        assert acts[i + 1..k][j - i - 1] == acts[j];
      }
    }
  }

  lemma KeptIsOwn(s0: State, acts: seq<Act>, end: State, k: nat, mid: State)
    requires Initial(s0) && Leads(s0, acts, end) && NamesKept(acts)
    requires k < |acts| && acts[k].Publish? && Leads(s0, acts[..k], mid)
    ensures HoldsItsOwn(mid, acts[k].w)
  {
    InitialIsOrderly(s0);
    var there := LeadsSplits(s0, acts, end, k);
    LeadsOneWay(s0, acts[..k], there, mid);
    assert acts[k..][0] == acts[k] && Enabled(mid, acts[k]);
    var i := CreatedBefore(s0, acts[..k], mid, acts[k].w);
    var again := OwnIffKept(s0, acts, end, i, k);
    LeadsOneWay(s0, acts[..k], again, mid);
  }

  // ---- Atomicity from own renames alone ---------------------------------------------------

  ghost predicate CondemnedAreTemps(s: State) { forall sl :: sl in s.condemned ==> IsTempName(sl.name) }

  /** What atomicity needs of a state, when nothing is known of temp names. */
  ghost predicate AtomicSoFar(s0: State, s: State) {
    && Orderly(s) && TempsArePrivate(s) && LogStands(s) && WritesPublishOnce(s) && CondemnedAreTemps(s)
    && NamesArePublished(s0, s) && NamesAreCurrent(s0, s) && OldNodesKept(s0, s)
  }

  ghost predicate IsOwn(s: State, a: Act) { a.Publish? ==> HoldsItsOwn(s, a.w) }

  lemma OwnMoveKeepsTempsPrivate(s: State, a: Act)
    requires Orderly(s) && TempsArePrivate(s) && Enabled(s, a) && IsOwn(s, a) && Moves(a)
    ensures TempsArePrivate(Apply(s, a))
  {
  }

  lemma OwnStepKeepsTempsPrivate(s: State, a: Act)
    requires Orderly(s) && TempsArePrivate(s) && Enabled(s, a) && IsOwn(s, a)
    ensures TempsArePrivate(Apply(s, a))
  {
    if Moves(a) { OwnMoveKeepsTempsPrivate(s, a); }
  }

  lemma OwnMoveKeepsLog(s0: State, s: State, a: Act)
    requires Orderly(s) && LogStands(s) && OldNodesKept(s0, s) && Enabled(s, a) && IsOwn(s, a) && Moves(a)
    ensures LogStands(Apply(s, a))
  {
  }

  lemma OtherStepKeepsLog(s0: State, s: State, a: Act)
    requires Orderly(s) && LogStands(s) && OldNodesKept(s0, s) && Enabled(s, a) && !Moves(a)
    ensures LogStands(Apply(s, a))
  {
  }

  lemma OwnStepKeepsSinglePublication(s: State, a: Act)
    requires WritesPublishOnce(s) && Enabled(s, a)
    ensures WritesPublishOnce(Apply(s, a))
  {
  }

  lemma OwnStepKeepsNamesPublished(s0: State, s: State, a: Act)
    requires Orderly(s) && CondemnedAreTemps(s) && NamesArePublished(s0, s) && Enabled(s, a) && IsOwn(s, a)
    ensures NamesArePublished(s0, Apply(s, a))
  {
    var s' := Apply(s, a);
    forall sl: Slot, b: Binding | !IsTempName(sl.name) && b in Possible(s'.fs, sl)
      ensures b in Possible(s0.fs, sl) || IsMadeDir(s', b) || PublishedAt(s'.log, sl, b)
    {
      if b in Possible(s.fs, sl) {
        if PublishedAt(s.log, sl, b) {
          var k :| 0 <= k < |s.log| && s.log[k].slot == sl && b == Bound(s.log[k].ino);
          assert s'.log[k] == s.log[k];
        }
      } else if a.Publish? {
        assert s'.log[|s.log|].slot == sl;
      }
    }
  }

  lemma OwnRenameKeepsNamesCurrent(s0: State, s: State, a: Act)
    requires Orderly(s) && CondemnedAreTemps(s) && NamesAreCurrent(s0, s) && Enabled(s, a) && IsOwn(s, a) && a.Publish?
    ensures NamesAreCurrent(s0, Apply(s, a))
  {
  }

  lemma UnlinkingKeepsNamesCurrent(s0: State, s: State, a: Act)
    requires Orderly(s) && CondemnedAreTemps(s) && NamesAreCurrent(s0, s) && Enabled(s, a) && IsOwn(s, a) && (a.Unlink? || a.Reap?)
    ensures NamesAreCurrent(s0, Apply(s, a))
  {
  }

  lemma AddingKeepsNamesCurrent(s0: State, s: State, a: Act)
    requires Orderly(s) && CondemnedAreTemps(s) && NamesAreCurrent(s0, s) && Enabled(s, a) && IsOwn(s, a) && Adds(a)
    ensures NamesAreCurrent(s0, Apply(s, a))
  {
  }

  lemma LeavingKeepsNamesCurrent(s0: State, s: State, a: Act)
    requires Orderly(s) && CondemnedAreTemps(s) && NamesAreCurrent(s0, s) && Enabled(s, a) && IsOwn(s, a) && Leaves(a)
    ensures NamesAreCurrent(s0, Apply(s, a))
  {
  }

  lemma OwnStepKeepsNamesCurrent(s0: State, s: State, a: Act)
    requires Orderly(s) && CondemnedAreTemps(s) && NamesAreCurrent(s0, s) && Enabled(s, a) && IsOwn(s, a)
    ensures NamesAreCurrent(s0, Apply(s, a))
  {
    if a.Publish? {
      OwnRenameKeepsNamesCurrent(s0, s, a);
    } else if Moves(a) {
      UnlinkingKeepsNamesCurrent(s0, s, a);
    } else if Adds(a) {
      AddingKeepsNamesCurrent(s0, s, a);
    } else {
      LeavingKeepsNamesCurrent(s0, s, a);
    }
  }

  lemma ChangesNoOldNode(s0: State, s: State, a: Act)
    requires OldNodesKept(s0, s) && Enabled(s, a)
    ensures KeepsNodes(s0.fs, Apply(s, a).fs)
  {
  }

  lemma MadeStayDirectories(s0: State, s: State, a: Act)
    requires TempsAreFiles(s) && OldNodesKept(s0, s) && Enabled(s, a)
    ensures forall i :: i in Apply(s, a).made ==> i !in s0.fs.nodes && IsDir(Apply(s, a).fs, i)
  {
  }

  lemma OwnStepKeepsOldNodes(s0: State, s: State, a: Act)
    requires Orderly(s) && OldNodesKept(s0, s) && Enabled(s, a)
    ensures OldNodesKept(s0, Apply(s, a))
  {
    ChangesNoOldNode(s0, s, a);
    MadeStayDirectories(s0, s, a);
  }

  lemma OwnStepIsAtomic(s0: State, s: State, a: Act)
    requires AtomicSoFar(s0, s) && Enabled(s, a) && IsOwn(s, a)
    ensures AtomicSoFar(s0, Apply(s, a))
  {
    StepKeepsOrder(s, a);
    OwnStepKeepsTempsPrivate(s, a);
    if Moves(a) { OwnMoveKeepsLog(s0, s, a); } else { OtherStepKeepsLog(s0, s, a); }
    OwnStepKeepsSinglePublication(s, a);
    OwnStepKeepsNamesPublished(s0, s, a);
    OwnStepKeepsNamesCurrent(s0, s, a);
    OwnStepKeepsOldNodes(s0, s, a);
  }

  lemma {:induction false} OwnRunIsAtomic(s0: State, s: State, acts: seq<Act>, end: State)
    requires AtomicSoFar(s0, s) && Leads(s, acts, end) && OwnRenames(s, acts)
    ensures AtomicSoFar(s0, end)
    decreases |acts|
  {
    if acts != [] {
      OwnRenamesOfTheRest(s, acts);
      OwnStepIsAtomic(s0, s, acts[0]);
      OwnRunIsAtomic(s0, Apply(s, acts[0]), acts[1..], end);
    }
  }

  lemma OwnRenamesOfTheRest(s: State, acts: seq<Act>)
    requires acts != [] && Enabled(s, acts[0]) && OwnRenames(s, acts)
    ensures IsOwn(s, acts[0]) && OwnRenames(Apply(s, acts[0]), acts[1..])
  {
    assert Leads(s, acts[..0], s);
    forall k: nat, mid: State | k < |acts[1..]| && acts[1..][k].Publish? && Leads(Apply(s, acts[0]), acts[1..][..k], mid)
      ensures HoldsItsOwn(mid, acts[1..][k].w)
    {
      assert acts[..k + 1][1..] == acts[1..][..k] && acts[k + 1] == acts[1..][k];
      assert Leads(s, acts[..k + 1], mid);
    }
  }

  /** Names that are kept are all that atomicity needs, whatever sweeps do: the live target
      is the old file untouched or one writer's whole content, and so is every crash image's
      - beside what a crash could have shown at the start, or a directory at a free name. */
  lemma KeptNamesAreAtomic(s0: State, acts: seq<Act>, end: State, img: Image, target: Slot)
    requires Initial(s0) && Leads(s0, acts, end) && NamesKept(acts) && !IsTempName(target.name) && CrashOf(end.fs, img)
    ensures LiveIsAtomic(s0, end, target)
    ensures CrashIsAtomic(s0, end, img, target)
  {
    OwnRenamesIffNamesKept(s0, acts, end);
    InitialIsOrderly(s0);
    OwnRunIsAtomic(s0, s0, acts, end);
    AtomicStateShowsWholeFiles(s0, end, img, target);
  }

  lemma AtomicStateShowsWholeFiles(s0: State, s: State, img: Image, target: Slot)
    requires AtomicSoFar(s0, s) && !IsTempName(target.name) && CrashOf(s.fs, img)
    ensures LiveIsAtomic(s0, s, target) && CrashIsAtomic(s0, s, img, target)
  {
    assert NameIsCurrent(s0, s, target);
    LastOnIsLogged(s.log, target);
    var b := img.look(target);
    if b !in Possible(s0.fs, target) && !IsMadeDir(s, b) {
      assert PublishedAt(s.log, target, b);
      var k :| 0 <= k < |s.log| && s.log[k].slot == target && b == Bound(s.log[k].ino);
      assert PublicationStands(s.fs, s.log[k]);
    }
  }

  // ---- What keeps names -------------------------------------------------------------------

  lemma {:induction false} AllowedRunsLead(s: State, acts: seq<Act>)
    requires AllowedRun(s, acts)
    ensures Leads(s, acts, After(s, acts))
    decreases |acts|
  {
    if acts != [] {
      AllowedRunsLead(Apply(s, acts[0]), acts[1..]);
    }
  }

  lemma {:induction false} RunKeepsBusy(s: State, acts: seq<Act>, end: State, w: Wid)
    requires Leads(s, acts, end) && !WriterOf(s, w).Idle?
    ensures !WriterOf(end, w).Idle?
    decreases |acts|
  {
    if acts != [] {
      StepKeepsBusy(s, acts[0], w);
      RunKeepsBusy(Apply(s, acts[0]), acts[1..], end, w);
    }
  }

  /** Between creating its temp and renaming it a writer holds it. */
  lemma LeadsUpTo(s: State, acts: seq<Act>, end: State, j: nat, k: nat, mid: State) returns (last: State)
    requires Leads(s, acts, end) && j < k < |acts| && Leads(s, acts[..j], mid)
    ensures Leads(mid, acts[j..k], last) && Enabled(last, acts[k])
  {
    last := LeadsSplits(s, acts, end, k);
    assert acts[k..][0] == acts[k] && acts[..k][..j] == acts[..j] && acts[..k][j..] == acts[j..k];
    var again := LeadsSplits(s, acts[..k], last, j);
    LeadsOneWay(s, acts[..j], again, mid);
  }

  lemma HeldBetween(s: State, acts: seq<Act>, end: State, i: nat, j: nat, k: nat) returns (mid: State)
    requires Leads(s, acts, end) && i < j < k < |acts| && acts[i].Create? && acts[k].Publish? && acts[k].w == acts[i].w
    ensures Leads(s, acts[..j], mid) && Held(mid, acts[i].w) && mid.writers[acts[i].w].temp.slot == acts[i].slot
  {
    var w := acts[i].w;
    var created, last;
    created, mid := Between(s, acts, end, i, j);
    RunKeepsBusy(Apply(created, acts[i]), acts[i + 1..j], mid, w);
    last := LeadsUpTo(s, acts, end, j, k, mid);
    RunKeepsTemp(mid, acts[j..k], last, w);
    RunKeepsTemp(Apply(created, acts[i]), acts[i + 1..j], mid, w);
  }

  /** A run in which nobody takes a name that is still held keeps all names. */
  lemma AllowedRunsKeepNames(s0: State, acts: seq<Act>)
    requires AllowedRun(s0, acts)
    ensures NamesKept(acts)
  {
    AllowedRunsLead(s0, acts);
    forall i: nat, j: nat, k: nat | i < j < k < |acts| && acts[i].Create? && acts[k].Publish? && acts[k].w == acts[i].w
      ensures !Takes(acts[j], acts[i].slot)
    {
      var mid := HeldBetween(s0, acts, After(s0, acts), i, j, k);
      RunSplits(s0, acts, j);
      AllowedRunsLead(s0, acts[..j]);
      LeadsOneWay(s0, acts[..j], mid, After(s0, acts[..j]));
      assert acts[j..][0] == acts[j];
    }
  }
}
