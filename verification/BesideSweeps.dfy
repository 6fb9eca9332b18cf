/** Writers beside sweeps: which assumption about temp names a run needs, what a sweep
    can never touch, and what happens when the assumption fails. */
module BesideSweeps {
  import opened FileSystem
  import opened TempNames
  import opened Publishing
  import opened Runs
  import opened Schedules
  import opened Renames

  /** A run in which every call is possible, with nothing assumed about temp names. */
  ghost predicate EnabledRun(s: State, acts: seq<Act>)
    decreases |acts|
  {
    acts == [] || (Enabled(s, acts[0]) && EnabledRun(Apply(s, acts[0]), acts[1..]))
  }

  /** No name is drawn twice, nor one an earlier process left behind, and none of them is
      given to a directory. */
  predicate FreshDraws(drawn: set<Name>, acts: seq<Act>)
    decreases |acts|
  {
    acts == [] ||
    (if acts[0].Create? then acts[0].slot.name !in drawn && FreshDraws(drawn + {acts[0].slot.name}, acts[1..])
     else (acts[0].Mkdir? ==> acts[0].slot.name !in drawn) && FreshDraws(drawn, acts[1..]))
  }

  predicate NoSweep(acts: seq<Act>) { forall k :: 0 <= k < |acts| ==> !acts[k].Inspect? }

  /** Random names that do not repeat are kept: all that atomicity beside sweeps needs. */
  lemma {:induction false} FreshDrawsSuffice(s0: State, s: State, acts: seq<Act>)
    requires Inv(s0, s) && EnabledRun(s, acts) && FreshDraws(s.drawn, acts)
    ensures AllowedRun(s, acts) && NamesKept(acts)
    decreases |acts|
  {
    if acts != [] {
      var a := acts[0];
      if a.Create? || a.Mkdir? {
        assert forall v :: v in s.writers && Holds(s.writers[v]) ==> Held(s, v);
      }
      StepKeepsInv(s0, s, a);
      FreshDrawsSuffice(s0, Apply(s, a), acts[1..]);
    }
    AllowedRunsKeepNames(s, acts);
  }

  /** Without a sweep no assumption is needed: exclusive creation keeps a held name from
      being taken again. */
  lemma {:induction false} ExclusiveCreationSuffices(s0: State, s: State, acts: seq<Act>)
    requires Inv(s0, s) && EnabledRun(s, acts) && NoSweep(acts) && s.condemned == {}
    ensures AllowedRun(s, acts) && NamesKept(acts)
    decreases |acts|
  {
    if acts != [] {
      var a := acts[0];
      assert !a.Inspect?;
      if a.Create? || a.Mkdir? {
        assert forall v :: v in s.writers && Holds(s.writers[v]) ==> Held(s, v);
      }
      StepKeepsInv(s0, s, a);
      assert NoSweep(acts[1..]);
      ExclusiveCreationSuffices(s0, Apply(s, a), acts[1..]);
    }
    AllowedRunsKeepNames(s, acts);
  }

  /** Whatever a sweep does, a name without the temp shape keeps its entry, every binding
      a crash may leave there, and every byte behind it. */
  lemma SweepsTouchTempNamesOnly(s: State, a: Act, sl: Slot)
    requires SweepIsConfined(s) && Enabled(s, a) && (a.Inspect? || a.Reap?) && !HasTempShape(sl.name)
    ensures var fs' := Apply(s, a).fs;
            fs'.nodes == s.fs.nodes && Lookup(fs', sl) == Lookup(s.fs, sl) && Possible(fs', sl) == Possible(s.fs, sl)
  {
  }

  /** Every temp still held was changed after the cutoff. */
  ghost predicate LiveTempsAreFresh(s: State) {
    forall w :: Held(s, w) && IsFile(s.fs, s.writers[w].temp.ino) ==> s.fs.nodes[s.writers[w].temp.ino].mtime > s.cutoff
  }

  ghost predicate TempsStayFresh(s: State, acts: seq<Act>)
    requires AllowedRun(s, acts)
    decreases |acts|
  {
    LiveTempsAreFresh(s) && (acts == [] || TempsStayFresh(Apply(s, acts[0]), acts[1..]))
  }

  ghost predicate LiveTempsAreSafe(s: State) {
    forall w :: Held(s, w) ==>
      s.writers[w].temp.slot !in s.condemned && Lookup(s.fs, s.writers[w].temp.slot) == Bound(s.writers[w].temp.ino)
  }

  lemma StepSparesLiveTemps(s: State, a: Act)
    requires TempsStand(s) && SweepIsConfined(s) && Allowed(s, a) && LiveTempsAreFresh(s)
    requires forall w :: Held(s, w) ==> s.writers[w].temp.slot !in s.condemned
    ensures forall w :: Held(Apply(s, a), w) ==> Apply(s, a).writers[w].temp.slot !in Apply(s, a).condemned
  {
  }

  /** If live temps are never older than the cutoff, no interleaving of sweeps with any
      writers ever unlinks a temp somebody still needs. */
  lemma {:induction false} LiveTempsSurvive(s0: State, s: State, acts: seq<Act>)
    requires Inv(s0, s) && AllowedRun(s, acts) && TempsStayFresh(s, acts) && LiveTempsAreSafe(s)
    ensures LiveTempsAreSafe(After(s, acts))
    decreases |acts|
  {
    if acts != [] {
      StepSparesLiveTemps(s, acts[0]);
      StepKeepsInv(s0, s, acts[0]);
      LiveTempsSurvive(s0, Apply(s, acts[0]), acts[1..]);
    }
  }

  /** A write whose temp was swept away has lost it for good: whatever else happens, it
      never publishes anything, so its rename can only fail. */
  lemma {:induction false} SweptTempNeverComesBack(s0: State, s: State, acts: seq<Act>, w: Wid)
    requires Inv(s0, s) && AllowedRun(s, acts) && TempIsGone(s, w)
    ensures TempIsGone(After(s, acts), w) || WriterOf(After(s, acts), w).Gone?
    ensures forall k :: 0 <= k < |After(s, acts).log| ==> After(s, acts).log[k].writer != w
    decreases |acts|
  {
    if acts != [] {
      StepKeepsInv(s0, s, acts[0]);
      StepLeavesTempGone(s, acts[0], w);
      if TempIsGone(Apply(s, acts[0]), w) {
        SweptTempNeverComesBack(s0, Apply(s, acts[0]), acts[1..], w);
      } else {
        GoneStaysGone(s0, Apply(s, acts[0]), acts[1..], w);
      }
    }
  }

  ghost predicate TempIsGone(s: State, w: Wid) { Held(s, w) && s.writers[w].temp.slot !in s.fs.bind }

  lemma StepLeavesTempGone(s: State, a: Act, w: Wid)
    requires TempsStand(s) && Allowed(s, a) && TempIsGone(s, w)
    ensures TempIsGone(Apply(s, a), w) || WriterOf(Apply(s, a), w).Gone?
  {
  }

  lemma {:induction false} GoneStaysGone(s0: State, s: State, acts: seq<Act>, w: Wid)
    requires Inv(s0, s) && AllowedRun(s, acts) && WriterOf(s, w).Gone?
    ensures WriterOf(After(s, acts), w).Gone?
    ensures forall k :: 0 <= k < |After(s, acts).log| ==> After(s, acts).log[k].writer != w
    decreases |acts|
  {
    if acts != [] {
      StepKeepsInv(s0, s, acts[0]);
      GoneStaysGone(s0, Apply(s, acts[0]), acts[1..], w);
    }
  }

  // ---- When a name repeats --------------------------------------------------

  /** Writer 1 stages a file ... */
  function Writing(w: Wid, temp: Name, byte: Byte, now: int): seq<Act> {
    [Create(w, Slot(0, temp), w, 0, None, now), Stage(w, [byte], now)]
  }

  lemma WritingStages(s: State, w: Wid, temp: Name, byte: Byte, now: int) returns (end: State)
    requires IsTempName(temp) && IsDir(s.fs, 0) && s.fs.bind == map[] && w !in s.fs.nodes && w !in s.writers
    ensures Leads(s, Writing(w, temp, byte, now), end)
    ensures end.fs.nodes == s.fs.nodes[w := File([byte], false, 0, now)] && end.fs.bind == map[Slot(0, temp) := w]
    ensures end.writers == s.writers[w := Publishing.Staging(Temp(Slot(0, temp), w, None))]
    ensures end.(fs := s.fs, writers := s.writers, drawn := s.drawn) == s
  {
    end := Two(s, Create(w, Slot(0, temp), w, 0, None, now), Stage(w, [byte], now));
  }

  /** ... and seals it ... */
  function Sealing(): seq<Act> { [Seal(1), Close(1)] }

  lemma SealingSeals(s: State, temp: Name) returns (end: State)
    requires s.writers == map[1 := Publishing.Staging(Temp(Slot(0, temp), 1, None))] && IsFile(s.fs, 1)
    ensures Leads(s, Sealing(), end)
    ensures end.fs.nodes == s.fs.nodes[1 := s.fs.nodes[1].(synced := true)] && end.fs.bind == s.fs.bind
    ensures end.writers == map[1 := Sealed(Temp(Slot(0, temp), 1, None), s.fs.nodes[1].data, false)]
    ensures end.(fs := s.fs, writers := s.writers) == s
  {
    end := Two(s, Seal(1), Close(1));
  }

  /** ... but it is too old for sweep 9, which unlinks it ... */
  function Sweeping(temp: Name): seq<Act> { [Inspect(9, Slot(0, temp)), Reap(9, Slot(0, temp))] }

  lemma SweepingUnlinksIt(s: State, temp: Name) returns (end: State)
    requires IsTempName(temp) && s.fs.bind == map[Slot(0, temp) := 1] && IsFile(s.fs, 1) && s.fs.nodes[1].mtime <= s.cutoff
    ensures Leads(s, Sweeping(temp), end)
    ensures end.fs.nodes == s.fs.nodes && end.fs.bind == map[] && end.writers == s.writers && end.log == s.log
  {
    end := Two(s, Inspect(9, Slot(0, temp)), Reap(9, Slot(0, temp)));
  }

  /** ... so that writer 2 can draw the name again. It has written part of its content
      when writer 1 renames. */
  function LosingTheTemp(temp: Name): seq<Act> { Writing(1, temp, 1, 0) + (Sealing() + Sweeping(temp)) }

  function TakingTheName(temp: Name): seq<Act> { Writing(2, temp, 7, 200) + [Publish(1, "x")] }

  lemma TempIsLost(temp: Name) returns (end: State)
    requires IsTempName(temp)
    ensures Leads(EmptyDirectory(), LosingTheTemp(temp), end)
    ensures end.fs.nodes == map[0 := Dir(0), 1 := File([1], true, 0, 0)] && end.fs.bind == map[] && end.log == []
    ensures end.writers == map[1 := Sealed(Temp(Slot(0, temp), 1, None), [1], false)]
  {
    var s1 := WritingStages(EmptyDirectory(), 1, temp, 1, 0);
    var s2 := SealingSeals(s1, temp);
    end := SweepingUnlinksIt(s2, temp);
    Then(s1, Sealing(), s2, Sweeping(temp), end);
    Then(EmptyDirectory(), Writing(1, temp, 1, 0), s1, Sealing() + Sweeping(temp), end);
  }

  lemma NameIsTaken(s: State, temp: Name) returns (end: State)
    requires IsTempName(temp) && IsDir(s.fs, 0) && 2 !in s.fs.nodes && s.fs.bind == map[] && s.log == []
    requires s.writers == map[1 := Sealed(Temp(Slot(0, temp), 1, None), [1], false)]
    ensures Leads(s, TakingTheName(temp), end) && end.log == [Publication(1, Slot(0, "x"), 2, [1], None)]
    ensures Lookup(end.fs, Slot(0, "x")) == Bound(2) && 2 in end.fs.nodes && end.fs.nodes[2] == File([7], false, 0, 200)
  {
    var s1 := WritingStages(s, 2, temp, 7, 200);
    end := Apply(s1, Publish(1, "x"));
    assert Leads(s1, [Publish(1, "x")], end);
    Then(s, Writing(2, temp, 7, 200), s1, [Publish(1, "x")], end);
  }

  /** A repeated name beside a sweep breaks atomicity: writer 1 reports its content [1]
      published, and the target shows writer 2's unfinished, unsynced file. */
  lemma ReusedNameTearsTheTarget(temp: Name) returns (end: State)
    requires IsTempName(temp)
    ensures Initial(EmptyDirectory()) && Leads(EmptyDirectory(), LosingTheTemp(temp) + TakingTheName(temp), end)
    ensures LastOn(end.log, Slot(0, "x")) == Some(Publication(1, Slot(0, "x"), 2, [1], None))
    ensures Lookup(end.fs, Slot(0, "x")) == Bound(2) && 2 in end.fs.nodes && end.fs.nodes[2] == File([7], false, 0, 200)
  {
    var lost := TempIsLost(temp);
    end := NameIsTaken(lost, temp);
    Then(EmptyDirectory(), LosingTheTemp(temp), lost, TakingTheName(temp), end);
  }

  // ---- Targets of the temp shape ------------------------------------------------

  /** Whatever runs, a file of this name is replaced whole or not at all. */
  ghost predicate IsAtomicName(n: Name) {
    forall s0, acts, dir :: Initial(s0) && AllowedRun(s0, acts) ==> LiveIsAtomic(s0, After(s0, acts), Slot(dir, n))
  }

  /** Exactly the names without the temp shape are safe targets. */
  lemma AtomicIffNotTempShaped(n: Name)
    ensures IsAtomicName(n) <==> !HasTempShape(n)
  {
    RecogniserIsExact(n);
    if IsTempName(n) {
      var s0, acts := SweptTarget(n);
      assert !LiveIsAtomic(s0, After(s0, acts), Slot(0, n));
    } else {
      forall s0, acts, dir | Initial(s0) && AllowedRun(s0, acts)
        ensures LiveIsAtomic(s0, After(s0, acts), Slot(dir, n))
      {
        LiveTargetIsAtomic(s0, acts, Slot(dir, n));
      }
    }
  }

  /** A durable file of the caller's, named like a temp and older than the cutoff. */
  function OldFileNamed(n: Name): State {
    State(FS(map[0 := Dir(0), 1 := File([7], true, 0, 0)], map[Slot(0, n) := 1], map[]), map[], [], map[], {}, {n}, 100)
  }

  /** A sweep takes a file of the caller's for a temp of ours. */
  lemma SweptTarget(n: Name) returns (s0: State, acts: seq<Act>)
    requires IsTempName(n)
    ensures Initial(s0) && AllowedRun(s0, acts) && !LiveIsAtomic(s0, After(s0, acts), Slot(0, n))
  {
    s0, acts := OldFileNamed(n), [Inspect(9, Slot(0, n)), Reap(9, Slot(0, n))];
    TwoAllowed(s0, acts[0], acts[1]);
  }

  /** And a writer that draws its own target's name shows its bytes there one by one. */
  lemma DrawnTargetIsTorn(n: Name) returns (acts: seq<Act>)
    requires IsTempName(n)
    ensures Initial(EmptyDirectory()) && AllowedRun(EmptyDirectory(), acts)
    ensures var s := After(EmptyDirectory(), acts);
            !LiveIsAtomic(EmptyDirectory(), s, Slot(0, n)) && Lookup(s.fs, Slot(0, n)) == Bound(1) && IsFile(s.fs, 1) && !s.fs.nodes[1].synced
  {
    acts := [Create(1, Slot(0, n), 1, 0, None, 0), Stage(1, [7], 0)];
    TwoAllowed(EmptyDirectory(), acts[0], acts[1]);
  }
}
