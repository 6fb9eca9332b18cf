/** What one writer may rely on while others run. */
module Interference {
  import opened FileSystem
  import opened Modes
  import opened TempNames
  import opened Publishing
  import opened Runs

  /** Facts that only grow, whoever moves. */
  ghost predicate Onward(s: State, s': State) {
    && Grows(s.fs, s'.fs) && s.log <= s'.log
    && (forall sl: Slot :: sl in s.fs.bind && !IsTempName(sl.name) ==> sl in s'.fs.bind)
    && (forall i :: i in s.made ==> i in s'.made && s'.made[i] == s.made[i])
  }

  /** Nothing is there, or at most a temp file. */
  predicate Vacant(fs: FS, sl: Slot) { !NonFileLink(fs, sl) && (sl in fs.bind ==> IsTempName(sl.name)) }

  /** What is vacant was vacant before. */
  lemma VacantBefore(s: State, s': State, sl: Slot)
    requires Onward(s, s') && Vacant(s'.fs, sl)
    ensures Vacant(s.fs, sl)
  {
  }

  /** What this writer owns - its progress, its temp, the directories it made - is as
      it was. */
  ghost predicate Undisturbed(me: Wid, s: State, s': State) {
    && WriterOf(s', me) == WriterOf(s, me)
    && (Holds(WriterOf(s, me)) ==>
          var t := WriterOf(s, me).temp;
          Lookup(s'.fs, t.slot) == Lookup(s.fs, t.slot) && SameNode(s, s', t.ino))
    && (forall i :: MadeBy(me, s', i) <==> MadeBy(me, s, i))
    && (forall i :: MadeBy(me, s, i) ==> SameNode(s, s', i))
  }

  predicate MadeBy(me: Wid, s: State, i: Ino) { i in s.made && s.made[i] == me }

  predicate SameNode(s: State, s': State, i: Ino) {
    i in s.fs.nodes && i in s'.fs.nodes && s'.fs.nodes[i] == s.fs.nodes[i]
  }

  lemma OnwardTransitive(a: State, b: State, c: State)
    requires Onward(a, b) && Onward(b, c)
    ensures Onward(a, c)
  {
  }

  lemma StepIsOnward(s0: State, s: State, a: Act)
    requires Inv(s0, s) && Allowed(s, a)
    ensures Onward(s, Apply(s, a))
  {
    assert Grows(s.fs, Apply(s, a).fs) by { StepGrows(s, a); }
    StepOnlyAdds(s, a);
    StepKeepsPlainNames(s, a);
  }

  lemma StepOnlyAdds(s: State, a: Act)
    requires Enabled(s, a)
    ensures s.log <= Apply(s, a).log
    ensures forall i :: i in s.made && i in s.fs.nodes ==> i in Apply(s, a).made && Apply(s, a).made[i] == s.made[i]
  {
  }

  lemma StepKeepsPlainNames(s: State, a: Act)
    requires Sound(s.fs) && TempsStand(s) && SweepIsConfined(s) && Allowed(s, a)
    ensures forall sl: Slot :: sl in s.fs.bind && !IsTempName(sl.name) ==> sl in Apply(s, a).fs.bind
  {
  }

  /** Without a sweep, somebody else's call is invisible to this writer. */
  lemma OthersDisturbNothing(s: State, a: Act, me: Wid)
    requires Sound(s.fs) && TempsStand(s) && TempsAreDistinct(s) && s.condemned == {}
    requires forall i :: i in s.made ==> IsDir(s.fs, i)
    requires Allowed(s, a) && a.w != me
    ensures Undisturbed(me, s, Apply(s, a))
  {
    if Holds(WriterOf(s, me)) {
      OthersLeaveTheTemp(s, a, me);
    }
    OthersLeaveTheDirectories(s, a, me);
  }

  lemma OthersLeaveTheTemp(s: State, a: Act, me: Wid)
    requires Sound(s.fs) && TempsStand(s) && TempsAreDistinct(s) && s.condemned == {} && Held(s, me)
    requires Allowed(s, a) && a.w != me
    ensures var t := WriterOf(s, me).temp;
            Lookup(Apply(s, a).fs, t.slot) == Lookup(s.fs, t.slot) && SameNode(s, Apply(s, a), t.ino)
  {
  }

  lemma OthersLeaveTheDirectories(s: State, a: Act, me: Wid)
    requires TempsStand(s) && Allowed(s, a) && a.w != me && forall i :: i in s.made ==> IsDir(s.fs, i)
    ensures WriterOf(Apply(s, a), me) == WriterOf(s, me)
    ensures (forall i :: MadeBy(me, Apply(s, a), i) <==> MadeBy(me, s, i))
    ensures (forall i :: MadeBy(me, s, i) ==> SameNode(s, Apply(s, a), i))
  {
  }

  lemma {:induction false} RunIsOnward(s0: State, s: State, acts: seq<Act>)
    requires Inv(s0, s) && AllowedRun(s, acts)
    ensures Onward(s, After(s, acts))
    decreases |acts|
  {
    if acts != [] {
      StepIsOnward(s0, s, acts[0]);
      StepKeepsInv(s0, s, acts[0]);
      RunIsOnward(s0, Apply(s, acts[0]), acts[1..]);
      OnwardTransitive(s, Apply(s, acts[0]), After(s, acts));
    }
  }

  /** A run splits at any point. */
  lemma {:induction false} RunSplits(s: State, acts: seq<Act>, k: nat)
    requires AllowedRun(s, acts) && k <= |acts|
    ensures AllowedRun(s, acts[..k]) && AllowedRun(After(s, acts[..k]), acts[k..])
    ensures After(After(s, acts[..k]), acts[k..]) == After(s, acts)
    decreases k
  {
    if k > 0 {
      RunSplits(Apply(s, acts[0]), acts[1..], k - 1);
      assert acts[..k][1..] == acts[1..][..k - 1] && acts[1..][k - 1..] == acts[k..];
    } else {
      assert acts[..0] == [] && acts[0..] == acts;
    }
  }

  lemma OnwardResolves(s: State, s': State, root: Ino, dir: Path, hops: nat)
    requires Sound(s.fs) && Sound(s'.fs) && Onward(s, s') && IsDir(s.fs, root)
    ensures Resolve(s.fs, root, dir, hops).At? ==>
              Resolve(s'.fs, root, dir, hops) == Resolve(s.fs, root, dir, hops)
              && PathLinks(s'.fs, root, dir, hops) == PathLinks(s.fs, root, dir, hops)
    ensures Resolve(s.fs, root, dir, hops).Lost? && Resolve(s'.fs, root, dir, hops).At? ==>
              Resolve(s'.fs, root, dir, hops).ino !in s.fs.nodes
  {
    ResolutionGrows(s.fs, s'.fs, root, root, dir, hops);
  }

  /** The directories `me` has made grew by exactly `ino`; the others are as they were. */
  ghost predicate IsNewest(me: Wid, s: State, s': State, ino: Ino) {
    && !MadeBy(me, s, ino)
    && (forall i :: MadeBy(me, s', i) <==> MadeBy(me, s, i) || i == ino)
    && (forall i :: MadeBy(me, s, i) ==> SameNode(s, s', i))
  }

  lemma MkdirIsNewest(me: Wid, start: State, s: State, a: Act)
    requires Undisturbed(me, start, s) && Enabled(s, a) && a.Mkdir? && a.w == me
    requires forall i :: i in s.made ==> IsDir(s.fs, i)
    ensures IsNewest(me, start, Apply(s, a), a.ino)
  {
  }

  predicate MadeIfDir(s: State, i: Ino) { IsDir(s.fs, i) ==> i in s.made }

  lemma StepMakesDirectories(s: State, a: Act, i: Ino)
    requires TempsStand(s) && Allowed(s, a) && MadeIfDir(s, i)
    ensures MadeIfDir(Apply(s, a), i)
  {
  }

  /** Directories that appear along a run are directories some write made. */
  lemma {:induction false} NewDirectoriesAreMade(s0: State, s: State, acts: seq<Act>, i: Ino)
    requires Inv(s0, s) && AllowedRun(s, acts) && MadeIfDir(s, i)
    ensures MadeIfDir(After(s, acts), i)
    decreases |acts|
  {
    if acts != [] {
      StepKeepsInv(s0, s, acts[0]);
      StepMakesDirectories(s, acts[0], i);
      NewDirectoriesAreMade(s0, Apply(s, acts[0]), acts[1..], i);
    }
  }
}
