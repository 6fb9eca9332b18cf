/** Which directories a writer has fsynced, and which of those were there before. */
module Syncs {
  import opened FileSystem
  import opened Publishing
  import opened Runs
  import opened Interference

  /** The directories this writer has synced, in order. */
  ghost function SyncedBy(acts: seq<Act>, me: Wid): seq<Ino>
    decreases |acts|
  {
    if acts == [] then [] else
    SyncedBy(acts[..|acts| - 1], me) + SyncOf(acts[|acts| - 1], me)
  }

  function SyncOf(a: Act, me: Wid): seq<Ino> { if a.SyncEntries? && a.w == me then [a.dir] else [] }

  lemma OneMoreCall(acts: seq<Act>, a: Act, me: Wid)
    ensures SyncedBy(acts + [a], me) == SyncedBy(acts, me) + SyncOf(a, me)
  {
    assert (acts + [a])[..|acts|] == acts;
  }

  /** Since `before` exactly directories of `dirs` have been synced - all of them, if `all`. */
  ghost predicate SyncsFit(before: seq<Ino>, now: seq<Ino>, dirs: set<Ino>, all: bool) {
    && before <= now && (forall k :: |before| <= k < |now| ==> now[k] in dirs)
    && (all ==> forall d :: d in dirs ==> d in now[|before|..])
  }

  lemma SyncsFitMore(before: seq<Ino>, mid: seq<Ino>, dirs: set<Ino>, all: bool, d: Ino, done: bool)
    requires SyncsFit(before, mid, dirs, all)
    ensures SyncsFit(before, mid + if done then [d] else [], dirs + {d}, all && done)
  {
    var now := mid + if done then [d] else [];
    assert now[|before|..] == mid[|before|..] + if done then [d] else [];
  }

  function DirsOf(made: set<Slot>): set<Ino> { set sl | sl in made :: sl.dir }

  lemma OneMoreDir(made: set<Slot>, sl: Slot)
    ensures DirsOf(made + {sl}) == DirsOf(made) + {sl.dir}
  {
  }

  /** The calls behind the syncs. */
  lemma {:induction false} SyncsAreCalls(prior: seq<Act>, acts: seq<Act>, me: Wid)
    requires prior <= acts
    ensures SyncedBy(prior, me) <= SyncedBy(acts, me)
    ensures forall d :: d in SyncedBy(acts, me)[|SyncedBy(prior, me)|..] <==> SyncEntries(me, d) in acts[|prior|..]
    decreases |acts|
  {
    if |prior| < |acts| {
      var rest, last := acts[..|acts| - 1], acts[|acts| - 1];
      SyncsAreCalls(prior, rest, me);
      var n := |SyncedBy(prior, me)|;
      assert SyncedBy(acts, me)[n..] == SyncedBy(rest, me)[n..] + SyncOf(last, me);
      assert acts[|prior|..] == rest[|prior|..] + [last];
    } else {
      assert acts == prior;
    }
  }

  // ---- The deepest directory that is there ----------------------------------------------

  /** Where the longest part of the path that resolves leads. */
  ghost function Deepest(fs: FS, root: Ino, path: Path, hops: nat): Ino
    decreases |path|
  {
    var r := Resolve(fs, root, path, hops);
    if r.At? then r.ino else if path == [] then root else Deepest(fs, root, path[..|path| - 1], hops)
  }

  lemma {:induction false} DeepestIs(fs: FS, root: Ino, path: Path, hops: nat, k: nat)
    requires k <= |path| && Resolve(fs, root, path[..k], hops).At? && (k < |path| ==> Resolve(fs, root, path[..k + 1], hops).Lost?)
    ensures Deepest(fs, root, path, hops) == Resolve(fs, root, path[..k], hops).ino
    decreases |path|
  {
    if k == |path| {
      assert path[..k] == path;
    } else {
      assert path[..k + 1] + path[k + 1..] == path;
      WalkSplits(fs.nodes, Live(fs), root, root, path[..k + 1], path[k + 1..], hops);
      var shorter := path[..|path| - 1];
      assert shorter[..k] == path[..k];
      if k < |shorter| {
        assert shorter[..k + 1] == path[..k + 1];
      }
      DeepestIs(fs, root, shorter, hops, k);
    }
  }

  /** A prefix that resolves now leads to a new directory, or resolved before too; if it is
      the deepest now, it was then. */
  lemma OldPrefix(start: State, s: State, root: Ino, path: Path, hops: nat, k: nat)
    requires Sound(start.fs) && Sound(s.fs) && Onward(start, s) && IsDir(start.fs, root)
    requires k <= |path| && Resolve(s.fs, root, path[..k], hops).At?
    requires k < |path| ==> Resolve(start.fs, root, path[..k + 1], hops).Lost?
    ensures var i := Resolve(s.fs, root, path[..k], hops).ino;
            i == Deepest(start.fs, root, path, hops) || i !in start.fs.nodes
  {
    OnwardResolves(start, s, root, path[..k], hops);
    if Resolve(start.fs, root, path[..k], hops).At? {
      DeepestIs(start.fs, root, path, hops, k);
    }
  }

  /** A level made where nothing was is made in the deepest directory there was, or in a
      new one. */
  lemma LevelIsDeepestOrNew(start: State, s: State, root: Ino, path: Path, hops: nat, k: nat)
    requires Sound(start.fs) && Sound(s.fs) && Onward(start, s) && IsDir(start.fs, root)
    requires k < |path| && Resolve(s.fs, root, path[..k], hops).At?
    requires Vacant(start.fs, Slot(Resolve(s.fs, root, path[..k], hops).ino, path[k]))
    ensures var i := Resolve(s.fs, root, path[..k], hops).ino;
            i == Deepest(start.fs, root, path, hops) || i !in start.fs.nodes
  {
    OnwardResolves(start, s, root, path[..k], hops);
    if Resolve(start.fs, root, path[..k], hops).At? {
      assert path[..k] + [path[k]] == path[..k + 1];
      WalkSplits(start.fs.nodes, Live(start.fs), root, root, path[..k], [path[k]], hops);
      OldPrefix(start, s, root, path, hops, k);
    }
  }

  /** The levels were made in the deepest directory that was there, or in new ones. */
  ghost predicate MadeFromDeepest(start: FS, root: Ino, path: Path, hops: nat, made: set<Slot>) {
    forall sl :: sl in made ==> sl.dir == Deepest(start, root, path, hops) || sl.dir !in start.nodes
  }

  /** Levels were made from the deepest directory there was on, and the directories they
      were made in are those synced since - all of them, if `all`. The quantifier keeps this
      folded wherever it is only passed on. */
  ghost predicate LevelsSynced(start: FS, before: seq<Ino>, now: seq<Ino>, root: Ino, path: Path, hops: nat, made: set<Slot>, all: bool) {
    forall k: nat {:trigger Asked(k)} :: Asked(k) ==>
      MadeFromDeepest(start, root, path, hops, made) && SyncsFit(before, now, DirsOf(made), all)
  }

  /** And after them the directory of the target, if the write was durable. */
  ghost predicate WriteSynced(start: FS, before: seq<Ino>, now: seq<Ino>, root: Ino, path: Path, hops: nat, made: set<Slot>, target: Ino, durable: bool) {
    forall k: nat {:trigger Asked(k)} :: Asked(k) ==>
      MadeFromDeepest(start, root, path, hops, made) && SyncsFit(before, now, DirsOf(made) + {target}, durable)
  }

  lemma ReadLevelsSynced(start: FS, before: seq<Ino>, now: seq<Ino>, root: Ino, path: Path, hops: nat, made: set<Slot>, all: bool)
    ensures LevelsSynced(start, before, now, root, path, hops, made, all) <==>
            MadeFromDeepest(start, root, path, hops, made) && SyncsFit(before, now, DirsOf(made), all)
  {
    assert Asked(0);
  }

  lemma ReadWriteSynced(start: FS, before: seq<Ino>, now: seq<Ino>, root: Ino, path: Path, hops: nat, made: set<Slot>, target: Ino, durable: bool)
    ensures WriteSynced(start, before, now, root, path, hops, made, target, durable) <==>
            MadeFromDeepest(start, root, path, hops, made) && SyncsFit(before, now, DirsOf(made) + {target}, durable)
  {
    assert Asked(0);
  }

  lemma TargetSynced(start: FS, before: seq<Ino>, mid: seq<Ino>, now: seq<Ino>, root: Ino, path: Path, hops: nat, made: set<Slot>, all: bool,
                     target: Ino, synced: bool)
    requires LevelsSynced(start, before, mid, root, path, hops, made, all) && now == mid + if synced then [target] else []
    ensures WriteSynced(start, before, now, root, path, hops, made, target, all && synced)
  {
    ReadLevelsSynced(start, before, mid, root, path, hops, made, all);
    SyncsFitMore(before, mid, DirsOf(made), all, target, synced);
    ReadWriteSynced(start, before, now, root, path, hops, made, target, all && synced);
  }

  lemma DeepestBefore(earlier: State, start: State, root: Ino, path: Path, hops: nat, made: set<Slot>)
    requires Sound(earlier.fs) && Sound(start.fs) && Onward(earlier, start) && IsDir(earlier.fs, root)
    requires MadeFromDeepest(start.fs, root, path, hops, made)
    ensures MadeFromDeepest(earlier.fs, root, path, hops, made)
  {
    var k := DeepestPrefix(start.fs, root, path, hops);
    if k < |path| {
      OnwardResolves(earlier, start, root, path[..k + 1], hops);
    }
    OldPrefix(earlier, start, root, path, hops, k);
  }

  lemma {:induction false} DeepestPrefix(fs: FS, root: Ino, path: Path, hops: nat) returns (k: nat)
    ensures k <= |path| && Resolve(fs, root, path[..k], hops).At? && Resolve(fs, root, path[..k], hops).ino == Deepest(fs, root, path, hops)
    ensures k < |path| ==> Resolve(fs, root, path[..k + 1], hops).Lost?
    decreases |path|
  {
    assert path[..|path|] == path;
    if Resolve(fs, root, path, hops).At? {
      k := |path|;
    } else {
      var shorter := path[..|path| - 1];
      k := DeepestPrefix(fs, root, shorter, hops);
      assert shorter[..k] == path[..k];
      if k < |shorter| {
        assert shorter[..k + 1] == path[..k + 1];
      }
    }
  }

  // ---- What a sync is worth --------------------------------------------------------------

  /** Once its directory has been synced, a found entry is durable for good. */
  lemma SyncedEntrySettles(s0: State, start: State, acts: seq<Act>, a: Act, sl: Slot)
    requires Inv(s0, start) && AllowedRun(start, acts) && a in acts && a.SyncEntries? && a.dir == sl.dir && NonFileLink(start.fs, sl)
    ensures Settled(After(start, acts).fs, sl)
  {
    var k :| 0 <= k < |acts| && acts[k] == a;
    RunSplits(start, acts, k);
    var before, rest := After(start, acts[..k]), acts[k..];
    RunKeepsInv(s0, start, acts[..k]);
    RunGrows(s0, start, acts[..k]);
    assert rest[0] == a;
    StepKeepsInv(s0, before, a);
    SettledForGood(s0, Apply(before, a), rest[1..], sl);
  }

  lemma SettledForGood(s0: State, s: State, acts: seq<Act>, sl: Slot)
    requires Inv(s0, s) && AllowedRun(s, acts) && NonFileLink(s.fs, sl) && Settled(s.fs, sl)
    ensures Settled(After(s, acts).fs, sl)
  {
    RunKeepsInv(s0, s, acts);
    RunGrows(s0, s, acts);
    assert Lookup(After(s, acts).fs, sl) in Possible(After(s, acts).fs, sl);
  }

  /** A path that comes to resolve reads an entry that is new, in a directory that was there. */
  lemma {:induction false} FirstNewLink(fs: FS, fs': FS, root: Ino, cur: Ino, path: Path, hops: nat) returns (sl: Slot)
    requires Sound(fs) && Sound(fs') && Grows(fs, fs') && IsDir(fs, root) && IsDir(fs, cur)
    requires Walk(fs.nodes, Live(fs), root, cur, path, hops).Lost? && Walk(fs'.nodes, Live(fs'), root, cur, path, hops).At?
    ensures sl in Links(fs'.nodes, Live(fs'), root, cur, path, hops) && !NonFileLink(fs, sl) && sl.dir in fs.nodes
    decreases hops, |path|
  {
    sl := Slot(cur, path[0]);
    if NonFileLink(fs, sl) {
      OneLinkFurther(fs, fs', root, cur, path, hops);
      match fs'.nodes[fs.bind[sl]] {
        case Dir(_) => sl := FirstNewLink(fs, fs', root, fs.bind[sl], path[1..], hops);
        case Symlink(target) => sl := FirstNewLink(fs, fs', root, root, target + path[1..], hops - 1);
      }
    }
  }
}
