/** The operating system as one write sees it: each method is one system call, may fail,
    and runs after any number of calls by other writers. */
module Hosts {
  import opened FileSystem
  import opened Modes
  import opened TempNames
  import opened Publishing
  import opened Runs
  import opened Int64
  import opened Interference
  import opened Syncs

  /** The steps of a write that can go wrong. */
  datatype Step =
    | InspectTarget | MakeDirectory | CreateTemp | ProveOwnerOnly | WriteData | StatStaged
    | ProveMode | SyncTemp | CloseTemp | RenameTemp | SyncParent | RemoveTemp | OpenParent | ContextDone

  /** When a write looks at its context: before it has a temp, while it stages, or once the
      temp is synced. */
  datatype Moment = AtFirst | WhileStaging | OnceSynced

  datatype Look = Look(at: Moment, done: bool)

  function MomentOf(wr: Writer): Moment {
    if wr.Staging? then WhileStaging else if wr.Sealed? then OnceSynced else AtFirst
  }

  /** Looks at a context that is not done. */
  function NotDone(moments: seq<Moment>): seq<Look> { seq(|moments|, k requires 0 <= k < |moments| => Look(moments[k], false)) }

  /** The last look, since `before`, found the context done. */
  predicate FoundDone(before: seq<Look>, now: seq<Look>) { before <= now && |before| < |now| && now[|now| - 1].done }

  datatype Creation = MadeTemp | NameTaken | CreateFailed
  datatype MkdirAnswer = MadeDir | DirTaken | MkdirFailed
  datatype Kind = Missing | Regular | Link | Other | LstatFailed

  lemma FreshInoExists(nodes: map<Ino, Node>)
    ensures exists i: Ino :: i !in nodes
  {
    var bound := AboveAll(nodes.Keys);
    assert bound !in nodes;
  }

  ghost function AboveAll(inos: set<Ino>): (bound: Ino)
    ensures forall i :: i in inos ==> i < bound
  {
    if inos == {} then 0 else
    var i :| i in inos;
    var rest := AboveAll(inos - {i});
    assert forall j :: j in inos ==> j == i || j in inos - {i};
    if rest <= i then i + 1 else rest
  }

  /** What write(2) leaves: the bytes land at `at`, and a gap before them reads as zeros. */
  function Overwrite(data: seq<Byte>, at: nat, bytes: seq<Byte>): (r: seq<Byte>)
    ensures bytes != [] ==> |r| == (if |data| < at + |bytes| then at + |bytes| else |data|)
    ensures at == |data| ==> r == data + bytes
    ensures bytes == [] ==> r == data
  {
    if bytes == [] then data else
    var padded := Resize(data, if |data| < at + |bytes| then at + |bytes| else |data|);
    padded[..at] + bytes + padded[at + |bytes|..]
  }

  /** What ftruncate(2) leaves. */
  function Resize(data: seq<Byte>, size: nat): (r: seq<Byte>)
    ensures |r| == size
    ensures size <= |data| ==> r == data[..size]
    ensures |data| <= size ==> r[..|data|] == data
  {
    if size <= |data| then data[..size] else data + seq(size - |data|, _ => 0)
  }

  /** What is read at `i` once `bytes` have been written at `at`. */
  function ByteAt(data: seq<Byte>, at: nat, bytes: seq<Byte>, i: nat): Byte {
    if at <= i < at + |bytes| then bytes[i - at] else if i < |data| then data[i] else 0
  }

  /** Byte by byte: what was written, what was there, and zeros in between. */
  lemma OverwriteAt(data: seq<Byte>, at: nat, bytes: seq<Byte>, i: nat)
    requires i < |Overwrite(data, at, bytes)|
    ensures Overwrite(data, at, bytes)[i] == ByteAt(data, at, bytes, i)
  {
  }

  lemma ByteAtComposes(data: seq<Byte>, at: nat, a: seq<Byte>, b: seq<Byte>, once: seq<Byte>, i: nat)
    requires |once| == if |data| < at + |a| then at + |a| else |data|
    requires i < |once| ==> once[i] == ByteAt(data, at, a, i)
    ensures ByteAt(once, at + |a|, b, i) == ByteAt(data, at, a + b, i)
  {
  }

  /** Two consecutive writes are one. */
  lemma OverwritesCompose(data: seq<Byte>, at: nat, a: seq<Byte>, b: seq<Byte>)
    ensures Overwrite(Overwrite(data, at, a), at + |a|, b) == Overwrite(data, at, a + b)
  {
    if a == [] {
      assert a + b == b;
    } else if b == [] {
      assert a + b == a;
    } else {
      OverwritesComposeProper(data, at, a, b, Overwrite(data, at, a));
    }
  }

  lemma OverwritesComposeProper(data: seq<Byte>, at: nat, a: seq<Byte>, b: seq<Byte>, once: seq<Byte>)
    requires a != [] && b != [] && once == Overwrite(data, at, a)
    ensures Overwrite(once, at + |a|, b) == Overwrite(data, at, a + b)
  {
    var twice, whole := Overwrite(once, at + |a|, b), Overwrite(data, at, a + b);
    assert |twice| == |whole|;
    forall i | 0 <= i < |whole|
      ensures twice[i] == whole[i]
    {
      OverwriteAt(data, at, a + b, i);
      OverwriteAt(once, at + |a|, b, i);
      if i < |once| {
        OverwriteAt(data, at, a, i);
      }
      ByteAtComposes(data, at, a, b, once, i);
    }
  }

  lemma {:induction false} RunExtends(s: State, acts: seq<Act>, a: Act)
    requires AllowedRun(s, acts) && Allowed(After(s, acts), a)
    ensures AllowedRun(s, acts + [a]) && After(s, acts + [a]) == Apply(After(s, acts), a)
    decreases |acts|
  {
    if acts == [] {
      assert acts + [a] == [a] && [a][1..] == [];
    } else {
      RunExtends(Apply(s, acts[0]), acts[1..], a);
      assert (acts + [a])[1..] == acts[1..] + [a];
    }
  }

  /** Without a sweep a name that is free in its directory is free of other writers too. */
  lemma ExclusiveNameIsFree(s0: State, s: State, a: Act)
    requires Inv(s0, s) && s.condemned == {} && Enabled(s, a) && (a.Create? || a.Mkdir?)
    ensures Allowed(s, a)
  {
  }

  /** The run `acts` leads from the initial state `s0` to `s`. The quantifier keeps the run
      folded wherever only this predicate is passed on; `Unfold` asks for it. */
  ghost predicate Reached(s0: State, acts: seq<Act>, s: State) {
    forall k: nat {:trigger Asked(k)} :: Asked(k) ==> Initial(s0) && AllowedRun(s0, acts) && After(s0, acts) == s
  }

  lemma Unfold(s0: State, acts: seq<Act>, s: State)
    ensures Reached(s0, acts, s) <==> Initial(s0) && AllowedRun(s0, acts) && After(s0, acts) == s
  {
    assert Asked(0);
  }

  class Host {
    const root: Ino     // the directory every path is confined to
    const hops: nat     // how many symlinks one resolution may follow
    var s: State
    ghost const s0: State
    ghost var acts: seq<Act>      // every call that took effect, whoever made it
    ghost var own: seq<Act>       // those made through this object
    ghost var faults: seq<Step>   // the steps that failed, in order
    ghost var troubles: nat       // how many calls failed though nothing stood in their way
    ghost var taken: nat          // how many exclusive creations found their name taken
    ghost var looks: seq<Look>    // how the context was found, each time
    const storesModes: bool       // the filesystem stores the mode bits it is asked for

    ghost predicate Valid()
      reads this
    {
      Reached(s0, acts, s) && s.condemned == {} && IsDir(s.fs, root)
    }

    constructor (start: State, root: Ino, hops: nat, storesModes: bool)
      requires Initial(start) && IsDir(start.fs, root)
      ensures Valid() && s == s0 == start && this.root == root && this.hops == hops && this.storesModes == storesModes
      ensures acts == [] && own == [] && faults == [] && looks == []
    {
      this.root, this.hops, this.s, this.s0, this.storesModes := root, hops, start, start, storesModes;
      acts, own, faults, troubles, taken, looks := [], [], [], 0, 0, [];
      Unfold(start, [], start);
    }

    /** The same system, confined to another directory: an opened root. */
    constructor Confined(whole: Host, root: Ino)
      requires whole.Valid() && IsDir(whole.s.fs, root)
      ensures Valid() && this.root == root && hops == whole.hops && s0 == whole.s0
      ensures s == whole.s && SameLogs(whole) && storesModes == whole.storesModes
    {
      this.root, this.hops, this.s, this.s0, this.storesModes := root, whole.hops, whole.s, whole.s0, whole.storesModes;
      acts, own, faults, troubles, taken, looks := whole.acts, whole.own, whole.faults, whole.troubles, whole.taken, whole.looks;
    }

    ghost predicate SameLogs(other: Host)
      reads this, other
    {
      && acts == other.acts && own == other.own && faults == other.faults
      && troubles == other.troubles && taken == other.taken && looks == other.looks
    }

    /** Carry on from where the calls through another root have led. */
    method Rejoin(other: Host)
      requires Valid() && other.Valid() && other.s0 == s0 && acts <= other.acts
      modifies this
      ensures Valid() && s == other.s && SameLogs(other)
    {
      assert IsDir(other.s.fs, root) by {
        other.Since(acts, s);
      }
      s, acts, own, faults, troubles, taken, looks := other.s, other.acts, other.own, other.faults, other.troubles, other.taken, other.looks;
    }

    /** Calls are only added, and what has failed or was found taken stays counted. */
    twostate predicate GoesOn()
      reads this
    {
      old(acts) <= acts && old(troubles) <= troubles && old(taken) <= taken && old(looks) <= looks
    }

    /** And no directory was synced for `me`. */
    twostate predicate SyncsNothing(me: Wid)
      reads this
    {
      GoesOn() && Synced(me) == old(Synced(me))
    }

    /** Or the context was not looked at. */
    twostate predicate NoLooks()
      reads this
    {
      GoesOn() && looks == old(looks)
    }

    /** Or neither. */
    twostate predicate OnlyCalls(me: Wid)
      reads this
    {
      NoLooks() && Synced(me) == old(Synced(me))
    }

    lemma Invariant()
      requires Valid()
      ensures Inv(s0, s)
    {
      Unfold(s0, acts, s);
      InitialInv(s0);
      RunKeepsInv(s0, s0, acts);
    }

    /** `before` was the state when the calls `prior` had been made. */
    ghost predicate Passed(prior: seq<Act>, before: State)
      reads this
    {
      prior <= acts && Reached(s0, prior, before)
    }

    /** The calls since an earlier moment are a run from there. */
    lemma Later(prior: seq<Act>, before: State)
      requires Valid() && Passed(prior, before)
      ensures Inv(s0, before) && AllowedRun(before, acts[|prior|..]) && After(before, acts[|prior|..]) == s
    {
      Unfold(s0, acts, s);
      Unfold(s0, prior, before);
      InitialInv(s0);
      RunSplits(s0, acts, |prior|);
      assert acts[..|prior|] == prior;
      RunKeepsInv(s0, s0, prior);
    }

    /** When nothing has been called since, nothing has changed. */
    lemma NothingHappened(prior: seq<Act>, before: State)
      requires Valid() && Passed(prior, before)
      ensures acts == prior ==> s == before
    {
      Unfold(s0, acts, s);
      Unfold(s0, prior, before);
    }

    /** What has happened since an earlier moment of the run. */
    lemma Since(prior: seq<Act>, before: State)
      requires Valid() && Passed(prior, before)
      ensures Inv(s0, before) && Onward(before, s)
    {
      Later(prior, before);
      RunIsOnward(s0, before, acts[|prior|..]);
    }

    method Perform(a: Act)
      requires Valid() && Allowed(s, a) && !a.Inspect?
      modifies this`s, this`acts
      ensures Valid() && s == Apply(old(s), a) && acts == old(acts) + [a]
    {
      assert IsDir(Apply(s, a).fs, root) by {
        Invariant();
        StepIsOnward(s0, s, a);
      }
      assert Reached(s0, acts + [a], Apply(s, a)) by {
        Unfold(s0, acts, s);
        RunExtends(s0, acts, a);
        Unfold(s0, acts + [a], Apply(s, a));
      }
      s := Apply(s, a);
      acts := acts + [a];
    }

    /** Any number of calls by other writers. */
    method Interfere(me: Wid)
      requires Valid()
      modifies this`s, this`acts
      ensures Valid() && Undisturbed(me, old(s), s) && old(acts) <= acts && Synced(me) == old(Synced(me))
    {
      assert Undisturbed(me, s, s) by { Invariant(); }
      var n: nat :| true;
      for i := 0 to n
        invariant Valid() && Undisturbed(me, old(s), s) && old(acts) <= acts && Synced(me) == old(Synced(me))
      {
        InterfereOnce(me);
      }
    }

    method InterfereOnce(me: Wid)
      requires Valid()
      modifies this`s, this`acts
      ensures Valid() && Undisturbed(me, old(s), s) && old(acts) <= acts && Synced(me) == old(Synced(me))
    {
      assert Undisturbed(me, s, s) by { Invariant(); }
      var a: Act :| true;
      if a.w != me && !a.Inspect? && Allowed(s, a) {
        assert Undisturbed(me, s, Apply(s, a)) by {
          Invariant();
          OthersDisturbNothing(s, a, me);
        }
        OneMoreCall(acts, a, me);
        Perform(a);
      }
    }

    /** A call by this writer that takes effect. */
    method Do(a: Act)
      requires Valid() && Allowed(s, a) && !a.Inspect?
      modifies this`s, this`acts, this`own
      ensures Valid() && s == Apply(old(s), a) && acts == old(acts) + [a] && own == old(own) + [a]
      ensures Synced(a.w) == old(Synced(a.w)) + SyncOf(a, a.w)
    {
      OneMoreCall(acts, a, a.w);
      Perform(a);
      own := own + [a];
    }

    /** The directories this writer has synced so far. */
    ghost function Synced(me: Wid): seq<Ino>
      reads this
    {
      SyncedBy(acts, me)
    }

    /** A look at the context. */
    method IsDone(me: Wid) returns (done: bool)
      modifies this`looks
      ensures looks == old(looks) + [Look(MomentOf(WriterOf(s, me)), done)]
    {
      done := *;
      looks := looks + [Look(MomentOf(WriterOf(s, me)), done)];
    }

    /** A call failed. */
    ghost method Trouble(step: Step)
      modifies this`faults, this`troubles
      ensures faults == old(faults) + [step] && troubles == old(troubles) + 1
    {
      faults, troubles := faults + [step], troubles + 1;
    }

    ghost method Note(step: Step)
      modifies this`faults
      ensures faults == old(faults) + [step]
    {
      faults := faults + [step];
    }

    /** This writer holds an open temp in the directory `dir` leads to. */
    ghost predicate StagesIn(me: Wid, dir: Path, want: Option<FileMode>)
      reads this
    {
      var d := Resolve(s.fs, root, dir, hops);
      && Held(s, me) && s.writers[me].Staging? && IsFile(s.fs, s.writers[me].temp.ino) && s.writers[me].temp.want == want
      && d.At? && d.ino == s.writers[me].temp.slot.dir
    }

    ghost function Data(me: Wid): seq<Byte>
      requires Held(s, me) && IsFile(s.fs, s.writers[me].temp.ino)
      reads this
    {
      s.fs.nodes[s.writers[me].temp.ino].data
    }

    ghost function Mode(me: Wid): FileMode
      requires Held(s, me) && IsFile(s.fs, s.writers[me].temp.ino)
      reads this
    {
      s.fs.nodes[s.writers[me].temp.ino].mode
    }

    /** Under a demanded mode only the owner can read or write the temp. */
    ghost predicate Private(me: Wid)
      requires Held(s, me) && IsFile(s.fs, s.writers[me].temp.ino)
      reads this
    {
      s.writers[me].temp.want.Some? ==> OnlyOwnerReadsAndWrites(Mode(me))
    }

    // ---- The temp file, by handle -------------------------------------------

    /** The beginning of every exclusive creation: the directory is looked up, and the name in
        it found free or taken. */
    method FindFree(me: Wid, dir: Path, name: Name, step: Step) returns (free: Option<Slot>, busy: bool)
      requires Valid()
      modifies this
      ensures Valid() && OnlyCalls(me) && own == old(own) && Undisturbed(me, old(s), s)
      ensures var d := Resolve(s.fs, root, dir, hops);
              if free.Some? then d.At? && free.value == Slot(d.ino, name) && free.value !in s.fs.bind && !busy
              else if busy then d.At? && Slot(d.ino, name) in s.fs.bind
              else troubles > old(troubles) || d.Lost?
      ensures faults == old(faults) + if free.Some? || busy then [] else [step]
      ensures taken == old(taken) + if busy then 1 else 0
    {
      Interfere(me);
      var d := Resolve(s.fs, root, dir, hops);
      if d.Lost? {
        Note(step);
        return None, false;
      }
      var fault: bool := *;
      if fault {
        Trouble(step);
        return None, false;
      }
      var slot := Slot(d.ino, name);
      busy := slot in s.fs.bind;
      if busy {
        taken := taken + 1;
        return None, busy;
      }
      return Some(slot), busy;
    }

    /** open(2) with O_CREAT and O_EXCL, in the directory `dir` resolves to. */
    method CreateExcl(me: Wid, dir: Path, name: Name, want: Option<FileMode>) returns (r: Creation)
      requires Valid() && WriterOf(s, me).Idle? && IsTempName(name)
      modifies this
      ensures Valid() && OnlyCalls(me)
      ensures r.MadeTemp? ==> StagesIn(me, dir, want) && s.writers[me].temp.slot.name == name && Data(me) == []
      ensures forall i :: MadeBy(me, s, i) <==> MadeBy(me, old(s), i)
      ensures !r.MadeTemp? ==> Undisturbed(me, old(s), s)
      ensures faults == old(faults) + if r.CreateFailed? then [CreateTemp] else []
      ensures r.CreateFailed? ==> troubles > old(troubles) || Resolve(s.fs, root, dir, hops).Lost?
      ensures taken == old(taken) + if r.NameTaken? then 1 else 0
      ensures r.NameTaken? ==> var d := Resolve(s.fs, root, dir, hops); d.At? && Slot(d.ino, name) in s.fs.bind
    {
      var free, busy := FindFree(me, dir, name, CreateTemp);
      if free.None? {
        return if busy then NameTaken else CreateFailed;
      }
      var slot := free.value;
      FreshInoExists(s.fs.nodes);
      var ino: Ino :| ino !in s.fs.nodes;
      var mode: FileMode :| true;
      var now: int :| true;
      ghost var before, prior := s, acts;
      assert Allowed(s, Create(me, slot, ino, mode, want, now)) by {
        Invariant();
        ExclusiveNameIsFree(s0, s, Create(me, slot, ino, mode, want, now));
      }
      Do(Create(me, slot, ino, mode, want, now));
      assert Resolve(s.fs, root, dir, hops) == Resolve(before.fs, root, dir, hops) by {
        Invariant();
        Since(prior, before);
        OnwardResolves(before, s, root, dir, hops);
      }
      return MadeTemp;
    }

    ghost predicate Open(me: Wid)
      reads this
    {
      Held(s, me) && s.writers[me].Staging? && IsFile(s.fs, s.writers[me].temp.ino)
    }

    /** write(2) or pwrite(2): a failed call may have stored a prefix, and no file grows
        past the largest int64. */
    method Write(me: Wid, at: nat, bytes: seq<Byte>) returns (n: nat, ok: bool)
      requires Valid() && Open(me) && Private(me)
      modifies this
      ensures Valid() && OnlyCalls(me) && Open(me) && s.writers[me] == old(s.writers[me]) && Mode(me) == old(Mode(me))
      ensures n <= |bytes| && (ok ==> n == |bytes|) && (n == 0 || at + n <= MAX_INT64)
      ensures Data(me) == Overwrite(old(Data(me)), at, bytes[..n])
      ensures faults == old(faults) + if ok then [] else [WriteData]
      ensures !ok ==> troubles > old(troubles)
    {
      Interfere(me);
      assert ModeProved(s.fs, s.writers[me].temp, OWNER_ONLY) by { OwnerOnlyMeans(Mode(me)); }
      n :| n <= |bytes| && (n == 0 || at + n <= MAX_INT64);
      ok := n == |bytes|;
      var now: int :| true;
      Do(Stage(me, Overwrite(s.fs.nodes[s.writers[me].temp.ino].data, at, bytes[..n]), now));
      if !ok {
        Trouble(WriteData);
      }
    }

    method Ftruncate(me: Wid, size: nat) returns (ok: bool)
      requires Valid() && Open(me) && Private(me)
      modifies this
      ensures Valid() && OnlyCalls(me) && Open(me) && s.writers[me] == old(s.writers[me]) && Mode(me) == old(Mode(me))
      ensures Data(me) == if ok then Resize(old(Data(me)), size) else old(Data(me))
      ensures faults == old(faults) && (!ok ==> troubles > old(troubles))
    {
      Interfere(me);
      ok := *;
      if ok {
        assert ModeProved(s.fs, s.writers[me].temp, OWNER_ONLY) by { OwnerOnlyMeans(Mode(me)); }
        var now: int :| true;
        Do(Stage(me, Resize(s.fs.nodes[s.writers[me].temp.ino].data, size), now));
      } else {
        troubles := troubles + 1;
      }
    }

    /** fstat(2): the size and mode of the staged file. */
    method Fstat(me: Wid, step: Step) returns (r: Option<(nat, FileMode)>)
      requires Valid() && Open(me)
      modifies this
      ensures Valid() && OnlyCalls(me) && Open(me) && s.writers[me] == old(s.writers[me])
      ensures Data(me) == old(Data(me)) && Mode(me) == old(Mode(me))
      ensures r.Some? ==> r.value == (|Data(me)|, Mode(me))
      ensures r.None? ==> troubles > old(troubles)
      ensures faults == old(faults) + if r.Some? then [] else [step]
    {
      Interfere(me);
      var node := s.fs.nodes[s.writers[me].temp.ino];
      var ok: bool := *;
      if !ok {
        Trouble(step);
        return None;
      }
      return Some((|node.data|, node.mode));
    }

    /** fchmod(2): the filesystem may store any mode it likes, unless it is one that stores
        the bits it is asked for. */
    method Fchmod(me: Wid, mode: FileMode, step: Step) returns (ok: bool)
      requires Valid() && Open(me)
      modifies this
      ensures Valid() && OnlyCalls(me) && Open(me) && s.writers[me] == old(s.writers[me])
      ensures Data(me) == old(Data(me)) && (!ok ==> Mode(me) == old(Mode(me)) && troubles > old(troubles))
      ensures ok && storesModes ==> ChmodBits(Mode(me)) == ChmodBits(mode)
      ensures faults == old(faults) + if ok then [] else [step]
    {
      Interfere(me);
      ok := *;
      if ok {
        var stored: FileMode :| storesModes ==> ChmodBits(stored) == ChmodBits(mode);
        Do(Chmod(me, stored));
      } else {
        Trouble(step);
      }
    }

    method Fsync(me: Wid) returns (ok: bool)
      requires Valid() && Open(me)
      modifies this
      ensures Valid() && OnlyCalls(me) && Held(s, me) && IsFile(s.fs, s.writers[me].temp.ino)
      ensures Data(me) == old(Data(me)) && Mode(me) == old(Mode(me))
      ensures s.writers[me] == if ok then Sealed(old(s.writers[me].temp), Data(me), true) else old(s.writers[me])
      ensures faults == old(faults) + if ok then [] else [SyncTemp]
      ensures !ok ==> troubles > old(troubles)
    {
      Interfere(me);
      ok := *;
      if ok {
        Do(Seal(me));
      } else {
        Trouble(SyncTemp);
      }
    }

    /** close(2): the handle is gone even when the call reports an error. `strict` marks
        the one close whose error the write reports. */
    method CloseHandle(me: Wid, strict: bool) returns (ok: bool)
      requires Valid() && Held(s, me) && IsFile(s.fs, s.writers[me].temp.ino)
      requires s.writers[me].Staging? || (s.writers[me].Sealed? && s.writers[me].open)
      modifies this
      ensures Valid() && OnlyCalls(me) && Held(s, me) && IsFile(s.fs, s.writers[me].temp.ino)
      ensures Data(me) == old(Data(me)) && Mode(me) == old(Mode(me))
      ensures var was := old(s.writers[me]);
              s.writers[me] == if was.Staging? then Dropped(was.temp) else was.(open := false)
      ensures faults == old(faults) + if ok || !strict then [] else [CloseTemp]
      ensures !ok ==> troubles > old(troubles)
    {
      Interfere(me);
      Do(Close(me));
      ok := *;
      if !ok && strict {
        Trouble(CloseTemp);
      } else if !ok {
        troubles := troubles + 1;
      }
    }

    // ---- The temp file, by name ---------------------------------------------

    /** A rename may land here: the entry is free, a regular file, or a directory (which
        rename(2) then refuses). */
    ghost predicate Replaceable(sl: Slot)
      reads this
    {
      NonFileLink(s.fs, sl) ==> IsDir(s.fs, s.fs.bind[sl])
    }

    /** rename(2) of the temp, both names resolved through `dir`. */
    method Rename(me: Wid, dir: Path, base: Name) returns (ok: bool)
      requires Valid() && Held(s, me) && s.writers[me].Sealed? && !s.writers[me].open && !IsTempName(base)
      requires Resolve(s.fs, root, dir, hops).At? && Resolve(s.fs, root, dir, hops).ino == s.writers[me].temp.slot.dir
      requires Replaceable(Slot(s.writers[me].temp.slot.dir, base))
      requires s.writers[me].temp.want.Some? ==> ModeProved(s.fs, s.writers[me].temp, s.writers[me].temp.want.value)
      modifies this
      ensures Valid() && OnlyCalls(me)
      ensures ok ==> var was := old(s.writers[me]);
                WriterOf(s, me).Published? && s.log != []
                && s.log[|s.log| - 1] == Publication(me, Slot(was.temp.slot.dir, base), was.temp.ino, was.content, was.temp.want)
      ensures !ok ==> Undisturbed(me, old(s), s)
      ensures faults == old(faults) + if ok then [] else [RenameTemp]
      ensures !ok ==> troubles > old(troubles) || NonFileLink(s.fs, Slot(old(s.writers[me]).temp.slot.dir, base))
    {
      ghost var before, prior := s, acts;
      Interfere(me);
      var temp := s.writers[me].temp;
      var to := Slot(temp.slot.dir, base);
      if NonFileLink(s.fs, to) {
        Note(RenameTemp);
        assert IsDir(s.fs, s.fs.bind[to]) by {
          StaysReplaceable(prior, before, to);
        }
        return false;
      }
      ok := *;
      if !ok {
        Trouble(RenameTemp);
        return;
      }
      assert temp.slot in s.fs.bind && s.fs.bind[temp.slot] == temp.ino && IsFile(s.fs, temp.ino) && IsTempName(temp.slot.name) by {
        Invariant();
        assert Held(s, me);
      }
      Do(Publish(me, base));
    }

    /** Nobody plants a symlink or a special file where a rename is going to land. */
    lemma StaysReplaceable(prior: seq<Act>, before: State, sl: Slot)
      requires Valid() && Passed(prior, before)
      requires NonFileLink(before.fs, sl) ==> IsDir(before.fs, before.fs.bind[sl])
      ensures Replaceable(sl)
    {
      Since(prior, before);
    }

    /** unlink(2) of the temp name; a name already gone counts as removed. */
    method Remove(me: Wid) returns (ok: bool)
      requires Valid() && Held(s, me) && (s.writers[me].Dropped? || (s.writers[me].Sealed? && !s.writers[me].open))
      modifies this
      ensures Valid() && OnlyCalls(me)
      ensures ok ==> WriterOf(s, me).Gone? && old(s.writers[me]).temp.slot !in s.fs.bind
      ensures !ok ==> Undisturbed(me, old(s), s)
      ensures faults == old(faults) + if ok then [] else [RemoveTemp]
      ensures !ok ==> troubles > old(troubles)
    {
      Interfere(me);
      ok := *;
      if ok {
        Do(Unlink(me));
      } else {
        Trouble(RemoveTemp);
      }
    }

    // ---- Directories --------------------------------------------------------

    /** lstat(2) of the entry `base` in `dir`. */
    method Lstat(me: Wid, dir: Path, base: Name) returns (kind: Kind)
      requires Valid()
      modifies this
      ensures Valid() && OnlyCalls(me) && Undisturbed(me, old(s), s)
      ensures var d := Resolve(s.fs, root, dir, hops);
              && (kind.Missing? ==> d.At? ==> Slot(d.ino, base) !in s.fs.bind)
              && (kind.Regular? ==> d.At? && Slot(d.ino, base) in s.fs.bind && IsFile(s.fs, s.fs.bind[Slot(d.ino, base)]))
              && (kind.Link? ==> d.At? && IsSymlink(s.fs, Slot(d.ino, base)))
              && (kind.Other? ==> d.At? && NonFileLink(s.fs, Slot(d.ino, base)) && !IsSymlink(s.fs, Slot(d.ino, base)))
      ensures faults == old(faults) + if kind.LstatFailed? then [InspectTarget] else []
      ensures own == old(own) && (kind.LstatFailed? ==> troubles > old(troubles))
    {
      Interfere(me);
      var d := Resolve(s.fs, root, dir, hops);
      var fault: bool := *;
      if fault {
        Trouble(InspectTarget);
        return LstatFailed;
      }
      if d.Lost? || Slot(d.ino, base) !in s.fs.bind {
        return Missing;
      }
      var ino := s.fs.bind[Slot(d.ino, base)];
      assert ino in s.fs.nodes by { Invariant(); }
      match s.fs.nodes[ino]
      case File(_, _, _, _) => return Regular;
      case Symlink(_) => return Link;
      case _ => return Other;
    }

    /** fsync of the directory `dir` leads to, on a handle of its own. */
    method SyncDirectory(me: Wid, dir: Path) returns (ok: bool)
      requires Valid()
      modifies this
      ensures Valid() && NoLooks()
      ensures Undisturbed(me, old(s), s)
      ensures ok ==> var d := Resolve(s.fs, root, dir, hops);
                d.At? && own == old(own) + [SyncEntries(me, d.ino)] && Synced(me) == old(Synced(me)) + [d.ino] && forall sl: Slot :: sl.dir == d.ino ==> Settled(s.fs, sl)
      ensures !ok ==> own == old(own) && Synced(me) == old(Synced(me))
      ensures faults == old(faults) + if ok then [] else [SyncParent]
      ensures !ok ==> troubles > old(troubles) || Resolve(s.fs, root, dir, hops).Lost?
    {
      Interfere(me);
      var d := Resolve(s.fs, root, dir, hops);
      if d.Lost? {
        Note(SyncParent);
        return false;
      }
      ok := *;
      if !ok {
        Trouble(SyncParent);
        return;
      }
      ghost var before := s;
      Do(SyncEntries(me, d.ino));
      SameViewResolves(before.fs, s.fs, dir);
    }

    lemma SameViewResolves(fs: FS, fs': FS, dir: Path)
      requires fs'.nodes == fs.nodes && fs'.bind == fs.bind
      ensures Resolve(fs', root, dir, hops) == Resolve(fs, root, dir, hops)
      ensures PathLinks(fs', root, dir, hops) == PathLinks(fs, root, dir, hops)
    {
      WalkAgrees(fs.nodes, Live(fs), Live(fs'), root, root, dir, hops);
    }

    /** mkdir(2) of `parent`/`name`. */
    method MkdirAt(me: Wid, parent: Path, name: Name) returns (r: MkdirAnswer)
      requires Valid()
      modifies this
      ensures Valid() && OnlyCalls(me) && WriterOf(s, me) == old(WriterOf(s, me))
      ensures r.MadeDir? ==>
                && Resolve(s.fs, root, parent, hops).At?
                && var sl := Slot(Resolve(s.fs, root, parent, hops).ino, name);
                && sl in s.fs.bind && IsDir(s.fs, s.fs.bind[sl]) && Vacant(old(s.fs), sl) && s.fs.bind[sl] !in old(s.fs.nodes)
                && IsNewest(me, old(s), s, s.fs.bind[sl]) && OwnMkdir(old(own), me, sl, s.fs.bind[sl])
      ensures !r.MadeDir? ==> own == old(own) && Undisturbed(me, old(s), s)
      ensures faults == old(faults) + if r.MkdirFailed? then [MakeDirectory] else []
      ensures r.MkdirFailed? ==> troubles > old(troubles) || Resolve(s.fs, root, parent, hops).Lost?
      ensures taken == old(taken) + if r.DirTaken? then 1 else 0
      ensures r.DirTaken? ==> var d := Resolve(s.fs, root, parent, hops); d.At? && Slot(d.ino, name) in s.fs.bind
    {
      ghost var start, run := s, acts;
      var free, busy := FindFree(me, parent, name, MakeDirectory);
      if free.None? {
        return if busy then DirTaken else MkdirFailed;
      }
      var sl := free.value;
      FreshInoExists(s.fs.nodes);
      var ino: Ino :| ino !in s.fs.nodes;
      var stored: FileMode :| true;
      assert Vacant(start.fs, sl) && ino !in start.fs.nodes by {
        Since(run, start);
        VacantBefore(start, s, sl);
      }
      ghost var before, prior := s, acts;
      assert Allowed(s, Mkdir(me, sl, ino, stored)) by {
        Invariant();
        ExclusiveNameIsFree(s0, s, Mkdir(me, sl, ino, stored));
      }
      assert IsNewest(me, start, Apply(s, Mkdir(me, sl, ino, stored)), ino) by {
        Invariant();
        MkdirIsNewest(me, start, s, Mkdir(me, sl, ino, stored));
      }
      Do(Mkdir(me, sl, ino, stored));
      assert Resolve(s.fs, root, parent, hops) == Resolve(before.fs, root, parent, hops) by {
        Invariant();
        Since(prior, before);
        OnwardResolves(before, s, root, parent, hops);
      }
      return MadeDir;
    }

    ghost predicate OwnMkdir(before: seq<Act>, me: Wid, sl: Slot, ino: Ino)
      reads this
    {
      |own| == |before| + 1 && own[..|before|] == before
      && own[|before|].Mkdir? && own[|before|].w == me && own[|before|].slot == sl && own[|before|].ino == ino
    }

    /** open(2) with O_DIRECTORY of a directory this writer made. */
    method OpenMadeDir(me: Wid, dir: Path, ghost made: Ino) returns (handle: Option<Ino>)
      requires Valid() && Resolve(s.fs, root, dir, hops).At? && Resolve(s.fs, root, dir, hops).ino == made
      modifies this
      ensures Valid() && OnlyCalls(me) && own == old(own) && Undisturbed(me, old(s), s)
      ensures handle.Some? ==> handle.value == made
      ensures faults == old(faults) + if handle.Some? then [] else [MakeDirectory]
      ensures handle.None? ==> troubles > old(troubles)
    {
      ghost var before, prior := s, acts;
      Interfere(me);
      var ok: bool := *;
      if !ok {
        Trouble(MakeDirectory);
        return None;
      }
      var d := Resolve(s.fs, root, dir, hops);
      assert d == Resolve(before.fs, root, dir, hops) by {
        Invariant();
        Since(prior, before);
        OnwardResolves(before, s, root, dir, hops);
      }
      return Some(d.ino);
    }

    method FchmodDir(me: Wid, handle: Ino, mode: FileMode) returns (ok: bool)
      requires Valid() && MadeBy(me, s, handle)
      modifies this
      ensures Valid() && OnlyCalls(me) && WriterOf(s, me) == old(WriterOf(s, me))
      ensures (forall i :: MadeBy(me, s, i) <==> MadeBy(me, old(s), i))
      ensures (forall i :: MadeBy(me, s, i) && i != handle ==> SameNode(old(s), s, i))
      ensures IsDir(s.fs, handle) && |own| == |old(own)| + (if ok then 1 else 0) && own[..|old(own)|] == old(own)
      ensures ok ==> own[|old(own)|].ChmodDir? && own[|old(own)|].w == me && own[|old(own)|].ino == handle
      ensures ok && storesModes ==> ChmodBits(s.fs.nodes[handle].mode) == ChmodBits(mode)
      ensures faults == old(faults) + if ok then [] else [MakeDirectory]
      ensures !ok ==> troubles > old(troubles)
    {
      Interfere(me);
      assert IsDir(s.fs, handle) by { Invariant(); }
      ok := *;
      if ok {
        var stored: FileMode :| storesModes ==> ChmodBits(stored) == ChmodBits(mode);
        Do(ChmodDir(me, handle, stored));
      } else {
        Trouble(MakeDirectory);
      }
    }

    method FstatDir(me: Wid, handle: Ino) returns (r: Option<FileMode>)
      requires Valid() && MadeBy(me, s, handle)
      modifies this
      ensures Valid() && OnlyCalls(me) && own == old(own) && Undisturbed(me, old(s), s)
      ensures IsDir(s.fs, handle) && (r.Some? ==> r.value == s.fs.nodes[handle].mode)
      ensures faults == old(faults) + if r.Some? then [] else [MakeDirectory]
      ensures r.None? ==> troubles > old(troubles)
    {
      Interfere(me);
      assert IsDir(s.fs, handle) by { Invariant(); }
      var ok: bool := *;
      if !ok {
        Trouble(MakeDirectory);
        return None;
      }
      return Some(s.fs.nodes[handle].mode);
    }

    /** stat(2): whether `dir` leads to a directory, symlinks followed. */
    method StatIsDir(me: Wid, dir: Path) returns (r: Option<bool>)
      requires Valid()
      modifies this
      ensures Valid() && OnlyCalls(me) && own == old(own) && Undisturbed(me, old(s), s)
      ensures r.Some? ==> r.value == Resolve(s.fs, root, dir, hops).At?
      ensures r.None? ==> troubles > old(troubles)
      ensures faults == old(faults) + if r == Some(true) then [] else [MakeDirectory]
    {
      Interfere(me);
      var found := Resolve(s.fs, root, dir, hops).At?;
      var fault: bool := *;
      if fault {
        Trouble(MakeDirectory);
      } else if !found {
        Note(MakeDirectory);
      }
      return if fault then None else Some(found);
    }
  }
}
