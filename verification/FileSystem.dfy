/** The abstract filesystem every other module runs on: inodes, directory
    bindings, what a crash may leave behind, and path resolution. */
module FileSystem {

  /** A predicate whose body is quantified over this stays folded wherever it is only passed
      on; the lemma beside it opens it. */
  ghost predicate Asked(k: nat) { true }

  datatype Option<+T> = None | Some(value: T) {
    function GetOr(default: T): T {
      match this
      case Some(v) => v
      case None => default
    }
  }

  type Ino = nat
  type Name = string
  type Path = seq<Name>
  type Byte = bv8
  type FileMode = bv32

  /** A cleaned relative name that names something inside a directory. */
  predicate NamesAnEntry(name: Path) { name != [] && name[|name| - 1] !in {"", ".", ".."} }

  /** One directory entry: the name `name` inside the directory `dir`. */
  datatype Slot = Slot(dir: Ino, name: Name)

  datatype Binding = Absent | Bound(ino: Ino)

  /** `synced` is false while the last change of `data` has not been fsynced. A
      symlink's target is kept as the path it denotes from the confining root. */
  datatype Node =
    | File(data: seq<Byte>, synced: bool, mode: FileMode, mtime: int)
    | Dir(mode: FileMode)
    | Symlink(target: Path)
    | Special

  /** `bind` is the live directory content. `recent` holds, for each entry changed
      since its directory was last fsynced, every binding it has had since then. */
  datatype FS = FS(nodes: map<Ino, Node>, bind: map<Slot, Ino>, recent: map<Slot, set<Binding>>)

  function Lookup(fs: FS, sl: Slot): Binding {
    if sl in fs.bind then Bound(fs.bind[sl]) else Absent
  }

  /** The bindings a crash may leave at `sl`. */
  function Possible(fs: FS, sl: Slot): set<Binding> {
    if sl in fs.recent then fs.recent[sl] else {Lookup(fs, sl)}
  }

  /** The entry can only come back from a crash as it is now. */
  predicate Settled(fs: FS, sl: Slot) {
    Possible(fs, sl) == {Lookup(fs, sl)}
  }

  /** Every bound inode exists in an existing directory, and the live binding is
      one of the bindings a crash may leave. */
  ghost predicate Sound(fs: FS) {
    && (forall sl :: sl in fs.bind ==> IsDir(fs, sl.dir) && fs.bind[sl] in fs.nodes)
    && (forall sl :: sl in fs.recent ==> Lookup(fs, sl) in fs.recent[sl])
    && (forall sl, b :: b in Possible(fs, sl) && b.Bound? ==> b.ino in fs.nodes)
  }

  predicate IsDir(fs: FS, i: Ino) { i in fs.nodes && fs.nodes[i].Dir? }

  predicate IsFile(fs: FS, i: Ino) { i in fs.nodes && fs.nodes[i].File? }

  /** The entry names something that is not a regular file. */
  predicate NonFileLink(fs: FS, sl: Slot) {
    sl in fs.bind && fs.bind[sl] in fs.nodes && !fs.nodes[fs.bind[sl]].File?
  }

  predicate IsSymlink(fs: FS, sl: Slot) { sl in fs.bind && fs.bind[sl] in fs.nodes && fs.nodes[fs.bind[sl]].Symlink? }

  // ---- Changes ------------------------------------------------------------

  /** Change one directory entry in memory; nothing about it is durable yet. */
  function Rebind(fs: FS, sl: Slot, b: Binding): (r: FS)
    ensures r.nodes == fs.nodes
    ensures forall t :: Lookup(r, t) == if t == sl then b else Lookup(fs, t)
    ensures forall t :: Possible(r, t) == if t == sl then Possible(fs, sl) + {b} else Possible(fs, t)
    ensures r.bind == if b.Bound? then fs.bind[sl := b.ino] else fs.bind - {sl}
  {
    FS(fs.nodes,
       if b.Bound? then fs.bind[sl := b.ino] else fs.bind - {sl},
       fs.recent[sl := Possible(fs, sl) + {b}])
  }

  /** fsync of a directory: the entries of `d` as they are now become the only ones
      a crash can leave. */
  function SyncDir(fs: FS, d: Ino): (r: FS)
    ensures r.nodes == fs.nodes && r.bind == fs.bind
    ensures forall t :: Lookup(r, t) == Lookup(fs, t)
    ensures forall t :: Possible(r, t) == if t.dir == d then {Lookup(fs, t)} else Possible(fs, t)
  {
    fs.(recent := map t | t in fs.recent && t.dir != d :: fs.recent[t])
  }

  function SetNode(fs: FS, i: Ino, n: Node): (r: FS)
    ensures r.bind == fs.bind && r.recent == fs.recent
    ensures forall t :: Lookup(r, t) == Lookup(fs, t) && Possible(r, t) == Possible(fs, t)
  {
    fs.(nodes := fs.nodes[i := n])
  }

  /** rename(2) inside one directory, by name: whatever inode is at `from` moves. */
  function RenameEntry(fs: FS, from: Slot, to: Slot): (r: FS)
    requires from in fs.bind && from != to
    ensures r.nodes == fs.nodes
    ensures Lookup(r, to) == Lookup(fs, from) && Lookup(r, from) == Absent
    ensures forall t :: t != from && t != to ==>
      Lookup(r, t) == Lookup(fs, t) && Possible(r, t) == Possible(fs, t)
    ensures Possible(r, to) == Possible(fs, to) + {Lookup(fs, from)}
    ensures Possible(r, from) == Possible(fs, from) + {Absent}
  {
    Rebind(Rebind(fs, from, Absent), to, Bound(fs.bind[from]))
  }

  // ---- Crashes ------------------------------------------------------------

  /** One state of the disk after a crash: what each entry and each inode holds. */
  datatype Image = Image(look: Slot -> Binding, bytes: Ino -> seq<Byte>)

  /** The crash takes any binding each entry may have, and arbitrary bytes for every
      file whose last change was not fsynced. */
  ghost predicate CrashOf(fs: FS, img: Image) {
    && (forall sl :: img.look(sl) in Possible(fs, sl))
    && (forall i :: IsFile(fs, i) && fs.nodes[i].synced ==> img.bytes(i) == fs.nodes[i].data)
  }

  // ---- Path resolution ----------------------------------------------------

  datatype Reach = Lost | At(ino: Ino, hops: nat)

  /** Resolve a directory path from `cur` inside `root`, following at most `hops`
      symlinks and none out of the root. Only a directory is ever reached. */
  function Walk(nodes: map<Ino, Node>, look: Slot -> Binding, root: Ino, cur: Ino, path: Path, hops: nat): (r: Reach)
    ensures r.At? && cur in nodes && nodes[cur].Dir? && root in nodes && nodes[root].Dir? ==>
              r.ino in nodes && nodes[r.ino].Dir?
    decreases hops, |path|
  {
    if path == [] then At(cur, hops) else
    match look(Slot(cur, path[0]))
    case Absent => Lost
    case Bound(c) =>
      if c !in nodes then Lost else
      match nodes[c]
      case Dir(_) => Walk(nodes, look, root, c, path[1..], hops)
      case Symlink(target) => if hops == 0 then Lost else Walk(nodes, look, root, root, target + path[1..], hops - 1)
      case _ => Lost
  }

  function Live(fs: FS): Slot -> Binding { sl => Lookup(fs, sl) }

  function Resolve(fs: FS, root: Ino, path: Path, hops: nat): Reach {
    Walk(fs.nodes, Live(fs), root, root, path, hops)
  }

  lemma {:induction false} WalkSplits(nodes: map<Ino, Node>, look: Slot -> Binding, root: Ino, cur: Ino, a: Path, b: Path, hops: nat)
    ensures Walk(nodes, look, root, cur, a + b, hops) ==
      var r := Walk(nodes, look, root, cur, a, hops);
      if r.At? then Walk(nodes, look, root, r.ino, b, r.hops) else Lost
    decreases hops, |a|
  {
    if a == [] {
      assert a + b == b;
    } else {
      assert (a + b)[0] == a[0] && (a + b)[1..] == a[1..] + b;
      match look(Slot(cur, a[0]))
      case Absent =>
      case Bound(c) =>
        if c in nodes {
          match nodes[c]
          case Dir(_) => WalkSplits(nodes, look, root, c, a[1..], b, hops);
          case Symlink(target) =>
            if hops > 0 {
              assert target + (a[1..] + b) == (target + a[1..]) + b;
              WalkSplits(nodes, look, root, root, target + a[1..], b, hops - 1);
            }
          case _ =>
        }
    }
  }

  /** The directory entries a resolution reads, in order. */
  function Links(nodes: map<Ino, Node>, look: Slot -> Binding, root: Ino, cur: Ino, path: Path, hops: nat): seq<Slot>
    decreases hops, |path|
  {
    if path == [] then [] else
    var sl := Slot(cur, path[0]);
    [sl] +
    match look(sl)
    case Absent => []
    case Bound(c) =>
      if c !in nodes then [] else
      match nodes[c]
      case Dir(_) => Links(nodes, look, root, c, path[1..], hops)
      case Symlink(target) => if hops == 0 then [] else Links(nodes, look, root, root, target + path[1..], hops - 1)
      case _ => []
  }

  function PathLinks(fs: FS, root: Ino, path: Path, hops: nat): seq<Slot> {
    Links(fs.nodes, Live(fs), root, root, path, hops)
  }

  /** Two views of the entries that agree on every entry a resolution reads
      resolve the path alike, through the same entries. */
  lemma {:induction false} WalkAgrees(nodes: map<Ino, Node>, look: Slot -> Binding, other: Slot -> Binding, root: Ino, cur: Ino, path: Path, hops: nat)
    requires forall sl :: sl in Links(nodes, look, root, cur, path, hops) ==> other(sl) == look(sl)
    ensures Walk(nodes, other, root, cur, path, hops) == Walk(nodes, look, root, cur, path, hops)
    ensures Links(nodes, other, root, cur, path, hops) == Links(nodes, look, root, cur, path, hops)
    decreases hops, |path|
  {
    if path != [] {
      var sl := Slot(cur, path[0]);
      assert sl in Links(nodes, look, root, cur, path, hops) && other(sl) == look(sl);
      match look(sl)
      case Absent =>
      case Bound(c) =>
        if c in nodes {
          match nodes[c]
          case Dir(_) => WalkAgrees(nodes, look, other, root, c, path[1..], hops);
          case Symlink(target) => if hops > 0 { WalkAgrees(nodes, look, other, root, root, target + path[1..], hops - 1); }
          case _ =>
        }
    }
  }

  /** If one entry the resolution reads is gone, so is the path. */
  lemma {:induction false} WalkLost(nodes: map<Ino, Node>, look: Slot -> Binding, other: Slot -> Binding, root: Ino, cur: Ino, path: Path, hops: nat, gone: Slot)
    requires gone in Links(nodes, look, root, cur, path, hops)
    requires other(gone) == Absent
    requires forall sl :: sl != gone ==> other(sl) == look(sl)
    ensures Walk(nodes, other, root, cur, path, hops) == Lost
    decreases hops, |path|
  {
    var sl := Slot(cur, path[0]);
    if sl != gone {
      match look(sl)
      case Absent =>
      case Bound(c) =>
        if c in nodes {
          match nodes[c]
          case Dir(_) => WalkLost(nodes, look, other, root, c, path[1..], hops, gone);
          case Symlink(target) => if hops > 0 { WalkLost(nodes, look, other, root, root, target + path[1..], hops - 1, gone); }
          case _ =>
        }
    }
  }

  // ---- The directory skeleton ---------------------------------------------

  /** How the part of the tree that is not regular files may change while nobody
      moves or removes directories: every inode keeps its kind, every link to a
      directory, symlink or special file stays, and any further such link leads to
      a directory that is itself new. No link on the skeleton becomes less durable. */
  ghost predicate Grows(fs: FS, fs': FS) {
    && (forall i :: i in fs.nodes ==> i in fs'.nodes && SameKind(fs.nodes[i], fs'.nodes[i]))
    && (forall sl :: NonFileLink(fs, sl) ==> sl in fs'.bind && fs'.bind[sl] == fs.bind[sl])
    && (forall sl :: NonFileLink(fs', sl) ==>
          NonFileLink(fs, sl) || (fs'.bind[sl] !in fs.nodes && IsDir(fs', fs'.bind[sl])))
    && (forall sl :: NonFileLink(fs, sl) ==> Possible(fs', sl) <= Possible(fs, sl))
  }

  predicate SameKind(a: Node, b: Node) {
    && (a.File? <==> b.File?) && (a.Dir? <==> b.Dir?) && (a.Symlink? ==> a == b) && (a.Special? <==> b.Special?)
  }

  lemma GrowsTransitive(a: FS, b: FS, c: FS)
    requires Grows(a, b) && Grows(b, c)
    ensures Grows(a, c)
  {
  }

  lemma SetNodeGrows(fs: FS, i: Ino, n: Node)
    requires i in fs.nodes && SameKind(fs.nodes[i], n)
    ensures Grows(fs, SetNode(fs, i, n))
  {
  }

  lemma NewEntryGrows(fs: FS, sl: Slot, i: Ino, n: Node)
    requires Sound(fs) && i !in fs.nodes && sl !in fs.bind && (n.File? || n.Dir?)
    ensures Grows(fs, Rebind(SetNode(fs, i, n), sl, Bound(i)))
  {
  }

  lemma RebindGrows(fs: FS, sl: Slot, b: Binding)
    requires !NonFileLink(fs, sl) && (b.Bound? ==> IsFile(fs, b.ino))
    ensures Grows(fs, Rebind(fs, sl, b))
  {
  }

  lemma SyncDirGrows(fs: FS, d: Ino)
    requires Sound(fs)
    ensures Grows(fs, SyncDir(fs, d))
  {
  }

  /** A path that resolves goes on resolving to the same directory through the same
      entries, and a path that only later resolves leads to a new directory. */
  lemma {:induction false} ResolutionGrows(fs: FS, fs': FS, root: Ino, cur: Ino, path: Path, hops: nat)
    requires Sound(fs) && Sound(fs') && Grows(fs, fs')
    requires IsDir(fs', cur) && IsDir(fs, root) && (cur in fs.nodes ==> IsDir(fs, cur))
    ensures var r, r' := Walk(fs.nodes, Live(fs), root, cur, path, hops), Walk(fs'.nodes, Live(fs'), root, cur, path, hops);
            if r.At? && cur in fs.nodes then
              r' == r && Links(fs'.nodes, Live(fs'), root, cur, path, hops) == Links(fs.nodes, Live(fs), root, cur, path, hops)
            else r'.At? ==> r'.ino !in fs.nodes
    decreases hops, |path|
  {
    if path != [] {
      var sl := Slot(cur, path[0]);
      if NonFileLink(fs', sl) {
        var c := fs'.bind[sl];
        if NonFileLink(fs, sl) {
          assert fs.bind[sl] == c;
        }
        match fs'.nodes[c]
        case Dir(_) => ResolutionGrows(fs, fs', root, c, path[1..], hops);
        case Symlink(target) =>
          assert NonFileLink(fs, sl);
          if hops > 0 { ResolutionGrows(fs, fs', root, root, target + path[1..], hops - 1); }
        case _ =>
      } else {
        assert !NonFileLink(fs, sl);
      }
    }
  }

  /** Along a growing skeleton a path that comes to resolve reads, of the entries that were
      there before, exactly those it read before. */
  lemma {:induction false} LinksGrow(fs: FS, fs': FS, root: Ino, cur: Ino, path: Path, hops: nat)
    requires Sound(fs) && Sound(fs') && Grows(fs, fs') && IsDir(fs, root) && IsDir(fs, cur)
    requires Walk(fs'.nodes, Live(fs'), root, cur, path, hops).At?
    ensures forall sl :: NonFileLink(fs, sl) ==>
              (sl in Links(fs'.nodes, Live(fs'), root, cur, path, hops) <==> sl in Links(fs.nodes, Live(fs), root, cur, path, hops))
    decreases hops, |path|
  {
    if path != [] {
      var sl := Slot(cur, path[0]);
      var c := fs'.bind[sl];
      if NonFileLink(fs, sl) {
        assert fs.bind[sl] == c;
        OneLinkFurther(fs, fs', root, cur, path, hops);
        match fs'.nodes[c] {
          case Dir(_) => LinksGrow(fs, fs', root, c, path[1..], hops);
          case Symlink(target) => LinksGrow(fs, fs', root, root, target + path[1..], hops - 1);
        }
      } else {
        assert NonFileLink(fs', sl);
        LinksBelowNew(fs, fs', root, c, path[1..], hops);
        OldLinksStop(fs, root, cur, path, hops);
      }
    }
  }

  /** Both resolutions read the same entry and go on from the same place. */
  lemma OneLinkFurther(fs: FS, fs': FS, root: Ino, cur: Ino, path: Path, hops: nat)
    requires Grows(fs, fs') && path != [] && NonFileLink(fs, Slot(cur, path[0]))
    requires Walk(fs'.nodes, Live(fs'), root, cur, path, hops).At?
    ensures var sl := Slot(cur, path[0]);
            var c, rest := fs.bind[sl], path[1..];
            match fs'.nodes[c]
            case Dir(_) =>
              && Links(fs'.nodes, Live(fs'), root, cur, path, hops) == [sl] + Links(fs'.nodes, Live(fs'), root, c, rest, hops)
              && Links(fs.nodes, Live(fs), root, cur, path, hops) == [sl] + Links(fs.nodes, Live(fs), root, c, rest, hops)
            case Symlink(target) =>
              && hops > 0
              && Links(fs'.nodes, Live(fs'), root, cur, path, hops) == [sl] + Links(fs'.nodes, Live(fs'), root, root, target + rest, hops - 1)
              && Links(fs.nodes, Live(fs), root, cur, path, hops) == [sl] + Links(fs.nodes, Live(fs), root, root, target + rest, hops - 1)
            case _ => false
  {
    assert Lookup(fs', Slot(cur, path[0])) == Lookup(fs, Slot(cur, path[0]));
  }

  /** Below a new directory there are only new ones. */
  lemma {:induction false} LinksBelowNew(fs: FS, fs': FS, root: Ino, cur: Ino, path: Path, hops: nat)
    requires Sound(fs) && Grows(fs, fs') && cur !in fs.nodes && IsDir(fs', cur)
    requires Walk(fs'.nodes, Live(fs'), root, cur, path, hops).At?
    ensures forall sl :: sl in Links(fs'.nodes, Live(fs'), root, cur, path, hops) ==> sl !in fs.bind
    decreases |path|
  {
    if path != [] {
      var sl := Slot(cur, path[0]);
      assert NonFileLink(fs', sl) && !NonFileLink(fs, sl);
      LinksBelowNew(fs, fs', root, fs'.bind[sl], path[1..], hops);
    }
  }

  /** Resolution reads nothing past an entry that leads nowhere. */
  lemma OldLinksStop(fs: FS, root: Ino, cur: Ino, path: Path, hops: nat)
    requires path != [] && !NonFileLink(fs, Slot(cur, path[0]))
    ensures Links(fs.nodes, Live(fs), root, cur, path, hops) == [Slot(cur, path[0])]
  {
  }

  // ---- Paths after a crash --------------------------------------------------

  lemma {:induction false} LinksAreSkeleton(fs: FS, root: Ino, cur: Ino, path: Path, hops: nat)
    requires Walk(fs.nodes, Live(fs), root, cur, path, hops).At?
    ensures forall sl :: sl in Links(fs.nodes, Live(fs), root, cur, path, hops) ==> NonFileLink(fs, sl)
    decreases hops, |path|
  {
    if path != [] {
      var c := fs.bind[Slot(cur, path[0])];
      match fs.nodes[c]
      case Dir(_) => LinksAreSkeleton(fs, root, c, path[1..], hops);
      case Symlink(target) => LinksAreSkeleton(fs, root, root, target + path[1..], hops - 1);
    }
  }

  ghost predicate PathSettled(fs: FS, root: Ino, path: Path, hops: nat) {
    forall sl :: sl in PathLinks(fs, root, path, hops) ==> Settled(fs, sl)
  }

  ghost predicate SurvivesCrashes(fs: FS, root: Ino, path: Path, hops: nat) {
    forall img :: CrashOf(fs, img) ==> Walk(fs.nodes, img.look, root, root, path, hops) == Resolve(fs, root, path, hops)
  }

  /** The crash that loses one entry and nothing else. */
  ghost function WithoutEntry(fs: FS, gone: Slot): Image {
    Image(sl => if sl == gone then Absent else Lookup(fs, sl),
          (i: Ino) => if IsFile(fs, i) then fs.nodes[i].data else [])
  }

  /** A path whose entries were all synced is there after every crash; one that still
      has an entry some crash would drop is not. */
  lemma PathSurvivesIffSettled(fs: FS, root: Ino, path: Path, hops: nat)
    requires Sound(fs) && Resolve(fs, root, path, hops).At?
    requires forall sl :: sl in PathLinks(fs, root, path, hops) ==> Possible(fs, sl) <= {Lookup(fs, sl), Absent}
    ensures SurvivesCrashes(fs, root, path, hops) <==> PathSettled(fs, root, path, hops)
  {
    if PathSettled(fs, root, path, hops) {
      forall img | CrashOf(fs, img)
        ensures Walk(fs.nodes, img.look, root, root, path, hops) == Resolve(fs, root, path, hops)
      {
        SettledPathSurvives(fs, root, path, hops, img);
      }
    } else {
      var gone :| gone in PathLinks(fs, root, path, hops) && !Settled(fs, gone);
      var img := WithoutEntry(fs, gone);
      assert Possible(fs, gone) != {Lookup(fs, gone)} && Lookup(fs, gone) in Possible(fs, gone);
      assert CrashOf(fs, img);
      WalkLost(fs.nodes, Live(fs), img.look, root, root, path, hops, gone);
    }
  }

  lemma SettledPathSurvives(fs: FS, root: Ino, path: Path, hops: nat, img: Image)
    requires PathSettled(fs, root, path, hops) && CrashOf(fs, img)
    ensures Walk(fs.nodes, img.look, root, root, path, hops) == Resolve(fs, root, path, hops)
  {
    forall sl | sl in PathLinks(fs, root, path, hops)
      ensures img.look(sl) == Live(fs)(sl)
    {
      assert img.look(sl) in Possible(fs, sl);
    }
    WalkAgrees(fs.nodes, Live(fs), img.look, root, root, path, hops);
  }

  /** Settled paths stay so while the skeleton only grows. */
  lemma SettledPathGrows(fs: FS, fs': FS, root: Ino, path: Path, hops: nat)
    requires Sound(fs) && Sound(fs') && Grows(fs, fs') && IsDir(fs, root)
    requires Resolve(fs, root, path, hops).At? && PathSettled(fs, root, path, hops)
    ensures Resolve(fs', root, path, hops) == Resolve(fs, root, path, hops) && PathSettled(fs', root, path, hops)
  {
    ResolutionGrows(fs, fs', root, root, path, hops);
    LinksAreSkeleton(fs, root, root, path, hops);
    forall sl | sl in PathLinks(fs', root, path, hops)
      ensures Settled(fs', sl)
    {
      assert NonFileLink(fs, sl) && Settled(fs, sl);
      assert Lookup(fs', sl) in Possible(fs', sl);
    }
  }
}
