/** A real directory tree that nobody changes but the walker, and what visiting it in one
    of several orders amounts to. */
module QuietTrees {
  import opened FileSystem
  import opened Walking

  /** What happens when somebody tries to inspect and unlink a regular file. */
  datatype Fate = Removable | StatFails | RemoveFails

  datatype Obj =
    | Regular(mtime: int, fate: Fate)
    | Directory(readable: bool)
    | Link(statFails: bool)     // a symlink, whatever it points to
    | Odd(statFails: bool)      // device, socket, named pipe

  type Tree = map<Path, Obj>

  predicate IsDirAt(t: Tree, p: Path) { p in t && t[p].Directory? }

  predicate WellFormed(t: Tree) { IsDirAt(t, []) }

  /** The order in which reading each directory delivers its entries, batch by batch. */
  type Listing = map<Path, seq<seq<Entry>>>

  function Flatten(batches: seq<seq<Entry>>): seq<Entry> {
    if batches == [] then [] else batches[0] + Flatten(batches[1..])
  }

  ghost predicate DistinctNames(entries: seq<Entry>) {
    forall i, j :: 0 <= i < j < |entries| ==> entries[i].name != entries[j].name
  }

  /** The entries are those of the directory `p`, each once, with its own type. */
  ghost predicate EntriesOf(t: Tree, p: Path, entries: seq<Entry>) {
    && DistinctNames(entries)
    && (forall k :: 0 <= k < |entries| ==> p + [entries[k].name] in t && (entries[k].isDir <==> t[p + [entries[k].name]].Directory?))
    && (forall n: Name :: p + [n] in t ==> exists k :: 0 <= k < |entries| && entries[k].name == n)
  }

  ghost predicate ListsTree(t: Tree, listing: Listing) {
    forall p :: IsDirAt(t, p) ==> p in listing && EntriesOf(t, p, Flatten(listing[p]))
  }

  // ---- Visits -----------------------------------------------------------------

  /** One callback: for an entry, or for a directory that could not be opened. */
  datatype Visit = Entered(path: Path, isDir: bool) | Unreadable(path: Path)

  ghost predicate DistinctVisits(vs: seq<Visit>) {
    forall i, j :: 0 <= i < j < |vs| ==> vs[i] != vs[j]
  }

  /** A visit that a walk of the directory `p` owes: to every path below it that is
      reached through readable directories, none of them a symlink - only to its own
      entries when it is not to descend. */
  ghost predicate Due(t: Tree, p: Path, deep: bool, v: Visit) {
    && v.path in t && p <= v.path && OpenFrom(t, p, v.path)
    && match v
       case Entered(q, isDir) => p != q && (isDir <==> t[q].Directory?) && (deep || |q| == |p| + 1)
       case Unreadable(q) => deep && t[q].Directory? && !t[q].readable
  }

  /** Every directory on the way from `p` to `q` is real and readable. */
  ghost predicate OpenFrom(t: Tree, p: Path, q: Path) {
    forall k {:trigger q[..k]} :: |p| <= k < |q| ==> IsDirAt(t, q[..k]) && t[q[..k]].readable
  }

  /** The visits made are exactly the visits due, each once. */
  ghost predicate Complete(t: Tree, p: Path, deep: bool, vs: seq<Visit>) {
    DistinctVisits(vs) && forall v :: v in vs <==> Due(t, p, deep, v)
  }

  function Step(p: Path, n: Name): Path { p + [n] }

  lemma DueRises(t: Tree, p: Path, n: Name, v: Visit)
    requires IsDirAt(t, p) && t[p].readable && Due(t, Step(p, n), true, v)
    ensures Due(t, p, true, v)
  {
    var q := v.path;
    assert q[..|p| + 1] == Step(p, n);
    assert q[..|p|] == Step(p, n)[..|p|] == p;
    forall k | |p| <= k < |q|
      ensures IsDirAt(t, q[..k]) && t[q[..k]].readable
    {
    }
  }

  lemma DueSinks(t: Tree, p: Path, v: Visit) returns (n: Name)
    requires IsDirAt(t, p) && t[p].readable && Due(t, p, true, v)
    requires !(v.Entered? && |v.path| == |p| + 1)
    ensures IsDirAt(t, Step(p, n)) && Due(t, Step(p, n), true, v)
  {
    var q := v.path;
    assert q[..|p|] == p;
    n := q[|p|];
    assert q[..|p| + 1] == Step(p, n);
    assert q[..|q|] == q;
    forall k | |p| + 1 <= k < |q|
      ensures IsDirAt(t, q[..k]) && t[q[..k]].readable
    {
    }
  }

  lemma DueEntry(t: Tree, p: Path, n: Name)
    requires IsDirAt(t, p) && t[p].readable && Step(p, n) in t
    ensures Due(t, p, true, Entered(Step(p, n), t[Step(p, n)].Directory?))
  {
  }

  // ---- The order of the confined walk ------------------------------------------

  ghost predicate DepthWithin(t: Tree, depth: nat) { forall p :: p in t ==> |p| <= depth }

  function EntryVisits(p: Path, entries: seq<Entry>): (vs: seq<Visit>)
    ensures |vs| == |entries| && forall k :: 0 <= k < |vs| ==> vs[k] == Entered(Step(p, entries[k].name), entries[k].isDir)
  {
    seq(|entries|, k requires 0 <= k < |entries| => Entered(Step(p, entries[k].name), entries[k].isDir))
  }

  function SubdirsOf(p: Path, entries: seq<Entry>): (dirs: seq<Path>)
    ensures forall k :: 0 <= k < |dirs| ==> |dirs[k]| == |p| + 1
  {
    if entries == [] then [] else
    (if entries[0].isDir then [Step(p, entries[0].name)] else []) + SubdirsOf(p, entries[1..])
  }

  /** The entries of `p` as the walk hands them over: each batch sorted. */
  function HandedOver(batches: seq<seq<Entry>>): seq<Entry> {
    if batches == [] then [] else SortEntries(batches[0]) + HandedOver(batches[1..])
  }

  /** All entries of the directory, then each subdirectory's whole walk. */
  ghost function WalkVisits(t: Tree, listing: Listing, p: Path, depth: nat): seq<Visit>
    requires WellFormed(t) && ListsTree(t, listing) && DepthWithin(t, depth) && IsDirAt(t, p)
    decreases depth - |p|, 0, 0
  {
    if !t[p].readable then [Unreadable(p)] else
    var entries := HandedOver(listing[p]);
    HandedOverIsListing(t, p, listing[p]);
    SubdirsAreDirs(t, p, entries);
    EntryVisits(p, entries) + EachVisits(t, listing, SubdirsOf(p, entries), |p| + 1, depth)
  }

  ghost function EachVisits(t: Tree, listing: Listing, dirs: seq<Path>, level: nat, depth: nat): seq<Visit>
    requires WellFormed(t) && ListsTree(t, listing) && DepthWithin(t, depth)
    requires forall k :: 0 <= k < |dirs| ==> |dirs[k]| == level && IsDirAt(t, dirs[k])
    decreases depth - level, 1, |dirs|
  {
    if dirs == [] then [] else
    WalkVisits(t, listing, dirs[0], depth) + EachVisits(t, listing, dirs[1..], level, depth)
  }

  lemma {:induction false} HandedOverSameEntries(batches: seq<seq<Entry>>)
    ensures multiset(HandedOver(batches)) == multiset(Flatten(batches))
  {
    if batches != [] {
      SortEntriesSorts(batches[0]);
      HandedOverSameEntries(batches[1..]);
    }
  }

  lemma DistinctNamesCount(entries: seq<Entry>, e: Entry)
    requires DistinctNames(entries)
    ensures multiset(entries)[e] <= 1
  {
    if e in entries {
      var k :| 0 <= k < |entries| && entries[k] == e;
      assert entries == entries[..k] + [e] + entries[k + 1..];
      assert e !in entries[..k] && e !in entries[k + 1..];
    }
  }

  lemma DistinctNamesPermute(a: seq<Entry>, b: seq<Entry>)
    requires DistinctNames(a) && multiset(a) == multiset(b)
    ensures DistinctNames(b)
  {
    forall i, j | 0 <= i < j < |b|
      ensures b[i].name != b[j].name
    {
      DistinctNamesCount(a, b[i]);
      assert b == b[..i] + [b[i]] + b[i + 1..] && b[i + 1..][j - i - 1] == b[j];
      assert b[i] in multiset(b) && b[j] in multiset(b);
      assert multiset(b)[b[i]] == multiset(b[..i])[b[i]] + 1 + multiset(b[i + 1..])[b[i]];
      assert b[j] in multiset(b[i + 1..]) && b[i] != b[j];
      var x :| 0 <= x < |a| && a[x] == b[i];
      var y :| 0 <= y < |a| && a[y] == b[j];
    }
  }

  /** A permutation of a directory's entries is a listing of it too. */
  lemma EntriesPermute(t: Tree, p: Path, a: seq<Entry>, b: seq<Entry>)
    requires EntriesOf(t, p, a) && multiset(a) == multiset(b)
    ensures EntriesOf(t, p, b)
  {
    assert DistinctNames(b) by { DistinctNamesPermute(a, b); }
    forall k | 0 <= k < |b|
      ensures p + [b[k].name] in t && (b[k].isDir <==> t[p + [b[k].name]].Directory?)
    {
      assert b[k] in multiset(b);
      var x :| 0 <= x < |a| && a[x] == b[k];
    }
    forall n: Name | p + [n] in t
      ensures exists k :: 0 <= k < |b| && b[k].name == n
    {
      var x :| 0 <= x < |a| && a[x].name == n;
      assert a[x] in multiset(b);
      var k :| 0 <= k < |b| && b[k] == a[x];
    }
  }

  lemma HandedOverIsListing(t: Tree, p: Path, batches: seq<seq<Entry>>)
    requires EntriesOf(t, p, Flatten(batches))
    ensures EntriesOf(t, p, HandedOver(batches))
  {
    HandedOverSameEntries(batches);
    EntriesPermute(t, p, Flatten(batches), HandedOver(batches));
  }

  lemma {:induction false} SubdirsAreDirs(t: Tree, p: Path, entries: seq<Entry>)
    requires forall k :: 0 <= k < |entries| ==> p + [entries[k].name] in t && (entries[k].isDir <==> t[p + [entries[k].name]].Directory?)
    ensures forall q :: q in SubdirsOf(p, entries) <==> exists k :: 0 <= k < |entries| && entries[k].isDir && q == Step(p, entries[k].name)
    ensures forall q :: q in SubdirsOf(p, entries) ==> IsDirAt(t, q)
  {
    if entries != [] {
      SubdirsAreDirs(t, p, entries[1..]);
      forall q
        ensures q in SubdirsOf(p, entries) <==> exists k :: 0 <= k < |entries| && entries[k].isDir && q == Step(p, entries[k].name)
      {
        if exists k :: 0 <= k < |entries| && entries[k].isDir && q == Step(p, entries[k].name) {
          var k :| 0 <= k < |entries| && entries[k].isDir && q == Step(p, entries[k].name);
          if k > 0 { assert entries[1..][k - 1] == entries[k]; }
        }
      }
    }
  }

  lemma {:induction false} SubdirsAreDistinct(p: Path, entries: seq<Entry>)
    requires DistinctNames(entries)
    ensures forall i, j :: 0 <= i < j < |SubdirsOf(p, entries)| ==> SubdirsOf(p, entries)[i] != SubdirsOf(p, entries)[j]
    ensures forall q :: q in SubdirsOf(p, entries) ==> exists k :: 0 <= k < |entries| && q == Step(p, entries[k].name)
  {
    if entries != [] {
      SubdirsAreDistinct(p, entries[1..]);
      var rest := SubdirsOf(p, entries[1..]);
      forall q | q in rest
        ensures q != Step(p, entries[0].name)
      {
        var k :| 0 <= k < |entries[1..]| && q == Step(p, entries[1..][k].name);
        assert q[|p|] == entries[k + 1].name;
      }
      var all := SubdirsOf(p, entries);
      forall i, j | 0 <= i < j < |all|
        ensures all[i] != all[j]
      {
        if entries[0].isDir {
          assert all[j] == rest[j - 1] && rest[j - 1] in rest;
          if i > 0 { assert all[i] == rest[i - 1]; } else { assert all[i] == Step(p, entries[0].name); }
        } else {
          assert all == rest;
        }
      }
    }
  }

  // ---- The walk makes exactly the visits due -------------------------------------

  lemma DistinctConcat(a: seq<Visit>, b: seq<Visit>)
    requires DistinctVisits(a) && DistinctVisits(b) && forall v :: v in a ==> v !in b
    ensures DistinctVisits(a + b)
  {
    forall i, j | 0 <= i < j < |a + b|
      ensures (a + b)[i] != (a + b)[j]
    {
      if i < |a| <= j {
        assert (a + b)[j] in b;
      }
    }
  }

  lemma EntryVisitsDistinct(p: Path, entries: seq<Entry>)
    requires DistinctNames(entries)
    ensures DistinctVisits(EntryVisits(p, entries))
  {
    var vs := EntryVisits(p, entries);
    forall i, j | 0 <= i < j < |vs|
      ensures vs[i] != vs[j]
    {
      assert Step(p, entries[i].name)[|p|] == entries[i].name && Step(p, entries[j].name)[|p|] == entries[j].name;
    }
  }

  lemma {:induction false} WalkIsComplete(t: Tree, listing: Listing, p: Path, depth: nat)
    requires WellFormed(t) && ListsTree(t, listing) && DepthWithin(t, depth) && IsDirAt(t, p)
    ensures Complete(t, p, true, WalkVisits(t, listing, p, depth))
    decreases depth - |p|, 0, 0
  {
    if !t[p].readable {
      UnreadableIsAllThereIs(t, p);
    } else {
      var entries := HandedOver(listing[p]);
      HandedOverIsListing(t, p, listing[p]);
      SubdirsAreDirs(t, p, entries);
      SubdirsAreDistinct(p, entries);
      var dirs := SubdirsOf(p, entries);
      EachIsComplete(t, listing, dirs, |p| + 1, depth);
      EntriesThenEach(t, p, entries, dirs, EachVisits(t, listing, dirs, |p| + 1, depth));
    }
  }

  lemma UnreadableIsAllThereIs(t: Tree, p: Path)
    requires IsDirAt(t, p) && !t[p].readable
    ensures Complete(t, p, true, [Unreadable(p)])
  {
    forall v
      ensures v in [Unreadable(p)] <==> Due(t, p, true, v)
    {
      if Due(t, p, true, v) {
        assert v.path[..|p|] == p;
        assert |v.path| == |p| && v.path == p;
      }
    }
  }

  /** Exactly what is due below some directory of the list. */
  ghost predicate CompleteEach(t: Tree, dirs: seq<Path>, vs: seq<Visit>) {
    DistinctVisits(vs) && forall v :: v in vs <==> exists k :: 0 <= k < |dirs| && Due(t, dirs[k], true, v)
  }

  lemma {:induction false} EachIsComplete(t: Tree, listing: Listing, dirs: seq<Path>, level: nat, depth: nat)
    requires WellFormed(t) && ListsTree(t, listing) && DepthWithin(t, depth)
    requires forall k :: 0 <= k < |dirs| ==> |dirs[k]| == level && IsDirAt(t, dirs[k])
    requires forall i, j :: 0 <= i < j < |dirs| ==> dirs[i] != dirs[j]
    ensures CompleteEach(t, dirs, EachVisits(t, listing, dirs, level, depth))
    decreases depth - level, 1, |dirs|
  {
    if dirs != [] {
      WalkIsComplete(t, listing, dirs[0], depth);
      EachIsComplete(t, listing, dirs[1..], level, depth);
      OneMoreDirectory(t, dirs, WalkVisits(t, listing, dirs[0], depth), EachVisits(t, listing, dirs[1..], level, depth));
    }
  }

  lemma OneMoreDirectory(t: Tree, dirs: seq<Path>, first: seq<Visit>, rest: seq<Visit>)
    requires dirs != [] && (forall k :: 0 <= k < |dirs| ==> |dirs[k]| == |dirs[0]|)
    requires forall i, j :: 0 <= i < j < |dirs| ==> dirs[i] != dirs[j]
    requires Complete(t, dirs[0], true, first) && CompleteEach(t, dirs[1..], rest)
    ensures CompleteEach(t, dirs, first + rest)
  {
    var level := |dirs[0]|;
    forall v | v in first
      ensures |v.path| >= level && v.path[..level] == dirs[0]
    {
      assert Due(t, dirs[0], true, v);
    }
    forall v | v in rest
      ensures |v.path| >= level && v.path[..level] != dirs[0]
    {
      var k :| 0 <= k < |dirs[1..]| && Due(t, dirs[1..][k], true, v);
      assert dirs[1..][k] == dirs[k + 1];
    }
    DistinctConcat(first, rest);
    forall v
      ensures v in first + rest <==> exists k :: 0 <= k < |dirs| && Due(t, dirs[k], true, v)
    {
      if v in rest {
        var k :| 0 <= k < |dirs[1..]| && Due(t, dirs[1..][k], true, v);
        assert Due(t, dirs[k + 1], true, v);
      }
      if exists k :: 0 <= k < |dirs| && Due(t, dirs[k], true, v) {
        var k :| 0 <= k < |dirs| && Due(t, dirs[k], true, v);
        if k > 0 { assert Due(t, dirs[1..][k - 1], true, v); }
      }
    }
  }

  lemma EntriesThenEach(t: Tree, p: Path, entries: seq<Entry>, dirs: seq<Path>, below: seq<Visit>)
    requires IsDirAt(t, p) && t[p].readable && EntriesOf(t, p, entries)
    requires forall q :: q in dirs <==> exists k :: 0 <= k < |entries| && entries[k].isDir && q == Step(p, entries[k].name)
    requires (forall k :: 0 <= k < |dirs| ==> |dirs[k]| == |p| + 1 && IsDirAt(t, dirs[k])) && CompleteEach(t, dirs, below)
    ensures Complete(t, p, true, EntryVisits(p, entries) + below)
  {
    var own := EntryVisits(p, entries);
    EntryVisitsDistinct(p, entries);
    forall v | v in below
      ensures v.Entered? ==> |v.path| > |p| + 1
    {
      var k :| 0 <= k < |dirs| && Due(t, dirs[k], true, v);
    }
    assert forall v :: v in own ==> v.Entered? && |v.path| == |p| + 1;
    DistinctConcat(own, below);
    forall v
      ensures v in own + below <==> Due(t, p, true, v)
    {
      if v in own {
        var k :| 0 <= k < |own| && own[k] == v;
        DueEntry(t, p, entries[k].name);
      } else if v in below {
        var k :| 0 <= k < |dirs| && Due(t, dirs[k], true, v);
        assert dirs[k] in dirs;
        var m :| 0 <= m < |entries| && entries[m].isDir && dirs[k] == Step(p, entries[m].name);
        DueRises(t, p, entries[m].name, v);
      }
      if Due(t, p, true, v) {
        DueIsMade(t, p, entries, dirs, own, below, v);
      }
    }
  }

  lemma DueIsMade(t: Tree, p: Path, entries: seq<Entry>, dirs: seq<Path>, own: seq<Visit>, below: seq<Visit>, v: Visit)
    requires IsDirAt(t, p) && t[p].readable && EntriesOf(t, p, entries) && own == EntryVisits(p, entries) && CompleteEach(t, dirs, below)
    requires forall q :: q in dirs <==> exists k :: 0 <= k < |entries| && entries[k].isDir && q == Step(p, entries[k].name)
    requires Due(t, p, true, v)
    ensures v in own || v in below
  {
    if v.Entered? && |v.path| == |p| + 1 {
      var n := v.path[|p|];
      assert v.path == p + [n];
      var k :| 0 <= k < |entries| && entries[k].name == n;
      assert own[k] == v;
    } else {
      var n := DueSinks(t, p, v);
      assert p + [n] in t;
      var k :| 0 <= k < |entries| && entries[k].name == n;
      assert Step(p, n) in dirs;
      var j :| 0 <= j < |dirs| && dirs[j] == Step(p, n);
      assert Due(t, dirs[j], true, v);
    }
  }
}
