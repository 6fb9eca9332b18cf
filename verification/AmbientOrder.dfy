/** The order of filepath.WalkDir, which the ambient recursive sweep uses: each entry, and
    right after it everything below it, the entries of a directory sorted by name. */
module AmbientOrder {
  import opened FileSystem
  import opened Walking
  import opened QuietTrees
  import opened QuietWalks

  lemma SortedIsListing(t: Tree, p: Path, entries: seq<Entry>)
    requires EntriesOf(t, p, entries)
    ensures EntriesOf(t, p, SortEntries(entries))
  {
    SortEntriesSorts(entries);
    EntriesPermute(t, p, entries, SortEntries(entries));
  }

  ghost function AmbientVisits(t: Tree, listing: Listing, p: Path, depth: nat): seq<Visit>
    requires WellFormed(t) && ListsTree(t, listing) && DepthWithin(t, depth) && IsDirAt(t, p)
    decreases depth - |p|, 1, 0
  {
    if !t[p].readable then [Unreadable(p)] else
    SortedIsListing(t, p, Flatten(listing[p]));
    AmbientEntries(t, listing, p, SortEntries(Flatten(listing[p])), depth)
  }

  /** These entries exist in `p`, under different names. */
  ghost predicate SomeOf(t: Tree, p: Path, entries: seq<Entry>) {
    DistinctNames(entries) && forall k :: 0 <= k < |entries| ==>
      Step(p, entries[k].name) in t && (entries[k].isDir <==> t[Step(p, entries[k].name)].Directory?)
  }

  ghost function AmbientEntries(t: Tree, listing: Listing, p: Path, entries: seq<Entry>, depth: nat): seq<Visit>
    requires WellFormed(t) && ListsTree(t, listing) && DepthWithin(t, depth) && IsDirAt(t, p) && SomeOf(t, p, entries)
    decreases depth - |p|, 0, |entries|
  {
    if entries == [] then [] else
    var q := Step(p, entries[0].name);
    [Entered(q, entries[0].isDir)]
    + (if entries[0].isDir then AmbientVisits(t, listing, q, depth) else [])
    + AmbientEntries(t, listing, p, entries[1..], depth)
  }

  /** What is due for one entry: itself, and if it is a directory all that is below it. */
  ghost predicate DueFor(t: Tree, p: Path, e: Entry, v: Visit) {
    v == Entered(Step(p, e.name), e.isDir) || (e.isDir && Due(t, Step(p, e.name), true, v))
  }

  ghost predicate CompleteEntries(t: Tree, p: Path, entries: seq<Entry>, vs: seq<Visit>) {
    DistinctVisits(vs) && forall v :: v in vs <==> exists k :: 0 <= k < |entries| && DueFor(t, p, entries[k], v)
  }

  lemma DueForNames(t: Tree, p: Path, e: Entry, v: Visit)
    requires DueFor(t, p, e, v)
    ensures |v.path| > |p| && v.path[|p|] == e.name
  {
  }

  lemma {:induction false} AmbientIsComplete(t: Tree, listing: Listing, p: Path, depth: nat)
    requires WellFormed(t) && ListsTree(t, listing) && DepthWithin(t, depth) && IsDirAt(t, p)
    ensures Complete(t, p, true, AmbientVisits(t, listing, p, depth))
    decreases depth - |p|, 1, 0
  {
    if !t[p].readable {
      UnreadableIsAllThereIs(t, p);
    } else {
      var entries := SortEntries(Flatten(listing[p]));
      SortedIsListing(t, p, Flatten(listing[p]));
      AmbientEntriesComplete(t, listing, p, entries, depth);
      EntriesMakeTheDirectory(t, p, entries, AmbientEntries(t, listing, p, entries, depth));
    }
  }

  lemma EntriesMakeTheDirectory(t: Tree, p: Path, entries: seq<Entry>, vs: seq<Visit>)
    requires IsDirAt(t, p) && t[p].readable && EntriesOf(t, p, entries) && CompleteEntries(t, p, entries, vs)
    ensures Complete(t, p, true, vs)
  {
    forall v
      ensures v in vs <==> Due(t, p, true, v)
    {
      if v in vs {
        var k :| 0 <= k < |entries| && DueFor(t, p, entries[k], v);
        if v == Entered(Step(p, entries[k].name), entries[k].isDir) {
          DueEntry(t, p, entries[k].name);
        } else {
          DueRises(t, p, entries[k].name, v);
        }
      }
      if Due(t, p, true, v) {
        var n: Name;
        if v.Entered? && |v.path| == |p| + 1 {
          n := v.path[|p|];
          assert v.path == p + [n];
        } else {
          n := DueSinks(t, p, v);
          assert p + [n] in t;
        }
        var k :| 0 <= k < |entries| && entries[k].name == n;
        assert DueFor(t, p, entries[k], v);
      }
    }
  }

  lemma {:induction false} AmbientEntriesComplete(t: Tree, listing: Listing, p: Path, entries: seq<Entry>, depth: nat)
    requires WellFormed(t) && ListsTree(t, listing) && DepthWithin(t, depth) && IsDirAt(t, p) && SomeOf(t, p, entries)
    ensures CompleteEntries(t, p, entries, AmbientEntries(t, listing, p, entries, depth))
    decreases depth - |p|, 0, |entries|
  {
    if entries != [] {
      var e, q := entries[0], Step(p, entries[0].name);
      var below := if e.isDir then AmbientVisits(t, listing, q, depth) else [];
      if e.isDir {
        AmbientIsComplete(t, listing, q, depth);
      }
      AmbientEntriesComplete(t, listing, p, entries[1..], depth);
      OneMoreEntry(t, p, entries, below, AmbientEntries(t, listing, p, entries[1..], depth));
    }
  }

  lemma OneMoreEntry(t: Tree, p: Path, entries: seq<Entry>, below: seq<Visit>, rest: seq<Visit>)
    requires entries != [] && DistinctNames(entries) && CompleteEntries(t, p, entries[1..], rest)
    requires if entries[0].isDir then Complete(t, Step(p, entries[0].name), true, below) else below == []
    ensures CompleteEntries(t, p, entries, [Entered(Step(p, entries[0].name), entries[0].isDir)] + below + rest)
  {
    var e, q := entries[0], Step(p, entries[0].name);
    var first := [Entered(q, e.isDir)] + below;
    DistinctConcat([Entered(q, e.isDir)], below);
    forall v
      ensures v in first <==> DueFor(t, p, e, v)
    {
    }
    forall v | v in first
      ensures |v.path| > |p| && v.path[|p|] == e.name
    {
      DueForNames(t, p, e, v);
    }
    forall v | v in rest
      ensures |v.path| > |p| && v.path[|p|] != e.name
    {
      var k :| 0 <= k < |entries[1..]| && DueFor(t, p, entries[1..][k], v);
      DueForNames(t, p, entries[k + 1], v);
    }
    DistinctConcat(first, rest);
    forall v
      ensures v in first + rest <==> exists k :: 0 <= k < |entries| && DueFor(t, p, entries[k], v)
    {
      if v in rest {
        var k :| 0 <= k < |entries[1..]| && DueFor(t, p, entries[1..][k], v);
        assert DueFor(t, p, entries[k + 1], v);
      }
      if exists k :: 0 <= k < |entries| && DueFor(t, p, entries[k], v) {
        var k :| 0 <= k < |entries| && DueFor(t, p, entries[k], v);
        if k > 0 { assert DueFor(t, p, entries[1..][k - 1], v); }
      }
    }
  }
}
