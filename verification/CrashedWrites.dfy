/** One call of the engine, cut short by a crash anywhere. */
module CrashedWrites {
  import opened FileSystem
  import opened TempNames
  import opened Publishing
  import opened Runs
  import opened Interference
  import opened Hosts
  import opened Engine

  /** Published there after the log had `n` records. */
  ghost predicate PublishedSince(n: nat, log: seq<Publication>, sl: Slot, b: Binding) {
    exists k :: n <= k < |log| && log[k].slot == sl && b == Bound(log[k].ino)
  }

  lemma StepAddsPublications(s: State, a: Act, target: Slot)
    requires Sound(s.fs) && TempsStand(s) && SweepIsConfined(s) && Allowed(s, a) && !IsTempName(target.name) && target in s.fs.bind
    ensures target in Apply(s, a).fs.bind && s.log <= Apply(s, a).log
    ensures forall b :: b in Possible(Apply(s, a).fs, target) ==> b in Possible(s.fs, target) || PublishedSince(|s.log|, Apply(s, a).log, target, b)
  {
    var s' := Apply(s, a);
    forall b | b in Possible(s'.fs, target) && b !in Possible(s.fs, target)
      ensures PublishedSince(|s.log|, s'.log, target, b)
    {
      assert a.Publish? && s'.log[|s.log|].slot == target;
    }
  }

  /** At a name that is taken, a run adds only what is published there to what a crash may show. */
  lemma {:induction false} RunAddsPublications(s0: State, s: State, acts: seq<Act>, target: Slot)
    requires Inv(s0, s) && AllowedRun(s, acts) && !IsTempName(target.name) && target in s.fs.bind
    ensures s.log <= After(s, acts).log
    ensures forall b :: b in Possible(After(s, acts).fs, target) ==>
              b in Possible(s.fs, target) || PublishedSince(|s.log|, After(s, acts).log, target, b)
    decreases |acts|
  {
    if acts != [] {
      var s' := Apply(s, acts[0]);
      StepAddsPublications(s, acts[0], target);
      StepKeepsInv(s0, s, acts[0]);
      RunAddsPublications(s0, s', acts[1..], target);
      var end := After(s, acts);
      forall b | b in Possible(end.fs, target) && b !in Possible(s.fs, target)
        ensures PublishedSince(|s.log|, end.log, target, b)
      {
        if b in Possible(s'.fs, target) {
          var k :| |s.log| <= k < |s'.log| && s'.log[k].slot == target && b == Bound(s'.log[k].ino);
          assert end.log[k] == s'.log[k];
        } else {
          var k :| |s'.log| <= k < |end.log| && end.log[k].slot == target && b == Bound(end.log[k].ino);
        }
      }
    }
  }

  lemma StepKeepsFile(s: State, a: Act, i: Ino)
    requires IsFile(s.fs, i) && Enabled(s, a) && forall w :: Held(s, w) ==> s.writers[w].temp.ino != i
    ensures IsFile(Apply(s, a).fs, i) && Apply(s, a).fs.nodes[i] == s.fs.nodes[i]
    ensures forall w :: Held(Apply(s, a), w) ==> Apply(s, a).writers[w].temp.ino != i
  {
  }

  /** A file that is nobody's temp is never changed. */
  lemma {:induction false} RunKeepsFile(s: State, acts: seq<Act>, i: Ino)
    requires IsFile(s.fs, i) && AllowedRun(s, acts) && forall w :: Held(s, w) ==> s.writers[w].temp.ino != i
    ensures IsFile(After(s, acts).fs, i) && After(s, acts).fs.nodes[i] == s.fs.nodes[i]
    decreases |acts|
  {
    if acts != [] {
      StepKeepsFile(s, acts[0], i);
      RunKeepsFile(Apply(s, acts[0]), acts[1..], i);
    }
  }

  // ---- One call ---------------------------------------------------------------------

  /** Another writer's file, whole. */
  ghost predicate ShowsAnothers(log: seq<Publication>, me: Wid, img: Image, sl: Slot) {
    exists k :: 0 <= k < |log| && log[k].writer != me && log[k].slot == sl && Shows(img, sl, log[k].ino, log[k].content)
  }

  /** The end of a call: delivered, or undone. */
  ghost predicate Ended(s: State, root: Ino, hops: nat, me: Wid, name: Path, content: seq<Byte>, cfg: Config, r: Outcome, p: Publication)
    requires name != []
  {
    if r.Success? then IsPublished(s, root, hops, me, name, content, cfg, p) else NeverPublished(s.log, me)
  }

  /** What a crash in the middle of a call shows under the full path of its target: the old
      file, or exactly the payload, or what another writer has published over it meanwhile.
      A call that fails never shows its payload. */
  ghost predicate OldOrNew(start: State, s: State, img: Image, root: Ino, hops: nat, me: Wid, name: Path, content: seq<Byte>,
                           r: Outcome, p: Publication, prior: Ino)
    requires name != [] && IsFile(start.fs, prior)
  {
    var dir := Resolve(start.fs, root, ParentOf(name), hops);
    && dir.At? && Walk(s.fs.nodes, img.look, root, root, ParentOf(name), hops) == dir
    && var target := Slot(dir.ino, BaseOf(name));
       || Shows(img, target, prior, start.fs.nodes[prior].data)
       || (r.Success? && Shows(img, target, p.ino, content))
       || ShowsAnothers(s.log, me, img, target)
  }

  /** The old file was there, durable, at a durable path, when the call began. */
  ghost predicate OldFileThere(start: State, root: Ino, hops: nat, name: Path, prior: Ino)
    requires name != []
  {
    var dir := Resolve(start.fs, root, ParentOf(name), hops);
    && dir.At? && PathSettled(start.fs, root, ParentOf(name), hops)
    && Lookup(start.fs, Slot(dir.ino, BaseOf(name))) == Bound(prior) && Settled(start.fs, Slot(dir.ino, BaseOf(name)))
    && IsFile(start.fs, prior) && start.fs.nodes[prior].synced
  }

  /** What the record of a new rename onto the target says of this call. */
  lemma NewRecordIsOursOrAnothers(w: Host, s: State, me: Wid, name: Path, content: seq<Byte>, cfg: Config, r: Outcome, p: Publication, j: nat)
    requires w.Valid() && s.log <= w.s.log && name != [] && Ended(w.s, w.root, w.hops, me, name, content, cfg, r, p)
    requires j < |s.log| && s.log[j].writer == me
    ensures r.Success? && s.log[j] == p && p.content == content
  {
    w.Invariant();
    assert w.s.log[j] == s.log[j];
  }

  /** Crash atomicity of one write: `start` is the state in which the call began, `w` that in
      which it has ended, and `mid`, where the crash comes, any state in between. */
  lemma CrashedWriteShowsOldOrNew(w: Host, run: seq<Act>, start: State, upTo: seq<Act>, mid: State, me: Wid, name: Path, content: seq<Byte>,
                                  cfg: Config, r: Outcome, p: Publication, prior: Ino, img: Image)
    requires w.Valid() && w.Passed(run, start) && w.Passed(upTo, mid) && run <= upTo && IsDir(start.fs, w.root)
    requires name != [] && PlainName(name) && Ended(w.s, w.root, w.hops, me, name, content, cfg, r, p)
    requires OldFileThere(start, w.root, w.hops, name, prior) && CrashOf(mid.fs, img)
    ensures OldOrNew(start, mid, img, w.root, w.hops, me, name, content, r, p, prior)
  {
    var dir := Resolve(start.fs, w.root, ParentOf(name), w.hops);
    var target := Slot(dir.ino, BaseOf(name));
    var acts := CallsBetween(w, run, start, upTo, mid);
    RunKeepsInv(w.s0, start, acts);
    RunGrows(w.s0, start, acts);
    SettledPathGrows(start.fs, mid.fs, w.root, ParentOf(name), w.hops);
    SettledPathSurvives(mid.fs, w.root, ParentOf(name), w.hops, img);
    OldOrPublished(w.s0, start, acts, img, target, prior);
    if ShowsPublished(mid, img, target) {
      var j :| 0 <= j < |mid.log| && mid.log[j].slot == target && Shows(img, target, mid.log[j].ino, mid.log[j].content);
      w.Since(upTo, mid);
      if mid.log[j].writer == me {
        NewRecordIsOursOrAnothers(w, mid, me, name, content, cfg, r, p, j);
      }
    }
  }

  /** From any state of a run on, over a durable file. */
  lemma OldOrPublished(s0: State, start: State, acts: seq<Act>, img: Image, target: Slot, prior: Ino)
    requires Inv(s0, start) && AllowedRun(start, acts) && !IsTempName(target.name) && CrashOf(After(start, acts).fs, img)
    requires Lookup(start.fs, target) == Bound(prior) && Settled(start.fs, target) && IsFile(start.fs, prior) && start.fs.nodes[prior].synced
    ensures Shows(img, target, prior, start.fs.nodes[prior].data) || ShowsPublished(After(start, acts), img, target)
  {
    var mid := After(start, acts);
    RunKeepsInv(s0, start, acts);
    RunAddsPublications(s0, start, acts, target);
    assert img.look(target) in Possible(mid.fs, target);
    if img.look(target) in Possible(start.fs, target) {
      assert forall v :: Held(start, v) && start.writers[v].temp.ino == prior ==> target == start.writers[v].temp.slot;
      RunKeepsFile(start, acts, prior);
    } else {
      var j :| |start.log| <= j < |mid.log| && mid.log[j].slot == target && img.look(target) == Bound(mid.log[j].ino);
      assert PublicationStands(mid.fs, mid.log[j]);
    }
  }

  lemma CallsBetween(w: Host, run: seq<Act>, start: State, upTo: seq<Act>, mid: State) returns (acts: seq<Act>)
    requires w.Valid() && w.Passed(run, start) && w.Passed(upTo, mid) && run <= upTo
    ensures Inv(w.s0, start) && AllowedRun(start, acts) && After(start, acts) == mid
  {
    w.Later(run, start);
    Unfold(w.s0, upTo, mid);
    Unfold(w.s0, run, start);
    acts := upTo[|run|..];
    RunSplits(w.s0, upTo, |run|);
    assert upTo[..|run|] == run;
  }
}
