/** What a walk does, told by a log of what it asked and what it was answered - for any tree,
    any failures and any callback. */
module WalkLogs {
  import opened FileSystem
  import opened Walking

  /** A directory was tried, and could not be opened or read on; the callback was called, and
      answered; or the context was found done. */
  datatype Event =
    | Opened(dir: Path)
    | Failed(failure: Errno)
    | Called(path: Path, entry: Option<Entry>, failed: Option<Errno>, answer: Option<WalkError>)
    | Done(err: Errno)

  datatype Noted<S> = Noted(s: S, log: seq<Event>) {
    function Note(s': S, e: Event): Noted<S> { Noted(s', log + [e]) }
  }

  /** The same world, keeping the log. */
  function Logging<S>(w: World<S>): World<Noted<S>> {
    World(
      (n: Noted<S>) =>
        var (s, done) := w.ctxErr(n.s);
        (if done.Some? then n.Note(s, Done(done.value)) else n.(s := s), done),
      (n: Noted<S>) =>
        var (s, failed) := w.statRoot(n.s);
        (if failed.Some? then n.Note(s, Failed(failed.value)) else n.(s := s), failed),
      (n: Noted<S>, p: Path) =>
        var (s, failed) := w.openDir(n.s, p);
        (if failed.Some? then n.Note(s, Opened(p)).Note(s, Failed(failed.value)) else n.Note(s, Opened(p)), failed),
      (n: Noted<S>, p: Path, k: nat) =>
        var (s, batch) := w.readDir(n.s, p, k);
        (if batch.end.ReadFailed? then n.Note(s, Failed(batch.end.err)) else n.(s := s), batch),
      (n: Noted<S>, p: Path, entry: Option<Entry>, failed: Option<Errno>) =>
        var (s, answer) := w.fn(n.s, p, entry, failed);
        (n.Note(s, Called(p, entry, failed, answer)), answer))
  }

  lemma LoggingIsBounded<S(!new)>(w: World<S>, depth: nat, batches: nat)
    requires Bounded(w, depth, batches)
    ensures Bounded(Logging(w), depth, batches)
  {
    forall n: Noted<S>, p | |p| >= depth
      ensures Logging(w).openDir(n, p).1.Some?
    {
      assert w.openDir(n.s, p).1.Some?;
    }
    forall n: Noted<S>, p, k | k >= batches
      ensures !Logging(w).readDir(n, p, k).1.end.More?
    {
      assert !w.readDir(n.s, p, k).1.end.More?;
    }
  }

  // ---- What a log has to look like ----------------------------------------------------

  /** The answer ends the whole walk. */
  predicate EndsWalk(e: Event) { e.Done? || (e.Called? && e.answer.Some? && !e.answer.value.SkipDir?) }

  /** After this the walk goes on in the directory it is reading. */
  predicate GoesOnHere(e: Event) {
    e.Opened? || e.Failed? || (e.Called? && e.entry.Some? && (e.answer == None || (e.answer == Some(SkipDir) && e.entry.value.isDir)))
  }

  /** A call is for an entry of the directory, or reports a failure of the directory itself. */
  predicate IsFor(dir: Path, e: Event) {
    && !e.Opened?
    && (e.Called? ==> match e.entry case Some(x) => e.path == dir + [x.name] && e.failed == None case None => e.path == dir && e.failed.Some?)
  }

  function Last(seg: seq<Event>): Event
    requires seg != []
  {
    seg[|seg| - 1]
  }

  /** The events of one directory: it is opened; then come calls for it only, as long as none
      of them is answered by something that ends the directory or the walk. */
  ghost predicate Segment(dir: Path, seg: seq<Event>) {
    && seg != [] && seg[0] == Opened(dir)
    && (forall k :: 0 < k < |seg| ==> IsFor(dir, seg[k]))
    && (forall k :: 0 <= k < |seg| - 1 ==> GoesOnHere(seg[k]))
  }

  /** The failures of a directory. */
  function FailuresIn(seg: seq<Event>): seq<Errno> {
    if seg == [] then [] else FailuresIn(seg[..|seg| - 1]) + if Last(seg).Failed? then [Last(seg).failure] else []
  }

  /** A failure is reported, and once, unless an answer has ended the directory before; and
      nothing is reported but a failure. */
  predicate ReportsFailure(seg: seq<Event>)
    requires seg != []
  {
    && |FailuresIn(seg)| <= 1 && (FailuresIn(seg) != [] ==> !GoesOnHere(Last(seg)))
    && (Last(seg).Called? && Last(seg).entry == None && Last(seg).failed.Some? ==> FailuresIn(seg) == [Last(seg).failed.value])
  }

  /** The directories to be walked later, in the order of their entries: those whose call was
      answered with nil. */
  function QueuedBy(seg: seq<Event>): seq<Path> {
    if seg == [] then [] else QueuedBy(seg[..|seg| - 1]) + if Queues(Last(seg)) then [Last(seg).path] else []
  }

  predicate Queues(e: Event) { e.Called? && e.entry.Some? && e.entry.value.isDir && e.answer == None }

  function StopOf(e: Event): bool { e.Called? && e.answer == Some(SkipAll) }

  function ErrOf(e: Event): Option<Errno> {
    match e
    case Done(err) => Some(err)
    case Called(_, _, _, Some(Broken(err))) => Some(err)
    case _ => None
  }

  // ---- Reading one directory ------------------------------------------------------------

  lemma OneMoreEvent(dir: Path, seg: seq<Event>, e: Event)
    requires Segment(dir, seg) && GoesOnHere(Last(seg)) && IsFor(dir, e)
    ensures Segment(dir, seg + [e]) && Last(seg + [e]) == e
    ensures QueuedBy(seg + [e]) == QueuedBy(seg) + if Queues(e) then [e.path] else []
    ensures FailuresIn(seg + [e]) == FailuresIn(seg) + if e.Failed? then [e.failure] else []
  {
    var all := seg + [e];
    assert all[..|seg|] == seg;
    forall k | 0 <= k < |seg|
      ensures GoesOnHere(all[k]) && (k > 0 ==> IsFor(dir, all[k]))
    {
      assert all[k] == seg[k];
    }
  }

  /** What reading a directory, as far as it has come, leaves: the events since `before`, and
      what they say of the queue and of how it ended. */
  ghost predicate Read<S>(before: seq<Event>, dir: Path, seg: seq<Event>, v: Visited<Noted<S>>, subdirs: seq<Path>) {
    && v.s.log == before + seg && Segment(dir, seg) && v.stop == StopOf(Last(seg)) && v.err == ErrOf(Last(seg))
    && (!v.ended ==> GoesOnHere(Last(seg))) && (v.err == None && !v.stop ==> QueuedBy(seg) == subdirs)
  }

  /** One entry, as the log has it. */
  lemma EntryLog<S(!new)>(w: World<S>, n: Noted<S>, dir: Path, entries: seq<Entry>) returns (e: Event, next: Noted<S>)
    requires entries != []
    ensures e.Called? && e.path == dir + [entries[0].name] && e.entry == Some(entries[0]) && e.failed == None && next.log == n.log + [e]
    ensures VisitEntries(Logging(w), n, dir, entries) ==
            if GoesOnHere(e) then Prepended(if Queues(e) then [e.path] else [], VisitEntries(Logging(w), next, dir, entries[1..]))
            else Visited(next, [], true, StopOf(e), ErrOf(e))
  {
    var path := dir + [entries[0].name];
    var (s, answer) := w.fn(n.s, path, Some(entries[0]), None);
    e := Called(path, Some(entries[0]), None, answer);
    next := n.Note(s, e);
    var rest := VisitEntries(Logging(w), next, dir, entries[1..]);
    assert Prepended([], rest) == rest;
  }

  lemma ReadFurther<S>(before: seq<Event>, dir: Path, all: seq<Event>, soFar: seq<Path>, first: seq<Path>, rest: Visited<Noted<S>>)
    requires Read(before, dir, all, rest, soFar + first + rest.subdirs)
    ensures Read(before, dir, all, Prepended(first, rest), soFar + Prepended(first, rest).subdirs)
  {
    assert soFar + first + rest.subdirs == soFar + (first + rest.subdirs);
  }

  /** An entry whose answer ends the directory, or the walk. */
  lemma ReadEnds<S>(before: seq<Event>, dir: Path, seg: seq<Event>, e: Event, next: Noted<S>)
    requires Segment(dir, seg) && GoesOnHere(Last(seg)) && IsFor(dir, e) && e.Called? && !Queues(e) && next.log == before + seg + [e]
    ensures Read(before, dir, seg + [e], Visited(next, [], true, StopOf(e), ErrOf(e)), QueuedBy(seg) + [])
  {
    OneMoreEvent(dir, seg, e);
    assert before + seg + [e] == before + (seg + [e]);
  }

  lemma {:induction false} EntriesLog<S(!new)>(w: World<S>, n: Noted<S>, before: seq<Event>, dir: Path, seg: seq<Event>, entries: seq<Entry>)
    returns (all: seq<Event>)
    requires n.log == before + seg && Segment(dir, seg) && GoesOnHere(Last(seg))
    ensures var v := VisitEntries(Logging(w), n, dir, entries);
            Read(before, dir, all, v, QueuedBy(seg) + v.subdirs) && FailuresIn(all) == FailuresIn(seg)
            && (Last(all).Called? ==> Last(all) == Last(seg) || Last(all).entry.Some?) && (v.ended ==> !GoesOnHere(Last(all)))
    decreases |entries|
  {
    all := seg;
    if entries != [] {
      var e, next := EntryLog(w, n, dir, entries);
      OneMoreEvent(dir, seg, e);
      if GoesOnHere(e) {
        var rest := VisitEntries(Logging(w), next, dir, entries[1..]);
        assert next.log == before + (seg + [e]);
        all := EntriesLog(w, next, before, dir, seg + [e], entries[1..]);
        ReadFurther(before, dir, all, QueuedBy(seg), if Queues(e) then [e.path] else [], rest);
      } else {
        ReadEnds(before, dir, seg, e, next);
        all := seg + [e];
      }
    }
  }

  lemma ReportLog<S(!new)>(w: World<S>, n: Noted<S>, before: seq<Event>, dir: Path, seg: seq<Event>, err: Errno) returns (all: seq<Event>)
    requires n.log == before + seg && Segment(dir, seg) && GoesOnHere(Last(seg)) && FailuresIn(seg) == [err]
    ensures Read(before, dir, all, ReportFailure(Logging(w), n, dir, err), QueuedBy(seg)) && ReportsFailure(all)
  {
    var (s, answer) := w.fn(n.s, dir, None, Some(err));
    var e := Called(dir, None, Some(err), answer);
    assert n.Note(s, e).log == before + (seg + [e]);
    OneMoreEvent(dir, seg, e);
    all := seg + [e];
  }

  function FailureBy(end: ReadEnd): seq<Errno> {
    match end case ReadFailed(err) => [err] case _ => []
  }

  lemma ReadDirLog<S>(w: World<S>, n: Noted<S>, dir: Path, k: nat)
    ensures var (n', batch) := Logging(w).readDir(n, dir, k); n'.log == n.log + match batch.end case ReadFailed(err) => [Failed(err)] case _ => []
  {
    var (s, b) := w.readDir(n.s, dir, k);
    assert Logging(w).readDir(n, dir, k) == (if b.end.ReadFailed? then n.Note(s, Failed(b.end.err)) else n.(s := s), b);
  }

  /** One batch read and handed over. */
  ghost predicate BatchRead<S>(before: seq<Event>, dir: Path, soFar: seq<Path>, read: seq<Event>, v: Visited<Noted<S>>, end: ReadEnd) {
    && Read(before, dir, read, v, soFar + v.subdirs) && FailuresIn(read) == FailureBy(end)
    && (Last(read).Called? ==> Last(read).entry.Some?) && (v.ended ==> !GoesOnHere(Last(read)))
  }

  /** A failed read is noted before the entries that came with it. */
  lemma BatchLog<S(!new)>(w: World<S>, n: Noted<S>, before: seq<Event>, dir: Path, seg: seq<Event>, k: nat) returns (all: seq<Event>)
    requires n.log == before + seg && Segment(dir, seg) && GoesOnHere(Last(seg)) && FailuresIn(seg) == []
    ensures var (n', batch) := Logging(w).readDir(n, dir, k);
            BatchRead(before, dir, QueuedBy(seg), all, VisitEntries(Logging(w), n', dir, SortEntries(batch.entries)), batch.end)
  {
    var (n', batch) := Logging(w).readDir(n, dir, k);
    ReadDirLog(w, n, dir, k);
    all := FailureLog(before, dir, seg, batch.end);
    all := EntriesLog(w, n', before, dir, all, SortEntries(batch.entries));
  }

  lemma FailureLog(before: seq<Event>, dir: Path, seg: seq<Event>, end: ReadEnd) returns (all: seq<Event>)
    requires Segment(dir, seg) && GoesOnHere(Last(seg)) && FailuresIn(seg) == []
    ensures before + all == before + seg + match end case ReadFailed(err) => [Failed(err)] case _ => []
    ensures Segment(dir, all) && GoesOnHere(Last(all)) && FailuresIn(all) == FailureBy(end) && QueuedBy(all) == QueuedBy(seg)
    ensures Last(all).Called? ==> Last(all) == Last(seg)
  {
    all := seg;
    if end.ReadFailed? {
      OneMoreEvent(dir, seg, Failed(end.err));
      all := seg + [Failed(end.err)];
    }
  }

  lemma {:induction false} StreamLog<S(!new)>(w: World<S>, n: Noted<S>, before: seq<Event>, dir: Path, seg: seq<Event>, k: nat, depth: nat, batches: nat)
    returns (all: seq<Event>)
    requires Bounded(w, depth, batches) && Bounded(Logging(w), depth, batches)
    requires n.log == before + seg && Segment(dir, seg) && GoesOnHere(Last(seg)) && FailuresIn(seg) == []
    ensures var v := StreamFrom(Logging(w), n, dir, k, depth, batches);
            Read(before, dir, all, v.(ended := true), QueuedBy(seg) + v.subdirs) && ReportsFailure(all)
    decreases batches - k, 1
  {
    var (s1, cancelled) := w.ctxErr(n.s);
    if cancelled.Some? {
      var e := Done(cancelled.value);
      assert n.Note(s1, e).log == before + (seg + [e]);
      OneMoreEvent(dir, seg, e);
      return seg + [e];
    }
    var l, n1 := Logging(w), n.(s := s1);
    var (n2, batch) := l.readDir(n1, dir, k);
    all := BatchLog(w, n1, before, dir, seg, k);
    var v := VisitEntries(l, n2, dir, SortEntries(batch.entries));
    all := AfterBatch(w, before, dir, QueuedBy(seg), all, v, batch.end, k, depth, batches);
  }

  lemma BatchIsAll<S>(before: seq<Event>, dir: Path, soFar: seq<Path>, read: seq<Event>, v: Visited<Noted<S>>, end: ReadEnd)
    requires BatchRead(before, dir, soFar, read, v, end)
    ensures Read(before, dir, read, v.(ended := true), soFar + v.subdirs) && (v.ended || end.EOF? ==> ReportsFailure(read))
    ensures !v.ended ==> GoesOnHere(Last(read)) && QueuedBy(read) == soFar + v.subdirs
  {
  }

  lemma FailedBatch<S(!new)>(w: World<S>, before: seq<Event>, dir: Path, soFar: seq<Path>, read: seq<Event>, v: Visited<Noted<S>>, err: Errno)
    returns (all: seq<Event>)
    requires BatchRead(before, dir, soFar, read, v, ReadFailed(err)) && !v.ended
    ensures var u := ReportFailure(Logging(w), v.s, dir, err).(subdirs := v.subdirs);
            Read(before, dir, all, u.(ended := true), soFar + u.subdirs) && ReportsFailure(all)
  {
    BatchIsAll(before, dir, soFar, read, v, ReadFailed(err));
    all := ReportLog(w, v.s, before, dir, read, err);
  }

  /** After a batch: the next one, or the report of a failure, or nothing. */
  lemma AfterBatch<S(!new)>(w: World<S>, before: seq<Event>, dir: Path, soFar: seq<Path>, read: seq<Event>, v: Visited<Noted<S>>, end: ReadEnd,
                            k: nat, depth: nat, batches: nat)
    returns (all: seq<Event>)
    requires Bounded(w, depth, batches) && Bounded(Logging(w), depth, batches) && (end.More? ==> k < batches)
    requires BatchRead(before, dir, soFar, read, v, end)
    ensures var u := if v.ended then v else
                     match end
                     case EOF => v
                     case ReadFailed(err) => ReportFailure(Logging(w), v.s, dir, err).(subdirs := v.subdirs)
                     case More => Prepended(v.subdirs, StreamFrom(Logging(w), v.s, dir, k + 1, depth, batches));
            Read(before, dir, all, u.(ended := true), soFar + u.subdirs) && ReportsFailure(all)
    decreases batches - k, 0
  {
    all := read;
    BatchIsAll(before, dir, soFar, read, v, end);
    if !v.ended {
      match end {
        case EOF =>
        case ReadFailed(err) => all := FailedBatch(w, before, dir, soFar, read, v, err);
        case More =>
          var rest := StreamFrom(Logging(w), v.s, dir, k + 1, depth, batches);
          all := StreamLog(w, v.s, before, dir, read, k + 1, depth, batches);
          ReadFurther(before, dir, all, soFar, v.subdirs, rest.(ended := true));
      }
    }
  }

  /** A whole directory: tried, and read as far as it goes, or reported. */
  lemma DirectoryLog<S(!new)>(w: World<S>, n: Noted<S>, dir: Path, depth: nat, batches: nat) returns (seg: seq<Event>)
    requires Bounded(w, depth, batches) && Bounded(Logging(w), depth, batches)
    ensures var v := OpenAndStream(Logging(w), n, dir, depth, batches);
            Read(n.log, dir, seg, v.(ended := true), v.subdirs) && ReportsFailure(seg)
  {
    var (s, failed) := w.openDir(n.s, dir);
    var tried := n.Note(s, Opened(dir));
    seg := [Opened(dir)];
    assert QueuedBy(seg) == [] && FailuresIn(seg) == [] by { assert seg[..0] == []; }
    if failed.Some? {
      var e := Failed(failed.value);
      OneMoreEvent(dir, seg, e);
      assert tried.Note(s, e).log == n.log + (seg + [e]);
      seg := ReportLog(w, tried.Note(s, e), n.log, dir, seg + [e], failed.value);
    } else {
      seg := StreamLog(w, tried, n.log, dir, seg, 0, depth, batches);
    }
  }

  // ---- The whole walk ---------------------------------------------------------------------

  /** The log of some directories, one segment each. */
  function Joined(segs: seq<seq<Event>>): seq<Event> {
    if segs == [] then [] else Joined(segs[..|segs| - 1]) + segs[|segs| - 1]
  }

  predicate IsSegmentOf(dir: Path, seg: seq<Event>) { seg != [] && seg[0] == Opened(dir) }

  /** One directory's events, with its failure reported. */
  ghost predicate Whole(seg: seq<Event>)
    requires seg != [] && seg[0].Opened?
  {
    Segment(seg[0].dir, seg) && ReportsFailure(seg)
  }

  /** The same, folded. */
  ghost predicate IsWhole(seg: seq<Event>)
    requires seg != [] && seg[0].Opened?
  {
    forall k: nat {:trigger Asked(k)} :: Asked(k) ==> Whole(seg)
  }

  lemma ReadWhole(seg: seq<Event>)
    requires seg != [] && seg[0].Opened?
    ensures IsWhole(seg) <==> Whole(seg)
  {
    assert Asked(0);
  }

  /** Each segment is one directory's; only the last may end the walk; and every directory
      but the `roots` was queued by a segment before. */
  ghost predicate IsSegment(roots: seq<Path>, segs: seq<seq<Event>>, i: int) {
    && 0 <= i < |segs| && segs[i] != [] && segs[i][0].Opened? && IsWhole(segs[i])
    && (i < |segs| - 1 ==> !EndsWalk(Last(segs[i])))
    && (segs[i][0].dir in roots || QueuedBefore(segs, i, segs[i][0].dir))
  }

  ghost predicate AreSegments(roots: seq<Path>, segs: seq<seq<Event>>) { forall i :: 0 <= i < |segs| ==> IsSegment(roots, segs, i) }

  ghost predicate QueuedBefore(segs: seq<seq<Event>>, i: nat, dir: Path)
    requires i <= |segs|
  {
    exists j :: 0 <= j < i && dir in QueuedBy(segs[j])
  }

  ghost predicate OpenedAfter(segs: seq<seq<Event>>, i: nat, dir: Path) {
    exists j :: i <= j < |segs| && IsSegmentOf(dir, segs[j])
  }

  /** Nothing that was queued is left out. */
  ghost predicate NothingIsLeft(roots: seq<Path>, segs: seq<seq<Event>>) {
    && (forall k :: 0 <= k < |roots| ==> OpenedAfter(segs, 0, roots[k]))
    && (forall i, d :: 0 <= i < |segs| && d in QueuedBy(segs[i]) ==> OpenedAfter(segs, i + 1, d))
  }

  function Queued(segs: seq<seq<Event>>): nat {
    if segs == [] then 0 else Queued(segs[..|segs| - 1]) + |QueuedBy(segs[|segs| - 1])|
  }

  /** The same, folded. */
  ghost predicate Segments(roots: seq<Path>, segs: seq<seq<Event>>) { forall k: nat {:trigger Asked(k)} :: Asked(k) ==> AreSegments(roots, segs) }

  ghost predicate NothingLeft(roots: seq<Path>, segs: seq<seq<Event>>) { forall k: nat {:trigger Asked(k)} :: Asked(k) ==> NothingIsLeft(roots, segs) }

  lemma ReadSegments(roots: seq<Path>, segs: seq<seq<Event>>)
    ensures (Segments(roots, segs) <==> AreSegments(roots, segs)) && (NothingLeft(roots, segs) <==> NothingIsLeft(roots, segs))
  {
    assert Asked(0);
  }

  /** The segments are those of a walk; and if it was not cut short, all that was queued was
      walked, each once. */
  ghost predicate IsWalkOf(roots: seq<Path>, segs: seq<seq<Event>>, over: bool) {
    Segments(roots, segs) && (!over ==> NothingLeft(roots, segs) && |segs| == |roots| + Queued(segs))
  }

  function StopsAt(segs: seq<seq<Event>>): bool { segs != [] && segs[|segs| - 1] != [] && StopOf(Last(segs[|segs| - 1])) }

  function ErrAt(segs: seq<seq<Event>>): Option<Errno> {
    if segs != [] && segs[|segs| - 1] != [] then ErrOf(Last(segs[|segs| - 1])) else None
  }

  /** What walking some directories comes to: the end of the log says how it ended. */
  ghost predicate Walks<S>(before: seq<Event>, roots: seq<Path>, segs: seq<seq<Event>>, r: Walked<Noted<S>>) {
    && r.s.log == before + Joined(segs) && r.stop == StopsAt(segs) && r.err == ErrAt(segs) && IsWalkOf(roots, segs, r.Over())
  }

  lemma {:induction false} JoinedSplits(a: seq<seq<Event>>, b: seq<seq<Event>>)
    ensures Joined(a + b) == Joined(a) + Joined(b) && Queued(a + b) == Queued(a) + Queued(b)
    decreases |b|
  {
    if b == [] {
      assert a + b == a;
    } else {
      assert (a + b)[..|a + b| - 1] == a + b[..|b| - 1];
      JoinedSplits(a, b[..|b| - 1]);
    }
  }

  lemma OneSegment(seg: seq<Event>)
    ensures Joined([seg]) == seg && Queued([seg]) == |QueuedBy(seg)|
  {
    assert [seg][..0] == [];
  }

  /** Two runs of segments, the second for what the first has queued or for other roots. */
  lemma SegmentsJoin(roots: seq<Path>, a: seq<seq<Event>>, more: seq<Path>, b: seq<seq<Event>>, all: seq<Path>)
    requires Segments(roots, a) && Segments(more, b) && !StopsAt(a) && ErrAt(a) == None
    requires forall d :: d in roots ==> d in all
    requires forall d :: d in more ==> d in all || QueuedBefore(a, |a|, d)
    ensures Segments(all, a + b)
  {
    ReadSegments(roots, a);
    ReadSegments(more, b);
    ReadSegments(all, a + b);
    forall i | 0 <= i < |a + b|
      ensures IsSegment(all, a + b, i)
    {
      if i < |a| {
        assert IsSegment(roots, a, i);
        QueuedFurther(a, b, i, a[i][0].dir);
      } else {
        assert IsSegment(more, b, i - |a|);
        QueuedFurther(a, b, i - |a|, b[i - |a|][0].dir);
      }
    }
  }

  lemma QueuedFurther(a: seq<seq<Event>>, b: seq<seq<Event>>, i: nat, dir: Path)
    ensures i <= |a| && QueuedBefore(a, i, dir) ==> QueuedBefore(a + b, i, dir)
    ensures i <= |b| && (QueuedBefore(b, i, dir) || QueuedBefore(a, |a|, dir)) ==> QueuedBefore(a + b, |a| + i, dir)
  {
    if i <= |a| && QueuedBefore(a, i, dir) {
      var j :| 0 <= j < i && dir in QueuedBy(a[j]);
      assert dir in QueuedBy((a + b)[j]);
    }
    if i <= |b| && QueuedBefore(b, i, dir) {
      var j :| 0 <= j < i && dir in QueuedBy(b[j]);
      assert dir in QueuedBy((a + b)[|a| + j]);
    }
    if i <= |b| && QueuedBefore(a, |a|, dir) {
      var j :| 0 <= j < |a| && dir in QueuedBy(a[j]);
      assert dir in QueuedBy((a + b)[j]);
    }
  }

  lemma OpenedFurther(a: seq<seq<Event>>, b: seq<seq<Event>>, i: nat, dir: Path)
    ensures OpenedAfter(a, i, dir) ==> OpenedAfter(a + b, i, dir)
    ensures OpenedAfter(b, i, dir) ==> OpenedAfter(a + b, |a| + i, dir)
    ensures OpenedAfter(b, 0, dir) && i <= |a| ==> OpenedAfter(a + b, i, dir)
  {
    if OpenedAfter(a, i, dir) {
      var j :| i <= j < |a| && IsSegmentOf(dir, a[j]);
      assert IsSegmentOf(dir, (a + b)[j]);
    }
    if OpenedAfter(b, i, dir) {
      var j :| i <= j < |b| && IsSegmentOf(dir, b[j]);
      assert IsSegmentOf(dir, (a + b)[|a| + j]);
    }
    if OpenedAfter(b, 0, dir) {
      var j :| 0 <= j < |b| && IsSegmentOf(dir, b[j]);
      assert IsSegmentOf(dir, (a + b)[|a| + j]);
    }
  }

  /** The first directories, and then the others. */
  lemma ShapesJoin(first: seq<Path>, a: seq<seq<Event>>, rest: seq<Path>, b: seq<seq<Event>>, over: bool)
    requires IsWalkOf(first, a, false) && IsWalkOf(rest, b, over) && !StopsAt(a) && ErrAt(a) == None
    ensures IsWalkOf(first + rest, a + b, over)
  {
    SegmentsJoin(first, a, rest, b, first + rest);
    JoinedSplits(a, b);
    if !over {
      NothingLeftJoins(first, a, rest, b);
    }
  }

  lemma EachJoins<S>(before: seq<Event>, first: seq<Path>, a: seq<seq<Event>>, r: Walked<Noted<S>>, rest: seq<Path>, b: seq<seq<Event>>, r': Walked<Noted<S>>)
    requires Walks(before, first, a, r) && !r.Over() && Walks(r.s.log, rest, b, r')
    ensures Walks(before, first + rest, a + b, r')
  {
    JoinedSplits(a, b);
    assert before + Joined(a) + Joined(b) == before + (Joined(a) + Joined(b));
    ShapesJoin(first, a, rest, b, r'.Over());
    if b == [] { assert a + b == a; } else { assert (a + b)[|a + b| - 1] == b[|b| - 1]; }
  }

  lemma NothingLeftJoins(first: seq<Path>, a: seq<seq<Event>>, rest: seq<Path>, b: seq<seq<Event>>)
    requires NothingLeft(first, a) && NothingLeft(rest, b)
    ensures NothingLeft(first + rest, a + b)
  {
    ReadSegments(first, a);
    ReadSegments(rest, b);
    ReadSegments(first + rest, a + b);
    forall k | 0 <= k < |first + rest|
      ensures OpenedAfter(a + b, 0, (first + rest)[k])
    {
      OpenedFurther(a, b, 0, (first + rest)[k]);
    }
    forall i, d | 0 <= i < |a + b| && d in QueuedBy((a + b)[i])
      ensures OpenedAfter(a + b, i + 1, d)
    {
      OpenedFurther(a, b, if i < |a| then i + 1 else i + 1 - |a|, d);
    }
  }

  lemma OneIsASegment(dir: Path, seg: seq<Event>)
    requires Segment(dir, seg) && ReportsFailure(seg)
    ensures Segments([dir], [seg])
  {
    ReadWhole(seg);
    ReadSegments([dir], [seg]);
  }

  /** A directory, and then all that it queued. */
  lemma ShapeGrows(dir: Path, seg: seq<Event>, b: seq<seq<Event>>, over: bool)
    requires Segment(dir, seg) && ReportsFailure(seg) && !EndsWalk(Last(seg)) && IsWalkOf(QueuedBy(seg), b, over)
    ensures IsWalkOf([dir], [seg] + b, over)
  {
    OneSegment(seg);
    JoinedSplits([seg], b);
    OneIsASegment(dir, seg);
    assert [seg][0] == seg;
    SegmentsJoin([dir], [seg], QueuedBy(seg), b, [dir]);
    if !over {
      DirectoryLeavesNothing(dir, seg, b);
    }
  }

  lemma DirectoryJoins<S>(before: seq<Event>, dir: Path, seg: seq<Event>, v: Visited<Noted<S>>, b: seq<seq<Event>>, r: Walked<Noted<S>>, r': Walked<Noted<S>>)
    requires Read(before, dir, seg, v, v.subdirs) && ReportsFailure(seg) && v.err == None && !v.stop
    requires Walks(v.s.log, v.subdirs, b, r) && r'.s == r.s && r'.stop == r.stop && r'.err == r.err
    ensures Walks(before, [dir], [seg] + b, r')
  {
    JoinedSplits([seg], b);
    OneSegment(seg);
    assert before + seg + Joined(b) == before + (seg + Joined(b));
    ShapeGrows(dir, seg, b, r.Over());
    if b == [] { assert [seg] + b == [seg]; } else { assert ([seg] + b)[|b|] == b[|b| - 1]; }
  }

  lemma DirectoryLeavesNothing(dir: Path, seg: seq<Event>, b: seq<seq<Event>>)
    requires IsSegmentOf(dir, seg) && NothingLeft(QueuedBy(seg), b)
    ensures NothingLeft([dir], [seg] + b)
  {
    ReadSegments(QueuedBy(seg), b);
    ReadSegments([dir], [seg] + b);
    var all := [seg] + b;
    assert IsSegmentOf(dir, all[0]);
    forall i, d | 0 <= i < |all| && d in QueuedBy(all[i])
      ensures OpenedAfter(all, i + 1, d)
    {
      if i == 0 {
        var k :| 0 <= k < |QueuedBy(seg)| && QueuedBy(seg)[k] == d;
        OpenedFurther([seg], b, 0, d);
      } else {
        OpenedFurther([seg], b, i, d);
      }
    }
  }

  lemma DirectoryAlone<S>(before: seq<Event>, dir: Path, seg: seq<Event>, v: Visited<Noted<S>>, r: Walked<Noted<S>>)
    requires Read(before, dir, seg, v, v.subdirs) && ReportsFailure(seg) && (v.err.Some? || v.stop)
    requires r.s == v.s && r.stop == v.stop && r.err == v.err
    ensures Walks(before, [dir], [seg], r)
  {
    OneSegment(seg);
    OneIsASegment(dir, seg);
  }

  lemma {:induction false} WalkLog<S(!new)>(w: World<S>, n: Noted<S>, dir: Path, depth: nat, batches: nat) returns (segs: seq<seq<Event>>)
    requires Bounded(w, depth, batches) && Bounded(Logging(w), depth, batches) && |dir| <= depth
    ensures Walks(n.log, [dir], segs, WalkDir(Logging(w), n, dir, depth, batches))
    decreases depth - |dir|, 0, 0
  {
    var l := Logging(w);
    var v := OpenAndStream(l, n, dir, depth, batches);
    var seg := DirectoryLog(w, n, dir, depth, batches);
    if v.err.Some? || v.stop {
      DirectoryAlone(n.log, dir, seg, v.(ended := true), WalkDir(l, n, dir, depth, batches));
      segs := [seg];
    } else {
      var b := EachLog(w, v.s, v.subdirs, |dir| + 1, depth, batches);
      DirectoryJoins(n.log, dir, seg, v.(ended := true), b, WalkEach(l, v.s, v.subdirs, |dir| + 1, depth, batches), WalkDir(l, n, dir, depth, batches));
      segs := [seg] + b;
    }
  }

  lemma {:induction false} EachLog<S(!new)>(w: World<S>, n: Noted<S>, dirs: seq<Path>, level: nat, depth: nat, batches: nat) returns (segs: seq<seq<Event>>)
    requires Bounded(w, depth, batches) && Bounded(Logging(w), depth, batches) && AllAtLevel(dirs, level, depth)
    ensures Walks(n.log, dirs, segs, WalkEach(Logging(w), n, dirs, level, depth, batches))
    decreases depth - level, 1, |dirs|
  {
    var l := Logging(w);
    if dirs == [] {
      segs := [];
      ReadSegments([], []);
    } else {
      var first := WalkDir(l, n, dirs[0], depth, batches);
      segs := WalkLog(w, n, dirs[0], depth, batches);
      if first.Over() {
        CutShort(n.log, dirs, segs, first);
      } else {
        var b := EachLog(w, first.s, dirs[1..], level, depth, batches);
        EachJoins(n.log, [dirs[0]], segs, first, dirs[1..], b, WalkEach(l, first.s, dirs[1..], level, depth, batches));
        assert [dirs[0]] + dirs[1..] == dirs;
        segs := segs + b;
      }
    }
  }

  lemma CutShort<S>(before: seq<Event>, dirs: seq<Path>, segs: seq<seq<Event>>, r: Walked<Noted<S>>)
    requires dirs != [] && Walks(before, [dirs[0]], segs, r) && r.Over()
    ensures Walks(before, dirs, segs, r)
  {
    ReadSegments([dirs[0]], segs);
    ReadSegments(dirs, segs);
    forall i | 0 <= i < |segs|
      ensures IsSegment(dirs, segs, i)
    {
      assert IsSegment([dirs[0]], segs, i);
    }
  }

  // ---- From the root ------------------------------------------------------------------------

  /** How a whole walk begins: a done context, an uninspectable root or a root that is not to
      be entered is all there is to it; otherwise the root's call is followed by the segments
      of a walk of the root. */
  ghost predicate IsWholeWalk(log: seq<Event>, err: Option<Errno>, segs: seq<seq<Event>>) {
    && log != [] && err == ErrOf(Last(log))
    && match log[0]
       case Done(_) => |log| == 1
       case Failed(failure) => |log| == 2 && log[1].Called? && log[1].path == [] && log[1].entry == None && log[1].failed == Some(failure)
       case Called(path, entry, failed, answer) =>
         && path == [] && entry.Some? && entry.value.isDir && failed == None
         && (if answer == None
             then log == [log[0]] + Joined(segs) && segs != [] && IsWalkOf([[]], segs, StopsAt(segs) || ErrAt(segs).Some?)
             else |log| == 1)
       case Opened(_) => false
  }

  lemma WalkIsLogged<S(!new)>(w: World<S>, s: S, depth: nat, batches: nat) returns (segs: seq<seq<Event>>)
    requires Bounded(w, depth, batches)
    ensures Bounded(Logging(w), depth, batches)
    ensures var r := WalkTree(Logging(w), Noted(s, []), depth, batches); IsWholeWalk(r.s.log, r.err, segs)
  {
    LoggingIsBounded(w, depth, batches);
    segs := [];
    var (s1, cancelled) := w.ctxErr(s);
    if cancelled.None? {
      var (s2, failed) := w.statRoot(s1);
      var before := if failed.Some? then Noted(s2, [Failed(failed.value)]) else Noted(s2, []);
      var entry := if failed.Some? then None else Some(Entry(".", true));
      var (s3, answer) := w.fn(s2, [], entry, failed);
      var root := Called([], entry, failed, answer);
      assert before.Note(s3, root).log == before.log + [root];
      assert before.log == [] ==> before.log + [root] == [root];
      if failed.None? && answer == None {
        segs := WalkLog(w, Noted(s3, [root]), [], depth, batches);
        var r := WalkDir(Logging(w), Noted(s3, [root]), [], depth, batches);
        assert r.Over() <==> StopsAt(segs) || ErrAt(segs).Some?;
        WalkHasSegments(segs);
        assert Last([root] + Joined(segs)) == Last(Joined(segs));
        assert WalkTree(Logging(w), Noted(s, []), depth, batches) == r;
      }
    }
  }

  lemma WalkHasSegments(segs: seq<seq<Event>>)
    requires IsWalkOf([[]], segs, StopsAt(segs) || ErrAt(segs).Some?)
    ensures segs != [] && segs[|segs| - 1] != [] && Joined(segs) != [] && Last(segs[|segs| - 1]) == Last(Joined(segs))
  {
    ReadSegments([[]], segs);
    assert segs == [] ==> Queued(segs) == 0;
    assert IsSegment([[]], segs, |segs| - 1);
  }

  // ---- The log is the walk's own ----------------------------------------------------------

  /** Reading a directory with and without the log. */
  ghost predicate SameReading<S>(l: Visited<Noted<S>>, v: Visited<S>) {
    l.s.s == v.s && l.subdirs == v.subdirs && l.ended == v.ended && l.stop == v.stop && l.err == v.err
  }

  ghost predicate SameWalk<S>(l: Walked<Noted<S>>, r: Walked<S>) { l.s.s == r.s && l.stop == r.stop && l.err == r.err && l.opens == r.opens }

  lemma {:induction false} SameEntries<S(!new)>(w: World<S>, n: Noted<S>, dir: Path, entries: seq<Entry>)
    ensures SameReading(VisitEntries(Logging(w), n, dir, entries), VisitEntries(w, n.s, dir, entries))
    decreases |entries|
  {
    if entries != [] {
      var n' := Logging(w).fn(n, dir + [entries[0].name], Some(entries[0]), None).0;
      SameEntries(w, n', dir, entries[1..]);
    }
  }

  lemma {:induction false} SameStream<S(!new)>(w: World<S>, n: Noted<S>, dir: Path, k: nat, depth: nat, batches: nat)
    requires Bounded(w, depth, batches) && Bounded(Logging(w), depth, batches)
    ensures SameReading(StreamFrom(Logging(w), n, dir, k, depth, batches), StreamFrom(w, n.s, dir, k, depth, batches))
    decreases batches - k
  {
    var l := Logging(w);
    var (n1, cancelled) := l.ctxErr(n);
    if cancelled.None? {
      var (n2, batch) := l.readDir(n1, dir, k);
      SameEntries(w, n2, dir, SortEntries(batch.entries));
      if batch.end.More? {
        SameStream(w, VisitEntries(l, n2, dir, SortEntries(batch.entries)).s, dir, k + 1, depth, batches);
      }
    }
  }

  lemma SameDirectory<S(!new)>(w: World<S>, n: Noted<S>, dir: Path, depth: nat, batches: nat)
    requires Bounded(w, depth, batches) && Bounded(Logging(w), depth, batches)
    ensures SameReading(OpenAndStream(Logging(w), n, dir, depth, batches), OpenAndStream(w, n.s, dir, depth, batches))
  {
    var (n', failed) := Logging(w).openDir(n, dir);
    if failed.None? { SameStream(w, n', dir, 0, depth, batches); }
  }

  lemma {:induction false} SameDir<S(!new)>(w: World<S>, n: Noted<S>, dir: Path, depth: nat, batches: nat)
    requires Bounded(w, depth, batches) && Bounded(Logging(w), depth, batches) && |dir| <= depth
    ensures SameWalk(WalkDir(Logging(w), n, dir, depth, batches), WalkDir(w, n.s, dir, depth, batches))
    decreases depth - |dir|, 0, 0
  {
    SameDirectory(w, n, dir, depth, batches);
    var v := OpenAndStream(Logging(w), n, dir, depth, batches);
    if v.err.None? && !v.stop { SameEach(w, v.s, v.subdirs, |dir| + 1, depth, batches); }
  }

  lemma {:induction false} SameEach<S(!new)>(w: World<S>, n: Noted<S>, dirs: seq<Path>, level: nat, depth: nat, batches: nat)
    requires Bounded(w, depth, batches) && Bounded(Logging(w), depth, batches) && AllAtLevel(dirs, level, depth)
    ensures SameWalk(WalkEach(Logging(w), n, dirs, level, depth, batches), WalkEach(w, n.s, dirs, level, depth, batches))
    decreases depth - level, 1, |dirs|
  {
    if dirs != [] {
      SameDir(w, n, dirs[0], depth, batches);
      var first := WalkDir(Logging(w), n, dirs[0], depth, batches);
      if !first.Over() { SameEach(w, first.s, dirs[1..], level, depth, batches); }
    }
  }

  /** Keeping the log changes nothing of the walk. */
  lemma LogChangesNothing<S(!new)>(w: World<S>, s: S, depth: nat, batches: nat)
    requires Bounded(w, depth, batches)
    ensures Bounded(Logging(w), depth, batches)
    ensures var l, r := WalkTree(Logging(w), Noted(s, []), depth, batches), WalkTree(w, s, depth, batches); l.s.s == r.s && l.err == r.err
  {
    LoggingIsBounded(w, depth, batches);
    var l := Logging(w);
    var (n1, cancelled) := l.ctxErr(Noted(s, []));
    if cancelled.None? {
      var (n2, failed) := l.statRoot(n1);
      if failed.None? {
        var (n3, answer) := l.fn(n2, [], Some(Entry(".", true)), None);
        if answer.None? { SameDir(w, n3, [], depth, batches); }
      }
    }
  }
}
