/** What the callback's answers do to a walk, read off its log event by event - for any tree
    that may change meanwhile, any failures and any callback. */
module WalkAnswers {
  import opened FileSystem
  import opened Walking
  import opened WalkLogs

  // ---- What is promised -----------------------------------------------------------------

  /** SkipAll is the last thing that happens, and no error; an error of the callback's or of
      the context is the last thing as well, and the result; nothing else is. */
  ghost predicate EndsAtOnce(log: seq<Event>, err: Option<Errno>) {
    && (forall k, e :: 0 <= k < |log| && log[k] == Done(e) ==> k == |log| - 1 && err == Some(e))
    && (forall k :: 0 <= k < |log| && log[k].Called? ==> match log[k].answer
                                                         case Some(SkipAll) => k == |log| - 1 && err == None
                                                         case Some(Broken(e)) => k == |log| - 1 && err == Some(e)
                                                         case _ => true)
    && log != [] && (err.Some? ==> Last(log) == Done(err.value) || (Last(log).Called? && Last(log).answer == Some(Broken(err.value))))
  }

  /** SkipDir, but for a directory's own entry, leaves the directory being read: the next
      thing is another directory, or nothing. */
  ghost predicate LeavesAtOnce(log: seq<Event>) {
    forall k :: 0 <= k < |log| && log[k].Called? && log[k].answer == Some(SkipDir) && !(log[k].entry.Some? && log[k].entry.value.isDir)
                ==> EndsReading(log, k)
  }

  /** The last thing in the directory being read. */
  predicate EndsReading(log: seq<Event>, k: int) { 0 <= k < |log| && (k == |log| - 1 || log[k + 1].Opened?) }

  /** The directory being read when the `k`th thing happens is the one opened as the `j`th. */
  ghost predicate ReadingAt(log: seq<Event>, j: int, k: int) {
    0 <= j <= k < |log| && log[j].Opened? && forall i {:trigger log[i]} :: j < i <= k ==> !log[i].Opened?
  }

  /** All calls but the root's first are made in a directory: for its entries, whatever they
      are, or for its own failure. */
  ghost predicate KeepsToItsDirectory(log: seq<Event>) {
    && (forall j, k :: ReadingAt(log, j, k) && j < k ==> IsFor(log[j].dir, log[k]))
    && (forall k :: 0 < k < |log| && !log[0].Failed? ==> IsRead(log, k))
  }

  ghost predicate IsRead(log: seq<Event>, k: int) { exists j :: ReadingAt(log, j, k) }

  /** A directory that could not be opened or read is reported, once: the report is made for
      its own path, with its own failure, and is the last thing in the directory - unless an
      answer or the context has ended the directory before. Nothing else is reported. */
  ghost predicate ReportsOnce(log: seq<Event>) {
    && (forall j, k :: ReadingAt(log, j, k) && log[k].Failed? ==> exists last :: ReportedAt(log, j, k, last))
    && (forall j, k :: ReadingAt(log, j, k) && log[k].Called? && log[k].entry == None ==> EndsReading(log, k) && FailedBefore(log, j, k))
    && (log != [] && log[0].Failed? ==> |log| == 2 && log[1].Called? && log[1].path == [] && log[1].failed == Some(log[0].failure))
  }

  ghost predicate ReportedAt(log: seq<Event>, j: int, k: int, last: int) {
    && j <= k < last && ReadingAt(log, j, last) && EndsReading(log, last) && log[k].Failed? && !GoesOnHere(log[last])
    && (forall i :: j <= i < last ==> GoesOnHere(log[i]))
    && (log[last].Called? && log[last].entry == None ==> log[last].path == log[j].dir && log[last].failed == Some(log[k].failure))
  }

  ghost predicate FailedBefore(log: seq<Event>, j: int, k: int)
    requires 0 <= j <= k < |log| && log[k].Called?
  {
    log[k].failed.Some? && exists i :: j < i < k && log[i] == Failed(log[k].failed.value)
  }

  /** A directory is opened only after a call for it was answered with nil; and unless the
      walk was ended, every directory so called for is opened, and nothing is opened twice
      for one call. */
  ghost predicate WalksWhatIsQueued(log: seq<Event>) {
    && (forall k :: 0 <= k < |log| && log[k].Opened? ==> exists i :: 0 <= i < k && Queues(log[i]) && log[i].path == log[k].dir)
    && (log != [] && !EndsWalk(Last(log)) ==>
          && (forall i :: 0 <= i < |log| && Queues(log[i]) ==> exists k :: i < k < |log| && log[k] == Opened(log[i].path))
          && Opens(log) == Queuings(log))
  }

  function Opens(log: seq<Event>): nat { if log == [] then 0 else Opens(log[..|log| - 1]) + if Last(log).Opened? then 1 else 0 }

  function Queuings(log: seq<Event>): nat { if log == [] then 0 else Queuings(log[..|log| - 1]) + if Queues(Last(log)) then 1 else 0 }

  // ---- Where the events of a segment are in the log --------------------------------------

  /** The root's call, and then the segments. */
  ghost predicate Laid(log: seq<Event>, segs: seq<seq<Event>>) {
    log != [] && log == [log[0]] + Joined(segs) && forall i :: 0 <= i < |segs| ==> segs[i] != [] && segs[i][0].Opened?
  }

  /** A walk that entered its root. */
  ghost predicate Entered(log: seq<Event>, segs: seq<seq<Event>>) {
    && segs != [] && Laid(log, segs) && Queues(log[0]) && log[0].path == [] && Segments([[]], segs)
    && (!EndsWalk(Last(log)) ==> NothingLeft([[]], segs) && |segs| == 1 + Queued(segs))
  }

  function Start(segs: seq<seq<Event>>, i: nat): (r: nat)
    requires i <= |segs|
    ensures r > 0
  {
    1 + |Joined(segs[..i])|
  }

  lemma Middle<T>(a: seq<T>, b: seq<T>, c: seq<T>)
    ensures (a + b + c)[|a|..|a| + |b|] == b
  {
  }

  lemma Placed(log: seq<Event>, segs: seq<seq<Event>>, i: nat)
    requires Laid(log, segs) && i < |segs|
    ensures Start(segs, i + 1) == Start(segs, i) + |segs[i]| <= |log| && log[Start(segs, i)..Start(segs, i + 1)] == segs[i]
    ensures i + 1 == |segs| ==> Start(segs, i + 1) == |log|
  {
    var before, upTo, rest := segs[..i], segs[..i + 1], segs[i + 1..];
    assert upTo[..i] == before;
    assert segs == upTo + rest;
    JoinedSplits(upTo, rest);
    assert [log[0]] + (Joined(before) + segs[i] + Joined(rest)) == [log[0]] + Joined(before) + segs[i] + Joined(rest);
    Middle([log[0]] + Joined(before), segs[i], Joined(rest));
    if i + 1 == |segs| { assert upTo == segs; }
  }

  lemma {:induction false} Find(segs: seq<seq<Event>>, k: nat) returns (i: nat)
    requires k < |Joined(segs)|
    ensures i < |segs| && Start(segs, i) <= 1 + k < Start(segs, i) + |segs[i]|
    decreases |segs|
  {
    var front := segs[..|segs| - 1];
    if k < |Joined(front)| {
      i := Find(front, k);
      assert front[..i] == segs[..i];
    } else {
      i := |segs| - 1;
    }
  }

  /** The `k`th event is in the `i`th segment, which begins at `j`. */
  ghost predicate In(log: seq<Event>, segs: seq<seq<Event>>, i: int, j: int, k: int) {
    && 0 <= i < |segs| && 0 < j == Start(segs, i) <= k < j + |segs[i]| <= |log| && log[j..j + |segs[i]|] == segs[i]
    && EndsReading(log, j + |segs[i]| - 1) && (j + |segs[i]| == |log| <==> i == |segs| - 1)
  }

  /** Every event but the root's is in a segment. */
  lemma Locate(log: seq<Event>, segs: seq<seq<Event>>, k: int) returns (i: nat, j: nat)
    requires Laid(log, segs) && 0 < k < |log|
    ensures In(log, segs, i, j, k)
  {
    i := Find(segs, k - 1);
    j := Start(segs, i);
    Placed(log, segs, i);
    if i + 1 < |segs| {
      Placed(log, segs, i + 1);
      var next := Start(segs, i + 1);
      assert log[next] == log[next..next + |segs[i + 1]|][0];
    }
  }

  lemma Events(log: seq<Event>, segs: seq<seq<Event>>, i: int, j: int, k: int)
    requires In(log, segs, i, j, k)
    ensures forall h {:trigger log[h]} :: j <= h < j + |segs[i]| ==> log[h] == segs[i][h - j]
  {
    var seg := log[j..j + |segs[i]|];
    assert forall h {:trigger log[h]} :: j <= h < j + |segs[i]| ==> log[h] == seg[h - j];
  }

  lemma SegmentIsFolded(log: seq<Event>, segs: seq<seq<Event>>, i: int)
    requires Entered(log, segs) && 0 <= i < |segs|
    ensures IsWhole(segs[i])
  {
    ReadSegments([[]], segs);
    assert IsSegment([[]], segs, i);
  }

  lemma SegmentIsWhole(log: seq<Event>, segs: seq<seq<Event>>, i: int)
    requires Entered(log, segs) && 0 <= i < |segs|
    ensures Whole(segs[i]) && (i < |segs| - 1 ==> !EndsWalk(Last(segs[i])))
  {
    ReadSegments([[]], segs);
    assert IsSegment([[]], segs, i);
    ReadWhole(segs[i]);
  }

  /** What happens before the end of its segment lets the reading go on. */
  lemma GoesOn(log: seq<Event>, segs: seq<seq<Event>>, k: int)
    requires Entered(log, segs) && 0 < k < |log| && !GoesOnHere(log[k])
    ensures EndsReading(log, k) && (k < |log| - 1 ==> !EndsWalk(log[k]))
  {
    var i, j := Locate(log, segs, k);
    SegmentIsWhole(log, segs, i);
    assert log[k] == log[j..j + |segs[i]|][k - j];
  }

  /** The segment an event is in is that of the directory being read. */
  lemma ReadingIn(log: seq<Event>, segs: seq<seq<Event>>, j: int, k: int) returns (i: nat)
    requires Entered(log, segs) && ReadingAt(log, j, k)
    ensures In(log, segs, i, j, k)
  {
    var at;
    i, at := Locate(log, segs, k);
    assert log[at] == log[at..at + |segs[i]|][0];
    SegmentIsWhole(log, segs, i);
    Events(log, segs, i, at, k);
  }

  lemma ReadingHere(log: seq<Event>, segs: seq<seq<Event>>, i: int, j: int, k: int)
    requires Entered(log, segs) && In(log, segs, i, j, k)
    ensures ReadingAt(log, j, k)
  {
    SegmentIsWhole(log, segs, i);
    Events(log, segs, i, j, k);
  }

  // ---- The promises kept -----------------------------------------------------------------

  lemma EntersRoot(log: seq<Event>, err: Option<Errno>, segs: seq<seq<Event>>)
    requires IsWholeWalk(log, err, segs) && |log| > 1 && !log[0].Failed?
    ensures Entered(log, segs)
  {
    WalkHasSegments(segs);
    ReadSegments([[]], segs);
    forall i | 0 <= i < |segs|
      ensures segs[i] != [] && segs[i][0].Opened?
    {
      assert IsSegment([[]], segs, i);
    }
    assert Last(log) == Last(Joined(segs));
  }

  lemma EndingIsLast(log: seq<Event>, err: Option<Errno>, segs: seq<seq<Event>>, k: int)
    requires IsWholeWalk(log, err, segs) && 0 <= k < |log| && EndsWalk(log[k])
    ensures k == |log| - 1
  {
    if k > 0 && !log[0].Failed? {
      EntersRoot(log, err, segs);
      GoesOn(log, segs, k);
    }
  }

  lemma AnswersEndTheWalk(log: seq<Event>, err: Option<Errno>, segs: seq<seq<Event>>)
    requires IsWholeWalk(log, err, segs)
    ensures EndsAtOnce(log, err)
  {
    forall k | 0 <= k < |log| && EndsWalk(log[k])
      ensures k == |log| - 1
    {
      EndingIsLast(log, err, segs, k);
    }
  }

  lemma SkipDirLeaves(log: seq<Event>, err: Option<Errno>, segs: seq<seq<Event>>)
    requires IsWholeWalk(log, err, segs)
    ensures LeavesAtOnce(log)
  {
    if |log| > 1 && !log[0].Failed? {
      EntersRoot(log, err, segs);
      forall k | 0 < k < |log| && !GoesOnHere(log[k])
        ensures EndsReading(log, k)
      {
        GoesOn(log, segs, k);
      }
    }
  }

  lemma CallsKeepToTheirDirectory(log: seq<Event>, err: Option<Errno>, segs: seq<seq<Event>>)
    requires IsWholeWalk(log, err, segs)
    ensures KeepsToItsDirectory(log)
  {
    if |log| > 1 && !log[0].Failed? {
      EntersRoot(log, err, segs);
      forall j, k | ReadingAt(log, j, k) && j < k
        ensures IsFor(log[j].dir, log[k])
      {
        var i := ReadingIn(log, segs, j, k);
        SegmentIsWhole(log, segs, i);
        Events(log, segs, i, j, k);
      }
      forall k | 0 < k < |log|
        ensures IsRead(log, k)
      {
        var i, j := Locate(log, segs, k);
        ReadingHere(log, segs, i, j, k);
      }
    }
  }

  lemma {:induction false} FailureIsListed(seg: seq<Event>, m: nat)
    requires m < |seg| && seg[m].Failed?
    ensures seg[m].failure in FailuresIn(seg)
    decreases |seg|
  {
    if m < |seg| - 1 {
      FailureIsListed(seg[..|seg| - 1], m);
    }
  }

  lemma {:induction false} FailureWasThere(seg: seq<Event>, e: Errno) returns (m: nat)
    requires e in FailuresIn(seg)
    ensures m < |seg| && seg[m] == Failed(e)
    decreases |seg|
  {
    if Last(seg) == Failed(e) {
      m := |seg| - 1;
    } else {
      m := FailureWasThere(seg[..|seg| - 1], e);
    }
  }

  /** What the failures of a directory and its reports have to do with each other. */
  lemma FailureIsReported(seg: seq<Event>, m: nat)
    requires seg != [] && seg[0].Opened? && Whole(seg) && m < |seg| && seg[m].Failed?
    ensures m < |seg| - 1 && !GoesOnHere(Last(seg)) && forall h :: 0 <= h < |seg| - 1 ==> GoesOnHere(seg[h])
    ensures Last(seg).Called? && Last(seg).entry == None ==> Last(seg).path == seg[0].dir && Last(seg).failed == Some(seg[m].failure)
  {
    FailureIsListed(seg, m);
    assert IsFor(seg[0].dir, Last(seg));
  }

  lemma ReportIsOfFailure(seg: seq<Event>, m: nat) returns (h: nat)
    requires seg != [] && seg[0].Opened? && Whole(seg) && m < |seg| && seg[m].Called? && seg[m].entry == None
    ensures m == |seg| - 1 && seg[m].failed.Some? && 0 < h < m && seg[h] == Failed(seg[m].failed.value)
  {
    assert IsFor(seg[0].dir, seg[m]);
    h := FailureWasThere(seg, seg[m].failed.value);
  }

  lemma FailureEndsReading(log: seq<Event>, segs: seq<seq<Event>>, j: int, k: int)
    requires Entered(log, segs) && ReadingAt(log, j, k) && log[k].Failed?
    ensures exists last :: ReportedAt(log, j, k, last)
  {
    var i := ReadingIn(log, segs, j, k);
    SegmentIsFolded(log, segs, i);
    Events(log, segs, i, j, k);
    ReadingHere(log, segs, i, j, j + |segs[i]| - 1);
    ReportIsLast(log, segs[i], j, k);
  }

  lemma ReportIsLast(log: seq<Event>, seg: seq<Event>, j: int, k: int)
    requires seg != [] && seg[0].Opened? && IsWhole(seg) && 0 <= j <= k < j + |seg| <= |log| && log[k].Failed?
    requires forall h {:trigger log[h]} :: j <= h < j + |seg| ==> log[h] == seg[h - j]
    requires EndsReading(log, j + |seg| - 1) && ReadingAt(log, j, j + |seg| - 1)
    ensures ReportedAt(log, j, k, j + |seg| - 1)
  {
    ReadWhole(seg);
    FailureIsReported(seg, k - j);
  }

  lemma ReportHasFailure(log: seq<Event>, segs: seq<seq<Event>>, j: int, k: int)
    requires Entered(log, segs) && ReadingAt(log, j, k) && log[k].Called? && log[k].entry == None
    ensures EndsReading(log, k) && FailedBefore(log, j, k)
  {
    var i := ReadingIn(log, segs, j, k);
    SegmentIsWhole(log, segs, i);
    Events(log, segs, i, j, k);
    var m := ReportIsOfFailure(segs[i], k - j);
    assert log[j + m] == Failed(log[k].failed.value);
  }

  lemma FailuresAreReported(log: seq<Event>, err: Option<Errno>, segs: seq<seq<Event>>)
    requires IsWholeWalk(log, err, segs)
    ensures ReportsOnce(log)
  {
    if |log| > 1 && !log[0].Failed? {
      EntersRoot(log, err, segs);
      forall j, k | ReadingAt(log, j, k)
        ensures log[k].Failed? ==> exists last :: ReportedAt(log, j, k, last)
        ensures log[k].Called? && log[k].entry == None ==> EndsReading(log, k) && FailedBefore(log, j, k)
      {
        if log[k].Failed? { FailureEndsReading(log, segs, j, k); }
        if log[k].Called? && log[k].entry == None { ReportHasFailure(log, segs, j, k); }
      }
    }
  }

  lemma {:induction false} QueuingIsListed(seg: seq<Event>, m: nat)
    requires m < |seg| && Queues(seg[m])
    ensures seg[m].path in QueuedBy(seg)
    decreases |seg|
  {
    if m < |seg| - 1 {
      QueuingIsListed(seg[..|seg| - 1], m);
    }
  }

  lemma {:induction false} QueuingWasThere(seg: seq<Event>, dir: Path) returns (m: nat)
    requires dir in QueuedBy(seg)
    ensures m < |seg| && Queues(seg[m]) && seg[m].path == dir
    decreases |seg|
  {
    if Queues(Last(seg)) && Last(seg).path == dir {
      m := |seg| - 1;
    } else {
      m := QueuingWasThere(seg[..|seg| - 1], dir);
    }
  }

  lemma QueuedEarlier(log: seq<Event>, segs: seq<seq<Event>>, a: nat, n: nat, dir: Path)
    requires Laid(log, segs) && a < n < |segs| && dir in QueuedBy(segs[a])
    ensures exists i :: 0 <= i < Start(segs, n) <= |log| && Queues(log[i]) && log[i].path == dir
  {
    var m := QueuingWasThere(segs[a], dir);
    Placed(log, segs, a);
    Placed(log, segs, n);
    assert log[Start(segs, a) + m] == log[Start(segs, a)..Start(segs, a + 1)][m];
    StartsGrow(log, segs, a, n);
  }

  /** A directory opened is the root, or one queued by an earlier segment. */
  lemma OpenedWasQueued(log: seq<Event>, segs: seq<seq<Event>>, k: int)
    requires Entered(log, segs) && 0 < k < |log| && log[k].Opened?
    ensures exists i :: 0 <= i < k && Queues(log[i]) && log[i].path == log[k].dir
  {
    var n := ReadingIn(log, segs, k, k);
    Events(log, segs, n, k, k);
    var dir := log[k].dir;
    ReadSegments([[]], segs);
    assert IsSegment([[]], segs, n);
    if QueuedBefore(segs, n, dir) {
      var a :| 0 <= a < n && dir in QueuedBy(segs[a]);
      QueuedEarlier(log, segs, a, n, dir);
    } else {
      assert Queues(log[0]) && log[0].path == dir;
    }
  }

  lemma {:induction false} StartsGrow(log: seq<Event>, segs: seq<seq<Event>>, a: nat, b: nat)
    requires Laid(log, segs) && a < b < |segs|
    ensures Start(segs, a) + |segs[a]| <= Start(segs, b)
    decreases b - a
  {
    Placed(log, segs, a);
    if a + 1 < b { StartsGrow(log, segs, a + 1, b); }
  }

  /** A directory queued is opened later, unless the walk was ended. */
  lemma QueuedIsOpened(log: seq<Event>, segs: seq<seq<Event>>, k: int)
    requires Entered(log, segs) && !EndsWalk(Last(log)) && 0 <= k < |log| && Queues(log[k])
    ensures exists i :: k < i < |log| && log[i] == Opened(log[k].path)
  {
    ReadSegments([[]], segs);
    var dir, from := log[k].path, 0;
    if k == 0 {
      assert dir == [[]][0];
    } else {
      var n, j := Locate(log, segs, k);
      assert log[k] == log[j..j + |segs[n]|][k - j];
      QueuingIsListed(segs[n], k - j);
      from := n + 1;
    }
    assert OpenedAfter(segs, from, dir);
    var i :| from <= i < |segs| && IsSegmentOf(dir, segs[i]);
    Placed(log, segs, i);
    assert log[Start(segs, i)] == log[Start(segs, i)..Start(segs, i + 1)][0];
    if k > 0 { StartsGrow(log, segs, from - 1, i); }
  }

  lemma {:induction false} CountsAdd(a: seq<Event>, b: seq<Event>)
    ensures Opens(a + b) == Opens(a) + Opens(b) && Queuings(a + b) == Queuings(a) + Queuings(b)
    decreases |b|
  {
    if b == [] {
      assert a + b == a;
    } else {
      assert (a + b)[..|a + b| - 1] == a + b[..|b| - 1];
      CountsAdd(a, b[..|b| - 1]);
    }
  }

  lemma OneEvent(e: Event)
    ensures Opens([e]) == (if e.Opened? then 1 else 0) && Queuings([e]) == if Queues(e) then 1 else 0
  {
    assert [e][..0] == [];
  }

  lemma {:induction false} SegmentCounts(seg: seq<Event>)
    requires seg != [] && seg[0].Opened? && forall k :: 0 < k < |seg| ==> !seg[k].Opened?
    ensures Opens(seg) == 1 && Queuings(seg) == |QueuedBy(seg)|
    decreases |seg|
  {
    if |seg| > 1 {
      SegmentCounts(seg[..|seg| - 1]);
    } else {
      assert seg[..0] == [];
    }
  }

  lemma {:induction false} SegmentsCount(log: seq<Event>, segs: seq<seq<Event>>, n: nat)
    requires Entered(log, segs) && n <= |segs|
    ensures Opens(Joined(segs[..n])) == n && Queuings(Joined(segs[..n])) == Queued(segs[..n])
  {
    if n > 0 {
      assert segs[..n][..n - 1] == segs[..n - 1];
      SegmentsCount(log, segs, n - 1);
      SegmentIsWhole(log, segs, n - 1);
      SegmentCounts(segs[n - 1]);
      CountsAdd(Joined(segs[..n - 1]), segs[n - 1]);
    }
  }

  lemma OncePerCall(log: seq<Event>, segs: seq<seq<Event>>)
    requires Entered(log, segs) && !EndsWalk(Last(log))
    ensures Opens(log) == Queuings(log)
  {
    assert segs[..|segs|] == segs;
    SegmentsCount(log, segs, |segs|);
    CountsAdd([log[0]], Joined(segs));
    OneEvent(log[0]);
  }

  lemma QueuedAreWalked(log: seq<Event>, err: Option<Errno>, segs: seq<seq<Event>>)
    requires IsWholeWalk(log, err, segs)
    ensures WalksWhatIsQueued(log)
  {
    if |log| > 1 && !log[0].Failed? {
      EntersRoot(log, err, segs);
      forall k | 0 <= k < |log| && log[k].Opened?
        ensures exists i :: 0 <= i < k && Queues(log[i]) && log[i].path == log[k].dir
      {
        OpenedWasQueued(log, segs, k);
      }
      if !EndsWalk(Last(log)) {
        forall k | 0 <= k < |log| && Queues(log[k])
          ensures exists i :: k < i < |log| && log[i] == Opened(log[k].path)
        {
          QueuedIsOpened(log, segs, k);
        }
        OncePerCall(log, segs);
      }
    } else if log != [] && !EndsWalk(Last(log)) {
      NothingIsQueued(log, err, segs);
    }
  }

  lemma NothingIsQueued(log: seq<Event>, err: Option<Errno>, segs: seq<seq<Event>>)
    requires IsWholeWalk(log, err, segs) && (|log| == 1 || log[0].Failed?)
    ensures (forall k :: 0 <= k < |log| ==> !Queues(log[k]) && !log[k].Opened?) && Opens(log) == Queuings(log)
  {
    if |log| == 1 && log[0].Called? && log[0].answer == None {
      WalkHasSegments(segs);
    }
    OneEvent(log[0]);
    if |log| == 2 {
      OneEvent(log[1]);
      CountsAdd([log[0]], [log[1]]);
      assert log == [log[0]] + [log[1]];
    } else {
      assert log == [log[0]];
    }
  }

  /** Whatever a callback answers, the walk does as it is told. */
  lemma WalksDoAsTold<S(!new)>(w: World<S>, s: S, depth: nat, batches: nat)
    requires Bounded(w, depth, batches)
    ensures Bounded(Logging(w), depth, batches)
    ensures var r := WalkTree(Logging(w), Noted(s, []), depth, batches);
            EndsAtOnce(r.s.log, r.err) && LeavesAtOnce(r.s.log) && KeepsToItsDirectory(r.s.log) && ReportsOnce(r.s.log) && WalksWhatIsQueued(r.s.log)
  {
    var segs := WalkIsLogged(w, s, depth, batches);
    var r := WalkTree(Logging(w), Noted(s, []), depth, batches);
    AnswersEndTheWalk(r.s.log, r.err, segs);
    SkipDirLeaves(r.s.log, r.err, segs);
    CallsKeepToTheirDirectory(r.s.log, r.err, segs);
    FailuresAreReported(r.s.log, r.err, segs);
    QueuedAreWalked(r.s.log, r.err, segs);
  }
}
