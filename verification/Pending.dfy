/** A temp file the caller writes at leisure and then commits or cleans up. */
module Pending {
  import opened FileSystem
  import opened Modes
  import opened Publishing
  import opened Interference
  import opened Hosts
  import opened Int64
  import opened Staging
  import opened Directories
  import opened Syncs
  import opened Engine
  import opened Levels
  import opened Lifecycle
  import Accounting

  /** `bytes` have been streamed since the file held `data` and the account was `account`:
      they were counted exactly, as long as the count fits in an int64. */
  ghost predicate Streamed(data: seq<Byte>, account: Accounting.Account, bytes: seq<Byte>, now: seq<Byte>, nowAccount: Accounting.Account) {
    && now == Overwrite(data, account.offset, bytes)
    && nowAccount == Accounting.Step(account, Accounting.Append(|bytes|)).(written := Wrap(account.written + |bytes|))
  }

  /** The same, folded: the copy loop only passes it on. */
  ghost predicate Landed(data: seq<Byte>, account: Accounting.Account, bytes: seq<Byte>, now: seq<Byte>, nowAccount: Accounting.Account) {
    forall k: nat {:trigger Asked(k)} :: Asked(k) ==> Streamed(data, account, bytes, now, nowAccount)
  }

  lemma ReadLanded(data: seq<Byte>, account: Accounting.Account, bytes: seq<Byte>, now: seq<Byte>, nowAccount: Accounting.Account)
    ensures Landed(data, account, bytes, now, nowAccount) <==> Streamed(data, account, bytes, now, nowAccount)
  {
    assert Asked(0);
  }

  lemma BytesLand(data: seq<Byte>, account: Accounting.Account, bytes: seq<Byte>, now: seq<Byte>, written: int)
    requires account.size == |data| && IsInt64(account.written) && |bytes| <= MAX_INT64
    requires now == Overwrite(data, account.offset, bytes) && written == Add(account.written, |bytes|)
    ensures Streamed(data, account, bytes, now, Accounting.Account(|now|, account.offset + |bytes|, written))
  {
  }

  lemma NothingLanded(data: seq<Byte>, account: Accounting.Account)
    requires IsInt64(account.written)
    ensures Landed(data, account, [], data, account)
  {
  }

  lemma StreamGrows(data: seq<Byte>, account: Accounting.Account, bytes: seq<Byte>, mid: seq<Byte>, midAccount: Accounting.Account,
                    chunk: seq<Byte>, now: seq<Byte>, nowAccount: Accounting.Account)
    requires Streamed(data, account, bytes, mid, midAccount) && Streamed(mid, midAccount, chunk, now, nowAccount)
    ensures Streamed(data, account, bytes + chunk, now, nowAccount)
  {
    assert now == Overwrite(data, account.offset, bytes + chunk) by { OverwritesCompose(data, account.offset, bytes, chunk); }
    WrapsOnce(account.written + |bytes|, |chunk|);
  }

  /** The first chunks and a part of the next are a prefix of the stream. */
  lemma PartOfStream(chunks: seq<seq<Byte>>, k: nat, m: nat)
    requires k < |chunks| && m <= |chunks[k]|
    ensures Concat(chunks[..k]) + chunks[k][..m] <= Concat(chunks)
    ensures m == |chunks[k]| ==> Concat(chunks[..k]) + chunks[k][..m] == Concat(chunks[..k + 1])
  {
    ConcatPrefix(chunks, k + 1);
    assert chunks[..k + 1][..k] == chunks[..k];
    assert Concat(chunks[..k]) + chunks[k][..m] <= Concat(chunks[..k]) + chunks[k];
  }

  lemma CountSoFar(data: seq<Byte>, account: Accounting.Account, bytes: seq<Byte>, now: seq<Byte>, nowAccount: Accounting.Account)
    requires Landed(data, account, bytes, now, nowAccount)
    ensures nowAccount.written == Wrap(account.written + |bytes|)
  {
    ReadLanded(data, account, bytes, now, nowAccount);
  }

  lemma LandedFurther(data: seq<Byte>, account: Accounting.Account, bytes: seq<Byte>, mid: seq<Byte>, midAccount: Accounting.Account,
                      chunk: seq<Byte>, now: seq<Byte>, nowAccount: Accounting.Account)
    requires Landed(data, account, bytes, mid, midAccount) && Streamed(mid, midAccount, chunk, now, nowAccount)
    ensures Landed(data, account, bytes + chunk, now, nowAccount)
  {
    ReadLanded(data, account, bytes, mid, midAccount);
    StreamGrows(data, account, bytes, mid, midAccount, chunk, now, nowAccount);
    ReadLanded(data, account, bytes + chunk, now, nowAccount);
  }

  class PendingFile {
    const w: Host
    const me: Wid
    const file: StagedFile
    const cfg: Config
    const name: Path            // final name, relative to the root
    const dirSyncFailed: bool
    ghost const made: set<Slot>     // the directories made on the way to the temp,
    ghost const opening: seq<Step>  // the syncs of those that failed,
    ghost const start: State        // and where, after which calls, that began
    ghost const first: seq<Act>
    var state: PendingState
    var answer: Option<Outcome> // what Commit cached
    var written: int            // bytes staged, as the stream methods count them
    var ownRoot: bool           // the root was opened for this file and is still to be closed
    ghost var closes: nat       // how often it was closed

    ghost predicate Valid()
      reads this, file, w
    {
      && w.Valid() && file.w == w && file.me == me && IsInt64(written)
      && name != [] && PlainName(name) && cfg.maxBytes <= MAX_INT64
      && OnlySyncFaults(opening) && (dirSyncFailed <==> opening != [])
      && w.Passed(first, start) && IsDir(start.fs, w.root) && MadeStand()
      && (state.Committed? <==> answer.Some?)
      && (answer == Some(Success(true)) || answer == Some(Success(false)) <==> WriterOf(w.s, me).Published?)
      && match state
         case Unfinished => Staged()
         case Committed => WriterOf(w.s, me).Published? || Abandoned(WriterOf(w.s, me))
         case Cleaned => WriterOf(w.s, me).Gone?
         case CleanupFailed => Held(w.s, me) && w.s.writers[me].Dropped?
    }

    /** Without a failed sync every directory made on the way is there for good. */
    ghost predicate MadeStand()
      reads this, w
    {
      forall sl :: sl in made ==> NonFileLink(w.s.fs, sl) && (!dirSyncFailed ==> Settled(w.s.fs, sl))
    }

    /** The temp is open beside the target, and the way to that is clear. */
    ghost predicate Staged()
      requires name != []
      reads this, file, w
    {
      && file.w == w && file.me == me && file.Ready() && w.StagesIn(me, ParentOf(name), cfg.mode)
      && Prepared(w.s, w.root, w.hops, start, me, name, made, dirSyncFailed)
      && LevelsSynced(start.fs, SyncedBy(first, me), w.Synced(me), w.root, ParentOf(name), w.hops, made, !dirSyncFailed)
    }

    ghost function Life(): Life
      reads this, w
    {
      Lifecycle.Life(state, ownRoot, closes, if WriterOf(w.s, me).Published? then 1 else 0, answer)
    }

    ghost function Account(): Accounting.Account
      requires w.Open(me)
      reads this, file, w
    {
      Accounting.Account(|w.Data(me)|, file.offset, written)
    }

    /** Assembled from a temp the preamble has just staged. */
    constructor (w: Host, me: Wid, name: Path, cfg: Config, dirSyncFailed: bool, ownRoot: bool,
                 ghost made: set<Slot>, ghost opening: seq<Step>, ghost start: State, ghost first: seq<Act>)
      requires w.Valid() && name != [] && PlainName(name) && cfg.maxBytes <= MAX_INT64
      requires w.StagesIn(me, ParentOf(name), cfg.mode) && w.Data(me) == [] && w.Private(me)
      requires OnlySyncFaults(opening) && (dirSyncFailed <==> opening != []) && w.Passed(first, start) && IsDir(start.fs, w.root)
      requires Prepared(w.s, w.root, w.hops, start, me, name, made, dirSyncFailed)
      requires LevelsSynced(start.fs, SyncedBy(first, me), w.Synced(me), w.root, ParentOf(name), w.hops, made, !dirSyncFailed)
      ensures Valid() && this.w == w && this.me == me && this.name == name && this.cfg == cfg && fresh(file)
      ensures this.dirSyncFailed == dirSyncFailed && this.made == made && this.opening == opening && this.start == start && this.first == first
      ensures Life() == Begin(ownRoot) && Account() == Accounting.EMPTY
    {
      this.w, this.me, this.name, this.cfg, this.dirSyncFailed, this.ownRoot := w, me, name, cfg, dirSyncFailed, ownRoot;
      this.made, this.opening, this.start, this.first := made, opening, start, first;
      state, answer, written, closes := Unfinished, None, 0, 0;
      file := new StagedFile(w, me);
    }

    /** What the preamble promised outlasts whatever others do. */
    lemma StillStaged(prior: seq<Act>, before: State)
      requires file.Ready() && file.w == w && file.me == me && name != [] && w.Passed(prior, before) && IsDir(before.fs, w.root)
      requires Prepared(before, w.root, w.hops, start, me, name, made, dirSyncFailed) && w.s.writers[me].temp.want == cfg.mode
      requires Resolve(before.fs, w.root, ParentOf(name), w.hops).ino == w.s.writers[me].temp.slot.dir
      requires LevelsSynced(start.fs, SyncedBy(first, me), w.Synced(me), w.root, ParentOf(name), w.hops, made, !dirSyncFailed)
      ensures Staged() && MadeStand()
    {
      StaysPrepared(w, prior, before, start, me, name, made, dirSyncFailed);
    }

    lemma StillMade(prior: seq<Act>, before: State)
      requires w.Valid() && w.Passed(prior, before)
      requires forall sl :: sl in made ==> NonFileLink(before.fs, sl) && (!dirSyncFailed ==> Settled(before.fs, sl))
      ensures MadeStand()
    {
      MadeStay(w, prior, before, made, dirSyncFailed);
    }

    // ---- Writing ------------------------------------------------------------

    predicate CrossesLimit(n: nat)
      requires n <= MAX_INT64 && IsInt64(written)
      reads this
    {
      cfg.maxBytes > 0 && CrossesCap(written, n, cfg.maxBytes)
    }

    /** The count, had `n` more bytes been accepted, would be over the limit. */
    predicate OverLimit(count: int, n: nat) { cfg.maxBytes > 0 && Wrap(count + n) > cfg.maxBytes }

    /** Accepted bytes land at the offset and advance the count; a write that would cross
        the cap is refused whole. Once committed or cleaned the handle is closed. */
    method Write(b: seq<Byte>) returns (n: nat, ok: bool, tooLarge: bool)
      requires Valid() && |b| <= MAX_INT64
      modifies this`written, file, w
      ensures Valid() && Life() == old(Life()) && tooLarge == OverLimit(old(written), |b|) && n <= |b| && (ok ==> n == |b|)
      ensures w.OnlyCalls(me) && (!ok && !tooLarge && state.Unfinished? ==> w.troubles > old(w.troubles))
      ensures tooLarge || !state.Unfinished? ==> n == 0 && !ok && w.s == old(w.s) && written == old(written)
      ensures state.Unfinished? ==>
                Streamed(old(file.Bytes()), old(Account()), b[..n], file.Bytes(), Account())
    {
      tooLarge := CrossesLimit(|b|);
      if tooLarge || !state.Unfinished? {
        return 0, false, tooLarge;
      }
      ghost var prior, before, data, account := w.acts, w.s, file.Bytes(), Account();
      n, ok := file.Write(b);
      written := Add(written, n);
      BytesLand(data, account, b[..n], file.Bytes(), written);
      StillStaged(prior, before);
    }

    /** Resize the temp and resynchronise the count - but not the offset. */
    method Truncate(size: int) returns (ok: bool, tooLarge: bool)
      requires Valid() && IsInt64(size)
      modifies this`written, file, w
      ensures Valid() && Life() == old(Life()) && tooLarge == (cfg.maxBytes > 0 && size > cfg.maxBytes)
      ensures ok ==> !tooLarge && 0 <= size && state.Unfinished? && file.Bytes() == Resize(old(file.Bytes()), size)
                     && Account() == Accounting.Step(old(Account()), Accounting.Resize(size))
      ensures !ok && state.Unfinished? ==> file.Bytes() == old(file.Bytes()) && Account() == old(Account())
      ensures !state.Unfinished? ==> w.s == old(w.s) && written == old(written)
      ensures w.OnlyCalls(me) && (!ok && !tooLarge && 0 <= size && state.Unfinished? ==> w.troubles > old(w.troubles))
    {
      tooLarge := cfg.maxBytes > 0 && size > cfg.maxBytes;
      if tooLarge || size < 0 || !state.Unfinished? {
        return false, tooLarge;
      }
      ghost var prior, before := w.acts, w.s;
      ok := file.Truncate(size);
      if ok {
        written := size;
      }
      StillStaged(prior, before);
    }

    /** The embedded file's own WriteAt and Seek step outside the stream: they are not
        counted, and Commit catches what they make of the file's size. */
    method WriteAt(b: seq<Byte>, at: nat) returns (n: nat, ok: bool)
      requires Valid() && state.Unfinished?
      modifies w
      ensures Valid() && Life() == old(Life()) && n <= |b| && (ok ==> n == |b|)
      ensures file.Bytes() == Overwrite(old(file.Bytes()), at, b[..n])
      ensures w.OnlyCalls(me) && (!ok ==> w.troubles > old(w.troubles))
    {
      ghost var prior, before := w.acts, w.s;
      n, ok := file.WriteAt(b, at);
      StillStaged(prior, before);
    }

    method Seek(to: nat)
      requires Valid() && state.Unfinished?
      modifies file
      ensures Valid() && Life() == old(Life()) && file.Bytes() == old(file.Bytes()) && file.offset == to
    {
      file.Seek(to);
    }

    /** One chunk, after `bytes`. */
    method StreamChunk(chunk: seq<Byte>, ghost bytes: seq<Byte>, ghost data: seq<Byte>, ghost account: Accounting.Account)
      returns (n: nat, ok: bool)
      requires Valid() && state.Unfinished? && |chunk| <= MAX_INT64 && Landed(data, account, bytes, file.Bytes(), Account())
      modifies this`written, file, w
      ensures Valid() && Life() == old(Life()) && n <= |chunk| && (ok ==> n == |chunk|)
      ensures Landed(data, account, bytes + chunk[..n], file.Bytes(), Account())
      ensures w.OnlyCalls(me) && (!ok ==> w.troubles > old(w.troubles) || OverLimit(old(written), |chunk|))
    {
      ghost var mid, midAccount := file.Bytes(), Account();
      var tooLarge;
      n, ok, tooLarge := Write(chunk);
      LandedFurther(data, account, bytes, mid, midAccount, chunk[..n], file.Bytes(), Account());
    }

    /** Stream the source through Write, chunk by chunk; without a cap the file's own copy
        loop does it and the total is recorded at the end. */
    method ReadFrom(chunks: seq<seq<Byte>>, sourceFails: bool) returns (n: nat, ok: bool)
      requires Valid() && forall k :: 0 <= k < |chunks| ==> |chunks[k]| <= MAX_INT64
      modifies this`written, file, w
      ensures Valid() && Life() == old(Life()) && n <= |Concat(chunks)| && (ok ==> n == |Concat(chunks)|)
      ensures state.Unfinished? ==> Streamed(old(file.Bytes()), old(Account()), Concat(chunks)[..n], file.Bytes(), Account())
      ensures !state.Unfinished? ==> n == 0 && w.s == old(w.s) && written == old(written)
      ensures w.OnlyCalls(me) && (sourceFails ==> !ok)
      ensures !ok && state.Unfinished? ==> sourceFails || w.troubles > old(w.troubles) || CrossesWithin(old(written), |Concat(chunks)|)
    {
      n := 0;
      if !state.Unfinished? {
        return n, chunks == [] && !sourceFails;
      }
      ghost var data, account, bytes := file.Bytes(), Account(), [];
      n, ok, bytes := StreamAll(chunks);
      ok := ok && !sourceFails;
      assert Concat(chunks)[..n] == bytes;
      ReadLanded(data, account, bytes, file.Bytes(), Account());
    }

    /** Somewhere within so many more bytes the count is over the limit. */
    ghost predicate CrossesWithin(count: int, total: nat) { exists n: nat :: n <= total && OverLimit(count, n) }

    lemma CrossesHere(data: seq<Byte>, account: Accounting.Account, bytes: seq<Byte>, now: seq<Byte>, nowAccount: Accounting.Account, n: nat, total: nat)
      requires Landed(data, account, bytes, now, nowAccount) && |bytes| + n <= total
      ensures OverLimit(nowAccount.written, n) ==> CrossesWithin(account.written, total)
    {
      CountSoFar(data, account, bytes, now, nowAccount);
      WrapsOnce(account.written + |bytes|, n);
      assert OverLimit(nowAccount.written, n) == OverLimit(account.written, |bytes| + n);
    }

    /** `bytes` is what was accepted. */
    method StreamAll(chunks: seq<seq<Byte>>) returns (n: nat, ok: bool, ghost bytes: seq<Byte>)
      requires Valid() && state.Unfinished? && forall k :: 0 <= k < |chunks| ==> |chunks[k]| <= MAX_INT64
      modifies this`written, file, w
      ensures Valid() && Life() == old(Life()) && n == |bytes| && bytes <= Concat(chunks) && (ok ==> bytes == Concat(chunks))
      ensures Landed(old(file.Bytes()), old(Account()), bytes, file.Bytes(), Account())
      ensures w.OnlyCalls(me) && (!ok ==> w.troubles > old(w.troubles) || CrossesWithin(old(written), |Concat(chunks)|))
    {
      ghost var data, account := file.Bytes(), Account();
      NothingLanded(data, account);
      n, bytes := 0, [];
      for k := 0 to |chunks|
        invariant Valid() && Life() == old(Life()) && n == |bytes| && bytes == Concat(chunks[..k])
        invariant Landed(data, account, bytes, file.Bytes(), Account())
        invariant w.OnlyCalls(me)
      {
        PartOfStream(chunks, k, |chunks[k]|);
        CrossesHere(data, account, bytes, file.Bytes(), Account(), |chunks[k]|, |Concat(chunks)|);
        var landed;
        landed, ok := StreamChunk(chunks[k], bytes, data, account);
        PartOfStream(chunks, k, landed);
        n, bytes := n + landed, bytes + chunks[k][..landed];
        if !ok {
          return n, false, bytes;
        }
      }
      assert chunks[..|chunks|] == chunks;
      return n, true, bytes;
    }

    // ---- Ending -------------------------------------------------------------

    method CloseOwnedRoot()
      modifies this`ownRoot, this`closes
      ensures !ownRoot && closes == old(closes) + if old(ownRoot) then 1 else 0
    {
      if !ownRoot {
        return;
      }
      ownRoot := false;
      closes := closes + 1;
    }

    /** The barrier, then the rename; on a failure before the rename the temp goes. */
    method TryCommit() returns (r: Outcome, ghost p: Publication, ghost since: seq<Step>)
      requires name != [] && PlainName(name) && cfg.maxBytes <= MAX_INT64 && Staged() && MadeStand()
      requires OnlySyncFaults(opening) && (dirSyncFailed <==> opening != []) && w.Passed(first, start) && IsDir(start.fs, w.root)
      modifies file, w
      ensures w.Valid() && w.GoesOn() && MadeStand() && (r.Success? <==> WriterOf(w.s, me).Published?)
      ensures r.Success? ==> Delivered(w.s, w.root, w.hops, start, me, name, old(file.Bytes()), cfg, r.durable, p, made, opening + since)
      ensures r.Success? ==> WriteSynced(start.fs, SyncedBy(first, me), w.Synced(me), w.root, ParentOf(name), w.hops, made, p.slot.dir, r.durable)
      ensures r.Failure? ==> Undone(w.s, me, old(file.Bytes()), cfg, r.error, since) && !IsRefusal(r.error)
      ensures w.faults == old(w.faults) + since && Blames(if r.Failure? then Some(r.error) else None, since)
      ensures r.Failure? ==> Warranted(w, old(w.troubles), old(w.taken), old(w.looks), name, cfg, false, r.error)
      ensures r.Success? ==> w.looks == old(w.looks) + LAST_LOOKS
    {
      ghost var troubles, taken, looks := w.troubles, w.taken, w.looks;
      ghost var temp, content, run, before := w.s.writers[me].temp, file.Bytes(), w.acts, w.s;
      p := Publication(me, Slot(w.root, ""), w.root, [], None);
      var failure;
      failure, since := FinalizeWarranted(w, me, cfg, name, troubles, taken, looks, false);
      StaysPrepared(w, run, before, start, me, name, made, dirSyncFailed);
      if failure.Some? {
        AbandonedNeverPublished(w, me);
        r := Failure(failure.value);
      } else {
        r, p, since := CommitWarranted(w, me, name, cfg, dirSyncFailed, temp, content, first, start, made, opening, troubles, taken, looks, false);
      }
    }

    /** Idempotent: only the first call on an unfinished file does anything, and its answer
        is every later call's answer. After Cleanup it reports the abort. */
    method Commit() returns (r: Outcome, ghost p: Publication, ghost since: seq<Step>)
      requires Valid()
      modifies this, file, w
      ensures Valid() && r == Answer(old(Life()), r) && Life() == Lifecycle.Step(old(Life()), Lifecycle.Commit(r))
      ensures !old(state).Unfinished? ==> w.s == old(w.s) && written == old(written) && since == []
      ensures old(state).Unfinished? && r.Success? ==>
                Delivered(w.s, w.root, w.hops, start, me, name, old(file.Bytes()), cfg, r.durable, p, made, opening + since)
      ensures old(state).Unfinished? && r.Success? ==>
                WriteSynced(start.fs, SyncedBy(first, me), w.Synced(me), w.root, ParentOf(name), w.hops, made, p.slot.dir, r.durable)
      ensures old(state).Unfinished? && r.Failure? ==> Undone(w.s, me, old(file.Bytes()), cfg, r.error, since) && !IsRefusal(r.error)
      ensures w.faults == old(w.faults) + since
      ensures old(state).Unfinished? ==> Blames(if r.Failure? then Some(r.error) else None, since)
      ensures old(state).Unfinished? && r.Failure? ==> Warranted(w, old(w.troubles), old(w.taken), old(w.looks), name, cfg, false, r.error)
      ensures old(state).Unfinished? && r.Success? ==> w.looks == old(w.looks) + LAST_LOOKS
    {
      p, since := Publication(me, Slot(w.root, ""), w.root, [], None), [];
      match state {
        case Committed => return answer.value, p, since;
        case Cleaned => return Failure(Aborted), p, since;
        case CleanupFailed => return Failure(Aborted), p, since;
        case Unfinished =>
      }
      state := Committed;
      r, p, since := TryCommit();
      answer := Some(r);
      CloseOwnedRoot();
    }

    /** Close and remove the temp. A removal that fails leaves the file to a later Cleanup;
        after Commit there is nothing to do. */
    method Cleanup() returns (ok: bool)
      requires Valid()
      modifies this, w
      ensures Valid() && Life() == Lifecycle.Step(old(Life()), Lifecycle.Cleanup(ok))
      ensures Terminal(old(state)) ==> ok && w.s == old(w.s)
      ensures !Terminal(old(state)) ==> (ok <==> state.Cleaned?) && NeverPublished(w.s.log, me)
      ensures state.Cleaned? && !Terminal(old(state)) ==> WriterOf(w.s, me).Gone?
      ensures !ok ==> w.troubles > old(w.troubles)
    {
      ghost var run, before := w.acts, w.s;
      match state {
        case Committed => return true;
        case Cleaned => return true;
        case CleanupFailed =>
        case Unfinished => var _ := w.CloseHandle(me, false);
      }
      ok := w.Remove(me);
      StillMade(run, before);
      AbandonedNeverPublished(w, me);
      if !ok {
        state := CleanupFailed;
        return;
      }
      state := Cleaned;
      CloseOwnedRoot();
    }
  }

  /** Stage a temp for `name` and wrap it; a refusal leaves nothing staged. */
  method NewPendingFileInRoot(w: Host, me: Wid, name: Path, cfg: Config, ownRoot: bool)
    returns (failure: Option<WriteFailure>, f: PendingFile?, ghost since: seq<Step>)
    requires w.Valid() && WriterOf(w.s, me).Idle? && PlainName(name) && cfg.maxBytes <= MAX_INT64
    modifies w
    ensures w.Valid() && (failure.None? <==> f != null) && w.faults == old(w.faults) + since
    ensures f != null ==> fresh(f) && fresh(f.file) && f.w == w && f.me == me && f.name == name && f.cfg == cfg && f.Valid()
    ensures f != null ==> f.Life() == Begin(ownRoot) && f.Account() == Accounting.EMPTY && f.opening == since && f.start == old(w.s) && f.first == old(w.acts)
    ensures failure.Some? ==> Undone(w.s, me, [], cfg, failure.value, since) && Blames(failure, since)
    ensures failure.Some? ==> RefusedFor(failure.value, w.s, w.root, w.hops, name)
    ensures failure.Some? ==> Warranted(w, old(w.troubles), old(w.taken), old(w.looks), name, cfg, false, failure.value)
    ensures !NamesAnEntry(name) ==> failure == Some(UnsafePath)
    ensures w.looks == old(w.looks) + FirstLook(name, me, old(w.s), failure)
  {
    f := null;
    ghost var start, first := w.s, w.acts;
    var dirSyncFailed;
    ghost var made;
    failure, dirSyncFailed, made, since := OpenTempForRoot(w, me, name, cfg);
    if failure.Some? {
      AbandonedNeverPublished(w, me);
      return;
    }
    f := new PendingFile(w, me, name, cfg, dirSyncFailed, ownRoot, made, since, start, first);
  }
}
