/** The open temp file: a byte stream at an offset, and the ways data gets into it. */
module Staging {
  import opened FileSystem
  import opened Modes
  import opened Publishing
  import opened Hosts
  import opened Int64

  /** The handle of a staged temp. Its offset moves with stream writes and seeks only. */
  class StagedFile {
    const w: Host
    const me: Wid
    var offset: nat

    constructor (w: Host, me: Wid)
      ensures this.w == w && this.me == me && offset == 0
    {
      this.w, this.me, this.offset := w, me, 0;
    }

    /** Payload may go in: the handle is open and, under a demanded mode, owner-only. */
    ghost predicate Ready()
      reads this, w
    {
      w.Valid() && w.Open(me) && w.Private(me)
    }

    ghost function Bytes(): seq<Byte>
      requires w.Open(me)
      reads this, w
    {
      w.Data(me)
    }

    method Write(p: seq<Byte>) returns (n: nat, ok: bool)
      requires Ready()
      modifies this, w
      ensures Ready() && w.OnlyCalls(me) && w.s.writers[me] == old(w.s.writers[me])
      ensures n <= |p| && (ok ==> n == |p|) && offset == old(offset) + n
      ensures Bytes() == Overwrite(old(Bytes()), old(offset), p[..n]) && (n == 0 || offset <= MAX_INT64)
      ensures w.faults == old(w.faults) + if ok then [] else [WriteData]
      ensures !ok ==> w.troubles > old(w.troubles)
    {
      n, ok := w.Write(me, offset, p);
      offset := offset + n;
    }

    /** pwrite(2): the offset stays. */
    method WriteAt(p: seq<Byte>, at: nat) returns (n: nat, ok: bool)
      requires Ready()
      modifies w
      ensures Ready() && w.OnlyCalls(me) && w.s.writers[me] == old(w.s.writers[me])
      ensures n <= |p| && (ok ==> n == |p|) && Bytes() == Overwrite(old(Bytes()), at, p[..n])
      ensures w.faults == old(w.faults) + if ok then [] else [WriteData]
      ensures !ok ==> w.troubles > old(w.troubles)
    {
      n, ok := w.Write(me, at, p);
    }

    method Seek(to: nat)
      modifies this
      ensures offset == to
    {
      offset := to;
    }

    method Truncate(size: nat) returns (ok: bool)
      requires Ready()
      modifies w
      ensures Ready() && w.OnlyCalls(me) && w.s.writers[me] == old(w.s.writers[me])
      ensures Bytes() == if ok then Resize(old(Bytes()), size) else old(Bytes())
      ensures w.faults == old(w.faults) && (!ok ==> w.troubles > old(w.troubles))
    {
      ok := w.Ftruncate(me, size);
    }
  }

  /** The streaming writer's cap: a write that would cross it is refused whole. */
  class CapWriter {
    const file: StagedFile
    const limit: int
    var written: int

    constructor (file: StagedFile, limit: int)
      requires 0 <= limit <= MAX_INT64
      ensures this.file == file && this.limit == limit && written == 0
    {
      this.file, this.limit, this.written := file, limit, 0;
    }

    /** `written` is the size of the temp. */
    ghost predicate Accounted()
      reads this, file, file.w
    {
      file.Ready() && 0 <= limit <= MAX_INT64 && file.offset == |file.Bytes()| == written <= MAX_INT64
    }

    /** Accepted exactly when the sum stays within the limit, unless that sum wraps. */
    method Write(p: seq<Byte>) returns (n: nat, ok: bool, tooLarge: bool)
      requires Accounted() && |p| <= MAX_INT64
      modifies this, file, file.w
      ensures Accounted() && file.w.OnlyCalls(file.me) && file.w.s.writers[file.me] == old(file.w.s.writers[file.me])
      ensures n <= |p| && (ok ==> n == |p|) && file.Bytes() == old(file.Bytes()) + p[..n]
      ensures tooLarge <==> CrossesCap(|old(file.Bytes())|, |p|, limit)
      ensures tooLarge ==> n == 0 && !ok
      ensures !ok && !tooLarge ==> file.w.troubles > old(file.w.troubles)
      ensures file.w.faults == old(file.w.faults) + if ok || tooLarge then [] else [WriteData]
    {
      tooLarge := CrossesCap(written, |p|, limit);
      if tooLarge {
        return 0, false, true;
      }
      n, ok := file.Write(p);
      written := written + n;
    }
  }

  function Concat(chunks: seq<seq<Byte>>): seq<Byte> {
    if chunks == [] then [] else Concat(chunks[..|chunks| - 1]) + chunks[|chunks| - 1]
  }

  lemma {:induction false} ConcatPrefix(chunks: seq<seq<Byte>>, k: nat)
    requires k <= |chunks|
    ensures Concat(chunks[..k]) <= Concat(chunks)
    decreases |chunks|
  {
    if k < |chunks| {
      ConcatPrefix(chunks[..|chunks| - 1], k);
      assert chunks[..|chunks| - 1][..k] == chunks[..k];
    } else {
      assert chunks[..k] == chunks;
    }
  }

  /** The stream fits the arithmetic of the cap test. */
  predicate NeverWraps(limit: int, chunks: seq<seq<Byte>>) {
    forall k :: 0 <= k < |chunks| ==> limit + |chunks[k]| <= MAX_INT64
  }

  /** What may be done to a temp while it is being staged. */
  twostate predicate StagesOn(w: Host, me: Wid)
    reads w
  {
    w.SyncsNothing(me) && me in w.s.writers && me in old(w.s.writers)
    && w.s.writers[me] == old(w.s.writers[me])
  }

  /** One read of the source, and its chunk, through the cap when there is one. */
  method CopyChunk(file: StagedFile, capped: CapWriter, chunk: seq<Byte>, maxBytes: int) returns (ok: bool, ghost n: nat)
    requires capped.file == file && capped.Accounted() && |chunk| <= MAX_INT64 && (maxBytes > 0 ==> capped.limit == maxBytes)
    modifies file, file.w, capped
    ensures capped.Accounted() && StagesOn(file.w, file.me)
    ensures n <= |chunk| && (ok ==> n == |chunk|) && file.Bytes() == old(file.Bytes()) + chunk[..n]
    ensures maxBytes > 0 && maxBytes + |chunk| <= MAX_INT64 && |old(file.Bytes())| <= maxBytes ==> |file.Bytes()| <= maxBytes
    ensures file.w.faults == old(file.w.faults) + if ok then [] else [WriteData]
    ensures ok ==> file.w.looks == old(file.w.looks) + [Look(WhileStaging, false)]
    ensures !ok ==> file.w.troubles > old(file.w.troubles) || FoundDone(old(file.w.looks), file.w.looks)
                    || (maxBytes > 0 && |old(file.Bytes())| + |chunk| > maxBytes)
  {
    n := 0;
    var done := file.w.IsDone(file.me);
    if done {
      file.w.Note(WriteData);
      ok := false;
    } else if maxBytes > 0 {
      var stored, tooLarge;
      stored, ok, tooLarge := capped.Write(chunk);
      n := stored;
      if tooLarge {
        file.w.Note(WriteData);
      }
    } else {
      var stored;
      stored, ok := file.Write(chunk);
      capped.written := capped.written + stored;
      n := stored;
    }
  }

  /** The looks at the context that copying a whole source takes: one before each read, the
      one that finds its end included. */
  function LooksPerRead(n: nat): seq<Look> { NotDone(seq(n, _ => WhileStaging)) }

  lemma OneMoreRead(n: nat)
    ensures LooksPerRead(n + 1) == LooksPerRead(n) + [Look(WhileStaging, false)]
  {
  }

  /** Stream the source, which delivers `chunks` and then ends or fails, into a fresh
      temp. What is staged is always exactly the bytes accepted so far, in order; under
      a cap whose arithmetic does not wrap it never exceeds the limit, and a chunk that
      would cross it is refused whole. It fails if the source does, and otherwise only for
      a done context, a failed write or more bytes than the cap. */
  method CopyReader(file: StagedFile, chunks: seq<seq<Byte>>, sourceFails: bool, maxBytes: int) returns (ok: bool)
    requires file.Ready() && file.offset == 0 && file.Bytes() == [] && maxBytes <= MAX_INT64
    requires forall k :: 0 <= k < |chunks| ==> |chunks[k]| <= MAX_INT64
    modifies file, file.w
    ensures file.Ready() && StagesOn(file.w, file.me)
    ensures file.Bytes() <= Concat(chunks) && (ok ==> file.Bytes() == Concat(chunks) && !sourceFails)
    ensures maxBytes > 0 && NeverWraps(maxBytes, chunks) ==> |file.Bytes()| <= maxBytes
    ensures file.w.faults == old(file.w.faults) + if ok then [] else [WriteData]
    ensures ok ==> file.w.looks == old(file.w.looks) + LooksPerRead(|chunks| + 1)
    ensures !ok ==> sourceFails || file.w.troubles > old(file.w.troubles) || FoundDone(old(file.w.looks), file.w.looks)
                    || (maxBytes > 0 && |Concat(chunks)| > maxBytes)
  {
    ok := CopyChunks(file, chunks, maxBytes);
    if !ok {
      return;
    }
    OneMoreRead(|chunks|);
    var done := file.w.IsDone(file.me);
    ok := !sourceFails && !done;
    if !ok {
      file.w.Note(WriteData);
    }
  }

  /** The chunks of the source, one after another. */
  method CopyChunks(file: StagedFile, chunks: seq<seq<Byte>>, maxBytes: int) returns (ok: bool)
    requires file.Ready() && file.offset == 0 && file.Bytes() == [] && maxBytes <= MAX_INT64
    requires forall k :: 0 <= k < |chunks| ==> |chunks[k]| <= MAX_INT64
    modifies file, file.w
    ensures file.Ready() && StagesOn(file.w, file.me)
    ensures file.Bytes() <= Concat(chunks) && (ok ==> file.Bytes() == Concat(chunks))
    ensures maxBytes > 0 && NeverWraps(maxBytes, chunks) ==> |file.Bytes()| <= maxBytes
    ensures file.w.faults == old(file.w.faults) + if ok then [] else [WriteData]
    ensures ok ==> file.w.looks == old(file.w.looks) + LooksPerRead(|chunks|)
    ensures !ok ==> file.w.troubles > old(file.w.troubles) || FoundDone(old(file.w.looks), file.w.looks)
                    || (maxBytes > 0 && |Concat(chunks)| > maxBytes)
  {
    var capped := new CapWriter(file, if maxBytes > 0 then maxBytes else 0);
    var k := 0;
    while k < |chunks|
      invariant k <= |chunks| && capped.file == file && capped.Accounted() && StagesOn(file.w, file.me)
      invariant file.w.faults == old(file.w.faults) && file.w.looks == old(file.w.looks) + LooksPerRead(k)
      invariant file.Bytes() == Concat(chunks[..k]) && (maxBytes > 0 ==> capped.limit == maxBytes)
      invariant maxBytes > 0 && NeverWraps(maxBytes, chunks) ==> |file.Bytes()| <= maxBytes
      modifies file, file.w, capped
    {
      ConcatPrefix(chunks, k + 1);
      assert chunks[..k + 1][..k] == chunks[..k];
      OneMoreRead(k);
      ghost var n;
      ok, n := CopyChunk(file, capped, chunks[k], maxBytes);
      if !ok {
        return;
      }
      assert chunks[k][..n] == chunks[k];
      k := k + 1;
    }
    assert chunks[..k] == chunks;
    return true;
  }
}
