/** Reading a file that may grow meanwhile, up to a limit. */
module BoundedRead {
  import opened FileSystem
  import opened Int64
  import opened Contexts

  datatype ReadFailure = NilFile | TooLarge | Cancelled | ReadFailed

  /** What one read comes to: some bytes, the end of the file, or an error. */
  datatype Got = Bytes(data: seq<Byte>) | EOF | Broken

  /** What a reader at `offset` has still to get. */
  function Tail(data: seq<Byte>, offset: nat): seq<Byte> {
    if offset <= |data| then data[offset..] else []
  }

  /** An open file: its size always fits in an int64, and others may append to it.
      `troubles` counts the calls on it that failed, `calls` all of them. */
  class OpenFile {
    var data: seq<Byte>
    var offset: nat
    ghost var troubles: nat
    ghost var calls: nat

    ghost predicate Valid()
      reads this
    {
      |data| <= MAX_INT64
    }

    constructor (data: seq<Byte>, offset: nat)
      requires |data| <= MAX_INT64
      ensures Valid() && this.data == data && this.offset == offset && troubles == calls == 0
    {
      this.data, this.offset, troubles, calls := data, offset, 0, 0;
    }

    method Grow()
      requires Valid()
      modifies `data
      ensures Valid() && old(data) <= data
    {
      var more: seq<Byte> := *;
      if |data| + |more| <= MAX_INT64 {
        data := data + more;
      }
    }

    method Size() returns (failed: bool, size: int)
      requires Valid()
      modifies `data, `troubles, `calls
      ensures Valid() && old(data) <= data && size == |data| && calls == old(calls) + 1
      ensures troubles == old(troubles) + if failed then 1 else 0
    {
      Grow();
      failed := *;
      size := |data|;
      calls, troubles := calls + 1, troubles + if failed then 1 else 0;
    }

    /** read(2): at least one byte unless the offset is at the end. */
    method Read(want: nat) returns (got: Got)
      requires Valid() && want > 0
      modifies this
      ensures Valid() && old(data) <= data
      ensures got.Bytes? ==> 0 < |got.data| <= want && offset == old(offset) + |got.data| && got.data + Tail(data, offset) == Tail(data, old(offset))
      ensures got.EOF? ==> Tail(data, offset) == []
      ensures !got.Bytes? ==> offset == old(offset)
      ensures calls == old(calls) + 1 && troubles == old(troubles) + if got.Broken? then 1 else 0
    {
      Grow();
      calls := calls + 1;
      var broken: bool := *;
      if broken {
        troubles := troubles + 1;
        return Broken;
      }
      if offset >= |data| {
        return EOF;
      }
      var n: nat := *;
      if n < 1 || n > want || n > |data| - offset {
        n := 1;
      }
      got := Bytes(data[offset..offset + n]);
      offset := offset + n;
    }
  }

  /** A reader that stops after `left` bytes. */
  class LimitedReader {
    const file: OpenFile
    var left: int

    constructor (file: OpenFile, limit: int)
      ensures this.file == file && left == limit
    {
      this.file, left := file, limit;
    }

    method Read(want: nat) returns (got: Got)
      requires file.Valid() && want > 0
      modifies this, file
      ensures file.Valid() && old(file.data) <= file.data
      ensures got.Bytes? ==>
                && 0 < |got.data| <= old(left) && left == old(left) - |got.data| && file.offset == old(file.offset) + |got.data|
                && got.data + Tail(file.data, file.offset) == Tail(file.data, old(file.offset))
      ensures !got.Bytes? ==> left == old(left) && file.offset == old(file.offset)
      ensures got.EOF? ==> left <= 0 || Tail(file.data, file.offset) == []
      ensures file.troubles == old(file.troubles) + if got.Broken? then 1 else 0
    {
      if left <= 0 {
        return EOF;
      }
      got := file.Read(if want > left then left else want);
      if got.Bytes? {
        left := left - |got.data|;
      }
    }
  }

  lemma TailGrows(data: seq<Byte>, more: seq<Byte>, offset: nat)
    requires data <= more
    ensures Tail(data, offset) <= Tail(more, offset)
  {
  }

  /** Read until the reader says it is at the end. */
  method ReadAll(r: LimitedReader) returns (failed: bool, data: seq<Byte>)
    requires r.file.Valid()
    modifies r, r.file
    ensures r.file.Valid() && old(r.file.data) <= r.file.data
    ensures r.file.troubles == old(r.file.troubles) + if failed then 1 else 0
    ensures r.file.offset <= old(r.file.offset) + if old(r.left) < 0 then 0 else old(r.left)
    ensures !failed ==>
              && |data| <= (if old(r.left) < 0 then 0 else old(r.left)) && data <= Tail(r.file.data, old(r.file.offset))
              && r.file.offset == old(r.file.offset) + |data|
              && (|data| < old(r.left) ==> data == Tail(r.file.data, old(r.file.offset)))
  {
    data := [];
    while true
      invariant r.file.Valid() && old(r.file.data) <= r.file.data && r.file.troubles == old(r.file.troubles)
      invariant r.left == old(r.left) - |data| && (r.left >= 0 || data == [])
      invariant r.file.offset == old(r.file.offset) + |data| && data <= Tail(r.file.data, old(r.file.offset))
      decreases r.left
    {
      var want: nat :| want > 0;      // however much room the buffer has
      ghost var before := r.file.data;
      var got := r.Read(want);
      TailGrows(before, r.file.data, old(r.file.offset));
      match got {
        case Broken => return true, data;
        case EOF => return false, data;
        case Bytes(more) => data := data + more;
      }
    }
  }

  /** Without an error the result is every byte from the offset to the end of the file, and
      at most `maxBytes`; for a limit of the greatest int64 as for a negative one. A file
      found larger is too large, and each other failure has its own reason. The context is
      looked at before the file is, and once more before it is read; of the file at most one
      byte more than the limit is read. */
  method ReadBoundedFile(ctx: Context, f: OpenFile?, maxBytes: int) returns (failure: Option<ReadFailure>, data: seq<Byte>)
    requires IsInt64(maxBytes) && (f != null ==> f.Valid())
    modifies ctx, f
    ensures f != null ==> f.Valid() && old(f.data) <= f.data
    ensures failure == Some(Cancelled) <==> ctx.done
    ensures failure == Some(NilFile) <==> !ctx.done && f == null
    ensures failure == Some(ReadFailed) <==> f != null && f.troubles > old(f.troubles)
    ensures failure == Some(TooLarge) ==> f != null && |f.data| > maxBytes
    ensures f != null && |old(f.data)| > maxBytes && !ctx.done && f.troubles == old(f.troubles) ==> failure == Some(TooLarge)
    ensures failure == None ==> f != null && data == Tail(f.data, old(f.offset)) && |data| <= maxBytes && ctx.looks == old(ctx.looks) + 2
    ensures failure.Some? ==> data == []
    ensures f != null ==> f.offset <= old(f.offset) + if maxBytes < 0 then 0 else maxBytes + 1
    ensures old(ctx.looks) < ctx.looks <= old(ctx.looks) + 2
    ensures ctx.looks == old(ctx.looks) + 1 && ctx.done && f != null ==> f.calls == old(f.calls)
  {
    var cancelled := ctx.IsDone();
    if cancelled {
      return Some(Cancelled), [];
    }
    if f == null {
      return Some(NilFile), [];
    }
    var failed: bool, size: int;
    failed, size := f.Size();
    if failed {
      return Some(ReadFailed), [];
    }
    if size > maxBytes {
      return Some(TooLarge), [];
    }
    cancelled := ctx.IsDone();
    if cancelled {
      return Some(Cancelled), [];
    }
    SaturationClamps(maxBytes, 1);
    var r := new LimitedReader(f, SaturateAdd(maxBytes, 1));
    failed, data := ReadAll(r);
    if failed {
      return Some(ReadFailed), [];
    }
    if |data| > maxBytes {
      return Some(TooLarge), [];
    }
    return None, data;
  }
}
