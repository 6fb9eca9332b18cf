/** The byte accounting of a pending file against the file it describes. */
module Accounting {
  /** `size` and `offset` are the staged file's, `written` what BytesWritten reports. */
  datatype Account = Account(size: nat, offset: nat, written: int)

  /** The calls of the stream model, with the number of bytes that landed. */
  datatype Op = Append(n: nat) | Resize(size: nat)

  const EMPTY: Account := Account(0, 0, 0)

  /** A stream write lands at the offset; a truncation moves only the end of the file. */
  function Step(a: Account, op: Op): Account {
    match op
    case Append(n) => Account(if n > 0 && a.size < a.offset + n then a.offset + n else a.size, a.offset + n, a.written + n)
    case Resize(size) => Account(size, a.offset, size)
  }

  function Run(a: Account, ops: seq<Op>): Account
    decreases |ops|
  {
    if ops == [] then a else Run(Step(a, ops[0]), ops[1..])
  }

  predicate OnlyAppends(ops: seq<Op>) { forall k :: 0 <= k < |ops| ==> ops[k].Append? }

  function Total(ops: seq<Op>): nat {
    if ops == [] then 0 else (if ops[0].Append? then ops[0].n else 0) + Total(ops[1..])
  }

  lemma {:induction false} AppendsAddUp(a: Account, ops: seq<Op>)
    requires OnlyAppends(ops)
    ensures Run(a, ops) == Step(a, Append(Total(ops)))
    decreases |ops|
  {
    if ops != [] {
      AppendsAddUp(Step(a, ops[0]), ops[1..]);
    }
  }

  lemma {:induction false} RunSplits(a: Account, first: seq<Op>, rest: seq<Op>)
    ensures Run(a, first + rest) == Run(Run(a, first), rest)
    decreases |first|
  {
    if first == [] {
      assert first + rest == rest;
    } else {
      assert (first + rest)[1..] == first[1..] + rest;
      RunSplits(Step(a, first[0]), first[1..], rest);
    }
  }

  /** Stream writes followed by truncations: the report is the staged size throughout. */
  lemma {:induction false} AppendsThenResizesAreExact(ops: seq<Op>, resizes: seq<Op>)
    requires OnlyAppends(ops) && forall k :: 0 <= k < |resizes| ==> resizes[k].Resize?
    ensures var a := Run(EMPTY, ops + resizes); a.written == a.size
    decreases |resizes|
  {
    RunSplits(EMPTY, ops, resizes);
    AppendsAddUp(EMPTY, ops);
    ResizesKeepExact(Run(EMPTY, ops), resizes);
  }

  lemma {:induction false} ResizesKeepExact(a: Account, resizes: seq<Op>)
    requires a.written == a.size && forall k :: 0 <= k < |resizes| ==> resizes[k].Resize?
    ensures Run(a, resizes).written == Run(a, resizes).size
    decreases |resizes|
  {
    if resizes != [] {
      ResizesKeepExact(Step(a, resizes[0]), resizes[1..]);
    }
  }

  /** In general, with any history before the last truncation, the report is the staged
      size if and only if nothing was streamed since, or the truncation left the end of
      the file at the offset - which a caller can check before writing. */
  lemma ReportIsExactIffOffsetAtEnd(history: seq<Op>, size: nat, appends: seq<Op>)
    requires OnlyAppends(appends)
    ensures var end := Run(EMPTY, history + [Resize(size)] + appends);
            end.written == end.size <==> Total(appends) == 0 || Run(EMPTY, history).offset == size
  {
    RunSplits(EMPTY, history + [Resize(size)], appends);
    RunSplits(EMPTY, history, [Resize(size)]);
    var before := Run(EMPTY, history);
    assert Run(before, [Resize(size)]) == Step(before, Resize(size)) by {
      assert [Resize(size)][1..] == [];
    }
    AppendsAddUp(Step(before, Resize(size)), appends);
  }

  /** Ten bytes streamed, truncated to none, one more streamed: the file holds eleven bytes,
      ten of them a hole, and the report is one. */
  lemma TruncateThenWriteMiscounts()
    ensures Run(EMPTY, [Append(10), Resize(0), Append(1)]) == Account(11, 11, 1)
  {
  }
}
