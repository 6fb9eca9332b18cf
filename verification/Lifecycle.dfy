/** The life of a pending file as a state machine: what any sequence of Commit and
    Cleanup calls can lead to, whatever the filesystem answers. */
module Lifecycle {
  import opened FileSystem
  import opened Engine

  datatype PendingState = Unfinished | Committed | Cleaned | CleanupFailed

  /** `closes` counts how often the root was closed, `renames` how often the temp was
      renamed onto the target; `answer` is what Commit cached. */
  datatype Life = Life(state: PendingState, ownRoot: bool, closes: nat, renames: nat, answer: Option<Outcome>)

  /** One call, with what the filesystem makes of it should it be attempted. */
  datatype Call = Commit(attempt: Outcome) | Cleanup(removed: bool)

  function Begin(ownRoot: bool): Life { Life(Unfinished, ownRoot, 0, 0, None) }

  function CloseOwnedRoot(l: Life): Life {
    if l.ownRoot then l.(ownRoot := false, closes := l.closes + 1) else l
  }

  function Step(l: Life, c: Call): Life {
    match (c, l.state)
    case (Commit(attempt), Unfinished) =>
      CloseOwnedRoot(l.(state := Committed, answer := Some(attempt), renames := l.renames + if attempt.Success? then 1 else 0))
    case (Cleanup(removed), Unfinished) => if removed then CloseOwnedRoot(l.(state := Cleaned)) else l.(state := CleanupFailed)
    case (Cleanup(removed), CleanupFailed) => if removed then CloseOwnedRoot(l.(state := Cleaned)) else l
    case _ => l
  }

  /** What Commit returns. */
  function Answer(l: Life, attempt: Outcome): Outcome {
    match l.state
    case Unfinished => attempt
    case Committed => l.answer.GetOr(Failure(Aborted))
    case _ => Failure(Aborted)
  }

  function Run(l: Life, calls: seq<Call>): Life
    decreases |calls|
  {
    if calls == [] then l else Run(Step(l, calls[0]), calls[1..])
  }

  predicate Terminal(state: PendingState) { state.Committed? || state.Cleaned? }

  /** What holds after any calls on a pending file that may own its root. */
  predicate Sane(l: Life, ownedAtFirst: bool) {
    && (l.state.Committed? <==> l.answer.Some?)
    && l.renames == (if l.answer.Some? && l.answer.value.Success? then 1 else 0)
    && l.closes == (if ownedAtFirst && Terminal(l.state) then 1 else 0)
    && (l.ownRoot <==> ownedAtFirst && !Terminal(l.state))
  }

  /** At most one rename, and exactly when Commit succeeded; an owned root is closed once,
      on reaching a terminal state, and a caller's root never. */
  lemma {:induction false} EveryLifeIsSane(l: Life, calls: seq<Call>, ownedAtFirst: bool)
    requires Sane(l, ownedAtFirst)
    ensures Sane(Run(l, calls), ownedAtFirst)
    decreases |calls|
  {
    if calls != [] {
      EveryLifeIsSane(Step(l, calls[0]), calls[1..], ownedAtFirst);
    }
  }

  lemma BeginningIsSane(ownRoot: bool, calls: seq<Call>)
    ensures Sane(Run(Begin(ownRoot), calls), ownRoot)
  {
    EveryLifeIsSane(Begin(ownRoot), calls, ownRoot);
  }

  /** Terminal states absorb: nothing about the life changes any more. */
  lemma {:induction false} TerminalStatesAbsorb(l: Life, calls: seq<Call>)
    requires Terminal(l.state)
    ensures Run(l, calls) == l
    decreases |calls|
  {
    if calls != [] {
      TerminalStatesAbsorb(Step(l, calls[0]), calls[1..]);
    }
  }

  /** The first answer of Commit is the answer of every later Commit. */
  lemma FirstAnswerIsReplayed(l: Life, first: Outcome, calls: seq<Call>, later: Outcome)
    requires l.state.Unfinished?
    ensures Answer(Run(Step(l, Commit(first)), calls), later) == Answer(l, first) == first
  {
  }

  /** Once Cleanup has begun, whether or not its removal worked, no rename ever happens
      and every Commit reports that the write was aborted. */
  lemma {:induction false} CleanupFirstMeansAborted(l: Life, calls: seq<Call>, attempt: Outcome)
    requires l.state.Cleaned? || l.state.CleanupFailed?
    ensures Run(l, calls).renames == l.renames && Answer(Run(l, calls), attempt) == Failure(Aborted)
    ensures Run(l, calls).state.Cleaned? || Run(l, calls).state.CleanupFailed?
    decreases |calls|
  {
    if calls != [] {
      CleanupFirstMeansAborted(Step(l, calls[0]), calls[1..], attempt);
    }
  }

  /** A failed removal is retried by the next Cleanup, until one works. */
  lemma {:induction false} CleanupRetries(l: Life, calls: seq<Call>)
    requires l.state.CleanupFailed?
    ensures Run(l, calls).state.Cleaned? <==> Cleanup(true) in calls
    decreases |calls|
  {
    if calls != [] {
      if Step(l, calls[0]).state.Cleaned? {
        TerminalStatesAbsorb(Step(l, calls[0]), calls[1..]);
        assert calls[0] == Cleanup(true);
      } else {
        CleanupRetries(Step(l, calls[0]), calls[1..]);
      }
    }
  }
}
