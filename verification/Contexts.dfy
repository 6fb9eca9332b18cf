/** A caller's context. */
module Contexts {

  /** It may become done at any moment and then stays so; `done` is whether a look at it has
      found it done. */
  class Context {
    var done: bool
    ghost var looks: nat

    constructor ()
      ensures looks == 0 && !done
    {
      looks, done := 0, false;
    }

    method IsDone() returns (found: bool)
      modifies this
      ensures looks == old(looks) + 1 && found == done && (old(done) ==> found)
    {
      var now: bool := *;
      looks := looks + 1;
      done := done || now;
      return done;
    }
  }
}
