/** Calls of something that may fail, depending on all it has seen so far: a visitor, or a look at a
    context that may have been cancelled. */
module Visitors {
  /** It has not failed yet ... */
  ghost predicate Passed<T(!new)>(seen: seq<T>, fails: seq<T> -> bool) {
    forall n :: 0 < n <= |seen| ==> !fails(seen[..n])
  }

  /** ... or it failed on the last call. */
  ghost predicate Stopped<T(!new)>(seen: seq<T>, fails: seq<T> -> bool) {
    seen != [] && fails(seen) && Passed(seen[..|seen| - 1], fails)
  }

  /** Of all the calls there were to make, it saw every one, or those up to the first that failed. */
  ghost predicate Visits<T(!new)>(all: seq<T>, seen: seq<T>, fails: seq<T> -> bool) {
    (seen == all && Passed(seen, fails)) || (seen <= all && Stopped(seen, fails))
  }

  lemma {:induction false} NothingSeen<T(!new)>(fails: seq<T> -> bool)
    ensures Passed([], fails)
  {
  }

  lemma {:induction false} PassedNext<T(!new)>(seen: seq<T>, x: T, fails: seq<T> -> bool)
    requires Passed(seen, fails)
    ensures if fails(seen + [x]) then Stopped(seen + [x], fails) else Passed(seen + [x], fails)
  {
    var next := seen + [x];
    assert next[..|seen|] == seen && next[..|next|] == next;
    forall n | 0 < n <= |seen| ensures next[..n] == seen[..n] {
    }
  }

  lemma {:induction false} PassedNotStopped<T(!new)>(seen: seq<T>, fails: seq<T> -> bool)
    ensures !(Passed(seen, fails) && Stopped(seen, fails))
  {
    assert seen[..|seen|] == seen;
  }

  /** What stopped before more calls were to be made has stopped all the same. */
  lemma {:induction false} StoppedEarly<T(!new)>(all: seq<T>, seen: seq<T>, more: seq<T>, fails: seq<T> -> bool)
    requires Visits(all, seen, fails) && !Passed(seen, fails)
    ensures Visits(all + more, seen, fails)
  {
  }
}
