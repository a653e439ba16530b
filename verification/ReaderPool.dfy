/** The pool of readers behind a dataset (dataset.go): acquire, borrow, release and Close as the steps
    of any number of goroutines, in every interleaving. */
module ReaderPool {
  import opened Options

  type Reader = nat

  /** Where a goroutine stands. */
  datatype Thread =
    | Idle
    | Polling                // in acquire, before the check of the hot lane
    | Selecting              // in acquire, waiting for a reader or the end
    | Taken(r: Reader)       // has received a reader, not yet through borrow
    | Using(r: Reader)       // has borrowed it
    | Releasing(r: Reader)   // in release, before the check of the hot lane
    | Fallback(r: Reader)    // the hot lane was full: must send to the pool
    | Returned               // has sent the reader, not yet deregistered

  /** Where Close stands. */
  datatype Closer = Open | Waiting | Draining | Finished

  /** The hot lane holds one reader, the pool's channel n - 1. */
  datatype State = State(n: nat, hot: Option<Reader>, pool: seq<Reader>, inFlight: int,
                         threads: seq<Thread>, closer: Closer, shut: multiset<Reader>)

  /** The closed flag and the done channel are set together, under the lock. */
  predicate Closed(s: State) {
    s.closer != Open
  }

  // ----- The steps -----

  datatype Action =
    | Start(t: nat)
    | PollHot(t: nat)
    | SelectHot(t: nat)
    | SelectPool(t: nat)
    | SelectDone(t: nat)
    | Cancel(t: nat)
    | Borrow(t: nat)
    | Finish(t: nat)
    | ReturnHot(t: nat)
    | ReturnPool(t: nat)
    | Deregister(t: nat)
    | CloseBegin
    | CloseWaited
    | DrainHot
    | DrainPool
    | DrainEnd

  predicate ByThread(a: Action) {
    !(a.CloseBegin? || a.CloseWaited? || a.DrainHot? || a.DrainPool? || a.DrainEnd?)
  }

  predicate Enabled(s: State, a: Action) {
    (ByThread(a) ==> a.t < |s.threads|) &&
    match a
    case Start(t) => s.threads[t].Idle?
    case PollHot(t) => s.threads[t].Polling?
    case SelectHot(t) => s.threads[t].Selecting? && s.hot.Some?
    case SelectPool(t) => s.threads[t].Selecting? && s.pool != []
    case SelectDone(t) => s.threads[t].Selecting? && Closed(s)
    case Cancel(t) => s.threads[t].Selecting?
    case Borrow(t) => s.threads[t].Taken?
    case Finish(t) => s.threads[t].Using?
    case ReturnHot(t) => s.threads[t].Releasing?
    case ReturnPool(t) => s.threads[t].Fallback? && |s.pool| < s.n - 1
    case Deregister(t) => s.threads[t].Returned?
    case CloseBegin => s.closer.Open?
    case CloseWaited => s.closer.Waiting? && s.inFlight == 0
    case DrainHot => s.closer.Draining? && s.hot.Some?
    case DrainPool => s.closer.Draining? && s.pool != []
    case DrainEnd => s.closer.Draining? && s.hot.None? && s.pool == []
  }

  function Set(s: State, t: nat, x: Thread): State
    requires t < |s.threads|
  {
    s.(threads := s.threads[t := x])
  }

  function Do(s: State, a: Action): State
    requires Enabled(s, a)
  {
    match a
    case Start(t) => Set(s, t, Polling)
    case PollHot(t) =>
      if s.hot.Some? then Set(s, t, Taken(s.hot.value)).(hot := None) else Set(s, t, Selecting)
    case SelectHot(t) => Set(s, t, Taken(s.hot.value)).(hot := None)
    case SelectPool(t) => Set(s, t, Taken(s.pool[0])).(pool := s.pool[1..])
    case SelectDone(t) => Set(s, t, Idle)
    case Cancel(t) => Set(s, t, Idle)
    case Borrow(t) =>
      var r := s.threads[t].r;
      if Closed(s) then Set(s, t, Idle).(shut := s.shut + multiset{r})
      else Set(s, t, Using(r)).(inFlight := s.inFlight + 1)
    case Finish(t) => Set(s, t, Releasing(s.threads[t].r))
    case ReturnHot(t) =>
      var r := s.threads[t].r;
      if s.hot.None? then Set(s, t, Returned).(hot := Some(r)) else Set(s, t, Fallback(r))
    case ReturnPool(t) => Set(s, t, Returned).(pool := s.pool + [s.threads[t].r])
    case Deregister(t) => Set(s, t, Idle).(inFlight := s.inFlight - 1)
    case CloseBegin => s.(closer := Waiting)
    case CloseWaited => s.(closer := Draining)
    case DrainHot => s.(hot := None, shut := s.shut + multiset{s.hot.value})
    case DrainPool => s.(pool := s.pool[1..], shut := s.shut + multiset{s.pool[0]})
    case DrainEnd => s.(closer := Finished)
  }

  // ----- Where the readers are -----

  /** Each of the readers below n, once. */
  function Readers(n: nat): multiset<Reader> {
    if n == 0 then multiset{} else Readers(n - 1) + multiset{n - 1}
  }

  function Range(lo: nat, n: nat): seq<Reader>
    requires lo <= n
  {
    seq(n - lo, i requires 0 <= i < n - lo => lo + i)
  }

  function HeldBy(x: Thread): multiset<Reader> {
    if x.Taken? || x.Using? || x.Releasing? || x.Fallback? then multiset{x.r} else multiset{}
  }

  function Held(ts: seq<Thread>): multiset<Reader> {
    if ts == [] then multiset{} else HeldBy(ts[0]) + Held(ts[1..])
  }

  function InHot(s: State): multiset<Reader> {
    if s.hot.Some? then multiset{s.hot.value} else multiset{}
  }

  /** Whether a goroutine holds reader r. */
  predicate Holds(x: Thread, r: Reader) {
    (x.Taken? || x.Using? || x.Releasing? || x.Fallback?) && x.r == r
  }

  function CountHolding(ts: seq<Thread>, r: Reader): nat {
    if ts == [] then 0 else (if Holds(ts[0], r) then 1 else 0) + CountHolding(ts[1..], r)
  }

  /** In how many places reader r is: hot lane, pool, goroutines, closed. */
  function Places(s: State, r: Reader): nat {
    (if s.hot == Some(r) then 1 else 0) + multiset(s.pool)[r] + CountHolding(s.threads, r) + s.shut[r]
  }

  predicate Registered(x: Thread) {
    x.Using? || x.Releasing? || x.Fallback? || x.Returned?
  }

  function CountRegistered(ts: seq<Thread>): nat {
    if ts == [] then 0 else (if Registered(ts[0]) then 1 else 0) + CountRegistered(ts[1..])
  }

  function CountFallback(ts: seq<Thread>): nat {
    if ts == [] then 0 else (if ts[0].Fallback? then 1 else 0) + CountFallback(ts[1..])
  }

  lemma {:induction false} UpdateHolding(ts: seq<Thread>, t: nat, x: Thread, r: Reader)
    requires t < |ts|
    ensures CountHolding(ts[t := x], r)
            == CountHolding(ts, r) + (if Holds(x, r) then 1 else 0) - (if Holds(ts[t], r) then 1 else 0)
  {
    hide Holds;
    var us := ts[t := x];
    if t == 0 {
      assert us[1..] == ts[1..];
    } else {
      assert us[1..] == ts[1..][t - 1 := x];
      UpdateHolding(ts[1..], t - 1, x, r);
    }
  }

  lemma {:induction false} UpdateCounts(ts: seq<Thread>, t: nat, x: Thread)
    requires t < |ts|
    ensures CountRegistered(ts[t := x])
            == CountRegistered(ts) + (if Registered(x) then 1 else 0) - (if Registered(ts[t]) then 1 else 0)
    ensures CountFallback(ts[t := x])
            == CountFallback(ts) + (if x.Fallback? then 1 else 0) - (if ts[t].Fallback? then 1 else 0)
  {
    hide Registered;
    var us := ts[t := x];
    if t == 0 {
      assert us[1..] == ts[1..];
    } else {
      assert us[1..] == ts[1..][t - 1 := x];
      UpdateCounts(ts[1..], t - 1, x);
    }
  }

  lemma {:induction false} HoldingAt(ts: seq<Thread>, t: nat, r: Reader)
    requires t < |ts| && Holds(ts[t], r)
    ensures CountHolding(ts, r) > 0
  {
    if t > 0 {
      HoldingAt(ts[1..], t - 1, r);
    }
  }

  lemma {:induction false} CountedAt(ts: seq<Thread>, t: nat)
    requires t < |ts|
    ensures Registered(ts[t]) ==> CountRegistered(ts) > 0
    ensures ts[t].Fallback? ==> CountFallback(ts) > 0
  {
    if t > 0 {
      CountedAt(ts[1..], t - 1);
    }
  }

  // ----- The invariant -----

  /** Every reader is in exactly one place. */
  ghost predicate EachInOnePlace(s: State) {
    forall r: Reader :: Places(s, r) == if r < s.n then 1 else 0
  }

  /** The wait group counts the registered goroutines, and the pool has room for those on their way
      to it. */
  ghost predicate Counted(s: State) {
    && s.inFlight == CountRegistered(s.threads)
    && |s.pool| + CountFallback(s.threads) <= s.n - 1
  }

  /** Nothing is closed before Close, nobody is registered once it drains, nothing is left when it
      returns. */
  ghost predicate ClosedInOrder(s: State) {
    && (s.closer.Open? ==> s.shut == multiset{})
    && (s.closer.Draining? || s.closer.Finished? ==> s.inFlight == 0)
    && (s.closer.Finished? ==> s.hot.None? && s.pool == [])
  }

  ghost predicate Inv(s: State) {
    s.n > 0 && EachInOnePlace(s) && Counted(s) && ClosedInOrder(s)
  }

  /** What Open leaves behind: the first reader in the hot lane, the others in the pool. */
  ghost predicate Init(s: State) {
    && s.n > 0 && s.hot == Some(0) && s.pool == Range(1, s.n)
    && s.inFlight == 0 && s.closer.Open? && s.shut == multiset{}
    && forall t :: 0 <= t < |s.threads| ==> s.threads[t].Idle?
  }

  lemma {:induction false} RangeCount(lo: nat, n: nat, r: Reader)
    requires lo <= n
    ensures multiset(Range(lo, n))[r] == if lo <= r < n then 1 else 0
    decreases n
  {
    if lo < n {
      RangeCount(lo, n - 1, r);
      assert Range(lo, n) == Range(lo, n - 1) + [n - 1];
    }
  }

  lemma {:induction false} IdleHoldNothing(ts: seq<Thread>)
    requires forall t :: 0 <= t < |ts| ==> ts[t].Idle?
    ensures CountRegistered(ts) == 0 && CountFallback(ts) == 0 && forall r :: CountHolding(ts, r) == 0
  {
    if ts != [] {
      IdleHoldNothing(ts[1..]);
    }
  }

  lemma {:induction false} InitInv(s: State)
    requires Init(s)
    ensures Inv(s)
  {
    forall r: Reader ensures multiset(s.pool)[r] == if 1 <= r < s.n then 1 else 0 {
      RangeCount(1, s.n, r);
    }
    IdleHoldNothing(s.threads);
  }

  /** The thread an action sets, and to what. */
  function After(s: State, a: Action): Thread
    requires Enabled(s, a) && ByThread(a)
  {
    Do(s, a).threads[a.t]
  }

  lemma {:induction false} HeldCount(ts: seq<Thread>, r: Reader)
    ensures Held(ts)[r] == CountHolding(ts, r)
  {
    if ts != [] {
      HeldCount(ts[1..], r);
    }
  }

  lemma {:induction false} ReadersCount(n: nat, r: Reader)
    ensures Readers(n)[r] == if r < n then 1 else 0
  {
    if n > 0 {
      ReadersCount(n - 1, r);
    }
  }

  /** While the hot lane is occupied and a goroutine is releasing, the pool has room for one more. */
  lemma {:induction false} HotOccupied(s: State, t: nat)
    requires EachInOnePlace(s) && s.hot.Some? && t < |s.threads| && s.threads[t].Releasing?
    ensures |s.pool| + CountFallback(s.threads) + 1 <= s.n - 1
  {
    hide EachInOnePlace, Held, Readers, CountFallback;
    AllReaders(s);
    ReadersSize(s.n);
    HeldSize(s.threads, t);
    assert |InHot(s) + multiset(s.pool) + Held(s.threads) + s.shut| == 1 + |s.pool| + |Held(s.threads)| + |s.shut|;
  }

  /** Together the places hold every reader once. */
  lemma {:induction false} AllReaders(s: State)
    requires EachInOnePlace(s)
    ensures InHot(s) + multiset(s.pool) + Held(s.threads) + s.shut == Readers(s.n)
  {
    hide Held, Readers, CountHolding;
    forall r: Reader
      ensures (InHot(s) + multiset(s.pool) + Held(s.threads) + s.shut)[r] == Readers(s.n)[r]
    {
      assert Places(s, r) == if r < s.n then 1 else 0;
      HeldCount(s.threads, r);
      ReadersCount(s.n, r);
    }
  }

  lemma {:induction false} ReadersSize(n: nat)
    ensures |Readers(n)| == n
  {
    if n > 0 {
      ReadersSize(n - 1);
    }
  }

  /** A goroutine that is releasing holds a reader besides those on their way to the pool. */
  lemma {:induction false} HeldSize(ts: seq<Thread>, t: nat)
    requires t < |ts| && ts[t].Releasing?
    ensures |Held(ts)| >= CountFallback(ts) + 1
  {
    if t == 0 {
      HeldCoversFallback(ts[1..]);
    } else {
      HeldSize(ts[1..], t - 1);
    }
  }

  lemma {:induction false} HeldCoversFallback(ts: seq<Thread>)
    ensures |Held(ts)| >= CountFallback(ts)
  {
    if ts != [] {
      HeldCoversFallback(ts[1..]);
    }
  }

  lemma {:induction false} TakeMoves(s: State, a: Action, r: Reader)
    requires Enabled(s, a) && (a.PollHot? || a.SelectHot? || a.SelectPool?)
    ensures Places(Do(s, a), r) == Places(s, r)
  {
    hide CountHolding;
    UpdateHolding(s.threads, a.t, After(s, a), r);
    if a.SelectPool? {
      PoolHead(s.pool, r);
    }
  }

  lemma {:induction false} PoolHead(pool: seq<Reader>, r: Reader)
    requires pool != []
    ensures multiset(pool)[r] == multiset(pool[1..])[r] + (if pool[0] == r then 1 else 0)
  {
    assert pool == [pool[0]] + pool[1..];
  }

  lemma {:induction false} GiveMoves(s: State, a: Action, r: Reader)
    requires Enabled(s, a) && (a.Borrow? || a.ReturnHot? || a.ReturnPool?)
    ensures Places(Do(s, a), r) == Places(s, r)
  {
    hide Places, Do;
    if a.Borrow? {
      BorrowMoves(s, a, r);
    } else if a.ReturnHot? {
      ReturnHotMoves(s, a, r);
    } else {
      ReturnPoolMoves(s, a, r);
    }
  }

  lemma {:induction false} BorrowMoves(s: State, a: Action, r: Reader)
    requires Enabled(s, a) && a.Borrow?
    ensures Places(Do(s, a), r) == Places(s, r)
  {
    hide CountHolding;
    UpdateHolding(s.threads, a.t, After(s, a), r);
  }

  lemma {:induction false} ReturnHotMoves(s: State, a: Action, r: Reader)
    requires Enabled(s, a) && a.ReturnHot?
    ensures Places(Do(s, a), r) == Places(s, r)
  {
    hide CountHolding;
    UpdateHolding(s.threads, a.t, After(s, a), r);
  }

  lemma {:induction false} ReturnPoolMoves(s: State, a: Action, r: Reader)
    requires Enabled(s, a) && a.ReturnPool?
    ensures Places(Do(s, a), r) == Places(s, r)
  {
    hide CountHolding;
    UpdateHolding(s.threads, a.t, After(s, a), r);
    PoolTail(s.pool, s.threads[a.t].r, r);
  }

  lemma {:induction false} PoolTail(pool: seq<Reader>, x: Reader, r: Reader)
    ensures multiset(pool + [x])[r] == multiset(pool)[r] + (if x == r then 1 else 0)
  {
  }

  lemma {:induction false} OthersKeep(s: State, a: Action, r: Reader)
    requires Enabled(s, a) && (a.Start? || a.SelectDone? || a.Cancel? || a.Finish? || a.Deregister?)
    ensures Places(Do(s, a), r) == Places(s, r)
  {
    hide CountHolding;
    UpdateHolding(s.threads, a.t, After(s, a), r);
  }

  lemma {:induction false} CloseMoves(s: State, a: Action, r: Reader)
    requires Enabled(s, a) && !ByThread(a)
    ensures Places(Do(s, a), r) == Places(s, r)
  {
    if a.DrainHot? {
      DrainHotMoves(s, a, r);
    } else if a.DrainPool? {
      DrainPoolMoves(s, a, r);
    }
  }

  lemma {:induction false} DrainHotMoves(s: State, a: Action, r: Reader)
    requires Enabled(s, a) && a.DrainHot?
    ensures Places(Do(s, a), r) == Places(s, r)
  {
    hide CountHolding;
  }

  lemma {:induction false} DrainPoolMoves(s: State, a: Action, r: Reader)
    requires Enabled(s, a) && a.DrainPool?
    ensures Places(Do(s, a), r) == Places(s, r)
  {
    hide CountHolding;
    PoolHead(s.pool, r);
  }

  /** A step moves a reader from one place to another, or none at all. */
  lemma {:induction false} StepPlacesAt(s: State, a: Action, r: Reader)
    requires Enabled(s, a)
    ensures Places(Do(s, a), r) == Places(s, r)
  {
    hide Places, Do;
    if !ByThread(a) {
      CloseMoves(s, a, r);
    } else if a.PollHot? || a.SelectHot? || a.SelectPool? {
      TakeMoves(s, a, r);
    } else if a.Borrow? || a.ReturnHot? || a.ReturnPool? {
      GiveMoves(s, a, r);
    } else {
      OthersKeep(s, a, r);
    }
  }

  lemma {:induction false} StepPlaces(s: State, a: Action)
    requires EachInOnePlace(s) && Enabled(s, a)
    ensures EachInOnePlace(Do(s, a))
  {
    hide Places;
    assert Do(s, a).n == s.n;
    forall r: Reader ensures Places(Do(s, a), r) == if r < s.n then 1 else 0 {
      StepPlacesAt(s, a, r);
    }
  }

  lemma {:induction false} StepCounted(s: State, a: Action)
    requires EachInOnePlace(s) && Counted(s) && Enabled(s, a)
    ensures Counted(Do(s, a))
  {
    hide CountRegistered, CountFallback, Places;
    if ByThread(a) {
      UpdateCounts(s.threads, a.t, After(s, a));
      if a.ReturnHot? && s.hot.Some? {
        HotOccupied(s, a.t);
      }
    }
  }

  lemma {:induction false} StepClosedInOrder(s: State, a: Action)
    requires Counted(s) && ClosedInOrder(s) && Enabled(s, a)
    ensures ClosedInOrder(Do(s, a))
  {
    hide ClosedInOrder, Do;
    if ByThread(a) {
      ThreadClosedInOrder(s, a);
    } else {
      CloserClosedInOrder(s, a);
    }
  }

  lemma {:induction false} ThreadClosedInOrder(s: State, a: Action)
    requires Counted(s) && ClosedInOrder(s) && Enabled(s, a) && ByThread(a)
    ensures ClosedInOrder(Do(s, a))
  {
    hide CountRegistered, CountFallback;
    CountedAt(s.threads, a.t);
  }

  lemma {:induction false} CloserClosedInOrder(s: State, a: Action)
    requires ClosedInOrder(s) && Enabled(s, a) && !ByThread(a)
    ensures ClosedInOrder(Do(s, a))
  {
  }

  /** Every step keeps the invariant. */
  lemma {:induction false} StepInv(s: State, a: Action)
    requires Inv(s) && Enabled(s, a)
    ensures Inv(Do(s, a))
  {
    StepPlaces(s, a);
    StepCounted(s, a);
    StepClosedInOrder(s, a);
    hide EachInOnePlace, Counted, ClosedInOrder;
  }

  // ----- Runs -----

  /** One step after another. */
  ghost predicate Path(trace: seq<State>, steps: seq<Action>) {
    && |trace| == |steps| + 1
    && forall i :: 0 <= i < |steps| ==> Enabled(trace[i], steps[i]) && trace[i + 1] == Do(trace[i], steps[i])
  }

  /** A run: a path from the state Open leaves. */
  ghost predicate Run(trace: seq<State>, steps: seq<Action>) {
    Path(trace, steps) && Init(trace[0])
  }

  lemma {:induction false} PathStep(trace: seq<State>, steps: seq<Action>, k: nat)
    requires Path(trace, steps) && k + 1 < |trace|
    ensures k < |steps| && steps[k] in steps
    ensures Enabled(trace[k], steps[k]) && trace[k + 1] == Do(trace[k], steps[k])
  {
  }

  lemma {:induction false} PathInv(trace: seq<State>, steps: seq<Action>, k: nat)
    requires Path(trace, steps) && Inv(trace[0]) && k < |trace|
    ensures Inv(trace[k])
  {
    hide Path, Inv, Enabled, Do;
    if k == 0 {
      return;
    }
    PathInv(trace, steps, k - 1);
    PathStep(trace, steps, k - 1);
    StepInv(trace[k - 1], steps[k - 1]);
  }

  /** What holds in every state of every run: no reader is closed twice, none is closed while a
      goroutine has it, no two goroutines have the same one, and a goroutine that must send to the pool
      finds room. */
  ghost predicate Safe(s: State) {
    && (forall r: Reader :: s.shut[r] <= 1)
    && (forall t :: 0 <= t < |s.threads| ==> Unshared(s, t))
    && (forall t :: 0 <= t < |s.threads| && s.threads[t].Fallback? ==> Enabled(s, ReturnPool(t)))
  }

  /** Goroutine t's reader, if it has one, is open and nobody else's. */
  ghost predicate Unshared(s: State, t: nat)
    requires t < |s.threads|
  {
    forall r: Reader :: Holds(s.threads[t], r) ==>
      s.shut[r] == 0 && s.hot != Some(r) && r !in s.pool && CountHolding(s.threads, r) == 1
  }

  lemma {:induction false} InvSafe(s: State)
    requires Inv(s)
    ensures Safe(s)
  {
    hide CountHolding, CountFallback, CountRegistered, Holds;
    forall r: Reader ensures s.shut[r] <= 1 {
      assert Places(s, r) <= 1;
    }
    forall t | 0 <= t < |s.threads| ensures Unshared(s, t) {
      forall r: Reader | Holds(s.threads[t], r)
        ensures s.shut[r] == 0 && s.hot != Some(r) && r !in s.pool && CountHolding(s.threads, r) == 1
      {
        HoldingAt(s.threads, t, r);
        assert Places(s, r) <= 1;
        assert multiset(s.pool)[r] == 0;
      }
    }
    forall t | 0 <= t < |s.threads| && s.threads[t].Fallback? ensures Enabled(s, ReturnPool(t)) {
      CountedAt(s.threads, t);
    }
  }

  lemma {:induction false} RunSafe(trace: seq<State>, steps: seq<Action>, k: nat)
    requires Run(trace, steps) && k < |trace|
    ensures Safe(trace[k])
  {
    InitInv(trace[0]);
    PathInv(trace, steps, k);
    InvSafe(trace[k]);
  }

  /** Since `before` Close has not been undone, nobody has been registered, and no reader opened again. */
  ghost predicate WindingDown(before: State, after: State) {
    && Closed(after) && |after.threads| == |before.threads|
    && (forall t :: 0 <= t < |after.threads| && Registered(after.threads[t]) ==> Registered(before.threads[t]))
    && after.inFlight <= before.inFlight && before.shut <= after.shut
  }

  lemma {:induction false} StepWindsDown(s: State, a: Action)
    requires Closed(s) && Enabled(s, a)
    ensures WindingDown(s, Do(s, a))
  {
    hide WindingDown, Do;
    if ByThread(a) {
      ThreadWindsDown(s, a);
    } else {
      CloserWindsDown(s, a);
    }
  }

  lemma {:induction false} ThreadWindsDown(s: State, a: Action)
    requires Closed(s) && Enabled(s, a) && ByThread(a)
    ensures WindingDown(s, Do(s, a))
  {
    assert Registered(After(s, a)) ==> Registered(s.threads[a.t]);
  }

  lemma {:induction false} CloserWindsDown(s: State, a: Action)
    requires Closed(s) && Enabled(s, a) && !ByThread(a)
    ensures WindingDown(s, Do(s, a))
  {
  }

  lemma {:induction false} WindsOn(s: State, t: State, u: State)
    requires WindingDown(s, t) && WindingDown(t, u)
    ensures WindingDown(s, u)
  {
    hide Registered, Closed;
  }

  lemma {:induction false} WindingStill(s: State)
    requires Closed(s)
    ensures WindingDown(s, s)
  {
  }

  lemma {:induction false} WindingClosed(s: State, t: State)
    requires WindingDown(s, t)
    ensures Closed(t)
  {
  }

  /** Once Close has begun, no step of a run registers another goroutine: those registered in a later
      state were so in every state since, and the wait group only counts down. */
  lemma {:induction false} NoRegistrationAfterClose(trace: seq<State>, steps: seq<Action>, k: nat, l: nat)
    requires Path(trace, steps) && k <= l < |trace| && Closed(trace[k])
    ensures WindingDown(trace[k], trace[l])
  {
    hide Path, Enabled, Do, Closed, WindingDown;
    if k == l {
      WindingStill(trace[k]);
    } else {
      NoRegistrationAfterClose(trace, steps, k, l - 1);
      WindingClosed(trace[k], trace[l - 1]);
      PathStep(trace, steps, l - 1);
      StepWindsDown(trace[l - 1], steps[l - 1]);
      WindsOn(trace[k], trace[l - 1], trace[l]);
    }
  }

  /** When Close has returned, every reader is closed or about to be closed by the goroutine that
      received it; when no goroutine has one, all are closed, once. */
  lemma {:induction false} ClosedAtReturn(s: State, r: Reader)
    requires Inv(s) && s.closer.Finished? && r < s.n
    ensures s.shut[r] == 1 || exists t :: 0 <= t < |s.threads| && s.threads[t] == Taken(r)
    ensures s.shut[r] <= 1
  {
    assert Places(s, r) == 1;
    if s.shut[r] == 0 {
      var t := Holder(s.threads, r);
      if s.threads[t] != Taken(r) {
        CountedAt(s.threads, t);
        assert false;
      }
    }
  }

  lemma {:induction false} Holder(ts: seq<Thread>, r: Reader) returns (t: nat)
    requires CountHolding(ts, r) > 0
    ensures t < |ts| && Holds(ts[t], r)
  {
    if Holds(ts[0], r) {
      t := 0;
    } else {
      t := Holder(ts[1..], r);
      t := t + 1;
    }
  }

  // ----- Close gets done -----

  /** Close has returned and every goroutine is idle. */
  ghost predicate Quiescent(s: State) {
    s.closer.Finished? && forall t :: 0 <= t < |s.threads| ==> s.threads[t].Idle?
  }

  lemma {:induction false} QuiescentAllClosed(s: State, r: Reader)
    requires Inv(s) && Quiescent(s) && r < s.n
    ensures s.shut[r] == 1
  {
    ClosedAtReturn(s, r);
  }

  function Work(x: Thread): nat {
    match x
    case Idle => 0
    case Polling => 3
    case Selecting => 2
    case Taken(_) => 1
    case Using(_) => 5
    case Releasing(_) => 4
    case Fallback(_) => 3
    case Returned => 1
  }

  function ThreadWork(ts: seq<Thread>): nat {
    if ts == [] then 0 else Work(ts[0]) + ThreadWork(ts[1..])
  }

  /** A bound on the steps left after Close has begun, unless new lookups start. */
  function WorkLeft(s: State): nat {
    ThreadWork(s.threads) + InLanes(s)
    + (match s.closer case Open => 3 case Waiting => 2 case Draining => 1 case Finished => 0)
  }

  lemma {:induction false} UpdateWork(ts: seq<Thread>, t: nat, x: Thread)
    requires t < |ts|
    ensures ThreadWork(ts[t := x]) == ThreadWork(ts) + Work(x) - Work(ts[t])
  {
    hide Work;
    var us := ts[t := x];
    if t == 0 {
      assert us[1..] == ts[1..];
    } else {
      assert us[1..] == ts[1..][t - 1 := x];
      UpdateWork(ts[1..], t - 1, x);
    }
  }

  /** After Close has begun every step but a new start leaves less to do ... */
  lemma {:induction false} WorkShrinks(s: State, a: Action)
    requires Closed(s) && Enabled(s, a) && !a.Start?
    ensures Closed(Do(s, a)) && WorkLeft(Do(s, a)) < WorkLeft(s)
  {
    hide ThreadWork, Work;
    if ByThread(a) {
      var x := After(s, a);
      UpdateWork(s.threads, a.t, x);
      ThreadShrinks(s, a);
    }
  }

  /** What a goroutine's step takes off its own work, less what it puts into the lanes. */
  lemma {:induction false} ThreadShrinks(s: State, a: Action)
    requires Closed(s) && Enabled(s, a) && !a.Start? && ByThread(a)
    ensures Work(After(s, a)) + InLanes(Do(s, a)) < Work(s.threads[a.t]) + InLanes(s)
  {
  }

  function InLanes(s: State): nat {
    (if s.hot.Some? then 1 else 0) + |s.pool|
  }

  /** ... and until all is quiet some such step can be taken: nothing deadlocks. */
  lemma {:induction false} NoDeadlock(s: State) returns (a: Action)
    requires Inv(s) && Closed(s) && !Quiescent(s)
    ensures Enabled(s, a) && !a.Start?
  {
    if k :| 0 <= k < |s.threads| && !s.threads[k].Idle? {
      var t: nat := k;
      InvSafe(s);
      a := match s.threads[t]
        case Polling => PollHot(t)
        case Selecting => SelectDone(t)
        case Taken(_) => Borrow(t)
        case Using(_) => Finish(t)
        case Releasing(_) => ReturnHot(t)
        case Fallback(_) => ReturnPool(t)
        case _ => Deregister(t);
    } else {
      NobodyRegistered(s.threads);
      a := if s.closer.Waiting? then CloseWaited
           else if s.hot.Some? then DrainHot
           else if s.pool != [] then DrainPool
           else DrainEnd;
    }
  }

  lemma {:induction false} NobodyRegistered(ts: seq<Thread>)
    requires forall t :: 0 <= t < |ts| ==> ts[t].Idle?
    ensures CountRegistered(ts) == 0
  {
    if ts != [] {
      NobodyRegistered(ts[1..]);
    }
  }

  /** Nothing but new lookups is left to do. */
  ghost predicate AtRest(s: State) {
    forall a :: Enabled(s, a) ==> a.Start?
  }

  lemma {:induction false} PathShrinks(trace: seq<State>, steps: seq<Action>, k: nat)
    requires Path(trace, steps) && Closed(trace[0]) && k < |trace|
    requires forall a :: a in steps ==> !a.Start?
    ensures Closed(trace[k]) && WorkLeft(trace[k]) + k <= WorkLeft(trace[0])
  {
    hide Path, WorkLeft, Enabled, Do;
    if k > 0 {
      PathShrinks(trace, steps, k - 1);
      PathStep(trace, steps, k - 1);
      WorkShrinks(trace[k - 1], steps[k - 1]);
    }
  }

  /** Without new lookups Close always completes: however the steps interleave there are no more than
      WorkLeft of them, and where they end Close has returned, every goroutine is idle and every reader
      has been closed exactly once. */
  lemma {:induction false} CloseCompletes(trace: seq<State>, steps: seq<Action>)
    requires Path(trace, steps) && Inv(trace[0]) && Closed(trace[0])
    requires forall a :: a in steps ==> !a.Start?
    ensures |steps| <= WorkLeft(trace[0])
    ensures AtRest(trace[|steps|]) ==>
              Quiescent(trace[|steps|]) && forall r: Reader :: r < trace[|steps|].n ==> trace[|steps|].shut[r] == 1
  {
    var end := trace[|steps|];
    PathShrinks(trace, steps, |steps|);
    PathInv(trace, steps, |steps|);
    if AtRest(end) {
      if !Quiescent(end) {
        var a := NoDeadlock(end);
        assert false;
      }
      forall r: Reader | r < end.n ensures end.shut[r] == 1 {
        QuiescentAllClosed(end, r);
      }
    }
  }

  // ----- Lookups on an open pool -----

  lemma {:induction false} ThreadsAfter(s: State, a: Action, t: nat)
    requires Enabled(s, a) && t < |s.threads|
    ensures |Do(s, a).threads| == |s.threads|
    ensures !(ByThread(a) && a.t == t) ==> Do(s, a).threads[t] == s.threads[t]
  {
  }

  /** In its present lookup goroutine t has used a reader. */
  ghost predicate HasUsed(trace: seq<State>, steps: seq<Action>, n: nat, t: nat) {
    exists m: nat :: UsedAt(trace, steps, n, t, m)
  }

  predicate UsedAt(trace: seq<State>, steps: seq<Action>, n: nat, t: nat, m: nat) {
    && m <= n <= |steps| < |trace| && t < |trace[m].threads| && trace[m].threads[t].Using?
    && forall i :: m <= i < n ==> steps[i] != Start(t)
  }

  lemma {:induction false} StillUsed(trace: seq<State>, steps: seq<Action>, n: nat, t: nat)
    requires n < |steps| < |trace| && HasUsed(trace, steps, n, t) && steps[n] != Start(t)
    ensures HasUsed(trace, steps, n + 1, t)
  {
    var m: nat :| UsedAt(trace, steps, n, t, m);
    assert UsedAt(trace, steps, n + 1, t, m);
  }

  lemma {:induction false} RegisteredBy(s: State, a: Action)
    requires Enabled(s, a) && ByThread(a) && Registered(After(s, a))
    ensures a != Start(a.t) && (After(s, a).Using? || Registered(s.threads[a.t]))
  {
  }

  lemma {:induction false} NoneRegistered(s: State, t: nat)
    requires Init(s) && t < |s.threads|
    ensures !Registered(s.threads[t])
  {
  }

  /** Only who has used a reader returns one. */
  lemma {:induction false} RegisteredUsed(trace: seq<State>, steps: seq<Action>, n: nat, t: nat)
    requires Run(trace, steps) && n < |trace| && t < |trace[n].threads| && Registered(trace[n].threads[t])
    ensures HasUsed(trace, steps, n, t)
  {
    hide Path, Enabled, Do, Registered, Init;
    if n == 0 {
      NoneRegistered(trace[0], t);
    } else {
      PathStep(trace, steps, n - 1);
      PathLength(trace, steps);
      var s, a := trace[n - 1], steps[n - 1];
      SameThreads(s, a);
      ThreadsAfter(s, a, t);
      if ByThread(a) && a.t == t {
        RegisteredBy(s, a);
        if trace[n].threads[t].Using? {
          assert UsedAt(trace, steps, n, t, n);
        } else {
          RegisteredUsed(trace, steps, n - 1, t);
          StillUsed(trace, steps, n - 1, t);
        }
      } else {
        RegisteredUsed(trace, steps, n - 1, t);
        StillUsed(trace, steps, n - 1, t);
      }
    }
  }

  lemma {:induction false} SameThreads(s: State, a: Action)
    requires Enabled(s, a)
    ensures |Do(s, a).threads| == |s.threads| && (ByThread(a) ==> a.t < |s.threads|)
  {
  }

  lemma {:induction false} PathLength(trace: seq<State>, steps: seq<Action>)
    requires Path(trace, steps)
    ensures |trace| == |steps| + 1
  {
  }

  lemma {:induction false} WhoEnds(s: State, a: Action)
    requires Enabled(s, a) && ByThread(a) && After(s, a).Idle? && !Closed(s)
    ensures a == Cancel(a.t) || Registered(s.threads[a.t])
  {
  }

  /** As long as Close has not begun, a lookup that its caller does not cancel ends only after it has used a
      reader. */
  lemma {:induction false} OpenLookupsUse(trace: seq<State>, steps: seq<Action>, n: nat)
    requires Run(trace, steps) && n < |steps| && ByThread(steps[n]) && !Closed(trace[n])
    ensures steps[n].t < |trace[n + 1].threads|
    ensures trace[n + 1].threads[steps[n].t].Idle? ==>
              steps[n] == Cancel(steps[n].t) || HasUsed(trace, steps, n, steps[n].t)
  {
    hide Path, Enabled, Do, Registered, Init, Closed;
    PathLength(trace, steps);
    PathStep(trace, steps, n);
    SameThreads(trace[n], steps[n]);
    if trace[n + 1].threads[steps[n].t].Idle? {
      WhoEnds(trace[n], steps[n]);
      if steps[n] != Cancel(steps[n].t) {
        RegisteredUsed(trace, steps, n, steps[n].t);
      }
    }
  }

  /** The steps a goroutine has left at most until it is idle. */
  function TurnsLeft(x: Thread): nat {
    match x
    case Idle => 0
    case Returned => 1
    case Fallback(_) => 2
    case Releasing(_) => 3
    case Using(_) => 4
    case Taken(_) => 5
    case Selecting => 6
    case Polling => 7
  }

  function AllTurns(ts: seq<Thread>): nat {
    if ts == [] then 0 else TurnsLeft(ts[0]) + AllTurns(ts[1..])
  }

  lemma {:induction false} UpdateTurns(ts: seq<Thread>, t: nat, x: Thread)
    requires t < |ts|
    ensures AllTurns(ts[t := x]) == AllTurns(ts) + TurnsLeft(x) - TurnsLeft(ts[t])
  {
    hide TurnsLeft;
    var us := ts[t := x];
    if t == 0 {
      assert us[1..] == ts[1..];
    } else {
      assert us[1..] == ts[1..][t - 1 := x];
      UpdateTurns(ts[1..], t - 1, x);
    }
  }

  predicate InLookup(a: Action) {
    ByThread(a) && !a.Start?
  }

  lemma {:induction false} TurnTaken(s: State, a: Action)
    requires Enabled(s, a) && InLookup(a)
    ensures AllTurns(Do(s, a).threads) < AllTurns(s.threads) && Do(s, a).closer == s.closer
  {
    hide AllTurns;
    UpdateTurns(s.threads, a.t, After(s, a));
  }

  lemma {:induction false} TurnsShrink(trace: seq<State>, steps: seq<Action>, k: nat)
    requires Path(trace, steps) && k < |trace| && forall a :: a in steps ==> InLookup(a)
    ensures AllTurns(trace[k].threads) + k <= AllTurns(trace[0].threads) && trace[k].closer == trace[0].closer
  {
    hide Path, AllTurns, Enabled, Do;
    if k > 0 {
      TurnsShrink(trace, steps, k - 1);
      PathStep(trace, steps, k - 1);
      TurnTaken(trace[k - 1], steps[k - 1]);
    }
  }

  /** Where only waiting goroutines are busy, all the readers are in the lanes. */
  lemma {:induction false} WaitersLeaveReaders(s: State, r: Reader)
    requires Inv(s) && s.closer.Open? && r < s.n
    requires forall t :: 0 <= t < |s.threads| ==> s.threads[t].Idle? || s.threads[t].Selecting?
    ensures s.hot == Some(r) || r in s.pool
  {
    hide CountHolding;
    NobodyHolds(s.threads, r);
    assert Places(s, r) == 1;
  }

  lemma {:induction false} NobodyHolds(ts: seq<Thread>, r: Reader)
    requires forall t :: 0 <= t < |ts| ==> ts[t].Idle? || ts[t].Selecting?
    ensures CountHolding(ts, r) == 0
  {
    if ts != [] {
      NobodyHolds(ts[1..], r);
    }
  }

  /** On an open pool some lookup can always go on without being cancelled, as long as there is one. */
  lemma {:induction false} OpenNoDeadlock(s: State, k: nat) returns (a: Action)
    requires Inv(s) && s.closer.Open? && k < |s.threads| && !s.threads[k].Idle?
    ensures Enabled(s, a) && InLookup(a) && !a.Cancel?
  {
    hide EachInOnePlace, Counted, ClosedInOrder;
    if i :| 0 <= i < |s.threads| && !s.threads[i].Idle? && !s.threads[i].Selecting? {
      var t: nat := i;
      InvSafe(s);
      a := match s.threads[t]
        case Polling => PollHot(t)
        case Taken(_) => Borrow(t)
        case Using(_) => Finish(t)
        case Releasing(_) => ReturnHot(t)
        case Fallback(_) => ReturnPool(t)
        case _ => Deregister(t);
    } else {
      WaitersLeaveReaders(s, 0);
      a := if s.hot.Some? then SelectHot(k) else SelectPool(k);
    }
  }

  /** So without new lookups all of them get done, however they interleave: after no more than seven steps
      each, every goroutine is idle and every reader is back. */
  lemma {:induction false} OpenLookupsComplete(trace: seq<State>, steps: seq<Action>)
    requires Path(trace, steps) && Inv(trace[0]) && trace[0].closer.Open?
    requires forall a :: a in steps ==> InLookup(a)
    ensures |steps| <= 7 * |trace[0].threads|
    ensures var end := trace[|steps|];
            (forall a :: Enabled(end, a) ==> !InLookup(a) || a.Cancel?) ==>
              && (forall t :: 0 <= t < |end.threads| ==> end.threads[t].Idle?)
              && (forall r: Reader :: r < end.n ==> end.hot == Some(r) || r in end.pool)
  {
    hide Path, AllTurns, Enabled, Do, Inv, InLookup;
    PathLength(trace, steps);
    var end := trace[|steps|];
    TurnsShrink(trace, steps, |steps|);
    TurnsBound(trace[0].threads);
    PathInv(trace, steps, |steps|);
    if forall a :: Enabled(end, a) ==> !InLookup(a) || a.Cancel? {
      forall t | 0 <= t < |end.threads| ensures end.threads[t].Idle? {
        if !end.threads[t].Idle? {
          var a := OpenNoDeadlock(end, t);
        }
      }
      forall r: Reader | r < end.n ensures end.hot == Some(r) || r in end.pool {
        WaitersLeaveReaders(end, r);
      }
    }
  }

  lemma {:induction false} TurnsBound(ts: seq<Thread>)
    ensures AllTurns(ts) <= 7 * |ts|
  {
    if ts != [] {
      TurnsBound(ts[1..]);
    }
  }

  // ----- The hot lane -----

  predicate MovesHot(a: Action) {
    a.PollHot? || a.SelectHot? || a.ReturnHot? || a.DrainHot?
  }

  lemma {:induction false} HotStays(trace: seq<State>, steps: seq<Action>, k: nat, n: nat)
    requires Path(trace, steps) && k <= n < |trace| && forall i :: k <= i < n ==> !MovesHot(steps[i])
    ensures trace[n].hot == trace[k].hot
  {
    hide Path, Enabled, Do;
    if k < n {
      PathLength(trace, steps);
      PathStep(trace, steps, n - 1);
      HotStays(trace, steps, k, n - 1);
      HotAfter(trace[n - 1], steps[n - 1]);
    }
  }

  lemma {:induction false} HotAfter(s: State, a: Action)
    requires Enabled(s, a)
    ensures !MovesHot(a) ==> Do(s, a).hot == s.hot
    ensures a.ReturnHot? && s.hot.None? ==> Do(s, a).hot == Some(s.threads[a.t].r)
    ensures a.PollHot? && s.hot.Some? ==> After(s, a) == Taken(s.hot.value)
  {
  }

  /** A reader that has just been put back is the first to be taken again. */
  lemma {:induction false} LastReturnedFirst(trace: seq<State>, steps: seq<Action>, k: nat, n: nat)
    requires Path(trace, steps) && k < n < |steps| && steps[k].ReturnHot? && trace[k].hot.None? && steps[n].PollHot?
    requires forall i :: k < i < n ==> !MovesHot(steps[i])
    ensures steps[k].t < |trace[k].threads| && trace[k].threads[steps[k].t].Releasing?
    ensures steps[n].t < |trace[n + 1].threads|
    ensures trace[n + 1].threads[steps[n].t] == Taken(trace[k].threads[steps[k].t].r)
  {
    hide Path, Do;
    PathLength(trace, steps);
    PathStep(trace, steps, k);
    PathStep(trace, steps, n);
    HotAfter(trace[k], steps[k]);
    HotStays(trace, steps, k + 1, n);
    HotAfter(trace[n], steps[n]);
    SameThreads(trace[n], steps[n]);
  }

  // ----- The order of the pool -----

  /** The reader that a goroutine sends to the pool. */
  function Sent(s: State, a: Action): seq<Reader> {
    if a.ReturnPool? && a.t < |s.threads| && s.threads[a.t].Fallback? then [s.threads[a.t].r] else []
  }

  /** The reader that a goroutine has got from the pool with the step that led to s. */
  function Lent(s: State, a: Action): seq<Reader> {
    if a.SelectPool? && a.t < |s.threads| && s.threads[a.t].Taken? then [s.threads[a.t].r] else []
  }

  function AllSent(trace: seq<State>, steps: seq<Action>, n: nat): seq<Reader>
    requires n <= |steps| < |trace|
  {
    if n == 0 then [] else AllSent(trace, steps, n - 1) + Sent(trace[n - 1], steps[n - 1])
  }

  function AllLent(trace: seq<State>, steps: seq<Action>, n: nat): seq<Reader>
    requires n <= |steps| < |trace|
  {
    if n == 0 then [] else AllLent(trace, steps, n - 1) + Lent(trace[n], steps[n - 1])
  }

  lemma {:induction false} PoolAfter(s: State, a: Action)
    requires Enabled(s, a) && !a.DrainPool?
    ensures Lent(Do(s, a), a) + Do(s, a).pool == s.pool + Sent(s, a)
  {
    if a.SelectPool? {
      assert s.pool == [s.pool[0]] + s.pool[1..];
    }
  }

  /** The pool is a channel: until Close drains it, its readers are lent in the order they came. */
  lemma {:induction false} PoolInOrder(trace: seq<State>, steps: seq<Action>, n: nat)
    requires Path(trace, steps) && n <= |steps| < |trace|
    requires forall i :: 0 <= i < n ==> !steps[i].DrainPool?
    ensures AllLent(trace, steps, n) + trace[n].pool == trace[0].pool + AllSent(trace, steps, n)
  {
    hide Path, Do, Enabled, Sent, Lent;
    if n > 0 {
      var s, a, s' := trace[n - 1], steps[n - 1], trace[n];
      PoolInOrder(trace, steps, n - 1);
      PathStep(trace, steps, n - 1);
      PoolAfter(s, a);
      calc {
        AllLent(trace, steps, n) + s'.pool;
        AllLent(trace, steps, n - 1) + (Lent(s', a) + s'.pool);
        (AllLent(trace, steps, n - 1) + s.pool) + Sent(s, a);
        trace[0].pool + AllSent(trace, steps, n);
      }
    }
  }
}
