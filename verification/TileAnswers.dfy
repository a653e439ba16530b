/** What a lookup answers, told from the history of a run: whose request it was, which load gave the result,
    and which failed read or cancellation is to blame when there is none. */
module TileAnswers {
  import opened Bits
  import opened Options
  import opened TileLoading

  // ----- One step -----

  lemma {:induction false} ThreadsAfter(w: World, s: State, a: Action, t: nat)
    requires Enabled(s, a) && t < |s.threads|
    ensures |Do(w, s, a).threads| == |s.threads|
    ensures Do(w, s, a).threads[t] == if ByThread(a) && a.t == t then Next(w, s, a) else s.threads[t]
  {
    hide Next, Stored;
  }

  lemma {:induction false} CallsAfter(w: World, s: State, a: Action, id: nat)
    requires Enabled(s, a) && id < |Do(w, s, a).calls|
    ensures var c := Do(w, s, a).calls[id];
            || (id < |s.calls| && c == s.calls[id])
            || (a.Enter? && c == Call(s.threads[a.t].key, None))
            || (a.Publish? && s.threads[a.t].id == id && c == Call(s.threads[a.t].key, Some(s.threads[a.t].result)))
  {
    hide Next, Stored;
  }

  // ----- Whose request it was -----

  /** The last request of goroutine t before state n was for k. */
  ghost predicate Asked(steps: seq<Action>, n: nat, t: nat, k: Key)
    requires n <= |steps|
  {
    exists m: nat :: LastRequest(steps, n, t, k, m)
  }

  predicate LastRequest(steps: seq<Action>, n: nat, t: nat, k: Key, m: nat)
    requires n <= |steps|
  {
    && m < n && steps[m] == Request(t, k)
    && forall i :: m < i < n ==> !(steps[i].Request? && steps[i].t == t)
  }

  lemma {:induction false} SameKey(w: World, s: State, a: Action)
    requires Enabled(s, a) && ByThread(a) && !a.Request? && !a.Respond?
    ensures !s.threads[a.t].Idle? && !Next(w, s, a).Idle? && Next(w, s, a).key == s.threads[a.t].key
  {
  }

  lemma {:induction false} RequestedKey(w: World, s: State, a: Action)
    requires Enabled(s, a) && ByThread(a)
    ensures a.Request? ==> Next(w, s, a) == Looking(a.key)
    ensures a.Respond? ==> Next(w, s, a).Idle?
  {
  }

  /** A goroutine that is busy is busy with the key it was last asked for. */
  lemma {:induction false} BusyWithRequest(w: World, trace: seq<State>, steps: seq<Action>, n: nat, t: nat)
    requires Run(w, trace, steps) && n < |trace| && t < |trace[n].threads| && !trace[n].threads[t].Idle?
    ensures Asked(steps, n, t, trace[n].threads[t].key)
  {
    hide Enabled, Do, Next, Init;
    if n == 0 {
      NobodyBusy(trace[0], t);
    } else {
      var s, a := trace[n - 1], steps[n - 1];
      assert trace[n - 1 + 1] == Do(w, s, a);
      ThreadsSame(w, s, a);
      ThreadsAfter(w, s, a, t);
      var k := trace[n].threads[t].key;
      if ByThread(a) && a.t == t {
        RequestedKey(w, s, a);
        if a.Request? {
          assert LastRequest(steps, n, t, k, n - 1);
        } else {
          SameKey(w, s, a);
          BusyWithRequest(w, trace, steps, n - 1, t);
          AskedStill(steps, n - 1, t, k);
        }
      } else {
        BusyWithRequest(w, trace, steps, n - 1, t);
        AskedStill(steps, n - 1, t, k);
      }
    }
  }

  lemma {:induction false} ThreadsSame(w: World, s: State, a: Action)
    requires Enabled(s, a)
    ensures |Do(w, s, a).threads| == |s.threads|
  {
    hide Next, Stored;
  }

  lemma {:induction false} NobodyBusy(s: State, t: nat)
    requires Init(s) && t < |s.threads|
    ensures s.threads[t].Idle?
  {
  }

  lemma {:induction false} AskedStill(steps: seq<Action>, n: nat, t: nat, k: Key)
    requires n < |steps| && Asked(steps, n, t, k) && !(steps[n].Request? && steps[n].t == t)
    ensures Asked(steps, n + 1, t, k)
  {
    var m: nat :| LastRequest(steps, n, t, k, m);
    assert LastRequest(steps, n + 1, t, k, m);
  }

  // ----- Which failed read is to blame -----

  /** Step m is a look at the dataset, for load id and key k, that failed. */
  predicate ReadFailed(trace: seq<State>, steps: seq<Action>, id: nat, k: Key, m: nat) {
    && m < |steps| < |trace| && steps[m].Read? && !steps[m].ok && steps[m].t < |trace[m].threads|
    && var x := trace[m].threads[steps[m].t]; x.Reading? && x.id == id && x.key == k
  }

  ghost predicate Blamed(trace: seq<State>, steps: seq<Action>, n: nat, id: nat, k: Key) {
    exists m: nat :: m < n && ReadFailed(trace, steps, id, k, m)
  }

  /** Failures have a failed read behind them, and no load is ever cancelled. */
  ghost predicate ThreadExplained(trace: seq<State>, steps: seq<Action>, n: nat, x: Thread) {
    && (x.Publishing? ==> !x.result.Cancelled? && (x.result.Failed? ==> Blamed(trace, steps, n, x.id, x.key)))
    && (x.Done? && x.result.Failed? ==> x.via.Some? && Blamed(trace, steps, n, x.via.value, x.key))
  }

  ghost predicate CallExplained(trace: seq<State>, steps: seq<Action>, n: nat, id: nat, c: Call) {
    c.result.Some? ==>
      !c.result.value.Cancelled? && (c.result.value.Failed? ==> Blamed(trace, steps, n, id, c.key))
  }

  ghost predicate Explained(trace: seq<State>, steps: seq<Action>, n: nat)
    requires n < |trace|
  {
    && (forall t :: 0 <= t < |trace[n].threads| ==> ThreadExplained(trace, steps, n, trace[n].threads[t]))
    && (forall id :: 0 <= id < |trace[n].calls| ==> CallExplained(trace, steps, n, id, trace[n].calls[id]))
  }

  lemma {:induction false} BlamedLater(trace: seq<State>, steps: seq<Action>, n: nat, k: Key)
    ensures forall id :: Blamed(trace, steps, n, id, k) ==> Blamed(trace, steps, n + 1, id, k)
  {
    hide ReadFailed;
  }

  lemma {:induction false} NowBlamed(trace: seq<State>, steps: seq<Action>, n: nat, id: nat, k: Key)
    requires ReadFailed(trace, steps, id, k, n)
    ensures Blamed(trace, steps, n + 1, id, k)
  {
  }

  /** The goroutine that takes a step. */
  lemma {:induction false} ActorExplained(w: World, trace: seq<State>, steps: seq<Action>, n: nat)
    requires n < |steps| < |trace| && Enabled(trace[n], steps[n]) && ByThread(steps[n])
    requires Inv(w, trace[n]) && Explained(trace, steps, n)
    ensures ThreadExplained(trace, steps, n + 1, Next(w, trace[n], steps[n]))
  {
    hide Blamed, Inv;
    var s, a := trace[n], steps[n];
    var x := s.threads[a.t];
    assert ThreadExplained(trace, steps, n, x);
    if !x.Idle? {
      BlamedLater(trace, steps, n, x.key);
    }
    if a.Join? {
      assert CallExplained(trace, steps, n, x.id, s.calls[x.id]);
      WaitsForKey(w, s, a.t);
    } else if a.Read? && !a.ok {
      assert Blamed(trace, steps, n + 1, x.id, x.key) by { NowBlamed(trace, steps, n, x.id, x.key); }
    }
  }

  lemma {:induction false} WaitsForKey(w: World, s: State, t: nat)
    requires Inv(w, s) && t < |s.threads| && s.threads[t].Waiting?
    ensures s.threads[t].id < |s.calls| && s.calls[s.threads[t].id].key == s.threads[t].key
  {
    ThreadAt(w, s, t);
  }

  lemma {:induction false} CallAfterExplained(w: World, trace: seq<State>, steps: seq<Action>, n: nat, id: nat)
    requires n < |steps| < |trace| && Enabled(trace[n], steps[n])
    requires Explained(trace, steps, n) && id < |Do(w, trace[n], steps[n]).calls|
    ensures CallExplained(trace, steps, n + 1, id, Do(w, trace[n], steps[n]).calls[id])
  {
    hide Do, Blamed;
    var s, a := trace[n], steps[n];
    var c := Do(w, s, a).calls[id];
    CallsAfter(w, s, a, id);
    BlamedLater(trace, steps, n, c.key);
    if id < |s.calls| && c == s.calls[id] {
      assert CallExplained(trace, steps, n, id, c);
    } else if a.Publish? {
      assert ThreadExplained(trace, steps, n, s.threads[a.t]);
    }
  }

  lemma {:induction false} StepExplained(w: World, trace: seq<State>, steps: seq<Action>, n: nat)
    requires n < |steps| < |trace| && Enabled(trace[n], steps[n]) && trace[n + 1] == Do(w, trace[n], steps[n])
    requires Inv(w, trace[n]) && Explained(trace, steps, n)
    ensures Explained(trace, steps, n + 1)
  {
    hide Inv, Do, Next, CallExplained, Enabled, Blamed;
    var s, a, s' := trace[n], steps[n], trace[n + 1];
    ThreadsSame(w, s, a);
    forall t | 0 <= t < |s'.threads| ensures ThreadExplained(trace, steps, n + 1, s'.threads[t]) {
      ThreadsAfter(w, s, a, t);
      if ByThread(a) && a.t == t {
        ActorExplained(w, trace, steps, n);
      } else {
        var x := s.threads[t];
        assert ThreadExplained(trace, steps, n, x);
        if !x.Idle? {
          BlamedLater(trace, steps, n, x.key);
        }
      }
    }
    forall id | 0 <= id < |s'.calls| ensures CallExplained(trace, steps, n + 1, id, s'.calls[id]) {
      CallAfterExplained(w, trace, steps, n, id);
    }
  }

  lemma {:induction false} RunExplained(w: World, trace: seq<State>, steps: seq<Action>, n: nat)
    requires Run(w, trace, steps) && n < |trace|
    ensures Explained(trace, steps, n)
  {
    hide Inv, Do, Enabled, ThreadExplained, CallExplained;
    if n == 0 {
      forall t | 0 <= t < |trace[0].threads| ensures ThreadExplained(trace, steps, 0, trace[0].threads[t]) {
        IdleExplained(trace, steps, trace[0].threads[t]);
      }
    } else {
      RunExplained(w, trace, steps, n - 1);
      RunInv(w, trace, steps, n - 1);
      assert trace[n - 1 + 1] == Do(w, trace[n - 1], steps[n - 1]);
      StepExplained(w, trace, steps, n - 1);
    }
  }

  lemma {:induction false} IdleExplained(trace: seq<State>, steps: seq<Action>, x: Thread)
    requires x.Idle?
    ensures ThreadExplained(trace, steps, 0, x)
  {
  }

  // ----- Whose cancellation it was -----

  /** Goroutine t was cancelled at step m, and has not moved since. */
  predicate CancelledAt(trace: seq<State>, steps: seq<Action>, n: nat, t: nat, m: nat) {
    && m < n <= |steps| < |trace| && steps[m] == Cancel(t)
    && forall i :: m < i < n ==> !(ByThread(steps[i]) && steps[i].t == t)
  }

  lemma {:induction false} OthersNotCancelled(w: World, trace: seq<State>, steps: seq<Action>, n: nat)
    requires n < |steps| < |trace| && Enabled(trace[n], steps[n]) && ByThread(steps[n]) && !steps[n].Cancel?
    requires Explained(trace, steps, n)
    ensures var x := Next(w, trace[n], steps[n]); x.Done? ==> !x.result.Cancelled?
  {
    hide Blamed;
    var s, a := trace[n], steps[n];
    assert ThreadExplained(trace, steps, n, s.threads[a.t]);
    if a.Join? {
      assert CallExplained(trace, steps, n, s.threads[a.t].id, s.calls[s.threads[a.t].id]);
    }
  }

  lemma {:induction false} CancelledByItself(w: World, trace: seq<State>, steps: seq<Action>, n: nat, t: nat)
    returns (m: nat)
    requires Run(w, trace, steps) && n < |trace| && t < |trace[n].threads|
    requires trace[n].threads[t].Done? && trace[n].threads[t].result.Cancelled?
    ensures CancelledAt(trace, steps, n, t, m)
  {
    hide Enabled, Do, Next, Init, Explained;
    if n == 0 {
      NobodyBusy(trace[0], t);
    } else {
      var s, a := trace[n - 1], steps[n - 1];
      assert trace[n - 1 + 1] == Do(w, s, a);
      ThreadsSame(w, s, a);
      ThreadsAfter(w, s, a, t);
      if ByThread(a) && a.t == t {
        RunExplained(w, trace, steps, n - 1);
        if !a.Cancel? {
          OthersNotCancelled(w, trace, steps, n - 1);
        }
        m := n - 1;
      } else {
        m := CancelledByItself(w, trace, steps, n - 1, t);
      }
    }
  }

  // ----- Who joins a load has its leader's result -----

  /** At step m goroutine u published the result r of load id. */
  predicate PublishedAt(trace: seq<State>, steps: seq<Action>, id: nat, c: Call, m: nat, u: nat) {
    && m < |steps| < |trace| && steps[m] == Publish(u) && u < |trace[m].threads| && c.result.Some?
    && trace[m].threads[u] == Publishing(c.key, id, c.result.value)
  }

  lemma {:induction false} ResultPublished(w: World, trace: seq<State>, steps: seq<Action>, n: nat, id: nat)
    returns (m: nat, u: nat)
    requires Run(w, trace, steps) && n < |trace| && id < |trace[n].calls| && trace[n].calls[id].result.Some?
    ensures m < n && PublishedAt(trace, steps, id, trace[n].calls[id], m, u)
  {
    hide Enabled, Do, Next;
    if n > 0 {
      var s, a := trace[n - 1], steps[n - 1];
      assert trace[n - 1 + 1] == Do(w, s, a);
      CallsAfter(w, s, a, id);
      if id < |s.calls| && trace[n].calls[id] == s.calls[id] {
        m, u := ResultPublished(w, trace, steps, n - 1, id);
      } else {
        Publishes(s, a);
        m, u := n - 1, a.t;
      }
    }
  }

  lemma {:induction false} Publishes(s: State, a: Action)
    requires Enabled(s, a) && a.Publish?
    ensures a.t < |s.threads| && s.threads[a.t].Publishing? && a == Publish(a.t)
  {
  }

  /** Who joins a load goes on with the result its leader published, and nothing else. */
  lemma {:induction false} JoinersShare(w: World, trace: seq<State>, steps: seq<Action>, n: nat, t: nat)
    returns (m: nat, u: nat)
    requires Run(w, trace, steps) && n < |steps| && steps[n] == Join(t)
    ensures t < |trace[n].threads| && trace[n].threads[t].Waiting? && t < |trace[n + 1].threads|
    ensures var x, y := trace[n].threads[t], trace[n + 1].threads[t];
            && y.Done? && y.key == x.key && y.via == Some(x.id)
            && m < n && PublishedAt(trace, steps, x.id, Call(x.key, Some(y.result)), m, u)
  {
    hide Inv;
    RunInv(w, trace, steps, n);
    WaitsForKey(w, trace[n], t);
    m, u := ResultPublished(w, trace, steps, n, trace[n].threads[t].id);
  }

  // ----- Every answer -----

  /** The one right answer for a key. */
  function Answer(w: World, k: Key): Result {
    if k in w.dataset then Found(w.dataset[k], w.digest(w.dataset[k])) else Missing
  }

  /** Whatever the interleaving and whatever the cache has lost: a lookup answers, for the key it was asked
      for, exactly what the dataset has, unless its own caller has cancelled it or the read of its load has
      failed. */
  lemma {:induction false} AnswersExact(w: World, trace: seq<State>, steps: seq<Action>, n: nat, t: nat)
    requires Run(w, trace, steps) && n < |trace| && t < |trace[n].threads| && trace[n].threads[t].Done?
    ensures var x := trace[n].threads[t];
            && Asked(steps, n, t, x.key)
            && match x.result
               case Cancelled => exists m: nat :: CancelledAt(trace, steps, n, t, m)
               case Failed => x.via.Some? && Blamed(trace, steps, n, x.via.value, x.key)
               case _ => x.result == Answer(w, x.key)
  {
    hide Run, Blamed, Asked, CancelledAt, LastRequest;
    var x := trace[n].threads[t];
    BusyWithRequest(w, trace, steps, n, t);
    AnswersRight(w, trace, steps, n, t);
    RunExplained(w, trace, steps, n);
    assert ThreadExplained(trace, steps, n, x);
    if x.result.Cancelled? {
      var m := CancelledByItself(w, trace, steps, n, t);
    }
  }

  /** Without failed reads and cancellations every answer is exactly the dataset's. */
  lemma {:induction false} UndisturbedExact(w: World, trace: seq<State>, steps: seq<Action>, n: nat, t: nat)
    requires Run(w, trace, steps) && n < |trace| && t < |trace[n].threads| && trace[n].threads[t].Done?
    requires forall i :: 0 <= i < n ==> (steps[i].Read? ==> steps[i].ok) && steps[i] != Cancel(t)
    ensures trace[n].threads[t].result == Answer(w, trace[n].threads[t].key)
  {
    hide Run, Asked;
    AnswersExact(w, trace, steps, n, t);
  }

  /** What the cache holds is answered at once, without a load. */
  lemma {:induction false} HitAnswersAtOnce(w: World, trace: seq<State>, steps: seq<Action>, n: nat, t: nat)
    requires Run(w, trace, steps) && n < |steps| && steps[n] == Probe(t)
    ensures t < |trace[n].threads| && trace[n].threads[t].Looking?
    ensures var k, x := trace[n].threads[t].key, trace[n + 1].threads[t];
            Cached(trace[n], k) ==> && x == Done(k, Answer(w, k), None)
                                    && trace[n + 1].calls == trace[n].calls && trace[n + 1].loads == trace[n].loads
  {
    hide Inv;
    RunInv(w, trace, steps, n);
    if Cached(trace[n], trace[n].threads[t].key) {
      AnswersExact(w, trace, steps, n + 1, t);
    }
  }

  // ----- A lookup takes few steps -----

  /** The steps a goroutine has left at most until it is idle again. */
  function TurnsLeft(x: Thread): nat {
    match x
    case Idle => 0
    case Done(_, _, _) => 1
    case Publishing(_, _, _) => 2
    case Storing(_, _, _, _) => 3
    case Reading(_, _, _) => 4
    case Recalling(_, _) => 5
    case Rechecking(_, _) => 6
    case Waiting(_, _) => 2
    case Entering(_) => 7
    case Looking(_) => 8
  }

  /** How many of the steps from m on, before n, goroutine t takes. */
  function Turns(steps: seq<Action>, t: nat, m: nat, n: nat): nat
    requires m <= n <= |steps|
  {
    if m == n then 0
    else Turns(steps, t, m, n - 1) + if ByThread(steps[n - 1]) && steps[n - 1].t == t then 1 else 0
  }

  lemma {:induction false} TurnTaken(w: World, s: State, a: Action)
    requires Enabled(s, a) && ByThread(a) && !a.Request?
    ensures TurnsLeft(Next(w, s, a)) < TurnsLeft(s.threads[a.t])
  {
  }

  /** After its request a goroutine takes at most eight steps of its own to answer it. */
  lemma {:induction false} LookupEnds(w: World, trace: seq<State>, steps: seq<Action>, m: nat, n: nat, t: nat, k: Key)
    requires Run(w, trace, steps) && m < n < |trace| && LastRequest(steps, n, t, k, m)
    ensures t < |trace[n].threads| && Turns(steps, t, m + 1, n) + TurnsLeft(trace[n].threads[t]) <= 8
  {
    hide Enabled, Do, Next, TurnsLeft;
    var s, a := trace[n - 1], steps[n - 1];
    assert trace[n - 1 + 1] == Do(w, s, a);
    if ByThread(a) {
      ActsInside(s, a);
    }
    ThreadsSame(w, s, a);
    if n == m + 1 {
      ThreadsAfter(w, s, a, t);
      RequestedKey(w, s, a);
      assert TurnsLeft(Looking(k)) == 8 by { LookingTurns(k); }
    } else {
      LookupEnds(w, trace, steps, m, n - 1, t, k);
      ThreadsAfter(w, s, a, t);
      if ByThread(a) && a.t == t {
        TurnTaken(w, s, a);
      }
    }
  }

  lemma {:induction false} LookingTurns(k: Key)
    ensures TurnsLeft(Looking(k)) == 8
  {
  }

  lemma {:induction false} ActsInside(s: State, a: Action)
    requires Enabled(s, a) && ByThread(a)
    ensures a.t < |s.threads|
  {
  }
}
