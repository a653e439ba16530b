/** What a synchronization reports and leaves behind, told from the steps of its run and not from its own
    counters. */
module SyncOutcomes {
  import opened Bits
  import opened Options
  import opened TileRequest
  import opened SyncProtocol

  // ----- Which call of Sync is under way -----

  predicate Starts(a: Action) {
    a.Start? || a.WarmStart?
  }

  /** Step m began the call that is under way before step n. */
  predicate StartedAt(steps: seq<Action>, n: nat, m: nat) {
    m < n <= |steps| && Starts(steps[m]) && forall i :: m < i < n ==> !Starts(steps[i])
  }

  /** The job is that of the call begun with action a in state s. */
  ghost predicate JobOf(w: World, s: State, a: Action, j: Job) {
    && Starts(a) && Acceptable(a.request)
    && j.keys == AllKeys(a.request) && j.manifest == a.manifest && j.prune == a.prune
    && j.previous == Active(s, a.manifest.dataset)
    && (a.WarmStart? ==> j.downloaded == 0 && j.reused == |j.keys|)
    && (a.Start? ==> |j.workers| == Least(if a.request.concurrency > 0 then a.request.concurrency else 4, |j.keys|))
  }

  function Least(m: int, n: int): int {
    if m < n then m else n
  }

  lemma {:induction false} StartsJob(w: World, s: State, a: Action)
    requires Enabled(w, s, a) && Starts(a)
    ensures s.phase.Idle? && !Do(w, s, a).phase.Idle? && JobOf(w, s, a, Do(w, s, a).job)
  {
    hide AllKeys, Acceptable, HasVerified;
  }

  lemma {:induction false} KeepsJobOf(w: World, s: State, a: Action, s0: State, a0: Action)
    requires Enabled(w, s, a) && !Starts(a) && JobOf(w, s0, a0, s.job)
    requires a0.WarmStart? ==> !s.phase.Working?
    ensures JobOf(w, s0, a0, Do(w, s, a).job)
    ensures s.phase.Idle? ==> Do(w, s, a).phase.Idle?
    ensures !s.phase.Working? ==> !Do(w, s, a).phase.Working?
  {
    hide AllKeys, Acceptable, HasVerified, Active, NextWorker, StepTiles;
    if InJob(a) {
      StepKeepsTarget(w, s, a);
    }
  }

  lemma {:induction false} IdleStays(w: World, s: State, a: Action)
    requires Enabled(w, s, a) && !Starts(a) && s.phase.Idle?
    ensures Do(w, s, a).phase.Idle?
  {
    hide AllKeys, Acceptable, HasVerified, StepJob, StepTiles;
  }

  lemma {:induction false} InitIdle(s: State)
    requires Init(s)
    ensures s.phase.Idle?
  {
  }

  /** Whatever is under way was begun by one step, with that step's request. */
  lemma {:induction false} UnderWay(w: World, trace: seq<State>, steps: seq<Action>, n: nat) returns (m: nat)
    requires Path(w, trace, steps) && Init(trace[0]) && n < |trace| && !trace[n].phase.Idle?
    ensures StartedAt(steps, n, m) && JobOf(w, trace[m], steps[m], trace[n].job)
    ensures steps[m].WarmStart? ==> !trace[n].phase.Working?
  {
    hide Do, Enabled, Init, JobOf;
    if n == 0 {
      InitIdle(trace[0]);
    } else {
      var s, a := trace[n - 1], steps[n - 1];
      assert trace[n - 1 + 1] == Do(w, s, a);
      if Starts(a) {
        m := n - 1;
        StartsJob(w, s, a);
        if a.WarmStart? {
          WarmPublishes(w, s, a);
        }
      } else {
        if s.phase.Idle? {
          IdleStays(w, s, a);
        }
        m := UnderWay(w, trace, steps, n - 1);
        KeepsJobOf(w, s, a, trace[m], steps[m]);
      }
    }
  }

  lemma {:induction false} WarmPublishes(w: World, s: State, a: Action)
    requires Enabled(w, s, a) && a.WarmStart?
    ensures Do(w, s, a).phase.Publishing?
  {
    hide AllKeys, Acceptable, HasVerified, StepJob, StepTiles;
  }

  // ----- What the counters count -----

  /** Step n finds a stored tile that passes verification. */
  predicate Hits(w: World, s: State, a: Action) {
    && a.Lookup? && a.ok && a.i < |s.job.workers| && s.job.workers[a.i].Loading?
    && StoredValid(w, s.tiles, At(s.job, s.job.workers[a.i].key))
  }

  /** Step n stores a fetched tile. */
  predicate Stores(a: Action) {
    a.Put? && a.ok
  }

  function CountHits(w: World, trace: seq<State>, steps: seq<Action>, m: nat, n: nat): nat
    requires m <= n <= |steps| < |trace|
  {
    if m == n then 0 else CountHits(w, trace, steps, m, n - 1) + if Hits(w, trace[n - 1], steps[n - 1]) then 1 else 0
  }

  function CountStores(steps: seq<Action>, m: nat, n: nat): nat
    requires m <= n <= |steps|
  {
    if m == n then 0 else CountStores(steps, m, n - 1) + if Stores(steps[n - 1]) then 1 else 0
  }

  predicate Pends(x: Worker, fetched: bool) {
    x.Counting? && x.fetched == fetched
  }

  /** The workers that are about to count a key. */
  function Pending(ws: seq<Worker>, fetched: bool): nat {
    if ws == [] then 0 else (if Pends(ws[0], fetched) then 1 else 0) + Pending(ws[1..], fetched)
  }

  lemma {:induction false} UpdatePending(ws: seq<Worker>, i: nat, x: Worker, fetched: bool)
    requires i < |ws|
    ensures Pending(ws[i := x], fetched)
            == Pending(ws, fetched) + (if Pends(x, fetched) then 1 else 0) - (if Pends(ws[i], fetched) then 1 else 0)
  {
    hide Pends;
    var us := ws[i := x];
    if i == 0 {
      assert us[1..] == ws[1..];
    } else {
      assert us[1..] == ws[1..][i - 1 := x];
      UpdatePending(ws[1..], i - 1, x, fetched);
    }
  }

  lemma {:induction false} NonePending(ws: seq<Worker>, fetched: bool)
    requires forall i :: 0 <= i < |ws| ==> ws[i].Ready? || ws[i].Exited?
    ensures Pending(ws, fetched) == 0
  {
    if ws != [] {
      NonePending(ws[1..], fetched);
    }
  }

  /** A tile that may be used is one that passes: what is known to be verified does. */
  lemma {:induction false} UsableIsValid(w: World, s: State, slot: Slot)
    requires VerifiedValid(w, s) && slot in s.tiles
    ensures Usable(w, s.tiles[slot]) <==> Valid(w, s.tiles[slot].tile)
  {
    hide Valid;
  }

  lemma {:induction false} WorkerPends(w: World, s: State, a: Action)
    requires ByWorker(a) && Enabled(w, s, a) && VerifiedValid(w, s)
    ensures var x, y := s.job.workers[a.i], NextWorker(w, s, a);
            && (Pends(y, true) <==> Stores(a)) && (Pends(y, false) <==> Hits(w, s, a))
            && (x.Counting? <==> a.Advance?)
  {
    hide Usable, Valid;
    if a.Lookup? {
      var slot := At(s.job, s.job.workers[a.i].key);
      if slot in s.tiles {
        UsableIsValid(w, s, slot);
      }
    }
  }

  lemma {:induction false} WorkerTally(w: World, s: State, a: Action)
    requires ByWorker(a) && Enabled(w, s, a) && VerifiedValid(w, s)
    ensures var j, j' := s.job, StepWorker(w, s, a);
            && j'.downloaded + Pending(j'.workers, true)
               == j.downloaded + Pending(j.workers, true) + (if Stores(a) then 1 else 0)
            && j'.reused + Pending(j'.workers, false)
               == j.reused + Pending(j.workers, false) + (if Hits(w, s, a) then 1 else 0)
  {
    hide NextWorker, Pending, Hits, GivesUp, Stores;
    WorkerPends(w, s, a);
    UpdatePending(s.job.workers, a.i, NextWorker(w, s, a), true);
    UpdatePending(s.job.workers, a.i, NextWorker(w, s, a), false);
  }

  /** The counters are behind the steps by what the workers have still to count. */
  ghost predicate Tallied(w: World, trace: seq<State>, steps: seq<Action>, m: nat, n: nat)
    requires m < n <= |steps| < |trace|
  {
    var j, working := trace[n].job, trace[n].phase.Working?;
    && CountStores(steps, m + 1, n) == j.downloaded + (if working then Pending(j.workers, true) else 0)
    && CountHits(w, trace, steps, m + 1, n) == j.reused + (if working then Pending(j.workers, false) else 0)
  }

  lemma {:induction false} StartTallied(w: World, s: State, a: Action)
    requires Enabled(w, s, a) && a.Start?
    ensures var s' := Do(w, s, a);
            && s'.phase.Working? && s'.job.downloaded == s'.job.reused == 0
            && Pending(s'.job.workers, true) == Pending(s'.job.workers, false) == 0
  {
    hide AllKeys, Acceptable, Active, StepTiles, Pending, Workers;
    NonePending(Do(w, s, a).job.workers, true);
    NonePending(Do(w, s, a).job.workers, false);
  }

  /** What one step adds to the counters and to what the workers have still to count. */
  lemma {:induction false} StepTallies(w: World, s: State, a: Action)
    requires Enabled(w, s, a) && !Starts(a) && VerifiedValid(w, s) && !s.phase.Idle? && !Do(w, s, a).phase.Idle?
    ensures var s' := Do(w, s, a);
            && s'.job.downloaded + (if s'.phase.Working? then Pending(s'.job.workers, true) else 0)
               == s.job.downloaded + (if s.phase.Working? then Pending(s.job.workers, true) else 0)
                  + (if Stores(a) then 1 else 0)
            && s'.job.reused + (if s'.phase.Working? then Pending(s'.job.workers, false) else 0)
               == s.job.reused + (if s.phase.Working? then Pending(s.job.workers, false) else 0)
                  + (if Hits(w, s, a) then 1 else 0)
  {
    hide StepWorker, StepTiles, Acceptable, AllKeys, Active, HasVerified, Valid, Pending, VerifiedValid, StoredValid;
    if ByWorker(a) {
      WorkerTally(w, s, a);
    } else if a.Join? {
      NonePending(s.job.workers, true);
      NonePending(s.job.workers, false);
    }
  }

  lemma {:induction false} RunTallied(w: World, trace: seq<State>, steps: seq<Action>, m: nat, n: nat)
    requires Path(w, trace, steps) && Init(trace[0]) && n < |trace| && StartedAt(steps, n, m) && steps[m].Start?
    requires !trace[n].phase.Idle?
    ensures Tallied(w, trace, steps, m, n)
  {
    hide Do, Enabled, Init, Inv, Pending, Hits, VerifiedValid;
    var s, a := trace[n - 1], steps[n - 1];
    assert trace[n - 1 + 1] == Do(w, s, a);
    if n == m + 1 {
      StartTallied(w, s, a);
    } else {
      if s.phase.Idle? {
        IdleStays(w, s, a);
      }
      RunTallied(w, trace, steps, m, n - 1);
      RunInv(w, trace, steps, n - 1);
      assert VerifiedValid(w, s) by { InvVerified(w, s); }
      StepTallies(w, s, a);
    }
  }

  // ----- What a finished call reports and leaves behind -----

  lemma {:induction false} SyncedBy(w: World, s: State, a: Action)
    requires Inv(w, s) && Enabled(w, s, a)
    requires Do(w, s, a).outcomes != s.outcomes && Do(w, s, a).outcomes != s.outcomes + [Failed]
    ensures (s.phase.Publishing? || s.phase.Pruning?) && Do(w, s, a).outcomes == s.outcomes + [Success(s.job)]
    ensures Active(Do(w, s, a), s.job.manifest.dataset) == Some(s.job.manifest)
    ensures !Starts(a) && !Stores(a) && !Hits(w, s, a)
  {
    hide VerifiedValid, Complete, OutcomesAdd, Accounted, Excused, WorkersRight, DoneStored, Acceptable, AllKeys,
         StepTiles, StepWorker, HasVerified, Valid;
  }

  lemma {:induction false} InvSum(w: World, s: State)
    requires Inv(w, s) && (s.phase.Publishing? || s.phase.Pruning?)
    ensures s.job.downloaded + s.job.reused == |s.job.keys|
  {
    hide VerifiedValid, Complete, OutcomesAdd, Keyed, Active, MustPrune;
    if s.phase.Publishing? {
      assert DoneStored(w, s.job, s.tiles);
    }
  }

  /** The outcome of a call begun with action a in state s: the manifest is the one it was given, total counts
      the request's keys, downloaded the tiles it has stored, reused those it found stored and valid. On the
      warm path nothing is downloaded. */
  ghost predicate Reports(s: State, a: Action, stores: nat, hits: nat, o: Outcome)
    requires Starts(a) && Acceptable(a.request)
  {
    && o.Synced? && o.manifest == a.manifest
    && o.total == |AllKeys(a.request)| == o.downloaded + o.reused
    && o.downloaded == stores && (if a.Start? then o.reused == hits else stores == 0)
    && (o.wasNew <==> Active(s, a.manifest.dataset).None?
                      || Active(s, a.manifest.dataset).value.revision != a.manifest.revision)
  }

  lemma {:induction false} SuccessReports(w: World, s: State, a: Action, j: Job, hits: nat)
    requires JobOf(w, s, a, j) && j.downloaded + j.reused == |j.keys|
    requires if a.Start? then hits == j.reused else j.downloaded == 0
    ensures Reports(s, a, j.downloaded, hits, Success(j))
  {
    hide AllKeys, Acceptable;
  }

  /** A call of Sync that succeeds with step n reports what its steps since the first one, m, have done, and
      leaves the manifest it was given active. */
  lemma {:induction false} SyncedTells(w: World, trace: seq<State>, steps: seq<Action>, n: nat)
    returns (m: nat, o: Outcome)
    requires Path(w, trace, steps) && Init(trace[0]) && n < |steps|
    requires trace[n + 1].outcomes != trace[n].outcomes && trace[n + 1].outcomes != trace[n].outcomes + [Failed]
    ensures StartedAt(steps, n, m) && Acceptable(steps[m].request) && trace[n + 1].outcomes == trace[n].outcomes + [o]
    ensures Reports(trace[m], steps[m], CountStores(steps, m + 1, n), CountHits(w, trace, steps, m + 1, n), o)
    ensures Active(trace[n + 1], steps[m].manifest.dataset) == Some(steps[m].manifest)
  {
    hide Do, Enabled, Init, Inv, Hits, AllKeys, Acceptable, Reports, Active;
    var s, a := trace[n], steps[n];
    assert trace[n + 1] == Do(w, s, a);
    RunInv(w, trace, steps, n);
    SyncedBy(w, s, a);
    InvSum(w, s);
    m := UnderWay(w, trace, steps, n);
    o := Success(s.job);
    if steps[m].Start? {
      RunTallied(w, trace, steps, m, n);
    } else {
      WarmStoresNothing(w, trace, steps, m, n);
    }
    SuccessReports(w, trace[m], steps[m], s.job, CountHits(w, trace, steps, m + 1, n));
  }

  lemma {:induction false} WarmStoresNothing(w: World, trace: seq<State>, steps: seq<Action>, m: nat, n: nat)
    requires Path(w, trace, steps) && Init(trace[0]) && n < |trace| && StartedAt(steps, n, m) && steps[m].WarmStart?
    requires !trace[n].phase.Idle?
    ensures CountStores(steps, m + 1, n) == 0 && !trace[n].phase.Working?
  {
    hide Do, Enabled, Init;
    var s, a := trace[n - 1], steps[n - 1];
    assert trace[n - 1 + 1] == Do(w, s, a);
    if n == m + 1 {
      WarmPublishes(w, s, a);
    } else {
      if s.phase.Idle? {
        IdleStays(w, s, a);
      }
      WarmStoresNothing(w, trace, steps, m, n - 1);
      NoWorkNoStores(w, s, a);
    }
  }

  lemma {:induction false} NoWorkNoStores(w: World, s: State, a: Action)
    requires Enabled(w, s, a) && !Starts(a) && !s.phase.Working?
    ensures !Stores(a) && !Do(w, s, a).phase.Working?
  {
    hide AllKeys, Acceptable, HasVerified, StepJob, StepTiles;
  }

  // ----- When a call fails -----

  /** Something goes wrong: the caller cancels, the store or the fetcher fails, or a tile does not pass. */
  predicate Disturbs(w: World, s: State, a: Action) {
    match a
    case Cancel => true
    case Lookup(i, ok) =>
      i < |s.job.workers| && s.job.workers[i].Loading? &&
      var slot := At(s.job, s.job.workers[i].key);
      !ok || (slot in s.tiles && !Valid(w, s.tiles[slot].tile))
    case Fetch(_, got) => got.None? || !Valid(w, got.value)
    case Put(_, ok) => !ok
    case Publish(ok) => !ok
    case _ => false
  }

  lemma {:induction false} WorkerUndisturbed(w: World, s: State, a: Action)
    requires ByWorker(a) && Enabled(w, s, a) && VerifiedValid(w, s) && !Disturbs(w, s, a) && !WorkCancelled(s.job)
    ensures !GivesUp(w, s, a)
  {
    hide Valid, Usable;
    if a.Lookup? {
      var slot := At(s.job, s.job.workers[a.i].key);
      if slot in s.tiles {
        UsableIsValid(w, s, slot);
      }
    }
  }

  lemma {:induction false} StepUndisturbed(w: World, s: State, a: Action)
    requires Enabled(w, s, a) && !Starts(a) && VerifiedValid(w, s) && !Disturbs(w, s, a) && !s.phase.Idle?
    requires s.phase.Working? ==> !WorkCancelled(s.job) && !s.job.stopped
    ensures var s' := Do(w, s, a);
            && (s'.phase.Working? ==> !WorkCancelled(s'.job) && !s'.job.stopped)
            && (s'.outcomes == s.outcomes || s'.outcomes == s.outcomes + [Success(s.job)])
  {
    hide StepTiles, NextWorker, Acceptable, AllKeys, Active, HasVerified, Valid, Disturbs, VerifiedValid, GivesUp;
    if ByWorker(a) {
      WorkerUndisturbed(w, s, a);
    } else if a.Publish? || a.Cancel? {
      assert !a.Cancel? && (a.Publish? ==> a.ok) by { PublishUndisturbed(w, s, a); }
    }
  }

  lemma {:induction false} PublishUndisturbed(w: World, s: State, a: Action)
    requires !Disturbs(w, s, a)
    ensures !a.Cancel? && (a.Publish? ==> a.ok)
  {
  }

  lemma {:induction false} FreshStart(w: World, s: State, a: Action)
    requires Enabled(w, s, a) && Starts(a)
    ensures var s' := Do(w, s, a);
            s'.outcomes == s.outcomes && (s'.phase.Working? ==> !WorkCancelled(s'.job) && !s'.job.stopped)
  {
    hide AllKeys, Acceptable, HasVerified, Active, Workers;
  }

  /** As long as nothing has gone wrong since it began, a call does not fail. */
  lemma {:induction false} UndisturbedSucceeds(w: World, trace: seq<State>, steps: seq<Action>, m: nat, n: nat)
    requires Path(w, trace, steps) && Init(trace[0]) && n < |trace| && StartedAt(steps, n, m)
    requires forall i :: m < i < n ==> !trace[i].phase.Idle? && !Disturbs(w, trace[i], steps[i])
    ensures trace[n].phase.Working? ==> !WorkCancelled(trace[n].job) && !trace[n].job.stopped
    ensures n > m + 1 ==> trace[n].outcomes == trace[n - 1].outcomes
                          || trace[n].outcomes == trace[n - 1].outcomes + [Success(trace[n - 1].job)]
  {
    hide Do, Enabled, Init, Inv, Disturbs, VerifiedValid;
    var s, a := trace[n - 1], steps[n - 1];
    assert trace[n - 1 + 1] == Do(w, s, a);
    if n == m + 1 {
      FreshStart(w, s, a);
    } else {
      UndisturbedSucceeds(w, trace, steps, m, n - 1);
      RunInv(w, trace, steps, n - 1);
      assert VerifiedValid(w, s) by { InvVerified(w, s); }
      StepUndisturbed(w, s, a);
    }
  }

  // ----- What is stored is what was fetched -----

  /** Worker i got the tile with a fetch for the key at step m, and has not moved since. */
  predicate FetchedAt(trace: seq<State>, steps: seq<Action>, n: nat, i: nat, k: TileKey, t: Tile, m: nat) {
    && m < n <= |steps| < |trace| && steps[m] == Fetch(i, Some(t))
    && i < |trace[m].job.workers| && trace[m].job.workers[i] == Fetching(k)
    && forall l :: m < l < n ==> !(ByWorker(steps[l]) && steps[l].i == i)
  }

  lemma {:induction false} NextPuts(w: World, s: State, a: Action)
    requires ByWorker(a) && Enabled(w, s, a) && NextWorker(w, s, a).Putting?
    ensures var x, y := s.job.workers[a.i], NextWorker(w, s, a);
            a.Fetch? && a == Fetch(a.i, Some(y.tile)) && x == Fetching(y.key)
  {
    hide Usable, Valid;
  }

  lemma {:induction false} WorkerWorkers(w: World, s: State, a: Action)
    requires ByWorker(a) && Enabled(w, s, a)
    ensures StepWorker(w, s, a).workers == s.job.workers[a.i := NextWorker(w, s, a)]
  {
    hide NextWorker;
  }

  lemma {:induction false} JobWorkers(w: World, s: State, a: Action)
    requires Enabled(w, s, a)
    ensures var ws := StepJob(w, s, a).workers;
            if ByWorker(a) then ws == s.job.workers[a.i := NextWorker(w, s, a)]
            else if Starts(a) then forall i :: 0 <= i < |ws| ==> ws[i].Ready?
            else ws == s.job.workers
  {
    hide AllKeys, Acceptable, HasVerified, Active, Workers, NextWorker, StepWorker;
    if ByWorker(a) {
      WorkerWorkers(w, s, a);
    }
  }

  lemma {:induction false} WorkingBefore(w: World, s: State, a: Action)
    requires Enabled(w, s, a) && Do(w, s, a).phase.Working?
    ensures (s.phase.Working? || Starts(a)) && Do(w, s, a).job == StepJob(w, s, a)
  {
    hide StepJob, StepTiles, Acceptable, AllKeys, HasVerified, Active;
  }

  lemma {:induction false} WorkersAfter(w: World, s: State, a: Action, i: nat)
    requires Enabled(w, s, a) && Do(w, s, a).phase.Working? && i < |Do(w, s, a).job.workers|
    requires Do(w, s, a).job.workers[i].Putting?
    ensures s.phase.Working? && i < |s.job.workers|
    ensures if ByWorker(a) && a.i == i then Do(w, s, a).job.workers[i] == NextWorker(w, s, a)
            else Do(w, s, a).job.workers[i] == s.job.workers[i]
  {
    hide Do, StepJob, NextWorker, StepTiles, Acceptable, AllKeys, HasVerified, Active, Valid;
    WorkingBefore(w, s, a);
    JobWorkers(w, s, a);
  }

  lemma {:induction false} FetchedBefore(w: World, trace: seq<State>, steps: seq<Action>, n: nat, i: nat)
    returns (m: nat)
    requires Path(w, trace, steps) && Init(trace[0]) && n < |trace| && trace[n].phase.Working?
    requires i < |trace[n].job.workers| && trace[n].job.workers[i].Putting?
    ensures var x := trace[n].job.workers[i]; FetchedAt(trace, steps, n, i, x.key, x.tile, m)
  {
    hide Do, Enabled, Init;
    if n == 0 {
      InitIdle(trace[0]);
    } else {
      var s, a := trace[n - 1], steps[n - 1];
      assert trace[n - 1 + 1] == Do(w, s, a);
      WorkersAfter(w, s, a, i);
      if ByWorker(a) && a.i == i {
        NextPuts(w, s, a);
        m := n - 1;
      } else {
        m := FetchedBefore(w, trace, steps, n - 1, i);
      }
    }
  }

  /** A tile that is stored for a key is exactly the one that was fetched for that key, under the manifest's
      revision, and nothing else in the store changes. */
  lemma {:induction false} StoresWhatWasFetched(w: World, trace: seq<State>, steps: seq<Action>, n: nat)
    returns (m: nat, k: TileKey, t: Tile)
    requires Path(w, trace, steps) && Init(trace[0]) && n < |steps| && Stores(steps[n])
    ensures FetchedAt(trace, steps, n, steps[n].i, k, t, m)
    ensures var slot := Slot(trace[n].job.manifest.dataset, trace[n].job.manifest.revision, k);
            trace[n + 1].tiles == trace[n].tiles[slot := StoredTile(t, w.exact || t.checksum == "")]
  {
    hide Init;
    m := FetchedBefore(w, trace, steps, n, steps[n].i);
    k, t := trace[n].job.workers[steps[n].i].key, trace[n].job.workers[steps[n].i].tile;
  }

  // ----- Pruning -----

  /** Only a call that was asked to prunes, and it deletes exactly the tiles of the revision that was active
      before it and is no longer; if deleting fails it deletes nothing. */
  lemma {:induction false} PrunesPrevious(w: World, trace: seq<State>, steps: seq<Action>, n: nat) returns (m: nat)
    requires Path(w, trace, steps) && Init(trace[0]) && n < |steps| && steps[n].Prune?
    ensures StartedAt(steps, n, m) && steps[m].prune
    ensures var d := steps[m].manifest.dataset;
            && d in trace[m].manifests && trace[m].manifests[d].revision != steps[m].manifest.revision
            && forall slot :: slot in trace[n + 1].tiles <==>
                 slot in trace[n].tiles
                 && !(steps[n].ok && slot.dataset == d && slot.revision == trace[m].manifests[d].revision)
  {
    hide Enabled, Init, Inv, JobOf, Do;
    var s, a := trace[n], steps[n];
    assert trace[n + 1] == Do(w, s, a);
    assert s.phase.Pruning? by { PruneWhen(w, s, a); }
    RunInv(w, trace, steps, n);
    m := UnderWay(w, trace, steps, n);
    PruneWhat(w, s, a, trace[m], steps[m]);
  }

  lemma {:induction false} PruneWhen(w: World, s: State, a: Action)
    requires Enabled(w, s, a) && a.Prune?
    ensures s.phase.Pruning?
  {
  }

  lemma {:induction false} PruneWhat(w: World, s: State, a: Action, s0: State, a0: Action)
    requires Enabled(w, s, a) && a.Prune? && Inv(w, s) && JobOf(w, s0, a0, s.job)
    ensures a0.prune
    ensures var d := a0.manifest.dataset;
            && d in s0.manifests && s0.manifests[d].revision != a0.manifest.revision
            && forall slot :: slot in Do(w, s, a).tiles <==>
                 slot in s.tiles && !(a.ok && slot.dataset == d && slot.revision == s0.manifests[d].revision)
  {
    hide VerifiedValid, Complete, OutcomesAdd, AllKeys, Acceptable, Keyed;
  }

  // ----- A second call downloads nothing -----

  lemma {:induction false} StepVerified(w: World, s: State, a: Action)
    requires Enabled(w, s, a) && w.exact && !a.External?
    requires forall slot :: slot in s.tiles ==> s.tiles[slot].verified
    ensures forall slot :: slot in StepTiles(w, s, a) ==> StepTiles(w, s, a)[slot].verified
  {
    hide AllKeys, Acceptable, HasVerified, Active;
  }

  lemma {:induction false} StepTakesTiles(w: World, s: State, a: Action)
    requires Enabled(w, s, a)
    ensures Do(w, s, a).tiles == StepTiles(w, s, a)
  {
    hide AllKeys, Acceptable, HasVerified, Active, StepTiles, StepJob;
  }

  lemma {:induction false} OwnTilesVerified(w: World, trace: seq<State>, steps: seq<Action>, n: nat)
    requires Path(w, trace, steps) && Init(trace[0]) && n < |trace| && w.exact
    requires forall i :: 0 <= i < n ==> !steps[i].External?
    ensures forall slot :: slot in trace[n].tiles ==> trace[n].tiles[slot].verified
  {
    hide Do, Enabled, StepTiles;
    if n > 0 {
      OwnTilesVerified(w, trace, steps, n - 1);
      assert trace[n - 1 + 1] == Do(w, trace[n - 1], steps[n - 1]);
      StepVerified(w, trace[n - 1], steps[n - 1]);
      StepTakesTiles(w, trace[n - 1], steps[n - 1]);
    }
  }

  /** The keys of the call under way are those its dataset was last published with. */
  ghost predicate JobCommitted(s: State) {
    var d := s.job.manifest.dataset;
    d in s.committed && s.committed[d] == s.job.keys
  }

  lemma {:induction false} PublishCommits(w: World, s: State, a: Action)
    requires Enabled(w, s, a) && Do(w, s, a).phase.Pruning?
    ensures JobCommitted(Do(w, s, a))
  {
    hide AllKeys, Acceptable, HasVerified, Active, StepTiles, MustPut, MustPrune, NextWorker, GivesUp;
  }

  lemma {:induction false} PruningCommitted(w: World, trace: seq<State>, steps: seq<Action>, n: nat)
    requires Path(w, trace, steps) && Init(trace[0]) && n < |trace| && trace[n].phase.Pruning?
    ensures JobCommitted(trace[n])
  {
    hide Do, Enabled, Init, JobCommitted;
    if n == 0 {
      InitIdle(trace[0]);
    } else {
      assert trace[n - 1 + 1] == Do(w, trace[n - 1], steps[n - 1]);
      PublishCommits(w, trace[n - 1], steps[n - 1]);
    }
  }

  lemma {:induction false} SuccessCommits(w: World, s: State, a: Action)
    requires Inv(w, s) && Enabled(w, s, a) && (s.phase.Pruning? ==> JobCommitted(s))
    requires Do(w, s, a).outcomes == s.outcomes + [Success(s.job)]
    ensures var d, s' := s.job.manifest.dataset, Do(w, s, a);
            s'.phase.Idle? && d in s'.committed && s'.committed[d] == s.job.keys
  {
    hide Inv, AllKeys, Acceptable, HasVerified, Active, StepTiles, StepJob, MustPut;
    var os := Do(w, s, a).outcomes;
    assert |os| == |s.outcomes| + 1 && os[|s.outcomes|] == Success(s.job);
  }

  lemma {:induction false} JobIsItsCall(w: World, s: State, a: Action, j: Job)
    requires JobOf(w, s, a, j)
    ensures j.keys == AllKeys(a.request) && j.manifest == a.manifest
  {
    hide AllKeys, Acceptable;
  }

  lemma {:induction false} ActiveAt(s: State, d: string)
    ensures Active(s, d) == if d in s.manifests then Some(s.manifests[d]) else None
  {
  }

  lemma {:induction false} StartedOnce(steps: seq<Action>, n: nat, m: nat, m': nat)
    requires StartedAt(steps, n, m) && StartedAt(steps, n, m')
    ensures m == m'
  {
  }

  /** In a MemoryStore that nobody else writes to, a call that has succeeded leaves everything ready for the
      warm path of any call for some of the same keys and the same revision, which then downloads nothing. */
  lemma {:induction false} WarmAgain(w: World, trace: seq<State>, steps: seq<Action>, n: nat, m: nat,
                                     r: SyncRequest, manifest: Manifest, prune: bool)
    requires Path(w, trace, steps) && Init(trace[0]) && n < |steps| && StartedAt(steps, n, m)
    requires trace[n + 1].outcomes != trace[n].outcomes && trace[n + 1].outcomes != trace[n].outcomes + [Failed]
    requires w.exact && forall i :: 0 <= i <= n ==> !steps[i].External?
    requires Acceptable(steps[m].request) && Acceptable(r) && (r.dataset == "" || r.dataset == manifest.dataset)
    requires manifest.dataset == steps[m].manifest.dataset && manifest.revision == steps[m].manifest.revision
    requires forall i :: 0 <= i < |AllKeys(r)| ==> AllKeys(r)[i] in AllKeys(steps[m].request)
    ensures Enabled(w, trace[n + 1], WarmStart(r, manifest, prune))
  {
    hide Do, Init, Inv, AllKeys, WellFormed, Distinct, JobOf, Active, Success;
    var s, a, s' := trace[n], steps[n], trace[n + 1];
    var keys, d := AllKeys(steps[m].request), manifest.dataset;
    assert s' == Do(w, s, a);
    RunInv(w, trace, steps, n);
    SyncedBy(w, s, a);
    if s.phase.Pruning? {
      PruningCommitted(w, trace, steps, n);
    }
    SuccessCommits(w, s, a);
    assert s.job.keys == keys && s.job.manifest == steps[m].manifest by {
      var started := UnderWay(w, trace, steps, n);
      StartedOnce(steps, n, started, m);
      JobIsItsCall(w, trace[m], steps[m], s.job);
    }
    ActiveStaysComplete(w, trace, steps, n + 1, d);
    OwnTilesVerified(w, trace, steps, n + 1);
    ActiveAt(s', d);
    forall i | 0 <= i < |AllKeys(r)| ensures HasVerified(s', Slot(d, manifest.revision, AllKeys(r)[i])) {
      assert AllKeys(r)[i] in keys;
    }
  }
}
