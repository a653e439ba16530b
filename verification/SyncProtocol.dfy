/** Offline synchronization (offline/sync.go over offline/memory.go): a producer, any number of workers,
    failures and cancellation as interleaved steps, then publication and pruning; and any number of such
    runs over one store. */
module SyncProtocol {
  import opened Bits
  import opened Options
  import opened TileRequest
  import Checksum

  datatype Manifest = Manifest(dataset: string, revision: string, rest: string)

  datatype Tile = Tile(data: Bytes, checksum: string)

  datatype Slot = Slot(dataset: string, revision: string, key: TileKey)

  /** verified: checked before it was stored, or without a checksum to check. */
  datatype StoredTile = StoredTile(tile: Tile, verified: bool)

  /** exact: the store is a MemoryStore itself and not a wrapper of one. trusted: the fetcher verifies
      what it returns. */
  datatype World = World(digest: Bytes -> Checksum.Digest, exact: bool, trusted: bool)

  /** What verifyTile accepts. */
  predicate Valid(w: World, t: Tile) {
    Checksum.Passes(w.digest(t.data), t.checksum)
  }

  datatype Worker =
    | Ready
    | Got(key: TileKey)
    | Loading(key: TileKey)
    | Fetching(key: TileKey)
    | Putting(key: TileKey, tile: Tile)
    | Counting(key: TileKey, fetched: bool)
    | Exited

  /** One call of Sync at work. The counters downloaded and reused are the program's; done and dropped
      only record which keys were counted and which were given up. */
  datatype Job = Job(keys: seq<TileKey>, manifest: Manifest, previous: Option<Manifest>, prune: bool,
                     next: nat, jobs: seq<TileKey>, closed: bool, stopped: bool, workers: seq<Worker>,
                     failed: bool, cancelled: bool, downloaded: nat, reused: nat,
                     done: multiset<TileKey>, dropped: multiset<TileKey>)

  datatype Phase = Idle | Working | Publishing | Pruning

  datatype Outcome = Failed | Synced(manifest: Manifest, total: nat, downloaded: nat, reused: nat, wasNew: bool)

  /** committed records, for each dataset, the keys of the run that last published a manifest for it. */
  datatype State = State(manifests: map<string, Manifest>, tiles: map<Slot, StoredTile>, phase: Phase, job: Job,
                         outcomes: seq<Outcome>, committed: map<string, seq<TileKey>>)

  function Active(s: State, dataset: string): Option<Manifest> {
    if dataset in s.manifests then Some(s.manifests[dataset]) else None
  }

  function At(j: Job, k: TileKey): Slot {
    Slot(j.manifest.dataset, j.manifest.revision, k)
  }

  predicate WorkCancelled(j: Job) {
    j.failed || j.cancelled
  }

  // ----- The steps -----

  datatype Action =
    | Reject
    | Start(request: SyncRequest, manifest: Manifest, prune: bool)
    | WarmStart(request: SyncRequest, manifest: Manifest, prune: bool)
    | Produce
    | StopProducing
    | CloseJobs
    | Receive(i: nat)
    | Begin(i: nat)
    | Lookup(i: nat, ok: bool)
    | Fetch(i: nat, got: Option<Tile>)
    | Put(i: nat, ok: bool)
    | Advance(i: nat)
    | Exit(i: nat)
    | Cancel
    | Join
    | Publish(ok: bool)
    | Prune(ok: bool)
    | External(slot: Slot, tile: Tile)

  const DEFAULT_CONCURRENCY := 4

  function WorkerCount(r: SyncRequest): int {
    if r.concurrency > 0 then r.concurrency else DEFAULT_CONCURRENCY
  }

  function Workers(r: SyncRequest): nat
    requires Acceptable(r)
  {
    var total := |AllKeys(r)|;
    if WorkerCount(r) < total then WorkerCount(r) else total
  }

  predicate ByWorker(a: Action) {
    a.Receive? || a.Begin? || a.Lookup? || a.Fetch? || a.Put? || a.Advance? || a.Exit?
  }

  ghost predicate Enabled(w: World, s: State, a: Action) {
    var j := s.job;
    (ByWorker(a) ==> s.phase.Working? && a.i < |j.workers|) &&
    match a
    case Reject => s.phase.Idle?
    case Start(r, m, _) => s.phase.Idle? && Acceptable(r) && AsksFor(r, m)
    case WarmStart(r, m, _) =>
      && s.phase.Idle? && Acceptable(r) && AsksFor(r, m) && w.exact
      && Active(s, m.dataset).Some? && Active(s, m.dataset).value.revision == m.revision
      && forall i :: 0 <= i < |AllKeys(r)| ==> HasVerified(s, Slot(m.dataset, m.revision, AllKeys(r)[i]))
    case Produce => s.phase.Working? && !j.stopped && !j.closed && j.next < |j.keys| && |j.jobs| < 2 * |j.workers|
    case StopProducing => s.phase.Working? && !j.stopped && !j.closed && j.next < |j.keys| && WorkCancelled(j)
    case CloseJobs => s.phase.Working? && !j.closed && (j.stopped || j.next == |j.keys|)
    case Receive(i) => j.workers[i].Ready? && j.jobs != []
    case Begin(i) => j.workers[i].Got?
    case Lookup(i, _) => j.workers[i].Loading?
    case Fetch(i, got) => j.workers[i].Fetching? && (w.trusted && got.Some? ==> Valid(w, got.value))
    case Put(i, _) => j.workers[i].Putting?
    case Advance(i) => j.workers[i].Counting?
    case Exit(i) => j.workers[i].Ready? && j.closed && j.jobs == []
    case Cancel => s.phase.Working? && !j.cancelled
    case Join => s.phase.Working? && j.closed && forall i :: 0 <= i < |j.workers| ==> j.workers[i].Exited?
    case Publish(_) => s.phase.Publishing?
    case Prune(_) => s.phase.Pruning?
    case External(_, _) => s.phase.Idle?
  }

  /** The manifest is that of the dataset asked for, if one was. */
  predicate AsksFor(r: SyncRequest, m: Manifest) {
    r.dataset == "" || r.dataset == m.dataset
  }

  predicate HasVerified(s: State, slot: Slot) {
    slot in s.tiles && s.tiles[slot].verified
  }

  function NewJob(s: State, r: SyncRequest, m: Manifest, prune: bool, workers: seq<Worker>, reused: nat,
                  done: multiset<TileKey>): Job
    requires Acceptable(r)
  {
    Job(AllKeys(r), m, Active(s, m.dataset), prune, 0, [], false, false, workers, false, false, 0, reused, done,
        multiset{})
  }

  /** A stored tile may be used at once when it is known to be verified, and otherwise if it passes now. */
  predicate Usable(w: World, t: StoredTile) {
    (w.exact && t.verified) || Valid(w, t.tile)
  }

  /** The worker that takes a step, after it. */
  ghost function NextWorker(w: World, s: State, a: Action): Worker
    requires ByWorker(a) && Enabled(w, s, a)
  {
    var j, x := s.job, s.job.workers[a.i];
    match a
    case Receive(_) => Got(j.jobs[0])
    case Begin(_) => if WorkCancelled(j) then Exited else Loading(x.key)
    case Lookup(_, ok) =>
      if !ok then Exited
      else if At(j, x.key) !in s.tiles then Fetching(x.key)
      else if Usable(w, s.tiles[At(j, x.key)]) then Counting(x.key, false)
      else Exited
    case Fetch(_, got) =>
      if got.Some? && (w.trusted || Valid(w, got.value)) then Putting(x.key, got.value) else Exited
    case Put(_, ok) => if ok then Counting(x.key, true) else Exited
    case Advance(_) => Ready
    case Exit(_) => Exited
  }

  /** The worker leaves with a key it has not finished. */
  ghost predicate GivesUp(w: World, s: State, a: Action)
    requires ByWorker(a) && Enabled(w, s, a)
  {
    !a.Exit? && NextWorker(w, s, a).Exited?
  }

  /** fail: any error but finding the work cancelled; it cancels the others. */
  ghost function StepWorker(w: World, s: State, a: Action): Job
    requires ByWorker(a) && Enabled(w, s, a)
  {
    var j, x := s.job, s.job.workers[a.i];
    j.(workers := j.workers[a.i := NextWorker(w, s, a)],
       jobs := if a.Receive? then j.jobs[1..] else j.jobs,
       failed := j.failed || (GivesUp(w, s, a) && !a.Begin?),
       dropped := if GivesUp(w, s, a) then j.dropped + multiset{x.key} else j.dropped,
       done := if a.Advance? then j.done + multiset{x.key} else j.done,
       downloaded := if a.Advance? && x.fetched then j.downloaded + 1 else j.downloaded,
       reused := if a.Advance? && !x.fetched then j.reused + 1 else j.reused)
  }

  ghost function StepJob(w: World, s: State, a: Action): Job
    requires Enabled(w, s, a)
  {
    var j := s.job;
    if ByWorker(a) then StepWorker(w, s, a)
    else
      match a
      case Start(r, m, prune) => NewJob(s, r, m, prune, seq(Workers(r), _ => Ready), 0, multiset{})
      case WarmStart(r, m, prune) => NewJob(s, r, m, prune, [], |AllKeys(r)|, multiset(AllKeys(r)))
      case Produce => j.(jobs := j.jobs + [j.keys[j.next]], next := j.next + 1)
      case StopProducing => j.(stopped := true)
      case CloseJobs => j.(closed := true)
      case Cancel => j.(cancelled := true)
      case _ => j
  }

  predicate OfRevision(slot: Slot, m: Manifest) {
    slot.dataset == m.dataset && slot.revision == m.revision
  }

  /** putVerifiedTile of the exact store, or PutTile of a wrapper. */
  function StepTiles(w: World, s: State, a: Action): map<Slot, StoredTile>
    requires a.Put? ==> a.i < |s.job.workers| && s.job.workers[a.i].Putting?
  {
    var j := s.job;
    match a
    case Put(i, ok) =>
      var x := j.workers[i];
      if ok then s.tiles[At(j, x.key) := StoredTile(x.tile, w.exact || x.tile.checksum == "")] else s.tiles
    case Prune(ok) =>
      if ok && j.previous.Some? then
        map slot | slot in s.tiles && !OfRevision(slot, j.previous.value) :: s.tiles[slot]
      else s.tiles
    case External(slot, tile) => s.tiles[slot := StoredTile(tile, tile.checksum == "")]
    case _ => s.tiles
  }

  predicate MustPut(w: World, j: Job) {
    j.previous.None? || j.previous.value != j.manifest || !w.exact
  }

  predicate MustPrune(j: Job) {
    j.prune && j.previous.Some? && j.previous.value.revision != j.manifest.revision
  }

  function Success(j: Job): Outcome {
    Synced(j.manifest, |j.keys|, j.downloaded, j.reused,
           j.previous.None? || j.previous.value.revision != j.manifest.revision)
  }

  function End(s: State, o: Outcome): State {
    s.(phase := Idle, outcomes := s.outcomes + [o])
  }

  ghost function Do(w: World, s: State, a: Action): State
    requires Enabled(w, s, a)
  {
    var s' := s.(job := StepJob(w, s, a), tiles := StepTiles(w, s, a));
    match a
    case Reject => End(s', Failed)
    case Start(_, _, _) => s'.(phase := Working)
    case WarmStart(_, _, _) => s'.(phase := Publishing)
    case Join => if s.job.failed || s.job.stopped || s.job.cancelled then End(s', Failed) else s'.(phase := Publishing)
    case Publish(ok) =>
      if MustPut(w, s.job) && !ok then End(s', Failed)
      else
        var d := s.job.manifest.dataset;
        var p := s'.(manifests := if MustPut(w, s.job) then s.manifests[d := s.job.manifest] else s.manifests,
                     committed := s.committed[d := s.job.keys]);
        if MustPrune(s.job) then p.(phase := Pruning) else End(p, Success(s.job))
    case Prune(_) => End(s', Success(s.job))
    case _ => s'
  }

  // ----- The invariant -----

  predicate Holds(x: Worker, k: TileKey) {
    !x.Ready? && !x.Exited? && x.key == k
  }

  function CountHolding(ws: seq<Worker>, k: TileKey): nat {
    if ws == [] then 0 else (if Holds(ws[0], k) then 1 else 0) + CountHolding(ws[1..], k)
  }

  predicate StoredValid(w: World, tiles: map<Slot, StoredTile>, slot: Slot) {
    slot in tiles && Valid(w, tiles[slot].tile)
  }

  /** Where a key sent by the producer is: counted, given up, in the channel or with a worker. */
  function Places(j: Job, k: TileKey): nat {
    j.done[k] + j.dropped[k] + multiset(j.jobs)[k] + CountHolding(j.workers, k)
  }

  ghost predicate Accounted(j: Job) {
    j.next <= |j.keys| && forall k :: multiset(j.keys[..j.next])[k] == Places(j, k)
  }

  /** Keys are given up, or never sent, only when the run has failed or is cancelled. */
  ghost predicate Excused(j: Job) {
    && (j.dropped != multiset{} || j.stopped ==> WorkCancelled(j))
    && (j.closed && !j.stopped ==> j.next == |j.keys|)
    && (j.workers == [] ==> j.keys == [])
    && forall i :: 0 <= i < |j.workers| && j.workers[i].Exited? ==> WorkCancelled(j) || (j.closed && j.jobs == [])
  }

  ghost predicate WorkersRight(w: World, j: Job, tiles: map<Slot, StoredTile>) {
    forall i :: 0 <= i < |j.workers| ==> WorkerRight(w, j, tiles, j.workers[i])
  }

  predicate WorkerRight(w: World, j: Job, tiles: map<Slot, StoredTile>, x: Worker) {
    && (x.Putting? ==> Valid(w, x.tile))
    && (x.Counting? ==> StoredValid(w, tiles, At(j, x.key)))
  }

  /** What has been counted is stored and passes verification. */
  ghost predicate DoneStored(w: World, j: Job, tiles: map<Slot, StoredTile>) {
    && j.downloaded + j.reused == |j.done|
    && forall k :: k in j.done ==> StoredValid(w, tiles, At(j, k))
  }

  ghost predicate JobInv(w: World, s: State) {
    var j := s.job;
    match s.phase
    case Idle => true
    case Working =>
      && j.previous == Active(s, j.manifest.dataset)
      && Accounted(j) && Excused(j) && WorkersRight(w, j, s.tiles) && DoneStored(w, j, s.tiles)
    case Publishing =>
      && j.previous == Active(s, j.manifest.dataset)
      && j.done == multiset(j.keys) && DoneStored(w, j, s.tiles)
    case Pruning =>
      && Active(s, j.manifest.dataset) == Some(j.manifest) && MustPrune(j)
      && j.previous.value.dataset == j.manifest.dataset
      && j.downloaded + j.reused == |j.keys|
  }

  ghost predicate Keyed(s: State) {
    forall d :: d in s.manifests ==> s.manifests[d].dataset == d
  }

  ghost predicate VerifiedValid(w: World, s: State) {
    forall slot :: slot in s.tiles && s.tiles[slot].verified ==> Valid(w, s.tiles[slot].tile)
  }

  /** Everything the active revision was published with is still there. */
  ghost predicate Covered(s: State, d: string)
    requires d in s.committed
  {
    d in s.manifests && forall k :: k in s.committed[d] ==> Slot(d, s.manifests[d].revision, k) in s.tiles
  }

  ghost predicate Complete(s: State) {
    forall d :: d in s.committed ==> Covered(s, d)
  }

  predicate Adds(o: Outcome) {
    o.Synced? ==> o.downloaded + o.reused == o.total
  }

  ghost predicate OutcomesAdd(s: State) {
    forall i :: 0 <= i < |s.outcomes| ==> Adds(s.outcomes[i])
  }

  ghost predicate Inv(w: World, s: State) {
    Keyed(s) && VerifiedValid(w, s) && Complete(s) && OutcomesAdd(s) && JobInv(w, s)
  }

  ghost predicate Init(s: State) {
    s.manifests == map[] && s.tiles == map[] && s.phase.Idle? && s.outcomes == [] && s.committed == map[]
  }

  // ----- Every step keeps it -----

  lemma {:induction false} UpdateHolding(ws: seq<Worker>, i: nat, x: Worker, k: TileKey)
    requires i < |ws|
    ensures CountHolding(ws[i := x], k)
            == CountHolding(ws, k) + (if Holds(x, k) then 1 else 0) - (if Holds(ws[i], k) then 1 else 0)
  {
    hide Holds;
    var us := ws[i := x];
    if i == 0 {
      assert us[1..] == ws[1..];
    } else {
      assert us[1..] == ws[1..][i - 1 := x];
      UpdateHolding(ws[1..], i - 1, x, k);
    }
  }

  lemma {:induction false} NoneHold(ws: seq<Worker>, k: TileKey)
    requires forall i :: 0 <= i < |ws| ==> ws[i].Ready? || ws[i].Exited?
    ensures CountHolding(ws, k) == 0
  {
    if ws != [] {
      NoneHold(ws[1..], k);
    }
  }

  /** The steps of the producer and the workers, up to Join. */
  predicate InJob(a: Action) {
    ByWorker(a) || a.Produce? || a.StopProducing? || a.CloseJobs? || a.Cancel?
  }

  /** A worker keeps its key until it is counted or given up. */
  lemma {:induction false} NextHolds(w: World, s: State, a: Action, k: TileKey)
    requires ByWorker(a) && Enabled(w, s, a)
    ensures var x, y := s.job.workers[a.i], NextWorker(w, s, a);
            && (a.Receive? ==> !Holds(x, k) && (Holds(y, k) <==> s.job.jobs[0] == k))
            && (a.Exit? ==> !Holds(x, k) && !Holds(y, k))
            && (a.Advance? ==> (Holds(x, k) <==> x.key == k) && !Holds(y, k))
            && (GivesUp(w, s, a) ==> !x.Ready? && !x.Exited? && (Holds(x, k) <==> x.key == k) && !Holds(y, k))
            && (!a.Receive? && !a.Exit? && !a.Advance? && !GivesUp(w, s, a) ==> (Holds(x, k) <==> Holds(y, k)))
  {
    hide Usable, Valid;
  }

  lemma {:induction false} WorkerPlaces(w: World, s: State, a: Action, k: TileKey)
    requires ByWorker(a) && Enabled(w, s, a)
    ensures Places(StepWorker(w, s, a), k) == Places(s.job, k)
  {
    NextHolds(w, s, a, k);
    hide CountHolding, NextWorker, Holds;
    var j, j' := s.job, StepWorker(w, s, a);
    UpdateHolding(j.workers, a.i, NextWorker(w, s, a), k);
    JobsPlaces(j, j', a, k);
    DonePlaces(w, s, a, k);
  }

  lemma {:induction false} JobsPlaces(j: Job, j': Job, a: Action, k: TileKey)
    requires a.Receive? ==> j.jobs != []
    requires j'.jobs == if a.Receive? then j.jobs[1..] else j.jobs
    ensures multiset(j'.jobs)[k] == multiset(j.jobs)[k] - if a.Receive? && j.jobs[0] == k then 1 else 0
  {
    if a.Receive? {
      assert j.jobs == [j.jobs[0]] + j.jobs[1..];
    }
  }

  lemma {:induction false} DonePlaces(w: World, s: State, a: Action, k: TileKey)
    requires ByWorker(a) && Enabled(w, s, a)
    ensures var x, j' := s.job.workers[a.i], StepWorker(w, s, a);
            && (a.Advance? || GivesUp(w, s, a) ==> !x.Ready? && !x.Exited?)
            && j'.done[k] + j'.dropped[k] == s.job.done[k] + s.job.dropped[k]
                 + (if (a.Advance? || GivesUp(w, s, a)) && x.key == k then 1 else 0)
  {
    NextHolds(w, s, a, k);
    hide NextWorker, CountHolding;
  }

  lemma {:induction false} KeepsAccounted(w: World, s: State, a: Action)
    requires s.phase.Working? && Enabled(w, s, a) && InJob(a) && Accounted(s.job)
    ensures Accounted(StepJob(w, s, a))
  {
    hide CountHolding, StepWorker, NextWorker;
    var j, j' := s.job, StepJob(w, s, a);
    StepKeepsTarget(w, s, a);
    forall k ensures multiset(j'.keys[..j'.next])[k] == Places(j', k) {
      if ByWorker(a) {
        WorkerPlaces(w, s, a, k);
      } else if a.Produce? {
        assert j.keys[..j.next + 1] == j.keys[..j.next] + [j.keys[j.next]];
      }
    }
  }

  lemma {:induction false} KeepsExcused(w: World, s: State, a: Action)
    requires s.phase.Working? && Enabled(w, s, a) && InJob(a) && Excused(s.job)
    ensures Excused(StepJob(w, s, a))
  {
    hide StepWorker, Acceptable, AllKeys, Active, HasVerified, Valid;
    if ByWorker(a) {
      WorkerExcused(w, s, a);
    }
  }

  lemma {:induction false} WorkerExcused(w: World, s: State, a: Action)
    requires s.phase.Working? && ByWorker(a) && Enabled(w, s, a) && Excused(s.job)
    ensures Excused(StepWorker(w, s, a))
  {
    hide NextWorker, Acceptable, AllKeys, Active, HasVerified, Valid;
    GiveUpCancels(w, s, a);
  }

  lemma {:induction false} GiveUpCancels(w: World, s: State, a: Action)
    requires ByWorker(a) && Enabled(w, s, a)
    ensures GivesUp(w, s, a) && a.Begin? ==> WorkCancelled(s.job)
    ensures a.Advance? || a.Receive? ==> !NextWorker(w, s, a).Exited?
  {
  }

  lemma {:induction false} KeepsWorkersRight(w: World, s: State, a: Action)
    requires s.phase.Working? && Enabled(w, s, a) && InJob(a)
    requires WorkersRight(w, s.job, s.tiles) && VerifiedValid(w, s)
    ensures WorkersRight(w, StepJob(w, s, a), StepTiles(w, s, a))
  {
    hide NextWorker, StepTiles, Valid;
    var j, j', tiles' := s.job, StepJob(w, s, a), StepTiles(w, s, a);
    StepKeepsTarget(w, s, a);
    TilesStayValid(w, s, a);
    forall i | 0 <= i < |j'.workers| ensures WorkerRight(w, j', tiles', j'.workers[i]) {
      if ByWorker(a) && i == a.i {
        NextWorkerRight(w, s, a);
      } else {
        assert j'.workers[i] == j.workers[i] && WorkerRight(w, j, s.tiles, j.workers[i]);
      }
    }
  }

  lemma {:induction false} NextWorkerRight(w: World, s: State, a: Action)
    requires ByWorker(a) && Enabled(w, s, a) && WorkersRight(w, s.job, s.tiles) && VerifiedValid(w, s)
    ensures WorkerRight(w, s.job, StepTiles(w, s, a), NextWorker(w, s, a))
  {
    assert WorkerRight(w, s.job, s.tiles, s.job.workers[a.i]);
  }

  /** Workers only ever store tiles that pass: nothing valid becomes invalid. */
  lemma {:induction false} TilesStayValid(w: World, s: State, a: Action)
    requires s.phase.Working? && Enabled(w, s, a) && InJob(a) && WorkersRight(w, s.job, s.tiles)
    ensures forall slot :: StoredValid(w, s.tiles, slot) ==> StoredValid(w, StepTiles(w, s, a), slot)
  {
    hide Valid;
    if a.Put? {
      assert WorkerRight(w, s.job, s.tiles, s.job.workers[a.i]);
    }
  }

  lemma {:induction false} KeepsDoneStored(w: World, s: State, a: Action)
    requires s.phase.Working? && Enabled(w, s, a) && InJob(a)
    requires WorkersRight(w, s.job, s.tiles) && DoneStored(w, s.job, s.tiles)
    ensures DoneStored(w, StepJob(w, s, a), StepTiles(w, s, a))
  {
    hide NextWorker, StepTiles, StoredValid;
    TilesStayValid(w, s, a);
    StepKeepsTarget(w, s, a);
    var j, j' := s.job, StepJob(w, s, a);
    if a.Advance? {
      assert WorkerRight(w, j, s.tiles, j.workers[a.i]);
      assert |j'.done| == |j.done| + 1;
    }
  }

  lemma {:induction false} KeepsVerifiedValid(w: World, s: State, a: Action)
    requires Inv(w, s) && Enabled(w, s, a)
    ensures VerifiedValid(w, Do(w, s, a))
  {
    hide StepJob, JobInv, Keyed, Complete, OutcomesAdd, Valid, Enabled;
    if a.Put? {
      PutRight(w, s, a);
      PassesWithoutChecksum(w, s.job.workers[a.i].tile);
    } else if a.External? {
      PassesWithoutChecksum(w, a.tile);
    }
  }

  lemma {:induction false} PutRight(w: World, s: State, a: Action)
    requires Inv(w, s) && Enabled(w, s, a) && a.Put?
    ensures s.phase.Working? && a.i < |s.job.workers| && s.job.workers[a.i].Putting?
    ensures Valid(w, s.job.workers[a.i].tile)
  {
    hide Keyed, Complete, OutcomesAdd, VerifiedValid, Valid, Accounted, Excused, DoneStored, Acceptable, AllKeys;
    assert WorkerRight(w, s.job, s.tiles, s.job.workers[a.i]);
  }

  lemma {:induction false} PassesWithoutChecksum(w: World, t: Tile)
    ensures t.checksum == "" ==> Valid(w, t)
  {
  }

  /** All workers have left and nothing went wrong: every key was counted. */
  lemma {:induction false} JoinedAllDone(j: Job)
    requires Accounted(j) && Excused(j) && j.closed && !j.failed && !j.stopped && !j.cancelled
    requires forall i :: 0 <= i < |j.workers| ==> j.workers[i].Exited?
    ensures j.done == multiset(j.keys)
  {
    assert j.keys[..j.next] == j.keys;
    forall k ensures j.done[k] == multiset(j.keys)[k] {
      NoneHold(j.workers, k);
      assert j.dropped[k] == 0;
      if j.workers != [] {
        assert j.workers[0].Exited?;
      }
    }
  }

  lemma {:induction false} StartAccounted(r: SyncRequest, j: Job)
    requires Acceptable(r) && j.keys == AllKeys(r) && j.next == 0 && j.jobs == [] && j.done == j.dropped == multiset{}
    requires j.workers == seq(Workers(r), _ => Ready) && !j.closed && !j.stopped
    ensures Accounted(j) && Excused(j)
  {
    hide AllKeys, Acceptable;
    assert j.keys[..0] == [];
    forall k ensures Places(j, k) == 0 {
      NoneHold(j.workers, k);
    }
  }

  lemma {:induction false} WarmStored(w: World, s: State, a: Action)
    requires VerifiedValid(w, s) && Enabled(w, s, a) && a.WarmStart?
    ensures DoneStored(w, StepJob(w, s, a), s.tiles)
  {
    AcceptableForm(a.request);
    hide Acceptable, AllKeys, Valid;
    var j, all := StepJob(w, s, a), AllKeys(a.request);
    forall k | k in j.done ensures StoredValid(w, s.tiles, At(j, k)) {
      assert k in all;
      var i :| 0 <= i < |all| && all[i] == k;
      assert HasVerified(s, Slot(a.manifest.dataset, a.manifest.revision, all[i]));
    }
  }

  lemma {:induction false} KeepsJobInv(w: World, s: State, a: Action)
    requires Inv(w, s) && Enabled(w, s, a)
    ensures JobInv(w, Do(w, s, a))
  {
    hide Accounted, Excused, WorkersRight, DoneStored, VerifiedValid, Complete, OutcomesAdd, Acceptable, AllKeys,
         Workers, StepWorker, HasVerified, Valid;
    if s.phase.Working? && InJob(a) {
      KeepsAccounted(w, s, a);
      KeepsExcused(w, s, a);
      KeepsWorkersRight(w, s, a);
      KeepsDoneStored(w, s, a);
      StepKeepsTarget(w, s, a);
    } else if a.Start? {
      StartAccounted(a.request, StepJob(w, s, a));
      StartRight(w, s, a);
    } else if a.WarmStart? {
      WarmStored(w, s, a);
    } else if a.Join? {
      if !(s.job.failed || s.job.stopped || s.job.cancelled) {
        JoinedAllDone(s.job);
      }
    } else if a.Publish? {
      DoneCounted(w, s.job, s.tiles);
    }
  }

  lemma {:induction false} DoneCounted(w: World, j: Job, tiles: map<Slot, StoredTile>)
    requires DoneStored(w, j, tiles)
    ensures j.downloaded + j.reused == |j.done|
  {
  }

  lemma {:induction false} StartRight(w: World, s: State, a: Action)
    requires Enabled(w, s, a) && a.Start?
    ensures WorkersRight(w, StepJob(w, s, a), s.tiles) && DoneStored(w, StepJob(w, s, a), s.tiles)
  {
    hide Acceptable, AllKeys, Workers;
  }

  lemma {:induction false} StepKeepsTarget(w: World, s: State, a: Action)
    requires Enabled(w, s, a) && InJob(a)
    ensures var j, j' := s.job, StepJob(w, s, a);
            && j'.keys == j.keys && j'.manifest == j.manifest && j'.previous == j.previous && j'.prune == j.prune
            && |j'.workers| == |j.workers| && (a.Produce? || j'.next == j.next)
  {
    hide NextWorker, Acceptable, AllKeys, Active, HasVerified, Valid;
    if ByWorker(a) {
      WorkerKeepsTarget(w, s, a);
    }
  }

  lemma {:induction false} WorkerKeepsTarget(w: World, s: State, a: Action)
    requires ByWorker(a) && Enabled(w, s, a)
    ensures var j, j' := s.job, StepWorker(w, s, a);
            && j'.keys == j.keys && j'.manifest == j.manifest && j'.previous == j.previous && j'.prune == j.prune
            && |j'.workers| == |j.workers| && j'.next == j.next
  {
    hide NextWorker, Acceptable, AllKeys, Active, HasVerified, Valid;
  }

  lemma {:induction false} TilesKept(w: World, s: State, a: Action, slot: Slot)
    requires Enabled(w, s, a) && slot in s.tiles
    requires a.Prune? ==> s.job.previous.Some? && !OfRevision(slot, s.job.previous.value)
    ensures slot in StepTiles(w, s, a)
  {
  }

  predicate Publishes(w: World, s: State, a: Action) {
    a.Publish? && (a.ok || !MustPut(w, s.job))
  }

  /** Published: what was counted covers all the keys. */
  lemma {:induction false} PublishCovers(w: World, s: State, a: Action)
    requires Inv(w, s) && Enabled(w, s, a) && Publishes(w, s, a)
    ensures Covered(Do(w, s, a), s.job.manifest.dataset)
  {
    hide StepJob, JobInv, VerifiedValid, OutcomesAdd, Complete, Acceptable, AllKeys, Valid;
    var s' := Do(w, s, a);
    PreviousActive(w, s);
    forall k | k in s.job.keys ensures At(s.job, k) in s.tiles {
      KeyStored(w, s, k);
    }
  }

  lemma {:induction false} PreviousActive(w: World, s: State)
    requires Inv(w, s) && s.phase.Publishing?
    ensures s.job.previous == Active(s, s.job.manifest.dataset)
  {
    hide VerifiedValid, OutcomesAdd, Complete, Keyed, Active;
  }

  lemma {:induction false} KeyStored(w: World, s: State, k: TileKey)
    requires Inv(w, s) && s.phase.Publishing? && k in s.job.keys
    ensures At(s.job, k) in s.tiles
  {
    hide VerifiedValid, OutcomesAdd, Complete, Keyed, Valid;
    assert k in s.job.done;
    assert StoredValid(w, s.tiles, At(s.job, k));
  }

  /** Pruned: the revision deleted is not active. */
  lemma {:induction false} ActiveKept(w: World, s: State, a: Action, slot: Slot)
    requires Inv(w, s) && Enabled(w, s, a) && slot in s.tiles
    requires slot.dataset in s.manifests && slot.revision == s.manifests[slot.dataset].revision
    ensures slot in StepTiles(w, s, a)
  {
    hide StepTiles, VerifiedValid, Complete, OutcomesAdd, DoneStored, Accounted, Excused, WorkersRight;
    TilesKept(w, s, a, slot);
  }

  /** What a step leaves as it was. */
  lemma {:induction false} OtherDatasets(w: World, s: State, a: Action, d: string)
    requires Enabled(w, s, a) && d in Do(w, s, a).committed
    requires !Publishes(w, s, a) || d != s.job.manifest.dataset
    ensures var s' := Do(w, s, a);
            d in s.committed && s'.committed[d] == s.committed[d] && Active(s', d) == Active(s, d)
  {
    hide StepJob, StepTiles;
  }

  lemma {:induction false} KeepsComplete(w: World, s: State, a: Action)
    requires Inv(w, s) && Enabled(w, s, a)
    ensures Complete(Do(w, s, a))
  {
    hide JobInv, VerifiedValid, OutcomesAdd, Keyed, StepTiles, StepJob, Enabled;
    var s' := Do(w, s, a);
    forall d | d in s'.committed ensures Covered(s', d) {
      if Publishes(w, s, a) && d == s.job.manifest.dataset {
        PublishCovers(w, s, a);
      } else {
        OtherDatasets(w, s, a, d);
        assert Covered(s, d);
        forall k | k in s.committed[d] ensures Slot(d, s.manifests[d].revision, k) in s'.tiles {
          ActiveKept(w, s, a, Slot(d, s.manifests[d].revision, k));
        }
      }
    }
  }

  lemma {:induction false} KeepsKeyed(w: World, s: State, a: Action)
    requires Keyed(s) && Enabled(w, s, a)
    ensures Keyed(Do(w, s, a))
  {
    hide StepJob, StepTiles;
  }

  lemma {:induction false} KeepsOutcomes(w: World, s: State, a: Action)
    requires Inv(w, s) && Enabled(w, s, a)
    ensures OutcomesAdd(Do(w, s, a))
  {
    hide StepJob, StepTiles, Accounted, Excused, WorkersRight, VerifiedValid, Complete, Acceptable, AllKeys;
  }

  lemma {:induction false} StepInv(w: World, s: State, a: Action)
    requires Inv(w, s) && Enabled(w, s, a)
    ensures Inv(w, Do(w, s, a))
  {
    KeepsVerifiedValid(w, s, a);
    KeepsJobInv(w, s, a);
    KeepsComplete(w, s, a);
    KeepsKeyed(w, s, a);
    KeepsOutcomes(w, s, a);
    hide Do, JobInv, VerifiedValid, Complete, OutcomesAdd;
  }

  // ----- Runs -----

  ghost predicate Path(w: World, trace: seq<State>, steps: seq<Action>) {
    && |trace| == |steps| + 1
    && forall i :: 0 <= i < |steps| ==> Enabled(w, trace[i], steps[i]) && trace[i + 1] == Do(w, trace[i], steps[i])
  }

  lemma {:induction false} RunInv(w: World, trace: seq<State>, steps: seq<Action>, n: nat)
    requires Path(w, trace, steps) && Init(trace[0]) && n < |trace|
    ensures Inv(w, trace[n])
  {
    hide Enabled, Do;
    if n > 0 {
      hide Inv, Init;
      RunInv(w, trace, steps, n - 1);
      assert trace[n - 1 + 1] == Do(w, trace[n - 1], steps[n - 1]);
      StepInv(w, trace[n - 1], steps[n - 1]);
    }
  }

  /** Publication safety: whenever a run gets to publish, every key it was asked for is stored under the
      new revision and passes verification, and the counters add up to the total. */
  lemma {:induction false} PublishedComplete(w: World, trace: seq<State>, steps: seq<Action>, n: nat)
    requires Path(w, trace, steps) && Init(trace[0]) && n < |trace| && trace[n].phase.Publishing?
    ensures var j := trace[n].job;
            && (forall k :: k in j.keys ==> StoredValid(w, trace[n].tiles, At(j, k)))
            && j.downloaded + j.reused == |j.keys|
  {
    RunInv(w, trace, steps, n);
    var j := trace[n].job;
    forall k | k in j.keys ensures StoredValid(w, trace[n].tiles, At(j, k)) {
      assert k in j.done;
    }
  }

  /** After any runs, failed, cancelled or complete, with any pruning: what a dataset was last published
      with is all there, under its active revision. */
  lemma {:induction false} ActiveStaysComplete(w: World, trace: seq<State>, steps: seq<Action>, n: nat, d: string)
    requires Path(w, trace, steps) && Init(trace[0]) && n < |trace| && d in trace[n].committed
    ensures d in trace[n].manifests
    ensures forall k :: k in trace[n].committed[d] ==> Slot(d, trace[n].manifests[d].revision, k) in trace[n].tiles
  {
    RunInv(w, trace, steps, n);
    hide Inv;
    assert Covered(trace[n], d) by { InvCovered(w, trace[n], d); }
  }

  lemma {:induction false} InvCovered(w: World, s: State, d: string)
    requires Inv(w, s) && d in s.committed
    ensures Covered(s, d)
  {
  }

  /** The slot belongs to its dataset's active revision. */
  predicate OfActive(s: State, slot: Slot) {
    slot.dataset in s.manifests && s.manifests[slot.dataset].revision == slot.revision
  }

  /** Pruning deletes nothing of any active revision. */
  lemma {:induction false} PruneSparesActive(w: World, s: State, ok: bool, slot: Slot)
    requires Inv(w, s) && Enabled(w, s, Prune(ok)) && slot in s.tiles && OfActive(s, slot)
    ensures slot in Do(w, s, Prune(ok)).tiles && Do(w, s, Prune(ok)).tiles[slot] == s.tiles[slot]
  {
    hide VerifiedValid, Complete, OutcomesAdd;
  }

  lemma {:induction false} StepKeepsValid(w: World, s: State, a: Action, slot: Slot)
    requires Inv(w, s) && Enabled(w, s, a) && StoredValid(w, s.tiles, slot)
    requires a.External? ==> a.slot != slot
    requires a.Prune? ==> OfActive(s, slot)
    ensures StoredValid(w, Do(w, s, a).tiles, slot)
  {
    hide Valid, StepJob, VerifiedValid, Complete, OutcomesAdd, Accounted, Excused, DoneStored, Acceptable, AllKeys;
    if a.Put? {
      TilesStayValid(w, s, a);
    } else if a.Prune? {
      PruneSparesActive(w, s, a.ok, slot);
    }
  }

  /** A tile that is stored and passes verification stays so in every later state of any run, unless
      someone else overwrites it or a pruning finds its revision not active. */
  lemma {:induction false} ValidTilesStay(w: World, trace: seq<State>, steps: seq<Action>, m: nat, n: nat, slot: Slot)
    requires Path(w, trace, steps) && Init(trace[0]) && m <= n < |trace|
    requires StoredValid(w, trace[m].tiles, slot)
    requires forall i :: m <= i < n ==> (steps[i].External? ==> steps[i].slot != slot)
    requires forall i :: m <= i < n ==> (steps[i].Prune? ==> OfActive(trace[i], slot))
    ensures StoredValid(w, trace[n].tiles, slot)
  {
    hide Do, Enabled, Inv, Init, StoredValid, OfActive;
    if m < n {
      ValidTilesStay(w, trace, steps, m, n - 1, slot);
      RunInv(w, trace, steps, n - 1);
      StepKeepsValid(w, trace[n - 1], steps[n - 1], slot);
      assert trace[n - 1 + 1] == Do(w, trace[n - 1], steps[n - 1]);
    }
  }

  /** Whenever a run takes the warm path, every key it was asked for is stored and passes verification. */
  lemma {:induction false} WarmPathComplete(w: World, trace: seq<State>, steps: seq<Action>, n: nat)
    requires Path(w, trace, steps) && Init(trace[0]) && n < |steps| && steps[n].WarmStart?
    ensures Acceptable(steps[n].request)
    ensures forall k :: k in AllKeys(steps[n].request) ==> StoredValid(w, trace[n].tiles, At(trace[n + 1].job, k))
  {
    hide Inv, Init, StoredValid, Acceptable, AllKeys;
    var s, a := trace[n], steps[n];
    RunInv(w, trace, steps, n);
    assert VerifiedValid(w, s) by { InvVerified(w, s); }
    assert trace[n + 1] == Do(w, s, a);
    WarmStored(w, s, a);
  }

  lemma {:induction false} InvVerified(w: World, s: State)
    requires Inv(w, s)
    ensures VerifiedValid(w, s)
  {
  }

  /** Only a publication changes what is active, and a run that has published does not fail. */
  lemma {:induction false} StepActive(w: World, s: State, a: Action)
    requires Enabled(w, s, a)
    ensures var s' := Do(w, s, a);
            || (s'.manifests == s.manifests && s'.committed == s.committed)
            || (a.Publish? && (s'.phase.Pruning? || s'.outcomes == s.outcomes + [Success(s.job)]))
    ensures s.phase.Pruning? ==> a.Prune? && Do(w, s, a).outcomes == s.outcomes + [Success(s.job)]
    ensures Do(w, s, a).outcomes == s.outcomes || Do(w, s, a).phase.Idle?
  {
    hide StepJob, StepTiles, Acceptable;
  }

  /** A run that fails leaves the active manifests as it found them. */
  lemma {:induction false} FailedRunChangesNothing(w: World, trace: seq<State>, steps: seq<Action>)
    requires Path(w, trace, steps) && steps != []
    requires forall i :: 0 < i < |steps| ==> !trace[i].phase.Idle?
    requires trace[|steps|].outcomes == trace[0].outcomes + [Failed] && trace[0].phase.Idle?
    ensures trace[|steps|].manifests == trace[0].manifests && trace[|steps|].committed == trace[0].committed
  {
    hide Do, Enabled;
    var n := |steps| - 1;
    UntilPublished(w, trace, steps, n);
    StepActive(w, trace[n], steps[n]);
    var end := trace[n + 1];
    assert end == Do(w, trace[n], steps[n]);
    assert end.outcomes[|trace[0].outcomes|] == Failed;
  }

  lemma {:induction false} UntilPublished(w: World, trace: seq<State>, steps: seq<Action>, n: nat)
    requires Path(w, trace, steps) && n < |steps| && trace[0].phase.Idle?
    requires forall i :: 0 < i <= n ==> !trace[i].phase.Idle?
    ensures trace[n].outcomes == trace[0].outcomes
    ensures trace[n].phase.Pruning?
            || (trace[n].manifests == trace[0].manifests && trace[n].committed == trace[0].committed)
  {
    hide Do, Enabled;
    if n > 0 {
      UntilPublished(w, trace, steps, n - 1);
      StepActive(w, trace[n - 1], steps[n - 1]);
      assert trace[n - 1 + 1] == Do(w, trace[n - 1], steps[n - 1]);
    }
  }

  // ----- Every run ends -----

  function WorkerLeft(x: Worker): nat {
    match x
    case Exited => 0
    case Ready => 1
    case Counting(_, _) => 2
    case Putting(_, _) => 3
    case Fetching(_) => 4
    case Loading(_) => 5
    case Got(_) => 6
  }

  function WorkersLeft(ws: seq<Worker>): nat {
    if ws == [] then 0 else WorkerLeft(ws[0]) + WorkersLeft(ws[1..])
  }

  /** A bound on the steps left before Sync returns. */
  function StepsLeft(s: State): int {
    var j := s.job;
    match s.phase
    case Idle => 0
    case Pruning => 1
    case Publishing => 2
    case Working =>
      3 + WorkersLeft(j.workers) + 6 * |j.jobs| + 7 * (|j.keys| - j.next)
      + (if j.closed then 0 else 1) + (if j.stopped then 0 else 1) + (if j.cancelled then 0 else 1)
  }

  lemma {:induction false} UpdateLeft(ws: seq<Worker>, i: nat, x: Worker)
    requires i < |ws|
    ensures WorkersLeft(ws[i := x]) == WorkersLeft(ws) + WorkerLeft(x) - WorkerLeft(ws[i])
  {
    hide WorkerLeft;
    var us := ws[i := x];
    if i == 0 {
      assert us[1..] == ws[1..];
    } else {
      assert us[1..] == ws[1..][i - 1 := x];
      UpdateLeft(ws[1..], i - 1, x);
    }
  }

  /** Each step of a run leaves less to do ... */
  lemma {:induction false} StepShrinks(w: World, s: State, a: Action)
    requires Inv(w, s) && !s.phase.Idle? && Enabled(w, s, a)
    ensures 0 <= StepsLeft(Do(w, s, a)) < StepsLeft(s)
  {
    hide Inv, Do, StepsLeft, Enabled;
    if ByWorker(a) {
      WorkerActs(w, s, a);
      InvNext(w, s);
      WorkerShrinks(w, s, a);
    } else {
      OthersShrink(w, s, a);
    }
  }

  lemma {:induction false} WorkerActs(w: World, s: State, a: Action)
    requires ByWorker(a) && Enabled(w, s, a)
    ensures s.phase.Working? && StepsLeft(Do(w, s, a)) == StepsLeft(s.(job := StepWorker(w, s, a)))
  {
    hide StepWorker, StepTiles, WorkersLeft, Acceptable, AllKeys, Active, HasVerified, Valid;
  }

  lemma {:induction false} OthersShrink(w: World, s: State, a: Action)
    requires Inv(w, s) && !s.phase.Idle? && Enabled(w, s, a) && !ByWorker(a)
    ensures 0 <= StepsLeft(Do(w, s, a)) < StepsLeft(s)
  {
    hide WorkersLeft, StepTiles, StepWorker, Inv, Acceptable, AllKeys, Active, HasVerified, Valid;
    if s.phase.Working? {
      InvNext(w, s);
    }
  }

  lemma {:induction false} WorkerShrinks(w: World, s: State, a: Action)
    requires ByWorker(a) && Enabled(w, s, a) && s.job.next <= |s.job.keys|
    ensures 0 <= StepsLeft(s.(job := StepWorker(w, s, a))) < StepsLeft(s)
  {
    hide WorkersLeft, NextWorker, WorkerLeft, Acceptable, AllKeys, Active, HasVerified, Valid;
    NextShrinks(w, s, a);
    UpdateLeft(s.job.workers, a.i, NextWorker(w, s, a));
    JobsShrink(s, a);
  }

  lemma {:induction false} JobsShrink(s: State, a: Action)
    ensures a.Receive? && s.job.jobs != [] ==> |s.job.jobs[1..]| == |s.job.jobs| - 1
  {
  }

  lemma {:induction false} NextShrinks(w: World, s: State, a: Action)
    requires ByWorker(a) && Enabled(w, s, a)
    ensures WorkerLeft(NextWorker(w, s, a)) < WorkerLeft(s.job.workers[a.i]) + if a.Receive? then 6 else 0
  {
    hide Usable, Valid;
  }

  /** ... and until it has ended there is one to take: producer, workers and channel never block each
      other. */
  lemma {:induction false} NoDeadlock(w: World, s: State) returns (a: Action)
    requires Inv(w, s) && !s.phase.Idle?
    ensures Enabled(w, s, a) && !a.Cancel?
  {
    hide Accounted, WorkersRight, DoneStored, VerifiedValid, Complete, OutcomesAdd, Excused;
    if s.phase.Publishing? {
      a := Publish(true);
    } else if s.phase.Pruning? {
      a := Prune(true);
    } else {
      InvNext(w, s);
      a := StepInWork(w, s);
    }
  }

  lemma {:induction false} StepInWork(w: World, s: State) returns (a: Action)
    requires s.phase.Working? && Excused(s.job) && s.job.next <= |s.job.keys|
    ensures Enabled(w, s, a) && !a.Cancel?
  {
    hide Acceptable, AllKeys, Active, HasVerified, Valid;
    var j := s.job;
    if k :| 0 <= k < |j.workers| && !j.workers[k].Ready? && !j.workers[k].Exited? {
      var i: nat := k;
      a := match j.workers[i]
        case Got(_) => Begin(i)
        case Loading(_) => Lookup(i, true)
        case Fetching(_) => Fetch(i, None)
        case Putting(_, _) => Put(i, true)
        case _ => Advance(i);
    } else if !j.closed && (j.stopped || j.next == |j.keys|) {
      a := CloseJobs;
    } else if k :| 0 <= k < |j.workers| && j.workers[k].Ready? {
      var i: nat := k;
      a := if j.jobs != [] then Receive(i) else if j.closed then Exit(i) else Produce;
    } else {
      a := if j.closed then Join else StopProducing;
      if !j.closed {
        assert j.workers != [] ==> j.workers[0].Exited?;
      }
    }
  }

  lemma {:induction false} InvNext(w: World, s: State)
    requires Inv(w, s) && s.phase.Working?
    ensures s.job.next <= |s.job.keys|
  {
  }

  /** So Sync returns: a stretch of one run is no longer than the bound at its start. */
  lemma {:induction false} SyncReturns(w: World, trace: seq<State>, steps: seq<Action>, from: nat, n: nat)
    requires Path(w, trace, steps) && Init(trace[0]) && from + n < |trace|
    requires forall i :: from <= i < from + n ==> !trace[i].phase.Idle?
    ensures n + StepsLeft(trace[from + n]) <= StepsLeft(trace[from])
    ensures n > 0 ==> StepsLeft(trace[from + n]) >= 0
  {
    hide Do, Enabled, StepsLeft, Init, Inv;
    if n > 0 {
      var m := from + n - 1;
      SyncReturns(w, trace, steps, from, n - 1);
      RunInv(w, trace, steps, m);
      assert trace[m + 1] == Do(w, trace[m], steps[m]);
      StepShrinks(w, trace[m], steps[m]);
    }
  }
}
