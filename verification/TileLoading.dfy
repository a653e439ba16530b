/** How a request finds a tile (server/server.go, server/tile_load_group.go): the cache, the digests it
    retains and the single load in flight per key, as the steps of any number of goroutines. */
module TileLoading {
  import opened Bits
  import opened Options
  import TileCache

  type Key = TileCache.Key

  /** The dataset never changes while it is served; the digest is some function of the bytes. */
  datatype World = World(dataset: map<Key, Bytes>, digest: Bytes -> string)

  /** What the cache holds for a key: a payload with its checksum, or the checksum alone. */
  datatype Cell = Cell(data: Option<Bytes>, checksum: string)

  datatype Result = Found(data: Bytes, checksum: string) | Missing | Failed | Cancelled

  datatype Thread =
    | Idle
    | Looking(key: Key)                                          // lookupTile, before the cache
    | Entering(key: Key)                                         // in do, before the lock
    | Waiting(key: Key, id: nat)                                 // has joined a load
    | Rechecking(key: Key, id: nat)                              // loadTile, before the cache
    | Recalling(key: Key, id: nat)                               // before the retained checksum
    | Reading(key: Key, id: nat, known: Option<string>)          // before the dataset
    | Storing(key: Key, id: nat, data: Bytes, checksum: string)  // before put
    | Publishing(key: Key, id: nat, result: Result)              // do, after load
    | Done(key: Key, result: Result, via: Option<nat>)           // via: the load that gave the result

  /** One load: its result once the done channel is closed. */
  datatype Call = Call(key: Key, result: Option<Result>)

  datatype State = State(cache: map<Key, Cell>, loads: map<Key, nat>, calls: seq<Call>, threads: seq<Thread>)

  predicate Leading(x: Thread) {
    x.Rechecking? || x.Recalling? || x.Reading? || x.Storing? || x.Publishing?
  }

  predicate Cached(s: State, k: Key) {
    k in s.cache && s.cache[k].data.Some?
  }

  // ----- The steps -----

  datatype Action =
    | Request(t: nat, key: Key)
    | Probe(t: nat)
    | Enter(t: nat)
    | Cancel(t: nat)
    | Join(t: nat)
    | Recheck(t: nat)
    | Recall(t: nat)
    | Read(t: nat, ok: bool)
    | Store(t: nat, fits: bool)
    | Publish(t: nat)
    | Respond(t: nat)
    | Demote(key: Key)
    | Evict(key: Key)

  predicate ByThread(a: Action) {
    !a.Demote? && !a.Evict?
  }

  predicate Enabled(s: State, a: Action) {
    (ByThread(a) ==> a.t < |s.threads|) &&
    match a
    case Request(t, _) => s.threads[t].Idle?
    case Probe(t) => s.threads[t].Looking?
    case Enter(t) => s.threads[t].Entering?
    case Cancel(t) => s.threads[t].Entering? || s.threads[t].Waiting?
    case Join(t) => s.threads[t].Waiting? && s.threads[t].id < |s.calls| && s.calls[s.threads[t].id].result.Some?
    case Recheck(t) => s.threads[t].Rechecking?
    case Recall(t) => s.threads[t].Recalling?
    case Read(t, _) => s.threads[t].Reading?
    case Store(t, _) => s.threads[t].Storing?
    case Publish(t) => s.threads[t].Publishing? && s.threads[t].id < |s.calls|
    case Respond(t) => s.threads[t].Done?
    case Demote(k) => Cached(s, k)
    case Evict(k) => k in s.cache
  }

  function Probed(s: State, k: Key): Result {
    if Cached(s, k) then Found(s.cache[k].data.value, s.cache[k].checksum) else Missing
  }

  /** The thread that takes a step, after it. */
  function Next(w: World, s: State, a: Action): Thread
    requires Enabled(s, a) && ByThread(a)
  {
    var x := s.threads[a.t];
    match a
    case Request(_, k) => Looking(k)
    case Probe(_) => if Cached(s, x.key) then Done(x.key, Probed(s, x.key), None) else Entering(x.key)
    case Enter(_) => if x.key in s.loads then Waiting(x.key, s.loads[x.key]) else Rechecking(x.key, |s.calls|)
    case Cancel(_) => Done(x.key, Cancelled, None)
    case Join(_) => Done(x.key, s.calls[x.id].result.value, Some(x.id))
    case Recheck(_) =>
      if Cached(s, x.key) then Publishing(x.key, x.id, Probed(s, x.key)) else Recalling(x.key, x.id)
    case Recall(_) => Reading(x.key, x.id, if x.key in s.cache then Some(s.cache[x.key].checksum) else None)
    case Read(_, ok) =>
      if !ok then Publishing(x.key, x.id, Failed)
      else if x.key !in w.dataset then Publishing(x.key, x.id, Missing)
      else
        var data := w.dataset[x.key];
        Storing(x.key, x.id, data, if x.known.Some? then x.known.value else w.digest(data))
    case Store(_, _) => Publishing(x.key, x.id, Found(x.data, x.checksum))
    case Publish(_) => Done(x.key, x.result, Some(x.id))
    case Respond(_) => Idle
  }

  /** put: a payload that fits no lane leaves its checksum, unless a payload is there. */
  function Stored(s: State, k: Key, data: Bytes, checksum: string, fits: bool): map<Key, Cell> {
    if fits then s.cache[k := Cell(Some(data), checksum)]
    else if Cached(s, k) then s.cache
    else s.cache[k := Cell(None, checksum)]
  }

  function Do(w: World, s: State, a: Action): State
    requires Enabled(s, a)
  {
    if a.Demote? then s.(cache := s.cache[a.key := s.cache[a.key].(data := None)])
    else if a.Evict? then s.(cache := s.cache - {a.key})
    else
      var x, s' := s.threads[a.t], s.(threads := s.threads[a.t := Next(w, s, a)]);
      match a
      case Enter(_) =>
        if x.key in s.loads then s'
        else s'.(loads := s.loads[x.key := |s.calls|], calls := s.calls + [Call(x.key, None)])
      case Store(_, fits) => s'.(cache := Stored(s, x.key, x.data, x.checksum, fits))
      case Publish(_) =>
        s'.(loads := s.loads - {x.key}, calls := s.calls[x.id := Call(x.key, Some(x.result))])
      case _ => s'
  }

  // ----- The LRU as this cache -----

  function ItemCell(e: TileCache.Item): Cell {
    Cell(e.data, e.checksum)
  }

  function CellOf(l: seq<TileCache.Item>, k: Key): Option<Cell> {
    var p := TileCache.Position(l, k);
    if p == |l| then None else Some(ItemCell(l[p]))
  }

  /** b is a after a demotion, an eviction or neither. */
  predicate Lost(a: Option<Cell>, b: Option<Cell>) {
    b == a || b.None? || (a.Some? && b == Some(a.value.(data := None)))
  }

  /** What any operation on a lane does to a key is what the cache steps above do to it. */
  lemma {:induction false} LaneSteps(l: seq<TileCache.Item>, max: int, op: TileCache.Op, k: Key)
    requires max >= 0
    ensures var before, after := CellOf(l, k), CellOf(TileCache.Step(l, max, op), k);
            || Lost(before, after)
            || (op.PutPayload? && op.key == k && Lost(Some(Cell(Some(op.data), op.checksum)), after))
            || (&& op.PutChecksum? && op.key == k && Lost(Some(Cell(None, op.checksum)), after)
                && !(before.Some? && before.value.data.Some?))
  {
    hide TileCache.Trim, TileCache.Used, TileCache.Size, TileCache.Without, TileCache.Evicted, CellOf;
    LookupCell(l, op.key);
    match op {
      case Get(j) =>
        if TileCache.Lookup(l, j).Some? {
          FrontCells(l, l[TileCache.Position(l, j)], k);
          LookupCell(l, k);
        }
      case PutPayload(j, d, c) =>
        FrontCells(l, TileCache.Item(j, Some(d), c), k);
        TrimmedCells([TileCache.Item(j, Some(d), c)] + TileCache.Without(l, j), max, k);
      case PutChecksum(j, c) =>
        FrontCells(l, TileCache.Item(j, None, c), k);
        TrimmedCells([TileCache.Item(j, None, c)] + TileCache.Without(l, j), max, k);
    }
  }

  lemma {:induction false} LookupCell(l: seq<TileCache.Item>, k: Key)
    ensures var p := TileCache.Position(l, k);
            p < |l| ==> CellOf(l, k) == Some(ItemCell(l[p]))
    ensures TileCache.Lookup(l, k).Some? <==> CellOf(l, k).Some? && CellOf(l, k).value.data.Some?
  {
  }

  lemma {:induction false} FrontCells(l: seq<TileCache.Item>, e: TileCache.Item, k: Key)
    ensures CellOf([e] + TileCache.Without(l, e.key), k) == if k == e.key then Some(ItemCell(e)) else CellOf(l, k)
  {
    hide TileCache.Without, CellOf;
    CellCons(e, TileCache.Without(l, e.key), k);
    if k != e.key {
      WithoutCells(l, e.key, k);
    }
  }

  lemma {:induction false} WithoutCells(l: seq<TileCache.Item>, j: Key, k: Key)
    requires k != j
    ensures CellOf(TileCache.Without(l, j), k) == CellOf(l, k)
  {
    if l == [] {
      assert TileCache.Without(l, j) == l;
    } else {
      var rest := l[1..];
      assert l == [l[0]] + rest;
      CellCons(l[0], rest, k);
      if l[0].key == j {
        assert TileCache.Without(l, j) == rest;
      } else {
        hide TileCache.Without, CellOf;
        WithoutCells(rest, j, k);
        TileCache.WithoutLater(l, j);
        CellCons(l[0], TileCache.Without(rest, j), k);
      }
    }
  }

  lemma {:induction false} CellCons(e: TileCache.Item, w: seq<TileCache.Item>, k: Key)
    ensures CellOf([e] + w, k) == if e.key == k then Some(ItemCell(e)) else CellOf(w, k)
  {
    assert ([e] + w)[1..] == w;
  }

  lemma {:induction false} TrimmedCells(l: seq<TileCache.Item>, max: int, k: Key)
    requires max >= 0
    ensures Lost(CellOf(l, k), CellOf(TileCache.Trim(l, max), k))
  {
    hide TileCache.Trim, TileCache.Used;
    var r := TileCache.Trim(l, max);
    TileCache.TrimKeepsMost(l, max, []);
    var p := TileCache.Position(r, k);
    assert forall i :: 0 <= i < |r| ==> r[i].key == l[i].key;
    if p < |r| {
      assert TileCache.Position(l, k) == p;
    }
  }

  // ----- The invariant -----

  /** What a lookup may answer: the bytes of the dataset with their digest, or that there are none. */
  predicate Right(w: World, k: Key, r: Result) {
    match r
    case Found(d, c) => k in w.dataset && d == w.dataset[k] && c == w.digest(d)
    case Missing => k !in w.dataset
    case _ => true
  }

  predicate CellRight(w: World, k: Key, c: Cell) {
    k in w.dataset && c.checksum == w.digest(w.dataset[k]) && (c.data.Some? ==> c.data.value == w.dataset[k])
  }

  ghost predicate CacheRight(w: World, s: State) {
    forall k :: k in s.cache ==> CellRight(w, k, s.cache[k])
  }

  predicate CallRight(w: World, c: Call) {
    c.result.Some? ==> Right(w, c.key, c.result.value)
  }

  ghost predicate CallsRight(w: World, s: State) {
    forall id :: 0 <= id < |s.calls| ==> CallRight(w, s.calls[id])
  }

  /** The goroutine x is where the state says it is. */
  predicate ThreadRight(w: World, s: State, x: Thread) {
    && (Leading(x) ==>
          && x.id < |s.calls| && s.calls[x.id] == Call(x.key, None)
          && x.key in s.loads && s.loads[x.key] == x.id)
    && (x.Recalling? || x.Reading? || x.Storing? ==> !Cached(s, x.key))
    && (x.Waiting? ==>
          && x.id < |s.calls| && s.calls[x.id].key == x.key
          && (s.calls[x.id].result.None? ==> x.key in s.loads && s.loads[x.key] == x.id))
    && (x.Reading? && x.known.Some? ==> CellRight(w, x.key, Cell(None, x.known.value)))
    && (x.Storing? ==> Right(w, x.key, Found(x.data, x.checksum)))
    && (x.Publishing? ==> Right(w, x.key, x.result))
    && (x.Done? ==> Right(w, x.key, x.result))
    && (x.Done? && x.via.Some? ==> x.via.value < |s.calls| && s.calls[x.via.value] == Call(x.key, Some(x.result)))
  }

  ghost predicate ThreadsRight(w: World, s: State) {
    forall t :: 0 <= t < |s.threads| ==> ThreadRight(w, s, s.threads[t])
  }

  /** No load has two leaders ... */
  ghost predicate OneLeader(s: State) {
    forall t, u :: 0 <= t < u < |s.threads| && Leading(s.threads[t]) && Leading(s.threads[u]) ==>
      s.threads[t].id != s.threads[u].id
  }

  predicate LedBy(s: State, k: Key, t: int) {
    0 <= t < |s.threads| && Leading(s.threads[t]) && s.threads[t].key == k
  }

  /** ... and every load in flight has one. */
  ghost predicate Led(s: State) {
    forall k :: k in s.loads ==> exists t :: LedBy(s, k, t)
  }

  ghost predicate Inv(w: World, s: State) {
    CacheRight(w, s) && CallsRight(w, s) && ThreadsRight(w, s) && OneLeader(s) && Led(s)
  }

  ghost predicate Init(s: State) {
    s.cache == map[] && s.loads == map[] && s.calls == [] && forall t :: 0 <= t < |s.threads| ==> s.threads[t].Idle?
  }

  lemma {:induction false} InitInv(w: World, s: State)
    requires Init(s)
    ensures Inv(w, s)
  {
  }

  /** The leader of a key's load is the only one. */
  lemma {:induction false} OneLeads(w: World, s: State, t: nat, u: nat)
    requires Inv(w, s) && t < |s.threads| && u < |s.threads|
    requires Leading(s.threads[t]) && Leading(s.threads[u]) && s.threads[t].key == s.threads[u].key
    ensures t == u
  {
    assert ThreadRight(w, s, s.threads[t]) && ThreadRight(w, s, s.threads[u]);
  }

  // ----- Every step keeps it -----

  lemma {:induction false} KeepsCache(w: World, s: State, a: Action)
    requires Inv(w, s) && Enabled(s, a)
    ensures CacheRight(w, Do(w, s, a))
  {
    hide ThreadsRight, CallsRight, OneLeader, Led;
    if ByThread(a) {
      assert ThreadRight(w, s, s.threads[a.t]) by { ThreadAt(w, s, a.t); }
    }
  }

  lemma {:induction false} ThreadAt(w: World, s: State, t: nat)
    requires ThreadsRight(w, s) && t < |s.threads|
    ensures ThreadRight(w, s, s.threads[t])
  {
  }

  lemma {:induction false} KeepsCalls(w: World, s: State, a: Action)
    requires Inv(w, s) && Enabled(s, a)
    ensures CallsRight(w, Do(w, s, a))
  {
    hide ThreadsRight, CacheRight, OneLeader, Led;
    if ByThread(a) {
      assert ThreadRight(w, s, s.threads[a.t]) by { ThreadAt(w, s, a.t); }
    }
  }

  /** The thread that took the step. */
  lemma {:induction false} KeepsActor(w: World, s: State, a: Action)
    requires Inv(w, s) && Enabled(s, a) && ByThread(a)
    ensures ThreadRight(w, Do(w, s, a), Next(w, s, a))
  {
    hide OneLeader, Led, ThreadsRight;
    var x := s.threads[a.t];
    ThreadAt(w, s, a.t);
    if x.Looking? || x.Rechecking? {
      if Cached(s, x.key) {
        assert CellRight(w, x.key, s.cache[x.key]);
      }
    } else if x.Entering? && a.Enter? {
      if x.key in s.loads {
        LoadsRight(w, s, x.key);
      }
    } else if x.Recalling? {
      if x.key in s.cache {
        assert CellRight(w, x.key, s.cache[x.key]);
      }
    } else if x.Waiting? && a.Join? {
      assert CallRight(w, s.calls[x.id]);
    }
  }

  lemma {:induction false} LoadsRight(w: World, s: State, k: Key)
    requires ThreadsRight(w, s) && Led(s) && k in s.loads
    ensures s.loads[k] < |s.calls| && s.calls[s.loads[k]] == Call(k, None)
  {
    var t :| LedBy(s, k, t);
    assert ThreadRight(w, s, s.threads[t]);
  }

  /** The other threads: only a key's one leader touches its load and fills its cell. */
  lemma {:induction false} KeepsOthers(w: World, s: State, a: Action, u: nat)
    requires Inv(w, s) && Enabled(s, a) && u < |s.threads| && (ByThread(a) ==> u != a.t)
    ensures ThreadRight(w, Do(w, s, a), s.threads[u])
  {
    hide CacheRight, CallsRight, Led, ThreadsRight, Right, CellRight;
    var y := s.threads[u];
    ThreadAt(w, s, u);
    if ByThread(a) {
      var x := s.threads[a.t];
      ThreadAt(w, s, a.t);
      assert Leading(x) && Leading(y) ==> x.id != y.id;
      assert Leading(x) && Leading(y) ==> x.key != y.key;
    }
  }

  lemma {:induction false} KeepsThreads(w: World, s: State, a: Action)
    requires Inv(w, s) && Enabled(s, a)
    ensures ThreadsRight(w, Do(w, s, a))
  {
    hide Inv, ThreadRight;
    var s' := Do(w, s, a);
    forall t | 0 <= t < |s'.threads| ensures ThreadRight(w, s', s'.threads[t]) {
      if ByThread(a) && t == a.t {
        KeepsActor(w, s, a);
      } else {
        KeepsOthers(w, s, a, t);
      }
    }
  }

  lemma {:induction false} KeepsOneLeader(w: World, s: State, a: Action)
    requires Inv(w, s) && Enabled(s, a)
    ensures OneLeader(Do(w, s, a))
  {
    hide CacheRight, CallsRight, Led, ThreadRight;
    if ByThread(a) {
      var x, x' := s.threads[a.t], Next(w, s, a);
      if Leading(x') {
        forall u | 0 <= u < |s.threads| && u != a.t && Leading(s.threads[u]) ensures s.threads[u].id != x'.id {
          if Leading(x) {
            assert x'.id == x.id;
          } else {
            LeaderIds(w, s, u);
          }
        }
      }
    }
  }

  lemma {:induction false} LeaderIds(w: World, s: State, t: nat)
    requires ThreadsRight(w, s) && t < |s.threads| && Leading(s.threads[t])
    ensures s.threads[t].id < |s.calls|
  {
    assert ThreadRight(w, s, s.threads[t]);
  }

  lemma {:induction false} KeepsLed(w: World, s: State, a: Action)
    requires Inv(w, s) && Enabled(s, a)
    ensures Led(Do(w, s, a))
  {
    hide CacheRight, CallsRight, ThreadRight, Stored, Probed;
    var s' := Do(w, s, a);
    forall k | k in s'.loads ensures exists t :: LedBy(s', k, t) {
      if ByThread(a) && LedBy(s', k, a.t) {
      } else {
        assert k in s.loads;
        var t :| LedBy(s, k, t);
        StillLeads(w, s, a, t);
        assert LedBy(s', k, t);
      }
    }
  }

  lemma {:induction false} StillLeads(w: World, s: State, a: Action, t: nat)
    requires Enabled(s, a) && t < |s.threads| && Leading(s.threads[t])
    ensures var s' := Do(w, s, a);
            || (a.Publish? && a.t == t && s'.loads == s.loads - {s.threads[t].key})
            || (Leading(s'.threads[t]) && s'.threads[t].key == s.threads[t].key)
  {
  }

  lemma {:induction false} StepInv(w: World, s: State, a: Action)
    requires Inv(w, s) && Enabled(s, a)
    ensures Inv(w, Do(w, s, a))
  {
    KeepsCache(w, s, a);
    KeepsCalls(w, s, a);
    KeepsThreads(w, s, a);
    KeepsOneLeader(w, s, a);
    KeepsLed(w, s, a);
    hide CacheRight, CallsRight, ThreadsRight, OneLeader, Led, Do;
  }

  // ----- Runs -----

  ghost predicate Run(w: World, trace: seq<State>, steps: seq<Action>) {
    && |trace| == |steps| + 1 && Init(trace[0])
    && forall i :: 0 <= i < |steps| ==> Enabled(trace[i], steps[i]) && trace[i + 1] == Do(w, trace[i], steps[i])
  }

  lemma {:induction false} RunInv(w: World, trace: seq<State>, steps: seq<Action>, k: nat)
    requires Run(w, trace, steps) && k < |trace|
    ensures Inv(w, trace[k])
  {
    hide Inv, Enabled, Do;
    if k == 0 {
      InitInv(w, trace[0]);
    } else {
      RunInv(w, trace, steps, k - 1);
      assert trace[k - 1 + 1] == Do(w, trace[k - 1], steps[k - 1]);
      StepInv(w, trace[k - 1], steps[k - 1]);
    }
  }

  /** In every state of every run at most one load per key is in flight. */
  lemma {:induction false} OneLoadPerKey(w: World, trace: seq<State>, steps: seq<Action>, k: nat, t: nat, u: nat)
    requires Run(w, trace, steps) && k < |trace| && t < |trace[k].threads| && u < |trace[k].threads|
    requires Leading(trace[k].threads[t]) && Leading(trace[k].threads[u])
    requires trace[k].threads[t].key == trace[k].threads[u].key
    ensures t == u
  {
    RunInv(w, trace, steps, k);
    OneLeads(w, trace[k], t, u);
  }

  /** Whatever the interleaving and whatever the cache has lost, every answer is the dataset's bytes with
      their digest, or says truly that there are none; and who joined a load has its leader's result. */
  lemma {:induction false} AnswersRight(w: World, trace: seq<State>, steps: seq<Action>, k: nat, t: nat)
    requires Run(w, trace, steps) && k < |trace| && t < |trace[k].threads| && trace[k].threads[t].Done?
    ensures var x := trace[k].threads[t];
            && Right(w, x.key, x.result)
            && (x.via.Some? ==> && x.via.value < |trace[k].calls|
                                && trace[k].calls[x.via.value] == Call(x.key, Some(x.result)))
  {
    RunInv(w, trace, steps, k);
    ThreadAt(w, trace[k], t);
  }

  /** A goroutine that waits for a load is never left behind: its result is there, or its leader can
      take a step towards it. */
  lemma {:induction false} WaiterServed(w: World, s: State, t: nat) returns (a: Action)
    requires Inv(w, s) && t < |s.threads| && s.threads[t].Waiting?
    ensures Enabled(s, a)
    ensures a == Join(t) || (ByThread(a) && LedBy(s, s.threads[t].key, a.t) && s.threads[a.t].id == s.threads[t].id)
  {
    var x := s.threads[t];
    ThreadAt(w, s, t);
    if s.calls[x.id].result.Some? {
      a := Join(t);
    } else {
      var i :| LedBy(s, x.key, i);
      var u: nat := i;
      ThreadAt(w, s, u);
      a := match s.threads[u]
        case Rechecking(_, _) => Recheck(u)
        case Recalling(_, _) => Recall(u)
        case Reading(_, _, _) => Read(u, true)
        case Storing(_, _, _, _) => Store(u, true)
        case _ => Publish(u);
    }
  }

  // ----- How often the dataset is read -----

  predicate ReadsTile(w: World, s: State, a: Action, k: Key)
    requires Enabled(s, a)
  {
    a.Read? && a.ok && s.threads[a.t].key == k && k in w.dataset
  }

  /** The cache loses the payload of k, or declines to keep it. */
  predicate LosesTile(s: State, a: Action, k: Key)
    requires Enabled(s, a)
  {
    || ((a.Demote? || a.Evict?) && a.key == k && Cached(s, k))
    || (a.Store? && !a.fits && s.threads[a.t].key == k)
  }

  predicate StoredBy(s: State, k: Key, t: int) {
    0 <= t < |s.threads| && s.threads[t].Storing? && s.threads[t].key == k
  }

  ghost predicate BeingStored(s: State, k: Key) {
    exists t :: StoredBy(s, k, t)
  }

  /** The payload of k is in the cache or on its way there; not both. */
  ghost function InHand(s: State, k: Key): nat {
    if Cached(s, k) || BeingStored(s, k) then 1 else 0
  }

  lemma {:induction false} ReadsAbsent(w: World, s: State, a: Action)
    requires Inv(w, s) && Enabled(s, a) && a.Read?
    ensures InHand(s, s.threads[a.t].key) == 0
  {
    var k := s.threads[a.t].key;
    ThreadAt(w, s, a.t);
    if BeingStored(s, k) {
      var t :| StoredBy(s, k, t);
      OneLeads(w, s, t, a.t);
    }
  }

  /** A run only ever looks up in the dataset what the cache does not have. */
  lemma {:induction false} ReadOnlyWhenAbsent(w: World, trace: seq<State>, steps: seq<Action>, n: nat)
    requires Run(w, trace, steps) && n < |steps| && steps[n].Read?
    ensures InHand(trace[n], trace[n].threads[steps[n].t].key) == 0
  {
    hide Inv, Do, InHand;
    RunInv(w, trace, steps, n);
    ReadsAbsent(w, trace[n], steps[n]);
  }

  function Reads(w: World, trace: seq<State>, steps: seq<Action>, k: Key, n: nat): nat
    requires n <= |steps| < |trace| && forall i :: 0 <= i < |steps| ==> Enabled(trace[i], steps[i])
  {
    if n == 0 then 0
    else Reads(w, trace, steps, k, n - 1) + if ReadsTile(w, trace[n - 1], steps[n - 1], k) then 1 else 0
  }

  function Losses(trace: seq<State>, steps: seq<Action>, k: Key, n: nat): nat
    requires n <= |steps| < |trace| && forall i :: 0 <= i < |steps| ==> Enabled(trace[i], steps[i])
  {
    if n == 0 then 0
    else Losses(trace, steps, k, n - 1) + if LosesTile(trace[n - 1], steps[n - 1], k) then 1 else 0
  }

  lemma {:induction false} CachedAfter(w: World, s: State, a: Action, k: Key)
    requires Enabled(s, a)
    ensures Cached(Do(w, s, a), k) <==>
              if (a.Demote? || a.Evict?) && a.key == k then false
              else if a.Store? && s.threads[a.t].key == k then a.fits || Cached(s, k)
              else Cached(s, k)
  {
    hide Next;
  }

  lemma {:induction false} StepInHand(w: World, s: State, a: Action, k: Key)
    requires Inv(w, s) && Enabled(s, a)
    ensures InHand(Do(w, s, a), k)
            == InHand(s, k) + (if ReadsTile(w, s, a, k) then 1 else 0) - (if LosesTile(s, a, k) then 1 else 0)
  {
    hide Do, Cached, BeingStored, Inv;
    CachedAfter(w, s, a, k);
    StoringThreads(w, s, a, k);
    if a.Read? {
      ReadsAbsent(w, s, a);
    }
    if BeingStored(s, k) {
      StoredWhenAbsent(w, s, k);
    }
  }

  lemma {:induction false} StoredWhenAbsent(w: World, s: State, k: Key)
    requires Inv(w, s) && BeingStored(s, k)
    ensures !Cached(s, k)
  {
    var t :| StoredBy(s, k, t);
    ThreadAt(w, s, t);
  }

  lemma {:induction false} OthersStore(w: World, s: State, a: Action, k: Key, t: int)
    requires Enabled(s, a) && !(ByThread(a) && t == a.t)
    ensures StoredBy(Do(w, s, a), k, t) <==> StoredBy(s, k, t)
  {
  }

  /** A thread begins to store a tile by reading it, and is through with it one step later. */
  lemma {:induction false} ActorStores(w: World, s: State, a: Action, k: Key)
    requires Enabled(s, a) && ByThread(a)
    ensures StoredBy(Do(w, s, a), k, a.t) <==> ReadsTile(w, s, a, k)
    ensures StoredBy(s, k, a.t) <==> a.Store? && s.threads[a.t].key == k
  {
  }

  /** Who stores k after a step: as before, except the thread that took it. */
  lemma {:induction false} StoringThreads(w: World, s: State, a: Action, k: Key)
    requires Inv(w, s) && Enabled(s, a)
    ensures a.Store? && s.threads[a.t].key == k ==> BeingStored(s, k) && !BeingStored(Do(w, s, a), k)
    ensures ReadsTile(w, s, a, k) ==> BeingStored(Do(w, s, a), k)
    ensures !(a.Store? && s.threads[a.t].key == k) && !ReadsTile(w, s, a, k) ==>
              (BeingStored(Do(w, s, a), k) <==> BeingStored(s, k))
  {
    hide Do, StoredBy, Inv;
    var s' := Do(w, s, a);
    forall t | !(ByThread(a) && t == a.t) ensures StoredBy(s', k, t) <==> StoredBy(s, k, t) {
      OthersStore(w, s, a, k, t);
    }
    if ByThread(a) {
      ActorStores(w, s, a, k);
      assert ReadsTile(w, s, a, k) ==> StoredBy(s', k, a.t);
      if a.Store? && s.threads[a.t].key == k {
        assert StoredBy(s, k, a.t);
        forall t ensures !StoredBy(s', k, t) {
          OneStores(w, s, a, k, t);
        }
      }
    }
  }

  lemma {:induction false} OneStores(w: World, s: State, a: Action, k: Key, t: int)
    requires Inv(w, s) && Enabled(s, a) && a.Store? && s.threads[a.t].key == k
    ensures !StoredBy(Do(w, s, a), k, t)
  {
    hide Do, Inv;
    if t == a.t {
      ActorStores(w, s, a, k);
    } else {
      OthersStore(w, s, a, k, t);
      if StoredBy(s, k, t) {
        OneLeads(w, s, t, a.t);
      }
    }
  }

  /** Conservation: each time the dataset is read for a tile, the payload is in hand afterwards until
      the cache loses it. So while it stays cached there is no second read. */
  lemma {:induction false} ReadsBalanceLosses(w: World, trace: seq<State>, steps: seq<Action>, k: Key, n: nat)
    requires Run(w, trace, steps) && n <= |steps|
    ensures Reads(w, trace, steps, k, n) == Losses(trace, steps, k, n) + InHand(trace[n], k)
  {
    hide Inv, Do, InHand, ReadsTile, LosesTile, Enabled;
    if n == 0 {
      NothingInHand(trace[0], k);
    } else {
      ReadsBalanceLosses(w, trace, steps, k, n - 1);
      RunInv(w, trace, steps, n - 1);
      StepInHand(w, trace[n - 1], steps[n - 1], k);
      assert trace[n - 1 + 1] == Do(w, trace[n - 1], steps[n - 1]);
    }
  }

  lemma {:induction false} NothingInHand(s: State, k: Key)
    requires Init(s)
    ensures InHand(s, k) == 0
  {
  }

  // ----- The two lanes of a key as its one cell -----

  /** What the normal and the large lane hold for a key together: a payload of either, and the checksum
      that is asked for first. */
  function Together(n: Option<Cell>, l: Option<Cell>): Option<Cell> {
    match (n, l)
    case (None, _) => l
    case (Some(_), None) => n
    case (Some(a), Some(b)) => if a.data.Some? then n else Some(Cell(b.data, a.checksum))
  }

  predicate MaybeRight(w: World, k: Key, c: Option<Cell>) {
    c.Some? ==> CellRight(w, k, c.value)
  }

  /** Get answers from the normal lane if it can and from the large one otherwise: that is a look at the
      one cell, whichever lane answers. */
  lemma {:induction false} GetLooks(w: World, k: Key, n: Option<Cell>, l: Option<Cell>, r: Option<TileCache.Hit>)
    requires MaybeRight(w, k, n) && MaybeRight(w, k, l)
    requires r == HitOf(n) || r == HitOf(l)
    requires r.Some? <==> HitOf(n).Some? || HitOf(l).Some?
    ensures r == HitOf(Together(n, l))
  {
  }

  lemma {:induction false} LookupHit(l: seq<TileCache.Item>, k: Key)
    ensures HitOf(CellOf(l, k)) == TileCache.Lookup(l, k)
    ensures ChecksumOf(CellOf(l, k)) == TileCache.Digest(l, k)
  {
  }

  function HitOf(c: Option<Cell>): Option<TileCache.Hit> {
    if c.Some? && c.value.data.Some? then Some(TileCache.Hit(c.value.data.value, c.value.checksum)) else None
  }

  function ChecksumOf(c: Option<Cell>): Option<string> {
    if c.Some? then Some(c.value.checksum) else None
  }

  /** What either lane loses the one cell loses, or nothing. */
  lemma {:induction false} LosesTogether(w: World, k: Key, n: Option<Cell>, l: Option<Cell>,
                                         n': Option<Cell>, l': Option<Cell>)
    requires MaybeRight(w, k, n) && MaybeRight(w, k, l) && Lost(n, n') && Lost(l, l')
    ensures MaybeRight(w, k, n') && MaybeRight(w, k, l') && Lost(Together(n, l), Together(n', l'))
  {
    hide CellRight;
    ThreeWays(w, k, n);
    ThreeWays(w, k, l);
    if n.Some? || l.Some? {
      assert k in w.dataset by { RightKnown(w, k, if n.Some? then n.value else l.value); }
      ThreeRight(w, k);
      assert n' == None || n' == Some(Bare(w, k)) || n' == Some(Whole(w, k));
      assert l' == None || l' == Some(Bare(w, k)) || l' == Some(Whole(w, k));
    }
  }

  /** The two cells that are right for a key of the dataset. */
  function Bare(w: World, k: Key): Cell
    requires k in w.dataset
  {
    Cell(None, w.digest(w.dataset[k]))
  }

  function Whole(w: World, k: Key): Cell
    requires k in w.dataset
  {
    Cell(Some(w.dataset[k]), w.digest(w.dataset[k]))
  }

  lemma {:induction false} RightKnown(w: World, k: Key, c: Cell)
    requires CellRight(w, k, c)
    ensures k in w.dataset
  {
  }

  lemma {:induction false} ThreeRight(w: World, k: Key)
    requires k in w.dataset
    ensures CellRight(w, k, Bare(w, k)) && CellRight(w, k, Whole(w, k))
  {
  }

  lemma {:induction false} ThreeWays(w: World, k: Key, c: Option<Cell>)
    requires MaybeRight(w, k, c)
    ensures c == None || (k in w.dataset && (c == Some(Bare(w, k)) || c == Some(Whole(w, k))))
  {
  }

  /** The cell of a key after put: in the protocol's terms, Store with this outcome. */
  function StoredCell(c: Option<Cell>, data: Bytes, checksum: string, fits: bool): Cell {
    if fits then Cell(Some(data), checksum)
    else if c.Some? && c.value.data.Some? then c.value
    else Cell(None, checksum)
  }

  /** Storing in either lane, or leaving the checksum in the normal one, is Store on the one cell, perhaps
      with a loss after it. */
  lemma {:induction false} StoresTogether(w: World, k: Key, n: Option<Cell>, l: Option<Cell>,
                                          n': Option<Cell>, l': Option<Cell>, data: Bytes, checksum: string, fits: bool)
    requires MaybeRight(w, k, n) && MaybeRight(w, k, l) && Right(w, k, Found(data, checksum))
    requires fits ==>
               (n' == Some(Cell(Some(data), checksum)) && l' == l)
               || (n' == n && l' == Some(Cell(Some(data), checksum)))
    requires !fits ==> l' == l && (Lost(n, n') || Lost(Some(Cell(None, checksum)), n'))
    ensures MaybeRight(w, k, n') && MaybeRight(w, k, l')
    ensures Lost(Some(StoredCell(Together(n, l), data, checksum, fits)), Together(n', l'))
    ensures fits ==> Together(n', l') == Some(Cell(Some(data), checksum))
  {
    hide CellRight;
    ThreeWays(w, k, n);
    ThreeWays(w, k, l);
    ThreeRight(w, k);
    assert Cell(Some(data), checksum) == Whole(w, k) && Cell(None, checksum) == Bare(w, k);
  }

  ghost function NormalCell(c: TileCache.Cache, k: Key): Option<Cell>
    requires c.Valid()
    reads c, c.shards, c.largeTile
  {
    CellOf(c.shards[TileCache.ShardIndex(k)].Contents(), k)
  }

  ghost function LargeCell(c: TileCache.Cache, k: Key): Option<Cell>
    requires c.Valid()
    reads c, c.shards, c.largeTile
  {
    CellOf(c.largeTile.Contents(), k)
  }

  /** The protocol's cell of a key in a real cache. */
  ghost function CacheCell(c: TileCache.Cache, k: Key): Option<Cell>
    requires c.Valid()
    reads c, c.shards, c.largeTile
  {
    Together(NormalCell(c, k), LargeCell(c, k))
  }

  ghost predicate LanesRight(w: World, c: TileCache.Cache)
    requires c.Valid()
    reads c, c.shards, c.largeTile
  {
    forall k :: MaybeRight(w, k, NormalCell(c, k)) && MaybeRight(w, k, LargeCell(c, k))
  }

  /** A hit or a miss of Get leaves the cells of a lane as they are. */
  lemma {:induction false} GetKeepsCells(l: seq<TileCache.Item>, max: int, j: Key, k: Key)
    ensures CellOf(TileCache.Step(l, max, TileCache.Op.Get(j)), k) == CellOf(l, k)
  {
    hide CellOf, TileCache.Without;
    if TileCache.Lookup(l, j).Some? {
      LookupCell(l, j);
      FrontCells(l, l[TileCache.Position(l, j)], k);
    }
  }

  /** The step Probe, or Recheck, on the real cache. */
  method ProbeCache(c: TileCache.Cache, k: Key, ghost w: World) returns (r: Option<TileCache.Hit>)
    requires c.Valid() && LanesRight(w, c)
    modifies c.shards[TileCache.ShardIndex(k)], c.largeTile
    ensures c.Valid() && LanesRight(w, c)
    ensures r == HitOf(old(CacheCell(c, k)))
    ensures forall j :: CacheCell(c, j) == old(CacheCell(c, j))
  {
    hide CellOf, TileCache.Step, TileCache.Lookup, TileCache.ShardIndex, MaybeRight;
    ghost var n, l := c.shards[TileCache.ShardIndex(k)].Contents(), c.largeTile.Contents();
    LookupHit(n, k);
    LookupHit(l, k);
    assert MaybeRight(w, k, NormalCell(c, k)) && MaybeRight(w, k, LargeCell(c, k));
    r := c.Get(k);
    GetLooks(w, k, CellOf(n, k), CellOf(l, k), r);
    forall j ensures NormalCell(c, j) == old(NormalCell(c, j)) && LargeCell(c, j) == old(LargeCell(c, j)) {
      GetKeepsCells(n, c.shards[TileCache.ShardIndex(k)].maxBytes, k, j);
      GetKeepsCells(l, c.largeTile.maxBytes, k, j);
    }
  }

  /** The step Recall. */
  method RecallFromCache(c: TileCache.Cache, k: Key) returns (r: Option<string>)
    requires c.Valid()
    ensures r == ChecksumOf(CacheCell(c, k))
  {
    hide TileCache.ShardIndex;
    r := c.Checksum(k);
  }

  /** The step Store, with Demote and Evict for whatever the lanes lose over it. */
  method StoreInCache(c: TileCache.Cache, k: Key, data: Bytes, checksum: string, ghost w: World)
    returns (ghost fits: bool)
    requires c.Valid() && LanesRight(w, c) && Right(w, k, Found(data, checksum))
    modifies c.shards[TileCache.ShardIndex(k)], c.largeTile
    ensures c.Valid() && LanesRight(w, c)
    ensures Lost(Some(StoredCell(old(CacheCell(c, k)), data, checksum, fits)), CacheCell(c, k))
    ensures fits ==> CacheCell(c, k) == Some(Cell(Some(data), checksum))
    ensures forall j :: j != k ==> Lost(old(CacheCell(c, j)), CacheCell(c, j))
  {
    hide CellOf, TileCache.Step, TileCache.Lookup, TileCache.ShardIndex, MaybeRight, Lost, TileCache.ChecksumSize;
    ghost var normal := c.shards[TileCache.ShardIndex(k)];
    ghost var n, l := normal.Contents(), c.largeTile.Contents();
    ghost var size := TileCache.ChecksumSize(checksum) + |data|;
    fits := size <= normal.maxBytes || size <= c.largeTile.maxBytes;
    assert MaybeRight(w, k, NormalCell(c, k)) && MaybeRight(w, k, LargeCell(c, k));
    c.Put(k, data, checksum);
    LookupHit(normal.Contents(), k);
    LookupHit(c.largeTile.Contents(), k);
    LaneSteps(n, normal.maxBytes, TileCache.Op.PutChecksum(k, checksum), k);
    StoresTogether(w, k, CellOf(n, k), CellOf(l, k), NormalCell(c, k), LargeCell(c, k), data, checksum, fits);
    forall j | j != k
      ensures MaybeRight(w, j, NormalCell(c, j)) && MaybeRight(w, j, LargeCell(c, j))
      ensures Lost(old(CacheCell(c, j)), CacheCell(c, j))
    {
      assert MaybeRight(w, j, old(NormalCell(c, j))) && MaybeRight(w, j, old(LargeCell(c, j)));
      NothingLost(old(NormalCell(c, j)));
      NothingLost(old(LargeCell(c, j)));
      OthersLose(n, normal.maxBytes, k, data, checksum, j);
      OthersLose(l, c.largeTile.maxBytes, k, data, checksum, j);
      LosesTogether(w, j, old(NormalCell(c, j)), old(LargeCell(c, j)), NormalCell(c, j), LargeCell(c, j));
    }
  }

  lemma {:induction false} NothingLost(c: Option<Cell>)
    ensures Lost(c, c)
  {
  }

  /** Storing under one key takes at most something from the others. */
  lemma {:induction false} OthersLose(l: seq<TileCache.Item>, max: int, k: Key, data: Bytes, checksum: string, j: Key)
    requires max >= 0 && j != k
    ensures Lost(CellOf(l, j), CellOf(TileCache.Step(l, max, TileCache.PutPayload(k, data, checksum)), j))
    ensures Lost(CellOf(l, j), CellOf(TileCache.Step(l, max, TileCache.Op.PutChecksum(k, checksum)), j))
  {
    hide CellOf, TileCache.Step;
    LaneSteps(l, max, TileCache.PutPayload(k, data, checksum), j);
    LaneSteps(l, max, TileCache.Op.PutChecksum(k, checksum), j);
  }
}
