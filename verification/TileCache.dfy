/** The in-process tile cache (server/tile_cache.go): sixteen byte-bounded LRU lanes and one for large
    tiles, each with a front snapshot that serves hits without the lock. */
module TileCache {
  import opened Bits
  import opened Options

  datatype Key = Key(z: int, x: int, y: int)

  const OVERHEAD := 320
  const SHARDS := 16
  const LARGE_FRACTION := 4

  function ChecksumSize(checksum: string): nat {
    |checksum| + OVERHEAD
  }

  // ----- A plain LRU: the list of items, most recently used first -----

  /** An item whose payload was evicted keeps its checksum. */
  datatype Item = Item(key: Key, data: Option<Bytes>, checksum: string)

  datatype Hit = Hit(data: Bytes, checksum: string)

  function Size(e: Item): nat {
    ChecksumSize(e.checksum) + if e.data.Some? then |e.data.value| else 0
  }

  function Used(l: seq<Item>): nat {
    if l == [] then 0 else Size(l[0]) + Used(l[1..])
  }

  function Position(l: seq<Item>, k: Key): (p: nat)
    ensures p <= |l|
    ensures p < |l| ==> l[p].key == k
    ensures forall j :: 0 <= j < p ==> l[j].key != k
  {
    if l == [] || l[0].key == k then 0 else 1 + Position(l[1..], k)
  }

  function Lookup(l: seq<Item>, k: Key): Option<Hit> {
    var p := Position(l, k);
    if p < |l| && l[p].data.Some? then Some(Hit(l[p].data.value, l[p].checksum)) else None
  }

  function Digest(l: seq<Item>, k: Key): Option<string> {
    var p := Position(l, k);
    if p < |l| then Some(l[p].checksum) else None
  }

  function Without(l: seq<Item>, k: Key): seq<Item> {
    var p := Position(l, k);
    if p < |l| then l[..p] + l[p + 1..] else l
  }

  function Touch(l: seq<Item>, k: Key): seq<Item> {
    var p := Position(l, k);
    if p < |l| then [l[p]] + Without(l, k) else l
  }

  function Demoted(e: Item): Item {
    e.(data := None)
  }

  /** Evict from the back until the rest fits: first the payload of an item, then the item. */
  function Trim(l: seq<Item>, max: int): (r: seq<Item>)
    decreases |l|, if l != [] && l[|l| - 1].data.Some? then 1 else 0
  {
    if Used(l) <= max || l == [] then l
    else
      var last := l[|l| - 1];
      if last.data.Some? then Trim(l[..|l| - 1] + [Demoted(last)], max) else Trim(l[..|l| - 1], max)
  }

  function Put(l: seq<Item>, max: int, e: Item): seq<Item> {
    Trim([e] + Without(l, e.key), max)
  }

  /** A bare checksum never replaces an item that has its payload. */
  function PutDigest(l: seq<Item>, max: int, k: Key, checksum: string): seq<Item> {
    if ChecksumSize(checksum) > max || Lookup(l, k).Some? then l else Put(l, max, Item(k, None, checksum))
  }

  // ----- What eviction keeps -----

  lemma {:induction false} UsedAppend(a: seq<Item>, b: seq<Item>)
    ensures Used(a + b) == Used(a) + Used(b)
  {
    if a == [] {
      assert a + b == b;
    } else {
      assert (a + b)[1..] == a[1..] + b;
      UsedAppend(a[1..], b);
    }
  }

  /** r is l with items cut off the back, perhaps with the payload of the last one left dropped. */
  predicate Evicted(l: seq<Item>, r: seq<Item>) {
    |r| <= |l| &&
    (r == l[..|r|] ||
     (r != [] && l[|r| - 1].data.Some? && r == l[..|r| - 1] + [Demoted(l[|r| - 1])]))
  }

  /** Trim stops at the first list along the way that fits: whatever else fits has lost more. */
  lemma {:induction false} TrimKeepsMost(l: seq<Item>, max: int, other: seq<Item>)
    requires max >= 0
    ensures Evicted(l, Trim(l, max)) && Used(Trim(l, max)) <= max
    ensures Evicted(l, other) && Used(other) <= max ==> Evicted(Trim(l, max), other)
    decreases |l|, if l != [] && l[|l| - 1].data.Some? then 1 else 0
  {
    if Used(l) > max {
      var n := |l| - 1;
      var last := l[n];
      var next := if last.data.Some? then l[..n] + [Demoted(last)] else l[..n];
      TrimKeepsMost(next, max, other);
      StepDown(l, Trim(l, max));
      if Evicted(l, other) && Used(other) <= max {
        assert other != l;
        NextDown(l, other);
      }
    }
  }

  lemma {:induction false} StepDown(l: seq<Item>, r: seq<Item>)
    requires l != []
    ensures var n := |l| - 1;
            var next := if l[n].data.Some? then l[..n] + [Demoted(l[n])] else l[..n];
            Evicted(next, r) ==> Evicted(l, r)
  {
    var n := |l| - 1;
    var next := if l[n].data.Some? then l[..n] + [Demoted(l[n])] else l[..n];
    if Evicted(next, r) {
      if |r| <= n {
        assert next[..|r|] == l[..|r|];
        if r != [] {
          assert next[..|r| - 1] == l[..|r| - 1] && next[|r| - 1] == l[|r| - 1];
        }
      } else {
        assert next[..|r|] == next;
      }
    }
  }

  lemma {:induction false} NextDown(l: seq<Item>, r: seq<Item>)
    requires l != [] && Evicted(l, r) && r != l
    ensures var n := |l| - 1;
            var next := if l[n].data.Some? then l[..n] + [Demoted(l[n])] else l[..n];
            Evicted(next, r)
  {
    var n := |l| - 1;
    var next := if l[n].data.Some? then l[..n] + [Demoted(l[n])] else l[..n];
    if |r| <= n {
      assert next[..|r|] == l[..|r|];
      if r != [] {
        assert next[..|r| - 1] == l[..|r| - 1] && next[|r| - 1] == l[|r| - 1];
      }
    } else {
      assert l[..|r|] == l && next[..|r|] == next;
    }
  }

  /** The head goes last: an item that fits by itself survives as it was put. */
  lemma {:induction false} HeadSurvives(l: seq<Item>, max: int)
    requires l != [] && Size(l[0]) <= max
    ensures Trim(l, max) != [] && Trim(l, max)[0] == l[0]
  {
    assert Used([l[0]]) == Size(l[0]) + Used([]);
    TrimKeepsMost(l, max, [l[0]]);
    assert [l[0]] == l[..1];
    var r := Trim(l, max);
    assert Evicted(r, [l[0]]);
  }

  // ----- Keys -----

  /** When k was last used: its last place in the history, counted from 1, or 0. */
  function LastUse(h: seq<Key>, k: Key): (n: nat)
    ensures n <= |h|
  {
    if h == [] then 0 else if h[|h| - 1] == k then |h| else LastUse(h[..|h| - 1], k)
  }

  /** The list is ordered by last use, the most recent first. */
  ghost predicate ByRecency(l: seq<Item>, h: seq<Key>) {
    forall i, j :: 0 <= i < j < |l| ==> LastUse(h, l[i].key) > LastUse(h, l[j].key)
  }

  lemma {:induction false} EvictedByRecency(l: seq<Item>, r: seq<Item>, h: seq<Key>)
    requires Evicted(l, r) && ByRecency(l, h)
    ensures ByRecency(r, h)
  {
    hide LastUse;
    forall i | 0 <= i < |r| ensures r[i].key == l[i].key {
    }
  }

  lemma {:induction false} FrontByRecency(l: seq<Item>, e: Item, h: seq<Key>)
    requires ByRecency(l, h)
    ensures ByRecency([e] + Without(l, e.key), h + [e.key])
  {
    var w, k := Without(l, e.key), e.key;
    WithoutLacks(l, k, h);
    var h' := h + [k];
    assert h'[..|h|] == h;
    forall i | 0 <= i < |w| ensures LastUse(h', w[i].key) == LastUse(h, w[i].key) {
      assert w[i].key != k;
    }
    var l' := [e] + w;
    forall i, j | 0 <= i < j < |l'| ensures LastUse(h', l'[i].key) > LastUse(h', l'[j].key) {
      assert l'[j] == w[j - 1];
      if i > 0 {
        assert l'[i] == w[i - 1];
      }
    }
  }

  lemma {:induction false} WithoutLacks(l: seq<Item>, k: Key, h: seq<Key>)
    requires ByRecency(l, h)
    ensures ByRecency(Without(l, k), h)
    ensures forall i :: 0 <= i < |Without(l, k)| ==> Without(l, k)[i].key != k
  {
    hide LastUse;
    var p, w := Position(l, k), Without(l, k);
    forall i | 0 <= i < |w|
      ensures w[i] == l[if i < p then i else i + 1] && w[i].key != k
    {
      if p < |l| && i >= p {
        assert LastUse(h, l[p].key) > LastUse(h, l[i + 1].key);
      }
    }
  }

  // ----- Histories of one lane -----

  datatype Op =
    | Get(key: Key)
    | PutPayload(key: Key, data: Bytes, checksum: string)
    | PutChecksum(key: Key, checksum: string)

  function Step(l: seq<Item>, max: int, op: Op): seq<Item> {
    match op
    case Get(k) => if Lookup(l, k).Some? then Touch(l, k) else l
    case PutPayload(k, d, c) => Put(l, max, Item(k, Some(d), c))
    case PutChecksum(k, c) => PutDigest(l, max, k, c)
  }

  /** Hits and stores use an item; misses and ignored checksums do not. */
  predicate UsesItem(l: seq<Item>, max: int, op: Op) {
    match op
    case Get(k) => Lookup(l, k).Some?
    case PutPayload(_, _, _) => true
    case PutChecksum(k, c) => ChecksumSize(c) <= max && Lookup(l, k).None?
  }

  function Run(ops: seq<Op>, max: int): seq<Item> {
    if ops == [] then [] else Step(Run(ops[..|ops| - 1], max), max, ops[|ops| - 1])
  }

  function Uses(ops: seq<Op>, max: int): seq<Key> {
    if ops == [] then []
    else
      var before, op := ops[..|ops| - 1], ops[|ops| - 1];
      Uses(before, max) + if UsesItem(Run(before, max), max, op) then [op.key] else []
  }

  function LastPut(ops: seq<Op>, k: Key): Option<Hit> {
    if ops == [] then None
    else
      var op := ops[|ops| - 1];
      if op.PutPayload? && op.key == k then Some(Hit(op.data, op.checksum)) else LastPut(ops[..|ops| - 1], k)
  }

  predicate Gives(op: Op, k: Key, checksum: string) {
    !op.Get? && op.key == k && op.checksum == checksum
  }

  /** What one item may say after the operations ops. */
  ghost predicate ItemTrue(e: Item, ops: seq<Op>) {
    && (e.data.Some? ==> LastPut(ops, e.key) == Some(Hit(e.data.value, e.checksum)))
    && exists op :: op in ops && Gives(op, e.key, e.checksum)
  }

  ghost predicate Faithful(l: seq<Item>, ops: seq<Op>) {
    forall i :: 0 <= i < |l| ==> ItemTrue(l[i], ops)
  }

  /** After any operations on an empty lane: it fits its budget, is ordered by last use, and a hit
      returns what was last stored under the key. */
  lemma {:induction false} RunServes(ops: seq<Op>, max: int)
    requires max >= 0
    ensures Used(Run(ops, max)) <= max
    ensures ByRecency(Run(ops, max), Uses(ops, max))
    ensures Faithful(Run(ops, max), ops)
  {
    hide Step, UsesItem, LastUse, ItemTrue;
    if ops == [] {
      assert Run(ops, max) == [];
    } else {
      hide Faithful, ByRecency, Used;
      var before, op := ops[..|ops| - 1], ops[|ops| - 1];
      var l, h := Run(before, max), Uses(before, max);
      RunServes(before, max);
      StepFits(l, max, op);
      StepRecency(l, max, op, h);
      StepFaithful(l, max, op, before, h);
      assert ops == before + [op];
      assert h + [] == h;
    }
  }

  lemma {:induction false} HitIsLastPut(ops: seq<Op>, max: int, k: Key)
    requires max >= 0
    ensures Lookup(Run(ops, max), k).Some? ==> Lookup(Run(ops, max), k) == LastPut(ops, k)
    ensures Digest(Run(ops, max), k).Some? ==>
              exists op :: op in ops && Gives(op, k, Digest(Run(ops, max), k).value)
  {
    hide Run, LastPut, Uses, ByRecency, Used;
    RunServes(ops, max);
    var l := Run(ops, max);
    var p := Position(l, k);
    if p < |l| {
      assert ItemTrue(l[p], ops);
    }
  }

  lemma {:induction false} StepFits(l: seq<Item>, max: int, op: Op)
    requires max >= 0 && Used(l) <= max
    ensures Used(Step(l, max, op)) <= max
  {
    hide Used, Trim, Evicted, Size;
    match op {
      case Get(k) => TouchUsed(l, k);
      case PutPayload(k, d, c) => TrimKeepsMost([Item(k, Some(d), c)] + Without(l, k), max, []);
      case PutChecksum(k, c) => TrimKeepsMost([Item(k, None, c)] + Without(l, k), max, []);
    }
  }

  lemma {:induction false} TouchUsed(l: seq<Item>, k: Key)
    ensures Used(Touch(l, k)) == Used(l)
    ensures Position(l, k) < |l| ==> Used(l) == Size(l[Position(l, k)]) + Used(Without(l, k))
  {
    hide Size;
    var p := Position(l, k);
    if p < |l| {
      assert l == l[..p] + ([l[p]] + l[p + 1..]);
      UsedAppend(l[..p], [l[p]] + l[p + 1..]);
      UsedAppend(l[..p], l[p + 1..]);
      assert ([l[p]] + l[p + 1..])[1..] == l[p + 1..];
      assert Touch(l, k)[1..] == Without(l, k);
    }
  }

  lemma {:induction false} StepRecency(l: seq<Item>, max: int, op: Op, h: seq<Key>)
    requires max >= 0 && ByRecency(l, h)
    ensures ByRecency(Step(l, max, op), if UsesItem(l, max, op) then h + [op.key] else h)
  {
    hide Trim, Evicted, LastUse, Without, Used, Size, ByRecency;
    if UsesItem(l, max, op) {
      var k := op.key;
      var e := match op
        case Get(_) => l[Position(l, k)]
        case PutPayload(_, d, c) => Item(k, Some(d), c)
        case PutChecksum(_, c) => Item(k, None, c);
      FrontByRecency(l, e, h);
      if !op.Get? {
        TrimKeepsMost([e] + Without(l, k), max, []);
        EvictedByRecency([e] + Without(l, k), Step(l, max, op), h + [k]);
      }
    } else {
      assert Step(l, max, op) == l;
    }
  }

  lemma {:induction false} StepFaithful(l: seq<Item>, max: int, op: Op, ops: seq<Op>, h: seq<Key>)
    requires max >= 0 && Faithful(l, ops) && ByRecency(l, h)
    ensures Faithful(Step(l, max, op), ops + [op])
  {
    hide Trim, LastUse, Used, Size, LastPut, ItemTrue, Evicted, ByRecency, Without, Position;
    var k, ops' := op.key, ops + [op];
    WithoutLacks(l, k, h);
    OthersFaithful(Without(l, k), op, ops, l);
    if UsesItem(l, max, op) {
      var e := match op
        case Get(_) => l[Position(l, k)]
        case PutPayload(_, d, c) => Item(k, Some(d), c)
        case PutChecksum(_, c) => Item(k, None, c);
      NewItemTrue(l, e, op, ops);
      var w := [e] + Without(l, k);
      assert Faithful(w, ops');
      if !op.Get? {
        TrimKeepsMost(w, max, []);
        EvictedFaithful(w, Step(l, max, op), ops');
      }
    } else {
      assert Step(l, max, op) == l;
      UnusedFaithful(l, op, ops);
    }
  }

  lemma {:induction false} NewItemTrue(l: seq<Item>, e: Item, op: Op, ops: seq<Op>)
    requires op.PutPayload? ==> e == Item(op.key, Some(op.data), op.checksum)
    requires op.PutChecksum? ==> e == Item(op.key, None, op.checksum)
    requires op.Get? ==> e in l
    requires Faithful(l, ops)
    ensures ItemTrue(e, ops + [op])
  {
    var ops' := ops + [op];
    assert ops'[..|ops|] == ops && ops'[|ops|] == op;
    if op.Get? {
      KeptTrue(e, op, ops);
    } else {
      assert op in ops' && Gives(op, e.key, e.checksum);
    }
  }

  lemma {:induction false} KeptTrue(e: Item, op: Op, ops: seq<Op>)
    requires ItemTrue(e, ops) && (op.PutPayload? ==> op.key != e.key)
    ensures ItemTrue(e, ops + [op])
  {
    var ops' := ops + [op];
    assert ops'[..|ops|] == ops && ops'[|ops|] == op;
    var given :| given in ops && Gives(given, e.key, e.checksum);
    assert given in ops' && Gives(given, e.key, e.checksum);
  }

  lemma {:induction false} OthersFaithful(w: seq<Item>, op: Op, ops: seq<Op>, l: seq<Item>)
    requires Faithful(l, ops)
    requires w == Without(l, op.key)
    requires forall i :: 0 <= i < |w| ==> w[i].key != op.key
    ensures Faithful(w, ops + [op])
  {
    hide ItemTrue, Position;
    forall i | 0 <= i < |w| ensures ItemTrue(w[i], ops + [op]) {
      var p := Position(l, op.key);
      assert w[i] == l[if i < p then i else i + 1];
      KeptTrue(w[i], op, ops);
    }
  }

  lemma {:induction false} UnusedFaithful(l: seq<Item>, op: Op, ops: seq<Op>)
    requires Faithful(l, ops) && !op.PutPayload?
    ensures Faithful(l, ops + [op])
  {
    hide ItemTrue;
    forall i | 0 <= i < |l| ensures ItemTrue(l[i], ops + [op]) {
      KeptTrue(l[i], op, ops);
    }
  }

  lemma {:induction false} EvictedFaithful(l: seq<Item>, r: seq<Item>, ops: seq<Op>)
    requires Evicted(l, r) && Faithful(l, ops)
    ensures Faithful(r, ops)
  {
    hide LastPut;
    forall i | 0 <= i < |r| ensures ItemTrue(r[i], ops) {
      assert ItemTrue(l[i], ops);
      assert r[i] == l[i] || r[i] == Demoted(l[i]);
    }
  }

  // ----- What a budget is worth -----

  lemma {:induction false} WithoutLater(l: seq<Item>, k: Key)
    requires l != [] && l[0].key != k
    ensures Without(l, k) == [l[0]] + Without(l[1..], k)
  {
    var p := Position(l, k);
    if p < |l| {
      assert l[..p] == [l[0]] + l[1..][..p - 1] && l[p + 1..] == l[1..][p..];
    }
  }

  lemma {:induction false} UsedFirst(l: seq<Item>)
    requires l != []
    ensures Used(l) == Size(l[0]) + Used(l[1..])
  {
  }

  function PayloadBytes(l: seq<Item>): nat {
    if l == [] then 0 else (if l[0].data.Some? then |l[0].data.value| else 0) + PayloadBytes(l[1..])
  }

  function DigestBytes(l: seq<Item>): nat {
    if l == [] then 0 else |l[0].checksum| + DigestBytes(l[1..])
  }

  /** A budget pays for payloads, digests and 320 bytes for each item. */
  lemma {:induction false} UsedIs(l: seq<Item>)
    ensures Used(l) == PayloadBytes(l) + DigestBytes(l) + 320 * |l|
  {
    if l != [] {
      UsedIs(l[1..]);
    }
  }

  lemma {:induction false} UsedUpTo(a: seq<Item>, n: nat)
    requires n <= |a|
    ensures Used(a[..n]) <= Used(a)
  {
    assert a == a[..n] + a[n..];
    UsedAppend(a[..n], a[n..]);
  }

  /** Least recently used goes first, and nothing goes that there is room for: a payload stays exactly if it fits
      together with everything used more recently. */
  lemma {:induction false} StaysIff(l: seq<Item>, max: int, p: nat)
    requires max >= 0 && p < |l| && l[p].data.Some?
    ensures var r := Trim(l, max);
            (p < |r| && r[p] == l[p]) <==> Used(l[..p + 1]) <= max
  {
    var r, other := Trim(l, max), l[..p + 1];
    TrimKeepsMost(l, max, other);
    hide Trim, Used;
    assert Evicted(l, other) by {
      assert other == l[..|other|];
    }
    if p < |r| && r[p] == l[p] {
      assert r[..p + 1] == other by { KeptPrefix(l, r, p); }
      UsedUpTo(r, p + 1);
    }
    if Used(other) <= max {
      assert Evicted(r, other);
      assert other[p] == l[p];
    }
  }

  lemma {:induction false} KeptPrefix(l: seq<Item>, r: seq<Item>, p: nat)
    requires Evicted(l, r) && p < |r| && r[p] == l[p]
    ensures r[..p + 1] == l[..p + 1]
  {
  }

  /** What looking up finds once an item has been put in front. */
  lemma {:induction false} LookupFront(l: seq<Item>, e: Item, k: Key)
    ensures Lookup([e] + Without(l, e.key), k)
            == if k == e.key then (if e.data.Some? then Some(Hit(e.data.value, e.checksum)) else None)
               else Lookup(l, k)
  {
    var w := Without(l, e.key);
    assert ([e] + w)[1..] == w;
    if k != e.key {
      LookupWithout(l, e.key, k);
    }
  }

  // Taking out one key leaves the first item of any other key what it was.
  lemma {:induction false} PositionWithout(l: seq<Item>, j: Key, k: Key)
    requires k != j
    ensures var p, w := Position(l, k), Without(l, j);
            var q := Position(w, k);
            (q < |w| <==> p < |l|) && (p < |l| ==> w[q] == l[p])
  {
    hide Position;
    var p, c, w := Position(l, k), Position(l, j), Without(l, j);
    var q := Position(w, k);
    var e := if c < p then p - 1 else p;
    if p < |l| {
      assert w[e] == l[p];
    }
    if q < |w| {
      assert w[q] == l[if c <= q then q + 1 else q];
    }
  }

  lemma {:induction false} LookupWithout(l: seq<Item>, j: Key, k: Key)
    requires k != j
    ensures Lookup(Without(l, j), k) == Lookup(l, k)
  {
    PositionWithout(l, j, k);
  }

  /** What an operation may cost the budget. */
  function Cost(op: Op): nat {
    match op
    case Get(_) => 0
    case PutPayload(_, d, c) => |d| + |c| + 320
    case PutChecksum(_, c) => |c| + 320
  }

  function TotalCost(ops: seq<Op>): nat {
    if ops == [] then 0 else TotalCost(ops[..|ops| - 1]) + Cost(ops[|ops| - 1])
  }

  lemma {:induction false} FrontUsed(l: seq<Item>, e: Item)
    ensures Used([e] + Without(l, e.key)) <= Size(e) + Used(l)
  {
    TouchUsed(l, e.key);
    UsedFirst([e] + Without(l, e.key));
    assert ([e] + Without(l, e.key))[1..] == Without(l, e.key);
  }

  lemma {:induction false} StepKeepsAll(l: seq<Item>, max: int, op: Op, k: Key)
    requires Used(l) + Cost(op) <= max
    ensures Used(Step(l, max, op)) <= Used(l) + Cost(op)
    ensures Lookup(Step(l, max, op), k)
            == if op.PutPayload? && op.key == k then Some(Hit(op.data, op.checksum)) else Lookup(l, k)
  {
    hide Used, Lookup, Without, Position;
    match op {
      case Get(j) =>
        TouchUsed(l, j);
        if Lookup(l, j).Some? {
          LookupFound(l, j);
          LookupFront(l, l[Position(l, j)], k);
        }
      case PutPayload(j, d, c) =>
        FrontUsed(l, Item(j, Some(d), c));
        LookupFront(l, Item(j, Some(d), c), k);
      case PutChecksum(j, c) =>
        FrontUsed(l, Item(j, None, c));
        LookupFront(l, Item(j, None, c), k);
    }
  }

  /** What a lookup of the digest finds then. */
  lemma {:induction false} DigestFront(l: seq<Item>, e: Item, k: Key)
    ensures Digest([e] + Without(l, e.key), k) == if k == e.key then Some(e.checksum) else Digest(l, k)
  {
    var w := Without(l, e.key);
    assert ([e] + w)[1..] == w;
    if k != e.key {
      DigestWithout(l, e.key, k);
    }
  }

  lemma {:induction false} DigestWithout(l: seq<Item>, j: Key, k: Key)
    requires k != j
    ensures Digest(Without(l, j), k) == Digest(l, k)
  {
    PositionWithout(l, j, k);
  }

  lemma {:induction false} StepKeepsDigests(l: seq<Item>, max: int, op: Op, k: Key)
    requires Used(l) + Cost(op) <= max
    ensures Digest(Step(l, max, op), k)
            == if op.key == k && (op.PutPayload? || (op.PutChecksum? && Lookup(l, k).None?)) then Some(op.checksum)
               else Digest(l, k)
  {
    hide Used, Lookup, Digest, Without, Position;
    match op {
      case Get(j) =>
        if Lookup(l, j).Some? {
          LookupFound(l, j);
          DigestFront(l, l[Position(l, j)], k);
          DigestFound(l, j);
        }
      case PutPayload(j, d, c) =>
        FrontUsed(l, Item(j, Some(d), c));
        DigestFront(l, Item(j, Some(d), c), k);
      case PutChecksum(j, c) =>
        FrontUsed(l, Item(j, None, c));
        DigestFront(l, Item(j, None, c), k);
    }
  }

  lemma {:induction false} DigestFound(l: seq<Item>, k: Key)
    requires Lookup(l, k).Some?
    ensures Position(l, k) < |l| && Digest(l, k) == Some(l[Position(l, k)].checksum)
  {
  }

  lemma {:induction false} LookupFound(l: seq<Item>, k: Key)
    requires Lookup(l, k).Some?
    ensures var p := Position(l, k);
            p < |l| && l[p].key == k && l[p].data.Some? && Lookup(l, k) == Some(Hit(l[p].data.value, l[p].checksum))
  {
  }

  /** The digest last given for a key; a bare one counts only before a payload is put. */
  function LastDigest(ops: seq<Op>, k: Key): Option<string> {
    if ops == [] then None
    else
      var before, op := ops[..|ops| - 1], ops[|ops| - 1];
      if op.key == k && (op.PutPayload? || (op.PutChecksum? && LastPut(before, k).None?)) then Some(op.checksum)
      else LastDigest(before, k)
  }

  /** As long as everything that was ever put would fit, a lookup finds whatever was last put under its key. */
  lemma {:induction false} KeepsAllThatFits(ops: seq<Op>, max: int, k: Key)
    requires TotalCost(ops) <= max
    ensures Lookup(Run(ops, max), k) == LastPut(ops, k) && Digest(Run(ops, max), k) == LastDigest(ops, k)
    ensures Used(Run(ops, max)) <= TotalCost(ops)
  {
    hide Step, Cost;
    if ops != [] {
      KeepsAllThatFits(ops[..|ops| - 1], max, k);
      StepKeepsAll(Run(ops[..|ops| - 1], max), max, ops[|ops| - 1], k);
      StepKeepsDigests(Run(ops[..|ops| - 1], max), max, ops[|ops| - 1], k);
    }
  }

  // ----- A lane: map, list, byte count and front snapshot -----

  /** Never mutated after publication; compared by identity. */
  class TileValue {
    const key: Key
    const data: Bytes
    const checksum: string

    constructor (key: Key, data: Bytes, checksum: string)
      ensures this.key == key && this.data == data && this.checksum == checksum
    {
      this.key, this.data, this.checksum := key, data, checksum;
    }
  }

  datatype Entry = Entry(value: TileValue?, checksum: string, size: int)

  function ItemOf(k: Key, e: Entry): Item {
    Item(k, if e.value == null then None else Some(e.value.data), e.checksum)
  }

  ghost predicate Sound(k: Key, e: Entry) {
    && (e.value != null ==> e.value.key == k && e.value.checksum == e.checksum)
    && e.size == Size(ItemOf(k, e))
  }

  /** The map and the list hold the same keys, each once. */
  ghost predicate Linked(entries: map<Key, Entry>, lru: seq<Key>) {
    && Present(entries, lru)
    && (forall i :: 0 <= i < |lru| ==> Sound(lru[i], entries[lru[i]]))
    && (forall i, j :: 0 <= i < j < |lru| ==> lru[i] != lru[j])
    && (forall k :: k in entries ==> k in lru)
  }

  ghost predicate Present(entries: map<Key, Entry>, lru: seq<Key>) {
    forall i :: 0 <= i < |lru| ==> lru[i] in entries
  }

  ghost function Items(entries: map<Key, Entry>, lru: seq<Key>): (l: seq<Item>)
    requires Present(entries, lru)
    ensures |l| == |lru|
  {
    seq(|lru|, i requires 0 <= i < |lru| => ItemOf(lru[i], entries[lru[i]]))
  }

  /** Unlinking one element of the list. */
  function Removed(lru: seq<Key>, k: Key): (r: seq<Key>)
    ensures k !in lru ==> r == lru
  {
    if lru == [] then [] else if lru[0] == k then lru[1..] else [lru[0]] + Removed(lru[1..], k)
  }

  lemma {:induction false} RemovedAt(lru: seq<Key>, k: Key, p: nat)
    requires p < |lru| && lru[p] == k
    requires forall j :: 0 <= j < p ==> lru[j] != k
    ensures Removed(lru, k) == lru[..p] + lru[p + 1..]
  {
    if p > 0 {
      RemovedAt(lru[1..], k, p - 1);
      assert lru[..p] == [lru[0]] + lru[1..][..p - 1] && lru[p + 1..] == lru[1..][p..];
    }
  }

  /** Where a key is in the list. */
  lemma {:induction false} PlaceOf(entries: map<Key, Entry>, lru: seq<Key>, k: Key)
    requires Linked(entries, lru)
    ensures var p := Position(Items(entries, lru), k);
            && (k in entries <==> p < |lru|)
            && (k in entries ==> lru[p] == k && Items(entries, lru)[p] == ItemOf(k, entries[k]))
            && (k in entries ==> Removed(lru, k) == lru[..p] + lru[p + 1..])
            && (k !in entries ==> Removed(lru, k) == lru)
  {
    hide Sound, Removed;
    var l := Items(entries, lru);
    var p := Position(l, k);
    assert forall j :: 0 <= j < |lru| ==> l[j].key == lru[j];
    if p < |l| {
      assert lru[p] == k;
      RemovedAt(lru, k, p);
    } else {
      assert k !in lru;
    }
  }

  lemma {:induction false} RemovedPlaces(lru: seq<Key>, rest: seq<Key>, p: nat, k: Key)
    requires forall i, j :: 0 <= i < j < |lru| ==> lru[i] != lru[j]
    requires if p < |lru| then lru[p] == k && rest == lru[..p] + lru[p + 1..] else k !in lru && rest == lru
    ensures k !in rest
    ensures forall i, j :: 0 <= i < j < |rest| ==> rest[i] != rest[j]
    ensures forall j :: j in lru && j != k ==> j in rest
    ensures forall j :: j in rest ==> j in lru
  {
    forall j | j in lru && j != k ensures j in rest {
      var i :| 0 <= i < |lru| && lru[i] == j;
      if p < |lru| {
        assert rest[if i < p then i else i - 1] == j;
      }
    }
  }

  lemma {:induction false} StoredLinked(entries: map<Key, Entry>, lru: seq<Key>, k: Key, e: Entry)
    requires Linked(entries, lru) && Sound(k, e)
    ensures Linked(entries[k := e], [k] + Removed(lru, k))
  {
    hide Sound, Removed, Items, Position;
    PlaceOf(entries, lru, k);
    RemovedPlaces(lru, Removed(lru, k), Position(Items(entries, lru), k), k);
    FrontLinked(entries, lru, Removed(lru, k), k, e);
  }

  lemma {:induction false} FrontLinked(entries: map<Key, Entry>, lru: seq<Key>, rest: seq<Key>, k: Key, e: Entry)
    requires Linked(entries, lru) && Sound(k, e) && k !in rest
    requires forall i, j :: 0 <= i < j < |rest| ==> rest[i] != rest[j]
    requires forall j :: j in lru && j != k ==> j in rest
    requires forall j :: j in rest ==> j in lru
    ensures Linked(entries[k := e], [k] + rest)
  {
    hide Sound;
    var lru', entries' := [k] + rest, entries[k := e];
    assert forall j :: 0 < j < |lru'| ==> lru'[j] == rest[j - 1] && rest[j - 1] in rest;
    forall j | j in entries' ensures j in lru' {
      if j != k {
        assert j in rest;
      }
    }
  }

  /** Storing e under k at the front of the list. */
  lemma {:induction false} Stored(entries: map<Key, Entry>, lru: seq<Key>, k: Key, e: Entry)
    requires Linked(entries, lru) && Sound(k, e)
    ensures Linked(entries[k := e], [k] + Removed(lru, k))
    ensures Items(entries[k := e], [k] + Removed(lru, k)) == [ItemOf(k, e)] + Without(Items(entries, lru), k)
    ensures k in entries <==> Position(Items(entries, lru), k) < |lru|
    ensures k in entries ==> Items(entries, lru)[Position(Items(entries, lru), k)] == ItemOf(k, entries[k])
  {
    hide Sound, ItemOf, Removed, Position, Without, Items;
    PlaceOf(entries, lru, k);
    StoredLinked(entries, lru, k, e);
    ItemsRemoved(entries, lru, k);
    ItemsStored(entries, Removed(lru, k), k, e);
  }

  lemma {:induction false} ItemsStored(entries: map<Key, Entry>, rest: seq<Key>, k: Key, e: Entry)
    requires Linked(entries[k := e], [k] + rest) && Present(entries, rest)
    ensures Items(entries[k := e], [k] + rest) == [ItemOf(k, e)] + Items(entries, rest)
  {
    KeysLinked(entries[k := e], [k] + rest);
    hide Linked, ItemOf;
    forall i | 0 <= i < |rest| ensures rest[i] != k {
      assert ([k] + rest)[1 + i] == rest[i] && ([k] + rest)[0] == k;
    }
  }

  /** Unlinking a key unlinks its item. */
  lemma {:induction false} ItemsRemoved(entries: map<Key, Entry>, lru: seq<Key>, k: Key)
    requires Present(entries, lru)
    ensures Present(entries, Removed(lru, k))
    ensures Items(entries, Removed(lru, k)) == Without(Items(entries, lru), k)
  {
    hide Without, Items;
    var l := Items(entries, lru);
    if lru == [] {
      NothingWithout(l, k);
    } else {
      var rest := lru[1..];
      assert lru == [lru[0]] + rest;
      ItemsCons(entries, lru[0], rest);
      if lru[0] == k {
        FirstWithout(l, k);
      } else {
        ItemsRemoved(entries, rest, k);
        ItemsCons(entries, lru[0], Removed(rest, k));
        WithoutLater(l, k);
      }
    }
  }

  lemma {:induction false} ItemsCons(entries: map<Key, Entry>, first: Key, rest: seq<Key>)
    requires first in entries && Present(entries, rest)
    ensures Present(entries, [first] + rest)
    ensures Items(entries, [first] + rest) == [ItemOf(first, entries[first])] + Items(entries, rest)
  {
    hide ItemOf;
  }

  lemma {:induction false} NothingWithout(l: seq<Item>, k: Key)
    ensures l == [] ==> Without(l, k) == []
  {
  }

  lemma {:induction false} FirstWithout(l: seq<Item>, k: Key)
    requires l != [] && l[0].key == k
    ensures Without(l, k) == l[1..]
  {
  }

  /** The entry of the last key in the list without its payload. */
  function WithoutPayload(e: Entry): Entry {
    Entry(null, e.checksum, ChecksumSize(e.checksum))
  }

  lemma {:induction false} BackDemoted(entries: map<Key, Entry>, lru: seq<Key>)
    requires Linked(entries, lru) && lru != []
    ensures var n, l := |lru| - 1, Items(entries, lru);
            var e := entries[lru[n]];
            var entries' := entries[lru[n] := WithoutPayload(e)];
            && Linked(entries', lru)
            && Items(entries', lru) == l[..n] + [Demoted(l[n])]
            && Used(Items(entries', lru)) == Used(l) - (e.size - ChecksumSize(e.checksum))
            && l[n].data.Some? == (e.value != null)
  {
    hide Used;
    var n, l := |lru| - 1, Items(entries, lru);
    var e := entries[lru[n]];
    var entries' := entries[lru[n] := WithoutPayload(e)];
    assert Linked(entries', lru);
    assert Items(entries', lru) == l[..n] + [Demoted(l[n])];
    UsedLast(l);
    UsedLast(Items(entries', lru));
    assert Items(entries', lru)[..n] == l[..n];
    assert Sound(lru[n], e);
  }

  lemma {:induction false} BackDropped(entries: map<Key, Entry>, lru: seq<Key>)
    requires Linked(entries, lru) && lru != []
    ensures var n, l := |lru| - 1, Items(entries, lru);
            var entries' := entries - {lru[n]};
            && Linked(entries', lru[..n])
            && Items(entries', lru[..n]) == l[..n]
            && Used(l[..n]) == Used(l) - entries[lru[n]].size
  {
    hide Used, Sound, ItemOf, Size;
    var n, l := |lru| - 1, Items(entries, lru);
    var entries' := entries - {lru[n]};
    forall k | k in entries' ensures k in lru[..n] {
      var i :| 0 <= i < |lru| && lru[i] == k;
      assert lru[..n][i] == k;
    }
    assert Linked(entries', lru[..n]);
    assert Items(entries', lru[..n]) == l[..n];
    UsedLast(l);
    SizeOf(entries, lru, lru[n]);
  }

  lemma {:induction false} UsedLast(l: seq<Item>)
    requires l != []
    ensures Used(l) == Used(l[..|l| - 1]) + Size(l[|l| - 1])
  {
    var n := |l| - 1;
    UsedAppend(l[..n], [l[n]]);
    assert l == l[..n] + [l[n]];
    assert Used([l[n]]) == Size(l[n]) + Used([]);
  }

  class Shard {
    const maxBytes: nat
    var used: int
    var entries: map<Key, Entry>
    var lru: seq<Key>
    var front: TileValue?

    /** Everything but the budget, which does not hold while an operation evicts. */
    ghost predicate Counted()
      reads this
    {
      && Linked(entries, lru)
      && used == Used(Contents())
      && (front != null ==> lru != [] && lru[0] in entries && entries[lru[0]].value == front)
    }

    ghost function Contents(): (l: seq<Item>)
      requires Linked(entries, lru)
      reads this
      ensures |l| == |lru|
    {
      Items(entries, lru)
    }

    ghost predicate Valid()
      reads this
    {
      Counted() && used <= maxBytes
    }

    constructor (maxBytes: nat)
      ensures Valid() && this.maxBytes == maxBytes && Contents() == []
    {
      this.maxBytes := maxBytes;
      used, entries, lru, front := 0, map[], [], null;
    }

    /** The lock-free path: a hit there is the hit of the locked path, and leaves the list as the
        locked path would. */
    method GetFast(key: Key) returns (r: Option<Hit>)
      requires Valid()
      ensures r.Some? <==> front != null && front.key == key
      ensures r.Some? ==> r == Lookup(Contents(), key)
      ensures r.Some? ==> Step(Contents(), maxBytes, Get(key)) == Contents()
    {
      if front == null || front.key != key {
        return None;
      }
      FrontIsHead(entries, lru, front);
      return Some(Hit(front.data, front.checksum));
    }

    method GetFrom(key: Key) returns (r: Option<Hit>)
      requires Valid()
      modifies `lru, `front
      ensures Valid()
      ensures r == Lookup(old(Contents()), key)
      ensures Contents() == Step(old(Contents()), maxBytes, Get(key))
    {
      hide Used, Linked, Sound, ItemOf;
      r := GetFast(key);
      if r.Some? {
        return;
      }
      ghost var l := Contents();
      if key !in entries {
        LookupEntry(entries, lru, key);
        return None;
      }
      LookupEntry(entries, lru, key);
      var value := entries[key].value;
      if value == null {
        return None;
      }
      Stored(entries, lru, key, entries[key]);
      assert entries[key := entries[key]] == entries;
      TouchUsed(l, key);
      lru := [key] + Removed(lru, key);
      front := value;
      return Some(Hit(value.data, value.checksum));
    }

    /** A digest outlives its payload. */
    method ChecksumFrom(key: Key) returns (r: Option<string>)
      requires Valid()
      ensures r == Digest(Contents(), key)
    {
      LookupEntry(entries, lru, key);
      if key !in entries {
        return None;
      }
      return Some(entries[key].checksum);
    }

    method PutInto(key: Key, data: Bytes, checksum: string, size: int)
      requires Valid() && size == ChecksumSize(checksum) + |data|
      modifies `used, `entries, `lru, `front
      ensures Valid()
      ensures Contents() == Step(old(Contents()), maxBytes, PutPayload(key, data, checksum))
      ensures size <= maxBytes ==> Lookup(Contents(), key) == Some(Hit(data, checksum))
    {
      hide Used, Linked, Trim, Items;
      ghost var l := Contents();
      var value := new TileValue(key, data, checksum);
      var e := Entry(value, checksum, size);
      Stored(entries, lru, key, e);
      TouchUsed(l, key);
      UsedFirst([ItemOf(key, e)] + Without(l, key));
      SizeOf(entries, lru, key);
      if key in entries {
        used := used - entries[key].size;
        if front == entries[key].value {
          front := null;
        }
      }
      entries := entries[key := e];
      lru := [key] + Removed(lru, key);
      used := used + size;
      front := value;
      if size <= maxBytes {
        HeadSurvives(Contents(), maxBytes);
      }
      Evict();
    }

    method PutChecksum(key: Key, checksum: string)
      requires Valid()
      modifies `used, `entries, `lru, `front
      ensures Valid()
      ensures Contents() == Step(old(Contents()), maxBytes, Op.PutChecksum(key, checksum))
      ensures ChecksumSize(checksum) <= maxBytes && Lookup(old(Contents()), key).None? ==>
                Digest(Contents(), key) == Some(checksum)
    {
      hide Used, Linked, Trim;
      ghost var l := Contents();
      var size := ChecksumSize(checksum);
      if size > maxBytes {
        return;
      }
      LookupEntry(entries, lru, key);
      SizeOf(entries, lru, key);
      if key in entries && entries[key].value != null {
        return;
      }
      var e := Entry(null, checksum, size);
      Stored(entries, lru, key, e);
      TouchUsed(l, key);
      UsedFirst([ItemOf(key, e)] + Without(l, key));
      if key in entries {
        used := used - entries[key].size;
      }
      entries := entries[key := e];
      lru := [key] + Removed(lru, key);
      used := used + size;
      front := null;
      HeadSurvives(Contents(), maxBytes);
      Evict();
    }

    /** The loop at the end of putInto and of putChecksum. The budget is not negative, so its exit for
        an empty list is never taken. */
    method Evict()
      requires Counted()
      modifies `used, `entries, `lru, `front
      ensures Valid()
      ensures Contents() == Trim(old(Contents()), maxBytes)
    {
      hide Used, Linked, Sound, ItemOf, Size, ChecksumSize, Trim;
      ghost var l0 := Contents();
      while used > maxBytes
        invariant Counted()
        invariant Trim(Contents(), maxBytes) == Trim(l0, maxBytes)
        decreases |lru|, BackWeight(entries, lru)
      {
        NotEmpty(Contents());
        TrimStep(Contents(), maxBytes);
        KeysLinked(entries, lru);
        var back := lru[|lru| - 1];
        var e := entries[back];
        if e.value != null {
          BackDemoted(entries, lru);
          if front == e.value {
            front := null;
          }
          FrontKept(entries, lru, front, e);
          entries := entries[back := Entry(null, e.checksum, ChecksumSize(e.checksum))];
          used := used - (e.size - ChecksumSize(e.checksum));
        } else {
          BackDemoted(entries, lru);
          BackDropped(entries, lru);
          entries := entries - {back};
          lru := lru[..|lru| - 1];
          used := used - e.size;
        }
      }
      TrimFits(Contents(), maxBytes);
    }
  }

  /** A payload at the back goes before its entry does. */
  function BackWeight(entries: map<Key, Entry>, lru: seq<Key>): nat {
    if lru != [] && lru[|lru| - 1] in entries && entries[lru[|lru| - 1]].value != null then 1 else 0
  }

  lemma {:induction false} TrimStep(l: seq<Item>, max: int)
    requires l != [] && Used(l) > max
    ensures var n := |l| - 1;
            Trim(l, max) == if l[n].data.Some? then Trim(l[..n] + [Demoted(l[n])], max) else Trim(l[..n], max)
  {
  }

  lemma {:induction false} TrimFits(l: seq<Item>, max: int)
    ensures Used(l) <= max ==> Trim(l, max) == l
  {
  }

  lemma {:induction false} NotEmpty(l: seq<Item>)
    requires Used(l) > 0
    ensures l != []
  {
  }

  lemma {:induction false} KeysLinked(entries: map<Key, Entry>, lru: seq<Key>)
    requires Linked(entries, lru)
    ensures forall i :: 0 <= i < |lru| ==> lru[i] in entries
    ensures forall i, j :: 0 <= i < j < |lru| ==> lru[i] != lru[j]
  {
  }

  /** Payloads are not shared between keys: clearing the front when it is the last payload leaves no
      trace of it. */
  lemma {:induction false} FrontKept(entries: map<Key, Entry>, lru: seq<Key>, front: TileValue?, e: Entry)
    requires Linked(entries, lru) && lru != [] && e == entries[lru[|lru| - 1]] && front != e.value
    requires front != null ==> entries[lru[0]].value == front
    ensures front != null ==> lru[0] != lru[|lru| - 1]
  {
  }

  lemma {:induction false} SizeOf(entries: map<Key, Entry>, lru: seq<Key>, k: Key)
    requires Linked(entries, lru)
    ensures k in entries ==> entries[k].size == Size(ItemOf(k, entries[k]))
  {
    if k in entries {
      var i :| 0 <= i < |lru| && lru[i] == k;
      assert Sound(lru[i], entries[lru[i]]);
    }
  }

  lemma {:induction false} FrontIsHead(entries: map<Key, Entry>, lru: seq<Key>, front: TileValue)
    requires Linked(entries, lru) && lru != [] && entries[lru[0]].value == front
    ensures Lookup(Items(entries, lru), front.key) == Some(Hit(front.data, front.checksum))
    ensures Touch(Items(entries, lru), front.key) == Items(entries, lru)
  {
    hide Size;
    assert Sound(lru[0], entries[lru[0]]);
    hide Linked, Sound;
    var l := Items(entries, lru);
    assert l[0] == ItemOf(lru[0], entries[lru[0]]);
    assert Position(l, front.key) == 0;
    assert l[..0] + l[1..] == l[1..];
    assert [l[0]] + l[1..] == l;
  }

  lemma {:induction false} LookupEntry(entries: map<Key, Entry>, lru: seq<Key>, k: Key)
    requires Linked(entries, lru)
    ensures var l := Items(entries, lru);
            && Digest(l, k) == (if k in entries then Some(entries[k].checksum) else None)
            && Lookup(l, k) == (if k in entries && entries[k].value != null
                                then Some(Hit(entries[k].value.data, entries[k].value.checksum)) else None)
            && (k in entries ==> Sound(k, entries[k]))
  {
    var l := Items(entries, lru);
    var p := Position(l, k);
    PlaceOf(entries, lru, k);
    if k in entries {
      assert Sound(lru[p], entries[lru[p]]);
    }
  }

  // ----- Sixteen lanes and one for large tiles -----

  function ShardIndex(key: Key): (i: nat)
    ensures i < SHARDS
  {
    Xor(Xor(U64(U32(key.z) * 0x9e3779b1), U64(U32(key.x) * 0x85ebca6b)), U64(U32(key.y) * 0xc2b2ae35)) % SHARDS
  }

  /** Neighbouring tiles use different lanes: with two coordinates fixed, sixteen successive values of
      the third cover all sixteen lanes. */
  lemma {:induction false} NeighboursSpread(a: Key, b: Key)
    requires (a.x == b.x && a.y == b.y) || (a.z == b.z && a.y == b.y) || (a.z == b.z && a.x == b.x)
    ensures ShardIndex(a) == ShardIndex(b) <==> a.z % 16 == b.z % 16 && a.x % 16 == b.x % 16 && a.y % 16 == b.y % 16
  {
    hide Xor, Low, U32, U64;
    var pz, qz := U64(U32(a.z) * 0x9e3779b1), U64(U32(b.z) * 0x9e3779b1);
    var px, qx := U64(U32(a.x) * 0x85ebca6b), U64(U32(b.x) * 0x85ebca6b);
    var py, qy := U64(U32(a.y) * 0xc2b2ae35), U64(U32(b.y) * 0xc2b2ae35);
    MixedLow(a.z);
    MixedLow(b.z);
    MixedLow(a.x);
    MixedLow(b.x);
    MixedLow(a.y);
    MixedLow(b.y);
    Mod16(Xor(Xor(pz, px), py));
    Mod16(Xor(Xor(qz, qx), qy));
    if a.x == b.x && a.y == b.y {
      XorCancels(Xor(pz, px), Xor(qz, px), py, 4);
      XorCancels(pz, qz, px, 4);
    } else if a.z == b.z && a.y == b.y {
      XorCancels(Xor(pz, px), Xor(pz, qx), py, 4);
      XorCommutes(pz, px);
      XorCommutes(pz, qx);
      XorCancels(px, qx, pz, 4);
    } else {
      XorCommutes(Xor(pz, px), py);
      XorCommutes(Xor(pz, px), qy);
      XorCancels(py, qy, Xor(pz, px), 4);
    }
    OddMultiples(a.x, b.x);
    OddMultiples(a.y, b.y);
  }

  lemma {:induction false} Mod16(v: nat)
    ensures Low(v, 4) == v % 16
  {
    LowIsMod(v, 4);
    assert Pow2(4) == 16;
  }

  lemma {:induction false} MixedLow(v: int)
    ensures Low(U64(U32(v) * 0x9e3779b1), 4) == v % 16
    ensures Low(U64(U32(v) * 0x85ebca6b), 4) == (v % 16) * 11 % 16
    ensures Low(U64(U32(v) * 0xc2b2ae35), 4) == (v % 16) * 5 % 16
  {
    hide Low, U64, U32;
    var u := U32(v);
    WrapMod16(v);
    WordLow(u * 0x9e3779b1);
    WordLow(u * 0x85ebca6b);
    WordLow(u * 0xc2b2ae35);
    MixMod16(u);
  }

  lemma {:induction false} WordLow(w: nat)
    ensures Low(U64(w), 4) == w % 16
  {
    hide Low, U64;
    WrapMod16(w);
    Mod16(U64(w));
  }

  lemma {:induction false} MixMod16(u: int)
    ensures (u * 0x9e3779b1) % 16 == u % 16
    ensures (u * 0x85ebca6b) % 16 == (u % 16) * 11 % 16
    ensures (u * 0xc2b2ae35) % 16 == (u % 16) * 5 % 16
  {
    var p, x := u / 16, u % 16;
    MultipleMod16(p * 0x9e3779b1 + x * 0x9e3779b, x);
    MultipleMod16(p * 0x85ebca6b + x * 0x85ebca6, x * 11);
    MultipleMod16(p * 0xc2b2ae35 + x * 0xc2b2ae3, x * 5);
  }

  lemma {:induction false} WrapMod16(v: int)
    ensures U64(v) % 16 == v % 16 && U32(v) % 16 == v % 16
  {
    MultipleMod16(v / TWO_32 * 0x1000_0000, U32(v));
    MultipleMod16(v / TWO_64 * 0x1000_0000_0000_0000, U64(v));
  }

  lemma {:induction false} MultipleMod16(k: int, t: int)
    ensures (16 * k + t) % 16 == t % 16
  {
  }

  lemma {:induction false} OddMultiples(a: int, b: int)
    ensures (a % 16) * 11 % 16 == (b % 16) * 11 % 16 <==> a % 16 == b % 16
    ensures (a % 16) * 5 % 16 == (b % 16) * 5 % 16 <==> a % 16 == b % 16
  {
    Inverse(a % 16);
    Inverse(b % 16);
  }

  lemma {:induction false} Inverse(x: int)
    requires 0 <= x < 16
    ensures (x * 11 % 16) * 3 % 16 == x && (x * 5 % 16) * 13 % 16 == x
  {
    var p, q := x * 11 / 16, x * 5 / 16;
    assert (x * 11 % 16) * 3 == 16 * (2 * x - 3 * p) + x;
    assert (x * 5 % 16) * 13 == 16 * (4 * x - 13 * q) + x;
    MultipleMod16(2 * x - 3 * p, x);
    MultipleMod16(4 * x - 13 * q, x);
    Mod16Small(x);
  }

  lemma {:induction false} Mod16Small(x: int)
    requires 0 <= x < 16
    ensures x % 16 == x
  {
  }

  lemma {:induction false} XorCancels(a: nat, b: nat, c: nat, n: nat)
    ensures Low(Xor(a, c), n) == Low(Xor(b, c), n) <==> Low(a, n) == Low(b, n)
    decreases n
  {
    if n == 0 {
      assert Low(Xor(a, c), 0) == Low(Xor(b, c), 0) == Low(a, 0) == Low(b, 0) == 0;
    } else {
      hide Xor, Low;
      var x, y := Xor(a, c), Xor(b, c);
      assert x % 2 == y % 2 <==> a % 2 == b % 2 by {
        XorHalves(a, c);
        XorHalves(b, c);
        ParityCancels(a, b, c);
      }
      assert x / 2 == Xor(a / 2, c / 2) && y / 2 == Xor(b / 2, c / 2) by {
        XorHalves(a, c);
        XorHalves(b, c);
      }
      XorCancels(a / 2, b / 2, c / 2, n - 1);
      LowSplit(a, b, n);
      LowSplit(x, y, n);
    }
  }

  lemma {:induction false} ParityCancels(a: nat, b: nat, c: nat)
    ensures (a % 2 + c % 2) % 2 == (b % 2 + c % 2) % 2 <==> a % 2 == b % 2
  {
  }

  lemma {:induction false} LowSplit(a: nat, b: nat, n: nat)
    requires n > 0
    ensures Low(a, n) == Low(b, n) <==> a % 2 == b % 2 && Low(a / 2, n - 1) == Low(b / 2, n - 1)
  {
  }

  lemma {:induction false} XorHalves(a: nat, b: nat)
    ensures Xor(a, b) / 2 == Xor(a / 2, b / 2) && Xor(a, b) % 2 == (a % 2 + b % 2) % 2
  {
    XorOdd(a, b);
  }

  function Budgets(shards: seq<Shard>): nat {
    if shards == [] then 0 else shards[0].maxBytes + Budgets(shards[1..])
  }

  function UsedBytes(shards: seq<Shard>): int
    reads shards
  {
    if shards == [] then 0 else shards[0].used + UsedBytes(shards[1..])
  }

  lemma {:induction false} BudgetsAppend(shards: seq<Shard>, s: Shard)
    ensures Budgets(shards + [s]) == Budgets(shards) + s.maxBytes
  {
    if shards == [] {
      assert Budgets([s]) == s.maxBytes + Budgets([]);
    } else {
      assert (shards + [s])[1..] == shards[1..] + [s];
      BudgetsAppend(shards[1..], s);
    }
  }

  lemma {:induction false} WithinBudgets(shards: seq<Shard>)
    requires forall i :: 0 <= i < |shards| ==> shards[i].Valid()
    ensures UsedBytes(shards) <= Budgets(shards)
  {
    if shards != [] {
      WithinBudgets(shards[1..]);
    }
  }

  class Cache {
    const shards: seq<Shard>
    const largeTile: Shard

    ghost predicate Valid()
      reads this, shards, largeTile
    {
      && |shards| == SHARDS
      && (forall i, j :: 0 <= i < j < |shards| ==> shards[i] != shards[j])
      && largeTile !in shards
      && (forall i :: 0 <= i < |shards| ==> shards[i].Valid())
      && largeTile.Valid()
    }

    constructor (shards: seq<Shard>, largeTile: Shard)
      ensures this.shards == shards && this.largeTile == largeTile
    {
      this.shards, this.largeTile := shards, largeTile;
    }

    /** The whole cache never retains more than its budget. */
    lemma {:induction false} WithinBudget()
      requires Valid()
      ensures UsedBytes(shards) + largeTile.used <= Budgets(shards) + largeTile.maxBytes
    {
      WithinBudgets(shards);
    }

    /** A hit comes from one of the key's two lanes, and uses the item there and nothing else. */
    method Get(key: Key) returns (r: Option<Hit>)
      requires Valid()
      modifies shards[ShardIndex(key)], largeTile
      ensures Valid()
      ensures var normal := shards[ShardIndex(key)];
              var n, l := old(normal.Contents()), old(largeTile.Contents());
              && (r.Some? <==> Lookup(n, key).Some? || Lookup(l, key).Some?)
              && ((&& r == Lookup(n, key)
                   && normal.Contents() == Step(n, normal.maxBytes, Op.Get(key)) && largeTile.Contents() == l)
                  || (&& r == Lookup(l, key)
                      && normal.Contents() == n && largeTile.Contents() == Step(l, largeTile.maxBytes, Op.Get(key))))
    {
      hide Lookup, Step, ShardIndex, Linked, Used, Items;
      var normal := shards[ShardIndex(key)];
      r := normal.GetFast(key);
      if r.Some? {
        return;
      }
      r := largeTile.GetFast(key);
      if r.Some? {
        return;
      }
      ghost var n := normal.Contents();
      r := normal.GetFrom(key);
      if r.Some? {
        return;
      }
      MissUsesNothing(n, normal.maxBytes, key);
      r := largeTile.GetFrom(key);
    }

    /** A digest of either lane. */
    method Checksum(key: Key) returns (r: Option<string>)
      requires Valid()
      ensures var n := Digest(shards[ShardIndex(key)].Contents(), key);
              r == if n.Some? then n else Digest(largeTile.Contents(), key)
    {
      r := shards[ShardIndex(key)].ChecksumFrom(key);
      if r.None? {
        r := largeTile.ChecksumFrom(key);
      }
    }

    /** A payload goes to its lane, or to the large lane, or leaves only its digest; where it goes it
        can be found. */
    method Put(key: Key, data: Bytes, checksum: string)
      requires Valid()
      modifies shards[ShardIndex(key)], largeTile
      ensures Valid()
      ensures var normal, size := shards[ShardIndex(key)], ChecksumSize(checksum) + |data|;
              var n, l := old(normal.Contents()), old(largeTile.Contents());
              var put := PutPayload(key, data, checksum);
              if size <= normal.maxBytes then
                && normal.Contents() == Step(n, normal.maxBytes, put) && largeTile.Contents() == l
                && Lookup(normal.Contents(), key) == Some(Hit(data, checksum))
              else if size <= largeTile.maxBytes then
                && normal.Contents() == n && largeTile.Contents() == Step(l, largeTile.maxBytes, put)
                && Lookup(largeTile.Contents(), key) == Some(Hit(data, checksum))
              else
                && normal.Contents() == Step(n, normal.maxBytes, PutChecksum(key, checksum))
                && largeTile.Contents() == l
    {
      hide Lookup, Step, ShardIndex, Linked, Used, Items;
      var size := ChecksumSize(checksum) + |data|;
      var shard := shards[ShardIndex(key)];
      if size > shard.maxBytes {
        shard := largeTile;
      }
      if size > shard.maxBytes {
        shards[ShardIndex(key)].PutChecksum(key, checksum);
        return;
      }
      shard.PutInto(key, data, checksum, size);
    }
  }

  lemma {:induction false} MissUsesNothing(l: seq<Item>, max: int, key: Key)
    requires Lookup(l, key).None?
    ensures Step(l, max, Get(key)) == l
  {
  }

  /** A quarter of the budget for large tiles, the rest in sixteen lanes that differ by a byte at
      most; no byte is lost to rounding. */
  method NewTileCache(maxBytes: int) returns (c: Cache?)
    ensures c == null <==> maxBytes <= 0
    ensures c != null ==> fresh(c) && fresh(c.shards) && fresh(c.largeTile) && c.Valid()
    ensures c != null ==> Budgets(c.shards) + c.largeTile.maxBytes == maxBytes
    ensures c != null ==> c.largeTile.maxBytes == maxBytes / 4 && |c.shards| == 16
    ensures c != null ==>
              forall i, j :: 0 <= i < j < SHARDS ==>
                c.shards[j].maxBytes <= c.shards[i].maxBytes <= c.shards[j].maxBytes + 1
  {
    hide Budgets, Linked, Used, Items, ShardIndex;
    if maxBytes <= 0 {
      return null;
    }
    var largeBudget := maxBytes / LARGE_FRACTION;
    var normalBudget := maxBytes - largeBudget;
    var lanes := NewLanes(normalBudget / SHARDS, normalBudget % SHARDS);
    var large := new Shard(largeBudget);
    c := new Cache(lanes, large);
  }

  method NewLanes(perShard: nat, remainder: nat) returns (lanes: seq<Shard>)
    requires remainder < SHARDS
    ensures |lanes| == SHARDS && fresh(lanes)
    ensures forall i :: 0 <= i < SHARDS ==> lanes[i].Valid()
    ensures forall i :: 0 <= i < SHARDS ==> lanes[i].maxBytes == perShard + if i < remainder then 1 else 0
    ensures forall i, j :: 0 <= i < j < SHARDS ==> lanes[i] != lanes[j]
    ensures Budgets(lanes) == SHARDS * perShard + remainder
  {
    hide Budgets, Linked, Used, Items;
    lanes := [];
    for index := 0 to SHARDS
      invariant |lanes| == index && fresh(lanes)
      invariant forall i :: 0 <= i < index ==> lanes[i].Valid()
      invariant forall i :: 0 <= i < index ==> lanes[i].maxBytes == perShard + if i < remainder then 1 else 0
      invariant forall i, j :: 0 <= i < j < index ==> lanes[i] != lanes[j]
    {
      var lane := new Shard(perShard + if index < remainder then 1 else 0);
      lanes := lanes + [lane];
    }
    BudgetsOf(lanes, perShard, remainder);
  }

  lemma {:induction false} BudgetsOf(lanes: seq<Shard>, perShard: nat, remainder: nat)
    requires forall i :: 0 <= i < |lanes| ==> lanes[i].maxBytes == perShard + if i < remainder then 1 else 0
    ensures Budgets(lanes) == |lanes| * perShard + if |lanes| < remainder then |lanes| else remainder
  {
    if lanes == [] {
      assert Budgets(lanes) == 0;
    } else {
      hide Budgets;
      var n := |lanes| - 1;
      assert |lanes[..n]| == n;
      BudgetsOf(lanes[..n], perShard, remainder);
      BudgetsAppend(lanes[..n], lanes[n]);
      assert lanes == lanes[..n] + [lanes[n]];
      assert |lanes| * perShard == n * perShard + perShard;
    }
  }
}
