/** Tile keys, ranges and synchronization requests (offline/types.go, offline/sync.go): what validate
    accepts, total counts and visit enumerates. */
module TileRequest {
  import opened Bits
  import opened Options
  import Identifier
  import Sequences
  import TileId
  import opened Visitors

  const MAX_TILE_ZOOM: nat := 30
  const MAX_DATASET_BYTES: nat := 256
  const MAX_SYNC_CONCURRENCY := 32

  datatype TileKey = TileKey(z: int, x: int, y: int)

  /** Inclusive in both directions. */
  datatype TileRange = TileRange(z: int, xMin: int, xMax: int, yMin: int, yMax: int)

  /** dataset names the dataset asked for, or is empty for whichever is offered. */
  datatype SyncRequest = SyncRequest(dataset: string, ranges: seq<TileRange>, keys: seq<TileKey>, concurrency: int)

  predicate ValidKey(k: TileKey) {
    0 <= k.z <= MAX_TILE_ZOOM && 0 <= k.x < Pow2(k.z) && 0 <= k.y < Pow2(k.z)
  }

  predicate ValidRange(r: TileRange) {
    && r.xMin <= r.xMax && r.yMin <= r.yMax
    && ValidKey(TileKey(r.z, r.xMin, r.yMin)) && ValidKey(TileKey(r.z, r.xMax, r.yMax))
  }

  predicate InRange(k: TileKey, r: TileRange) {
    k.z == r.z && r.xMin <= k.x <= r.xMax && r.yMin <= k.y <= r.yMax
  }

  predicate RangesOverlap(a: TileRange, b: TileRange) {
    a.z == b.z && a.xMin <= b.xMax && b.xMin <= a.xMax && a.yMin <= b.yMax && b.yMin <= a.yMax
  }

  // ----- The keys of a range, column by column -----

  function Column(r: TileRange, x: int, n: nat): (ks: seq<TileKey>)
    ensures |ks| == n
  {
    seq(n, i requires 0 <= i < n => TileKey(r.z, x, r.yMin + i))
  }

  function Height(r: TileRange): nat
    requires ValidRange(r)
  {
    r.yMax - r.yMin + 1
  }

  function Width(r: TileRange): nat
    requires ValidRange(r)
  {
    r.xMax - r.xMin + 1
  }

  /** The first n columns. */
  function Columns(r: TileRange, n: nat): seq<TileKey>
    requires ValidRange(r)
  {
    if n == 0 then [] else Columns(r, n - 1) + Column(r, r.xMin + n - 1, Height(r))
  }

  function RangeKeys(r: TileRange): seq<TileKey>
    requires ValidRange(r)
  {
    Columns(r, Width(r))
  }

  ghost predicate Distinct<T(!new)>(s: seq<T>) {
    forall i, j :: 0 <= i < j < |s| ==> s[i] != s[j]
  }

  ghost predicate Disjoint<T(!new)>(a: seq<T>, b: seq<T>) {
    forall i, j :: 0 <= i < |a| && 0 <= j < |b| ==> a[i] != b[j]
  }

  lemma {:induction false} DistinctConcat<T(!new)>(a: seq<T>, b: seq<T>)
    ensures Distinct(a + b) <==> Distinct(a) && Distinct(b) && Disjoint(a, b)
  {
    var c := a + b;
    if Distinct(c) {
      forall i, j | 0 <= i < j < |a| ensures a[i] != a[j] {
        assert c[i] == a[i] && c[j] == a[j];
      }
      forall i, j | 0 <= i < j < |b| ensures b[i] != b[j] {
        assert c[|a| + i] == b[i] && c[|a| + j] == b[j];
      }
      forall i, j | 0 <= i < |a| && 0 <= j < |b| ensures a[i] != b[j] {
        assert c[i] == a[i] && c[|a| + j] == b[j];
      }
    }
  }

  /** The columns hold the keys of the rectangle, each once, and as many as its area. */
  lemma {:induction false} ColumnsExact(r: TileRange, n: nat)
    requires ValidRange(r)
    ensures Distinct(Columns(r, n)) && |Columns(r, n)| == n * Height(r)
    ensures forall k :: k in Columns(r, n) <==> InRange(k, r.(xMax := r.xMin + n - 1))
  {
    hide ValidRange, Distinct, Column, InRange;
    if n > 0 {
      ColumnsExact(r, n - 1);
      var x := r.xMin + n - 1;
      OneColumn(r, x);
      DistinctConcat(Columns(r, n - 1), Column(r, x, Height(r)));
      ColumnAfter(r, x, Columns(r, n - 1));
      OneHeight(n, Height(r));
    } else {
      NoColumns(r, n);
    }
  }

  lemma {:induction false} OneHeight(n: nat, h: nat)
    requires n > 0
    ensures n * h == (n - 1) * h + h
  {
  }

  lemma {:induction false} NoColumns(r: TileRange, n: nat)
    requires ValidRange(r) && n == 0
    ensures Distinct(Columns(r, n)) && |Columns(r, n)| == n * Height(r)
    ensures forall k :: k in Columns(r, n) <==> InRange(k, r.(xMax := r.xMin + n - 1))
  {
    hide ValidRange;
  }

  lemma {:induction false} OneColumn(r: TileRange, x: int)
    requires ValidRange(r)
    ensures Distinct(Column(r, x, Height(r)))
    ensures forall k: TileKey :: k in Column(r, x, Height(r)) <==> k.z == r.z && k.x == x && r.yMin <= k.y <= r.yMax
  {
    hide ValidKey;
    var b := Column(r, x, Height(r));
    forall k: TileKey | k.z == r.z && k.x == x && r.yMin <= k.y <= r.yMax ensures k in b {
      assert b[k.y - r.yMin] == k;
    }
  }

  /** A column to the right of others adds its keys, and none of theirs. */
  lemma {:induction false} ColumnAfter(r: TileRange, x: int, a: seq<TileKey>)
    requires ValidRange(r) && r.xMin <= x
    requires forall k :: k in a <==> InRange(k, r.(xMax := x - 1))
    ensures Disjoint(a, Column(r, x, Height(r)))
    ensures forall k :: k in a + Column(r, x, Height(r)) <==> InRange(k, r.(xMax := x))
  {
    hide ValidRange, Column;
    var b := Column(r, x, Height(r));
    OneColumn(r, x);
    forall i, j | 0 <= i < |a| && 0 <= j < |b| ensures a[i] != b[j] {
      assert a[i] in a && b[j] in b;
    }
  }

  lemma {:induction false} RangeKeysExact(r: TileRange)
    requires ValidRange(r)
    ensures Distinct(RangeKeys(r)) && |RangeKeys(r)| == Width(r) * Height(r) > 0
    ensures forall k :: k in RangeKeys(r) <==> InRange(k, r)
    ensures forall k :: k in RangeKeys(r) ==> ValidKey(k)
  {
    ColumnsExact(r, Width(r));
    assert TileKey(r.z, r.xMin, r.yMin) in RangeKeys(r);
  }

  /** The interval test is exactly whether two ranges share a key. */
  lemma {:induction false} OverlapIffShared(a: TileRange, b: TileRange)
    requires ValidRange(a) && ValidRange(b)
    ensures RangesOverlap(a, b) <==> !Disjoint(RangeKeys(a), RangeKeys(b))
  {
    hide RangeKeys, ValidKey;
    RangeKeysExact(a);
    RangeKeysExact(b);
    if RangesOverlap(a, b) {
      var k := TileKey(a.z, if a.xMin < b.xMin then b.xMin else a.xMin, if a.yMin < b.yMin then b.yMin else a.yMin);
      assert k in RangeKeys(a) && k in RangeKeys(b);
    } else {
      var ka, kb := RangeKeys(a), RangeKeys(b);
      forall i, j | 0 <= i < |ka| && 0 <= j < |kb| ensures ka[i] != kb[j] {
        assert ka[i] in ka && kb[j] in kb;
      }
    }
  }

  /** The area of a range in 64 bits, or nothing for an invalid range; it never overflows. */
  method Count(r: TileRange) returns (n: Option<nat>)
    ensures n == if ValidRange(r) then Some(|RangeKeys(r)|) else None
    ensures n.Some? ==> n.value < TWO_64
  {
    if !ValidRange(r) {
      return None;
    }
    RangeKeysExact(r);
    AreaFits(r);
    hide ValidRange, RangeKeys, InRange, U64;
    var width, height := U64(U64(r.xMax - r.xMin) + 1), U64(U64(r.yMax - r.yMin) + 1);
    if height != 0 && width > (TWO_64 - 1) / height {
      assert false;
    }
    return Some(U64(width * height));
  }

  lemma {:induction false} AreaFits(r: TileRange)
    requires ValidRange(r)
    ensures Width(r) <= 0x4000_0000 && Height(r) <= 0x4000_0000
    ensures Width(r) == U64(U64(r.xMax - r.xMin) + 1) && Height(r) == U64(U64(r.yMax - r.yMin) + 1)
    ensures U64(Width(r) * Height(r)) == Width(r) * Height(r)
    ensures Width(r) <= (TWO_64 - 1) / Height(r)
  {
    hide U64, Pow2;
    var w, h := Width(r), Height(r);
    GridFits(r.z);
    ProductFits(w, h);
    DivisionBound(w, h, TWO_64 - 1);
    U64Id(w - 1);
    U64Id(h - 1);
    U64Id(w);
    U64Id(h);
    U64Id(w * h);
  }

  lemma {:induction false} GridFits(z: nat)
    requires z <= MAX_TILE_ZOOM
    ensures Pow2(z) <= 0x4000_0000
  {
    Pow2Values();
    assert Pow2(32) == 2 * Pow2(31) == 4 * Pow2(30);
    Pow2Monotone(z, 30);
  }

  lemma {:induction false} ProductFits(w: nat, h: nat)
    requires w <= 0x4000_0000 && h <= 0x4000_0000
    ensures w * h <= 0x4000_0000 * 0x4000_0000
  {
    assert w * h <= w * 0x4000_0000 by {
      assert w * (0x4000_0000 - h) >= 0;
    }
  }

  lemma {:induction false} DivisionBound(w: nat, h: nat, m: nat)
    requires h > 0 && w * h <= m
    ensures w <= m / h
  {
    var q := m / h;
    assert m == q * h + m % h;
    if w > q {
      AtLeastOnce(w - q, h);
      Distribute(w, q, h);
    }
  }

  // ----- A request -----

  function RangesKeys(rs: seq<TileRange>): seq<TileKey>
    requires forall i :: 0 <= i < |rs| ==> ValidRange(rs[i])
  {
    if rs == [] then [] else RangesKeys(rs[..|rs| - 1]) + RangeKeys(rs[|rs| - 1])
  }

  ghost predicate WellFormed(r: SyncRequest) {
    && (forall i :: 0 <= i < |r.ranges| ==> ValidRange(r.ranges[i]))
    && (forall i :: 0 <= i < |r.keys| ==> ValidKey(r.keys[i]))
  }

  /** Everything a request asks for, in the order of visit. */
  function AllKeys(r: SyncRequest): seq<TileKey>
    requires WellFormed(r)
  {
    r.keys + RangesKeys(r.ranges)
  }

  /** What validate is for: every key exists and is asked for once. */
  ghost predicate Acceptable(r: SyncRequest) {
    && (r.dataset == "" || Identifier.Names(r.dataset, MAX_DATASET_BYTES))
    && 0 <= r.concurrency <= MAX_SYNC_CONCURRENCY && WellFormed(r) && Distinct(AllKeys(r))
  }

  lemma {:induction false} RangesKeysIn(rs: seq<TileRange>, k: TileKey)
    requires forall i :: 0 <= i < |rs| ==> ValidRange(rs[i])
    ensures k in RangesKeys(rs) <==> exists i :: 0 <= i < |rs| && InRange(k, rs[i])
  {
    hide RangeKeys, ValidRange, InRange, ValidKey;
    if rs != [] {
      var n := |rs| - 1;
      RangesKeysIn(rs[..n], k);
      RangeKeysExact(rs[n]);
      assert forall i :: 0 <= i < n ==> rs[..n][i] == rs[i];
      if k in RangesKeys(rs[..n]) {
        var i :| 0 <= i < n && InRange(k, rs[..n][i]);
        assert InRange(k, rs[i]);
      }
      if i :| 0 <= i < |rs| && InRange(k, rs[i]) && i < n {
        assert InRange(k, rs[..n][i]);
      }
    }
  }

  /** Ranges that do not overlap pairwise list every key once, and conversely. */
  lemma {:induction false} RangesDistinct(rs: seq<TileRange>)
    requires forall i :: 0 <= i < |rs| ==> ValidRange(rs[i])
    ensures Distinct(RangesKeys(rs)) <==> forall i, j :: 0 <= j < i < |rs| ==> !RangesOverlap(rs[i], rs[j])
  {
    hide RangesOverlap, InRange, RangeKeys, ValidRange;
    if rs != [] {
      var n := |rs| - 1;
      var init := rs[..n];
      RangesDistinct(init);
      DistinctConcat(RangesKeys(init), RangeKeys(rs[n]));
      RangeKeysExact(rs[n]);
      DisjointRanges(init, rs[n]);
      assert forall i :: 0 <= i < n ==> init[i] == rs[i];
      if forall i, j :: 0 <= j < i < |rs| ==> !RangesOverlap(rs[i], rs[j]) {
        assert forall j :: 0 <= j < n ==> !RangesOverlap(rs[n], init[j]);
        assert forall i, j :: 0 <= j < i < n ==> !RangesOverlap(init[i], init[j]);
      }
      if Distinct(RangesKeys(rs)) {
        forall i, j | 0 <= j < i < |rs| ensures !RangesOverlap(rs[i], rs[j]) {
          assert j < n && rs[j] == init[j];
          assert i < n ==> rs[i] == init[i];
        }
      }
    }
  }

  lemma {:induction false} DisjointRanges(rs: seq<TileRange>, r: TileRange)
    requires ValidRange(r) && forall i :: 0 <= i < |rs| ==> ValidRange(rs[i])
    ensures Disjoint(RangesKeys(rs), RangeKeys(r)) <==> forall j :: 0 <= j < |rs| ==> !RangesOverlap(r, rs[j])
  {
    hide RangesKeys, RangeKeys, ValidRange, RangesOverlap;
    var a, b := RangesKeys(rs), RangeKeys(r);
    RangeKeysExact(r);
    if !Disjoint(a, b) {
      var i, j :| 0 <= i < |a| && 0 <= j < |b| && a[i] == b[j];
      RangesKeysIn(rs, a[i]);
      var m :| 0 <= m < |rs| && InRange(a[i], rs[m]);
      assert b[j] in b;
      OverlapWitness(r, rs[m], a[i]);
    }
    if j :| 0 <= j < |rs| && RangesOverlap(r, rs[j]) {
      var k := SharedKey(r, rs[j]);
      RangesKeysIn(rs, k);
      assert k in a && k in b;
    }
  }

  lemma {:induction false} OverlapWitness(a: TileRange, b: TileRange, k: TileKey)
    requires InRange(k, a) && InRange(k, b)
    ensures RangesOverlap(a, b)
  {
  }

  lemma {:induction false} SharedKey(a: TileRange, b: TileRange) returns (k: TileKey)
    requires ValidRange(a) && ValidRange(b) && RangesOverlap(a, b)
    ensures InRange(k, a) && InRange(k, b)
  {
    k := TileKey(a.z, if a.xMin < b.xMin then b.xMin else a.xMin, if a.yMin < b.yMin then b.yMin else a.yMin);
  }

  lemma {:induction false} KeysDisjoint(r: SyncRequest)
    requires WellFormed(r)
    ensures Disjoint(r.keys, RangesKeys(r.ranges)) <==>
              forall i, j :: 0 <= i < |r.keys| && 0 <= j < |r.ranges| ==> !InRange(r.keys[i], r.ranges[j])
  {
    hide RangesKeys, InRange, ValidRange, ValidKey;
    var a, b := r.keys, RangesKeys(r.ranges);
    if !Disjoint(a, b) {
      var i, j :| 0 <= i < |a| && 0 <= j < |b| && a[i] == b[j];
      RangesKeysIn(r.ranges, a[i]);
      assert a[i] in b;
    }
    if i, j :| 0 <= i < |a| && 0 <= j < |r.ranges| && InRange(a[i], r.ranges[j]) {
      RangesKeysIn(r.ranges, a[i]);
      assert a[i] in b;
    }
  }

  // ----- validate -----

  ghost predicate RangesPass(rs: seq<TileRange>, n: nat) {
    && n <= |rs|
    && (forall i :: 0 <= i < n ==> ValidRange(rs[i]))
    && (forall i, j :: 0 <= j < i < n ==> !RangesOverlap(rs[i], rs[j]))
  }

  method ValidateRanges(rs: seq<TileRange>) returns (ok: bool)
    ensures ok <==> RangesPass(rs, |rs|)
  {
    for i := 0 to |rs|
      invariant RangesPass(rs, i)
    {
      if !ValidRange(rs[i]) {
        return false;
      }
      for previous := 0 to i
        invariant forall j :: 0 <= j < previous ==> !RangesOverlap(rs[i], rs[j])
      {
        if RangesOverlap(rs[i], rs[previous]) {
          return false;
        }
      }
    }
    return true;
  }

  ghost predicate KeysPass(r: SyncRequest, n: nat) {
    && n <= |r.keys|
    && (forall i :: 0 <= i < n ==> ValidKey(r.keys[i]))
    && Distinct(r.keys[..n])
    && (forall i, j :: 0 <= i < n && 0 <= j < |r.ranges| ==> !InRange(r.keys[i], r.ranges[j]))
  }

  method ValidateKeys(r: SyncRequest) returns (ok: bool)
    ensures ok <==> KeysPass(r, |r.keys|)
  {
    hide ValidKey, InRange;
    var seenKeys: set<TileKey> := {};
    for i := 0 to |r.keys|
      invariant KeysPass(r, i)
      invariant seenKeys == set k | k in r.keys[..i]
    {
      var key := r.keys[i];
      if !ValidKey(key) {
        return false;
      }
      if key in seenKeys {
        ghost var j :| 0 <= j < i && r.keys[..i][j] == key;
        assert r.keys[..|r.keys|][j] == r.keys[..|r.keys|][i];
        return false;
      }
      seenKeys := seenKeys + {key};
      assert r.keys[..i + 1] == r.keys[..i] + [key];
      for j := 0 to |r.ranges|
        invariant forall m :: 0 <= m < j ==> !InRange(key, r.ranges[m])
      {
        if InRange(key, r.ranges[j]) {
          return false;
        }
      }
    }
    return true;
  }

  /** A request passes exactly when its dataset, if it has one, can be a name, and every key exists and is
      asked for once. */
  method Validate(r: SyncRequest) returns (ok: bool)
    ensures ok <==> Acceptable(r)
  {
    hide ValidKey, ValidRange, RangesOverlap, InRange, RangesKeys;
    PassIffAcceptable(r);
    if |r.dataset| > 0 {
      var named := Identifier.Validate(r.dataset, MAX_DATASET_BYTES);
      if !named {
        return false;
      }
    }
    if r.concurrency < 0 || r.concurrency > MAX_SYNC_CONCURRENCY {
      return false;
    }
    ok := ValidateRanges(r.ranges);
    if ok {
      ok := ValidateKeys(r);
    }
  }

  lemma {:induction false} PassIffAcceptable(r: SyncRequest)
    ensures RangesPass(r.ranges, |r.ranges|) && KeysPass(r, |r.keys|) <==> WellFormed(r) && Distinct(AllKeys(r))
  {
    hide ValidKey, ValidRange, RangesOverlap, InRange, RangesKeys, Distinct, Disjoint;
    assert r.keys[..|r.keys|] == r.keys;
    if WellFormed(r) {
      RangesDistinct(r.ranges);
      DistinctConcat(r.keys, RangesKeys(r.ranges));
      KeysDisjoint(r);
    }
  }

  // ----- total and visit -----

  lemma {:induction false} Pigeonhole(s: seq<nat>, n: nat)
    requires Distinct(s) && forall i :: 0 <= i < |s| ==> s[i] < n
    ensures |s| <= n
    decreases n
  {
    if s != [] {
      assert 0 <= s[0] < n;
      if i :| 0 <= i < |s| && s[i] == n - 1 {
        var t := s[..i] + s[i + 1..];
        forall j | 0 <= j < |t| ensures t[j] == s[if j < i then j else j + 1] && t[j] < n - 1 {
        }
        Pigeonhole(t, n - 1);
      } else {
        Pigeonhole(s, n - 1);
      }
    }
  }

  function KeyId(k: TileKey): nat
    requires ValidKey(k)
  {
    TileId.IdOf(TileId.Tile(k.z, k.x, k.y))
  }

  lemma {:induction false} KeyIdUnique(a: TileKey, b: TileKey)
    requires ValidKey(a) && ValidKey(b)
    ensures KeyId(a) <= TileId.MAX_TILE_ID
    ensures KeyId(a) == KeyId(b) ==> a == b
  {
    hide TileId.IdOf, TileId.TileAt, TileId.MAX_TILE_ID;
    TileId.IdBijection(TileId.Tile(a.z, a.x, a.y), KeyId(a));
    TileId.IdBijection(TileId.Tile(b.z, b.x, b.y), KeyId(b));
  }

  /** There are not 2^64 keys to ask for. */
  lemma {:induction false} DistinctKeysFit(ks: seq<TileKey>)
    requires Distinct(ks) && forall i :: 0 <= i < |ks| ==> ValidKey(ks[i])
    ensures |ks| < TWO_64
  {
    hide ValidKey, KeyId, TileId.MAX_TILE_ID;
    var ids := seq(|ks|, i requires 0 <= i < |ks| => KeyId(ks[i]));
    forall i | 0 <= i < |ids| ensures ids[i] < TileId.MAX_TILE_ID + 1 {
      KeyIdUnique(ks[i], ks[i]);
    }
    forall i, j | 0 <= i < j < |ids| ensures ids[i] != ids[j] {
      KeyIdUnique(ks[i], ks[j]);
    }
    Pigeonhole(ids, TileId.MAX_TILE_ID + 1);
    TileId.MaxIdFits();
  }

  lemma {:induction false} RangesKeysNext(rs: seq<TileRange>, i: nat)
    requires i < |rs| && forall j :: 0 <= j <= i ==> ValidRange(rs[j])
    ensures RangesKeys(rs[..i + 1]) == RangesKeys(rs[..i]) + RangeKeys(rs[i])
  {
    assert rs[..i + 1][..i] == rs[..i];
  }

  /** The total in 64 bits; it overflows exactly when the keys asked for are too many to count. */
  method Total(r: SyncRequest) returns (n: Option<nat>)
    requires |r.keys| < TWO_63
    ensures WellFormed(r) ==> n == if |AllKeys(r)| < TWO_64 then Some(|AllKeys(r)|) else None
    ensures !(forall i :: 0 <= i < |r.ranges| ==> ValidRange(r.ranges[i])) ==> n.None?
  {
    assert RangesKeys([]) == [];
    hide ValidKey, ValidRange, RangeKeys, RangesKeys;
    var total := |r.keys|;
    for i := 0 to |r.ranges|
      invariant forall j :: 0 <= j < i ==> ValidRange(r.ranges[j])
      invariant total == |r.keys| + |RangesKeys(r.ranges[..i])| < TWO_64
    {
      var count := Count(r.ranges[i]);
      if count.None? {
        return None;
      }
      RangesKeysNext(r.ranges, i);
      if total > TWO_64 - 1 - count.value {
        RangesKeysGrow(r.ranges, i + 1);
        return None;
      }
      total := total + count.value;
    }
    assert r.ranges[..|r.ranges|] == r.ranges;
    return Some(total);
  }

  lemma {:induction false} RangesKeysGrow(rs: seq<TileRange>, n: nat)
    requires n <= |rs|
    ensures (forall i :: 0 <= i < |rs| ==> ValidRange(rs[i])) ==> RangesKeys(rs[..n]) <= RangesKeys(rs)
    decreases |rs|
  {
    hide ValidRange, RangeKeys;
    if n == |rs| {
      assert rs[..n] == rs;
    } else {
      var m := |rs| - 1;
      RangesKeysGrow(rs[..m], n);
      assert rs[..m][..n] == rs[..n];
    }
  }

  /** The keys of a range up to the n-th of column x, after those before them. */
  function UpTo(before: seq<TileKey>, r: TileRange, x: int, n: nat): seq<TileKey>
    requires ValidRange(r) && r.xMin <= x
  {
    before + Columns(r, x - r.xMin) + Column(r, x, n)
  }

  method VisitRange(r: TileRange, before: seq<TileKey>, fails: seq<TileKey> -> bool)
    returns (seen: seq<TileKey>, ok: bool)
    requires Passed(before, fails)
    ensures !ValidRange(r) ==> !ok && seen == before
    ensures ValidRange(r) && ok ==> seen == before + RangeKeys(r) && Passed(seen, fails)
    ensures ValidRange(r) && !ok ==> before <= seen <= before + RangeKeys(r) && Stopped(seen, fails)
  {
    hide ValidKey, Passed, Stopped, UpTo, RangeKeys;
    seen, ok := before, false;
    if !ValidRange(r) {
      return;
    }
    FirstColumn(before, r);
    for x := r.xMin to r.xMax + 1
      invariant seen == UpTo(before, r, x, 0) && Passed(seen, fails)
    {
      for y := r.yMin to r.yMax + 1
        invariant seen == UpTo(before, r, x, y - r.yMin) && Passed(seen, fails)
      {
        var k := TileKey(r.z, x, y);
        PassedNext(seen, k, fails);
        ColumnGrows(before, r, x, y - r.yMin);
        seen := seen + [k];
        if fails(seen) {
          PartOfRange(r, x, y - r.yMin + 1, before);
          return;
        }
      }
      NextColumn(before, r, x);
    }
    LastColumn(before, r);
    ok := true;
  }

  lemma {:induction false} FirstColumn(before: seq<TileKey>, r: TileRange)
    requires ValidRange(r)
    ensures UpTo(before, r, r.xMin, 0) == before
  {
  }

  lemma {:induction false} NextColumn(before: seq<TileKey>, r: TileRange, x: int)
    requires ValidRange(r) && r.xMin <= x
    ensures UpTo(before, r, x + 1, 0) == UpTo(before, r, x, Height(r))
  {
    hide ValidRange;
    Sequences.Associate(before, Columns(r, x - r.xMin), Column(r, x, Height(r)));
  }

  lemma {:induction false} LastColumn(before: seq<TileKey>, r: TileRange)
    requires ValidRange(r)
    ensures UpTo(before, r, r.xMax + 1, 0) == before + RangeKeys(r)
  {
  }

  lemma {:induction false} ColumnGrows(before: seq<TileKey>, r: TileRange, x: int, n: nat)
    requires ValidRange(r) && r.xMin <= x
    ensures UpTo(before, r, x, n + 1) == UpTo(before, r, x, n) + [TileKey(r.z, x, r.yMin + n)]
  {
    hide ValidRange, Columns;
    var k := TileKey(r.z, x, r.yMin + n);
    assert Column(r, x, n + 1) == Column(r, x, n) + [k];
    Sequences.Associate(before + Columns(r, x - r.xMin), Column(r, x, n), [k]);
  }

  lemma {:induction false} PartOfRange(r: TileRange, x: int, n: nat, before: seq<TileKey>)
    requires ValidRange(r) && r.xMin <= x <= r.xMax && n <= Height(r)
    ensures before <= UpTo(before, r, x, n) <= before + RangeKeys(r)
  {
    hide ValidRange;
    var m := x - r.xMin;
    ColumnsGrow(r, m + 1, Width(r));
    assert Column(r, x, n) <= Column(r, x, Height(r));
  }

  lemma {:induction false} ColumnsGrow(r: TileRange, m: nat, n: nat)
    requires ValidRange(r) && m <= n
    ensures Columns(r, m) <= Columns(r, n)
  {
    hide ValidRange, Column;
    if m < n {
      ColumnsGrow(r, m, n - 1);
    }
  }

  method VisitKeys(keys: seq<TileKey>, fails: seq<TileKey> -> bool) returns (seen: seq<TileKey>, ok: bool)
    ensures ok ==> seen == keys && Passed(seen, fails)
    ensures !ok ==> seen <= keys && Stopped(seen, fails)
  {
    hide Passed, Stopped;
    NothingSeen(fails);
    seen := [];
    for i := 0 to |keys|
      invariant seen == keys[..i] && Passed(seen, fails)
    {
      PassedNext(seen, keys[i], fails);
      seen := seen + [keys[i]];
      if fails(seen) {
        return seen, false;
      }
    }
    ok := true;
  }

  /** The keys of the ranges up to the n-th, after those before them. */
  function SoFar(before: seq<TileKey>, rs: seq<TileRange>, n: nat): seq<TileKey>
    requires n <= |rs| && forall i :: 0 <= i < |rs| ==> ValidRange(rs[i])
  {
    before + RangesKeys(rs[..n])
  }

  lemma {:induction false} SoFarGrows(before: seq<TileKey>, rs: seq<TileRange>, n: nat)
    requires n <= |rs| && forall i :: 0 <= i < |rs| ==> ValidRange(rs[i])
    ensures SoFar(before, rs, 0) == before && SoFar(before, rs, |rs|) == before + RangesKeys(rs)
    ensures SoFar(before, rs, n) <= before + RangesKeys(rs)
    ensures n < |rs| ==> SoFar(before, rs, n + 1) == SoFar(before, rs, n) + RangeKeys(rs[n])
  {
    hide ValidRange, RangeKeys;
    RangesKeysGrow(rs, n);
    assert rs[..|rs|] == rs;
    if n < |rs| {
      RangesKeysNext(rs, n);
    }
  }

  /** visit: every key in turn, until the visitor fails on one. */
  method Visit(r: SyncRequest, fails: seq<TileKey> -> bool) returns (seen: seq<TileKey>, ok: bool)
    requires WellFormed(r)
    ensures ok ==> seen == AllKeys(r) && Passed(seen, fails)
    ensures !ok ==> seen <= AllKeys(r) && Stopped(seen, fails)
  {
    hide ValidKey, ValidRange, RangeKeys, RangesKeys, Passed, Stopped, SoFar;
    seen, ok := VisitKeys(r.keys, fails);
    if !ok {
      return;
    }
    SoFarGrows(r.keys, r.ranges, 0);
    for i := 0 to |r.ranges|
      invariant ok && seen == SoFar(r.keys, r.ranges, i) && Passed(seen, fails)
    {
      SoFarGrows(r.keys, r.ranges, i);
      SoFarGrows(r.keys, r.ranges, i + 1);
      seen, ok := VisitRange(r.ranges[i], seen, fails);
      if !ok {
        return;
      }
    }
  }

  /** An accepted request: its total never overflows, and visit enumerates exactly that many keys, all
      of them valid, none of them twice. */
  lemma {:induction false} AcceptedRequest(r: SyncRequest)
    requires Acceptable(r)
    ensures |AllKeys(r)| < TWO_64 && Distinct(AllKeys(r))
    ensures forall i :: 0 <= i < |AllKeys(r)| ==> ValidKey(AllKeys(r)[i])
    ensures forall k :: k in AllKeys(r) <==> k in r.keys || exists i :: 0 <= i < |r.ranges| && InRange(k, r.ranges[i])
  {
    hide ValidKey, InRange, RangesKeys;
    var all := AllKeys(r);
    forall i | 0 <= i < |all| ensures ValidKey(all[i]) {
      if i >= |r.keys| {
        assert all[i] == RangesKeys(r.ranges)[i - |r.keys|];
        RangesKeysIn(r.ranges, all[i]);
        var j :| 0 <= j < |r.ranges| && InRange(all[i], r.ranges[j]);
        InRangeValid(all[i], r.ranges[j]);
      }
    }
    forall k ensures k in all <==> k in r.keys || exists i :: 0 <= i < |r.ranges| && InRange(k, r.ranges[i]) {
      RangesKeysIn(r.ranges, k);
    }
    DistinctKeysFit(all);
  }

  lemma {:induction false} InRangeValid(k: TileKey, r: TileRange)
    requires ValidRange(r) && InRange(k, r)
    ensures ValidKey(k)
  {
  }

  lemma {:induction false} AcceptableForm(r: SyncRequest)
    requires Acceptable(r)
    ensures WellFormed(r)
  {
  }

  lemma {:induction false} NeverStopped(seen: seq<TileKey>)
    ensures !Stopped(seen, _ => false)
  {
  }

  /** validate, total and visit together, with a visitor that never fails. */
  method Enumerate(r: SyncRequest) returns (accepted: bool, total: Option<nat>, seen: seq<TileKey>)
    requires |r.keys| < TWO_63
    ensures accepted <==> Acceptable(r)
    ensures accepted ==> total == Some(|seen|) && seen == AllKeys(r)
  {
    hide Acceptable, Distinct, AllKeys;
    accepted := Validate(r);
    total, seen := None, [];
    if accepted {
      AcceptedRequest(r);
      assert WellFormed(r) by { AcceptableForm(r); }
      total := Total(r);
      var ok;
      seen, ok := Visit(r, _ => false);
      assert ok by {
        NeverStopped(seen);
      }
    }
  }
}
