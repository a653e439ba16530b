/** Signatures that identify rings up to start and direction, and polygons up to the order of their
    holes (internal/geo/repair.go). */
module Signatures {
  import opened Bits
  import opened Geometry
  import opened Lexicographic
  import opened Rotation

  // ----- Little-endian words -----

  function Power256(k: nat): nat {
    if k == 0 then 1 else 256 * Power256(k - 1)
  }

  /** The k low bytes of v, lowest first. */
  function LittleEndian(v: nat, k: nat): (bs: Bytes)
    ensures |bs| == k
  {
    if k == 0 then [] else [v % 256] + LittleEndian(v / 256, k - 1)
  }

  lemma {:induction false} LittleEndianInjective(v: nat, w: nat, k: nat)
    requires v < Power256(k) && w < Power256(k)
    requires LittleEndian(v, k) == LittleEndian(w, k)
    ensures v == w
  {
    if k > 0 {
      var bs, cs := LittleEndian(v, k), LittleEndian(w, k);
      assert bs[0] == cs[0] && bs[1..] == cs[1..];
      assert bs[1..] == LittleEndian(v / 256, k - 1) && cs[1..] == LittleEndian(w / 256, k - 1);
      LittleEndianInjective(v / 256, w / 256, k - 1);
    }
  }

  lemma {:induction false} Power256Of8()
    ensures Power256(8) == TWO_64
  {
    assert Power256(4) == 0x1_0000_0000;
    assert Power256(6) == 0x1_0000_0000_0000;
  }

  /** The unsigned image of a signed word. */
  function Unsigned(x: int): nat {
    x % TWO_64
  }

  lemma {:induction false} WordInjective(x: int, y: int)
    requires IsInt64(x) && IsInt64(y)
    requires LittleEndian(Unsigned(x), 8) == LittleEndian(Unsigned(y), 8)
    ensures x == y
  {
    hide LittleEndian, Power256;
    Power256Of8();
    LittleEndianInjective(Unsigned(x), Unsigned(y), 8);
  }

  // ----- Ring signatures -----

  predicate InRange(r: Ring) {
    forall p :: p in r ==> IsInt64(p.x) && IsInt64(p.y)
  }

  function EncodePoint(p: Point): (bs: Bytes)
    ensures |bs| == 16
  {
    LittleEndian(Unsigned(p.x), 8) + LittleEndian(Unsigned(p.y), 8)
  }

  function EncodeRing(q: Ring): (bs: Bytes)
    ensures |bs| == 16 * |q|
  {
    if q == [] then [] else EncodePoint(q[0]) + EncodeRing(q[1..])
  }

  lemma {:induction false} EncodeRingAppend(q: Ring, p: Point)
    ensures EncodeRing(q + [p]) == EncodeRing(q) + EncodePoint(p)
  {
    if q == [] {
      assert EncodeRing([p]) == EncodePoint(p) + EncodeRing([]);
    } else {
      assert (q + [p])[1..] == q[1..] + [p];
      EncodeRingAppend(q[1..], p);
    }
  }

  lemma {:induction false} EncodePointInjective(p: Point, r: Point)
    requires InRange([p]) && InRange([r]) && EncodePoint(p) == EncodePoint(r)
    ensures p == r
  {
    assert p in [p] && r in [r];
    assert EncodePoint(p)[..8] == LittleEndian(Unsigned(p.x), 8);
    assert EncodePoint(r)[..8] == LittleEndian(Unsigned(r.x), 8);
    assert EncodePoint(p)[8..] == LittleEndian(Unsigned(p.y), 8);
    assert EncodePoint(r)[8..] == LittleEndian(Unsigned(r.y), 8);
    WordInjective(p.x, r.x);
    WordInjective(p.y, r.y);
  }

  lemma {:induction false} EncodeRingInjective(q: Ring, r: Ring)
    requires InRange(q) && InRange(r) && EncodeRing(q) == EncodeRing(r)
    ensures q == r
  {
    if q != [] {
      assert EncodeRing(q)[..16] == EncodePoint(q[0]) && EncodeRing(r)[..16] == EncodePoint(r[0]);
      assert EncodeRing(q)[16..] == EncodeRing(q[1..]) && EncodeRing(r)[16..] == EncodeRing(r[1..]);
      EncodePointInjective(q[0], r[0]);
      EncodeRingInjective(q[1..], r[1..]);
      assert q == [q[0]] + q[1..] && r == [r[0]] + r[1..];
    }
  }

  /** A ring without its closing point. */
  function Open(r: Ring): Ring {
    if |r| > 1 && r[0] == r[|r| - 1] then r[..|r| - 1] else r
  }

  function Lesser(f: Bytes, b: Bytes): Bytes {
    if LexLess(ByteLess, b, f) then b else f
  }

  ghost function SignatureOf(r: Ring): (sig: Bytes)
    ensures |sig| == 16 * |Open(r)|
  {
    Lesser(EncodeRing(Canonical(Open(r))), EncodeRing(Canonical(Reversed(Open(r)))))
  }

  method EncodeFrom(q: Ring, start: nat) returns (out: Bytes)
    requires start < |q| || (q == [] && start == 0)
    ensures out == EncodeRing(Rotate(q, start))
  {
    out := [];
    ghost var r := Rotate(q, start);
    for i := 0 to |q|
      invariant out == EncodeRing(r[..i])
    {
      var p := q[(start + i) % |q|];
      RotateAt(q, start, i);
      EncodeRingAppend(r[..i], p);
      assert r[..i + 1] == r[..i] + [p];
      out := out + EncodePoint(p);
    }
    assert r[..|q|] == r;
  }

  /** The vertices from their least rotation on, encoded. */
  method EncodeCanonical(q: Ring) returns (out: Bytes)
    ensures out == EncodeRing(Canonical(q))
  {
    var start, _ := MinimumRotation(q);
    out := EncodeFrom(q, start);
    if |q| > 0 {
      LeastIsCanonical(q, start);
    }
  }

  /** The first and the last i elements have changed places. */
  ghost predicate Swapped(now: Ring, was: Ring, i: nat) {
    var n := |was|;
    && |now| == n && 2 * i <= n
    && (forall k :: 0 <= k < i ==> now[k] == was[n - 1 - k] && now[n - 1 - k] == was[k])
    && (forall k :: i <= k < n - i ==> now[k] == was[k])
  }

  lemma {:induction false} SwappedStart(was: Ring)
    ensures Swapped(was, was, 0)
  {
  }

  lemma {:induction false} SwappedStep(now: Ring, next: Ring, was: Ring, i: nat)
    requires Swapped(now, was, i) && i < |was| / 2 && |next| == |now|
    requires next[i] == now[|was| - 1 - i] && next[|was| - 1 - i] == now[i]
    requires forall k :: 0 <= k < |was| && k != i && k != |was| - 1 - i ==> next[k] == now[k]
    ensures Swapped(next, was, i + 1)
  {
  }

  lemma {:induction false} SwappedAll(now: Ring, was: Ring)
    requires Swapped(now, was, |was| / 2)
    ensures now == Reversed(was)
  {
    hide Reversed;
    var n := |was|;
    forall k | 0 <= k < n ensures now[k] == Reversed(was)[k] {
      ReversedAt(was, k);
      if k >= n - n / 2 {
        assert now[n - 1 - (n - 1 - k)] == was[n - 1 - k];
      }
    }
  }

  method ReverseInPlace(q: array<Point>)
    modifies q
    ensures q[..] == Reversed(old(q[..]))
  {
    hide Swapped, Reversed;
    ghost var was := q[..];
    var n := q.Length;
    SwappedStart(was);
    for i := 0 to n / 2
      invariant Swapped(q[..], was, i)
    {
      ghost var before := q[..];
      q[i], q[n - 1 - i] := q[n - 1 - i], q[i];
      SwappedStep(before, q[..], was, i);
    }
    SwappedAll(q[..], was);
  }

  method RingSignature(r: Ring) returns (sig: Bytes)
    ensures sig == SignatureOf(r)
  {
    if |r| == 0 {
      return [];
    }
    var pts := if |r| > 1 && r[0] == r[|r| - 1] then r[..|r| - 1] else r;
    var q := new Point[|pts|](i requires 0 <= i < |pts| => pts[i]);
    assert q[..] == Open(r);
    var forward := EncodeCanonical(q[..]);
    ReverseInPlace(q);
    var backward := EncodeCanonical(q[..]);
    sig := Lesser(forward, backward);
  }

  /** The same vertices in the same cyclic order, in either direction. */
  ghost predicate SameRing(r: Ring, s: Ring) {
    IsRotation(Open(r), Open(s)) || IsRotation(Reversed(Open(r)), Open(s))
  }

  lemma {:induction false} ReversedTwice(q: Ring)
    ensures Reversed(Reversed(q)) == q
  {
    forall k | 0 <= k < |q| ensures Reversed(Reversed(q))[k] == q[k] {
      ReversedAt(Reversed(q), k);
      ReversedAt(q, |q| - 1 - k);
    }
  }

  lemma {:induction false} ReversedRotation(q: Ring, r: Ring)
    requires IsRotation(q, r)
    ensures IsRotation(Reversed(q), Reversed(r))
  {
    hide Reversed;
    var p :| 0 <= p <= |q| && r == Rotate(q, p);
    var n := |q|;
    forall k | 0 <= k < n ensures Reversed(r)[k] == Rotate(Reversed(q), n - p)[k] {
      ReversedAt(r, k);
      ReversedAt(q, if k < p then n - p + k else k - p);
    }
    assert Reversed(r) == Rotate(Reversed(q), n - p);
  }

  lemma {:induction false} RotationInRange(q: Ring, r: Ring)
    requires InRange(q) && IsRotation(q, r)
    ensures InRange(r)
  {
    var p :| 0 <= p <= |q| && r == Rotate(q, p);
    assert forall x :: x in r ==> x in q[p..] || x in q[..p];
  }

  lemma {:induction false} ReversedInRange(q: Ring)
    requires InRange(q)
    ensures InRange(Reversed(q))
  {
    forall x | x in Reversed(q) ensures x in q {
      var k :| 0 <= k < |q| && Reversed(q)[k] == x;
      ReversedAt(q, k);
    }
  }

  lemma {:induction false} LesserSymmetric(f: Bytes, b: Bytes)
    ensures Lesser(f, b) == Lesser(b, f)
  {
    ByteOrder();
    LexConnected(ByteLess, f, b);
    if LexLess(ByteLess, f, b) {
      LexAsymmetric(ByteLess, f, b);
    }
  }

  lemma {:induction false} EncodedClassIff(q: Ring, r: Ring)
    requires InRange(q) && InRange(r)
    ensures EncodeRing(Canonical(q)) == EncodeRing(Canonical(r)) <==> IsRotation(q, r)
  {
    RotationInRange(q, Canonical(q));
    RotationInRange(r, Canonical(r));
    if EncodeRing(Canonical(q)) == EncodeRing(Canonical(r)) {
      EncodeRingInjective(Canonical(q), Canonical(r));
    }
    CanonicalIffRotation(q, r);
  }

  /** Rings have equal signatures exactly when they are the same up to start and direction. */
  lemma {:induction false} RingSignatureIff(r: Ring, s: Ring)
    requires InRange(r) && InRange(s)
    ensures SignatureOf(r) == SignatureOf(s) <==> SameRing(r, s)
  {
    var q, t := Open(r), Open(s);
    var q', t' := Reversed(q), Reversed(t);
    ReversedInRange(q);
    ReversedInRange(t);
    ReversedTwice(q);
    ReversedTwice(t);
    EncodedClassIff(q, t);
    EncodedClassIff(q', t);
    EncodedClassIff(q, t');
    EncodedClassIff(q', t');
    if IsRotation(q, t) {
      ReversedRotation(q, t);
    }
    if IsRotation(q', t) {
      ReversedRotation(q', t);
      LesserSymmetric(EncodeRing(Canonical(q)), EncodeRing(Canonical(q')));
    }
    if IsRotation(q, t') {
      ReversedRotation(q, t');
    }
    if IsRotation(q', t') {
      ReversedRotation(q', t');
    }
  }

  // ----- What it means to be the same ring -----

  /** s is q, begun at position p. */
  predicate BegunAt(q: Ring, s: Ring, p: nat) {
    |s| == |q| && p < |q| && forall t :: 0 <= t < |q| ==> s[t] == q[(p + t) % |q|]
  }

  /** s is q, begun at position p and followed backwards. */
  predicate BegunBackAt(q: Ring, s: Ring, p: nat) {
    |s| == |q| && p < |q| && forall t :: 0 <= t < |q| ==> s[t] == q[(p + |q| - t) % |q|]
  }

  /** Only a closing repetition of the first point is left out. */
  lemma {:induction false} OpenMeans(q: Ring)
    ensures q != [] ==> Open(q + [q[0]]) == q
    ensures |q| <= 1 || q[0] != q[|q| - 1] ==> Open(q) == q
  {
    if q != [] {
      var r := q + [q[0]];
      assert r[..|q|] == q;
    }
  }

  lemma {:induction false} RotationIff(q: Ring, s: Ring)
    requires q != []
    ensures IsRotation(q, s) <==> exists p: nat :: BegunAt(q, s, p)
  {
    hide Rotate;
    if IsRotation(q, s) {
      var p :| 0 <= p <= |q| && s == Rotate(q, p);
      var k := if p == |q| then 0 else p;
      assert Rotate(q, p) == Rotate(q, k) by { RotateAll(q); }
      forall t | 0 <= t < |q| ensures s[t] == q[(k + t) % |q|] {
        RotateAt(q, k, t);
      }
      assert BegunAt(q, s, k);
    }
    if exists p: nat :: BegunAt(q, s, p) {
      var p: nat :| BegunAt(q, s, p);
      forall t | 0 <= t < |q| ensures Rotate(q, p)[t] == s[t] {
        RotateAt(q, p, t);
      }
      assert s == Rotate(q, p);
    }
  }

  lemma {:induction false} RotateAll(q: Ring)
    ensures Rotate(q, |q|) == Rotate(q, 0) == q
  {
  }

  lemma {:induction false} BackIndex(n: nat, p: nat, t: nat)
    requires p < n && t < n
    ensures n - 1 - (n - 1 - p + t) % n == (p + n - t) % n
  {
    if t <= p {
      assert (n - 1 - p + t) % n == n - 1 - p + t;
      assert (p + n - t) % n == (n + (p - t)) % n == p - t;
    } else {
      assert (n - 1 - p + t) % n == (n + (t - 1 - p)) % n == t - 1 - p;
    }
  }

  lemma {:induction false} BackAt(q: Ring, p: nat, t: nat)
    requires p < |q| && t < |q|
    ensures Reversed(q)[(|q| - 1 - p + t) % |q|] == q[(p + |q| - t) % |q|]
  {
    ReversedAt(q, (|q| - 1 - p + t) % |q|);
    BackIndex(|q|, p, t);
  }

  lemma {:induction false} BegunThenBack(q: Ring, s: Ring, p: nat)
    requires p < |q| && BegunAt(Reversed(q), s, |q| - 1 - p)
    ensures BegunBackAt(q, s, p)
  {
    hide Reversed;
    forall t | 0 <= t < |q| ensures s[t] == q[(p + |q| - t) % |q|] {
      BackAt(q, p, t);
    }
  }

  lemma {:induction false} BackThenBegun(q: Ring, s: Ring, p: nat)
    requires p < |q| && BegunBackAt(q, s, p)
    ensures BegunAt(Reversed(q), s, |q| - 1 - p)
  {
    hide Reversed;
    forall t | 0 <= t < |q| ensures s[t] == Reversed(q)[(|q| - 1 - p + t) % |q|] {
      BackAt(q, p, t);
    }
  }

  lemma {:induction false} BegunBackIff(q: Ring, s: Ring, p: nat)
    requires p < |q|
    ensures BegunAt(Reversed(q), s, |q| - 1 - p) <==> BegunBackAt(q, s, p)
  {
    hide Reversed, BegunAt, BegunBackAt;
    if BegunAt(Reversed(q), s, |q| - 1 - p) {
      BegunThenBack(q, s, p);
    }
    if BegunBackAt(q, s, p) {
      BackThenBegun(q, s, p);
    }
  }

  /** Closed rings are the same exactly when one is the other begun somewhere, in either direction. */
  lemma {:induction false} SameRingIff(q: Ring, s: Ring)
    requires q != [] && s != []
    ensures SameRing(q + [q[0]], s + [s[0]]) <==> exists p: nat :: BegunAt(q, s, p) || BegunBackAt(q, s, p)
  {
    hide Open, IsRotation, Reversed, BegunAt, BegunBackAt;
    OpenMeans(q);
    OpenMeans(s);
    RotationIff(q, s);
    RotationIff(Reversed(q), s);
    var n := |q|;
    if IsRotation(Reversed(q), s) {
      var k: nat :| BegunAt(Reversed(q), s, k);
      assert k < n by { BegunWithin(Reversed(q), s, k); }
      BegunBackIff(q, s, n - 1 - k);
    }
    forall p: nat | BegunBackAt(q, s, p) ensures IsRotation(Reversed(q), s) {
      assert p < n by { BegunBackWithin(q, s, p); }
      BegunBackIff(q, s, p);
    }
  }

  lemma {:induction false} BegunWithin(q: Ring, s: Ring, p: nat)
    requires BegunAt(q, s, p)
    ensures p < |q|
  {
  }

  lemma {:induction false} BegunBackWithin(q: Ring, s: Ring, p: nat)
    requires BegunBackAt(q, s, p)
    ensures p < |q|
  {
  }

  /** A ring turned round is the same ring. */
  lemma {:induction false} TurnedSame(r: Ring, s: Ring, clockwise: bool)
    requires Turned(r, s, clockwise)
    ensures SameRing(r, s)
  {
    hide IsClockwise, IsRotation;
    if s == r {
      SelfRotation(Open(r));
    } else {
      BackwardsSame(r, s);
    }
  }

  lemma {:induction false} SelfRotation(q: Ring)
    ensures IsRotation(q, q)
  {
    RotateAll(q);
  }

  lemma {:induction false} BackwardsSame(r: Ring, s: Ring)
    requires Backwards(r, s)
    ensures SameRing(r, s)
  {
    hide IsRotation, Reversed;
    var n := |r|;
    var q := Open(r);
    if q == r {
      ReversedIsBackwards(r, s);
      assert Open(s) == s;
      SelfRotation(s);
    } else {
      var back := Reversed(q);
      forall k | 0 <= k < n - 1 ensures back[k] == r[n - 2 - k] {
        ReversedAt(q, k);
      }
      assert Open(s) == back[n - 2..] + back[..n - 2];
      RotationBy(back, Open(s), n - 2);
    }
  }

  lemma {:induction false} RotationBy(q: Ring, s: Ring, p: nat)
    requires p <= |q| && s == q[p..] + q[..p]
    ensures IsRotation(q, s)
  {
    assert s == Rotate(q, p);
  }

  lemma {:induction false} ReversedIsBackwards(r: Ring, s: Ring)
    requires Backwards(r, s)
    ensures s == Reversed(r)
  {
    hide Reversed;
    ReversedBackwards(r);
  }

  // ----- Polygon signatures -----

  function Exterior(poly: Polygon): Ring {
    if poly.rings == [] then [] else poly.rings[0]
  }

  function Holes(poly: Polygon): seq<Ring> {
    if |poly.rings| <= 1 then [] else poly.rings[1..]
  }

  /** A polygon whose coordinates are machine words and whose rings fit a slice. */
  predicate Encodable(poly: Polygon) {
    forall r :: r in poly.rings ==> InRange(r) && 16 * |r| < TWO_63
  }

  ghost function SignaturesOf(rings: seq<Ring>): (sigs: seq<Bytes>)
    ensures |sigs| == |rings|
  {
    if rings == [] then [] else [SignatureOf(rings[0])] + SignaturesOf(rings[1..])
  }

  /** Byte strings, each after its length. */
  function Framed(sigs: seq<Bytes>): Bytes {
    if sigs == [] then [] else (LittleEndian(|sigs[0]|, 8) + sigs[0]) + Framed(sigs[1..])
  }

  /** The strings that make up a polygon's signature: the exterior's, then the holes' in order. */
  ghost function Parts(poly: Polygon): seq<Bytes> {
    [SignatureOf(Exterior(poly))] + Sort(ByteLess, SignaturesOf(Holes(poly)))
  }

  ghost function PolygonSignatureOf(poly: Polygon): Bytes {
    if |poly.rings| <= 1 then SignatureOf(Exterior(poly))
    else [104] + Framed(Parts(poly))
  }

  lemma {:induction false} FramedAppend(sigs: seq<Bytes>, s: Bytes)
    ensures Framed(sigs + [s]) == Framed(sigs) + (LittleEndian(|s|, 8) + s)
  {
    if sigs == [] {
      assert Framed([s]) == (LittleEndian(|s|, 8) + s) + Framed([]);
    } else {
      assert (sigs + [s])[1..] == sigs[1..] + [s];
      FramedAppend(sigs[1..], s);
    }
  }

  lemma {:induction false} SignaturesOfAt(rings: seq<Ring>, sigs: seq<Bytes>)
    requires |sigs| == |rings| && forall k :: 0 <= k < |rings| ==> sigs[k] == SignatureOf(rings[k])
    ensures sigs == SignaturesOf(rings)
  {
    hide SignatureOf;
    if rings != [] {
      assert forall k :: 0 <= k < |rings[1..]| ==> rings[1..][k] == rings[k + 1];
      SignaturesOfAt(rings[1..], sigs[1..]);
      assert sigs == [sigs[0]] + sigs[1..];
    }
  }

  method HoleSignatures(rings: seq<Ring>) returns (sigs: seq<Bytes>)
    ensures sigs == SignaturesOf(rings)
  {
    hide SignatureOf;
    sigs := [];
    for i := 0 to |rings|
      invariant |sigs| == i && forall k :: 0 <= k < i ==> sigs[k] == SignatureOf(rings[k])
    {
      var sig := RingSignature(rings[i]);
      sigs := sigs + [sig];
    }
    SignaturesOfAt(rings, sigs);
  }

  method Frame(sigs: seq<Bytes>) returns (out: Bytes)
    ensures out == Framed(sigs)
  {
    out := [];
    for i := 0 to |sigs|
      invariant out == Framed(sigs[..i])
    {
      FramedAppend(sigs[..i], sigs[i]);
      assert sigs[..i + 1] == sigs[..i] + [sigs[i]];
      out := out + (LittleEndian(|sigs[i]|, 8) + sigs[i]);
    }
    assert sigs[..|sigs|] == sigs;
  }

  method PolygonSignature(poly: Polygon) returns (out: Bytes)
    ensures out == PolygonSignatureOf(poly)
  {
    var exterior := RingSignature(Exterior(poly));
    if |poly.rings| <= 1 {
      return exterior;
    }
    var holes := HoleSignatures(Holes(poly));
    var framed := Frame([exterior] + Sort(ByteLess, holes));
    out := [104] + framed;
  }

  ghost predicate Framable(sigs: seq<Bytes>) {
    forall s :: s in sigs ==> |s| < TWO_64
  }

  lemma {:induction false} FramedInjective(ss: seq<Bytes>, tt: seq<Bytes>)
    requires Framable(ss) && Framable(tt) && Framed(ss) == Framed(tt)
    ensures ss == tt
  {
    if ss == [] || tt == [] {
      assert ss != [] ==> |Framed(ss)| >= 8;
      assert tt != [] ==> |Framed(tt)| >= 8;
    } else {
      var s, t := ss[0], tt[0];
      assert s in ss && t in tt;
      assert Framed(ss)[..8] == LittleEndian(|s|, 8) && Framed(tt)[..8] == LittleEndian(|t|, 8);
      Power256Of8();
      LittleEndianInjective(|s|, |t|, 8);
      var n := 8 + |s|;
      assert Framed(ss)[8..n] == s && Framed(tt)[8..n] == t;
      assert Framed(ss)[n..] == Framed(ss[1..]) && Framed(tt)[n..] == Framed(tt[1..]);
      FramedInjective(ss[1..], tt[1..]);
      assert ss == [ss[0]] + ss[1..] && tt == [tt[0]] + tt[1..];
    }
  }

  /** How many of the rings are the same as h. */
  ghost function CountSame(rings: seq<Ring>, h: Ring): nat {
    if rings == [] then 0 else (if SameRing(rings[0], h) then 1 else 0) + CountSame(rings[1..], h)
  }

  /** The same exterior, and each kind of hole equally often. */
  ghost predicate SamePolygon(p: Polygon, q: Polygon) {
    && SameRing(Exterior(p), Exterior(q))
    && SameHoles(Holes(p), Holes(q))
  }

  ghost predicate SameHoles(hs: seq<Ring>, ks: seq<Ring>) {
    forall h :: h in hs || h in ks ==> CountSame(hs, h) == CountSame(ks, h)
  }

  ghost predicate AllInRange(rings: seq<Ring>) {
    forall r :: r in rings ==> InRange(r)
  }

  lemma {:induction false} CountSameIsMultiplicity(rings: seq<Ring>, h: Ring)
    requires AllInRange(rings) && InRange(h)
    ensures CountSame(rings, h) == multiset(SignaturesOf(rings))[SignatureOf(h)]
  {
    hide SameRing, SignatureOf, InRange;
    if rings != [] {
      RingSignatureIff(rings[0], h);
      CountSameIsMultiplicity(rings[1..], h);
      OneMoreCounted(SignatureOf(rings[0]), SignaturesOf(rings[1..]), SignatureOf(h));
    }
  }

  lemma {:induction false} OneMoreCounted(first: Bytes, rest: seq<Bytes>, sig: Bytes)
    ensures multiset([first] + rest)[sig] == (if first == sig then 1 else 0) + multiset(rest)[sig]
  {
  }

  lemma {:induction false} SignaturesMember(rings: seq<Ring>, sig: Bytes) returns (h: Ring)
    requires sig in SignaturesOf(rings)
    ensures h in rings && SignatureOf(h) == sig
  {
    if SignatureOf(rings[0]) == sig {
      h := rings[0];
    } else {
      h := SignaturesMember(rings[1..], sig);
    }
  }

  lemma {:induction false} SameHolesIff(hs: seq<Ring>, ks: seq<Ring>)
    requires AllInRange(hs) && AllInRange(ks)
    ensures SameHoles(hs, ks) <==> multiset(SignaturesOf(hs)) == multiset(SignaturesOf(ks))
  {
    hide SameRing, SignatureOf, InRange, SignaturesOf, CountSame;
    var ss, tt := SignaturesOf(hs), SignaturesOf(ks);
    forall h | h in hs || h in ks
      ensures CountSame(hs, h) == multiset(ss)[SignatureOf(h)] && CountSame(ks, h) == multiset(tt)[SignatureOf(h)]
    {
      CountSameIsMultiplicity(hs, h);
      CountSameIsMultiplicity(ks, h);
    }
    if SameHoles(hs, ks) {
      forall sig ensures multiset(ss)[sig] == multiset(tt)[sig] {
        if sig in ss {
          var h := SignaturesMember(hs, sig);
        } else if sig in tt {
          var h := SignaturesMember(ks, sig);
        }
      }
    }
  }

  ghost predicate EvenLengths(sigs: seq<Bytes>) {
    forall sig :: sig in sigs ==> Even(|sig|)
  }

  lemma {:induction false} SignatureLength(r: Ring)
    ensures |SignatureOf(r)| <= 16 * |r| && Even(|SignatureOf(r)|)
  {
    EvenTwice(8 * |Open(r)|);
  }

  lemma {:induction false} SignatureLengths(rings: seq<Ring>)
    ensures EvenLengths(SignaturesOf(rings))
    ensures (forall r :: r in rings ==> 16 * |r| < TWO_63) ==> Framable(SignaturesOf(rings))
  {
    hide SignatureOf, Even;
    if rings != [] {
      SignatureLengths(rings[1..]);
      SignatureLength(rings[0]);
    }
  }

  lemma {:induction false} PartLengths(poly: Polygon)
    ensures EvenLengths(Parts(poly))
    ensures Encodable(poly) ==> Framable(Parts(poly))
  {
    hide SignatureOf, Even, InRange, Sort;
    var holes := SignaturesOf(Holes(poly));
    SignatureLengths(Holes(poly));
    SignatureLengths([Exterior(poly)]);
    assert SignatureOf(Exterior(poly)) in SignaturesOf([Exterior(poly)]);
    forall sig | sig in Parts(poly) ensures sig in holes || sig == SignatureOf(Exterior(poly)) {
      SortMember(ByteLess, holes, sig);
    }
  }

  lemma {:induction false} EncodableParts(p: Polygon)
    requires Encodable(p)
    ensures InRange(Exterior(p)) && AllInRange(Holes(p))
  {
  }

  /** Polygons have equal signatures exactly when they have the same exterior and the same holes. */
  lemma {:induction false} PolygonSignatureIff(p: Polygon, q: Polygon)
    requires Encodable(p) && Encodable(q)
    ensures PolygonSignatureOf(p) == PolygonSignatureOf(q) <==> SamePolygon(p, q)
  {
    hide SignatureOf, SignaturesOf, SameRing, SameHoles, InRange, Sort, Framed, Framable, StrictTotal, Even;
    var ep, eq := SignatureOf(Exterior(p)), SignatureOf(Exterior(q));
    var hp, hq := SignaturesOf(Holes(p)), SignaturesOf(Holes(q));
    EncodableParts(p);
    EncodableParts(q);
    RingSignatureIff(Exterior(p), Exterior(q));
    SameHolesIff(Holes(p), Holes(q));
    ByteOrder();
    SortIdentifiesMultisets(ByteLess, hp, hq);
    PartLengths(p);
    PartLengths(q);
    var fp, fq := Parts(p), Parts(q);
    if Framed(fp) == Framed(fq) {
      FramedInjective(fp, fq);
    }
    assert fp == fq <==> ep == eq && Sort(ByteLess, hp) == Sort(ByteLess, hq) by {
      assert fp[0] == ep && fq[0] == eq && fp[1..] == Sort(ByteLess, hp) && fq[1..] == Sort(ByteLess, hq);
    }
    if |p.rings| > 1 && |q.rings| > 1 {
      assert ([104] + Framed(fp))[1..] == Framed(fp) && ([104] + Framed(fq))[1..] == Framed(fq);
    } else {
      FramedParity(p);
      FramedParity(q);
      assert |hp| == |multiset(hp)| && |hq| == |multiset(hq)|;
    }
  }

  /** With holes the signature has odd length, without it an even one. */
  lemma {:induction false} FramedParity(p: Polygon)
    ensures Even(|PolygonSignatureOf(p)|) <==> |p.rings| <= 1
  {
    hide Even, SignatureOf, Framed;
    PartLengths(p);
    FramedEven(Parts(p));
    assert Parts(p)[0] == SignatureOf(Exterior(p));
    if |p.rings| > 1 {
      EvenSum(|Framed(Parts(p))|, 1);
      EvenTwice(0);
    }
  }

  lemma {:induction false} FramedEven(sigs: seq<Bytes>)
    requires EvenLengths(sigs)
    ensures Even(|Framed(sigs)|)
  {
    hide Even;
    if sigs == [] {
      EvenTwice(0);
    } else {
      FramedEven(sigs[1..]);
      EvenTwice(4);
      EvenSum(8, |sigs[0]|);
      EvenSum(8 + |sigs[0]|, |Framed(sigs[1..])|);
    }
  }

  // ----- Dropping duplicates -----

  ghost predicate AllEncodable(mp: seq<Polygon>) {
    forall p :: p in mp ==> Encodable(p)
  }

  ghost function PolygonSignatures(mp: seq<Polygon>): (sigs: seq<Bytes>)
    ensures |sigs| == |mp|
    ensures forall i :: 0 <= i < |mp| ==> sigs[i] == PolygonSignatureOf(mp[i])
  {
    seq(|mp|, i requires 0 <= i < |mp| => PolygonSignatureOf(mp[i]))
  }

  /** The increasing indices of the first occurrences among the first n elements. */
  ghost predicate Firsts<T>(xs: seq<T>, n: nat, kept: seq<nat>)
    requires n <= |xs|
  {
    && (forall k :: 0 <= k < |kept| ==> kept[k] < n)
    && (forall k, l :: 0 <= k < l < |kept| ==> kept[k] < kept[l] && xs[kept[k]] != xs[kept[l]])
    && (forall i :: 0 <= i < n ==> KeptUpTo(xs, i, kept))
  }

  /** Index i is kept, or an equal element with a smaller index is. */
  ghost predicate KeptUpTo<T>(xs: seq<T>, i: nat, kept: seq<nat>)
    requires i < |xs|
  {
    exists k :: 0 <= k < |kept| && kept[k] <= i && xs[kept[k]] == xs[i]
  }

  ghost function Elements<T>(xs: seq<T>, kept: seq<nat>): set<T> {
    set k | 0 <= k < |kept| && kept[k] < |xs| :: xs[kept[k]]
  }

  lemma {:induction false} FirstsStart<T>(xs: seq<T>)
    ensures Firsts(xs, 0, []) && Elements(xs, []) == {}
  {
  }

  lemma {:induction false} FirstsStep<T>(xs: seq<T>, n: nat, kept: seq<nat>, seen: set<T>)
    requires n < |xs| && Firsts(xs, n, kept) && seen == Elements(xs, kept)
    ensures xs[n] in seen ==> Firsts(xs, n + 1, kept)
    ensures xs[n] !in seen ==> Firsts(xs, n + 1, kept + [n]) && seen + {xs[n]} == Elements(xs, kept + [n])
  {
    if xs[n] in seen {
      assert KeptUpTo(xs, n, kept);
    } else {
      var kept' := kept + [n];
      forall i | 0 <= i < n + 1 ensures KeptUpTo(xs, i, kept') {
        if i < n {
          assert KeptUpTo(xs, i, kept);
          var k :| 0 <= k < |kept| && kept[k] <= i && xs[kept[k]] == xs[i];
          assert kept'[k] == kept[k];
        } else {
          assert kept'[|kept|] == n;
        }
      }
      forall x | x in seen + {xs[n]} ensures exists k :: 0 <= k < |kept'| && xs[kept'[k]] == x {
        if x in seen {
          var k :| 0 <= k < |kept| && xs[kept[k]] == x;
          assert kept'[k] == kept[k];
        } else {
          assert kept'[|kept|] == n;
        }
      }
    }
  }

  /** What is kept: in order, no two polygons the same, and each polygon or one before it that is
      the same. */
  ghost predicate FirstsOfKind(mp: seq<Polygon>, kept: seq<nat>) {
    && (forall k :: 0 <= k < |kept| ==> kept[k] < |mp|)
    && (forall k, l :: 0 <= k < l < |kept| ==> kept[k] < kept[l] && !SamePolygon(mp[kept[k]], mp[kept[l]]))
    && (forall i :: 0 <= i < |mp| ==> SameKept(mp, i, kept))
  }

  ghost predicate SameKept(mp: seq<Polygon>, i: nat, kept: seq<nat>)
    requires i < |mp|
  {
    exists k :: 0 <= k < |kept| && kept[k] <= i && SamePolygon(mp[kept[k]], mp[i])
  }

  lemma {:induction false} FirstsBySignature(mp: seq<Polygon>, kept: seq<nat>)
    requires AllEncodable(mp) && Firsts(PolygonSignatures(mp), |mp|, kept)
    ensures FirstsOfKind(mp, kept)
  {
    var sigs := PolygonSignatures(mp);
    forall k, l | 0 <= k < l < |kept| ensures !SamePolygon(mp[kept[k]], mp[kept[l]]) {
      SignaturesAgree(mp, kept[k], kept[l]);
    }
    forall i | 0 <= i < |mp| ensures SameKept(mp, i, kept) {
      assert KeptUpTo(sigs, i, kept);
      var k :| 0 <= k < |kept| && kept[k] <= i && sigs[kept[k]] == sigs[i];
      SignaturesAgree(mp, kept[k], i);
    }
  }

  lemma {:induction false} SignaturesAgree(mp: seq<Polygon>, i: nat, j: nat)
    requires AllEncodable(mp) && i < |mp| && j < |mp|
    ensures PolygonSignatures(mp)[i] == PolygonSignatures(mp)[j] <==> SamePolygon(mp[i], mp[j])
  {
    assert mp[i] in mp && mp[j] in mp;
    PolygonSignatureIff(mp[i], mp[j]);
  }

  /** Keeps exactly the first polygon of each kind, in order, and counts the others. */
  method DedupePolygons(mp: seq<Polygon>) returns (out: seq<Polygon>, dropped: nat, ghost kept: seq<nat>)
    requires AllEncodable(mp)
    ensures |out| == |kept| && FirstsOfKind(mp, kept)
    ensures forall k :: 0 <= k < |kept| ==> out[k] == mp[kept[k]]
    ensures dropped == |mp| - |out|
  {
    hide Firsts, FirstsOfKind, Elements, AllEncodable, PolygonSignatureOf;
    var seen: set<Bytes> := {};
    out, dropped, kept := [], 0, [];
    ghost var sigs := PolygonSignatures(mp);
    FirstsStart(sigs);
    for i := 0 to |mp|
      invariant |out| == |kept| && dropped == i - |out|
      invariant Firsts(sigs, i, kept) && seen == Elements(sigs, kept)
      invariant forall k :: 0 <= k < |kept| ==> kept[k] < |mp| && out[k] == mp[kept[k]]
    {
      var sig := PolygonSignature(mp[i]);
      FirstsStep(sigs, i, kept, seen);
      if sig in seen {
        dropped := dropped + 1;
      } else {
        seen := seen + {sig};
        out := out + [mp[i]];
        kept := kept + [i];
      }
    }
    FirstsBySignature(mp, kept);
  }
}
