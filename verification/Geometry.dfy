/** Planar geometry on quantised points: rings, directed edges, the shoelace sum and the
    even-odd containment test of internal/geo/geometry.go. */
module Geometry {
  import opened Sequences

  datatype Point = Point(x: int, y: int)

  type Ring = seq<Point>

  datatype Polygon = Polygon(rings: seq<Ring>)

  datatype Edge = Edge(a: Point, b: Point)

  function Rev(e: Edge): Edge {
    Edge(e.b, e.a)
  }

  predicate Closed(r: Ring) {
    r != [] ==> r[0] == r[|r| - 1]
  }

  /** The directed edges of a ring in order, consecutive duplicate points skipped. */
  function RingEdges(r: Ring): seq<Edge> {
    if |r| < 2 then []
    else if r[0] == r[1] then RingEdges(r[1..])
    else [Edge(r[0], r[1])] + RingEdges(r[1..])
  }

  function AllEdges(rings: seq<Ring>): seq<Edge> {
    if rings == [] then [] else RingEdges(rings[0]) + AllEdges(rings[1..])
  }

  /** The sum of an integer-valued functional over a sequence of edges. */
  ghost function Sum(f: Edge -> int, s: seq<Edge>): int {
    if s == [] then 0 else f(s[0]) + Sum(f, s[1..])
  }

  lemma {:induction false} SumConcat(f: Edge -> int, s: seq<Edge>, t: seq<Edge>)
    ensures Sum(f, s + t) == Sum(f, s) + Sum(f, t)
  {
    if s == [] {
      assert s + t == t;
    } else {
      assert (s + t)[1..] == s[1..] + t;
      SumConcat(f, s[1..], t);
    }
  }

  lemma {:induction false} SumRemove(f: Edge -> int, t: seq<Edge>, k: nat)
    requires k < |t|
    ensures Sum(f, t) == f(t[k]) + Sum(f, t[..k] + t[k + 1..])
    ensures multiset(t) == multiset(t[..k] + t[k + 1..]) + multiset{t[k]}
  {
    assert t == t[..k] + ([t[k]] + t[k + 1..]);
    assert ([t[k]] + t[k + 1..])[1..] == t[k + 1..];
    SumConcat(f, t[..k], [t[k]] + t[k + 1..]);
    SumConcat(f, t[..k], t[k + 1..]);
  }

  /** A sum does not depend on the order of the edges. */
  lemma {:induction false} SumPermutation(f: Edge -> int, s: seq<Edge>, t: seq<Edge>)
    requires multiset(s) == multiset(t)
    ensures Sum(f, s) == Sum(f, t)
  {
    hide Sum;
    if s == [] {
      NothingIn(t);
    } else {
      var k := Occurs(s, t);
      SumRemove(f, s, 0);
      SumRemove(f, t, k);
      Removed(s, 0);
      Removed(t, k);
      SumPermutation(f, s[..0] + s[1..], t[..k] + t[k + 1..]);
    }
  }

  // ----- Functionals that change sign with the direction of an edge -----

  ghost predicate Antisymmetric(f: Edge -> int) {
    forall e :: f(Rev(e)) == -f(e)
  }

  /** Twice the signed area an edge contributes. */
  function Cross(e: Edge): int {
    e.a.x * e.b.y - e.b.x * e.a.y
  }

  /** Out-degree minus in-degree an edge contributes at v. */
  function NetAt(v: Point, e: Edge): int {
    (if e.a == v then 1 else 0) - (if e.b == v then 1 else 0)
  }

  /** NetAt at one vertex, as a functional. */
  function Net(v: Point): Edge -> int {
    e => NetAt(v, e)
  }

  /** Whether the horizontal ray from p meets the edge: the test in ringContainsPoint, whose
      two points are the edge's end r[i] = b and its start r[j] = a. */
  predicate Crosses(p: Point, e: Edge) {
    (e.b.y > p.y) != (e.a.y > p.y) &&
    p.x as real < ((e.a.x - e.b.x) * (p.y - e.b.y)) as real / (e.a.y - e.b.y) as real + e.b.x as real
  }

  /** A crossing counted with its direction, upward positive. */
  function Winding(p: Point, e: Edge): int {
    if !Crosses(p, e) then 0 else if e.b.y > p.y then 1 else -1
  }

  /** Winding around one point, as a functional. */
  function Windings(p: Point): Edge -> int {
    e => Winding(p, e)
  }

  /** The crossing test does not depend on the direction of the edge. */
  lemma {:induction false} CrossesRev(p: Point, e: Edge)
    ensures Crosses(p, Rev(e)) == Crosses(p, e)
  {
    var dy := (e.a.y - e.b.y) as real;
    if dy != 0.0 {
      var u := ((e.a.x - e.b.x) * (p.y - e.b.y)) as real;
      var v := ((e.b.x - e.a.x) * (p.y - e.a.y)) as real;
      assert (e.b.y - e.a.y) as real == -dy;
      assert u + v == ((e.a.x - e.b.x) * (e.a.y - e.b.y)) as real by {
        assert (e.a.x - e.b.x) * (p.y - e.b.y) + (e.b.x - e.a.x) * (p.y - e.a.y)
            == (e.a.x - e.b.x) * (e.a.y - e.b.y);
      }
      var dx := (e.a.x - e.b.x) as real;
      assert u + v == dx * dy by { ProductAsReal(e.a.x - e.b.x, e.a.y - e.b.y); }
      QuotientSum(u, v, dx, dy);
      assert u / dy + e.b.x as real == v / -dy + e.a.x as real;
    }
  }

  lemma {:induction false} ProductAsReal(a: int, b: int)
    ensures (a * b) as real == a as real * b as real
  {
  }

  lemma {:induction false} QuotientSum(u: real, v: real, dx: real, d: real)
    requires d != 0.0 && u + v == dx * d
    ensures u / d == v / -d + dx
  {
    var q, w := u / d, v / -d;
    assert q * d == u && w * d == -v;
    assert (q - w) * d == dx * d;
    CancelFactor(q - w, dx, d);
  }

  lemma {:induction false} CancelFactor(a: real, b: real, d: real)
    requires d != 0.0 && a * d == b * d
    ensures a == b
  {
    assert (a - b) * d == 0.0;
  }

  lemma {:induction false} Antisymmetries(v: Point)
    ensures Antisymmetric(Cross)
    ensures Antisymmetric(Net(v))
    ensures Antisymmetric(Windings(v))
  {
    forall e ensures Winding(v, Rev(e)) == -Winding(v, e) {
      CrossesRev(v, e);
    }
  }

  // ----- Rings as closed walks -----

  /** At every vertex a walk leaves once more than it enters exactly at its first point, and the
      reverse at its last. */
  lemma {:induction false} WalkNet(r: Ring, v: Point)
    requires r != []
    ensures Sum(Net(v), RingEdges(r)) == NetAt(v, Edge(r[0], r[|r| - 1]))
  {
    if |r| >= 2 {
      WalkNet(r[1..], v);
    }
  }

  lemma {:induction false} AllClosedNet(rings: seq<Ring>, v: Point)
    requires forall r :: r in rings ==> Closed(r)
    ensures Sum(Net(v), AllEdges(rings)) == 0
  {
    if rings != [] {
      assert Closed(rings[0]);
      if rings[0] != [] {
        WalkNet(rings[0], v);
      }
      SumConcat(Net(v), RingEdges(rings[0]), AllEdges(rings[1..]));
      AllClosedNet(rings[1..], v);
    }
  }

  lemma {:induction false} RingEdgesAppend(r: Ring, p: Point)
    requires r != []
    ensures RingEdges(r + [p]) == RingEdges(r) + (if r[|r| - 1] == p then [] else [Edge(r[|r| - 1], p)])
  {
    if |r| > 1 {
      assert (r + [p])[1..] == r[1..] + [p];
      RingEdgesAppend(r[1..], p);
    } else {
      assert (r + [p])[1..] == [p];
    }
  }

  lemma {:induction false} AllEdgesAppend(rings: seq<Ring>, r: Ring)
    ensures AllEdges(rings + [r]) == AllEdges(rings) + RingEdges(r)
  {
    if rings == [] {
      assert AllEdges([r]) == RingEdges(r) + AllEdges([]);
    } else {
      assert (rings + [r])[1..] == rings[1..] + [r];
      AllEdgesAppend(rings[1..], r);
    }
  }

  lemma {:induction false} RingEdgesProper(r: Ring)
    ensures forall e :: e in RingEdges(r) ==> e.a != e.b
  {
    if |r| >= 2 {
      RingEdgesProper(r[1..]);
    }
  }

  lemma {:induction false} AllEdgesProper(rings: seq<Ring>)
    ensures forall e :: e in AllEdges(rings) ==> e.a != e.b
  {
    if rings != [] {
      RingEdgesProper(rings[0]);
      AllEdgesProper(rings[1..]);
    }
  }

  // ----- The shoelace sum and the winding of a ring -----

  /** Twice the signed area enclosed by a ring. */
  function Shoelace(r: Ring): int {
    if |r| < 2 then 0 else Cross(Edge(r[0], r[1])) + Shoelace(r[1..])
  }

  method ShoelaceSum(r: Ring) returns (sum: int)
    ensures sum == Shoelace(r) == Sum(Cross, RingEdges(r))
  {
    sum := 0;
    var i := 0;
    while i + 1 < |r|
      invariant 0 <= i
      invariant i <= |r| && (|r| > 0 ==> i < |r|)
      invariant sum + Shoelace(r[i..]) == Shoelace(r)
    {
      var a, b := r[i], r[i + 1];
      assert r[i..][1..] == r[i + 1..];
      sum := sum + (a.x * b.y - b.x * a.y);
      i := i + 1;
    }
    ShoelaceOfEdges(r);
  }

  /** The shoelace sum is the edges' total; edges of zero length add nothing. */
  lemma {:induction false} ShoelaceOfEdges(r: Ring)
    ensures Shoelace(r) == Sum(Cross, RingEdges(r))
  {
    if |r| >= 2 {
      ShoelaceOfEdges(r[1..]);
    }
  }

  predicate IsClockwise(r: Ring) {
    Shoelace(r) < 0
  }

  function Reversed(r: Ring): (s: Ring)
    ensures |s| == |r|
  {
    if r == [] then [] else Reversed(r[1..]) + [r[0]]
  }

  lemma {:induction false} ReversedAt(r: Ring, k: nat)
    requires k < |r|
    ensures Reversed(r)[k] == r[|r| - 1 - k]
  {
    if k < |r| - 1 {
      ReversedAt(r[1..], k);
    }
  }

  /** s has the points of r from the last to the first. */
  predicate Backwards(r: Ring, s: Ring) {
    |s| == |r| && forall k :: 0 <= k < |r| ==> s[k] == r[|r| - 1 - k]
  }

  lemma {:induction false} ReversedBackwards(r: Ring)
    ensures Backwards(r, Reversed(r))
  {
    hide Reversed;
    forall k | 0 <= k < |r| ensures Reversed(r)[k] == r[|r| - 1 - k] {
      ReversedAt(r, k);
    }
  }

  method ReverseRing(r: Ring) returns (s: Ring)
    ensures s == Reversed(r)
  {
    var out := new Point[|r|](_ => Point(0, 0));
    for i := 0 to |r|
      invariant forall k :: |r| - i <= k < |r| ==> out[k] == r[|r| - 1 - k]
    {
      out[|r| - 1 - i] := r[i];
    }
    s := out[..];
    forall k | 0 <= k < |r| ensures s[k] == Reversed(r)[k] {
      ReversedAt(r, k);
    }
  }

  /** Reversal visits the same borders in the other direction. */
  lemma {:induction false} ReversedEdges(f: Edge -> int, r: Ring)
    requires Antisymmetric(f)
    ensures Sum(f, RingEdges(Reversed(r))) == -Sum(f, RingEdges(r))
  {
    if |r| >= 2 {
      ReversedEdges(f, r[1..]);
      var back := Reversed(r[1..]);
      ReversedAt(r[1..], |r| - 2);
      assert back[|back| - 1] == r[1];
      RingEdgesAppend(back, r[0]);
      if r[0] == r[1] {
        assert RingEdges(back) + [] == RingEdges(back);
      } else {
        var e := Edge(r[0], r[1]);
        SumConcat(f, RingEdges(back), [Rev(e)]);
        SumConcat(f, [e], RingEdges(r[1..]));
        assert Sum(f, [Rev(e)]) == f(Rev(e)) == -f(e);
        assert Sum(f, [e]) == f(e);
      }
    }
  }

  lemma {:induction false} ReversedKeepsClosed(r: Ring)
    requires Closed(r)
    ensures Closed(Reversed(r))
  {
    if r != [] {
      ReversedAt(r, 0);
      ReversedAt(r, |r| - 1);
    }
  }

  function Oriented(r: Ring, clockwise: bool): Ring {
    if IsClockwise(r) == clockwise then r else Reversed(r)
  }

  /** s is r itself, or r backwards if it was wound the other way. */
  predicate Turned(r: Ring, s: Ring, clockwise: bool) {
    if IsClockwise(r) == clockwise then s == r else Backwards(r, s)
  }

  lemma {:induction false} OrientedTurned(r: Ring, clockwise: bool)
    ensures Turned(r, Oriented(r, clockwise), clockwise)
  {
    hide IsClockwise, Backwards;
    ReversedBackwards(r);
  }

  /** A ring wound the requested way: OrientRing, and Normalize's treatment of one ring. */
  method OrientRing(r: Ring, clockwise: bool) returns (s: Ring)
    ensures s == Oriented(r, clockwise) && Turned(r, s, clockwise)
  {
    OrientedTurned(r, clockwise);
    var sum := ShoelaceSum(r);
    if (sum < 0) == clockwise {
      return r;
    }
    s := ReverseRing(r);
  }

  /** Orientation keeps the ring, as it is or backwards, and its absolute area and, unless the area is
      zero, achieves the requested winding. */
  lemma {:induction false} OrientedWinding(r: Ring, clockwise: bool)
    ensures Turned(r, Oriented(r, clockwise), clockwise)
    ensures Shoelace(Oriented(r, clockwise)) == Shoelace(r) || Shoelace(Oriented(r, clockwise)) == -Shoelace(r)
    ensures IsClockwise(Oriented(r, clockwise)) == clockwise <==> !(clockwise && Shoelace(r) == 0)
    ensures Closed(r) ==> Closed(Oriented(r, clockwise))
  {
    OrientedTurned(r, clockwise);
    Antisymmetries(Point(0, 0));
    ReversedEdges(Cross, r);
    ShoelaceOfEdges(r);
    ShoelaceOfEdges(Reversed(r));
    if Closed(r) {
      ReversedKeepsClosed(r);
    }
  }

  function NormalizedRings(rings: seq<Ring>, first: bool): seq<Ring> {
    if rings == [] then []
    else [Oriented(rings[0], !first)] + NormalizedRings(rings[1..], false)
  }

  function Normalized(mp: seq<Polygon>): seq<Polygon> {
    if mp == [] then []
    else [Polygon(NormalizedRings(mp[0].rings, true))] + Normalized(mp[1..])
  }

  lemma {:induction false} NormalizedRingsAppend(rings: seq<Ring>, r: Ring, first: bool)
    ensures NormalizedRings(rings + [r], first)
         == NormalizedRings(rings, first) + [Oriented(r, !(first && rings == []))]
  {
    hide Oriented;
    if rings == [] {
      assert NormalizedRings([r], first) == [Oriented(r, !first)] + NormalizedRings([], false);
    } else {
      assert (rings + [r])[1..] == rings[1..] + [r];
      NormalizedRingsAppend(rings[1..], r, false);
    }
  }

  lemma {:induction false} NormalizedAppend(mp: seq<Polygon>, poly: Polygon)
    ensures Normalized(mp + [poly]) == Normalized(mp) + [Polygon(NormalizedRings(poly.rings, true))]
  {
    hide NormalizedRings;
    if mp == [] {
      assert Normalized([poly]) == [Polygon(NormalizedRings(poly.rings, true))] + Normalized([]);
    } else {
      assert (mp + [poly])[1..] == mp[1..] + [poly];
      NormalizedAppend(mp[1..], poly);
    }
  }

  lemma {:induction false} NormalizedRingsNext(rings: seq<Ring>, i: nat)
    requires i < |rings|
    ensures NormalizedRings(rings[..i + 1], true)
         == NormalizedRings(rings[..i], true) + [Oriented(rings[i], i > 0)]
  {
    hide NormalizedRings, Oriented;
    NormalizedRingsAppend(rings[..i], rings[i], true);
    assert rings[..i + 1] == rings[..i] + [rings[i]];
  }

  lemma {:induction false} NormalizedNext(mp: seq<Polygon>, i: nat)
    requires i < |mp|
    ensures Normalized(mp[..i + 1]) == Normalized(mp[..i]) + [Polygon(NormalizedRings(mp[i].rings, true))]
  {
    hide Normalized, NormalizedRings;
    NormalizedAppend(mp[..i], mp[i]);
    assert mp[..i + 1] == mp[..i] + [mp[i]];
  }

  /** The same polygons, ring by ring: exteriors turned counterclockwise and holes clockwise. */
  predicate TurnedPolygon(p: Polygon, q: Polygon) {
    && |q.rings| == |p.rings|
    && forall i :: 0 <= i < |p.rings| ==> Turned(p.rings[i], q.rings[i], i > 0)
  }

  predicate AllTurned(mp: seq<Polygon>, out: seq<Polygon>) {
    |out| == |mp| && forall i :: 0 <= i < |mp| ==> TurnedPolygon(mp[i], out[i])
  }

  lemma {:induction false} RingsTurned(rings: seq<Ring>, first: bool)
    ensures var out := NormalizedRings(rings, first);
            |out| == |rings| && forall i :: 0 <= i < |rings| ==> Turned(rings[i], out[i], !first || i > 0)
  {
    hide Turned, Oriented;
    if rings != [] {
      RingsTurned(rings[1..], false);
      OrientedTurned(rings[0], !first);
      var out := NormalizedRings(rings, first);
      forall i | 0 <= i < |rings| ensures Turned(rings[i], out[i], !first || i > 0) {
        if i > 0 {
          assert rings[i] == rings[1..][i - 1] && out[i] == NormalizedRings(rings[1..], false)[i - 1];
        }
      }
    }
  }

  lemma {:induction false} NormalizedTurned(mp: seq<Polygon>)
    ensures AllTurned(mp, Normalized(mp))
  {
    hide TurnedPolygon, NormalizedRings;
    if mp != [] {
      NormalizedTurned(mp[1..]);
      var out := Normalized(mp);
      forall i | 0 <= i < |mp| ensures TurnedPolygon(mp[i], out[i]) {
        if i > 0 {
          assert mp[i] == mp[1..][i - 1] && out[i] == Normalized(mp[1..])[i - 1];
        } else {
          assert TurnedPolygon(mp[0], out[0]) by { PolygonTurned(mp[0]); }
        }
      }
    }
  }

  lemma {:induction false} PolygonTurned(p: Polygon)
    ensures TurnedPolygon(p, Polygon(NormalizedRings(p.rings, true)))
  {
    hide Turned, NormalizedRings;
    RingsTurned(p.rings, true);
  }

  method Normalize(mp: seq<Polygon>) returns (out: seq<Polygon>)
    ensures out == Normalized(mp) && AllTurned(mp, out)
  {
    NormalizedTurned(mp);
    hide AllTurned;
    out := [];
    for pi := 0 to |mp|
      invariant out == Normalized(mp[..pi])
    {
      hide Normalized;
      var poly := mp[pi];
      var rings: seq<Ring> := [];
      for ri := 0 to |poly.rings|
        invariant rings == NormalizedRings(poly.rings[..ri], true)
      {
        hide NormalizedRings, Oriented;
        var r := OrientRing(poly.rings[ri], ri > 0);
        NormalizedRingsNext(poly.rings, ri);
        rings := rings + [r];
      }
      assert poly.rings[..|poly.rings|] == poly.rings;
      NormalizedNext(mp, pi);
      out := out + [Polygon(rings)];
    }
    assert mp[..|mp|] == mp;
  }

  /** Every ring of every polygon, in order. */
  function RingsOf(mp: seq<Polygon>): seq<Ring> {
    if mp == [] then [] else mp[0].rings + RingsOf(mp[1..])
  }

  lemma {:induction false} RingsOfAppend(mp: seq<Polygon>, poly: Polygon)
    ensures RingsOf(mp + [poly]) == RingsOf(mp) + poly.rings
  {
    if mp == [] {
      assert RingsOf([poly]) == poly.rings + RingsOf([]);
    } else {
      assert (mp + [poly])[1..] == mp[1..] + [poly];
      RingsOfAppend(mp[1..], poly);
    }
  }
}
