/** What the area and the containment test of internal/geo/geometry.go mean in the plane: which sign the
    shoelace sum has and how large it is, and which points a triangle contains. */
module Planar {
  import opened Geometry
  import opened Dissolve
  import opened Nesting

  // ----- The shoelace sum is twice the area, positive counterclockwise -----

  function Moved(r: Ring, dx: int, dy: int): (s: Ring)
    ensures |s| == |r|
  {
    seq(|r|, i requires 0 <= i < |r| => Point(r[i].x + dx, r[i].y + dy))
  }

  /** Counterclockwise from the lower left corner. */
  function Rectangle(x: int, y: int, w: int, h: int): Ring {
    [Point(x, y), Point(x + w, y), Point(x + w, y + h), Point(x, y + h), Point(x, y)]
  }

  lemma {:induction false} ShoelaceOfFour(a: Point, b: Point, c: Point, d: Point)
    ensures Shoelace([a, b, c, d]) == Cross(Edge(a, b)) + Cross(Edge(b, c)) + Cross(Edge(c, d))
  {
    hide Cross;
    assert [a, b, c, d][1..] == [b, c, d] && [b, c, d][1..] == [c, d] && [c, d][1..] == [d];
    assert Shoelace([c, d]) == Cross(Edge(c, d)) + Shoelace([d]);
    assert Shoelace([b, c, d]) == Cross(Edge(b, c)) + Shoelace([c, d]);
  }

  lemma {:induction false} ShoelaceFirst(a: Point, b: Point, r: Ring)
    ensures Shoelace([a, b] + r) == Cross(Edge(a, b)) + Shoelace([b] + r)
  {
    hide Cross;
    assert ([a, b] + r)[1..] == [b] + r;
  }

  /** A rectangle: twice its width times its height. */
  lemma {:induction false} ShoelaceOfRectangle(x: int, y: int, w: int, h: int)
    ensures Shoelace(Rectangle(x, y, w, h)) == 2 * (w * h)
  {
    hide Shoelace;
    var a, b, c, d := Point(x, y), Point(x + w, y), Point(x + w, y + h), Point(x, y + h);
    ShoelaceFirst(a, b, [c, d, a]);
    assert [a, b] + [c, d, a] == Rectangle(x, y, w, h) && [b] + [c, d, a] == [b, c, d, a];
    ShoelaceOfFour(b, c, d, a);
    assert Cross(Edge(a, b)) == x * y - (x + w) * y == -(w * y);
    assert Cross(Edge(b, c)) == (x + w) * (y + h) - (x + w) * y == (x + w) * h;
    assert Cross(Edge(c, d)) == (x + w) * (y + h) - x * (y + h) == w * (y + h);
    assert Cross(Edge(d, a)) == x * y - x * (y + h) == -(x * h);
    assert (x + w) * h == x * h + w * h && w * (y + h) == w * y + w * h;
  }

  /** What a move changes about one edge depends on its two ends separately. */
  lemma {:induction false} CrossMoved(a: Point, b: Point, dx: int, dy: int)
    ensures Cross(Edge(Point(a.x + dx, a.y + dy), Point(b.x + dx, b.y + dy)))
            == Cross(Edge(a, b)) + (a.x * dy - dx * a.y) - (b.x * dy - dx * b.y)
  {
    assert (a.x + dx) * (b.y + dy) == a.x * b.y + a.x * dy + dx * b.y + dx * dy;
    assert (b.x + dx) * (a.y + dy) == b.x * a.y + b.x * dy + dx * a.y + dx * dy;
  }

  lemma {:induction false} WalkMoved(r: Ring, dx: int, dy: int)
    requires r != []
    ensures var a, b := r[0], r[|r| - 1];
            Shoelace(Moved(r, dx, dy)) == Shoelace(r) + (a.x * dy - dx * a.y) - (b.x * dy - dx * b.y)
  {
    hide Cross;
    if |r| >= 2 {
      WalkMoved(r[1..], dx, dy);
      CrossMoved(r[0], r[1], dx, dy);
      assert Moved(r, dx, dy)[1..] == Moved(r[1..], dx, dy);
    }
  }

  /** Moving a closed ring does not change its area. */
  lemma {:induction false} ShoelaceMoved(r: Ring, dx: int, dy: int)
    requires Closed(r)
    ensures Shoelace(Moved(r, dx, dy)) == Shoelace(r)
  {
    if r != [] {
      WalkMoved(r, dx, dy);
    }
  }

  lemma {:induction false} ShoelaceJoined(r: Ring, i: nat)
    requires i < |r|
    ensures Shoelace(r) == Shoelace(r[..i + 1]) + Shoelace(r[i..])
  {
    hide Cross;
    if i == 0 {
      assert r[..1] == [r[0]] && r[0..] == r;
    } else {
      ShoelaceJoined(r[1..], i - 1);
      assert r[1..][..i] == r[..i + 1][1..] && r[1..][i - 1..] == r[i..];
    }
  }

  /** Cutting a ring in two along a straight line from its first point divides the area among the parts. */
  lemma {:induction false} ShoelaceCut(r: Ring, i: nat)
    requires i < |r|
    ensures Shoelace(r) == Shoelace(r[..i + 1] + [r[0]]) + Shoelace([r[0]] + r[i..])
  {
    hide Shoelace;
    ShoelaceJoined(r, i);
    var first, second := r[..i + 1] + [r[0]], [r[0]] + r[i..];
    ShoelaceJoined(first, i);
    ShoelaceJoined(second, 1);
    assert first[..i + 1] == r[..i + 1] && first[i..] == [r[i], r[0]];
    assert second[..2] == [r[0], r[i]] && second[1..] == r[i..];
    ShoelaceOfTwo(r[i], r[0]);
    ShoelaceOfTwo(r[0], r[i]);
  }

  lemma {:induction false} ShoelaceOfTwo(a: Point, b: Point)
    ensures Shoelace([a, b]) == a.x * b.y - b.x * a.y
  {
    assert [a, b][1..] == [b];
  }

  /** The size by which exteriors are compared is the area, whichever way a ring is wound. */
  lemma {:induction false} SizeOfArea(r: Ring)
    ensures Size(Reversed(r)) == Size(r) && (!IsClockwise(r) ==> Size(r) == Shoelace(r))
  {
    Antisymmetries(Point(0, 0));
    ReversedEdges(Cross, r);
    ShoelaceOfEdges(r);
    ShoelaceOfEdges(Reversed(r));
  }

  // ----- The ray test -----

  /** Twice the signed area of the triangle an edge forms with p: positive for p on the left of the edge. */
  function Side(e: Edge, p: Point): int {
    (e.b.x - e.a.x) * (p.y - e.a.y) - (p.x - e.a.x) * (e.b.y - e.a.y)
  }

  lemma {:induction false} SideIsTriangle(a: Point, b: Point, p: Point)
    ensures Side(Edge(a, b), p) == Shoelace([a, b, p, a])
  {
    hide Shoelace;
    ShoelaceOfFour(a, b, p, a);
    assert (b.x - a.x) * (p.y - a.y) == b.x * p.y - b.x * a.y - a.x * p.y + a.x * a.y;
    assert (p.x - a.x) * (b.y - a.y) == p.x * b.y - p.x * a.y - a.x * b.y + a.x * a.y;
  }

  predicate Rising(e: Edge, p: Point) {
    e.a.y <= p.y < e.b.y
  }

  lemma {:induction false} QuotientLess(x: real, u: real, d: real, c: real)
    requires d != 0.0
    ensures x < u / d + c <==> if d > 0.0 then (x - c) * d < u else (x - c) * d > u
  {
    var q := u / d;
    assert q * d == u;
    if d > 0.0 {
      if x - c < q {
        assert (q - (x - c)) * d > 0.0;
      } else {
        assert ((x - c) - q) * d >= 0.0;
      }
    } else {
      if x - c < q {
        assert (q - (x - c)) * d < 0.0;
      } else {
        assert ((x - c) - q) * d <= 0.0;
      }
    }
  }

  /** The ray from p to the right meets an edge that rises past p's height exactly when p is on its left,
      one that falls past it exactly when p is on its right, and no other. */
  lemma {:induction false} CrossesIff(p: Point, e: Edge)
    ensures Crosses(p, e) <==> (Rising(e, p) && Side(e, p) > 0) || (Rising(Rev(e), p) && Side(e, p) < 0)
  {
    var d := e.a.y - e.b.y;
    if (e.b.y > p.y) != (e.a.y > p.y) {
      var u := (e.a.x - e.b.x) * (p.y - e.b.y);
      QuotientLess(p.x as real, u as real, d as real, e.b.x as real);
      ProductAsReal(p.x - e.b.x, d);
      assert (p.x as real - e.b.x as real) * d as real == ((p.x - e.b.x) * d) as real;
      SideFromEnd(e, p);
    }
  }

  lemma {:induction false} SideFromEnd(e: Edge, p: Point)
    ensures Side(e, p) == (p.x - e.b.x) * (e.a.y - e.b.y) - (e.a.x - e.b.x) * (p.y - e.b.y)
  {
    var ax, ay, px, py := e.a.x - e.b.x, e.a.y - e.b.y, p.x - e.b.x, p.y - e.b.y;
    assert Side(e, p) == (-ax) * (py - ay) - (px - ax) * (-ay);
    assert (-ax) * (py - ay) == -(ax * py) + ax * ay;
    assert (px - ax) * (-ay) == -(px * ay) + ax * ay;
  }

  // ----- Triangles -----

  function Triangle(a: Point, b: Point, c: Point): Ring {
    [a, b, c, a]
  }

  /** p is strictly on the left of all three sides. */
  predicate StrictlyWithin(a: Point, b: Point, c: Point, p: Point) {
    Side(Edge(a, b), p) > 0 && Side(Edge(b, c), p) > 0 && Side(Edge(c, a), p) > 0
  }

  /** p is strictly on the right of some side. */
  predicate StrictlyOutside(a: Point, b: Point, c: Point, p: Point) {
    Side(Edge(a, b), p) < 0 || Side(Edge(b, c), p) < 0 || Side(Edge(c, a), p) < 0
  }

  /** The three sides weigh the corners: they add up to the triangle, and balance at p's height. */
  lemma {:induction false} Barycentric(a: Point, b: Point, c: Point, p: Point)
    ensures Side(Edge(a, b), p) + Side(Edge(b, c), p) + Side(Edge(c, a), p) == Side(Edge(a, b), c)
    ensures Side(Edge(b, c), p) * (a.y - p.y) + Side(Edge(c, a), p) * (b.y - p.y) + Side(Edge(a, b), p) * (c.y - p.y)
            == 0
  {
    hide Side;
    var ax, ay := a.x - p.x, a.y - p.y;
    var bx, by' := b.x - p.x, b.y - p.y;
    var cx, cy := c.x - p.x, c.y - p.y;
    SideFromPoint(a, b, p);
    SideFromPoint(b, c, p);
    SideFromPoint(c, a, p);
    SideFromPoint(a, b, c);
    assert (a.x - c.x) * (b.y - c.y) == (ax - cx) * (by' - cy) == ax * by' - ax * cy - cx * by' + cx * cy;
    assert (b.x - c.x) * (a.y - c.y) == (bx - cx) * (ay - cy) == bx * ay - bx * cy - cx * ay + cx * cy;
    Balance(ax, ay, bx, by', cx, cy);
  }

  lemma {:induction false} SideFromPoint(a: Point, b: Point, p: Point)
    ensures Side(Edge(a, b), p) == (a.x - p.x) * (b.y - p.y) - (b.x - p.x) * (a.y - p.y)
  {
    var ax, ay := a.x - p.x, a.y - p.y;
    var bx, by' := b.x - p.x, b.y - p.y;
    assert Side(Edge(a, b), p) == (bx - ax) * (-ay) - (-ax) * (by' - ay);
    assert (bx - ax) * (-ay) == -(bx * ay) + ax * ay;
    assert (-ax) * (by' - ay) == -(ax * by') + ax * ay;
  }

  lemma {:induction false} Balance(ax: int, ay: int, bx: int, by': int, cx: int, cy: int)
    ensures (bx * cy - cx * by') * ay + (cx * ay - ax * cy) * by' + (ax * by' - bx * ay) * cy == 0
  {
    assert (bx * cy - cx * by') * ay == bx * (cy * ay) - cx * (by' * ay);
    assert (cx * ay - ax * cy) * by' == cx * (by' * ay) - ax * (cy * by');
    assert (ax * by' - bx * ay) * cy == ax * (cy * by') - bx * (cy * ay);
  }

  lemma {:induction false} InsideOfTriangle(a: Point, b: Point, c: Point, p: Point)
    ensures Inside(Triangle(a, b, c), p) <==>
              (Crosses(p, Edge(a, b)) != (Crosses(p, Edge(b, c)) != Crosses(p, Edge(c, a))))
  {
    hide Crosses;
    var r := Triangle(a, b, c);
    LevelNotCrossed(p, a);
    assert EdgeInto(r, 0) == Edge(a, a) && EdgeInto(r, 1) == Edge(a, b);
    assert EdgeInto(r, 2) == Edge(b, c) && EdgeInto(r, 3) == Edge(c, a);
    assert CrossingsInto(r, p, 2) == CrossingsInto(r, p, 1) + if Crosses(p, Edge(a, b)) then 1 else 0;
    assert CrossingsInto(r, p, 3) == CrossingsInto(r, p, 2) + if Crosses(p, Edge(b, c)) then 1 else 0;
    assert CrossingsInto(r, p, 4) == CrossingsInto(r, p, 3) + if Crosses(p, Edge(c, a)) then 1 else 0;
  }

  lemma {:induction false} SignOfProduct(m: int, n: int)
    ensures m > 0 && n > 0 ==> m * n > 0
    ensures m > 0 && n <= 0 ==> m * n <= 0
    ensures m < 0 && n > 0 ==> m * n < 0
    ensures m >= 0 && n > 0 ==> m * n >= 0
    ensures m <= 0 && n > 0 ==> m * n <= 0
    ensures m <= 0 && n <= 0 ==> m * n >= 0
    ensures m >= 0 && n <= 0 ==> m * n <= 0
    ensures m > 0 && n < 0 ==> m * n < 0
  {
  }

  /** Weights u, v, w at heights a, b, c, of which the first is alone on its side of zero. */
  lemma {:induction false} AloneBelow(u: int, v: int, w: int, a: int, b: int, c: int)
    requires u * a + v * b + w * c == 0 && u + v + w > 0
    requires a <= 0 && b > 0 && c > 0
    ensures (w > 0) != (v < 0) ==> u >= 0 && v >= 0 && w >= 0
    ensures u > 0 && v > 0 && w > 0 ==> (w > 0) != (v < 0)
  {
    SignOfProduct(u, a);
    SignOfProduct(v, b);
    SignOfProduct(w, c);
  }

  lemma {:induction false} AloneAbove(u: int, v: int, w: int, a: int, b: int, c: int)
    requires u * a + v * b + w * c == 0 && u + v + w > 0
    requires a > 0 && b <= 0 && c <= 0
    ensures (w < 0) != (v > 0) ==> u >= 0 && v >= 0 && w >= 0
    ensures u > 0 && v > 0 && w > 0 ==> (w < 0) != (v > 0)
  {
    SignOfProduct(u, a);
    SignOfProduct(v, b);
    SignOfProduct(w, c);
  }

  lemma {:induction false} NoneAlone(u: int, v: int, w: int, a: int, b: int, c: int)
    requires u * a + v * b + w * c == 0 && u > 0 && v > 0 && w > 0
    requires (a > 0 && b > 0 && c > 0) || (a <= 0 && b <= 0 && c <= 0)
    ensures a == b == c == 0
  {
    SignOfProduct(u, a);
    SignOfProduct(v, b);
    SignOfProduct(w, c);
  }

  /** The corner a is alone on its side of p's height. */
  lemma {:induction false} AloneCorner(a: Point, b: Point, c: Point, p: Point)
    requires Side(Edge(a, b), c) > 0
    requires (a.y <= p.y && b.y > p.y && c.y > p.y) || (a.y > p.y && b.y <= p.y && c.y <= p.y)
    ensures StrictlyWithin(a, b, c, p) ==> Inside(Triangle(a, b, c), p)
    ensures StrictlyOutside(a, b, c, p) ==> !Inside(Triangle(a, b, c), p)
  {
    hide Inside, Triangle, Crosses, Side;
    InsideOfTriangle(a, b, c, p);
    CrossesIff(p, Edge(a, b));
    CrossesIff(p, Edge(b, c));
    CrossesIff(p, Edge(c, a));
    Barycentric(a, b, c, p);
    var u, v, w := Side(Edge(b, c), p), Side(Edge(c, a), p), Side(Edge(a, b), p);
    if a.y <= p.y {
      AloneBelow(u, v, w, a.y - p.y, b.y - p.y, c.y - p.y);
    } else {
      AloneAbove(u, v, w, a.y - p.y, b.y - p.y, c.y - p.y);
    }
  }

  /** All three corners are on the same side of p's height. */
  lemma {:induction false} NoCorner(a: Point, b: Point, c: Point, p: Point)
    requires Side(Edge(a, b), c) > 0
    requires (a.y > p.y && b.y > p.y && c.y > p.y) || (a.y <= p.y && b.y <= p.y && c.y <= p.y)
    ensures !StrictlyWithin(a, b, c, p) && !Inside(Triangle(a, b, c), p)
  {
    hide Inside, Triangle, Crosses, Side;
    InsideOfTriangle(a, b, c, p);
    CrossesIff(p, Edge(a, b));
    CrossesIff(p, Edge(b, c));
    CrossesIff(p, Edge(c, a));
    Barycentric(a, b, c, p);
    if StrictlyWithin(a, b, c, p) {
      NoneAlone(Side(Edge(b, c), p), Side(Edge(c, a), p), Side(Edge(a, b), p), a.y - p.y, b.y - p.y, c.y - p.y);
      FlatTriangle(a, b, c);
    }
  }

  lemma {:induction false} FlatTriangle(a: Point, b: Point, c: Point)
    requires a.y == b.y == c.y
    ensures Side(Edge(a, b), c) == 0
  {
  }

  /** The test may start at any corner. */
  lemma {:induction false} TurnTriangle(a: Point, b: Point, c: Point, p: Point)
    ensures Inside(Triangle(b, c, a), p) == Inside(Triangle(a, b, c), p)
    ensures Side(Edge(b, c), a) == Side(Edge(a, b), c)
  {
    hide Inside, Triangle, Crosses;
    InsideOfTriangle(a, b, c, p);
    InsideOfTriangle(b, c, a, p);
    SideFromPoint(b, c, a);
    Barycentric(a, b, c, a);
  }

  /** A counterclockwise triangle contains what is strictly within it and nothing that is strictly outside. */
  lemma {:induction false} InsideTriangle(a: Point, b: Point, c: Point, p: Point)
    requires Side(Edge(a, b), c) > 0
    ensures StrictlyWithin(a, b, c, p) ==> Inside(Triangle(a, b, c), p)
    ensures StrictlyOutside(a, b, c, p) ==> !Inside(Triangle(a, b, c), p)
  {
    hide Inside, Triangle, Side;
    TurnTriangle(a, b, c, p);
    TurnTriangle(b, c, a, p);
    if (a.y > p.y) == (b.y > p.y) == (c.y > p.y) {
      NoCorner(a, b, c, p);
    } else if (b.y > p.y) == (c.y > p.y) {
      AloneCorner(a, b, c, p);
    } else if (c.y > p.y) == (a.y > p.y) {
      AloneCorner(b, c, a, p);
    } else {
      AloneCorner(c, a, b, p);
    }
  }

  // ----- Cutting a ring in two -----

  lemma {:induction false} RingEdgesJoined(r: Ring, i: nat)
    requires i < |r|
    ensures RingEdges(r) == RingEdges(r[..i + 1]) + RingEdges(r[i..])
  {
    if i == 0 {
      assert r[..1] == [r[0]] && r[0..] == r;
    } else {
      RingEdgesJoined(r[1..], i - 1);
      assert r[1..][..i] == r[..i + 1][1..] && r[1..][i - 1..] == r[i..];
    }
  }

  lemma {:induction false} CrossingsJoined(r: Ring, i: nat, p: Point)
    requires i < |r|
    ensures Crossings(p, RingEdges(r)) == Crossings(p, RingEdges(r[..i + 1])) + Crossings(p, RingEdges(r[i..]))
  {
    hide Crossings, RingEdges;
    RingEdgesJoined(r, i);
    CrossingsAppend(p, RingEdges(r[..i + 1]), RingEdges(r[i..]));
  }

  lemma {:induction false} CrossingsOfTwo(a: Point, b: Point, p: Point)
    ensures Crossings(p, RingEdges([a, b])) == if Crosses(p, Edge(a, b)) then 1 else 0
  {
    hide Crosses;
    LevelNotCrossed(p, a);
    assert [a, b][1..] == [b];
    OneCrossing(p, Edge(a, b));
  }

  /** What a ring contains is what exactly one of its two parts contains: the cut is crossed by both or by
      neither. With InsideTriangle this settles the test for every ring. */
  lemma {:induction false} InsideCut(r: Ring, i: nat, p: Point)
    requires i < |r| && Closed(r)
    ensures Inside(r, p) == (Inside(r[..i + 1] + [r[0]], p) != Inside([r[0]] + r[i..], p))
  {
    hide Inside, Crossings, RingEdges, Crosses, Odd;
    var first, second := r[..i + 1] + [r[0]], [r[0]] + r[i..];
    InsideClosed(r, p);
    InsideClosed(first, p);
    InsideClosed(second, p);
    CrossingsJoined(r, i, p);
    CrossingsJoined(first, i, p);
    CrossingsJoined(second, 1, p);
    assert first[..i + 1] == r[..i + 1] && first[i..] == [r[i], r[0]];
    assert second[..2] == [r[0], r[i]] && second[1..] == r[i..];
    CrossingsOfTwo(r[i], r[0], p);
    CrossingsOfTwo(r[0], r[i], p);
    CrossesRev(p, Edge(r[0], r[i]));
    OddCut(Crossings(p, RingEdges(r[..i + 1])), Crossings(p, RingEdges(r[i..])),
           Crossings(p, RingEdges([r[0], r[i]])));
  }

  lemma {:induction false} OddCut(m: nat, n: nat, c: nat)
    ensures Odd(m + n) == (Odd(m + c) != Odd(c + n))
  {
    OddSum(m, n);
    OddSum(m, c);
    OddSum(c, n);
  }

  // ----- Rings that are not closed -----

  lemma {:induction false} CrossingsUnclosed(r: Ring, p: Point, n: nat)
    requires 0 < n <= |r|
    ensures CrossingsInto(r + [r[0]], p, n) + (if Crosses(p, EdgeInto(r, 0)) then 1 else 0) == CrossingsInto(r, p, n)
  {
    hide Crosses;
    var s := r + [r[0]];
    if n == 1 {
      LevelNotCrossed(p, r[0]);
      assert EdgeInto(s, 0) == Edge(r[0], r[0]);
      assert CrossingsInto(r, p, 1) == CrossingsInto(r, p, 0) + if Crosses(p, EdgeInto(r, 0)) then 1 else 0;
      assert CrossingsInto(s, p, 1) == CrossingsInto(s, p, 0) + if Crosses(p, EdgeInto(s, 0)) then 1 else 0;
    } else {
      CrossingsUnclosed(r, p, n - 1);
      assert EdgeInto(s, n - 1) == EdgeInto(r, n - 1);
    }
  }

  /** A ring whose last point is not its first is taken as if it were closed. */
  lemma {:induction false} InsideUnclosed(r: Ring, p: Point)
    requires r != []
    ensures Inside(r + [r[0]], p) == Inside(r, p)
  {
    hide Crosses;
    var s := r + [r[0]];
    CrossingsUnclosed(r, p, |r|);
    assert EdgeInto(s, |r|) == EdgeInto(r, 0);
    assert CrossingsInto(s, p, |s|) == CrossingsInto(s, p, |r|) + if Crosses(p, EdgeInto(s, |r|)) then 1 else 0;
  }
}
