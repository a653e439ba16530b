/** Visvalingam-Whyatt simplification (internal/minigen/simplify/visvalingam.go): a linked list in an
    array and a queue of areas that leaves outdated entries behind, against the plain method that
    looks for the smallest triangle afresh each time. */
module Visvalingam {

  datatype Point = Point(x: real, y: real)

  function Abs(x: real): real {
    if x < 0.0 then -x else x
  }

  function TriangleArea(a: Point, b: Point, c: Point): real {
    Abs((b.x - a.x) * (c.y - a.y) - (c.x - a.x) * (b.y - a.y)) / 2.0
  }

  // ----- The plain method -----

  /** What is left of a line or ring: the indices of the kept points, in order. */
  type Order = seq<nat>

  function MinKeep(closed: bool): nat {
    if closed then 3 else 2
  }

  /** The neighbours of position k; -1 beyond the ends of a line. */
  function Prev(s: Order, k: nat, closed: bool): int
    requires k < |s|
  {
    if k > 0 then s[k - 1] else if closed then s[|s| - 1] else -1
  }

  function Next(s: Order, k: nat, closed: bool): int
    requires k < |s|
  {
    if k < |s| - 1 then s[k + 1] else if closed then s[0] else -1
  }

  predicate Removable(s: Order, k: nat, closed: bool)
    requires k < |s|
  {
    Prev(s, k, closed) >= 0 && Next(s, k, closed) >= 0
  }

  predicate Within(s: Order, n: nat) {
    forall k :: 0 <= k < |s| ==> s[k] < n
  }

  function AreaAt(points: seq<Point>, s: Order, k: nat, closed: bool): real
    requires Within(s, |points|) && k < |s| && Removable(s, k, closed)
  {
    TriangleArea(points[Prev(s, k, closed)], points[s[k]], points[Next(s, k, closed)])
  }

  function Drop(s: Order, k: nat): Order
    requires k < |s|
  {
    s[..k] + s[k + 1..]
  }

  /** Position k may go: no removable point has a smaller triangle, and this one is within the
      tolerance. */
  ghost predicate Smallest(points: seq<Point>, s: Order, k: nat, closed: bool, tolerance: real)
    requires Within(s, |points|)
  {
    && k < |s| && Removable(s, k, closed)
    && AreaAt(points, s, k, closed) <= tolerance
    && forall j :: 0 <= j < |s| && Removable(s, j, closed) ==>
      AreaAt(points, s, k, closed) <= AreaAt(points, s, j, closed)
  }

  /** One step: rescan and remove a smallest triangle's vertex. */
  ghost predicate Step(points: seq<Point>, s: Order, t: Order, closed: bool, tolerance: real)
    requires Within(s, |points|)
  {
    |s| > MinKeep(closed) && exists k :: Smallest(points, s, k, closed, tolerance) && t == Drop(s, k)
  }

  /** No further step: the minimum is reached, or every removable triangle exceeds the tolerance. */
  ghost predicate Finished(points: seq<Point>, s: Order, closed: bool, tolerance: real)
    requires Within(s, |points|)
  {
    |s| <= MinKeep(closed) || forall j :: 0 <= j < |s| && Removable(s, j, closed) ==>
      AreaAt(points, s, j, closed) > tolerance
  }

  function Everything(n: nat): (s: Order)
    ensures |s| == n && Within(s, n)
  {
    seq(n, i requires 0 <= i < n => i)
  }

  /** A run of the plain method from all points. */
  ghost predicate Run(points: seq<Point>, trace: seq<Order>, closed: bool, tolerance: real) {
    && |trace| > 0 && trace[0] == Everything(|points|)
    && (forall i :: 0 <= i < |trace| ==> Within(trace[i], |points|))
    && forall i :: 0 < i < |trace| ==> Step(points, trace[i - 1], trace[i], closed, tolerance)
  }

  function Pick(points: seq<Point>, s: Order): (out: seq<Point>)
    requires Within(s, |points|)
    ensures |out| == |s|
  {
    seq(|s|, i requires 0 <= i < |s| => points[s[i]])
  }

  ghost predicate Increasing(s: Order) {
    forall j, k :: 0 <= j < k < |s| ==> s[j] < s[k]
  }

  /** Order, the minimum and the ends of a line. */
  ghost predicate Keeps(s: Order, n: nat, closed: bool) {
    && Increasing(s) && |s| >= MinKeep(closed)
    && (!closed ==> s[0] == 0 && s[|s| - 1] == n - 1)
  }

  lemma {:induction false} StepKeeps(points: seq<Point>, s: Order, t: Order, closed: bool, tolerance: real)
    requires Within(s, |points|) && Keeps(s, |points|, closed) && Step(points, s, t, closed, tolerance)
    ensures Keeps(t, |points|, closed) && |t| == |s| - 1
  {
    hide AreaAt;
    var k :| Smallest(points, s, k, closed, tolerance) && t == Drop(s, k);
  }

  /** Every run keeps the points in order, at least the minimum of them, and both ends of a line. */
  lemma {:induction false} RunKeeps(points: seq<Point>, trace: seq<Order>, closed: bool, tolerance: real)
    requires Run(points, trace, closed, tolerance) && |points| >= MinKeep(closed)
    ensures Keeps(trace[|trace| - 1], |points|, closed) && |trace[|trace| - 1]| + |trace| == |points| + 1
  {
    if |trace| > 1 {
      hide Keeps, Step, Everything;
      var m := |trace| - 1;
      assert forall i :: 0 <= i < m ==> trace[..m][i] == trace[i];
      RunKeeps(points, trace[..m], closed, tolerance);
      StepKeeps(points, trace[m - 1], trace[m], closed, tolerance);
    }
  }

  // ----- What the plain method does to the outline -----

  /** The area of a triangle, as everyone measures it: never negative, whatever the order of the corners,
      not changed by moving or shearing the triangle, and half the base times the height. */
  lemma {:induction false} TriangleAreaMeans(a: Point, b: Point, c: Point, dx: real, dy: real, m: real)
    ensures TriangleArea(a, b, c) >= 0.0
    ensures TriangleArea(a, b, c) == TriangleArea(b, c, a) == TriangleArea(b, a, c)
    ensures TriangleArea(Point(a.x + dx, a.y + dy), Point(b.x + dx, b.y + dy), Point(c.x + dx, c.y + dy))
            == TriangleArea(a, b, c)
    ensures TriangleArea(Point(a.x + m * a.y, a.y), Point(b.x + m * b.y, b.y), Point(c.x + m * c.y, c.y))
            == TriangleArea(a, b, c)
    ensures dx >= 0.0 && dy >= 0.0 ==>
              TriangleArea(Point(0.0, 0.0), Point(dx, 0.0), Point(m, dy)) == dx * dy / 2.0
  {
    hide TriangleArea, Abs;
    AreaIsHalf(a, b, c);
    AreaIsHalf(b, c, a);
    AreaIsHalf(b, a, c);
    AreaMoved(a, b, c, dx, dy);
    AreaSheared(a, b, c, m);
    AreaIsHalf(Point(0.0, 0.0), Point(dx, 0.0), Point(m, dy));
    AbsSign(Doubled(a, b, c));
    BaseTimesHeight(dx, dy, m);
  }

  lemma {:induction false} BaseTimesHeight(w: real, h: real, x: real)
    ensures Doubled(Point(0.0, 0.0), Point(w, 0.0), Point(x, h)) == w * h
    ensures w >= 0.0 && h >= 0.0 ==> Abs(w * h) == w * h
  {
    if w >= 0.0 && h >= 0.0 {
      assert w * h >= 0.0;
    }
  }

  lemma {:induction false} AbsSign(x: real)
    ensures Abs(x) >= 0.0 && Abs(-x) == Abs(x)
  {
  }

  /** Twice the signed area, summed along the three sides. */
  function Doubled(a: Point, b: Point, c: Point): real {
    (a.x * b.y - b.x * a.y) + (b.x * c.y - c.x * b.y) + (c.x * a.y - a.x * c.y)
  }

  lemma {:induction false} AreaIsHalf(a: Point, b: Point, c: Point)
    ensures TriangleArea(a, b, c) == Abs(Doubled(a, b, c)) / 2.0
    ensures Doubled(b, c, a) == Doubled(a, b, c) && Doubled(b, a, c) == -Doubled(a, b, c)
  {
    assert (b.x - a.x) * (c.y - a.y) == b.x * c.y - b.x * a.y - a.x * c.y + a.x * a.y;
    assert (c.x - a.x) * (b.y - a.y) == c.x * b.y - c.x * a.y - a.x * b.y + a.x * a.y;
  }

  function Determinant(u: real, v: real, x: real, y: real): real {
    u * y - x * v
  }

  /** The area by the two sides from a: (u, v) to b and (x, y) to c. */
  lemma {:induction false} AreaBySides(a: Point, b: Point, c: Point, u: real, v: real, x: real, y: real)
    requires u == b.x - a.x && v == b.y - a.y && x == c.x - a.x && y == c.y - a.y
    ensures TriangleArea(a, b, c) == Abs(Determinant(u, v, x, y)) / 2.0
  {
    assert (b.x - a.x) * (c.y - a.y) - (c.x - a.x) * (b.y - a.y) == u * y - x * v;
  }

  lemma {:induction false} AreaMoved(a: Point, b: Point, c: Point, dx: real, dy: real)
    ensures TriangleArea(Point(a.x + dx, a.y + dy), Point(b.x + dx, b.y + dy), Point(c.x + dx, c.y + dy))
            == TriangleArea(a, b, c)
  {
    hide TriangleArea, Abs, Determinant;
    var u, v, x, y := b.x - a.x, b.y - a.y, c.x - a.x, c.y - a.y;
    AreaBySides(a, b, c, u, v, x, y);
    AreaBySides(Point(a.x + dx, a.y + dy), Point(b.x + dx, b.y + dy), Point(c.x + dx, c.y + dy), u, v, x, y);
  }

  lemma {:induction false} AreaSheared(a: Point, b: Point, c: Point, m: real)
    ensures TriangleArea(Point(a.x + m * a.y, a.y), Point(b.x + m * b.y, b.y), Point(c.x + m * c.y, c.y))
            == TriangleArea(a, b, c)
  {
    hide TriangleArea, Abs, Determinant;
    var u, v, x, y := b.x - a.x, b.y - a.y, c.x - a.x, c.y - a.y;
    AreaBySides(a, b, c, u, v, x, y);
    ShearedSide(a, b, m);
    ShearedSide(a, c, m);
    AreaBySides(Point(a.x + m * a.y, a.y), Point(b.x + m * b.y, b.y), Point(c.x + m * c.y, c.y),
                u + m * v, v, x + m * y, y);
    ShearCancels(u, v, x, y, m);
  }

  lemma {:induction false} ShearedSide(a: Point, b: Point, m: real)
    ensures (b.x + m * b.y) - (a.x + m * a.y) == (b.x - a.x) + m * (b.y - a.y)
  {
  }

  lemma {:induction false} ShearCancels(u: real, v: real, x: real, y: real, m: real)
    ensures Determinant(u + m * v, v, x + m * y, y) == Determinant(u, v, x, y)
  {
    assert (u + m * v) * y == u * y + m * (v * y);
    assert (x + m * y) * v == x * v + m * (v * y);
  }

  /** A point that may go: any of a ring, the inner ones of a line. */
  predicate Corner(n: nat, k: nat, closed: bool) {
    if closed then k < n else 0 < k < n - 1
  }

  /** The area a corner forms with the points next to it. */
  function CornerArea(q: seq<Point>, k: nat, closed: bool): real
    requires Corner(|q|, k, closed)
  {
    var n := |q|;
    Abs(Doubled(q[if k > 0 then k - 1 else n - 1], q[k], q[if k < n - 1 then k + 1 else 0])) / 2.0
  }

  ghost predicate LeastCorner(q: seq<Point>, k: nat, closed: bool, tolerance: real) {
    && Corner(|q|, k, closed) && CornerArea(q, k, closed) <= tolerance
    && forall j: nat :: Corner(|q|, j, closed) ==> CornerArea(q, k, closed) <= CornerArea(q, j, closed)
  }

  /** From one outline to the next a corner goes: one of the least, and within the tolerance. */
  ghost predicate CornerGoes(q: seq<Point>, r: seq<Point>, closed: bool, tolerance: real) {
    && |q| > (if closed then 3 else 2)
    && exists k: nat :: LeastCorner(q, k, closed, tolerance) && r == q[..k] + q[k + 1..]
  }

  /** Three points of a ring or two of a line are left, or every corner left exceeds the tolerance. */
  ghost predicate Simple(q: seq<Point>, closed: bool, tolerance: real) {
    || |q| <= (if closed then 3 else 2)
    || forall k: nat :: Corner(|q|, k, closed) ==> CornerArea(q, k, closed) > tolerance
  }

  lemma {:induction false} CornerAt(points: seq<Point>, s: Order, k: nat, closed: bool)
    requires Within(s, |points|) && k < |s| && |s| > 1
    ensures Removable(s, k, closed) <==> Corner(|s|, k, closed)
    ensures Removable(s, k, closed) ==> AreaAt(points, s, k, closed) == CornerArea(Pick(points, s), k, closed)
  {
    hide TriangleArea, Abs, Doubled;
    if Removable(s, k, closed) {
      AreaIsHalf(points[Prev(s, k, closed)], points[s[k]], points[Next(s, k, closed)]);
    }
  }

  /** Each step of a run takes a least corner from the outline ... */
  lemma {:induction false} StepOutline(points: seq<Point>, s: Order, t: Order, closed: bool, tolerance: real)
    requires Within(s, |points|) && Within(t, |points|) && Step(points, s, t, closed, tolerance)
    ensures CornerGoes(Pick(points, s), Pick(points, t), closed, tolerance)
  {
    hide AreaAt, CornerArea, Removable, Corner;
    var k: nat :| Smallest(points, s, k, closed, tolerance) && t == Drop(s, k);
    var q := Pick(points, s);
    CornerAt(points, s, k, closed);
    forall j: nat | Corner(|q|, j, closed) ensures CornerArea(q, k, closed) <= CornerArea(q, j, closed) {
      assert j < |q| by { CornerWithin(|q|, j, closed); }
      CornerAt(points, s, j, closed);
    }
    assert Pick(points, t) == q[..k] + q[k + 1..];
    assert LeastCorner(q, k, closed, tolerance);
  }

  lemma {:induction false} CornerWithin(n: nat, k: nat, closed: bool)
    requires Corner(n, k, closed)
    ensures k < n
  {
  }

  /** ... and where it is finished the outline is simple. */
  lemma {:induction false} FinishedOutline(points: seq<Point>, s: Order, closed: bool, tolerance: real)
    requires Within(s, |points|) && Finished(points, s, closed, tolerance)
    ensures Simple(Pick(points, s), closed, tolerance)
  {
    hide AreaAt, CornerArea, Removable, Corner;
    var q := Pick(points, s);
    if |s| > MinKeep(closed) {
      forall k: nat | Corner(|q|, k, closed) ensures CornerArea(q, k, closed) > tolerance {
        assert k < |q| by { CornerWithin(|q|, k, closed); }
        CornerAt(points, s, k, closed);
      }
    }
  }

  function Outlines(points: seq<Point>, trace: seq<Order>): (qs: seq<seq<Point>>)
    requires forall i :: 0 <= i < |trace| ==> Within(trace[i], |points|)
    ensures |qs| == |trace|
  {
    seq(|trace|, i requires 0 <= i < |trace| => Pick(points, trace[i]))
  }

  /** From all the points, one corner after another, to an outline that is simple. */
  ghost predicate Simplifies(points: seq<Point>, qs: seq<seq<Point>>, out: seq<Point>, closed: bool, tolerance: real) {
    && |qs| > 0 && qs[0] == points && qs[|qs| - 1] == out
    && (forall i :: 0 < i < |qs| ==> CornerGoes(qs[i - 1], qs[i], closed, tolerance))
    && Simple(out, closed, tolerance)
  }

  lemma {:induction false} RunOutlines(points: seq<Point>, trace: seq<Order>, closed: bool, tolerance: real)
    requires Run(points, trace, closed, tolerance) && Finished(points, trace[|trace| - 1], closed, tolerance)
    ensures Simplifies(points, Outlines(points, trace), Pick(points, trace[|trace| - 1]), closed, tolerance)
  {
    hide Step, Finished, CornerGoes, Simple;
    var qs := Outlines(points, trace);
    forall i | 0 < i < |qs| ensures CornerGoes(qs[i - 1], qs[i], closed, tolerance) {
      StepOutline(points, trace[i - 1], trace[i], closed, tolerance);
    }
    FinishedOutline(points, trace[|trace| - 1], closed, tolerance);
    assert Pick(points, Everything(|points|)) == points;
  }

  // ----- Removing a node from a linked list -----

  /** Dropping position k redirects exactly its two neighbours. */
  lemma {:induction false} DropLinks(s: Order, k: nat, closed: bool, j: nat)
    requires k < |s| && j < |s| && j != k && Increasing(s)
    ensures var t, i := Drop(s, k), if j < k then j else j - 1;
            && i < |t| && t[i] == s[j]
            && Prev(t, i, closed) == (if Prev(s, j, closed) == s[k] then Prev(s, k, closed) else Prev(s, j, closed))
            && Next(t, i, closed) == (if Next(s, j, closed) == s[k] then Next(s, k, closed) else Next(s, j, closed))
  {
  }

  /** Neighbours are mutual. */
  lemma {:induction false} Mutual(s: Order, k: nat, closed: bool, j: nat)
    requires k < |s| && j < |s| && Increasing(s)
    ensures Prev(s, j, closed) == s[k] <==> Next(s, k, closed) == s[j]
  {
  }

  lemma {:induction false} DropIncreasing(s: Order, k: nat)
    requires k < |s| && Increasing(s)
    ensures Increasing(Drop(s, k)) && s[k] !in Drop(s, k)
    ensures forall x :: x in Drop(s, k) <==> x in s && x != s[k]
  {
    forall x | x in s && x != s[k] ensures x in Drop(s, k) {
      var j :| 0 <= j < |s| && s[j] == x;
      assert Drop(s, k)[if j < k then j else j - 1] == x;
    }
  }

  // ----- The linked list and its queue -----

  datatype Node = Node(p: Point, prev: int, next: int, alive: bool, area: real, version: nat)

  /** A queue entry names the area and the version a node had when it was pushed. */
  datatype Item = Item(idx: nat, area: real, version: nat)

  /** One node of a linked list. */
  ghost predicate LinkedAt(ns: seq<Node>, s: Order, k: nat, closed: bool) {
    && k < |s| && s[k] < |ns|
    && ns[s[k]].alive && ns[s[k]].prev == Prev(s, k, closed) && ns[s[k]].next == Next(s, k, closed)
  }

  /** The nodes form the doubly linked list of the kept points. */
  ghost predicate Linked(points: seq<Point>, ns: seq<Node>, s: Order, closed: bool) {
    && |ns| == |points| && Within(s, |ns|) && Increasing(s)
    && (forall i :: 0 <= i < |ns| ==> ns[i].p == points[i])
    && (forall i {:trigger i in s} :: 0 <= i < |ns| ==> (ns[i].alive <==> i in s))
    && (forall k :: 0 <= k < |s| ==> LinkedAt(ns, s, k, closed))
    && (!closed ==> |s| >= 2 && s[0] == 0 && s[|s| - 1] == |ns| - 1)
  }

  /** A node that can ever be removed. */
  predicate Interior(i: int, n: nat, closed: bool) {
    closed || 0 < i < n - 1
  }

  /** The entry that is up to date for a node. */
  function Current(ns: seq<Node>, i: nat): Item
    requires i < |ns|
  {
    Item(i, ns[i].area, ns[i].version)
  }

  /** Every removable kept node has exactly one up-to-date entry; every other entry is recognisably
      outdated. */
  ghost predicate Queued(ns: seq<Node>, closed: bool, pq: multiset<Item>) {
    && (forall x :: x in pq ==> x.idx < |ns| && Interior(x.idx, |ns|, closed) && x.version <= ns[x.idx].version)
    && (forall x :: x in pq && ns[x.idx].alive && x.version == ns[x.idx].version ==> x == Current(ns, x.idx))
    && (forall i :: 0 <= i < |ns| && ns[i].alive && Interior(i, |ns|, closed) ==> pq[Current(ns, i)] == 1)
  }

  /** The stored areas are those of the current list, except at nodes still to be refreshed. */
  ghost predicate Fresh(points: seq<Point>, ns: seq<Node>, s: Order, closed: bool, pending: set<int>)
    requires |ns| == |points| && Within(s, |ns|)
  {
    forall k :: 0 <= k < |s| && Removable(s, k, closed) && s[k] !in pending ==>
      ns[s[k]].area == AreaAt(points, s, k, closed)
  }

  lemma {:induction false} RemovableIsInterior(points: seq<Point>, ns: seq<Node>, s: Order, closed: bool, k: nat)
    requires Linked(points, ns, s, closed) && k < |s|
    ensures ns[s[k]].alive && (Removable(s, k, closed) <==> Interior(s[k], |ns|, closed))
  {
    assert LinkedAt(ns, s, k, closed);
  }

  /** The queue's minimum, if it is up to date, is a vertex the plain method may remove. */
  lemma {:induction false} MinimumIsSmallest(points: seq<Point>, ns: seq<Node>, s: Order, closed: bool,
                                             pq: multiset<Item>, x: Item)
    returns (k: nat)
    requires Linked(points, ns, s, closed) && Queued(ns, closed, pq) && Fresh(points, ns, s, closed, {})
    requires x in pq && (forall y :: y in pq ==> x.area <= y.area)
    requires ns[x.idx].alive && x.version == ns[x.idx].version
    ensures k < |s| && s[k] == x.idx && Removable(s, k, closed) && AreaAt(points, s, k, closed) == x.area
    ensures forall j :: 0 <= j < |s| && Removable(s, j, closed) ==> x.area <= AreaAt(points, s, j, closed)
  {
    hide AreaAt, Removable;
    assert x.idx in s;
    hide LinkedAt;
    k :| 0 <= k < |s| && s[k] == x.idx;
    RemovableIsInterior(points, ns, s, closed, k);
    forall j | 0 <= j < |s| && Removable(s, j, closed) ensures x.area <= AreaAt(points, s, j, closed) {
      RemovableIsInterior(points, ns, s, closed, j);
      assert Current(ns, s[j]) in pq;
    }
  }

  /** With an empty queue nothing is removable. */
  lemma {:induction false} EmptyQueueFinishes(points: seq<Point>, ns: seq<Node>, s: Order, closed: bool,
                                              pq: multiset<Item>, tolerance: real)
    requires Linked(points, ns, s, closed) && Queued(ns, closed, pq) && |pq| == 0
    ensures Finished(points, s, closed, tolerance)
  {
    assert pq == multiset{};
    forall j | 0 <= j < |s| ensures !Removable(s, j, closed) {
      RemovableIsInterior(points, ns, s, closed, j);
      assert Interior(s[j], |ns|, closed) ==> pq[Current(ns, s[j])] == 1;
    }
  }

  /** Node x once node i has been taken out of the list. */
  function WithoutNode(ns: seq<Node>, i: nat, x: nat): Node
    requires i < |ns| && x < |ns|
  {
    ns[x].(alive := ns[x].alive && x != i,
           prev := if x == ns[i].next then ns[i].prev else ns[x].prev,
           next := if x == ns[i].prev then ns[i].next else ns[x].next)
  }

  ghost predicate Unlinked(ns: seq<Node>, i: nat, ms: seq<Node>)
    requires i < |ns|
  {
    |ms| == |ns| && forall x :: 0 <= x < |ns| ==> ms[x] == WithoutNode(ns, i, x)
  }

  /** A step of the run: which position goes, and the nodes before and after. */
  ghost predicate Removing(points: seq<Point>, ns: seq<Node>, s: Order, closed: bool, k: nat, ms: seq<Node>) {
    && Linked(points, ns, s, closed) && k < |s| && Removable(s, k, closed) && |s| > MinKeep(closed)
    && Unlinked(ns, s[k], ms)
  }

  /** The links stored at one node once node i = s[k] has gone. */
  lemma {:induction false} UnlinkedLink(s: Order, closed: bool, k: nat, j: nat, ns: seq<Node>, m: Node)
    requires Within(s, |ns|) && Increasing(s) && k < |s| && j < |s| && j != k
    requires ns[s[j]].prev == Prev(s, j, closed) && ns[s[j]].next == Next(s, j, closed)
    requires ns[s[k]].prev == Prev(s, k, closed) && ns[s[k]].next == Next(s, k, closed)
    requires m == WithoutNode(ns, s[k], s[j])
    ensures var t, i := Drop(s, k), if j < k then j else j - 1;
            && i < |t| && t[i] == s[j]
            && m.prev == Prev(t, i, closed) && m.next == Next(t, i, closed)
  {
    DropLinks(s, k, closed, j);
    Mutual(s, k, closed, j);
    Mutual(s, j, closed, k);
    hide Drop, Prev, Next;
  }

  lemma {:induction false} UnlinkedAlive(points: seq<Point>, ns: seq<Node>, s: Order, closed: bool, k: nat,
                                         ms: seq<Node>)
    requires Removing(points, ns, s, closed, k, ms)
    ensures forall x :: 0 <= x < |ns| ==> ms[x].p == points[x]
    ensures forall x {:trigger x in Drop(s, k)} :: 0 <= x < |ns| ==> (ms[x].alive <==> x in Drop(s, k))
  {
    hide Prev, Next, Removable;
    DropIncreasing(s, k);
    hide Drop;
    forall x | 0 <= x < |ns| ensures ms[x].p == points[x] && (ms[x].alive <==> x in Drop(s, k)) {
      assert ms[x] == WithoutNode(ns, s[k], x);
      assert ns[x].alive <==> x in s;
    }
  }

  lemma {:induction false} UnlinkedLinkedAt(points: seq<Point>, ns: seq<Node>, s: Order, closed: bool, k: nat,
                                            ms: seq<Node>, i: nat)
    requires Removing(points, ns, s, closed, k, ms) && i < |Drop(s, k)|
    ensures LinkedAt(ms, Drop(s, k), i, closed)
  {
    var j := if i < k then i else i + 1;
    assert |Drop(s, k)| == |s| - 1;
    hide Drop, Prev, Next, WithoutNode;
    assert LinkedAt(ns, s, j, closed) && LinkedAt(ns, s, k, closed);
    assert ms[s[j]] == WithoutNode(ns, s[k], s[j]);
    UnlinkedLink(s, closed, k, j, ns, ms[s[j]]);
    NodeAlive(ns, s, k, j);
  }

  lemma {:induction false} NodeAlive(ns: seq<Node>, s: Order, k: nat, j: nat)
    requires Within(s, |ns|) && Increasing(s) && k < |s| && j < |s| && j != k && ns[s[j]].alive
    ensures WithoutNode(ns, s[k], s[j]).alive
  {
  }

  lemma {:induction false} UnlinkedEnds(points: seq<Point>, ns: seq<Node>, s: Order, closed: bool, k: nat,
                                        ms: seq<Node>)
    requires Removing(points, ns, s, closed, k, ms)
    ensures |ms| == |points| && Increasing(Drop(s, k))
    ensures var t := Drop(s, k); !closed ==> |t| >= 2 && t[0] == 0 && t[|t| - 1] == |ms| - 1
  {
    DropIncreasing(s, k);
    RemovableInside(s, k, closed);
    hide WithoutNode, Prev, Next;
  }

  /** The redirected nodes are linked as the shortened order. */
  lemma {:induction false} UnlinkedLinks(points: seq<Point>, ns: seq<Node>, s: Order, closed: bool, k: nat,
                                         ms: seq<Node>)
    requires Removing(points, ns, s, closed, k, ms)
    ensures Linked(points, ms, Drop(s, k), closed)
  {
    UnlinkedEnds(points, ns, s, closed, k, ms);
    UnlinkedAlive(points, ns, s, closed, k, ms);
    DropWithin(s, k, |ns|);
    hide Drop, Prev, Next, LinkedAt, WithoutNode;
    forall i | 0 <= i < |Drop(s, k)| ensures LinkedAt(ms, Drop(s, k), i, closed) {
      UnlinkedLinkedAt(points, ns, s, closed, k, ms, i);
    }
  }

  lemma {:induction false} RemovableInside(s: Order, k: nat, closed: bool)
    requires k < |s| && Removable(s, k, closed)
    ensures !closed ==> 0 < k < |s| - 1
  {
  }

  /** Away from the gap the triangles stay as they were. */
  lemma {:induction false} DropKeepsArea(points: seq<Point>, s: Order, closed: bool, k: nat, j: nat)
    requires Within(s, |points|) && Increasing(s) && k < |s| && j < |s| && j != k
    requires s[j] !in {Prev(s, k, closed), Next(s, k, closed)}
    ensures var t, i := Drop(s, k), if j < k then j else j - 1;
            && i < |t| && Within(t, |points|) && t[i] == s[j]
            && (Removable(t, i, closed) <==> Removable(s, j, closed))
            && (Removable(t, i, closed) ==> AreaAt(points, t, i, closed) == AreaAt(points, s, j, closed))
  {
    DropLinks(s, k, closed, j);
    Mutual(s, k, closed, j);
    Mutual(s, j, closed, k);
    DropWithin(s, k, |points|);
    hide Drop, Prev, Next, TriangleArea;
  }

  lemma {:induction false} DropWithin(s: Order, k: nat, n: nat)
    requires Within(s, n) && k < |s|
    ensures Within(Drop(s, k), n)
  {
  }

  /** Taking a node out leaves every other entry in place. */
  lemma {:induction false} UnlinkedQueue(points: seq<Point>, ns: seq<Node>, s: Order, closed: bool, k: nat,
                                         ms: seq<Node>, pq: multiset<Item>)
    requires Removing(points, ns, s, closed, k, ms) && Queued(ns, closed, pq)
    ensures Queued(ms, closed, pq - multiset{Current(ns, s[k])})
  {
    hide Prev, Next, Removable;
    forall x: nat | x < |ns|
      ensures ms[x].alive == (ns[x].alive && x != s[k]) && ms[x].version == ns[x].version
              && Current(ms, x) == Current(ns, x)
    {
      assert ms[x] == WithoutNode(ns, s[k], x);
    }
  }

  /** And every other area, except its neighbours'. */
  lemma {:induction false} UnlinkedFresh(points: seq<Point>, ns: seq<Node>, s: Order, closed: bool, k: nat,
                                         ms: seq<Node>)
    requires Removing(points, ns, s, closed, k, ms) && Fresh(points, ns, s, closed, {})
    ensures Within(Drop(s, k), |ns|)
    ensures Fresh(points, ms, Drop(s, k), closed, {Prev(s, k, closed), Next(s, k, closed)})
  {
    hide Prev, Next, AreaAt, Removable;
    var t := Drop(s, k);
    DropWithin(s, k, |ns|);
    forall i | 0 <= i < |t| && Removable(t, i, closed) && t[i] !in {Prev(s, k, closed), Next(s, k, closed)}
      ensures ms[t[i]].area == AreaAt(points, t, i, closed)
    {
      var j := if i < k then i else i + 1;
      assert t[i] == s[j];
      DropKeepsArea(points, s, closed, k, j);
      assert ms[s[j]] == WithoutNode(ns, s[k], s[j]);
    }
  }

  /** The nodes after node i's area has been computed afresh. */
  function Refreshed(ns: seq<Node>, i: nat, area: real): (ms: seq<Node>)
    requires i < |ns|
    ensures |ms| == |ns|
  {
    ns[i := ns[i].(area := area, version := ns[i].version + 1)]
  }

  lemma {:induction false} RefreshedLinks(points: seq<Point>, ns: seq<Node>, s: Order, closed: bool, i: nat, area: real)
    requires Linked(points, ns, s, closed) && i < |ns|
    ensures Linked(points, Refreshed(ns, i, area), s, closed)
  {
    var ms := Refreshed(ns, i, area);
    hide Prev, Next;
    forall k | 0 <= k < |s| ensures LinkedAt(ms, s, k, closed) {
      assert LinkedAt(ns, s, k, closed);
    }
  }

  /** The new entry is the node's only up-to-date one: its version is larger than any before. */
  lemma {:induction false} RefreshedQueue(ns: seq<Node>, closed: bool, pq: multiset<Item>, i: nat, area: real)
    requires Queued(ns, closed, pq) && i < |ns| && Interior(i, |ns|, closed)
    ensures var ms := Refreshed(ns, i, area); Queued(ms, closed, pq + multiset{Current(ms, i)})
  {
    var ms := Refreshed(ns, i, area);
    var rest := pq + multiset{Current(ms, i)};
    assert Current(ms, i) !in pq;
    forall x: nat | x < |ns| && x != i ensures Current(ms, x) == Current(ns, x) && Current(ms, x) != Current(ms, i) {
    }
    forall x | x in rest ensures x in pq || x == Current(ms, i) {
    }
  }

  lemma {:induction false} RefreshedFresh(points: seq<Point>, ns: seq<Node>, s: Order, closed: bool, pending: set<int>,
                                          i: nat, area: real)
    requires Linked(points, ns, s, closed) && Fresh(points, ns, s, closed, pending) && i < |ns|
    requires forall k :: 0 <= k < |s| && s[k] == i && Removable(s, k, closed) ==> area == AreaAt(points, s, k, closed)
    ensures Fresh(points, Refreshed(ns, i, area), s, closed, pending - {i})
  {
    hide AreaAt, Removable;
  }

  /** Computes a neighbour's area again and queues it, if it can be removed at all. */
  method Refresh(nodes: array<Node>, pq: multiset<Item>, i: int,
                 ghost points: seq<Point>, ghost s: Order, ghost closed: bool, ghost pending: set<int>)
    returns (pq': multiset<Item>)
    requires -1 <= i < nodes.Length
    requires Linked(points, nodes[..], s, closed) && Queued(nodes[..], closed, pq)
    requires Fresh(points, nodes[..], s, closed, pending)
    modifies nodes
    ensures Linked(points, nodes[..], s, closed) && Queued(nodes[..], closed, pq')
    ensures Fresh(points, nodes[..], s, closed, pending - {i})
    ensures |pq'| <= |pq| + 1
  {
    ghost var ns := nodes[..];
    if i < 0 || !nodes[i].alive || nodes[i].prev < 0 || nodes[i].next < 0 {
      NotRemovable(points, ns, s, closed, pending, i);
      return pq;
    }
    ghost var k := PositionOf(points, ns, s, closed, i);
    var n := nodes[i];
    AreaOfNode(points, ns, s, closed, k);
    var area := TriangleArea(nodes[n.prev].p, n.p, nodes[n.next].p);
    RemovableIsInterior(points, ns, s, closed, k);
    RefreshedLinks(points, ns, s, closed, i, area);
    RefreshedQueue(ns, closed, pq, i, area);
    RefreshedFresh(points, ns, s, closed, pending, i, area);
    nodes[i] := n.(area := area, version := n.version + 1);
    assert nodes[..] == Refreshed(ns, i, area);
    pq' := pq + multiset{Item(i, area, n.version + 1)};
  }

  lemma {:induction false} NotRemovable(points: seq<Point>, ns: seq<Node>, s: Order, closed: bool, pending: set<int>,
                                        i: int)
    requires Linked(points, ns, s, closed) && Fresh(points, ns, s, closed, pending)
    requires -1 <= i < |ns| && (i < 0 || !ns[i].alive || ns[i].prev < 0 || ns[i].next < 0)
    ensures Fresh(points, ns, s, closed, pending - {i})
  {
    hide AreaAt;
    forall k | 0 <= k < |s| ensures s[k] == i ==> !Removable(s, k, closed) {
      assert LinkedAt(ns, s, k, closed);
    }
  }

  lemma {:induction false} PositionOf(points: seq<Point>, ns: seq<Node>, s: Order, closed: bool, i: nat)
    returns (k: nat)
    requires Linked(points, ns, s, closed) && i < |ns| && ns[i].alive && ns[i].prev >= 0 && ns[i].next >= 0
    ensures k < |s| && s[k] == i && Removable(s, k, closed)
    ensures forall j :: 0 <= j < |s| && s[j] == i ==> j == k
  {
    assert i in s;
    k :| 0 <= k < |s| && s[k] == i;
    assert LinkedAt(ns, s, k, closed);
  }

  lemma {:induction false} AreaOfNode(points: seq<Point>, ns: seq<Node>, s: Order, closed: bool, k: nat)
    requires Linked(points, ns, s, closed) && k < |s| && Removable(s, k, closed)
    ensures var n := ns[s[k]];
            && 0 <= n.prev < |ns| && 0 <= n.next < |ns|
            && AreaAt(points, s, k, closed) == TriangleArea(ns[n.prev].p, n.p, ns[n.next].p)
  {
    hide TriangleArea;
    assert LinkedAt(ns, s, k, closed);
  }

  // ----- Simplifying -----

  lemma {:induction false} LeastOf(pq: multiset<Item>) returns (least: Item)
    requires |pq| > 0
    ensures least in pq && forall y :: y in pq ==> least.area <= y.area
  {
    var x :| x in pq;
    var rest := pq - multiset{x};
    assert forall y :: y in pq ==> y == x || y in rest;
    least := x;
    if |rest| > 0 {
      var other := LeastOf(rest);
      if other.area < x.area {
        least := other;
      }
    }
  }

  /** heap.Pop: any entry of least area. */
  method PopLeast(pq: multiset<Item>) returns (x: Item, rest: multiset<Item>)
    requires |pq| > 0
    ensures x in pq && rest == pq - multiset{x} && |rest| == |pq| - 1
    ensures forall y :: y in pq ==> x.area <= y.area
  {
    ghost var least := LeastOf(pq);
    x :| x in pq && forall y :: y in pq ==> x.area <= y.area;
    rest := pq - multiset{x};
  }

  /** Outdated entries may go. */
  lemma {:induction false} OutdatedDropped(ns: seq<Node>, closed: bool, pq: multiset<Item>, x: Item)
    requires Queued(ns, closed, pq) && x in pq
    requires !ns[x.idx].alive || x.version != ns[x.idx].version
    ensures Queued(ns, closed, pq - multiset{x})
  {
  }

  /** Takes node i out of the list. */
  method Unlink(nodes: array<Node>, i: nat)
    requires i < nodes.Length && -1 <= nodes[i].prev < nodes.Length && -1 <= nodes[i].next < nodes.Length
    modifies nodes
    ensures Unlinked(old(nodes[..]), i, nodes[..])
  {
    var removed := nodes[i];
    nodes[i] := nodes[i].(alive := false);
    if removed.prev >= 0 {
      nodes[removed.prev] := nodes[removed.prev].(next := removed.next);
    }
    if removed.next >= 0 {
      nodes[removed.next] := nodes[removed.next].(prev := removed.prev);
    }
  }

  /** The invariant of the simplification loop. */
  ghost predicate Simplifying(points: seq<Point>, ns: seq<Node>, s: Order, closed: bool, pq: multiset<Item>) {
    && Linked(points, ns, s, closed) && Queued(ns, closed, pq)
    && Fresh(points, ns, s, closed, {})
  }

  /** Removes the vertex whose current entry has just been popped, and refreshes its neighbours. */
  method RemoveVertex(nodes: array<Node>, left: multiset<Item>, i: nat, ghost k: nat,
                      ghost points: seq<Point>, ghost s: Order, ghost closed: bool, ghost pq: multiset<Item>)
    returns (pq': multiset<Item>)
    requires Simplifying(points, nodes[..], s, closed, pq)
    requires i < nodes.Length && k < |s| && s[k] == i && Removable(s, k, closed) && |s| > MinKeep(closed)
    requires left == pq - multiset{Current(nodes[..], i)}
    modifies nodes
    ensures Simplifying(points, nodes[..], Drop(s, k), closed, pq')
    ensures |pq'| <= |left| + 2
  {
    ghost var ns, t := nodes[..], Drop(s, k);
    var removed := nodes[i];
    NeighboursInside(points, ns, s, closed, k);
    Unlink(nodes, i);
    ghost var ms := nodes[..];
    assert Removing(points, ns, s, closed, k, ms);
    UnlinkedLinks(points, ns, s, closed, k, ms);
    UnlinkedQueue(points, ns, s, closed, k, ms, pq);
    UnlinkedFresh(points, ns, s, closed, k, ms);
    hide Linked, Queued, Fresh, Drop;
    ghost var both: set<int> := {removed.prev, removed.next};
    var once := Refresh(nodes, left, removed.prev, points, t, closed, both);
    pq' := Refresh(nodes, once, removed.next, points, t, closed, both - {removed.prev});
    assert both - {removed.prev} - {removed.next} == {};
  }

  lemma {:induction false} NeighboursInside(points: seq<Point>, ns: seq<Node>, s: Order, closed: bool, k: nat)
    requires Linked(points, ns, s, closed) && k < |s|
    ensures -1 <= ns[s[k]].prev < |ns| && -1 <= ns[s[k]].next < |ns|
    ensures ns[s[k]].prev == Prev(s, k, closed) && ns[s[k]].next == Next(s, k, closed)
  {
    assert LinkedAt(ns, s, k, closed);
  }

  // ----- Setting up -----

  /** The list of all points, before any area is known. */
  ghost predicate Initial(points: seq<Point>, ns: seq<Node>, closed: bool) {
    && Linked(points, ns, Everything(|points|), closed)
    && forall i :: 0 <= i < |ns| ==> ns[i].alive && ns[i].version == 0
  }

  method LinkAll(points: seq<Point>, closed: bool) returns (nodes: array<Node>)
    requires |points| > MinKeep(closed)
    ensures fresh(nodes) && Initial(points, nodes[..], closed)
  {
    var n := |points|;
    nodes := new Node[n](i requires 0 <= i < n => Node(points[i], i - 1, i + 1, true, 0.0, 0));
    if closed {
      nodes[0] := nodes[0].(prev := n - 1);
      nodes[n - 1] := nodes[n - 1].(next := 0);
    } else {
      nodes[0] := nodes[0].(prev := -1);
      nodes[n - 1] := nodes[n - 1].(next := -1);
    }
    ghost var s, ns := Everything(n), nodes[..];
    forall k | 0 <= k < |s| ensures LinkedAt(ns, s, k, closed) {
    }
    forall i | 0 <= i < |ns| ensures i in s {
      assert s[i] == i;
    }
  }

  /** The first m nodes have their entries ... */
  ghost predicate Entered(ns: seq<Node>, closed: bool, pq: multiset<Item>, m: nat)
    requires m <= |ns|
  {
    && (forall x :: x in pq ==> x.idx < m && Interior(x.idx, |ns|, closed) && x == Current(ns, x.idx))
    && (forall i :: 0 <= i < m && Interior(i, |ns|, closed) ==> pq[Current(ns, i)] == 1)
  }

  /** ... and their areas. */
  ghost predicate Measured(points: seq<Point>, ns: seq<Node>, closed: bool, m: nat)
    requires m <= |ns| == |points|
  {
    forall i :: 0 <= i < m && Removable(Everything(|ns|), i, closed) ==>
      ns[i].area == AreaAt(points, Everything(|ns|), i, closed)
  }

  ghost predicate Filled(points: seq<Point>, ns: seq<Node>, closed: bool, pq: multiset<Item>, m: nat)
    requires m <= |ns| == |points|
  {
    Entered(ns, closed, pq, m) && Measured(points, ns, closed, m)
  }

  function WithArea(ns: seq<Node>, m: nat, area: real): (ms: seq<Node>)
    requires m < |ns|
    ensures |ms| == |ns|
  {
    ns[m := ns[m].(area := area)]
  }

  lemma {:induction false} InitialWithArea(points: seq<Point>, ns: seq<Node>, closed: bool, m: nat, area: real)
    requires Initial(points, ns, closed) && m < |ns|
    ensures Initial(points, WithArea(ns, m, area), closed)
  {
    hide Prev, Next;
    var s, ms := Everything(|ns|), WithArea(ns, m, area);
    forall k | 0 <= k < |s| ensures LinkedAt(ms, s, k, closed) {
      assert LinkedAt(ns, s, k, closed);
    }
  }

  lemma {:induction false} FilledSkip(points: seq<Point>, ns: seq<Node>, closed: bool, pq: multiset<Item>, m: nat)
    requires Initial(points, ns, closed) && m < |ns| && Filled(points, ns, closed, pq, m)
    requires !Removable(Everything(|ns|), m, closed)
    ensures Filled(points, ns, closed, pq, m + 1)
  {
    RemovableIsInterior(points, ns, Everything(|ns|), closed, m);
    hide AreaAt, Removable, Linked;
  }

  lemma {:induction false} EnteredAdd(ns: seq<Node>, closed: bool, pq: multiset<Item>, m: nat, area: real)
    requires m < |ns| && Entered(ns, closed, pq, m) && Interior(m, |ns|, closed) && ns[m].version == 0
    ensures Entered(WithArea(ns, m, area), closed, pq + multiset{Item(m, area, 0)}, m + 1)
  {
    var ms, x := WithArea(ns, m, area), Item(m, area, 0);
    forall i: nat | i < m ensures Current(ms, i) == Current(ns, i) && Current(ns, i) != x {
    }
    assert Current(ms, m) == x && x !in pq;
    forall y | y in pq + multiset{x} ensures y in pq || y == x {
    }
  }

  lemma {:induction false} FilledAdd(points: seq<Point>, ns: seq<Node>, closed: bool, pq: multiset<Item>, m: nat,
                                     area: real)
    requires Initial(points, ns, closed) && m < |ns| && Filled(points, ns, closed, pq, m)
    requires Removable(Everything(|ns|), m, closed) && area == AreaAt(points, Everything(|ns|), m, closed)
    ensures Filled(points, WithArea(ns, m, area), closed, pq + multiset{Item(m, area, 0)}, m + 1)
  {
    RemovableIsInterior(points, ns, Everything(|ns|), closed, m);
    hide AreaAt, Removable, Linked, Entered;
    EnteredAdd(ns, closed, pq, m, area);
  }

  method FillQueue(nodes: array<Node>, points: seq<Point>, closed: bool) returns (pq: multiset<Item>)
    requires nodes.Length == |points| && Initial(points, nodes[..], closed)
    modifies nodes
    ensures Simplifying(points, nodes[..], Everything(|points|), closed, pq)
  {
    pq := multiset{};
    for i := 0 to nodes.Length
      invariant Initial(points, nodes[..], closed) && Filled(points, nodes[..], closed, pq, i)
    {
      ghost var ns, s := nodes[..], Everything(|points|);
      var n := nodes[i];
      NodeRemovable(points, ns, closed, i);
      if n.prev < 0 || n.next < 0 {
        FilledSkip(points, ns, closed, pq, i);
      } else {
        AreaOfNode(points, ns, s, closed, i);
        var area := TriangleArea(nodes[n.prev].p, n.p, nodes[n.next].p);
        InitialWithArea(points, ns, closed, i, area);
        FilledAdd(points, ns, closed, pq, i, area);
        nodes[i] := n.(area := area);
        assert nodes[..] == WithArea(ns, i, area);
        pq := pq + multiset{Item(i, area, 0)};
      }
    }
    FilledAll(points, nodes[..], closed, pq);
  }

  lemma {:induction false} NodeRemovable(points: seq<Point>, ns: seq<Node>, closed: bool, i: nat)
    requires Initial(points, ns, closed) && i < |ns|
    ensures ns[i].prev >= 0 && ns[i].next >= 0 <==> Removable(Everything(|ns|), i, closed)
  {
    assert LinkedAt(ns, Everything(|ns|), i, closed);
  }

  lemma {:induction false} FilledAll(points: seq<Point>, ns: seq<Node>, closed: bool, pq: multiset<Item>)
    requires Initial(points, ns, closed) && Filled(points, ns, closed, pq, |ns|)
    ensures Simplifying(points, ns, Everything(|ns|), closed, pq)
  {
    hide AreaAt, Removable;
  }

  // ----- Reading the list off -----

  /** The kept points, following the list from the first of them. */
  method Collect(nodes: array<Node>, closed: bool, ghost points: seq<Point>, ghost s: Order) returns (out: seq<Point>)
    requires Linked(points, nodes[..], s, closed) && |s| > 0
    ensures out == Pick(points, s)
  {
    ghost var ns := nodes[..];
    var start := 0;
    assert LinkedAt(ns, s, 0, closed);
    while !nodes[start].alive
      invariant start <= s[0]
      decreases s[0] - start
    {
      start := start + 1;
    }
    assert start in s;
    out := [];
    var i := start;
    ghost var k: nat := 0;
    while true
      invariant k < |s| && i == s[k] && out == Pick(points, s)[..k]
      decreases |s| - k
    {
      assert LinkedAt(ns, s, k, closed);
      out := out + [nodes[i].p];
      var next := nodes[i].next;
      if next == (if closed then start else -1) {
        LastAt(s, k, closed);
        return;
      }
      i := next;
      k := k + 1;
    }
  }

  lemma {:induction false} LastAt(s: Order, k: nat, closed: bool)
    requires Increasing(s) && k < |s|
    ensures Next(s, k, closed) == (if closed then s[0] else -1) <==> k == |s| - 1
  {
  }

  // ----- The whole algorithm -----

  lemma {:induction false} StepTaken(points: seq<Point>, trace: seq<Order>, k: nat, closed: bool, tolerance: real)
    requires Run(points, trace, closed, tolerance)
    requires var s := trace[|trace| - 1]; |s| > MinKeep(closed) && Smallest(points, s, k, closed, tolerance)
    ensures Run(points, trace + [Drop(trace[|trace| - 1], k)], closed, tolerance)
  {
    var s := trace[|trace| - 1];
    DropWithin(s, k, |points|);
    hide Smallest, Everything;
    assert Step(points, s, Drop(s, k), closed, tolerance);
  }

  /** The algorithm's state stands for the end of a run of the plain method. */
  ghost predicate Mirrors(points: seq<Point>, ns: seq<Node>, closed: bool, tolerance: real,
                          pq: multiset<Item>, alive: nat, trace: seq<Order>)
  {
    && Run(points, trace, closed, tolerance)
    && alive == |trace[|trace| - 1]| > 0
    && Simplifying(points, ns, trace[|trace| - 1], closed, pq)
  }

  /** Pops one entry: an outdated one is skipped, one above the tolerance ends the run, any other
      removes its vertex. */
  method PopOne(nodes: array<Node>, pq: multiset<Item>, alive: nat, closed: bool, tolerance: real,
                ghost points: seq<Point>, ghost trace: seq<Order>)
    returns (pq': multiset<Item>, alive': nat, done: bool, ghost trace': seq<Order>)
    requires |pq| > 0 && alive > MinKeep(closed)
    requires Mirrors(points, nodes[..], closed, tolerance, pq, alive, trace)
    modifies nodes
    ensures done ==> trace' == trace && alive' == alive && nodes[..] == old(nodes[..])
    ensures done ==> Finished(points, trace[|trace| - 1], closed, tolerance)
    ensures !done ==> Mirrors(points, nodes[..], closed, tolerance, pq', alive', trace')
    ensures !done ==> 2 * alive' + |pq'| < 2 * alive + |pq|
  {
    ghost var s := trace[|trace| - 1];
    var x, left := PopLeast(pq);
    if !nodes[x.idx].alive || x.version != nodes[x.idx].version {
      OutdatedDropped(nodes[..], closed, pq, x);
      return left, alive, false, trace;
    }
    ghost var k := MinimumIsSmallest(points, nodes[..], s, closed, pq, x);
    if x.area > tolerance {
      return left, alive, true, trace;
    }
    StepTaken(points, trace, k, closed, tolerance);
    pq' := RemoveVertex(nodes, left, x.idx, k, points, s, closed, pq);
    return pq', alive - 1, false, trace + [Drop(s, k)];
  }

  /** The list stands for the last order of a run. */
  ghost predicate Reached(points: seq<Point>, ns: seq<Node>, closed: bool, tolerance: real, trace: seq<Order>) {
    && Run(points, trace, closed, tolerance)
    && |trace[|trace| - 1]| > 0 && Linked(points, ns, trace[|trace| - 1], closed)
  }

  /** Moreover the run is finished. */
  ghost predicate Ended(points: seq<Point>, ns: seq<Node>, closed: bool, tolerance: real, trace: seq<Order>) {
    Reached(points, ns, closed, tolerance, trace) && Finished(points, trace[|trace| - 1], closed, tolerance)
  }

  lemma {:induction false} EndedMeans(points: seq<Point>, ns: seq<Node>, closed: bool, tolerance: real,
                                      trace: seq<Order>)
    requires Ended(points, ns, closed, tolerance, trace)
    ensures Reached(points, ns, closed, tolerance, trace) && |trace| > 0 && Within(trace[|trace| - 1], |points|)
    ensures Finished(points, trace[|trace| - 1], closed, tolerance)
  {
    hide Linked;
  }

  lemma {:induction false} ReachedEnds(points: seq<Point>, ns: seq<Node>, closed: bool, tolerance: real,
                                       trace: seq<Order>)
    requires Reached(points, ns, closed, tolerance, trace)
    requires |trace| > 0 && Within(trace[|trace| - 1], |points|) ==>
               Finished(points, trace[|trace| - 1], closed, tolerance)
    ensures Ended(points, ns, closed, tolerance, trace)
  {
    hide Linked;
  }

  lemma {:induction false} MirrorsReached(points: seq<Point>, ns: seq<Node>, closed: bool, tolerance: real,
                                          pq: multiset<Item>, alive: nat, trace: seq<Order>)
    requires Mirrors(points, ns, closed, tolerance, pq, alive, trace)
    ensures Reached(points, ns, closed, tolerance, trace)
  {
  }

  lemma {:induction false} MirrorsFinished(points: seq<Point>, ns: seq<Node>, closed: bool, tolerance: real,
                                           pq: multiset<Item>, alive: nat, trace: seq<Order>)
    requires Mirrors(points, ns, closed, tolerance, pq, alive, trace)
    requires |pq| == 0 || alive <= MinKeep(closed)
    ensures Ended(points, ns, closed, tolerance, trace)
  {
    if |pq| == 0 {
      EmptyQueueFinishes(points, ns, trace[|trace| - 1], closed, pq, tolerance);
    }
  }

  /** Pops entries until the minimum is reached or every area left exceeds the tolerance. */
  method RemoveSmallest(nodes: array<Node>, queue: multiset<Item>, count: nat, closed: bool, tolerance: real,
                        ghost points: seq<Point>, ghost start: seq<Order>)
    returns (ghost trace: seq<Order>)
    requires Mirrors(points, nodes[..], closed, tolerance, queue, count, start)
    modifies nodes
    ensures Reached(points, nodes[..], closed, tolerance, trace)
    ensures Finished(points, trace[|trace| - 1], closed, tolerance)
  {
    hide Mirrors, Reached, Ended;
    var pq, alive: nat, done := queue, count, false;
    trace := start;
    while !done && |pq| > 0 && alive > MinKeep(closed)
      invariant !done ==> Mirrors(points, nodes[..], closed, tolerance, pq, alive, trace)
      invariant done ==> Ended(points, nodes[..], closed, tolerance, trace)
      decreases !done, 2 * alive + |pq|
    {
      MirrorsReached(points, nodes[..], closed, tolerance, pq, alive, trace);
      pq, alive, done, trace := PopOne(nodes, pq, alive, closed, tolerance, points, trace);
      if done {
        ReachedEnds(points, nodes[..], closed, tolerance, trace);
      }
    }
    if !done {
      MirrorsFinished(points, nodes[..], closed, tolerance, pq, alive, trace);
    }
    EndedMeans(points, nodes[..], closed, tolerance, trace);
  }

  /** Simplifies a line or a ring: a finished run of the plain method leads from the points to the result.
      With too few points or no tolerance they are returned as they are. */
  method Simplify(points: seq<Point>, tolerance: real, closed: bool) returns (out: seq<Point>, ghost trace: seq<Order>)
    ensures |points| <= (if closed then 3 else 2) || tolerance <= 0.0 ==> out == points
    ensures |points| > (if closed then 3 else 2) && tolerance > 0.0 ==>
              && Run(points, trace, closed, tolerance)
              && Simplifies(points, Outlines(points, trace), out, closed, tolerance)
  {
    hide Simplifies;
    trace := [Everything(|points|)];
    if |points| <= MinKeep(closed) || tolerance <= 0.0 {
      return points, trace;
    }
    var nodes := LinkAll(points, closed);
    var pq := FillQueue(nodes, points, closed);
    assert Mirrors(points, nodes[..], closed, tolerance, pq, |points|, trace);
    trace := RemoveSmallest(nodes, pq, |points|, closed, tolerance, points, trace);
    out := Collect(nodes, closed, points, trace[|trace| - 1]);
    RunOutlines(points, trace, closed, tolerance);
  }
}
