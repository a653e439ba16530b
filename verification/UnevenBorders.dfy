/** What goes wrong in a dissolve when a border is traversed more often one way than the other
    (internal/geo/dissolve.go): examples. */
module UnevenBorders {
  import opened Geometry
  import opened Dissolve
  import opened Sequences

  function Triangle(a: Point, b: Point, c: Point): Ring {
    [a, b, c, a]
  }

  lemma {:induction false} TriangleEdges(a: Point, b: Point, c: Point)
    requires a != b && b != c && c != a
    ensures RingEdges(Triangle(a, b, c)) == [Edge(a, b), Edge(b, c), Edge(c, a)]
  {
    var r := Triangle(a, b, c);
    assert r[1..] == [b, c, a] && [b, c, a][1..] == [c, a] && [c, a][1..] == [a];
    assert RingEdges([c, a]) == [Edge(c, a)] + RingEdges([a]);
    assert RingEdges([b, c, a]) == [Edge(b, c)] + RingEdges([c, a]);
  }

  lemma {:induction false} ThreeRingEdges(r: Ring, s: Ring, t: Ring)
    ensures AllEdges([r, s, t]) == RingEdges(r) + RingEdges(s) + RingEdges(t)
  {
    hide RingEdges;
    assert [r, s, t][1..] == [s, t] && [s, t][1..] == [t] && [t][1..] == [];
    assert AllEdges([t]) == RingEdges(t) + AllEdges([]);
    assert AllEdges([s, t]) == RingEdges(s) + AllEdges([t]);
  }

  lemma {:induction false} CancelledConcat(s: seq<Edge>, t: seq<Edge>, present: set<Edge>)
    ensures Cancelled(s + t, present) == Cancelled(s, present) + Cancelled(t, present)
  {
    if s == [] {
      assert s + t == t;
    } else {
      assert (s + t)[1..] == s[1..] + t;
      CancelledConcat(s[1..], t, present);
      var head := if Rev(s[0]) in present then [s[0]] else [];
      Associate(head, Cancelled(s[1..], present), Cancelled(t, present));
    }
  }

  lemma {:induction false} FirstOfThreeCancels(e: Edge, f: Edge, g: Edge, present: set<Edge>)
    requires Rev(e) in present && Rev(f) !in present && Rev(g) !in present
    ensures Cancelled([e, f, g], present) == [e]
  {
    assert [e, f, g][1..] == [f, g] && [f, g][1..] == [g];
    assert Cancelled([g], present) == [] + Cancelled([], present);
    assert Cancelled([f, g], present) == [] + Cancelled([g], present);
  }

  /** Two triangles that run along the border from a to b, one that runs back. */
  function UnevenRings(a: Point, b: Point, c: Point, d: Point, e: Point): seq<Ring> {
    [Triangle(a, b, c), Triangle(a, b, d), Triangle(b, a, e)]
  }

  lemma {:induction false} UnevenSum(a: Point, b: Point, c: Point, d: Point, e: Point, present: set<Edge>)
    requires a != b && a !in {c, d, e} && b !in {c, d, e}
    requires Edge(a, b) in present && Edge(b, a) in present
    requires {Edge(c, b), Edge(a, c), Edge(d, b), Edge(a, d), Edge(e, a), Edge(b, e)} !! present
    ensures Sum(Net(a), Cancelled(AllEdges(UnevenRings(a, b, c, d, e)), present)) == 1
  {
    TriangleEdges(a, b, c);
    TriangleEdges(a, b, d);
    TriangleEdges(b, a, e);
    var r, s, t := Triangle(a, b, c), Triangle(a, b, d), Triangle(b, a, e);
    ThreeRingEdges(r, s, t);
    FirstOfThreeCancels(Edge(a, b), Edge(b, c), Edge(c, a), present);
    FirstOfThreeCancels(Edge(a, b), Edge(b, d), Edge(d, a), present);
    FirstOfThreeCancels(Edge(b, a), Edge(a, e), Edge(e, b), present);
    CancelledConcat(RingEdges(r) + RingEdges(s), RingEdges(t), present);
    CancelledConcat(RingEdges(r), RingEdges(s), present);
    SumConcat(Net(a), [Edge(a, b)] + [Edge(a, b)], [Edge(b, a)]);
    SumConcat(Net(a), [Edge(a, b)], [Edge(a, b)]);
  }

  lemma {:induction false} UnevenEdges(a: Point, b: Point, c: Point, d: Point, e: Point)
    requires a !in {b, c, d, e} && b !in {c, d, e} && c !in {d, e} && d != e
    ensures var present := EdgeSet(AllEdges(UnevenRings(a, b, c, d, e)));
            && Edge(a, b) in present && Edge(b, a) in present
            && {Edge(c, b), Edge(a, c), Edge(d, b), Edge(a, d), Edge(e, a), Edge(b, e)} !! present
  {
    hide AllEdges, RingEdges;
    TriangleEdges(a, b, c);
    TriangleEdges(a, b, d);
    TriangleEdges(b, a, e);
    ThreeRingEdges(Triangle(a, b, c), Triangle(a, b, d), Triangle(b, a, e));
    var es := AllEdges(UnevenRings(a, b, c, d, e));
    assert es[0] == Edge(a, b) && es[6] == Edge(b, a);
  }

  /** A border shared unevenly, twice one way and once the other, cancels altogether and leaves rings
      that cannot be closed. */
  lemma {:induction false} UnevenBorderBreaksRings() returns (rings: seq<Ring>)
    ensures (forall r :: r in rings ==> Closed(r)) && !CancelsEvenly(rings)
  {
    hide AllEdges, RingEdges, Cancelled, Sum, EdgeSet;
    var a, b, c, d, e := Point(0, 0), Point(4, 0), Point(2, 3), Point(2, 5), Point(2, -3);
    rings := UnevenRings(a, b, c, d, e);
    var present := EdgeSet(AllEdges(rings));
    UnevenEdges(a, b, c, d, e);
    UnevenSum(a, b, c, d, e, present);
    assert Sum(Net(a), Lost(rings)) == 1;
    assert forall r :: r in rings ==> Closed(r);
  }

  /** Two triangles along the same border one way, the second with a tail, and one the other way. */
  function UnevenTail(a: Point, b: Point, c: Point, d: Point, e: Point): seq<Ring> {
    [Triangle(a, b, c), Triangle(a, b, c) + [d, e, a], Triangle(a, c, b)]
  }

  lemma {:induction false} TailEdges(a: Point, b: Point, c: Point, d: Point, e: Point)
    requires a != b && b != c && c != a && d !in {a, e} && e != a
    ensures AllEdges(UnevenTail(a, b, c, d, e))
            == [Edge(a, b), Edge(b, c), Edge(c, a)]
               + ([Edge(a, b), Edge(b, c), Edge(c, a)] + [Edge(a, d), Edge(d, e), Edge(e, a)])
               + [Edge(a, c), Edge(c, b), Edge(b, a)]
  {
    var t := Triangle(a, b, c);
    TriangleEdges(a, b, c);
    TriangleEdges(a, c, b);
    hide RingEdges;
    RingEdgesAppend(t, d);
    RingEdgesAppend(t + [d], e);
    RingEdgesAppend(t + [d] + [e], a);
    assert t + [d, e, a] == t + [d] + [e] + [a];
    ThreeRingEdges(t, t + [d, e, a], Triangle(a, c, b));
  }

  lemma {:induction false} KeepConcat(s: seq<Edge>, t: seq<Edge>, present: set<Edge>)
    ensures Keep(s + t, present) == Keep(s, present) + Keep(t, present)
  {
    if s == [] {
      assert s + t == t;
    } else {
      assert (s + t)[1..] == s[1..] + t;
      KeepConcat(s[1..], t, present);
      var head := if Rev(s[0]) in present then [] else [s[0]];
      Associate(head, Keep(s[1..], present), Keep(t, present));
    }
  }

  lemma {:induction false} KeepAllOrNone(es: seq<Edge>, present: set<Edge>)
    ensures (forall k :: 0 <= k < |es| ==> Rev(es[k]) in present) ==> Keep(es, present) == []
    ensures (forall k :: 0 <= k < |es| ==> Rev(es[k]) !in present) ==> Keep(es, present) == es
  {
    if es != [] {
      KeepAllOrNone(es[1..], present);
      assert forall k :: 0 < k < |es| ==> es[k] == es[1..][k - 1];
    }
  }

  /** What is left of two blocks and a tail: the tail, if only the blocks have their reverses about. */
  lemma {:induction false} KeepTail(r: seq<Edge>, left: seq<Edge>, t: seq<Edge>, present: set<Edge>)
    requires forall k :: 0 <= k < |r| ==> Rev(r[k]) in present
    requires forall k :: 0 <= k < |t| ==> Rev(t[k]) in present
    requires forall k :: 0 <= k < |left| ==> Rev(left[k]) !in present
    ensures Keep(r + (r + left) + t, present) == left
  {
    KeepConcat(r + (r + left), t, present);
    KeepConcat(r, r + left, present);
    KeepConcat(r, left, present);
    KeepAllOrNone(r, present);
    KeepAllOrNone(t, present);
    KeepAllOrNone(left, present);
    hide Keep;
  }

  lemma {:induction false} TailSurvivors(a: Point, b: Point, c: Point, d: Point, e: Point)
    requires a !in {b, c, d, e} && b !in {c, d, e} && c !in {d, e} && d != e
    ensures Survivors(UnevenTail(a, b, c, d, e)) == [Edge(a, d), Edge(d, e), Edge(e, a)]
  {
    var r, t := [Edge(a, b), Edge(b, c), Edge(c, a)], [Edge(a, c), Edge(c, b), Edge(b, a)];
    var left := [Edge(a, d), Edge(d, e), Edge(e, a)];
    TailEdges(a, b, c, d, e);
    hide AllEdges, UnevenTail, Keep;
    var es := r + (r + left) + t;
    TailReverses(r, left, t);
    KeepTail(r, left, t, EdgeSet(es));
  }

  lemma {:induction false} TailReverses(r: seq<Edge>, left: seq<Edge>, t: seq<Edge>)
    requires |r| == |left| == |t| == 3
    requires Rev(r[0]) == t[2] && Rev(r[1]) == t[1] && Rev(r[2]) == t[0]
    requires forall k :: 0 <= k < 3 ==> Rev(left[k]) !in r && Rev(left[k]) !in left && Rev(left[k]) !in t
    ensures var present := EdgeSet(r + (r + left) + t);
            forall k :: 0 <= k < 3 ==> Rev(r[k]) in present && Rev(t[k]) in present && Rev(left[k]) !in present
  {
    var es := r + (r + left) + t;
    forall k | 0 <= k < 3 ensures Rev(r[k]) in es && Rev(t[k]) in es {
      assert es[k] == r[k] && es[9 + k] == t[k];
      assert es[2 - k] == r[2 - k] && es[11 - k] == t[2 - k];
    }
  }

  lemma {:induction false} SumOfThree(f: Edge -> int, es: seq<Edge>)
    requires |es| == 3
    ensures Sum(f, es) == f(es[0]) + f(es[1]) + f(es[2])
  {
    assert Sum(f, es[1..][1..]) == f(es[2]) + Sum(f, es[1..][1..][1..]);
  }

  lemma {:induction false} TailTotal(f: Edge -> int, a: Point, b: Point, c: Point, d: Point, e: Point)
    requires a != b && b != c && c != a && d !in {a, e} && e != a
    ensures Sum(f, AllEdges(UnevenTail(a, b, c, d, e)))
            == 2 * (f(Edge(a, b)) + f(Edge(b, c)) + f(Edge(c, a))) + f(Edge(a, d)) + f(Edge(d, e)) + f(Edge(e, a))
               + f(Edge(a, c)) + f(Edge(c, b)) + f(Edge(b, a))
  {
    var r, t := [Edge(a, b), Edge(b, c), Edge(c, a)], [Edge(a, c), Edge(c, b), Edge(b, a)];
    var left := [Edge(a, d), Edge(d, e), Edge(e, a)];
    TailEdges(a, b, c, d, e);
    SumOfThree(f, r);
    SumOfThree(f, t);
    SumOfThree(f, left);
    hide AllEdges, UnevenTail, Sum;
    SumConcat(f, r + (r + left), t);
    SumConcat(f, r, r + left);
    SumConcat(f, r, left);
  }

  /** Even where the rest can be closed, an uneven border loses area: of 32, twice the area, 16 is left. */
  lemma {:induction false} UnevenBorderLosesArea() returns (rings: seq<Ring>, chained: seq<Ring>)
    ensures (forall r :: r in rings ==> Closed(r)) && CancelsEvenly(rings)
    ensures UsesEverySurvivor(rings, chained)
    ensures TotalArea(rings) == 32 && TotalArea(chained) == 16
  {
    hide AllEdges, RingEdges, Keep, Sum, TotalArea, CancelsEvenly, UsesEverySurvivor, UnevenTail, Triangle, Closed,
         Survivors;
    var a, b, c, d, e := Point(0, 0), Point(4, 0), Point(0, 4), Point(-4, 0), Point(0, -4);
    rings, chained := UnevenTail(a, b, c, d, e), [Triangle(a, d, e)];
    TailLeft(a, b, c, d, e);
    TailTotal(Cross, a, b, c, d, e);
    TotalAreaOfEdges(rings);
    TotalAreaOfEdges(chained);
    SumOfThree(Cross, AllEdges(chained));
    SurvivorsChainIff(rings);
  }

  /** The tail closes to the one ring that is left. */
  lemma {:induction false} TailLeft(a: Point, b: Point, c: Point, d: Point, e: Point)
    requires a !in {b, c, d, e} && b !in {c, d, e} && c !in {d, e} && d != e
    ensures var rings, chained := UnevenTail(a, b, c, d, e), [Triangle(a, d, e)];
            && (forall r :: r in rings ==> Closed(r))
            && AllEdges(chained) == [Edge(a, d), Edge(d, e), Edge(e, a)]
            && UsesEverySurvivor(rings, chained)
  {
    var chained := [Triangle(a, d, e)];
    TailSurvivors(a, b, c, d, e);
    TriangleEdges(a, d, e);
    hide RingEdges, Survivors;
    assert chained[1..] == [];
    assert AllEdges(chained) == RingEdges(chained[0]) + AllEdges(chained[1..]);
  }
}
