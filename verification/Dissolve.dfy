/** Dissolving a group of polygons (internal/geo/dissolve.go): shared borders are cancelled edge
    by edge and the surviving edges are chained back into closed rings. */
module Dissolve {
  import opened Geometry
  import opened Sequences

  // ----- Cancelling shared borders -----

  function Keep(es: seq<Edge>, present: set<Edge>): seq<Edge> {
    if es == [] then []
    else (if Rev(es[0]) in present then [] else [es[0]]) + Keep(es[1..], present)
  }

  ghost function Cancelled(es: seq<Edge>, present: set<Edge>): seq<Edge> {
    if es == [] then []
    else (if Rev(es[0]) in present then [es[0]] else []) + Cancelled(es[1..], present)
  }

  function EdgeSet(es: seq<Edge>): set<Edge> {
    set e | e in es
  }

  /** The edges whose reverse does not occur anywhere in the rings. */
  function Survivors(rings: seq<Ring>): seq<Edge> {
    Keep(AllEdges(rings), EdgeSet(AllEdges(rings)))
  }

  /** The edges that cancel. */
  ghost function Lost(rings: seq<Ring>): seq<Edge> {
    Cancelled(AllEdges(rings), EdgeSet(AllEdges(rings)))
  }

  lemma {:induction false} RingEdgesFit(r: Ring)
    ensures |RingEdges(r)| <= if |r| > 1 then |r| - 1 else 0
  {
    if |r| >= 2 {
      RingEdgesFit(r[1..]);
    }
  }

  lemma {:induction false} KeepAppend(es: seq<Edge>, e: Edge, present: set<Edge>)
    ensures Keep(es + [e], present) == Keep(es, present) + (if Rev(e) in present then [] else [e])
  {
    if es == [] {
      assert Keep([e], present) == (if Rev(e) in present then [] else [e]) + Keep([], present);
    } else {
      assert (es + [e])[1..] == es[1..] + [e];
      KeepAppend(es[1..], e, present);
      Associate(if Rev(es[0]) in present then [] else [es[0]], Keep(es[1..], present),
          if Rev(e) in present then [] else [e]);
    }
  }

  /** What is collected when the edges up to the j-th point of a ring follow those before it. */
  function EdgesSoFar(r: Ring, j: nat, before: seq<Edge>): seq<Edge> {
    before + RingEdges(if j < |r| then r[..j + 1] else r)
  }

  lemma {:induction false} EdgesBegin(r: Ring, before: seq<Edge>)
    ensures EdgesSoFar(r, 0, before) == before
  {
  }

  lemma {:induction false} EdgesGrow(r: Ring, j: nat, before: seq<Edge>)
    requires j + 1 < |r|
    ensures EdgesSoFar(r, j + 1, before)
            == EdgesSoFar(r, j, before) + if r[j] == r[j + 1] then [] else [Edge(r[j], r[j + 1])]
  {
    hide RingEdges;
    RingEdgesAppend(r[..j + 1], r[j + 1]);
    assert r[..j + 2] == r[..j + 1] + [r[j + 1]];
    Associate(before, RingEdges(r[..j + 1]), if r[j] == r[j + 1] then [] else [Edge(r[j], r[j + 1])]);
  }

  lemma {:induction false} EdgesEnd(r: Ring, j: nat, before: seq<Edge>)
    requires j + 1 >= |r|
    ensures EdgesSoFar(r, j, before) == before + RingEdges(r)
  {
    hide RingEdges;
    if j < |r| {
      assert r[..j + 1] == r;
    }
  }

  lemma {:induction false} NoEdges()
    ensures AllEdges([]) == [] && EdgeSet([]) == {}
  {
  }

  lemma {:induction false} EdgeSetMore(es: seq<Edge>, e: Edge)
    ensures EdgeSet(es + [e]) == EdgeSet(es) + {e}
  {
  }

  method CollectEdges(rings: seq<Ring>) returns (edges: seq<Edge>, present: set<Edge>)
    ensures edges == AllEdges(rings) && present == EdgeSet(edges)
  {
    hide RingEdges, AllEdges, EdgeSet, EdgesSoFar;
    edges, present := [], {};
    NoEdges();
    for i := 0 to |rings|
      invariant edges == AllEdges(rings[..i]) && present == EdgeSet(edges)
    {
      var r := rings[i];
      assert rings[..i + 1] == rings[..i] + [r];
      AllEdgesAppend(rings[..i], r);
      ghost var before := edges;
      var j := 0;
      EdgesBegin(r, before);
      while j + 1 < |r|
        invariant 0 <= j <= |r| && (|r| > 0 ==> j < |r|)
        invariant edges == EdgesSoFar(r, j, before) && present == EdgeSet(edges)
      {
        var a, b := r[j], r[j + 1];
        EdgesGrow(r, j, before);
        if a != b {
          EdgeSetMore(edges, Edge(a, b));
          edges := edges + [Edge(a, b)];
          present := present + {Edge(a, b)};
        }
        j := j + 1;
      }
      EdgesEnd(r, j, before);
    }
    assert rings[..|rings|] == rings;
  }

  /** Keeps the surviving edges in the front of their own buffer. */
  method FilterInPlace(edges: array<Edge>, present: set<Edge>) returns (w: nat)
    modifies edges
    ensures w <= edges.Length && edges[..w] == Keep(old(edges[..]), present)
  {
    w := 0;
    ghost var all := edges[..];
    for i := 0 to edges.Length
      invariant w <= i
      invariant edges[i..] == all[i..]
      invariant edges[..w] == Keep(all[..i], present)
    {
      var e := edges[i];
      assert e == edges[i..][0] == all[i];
      KeepAppend(all[..i], e, present);
      assert all[..i + 1] == all[..i] + [e];
      if Rev(e) !in present {
        edges[w] := e;
        w := w + 1;
      }
      assert edges[i + 1..] == edges[i..][1..];
    }
    assert all[..edges.Length] == all;
  }

  method CancelSharedEdges(rings: seq<Ring>) returns (surviving: seq<Edge>)
    ensures surviving == Survivors(rings)
  {
    var edges, present := CollectEdges(rings);
    var buffer := new Edge[|edges|](i requires 0 <= i < |edges| => edges[i]);
    assert buffer[..] == edges;
    var w := FilterInPlace(buffer, present);
    surviving := buffer[..w];
  }

  /** Every border that is traversed in both directions is traversed equally often in each. */
  ghost predicate EvenlyShared(es: seq<Edge>) {
    forall e, g :: e in es && g in es && g == Rev(e) ==> multiset(es)[e] == multiset(es)[g]
  }

  /** In particular when no directed edge repeats. */
  lemma {:induction false} NoRepeatIsEvenlyShared(es: seq<Edge>)
    requires forall i, j :: 0 <= i < j < |es| ==> es[i] != es[j]
    ensures EvenlyShared(es)
  {
    forall e | e in es ensures multiset(es)[e] == 1 {
      DistinctOnce(es, e);
    }
  }

  lemma {:induction false} DistinctOnce(es: seq<Edge>, e: Edge)
    requires forall i, j :: 0 <= i < j < |es| ==> es[i] != es[j]
    requires e in es
    ensures multiset(es)[e] == 1
  {
    assert es == [es[0]] + es[1..];
    if es[0] == e {
      assert e !in es[1..];
    } else {
      DistinctOnce(es[1..], e);
    }
  }

  lemma {:induction false} KeepOrCancel(f: Edge -> int, es: seq<Edge>, present: set<Edge>)
    ensures Sum(f, es) == Sum(f, Keep(es, present)) + Sum(f, Cancelled(es, present))
  {
    if es != [] {
      KeepOrCancel(f, es[1..], present);
      SumConcat(f, if Rev(es[0]) in present then [] else [es[0]], Keep(es[1..], present));
      SumConcat(f, if Rev(es[0]) in present then [es[0]] else [], Cancelled(es[1..], present));
    }
  }

  lemma {:induction false} CancelledCount(es: seq<Edge>, present: set<Edge>, e: Edge)
    ensures multiset(Cancelled(es, present))[e] == if Rev(e) in present then multiset(es)[e] else 0
    ensures multiset(Keep(es, present))[e] == if Rev(e) in present then 0 else multiset(es)[e]
  {
    if es != [] {
      CancelledCount(es[1..], present, e);
      assert es == [es[0]] + es[1..];
    }
  }

  ghost function RevAll(es: seq<Edge>): seq<Edge> {
    if es == [] then [] else [Rev(es[0])] + RevAll(es[1..])
  }

  lemma {:induction false} RevAllSum(f: Edge -> int, es: seq<Edge>)
    requires Antisymmetric(f)
    ensures Sum(f, RevAll(es)) == -Sum(f, es)
  {
    if es != [] {
      RevAllSum(f, es[1..]);
      assert f(Rev(es[0])) == -f(es[0]);
    }
  }

  lemma {:induction false} RevAllCount(es: seq<Edge>, e: Edge)
    ensures multiset(RevAll(es))[e] == multiset(es)[Rev(e)]
  {
    if es != [] {
      RevAllCount(es[1..], e);
      assert es == [es[0]] + es[1..];
      assert es[0] == Rev(e) <==> Rev(es[0]) == e;
    }
  }

  /** The cancelled edges are closed under reversal, so every antisymmetric total over them is its
      own negation. */
  lemma {:induction false} CancelledSumsToZero(f: Edge -> int, es: seq<Edge>)
    requires Antisymmetric(f) && EvenlyShared(es)
    ensures Sum(f, Cancelled(es, EdgeSet(es))) == 0
  {
    var c := Cancelled(es, EdgeSet(es));
    forall e ensures multiset(RevAll(c))[e] == multiset(c)[e] {
      RevAllCount(c, e);
      CancelledCount(es, EdgeSet(es), e);
      CancelledCount(es, EdgeSet(es), Rev(e));
      assert Rev(Rev(e)) == e;
      assert e in multiset(es) <==> e in es;
      assert Rev(e) in multiset(es) <==> Rev(e) in es;
    }
    assert multiset(RevAll(c)) == multiset(c);
    SumPermutation(f, RevAll(c), c);
    RevAllSum(f, c);
  }

  lemma {:induction false} CancellationConserves(f: Edge -> int, rings: seq<Ring>)
    requires Antisymmetric(f) && EvenlyShared(AllEdges(rings))
    ensures Sum(f, Survivors(rings)) == Sum(f, AllEdges(rings))
  {
    var es := AllEdges(rings);
    KeepOrCancel(f, es, EdgeSet(es));
    CancelledSumsToZero(f, es);
  }

  /** One on e, minus one on its reverse. */
  ghost function Indicator(e: Edge): Edge -> int {
    g => (if g == e then 1 else 0) - (if g == Rev(e) then 1 else 0)
  }

  lemma {:induction false} IndicatorSum(e: Edge, es: seq<Edge>)
    ensures Sum(Indicator(e), es) + multiset(es)[Rev(e)] == multiset(es)[e]
  {
    if es != [] {
      IndicatorSum(e, es[1..]);
      assert es == [es[0]] + es[1..];
    }
  }

  ghost predicate ConservesEveryTotal(rings: seq<Ring>) {
    forall f :: Antisymmetric(f) ==> Sum(f, Survivors(rings)) == Sum(f, AllEdges(rings))
  }

  /** Every antisymmetric total survives the cancellation exactly when every border is shared evenly. */
  lemma {:induction false} ConservedIffEvenlyShared(rings: seq<Ring>)
    ensures ConservesEveryTotal(rings) <==> EvenlyShared(AllEdges(rings))
  {
    var es := AllEdges(rings);
    if EvenlyShared(es) {
      forall f | Antisymmetric(f) ensures Sum(f, Survivors(rings)) == Sum(f, es) {
        CancellationConserves(f, rings);
      }
    }
    if ConservesEveryTotal(rings) {
      forall e, g | e in es && g in es && g == Rev(e) ensures multiset(es)[e] == multiset(es)[g] {
        var f := Indicator(e);
        assert forall h :: Rev(Rev(h)) == h && (Rev(h) == e <==> h == g);
        assert Antisymmetric(f);
        IndicatorSum(e, es);
        IndicatorSum(e, Survivors(rings));
        CancelledCount(es, EdgeSet(es), e);
        CancelledCount(es, EdgeSet(es), g);
      }
    }
  }

  // ----- Chaining the survivors -----

  ghost predicate Balanced(es: seq<Edge>) {
    forall v :: Sum(Net(v), es) == 0
  }

  /** No zero-length edge and no edge beside its own reverse: what cancellation guarantees. */
  ghost predicate OneWay(es: seq<Edge>) {
    && (forall e :: e in es ==> e.a != e.b)
    && (forall e, g :: e in es && g in es ==> g != Rev(e))
  }

  lemma {:induction false} SurvivorsOneWay(rings: seq<Ring>)
    ensures OneWay(Survivors(rings))
  {
    var es := AllEdges(rings);
    AllEdgesProper(rings);
    forall e | e in Survivors(rings) ensures e in es && Rev(e) !in es {
      CancelledCount(es, EdgeSet(es), e);
      assert e in multiset(Survivors(rings));
    }
  }

  ghost function Unused(es: seq<Edge>, used: seq<bool>): seq<Edge>
    requires |used| == |es|
  {
    if es == [] then []
    else (if used[0] then [] else [es[0]]) + Unused(es[1..], used[1..])
  }

  lemma {:induction false} MarkUsed(es: seq<Edge>, used: seq<bool>, k: nat)
    requires |used| == |es| && k < |es| && !used[k]
    ensures multiset(Unused(es, used)) == multiset(Unused(es, used[k := true])) + multiset{es[k]}
    ensures |Unused(es, used[k := true])| < |Unused(es, used)|
  {
    var rest := Unused(es[1..], used[1..]);
    if k == 0 {
      assert used[0 := true][1..] == used[1..];
      assert Unused(es, used) == [es[0]] + rest;
      assert Unused(es, used[0 := true]) == [] + rest == rest;
    } else {
      MarkUsed(es[1..], used[1..], k - 1);
      assert used[k := true][1..] == used[1..][k - 1 := true];
    }
  }

  lemma {:induction false} AllUnused(es: seq<Edge>, used: seq<bool>)
    requires |used| == |es| && forall i :: 0 <= i < |used| ==> !used[i]
    ensures Unused(es, used) == es
  {
    if es != [] {
      AllUnused(es[1..], used[1..]);
    }
  }

  lemma {:induction false} NoneUnused(es: seq<Edge>, used: seq<bool>)
    requires |used| == |es| && forall i :: 0 <= i < |used| ==> used[i]
    ensures Unused(es, used) == []
  {
    if es != [] {
      NoneUnused(es[1..], used[1..]);
    }
  }

  /** If more unused edges leave v than enter it, one of them leaves v. */
  lemma {:induction false} UnusedExit(es: seq<Edge>, used: seq<bool>, v: Point) returns (i: nat)
    requires |used| == |es| && Sum(Net(v), Unused(es, used)) > 0
    ensures i < |es| && !used[i] && es[i].a == v
  {
    if !used[0] && es[0].a == v {
      i := 0;
    } else {
      SumConcat(Net(v), if used[0] then [] else [es[0]], Unused(es[1..], used[1..]));
      assert Sum(Net(v), [es[0]]) == NetAt(v, es[0]);
      i := UnusedExit(es[1..], used[1..], v);
      i := i + 1;
    }
  }

  /** The indices filed under v; a missing key reads as none. */
  function Bucket(index: map<Point, seq<nat>>, v: Point): seq<nat> {
    if v in index then index[v] else []
  }

  ghost predicate Leaves(es: seq<Edge>, j: nat, n: nat, v: Point) {
    j < n <= |es| && es[j].a == v
  }

  ghost predicate IndexedBy(index: map<Point, seq<nat>>, es: seq<Edge>, n: nat)
    requires n <= |es|
  {
    forall v, j: nat :: j in Bucket(index, v) <==> Leaves(es, j, n, v)
  }

  method IndexByStart(es: seq<Edge>) returns (index: map<Point, seq<nat>>)
    ensures IndexedBy(index, es, |es|)
  {
    index := map[];
    for i := 0 to |es|
      invariant IndexedBy(index, es, i)
    {
      var v := es[i].a;
      ghost var before := index;
      index := index[v := Bucket(index, v) + [i]];
      forall w, j: nat ensures j in Bucket(index, w) <==> Leaves(es, j, i + 1, w) {
        assert j in Bucket(index, w) <==> j in Bucket(before, w) || (w == v && j == i);
      }
    }
  }

  /** The first unused edge filed under v, if any. */
  method NextEdge(es: seq<Edge>, index: map<Point, seq<nat>>, used: array<bool>, v: Point) returns (next: int)
    requires IndexedBy(index, es, |es|) && used.Length == |es|
    ensures next < 0 ==> forall i :: 0 <= i < |es| && es[i].a == v ==> used[i]
    ensures next >= 0 ==> next < |es| && !used[next] && es[next].a == v
  {
    var candidates := Bucket(index, v);
    for k := 0 to |candidates|
      invariant forall c :: 0 <= c < k ==> candidates[c] < |es| && used[candidates[c]]
    {
      assert candidates[k] in candidates;
      assert Leaves(es, candidates[k], |es|, v);
      if !used[candidates[k]] {
        return candidates[k];
      }
    }
    forall i | 0 <= i < |es| && es[i].a == v ensures used[i] {
      assert Leaves(es, i, |es|, v);
      assert i in candidates;
    }
    return -1;
  }

  /** A closed ring of at least three edges that returns to its first point only at its end. */
  ghost predicate ChainedRing(r: Ring) {
    && |r| >= 4
    && r[0] == r[|r| - 1]
    && forall k :: 0 < k < |r| - 1 ==> r[k] != r[0]
  }

  ghost predicate Chainable(es: seq<Edge>) {
    OneWay(es) && Balanced(es)
  }

  /** The edges taken out of `before` leave `after`. */
  ghost predicate TakesOut(before: seq<Edge>, after: seq<Edge>, trail: seq<Edge>) {
    multiset(before) == multiset(after) + multiset(trail)
  }

  ghost predicate StaysUsed(before: seq<bool>, after: seq<bool>) {
    |before| == |after| && forall i :: 0 <= i < |before| && before[i] ==> after[i]
  }

  /** A walk so far: the edges marked since it began are those of the ring, which has not come back. */
  ghost predicate Traced(es: seq<Edge>, was: seq<bool>, now: seq<bool>, ring: Ring) {
    && |was| == |es| && StaysUsed(was, now)
    && ring != [] && |RingEdges(ring)| == |ring| - 1
    && TakesOut(Unused(es, was), Unused(es, now), RingEdges(ring))
    && ComesBackLast(ring)
  }

  /** Up to its last point the ring does not come back to its first. */
  ghost predicate ComesBackLast(ring: Ring) {
    forall k :: 0 < k < |ring| - 1 ==> ring[k] != ring[0]
  }

  lemma {:induction false} ComesBackLater(ring: Ring, p: Point)
    requires ring != [] && ComesBackLast(ring) && (|ring| > 1 ==> ring[|ring| - 1] != ring[0])
    ensures ComesBackLast(ring + [p])
  {
  }

  lemma {:induction false} TakesOutMore(before: seq<Edge>, after: seq<Edge>, after': seq<Edge>, trail: seq<Edge>,
                                        e: Edge)
    requires TakesOut(before, after, trail) && multiset(after) == multiset(after') + multiset{e}
    ensures TakesOut(before, after', trail + [e])
  {
  }

  lemma {:induction false} TraceStart(es: seq<Edge>, was: seq<bool>, p: Point)
    requires |was| == |es|
    ensures Traced(es, was, was, [p])
  {
  }

  lemma {:induction false} TraceStep(es: seq<Edge>, was: seq<bool>, now: seq<bool>, k: nat, ring: Ring)
    requires Traced(es, was, now, ring) && k < |es| && !now[k] && es[k].a != es[k].b
    requires ring[|ring| - 1] == es[k].a && (|ring| > 1 ==> ring[|ring| - 1] != ring[0])
    ensures Traced(es, was, now[k := true], ring + [es[k].b])
    ensures |Unused(es, now[k := true])| < |Unused(es, now)|
  {
    hide RingEdges, Unused, TakesOut, ComesBackLast;
    MarkUsed(es, now, k);
    RingEdgesAppend(ring, es[k].b);
    TakesOutMore(Unused(es, was), Unused(es, now), Unused(es, now[k := true]), RingEdges(ring), es[k]);
    ComesBackLater(ring, es[k].b);
  }

  /** The walk from one unused edge. It marks the edges of the ring it traces, and it ends where it
      began unless no unused edge leaves the vertex it reached. */
  method Walk(es: seq<Edge>, index: map<Point, seq<nat>>, used: array<bool>, start: nat) returns (ring: Ring)
    requires IndexedBy(index, es, |es|)
    requires forall e :: e in es ==> e.a != e.b
    requires used.Length == |es| && start < |es| && !used[start]
    modifies used
    ensures StaysUsed(old(used[..]), used[..])
    ensures used[start] && |ring| >= 2 && |RingEdges(ring)| == |ring| - 1
    ensures TakesOut(Unused(es, old(used[..])), Unused(es, used[..]), RingEdges(ring))
    ensures forall k :: 0 < k < |ring| - 1 ==> ring[k] != ring[0]
    ensures ring[0] == ring[|ring| - 1] || forall i :: 0 <= i < |es| && !used[i] ==> es[i].a != ring[|ring| - 1]
  {
    hide Traced, RingEdges, Unused, TakesOut, IndexedBy;
    ring := [es[start].a];
    var current := start;
    ghost var now := used[..];
    ghost var was := now;
    TraceStart(es, was, es[start].a);
    while true
      invariant now == used[..] && |now| == |es|
      invariant 0 <= current < |es| && !now[current]
      invariant current == start || now[start]
      invariant ring != [] && ring[0] == es[start].a && ring[|ring| - 1] == es[current].a
      invariant |ring| > 1 ==> ring[|ring| - 1] != ring[0]
      invariant Traced(es, was, now, ring)
      decreases |Unused(es, now)|
    {
      var e := es[current];
      TraceStep(es, was, now, current, ring);
      used[current] := true;
      now := now[current := true];
      ring := ring + [e.b];
      TraceMeans(es, was, now, ring);
      if e.b == es[start].a {
        return;
      }
      var next := NextEdge(es, index, used, e.b);
      if next < 0 {
        return;
      }
      current := next;
    }
  }

  lemma {:induction false} TraceMeans(es: seq<Edge>, was: seq<bool>, now: seq<bool>, ring: Ring)
    requires Traced(es, was, now, ring)
    ensures StaysUsed(was, now) && |RingEdges(ring)| == |ring| - 1
    ensures TakesOut(Unused(es, was), Unused(es, now), RingEdges(ring))
    ensures forall k :: 0 < k < |ring| - 1 ==> ring[k] != ring[0]
  {
  }

  /** Among balanced edges a walk always comes back, and leaves balanced edges behind. */
  lemma {:induction false} WalkCloses(es: seq<Edge>, open: seq<Edge>, used: seq<bool>, ring: Ring)
    requires |used| == |es| && ring != [] && Balanced(open)
    requires TakesOut(open, Unused(es, used), RingEdges(ring))
    requires ring[0] == ring[|ring| - 1] || forall i :: 0 <= i < |es| && !used[i] ==> es[i].a != ring[|ring| - 1]
    ensures ring[0] == ring[|ring| - 1]
    ensures Balanced(Unused(es, used))
  {
    var after := Unused(es, used);
    forall v ensures Sum(Net(v), after) == -NetAt(v, Edge(ring[0], ring[|ring| - 1])) {
      assert multiset(after + RingEdges(ring)) == multiset(open);
      SumPermutation(Net(v), open, after + RingEdges(ring));
      SumConcat(Net(v), after, RingEdges(ring));
      WalkNet(ring, v);
    }
    var last := ring[|ring| - 1];
    if ring[0] != last {
      var i := UnusedExit(es, used, last);
      assert false;
    }
  }

  lemma {:induction false} ThereAndBack(es: seq<Edge>, a: Point, b: Point)
    requires a != b && multiset(RingEdges([a, b, a])) <= multiset(es)
    ensures !OneWay(es)
  {
    assert [a, b, a][1..] == [b, a];
    assert [b, a][1..] == [a];
    assert RingEdges([b, a]) == [Edge(b, a)] + RingEdges([a]);
    var e := Edge(a, b);
    assert e in multiset(es) && Rev(e) in multiset(es);
    assert e in es && Rev(e) in es;
  }

  lemma {:induction false} ProperStart(ring: Ring)
    requires |ring| >= 2 && |RingEdges(ring)| == |ring| - 1
    ensures ring[0] != ring[1]
  {
    RingEdgesFit(ring[1..]);
  }

  lemma {:induction false} AtLeastThreeEdges(es: seq<Edge>, ring: Ring)
    requires multiset(RingEdges(ring)) <= multiset(es)
    requires |ring| >= 2 && ring[0] == ring[|ring| - 1] && |RingEdges(ring)| == |ring| - 1
    ensures OneWay(es) ==> |ring| >= 4
  {
    ProperStart(ring);
    if |ring| == 3 {
      assert ring == [ring[0], ring[1], ring[0]];
      ThereAndBack(es, ring[0], ring[1]);
    }
  }

  /** What ChainEdges knows after each start: the rings accepted so far and the edges still open,
      with `taken` all edges the walks have used. */
  ghost predicate Chaining(es: seq<Edge>, open: seq<Edge>, rings: seq<Ring>, taken: multiset<Edge>) {
    && multiset(es) == multiset(open) + taken
    && multiset(AllEdges(rings)) <= taken
    && (Chainable(es) ==> Balanced(open) && multiset(AllEdges(rings)) == taken)
  }

  lemma {:induction false} ChainStep(es: seq<Edge>, open: seq<Edge>, used: seq<bool>, rings: seq<Ring>,
                                     taken: multiset<Edge>, ring: Ring)
    requires Chaining(es, open, rings, taken) && |used| == |es|
    requires |ring| >= 2 && |RingEdges(ring)| == |ring| - 1
    requires TakesOut(open, Unused(es, used), RingEdges(ring))
    requires ring[0] == ring[|ring| - 1] || forall i :: 0 <= i < |es| && !used[i] ==> es[i].a != ring[|ring| - 1]
    ensures Chaining(es, Unused(es, used), rings + [ring], taken + multiset(RingEdges(ring)))
    ensures Chainable(es) ==> |ring| >= 4 && ring[0] == ring[|ring| - 1]
    ensures !Chainable(es) ==> Chaining(es, Unused(es, used), rings, taken + multiset(RingEdges(ring)))
  {
    AllEdgesAppend(rings, ring);
    assert multiset(AllEdges(rings) + RingEdges(ring)) == multiset(AllEdges(rings)) + multiset(RingEdges(ring));
    if Chainable(es) {
      WalkCloses(es, open, used, ring);
      AtLeastThreeEdges(es, ring);
    }
  }

  lemma {:induction false} ChainStart(es: seq<Edge>, used: seq<bool>)
    requires |used| == |es| && forall i :: 0 <= i < |used| ==> !used[i]
    ensures Chaining(es, Unused(es, used), [], multiset{})
  {
    AllUnused(es, used);
  }

  lemma {:induction false} ChainEnd(es: seq<Edge>, used: seq<bool>, rings: seq<Ring>, taken: multiset<Edge>)
    requires |used| == |es| && forall i :: 0 <= i < |used| ==> used[i]
    requires Chaining(es, Unused(es, used), rings, taken)
    ensures multiset(AllEdges(rings)) <= multiset(es)
    ensures Chainable(es) ==> multiset(AllEdges(rings)) == multiset(es)
  {
    NoneUnused(es, used);
  }

  /** A walk that ends: it has come back to where it began, or none of the edges left goes on from its end. */
  ghost predicate Ends(w: Ring, left: multiset<Edge>) {
    w != [] && (w[0] == w[|w| - 1] || forall e :: e in left ==> e.a != w[|w| - 1])
  }

  /** Walk i comes back to its first point at its end or not at all, and ends there with the edges of the later
      walks and the open ones left. */
  ghost predicate WalkEnds(walks: seq<Ring>, i: nat, open: seq<Edge>)
    requires i < |walks|
  {
    var w := walks[i];
    && |w| >= 2 && |RingEdges(w)| == |w| - 1 && ComesBackLast(w)
    && Ends(w, multiset(AllEdges(walks[i + 1..])) + multiset(open))
  }

  ghost predicate AllEnd(walks: seq<Ring>, open: seq<Edge>) {
    forall i :: 0 <= i < |walks| ==> WalkEnds(walks, i, open)
  }

  /** The walks one after another: each edge is still open or belongs to exactly one of them. */
  ghost predicate Walked(es: seq<Edge>, open: seq<Edge>, walks: seq<Ring>) {
    multiset(es) == multiset(open) + multiset(AllEdges(walks)) && AllEnd(walks, open)
  }

  /** The walks that close with three edges or more. */
  function Accepted(walks: seq<Ring>): seq<Ring> {
    if walks == [] then []
    else
      var n := |walks| - 1;
      Accepted(walks[..n])
      + if |walks[n]| >= 4 && walks[n][0] == walks[n][|walks[n]| - 1] then [walks[n]] else []
  }

  /** The rings are the walks that close, of some walks that use every edge once. */
  ghost predicate ChainedFrom(es: seq<Edge>, rings: seq<Ring>) {
    exists walks :: Walked(es, [], walks) && rings == Accepted(walks)
  }

  lemma {:induction false} UnusedMember(es: seq<Edge>, used: seq<bool>, e: Edge) returns (i: nat)
    requires |used| == |es| && e in Unused(es, used)
    ensures i < |es| && !used[i] && es[i] == e
  {
    if !used[0] && es[0] == e {
      i := 0;
    } else {
      i := UnusedMember(es[1..], used[1..], e);
      i := i + 1;
    }
  }

  lemma {:induction false} WalkedStart(es: seq<Edge>)
    ensures Walked(es, es, []) && Accepted([]) == []
  {
    assert AllEdges([]) == [];
  }

  /** Later walks and open edges together stay the same when an open walk becomes the last one. */
  lemma {:induction false} OldWalkEnds(walks: seq<Ring>, i: nat, open: seq<Edge>, left: seq<Edge>, ring: Ring)
    requires i < |walks| && WalkEnds(walks, i, open) && TakesOut(open, left, RingEdges(ring))
    ensures WalkEnds(walks + [ring], i, left)
  {
    hide RingEdges, ComesBackLast, AllEdges, Ends;
    var more := walks + [ring];
    assert more[i + 1..] == walks[i + 1..] + [ring];
    AllEdgesAppend(walks[i + 1..], ring);
    SameLeft(AllEdges(walks[i + 1..]), RingEdges(ring), open, left);
  }

  lemma {:induction false} NewWalkEnds(es: seq<Edge>, walks: seq<Ring>, used: seq<bool>, ring: Ring)
    requires |used| == |es| && |ring| >= 2 && |RingEdges(ring)| == |ring| - 1 && ComesBackLast(ring)
    requires ring[0] == ring[|ring| - 1] || forall i :: 0 <= i < |es| && !used[i] ==> es[i].a != ring[|ring| - 1]
    ensures WalkEnds(walks + [ring], |walks|, Unused(es, used))
  {
    hide RingEdges, ComesBackLast, Unused;
    assert (walks + [ring])[|walks| + 1..] == [] && AllEdges([]) == [];
    forall e | e in multiset(Unused(es, used)) ensures ring[0] == ring[|ring| - 1] || e.a != ring[|ring| - 1] {
      var j := UnusedMember(es, used, e);
    }
  }

  lemma {:induction false} OneMoreEnds(walks: seq<Ring>, open: seq<Edge>, left: seq<Edge>, ring: Ring)
    requires AllEnd(walks, open) && TakesOut(open, left, RingEdges(ring))
    requires WalkEnds(walks + [ring], |walks|, left)
    ensures AllEnd(walks + [ring], left)
  {
    hide WalkEnds, TakesOut, RingEdges;
    forall i | 0 <= i < |walks| ensures WalkEnds(walks + [ring], i, left) {
      OldWalkEnds(walks, i, open, left, ring);
    }
  }

  lemma {:induction false} WalkedStep(es: seq<Edge>, open: seq<Edge>, walks: seq<Ring>, used: seq<bool>, ring: Ring)
    requires Walked(es, open, walks) && |used| == |es|
    requires |ring| >= 2 && |RingEdges(ring)| == |ring| - 1 && ComesBackLast(ring)
    requires TakesOut(open, Unused(es, used), RingEdges(ring))
    requires ring[0] == ring[|ring| - 1] || forall i :: 0 <= i < |es| && !used[i] ==> es[i].a != ring[|ring| - 1]
    ensures Walked(es, Unused(es, used), walks + [ring])
  {
    hide RingEdges, Unused, ComesBackLast, AllEdges, AllEnd, TakesOut, WalkEnds;
    AllEdgesAppend(walks, ring);
    TakenFrom(es, open, Unused(es, used), AllEdges(walks), RingEdges(ring));
    NewWalkEnds(es, walks, used, ring);
    OneMoreEnds(walks, open, Unused(es, used), ring);
  }

  lemma {:induction false} ComesLast(ring: Ring)
    requires forall k :: 0 < k < |ring| - 1 ==> ring[k] != ring[0]
    ensures ComesBackLast(ring)
  {
  }

  lemma {:induction false} TakenFrom(es: seq<Edge>, open: seq<Edge>, left: seq<Edge>, before: seq<Edge>,
                                     trail: seq<Edge>)
    requires multiset(es) == multiset(open) + multiset(before) && TakesOut(open, left, trail)
    ensures multiset(es) == multiset(left) + multiset(before + trail)
  {
  }

  lemma {:induction false} AcceptedMore(walks: seq<Ring>, ring: Ring)
    requires |ring| >= 2
    ensures Accepted(walks + [ring])
            == if |ring| >= 4 && ring[0] == ring[|ring| - 1] then Accepted(walks) + [ring] else Accepted(walks)
  {
    assert (walks + [ring])[..|walks|] == walks;
    assert Accepted(walks) + [] == Accepted(walks);
  }

  lemma {:induction false} SameLeft(later: seq<Edge>, trail: seq<Edge>, open: seq<Edge>, left: seq<Edge>)
    requires multiset(open) == multiset(left) + multiset(trail)
    ensures multiset(later + trail) + multiset(left) == multiset(later) + multiset(open)
  {
  }

  /** One round of chaining: walks from `start` and keeps the ring if it closed properly. */
  method ChainFrom(es: seq<Edge>, index: map<Point, seq<nat>>, used: array<bool>, start: nat,
                   rings: seq<Ring>, ghost taken: multiset<Edge>, ghost walks: seq<Ring>)
    returns (extended: seq<Ring>, ghost taken': multiset<Edge>, ghost walks': seq<Ring>)
    requires IndexedBy(index, es, |es|)
    requires forall e :: e in es ==> e.a != e.b
    requires used.Length == |es| && start < |es| && !used[start]
    requires Chaining(es, Unused(es, used[..]), rings, taken)
    requires Walked(es, Unused(es, used[..]), walks) && rings == Accepted(walks)
    modifies used
    ensures StaysUsed(old(used[..]), used[..]) && used[start]
    ensures Chaining(es, Unused(es, used[..]), extended, taken')
    ensures Walked(es, Unused(es, used[..]), walks') && extended == Accepted(walks')
    ensures extended == rings || exists r :: ChainedRing(r) && extended == rings + [r]
  {
    hide Walked, Accepted, Chaining, TakesOut, Unused, RingEdges, IndexedBy, Chainable;
    ghost var open := Unused(es, used[..]);
    var ring := Walk(es, index, used, start);
    ChainStep(es, open, used[..], rings, taken, ring);
    ComesLast(ring);
    WalkedStep(es, open, walks, used[..], ring);
    AcceptedMore(walks, ring);
    taken', walks' := taken + multiset(RingEdges(ring)), walks + [ring];
    if |ring| >= 4 && ring[0] == ring[|ring| - 1] {
      assert ChainedRing(ring);
      return rings + [ring], taken', walks';
    }
    return rings, taken', walks';
  }

  /** Reconnects edges into rings. Whatever the edges are, the rings are the walks that close, of walks that use
      every edge once and end only where they must; if the edges are one-way and balanced, none is left over. */
  method ChainEdges(es: seq<Edge>) returns (rings: seq<Ring>)
    requires forall e :: e in es ==> e.a != e.b
    ensures ChainedFrom(es, rings)
    ensures forall r :: r in rings ==> ChainedRing(r)
    ensures multiset(AllEdges(rings)) <= multiset(es)
    ensures Chainable(es) ==> multiset(AllEdges(rings)) == multiset(es)
  {
    hide Chaining, Unused, ChainedRing, IndexedBy, Chainable, AllEdges, Walked, Accepted;
    var index := IndexByStart(es);
    var used := new bool[|es|](_ => false);
    rings := [];
    ghost var taken: multiset<Edge> := multiset{};
    ghost var walks: seq<Ring> := [];
    ChainStart(es, used[..]);
    AllUnused(es, used[..]);
    WalkedStart(es);
    for start := 0 to |es|
      invariant forall i :: 0 <= i < start ==> used[i]
      invariant forall r :: r in rings ==> ChainedRing(r)
      invariant Chaining(es, Unused(es, used[..]), rings, taken)
      invariant Walked(es, Unused(es, used[..]), walks) && rings == Accepted(walks)
    {
      if !used[start] {
        rings, taken, walks := ChainFrom(es, index, used, start, rings, taken, walks);
      }
    }
    ChainEnd(es, used[..], rings, taken);
    NoneUnused(es, used[..]);
  }

  // ----- What dissolving guarantees -----

  lemma {:induction false} AllEdgesConcat(f: Edge -> int, rs: seq<Ring>, ss: seq<Ring>)
    ensures Sum(f, AllEdges(rs + ss)) == Sum(f, AllEdges(rs)) + Sum(f, AllEdges(ss))
  {
    if rs == [] {
      assert rs + ss == ss;
    } else {
      assert (rs + ss)[1..] == rs[1..] + ss;
      AllEdgesConcat(f, rs[1..], ss);
      SumConcat(f, RingEdges(rs[0]), AllEdges(rs[1..] + ss));
      SumConcat(f, RingEdges(rs[0]), AllEdges(rs[1..]));
    }
  }

  /** The outcome of a dissolve: closed rings that use up every surviving edge exactly once. */
  ghost predicate UsesEverySurvivor(rings: seq<Ring>, chained: seq<Ring>) {
    (forall r :: r in chained ==> Closed(r)) && multiset(AllEdges(chained)) == multiset(Survivors(rings))
  }

  /** At every vertex the borders that cancel leave as often as they enter. */
  ghost predicate CancelsEvenly(rings: seq<Ring>) {
    Balanced(Lost(rings))
  }

  /** The rings Dissolve chains from a group of rings. For closed input they use up every surviving
      edge exactly when the cancelled borders balance. */
  method DissolveRings(rings: seq<Ring>) returns (chained: seq<Ring>)
    ensures ChainedFrom(Survivors(rings), chained)
    ensures forall r :: r in chained ==> ChainedRing(r)
    ensures multiset(AllEdges(chained)) <= multiset(Survivors(rings))
    ensures (forall r :: r in rings ==> Closed(r)) ==> (UsesEverySurvivor(rings, chained) <==> CancelsEvenly(rings))
  {
    var surviving := CancelSharedEdges(rings);
    SurvivorsOneWay(rings);
    chained := ChainEdges(surviving);
    if forall r :: r in rings ==> Closed(r) {
      SurvivorsChainIff(rings);
      assert CancelsEvenly(rings) ==> UsesEverySurvivor(rings, chained);
    }
  }

  /** For closed input rings, closed rings can use up the survivors only if the cancelled edges
      balance at every vertex. */
  lemma {:induction false} SurvivorsChainIff(rings: seq<Ring>)
    requires forall r :: r in rings ==> Closed(r)
    ensures Balanced(Survivors(rings)) <==> CancelsEvenly(rings)
    ensures forall chained :: UsesEverySurvivor(rings, chained) ==> CancelsEvenly(rings)
  {
    var es := AllEdges(rings);
    var c := Cancelled(es, EdgeSet(es));
    forall v ensures Sum(Net(v), Survivors(rings)) + Sum(Net(v), c) == 0 {
      KeepOrCancel(Net(v), es, EdgeSet(es));
      AllClosedNet(rings, v);
    }
    forall chained | UsesEverySurvivor(rings, chained) ensures Balanced(Survivors(rings)) {
      forall v ensures Sum(Net(v), Survivors(rings)) == 0 {
        AllClosedNet(chained, v);
        SumPermutation(Net(v), AllEdges(chained), Survivors(rings));
      }
    }
  }

  /** Evenly shared borders meet that condition. */
  lemma {:induction false} EvenlySharedChains(rings: seq<Ring>)
    requires forall r :: r in rings ==> Closed(r)
    requires EvenlyShared(AllEdges(rings))
    ensures CancelsEvenly(rings)
  {
    SurvivorsChainIff(rings);
    forall v ensures Sum(Net(v), Survivors(rings)) == 0 {
      Antisymmetries(v);
      CancellationConserves(Net(v), rings);
      AllClosedNet(rings, v);
    }
  }

  /** Dissolving conserves every antisymmetric total of the borders. */
  lemma {:induction false} DissolveConserves(f: Edge -> int, rings: seq<Ring>, chained: seq<Ring>)
    requires Antisymmetric(f) && EvenlyShared(AllEdges(rings))
    requires UsesEverySurvivor(rings, chained)
    ensures Sum(f, AllEdges(chained)) == Sum(f, AllEdges(rings))
  {
    CancellationConserves(f, rings);
    SumPermutation(f, AllEdges(chained), Survivors(rings));
  }

  ghost function TotalArea(rings: seq<Ring>): int {
    if rings == [] then 0 else Shoelace(rings[0]) + TotalArea(rings[1..])
  }

  lemma {:induction false} TotalAreaOfEdges(rings: seq<Ring>)
    ensures TotalArea(rings) == Sum(Cross, AllEdges(rings))
  {
    if rings != [] {
      ShoelaceOfEdges(rings[0]);
      SumConcat(Cross, RingEdges(rings[0]), AllEdges(rings[1..]));
      TotalAreaOfEdges(rings[1..]);
    }
  }

  /** How often the rings wind around a point, by the crossings of the ray to its right. */
  ghost function WindingNumber(rings: seq<Ring>, p: Point): int {
    Sum(Windings(p), AllEdges(rings))
  }

  /** The even-odd rule over all rings: Contains in geometry.go. */
  ghost function Crossings(p: Point, es: seq<Edge>): nat {
    if es == [] then 0 else (if Crosses(p, es[0]) then 1 else 0) + Crossings(p, es[1..])
  }

  lemma {:induction false} CrossingParity(p: Point, es: seq<Edge>)
    ensures Crossings(p, es) % 2 == Sum(Windings(p), es) % 2
  {
    hide Crosses, Winding;
    if es != [] {
      CrossingParity(p, es[1..]);
      WindingIsCrossing(p, es[0]);
      var crossed := if Crosses(p, es[0]) then 1 else 0;
      SameParity(Crossings(p, es[1..]), Sum(Windings(p), es[1..]), crossed, Winding(p, es[0]));
    }
  }

  lemma {:induction false} WindingIsCrossing(p: Point, e: Edge)
    ensures Winding(p, e) % 2 == if Crosses(p, e) then 1 else 0
  {
    var w := Winding(p, e);
    assert w == 0 || w == 1 || w == -1;
  }

  lemma {:induction false} SameParity(a: int, b: int, m: int, n: int)
    requires a % 2 == b % 2 && m % 2 == n % 2
    ensures (m + a) % 2 == (n + b) % 2
  {
  }

  /** A dissolve takes from any total exactly what the cancelled edges add to it, so the totals that survive
      are those to which they add nothing ... */
  lemma {:induction false} TotalLost(f: Edge -> int, rings: seq<Ring>, chained: seq<Ring>)
    requires UsesEverySurvivor(rings, chained)
    ensures Sum(f, AllEdges(chained)) == Sum(f, AllEdges(rings)) - Sum(f, Lost(rings))
  {
    SumPermutation(f, AllEdges(chained), Survivors(rings));
    KeepOrCancel(f, AllEdges(rings), EdgeSet(AllEdges(rings)));
  }

  /** ... area and winding numbers among them; and all the antisymmetric totals survive exactly when every
      border is shared evenly. */
  lemma {:induction false} CoverageSurvivesIff(rings: seq<Ring>, chained: seq<Ring>, p: Point)
    requires UsesEverySurvivor(rings, chained)
    ensures TotalArea(chained) == TotalArea(rings) <==> Sum(Cross, Lost(rings)) == 0
    ensures WindingNumber(chained, p) == WindingNumber(rings, p) <==> Sum(Windings(p), Lost(rings)) == 0
    ensures (forall f :: Antisymmetric(f) ==> Sum(f, AllEdges(chained)) == Sum(f, AllEdges(rings)))
            <==> EvenlyShared(AllEdges(rings))
  {
    hide Sum;
    TotalAreaOfEdges(rings);
    TotalAreaOfEdges(chained);
    TotalLost(Cross, rings, chained);
    TotalLost(Windings(p), rings, chained);
    ConservedIffEvenlyShared(rings);
    forall f: Edge -> int ensures Sum(f, AllEdges(chained)) == Sum(f, Survivors(rings)) {
      SumPermutation(f, AllEdges(chained), Survivors(rings));
    }
  }

  /** The main result: area, winding numbers and the even-odd interior all survive a dissolve. */
  lemma {:induction false} DissolvePreservesCoverage(rings: seq<Ring>, chained: seq<Ring>, p: Point)
    requires EvenlyShared(AllEdges(rings))
    requires UsesEverySurvivor(rings, chained)
    ensures TotalArea(chained) == TotalArea(rings)
    ensures WindingNumber(chained, p) == WindingNumber(rings, p)
    ensures Crossings(p, AllEdges(chained)) % 2 == Crossings(p, AllEdges(rings)) % 2
  {
    Antisymmetries(p);
    TotalAreaOfEdges(rings);
    TotalAreaOfEdges(chained);
    DissolveConserves(Cross, rings, chained);
    DissolveConserves(Windings(p), rings, chained);
    CrossingParity(p, AllEdges(rings));
    CrossingParity(p, AllEdges(chained));
  }
}
