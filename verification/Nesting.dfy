/** Points in rings and polygons (internal/geo/geometry.go), and the nesting of holes in exteriors
    (NestHoles of internal/geo/dissolve.go). */
module Nesting {
  import opened Geometry
  import opened Dissolve
  import opened Sequences

  // ----- The even-odd test -----

  /** The edge into the i-th point; the ring is closed from its last point to its first. */
  function EdgeInto(r: Ring, i: nat): Edge
    requires i < |r|
  {
    Edge(r[if i == 0 then |r| - 1 else i - 1], r[i])
  }

  /** How many of the edges into the first n points the ray from p meets. */
  function CrossingsInto(r: Ring, p: Point, n: nat): nat
    requires n <= |r|
  {
    if n == 0 then 0 else CrossingsInto(r, p, n - 1) + if Crosses(p, EdgeInto(r, n - 1)) then 1 else 0
  }

  predicate Odd(n: nat) {
    n % 2 == 1
  }

  lemma {:induction false} OddSum(m: nat, n: nat)
    ensures Odd(m + n) <==> Odd(m) != Odd(n)
  {
  }

  predicate Inside(r: Ring, p: Point) {
    Odd(CrossingsInto(r, p, |r|))
  }

  method RingContainsPoint(r: Ring, p: Point) returns (inside: bool)
    ensures inside == Inside(r, p)
  {
    hide Odd, Crosses;
    inside := false;
    NotOdd();
    var j := |r| - 1;
    for i := 0 to |r|
      invariant j == if i == 0 then |r| - 1 else i - 1
      invariant inside == Odd(CrossingsInto(r, p, i))
    {
      OddSum(CrossingsInto(r, p, i), if Crosses(p, EdgeInto(r, i)) then 1 else 0);
      if Crosses(p, Edge(r[j], r[i])) {
        inside := !inside;
      }
      j := i;
    }
  }

  lemma {:induction false} NotOdd()
    ensures !Odd(0) && Odd(1)
  {
  }

  lemma {:induction false} CrossingsAppend(p: Point, es: seq<Edge>, fs: seq<Edge>)
    ensures Crossings(p, es + fs) == Crossings(p, es) + Crossings(p, fs)
  {
    hide Crosses;
    if es == [] {
      assert es + fs == fs;
    } else {
      assert (es + fs)[1..] == es[1..] + fs;
      CrossingsAppend(p, es[1..], fs);
    }
  }

  lemma {:induction false} LevelNotCrossed(p: Point, a: Point)
    ensures !Crosses(p, Edge(a, a))
  {
  }

  lemma {:induction false} OneCrossing(p: Point, e: Edge)
    ensures Crossings(p, [e]) == (if Crosses(p, e) then 1 else 0) && Crossings(p, []) == 0
  {
    hide Crosses;
    assert [e][1..] == [];
  }

  lemma {:induction false} CrossingsOfPrefix(r: Ring, p: Point, n: nat)
    requires Closed(r) && 0 < n <= |r|
    ensures CrossingsInto(r, p, n) == Crossings(p, RingEdges(r[..n]))
  {
    hide Crosses, Crossings;
    if n == 1 {
      LevelNotCrossed(p, r[0]);
      assert RingEdges(r[..1]) == [] && CrossingsInto(r, p, 1) == CrossingsInto(r, p, 0);
      OneCrossing(p, EdgeInto(r, 0));
    } else {
      CrossingsOfPrefix(r, p, n - 1);
      assert r[..n] == r[..n - 1] + [r[n - 1]];
      hide RingEdges;
      RingEdgesAppend(r[..n - 1], r[n - 1]);
      LevelNotCrossed(p, r[n - 1]);
      var e := EdgeInto(r, n - 1);
      OneCrossing(p, e);
      CrossingsAppend(p, RingEdges(r[..n - 1]), if e.a == e.b then [] else [e]);
    }
  }

  /** For a closed ring the test counts the crossings of the ring's edges. */
  lemma {:induction false} InsideClosed(r: Ring, p: Point)
    requires Closed(r)
    ensures Inside(r, p) <==> Odd(Crossings(p, RingEdges(r)))
  {
    hide Crosses, Odd;
    if r != [] {
      CrossingsOfPrefix(r, p, |r|);
      assert r[..|r|] == r;
    }
  }

  /** The even-odd rule over all the rings of some polygons. */
  method Contains(mp: seq<Polygon>, p: Point) returns (inside: bool)
    ensures (forall r :: r in RingsOf(mp) ==> Closed(r)) ==> inside == Odd(Crossings(p, AllEdges(RingsOf(mp))))
  {
    hide Inside, Odd, Crossings, RingEdges, RingsOf, AllEdges, Closed;
    inside := false;
    ghost var before := false;
    NothingContains(p);
    for i := 0 to |mp|
      invariant inside == OddRings(RingsOf(mp[..i]), p)
    {
      var rings := mp[i].rings;
      assert mp[..i + 1] == mp[..i] + [mp[i]];
      RingsOfAppend(mp[..i], mp[i]);
      ghost var done := RingsOf(mp[..i]);
      assert done + rings[..0] == done;
      for j := 0 to |rings|
        invariant inside == OddRings(done + rings[..j], p)
      {
        assert done + rings[..j + 1] == (done + rings[..j]) + [rings[j]];
        OneMoreRing(done + rings[..j], rings[j], p);
        var within := RingContainsPoint(rings[j], p);
        if within {
          inside := !inside;
        }
      }
      assert rings[..|rings|] == rings;
    }
    assert mp[..|mp|] == mp;
    OddRingsClosed(RingsOf(mp), p);
  }

  /** Whether p is inside an odd number of the rings. */
  predicate OddRings(rings: seq<Ring>, p: Point) {
    if rings == [] then false
    else OddRings(rings[..|rings| - 1], p) != Inside(rings[|rings| - 1], p)
  }

  lemma {:induction false} NothingContains(p: Point)
    ensures RingsOf([]) == [] && !OddRings([], p)
  {
  }

  lemma {:induction false} OneMoreRing(rings: seq<Ring>, r: Ring, p: Point)
    ensures OddRings(rings + [r], p) <==> OddRings(rings, p) != Inside(r, p)
  {
    assert (rings + [r])[..|rings|] == rings;
  }

  lemma {:induction false} OddRingsClosed(rings: seq<Ring>, p: Point)
    ensures (forall r :: r in rings ==> Closed(r)) ==> OddRings(rings, p) == Odd(Crossings(p, AllEdges(rings)))
  {
    hide Inside, Odd, Crossings, RingEdges, AllEdges, Closed;
    if forall r :: r in rings ==> Closed(r) {
      if rings == [] {
        NoRingsCross(p);
      } else {
        var n := |rings| - 1;
        OddRingsClosed(rings[..n], p);
        assert rings == rings[..n] + [rings[n]];
        AllEdgesAppend(rings[..n], rings[n]);
        CrossingsAppend(p, AllEdges(rings[..n]), RingEdges(rings[n]));
        InsideClosed(rings[n], p);
        OddSum(Crossings(p, AllEdges(rings[..n])), Crossings(p, RingEdges(rings[n])));
      }
    }
  }

  lemma {:induction false} NoRingsCross(p: Point)
    ensures !Odd(Crossings(p, AllEdges([])))
  {
  }

  // ----- The innermost exterior -----

  function Size(r: Ring): nat {
    if Shoelace(r) < 0 then -Shoelace(r) else Shoelace(r)
  }

  /** h is the first of the smallest among the first n exteriors around p, or -1 if none is around p. */
  ghost predicate Innermost(exteriors: seq<Ring>, p: Point, n: nat, h: int)
    requires n <= |exteriors|
  {
    if h < 0 then forall i :: 0 <= i < n ==> !Inside(exteriors[i], p)
    else
      && h < n && Inside(exteriors[h], p)
      && forall i :: 0 <= i < n && Inside(exteriors[i], p) ==>
           Size(exteriors[h]) <= Size(exteriors[i]) && (i < h ==> Size(exteriors[h]) < Size(exteriors[i]))
  }

  /** The exterior a hole belongs to, of the first n; a hole without points belongs to none. */
  function HomeAmong(exteriors: seq<Ring>, hole: Ring, n: nat): (h: int)
    requires n <= |exteriors|
    ensures -1 <= h < n
    ensures if hole == [] then h == -1 else Innermost(exteriors, hole[0], n, h)
  {
    if n == 0 then -1
    else
      var best := HomeAmong(exteriors, hole, n - 1);
      if hole == [] || !Inside(exteriors[n - 1], hole[0]) then best
      else if best < 0 || Size(exteriors[n - 1]) < Size(exteriors[best]) then n - 1
      else best
  }

  function Home(exteriors: seq<Ring>, hole: Ring): (h: int)
    ensures -1 <= h < |exteriors|
  {
    HomeAmong(exteriors, hole, |exteriors|)
  }

  method FindHome(exteriors: seq<Ring>, hole: Ring) returns (best: int)
    ensures best == Home(exteriors, hole)
  {
    hide Inside, Innermost;
    best := -1;
    var bestArea: nat := 0;
    for i := 0 to |exteriors|
      invariant best == HomeAmong(exteriors, hole, i)
      invariant best >= 0 ==> bestArea == Size(exteriors[best])
    {
      if |hole| > 0 {
        var around := RingContainsPoint(exteriors[i], hole[0]);
        if around {
          var sum := ShoelaceSum(exteriors[i]);
          var area := if sum < 0 then -sum else sum;
          if best < 0 || area < bestArea {
            best, bestArea := i, area;
          }
        }
      }
    }
  }

  // ----- Nesting -----

  /** The holes that belong to exterior i, in order; to -1 belong those that are dropped. */
  function HolesOf(exteriors: seq<Ring>, holes: seq<Ring>, i: int): seq<Ring> {
    if holes == [] then []
    else
      var n := |holes| - 1;
      HolesOf(exteriors, holes[..n], i) + if Home(exteriors, holes[n]) == i then [holes[n]] else []
  }

  function Nested(exteriors: seq<Ring>, holes: seq<Ring>): (polys: seq<Polygon>)
    ensures |polys| == |exteriors|
  {
    seq(|exteriors|, i requires 0 <= i < |exteriors| => Polygon([exteriors[i]] + HolesOf(exteriors, holes, i)))
  }

  lemma {:induction false} NothingNested(exteriors: seq<Ring>, polys: seq<Polygon>)
    requires |polys| == |exteriors| && forall i :: 0 <= i < |polys| ==> polys[i] == Polygon([exteriors[i]])
    ensures Nested(exteriors, []) == polys && HolesOf(exteriors, [], -1) == []
  {
    forall i | 0 <= i < |polys| ensures Nested(exteriors, [])[i] == polys[i] {
      assert [exteriors[i]] + [] == [exteriors[i]];
    }
  }

  lemma {:induction false} HolesOfMore(exteriors: seq<Ring>, holes: seq<Ring>, hole: Ring, i: int)
    ensures HolesOf(exteriors, holes + [hole], i)
            == HolesOf(exteriors, holes, i) + if Home(exteriors, hole) == i then [hole] else []
  {
    hide Home;
    assert (holes + [hole])[..|holes|] == holes;
  }

  /** One more hole goes to the end of its polygon, and nothing else changes. */
  lemma {:induction false} NestedMore(exteriors: seq<Ring>, holes: seq<Ring>, hole: Ring)
    ensures var h, polys := Home(exteriors, hole), Nested(exteriors, holes);
            Nested(exteriors, holes + [hole])
            == if h < 0 then polys else polys[h := Polygon(polys[h].rings + [hole])]
  {
    hide Home, HolesOf;
    var h, polys := Home(exteriors, hole), Nested(exteriors, holes);
    var more := if h < 0 then polys else polys[h := Polygon(polys[h].rings + [hole])];
    forall i | 0 <= i < |exteriors| ensures Nested(exteriors, holes + [hole])[i] == more[i] {
      HolesOfMore(exteriors, holes, hole, i);
      Associate([exteriors[i]], HolesOf(exteriors, holes, i), [hole]);
      assert HolesOf(exteriors, holes, i) + [] == HolesOf(exteriors, holes, i);
    }
  }

  method NestHoles(exteriors: seq<Ring>, holes: seq<Ring>) returns (polys: seq<Polygon>)
    ensures polys == Nested(exteriors, holes)
  {
    hide Nested, Home;
    polys := [];
    for i := 0 to |exteriors|
      invariant |polys| == i && forall k :: 0 <= k < i ==> polys[k] == Polygon([exteriors[k]])
    {
      polys := polys + [Polygon([exteriors[i]])];
    }
    NothingNested(exteriors, polys);
    assert holes[..0] == [];
    for i := 0 to |holes|
      invariant |polys| == |exteriors| && polys == Nested(exteriors, holes[..i])
    {
      NestedMore(exteriors, holes[..i], holes[i]);
      assert holes[..i + 1] == holes[..i] + [holes[i]];
      var best := FindHome(exteriors, holes[i]);
      if best >= 0 {
        polys := polys[best := Polygon(polys[best].rings + [holes[i]])];
      }
    }
    assert holes[..|holes|] == holes;
  }

  // ----- What nesting keeps -----

  lemma {:induction false} RingsOfCons(poly: Polygon, rest: seq<Polygon>)
    ensures multiset(RingsOf([poly] + rest)) == multiset(poly.rings) + multiset(RingsOf(rest))
  {
  }

  lemma {:induction false} HoleLast(rings: seq<Ring>, hole: Ring)
    ensures multiset(rings + [hole]) == multiset(rings) + multiset{hole}
  {
  }

  lemma {:induction false} SumSwapped<T>(a: multiset<T>, b: multiset<T>, c: multiset<T>)
    ensures a + (b + c) == b + (a + c) && (a + c) + b == (a + b) + c == a + (b + c)
  {
  }

  lemma {:induction false} RingsOfUpdate(mp: seq<Polygon>, h: nat, hole: Ring)
    requires h < |mp|
    ensures multiset(RingsOf(mp[h := Polygon(mp[h].rings + [hole])])) == multiset(RingsOf(mp)) + multiset{hole}
  {
    hide RingsOf;
    var poly, rest := Polygon(mp[h].rings + [hole]), mp[1..];
    var more := mp[h := poly];
    assert mp == [mp[0]] + rest;
    RingsOfCons(mp[0], rest);
    if h == 0 {
      assert more == [poly] + rest;
      RingsOfCons(poly, rest);
      HoleLast(mp[0].rings, hole);
      SumSwapped(multiset(mp[0].rings), multiset(RingsOf(rest)), multiset{hole});
    } else {
      assert more == [mp[0]] + rest[h - 1 := poly];
      RingsOfCons(mp[0], rest[h - 1 := poly]);
      RingsOfUpdate(rest, h - 1, hole);
      SumSwapped(multiset(mp[0].rings), multiset(RingsOf(rest)), multiset{hole});
    }
  }

  lemma {:induction false} RingsOfSingles(exteriors: seq<Ring>, polys: seq<Polygon>)
    requires |polys| == |exteriors| && forall i :: 0 <= i < |polys| ==> polys[i] == Polygon([exteriors[i]])
    ensures RingsOf(polys) == exteriors
  {
    if polys != [] {
      RingsOfSingles(exteriors[1..], polys[1..]);
      assert [exteriors[0]] + exteriors[1..] == exteriors;
    }
  }

  /** Every exterior and every hole is in exactly one place: in one polygon, or dropped. */
  lemma {:induction false} EachRingOnce(exteriors: seq<Ring>, holes: seq<Ring>)
    ensures multiset(RingsOf(Nested(exteriors, holes))) + multiset(HolesOf(exteriors, holes, -1))
            == multiset(exteriors) + multiset(holes)
  {
    hide Nested, Home, HolesOf, RingsOf;
    if holes == [] {
      var polys := seq(|exteriors|, i requires 0 <= i < |exteriors| => Polygon([exteriors[i]]));
      NothingNested(exteriors, polys);
      RingsOfSingles(exteriors, polys);
    } else {
      var n := |holes| - 1;
      var before, hole := holes[..n], holes[n];
      assert holes == before + [hole];
      EachRingOnce(exteriors, before);
      NestedMore(exteriors, before, hole);
      HolesOfMore(exteriors, before, hole, -1);
      var polys, h := Nested(exteriors, before), Home(exteriors, hole);
      if h >= 0 {
        RingsOfUpdate(polys, h, hole);
      }
      OneMoreRingOnce(multiset(RingsOf(polys)), multiset(HolesOf(exteriors, before, -1)), multiset(exteriors),
                      multiset(before), hole);
    }
  }

  lemma {:induction false} OneMoreRingOnce(nested: multiset<Ring>, dropped: multiset<Ring>, exteriors: multiset<Ring>,
                                           holes: multiset<Ring>, hole: Ring)
    requires nested + dropped == exteriors + holes
    ensures (nested + multiset{hole}) + dropped == exteriors + (holes + multiset{hole})
    ensures nested + (dropped + multiset{hole}) == exteriors + (holes + multiset{hole})
  {
    var all := exteriors + (holes + multiset{hole});
    forall r ensures ((nested + multiset{hole}) + dropped)[r] == all[r]
             ensures (nested + (dropped + multiset{hole}))[r] == all[r]
    {
      assert (nested + dropped)[r] == (exteriors + holes)[r];
    }
  }

  lemma {:induction false} AllEdgesCons(r: Ring, rest: seq<Ring>)
    ensures multiset(AllEdges([r] + rest)) == multiset(RingEdges(r)) + multiset(AllEdges(rest))
  {
    hide RingEdges;
  }

  lemma {:induction false} AllEdgesWithout(rings: seq<Ring>, k: nat)
    requires k < |rings|
    ensures multiset(AllEdges(rings)) == multiset(RingEdges(rings[k])) + multiset(AllEdges(rings[..k] + rings[k + 1..]))
  {
    hide RingEdges, AllEdges;
    var rest := rings[1..];
    assert rings == [rings[0]] + rest;
    AllEdgesCons(rings[0], rest);
    if k == 0 {
      assert rings[..0] + rings[1..] == rest;
    } else {
      var later := rest[..k - 1] + rest[k..];
      AllEdgesWithout(rest, k - 1);
      assert rings[..k] + rings[k + 1..] == [rings[0]] + later;
      AllEdgesCons(rings[0], later);
      SumSwapped(multiset(RingEdges(rings[0])), multiset(RingEdges(rings[k])), multiset(AllEdges(later)));
    }
  }

  /** The edges do not depend on the order of the rings. */
  lemma {:induction false} AllEdgesPermuted(rs: seq<Ring>, ss: seq<Ring>)
    requires multiset(rs) == multiset(ss)
    ensures multiset(AllEdges(rs)) == multiset(AllEdges(ss))
  {
    hide AllEdges, RingEdges;
    if rs == [] {
      NothingIn(ss);
    } else {
      var k := Occurs(rs, ss);
      Removed(rs, 0);
      Removed(ss, k);
      AllEdgesPermuted(rs[..0] + rs[1..], ss[..k] + ss[k + 1..]);
      AllEdgesWithout(rs, 0);
      AllEdgesWithout(ss, k);
    }
  }

  /** Any total over the edges is split between what is nested and what is dropped. */
  lemma {:induction false} NestedTotal(f: Edge -> int, exteriors: seq<Ring>, holes: seq<Ring>)
    ensures Sum(f, AllEdges(RingsOf(Nested(exteriors, holes)))) + Sum(f, AllEdges(HolesOf(exteriors, holes, -1)))
            == Sum(f, AllEdges(exteriors + holes))
  {
    hide AllEdges, Sum, RingsOf, Nested, HolesOf;
    EachRingOnce(exteriors, holes);
    var nested, dropped := RingsOf(Nested(exteriors, holes)), HolesOf(exteriors, holes, -1);
    AllEdgesPermuted(nested + dropped, exteriors + holes);
    SumPermutation(f, AllEdges(nested + dropped), AllEdges(exteriors + holes));
    AllEdgesConcat(f, nested, dropped);
  }

  /** Each hole of a polygon has that polygon's exterior around its first point, and no smaller one. */
  lemma {:induction false} NestedInside(exteriors: seq<Ring>, holes: seq<Ring>, i: nat, hole: Ring)
    requires i < |exteriors| && hole in HolesOf(exteriors, holes, i)
    ensures hole in holes && hole != [] && Innermost(exteriors, hole[0], |exteriors|, i)
  {
    hide Innermost;
    var n := |holes| - 1;
    if hole in HolesOf(exteriors, holes[..n], i) {
      NestedInside(exteriors, holes[..n], i, hole);
    }
  }

  /** A hole is dropped exactly when it has no points or no exterior is around its first one. */
  lemma {:induction false} DroppedIff(exteriors: seq<Ring>, holes: seq<Ring>, hole: Ring)
    ensures hole in HolesOf(exteriors, holes, -1) <==>
              hole in holes && (hole == [] || forall e :: e in exteriors ==> !Inside(e, hole[0]))
  {
    hide Inside;
    if holes != [] {
      var n := |holes| - 1;
      DroppedIff(exteriors, holes[..n], hole);
      assert holes == holes[..n] + [holes[n]];
      HomelessIff(exteriors, holes[n]);
    }
  }

  lemma {:induction false} HomelessIff(exteriors: seq<Ring>, hole: Ring)
    ensures Home(exteriors, hole) == -1 <==> hole == [] || forall e :: e in exteriors ==> !Inside(e, hole[0])
  {
    hide Inside, Size;
    var h := Home(exteriors, hole);
    if h >= 0 {
      assert exteriors[h] in exteriors;
    }
  }
}
