/** Dissolving whole polygons (internal/geo/dissolve.go): normalise, drop duplicates, cancel and chain, split
    the rings by winding and nest the holes. */
module DissolveGroup {
  import opened Geometry
  import opened Signatures
  import opened Dissolve
  import opened Nesting

  function Flatten(members: seq<seq<Polygon>>): seq<Polygon> {
    if members == [] then [] else members[0] + Flatten(members[1..])
  }

  lemma {:induction false} FlattenAppend(members: seq<seq<Polygon>>, mp: seq<Polygon>)
    ensures Flatten(members + [mp]) == Flatten(members) + mp
  {
    if members == [] {
      assert Flatten([mp]) == mp + Flatten([]);
    } else {
      assert (members + [mp])[1..] == members[1..] + [mp];
      FlattenAppend(members[1..], mp);
    }
  }

  lemma {:induction false} FlattenHas(members: seq<seq<Polygon>>, p: Polygon)
    ensures p in Flatten(members) <==> exists m :: m in members && p in m
  {
    if members != [] {
      FlattenHas(members[1..], p);
      assert members == [members[0]] + members[1..];
      if exists m :: m in members && p in m {
        var m :| m in members && p in m;
        assert m == members[0] || m in members[1..];
      }
    }
  }

  // ----- Normalising keeps the encodable range and fixes the signs of the areas -----

  lemma {:induction false} NormalizedRingsEncodable(rings: seq<Ring>, first: bool)
    requires Encodable(Polygon(rings))
    ensures Encodable(Polygon(NormalizedRings(rings, first)))
  {
    if rings != [] {
      assert forall r :: r in rings[1..] ==> r in rings;
      NormalizedRingsEncodable(rings[1..], false);
      assert rings[0] in Polygon(rings).rings;
      ReversedInRange(rings[0]);
    }
  }

  lemma {:induction false} NormalizedEncodable(mp: seq<Polygon>)
    requires AllEncodable(mp)
    ensures AllEncodable(Normalized(mp))
  {
    if mp != [] {
      assert mp[0] in mp;
      NormalizedRingsEncodable(mp[0].rings, true);
      assert forall p :: p in mp[1..] ==> p in mp;
      NormalizedEncodable(mp[1..]);
    }
  }

  function Abs(x: int): nat {
    if x < 0 then -x else x
  }

  ghost function AbsArea(rings: seq<Ring>): nat {
    if rings == [] then 0 else Abs(Shoelace(rings[0])) + AbsArea(rings[1..])
  }

  /** Twice the area a polygon covers: its exterior without its holes. */
  ghost function PolygonArea(poly: Polygon): int {
    Abs(Shoelace(Exterior(poly))) - AbsArea(Holes(poly))
  }

  ghost function GroupArea(mp: seq<Polygon>): int {
    if mp == [] then 0 else PolygonArea(mp[0]) + GroupArea(mp[1..])
  }

  ghost predicate Wound(poly: Polygon) {
    && Shoelace(Exterior(poly)) >= 0
    && forall h :: h in Holes(poly) ==> Shoelace(h) <= 0
  }

  lemma {:induction false} NormalizedHolesWound(rings: seq<Ring>)
    ensures forall h :: h in NormalizedRings(rings, false) ==> Shoelace(h) <= 0
  {
    if rings != [] {
      OrientedWinding(rings[0], true);
      NormalizedHolesWound(rings[1..]);
    }
  }

  lemma {:induction false} NormalizedWound(mp: seq<Polygon>)
    ensures forall p :: p in Normalized(mp) ==> Wound(p)
  {
    if mp != [] {
      var rings := mp[0].rings;
      if rings != [] {
        OrientedWinding(rings[0], false);
        NormalizedHolesWound(rings[1..]);
        assert Holes(Polygon(NormalizedRings(rings, true))) == NormalizedRings(rings[1..], false);
      }
      NormalizedWound(mp[1..]);
    }
  }

  lemma {:induction false} HolesArea(rings: seq<Ring>)
    requires forall h :: h in rings ==> Shoelace(h) <= 0
    ensures TotalArea(rings) + AbsArea(rings) == 0
  {
    if rings != [] {
      HolesArea(rings[1..]);
    }
  }

  lemma {:induction false} TotalAreaConcat(rs: seq<Ring>, ss: seq<Ring>)
    ensures TotalArea(rs + ss) == TotalArea(rs) + TotalArea(ss)
  {
    if rs == [] {
      assert rs + ss == ss;
    } else {
      assert (rs + ss)[1..] == rs[1..] + ss;
      TotalAreaConcat(rs[1..], ss);
    }
  }

  /** Among properly wound polygons the signed total is the covered area. */
  lemma {:induction false} WoundArea(mp: seq<Polygon>)
    requires forall p :: p in mp ==> Wound(p)
    ensures TotalArea(RingsOf(mp)) == GroupArea(mp)
  {
    if mp != [] {
      assert mp[0] in mp;
      var rings := mp[0].rings;
      TotalAreaConcat(rings, RingsOf(mp[1..]));
      if rings != [] {
        HolesArea(rings[1..]);
        assert Holes(mp[0]) == rings[1..];
      }
      WoundArea(mp[1..]);
    }
  }

  // ----- Splitting by winding -----

  function WithWinding(rings: seq<Ring>, clockwise: bool): seq<Ring> {
    if rings == [] then []
    else (if IsClockwise(rings[0]) == clockwise then [rings[0]] else []) + WithWinding(rings[1..], clockwise)
  }

  lemma {:induction false} WithWindingAppend(rings: seq<Ring>, r: Ring, clockwise: bool)
    ensures WithWinding(rings + [r], clockwise)
         == WithWinding(rings, clockwise) + (if IsClockwise(r) == clockwise then [r] else [])
  {
    hide IsClockwise;
    if rings == [] {
      assert WithWinding([r], clockwise)
             == (if IsClockwise(r) == clockwise then [r] else []) + WithWinding([], clockwise);
    } else {
      var one := if IsClockwise(r) == clockwise then [r] else [];
      var first := if IsClockwise(rings[0]) == clockwise then [rings[0]] else [];
      var rest := WithWinding(rings[1..], clockwise);
      assert (rings + [r])[1..] == rings[1..] + [r] && (rings + [r])[0] == rings[0];
      WithWindingAppend(rings[1..], r, clockwise);
      hide WithWinding;
      assert first + (rest + one) == (first + rest) + one;
    }
  }

  method SplitByWinding(rings: seq<Ring>) returns (exteriors: seq<Ring>, holes: seq<Ring>)
    ensures exteriors == WithWinding(rings, false) && holes == WithWinding(rings, true)
  {
    exteriors, holes := [], [];
    for i := 0 to |rings|
      invariant exteriors == WithWinding(rings[..i], false) && holes == WithWinding(rings[..i], true)
    {
      var r := rings[i];
      assert rings[..i + 1] == rings[..i] + [r];
      WithWindingAppend(rings[..i], r, false);
      WithWindingAppend(rings[..i], r, true);
      var sum := ShoelaceSum(r);
      if sum < 0 {
        holes := holes + [r];
      } else {
        exteriors := exteriors + [r];
      }
    }
    assert rings[..|rings|] == rings;
  }

  function Classified(rings: seq<Ring>): seq<Polygon> {
    Nested(WithWinding(rings, false), WithWinding(rings, true))
  }

  /** The holes that no exterior is around. */
  function Dropped(rings: seq<Ring>): seq<Ring> {
    HolesOf(WithWinding(rings, false), WithWinding(rings, true), -1)
  }

  method ClassifyRings(rings: seq<Ring>) returns (polys: seq<Polygon>)
    ensures polys == Classified(rings)
  {
    hide WithWinding;
    var exteriors, holes := SplitByWinding(rings);
    polys := NestHoles(exteriors, holes);
  }

  /** The polygons and the holes that are dropped make up any total over all the rings. */
  lemma {:induction false} ClassifiedTotal(f: Edge -> int, rings: seq<Ring>)
    ensures Sum(f, AllEdges(RingsOf(Classified(rings)))) + Sum(f, AllEdges(Dropped(rings))) == Sum(f, AllEdges(rings))
  {
    hide Sum, AllEdges, WithWinding, Nested, HolesOf;
    NestedTotal(f, WithWinding(rings, false), WithWinding(rings, true));
    AllEdgesConcat(f, WithWinding(rings, false), WithWinding(rings, true));
    ClassifiedSum(f, rings);
  }

  lemma {:induction false} WindingKept(rings: seq<Ring>)
    ensures forall r :: r in WithWinding(rings, false) ==> r in rings && !IsClockwise(r)
    ensures forall r :: r in WithWinding(rings, true) ==> r in rings && IsClockwise(r)
  {
    if rings != [] {
      WindingKept(rings[1..]);
    }
  }

  lemma {:induction false} HolesOfAre(exteriors: seq<Ring>, holes: seq<Ring>, i: int)
    ensures forall h :: h in HolesOf(exteriors, holes, i) ==> h in holes
  {
    hide Home;
    if holes != [] {
      HolesOfAre(exteriors, holes[..|holes| - 1], i);
    }
  }

  /** The polygons are wound as they should be. */
  lemma {:induction false} ClassifiedWound(rings: seq<Ring>)
    ensures forall i :: 0 <= i < |Classified(rings)| ==> Wound(Classified(rings)[i])
    ensures forall h :: h in Dropped(rings) ==> Shoelace(h) < 0
  {
    hide WithWinding, HolesOf;
    var exteriors, holes := WithWinding(rings, false), WithWinding(rings, true);
    WindingKept(rings);
    HolesOfAre(exteriors, holes, -1);
    forall i | 0 <= i < |exteriors| ensures Wound(Classified(rings)[i]) {
      HolesOfAre(exteriors, holes, i);
      var poly := Classified(rings)[i];
      assert poly.rings == [exteriors[i]] + HolesOf(exteriors, holes, i);
      assert exteriors[i] in exteriors && Holes(poly) == HolesOf(exteriors, holes, i);
    }
  }

  /** Exteriors less holes: the signed total of all rings, and what the dropped holes would have taken away. */
  lemma {:induction false} ClassifiedArea(rings: seq<Ring>)
    ensures GroupArea(Classified(rings)) == TotalArea(rings) + AbsArea(Dropped(rings))
  {
    hide GroupArea, TotalArea, AbsArea, Wound, Classified, Dropped, RingsOf, AllEdges, Sum;
    ClassifiedWound(rings);
    WoundArea(Classified(rings));
    HolesArea(Dropped(rings));
    ClassifiedTotal(Cross, rings);
    TotalAreaOfEdges(RingsOf(Classified(rings)));
    TotalAreaOfEdges(Dropped(rings));
    TotalAreaOfEdges(rings);
  }

  lemma {:induction false} NoAreaNoHoles(holes: seq<Ring>)
    requires forall h :: h in holes ==> Shoelace(h) < 0
    ensures AbsArea(holes) == 0 <==> holes == []
  {
    if holes != [] {
      assert holes[0] in holes;
    }
  }

  // ----- The whole dissolve -----

  ghost predicate AllClosed(rings: seq<Ring>) {
    forall r :: r in rings ==> Closed(r)
  }

  /** The polygons of a group that take part, as they were given: the first of each kind. */
  function Taken(members: seq<seq<Polygon>>, kept: seq<nat>): seq<Polygon>
    requires forall k :: 0 <= k < |kept| ==> kept[k] < |Flatten(members)|
  {
    seq(|kept|, k requires 0 <= k < |kept| => Flatten(members)[kept[k]])
  }

  /** The group is the first of each kind among the members, every ring as it was given or backwards:
      exteriors counterclockwise and holes clockwise. */
  ghost predicate Representatives(members: seq<seq<Polygon>>, group: seq<Polygon>, kept: seq<nat>) {
    FirstsOfKind(Flatten(members), kept) && AllTurned(Taken(members, kept), group)
  }

  ghost predicate Has(taken: seq<Polygon>, p: Polygon) {
    exists t :: t in taken && SamePolygon(t, p)
  }

  /** Each of the polygons belongs to a member, and each polygon of a member is the same as one of them. */
  ghost predicate FromMembers(members: seq<seq<Polygon>>, taken: seq<Polygon>) {
    && (forall p :: p in taken ==> exists m :: m in members && p in m)
    && (forall m, p :: m in members && p in m ==> Has(taken, p))
  }

  lemma {:induction false} TakenFromMembers(members: seq<seq<Polygon>>, kept: seq<nat>)
    requires FirstsOfKind(Flatten(members), kept)
    ensures FromMembers(members, Taken(members, kept))
  {
    hide SamePolygon, Flatten;
    var all, taken := Flatten(members), Taken(members, kept);
    forall p | p in taken ensures exists m :: m in members && p in m {
      FlattenHas(members, p);
    }
    forall m, p | m in members && p in m ensures Has(taken, p) {
      FlattenHas(members, p);
      var i :| 0 <= i < |all| && all[i] == p;
      assert SameKept(all, i, kept);
      var k :| 0 <= k < |kept| && kept[k] <= i && SamePolygon(all[kept[k]], all[i]);
      assert taken[k] in taken;
    }
  }

  /** The area and the winding numbers of the outcome, exactly: those of the group, less those of the
      cancelled edges, and without the holes that were dropped. */
  ghost predicate Accounted(polys: seq<Polygon>, group: seq<Polygon>, dropped: seq<Ring>) {
    var lost := Lost(RingsOf(group));
    && GroupArea(polys) == GroupArea(group) - Sum(Cross, lost) + AbsArea(dropped)
    && forall p :: WindingNumber(RingsOf(polys), p)
                   == WindingNumber(RingsOf(group), p) - Sum(Windings(p), lost) - WindingNumber(dropped, p)
  }

  /** The outcome covers what the group covers. */
  ghost predicate SameCover(polys: seq<Polygon>, group: seq<Polygon>) {
    && GroupArea(polys) == GroupArea(group)
    && forall p :: WindingNumber(RingsOf(polys), p) == WindingNumber(RingsOf(group), p)
  }

  method FlattenMembers(members: seq<seq<Polygon>>) returns (flattened: seq<Polygon>)
    ensures flattened == Flatten(members)
  {
    flattened := [];
    for i := 0 to |members|
      invariant flattened == Flatten(members[..i])
    {
      assert members[..i + 1] == members[..i] + [members[i]];
      FlattenAppend(members[..i], members[i]);
      flattened := flattened + members[i];
    }
    assert members[..|members|] == members;
  }

  method CollectRings(group: seq<Polygon>) returns (rings: seq<Ring>)
    ensures rings == RingsOf(group)
  {
    rings := [];
    for i := 0 to |group|
      invariant rings == RingsOf(group[..i])
    {
      assert group[..i + 1] == group[..i] + [group[i]];
      RingsOfAppend(group[..i], group[i]);
      rings := rings + group[i].rings;
    }
    assert group[..|group|] == group;
  }

  lemma {:induction false} NothingLeft(group: seq<Polygon>)
    requires group == []
    ensures Classified([]) == [] && Dropped([]) == []
    ensures Accounted([], group, []) && SameCover([], group)
    ensures AllEdges([]) == [] && UsesEverySurvivor(RingsOf(group), []) && CancelsEvenly(RingsOf(group))
    ensures ChainedFrom(Survivors(RingsOf(group)), [])
  {
    WalkedStart([]);
    assert RingsOf([]) == [] && Lost([]) == [] && Survivors([]) == [];
  }

  /** Evenly shared borders cancel without taking anything with them. */
  lemma {:induction false} EvenlySharedLosesNothing(rings: seq<Ring>)
    requires EvenlyShared(AllEdges(rings))
    ensures Sum(Cross, Lost(rings)) == 0 && forall p :: Sum(Windings(p), Lost(rings)) == 0
  {
    hide EvenlyShared, Sum, AllEdges;
    Antisymmetries(Point(0, 0));
    CancelledSumsToZero(Cross, AllEdges(rings));
    forall p ensures Sum(Windings(p), Lost(rings)) == 0 {
      Antisymmetries(p);
      CancelledSumsToZero(Windings(p), AllEdges(rings));
    }
  }

  // ----- Normalising turns rings round and changes no kind -----

  lemma {:induction false} TurnedSignature(r: Ring, s: Ring, clockwise: bool)
    requires Turned(r, s, clockwise) && InRange(r) && InRange(s)
    ensures SignatureOf(s) == SignatureOf(r)
  {
    hide SignatureOf, SameRing, InRange, Turned;
    TurnedSame(r, s, clockwise);
    RingSignatureIff(r, s);
  }

  lemma {:induction false} TurnedSignatures(rs: seq<Ring>, ss: seq<Ring>)
    requires |rs| == |ss| && AllInRange(rs) && AllInRange(ss)
    requires forall i :: 0 <= i < |rs| ==> Turned(rs[i], ss[i], true)
    ensures SignaturesOf(ss) == SignaturesOf(rs)
  {
    hide SignatureOf, InRange, Turned;
    if rs != [] {
      TurnedSignature(rs[0], ss[0], true);
      assert forall i :: 0 <= i < |rs[1..]| ==> rs[1..][i] == rs[i + 1] && ss[1..][i] == ss[i + 1];
      TurnedSignatures(rs[1..], ss[1..]);
    }
  }

  lemma {:induction false} TurnedParts(p: Polygon, q: Polygon)
    requires TurnedPolygon(p, q) && Encodable(p) && Encodable(q)
    ensures SignatureOf(Exterior(q)) == SignatureOf(Exterior(p))
    ensures SignaturesOf(Holes(q)) == SignaturesOf(Holes(p))
  {
    EncodableParts(p);
    EncodableParts(q);
    hide SignatureOf, SignaturesOf, InRange, Turned, Encodable;
    if p.rings != [] {
      TurnedSignature(p.rings[0], q.rings[0], false);
    }
    TurnedHoles(p, q);
    TurnedSignatures(Holes(p), Holes(q));
  }

  lemma {:induction false} TurnedHoles(p: Polygon, q: Polygon)
    requires TurnedPolygon(p, q)
    ensures |Holes(p)| == |Holes(q)| && forall i :: 0 <= i < |Holes(p)| ==> Turned(Holes(p)[i], Holes(q)[i], true)
  {
    hide Turned;
    forall i | 0 <= i < |Holes(p)| ensures Turned(Holes(p)[i], Holes(q)[i], true) {
      assert Holes(p)[i] == p.rings[i + 1] && Holes(q)[i] == q.rings[i + 1];
    }
  }

  lemma {:induction false} TurnedSamePolygon(p: Polygon, q: Polygon)
    requires TurnedPolygon(p, q) && Encodable(p) && Encodable(q)
    ensures PolygonSignatureOf(q) == PolygonSignatureOf(p)
  {
    hide SignatureOf, SignaturesOf, Turned, Framed, Encodable, Exterior, Holes;
    TurnedParts(p, q);
  }

  lemma {:induction false} TurnedKinds(mp: seq<Polygon>, out: seq<Polygon>, i: nat, j: nat)
    requires AllTurned(mp, out) && AllEncodable(mp) && AllEncodable(out) && i < |mp| && j < |mp|
    ensures SamePolygon(mp[i], mp[j]) <==> SamePolygon(out[i], out[j])
  {
    hide SamePolygon, TurnedPolygon, PolygonSignatureOf, Encodable;
    assert mp[i] in mp && mp[j] in mp && out[i] in out && out[j] in out;
    TurnedSamePolygon(mp[i], out[i]);
    TurnedSamePolygon(mp[j], out[j]);
    PolygonSignatureIff(mp[i], mp[j]);
    PolygonSignatureIff(out[i], out[j]);
  }

  lemma {:induction false} TurnedFirsts(mp: seq<Polygon>, out: seq<Polygon>, kept: seq<nat>)
    requires AllTurned(mp, out) && AllEncodable(mp) && AllEncodable(out) && FirstsOfKind(out, kept)
    ensures FirstsOfKind(mp, kept)
  {
    hide SamePolygon, AllTurned, AllEncodable;
    assert |mp| == |out| by { AllTurnedLength(mp, out); }
    forall k, l | 0 <= k < l < |kept| ensures kept[k] < kept[l] && !SamePolygon(mp[kept[k]], mp[kept[l]]) {
      TurnedKinds(mp, out, kept[k], kept[l]);
    }
    forall i | 0 <= i < |mp| ensures SameKept(mp, i, kept) {
      assert SameKept(out, i, kept);
      var k :| 0 <= k < |kept| && kept[k] <= i && SamePolygon(out[kept[k]], out[i]);
      TurnedKinds(mp, out, kept[k], i);
    }
  }

  lemma {:induction false} AllTurnedLength(mp: seq<Polygon>, out: seq<Polygon>)
    requires AllTurned(mp, out)
    ensures |mp| == |out|
  {
  }

  lemma {:induction false} GroupRepresents(members: seq<seq<Polygon>>, out: seq<Polygon>, group: seq<Polygon>,
                                           kept: seq<nat>)
    requires AllEncodable(Flatten(members)) && AllEncodable(out) && AllTurned(Flatten(members), out)
    requires FirstsOfKind(out, kept) && |group| == |kept|
    requires forall k :: 0 <= k < |kept| ==> group[k] == out[kept[k]]
    ensures (forall k :: 0 <= k < |kept| ==> kept[k] < |Flatten(members)|) && Representatives(members, group, kept)
  {
    TurnedFirsts(Flatten(members), out, kept);
    hide TurnedPolygon, SamePolygon, AllEncodable, Flatten;
  }

  lemma {:induction false} TurnedWound(mp: seq<Polygon>, group: seq<Polygon>)
    requires AllTurned(mp, group)
    ensures forall p :: p in group ==> Wound(p)
  {
    hide Wound, TurnedPolygon;
    forall p | p in group ensures Wound(p) {
      var k :| 0 <= k < |group| && group[k] == p;
      TurnedPolygonWound(mp[k], group[k]);
    }
  }

  lemma {:induction false} TurnedArea(r: Ring, s: Ring, clockwise: bool)
    requires Turned(r, s, clockwise)
    ensures if clockwise then Shoelace(s) <= 0 else Shoelace(s) >= 0
  {
    hide Backwards, Reversed;
    OrientedWinding(r, clockwise);
    if IsClockwise(r) != clockwise {
      assert Backwards(r, s) && Oriented(r, clockwise) == Reversed(r);
      ReversedIsBackwards(r, s);
    }
  }

  lemma {:induction false} TurnedPolygonWound(p: Polygon, q: Polygon)
    requires TurnedPolygon(p, q)
    ensures Wound(q)
  {
    hide Turned;
    forall i | 0 <= i < |q.rings| ensures if i > 0 then Shoelace(q.rings[i]) <= 0 else Shoelace(q.rings[i]) >= 0 {
      TurnedArea(p.rings[i], q.rings[i], i > 0);
    }
  }

  /** The rays of the even-odd rule meet a ring turned round as often as the ring as it was given. */
  lemma {:induction false} BackwardsCrossings(p: Point, r: Ring)
    ensures Crossings(p, RingEdges(Reversed(r))) == Crossings(p, RingEdges(r))
  {
    hide Crosses;
    if |r| >= 2 {
      BackwardsCrossings(p, r[1..]);
      var back := Reversed(r[1..]);
      ReversedAt(r[1..], |r| - 2);
      RingEdgesAppend(back, r[0]);
      if r[0] == r[1] {
        assert RingEdges(back) + [] == RingEdges(back);
      } else {
        var e := Edge(r[0], r[1]);
        CrossesRev(p, e);
        CrossingsAppend(p, RingEdges(back), [Rev(e)]);
        CrossingsAppend(p, [e], RingEdges(r[1..]));
        OneCrossing(p, e);
        OneCrossing(p, Rev(e));
      }
    }
  }

  lemma {:induction false} TurnedCrossings(p: Point, r: Ring, s: Ring, clockwise: bool)
    requires Turned(r, s, clockwise)
    ensures Crossings(p, RingEdges(s)) == Crossings(p, RingEdges(r))
  {
    hide Backwards, Reversed, IsClockwise, Crossings, RingEdges;
    if s != r {
      ReversedIsBackwards(r, s);
      BackwardsCrossings(p, r);
    }
  }

  lemma {:induction false} TurnedRingsCrossings(p: Point, rs: seq<Ring>, ss: seq<Ring>, first: bool)
    requires |rs| == |ss| && forall i :: 0 <= i < |rs| ==> Turned(rs[i], ss[i], !first || i > 0)
    ensures Crossings(p, AllEdges(ss)) == Crossings(p, AllEdges(rs))
  {
    hide Turned, Crossings, RingEdges;
    if rs != [] {
      TurnedCrossings(p, rs[0], ss[0], !first);
      assert forall i :: 0 <= i < |rs[1..]| ==> rs[1..][i] == rs[i + 1] && ss[1..][i] == ss[i + 1];
      TurnedRingsCrossings(p, rs[1..], ss[1..], false);
      CrossingsAppend(p, RingEdges(rs[0]), AllEdges(rs[1..]));
      CrossingsAppend(p, RingEdges(ss[0]), AllEdges(ss[1..]));
    }
  }

  lemma {:induction false} CrossingsOfRings(p: Point, rs: seq<Ring>, ss: seq<Ring>)
    ensures Crossings(p, AllEdges(rs + ss)) == Crossings(p, AllEdges(rs)) + Crossings(p, AllEdges(ss))
  {
    hide Crosses, RingEdges, Crossings;
    if rs == [] {
      assert rs + ss == ss;
      assert Crossings(p, []) == 0 by { OneCrossing(p, Edge(p, p)); }
    } else {
      assert (rs + ss)[1..] == rs[1..] + ss;
      CrossingsOfRings(p, rs[1..], ss);
      CrossingsAppend(p, RingEdges(rs[0]), AllEdges(rs[1..] + ss));
      CrossingsAppend(p, RingEdges(rs[0]), AllEdges(rs[1..]));
    }
  }

  lemma {:induction false} TurnedCover(p: Point, mp: seq<Polygon>, out: seq<Polygon>)
    requires AllTurned(mp, out)
    ensures Crossings(p, AllEdges(RingsOf(out))) == Crossings(p, AllEdges(RingsOf(mp)))
  {
    hide TurnedPolygon, Crossings, AllEdges;
    if mp != [] {
      assert forall i :: 0 <= i < |mp[1..]| ==> mp[1..][i] == mp[i + 1] && out[1..][i] == out[i + 1];
      TurnedCover(p, mp[1..], out[1..]);
      assert TurnedPolygon(mp[0], out[0]);
      TurnedPolygonCover(p, mp[0], out[0]);
      CrossingsOfRings(p, mp[0].rings, RingsOf(mp[1..]));
      CrossingsOfRings(p, out[0].rings, RingsOf(out[1..]));
    }
  }

  lemma {:induction false} TurnedPolygonCover(p: Point, m: Polygon, q: Polygon)
    requires TurnedPolygon(m, q)
    ensures Crossings(p, AllEdges(q.rings)) == Crossings(p, AllEdges(m.rings))
  {
    hide Turned, Crossings, AllEdges;
    TurnedRingsCrossings(p, m.rings, q.rings, true);
  }

  lemma {:induction false} ClassifiedSum(f: Edge -> int, rings: seq<Ring>)
    ensures Sum(f, AllEdges(WithWinding(rings, false))) + Sum(f, AllEdges(WithWinding(rings, true)))
            == Sum(f, AllEdges(rings))
  {
    if rings != [] {
      hide Sum, IsClockwise, AllEdges, WithWinding;
      var clockwise := IsClockwise(rings[0]);
      ClassifiedSum(f, rings[1..]);
      AllEdgesConcat(f, [rings[0]], rings[1..]);
      assert [rings[0]] + rings[1..] == rings;
      AllEdgesConcat(f, [rings[0]], WithWinding(rings[1..], clockwise));
      WithWindingFirst(rings);
    }
  }

  lemma {:induction false} WithWindingFirst(rings: seq<Ring>)
    requires rings != []
    ensures var clockwise := IsClockwise(rings[0]);
            && WithWinding(rings, clockwise) == [rings[0]] + WithWinding(rings[1..], clockwise)
            && WithWinding(rings, !clockwise) == WithWinding(rings[1..], !clockwise)
  {
    hide IsClockwise;
  }

  /** From the group over the chained rings to the polygons. */
  lemma {:induction false} GroupAccounted(group: seq<Polygon>, chained: seq<Ring>)
    requires forall p :: p in group ==> Wound(p)
    requires UsesEverySurvivor(RingsOf(group), chained)
    ensures Accounted(Classified(chained), group, Dropped(chained))
  {
    hide UsesEverySurvivor, Lost, Sum, AllEdges, AbsArea, TotalArea, GroupArea, Wound, Classified, Dropped, RingsOf;
    var rings, polys := RingsOf(group), Classified(chained);
    WoundArea(group);
    ClassifiedArea(chained);
    TotalAreaOfEdges(rings);
    TotalAreaOfEdges(chained);
    TotalLost(Cross, rings, chained);
    forall p ensures WindingNumber(RingsOf(polys), p)
                     == WindingNumber(rings, p) - Sum(Windings(p), Lost(rings)) - WindingNumber(Dropped(chained), p)
    {
      TotalLost(Windings(p), rings, chained);
      ClassifiedTotal(Windings(p), chained);
    }
  }

  lemma {:induction false} EvenlySharedCovers(group: seq<Polygon>, chained: seq<Ring>)
    requires EvenlyShared(AllEdges(RingsOf(group))) && Accounted(Classified(chained), group, Dropped(chained))
    ensures SameCover(Classified(chained), group) <==> Dropped(chained) == []
  {
    hide EvenlyShared, Lost, AllEdges, AbsArea, GroupArea, Classified, Dropped, RingsOf;
    EvenlySharedLosesNothing(RingsOf(group));
    ClassifiedWound(chained);
    NoAreaNoHoles(Dropped(chained));
    if Dropped(chained) == [] {
      forall p ensures WindingNumber(Dropped(chained), p) == 0 {
        NoWinding(p);
      }
    }
  }

  /** The even-odd rule finds the same points in both. */
  ghost predicate SamePoints(mp: seq<Polygon>, polys: seq<Polygon>) {
    forall p :: Odd(Crossings(p, AllEdges(RingsOf(polys)))) == Odd(Crossings(p, AllEdges(RingsOf(mp))))
  }

  lemma {:induction false} SameCoverSamePoints(mp: seq<Polygon>, group: seq<Polygon>, polys: seq<Polygon>)
    requires AllTurned(mp, group) && SameCover(polys, group)
    ensures SamePoints(mp, polys)
  {
    hide AllTurned, Crossings, AllEdges, RingsOf, GroupArea, Sum;
    forall p ensures Odd(Crossings(p, AllEdges(RingsOf(polys)))) == Odd(Crossings(p, AllEdges(RingsOf(mp)))) {
      assert WindingNumber(RingsOf(polys), p) == WindingNumber(RingsOf(group), p);
      CrossingParity(p, AllEdges(RingsOf(polys)));
      CrossingParity(p, AllEdges(RingsOf(group)));
      TurnedCover(p, mp, group);
    }
  }

  lemma {:induction false} NoWinding(p: Point)
    ensures WindingNumber([], p) == 0
  {
  }

  /** An outcome of a group's members: the rings chained from the edges that survive among its
      representatives, classified. Where the representatives' borders are closed and cancel evenly, area and
      winding numbers of the outcome are accounted for; where every border is shared evenly, the outcome
      covers what the group covers exactly if no hole is dropped for want of an exterior around it. */
  ghost predicate Dissolved(members: seq<seq<Polygon>>, polys: seq<Polygon>,
                            group: seq<Polygon>, kept: seq<nat>, chained: seq<Ring>) {
    var rings := RingsOf(group);
    && Representatives(members, group, kept) && FromMembers(members, Taken(members, kept))
    && ChainedFrom(Survivors(rings), chained) && polys == Classified(chained)
    && (forall r :: r in chained ==> ChainedRing(r)) && multiset(AllEdges(chained)) <= multiset(Survivors(rings))
    && (AllClosed(rings) ==> (UsesEverySurvivor(rings, chained) <==> CancelsEvenly(rings)))
    && (AllClosed(rings) && CancelsEvenly(rings) ==> Accounted(polys, group, Dropped(chained)))
    && (AllClosed(rings) && EvenlyShared(AllEdges(rings)) ==>
          (SameCover(polys, group) <==> Dropped(chained) == []))
    && (AllClosed(rings) && EvenlyShared(AllEdges(rings)) && Dropped(chained) == [] ==>
          SamePoints(Taken(members, kept), polys))
  }

  /** Dissolves a group. */
  method DissolvePolygons(members: seq<seq<Polygon>>) returns (polys: seq<Polygon>)
    requires AllEncodable(Flatten(members))
    ensures exists group, kept, chained :: Dissolved(members, polys, group, kept, chained)
  {
    hide EvenlyShared, ChainedRing, AllEncodable, AllTurned, FirstsOfKind, FromMembers, SamePoints, SameCover,
         Accounted, RingEdges, AllEdges, Wound, CancelsEvenly, Lost, Sum, UsesEverySurvivor, Survivors, Classified,
         Dropped, RingsOf;
    var flattened := FlattenMembers(members);
    NormalizedEncodable(flattened);
    var normal := Normalize(flattened);
    var group, _, kept := DedupePolygons(normal);
    GroupRepresents(members, normal, group, kept);
    TakenFromMembers(members, kept);
    TurnedWound(Taken(members, kept), group);
    if |group| == 0 {
      NothingLeft(group);
      SameCoverSamePoints(Taken(members, kept), group, []);
      assert Dissolved(members, [], group, kept, []);
      return [];
    }
    var rings := CollectRings(group);
    var all := DissolveRings(rings);
    polys := ClassifyRings(all);
    if AllClosed(rings) && EvenlyShared(AllEdges(rings)) {
      EvenlySharedChains(rings);
    }
    if AllClosed(rings) && CancelsEvenly(rings) {
      GroupAccounted(group, all);
      if EvenlyShared(AllEdges(rings)) {
        EvenlySharedCovers(group, all);
        if Dropped(all) == [] {
          SameCoverSamePoints(Taken(members, kept), group, polys);
        }
      }
    }
    assert Dissolved(members, polys, group, kept, all);
  }
}
