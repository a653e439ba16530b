/** The least rotation of a ring's vertices: minimumRotation in internal/geo/repair.go. */
module Rotation {
  import opened Geometry
  import opened Lexicographic

  /** The order on vertices: by x, then by y. */
  predicate PointLess(a: Point, b: Point) {
    a.x < b.x || (a.x == b.x && a.y < b.y)
  }

  lemma {:induction false} PointOrder()
    ensures StrictTotal(PointLess)
  {
  }

  function Rotate(q: Ring, p: nat): (r: Ring)
    requires p <= |q|
    ensures |r| == |q|
  {
    q[p..] + q[..p]
  }

  /** The vertex t steps after start i, going round. */
  function Vertex(q: Ring, i: nat, t: nat): Point
    requires q != []
  {
    q[(i + t) % |q|]
  }

  lemma {:induction false} VertexWraps(q: Ring, i: nat, t: nat)
    requires q != [] && i + t < 2 * |q|
    ensures Vertex(q, i, t) == q[if i + t < |q| then i + t else i + t - |q|]
  {
  }

  lemma {:induction false} RotateAt(q: Ring, p: nat, t: nat)
    requires p < |q| && t < |q|
    ensures Rotate(q, p)[t] == Vertex(q, p, t)
  {
    VertexWraps(q, p, t);
  }

  /** The rotation at a is strictly less than the rotation at b. */
  predicate Beats(q: Ring, a: nat, b: nat)
    requires a < |q| && b < |q|
  {
    LexLess(PointLess, Rotate(q, a), Rotate(q, b))
  }

  /** No rotation is less than the one at m. */
  ghost predicate Least(q: Ring, m: nat) {
    m < |q| && forall p :: 0 <= p < |q| ==> !Beats(q, p, m)
  }

  ghost predicate Beaten(q: Ring, p: nat)
    requires p < |q|
  {
    exists m :: 0 <= m < |q| && Beats(q, m, p)
  }

  lemma {:induction false} LeastAmong(q: Ring, n: nat) returns (m: nat)
    requires 0 < n <= |q|
    ensures m < n && forall p :: 0 <= p < n ==> !Beats(q, p, m)
  {
    PointOrder();
    if n == 1 {
      m := 0;
      LexIrreflexive(PointLess, Rotate(q, 0));
    } else {
      m := LeastAmong(q, n - 1);
      var last := n - 1;
      if Beats(q, last, m) {
        LexIrreflexive(PointLess, Rotate(q, last));
        forall p | 0 <= p < n ensures !Beats(q, p, last) {
          if p < last && Beats(q, p, last) {
            LexTransitive(PointLess, Rotate(q, p), Rotate(q, last), Rotate(q, m));
            assert Beats(q, p, m);
          }
        }
        m := last;
      }
    }
  }

  /** The rotations at i and j agree on their first k vertices. */
  ghost predicate Agree(q: Ring, i: nat, j: nat, k: nat)
    requires q != []
  {
    forall t :: 0 <= t < k ==> Vertex(q, i, t) == Vertex(q, j, t)
  }

  /** A difference at offset k decides not only i against j but every start in between. */
  lemma {:induction false} DifferenceBeats(q: Ring, i: nat, j: nat, k: nat, t: nat)
    requires i < |q| && j < |q| && k < |q| && t <= k && i + t < |q|
    requires Agree(q, i, j, k)
    requires PointLess(Vertex(q, j, k), Vertex(q, i, k))
    ensures Beaten(q, i + t)
  {
    var a := i + t;
    var b := if j + t < |q| then j + t else j + t - |q|;
    forall s | 0 <= s <= k - t
      ensures Rotate(q, b)[s] == Vertex(q, j, t + s) && Rotate(q, a)[s] == Vertex(q, i, t + s)
    {
      RotateAt(q, b, s);
      RotateAt(q, a, s);
      VertexWraps(q, b, s);
      VertexWraps(q, j, t + s);
    }
    LexAtDifference(PointLess, Rotate(q, b), Rotate(q, a), k - t);
    assert Beats(q, b, a);
  }

  /** Every start before `bound` other than i and j is beaten. */
  ghost predicate OnlyTwoLeft(q: Ring, i: nat, j: nat, bound: nat) {
    forall p :: 0 <= p < bound && p < |q| && p != i && p != j ==> Beaten(q, p)
  }

  /** The starts that an advance of i over the first k + 1 offsets passes are beaten. */
  lemma {:induction false} AdvanceBeats(q: Ring, i: nat, j: nat, k: nat)
    requires i < |q| && j < |q| && k < |q|
    requires Agree(q, i, j, k)
    requires PointLess(Vertex(q, j, k), Vertex(q, i, k))
    ensures forall p :: i <= p <= i + k && p < |q| ==> Beaten(q, p)
  {
    forall p | i <= p <= i + k && p < |q| ensures Beaten(q, p) {
      DifferenceBeats(q, i, j, k, p - i);
    }
  }

  lemma {:induction false} AgreeSymmetric(q: Ring, i: nat, j: nat, k: nat)
    requires q != [] && Agree(q, i, j, k)
    ensures Agree(q, j, i, k)
  {
    forall t | 0 <= t < k ensures Vertex(q, j, t) == Vertex(q, i, t) {
      assert Vertex(q, i, t) == Vertex(q, j, t);
    }
  }

  function Max(a: int, b: int): int {
    if a > b then a else b
  }

  /** The index of the first least rotation, found in at most three steps per vertex. */
  method MinimumRotation(q: Ring) returns (r: nat, ghost steps: nat)
    ensures q == [] ==> r == 0
    ensures q != [] ==> Least(q, r) && forall p :: 0 <= p < r ==> Beats(q, r, p)
    ensures steps <= 3 * |q|
  {
    var n := |q|;
    var i, j, k := 0, 1, 0;
    steps := 0;
    while i < n && j < n && k < n
      invariant i != j && (i < n || j < n || n == 0) && k <= n
      invariant n == 0 ==> i == 0 && j == 1
      invariant i < n && j < n ==> Agree(q, i, j, k)
      invariant OnlyTwoLeft(q, i, j, Max(i, j))
      invariant steps + 1 <= i + j + k
      invariant k == 0 || (i < n && j < n)
      invariant steps <= 3 * n
      decreases 3 * n - (i + j + k)
    {
      steps := steps + 1;
      var a, b := q[(i + k) % n], q[(j + k) % n];
      assert a == Vertex(q, i, k) && b == Vertex(q, j, k);
      if a == b {
        k := k + 1;
      } else {
        if a.x > b.x || (a.x == b.x && a.y > b.y) {
          AdvanceBeats(q, i, j, k);
          i := i + k + 1;
          if i == j {
            i := i + 1;
          }
        } else {
          AgreeSymmetric(q, i, j, k);
          AdvanceBeats(q, j, i, k);
          j := j + k + 1;
          if i == j {
            j := j + 1;
          }
        }
        k := 0;
      }
    }
    r := if i < j then i else j;
    if n > 0 {
      LastOneLeft(q, i, j, k);
    }
  }

  /** Where the search stops, the smaller index is the only start no other rotation beats first. */
  lemma {:induction false} LastOneLeft(q: Ring, i: nat, j: nat, k: nat)
    requires q != [] && i != j && (i < |q| || j < |q|)
    requires OnlyTwoLeft(q, i, j, Max(i, j))
    requires i >= |q| || j >= |q| || (k == |q| && Agree(q, i, j, k))
    ensures var r := if i < j then i else j; Least(q, r) && forall p :: 0 <= p < r ==> Beats(q, r, p)
  {
    var r := if i < j then i else j;
    var m := LeastAmong(q, |q|);
    if i < |q| && j < |q| {
      if i < j {
        m := FirstPeriod(q, i, j, m);
      } else {
        AgreeSymmetric(q, i, j, k);
        m := FirstPeriod(q, j, i, m);
      }
    }
    assert !Beaten(q, m);
    assert m == r;
    forall p | 0 <= p < r ensures Beats(q, r, p) {
      assert Beaten(q, p);
      var s :| 0 <= s < |q| && Beats(q, s, p);
      BeatsAll(q, r, s, p);
    }
  }

  lemma {:induction false} BeatsAll(q: Ring, m: nat, s: nat, p: nat)
    requires Least(q, m) && s < |q| && p < |q| && Beats(q, s, p)
    ensures Beats(q, m, p)
  {
    PointOrder();
    LexConnected(PointLess, Rotate(q, m), Rotate(q, s));
    assert !Beats(q, s, m);
    if Rotate(q, m) != Rotate(q, s) {
      LexTransitive(PointLess, Rotate(q, m), Rotate(q, s), Rotate(q, p));
    }
  }

  lemma {:induction false} PeriodAt(q: Ring, i: nat, j: nat, m: nat, s: nat)
    requires i < j <= m < |q| && s < |q| && Agree(q, i, j, |q|)
    ensures Rotate(q, m)[s] == Rotate(q, m - (j - i))[s]
  {
    var n, o := |q|, m - (j - i);
    RotateAt(q, m, s);
    RotateAt(q, o, s);
    VertexWraps(q, m, s);
    VertexWraps(q, o, s);
    var t := if m - j + s < n then m - j + s else m - j + s - n;
    assert Vertex(q, i, t) == Vertex(q, j, t);
    VertexWraps(q, i, t);
    VertexWraps(q, j, t);
  }

  /** Rotations that agree all the way round make the ring periodic, so some least rotation starts
      before the larger of the two. */
  lemma {:induction false} FirstPeriod(q: Ring, i: nat, j: nat, m: nat) returns (first: nat)
    requires i < j < |q| && Least(q, m) && Agree(q, i, j, |q|)
    ensures first < j && Least(q, first)
    decreases m
  {
    if m < j {
      first := m;
    } else {
      var o := m - (j - i);
      forall s | 0 <= s < |q| ensures Rotate(q, m)[s] == Rotate(q, o)[s] {
        PeriodAt(q, i, j, m, s);
      }
      assert Rotate(q, m) == Rotate(q, o);
      forall p | 0 <= p < |q| ensures !Beats(q, p, o) {
        assert !Beats(q, p, m);
      }
      first := FirstPeriod(q, i, j, o);
    }
  }

  // ----- Rotation classes -----

  ghost predicate IsRotation(q: Ring, r: Ring) {
    exists p :: 0 <= p <= |q| && r == Rotate(q, p)
  }

  lemma {:induction false} RotateTwice(q: Ring, a: nat, b: nat)
    requires a <= |q| && b <= |q|
    ensures Rotate(Rotate(q, a), b) == if a + b <= |q| then Rotate(q, a + b) else Rotate(q, a + b - |q|)
  {
    hide Rotate;
    var n := |q|;
    if a + b <= n {
      var x, y, z := q[..a], q[a..a + b], q[a + b..];
      assert q == x + y + z;
      ThreeParts(x, y, z);
      ThreeParts(y, z, x);
    } else {
      var c := a + b - n;
      var x, y, z := q[..c], q[c..a], q[a..];
      assert q == x + y + z;
      ThreeParts(x, y, z);
      ThreeParts(z, x, y);
    }
  }

  /** Cut after its first part or after its second, a list of three parts is turned as expected. */
  lemma {:induction false} ThreeParts(x: Ring, y: Ring, z: Ring)
    ensures Rotate(x + y + z, |x|) == y + z + x && Rotate(x + y + z, |x| + |y|) == z + x + y
  {
    var w := x + y + z;
    assert w[|x|..] == y + z && w[..|x|] == x;
    assert w[|x| + |y|..] == z && w[..|x| + |y|] == x + y;
    assert z + (x + y) == z + x + y;
  }

  lemma {:induction false} IsRotationSymmetric(q: Ring, r: Ring)
    requires IsRotation(q, r)
    ensures IsRotation(r, q)
  {
    var p :| 0 <= p <= |q| && r == Rotate(q, p);
    RotateTwice(q, p, |q| - p);
    assert Rotate(q, |q|) == q;
    assert q == Rotate(r, |q| - p);
  }

  lemma {:induction false} IsRotationTransitive(q: Ring, r: Ring, s: Ring)
    requires IsRotation(q, r) && IsRotation(r, s)
    ensures IsRotation(q, s)
  {
    var a :| 0 <= a <= |q| && r == Rotate(q, a);
    var b :| 0 <= b <= |r| && s == Rotate(r, b);
    RotateTwice(q, a, b);
    assert s == Rotate(q, if a + b <= |q| then a + b else a + b - |q|);
  }

  ghost function LeastStart(q: Ring): (m: nat)
    requires q != []
    ensures Least(q, m)
  {
    LeastExists(q);
    var m: nat :| Least(q, m);
    m
  }

  lemma {:induction false} LeastExists(q: Ring)
    requires q != []
    ensures exists m: nat :: Least(q, m)
  {
    var m := LeastAmong(q, |q|);
    assert Least(q, m);
  }

  /** The least rotation, as a value. */
  ghost function Canonical(q: Ring): (r: Ring)
    ensures |r| == |q| && IsRotation(q, r)
  {
    if q == [] then
      assert q == Rotate(q, 0);
      q
    else Rotate(q, LeastStart(q))
  }

  lemma {:induction false} LeastIsCanonical(q: Ring, m: nat)
    requires Least(q, m)
    ensures Rotate(q, m) == Canonical(q)
  {
    PointOrder();
    var c := LeastStart(q);
    LexConnected(PointLess, Rotate(q, m), Rotate(q, c));
    assert !Beats(q, m, c) && !Beats(q, c, m);
  }

  /** Two vertex sequences have the same least rotation exactly when one is a rotation of the
      other. */
  lemma {:induction false} CanonicalIffRotation(q: Ring, r: Ring)
    ensures Canonical(q) == Canonical(r) <==> IsRotation(q, r)
  {
    if Canonical(q) == Canonical(r) {
      IsRotationSymmetric(r, Canonical(r));
      IsRotationTransitive(q, Canonical(q), r);
    }
    if IsRotation(q, r) && q != [] {
      SameLeast(q, r);
      IsRotationSymmetric(q, r);
    }
  }

  lemma {:induction false} SameLeast(q: Ring, r: Ring)
    requires q != [] && IsRotation(q, r)
    ensures Canonical(q) == Canonical(r)
  {
    PointOrder();
    var a := LeastAmong(q, |q|);
    var b := LeastAmong(r, |r|);
    LeastIsCanonical(q, a);
    LeastIsCanonical(r, b);
    IsRotationTransitive(q, r, Rotate(r, b));
    var b' := StartOf(q, Rotate(r, b));
    IsRotationSymmetric(q, r);
    IsRotationTransitive(r, q, Rotate(q, a));
    var a' := StartOf(r, Rotate(q, a));
    LexConnected(PointLess, Rotate(q, a), Rotate(r, b));
    assert !Beats(q, b', a) && !Beats(r, a', b);
  }

  lemma {:induction false} StartOf(q: Ring, r: Ring) returns (p: nat)
    requires q != [] && IsRotation(q, r)
    ensures p < |q| && r == Rotate(q, p)
  {
    p :| 0 <= p <= |q| && r == Rotate(q, p);
    if p == |q| {
      assert Rotate(q, |q|) == q == Rotate(q, 0);
      p := 0;
    }
  }
}
