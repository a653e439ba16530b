/** Tile corridors along a route (offline/route.go): Bresenham rasterization, antimeridian wrap, widening
    by a radius and the budget of distinct keys. Starts from points already projected to the grid. */
module Route {
  import opened Bits
  import opened Options
  import opened TileRequest

  const MAX_ROUTE_ZOOM: nat := 30
  const MAX_ROUTE_RADIUS: nat := 8

  datatype XY = XY(x: int, y: int)

  function Abs(v: int): nat {
    if v < 0 then -v else v
  }

  // ----- The cells nearest to a line -----

  /** t * minor / major, rounded half up. */
  function Rounded(t: nat, minor: nat, major: nat): int {
    if major == 0 then 0 else (2 * (t * minor) + major) / (2 * major)
  }

  /** How far from the start the t-th cell lies: t along the longer axis and the rounded share of it
      along the other. */
  function Offset(dx: nat, dy: nat, t: nat): XY {
    if dx >= dy then XY(t, Rounded(t, dy, dx)) else XY(Rounded(t, dx, dy), t)
  }

  function Steps(dx: nat, dy: nat): nat {
    if dx >= dy then dx else dy
  }

  function Sign(from: int, to: int): int {
    if from < to then 1 else -1
  }

  function Toward(start: XY, end: XY, o: XY): XY {
    XY(start.x + Sign(start.x, end.x) * o.x, start.y + Sign(start.y, end.y) * o.y)
  }

  function CellOnLine(start: XY, end: XY, t: nat): XY {
    Toward(start, end, Offset(Abs(end.x - start.x), Abs(end.y - start.y), t))
  }

  function LineSteps(start: XY, end: XY): nat {
    Steps(Abs(end.x - start.x), Abs(end.y - start.y))
  }

  lemma {:induction false} RoundedBounds(t: nat, minor: nat, major: nat)
    requires major > 0
    ensures var r := Rounded(t, minor, major);
            (2 * r - 1) * major <= 2 * (t * minor) < (2 * r + 1) * major && r >= 0
  {
    var r := Rounded(t, minor, major);
    var v := 2 * (t * minor) + major;
    assert v == r * (2 * major) + v % (2 * major);
    assert r * (2 * major) == 2 * (r * major);
    assert (2 * r - 1) * major == 2 * (r * major) - major && (2 * r + 1) * major == 2 * (r * major) + major;
  }

  /** The bounds determine it. */
  lemma {:induction false} RoundedUnique(t: nat, minor: nat, major: nat, r: int)
    requires major > 0 && (2 * r - 1) * major <= 2 * (t * minor) < (2 * r + 1) * major
    ensures Rounded(t, minor, major) == r
  {
    assert (2 * r - 1) * major == r * (2 * major) - major && (2 * r + 1) * major == r * (2 * major) + major;
    var v := 2 * (t * minor) + major;
    QuotientUnique(v, 2 * major, r, v - r * (2 * major));
  }

  /** One step along the longer axis adds one or nothing along the other, by the test on the bounds. */
  lemma {:induction false} RoundedStep(t: nat, minor: nat, major: nat)
    requires 0 < major && minor <= major
    ensures var r, next := Rounded(t, minor, major), Rounded(t + 1, minor, major);
            next == if (2 * r + 1) * major <= 2 * (t * minor) + 2 * minor then r + 1 else r
  {
    hide Rounded;
    var r := Rounded(t, minor, major);
    RoundedBounds(t, minor, major);
    assert (t + 1) * minor == t * minor + minor;
    assert (2 * (r + 1) - 1) * major == (2 * r + 1) * major;
    assert (2 * (r + 1) + 1) * major == (2 * r + 1) * major + 2 * major;
    if (2 * r + 1) * major <= 2 * (t * minor) + 2 * minor {
      RoundedUnique(t + 1, minor, major, r + 1);
    } else {
      RoundedUnique(t + 1, minor, major, r);
    }
  }

  /** The two tests of the loop, on the error term it keeps, move exactly to the next cell. */
  lemma {:induction false} TestsAreRounding(dx: nat, dy: nat, t: nat, err: int)
    requires t < Steps(dx, dy)
    requires var o := Offset(dx, dy, t); err == (o.y + 1) * dx - (o.x + 1) * dy
    ensures var o, next := Offset(dx, dy, t), Offset(dx, dy, t + 1);
            && next.x == (if 2 * err + dy >= 0 then o.x + 1 else o.x)
            && next.y == (if 2 * err <= dx then o.y + 1 else o.y)
  {
    hide Rounded;
    var o := Offset(dx, dy, t);
    if dx >= dy {
      MinorTest(t, dy, dx, (o.y + 1) * dx - (o.x + 1) * dy);
    } else {
      MinorTest(t, dx, dy, (o.x + 1) * dy - (o.y + 1) * dx);
    }
  }

  lemma {:induction false} MinorTest(t: nat, minor: nat, major: nat, err: int)
    requires minor <= major && major > 0
    requires err == (Rounded(t, minor, major) + 1) * major - (t + 1) * minor
    ensures 2 * err + minor >= 0
    ensures Rounded(t + 1, minor, major)
            == if 2 * err <= major then Rounded(t, minor, major) + 1 else Rounded(t, minor, major)
  {
    hide Rounded;
    var r := Rounded(t, minor, major);
    RoundedBounds(t, minor, major);
    RoundedStep(t, minor, major);
    assert (r + 1) * major == r * major + major && (t + 1) * minor == t * minor + minor;
    assert (2 * r + 1) * major == 2 * (r * major) + major;
  }

  /** The line starts and ends where it should ... */
  lemma {:induction false} LineEnds(start: XY, end: XY)
    ensures CellOnLine(start, end, 0) == start
    ensures CellOnLine(start, end, LineSteps(start, end)) == end
  {
    hide Rounded;
    var dx, dy := Abs(end.x - start.x), Abs(end.y - start.y);
    EndsRounded(if dx >= dy then dy else dx, Steps(dx, dy));
  }

  lemma {:induction false} EndsRounded(minor: nat, major: nat)
    requires minor <= major
    ensures Rounded(0, minor, major) == 0 && Rounded(major, minor, major) == minor
  {
    if major > 0 {
      RoundedUnique(0, minor, major, 0);
      assert (2 * minor - 1) * major == 2 * (major * minor) - major;
      assert (2 * minor + 1) * major == 2 * (major * minor) + major;
      RoundedUnique(major, minor, major, minor);
    }
  }

  /** ... moves to one of the eight neighbours each time, and stays within half a cell of the segment. */
  lemma {:induction false} LineConnected(start: XY, end: XY, t: nat)
    requires t < LineSteps(start, end)
    ensures var a, b := CellOnLine(start, end, t), CellOnLine(start, end, t + 1);
            a != b && Abs(a.x - b.x) <= 1 && Abs(a.y - b.y) <= 1
  {
    hide Rounded;
    var dx, dy := Abs(end.x - start.x), Abs(end.y - start.y);
    RoundedStep(t, if dx >= dy then dy else dx, Steps(dx, dy));
  }

  lemma {:induction false} LineNear(dx: nat, dy: nat, t: nat)
    requires t <= Steps(dx, dy)
    ensures var o := Offset(dx, dy, t); 2 * Abs(o.x * dy - o.y * dx) <= Steps(dx, dy)
  {
    hide Rounded;
    var o := Offset(dx, dy, t);
    if dx >= dy && dx > 0 {
      NearMultiple(t, dy, dx);
    } else if dy > 0 {
      NearMultiple(t, dx, dy);
    } else {
      assert dx == dy == 0;
      TimesZero(o.x, o.y);
    }
  }

  /** The rounded minor distance is off by half of the major one at most, both scaled by it. */
  lemma {:induction false} NearMultiple(t: nat, minor: nat, major: nat)
    requires minor <= major && major > 0
    ensures 2 * Abs(t * minor - Rounded(t, minor, major) * major) <= major
  {
    hide Rounded;
    RoundedBounds(t, minor, major);
    OddTimes(Rounded(t, minor, major), major);
  }

  lemma {:induction false} OddTimes(u: int, m: int)
    ensures (2 * u - 1) * m == 2 * (u * m) - m && (2 * u + 1) * m == 2 * (u * m) + m
  {
  }

  lemma {:induction false} TimesZero(u: int, v: int)
    ensures u * 0 == 0 * u == 0 && v * 0 == 0 * v == 0
  {
  }

  // ----- Which cells the segment crosses -----

  /** Cell o, a unit square around its centre, has the point a/b of the way along the segment from the
      origin to (dx, dy) in its interior. */
  predicate Passes(dx: nat, dy: nat, o: XY, a: int, b: int) {
    b > 0 && 0 <= a <= b && Abs(2 * (a * dx - o.x * b)) < b && Abs(2 * (a * dy - o.y * b)) < b
  }

  ghost predicate Crosses(dx: nat, dy: nat, o: XY) {
    exists a, b :: Passes(dx, dy, o, a, b)
  }

  ghost predicate Visits(dx: nat, dy: nat, o: XY) {
    exists t: nat :: t <= Steps(dx, dy) && Offset(dx, dy, t) == o
  }

  ghost predicate VisitsAllCrossed(dx: nat, dy: nat) {
    forall o :: Crosses(dx, dy, o) ==> Visits(dx, dy, o)
  }

  /** The longer side is an odd multiple of the shorter one, or there is no shorter one. */
  predicate OddRatio(minor: nat, major: nat) {
    minor == 0 || (major % minor == 0 && (major / minor) % 2 == 1)
  }

  /** A crossed cell lies in a strip around the line, and in the box of the segment. */
  lemma {:induction false} CrossedInStrip(dx: nat, dy: nat, o: XY)
    requires Crosses(dx, dy, o)
    ensures 0 <= o.x <= dx && 0 <= o.y <= dy
    ensures dx + dy > 0 ==> 2 * Abs(o.x * dy - o.y * dx) < dx + dy
  {
    var a, b :| Passes(dx, dy, o, a, b);
    BetweenEnds(dx, o.x, a, b);
    BetweenEnds(dy, o.y, a, b);
    if dx + dy > 0 {
      var p, q := 2 * (a * dx - o.x * b), 2 * (a * dy - o.y * b);
      var strip := 2 * (o.x * dy - o.y * dx);
      StripIdentity(dx, dy, o, a, b);
      WeightedBound(p, q, dx, dy, b);
      ScaledBound(strip, dx + dy, b);
    }
  }

  lemma {:induction false} MonotoneTimes(a: int, b: int, m: nat)
    ensures a <= b ==> a * m <= b * m
  {
    if a <= b {
      assert (b - a) * m >= 0;
      Distribute(b, a, m);
    }
  }

  lemma {:induction false} CancelLess(a: int, b: int, m: nat)
    requires a * m < b * m
    ensures a < b
  {
    MonotoneTimes(b, a, m);
  }

  lemma {:induction false} BetweenEnds(d: nat, u: int, a: int, b: int)
    requires b > 0 && 0 <= a <= b && Abs(2 * (a * d - u * b)) < b
    ensures 0 <= u <= d
  {
    MonotoneTimes(0, a, d);
    MonotoneTimes(a, b, d);
    BetweenProducts(a * d, u * b, b * d, b);
    OddTimes(u, b);
    OddTimes(d, b);
    EvenTimes(u, b);
    Commuted(b, d);
    TimesZero(d, b);
    CancelLess(0, 2 * u + 1, b);
    CancelLess(2 * u, 2 * d + 1, b);
  }

  lemma {:induction false} BetweenProducts(ad: int, ub: int, bd: int, b: int)
    requires 0 <= ad <= bd && Abs(2 * (ad - ub)) < b
    ensures 0 < 2 * ub + b && 2 * ub < 2 * bd + b
  {
  }

  lemma {:induction false} EvenTimes(u: int, m: int)
    ensures (2 * u) * m == 2 * (u * m)
  {
  }

  lemma {:induction false} Commuted(a: int, b: int)
    ensures a * b == b * a
  {
  }

  lemma {:induction false} StripIdentity(dx: nat, dy: nat, o: XY, a: int, b: int)
    ensures (2 * (o.x * dy - o.y * dx)) * b == (2 * (a * dy - o.y * b)) * dx - (2 * (a * dx - o.x * b)) * dy
  {
    var v, u := o.y, o.x;
    assert (a * dy - v * b) * dx == (a * dy) * dx - (v * b) * dx;
    assert (a * dx - u * b) * dy == (a * dx) * dy - (u * b) * dy;
    assert (a * dy) * dx == (a * dx) * dy;
    assert (v * b) * dx == (v * dx) * b && (u * b) * dy == (u * dy) * b;
  }

  lemma {:induction false} WeightedBound(p: int, q: int, dx: nat, dy: nat, b: int)
    requires Abs(p) < b && Abs(q) < b && dx + dy > 0
    ensures -((dx + dy) * b) < q * dx - p * dy < (dx + dy) * b
  {
    LessTimes(q, b, dx);
    LessTimes(-q, b, dx);
    LessTimes(p, b, dy);
    LessTimes(-p, b, dy);
    assert (-q) * dx == -(q * dx) && (-p) * dy == -(p * dy);
    assert (dx + dy) * b == b * dx + b * dy;
  }

  lemma {:induction false} LessTimes(p: int, b: int, d: nat)
    requires p < b
    ensures p * d <= b * d && (d > 0 ==> p * d < b * d)
  {
    if d > 0 {
      AtLeastOnce(b - p, d);
      Distribute(b, p, d);
    }
  }

  lemma {:induction false} ScaledBound(s: int, m: int, b: int)
    requires b > 0 && -(m * b) < s * b < m * b
    ensures -m < s < m
  {
    assert (-m) * b == -(m * b);
    CancelLess(-m, s, b);
    CancelLess(s, m, b);
  }

  /** With an odd ratio the strip holds only the cells visited. */
  lemma {:induction false} OddRatioVisits(minor: nat, major: nat, u: int, v: int)
    requires 0 < minor <= major && OddRatio(minor, major)
    requires 0 <= u <= major && 2 * Abs(u * minor - v * major) < major + minor
    ensures Rounded(u, minor, major) == v
  {
    var q := major / minor;
    assert major == q * minor;
    OddMultipleNear(minor, q, u, v);
    NearestOf(u, minor, major, v);
  }

  lemma {:induction false} OddMultipleNear(minor: nat, q: nat, u: int, v: int)
    requires q % 2 == 1 && 2 * Abs(u * minor - v * (q * minor)) < q * minor + minor
    ensures 2 * Abs(u * minor - v * (q * minor)) < q * minor
  {
    var e := u - v * q;
    assert u * minor - v * (q * minor) == e * minor by {
      assert v * (q * minor) == (v * q) * minor;
      Distribute(u, v * q, minor);
    }
    EvenBelowOdd(2 * e, minor, q, e * minor);
  }

  lemma {:induction false} EvenBelowOdd(f: int, minor: nat, q: nat, x: int)
    requires q % 2 == 1 && f % 2 == 0 && f * minor == 2 * x && 2 * Abs(x) < q * minor + minor
    ensures 2 * Abs(x) < q * minor
  {
    assert (-f) * minor == -2 * x && (q + 1) * minor == q * minor + minor;
    CancelLess(f, q + 1, minor);
    CancelLess(-f, q + 1, minor);
    LessTimes(f, q, minor);
    LessTimes(-f, q, minor);
  }

  lemma {:induction false} NearestOf(u: nat, minor: nat, major: nat, v: int)
    requires 2 * Abs(u * minor - v * major) < major
    ensures Rounded(u, minor, major) == v
  {
    assert (2 * v - 1) * major == 2 * (v * major) - major && (2 * v + 1) * major == 2 * (v * major) + major;
    RoundedUnique(u, minor, major, v);
  }

  lemma {:induction false} PassesFrom(major: nat, minor: nat, k: int, o: XY, a: int, c: int, d: int)
    requires major > 0 && minor > 0 && k == major * minor && 0 < k && 0 <= a <= 4 * k
    requires a * major - o.x * (4 * k) == c * major && Abs(c) < 2 * minor
    requires a * minor - o.y * (4 * k) == d * minor && Abs(d) < 2 * major
    ensures Passes(major, minor, o, a, 4 * k)
  {
    BelowDouble(c, minor, major, k);
    BelowDouble(d, major, minor, k);
  }

  lemma {:induction false} BelowDouble(c: int, half: nat, m: nat, k: int)
    requires m > 0 && Abs(c) < 2 * half && k == half * m
    ensures Abs(2 * (c * m)) < 4 * k
  {
    LessTimes(c, 2 * half, m);
    LessTimes(-c, 2 * half, m);
    assert (2 * half) * m == 2 * k && (-c) * m == -(c * m);
  }

  lemma {:induction false} CutBelow(t: nat, minor: nat, major: nat)
    requires 0 < minor <= major <= 2 * (t * minor) < major + minor
    ensures Crosses(major, minor, XY(t, 0)) && Rounded(t, minor, major) != 0
  {
    hide Rounded;
    RoundedBounds(t, minor, major);
    var m, k := t * minor, major * minor;
    var a := 2 * m - minor + major;
    AtLeastOnce(minor, major);
    ProductsBelow(t, minor, major);
    PassesFrom(major, minor, k, XY(t, 0), a, major - minor - 2 * m, a);
  }

  lemma {:induction false} CutAbove(t: nat, minor: nat, major: nat)
    requires 0 < minor <= major && t > 0 && 2 * (t * minor - minor) < major < 2 * (t * minor) - minor
    ensures Crosses(major, minor, XY(t - 1, 1)) && Rounded(t - 1, minor, major) != 1
  {
    hide Rounded;
    RoundedBounds(t - 1, minor, major);
    assert (t - 1) * minor == t * minor - minor;
    var m, k := t * minor, major * minor;
    var a := 2 * m - minor + major;
    AtLeastOnce(minor, major);
    ProductsAbove(t, minor, major);
    PassesFrom(major, minor, k, XY(t - 1, 1), a, major + 3 * minor - 2 * m, a - 4 * major);
  }

  /** The first column where the line is half a cell up: unless it is reached exactly at a corner, the
      line cuts through a cell beside the two that are visited there. */
  lemma {:induction false} CellCut(minor: nat, major: nat) returns (o: XY)
    requires 0 < minor <= major && !OddRatio(minor, major)
    ensures Crosses(major, minor, o) && o.x >= 0 && Rounded(o.x, minor, major) != o.y
  {
    var t := (major + 2 * minor - 1) / (2 * minor);
    FirstHalf(minor, major);
    CornerIsOdd(t, minor, major);
    hide OddRatio, Rounded, Crosses;
    if 2 * (t * minor) < major + minor {
      o := XY(t, 0);
      CutBelow(t, minor, major);
    } else {
      o := XY(t - 1, 1);
      CutAbove(t, minor, major);
    }
  }

  lemma {:induction false} FirstHalf(minor: nat, major: nat)
    requires 0 < minor && 0 < major
    ensures var t := (major + 2 * minor - 1) / (2 * minor);
            2 * (t * minor - minor) < major <= 2 * (t * minor) && t > 0
  {
    var v := major + 2 * minor - 1;
    var t := v / (2 * minor);
    assert v == t * (2 * minor) + v % (2 * minor);
    assert t * (2 * minor) == 2 * (t * minor);
    if t <= 0 {
      MonotoneTimes(t, 0, minor);
    }
  }

  lemma {:induction false} CornerIsOdd(t: nat, minor: nat, major: nat)
    requires 0 < minor && t > 0
    ensures 2 * (t * minor) == major + minor ==> OddRatio(minor, major)
  {
    if 2 * (t * minor) == major + minor {
      assert major == (2 * t - 1) * minor + 0;
      QuotientUnique(major, minor, 2 * t - 1, 0);
    }
  }

  lemma {:induction false} ProductsBelow(t: nat, minor: nat, major: nat)
    ensures var m, k := t * minor, major * minor;
            var a := 2 * m - minor + major;
            a * major - t * (4 * k) == (major - minor - 2 * m) * major
  {
    var m, k := t * minor, major * minor;
    FourTimes(t, minor, major);
    assert (2 * m - minor + major) * major == 2 * (m * major) - k + major * major;
    assert (major - minor - 2 * m) * major == major * major - k - 2 * (m * major);
  }

  lemma {:induction false} ProductsAbove(t: nat, minor: nat, major: nat)
    ensures var m, k := t * minor, major * minor;
            var a := 2 * m - minor + major;
            && a * major - (t - 1) * (4 * k) == (major + 3 * minor - 2 * m) * major
            && a * minor - 1 * (4 * k) == (a - 4 * major) * minor
  {
    var m, k := t * minor, major * minor;
    var a := 2 * m - minor + major;
    FourTimes(t, minor, major);
    assert (t - 1) * (4 * k) == t * (4 * k) - 4 * k;
    assert a * major == 2 * (m * major) - k + major * major;
    assert (major + 3 * minor - 2 * m) * major == major * major + 3 * k - 2 * (m * major);
    assert (a - 4 * major) * minor == a * minor - 4 * k;
  }

  lemma {:induction false} FourTimes(t: nat, minor: nat, major: nat)
    ensures t * (4 * (major * minor)) == 4 * ((t * minor) * major)
  {
    assert t * (major * minor) == (t * minor) * major;
  }

  lemma {:induction false} SwapAxes(dx: nat, dy: nat, o: XY)
    ensures Crosses(dx, dy, o) <==> Crosses(dy, dx, XY(o.y, o.x))
    ensures dx != dy ==> (Visits(dx, dy, o) <==> Visits(dy, dx, XY(o.y, o.x)))
  {
    hide Rounded;
    if a, b :| Passes(dx, dy, o, a, b) {
      assert Passes(dy, dx, XY(o.y, o.x), a, b);
    }
    if a, b :| Passes(dy, dx, XY(o.y, o.x), a, b) {
      assert Passes(dx, dy, o, a, b);
    }
    if dx != dy {
      assert forall t: nat :: Offset(dx, dy, t) == o <==> Offset(dy, dx, t) == XY(o.y, o.x);
    }
  }

  lemma {:induction false} WideVisits(dx: nat, dy: nat)
    requires dx >= dy
    ensures VisitsAllCrossed(dx, dy) <==> OddRatio(dy, dx)
  {
    hide OddRatio, Rounded, Passes, Crosses;
    if OddRatio(dy, dx) {
      forall o | Crosses(dx, dy, o) ensures Visits(dx, dy, o) {
        CrossedInStrip(dx, dy, o);
        assert Rounded(o.x, dy, dx) == o.y by {
          if dy > 0 {
            OddRatioVisits(dy, dx, o.x, o.y);
          } else {
            FlatVisits(o.x, dx);
          }
        }
        assert Offset(dx, dy, o.x) == o;
      }
    } else {
      assert dy > 0 by { NotFlat(dy, dx); }
      var o := CellCut(dy, dx);
      assert !Visits(dx, dy, o);
    }
  }

  lemma {:induction false} FlatVisits(t: nat, major: nat)
    ensures Rounded(t, 0, major) == 0
  {
    if major > 0 {
      assert t * 0 == 0 && 0 * major == 0;
      NearestOf(t, 0, major, 0);
    }
  }

  lemma {:induction false} NotFlat(minor: nat, major: nat)
    requires !OddRatio(minor, major)
    ensures minor > 0
  {
  }

  /** The rasterization is said to visit every cell the segment crosses. It does so exactly when the
      segment is level, upright, or its longer side is an odd multiple of the shorter. */
  lemma {:induction false} VisitsEveryCrossedCell(dx: nat, dy: nat)
    ensures VisitsAllCrossed(dx, dy) <==> if dx >= dy then OddRatio(dy, dx) else OddRatio(dx, dy)
  {
    hide OddRatio, Visits, Crosses;
    if dx >= dy {
      WideVisits(dx, dy);
    } else {
      WideVisits(dy, dx);
      forall o ensures (Crosses(dx, dy, o) ==> Visits(dx, dy, o))
                       <==> (Crosses(dy, dx, XY(o.y, o.x)) ==> Visits(dy, dx, XY(o.y, o.x))) {
        SwapAxes(dx, dy, o);
      }
      if VisitsAllCrossed(dx, dy) {
        forall o | Crosses(dy, dx, o) ensures Visits(dy, dx, o) {
          var p := XY(o.y, o.x);
          SwapAxes(dx, dy, p);
          assert XY(p.y, p.x) == o;
        }
      }
    }
  }

  /** From (0, 0) to (2, 1) the cell (1, 0) is crossed and not visited. */
  lemma {:induction false} KnightMoveSkips()
    ensures Crosses(2, 1, XY(1, 0)) && !Visits(2, 1, XY(1, 0))
  {
    assert Passes(2, 1, XY(1, 0), 3, 8);
    assert Rounded(1, 1, 2) == 1;
  }

  // ----- The keys around a cell -----

  predicate InGrid(zoom: nat, c: XY) {
    0 <= c.x < Pow2(zoom) && 0 <= c.y < Pow2(zoom)
  }

  /** The key of a cell: rows count from the north here and from the south in a key. */
  function KeyOf(zoom: nat, c: XY): TileKey {
    TileKey(zoom, c.x, Pow2(zoom) - 1 - c.y)
  }

  /** The first n cells from c's left neighbour at the radius on, as far as they are in the grid. */
  function RowKeys(zoom: nat, radius: nat, c: XY, n: nat): seq<TileKey> {
    if n == 0 then []
    else
      var d := XY(c.x - radius + n - 1, c.y);
      RowKeys(zoom, radius, c, n - 1) + if 0 <= d.x < Pow2(zoom) then [KeyOf(zoom, d)] else []
  }

  function BlockKeys(zoom: nat, radius: nat, c: XY, n: nat): seq<TileKey> {
    if n == 0 then []
    else
      var d := XY(c.x, c.y - radius + n - 1);
      BlockKeys(zoom, radius, c, n - 1) + if 0 <= d.y < Pow2(zoom) then RowKeys(zoom, radius, d, 2 * radius + 1) else []
  }

  function Around(zoom: nat, radius: nat, c: XY): seq<TileKey> {
    BlockKeys(zoom, radius, c, 2 * radius + 1)
  }

  lemma {:induction false} RowExact(zoom: nat, radius: nat, c: XY, n: nat, k: TileKey)
    ensures k in RowKeys(zoom, radius, c, n) <==>
              && k.z == zoom && 0 <= k.x < Pow2(zoom) && k.y == Pow2(zoom) - 1 - c.y
              && c.x - radius <= k.x < c.x - radius + n
  {
    if n > 0 {
      RowExact(zoom, radius, c, n - 1, k);
    }
  }

  lemma {:induction false} BlockExact(zoom: nat, radius: nat, c: XY, n: nat, k: TileKey)
    ensures k in BlockKeys(zoom, radius, c, n) <==>
              && k.z == zoom && 0 <= k.x < Pow2(zoom) && 0 <= k.y < Pow2(zoom)
              && c.x - radius <= k.x <= c.x + radius
              && c.y - radius <= Pow2(zoom) - 1 - k.y < c.y - radius + n
  {
    hide RowKeys;
    if n > 0 {
      BlockExact(zoom, radius, c, n - 1, k);
      RowExact(zoom, radius, XY(c.x, c.y - radius + n - 1), 2 * radius + 1, k);
    }
  }

  /** Exactly the keys of the zoom whose cells are no more than the radius away in either direction. */
  lemma {:induction false} AroundExact(zoom: nat, radius: nat, c: XY, k: TileKey)
    requires zoom <= MAX_ROUTE_ZOOM
    ensures k in Around(zoom, radius, c) <==>
              && k.z == zoom && ValidKey(k)
              && Abs(k.x - c.x) <= radius && Abs(Pow2(zoom) - 1 - k.y - c.y) <= radius
  {
    hide Pow2;
    BlockExact(zoom, radius, c, 2 * radius + 1, k);
  }

  // ----- The corridor of a route -----

  /** Of the two ways around the world the shorter one. */
  function ShortWay(zoom: nat, start: XY, end: XY): XY {
    var n := Pow2(zoom);
    if Abs(end.x - start.x) > n / 2 then XY(if end.x > start.x then end.x - n else end.x + n, end.y) else end
  }

  lemma {:induction false} ShortWayIsShort(zoom: nat, start: XY, end: XY)
    requires InGrid(zoom, start) && InGrid(zoom, end)
    ensures var e := ShortWay(zoom, start, end);
            && Abs(e.x - start.x) <= Pow2(zoom) / 2 && e.x % Pow2(zoom) == end.x && e.y == end.y
  {
    var n := Pow2(zoom);
    if end.x >= 0 {
      QuotientUnique(end.x - n, n, -1, end.x);
      QuotientUnique(end.x + n, n, 1, end.x);
      QuotientUnique(end.x, n, 0, end.x);
    }
  }

  function Wrapped(zoom: nat, c: XY): XY {
    XY(c.x % Pow2(zoom), c.y)
  }

  /** The remainder of the language takes the sign of the dividend. */
  function Rem(a: int, n: nat): int
    requires n > 0
  {
    if a >= 0 then a % n else -((-a) % n)
  }

  lemma {:induction false} WrapIsMod(x: int, n: nat)
    requires n > 0
    ensures Rem(Rem(x, n) + n, n) == x % n
  {
    var r := Rem(x, n);
    if x >= 0 {
      QuotientUnique(r + n, n, 1, r);
    } else {
      var q, s := (-x) / n, (-x) % n;
      assert -x == q * n + s;
      assert (-q) * n == -(q * n) && (-q - 1) * n == -(q * n) - n;
      if s == 0 {
        QuotientUnique(x, n, -q, 0);
        QuotientUnique(n, n, 1, 0);
      } else {
        QuotientUnique(x, n, -q - 1, n - s);
        QuotientUnique(n - s, n, 0, n - s);
      }
    }
  }

  /** What the first m cells of the line from start to end are widened to. */
  function LineKeys(zoom: nat, radius: nat, start: XY, end: XY, m: nat): seq<TileKey> {
    if m == 0 then []
    else LineKeys(zoom, radius, start, end, m - 1) + Around(zoom, radius, Wrapped(zoom, CellOnLine(start, end, m - 1)))
  }

  /** A segment is followed the shorter way around the world. */
  function SegmentKeys(zoom: nat, radius: nat, start: XY, end: XY): seq<TileKey> {
    var e := ShortWay(zoom, start, end);
    LineKeys(zoom, radius, start, e, LineSteps(start, e) + 1)
  }

  /** The first n points' segments, with every key as often as it is met. */
  function Traversal(zoom: nat, radius: nat, points: seq<XY>, n: nat): seq<TileKey>
    requires 0 < n <= |points|
  {
    if n == 1 then if |points| == 1 then Around(zoom, radius, points[0]) else []
    else Traversal(zoom, radius, points, n - 1) + SegmentKeys(zoom, radius, points[n - 2], points[n - 1])
  }

  /** The distinct keys of a sequence in the order they first appear. */
  function Dedup(ts: seq<TileKey>): seq<TileKey> {
    if ts == [] then []
    else
      var d, k := Dedup(ts[..|ts| - 1]), ts[|ts| - 1];
      if k in d then d else d + [k]
  }

  lemma {:induction false} DedupExact(ts: seq<TileKey>)
    ensures Distinct(Dedup(ts))
    ensures forall k :: k in Dedup(ts) <==> k in ts
  {
    if ts != [] {
      var init, k := ts[..|ts| - 1], ts[|ts| - 1];
      DedupExact(init);
      assert ts == init + [k];
    }
  }

  lemma {:induction false} DedupGrows(a: seq<TileKey>, b: seq<TileKey>)
    requires a <= b
    ensures Dedup(a) <= Dedup(b)
  {
    if |a| < |b| {
      DedupGrows(a, b[..|b| - 1]);
    } else {
      assert a == b;
    }
  }

  function FirstDistinct(ts: seq<TileKey>, max: nat): seq<TileKey> {
    var d := Dedup(ts);
    if |d| <= max then d else d[..max]
  }

  class RouteCollector {
    const zoom: nat
    const radius: nat
    const maxTiles: nat
    var seen: set<TileKey>
    var result: seq<TileKey>
    var truncated: bool
    /** Everything offered so far. */
    ghost var all: seq<TileKey>

    constructor (zoom: nat, radius: nat, maxTiles: nat)
      ensures this.zoom == zoom && this.radius == radius && this.maxTiles == maxTiles
      ensures Collecting() && all == []
    {
      this.zoom, this.radius, this.maxTiles := zoom, radius, maxTiles;
      seen, result, truncated, all := {}, [], false, [];
    }

    ghost predicate Collecting()
      reads this
    {
      && result == Dedup(all) && |result| <= maxTiles && !truncated
      && seen == set k | k in result
    }

    /** The budget was reached: the result is settled, whatever else is offered. */
    ghost predicate Full()
      reads this
    {
      truncated && |Dedup(all)| > maxTiles && result == FirstDistinct(all, maxTiles)
    }

    method Offer(key: TileKey) returns (ok: bool)
      requires Collecting()
      modifies this
      ensures all == old(all) + [key]
      ensures if ok then Collecting() else Full()
    {
      all := all + [key];
      assert all[..|all| - 1] == old(all);
      if key in seen {
        return true;
      }
      if |result| == maxTiles {
        truncated := true;
        return false;
      }
      seen := seen + {key};
      result := result + [key];
      ok := true;
    }

    method EmitRow(c: XY) returns (ok: bool)
      requires Collecting() && 0 <= c.y < Pow2(zoom)
      modifies this
      ensures ok ==> Collecting() && all == old(all) + RowKeys(zoom, radius, c, 2 * radius + 1)
      ensures !ok ==> Full() && all <= old(all) + RowKeys(zoom, radius, c, 2 * radius + 1)
    {
      hide Dedup, FirstDistinct, Pow2;
      for offsetX := -(radius as int) to radius + 1
        invariant Collecting() && all == old(all) + RowKeys(zoom, radius, c, offsetX + radius)
      {
        var xx := c.x + offsetX;
        ghost var before := all;
        RowsGrow(zoom, radius, c, offsetX + radius + 1, 2 * radius + 1);
        if 0 <= xx < Pow2(zoom) {
          ok := Offer(KeyOf(zoom, XY(xx, c.y)));
          assert all == old(all) + RowKeys(zoom, radius, c, offsetX + radius + 1);
          if !ok {
            return;
          }
        }
      }
      ok := true;
    }

    /** emit: the keys around a cell, row by row, until the budget is reached. */
    method Emit(c: XY) returns (ok: bool)
      requires Collecting()
      modifies this
      ensures ok ==> Collecting() && all == old(all) + Around(zoom, radius, c)
      ensures !ok ==> Full() && all <= old(all) + Around(zoom, radius, c)
    {
      hide Dedup, FirstDistinct, Pow2, RowKeys, Collecting, Full;
      for offsetY := -(radius as int) to radius + 1
        invariant Collecting() && all == old(all) + BlockKeys(zoom, radius, c, offsetY + radius)
      {
        var yy := c.y + offsetY;
        BlocksGrow(zoom, radius, c, offsetY + radius + 1, 2 * radius + 1);
        if 0 <= yy < Pow2(zoom) {
          ghost var next := all + RowKeys(zoom, radius, XY(c.x, yy), 2 * radius + 1);
          assert next == old(all) + BlockKeys(zoom, radius, c, offsetY + radius + 1);
          ok := EmitRow(XY(c.x, yy));
          if !ok {
            return;
          }
        }
      }
      ok := true;
    }

    /** Bresenham's loop visits exactly the cells nearest to the line, in order. */
    method RasterizeRouteSegment(start: XY, end: XY) returns (ok: bool)
      requires Collecting()
      modifies this
      ensures ok ==> Collecting() && all == old(all) + LineKeys(zoom, radius, start, end, LineSteps(start, end) + 1)
      ensures !ok ==> Full() && all <= old(all) + LineKeys(zoom, radius, start, end, LineSteps(start, end) + 1)
    {
      hide Rounded, Around, Pow2, Collecting, Full, CellOnLine, ErrorAt, LineKeys, LineSteps, Rem;
      var x, y := start.x, start.y;
      var dx, dy := Abs(end.x - start.x), -(Abs(end.y - start.y) as int);
      var sx, sy := if x < end.x then 1 else -1, if y < end.y then 1 else -1;
      var err := dx + dy;
      ghost var t, m := 0, LineSteps(start, end);
      LineEnds(start, end);
      LineFirst(start, end);
      LineKeysStep(zoom, radius, start, end, 0);
      while true
        invariant t <= m && XY(x, y) == CellOnLine(start, end, t)
        invariant err == ErrorAt(start, end, t)
        invariant Collecting() && all == old(all) + LineKeys(zoom, radius, start, end, t)
        decreases m - t
      {
        WrapIsMod(x, Pow2(zoom));
        LinesGrow(zoom, radius, start, end, t + 1, m + 1);
        LineKeysStep(zoom, radius, start, end, t);
        ghost var next := all + Around(zoom, radius, Wrapped(zoom, XY(x, y)));
        assert next == old(all) + LineKeys(zoom, radius, start, end, t + 1);
        ok := Emit(XY(Rem(Rem(x, Pow2(zoom)) + Pow2(zoom), Pow2(zoom)), y));
        if !ok {
          return;
        }
        LineLast(start, end, t);
        if x == end.x && y == end.y {
          return true;
        }
        LineNext(start, end, t, err);
        var twice := 2 * err;
        if twice >= dy {
          err := err + dy;
          x := x + sx;
        }
        if twice <= dx {
          err := err + dx;
          y := y + sy;
        }
        t := t + 1;
      }
    }
  }

  function ErrorAt(start: XY, end: XY, t: nat): int {
    var dx, dy := Abs(end.x - start.x), Abs(end.y - start.y);
    var o := Offset(dx, dy, t);
    (o.y + 1) * dx - (o.x + 1) * dy
  }

  lemma {:induction false} LineKeysStep(zoom: nat, radius: nat, start: XY, end: XY, t: nat)
    ensures LineKeys(zoom, radius, start, end, 0) == []
    ensures LineKeys(zoom, radius, start, end, t + 1)
            == LineKeys(zoom, radius, start, end, t) + Around(zoom, radius, Wrapped(zoom, CellOnLine(start, end, t)))
  {
  }

  lemma {:induction false} LineFirst(start: XY, end: XY)
    ensures ErrorAt(start, end, 0) == Abs(end.x - start.x) - Abs(end.y - start.y)
  {
    var dx, dy := Abs(end.x - start.x), Abs(end.y - start.y);
    EndsRounded(if dx >= dy then dy else dx, Steps(dx, dy));
  }

  /** The loop's exit is the last cell and no other. */
  lemma {:induction false} LineLast(start: XY, end: XY, t: nat)
    requires t <= LineSteps(start, end)
    ensures CellOnLine(start, end, t) == end <==> t == LineSteps(start, end)
  {
    hide Rounded;
    LineEnds(start, end);
  }

  lemma {:induction false} LineNext(start: XY, end: XY, t: nat, err: int)
    requires t < LineSteps(start, end) && err == ErrorAt(start, end, t)
    ensures var dx, dy := Abs(end.x - start.x), Abs(end.y - start.y);
            var c, right, down := CellOnLine(start, end, t), 2 * err + dy >= 0, 2 * err <= dx;
            && CellOnLine(start, end, t + 1) == XY(if right then c.x + Sign(start.x, end.x) else c.x,
                                                   if down then c.y + Sign(start.y, end.y) else c.y)
            && ErrorAt(start, end, t + 1) == err - (if right then dy else 0) + (if down then dx else 0)
  {
    hide Offset;
    var dx, dy := Abs(end.x - start.x), Abs(end.y - start.y);
    TestsAreRounding(dx, dy, t, err);
    var o := Offset(dx, dy, t);
    Plus1(o.y + 1, dx);
    Plus1(o.x + 1, dy);
    Plus1(o.x, Sign(start.x, end.x));
    Plus1(o.y, Sign(start.y, end.y));
  }

  lemma {:induction false} Plus1(a: int, d: int)
    ensures (a + 1) * d == a * d + d
    ensures d * (a + 1) == d * a + d
  {
  }

  lemma {:induction false} RowsGrow(zoom: nat, radius: nat, c: XY, m: nat, n: nat)
    requires m <= n
    ensures RowKeys(zoom, radius, c, m) <= RowKeys(zoom, radius, c, n)
  {
    hide Pow2;
    if m < n {
      RowsGrow(zoom, radius, c, m, n - 1);
    }
  }

  lemma {:induction false} BlocksGrow(zoom: nat, radius: nat, c: XY, m: nat, n: nat)
    requires m <= n
    ensures BlockKeys(zoom, radius, c, m) <= BlockKeys(zoom, radius, c, n)
  {
    hide Pow2, RowKeys;
    if m < n {
      BlocksGrow(zoom, radius, c, m, n - 1);
    }
  }

  lemma {:induction false} LinesGrow(zoom: nat, radius: nat, start: XY, end: XY, m: nat, n: nat)
    requires m <= n
    ensures LineKeys(zoom, radius, start, end, m) <= LineKeys(zoom, radius, start, end, n)
  {
    hide Around, CellOnLine;
    if m < n {
      LinesGrow(zoom, radius, start, end, m, n - 1);
    }
  }

  lemma {:induction false} TraversalGrows(zoom: nat, radius: nat, points: seq<XY>, m: nat, n: nat)
    requires 0 < m <= n <= |points|
    ensures Traversal(zoom, radius, points, m) <= Traversal(zoom, radius, points, n)
  {
    hide SegmentKeys, Around;
    if m < n {
      TraversalGrows(zoom, radius, points, m, n - 1);
    }
  }

  // ----- RouteTileKeys -----

  datatype Corridor = Rejected | Keys(keys: seq<TileKey>, truncated: bool)

  /** The first maxTiles distinct keys of the whole traversal, and whether there are more. */
  ghost predicate RightCorridor(zoom: nat, radius: nat, maxTiles: nat, points: seq<XY>, c: Corridor)
    requires points != []
  {
    var whole := Traversal(zoom, radius, points, |points|);
    c.Keys? && c.keys == FirstDistinct(whole, maxTiles) && (c.truncated <==> |Dedup(whole)| > maxTiles)
  }

  predicate Accepted(zoom: int, radius: int, maxTiles: int, count: nat) {
    0 <= zoom <= MAX_ROUTE_ZOOM && 0 <= radius <= MAX_ROUTE_RADIUS && maxTiles >= 0 && count > 0
  }

  /** The cell of each point of a route, or nothing for coordinates outside WGS84. */
  type Projection = seq<Option<XY>>

  predicate AllInWorld(route: Projection) {
    forall i :: 0 <= i < |route| ==> route[i].Some?
  }

  function Cells(route: Projection): (points: seq<XY>)
    requires AllInWorld(route)
    ensures |points| == |route|
  {
    seq(|route|, i requires 0 <= i < |route| => route[i].value)
  }

  method ProjectRoute(route: Projection) returns (points: Option<seq<XY>>)
    ensures points == if AllInWorld(route) then Some(Cells(route)) else None
  {
    var cells: seq<XY> := [];
    for index := 0 to |route|
      invariant AllInWorld(route[..index]) && cells == Cells(route[..index])
    {
      if route[index].None? {
        return None;
      }
      cells := cells + [route[index].value];
    }
    assert route[..|route|] == route;
    points := Some(cells);
  }

  /** A route is refused for a parameter out of range, or for a point out of the world, unless its budget
      is zero: then the points are not looked at. */
  method RouteTileKeys(route: Projection, zoom: int, radius: int, maxTiles: int) returns (c: Corridor)
    requires 0 <= zoom <= MAX_ROUTE_ZOOM ==>
               forall i :: 0 <= i < |route| && route[i].Some? ==> InGrid(zoom, route[i].value)
    ensures !Accepted(zoom, radius, maxTiles, |route|) ==> c.Rejected?
    ensures Accepted(zoom, radius, maxTiles, |route|) && AllInWorld(route) ==>
              RightCorridor(zoom, radius, maxTiles, Cells(route), c)
    ensures Accepted(zoom, radius, maxTiles, |route|) && !AllInWorld(route) ==>
              c == if maxTiles == 0 then Keys([], true) else Rejected
  {
    hide Pow2, Traversal, Dedup;
    if zoom < 0 || zoom > MAX_ROUTE_ZOOM || radius < 0 || radius > MAX_ROUTE_RADIUS || maxTiles < 0 || |route| == 0 {
      return Rejected;
    }
    if maxTiles == 0 {
      if AllInWorld(route) {
        TraversalNotEmpty(zoom, radius, Cells(route));
      }
      return Keys([], true);
    }
    var points := ProjectRoute(route);
    if points.None? {
      return Rejected;
    }
    c := CollectRoute(points.value, zoom, radius, maxTiles);
  }

  method CollectRoute(points: seq<XY>, zoom: nat, radius: nat, maxTiles: nat) returns (c: Corridor)
    requires zoom <= MAX_ROUTE_ZOOM && radius <= MAX_ROUTE_RADIUS && maxTiles > 0 && points != []
    requires forall i :: 0 <= i < |points| ==> InGrid(zoom, points[i])
    ensures RightCorridor(zoom, radius, maxTiles, points, c)
  {
    hide Pow2, Around, SegmentKeys, Dedup, RouteCollector.Collecting, RouteCollector.Full, Traversal;
    var collector := new RouteCollector(zoom, radius, maxTiles);
    if |points| == 1 {
      OnePointTraversal(zoom, radius, points);
      var ok := collector.Emit(points[0]);
    } else {
      FollowRoute(collector, points);
    }
    Settled(collector, Traversal(zoom, radius, points, |points|));
    c := Keys(collector.result, collector.truncated);
  }

  lemma {:induction false} OnePointTraversal(zoom: nat, radius: nat, points: seq<XY>)
    requires |points| == 1
    ensures Traversal(zoom, radius, points, |points|) == Around(zoom, radius, points[0])
    ensures [] + Around(zoom, radius, points[0]) == Around(zoom, radius, points[0])
  {
  }

  /** Segment after segment until the budget is reached. */
  method FollowRoute(collector: RouteCollector, points: seq<XY>)
    requires |points| > 1 && collector.Collecting() && collector.all == []
    modifies collector
    ensures var whole := Traversal(collector.zoom, collector.radius, points, |points|);
            (collector.Collecting() && collector.all == whole) || (collector.Full() && collector.all <= whole)
  {
    hide RouteCollector.Collecting, RouteCollector.Full, ShortWay, LineKeys, SegmentKeys, Around, Pow2;
    var zoom, radius := collector.zoom, collector.radius;
    var index := 1;
    while index < |points|
      invariant 1 <= index <= |points| && collector.Collecting()
      invariant collector.all == Traversal(zoom, radius, points, index)
    {
      var start, end := points[index - 1], points[index];
      TraversalGrows(zoom, radius, points, index + 1, |points|);
      SegmentKeysAre(zoom, radius, start, end);
      var ok := collector.RasterizeRouteSegment(start, ShortWay(zoom, start, end));
      if !ok {
        return;
      }
      index := index + 1;
    }
  }

  lemma {:induction false} SegmentKeysAre(zoom: nat, radius: nat, start: XY, end: XY)
    ensures var e := ShortWay(zoom, start, end);
            SegmentKeys(zoom, radius, start, end) == LineKeys(zoom, radius, start, e, LineSteps(start, e) + 1)
  {
  }

  /** However far the collector got, its result is that of the whole traversal. */
  lemma {:induction false} Settled(c: RouteCollector, whole: seq<TileKey>)
    requires (c.Collecting() && c.all == whole) || (c.Full() && c.all <= whole)
    ensures c.result == FirstDistinct(whole, c.maxTiles) && (c.truncated <==> |Dedup(whole)| > c.maxTiles)
  {
    DedupGrows(c.all, whole);
  }

  lemma {:induction false} TraversalNotEmpty(zoom: nat, radius: nat, points: seq<XY>)
    requires zoom <= MAX_ROUTE_ZOOM && points != [] && forall i :: 0 <= i < |points| ==> InGrid(zoom, points[i])
    ensures |Dedup(Traversal(zoom, radius, points, |points|))| > 0
  {
    hide Pow2, Around, SegmentKeys;
    var whole := Traversal(zoom, radius, points, |points|);
    var k := KeyOf(zoom, points[0]);
    if |points| == 1 {
      AroundExact(zoom, radius, points[0], k);
    } else {
      SegmentHasStart(zoom, radius, points[0], points[1]);
      TraversalGrows(zoom, radius, points, 2, |points|);
      assert Traversal(zoom, radius, points, 2)
             == Traversal(zoom, radius, points, 1) + SegmentKeys(zoom, radius, points[0], points[1]);
      InLonger(Traversal(zoom, radius, points, 2), whole, k);
    }
    DedupExact(whole);
  }

  lemma {:induction false} InLonger(a: seq<TileKey>, b: seq<TileKey>, k: TileKey)
    requires a <= b && k in a
    ensures k in b
  {
  }

  lemma {:induction false} WrappedInside(zoom: nat, c: XY)
    requires InGrid(zoom, c)
    ensures Wrapped(zoom, c) == c
  {
    hide Pow2;
    QuotientUnique(c.x, Pow2(zoom), 0, c.x);
  }

  lemma {:induction false} InItsAround(zoom: nat, radius: nat, c: XY)
    requires zoom <= MAX_ROUTE_ZOOM && InGrid(zoom, c)
    ensures KeyOf(zoom, c) in Around(zoom, radius, c)
  {
    hide Around;
    AroundExact(zoom, radius, c, KeyOf(zoom, c));
  }

  lemma {:induction false} SegmentHasStart(zoom: nat, radius: nat, start: XY, end: XY)
    requires zoom <= MAX_ROUTE_ZOOM && InGrid(zoom, start)
    ensures KeyOf(zoom, start) in SegmentKeys(zoom, radius, start, end)
  {
    hide Pow2, Around, LineSteps, ShortWay, CellOnLine, Wrapped;
    var k, e := KeyOf(zoom, start), ShortWay(zoom, start, end);
    InItsAround(zoom, radius, start);
    WrappedInside(zoom, start);
    LineEnds(start, e);
    LineKeysStep(zoom, radius, start, e, 0);
    assert LineKeys(zoom, radius, start, e, 1) == Around(zoom, radius, start);
    LinesGrow(zoom, radius, start, e, 1, LineSteps(start, e) + 1);
    InLonger(LineKeys(zoom, radius, start, e, 1), SegmentKeys(zoom, radius, start, end), k);
  }

  // ----- The request for a route -----

  lemma {:induction false} LineKeysValid(zoom: nat, radius: nat, start: XY, end: XY, m: nat, k: TileKey)
    requires zoom <= MAX_ROUTE_ZOOM && k in LineKeys(zoom, radius, start, end, m)
    ensures ValidKey(k)
  {
    hide Around, CellOnLine, ValidKey;
    if m > 0 {
      var c := Wrapped(zoom, CellOnLine(start, end, m - 1));
      AroundExact(zoom, radius, c, k);
      if k !in Around(zoom, radius, c) {
        LineKeysValid(zoom, radius, start, end, m - 1, k);
      }
    }
  }

  lemma {:induction false} TraversalValid(zoom: nat, radius: nat, points: seq<XY>, n: nat, k: TileKey)
    requires zoom <= MAX_ROUTE_ZOOM && 0 < n <= |points| && k in Traversal(zoom, radius, points, n)
    ensures ValidKey(k)
  {
    hide Around, ValidKey, LineSteps, LineKeys;
    if n == 1 {
      AroundExact(zoom, radius, points[0], k);
    } else {
      var start, end := points[n - 2], points[n - 1];
      if k in SegmentKeys(zoom, radius, start, end) {
        var e := ShortWay(zoom, start, end);
        LineKeysValid(zoom, radius, start, e, LineSteps(start, e) + 1, k);
      } else {
        TraversalValid(zoom, radius, points, n - 1, k);
      }
    }
  }

  /** A corridor always makes a request that validate accepts. */
  lemma {:induction false} CorridorAcceptable(points: seq<XY>, zoom: nat, radius: nat, maxTiles: nat, c: Corridor,
                                              concurrency: int)
    requires Accepted(zoom, radius, maxTiles, |points|) && RightCorridor(zoom, radius, maxTiles, points, c)
    ensures |c.keys| <= maxTiles
    ensures Acceptable(SyncRequest("", [], c.keys, concurrency)) <==> 0 <= concurrency <= MAX_SYNC_CONCURRENCY
  {
    hide Dedup, Traversal, ValidKey;
    var whole := Traversal(zoom, radius, points, |points|);
    DedupExact(whole);
    var r := SyncRequest("", [], c.keys, concurrency);
    forall i | 0 <= i < |c.keys| ensures ValidKey(c.keys[i]) {
      assert c.keys[i] == Dedup(whole)[i] && Dedup(whole)[i] in Dedup(whole);
      TraversalValid(zoom, radius, points, |points|, c.keys[i]);
    }
    assert AllKeys(r) == c.keys + RangesKeys([]) == c.keys;
  }
}
