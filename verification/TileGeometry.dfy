/** The geometry of vector tile features (internal/minigen/mvt.go): rings and lines as command integers,
    and their reading by the rules of section 4.3 of the Mapbox Vector Tile Specification 2.1. */
module TileGeometry {
  import opened Bits
  import opened Options
  import opened Varint
  import opened Protobuf
  import opened Geometry

  predicate Int64Point(p: Point) {
    IsInt64(p.x) && IsInt64(p.y)
  }

  ghost predicate Int64Points(ps: seq<Point>) {
    forall i :: 0 <= i < |ps| ==> Int64Point(ps[i])
  }

  // ----- Writing -----

  /** A parameter: the difference from the cursor, in 64-bit arithmetic. */
  function Delta(to: int, from: int): nat {
    ZigzagEncode(S64(to - from))
  }

  function PointCodes(p: Point, last: Point): seq<nat> {
    [Delta(p.x, last.x), Delta(p.y, last.y)]
  }

  function PointsCodes(ps: seq<Point>, last: Point): seq<nat> {
    if ps == [] then [] else PointCodes(ps[0], last) + PointsCodes(ps[1..], ps[0])
  }

  /** MoveTo once, LineTo for the other points, ClosePath. */
  function PathCodes(ps: seq<Point>, last: Point, close: bool): seq<nat>
    requires ps != []
  {
    [9] + PointCodes(ps[0], last)
    + (if |ps| > 1 then [8 * (|ps| - 1) + 2] + PointsCodes(ps[1..], ps[0]) else [])
    + (if close then [15] else [])
  }

  method AppendPoint(out0: Bytes, p: Point, last: Point) returns (out: Bytes)
    ensures out == out0 + EncodedAll(PointCodes(p, last))
  {
    hide Encoded, ZigzagEncode, S64;
    out := AppendVarint(out0, Delta(p.x, last.x));
    out := AppendVarint(out, Delta(p.y, last.y));
    var a, b := Delta(p.x, last.x), Delta(p.y, last.y);
    EncodedOne(b);
    assert [a, b][1..] == [b];
  }

  /** appendRing: the codes after what is there, and the cursor at the last point; closing does not
      move it. */
  method AppendRing(out0: Bytes, points: seq<Point>, last0: Point, close: bool) returns (out: Bytes, last: Point)
    requires points != []
    ensures out == out0 + EncodedAll(PathCodes(points, last0, close))
    ensures last == points[|points| - 1]
  {
    hide Encoded, PointCodes, PointsCodes, EncodedAll;
    out := AppendVarint(out0, 9);
    out := AppendPoint(out, points[0], last0);
    last := points[0];
    ghost var head := [9] + PointCodes(points[0], last0);
    EncodedOne(9);
    EncodedAllConcat([9], PointCodes(points[0], last0));
    ghost var lines := [];
    assert out == out0 + EncodedAll(head);
    if |points| > 1 {
      out, last := AppendLines(out, points);
      lines := [8 * (|points| - 1) + 2] + PointsCodes(points[1..], points[0]);
      EncodedAllConcat(head, lines);
    }
    assert head + [] == head;
    assert out == out0 + EncodedAll(head + lines);
    if close {
      out := AppendVarint(out, 15);
      EncodedOne(15);
      EncodedAllConcat(head + lines, [15]);
    }
    assert head + lines + [] == head + lines;
    assert PathCodes(points, last0, close) == head + lines + (if close then [15] else []);
  }

  /** The command for all the points after the first, written up to point i. */
  function LinesSoFar(out0: Bytes, points: seq<Point>, i: nat): Bytes
    requires 1 <= i <= |points|
  {
    out0 + EncodedAll([8 * (|points| - 1) + 2] + PointsCodes(points[1..i], points[0]))
  }

  method AppendLines(out0: Bytes, points: seq<Point>) returns (out: Bytes, last: Point)
    requires |points| > 1
    ensures out == out0 + EncodedAll([8 * (|points| - 1) + 2] + PointsCodes(points[1..], points[0]))
    ensures last == points[|points| - 1]
  {
    var n := |points|;
    assert points[1..n] == points[1..];
    KeyWordIs(n - 1, 2);
    LinesStart(out0, points);
    assert LinesSoFar(out0, points, n) == out0 + EncodedAll([8 * (n - 1) + 2] + PointsCodes(points[1..], points[0]));
    hide Encoded, PointCodes, PointsCodes, EncodedAll, Or, Shl, LinesSoFar;
    out := AppendVarint(out0, Or(Shl(n - 1, 3), 2));
    last := points[0];
    for i := 1 to n
      invariant last == points[i - 1] && out == LinesSoFar(out0, points, i)
    {
      out := AppendPoint(out, points[i], last);
      LinesGrow(out0, points, i);
      last := points[i];
    }
  }

  lemma {:induction false} LinesStart(out0: Bytes, points: seq<Point>)
    requires points != []
    ensures LinesSoFar(out0, points, 1) == out0 + Encoded(8 * (|points| - 1) + 2)
  {
    hide EncodedAll, Encoded;
    var word := 8 * (|points| - 1) + 2;
    EncodedOne(word);
    assert [word] + PointsCodes(points[1..1], points[0]) == [word];
  }

  lemma {:induction false} LinesGrow(out0: Bytes, points: seq<Point>, i: nat)
    requires 1 <= i < |points|
    ensures LinesSoFar(out0, points, i + 1)
            == LinesSoFar(out0, points, i) + EncodedAll(PointCodes(points[i], points[i - 1]))
  {
    hide EncodedAll, PointCodes, PointsCodes;
    var done := [8 * (|points| - 1) + 2] + PointsCodes(points[1..i], points[0]);
    EncodedAllConcat(done, PointCodes(points[i], points[i - 1]));
    PointsCodesAppend(points[1..i], points[i], points[0]);
    assert points[1..i] + [points[i]] == points[1..i + 1];
    assert done + PointCodes(points[i], points[i - 1])
        == [8 * (|points| - 1) + 2] + PointsCodes(points[1..i + 1], points[0]);
  }

  lemma {:induction false} PointsCodesAppend(ps: seq<Point>, p: Point, last: Point)
    ensures PointsCodes(ps + [p], last)
            == PointsCodes(ps, last) + PointCodes(p, if ps == [] then last else ps[|ps| - 1])
  {
    hide PointCodes;
    if ps == [] {
      assert PointsCodes([p][1..], p) == [];
    } else {
      assert (ps + [p])[1..] == ps[1..] + [p];
      PointsCodesAppend(ps[1..], p, ps[0]);
    }
  }

  // ----- Reading by the specification -----

  datatype Path = Path(points: seq<Point>, closed: bool)

  /** The paths so far and the cursor. */
  datatype Pen = Pen(paths: seq<Path>, cursor: Point)

  function Moved(c: Point, dx: nat, dy: nat): Point {
    Point(S64(c.x + Zigzag(dx)), S64(c.y + Zigzag(dy)))
  }

  /** MoveTo begins a path; LineTo goes on with one that is begun and not closed. */
  function Stroke(pen: Pen, id: nat, dx: nat, dy: nat): Option<Pen> {
    var to, n := Moved(pen.cursor, dx, dy), |pen.paths|;
    if id == 1 then Some(Pen(pen.paths + [Path([to], false)], to))
    else if n == 0 || pen.paths[n - 1].closed then None
    else Some(Pen(pen.paths[..n - 1] + [Path(pen.paths[n - 1].points + [to], false)], to))
  }

  /** ClosePath closes it and leaves the cursor where it is. */
  function ClosePath(pen: Pen): Option<Pen> {
    var n := |pen.paths|;
    if n == 0 || pen.paths[n - 1].closed then None
    else Some(pen.(paths := pen.paths[..n - 1] + [Path(pen.paths[n - 1].points, true)]))
  }

  /** left more points for the command id, then the next command integer: its low three bits name the
      command, the rest count its repetitions. */
  function Draw(codes: seq<nat>, id: nat, left: nat, pen: Pen): Option<Pen> {
    if left > 0 then
      if |codes| < 2 then None
      else
        match Stroke(pen, id, codes[0], codes[1])
        case None => None
        case Some(pen') => Draw(codes[2..], id, left - 1, pen')
    else if codes == [] then Some(pen)
    else
      var next, count := codes[0] % 8, codes[0] / 8;
      if (next == 1 || next == 2) && count > 0 then Draw(codes[1..], next, count, pen)
      else if next == 7 && count == 1 then
        match ClosePath(pen)
        case None => None
        case Some(pen') => Draw(codes[1..], 0, 0, pen')
      else None
  }

  function DecodeGeometry(b: Bytes): Option<seq<Path>> {
    match Unpacked(b)
    case None => None
    case Some(codes) =>
      match Draw(codes, 0, 0, Pen([], Point(0, 0)))
      case None => None
      case Some(pen) => Some(pen.paths)
  }

  /** Wrap-around in the difference is undone by wrap-around in the sum. */
  lemma {:induction false} DeltaMoves(to: int, from: int)
    requires IsInt64(to)
    ensures Delta(to, from) < TWO_64 && S64(from + Zigzag(Delta(to, from))) == to
  {
    hide ZigzagEncode, Zigzag;
    var d := S64(to - from);
    ZigzagCode(d);
    ZigzagInverse(d, 0);
    WrapBack(to, from);
  }

  lemma {:induction false} WrapBack(to: int, from: int)
    requires IsInt64(to)
    ensures S64(from + S64(to - from)) == to
  {
    var v := to - from;
    var q := v / TWO_64;
    assert v == q * TWO_64 + v % TWO_64;
    assert S64(v) == v - q * TWO_64 || S64(v) == v - (q + 1) * TWO_64;
    var k := if S64(v) == v - q * TWO_64 then q else q + 1;
    Multiples64(to, k);
  }

  lemma {:induction false} Multiples64(to: int, k: int)
    requires IsInt64(to)
    ensures S64(to - k * TWO_64) == to
  {
    if to >= 0 {
      QuotientUnique(to - k * TWO_64, TWO_64, -k, to);
    } else {
      QuotientUnique(to - k * TWO_64, TWO_64, -k - 1, to + TWO_64);
    }
  }

  lemma {:induction false} PointMoves(p: Point, last: Point)
    requires Int64Point(p)
    ensures Moved(last, Delta(p.x, last.x), Delta(p.y, last.y)) == p
  {
    hide Delta, Zigzag, S64;
    DeltaMoves(p.x, last.x);
    DeltaMoves(p.y, last.y);
  }

  /** The line commands of a path, drawn. */
  lemma {:induction false} DrawPoints(ps: seq<Point>, done: seq<Path>, begun: seq<Point>, last: Point, tail: seq<nat>)
    requires Int64Points(ps) && begun != []
    ensures Draw(PointsCodes(ps, last) + tail, 2, |ps|, Pen(done + [Path(begun, false)], last))
            == Draw(tail, 2, 0, Pen(done + [Path(begun + ps, false)], if ps == [] then last else ps[|ps| - 1]))
    decreases |ps|
  {
    hide Delta, Moved;
    if ps == [] {
      assert begun + ps == begun && PointsCodes(ps, last) + tail == tail;
    } else {
      var p, rest := ps[0], ps[1..];
      var codes := PointsCodes(ps, last) + tail;
      PointMoves(p, last);
      assert codes[2..] == PointsCodes(rest, p) + tail;
      assert (done + [Path(begun, false)])[..|done|] == done;
      DrawPoints(rest, done, begun + [p], p, tail);
      assert begun + [p] + rest == begun + ps;
    }
  }

  /** When no points are left the command does not matter. */
  lemma {:induction false} DrawIdle(codes: seq<nat>, id: nat, pen: Pen)
    ensures Draw(codes, id, 0, pen) == Draw(codes, 0, 0, pen)
  {
  }

  /** The codes of one path, drawn: the path is added and the cursor is at its last point. */
  lemma {:induction false} DrawPath(ps: seq<Point>, last: Point, close: bool, done: seq<Path>, tail: seq<nat>)
    requires ps != [] && Int64Points(ps)
    ensures Draw(PathCodes(ps, last, close) + tail, 0, 0, Pen(done, last))
            == Draw(tail, 0, 0, Pen(done + [Path(ps, close)], ps[|ps| - 1]))
  {
    hide Delta, Moved, PointsCodes;
    var closing := (if close then [15] else []) + tail;
    var lines := (if |ps| > 1 then [8 * (|ps| - 1) + 2] + PointsCodes(ps[1..], ps[0]) else []) + closing;
    assert PathCodes(ps, last, close) + tail == [9] + (PointCodes(ps[0], last) + lines);
    DrawFirst(ps[0], last, done, lines);
    DrawLines(ps, done, closing);
    DrawClose(ps, close, done, tail);
  }

  lemma {:induction false} DrawFirst(p: Point, last: Point, done: seq<Path>, tail: seq<nat>)
    requires Int64Point(p)
    ensures Draw([9] + (PointCodes(p, last) + tail), 0, 0, Pen(done, last))
            == Draw(tail, 0, 0, Pen(done + [Path([p], false)], p))
  {
    hide Delta, Moved;
    var codes := [9] + (PointCodes(p, last) + tail);
    PointMoves(p, last);
    var params := PointCodes(p, last) + tail;
    assert codes[1..] == params && params[2..] == tail;
    DrawIdle(tail, 1, Pen(done + [Path([p], false)], p));
  }

  lemma {:induction false} DrawLines(ps: seq<Point>, done: seq<Path>, tail: seq<nat>)
    requires ps != [] && Int64Points(ps)
    ensures Draw((if |ps| > 1 then [8 * (|ps| - 1) + 2] + PointsCodes(ps[1..], ps[0]) else []) + tail, 0, 0,
                 Pen(done + [Path([ps[0]], false)], ps[0]))
            == Draw(tail, 0, 0, Pen(done + [Path(ps, false)], ps[|ps| - 1]))
  {
    hide PointsCodes, Draw;
    if |ps| > 1 {
      var pen := Pen(done + [Path([ps[0]], false)], ps[0]);
      DrawPoints(ps[1..], done, [ps[0]], ps[0], tail);
      assert [ps[0]] + ps[1..] == ps;
      DrawIdle(tail, 2, Pen(done + [Path(ps, false)], ps[|ps| - 1]));
      DrawWord(|ps| - 1, PointsCodes(ps[1..], ps[0]), tail, pen);
    } else {
      assert [] + tail == tail && [ps[0]] == ps;
    }
  }

  lemma {:induction false} DrawWord(n: nat, rest: seq<nat>, tail: seq<nat>, pen: Pen)
    requires n > 0
    ensures Draw([8 * n + 2] + rest + tail, 0, 0, pen) == Draw(rest + tail, 2, n, pen)
  {
    assert ([8 * n + 2] + rest + tail)[1..] == rest + tail;
  }

  lemma {:induction false} DrawClose(ps: seq<Point>, close: bool, done: seq<Path>, tail: seq<nat>)
    requires ps != []
    ensures Draw((if close then [15] else []) + tail, 0, 0, Pen(done + [Path(ps, false)], ps[|ps| - 1]))
            == Draw(tail, 0, 0, Pen(done + [Path(ps, close)], ps[|ps| - 1]))
  {
    if close {
      assert ([15] + tail)[1..] == tail;
      assert (done + [Path(ps, false)])[..|done|] == done;
    } else {
      assert [] + tail == tail;
    }
  }

  // ----- Winding -----

  /** Twice the area of the ring closed from its last point to its first. */
  function AreaOf(ps: seq<Point>): int {
    if ps == [] then 0 else Shoelace(ps) + Cross(Edge(ps[|ps| - 1], ps[0]))
  }

  method SignedArea(points: seq<Point>) returns (sum: int)
    ensures sum == AreaOf(points)
  {
    hide Shoelace, Cross, AreaOf;
    sum := 0;
    AreaSoFar(points, 0);
    for i := 0 to |points|
      invariant sum == (if i < |points| then Shoelace(points[..i + 1]) else AreaOf(points))
    {
      AreaSoFar(points, i);
      var a, b := points[i], points[(i + 1) % |points|];
      sum := sum + (a.x * b.y - b.x * a.y);
    }
  }

  lemma {:induction false} AreaSoFar(points: seq<Point>, i: nat)
    requires i <= |points|
    ensures points == [] ==> AreaOf(points) == 0
    ensures points != [] ==> Shoelace(points[..1]) == 0
    ensures i < |points| ==>
              var a, b := points[i], points[(i + 1) % |points|];
              Shoelace(points[..i + 1]) + (a.x * b.y - b.x * a.y)
              == if i + 1 < |points| then Shoelace(points[..i + 2]) else AreaOf(points)
  {
    hide Shoelace;
    if points != [] {
      assert Shoelace(points[..1]) == 0 by { OnePoint(points[..1]); }
    }
    if i + 1 < |points| {
      Following(i, |points|);
      ShoelaceAppend(points[..i + 1], points[i + 1]);
      assert points[..i + 1] + [points[i + 1]] == points[..i + 2];
    } else if i + 1 == |points| {
      Following(i, |points|);
      assert points[..i + 1] == points;
    }
  }

  lemma {:induction false} Following(i: nat, n: nat)
    requires i < n
    ensures (i + 1) % n == if i + 1 < n then i + 1 else 0
  {
    QuotientUnique(i + 1, n, if i + 1 < n then 0 else 1, if i + 1 < n then i + 1 else 0);
  }

  lemma {:induction false} OnePoint(ps: seq<Point>)
    requires |ps| < 2
    ensures Shoelace(ps) == 0
  {
  }

  lemma {:induction false} ShoelaceAppend(r: seq<Point>, p: Point)
    requires r != []
    ensures Shoelace(r + [p]) == Shoelace(r) + Cross(Edge(r[|r| - 1], p))
  {
    hide Cross;
    if |r| > 1 {
      assert (r + [p])[1..] == r[1..] + [p];
      ShoelaceAppend(r[1..], p);
    } else {
      assert (r + [p])[1..] == [p];
    }
  }

  /** Backwards a ring has the opposite area. */
  lemma {:induction false} AreaReversed(ps: seq<Point>)
    ensures AreaOf(Reversed(ps)) == -AreaOf(ps)
  {
    if ps != [] {
      Antisymmetries(Point(0, 0));
      ReversedEdges(Cross, ps);
      ShoelaceOfEdges(ps);
      ShoelaceOfEdges(Reversed(ps));
      ReversedAt(ps, 0);
      ReversedAt(ps, |ps| - 1);
    }
  }

  function Wound(ps: seq<Point>, clockwise: bool): (r: seq<Point>)
    ensures |r| == |ps|
  {
    if (AreaOf(ps) > 0) == clockwise then ps else Reversed(ps)
  }

  method EnsureWinding(points: seq<Point>, clockwise: bool) returns (r: seq<Point>)
    ensures r == Wound(points, clockwise)
  {
    var area := SignedArea(points);
    if (area > 0) == clockwise {
      return points;
    }
    r := ReverseRing(points);
  }

  /** The points stay, in their order or backwards; unless the area is zero the ring is then wound as asked,
      and it keeps its area. */
  lemma {:induction false} WoundAsAsked(ps: seq<Point>, clockwise: bool)
    ensures if (AreaOf(ps) > 0) == clockwise then Wound(ps, clockwise) == ps else Backwards(ps, Wound(ps, clockwise))
    ensures AreaOf(ps) != 0 ==> (AreaOf(Wound(ps, clockwise)) > 0 <==> clockwise)
    ensures AreaOf(Wound(ps, clockwise)) == AreaOf(ps) || AreaOf(Wound(ps, clockwise)) == -AreaOf(ps)
  {
    hide Backwards, Reversed;
    AreaReversed(ps);
    ReversedBackwards(ps);
  }

  // ----- Points made ready to be drawn -----

  /** A position in degrees. */
  datatype Position = Position(longitude: real, latitude: real)

  /** How positions become pixels of a tile, and how lines and closed rings of pixels are simplified and
      clipped. */
  datatype Tools = Tools(project: Position -> Point, simplify: (seq<Point>, bool) -> seq<Point>,
                         clipLine: seq<Point> -> seq<Point>, clipPolygon: seq<Point> -> seq<Point>)

  function Projected(ps: seq<Position>, t: Tools): (qs: seq<Point>)
    ensures |qs| == |ps|
  {
    seq(|ps|, i requires 0 <= i < |ps| => t.project(ps[i]))
  }

  /** A ring without the repetition of its first point at its end. */
  function Unclosed(ps: seq<Point>): seq<Point> {
    if |ps| > 1 && ps[0] == ps[|ps| - 1] then ps[..|ps| - 1] else ps
  }

  function LinePoints(ps: seq<Position>, t: Tools): seq<Point> {
    t.clipLine(t.simplify(Projected(ps, t), false))
  }

  function RingPoints(ps: seq<Position>, t: Tools): seq<Point> {
    t.clipPolygon(t.simplify(Unclosed(Projected(ps, t)), true))
  }

  method Project(ps: seq<Position>, t: Tools) returns (qs: seq<Point>)
    ensures qs == Projected(ps, t)
  {
    qs := [];
    for i := 0 to |ps|
      invariant qs == Projected(ps, t)[..i]
    {
      qs := qs + [t.project(ps[i])];
    }
  }

  /** A ring as it is drawn, before its winding. */
  method PrepareRing(ps: seq<Position>, t: Tools) returns (points: seq<Point>)
    ensures points == RingPoints(ps, t)
  {
    points := Project(ps, t);
    if |points| > 1 && points[0] == points[|points| - 1] {
      points := points[..|points| - 1];
    }
    points := t.simplify(points, true);
    points := t.clipPolygon(points);
  }

  // ----- Whole geometries -----

  /** An exterior ring of a polygon, or a hole. */
  datatype Member = Member(points: seq<Position>, hole: bool)

  /** The rings that are drawn: three points or more, exterior rings wound one way and holes the other. */
  function Kept(rings: seq<Member>, t: Tools): (ks: seq<seq<Point>>)
    ensures forall i :: 0 <= i < |ks| ==> |ks[i]| >= 3
  {
    if rings == [] then []
    else
      var n := |rings| - 1;
      var ps := RingPoints(rings[n].points, t);
      Kept(rings[..n], t) + if |ps| < 3 then [] else [Wound(ps, !rings[n].hole)]
  }

  ghost predicate Nonempty(ks: seq<seq<Point>>) {
    forall i :: 0 <= i < |ks| ==> ks[i] != []
  }

  /** The cursor after ks. */
  function CursorAfter(ks: seq<seq<Point>>): Point
    requires Nonempty(ks)
  {
    if ks == [] then Point(0, 0) else var k := ks[|ks| - 1]; k[|k| - 1]
  }

  function RingsCodes(ks: seq<seq<Point>>): seq<nat>
    requires Nonempty(ks)
  {
    if ks == [] then []
    else
      var n := |ks| - 1;
      RingsCodes(ks[..n]) + PathCodes(ks[n], CursorAfter(ks[..n]), true)
  }

  /** One more ring either is not drawn or is drawn after the others. */
  lemma {:induction false} KeptMore(rings: seq<Member>, t: Tools, i: nat)
    requires i < |rings|
    ensures var ks, ps := Kept(rings[..i], t), RingPoints(rings[i].points, t);
            && (|ps| < 3 ==> Kept(rings[..i + 1], t) == ks)
            && (|ps| >= 3 ==>
                  var k := Wound(ps, !rings[i].hole);
                  && Kept(rings[..i + 1], t) == ks + [k] && CursorAfter(ks + [k]) == k[|k| - 1]
                  && EncodedAll(RingsCodes(ks + [k]))
                     == EncodedAll(RingsCodes(ks)) + EncodedAll(PathCodes(k, CursorAfter(ks), true)))
  {
    hide PathCodes, EncodedAll, Wound, RingPoints;
    assert rings[..i + 1][..i] == rings[..i];
    var ks, ps := Kept(rings[..i], t), RingPoints(rings[i].points, t);
    if |ps| < 3 {
      assert ks + [] == ks;
    } else {
      var k := Wound(ps, !rings[i].hole);
      assert (ks + [k])[..|ks|] == ks;
      EncodedAllConcat(RingsCodes(ks), PathCodes(k, CursorAfter(ks), true));
    }
  }

  method EncodeRings(rings: seq<Member>, t: Tools) returns (out: Bytes)
    ensures out == EncodedAll(RingsCodes(Kept(rings, t)))
  {
    hide PathCodes, EncodedAll, Wound, RingPoints, Kept, RingsCodes, CursorAfter;
    out := [];
    var last := Point(0, 0);
    NoRings(t);
    assert rings[..0] == [];
    for i := 0 to |rings|
      invariant out == EncodedAll(RingsCodes(Kept(rings[..i], t)))
      invariant last == CursorAfter(Kept(rings[..i], t))
    {
      KeptMore(rings, t, i);
      var points := PrepareRing(rings[i].points, t);
      if |points| >= 3 {
        points := EnsureWinding(points, !rings[i].hole);
        out, last := AppendRing(out, points, last, true);
      }
    }
    assert rings[..|rings|] == rings;
  }

  lemma {:induction false} NoRings(t: Tools)
    ensures Kept([], t) == [] && EncodedAll(RingsCodes([])) == [] && CursorAfter([]) == Point(0, 0)
  {
  }

  function ClosedPaths(ks: seq<seq<Point>>): (ps: seq<Path>)
    ensures |ps| == |ks|
  {
    seq(|ks|, i requires 0 <= i < |ks| => Path(ks[i], true))
  }

  ghost predicate Drawable(ks: seq<seq<Point>>) {
    forall i :: 0 <= i < |ks| ==> ks[i] != [] && Int64Points(ks[i]) && 8 * |ks[i]| < TWO_64
  }

  lemma {:induction false} DrawRings(ks: seq<seq<Point>>, tail: seq<nat>)
    requires Nonempty(ks) && Drawable(ks)
    ensures Draw(RingsCodes(ks) + tail, 0, 0, Pen([], Point(0, 0)))
            == Draw(tail, 0, 0, Pen(ClosedPaths(ks), CursorAfter(ks)))
  {
    hide PathCodes, Draw, Int64Points;
    if ks == [] {
      assert RingsCodes(ks) + tail == tail;
    } else {
      var n := |ks| - 1;
      var path := PathCodes(ks[n], CursorAfter(ks[..n]), true);
      assert RingsCodes(ks) + tail == RingsCodes(ks[..n]) + (path + tail);
      DrawRings(ks[..n], path + tail);
      DrawPath(ks[n], CursorAfter(ks[..n]), true, ClosedPaths(ks[..n]), tail);
      assert ClosedPaths(ks[..n]) + [Path(ks[n], true)] == ClosedPaths(ks);
    }
  }

  lemma {:induction false} PointsCodesWords(ps: seq<Point>, last: Point)
    requires Int64Points(ps)
    ensures Words(PointsCodes(ps, last))
  {
    hide Delta;
    if ps != [] {
      DeltaMoves(ps[0].x, last.x);
      DeltaMoves(ps[0].y, last.y);
      PointsCodesWords(ps[1..], ps[0]);
    }
  }

  lemma {:induction false} PathCodesWords(ps: seq<Point>, last: Point, close: bool)
    requires ps != [] && Int64Points(ps) && 8 * |ps| < TWO_64
    ensures Words(PathCodes(ps, last, close))
  {
    hide Delta, PointsCodes;
    DeltaMoves(ps[0].x, last.x);
    DeltaMoves(ps[0].y, last.y);
    PointsCodesWords(ps[1..], ps[0]);
  }

  lemma {:induction false} RingsCodesWords(ks: seq<seq<Point>>)
    requires Nonempty(ks) && Drawable(ks)
    ensures Words(RingsCodes(ks))
  {
    hide PathCodes, Int64Points;
    if ks != [] {
      var n := |ks| - 1;
      RingsCodesWords(ks[..n]);
      PathCodesWords(ks[n], CursorAfter(ks[..n]), true);
    }
  }

  /** Reading what was written gives exactly the rings back, closed and in order, with the winding they
      were given, whatever their coordinates. */
  lemma {:induction false} RingsRoundTrip(ks: seq<seq<Point>>)
    requires Nonempty(ks) && Drawable(ks)
    ensures DecodeGeometry(EncodedAll(RingsCodes(ks))) == Some(ClosedPaths(ks))
  {
    hide EncodedAll, Unpacked, RingsCodes;
    RingsCodesWords(ks);
    UnpackedPacked(RingsCodes(ks));
    DrawRings(ks, []);
    assert RingsCodes(ks) + [] == RingsCodes(ks);
  }

  lemma {:induction false} RingsEmpty(ks: seq<seq<Point>>)
    requires Nonempty(ks)
    ensures EncodedAll(RingsCodes(ks)) == [] <==> ks == []
  {
    hide EncodedAll;
    EncodedEmpty(RingsCodes(ks));
  }

  /** A single line or ring. */
  method CommandGeometry(points: seq<Point>, polygon: bool) returns (out: Bytes)
    requires points != []
    ensures out == EncodedAll(PathCodes(points, Point(0, 0), polygon)) && out != []
    ensures Drawable([points]) ==> DecodeGeometry(out) == Some([Path(points, polygon)])
  {
    hide EncodedAll, Unpacked, PathCodes, Int64Points;
    var last;
    out, last := AppendRing([], points, Point(0, 0), polygon);
    ghost var codes := PathCodes(points, Point(0, 0), polygon);
    EncodedEmpty(codes);
    PathBegins(points, polygon);
    if Drawable([points]) {
      assert [points][0] == points;
      PathCodesWords(points, Point(0, 0), polygon);
      UnpackedPacked(codes);
      DrawPath(points, Point(0, 0), polygon, [], []);
      assert codes + [] == codes && [] + [Path(points, polygon)] == [Path(points, polygon)];
    }
  }

  lemma {:induction false} PathBegins(points: seq<Point>, polygon: bool)
    requires points != []
    ensures PathCodes(points, Point(0, 0), polygon) != []
  {
  }

  // ----- The geometry of a feature -----

  const LINE := 2
  const POLYGON := 3

  /** What a feature is drawn from; a polygon with rings has no use for its points. */
  datatype Shape = Shape(kind: int, points: seq<Position>, rings: seq<Member>)

  /** The paths a reader should see: the rings of a polygon that are left, or one line of two points or
      more, or one ring of three. */
  function Paths(s: Shape, t: Tools): (ps: seq<Path>)
    ensures ps != [] ==> s.kind == LINE || s.kind == POLYGON
  {
    if s.kind == POLYGON && s.rings != [] then ClosedPaths(Kept(s.rings, t))
    else if s.kind == LINE && |LinePoints(s.points, t)| >= 2 then [Path(LinePoints(s.points, t), false)]
    else if s.kind == POLYGON && |RingPoints(s.points, t)| >= 3 then [Path(RingPoints(s.points, t), true)]
    else []
  }

  // ----- What a shape is to look like -----

  /** q is p without the repetition of its first point at its end, if there is one. */
  predicate Reopened(p: seq<Point>, q: seq<Point>) {
    if |p| > 1 && p[0] == p[|p| - 1] then |q| + 1 == |p| && q + [q[0]] == p else q == p
  }

  lemma {:induction false} UnclosedReopened(p: seq<Point>)
    ensures Reopened(p, Unclosed(p))
  {
  }

  /** What is left of a ring once it is projected, simplified and clipped, in this order. */
  ghost predicate Remains(ps: seq<Position>, t: Tools, left: seq<Point>) {
    exists p, q :: Projects(ps, t, p) && Reopened(p, q) && left == t.clipPolygon(t.simplify(q, true))
  }

  predicate Projects(ps: seq<Position>, t: Tools, p: seq<Point>) {
    |p| == |ps| && forall i :: 0 <= i < |ps| ==> p[i] == t.project(ps[i])
  }

  lemma {:induction false} RingRemains(ps: seq<Position>, t: Tools)
    ensures Remains(ps, t, RingPoints(ps, t))
  {
    var p := Projected(ps, t);
    UnclosedReopened(p);
    assert Projects(ps, t, p);
  }

  /** A path shows a member's remains as a closed ring, exteriors with positive area and holes with negative. */
  ghost predicate ShowsMember(m: Member, t: Tools, path: Path) {
    path.closed && exists left :: Remains(m.points, t, left) && |left| >= 3
                                  && (path.points == left || Backwards(left, path.points))
                                  && (AreaOf(left) != 0 ==> (AreaOf(path.points) > 0 <==> !m.hole))
  }

  /** The increasing indices ix name exactly the members that three points are left of, and the paths show them
      in order. */
  ghost predicate ShowsRings(rings: seq<Member>, t: Tools, ix: seq<nat>, ps: seq<Path>) {
    && |ps| == |ix|
    && (forall j :: 0 <= j < |ix| ==> ix[j] < |rings| && ShowsMember(rings[ix[j]], t, ps[j]))
    && (forall j, k :: 0 <= j < k < |ix| ==> ix[j] < ix[k])
    && (forall i :: 0 <= i < |rings| && i !in ix ==> LeavesLittle(rings[i], t))
  }

  ghost predicate LeavesLittle(m: Member, t: Tools) {
    exists left :: Remains(m.points, t, left) && |left| < 3
  }

  lemma {:induction false} WoundShows(m: Member, t: Tools)
    requires |RingPoints(m.points, t)| >= 3
    ensures ShowsMember(m, t, Path(Wound(RingPoints(m.points, t), !m.hole), true))
  {
    hide Wound, AreaOf, Backwards, RingPoints, Remains;
    RingRemains(m.points, t);
    WoundAsAsked(RingPoints(m.points, t), !m.hole);
  }

  lemma {:induction false} ShowsOneMore(rings: seq<Member>, t: Tools, ix: seq<nat>, ps: seq<Path>, path: Path)
    requires rings != [] && ShowsRings(rings[..|rings| - 1], t, ix, ps) && ShowsMember(rings[|rings| - 1], t, path)
    ensures ShowsRings(rings, t, ix + [|rings| - 1], ps + [path])
  {
    hide ShowsMember, LeavesLittle;
    var n := |rings| - 1;
    var jx, qs := ix + [n], ps + [path];
    forall j | 0 <= j < |jx| ensures ShowsMember(rings[jx[j]], t, qs[j]) {
      if j < |ix| {
        assert rings[jx[j]] == rings[..n][ix[j]];
      }
    }
    StillIn(ix, n);
    forall i | 0 <= i < |rings| && i !in jx ensures LeavesLittle(rings[i], t) {
      assert rings[i] == rings[..n][i];
    }
  }

  lemma {:induction false} ShowsNoMore(rings: seq<Member>, t: Tools, ix: seq<nat>, ps: seq<Path>)
    requires rings != [] && ShowsRings(rings[..|rings| - 1], t, ix, ps) && LeavesLittle(rings[|rings| - 1], t)
    ensures ShowsRings(rings, t, ix, ps)
  {
    hide ShowsMember, LeavesLittle;
    var n := |rings| - 1;
    forall j | 0 <= j < |ix| ensures ShowsMember(rings[ix[j]], t, ps[j]) {
      assert rings[ix[j]] == rings[..n][ix[j]];
    }
    forall i | 0 <= i < |rings| && i !in ix ensures LeavesLittle(rings[i], t) {
      if i < n {
        assert rings[i] == rings[..n][i];
      }
    }
  }

  lemma {:induction false} StillIn(before: seq<nat>, n: nat)
    ensures n in before + [n] && forall i :: i in before ==> i in before + [n]
  {
    assert (before + [n])[|before|] == n;
  }

  lemma {:induction false} ClosedMore(ks: seq<seq<Point>>, k: seq<Point>)
    ensures ClosedPaths([]) == [] && ClosedPaths(ks + [k]) == ClosedPaths(ks) + [Path(k, true)]
  {
  }

  lemma {:induction false} KeptLast(rings: seq<Member>, t: Tools)
    ensures Kept([], t) == []
    ensures rings != [] ==>
              var m := rings[|rings| - 1];
              var ks, ps := Kept(rings[..|rings| - 1], t), RingPoints(m.points, t);
              Kept(rings, t) == if |ps| < 3 then ks else ks + [Wound(ps, !m.hole)]
  {
    hide RingPoints, Wound;
  }

  lemma {:induction false} KeptShows(rings: seq<Member>, t: Tools) returns (ix: seq<nat>)
    ensures ShowsRings(rings, t, ix, ClosedPaths(Kept(rings, t)))
  {
    hide ShowsMember, LeavesLittle, RingPoints, Wound, Kept, ClosedPaths;
    KeptLast(rings, t);
    ClosedMore([], []);
    if rings == [] {
      ix := [];
    } else {
      hide ShowsRings;
      var n := |rings| - 1;
      var ks, ps := Kept(rings[..n], t), RingPoints(rings[n].points, t);
      ix := KeptShows(rings[..n], t);
      if |ps| < 3 {
        LittleLeft(rings[n], t);
        ShowsNoMore(rings, t, ix, ClosedPaths(ks));
      } else {
        var k := Wound(ps, !rings[n].hole);
        WoundShows(rings[n], t);
        ShowsOneMore(rings, t, ix, ClosedPaths(ks), Path(k, true));
        ClosedMore(ks, k);
        ix := ix + [n];
      }
    }
  }

  lemma {:induction false} LittleLeft(m: Member, t: Tools)
    requires |RingPoints(m.points, t)| < 3
    ensures LeavesLittle(m, t)
  {
    hide RingPoints, Remains;
    RingRemains(m.points, t);
  }

  /** What a reader should see of a shape, by its kind: 2 for lines, 3 for polygons. */
  ghost predicate Pictures(s: Shape, t: Tools, ps: seq<Path>) {
    if s.kind == 3 && s.rings != [] then exists ix :: ShowsRings(s.rings, t, ix, ps)
    else if s.kind == 2 then
      exists p :: Projects(s.points, t, p) && OnePath(t.clipLine(t.simplify(p, false)), 2, false, ps)
    else if s.kind == 3 then exists left :: Remains(s.points, t, left) && OnePath(left, 3, true, ps)
    else ps == []
  }

  /** One path of these points, if there are enough of them. */
  predicate OnePath(points: seq<Point>, least: nat, closed: bool, ps: seq<Path>) {
    ps == if |points| >= least then [Path(points, closed)] else []
  }

  lemma {:induction false} PathsPicture(s: Shape, t: Tools)
    ensures Pictures(s, t, Paths(s, t))
  {
    hide RingPoints, Kept, ShowsRings, Remains;
    if s.kind == POLYGON && s.rings != [] {
      var ix := KeptShows(s.rings, t);
    } else if s.kind == LINE {
      assert Projects(s.points, t, Projected(s.points, t));
    } else if s.kind == POLYGON {
      RingRemains(s.points, t);
    }
  }

  /** The coordinates are 64-bit integers and the paths fit in memory. */
  ghost predicate InMemory(ps: seq<Path>) {
    forall i :: 0 <= i < |ps| ==> Drawable([ps[i].points])
  }

  /** encodeGeometry: nothing is written for a shape of which nothing is left, and what is written for
      any other reads back as its paths, which picture it. */
  method EncodeGeometry(s: Shape, t: Tools) returns (out: Bytes)
    ensures InMemory(Paths(s, t)) ==> DecodeGeometry(out) == Some(Paths(s, t))
    ensures out == [] <==> Paths(s, t) == []
    ensures Pictures(s, t, Paths(s, t))
  {
    PathsPicture(s, t);
    hide Pictures, EncodedAll, RingsCodes, Kept, PathCodes, Draw, Int64Points, RingPoints;
    if s.kind == POLYGON && |s.rings| > 0 {
      out := EncodeRings(s.rings, t);
      RingsEmpty(Kept(s.rings, t));
      if InMemory(Paths(s, t)) {
        RingsInMemory(Kept(s.rings, t));
        RingsRoundTrip(Kept(s.rings, t));
      }
      return;
    }
    NothingDrawn();
    if s.kind == LINE {
      var points := Project(s.points, t);
      points := t.simplify(points, false);
      points := t.clipLine(points);
      if |points| < 2 {
        return [];
      }
      assert Paths(s, t) == [Path(points, false)] && [Path(points, false)][0].points == points;
      out := CommandGeometry(points, false);
      return;
    }
    if s.kind == POLYGON {
      var points := PrepareRing(s.points, t);
      if |points| < 3 {
        return [];
      }
      assert Paths(s, t) == [Path(points, true)] && [Path(points, true)][0].points == points;
      out := CommandGeometry(points, true);
      return;
    }
    out := [];
  }

  lemma {:induction false} RingsInMemory(ks: seq<seq<Point>>)
    requires InMemory(ClosedPaths(ks)) && Nonempty(ks)
    ensures Drawable(ks)
  {
    hide Int64Points;
    forall i | 0 <= i < |ks| ensures ks[i] != [] && Int64Points(ks[i]) && 8 * |ks[i]| < TWO_64 {
      assert Drawable([ClosedPaths(ks)[i].points]);
      assert [ks[i]][0] == ks[i];
    }
  }

  lemma {:induction false} NothingDrawn()
    ensures DecodeGeometry([]) == Some([])
  {
  }

  // ----- The examples of the specification -----

  lemma {:induction false} SmallDelta(to: int, from: int)
    requires 0 <= to - from < 1000
    ensures Delta(to, from) == 2 * (to - from)
  {
    hide ZigzagEncode;
    ZigzagCode(to - from);
  }

  lemma {:induction false} SmallCodes(p: Point, last: Point)
    requires 0 <= p.x - last.x < 1000 && 0 <= p.y - last.y < 1000
    ensures PointCodes(p, last) == [2 * (p.x - last.x), 2 * (p.y - last.y)]
  {
    hide Delta;
    SmallDelta(p.x, last.x);
    SmallDelta(p.y, last.y);
  }

  /** Section 4.3.5 of the Mapbox Vector Tile Specification 2.1: the examples of a point, a line and a polygon. */
  lemma {:induction false} ExamplesOfSpecification()
    ensures PathCodes([Point(25, 17)], Point(0, 0), false) == [9, 50, 34]
    ensures PathCodes([Point(2, 2), Point(2, 10), Point(10, 10)], Point(0, 0), false) == [9, 4, 4, 18, 0, 16, 16, 0]
    ensures PathCodes([Point(3, 6), Point(8, 12), Point(20, 34)], Point(0, 0), true)
            == [9, 6, 12, 18, 10, 12, 24, 44, 15]
  {
    hide PointCodes;
    var o := Point(0, 0);
    SmallCodes(Point(25, 17), o);
    SmallCodes(Point(2, 2), o);
    SmallCodes(Point(3, 6), o);
    TwoCodes(Point(2, 2), Point(2, 10), Point(10, 10));
    TwoCodes(Point(3, 6), Point(8, 12), Point(20, 34));
  }

  lemma {:induction false} TwoCodes(a: Point, b: Point, c: Point)
    requires 0 <= b.x - a.x < 1000 && 0 <= b.y - a.y < 1000 && 0 <= c.x - b.x < 1000 && 0 <= c.y - b.y < 1000
    ensures [a, b, c][1..] == [b, c]
    ensures PointsCodes([b, c], a)
            == [2 * (b.x - a.x), 2 * (b.y - a.y), 2 * (c.x - b.x), 2 * (c.y - b.y)]
  {
    hide PointCodes;
    SmallCodes(b, a);
    SmallCodes(c, b);
    assert [b, c][1..] == [c] && [c][1..] == [];
    assert PointsCodes([c], b) == PointCodes(c, b) + PointsCodes([], c);
  }
}
