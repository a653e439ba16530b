/** The cells a route is followed along (offline/route.go): from point to point, each time the shorter way around
    the world and without a detour; and the order of the keys they are widened to. */
module RoutePath {
  import opened Bits
  import opened TileRequest
  import opened Route

  // ----- One segment -----

  /** The cells of a segment in order, each in its place on the globe. */
  function SegmentCells(zoom: nat, start: XY, end: XY): (cells: seq<XY>)
    ensures |cells| == LineSteps(start, ShortWay(zoom, start, end)) + 1
  {
    var e := ShortWay(zoom, start, end);
    seq(LineSteps(start, e) + 1, t requires 0 <= t <= LineSteps(start, e) => Wrapped(zoom, CellOnLine(start, e, t)))
  }

  /** The same cell, or one of its eight neighbours on a globe of this zoom. */
  predicate Neighbours(zoom: nat, a: XY, b: XY) {
    var n := Pow2(zoom);
    && Abs(a.y - b.y) <= 1
    && (Abs(a.x - b.x) <= 1 || Abs(a.x - b.x) == n - 1)
  }

  ghost predicate Connected(zoom: nat, cells: seq<XY>) {
    forall i :: 0 < i < |cells| ==> Neighbours(zoom, cells[i - 1], cells[i])
  }

  /** How far apart two columns are, the shorter way. */
  function Apart(zoom: nat, a: int, b: int): int {
    var d := Abs(a - b);
    if d <= Pow2(zoom) - d then d else Pow2(zoom) - d
  }

  function Larger(a: int, b: int): int {
    if a >= b then a else b
  }

  lemma {:induction false} Remainders(n: nat, a: int, b: int)
    requires n > 0 && Abs(a - b) <= 1
    ensures Abs(a % n - b % n) <= 1 || Abs(a % n - b % n) == n - 1
  {
    var q, r := a / n, a % n;
    assert a == q * n + r;
    var s := r + (b - a);
    if s < 0 {
      assert (q - 1) * n == q * n - n;
      QuotientUnique(b, n, q - 1, s + n);
    } else if s >= n {
      assert (q + 1) * n == q * n + n;
      QuotientUnique(b, n, q + 1, s - n);
    } else {
      QuotientUnique(b, n, q, s);
    }
  }

  lemma {:induction false} WrappedNeighbours(zoom: nat, a: XY, b: XY)
    requires Abs(a.x - b.x) <= 1 && Abs(a.y - b.y) <= 1
    ensures Neighbours(zoom, Wrapped(zoom, a), Wrapped(zoom, b))
  {
    hide Pow2;
    Remainders(Pow2(zoom), a.x, b.x);
  }

  /** A segment begins at its start, ends at its end, moves from neighbour to neighbour, and takes no more
      cells than any such way must. */
  lemma {:induction false} SegmentDirect(zoom: nat, start: XY, end: XY)
    requires InGrid(zoom, start) && InGrid(zoom, end)
    ensures var cells := SegmentCells(zoom, start, end);
            && cells[0] == start && cells[|cells| - 1] == end && Connected(zoom, cells)
            && |cells| == 1 + Larger(Apart(zoom, start.x, end.x), Abs(start.y - end.y))
  {
    hide Pow2, CellOnLine, ShortWay, Wrapped;
    var cells, e := SegmentCells(zoom, start, end), ShortWay(zoom, start, end);
    ShortWayIsShort(zoom, start, end);
    ShortWayApart(zoom, start, end);
    LineEnds(start, e);
    WrappedInside(zoom, start);
    assert Wrapped(zoom, e) == end by { WrapsTo(zoom, e, end); }
    forall i | 0 < i < |cells| ensures Neighbours(zoom, cells[i - 1], cells[i]) {
      LineConnected(start, e, i - 1);
      WrappedNeighbours(zoom, CellOnLine(start, e, i - 1), CellOnLine(start, e, i));
    }
  }

  lemma {:induction false} WrapsTo(zoom: nat, e: XY, end: XY)
    requires e.x % Pow2(zoom) == end.x && e.y == end.y
    ensures Wrapped(zoom, e) == end
  {
  }

  lemma {:induction false} HalfTwice(n: nat, d: nat)
    ensures d > n / 2 <==> d > n - d
  {
  }

  lemma {:induction false} ShortWayApart(zoom: nat, start: XY, end: XY)
    requires InGrid(zoom, start) && InGrid(zoom, end)
    ensures Abs(ShortWay(zoom, start, end).x - start.x) == Apart(zoom, start.x, end.x)
    ensures ShortWay(zoom, start, end).y == end.y
  {
    hide Pow2;
    HalfTwice(Pow2(zoom), Abs(end.x - start.x));
  }

  /** A cell of a line lies within half a cell of it, measured along the shorter of its two sides. */
  lemma {:induction false} CellsNear(start: XY, end: XY, t: nat)
    requires t <= LineSteps(start, end)
    ensures var c, dx, dy := CellOnLine(start, end, t), end.x - start.x, end.y - start.y;
            2 * Abs((c.x - start.x) * dy - (c.y - start.y) * dx) <= Larger(Abs(dx), Abs(dy))
  {
    hide Rounded;
    var dx, dy := Abs(end.x - start.x), Abs(end.y - start.y);
    LineNear(dx, dy, t);
    var o := Offset(dx, dy, t);
    Mirrored(Sign(start.x, end.x), Sign(start.y, end.y), o, dx, dy);
    MirroredLength(start.x, end.x);
    MirroredLength(start.y, end.y);
  }

  lemma {:induction false} MirroredLength(from: int, to: int)
    ensures Sign(from, to) * (Abs(to - from) as int) == to - from
  {
  }

  lemma {:induction false} Mirrored(sx: int, sy: int, o: XY, dx: int, dy: int)
    requires (sx == 1 || sx == -1) && (sy == 1 || sy == -1)
    ensures Abs((sx * o.x) * (sy * dy) - (sy * o.y) * (sx * dx)) == Abs(o.x * dy - o.y * dx)
  {
    SignedProduct(sx, sy, o.x, dy);
    SignedProduct(sy, sx, o.y, dx);
  }

  lemma {:induction false} SignedProduct(s: int, t: int, a: int, b: int)
    requires (s == 1 || s == -1) && (t == 1 || t == -1)
    ensures (s * a) * (t * b) == if s == t then a * b else -(a * b)
  {
    var c, d := s * a, t * b;
    if s == t {
      assert (c == a && d == b) || (c == -a && d == -b);
    } else {
      assert (c == a && d == -b) || (c == -a && d == b);
    }
  }

  // ----- The whole route -----

  /** The cells of the segments between the first n points. */
  function RouteCells(zoom: nat, points: seq<XY>, n: nat): seq<XY>
    requires 0 < n <= |points|
  {
    if n == 1 then if |points| == 1 then [points[0]] else []
    else RouteCells(zoom, points, n - 1) + SegmentCells(zoom, points[n - 2], points[n - 1])
  }

  function Widened(zoom: nat, radius: nat, cells: seq<XY>): seq<TileKey> {
    if cells == [] then []
    else Widened(zoom, radius, cells[..|cells| - 1]) + Around(zoom, radius, cells[|cells| - 1])
  }

  lemma {:induction false} WidenedConcat(zoom: nat, radius: nat, cs: seq<XY>, ds: seq<XY>)
    ensures Widened(zoom, radius, cs + ds) == Widened(zoom, radius, cs) + Widened(zoom, radius, ds)
  {
    hide Around;
    if ds == [] {
      assert cs + ds == cs;
      assert Widened(zoom, radius, cs) + [] == Widened(zoom, radius, cs);
    } else {
      var n := |ds| - 1;
      assert (cs + ds)[..|cs + ds| - 1] == cs + ds[..n];
      WidenedConcat(zoom, radius, cs, ds[..n]);
      assert (Widened(zoom, radius, cs) + Widened(zoom, radius, ds[..n])) + Around(zoom, radius, ds[n])
             == Widened(zoom, radius, cs) + (Widened(zoom, radius, ds[..n]) + Around(zoom, radius, ds[n]));
    }
  }

  lemma {:induction false} LineWidened(zoom: nat, radius: nat, start: XY, end: XY, m: nat)
    requires m <= |SegmentCells(zoom, start, end)|
    ensures Widened(zoom, radius, SegmentCells(zoom, start, end)[..m])
            == LineKeys(zoom, radius, start, ShortWay(zoom, start, end), m)
  {
    hide Around, CellOnLine, Wrapped, ShortWay;
    if m > 0 {
      var cells := SegmentCells(zoom, start, end);
      LineWidened(zoom, radius, start, end, m - 1);
      assert cells[..m][..m - 1] == cells[..m - 1];
    }
  }

  /** What a route is widened from are these cells, in this order. */
  lemma {:induction false} TraversalWidened(zoom: nat, radius: nat, points: seq<XY>, n: nat)
    requires 0 < n <= |points|
    ensures Traversal(zoom, radius, points, n) == Widened(zoom, radius, RouteCells(zoom, points, n))
  {
    hide Around, LineKeys, SegmentCells, ShortWay;
    if n == 1 {
      if |points| == 1 {
        assert [points[0]][..0] == [];
        assert [] + Around(zoom, radius, points[0]) == Around(zoom, radius, points[0]);
        assert Widened(zoom, radius, [points[0]]) == Widened(zoom, radius, []) + Around(zoom, radius, points[0]);
      }
    } else {
      var start, end := points[n - 2], points[n - 1];
      TraversalWidened(zoom, radius, points, n - 1);
      var cells := SegmentCells(zoom, start, end);
      LineWidened(zoom, radius, start, end, |cells|);
      assert cells[..|cells|] == cells;
      SegmentLength(zoom, start, end);
      WidenedConcat(zoom, radius, RouteCells(zoom, points, n - 1), cells);
    }
  }

  lemma {:induction false} SegmentLength(zoom: nat, start: XY, end: XY)
    ensures |SegmentCells(zoom, start, end)| == LineSteps(start, ShortWay(zoom, start, end)) + 1
  {
  }

  /** The cells on the way to point n, all taken together. */
  function Distance(zoom: nat, points: seq<XY>, n: nat): nat
    requires 0 < n <= |points|
  {
    if n == 1 then 0
    else Distance(zoom, points, n - 1)
         + (1 + Larger(Apart(zoom, points[n - 2].x, points[n - 1].x), Abs(points[n - 2].y - points[n - 1].y)))
  }

  lemma {:induction false} RouteReaches(zoom: nat, points: seq<XY>, n: nat)
    requires 1 < n <= |points| && forall i :: 0 <= i < |points| ==> InGrid(zoom, points[i])
    ensures var cells := RouteCells(zoom, points, n);
            && |cells| == Distance(zoom, points, n) > 0
            && cells[0] == points[0] && cells[|cells| - 1] == points[n - 1] && Connected(zoom, cells)
  {
    hide Pow2, SegmentCells, Apart, Neighbours, InGrid, Connected;
    var start, end := points[n - 2], points[n - 1];
    SegmentDirect(zoom, start, end);
    var before, segment := RouteCells(zoom, points, n - 1), SegmentCells(zoom, start, end);
    if n == 2 {
      assert before + segment == segment;
    } else {
      RouteReaches(zoom, points, n - 1);
      SameNeighbour(zoom, start);
      ConnectedOn(zoom, before, segment);
    }
  }

  lemma {:induction false} RouteGrows(zoom: nat, points: seq<XY>, n: nat, m: nat)
    requires 0 < n <= m <= |points|
    ensures RouteCells(zoom, points, n) <= RouteCells(zoom, points, m)
  {
    hide SegmentCells;
    if n < m {
      RouteGrows(zoom, points, n, m - 1);
    }
  }

  /** A route goes from its first point to its last, through every point in order, always from a cell to a
      neighbour and never the longer way: it has reached point n after exactly the cells that takes, and what
      follows continues from there. */
  lemma {:induction false} RouteConnected(zoom: nat, points: seq<XY>, n: nat)
    requires 1 < n <= |points| && forall i :: 0 <= i < |points| ==> InGrid(zoom, points[i])
    ensures var cells, d := RouteCells(zoom, points, |points|), Distance(zoom, points, n);
            && 0 < d <= |cells| == Distance(zoom, points, |points|)
            && cells[..d] == RouteCells(zoom, points, n)
            && cells[0] == points[0] && cells[d - 1] == points[n - 1] && Connected(zoom, cells)
  {
    hide RouteCells, Distance, Connected, InGrid;
    RouteReaches(zoom, points, n);
    RouteReaches(zoom, points, |points|);
    RouteGrows(zoom, points, n, |points|);
  }

  lemma {:induction false} SameNeighbour(zoom: nat, c: XY)
    ensures Neighbours(zoom, c, c)
  {
  }

  lemma {:induction false} ConnectedOn(zoom: nat, cs: seq<XY>, ds: seq<XY>)
    requires Connected(zoom, cs) && Connected(zoom, ds) && cs != [] && ds != []
    requires Neighbours(zoom, cs[|cs| - 1], ds[0])
    ensures Connected(zoom, cs + ds)
  {
    hide Neighbours;
    var es := cs + ds;
    forall i | 0 < i < |es| ensures Neighbours(zoom, es[i - 1], es[i]) {
      if i > |cs| {
        assert es[i - 1] == ds[i - 1 - |cs|] && es[i] == ds[i - |cs|];
      }
    }
  }

  // ----- The order around a cell -----

  /** From north to south, and from west to east within a row. */
  predicate ReadsBefore(a: TileKey, b: TileKey) {
    a.y > b.y || (a.y == b.y && a.x < b.x)
  }

  ghost predicate ReadingOrder(ks: seq<TileKey>) {
    forall i, j :: 0 <= i < j < |ks| ==> ReadsBefore(ks[i], ks[j])
  }

  lemma {:induction false} RowInOrder(zoom: nat, radius: nat, c: XY, n: nat)
    ensures ReadingOrder(RowKeys(zoom, radius, c, n))
    ensures forall k :: k in RowKeys(zoom, radius, c, n) ==> k.y == Pow2(zoom) - 1 - c.y && k.x < c.x - radius + n
  {
    hide Pow2;
    if n > 0 {
      RowInOrder(zoom, radius, c, n - 1);
    }
  }

  /** The keys around a cell are read off row by row, each once. */
  lemma {:induction false} AroundInOrder(zoom: nat, radius: nat, c: XY)
    ensures ReadingOrder(Around(zoom, radius, c))
  {
    BlockInOrder(zoom, radius, c, 2 * radius + 1);
  }

  lemma {:induction false} BlockInOrder(zoom: nat, radius: nat, c: XY, n: nat)
    ensures ReadingOrder(BlockKeys(zoom, radius, c, n))
    ensures forall k :: k in BlockKeys(zoom, radius, c, n) ==> Pow2(zoom) - 1 - k.y < c.y - radius + n
  {
    hide Pow2, RowKeys;
    if n > 0 {
      BlockInOrder(zoom, radius, c, n - 1);
      var d := XY(c.x, c.y - radius + n - 1);
      RowInOrder(zoom, radius, d, 2 * radius + 1);
    }
  }

  // ----- The corridor -----

  /** Key i is met at position p of the sequence, and everything before that is among the first i keys. */
  ghost predicate FirstMetAt(ts: seq<TileKey>, keys: seq<TileKey>, i: nat, p: nat)
    requires i < |keys|
  {
    p < |ts| && ts[p] == keys[i] && forall q :: 0 <= q < p ==> ts[q] in keys[..i]
  }

  ghost predicate FirstMet(ts: seq<TileKey>, keys: seq<TileKey>, i: nat)
    requires i < |keys|
  {
    exists p: nat :: FirstMetAt(ts, keys, i, p)
  }

  ghost predicate InOrderMet(ts: seq<TileKey>, keys: seq<TileKey>) {
    forall i :: 0 <= i < |keys| ==> FirstMet(ts, keys, i)
  }

  lemma {:induction false} DedupInOrder(ts: seq<TileKey>)
    ensures InOrderMet(ts, Dedup(ts))
  {
    var keys := Dedup(ts);
    forall i | 0 <= i < |keys| ensures FirstMet(ts, keys, i) {
      DedupMeets(ts, i);
    }
  }

  lemma {:induction false} DedupMeets(ts: seq<TileKey>, i: nat)
    requires i < |Dedup(ts)|
    ensures FirstMet(ts, Dedup(ts), i)
  {
    var n := |ts| - 1;
    var init, d := ts[..n], Dedup(ts[..n]);
    DedupExact(init);
    if i < |d| {
      DedupMeets(init, i);
      var p: nat :| FirstMetAt(init, d, i, p);
      assert Dedup(ts)[..i] == d[..i];
      assert FirstMetAt(ts, Dedup(ts), i, p);
    } else {
      assert Dedup(ts)[..i] == d;
      forall q | 0 <= q < n ensures ts[q] in d {
        assert init[q] in init;
      }
      assert FirstMetAt(ts, Dedup(ts), i, n);
    }
  }

  /** The keys of a corridor are those around the route's cells, each once, in the order they are met, as many
      as the budget allows; nothing is left out unless it says so, and then the budget is used up. */
  lemma {:induction false} CorridorExact(zoom: nat, radius: nat, maxTiles: nat, points: seq<XY>, c: Corridor)
    requires points != [] && RightCorridor(zoom, radius, maxTiles, points, c)
    ensures var met := Widened(zoom, radius, RouteCells(zoom, points, |points|));
            && Distinct(c.keys) && InOrderMet(met, c.keys)
            && if c.truncated then |c.keys| == maxTiles && exists k :: k in met && k !in c.keys
               else |c.keys| <= maxTiles && forall k :: k in met <==> k in c.keys
  {
    hide Traversal, Widened, RouteCells, Dedup;
    TraversalWidened(zoom, radius, points, |points|);
    var met := Traversal(zoom, radius, points, |points|);
    DedupExact(met);
    DedupInOrder(met);
    var d := Dedup(met);
    forall i | 0 <= i < |c.keys| ensures FirstMet(met, c.keys, i) {
      assert FirstMet(met, d, i);
      var p: nat :| FirstMetAt(met, d, i, p);
      assert c.keys[..i] == d[..i];
      assert FirstMetAt(met, c.keys, i, p);
    }
    if c.truncated {
      assert d[maxTiles] in d;
      NotBefore(d, maxTiles);
      assert d[maxTiles] in met && d[maxTiles] !in c.keys;
    }
  }

  lemma {:induction false} NotBefore(d: seq<TileKey>, n: nat)
    requires Distinct(d) && n < |d|
    ensures d[n] !in d[..n]
  {
  }
}
