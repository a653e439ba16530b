/** PMTiles tile identifiers: positions along one Hilbert curve per zoom level
    (internal/pmtiles/tileid.go). */
module TileId {
  import opened Bits

  const MAX_ZOOM: nat := 30

  // ----- The curve -----

  datatype Cell = Cell(x: nat, y: nat)

  /** A cell of the grid with 2^k cells per side. */
  predicate InGrid(c: Cell, k: nat) {
    c.x < Pow2(k) && c.y < Pow2(k)
  }

  /** q * p for a digit q, by cases. */
  function Times(q: nat, p: nat): nat
    requires q < 4
  {
    if q == 0 then 0 else if q == 1 then p else if q == 2 then 2 * p else 3 * p
  }

  /** The quadrants of side s in the order the curve visits them: upper left, lower left, lower
      right, upper right. */
  function QuadrantOf(s: nat, c: Cell): (q: nat)
    ensures q < 4
  {
    if c.x < s then (if c.y < s then 0 else 1) else if c.y < s then 3 else 2
  }

  /** One level of the curve downwards: the cell inside its quadrant, with the quadrant turned so
      that its part of the curve is the curve again. */
  function Descend(s: nat, c: Cell): (r: Cell)
    requires c.x < 2 * s && c.y < 2 * s
    ensures r.x < s && r.y < s
  {
    if c.x < s then (if c.y < s then Cell(c.y, c.x) else Cell(c.x, c.y - s))
    else if c.y < s then Cell(s - 1 - c.y, 2 * s - 1 - c.x)
    else Cell(c.x - s, c.y - s)
  }

  /** And upwards again. */
  function Ascend(s: nat, q: nat, c: Cell): (r: Cell)
    requires q < 4 && c.x < s && c.y < s
    ensures r.x < 2 * s && r.y < 2 * s
  {
    if q == 0 then Cell(c.y, c.x)
    else if q == 1 then Cell(c.x, c.y + s)
    else if q == 2 then Cell(c.x + s, c.y + s)
    else Cell(2 * s - 1 - c.y, s - 1 - c.x)
  }

  lemma {:induction false} AscendDescend(s: nat, c: Cell)
    requires c.x < 2 * s && c.y < 2 * s
    ensures Ascend(s, QuadrantOf(s, c), Descend(s, c)) == c
  {
  }

  lemma {:induction false} DescendAscend(s: nat, q: nat, c: Cell)
    requires q < 4 && c.x < s && c.y < s
    ensures QuadrantOf(s, Ascend(s, q, c)) == q && Descend(s, Ascend(s, q, c)) == c
  {
  }

  /** The position of a cell along the curve of order k. */
  function Position(k: nat, c: Cell): (t: nat)
    requires InGrid(c, k)
    ensures t < Pow4(k)
  {
    if k == 0 then 0
    else
      var s := Pow2(k - 1);
      Times(QuadrantOf(s, c), Pow4(k - 1)) + Position(k - 1, Descend(s, c))
  }

  /** The quarter of the curve that position t falls in, for quarters of length p, and the position
      within it. */
  function Quarter(t: nat, p: nat): (q: nat)
    requires t < 4 * p
    ensures q < 4 && Times(q, p) <= t < Times(q, p) + p
  {
    if t < p then 0 else if t < 2 * p then 1 else if t < 3 * p then 2 else 3
  }

  function Rest(t: nat, p: nat): (r: nat)
    requires t < 4 * p
    ensures r < p && t == Times(Quarter(t, p), p) + r
  {
    t - Times(Quarter(t, p), p)
  }

  lemma {:induction false} QuarterOf(q: nat, p: nat, r: nat)
    requires q < 4 && r < p
    ensures Times(q, p) + r < 4 * p
    ensures Quarter(Times(q, p) + r, p) == q && Rest(Times(q, p) + r, p) == r
  {
  }

  /** The cell at a position. */
  function CellAt(k: nat, t: nat): (c: Cell)
    requires t < Pow4(k)
    ensures InGrid(c, k)
  {
    if k == 0 then Cell(0, 0)
    else
      Ascend(Pow2(k - 1), Quarter(t, Pow4(k - 1)), CellAt(k - 1, Rest(t, Pow4(k - 1))))
  }

  lemma {:induction false} CellOfPosition(k: nat, c: Cell)
    requires InGrid(c, k)
    ensures CellAt(k, Position(k, c)) == c
  {
    hide Ascend, Descend, QuadrantOf, Times, Quarter, Rest;
    if k > 0 {
      var s := Pow2(k - 1);
      var inner := Descend(s, c);
      CellOfPosition(k - 1, inner);
      QuarterOf(QuadrantOf(s, c), Pow4(k - 1), Position(k - 1, inner));
      AscendDescend(s, c);
    }
  }

  lemma {:induction false} PositionOfCell(k: nat, t: nat)
    requires t < Pow4(k)
    ensures Position(k, CellAt(k, t)) == t
  {
    if k > 0 {
      var rest := Rest(t, Pow4(k - 1));
      PositionOfCell(k - 1, rest);
      DescendAscend(Pow2(k - 1), Quarter(t, Pow4(k - 1)), CellAt(k - 1, rest));
    }
  }

  // ----- Continuity -----

  function Distance(c: Cell, d: Cell): nat {
    (if c.x > d.x then c.x - d.x else d.x - c.x) + (if c.y > d.y then c.y - d.y else d.y - c.y)
  }

  predicate Adjacent(c: Cell, d: Cell) {
    Distance(c, d) == 1
  }

  lemma {:induction false} AscendKeepsAdjacent(s: nat, q: nat, c: Cell, d: Cell, a: Cell, b: Cell)
    requires q < 4 && a.x < s && a.y < s && b.x < s && b.y < s && Adjacent(a, b)
    requires c == Ascend(s, q, a) && d == Ascend(s, q, b)
    ensures Adjacent(c, d)
  {
  }

  /** Where one quadrant's curve ends, the next one's begins next to it. */
  lemma {:induction false} QuadrantsMeet(s: nat, q: nat, c: Cell, d: Cell)
    requires q < 3 && s > 0
    requires c == Ascend(s, q, Cell(s - 1, 0)) && d == Ascend(s, q + 1, Cell(0, 0))
    ensures Adjacent(c, d)
  {
  }

  lemma {:induction false} CornersAscend(s: nat)
    requires s > 0
    ensures Ascend(s, 0, Cell(0, 0)) == Cell(0, 0) && Ascend(s, 3, Cell(s - 1, 0)) == Cell(2 * s - 1, 0)
  {
  }

  /** The curve enters at the upper left corner and leaves at the upper right one. */
  lemma {:induction false} CurveEnds(k: nat)
    ensures CellAt(k, 0) == Cell(0, 0)
    ensures CellAt(k, Pow4(k) - 1) == Cell(Pow2(k) - 1, 0)
  {
    if k > 0 {
      var p := Pow4(k - 1);
      CurveEnds(k - 1);
      CornersAscend(Pow2(k - 1));
      QuarterOf(0, p, 0);
      QuarterOf(3, p, p - 1);
    }
  }

  /** The curve inside one quadrant. */
  lemma {:induction false} CellInQuadrant(k: nat, t: nat, q: nat, r: nat)
    requires k > 0 && q < 4 && r < Pow4(k - 1) && t == Times(q, Pow4(k - 1)) + r
    ensures t < Pow4(k)
    ensures CellAt(k, t) == Ascend(Pow2(k - 1), q, CellAt(k - 1, r))
  {
    QuarterOf(q, Pow4(k - 1), r);
  }

  lemma {:induction false} StepInside(k: nat, t: nat, q: nat, r: nat)
    requires k > 0 && q < 4 && r + 1 < Pow4(k - 1) && t == Times(q, Pow4(k - 1)) + r
    requires Adjacent(CellAt(k - 1, r), CellAt(k - 1, r + 1))
    ensures t + 1 < Pow4(k) && Adjacent(CellAt(k, t), CellAt(k, t + 1))
  {
    hide Ascend, Adjacent, Quarter, Rest, CellAt, Pow2, Pow4, Times;
    CellInQuadrant(k, t, q, r);
    CellInQuadrant(k, t + 1, q, r + 1);
    AscendKeepsAdjacent(Pow2(k - 1), q, CellAt(k, t), CellAt(k, t + 1), CellAt(k - 1, r), CellAt(k - 1, r + 1));
  }

  lemma {:induction false} StepAcross(k: nat, t: nat, q: nat, last: nat, first: nat)
    requires k > 0 && q < 3 && t == Times(q, Pow4(k - 1)) + last
    requires last + 1 == Pow4(k - 1) && first == 0
    requires CellAt(k - 1, last) == Cell(Pow2(k - 1) - 1, 0) && CellAt(k - 1, first) == Cell(0, 0)
    ensures t + 1 < Pow4(k) && Adjacent(CellAt(k, t), CellAt(k, t + 1))
  {
    hide Ascend, Adjacent, Quarter, Rest, CellAt, Pow2, Pow4;
    CellInQuadrant(k, t, q, last);
    CellInQuadrant(k, t + 1, q + 1, first);
    QuadrantsMeet(Pow2(k - 1), q, CellAt(k, t), CellAt(k, t + 1));
  }

  /** Consecutive positions are neighbouring cells. */
  lemma {:induction false} CurveContinuous(k: nat, t: nat)
    requires t + 1 < Pow4(k)
    ensures Adjacent(CellAt(k, t), CellAt(k, t + 1))
  {
    hide Adjacent, CellAt, Pow2;
    if k > 0 {
      var p := Pow4(k - 1);
      var q, r := Quarter(t, p), Rest(t, p);
      if r + 1 < p {
        CurveContinuous(k - 1, r);
        StepInside(k, t, q, r);
      } else {
        CurveEnds(k - 1);
        StepAcross(k, t, q, r, 0);
      }
    }
  }

  // ----- Nesting -----

  function Parent(c: Cell): Cell {
    Cell(c.x / 2, c.y / 2)
  }

  lemma {:induction false} DescendParent(s: nat, c: Cell)
    requires c.x < 4 * s && c.y < 4 * s
    ensures QuadrantOf(s, Parent(c)) == QuadrantOf(2 * s, c)
    ensures Descend(s, Parent(c)) == Parent(Descend(2 * s, c))
  {
  }

  lemma {:induction false} QuarterOfSum(q: nat, p: nat, r: nat)
    requires q < 4
    ensures (Times(q, 4 * p) + r) / 4 == Times(q, p) + r / 4
  {
  }

  /** The position of a cell's parent is a quarter of its own: each cell's four children are
      consecutive. */
  lemma {:induction false} CurveNested(k: nat, c: Cell)
    requires InGrid(c, k + 1)
    ensures InGrid(Parent(c), k)
    ensures Position(k + 1, c) / 4 == Position(k, Parent(c))
  {
    if k == 0 {
      assert Position(1, c) < 4;
    } else {
      var half := Pow2(k - 1);
      assert Pow2(k + 1) == 2 * Pow2(k) == 4 * half;
      DescendParent(half, c);
      CurveNested(k - 1, Descend(2 * half, c));
      QuarterOfSum(QuadrantOf(2 * half, c), Pow4(k - 1), Position(k, Descend(2 * half, c)));
    }
  }

  // ----- Identifiers -----

  /** The number of tiles below zoom z. */
  function Base(z: nat): nat {
    if z == 0 then 0 else 4 * Base(z - 1) + 1
  }

  const MAX_TILE_ID: nat := Base(MAX_ZOOM + 1) - 1

  lemma {:induction false} BaseClosed(z: nat)
    ensures 3 * Base(z) + 1 == Pow4(z)
    ensures Base(z + 1) == Base(z) + Pow4(z)
  {
    if z > 0 {
      BaseClosed(z - 1);
    }
  }

  lemma {:induction false} BaseMonotone(y: nat, z: nat)
    requires y <= z
    ensures Base(y) <= Base(z)
  {
    if y < z {
      BaseMonotone(y, z - 1);
    }
  }

  datatype Tile = Tile(z: nat, x: nat, y: nat)

  predicate ValidTile(t: Tile) {
    t.z <= MAX_ZOOM && InGrid(Cell(t.x, t.y), t.z)
  }

  function IdOf(t: Tile): nat
    requires InGrid(Cell(t.x, t.y), t.z)
  {
    Base(t.z) + Position(t.z, Cell(t.x, t.y))
  }

  /** The zoom whose block of identifiers holds id. */
  ghost function ZoomOf(id: nat): (z: nat)
    ensures Base(z) <= id < Base(z) + Pow4(z)
  {
    ZoomExists(id, 0);
    var z: nat :| Base(z) <= id < Base(z) + Pow4(z);
    z
  }

  lemma {:induction false} ZoomExists(id: nat, y: nat)
    requires Base(y) <= id
    ensures exists z: nat :: Base(z) <= id < Base(z) + Pow4(z)
    decreases id - Base(y)
  {
    BaseClosed(y);
    if id >= Base(y) + Pow4(y) {
      ZoomExists(id, y + 1);
    }
  }

  lemma {:induction false} ZoomUnique(id: nat, z: nat)
    requires Base(z) <= id < Base(z) + Pow4(z)
    ensures ZoomOf(id) == z
  {
    var y := ZoomOf(id);
    BaseClosed(y);
    BaseClosed(z);
    if y < z {
      BaseMonotone(y + 1, z);
    } else if z < y {
      BaseMonotone(z + 1, y);
    }
  }

  ghost function TileAt(id: nat): (t: Tile)
    ensures InGrid(Cell(t.x, t.y), t.z)
  {
    var z := ZoomOf(id);
    var c := CellAt(z, id - Base(z));
    Tile(z, c.x, c.y)
  }

  /** Tiles and identifiers correspond one to one, and the tiles up to the maximum zoom are exactly
      those with an identifier up to the maximum. */
  lemma {:induction false} IdBijection(t: Tile, id: nat)
    requires InGrid(Cell(t.x, t.y), t.z)
    ensures TileAt(IdOf(t)) == t
    ensures IdOf(TileAt(id)) == id
    ensures ValidTile(t) <==> IdOf(t) <= MAX_TILE_ID
    ensures ValidTile(TileAt(id)) <==> id <= MAX_TILE_ID
  {
    ZoomUnique(IdOf(t), t.z);
    CellOfPosition(t.z, Cell(t.x, t.y));
    var z := ZoomOf(id);
    PositionOfCell(z, id - Base(z));
    IdsUpToZoom(IdOf(t));
    IdsUpToZoom(id);
  }

  lemma {:induction false} IdOfTileAt(id: nat)
    ensures IdOf(TileAt(id)) == id
  {
    var z := ZoomOf(id);
    PositionOfCell(z, id - Base(z));
  }

  lemma {:induction false} TileAtValid(id: nat)
    requires id <= MAX_TILE_ID
    ensures ValidTile(TileAt(id))
  {
    IdsUpToZoom(id);
  }

  lemma {:induction false} IdsUpToZoom(id: nat)
    ensures ZoomOf(id) <= MAX_ZOOM <==> id <= MAX_TILE_ID
  {
    hide ZoomOf, Base, Pow4;
    var z := ZoomOf(id);
    BaseClosed(z);
    if z <= MAX_ZOOM {
      BaseMonotone(z + 1, MAX_ZOOM + 1);
    } else {
      BaseMonotone(MAX_ZOOM + 1, z);
    }
  }

  /** Within a zoom, consecutive identifiers are neighbouring tiles. */
  lemma {:induction false} ConsecutiveIdsAdjacent(id: nat)
    requires ZoomOf(id + 1) == ZoomOf(id)
    ensures var t, u := TileAt(id), TileAt(id + 1); Adjacent(Cell(t.x, t.y), Cell(u.x, u.y))
  {
    var z := ZoomOf(id);
    CurveContinuous(z, id - Base(z));
  }

  // ----- The conversions, on machine words -----

  /** rotate on 32-bit words: the subtractions wrap, because x and y are not reduced first. */
  function Rotate(n: nat, x: nat, y: nat, rx: nat, ry: nat): (nat, nat) {
    if ry == 0 then
      if rx != 0 then (U32(n - 1 - y), U32(n - 1 - x)) else (y, x)
    else (x, y)
  }

  /** The cell formed by the k low bits of two words. */
  function LowCell(x: nat, y: nat, k: nat): (c: Cell)
    ensures InGrid(c, k)
  {
    LowBound(x, k);
    LowBound(y, k);
    Cell(Low(x, k), Low(y, k))
  }

  /** One coordinate: bit k says which half it is in, the lower bits where. */
  lemma {:induction false} TopBit(k: nat, x: nat)
    ensures var s, b := Pow2(k), Shr(x, k) % 2;
            && And(s, x) == (if b == 1 then s else 0)
            && Low(x, k + 1) == And(s, x) + Low(x, k)
            && Low(x, k) < s
  {
    LowTop(x, k);
    LowBound(x, k);
    AndPow2(k, x);
    BitTimes(Shr(x, k) % 2, Pow2(k));
  }

  /** Wrapped or not, subtracting from s - 1 mirrors the bits below s. */
  lemma {:induction false} FlipBelow(k: nat, x: nat)
    requires k <= 32
    ensures Low(U32(Pow2(k) - 1 - x), k) == Pow2(k) - 1 - Low(x, k)
  {
    U32Low(Pow2(k) - 1 - x, k);
    LowFlip(x, k);
  }

  /** Below bit k, Rotate is Descend: the bits that wrapping corrupts are never read again. */
  lemma {:induction false} RotateIsDescend(k: nat, x: nat, y: nat)
    requires k < 32
    ensures var s := Pow2(k);
            var r := Rotate(s, x, y, And(s, x), And(s, y));
            LowCell(r.0, r.1, k) == Descend(s, LowCell(x, y, k + 1))
  {
    hide And, Shr, Low, U32, Pow2;
    TopBit(k, x);
    TopBit(k, y);
    FlipBelow(k, x);
    FlipBelow(k, y);
  }

  lemma {:induction false} BitTimes(b: int, s: nat)
    requires 0 <= b < 2
    ensures b * s == if b == 1 then s else 0
  {
  }

  lemma {:induction false} RotateFits(n: nat, x: nat, y: nat, rx: nat, ry: nat)
    requires x < TWO_32 && y < TWO_32
    ensures Rotate(n, x, y, rx, ry).0 < TWO_32 && Rotate(n, x, y, rx, ry).1 < TWO_32
  {
  }

  /** The curve's digit for a quadrant is three times the one bit, exclusive or the other, both still
      in place at bit k. */
  lemma {:induction false} DigitInPlace(k: nat, right: bool, lower: bool)
    ensures var s, q := Pow2(k), if right then (if lower then 2 else 3) else if lower then 1 else 0;
            Xor(if right then 3 * s else 0, if lower then s else 0) == s * q
  {
    var a, b := if right then 3 else 0, if lower then 1 else 0;
    XorScaled(k, a, b);
    assert Xor(3, 1) == 2 && Xor(3, 0) == 3;
  }

  lemma {:induction false} ThreeTimesFits(k: nat, rx: nat)
    requires k < 31 && rx <= Pow2(k)
    ensures U32(3 * rx) == 3 * rx
  {
    Pow2Monotone(k, 30);
    Pow2Values();
  }

  lemma {:induction false} DigitIsQuadrant(k: nat, x: nat, y: nat)
    requires k < 31
    ensures var s := Pow2(k);
            Xor(U32(3 * And(s, x)), And(s, y)) * s == Times(QuadrantOf(s, LowCell(x, y, k + 1)), Pow4(k))
  {
    var s := Pow2(k);
    TopBit(k, x);
    TopBit(k, y);
    ThreeTimesFits(k, And(s, x));
    var q := QuadrantOf(s, LowCell(x, y, k + 1));
    DigitInPlace(k, Shr(x, k) % 2 == 1, Shr(y, k) % 2 == 1);
    assert Xor(U32(3 * And(s, x)), And(s, y)) == s * q;
    Pow2Squared(k);
    Reassociate(s, q);
  }

  lemma {:induction false} Reassociate(s: nat, q: nat)
    requires q < 4
    ensures (s * q) * s == Times(q, s * s)
  {
    assert (s * q) * s == q * (s * s);
  }

  /** The identifier of a tile, for any zoom the 64-bit word can hold; coordinates count modulo the
      grid size. From zoom 33 on the loop does not run, and coordinates no longer matter. */
  method ZxyToId(z: nat, x0: nat, y0: nat) returns (acc: nat)
    requires z < 256 && x0 < TWO_32 && y0 < TWO_32
    ensures z <= 31 ==> acc == Base(z) + Position(z, LowCell(x0, y0, z))
    ensures z >= 33 ==> acc == BaseWord(z)
  {
    hide BaseWord, Base, Position, LowCell, Encoding;
    if z == 0 {
      NoZoom(x0, y0);
      return 0;
    }
    acc := BaseWord(z);
    var x: nat, y: nat := x0, y0;
    var n: nat := z - 1;
    var s := if n < 32 then Pow2(n) else 0;
    ghost var k: nat := z;
    EncodingStart(z, x, y);
    while s > 0
      invariant x < TWO_32 && y < TWO_32
      invariant z >= 33 ==> s == 0 && acc == BaseWord(z)
      invariant z <= 32 ==> k <= 32 && if k == 0 then s == 0 else n == k - 1 && s == Pow2(n)
      invariant z <= 31 ==> k <= 31 && Encoding(k, acc, x, y, z, x0, y0)
      decreases k
    {
      HalfPow2(n);
      acc, x, y := EncodeRound(n, s, acc, x, y, z, x0, y0);
      n := U32(n - 1);
      s := s / 2;
      k := k - 1;
    }
    if z <= 31 {
      EncodingDone(acc, x, y, z, x0, y0);
    }
  }

  lemma {:induction false} NoZoom(x: nat, y: nat)
    ensures Base(0) + Position(0, LowCell(x, y, 0)) == 0
  {
  }

  /** What is left of the position and what is already in the identifier add up to it. */
  ghost predicate Encoding(k: nat, acc: nat, x: nat, y: nat, z: nat, x0: nat, y0: nat) {
    acc + Position(k, LowCell(x, y, k)) == Base(z) + Position(z, LowCell(x0, y0, z)) < TWO_64
  }

  lemma {:induction false} EncodingStart(z: nat, x: nat, y: nat)
    ensures z <= 31 ==> Encoding(z, BaseWord(z), x, y, z, x, y)
  {
    hide BaseWord, Base, Position, LowCell;
    if z <= 31 {
      BaseBelow64(z);
      BaseWordIs(z);
    }
  }

  lemma {:induction false} EncodingDone(acc: nat, x: nat, y: nat, z: nat, x0: nat, y0: nat)
    requires Encoding(0, acc, x, y, z, x0, y0)
    ensures acc == Base(z) + Position(z, LowCell(x0, y0, z))
  {
  }

  /** One quadrant: its digit moves from the position into the identifier, unless tripling its bit
      overflows 32 bits, which zoom 32 does. */
  method EncodeRound(n: nat, s: nat, acc: nat, x: nat, y: nat, ghost z: nat, ghost x0: nat, ghost y0: nat)
    returns (acc': nat, x': nat, y': nat)
    requires n < 32 && s == Pow2(n) && x < TWO_32 && y < TWO_32
    ensures x' < TWO_32 && y' < TWO_32
    ensures n < 31 && Encoding(n + 1, acc, x, y, z, x0, y0) ==> Encoding(n, acc', x', y', z, x0, y0)
  {
    hide Rotate, And, Xor, Pow2, Shl;
    var rx, ry := And(s, x), And(s, y);
    RotateFits(s, x, y, rx, ry);
    acc' := U64(acc + Shl(Xor(U32(3 * rx), ry), n));
    var r := Rotate(s, x, y, rx, ry);
    x', y' := r.0, r.1;
    if n < 31 && Encoding(n + 1, acc, x, y, z, x0, y0) {
      PositionStep(n, x, y, acc, Base(z) + Position(z, LowCell(x0, y0, z)));
    }
  }

  lemma {:induction false} HalfPow2(n: nat)
    requires n < 32
    ensures Pow2(n) / 2 == if n == 0 then 0 else Pow2(n - 1)
    ensures n > 0 ==> U32(n - 1) == n - 1
  {
  }

  /** For the tiles of the supported zooms the conversion computes the identifier. */
  lemma {:induction false} LowCellOfTile(t: Tile)
    requires ValidTile(t)
    ensures t.x < TWO_32 && t.y < TWO_32
    ensures Base(t.z) + Position(t.z, LowCell(t.x, t.y, t.z)) == IdOf(t)
  {
    LowId(t.x, t.z);
    LowId(t.y, t.z);
    Pow2Monotone(t.z, 32);
    Pow2Values();
  }

  /** One round of the conversion takes the top digit off the position, without overflow. */
  lemma {:induction false} PositionStep(n: nat, x: nat, y: nat, acc: nat, id: nat)
    requires n < 31 && acc + Position(n + 1, LowCell(x, y, n + 1)) == id < TWO_64
    ensures var s := Pow2(n);
            var rx, ry := And(s, x), And(s, y);
            var r := Rotate(s, x, y, rx, ry);
            U64(acc + Shl(Xor(U32(3 * rx), ry), n)) + Position(n, LowCell(r.0, r.1, n)) == id
  {
    hide Rotate, And, Xor, Descend, QuadrantOf, LowCell;
    RotateIsDescend(n, x, y);
    DigitIsQuadrant(n, x, y);
  }

  /** The first identifier of a zoom as the conversions compute it: the doubled zoom wraps at 256, and
      a shift by 64 or more leaves nothing. */
  function BaseWord(z: nat): nat {
    U64(U64(Pow2(2 * z % 256)) - 1) / 3
  }

  lemma {:induction false} BaseWordIs(z: nat)
    requires z <= 31
    ensures BaseWord(z) == Base(z)
  {
    hide Pow2, Pow4, Base, U64;
    BaseClosed(z);
    Pow2OfTwice(z);
    BaseBelow64(z);
    U64Id(Pow2(2 * z));
    U64Id(Pow2(2 * z) - 1);
  }

  lemma {:induction false} BaseBelow64(z: nat)
    requires z <= 31
    ensures Base(z) + Pow4(z) <= TWO_64
  {
    Pow2Values();
    BaseClosed(31);
    BaseClosed(z);
    BaseMonotone(z + 1, 32);
  }

  datatype Lookup = Found(tile: Tile) | AboveMaxZoom

  /** The quadrant bits of the inverse conversion, from the two low bits of t. */
  lemma {:induction false} QuadrantBits(t: nat)
    ensures And(1, Shr(U32(t), 1)) == t % 4 / 2
    ensures And(1, Xor(U32(t), t % 4 / 2)) == if t % 4 == 1 || t % 4 == 2 then 1 else 0
  {
    var w := U32(t);
    U32Low(t, 2);
    LowOfTwo(w);
    LowOfTwo(t);
    AndOne(w / 2);
    assert Shr(w, 1) == Shr(w / 2, 0) == w / 2;
    AndOne(Xor(w, t % 4 / 2));
    XorOdd(w, t % 4 / 2);
  }

  lemma {:induction false} LowOfTwo(v: nat)
    ensures Low(v, 2) == v % 4 && v % 4 % 2 == v % 2 && v % 4 / 2 == v / 2 % 2
  {
    var q, r := v / 4, v % 4;
    assert v == 2 * (2 * q + r / 2) + r % 2;
    assert v % 2 == r % 2 && v / 2 == 2 * q + r / 2;
    assert Low(v, 2) == v % 2 + 2 * Low(v / 2, 1);
    assert Low(v / 2, 1) == v / 2 % 2 + 2 * Low(v / 2 / 2, 0);
  }

  lemma {:induction false} U32Id(v: nat)
    requires v < TWO_32
    ensures U32(v) == v
  {
  }

  /** One round of the inverse conversion places a cell in a quadrant. */
  lemma {:induction false} RotateIsAscend(a: nat, q: nat, c: Cell)
    requires a < 31 && q < 4 && InGrid(c, a)
    ensures var rx, ry := q / 2, if q == 1 || q == 2 then 1 else 0;
            var r := Rotate(Pow2(a), c.x, c.y, rx, ry);
            Cell(U32(r.0 + Shl(rx, a)), U32(r.1 + Shl(ry, a))) == Ascend(Pow2(a), q, c)
  {
    hide U32, Pow2, Shl;
    var s := Pow2(a);
    TwoPow2Fits(a);
    ShiftedBit(a);
    U32Id(s - 1 - c.x);
    U32Id(s - 1 - c.y);
    U32Id(Ascend(s, q, c).x);
    U32Id(Ascend(s, q, c).y);
  }

  lemma {:induction false} ShiftedBit(a: nat)
    ensures Shl(0, a) == 0 && Shl(1, a) == Pow2(a)
  {
  }

  lemma {:induction false} TwoPow2Fits(a: nat)
    requires a < 31
    ensures 2 * Pow2(a) <= TWO_32 / 2
  {
    Pow2Monotone(a + 1, 31);
    Pow2Values();
  }

  /** The rest of an identifier when its two low bits move over to the part already decoded. */
  lemma {:induction false} ShiftQuarter(t: nat, p: nat, low: nat)
    requires low < p
    ensures t * p + low == (t / 4) * (4 * p) + (Times(t % 4, p) + low)
  {
    var q := t / 4;
    assert t == 4 * q + t % 4;
    assert t * p == (4 * q) * p + (t % 4) * p;
    assert (t % 4) * p == Times(t % 4, p);
    assert (4 * q) * p == q * (4 * p);
  }

  lemma {:induction false} NothingLeft(t: nat, p: nat, low: nat, whole: nat)
    requires t * p + low == whole < p
    ensures t == 0
  {
    if t > 0 {
      AtLeastOnce(t, p);
    }
  }

  lemma {:induction false} ZoomByBitLength(id: nat)
    requires id <= MAX_TILE_ID
    ensures U64(3 * id + 1) == 3 * id + 1 && (BitLen(3 * id + 1) - 1) / 2 == ZoomOf(id) <= MAX_ZOOM
  {
    hide ZoomOf, Base, Pow4, BitLen;
    var z := ZoomOf(id);
    IdsUpToZoom(id);
    BaseClosed(z);
    BaseClosed(31);
    Pow2Values();
    Pow2OfTwice(z);
    assert Pow2(2 * z + 2) == 2 * Pow2(2 * z + 1) == 4 * Pow2(2 * z);
    var v := 3 * id + 1;
    if v < Pow2(2 * z + 1) {
      BitLenOf(v, 2 * z);
    } else {
      BitLenOf(v, 2 * z + 1);
    }
  }

  lemma {:induction false} MaxIdFits()
    ensures 4 * MAX_TILE_ID < TWO_64
  {
    BaseClosed(31);
    Pow2Values();
  }

  /** What the inverse conversion keeps: the digits decoded so far give the cell so far, and the rest
      of the position is still in t. */
  ghost predicate Decoding(a: nat, t: nat, low: nat, whole: nat, c: Cell) {
    && low < Pow4(a) && t <= whole
    && t * Pow4(a) + low == whole
    && c == CellAt(a, low)
  }

  lemma {:induction false} DecodeStep(a: nat, t: nat, low: nat, whole: nat, c: Cell)
    requires a < 31 && Decoding(a, t, low, whole, c)
    ensures Decoding(a + 1, t / 4, Times(t % 4, Pow4(a)) + low, whole, Ascend(Pow2(a), t % 4, c))
  {
    hide CellAt, Times, Ascend, Pow2;
    CellInQuadrant(a + 1, Times(t % 4, Pow4(a)) + low, t % 4, low);
    ShiftQuarter(t, Pow4(a), low);
  }

  lemma {:induction false} DecodeStart(position: nat)
    ensures Decoding(0, position, 0, position, Cell(0, 0))
  {
  }

  lemma {:induction false} DecodeCell(a: nat, t: nat, low: nat, whole: nat, c: Cell)
    requires Decoding(a, t, low, whole, c)
    ensures InGrid(c, a) && (whole < Pow4(a) ==> c == CellAt(a, whole))
  {
    hide CellAt, Pow4;
    if whole < Pow4(a) {
      NothingLeft(t, Pow4(a), low, whole);
    }
  }

  /** The cell at a position, quadrant by quadrant from the innermost. */
  method DecodePosition(z: nat, position: nat) returns (tx: nat, ty: nat)
    requires z <= 31 && position < Pow4(z)
    ensures Cell(tx, ty) == CellAt(z, position)
  {
    hide Decoding, CellAt, Ascend, Times, Pow2, Pow4;
    var t := position;
    tx, ty := 0, 0;
    ghost var low: nat := 0;
    DecodeStart(position);
    for a := 0 to z
      invariant Decoding(a, t, low, position, Cell(tx, ty))
    {
      DecodeStep(a, t, low, position, Cell(tx, ty));
      DecodeCell(a, t, low, position, Cell(tx, ty));
      tx, ty := DecodeRound(a, t, tx, ty);
      low := Times(t % 4, Pow4(a)) + low;
      t := t / 4;
    }
    DecodeCell(z, t, low, position, Cell(tx, ty));
  }

  /** One quadrant: the two low bits of t turn and place the cell decoded so far. */
  method DecodeRound(a: nat, t: nat, tx: nat, ty: nat) returns (x: nat, y: nat)
    requires a < 31 && InGrid(Cell(tx, ty), a)
    ensures Cell(x, y) == Ascend(Pow2(a), t % 4, Cell(tx, ty))
  {
    var s := Pow2(a);
    var rx := And(1, Shr(U32(t), 1));
    var ry := And(1, Xor(U32(t), rx));
    QuadrantBits(t);
    RotateIsAscend(a, t % 4, Cell(tx, ty));
    var r := Rotate(s, tx, ty, rx, ry);
    x, y := U32(r.0 + Shl(rx, a)), U32(r.1 + Shl(ry, a));
  }

  method ZoomOfWord(id: nat) returns (z: nat)
    requires id <= MAX_TILE_ID
    ensures z == ZoomOf(id) <= MAX_ZOOM
  {
    ZoomByBitLength(id);
    z := (BitLen(U64(3 * id + 1)) - 1) / 2;
  }

  lemma {:induction false} PositionWord(z: nat, id: nat)
    requires id < TWO_64 && z == ZoomOf(id) <= MAX_ZOOM
    ensures U64(id - BaseWord(z)) == id - Base(z) < Pow4(z)
  {
    hide BaseWord, Base, Pow4, ZoomOf, U64;
    BaseWordIs(z);
    U64Id(id - Base(z));
  }

  lemma {:induction false} TileAtIs(id: nat, z: nat, c: Cell)
    requires z == ZoomOf(id) && c == CellAt(z, id - Base(z))
    ensures Tile(z, c.x, c.y) == TileAt(id)
    ensures z <= MAX_ZOOM ==> ValidTile(TileAt(id))
  {
  }

  /** The tile of an identifier; exactly the identifiers above the maximum zoom are refused. */
  method IdToZxy(id: nat) returns (r: Lookup)
    requires id < TWO_64
    ensures r == if id <= MAX_TILE_ID then Found(TileAt(id)) else AboveMaxZoom
    ensures r.Found? ==> ValidTile(r.tile)
  {
    hide TileAt, ZoomOf, CellAt, BaseWord, Base, Pow4, U64, ValidTile;
    if id > MAX_TILE_ID {
      return AboveMaxZoom;
    }
    var z := ZoomOfWord(id);
    if z > MAX_ZOOM {
      return AboveMaxZoom;
    }
    PositionWord(z, id);
    var tx, ty := DecodePosition(z, U64(id - BaseWord(z)));
    TileAtIs(id, z, Cell(tx, ty));
    r := Found(Tile(z, tx, ty));
  }

  /** The identifier of a tile of a supported zoom. */
  method EncodeTile(t: Tile) returns (id: nat)
    requires ValidTile(t)
    ensures id == IdOf(t)
  {
    LowCellOfTile(t);
    id := ZxyToId(t.z, t.x, t.y);
  }

  /** Encoding a tile and decoding its identifier gives the tile back. */
  method RoundTrip(t: Tile) returns (id: nat, back: Lookup)
    requires ValidTile(t)
    ensures id <= MAX_TILE_ID && back == Found(t)
  {
    id := EncodeTile(t);
    IdBijection(t, 0);
    MaxIdFits();
    back := IdToZxy(id);
  }
}
