/*
 * The triangulation of the box surface as a specification.
 *
 * Every quad the generators emit is one unit square of the surface grid.  The
 * reference triangulation lists those squares as grid cells, in the order the
 * generators visit them: the side walls layer by layer around the ring, then the
 * top cap and the bottom cap row by row.  Indexed turns a list of cells into
 * quads of vertex indices through the index map GridIndex, and Flatten turns
 * quads into the index buffer that SetQuad writes.
 */
module QuadMesh {
  import opened BoxLayout

  /** Four vertex indices: v10 follows v00 along the face, v01 lies one step across. */
  datatype Quad = Quad(v00: int, v10: int, v01: int, v11: int)

  /** The six indices SetQuad writes: triangles (v00, v01, v10) and (v10, v01, v11). */
  function QuadIndices(q: Quad): seq<int> {
    [q.v00, q.v01, q.v10, q.v10, q.v01, q.v11]
  }

  /** The index buffer holding the quads in order, six indices each. */
  function Flatten(qs: seq<Quad>): seq<int>
    decreases |qs|
  {
    if qs == [] then [] else Flatten(qs[..|qs| - 1]) + QuadIndices(qs[|qs| - 1])
  }

  /** Four grid points, named like the corners of a Quad. */
  datatype Cell = Cell(p00: Point, p10: Point, p01: Point, p11: Point)

  /** The quad whose corners are the vertices the layout puts at the cell's points. */
  function IndexCell(sx: int, sy: int, sz: int, c: Cell): Quad {
    Quad(GridIndex(sx, sy, sz, c.p00), GridIndex(sx, sy, sz, c.p10),
         GridIndex(sx, sy, sz, c.p01), GridIndex(sx, sy, sz, c.p11))
  }

  /** The quads of a list of cells, one for one. */
  function Indexed(sx: int, sy: int, sz: int, cells: seq<Cell>): seq<Quad> {
    seq(|cells|, i requires 0 <= i < |cells| => IndexCell(sx, sy, sz, cells[i]))
  }

  // ---------------------------------------------------------------------------
  // The cells of the surface

  /** The wall square between ring positions k and k + 1 (cyclically), layers y and y + 1. */
  function SideCell(sx: int, sz: int, y: int, k: int): Cell
    requires sx >= 1 && sz >= 1 && 0 <= k < RingSize(sx, sz)
  {
    var k' := Next(sx, sz, k);
    Cell(RingPoint(sx, sz, y, k), RingPoint(sx, sz, y, k'),
         RingPoint(sx, sz, y + 1, k), RingPoint(sx, sz, y + 1, k'))
  }

  /** The top-face square with lower corner (cx, sy, cz). */
  function TopCell(sy: int, cx: int, cz: int): Cell {
    Cell((cx, sy, cz), (cx + 1, sy, cz), (cx, sy, cz + 1), (cx + 1, sy, cz + 1))
  }

  /** The bottom-face square with lower corner (cx, 0, cz), started from its far edge. */
  function BottomCell(cx: int, cz: int): Cell {
    Cell((cx, 0, cz + 1), (cx + 1, 0, cz + 1), (cx, 0, cz), (cx + 1, 0, cz))
  }

  function SideQuad(sx: int, sy: int, sz: int, y: int, k: int): Quad
    requires sx >= 1 && sz >= 1 && 0 <= k < RingSize(sx, sz)
  {
    IndexCell(sx, sy, sz, SideCell(sx, sz, y, k))
  }

  /** The wall squares of layer y at ring positions lo .. hi - 1, in ring order. */
  function SideSpanCells(sx: int, sz: int, y: int, lo: int, hi: int): seq<Cell>
    requires sx >= 1 && sz >= 1 && 0 <= lo <= hi <= RingSize(sx, sz)
    decreases hi - lo
  {
    if lo == hi then [] else [SideCell(sx, sz, y, lo)] + SideSpanCells(sx, sz, y, lo + 1, hi)
  }

  /** The wall squares of layers lo .. hi - 1, each layer once around the ring. */
  function SideWallCells(sx: int, sz: int, lo: int, hi: int): seq<Cell>
    requires sx >= 1 && sz >= 1
    decreases hi - lo
  {
    if lo >= hi then []
    else SideSpanCells(sx, sz, lo, 0, RingSize(sx, sz)) + SideWallCells(sx, sz, lo + 1, hi)
  }

  /** The top-face squares of row cz at columns lo .. hi - 1, left to right. */
  function TopRowCells(sy: int, cz: int, lo: int, hi: int): seq<Cell>
    decreases hi - lo
  {
    if lo >= hi then [] else [TopCell(sy, lo, cz)] + TopRowCells(sy, cz, lo + 1, hi)
  }

  /** The top-face squares of rows lo .. hi - 1, row by row. */
  function TopCapCells(sx: int, sy: int, lo: int, hi: int): seq<Cell>
    decreases hi - lo
  {
    if lo >= hi then [] else TopRowCells(sy, lo, 0, sx) + TopCapCells(sx, sy, lo + 1, hi)
  }

  function BottomRowCells(cz: int, lo: int, hi: int): seq<Cell>
    decreases hi - lo
  {
    if lo >= hi then [] else [BottomCell(lo, cz)] + BottomRowCells(cz, lo + 1, hi)
  }

  function BottomCapCells(sx: int, lo: int, hi: int): seq<Cell>
    decreases hi - lo
  {
    if lo >= hi then [] else BottomRowCells(lo, 0, sx) + BottomCapCells(sx, lo + 1, hi)
  }

  /** The side walls as quads. */
  function SideWall(sx: int, sy: int, sz: int): seq<Quad>
    requires ValidSize(sx, sy, sz)
  {
    Indexed(sx, sy, sz, SideWallCells(sx, sz, 0, sy))
  }

  function TopCap(sx: int, sy: int, sz: int): seq<Quad> {
    Indexed(sx, sy, sz, TopCapCells(sx, sy, 0, sz))
  }

  function BottomCap(sx: int, sy: int, sz: int): seq<Quad> {
    Indexed(sx, sy, sz, BottomCapCells(sx, 0, sz))
  }

  /** The whole surface: side walls, then the top cap, then the bottom cap. */
  function BoxQuads(sx: int, sy: int, sz: int): seq<Quad>
    requires ValidSize(sx, sy, sz)
  {
    SideWall(sx, sy, sz) + TopCap(sx, sy, sz) + BottomCap(sx, sy, sz)
  }

  /** The number of quads the plain generator allocates room for. */
  function QuadCount(sx: int, sy: int, sz: int): int {
    (sx * sy + sx * sz + sy * sz) * 2
  }

  // ---------------------------------------------------------------------------
  // Geometry of a cell

  function Sub(a: Point, b: Point): Point {
    (a.0 - b.0, a.1 - b.1, a.2 - b.2)
  }

  function Cross(a: Point, b: Point): Point {
    (a.1 * b.2 - a.2 * b.1, a.2 * b.0 - a.0 * b.2, a.0 * b.1 - a.1 * b.0)
  }

  /** d is one of the six unit steps along a grid axis. */
  predicate UnitAxis(d: Point) {
    || (d.1 == 0 && d.2 == 0 && (d.0 == 1 || d.0 == -1))
    || (d.0 == 0 && d.2 == 0 && (d.1 == 1 || d.1 == -1))
    || (d.0 == 0 && d.1 == 0 && (d.2 == 1 || d.2 == -1))
  }

  /** The four points are the corners of one unit square of the grid, p11 opposite p00. */
  predicate UnitSquare(c: Cell) {
    var d1 := Sub(c.p10, c.p00);
    var d2 := Sub(c.p01, c.p00);
    && UnitAxis(d1) && UnitAxis(d2)
    && d1.0 * d2.0 + d1.1 * d2.1 + d1.2 * d2.2 == 0
    && c.p11 == Add(c.p10, d2)
  }

  /**
   * The normal of both triangles (p00, p01, p10) and (p10, p01, p11) by the
   * right-hand rule on their vertex order.
   */
  function Normal(c: Cell): Point {
    Cross(Sub(c.p01, c.p00), Sub(c.p10, c.p00))
  }

  /** The vector n has a nonzero component along the axis (0 = x, 1 = y, 2 = z). */
  predicate Along(n: Point, axis: int) {
    if axis == 0 then n.0 != 0 else if axis == 1 then n.1 != 0 else n.2 != 0
  }

  /** p is a surface point on the face of the box whose outward normal is n. */
  predicate OnFace(sx: int, sy: int, sz: int, p: Point, n: Point) {
    && OnSurface(sx, sy, sz, p)
    && (n == (1, 0, 0) ==> p.0 == sx) && (n == (-1, 0, 0) ==> p.0 == 0)
    && (n == (0, 1, 0) ==> p.1 == sy) && (n == (0, -1, 0) ==> p.1 == 0)
    && (n == (0, 0, 1) ==> p.2 == sz) && (n == (0, 0, -1) ==> p.2 == 0)
  }

  /** A unit square of one face of the box, wound so that its normal points out of the box. */
  predicate OutwardSquare(sx: int, sy: int, sz: int, c: Cell) {
    && UnitSquare(c)
    && var n := Normal(c);
    && OnFace(sx, sy, sz, c.p00, n) && OnFace(sx, sy, sz, c.p10, n)
    && OnFace(sx, sy, sz, c.p01, n) && OnFace(sx, sy, sz, c.p11, n)
  }

  predicate AllOutward(sx: int, sy: int, sz: int, cells: seq<Cell>) {
    forall i :: 0 <= i < |cells| ==> OutwardSquare(sx, sy, sz, cells[i])
  }

  predicate AllAlong(cells: seq<Cell>, axis: int) {
    forall i :: 0 <= i < |cells| ==> Along(Normal(cells[i]), axis)
  }

  // ---------------------------------------------------------------------------
  // Geometry of a quad of indices

  predicate IndicesInRange(sx: int, sy: int, sz: int, q: Quad) {
    var n := VertexCount(sx, sy, sz);
    && 0 <= q.v00 < n && 0 <= q.v10 < n && 0 <= q.v01 < n && 0 <= q.v11 < n
  }

  /** The points the layout puts at the quad's four indices. */
  function LaidOut(sx: int, sy: int, sz: int, q: Quad): Cell
    requires ValidSize(sx, sy, sz) && IndicesInRange(sx, sy, sz, q)
  {
    Cell(LayoutPoint(sx, sy, sz, q.v00), LayoutPoint(sx, sy, sz, q.v10),
         LayoutPoint(sx, sy, sz, q.v01), LayoutPoint(sx, sy, sz, q.v11))
  }

  /**
   * A well-formed quad: its indices address emitted vertices, and those vertices
   * form a unit square of a box face, wound outward.
   */
  predicate GoodQuad(sx: int, sy: int, sz: int, q: Quad) {
    && ValidSize(sx, sy, sz) && IndicesInRange(sx, sy, sz, q)
    && OutwardSquare(sx, sy, sz, LaidOut(sx, sy, sz, q))
  }

  predicate AllGood(sx: int, sy: int, sz: int, qs: seq<Quad>) {
    forall j :: 0 <= j < |qs| ==> GoodQuad(sx, sy, sz, qs[j])
  }

  /** A good quad whose normal lies along the given axis (0 = x, 1 = y, 2 = z). */
  predicate Facing(sx: int, sy: int, sz: int, q: Quad, axis: int) {
    && GoodQuad(sx, sy, sz, q)
    && Along(Normal(LaidOut(sx, sy, sz, q)), axis)
  }

  predicate AllFacing(sx: int, sy: int, sz: int, qs: seq<Quad>, axis: int) {
    forall j :: 0 <= j < |qs| ==> Facing(sx, sy, sz, qs[j], axis)
  }

  // ---------------------------------------------------------------------------
  // Flattening and indexing

  lemma {:induction false} FlattenLength(qs: seq<Quad>)
    ensures |Flatten(qs)| == 6 * |qs|
    decreases |qs|
  {
    if qs != [] {
      FlattenLength(qs[..|qs| - 1]);
    }
  }

  lemma {:induction false} FlattenAppend(a: seq<Quad>, b: seq<Quad>)
    ensures Flatten(a + b) == Flatten(a) + Flatten(b)
    decreases |b|
  {
    if b == [] {
      assert a + b == a;
    } else {
      var b', q := b[..|b| - 1], b[|b| - 1];
      assert (a + b)[..|a + b| - 1] == a + b';
      assert (a + b)[|a + b| - 1] == q;
      FlattenAppend(a, b');
      calc {
        Flatten(a + b);
        Flatten(a + b') + QuadIndices(q);
        Flatten(a) + Flatten(b') + QuadIndices(q);
        Flatten(a) + (Flatten(b') + QuadIndices(q));
      }
    }
  }

  /** Appending one quad appends its six indices. */
  lemma FlattenSnoc(qs: seq<Quad>, q: Quad)
    ensures Flatten(qs + [q]) == Flatten(qs) + QuadIndices(q)
  {
    assert (qs + [q])[..|qs|] == qs;
  }

  lemma IndexedAppend(sx: int, sy: int, sz: int, a: seq<Cell>, b: seq<Cell>)
    ensures Indexed(sx, sy, sz, a + b) == Indexed(sx, sy, sz, a) + Indexed(sx, sy, sz, b)
  {
    var l, r := Indexed(sx, sy, sz, a + b), Indexed(sx, sy, sz, a) + Indexed(sx, sy, sz, b);
    forall i | 0 <= i < |l| ensures l[i] == r[i] {
      if i < |a| { assert (a + b)[i] == a[i]; } else { assert (a + b)[i] == b[i - |a|]; }
    }
  }

  lemma IndexedCons(sx: int, sy: int, sz: int, c: Cell, cs: seq<Cell>)
    ensures Indexed(sx, sy, sz, [c] + cs) == [IndexCell(sx, sy, sz, c)] + Indexed(sx, sy, sz, cs)
  {
    IndexedAppend(sx, sy, sz, [c], cs);
    assert Indexed(sx, sy, sz, [c]) == [IndexCell(sx, sy, sz, c)];
  }

  // ---------------------------------------------------------------------------
  // Counting

  lemma {:induction false} SideSpanCellsLength(sx: int, sz: int, y: int, lo: int, hi: int)
    requires sx >= 1 && sz >= 1 && 0 <= lo <= hi <= RingSize(sx, sz)
    ensures |SideSpanCells(sx, sz, y, lo, hi)| == hi - lo
    decreases hi - lo
  {
    if lo != hi {
      SideSpanCellsLength(sx, sz, y, lo + 1, hi);
    }
  }

  /** A span of the ring splits at any position in between. */
  lemma {:induction false} SideSpanCellsSplit(sx: int, sz: int, y: int, lo: int, mid: int, hi: int)
    requires sx >= 1 && sz >= 1 && 0 <= lo <= mid <= hi <= RingSize(sx, sz)
    ensures SideSpanCells(sx, sz, y, lo, hi)
         == SideSpanCells(sx, sz, y, lo, mid) + SideSpanCells(sx, sz, y, mid, hi)
    decreases mid - lo
  {
    if lo < mid {
      SideSpanCellsSplit(sx, sz, y, lo + 1, mid, hi);
      var c := SideCell(sx, sz, y, lo);
      assert SideSpanCells(sx, sz, y, lo, hi) == [c] + SideSpanCells(sx, sz, y, lo + 1, hi);
      assert SideSpanCells(sx, sz, y, lo, mid) == [c] + SideSpanCells(sx, sz, y, lo + 1, mid);
      assert [c] + (SideSpanCells(sx, sz, y, lo + 1, mid) + SideSpanCells(sx, sz, y, mid, hi))
          == ([c] + SideSpanCells(sx, sz, y, lo + 1, mid)) + SideSpanCells(sx, sz, y, mid, hi);
    }
  }

  lemma {:induction false} SideWallCellsLength(sx: int, sz: int, lo: int, hi: int)
    requires sx >= 1 && sz >= 1 && lo <= hi
    ensures |SideWallCells(sx, sz, lo, hi)| == (hi - lo) * RingSize(sx, sz)
    decreases hi - lo
  {
    if lo < hi {
      SideWallCellsLength(sx, sz, lo + 1, hi);
      SideSpanCellsLength(sx, sz, lo, 0, RingSize(sx, sz));
      MulStep(hi - lo - 1, RingSize(sx, sz));
    }
  }

  lemma {:induction false} TopRowCellsLength(sy: int, cz: int, lo: int, hi: int)
    requires lo <= hi
    ensures |TopRowCells(sy, cz, lo, hi)| == hi - lo
    decreases hi - lo
  {
    if lo < hi {
      TopRowCellsLength(sy, cz, lo + 1, hi);
    }
  }

  lemma {:induction false} TopCapCellsLength(sx: int, sy: int, lo: int, hi: int)
    requires sx >= 0 && lo <= hi
    ensures |TopCapCells(sx, sy, lo, hi)| == (hi - lo) * sx
    decreases hi - lo
  {
    if lo < hi {
      TopCapCellsLength(sx, sy, lo + 1, hi);
      TopRowCellsLength(sy, lo, 0, sx);
      MulStep(hi - lo - 1, sx);
    }
  }

  lemma {:induction false} BottomRowCellsLength(cz: int, lo: int, hi: int)
    requires lo <= hi
    ensures |BottomRowCells(cz, lo, hi)| == hi - lo
    decreases hi - lo
  {
    if lo < hi {
      BottomRowCellsLength(cz, lo + 1, hi);
    }
  }

  lemma {:induction false} BottomCapCellsLength(sx: int, lo: int, hi: int)
    requires sx >= 0 && lo <= hi
    ensures |BottomCapCells(sx, lo, hi)| == (hi - lo) * sx
    decreases hi - lo
  {
    if lo < hi {
      BottomCapCellsLength(sx, lo + 1, hi);
      BottomRowCellsLength(lo, 0, sx);
      MulStep(hi - lo - 1, sx);
    }
  }

  /**
   * The reference triangulation has one quad per face cell of the box, for every
   * size: sizeY rings of quads on the walls and sizeX * sizeZ on each cap, which is
   * the count the generator allocates; its index buffer has six indices per quad.
   */
  lemma BoxQuadsCount(sx: int, sy: int, sz: int)
    requires ValidSize(sx, sy, sz)
    ensures |SideWall(sx, sy, sz)| == sy * RingSize(sx, sz)
    ensures |TopCap(sx, sy, sz)| == sx * sz && |BottomCap(sx, sy, sz)| == sx * sz
    ensures |BoxQuads(sx, sy, sz)| == QuadCount(sx, sy, sz)
    ensures |Flatten(BoxQuads(sx, sy, sz))| == 6 * QuadCount(sx, sy, sz)
  {
    SideWallCellsLength(sx, sz, 0, sy);
    TopCapCellsLength(sx, sy, 0, sz);
    BottomCapCellsLength(sx, 0, sz);
    QuadCountSplit(sx, sy, sz);
    FlattenLength(BoxQuads(sx, sy, sz));
  }

  lemma QuadCountSplit(sx: int, sy: int, sz: int)
    ensures QuadCount(sx, sy, sz) == sy * RingSize(sx, sz) + sz * sx + sz * sx
  {
    calc {
      sy * RingSize(sx, sz);
      sy * ((sx + sz) * 2);
      2 * (sx * sy) + 2 * (sy * sz);
    }
  }

  // ---------------------------------------------------------------------------
  // Every cell of the surface is an outward unit square

  /** Each wall cell between layers y and y + 1 is an outward unit square. */
  lemma SideCellSquare(sx: int, sy: int, sz: int, y: int, k: int)
    requires ValidSize(sx, sy, sz) && 0 <= y < sy && 0 <= k < RingSize(sx, sz)
    ensures OutwardSquare(sx, sy, sz, SideCell(sx, sz, y, k))
    ensures Along(Normal(SideCell(sx, sz, y, k)), SideAxis(sx, sz, k))
  {
    var c := SideCell(sx, sz, y, k);
    var d := RingDirection(sx, sz, k);
    RingStep(sx, sz, y, k);
    RingStep(sx, sz, y + 1, k);
    WallSquare(c, d);
    RingPositionOfRingPoint(sx, sz, y, k);
    RingPositionOfRingPoint(sx, sz, y + 1, k);
    RingPositionOfRingPoint(sx, sz, y, Next(sx, sz, k));
    RingPositionOfRingPoint(sx, sz, y + 1, Next(sx, sz, k));
  }

  /** A square spanned by a horizontal unit step d and one step up has normal up x d. */
  lemma WallSquare(c: Cell, d: Point)
    requires d in {(1, 0, 0), (0, 0, 1), (-1, 0, 0), (0, 0, -1)}
    requires c.p10 == Add(c.p00, d) && c.p01 == Add(c.p00, (0, 1, 0))
    requires c.p11 == Add(c.p10, (0, 1, 0))
    ensures UnitSquare(c)
    ensures d == (1, 0, 0) ==> Normal(c) == (0, 0, -1)
    ensures d == (0, 0, 1) ==> Normal(c) == (1, 0, 0)
    ensures d == (-1, 0, 0) ==> Normal(c) == (0, 0, 1)
    ensures d == (0, 0, -1) ==> Normal(c) == (-1, 0, 0)
  {
  }

  /** Which axis the wall square at ring position k faces: z on the front and back, x on the sides. */
  function SideAxis(sx: int, sz: int, k: int): int {
    if k < sx || (sx + sz <= k < 2 * sx + sz) then 2 else 0
  }

  lemma AllOutwardAppend(sx: int, sy: int, sz: int, a: seq<Cell>, b: seq<Cell>)
    requires AllOutward(sx, sy, sz, a) && AllOutward(sx, sy, sz, b)
    ensures AllOutward(sx, sy, sz, a + b)
  {
    forall i | 0 <= i < |a + b| ensures OutwardSquare(sx, sy, sz, (a + b)[i]) {
      if i < |a| { assert (a + b)[i] == a[i]; } else { assert (a + b)[i] == b[i - |a|]; }
    }
  }

  lemma AllAlongAppend(a: seq<Cell>, b: seq<Cell>, axis: int)
    requires AllAlong(a, axis) && AllAlong(b, axis)
    ensures AllAlong(a + b, axis)
  {
    forall i | 0 <= i < |a + b| ensures Along(Normal((a + b)[i]), axis) {
      if i < |a| { assert (a + b)[i] == a[i]; } else { assert (a + b)[i] == b[i - |a|]; }
    }
  }

  /** The wall squares of one layer are outward unit squares. */
  lemma {:induction false} SideSpanCellsOutward(sx: int, sy: int, sz: int, y: int, lo: int, hi: int)
    requires ValidSize(sx, sy, sz) && 0 <= y < sy && 0 <= lo <= hi <= RingSize(sx, sz)
    ensures AllOutward(sx, sy, sz, SideSpanCells(sx, sz, y, lo, hi))
    decreases hi - lo
  {
    if lo != hi {
      var c, rest := SideCell(sx, sz, y, lo), SideSpanCells(sx, sz, y, lo + 1, hi);
      SideSpanCellsOutward(sx, sy, sz, y, lo + 1, hi);
      SideCellSquare(sx, sy, sz, y, lo);
      AllOutwardAppend(sx, sy, sz, [c], rest);
      assert SideSpanCells(sx, sz, y, lo, hi) == [c] + rest;
    }
  }

  /** Along one edge of the ring all wall squares of a layer face the same axis. */
  lemma {:induction false} SideSpanCellsAlong(sx: int, sy: int, sz: int, y: int, lo: int, hi: int, axis: int)
    requires ValidSize(sx, sy, sz) && 0 <= y < sy && 0 <= lo <= hi <= RingSize(sx, sz)
    requires forall k :: lo <= k < hi ==> SideAxis(sx, sz, k) == axis
    ensures AllAlong(SideSpanCells(sx, sz, y, lo, hi), axis)
    decreases hi - lo
  {
    if lo != hi {
      var c, rest := SideCell(sx, sz, y, lo), SideSpanCells(sx, sz, y, lo + 1, hi);
      SideSpanCellsAlong(sx, sy, sz, y, lo + 1, hi, axis);
      SideCellSquare(sx, sy, sz, y, lo);
      assert SideAxis(sx, sz, lo) == axis;
      AllAlongAppend([c], rest, axis);
      assert SideSpanCells(sx, sz, y, lo, hi) == [c] + rest;
    }
  }

  lemma {:induction false} SideWallCellsOutward(sx: int, sy: int, sz: int, lo: int, hi: int)
    requires ValidSize(sx, sy, sz) && 0 <= lo && hi <= sy
    ensures AllOutward(sx, sy, sz, SideWallCells(sx, sz, lo, hi))
    decreases hi - lo
  {
    if lo < hi {
      SideSpanCellsOutward(sx, sy, sz, lo, 0, RingSize(sx, sz));
      SideWallCellsOutward(sx, sy, sz, lo + 1, hi);
      AllOutwardAppend(sx, sy, sz, SideSpanCells(sx, sz, lo, 0, RingSize(sx, sz)), SideWallCells(sx, sz, lo + 1, hi));
    }
  }

  lemma {:induction false} TopRowCellsOutward(sx: int, sy: int, sz: int, cz: int, lo: int, hi: int)
    requires ValidSize(sx, sy, sz) && 0 <= cz < sz && 0 <= lo && hi <= sx
    ensures AllOutward(sx, sy, sz, TopRowCells(sy, cz, lo, hi))
    ensures AllAlong(TopRowCells(sy, cz, lo, hi), 1)
    decreases hi - lo
  {
    if lo < hi {
      var c, rest := TopCell(sy, lo, cz), TopRowCells(sy, cz, lo + 1, hi);
      TopRowCellsOutward(sx, sy, sz, cz, lo + 1, hi);
      assert OutwardSquare(sx, sy, sz, c) && Along(Normal(c), 1);
      AllOutwardAppend(sx, sy, sz, [c], rest);
      AllAlongAppend([c], rest, 1);
      assert TopRowCells(sy, cz, lo, hi) == [c] + rest;
    }
  }

  lemma {:induction false} TopCapCellsOutward(sx: int, sy: int, sz: int, lo: int, hi: int)
    requires ValidSize(sx, sy, sz) && 0 <= lo && hi <= sz
    ensures AllOutward(sx, sy, sz, TopCapCells(sx, sy, lo, hi))
    ensures AllAlong(TopCapCells(sx, sy, lo, hi), 1)
    decreases hi - lo
  {
    if lo < hi {
      var row, rest := TopRowCells(sy, lo, 0, sx), TopCapCells(sx, sy, lo + 1, hi);
      TopRowCellsOutward(sx, sy, sz, lo, 0, sx);
      TopCapCellsOutward(sx, sy, sz, lo + 1, hi);
      AllOutwardAppend(sx, sy, sz, row, rest);
      AllAlongAppend(row, rest, 1);
      assert TopCapCells(sx, sy, lo, hi) == row + rest;
    }
  }

  lemma {:induction false} BottomRowCellsOutward(sx: int, sy: int, sz: int, cz: int, lo: int, hi: int)
    requires ValidSize(sx, sy, sz) && 0 <= cz < sz && 0 <= lo && hi <= sx
    ensures AllOutward(sx, sy, sz, BottomRowCells(cz, lo, hi))
    ensures AllAlong(BottomRowCells(cz, lo, hi), 1)
    decreases hi - lo
  {
    if lo < hi {
      var c, rest := BottomCell(lo, cz), BottomRowCells(cz, lo + 1, hi);
      BottomRowCellsOutward(sx, sy, sz, cz, lo + 1, hi);
      assert OutwardSquare(sx, sy, sz, c) && Along(Normal(c), 1);
      AllOutwardAppend(sx, sy, sz, [c], rest);
      AllAlongAppend([c], rest, 1);
      assert BottomRowCells(cz, lo, hi) == [c] + rest;
    }
  }

  lemma {:induction false} BottomCapCellsOutward(sx: int, sy: int, sz: int, lo: int, hi: int)
    requires ValidSize(sx, sy, sz) && 0 <= lo && hi <= sz
    ensures AllOutward(sx, sy, sz, BottomCapCells(sx, lo, hi))
    ensures AllAlong(BottomCapCells(sx, lo, hi), 1)
    decreases hi - lo
  {
    if lo < hi {
      var row, rest := BottomRowCells(lo, 0, sx), BottomCapCells(sx, lo + 1, hi);
      BottomRowCellsOutward(sx, sy, sz, lo, 0, sx);
      BottomCapCellsOutward(sx, sy, sz, lo + 1, hi);
      AllOutwardAppend(sx, sy, sz, row, rest);
      AllAlongAppend(row, rest, 1);
      assert BottomCapCells(sx, lo, hi) == row + rest;
    }
  }

  // ---------------------------------------------------------------------------
  // From cells to quads

  /** An outward cell gives a good quad, and the layout puts the cell's points at its indices. */
  lemma IndexCellGood(sx: int, sy: int, sz: int, c: Cell)
    requires ValidSize(sx, sy, sz) && OutwardSquare(sx, sy, sz, c)
    ensures GoodQuad(sx, sy, sz, IndexCell(sx, sy, sz, c))
    ensures LaidOut(sx, sy, sz, IndexCell(sx, sy, sz, c)) == c
  {
    LayoutPointOfGridIndex(sx, sy, sz, c.p00);
    LayoutPointOfGridIndex(sx, sy, sz, c.p10);
    LayoutPointOfGridIndex(sx, sy, sz, c.p01);
    LayoutPointOfGridIndex(sx, sy, sz, c.p11);
    var q := IndexCell(sx, sy, sz, c);
    assert IndicesInRange(sx, sy, sz, q);
    assert LaidOut(sx, sy, sz, q) == c;
  }

  lemma IndexedGood(sx: int, sy: int, sz: int, cells: seq<Cell>)
    requires ValidSize(sx, sy, sz) && AllOutward(sx, sy, sz, cells)
    ensures AllGood(sx, sy, sz, Indexed(sx, sy, sz, cells))
  {
    var qs := Indexed(sx, sy, sz, cells);
    forall j | 0 <= j < |qs| ensures GoodQuad(sx, sy, sz, qs[j]) {
      IndexCellGood(sx, sy, sz, cells[j]);
    }
  }

  lemma IndexedFacing(sx: int, sy: int, sz: int, cells: seq<Cell>, axis: int)
    requires ValidSize(sx, sy, sz) && AllOutward(sx, sy, sz, cells) && AllAlong(cells, axis)
    ensures AllFacing(sx, sy, sz, Indexed(sx, sy, sz, cells), axis)
  {
    var qs := Indexed(sx, sy, sz, cells);
    forall j | 0 <= j < |qs| ensures Facing(sx, sy, sz, qs[j], axis) {
      IndexCellGood(sx, sy, sz, cells[j]);
    }
  }

  /** Both caps consist of y-facing outward squares. */
  lemma CapsFacingY(sx: int, sy: int, sz: int)
    requires ValidSize(sx, sy, sz)
    ensures AllFacing(sx, sy, sz, TopCap(sx, sy, sz), 1)
    ensures AllFacing(sx, sy, sz, BottomCap(sx, sy, sz), 1)
  {
    TopCapCellsOutward(sx, sy, sz, 0, sz);
    IndexedFacing(sx, sy, sz, TopCapCells(sx, sy, 0, sz), 1);
    BottomCapCellsOutward(sx, sy, sz, 0, sz);
    IndexedFacing(sx, sy, sz, BottomCapCells(sx, 0, sz), 1);
  }

  /**
   * Every quad of the box triangulation addresses emitted vertices that form a
   * unit square of a box face, wound so that its normal points outward.
   */
  lemma BoxQuadsGood(sx: int, sy: int, sz: int)
    requires ValidSize(sx, sy, sz)
    ensures AllGood(sx, sy, sz, BoxQuads(sx, sy, sz))
  {
    var side, top, bottom := SideWallCells(sx, sz, 0, sy), TopCapCells(sx, sy, 0, sz), BottomCapCells(sx, 0, sz);
    SideWallCellsOutward(sx, sy, sz, 0, sy);
    TopCapCellsOutward(sx, sy, sz, 0, sz);
    BottomCapCellsOutward(sx, sy, sz, 0, sz);
    AllOutwardAppend(sx, sy, sz, side, top);
    AllOutwardAppend(sx, sy, sz, side + top, bottom);
    IndexedGood(sx, sy, sz, side + top + bottom);
    IndexedAppend(sx, sy, sz, side, top);
    IndexedAppend(sx, sy, sz, side + top, bottom);
  }

  // ---------------------------------------------------------------------------
  // Each square is emitted once

  /**
   * The place of a cell in the emission order, read off the cell itself: wall
   * squares by the grid index of their first corner, then the top squares row
   * by row, then the bottom squares row by row.
   */
  function EmissionRank(sx: int, sy: int, sz: int, c: Cell): int {
    var ring := RingSize(sx, sz);
    if c.p01.1 != c.p00.1 then GridIndex(sx, sy, sz, c.p00)
    else if c.p00.1 == sy then sy * ring + c.p00.2 * sx + c.p00.0
    else sy * ring + sz * sx + c.p01.2 * sx + c.p01.0
  }

  /** The cells, numbered from lo, each sit at their emission rank. */
  predicate RankedFrom(sx: int, sy: int, sz: int, cells: seq<Cell>, lo: int) {
    forall i :: 0 <= i < |cells| ==> EmissionRank(sx, sy, sz, cells[i]) == lo + i
  }

  lemma RankedAppend(sx: int, sy: int, sz: int, a: seq<Cell>, b: seq<Cell>, lo: int)
    requires RankedFrom(sx, sy, sz, a, lo) && RankedFrom(sx, sy, sz, b, lo + |a|)
    ensures RankedFrom(sx, sy, sz, a + b, lo)
  {
    forall i | 0 <= i < |a + b| ensures EmissionRank(sx, sy, sz, (a + b)[i]) == lo + i {
      if i >= |a| {
        assert (a + b)[i] == b[i - |a|];
      }
    }
  }

  lemma {:induction false} SideSpanCellsRanked(sx: int, sy: int, sz: int, y: int, lo: int, hi: int)
    requires ValidSize(sx, sy, sz) && 0 <= y < sy && 0 <= lo <= hi <= RingSize(sx, sz)
    ensures RankedFrom(sx, sy, sz, SideSpanCells(sx, sz, y, lo, hi), y * RingSize(sx, sz) + lo)
    decreases hi - lo
  {
    if lo < hi {
      var c := SideCell(sx, sz, y, lo);
      RingVertex(sx, sy, sz, y, lo);
      assert c.p01.1 == y + 1 && c.p00.1 == y;
      assert EmissionRank(sx, sy, sz, c) == y * RingSize(sx, sz) + lo;
      SideSpanCellsRanked(sx, sy, sz, y, lo + 1, hi);
      RankedAppend(sx, sy, sz, [c], SideSpanCells(sx, sz, y, lo + 1, hi), y * RingSize(sx, sz) + lo);
    }
  }

  lemma {:induction false} SideWallCellsRanked(sx: int, sy: int, sz: int, lo: int, hi: int)
    requires ValidSize(sx, sy, sz) && 0 <= lo <= hi <= sy
    ensures RankedFrom(sx, sy, sz, SideWallCells(sx, sz, lo, hi), lo * RingSize(sx, sz))
    decreases hi - lo
  {
    if lo < hi {
      var ring := RingSize(sx, sz);
      SideSpanCellsRanked(sx, sy, sz, lo, 0, ring);
      SideSpanCellsLength(sx, sz, lo, 0, ring);
      SideWallCellsRanked(sx, sy, sz, lo + 1, hi);
      MulStep(lo, ring);
      RankedAppend(sx, sy, sz, SideSpanCells(sx, sz, lo, 0, ring), SideWallCells(sx, sz, lo + 1, hi), lo * ring);
    }
  }

  lemma {:induction false} TopRowCellsRanked(sx: int, sy: int, sz: int, cz: int, lo: int, hi: int)
    requires ValidSize(sx, sy, sz) && lo <= hi
    ensures RankedFrom(sx, sy, sz, TopRowCells(sy, cz, lo, hi), sy * RingSize(sx, sz) + cz * sx + lo)
    decreases hi - lo
  {
    if lo < hi {
      TopRowCellsRanked(sx, sy, sz, cz, lo + 1, hi);
      RankedAppend(sx, sy, sz, [TopCell(sy, lo, cz)], TopRowCells(sy, cz, lo + 1, hi), sy * RingSize(sx, sz) + cz * sx + lo);
    }
  }

  lemma {:induction false} TopCapCellsRanked(sx: int, sy: int, sz: int, lo: int, hi: int)
    requires ValidSize(sx, sy, sz) && lo <= hi
    ensures RankedFrom(sx, sy, sz, TopCapCells(sx, sy, lo, hi), sy * RingSize(sx, sz) + lo * sx)
    decreases hi - lo
  {
    if lo < hi {
      TopRowCellsRanked(sx, sy, sz, lo, 0, sx);
      TopRowCellsLength(sy, lo, 0, sx);
      TopCapCellsRanked(sx, sy, sz, lo + 1, hi);
      MulStep(lo, sx);
      RankedAppend(sx, sy, sz, TopRowCells(sy, lo, 0, sx), TopCapCells(sx, sy, lo + 1, hi), sy * RingSize(sx, sz) + lo * sx);
    }
  }

  lemma {:induction false} BottomRowCellsRanked(sx: int, sy: int, sz: int, cz: int, lo: int, hi: int)
    requires ValidSize(sx, sy, sz) && lo <= hi
    ensures RankedFrom(sx, sy, sz, BottomRowCells(cz, lo, hi), sy * RingSize(sx, sz) + sz * sx + cz * sx + lo)
    decreases hi - lo
  {
    if lo < hi {
      BottomRowCellsRanked(sx, sy, sz, cz, lo + 1, hi);
      RankedAppend(sx, sy, sz, [BottomCell(lo, cz)], BottomRowCells(cz, lo + 1, hi), sy * RingSize(sx, sz) + sz * sx + cz * sx + lo);
    }
  }

  lemma {:induction false} BottomCapCellsRanked(sx: int, sy: int, sz: int, lo: int, hi: int)
    requires ValidSize(sx, sy, sz) && lo <= hi
    ensures RankedFrom(sx, sy, sz, BottomCapCells(sx, lo, hi), sy * RingSize(sx, sz) + sz * sx + lo * sx)
    decreases hi - lo
  {
    if lo < hi {
      BottomRowCellsRanked(sx, sy, sz, lo, 0, sx);
      BottomRowCellsLength(lo, 0, sx);
      BottomCapCellsRanked(sx, sy, sz, lo + 1, hi);
      MulStep(lo, sx);
      RankedAppend(sx, sy, sz, BottomRowCells(lo, 0, sx), BottomCapCells(sx, lo + 1, hi), sy * RingSize(sx, sz) + sz * sx + lo * sx);
    }
  }

  /** The i-th square of the box triangulation is the one whose emission rank is i. */
  lemma BoxCellsRanked(sx: int, sy: int, sz: int)
    requires ValidSize(sx, sy, sz)
    ensures RankedFrom(sx, sy, sz, SideWallCells(sx, sz, 0, sy) + TopCapCells(sx, sy, 0, sz) + BottomCapCells(sx, 0, sz), 0)
  {
    var ring := RingSize(sx, sz);
    var side, top, bottom := SideWallCells(sx, sz, 0, sy), TopCapCells(sx, sy, 0, sz), BottomCapCells(sx, 0, sz);
    SideWallCellsRanked(sx, sy, sz, 0, sy);
    SideWallCellsLength(sx, sz, 0, sy);
    TopCapCellsRanked(sx, sy, sz, 0, sz);
    TopCapCellsLength(sx, sy, 0, sz);
    BottomCapCellsRanked(sx, sy, sz, 0, sz);
    assert |side| == sy * ring;
    assert |top| == sz * sx;
    RankedAppend(sx, sy, sz, side, top, 0);
    RankedAppend(sx, sy, sz, side + top, bottom, 0);
  }

  /** No two quads of the box triangulation are the same: every face square is emitted once. */
  lemma BoxQuadsDistinct(sx: int, sy: int, sz: int)
    requires ValidSize(sx, sy, sz)
    ensures forall i, j :: 0 <= i < j < |BoxQuads(sx, sy, sz)| ==> BoxQuads(sx, sy, sz)[i] != BoxQuads(sx, sy, sz)[j]
  {
    var side, top, bottom := SideWallCells(sx, sz, 0, sy), TopCapCells(sx, sy, 0, sz), BottomCapCells(sx, 0, sz);
    var cells := side + top + bottom;
    SideWallCellsOutward(sx, sy, sz, 0, sy);
    TopCapCellsOutward(sx, sy, sz, 0, sz);
    BottomCapCellsOutward(sx, sy, sz, 0, sz);
    AllOutwardAppend(sx, sy, sz, side, top);
    AllOutwardAppend(sx, sy, sz, side + top, bottom);
    IndexedAppend(sx, sy, sz, side, top);
    IndexedAppend(sx, sy, sz, side + top, bottom);
    BoxCellsRanked(sx, sy, sz);
    var qs := BoxQuads(sx, sy, sz);
    assert qs == Indexed(sx, sy, sz, cells);
    forall i, j | 0 <= i < j < |qs| ensures qs[i] != qs[j] {
      IndexCellGood(sx, sy, sz, cells[i]);
      IndexCellGood(sx, sy, sz, cells[j]);
      assert EmissionRank(sx, sy, sz, cells[i]) != EmissionRank(sx, sy, sz, cells[j]);
    }
  }

  // ---------------------------------------------------------------------------
  // Index buffer properties

  function Triangle(s: seq<int>, t: int): (int, int, int)
    requires 0 <= t && 3 * t + 2 < |s|
  {
    (s[3 * t], s[3 * t + 1], s[3 * t + 2])
  }

  /** Every index lies in [0, n) and no triangle repeats an index. */
  predicate ValidTriangles(s: seq<int>, n: int) {
    && |s| % 3 == 0
    && (forall i :: 0 <= i < |s| ==> 0 <= s[i] < n)
    && (forall t :: 0 <= t < |s| / 3 ==>
          var (a, b, c) := Triangle(s, t); a != b && b != c && a != c)
  }

  /** The four corners of a good quad are four different vertices. */
  lemma GoodQuadDistinct(sx: int, sy: int, sz: int, q: Quad)
    requires GoodQuad(sx, sy, sz, q)
    ensures q.v00 != q.v10 && q.v00 != q.v01 && q.v00 != q.v11
    ensures q.v10 != q.v01 && q.v10 != q.v11 && q.v01 != q.v11
  {
    UnitSquareDistinct(LaidOut(sx, sy, sz, q));
  }

  /** The four corners of a unit square are four different points. */
  lemma UnitSquareDistinct(c: Cell)
    requires UnitSquare(c)
    ensures c.p00 != c.p10 && c.p00 != c.p01 && c.p00 != c.p11
    ensures c.p10 != c.p01 && c.p10 != c.p11 && c.p01 != c.p11
  {
  }

  lemma {:induction false} FlattenValid(sx: int, sy: int, sz: int, qs: seq<Quad>)
    requires AllGood(sx, sy, sz, qs)
    ensures ValidTriangles(Flatten(qs), VertexCount(sx, sy, sz))
    decreases |qs|
  {
    FlattenLength(qs);
    if qs != [] {
      var init, last := qs[..|qs| - 1], qs[|qs| - 1];
      FlattenValid(sx, sy, sz, init);
      GoodQuadDistinct(sx, sy, sz, last);
      AppendValid(Flatten(init), QuadIndices(last), VertexCount(sx, sy, sz));
    }
  }

  lemma AppendValid(a: seq<int>, b: seq<int>, n: int)
    requires ValidTriangles(a, n) && |b| == 6
    requires forall i :: 0 <= i < 6 ==> 0 <= b[i] < n
    requires b[0] != b[1] && b[1] != b[2] && b[0] != b[2]
    requires b[3] != b[4] && b[4] != b[5] && b[3] != b[5]
    ensures ValidTriangles(a + b, n)
  {
    var s := a + b;
    forall t | 0 <= t < |s| / 3
      ensures var (x, y, z) := Triangle(s, t); x != y && y != z && x != z
    {
      if t < |a| / 3 {
        assert Triangle(s, t) == Triangle(a, t);
      } else if t == |a| / 3 {
        assert Triangle(s, t) == (b[0], b[1], b[2]);
      } else {
        assert Triangle(s, t) == (b[3], b[4], b[5]);
      }
    }
  }

  /**
   * The index buffer of the box: every index addresses an emitted vertex and no
   * triangle is degenerate.
   */
  lemma BoxTrianglesValid(sx: int, sy: int, sz: int)
    requires ValidSize(sx, sy, sz)
    ensures ValidTriangles(Flatten(BoxQuads(sx, sy, sz)), VertexCount(sx, sy, sz))
  {
    BoxQuadsGood(sx, sy, sz);
    FlattenValid(sx, sy, sz, BoxQuads(sx, sy, sz));
  }

  // ---------------------------------------------------------------------------
  // Side quads in index terms

  /**
   * A side quad joins ring position k and its successor on layer y to the same
   * positions one layer up: indices y * ring + k, one further, and ring positions on.
   */
  lemma SideQuadIndices(sx: int, sy: int, sz: int, y: int, k: int)
    requires ValidSize(sx, sy, sz) && 0 <= y < sy && 0 <= k < RingSize(sx, sz)
    ensures var ring := RingSize(sx, sz);
      SideQuad(sx, sy, sz, y, k)
        == Quad(y * ring + k, y * ring + Next(sx, sz, k),
                (y + 1) * ring + k, (y + 1) * ring + Next(sx, sz, k))
  {
    RingStep(sx, sz, y, k);
    RingVertex(sx, sy, sz, y, k);
    RingVertex(sx, sy, sz, y + 1, k);
    RingVertex(sx, sy, sz, y, Next(sx, sz, k));
    RingVertex(sx, sy, sz, y + 1, Next(sx, sz, k));
  }

  /**
   * The wrap quad that closes layer y joins the layer's last vertex to its first
   * (ring - 1 positions back) and to the same two vertices one layer up.
   */
  lemma WrapQuadCloses(sx: int, sy: int, sz: int, y: int)
    requires ValidSize(sx, sy, sz) && 0 <= y < sy
    ensures var ring := RingSize(sx, sz); var v := y * ring + ring - 1;
      SideQuad(sx, sy, sz, y, ring - 1) == Quad(v, v - ring + 1, v + ring, v + 1)
  {
    SideQuadIndices(sx, sy, sz, y, RingSize(sx, sz) - 1);
  }
}
