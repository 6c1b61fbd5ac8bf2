/*
 * The vertex layout shared by the three box generators.
 *
 * A box of sizeX x sizeY x sizeZ cells has its surface grid points emitted in a
 * fixed order: one perimeter ring per layer y = 0..sizeY (front, right, back,
 * left), then the interior points of the top face, then those of the bottom
 * face, both row by row.  LayoutPoint gives the point at each index, GridIndex
 * is the inverse map from a surface grid point back to its index.
 */
module BoxLayout {

  /** A grid point (x, y, z); every vertex the generators emit has integer coordinates. */
  type Point = (int, int, int)

  /** The dimensions the generators accept: every subdivision count at least 1. */
  predicate ValidSize(sx: int, sy: int, sz: int) {
    sx >= 1 && sy >= 1 && sz >= 1
  }

  /** The vertex count as the generators compute it: corners + edges + faces. */
  function VertexCount(sx: int, sy: int, sz: int): int {
    8 + (sx + sy + sz - 3) * 4
      + ((sx - 1) * (sy - 1) + (sx - 1) * (sz - 1) + (sy - 1) * (sz - 1)) * 2
  }

  /** Number of grid points on one horizontal perimeter loop. */
  function RingSize(sx: int, sz: int): int {
    (sx + sz) * 2
  }

  /** Number of points strictly inside the top (or the bottom) face. */
  function InteriorCount(sx: int, sz: int): int {
    (sx - 1) * (sz - 1)
  }

  /** Index of the first top-interior point: all sizeY + 1 rings come before it. */
  function RingsEnd(sx: int, sy: int, sz: int): int {
    (sy + 1) * RingSize(sx, sz)
  }

  /** The ring position after k, closing the loop after the last one. */
  function Next(sx: int, sz: int, k: int): int {
    if k + 1 == RingSize(sx, sz) then 0 else k + 1
  }

  /**
   * The k-th point of the ring at height y: the front edge (z = 0) left to right,
   * the right edge (x = sx) front to back, the back edge (z = sz) right to left,
   * then the left edge (x = 0) back to front, never repeating a corner.
   */
  function RingPoint(sx: int, sz: int, y: int, k: int): Point
    requires sx >= 1 && sz >= 1 && 0 <= k < RingSize(sx, sz)
  {
    if k <= sx then (k, y, 0)
    else if k <= sx + sz then (sx, y, k - sx)
    else if k <= 2 * sx + sz then (2 * sx + sz - k, y, sz)
    else (0, y, 2 * sx + 2 * sz - k)
  }

  /** The j-th interior point of a cap at height y, in row-major z-then-x order. */
  function InteriorPoint(sx: int, y: int, j: int): Point
    requires sx >= 2 && j >= 0
  {
    (1 + j % (sx - 1), y, 1 + j / (sx - 1))
  }

  /** The point the generators write at vertex index i. */
  function LayoutPoint(sx: int, sy: int, sz: int, i: int): Point
    requires ValidSize(sx, sy, sz) && 0 <= i < VertexCount(sx, sy, sz)
  {
    VertexCountByLayers(sx, sy, sz);
    var ring := RingSize(sx, sz);
    var rings := RingsEnd(sx, sy, sz);
    if i < rings then
      RingPoint(sx, sz, i / ring, i % ring)
    else if i < rings + InteriorCount(sx, sz) then
      InteriorPoint(sx, sy, i - rings)
    else
      InteriorPoint(sx, 0, i - rings - InteriorCount(sx, sz))
  }

  /** The whole vertex buffer as the generators fill it. */
  function Layout(sx: int, sy: int, sz: int): seq<Point>
    requires ValidSize(sx, sy, sz)
  {
    RingVertex(sx, sy, sz, 0, 0);
    seq(VertexCount(sx, sy, sz), i requires 0 <= i < VertexCount(sx, sy, sz) => LayoutPoint(sx, sy, sz, i))
  }

  /** p is a grid point on the surface of the box [0, sx] x [0, sy] x [0, sz]. */
  predicate OnSurface(sx: int, sy: int, sz: int, p: Point) {
    && 0 <= p.0 <= sx && 0 <= p.1 <= sy && 0 <= p.2 <= sz
    && (p.0 == 0 || p.0 == sx || p.1 == 0 || p.1 == sy || p.2 == 0 || p.2 == sz)
  }

  /** (x, z) lies on the perimeter of the rectangle [0, sx] x [0, sz]. */
  predicate OnRing(sx: int, sz: int, x: int, z: int) {
    x == 0 || x == sx || z == 0 || z == sz
  }

  /** The inverse of RingPoint on the perimeter: the ring position of (x, z). */
  function RingPosition(sx: int, sz: int, x: int, z: int): int {
    if z == 0 then x
    else if x == sx then sx + z
    else if z == sz then 2 * sx + sz - x
    else 2 * sx + 2 * sz - z
  }

  /**
   * The index map: where the layout puts the surface point p.  Only meaningful
   * for points on the surface (see LayoutPointOfGridIndex).
   */
  function GridIndex(sx: int, sy: int, sz: int, p: Point): int {
    var (x, y, z) := p;
    if OnRing(sx, sz, x, z) then
      y * RingSize(sx, sz) + RingPosition(sx, sz, x, z)
    else if y == sy then
      RingsEnd(sx, sy, sz) + (z - 1) * (sx - 1) + (x - 1)
    else
      RingsEnd(sx, sy, sz) + InteriorCount(sx, sz) + (z - 1) * (sx - 1) + (x - 1)
  }

  // ---------------------------------------------------------------------------
  // Arithmetic helpers

  lemma DivModOf(a: int, b: int, q: int, r: int)
    requires b > 0 && 0 <= r < b && a == q * b + r
    ensures a / b == q && a % b == r
  {
    var q', r' := a / b, a % b;
    assert a == q' * b + r';
    if q' < q {
      assert (q - q') * b >= b by { MulAtLeast(q - q', b); }
      assert false;
    } else if q < q' {
      assert (q' - q) * b >= b by { MulAtLeast(q' - q, b); }
      assert false;
    }
  }

  lemma MulAtLeast(n: int, b: int)
    requires n >= 1 && b > 0
    ensures n * b >= b
  {
  }

  /**
   * The offset of row n in a row-major block whose rows hold w points each,
   * counted row by row as the cap routines advance their cursors.
   */
  function RowOffset(w: int, n: nat): int {
    if n == 0 then 0 else RowOffset(w, n - 1) + w
  }

  lemma {:induction false} RowOffsetProduct(w: int, n: nat)
    ensures RowOffset(w, n) == n * w
  {
    if n > 0 {
      RowOffsetProduct(w, n - 1);
      MulStep(n - 1, w);
    }
  }

  /** A cap interior is sizeZ - 1 rows of sizeX - 1 points. */
  lemma InteriorRows(sx: int, sz: int)
    requires sz >= 1
    ensures RowOffset(sx - 1, sz - 1) == InteriorCount(sx, sz)
  {
    RowOffsetProduct(sx - 1, sz - 1);
  }

  lemma {:induction false} RowOffsetBound(w: int, n: nat, m: nat)
    requires w >= 0 && n <= m
    ensures RowOffset(w, n) <= RowOffset(w, m)
    decreases m - n
  {
    if n < m {
      RowOffsetBound(w, n, m - 1);
    }
  }

  lemma MulStep(a: int, b: int)
    ensures a * b + b == (a + 1) * b
  {
  }

  lemma MulMonotone(a: int, c: int, b: int)
    requires 0 <= a <= c && b >= 0
    ensures a * b <= c * b
  {
  }

  // ---------------------------------------------------------------------------
  // Counting

  /**
   * The corner + edge + face count equals sizeY + 1 full rings plus the two cap
   * interiors, so the running counter of the emission loops ends exactly at the
   * allocated length.
   */
  lemma VertexCountByLayers(sx: int, sy: int, sz: int)
    requires ValidSize(sx, sy, sz)
    ensures VertexCount(sx, sy, sz) == RingsEnd(sx, sy, sz) + 2 * InteriorCount(sx, sz)
    ensures InteriorCount(sx, sz) >= 0
    ensures InteriorCount(sx, sz) > 0 <==> sx >= 2 && sz >= 2
  {
    assert (sx - 1) * (sz - 1) >= 0 by { MulMonotone(0, sx - 1, sz - 1); }
    if sx >= 2 && sz >= 2 {
      MulAtLeast(sx - 1, sz - 1);
    }
  }

  // ---------------------------------------------------------------------------
  // Rings

  /** The direction in which the ring walks from position k: +x, +z, -x, then -z. */
  function RingDirection(sx: int, sz: int, k: int): Point {
    if k < sx then (1, 0, 0)
    else if k < sx + sz then (0, 0, 1)
    else if k < 2 * sx + sz then (-1, 0, 0)
    else (0, 0, -1)
  }

  function Add(p: Point, d: Point): Point {
    (p.0 + d.0, p.1 + d.1, p.2 + d.2)
  }

  /**
   * Consecutive ring points, including the last and the first, are unit grid
   * neighbours at the same height: the front edge steps +x, the right edge +z,
   * the back edge -x and the left edge -z.
   */
  lemma RingStep(sx: int, sz: int, y: int, k: int)
    requires sx >= 1 && sz >= 1 && 0 <= k < RingSize(sx, sz)
    ensures 0 <= Next(sx, sz, k) < RingSize(sx, sz)
    ensures RingPoint(sx, sz, y, Next(sx, sz, k))
         == Add(RingPoint(sx, sz, y, k), RingDirection(sx, sz, k))
  {
  }

  /** Every ring point lies on the perimeter and RingPosition recovers its position. */
  lemma RingPositionOfRingPoint(sx: int, sz: int, y: int, k: int)
    requires sx >= 1 && sz >= 1 && 0 <= k < RingSize(sx, sz)
    ensures var p := RingPoint(sx, sz, y, k);
      && p.1 == y && 0 <= p.0 <= sx && 0 <= p.2 <= sz
      && OnRing(sx, sz, p.0, p.2) && RingPosition(sx, sz, p.0, p.2) == k
  {
  }

  /** RingPoint and RingPosition are inverse on the perimeter. */
  lemma RingPointOfRingPosition(sx: int, sz: int, y: int, x: int, z: int)
    requires sx >= 1 && sz >= 1 && 0 <= x <= sx && 0 <= z <= sz && OnRing(sx, sz, x, z)
    ensures 0 <= RingPosition(sx, sz, x, z) < RingSize(sx, sz)
    ensures RingPoint(sx, sz, y, RingPosition(sx, sz, x, z)) == (x, y, z)
  {
  }

  /** Layer y of the layout is the ring at height y, at indices y * ring .. y * ring + ring - 1. */
  lemma RingVertex(sx: int, sy: int, sz: int, y: int, k: int)
    requires ValidSize(sx, sy, sz) && 0 <= y <= sy && 0 <= k < RingSize(sx, sz)
    ensures 0 <= y * RingSize(sx, sz) + k < RingsEnd(sx, sy, sz) <= VertexCount(sx, sy, sz)
    ensures LayoutPoint(sx, sy, sz, y * RingSize(sx, sz) + k) == RingPoint(sx, sz, y, k)
    ensures LayoutPoint(sx, sy, sz, y * RingSize(sx, sz) + k).1 == y
    ensures GridIndex(sx, sy, sz, RingPoint(sx, sz, y, k)) == y * RingSize(sx, sz) + k
  {
    var ring := RingSize(sx, sz);
    var i := y * ring + k;
    VertexCountByLayers(sx, sy, sz);
    RingIndexBound(sy, ring, y, k);
    DivModOf(i, ring, y, k);
    assert LayoutPoint(sx, sy, sz, i) == RingPoint(sx, sz, i / ring, i % ring);
    RingPositionOfRingPoint(sx, sz, y, k);
  }

  lemma RingIndexBound(sy: int, ring: int, y: int, k: int)
    requires 0 <= y <= sy && 0 <= k < ring
    ensures 0 <= y * ring + k < (sy + 1) * ring
  {
    MulMonotone(0, y, ring);
    MulMonotone(y + 1, sy + 1, ring);
    assert (y + 1) * ring == y * ring + ring;
  }

  // ---------------------------------------------------------------------------
  // Cap interiors

  /**
   * The interior point (x, h, z) of a cap sits at offset (z - 1) * (sx - 1) + (x - 1)
   * of that cap's block: row-major, z outer and x inner.
   */
  lemma InteriorPointAt(sx: int, sz: int, h: int, x: int, z: int)
    requires 1 <= x < sx && 1 <= z < sz
    ensures 0 <= (z - 1) * (sx - 1) + (x - 1) < InteriorCount(sx, sz)
    ensures InteriorPoint(sx, h, (z - 1) * (sx - 1) + (x - 1)) == (x, h, z)
  {
    MulMonotone(0, z - 1, sx - 1);
    MulMonotone(z, sz - 1, sx - 1);
    DivModOf((z - 1) * (sx - 1) + (x - 1), sx - 1, z - 1, x - 1);
  }

  /** Every interior point is strictly inside the face and recovers its offset. */
  lemma InteriorPointInside(sx: int, sz: int, h: int, j: int)
    requires sx >= 2 && 0 <= j < InteriorCount(sx, sz)
    ensures var p := InteriorPoint(sx, h, j);
      && p.1 == h && 1 <= p.0 < sx && 1 <= p.2 < sz && !OnRing(sx, sz, p.0, p.2)
      && (p.2 - 1) * (sx - 1) + (p.0 - 1) == j
  {
    var q, r := j / (sx - 1), j % (sx - 1);
    assert j == q * (sx - 1) + r;
    if q >= sz - 1 {
      MulMonotone(sz - 1, q, sx - 1);
      assert false;
    }
  }

  // ---------------------------------------------------------------------------
  // The layout is a bijection between [0, VertexCount) and the surface points

  /**
   * Every surface grid point is emitted, at index GridIndex(p): the layout covers
   * the whole surface of the box.
   */
  lemma LayoutPointOfGridIndex(sx: int, sy: int, sz: int, p: Point)
    requires ValidSize(sx, sy, sz) && OnSurface(sx, sy, sz, p)
    ensures 0 <= GridIndex(sx, sy, sz, p) < VertexCount(sx, sy, sz)
    ensures LayoutPoint(sx, sy, sz, GridIndex(sx, sy, sz, p)) == p
  {
    var (x, y, z) := p;
    if OnRing(sx, sz, x, z) {
      RingPointOfRingPosition(sx, sz, y, x, z);
      RingVertex(sx, sy, sz, y, RingPosition(sx, sz, x, z));
    } else {
      InteriorLayout(sx, sy, sz, y, x, z);
    }
  }

  /** The interior point (x, h, z) of a cap is emitted at its row-major offset in that cap's block. */
  lemma InteriorLayout(sx: int, sy: int, sz: int, h: int, x: int, z: int)
    requires ValidSize(sx, sy, sz) && (h == sy || h == 0) && 1 <= x < sx && 1 <= z < sz
    ensures var i := CapStart(sx, sy, sz, h) + (z - 1) * (sx - 1) + (x - 1);
      0 <= i < VertexCount(sx, sy, sz) && LayoutPoint(sx, sy, sz, i) == (x, h, z)
  {
    var j := (z - 1) * (sx - 1) + (x - 1);
    InteriorPointAt(sx, sz, h, x, z);
    VertexCountByLayers(sx, sy, sz);
    RingVertex(sx, sy, sz, 0, 0);
    var rings := RingsEnd(sx, sy, sz);
    if h == sy {
      assert LayoutPoint(sx, sy, sz, rings + j) == InteriorPoint(sx, sy, j);
    } else {
      assert LayoutPoint(sx, sy, sz, rings + InteriorCount(sx, sz) + j) == InteriorPoint(sx, 0, j);
    }
  }

  /**
   * Every emitted point lies on the surface of the box, and GridIndex maps it back
   * to its index: no grid point is emitted twice.
   */
  lemma GridIndexOfLayoutPoint(sx: int, sy: int, sz: int, i: int)
    requires ValidSize(sx, sy, sz) && 0 <= i < VertexCount(sx, sy, sz)
    ensures OnSurface(sx, sy, sz, LayoutPoint(sx, sy, sz, i))
    ensures GridIndex(sx, sy, sz, LayoutPoint(sx, sy, sz, i)) == i
  {
    VertexCountByLayers(sx, sy, sz);
    var rings := RingsEnd(sx, sy, sz);
    if i < rings {
      RingIndexRoundTrip(sx, sy, sz, i);
    } else if i < rings + InteriorCount(sx, sz) {
      InteriorPointInside(sx, sz, sy, i - rings);
    } else {
      InteriorPointInside(sx, sz, 0, i - rings - InteriorCount(sx, sz));
    }
  }

  lemma RingIndexRoundTrip(sx: int, sy: int, sz: int, i: int)
    requires ValidSize(sx, sy, sz) && 0 <= i < RingsEnd(sx, sy, sz)
    ensures var p := RingPoint(sx, sz, i / RingSize(sx, sz), i % RingSize(sx, sz));
      OnSurface(sx, sy, sz, p) && GridIndex(sx, sy, sz, p) == i
  {
    var ring := RingSize(sx, sz);
    var y, k := i / ring, i % ring;
    assert i == y * ring + k;
    if y > sy {
      MulMonotone(sy + 1, y, ring);
      assert false;
    }
    MulMonotone(0, y, ring);
    RingPositionOfRingPoint(sx, sz, y, k);
  }

  /** Distinct indices hold distinct points. */
  lemma LayoutInjective(sx: int, sy: int, sz: int, i: int, j: int)
    requires ValidSize(sx, sy, sz)
    requires 0 <= i < VertexCount(sx, sy, sz) && 0 <= j < VertexCount(sx, sy, sz)
    requires LayoutPoint(sx, sy, sz, i) == LayoutPoint(sx, sy, sz, j)
    ensures i == j
  {
    GridIndexOfLayoutPoint(sx, sy, sz, i);
    GridIndexOfLayoutPoint(sx, sy, sz, j);
  }

  /**
   * After the rings, the top interior (y = sizeY) precedes the bottom interior
   * (y = 0), each row-major: z first, then x.
   */
  lemma CapInteriorOrder(sx: int, sy: int, sz: int, p: Point, q: Point)
    requires ValidSize(sx, sy, sz) && OnSurface(sx, sy, sz, p) && OnSurface(sx, sy, sz, q)
    requires !OnRing(sx, sz, p.0, p.2) && !OnRing(sx, sz, q.0, q.2)
    ensures GridIndex(sx, sy, sz, p) >= RingsEnd(sx, sy, sz)
    ensures p.1 == sy && q.1 == 0 ==> GridIndex(sx, sy, sz, p) < GridIndex(sx, sy, sz, q)
    ensures p.1 == q.1 ==>
      ((GridIndex(sx, sy, sz, p) < GridIndex(sx, sy, sz, q)) <==> (p.2 < q.2 || (p.2 == q.2 && p.0 < q.0)))
  {
    InteriorPointAt(sx, sz, p.1, p.0, p.2);
    InteriorPointAt(sx, sz, q.1, q.0, q.2);
    RowMajorOrder(sx - 1, p.0 - 1, p.2 - 1, q.0 - 1, q.2 - 1);
  }

  /** Row-major offsets compare like (row, column) pairs. */
  lemma RowMajorOrder(w: int, px: int, pz: int, qx: int, qz: int)
    requires 0 <= px < w && 0 <= qx < w && 0 <= pz && 0 <= qz
    ensures pz * w + px < qz * w + qx <==> (pz < qz || (pz == qz && px < qx))
  {
    if pz < qz {
      MulMonotone(pz + 1, qz, w);
      assert (pz + 1) * w == pz * w + w;
    } else if qz < pz {
      MulMonotone(qz + 1, pz, w);
      assert (qz + 1) * w == qz * w + w;
    }
  }

  // ---------------------------------------------------------------------------
  // The index each write of the layout loops lands on

  /** Index of the first interior point of the cap at height h (sizeY or 0). */
  function CapStart(sx: int, sy: int, sz: int, h: int): int {
    if h == sy then RingsEnd(sx, sy, sz) else RingsEnd(sx, sy, sz) + InteriorCount(sx, sz)
  }

  /** The ring loops write the perimeter point (x, y, z) at index y * ring + its ring position. */
  lemma RingWrite(sx: int, sy: int, sz: int, y: int, x: int, z: int, v: int)
    requires ValidSize(sx, sy, sz) && 0 <= y <= sy && 0 <= x <= sx && 0 <= z <= sz && OnRing(sx, sz, x, z)
    requires v == y * RingSize(sx, sz) + RingPosition(sx, sz, x, z)
    ensures 0 <= v < VertexCount(sx, sy, sz) && LayoutPoint(sx, sy, sz, v) == (x, y, z)
  {
    LayoutPointOfGridIndex(sx, sy, sz, (x, y, z));
  }

  /**
   * The cap loops write the interior point (x, h, z) at the start of that cap's
   * block plus its row-major offset, rows of sizeX - 1 points.
   */
  lemma InteriorWrite(sx: int, sy: int, sz: int, h: int, x: int, z: int, v: int)
    requires ValidSize(sx, sy, sz) && (h == sy || h == 0) && 1 <= x < sx && 1 <= z < sz
    requires v == CapStart(sx, sy, sz, h) + RowOffset(sx - 1, z - 1) + (x - 1)
    ensures 0 <= v < VertexCount(sx, sy, sz) && LayoutPoint(sx, sy, sz, v) == (x, h, z)
  {
    RowOffsetProduct(sx - 1, z - 1);
    LayoutPointOfGridIndex(sx, sy, sz, (x, h, z));
  }
}
