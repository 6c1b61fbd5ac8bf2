/*
 * The integer part of the rounded box's SetVertex.  Each grid point p of the
 * layout is clamped, axis by axis, into [roundness, size - roundness]: that is
 * its inner point, the centre of the rounding.  The vertex is then pushed out
 * from the inner point by roundness along the offset p - inner, which is also
 * its normal once normalised; both of those steps are floating point.
 */
module Rounding {
  import opened BoxLayout

  /**
   * One axis of the clamp: a coordinate below the roundness is raised to it, one
   * above size - roundness is lowered to that, and any other is kept.  The two
   * tests run in that order, so when 2 * roundness > size a coordinate below
   * the roundness still ends at the roundness.
   */
  function Clamp(c: int, size: int, r: int): int {
    if c < r then r else if c > size - r then size - r else c
  }

  /** The inner point of grid point p. */
  function Inner(sx: int, sy: int, sz: int, r: int, p: Point): Point {
    (Clamp(p.0, sx, r), Clamp(p.1, sy, r), Clamp(p.2, sz, r))
  }

  /** The outward offset p - inner, the direction of the vertex's normal. */
  function Offset(sx: int, sy: int, sz: int, r: int, p: Point): Point {
    var q := Inner(sx, sy, sz, r, p);
    (p.0 - q.0, p.1 - q.1, p.2 - q.2)
  }

  /** The inner points of the whole vertex layout, index by index. */
  function InnerLayout(sx: int, sy: int, sz: int, r: int): seq<Point>
    requires ValidSize(sx, sy, sz)
  {
    seq(VertexCount(sx, sy, sz), i requires 0 <= i < VertexCount(sx, sy, sz) =>
      Inner(sx, sy, sz, r, LayoutPoint(sx, sy, sz, i)))
  }

  /** The offsets of the whole vertex layout, index by index. */
  function OffsetLayout(sx: int, sy: int, sz: int, r: int): seq<Point>
    requires ValidSize(sx, sy, sz)
  {
    seq(VertexCount(sx, sy, sz), i requires 0 <= i < VertexCount(sx, sy, sz) =>
      Offset(sx, sy, sz, r, LayoutPoint(sx, sy, sz, i)))
  }

  // ---------------------------------------------------------------------------
  // One axis

  /**
   * When the roundness fits in the box (2 * roundness <= size), the clamped
   * coordinate lies in [roundness, size - roundness], and it equals the
   * coordinate exactly when the coordinate already lies there.
   */
  lemma ClampInside(c: int, size: int, r: int)
    requires 2 * r <= size
    ensures r <= Clamp(c, size, r) <= size - r
    ensures Clamp(c, size, r) == c <==> r <= c <= size - r
  {
  }

  /**
   * The offset along one axis is negative exactly below the roundness, positive
   * exactly above size - roundness (and not below the roundness), zero otherwise.
   */
  lemma OffsetSign(c: int, size: int, r: int)
    ensures c - Clamp(c, size, r) < 0 <==> c < r
    ensures c - Clamp(c, size, r) > 0 <==> r <= c && c > size - r
  {
  }

  // ---------------------------------------------------------------------------
  // Whole points

  /** With roundness 0 a point of the box is its own inner point, and its offset is zero. */
  lemma UnroundedPoint(sx: int, sy: int, sz: int, p: Point)
    requires 0 <= p.0 <= sx && 0 <= p.1 <= sy && 0 <= p.2 <= sz
    ensures Inner(sx, sy, sz, 0, p) == p && Offset(sx, sy, sz, 0, p) == (0, 0, 0)
  {
  }

  /**
   * With a positive roundness every surface point is pushed out: it lies on a
   * face, and along that face's axis its offset is nonzero.
   */
  lemma SurfaceOffset(sx: int, sy: int, sz: int, r: int, p: Point)
    requires ValidSize(sx, sy, sz) && r > 0 && OnSurface(sx, sy, sz, p)
    ensures Offset(sx, sy, sz, r, p) != (0, 0, 0)
  {
    OffsetSign(p.0, sx, r);
    OffsetSign(p.1, sy, r);
    OffsetSign(p.2, sz, r);
  }

  // ---------------------------------------------------------------------------
  // The whole layout

  /** With roundness 0 the rounded box's vertices are the plain box's, and every offset is zero. */
  lemma UnroundedLayout(sx: int, sy: int, sz: int)
    requires ValidSize(sx, sy, sz)
    ensures InnerLayout(sx, sy, sz, 0) == Layout(sx, sy, sz)
    ensures forall i :: 0 <= i < VertexCount(sx, sy, sz) ==> OffsetLayout(sx, sy, sz, 0)[i] == (0, 0, 0)
  {
    forall i | 0 <= i < VertexCount(sx, sy, sz)
      ensures InnerLayout(sx, sy, sz, 0)[i] == Layout(sx, sy, sz)[i]
      ensures OffsetLayout(sx, sy, sz, 0)[i] == (0, 0, 0)
    {
      GridIndexOfLayoutPoint(sx, sy, sz, i);
      UnroundedPoint(sx, sy, sz, LayoutPoint(sx, sy, sz, i));
    }
  }

  /** With a positive roundness no vertex keeps a zero offset: every vertex gets a normal. */
  lemma RoundedOffsets(sx: int, sy: int, sz: int, r: int)
    requires ValidSize(sx, sy, sz) && r > 0
    ensures forall i :: 0 <= i < VertexCount(sx, sy, sz) ==> OffsetLayout(sx, sy, sz, r)[i] != (0, 0, 0)
  {
    forall i | 0 <= i < VertexCount(sx, sy, sz) ensures OffsetLayout(sx, sy, sz, r)[i] != (0, 0, 0) {
      GridIndexOfLayoutPoint(sx, sy, sz, i);
      SurfaceOffset(sx, sy, sz, r, LayoutPoint(sx, sy, sz, i));
    }
  }

  /**
   * When the roundness fits in every dimension, all inner points lie in the
   * inner box [roundness, size - roundness] on each axis.
   */
  lemma InnerLayoutInside(sx: int, sy: int, sz: int, r: int)
    requires ValidSize(sx, sy, sz) && 2 * r <= sx && 2 * r <= sy && 2 * r <= sz
    ensures forall i :: 0 <= i < VertexCount(sx, sy, sz) ==>
      var q := InnerLayout(sx, sy, sz, r)[i];
      r <= q.0 <= sx - r && r <= q.1 <= sy - r && r <= q.2 <= sz - r
  {
    forall i | 0 <= i < VertexCount(sx, sy, sz)
      ensures var q := InnerLayout(sx, sy, sz, r)[i];
        r <= q.0 <= sx - r && r <= q.1 <= sy - r && r <= q.2 <= sz - r
    {
      var p := LayoutPoint(sx, sy, sz, i);
      ClampInside(p.0, sx, r);
      ClampInside(p.1, sy, r);
      ClampInside(p.2, sz, r);
    }
  }
}
