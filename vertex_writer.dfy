/*
 * The vertex-layout loops of the plain box and of the timed-reveal sphere,
 * which fill a vertex buffer through a running counter v: one ring per layer,
 * then the top-cap interior, then the bottom-cap interior.  Each loop writes the
 * layout point for the index it is at, so after every write the filled prefix
 * of the buffer is the layout (BoxLayout.LayoutPoint) up to v.
 */
module VertexWriter {
  import opened BoxLayout

  /** The first v entries of the buffer hold the layout. */
  ghost predicate LaidOutUpTo(vertices: array<Point>, sx: int, sy: int, sz: int, v: int)
    requires ValidSize(sx, sy, sz)
    reads vertices
  {
    0 <= v <= vertices.Length <= VertexCount(sx, sy, sz)
    && forall i :: 0 <= i < v ==> vertices[i] == LayoutPoint(sx, sy, sz, i)
  }

  /** A buffer laid out up to its end holds the whole layout. */
  lemma LaidOutAll(vertices: array<Point>, sx: int, sy: int, sz: int)
    requires ValidSize(sx, sy, sz) && vertices.Length == VertexCount(sx, sy, sz)
    requires LaidOutUpTo(vertices, sx, sy, sz, vertices.Length)
    ensures vertices[..] == Layout(sx, sy, sz)
  {
  }

  /** vertices[v] := p, where p is the layout point for index v. */
  method Put(vertices: array<Point>, sx: int, sy: int, sz: int, v: int, p: Point)
    requires ValidSize(sx, sy, sz) && LaidOutUpTo(vertices, sx, sy, sz, v)
    requires v < vertices.Length && LayoutPoint(sx, sy, sz, v) == p
    modifies vertices
    ensures LaidOutUpTo(vertices, sx, sy, sz, v + 1)
    ensures forall j :: v + 1 <= j < vertices.Length ==> vertices[j] == old(vertices[j])
  {
    vertices[v] := p;
  }

  /**
   * The body of the layer loop: the ring at height y, front edge left to right,
   * right edge front to back, back edge right to left, left edge back to front.
   */
  method WriteRing(vertices: array<Point>, sx: int, sy: int, sz: int, y: int, v0: int)
    returns (v: int)
    requires ValidSize(sx, sy, sz) && 0 <= y <= sy && vertices.Length == VertexCount(sx, sy, sz)
    requires v0 == y * RingSize(sx, sz) && LaidOutUpTo(vertices, sx, sy, sz, v0)
    modifies vertices
    ensures v == v0 + RingSize(sx, sz) && LaidOutUpTo(vertices, sx, sy, sz, v)
    ensures forall j :: v <= j < vertices.Length ==> vertices[j] == old(vertices[j])
  {
    RingVertex(sx, sy, sz, y, RingSize(sx, sz) - 1);
    v := v0;
    var x := 0;
    while x <= sx
      invariant 0 <= x <= sx + 1 && v == v0 + x && LaidOutUpTo(vertices, sx, sy, sz, v)
      invariant forall j :: v <= j < vertices.Length ==> vertices[j] == old(vertices[j])
    {
      RingWrite(sx, sy, sz, y, x, 0, v);
      Put(vertices, sx, sy, sz, v, (x, y, 0));
      v, x := v + 1, x + 1;
    }
    var z := 1;
    while z <= sz
      invariant 1 <= z <= sz + 1 && v == v0 + sx + z && LaidOutUpTo(vertices, sx, sy, sz, v)
      invariant forall j :: v <= j < vertices.Length ==> vertices[j] == old(vertices[j])
    {
      RingWrite(sx, sy, sz, y, sx, z, v);
      Put(vertices, sx, sy, sz, v, (sx, y, z));
      v, z := v + 1, z + 1;
    }
    x := sx - 1;
    while x >= 0
      invariant -1 <= x <= sx - 1 && v == v0 + 2 * sx + sz - x && LaidOutUpTo(vertices, sx, sy, sz, v)
      invariant forall j :: v <= j < vertices.Length ==> vertices[j] == old(vertices[j])
    {
      RingWrite(sx, sy, sz, y, x, sz, v);
      Put(vertices, sx, sy, sz, v, (x, y, sz));
      v, x := v + 1, x - 1;
    }
    z := sz - 1;
    while z > 0
      invariant 0 <= z <= sz - 1 && v == v0 + 2 * sx + 2 * sz - z && LaidOutUpTo(vertices, sx, sy, sz, v)
      invariant forall j :: v <= j < vertices.Length ==> vertices[j] == old(vertices[j])
    {
      RingWrite(sx, sy, sz, y, 0, z, v);
      Put(vertices, sx, sy, sz, v, (0, y, z));
      v, z := v + 1, z - 1;
    }
  }

  /** The interior points of the cap at height h, row by row (z outer, x inner). */
  method WriteInterior(vertices: array<Point>, sx: int, sy: int, sz: int, h: int, v0: int)
    returns (v: int)
    requires ValidSize(sx, sy, sz) && (h == sy || h == 0) && vertices.Length == VertexCount(sx, sy, sz)
    requires v0 == CapStart(sx, sy, sz, h) && LaidOutUpTo(vertices, sx, sy, sz, v0)
    modifies vertices
    ensures v == v0 + InteriorCount(sx, sz) && LaidOutUpTo(vertices, sx, sy, sz, v)
    ensures forall j :: v <= j < vertices.Length ==> vertices[j] == old(vertices[j])
  {
    InteriorRows(sx, sz);
    v := v0;
    var z := 1;
    while z < sz
      invariant 1 <= z <= sz && v == v0 + RowOffset(sx - 1, z - 1)
      invariant LaidOutUpTo(vertices, sx, sy, sz, v)
      invariant forall j :: v <= j < vertices.Length ==> vertices[j] == old(vertices[j])
    {
      v := WriteInteriorRow(vertices, sx, sy, sz, h, z, v);
      z := z + 1;
    }
  }

  /** Row z of a cap interior: the points (x, h, z) for x = 1 .. sizeX - 1. */
  method WriteInteriorRow(vertices: array<Point>, sx: int, sy: int, sz: int, h: int, z: int, v0: int)
    returns (v: int)
    requires ValidSize(sx, sy, sz) && (h == sy || h == 0) && vertices.Length == VertexCount(sx, sy, sz)
    requires 1 <= z < sz && v0 == CapStart(sx, sy, sz, h) + RowOffset(sx - 1, z - 1)
    requires LaidOutUpTo(vertices, sx, sy, sz, v0)
    modifies vertices
    ensures v == CapStart(sx, sy, sz, h) + RowOffset(sx - 1, z) && LaidOutUpTo(vertices, sx, sy, sz, v)
    ensures forall j :: v <= j < vertices.Length ==> vertices[j] == old(vertices[j])
  {
    v := v0;
    var x := 1;
    while x < sx
      invariant 1 <= x <= sx && v == v0 + (x - 1)
      invariant LaidOutUpTo(vertices, sx, sy, sz, v)
      invariant forall j :: v <= j < vertices.Length ==> vertices[j] == old(vertices[j])
    {
      InteriorWrite(sx, sy, sz, h, x, z, v);
      Put(vertices, sx, sy, sz, v, (x, h, z));
      v, x := v + 1, x + 1;
    }
  }
}
