/*
 * The plain box generator: a grid of sizeX x sizeY x sizeZ unit cells whose
 * surface points are laid out ring by ring and then cap by cap, and whose
 * surface is stitched into one triangle list, two triangles per quad.
 */
module CustomCube {
  import opened BoxLayout
  import opened QuadMesh
  import opened QuadWriter
  import opened VertexWriter

  class CustomCubeGenerator {
    var sizeX: int
    var sizeY: int
    var sizeZ: int
    var vertices: array<Point>
    /** The triangle list handed to the mesh at the end of CreateTriangles. */
    var triangles: array<int>

    constructor (sx: int, sy: int, sz: int)
      ensures sizeX == sx && sizeY == sy && sizeZ == sz
      ensures vertices.Length == 0 && triangles.Length == 0
    {
      sizeX, sizeY, sizeZ := sx, sy, sz;
      vertices := new Point[0];
      triangles := new int[0];
    }

    /** Builds the mesh: the vertex layout, then the triangles over it. */
    method Generate()
      requires ValidSize(sizeX, sizeY, sizeZ) && sizeX >= 2 && sizeZ >= 2
      modifies this
      ensures sizeX == old(sizeX) && sizeY == old(sizeY) && sizeZ == old(sizeZ)
      ensures fresh(vertices) && vertices[..] == Layout(sizeX, sizeY, sizeZ)
      ensures fresh(triangles) && triangles[..] == Flatten(BoxQuads(sizeX, sizeY, sizeZ))
    {
      CreateVertices();
      CreateTriangles();
    }

    /**
     * Allocates corner + edge + face vertices and fills them: the sizeY + 1 rings,
     * then the top-cap interior, then the bottom-cap interior.
     */
    method CreateVertices()
      requires ValidSize(sizeX, sizeY, sizeZ)
      modifies this
      ensures sizeX == old(sizeX) && sizeY == old(sizeY) && sizeZ == old(sizeZ)
      ensures triangles == old(triangles)
      ensures fresh(vertices) && vertices[..] == Layout(sizeX, sizeY, sizeZ)
    {
      var sx, sy, sz := sizeX, sizeY, sizeZ;
      var cornerVertices := 8;
      var edgeVertices := (sx + sy + sz - 3) * 4;
      var faceVertices := ((sx - 1) * (sy - 1) + (sx - 1) * (sz - 1) + (sy - 1) * (sz - 1)) * 2;
      RingVertex(sx, sy, sz, 0, 0);
      var a := new Point[cornerVertices + edgeVertices + faceVertices];
      vertices := a;

      var v := 0;
      var y := 0;
      while y <= sy
        modifies a
        invariant 0 <= y <= sy + 1 && v == y * RingSize(sx, sz)
        invariant LaidOutUpTo(a, sx, sy, sz, v)
      {
        v := WriteRing(a, sx, sy, sz, y, v);
        MulStep(y, RingSize(sx, sz));
        y := y + 1;
      }
      v := WriteInterior(a, sx, sy, sz, sy, v);
      v := WriteInterior(a, sx, sy, sz, 0, v);
      VertexCountByLayers(sx, sy, sz);
      LaidOutAll(a, sx, sy, sz);
    }

    /**
     * Allocates 6 indices per quad of the surface and writes the side walls layer
     * by layer, then the top and bottom caps.
     */
    method CreateTriangles()
      requires ValidSize(sizeX, sizeY, sizeZ) && sizeX >= 2 && sizeZ >= 2
      requires vertices.Length == VertexCount(sizeX, sizeY, sizeZ)
      modifies this
      ensures sizeX == old(sizeX) && sizeY == old(sizeY) && sizeZ == old(sizeZ)
      ensures vertices == old(vertices)
      ensures fresh(triangles) && triangles[..] == Flatten(BoxQuads(sizeX, sizeY, sizeZ))
    {
      var sx, sy, sz := sizeX, sizeY, sizeZ;
      var quads := (sx * sy + sx * sz + sy * sz) * 2;
      BoxQuadsCount(sx, sy, sz);
      QuadCountSplit(sx, sy, sz);
      var a := new int[quads * 6];
      var ring := (sx + sz) * 2;
      var t := CreateSideWalls(a, ring, sx, sy, sz);
      t := CreateTopFace(a, t, ring, sx, sy, sz);
      t := CreateBottomFace(a, t, ring, vertices.Length, sx, sy, sz);
      FlattenAppend(SideWall(sx, sy, sz), TopCap(sx, sy, sz));
      FlattenAppend(SideWall(sx, sy, sz) + TopCap(sx, sy, sz), BottomCap(sx, sy, sz));
      assert a[..] == a[..t];
      triangles := a;
    }

    /**
     * The side-wall loop of CreateTriangles: for each of the sizeY layers the
     * quads between consecutive ring positions, then the wrap quad that joins
     * the layer's last ring position to its first.
     */
    static method CreateSideWalls(a: array<int>, ring: int, sx: int, sy: int, sz: int) returns (t: int)
      requires ValidSize(sx, sy, sz) && ring == RingSize(sx, sz) && 6 * (sy * ring) <= a.Length
      modifies a
      ensures t == 6 * (sy * ring) && a[..t] == Flatten(SideWall(sx, sy, sz))
      ensures forall j :: t <= j < a.Length ==> a[j] == old(a[j])
    {
      t := 0;
      var v := 0;
      ghost var whole := SideWallCells(sx, sz, 0, sy);
      ghost var done: seq<Cell> := [];
      var y := 0;
      while y < sy
        invariant 0 <= y <= sy && v == y * ring && t == 6 * v && v <= sy * ring
        invariant whole == done + SideWallCells(sx, sz, y, sy)
        invariant a[..t] == Flatten(Indexed(sx, sy, sz, done))
        invariant forall j :: t <= j < a.Length ==> a[j] == old(a[j])
      {
        MulStep(y, ring);
        MulMonotone(y + 1, sy, ring);
        ghost var layer := SideSpanCells(sx, sz, y, 0, ring);
        ghost var before := a[..t];
        t, v := SideLayer(a, t, ring, v, sx, sy, sz, y);
        EmitRun(sx, sy, sz, [], done, layer, before, a[..t]);
        ConsumeRun(whole, done, layer, SideWallCells(sx, sz, y + 1, sy));
        done := done + layer;
        y := y + 1;
      }
      assert done == whole;
    }

    /** One pass of the layer loop: ring - 1 quads to the next ring, then the wrap quad. */
    static method SideLayer(a: array<int>, t0: int, ring: int, v0: int, sx: int, sy: int, sz: int, y: int)
      returns (t: int, v: int)
      requires ValidSize(sx, sy, sz) && ring == RingSize(sx, sz) && 0 <= y < sy && v0 == y * ring
      requires 0 <= t0 && t0 + 6 * ring <= a.Length
      modifies a
      ensures t == t0 + 6 * ring && v == v0 + ring
      ensures a[..t] == old(a[..t0]) + Flatten(Indexed(sx, sy, sz, SideSpanCells(sx, sz, y, 0, ring)))
      ensures forall j :: t <= j < a.Length ==> a[j] == old(a[j])
    {
      ghost var prefix := a[..t0];
      ghost var span := SideSpanCells(sx, sz, y, 0, ring - 1);
      t, v := SideSpan(a, t0, ring, v0, ring - 1, sx, sy, sz, y, 0, ring - 1);
      ghost var c := SideCell(sx, sz, y, ring - 1);
      SideWrapStep(sx, sy, sz, y, v);
      t := WriteCell(a, t, Quad(v, v - ring + 1, v + ring, v + 1), sx, sy, sz, prefix, span, c);
      v := v + 1;
      SideSpanCellsSplit(sx, sz, y, 0, ring - 1, ring);
      SideSpanCellsFirst(sx, sz, y, ring - 1, ring);
      assert SideSpanCells(sx, sz, y, 0, ring) == span + [c];
    }
  }
}
