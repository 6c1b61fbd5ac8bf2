/*
 * The rounded box generator.  Its vertex loops and cap routines are those of the
 * plain box, but each vertex is placed by SetVertex, which clamps the grid point
 * into the inner box and records the outward offset as the vertex's normal, and
 * the quads go to three index buffers by the axis they face.
 */
module RoundedCube {
  import opened BoxLayout
  import opened QuadMesh
  import opened QuadWriter
  import opened Rounding
  import opened FacingGroups

  class RoundedCubeGenerator {
    var sizeX: int
    var sizeY: int
    var sizeZ: int
    var roundness: int
    /** The inner point of each vertex; the mesh vertex is inner + roundness * normal. */
    var vertices: array<Point>
    /** The offset of each vertex from its inner point, before normalisation. */
    var normals: array<Point>
    /** The x-facing quads (sub-mesh 0). */
    var trianglesX: array<int>
    /** The y-facing quads (sub-mesh 1). */
    var trianglesY: array<int>
    /** The z-facing quads (sub-mesh 2). */
    var trianglesZ: array<int>

    constructor (sx: int, sy: int, sz: int, r: int)
      ensures sizeX == sx && sizeY == sy && sizeZ == sz && roundness == r
      ensures vertices.Length == 0 && normals.Length == 0
      ensures trianglesX.Length == 0 && trianglesY.Length == 0 && trianglesZ.Length == 0
    {
      sizeX, sizeY, sizeZ, roundness := sx, sy, sz, r;
      vertices := new Point[0];
      normals := new Point[0];
      trianglesX := new int[0];
      trianglesY := new int[0];
      trianglesZ := new int[0];
    }

    /** The first v vertices and normals hold the inner points and offsets of the layout. */
    ghost predicate PlacedUpTo(v: int)
      reads this, vertices, normals
    {
      && ValidSize(sizeX, sizeY, sizeZ) && vertices != normals
      && vertices.Length == normals.Length == VertexCount(sizeX, sizeY, sizeZ)
      && 0 <= v <= vertices.Length
      && forall i :: 0 <= i < v ==>
           var p := LayoutPoint(sizeX, sizeY, sizeZ, i);
           vertices[i] == Inner(sizeX, sizeY, sizeZ, roundness, p)
           && normals[i] == Offset(sizeX, sizeY, sizeZ, roundness, p)
    }

    /** Both arrays placed to their end hold the inner points and offsets of the whole layout. */
    lemma PlacedAll()
      requires PlacedUpTo(vertices.Length)
      ensures vertices[..] == InnerLayout(sizeX, sizeY, sizeZ, roundness)
      ensures normals[..] == OffsetLayout(sizeX, sizeY, sizeZ, roundness)
    {
    }

    /** Builds the mesh: the vertices and normals, then the three triangle groups. */
    method Generate()
      requires ValidSize(sizeX, sizeY, sizeZ) && sizeX >= 2 && sizeZ >= 2
      modifies this
      ensures sizeX == old(sizeX) && sizeY == old(sizeY) && sizeZ == old(sizeZ) && roundness == old(roundness)
      ensures fresh(vertices) && vertices[..] == InnerLayout(sizeX, sizeY, sizeZ, roundness)
      ensures fresh(normals) && normals[..] == OffsetLayout(sizeX, sizeY, sizeZ, roundness)
      ensures fresh(trianglesX) && trianglesX[..] == Flatten(XGroup(sizeX, sizeY, sizeZ))
      ensures fresh(trianglesY) && trianglesY[..] == Flatten(YGroup(sizeX, sizeY, sizeZ))
      ensures fresh(trianglesZ) && trianglesZ[..] == Flatten(ZGroup(sizeX, sizeY, sizeZ))
    {
      CreateVertices();
      CreateTriangles();
    }

    /**
     * Allocates the vertices and as many normals, and places every point of the
     * layout: the sizeY + 1 rings, the top-cap interior, the bottom-cap interior.
     */
    method CreateVertices()
      requires ValidSize(sizeX, sizeY, sizeZ)
      modifies this
      ensures sizeX == old(sizeX) && sizeY == old(sizeY) && sizeZ == old(sizeZ) && roundness == old(roundness)
      ensures trianglesX == old(trianglesX) && trianglesY == old(trianglesY) && trianglesZ == old(trianglesZ)
      ensures fresh(vertices) && vertices[..] == InnerLayout(sizeX, sizeY, sizeZ, roundness)
      ensures fresh(normals) && normals[..] == OffsetLayout(sizeX, sizeY, sizeZ, roundness)
    {
      var sx, sy, sz := sizeX, sizeY, sizeZ;
      var cornerVertices := 8;
      var edgeVertices := (sx + sy + sz - 3) * 4;
      var faceVertices := ((sx - 1) * (sy - 1) + (sx - 1) * (sz - 1) + (sy - 1) * (sz - 1)) * 2;
      RingVertex(sx, sy, sz, 0, 0);
      vertices := new Point[cornerVertices + edgeVertices + faceVertices];
      normals := new Point[vertices.Length];

      var v := 0;
      var y := 0;
      while y <= sy
        modifies vertices, normals
        invariant 0 <= y <= sy + 1 && v == y * RingSize(sx, sz)
        invariant PlacedUpTo(v)
      {
        v := PlaceRing(y, v);
        MulStep(y, RingSize(sx, sz));
        y := y + 1;
      }
      v := PlaceInterior(sy, v);
      v := PlaceInterior(0, v);
      VertexCountByLayers(sx, sy, sz);
      PlacedAll();
    }

    /**
     * Places grid point (x, y, z) at index i: the vertex becomes the point clamped
     * into [roundness, size - roundness] on each axis, the normal the offset of
     * the point from there.  Nothing else changes.
     */
    method SetVertex(i: int, x: int, y: int, z: int)
      requires 0 <= i < vertices.Length && normals.Length == vertices.Length && vertices != normals
      modifies vertices, normals
      ensures vertices[i] == Inner(sizeX, sizeY, sizeZ, roundness, (x, y, z))
      ensures normals[i] == Offset(sizeX, sizeY, sizeZ, roundness, (x, y, z))
      ensures forall j :: 0 <= j < vertices.Length && j != i ==>
        vertices[j] == old(vertices[j]) && normals[j] == old(normals[j])
    {
      vertices[i] := (x, y, z);
      var ix, iy, iz := x, y, z;
      if x < roundness {
        ix := roundness;
      } else if x > sizeX - roundness {
        ix := sizeX - roundness;
      }
      if y < roundness {
        iy := roundness;
      } else if y > sizeY - roundness {
        iy := sizeY - roundness;
      }
      if z < roundness {
        iz := roundness;
      } else if z > sizeZ - roundness {
        iz := sizeZ - roundness;
      }
      var raw := vertices[i];
      normals[i] := (raw.0 - ix, raw.1 - iy, raw.2 - iz);
      vertices[i] := (ix, iy, iz);
    }

    /** SetVertex at the next index of the layout, with that index's grid point. */
    method PlaceNext(v: int, x: int, y: int, z: int)
      requires PlacedUpTo(v) && v < vertices.Length
      requires LayoutPoint(sizeX, sizeY, sizeZ, v) == (x, y, z)
      modifies vertices, normals
      ensures PlacedUpTo(v + 1)
      ensures forall j :: v + 1 <= j < vertices.Length ==> vertices[j] == old(vertices[j]) && normals[j] == old(normals[j])
    {
      SetVertex(v, x, y, z);
    }

    /** The ring at height y: front edge, right edge, back edge, left edge. */
    method PlaceRing(y: int, v0: int) returns (v: int)
      requires ValidSize(sizeX, sizeY, sizeZ) && 0 <= y <= sizeY
      requires v0 == y * RingSize(sizeX, sizeZ) && PlacedUpTo(v0)
      modifies vertices, normals
      ensures v == v0 + RingSize(sizeX, sizeZ) && PlacedUpTo(v)
      ensures forall j :: v <= j < vertices.Length ==> vertices[j] == old(vertices[j]) && normals[j] == old(normals[j])
    {
      var sx, sy, sz := sizeX, sizeY, sizeZ;
      RingVertex(sx, sy, sz, y, RingSize(sx, sz) - 1);
      v := v0;
      var x := 0;
      while x <= sx
        invariant 0 <= x <= sx + 1 && v == v0 + x && PlacedUpTo(v)
        invariant forall j :: v <= j < vertices.Length ==> vertices[j] == old(vertices[j]) && normals[j] == old(normals[j])
      {
        RingWrite(sx, sy, sz, y, x, 0, v);
        PlaceNext(v, x, y, 0);
        v, x := v + 1, x + 1;
      }
      var z := 1;
      while z <= sz
        invariant 1 <= z <= sz + 1 && v == v0 + sx + z && PlacedUpTo(v)
        invariant forall j :: v <= j < vertices.Length ==> vertices[j] == old(vertices[j]) && normals[j] == old(normals[j])
      {
        RingWrite(sx, sy, sz, y, sx, z, v);
        PlaceNext(v, sx, y, z);
        v, z := v + 1, z + 1;
      }
      x := sx - 1;
      while x >= 0
        invariant -1 <= x <= sx - 1 && v == v0 + 2 * sx + sz - x && PlacedUpTo(v)
        invariant forall j :: v <= j < vertices.Length ==> vertices[j] == old(vertices[j]) && normals[j] == old(normals[j])
      {
        RingWrite(sx, sy, sz, y, x, sz, v);
        PlaceNext(v, x, y, sz);
        v, x := v + 1, x - 1;
      }
      z := sz - 1;
      while z > 0
        invariant 0 <= z <= sz - 1 && v == v0 + 2 * sx + 2 * sz - z && PlacedUpTo(v)
        invariant forall j :: v <= j < vertices.Length ==> vertices[j] == old(vertices[j]) && normals[j] == old(normals[j])
      {
        RingWrite(sx, sy, sz, y, 0, z, v);
        PlaceNext(v, 0, y, z);
        v, z := v + 1, z - 1;
      }
    }

    /** The interior points of the cap at height h, row by row. */
    method PlaceInterior(h: int, v0: int) returns (v: int)
      requires ValidSize(sizeX, sizeY, sizeZ) && (h == sizeY || h == 0)
      requires v0 == CapStart(sizeX, sizeY, sizeZ, h) && PlacedUpTo(v0)
      modifies vertices, normals
      ensures v == v0 + InteriorCount(sizeX, sizeZ) && PlacedUpTo(v)
      ensures forall j :: v <= j < vertices.Length ==> vertices[j] == old(vertices[j]) && normals[j] == old(normals[j])
    {
      InteriorRows(sizeX, sizeZ);
      v := v0;
      var z := 1;
      while z < sizeZ
        invariant 1 <= z <= sizeZ && v == v0 + RowOffset(sizeX - 1, z - 1) && PlacedUpTo(v)
        invariant forall j :: v <= j < vertices.Length ==> vertices[j] == old(vertices[j]) && normals[j] == old(normals[j])
      {
        v := PlaceInteriorRow(h, z, v);
        z := z + 1;
      }
    }

    /** Row z of a cap interior: the points (x, h, z) for x = 1 .. sizeX - 1. */
    method PlaceInteriorRow(h: int, z: int, v0: int) returns (v: int)
      requires ValidSize(sizeX, sizeY, sizeZ) && (h == sizeY || h == 0) && 1 <= z < sizeZ
      requires v0 == CapStart(sizeX, sizeY, sizeZ, h) + RowOffset(sizeX - 1, z - 1) && PlacedUpTo(v0)
      modifies vertices, normals
      ensures v == CapStart(sizeX, sizeY, sizeZ, h) + RowOffset(sizeX - 1, z) && PlacedUpTo(v)
      ensures forall j :: v <= j < vertices.Length ==> vertices[j] == old(vertices[j]) && normals[j] == old(normals[j])
    {
      var sx, sy, sz := sizeX, sizeY, sizeZ;
      v := v0;
      var x := 1;
      while x < sx
        invariant 1 <= x <= sx && v == v0 + (x - 1) && PlacedUpTo(v)
        invariant forall j :: v <= j < vertices.Length ==> vertices[j] == old(vertices[j]) && normals[j] == old(normals[j])
      {
        InteriorWrite(sx, sy, sz, h, x, z, v);
        PlaceNext(v, x, h, z);
        v, x := v + 1, x + 1;
      }
    }

    /**
     * Allocates the three triangle buffers at their exact sizes, writes the side
     * walls layer by layer into the x and z buffers, then both caps into the y buffer.
     */
    method CreateTriangles()
      requires ValidSize(sizeX, sizeY, sizeZ) && sizeX >= 2 && sizeZ >= 2
      requires vertices.Length == VertexCount(sizeX, sizeY, sizeZ)
      modifies this
      ensures sizeX == old(sizeX) && sizeY == old(sizeY) && sizeZ == old(sizeZ) && roundness == old(roundness)
      ensures vertices == old(vertices) && normals == old(normals)
      ensures fresh(trianglesX) && trianglesX[..] == Flatten(XGroup(sizeX, sizeY, sizeZ))
      ensures fresh(trianglesY) && trianglesY[..] == Flatten(YGroup(sizeX, sizeY, sizeZ))
      ensures fresh(trianglesZ) && trianglesZ[..] == Flatten(ZGroup(sizeX, sizeY, sizeZ))
    {
      trianglesX, trianglesY, trianglesZ := CreateGroups(sizeX, sizeY, sizeZ, vertices.Length);
    }

    /** The body of CreateTriangles over fresh buffers: allocation, the side-wall loop, the caps. */
    static method CreateGroups(sx: int, sy: int, sz: int, vertexCount: int) returns (aX: array<int>, aY: array<int>, aZ: array<int>)
      requires ValidSize(sx, sy, sz) && sx >= 2 && sz >= 2 && vertexCount == VertexCount(sx, sy, sz)
      ensures fresh(aX) && aX[..] == Flatten(XGroup(sx, sy, sz))
      ensures fresh(aY) && aY[..] == Flatten(YGroup(sx, sy, sz))
      ensures fresh(aZ) && aZ[..] == Flatten(ZGroup(sx, sy, sz))
    {
      aX, aY, aZ := NewGroupBuffers(sx, sy, sz);
      var ring := (sx + sz) * 2;
      var tX, tZ := CreateGroupedWalls(aX, aZ, ring, sx, sy, sz);
      var tY := CreateCaps(aY, ring, vertexCount, sx, sy, sz);
      FlattenAppend(TopCap(sx, sy, sz), BottomCap(sx, sy, sz));
      assert aX[..] == aX[..tX];
      assert aY[..] == aY[..tY];
      assert aZ[..] == aZ[..tZ];
    }

    /** The three buffers, two triangles of three indices for each unit square facing their axis. */
    static method NewGroupBuffers(sx: int, sy: int, sz: int) returns (aX: array<int>, aY: array<int>, aZ: array<int>)
      requires ValidSize(sx, sy, sz)
      ensures fresh(aX) && fresh(aY) && fresh(aZ) && aX != aY && aX != aZ && aY != aZ
      ensures aX.Length == |Flatten(XGroup(sx, sy, sz))|
      ensures aY.Length == (sx * sz) * 12
      ensures aZ.Length == |Flatten(ZGroup(sx, sy, sz))|
    {
      XGroupSize(sx, sy, sz);
      ZGroupSize(sx, sy, sz);
      aX := new int[(sy * sz) * 12];
      aY := new int[(sx * sz) * 12];
      aZ := new int[(sx * sy) * 12];
    }

    /** The top cap, then the bottom cap, into the y buffer. */
    static method CreateCaps(aY: array<int>, ring: int, vertexCount: int, sx: int, sy: int, sz: int) returns (tY: int)
      requires ValidSize(sx, sy, sz) && sx >= 2 && sz >= 2 && ring == RingSize(sx, sz)
      requires vertexCount == VertexCount(sx, sy, sz) && aY.Length == (sx * sz) * 12
      modifies aY
      ensures tY == aY.Length && aY[..tY] == Flatten(TopCap(sx, sy, sz)) + Flatten(BottomCap(sx, sy, sz))
    {
      FlattenLength(TopCap(sx, sy, sz));
      FlattenLength(BottomCap(sx, sy, sz));
      TopCapCellsLength(sx, sy, 0, sz);
      BottomCapCellsLength(sx, 0, sz);
      ghost var none := aY[..0];
      tY := CreateTopFace(aY, 0, ring, sx, sy, sz);
      assert none == [];
      tY := CreateBottomFace(aY, tY, ring, vertexCount, sx, sy, sz);
    }

    /**
     * The layer loop of CreateTriangles: for each of the sizeY layers, the front
     * edge's quads to z, the right edge's to x, the back edge's to z, the left
     * edge's to x, and the wrap quad to x.
     */
    static method CreateGroupedWalls(aX: array<int>, aZ: array<int>, ring: int, sx: int, sy: int, sz: int)
      returns (tX: int, tZ: int)
      requires ValidSize(sx, sy, sz) && ring == RingSize(sx, sz) && aX != aZ
      requires aX.Length == |Flatten(XGroup(sx, sy, sz))| && aZ.Length == |Flatten(ZGroup(sx, sy, sz))|
      modifies aX, aZ
      ensures tX == aX.Length && aX[..tX] == Flatten(XGroup(sx, sy, sz))
      ensures tZ == aZ.Length && aZ[..tZ] == Flatten(ZGroup(sx, sy, sz))
    {
      ghost var wholeX, wholeZ := XWallCells(sx, sz, 0, sy), ZWallCells(sx, sz, 0, sy);
      ghost var doneX: seq<Cell>, doneZ: seq<Cell> := [], [];
      FlattenLength(XGroup(sx, sy, sz));
      FlattenLength(ZGroup(sx, sy, sz));
      NothingDone(wholeX);
      NothingDone(wholeZ);
      assert aX.Length == 6 * |wholeX| && aZ.Length == 6 * |wholeZ|;
      tX, tZ := 0, 0;
      var v := 0;
      var y := 0;
      while y < sy
        invariant 0 <= y <= sy && v == y * ring
        invariant tX == 6 * |doneX| && wholeX == doneX + XWallCells(sx, sz, y, sy)
        invariant tZ == 6 * |doneZ| && wholeZ == doneZ + ZWallCells(sx, sz, y, sy)
        invariant Wrote(aX, tX, sx, sy, sz, doneX) && Wrote(aZ, tZ, sx, sy, sz, doneZ)
      {
        tX, tZ, v := GroupedStep(aX, aZ, tX, tZ, ring, v, sx, sy, sz, y, wholeX, doneX, wholeZ, doneZ);
        doneX, doneZ := doneX + XLayerCells(sx, sz, y), doneZ + ZLayerCells(sx, sz, y);
        y := y + 1;
      }
      LayerAdvanceDone(sx, sz, sy, wholeX, doneX, wholeZ, doneZ);
    }

    /** One pass of the layer loop, with the loop's bookkeeping: layer y's cells move from the cells to come to the cells written. */
    static method GroupedStep(aX: array<int>, aZ: array<int>, tX0: int, tZ0: int, ring: int, v0: int,
                              sx: int, sy: int, sz: int, y: int,
                              ghost wholeX: seq<Cell>, ghost doneX: seq<Cell>, ghost wholeZ: seq<Cell>, ghost doneZ: seq<Cell>)
      returns (tX: int, tZ: int, v: int)
      requires ValidSize(sx, sy, sz) && ring == RingSize(sx, sz) && 0 <= y < sy && v0 == y * ring && aX != aZ
      requires aX.Length == 6 * |wholeX| && tX0 == 6 * |doneX| && wholeX == doneX + XWallCells(sx, sz, y, sy)
      requires aZ.Length == 6 * |wholeZ| && tZ0 == 6 * |doneZ| && wholeZ == doneZ + ZWallCells(sx, sz, y, sy)
      requires Wrote(aX, tX0, sx, sy, sz, doneX) && Wrote(aZ, tZ0, sx, sy, sz, doneZ)
      modifies aX, aZ
      ensures v == (y + 1) * ring
      ensures tX == 6 * |doneX + XLayerCells(sx, sz, y)| && wholeX == (doneX + XLayerCells(sx, sz, y)) + XWallCells(sx, sz, y + 1, sy)
      ensures tZ == 6 * |doneZ + ZLayerCells(sx, sz, y)| && wholeZ == (doneZ + ZLayerCells(sx, sz, y)) + ZWallCells(sx, sz, y + 1, sy)
      ensures Wrote(aX, tX, sx, sy, sz, doneX + XLayerCells(sx, sz, y)) && Wrote(aZ, tZ, sx, sy, sz, doneZ + ZLayerCells(sx, sz, y))
      ensures forall j :: tX <= j < aX.Length ==> aX[j] == old(aX[j])
      ensures forall j :: tZ <= j < aZ.Length ==> aZ[j] == old(aZ[j])
    {
      LayerAdvance(sx, sz, y, sy, wholeX, doneX, wholeZ, doneZ);
      MulStep(y, ring);
      tX, tZ, v := GroupedLayer(aX, aZ, tX0, tZ0, ring, v0, sx, sy, sz, y, doneX, doneZ);
    }

    /** One pass of the layer loop over the ring at height y. */
    static method GroupedLayer(aX: array<int>, aZ: array<int>, tX0: int, tZ0: int, ring: int, v0: int,
                               sx: int, sy: int, sz: int, y: int, ghost doneX: seq<Cell>, ghost doneZ: seq<Cell>)
      returns (tX: int, tZ: int, v: int)
      requires ValidSize(sx, sy, sz) && ring == RingSize(sx, sz) && 0 <= y < sy && v0 == y * ring && aX != aZ
      requires tX0 + 6 * (2 * sz) <= aX.Length && Wrote(aX, tX0, sx, sy, sz, doneX)
      requires tZ0 + 6 * (2 * sx) <= aZ.Length && Wrote(aZ, tZ0, sx, sy, sz, doneZ)
      modifies aX, aZ
      ensures tX == tX0 + 6 * (2 * sz) && tZ == tZ0 + 6 * (2 * sx) && v == v0 + ring
      ensures Wrote(aX, tX, sx, sy, sz, doneX + XLayerCells(sx, sz, y))
      ensures Wrote(aZ, tZ, sx, sy, sz, doneZ + ZLayerCells(sx, sz, y))
      ensures forall j :: tX <= j < aX.Length ==> aX[j] == old(aX[j])
      ensures forall j :: tZ <= j < aZ.Length ==> aZ[j] == old(aZ[j])
    {
      tX, tZ, v := LayerFrontRight(aX, aZ, tX0, tZ0, ring, v0, sx, sy, sz, y, doneX, doneZ);
      ghost var front := SideSpanCells(sx, sz, y, 0, sx);
      ghost var right := SideSpanCells(sx, sz, y, sx, sx + sz);
      tX, tZ, v := LayerBackLeft(aX, aZ, tX, tZ, ring, v, sx, sy, sz, y, doneX + right, doneZ + front);
      XLayerRegroup(sx, sz, y, doneX);
      ZLayerRegroup(sx, sz, y, doneZ);
    }

    /** The first half of a layer: the front edge to z, then the right edge to x. */
    static method LayerFrontRight(aX: array<int>, aZ: array<int>, tX0: int, tZ0: int, ring: int, v0: int,
                                  sx: int, sy: int, sz: int, y: int, ghost doneX: seq<Cell>, ghost doneZ: seq<Cell>)
      returns (tX: int, tZ: int, v: int)
      requires ValidSize(sx, sy, sz) && ring == RingSize(sx, sz) && 0 <= y < sy && v0 == y * ring && aX != aZ
      requires tX0 + 6 * (2 * sz) <= aX.Length && Wrote(aX, tX0, sx, sy, sz, doneX)
      requires tZ0 + 6 * (2 * sx) <= aZ.Length && Wrote(aZ, tZ0, sx, sy, sz, doneZ)
      modifies aX, aZ
      ensures tX == tX0 + 6 * sz && tZ == tZ0 + 6 * sx && v == v0 + sx + sz
      ensures Wrote(aX, tX, sx, sy, sz, doneX + SideSpanCells(sx, sz, y, sx, sx + sz))
      ensures Wrote(aZ, tZ, sx, sy, sz, doneZ + SideSpanCells(sx, sz, y, 0, sx))
      ensures forall j :: tX <= j < aX.Length ==> aX[j] == old(aX[j])
      ensures forall j :: tZ <= j < aZ.Length ==> aZ[j] == old(aZ[j])
    {
      tZ, v := SideSpanAfter(aZ, tZ0, ring, v0, sx, sx, sy, sz, y, 0, sx, doneZ);
      tX, v := SideSpanAfter(aX, tX0, ring, v, sz, sx, sy, sz, y, sx, sx + sz, doneX);
    }

    /** The second half of a layer: the back edge to z, then the left edge and the wrap quad to x. */
    static method LayerBackLeft(aX: array<int>, aZ: array<int>, tX0: int, tZ0: int, ring: int, v0: int,
                                sx: int, sy: int, sz: int, y: int, ghost doneX: seq<Cell>, ghost doneZ: seq<Cell>)
      returns (tX: int, tZ: int, v: int)
      requires ValidSize(sx, sy, sz) && ring == RingSize(sx, sz) && 0 <= y < sy && v0 == y * ring + sx + sz && aX != aZ
      requires tX0 + 6 * sz <= aX.Length && Wrote(aX, tX0, sx, sy, sz, doneX)
      requires tZ0 + 6 * sx <= aZ.Length && Wrote(aZ, tZ0, sx, sy, sz, doneZ)
      modifies aX, aZ
      ensures tX == tX0 + 6 * sz && tZ == tZ0 + 6 * sx && v == y * ring + ring
      ensures Wrote(aX, tX, sx, sy, sz,
        doneX + SideSpanCells(sx, sz, y, 2 * sx + sz, ring - 1) + [SideCell(sx, sz, y, ring - 1)])
      ensures Wrote(aZ, tZ, sx, sy, sz, doneZ + SideSpanCells(sx, sz, y, sx + sz, 2 * sx + sz))
      ensures forall j :: tX <= j < aX.Length ==> aX[j] == old(aX[j])
      ensures forall j :: tZ <= j < aZ.Length ==> aZ[j] == old(aZ[j])
    {
      tZ, v := SideSpanAfter(aZ, tZ0, ring, v0, sx, sx, sy, sz, y, sx + sz, 2 * sx + sz, doneZ);
      tX, v := LeftAndWrap(aX, tX0, ring, v, sx, sy, sz, y, doneX);
    }

    /** The left edge's quads and the wrap quad, both to x. */
    static method LeftAndWrap(aX: array<int>, tX0: int, ring: int, v0: int, sx: int, sy: int, sz: int, y: int,
                              ghost doneX: seq<Cell>)
      returns (tX: int, v: int)
      requires ValidSize(sx, sy, sz) && ring == RingSize(sx, sz) && 0 <= y < sy && v0 == y * ring + 2 * sx + sz
      requires tX0 + 6 * sz <= aX.Length && Wrote(aX, tX0, sx, sy, sz, doneX)
      modifies aX
      ensures tX == tX0 + 6 * sz && v == y * ring + ring
      ensures Wrote(aX, tX, sx, sy, sz,
        doneX + SideSpanCells(sx, sz, y, 2 * sx + sz, ring - 1) + [SideCell(sx, sz, y, ring - 1)])
      ensures forall j :: tX <= j < aX.Length ==> aX[j] == old(aX[j])
    {
      tX, v := SideSpanAfter(aX, tX0, ring, v0, sz - 1, sx, sy, sz, y, 2 * sx + sz, ring - 1, doneX);
      tX := SideWrapAfter(aX, tX, ring, v, sx, sy, sz, y, doneX + SideSpanCells(sx, sz, y, 2 * sx + sz, ring - 1));
      v := v + 1;
    }
  }

  /** One pass of the layer loop moves layer y's x and z cells from the cells to come to the cells written. */
  lemma LayerAdvance(sx: int, sz: int, y: int, sy: int,
                     wholeX: seq<Cell>, doneX: seq<Cell>, wholeZ: seq<Cell>, doneZ: seq<Cell>)
    requires sx >= 1 && sz >= 1 && y < sy
    requires wholeX == doneX + XWallCells(sx, sz, y, sy) && wholeZ == doneZ + ZWallCells(sx, sz, y, sy)
    ensures |XLayerCells(sx, sz, y)| == 2 * sz && |ZLayerCells(sx, sz, y)| == 2 * sx
    ensures wholeX == (doneX + XLayerCells(sx, sz, y)) + XWallCells(sx, sz, y + 1, sy)
    ensures wholeZ == (doneZ + ZLayerCells(sx, sz, y)) + ZWallCells(sx, sz, y + 1, sy)
  {
    LayerCellsLength(sx, sz, y);
    ConsumeRun(wholeX, doneX, XLayerCells(sx, sz, y), XWallCells(sx, sz, y + 1, sy));
    ConsumeRun(wholeZ, doneZ, ZLayerCells(sx, sz, y), ZWallCells(sx, sz, y + 1, sy));
  }

  /** After the last layer nothing is left to come. */
  lemma LayerAdvanceDone(sx: int, sz: int, sy: int,
                         wholeX: seq<Cell>, doneX: seq<Cell>, wholeZ: seq<Cell>, doneZ: seq<Cell>)
    requires sx >= 1 && sz >= 1
    requires wholeX == doneX + XWallCells(sx, sz, sy, sy) && wholeZ == doneZ + ZWallCells(sx, sz, sy, sy)
    ensures doneX == wholeX && doneZ == wholeZ
  {
    assert XWallCells(sx, sz, sy, sy) == [] && ZWallCells(sx, sz, sy, sy) == [];
  }

  /** One layer sends 2 * sizeZ quads to the x group and 2 * sizeX to the z group. */
  lemma LayerCellsLength(sx: int, sz: int, y: int)
    requires sx >= 1 && sz >= 1
    ensures |XLayerCells(sx, sz, y)| == 2 * sz && |ZLayerCells(sx, sz, y)| == 2 * sx
  {
    SideSpanCellsLength(sx, sz, y, 0, sx);
    SideSpanCellsLength(sx, sz, y, sx, sx + sz);
    SideSpanCellsLength(sx, sz, y, sx + sz, 2 * sx + sz);
    SideSpanCellsLength(sx, sz, y, 2 * sx + sz, RingSize(sx, sz));
  }

  /** The x-facing squares of a layer end with the wrap square that closes the ring. */
  lemma XLayerCellsWrap(sx: int, sz: int, y: int)
    requires sx >= 1 && sz >= 1
    ensures var ring := RingSize(sx, sz);
      XLayerCells(sx, sz, y)
      == SideSpanCells(sx, sz, y, sx, sx + sz) + (SideSpanCells(sx, sz, y, 2 * sx + sz, ring - 1) + [SideCell(sx, sz, y, ring - 1)])
  {
    SideSpanCellsLast(sx, sz, y, 2 * sx + sz, RingSize(sx, sz) - 1);
  }

  /** The x half of a layer, appended to the x buffer's cells, regroups into the layer's x cells. */
  lemma XLayerRegroup(sx: int, sz: int, y: int, doneX: seq<Cell>)
    requires sx >= 1 && sz >= 1
    ensures var ring := RingSize(sx, sz);
      doneX + SideSpanCells(sx, sz, y, sx, sx + sz) + SideSpanCells(sx, sz, y, 2 * sx + sz, ring - 1) + [SideCell(sx, sz, y, ring - 1)]
      == doneX + XLayerCells(sx, sz, y)
  {
    var ring := RingSize(sx, sz);
    var right, left, c := SideSpanCells(sx, sz, y, sx, sx + sz), SideSpanCells(sx, sz, y, 2 * sx + sz, ring - 1), SideCell(sx, sz, y, ring - 1);
    XLayerCellsWrap(sx, sz, y);
    assert doneX + right + left + [c] == doneX + (right + (left + [c]));
  }

  /** The z half of a layer, appended to the z buffer's cells, regroups into the layer's z cells. */
  lemma ZLayerRegroup(sx: int, sz: int, y: int, doneZ: seq<Cell>)
    requires sx >= 1 && sz >= 1
    ensures doneZ + SideSpanCells(sx, sz, y, 0, sx) + SideSpanCells(sx, sz, y, sx + sz, 2 * sx + sz)
      == doneZ + ZLayerCells(sx, sz, y)
  {
    var front, back := SideSpanCells(sx, sz, y, 0, sx), SideSpanCells(sx, sz, y, sx + sz, 2 * sx + sz);
    assert doneZ + front + back == doneZ + (front + back);
  }
}
