/*
 * The timed-reveal generator: it lays out the same surface points as the plain
 * box, one per frame step, and builds no triangles.  The pauses between steps
 * only delay the writes, so the model runs the loops straight through.
 */
module CustomSphere {
  import opened BoxLayout
  import opened VertexWriter

  class CustomSphereGenerator {
    var sizeX: int
    var sizeY: int
    var sizeZ: int
    var vertices: array<Point>

    constructor (sx: int, sy: int, sz: int)
      ensures sizeX == sx && sizeY == sy && sizeZ == sz && vertices.Length == 0
    {
      sizeX, sizeY, sizeZ := sx, sy, sz;
      vertices := new Point[0];
    }

    /**
     * Allocates corner + edge + face vertices and fills them: the sizeY + 1 rings,
     * then the top-cap interior, then the bottom-cap interior.
     */
    method Generate()
      requires ValidSize(sizeX, sizeY, sizeZ)
      modifies this
      ensures sizeX == old(sizeX) && sizeY == old(sizeY) && sizeZ == old(sizeZ)
      ensures fresh(vertices) && vertices[..] == Layout(sizeX, sizeY, sizeZ)
    {
      var sx, sy, sz := sizeX, sizeY, sizeZ;
      var cornerVertices := 8;
      var edgeVertices := (sx + sy + sz - 3) * 4;
      var faceVertices := ((sx - 1) * (sy - 1) + (sx - 1) * (sz - 1) + (sy - 1) * (sz - 1)) * 2;
      RingVertex(sx, sy, sz, 0, 0);
      var a := new Point[cornerVertices + edgeVertices + faceVertices];
      vertices := a;

      var v := 0;
      var y := 0;
      while y <= sy
        modifies a
        invariant 0 <= y <= sy + 1 && v == y * RingSize(sx, sz)
        invariant LaidOutUpTo(a, sx, sy, sz, v)
      {
        v := WriteRing(a, sx, sy, sz, y, v);
        MulStep(y, RingSize(sx, sz));
        y := y + 1;
      }
      v := WriteInterior(a, sx, sy, sz, sy, v);
      v := WriteInterior(a, sx, sy, sz, 0, v);
      VertexCountByLayers(sx, sy, sz);
      LaidOutAll(a, sx, sy, sz);
    }
  }
}
