/*
 * The rounded box hands the surface quads to the mesh in three index buffers,
 * one per axis the quads face, so that each group can carry its own material:
 * the left and right walls (facing x), the two caps (facing y), and the front and
 * back walls (facing z).  Along one layer of the wall loop, ring positions
 * 0 .. sizeX - 1 run along the front edge and sizeX + sizeZ .. 2 sizeX + sizeZ - 1
 * along the back edge; the others run along the right and left edges, the wrap
 * square of the layer last.
 */
module FacingGroups {
  import opened BoxLayout
  import opened QuadMesh

  /** The wall squares of layer y that face z: the front edge, then the back edge. */
  function ZLayerCells(sx: int, sz: int, y: int): seq<Cell>
    requires sx >= 1 && sz >= 1
  {
    SideSpanCells(sx, sz, y, 0, sx) + SideSpanCells(sx, sz, y, sx + sz, 2 * sx + sz)
  }

  /** The wall squares of layer y that face x: the right edge, then the left edge. */
  function XLayerCells(sx: int, sz: int, y: int): seq<Cell>
    requires sx >= 1 && sz >= 1
  {
    SideSpanCells(sx, sz, y, sx, sx + sz) + SideSpanCells(sx, sz, y, 2 * sx + sz, RingSize(sx, sz))
  }

  /** The z-facing wall squares of layers lo .. hi - 1, layer by layer. */
  function ZWallCells(sx: int, sz: int, lo: int, hi: int): seq<Cell>
    requires sx >= 1 && sz >= 1
    decreases hi - lo
  {
    if lo >= hi then [] else ZLayerCells(sx, sz, lo) + ZWallCells(sx, sz, lo + 1, hi)
  }

  /** The x-facing wall squares of layers lo .. hi - 1, layer by layer. */
  function XWallCells(sx: int, sz: int, lo: int, hi: int): seq<Cell>
    requires sx >= 1 && sz >= 1
    decreases hi - lo
  {
    if lo >= hi then [] else XLayerCells(sx, sz, lo) + XWallCells(sx, sz, lo + 1, hi)
  }

  /** The quads of the x-facing buffer (trianglesX). */
  function XGroup(sx: int, sy: int, sz: int): seq<Quad>
    requires ValidSize(sx, sy, sz)
  {
    Indexed(sx, sy, sz, XWallCells(sx, sz, 0, sy))
  }

  /** The quads of the y-facing buffer (trianglesY): the top cap, then the bottom cap. */
  function YGroup(sx: int, sy: int, sz: int): seq<Quad> {
    TopCap(sx, sy, sz) + BottomCap(sx, sy, sz)
  }

  /** The quads of the z-facing buffer (trianglesZ). */
  function ZGroup(sx: int, sy: int, sz: int): seq<Quad>
    requires ValidSize(sx, sy, sz)
  {
    Indexed(sx, sy, sz, ZWallCells(sx, sz, 0, sy))
  }

  // ---------------------------------------------------------------------------
  // Sizes

  lemma {:induction false} ZWallCellsLength(sx: int, sz: int, lo: int, hi: int)
    requires sx >= 1 && sz >= 1 && lo <= hi
    ensures |ZWallCells(sx, sz, lo, hi)| == (hi - lo) * (2 * sx)
    decreases hi - lo
  {
    if lo < hi {
      ZWallCellsLength(sx, sz, lo + 1, hi);
      SideSpanCellsLength(sx, sz, lo, 0, sx);
      SideSpanCellsLength(sx, sz, lo, sx + sz, 2 * sx + sz);
      MulStep(hi - lo - 1, 2 * sx);
    }
  }

  lemma {:induction false} XWallCellsLength(sx: int, sz: int, lo: int, hi: int)
    requires sx >= 1 && sz >= 1 && lo <= hi
    ensures |XWallCells(sx, sz, lo, hi)| == (hi - lo) * (2 * sz)
    decreases hi - lo
  {
    if lo < hi {
      XWallCellsLength(sx, sz, lo + 1, hi);
      SideSpanCellsLength(sx, sz, lo, sx, sx + sz);
      SideSpanCellsLength(sx, sz, lo, 2 * sx + sz, RingSize(sx, sz));
      MulStep(hi - lo - 1, 2 * sz);
    }
  }

  /**
   * Each group has exactly as many quads as its buffer has room for: the
   * x buffer sizeY * sizeZ * 12 indices, the y buffer sizeX * sizeZ * 12 and the
   * z buffer sizeX * sizeY * 12, six indices per quad.
   */
  /** The x buffer holds two quads per unit square of the left and right walls (sizeY x sizeZ each). */
  lemma XGroupSize(sx: int, sy: int, sz: int)
    requires ValidSize(sx, sy, sz)
    ensures |XGroup(sx, sy, sz)| == 2 * (sy * sz) && |Flatten(XGroup(sx, sy, sz))| == (sy * sz) * 12
  {
    XWallCellsLength(sx, sz, 0, sy);
    assert (sy - 0) * (2 * sz) == 2 * (sy * sz);
    FlattenLength(XGroup(sx, sy, sz));
  }

  /** The y buffer holds two quads per unit square of the top and bottom caps (sizeX x sizeZ each). */
  lemma YGroupSize(sx: int, sy: int, sz: int)
    requires ValidSize(sx, sy, sz)
    ensures |YGroup(sx, sy, sz)| == 2 * (sx * sz) && |Flatten(YGroup(sx, sy, sz))| == (sx * sz) * 12
  {
    BoxQuadsCount(sx, sy, sz);
    assert sx * sz == sz * sx;
    FlattenLength(YGroup(sx, sy, sz));
  }

  /** The z buffer holds two quads per unit square of the front and back walls (sizeX x sizeY each). */
  lemma ZGroupSize(sx: int, sy: int, sz: int)
    requires ValidSize(sx, sy, sz)
    ensures |ZGroup(sx, sy, sz)| == 2 * (sx * sy) && |Flatten(ZGroup(sx, sy, sz))| == (sx * sy) * 12
  {
    ZWallCellsLength(sx, sz, 0, sy);
    assert (sy - 0) * (2 * sx) == 2 * (sx * sy);
    FlattenLength(ZGroup(sx, sy, sz));
  }

  // ---------------------------------------------------------------------------
  // The three groups split the surface

  lemma IndexedMultiset(sx: int, sy: int, sz: int, a: seq<Cell>, b: seq<Cell>)
    ensures multiset(Indexed(sx, sy, sz, a + b)) == multiset(Indexed(sx, sy, sz, a)) + multiset(Indexed(sx, sy, sz, b))
  {
    IndexedAppend(sx, sy, sz, a, b);
  }

  /** One layer of the ring, cut at the four corners of the box. */
  lemma LayerCorners(sx: int, sz: int, y: int)
    requires sx >= 1 && sz >= 1
    ensures SideSpanCells(sx, sz, y, 0, RingSize(sx, sz))
         == SideSpanCells(sx, sz, y, 0, sx) + SideSpanCells(sx, sz, y, sx, sx + sz)
          + SideSpanCells(sx, sz, y, sx + sz, 2 * sx + sz) + SideSpanCells(sx, sz, y, 2 * sx + sz, RingSize(sx, sz))
  {
    var ring := RingSize(sx, sz);
    SideSpanCellsSplit(sx, sz, y, 0, sx, ring);
    SideSpanCellsSplit(sx, sz, y, sx, sx + sz, ring);
    SideSpanCellsSplit(sx, sz, y, sx + sz, 2 * sx + sz, ring);
  }

  /** The wall quads of one layer go to the z group or to the x group, each exactly once. */
  lemma LayerPartition(sx: int, sy: int, sz: int, y: int)
    requires sx >= 1 && sz >= 1
    ensures multiset(Indexed(sx, sy, sz, ZLayerCells(sx, sz, y))) + multiset(Indexed(sx, sy, sz, XLayerCells(sx, sz, y)))
         == multiset(Indexed(sx, sy, sz, SideSpanCells(sx, sz, y, 0, RingSize(sx, sz))))
  {
    var a, b := SideSpanCells(sx, sz, y, 0, sx), SideSpanCells(sx, sz, y, sx, sx + sz);
    var c, d := SideSpanCells(sx, sz, y, sx + sz, 2 * sx + sz), SideSpanCells(sx, sz, y, 2 * sx + sz, RingSize(sx, sz));
    LayerCorners(sx, sz, y);
    IndexedMultiset(sx, sy, sz, a, c);
    IndexedMultiset(sx, sy, sz, b, d);
    IndexedMultiset(sx, sy, sz, a + b + c, d);
    IndexedMultiset(sx, sy, sz, a + b, c);
    IndexedMultiset(sx, sy, sz, a, b);
  }

  lemma {:induction false} WallPartition(sx: int, sy: int, sz: int, lo: int, hi: int)
    requires sx >= 1 && sz >= 1
    ensures multiset(Indexed(sx, sy, sz, ZWallCells(sx, sz, lo, hi))) + multiset(Indexed(sx, sy, sz, XWallCells(sx, sz, lo, hi)))
         == multiset(Indexed(sx, sy, sz, SideWallCells(sx, sz, lo, hi)))
    decreases hi - lo
  {
    if lo < hi {
      WallPartition(sx, sy, sz, lo + 1, hi);
      LayerPartition(sx, sy, sz, lo);
      IndexedMultiset(sx, sy, sz, ZLayerCells(sx, sz, lo), ZWallCells(sx, sz, lo + 1, hi));
      IndexedMultiset(sx, sy, sz, XLayerCells(sx, sz, lo), XWallCells(sx, sz, lo + 1, hi));
      IndexedMultiset(sx, sy, sz, SideSpanCells(sx, sz, lo, 0, RingSize(sx, sz)), SideWallCells(sx, sz, lo + 1, hi));
    }
  }

  /**
   * The three buffers together hold every quad of the plain box's triangulation
   * exactly once: the rounded box only splits the surface, it adds and drops nothing.
   */
  lemma GroupsPartition(sx: int, sy: int, sz: int)
    requires ValidSize(sx, sy, sz)
    ensures multiset(XGroup(sx, sy, sz)) + multiset(YGroup(sx, sy, sz)) + multiset(ZGroup(sx, sy, sz))
         == multiset(BoxQuads(sx, sy, sz))
  {
    WallPartition(sx, sy, sz, 0, sy);
  }

  // ---------------------------------------------------------------------------
  // Each group faces its axis

  lemma {:induction false} ZWallCellsFacing(sx: int, sy: int, sz: int, lo: int, hi: int)
    requires ValidSize(sx, sy, sz) && 0 <= lo && hi <= sy
    ensures AllOutward(sx, sy, sz, ZWallCells(sx, sz, lo, hi)) && AllAlong(ZWallCells(sx, sz, lo, hi), 2)
    decreases hi - lo
  {
    if lo < hi {
      var a, b := SideSpanCells(sx, sz, lo, 0, sx), SideSpanCells(sx, sz, lo, sx + sz, 2 * sx + sz);
      var rest := ZWallCells(sx, sz, lo + 1, hi);
      ZWallCellsFacing(sx, sy, sz, lo + 1, hi);
      SideSpanCellsOutward(sx, sy, sz, lo, 0, sx);
      SideSpanCellsOutward(sx, sy, sz, lo, sx + sz, 2 * sx + sz);
      SideSpanCellsAlong(sx, sy, sz, lo, 0, sx, 2);
      SideSpanCellsAlong(sx, sy, sz, lo, sx + sz, 2 * sx + sz, 2);
      AllOutwardAppend(sx, sy, sz, a, b);
      AllOutwardAppend(sx, sy, sz, a + b, rest);
      AllAlongAppend(a, b, 2);
      AllAlongAppend(a + b, rest, 2);
    }
  }

  lemma {:induction false} XWallCellsFacing(sx: int, sy: int, sz: int, lo: int, hi: int)
    requires ValidSize(sx, sy, sz) && 0 <= lo && hi <= sy
    ensures AllOutward(sx, sy, sz, XWallCells(sx, sz, lo, hi)) && AllAlong(XWallCells(sx, sz, lo, hi), 0)
    decreases hi - lo
  {
    if lo < hi {
      var ring := RingSize(sx, sz);
      var a, b := SideSpanCells(sx, sz, lo, sx, sx + sz), SideSpanCells(sx, sz, lo, 2 * sx + sz, ring);
      var rest := XWallCells(sx, sz, lo + 1, hi);
      XWallCellsFacing(sx, sy, sz, lo + 1, hi);
      SideSpanCellsOutward(sx, sy, sz, lo, sx, sx + sz);
      SideSpanCellsOutward(sx, sy, sz, lo, 2 * sx + sz, ring);
      SideSpanCellsAlong(sx, sy, sz, lo, sx, sx + sz, 0);
      SideSpanCellsAlong(sx, sy, sz, lo, 2 * sx + sz, ring, 0);
      AllOutwardAppend(sx, sy, sz, a, b);
      AllOutwardAppend(sx, sy, sz, a + b, rest);
      AllAlongAppend(a, b, 0);
      AllAlongAppend(a + b, rest, 0);
    }
  }

  lemma AllFacingAppend(sx: int, sy: int, sz: int, a: seq<Quad>, b: seq<Quad>, axis: int)
    requires AllFacing(sx, sy, sz, a, axis) && AllFacing(sx, sy, sz, b, axis)
    ensures AllFacing(sx, sy, sz, a + b, axis)
  {
    forall j | 0 <= j < |a + b| ensures Facing(sx, sy, sz, (a + b)[j], axis) {
      if j < |a| { assert (a + b)[j] == a[j]; } else { assert (a + b)[j] == b[j - |a|]; }
    }
  }

  /**
   * Every quad of a group is a good quad (emitted vertices, a unit square of a
   * face, wound outward) whose normal lies along the group's axis.
   */
  lemma GroupsFacing(sx: int, sy: int, sz: int)
    requires ValidSize(sx, sy, sz)
    ensures AllFacing(sx, sy, sz, XGroup(sx, sy, sz), 0)
    ensures AllFacing(sx, sy, sz, YGroup(sx, sy, sz), 1)
    ensures AllFacing(sx, sy, sz, ZGroup(sx, sy, sz), 2)
  {
    XWallCellsFacing(sx, sy, sz, 0, sy);
    IndexedFacing(sx, sy, sz, XWallCells(sx, sz, 0, sy), 0);
    CapsFacingY(sx, sy, sz);
    AllFacingAppend(sx, sy, sz, TopCap(sx, sy, sz), BottomCap(sx, sy, sz), 1);
    ZWallCellsFacing(sx, sy, sz, 0, sy);
    IndexedFacing(sx, sy, sz, ZWallCells(sx, sz, 0, sy), 2);
  }
}
