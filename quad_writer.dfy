/*
 * The in-place quad writers shared, line for line, by the plain and the rounded
 * box generator: SetQuad, the two cap routines, which find neighbour indices by
 * offset arithmetic on the cursors vMin, vMid, vMax and vTop, and the step facts
 * for the side-wall loops.
 *
 * Each cap routine is proved to write exactly the quads of the reference cap
 * (QuadMesh.TopCap, QuadMesh.BottomCap) after the quads already in the buffer.
 * The proof keeps a ghost list `done` of the cells written so far and the cells
 * still to come; one step lemma per SetQuad call of the routine says which cell
 * that call's cursor arithmetic names.
 */
module QuadWriter {
  import opened BoxLayout
  import opened QuadMesh

  /**
   * Writes the quad (v00, v10, v01, v11) as the triangles (v00, v01, v10) and
   * (v10, v01, v11) at positions i .. i + 5 and returns the next free position.
   */
  method SetQuad(triangles: array<int>, i: int, v00: int, v10: int, v01: int, v11: int)
    returns (next: int)
    requires 0 <= i && i + 6 <= triangles.Length
    modifies triangles
    ensures next == i + 6
    ensures triangles[..next] == old(triangles[..i]) + QuadIndices(Quad(v00, v10, v01, v11))
    ensures forall j :: next <= j < triangles.Length ==> triangles[j] == old(triangles[j])
  {
    triangles[i] := v00;
    triangles[i + 4] := v01;
    triangles[i + 1] := v01;
    triangles[i + 3] := v10;
    triangles[i + 2] := v10;
    triangles[i + 5] := v11;
    next := i + 6;
    assert triangles[i..next] == [v00, v01, v10, v10, v01, v11];
    assert triangles[..next] == triangles[..i] + triangles[i..next];
  }

  // ---------------------------------------------------------------------------
  // Bookkeeping for the writers

  /** The quad q is the one the layout assigns to cell c. */
  lemma Names(sx: int, sy: int, sz: int, c: Cell, q: Quad)
    requires IndexCell(sx, sy, sz, c) == q
    ensures Indexed(sx, sy, sz, [c]) == [q]
  {
  }

  /** Writing the quad of one more cell extends the buffer by that cell. */
  lemma Emit(sx: int, sy: int, sz: int, prefix: seq<int>, done: seq<Cell>, c: Cell, q: Quad,
             before: seq<int>, after: seq<int>)
    requires Indexed(sx, sy, sz, [c]) == [q]
    requires before == prefix + Flatten(Indexed(sx, sy, sz, done))
    requires after == before + QuadIndices(q)
    ensures after == prefix + Flatten(Indexed(sx, sy, sz, done + [c]))
  {
    IndexedAppend(sx, sy, sz, done, [c]);
    FlattenSnoc(Indexed(sx, sy, sz, done), q);
    assert prefix + Flatten(Indexed(sx, sy, sz, done)) + QuadIndices(q)
        == prefix + (Flatten(Indexed(sx, sy, sz, done)) + QuadIndices(q));
  }

  /** SetQuad with the quad of cell c: the buffer grows by that cell. */
  method WriteCell(triangles: array<int>, t: int, q: Quad, ghost sx: int, ghost sy: int, ghost sz: int,
                   ghost prefix: seq<int>, ghost done: seq<Cell>, ghost c: Cell)
    returns (next: int)
    requires 0 <= t && t + 6 <= triangles.Length
    requires Indexed(sx, sy, sz, [c]) == [q]
    requires triangles[..t] == prefix + Flatten(Indexed(sx, sy, sz, done))
    modifies triangles
    ensures next == t + 6
    ensures triangles[..next] == prefix + Flatten(Indexed(sx, sy, sz, done + [c]))
    ensures forall j :: next <= j < triangles.Length ==> triangles[j] == old(triangles[j])
  {
    ghost var before := triangles[..t];
    next := SetQuad(triangles, t, q.v00, q.v10, q.v01, q.v11);
    Emit(sx, sy, sz, prefix, done, c, q, before, triangles[..next]);
  }

  /** Writing the quads of a run of cells extends the buffer by those cells. */
  lemma EmitRun(sx: int, sy: int, sz: int, prefix: seq<int>, done: seq<Cell>, run: seq<Cell>,
                before: seq<int>, after: seq<int>)
    requires before == prefix + Flatten(Indexed(sx, sy, sz, done))
    requires after == before + Flatten(Indexed(sx, sy, sz, run))
    ensures after == prefix + Flatten(Indexed(sx, sy, sz, done + run))
  {
    IndexedAppend(sx, sy, sz, done, run);
    FlattenAppend(Indexed(sx, sy, sz, done), Indexed(sx, sy, sz, run));
    assert prefix + Flatten(Indexed(sx, sy, sz, done)) + Flatten(Indexed(sx, sy, sz, run))
        == prefix + (Flatten(Indexed(sx, sy, sz, done)) + Flatten(Indexed(sx, sy, sz, run)));
  }

  /** Moves the next cell from the cells to come to the cells written. */
  lemma Consume(whole: seq<Cell>, done: seq<Cell>, c: Cell, rest: seq<Cell>)
    requires whole == done + ([c] + rest)
    ensures whole == (done + [c]) + rest
  {
    assert done + ([c] + rest) == (done + [c]) + rest;
  }

  /** Before anything is written, all the cells are still to come. */
  lemma NothingDone(whole: seq<Cell>)
    ensures whole == [] + whole
  {
  }

  /** Moves a whole run of cells from the cells to come to the cells written. */
  lemma ConsumeRun(whole: seq<Cell>, done: seq<Cell>, run: seq<Cell>, rest: seq<Cell>)
    requires whole == done + (run + rest)
    ensures whole == (done + run) + rest
  {
    assert done + (run + rest) == (done + run) + rest;
  }

  // ---------------------------------------------------------------------------
  // Side walls: the quad written at cursor v = y * ring + q

  /** Inside a layer the quad (v, v + 1, v + ring, v + ring + 1) is the wall cell at ring position q. */
  lemma SideStep(sx: int, sy: int, sz: int, ring: int, y: int, k: int, v: int)
    requires ValidSize(sx, sy, sz) && ring == RingSize(sx, sz) && 0 <= y < sy && 0 <= k < ring - 1
    requires v == y * ring + k
    ensures Indexed(sx, sy, sz, [SideCell(sx, sz, y, k)]) == [Quad(v, v + 1, v + ring, v + ring + 1)]
  {
    SideQuadIndices(sx, sy, sz, y, k);
    MulStep(y, ring);
    Names(sx, sy, sz, SideCell(sx, sz, y, k), SideQuad(sx, sy, sz, y, k));
  }

  /** The wrap quad (v, v - ring + 1, v + ring, v + 1) is the wall cell closing the ring. */
  lemma SideWrapStep(sx: int, sy: int, sz: int, y: int, v: int)
    requires ValidSize(sx, sy, sz) && 0 <= y < sy
    requires v == y * RingSize(sx, sz) + RingSize(sx, sz) - 1
    ensures var ring := RingSize(sx, sz);
      Indexed(sx, sy, sz, [SideCell(sx, sz, y, ring - 1)]) == [Quad(v, v - ring + 1, v + ring, v + 1)]
  {
    var ring := RingSize(sx, sz);
    WrapQuadCloses(sx, sy, sz, y);
    Names(sx, sy, sz, SideCell(sx, sz, y, ring - 1), SideQuad(sx, sy, sz, y, ring - 1));
  }

  lemma SideSpanCellsFirst(sx: int, sz: int, y: int, k: int, hi: int)
    requires sx >= 1 && sz >= 1 && 0 <= k < hi <= RingSize(sx, sz)
    ensures SideSpanCells(sx, sz, y, k, hi) == [SideCell(sx, sz, y, k)] + SideSpanCells(sx, sz, y, k + 1, hi)
  {
  }

  /** A wall span grows at its end by the cell at its end position. */
  lemma SideSpanCellsLast(sx: int, sz: int, y: int, lo: int, k: int)
    requires sx >= 1 && sz >= 1 && 0 <= lo <= k < RingSize(sx, sz)
    ensures SideSpanCells(sx, sz, y, lo, k + 1) == SideSpanCells(sx, sz, y, lo, k) + [SideCell(sx, sz, y, k)]
  {
    SideSpanCellsSplit(sx, sz, y, lo, k, k + 1);
    SideSpanCellsFirst(sx, sz, y, k, k + 1);
  }

  /**
   * One inner run of a side-wall loop: the quads (v, v + 1, v + ring, v + ring + 1)
   * for the n ring positions lo .. lo + n - 1 of layer y, the cursor v starting
   * at y * ring + lo.  Returns the next free position and the advanced cursor.
   */
  method SideSpan(triangles: array<int>, t0: int, ring: int, v0: int, n: int,
                  ghost sx: int, ghost sy: int, ghost sz: int, ghost y: int, ghost lo: int, ghost hi: int)
    returns (t: int, v: int)
    requires ValidSize(sx, sy, sz) && ring == RingSize(sx, sz) && 0 <= y < sy
    requires 0 <= lo && 0 <= n && hi == lo + n && hi <= ring - 1 && v0 == y * ring + lo
    requires 0 <= t0 && t0 + 6 * n <= triangles.Length
    modifies triangles
    ensures t == t0 + 6 * n && v == v0 + n
    ensures triangles[..t] == old(triangles[..t0]) + Flatten(Indexed(sx, sy, sz, SideSpanCells(sx, sz, y, lo, hi)))
    ensures forall j :: t <= j < triangles.Length ==> triangles[j] == old(triangles[j])
  {
    ghost var prefix := triangles[..t0];
    t, v := t0, v0;
    var q := 0;
    ghost var k := lo;
    while q < n
      invariant 0 <= q <= n && k == lo + q && v == v0 + q && t == t0 + 6 * q
      invariant triangles[..t] == prefix + Flatten(Indexed(sx, sy, sz, SideSpanCells(sx, sz, y, lo, k)))
      invariant forall j :: t <= j < triangles.Length ==> triangles[j] == old(triangles[j])
    {
      t := SideSpanStep(triangles, t, ring, v, sx, sy, sz, y, lo, k, prefix);
      q, k, v := q + 1, k + 1, v + 1;
    }
    assert k == hi;
  }

  /** The first t entries of the buffer are the indices of the quads of the given cells, in order. */
  ghost predicate Wrote(triangles: array<int>, t: int, sx: int, sy: int, sz: int, cells: seq<Cell>)
    reads triangles
  {
    0 <= t <= triangles.Length && triangles[..t] == Flatten(Indexed(sx, sy, sz, cells))
  }

  /** SideSpan after the cells written so far: the buffer grows by the span's cells. */
  method SideSpanAfter(triangles: array<int>, t0: int, ring: int, v0: int, n: int,
                       ghost sx: int, ghost sy: int, ghost sz: int, ghost y: int, ghost lo: int, ghost hi: int,
                       ghost done: seq<Cell>)
    returns (t: int, v: int)
    requires ValidSize(sx, sy, sz) && ring == RingSize(sx, sz) && 0 <= y < sy
    requires 0 <= lo && 0 <= n && hi == lo + n && hi <= ring - 1 && v0 == y * ring + lo
    requires t0 + 6 * n <= triangles.Length && Wrote(triangles, t0, sx, sy, sz, done)
    modifies triangles
    ensures t == t0 + 6 * n && v == v0 + n
    ensures Wrote(triangles, t, sx, sy, sz, done + SideSpanCells(sx, sz, y, lo, hi))
    ensures forall j :: t <= j < triangles.Length ==> triangles[j] == old(triangles[j])
  {
    ghost var before := triangles[..t0];
    t, v := SideSpan(triangles, t0, ring, v0, n, sx, sy, sz, y, lo, hi);
    assert before == [] + Flatten(Indexed(sx, sy, sz, done));
    EmitRun(sx, sy, sz, [], done, SideSpanCells(sx, sz, y, lo, hi), before, triangles[..t]);
    assert [] + Flatten(Indexed(sx, sy, sz, done + SideSpanCells(sx, sz, y, lo, hi)))
        == Flatten(Indexed(sx, sy, sz, done + SideSpanCells(sx, sz, y, lo, hi)));
  }

  /** The wrap quad of layer y after the cells written so far: the buffer grows by the layer's last wall square. */
  method SideWrapAfter(triangles: array<int>, t0: int, ring: int, v: int,
                       ghost sx: int, ghost sy: int, ghost sz: int, ghost y: int, ghost done: seq<Cell>)
    returns (t: int)
    requires ValidSize(sx, sy, sz) && ring == RingSize(sx, sz) && 0 <= y < sy && v == y * ring + ring - 1
    requires t0 + 6 <= triangles.Length && Wrote(triangles, t0, sx, sy, sz, done)
    modifies triangles
    ensures t == t0 + 6
    ensures Wrote(triangles, t, sx, sy, sz, done + [SideCell(sx, sz, y, ring - 1)])
    ensures forall j :: t <= j < triangles.Length ==> triangles[j] == old(triangles[j])
  {
    ghost var c := SideCell(sx, sz, y, ring - 1);
    SideWrapStep(sx, sy, sz, y, v);
    assert triangles[..t0] == [] + Flatten(Indexed(sx, sy, sz, done));
    t := WriteCell(triangles, t0, Quad(v, v - ring + 1, v + ring, v + 1), sx, sy, sz, [], done, c);
    assert [] + Flatten(Indexed(sx, sy, sz, done + [c])) == Flatten(Indexed(sx, sy, sz, done + [c]));
  }

  /** The body of SideSpan: the quad at cursor v = y * ring + k extends the span lo .. k - 1 by position k. */
  method SideSpanStep(triangles: array<int>, t: int, ring: int, v: int,
                      ghost sx: int, ghost sy: int, ghost sz: int, ghost y: int, ghost lo: int, ghost k: int,
                      ghost prefix: seq<int>)
    returns (next: int)
    requires ValidSize(sx, sy, sz) && ring == RingSize(sx, sz) && 0 <= y < sy
    requires 0 <= lo <= k < ring - 1 && v == y * ring + k
    requires 0 <= t && t + 6 <= triangles.Length
    requires triangles[..t] == prefix + Flatten(Indexed(sx, sy, sz, SideSpanCells(sx, sz, y, lo, k)))
    modifies triangles
    ensures next == t + 6
    ensures triangles[..next] == prefix + Flatten(Indexed(sx, sy, sz, SideSpanCells(sx, sz, y, lo, k + 1)))
    ensures forall j :: next <= j < triangles.Length ==> triangles[j] == old(triangles[j])
  {
    SideStep(sx, sy, sz, ring, y, k, v);
    SideSpanCellsLast(sx, sz, y, lo, k);
    next := WriteCell(triangles, t, Quad(v, v + 1, v + ring, v + ring + 1), sx, sy, sz, prefix,
                      SideSpanCells(sx, sz, y, lo, k), SideCell(sx, sz, y, k));
  }

  // ---------------------------------------------------------------------------
  // Top face: which cell each SetQuad call of CreateTopFace names.  The cursors
  // start on the ring of the top layer (index ring * sizeY) and in the top
  // interior block (index ring * (sizeY + 1)); row z of the interior block
  // starts RowOffset(sizeX - 1, z - 1) further on.

  lemma TopFirstRowStep(sx: int, sy: int, sz: int, ring: int, x: int, v: int)
    requires ValidSize(sx, sy, sz) && sz >= 2 && ring == RingSize(sx, sz) && 0 <= x < sx - 1
    requires v == ring * sy + x
    ensures Indexed(sx, sy, sz, [TopCell(sy, x, 0)]) == [Quad(v, v + 1, v + ring - 1, v + ring)]
  {
    MulStep(sy, ring);
    Names(sx, sy, sz, TopCell(sy, x, 0), Quad(v, v + 1, v + ring - 1, v + ring));
  }

  lemma TopFirstRowEnd(sx: int, sy: int, sz: int, ring: int, v: int)
    requires ValidSize(sx, sy, sz) && sz >= 2 && ring == RingSize(sx, sz)
    requires v == ring * sy + sx - 1
    ensures Indexed(sx, sy, sz, [TopCell(sy, sx - 1, 0)]) == [Quad(v, v + 1, v + ring - 1, v + 2)]
  {
    MulStep(sy, ring);
    Names(sx, sy, sz, TopCell(sy, sx - 1, 0), Quad(v, v + 1, v + ring - 1, v + 2));
  }

  lemma TopRowStart(sx: int, sy: int, sz: int, ring: int, z: int, vMin: int, vMid: int)
    requires ValidSize(sx, sy, sz) && sx >= 2 && ring == RingSize(sx, sz) && 1 <= z < sz - 1
    requires vMin == ring * (sy + 1) - z
    requires vMid == ring * (sy + 1) + RowOffset(sx - 1, z - 1)
    ensures Indexed(sx, sy, sz, [TopCell(sy, 0, z)]) == [Quad(vMin, vMid, vMin - 1, vMid + sx - 1)]
  {
    RowOffsetProduct(sx - 1, z - 1);
    MulStep(z - 1, sx - 1);
    MulStep(sy, ring);
    Names(sx, sy, sz, TopCell(sy, 0, z), Quad(vMin, vMid, vMin - 1, vMid + sx - 1));
  }

  lemma TopRowInner(sx: int, sy: int, sz: int, ring: int, z: int, x: int, vMid: int)
    requires ValidSize(sx, sy, sz) && ring == RingSize(sx, sz) && 1 <= z < sz - 1 && 1 <= x < sx - 1
    requires vMid == ring * (sy + 1) + RowOffset(sx - 1, z - 1) + x - 1
    ensures Indexed(sx, sy, sz, [TopCell(sy, x, z)])
         == [Quad(vMid, vMid + 1, vMid + sx - 1, vMid + sx)]
  {
    RowOffsetProduct(sx - 1, z - 1);
    MulStep(z - 1, sx - 1);
    Names(sx, sy, sz, TopCell(sy, x, z), Quad(vMid, vMid + 1, vMid + sx - 1, vMid + sx));
  }

  lemma TopRowEnd(sx: int, sy: int, sz: int, ring: int, z: int, vMid: int, vMax: int)
    requires ValidSize(sx, sy, sz) && sx >= 2 && ring == RingSize(sx, sz) && 1 <= z < sz - 1
    requires vMid == ring * (sy + 1) + RowOffset(sx - 1, z - 1) + sx - 2
    requires vMax == ring * sy + sx + z
    ensures Indexed(sx, sy, sz, [TopCell(sy, sx - 1, z)])
         == [Quad(vMid, vMax, vMid + sx - 1, vMax + 1)]
  {
    RowOffsetProduct(sx - 1, z - 1);
    MulStep(z - 1, sx - 1);
    Names(sx, sy, sz, TopCell(sy, sx - 1, z), Quad(vMid, vMax, vMid + sx - 1, vMax + 1));
  }

  lemma TopLastRowStart(sx: int, sy: int, sz: int, ring: int, z: int, vMin: int, vMid: int, vTop: int)
    requires ValidSize(sx, sy, sz) && sx >= 2 && ring == RingSize(sx, sz) && 1 <= z == sz - 1
    requires vMin == ring * (sy + 1) - z
    requires vMid == ring * (sy + 1) + RowOffset(sx - 1, z - 1)
    requires vTop == vMin - 2
    ensures Indexed(sx, sy, sz, [TopCell(sy, 0, z)]) == [Quad(vMin, vMid, vTop + 1, vTop)]
  {
    RowOffsetProduct(sx - 1, z - 1);
    MulStep(sy, ring);
    Names(sx, sy, sz, TopCell(sy, 0, z), Quad(vMin, vMid, vTop + 1, vTop));
  }

  lemma TopLastRowInner(sx: int, sy: int, sz: int, ring: int, z: int, x: int, vMid: int, vTop: int)
    requires ValidSize(sx, sy, sz) && ring == RingSize(sx, sz) && 1 <= z == sz - 1 && 1 <= x < sx - 1
    requires vMid == ring * (sy + 1) + RowOffset(sx - 1, z - 1) + x - 1
    requires vTop == ring * (sy + 1) - sz - x
    ensures Indexed(sx, sy, sz, [TopCell(sy, x, z)]) == [Quad(vMid, vMid + 1, vTop, vTop - 1)]
  {
    RowOffsetProduct(sx - 1, z - 1);
    MulStep(sy, ring);
    Names(sx, sy, sz, TopCell(sy, x, z), Quad(vMid, vMid + 1, vTop, vTop - 1));
  }

  lemma TopLastRowEnd(sx: int, sy: int, sz: int, ring: int, z: int, vMid: int, vTop: int)
    requires ValidSize(sx, sy, sz) && sx >= 2 && ring == RingSize(sx, sz) && 1 <= z == sz - 1
    requires vMid == ring * (sy + 1) + RowOffset(sx - 1, z - 1) + sx - 2
    requires vTop == ring * (sy + 1) - sz - (sx - 1)
    ensures Indexed(sx, sy, sz, [TopCell(sy, sx - 1, z)]) == [Quad(vMid, vTop - 2, vTop, vTop - 1)]
  {
    RowOffsetProduct(sx - 1, z - 1);
    MulStep(sy, ring);
    Names(sx, sy, sz, TopCell(sy, sx - 1, z), Quad(vMid, vTop - 2, vTop, vTop - 1));
  }

  /**
   * Writes the top cap after position t0: the row along the front edge, then the
   * middle rows, which join the interior grid to the left and right edges of the
   * top ring, then the row along the back edge.  With at least two cells along x
   * and along z these are exactly the cells of the top face, row by row.
   */
  method CreateTopFace(triangles: array<int>, t0: int, ring: int, sx: int, sy: int, sz: int)
    returns (t: int)
    requires ValidSize(sx, sy, sz) && sx >= 2 && sz >= 2 && ring == RingSize(sx, sz)
    requires 0 <= t0 && t0 + 6 * (sx * sz) <= triangles.Length
    modifies triangles
    ensures t == t0 + 6 * (sx * sz)
    ensures triangles[..t] == old(triangles[..t0]) + Flatten(TopCap(sx, sy, sz))
    ensures forall j :: t <= j < triangles.Length ==> triangles[j] == old(triangles[j])
  {
    ghost var prefix := triangles[..t0];
    ghost var whole := TopCapCells(sx, sy, 0, sz);
    ghost var done: seq<Cell> := [];
    TopCapCellsLength(sx, sy, 0, sz);
    TopRowCellsLength(sy, 0, 0, sx);

    var v;
    t, v := TopFirstRow(triangles, t0, ring, sx, sy, sz);
    ghost var row := TopRowCells(sy, 0, 0, sx);
    EmitRun(sx, sy, sz, prefix, done, row, prefix, triangles[..t]);
    ConsumeRun(whole, done, row, TopCapCells(sx, sy, 1, sz));
    done := done + row;

    var vMin := ring * (sy + 1) - 1;
    var vMid := vMin + 1;
    var vMax := v + 2;
    var z := 1;
    while z < sz - 1
      invariant 1 <= z <= sz - 1
      invariant vMin == ring * (sy + 1) - z && vMax == ring * sy + sx + z
      invariant vMid == ring * (sy + 1) + RowOffset(sx - 1, z - 1)
      invariant t == t0 + 6 * |done|
      invariant whole == done + TopCapCells(sx, sy, z, sz)
      invariant triangles[..t] == prefix + Flatten(Indexed(sx, sy, sz, done))
      invariant forall j :: t <= j < triangles.Length ==> triangles[j] == old(triangles[j])
    {
      row := TopRowCells(sy, z, 0, sx);
      TopRowCellsLength(sy, z, 0, sx);
      ghost var before := triangles[..t];
      t, vMid := TopMiddleRow(triangles, t, ring, sx, sy, sz, z, vMin, vMid, vMax);
      EmitRun(sx, sy, sz, prefix, done, row, before, triangles[..t]);
      ConsumeRun(whole, done, row, TopCapCells(sx, sy, z + 1, sz));
      done := done + row;
      z, vMin, vMid, vMax := z + 1, vMin - 1, vMid + 1, vMax + 1;
    }

    row := TopRowCells(sy, z, 0, sx);
    TopRowCellsLength(sy, z, 0, sx);
    ghost var before := triangles[..t];
    t := TopLastRow(triangles, t, ring, sx, sy, sz, z, vMin, vMid);
    EmitRun(sx, sy, sz, prefix, done, row, before, triangles[..t]);
    ConsumeRun(whole, done, row, TopCapCells(sx, sy, z + 1, sz));
    done := done + row;
    assert done == whole;
  }

  /** The row along the front edge of the top face; returns the cursor v at its last cell. */
  method TopFirstRow(triangles: array<int>, t0: int, ring: int, sx: int, sy: int, sz: int)
    returns (t: int, v: int)
    requires ValidSize(sx, sy, sz) && sz >= 2 && ring == RingSize(sx, sz)
    requires 0 <= t0 && t0 + 6 * sx <= triangles.Length
    modifies triangles
    ensures t == t0 + 6 * sx && v == ring * sy + sx - 1
    ensures triangles[..t] == old(triangles[..t0]) + Flatten(Indexed(sx, sy, sz, TopRowCells(sy, 0, 0, sx)))
    ensures forall j :: t <= j < triangles.Length ==> triangles[j] == old(triangles[j])
  {
    ghost var prefix := triangles[..t0];
    ghost var whole := TopRowCells(sy, 0, 0, sx);
    ghost var done: seq<Cell> := [];
    TopRowCellsLength(sy, 0, 0, sx);
    t := t0;
    v := ring * sy;
    var x := 0;
    while x < sx - 1
      invariant 0 <= x <= sx - 1 && v == ring * sy + x
      invariant t == t0 + 6 * |done|
      invariant whole == done + TopRowCells(sy, 0, x, sx)
      invariant triangles[..t] == prefix + Flatten(Indexed(sx, sy, sz, done))
      invariant forall j :: t <= j < triangles.Length ==> triangles[j] == old(triangles[j])
    {
      ghost var c := TopCell(sy, x, 0);
      TopFirstRowStep(sx, sy, sz, ring, x, v);
      assert TopRowCells(sy, 0, x, sx) == [c] + TopRowCells(sy, 0, x + 1, sx);
      Consume(whole, done, c, TopRowCells(sy, 0, x + 1, sx));
      t := WriteCell(triangles, t, Quad(v, v + 1, v + ring - 1, v + ring), sx, sy, sz, prefix, done, c);
      done := done + [c];
      x, v := x + 1, v + 1;
    }
    ghost var c := TopCell(sy, sx - 1, 0);
    TopFirstRowEnd(sx, sy, sz, ring, v);
    assert TopRowCells(sy, 0, sx - 1, sx) == [c] + TopRowCells(sy, 0, sx, sx);
    Consume(whole, done, c, TopRowCells(sy, 0, sx, sx));
    t := WriteCell(triangles, t, Quad(v, v + 1, v + ring - 1, v + 2), sx, sy, sz, prefix, done, c);
    done := done + [c];
    assert done == whole;
  }

  /**
   * Middle row z of the top face: the cell on the left edge, the interior cells,
   * the cell on the right edge; returns the cursor vMid at its last cell.
   */
  method TopMiddleRow(triangles: array<int>, t0: int, ring: int, sx: int, sy: int, sz: int,
                      z: int, vMin: int, vMid0: int, vMax: int)
    returns (t: int, vMid: int)
    requires ValidSize(sx, sy, sz) && sx >= 2 && ring == RingSize(sx, sz) && 1 <= z < sz - 1
    requires vMin == ring * (sy + 1) - z && vMax == ring * sy + sx + z
    requires vMid0 == ring * (sy + 1) + RowOffset(sx - 1, z - 1)
    requires 0 <= t0 && t0 + 6 * sx <= triangles.Length
    modifies triangles
    ensures t == t0 + 6 * sx && vMid == vMid0 + sx - 2
    ensures triangles[..t] == old(triangles[..t0]) + Flatten(Indexed(sx, sy, sz, TopRowCells(sy, z, 0, sx)))
    ensures forall j :: t <= j < triangles.Length ==> triangles[j] == old(triangles[j])
  {
    ghost var prefix := triangles[..t0];
    ghost var whole := TopRowCells(sy, z, 0, sx);
    ghost var done: seq<Cell> := [];
    TopRowCellsLength(sy, z, 0, sx);
    vMid := vMid0;

    ghost var c := TopCell(sy, 0, z);
    TopRowStart(sx, sy, sz, ring, z, vMin, vMid);
    assert TopRowCells(sy, z, 0, sx) == [c] + TopRowCells(sy, z, 1, sx);
    Consume(whole, done, c, TopRowCells(sy, z, 1, sx));
    t := WriteCell(triangles, t0, Quad(vMin, vMid, vMin - 1, vMid + sx - 1), sx, sy, sz, prefix, done, c);
    done := done + [c];
    var x := 1;
    while x < sx - 1
      invariant 1 <= x <= sx - 1 && vMid == vMid0 + x - 1
      invariant t == t0 + 6 * |done|
      invariant whole == done + TopRowCells(sy, z, x, sx)
      invariant triangles[..t] == prefix + Flatten(Indexed(sx, sy, sz, done))
      invariant forall j :: t <= j < triangles.Length ==> triangles[j] == old(triangles[j])
    {
      c := TopCell(sy, x, z);
      TopRowInner(sx, sy, sz, ring, z, x, vMid);
      assert TopRowCells(sy, z, x, sx) == [c] + TopRowCells(sy, z, x + 1, sx);
      Consume(whole, done, c, TopRowCells(sy, z, x + 1, sx));
      t := WriteCell(triangles, t, Quad(vMid, vMid + 1, vMid + sx - 1, vMid + sx), sx, sy, sz, prefix, done, c);
      done := done + [c];
      x, vMid := x + 1, vMid + 1;
    }
    c := TopCell(sy, sx - 1, z);
    TopRowEnd(sx, sy, sz, ring, z, vMid, vMax);
    assert TopRowCells(sy, z, sx - 1, sx) == [c] + TopRowCells(sy, z, sx, sx);
    Consume(whole, done, c, TopRowCells(sy, z, sx, sx));
    t := WriteCell(triangles, t, Quad(vMid, vMax, vMid + sx - 1, vMax + 1), sx, sy, sz, prefix, done, c);
    done := done + [c];
    assert done == whole;
  }

  /** The row along the back edge of the top face, row z = sizeZ - 1. */
  method TopLastRow(triangles: array<int>, t0: int, ring: int, sx: int, sy: int, sz: int,
                    z: int, vMin: int, vMid0: int)
    returns (t: int)
    requires ValidSize(sx, sy, sz) && sx >= 2 && ring == RingSize(sx, sz) && 1 <= z == sz - 1
    requires vMin == ring * (sy + 1) - z
    requires vMid0 == ring * (sy + 1) + RowOffset(sx - 1, z - 1)
    requires 0 <= t0 && t0 + 6 * sx <= triangles.Length
    modifies triangles
    ensures t == t0 + 6 * sx
    ensures triangles[..t] == old(triangles[..t0]) + Flatten(Indexed(sx, sy, sz, TopRowCells(sy, z, 0, sx)))
    ensures forall j :: t <= j < triangles.Length ==> triangles[j] == old(triangles[j])
  {
    ghost var prefix := triangles[..t0];
    ghost var whole := TopRowCells(sy, z, 0, sx);
    ghost var done: seq<Cell> := [];
    TopRowCellsLength(sy, z, 0, sx);
    var vMid := vMid0;

    var vTop := vMin - 2;
    ghost var c := TopCell(sy, 0, z);
    TopLastRowStart(sx, sy, sz, ring, z, vMin, vMid, vTop);
    assert TopRowCells(sy, z, 0, sx) == [c] + TopRowCells(sy, z, 1, sx);
    Consume(whole, done, c, TopRowCells(sy, z, 1, sx));
    t := WriteCell(triangles, t0, Quad(vMin, vMid, vTop + 1, vTop), sx, sy, sz, prefix, done, c);
    done := done + [c];
    var x := 1;
    while x < sx - 1
      invariant 1 <= x <= sx - 1 && vMid == vMid0 + x - 1
      invariant vTop == ring * (sy + 1) - sz - x
      invariant t == t0 + 6 * |done|
      invariant whole == done + TopRowCells(sy, z, x, sx)
      invariant triangles[..t] == prefix + Flatten(Indexed(sx, sy, sz, done))
      invariant forall j :: t <= j < triangles.Length ==> triangles[j] == old(triangles[j])
    {
      c := TopCell(sy, x, z);
      TopLastRowInner(sx, sy, sz, ring, z, x, vMid, vTop);
      assert TopRowCells(sy, z, x, sx) == [c] + TopRowCells(sy, z, x + 1, sx);
      Consume(whole, done, c, TopRowCells(sy, z, x + 1, sx));
      t := WriteCell(triangles, t, Quad(vMid, vMid + 1, vTop, vTop - 1), sx, sy, sz, prefix, done, c);
      done := done + [c];
      x, vTop, vMid := x + 1, vTop - 1, vMid + 1;
    }
    c := TopCell(sy, sx - 1, z);
    TopLastRowEnd(sx, sy, sz, ring, z, vMid, vTop);
    assert TopRowCells(sy, z, sx - 1, sx) == [c] + TopRowCells(sy, z, sx, sx);
    Consume(whole, done, c, TopRowCells(sy, z, sx, sx));
    t := WriteCell(triangles, t, Quad(vMid, vTop - 2, vTop, vTop - 1), sx, sy, sz, prefix, done, c);
    done := done + [c];
    assert done == whole;
  }

  // ---------------------------------------------------------------------------
  // Bottom face: which cell each SetQuad call of CreateBottomFace names.  The
  // cursors start on the bottom ring (index 0) and in the bottom interior block,
  // which starts at bbase, the vertex count less the (sizeX - 1) * (sizeZ - 1)
  // bottom-interior points.

  lemma BottomFirstRowStart(sx: int, sy: int, sz: int, ring: int, bbase: int, vMid: int)
    requires ValidSize(sx, sy, sz) && sx >= 2 && sz >= 2 && ring == RingSize(sx, sz)
    requires bbase == RingsEnd(sx, sy, sz) + InteriorCount(sx, sz) && vMid == bbase
    ensures Indexed(sx, sy, sz, [BottomCell(0, 0)]) == [Quad(ring - 1, vMid, 0, 1)]
  {
    Names(sx, sy, sz, BottomCell(0, 0), Quad(ring - 1, vMid, 0, 1));
  }

  lemma BottomFirstRowStep(sx: int, sy: int, sz: int, ring: int, bbase: int, x: int, v: int, vMid: int)
    requires ValidSize(sx, sy, sz) && sz >= 2 && ring == RingSize(sx, sz) && 1 <= x < sx - 1
    requires bbase == RingsEnd(sx, sy, sz) + InteriorCount(sx, sz)
    requires v == x && vMid == bbase + x - 1
    ensures Indexed(sx, sy, sz, [BottomCell(x, 0)]) == [Quad(vMid, vMid + 1, v, v + 1)]
  {
    Names(sx, sy, sz, BottomCell(x, 0), Quad(vMid, vMid + 1, v, v + 1));
  }

  lemma BottomFirstRowEnd(sx: int, sy: int, sz: int, ring: int, bbase: int, v: int, vMid: int)
    requires ValidSize(sx, sy, sz) && sx >= 2 && sz >= 2 && ring == RingSize(sx, sz)
    requires bbase == RingsEnd(sx, sy, sz) + InteriorCount(sx, sz)
    requires v == sx - 1 && vMid == bbase + sx - 2
    ensures Indexed(sx, sy, sz, [BottomCell(sx - 1, 0)]) == [Quad(vMid, v + 2, v, v + 1)]
  {
    Names(sx, sy, sz, BottomCell(sx - 1, 0), Quad(vMid, v + 2, v, v + 1));
  }

  lemma BottomRowStart(sx: int, sy: int, sz: int, ring: int, bbase: int, z: int, vMin: int, vMid: int)
    requires ValidSize(sx, sy, sz) && sx >= 2 && ring == RingSize(sx, sz) && 1 <= z < sz - 1
    requires bbase == RingsEnd(sx, sy, sz) + InteriorCount(sx, sz)
    requires vMin == ring - 1 - z && vMid == bbase + RowOffset(sx - 1, z - 1)
    ensures Indexed(sx, sy, sz, [BottomCell(0, z)]) == [Quad(vMin, vMid + sx - 1, vMin + 1, vMid)]
  {
    RowOffsetProduct(sx - 1, z - 1);
    MulStep(z - 1, sx - 1);
    Names(sx, sy, sz, BottomCell(0, z), Quad(vMin, vMid + sx - 1, vMin + 1, vMid));
  }

  lemma BottomRowInner(sx: int, sy: int, sz: int, ring: int, bbase: int, z: int, x: int, vMid: int)
    requires ValidSize(sx, sy, sz) && ring == RingSize(sx, sz) && 1 <= z < sz - 1 && 1 <= x < sx - 1
    requires bbase == RingsEnd(sx, sy, sz) + InteriorCount(sx, sz)
    requires vMid == bbase + RowOffset(sx - 1, z - 1) + x - 1
    ensures Indexed(sx, sy, sz, [BottomCell(x, z)])
         == [Quad(vMid + sx - 1, vMid + sx, vMid, vMid + 1)]
  {
    RowOffsetProduct(sx - 1, z - 1);
    MulStep(z - 1, sx - 1);
    Names(sx, sy, sz, BottomCell(x, z), Quad(vMid + sx - 1, vMid + sx, vMid, vMid + 1));
  }

  lemma BottomRowEnd(sx: int, sy: int, sz: int, ring: int, bbase: int, z: int, vMid: int, vMax: int)
    requires ValidSize(sx, sy, sz) && sx >= 2 && ring == RingSize(sx, sz) && 1 <= z < sz - 1
    requires bbase == RingsEnd(sx, sy, sz) + InteriorCount(sx, sz)
    requires vMid == bbase + RowOffset(sx - 1, z - 1) + sx - 2 && vMax == sx + z
    ensures Indexed(sx, sy, sz, [BottomCell(sx - 1, z)])
         == [Quad(vMid + sx - 1, vMax + 1, vMid, vMax)]
  {
    RowOffsetProduct(sx - 1, z - 1);
    MulStep(z - 1, sx - 1);
    Names(sx, sy, sz, BottomCell(sx - 1, z), Quad(vMid + sx - 1, vMax + 1, vMid, vMax));
  }

  lemma BottomLastRowStart(sx: int, sy: int, sz: int, ring: int, bbase: int, z: int, vMid: int, vTop: int)
    requires ValidSize(sx, sy, sz) && sx >= 2 && ring == RingSize(sx, sz) && 1 <= z == sz - 1
    requires bbase == RingsEnd(sx, sy, sz) + InteriorCount(sx, sz)
    requires vMid == bbase + RowOffset(sx - 1, z - 1) && vTop == ring - sz - 1
    ensures Indexed(sx, sy, sz, [BottomCell(0, z)]) == [Quad(vTop + 1, vTop, vTop + 2, vMid)]
  {
    RowOffsetProduct(sx - 1, z - 1);
    Names(sx, sy, sz, BottomCell(0, z), Quad(vTop + 1, vTop, vTop + 2, vMid));
  }

  lemma BottomLastRowInner(sx: int, sy: int, sz: int, ring: int, bbase: int, z: int, x: int, vMid: int, vTop: int)
    requires ValidSize(sx, sy, sz) && ring == RingSize(sx, sz) && 1 <= z == sz - 1 && 1 <= x < sx - 1
    requires bbase == RingsEnd(sx, sy, sz) + InteriorCount(sx, sz)
    requires vMid == bbase + RowOffset(sx - 1, z - 1) + x - 1 && vTop == ring - sz - x
    ensures Indexed(sx, sy, sz, [BottomCell(x, z)]) == [Quad(vTop, vTop - 1, vMid, vMid + 1)]
  {
    RowOffsetProduct(sx - 1, z - 1);
    Names(sx, sy, sz, BottomCell(x, z), Quad(vTop, vTop - 1, vMid, vMid + 1));
  }

  lemma BottomLastRowEnd(sx: int, sy: int, sz: int, ring: int, bbase: int, z: int, vMid: int, vTop: int)
    requires ValidSize(sx, sy, sz) && sx >= 2 && ring == RingSize(sx, sz) && 1 <= z == sz - 1
    requires bbase == RingsEnd(sx, sy, sz) + InteriorCount(sx, sz)
    requires vMid == bbase + RowOffset(sx - 1, z - 1) + sx - 2 && vTop == ring - sz - (sx - 1)
    ensures Indexed(sx, sy, sz, [BottomCell(sx - 1, z)]) == [Quad(vTop, vTop - 1, vMid, vTop - 2)]
  {
    RowOffsetProduct(sx - 1, z - 1);
    Names(sx, sy, sz, BottomCell(sx - 1, z), Quad(vTop, vTop - 1, vMid, vTop - 2));
  }

  /** The bottom-interior block is the last (sizeX - 1) * (sizeZ - 1) vertices. */
  lemma BottomInteriorStart(sx: int, sy: int, sz: int, vertexCount: int)
    requires ValidSize(sx, sy, sz) && vertexCount == VertexCount(sx, sy, sz)
    ensures vertexCount - (sx - 1) * (sz - 1) == RingsEnd(sx, sy, sz) + InteriorCount(sx, sz)
  {
    VertexCountByLayers(sx, sy, sz);
  }

  /**
   * Writes the bottom cap after position t0, row by row from the front edge to
   * the back edge; vertexCount is the length of the vertex buffer, from which
   * the start of the bottom-interior block is found.  With at least two cells
   * along x and along z these are exactly the cells of the bottom face.
   */
  method CreateBottomFace(triangles: array<int>, t0: int, ring: int, vertexCount: int,
                          sx: int, sy: int, sz: int)
    returns (t: int)
    requires ValidSize(sx, sy, sz) && sx >= 2 && sz >= 2 && ring == RingSize(sx, sz)
    requires vertexCount == VertexCount(sx, sy, sz)
    requires 0 <= t0 && t0 + 6 * (sx * sz) <= triangles.Length
    modifies triangles
    ensures t == t0 + 6 * (sx * sz)
    ensures triangles[..t] == old(triangles[..t0]) + Flatten(BottomCap(sx, sy, sz))
    ensures forall j :: t <= j < triangles.Length ==> triangles[j] == old(triangles[j])
  {
    ghost var prefix := triangles[..t0];
    ghost var whole := BottomCapCells(sx, 0, sz);
    ghost var done: seq<Cell> := [];
    BottomCapCellsLength(sx, 0, sz);
    BottomRowCellsLength(0, 0, sx);

    var vMid := vertexCount - (sx - 1) * (sz - 1);
    BottomInteriorStart(sx, sy, sz, vertexCount);
    ghost var bbase := vMid;
    var v;
    t, v, vMid := BottomFirstRow(triangles, t0, ring, sx, sy, sz, vMid);
    ghost var row := BottomRowCells(0, 0, sx);
    EmitRun(sx, sy, sz, prefix, done, row, prefix, triangles[..t]);
    ConsumeRun(whole, done, row, BottomCapCells(sx, 1, sz));
    done := done + row;

    var vMin := ring - 2;
    vMid := vMid - (sx - 2);
    var vMax := v + 2;
    var z := 1;
    while z < sz - 1
      invariant 1 <= z <= sz - 1
      invariant vMin == ring - 1 - z && vMax == sx + z
      invariant vMid == bbase + RowOffset(sx - 1, z - 1)
      invariant t == t0 + 6 * |done|
      invariant whole == done + BottomCapCells(sx, z, sz)
      invariant triangles[..t] == prefix + Flatten(Indexed(sx, sy, sz, done))
      invariant forall j :: t <= j < triangles.Length ==> triangles[j] == old(triangles[j])
    {
      row := BottomRowCells(z, 0, sx);
      BottomRowCellsLength(z, 0, sx);
      ghost var before := triangles[..t];
      t, vMid := BottomMiddleRow(triangles, t, ring, sx, sy, sz, bbase, z, vMin, vMid, vMax);
      EmitRun(sx, sy, sz, prefix, done, row, before, triangles[..t]);
      ConsumeRun(whole, done, row, BottomCapCells(sx, z + 1, sz));
      done := done + row;
      z, vMin, vMid, vMax := z + 1, vMin - 1, vMid + 1, vMax + 1;
    }

    row := BottomRowCells(z, 0, sx);
    BottomRowCellsLength(z, 0, sx);
    ghost var before := triangles[..t];
    t := BottomLastRow(triangles, t, ring, sx, sy, sz, bbase, z, vMin, vMid);
    EmitRun(sx, sy, sz, prefix, done, row, before, triangles[..t]);
    ConsumeRun(whole, done, row, BottomCapCells(sx, z + 1, sz));
    done := done + row;
    assert done == whole;
  }

  /**
   * The row along the front edge of the bottom face; returns the cursors v and
   * vMid at its last cell.
   */
  method BottomFirstRow(triangles: array<int>, t0: int, ring: int, sx: int, sy: int, sz: int,
                        vMid0: int)
    returns (t: int, v: int, vMid: int)
    requires ValidSize(sx, sy, sz) && sx >= 2 && sz >= 2 && ring == RingSize(sx, sz)
    requires vMid0 == RingsEnd(sx, sy, sz) + InteriorCount(sx, sz)
    requires 0 <= t0 && t0 + 6 * sx <= triangles.Length
    modifies triangles
    ensures t == t0 + 6 * sx && v == sx - 1 && vMid == vMid0 + sx - 2
    ensures triangles[..t] == old(triangles[..t0]) + Flatten(Indexed(sx, sy, sz, BottomRowCells(0, 0, sx)))
    ensures forall j :: t <= j < triangles.Length ==> triangles[j] == old(triangles[j])
  {
    ghost var prefix := triangles[..t0];
    ghost var whole := BottomRowCells(0, 0, sx);
    ghost var done: seq<Cell> := [];
    BottomRowCellsLength(0, 0, sx);
    ghost var bbase := vMid0;
    v := 1;
    vMid := vMid0;

    ghost var c := BottomCell(0, 0);
    BottomFirstRowStart(sx, sy, sz, ring, bbase, vMid);
    assert BottomRowCells(0, 0, sx) == [c] + BottomRowCells(0, 1, sx);
    Consume(whole, done, c, BottomRowCells(0, 1, sx));
    t := WriteCell(triangles, t0, Quad(ring - 1, vMid, 0, 1), sx, sy, sz, prefix, done, c);
    done := done + [c];
    var x := 1;
    while x < sx - 1
      invariant 1 <= x <= sx - 1 && v == x && vMid == bbase + x - 1
      invariant t == t0 + 6 * |done|
      invariant whole == done + BottomRowCells(0, x, sx)
      invariant triangles[..t] == prefix + Flatten(Indexed(sx, sy, sz, done))
      invariant forall j :: t <= j < triangles.Length ==> triangles[j] == old(triangles[j])
    {
      c := BottomCell(x, 0);
      BottomFirstRowStep(sx, sy, sz, ring, bbase, x, v, vMid);
      assert BottomRowCells(0, x, sx) == [c] + BottomRowCells(0, x + 1, sx);
      Consume(whole, done, c, BottomRowCells(0, x + 1, sx));
      t := WriteCell(triangles, t, Quad(vMid, vMid + 1, v, v + 1), sx, sy, sz, prefix, done, c);
      done := done + [c];
      x, v, vMid := x + 1, v + 1, vMid + 1;
    }
    c := BottomCell(sx - 1, 0);
    BottomFirstRowEnd(sx, sy, sz, ring, bbase, v, vMid);
    assert BottomRowCells(0, sx - 1, sx) == [c] + BottomRowCells(0, sx, sx);
    Consume(whole, done, c, BottomRowCells(0, sx, sx));
    t := WriteCell(triangles, t, Quad(vMid, v + 2, v, v + 1), sx, sy, sz, prefix, done, c);
    done := done + [c];
    assert done == whole;
  }

  /**
   * Middle row z of the bottom face: the cell on the left edge, the interior
   * cells, the cell on the right edge; returns the cursor vMid at its last cell.
   */
  method BottomMiddleRow(triangles: array<int>, t0: int, ring: int, sx: int, sy: int, sz: int,
                         ghost bbase: int, z: int, vMin: int, vMid0: int, vMax: int)
    returns (t: int, vMid: int)
    requires ValidSize(sx, sy, sz) && sx >= 2 && ring == RingSize(sx, sz) && 1 <= z < sz - 1
    requires bbase == RingsEnd(sx, sy, sz) + InteriorCount(sx, sz)
    requires vMin == ring - 1 - z && vMax == sx + z
    requires vMid0 == bbase + RowOffset(sx - 1, z - 1)
    requires 0 <= t0 && t0 + 6 * sx <= triangles.Length
    modifies triangles
    ensures t == t0 + 6 * sx && vMid == vMid0 + sx - 2
    ensures triangles[..t] == old(triangles[..t0]) + Flatten(Indexed(sx, sy, sz, BottomRowCells(z, 0, sx)))
    ensures forall j :: t <= j < triangles.Length ==> triangles[j] == old(triangles[j])
  {
    ghost var prefix := triangles[..t0];
    ghost var whole := BottomRowCells(z, 0, sx);
    ghost var done: seq<Cell> := [];
    BottomRowCellsLength(z, 0, sx);
    vMid := vMid0;

    ghost var c := BottomCell(0, z);
    BottomRowStart(sx, sy, sz, ring, bbase, z, vMin, vMid);
    assert BottomRowCells(z, 0, sx) == [c] + BottomRowCells(z, 1, sx);
    Consume(whole, done, c, BottomRowCells(z, 1, sx));
    t := WriteCell(triangles, t0, Quad(vMin, vMid + sx - 1, vMin + 1, vMid), sx, sy, sz, prefix, done, c);
    done := done + [c];
    var x := 1;
    while x < sx - 1
      invariant 1 <= x <= sx - 1 && vMid == vMid0 + x - 1
      invariant t == t0 + 6 * |done|
      invariant whole == done + BottomRowCells(z, x, sx)
      invariant triangles[..t] == prefix + Flatten(Indexed(sx, sy, sz, done))
      invariant forall j :: t <= j < triangles.Length ==> triangles[j] == old(triangles[j])
    {
      c := BottomCell(x, z);
      BottomRowInner(sx, sy, sz, ring, bbase, z, x, vMid);
      assert BottomRowCells(z, x, sx) == [c] + BottomRowCells(z, x + 1, sx);
      Consume(whole, done, c, BottomRowCells(z, x + 1, sx));
      t := WriteCell(triangles, t, Quad(vMid + sx - 1, vMid + sx, vMid, vMid + 1), sx, sy, sz, prefix, done, c);
      done := done + [c];
      x, vMid := x + 1, vMid + 1;
    }
    c := BottomCell(sx - 1, z);
    BottomRowEnd(sx, sy, sz, ring, bbase, z, vMid, vMax);
    assert BottomRowCells(z, sx - 1, sx) == [c] + BottomRowCells(z, sx, sx);
    Consume(whole, done, c, BottomRowCells(z, sx, sx));
    t := WriteCell(triangles, t, Quad(vMid + sx - 1, vMax + 1, vMid, vMax), sx, sy, sz, prefix, done, c);
    done := done + [c];
    assert done == whole;
  }

  /** The row along the back edge of the bottom face, row z = sizeZ - 1. */
  method BottomLastRow(triangles: array<int>, t0: int, ring: int, sx: int, sy: int, sz: int,
                       ghost bbase: int, z: int, vMin: int, vMid0: int)
    returns (t: int)
    requires ValidSize(sx, sy, sz) && sx >= 2 && ring == RingSize(sx, sz) && 1 <= z == sz - 1
    requires bbase == RingsEnd(sx, sy, sz) + InteriorCount(sx, sz)
    requires vMin == ring - 1 - z
    requires vMid0 == bbase + RowOffset(sx - 1, z - 1)
    requires 0 <= t0 && t0 + 6 * sx <= triangles.Length
    modifies triangles
    ensures t == t0 + 6 * sx
    ensures triangles[..t] == old(triangles[..t0]) + Flatten(Indexed(sx, sy, sz, BottomRowCells(z, 0, sx)))
    ensures forall j :: t <= j < triangles.Length ==> triangles[j] == old(triangles[j])
  {
    ghost var prefix := triangles[..t0];
    ghost var whole := BottomRowCells(z, 0, sx);
    ghost var done: seq<Cell> := [];
    BottomRowCellsLength(z, 0, sx);
    var vMid := vMid0;

    var vTop := vMin - 1;
    ghost var c := BottomCell(0, z);
    BottomLastRowStart(sx, sy, sz, ring, bbase, z, vMid, vTop);
    assert BottomRowCells(z, 0, sx) == [c] + BottomRowCells(z, 1, sx);
    Consume(whole, done, c, BottomRowCells(z, 1, sx));
    t := WriteCell(triangles, t0, Quad(vTop + 1, vTop, vTop + 2, vMid), sx, sy, sz, prefix, done, c);
    done := done + [c];
    var x := 1;
    while x < sx - 1
      invariant 1 <= x <= sx - 1 && vMid == vMid0 + x - 1 && vTop == ring - sz - x
      invariant t == t0 + 6 * |done|
      invariant whole == done + BottomRowCells(z, x, sx)
      invariant triangles[..t] == prefix + Flatten(Indexed(sx, sy, sz, done))
      invariant forall j :: t <= j < triangles.Length ==> triangles[j] == old(triangles[j])
    {
      c := BottomCell(x, z);
      BottomLastRowInner(sx, sy, sz, ring, bbase, z, x, vMid, vTop);
      assert BottomRowCells(z, x, sx) == [c] + BottomRowCells(z, x + 1, sx);
      Consume(whole, done, c, BottomRowCells(z, x + 1, sx));
      t := WriteCell(triangles, t, Quad(vTop, vTop - 1, vMid, vMid + 1), sx, sy, sz, prefix, done, c);
      done := done + [c];
      x, vTop, vMid := x + 1, vTop - 1, vMid + 1;
    }
    c := BottomCell(sx - 1, z);
    BottomLastRowEnd(sx, sy, sz, ring, bbase, z, vMid, vTop);
    assert BottomRowCells(z, sx - 1, sx) == [c] + BottomRowCells(z, sx, sx);
    Consume(whole, done, c, BottomRowCells(z, sx, sx));
    t := WriteCell(triangles, t, Quad(vTop, vTop - 1, vMid, vTop - 2), sx, sy, sz, prefix, done, c);
    done := done + [c];
    assert done == whole;
  }

  // ---------------------------------------------------------------------------
  // The cap routines on thin boxes

  /** How often `for (i = lo; i < hi; i++)` runs its body. */
  function Trips(lo: int, hi: int): (n: nat)
    ensures n == 0 <==> hi <= lo
  {
    if lo < hi then hi - lo else 0
  }

  /**
   * The number of SetQuad calls CreateTopFace makes as written: the front row
   * (its loop and the closing quad), one quad on each edge and the interior quads
   * of every middle row, and the back row with one quad on each edge. A row is
   * never narrower than two quads, and there are never fewer than two rows.
   */
  function TopFaceQuadsAsWritten(sx: int, sz: int): (n: int)
    ensures sx >= 2 && sz >= 1 ==> n == sx * (if sz < 2 then 2 else sz)
    ensures sx == 1 && sz >= 1 ==> n == 2 * (if sz < 2 then 2 else sz) - 1
  {
    (Trips(0, sx - 1) + 1) + Trips(1, sz - 1) * (1 + Trips(1, sx - 1) + 1) + (1 + Trips(1, sx - 1) + 1)
  }

  /**
   * The number of SetQuad calls CreateBottomFace makes as written: a front row,
   * the middle rows and a back row, each at least two quads wide.
   */
  function BottomFaceQuadsAsWritten(sx: int, sz: int): (n: int)
    ensures sx >= 1 && sz >= 1 ==> n == (if sx < 2 then 2 else sx) * (if sz < 2 then 2 else sz)
  {
    (1 + Trips(1, sx - 1) + 1) + Trips(1, sz - 1) * (1 + Trips(1, sx - 1) + 1) + (1 + Trips(1, sx - 1) + 1)
  }

  /**
   * With at least two cells along x and along z, each cap routine writes one
   * quad per cap cell, as the writers above show quad for quad.
   */
  lemma CapQuadsAsWritten(sx: int, sz: int)
    requires sx >= 2 && sz >= 2
    ensures TopFaceQuadsAsWritten(sx, sz) == sx * sz
    ensures BottomFaceQuadsAsWritten(sx, sz) == sx * sz
  {
    assert (sz - 2) * sx + 2 * sx == sz * sx;
  }

  /**
   * On a box one cell thick along x or along z the cap routines write more quads
   * than the cap has cells, and the side walls and both caps together write past
   * the 6 * QuadCount entries the generators allocate.
   */
  lemma ThinBoxOverrun(sx: int, sy: int, sz: int)
    requires ValidSize(sx, sy, sz) && (sx == 1 || sz == 1)
    ensures TopFaceQuadsAsWritten(sx, sz) > sx * sz
    ensures BottomFaceQuadsAsWritten(sx, sz) > sx * sz
    ensures sy * RingSize(sx, sz) + TopFaceQuadsAsWritten(sx, sz) + BottomFaceQuadsAsWritten(sx, sz)
          > QuadCount(sx, sy, sz)
  {
    QuadCountSplit(sx, sy, sz);
    if sx == 1 {
      assert Trips(1, sz - 1) * 2 >= 2 * (sz - 2);
    } else {
      assert Trips(1, sz - 1) == 0;
    }
  }

  /** The smallest box: its six faces need 6 quads, the routines as written make 11. */
  lemma UnitCubeOverrun()
    ensures RingSize(1, 1) + TopFaceQuadsAsWritten(1, 1) + BottomFaceQuadsAsWritten(1, 1) == 11
    ensures QuadCount(1, 1, 1) == 6
  {
  }
}
