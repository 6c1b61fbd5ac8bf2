# Box-mesh generator, modelled in Dafny

The repository builds box-shaped meshes on an integer grid of `sizeX × sizeY × sizeZ`
cells. Three generators share one vertex emission order:

- `CustomCubeGenerator` builds a plain box.
  - It emits the grid points of the box surface into `vertices`.
  - It stitches them into quads, two triangles each, in one `triangles` index array.
- `RoundedCubeGenerator` emits the same points with two changes.
  - It clamps each point into the inner box `[roundness, size − roundness]` and records the outward offset in `normals`.
  - It splits the same quads into three index arrays, one per facing axis: `trianglesX`, `trianglesY` and `trianglesZ`.
- `CustomSphereGenerator` emits the same vertex layout, pausing after every write.

## The emission order

Each layer `y = 0 … sizeY` emits one perimeter ring of `ring = 2·(sizeX + sizeZ)` points:

1. the front edge (z = 0), left to right;
2. the right edge (x = sizeX);
3. the back edge (z = sizeZ), right to left;
4. the left edge (x = 0).

After all rings come the points inside the top face, in row-major order, then the points inside the bottom face.

## Modules

- `BoxLayout` (layout.dfy)
  - `LayoutPoint` / `Layout` give the emission order as a function.
  - `GridIndex` is its inverse on the box surface.
  - The lemmas prove:
    - the vertex-count formula;
    - the ring geometry;
    - that the layout is a bijection between `[0, VertexCount)` and the surface grid points;
    - the ordering of the interior blocks.
- `VertexWriter` (vertex_writer.dfy) holds the imperative ring and interior loops. They fill an `array<Point>` and are proved to produce `Layout`. The plain cube and the sphere both use them.
- `QuadMesh` (quad_mesh.dfy) is the reference triangulation.
  - Every surface cell is a unit square of grid points: a `Cell`.
  - It becomes a `Quad` of indices through `GridIndex`.
  - `Flatten` turns quads into the index stream `SetQuad` writes.
  - The lemmas prove:
    - every quad is a unit square on one face of the box, wound outward;
    - every index is in range;
    - no triangle repeats a vertex;
    - no quad is emitted twice;
    - the quad count.
- `QuadWriter` (quad_writer.dfy) is the imperative triangulation. It contains:
  - `SetQuad`;
  - the side-wall runs;
  - `CreateTopFace` and `CreateBottomFace` with their `vMin`/`vMid`/`vMax`/`vTop` cursor arithmetic.

  Each is proved to write exactly the reference quads. The module also counts the quads the cap routines write on thin boxes.
- `CustomCube` (custom_cube.dfy) is the plain generator as a class.
- `FacingGroups` (facing_groups.dfy) splits the reference quads into the X, Y and Z groups. It proves their sizes, that they partition the whole mesh, and which way each group faces.
- `Rounding` (rounding.dfy) holds the integer clamp of `SetVertex` and its properties.
- `RoundedCube` (rounded_cube.dfy) is the rounded generator as a class. It fills the three group arrays in the source's interleaved order.
- `CustomSphere` (custom_sphere.dfy) is the timed-reveal generator's layout loop, without its pauses.

## Model

| member | source | states |
|---|---|---|
| BoxLayout.VertexCountByLayers | Assets/Scripts/CustomCubeGenerator.cs:29-36 | The corner + edge + face count equals `(sy+1)·ring + 2·(sx−1)(sz−1)`: all rings, then two interior blocks. The interior block is non-empty exactly when sx, sz ≥ 2. |
| BoxLayout.RingStep | Assets/Scripts/CustomCubeGenerator.cs:39-56 | Each ring point is followed by a unit grid neighbour in the walking direction: +x, +z, −x, −z. This includes the last point and the first. |
| BoxLayout.RingVertex | Assets/Scripts/CustomCubeGenerator.cs:39-56 | Index `y·ring + k` holds ring point k of layer y, whose height is y. The index lies below the end of the rings. |
| BoxLayout.RingPositionOfRingPoint | Assets/Scripts/CustomCubeGenerator.cs:39-56 | Every ring point lies on the perimeter at its layer's height. `RingPosition` recovers its position k. |
| BoxLayout.RingPointOfRingPosition | Assets/Scripts/CustomCubeGenerator.cs:39-56 | Every perimeter point (x, z) of the rectangle is emitted by the ring, at position `RingPosition`. |
| BoxLayout.RingIndexRoundTrip | Assets/Scripts/CustomCubeGenerator.cs:39-56 | For each ring index i, the point at ring `i / ring`, position `i % ring`, is on the surface and indexes back to i. |
| BoxLayout.InteriorPointInside | Assets/Scripts/CustomCubeGenerator.cs:57-70 | The j-th interior point of a cap is strictly inside the face, at the cap's height. Its row-major offset is j. |
| BoxLayout.InteriorPointAt | Assets/Scripts/CustomCubeGenerator.cs:57-70 | Every point strictly inside a face is emitted, at row-major offset `(z−1)(sx−1) + (x−1)`. |
| BoxLayout.InteriorLayout | Assets/Scripts/CustomCubeGenerator.cs:57-70 | The top interior (y = sy) starts right after the rings. The bottom interior (y = 0) follows it. |
| BoxLayout.GridIndexOfLayoutPoint | Assets/Scripts/CustomCubeGenerator.cs:27-74 | Every emitted point lies on the boundary of `[0,sx]×[0,sy]×[0,sz]`. `GridIndex` maps it back to its index. |
| BoxLayout.LayoutPointOfGridIndex | Assets/Scripts/CustomCubeGenerator.cs:27-74 | Every surface grid point is emitted, at index `GridIndex`, which is below the vertex count. |
| BoxLayout.LayoutInjective | Assets/Scripts/CustomCubeGenerator.cs:27-74 | No grid point is emitted twice. |
| BoxLayout.CapInteriorOrder | Assets/Scripts/CustomCubeGenerator.cs:57-70 | Interior points come after all rings, and top before bottom. Within one cap the order is row-major, z then x, in both directions of the if-and-only-if. |
| BoxLayout.RowMajorOrder | Assets/Scripts/CustomCubeGenerator.cs:57-70 | Row-major offsets order pairs lexicographically, z first. |
| BoxLayout.RingWrite | Assets/Scripts/CustomCubeGenerator.cs:39-56 | The ring loops' write index `y·ring + position` holds the point the loop writes. |
| BoxLayout.InteriorWrite | Assets/Scripts/CustomCubeGenerator.cs:57-70 | The interior loops' write index holds the point the loop writes. |
| VertexWriter.LaidOutAll | Assets/Scripts/CustomCubeGenerator.cs:27-74 | An array of the vertex count whose every entry matches the layout equals `Layout`. |
| VertexWriter.WriteRing | Assets/Scripts/CustomCubeGenerator.cs:39-56 | One layer's four edge loops write exactly `ring` points. The layout is established up to the new counter. Entries past the new cursor are unchanged. |
| VertexWriter.WriteInterior | Assets/Scripts/CustomCubeGenerator.cs:57-70 | One cap's interior loops write exactly `(sx−1)(sz−1)` points. The layout is established up to the new counter. Entries past the new cursor are unchanged. |
| VertexWriter.WriteInteriorRow | Assets/Scripts/CustomCubeGenerator.cs:60-63 | One interior row writes `sx − 1` points in x order. Entries past the new cursor are unchanged. |
| CustomCube.CustomCubeGenerator.CreateVertices | Assets/Scripts/CustomCubeGenerator.cs:27-74 | Allocates exactly the vertex count and fills it with `Layout`, so the counter ends at `vertices.Length`. |
| CustomCube.CustomCubeGenerator.CreateTriangles | Assets/Scripts/CustomCubeGenerator.cs:76-95 | Allocates `quads·6` entries and fills all of them with the reference triangulation: side walls, top cap, bottom cap. |
| CustomCube.CustomCubeGenerator.CreateSideWalls | Assets/Scripts/CustomCubeGenerator.cs:83-90 | The layer loop writes `sy·ring` quads, which are the reference side-wall quads. Entries past the new cursor are unchanged. |
| CustomCube.CustomCubeGenerator.SideLayer | Assets/Scripts/CustomCubeGenerator.cs:85-89 | One layer writes `ring − 1` straight quads and the wrap quad, which together form the full ring of wall cells. Entries past the new cursor are unchanged. |
| CustomCube.CustomCubeGenerator.Generate | Assets/Scripts/CustomCubeGenerator.cs:17-25 | The finished mesh holds `Layout` and the reference triangulation. |
| QuadWriter.SetQuad | Assets/Scripts/CustomCubeGenerator.cs:171-178 | Writes `[v00, v01, v10, v10, v01, v11]` at i..i+5 and returns i + 6. Entries before i are kept and entries after i + 5 are unchanged. |
| QuadWriter.SideStep | Assets/Scripts/CustomCubeGenerator.cs:85-88 | The straight quad `(v, v+1, v+ring, v+ring+1)` is the wall cell at ring position k. |
| QuadWriter.SideWrapStep | Assets/Scripts/CustomCubeGenerator.cs:89 | The wrap quad `(v, v−ring+1, v+ring, v+1)` is the wall cell between the last ring position and the first. |
| QuadWriter.SideSpan | Assets/Scripts/CustomCubeGenerator.cs:85-88 | A run of n straight quads advances t by 6n and v by n. It writes the wall cells of that span. Entries past the new cursor are unchanged. |
| QuadWriter.SideSpanAfter | Assets/Scripts/RoundedCubeGenerator.cs:89-104 | One of the rounded generator's four quad runs per layer extends the cells already written to its group array by that span. Entries past the new cursor are unchanged. |
| QuadWriter.SideWrapAfter | Assets/Scripts/RoundedCubeGenerator.cs:105 | The wrap quad extends the X array by the cell closing the ring. Entries past the new cursor are unchanged. |
| QuadWriter.CreateTopFace | Assets/Scripts/CustomCubeGenerator.cs:97-131 | For sx, sz ≥ 2 it writes exactly sx·sz quads, and they are the reference top cap. The `vMin`/`vMid`/`vMax`/`vTop` arithmetic picks the right neighbours. Entries past the new cursor are unchanged. |
| QuadWriter.TopFirstRow | Assets/Scripts/CustomCubeGenerator.cs:99-104 | The front row of the top cap: sx quads, ending with the corner quad that reaches the right edge. Entries past the new cursor are unchanged. |
| QuadWriter.TopMiddleRow | Assets/Scripts/CustomCubeGenerator.cs:110-120 | One middle row of the top cap: the left-edge quad, the interior quads and the right-edge quad. Entries past the new cursor are unchanged. |
| QuadWriter.TopLastRow | Assets/Scripts/CustomCubeGenerator.cs:122-128 | The back row of the top cap, walking the back ring edge with `vTop`. Entries past the new cursor are unchanged. |
| QuadWriter.CreateBottomFace | Assets/Scripts/CustomCubeGenerator.cs:133-169 | For sx, sz ≥ 2 it writes exactly sx·sz quads, and they are the reference bottom cap, wound downward. Entries past the new cursor are unchanged. |
| QuadWriter.BottomFirstRow | Assets/Scripts/CustomCubeGenerator.cs:135-142 | The front row of the bottom cap, joining ring 0 to the first interior row. Entries past the new cursor are unchanged. |
| QuadWriter.BottomMiddleRow | Assets/Scripts/CustomCubeGenerator.cs:148-158 | One middle row of the bottom cap. Entries past the new cursor are unchanged. |
| QuadWriter.BottomLastRow | Assets/Scripts/CustomCubeGenerator.cs:160-166 | The back row of the bottom cap. Entries past the new cursor are unchanged. |
| QuadWriter.BottomInteriorStart | Assets/Scripts/CustomCubeGenerator.cs:136 | `vertices.Length − (sx−1)(sz−1)` is the first bottom-interior index. |
| QuadWriter.CapQuadsAsWritten | Assets/Scripts/CustomCubeGenerator.cs:97-168 | With sx, sz ≥ 2, the cap loops as written make exactly sx·sz `SetQuad` calls each. |
| QuadWriter.ThinBoxOverrun | Assets/Scripts/CustomCubeGenerator.cs:78-168 | With sx = 1 or sz = 1, each cap loop makes more calls than the cap has cells. Walls and caps together exceed the allocated quad count. |
| QuadWriter.UnitCubeOverrun | Assets/Scripts/CustomCubeGenerator.cs:78-168 | The 1×1×1 box gets 11 quads written into room for 6. |
| QuadWriter.TopFaceQuadsAsWritten | Assets/Scripts/CustomCubeGenerator.cs:97-131 | Counts the `SetQuad` calls of `CreateTopFace` as its loops run them. For sx ≥ 2 the count is `sx·max(sz,2)`. For sx = 1 it is `2·max(sz,2) − 1`. |
| QuadWriter.BottomFaceQuadsAsWritten | Assets/Scripts/CustomCubeGenerator.cs:133-169 | Counts the `SetQuad` calls of `CreateBottomFace` as its loops run them: `max(sx,2)·max(sz,2)` for every sx, sz ≥ 1. |
| QuadMesh.BoxQuadsCount | Assets/Scripts/CustomCubeGenerator.cs:78-79 | The reference mesh has `sy·ring` wall quads, sx·sz quads per cap, and `quads` in total, so `quads·6` indices. |
| QuadMesh.QuadCountSplit | Assets/Scripts/CustomCubeGenerator.cs:78 | `quads = sy·ring + 2·sx·sz`. |
| QuadMesh.SideQuadIndices | Assets/Scripts/CustomCubeGenerator.cs:85-88 | The wall cell at layer y, position k indexes to `(y·ring+k, y·ring+next(k), (y+1)·ring+k, (y+1)·ring+next(k))`. |
| QuadMesh.WrapQuadCloses | Assets/Scripts/CustomCubeGenerator.cs:89 | The last wall cell of a layer links the layer's last vertex to its first (`v−ring+1`) and to the next layer's corresponding vertices. |
| QuadMesh.SideCellSquare | Assets/Scripts/CustomCubeGenerator.cs:83-90 | Every wall cell is a unit square on a side face, wound outward. Its normal is along z on the front and back edges and along x on the right and left edges. |
| QuadMesh.BoxQuadsGood | Assets/Scripts/CustomCubeGenerator.cs:83-168 | Every quad of the mesh has its four indices in `[0, vertices.Length)` and lays out to an outward unit square of the box surface. |
| QuadMesh.BoxCellsRanked | Assets/Scripts/CustomCubeGenerator.cs:83-168 | The i-th square the generator emits has emission rank i. The rank is computed from the square alone: wall squares by the index of their first corner, then top rows, then bottom rows. |
| QuadMesh.BoxQuadsDistinct | Assets/Scripts/CustomCubeGenerator.cs:83-168 | No two quads of the mesh are equal, so no face square is emitted twice. |
| QuadMesh.BoxTrianglesValid | Assets/Scripts/CustomCubeGenerator.cs:83-168 | The index stream's length is a multiple of 3, every index is below the vertex count, and no triangle repeats an index. |
| QuadMesh.CapsFacingY | Assets/Scripts/CustomCubeGenerator.cs:97-168 | Every cap quad faces along y. |
| QuadMesh.GoodQuadDistinct | Assets/Scripts/CustomCubeGenerator.cs:171-178 | The four corners of a good quad are four different vertices. |
| FacingGroups.XGroupSize | Assets/Scripts/RoundedCubeGenerator.cs:80 | The X group has `2·sy·sz` quads, which fill `(sy·sz)·12` indices. |
| FacingGroups.YGroupSize | Assets/Scripts/RoundedCubeGenerator.cs:81 | The Y group has `2·sx·sz` quads, which fill `(sx·sz)·12` indices. |
| FacingGroups.ZGroupSize | Assets/Scripts/RoundedCubeGenerator.cs:82 | The Z group has `2·sx·sy` quads, which fill `(sx·sy)·12` indices. |
| FacingGroups.LayerPartition | Assets/Scripts/RoundedCubeGenerator.cs:89-105 | Each layer's Z runs (front, back) and X runs (right, left, wrap) together are the layer's ring of wall quads. |
| FacingGroups.GroupsPartition | Assets/Scripts/RoundedCubeGenerator.cs:87-109 | The three groups together are, as a multiset, exactly the quads of the plain cube. |
| FacingGroups.GroupsFacing | Assets/Scripts/RoundedCubeGenerator.cs:87-109 | Every X-group quad faces along x, every Y-group quad along y, and every Z-group quad along z. |
| RoundedCube.RoundedCubeGenerator.SetVertex | Assets/Scripts/RoundedCubeGenerator.cs:200-231 | Stores the clamped inner point at i and the outward offset `raw − inner` as the normal. Every other entry is unchanged. |
| RoundedCube.RoundedCubeGenerator.PlaceNext | Assets/Scripts/RoundedCubeGenerator.cs:44 | `SetVertex(v++, …)` at the layout point of index v extends the placed prefix by one: indices below v + 1 hold the inner point and offset of their layout point. Entries after v are unchanged. |
| RoundedCube.RoundedCubeGenerator.PlaceRing | Assets/Scripts/RoundedCubeGenerator.cs:40-58 | One layer's four edge loops place exactly `ring` points, from `y·ring` on. The placed prefix reaches `(y+1)·ring` and later entries are unchanged. |
| RoundedCube.RoundedCubeGenerator.PlaceInterior | Assets/Scripts/RoundedCubeGenerator.cs:59-72 | One cap's interior loops place exactly `(sx−1)(sz−1)` points from the cap's start index. Later entries are unchanged. |
| RoundedCube.RoundedCubeGenerator.PlaceInteriorRow | Assets/Scripts/RoundedCubeGenerator.cs:61-64 | One interior row places `sx − 1` points, reaching the next row's offset. Later entries are unchanged. |
| RoundedCube.RoundedCubeGenerator.CreateVertices | Assets/Scripts/RoundedCubeGenerator.cs:27-76 | `vertices` and `normals` have the plain cube's vertex count. Index by index they hold the inner point and the offset of the plain layout. |
| RoundedCube.RoundedCubeGenerator.CreateTriangles | Assets/Scripts/RoundedCubeGenerator.cs:78-115 | The three arrays are allocated at their source sizes and filled completely with the X, Y and Z groups. |
| RoundedCube.RoundedCubeGenerator.NewGroupBuffers | Assets/Scripts/RoundedCubeGenerator.cs:80-82 | The three allocations are distinct and exactly as long as their groups' index streams. |
| RoundedCube.RoundedCubeGenerator.CreateGroupedWalls | Assets/Scripts/RoundedCubeGenerator.cs:84-106 | The interleaved layer loop fills `trianglesX` and `trianglesZ` exactly, with the X and Z groups. |
| RoundedCube.RoundedCubeGenerator.GroupedLayer | Assets/Scripts/RoundedCubeGenerator.cs:89-105 | One layer adds 2·sz quads to X and 2·sx quads to Z: that layer's X and Z cells. Entries past the new cursor are unchanged. |
| RoundedCube.RoundedCubeGenerator.GroupedStep | Assets/Scripts/RoundedCubeGenerator.cs:87-106 | One trip of the layer loop appends the layer's X cells to `trianglesX` and its Z cells to `trianglesZ`. The cursors stay at the boundary between written and remaining cells, and entries past them are unchanged. |
| RoundedCube.RoundedCubeGenerator.LayerFrontRight | Assets/Scripts/RoundedCubeGenerator.cs:89-96 | The front run adds the layer's sx front cells to `trianglesZ`, and the right run adds its sz right cells to `trianglesX`. v advances by sx + sz and entries past the cursors are unchanged. |
| RoundedCube.RoundedCubeGenerator.LayerBackLeft | Assets/Scripts/RoundedCubeGenerator.cs:97-105 | The back run adds the sx back cells to `trianglesZ`. The left run and the wrap quad add the `sz − 1` left cells and the ring-closing cell to `trianglesX`. v ends at `(y+1)·ring`. |
| RoundedCube.RoundedCubeGenerator.LeftAndWrap | Assets/Scripts/RoundedCubeGenerator.cs:101-105 | The left run of `sz − 1` quads and the wrap quad `(v, v−ring+1, v+ring, v+1)` add the layer's left-edge cells and the ring-closing cell to `trianglesX`. |
| RoundedCube.RoundedCubeGenerator.CreateGroups | Assets/Scripts/RoundedCubeGenerator.cs:78-110 | Fresh X, Y and Z arrays are allocated and filled with exactly the index streams of the X, Y and Z groups. |
| RoundedCube.RoundedCubeGenerator.CreateCaps | Assets/Scripts/RoundedCubeGenerator.cs:108-109 | For sx, sz ≥ 2 the caps fill `trianglesY` exactly, with the top cap then the bottom cap. |
| RoundedCube.RoundedCubeGenerator.Generate | Assets/Scripts/RoundedCubeGenerator.cs:18-25 | The finished mesh holds the inner layout, its offsets, and the three facing groups. |
| RoundedCube.XLayerCellsWrap | Assets/Scripts/RoundedCubeGenerator.cs:93-105 | A layer's X cells are the right-edge run of sz quads, then the left-edge run of `sz − 1` quads, then the wrap quad closing the ring. |
| Rounding.ClampInside | Assets/Scripts/RoundedCubeGenerator.cs:204-227 | When 2·roundness ≤ size, the inner coordinate lies in `[roundness, size − roundness]`. It equals the raw coordinate exactly when the raw one is already in that range. |
| Rounding.OffsetSign | Assets/Scripts/RoundedCubeGenerator.cs:204-229 | An offset component is negative exactly when raw < roundness. It is positive exactly when raw ≥ roundness and raw > size − roundness. |
| Rounding.UnroundedPoint | Assets/Scripts/RoundedCubeGenerator.cs:202-230 | With roundness 0 a grid point in the box is its own inner point, with zero offset. |
| Rounding.UnroundedLayout | Assets/Scripts/RoundedCubeGenerator.cs:27-76 | With roundness 0 the rounded vertices are the plain cube's layout and every offset is zero. |
| Rounding.SurfaceOffset | Assets/Scripts/RoundedCubeGenerator.cs:204-229 | With roundness > 0 every surface grid point has a nonzero offset. |
| Rounding.RoundedOffsets | Assets/Scripts/RoundedCubeGenerator.cs:40-72 | With roundness > 0 every emitted vertex has a nonzero offset, so its normal direction is defined. |
| Rounding.InnerLayoutInside | Assets/Scripts/RoundedCubeGenerator.cs:204-227 | When 2·roundness fits every size, every stored inner point lies in the inner box. |
| CustomSphere.CustomSphereGenerator.Generate | Assets/Scripts/CustomSphereGenerator.cs:18-75 | Allocates the same vertex count and fills it with `Layout`. Ignoring the pauses, the array equals the plain cube's `CreateVertices` result element for element. |

## Left out

- Floating point: `Vector3` is modelled as an integer triple. The plain cube and the sphere emit only integer grid points. The rounded cube's final position `inner + normal·roundness` is float arithmetic and is not computed (see SetVertex below).
- RoundedCube.RoundedCubeGenerator.SetVertex: does not normalise the offset and does not add `normal · roundness` to the inner point, because both are float arithmetic.
  - `normals[i]` holds the unnormalised integer offset `raw − inner`, which points the same way as the normalised one.
  - `vertices[i]` holds the inner point. The float position is fully determined by these two.
- RoundedCube.RoundedCubeGenerator.CreateVertices: the stored vertices are the integer inner points, for the same reason as SetVertex.
- Unity glue is not modelled: `Awake`, `GetComponent`, `MeshRenderer` materials, the `Mesh` object and its name, `mesh.vertices`, `mesh.triangles`, `mesh.normals`, `subMeshCount`, `SetTriangles`, and `OnDrawGizmos`. The model's arrays are what the generators hand to the mesh.
- CustomSphere.CustomSphereGenerator.Generate: the coroutine's `yield return` after each write and the `WaitForSeconds` pacing are left out. They change when the writes happen, not what is written.
- Sizes below 1 are not validated by the source. The model requires every size to be at least 1.
- CustomCube.CustomCubeGenerator.CreateTriangles, CustomCube.CustomCubeGenerator.Generate, QuadWriter.CreateTopFace, QuadWriter.CreateBottomFace, RoundedCube.RoundedCubeGenerator.CreateTriangles, RoundedCube.RoundedCubeGenerator.CreateCaps and RoundedCube.RoundedCubeGenerator.Generate require sizeX ≥ 2 and sizeZ ≥ 2. Below that the source writes past its arrays (see Findings).
  - On thin boxes only the quad count of the cap routines is modelled: QuadWriter.TopFaceQuadsAsWritten and QuadWriter.BottomFaceQuadsAsWritten.
- MeshDeformationController.cs is not part of this model. It is a floating-point spring simulation driven by engine time and transforms.
- MeshDeformerInput.cs is not part of this model. It is mouse input and physics raycasts.
- 32-bit overflow of the size arithmetic is not modelled. Integers are unbounded, which matches the source only while the largest product fits an `int`: `quads·6` in CustomCubeGenerator.cs:79 and `(sizeY·sizeZ)·12`, `(sizeX·sizeZ)·12`, `(sizeX·sizeY)·12` in RoundedCubeGenerator.cs:80-82. These overflow before the vertex count does.

## Findings

| source | as written | input that shows it | evidently intended | confidence | as-written member | corrected member |
|---|---|---|---|---|---|---|
| Assets/Scripts/CustomCubeGenerator.cs:97-168 (and RoundedCubeGenerator.cs:117-186 for `trianglesY`) | The cap routines always write a front row and a back row, and each middle row writes its two edge quads. With sizeX = 1 a middle row writes 2 quads for 1 cell. With sizeZ = 1 the front and back rows both cover the single row. Both caps then write more quads than `CreateTriangles` allocates, and the write runs past `triangles` (`trianglesY` in the rounded cube). | sizeX = sizeY = sizeZ = 1: 4 wall quads + 3 top + 4 bottom = 11 quads into an array sized for 6 | Each cap writes exactly sizeX·sizeZ quads, filling the allocated array exactly. | not executed | QuadWriter.ThinBoxOverrun, QuadWriter.UnitCubeOverrun | QuadWriter.CapQuadsAsWritten, QuadWriter.CreateTopFace, QuadWriter.CreateBottomFace (with sizeX, sizeZ ≥ 2 required) |
