# Voxel surface nets: a verified model of the meshing core

This project models, in Dafny, the voxel-to-mesh pipeline of a Unity voxel
terrain project:

- **The world and its chunks** (`World.cs`, `Chunk.cs`, `Constants.cs`). The
  world is a grid of chunks stored at linear index `x + z*W + y*W*D`. Each
  chunk fills a flat byte array of `CHUNK_SIZE^3` voxels at index
  `x + z*S + y*S^2` from a noise test, and keeps an `isEmpty` flag. Meshing an
  empty chunk is skipped.
- **The live surface-nets mesher** (`ChunkMeshBuilder.cs`). It scans the chunk
  padded by one voxel on every side. Across every positive-axis step with
  exactly one solid side it emits a quad, wound by which side is solid. Each
  quad corner is moved to the mean of the midpoints of the crossing edges of
  the unit cube at that corner.
- **The mesh buffer** (`ChunkMeshData.cs`). It holds four parallel attribute
  lists. `ClearData` allocates them on the first call and clears them
  afterwards. The optional weld in `UploadMesh` replaces each raw vertex by the
  index of the first vertex at the same position.
- **The older blocky mesher** (`.dev/ChunkMeshBuilder_backup.cs`). It has a
  world-aware voxel lookup: chunk coordinate by floor division, chunk index
  with a `-1` sentinel, and local position by a true modulo built from C#'s
  truncating `%`. It emits the exposed cube faces of every non-empty voxel, and
  its upload welds on the whole (position, UV, colour) triple.
- **The dictionary voxel container** (`.dev/Container.cs`). It stores voxels by
  position, and an absent key reads as an empty voxel. It has its own blocky
  mesher over the dictionary.

## How the model is built

**Modules.**
- `Constants`, `Geometry`, `Linear`, `Concat`: shared values and index
  arithmetic.
- `Weld`: first-occurrence deduplication.
- `MeshBuffer`: the `ChunkMeshData` class.
- `SurfaceNets` with `ChunkMeshBuilder`: what the live mesher computes, and its
  loops.
- `BlockyFaces` with `ChunkMeshBuilderBackup`: the same pair for the backup
  mesher. It declares a class of the same name, so it has its own module.
- `WorldData`: the `Chunk` and `World` classes.
- `VoxelContainer`: the container and its `MeshData`.

**Proof approach.** Every mesher loop is a Dafny method proved against a
specification function. That function lists the quads or faces the mesher
draws, in scan order. Membership lemmas then state which quads or faces are
drawn, independently of the scan.

**Vertex values.** Vertex positions, UVs and colours are exact rationals
that stand for the source's floats; rounding is not modelled. Equal exact
values round to equal floats, so the welds merge the same vertices.

## Behaviour of the code worth noting

- **The live mesher reads only its own chunk.** Its lookup
  (`ChunkMeshBuilder.cs:24-34`) reads the chunk's own array and treats every
  position outside `[0, S)^3` as void. `chunkPos` and `worldVoxels` are never
  read.
- **The backup lookup treats out-of-world positions as solid.** It returns
  "not void" for a position whose chunk lies outside the world
  (`.dev/ChunkMeshBuilder_backup.cs:40-42`).
- **AverageVertex divides unguarded.** It divides by the count of crossing
  edges without a check (`ChunkMeshBuilder.cs:143`). The model requires a
  crossing and proves that every corner the mesher asks for has one.

## Model

| member | source | states |
|---|---|---|
| Constants.DerivedSizes | Assets/Scripts/Data/Constants.cs:3-12 | depth equals width, the areas and volumes are the products of the dimensions, and every dimension is positive |
| Constants.ByteSizedConstants | Assets/Scripts/Data/Constants.cs:3-10 | every size declared `byte` fits in 8 bits, so byte loop counters up to CHUNK_SIZE never wrap |
| Linear.IndexInRange | Assets/Scripts/Data/World.cs:10-16 | a cell of a w x h x d box has its index `x + z*w + y*w*d` in `[0, w*d*h)` |
| Linear.CellOfIndex | Assets/Scripts/Data/Chunk.cs:22-33 | the cell is recovered from its index |
| Linear.IndexOfCell | Assets/Scripts/Data/Chunk.cs:22-33 | every index of `[0, w*d*h)` is the index of a cell of the box |
| Linear.IndexInjective | Assets/Scripts/Data/World.cs:10-18 | distinct cells of the box have distinct indices |
| Weld.Distinct | Assets/Scripts/Data/ChunkMeshData.cs:42-56 | the welded key list has no duplicates, contains every raw key and only raw keys, and is no longer than the raw list |
| Weld.IndexOf | Assets/Scripts/Data/ChunkMeshData.cs:49-53 | the index handed out for a key is its first position in the key list |
| Weld.WeldIndices | Assets/Scripts/Data/ChunkMeshData.cs:44-54 | the shared index list has one entry per raw vertex |
| Weld.WeldVertices | Assets/Scripts/Data/ChunkMeshData.cs:42-54 | the dictionary loop returns the distinct keys in first-occurrence order and, per raw vertex, an in-range index whose key is that vertex |
| Weld.WeldStep | Assets/Scripts/Data/ChunkMeshData.cs:46-54 | one pass of the loop (add the key if new, then append its index) keeps the loop invariant |
| Weld.DistinctStep | Assets/Scripts/Data/ChunkMeshData.cs:49-52 | a raw key extends the welded keys only when it has not been seen before |
| Weld.SharedStep | Assets/Scripts/Data/ChunkMeshData.cs:53 | appending the index of the current key keeps every earlier index pointing at its own key |
| Weld.IndexMapMembers | Assets/Scripts/Data/ChunkMeshData.cs:49 | the dictionary contains a key iff the key list does |
| Weld.AddToIndexMap | Assets/Scripts/Data/ChunkMeshData.cs:51 | adding a new key with the value `Count` maps it to its position in the key list |
| Weld.WeldIndicesUnique | Assets/Scripts/Data/ChunkMeshData.cs:42-54 | any index list that points every raw vertex at its key among the distinct keys is exactly the welded list |
| Weld.DistinctPrefix | Assets/Scripts/Data/ChunkMeshData.cs:49-52 | welding more vertices only appends keys |
| Weld.DistinctShorterIffRepeat | Assets/Scripts/Data/ChunkMeshData.cs:49-56 | the welded key list is strictly shorter than the raw list iff some key repeats |
| Weld.WeldKeepsTriangles | Assets/Scripts/Data/ChunkMeshData.cs:44-57 | with the builders' index list `triangles[k] == k`, corner j of welded triangle t is the vertex of corner j of raw triangle t |
| MeshBuffer.Iota | Assets/Scripts/Data/ChunkMeshBuilder.cs:99 | the index list a mesher emits is 0, 1, ..., n-1 |
| MeshBuffer.WhiteRun | Assets/Scripts/Data/ChunkMeshBuilder.cs:98 | the live mesher's colour list is all white |
| MeshBuffer.ChunkMeshData.constructor | Assets/Scripts/Data/ChunkMeshData.cs:5-13 | a new buffer is not initialised and holds nothing |
| MeshBuffer.ChunkMeshData.ClearData | Assets/Scripts/Data/ChunkMeshData.cs:15-36 | from either state the buffer ends initialised with four empty lists, so a second call changes nothing |
| MeshBuffer.ChunkMeshData.UploadMesh | Assets/Scripts/Data/ChunkMeshData.cs:38-65 | welded: the distinct positions and per raw vertex the in-range index of its position, no UVs or colours; unwelded: the four lists unchanged |
| Geometry.SwapNegatesNormal | Assets/Scripts/Data/ChunkMeshBuilder.cs:208-209 | swapping two corners of a triangle negates its normal |
| SurfaceNets.IsVoid | Assets/Scripts/Data/ChunkMeshBuilder.cs:24-34 | every position outside the chunk reads as void, without touching the array |
| SurfaceNets.VoxelIndexInRange | Assets/Scripts/Data/ChunkMeshBuilder.cs:8-29 | inside the chunk the index `x + z*S + y*S^2` lies in the array |
| SurfaceNets.AllZeroIsVoid | Assets/Scripts/Data/ChunkMeshBuilder.cs:24-34 | a chunk of zero bytes is void at every position |
| SurfaceNets.CrossSumBounds | Assets/Scripts/Data/ChunkMeshBuilder.cs:131-141 | the sum of k crossing-edge midpoints lies between k*c and k*(c+1) on every axis |
| SurfaceNets.MidpointInUnitCube | Assets/Scripts/Data/ChunkMeshBuilder.cs:133-138 | every edge midpoint lies in the closed unit cube at the corner |
| SurfaceNets.AverageInUnitCube | Assets/Scripts/Data/ChunkMeshBuilder.cs:122-144 | with a crossing edge, the averaged vertex lies in the closed unit cube `[c, c+(1,1,1)]` |
| SurfaceNets.CrossCountPositive | Assets/Scripts/Data/ChunkMeshBuilder.cs:131-141 | one crossing edge makes the count positive |
| SurfaceNets.CornerHasCrossing | Assets/Scripts/Data/ChunkMeshBuilder.cs:105-143 | every corner of a quad on a transition has a crossing edge, so the division is defined |
| SurfaceNets.QuadCorners | Assets/Scripts/Data/ChunkMeshBuilder.cs:105-119 | a quad has four smoothed corners |
| SurfaceNets.QuadCornerInCube | Assets/Scripts/Data/ChunkMeshBuilder.cs:105-143 | quad corner k lies in the unit cube at lattice corner `p + voxelQuads[axis][k]` |
| SurfaceNets.QuadVertices | Assets/Scripts/Data/ChunkMeshBuilder.cs:89-96 | a quad contributes six vertices |
| SurfaceNets.Wound | Assets/Scripts/Data/ChunkMeshBuilder.cs:92-95 | vertex j of a quad is corner `voxelTriangles[j]` when the voxel is solid, `voxelTrianglesReverse[j]` otherwise |
| SurfaceNets.MeshVertices | Assets/Scripts/Data/ChunkMeshBuilder.cs:89-96 | n quads give 6n vertices |
| SurfaceNets.MeshVerticesAppend | Assets/Scripts/Data/ChunkMeshBuilder.cs:49-58 | the vertices of consecutive runs of quads are concatenated |
| SurfaceNets.UvCycle | Assets/Scripts/Data/ChunkMeshBuilder.cs:97 | UV k is `voxelUVs[voxelTriangles[k % 6]]`, whatever the winding |
| SurfaceNets.AxisQuadsMembers | Assets/Scripts/Data/ChunkMeshBuilder.cs:75-84 | a quad of point p for an axis below n is emitted iff exactly one side of that step is solid |
| SurfaceNets.RowQuadsMembers | Assets/Scripts/Data/ChunkMeshBuilder.cs:53-58 | the row scan emits exactly the transitions of its points with z in `[-1, z)` |
| SurfaceNets.PlaneQuadsMembers | Assets/Scripts/Data/ChunkMeshBuilder.cs:51-59 | the plane scan emits exactly the transitions of its rows |
| SurfaceNets.VolumeQuadsMembers | Assets/Scripts/Data/ChunkMeshBuilder.cs:49-61 | the volume scan emits exactly the transitions of its slabs |
| SurfaceNets.SurfaceQuadsMembers | Assets/Scripts/Data/ChunkMeshBuilder.cs:49-84 | a quad is emitted for p and axis i iff p lies in `[-1, S]^3` and exactly one of p, `p + voxelAxis[i]` is solid, and it records which one |
| SurfaceNets.EmptyChunkHasNoQuads | Assets/Scripts/Data/ChunkMeshBuilder.cs:36-64 | an all-zero chunk emits no quad and no vertex |
| SurfaceNets.WindingsMirror | Assets/Scripts/Data/ChunkMeshBuilder.cs:208-209 | the reverse winding is the forward one with the last two corners of each triangle swapped |
| SurfaceNets.OppositeWindings | Assets/Scripts/Data/ChunkMeshBuilder.cs:92-95 | over the same corners, the two windings give each triangle opposite normals |
| SurfaceNets.AgreeStep | Assets/Scripts/Data/ChunkMeshBuilder.cs:97-99 | appending a vertex's UV, white colour and next index keeps the four lists parallel |
| SurfaceNets.AxisQuadsStep | Assets/Scripts/Data/ChunkMeshBuilder.cs:84-100 | a transition on axis i appends the quad's six wound vertices |
| SurfaceNets.AxisQuadsSkip | Assets/Scripts/Data/ChunkMeshBuilder.cs:84 | without a transition, axis i adds nothing |
| SurfaceNets.RowPointStep | Assets/Scripts/Data/ChunkMeshBuilder.cs:53-58 | visiting a point appends its quads' vertices to the row |
| SurfaceNets.ScanRowStep | Assets/Scripts/Data/ChunkMeshBuilder.cs:51-60 | a finished row extends the slab |
| SurfaceNets.ScanSlabStep | Assets/Scripts/Data/ChunkMeshBuilder.cs:49-61 | a finished slab extends the volume |
| SurfaceNets.ScanComplete | Assets/Scripts/Data/ChunkMeshBuilder.cs:49-63 | after the last slab every quad of the lattice has been emitted |
| ChunkMeshBuilder.AverageVertex | Assets/Scripts/Data/ChunkMeshBuilder.cs:122-144 | the loop computes the mean of the crossing-edge midpoints, a point of the unit cube at pos |
| ChunkMeshBuilder.AddQuad | Assets/Scripts/Data/ChunkMeshBuilder.cs:105-119 | a fresh array of the four smoothed corners, each in the unit cube at its lattice corner |
| ChunkMeshBuilder.AppendQuadTriangles | Assets/Scripts/Data/ChunkMeshBuilder.cs:89-100 | appends the six vertices in the winding of the solid side, keeping UVs, white colours and indices `counter++` parallel |
| ChunkMeshBuilder.CreateSurfaceQuads | Assets/Scripts/Data/ChunkMeshBuilder.cs:68-103 | appends exactly the vertices of the quads of localPos, with parallel attribute lists |
| ChunkMeshBuilder.CreateRowQuads | Assets/Scripts/Data/ChunkMeshBuilder.cs:53-59 | appends exactly the vertices of the quads of one row |
| ChunkMeshBuilder.BuildChunkMesh | Assets/Scripts/Data/ChunkMeshBuilder.cs:36-64 | the vertex list is the six vertices of every emitted quad in scan order; UVs follow voxelTriangles, colours are white, `triangles[k] == k`; chunkPos is not read |
| BlockyFaces.GetChunkCoord | Assets/Scripts/Data/.dev/ChunkMeshBuilder_backup.cs:7-10 | the chunk coordinate is floor(w / S), also for negative w |
| BlockyFaces.GetChunkIndex | Assets/Scripts/Data/.dev/ChunkMeshBuilder_backup.cs:12-31 | -1 iff the chunk lies outside the world, otherwise an index in `[0, WORLD_VOL)` |
| BlockyFaces.GetChunkIndexInjective | Assets/Scripts/Data/.dev/ChunkMeshBuilder_backup.cs:12-31 | two positions share a valid chunk index only when they lie in the same chunk |
| BlockyFaces.TruncRem | Assets/Scripts/Data/.dev/ChunkMeshBuilder_backup.cs:35 | C#'s `%` takes the sign of the dividend and is smaller than the modulus in magnitude |
| BlockyFaces.ModuloIsEuclidean | Assets/Scripts/Data/.dev/ChunkMeshBuilder_backup.cs:33-36 | for m > 0, Modulo is the Euclidean remainder and lies in `[0, m)` |
| BlockyFaces.ModuloPeriodic | Assets/Scripts/Data/.dev/ChunkMeshBuilder_backup.cs:33-36 | `Modulo(x + m, m) == Modulo(x, m)` |
| BlockyFaces.WrappedIndex | Assets/Scripts/Data/.dev/ChunkMeshBuilder_backup.cs:46-49 | the wrapped local index lies in the chunk array for every local position |
| BlockyFaces.IsVoid | Assets/Scripts/Data/.dev/ChunkMeshBuilder_backup.cs:38-55 | a position whose chunk lies outside the world reads as solid |
| BlockyFaces.WorldPosShift | Assets/Scripts/Data/.dev/ChunkMeshBuilder_backup.cs:85-102 | stepping the local position steps the world position alike |
| BlockyFaces.IsVoidReadsWorld | Assets/Scripts/Data/.dev/ChunkMeshBuilder_backup.cs:38-55 | with matching local and world positions the lookup reads the world voxel, also across a chunk seam |
| BlockyFaces.VoxelVertexIndex | Assets/Scripts/Data/.dev/ChunkMeshBuilder_backup.cs:144-152 | each face names four cube corners |
| BlockyFaces.FaceTablesAgree | Assets/Scripts/Data/.dev/ChunkMeshBuilder_backup.cs:131-163 | each face's four corners are distinct and lie on the cube side facing the neighbour the face checks, one unit step away |
| BlockyFaces.ExposedReadsWorld | Assets/Scripts/Data/.dev/ChunkMeshBuilder_backup.cs:99-106 | side i of p is drawn iff the world voxel across it is void |
| BlockyFaces.SideFace | Assets/Scripts/Data/.dev/ChunkMeshBuilder_backup.cs:97-106 | each side adds at most one face |
| BlockyFaces.SideFacesNext | Assets/Scripts/Data/.dev/ChunkMeshBuilder_backup.cs:97-106 | the sides are visited in index order |
| BlockyFaces.SideFacesMembers | Assets/Scripts/Data/.dev/ChunkMeshBuilder_backup.cs:97-106 | the faces of p among the first n sides are exactly the exposed ones, in the voxel's colour |
| BlockyFaces.CellFacesMembers | Assets/Scripts/Data/.dev/ChunkMeshBuilder_backup.cs:76-106 | the faces of a voxel are exactly those drawn at it |
| BlockyFaces.ChunkFacesMembers | Assets/Scripts/Data/.dev/ChunkMeshBuilder_backup.cs:70-124 | a face is drawn iff it is a side of a non-zero voxel of the chunk whose neighbour is void, in that voxel's colour |
| BlockyFaces.EmptyChunkDrawsNothing | Assets/Scripts/Data/.dev/ChunkMeshBuilder_backup.cs:76-81 | an all-zero chunk draws no face |
| BlockyFaces.RowUpToMembers | Assets/Scripts/Data/.dev/ChunkMeshBuilder_backup.cs:74-122 | the row scan holds exactly the faces of its voxels up to z |
| BlockyFaces.PlaneUpToMembers | Assets/Scripts/Data/.dev/ChunkMeshBuilder_backup.cs:72-123 | the plane scan holds exactly the faces of its rows up to y |
| BlockyFaces.VolumeUpToMembers | Assets/Scripts/Data/.dev/ChunkMeshBuilder_backup.cs:70-124 | the volume scan holds exactly the faces of its slabs up to x |
| BlockyFaces.FaceCorners | Assets/Scripts/Data/.dev/ChunkMeshBuilder_backup.cs:109-112 | corner j is `voxelVertices[voxelVertexIndex[i, j]] + localPos` |
| BlockyFaces.FaceVertices | Assets/Scripts/Data/.dev/ChunkMeshBuilder_backup.cs:114-116 | a face contributes six vertices |
| BlockyFaces.Six | Assets/Scripts/Data/.dev/ChunkMeshBuilder_backup.cs:118 | six copies of one value |
| BlockyFaces.FaceColors | Assets/Scripts/Data/.dev/ChunkMeshBuilder_backup.cs:118 | a face contributes six colours |
| BlockyFaces.FlattenedFace | Assets/Scripts/Data/.dev/ChunkMeshBuilder_backup.cs:114-120 | vertex k of the emitted list is corner `voxelTriangles[k % 6]` of face k / 6, in that face's colour |
| BlockyFaces.SideStep | Assets/Scripts/Data/.dev/ChunkMeshBuilder_backup.cs:97-120 | visiting side i appends the face's lists iff that side is exposed |
| ChunkMeshBuilderBackup.FillFaceCorners | Assets/Scripts/Data/.dev/ChunkMeshBuilder_backup.cs:109-112 | the reused array holds the face's four corners |
| ChunkMeshBuilderBackup.AppendFaceTriangles | Assets/Scripts/Data/.dev/ChunkMeshBuilder_backup.cs:114-120 | appends the six corners in voxelTriangles order and six copies of the voxel's colour, with UVs and indices `counter++` parallel |
| ChunkMeshBuilderBackup.CreateSideFace | Assets/Scripts/Data/.dev/ChunkMeshBuilder_backup.cs:97-121 | one side appends its face iff the world voxel across it is void |
| ChunkMeshBuilderBackup.CreateVoxelFaces | Assets/Scripts/Data/.dev/ChunkMeshBuilder_backup.cs:76-121 | appends exactly the faces of the voxel: none for id 0, else its exposed sides in order |
| ChunkMeshBuilderBackup.EmitsMore | Assets/Scripts/Data/.dev/ChunkMeshBuilder_backup.cs:114-120 | lists emitted for two runs of faces are those of the joined run |
| ChunkMeshBuilderBackup.CreateRowFaces | Assets/Scripts/Data/.dev/ChunkMeshBuilder_backup.cs:74-122 | appends exactly the faces of one row |
| ChunkMeshBuilderBackup.CreateSlabFaces | Assets/Scripts/Data/.dev/ChunkMeshBuilder_backup.cs:72-123 | appends exactly the faces of one slab |
| ChunkMeshBuilderBackup.BuildChunkMesh | Assets/Scripts/Data/.dev/ChunkMeshBuilder_backup.cs:57-127 | the vertex and colour lists are those of every drawn face in scan order; UVs follow voxelTriangles and `triangles[k] == k` |
| ChunkMeshBuilderBackup.VertexKeys | Assets/Scripts/Data/.dev/ChunkMeshBuilder_backup.cs:184-186 | the key of raw vertex i is its (position, UV, colour) triple |
| ChunkMeshBuilderBackup.UploadMesh | Assets/Scripts/Data/.dev/ChunkMeshBuilder_backup.cs:176-205 | welded: the distinct (position, UV, colour) triples in first-occurrence order, split into three parallel lists, and per raw vertex the index of the first occurrence of its triple, so two raw vertices share an index iff all three attributes agree; unwelded: the lists unchanged |
| WorldData.Bit | Assets/Scripts/Data/Chunk.cs:35 | the stored byte is 0 or 1, and 0 iff the noise test fails |
| WorldData.Generated | Assets/Scripts/Data/Chunk.cs:18-44 | the generated array has CHUNK_VOL voxels |
| WorldData.GeneratedIsBinary | Assets/Scripts/Data/Chunk.cs:35 | every generated voxel is 0 or 1 |
| WorldData.AllVoxelIndicesInRange | Assets/Scripts/Data/Chunk.cs:22-33 | every in-chunk index lies in `[0, CHUNK_VOL)` |
| WorldData.DistinctVoxelIndices | Assets/Scripts/Data/Chunk.cs:22-33 | distinct voxels are written at distinct indices |
| WorldData.GeneratedAt | Assets/Scripts/Data/Chunk.cs:33-35 | voxel p's byte is the noise outcome at p |
| WorldData.GeneratedEmptyIffNoSolid | Assets/Scripts/Data/Chunk.cs:35-38 | the array is all zero iff the noise test fails everywhere in the chunk |
| WorldData.FilledIsGenerated | Assets/Scripts/Data/Chunk.cs:21-43 | once every voxel is visited the array is the generated one |
| WorldData.Chunk.constructor | Assets/Scripts/Data/Chunk.cs:6-16 | world and position stored unchanged; empty, with no voxels and no mesh |
| WorldData.Chunk.BuildVoxels | Assets/Scripts/Data/Chunk.cs:18-44 | a new array equal to the generated voxels; isEmpty stays true iff it was true and every voxel is 0, and is never set back to true |
| WorldData.Chunk.FillSlab | Assets/Scripts/Data/Chunk.cs:24-40 | one x-slab is written and the flag tracks it |
| WorldData.Chunk.FillColumn | Assets/Scripts/Data/Chunk.cs:30-39 | one column is written and the flag cleared on a solid voxel |
| WorldData.Chunk.BuildMesh | Assets/Scripts/Data/Chunk.cs:46-54 | an empty chunk is left unchanged; otherwise a mesh is created |
| WorldData.ChunkSlots | Assets/Scripts/Data/World.cs:10-16 | chunk indices are in range, injective on the grid and cover every slot |
| WorldData.World.constructor | Assets/Scripts/Data/World.cs:5-6 | both arrays have WORLD_VOL empty slots |
| WorldData.World.BuildChunks | Assets/Scripts/Data/World.cs:8-24 | every slot holds a new chunk of this world at its position, with generated voxels, and that chunk's array is the one in `voxels` |
| WorldData.World.BuildChunkRow | Assets/Scripts/Data/World.cs:14-21 | the chunks of one (x, y) row are built in their slots and earlier slots are untouched |
| WorldData.World.BuildChunkMeshes | Assets/Scripts/Data/World.cs:26-32 | every non-empty chunk gets a mesh; nothing else changes |
| VoxelContainer.Lookup | Assets/Scripts/Data/.dev/Container.cs:97-115 | the stored voxel when the key is present, otherwise the empty voxel with id 0 |
| VoxelContainer.SideVertices | Assets/Scripts/Data/.dev/Container.cs:69-77 | a drawn face contributes six vertices |
| VoxelContainer.SideUvs | Assets/Scripts/Data/.dev/Container.cs:72-78 | a drawn face contributes six UVs |
| VoxelContainer.VoxelSidesMembers | Assets/Scripts/Data/.dev/Container.cs:61-64 | face i of a voxel is drawn iff the neighbour across it is not solid |
| VoxelContainer.VoxelSidesNoDup | Assets/Scripts/Data/.dev/Container.cs:61-81 | a voxel draws each of its faces at most once |
| VoxelContainer.OrderSidesMembers | Assets/Scripts/Data/.dev/Container.cs:52-64 | a face is drawn iff its voxel is stored with a non-zero id and the face is exposed |
| VoxelContainer.OrderSidesNoDup | Assets/Scripts/Data/.dev/Container.cs:52-81 | visiting each key once draws each face at most once |
| VoxelContainer.OrderIndependent | Assets/Scripts/Data/.dev/Container.cs:52-82 | every enumeration order of the dictionary draws the same multiset of faces |
| VoxelContainer.MeshData.constructor | Assets/Scripts/Data/.dev/Container.cs:118-125 | the default struct is not initialised |
| VoxelContainer.MeshData.ClearData | Assets/Scripts/Data/.dev/Container.cs:127-145 | from either state the data ends initialised with three empty lists |
| VoxelContainer.EmitsMore | Assets/Scripts/Data/.dev/Container.cs:75-80 | lists emitted for two runs of faces are those of the joined run |
| VoxelContainer.Container.constructor | Assets/Scripts/Data/.dev/Container.cs:11-15 | no voxels, uninitialised mesh data |
| VoxelContainer.Container.Initialize | Assets/Scripts/Data/.dev/Container.cs:21-27 | a new empty map and the given position |
| VoxelContainer.Container.ClearData | Assets/Scripts/Data/.dev/Container.cs:29-32 | the map is empty and every key reads as the empty voxel |
| VoxelContainer.Container.Set | Assets/Scripts/Data/.dev/Container.cs:106-112 | upsert: the key reads as the value and every other key as before |
| VoxelContainer.Container.GenerateMesh | Assets/Scripts/Data/.dev/Container.cs:41-83 | the keys are visited once each; the lists hold the six vertices and UVs of each drawn face, key by key, and `triangles[k] == k` |
| VoxelContainer.Container.DrawVoxel | Assets/Scripts/Data/.dev/Container.cs:60-81 | appends exactly the drawn faces of one voxel, in side order |
| VoxelContainer.Container.DrawSide | Assets/Scripts/Data/.dev/Container.cs:61-81 | appends face i iff the neighbour across it is not solid |
| VoxelContainer.Container.FillSide | Assets/Scripts/Data/.dev/Container.cs:69-73 | the reused arrays hold the face's corners at the voxel position and the four UVs |
| VoxelContainer.Container.AppendSide | Assets/Scripts/Data/.dev/Container.cs:75-80 | appends the six vertices and UVs in the face's triangle order, with indices `counter++` |

## Left out

- Unity engine calls are not modelled: `Mesh` creation, `SetVertices` and its siblings, `Optimize`, `RecalculateNormals`, `UploadMeshData` and `indexFormat`. The upload methods return what they would hand to the mesh as a `MeshUpload` value.
- `ChunkMesh.cs`, `WorldManager.cs`, components and materials are not part of this model; they are engine glue.
- The Perlin noise of `Chunk.BuildVoxels` is a parameter `solid: Vec3i -> bool`. It is evaluated at the voxel's local position, as the source does, since the source ignores the chunk position.
- `World.SpawnGrass` is not modelled: it uses float vectors, randomness and object creation.
- The backup mesher's height colour (float sin/cos) is a parameter `heightColor: byte -> Color`.
- Float rounding is not modelled: positions, UVs and colours are exact reals.
- GetChunkCoord: modelled as integer floor division. The source divides in single precision, which is exact only for |w| < 2^24.
- Dictionary enumeration order in `Container.GenerateMesh` is left open. The model picks each key by a choice (`:|`) and returns the resulting order as a ghost value. OrderIndependent states what holds for every order.
- The welds take the keys of the dictionary in insertion order. That is how `Dictionary` enumerates keys when none has been removed.
- The unused parameters are dropped: `worldVoxels` of the live mesher.
- The unused `mesh` field of the mesh buffers is dropped. `Chunk.mesh` is reduced to the flag `meshBuilt`.
- ChunkMeshBuilder.AverageVertex: requires at least one crossing edge. The source divides by the count unguarded (0/0 gives NaN). CornerHasCrossing shows that every call from AddQuad meets the requirement. The specification function AverageOf returns the origin for a count of 0; no caller reaches that case.
- The absolute facing direction of the surface-nets quads (outward from the solid side) is not proved. OppositeWindings proves only that the two windings face opposite ways.
- The absolute facing direction of the blocky faces is not proved either. FaceTablesAgree places every corner of a face on the cube side that the face checks.
- The loops over j, over a row and over a slab are separate methods. They keep each proof small, and together they perform the source's loop nest in the same order.
- ChunkMeshBuilderBackup.UploadMesh: declared in a static class in the source, and reads the fields of a buffer it does not have. It is modelled as a method taking the buffer. It requires the UV and colour lists to be at least as long as the vertex list, since the source would throw otherwise.
- BlockyFaces.IsVoid: the world is given as `seq<ChunkVoxels>` with WORLD_VOL chunks of CHUNK_VOL bytes (WorldShaped). A shorter array would make the source throw.
- The static tables of the backup mesher (`voxelVertices`, `voxelVertexIndex`, `voxelFaceChecks`) are lookup functions. Their values are those of the source.
- VoxelContainer: the `Voxel` type and the container's tables are not defined in `Container.cs`. Voxel is a datatype with the two members the container reads, `ID` and `isSolid`. The tables are a parameter of type `Tables`, which requires only that every entry read is in range.
- EmptyVoxel: taken as not solid, the default of a field the initialiser does not set.
- VoxelContainer.Container.constructor: the source's `data` is null until `Initialize`. The model starts with an empty map.
- `Container.UploadMesh` and `MeshData.UploadMesh` are left out. They only hand the lists to engine calls.
- The container's `MeshData` is a struct held in a field. It is modelled as an object owned by the container.
- Byte loop counters are modelled as unbounded integers. ByteSizedConstants shows they never wrap.
- MeshBuffer.ChunkMeshData.UploadMesh and ChunkMeshBuilderBackup.UploadMesh: require an initialised buffer. Before the first `ClearData` the source's lists and `mesh` are null, and `UploadMesh` would throw; that exception path is not modelled. Every caller calls `ClearData` first.
- MeshBuffer.ChunkMeshData.constructor: a new buffer starts with empty lists where the source has null lists; the flag `initialized` is false in both.
- Constants: the model uses the source values, a 1 x 1 x 1 world of 64^3 chunks.
- Concurrency: there is none in the source.
