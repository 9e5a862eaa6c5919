/** The blocky mesher of ChunkMeshBuilder_backup.cs: the loops that visit
    every voxel of a chunk and emit the cube faces that border void, and the
    upload step that welds vertices on their whole attribute triple. Each
    loop is proved to append exactly the faces module BlockyFaces
    specifies. */
module ChunkMeshBuilderBackup {
  import opened Constants
  import opened Geometry
  import opened MeshBuffer
  import SurfaceNets
  import opened BlockyFaces
  import opened Concat
  import Weld

  /** The UV and index lists run parallel to the vertex list: UVs follow
      VoxelTriangles for every face, indices count up from 0. */
  ghost predicate AttributesAgree(m: ChunkMeshData)
    reads m
  {
    m.uvs == SurfaceNets.UvCycle(|m.vertices|) && m.triangles == Iota(|m.vertices|)
  }

  /** The first loop over j: the four corners of face f, written into the
      reused array. */
  method FillFaceCorners(faceVertices: array<Vec3r>, f: Face)
    requires faceVertices.Length == 4
    modifies faceVertices
    ensures faceVertices[..] == FaceCorners(f)
  {
    for j := 0 to 4
      invariant forall k :: 0 <= k < j ==> faceVertices[k] == FaceCorner(f, k)
    {
      faceVertices[j] := VoxelVertices(VoxelVertexIndex(f.side)[j]).Plus(f.pos).ToReal();
    }
  }

  /** The second loop over j: the six vertices of the face's two triangles
      in VoxelTriangles order, their UVs, the voxel's colour six times, and
      six consecutive indices. */
  method AppendFaceTriangles(meshData: ChunkMeshData, faceVertices: array<Vec3r>, voxelColor: Color, counter: int)
    returns (next: int)
    requires faceVertices.Length == 4
    requires AttributesAgree(meshData) && counter == |meshData.vertices| && counter % 6 == 0
    modifies meshData
    ensures meshData.vertices == old(meshData.vertices) + SurfaceNets.Wound(faceVertices[..], true)
    ensures meshData.colors == old(meshData.colors) + Six(voxelColor)
    ensures AttributesAgree(meshData) && next == |meshData.vertices| && next % 6 == 0
    ensures meshData.initialized == old(meshData.initialized)
  {
    ghost var wound := SurfaceNets.Wound(faceVertices[..], true);
    next := counter;
    for j := 0 to 6
      invariant meshData.vertices == old(meshData.vertices) + wound[..j]
      invariant meshData.colors == old(meshData.colors) + Six(voxelColor)[..j]
      invariant AttributesAgree(meshData) && next == counter + j
      invariant meshData.initialized == old(meshData.initialized)
    {
      SurfaceNets.ModSix(counter, j);
      assert wound[..j + 1] == wound[..j] + [wound[j]];
      assert Six(voxelColor)[..j + 1] == Six(voxelColor)[..j] + [voxelColor];
      AppendAssoc(old(meshData.vertices), wound[..j], [wound[j]]);
      AppendAssoc(old(meshData.colors), Six(voxelColor)[..j], [voxelColor]);
      assert meshData.uvs + [SurfaceNets.VoxelUVs[SurfaceNets.VoxelTriangles[j]]] == SurfaceNets.UvCycle(next + 1);
      assert meshData.triangles + [next] == Iota(next + 1);
      meshData.vertices := meshData.vertices + [faceVertices[SurfaceNets.VoxelTriangles[j]]];
      meshData.uvs := meshData.uvs + [SurfaceNets.VoxelUVs[SurfaceNets.VoxelTriangles[j]]];
      meshData.colors := meshData.colors + [voxelColor];
      meshData.triangles := meshData.triangles + [next];
      next := next + 1;
    }
    assert wound[..6] == wound;
    assert Six(voxelColor)[..6] == Six(voxelColor);
    SurfaceNets.ModSix(counter, 0);
  }

  /** The body of the innermost loop for voxel p: nothing for a voxel whose
      id is 0; otherwise the loop over its six sides, where a side is
      emitted iff the neighbour across it is void, looked up through the
      world. */
  method CreateVoxelFaces(s: Scene, p: Vec3i, faceVertices: array<Vec3r>, meshData: ChunkMeshData, counter: int)
    returns (next: int)
    requires s.Valid() && SurfaceNets.IsInsideChunk(p)
    requires faceVertices.Length == 4
    requires AttributesAgree(meshData) && counter == |meshData.vertices| && counter % 6 == 0
    modifies meshData, faceVertices
    ensures Emits(meshData, old(meshData.vertices), old(meshData.colors), CellFaces(s, p))
    ensures AttributesAgree(meshData) && next == |meshData.vertices| && next % 6 == 0
    ensures meshData.initialized == old(meshData.initialized)
  {
    next := counter;
    SurfaceNets.VoxelIndexInRange(p);
    var voxelId := s.voxels[p.x + p.z * CHUNK_SIZE + p.y * CHUNK_AREA];
    assert voxelId == VoxelId(s, p);
    if voxelId == 0 {
      return;
    }
    var voxelColor := s.heightColor(voxelId);
    var worldPos := WorldPos(s.chunkPos, p);
    ghost var v0, c0 := meshData.vertices, meshData.colors;
    for i := 0 to 6
      invariant Emits(meshData, v0, c0, SideFaces(s, p, i))
      invariant AttributesAgree(meshData) && next == |meshData.vertices| && next % 6 == 0
      invariant meshData.initialized == old(meshData.initialized)
    {
      ghost var fs := SideFaces(s, p, i);
      next := CreateSideFace(s, p, i, voxelColor, worldPos, faceVertices, meshData, next);
      EmitsMore(meshData, v0, c0, fs, SideFace(s, p, i));
      SideFacesNext(s, p, i);
    }
  }

  /** One pass of the side loop of BuildChunkMesh: appends the face on side
      i of the solid voxel p if the voxel across that side is void. */
  method CreateSideFace(s: Scene, p: Vec3i, i: FaceIndex, voxelColor: Color, worldPos: Vec3i,
                        faceVertices: array<Vec3r>, meshData: ChunkMeshData, counter: int)
    returns (next: int)
    requires s.Valid() && SurfaceNets.IsInsideChunk(p) && VoxelId(s, p) != 0
    requires voxelColor == s.heightColor(VoxelId(s, p)) && worldPos == WorldPos(s.chunkPos, p)
    requires faceVertices.Length == 4
    requires AttributesAgree(meshData) && counter == |meshData.vertices| && counter % 6 == 0
    modifies meshData, faceVertices
    ensures Emits(meshData, old(meshData.vertices), old(meshData.colors), SideFace(s, p, i))
    ensures AttributesAgree(meshData) && next == |meshData.vertices| && next % 6 == 0
    ensures meshData.initialized == old(meshData.initialized)
  {
    next := counter;
    if !IsVoid(p.Plus(VoxelFaceChecks(i)), worldPos.Plus(VoxelFaceChecks(i)), s.world) {
      assert meshData.vertices + [] == meshData.vertices && meshData.colors + [] == meshData.colors;
      return;
    }
    var f := Face(p, i, voxelColor);
    FillFaceCorners(faceVertices, f);
    next := AppendFaceTriangles(meshData, faceVertices, voxelColor, next);
    assert [f][..0] == [];
  }

  /** The vertex and colour lists of m are v0 and c0 followed by the six
      vertices, and the six colours, of each face of fs in order. */
  ghost predicate Emits(m: ChunkMeshData, v0: seq<Vec3r>, c0: seq<Color>, fs: seq<Face>)
    reads m
  {
    m.vertices == v0 + Flatten(fs, FaceVertices) && m.colors == c0 + Flatten(fs, FaceColors)
  }

  /** Appending the lists of gs after those of fs emits fs + gs. */
  lemma EmitsMore(m: ChunkMeshData, v0: seq<Vec3r>, c0: seq<Color>, fs: seq<Face>, gs: seq<Face>)
    requires m.vertices == v0 + Flatten(fs, FaceVertices) + Flatten(gs, FaceVertices)
    requires m.colors == c0 + Flatten(fs, FaceColors) + Flatten(gs, FaceColors)
    ensures Emits(m, v0, c0, fs + gs)
  {
    FlattenAppend(fs, gs, FaceVertices);
    FlattenAppend(fs, gs, FaceColors);
    AppendAssoc(v0, Flatten(fs, FaceVertices), Flatten(gs, FaceVertices));
    AppendAssoc(c0, Flatten(fs, FaceColors), Flatten(gs, FaceColors));
  }

  /** cell gives the faces of every voxel, as CellFaces does. */
  ghost predicate CellsOf(s: Scene, cell: Vec3i -> seq<Face>)
  {
    s.Valid() && forall p {:trigger CellFaces(s, p)} :: cell(p) == CellFaces(s, p)
  }

  /** The innermost loop of BuildChunkMesh: the voxels (x, y, z) of one
      row, z from 0 to S - 1. */
  method CreateRowFaces(s: Scene, ghost cell: Vec3i -> seq<Face>, x: int, y: int, faceVertices: array<Vec3r>, meshData: ChunkMeshData, counter: int)
    returns (next: int)
    requires CellsOf(s, cell) && 0 <= x < CHUNK_SIZE && 0 <= y < CHUNK_SIZE
    requires faceVertices.Length == 4
    requires AttributesAgree(meshData) && counter == |meshData.vertices| && counter % 6 == 0
    modifies meshData, faceVertices
    ensures Emits(meshData, old(meshData.vertices), old(meshData.colors), RowUpTo(cell, x, y, CHUNK_SIZE - 1))
    ensures AttributesAgree(meshData) && next == |meshData.vertices| && next % 6 == 0
    ensures meshData.initialized == old(meshData.initialized)
  {
    next := counter;
    ghost var v0, c0 := meshData.vertices, meshData.colors;
    for z := 0 to CHUNK_SIZE
      invariant Emits(meshData, v0, c0, RowUpTo(cell, x, y, z - 1))
      invariant AttributesAgree(meshData) && next == |meshData.vertices| && next % 6 == 0
      invariant meshData.initialized == old(meshData.initialized)
    {
      ghost var fs := RowUpTo(cell, x, y, z - 1);
      next := CreateVoxelFaces(s, Vec3i(x, y, z), faceVertices, meshData, next);
      EmitsMore(meshData, v0, c0, fs, CellFaces(s, Vec3i(x, y, z)));
    }
  }

  /** The middle loop of BuildChunkMesh: the rows (x, y) of one slab, y from
      0 to S - 1. */
  method CreateSlabFaces(s: Scene, ghost cell: Vec3i -> seq<Face>, x: int, faceVertices: array<Vec3r>, meshData: ChunkMeshData, counter: int)
    returns (next: int)
    requires CellsOf(s, cell) && 0 <= x < CHUNK_SIZE
    requires faceVertices.Length == 4
    requires AttributesAgree(meshData) && counter == |meshData.vertices| && counter % 6 == 0
    modifies meshData, faceVertices
    ensures Emits(meshData, old(meshData.vertices), old(meshData.colors), PlaneUpTo(cell, x, CHUNK_SIZE - 1))
    ensures AttributesAgree(meshData) && next == |meshData.vertices| && next % 6 == 0
    ensures meshData.initialized == old(meshData.initialized)
  {
    next := counter;
    ghost var v0, c0 := meshData.vertices, meshData.colors;
    for y := 0 to CHUNK_SIZE
      invariant Emits(meshData, v0, c0, PlaneUpTo(cell, x, y - 1))
      invariant AttributesAgree(meshData) && next == |meshData.vertices| && next % 6 == 0
      invariant meshData.initialized == old(meshData.initialized)
    {
      ghost var fs := PlaneUpTo(cell, x, y - 1);
      next := CreateRowFaces(s, cell, x, y, faceVertices, meshData, next);
      EmitsMore(meshData, v0, c0, fs, RowUpTo(cell, x, y, CHUNK_SIZE - 1));
    }
  }

  /** Builds the blocky mesh of one chunk. The vertex list is the
      concatenation, in scan order, of the six vertices of every face
      ChunkFaces lists, the colour list gives each vertex its face's
      colour, and the UV and index lists run parallel. `heightColor`
      stands for the colour the source derives from the voxel id. */
  method BuildChunkMesh(voxels: seq<byte>, chunkPos: Vec3i, worldVoxels: seq<ChunkVoxels>, heightColor: byte -> Color)
    returns (meshData: ChunkMeshData)
    requires |voxels| == CHUNK_VOL && WorldShaped(worldVoxels)
    ensures meshData.initialized
    ensures var s := Scene(voxels, chunkPos, worldVoxels, heightColor);
            s.Valid() &&
            meshData.vertices == Flatten(ChunkFaces(s), FaceVertices) &&
            meshData.colors == Flatten(ChunkFaces(s), FaceColors) &&
            |meshData.vertices| == 6 * |ChunkFaces(s)|
    ensures meshData.uvs == SurfaceNets.UvCycle(|meshData.vertices|)
    ensures meshData.triangles == Iota(|meshData.vertices|)
  {
    var s := Scene(voxels, chunkPos, worldVoxels, heightColor);
    meshData := new ChunkMeshData();
    meshData.ClearData();
    var faceVertices := new Vec3r[4](_ => ZERO);
    var counter := 0;
    ghost var cell := Cells(s);
    for x := 0 to CHUNK_SIZE
      invariant Emits(meshData, [], [], VolumeUpTo(cell, x - 1))
      invariant AttributesAgree(meshData) && counter == |meshData.vertices| && counter % 6 == 0
      invariant meshData.initialized
    {
      ghost var fs := VolumeUpTo(cell, x - 1);
      counter := CreateSlabFaces(s, cell, x, faceVertices, meshData, counter);
      EmitsMore(meshData, [], [], fs, PlaneUpTo(cell, x, CHUNK_SIZE - 1));
    }
    assert [] + Flatten(ChunkFaces(s), FaceVertices) == Flatten(ChunkFaces(s), FaceVertices);
    assert [] + Flatten(ChunkFaces(s), FaceColors) == Flatten(ChunkFaces(s), FaceColors);
    FlattenLength(ChunkFaces(s), FaceVertices);
  }

  /** The weld key of each raw vertex: its position, UV and colour. */
  function VertexKeys(vertices: seq<Vec3r>, uvs: seq<Uv>, colors: seq<Color>): (r: seq<(Vec3r, Uv, Color)>)
    requires |uvs| >= |vertices| && |colors| >= |vertices|
    ensures |r| == |vertices|
    ensures forall i :: 0 <= i < |vertices| ==> r[i] == (vertices[i], uvs[i], colors[i])
  {
    seq(|vertices|, i requires 0 <= i < |vertices| => (vertices[i], uvs[i], colors[i]))
  }

  /** UploadMesh of the backup mesher. With sharedVertices, raw vertices
      are welded on their whole (position, UV, colour) triple: the mesh
      receives the distinct triples, in first-occurrence order, split into
      three parallel lists, and per raw vertex the index of its triple, so
      two raw vertices share an index exactly when all three attributes
      agree. Without it, the four lists go up unchanged. The source reads
      the UV and colour of every raw vertex, so those lists must be at
      least as long as the vertex list. */
  method UploadMesh(meshData: ChunkMeshData, sharedVertices: bool) returns (upload: MeshUpload)
    requires meshData.initialized
    requires sharedVertices ==> |meshData.uvs| >= |meshData.vertices| && |meshData.colors| >= |meshData.vertices|
    ensures !sharedVertices ==>
              upload == MeshUpload(meshData.vertices, meshData.triangles, Some(meshData.uvs), Some(meshData.colors))
    ensures sharedVertices ==>
              var keys := VertexKeys(meshData.vertices, meshData.uvs, meshData.colors);
              upload.uvs.Some? && upload.colors.Some? &&
              upload.triangles == Weld.WeldIndices(keys) &&
              |upload.vertices| == |upload.uvs.value| == |upload.colors.value| == |Weld.Distinct(keys)| &&
              forall k :: 0 <= k < |upload.vertices| ==>
                (upload.vertices[k], upload.uvs.value[k], upload.colors.value[k]) == Weld.Distinct(keys)[k]
    ensures sharedVertices ==>
              |upload.vertices| <= |meshData.vertices| && |upload.triangles| == |meshData.vertices|
    ensures sharedVertices ==>
              forall i :: 0 <= i < |meshData.vertices| ==>
                0 <= upload.triangles[i] < |upload.vertices| &&
                upload.vertices[upload.triangles[i]] == meshData.vertices[i] &&
                upload.uvs.value[upload.triangles[i]] == meshData.uvs[i] &&
                upload.colors.value[upload.triangles[i]] == meshData.colors[i]
    ensures sharedVertices ==>
              forall i, j :: 0 <= i < |meshData.vertices| && 0 <= j < |meshData.vertices| ==>
                (upload.triangles[i] == upload.triangles[j] <==>
                 meshData.vertices[i] == meshData.vertices[j] && meshData.uvs[i] == meshData.uvs[j] &&
                 meshData.colors[i] == meshData.colors[j])
  {
    if sharedVertices {
      var keys := VertexKeys(meshData.vertices, meshData.uvs, meshData.colors);
      var distinct, sharedTriangles := Weld.WeldVertices(keys);
      Weld.WeldIndicesUnique(keys, sharedTriangles);
      var positions := seq(|distinct|, k requires 0 <= k < |distinct| => distinct[k].0);
      var uvs := seq(|distinct|, k requires 0 <= k < |distinct| => distinct[k].1);
      var colors := seq(|distinct|, k requires 0 <= k < |distinct| => distinct[k].2);
      upload := MeshUpload(positions, sharedTriangles, Some(uvs), Some(colors));
    } else {
      upload := MeshUpload(meshData.vertices, meshData.triangles, Some(meshData.uvs), Some(meshData.colors));
    }
  }
}
