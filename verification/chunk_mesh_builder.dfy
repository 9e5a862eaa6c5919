/** The mesher of ChunkMeshBuilder.cs: the loops that scan the lattice and
    fill a ChunkMeshData, proved to produce what module SurfaceNets
    specifies. */
module ChunkMeshBuilder {
  import opened Constants
  import opened Geometry
  import opened MeshBuffer
  import opened SurfaceNets
  import opened Concat

  /** The loop of AverageVertex. The source divides by `count` unguarded,
      which is why `count >= 1` is required here; CornerHasCrossing shows
      that every call made by AddQuad meets it. The result is the mean of
      crossing-edge midpoints and lies in the unit cube at pos. */
  method AverageVertex(pos: Vec3i, voxels: seq<byte>) returns (r: Vec3r)
    requires |voxels| == CHUNK_VOL
    requires CrossCount(voxels, pos, 12) >= 1
    ensures r == AverageOf(voxels, pos)
    ensures InUnitCube(r, pos)
  {
    var total := ZERO;
    var count := 0;
    for i := 0 to 12
      invariant total == CrossSum(voxels, pos, i)
      invariant count == CrossCount(voxels, pos, i)
    {
      var edgePos := pos.Plus(EdgeOffsets[i].0);
      var edgeNeighborPos := pos.Plus(EdgeOffsets[i].1);
      if IsVoid(edgePos, voxels) != IsVoid(edgeNeighborPos, voxels) {
        total := total.Plus(edgePos.Plus(edgeNeighborPos).ToReal().Div(2.0));
        count := count + 1;
      }
    }
    r := total.Div(count as real);
    AverageInUnitCube(voxels, pos);
  }

  /** The four smoothed corners of the quad across a transition, in a new
      array. */
  method AddQuad(localPos: Vec3i, axis: AxisIndex, voxels: seq<byte>) returns (vertices: array<Vec3r>)
    requires |voxels| == CHUNK_VOL && Transition(voxels, localPos, axis)
    ensures vertices.Length == 4 && vertices[..] == QuadCorners(voxels, localPos, axis)
    ensures forall k :: 0 <= k < 4 ==> InUnitCube(vertices[k], localPos.Plus(VoxelQuads[axis][k]))
  {
    vertices := new Vec3r[4](_ => ZERO);
    for i := 0 to |VoxelQuads[axis]|
      invariant forall k :: 0 <= k < i ==> vertices[k] == QuadCorners(voxels, localPos, axis)[k]
    {
      var quadVertexPos := localPos.Plus(VoxelQuads[axis][i]);
      CornerHasCrossing(voxels, localPos, axis, i);
      vertices[i] := AverageVertex(quadVertexPos, voxels);
    }
    forall k | 0 <= k < 4
      ensures InUnitCube(vertices[k], localPos.Plus(VoxelQuads[axis][k]))
    {
      QuadCornerInCube(voxels, localPos, axis, k);
    }
  }

  /** The inner loop of CreateSurfaceQuads: appends the six vertices of a
      quad in the winding chosen by `voxelExists`, with their UVs, white
      colours and consecutive indices. */
  method AppendQuadTriangles(meshData: ChunkMeshData, quadVertices: array<Vec3r>, voxelExists: bool, counter: int)
    returns (next: int)
    requires quadVertices.Length == 4
    requires ListsAgree(meshData) && counter == |meshData.vertices| && counter % 6 == 0
    modifies meshData
    ensures meshData.vertices == old(meshData.vertices) + Wound(old(quadVertices[..]), voxelExists)
    ensures ListsAgree(meshData) && next == |meshData.vertices| && next % 6 == 0
    ensures meshData.initialized == old(meshData.initialized)
  {
    ghost var wound := Wound(quadVertices[..], voxelExists);
    next := counter;
    for j := 0 to 6
      invariant meshData.vertices == old(meshData.vertices) + wound[..j]
      invariant ListsAgree(meshData) && next == counter + j
      invariant meshData.initialized == old(meshData.initialized)
    {
      ghost var prev := meshData.vertices;
      if voxelExists {
        meshData.vertices := meshData.vertices + [quadVertices[VoxelTriangles[j]]];
      } else {
        meshData.vertices := meshData.vertices + [quadVertices[VoxelTrianglesReverse[j]]];
      }
      assert meshData.vertices == prev + [wound[j]];
      assert wound[..j + 1] == wound[..j] + [wound[j]];
      AppendAssoc(old(meshData.vertices), wound[..j], [wound[j]]);
      ModSix(counter, j);
      AgreeStep(next, meshData.uvs, meshData.colors, meshData.triangles);
      meshData.uvs := meshData.uvs + [VoxelUVs[VoxelTriangles[j]]];
      meshData.colors := meshData.colors + [WHITE];
      meshData.triangles := meshData.triangles + [next];
      next := next + 1;
    }
    assert wound[..6] == wound;
    ModSix(counter, 0);
    assert next == counter + 6;
  }

  /** Appends the quads of one lattice point: for each axis with a
      transition, six vertices in the winding chosen by which side is
      solid, six UVs, six white colours and six consecutive indices. */
  method CreateSurfaceQuads(localPos: Vec3i, voxels: seq<byte>, meshData: ChunkMeshData, counter: int)
    returns (next: int)
    requires |voxels| == CHUNK_VOL
    requires ListsAgree(meshData) && counter == |meshData.vertices| && counter % 6 == 0
    modifies meshData
    ensures meshData.vertices == old(meshData.vertices) + MeshVertices(voxels, CellQuads(voxels, localPos))
    ensures ListsAgree(meshData) && next == |meshData.vertices| && next % 6 == 0
    ensures meshData.initialized == old(meshData.initialized)
  {
    next := counter;
    for i := 0 to |VoxelAxis|
      invariant meshData.vertices ==
                old(meshData.vertices) + MeshVertices(voxels, AxisQuads(voxels, localPos, i))
      invariant ListsAgree(meshData) && next == |meshData.vertices| && next % 6 == 0
      invariant meshData.initialized == old(meshData.initialized)
    {
      var axis := VoxelAxis[i];
      var neighborPos := localPos.Plus(axis);
      var voxelExists := !IsVoid(localPos, voxels);
      var neighborExists := !IsVoid(neighborPos, voxels);
      if (!voxelExists && neighborExists) || (voxelExists && !neighborExists) {
        var quadVertices := AddQuad(localPos, i, voxels);
        ghost var corners := quadVertices[..];
        AxisQuadsStep(voxels, localPos, i, corners);
        ghost var start, done := old(meshData.vertices), MeshVertices(voxels, AxisQuads(voxels, localPos, i));
        next := AppendQuadTriangles(meshData, quadVertices, voxelExists, next);
        AppendAssoc(start, done, Wound(corners, voxelExists));
      } else {
        AxisQuadsSkip(voxels, localPos, i);
      }
    }
  }

  /** The innermost loop of BuildChunkMesh: visits the points (x, y, z) of
      one row, z from -1 to S, appending the quads of each. */
  method CreateRowQuads(voxels: seq<byte>, x: int, y: int, meshData: ChunkMeshData, counter: int)
    returns (next: int)
    requires |voxels| == CHUNK_VOL
    requires ListsAgree(meshData) && counter == |meshData.vertices| && counter % 6 == 0
    modifies meshData
    ensures meshData.vertices == old(meshData.vertices) + MeshVertices(voxels, RowQuads(voxels, x, y, CHUNK_SIZE + 1))
    ensures ListsAgree(meshData) && next == |meshData.vertices| && next % 6 == 0
    ensures meshData.initialized == old(meshData.initialized)
  {
    next := counter;
    for z := -1 to CHUNK_SIZE + 1
      invariant meshData.vertices == old(meshData.vertices) + MeshVertices(voxels, RowQuads(voxels, x, y, z))
      invariant ListsAgree(meshData) && next == |meshData.vertices| && next % 6 == 0
      invariant meshData.initialized == old(meshData.initialized)
    {
      ghost var start, done := old(meshData.vertices), MeshVertices(voxels, RowQuads(voxels, x, y, z));
      next := CreateSurfaceQuads(Vec3i(x, y, z), voxels, meshData, next);
      RowPointStep(voxels, x, y, z);
      AppendAssoc(start, done, MeshVertices(voxels, CellQuads(voxels, Vec3i(x, y, z))));
    }
  }

  /** Builds the mesh of one chunk. The result depends on `voxels` alone:
      `chunkPos` is accepted and never read. The vertex list is the
      concatenation, in scan order, of the six vertices of every emitted
      quad; the UV, colour and index lists run parallel to it. */
  method BuildChunkMesh(voxels: seq<byte>, chunkPos: Vec3i) returns (meshData: ChunkMeshData)
    requires |voxels| == CHUNK_VOL
    ensures meshData.initialized
    ensures meshData.vertices == MeshVertices(voxels, SurfaceQuads(voxels))
    ensures |meshData.vertices| == 6 * |SurfaceQuads(voxels)|
    ensures meshData.uvs == UvCycle(|meshData.vertices|)
    ensures meshData.colors == WhiteRun(|meshData.vertices|)
    ensures meshData.triangles == Iota(|meshData.vertices|)
  {
    meshData := new ChunkMeshData();
    meshData.ClearData();
    var counter := 0;
    for x := -1 to CHUNK_SIZE + 1
      invariant meshData.vertices == ScanPrefix(voxels, x, -1)
      invariant ListsAgree(meshData) && counter == |meshData.vertices| && counter % 6 == 0
      invariant meshData.initialized
    {
      for y := -1 to CHUNK_SIZE + 1
        invariant meshData.vertices == ScanPrefix(voxels, x, y)
        invariant ListsAgree(meshData) && counter == |meshData.vertices| && counter % 6 == 0
        invariant meshData.initialized
      {
        counter := CreateRowQuads(voxels, x, y, meshData, counter);
        ScanRowStep(voxels, x, y, CHUNK_SIZE + 1);
      }
      ScanSlabStep(voxels, x, CHUNK_SIZE + 1);
    }
    ScanComplete(voxels, CHUNK_SIZE + 1);
  }
}
