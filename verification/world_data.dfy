/** The world and its chunks (World.cs, Chunk.cs): the chunk grid, the
    voxel array each chunk generates from a noise test, the isEmpty flag,
    and the guard that skips meshing a chunk with no solid voxel. */
module WorldData {
  import opened Constants
  import opened Geometry
  import Linear
  import SurfaceNets

  /** The byte BuildVoxels stores for a noise outcome. */
  function Bit(solid: bool): (r: byte)
    ensures r <= 1 && (r == 0 <==> !solid)
  {
    if solid then 1 else 0
  }

  /** The local position whose voxel is stored at index i. */
  function LocalOf(i: int): Vec3i
    requires 0 <= i
  {
    var c := Linear.Cell(i, CHUNK_SIZE, CHUNK_SIZE);
    Vec3i(c.0, c.1, c.2)
  }

  /** The voxels BuildVoxels generates: voxel p is 1 where the noise test
      `solid` holds at p and 0 elsewhere. */
  function Generated(solid: Vec3i -> bool): (r: seq<byte>)
    ensures |r| == CHUNK_VOL
  {
    seq(CHUNK_VOL, i requires 0 <= i < CHUNK_VOL => Bit(solid(LocalOf(i))))
  }

  /** Every generated voxel is 0 or 1. */
  lemma GeneratedIsBinary(solid: Vec3i -> bool)
    ensures forall i :: 0 <= i < CHUNK_VOL ==> Generated(solid)[i] <= 1
  {
    forall i | 0 <= i < CHUNK_VOL ensures Generated(solid)[i] <= 1 {
      assert Generated(solid)[i] == Bit(solid(LocalOf(i)));
    }
  }

  /** Every in-chunk voxel has its index in the array. */
  lemma AllVoxelIndicesInRange()
    ensures forall p :: SurfaceNets.IsInsideChunk(p) ==> 0 <= SurfaceNets.VoxelIndex(p) < CHUNK_VOL
  {
    forall p | SurfaceNets.IsInsideChunk(p)
      ensures 0 <= SurfaceNets.VoxelIndex(p) < CHUNK_VOL
    {
      SurfaceNets.VoxelIndexInRange(p);
    }
  }

  /** Two distinct in-chunk voxels are stored at distinct indices. */
  lemma DistinctVoxelIndices(q: Vec3i)
    requires SurfaceNets.IsInsideChunk(q)
    ensures forall p :: SurfaceNets.IsInsideChunk(p) && p != q ==>
              SurfaceNets.VoxelIndex(p) != SurfaceNets.VoxelIndex(q)
  {
    forall p | SurfaceNets.IsInsideChunk(p) && SurfaceNets.VoxelIndex(p) == SurfaceNets.VoxelIndex(q)
      ensures p == q
    {
      Linear.IndexInjective(p.x, p.y, p.z, q.x, q.y, q.z, CHUNK_SIZE, CHUNK_SIZE, CHUNK_SIZE);
    }
  }

  /** The generated byte at voxel p's index is the noise outcome at p. */
  lemma GeneratedAt(solid: Vec3i -> bool, p: Vec3i)
    requires SurfaceNets.IsInsideChunk(p)
    ensures 0 <= SurfaceNets.VoxelIndex(p) < CHUNK_VOL
    ensures Generated(solid)[SurfaceNets.VoxelIndex(p)] == Bit(solid(p))
  {
    SurfaceNets.VoxelIndexInRange(p);
    Linear.CellOfIndex(p.x, p.y, p.z, CHUNK_SIZE, CHUNK_SIZE, CHUNK_SIZE);
    assert LocalOf(SurfaceNets.VoxelIndex(p)) == p;
  }

  /** A generated chunk is all zero exactly when the noise test fails at
      every voxel of the chunk. */
  lemma GeneratedEmptyIffNoSolid(solid: Vec3i -> bool)
    ensures (forall i :: 0 <= i < CHUNK_VOL ==> Generated(solid)[i] == 0) <==>
            (forall p :: SurfaceNets.IsInsideChunk(p) ==> !solid(p))
  {
    if forall i :: 0 <= i < CHUNK_VOL ==> Generated(solid)[i] == 0 {
      forall p | SurfaceNets.IsInsideChunk(p) ensures !solid(p) {
        GeneratedAt(solid, p);
      }
    }
    if forall p :: SurfaceNets.IsInsideChunk(p) ==> !solid(p) {
      forall i | 0 <= i < CHUNK_VOL ensures Generated(solid)[i] == 0 {
        Linear.IndexOfCell(i, CHUNK_SIZE, CHUNK_SIZE, CHUNK_SIZE);
        assert SurfaceNets.IsInsideChunk(LocalOf(i));
      }
    }
  }

  /** Voxel p comes before (x, y, z) in BuildVoxels' visiting order: x
      outermost, then z, then y. */
  predicate Before(p: Vec3i, x: int, z: int, y: int)
  {
    p.x < x || (p.x == x && (p.z < z || (p.z == z && p.y < y)))
  }

  /** a holds the generated byte at every voxel visited before (x, y, z)
      and 0 at every other voxel. */
  ghost predicate Filled(a: array<byte>, solid: Vec3i -> bool, x: int, z: int, y: int)
    reads a
  {
    a.Length == CHUNK_VOL &&
    forall p :: SurfaceNets.IsInsideChunk(p) ==>
      0 <= SurfaceNets.VoxelIndex(p) < CHUNK_VOL &&
      a[SurfaceNets.VoxelIndex(p)] == if Before(p, x, z, y) then Bit(solid(p)) else 0
  }

  ghost predicate AllZero(a: array<byte>)
    reads a
  {
    forall i :: 0 <= i < a.Length ==> a[i] == 0
  }

  /** Once every voxel has been visited the array is the generated one. */
  lemma FilledIsGenerated(a: array<byte>, solid: Vec3i -> bool)
    requires Filled(a, solid, CHUNK_SIZE, 0, 0)
    ensures a[..] == Generated(solid)
  {
    forall i | 0 <= i < CHUNK_VOL
      ensures a[i] == Generated(solid)[i]
    {
      Linear.IndexOfCell(i, CHUNK_SIZE, CHUNK_SIZE, CHUNK_SIZE);
      assert SurfaceNets.VoxelIndex(LocalOf(i)) == i;
    }
  }

  class Chunk {
    var voxels: array?<byte>
    /** Whether a mesh object has been created (the source's `mesh` is not
        null). */
    var meshBuilt: bool
    var world: World?
    var position: Vec3i
    var isEmpty: bool

    /** Stores world and position unchanged; the chunk starts empty, with
        no voxels and no mesh. */
    constructor (world: World?, position: Vec3i)
      ensures this.world == world && this.position == position
      ensures voxels == null && !meshBuilt && isEmpty
    {
      this.world := world;
      this.position := position;
      voxels := null;
      meshBuilt := false;
      isEmpty := true;
    }

    /** Fills a new array with the noise test at every local position, in
        the order x, z, y, and clears isEmpty on the first solid voxel. The
        flag is never set back to true. The noise is read at the local
        position: the chunk's own position does not enter it. */
    method BuildVoxels(solid: Vec3i -> bool) returns (generated: array<byte>)
      modifies this
      ensures fresh(generated) && generated[..] == Generated(solid)
      ensures isEmpty == (old(isEmpty) && forall i :: 0 <= i < CHUNK_VOL ==> generated[i] == 0)
      ensures voxels == old(voxels) && meshBuilt == old(meshBuilt)
      ensures world == old(world) && position == old(position)
    {
      generated := new byte[CHUNK_VOL](_ => 0);
      AllVoxelIndicesInRange();
      for x := 0 to CHUNK_SIZE
        invariant Filled(generated, solid, x, 0, 0)
        invariant isEmpty == (old(isEmpty) && AllZero(generated))
        invariant voxels == old(voxels) && meshBuilt == old(meshBuilt)
        invariant world == old(world) && position == old(position)
      {
        FillSlab(generated, solid, x, old(isEmpty));
      }
      FilledIsGenerated(generated, solid);
    }

    /** The loop over z of BuildVoxels, at one x. */
    method FillSlab(a: array<byte>, solid: Vec3i -> bool, x: int, ghost isEmpty0: bool)
      requires 0 <= x < CHUNK_SIZE && Filled(a, solid, x, 0, 0)
      requires isEmpty == (isEmpty0 && AllZero(a))
      modifies this, a
      ensures Filled(a, solid, x + 1, 0, 0)
      ensures isEmpty == (isEmpty0 && AllZero(a))
      ensures voxels == old(voxels) && meshBuilt == old(meshBuilt)
      ensures world == old(world) && position == old(position)
    {
      for z := 0 to CHUNK_SIZE
        invariant Filled(a, solid, x, z, 0)
        invariant isEmpty == (isEmpty0 && AllZero(a))
        invariant voxels == old(voxels) && meshBuilt == old(meshBuilt)
        invariant world == old(world) && position == old(position)
      {
        FillColumn(a, solid, x, z, isEmpty0);
      }
    }

    /** The loop over y of BuildVoxels, at one (x, z). */
    method FillColumn(a: array<byte>, solid: Vec3i -> bool, x: int, z: int, ghost isEmpty0: bool)
      requires 0 <= x < CHUNK_SIZE && 0 <= z < CHUNK_SIZE && Filled(a, solid, x, z, 0)
      requires isEmpty == (isEmpty0 && AllZero(a))
      modifies this, a
      ensures Filled(a, solid, x, z + 1, 0)
      ensures isEmpty == (isEmpty0 && AllZero(a))
      ensures voxels == old(voxels) && meshBuilt == old(meshBuilt)
      ensures world == old(world) && position == old(position)
    {
      for y := 0 to CHUNK_SIZE
        invariant Filled(a, solid, x, z, y)
        invariant isEmpty == (isEmpty0 && AllZero(a))
        invariant voxels == old(voxels) && meshBuilt == old(meshBuilt)
        invariant world == old(world) && position == old(position)
      {
        var p := Vec3i(x, y, z);
        var voxelIndex := x + z * CHUNK_SIZE + y * CHUNK_AREA;
        SurfaceNets.VoxelIndexInRange(p);
        DistinctVoxelIndices(p);
        a[voxelIndex] := Bit(solid(p));
        if a[voxelIndex] > 0 {
          isEmpty := false;
        }
      }
    }

    /** Does nothing for an empty chunk; otherwise creates the chunk's mesh
        object (the mesh building itself happens in engine code). */
    method BuildMesh()
      modifies this
      ensures meshBuilt == (old(meshBuilt) || !isEmpty)
      ensures isEmpty ==> meshBuilt == old(meshBuilt)
      ensures isEmpty == old(isEmpty) && voxels == old(voxels)
      ensures world == old(world) && position == old(position)
    {
      if isEmpty {
        return;
      }
      meshBuilt := true;
    }
  }

  /** Chunk c comes before (x, y, z) in BuildChunks' visiting order: x
      outermost, then y, then z. */
  predicate ChunkBefore(c: Vec3i, x: int, y: int, z: int)
  {
    c.x < x || (c.x == x && (c.y < y || (c.y == y && c.z < z)))
  }

  /** c is the position of a chunk of the world. */
  predicate InWorld(c: Vec3i)
  {
    Linear.InBox(c.x, c.y, c.z, WORLD_WIDTH, WORLD_HEIGHT, WORLD_DEPTH)
  }

  /** Slot of chunk c in the world's arrays: x + z*W + y*W*D. */
  function ChunkIndex(c: Vec3i): int
  {
    Linear.Index(c.x, c.y, c.z, WORLD_WIDTH, WORLD_DEPTH)
  }

  /** The chunk position stored at slot i. */
  function ChunkAt(i: int): Vec3i
    requires 0 <= i
  {
    var c := Linear.Cell(i, WORLD_WIDTH, WORLD_DEPTH);
    Vec3i(c.0, c.1, c.2)
  }

  /** Every chunk of the grid has its own slot in [0, WORLD_VOL), and every
      slot belongs to a chunk of the grid. */
  lemma ChunkSlots()
    ensures forall c :: InWorld(c) ==> 0 <= ChunkIndex(c) < WORLD_VOL
    ensures forall c, d :: InWorld(c) && InWorld(d) && c != d ==> ChunkIndex(c) != ChunkIndex(d)
    ensures forall i :: 0 <= i < WORLD_VOL ==> InWorld(ChunkAt(i)) && ChunkIndex(ChunkAt(i)) == i
  {
    forall c | InWorld(c) ensures 0 <= ChunkIndex(c) < WORLD_VOL {
      Linear.IndexInRange(c.x, c.y, c.z, WORLD_WIDTH, WORLD_HEIGHT, WORLD_DEPTH);
    }
    forall c, d | InWorld(c) && InWorld(d) && ChunkIndex(c) == ChunkIndex(d)
      ensures c == d
    {
      Linear.IndexInjective(c.x, c.y, c.z, d.x, d.y, d.z, WORLD_WIDTH, WORLD_HEIGHT, WORLD_DEPTH);
    }
    forall i | 0 <= i < WORLD_VOL ensures InWorld(ChunkAt(i)) && ChunkIndex(ChunkAt(i)) == i {
      Linear.IndexOfCell(i, WORLD_WIDTH, WORLD_HEIGHT, WORLD_DEPTH);
    }
  }

  class World {
    var chunks: array<Chunk?>
    var voxels: array<array?<byte>>

    /** Both arrays have one empty slot per chunk of the grid. */
    constructor ()
      ensures chunks.Length == WORLD_VOL && voxels.Length == WORLD_VOL
      ensures forall i :: 0 <= i < WORLD_VOL ==> chunks[i] == null && voxels[i] == null
    {
      chunks := new Chunk?[WORLD_VOL](_ => null);
      voxels := new array?<byte>[WORLD_VOL](_ => null);
    }

    /** Slot i holds a chunk of this world at chunk position c, with the
        voxels `solid` generates, isEmpty set exactly when they are all 0,
        no mesh yet, and its voxel array the very array stored in slot i
        of `voxels`. */
    ghost predicate Built(i: int, c: Vec3i, solid: Vec3i -> bool)
      reads this, chunks, voxels
      reads if 0 <= i < chunks.Length then {chunks[i]} else {}
      reads if 0 <= i < voxels.Length then {voxels[i]} else {}
    {
      0 <= i < chunks.Length && 0 <= i < voxels.Length &&
      chunks[i] != null && voxels[i] != null &&
      chunks[i].world == this && chunks[i].position == c &&
      chunks[i].voxels == voxels[i] && !chunks[i].meshBuilt &&
      voxels[i][..] == Generated(solid) &&
      chunks[i].isEmpty == (forall k :: 0 <= k < CHUNK_VOL ==> Generated(solid)[k] == 0)
    }

    /** Every chunk visited before (x, y, z) is built in its slot. */
    ghost predicate BuiltBefore(x: int, y: int, z: int, solid: Vec3i -> bool)
      reads this, chunks, voxels, set i | 0 <= i < chunks.Length :: chunks[i],
            set i | 0 <= i < voxels.Length :: voxels[i]
    {
      forall c :: InWorld(c) && ChunkBefore(c, x, y, z) ==> Built(ChunkIndex(c), c, solid)
    }

    /** Visits every chunk position of the grid, creates its chunk,
        generates its voxels and stores the same array in the chunk and in
        the world's voxel array; each slot is written exactly once. */
    method BuildChunks(solid: Vec3i -> bool)
      requires chunks.Length == WORLD_VOL && voxels.Length == WORLD_VOL
      modifies chunks, voxels
      ensures forall i :: 0 <= i < WORLD_VOL ==> Built(i, ChunkAt(i), solid)
      ensures forall i :: 0 <= i < WORLD_VOL ==> fresh(chunks[i]) && fresh(voxels[i])
    {
      ChunkSlots();
      for x := 0 to WORLD_WIDTH
        invariant BuiltBefore(x, 0, 0, solid)
        invariant forall c :: InWorld(c) && ChunkBefore(c, x, 0, 0) ==>
                    fresh(chunks[ChunkIndex(c)]) && fresh(voxels[ChunkIndex(c)])
      {
        for y := 0 to WORLD_HEIGHT
          invariant BuiltBefore(x, y, 0, solid)
          invariant forall c :: InWorld(c) && ChunkBefore(c, x, y, 0) ==>
                      fresh(chunks[ChunkIndex(c)]) && fresh(voxels[ChunkIndex(c)])
        {
          BuildChunkRow(x, y, solid);
        }
      }
      forall i | 0 <= i < WORLD_VOL
        ensures fresh(chunks[i]) && fresh(voxels[i])
      {
        assert InWorld(ChunkAt(i)) && ChunkIndex(ChunkAt(i)) == i;
      }
    }

    /** The loop over z of BuildChunks, at one (x, y). */
    method BuildChunkRow(x: int, y: int, solid: Vec3i -> bool)
      requires 0 <= x < WORLD_WIDTH && 0 <= y < WORLD_HEIGHT
      requires chunks.Length == WORLD_VOL && voxels.Length == WORLD_VOL
      requires BuiltBefore(x, y, 0, solid)
      modifies chunks, voxels
      ensures BuiltBefore(x, y + 1, 0, solid)
      ensures forall c :: InWorld(c) && ChunkBefore(c, x, y + 1, 0) && !ChunkBefore(c, x, y, 0) ==>
                fresh(chunks[ChunkIndex(c)]) && fresh(voxels[ChunkIndex(c)])
      ensures forall c :: InWorld(c) && ChunkBefore(c, x, y, 0) ==>
                chunks[ChunkIndex(c)] == old(chunks[ChunkIndex(c)]) && voxels[ChunkIndex(c)] == old(voxels[ChunkIndex(c)])
    {
      ChunkSlots();
      for z := 0 to WORLD_DEPTH
        invariant BuiltBefore(x, y, z, solid)
        invariant forall c :: InWorld(c) && ChunkBefore(c, x, y, z) && !ChunkBefore(c, x, y, 0) ==>
                    fresh(chunks[ChunkIndex(c)]) && fresh(voxels[ChunkIndex(c)])
        invariant forall c :: InWorld(c) && ChunkBefore(c, x, y, 0) ==>
                    chunks[ChunkIndex(c)] == old(chunks[ChunkIndex(c)]) && voxels[ChunkIndex(c)] == old(voxels[ChunkIndex(c)])
      {
        var chunkIndex := x + z * WORLD_WIDTH + y * WORLD_AREA;
        assert chunkIndex == ChunkIndex(Vec3i(x, y, z));
        var chunk := new Chunk(this, Vec3i(x, y, z));
        chunks[chunkIndex] := chunk;
        voxels[chunkIndex] := chunk.BuildVoxels(solid);
        chunk.voxels := voxels[chunkIndex];
      }
    }

    /** Asks every chunk to build its mesh, in slot order; each chunk with
        a solid voxel gets a mesh, empty chunks are left as they were. */
    method BuildChunkMeshes()
      requires forall i :: 0 <= i < chunks.Length ==> chunks[i] != null
      modifies set i | 0 <= i < chunks.Length :: chunks[i]
      ensures forall i :: 0 <= i < chunks.Length ==>
                chunks[i].meshBuilt == (old(chunks[i].meshBuilt) || !chunks[i].isEmpty)
      ensures forall i :: 0 <= i < chunks.Length ==>
                chunks[i].isEmpty == old(chunks[i].isEmpty) && chunks[i].voxels == old(chunks[i].voxels) &&
                chunks[i].world == old(chunks[i].world) && chunks[i].position == old(chunks[i].position)
    {
      for k := 0 to chunks.Length
        invariant forall i :: 0 <= i < chunks.Length ==>
                    chunks[i].isEmpty == old(chunks[i].isEmpty) && chunks[i].voxels == old(chunks[i].voxels) &&
                    chunks[i].world == old(chunks[i].world) && chunks[i].position == old(chunks[i].position)
        invariant forall i :: 0 <= i < chunks.Length ==>
                    (old(chunks[i].meshBuilt) ==> chunks[i].meshBuilt) &&
                    (chunks[i].meshBuilt ==> old(chunks[i].meshBuilt) || !chunks[i].isEmpty)
        invariant forall i :: 0 <= i < k ==> !chunks[i].isEmpty ==> chunks[i].meshBuilt
      {
        chunks[k].BuildMesh();
      }
    }
  }
}
