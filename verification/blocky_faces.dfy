/** What the blocky mesher of ChunkMeshBuilder_backup.cs computes, as
    functions and lemmas: the world-aware voxel lookup (chunk coordinates by
    floor division, the chunk index with its -1 sentinel, local coordinates
    by a true modulo built from C#'s truncating remainder) and the list of
    cube faces the mesher draws, in scan order. Its loops are in module
    ChunkMeshBuilderBackup. */
module BlockyFaces {
  import opened Constants
  import opened Geometry
  import Linear
  import SurfaceNets
  import WorldData
  import opened Concat

  // ---------------------------------------------------------------------
  // World indexing
  // ---------------------------------------------------------------------

  /** The chunk coordinate of world coordinate w: floor(w / S), also for
      negative w. */
  function GetChunkCoord(w: int): (r: int)
    ensures CHUNK_SIZE * r <= w < CHUNK_SIZE * (r + 1)
  {
    w / CHUNK_SIZE
  }

  /** The chunk coordinates of world position w. */
  function ChunkCoords(w: Vec3i): Vec3i
  {
    Vec3i(GetChunkCoord(w.x), GetChunkCoord(w.y), GetChunkCoord(w.z))
  }

  /** Index of the chunk holding world position w in the world's chunk
      array, or -1 when that chunk lies outside the world. */
  function GetChunkIndex(w: Vec3i): (r: int)
    ensures r == -1 <==> !WorldData.InWorld(ChunkCoords(w))
    ensures r != -1 ==> 0 <= r < WORLD_VOL
  {
    var c := ChunkCoords(w);
    if WorldData.InWorld(c) then
      Linear.IndexInRange(c.x, c.y, c.z, WORLD_WIDTH, WORLD_HEIGHT, WORLD_DEPTH);
      c.x + c.z * WORLD_WIDTH + c.y * WORLD_AREA
    else -1
  }

  /** Two world positions share a chunk index only if they lie in the same
      chunk. */
  lemma GetChunkIndexInjective(a: Vec3i, b: Vec3i)
    requires GetChunkIndex(a) != -1 && GetChunkIndex(a) == GetChunkIndex(b)
    ensures ChunkCoords(a) == ChunkCoords(b)
  {
    var ca, cb := ChunkCoords(a), ChunkCoords(b);
    Linear.IndexInjective(ca.x, ca.y, ca.z, cb.x, cb.y, cb.z, WORLD_WIDTH, WORLD_HEIGHT, WORLD_DEPTH);
  }

  function Abs(a: int): int
  {
    if a < 0 then -a else a
  }

  /** C#'s `%` on int: the remainder of the division truncated toward
      zero. It takes the sign of the dividend. */
  function TruncRem(a: int, m: int): (r: int)
    requires m != 0
    ensures a >= 0 ==> 0 <= r < Abs(m)
    ensures a < 0 ==> -Abs(m) < r <= 0
  {
    if a >= 0 then a % Abs(m) else -((-a) % Abs(m))
  }

  /** `(x % m + m) % m` with C#'s `%`. */
  function Modulo(x: int, m: int): int
    requires m != 0
  {
    TruncRem(TruncRem(x, m) + m, m)
  }

  /** For a positive modulus the result is the mathematical (Euclidean)
      remainder, so it lies in [0, m) also for negative x. */
  lemma ModuloIsEuclidean(x: int, m: int)
    requires m > 0
    ensures Modulo(x, m) == x % m
    ensures 0 <= Modulo(x, m) < m
  {
    var q, r := x / m, x % m;
    assert x == q * m + r;
    if x >= 0 {
      Linear.DivModUnique(r + m, m, 1, r);
    } else if r == 0 {
      assert -x == (-q) * m + 0;
      Linear.DivModUnique(-x, m, -q, 0);
      Linear.DivModUnique(m, m, 1, 0);
    } else {
      assert -x == (-q - 1) * m + (m - r);
      Linear.DivModUnique(-x, m, -q - 1, m - r);
      Linear.DivModUnique(r, m, 0, r);
    }
  }

  /** Modulo has period m. */
  lemma ModuloPeriodic(x: int, m: int)
    requires m > 0
    ensures Modulo(x + m, m) == Modulo(x, m)
  {
    ModuloIsEuclidean(x, m);
    ModuloIsEuclidean(x + m, m);
    assert x + m == (x / m + 1) * m + x % m;
    Linear.DivModUnique(x + m, m, x / m + 1, x % m);
  }

  /** The voxel array of one chunk. */
  type ChunkVoxels = v: seq<byte> | |v| == CHUNK_VOL witness seq(CHUNK_VOL, _ => 0)

  /** The world holds one voxel array per chunk. */
  predicate WorldShaped(world: seq<ChunkVoxels>)
  {
    |world| == WORLD_VOL
  }

  /** The index the lookup reads for a local position: each coordinate is
      first wrapped into [0, S), so -1 and S reach into the neighbouring
      chunk. */
  function WrappedIndex(localPos: Vec3i): (i: int)
    ensures 0 <= i < CHUNK_VOL
  {
    ModuloIsEuclidean(localPos.x, CHUNK_SIZE);
    ModuloIsEuclidean(localPos.y, CHUNK_SIZE);
    ModuloIsEuclidean(localPos.z, CHUNK_SIZE);
    var x, y, z := Modulo(localPos.x, CHUNK_SIZE), Modulo(localPos.y, CHUNK_SIZE), Modulo(localPos.z, CHUNK_SIZE);
    Linear.IndexInRange(x, y, z, CHUNK_SIZE, CHUNK_SIZE, CHUNK_SIZE);
    x + z * CHUNK_SIZE + y * CHUNK_AREA
  }

  /** The world-aware void test. A position in a chunk outside the world
      counts as solid; otherwise the voxel at the wrapped local position in
      the chunk holding worldPos is void iff its byte is 0. */
  function IsVoid(localPos: Vec3i, worldPos: Vec3i, world: seq<ChunkVoxels>): (r: bool)
    requires WorldShaped(world)
    ensures GetChunkIndex(worldPos) == -1 ==> !r
  {
    var chunkIndex := GetChunkIndex(worldPos);
    if chunkIndex == -1 then false
    else
      var chunkVoxels := world[chunkIndex];
      if chunkVoxels[WrappedIndex(localPos)] > 0 then false else true
  }

  /** Reference reading of the world: the voxel at world position w, split
      by Euclidean division into a chunk and a position inside it. Outside
      the world counts as solid. */
  function VoidAt(world: seq<ChunkVoxels>, w: Vec3i): bool
    requires WorldShaped(world)
  {
    var c := Vec3i(w.x / CHUNK_SIZE, w.y / CHUNK_SIZE, w.z / CHUNK_SIZE);
    if !WorldData.InWorld(c) then false
    else
      var l := Vec3i(w.x % CHUNK_SIZE, w.y % CHUNK_SIZE, w.z % CHUNK_SIZE);
      Linear.IndexInRange(c.x, c.y, c.z, WORLD_WIDTH, WORLD_HEIGHT, WORLD_DEPTH);
      Linear.IndexInRange(l.x, l.y, l.z, CHUNK_SIZE, CHUNK_SIZE, CHUNK_SIZE);
      world[Linear.Index(c.x, c.y, c.z, WORLD_WIDTH, WORLD_DEPTH)][Linear.Index(l.x, l.y, l.z, CHUNK_SIZE, CHUNK_SIZE)] == 0
  }

  /** World position of local position p of the chunk at chunkPos. */
  function WorldPos(chunkPos: Vec3i, p: Vec3i): Vec3i
  {
    Vec3i(chunkPos.x * CHUNK_SIZE + p.x, chunkPos.y * CHUNK_SIZE + p.y, chunkPos.z * CHUNK_SIZE + p.z)
  }

  /** Shifting a chunk-local position shifts its world position alike. */
  lemma WorldPosShift(chunkPos: Vec3i, p: Vec3i, d: Vec3i)
    ensures WorldPos(chunkPos, p).Plus(d) == WorldPos(chunkPos, p.Plus(d))
  {
  }

  lemma ShiftedRemainder(c: int, l: int)
    ensures (c * CHUNK_SIZE + l) % CHUNK_SIZE == l % CHUNK_SIZE
  {
    assert c * CHUNK_SIZE + l == (c + l / CHUNK_SIZE) * CHUNK_SIZE + l % CHUNK_SIZE;
    Linear.DivModUnique(c * CHUNK_SIZE + l, CHUNK_SIZE, c + l / CHUNK_SIZE, l % CHUNK_SIZE);
  }

  /** A lookup whose local and world positions belong together reads the
      voxel at that world position, also across a chunk seam (a local
      coordinate of -1 or S reads the neighbouring chunk). */
  lemma IsVoidReadsWorld(chunkPos: Vec3i, p: Vec3i, world: seq<ChunkVoxels>)
    requires WorldShaped(world)
    ensures IsVoid(p, WorldPos(chunkPos, p), world) == VoidAt(world, WorldPos(chunkPos, p))
  {
    var w := WorldPos(chunkPos, p);
    var c := ChunkCoords(w);
    assert c == Vec3i(w.x / CHUNK_SIZE, w.y / CHUNK_SIZE, w.z / CHUNK_SIZE);
    ModuloIsEuclidean(p.x, CHUNK_SIZE);
    ModuloIsEuclidean(p.y, CHUNK_SIZE);
    ModuloIsEuclidean(p.z, CHUNK_SIZE);
    ShiftedRemainder(chunkPos.x, p.x);
    ShiftedRemainder(chunkPos.y, p.y);
    ShiftedRemainder(chunkPos.z, p.z);
    var l := Vec3i(w.x % CHUNK_SIZE, w.y % CHUNK_SIZE, w.z % CHUNK_SIZE);
    assert WrappedIndex(p) == Linear.Index(l.x, l.y, l.z, CHUNK_SIZE, CHUNK_SIZE);
    if WorldData.InWorld(c) {
      assert GetChunkIndex(w) == Linear.Index(c.x, c.y, c.z, WORLD_WIDTH, WORLD_DEPTH);
    }
  }

  // ---------------------------------------------------------------------
  // Static tables
  // ---------------------------------------------------------------------

  /** An index into VoxelVertices. */
  type CubeCorner = i: nat | i < 8

  /** The eight corners of the unit cube, as a lookup table. */
  function VoxelVertices(c: CubeCorner): Vec3i
  {
    match c
    case 0 => Vec3i(0, 1, 0) case 1 => Vec3i(1, 1, 0) case 2 => Vec3i(1, 1, 1) case 3 => Vec3i(0, 1, 1)
    case 4 => Vec3i(0, 0, 0) case 5 => Vec3i(1, 0, 0) case 6 => Vec3i(1, 0, 1) case 7 => Vec3i(0, 0, 1)
  }

  /** Per face (top, bottom, left, right, front, back), its four corners,
      as a lookup table. */
  function VoxelVertexIndex(i: FaceIndex): (r: seq<CubeCorner>)
    ensures |r| == 4
  {
    match i
    case 0 => [0, 1, 2, 3] case 1 => [7, 6, 5, 4] case 2 => [7, 4, 0, 3]
    case 3 => [5, 6, 2, 1] case 4 => [6, 7, 3, 2] case 5 => [4, 5, 1, 0]
  }

  /** Per face, the step to the neighbour that face touches, as a lookup
      table. */
  function VoxelFaceChecks(i: FaceIndex): Vec3i
  {
    match i
    case 0 => Vec3i(0, 1, 0) case 1 => Vec3i(0, -1, 0) case 2 => Vec3i(-1, 0, 0)
    case 3 => Vec3i(1, 0, 0) case 4 => Vec3i(0, 0, 1) case 5 => Vec3i(0, 0, -1)
  }

  /** Cube corner c lies on the side of the unit cube facing d. */
  predicate OnSide(c: Vec3i, d: Vec3i)
  {
    (d.x == 1 ==> c.x == 1) && (d.x == -1 ==> c.x == 0) &&
    (d.y == 1 ==> c.y == 1) && (d.y == -1 ==> c.y == 0) &&
    (d.z == 1 ==> c.z == 1) && (d.z == -1 ==> c.z == 0)
  }

  /** d is a step of one along a single axis. */
  predicate UnitStep(d: Vec3i)
  {
    Abs(d.x) + Abs(d.y) + Abs(d.z) == 1
  }

  /** The tables agree: corner j of face i lies on the side of the cube
      facing the neighbour that face i checks, that neighbour is one step
      away along one axis, and the face's four corners are distinct. */
  lemma FaceTablesAgree(i: FaceIndex, j: SurfaceNets.CornerIndex, k: SurfaceNets.CornerIndex)
    ensures UnitStep(VoxelFaceChecks(i))
    ensures OnSide(VoxelVertices(VoxelVertexIndex(i)[j]), VoxelFaceChecks(i))
    ensures j != k ==> VoxelVertexIndex(i)[j] != VoxelVertexIndex(i)[k]
  {
    var face := VoxelVertexIndex(i);
    if i == 0 {
      assert face == [0, 1, 2, 3];
    } else if i == 1 {
      assert face == [7, 6, 5, 4];
    } else if i == 2 {
      assert face == [7, 4, 0, 3];
    } else if i == 3 {
      assert face == [5, 6, 2, 1];
    } else if i == 4 {
      assert face == [6, 7, 3, 2];
    } else {
      assert face == [4, 5, 1, 0];
    }
  }

  // ---------------------------------------------------------------------
  // Faces
  // ---------------------------------------------------------------------

  /** Everything the blocky mesher reads: the chunk's voxels, its chunk
      position, the voxel arrays of the world's chunks, and the colour the
      mesher gives a voxel id. */
  datatype Scene = Scene(voxels: seq<byte>, chunkPos: Vec3i, world: seq<ChunkVoxels>, heightColor: byte -> Color)
  {
    predicate Valid()
    {
      |voxels| == CHUNK_VOL && WorldShaped(world)
    }
  }

  /** Side `side` of the voxel cube at `pos`, in its voxel's colour. */
  datatype Face = Face(pos: Vec3i, side: FaceIndex, color: Color)

  function VoxelId(s: Scene, p: Vec3i): byte
    requires s.Valid() && SurfaceNets.IsInsideChunk(p)
  {
    SurfaceNets.VoxelIndexInRange(p);
    s.voxels[SurfaceNets.VoxelIndex(p)]
  }

  /** The neighbour across side i of p is void, looked up through the
      world: local and world position both shifted by the face's step. */
  predicate Exposed(s: Scene, p: Vec3i, i: FaceIndex)
    requires s.Valid()
  {
    IsVoid(p.Plus(VoxelFaceChecks(i)), WorldPos(s.chunkPos, p).Plus(VoxelFaceChecks(i)), s.world)
  }

  /** Side i of p is exposed iff the world voxel one step across it is
      void, wherever that voxel lies (also in a neighbouring chunk). */
  lemma ExposedReadsWorld(s: Scene, p: Vec3i, i: FaceIndex)
    requires s.Valid()
    ensures Exposed(s, p, i) == VoidAt(s.world, WorldPos(s.chunkPos, p.Plus(VoxelFaceChecks(i))))
  {
    WorldPosShift(s.chunkPos, p, VoxelFaceChecks(i));
    IsVoidReadsWorld(s.chunkPos, p.Plus(VoxelFaceChecks(i)), s.world);
  }

  /** f is a face the mesher draws: a side of a solid voxel of the chunk
      whose neighbour is void, coloured after the voxel's id. */
  predicate Draws(s: Scene, f: Face)
    requires s.Valid()
  {
    SurfaceNets.IsInsideChunk(f.pos) && VoxelId(s, f.pos) != 0 && Exposed(s, f.pos, f.side) &&
    f.color == s.heightColor(VoxelId(s, f.pos))
  }

  /** Faces of voxel p among its sides below n. */
  function SideFaces(s: Scene, p: Vec3i, n: nat): seq<Face>
    requires s.Valid() && SurfaceNets.IsInsideChunk(p) && n <= 6
    decreases n, s
  {
    if n == 0 then []
    else if Exposed(s, p, n - 1) then SideFaces(s, p, n - 1) + [Face(p, n - 1, s.heightColor(VoxelId(s, p)))]
    else SideFaces(s, p, n - 1)
  }

  /** The face side i of p adds: one if that side is exposed, else none. */
  function SideFace(s: Scene, p: Vec3i, i: FaceIndex): (r: seq<Face>)
    requires s.Valid() && SurfaceNets.IsInsideChunk(p)
    ensures |r| <= 1
  {
    if Exposed(s, p, i) then [Face(p, i, s.heightColor(VoxelId(s, p)))] else []
  }

  /** The sides are visited in index order. */
  lemma SideFacesNext(s: Scene, p: Vec3i, i: FaceIndex)
    requires s.Valid() && SurfaceNets.IsInsideChunk(p)
    ensures SideFaces(s, p, i + 1) == SideFaces(s, p, i) + SideFace(s, p, i)
  {
    if !Exposed(s, p, i) {
      assert SideFaces(s, p, i) + [] == SideFaces(s, p, i);
    }
  }

  /** Faces of voxel p: none for an empty voxel or outside the chunk. */
  function CellFaces(s: Scene, p: Vec3i): seq<Face>
    requires s.Valid()
  {
    if !SurfaceNets.IsInsideChunk(p) || VoxelId(s, p) == 0 then [] else SideFaces(s, p, 6)
  }

  /** CellFaces of the scene as a function of the position. */
  function Cells(s: Scene): Vec3i -> seq<Face>
    requires s.Valid()
  {
    p => CellFaces(s, p)
  }

  /** Every face the mesher draws, in its scan order (x outermost, then y,
      then z, then the side). */
  function ChunkFaces(s: Scene): seq<Face>
    requires s.Valid()
  {
    VolumeUpTo(Cells(s), CHUNK_SIZE - 1)
  }

  lemma {:induction false} SideFacesMembers(s: Scene, p: Vec3i, n: nat, f: Face)
    requires s.Valid() && SurfaceNets.IsInsideChunk(p) && n <= 6
    ensures f in SideFaces(s, p, n) <==>
              f.pos == p && f.side < n && Exposed(s, p, f.side) && f.color == s.heightColor(VoxelId(s, p))
  {
    if n > 0 {
      SideFacesMembers(s, p, n - 1, f);
    }
  }

  /** The faces of a voxel are exactly the faces drawn at it. */
  lemma CellFacesMembers(s: Scene, p: Vec3i, f: Face)
    requires s.Valid()
    ensures f in CellFaces(s, p) <==> f.pos == p && Draws(s, f)
  {
    if SurfaceNets.IsInsideChunk(p) {
      SideFacesMembers(s, p, 6, f);
    }
  }

  /** A face is drawn iff it is a side of a non-empty voxel of the chunk
      whose neighbour across it is void, in that voxel's colour. */
  lemma ChunkFacesMembers(s: Scene, f: Face)
    requires s.Valid()
    ensures f in ChunkFaces(s) <==> Draws(s, f)
  {
    forall p | f in Cells(s)(p)
      ensures f.pos == p
    {
      CellFacesMembers(s, p, f);
    }
    assert Local(Cells(s), f);
    VolumeUpToMembers(Cells(s), CHUNK_SIZE - 1, f);
    CellFacesMembers(s, f.pos, f);
  }

  /** A chunk whose bytes are all 0 draws no face. */
  lemma EmptyChunkDrawsNothing(s: Scene)
    requires s.Valid() && forall i :: 0 <= i < |s.voxels| ==> s.voxels[i] == 0
    ensures ChunkFaces(s) == []
  {
    if ChunkFaces(s) != [] {
      var f := ChunkFaces(s)[0];
      ChunkFacesMembers(s, f);
      SurfaceNets.VoxelIndexInRange(f.pos);
    }
  }

  // ---------------------------------------------------------------------
  // Scan order
  // ---------------------------------------------------------------------

  // The scans below visit the voxels (x, y, z) of [0, S)^3 with x
  // outermost and z innermost, concatenating what `cell` gives for each.
  // Each bound is inclusive and -1 stands for "nothing yet". Naming `cell`
  // in the decreases clauses keeps the verifier from unfolding a scan whose
  // bound is the literal S - 1 all the way down.

  /** The parts of the voxels (x, y, z') with 0 <= z' <= z. */
  function RowUpTo(cell: Vec3i -> seq<Face>, x: int, y: int, z: int): seq<Face>
    requires -1 <= z
    decreases z + 1, cell
  {
    if z == -1 then []
    else
      var r0, c := RowUpTo(cell, x, y, z - 1), cell(Vec3i(x, y, z));
      r0 + c
  }

  /** The parts of the voxels (x, y', z') with 0 <= y' <= y. */
  function PlaneUpTo(cell: Vec3i -> seq<Face>, x: int, y: int): seq<Face>
    requires -1 <= y
    decreases y + 1, cell
  {
    if y == -1 then []
    else
      var p0, row := PlaneUpTo(cell, x, y - 1), RowUpTo(cell, x, y, CHUNK_SIZE - 1);
      p0 + row
  }

  /** The parts of the voxels with 0 <= x' <= x. */
  function VolumeUpTo(cell: Vec3i -> seq<Face>, x: int): seq<Face>
    requires -1 <= x
    decreases x + 1, cell
  {
    if x == -1 then []
    else
      var v0, plane := VolumeUpTo(cell, x - 1), PlaneUpTo(cell, x, CHUNK_SIZE - 1);
      v0 + plane
  }

  /** p is a voxel of the chunk with its x coordinate at most x. */
  predicate InSlab(p: Vec3i, x: int)
  {
    0 <= p.x <= x && 0 <= p.y < CHUNK_SIZE && 0 <= p.z < CHUNK_SIZE
  }

  /** Face f can occur only among the parts of its own voxel. */
  ghost predicate Local(cell: Vec3i -> seq<Face>, f: Face)
  {
    forall p :: f in cell(p) ==> f.pos == p
  }

  lemma {:induction false} RowUpToMembers(cell: Vec3i -> seq<Face>, x: int, y: int, z: int, f: Face)
    requires -1 <= z && Local(cell, f)
    ensures f in RowUpTo(cell, x, y, z) <==>
              f.pos.x == x && f.pos.y == y && 0 <= f.pos.z <= z && f in cell(f.pos)
    decreases z + 1, cell
  {
    if z > -1 {
      RowUpToMembers(cell, x, y, z - 1, f);
    }
  }

  lemma {:induction false} PlaneUpToMembers(cell: Vec3i -> seq<Face>, x: int, y: int, f: Face)
    requires -1 <= y && Local(cell, f)
    ensures f in PlaneUpTo(cell, x, y) <==>
              f.pos.x == x && 0 <= f.pos.y <= y && 0 <= f.pos.z < CHUNK_SIZE && f in cell(f.pos)
    decreases y + 1, cell
  {
    if y > -1 {
      PlaneUpToMembers(cell, x, y - 1, f);
      RowUpToMembers(cell, x, y, CHUNK_SIZE - 1, f);
    }
  }

  /** A part is scanned by the end of slab x iff its voxel lies in slabs
      0..x and it is among the parts of that voxel. */
  lemma {:induction false} VolumeUpToMembers(cell: Vec3i -> seq<Face>, x: int, f: Face)
    requires -1 <= x && Local(cell, f)
    ensures f in VolumeUpTo(cell, x) <==> InSlab(f.pos, x) && f in cell(f.pos)
    decreases x + 1, cell
  {
    if x > -1 {
      VolumeUpToMembers(cell, x - 1, f);
      PlaneUpToMembers(cell, x, CHUNK_SIZE - 1, f);
    }
  }

  // ---------------------------------------------------------------------
  // Emitted vertices and colours
  // ---------------------------------------------------------------------

  /** Corner j of face f: its cube corner moved to the voxel's position. */
  function FaceCorner(f: Face, j: SurfaceNets.CornerIndex): Vec3r
  {
    VoxelVertices(VoxelVertexIndex(f.side)[j]).Plus(f.pos).ToReal()
  }

  /** The four corners of face f, in VoxelVertexIndex order. */
  function FaceCorners(f: Face): (r: seq<Vec3r>)
    ensures |r| == 4 && forall j :: 0 <= j < 4 ==> r[j] == FaceCorner(f, j)
  {
    seq(4, j requires 0 <= j < 4 => FaceCorner(f, j))
  }

  /** The six vertices of a face's two triangles: its corners in
      VoxelTriangles order. */
  function FaceVertices(f: Face): (r: seq<Vec3r>)
    ensures |r| == 6
  {
    SurfaceNets.Wound(FaceCorners(f), true)
  }

  /** Six copies of x. */
  function Six<T>(x: T): (r: seq<T>)
    ensures |r| == 6 && forall j :: 0 <= j < 6 ==> r[j] == x
  {
    [x, x, x, x, x, x]
  }

  /** The six vertex colours of a face. */
  function FaceColors(f: Face): (r: seq<Color>)
    ensures |r| == 6
  {
    Six(f.color)
  }

  /** Vertex k of the emitted list belongs to face k / 6: it is corner
      VoxelTriangles[k % 6] of that face, and its colour is the face's. */
  lemma {:induction false} FlattenedFace(fs: seq<Face>, k: nat)
    requires k < 6 * |fs|
    ensures |Flatten(fs, FaceVertices)| == |Flatten(fs, FaceColors)| == 6 * |fs|
    ensures Flatten(fs, FaceVertices)[k] == FaceCorner(fs[k / 6], SurfaceNets.VoxelTriangles[k % 6])
    ensures Flatten(fs, FaceColors)[k] == fs[k / 6].color
  {
    FlattenLength(fs, FaceVertices);
    FlattenLength(fs, FaceColors);
    var n := |fs| - 1;
    FlattenLength(fs[..n], FaceVertices);
    FlattenLength(fs[..n], FaceColors);
    if k < 6 * n {
      FlattenedFace(fs[..n], k);
    } else {
      assert k / 6 == n && k % 6 == k - 6 * n;
    }
  }

  // ---------------------------------------------------------------------
  // The scan, step by step
  // ---------------------------------------------------------------------

  /** Visiting side i of voxel p appends its face when it is exposed. */
  lemma SideStep<T>(s: Scene, p: Vec3i, i: FaceIndex, part: Face -> seq<T>)
    requires s.Valid() && SurfaceNets.IsInsideChunk(p)
    ensures Flatten(SideFaces(s, p, i + 1), part) ==
            Flatten(SideFaces(s, p, i), part) +
            (if Exposed(s, p, i) then part(Face(p, i, s.heightColor(VoxelId(s, p)))) else [])
  {
    if Exposed(s, p, i) {
      var f := Face(p, i, s.heightColor(VoxelId(s, p)));
      FlattenAppend(SideFaces(s, p, i), [f], part);
      assert [f][..0] == [];
    }
  }
}
