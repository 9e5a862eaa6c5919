/** What the surface-nets mesher of ChunkMeshBuilder.cs computes, as
    functions and lemmas. It scans the lattice points of a chunk padded by
    one on every side, emits a quad across every positive-axis step from a
    solid to a void voxel (or back), and moves each quad corner to the mean
    of the midpoints of the cube edges around it that cross the surface.
    Only the chunk's own voxel array is read: everything outside the chunk
    counts as void. The mesher's loops are in module ChunkMeshBuilder. */
module SurfaceNets {
  import opened Constants
  import opened Geometry
  import Linear
  import opened MeshBuffer
  import opened Concat

  // ---------------------------------------------------------------------
  // Voxel access
  // ---------------------------------------------------------------------

  predicate IsInsideChunk(pos: Vec3i)
  {
    0 <= pos.x < CHUNK_SIZE && 0 <= pos.y < CHUNK_SIZE && 0 <= pos.z < CHUNK_SIZE
  }

  /** Position of a voxel in the chunk's flat array: x + z*S + y*S^2. */
  function VoxelIndex(pos: Vec3i): int
  {
    Linear.Index(pos.x, pos.y, pos.z, CHUNK_SIZE, CHUNK_SIZE)
  }

  /** Positions outside the chunk read as void and the array is not
      touched; inside, the voxel is void iff its byte is 0, and its index
      lies inside the array. */
  function IsVoid(pos: Vec3i, voxels: seq<byte>): (r: bool)
    requires |voxels| == CHUNK_VOL
    ensures !IsInsideChunk(pos) ==> r
  {
    if !IsInsideChunk(pos) then true
    else
      VoxelIndexInRange(pos);
      voxels[VoxelIndex(pos)] == 0
  }

  /** Inside the chunk, the index lies in the array. */
  lemma VoxelIndexInRange(pos: Vec3i)
    requires IsInsideChunk(pos)
    ensures 0 <= VoxelIndex(pos) < CHUNK_VOL
  {
    Linear.IndexInRange(pos.x, pos.y, pos.z, CHUNK_SIZE, CHUNK_SIZE, CHUNK_SIZE);
  }

  /** A chunk whose bytes are all 0 is void everywhere. */
  lemma AllZeroIsVoid(voxels: seq<byte>)
    requires |voxels| == CHUNK_VOL && forall i :: 0 <= i < |voxels| ==> voxels[i] == 0
    ensures forall p :: IsVoid(p, voxels)
  {
    forall p
      ensures IsVoid(p, voxels)
    {
      if IsInsideChunk(p) {
        VoxelIndexInRange(p);
      }
    }
  }

  // ---------------------------------------------------------------------
  // Static tables
  // ---------------------------------------------------------------------

  /** An index into the axis tables. */
  type AxisIndex = i: nat | i < 3

  /** The three positive axis directions. */
  const VoxelAxis: seq<Vec3i> := [Vec3i(1, 0, 0), Vec3i(0, 1, 0), Vec3i(0, 0, 1)]

  /** Per axis, the four corners of the quad across the step from p to
      p + VoxelAxis[axis], as offsets from p. */
  const VoxelQuads: seq<seq<Vec3i>> := [
    [Vec3i(0, 0, -1), Vec3i(0, -1, -1), Vec3i(0, -1, 0), Vec3i(0, 0, 0)],
    [Vec3i(0, 0, -1), Vec3i(0, 0, 0), Vec3i(-1, 0, 0), Vec3i(-1, 0, -1)],
    [Vec3i(0, 0, 0), Vec3i(0, -1, 0), Vec3i(-1, -1, 0), Vec3i(-1, 0, 0)]
  ]

  /** The twelve edges of the unit cube at the origin, as endpoint pairs. */
  const EdgeOffsets: seq<(Vec3i, Vec3i)> := [
    (Vec3i(0, 0, 0), Vec3i(1, 0, 0)), (Vec3i(1, 0, 0), Vec3i(1, 1, 0)),
    (Vec3i(1, 1, 0), Vec3i(0, 1, 0)), (Vec3i(0, 1, 0), Vec3i(0, 0, 0)),
    (Vec3i(0, 0, 1), Vec3i(1, 0, 1)), (Vec3i(1, 0, 1), Vec3i(1, 1, 1)),
    (Vec3i(1, 1, 1), Vec3i(0, 1, 1)), (Vec3i(0, 1, 1), Vec3i(0, 0, 1)),
    (Vec3i(0, 0, 0), Vec3i(0, 0, 1)), (Vec3i(1, 0, 0), Vec3i(1, 0, 1)),
    (Vec3i(1, 1, 0), Vec3i(1, 1, 1)), (Vec3i(0, 1, 0), Vec3i(0, 1, 1))
  ]

  /** An index into a quad's four corners. */
  type CornerIndex = i: nat | i < 4

  const VoxelUVs: seq<Uv> := [Uv(0.0, 0.0), Uv(1.0, 0.0), Uv(1.0, 1.0), Uv(1.0, 0.0)]

  /** Corner order of the two triangles of a quad whose own voxel is solid,
      and the mirrored order used when the neighbour is the solid one. */
  const VoxelTriangles: seq<CornerIndex> := [0, 3, 2, 0, 2, 1]
  const VoxelTrianglesReverse: seq<CornerIndex> := [0, 2, 3, 0, 1, 2]

  // ---------------------------------------------------------------------
  // Vertex smoothing
  // ---------------------------------------------------------------------

  /** Edge e of the cube at corner c joins a solid and a void voxel. */
  predicate Crosses(voxels: seq<byte>, c: Vec3i, e: nat)
    requires |voxels| == CHUNK_VOL && e < 12
  {
    IsVoid(c.Plus(EdgeOffsets[e].0), voxels) != IsVoid(c.Plus(EdgeOffsets[e].1), voxels)
  }

  function Midpoint(c: Vec3i, e: nat): Vec3r
    requires e < 12
  {
    c.Plus(EdgeOffsets[e].0).Plus(c.Plus(EdgeOffsets[e].1)).ToReal().Div(2.0)
  }

  /** Number of crossing edges among the first n. */
  function CrossCount(voxels: seq<byte>, c: Vec3i, n: nat): nat
    requires |voxels| == CHUNK_VOL && n <= 12
    decreases n, voxels
  {
    if n == 0 then 0
    else CrossCount(voxels, c, n - 1) + (if Crosses(voxels, c, n - 1) then 1 else 0)
  }

  /** Sum of the midpoints of the crossing edges among the first n. */
  function CrossSum(voxels: seq<byte>, c: Vec3i, n: nat): Vec3r
    requires |voxels| == CHUNK_VOL && n <= 12
    decreases n, voxels
  {
    if n == 0 then ZERO
    else if Crosses(voxels, c, n - 1) then CrossSum(voxels, c, n - 1).Plus(Midpoint(c, n - 1))
    else CrossSum(voxels, c, n - 1)
  }

  /** The smoothed position of corner c: the mean of its crossing-edge
      midpoints. A corner without crossing edges gets the origin; the
      mesher never asks for one (CornerHasCrossing). */
  function AverageOf(voxels: seq<byte>, c: Vec3i): Vec3r
    requires |voxels| == CHUNK_VOL
  {
    var count := CrossCount(voxels, c, 12);
    if count == 0 then ZERO else CrossSum(voxels, c, 12).Div(count as real)
  }

  predicate InUnitCube(r: Vec3r, c: Vec3i)
  {
    c.x as real <= r.x <= c.x as real + 1.0 &&
    c.y as real <= r.y <= c.y as real + 1.0 &&
    c.z as real <= r.z <= c.z as real + 1.0
  }

  /** Each coordinate of the sum of k midpoints lies between k*c and
      k*(c+1). */
  lemma {:induction false} CrossSumBounds(voxels: seq<byte>, c: Vec3i, n: nat)
    requires |voxels| == CHUNK_VOL && n <= 12
    ensures var s, k := CrossSum(voxels, c, n), CrossCount(voxels, c, n) as real;
            SumBounds(s.x, k, c.x as real) && SumBounds(s.y, k, c.y as real) && SumBounds(s.z, k, c.z as real)
  {
    if n > 0 {
      CrossSumBounds(voxels, c, n - 1);
      if Crosses(voxels, c, n - 1) {
        var s, k, m := CrossSum(voxels, c, n - 1), CrossCount(voxels, c, n - 1) as real, Midpoint(c, n - 1);
        MidpointInUnitCube(c, n - 1);
        assert CrossSum(voxels, c, n) == s.Plus(m);
        assert CrossCount(voxels, c, n) as real == k + 1.0;
        SumBoundsStep(s.x, k, c.x as real, m.x);
        SumBoundsStep(s.y, k, c.y as real, m.y);
        SumBoundsStep(s.z, k, c.z as real, m.z);
      }
    }
  }

  /** s is a sum of k values in [lo, lo + 1]. */
  predicate SumBounds(s: real, k: real, lo: real)
  {
    k * lo <= s <= k * (lo + 1.0)
  }

  lemma SumBoundsStep(s: real, k: real, lo: real, m: real)
    requires SumBounds(s, k, lo) && lo <= m <= lo + 1.0
    ensures SumBounds(s + m, k + 1.0, lo)
  {
    assert (k + 1.0) * lo == k * lo + lo;
    assert (k + 1.0) * (lo + 1.0) == k * (lo + 1.0) + lo + 1.0;
  }

  lemma MidpointInUnitCube(c: Vec3i, e: nat)
    requires e < 12
    ensures InUnitCube(Midpoint(c, e), c)
  {
  }

  /** A mean of points of the unit cube at c lies in that cube. */
  lemma AverageInUnitCube(voxels: seq<byte>, c: Vec3i)
    requires |voxels| == CHUNK_VOL && CrossCount(voxels, c, 12) >= 1
    ensures InUnitCube(AverageOf(voxels, c), c)
  {
    var s, k := CrossSum(voxels, c, 12), CrossCount(voxels, c, 12) as real;
    CrossSumBounds(voxels, c, 12);
    MeanBounds(s.x, k, c.x as real);
    MeanBounds(s.y, k, c.y as real);
    MeanBounds(s.z, k, c.z as real);
  }

  lemma MeanBounds(s: real, k: real, lo: real)
    requires k >= 1.0 && SumBounds(s, k, lo)
    ensures lo <= s / k <= lo + 1.0
  {
    var q, hi := s / k, lo + 1.0;
    assert k * q == s;
    assert s <= k * hi;
    ScaleCancel(lo, q, k);
    ScaleCancel(q, hi, k);
  }

  lemma ScaleCancel(a: real, b: real, k: real)
    requires k > 0.0 && k * a <= k * b
    ensures a <= b
  {
  }

  /** If edge e crosses, the count over any n > e edges is positive. */
  lemma {:induction false} CrossCountPositive(voxels: seq<byte>, c: Vec3i, n: nat, e: nat)
    requires |voxels| == CHUNK_VOL && e < n <= 12 && Crosses(voxels, c, e)
    ensures CrossCount(voxels, c, n) >= 1
  {
    if e < n - 1 {
      CrossCountPositive(voxels, c, n - 1, e);
    }
  }

  // ---------------------------------------------------------------------
  // Quads
  // ---------------------------------------------------------------------

  /** A step from p to p + VoxelAxis[axis] with exactly one solid side. */
  predicate Transition(voxels: seq<byte>, p: Vec3i, axis: nat)
    requires |voxels| == CHUNK_VOL && axis < 3
  {
    IsVoid(p, voxels) != IsVoid(p.Plus(VoxelAxis[axis]), voxels)
  }

  /** The cube edge of quad corner k (for the given axis) that joins p and
      p + VoxelAxis[axis]. */
  function TransitionEdge(axis: nat, k: nat): (e: nat)
    requires axis < 3 && k < 4
    ensures e < 12
  {
    [[4, 6, 2, 0], [7, 3, 1, 5], [8, 11, 10, 9]][axis][k]
  }

  /** Every corner of a quad emitted on a transition has at least one
      crossing edge, so AverageVertex never divides by zero there. */
  lemma CornerHasCrossing(voxels: seq<byte>, p: Vec3i, axis: nat, k: nat)
    requires |voxels| == CHUNK_VOL && axis < 3 && k < 4
    requires Transition(voxels, p, axis)
    ensures CrossCount(voxels, p.Plus(VoxelQuads[axis][k]), 12) >= 1
  {
    var c := p.Plus(VoxelQuads[axis][k]);
    var e := TransitionEdge(axis, k);
    var a, b := c.Plus(EdgeOffsets[e].0), c.Plus(EdgeOffsets[e].1);
    assert (a == p && b == p.Plus(VoxelAxis[axis])) || (b == p && a == p.Plus(VoxelAxis[axis]));
    CrossCountPositive(voxels, c, 12, e);
  }

  /** The four smoothed corners of the quad across the step from p along
      axis. */
  function QuadCorners(voxels: seq<byte>, p: Vec3i, axis: AxisIndex): (r: seq<Vec3r>)
    requires |voxels| == CHUNK_VOL
    ensures |r| == 4
  {
    [AverageOf(voxels, p.Plus(VoxelQuads[axis][0])), AverageOf(voxels, p.Plus(VoxelQuads[axis][1])),
     AverageOf(voxels, p.Plus(VoxelQuads[axis][2])), AverageOf(voxels, p.Plus(VoxelQuads[axis][3]))]
  }

  /** Quad corner k lies in the unit cube at its lattice corner. */
  lemma QuadCornerInCube(voxels: seq<byte>, p: Vec3i, axis: AxisIndex, k: nat)
    requires |voxels| == CHUNK_VOL && k < 4 && Transition(voxels, p, axis)
    ensures InUnitCube(QuadCorners(voxels, p, axis)[k], p.Plus(VoxelQuads[axis][k]))
  {
    CornerHasCrossing(voxels, p, axis, k);
    AverageInUnitCube(voxels, p.Plus(VoxelQuads[axis][k]));
  }

  /** The fills `voxels` on the emission side of the quad: `solid` is true
      when p itself is solid (the neighbour is then void). */
  datatype Quad = Quad(pos: Vec3i, axis: AxisIndex, solid: bool)

  /** q is a quad the mesher emits: a transition, with the solid flag of
      its own voxel. */
  predicate Emits(voxels: seq<byte>, q: Quad)
    requires |voxels| == CHUNK_VOL
  {
    Transition(voxels, q.pos, q.axis) && q.solid == !IsVoid(q.pos, voxels)
  }

  /** The corner order of a quad's two triangles, chosen by which side is
      solid. */
  function Winding(solid: bool): seq<CornerIndex>
  {
    if solid then VoxelTriangles else VoxelTrianglesReverse
  }

  /** The six vertices (two triangles) a quad contributes. */
  function QuadVertices(voxels: seq<byte>, q: Quad): (r: seq<Vec3r>)
    requires |voxels| == CHUNK_VOL
    ensures |r| == 6
  {
    Wound(QuadCorners(voxels, q.pos, q.axis), q.solid)
  }

  /** The six corners of a quad's two triangles, in the winding for the
      given solid side. */
  function Wound(corners: seq<Vec3r>, solid: bool): (r: seq<Vec3r>)
    requires |corners| == 4
    ensures |r| == 6 && forall j :: 0 <= j < 6 ==> r[j] == corners[Winding(solid)[j]]
  {
    seq(6, j requires 0 <= j < 6 => corners[Winding(solid)[j]])
  }

  /** The vertex list of a sequence of quads, in order. */
  function MeshVertices(voxels: seq<byte>, qs: seq<Quad>): (r: seq<Vec3r>)
    requires |voxels| == CHUNK_VOL
    ensures |r| == 6 * |qs|
  {
    if qs == [] then []
    else MeshVertices(voxels, qs[..|qs| - 1]) + QuadVertices(voxels, qs[|qs| - 1])
  }

  lemma {:induction false} MeshVerticesAppend(voxels: seq<byte>, a: seq<Quad>, b: seq<Quad>)
    requires |voxels| == CHUNK_VOL
    ensures MeshVertices(voxels, a + b) == MeshVertices(voxels, a) + MeshVertices(voxels, b)
    decreases |b|
  {
    if b != [] {
      var b', last := b[..|b| - 1], b[|b| - 1];
      assert (a + b)[..|a + b| - 1] == a + b';
      assert (a + b)[|a + b| - 1] == last;
      MeshVerticesAppend(voxels, a, b');
      AppendAssoc(MeshVertices(voxels, a), MeshVertices(voxels, b'), QuadVertices(voxels, last));
    } else {
      assert a + b == a;
    }
  }

  /** The UV list of n emitted vertices: UVs follow VoxelTriangles for
      every quad, whichever winding its positions use. */
  function UvCycle(n: nat): (r: seq<Uv>)
    ensures |r| == n && forall k :: 0 <= k < n ==> r[k] == VoxelUVs[VoxelTriangles[k % 6]]
  {
    seq(n, k requires 0 <= k => VoxelUVs[VoxelTriangles[k % 6]])
  }

  // ---------------------------------------------------------------------
  // The lattice scan
  // ---------------------------------------------------------------------

  /** Quads of lattice point p for the axes below n, in axis order. */
  function AxisQuads(voxels: seq<byte>, p: Vec3i, n: nat): seq<Quad>
    requires |voxels| == CHUNK_VOL && n <= 3
  {
    if n == 0 then []
    else if Transition(voxels, p, n - 1) then AxisQuads(voxels, p, n - 1) + [Quad(p, n - 1, !IsVoid(p, voxels))]
    else AxisQuads(voxels, p, n - 1)
  }

  function CellQuads(voxels: seq<byte>, p: Vec3i): seq<Quad>
    requires |voxels| == CHUNK_VOL
  {
    AxisQuads(voxels, p, 3)
  }

  // Row, plane and volume scans name `voxels` after their real measure in
  // the decreases clause. The measure alone decreases on every call; naming
  // `voxels` keeps the verifier from unfolding a scan whose bound is the
  // literal S + 1 all the way down to -1.

  /** Quads of the points (x, y, z') with -1 <= z' < z. */
  function RowQuads(voxels: seq<byte>, x: int, y: int, z: int): seq<Quad>
    requires |voxels| == CHUNK_VOL && -1 <= z
    decreases z + 1, voxels
  {
    if z == -1 then []
    else
      var r0, c := RowQuads(voxels, x, y, z - 1), CellQuads(voxels, Vec3i(x, y, z - 1));
      r0 + c
  }

  /** Quads of the points (x, y', z') with -1 <= y' < y, -1 <= z' <= S. */
  function PlaneQuads(voxels: seq<byte>, x: int, y: int): seq<Quad>
    requires |voxels| == CHUNK_VOL && -1 <= y
    decreases y + 1, voxels
  {
    if y == -1 then []
    else
      var p0, row := PlaneQuads(voxels, x, y - 1), RowQuads(voxels, x, y - 1, CHUNK_SIZE + 1);
      p0 + row
  }

  /** Quads of the points with -1 <= x' < x and the other two coordinates
      in [-1, S]. */
  function VolumeQuads(voxels: seq<byte>, x: int): seq<Quad>
    requires |voxels| == CHUNK_VOL && -1 <= x
    decreases x + 1, voxels
  {
    if x == -1 then []
    else
      var v0, plane := VolumeQuads(voxels, x - 1), PlaneQuads(voxels, x - 1, CHUNK_SIZE + 1);
      v0 + plane
  }

  /** All quads of the padded lattice [-1, S]^3, in the mesher's scan order
      (x outermost, then y, then z, then the axis). */
  function SurfaceQuads(voxels: seq<byte>): seq<Quad>
    requires |voxels| == CHUNK_VOL
  {
    VolumeQuads(voxels, CHUNK_SIZE + 1)
  }

  /** p lies in the padded lattice with its x coordinate below x. */
  predicate InSlab(p: Vec3i, x: int)
  {
    -1 <= p.x < x && -1 <= p.y <= CHUNK_SIZE && -1 <= p.z <= CHUNK_SIZE
  }

  /** p lies in the padded lattice [-1, S]^3. */
  predicate InLattice(p: Vec3i)
  {
    InSlab(p, CHUNK_SIZE + 1)
  }

  lemma {:induction false} AxisQuadsMembers(voxels: seq<byte>, p: Vec3i, n: nat, q: Quad)
    requires |voxels| == CHUNK_VOL && n <= 3
    ensures q in AxisQuads(voxels, p, n) <==> q.pos == p && q.axis < n && Emits(voxels, q)
  {
    if n > 0 {
      AxisQuadsMembers(voxels, p, n - 1, q);
    }
  }

  lemma {:induction false} RowQuadsMembers(voxels: seq<byte>, x: int, y: int, z: int, q: Quad)
    requires |voxels| == CHUNK_VOL && -1 <= z
    ensures q in RowQuads(voxels, x, y, z) <==>
              q.pos.x == x && q.pos.y == y && -1 <= q.pos.z < z && Emits(voxels, q)
    decreases z + 1
  {
    if z > -1 {
      RowQuadsMembers(voxels, x, y, z - 1, q);
      AxisQuadsMembers(voxels, Vec3i(x, y, z - 1), 3, q);
    }
  }

  lemma {:induction false} PlaneQuadsMembers(voxels: seq<byte>, x: int, y: int, q: Quad)
    requires |voxels| == CHUNK_VOL && -1 <= y
    ensures q in PlaneQuads(voxels, x, y) <==>
              q.pos.x == x && -1 <= q.pos.y < y && -1 <= q.pos.z <= CHUNK_SIZE && Emits(voxels, q)
    decreases y + 1
  {
    if y > -1 {
      PlaneQuadsMembers(voxels, x, y - 1, q);
      RowQuadsMembers(voxels, x, y - 1, CHUNK_SIZE + 1, q);
    }
  }

  lemma {:induction false} VolumeQuadsMembers(voxels: seq<byte>, x: int, q: Quad)
    requires |voxels| == CHUNK_VOL && -1 <= x
    ensures q in VolumeQuads(voxels, x) <==> InSlab(q.pos, x) && Emits(voxels, q)
    decreases x + 1
  {
    if x > -1 {
      VolumeQuadsMembers(voxels, x - 1, q);
      PlaneQuadsMembers(voxels, x - 1, CHUNK_SIZE + 1, q);
    }
  }

  /** A quad is emitted for lattice point p and axis i iff p lies in the
      padded lattice and exactly one of p and p + VoxelAxis[i] is solid;
      its solid flag says whether p is the solid one. */
  lemma SurfaceQuadsMembers(voxels: seq<byte>, q: Quad)
    requires |voxels| == CHUNK_VOL
    ensures q in SurfaceQuads(voxels) <==> InLattice(q.pos) && Emits(voxels, q)
  {
    VolumeQuadsMembers(voxels, CHUNK_SIZE + 1, q);
  }

  /** An all-zero chunk produces no quads, hence empty vertex, UV, colour
      and index lists. */
  lemma EmptyChunkHasNoQuads(voxels: seq<byte>)
    requires |voxels| == CHUNK_VOL && forall i :: 0 <= i < |voxels| ==> voxels[i] == 0
    ensures SurfaceQuads(voxels) == []
    ensures MeshVertices(voxels, SurfaceQuads(voxels)) == []
  {
    AllZeroIsVoid(voxels);
    if SurfaceQuads(voxels) != [] {
      SurfaceQuadsMembers(voxels, SurfaceQuads(voxels)[0]);
    }
  }

  /** Triangle t of a quad's vertex list under a winding, read from the
      quad's four corners. */
  function Triangle(corners: seq<Vec3r>, solid: bool, t: nat): (Vec3r, Vec3r, Vec3r)
    requires |corners| == 4 && t < 2
  {
    var w := Winding(solid);
    (corners[w[3 * t]], corners[w[3 * t + 1]], corners[w[3 * t + 2]])
  }

  /** The reverse winding lists each triangle of the forward winding with
      its last two corners swapped. */
  lemma WindingsMirror(t: nat)
    requires t < 2
    ensures Winding(false)[3 * t] == Winding(true)[3 * t]
    ensures Winding(false)[3 * t + 1] == Winding(true)[3 * t + 2]
    ensures Winding(false)[3 * t + 2] == Winding(true)[3 * t + 1]
  {
  }

  /** Over the same four corners, the winding used when the neighbour is
      solid gives each triangle the opposite normal of the winding used
      when the voxel itself is solid, so both kinds of quad face the same
      way relative to the solid side. */
  lemma OppositeWindings(corners: seq<Vec3r>, t: nat)
    requires |corners| == 4 && t < 2
    ensures var (a, b, c) := Triangle(corners, false, t);
            var (a', b', c') := Triangle(corners, true, t);
            TriangleNormal(a, b, c) == TriangleNormal(a', b', c').Neg()
  {
    WindingsMirror(t);
    var (a', b', c') := Triangle(corners, true, t);
    SwapNegatesNormal(a', b', c');
  }

  // ---------------------------------------------------------------------
  // The mesher
  // ---------------------------------------------------------------------

  /** n vertices' attribute lists as the mesher emits them: UVs follow
      VoxelTriangles, every colour is white and the index list is
      0, 1, 2, .... */
  predicate Agree(n: nat, uvs: seq<Uv>, colors: seq<Color>, triangles: seq<int>)
  {
    uvs == UvCycle(n) && colors == WhiteRun(n) && triangles == Iota(n)
  }

  /** The buffer's UV, colour and index lists agree with its vertex list. */
  ghost predicate ListsAgree(m: ChunkMeshData)
    reads m
  {
    Agree(|m.vertices|, m.uvs, m.colors, m.triangles)
  }

  /** Appending the attributes of vertex n keeps the lists in agreement. */
  lemma AgreeStep(n: nat, uvs: seq<Uv>, colors: seq<Color>, triangles: seq<int>)
    requires Agree(n, uvs, colors, triangles)
    ensures Agree(n + 1, uvs + [VoxelUVs[VoxelTriangles[n % 6]]], colors + [WHITE], triangles + [n])
  {
    assert uvs + [VoxelUVs[VoxelTriangles[n % 6]]] == UvCycle(n + 1);
    assert colors + [WHITE] == WhiteRun(n + 1);
    assert triangles + [n] == Iota(n + 1);
  }

  lemma ModSix(b: nat, j: nat)
    requires b % 6 == 0 && j < 6
    ensures (b + j) % 6 == j
  {
    var k := b / 6;
    assert b == 6 * k;
    assert b + j == 6 * k + j;
  }

  /** On a transition along axis i, the vertices of the quads of p for the
      axes up to i + 1 extend those up to i by the two triangles over the
      quad's corners, wound by which side is solid. */
  lemma AxisQuadsStep(voxels: seq<byte>, p: Vec3i, i: AxisIndex, corners: seq<Vec3r>)
    requires |voxels| == CHUNK_VOL && Transition(voxels, p, i) && corners == QuadCorners(voxels, p, i)
    ensures MeshVertices(voxels, AxisQuads(voxels, p, i + 1)) ==
            MeshVertices(voxels, AxisQuads(voxels, p, i)) + Wound(corners, !IsVoid(p, voxels))
  {
    var q := Quad(p, i, !IsVoid(p, voxels));
    MeshVerticesAppend(voxels, AxisQuads(voxels, p, i), [q]);
    assert [q][..0] == [];
  }

  /** Without a transition along axis i, p has no quad for that axis. */
  lemma AxisQuadsSkip(voxels: seq<byte>, p: Vec3i, i: AxisIndex)
    requires |voxels| == CHUNK_VOL && !Transition(voxels, p, i)
    ensures AxisQuads(voxels, p, i + 1) == AxisQuads(voxels, p, i)
  {
  }

  /** The vertices emitted before row (x, y) in scan order: all earlier
      x-slabs and the earlier rows of slab x. */
  function ScanPrefix(voxels: seq<byte>, x: int, y: int): seq<Vec3r>
    requires |voxels| == CHUNK_VOL && -1 <= x && -1 <= y
  {
    MeshVertices(voxels, VolumeQuads(voxels, x)) + MeshVertices(voxels, PlaneQuads(voxels, x, y))
  }

  /** Visiting point (x, y, z) appends the vertices of its own quads to
      those of the row so far. */
  lemma RowPointStep(voxels: seq<byte>, x: int, y: int, z: int)
    requires |voxels| == CHUNK_VOL && -1 <= z
    ensures MeshVertices(voxels, RowQuads(voxels, x, y, z + 1)) ==
            MeshVertices(voxels, RowQuads(voxels, x, y, z)) + MeshVertices(voxels, CellQuads(voxels, Vec3i(x, y, z)))
  {
    MeshVerticesAppend(voxels, RowQuads(voxels, x, y, z), CellQuads(voxels, Vec3i(x, y, z)));
  }

  // The step lemmas below take the bound S + 1 as a parameter z or y, not
  // as a literal: a literal bound would let the verifier unfold the scan
  // functions all the way down.

  /** A finished row becomes part of the slab. */
  lemma ScanRowStep(voxels: seq<byte>, x: int, y: int, z: int)
    requires |voxels| == CHUNK_VOL && -1 <= x && -1 <= y && z == CHUNK_SIZE + 1
    ensures ScanPrefix(voxels, x, y + 1) == ScanPrefix(voxels, x, y) + MeshVertices(voxels, RowQuads(voxels, x, y, z))
  {
    MeshVerticesAppend(voxels, PlaneQuads(voxels, x, y), RowQuads(voxels, x, y, z));
    AppendAssoc(MeshVertices(voxels, VolumeQuads(voxels, x)), MeshVertices(voxels, PlaneQuads(voxels, x, y)),
                MeshVertices(voxels, RowQuads(voxels, x, y, z)));
  }

  /** A finished slab becomes part of the volume. */
  lemma ScanSlabStep(voxels: seq<byte>, x: int, y: int)
    requires |voxels| == CHUNK_VOL && -1 <= x && y == CHUNK_SIZE + 1
    ensures ScanPrefix(voxels, x + 1, -1) == ScanPrefix(voxels, x, y)
  {
    MeshVerticesAppend(voxels, VolumeQuads(voxels, x), PlaneQuads(voxels, x, y));
  }

  /** After the last slab the scan has emitted every quad of the lattice. */
  lemma ScanComplete(voxels: seq<byte>, x: int)
    requires |voxels| == CHUNK_VOL && x == CHUNK_SIZE + 1
    ensures ScanPrefix(voxels, x, -1) == MeshVertices(voxels, SurfaceQuads(voxels))
  {
    assert ScanPrefix(voxels, x, -1) == MeshVertices(voxels, VolumeQuads(voxels, x)) + [];
  }
}
