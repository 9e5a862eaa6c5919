/** The dictionary-backed voxel container of Container.cs: voxels stored by
    position in a map that reads as an empty voxel where nothing is stored,
    and a blocky mesher that visits the stored voxels in the dictionary's
    enumeration order, which is left unspecified here. */
module VoxelContainer {
  import opened Constants
  import opened Geometry
  import opened Concat
  import MeshBuffer
  import Weld

  /** The two members of a voxel the container reads: its material id and
      whether it hides the faces of its neighbours. */
  datatype Voxel = Voxel(id: byte, isSolid: bool)

  /** The voxel read where nothing is stored: id 0 and, as every field not
      set by its initialiser, not solid. */
  const EmptyVoxel: Voxel := Voxel(0, false)

  /** The container's lookup tables (declared outside Container.cs): the
      cube corners, the corners of each face, the step to the neighbour
      each face touches, the four UVs of a face and, per face, the corner
      order of its two triangles. */
  datatype FaceTables = FaceTables(
    voxelVertices: seq<Vec3r>,
    voxelVertexIndex: seq<seq<int>>,
    voxelFaceChecks: seq<Vec3r>,
    voxelUVs: seq<Uv>,
    voxelTriangles: seq<seq<int>>)
  {
    /** Every entry the mesher reads exists and points inside the table it
        indexes. */
    predicate Valid()
    {
      |voxelVertexIndex| >= 6 && |voxelFaceChecks| >= 6 && |voxelUVs| >= 4 && |voxelTriangles| >= 6 &&
      (forall i :: 0 <= i < 6 ==> |voxelVertexIndex[i]| >= 4 && |voxelTriangles[i]| >= 6) &&
      (forall i, j :: 0 <= i < 6 && 0 <= j < 4 ==> 0 <= voxelVertexIndex[i][j] < |voxelVertices|) &&
      (forall i, j :: 0 <= i < 6 && 0 <= j < 6 ==> 0 <= voxelTriangles[i][j] < 4)
    }
  }

  type Tables = t: FaceTables | t.Valid()
    witness FaceTables([ZERO], seq(6, _ => [0, 0, 0, 0]), seq(6, _ => ZERO),
                       seq(4, _ => Uv(0.0, 0.0)), seq(6, _ => [0, 0, 0, 0, 0, 0]))

  /** Face `side` of the voxel stored at `pos`. */
  datatype Side = Side(pos: Vec3r, side: FaceIndex)

  // ---------------------------------------------------------------------
  // The map and what the mesher draws from it
  // ---------------------------------------------------------------------

  /** The indexer's getter: the stored voxel when the key is present,
      otherwise the empty voxel, whose id is 0. */
  function Lookup(data: map<Vec3r, Voxel>, key: Vec3r): (v: Voxel)
    ensures key in data ==> v == data[key]
    ensures key !in data ==> v == EmptyVoxel && v.id == 0 && !v.isSolid
  {
    if key in data then data[key] else EmptyVoxel
  }

  /** Face i of the voxel at key is drawn when the voxel across it is not
      solid (an absent neighbour reads as the empty voxel). */
  predicate Drawn(data: map<Vec3r, Voxel>, t: Tables, key: Vec3r, i: FaceIndex)
  {
    !Lookup(data, key.Plus(t.voxelFaceChecks[i])).isSolid
  }

  /** The drawn faces among the first n of the voxel at key, in order. */
  function VoxelSides(data: map<Vec3r, Voxel>, t: Tables, key: Vec3r, n: nat): seq<Side>
    requires n <= 6
  {
    if n == 0 then []
    else VoxelSides(data, t, key, n - 1) + (if Drawn(data, t, key, n - 1) then [Side(key, n - 1)] else [])
  }

  /** The faces drawn for key: none when nothing or an id-0 voxel is
      stored there. */
  function KeySides(data: map<Vec3r, Voxel>, t: Tables, key: Vec3r): seq<Side>
  {
    if key in data && data[key].id != 0 then VoxelSides(data, t, key, 6) else []
  }

  function SidesOf(data: map<Vec3r, Voxel>, t: Tables): Vec3r -> seq<Side>
  {
    key => KeySides(data, t, key)
  }

  /** The faces drawn when the keys are visited in `order`. */
  function OrderSides(data: map<Vec3r, Voxel>, t: Tables, order: seq<Vec3r>): seq<Side>
  {
    Flatten(order, SidesOf(data, t))
  }

  /** The six vertices of a drawn face: its corners in triangle order,
      placed at the voxel's position. */
  function SideVertices(t: Tables, s: Side): (r: seq<Vec3r>)
    ensures |r| == 6
  {
    seq(6, j requires 0 <= j < 6 =>
      t.voxelVertices[t.voxelVertexIndex[s.side][t.voxelTriangles[s.side][j]]].Plus(s.pos))
  }

  /** The six UVs of a drawn face, in the same triangle order. */
  function SideUvs(t: Tables, s: Side): (r: seq<Uv>)
    ensures |r| == 6
  {
    seq(6, j requires 0 <= j < 6 => t.voxelUVs[t.voxelTriangles[s.side][j]])
  }

  function VerticesOf(t: Tables): Side -> seq<Vec3r>
  {
    s => SideVertices(t, s)
  }

  function UvsOf(t: Tables): Side -> seq<Uv>
  {
    s => SideUvs(t, s)
  }

  /** order lists every key of data exactly once. */
  ghost predicate Enumerates(order: seq<Vec3r>, data: map<Vec3r, Voxel>)
  {
    Weld.NoDup(order) && forall k :: k in data <==> k in order
  }

  // ---------------------------------------------------------------------
  // The drawn faces do not depend on the visiting order
  // ---------------------------------------------------------------------

  lemma {:induction false} VoxelSidesMembers(data: map<Vec3r, Voxel>, t: Tables, key: Vec3r, n: nat, s: Side)
    requires n <= 6
    ensures s in VoxelSides(data, t, key, n) <==> s.pos == key && s.side < n && Drawn(data, t, key, s.side)
  {
    if n > 0 {
      VoxelSidesMembers(data, t, key, n - 1, s);
    }
  }

  lemma {:induction false} VoxelSidesNoDup(data: map<Vec3r, Voxel>, t: Tables, key: Vec3r, n: nat)
    requires n <= 6
    ensures Weld.NoDup(VoxelSides(data, t, key, n))
  {
    if n > 0 {
      VoxelSidesNoDup(data, t, key, n - 1);
      var last: seq<Side> := if Drawn(data, t, key, n - 1) then [Side(key, n - 1)] else [];
      forall s | s in VoxelSides(data, t, key, n - 1) ensures s !in last {
        VoxelSidesMembers(data, t, key, n - 1, s);
      }
      NoDupAppend(VoxelSides(data, t, key, n - 1), last);
    }
  }

  lemma NoDupAppend<T>(a: seq<T>, b: seq<T>)
    requires Weld.NoDup(a) && Weld.NoDup(b)
    requires forall x :: x in a ==> x !in b
    ensures Weld.NoDup(a + b)
  {
    forall i, j | 0 <= i < j < |a + b| ensures (a + b)[i] != (a + b)[j] {
      if j < |a| {
      } else if i >= |a| {
        assert (a + b)[i] == b[i - |a|] && (a + b)[j] == b[j - |a|];
      } else {
        assert (a + b)[i] in a && (a + b)[j] in b;
      }
    }
  }

  /** A face is drawn for some key of the order exactly when its voxel is
      one of the keys, holds a non-zero id, and the face is exposed. */
  lemma {:induction false} OrderSidesMembers(data: map<Vec3r, Voxel>, t: Tables, order: seq<Vec3r>, s: Side)
    ensures s in OrderSides(data, t, order) <==>
            s.pos in order && s.pos in data && data[s.pos].id != 0 && Drawn(data, t, s.pos, s.side)
  {
    if order != [] {
      var prefix, key := order[..|order| - 1], order[|order| - 1];
      OrderSidesMembers(data, t, prefix, s);
      assert order == prefix + [key];
      if key in data && data[key].id != 0 {
        VoxelSidesMembers(data, t, key, 6, s);
      }
    }
  }

  /** Visiting each key once draws each face at most once. */
  lemma {:induction false} OrderSidesNoDup(data: map<Vec3r, Voxel>, t: Tables, order: seq<Vec3r>)
    requires Weld.NoDup(order)
    ensures Weld.NoDup(OrderSides(data, t, order))
  {
    if order != [] {
      var prefix, key := order[..|order| - 1], order[|order| - 1];
      OrderSidesNoDup(data, t, prefix);
      if key in data && data[key].id != 0 {
        VoxelSidesNoDup(data, t, key, 6);
        forall s | s in OrderSides(data, t, prefix) ensures s !in KeySides(data, t, key) {
          OrderSidesMembers(data, t, prefix, s);
          VoxelSidesMembers(data, t, key, 6, s);
          assert key == order[|order| - 1] && s.pos == order[IndexIn(prefix, s.pos)];
        }
        NoDupAppend(OrderSides(data, t, prefix), KeySides(data, t, key));
      } else {
        assert OrderSides(data, t, order) == OrderSides(data, t, prefix) + [];
      }
    }
  }

  function IndexIn<T(==)>(s: seq<T>, x: T): (i: nat)
    requires x in s
    ensures i < |s| && s[i] == x
  {
    if s[0] == x then 0 else 1 + IndexIn(s[1..], x)
  }

  /** Whatever order the dictionary enumerates its keys in, the mesher
      draws the same faces, each once: exactly the exposed faces of the
      stored voxels with a non-zero id. */
  lemma OrderIndependent(data: map<Vec3r, Voxel>, t: Tables, order1: seq<Vec3r>, order2: seq<Vec3r>)
    requires Enumerates(order1, data) && Enumerates(order2, data)
    ensures multiset(OrderSides(data, t, order1)) == multiset(OrderSides(data, t, order2))
  {
    var a, b := OrderSides(data, t, order1), OrderSides(data, t, order2);
    OrderSidesNoDup(data, t, order1);
    OrderSidesNoDup(data, t, order2);
    forall s ensures s in a <==> s in b {
      OrderSidesMembers(data, t, order1, s);
      OrderSidesMembers(data, t, order2, s);
    }
    NoDupMultiset(a);
    NoDupMultiset(b);
    assert (set x | x in a) == (set x | x in b);
  }

  /** A duplicate-free sequence holds each of its elements once. */
  lemma {:induction false} NoDupMultiset<T>(a: seq<T>)
    requires Weld.NoDup(a)
    ensures multiset(a) == multiset(set x | x in a)
  {
    if a != [] {
      var prefix, last := a[..|a| - 1], a[|a| - 1];
      assert a == prefix + [last];
      NoDupMultiset(prefix);
      assert last !in prefix by {
        forall i | 0 <= i < |prefix| ensures prefix[i] != last {
          assert a[i] == prefix[i];
        }
      }
      assert (set x | x in a) == (set x | x in prefix) + {last};
    }
  }

  // ---------------------------------------------------------------------
  // The container and its mesh data
  // ---------------------------------------------------------------------

  /** The container's MeshData: vertex, index and UV lists and the flag
      that tells whether they exist yet. */
  class MeshData {
    var vertices: seq<Vec3r>
    var triangles: seq<int>
    var uvs: seq<Uv>
    var initialized: bool

    /** The default value of the struct: not initialised. */
    constructor ()
      ensures !initialized && vertices == [] && triangles == [] && uvs == []
    {
      vertices, triangles, uvs := [], [], [];
      initialized := false;
    }

    /** First call allocates the lists, later calls clear them; either way
        the lists end empty and the data initialised. */
    method ClearData()
      modifies this
      ensures initialized && vertices == [] && triangles == [] && uvs == []
    {
      if !initialized {
        vertices := [];
        triangles := [];
        uvs := [];
        initialized := true;
      } else {
        vertices := vertices[..0];
        triangles := triangles[..0];
        uvs := uvs[..0];
      }
    }
  }

  /** The UV list runs parallel to the vertex list and the index list
      counts up from 0. */
  ghost predicate ListsAgree(m: MeshData)
    reads m
  {
    |m.uvs| == |m.vertices| && m.triangles == MeshBuffer.Iota(|m.vertices|)
  }

  /** The vertex and UV lists of m are v0 and u0 followed by those of the
      faces ss, in order. */
  ghost predicate Emits(m: MeshData, t: Tables, v0: seq<Vec3r>, u0: seq<Uv>, ss: seq<Side>)
    reads m
  {
    m.vertices == v0 + Flatten(ss, VerticesOf(t)) && m.uvs == u0 + Flatten(ss, UvsOf(t))
  }

  lemma EmitsMore(m: MeshData, t: Tables, v0: seq<Vec3r>, u0: seq<Uv>, ss: seq<Side>, more: seq<Side>)
    requires m.vertices == v0 + Flatten(ss, VerticesOf(t)) + Flatten(more, VerticesOf(t))
    requires m.uvs == u0 + Flatten(ss, UvsOf(t)) + Flatten(more, UvsOf(t))
    ensures Emits(m, t, v0, u0, ss + more)
  {
    FlattenAppend(ss, more, VerticesOf(t));
    FlattenAppend(ss, more, UvsOf(t));
    AppendAssoc(v0, Flatten(ss, VerticesOf(t)), Flatten(more, VerticesOf(t)));
    AppendAssoc(u0, Flatten(ss, UvsOf(t)), Flatten(more, UvsOf(t)));
  }

  class Container {
    var containerPosition: Vec3r
    var data: map<Vec3r, Voxel>
    const meshData: MeshData

    /** A new container: no voxels and uninitialised mesh data. */
    constructor ()
      ensures data == map[] && fresh(meshData) && !meshData.initialized
    {
      containerPosition := ZERO;
      data := map[];
      meshData := new MeshData();
    }

    /** Starts an empty voxel map and records the position. */
    method Initialize(position: Vec3r)
      modifies this
      ensures data == map[] && containerPosition == position
    {
      data := map[];
      containerPosition := position;
    }

    /** Removes every voxel: afterwards every position reads as the empty
        voxel. */
    method ClearData()
      modifies this
      ensures data == map[]
      ensures forall key :: Lookup(data, key) == EmptyVoxel
      ensures containerPosition == old(containerPosition)
    {
      data := map[];
    }

    /** The indexer's setter, an upsert: afterwards key reads as value and
        every other key reads as before. */
    method Set(key: Vec3r, value: Voxel)
      modifies this
      ensures data == old(data)[key := value]
      ensures Lookup(data, key) == value
      ensures forall k :: k != key ==> Lookup(data, k) == Lookup(old(data), k)
      ensures containerPosition == old(containerPosition)
    {
      if key in data {
        data := data[key := value];
      } else {
        data := data + map[key := value];
      }
    }

    /** Rebuilds the mesh data from the stored voxels. The keys are visited
        in some order `order` that lists each of them once; the lists then
        hold the six vertices and UVs of each drawn face, key by key, and
        the index list counts up from 0. OrderIndependent shows that the
        faces drawn do not depend on that order. */
    method GenerateMesh(t: Tables) returns (ghost order: seq<Vec3r>)
      modifies meshData
      ensures Enumerates(order, data)
      ensures meshData.initialized
      ensures meshData.vertices == Flatten(OrderSides(data, t, order), VerticesOf(t))
      ensures meshData.uvs == Flatten(OrderSides(data, t, order), UvsOf(t))
      ensures meshData.triangles == MeshBuffer.Iota(|meshData.vertices|)
    {
      meshData.ClearData();
      var counter := 0;
      var faceVertices := new Vec3r[4](_ => ZERO);
      var faceUVs := new Uv[4](_ => Uv(0.0, 0.0));
      var remaining := data.Keys;
      order := [];
      while remaining != {}
        invariant forall k :: k in data <==> k in order || k in remaining
        invariant forall k :: k in order ==> k !in remaining
        invariant Weld.NoDup(order)
        invariant Emits(meshData, t, [], [], OrderSides(data, t, order))
        invariant ListsAgree(meshData) && counter == |meshData.vertices|
        invariant meshData.initialized
        decreases |remaining|
      {
        var blockPos :| blockPos in remaining;
        remaining := remaining - {blockPos};
        ghost var done := OrderSides(data, t, order);
        if data[blockPos].id != 0 {
          counter := DrawVoxel(t, blockPos, faceVertices, faceUVs, counter);
        } else {
          assert Flatten([], VerticesOf(t)) == [] && Flatten([], UvsOf(t)) == [];
          assert meshData.vertices == [] + Flatten(done, VerticesOf(t)) + [];
          assert meshData.uvs == [] + Flatten(done, UvsOf(t)) + [];
        }
        EmitsMore(meshData, t, [], [], done, KeySides(data, t, blockPos));
        assert (order + [blockPos])[..|order|] == order;
        NoDupAppend(order, [blockPos]);
        order := order + [blockPos];
      }
      assert [] + Flatten(OrderSides(data, t, order), VerticesOf(t)) == Flatten(OrderSides(data, t, order), VerticesOf(t));
      assert [] + Flatten(OrderSides(data, t, order), UvsOf(t)) == Flatten(OrderSides(data, t, order), UvsOf(t));
    }

    /** The loop over the six faces of one stored voxel with a non-zero id. */
    method DrawVoxel(t: Tables, blockPos: Vec3r, faceVertices: array<Vec3r>, faceUVs: array<Uv>, counter: int)
      returns (next: int)
      requires blockPos in data && data[blockPos].id != 0
      requires faceVertices.Length == 4 && faceUVs.Length == 4
      requires ListsAgree(meshData) && counter == |meshData.vertices|
      modifies meshData, faceVertices, faceUVs
      ensures Emits(meshData, t, old(meshData.vertices), old(meshData.uvs), KeySides(data, t, blockPos))
      ensures ListsAgree(meshData) && next == |meshData.vertices|
      ensures meshData.initialized == old(meshData.initialized)
    {
      next := counter;
      ghost var v0, u0 := meshData.vertices, meshData.uvs;
      for i := 0 to 6
        invariant Emits(meshData, t, v0, u0, VoxelSides(data, t, blockPos, i))
        invariant ListsAgree(meshData) && next == |meshData.vertices|
        invariant meshData.initialized == old(meshData.initialized)
      {
        ghost var done := VoxelSides(data, t, blockPos, i);
        ghost var side: seq<Side> := if Drawn(data, t, blockPos, i) then [Side(blockPos, i)] else [];
        next := DrawSide(t, blockPos, i, faceVertices, faceUVs, next);
        EmitsMore(meshData, t, v0, u0, done, side);
      }
    }

    /** One face: skipped when the neighbour across it is solid, otherwise
        its corners and UVs are collected and its two triangles appended. */
    method DrawSide(t: Tables, blockPos: Vec3r, i: FaceIndex, faceVertices: array<Vec3r>, faceUVs: array<Uv>,
                    counter: int)
      returns (next: int)
      requires faceVertices.Length == 4 && faceUVs.Length == 4
      requires ListsAgree(meshData) && counter == |meshData.vertices|
      modifies meshData, faceVertices, faceUVs
      ensures Emits(meshData, t, old(meshData.vertices), old(meshData.uvs),
                    if Drawn(data, t, blockPos, i) then [Side(blockPos, i)] else [])
      ensures ListsAgree(meshData) && next == |meshData.vertices|
      ensures meshData.initialized == old(meshData.initialized)
    {
      next := counter;
      if Lookup(data, blockPos.Plus(t.voxelFaceChecks[i])).isSolid {
        assert meshData.vertices + [] == meshData.vertices && meshData.uvs + [] == meshData.uvs;
        return;
      }
      FillSide(t, Side(blockPos, i), faceVertices, faceUVs);
      next := AppendSide(t, Side(blockPos, i), faceVertices, faceUVs, next);
      assert [Side(blockPos, i)][..0] == [];
    }

    /** The first loop over j: the four corners and UVs of face s, written
        into the reused arrays. */
    static method FillSide(t: Tables, s: Side, faceVertices: array<Vec3r>, faceUVs: array<Uv>)
      requires faceVertices.Length == 4 && faceUVs.Length == 4
      modifies faceVertices, faceUVs
      ensures forall k :: 0 <= k < 4 ==>
                faceVertices[k] == t.voxelVertices[t.voxelVertexIndex[s.side][k]].Plus(s.pos) &&
                faceUVs[k] == t.voxelUVs[k]
    {
      for j := 0 to 4
        invariant forall k :: 0 <= k < j ==>
                    faceVertices[k] == t.voxelVertices[t.voxelVertexIndex[s.side][k]].Plus(s.pos) &&
                    faceUVs[k] == t.voxelUVs[k]
      {
        faceVertices[j] := t.voxelVertices[t.voxelVertexIndex[s.side][j]].Plus(s.pos);
        faceUVs[j] := t.voxelUVs[j];
      }
    }

    /** The second loop over j: the six vertices and UVs of the face's
        triangles, with consecutive indices. */
    method AppendSide(t: Tables, s: Side, faceVertices: array<Vec3r>, faceUVs: array<Uv>, counter: int)
      returns (next: int)
      requires faceVertices.Length == 4 && faceUVs.Length == 4
      requires forall k :: 0 <= k < 4 ==>
                 faceVertices[k] == t.voxelVertices[t.voxelVertexIndex[s.side][k]].Plus(s.pos) &&
                 faceUVs[k] == t.voxelUVs[k]
      requires ListsAgree(meshData) && counter == |meshData.vertices|
      modifies meshData
      ensures meshData.vertices == old(meshData.vertices) + SideVertices(t, s)
      ensures meshData.uvs == old(meshData.uvs) + SideUvs(t, s)
      ensures ListsAgree(meshData) && next == |meshData.vertices|
      ensures meshData.initialized == old(meshData.initialized)
    {
      next := counter;
      for j := 0 to 6
        invariant meshData.vertices == old(meshData.vertices) + SideVertices(t, s)[..j]
        invariant meshData.uvs == old(meshData.uvs) + SideUvs(t, s)[..j]
        invariant ListsAgree(meshData) && next == |meshData.vertices|
        invariant meshData.initialized == old(meshData.initialized)
      {
        var corner := t.voxelTriangles[s.side][j];
        assert SideVertices(t, s)[..j + 1] == SideVertices(t, s)[..j] + [faceVertices[corner]];
        assert SideUvs(t, s)[..j + 1] == SideUvs(t, s)[..j] + [faceUVs[corner]];
        AppendAssoc(old(meshData.vertices), SideVertices(t, s)[..j], [faceVertices[corner]]);
        AppendAssoc(old(meshData.uvs), SideUvs(t, s)[..j], [faceUVs[corner]]);
        meshData.vertices := meshData.vertices + [faceVertices[corner]];
        meshData.uvs := meshData.uvs + [faceUVs[corner]];
        meshData.triangles := meshData.triangles + [next];
        next := next + 1;
      }
      assert SideVertices(t, s)[..6] == SideVertices(t, s) && SideUvs(t, s)[..6] == SideUvs(t, s);
    }
  }
}
