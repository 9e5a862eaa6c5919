/** The mesh buffer of ChunkMeshData.cs: four parallel attribute lists
    filled by a mesher, and the upload step that optionally welds them. */
module MeshBuffer {
  import opened Geometry
  import Weld

  datatype Option<T> = None | Some(value: T)

  /** What UploadMesh hands to the rendering mesh: positions, the index
      list, and the UV and colour lists when they are supplied. */
  datatype MeshUpload = MeshUpload(
    vertices: seq<Vec3r>,
    triangles: seq<int>,
    uvs: Option<seq<Uv>>,
    colors: Option<seq<Color>>)

  /** The index list 0, 1, ..., n-1: every emitted vertex is referenced once,
      in emission order. */
  function Iota(n: nat): (r: seq<int>)
    ensures |r| == n && forall k :: 0 <= k < n ==> r[k] == k
  {
    seq(n, k => k)
  }

  /** n vertices coloured white. */
  function WhiteRun(n: nat): (r: seq<Color>)
    ensures |r| == n && forall k :: 0 <= k < n ==> r[k] == WHITE
  {
    seq(n, _ => WHITE)
  }

  class ChunkMeshData {
    var vertices: seq<Vec3r>
    var triangles: seq<int>
    var colors: seq<Color>
    var uvs: seq<Uv>
    var initialized: bool

    /** A fresh buffer: not yet initialised (the lists are still unallocated
        in the source; here they are empty). */
    constructor ()
      ensures !initialized
      ensures vertices == [] && triangles == [] && colors == [] && uvs == []
    {
      vertices, triangles, colors, uvs := [], [], [], [];
      initialized := false;
    }

    /** First call allocates the lists, later calls clear them; either way
        the buffer ends initialised and empty, whatever it held before. */
    method ClearData()
      modifies this
      ensures initialized
      ensures vertices == [] && triangles == [] && uvs == [] && colors == []
    {
      if !initialized {
        vertices := [];
        triangles := [];
        uvs := [];
        colors := [];
        initialized := true;
      } else {
        vertices := vertices[..0];
        triangles := triangles[..0];
        uvs := uvs[..0];
        colors := colors[..0];
      }
    }

    /** With sharedVertices, positions are welded: the mesh receives the
        distinct positions in first-occurrence order and, per raw vertex,
        the index of its position; UVs and colours are not supplied. Without
        it, the four lists go up unchanged. */
    method UploadMesh(sharedVertices: bool) returns (upload: MeshUpload)
      requires initialized
      ensures sharedVertices ==>
                upload == MeshUpload(Weld.Distinct(vertices), Weld.WeldIndices(vertices), None, None)
      ensures !sharedVertices ==>
                upload == MeshUpload(vertices, triangles, Some(uvs), Some(colors))
      ensures sharedVertices ==>
                |upload.triangles| == |vertices| && |upload.vertices| <= |vertices| &&
                forall i :: 0 <= i < |vertices| ==>
                  0 <= upload.triangles[i] < |upload.vertices| &&
                  upload.vertices[upload.triangles[i]] == vertices[i]
    {
      if sharedVertices {
        var keys, sharedTriangles := Weld.WeldVertices(vertices);
        Weld.WeldIndicesUnique(vertices, sharedTriangles);
        upload := MeshUpload(keys, sharedTriangles, None, None);
      } else {
        upload := MeshUpload(vertices, triangles, Some(uvs), Some(colors));
      }
    }
  }
}
