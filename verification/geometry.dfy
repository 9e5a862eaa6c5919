/** Vector and attribute values of the mesh pipeline (Unity's Vector3Int,
    Vector3, Vector2 and Color). Float vectors are modelled by exact reals:
    every coordinate the meshers produce is a small rational. */
module Geometry {

  /** An integer lattice position or offset. */
  datatype Vec3i = Vec3i(x: int, y: int, z: int) {
    function Plus(o: Vec3i): Vec3i { Vec3i(x + o.x, y + o.y, z + o.z) }
    function ToReal(): Vec3r { Vec3r(x as real, y as real, z as real) }
  }

  /** A vertex position. */
  datatype Vec3r = Vec3r(x: real, y: real, z: real) {
    function Plus(o: Vec3r): Vec3r { Vec3r(x + o.x, y + o.y, z + o.z) }
    function Minus(o: Vec3r): Vec3r { Vec3r(x - o.x, y - o.y, z - o.z) }
    function Neg(): Vec3r { Vec3r(-x, -y, -z) }
    function Div(k: real): Vec3r requires k != 0.0 { Vec3r(x / k, y / k, z / k) }
  }

  const ZERO: Vec3r := Vec3r(0.0, 0.0, 0.0)

  /** Texture coordinate. */
  datatype Uv = Uv(u: real, v: real)

  /** Vertex colour (RGBA). */
  datatype Color = Color(r: real, g: real, b: real, a: real)

  /** One of the six faces of a cube, as an index into the face tables. */
  type FaceIndex = i: nat | i < 6

  const WHITE: Color := Color(1.0, 1.0, 1.0, 1.0)

  /** Cross product a x b; used to state which way a triangle faces. */
  function Cross(a: Vec3r, b: Vec3r): Vec3r
  {
    Vec3r(Det(a.y, a.z, b.y, b.z), Det(a.z, a.x, b.z, b.x), Det(a.x, a.y, b.x, b.y))
  }

  /** The 2x2 determinant |p q; r s|. */
  function Det(p: real, q: real, r: real, s: real): real
  {
    p * s - q * r
  }

  /** The face normal (b - a) x (c - a) of triangle a, b, c (not normalised). */
  function TriangleNormal(a: Vec3r, b: Vec3r, c: Vec3r): Vec3r
  {
    Cross(b.Minus(a), c.Minus(a))
  }

  /** Swapping two vertices of a triangle turns it to face the other way. */
  lemma SwapNegatesNormal(a: Vec3r, b: Vec3r, c: Vec3r)
    ensures TriangleNormal(a, c, b) == TriangleNormal(a, b, c).Neg()
  {
  }
}
