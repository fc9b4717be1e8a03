/** Three-component vectors over the reals, as used by transforms, tracks and
    quaternion rotation. Floating point is modelled exactly: every operation is
    the real-number version of the componentwise float operation. */
module Vectors {

  datatype Vec3 = Vec3(x: real, y: real, z: real)

  /** vec3() and vec3(0, 0, 0) */
  const Zero: Vec3 := Vec3(0.0, 0.0, 0.0)

  /** The default scale of a transform, vec3(1, 1, 1). */
  const One: Vec3 := Vec3(1.0, 1.0, 1.0)

  function Add(a: Vec3, b: Vec3): Vec3 {
    Vec3(a.x + b.x, a.y + b.y, a.z + b.z)
  }

  function Sub(a: Vec3, b: Vec3): Vec3 {
    Vec3(a.x - b.x, a.y - b.y, a.z - b.z)
  }

  /** `v * f`: every component multiplied by the same factor. */
  function Scale(v: Vec3, f: real): Vec3 {
    Vec3(v.x * f, v.y * f, v.z * f)
  }

  /** `a * b` on two vectors: the componentwise (Hadamard) product. */
  function Mul(a: Vec3, b: Vec3): Vec3 {
    Vec3(a.x * b.x, a.y * b.y, a.z * b.z)
  }

  function Dot(a: Vec3, b: Vec3): real {
    a.x * b.x + a.y * b.y + a.z * b.z
  }

  function Cross(a: Vec3, b: Vec3): Vec3 {
    Vec3(a.y * b.z - a.z * b.y,
         a.z * b.x - a.x * b.z,
         a.x * b.y - a.y * b.x)
  }

  /** Linear interpolation `from + (to - from) * t`, unclamped. */
  function Lerp(from: Vec3, to: Vec3, t: real): (r: Vec3)
    ensures t == 0.0 ==> r == from
    ensures t == 1.0 ==> r == to
    ensures from == to ==> r == from
  {
    Add(from, Scale(Sub(to, from), t))
  }

  /** Interpolating from `from` to `to` at t is interpolating back at 1 - t. */
  lemma LerpSymmetric(from: Vec3, to: Vec3, t: real)
    ensures Lerp(from, to, t) == Lerp(to, from, 1.0 - t)
  {
    Mirror(from.x, to.x, t);
    Mirror(from.y, to.y, t);
    Mirror(from.z, to.z, t);
  }

  lemma Mirror(a: real, b: real, t: real)
    ensures a + (b - a) * t == b + (a - b) * (1.0 - t)
  {
  }
}
