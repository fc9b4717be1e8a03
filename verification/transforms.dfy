/** Affine transforms without shear: a position, a rotation and a per-axis
    scale, with composition, inversion, blending and the conversion to a
    column-major 4x4 matrix. */
module Transforms {
  import V = Vectors
  import Q = Quaternions

  datatype Transform = Transform(position: V.Vec3, rotation: Q.Quat, scale: V.Vec3)

  /** `Transform()`: position 0, identity rotation, scale 1. */
  const Default: Transform := Transform(V.Zero, Q.Identity, V.One)

  /** VEC3_EPSILON, the near-zero guard of the scale reciprocal. */
  const Vec3Epsilon: real := 0.000001

  /** `combine(a, b)`: the child b expressed in the space of the parent a.
      Scales multiply per axis, the rotations compose with a applied after b
      (`b.rotation * a.rotation`), and b's position is scaled, rotated and
      offset by a. The default transform is a unit on either side. */
  function Combine(a: Transform, b: Transform): (r: Transform)
    ensures a == Default ==> r == b
    ensures b == Default ==> r == a
    ensures r.scale == V.Mul(a.scale, b.scale)
  {
    Q.RotateByIdentity(b.position);
    Q.RotateZero(a.rotation);
    assert V.Mul(a.scale, V.Zero) == V.Zero;
    var scale := V.Mul(a.scale, b.scale);
    var rotation := Q.Mul(b.rotation, a.rotation);
    var position := Q.Rotate(a.rotation, V.Mul(a.scale, b.position));
    Transform(V.Add(a.position, position), rotation, scale)
  }

  /** Under a parent whose scale is the same on every axis, transforming a
      point by `combine(a, b)` is transforming it by b and then by a. This
      fixes the order of the rotation product: b's rotation acts first. A
      non-uniform parent scale does not commute with b's rotation, so no
      such law holds in general. */
  lemma CombineComposes(a: Transform, b: Transform, p: V.Vec3)
    requires a.scale.x == a.scale.y == a.scale.z
    ensures TransformPoint(Combine(a, b), p) == TransformPoint(a, TransformPoint(b, p))
  {
    var k := a.scale.x;
    var sp := V.Mul(b.scale, p);
    var inner := Q.Rotate(b.rotation, sp);
    var offset := Q.Rotate(a.rotation, V.Scale(b.position, k));
    UniformScale(a.scale, b.position, k);
    UniformScale(a.scale, V.Add(b.position, inner), k);
    UniformScaleOfProduct(a.scale, b.scale, p, k);
    var c := Combine(a, b);
    assert c == Transform(V.Add(a.position, offset), Q.Mul(b.rotation, a.rotation), V.Mul(a.scale, b.scale));
    Q.RotateMul(b.rotation, a.rotation, V.Scale(sp, k));
    Q.RotateScaled(b.rotation, sp, k);
    Q.RotateAdditive(a.rotation, V.Scale(b.position, k), V.Scale(inner, k));
    calc {
      TransformPoint(c, p);
      V.Add(V.Add(a.position, offset), Q.Rotate(c.rotation, V.Mul(c.scale, p)));
      V.Add(V.Add(a.position, offset), Q.Rotate(a.rotation, Q.Rotate(b.rotation, V.Scale(sp, k))));
      V.Add(V.Add(a.position, offset), Q.Rotate(a.rotation, V.Scale(inner, k)));
      V.Add(a.position, Q.Rotate(a.rotation, V.Add(V.Scale(b.position, k), V.Scale(inner, k))));
      { assert V.Add(V.Scale(b.position, k), V.Scale(inner, k)) == V.Scale(V.Add(b.position, inner), k); }
      V.Add(a.position, Q.Rotate(a.rotation, V.Mul(a.scale, V.Add(b.position, inner))));
      TransformPoint(a, TransformPoint(b, p));
    }
  }

  /** Scaling by the product of a uniform scale k and t is scaling by t
      and then by k. */
  lemma UniformScaleOfProduct(s: V.Vec3, t: V.Vec3, v: V.Vec3, k: real)
    requires s.x == s.y == s.z == k
    ensures V.Mul(V.Mul(s, t), v) == V.Scale(V.Mul(t, v), k)
  {
  }

  /** Multiplying by a scale that is k on every axis is scaling by k. */
  lemma UniformScale(s: V.Vec3, v: V.Vec3, k: real)
    requires s.x == s.y == s.z == k
    ensures V.Mul(s, v) == V.Scale(v, k)
  {
  }

  /** The scale reciprocal of `inverse`: components within VEC3_EPSILON of
      zero map to 0 instead of dividing. */
  function RecipScale(s: real): (r: real)
    ensures Q.Abs(s) < Vec3Epsilon ==> r == 0.0
    ensures Q.Abs(s) >= Vec3Epsilon ==> r * s == 1.0
  {
    if Q.Abs(s) < Vec3Epsilon then 0.0 else 1.0 / s
  }

  /** `inverse(t)`: inverted rotation, guarded reciprocal scale, and the
      negated position brought through both. When no guard fires the result
      undoes t from the left; a scale component within VEC3_EPSILON of zero
      inverts to 0. */
  function Inverse(t: Transform): (r: Transform)
    ensures Invertible(t) ==> Combine(r, t) == Default
    ensures Q.Abs(t.scale.x) < Vec3Epsilon ==> r.scale.x == 0.0
    ensures Q.Abs(t.scale.y) < Vec3Epsilon ==> r.scale.y == 0.0
    ensures Q.Abs(t.scale.z) < Vec3Epsilon ==> r.scale.z == 0.0
    ensures r.rotation == Q.Inverse(t.rotation)
  {
    var rotation := Q.Inverse(t.rotation);
    var scale := V.Vec3(RecipScale(t.scale.x), RecipScale(t.scale.y), RecipScale(t.scale.z));
    var invTrans := V.Scale(t.position, -1.0);
    var r := Transform(Q.Rotate(rotation, V.Mul(scale, invTrans)), rotation, scale);
    InverseCancels(t, r);
    r
  }

  /** A transform is invertible in the model's sense when no scale component
      hits the epsilon guard and the rotation is not near zero. */
  predicate Invertible(t: Transform)
  {
    && Q.Abs(t.scale.x) >= Vec3Epsilon
    && Q.Abs(t.scale.y) >= Vec3Epsilon
    && Q.Abs(t.scale.z) >= Vec3Epsilon
    && Q.LenSq(t.rotation) >= Q.QuatEpsilon
  }

  /** The transform `inverse` builds, combined with t, gives the default
      transform when no guard fires. */
  lemma InverseCancels(t: Transform, r: Transform)
    requires r.rotation == Q.Inverse(t.rotation)
    requires r.scale == V.Vec3(RecipScale(t.scale.x), RecipScale(t.scale.y), RecipScale(t.scale.z))
    requires r.position == Q.Rotate(r.rotation, V.Mul(r.scale, V.Scale(t.position, -1.0)))
    ensures Invertible(t) ==> Combine(r, t) == Default
  {
    if Invertible(t) {
      RecipScaleCancels(t.scale);
      var u := V.Mul(r.scale, t.position);
      assert V.Mul(r.scale, V.Scale(t.position, -1.0)) == V.Scale(u, -1.0);
      Q.RotateNegate(r.rotation, u);
    }
  }

  /** Per-component reciprocals undo a scale with no component near zero. */
  lemma RecipScaleCancels(s: V.Vec3)
    requires Q.Abs(s.x) >= Vec3Epsilon && Q.Abs(s.y) >= Vec3Epsilon && Q.Abs(s.z) >= Vec3Epsilon
    ensures V.Mul(V.Vec3(RecipScale(s.x), RecipScale(s.y), RecipScale(s.z)), s) == V.One
  {
  }

  /** The default transform is its own inverse: it is invertible, so its
      inverse combined with it is the default, and it is a unit of combine. */
  lemma InverseDefault()
    ensures Inverse(Default) == Default
  {
    assert Q.LenSq(Q.Identity) == 1.0;
    assert Invertible(Default);
    DefaultOnlyLeftInverse(Inverse(Default));
  }

  lemma DefaultOnlyLeftInverse(r: Transform)
    requires Combine(r, Default) == Default
    ensures r == Default
  {
  }

  /** `mix(a, b, t)`: positions and scales are interpolated linearly; b's
      rotation is first negated when it lies in the opposite hemisphere of
      a's, and the rotations are then blended with `nlerp`. */
  function Mix(a: Transform, b: Transform, t: real, rsqrt: real -> real): (r: Transform)
    ensures r.position == V.Lerp(a.position, b.position, t)
    ensures r.scale == V.Lerp(a.scale, b.scale, t)
    ensures Q.Dot(a.rotation, b.rotation) < 0.0 ==> r.rotation == Q.Nlerp(a.rotation, Q.Neg(b.rotation), t, rsqrt)
    ensures Q.Dot(a.rotation, b.rotation) >= 0.0 ==> r.rotation == Q.Nlerp(a.rotation, b.rotation, t, rsqrt)
    ensures t == 0.0 ==> r == Transform(a.position, Q.Normalized(a.rotation, rsqrt), a.scale)
  {
    var bRot := if Q.Dot(a.rotation, b.rotation) < 0.0 then Q.Neg(b.rotation) else b.rotation;
    Transform(V.Lerp(a.position, b.position, t),
              Q.Nlerp(a.rotation, bRot, t, rsqrt),
              V.Lerp(a.scale, b.scale, t))
  }

  /** Because of the neighbourhood correction, blending towards b or towards
      b with its rotation negated (the same orientation) gives the same
      result, as long as the two rotations are not orthogonal. */
  lemma MixIgnoresRotationSign(a: Transform, b: Transform, t: real, rsqrt: real -> real)
    requires Q.Dot(a.rotation, b.rotation) != 0.0
    ensures Mix(a, b.(rotation := Q.Neg(b.rotation)), t, rsqrt) == Mix(a, b, t, rsqrt)
  {
    Q.DotLaws(a.rotation, b.rotation);
    Q.NegInvolution(b.rotation);
  }

  /** `transformVector`: scale then rotate, ignoring the position. */
  function TransformVector(a: Transform, b: V.Vec3): (r: V.Vec3)
    ensures a.rotation == Q.Identity && a.scale == V.One ==> r == b
  {
    Q.RotateByIdentity(b);
    Q.Rotate(a.rotation, V.Mul(a.scale, b))
  }

  /** `transformPoint`: a vector transform followed by the translation. */
  function TransformPoint(a: Transform, b: V.Vec3): (r: V.Vec3)
    ensures r == V.Add(TransformVector(a, b), a.position)
    ensures a == Default ==> r == b
  {
    V.Add(a.position, Q.Rotate(a.rotation, V.Mul(a.scale, b)))
  }

  /** `==` on transforms: tolerance equality per field. Quaternion equality
      is the component tolerance of `Quaternions.Equal`; vector equality
      lives in a header this model does not include and is supplied as
      `vecNear`. */
  predicate Equal(a: Transform, b: Transform, vecNear: (V.Vec3, V.Vec3) -> bool)
  {
    vecNear(a.position, b.position) && Q.Equal(a.rotation, b.rotation) && vecNear(a.scale, b.scale)
  }

  predicate NotEqual(a: Transform, b: Transform, vecNear: (V.Vec3, V.Vec3) -> bool)
  {
    !Equal(a, b, vecNear)
  }

  /** Transform equality holds exactly when all three fields agree within
      tolerance, and `!=` is its negation. */
  lemma EqualityPerField(a: Transform, b: Transform, vecNear: (V.Vec3, V.Vec3) -> bool)
    ensures Equal(a, b, vecNear) <==>
              (vecNear(a.position, b.position) && Q.Equal(a.rotation, b.rotation) && vecNear(a.scale, b.scale))
    ensures NotEqual(a, b, vecNear) <==> !Equal(a, b, vecNear)
    ensures (forall u: V.Vec3 :: vecNear(u, u)) ==> Equal(a, a, vecNear)
  {
    if forall u: V.Vec3 :: vecNear(u, u) {
      assert vecNear(a.position, a.position) && vecNear(a.scale, a.scale);
      Q.EqualityLaws(a.rotation, a.rotation);
    }
  }

  datatype Vec4 = Vec4(x: real, y: real, z: real, w: real)

  /** A 4x4 matrix stored by columns, as uploaded to the renderer: the three
      basis columns and the translation column. */
  datatype Mat4 = Mat4(right: Vec4, up: Vec4, forward: Vec4, position: Vec4)

  const IdentityMat4: Mat4 :=
    Mat4(Vec4(1.0, 0.0, 0.0, 0.0), Vec4(0.0, 1.0, 0.0, 0.0),
         Vec4(0.0, 0.0, 1.0, 0.0), Vec4(0.0, 0.0, 0.0, 1.0))

  /** `transformToMat4`: each basis column is the rotated unit axis scaled by
      that axis' scale factor, and the last column is the position. */
  function ToMat4(t: Transform): (m: Mat4)
    ensures m.position == Vec4(t.position.x, t.position.y, t.position.z, 1.0)
    ensures m.right.w == 0.0 && m.up.w == 0.0 && m.forward.w == 0.0
  {
    FromAxes(Q.Rotate(t.rotation, V.Vec3(1.0, 0.0, 0.0)),
             Q.Rotate(t.rotation, V.Vec3(0.0, 1.0, 0.0)),
             Q.Rotate(t.rotation, V.Vec3(0.0, 0.0, 1.0)),
             t.scale, t.position)
  }

  /** The matrix whose basis columns are the axis images ex, ey, ez scaled
      per axis by sc, and whose translation column is p. */
  function FromAxes(ex: V.Vec3, ey: V.Vec3, ez: V.Vec3, sc: V.Vec3, p: V.Vec3): Mat4
  {
    var x := V.Scale(ex, sc.x);
    var y := V.Scale(ey, sc.y);
    var z := V.Scale(ez, sc.z);
    Mat4(Vec4(x.x, x.y, x.z, 0.0), Vec4(y.x, y.y, y.z, 0.0),
         Vec4(z.x, z.y, z.z, 0.0), Vec4(p.x, p.y, p.z, 1.0))
  }

  /** A matrix applied to the point (v, 1), dropping the homogeneous
      coordinate. */
  function MatPoint(m: Mat4, v: V.Vec3): V.Vec3
  {
    V.Vec3(m.right.x * v.x + m.up.x * v.y + m.forward.x * v.z + m.position.x,
           m.right.y * v.x + m.up.y * v.y + m.forward.y * v.z + m.position.y,
           m.right.z * v.x + m.up.z * v.y + m.forward.z * v.z + m.position.z)
  }

  /** The vector with coordinates w in the basis ex, ey, ez. */
  function InBasis(ex: V.Vec3, ey: V.Vec3, ez: V.Vec3, w: V.Vec3): V.Vec3
  {
    V.Vec3(ex.x * w.x + ey.x * w.y + ez.x * w.z,
           ex.y * w.x + ey.y * w.y + ez.y * w.z,
           ex.z * w.x + ey.z * w.y + ez.z * w.z)
  }

  /** The default transform converts to the identity matrix. */
  lemma DefaultToIdentityMatrix()
    ensures ToMat4(Default) == IdentityMat4
  {
    Q.RotateByIdentity(V.Vec3(1.0, 0.0, 0.0));
    Q.RotateByIdentity(V.Vec3(0.0, 1.0, 0.0));
    Q.RotateByIdentity(V.Vec3(0.0, 0.0, 1.0));
  }

  /** The matrix applied to a point is `transformPoint`: the matrix and the
      transform describe the same affine map. */
  lemma MatrixAgreesWithTransformPoint(t: Transform, v: V.Vec3)
    ensures MatPoint(ToMat4(t), v) == TransformPoint(t, v)
  {
    var q := t.rotation;
    PointThroughAxes(t, v);
    AffineSum(Q.Rotate(q, V.Vec3(1.0, 0.0, 0.0)), Q.Rotate(q, V.Vec3(0.0, 1.0, 0.0)),
              Q.Rotate(q, V.Vec3(0.0, 0.0, 1.0)), t.scale, t.position, v);
  }

  /** `transformPoint` through the rotated unit axes. */
  lemma PointThroughAxes(t: Transform, v: V.Vec3)
    ensures TransformPoint(t, v)
         == V.Add(t.position, InBasis(Q.Rotate(t.rotation, V.Vec3(1.0, 0.0, 0.0)),
                                      Q.Rotate(t.rotation, V.Vec3(0.0, 1.0, 0.0)),
                                      Q.Rotate(t.rotation, V.Vec3(0.0, 0.0, 1.0)),
                                      V.Mul(t.scale, v)))
  {
    Q.RotateIsLinear(t.rotation, V.Mul(t.scale, v));
  }

  /** Applying the matrix built from scaled axes is scaling the point, taking
      it through the axes, and translating. */
  lemma AffineSum(ex: V.Vec3, ey: V.Vec3, ez: V.Vec3, sc: V.Vec3, p: V.Vec3, v: V.Vec3)
    ensures MatPoint(FromAxes(ex, ey, ez, sc, p), v) == V.Add(p, InBasis(ex, ey, ez, V.Mul(sc, v)))
  {
    Regroup(ex.x, ey.x, ez.x, sc.x, sc.y, sc.z, v.x, v.y, v.z);
    Regroup(ex.y, ey.y, ez.y, sc.x, sc.y, sc.z, v.x, v.y, v.z);
    Regroup(ex.z, ey.z, ez.z, sc.x, sc.y, sc.z, v.x, v.y, v.z);
  }

  /** Scaling a column before or after the product gives the same sum. */
  lemma Regroup(a: real, b: real, c: real, sx: real, sy: real, sz: real, x: real, y: real, z: real)
    ensures (a * sx) * x + (b * sy) * y + (c * sz) * z == a * (sx * x) + b * (sy * y) + c * (sz * z)
  {
  }
}
