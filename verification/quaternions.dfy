/** Quaternion algebra of the animation runtime, restricted to its polynomial
    part. A quaternion is stored as (x, y, z, w) with w the scalar part; the
    vector part (x, y, z) is what Quat.cpp calls `q.vector`.

    Square roots are not interpreted: wherever Quat.cpp divides by the
    square root of the squared length, the model takes that reciprocal
    square root as a caller-supplied function `rsqrt`, and only the guard
    branches are stated exactly. */
module Quaternions {
  import V = Vectors

  datatype Quat = Quat(x: real, y: real, z: real, w: real)

  /** `quat()`: the identity rotation (0, 0, 0, 1). */
  const Identity: Quat := Quat(0.0, 0.0, 0.0, 1.0)

  /** QUAT_EPSILON, the tolerance of quaternion equality and the
      near-zero-length guard of `normalized` and `inverse`. */
  const QuatEpsilon: real := 0.000001

  function Abs(r: real): real {
    if r < 0.0 then -r else r
  }

  /** The vector part `q.vector`. */
  function VectorPart(q: Quat): V.Vec3 {
    V.Vec3(q.x, q.y, q.z)
  }

  function Add(a: Quat, b: Quat): Quat {
    Quat(a.x + b.x, a.y + b.y, a.z + b.z, a.w + b.w)
  }

  /** Addition is commutative and associative with the zero quaternion as
      unit, and the dot product distributes over it. */
  lemma AddLaws(a: Quat, b: Quat, c: Quat)
    ensures Add(a, b) == Add(b, a)
    ensures Add(Add(a, b), c) == Add(a, Add(b, c))
    ensures Add(a, Quat(0.0, 0.0, 0.0, 0.0)) == a
    ensures Dot(Add(a, b), c) == Dot(a, c) + Dot(b, c)
  {
  }

  function Sub(a: Quat, b: Quat): (r: Quat)
    ensures Add(r, b) == a
  {
    Quat(a.x - b.x, a.y - b.y, a.z - b.z, a.w - b.w)
  }

  /** `q * f`: every component multiplied by the same factor. */
  function Scale(q: Quat, f: real): (r: Quat)
    ensures f == 1.0 ==> r == q
    ensures f == 0.0 ==> r == Quat(0.0, 0.0, 0.0, 0.0)
  {
    Quat(q.x * f, q.y * f, q.z * f, q.w * f)
  }

  /** Unary minus: the same rotation with every component negated. */
  function Neg(q: Quat): (r: Quat)
    ensures Add(q, r) == Quat(0.0, 0.0, 0.0, 0.0)
    ensures r.x == -q.x && r.y == -q.y && r.z == -q.z && r.w == -q.w
  {
    Quat(-q.x, -q.y, -q.z, -q.w)
  }

  function Dot(a: Quat, b: Quat): real {
    a.x * b.x + a.y * b.y + a.z * b.z + a.w * b.w
  }

  function LenSq(q: Quat): (r: real)
    ensures r >= 0.0
  {
    q.x * q.x + q.y * q.y + q.z * q.z + q.w * q.w
  }

  /** `conjugate`: its product with q, on either side, is the real
      quaternion lenSq(q), and it has q's length. */
  function Conjugate(q: Quat): (r: Quat)
    ensures Mul(q, r) == Quat(0.0, 0.0, 0.0, LenSq(q))
    ensures Mul(r, q) == Quat(0.0, 0.0, 0.0, LenSq(q))
    ensures LenSq(r) == LenSq(q)
  {
    ConjugateProducts(q);
    Quat(-q.x, -q.y, -q.z, q.w)
  }

  lemma ConjugateProducts(q: Quat)
    ensures var c := Quat(-q.x, -q.y, -q.z, q.w);
            Mul(q, c) == Quat(0.0, 0.0, 0.0, LenSq(q)) && Mul(c, q) == Quat(0.0, 0.0, 0.0, LenSq(q))
  {
  }

  /** Conjugating twice gives q back. */
  lemma ConjugateInvolution(q: Quat)
    ensures Conjugate(Conjugate(q)) == q
  {
  }

  /** `q1 * q2`. The component formula is the Hamilton product q2 (x) q1, so
      the rotation q1 is applied before q2. */
  function Mul(q1: Quat, q2: Quat): (r: Quat)
    ensures q1 == Identity ==> r == q2
    ensures q2 == Identity ==> r == q1
  {
    Quat(
      q2.x * q1.w + q2.y * q1.z - q2.z * q1.y + q2.w * q1.x,
      -q2.x * q1.z + q2.y * q1.w + q2.z * q1.x + q2.w * q1.y,
      q2.x * q1.y - q2.y * q1.x + q2.z * q1.w + q2.w * q1.z,
      -q2.x * q1.x - q2.y * q1.y - q2.z * q1.z + q2.w * q1.w)
  }

  /** `inverse(q)`: the identity when q is (nearly) zero, otherwise the
      conjugate divided by the squared length, which is a two-sided inverse. */
  function Inverse(q: Quat): (r: Quat)
    ensures LenSq(q) < QuatEpsilon ==> r == Identity
    ensures LenSq(q) >= QuatEpsilon ==> Mul(q, r) == Identity && Mul(r, q) == Identity
  {
    if LenSq(q) < QuatEpsilon then Identity
    else
      MulConjugate(q, 1.0 / LenSq(q));
      Scale(Conjugate(q), 1.0 / LenSq(q))
  }

  /** The identity rotation is its own inverse. */
  lemma InverseIdentity()
    ensures Inverse(Identity) == Identity
  {
    assert LenSq(Identity) == 1.0;
    IdentityOnlyRightInverse(Inverse(Identity));
  }

  lemma IdentityOnlyRightInverse(r: Quat)
    requires Mul(Identity, r) == Identity
    ensures r == Identity
  {
  }

  /** A unit quaternion's inverse is its conjugate. */
  lemma InverseOfUnit(q: Quat)
    requires LenSq(q) == 1.0
    ensures Inverse(q) == Conjugate(q)
  {
    assert 1.0 / LenSq(q) == 1.0;
  }

  /** q times its conjugate scaled by 1/|q|^2 is the identity, on both sides. */
  lemma MulConjugate(q: Quat, recip: real)
    requires recip * LenSq(q) == 1.0
    ensures Mul(q, Scale(Conjugate(q), recip)) == Identity
    ensures Mul(Scale(Conjugate(q), recip), q) == Identity
  {
    var c := Scale(Conjugate(q), recip);
    assert c == Quat(-q.x * recip, -q.y * recip, -q.z * recip, q.w * recip);
    var m1 := Mul(q, c);
    assert m1.w == (q.x * q.x + q.y * q.y + q.z * q.z + q.w * q.w) * recip;
    assert m1.x == 0.0 && m1.y == 0.0 && m1.z == 0.0;
    var m2 := Mul(c, q);
    assert m2.w == (q.x * q.x + q.y * q.y + q.z * q.z + q.w * q.w) * recip;
    assert m2.x == (q.x * q.w - q.y * q.z + q.z * q.y - q.w * q.x) * recip;
    assert m2.y == (-q.x * q.z - q.y * q.w + q.z * q.x + q.w * q.y) * recip;
    assert m2.z == (q.x * q.y - q.y * q.x - q.z * q.w + q.w * q.z) * recip;
  }

  /** `q * v`: rotate a vector by a quaternion. The result is the sum of
      three terms: the vector part scaled by twice its dot product with v;
      v scaled by w squared less the vector part's squared length; and the
      cross product of the vector part with v, scaled by 2w. Here the sum is
      spelled out per component. It is the sandwich product q v q*, a pure
      rotation when q has unit length. */
  function Rotate(q: Quat, v: V.Vec3): V.Vec3
  {
    var d := q.x * v.x + q.y * v.y + q.z * v.z;
    var s := q.w * q.w - (q.x * q.x + q.y * q.y + q.z * q.z);
    V.Vec3(q.x * 2.0 * d + v.x * s + (q.y * v.z - q.z * v.y) * 2.0 * q.w,
           q.y * 2.0 * d + v.y * s + (q.z * v.x - q.x * v.z) * 2.0 * q.w,
           q.z * 2.0 * d + v.z * s + (q.x * v.y - q.y * v.x) * 2.0 * q.w)
  }

  /** Rotating a vector by the identity quaternion leaves it unchanged. */
  lemma RotateByIdentity(v: V.Vec3)
    ensures Rotate(Identity, v) == v
  {
  }

  /** Every quaternion maps the zero vector to itself. */
  lemma RotateZero(q: Quat)
    ensures Rotate(q, V.Zero) == V.Zero
  {
  }

  /** Rotation is linear in the vector, so it commutes with negation. */
  lemma RotateNegate(q: Quat, u: V.Vec3)
    ensures Rotate(q, V.Scale(u, -1.0)) == V.Scale(Rotate(q, u), -1.0)
  {
    var n := V.Scale(u, -1.0);
    assert n == V.Vec3(-u.x, -u.y, -u.z);
    var d := q.x * u.x + q.y * u.y + q.z * u.z;
    var s := q.w * q.w - (q.x * q.x + q.y * q.y + q.z * q.z);
    var px := q.y * u.z - q.z * u.y;
    var py := q.z * u.x - q.x * u.z;
    var pz := q.x * u.y - q.y * u.x;
    RotateUnfolded(q, u, d, s, px, py, pz);
    NegateProducts(q.x, q.y, q.z, u.x, u.y, u.z);
    RotateUnfolded(q, n, -d, s, -px, -py, -pz);
    NegateTerms(q.x * 2.0, d, u.x, s, px, q.w);
    NegateTerms(q.y * 2.0, d, u.y, s, py, q.w);
    NegateTerms(q.z * 2.0, d, u.z, s, pz, q.w);
  }

  /** `Rotate` in terms of its dot and cross products. */
  lemma RotateUnfolded(q: Quat, v: V.Vec3, d: real, s: real, px: real, py: real, pz: real)
    requires d == q.x * v.x + q.y * v.y + q.z * v.z
    requires s == q.w * q.w - (q.x * q.x + q.y * q.y + q.z * q.z)
    requires px == q.y * v.z - q.z * v.y && py == q.z * v.x - q.x * v.z && pz == q.x * v.y - q.y * v.x
    ensures Rotate(q, v) == V.Vec3(q.x * 2.0 * d + v.x * s + px * 2.0 * q.w,
                                   q.y * 2.0 * d + v.y * s + py * 2.0 * q.w,
                                   q.z * 2.0 * d + v.z * s + pz * 2.0 * q.w)
  {
  }

  /** Negating the vector negates its dot and cross products with q. */
  lemma NegateProducts(a: real, b: real, c: real, x: real, y: real, z: real)
    ensures a * -x + b * -y + c * -z == -(a * x + b * y + c * z)
    ensures b * -z - c * -y == -(b * z - c * y)
    ensures c * -x - a * -z == -(c * x - a * z)
    ensures a * -y - b * -x == -(a * y - b * x)
  {
  }

  /** One component of `Rotate` is odd in the terms that depend on v. */
  lemma NegateTerms(a: real, d: real, vx: real, s: real, p: real, w: real)
    ensures a * (-d) + (-vx) * s + (-p) * 2.0 * w == -(a * d + vx * s + p * 2.0 * w)
  {
  }

  /** Rotation is a 3x3 matrix applied to v, whose columns are the images of
      the unit axes; this is the matrix `transformToMat4` builds. */
  lemma RotateIsLinear(q: Quat, v: V.Vec3)
    ensures var ex := Rotate(q, V.Vec3(1.0, 0.0, 0.0));
            var ey := Rotate(q, V.Vec3(0.0, 1.0, 0.0));
            var ez := Rotate(q, V.Vec3(0.0, 0.0, 1.0));
            Rotate(q, v) == V.Vec3(ex.x * v.x + ey.x * v.y + ez.x * v.z,
                                   ex.y * v.x + ey.y * v.y + ez.y * v.z,
                                   ex.z * v.x + ey.z * v.y + ez.z * v.z)
  {
    var s := q.w * q.w - (q.x * q.x + q.y * q.y + q.z * q.z);
    RotateExpanded(q, V.Vec3(1.0, 0.0, 0.0), s);
    RotateExpanded(q, V.Vec3(0.0, 1.0, 0.0), s);
    RotateExpanded(q, V.Vec3(0.0, 0.0, 1.0), s);
    RotateExpanded(q, v, s);
  }

  /** `Rotate` written as a polynomial in the components of v. */
  lemma RotateExpanded(q: Quat, v: V.Vec3, s: real)
    requires s == q.w * q.w - (q.x * q.x + q.y * q.y + q.z * q.z)
    ensures Rotate(q, v).x
         == (q.x * 2.0 * q.x + s) * v.x + (q.x * 2.0 * q.y - q.z * 2.0 * q.w) * v.y + (q.x * 2.0 * q.z + q.y * 2.0 * q.w) * v.z
    ensures Rotate(q, v).y
         == (q.y * 2.0 * q.x + q.z * 2.0 * q.w) * v.x + (q.y * 2.0 * q.y + s) * v.y + (q.y * 2.0 * q.z - q.x * 2.0 * q.w) * v.z
    ensures Rotate(q, v).z
         == (q.z * 2.0 * q.x - q.y * 2.0 * q.w) * v.x + (q.z * 2.0 * q.y + q.x * 2.0 * q.w) * v.y + (q.z * 2.0 * q.z + s) * v.z
  {
    var d := q.x * v.x + q.y * v.y + q.z * v.z;
    RotateUnfolded(q, v, d, s, q.y * v.z - q.z * v.y, q.z * v.x - q.x * v.z, q.x * v.y - q.y * v.x);
    ComponentExpanded(q.x, q.y, q.z, q.w, v.x, v.y, v.z, s, d);
    ComponentExpanded(q.y, q.z, q.x, q.w, v.y, v.z, v.x, s, d);
    ComponentExpanded(q.z, q.x, q.y, q.w, v.z, v.x, v.y, s, d);
  }

  /** One component of `Rotate` as a polynomial: the vector part (x, y, z)
      is listed starting from the component computed. */
  lemma ComponentExpanded(x: real, y: real, z: real, w: real, a: real, b: real, c: real, s: real, d: real)
    requires d == x * a + y * b + z * c
    ensures x * 2.0 * d + a * s + (y * c - z * b) * 2.0 * w
         == (x * 2.0 * x + s) * a + (x * 2.0 * y - z * 2.0 * w) * b + (x * 2.0 * z + y * 2.0 * w) * c
  {
    assert x * 2.0 * d == (x * 2.0 * x) * a + (x * 2.0 * y) * b + (x * 2.0 * z) * c;
  }

  /** The Hamilton product p (x) q in its textbook component form. `Mul`
      is this product with its operands swapped (see MulIsHamilton). */
  function Hamilton(p: Quat, q: Quat): Quat {
    Quat(p.w * q.x + p.x * q.w + p.y * q.z - p.z * q.y,
         p.w * q.y + p.y * q.w + p.z * q.x - p.x * q.z,
         p.w * q.z + p.z * q.w + p.x * q.y - p.y * q.x,
         p.w * q.w - p.x * q.x - p.y * q.y - p.z * q.z)
  }

  /** A vector as the pure quaternion (v, 0). */
  function Pure(v: V.Vec3): Quat {
    Quat(v.x, v.y, v.z, 0.0)
  }

  /** `q1 * q2` is the Hamilton product q2 (x) q1. */
  lemma MulIsHamilton(q1: Quat, q2: Quat)
    ensures Mul(q1, q2) == Hamilton(q2, q1)
  {
  }

  /** pq holds the components of the Hamilton product p (x) q. Stating
      the product through its components keeps the associativity proof
      from unfolding nested products. */
  predicate ProductOf(p: Quat, q: Quat, pq: Quat) {
    && pq.x == p.w * q.x + p.x * q.w + p.y * q.z - p.z * q.y
    && pq.y == p.w * q.y + p.y * q.w + p.z * q.x - p.x * q.z
    && pq.z == p.w * q.z + p.z * q.w + p.x * q.y - p.y * q.x
    && pq.w == p.w * q.w - p.x * q.x - p.y * q.y - p.z * q.z
  }

  /** The Hamilton product is associative. */
  lemma HamiltonAssociative(a: Quat, b: Quat, c: Quat)
    ensures Hamilton(Hamilton(a, b), c) == Hamilton(a, Hamilton(b, c))
  {
    var ab := Hamilton(a, b);
    var bc := Hamilton(b, c);
    AssociativeX(a, b, c, ab, bc);
    AssociativeY(a, b, c, ab, bc);
    AssociativeZ(a, b, c, ab, bc);
    AssociativeW(a, b, c, ab, bc);
  }

  lemma AssociativeX(a: Quat, b: Quat, c: Quat, ab: Quat, bc: Quat)
    requires ProductOf(a, b, ab) && ProductOf(b, c, bc)
    ensures Hamilton(ab, c).x == Hamilton(a, bc).x
  {
    AssociativeVector(a.x, a.y, a.z, a.w, b.x, b.y, b.z, b.w, c.x, c.y, c.z, c.w,
                      ab.x, ab.y, ab.z, ab.w, bc.x, bc.y, bc.z, bc.w);
  }

  lemma AssociativeY(a: Quat, b: Quat, c: Quat, ab: Quat, bc: Quat)
    requires ProductOf(a, b, ab) && ProductOf(b, c, bc)
    ensures Hamilton(ab, c).y == Hamilton(a, bc).y
  {
    AssociativeVector(a.y, a.z, a.x, a.w, b.y, b.z, b.x, b.w, c.y, c.z, c.x, c.w,
                      ab.y, ab.z, ab.x, ab.w, bc.y, bc.z, bc.x, bc.w);
  }

  lemma AssociativeZ(a: Quat, b: Quat, c: Quat, ab: Quat, bc: Quat)
    requires ProductOf(a, b, ab) && ProductOf(b, c, bc)
    ensures Hamilton(ab, c).z == Hamilton(a, bc).z
  {
    AssociativeVector(a.z, a.x, a.y, a.w, b.z, b.x, b.y, b.w, c.z, c.x, c.y, c.w,
                      ab.z, ab.x, ab.y, ab.w, bc.z, bc.x, bc.y, bc.w);
  }

  lemma AssociativeW(a: Quat, b: Quat, c: Quat, ab: Quat, bc: Quat)
    requires ProductOf(a, b, ab) && ProductOf(b, c, bc)
    ensures Hamilton(ab, c).w == Hamilton(a, bc).w
  {
    AssociativeScalar(a.x, a.y, a.z, a.w, b.x, b.y, b.z, b.w, c.x, c.y, c.z, c.w,
                      ab.x, ab.y, ab.z, ab.w, bc.x, bc.y, bc.z, bc.w);
  }

  /** Associativity of the first vector component, over the components of
      p, q and r and of the partial products pq = p (x) q and qr = q (x) r.
      The product is unchanged by a cyclic shift of the axes, so the same
      lemma gives the other two vector components. */
  lemma AssociativeVector(px: real, py: real, pz: real, pw: real,
                          qx: real, qy: real, qz: real, qw: real,
                          rx: real, ry: real, rz: real, rw: real,
                          pqx: real, pqy: real, pqz: real, pqw: real,
                          qrx: real, qry: real, qrz: real, qrw: real)
    requires pqx == pw * qx + px * qw + py * qz - pz * qy
    requires pqy == pw * qy + py * qw + pz * qx - px * qz
    requires pqz == pw * qz + pz * qw + px * qy - py * qx
    requires pqw == pw * qw - px * qx - py * qy - pz * qz
    requires qrx == qw * rx + qx * rw + qy * rz - qz * ry
    requires qry == qw * ry + qy * rw + qz * rx - qx * rz
    requires qrz == qw * rz + qz * rw + qx * ry - qy * rx
    requires qrw == qw * rw - qx * rx - qy * ry - qz * rz
    ensures pqw * rx + pqx * rw + pqy * rz - pqz * ry == pw * qrx + px * qrw + py * qrz - pz * qry
  {
  }

  /** Associativity of the scalar component. */
  lemma AssociativeScalar(px: real, py: real, pz: real, pw: real,
                          qx: real, qy: real, qz: real, qw: real,
                          rx: real, ry: real, rz: real, rw: real,
                          pqx: real, pqy: real, pqz: real, pqw: real,
                          qrx: real, qry: real, qrz: real, qrw: real)
    requires pqx == pw * qx + px * qw + py * qz - pz * qy
    requires pqy == pw * qy + py * qw + pz * qx - px * qz
    requires pqz == pw * qz + pz * qw + px * qy - py * qx
    requires pqw == pw * qw - px * qx - py * qy - pz * qz
    requires qrx == qw * rx + qx * rw + qy * rz - qz * ry
    requires qry == qw * ry + qy * rw + qz * rx - qx * rz
    requires qrz == qw * rz + qz * rw + qx * ry - qy * rx
    requires qrw == qw * rw - qx * rx - qy * ry - qz * rz
    ensures pqw * rw - pqx * rx - pqy * ry - pqz * rz == pw * qrw - px * qrx - py * qry - pz * qrz
  {
  }

  /** `*` on quaternions is associative. */
  lemma MulAssociative(a: Quat, b: Quat, c: Quat)
    ensures Mul(Mul(a, b), c) == Mul(a, Mul(b, c))
  {
    MulIsHamilton(a, b);
    MulIsHamilton(Mul(a, b), c);
    MulIsHamilton(b, c);
    MulIsHamilton(a, Mul(b, c));
    HamiltonAssociative(c, b, a);
  }

  /** The conjugate of a product is the product of the conjugates in the
      opposite order. */
  lemma ConjugateOfProduct(a: Quat, b: Quat)
    ensures Conjugate(Hamilton(a, b)) == Hamilton(Conjugate(b), Conjugate(a))
  {
    var ab := Hamilton(a, b);
    var ca := Conjugate(a);
    var cb := Conjugate(b);
    assert ca == Quat(-a.x, -a.y, -a.z, a.w);
    assert cb == Quat(-b.x, -b.y, -b.z, b.w);
    assert Conjugate(ab) == Quat(-ab.x, -ab.y, -ab.z, ab.w);
  }

  /** `Rotate` is the sandwich product q (v, 0) q*. */
  lemma Sandwich(q: Quat, v: V.Vec3)
    ensures Pure(Rotate(q, v)) == Hamilton(Hamilton(q, Pure(v)), Conjugate(q))
  {
    assert Conjugate(q) == Quat(-q.x, -q.y, -q.z, q.w);
    SandwichX(q, v);
    SandwichY(q, v);
    SandwichZ(q, v);
    SandwichW(q, v);
  }

  lemma SandwichX(q: Quat, v: V.Vec3)
    ensures Rotate(q, v).x == Hamilton(Hamilton(q, Pure(v)), Quat(-q.x, -q.y, -q.z, q.w)).x
  {
    var t := Hamilton(q, Pure(v));
    SandwichVector(q.x, q.y, q.z, q.w, v.x, v.y, v.z, t.x, t.y, t.z, t.w,
                   q.x * v.x + q.y * v.y + q.z * v.z, q.w * q.w - (q.x * q.x + q.y * q.y + q.z * q.z));
  }

  lemma SandwichY(q: Quat, v: V.Vec3)
    ensures Rotate(q, v).y == Hamilton(Hamilton(q, Pure(v)), Quat(-q.x, -q.y, -q.z, q.w)).y
  {
    var t := Hamilton(q, Pure(v));
    SandwichVector(q.y, q.z, q.x, q.w, v.y, v.z, v.x, t.y, t.z, t.x, t.w,
                   q.x * v.x + q.y * v.y + q.z * v.z, q.w * q.w - (q.x * q.x + q.y * q.y + q.z * q.z));
  }

  lemma SandwichZ(q: Quat, v: V.Vec3)
    ensures Rotate(q, v).z == Hamilton(Hamilton(q, Pure(v)), Quat(-q.x, -q.y, -q.z, q.w)).z
  {
    var t := Hamilton(q, Pure(v));
    SandwichVector(q.z, q.x, q.y, q.w, v.z, v.x, v.y, t.z, t.x, t.y, t.w,
                   q.x * v.x + q.y * v.y + q.z * v.z, q.w * q.w - (q.x * q.x + q.y * q.y + q.z * q.z));
  }

  lemma SandwichW(q: Quat, v: V.Vec3)
    ensures Hamilton(Hamilton(q, Pure(v)), Quat(-q.x, -q.y, -q.z, q.w)).w == 0.0
  {
    var t := Hamilton(q, Pure(v));
    SandwichScalar(q.x, q.y, q.z, q.w, v.x, v.y, v.z, t.x, t.y, t.z, t.w);
  }

  /** The first vector component of the sandwich product, over
      t = q (x) (v, 0) and the dot product d and scalar s that `Rotate`
      uses; a cyclic shift of the axes gives the other two. */
  lemma SandwichVector(qx: real, qy: real, qz: real, qw: real, vx: real, vy: real, vz: real,
                       tx: real, ty: real, tz: real, tw: real, d: real, s: real)
    requires tx == qw * vx + qy * vz - qz * vy
    requires ty == qw * vy + qz * vx - qx * vz
    requires tz == qw * vz + qx * vy - qy * vx
    requires tw == -(qx * vx) - qy * vy - qz * vz
    requires d == qx * vx + qy * vy + qz * vz
    requires s == qw * qw - (qx * qx + qy * qy + qz * qz)
    ensures qx * 2.0 * d + vx * s + (qy * vz - qz * vy) * 2.0 * qw == tw * -qx + tx * qw + ty * -qz - tz * -qy
  {
  }

  /** The scalar component of the sandwich product of a pure quaternion
      is zero. */
  lemma SandwichScalar(qx: real, qy: real, qz: real, qw: real, vx: real, vy: real, vz: real,
                       tx: real, ty: real, tz: real, tw: real)
    requires tx == qw * vx + qy * vz - qz * vy
    requires ty == qw * vy + qz * vx - qx * vz
    requires tz == qw * vz + qx * vy - qy * vx
    requires tw == -(qx * vx) - qy * vy - qz * vz
    ensures 0.0 == tw * qw - tx * -qx - ty * -qy - tz * -qz
  {
  }

  /** Rotating by `q1 * q2` rotates by q1 first and then by q2: the order in
      which `transform combine` and the animation layers compose rotations. */
  lemma RotateMul(q1: Quat, q2: Quat, v: V.Vec3)
    ensures Rotate(Mul(q1, q2), v) == Rotate(q2, Rotate(q1, v))
  {
    var m := Hamilton(q2, q1);
    var p := Pure(v);
    var c1 := Conjugate(q1);
    var c2 := Conjugate(q2);
    var inner := Hamilton(q1, p);
    MulIsHamilton(q1, q2);
    Sandwich(m, v);
    Sandwich(q1, v);
    Sandwich(q2, Rotate(q1, v));
    ConjugateOfProduct(q2, q1);
    calc {
      Pure(Rotate(m, v));
      Hamilton(Hamilton(m, p), Hamilton(c1, c2));
      { HamiltonAssociative(q2, q1, p); }
      Hamilton(Hamilton(q2, inner), Hamilton(c1, c2));
      { HamiltonAssociative(q2, inner, Hamilton(c1, c2)); }
      Hamilton(q2, Hamilton(inner, Hamilton(c1, c2)));
      { HamiltonAssociative(inner, c1, c2); }
      Hamilton(q2, Hamilton(Hamilton(inner, c1), c2));
      Hamilton(q2, Hamilton(Pure(Rotate(q1, v)), c2));
      { HamiltonAssociative(q2, Pure(Rotate(q1, v)), c2); }
      Hamilton(Hamilton(q2, Pure(Rotate(q1, v))), c2);
      Pure(Rotate(q2, Rotate(q1, v)));
    }
  }

  /** Rotation distributes over vector addition. */
  lemma RotateAdditive(q: Quat, u: V.Vec3, w: V.Vec3)
    ensures Rotate(q, V.Add(u, w)) == V.Add(Rotate(q, u), Rotate(q, w))
  {
    var s := q.w * q.w - (q.x * q.x + q.y * q.y + q.z * q.z);
    RotateExpanded(q, u, s);
    RotateExpanded(q, w, s);
    RotateExpanded(q, V.Add(u, w), s);
  }

  /** Rotation commutes with a uniform scale. */
  lemma RotateScaled(q: Quat, u: V.Vec3, k: real)
    ensures Rotate(q, V.Scale(u, k)) == V.Scale(Rotate(q, u), k)
  {
    var s := q.w * q.w - (q.x * q.x + q.y * q.y + q.z * q.z);
    RotateExpanded(q, u, s);
    RotateExpanded(q, V.Scale(u, k), s);
  }

  /** `mix(from, to, t)`: the unnormalised linear blend from*(1-t) + to*t. */
  function Mix(from: Quat, to: Quat, t: real): (r: Quat)
    ensures t == 0.0 ==> r == from
    ensures t == 1.0 ==> r == to
    ensures from == to ==> r == from
  {
    Add(Scale(from, 1.0 - t), Scale(to, t))
  }

  /** Blending from `from` to `to` at t is blending back at 1 - t. */
  lemma MixSymmetric(from: Quat, to: Quat, t: real)
    ensures Mix(from, to, t) == Mix(to, from, 1.0 - t)
  {
  }

  /** `normalized(q)`: the identity for a (nearly) zero quaternion, otherwise q
      scaled by the reciprocal of its length, supplied here as `rsqrt`. */
  function Normalized(q: Quat, rsqrt: real -> real): (r: Quat)
    ensures LenSq(q) < QuatEpsilon ==> r == Identity
  {
    if LenSq(q) < QuatEpsilon then Identity else Scale(q, rsqrt(LenSq(q)))
  }

  /** `normalize(q)` works in place; the model returns the new value of q.
      Unlike `normalized`, a (nearly) zero quaternion is left as it is. */
  function Normalize(q: Quat, rsqrt: real -> real): (r: Quat)
    ensures LenSq(q) < QuatEpsilon ==> r == q
    ensures LenSq(q) >= QuatEpsilon ==> r == Normalized(q, rsqrt)
  {
    if LenSq(q) < QuatEpsilon then q else Scale(q, rsqrt(LenSq(q)))
  }

  /** `nlerp`: the normalised linear blend. */
  function Nlerp(from: Quat, to: Quat, t: real, rsqrt: real -> real): (r: Quat)
    ensures t == 0.0 ==> r == Normalized(from, rsqrt)
    ensures t == 1.0 ==> r == Normalized(to, rsqrt)
  {
    Normalized(Add(Scale(from, 1.0 - t), Scale(to, t)), rsqrt)
  }

  /** `==`: every component within QUAT_EPSILON. */
  predicate Equal(left: Quat, right: Quat)
  {
    && Abs(left.x - right.x) <= QuatEpsilon
    && Abs(left.y - right.y) <= QuatEpsilon
    && Abs(left.z - right.z) <= QuatEpsilon
    && Abs(left.w - right.w) <= QuatEpsilon
  }

  /** `!=` is the negation of the tolerance equality. */
  predicate NotEqual(left: Quat, right: Quat)
  {
    !Equal(left, right)
  }

  /** Tolerance equality is reflexive and symmetric, and `!=` is its exact
      negation. */
  lemma EqualityLaws(a: Quat, b: Quat)
    ensures Equal(a, a) && !NotEqual(a, a)
    ensures Equal(a, b) <==> Equal(b, a)
    ensures NotEqual(a, b) <==> !Equal(a, b)
    ensures Equal(a, b) <==> (Abs(a.x - b.x) <= QuatEpsilon && Abs(a.y - b.y) <= QuatEpsilon
                              && Abs(a.z - b.z) <= QuatEpsilon && Abs(a.w - b.w) <= QuatEpsilon)
  {
  }

  /** `dot` is symmetric, a quaternion dotted with itself is its squared
      length, and negating one side negates the dot product. */
  lemma DotLaws(a: Quat, b: Quat)
    ensures Dot(a, b) == Dot(b, a)
    ensures Dot(a, a) == LenSq(a)
    ensures Dot(a, Neg(b)) == -Dot(a, b)
  {
  }

  /** Unary minus is an involution. */
  lemma NegInvolution(q: Quat)
    ensures Neg(Neg(q)) == q
  {
  }

  /** `sameOrientation` exactly as written: its w tests compare `left.w`
      with itself, so the first test ignores w and the second only asks
      whether left.w is near zero. */
  predicate SameOrientationAsWritten(left: Quat, right: Quat)
  {
    || (&& Abs(left.x - right.x) <= QuatEpsilon
        && Abs(left.y - right.y) <= QuatEpsilon
        && Abs(left.z - right.z) <= QuatEpsilon
        && Abs(left.w - left.w) <= QuatEpsilon)
    || (&& Abs(left.x + right.x) <= QuatEpsilon
        && Abs(left.y + right.y) <= QuatEpsilon
        && Abs(left.z + right.z) <= QuatEpsilon
        && Abs(left.w + left.w) <= QuatEpsilon)
  }

  /** The evident intent: q and -q denote the same orientation, so two
      quaternions agree when one is within tolerance of the other or of its
      negation. */
  predicate SameOrientation(left: Quat, right: Quat)
  {
    Equal(left, right) || Equal(left, Neg(right))
  }

  /** The written test accepts a rotation of about 73.7 degrees about x and
      its opposite, which differ only in the sign of w. */
  lemma SameOrientationAsWrittenIgnoresW()
    ensures SameOrientationAsWritten(Quat(0.6, 0.0, 0.0, 0.8), Quat(0.6, 0.0, 0.0, -0.8))
    ensures !SameOrientation(Quat(0.6, 0.0, 0.0, 0.8), Quat(0.6, 0.0, 0.0, -0.8))
  {
  }

  /** In the test as written, right.w never decides the result: replacing
      it by any value gives the same answer. */
  lemma SameOrientationAsWrittenIgnoresRightW(left: Quat, right: Quat, w: real)
    ensures SameOrientationAsWritten(left, right) == SameOrientationAsWritten(left, right.(w := w))
  {
  }

  /** The corrected test is reflexive, symmetric, and insensitive to the sign
      of either argument. */
  lemma SameOrientationLaws(a: Quat, b: Quat)
    ensures SameOrientation(a, a)
    ensures SameOrientation(a, Neg(a))
    ensures SameOrientation(a, b) <==> SameOrientation(b, a)
    ensures SameOrientation(a, b) <==> SameOrientation(a, Neg(b))
  {
  }
}
