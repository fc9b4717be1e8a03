/** A skeleton: the rest pose, the bind pose and, per joint, the inverse of
    the bind pose's global matrix, which skinning uses to bring vertices
    into each joint's space. */
module Skeletons {
  import T = Transforms
  import P = Poses

  datatype Skeleton = Skeleton(rest: P.Pose, bind: P.Pose, invBind: seq<T.Mat4>)

  /** The inverse-bind matrices of a bind pose: entry i inverts the matrix
      of joint i's global bind transform. The 4x4 inverse is a parameter. */
  function InverseBindPose(bind: P.Pose, inv4: T.Mat4 -> T.Mat4): (r: seq<T.Mat4>)
    requires P.Acyclic(bind)
    ensures |r| == P.Size(bind)
    ensures forall i :: 0 <= i < |r| ==> r[i] == inv4(T.ToMat4(P.GetGlobal(bind, i)))
    ensures forall i :: 0 <= i < |r| && bind.parents[i] < 0 ==> r[i] == inv4(T.ToMat4(bind.joints[i]))
  {
    seq(|bind.joints|, i requires 0 <= i < |bind.joints| => inv4(T.ToMat4(P.GetGlobal(bind, i))))
  }

  /** `SetPoses`: both poses are stored as given, and the inverse-bind array
      is rebuilt from the bind pose alone, one joint at a time. */
  method SetPoses(rest: P.Pose, bind: P.Pose, inv4: T.Mat4 -> T.Mat4) returns (s: Skeleton)
    requires P.Acyclic(bind)
    ensures s.rest == rest && s.bind == bind
    ensures |s.invBind| == P.Size(bind)
    ensures forall i :: 0 <= i < |s.invBind| ==> s.invBind[i] == inv4(T.ToMat4(P.GetGlobal(bind, i)))
    ensures s.invBind == InverseBindPose(bind, inv4)
  {
    var inv: seq<T.Mat4> := [];
    var i := 0;
    while i < |bind.joints|
      invariant 0 <= i <= |bind.joints|
      invariant |inv| == i
      invariant forall j :: 0 <= j < i ==> inv[j] == inv4(T.ToMat4(P.GetGlobal(bind, j)))
    {
      var world := P.GetGlobal(bind, i);
      inv := inv + [inv4(T.ToMat4(world))];
      i := i + 1;
    }
    s := Skeleton(rest, bind, inv);
  }

  /** A pose whose joints are all roots is acyclic. */
  lemma RootsAreAcyclic(p: P.Pose)
    requires P.WellFormed(p)
    requires forall i :: 0 <= i < |p.joints| ==> p.parents[i] < 0
    ensures P.Acyclic(p)
  {
    forall i | 0 <= i < |p.joints|
      ensures P.Rooted(p, i)
    {
      assert P.ChainEnds(p, p.parents[i], |p.joints| - 1);
    }
  }

  /** A bind pose of unparented default joints has the inverse of the
      identity matrix for every joint. */
  lemma DefaultBindPose(bind: P.Pose, inv4: T.Mat4 -> T.Mat4)
    requires P.WellFormed(bind)
    requires forall i :: 0 <= i < |bind.joints| ==> bind.joints[i] == T.Default && bind.parents[i] < 0
    ensures P.Acyclic(bind)
    ensures forall i :: 0 <= i < P.Size(bind) ==> InverseBindPose(bind, inv4)[i] == inv4(T.IdentityMat4)
  {
    RootsAreAcyclic(bind);
    var r := InverseBindPose(bind, inv4);
    forall i | 0 <= i < |r|
      ensures r[i] == inv4(T.IdentityMat4)
    {
      DefaultEntry(r[i], bind.joints[i], inv4);
    }
  }

  lemma DefaultEntry(m: T.Mat4, t: T.Transform, inv4: T.Mat4 -> T.Mat4)
    requires t == T.Default && m == inv4(T.ToMat4(t))
    ensures m == inv4(T.IdentityMat4)
  {
    T.DefaultToIdentityMatrix();
  }
}
