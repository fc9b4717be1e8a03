/** A pose: one local transform per joint and, index-aligned with it, the
    index of each joint's parent, negative for a root. Global transforms are
    obtained by combining a joint's local transform with those of its
    ancestors, nearest first. */
module Poses {
  import opened Options
  import V = Vectors
  import T = Transforms

  datatype Pose = Pose(joints: seq<T.Transform>, parents: seq<int>)

  /** The joint and parent arrays have the same length, as `Resize` leaves
      them. */
  predicate WellFormed(p: Pose)
  {
    |p.joints| == |p.parents|
  }

  /** `Size`: the number of joints. */
  function Size(p: Pose): (r: nat)
    ensures WellFormed(p) ==> r == |p.parents|
  {
    |p.joints|
  }

  /** `Resize(n)`: both arrays get length n. Entries below the old length
      are kept; new joints are default transforms and new parents are 0, the
      value-initialised int. */
  function Resize(p: Pose, n: nat): (r: Pose)
    ensures |r.joints| == n && |r.parents| == n
    ensures forall i :: 0 <= i < n && i < |p.joints| ==> r.joints[i] == p.joints[i]
    ensures forall i :: 0 <= i < n && i < |p.parents| ==> r.parents[i] == p.parents[i]
    ensures forall i :: |p.joints| <= i < n ==> r.joints[i] == T.Default
    ensures forall i :: |p.parents| <= i < n ==> r.parents[i] == 0
  {
    Pose(ResizeSeq(p.joints, n, T.Default), ResizeSeq(p.parents, n, 0))
  }

  /** `std::vector::resize` with a fill value. */
  function ResizeSeq<X>(s: seq<X>, n: nat, fill: X): (r: seq<X>)
    ensures |r| == n
    ensures forall i :: 0 <= i < n ==> r[i] == (if i < |s| then s[i] else fill)
  {
    if n <= |s| then s[..n] else s + seq(n - |s|, _ => fill)
  }

  /** Resizing twice to the same length is the same as resizing once. */
  lemma ResizeIdempotent(p: Pose, n: nat)
    ensures Resize(Resize(p, n), n) == Resize(p, n)
  {
  }

  /** A pose built by resizing an empty pose: n default joints, each with
      parent 0. */
  lemma ResizeFromEmpty(n: nat)
    ensures var r := Resize(Pose([], []), n);
            WellFormed(r) && forall i :: 0 <= i < n ==> r.joints[i] == T.Default && r.parents[i] == 0
  {
  }

  function GetLocal(p: Pose, i: nat): T.Transform
    requires i < |p.joints|
  {
    p.joints[i]
  }

  /** `SetLocalTransform`: replaces joint i and nothing else. */
  function SetLocal(p: Pose, i: nat, t: T.Transform): (r: Pose)
    requires i < |p.joints|
    ensures |r.joints| == |p.joints| && r.parents == p.parents
    ensures GetLocal(r, i) == t
    ensures forall j :: 0 <= j < |p.joints| && j != i ==> r.joints[j] == p.joints[j]
  {
    p.(joints := p.joints[i := t])
  }

  function GetParent(p: Pose, i: nat): int
    requires i < |p.parents|
  {
    p.parents[i]
  }

  /** `SetParent`: replaces parent i and nothing else. */
  function SetParent(p: Pose, i: nat, parent: int): (r: Pose)
    requires i < |p.parents|
    ensures |r.parents| == |p.parents| && r.joints == p.joints
    ensures GetParent(r, i) == parent
    ensures forall j :: 0 <= j < |p.parents| && j != i ==> r.parents[j] == p.parents[j]
  {
    p.(parents := p.parents[i := parent])
  }

  /** Setting a joint and reading another joint, or setting then reading the
      same joint, behave like an array. */
  lemma SetGetLocal(p: Pose, i: nat, j: nat, t: T.Transform)
    requires i < |p.joints| && j < |p.joints|
    ensures GetLocal(SetLocal(p, i, t), j) == if i == j then t else GetLocal(p, j)
  {
  }

  /** Writing back the joint just read leaves the pose as it was. */
  lemma GetSetLocal(p: Pose, i: nat)
    requires i < |p.joints|
    ensures SetLocal(p, i, GetLocal(p, i)) == p
  {
  }

  /** The parent array behaves like an array under `SetParent` and
      `GetParent`, in both orders. */
  lemma SetGetParent(p: Pose, i: nat, j: nat, parent: int)
    requires i < |p.parents| && j < |p.parents|
    ensures GetParent(SetParent(p, i, parent), j) == if i == j then parent else GetParent(p, j)
    ensures SetParent(p, i, GetParent(p, i)) == p
  {
  }

  /** After `Resize(n)` the pose is well formed and has size n. */
  lemma SizeAfterResize(p: Pose, n: nat)
    ensures WellFormed(Resize(p, n)) && Size(Resize(p, n)) == n
  {
  }

  // ---------------------------------------------------------------------
  // Global transforms
  // ---------------------------------------------------------------------

  /** Following parents from j reaches a negative index within `fuel` steps
      and every index visited on the way is a joint. */
  predicate ChainEnds(p: Pose, j: int, fuel: nat)
    decreases fuel
  {
    j < 0 || (fuel > 0 && j < |p.joints| && j < |p.parents| && ChainEnds(p, p.parents[j], fuel - 1))
  }

  /** The parent chain of joint i ends at a root without repeating a joint,
      which is what `GetGlobalTransform` needs to terminate. */
  predicate Rooted(p: Pose, i: nat)
  {
    i < |p.joints| && ChainEnds(p, i, |p.joints|)
  }

  /** The arrays are aligned and every joint's chain ends at a root. */
  predicate Acyclic(p: Pose)
  {
    WellFormed(p) && forall i :: 0 <= i < |p.joints| ==> Rooted(p, i)
  }

  /** The loop of `GetGlobalTransform`: while the current parent is a joint,
      combine its local transform in front of the accumulated result and move
      to its parent. */
  function Walk(p: Pose, parent: int, acc: T.Transform, fuel: nat): T.Transform
    requires ChainEnds(p, parent, fuel)
    decreases fuel
  {
    if parent < 0 then acc
    else Walk(p, p.parents[parent], T.Combine(p.joints[parent], acc), fuel - 1)
  }

  /** A longer fuel bound does not change where the walk ends. */
  lemma {:induction false} ChainEndsMonotone(p: Pose, j: int, fuel: nat, more: nat)
    requires ChainEnds(p, j, fuel) && fuel <= more
    ensures ChainEnds(p, j, more)
    decreases fuel
  {
    if j >= 0 {
      ChainEndsMonotone(p, p.parents[j], fuel - 1, more - 1);
    }
  }

  lemma {:induction false} WalkFuelIrrelevant(p: Pose, parent: int, acc: T.Transform, fuel: nat, more: nat)
    requires ChainEnds(p, parent, fuel) && fuel <= more
    ensures ChainEnds(p, parent, more)
    ensures Walk(p, parent, acc, fuel) == Walk(p, parent, acc, more)
    decreases fuel
  {
    ChainEndsMonotone(p, parent, fuel, more);
    if parent >= 0 {
      WalkFuelIrrelevant(p, p.parents[parent], T.Combine(p.joints[parent], acc), fuel - 1, more - 1);
    }
  }

  /** One step along a chain that has not ended yet. */
  lemma ChainStep(p: Pose, j: int, fuel: nat)
    requires ChainEnds(p, j, fuel) && j >= 0
    ensures fuel > 0 && j < |p.joints| && j < |p.parents| && ChainEnds(p, p.parents[j], fuel - 1)
  {
  }

  /** `GetGlobalTransform(i)`: the local transform of i, with each ancestor's
      local transform combined in front of it, nearest ancestor first. */
  function GetGlobal(p: Pose, i: nat): (r: T.Transform)
    requires Rooted(p, i)
    ensures p.parents[i] < 0 ==> r == p.joints[i]
  {
    Walk(p, p.parents[i], p.joints[i], |p.joints| - 1)
  }

  /** One step of the walk: the global transform of a child is the walk from
      its parent's parent with the parent's local transform combined in
      front. */
  lemma GlobalUnfolds(p: Pose, i: nat)
    requires Rooted(p, i) && p.parents[i] >= 0
    ensures p.parents[i] < |p.joints| && p.parents[i] < |p.parents|
    ensures var q := p.parents[i];
            ChainEnds(p, p.parents[q], |p.joints|)
            && GetGlobal(p, i) == Walk(p, p.parents[q], T.Combine(p.joints[q], p.joints[i]), |p.joints|)
  {
    var n := |p.joints|;
    ChainStep(p, i, n);
    var q := p.parents[i];
    ChainStep(p, q, n - 1);
    WalkFuelIrrelevant(p, p.parents[q], T.Combine(p.joints[q], p.joints[i]), n - 2, n);
  }

  /** A three-joint chain root <- mid <- leaf: the leaf's global transform is
      combine(root, combine(mid, leaf)). */
  lemma GlobalOfThreeChain(p: Pose, root: nat, mid: nat, leaf: nat)
    requires Rooted(p, leaf) && WellFormed(p)
    requires root < |p.joints| && mid < |p.joints|
    requires p.parents[leaf] == mid && p.parents[mid] == root && p.parents[root] < 0
    ensures GetGlobal(p, leaf) == T.Combine(p.joints[root], T.Combine(p.joints[mid], p.joints[leaf]))
  {
    var n := |p.joints|;
    GlobalUnfolds(p, leaf);
    ChainStep(p, root, n - 2);
  }

  /** The set of joints on the chain from `j` up to the root. */
  function Chain(p: Pose, j: int, fuel: nat): (s: set<nat>)
    requires ChainEnds(p, j, fuel)
    ensures j >= 0 ==> j in s
    ensures forall k :: k in s ==> k < |p.joints|
    decreases fuel
  {
    if j < 0 then {} else {j as nat} + Chain(p, p.parents[j], fuel - 1)
  }

  /** Changing the local transform of a joint that is not on the walk's
      chain does not change the walk's result: a global transform depends
      only on the joint and its ancestors. */
  lemma {:induction false} WalkFrame(p: Pose, parent: int, acc: T.Transform, fuel: nat, k: nat, t: T.Transform)
    requires ChainEnds(p, parent, fuel) && k < |p.joints| && k !in Chain(p, parent, fuel)
    ensures ChainEnds(SetLocal(p, k, t), parent, fuel)
    ensures Walk(SetLocal(p, k, t), parent, acc, fuel) == Walk(p, parent, acc, fuel)
    decreases fuel
  {
    if parent >= 0 {
      WalkFrame(p, p.parents[parent], T.Combine(p.joints[parent], acc), fuel - 1, k, t);
    }
  }

  lemma GlobalFrame(p: Pose, i: nat, k: nat, t: T.Transform)
    requires Rooted(p, i) && k < |p.joints| && k != i
    requires k !in Chain(p, p.parents[i], |p.joints| - 1)
    ensures Rooted(SetLocal(p, k, t), i)
    ensures GetGlobal(SetLocal(p, k, t), i) == GetGlobal(p, i)
  {
    WalkFrame(p, p.parents[i], p.joints[i], |p.joints| - 1, k, t);
  }

  /** `GetMatrixPalette`: one matrix per joint, each the matrix of that
      joint's global transform. */
  method GetMatrixPalette(p: Pose) returns (out: seq<T.Mat4>)
    requires Acyclic(p)
    ensures |out| == Size(p)
    ensures forall i :: 0 <= i < |out| ==> out[i] == T.ToMat4(GetGlobal(p, i))
  {
    out := [];
    var i := 0;
    while i < |p.joints|
      invariant 0 <= i <= |p.joints|
      invariant |out| == i
      invariant forall j :: 0 <= j < i ==> out[j] == T.ToMat4(GetGlobal(p, j))
    {
      out := out + [T.ToMat4(GetGlobal(p, i))];
      i := i + 1;
    }
  }

  // ---------------------------------------------------------------------
  // Equality
  // ---------------------------------------------------------------------

  /** What `operator==` decides: equal sizes, equal parents, and joints equal
      under transform tolerance, index by index. */
  predicate SamePose(a: Pose, b: Pose, vecNear: (V.Vec3, V.Vec3) -> bool)
  {
    && |a.joints| == |b.joints|
    && |a.parents| == |b.parents|
    && |a.parents| >= |a.joints|
    && forall i :: 0 <= i < |a.joints| ==> a.parents[i] == b.parents[i] && T.Equal(a.joints[i], b.joints[i], vecNear)
  }

  /** `operator==`: sizes first, then a scan that stops at the first parent or
      joint that differs. The scan reads parents by joint index, so a pose
      whose sizes match the other's needs as many parents as joints. */
  method Equal(a: Pose, b: Pose, vecNear: (V.Vec3, V.Vec3) -> bool) returns (r: bool)
    requires |a.joints| == |b.joints| && |a.parents| == |b.parents| ==> |a.parents| >= |a.joints|
    ensures r <==> SamePose(a, b, vecNear)
  {
    if |a.joints| != |b.joints| {
      return false;
    }
    if |a.parents| != |b.parents| {
      return false;
    }
    var i := 0;
    while i < |a.joints|
      invariant 0 <= i <= |a.joints|
      invariant forall j :: 0 <= j < i ==> a.parents[j] == b.parents[j] && T.Equal(a.joints[j], b.joints[j], vecNear)
    {
      if a.parents[i] != b.parents[i] {
        return false;
      }
      if T.NotEqual(a.joints[i], b.joints[i], vecNear) {
        return false;
      }
      i := i + 1;
    }
    return true;
  }

  /** `operator!=`: the negation of `operator==`. */
  method NotEqual(a: Pose, b: Pose, vecNear: (V.Vec3, V.Vec3) -> bool) returns (r: bool)
    requires |a.joints| == |b.joints| && |a.parents| == |b.parents| ==> |a.parents| >= |a.joints|
    ensures r <==> !SamePose(a, b, vecNear)
  {
    var eq := Equal(a, b, vecNear);
    r := !eq;
  }

  /** With a reflexive vector tolerance, every well-formed pose equals
      itself. */
  lemma SamePoseReflexive(a: Pose, vecNear: (V.Vec3, V.Vec3) -> bool)
    requires WellFormed(a)
    requires forall u: V.Vec3 :: vecNear(u, u)
    ensures SamePose(a, a, vecNear)
  {
    forall i | 0 <= i < |a.joints|
      ensures T.Equal(a.joints[i], a.joints[i], vecNear)
    {
      T.EqualityPerField(a.joints[i], a.joints[i], vecNear);
    }
  }

  // ---------------------------------------------------------------------
  // Node lookup and bind-pose localisation
  // ---------------------------------------------------------------------

  /** `GetNodeIndex`: the position of `target` among the nodes, compared by
      identity; -1 for a null target or one that is not among them. Nodes
      are identified here by an id standing for their address. */
  function NodeIndex(target: Option<nat>, nodes: seq<nat>): (r: int)
    ensures -1 <= r < |nodes|
    ensures r == -1 <==> target.None? || target.value !in nodes
    ensures r >= 0 ==> nodes[r] == target.value && forall j :: 0 <= j < r ==> nodes[j] != target.value
  {
    match target
    case None => -1
    case Some(t) => FirstIndex(t, nodes, 0)
  }

  function FirstIndex(t: nat, nodes: seq<nat>, from: nat): (r: int)
    requires from <= |nodes|
    requires forall j :: 0 <= j < from ==> nodes[j] != t
    ensures -1 <= r < |nodes|
    ensures r == -1 <==> t !in nodes
    ensures r >= 0 ==> nodes[r] == t && forall j :: 0 <= j < r ==> nodes[j] != t
    decreases |nodes| - from
  {
    if from == |nodes| then -1
    else if nodes[from] == t then from
    else FirstIndex(t, nodes, from + 1)
  }

  /** The last loop of `LoadBindPose`: world-space bind transforms are
      brought into their parents' spaces. A root keeps its world transform;
      any other joint becomes combine(inverse(world of parent), world of
      joint). Parents are unchanged. */
  method LocaliseBindPose(rest: Pose, world: seq<T.Transform>) returns (bind: Pose)
    requires |world| == |rest.joints| && WellFormed(rest)
    requires forall i :: 0 <= i < |rest.parents| ==> rest.parents[i] < |world|
    ensures bind.parents == rest.parents && |bind.joints| == |world|
    ensures forall i :: 0 <= i < |world| && rest.parents[i] < 0 ==> bind.joints[i] == world[i]
    ensures forall i :: 0 <= i < |world| && rest.parents[i] >= 0 ==>
              bind.joints[i] == T.Combine(T.Inverse(world[rest.parents[i]]), world[i])
  {
    bind := rest;
    var i := 0;
    while i < |world|
      invariant 0 <= i <= |world|
      invariant bind.parents == rest.parents && |bind.joints| == |world|
      invariant forall j :: 0 <= j < i && rest.parents[j] < 0 ==> bind.joints[j] == world[j]
      invariant forall j :: 0 <= j < i && rest.parents[j] >= 0 ==>
                  bind.joints[j] == T.Combine(T.Inverse(world[rest.parents[j]]), world[j])
    {
      var current := world[i];
      var parent := GetParent(bind, i);
      if parent >= 0 {
        current := T.Combine(T.Inverse(world[parent]), current);
      }
      bind := SetLocal(bind, i, current);
      i := i + 1;
    }
  }
}
