/**
 * A skeletal segment (Bone) and the host-side node (Transform) each bone
 * owns in the render hierarchy.  Only the host nodes' parent links and rest
 * placement are modelled; the render scene itself is not.
 */
module Bones {
  import opened Geometry
  import opened Poses

  /** Which of the joint's X, Y, Z rotation axes are enabled (`dofs[0..2]`). */
  datatype Dofs = Dofs(rx: bool, ry: bool, rz: bool)

  const NoDofs := Dofs(false, false, false)

  /** The number of enabled axes. */
  function DofCount(d: Dofs): (n: nat)
    ensures n <= 3
    ensures n == 0 <==> d == NoDofs
  {
    (if d.rx then 1 else 0) + (if d.ry then 1 else 0) + (if d.rz then 1 else 0)
  }

  /** The fields of a Bone the file readers set, as a value. */
  datatype BoneValue = BoneValue(
    name: string,
    direction: Vec3,
    length: real,
    dofs: Dofs,
    rotationToBoneSpace: Rotation,
    boneToRotationSpace: Rotation)

  /** What a freshly constructed Bone holds. */
  const NewBone := BoneValue("", Origin, 0.0, NoDofs, Identity, Identity)

  /** A host scene node (THREE.Group): its placement and the node it hangs under. */
  class Transform {
    var position: Vec3
    var rotation: Vec3   // Euler angles
    var parent: Transform?

    constructor()
      ensures position == Origin && rotation == Origin && parent == null
    {
      position := Origin;
      rotation := Origin;
      parent := null;
    }
  }

  class Bone {
    var name: string
    var direction: Vec3
    var length: real
    var dofs: Dofs
    /** Child bones; `null` stands for the `undefined` an unchecked name lookup yields. */
    var children: seq<Bone?>
    var boneToRotationSpace: Rotation
    var rotationToBoneSpace: Rotation
    const transform: Transform

    function Value(): BoneValue
      reads this
    {
      BoneValue(name, direction, length, dofs, rotationToBoneSpace, boneToRotationSpace)
    }

    constructor()
      ensures Value() == NewBone && children == []
      ensures fresh(transform)
      ensures transform.position == Origin && transform.rotation == Origin && transform.parent == null
    {
      name := "";
      direction := Origin;
      length := 0.0;
      dofs := NoDofs;
      children := [];
      boneToRotationSpace := Identity;
      rotationToBoneSpace := Identity;
      transform := new Transform();
    }

    /**
     * `createHierarchy`: resets this bone's node, hangs it under `parentTransform`
     * and does the same for every child under this bone's node, so that the
     * host nodes mirror the bone tree `tree` unfolds.
     */
    method CreateHierarchy(parentTransform: Transform, ghost tree: Tree)
      requires tree.bone == this && TreeShaped(tree) && TreeDisjoint(tree)
      requires parentTransform !in TreeNodes(tree)
      modifies TreeNodes(tree)
      ensures TreeMirrored(tree, parentTransform)
      decreases tree, 0
    {
      ForestAllocated(tree.kids);
      assert ForestShaped(tree.kids);
      ResetTransform();
      transform.parent := parentTransform;

      var i := 0;
      while i < |children|
        invariant 0 <= i <= |children|
        invariant transform.parent == parentTransform
        invariant transform.position == Scale(direction, length) && transform.rotation == Origin
        invariant ForestShaped(tree.kids) && ForestDisjoint(tree.kids)
        invariant forall j :: 0 <= j < i ==> TreeMirrored(tree.kids[j], transform)
      {
        var child := children[i];
        assert child == tree.kids[i].bone;
        HangSubtree(transform, child, tree.kids, i);
        i := i + 1;
      }
    }

    /** `resetTransform`: the node sits at `direction` scaled by `length`, unrotated. */
    method ResetTransform()
      modifies transform
      ensures transform.position == Scale(direction, length)
      ensures transform.rotation == Origin
      ensures transform.parent == old(transform.parent)
    {
      transform.position := Scale(direction, length);
      transform.rotation := Origin;
    }

    /** `update`: left unimplemented by the source; it changes nothing. */
    method Update(pose: Pose)
      ensures unchanged(this, transform, pose)
    {
    }
  }

  /**
   * One pass of a `createHierarchy` loop: the `k`-th subtree is hung under
   * `parent`, and the subtrees before it stay as they were.
   */
  method HangSubtree(parent: Transform, child: Bone, ghost kids: seq<Tree>, k: nat)
    requires k < |kids| && child == kids[k].bone
    requires ForestShaped(kids) && ForestDisjoint(kids)
    requires parent !in ForestNodes(kids)
    requires forall j :: 0 <= j < k ==> TreeMirrored(kids[j], parent)
    modifies TreeNodes(kids[k])
    ensures forall j :: 0 <= j < k + 1 ==> TreeMirrored(kids[j], parent)
    decreases kids[k], 1
  {
    ForestAllocated(kids);
    assert forall j :: 0 <= j < k ==> TreeNodes(kids[j]) !! TreeNodes(kids[k]);
    assert forall j :: 0 <= j < k ==> TreeNodes(kids[j]) <= ForestNodes(kids) && TreeBones(kids[j]) <= ForestBones(kids);
    child.CreateHierarchy(parent, kids[k]);
  }

  /**
   * A finite unfolding of a bone tree: each node's bone and the subtrees of
   * its children, in order.  Used only to state and prove facts about a
   * bone and everything below it.
   */
  datatype Tree = Tree(bone: Bone, kids: seq<Tree>)

  /** The host nodes of the bones in a tree. */
  ghost function TreeNodes(t: Tree): set<Transform>
    decreases t
  {
    {t.bone.transform} + ForestNodes(t.kids)
  }

  ghost function ForestNodes(ts: seq<Tree>): (r: set<Transform>)
    ensures forall i :: 0 <= i < |ts| ==> TreeNodes(ts[i]) <= r
    decreases ts
  {
    if ts == [] then {} else TreeNodes(ts[0]) + ForestNodes(ts[1..])
  }

  /** The bones of a tree. */
  ghost function TreeBones(t: Tree): set<Bone>
    decreases t
  {
    {t.bone} + ForestBones(t.kids)
  }

  ghost function ForestBones(ts: seq<Tree>): (r: set<Bone>)
    ensures forall i :: 0 <= i < |ts| ==> TreeBones(ts[i]) <= r
    decreases ts
  {
    if ts == [] then {} else TreeBones(ts[0]) + ForestBones(ts[1..])
  }

  /** The bones of a tree, and their host nodes, are objects that exist. */
  lemma BonesAllocated(t: Tree)
    ensures forall b :: b in TreeBones(t) ==> allocated(b)
    ensures forall n :: n in TreeNodes(t) ==> allocated(n)
    decreases t
  {
    ForestAllocated(t.kids);
  }

  lemma ForestAllocated(ts: seq<Tree>)
    ensures forall b :: b in ForestBones(ts) ==> allocated(b)
    ensures forall n :: n in ForestNodes(ts) ==> allocated(n)
    decreases ts
  {
    if ts != [] {
      BonesAllocated(ts[0]);
      ForestAllocated(ts[1..]);
    }
  }

  /** Every bone's `children` are exactly the bones of its subtrees, in order. */
  ghost predicate TreeShaped(t: Tree)
    reads TreeBones(t)
    decreases t
  {
    && |t.bone.children| == |t.kids|
    && (forall i :: 0 <= i < |t.kids| ==> t.bone.children[i] == t.kids[i].bone)
    && ForestShaped(t.kids)
  }

  ghost predicate ForestShaped(ts: seq<Tree>)
    reads ForestBones(ts)
    decreases ts
  {
    forall i :: 0 <= i < |ts| ==> TreeShaped(ts[i])
  }

  /** No host node occurs twice in the tree: it is a tree, not a graph with sharing. */
  ghost predicate TreeDisjoint(t: Tree)
    decreases t
  {
    t.bone.transform !in ForestNodes(t.kids) && ForestDisjoint(t.kids)
  }

  ghost predicate ForestDisjoint(ts: seq<Tree>)
    decreases ts
  {
    && (forall i :: 0 <= i < |ts| ==> TreeDisjoint(ts[i]))
    && (forall i, j :: 0 <= i < j < |ts| ==> TreeNodes(ts[i]) !! TreeNodes(ts[j]))
  }

  /**
   * The host nodes mirror the tree under `parent`: each bone's node hangs
   * under its parent bone's node (the tree's root under `parent`) and sits
   * at its rest placement.
   */
  ghost predicate TreeMirrored(t: Tree, parent: Transform)
    reads TreeBones(t), TreeNodes(t)
    decreases t
  {
    && t.bone.transform.parent == parent
    && t.bone.transform.position == Scale(t.bone.direction, t.bone.length)
    && t.bone.transform.rotation == Origin
    && ForestMirrored(t.kids, t.bone.transform)
  }

  ghost predicate ForestMirrored(ts: seq<Tree>, parent: Transform)
    reads ForestBones(ts), ForestNodes(ts)
    decreases ts
  {
    forall i :: 0 <= i < |ts| ==> TreeMirrored(ts[i], parent)
  }
}
