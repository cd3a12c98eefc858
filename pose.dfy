/**
 * One animation frame (Pose): the recording's frame number, the root's
 * translation and rotation, and a sparse map from bone name to joint
 * rotation.  A name with no entry stands for the identity rotation.
 */
module Poses {
  import opened Geometry

  /** The observable contents of a Pose, as a value. */
  datatype PoseValue = PoseValue(
    frame: real,
    rootTranslation: Vec3,
    rootRotation: Rotation,
    joints: map<string, Rotation>)

  /** What a freshly constructed Pose holds. */
  const RestPose := PoseValue(0.0, Origin, Identity, map[])

  /** `getJointRotation`: the stored rotation, or the identity when the name has none. */
  function JointOf(v: PoseValue, boneName: string): (r: Rotation)
    ensures boneName in v.joints ==> r == v.joints[boneName]
    ensures boneName !in v.joints ==> r == Identity
  {
    if boneName in v.joints then v.joints[boneName] else Identity
  }

  /** Linear interpolation of two numbers (MathUtils.lerp). */
  function Interpolate(from: real, to: real, alpha: real): real
  {
    from + (to - from) * alpha
  }

  /** The frame number `lerp` computes: the interpolated number, rounded. */
  function LerpFrame(from: real, to: real, alpha: real): (f: real)
    ensures Integral(f)
  {
    Round(Interpolate(from, to, alpha)) as real
  }

  /**
   * `p.lerp(q, alpha)` as a value: the frame number and root translation
   * are interpolated linearly (the frame then rounded), the root rotation
   * and every joint of `p` by shortest arc toward `q`'s.  Only `p`'s joint
   * names are visited; one that `q` lacks blends toward the identity.
   */
  function LerpValue(p: PoseValue, q: PoseValue, alpha: real): (r: PoseValue)
    ensures r.joints.Keys == p.joints.Keys
  {
    PoseValue(
      LerpFrame(p.frame, q.frame, alpha),
      LerpVec(p.rootTranslation, q.rootTranslation, alpha),
      Blend(p.rootRotation, q.rootRotation, alpha),
      map k | k in p.joints :: Blend(p.joints[k], JointOf(q, k), alpha))
  }

  /** At alpha 0 a pose with a whole frame number is left exactly as it was. */
  lemma LerpAtZero(p: PoseValue, q: PoseValue)
    requires Integral(p.frame)
    ensures LerpValue(p, q, 0.0) == p
  {
    RoundIntegral(p.frame);
    var r := LerpValue(p, q, 0.0);
    assert r.joints == p.joints;
  }

  /**
   * At alpha 1 the pose takes `q`'s frame number (when whole), root
   * translation and root rotation, and `q`'s rotation for each of its own
   * joint names; names only `q` has are not added.
   */
  lemma LerpAtOne(p: PoseValue, q: PoseValue)
    requires Integral(q.frame)
    ensures var r := LerpValue(p, q, 1.0);
      && r.frame == q.frame
      && r.rootTranslation == q.rootTranslation
      && r.rootRotation == q.rootRotation
      && r.joints.Keys == p.joints.Keys
      && forall k :: k in r.joints ==> r.joints[k] == JointOf(q, k)
  {
    RoundIntegral(q.frame);
  }

  lemma RoundMonotone(x: real, y: real)
    requires x <= y
    ensures Round(x) <= Round(y)
  {
    assert Round(x) as real - 0.5 <= x <= y < Round(y) as real + 0.5;
  }

  lemma ProductNonNegative(x: real, y: real)
    requires x >= 0.0 && y >= 0.0
    ensures x * y >= 0.0
  {
  }

  /** Linear interpolation with alpha in [0, 1] stays between its endpoints. */
  lemma LerpRealBetween(from: real, to: real, alpha: real) returns (x: real)
    requires 0.0 <= alpha <= 1.0
    ensures x == Interpolate(from, to, alpha)
    ensures from <= to ==> from <= x && x <= to
    ensures to <= from ==> to <= x && x <= from
  {
    x := from + (to - from) * alpha;
    if from <= to {
      ProductNonNegative(to - from, alpha);
      ProductNonNegative(to - from, 1.0 - alpha);
      assert (to - from) * alpha + (to - from) * (1.0 - alpha) == to - from;
    } else {
      ProductNonNegative(from - to, alpha);
      ProductNonNegative(from - to, 1.0 - alpha);
      assert (to - from) * alpha == -((from - to) * alpha);
      assert (from - to) * alpha + (from - to) * (1.0 - alpha) == from - to;
    }
  }

  /** Rounding keeps an ordering between whole numbers and any real in between. */
  lemma RoundBetween(lo: real, x: real, hi: real)
    requires Integral(lo) && Integral(hi) && lo <= x <= hi
    ensures lo <= Round(x) as real <= hi
  {
    RoundIntegral(lo);
    RoundIntegral(hi);
    RoundMonotone(lo, x);
    RoundMonotone(x, hi);
  }

  /**
   * While alpha stays in [0, 1] the interpolated frame number lies between
   * the two whole frame numbers it is interpolated from.
   */
  lemma LerpFrameBetween(from: real, to: real, alpha: real)
    requires 0.0 <= alpha <= 1.0
    requires Integral(from) && Integral(to)
    ensures from <= to ==> from <= LerpFrame(from, to, alpha) <= to
    ensures to <= from ==> to <= LerpFrame(from, to, alpha) <= from
  {
    var x := LerpRealBetween(from, to, alpha);
    var f := LerpFrame(from, to, alpha);
    if from <= to {
      RoundBetween(from, x, to);
    } else {
      RoundBetween(to, x, from);
      assert to <= f;
    }
  }

  class Pose {
    var frame: real
    var rootTranslation: Vec3
    var rootRotation: Rotation
    var jointRotations: map<string, Rotation>

    function Value(): PoseValue
      reads this
    {
      PoseValue(frame, rootTranslation, rootRotation, jointRotations)
    }

    constructor()
      ensures Value() == RestPose
    {
      frame := 0.0;
      rootTranslation := Origin;
      rootRotation := Identity;
      jointRotations := map[];
    }

    /** `setRootPosition`: the root translation becomes `position`. */
    method SetRootPosition(position: Vec3)
      modifies this
      ensures Value() == old(Value()).(rootTranslation := position)
    {
      rootTranslation := position;
    }

    /** `getRootPosition`: the offset the root translation moves the origin by. */
    function GetRootPosition(): Vec3
      reads this
    {
      rootTranslation
    }

    /** `setRootAngles`: the root rotation becomes the Euler rotation `angles`. */
    method SetRootAngles(angles: Vec3)
      modifies this
      ensures Value() == old(Value()).(rootRotation := Euler(angles.x, angles.y, angles.z))
    {
      rootRotation := Euler(angles.x, angles.y, angles.z);
    }

    /**
     * `setJointAngles`: the rotation built from `angles` is stored under the
     * bone's name; every other entry and field is left as it was.
     */
    method SetJointAngles(boneName: string, angles: Vec3)
      modifies this
      ensures Value() == old(Value()).(joints := old(jointRotations)[boneName := Euler(angles.x, angles.y, angles.z)])
    {
      jointRotations := jointRotations[boneName := Euler(angles.x, angles.y, angles.z)];
    }

    /** `getJointRotation`: the stored rotation, or the identity for a name with none. */
    function GetJointRotation(boneName: string): (r: Rotation)
      reads this
      ensures boneName in jointRotations ==> r == jointRotations[boneName]
      ensures boneName !in jointRotations ==> r == Identity
    {
      JointOf(Value(), boneName)
    }

    /** `setJointRotation`: stores `rotation` under `boneName`, and nothing else changes. */
    method SetJointRotation(boneName: string, rotation: Rotation)
      modifies this
      ensures Value() == old(Value()).(joints := old(jointRotations)[boneName := rotation])
    {
      jointRotations := jointRotations[boneName := rotation];
    }

    /**
     * `lerp`: blends this pose toward `pose` in place.  The argument is
     * only read (it may even be this pose); the receiver's joint names are
     * visited one at a time.
     */
    method Lerp(pose: Pose, alpha: real)
      modifies this
      ensures Value() == LerpValue(old(Value()), old(pose.Value()), alpha)
      ensures pose != this ==> pose.Value() == old(pose.Value())
    {
      ghost var target := pose.Value();
      frame := LerpFrame(frame, pose.frame, alpha);
      var blendedRootPosition := LerpVec(GetRootPosition(), pose.GetRootPosition(), alpha);
      rootTranslation := blendedRootPosition;
      rootRotation := Blend(rootRotation, pose.rootRotation, alpha);
      BlendJoints(pose, alpha, target);
    }

    /** The loop of `lerp`: each of this pose's joints blended toward `target`'s. */
    method BlendJoints(pose: Pose, alpha: real, ghost target: PoseValue)
      requires pose != this ==> pose.Value() == target
      requires pose == this ==> jointRotations == target.joints
      modifies this
      ensures jointRotations == map k | k in old(jointRotations) :: Blend(old(jointRotations)[k], JointOf(target, k), alpha)
      ensures Value() == old(Value()).(joints := jointRotations)
    {
      ghost var start := jointRotations;
      var pending := jointRotations.Keys;
      while pending != {}
        invariant jointRotations.Keys == start.Keys && pending <= start.Keys
        invariant forall k :: k in pending ==> jointRotations[k] == start[k]
        invariant forall k :: k in start && k !in pending ==>
          jointRotations[k] == Blend(start[k], JointOf(target, k), alpha)
        invariant pose != this ==> pose.Value() == target
        invariant Value() == old(Value()).(joints := jointRotations)
        decreases pending
      {
        var key :| key in pending;
        jointRotations := jointRotations[key := Blend(jointRotations[key], pose.GetJointRotation(key), alpha)];
        pending := pending - {key};
      }
    }

    /**
     * `clone`: a new pose with the same frame number, root transform and
     * joint entries; nothing of it is shared with this one.
     */
    method Clone() returns (pose: Pose)
      ensures fresh(pose)
      ensures pose.Value() == Value()
    {
      pose := new Pose();
      pose.frame := frame;
      pose.rootRotation := rootRotation;
      pose.rootTranslation := rootTranslation;

      var pending := jointRotations.Keys;
      while pending != {}
        invariant pending <= jointRotations.Keys
        invariant pose.jointRotations.Keys == jointRotations.Keys - pending
        invariant forall k :: k in pose.jointRotations ==> pose.jointRotations[k] == jointRotations[k]
        invariant pose.frame == frame && pose.rootRotation == rootRotation && pose.rootTranslation == rootTranslation
        decreases pending
      {
        var key :| key in pending;
        pose.SetJointRotation(key, jointRotations[key]);
        pending := pending - {key};
      }
      assert pose.jointRotations == jointRotations;
    }
  }
}
