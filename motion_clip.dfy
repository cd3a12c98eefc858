/**
 * A motion clip (MotionClip): an ordered sequence of poses, the AMC reader
 * that fills it, and the editing operations (trimming, insertion at either
 * end, seam-loop blending).
 *
 * The frames are Pose objects; a pose stored twice in one clip is the same
 * object twice.  The editing operations are stated on the sequence of
 * objects, and `makeLoop`, which blends poses in place, also on their values.
 */
module MotionClips {
  import opened Geometry
  import opened StringParsing
  import opened Poses
  import opened Bones
  import opened Skeletons
  import opened AmcFormat
  import opened AmcReading

  /*
   * Array.prototype.splice
   */

  function Min(a: int, b: int): int { if a <= b then a else b }

  function Max(a: int, b: int): int { if a <= b then b else a }

  /** Where `splice(start, …)` starts removing: a negative start counts from the end; both clamp to the array. */
  function SpliceStart(len: nat, start: int): (from: nat)
    ensures from <= len
  {
    if start < 0 then Max(len + start, 0) else Min(start, len)
  }

  /** How many elements `splice(start, deleteCount)` removes: never fewer than none, never past the end. */
  function SpliceCount(len: nat, start: int, deleteCount: int): (count: nat)
    ensures SpliceStart(len, start) + count <= len
  {
    Min(Max(deleteCount, 0), len - SpliceStart(len, start))
  }

  /** `s.splice(start, deleteCount)` with nothing inserted: the array it leaves. */
  function Splice<T>(s: seq<T>, start: int, deleteCount: int): (r: seq<T>)
  {
    var from := SpliceStart(|s|, start);
    s[..from] + s[from + SpliceCount(|s|, start, deleteCount)..]
  }

  /**
   * `splice(0, n)` removes a prefix: the first `n` elements, none for a
   * negative `n`, all of them when `n` exceeds the length.
   */
  lemma SpliceFront<T>(s: seq<T>, n: int)
    ensures n <= 0 ==> Splice(s, 0, n) == s
    ensures 0 <= n <= |s| ==> Splice(s, 0, n) == s[n..]
    ensures n >= |s| ==> Splice(s, 0, n) == []
  {
  }

  /**
   * `splice(len - n, n)` with `0 <= n <= len` removes exactly the last `n`
   * elements; for a negative `n` it removes nothing.
   */
  lemma SpliceBack<T>(s: seq<T>, n: int)
    ensures 0 <= n <= |s| ==> Splice(s, |s| - n, n) == s[..|s| - n]
    ensures n <= 0 ==> Splice(s, |s| - n, n) == s
    ensures n >= 2 * |s| ==> Splice(s, |s| - n, n) == []
  {
  }

  /**
   * With `len < n < 2 * len` the start `len - n` is negative and counts
   * back from the end, so `splice(len - n, n)` keeps the first `2 * len - n`
   * elements instead of removing all of them.  Two frames trimmed by three
   * keep the first frame.
   */
  lemma SpliceBackOvershoot<T>(a: T, b: T)
    ensures Splice([a, b], 2 - 3, 3) == [a]
  {
    assert SpliceStart(2, -1) == 1 && SpliceCount(2, -1, 3) == 1;
  }

  /**
   * Removing the last `n` elements as a checked operation: a count below
   * zero or above the length is refused rather than clamped.
   */
  function DropLast<T>(s: seq<T>, n: int): (r: Option<seq<T>>)
  {
    if 0 <= n <= |s| then Some(s[..|s| - n]) else None
  }

  /**
   * `DropLast` succeeds exactly on `0 <= n <= len`; then it keeps a prefix,
   * removes exactly `n` elements, and agrees with the splice the source
   * writes.  Over-trimming, where the splice keeps frames, is refused.
   */
  lemma DropLastRemoves<T>(s: seq<T>, n: int)
    ensures DropLast(s, n).Some? <==> 0 <= n <= |s|
    ensures DropLast(s, n).Some? ==>
      var r := DropLast(s, n).value;
      && r == s[..|r|]
      && |r| == |s| - n
      && r == Splice(s, |s| - n, n)
  {
    if 0 <= n <= |s| {
      SpliceBack(s, n);
    }
  }

  /*
   * makeLoop
   */

  /** The blend weight of the `i`-th of `k` blended frames: `i / (k - 1)`. */
  function Alpha(i: nat, k: nat): real
    requires k >= 2
  {
    i as real / (k - 1) as real
  }

  /**
   * The weights run from exactly 0 at the first blended frame to exactly 1
   * at the last, strictly increasing in between.
   */
  lemma AlphaRuns(k: nat)
    requires k >= 2
    ensures Alpha(0, k) == 0.0 && Alpha(k - 1, k) == 1.0
    ensures forall i, j :: 0 <= i < j < k ==> 0.0 <= Alpha(i, k) < Alpha(j, k) <= 1.0
  {
    forall i, j | 0 <= i < j < k
      ensures 0.0 <= Alpha(i, k) < Alpha(j, k) <= 1.0
    {
      AlphaOrder(i, j, k);
    }
  }

  lemma AlphaOrder(i: nat, j: nat, k: nat)
    requires k >= 2 && i < j < k
    ensures 0.0 <= Alpha(i, k) < Alpha(j, k) <= 1.0
  {
    var d := (k - 1) as real;
    DivideOrder(0.0, i as real, d);
    DivideOrder(i as real, j as real, d);
    DivideOrder(j as real, d, d);
  }

  /** Dividing by a positive number keeps a strict order and a non-strict one. */
  lemma DivideOrder(x: real, y: real, d: real)
    requires d > 0.0 && x <= y
    ensures x / d <= y / d
    ensures x < y ==> x / d < y / d
    ensures y == d ==> y / d == 1.0
  {
    assert y / d - x / d == (y - x) / d;
  }

  /** What `makeLoop(k)` may be asked: nothing to blend, or at least two frames blended out of at most half the clip. */
  predicate LoopAllowed(len: nat, k: int)
  {
    k <= 0 || (2 <= k && 2 * k <= len)
  }

  /**
   * Where `makeLoop(k)` leaves the clip's poses: the last `k`, in order,
   * then those from `k` up to where that tail began.
   */
  function LoopPoses<T>(ps: seq<T>, k: int): (r: seq<T>)
    requires LoopAllowed(|ps|, k)
    ensures |r| == |ps| - Max(k, 0)
  {
    if k <= 0 then ps else ps[|ps| - k..] + ps[k..|ps| - k]
  }

  /**
   * The values `makeLoop(k)` leaves, for any blend `blend(p, q, alpha)` of
   * `p` toward `q`: the last `k` values, each blended toward the value at
   * the same place from the start with weight `i / (k - 1)`, then the
   * values from `k` up to where that tail began.
   */
  function Crossfade<T>(vs: seq<T>, k: int, blend: (T, T, real) -> T): (r: seq<T>)
    requires LoopAllowed(|vs|, k)
    ensures |r| == |vs| - Max(k, 0)
  {
    if k <= 0 then vs
    else
      var tail := |vs| - k;
      seq(k, i requires 0 <= i < k => blend(vs[tail + i], vs[i], Alpha(i, k))) + vs[k..tail]
  }

  /** The pose values `makeLoop(k)` leaves: the crossfade under `lerp`. */
  function LoopValues(vs: seq<PoseValue>, k: int): (r: seq<PoseValue>)
    requires LoopAllowed(|vs|, k)
    ensures |r| == |vs| - Max(k, 0)
  {
    Crossfade(vs, k, LerpValue)
  }

  /**
   * After `makeLoop(k)`: the first `k` frames are the old tail blended
   * toward the old head with weights `i / (k - 1)`; the frames from `k`
   * up to the old tail are untouched and only shifted into place.
   */
  lemma LoopShape<T>(vs: seq<T>, k: int, blend: (T, T, real) -> T)
    requires LoopAllowed(|vs|, k) && k >= 2
    ensures var r := Crossfade(vs, k, blend);
      && |r| == |vs| - k
      && (forall i :: 0 <= i < k ==> r[i] == blend(vs[|vs| - k + i], vs[i], Alpha(i, k)))
      && (forall j :: k <= j < |vs| - k ==> r[j] == vs[j])
  {
    var tail := |vs| - k;
    var r := Crossfade(vs, k, blend);
    forall j | k <= j < tail
      ensures r[j] == vs[j]
    {
      assert r[j] == vs[k..tail][j - k];
    }
  }

  /**
   * The loop starts exactly on the old tail's first frame (weight 0) and
   * its last blended frame takes the old head frame's number, root
   * translation and root rotation (weight 1), so the clip joins up.
   */
  lemma LoopSeam(vs: seq<PoseValue>, k: int)
    requires LoopAllowed(|vs|, k) && k >= 2
    requires Integral(vs[|vs| - k].frame) && Integral(vs[k - 1].frame)
    ensures LoopValues(vs, k)[0] == vs[|vs| - k]
    ensures var last := LoopValues(vs, k)[k - 1];
      && last.frame == vs[k - 1].frame
      && last.rootTranslation == vs[k - 1].rootTranslation
      && last.rootRotation == vs[k - 1].rootRotation
      && last.joints.Keys == vs[|vs| - 1].joints.Keys
  {
    AlphaRuns(k);
    LoopShape(vs, k, LerpValue);
    LerpAtZero(vs[|vs| - k], vs[0]);
    LerpAtOne(vs[|vs| - 1], vs[k - 1]);
  }

  /**
   * Frame numbers inside the blended window lie between the two whole frame
   * numbers each is blended from.
   */
  lemma LoopFramesBetween(vs: seq<PoseValue>, k: int, i: nat)
    requires LoopAllowed(|vs|, k) && k >= 2 && i < k
    requires Integral(vs[|vs| - k + i].frame) && Integral(vs[i].frame)
    ensures var f, from, to := LoopValues(vs, k)[i].frame, vs[|vs| - k + i].frame, vs[i].frame;
      && (from <= to ==> from <= f <= to)
      && (to <= from ==> to <= f <= from)
  {
    AlphaRuns(k);
    LoopShape(vs, k, LerpValue);
    if i > 0 {
      AlphaOrder(0, i, k);
    }
    LerpFrameBetween(vs[|vs| - k + i].frame, vs[i].frame, Alpha(i, k));
  }

  /*
   * The clip
   */

  /** The values of a sequence of poses, in order. */
  function PoseValues(ps: seq<Pose>): (vs: seq<PoseValue>)
    reads ps
    ensures |vs| == |ps|
  {
    seq(|ps|, i reads ps requires 0 <= i < |ps| => ps[i].Value())
  }

  lemma AppendAssoc<T>(a: seq<T>, b: seq<T>, c: seq<T>)
    ensures (a + b) + c == a + (b + c)
  {
  }

  /** A file with no tokens at all loads nothing, and loads it without error. */
  lemma NothingToLoad(lines: seq<seq<Token>>, cat: Catalog)
    requires IsDone(Start(lines))
    ensures Amc(lines, cat) == Clip([], None)
  {
    StreamView(Start(lines));
  }

  /** At the end of the input the frame loop has nothing left to add. */
  lemma FramesAtEnd(c: Cursor, cat: Catalog, read: seq<PoseValue>)
    requires IsDone(c)
    ensures Frames(Rest(c), cat) == Clip([], None) && read + Frames(Rest(c), cat).poses == read
  {
    StreamView(c);
    assert read + [] == read;
  }

  /** A frame that fails to read ends the loop with the poses read before it. */
  lemma FrameFails(ts: seq<Token>, cat: Catalog, goal: Clip, read: seq<PoseValue>)
    requires ts != [] && FrameOf(ts, cat).Fail?
    requires goal == Clip(read + Frames(ts, cat).poses, Frames(ts, cat).error)
    ensures goal == Clip(read, Some(FrameOf(ts, cat).error))
  {
    assert read + [] == read;
  }

  /** A frame read whole joins the poses read, and the loop goes on after it. */
  lemma FrameAdvances(ts: seq<Token>, cat: Catalog, goal: Clip, read: seq<PoseValue>)
    requires FrameOf(ts, cat).Ok?
    requires goal == Clip(read + Frames(ts, cat).poses, Frames(ts, cat).error)
    ensures var f := FrameOf(ts, cat).value; var rest := Frames(f.1, cat);
      goal == Clip((read + [f.0]) + rest.poses, rest.error)
  {
    var f := FrameOf(ts, cat).value;
    FrameStep(ts, f.0, f.1, cat);
    AppendAssoc(read, [f.0], Frames(f.1, cat).poses);
  }

  /** A pose pushed onto the end adds its value at the end. */
  lemma ValuesPushed(ps: seq<Pose>, p: Pose)
    ensures PoseValues(ps + [p]) == PoseValues(ps) + [p.Value()]
  {
    ValuesOf(ps + [p], PoseValues(ps) + [p.Value()]);
  }

  lemma ValuesOf(ps: seq<Pose>, vs: seq<PoseValue>)
    requires |ps| == |vs| && forall i :: 0 <= i < |ps| ==> ps[i].Value() == vs[i]
    ensures PoseValues(ps) == vs
  {
  }

  /** Where each element of `LoopPoses(s, k)` comes from. */
  lemma LoopPosesAt<T>(s: seq<T>, k: int, j: nat)
    requires LoopAllowed(|s|, k) && k > 0 && j < |s| - k
    ensures LoopPoses(s, k)[j] == if j < k then s[|s| - k + j] else s[j]
  {
    if j >= k {
      assert LoopPoses(s, k)[j] == s[k..|s| - k][j - k];
    }
  }

  /** Taking poses apart as `makeLoop` does and reading their values commute. */
  lemma LoopPosesValues(poses: seq<Pose>, k: int)
    requires LoopAllowed(|poses|, k)
    ensures PoseValues(LoopPoses(poses, k)) == LoopPoses(PoseValues(poses), k)
  {
    var vs := PoseValues(poses);
    var ps := LoopPoses(poses, k);
    var r := LoopPoses(vs, k);
    if k > 0 {
      forall j | 0 <= j < |ps|
        ensures ps[j].Value() == r[j]
      {
        LoopPosesAt(poses, k, j);
        LoopPosesAt(vs, k, j);
      }
      ValuesOf(ps, r);
    }
  }

  /**
   * The values of a clip's poses once the first `i` of the last `k` have
   * been blended in place, one after another, toward the values at the
   * same index from the start.
   */
  function BlendedUpTo<T>(vs: seq<T>, k: nat, i: nat, blend: (T, T, real) -> T): (r: seq<T>)
    requires 2 <= k && 2 * k <= |vs| && i <= k
    ensures |r| == |vs|
    decreases i
  {
    if i == 0 then vs
    else
      var b, m := BlendedUpTo(vs, k, i - 1, blend), |vs| - k + i - 1;
      b[m := blend(b[m], b[i - 1], Alpha(i - 1, k))]
  }

  /**
   * Each in-place blend reads values nothing has blended yet: after `i`
   * steps the first `i` tail values are blended toward the untouched head
   * values, and every other value is as it was.
   */
  lemma {:induction false} BlendedAt<T>(vs: seq<T>, k: nat, i: nat, blend: (T, T, real) -> T)
    requires 2 <= k && 2 * k <= |vs| && i <= k
    ensures forall j :: 0 <= j < |vs| - k || |vs| - k + i <= j < |vs| ==>
      BlendedUpTo(vs, k, i, blend)[j] == vs[j]
    ensures forall j :: |vs| - k <= j < |vs| - k + i ==>
      BlendedUpTo(vs, k, i, blend)[j] == blend(vs[j], vs[j - (|vs| - k)], Alpha(j - (|vs| - k), k))
    decreases i
  {
    if i > 0 {
      var t, b := |vs| - k, BlendedUpTo(vs, k, i - 1, blend);
      BlendedAt(vs, k, i - 1, blend);
      assert b[t + i - 1] == vs[t + i - 1] && b[i - 1] == vs[i - 1];
    }
  }

  /** One more step of blending in place. */
  lemma BlendedNext<T>(vs: seq<T>, k: nat, i: nat, blend: (T, T, real) -> T)
    requires 2 <= k && 2 * k <= |vs| && i < k
    ensures var b, m := BlendedUpTo(vs, k, i, blend), |vs| - k + i;
      BlendedUpTo(vs, k, i + 1, blend) == b[m := blend(b[m], b[i], Alpha(i, k))]
  {
  }

  /** One more step of blending pose values in place with `lerp`. */
  lemma BlendedLerpNext(vs: seq<PoseValue>, k: nat, i: nat)
    requires 2 <= k && 2 * k <= |vs| && i < k
    ensures var b, m := BlendedUpTo(vs, k, i, LerpValue), |vs| - k + i;
      BlendedUpTo(vs, k, i + 1, LerpValue) == b[m := LerpValue(b[m], b[i], Alpha(i, k))]
  {
    BlendedNext(vs, k, i, LerpValue);
  }

  /**
   * Blending every tail value in place and then moving the tail to the
   * front, as `makeLoop` does, yields the crossfade.
   */
  lemma InPlaceCrossfade<T>(vs: seq<T>, k: nat, blend: (T, T, real) -> T)
    requires 2 <= k && 2 * k <= |vs|
    ensures LoopPoses(BlendedUpTo(vs, k, k, blend), k) == Crossfade(vs, k, blend)
  {
    var b := BlendedUpTo(vs, k, k, blend);
    var r := Crossfade(vs, k, blend);
    var t := |vs| - k;
    LoopShape(vs, k, blend);
    BlendedAt(vs, k, k, blend);
    forall j | 0 <= j < |r|
      ensures LoopPoses(b, k)[j] == r[j]
    {
      LoopPosesAt(b, k, j);
      if j < k {
        assert b[t + j] == blend(vs[t + j], vs[j], Alpha(j, k));
      } else {
        assert b[j] == vs[j];
      }
    }
  }

  /** `head` with its first `i` elements overwritten, one at a time, by those of `tail`. */
  function Overwritten<T>(tail: seq<T>, head: seq<T>, i: nat): (r: seq<T>)
    requires i <= |tail| && i <= |head|
    ensures |r| == |head|
    decreases i
  {
    if i == 0 then head else Overwritten(tail, head, i - 1)[i - 1 := tail[i - 1]]
  }

  /** Overwriting the first `i` elements leaves `tail`'s prefix in front of the rest of `head`. */
  lemma {:induction false} OverwrittenPrefix<T>(tail: seq<T>, head: seq<T>, i: nat)
    requires i <= |tail| && i <= |head|
    ensures Overwritten(tail, head, i) == tail[..i] + head[i..]
    decreases i
  {
    if i > 0 {
      OverwrittenPrefix(tail, head, i - 1);
      assert (tail[..i - 1] + head[i - 1..])[i - 1 := tail[i - 1]] == tail[..i] + head[i..];
    }
  }

  /** The element at `i` has not been overwritten yet. */
  lemma NotYetOverwritten<T>(tail: seq<T>, head: seq<T>, i: nat)
    requires i < |tail| && i < |head|
    ensures Overwritten(tail, head, i)[i] == head[i]
  {
    OverwrittenPrefix(tail, head, i);
  }

  /** Before any blending every value is as it was. */
  lemma BlendedNone<T>(vs: seq<T>, k: nat, blend: (T, T, real) -> T)
    requires 2 <= k && 2 * k <= |vs|
    ensures BlendedUpTo(vs, k, 0, blend) == vs
  {
  }

  /** Once the whole tail has been stored over the head, the poses stand as `LoopPoses` says. */
  lemma TailOverHead<T>(s: seq<T>, k: nat, tail: seq<T>, head: seq<T>)
    requires 2 <= k && 2 * k <= |s|
    requires tail == s[|s| - k..] && head == s[..|s| - k]
    ensures s == head + tail
    ensures tail + head[k..] == LoopPoses(s, k)
  {
    assert head[k..] == s[k..|s| - k];
  }

  /** `target.lerp(source, alpha)` on one pose of a clip whose poses are distinct objects. */
  method BlendPose(target: Pose, source: Pose, alpha: real, ghost poses: seq<Pose>, ghost m: nat, ghost s: nat)
    requires m < |poses| && s < |poses| && m != s && poses[m] == target && poses[s] == source
    requires Distinct(poses)
    modifies target
    ensures var b := old(PoseValues(poses)); PoseValues(poses) == b[m := LerpValue(b[m], b[s], alpha)]
  {
    ghost var before := PoseValues(poses);
    DistinctApart(poses, m);
    target.Lerp(source, alpha);
    ghost var after := before[m := target.Value()];
    forall j | 0 <= j < |poses|
      ensures poses[j].Value() == after[j]
    {
      if j != m {
        assert poses[j] != target;
      }
    }
    ValuesOf(poses, after);
  }

  /**
   * One pass of `makeLoop`'s second loop: the `i`-th of the poses after
   * `head` is blended toward the `i`-th pose with weight `i / (k - 1)`,
   * which takes the values from `i` to `i + 1` blended tail steps.
   */
  method BlendTail(tail: seq<Pose>, source: Pose, ghost poses: seq<Pose>, ghost head: seq<Pose>, ghost vs: seq<PoseValue>, i: nat)
    requires poses == head + tail && Distinct(poses)
    requires 2 <= |tail| <= |head| && i < |tail| && source == head[i]
    requires |vs| == |poses| && PoseValues(poses) == BlendedUpTo(vs, |tail|, i, LerpValue)
    modifies tail[i]
    ensures PoseValues(poses) == BlendedUpTo(vs, |tail|, i + 1, LerpValue)
  {
    BlendedLerpNext(vs, |tail|, i);
    var alpha := i as real / (|tail| - 1) as real;
    assert poses[|head| + i] == tail[i] && poses[i] == head[i];
    BlendPose(tail[i], source, alpha, poses, |head| + i, i);
  }

  /** No pose object is stored twice. */
  predicate Distinct(ps: seq<Pose>)
  {
    ps == [] || (ps[|ps| - 1] !in ps[..|ps| - 1] && Distinct(ps[..|ps| - 1]))
  }

  /** In a sequence of distinct poses, the pose at `m` occurs nowhere else. */
  lemma {:induction false} DistinctApart(ps: seq<Pose>, m: nat)
    requires Distinct(ps) && m < |ps|
    ensures forall j :: 0 <= j < |ps| && j != m ==> ps[j] != ps[m]
  {
    var n := |ps| - 1;
    if m < n {
      DistinctApart(ps[..n], m);
      assert ps[m] in ps[..n];
    } else {
      forall j | 0 <= j < n
        ensures ps[j] != ps[m]
      {
        assert ps[j] in ps[..n];
      }
    }
  }

  class MotionClip {
    var frames: seq<Pose>

    function Values(): seq<PoseValue>
      reads this, frames
    {
      PoseValues(frames)
    }

    /**
     * The clip holds the poses `before`, then poses whose values are
     * `added`; if no pose object was stored twice before, none is now.
     */
    ghost predicate Extends(before: seq<Pose>, valuesBefore: seq<PoseValue>, added: seq<PoseValue>)
      reads this, frames
    {
      && Values() == valuesBefore + added
      && |before| <= |frames| && frames[..|before|] == before
      && (Distinct(before) ==> Distinct(frames))
    }

    constructor()
      ensures frames == []
    {
      frames := [];
    }

    /** `trimFront`: `frames.splice(0, numFrames)`. */
    method TrimFront(numFrames: int)
      modifies this
      ensures frames == Splice(old(frames), 0, numFrames)
    {
      frames := Splice(frames, 0, numFrames);
    }

    /** `trimBack`: `frames.splice(frames.length - numFrames, numFrames)`, as written. */
    method TrimBack(numFrames: int)
      modifies this
      ensures frames == Splice(old(frames), |old(frames)| - numFrames, numFrames)
    {
      frames := Splice(frames, |frames| - numFrames, numFrames);
    }

    /** `prependPose`: `frames.unshift(pose)`. */
    method PrependPose(pose: Pose)
      modifies this
      ensures frames == [pose] + old(frames)
    {
      frames := [pose] + frames;
    }

    /** `appendPose`: `frames.push(pose)`. */
    method AppendPose(pose: Pose)
      modifies this
      ensures frames == old(frames) + [pose]
    {
      frames := frames + [pose];
    }

    /**
     * `makeLoop`: pops the last `numBlendFrames` poses, keeping their order,
     * into a temporary clip; then blends the `i`-th of them toward the
     * frame at index `i` with weight `i / (numBlendFrames - 1)` and stores
     * it at index `i`.  The blended poses are changed in place; the poses
     * they replace are left as they were.
     */
    method MakeLoop(numBlendFrames: int)
      requires LoopAllowed(|frames|, numBlendFrames)
      requires Distinct(frames)
      modifies this, frames
      ensures Values() == LoopValues(old(Values()), numBlendFrames)
      ensures frames == LoopPoses(old(frames), numBlendFrames)
    {
      ghost var vs := Values();
      ghost var poses := frames;
      var tempClip := new MotionClip();
      PopInto(tempClip, numBlendFrames);
      if numBlendFrames > 0 {
        TailOverHead(poses, numBlendFrames, tempClip.frames, frames);
        BlendFrom(tempClip, numBlendFrames, poses, vs);
        LoopPosesValues(poses, numBlendFrames);
        InPlaceCrossfade(vs, numBlendFrames, LerpValue);
      } else {
        assert frames == poses;
      }
    }

    /** The first loop of `makeLoop`: `k` times, the last pose popped and prepended to `tempClip`. */
    method PopInto(tempClip: MotionClip, k: int)
      requires tempClip != this && tempClip.frames == []
      requires LoopAllowed(|frames|, k)
      modifies this, tempClip
      ensures frames == old(frames[..|frames| - Max(k, 0)])
      ensures tempClip.frames == old(frames[|frames| - Max(k, 0)..])
    {
      ghost var poses := frames;
      ghost var len := |frames|;
      var i := 0;
      while i < k
        invariant 0 <= i <= Max(k, 0)
        invariant frames == poses[..len - i] && tempClip.frames == poses[len - i..]
      {
        var last := frames[|frames| - 1];
        frames := frames[..|frames| - 1];
        tempClip.PrependPose(last);
        i := i + 1;
      }
    }

    /**
     * The body of `makeLoop`'s second loop: the `i`-th tail pose is blended
     * toward the pose at index `i`, then stored at index `i` in its place.
     */
    method BlendStep(tail: seq<Pose>, ghost poses: seq<Pose>, ghost head: seq<Pose>, ghost vs: seq<PoseValue>, i: nat)
      requires poses == head + tail && Distinct(poses)
      requires 2 <= |tail| <= |head| && i < |tail| && i < |frames| && frames[i] == head[i]
      requires |vs| == |poses| && PoseValues(poses) == BlendedUpTo(vs, |tail|, i, LerpValue)
      modifies this, tail[i]
      ensures frames == old(frames)[i := tail[i]]
      ensures PoseValues(poses) == BlendedUpTo(vs, |tail|, i + 1, LerpValue)
    {
      BlendTail(tail, frames[i], poses, head, vs, i);
      frames := frames[i := tail[i]];
    }

    /**
     * The second loop of `makeLoop`: the `i`-th pose of `tempClip` is
     * blended toward this clip's `i`-th pose and stored in its place.
     */
    method BlendFrom(tempClip: MotionClip, k: int, ghost poses: seq<Pose>, ghost vs: seq<PoseValue>)
      requires tempClip != this && k >= 2 && |tempClip.frames| == k && k <= |frames|
      requires poses == frames + tempClip.frames && Distinct(poses)
      requires PoseValues(poses) == vs
      modifies this, tempClip.frames
      ensures frames == old(tempClip.frames) + old(frames)[k..]
      ensures PoseValues(poses) == BlendedUpTo(vs, k, k, LerpValue)
    {
      ghost var head := frames;
      var tail := tempClip.frames;
      BlendedNone(vs, k, LerpValue);
      var i := 0;
      while i < k
        invariant 0 <= i <= k
        invariant frames == Overwritten(tail, head, i)
        invariant PoseValues(poses) == BlendedUpTo(vs, k, i, LerpValue)
      {
        NotYetOverwritten(tail, head, i);
        BlendStep(tail, poses, head, vs, i);
        i := i + 1;
      }
      OverwrittenPrefix(tail, head, k);
      assert tail[..k] == tail;
    }

    /**
     * `loadFromAMC`, once the file's text has arrived as tokenised lines.
     * The load is counted as pending from its start; it is counted off
     * only when the whole file has been read.  The poses appended are the
     * frames of the file, in order, up to the first that fails to read;
     * the poses already in the clip stay, and no pose object is added twice.
     */
    method LoadFromAMC(lines: seq<seq<Token>>, skeleton: Skeleton, counter: LoadCounter) returns (error: Option<ParseError>)
      modifies this, counter
      ensures var clip := Amc(lines, CatalogOf(skeleton));
        Extends(old(frames), old(Values()), clip.poses) && error == clip.error
      ensures counter.numLoading == old(counter.numLoading) + (if error.None? then 0 else 1)
    {
      counter.numLoading := counter.numLoading + 1;
      error := ReadMotion(lines, skeleton);
      if error.None? {
        counter.numLoading := counter.numLoading - 1;
      }
    }

    /** The body of the loader's callback: a parser over the text, then the outer loop. */
    method ReadMotion(lines: seq<seq<Token>>, skeleton: Skeleton) returns (error: Option<ParseError>)
      modifies this
      ensures var clip := Amc(lines, CatalogOf(skeleton));
        Extends(old(frames), old(Values()), clip.poses) && error == clip.error
    {
      var parser := new StringParser(lines);
      error := ParseText(parser, skeleton, lines);
    }

    /** The outer loop of `loadFromAMC`: its body runs once, unless the text has no token at all. */
    method ParseText(parser: StringParser, skeleton: Skeleton, ghost lines: seq<seq<Token>>) returns (error: Option<ParseError>)
      requires parser.cur == Start(lines)
      modifies this, parser
      ensures var clip := Amc(lines, CatalogOf(skeleton));
        Extends(old(frames), old(Values()), clip.poses) && error == clip.error
    {
      ghost var cat := CatalogOf(skeleton);
      ghost var before := frames;
      ghost var valuesBefore := Values();
      ghost var started := false;
      error := None;
      while !parser.Done()
        invariant cat == CatalogOf(skeleton)
        invariant !started ==> parser.cur == Start(lines) && frames == before && Values() == valuesBefore
        invariant started ==> IsDone(parser.cur) && Extends(before, valuesBefore, Amc(lines, cat).poses) && Amc(lines, cat).error == None
        invariant error == None
        decreases if started then 0 else 1
      {
        error := ParseFile(parser, skeleton, lines, cat);
        if error.Some? {
          return;
        }
        started := true;
      }
      if !started {
        NothingToLoad(lines, cat);
        assert frames[..|before|] == before && Values() + [] == Values();
      }
    }

    /** The body of `loadFromAMC`'s outer loop, entered at the start of the file: the header, then the frames. */
    method ParseFile(parser: StringParser, skeleton: Skeleton, ghost lines: seq<seq<Token>>, ghost cat: Catalog)
      returns (error: Option<ParseError>)
      requires parser.cur == Start(lines) && cat == CatalogOf(skeleton)
      modifies this, parser
      ensures Extends(old(frames), old(Values()), Amc(lines, cat).poses) && error == Amc(lines, cat).error
      ensures error.None? ==> IsDone(parser.cur)
    {
      SkipHeader(parser);
      error := ParseFrames(parser, skeleton);
    }

    /**
     * The frame loop of `loadFromAMC`: while input remains, a frame is read
     * into a fresh pose and pushed.  The poses pushed are those the frames
     * ahead describe, in order, up to the first frame that fails to read.
     */
    method ParseFrames(parser: StringParser, skeleton: Skeleton) returns (error: Option<ParseError>)
      modifies this, parser
      ensures var clip := old(Frames(Rest(parser.cur), CatalogOf(skeleton)));
        Values() == old(Values()) + clip.poses && error == clip.error
      ensures error.None? ==> IsDone(parser.cur)
      ensures |old(frames)| <= |frames| && frames[..|old(frames)|] == old(frames)
      ensures Distinct(old(frames)) ==> Distinct(frames)
    {
      ghost var cat := CatalogOf(skeleton);
      ghost var goal := Frames(Rest(parser.cur), cat);
      ghost var before := Values();
      ghost var read: seq<PoseValue> := [];
      ghost var added: seq<Pose> := [];
      error := None;
      while !parser.Done()
        invariant cat == CatalogOf(skeleton)
        invariant var rest := Frames(Rest(parser.cur), cat); goal == Clip(read + rest.poses, rest.error)
        invariant Values() == before + read
        invariant frames == old(frames) + added
        invariant Distinct(old(frames)) ==> Distinct(frames)
        invariant error == None
        decreases |Rest(parser.cur)|
      {
        var pose;
        error, pose, read := PushFrame(parser, skeleton, cat, goal, before, read);
        if error.Some? {
          break;
        }
        AppendAssoc(old(frames), added, [pose]);
        added := added + [pose];
      }
      if error.None? {
        FramesAtEnd(parser.cur, cat, read);
      }
      assert frames[..|old(frames)|] == old(frames);
    }

    /**
     * One pass of the frame loop: a frame read and its pose pushed, or the
     * error that the frames still ahead stop with.
     */
    method PushFrame(parser: StringParser, skeleton: Skeleton, ghost cat: Catalog, ghost goal: Clip, ghost before: seq<PoseValue>, ghost read: seq<PoseValue>)
      returns (error: Option<ParseError>, pose: Pose, ghost read': seq<PoseValue>)
      requires !IsDone(parser.cur) && cat == CatalogOf(skeleton)
      requires var rest := Frames(Rest(parser.cur), cat); goal == Clip(read + rest.poses, rest.error)
      requires Values() == before + read
      modifies this, parser
      ensures error.Some? ==> frames == old(frames)
      ensures error.None? ==> frames == old(frames) + [pose] && fresh(pose)
      ensures Distinct(old(frames)) ==> Distinct(frames)
      ensures Values() == before + read'
      ensures error.Some? ==> goal == Clip(read', error)
      ensures error.None? ==> |Rest(parser.cur)| < |Rest(old(parser.cur))|
      ensures error.None? ==> var rest := Frames(Rest(parser.cur), cat); goal == Clip(read' + rest.poses, rest.error)
    {
      StreamView(parser.cur);
      ghost var ts := Rest(parser.cur);
      pose, error := ParseFrame(parser, skeleton);
      if error.Some? {
        read' := read;
        FrameFails(ts, cat, goal, read);
        return;
      }
      FrameAdvances(ts, cat, goal, read);
      read' := read + [pose.Value()];
      PushFresh(pose);
    }

    /** `appendPose` of a pose no frame holds yet. */
    method PushFresh(pose: Pose)
      requires pose !in frames
      modifies this
      ensures frames == old(frames) + [pose]
      ensures Values() == old(Values()) + [pose.Value()]
      ensures Distinct(old(frames)) ==> Distinct(frames)
    {
      ValuesPushed(frames, pose);
      AppendPose(pose);
      assert frames[..|frames| - 1] == old(frames);
    }
  }
}
