/**
 * The AMC motion reader of `MotionClip.loadFromAMC`, as pure functions.
 * The header is read line by line from the cursor; after it the reader
 * only peeks at and consumes single tokens, so the frames are read from
 * the stream of tokens ahead (`Rest` of the cursor), line breaks ignored:
 * each frame is a number followed by bone lines up to the next number.
 * The reading methods of `MotionClip` are proved to do what these say.
 */
module AmcFormat {
  import opened Geometry
  import opened StringParsing
  import opened Poses
  import opened Bones

  /** What the reader needs of a registered bone: the name poses store its rotation under, and its axes. */
  datatype BoneInfo = BoneInfo(name: string, dofs: Dofs)

  /** `getBone` as the reader sees it: token to the bone registered under it. */
  type Catalog = map<string, BoneInfo>

  /** The header: whole lines while the next token starts with '#' or ':'. */
  function Header(c: Cursor): (d: Cursor)
    ensures NotBefore(c, d)
    ensures !StartsWith(PeekOf(d), '#') && !StartsWith(PeekOf(d), ':')
    decreases |c.lines| - c.row
  {
    if c.row < |c.lines| && (StartsWith(PeekOf(c), '#') || StartsWith(PeekOf(c), ':')) then Header(NextLine(c))
    else c
  }

  /** `peek()` on a stream: its first token, or the empty word when it is empty. */
  function Head(ts: seq<Token>): Token
  {
    if ts == [] then Word("") else ts[0]
  }

  /** `readNumber()` on a stream: the value of its first token, which must be a number. */
  function NumberAt(ts: seq<Token>): (r: Result<(real, seq<Token>)>)
    ensures r.Ok? <==> ts != [] && ts[0].Num?
    ensures r.Ok? ==> r.value == (ts[0].value, ts[1..])
    ensures r.Fail? ==> r.error == NotANumber(Head(ts))
  {
    if ts != [] && ts[0].Num? then Ok((ts[0].value, ts[1..])) else Fail(NotANumber(Head(ts)))
  }

  /** One recorded angle: a number in degrees, read and converted only when the axis is enabled. */
  function AxisOf(ts: seq<Token>, enabled: bool): (r: Result<(real, seq<Token>)>)
  {
    if !enabled then Ok((0.0, ts))
    else
      var n :- NumberAt(ts);
      Ok((Radians(n.0), n.1))
  }

  /** The angles of a bone line: one number per enabled axis, in X, Y, Z order; a disabled axis stays 0. */
  function AnglesOf(ts: seq<Token>, d: Dofs): (r: Result<(Vec3, seq<Token>)>)
  {
    var x :- AxisOf(ts, d.rx);
    var y :- AxisOf(x.1, d.ry);
    var z :- AxisOf(y.1, d.rz);
    Ok((Vec3(x.0, y.0, z.0), z.1))
  }

  /** Three `readNumber()` calls in a row. */
  function TripleOf(ts: seq<Token>): (r: Result<(Vec3, seq<Token>)>)
  {
    var x :- NumberAt(ts);
    var y :- NumberAt(x.1);
    var z :- NumberAt(y.1);
    Ok((Vec3(x.0, y.0, z.0), z.1))
  }

  /**
   * The rest of a bone line whose name has been read: `root` sets the root
   * translation (converted to meters) and rotation, any other name the
   * joint rotation of the bone registered under it.
   */
  function BoneLine(ts: seq<Token>, name: string, p: PoseValue, cat: Catalog): (r: Result<(PoseValue, seq<Token>)>)
  {
    if name == "root" then
      var position :- TripleOf(ts);
      var angles :- TripleOf(position.1);
      var a := angles.0;
      Ok((p.(rootTranslation := Scale(position.0, UnitScale),
             rootRotation := Euler(Radians(a.x), Radians(a.y), Radians(a.z))), angles.1))
    else if name !in cat then Fail(UnknownBone(name))
    else
      var angles :- AnglesOf(ts, cat[name].dofs);
      var a := angles.0;
      Ok((p.(joints := p.joints[cat[name].name := Euler(a.x, a.y, a.z)]), angles.1))
  }

  /*
   * What a line consumes
   */

  /** The angle a bone line records for an axis: the number at `i`, converted, or 0 when the axis is disabled. */
  function AngleAt(ts: seq<Token>, i: nat, enabled: bool): real
    requires enabled ==> i < |ts| && ts[i].Num?
  {
    if enabled then Radians(ts[i].value) else 0.0
  }

  /** The position, among the numbers a bone line reads, of the Y angle: 1 after an X angle, else 0. */
  function YSlot(d: Dofs): nat { if d.rx then 1 else 0 }

  /** The position of the Z angle: after the X and Y angles read before it. */
  function ZSlot(d: Dofs): nat { YSlot(d) + if d.ry then 1 else 0 }

  /**
   * A bone line reads exactly as many numbers as the bone has enabled axes
   * (it fails exactly when fewer follow), assigns them to the enabled axes
   * in X, Y, Z order, and leaves the disabled axes at 0.
   */
  lemma AnglesRead(ts: seq<Token>, d: Dofs)
    ensures var r := AnglesOf(ts, d); var n := DofCount(d);
      && (r.Ok? <==> n <= |ts| && forall i :: 0 <= i < n ==> ts[i].Num?)
      && (r.Ok? ==>
           && n <= |ts|
           && r.value.1 == ts[n..]
           && r.value.0 == Vec3(AngleAt(ts, 0, d.rx), AngleAt(ts, YSlot(d), d.ry), AngleAt(ts, ZSlot(d), d.rz)))
  {
    var x := AxisOf(ts, d.rx);
    if x.Ok? {
      assert x.value.1 == ts[YSlot(d)..];
      var y := AxisOf(x.value.1, d.ry);
      if y.Ok? {
        assert y.value.1 == ts[ZSlot(d)..];
        var z := AxisOf(y.value.1, d.rz);
        if z.Ok? {
          assert z.value.1 == ts[DofCount(d)..];
        }
      }
    }
  }

  /** Three numbers are read exactly when the stream starts with three numbers, and they are consumed. */
  lemma TripleRead(ts: seq<Token>)
    ensures var r := TripleOf(ts);
      && (r.Ok? <==> |ts| >= 3 && ts[0].Num? && ts[1].Num? && ts[2].Num?)
      && (r.Ok? ==> |ts| >= 3 && r.value == (Vec3(ts[0].value, ts[1].value, ts[2].value), ts[3..]))
  {
    if |ts| >= 3 {
      assert ts[1..][1..] == ts[2..] && ts[2..][1..] == ts[3..];
    }
  }

  /**
   * A `root` line always reads six numbers: a translation, scaled from
   * mocap units to meters, and three angles in degrees; the joints and the
   * frame number are left alone.
   */
  lemma RootLineRead(ts: seq<Token>, p: PoseValue, cat: Catalog)
    ensures var r := BoneLine(ts, "root", p, cat);
      && (r.Ok? <==> |ts| >= 6 && forall i :: 0 <= i < 6 ==> ts[i].Num?)
      && (r.Ok? ==>
           && |ts| >= 6
           && r.value.1 == ts[6..]
           && r.value.0 == p.(
                rootTranslation := Scale(Vec3(ts[0].value, ts[1].value, ts[2].value), UnitScale),
                rootRotation := Euler(Radians(ts[3].value), Radians(ts[4].value), Radians(ts[5].value))))
  {
    TripleRead(ts);
    if |ts| >= 3 {
      TripleRead(ts[3..]);
      if |ts| >= 6 {
        assert ts[3..][3..] == ts[6..];
      }
    }
  }

  /**
   * A line naming a registered bone sets that bone's rotation, under the
   * bone's own name, to the Euler rotation of the angles it records;
   * nothing else of the pose changes.  A line naming no registered bone
   * stops the reader.
   */
  lemma JointLineRead(ts: seq<Token>, name: string, p: PoseValue, cat: Catalog)
    requires name != "root"
    ensures var r := BoneLine(ts, name, p, cat);
      && (name !in cat ==> r == Fail(UnknownBone(name)))
      && (name in cat ==>
           var d := cat[name].dofs;
           && (r.Ok? <==> DofCount(d) <= |ts| && forall i :: 0 <= i < DofCount(d) ==> ts[i].Num?)
           && (r.Ok? ==>
                && DofCount(d) <= |ts|
                && r.value.1 == ts[DofCount(d)..]
                && r.value.0 == p.(joints := p.joints[cat[name].name :=
                     Euler(AngleAt(ts, 0, d.rx), AngleAt(ts, YSlot(d), d.ry), AngleAt(ts, ZSlot(d), d.rz))])))
  {
    if name in cat {
      AnglesRead(ts, cat[name].dofs);
    }
  }

  /** A bone line consumes a suffix of the stream, and never touches the frame number. */
  lemma BoneLineSuffix(ts: seq<Token>, name: string, p: PoseValue, cat: Catalog)
    ensures var r := BoneLine(ts, name, p, cat);
      r.Ok? ==> |r.value.1| <= |ts| && r.value.1 == ts[|ts| - |r.value.1|..] && r.value.0.frame == p.frame
  {
    if name == "root" {
      RootLineRead(ts, p, cat);
    } else if name in cat {
      AnglesRead(ts, cat[name].dofs);
    }
  }

  /*
   * Frames
   */

  /** The bone lines of a frame: lines up to the next number or the end, applied to `p` in order. */
  function BoneLines(ts: seq<Token>, p: PoseValue, cat: Catalog): (r: Result<(PoseValue, seq<Token>)>)
    ensures r.Ok? ==> |r.value.1| <= |ts| && (r.value.1 == [] || r.value.1[0].Num?)
    ensures r.Ok? ==> r.value.0.frame == p.frame
    decreases |ts|
  {
    if ts == [] || ts[0].Num? then Ok((p, ts))
    else
      match BoneLine(ts[1..], ts[0].text, p, cat)
      case Fail(e) => Fail(e)
      case Ok(line) =>
        BoneLineSuffix(ts[1..], ts[0].text, p, cat);
        BoneLines(line.1, line.0, cat)
  }

  /** One frame: its number, then its bone lines applied to a fresh pose. */
  function FrameOf(ts: seq<Token>, cat: Catalog): (r: Result<(PoseValue, seq<Token>)>)
    ensures r.Ok? ==> ts != [] && ts[0].Num? && r.value.0.frame == ts[0].value
    ensures r.Ok? ==> |r.value.1| < |ts| && (r.value.1 == [] || r.value.1[0].Num?)
  {
    var n :- NumberAt(ts);
    BoneLines(n.1, RestPose.(frame := n.0), cat)
  }

  /** What a load appends: the poses completed, in file order, and the error that stopped it, if any. */
  datatype Clip = Clip(poses: seq<PoseValue>, error: Option<ParseError>)

  /** The frame loop, from `ts` to the end of the input or the first error. */
  function Frames(ts: seq<Token>, cat: Catalog): (r: Clip)
    decreases |ts|
  {
    if ts == [] then Clip([], None)
    else
      match FrameOf(ts, cat)
      case Fail(e) => Clip([], Some(e))
      case Ok((p, rest)) =>
        var more := Frames(rest, cat);
        Clip([p] + more.poses, more.error)
  }

  /** A frame read whole is followed by the frames after it. */
  lemma FrameStep(ts: seq<Token>, p: PoseValue, tail: seq<Token>, cat: Catalog)
    requires FrameOf(ts, cat) == Ok((p, tail))
    ensures Frames(ts, cat) == Clip([p] + Frames(tail, cat).poses, Frames(tail, cat).error)
  {
  }

  lemma ConsAppend<T>(x: T, a: seq<T>, b: seq<T>)
    ensures [x] + (a + b) == ([x] + a) + b
  {
  }

  /** A whole AMC file, given as tokenised lines. */
  function Amc(lines: seq<seq<Token>>, cat: Catalog): Clip
  {
    Frames(Rest(Header(Start(lines))), cat)
  }

  /**
   * Every pose the loop appends was a whole frame: the first starts at the
   * number the stream starts with, and its frame number is that value; no
   * more poses come out than tokens went in.
   */
  lemma {:induction false} FramesNumbered(ts: seq<Token>, cat: Catalog)
    ensures var r := Frames(ts, cat);
      |r.poses| <= |ts| && (r.poses != [] ==> ts[0].Num? && r.poses[0].frame == ts[0].value)
    decreases |ts|
  {
    if ts != [] {
      var f := FrameOf(ts, cat);
      if f.Ok? {
        FramesNumbered(f.value.1, cat);
      }
    }
  }
}
