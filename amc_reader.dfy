/**
 * The reading steps of `MotionClip.loadFromAMC`, as methods on the parser
 * and the pose being filled.  Each is proved to consume exactly the tokens
 * the matching function of AmcFormat reads from the stream ahead, and to
 * leave the pose, or report the error, that function gives.
 */
module AmcReading {
  import opened Geometry
  import opened StringParsing
  import opened Poses
  import opened Skeletons
  import opened AmcFormat

  /** What the reader learns from a skeleton through `getBone`: each registered token, its bone's name and axes. */
  function CatalogOf(skeleton: Skeleton): Catalog
    reads skeleton, skeleton.bones.Values
  {
    map n | n in skeleton.bones :: BoneInfo(skeleton.bones[n].name, skeleton.bones[n].dofs)
  }

  /** `r` is what the read `s` yields, and `rest` what it leaves of the stream. */
  predicate Yields<T(==)>(s: Result<(T, seq<Token>)>, r: Result<T>, rest: seq<Token>)
  {
    match s
    case Ok(v) => r == Ok(v.0) && rest == v.1
    case Fail(e) => r == Fail(e)
  }

  /** The pose `v`, the stream left `rest` and the `error` are what the read `s` of a pose gives. */
  predicate ReadInto(s: Result<(PoseValue, seq<Token>)>, error: Option<ParseError>, v: PoseValue, rest: seq<Token>)
  {
    match s
    case Ok(x) => error == None && v == x.0 && rest == x.1
    case Fail(e) => error == Some(e)
  }

  /** `readNumber()` on the cursor reads the number at the head of the stream ahead of it. */
  lemma NumberView(c: Cursor)
    ensures match NumberOf(c)
      case Ok(v) => NumberAt(Rest(c)) == Ok((v.0, Rest(v.1)))
      case Fail(e) => NumberAt(Rest(c)) == Fail(e)
  {
    StreamView(c);
  }

  /** Three `readNumber()` calls on the cursor read the three numbers at the head of the stream. */
  lemma TripleView(c: Cursor)
    ensures match Number3(c)
      case Ok(v) => TripleOf(Rest(c)) == Ok((v.0, Rest(v.1)))
      case Fail(e) => TripleOf(Rest(c)) == Fail(e)
  {
    NumberView(c);
    if NumberOf(c).Ok? {
      var c1 := NumberOf(c).value.1;
      NumberView(c1);
      if NumberOf(c1).Ok? {
        NumberView(NumberOf(c1).value.1);
      }
    }
  }

  /** `readNumber()`, on the stream. */
  method NextNumber(parser: StringParser) returns (r: Result<real>)
    modifies parser
    ensures Yields(NumberAt(Rest(old(parser.cur))), r, Rest(parser.cur))
  {
    NumberView(parser.cur);
    r := parser.ReadNumber();
  }

  /** Three `readNumber()` calls, on the stream. */
  method NextTriple(parser: StringParser) returns (r: Result<Vec3>)
    modifies parser
    ensures Yields(TripleOf(Rest(old(parser.cur))), r, Rest(parser.cur))
  {
    TripleView(parser.cur);
    r := ReadVec(parser);
  }

  /** One angle of a bone line: read, and converted from degrees, only when the axis is enabled. */
  method ReadAxis(parser: StringParser, enabled: bool) returns (r: Result<real>)
    modifies parser
    ensures Yields(AxisOf(Rest(old(parser.cur)), enabled), r, Rest(parser.cur))
  {
    if !enabled {
      return Ok(0.0);
    }
    var n := NextNumber(parser);
    if n.Fail? {
      return Fail(n.error);
    }
    r := Ok(Radians(n.value));
  }

  /** The angles of a joint line, X, Y, Z in turn, each axis only when the bone has it. */
  method ReadAngles(parser: StringParser, dofs: Bones.Dofs) returns (r: Result<Vec3>)
    modifies parser
    ensures Yields(AnglesOf(Rest(old(parser.cur)), dofs), r, Rest(parser.cur))
  {
    var x := ReadAxis(parser, dofs.rx);
    if x.Fail? {
      return Fail(x.error);
    }
    var y := ReadAxis(parser, dofs.ry);
    if y.Fail? {
      return Fail(y.error);
    }
    var z := ReadAxis(parser, dofs.rz);
    if z.Fail? {
      return Fail(z.error);
    }
    r := Ok(Vec3(x.value, y.value, z.value));
  }

  /** The numbers of a `root` line: a translation, in mocap units, then three angles in degrees. */
  method ParseRootLine(parser: StringParser, pose: Pose) returns (error: Option<ParseError>)
    modifies parser, pose
    ensures ReadInto(BoneLine(Rest(old(parser.cur)), "root", old(pose.Value()), map[]), error, pose.Value(), Rest(parser.cur))
  {
    var position := NextTriple(parser);
    if position.Fail? {
      return Some(position.error);
    }
    pose.SetRootPosition(Scale(position.value, UnitScale));
    var angles := NextTriple(parser);
    if angles.Fail? {
      return Some(angles.error);
    }
    var a := angles.value;
    pose.SetRootAngles(Vec3(Radians(a.x), Radians(a.y), Radians(a.z)));
    return None;
  }

  /** A `root` line reads the same whatever bones the skeleton has. */
  lemma RootLineAnyCatalog(ts: seq<Token>, p: PoseValue, cat: Catalog)
    ensures BoneLine(ts, "root", p, cat) == BoneLine(ts, "root", p, map[])
  {
  }

  /**
   * The rest of one bone line, whose name has been read: the root
   * transform for `root`, else the joint angles of the bone the skeleton
   * registers under the name.
   */
  method ParseBoneLine(parser: StringParser, boneName: string, pose: Pose, skeleton: Skeleton) returns (error: Option<ParseError>)
    modifies parser, pose
    ensures ReadInto(BoneLine(Rest(old(parser.cur)), boneName, old(pose.Value()), CatalogOf(skeleton)),
      error, pose.Value(), Rest(parser.cur))
  {
    if boneName == "root" {
      RootLineAnyCatalog(Rest(parser.cur), pose.Value(), CatalogOf(skeleton));
      error := ParseRootLine(parser, pose);
      return;
    }
    var bone := skeleton.GetBone(boneName);
    if bone == null {
      return Some(UnknownBone(boneName));
    }
    var angles := ReadAngles(parser, bone.dofs);
    if angles.Fail? {
      return Some(angles.error);
    }
    pose.SetJointAngles(bone.name, angles.value);
    return None;
  }

  /**
   * One pass of the bone-line loop: the name, then the rest of its line.
   * The lines still to come then yield what they would have before, or
   * the error is the one they would have stopped with.
   */
  method ParseNamedLine(parser: StringParser, pose: Pose, skeleton: Skeleton) returns (error: Option<ParseError>)
    requires Rest(parser.cur) != [] && !Rest(parser.cur)[0].Num?
    modifies parser, pose
    ensures var goal := BoneLines(Rest(old(parser.cur)), old(pose.Value()), CatalogOf(skeleton));
      match error
      case None => |Rest(parser.cur)| < |Rest(old(parser.cur))| && BoneLines(Rest(parser.cur), pose.Value(), CatalogOf(skeleton)) == goal
      case Some(e) => goal == Fail(e)
  {
    StreamView(parser.cur);
    ghost var ts := Rest(parser.cur);
    ghost var v := pose.Value();
    var boneName := parser.ReadToken();
    error := ParseBoneLine(parser, boneName.text, pose, skeleton);
    BoneLineSuffix(ts[1..], boneName.text, v, CatalogOf(skeleton));
  }

  /** The bone lines of a frame: read while input remains and the next token is not a number. */
  method ParseBoneLines(parser: StringParser, pose: Pose, skeleton: Skeleton) returns (error: Option<ParseError>)
    modifies parser, pose
    ensures ReadInto(BoneLines(Rest(old(parser.cur)), old(pose.Value()), CatalogOf(skeleton)),
      error, pose.Value(), Rest(parser.cur))
  {
    ghost var catalog := CatalogOf(skeleton);
    ghost var goal := BoneLines(Rest(parser.cur), pose.Value(), catalog);
    StreamView(parser.cur);
    while !parser.Done() && !parser.Peek().Num?
      invariant CatalogOf(skeleton) == catalog
      invariant BoneLines(Rest(parser.cur), pose.Value(), catalog) == goal
      decreases |Rest(parser.cur)|
    {
      StreamView(parser.cur);
      error := ParseNamedLine(parser, pose, skeleton);
      if error.Some? {
        return;
      }
      StreamView(parser.cur);
    }
    StreamView(parser.cur);
    error := None;
  }

  /** One frame: a fresh pose, its frame number, then its bone lines. */
  method ParseFrame(parser: StringParser, skeleton: Skeleton) returns (pose: Pose, error: Option<ParseError>)
    modifies parser
    ensures fresh(pose)
    ensures ReadInto(FrameOf(Rest(old(parser.cur)), CatalogOf(skeleton)), error, pose.Value(), Rest(parser.cur))
  {
    pose := new Pose();
    var frame := NextNumber(parser);
    if frame.Fail? {
      return pose, Some(frame.error);
    }
    pose.frame := frame.value;
    error := ParseBoneLines(parser, pose, skeleton);
  }

  /** The header loop of `loadFromAMC`: whole lines skipped while the next token starts with '#' or ':'. */
  method SkipHeader(parser: StringParser)
    modifies parser
    ensures parser.cur == Header(old(parser.cur))
  {
    while StartsWith(parser.Peek(), '#') || StartsWith(parser.Peek(), ':')
      invariant Header(parser.cur) == Header(old(parser.cur))
      decreases |parser.cur.lines| - parser.cur.row
    {
      parser.ConsumeLine();
    }
  }
}
