/**
 * What the AMC reader recovers from a well-formed recording.  A recording
 * is described as data (frames of bone samples), laid out as the tokens an
 * AMC file holds, and the reader is proved to return exactly one pose per
 * recorded frame, in order, holding the recorded values; a frame that names
 * a bone the skeleton lacks stops the load after the frames before it.
 */
module AmcRecords {
  import opened Geometry
  import opened StringParsing
  import opened Poses
  import opened Bones
  import opened AmcFormat

  /** One bone line of a recording: the bone's name and the numbers after it. */
  datatype Sample = Sample(name: string, values: seq<Token>)

  /** One frame of a recording: its number and its bone lines. */
  datatype Record = Record(number: Token, samples: seq<Sample>)

  predicate Numbers(ts: seq<Token>)
  {
    forall i :: 0 <= i < |ts| ==> ts[i].Num?
  }

  /** A bone line as the skeleton expects it: six numbers for `root`, one per enabled axis for a registered bone. */
  predicate SampleFits(s: Sample, cat: Catalog)
  {
    && Numbers(s.values)
    && (s.name == "root" ==> |s.values| == 6)
    && (s.name != "root" ==> s.name in cat && |s.values| == DofCount(cat[s.name].dofs))
  }

  predicate SamplesFit(ss: seq<Sample>, cat: Catalog)
  {
    forall i :: 0 <= i < |ss| ==> SampleFits(ss[i], cat)
  }

  /** A frame starts with a number that cannot be taken for a header line. */
  predicate RecordFits(r: Record, cat: Catalog)
  {
    && r.number.Num? && !StartsWith(r.number, '#') && !StartsWith(r.number, ':')
    && SamplesFit(r.samples, cat)
  }

  predicate RecordsFit(rs: seq<Record>, cat: Catalog)
  {
    forall i :: 0 <= i < |rs| ==> RecordFits(rs[i], cat)
  }

  /*
   * The layout of a recording as tokens
   */

  function SampleTokens(s: Sample): seq<Token>
  {
    [Word(s.name)] + s.values
  }

  function SamplesTokens(ss: seq<Sample>): seq<Token>
  {
    if ss == [] then [] else SampleTokens(ss[0]) + SamplesTokens(ss[1..])
  }

  function RecordTokens(r: Record): seq<Token>
  {
    [r.number] + SamplesTokens(r.samples)
  }

  function RecordsTokens(rs: seq<Record>): (ts: seq<Token>)
    ensures rs != [] ==> ts != [] && ts[0] == rs[0].number
  {
    if rs == [] then [] else RecordTokens(rs[0]) + RecordsTokens(rs[1..])
  }

  /*
   * What a recording means
   */

  /** A bone line applied to a pose. */
  function Applied(p: PoseValue, s: Sample, cat: Catalog): PoseValue
    requires SampleFits(s, cat)
  {
    var v := s.values;
    if s.name == "root" then
      p.(rootTranslation := Scale(Vec3(v[0].value, v[1].value, v[2].value), UnitScale),
         rootRotation := Euler(Radians(v[3].value), Radians(v[4].value), Radians(v[5].value)))
    else
      var b := cat[s.name];
      var angles := Vec3(AngleAt(v, 0, b.dofs.rx), AngleAt(v, YSlot(b.dofs), b.dofs.ry), AngleAt(v, ZSlot(b.dofs), b.dofs.rz));
      p.(joints := p.joints[b.name := Euler(angles.x, angles.y, angles.z)])
  }

  /** Bone lines applied in order. */
  function AppliedAll(p: PoseValue, ss: seq<Sample>, cat: Catalog): PoseValue
    requires SamplesFit(ss, cat)
    decreases |ss|
  {
    if ss == [] then p else AppliedAll(Applied(p, ss[0], cat), ss[1..], cat)
  }

  /** The pose a recorded frame describes: a fresh pose with the frame's number and its bone lines. */
  function PoseOf(r: Record, cat: Catalog): PoseValue
    requires RecordFits(r, cat)
  {
    AppliedAll(RestPose.(frame := r.number.value), r.samples, cat)
  }

  function PosesOf(rs: seq<Record>, cat: Catalog): (ps: seq<PoseValue>)
    requires RecordsFit(rs, cat)
    ensures |ps| == |rs|
  {
    if rs == [] then [] else [PoseOf(rs[0], cat)] + PosesOf(rs[1..], cat)
  }

  /*
   * Reading a recording back
   */

  /** One recorded bone line is read back whole: its name, then exactly its numbers. */
  lemma SampleRead(ts: seq<Token>, s: Sample, p: PoseValue, cat: Catalog, more: seq<Token>)
    requires SampleFits(s, cat) && ts == SampleTokens(s) + more
    ensures ts != [] && ts[0] == Word(s.name)
    ensures BoneLine(ts[1..], s.name, p, cat) == Ok((Applied(p, s, cat), more))
  {
    var vs := s.values + more;
    assert ts[1..] == vs;
    assert vs[..|s.values|] == s.values && vs[|s.values|..] == more;
    if s.name == "root" {
      RootLineRead(vs, p, cat);
    } else {
      var d := cat[s.name].dofs;
      JointLineRead(vs, s.name, p, cat);
      assert AngleAt(vs, 0, d.rx) == AngleAt(s.values, 0, d.rx);
      assert AngleAt(vs, YSlot(d), d.ry) == AngleAt(s.values, YSlot(d), d.ry);
      assert AngleAt(vs, ZSlot(d), d.rz) == AngleAt(s.values, ZSlot(d), d.rz);
    }
  }

  /** The bone lines of a frame are read one after the other, in order, and nothing beyond them. */
  lemma {:induction false} SamplesRead(ts: seq<Token>, ss: seq<Sample>, p: PoseValue, cat: Catalog, more: seq<Token>)
    requires SamplesFit(ss, cat) && ts == SamplesTokens(ss) + more
    ensures BoneLines(ts, p, cat) == BoneLines(more, AppliedAll(p, ss, cat), cat)
    decreases |ss|
  {
    if ss == [] {
      assert ts == more;
    } else {
      var tail := SamplesTokens(ss[1..]) + more;
      assert ts == SampleTokens(ss[0]) + tail;
      SampleRead(ts, ss[0], p, cat, tail);
      assert SamplesFit(ss[1..], cat);
      SamplesRead(tail, ss[1..], Applied(p, ss[0], cat), cat, more);
    }
  }

  /** A recorded frame is read back as its pose, up to where the next number or the end follows. */
  lemma RecordRead(ts: seq<Token>, r: Record, cat: Catalog, more: seq<Token>)
    requires RecordFits(r, cat) && ts == RecordTokens(r) + more
    requires more == [] || more[0].Num?
    ensures FrameOf(ts, cat) == Ok((PoseOf(r, cat), more))
  {
    assert ts[1..] == SamplesTokens(r.samples) + more;
    SamplesRead(ts[1..], r.samples, RestPose.(frame := r.number.value), cat, more);
  }

  /**
   * Recorded frames are read back one pose each, in order; what follows
   * them is read on from where they end.
   */
  lemma {:induction false} RecordsRead(ts: seq<Token>, rs: seq<Record>, cat: Catalog, more: seq<Token>)
    requires RecordsFit(rs, cat) && ts == RecordsTokens(rs) + more
    requires more == [] || more[0].Num?
    ensures Frames(ts, cat) == Clip(PosesOf(rs, cat) + Frames(more, cat).poses, Frames(more, cat).error)
    decreases |rs|
  {
    if rs == [] {
      assert ts == more;
    } else {
      var tail := RecordsTokens(rs[1..]) + more;
      assert ts == RecordTokens(rs[0]) + tail;
      assert RecordsFit(rs[1..], cat);
      RecordRead(ts, rs[0], cat, tail);
      FrameStep(ts, PoseOf(rs[0], cat), tail, cat);
      RecordsRead(tail, rs[1..], cat, more);
      ConsAppend(PoseOf(rs[0], cat), PosesOf(rs[1..], cat), Frames(more, cat).poses);
    }
  }

  /**
   * A well-formed recording is read back whole: one pose per frame, in
   * order, each with the recorded values, and no error.
   */
  lemma FramesRead(rs: seq<Record>, cat: Catalog)
    requires RecordsFit(rs, cat)
    ensures Frames(RecordsTokens(rs), cat) == Clip(PosesOf(rs, cat), None)
  {
    assert RecordsTokens(rs) == RecordsTokens(rs) + [];
    RecordsRead(RecordsTokens(rs), rs, cat, []);
    assert PosesOf(rs, cat) + [] == PosesOf(rs, cat);
  }

  /**
   * A frame that names a bone the skeleton does not have, after bone lines
   * that fit, stops the load: the frames before it are kept, it is not.
   */
  lemma UnknownBoneRead(rs: seq<Record>, bad: Record, name: string, cat: Catalog, more: seq<Token>)
    requires RecordsFit(rs, cat) && RecordFits(bad, cat)
    requires name != "root" && name !in cat
    ensures Frames(RecordsTokens(rs) + RecordTokens(bad) + [Word(name)] + more, cat)
      == Clip(PosesOf(rs, cat), Some(UnknownBone(name)))
  {
    var after := RecordTokens(bad) + ([Word(name)] + more);
    assert RecordsTokens(rs) + RecordTokens(bad) + [Word(name)] + more == RecordsTokens(rs) + after;
    RecordsRead(RecordsTokens(rs) + after, rs, cat, after);
    BadFrameRead(bad, name, cat, more);
    assert PosesOf(rs, cat) + [] == PosesOf(rs, cat);
  }

  /** The frame itself: its fitting bone lines are read, then the unknown name stops the load. */
  lemma BadFrameRead(bad: Record, name: string, cat: Catalog, more: seq<Token>)
    requires RecordFits(bad, cat) && name != "root" && name !in cat
    ensures Frames(RecordTokens(bad) + ([Word(name)] + more), cat) == Clip([], Some(UnknownBone(name)))
  {
    var ts := RecordTokens(bad) + ([Word(name)] + more);
    assert ts[1..] == SamplesTokens(bad.samples) + ([Word(name)] + more);
    SamplesRead(ts[1..], bad.samples, RestPose.(frame := bad.number.value), cat, [Word(name)] + more);
    assert ([Word(name)] + more)[1..] == more;
  }

  /*
   * The header
   */

  /** The tokens ahead of the start of line `k`: those of line `k` and every line after it. */
  lemma LinesAhead(lines: seq<seq<Token>>, k: nat)
    requires k <= |lines|
    ensures Rest(Position(lines, k, 0)) == Flatten(lines[k..])
  {
    if k < |lines| {
      assert lines[k..][1..] == lines[k + 1..];
      assert lines[k][0..] == lines[k];
    }
  }

  /** Lines that start with '#' or ':' are header lines. */
  predicate HeaderLines(hs: seq<seq<Token>>)
  {
    forall j :: 0 <= j < |hs| ==> hs[j] != [] && (StartsWith(hs[j][0], '#') || StartsWith(hs[j][0], ':'))
  }

  /** The header reader skips the header lines, from line `k` on, whole. */
  lemma {:induction false} HeaderSkipped(lines: seq<seq<Token>>, k: nat, n: nat)
    requires k <= n <= |lines| && HeaderLines(lines[k..n])
    ensures Header(Position(lines, k, 0)) == Header(Position(lines, n, 0))
    decreases n - k
  {
    if k < n {
      assert lines[k..n][0] == lines[k];
      assert lines[k + 1..n] == lines[k..n][1..];
      HeaderSkipped(lines, k + 1, n);
    }
  }

  /**
   * An AMC file, header lines first, whose remaining tokens lay out a
   * well-formed recording is read back as exactly the recorded poses, in
   * order, however those tokens are split into lines.
   */
  lemma AmcRead(hs: seq<seq<Token>>, body: seq<seq<Token>>, rs: seq<Record>, cat: Catalog)
    requires HeaderLines(hs) && RecordsFit(rs, cat) && Flatten(body) == RecordsTokens(rs)
    ensures Amc(hs + body, cat) == Clip(PosesOf(rs, cat), None)
  {
    var lines := hs + body;
    assert lines[0..|hs|] == hs;
    HeaderSkipped(lines, 0, |hs|);
    var c: Cursor := Position(lines, |hs|, 0);
    assert lines[|hs|..] == body;
    LinesAhead(lines, |hs|);
    StreamView(c);
    assert Header(c) == c;
    FramesRead(rs, cat);
  }
}
