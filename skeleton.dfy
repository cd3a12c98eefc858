/**
 * The ASF skeleton reader (`Skeleton.loadFromASF` and its section readers)
 * and the skeleton's bone registry.
 *
 * Every reader loop is given twice.  As pure functions: an entry function
 * says what one pass of the loop consumes and finds, and a section
 * function runs entries until the loop would stop.  As methods of
 * `Skeleton` that drive a `StringParser` the way the source does, each
 * proved to do exactly what the functions say.
 */
module Skeletons {
  import opened Geometry
  import opened StringParsing
  import opened Bones

  /**
   * How a reader finishes: normally, after logging an error and returning
   * (its caller carries on), or by abandoning the whole load.
   */
  datatype Outcome = Completed | Reported(message: string) | Fatal(error: ParseError)

  /** A loader class's static `numLoading`: loads started and not yet finished. */
  class LoadCounter {
    var numLoading: int

    constructor()
      ensures numLoading == 0
    {
      numLoading := 0;
    }

    /** `finishedLoading()` */
    function FinishedLoading(): bool
      reads this
    {
      numLoading == 0
    }
  }

  /*
   * Shared readers
   */

  /** Three `readNumber()` calls in a row, as an x, y, z triple. */
  function Number3(c: Cursor): (r: Result<(Vec3, Cursor)>)
    ensures r.Ok? ==> Beyond(c, r.value.1)
  {
    var x :- NumberOf(c);
    var y :- NumberOf(x.1);
    var z :- NumberOf(y.1);
    Ok((Vec3(x.0, y.0, z.0), z.1))
  }

  /**
   * A triple is read exactly when the next three tokens are numbers; it
   * holds their values and consumes those three tokens and no more.
   */
  lemma Number3Reads(c: Cursor)
    ensures Number3(c).Ok? <==> |Rest(c)| >= 3 && Rest(c)[0].Num? && Rest(c)[1].Num? && Rest(c)[2].Num?
    ensures Number3(c).Ok? ==>
      && Number3(c).value.0 == Vec3(Rest(c)[0].value, Rest(c)[1].value, Rest(c)[2].value)
      && Rest(Number3(c).value.1) == Rest(c)[3..]
  {
    StreamView(c);
    if !IsDone(c) && PeekOf(c).Num? {
      var c1 := Next(c);
      StreamView(c1);
      if !IsDone(c1) && PeekOf(c1).Num? {
        StreamView(Next(c1));
      }
    }
  }

  method ReadVec(parser: StringParser) returns (r: Result<Vec3>)
    modifies parser
    ensures Number3(old(parser.cur)).Ok? ==>
      r == Ok(Number3(old(parser.cur)).value.0) && parser.cur == Number3(old(parser.cur)).value.1
    ensures Number3(old(parser.cur)).Fail? ==> r == Fail(Number3(old(parser.cur)).error)
  {
    var x := parser.ReadNumber();
    if x.Fail? {
      return Fail(x.error);
    }
    var y := parser.ReadNumber();
    if y.Fail? {
      return Fail(y.error);
    }
    var z := parser.ReadNumber();
    if z.Fail? {
      return Fail(z.error);
    }
    r := Ok(Vec3(x.value, y.value, z.value));
  }

  /** The chain of `expect` calls after `order`, one per channel, stopping at the first mismatch. */
  method ExpectChannels(parser: StringParser) returns (ok: bool)
    modifies parser
    ensures (ok, parser.cur) == ExpectAll(old(parser.cur), Channels)
  {
    ghost var goal := ExpectAll(parser.cur, Channels);
    ok := ExpectThen(parser, true, Channels, goal);       // TX
    ok := ExpectThen(parser, ok, Channels[1..], goal);    // TY
    ok := ExpectThen(parser, ok, Channels[2..], goal);    // TZ
    ok := ExpectThen(parser, ok, Channels[3..], goal);    // RX
    ok := ExpectThen(parser, ok, Channels[4..], goal);    // RY
    ok := ExpectThen(parser, ok, Channels[5..], goal);    // RZ
  }

  /**
   * One link of an `expect` chain: the first of `ws` is expected only while
   * every earlier word matched.  `goal` is what the whole chain yields, and
   * it is what the words still ahead yield from here.
   */
  method ExpectThen(parser: StringParser, ok: bool, ws: seq<string>, ghost goal: (bool, Cursor))
    returns (ok': bool)
    requires ws != []
    requires goal == if ok then ExpectAll(parser.cur, ws) else (false, parser.cur)
    modifies parser
    ensures goal == if ok' then ExpectAll(parser.cur, ws[1..]) else (false, parser.cur)
  {
    ok' := ok;
    if ok {
      ok' := parser.Expect(ws[0]);
    }
  }

  /** The three `expect` calls after `dof`. */
  method ReadDofs(parser: StringParser) returns (d: Dofs)
    modifies parser
    ensures (d, parser.cur) == DofsOf(old(parser.cur))
  {
    var rx := parser.Expect("rx");
    var ry := parser.Expect("ry");
    var rz := parser.Expect("rz");
    d := Dofs(rx, ry, rz);
  }

  /** The lines a `limits` entry discards: one per enabled axis. */
  method SkipLimits(parser: StringParser, dofs: Dofs)
    modifies parser
    ensures parser.cur == SkipLines(old(parser.cur), DofCount(dofs))
  {
    ghost var c := parser.cur;
    if dofs.rx {
      parser.ConsumeLine();
    }
    assert parser.cur == SkipLines(c, if dofs.rx then 1 else 0);
    if dofs.ry {
      parser.ConsumeLine();
    }
    assert parser.cur == SkipLines(c, (if dofs.rx then 1 else 0) + (if dofs.ry then 1 else 0));
    if dofs.rz {
      parser.ConsumeLine();
    }
  }

  /*
   * :units
   */

  const UnitKeys := {"mass", "length", "angle"}

  /** One pass of `parseUnits`' loop: stop, or go on from `cursor`, with the verdict of an `angle` entry. */
  datatype UnitsStep = UnitsStop | UnitsGo(cursor: Cursor, angle: Option<bool>)

  function UnitsEntry(c: Cursor): (s: UnitsStep)
    ensures s.UnitsStop? <==> IsDone(c) || PeekOf(c).text !in UnitKeys
    ensures s.UnitsGo? ==> Beyond(c, s.cursor)
  {
    if IsDone(c) then UnitsStop
    else
      var key := PeekOf(c).text;
      var c1 := Next(c);
      if key == "mass" || key == "length" then UnitsGo(NextLine(c1), None)
      else if key == "angle" then UnitsGo(Next(c1), Some(PeekOf(c1).text == "deg"))
      else UnitsStop
  }

  /**
   * An `angle` entry decides the unit: `deg` turns degrees on and any
   * other word (or none) turns them off; `mass` and `length` entries skip
   * the rest of their line and decide nothing.
   */
  lemma UnitsEntryReads(c: Cursor)
    requires Rest(c) != []
    ensures var ts := Rest(c);
      && (ts[0].text == "angle" ==>
            && UnitsEntry(c).UnitsGo?
            && UnitsEntry(c).angle == Some(|ts| > 1 && ts[1].text == "deg")
            && Rest(UnitsEntry(c).cursor) == ts[if |ts| > 1 then 2 else 1..])
      && (ts[0].text in {"mass", "length"} ==> UnitsEntry(c) == UnitsGo(NextLine(Next(c)), None))
  {
    StreamView(c);
    StreamView(Next(c));
    if !IsDone(Next(c)) {
      assert Rest(c)[2..] == Rest(c)[1..][1..];
    }
  }

  /** What `parseUnits` finds: the verdict of the last `angle` entry, if any, and where it stops. */
  datatype UnitsSection = UnitsSection(angle: Option<bool>, cursor: Cursor)

  function Units(c: Cursor, angle: Option<bool>): (r: UnitsSection)
    ensures NotBefore(c, r.cursor)
    ensures IsDone(r.cursor) || PeekOf(r.cursor).text !in UnitKeys
    ensures angle.Some? ==> r.angle.Some?
    decreases |c.lines| - c.row, Width(c) - c.col
  {
    match UnitsEntry(c)
    case UnitsStop => UnitsSection(angle, c)
    case UnitsGo(c1, a) => Units(c1, if a.Some? then a else angle)
  }

  /*
   * :root
   */

  const RootKeys := {"order", "axis", "position", "orientation"}

  /** The channel order `order` must list. */
  const Channels := ["TX", "TY", "TZ", "RX", "RY", "RZ"]

  const OrderMessage := "Error: order not in the order expected"
  const RootAxisMessage := "Error: axis not in the order expected"

  /**
   * One pass of `parseRoot`'s loop: stop at `cursor` with an outcome, or go
   * on from `cursor` with the root position (in metres) or orientation the
   * entry set, if it set one.
   */
  datatype RootStep =
    | RootStop(cursor: Cursor, outcome: Outcome)
    | RootGo(cursor: Cursor, position: Option<Vec3>, orientation: Option<Rotation>)

  function RootEntry(c: Cursor): (s: RootStep)
    ensures NotBefore(c, s.cursor)
    ensures s.RootGo? ==> Beyond(c, s.cursor)
    ensures s.RootStop? && s.outcome.Completed? <==> IsDone(c) || PeekOf(c).text !in RootKeys
    ensures s.RootStop? && s.outcome.Completed? ==> s.cursor == c
  {
    if IsDone(c) then RootStop(c, Completed)
    else
      var key := PeekOf(c).text;
      var c1 := Next(c);
      if key == "order" then
        var (ok, c2) := ExpectAll(c1, Channels);
        if ok then RootGo(c2, None, None) else RootStop(c2, Reported(OrderMessage))
      else if key == "axis" then
        var (ok, c2) := ExpectOf(c1, "XYZ");
        if ok then RootGo(c2, None, None) else RootStop(c2, Reported(RootAxisMessage))
      else if key == "position" then
        match Number3(c1)
        case Fail(e) => RootStop(c1, Fatal(e))
        case Ok((v, c2)) => RootGo(c2, Some(Scale(v, UnitScale)), None)
      else if key == "orientation" then
        match Number3(c1)
        case Fail(e) => RootStop(c1, Fatal(e))
        case Ok((v, c2)) => RootGo(c2, None, Some(Euler(v.x, v.y, v.z)))
      else RootStop(c, Completed)
  }

  /**
   * An `order` entry is accepted exactly when the next six tokens spell
   * `TX TY TZ RX RY RZ`; otherwise the reader reports the error and
   * returns, having consumed only the channels that did match.
   */
  lemma RootOrder(c: Cursor)
    requires !IsDone(c) && PeekOf(c).text == "order"
    ensures var ts := Rest(Next(c));
      var k := MatchLen(ts, Channels);
      var s := RootEntry(c);
      && (s.RootGo? <==> k == |Channels|)
      && (s.RootStop? ==> s.outcome == Reported(OrderMessage))
      && Rest(s.cursor) == ts[k..]
  {
    ExpectAllSpells(Next(c), Channels);
  }

  /** What `parseRoot` finds: the last position and orientation it set, if any, where it stops and how. */
  datatype RootSection = RootSection(position: Option<Vec3>, orientation: Option<Rotation>, cursor: Cursor, outcome: Outcome)

  function Root(c: Cursor, position: Option<Vec3>, orientation: Option<Rotation>): (r: RootSection)
    ensures NotBefore(c, r.cursor)
    ensures r.outcome.Completed? ==> IsDone(r.cursor) || PeekOf(r.cursor).text !in RootKeys
    ensures r.outcome.Reported? ==> r.outcome.message in {OrderMessage, RootAxisMessage}
    decreases |c.lines| - c.row, Width(c) - c.col
  {
    match RootEntry(c)
    case RootStop(c1, outcome) =>
      assert outcome.Reported? ==> outcome.message in {OrderMessage, RootAxisMessage};
      RootSection(position, orientation, c1, outcome)
    case RootGo(c1, p, o) => Root(c1, if p.Some? then p else position, if o.Some? then o else orientation)
  }

  /*
   * :bonedata
   */

  const AxisMessage := "Error: bone axis not in the order expected"

  /** The rotation an `axis` entry gives, its angles converted to radians when the file is in degrees. */
  function AxisRotation(v: Vec3, degrees: bool): Rotation
  {
    if degrees then Euler(Radians(v.x), Radians(v.y), Radians(v.z)) else Euler(v.x, v.y, v.z)
  }

  /**
   * One pass of the loop inside a `begin … end` block: stop at `cursor`
   * with an outcome, or go on from `cursor` with the bone updated, and the
   * name it was registered under if the entry was `name`.
   */
  datatype BlockStep =
    | BlockStop(cursor: Cursor, outcome: Outcome)
    | BlockGo(cursor: Cursor, bone: BoneValue, name: Option<string>)

  function BlockEntry(c: Cursor, degrees: bool, b: BoneValue): (s: BlockStep)
    ensures NotBefore(c, s.cursor)
    ensures s.BlockGo? ==> Beyond(c, s.cursor)
    ensures s.BlockStop? && s.outcome.Reported? ==> s.outcome.message == AxisMessage
  {
    var key := PeekOf(c).text;
    var c1 := Next(c);
    if !IsDone(c) && key == "end" then BlockStop(c1, Completed)
    else if !IsDone(c) && key == "id" then BlockGo(NextLine(c1), b, None)
    else if !IsDone(c) && key == "name" then
      var name := PeekOf(c1).text;
      BlockGo(Next(c1), b.(name := name), Some(name))
    else FieldEntry(c, degrees, b)
  }

  /**
   * The entries that set one of the bone's fields from the words that
   * follow them; any other token is one the loop cannot get past.
   */
  function FieldEntry(c: Cursor, degrees: bool, b: BoneValue): (s: BlockStep)
    ensures NotBefore(c, s.cursor)
    ensures s.BlockGo? ==> Beyond(c, s.cursor) && s.name.None?
    ensures s.BlockStop? && s.outcome.Reported? ==> s.outcome.message == AxisMessage
  {
    var key := PeekOf(c).text;
    var c1 := Next(c);
    if !IsDone(c) && key == "direction" then DirectionEntry(c1, b)
    else if !IsDone(c) && key == "length" then LengthEntry(c1, b)
    else if !IsDone(c) && key == "axis" then AxisEntry(c1, degrees, b)
    else DofFieldEntry(c, b)
  }

  /** `dof` and `limits`, the entries about the bone's degrees of freedom, and the token no entry accepts. */
  function DofFieldEntry(c: Cursor, b: BoneValue): (s: BlockStep)
    ensures NotBefore(c, s.cursor)
    ensures s.BlockGo? ==> Beyond(c, s.cursor) && s.name.None?
    ensures s.BlockStop? ==> s.outcome.Fatal?
  {
    var key := PeekOf(c).text;
    var c1 := Next(c);
    if !IsDone(c) && key == "dof" then
      var (d, c2) := DofsOf(c1);
      BlockGo(c2, b.(dofs := d), None)
    else if !IsDone(c) && key == "limits" then BlockGo(SkipLines(c1, DofCount(b.dofs)), b, None)
    else BlockStop(c, Fatal(NoProgress(PeekOf(c))))
  }

  /** The three numbers after `direction`. */
  function DirectionEntry(c1: Cursor, b: BoneValue): (s: BlockStep)
    ensures NotBefore(c1, s.cursor)
    ensures s.BlockGo? ==> s.name.None?
  {
    match Number3(c1)
    case Fail(e) => BlockStop(c1, Fatal(e))
    case Ok((v, c2)) => BlockGo(c2, b.(direction := v), None)
  }

  /** The number after `length`, converted to metres. */
  function LengthEntry(c1: Cursor, b: BoneValue): (s: BlockStep)
    ensures NotBefore(c1, s.cursor)
    ensures s.BlockGo? ==> s.name.None?
  {
    match NumberOf(c1)
    case Fail(e) => BlockStop(c1, Fatal(e))
    case Ok((x, c2)) => BlockGo(c2, b.(length := x * UnitScale), None)
  }

  /** The three angles after `axis` and the `XYZ` that must follow them. */
  function AxisEntry(c1: Cursor, degrees: bool, b: BoneValue): (s: BlockStep)
    ensures NotBefore(c1, s.cursor)
    ensures s.BlockGo? ==> s.name.None?
    ensures s.BlockStop? && s.outcome.Reported? ==> s.outcome.message == AxisMessage
  {
    match Number3(c1)
    case Fail(e) => BlockStop(c1, Fatal(e))
    case Ok((v, c2)) =>
      var (ok, c3) := ExpectOf(c2, "XYZ");
      if ok then
        var rot := AxisRotation(v, degrees);
        BlockGo(c3, b.(rotationToBoneSpace := rot, boneToRotationSpace := Inverse(rot)), None)
      else BlockStop(c3, Reported(AxisMessage))
  }

  /** How a method that ran one block entry left the parser, the bone and its verdict: as the step says. */
  ghost predicate Stepped(s: BlockStep, stop: Option<Outcome>, cur: Cursor, before: BoneValue, after: BoneValue)
  {
    match s
    case BlockStop(c1, outcome) => stop == Some(outcome) && (!outcome.Fatal? ==> cur == c1) && after == before
    case BlockGo(c1, b1, _) => stop.None? && cur == c1 && after == b1
  }

  /** The words after `dof`: `expect('rx')`, `expect('ry')`, `expect('rz')` in turn. */
  function DofsOf(c: Cursor): (r: (Dofs, Cursor))
    ensures NotBefore(c, r.1)
  {
    var (rx, c1) := ExpectOf(c, "rx");
    var (ry, c2) := ExpectOf(c1, "ry");
    var (rz, c3) := ExpectOf(c2, "rz");
    (Dofs(rx, ry, rz), c3)
  }

  /**
   * A `dof` entry enables an axis exactly when its word follows, in the
   * order `rx ry rz`; a word out of that order is left unconsumed.
   */
  lemma DofEntry(c: Cursor)
    ensures var ws := Rest(c);
      var rx := |ws| > 0 && ws[0].text == "rx";
      var ws1 := if rx then ws[1..] else ws;
      var ry := |ws1| > 0 && ws1[0].text == "ry";
      var ws2 := if ry then ws1[1..] else ws1;
      var rz := |ws2| > 0 && ws2[0].text == "rz";
      && DofsOf(c).0 == Dofs(rx, ry, rz)
      && Rest(DofsOf(c).1) == (if rz then ws2[1..] else ws2)
  {
    StreamView(c);
    var c1 := ExpectOf(c, "rx").1;
    StreamView(c1);
    var c2 := ExpectOf(c1, "ry").1;
    StreamView(c2);
  }

  /** A `limits` entry skips one line per axis enabled so far and changes nothing else. */
  lemma LimitsEntry(c: Cursor, degrees: bool, b: BoneValue)
    requires !IsDone(c) && PeekOf(c).text == "limits" && Next(c).row + DofCount(b.dofs) <= |c.lines|
    ensures var s := BlockEntry(c, degrees, b);
      && s == BlockGo(s.cursor, b, None)
      && (b.dofs == NoDofs ==> s.cursor == Next(c))
      && (b.dofs != NoDofs ==> s.cursor == Position(c.lines, Next(c).row + DofCount(b.dofs), 0))
  {
  }

  /**
   * One `begin … end` block of `:bonedata`: the bone it built, every name
   * it registered that bone under (in order), where it stopped and how.
   */
  datatype Block = Block(bone: BoneValue, names: seq<string>, cursor: Cursor, outcome: Outcome)

  function BlockBody(c: Cursor, degrees: bool, b: BoneValue, names: seq<string>): (r: Block)
    ensures NotBefore(c, r.cursor)
    ensures r.outcome.Reported? ==> r.outcome.message == AxisMessage
    decreases |c.lines| - c.row, Width(c) - c.col
  {
    match BlockEntry(c, degrees, b)
    case BlockStop(c1, outcome) => Block(b, names, c1, outcome)
    case BlockGo(c1, b1, name) => BlockBody(c1, degrees, b1, if name.Some? then names + [name.value] else names)
  }

  /** What `parseBoneData` finds: its blocks in file order, where it stops and how. */
  datatype BoneSection = BoneSection(blocks: seq<Block>, cursor: Cursor, outcome: Outcome)

  function BoneData(c: Cursor, degrees: bool, blocks: seq<Block>): (r: BoneSection)
    ensures NotBefore(c, r.cursor)
    ensures r.outcome.Completed? ==> IsDone(r.cursor) || PeekOf(r.cursor).text != "begin"
    decreases |c.lines| - c.row, Width(c) - c.col
  {
    var (more, c1) := ExpectOf(c, "begin");
    if !more then BoneSection(blocks, c, Completed)
    else
      var blk := BlockBody(c1, degrees, NewBone, []);
      if blk.outcome.Completed? then BoneData(blk.cursor, degrees, blocks + [blk])
      else BoneSection(blocks + [blk], blk.cursor, blk.outcome)
  }

  /** Every name the blocks registered a bone under. */
  function BlockNames(blocks: seq<Block>): (r: set<string>)
    ensures forall i, n :: 0 <= i < |blocks| && n in blocks[i].names ==> n in r
  {
    if blocks == [] then {}
    else
      var last := blocks[|blocks| - 1].names;
      BlockNames(blocks[..|blocks| - 1]) + (set n | n in last)
  }

  /** A name is among the blocks' names only when some block lists it. */
  lemma {:induction false} BlockNamesListed(blocks: seq<Block>, n: string) returns (i: nat)
    requires n in BlockNames(blocks)
    ensures i < |blocks| && n in blocks[i].names
  {
    var k := |blocks| - 1;
    if n in blocks[k].names {
      i := k;
    } else {
      i := BlockNamesListed(blocks[..k], n);
    }
  }

  /**
   * The registry after `bones.set(n, bone)` for each `n` in `names`, in
   * order: each of those names maps to `bone`, every other entry is kept.
   */
  function Register(m: map<string, Bone>, names: seq<string>, bone: Bone): (r: map<string, Bone>)
    ensures r.Keys == m.Keys + (set n | n in names)
    ensures forall n :: n in names ==> r[n] == bone
    ensures forall n :: n in m && n !in names ==> r[n] == m[n]
  {
    if names == [] then m else Register(m, names[..|names| - 1], bone)[names[|names| - 1] := bone]
  }

  /**
   * The registry after each block's bone (`created[i]` for block `i`) is
   * registered under that block's names, block by block.
   */
  function RegisterAll(m: map<string, Bone>, blocks: seq<Block>, created: seq<Bone>): (r: map<string, Bone>)
    requires |created| == |blocks|
    ensures r.Keys == m.Keys + BlockNames(blocks)
    ensures forall n :: n in r ==> r[n] in created || (n in m && r[n] == m[n])
  {
    if blocks == [] then m
    else
      var k := |blocks| - 1;
      var prior := RegisterAll(m, blocks[..k], created[..k]);
      var r := Register(prior, blocks[k].names, created[k]);
      assert forall n :: n in r ==> r[n] == created[k] || (n in prior && r[n] == prior[n]);
      assert forall b :: b in created[..k] ==> b in created;
      r
  }

  /** A repeated name maps to the bone of the last block that uses it: the later entry replaces the earlier. */
  lemma {:induction false} RegisterAllLast(m: map<string, Bone>, blocks: seq<Block>, created: seq<Bone>, i: nat, n: string)
    requires |created| == |blocks| && i < |blocks| && n in blocks[i].names
    requires forall j :: i < j < |blocks| ==> n !in blocks[j].names
    ensures n in RegisterAll(m, blocks, created) && RegisterAll(m, blocks, created)[n] == created[i]
    decreases |blocks|
  {
    var k := |blocks| - 1;
    var prior := RegisterAll(m, blocks[..k], created[..k]);
    var r := Register(prior, blocks[k].names, created[k]);
    assert RegisterAll(m, blocks, created) == r;
    if i < k {
      assert n !in blocks[k].names;
      RegisterAllLast(m, blocks[..k], created[..k], i, n);
      assert n in prior && r[n] == prior[n];
    }
  }

  /*
   * :hierarchy
   */

  /** One `parent child` pair from a hierarchy line. */
  datatype Edge = Edge(parent: string, child: string)

  /** A pair whose parent is `root` or a registered name. */
  predicate ParentKnown(e: Edge, declared: set<string>)
  {
    e.parent == "root" || e.parent in declared
  }

  /** The pairs one hierarchy line lists: its parent with each child, in order. */
  function EdgesOf(parent: string, children: seq<Token>): (es: seq<Edge>)
    ensures |es| == |children|
    ensures forall i :: 0 <= i < |es| ==> es[i] == Edge(parent, children[i].text)
  {
    if children == [] then [] else EdgesOf(parent, children[..|children| - 1]) + [Edge(parent, children[|children| - 1].text)]
  }

  /**
   * One line of `parseHierarchy`'s loop: stop at `cursor` with an outcome,
   * or go on from `cursor` having applied the line's pairs.
   */
  datatype LineStep =
    | LineStop(cursor: Cursor, outcome: Outcome)
    | LineGo(cursor: Cursor, edges: seq<Edge>)

  function HierarchyEntry(c: Cursor, declared: set<string>): (s: LineStep)
    ensures NotBefore(c, s.cursor)
    ensures s.LineGo? ==> Beyond(c, s.cursor)
    ensures s.LineStop? ==> !s.outcome.Reported?
    ensures s.LineGo? ==> forall e :: e in s.edges ==> ParentKnown(e, declared)
  {
    if IsDone(c) then LineStop(c, Fatal(NoProgress(PeekOf(c))))
    else if PeekOf(c).text == "end" then LineStop(Next(c), Completed)
    else
      var parent := PeekOf(c).text;
      var c1 := Next(c);
      var children := LineOf(c1);
      var c2 := NextLine(c1);
      if parent != "root" && parent !in declared && |children| > 0 then LineStop(c2, Fatal(UnknownBone(parent)))
      else LineGo(c2, EdgesOf(parent, children))
  }

  /**
   * A line pairs its first token with every other token on that line, in
   * order; an undeclared parent with children abandons the load.
   */
  lemma HierarchyEntryReads(c: Cursor, declared: set<string>)
    requires Rest(c) != [] && Rest(c)[0].text != "end"
    ensures var parent := Rest(c)[0].text;
      var children := LineOf(Next(c));
      var s := HierarchyEntry(c, declared);
      && (s.LineStop? <==> parent != "root" && parent !in declared && children != [])
      && (s.LineStop? ==> s.outcome == Fatal(UnknownBone(parent)))
      && (s.LineGo? ==> |s.edges| == |children| && forall i :: 0 <= i < |children| ==> s.edges[i] == Edge(parent, children[i].text))
  {
    StreamView(c);
  }

  /** What `parseHierarchy` finds: every pair it applied, in order, where it stops and how. */
  datatype HierarchySection = HierarchySection(edges: seq<Edge>, cursor: Cursor, outcome: Outcome)

  function HierarchyLines(c: Cursor, declared: set<string>, edges: seq<Edge>): (r: HierarchySection)
    ensures NotBefore(c, r.cursor)
    ensures !r.outcome.Reported?
    ensures (forall e :: e in edges ==> ParentKnown(e, declared)) ==> forall e :: e in r.edges ==> ParentKnown(e, declared)
    decreases |c.lines| - c.row, Width(c) - c.col
  {
    match HierarchyEntry(c, declared)
    case LineStop(c1, outcome) => HierarchySection(edges, c1, outcome)
    case LineGo(c1, es) => HierarchyLines(c1, declared, edges + es)
  }

  function Hierarchy(c: Cursor, declared: set<string>): (r: HierarchySection)
    ensures r.outcome.Reported? <==> IsDone(c) || PeekOf(c).text != "begin"
    ensures r.outcome.Reported? ==> r.edges == [] && r.cursor == c
    ensures NotBefore(c, r.cursor)
    ensures forall e :: e in r.edges ==> ParentKnown(e, declared)
  {
    var (ok, c1) := ExpectOf(c, "begin");
    if ok then HierarchyLines(c1, declared, [])
    else HierarchySection([], c, Reported("Error: reading hierarchy, expected begin, found " + PeekOf(c).text))
  }

  /** `bones.get(name)`, with `null` for the source's `undefined`. */
  function Lookup(m: map<string, Bone>, name: string): Bone?
  {
    if name in m then m[name] else null
  }

  /** The bones the pairs push onto `rootBones`, in order: the children listed under `root`. */
  function RootsAdded(m: map<string, Bone>, edges: seq<Edge>): (r: seq<Bone?>)
    ensures |r| <= |edges|
  {
    if edges == [] then []
    else
      var e := edges[|edges| - 1];
      RootsAdded(m, edges[..|edges| - 1]) + (if e.parent == "root" then [Lookup(m, e.child)] else [])
  }

  /** The bones the pairs push onto `b.children`, in order: the children listed under a name `b` is registered under. */
  function ChildrenAdded(m: map<string, Bone>, edges: seq<Edge>, b: Bone): (r: seq<Bone?>)
    ensures |r| <= |edges|
  {
    if edges == [] then []
    else
      var e := edges[|edges| - 1];
      ChildrenAdded(m, edges[..|edges| - 1], b)
        + (if e.parent != "root" && e.parent in m && m[e.parent] == b then [Lookup(m, e.child)] else [])
  }

  /** How many of the pairs name `root` as parent. */
  function RootCount(edges: seq<Edge>): nat
  {
    if edges == [] then 0 else RootCount(edges[..|edges| - 1]) + (if edges[|edges| - 1].parent == "root" then 1 else 0)
  }

  /**
   * Every pair lands exactly once: one listed under `root` in `rootBones`,
   * one listed under a registered name on that name's bone, so together
   * the bones gain one child or root entry per pair.
   */
  lemma {:induction false} EdgesLand(m: map<string, Bone>, edges: seq<Edge>, b: Bone)
    requires forall e :: e in edges ==> e.parent == "root" || e.parent in m
    ensures |RootsAdded(m, edges)| == RootCount(edges)
    ensures (forall e :: e in edges ==> e.parent == "root" || m[e.parent] == b) ==>
      |RootsAdded(m, edges)| + |ChildrenAdded(m, edges, b)| == |edges|
  {
    if edges != [] {
      var k := |edges| - 1;
      assert forall e :: e in edges[..k] ==> e in edges;
      EdgesLand(m, edges[..k], b);
    }
  }

  /*
   * :documentation and the top level
   */

  /** `:documentation`: whole lines up to the next token that starts with ':' or the end. */
  function Documentation(c: Cursor): (d: Cursor)
    ensures NotBefore(c, d)
    ensures IsDone(d) || StartsWith(PeekOf(d), ':')
    decreases |c.lines| - c.row
  {
    if IsDone(c) || StartsWith(PeekOf(c), ':') then c else Documentation(NextLine(c))
  }

  /** The top-level words that start a section. */
  const SectionWords := {":units", ":root", ":bonedata", ":hierarchy", ":version", ":name", ":documentation"}

  /**
   * What one pass of `loadFromASF`'s loop read, as far as the skeleton it
   * builds is concerned: a skipped comment or section, or what a section
   * reader found.
   */
  datatype Section =
    | Skipped
    | UnitsRead(angle: Option<bool>)
    | RootRead(position: Option<Vec3>, orientation: Option<Rotation>)
    | BonesRead(blocks: seq<Block>)
    | HierarchyRead(edges: seq<Edge>)

  /**
   * One pass of `loadFromASF`'s loop: the end of the input, an error that
   * abandons the load, or the cursor, the registered names and the angle
   * unit to go on with, and what the pass read.  A section that only
   * reports an error goes on.
   */
  datatype AsfStep =
    | AsfDone
    | AsfFail(error: ParseError)
    | AsfGo(cursor: Cursor, declared: set<string>, degrees: bool, section: Section)

  function AsfEntry(c: Cursor, declared: set<string>, degrees: bool): (s: AsfStep)
    ensures s.AsfDone? <==> IsDone(c)
    ensures s.AsfGo? ==> Beyond(c, s.cursor) && declared <= s.declared
  {
    if IsDone(c) then AsfDone else SectionEntry(PeekOf(c), Next(c), declared, degrees)
  }

  /** The words that start a section with a reader of its own. */
  const ReaderWords := {":units", ":root", ":bonedata", ":hierarchy"}

  /** The top-level token `t` read, `c1` the cursor after it: a comment, a section, or an unknown token. */
  function SectionEntry(t: Token, c1: Cursor, declared: set<string>, degrees: bool): (s: AsfStep)
    ensures !s.AsfDone?
    ensures s.AsfGo? ==> NotBefore(c1, s.cursor) && declared <= s.declared
  {
    if Skips(t) then AsfGo(SkipTo(t, c1), declared, degrees, Skipped)
    else if t.text in ReaderWords then ReaderEntry(t.text, c1, declared, degrees)
    else AsfFail(UnknownToken(t))
  }

  /** A comment, `:version`, `:name` or `:documentation`: a section the load passes over. */
  predicate Skips(t: Token)
  {
    StartsWith(t, '#') || t.text == ":version" || t.text == ":name" || t.text == ":documentation"
  }

  /** Where passing over such a section after its token leaves the cursor: the rest of its line, or all of the documentation. */
  function SkipTo(t: Token, c1: Cursor): (c2: Cursor)
    ensures NotBefore(c1, c2)
  {
    if StartsWith(t, '#') || t.text == ":version" || t.text == ":name" then NextLine(c1) else Documentation(c1)
  }

  /** A section with a reader of its own: only a fatal outcome abandons the load. */
  function ReaderEntry(word: string, c1: Cursor, declared: set<string>, degrees: bool): (s: AsfStep)
    requires word in ReaderWords
    ensures !s.AsfDone?
    ensures s.AsfGo? ==> NotBefore(c1, s.cursor) && declared <= s.declared
  {
    if word == ":units" then
      var s := Units(c1, None);
      AsfGo(s.cursor, declared, if s.angle.Some? then s.angle.value else degrees, UnitsRead(s.angle))
    else if word == ":root" then
      var s := Root(c1, None, None);
      if s.outcome.Fatal? then AsfFail(s.outcome.error) else AsfGo(s.cursor, declared, degrees, RootRead(s.position, s.orientation))
    else if word == ":bonedata" then
      var s := BoneData(c1, degrees, []);
      if s.outcome.Fatal? then AsfFail(s.outcome.error)
      else AsfGo(s.cursor, declared + BlockNames(s.blocks), degrees, BonesRead(s.blocks))
    else
      var s := Hierarchy(c1, declared);
      if s.outcome.Fatal? then AsfFail(s.outcome.error) else AsfGo(s.cursor, declared, degrees, HierarchyRead(s.edges))
  }

  /** A whole run of the top-level loop: the error that abandoned it, if any, and the sections read before. */
  datatype AsfRun = AsfRun(error: Option<ParseError>, sections: seq<Section>)

  /**
   * The top-level loop from cursor `c`: its error is `None` when it reaches
   * the end of the input, the error that abandoned the load otherwise.
   */
  function Asf(c: Cursor, declared: set<string>, degrees: bool): (r: AsfRun)
    decreases |c.lines| - c.row, Width(c) - c.col
  {
    match AsfEntry(c, declared, degrees)
    case AsfDone => AsfRun(None, [])
    case AsfFail(e) => AsfRun(Some(e), [])
    case AsfGo(c1, d1, g1, s) =>
      var r := Asf(c1, d1, g1);
      AsfRun(r.error, [s] + r.sections)
  }

  /**
   * The loop stops at the first top-level token that is neither a comment
   * nor a section word, with that token as the error.
   */
  lemma UnknownTokenStops(c: Cursor, declared: set<string>, degrees: bool)
    requires Rest(c) != [] && !StartsWith(Rest(c)[0], '#') && Rest(c)[0].text !in SectionWords
    ensures Asf(c, declared, degrees) == AsfRun(Some(UnknownToken(Rest(c)[0])), [])
  {
    StreamView(c);
  }

  /** Comments and the `:version` and `:name` sections are skipped to the end of their line. */
  lemma SkippedLines(c: Cursor, declared: set<string>, degrees: bool)
    requires Rest(c) != []
    requires StartsWith(Rest(c)[0], '#') || Rest(c)[0].text in {":version", ":name"}
    ensures var r := Asf(NextLine(Next(c)), declared, degrees);
      Asf(c, declared, degrees) == AsfRun(r.error, [Skipped] + r.sections)
  {
    StreamView(c);
  }

  /** The fields of a Skeleton, as a value. */
  datatype SkeletonState = SkeletonState(
    usingDegrees: bool,
    bones: map<string, Bone>,
    loaded: bool,
    rootPosition: Vec3,
    rootRotation: Rotation,
    rootBones: seq<Bone?>)

  /**
   * What a load builds, as a value: the skeleton's fields, and the fields
   * and the children of each bone it knows of.
   */
  datatype Loaded = Loaded(skeleton: SkeletonState, values: map<Bone, BoneValue>, kids: map<Bone, seq<Bone?>>)

  /** The elements of a sequence of bones. */
  function BoneSet(bs: seq<Bone>): set<Bone>
  {
    set b | b in bs
  }

  /** No bone appears twice. */
  predicate NoneTwice(bs: seq<Bone>)
  {
    forall i, j :: 0 <= i < j < |bs| ==> bs[i] != bs[j]
  }

  /** How many new bones a section builds: one per block of a `:bonedata` section. */
  function SectionBones(s: Section): nat
  {
    if s.BonesRead? then |s.blocks| else 0
  }

  /** How many new bones the sections build together. */
  function BonesNeeded(ss: seq<Section>): nat
  {
    if ss == [] then 0 else BonesNeeded(ss[..|ss| - 1]) + SectionBones(ss[|ss| - 1])
  }

  /** The values of the bones built for the blocks, `created[i]` for block `i`. */
  function NewValues(blocks: seq<Block>, created: seq<Bone>): (r: map<Bone, BoneValue>)
    requires |created| == |blocks|
    ensures r.Keys == BoneSet(created)
  {
    if blocks == [] then map[]
    else
      var k := |blocks| - 1;
      NewValues(blocks[..k], created[..k])[created[k] := blocks[k].bone]
  }

  /** The children of the bones built for the blocks: none. */
  function NewKids(created: seq<Bone>): (r: map<Bone, seq<Bone?>>)
    ensures r.Keys == BoneSet(created)
  {
    map b | b in created :: []
  }

  /** With no bone built twice, each built bone holds its own block's values. */
  lemma {:induction false} NewValuesAt(blocks: seq<Block>, created: seq<Bone>, i: nat)
    requires |created| == |blocks| && NoneTwice(created) && i < |created|
    ensures NewValues(blocks, created)[created[i]] == blocks[i].bone
    decreases |blocks|
  {
    var k := |blocks| - 1;
    if i < k {
      NewValuesAt(blocks[..k], created[..k], i);
    }
  }

  /**
   * The state after one pass that read `s`, from state `w`, `created`
   * being the bones the pass built:
   * - `:units` sets the angle unit when the section names one;
   * - `:root` sets the root position and orientation the section gives;
   * - `:bonedata` registers one new bone per block, holding that block's
   *   values and no children;
   * - `:hierarchy` appends the children listed under `root` to the root
   *   bones, and those listed under a registered name to that bone's children.
   */
  function ApplySection(w: Loaded, s: Section, created: seq<Bone>): Loaded
    requires |created| == SectionBones(s)
  {
    var st := w.skeleton;
    match s
    case Skipped => w
    case UnitsRead(angle) => w.(skeleton := st.(usingDegrees := if angle.Some? then angle.value else st.usingDegrees))
    case RootRead(p, o) =>
      w.(skeleton := st.(
        rootPosition := if p.Some? then p.value else st.rootPosition,
        rootRotation := if o.Some? then o.value else st.rootRotation))
    case BonesRead(blocks) => AddBones(w, blocks, created)
    case HierarchyRead(edges) => AddEdges(w, edges)
  }

  /** A `:bonedata` pass: the new bones registered, each holding its block's values and no children. */
  function AddBones(w: Loaded, blocks: seq<Block>, created: seq<Bone>): Loaded
    requires |created| == |blocks|
  {
    Loaded(
      w.skeleton.(bones := RegisterAll(w.skeleton.bones, blocks, created)),
      w.values + NewValues(blocks, created),
      w.kids + NewKids(created))
  }

  /** A `:hierarchy` pass: the root bones and the children of each known bone extended by the pairs read. */
  function AddEdges(w: Loaded, edges: seq<Edge>): Loaded
  {
    var m := w.skeleton.bones;
    Loaded(
      w.skeleton.(rootBones := w.skeleton.rootBones + RootsAdded(m, edges)),
      w.values,
      map b | b in w.kids :: w.kids[b] + ChildrenAdded(m, edges, b))
  }

  /** The state after the sections, one after the other, `created` being the bones they built, in order. */
  function Apply(w: Loaded, ss: seq<Section>, created: seq<Bone>): Loaded
    requires |created| == BonesNeeded(ss)
  {
    if ss == [] then w
    else
      var k := |ss| - 1;
      var n := BonesNeeded(ss[..k]);
      ApplySection(Apply(w, ss[..k], created[..n]), ss[k], created[n..])
  }

  /** One more section applies after the ones before it. */
  lemma ApplySnoc(w: Loaded, ss: seq<Section>, created: seq<Bone>, s: Section, more: seq<Bone>)
    requires |created| == BonesNeeded(ss) && |more| == SectionBones(s)
    ensures BonesNeeded(ss + [s]) == |created + more|
    ensures Apply(w, ss + [s], created + more) == ApplySection(Apply(w, ss, created), s, more)
  {
    assert (ss + [s])[..|ss|] == ss;
    assert (created + more)[..|created|] == created;
    assert (created + more)[|created|..] == more;
  }

  /**
   * The values after a `:bonedata` pass, pointwise: the bones known before
   * keep theirs, and each new bone holds its block's values.
   */
  lemma NewValuesMap(tracked: set<Bone>, blocks: seq<Block>, created: seq<Bone>, before: map<Bone, BoneValue>, after: map<Bone, BoneValue>)
    requires |created| == |blocks| && NoneTwice(created)
    requires before.Keys == tracked && after.Keys == tracked + BoneSet(created)
    requires forall b :: b in tracked ==> b !in created && after[b] == before[b]
    requires forall i :: 0 <= i < |created| ==> after[created[i]] == blocks[i].bone
    ensures after == before + NewValues(blocks, created)
  {
    var nv := NewValues(blocks, created);
    forall b | b in after.Keys
      ensures after[b] == (before + nv)[b]
    {
      if b in tracked {
        assert b !in BoneSet(created);
      } else {
        var i :| 0 <= i < |created| && created[i] == b;
        NewValuesAt(blocks, created, i);
      }
    }
  }

  /** The children after a `:bonedata` pass, pointwise: the bones known before keep theirs, and the new bones have none. */
  lemma NewKidsMap(tracked: set<Bone>, created: seq<Bone>, before: map<Bone, seq<Bone?>>, after: map<Bone, seq<Bone?>>)
    requires before.Keys == tracked && after.Keys == tracked + BoneSet(created)
    requires forall b :: b in tracked ==> b !in created && after[b] == before[b]
    requires forall b :: b in created ==> after[b] == []
    ensures after == before + NewKids(created)
  {
    var nk := NewKids(created);
    forall b | b in after.Keys
      ensures after[b] == (before + nk)[b]
    {
      if b in tracked {
        assert b !in BoneSet(created);
      }
    }
  }

  /**
   * The state after a `:hierarchy` pass, pointwise: the skeleton gains its
   * root bones, each bone known before gains its children, and nothing else
   * changes.
   */
  lemma HierarchyValues(tracked: set<Bone>, edges: seq<Edge>, before: Loaded, after: Loaded)
    requires before.kids.Keys == tracked && after.kids.Keys == tracked
    requires after.values == before.values
    requires forall b :: b in tracked ==> after.kids[b] == before.kids[b] + ChildrenAdded(before.skeleton.bones, edges, b)
    requires after.skeleton == before.skeleton.(rootBones := before.skeleton.rootBones + RootsAdded(before.skeleton.bones, edges))
    ensures after == AddEdges(before, edges)
  {
  }

  /** A bone registered under no name receives no children. */
  lemma {:induction false} NoChildrenAdded(m: map<string, Bone>, edges: seq<Edge>, b: Bone)
    requires b !in m.Values
    ensures ChildrenAdded(m, edges, b) == []
  {
    if edges != [] {
      NoChildrenAdded(m, edges[..|edges| - 1], b);
    }
  }

  /**
   * The two views of a pass agree: the names and the angle unit the loop
   * goes on with are the registry's names and the angle unit of the state
   * the pass builds.
   */
  lemma SectionAgrees(c: Cursor, w: Loaded, created: seq<Bone>)
    requires AsfEntry(c, w.skeleton.bones.Keys, w.skeleton.usingDegrees).AsfGo?
    requires |created| == SectionBones(AsfEntry(c, w.skeleton.bones.Keys, w.skeleton.usingDegrees).section)
    ensures var s := AsfEntry(c, w.skeleton.bones.Keys, w.skeleton.usingDegrees);
      var w1 := ApplySection(w, s.section, created);
      w1.skeleton.bones.Keys == s.declared && w1.skeleton.usingDegrees == s.degrees
  {
    var t := PeekOf(c);
    if !Skips(t) {
      ReaderAgrees(t.text, Next(c), w, created);
    }
  }

  /** `SectionAgrees` for a section with a reader of its own. */
  lemma ReaderAgrees(word: string, c1: Cursor, w: Loaded, created: seq<Bone>)
    requires word in ReaderWords
    requires ReaderEntry(word, c1, w.skeleton.bones.Keys, w.skeleton.usingDegrees).AsfGo?
    requires |created| == SectionBones(ReaderEntry(word, c1, w.skeleton.bones.Keys, w.skeleton.usingDegrees).section)
    ensures var s := ReaderEntry(word, c1, w.skeleton.bones.Keys, w.skeleton.usingDegrees);
      var w1 := ApplySection(w, s.section, created);
      w1.skeleton.bones.Keys == s.declared && w1.skeleton.usingDegrees == s.degrees
  {
    if word == ":bonedata" {
      BonesAgree(c1, w, created);
    } else if word != ":units" && word != ":root" {
      HierarchyAgrees(c1, w);
    }
  }

  /** `SectionAgrees` for `:bonedata`: the names the loop goes on with are the registry's. */
  lemma BonesAgree(c1: Cursor, w: Loaded, created: seq<Bone>)
    requires ReaderEntry(":bonedata", c1, w.skeleton.bones.Keys, w.skeleton.usingDegrees).AsfGo?
    requires |created| == SectionBones(ReaderEntry(":bonedata", c1, w.skeleton.bones.Keys, w.skeleton.usingDegrees).section)
    ensures var s := ReaderEntry(":bonedata", c1, w.skeleton.bones.Keys, w.skeleton.usingDegrees);
      var w1 := ApplySection(w, s.section, created);
      w1.skeleton.bones.Keys == s.declared && w1.skeleton.usingDegrees == s.degrees
  {
    var b := BoneData(c1, w.skeleton.usingDegrees, []);
    assert ApplySection(w, BonesRead(b.blocks), created) == AddBones(w, b.blocks, created);
  }

  /** `SectionAgrees` for `:hierarchy`: the registry and the angle unit are left as they were. */
  lemma HierarchyAgrees(c1: Cursor, w: Loaded)
    requires ReaderEntry(":hierarchy", c1, w.skeleton.bones.Keys, w.skeleton.usingDegrees).AsfGo?
    ensures var s := ReaderEntry(":hierarchy", c1, w.skeleton.bones.Keys, w.skeleton.usingDegrees);
      var w1 := ApplySection(w, s.section, []);
      w1.skeleton.bones.Keys == s.declared && w1.skeleton.usingDegrees == s.degrees
  {
    var h := Hierarchy(c1, w.skeleton.bones.Keys);
    assert ApplySection(w, HierarchyRead(h.edges), []) == AddEdges(w, h.edges);
  }

  class Skeleton {
    var usingDegrees: bool
    var bones: map<string, Bone>
    var loaded: bool
    var rootPosition: Vec3
    var rootRotation: Rotation
    const rootTransform: Transform
    var rootBones: seq<Bone?>

    function State(): SkeletonState
      reads this
    {
      SkeletonState(usingDegrees, bones, loaded, rootPosition, rootRotation, rootBones)
    }

    /** The skeleton's fields, and the fields and the children of each bone in `tracked`. */
    ghost function Snapshot(tracked: set<Bone>): Loaded
      reads this, tracked
    {
      Loaded(State(), map b | b in tracked :: b.Value(), map b | b in tracked :: b.children)
    }

    /** A skeleton with no bones, its root node hung under `parent`. */
    constructor(parent: Transform)
      ensures State() == SkeletonState(false, map[], false, Origin, Identity, [])
      ensures fresh(rootTransform) && rootTransform.parent == parent
    {
      usingDegrees := false;
      bones := map[];
      loaded := false;
      rootPosition := Origin;
      rootRotation := Identity;
      rootBones := [];
      rootTransform := new Transform();
      new;
      rootTransform.parent := parent;
    }

    /** `getBone`: the bone registered under `name`, or `null` when there is none. */
    function GetBone(name: string): (b: Bone?)
      reads this
      ensures name in bones ==> b == bones[name]
      ensures name !in bones ==> b == null
    {
      Lookup(bones, name)
    }

    /** One pass of `parseUnits`' loop: whether an entry was read. */
    method ParseUnitsEntry(parser: StringParser) returns (go: bool)
      modifies this, parser
      ensures match UnitsEntry(old(parser.cur))
        case UnitsStop => !go && parser.cur == old(parser.cur) && State() == old(State())
        case UnitsGo(c1, a) =>
          && go
          && parser.cur == c1
          && State() == old(State()).(usingDegrees := if a.Some? then a.value else old(usingDegrees))
    {
      var skip := parser.Expect("mass");
      if !skip {
        skip := parser.Expect("length");
      }
      if skip {
        parser.ConsumeLine();
        return true;
      }
      var isAngle := parser.Expect("angle");
      if isAngle {
        var unit := parser.ReadToken();
        usingDegrees := unit.text == "deg";
        return true;
      }
      return false;
    }

    /** `parseUnits` */
    method ParseUnits(parser: StringParser)
      modifies this, parser
      ensures var r := Units(old(parser.cur), None);
        && parser.cur == r.cursor
        && State() == old(State()).(usingDegrees := if r.angle.Some? then r.angle.value else old(usingDegrees))
    {
      ghost var angle: Option<bool> := None;
      var done := false;
      while !done
        invariant Units(parser.cur, angle) == Units(old(parser.cur), None)
        invariant done ==> UnitsEntry(parser.cur).UnitsStop?
        invariant State() == old(State()).(usingDegrees := if angle.Some? then angle.value else old(usingDegrees))
        decreases !done, |parser.cur.lines| - parser.cur.row, Width(parser.cur) - parser.cur.col
      {
        ghost var c := parser.cur;
        var go := ParseUnitsEntry(parser);
        done := !go;
        if go && UnitsEntry(c).angle.Some? {
          angle := UnitsEntry(c).angle;
        }
      }
    }

    /** One pass of `parseRoot`'s loop. */
    method ParseRootEntry(parser: StringParser) returns (stop: Option<Outcome>)
      modifies this, parser
      ensures match RootEntry(old(parser.cur))
        case RootStop(c1, outcome) =>
          && stop == Some(outcome)
          && (!outcome.Fatal? ==> parser.cur == c1)
          && State() == old(State())
        case RootGo(c1, p, o) =>
          && stop.None?
          && parser.cur == c1
          && State() == old(State()).(
               rootPosition := if p.Some? then p.value else old(rootPosition),
               rootRotation := if o.Some? then o.value else old(rootRotation))
    {
      var isOrder := parser.Expect("order");
      if isOrder {
        var ok := ExpectChannels(parser);
        if !ok {
          return Some(Reported(OrderMessage));
        }
        return None;
      }
      var isAxis := parser.Expect("axis");
      if isAxis {
        var ok := parser.Expect("XYZ");
        if !ok {
          return Some(Reported(RootAxisMessage));
        }
        return None;
      }
      var isPosition := parser.Expect("position");
      if isPosition {
        var v := ReadVec(parser);
        if v.Fail? {
          return Some(Fatal(v.error));
        }
        // Convert from mocap units to metres
        rootPosition := Scale(v.value, UnitScale);
        return None;
      }
      var isOrientation := parser.Expect("orientation");
      if isOrientation {
        var v := ReadVec(parser);
        if v.Fail? {
          return Some(Fatal(v.error));
        }
        rootRotation := Euler(v.value.x, v.value.y, v.value.z);
        return None;
      }
      return Some(Completed);
    }

    /** `parseRoot` */
    method ParseRoot(parser: StringParser) returns (outcome: Outcome)
      modifies this, parser
      ensures var r := Root(old(parser.cur), None, None);
        && outcome == r.outcome
        && (!outcome.Fatal? ==> parser.cur == r.cursor)
        && State() == old(State()).(
             rootPosition := if r.position.Some? then r.position.value else old(rootPosition),
             rootRotation := if r.orientation.Some? then r.orientation.value else old(rootRotation))
    {
      ghost var position: Option<Vec3> := None;
      ghost var orientation: Option<Rotation> := None;
      while true
        invariant Root(parser.cur, position, orientation) == Root(old(parser.cur), None, None)
        invariant State() == old(State()).(
          rootPosition := if position.Some? then position.value else old(rootPosition),
          rootRotation := if orientation.Some? then orientation.value else old(rootRotation))
        decreases |parser.cur.lines| - parser.cur.row, Width(parser.cur) - parser.cur.col
      {
        ghost var c := parser.cur;
        var stop := ParseRootEntry(parser);
        if stop.Some? {
          return stop.value;
        }
        position := if RootEntry(c).position.Some? then RootEntry(c).position else position;
        orientation := if RootEntry(c).orientation.Some? then RootEntry(c).orientation else orientation;
      }
    }

    /**
     * One pass of the loop inside a bone block: applies one entry to
     * `bone`, registering it when the entry is `name`.
     */
    method ParseBoneEntry(parser: StringParser, bone: Bone) returns (stop: Option<Outcome>, ghost name: Option<string>)
      modifies this, parser, bone
      ensures match BlockEntry(old(parser.cur), usingDegrees, old(bone.Value()))
        case BlockStop(c1, outcome) =>
          && stop == Some(outcome)
          && (!outcome.Fatal? ==> parser.cur == c1)
          && bone.Value() == old(bone.Value())
          && State() == old(State())
        case BlockGo(c1, b1, n) =>
          && stop.None?
          && parser.cur == c1
          && bone.Value() == b1
          && name == n
          && State() == old(State()).(bones := if n.Some? then old(bones)[n.value := bone] else old(bones))
      ensures bone.children == old(bone.children)
    {
      name := None;
      var isEnd := parser.Expect("end");
      if isEnd {
        return Some(Completed), name;
      }
      var isId := parser.Expect("id");
      if isId {
        // not used, discarded
        parser.ConsumeLine();
        return None, name;
      }
      var isName := parser.Expect("name");
      if isName {
        var token := parser.ReadToken();
        bone.name := token.text;
        bones := bones[token.text := bone];
        return None, Some(token.text);
      }
      stop := ParseField(parser, bone);
    }

    /** The field-setting entries of a bone block, and the token the loop cannot get past. */
    method ParseField(parser: StringParser, bone: Bone) returns (stop: Option<Outcome>)
      modifies parser, bone
      ensures Stepped(FieldEntry(old(parser.cur), usingDegrees, old(bone.Value())), stop, parser.cur, old(bone.Value()), bone.Value())
      ensures bone.children == old(bone.children)
    {
      var isDirection := parser.Expect("direction");
      if isDirection {
        stop := ParseDirection(parser, bone);
        return;
      }
      var isLength := parser.Expect("length");
      if isLength {
        stop := ParseLength(parser, bone);
        return;
      }
      var isAxis := parser.Expect("axis");
      if isAxis {
        stop := ParseAxis(parser, bone);
        return;
      }
      var isDof := parser.Expect("dof");
      if isDof {
        bone.dofs := ReadDofs(parser);
        return None;
      }
      var isLimits := parser.Expect("limits");
      if isLimits {
        // not used, discarded
        SkipLimits(parser, bone.dofs);
        return None;
      }
      return Some(Fatal(NoProgress(parser.Peek())));
    }

    method ParseDirection(parser: StringParser, bone: Bone) returns (stop: Option<Outcome>)
      modifies parser, bone
      ensures Stepped(DirectionEntry(old(parser.cur), old(bone.Value())), stop, parser.cur, old(bone.Value()), bone.Value())
      ensures bone.children == old(bone.children)
    {
      var v := ReadVec(parser);
      if v.Fail? {
        return Some(Fatal(v.error));
      }
      bone.direction := v.value;
      return None;
    }

    method ParseLength(parser: StringParser, bone: Bone) returns (stop: Option<Outcome>)
      modifies parser, bone
      ensures Stepped(LengthEntry(old(parser.cur), old(bone.Value())), stop, parser.cur, old(bone.Value()), bone.Value())
      ensures bone.children == old(bone.children)
    {
      var x := parser.ReadNumber();
      if x.Fail? {
        return Some(Fatal(x.error));
      }
      // Convert from mocap units to metres
      bone.length := x.value * UnitScale;
      return None;
    }

    method ParseAxis(parser: StringParser, bone: Bone) returns (stop: Option<Outcome>)
      modifies parser, bone
      ensures Stepped(AxisEntry(old(parser.cur), usingDegrees, old(bone.Value())), stop, parser.cur, old(bone.Value()), bone.Value())
      ensures bone.children == old(bone.children)
    {
      var v := ReadVec(parser);
      if v.Fail? {
        return Some(Fatal(v.error));
      }
      var angles := v.value;
      if usingDegrees {
        angles := Vec3(Radians(angles.x), Radians(angles.y), Radians(angles.z));
      }
      var ok := parser.Expect("XYZ");
      if !ok {
        return Some(Reported(AxisMessage));
      }
      bone.rotationToBoneSpace := Euler(angles.x, angles.y, angles.z);
      bone.boneToRotationSpace := Inverse(bone.rotationToBoneSpace);
      return None;
    }

    /**
     * The inner loop of `parseBoneData`: the entries of one block up to its
     * `end`, applied to `bone`.
     */
    method ParseBlock(parser: StringParser, bone: Bone) returns (outcome: Outcome, ghost names: seq<string>)
      modifies this, parser, bone
      ensures var r := BlockBody(old(parser.cur), usingDegrees, old(bone.Value()), []);
        && outcome == r.outcome
        && names == r.names
        && (!outcome.Fatal? ==> parser.cur == r.cursor)
        && bone.Value() == r.bone
        && bone.children == old(bone.children)
        && bones == Register(old(bones), names, bone)
        && State() == old(State()).(bones := bones)
    {
      names := [];
      while true
        invariant BlockBody(parser.cur, usingDegrees, bone.Value(), names)
          == BlockBody(old(parser.cur), usingDegrees, old(bone.Value()), [])
        invariant bone.children == old(bone.children)
        invariant bones == Register(old(bones), names, bone)
        invariant State() == old(State()).(bones := bones)
        decreases |parser.cur.lines| - parser.cur.row, Width(parser.cur) - parser.cur.col
      {
        var stop, name := ParseBoneEntry(parser, bone);
        if stop.Some? {
          return stop.value, names;
        }
        if name.Some? {
          names := names + [name.value];
        }
      }
    }

    /** One block of `parseBoneData`, after its `begin`: a new Bone, filled in and registered. */
    method ParseNewBlock(parser: StringParser) returns (outcome: Outcome, bone: Bone)
      modifies this, parser
      ensures var blk := BlockBody(old(parser.cur), usingDegrees, NewBone, []);
        && outcome == blk.outcome
        && (!outcome.Fatal? ==> parser.cur == blk.cursor)
        && fresh(bone) && bone.Value() == blk.bone && bone.children == []
        && bones == Register(old(bones), blk.names, bone)
        && State() == old(State()).(bones := bones)
    {
      bone := new Bone();
      ghost var names;
      outcome, names := ParseBlock(parser, bone);
    }

    /**
     * One pass of `parseBoneData`'s loop, seen from the loop: the blocks
     * read so far and their bones grow by at most one, and the section's
     * outcome is known once the pass stops the loop.  `m0` is the registry
     * before the section.
     */
    method ParseBoneDataStep(parser: StringParser, ghost m0: map<string, Bone>, ghost blocks: seq<Block>, ghost created: seq<Bone>)
      returns (stop: Option<Outcome>, ghost blocks': seq<Block>, ghost created': seq<Bone>)
      requires Built(created, blocks)
      requires bones == RegisterAll(m0, blocks, created)
      modifies this, parser
      ensures Built(created', blocks')
      ensures forall b :: b in created' ==> b in created || fresh(b)
      ensures bones == RegisterAll(m0, blocks', created')
      ensures State() == old(State()).(bones := bones)
      ensures stop.None? ==>
        && Beyond(old(parser.cur), parser.cur)
        && BoneData(parser.cur, usingDegrees, blocks') == BoneData(old(parser.cur), usingDegrees, blocks)
      ensures stop.Some? ==>
        var r := BoneData(old(parser.cur), usingDegrees, blocks);
        && r.outcome == stop.value
        && r.blocks == blocks'
        && (!r.outcome.Fatal? ==> parser.cur == r.cursor)
    {
      var more := parser.Expect("begin");
      if !more {
        return Some(Completed), blocks, created;
      }
      var blockOutcome;
      blockOutcome, blocks', created' := ParseNextBlock(parser, m0, blocks, created);
      stop := if blockOutcome.Completed? then None else Some(blockOutcome);
    }

    /** The block after a `begin`, appended to the blocks read and the bones built so far. */
    method ParseNextBlock(parser: StringParser, ghost m0: map<string, Bone>, ghost blocks: seq<Block>, ghost created: seq<Bone>)
      returns (outcome: Outcome, ghost blocks': seq<Block>, ghost created': seq<Bone>)
      requires Built(created, blocks)
      requires bones == RegisterAll(m0, blocks, created)
      modifies this, parser
      ensures var blk := BlockBody(old(parser.cur), usingDegrees, NewBone, []);
        && outcome == blk.outcome
        && (!outcome.Fatal? ==> parser.cur == blk.cursor)
        && blocks' == blocks + [blk]
      ensures Built(created', blocks')
      ensures forall b :: b in created' ==> b in created || fresh(b)
      ensures bones == RegisterAll(m0, blocks', created')
      ensures State() == old(State()).(bones := bones)
    {
      ghost var c1 := parser.cur;
      var bone;
      outcome, bone := ParseNewBlock(parser);
      ghost var blk := BlockBody(c1, usingDegrees, NewBone, []);
      RegisterAllSnoc(m0, blocks, created, blk, bone);
      BuiltSnoc(created, blocks, bone, blk);
      blocks', created' := blocks + [blk], created + [bone];
    }

    /** `parseBoneData`: one fresh Bone per block, registered under the block's names. */
    method ParseBoneData(parser: StringParser) returns (outcome: Outcome, ghost created: seq<Bone>)
      modifies this, parser
      ensures var r := BoneData(old(parser.cur), old(usingDegrees), []);
        && outcome == r.outcome
        && (!outcome.Fatal? ==> parser.cur == r.cursor)
        && Built(created, r.blocks)
        && (forall b :: b in created ==> fresh(b))
        && bones == RegisterAll(old(bones), r.blocks, created)
        && State() == old(State()).(bones := bones)
    {
      ghost var blocks: seq<Block> := [];
      created := [];
      while true
        invariant BoneData(parser.cur, usingDegrees, blocks) == BoneData(old(parser.cur), old(usingDegrees), [])
        invariant Built(created, blocks)
        invariant forall b :: b in created ==> fresh(b)
        invariant bones == RegisterAll(old(bones), blocks, created)
        invariant State() == old(State()).(bones := bones)
        decreases |parser.cur.lines| - parser.cur.row, Width(parser.cur) - parser.cur.col
      {
        var stop;
        stop, blocks, created := ParseBoneDataStep(parser, old(bones), blocks, created);
        if stop.Some? {
          assert BoneData(old(parser.cur), old(usingDegrees), []).blocks == blocks;
          return stop.value, created;
        }
      }
    }

    /** `rootBones.push(bones.get(child))` for each child, in order. */
    method AppendRoots(children: seq<Token>)
      modifies this
      ensures State() == old(State()).(rootBones := old(rootBones) + Looked(bones, children))
    {
      var i := 0;
      while i < |children|
        invariant 0 <= i <= |children|
        invariant State() == old(State()).(rootBones := old(rootBones) + Looked(bones, children[..i]))
      {
        assert children[..i + 1][..i] == children[..i];
        rootBones := rootBones + [GetBone(children[i].text)];
        i := i + 1;
      }
      assert children[..i] == children;
    }

    /** `parentBone.children.push(bones.get(child))` for each child, in order. */
    method AppendChildren(parentBone: Bone, children: seq<Token>)
      modifies parentBone
      ensures parentBone.children == old(parentBone.children) + Looked(bones, children)
      ensures parentBone.Value() == old(parentBone.Value())
    {
      var i := 0;
      while i < |children|
        invariant 0 <= i <= |children|
        invariant parentBone.children == old(parentBone.children) + Looked(bones, children[..i])
        invariant parentBone.Value() == old(parentBone.Value())
      {
        assert children[..i + 1][..i] == children[..i];
        parentBone.children := parentBone.children + [GetBone(children[i].text)];
        i := i + 1;
      }
      assert children[..i] == children;
    }

    /** A `root` line: its children are pushed onto `rootBones`; no bone changes. */
    method ApplyRootLine(children: seq<Token>) returns (ghost edges: seq<Edge>)
      modifies this
      ensures edges == EdgesOf("root", children)
      ensures State() == old(State()).(rootBones := old(rootBones) + RootsAdded(bones, edges))
      ensures forall b :: ChildrenAdded(bones, edges, b) == []
    {
      edges := EdgesOf("root", children);
      AppendRoots(children);
      LineAdded(bones, "root", children);
    }

    /**
     * A line under a registered name: its children are pushed onto that
     * name's bone; `rootBones` and every other bone are left as they were.
     */
    method ApplyBoneLine(parent: string, parentBone: Bone, children: seq<Token>) returns (ghost edges: seq<Edge>)
      requires parent != "root" && parent in bones && bones[parent] == parentBone
      modifies parentBone
      ensures edges == EdgesOf(parent, children)
      ensures RootsAdded(bones, edges) == []
      ensures parentBone.Value() == old(parentBone.Value())
      ensures parentBone.children == old(parentBone.children) + ChildrenAdded(bones, edges, parentBone)
      ensures forall b :: b != parentBone ==> ChildrenAdded(bones, edges, b) == []
    {
      edges := EdgesOf(parent, children);
      AppendChildren(parentBone, children);
      LineAdded(bones, parent, children);
    }

    /**
     * One line of `parseHierarchy`'s loop.  The parent's lookup, which the
     * source repeats for every child, is done once: it cannot change.
     */
    method ParseHierarchyLine(parser: StringParser) returns (stop: Option<Outcome>, ghost edges: seq<Edge>)
      modifies this, parser, bones.Values
      ensures match HierarchyEntry(old(parser.cur), old(bones.Keys))
        case LineStop(c1, outcome) =>
          && stop == Some(outcome)
          && (!outcome.Fatal? ==> parser.cur == c1)
          && edges == []
        case LineGo(c1, es) =>
          && stop.None?
          && parser.cur == c1
          && edges == es
      ensures State() == old(State()).(rootBones := old(rootBones) + RootsAdded(old(bones), edges))
      ensures forall b :: b in old(bones.Values) ==>
        b.Value() == old(b.Value()) && b.children == old(b.children) + ChildrenAdded(old(bones), edges, b)
    {
      var isEnd := parser.Expect("end");
      if isEnd {
        return Some(Completed), [];
      }
      if parser.Done() {
        return Some(Fatal(NoProgress(parser.Peek()))), [];
      }
      var parent := parser.ReadToken();
      var children := parser.ReadLine();
      stop, edges := ApplyLine(parent.text, children);
    }

    /**
     * The pushes of one hierarchy line.  A parent with no bone abandons the
     * load at its first child, before anything is pushed.
     */
    method ApplyLine(parent: string, children: seq<Token>) returns (stop: Option<Outcome>, ghost edges: seq<Edge>)
      modifies this, bones.Values
      ensures stop.Some? <==> parent != "root" && parent !in bones && children != []
      ensures stop.Some? ==> stop.value == Fatal(UnknownBone(parent)) && edges == []
      ensures stop.None? ==> edges == EdgesOf(parent, children)
      ensures State() == old(State()).(rootBones := old(rootBones) + RootsAdded(bones, edges))
      ensures forall b :: b in bones.Values ==>
        b.Value() == old(b.Value()) && b.children == old(b.children) + ChildrenAdded(bones, edges, b)
    {
      stop := None;
      if parent == "root" {
        edges := ApplyRootLine(children);
      } else {
        var parentBone := GetBone(parent);
        if parentBone == null {
          if |children| > 0 {
            return Some(Fatal(UnknownBone(parent))), [];
          }
          edges := [];
        } else {
          edges := ApplyBoneLine(parent, parentBone, children);
        }
      }
    }

    /**
     * One line of `parseHierarchy`'s loop, seen from the loop: the pairs
     * applied so far grow by the line's, and the section's outcome is
     * known once the line stops the loop.  `roots0` and `kids0` are what
     * `rootBones` and each bone's children held before the section.
     */
    method ParseHierarchyStep(parser: StringParser, ghost edges: seq<Edge>, ghost roots0: seq<Bone?>, ghost kids0: map<Bone, seq<Bone?>>)
      returns (stop: Option<Outcome>, ghost edges': seq<Edge>)
      requires rootBones == roots0 + RootsAdded(bones, edges)
      requires forall b :: b in bones.Values ==> b in kids0 && b.children == kids0[b] + ChildrenAdded(bones, edges, b)
      modifies this, parser, bones.Values
      ensures State() == old(State()).(rootBones := roots0 + RootsAdded(bones, edges'))
      ensures forall b :: b in bones.Values ==>
        b.Value() == old(b.Value()) && b.children == kids0[b] + ChildrenAdded(bones, edges', b)
      ensures stop.None? ==>
        && Beyond(old(parser.cur), parser.cur)
        && HierarchyLines(parser.cur, bones.Keys, edges') == HierarchyLines(old(parser.cur), bones.Keys, edges)
      ensures stop.Some? ==>
        var r := HierarchyLines(old(parser.cur), bones.Keys, edges);
        && r.outcome == stop.value
        && r.edges == edges'
        && (!r.outcome.Fatal? ==> parser.cur == r.cursor)
    {
      ghost var lineEdges;
      stop, lineEdges := ParseHierarchyLine(parser);
      edges' := edges + lineEdges;
      RootsRegroup(bones, roots0, edges, lineEdges, rootBones);
      forall b | b in bones.Values
        ensures b.children == kids0[b] + ChildrenAdded(bones, edges', b)
      {
        ChildrenRegroup(bones, kids0[b], edges, lineEdges, b, b.children);
      }
    }

    /** `parseHierarchy` */
    method ParseHierarchy(parser: StringParser) returns (outcome: Outcome)
      modifies this, parser, bones.Values
      ensures var r := Hierarchy(old(parser.cur), old(bones.Keys));
        && outcome == r.outcome
        && (!outcome.Fatal? ==> parser.cur == r.cursor)
        && State() == old(State()).(rootBones := old(rootBones) + RootsAdded(old(bones), r.edges))
        && forall b :: b in old(bones.Values) ==>
             b.Value() == old(b.Value()) && b.children == old(b.children) + ChildrenAdded(old(bones), r.edges, b)
    {
      var begins := parser.Expect("begin");
      if !begins {
        return Reported("Error: reading hierarchy, expected begin, found " + parser.Peek().text);
      }
      outcome := ParseHierarchyLines(parser);
    }

    /** The loop of `parseHierarchy`, after its `begin`: one line at a time up to `end`. */
    method ParseHierarchyLines(parser: StringParser) returns (outcome: Outcome)
      modifies this, parser, bones.Values
      ensures var r := HierarchyLines(old(parser.cur), old(bones.Keys), []);
        && outcome == r.outcome
        && (!outcome.Fatal? ==> parser.cur == r.cursor)
        && State() == old(State()).(rootBones := old(rootBones) + RootsAdded(old(bones), r.edges))
        && forall b :: b in old(bones.Values) ==>
             b.Value() == old(b.Value()) && b.children == old(b.children) + ChildrenAdded(old(bones), r.edges, b)
    {
      ghost var kids0 := map b | b in bones.Values :: b.children;
      ghost var edges: seq<Edge> := [];
      while true
        invariant HierarchyLines(parser.cur, bones.Keys, edges) == HierarchyLines(old(parser.cur), old(bones.Keys), [])
        invariant State() == old(State()).(rootBones := old(rootBones) + RootsAdded(bones, edges))
        invariant forall b :: b in bones.Values ==>
          b in kids0 && b.Value() == old(b.Value()) && b.children == kids0[b] + ChildrenAdded(bones, edges, b)
        decreases |parser.cur.lines| - parser.cur.row, Width(parser.cur) - parser.cur.col
      {
        var stop;
        stop, edges := ParseHierarchyStep(parser, edges, old(rootBones), kids0);
        if stop.Some? {
          return stop.value;
        }
      }
    }

    /** `createHierarchy`: hangs each root bone's subtree under the skeleton's root node. */
    method CreateHierarchy(ghost forest: seq<Tree>)
      requires |forest| == |rootBones|
      requires forall i :: 0 <= i < |forest| ==> forest[i].bone == rootBones[i]
      requires ForestShaped(forest) && ForestDisjoint(forest)
      requires rootTransform !in ForestNodes(forest)
      modifies ForestNodes(forest)
      ensures ForestMirrored(forest, rootTransform)
    {
      ForestAllocated(forest);
      var i := 0;
      while i < |rootBones|
        invariant 0 <= i <= |rootBones|
        invariant ForestShaped(forest) && ForestDisjoint(forest)
        invariant forall j :: 0 <= j < i ==> TreeMirrored(forest[j], rootTransform)
      {
        var bone := rootBones[i];
        assert bone == forest[i].bone;
        HangSubtree(rootTransform, bone, forest, i);
        i := i + 1;
      }
    }

    /** The `:documentation` loop: whole lines until a token that starts with ':'. */
    static method SkipDocumentation(parser: StringParser)
      modifies parser
      ensures parser.cur == Documentation(old(parser.cur))
    {
      while !parser.Done() && !StartsWith(parser.Peek(), ':')
        invariant Documentation(parser.cur) == Documentation(old(parser.cur))
        decreases |parser.cur.lines| - parser.cur.row
      {
        parser.ConsumeLine();
      }
    }

    /** One pass of `loadFromASF`'s loop: a comment, a section, or an unknown token. */
    method ParseSection(parser: StringParser, ghost tracked: set<Bone>) returns (error: Option<ParseError>, ghost section: Section, ghost created: seq<Bone>)
      requires !IsDone(parser.cur)
      requires bones.Values <= tracked
      modifies this, parser, bones.Values
      ensures AsfEntry(old(parser.cur), old(bones.Keys), old(usingDegrees))
        == if error.Some? then AsfFail(error.value) else AsfGo(parser.cur, bones.Keys, usingDegrees, section)
      ensures NoneTwice(created) && forall b :: b in created ==> fresh(b)
      ensures error.None? ==>
        && |created| == SectionBones(section)
        && bones.Values <= tracked + BoneSet(created)
        && Snapshot(tracked + BoneSet(created)) == ApplySection(old(Snapshot(tracked)), section, created)
    {
      var nextToken := parser.ReadToken();
      error, section, created := ParseSectionAfter(parser, nextToken, tracked);
    }

    /** The rest of one pass of `loadFromASF`'s loop, after its token `nextToken`. */
    method ParseSectionAfter(parser: StringParser, nextToken: Token, ghost tracked: set<Bone>)
      returns (error: Option<ParseError>, ghost section: Section, ghost created: seq<Bone>)
      requires bones.Values <= tracked
      modifies this, parser, bones.Values
      ensures SectionEntry(nextToken, old(parser.cur), old(bones.Keys), old(usingDegrees))
        == if error.Some? then AsfFail(error.value) else AsfGo(parser.cur, bones.Keys, usingDegrees, section)
      ensures NoneTwice(created) && forall b :: b in created ==> fresh(b)
      ensures error.None? ==>
        && |created| == SectionBones(section)
        && bones.Values <= tracked + BoneSet(created)
        && Snapshot(tracked + BoneSet(created)) == ApplySection(old(Snapshot(tracked)), section, created)
    {
      if !Skips(nextToken) && nextToken.text in ReaderWords {
        error, section, created := ParseReaderSection(parser, nextToken.text, tracked);
      } else {
        error := PassOver(parser, nextToken);
        section, created := Skipped, [];
        assert tracked + BoneSet(created) == tracked;
      }
    }

    /**
     * A pass that builds nothing: a section the load passes over, or the
     * token that abandons it.
     */
    static method PassOver(parser: StringParser, nextToken: Token) returns (error: Option<ParseError>)
      requires Skips(nextToken) || nextToken.text !in ReaderWords
      modifies parser
      ensures error.None? <==> Skips(nextToken)
      ensures error.Some? ==> error.value == UnknownToken(nextToken) && parser.cur == old(parser.cur)
      ensures error.None? ==> parser.cur == SkipTo(nextToken, old(parser.cur))
    {
      if !Skips(nextToken) {
        return Some(UnknownToken(nextToken));
      }
      if StartsWith(nextToken, '#') || nextToken.text == ":version" || nextToken.text == ":name" {
        parser.ConsumeLine();
      } else {
        SkipDocumentation(parser);
      }
      return None;
    }

    /** A section with a reader of its own, after its word. */
    method ParseReaderSection(parser: StringParser, word: string, ghost tracked: set<Bone>)
      returns (error: Option<ParseError>, ghost section: Section, ghost created: seq<Bone>)
      requires word in ReaderWords
      requires bones.Values <= tracked
      modifies this, parser, bones.Values
      ensures ReaderEntry(word, old(parser.cur), old(bones.Keys), old(usingDegrees))
        == if error.Some? then AsfFail(error.value) else AsfGo(parser.cur, bones.Keys, usingDegrees, section)
      ensures NoneTwice(created) && forall b :: b in created ==> fresh(b)
      ensures error.None? ==>
        && |created| == SectionBones(section)
        && bones.Values <= tracked + BoneSet(created)
        && Snapshot(tracked + BoneSet(created)) == ApplySection(old(Snapshot(tracked)), section, created)
    {
      if word == ":units" {
        error, section, created := ReadUnitsSection(parser, tracked);
      } else if word == ":root" {
        error, section, created := ReadRootSection(parser, tracked);
      } else if word == ":bonedata" {
        error, section, created := ReadBoneDataSection(parser, tracked);
      } else {
        error, section, created := ReadHierarchySection(parser, tracked);
      }
    }

    /** `:units`, as a pass of the top-level loop. */
    method ReadUnitsSection(parser: StringParser, ghost tracked: set<Bone>)
      returns (error: Option<ParseError>, ghost section: Section, ghost created: seq<Bone>)
      requires bones.Values <= tracked
      modifies this, parser
      ensures ReaderEntry(":units", old(parser.cur), old(bones.Keys), old(usingDegrees))
        == if error.Some? then AsfFail(error.value) else AsfGo(parser.cur, bones.Keys, usingDegrees, section)
      ensures created == [] && error.None? && section.UnitsRead?
      ensures bones.Values <= tracked
      ensures Snapshot(tracked + BoneSet(created)) == ApplySection(old(Snapshot(tracked)), section, created)
    {
      ParseUnitsOver(parser, tracked);
      section, created := UnitsRead(Units(old(parser.cur), None).angle), [];
      assert tracked + BoneSet(created) == tracked;
      return None, section, created;
    }

    /** `parseUnits`, seen on the state of the skeleton and of the bones in `tracked`. */
    method ParseUnitsOver(parser: StringParser, ghost tracked: set<Bone>)
      modifies this, parser
      ensures var r := Units(old(parser.cur), None);
        && parser.cur == r.cursor
        && bones == old(bones)
        && Snapshot(tracked) == ApplySection(old(Snapshot(tracked)), UnitsRead(r.angle), [])
    {
      ParseUnits(parser);
      assert Snapshot(tracked).values == old(Snapshot(tracked).values);
      assert Snapshot(tracked).kids == old(Snapshot(tracked).kids);
    }

    /** `:root`, as a pass of the top-level loop. */
    method ReadRootSection(parser: StringParser, ghost tracked: set<Bone>)
      returns (error: Option<ParseError>, ghost section: Section, ghost created: seq<Bone>)
      requires bones.Values <= tracked
      modifies this, parser
      ensures ReaderEntry(":root", old(parser.cur), old(bones.Keys), old(usingDegrees))
        == if error.Some? then AsfFail(error.value) else AsfGo(parser.cur, bones.Keys, usingDegrees, section)
      ensures created == [] && section.RootRead?
      ensures bones.Values <= tracked
      ensures Snapshot(tracked + BoneSet(created)) == ApplySection(old(Snapshot(tracked)), section, created)
    {
      var outcome := ParseRootOver(parser, tracked);
      RootUnfold(old(parser.cur), old(bones.Keys), old(usingDegrees));
      ghost var r := Root(old(parser.cur), None, None);
      section, created := RootRead(r.position, r.orientation), [];
      assert tracked + BoneSet(created) == tracked;
      error := if outcome.Fatal? then Some(outcome.error) else None;
    }

    /** `parseRoot`, seen on the state of the skeleton and of the bones in `tracked`. */
    method ParseRootOver(parser: StringParser, ghost tracked: set<Bone>) returns (outcome: Outcome)
      modifies this, parser
      ensures var r := Root(old(parser.cur), None, None);
        && outcome == r.outcome
        && (!outcome.Fatal? ==> parser.cur == r.cursor)
        && bones == old(bones) && usingDegrees == old(usingDegrees)
        && Snapshot(tracked) == ApplySection(old(Snapshot(tracked)), RootRead(r.position, r.orientation), [])
    {
      outcome := ParseRoot(parser);
      assert Snapshot(tracked).values == old(Snapshot(tracked).values);
      assert Snapshot(tracked).kids == old(Snapshot(tracked).kids);
    }

    /** `:bonedata`, as a pass of the top-level loop. */
    method ReadBoneDataSection(parser: StringParser, ghost tracked: set<Bone>)
      returns (error: Option<ParseError>, ghost section: Section, ghost created: seq<Bone>)
      requires bones.Values <= tracked
      modifies this, parser
      ensures ReaderEntry(":bonedata", old(parser.cur), old(bones.Keys), old(usingDegrees))
        == if error.Some? then AsfFail(error.value) else AsfGo(parser.cur, bones.Keys, usingDegrees, section)
      ensures NoneTwice(created) && forall b :: b in created ==> fresh(b)
      ensures section.BonesRead? && |created| == SectionBones(section)
      ensures bones.Values <= tracked + BoneSet(created)
      ensures Snapshot(tracked + BoneSet(created)) == ApplySection(old(Snapshot(tracked)), section, created)
    {
      var outcome;
      outcome, created := ParseBoneDataOver(parser, tracked);
      section := BonesRead(BoneData(old(parser.cur), old(usingDegrees), []).blocks);
      error := if outcome.Fatal? then Some(outcome.error) else None;
      BoneDataUnfold(old(parser.cur), old(bones.Keys), old(usingDegrees), old(Snapshot(tracked)), created);
    }

    /** `parseBoneData`, seen on the state of the skeleton and of the bones in `tracked`. */
    method ParseBoneDataOver(parser: StringParser, ghost tracked: set<Bone>) returns (outcome: Outcome, ghost created: seq<Bone>)
      requires bones.Values <= tracked
      modifies this, parser
      ensures var r := BoneData(old(parser.cur), old(usingDegrees), []);
        && outcome == r.outcome
        && (!outcome.Fatal? ==> parser.cur == r.cursor)
        && |created| == |r.blocks| && NoneTwice(created) && (forall b :: b in created ==> fresh(b))
        && bones.Keys == old(bones.Keys) + BlockNames(r.blocks)
        && usingDegrees == old(usingDegrees)
        && bones.Values <= tracked + BoneSet(created)
        && Snapshot(tracked + BoneSet(created)) == AddBones(old(Snapshot(tracked)), r.blocks, created)
    {
      outcome, created := ParseBoneDataKept(parser, tracked);
      ghost var r := BoneData(old(parser.cur), old(usingDegrees), []);
      ghost var before, after := old(Snapshot(tracked)), Snapshot(tracked + BoneSet(created));
      NewValuesMap(tracked, r.blocks, created, before.values, after.values);
      NewKidsMap(tracked, created, before.kids, after.kids);
    }

    /** `parseBoneData`, bone by bone: the bones in `tracked` are left as they were. */
    method ParseBoneDataKept(parser: StringParser, ghost tracked: set<Bone>) returns (outcome: Outcome, ghost created: seq<Bone>)
      requires bones.Values <= tracked
      modifies this, parser
      ensures var r := BoneData(old(parser.cur), old(usingDegrees), []);
        && outcome == r.outcome
        && (!outcome.Fatal? ==> parser.cur == r.cursor)
        && Built(created, r.blocks) && (forall b :: b in created ==> fresh(b))
        && bones == RegisterAll(old(bones), r.blocks, created)
        && State() == old(State()).(bones := bones)
        && bones.Keys == old(bones.Keys) + BlockNames(r.blocks)
        && bones.Values <= tracked + BoneSet(created)
        && forall b :: b in tracked ==> b !in created && b.Value() == old(b.Value()) && b.children == old(b.children)
    {
      outcome, created := ParseBoneData(parser);
    }

    /** `:hierarchy`, as a pass of the top-level loop. */
    method ReadHierarchySection(parser: StringParser, ghost tracked: set<Bone>)
      returns (error: Option<ParseError>, ghost section: Section, ghost created: seq<Bone>)
      requires bones.Values <= tracked
      modifies this, parser, bones.Values
      ensures ReaderEntry(":hierarchy", old(parser.cur), old(bones.Keys), old(usingDegrees))
        == if error.Some? then AsfFail(error.value) else AsfGo(parser.cur, bones.Keys, usingDegrees, section)
      ensures created == [] && section.HierarchyRead?
      ensures bones.Values <= tracked
      ensures Snapshot(tracked + BoneSet(created)) == ApplySection(old(Snapshot(tracked)), section, created)
    {
      var outcome := ParseHierarchyOver(parser, tracked);
      ghost var r := Hierarchy(old(parser.cur), old(bones.Keys));
      section, created := HierarchyRead(r.edges), [];
      assert tracked + BoneSet(created) == tracked;
      error := if outcome.Fatal? then Some(outcome.error) else None;
    }

    /** `parseHierarchy`, seen on the state of the skeleton and of the bones in `tracked`. */
    method ParseHierarchyOver(parser: StringParser, ghost tracked: set<Bone>) returns (outcome: Outcome)
      requires bones.Values <= tracked
      modifies this, parser, bones.Values
      ensures var r := Hierarchy(old(parser.cur), old(bones.Keys));
        && outcome == r.outcome
        && (!outcome.Fatal? ==> parser.cur == r.cursor)
        && bones == old(bones) && usingDegrees == old(usingDegrees)
        && Snapshot(tracked) == ApplySection(old(Snapshot(tracked)), HierarchyRead(r.edges), [])
    {
      outcome := ParseHierarchyKids(parser, tracked);
      ghost var r := Hierarchy(old(parser.cur), old(bones.Keys));
      HierarchyValues(tracked, r.edges, old(Snapshot(tracked)), Snapshot(tracked));
    }

    /** `parseHierarchy`, bone by bone: each bone in `tracked` gains the children listed under its names. */
    method ParseHierarchyKids(parser: StringParser, ghost tracked: set<Bone>) returns (outcome: Outcome)
      requires bones.Values <= tracked
      modifies this, parser, bones.Values
      ensures var r := Hierarchy(old(parser.cur), old(bones.Keys));
        && outcome == r.outcome
        && (!outcome.Fatal? ==> parser.cur == r.cursor)
        && State() == old(State()).(rootBones := old(rootBones) + RootsAdded(old(bones), r.edges))
        && forall b :: b in tracked ==>
             b.Value() == old(b.Value()) && b.children == old(b.children) + ChildrenAdded(old(bones), r.edges, b)
    {
      outcome := ParseHierarchy(parser);
      ghost var r := Hierarchy(old(parser.cur), old(bones.Keys));
      forall b | b in tracked && b !in bones.Values
        ensures ChildrenAdded(bones, r.edges, b) == []
      {
        NoChildrenAdded(bones, r.edges, b);
      }
    }

    /**
     * The reading loop of `loadFromASF` over the file's tokenised lines.
     * `counter` counts the load as started; it counts it as finished only
     * when the loop reaches the end of the input.  `created` are the bones
     * the load builds, in order.
     */
    method LoadFromASF(lines: seq<seq<Token>>, counter: LoadCounter) returns (error: Option<ParseError>, ghost created: seq<Bone>)
      modifies this, counter, bones.Values
      ensures var run := Asf(Start(lines), old(bones.Keys), old(usingDegrees));
        && error == run.error
        && (error.None? ==>
              && |created| == BonesNeeded(run.sections)
              && Snapshot(old(bones.Values) + BoneSet(created)) == Apply(old(Snapshot(bones.Values)), run.sections, created))
      ensures NoneTwice(created) && forall b :: b in created ==> fresh(b)
      ensures counter.numLoading == old(counter.numLoading) + (if error.None? then 0 else 1)
    {
      ghost var before := Snapshot(bones.Values);
      counter.numLoading := counter.numLoading + 1;
      var parser := new StringParser(lines);
      assert Snapshot(bones.Values) == before;
      error, created := ReadSections(parser);
      if error.None? {
        counter.numLoading := counter.numLoading - 1;
      }
    }

    /**
     * The loop of `loadFromASF`: sections up to the end of the input or
     * the first error.  `created` are the bones the sections build, in order.
     */
    method ReadSections(parser: StringParser) returns (error: Option<ParseError>, ghost created: seq<Bone>)
      modifies this, parser, bones.Values
      ensures var run := Asf(old(parser.cur), old(bones.Keys), old(usingDegrees));
        && error == run.error
        && (error.None? ==>
              && |created| == BonesNeeded(run.sections)
              && Snapshot(old(bones.Values) + BoneSet(created)) == Apply(old(Snapshot(bones.Values)), run.sections, created))
      ensures NoneTwice(created) && forall b :: b in created ==> fresh(b)
    {
      ghost var tracked0 := bones.Values;
      ghost var w0 := Snapshot(tracked0);
      ghost var run := Asf(parser.cur, bones.Keys, usingDegrees);
      ghost var done: seq<Section> := [];
      created := [];
      assert tracked0 + BoneSet(created) == tracked0;
      while !parser.Done()
        invariant var r := Asf(parser.cur, bones.Keys, usingDegrees);
          run.error == r.error && run.sections == done + r.sections
        invariant Reached(tracked0, w0, done, created)
        invariant forall b :: b in created ==> fresh(b)
        decreases |parser.cur.lines| - parser.cur.row, Width(parser.cur) - parser.cur.col
      {
        ghost var c, keys, degrees := parser.cur, bones.Keys, usingDegrees;
        ghost var section, more;
        error, section, more := LoadStep(parser, tracked0, w0, done, created);
        AsfUnfold(c, keys, degrees);
        if error.Some? {
          return error, created + more;
        }
        SectionsRegroup(done, section, Asf(parser.cur, bones.Keys, usingDegrees).sections);
        done, created := done + [section], created + more;
      }
      AsfUnfold(parser.cur, bones.Keys, usingDegrees);
      assert done + [] == done;
      return None, created;
    }

    /**
     * The skeleton and the bones in `tracked` and `created` hold the state
     * the sections `done` build from `w0`, `created` being the bones they
     * built, in order, no two the same; every registered bone is among them.
     */
    ghost predicate Reached(tracked: set<Bone>, w0: Loaded, done: seq<Section>, created: seq<Bone>)
      reads this, tracked, BoneSet(created)
    {
      && |created| == BonesNeeded(done)
      && NoneTwice(created)
      && bones.Values <= tracked + BoneSet(created)
      && Snapshot(tracked + BoneSet(created)) == Apply(w0, done, created)
    }

    /**
     * One pass of `loadFromASF`'s loop, seen from the loop: a pass that
     * goes on reaches the state of one more section, with the bones it built.
     */
    method LoadStep(parser: StringParser, ghost tracked0: set<Bone>, ghost w0: Loaded, ghost done: seq<Section>, ghost created: seq<Bone>)
      returns (error: Option<ParseError>, ghost section: Section, ghost more: seq<Bone>)
      requires !IsDone(parser.cur)
      requires Reached(tracked0, w0, done, created)
      modifies this, parser, bones.Values
      ensures AsfEntry(old(parser.cur), old(bones.Keys), old(usingDegrees))
        == if error.Some? then AsfFail(error.value) else AsfGo(parser.cur, bones.Keys, usingDegrees, section)
      ensures NoneTwice(created + more) && forall b :: b in more ==> fresh(b)
      ensures error.None? ==> Reached(tracked0, w0, done + [section], created + more)
    {
      ghost var tracked := tracked0 + BoneSet(created);
      error, section, more := ParseSection(parser, tracked);
      NoneTwiceAppend(created, more);
      if error.None? {
        ApplySnoc(w0, done, created, section, more);
        assert tracked0 + BoneSet(created + more) == tracked + BoneSet(more);
        assert Snapshot(tracked0 + BoneSet(created + more)) == Apply(w0, done + [section], created + more);
      }
    }
  }

  /** The sections read so far, then one more and the rest. */
  lemma SectionsRegroup(done: seq<Section>, s: Section, rest: seq<Section>)
    ensures done + ([s] + rest) == (done + [s]) + rest
  {
  }

  /** One pass of the top-level loop, unfolded. */
  lemma AsfUnfold(c: Cursor, declared: set<string>, degrees: bool)
    ensures match AsfEntry(c, declared, degrees)
      case AsfDone => Asf(c, declared, degrees) == AsfRun(None, [])
      case AsfFail(e) => Asf(c, declared, degrees) == AsfRun(Some(e), [])
      case AsfGo(c1, d1, g1, s) =>
        var r := Asf(c1, d1, g1);
        Asf(c, declared, degrees) == AsfRun(r.error, [s] + r.sections)
  {
  }

  /** The `:bonedata` pass of the top-level loop, and the section it applies, unfolded. */
  lemma BoneDataUnfold(c1: Cursor, declared: set<string>, degrees: bool, w: Loaded, created: seq<Bone>)
    requires |created| == |BoneData(c1, degrees, []).blocks|
    ensures var r := BoneData(c1, degrees, []);
      && ReaderEntry(":bonedata", c1, declared, degrees)
        == (if r.outcome.Fatal? then AsfFail(r.outcome.error)
            else AsfGo(r.cursor, declared + BlockNames(r.blocks), degrees, BonesRead(r.blocks)))
      && ApplySection(w, BonesRead(r.blocks), created) == AddBones(w, r.blocks, created)
  {
  }

  /** The `:root` pass of the top-level loop, unfolded. */
  lemma RootUnfold(c1: Cursor, declared: set<string>, degrees: bool)
    ensures var r := Root(c1, None, None);
      ReaderEntry(":root", c1, declared, degrees)
        == (if r.outcome.Fatal? then AsfFail(r.outcome.error)
            else AsfGo(r.cursor, declared, degrees, RootRead(r.position, r.orientation)))
  {
  }

  /** Two runs of bones, none twice and none in both, together have none twice. */
  lemma NoneTwiceAppend(first: seq<Bone>, second: seq<Bone>)
    requires NoneTwice(first) && NoneTwice(second)
    requires forall b :: b in second ==> b !in first
    ensures NoneTwice(first + second)
  {
    forall i, j | 0 <= i < j < |first + second|
      ensures (first + second)[i] != (first + second)[j]
    {
      if i < |first| <= j {
        assert (first + second)[j] in second;
      }
    }
  }

  /** Applying two runs of pairs one after the other adds what applying them together does. */
  lemma {:induction false} AddedAppend(m: map<string, Bone>, first: seq<Edge>, second: seq<Edge>)
    ensures RootsAdded(m, first + second) == RootsAdded(m, first) + RootsAdded(m, second)
    ensures forall b :: ChildrenAdded(m, first + second, b) == ChildrenAdded(m, first, b) + ChildrenAdded(m, second, b)
    decreases |second|
  {
    if second != [] {
      var k := |second| - 1;
      assert (first + second)[..|first + second| - 1] == first + second[..k];
      AddedAppend(m, first, second[..k]);
    } else {
      assert first + second == first;
    }
  }

  /** `rootBones` after two runs of pairs, one after the other, as after both together. */
  lemma RootsRegroup(m: map<string, Bone>, roots0: seq<Bone?>, first: seq<Edge>, second: seq<Edge>, now: seq<Bone?>)
    requires now == (roots0 + RootsAdded(m, first)) + RootsAdded(m, second)
    ensures now == roots0 + RootsAdded(m, first + second)
  {
    AddedAppend(m, first, second);
  }

  /** A bone's children after two runs of pairs, one after the other, as after both together. */
  lemma ChildrenRegroup(m: map<string, Bone>, kids0: seq<Bone?>, first: seq<Edge>, second: seq<Edge>, b: Bone, now: seq<Bone?>)
    requires now == (kids0 + ChildrenAdded(m, first, b)) + ChildrenAdded(m, second, b)
    ensures now == kids0 + ChildrenAdded(m, first + second, b)
  {
    AddedAppend(m, first, second);
  }

  /** The bones `bones.get` finds for each token, `null` for a name with none, in order. */
  function Looked(m: map<string, Bone>, ts: seq<Token>): (r: seq<Bone?>)
    ensures |r| == |ts|
    ensures forall i :: 0 <= i < |ts| ==> r[i] == Lookup(m, ts[i].text)
  {
    if ts == [] then [] else Looked(m, ts[..|ts| - 1]) + [Lookup(m, ts[|ts| - 1].text)]
  }

  /**
   * The pairs of one line land together: under `root` they all go to
   * `rootBones`, under a registered name they all go to that name's bone.
   */
  lemma {:induction false} LineAdded(m: map<string, Bone>, parent: string, children: seq<Token>)
    ensures RootsAdded(m, EdgesOf(parent, children)) == if parent == "root" then Looked(m, children) else []
    ensures forall b ::
      ChildrenAdded(m, EdgesOf(parent, children), b) == if parent != "root" && parent in m && m[parent] == b then Looked(m, children) else []
    decreases |children|
  {
    if children != [] {
      var k := |children| - 1;
      LineAdded(m, parent, children[..k]);
      var es := EdgesOf(parent, children);
      assert es[..|es| - 1] == EdgesOf(parent, children[..k]);
    }
  }

  /** The bones built so far, one more appended: each still holds its own block's values. */
  lemma BuiltSnoc(created: seq<Bone>, blocks: seq<Block>, bone: Bone, blk: Block)
    requires Built(created, blocks)
    requires bone.Value() == blk.bone && bone.children == [] && bone !in created
    ensures Built(created + [bone], blocks + [blk])
  {
  }

  /**
   * The bones built for the blocks read so far: one per block, in order,
   * each holding its block's values and no children, no two the same.
   */
  ghost predicate Built(created: seq<Bone>, blocks: seq<Block>)
    reads created
  {
    && |created| == |blocks|
    && (forall i :: 0 <= i < |created| ==> created[i].Value() == blocks[i].bone && created[i].children == [])
    && (forall i, j :: 0 <= i < j < |created| ==> created[i] != created[j])
  }

  /** Registering one more block extends the registry built from the earlier ones. */
  lemma RegisterAllSnoc(m: map<string, Bone>, blocks: seq<Block>, created: seq<Bone>, blk: Block, bone: Bone)
    requires |created| == |blocks|
    ensures RegisterAll(m, blocks + [blk], created + [bone]) == Register(RegisterAll(m, blocks, created), blk.names, bone)
  {
    assert (blocks + [blk])[..|blocks|] == blocks;
    assert (created + [bone])[..|created|] == created;
  }
}
