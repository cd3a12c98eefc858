/**
 * The token cursor both file readers are driven by (StringParser, whose
 * source is not part of this model).  Text arrives already split into lines
 * of whitespace-delimited tokens; each token is classified by the lexer as
 * a number or a word, which stands in for the source's `isNaN(Number(t))`.
 *
 * The cursor is a value (`Cursor`) with pure operations; the class
 * `StringParser` holds one and exposes the source's mutating interface.
 */
module StringParsing {

  datatype Option<T> = None | Some(value: T)

  /** A whitespace-delimited token; `Num` when it reads as a number. */
  datatype Token = Word(text: string) | Num(text: string, value: real)

  /** `t.charAt(0) == ch` */
  predicate StartsWith(t: Token, ch: char)
  {
    |t.text| > 0 && t.text[0] == ch
  }

  /** The ways a parse is abandoned; the source throws or never returns. */
  datatype ParseError =
    | NotANumber(found: Token)   // readNumber on a word or at end of input
    | UnknownBone(name: string)  // a bone name with no entry in the skeleton
    | NoProgress(found: Token)   // a loop of the source that would spin forever
    | UnknownToken(found: Token) // a top-level token no section starts with

  datatype Result<T> = Ok(value: T) | Fail(error: ParseError)
  {
    predicate IsFailure() { Fail? }

    function PropagateFailure<U>(): Result<U>
      requires Fail?
    {
      Fail(error)
    }

    function Extract(): T
      requires Ok?
    {
      value
    }
  }

  datatype Position = Position(lines: seq<seq<Token>>, row: nat, col: nat)

  /** A position inside the text: on a line (at most at its end) or past the last line. */
  type Cursor = p: Position |
    && p.row <= |p.lines|
    && (p.row < |p.lines| ==> p.col <= |p.lines[p.row]|)
    && (p.row == |p.lines| ==> p.col == 0)
    witness Position([], 0, 0)

  function Start(lines: seq<seq<Token>>): Cursor
  {
    Position(lines, 0, 0)
  }

  /** Number of tokens on the cursor's line (0 past the last line). */
  function Width(c: Cursor): nat
  {
    if c.row < |c.lines| then |c.lines[c.row]| else 0
  }

  /** `d` lies strictly after `c` in the same text. */
  predicate Beyond(c: Cursor, d: Cursor)
  {
    d.lines == c.lines && (d.row > c.row || (d.row == c.row && d.col > c.col))
  }

  /** `d` is `c` or lies after it. */
  predicate NotBefore(c: Cursor, d: Cursor)
  {
    d == c || Beyond(c, d)
  }

  /** Skips exhausted lines: the position of the next token, or the end. */
  function Seek(c: Cursor): (s: Cursor)
    ensures NotBefore(c, s)
    ensures s.row < |s.lines| ==> s.col < |s.lines[s.row]|
    decreases |c.lines| - c.row
  {
    if c.row == |c.lines| || c.col < |c.lines[c.row]| then c
    else Seek(Position(c.lines, c.row + 1, 0))
  }

  /** `done()`: no token remains. */
  predicate IsDone(c: Cursor)
  {
    Seek(c).row == |c.lines|
  }

  /** `peek()`: the next token, or the empty word at the end. */
  function PeekOf(c: Cursor): Token
  {
    var s := Seek(c);
    if s.row == |s.lines| then Word("") else s.lines[s.row][s.col]
  }

  /** The cursor after `readToken()`; at the end it stays put. */
  function Next(c: Cursor): (d: Cursor)
    ensures IsDone(c) ==> d == c
    ensures !IsDone(c) ==> Beyond(c, d)
  {
    var s := Seek(c);
    if s.row == |s.lines| then c else Position(s.lines, s.row, s.col + 1)
  }

  /** `readLine()`: the tokens left on the current line. */
  function LineOf(c: Cursor): seq<Token>
  {
    if c.row == |c.lines| then [] else c.lines[c.row][c.col..]
  }

  /** The cursor after `readLine()` or `consumeLine()`: the start of the next line. */
  function NextLine(c: Cursor): (d: Cursor)
    ensures c.row < |c.lines| ==> Beyond(c, d)
    ensures !IsDone(c) ==> Beyond(c, d)
  {
    if c.row == |c.lines| then c else Position(c.lines, c.row + 1, 0)
  }

  /** `consumeLine()` repeated `n` times. */
  function SkipLines(c: Cursor, n: nat): (d: Cursor)
    ensures NotBefore(c, d)
    ensures n > 0 ==> d.col == 0 && d.row == if c.row + n <= |c.lines| then c.row + n else |c.lines|
    decreases n
  {
    if n == 0 then c else SkipLines(NextLine(c), n - 1)
  }

  /** `expect(w)`: whether the next token is `w`, and the cursor after consuming only a match. */
  function ExpectOf(c: Cursor, w: string): (r: (bool, Cursor))
    ensures r.0 <==> !IsDone(c) && PeekOf(c).text == w
    ensures r.1 == if r.0 then Next(c) else c
  {
    if !IsDone(c) && PeekOf(c).text == w then (true, Next(c)) else (false, c)
  }

  /** `readNumber()`: the value of the next token, which must be a number. */
  function NumberOf(c: Cursor): (r: Result<(real, Cursor)>)
    ensures r.Ok? <==> !IsDone(c) && PeekOf(c).Num?
    ensures r.Ok? ==> r.value == (PeekOf(c).value, Next(c))
  {
    if !IsDone(c) && PeekOf(c).Num? then Ok((PeekOf(c).value, Next(c)))
    else Fail(NotANumber(PeekOf(c)))
  }

  /** All tokens of `ls`, in order. */
  function Flatten(ls: seq<seq<Token>>): seq<Token>
  {
    if ls == [] then [] else ls[0] + Flatten(ls[1..])
  }

  /** The token stream still ahead of the cursor, across line breaks. */
  function Rest(c: Cursor): seq<Token>
  {
    if c.row == |c.lines| then [] else c.lines[c.row][c.col..] + Flatten(c.lines[c.row + 1..])
  }

  lemma {:induction false} SeekKeepsRest(c: Cursor)
    ensures Rest(Seek(c)) == Rest(c)
    decreases |c.lines| - c.row
  {
    if c.row < |c.lines| && c.col == |c.lines[c.row]| {
      var d: Cursor := Position(c.lines, c.row + 1, 0);
      SeekKeepsRest(d);
      assert Rest(c) == Flatten(c.lines[d.row..]) by {
        assert c.lines[c.row][c.col..] == [];
      }
      if d.row < |c.lines| {
        var ls := c.lines[d.row..];
        assert ls[1..] == c.lines[d.row + 1..];
        assert Flatten(ls) == ls[0] + Flatten(ls[1..]);
        assert c.lines[d.row][0..] == c.lines[d.row];
      }
    }
  }

  /**
   * The cursor operations read the flattened token stream: `done()` when it
   * is empty, `peek()` its head, `readToken()` drops exactly that head.
   */
  lemma StreamView(c: Cursor)
    ensures IsDone(c) <==> Rest(c) == []
    ensures !IsDone(c) ==> PeekOf(c) == Rest(c)[0] && Rest(Next(c)) == Rest(c)[1..]
  {
    var s := Seek(c);
    SeekKeepsRest(c);
    if s.row < |s.lines| {
      TokenAhead(s);
    }
  }

  /** At a token, the stream ahead starts with it, and stepping past it drops it. */
  lemma TokenAhead(s: Cursor)
    requires s.row < |s.lines| && s.col < |s.lines[s.row]|
    ensures Rest(s) != [] && Rest(s)[0] == s.lines[s.row][s.col]
    ensures s.col + 1 <= |s.lines[s.row]|
    ensures Rest(Position(s.lines, s.row, s.col + 1)) == Rest(s)[1..]
  {
    var line := s.lines[s.row];
    var tail := Flatten(s.lines[s.row + 1..]);
    assert line[s.col..] == [line[s.col]] + line[s.col + 1..];
    assert (line[s.col..] + tail)[1..] == line[s.col + 1..] + tail;
  }

  /**
   * `expect` on a list of words, stopping at the first mismatch, as a
   * chain `expect(w0) && expect(w1) && ...` does: whether all matched,
   * and the cursor after the matched prefix.
   */
  function ExpectAll(c: Cursor, ws: seq<string>): (r: (bool, Cursor))
    ensures NotBefore(c, r.1)
    ensures r.0 && ws != [] ==> Beyond(c, r.1)
    decreases |ws|
  {
    if ws == [] then (true, c)
    else
      var (ok, c1) := ExpectOf(c, ws[0]);
      if ok then ExpectAll(c1, ws[1..]) else (false, c)
  }

  /**
   * How many leading tokens of `ts` spell the leading words of `ws`: the
   * length of the longest common prefix, compared by text.
   */
  function MatchLen(ts: seq<Token>, ws: seq<string>): (k: nat)
    ensures k <= |ts| && k <= |ws|
    ensures forall i :: 0 <= i < k ==> ts[i].text == ws[i]
    ensures k < |ts| && k < |ws| ==> ts[k].text != ws[k]
  {
    if ts == [] || ws == [] || ts[0].text != ws[0] then 0
    else 1 + MatchLen(ts[1..], ws[1..])
  }

  /**
   * A chain of expects succeeds exactly when the next |ws| tokens spell
   * `ws`, and it consumes exactly the matching prefix: all of `ws` on
   * success, never the token that differs on a mismatch.
   */
  lemma {:induction false} ExpectAllSpells(c: Cursor, ws: seq<string>)
    ensures ExpectAll(c, ws).0 <==> MatchLen(Rest(c), ws) == |ws|
    ensures Rest(ExpectAll(c, ws).1) == Rest(c)[MatchLen(Rest(c), ws)..]
    decreases |ws|
  {
    StreamView(c);
    if ws != [] {
      var c1 := ExpectOf(c, ws[0]).1;
      if ExpectOf(c, ws[0]).0 {
        ExpectAllSpells(c1, ws[1..]);
        assert Rest(c)[1..][MatchLen(Rest(c1), ws[1..])..] == Rest(c)[1 + MatchLen(Rest(c1), ws[1..])..];
      }
    }
  }

  /** The mutable cursor the file readers use. */
  class StringParser {
    var cur: Cursor

    constructor(lines: seq<seq<Token>>)
      ensures cur == Start(lines)
    {
      cur := Start(lines);
    }

    function Done(): bool
      reads this
    {
      IsDone(cur)
    }

    function Peek(): Token
      reads this
    {
      PeekOf(cur)
    }

    method ReadToken() returns (t: Token)
      modifies this
      ensures t == PeekOf(old(cur)) && cur == Next(old(cur))
    {
      t := PeekOf(cur);
      cur := Next(cur);
    }

    method ReadNumber() returns (r: Result<real>)
      modifies this
      ensures NumberOf(old(cur)).Ok? ==> r == Ok(NumberOf(old(cur)).value.0) && cur == NumberOf(old(cur)).value.1
      ensures NumberOf(old(cur)).Fail? ==> r == Fail(NumberOf(old(cur)).error) && cur == old(cur)
    {
      var n := NumberOf(cur);
      if n.Ok? {
        r := Ok(n.value.0);
        cur := n.value.1;
      } else {
        r := Fail(n.error);
      }
    }

    method Expect(w: string) returns (ok: bool)
      modifies this
      ensures (ok, cur) == ExpectOf(old(cur), w)
    {
      ok, cur := ExpectOf(cur, w).0, ExpectOf(cur, w).1;
    }

    method ReadLine() returns (ts: seq<Token>)
      modifies this
      ensures ts == LineOf(old(cur)) && cur == NextLine(old(cur))
    {
      ts := LineOf(cur);
      cur := NextLine(cur);
    }

    method ConsumeLine()
      modifies this
      ensures cur == NextLine(old(cur))
    {
      cur := NextLine(cur);
    }
  }
}
