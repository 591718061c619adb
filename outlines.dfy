/**
 * The outline list of the mask view: the traced path string is split into
 * sub-paths before every move command 'M', and the last sub-path is
 * appended to, or drops the final entry of, a list of coloured outlines.
 */
module SvgOutlines {
  import opened Options

  /** One outline drawn on the mask, with the hold colour chosen when it was added. */
  datatype Outline = Outline(svg: string, colour: string)

  function Join(pieces: seq<string>): string
  {
    if pieces == [] then [] else pieces[0] + Join(pieces[1..])
  }

  /**
   * `s.split(/(?=M)/)` for a non-empty string: a cut before every 'M'
   * that is not the first character. No piece is empty; the pieces join
   * back to `s` (SplitJoins), and 'M' begins every later piece and occurs
   * nowhere else (SplitCutsAtMoves).
   */
  function Split(s: string): (pieces: seq<string>)
    requires |s| > 0
    ensures |pieces| >= 1
    ensures forall i :: 0 <= i < |pieces| ==> |pieces[i]| > 0
    decreases |s|
  {
    if |s| == 1 then [s]
    else
      var t := Split(s[1..]);
      if s[1] == 'M' then [s[..1]] + t
      else [s[..1] + t[0]] + t[1..]
  }

  lemma {:induction false} SplitJoins(s: string)
    requires |s| > 0
    ensures Join(Split(s)) == s
    decreases |s|
  {
    if |s| > 1 {
      var t := Split(s[1..]);
      SplitJoins(s[1..]);
      assert s == s[..1] + s[1..];
      if s[1] == 'M' {
        assert Split(s) == [s[..1]] + t;
        JoinCons(s[..1], t);
      } else {
        assert Split(s) == [s[..1] + t[0]] + t[1..];
        JoinCons(s[..1] + t[0], t[1..]);
        assert t == [t[0]] + t[1..];
        JoinCons(t[0], t[1..]);
      }
    }
  }

  lemma JoinCons(x: string, rest: seq<string>)
    ensures Join([x] + rest) == x + Join(rest)
  {
    assert ([x] + rest)[1..] == rest;
  }

  lemma {:induction false} SplitCutsAtMoves(s: string)
    requires |s| > 0
    ensures Split(s)[0][0] == s[0]
    ensures forall i :: 0 < i < |Split(s)| ==> Split(s)[i][0] == 'M'
    ensures forall i, j :: 0 <= i < |Split(s)| && 0 < j < |Split(s)[i]| ==> Split(s)[i][j] != 'M'
    decreases |s|
  {
    if |s| > 1 {
      var t := Split(s[1..]);
      SplitCutsAtMoves(s[1..]);
      if s[1] != 'M' {
        var r := [s[..1] + t[0]] + t[1..];
        assert forall j :: 0 < j < |r[0]| ==> r[0][j] == t[0][j - 1];
        assert forall i :: 0 < i < |r| ==> r[i] == t[i];
      }
    }
  }

  /** The split as JavaScript returns it: the empty string gives one empty piece. */
  function SplitBeforeM(s: string): seq<string>
  {
    if s == [] then [[]] else Split(s)
  }

  /** `filter((str) => str)`: drops the empty pieces. */
  function NonEmpty(pieces: seq<string>): (kept: seq<string>)
    ensures forall i :: 0 <= i < |kept| ==> |kept[i]| > 0
    ensures (forall i :: 0 <= i < |pieces| ==> |pieces[i]| > 0) ==> kept == pieces
  {
    if pieces == [] then []
    else if pieces[0] == [] then NonEmpty(pieces[1..])
    else [pieces[0]] + NonEmpty(pieces[1..])
  }

  /** The sub-paths of a path string; a non-empty string has at least one. */
  function Pieces(s: string): (pieces: seq<string>)
    ensures s == [] ==> pieces == []
    ensures s != [] ==> pieces == Split(s)
  {
    NonEmpty(SplitBeforeM(s))
  }

  predicate HasOutline(outlines: seq<Outline>, svg: string)
  {
    exists i :: 0 <= i < |outlines| && outlines[i].svg == svg
  }

  /**
   * The last sub-path of a non-empty path string: a suffix of the string
   * that contains 'M' at most as its first character, and that starts with
   * 'M' whenever the string was cut at all.
   */
  function LastPiece(s: string): (last: string)
    requires s != []
    ensures 0 < |last| <= |s| && last == s[|s| - |last|..]
    ensures forall j :: 0 < j < |last| ==> last[j] != 'M'
    ensures |Pieces(s)| > 1 ==> last[0] == 'M'
  {
    var pieces := Pieces(s);
    SplitJoins(s);
    SplitCutsAtMoves(s);
    JoinEndsWithLast(pieces);
    pieces[|pieces| - 1]
  }

  lemma {:induction false} JoinEndsWithLast(pieces: seq<string>)
    requires |pieces| > 0
    ensures |pieces[|pieces| - 1]| <= |Join(pieces)|
    ensures Join(pieces)[|Join(pieces)| - |pieces[|pieces| - 1]|..] == pieces[|pieces| - 1]
  {
    if |pieces| > 1 {
      JoinEndsWithLast(pieces[1..]);
      assert pieces[1..][|pieces| - 2] == pieces[|pieces| - 1];
    }
  }

  /**
   * One update of the outline list for a new path string `svgStr` in the
   * current hold colour. An empty string changes nothing. Otherwise: an
   * empty or missing list becomes the last sub-path alone; a last sub-path
   * not yet listed is appended; a listed one with fewer sub-paths than
   * outlines drops the final outline; anything else keeps the list.
   */
  function UpdateOutlines(current: Option<seq<Outline>>, svgStr: string, colour: string): (next: Option<seq<Outline>>)
    ensures svgStr == [] ==> next == current
    ensures svgStr != [] ==> next.Some?
    ensures |OrEmpty(current)| - 1 <= |OrEmpty(next)| <= |OrEmpty(current)| + 1
    ensures svgStr != [] && !HasOutline(OrEmpty(current), LastPiece(svgStr)) ==>
      next == Some(OrEmpty(current) + [Outline(LastPiece(svgStr), colour)])
    ensures svgStr != [] && |OrEmpty(current)| > 0 && HasOutline(OrEmpty(current), LastPiece(svgStr)) ==>
      next == if |Pieces(svgStr)| < |OrEmpty(current)| then Some(current.value[..|current.value| - 1]) else current
  {
    if svgStr == [] then current
    else
      var pieces := Pieces(svgStr);
      var last := LastPiece(svgStr);
      if current.None? || |current.value| == 0 then
        assert OrEmpty(current) + [Outline(last, colour)] == [Outline(last, colour)];
        Some([Outline(last, colour)])
      else if !HasOutline(current.value, last) then
        Some(current.value + [Outline(last, colour)])
      else if |pieces| < |current.value| then
        Some(current.value[..|current.value| - 1])
      else current
  }

  /** The earlier outlines are never recoloured or reordered: the old list minus its last entry is a prefix of the new one. */
  lemma UpdateKeepsEarlierOutlines(current: Option<seq<Outline>>, svgStr: string, colour: string)
    requires |OrEmpty(current)| > 0
    ensures var old_ := OrEmpty(current);
      var new_ := OrEmpty(UpdateOutlines(current, svgStr, colour));
      |old_| - 1 <= |new_| && new_[..|old_| - 1] == old_[..|old_| - 1]
  {
  }
}
