/**
 * Prompt construction in the stage component: pointer input becomes point
 * or box prompts in model space, drags are counted against a threshold, and
 * the drag rectangle is grown to cover the positive point prompts.
 */
module Prompts {
  import opened Options

  const NEGATIVE: int := 0
  const POSITIVE: int := 1
  const BOX: int := 2

  /** Number of drag moves after which a box prompt is recomputed. */
  const DRAG_THRESHOLD: nat := 4

  /**
   * A prompt in model space. For a point `width` and `height` are null; for
   * a box they hold the maximum corner (not the extent).
   */
  datatype Click = Click(x: real, y: real, width: Option<real>, height: Option<real>, clickType: int)

  /** A drag: start corner (sx, sy) and current pointer (x, y), in display space. */
  datatype Points = Points(sx: real, sy: real, x: real, y: real)

  /** A rectangle drawn on the stage while dragging. */
  datatype Annotation = Annotation(x: real, y: real, width: real, height: real, clickType: int)

  /** Bounds of the positive point prompts; null where nothing was found. */
  datatype Range = Range(xMin: Option<real>, yMin: Option<real>, xMax: Option<real>, yMax: Option<real>)

  datatype Axis = X | Y

  /** The stage's interaction mode ("Click", "Box" or "All" in the interface). */
  datatype SegmentType = ClickMode | BoxMode | AllMode

  /** JavaScript truthiness of a nullable number: null and 0 are falsy. */
  predicate Truthy(o: Option<real>)
  {
    o.Some? && o.value != 0.0
  }

  function Min(a: real, b: real): real { if a <= b then a else b }

  function Max(a: real, b: real): real { if a >= b then a else b }

  /**
   * The prompt label for a mouse button: the primary button (or none)
   * gives a positive prompt, the secondary button a negative one, any other
   * button no prompt; the negative-prompt toggle only relabels a prompt
   * that was produced.
   */
  function ClickLabel(button: Option<int>, negativeToggle: bool): (kind: Option<int>)
    ensures kind.None? <==> button.Some? && button.value != 0 && button.value != 2
    ensures kind.Some? && (negativeToggle || button == Some(2)) ==> kind.value == NEGATIVE
    ensures kind.Some? && !negativeToggle && button != Some(2) ==> kind.value == POSITIVE
  {
    var fromButton :=
      if button.None? || button.value == 0 then Some(POSITIVE)
      else if button.value == 2 then Some(NEGATIVE)
      else None;
    if fromButton.None? then None
    else if negativeToggle then Some(NEGATIVE)
    else fromButton
  }

  /** A model-space coordinate mapped back to display space. */
  function Unscale(v: real, scale: real, canvasScale: real): real
    requires scale > 0.0
  {
    v * canvasScale / scale
  }

  /** Scaling into model space and back gives the display coordinate again. */
  lemma ScaleCancels(v: real, scale: real, canvasScale: real)
    requires scale > 0.0 && canvasScale > 0.0
    ensures Unscale(v * (scale / canvasScale), scale, canvasScale) == v
  {
    calc {
      v * (scale / canvasScale) * canvasScale / scale;
      == { assert (scale / canvasScale) * canvasScale == scale; }
      v * scale / scale;
    }
  }

  /**
   * A point prompt from a pointer position: both coordinates are scaled by
   * the same factor `scale / canvasScale` into model space, so the inverse
   * factor brings them back, and the prompt has no box corner.
   */
  function GetClick(button: Option<int>, negativeToggle: bool, x: real, y: real,
                    scale: real, canvasScale: real): (c: Option<Click>)
    requires scale > 0.0 && canvasScale > 0.0
    ensures c.None? <==> ClickLabel(button, negativeToggle).None?
    ensures c.Some? ==> c.value.clickType == ClickLabel(button, negativeToggle).value
    ensures c.Some? ==> c.value.width.None? && c.value.height.None?
    ensures c.Some? ==> Unscale(c.value.x, scale, canvasScale) == x && Unscale(c.value.y, scale, canvasScale) == y
  {
    var kind := ClickLabel(button, negativeToggle);
    if kind.None? then None
    else
      var factor := scale / canvasScale;
      ScaleCancels(x, scale, canvasScale);
      ScaleCancels(y, scale, canvasScale);
      Some(Click(x * factor, y * factor, None, None, kind.value))
  }

  lemma ScaleKeepsOrder(a: real, b: real, f: real)
    requires f > 0.0
    ensures a <= b <==> a * f <= b * f
  {
    if a <= b {
      assert (b - a) * f >= 0.0;
    } else {
      assert (a - b) * f > 0.0;
    }
  }

  /**
   * The box prompt for a drag: its (x, y) is the minimum and its
   * (width, height) the maximum corner of the drag, both in model space.
   */
  function BoxClick(p: Points, scale: real, canvasScale: real): (b: Click)
    requires scale > 0.0 && canvasScale > 0.0
    ensures b.clickType == BOX && b.width.Some? && b.height.Some?
    ensures b.x <= b.width.value && b.y <= b.height.value
    ensures Unscale(b.x, scale, canvasScale) == Min(p.sx, p.x)
    ensures Unscale(b.y, scale, canvasScale) == Min(p.sy, p.y)
    ensures Unscale(b.width.value, scale, canvasScale) == Max(p.sx, p.x)
    ensures Unscale(b.height.value, scale, canvasScale) == Max(p.sy, p.y)
  {
    var xs := ScaledSpan(p.sx, p.x, scale, canvasScale);
    var ys := ScaledSpan(p.sy, p.y, scale, canvasScale);
    Click(xs.0, ys.0, Some(xs.1), Some(ys.1), BOX)
  }

  /**
   * One axis of a box: both ends scaled into model space, then ordered;
   * the inverse factor maps the ends back to the display-space min and max.
   */
  function ScaledSpan(a: real, b: real, scale: real, canvasScale: real): (r: (real, real))
    requires scale > 0.0 && canvasScale > 0.0
    ensures r.0 <= r.1
    ensures Unscale(r.0, scale, canvasScale) == Min(a, b)
    ensures Unscale(r.1, scale, canvasScale) == Max(a, b)
  {
    var f := scale / canvasScale;
    ScaleKeepsOrder(a, b, f);
    ScaleCancels(a, scale, canvasScale);
    ScaleCancels(b, scale, canvasScale);
    if a <= b then (a * f, b * f) else (b * f, a * f)
  }

  /**
   * The prompt list after a box prompt is placed: the box is always first;
   * if the old first prompt was a point (falsy width) the box is inserted in
   * front of everything, otherwise it replaces the old first prompt.
   */
  function PlaceBox(cs: seq<Click>, box: Click): (r: seq<Click>)
    ensures |r| >= 1 && r[0] == box
    ensures |cs| > 0 && !Truthy(cs[0].width) ==> r[1..] == cs
    ensures |cs| > 0 && Truthy(cs[0].width) ==> r[1..] == cs[1..]
    ensures |cs| == 0 ==> r == [box]
  {
    if |cs| > 0 && !Truthy(cs[0].width) then [box] + cs
    else if |cs| == 0 then [box]
    else cs[0 := box]
  }

  /** The rectangle drawn for a drag: from the drag start to the pointer. */
  function GetAnnotation(p: Points): (a: Annotation)
    ensures a.clickType == BOX
    ensures a.x == p.sx && a.y == p.sy
    ensures a.x + a.width == p.x && a.y + a.height == p.y
  {
    Annotation(p.sx, p.sy, p.x - p.sx, p.y - p.sy, BOX)
  }

  // ---------------------------------------------------------------------
  // Bounding range of the positive point prompts

  function Coord(c: Click, axis: Axis): real
  {
    if axis == X then c.x else c.y
  }

  /** Boxes (truthy width) and negative prompts do not count toward the range. */
  predicate Counted(c: Click)
  {
    !Truthy(c.width) && c.clickType != NEGATIVE
  }

  /** One update of a running bound; an unset or zero bound is always replaced. */
  function Step(acc: Option<real>, v: real, wantMax: bool): Option<real>
  {
    if !Truthy(acc) || (if wantMax then v > acc.value else v < acc.value) then Some(v) else acc
  }

  /** The running bound after scanning the prompts left to right. */
  function Running(cs: seq<Click>, axis: Axis, wantMax: bool): Option<real>
    decreases |cs|
  {
    if cs == [] then None
    else
      var acc := Running(cs[..|cs| - 1], axis, wantMax);
      var c := cs[|cs| - 1];
      if Counted(c) then Step(acc, Coord(c, axis), wantMax) else acc
  }

  /** Maps a truthy bound back to display space; null and 0 are kept. */
  function ToDisplay(v: Option<real>, scale: real, canvasScale: real): Option<real>
    requires scale > 0.0
  {
    if Truthy(v) then Some(Unscale(v.value, scale, canvasScale)) else v
  }

  function ClickRange(cs: seq<Click>, scale: real, canvasScale: real): Range
    requires scale > 0.0
  {
    Range(ToDisplay(Running(cs, X, false), scale, canvasScale),
          ToDisplay(Running(cs, Y, false), scale, canvasScale),
          ToDisplay(Running(cs, X, true), scale, canvasScale),
          ToDisplay(Running(cs, Y, true), scale, canvasScale))
  }

  /** The prompt list the range is computed over: given list, else current list, plus an extra prompt. */
  function AllClicks(newClicks: Option<seq<Click>>, clicks: Option<seq<Click>>, extra: Option<Click>): Option<seq<Click>>
  {
    var base := if newClicks.Some? then newClicks else clicks;
    if base.None? then None
    else Some(base.value + if extra.Some? then [extra.value] else [])
  }

  /** Scans the prompts once, keeping four running bounds. */
  method FindClickRange(newClicks: Option<seq<Click>>, clicks: Option<seq<Click>>, extra: Option<Click>,
                        scale: real, canvasScale: real) returns (range: Option<Range>)
    requires scale > 0.0
    ensures range.None? <==> newClicks.None? && clicks.None?
    ensures range.Some? ==> range.value == ClickRange(AllClicks(newClicks, clicks, extra).value, scale, canvasScale)
  {
    var all: seq<Click>;
    if newClicks.Some? {
      all := newClicks.value;
    } else if clicks.Some? {
      all := clicks.value;
    } else {
      return None;
    }
    if extra.Some? {
      all := all + [extra.value];
    }
    var xMin, yMin, xMax, yMax: Option<real> := None, None, None, None;
    for i := 0 to |all|
      invariant xMin == Running(all[..i], X, false)
      invariant yMin == Running(all[..i], Y, false)
      invariant xMax == Running(all[..i], X, true)
      invariant yMax == Running(all[..i], Y, true)
    {
      assert all[..i + 1][..i] == all[..i];
      var c := all[i];
      if Truthy(c.width) {
        continue;
      }
      if c.clickType == NEGATIVE {
        continue;
      }
      if !Truthy(xMin) || c.x < xMin.value {
        xMin := Some(c.x);
      }
      if !Truthy(yMin) || c.y < yMin.value {
        yMin := Some(c.y);
      }
      if !Truthy(xMax) || c.x > xMax.value {
        xMax := Some(c.x);
      }
      if !Truthy(yMax) || c.y > yMax.value {
        yMax := Some(c.y);
      }
    }
    assert all[..|all|] == all;
    assert all == AllClicks(newClicks, clicks, extra).value;
    range := Some(Range(ToDisplay(xMin, scale, canvasScale), ToDisplay(yMin, scale, canvasScale),
                        ToDisplay(xMax, scale, canvasScale), ToDisplay(yMax, scale, canvasScale)));
  }

  /** A running bound is set exactly when some prompt counts. */
  lemma {:induction false} RunningSetIffCounted(cs: seq<Click>, axis: Axis, wantMax: bool)
    ensures Running(cs, axis, wantMax).Some? <==> exists i :: 0 <= i < |cs| && Counted(cs[i])
  {
    if cs != [] {
      var init := cs[..|cs| - 1];
      RunningSetIffCounted(init, axis, wantMax);
      if exists i :: 0 <= i < |init| && Counted(init[i]) {
        var i :| 0 <= i < |init| && Counted(init[i]);
        assert cs[i] == init[i];
      }
      if exists i :: 0 <= i < |cs| && Counted(cs[i]) {
        var i :| 0 <= i < |cs| && Counted(cs[i]);
        if i < |cs| - 1 {
          assert init[i] == cs[i];
        }
      }
    }
  }

  /** A set running bound is the coordinate of a prompt that counts. */
  lemma {:induction false} RunningIsCoordinate(cs: seq<Click>, axis: Axis, wantMax: bool)
    requires Running(cs, axis, wantMax).Some?
    ensures exists i :: 0 <= i < |cs| && Counted(cs[i]) && Coord(cs[i], axis) == Running(cs, axis, wantMax).value
  {
    var init := cs[..|cs| - 1];
    var last := cs[|cs| - 1];
    if Counted(last) && Running(cs, axis, wantMax) == Some(Coord(last, axis)) {
      assert Counted(cs[|cs| - 1]);
    } else {
      assert Running(cs, axis, wantMax) == Running(init, axis, wantMax);
      RunningIsCoordinate(init, axis, wantMax);
      var i :| 0 <= i < |init| && Counted(init[i]) && Coord(init[i], axis) == Running(init, axis, wantMax).value;
      assert cs[i] == init[i];
    }
  }

  /**
   * When no counted prompt sits at coordinate 0, the running bound is the
   * true minimum (or maximum) over the counted prompts.
   */
  lemma {:induction false} RunningIsExtreme(cs: seq<Click>, axis: Axis, wantMax: bool)
    requires forall i :: 0 <= i < |cs| && Counted(cs[i]) ==> Coord(cs[i], axis) != 0.0
    requires Running(cs, axis, wantMax).Some?
    ensures forall i :: 0 <= i < |cs| && Counted(cs[i]) ==>
      if wantMax then Coord(cs[i], axis) <= Running(cs, axis, wantMax).value
      else Running(cs, axis, wantMax).value <= Coord(cs[i], axis)
  {
    var init := cs[..|cs| - 1];
    var acc := Running(init, axis, wantMax);
    if acc.Some? {
      forall i | 0 <= i < |init| && Counted(init[i]) ensures Coord(init[i], axis) != 0.0 {
        assert init[i] == cs[i];
      }
      RunningIsExtreme(init, axis, wantMax);
      RunningIsCoordinate(init, axis, wantMax);
      assert acc.value != 0.0;
    } else {
      RunningSetIffCounted(init, axis, wantMax);
    }
    forall i | 0 <= i < |cs| && Counted(cs[i])
      ensures if wantMax then Coord(cs[i], axis) <= Running(cs, axis, wantMax).value
              else Running(cs, axis, wantMax).value <= Coord(cs[i], axis)
    {
      if i < |cs| - 1 {
        assert init[i] == cs[i];
      }
    }
  }

  /** A prompt at coordinate 0 counts as unset: the next point replaces it even when larger. */
  lemma ZeroCoordinateIsUnset()
    ensures var p0 := Click(0.0, 1.0, None, None, POSITIVE);
            var p5 := Click(5.0, 1.0, None, None, POSITIVE);
            Running([p0, p5], X, false) == Some(5.0)
  {
    var p0 := Click(0.0, 1.0, None, None, POSITIVE);
    var p5 := Click(5.0, 1.0, None, None, POSITIVE);
    assert [p0, p5][..1] == [p0];
    assert [p0][..0] == [];
    assert Running([p0], X, false) == Some(0.0);
    assert Running([p0, p5], X, false) == Step(Some(0.0), 5.0, false);
  }

  // ---------------------------------------------------------------------
  // Growing the drag rectangle to cover the range

  /**
   * One axis of the drag, grown first toward `lo` then toward `hi`: the
   * smaller end moves to `lo` when `lo` lies below it, the larger end to
   * `hi` when `hi` lies above it.
   */
  function GrowAxis(s: real, e: real, lo: real, hi: real): (r: (real, real))
    ensures Min(r.0, r.1) == Min(Min(s, e), lo)
    ensures Max(r.0, r.1) == Max(Max(s, e), hi)
  {
    var lo0, hi0 := Min(s, e), Max(s, e);
    var (s1, e1) := if lo < lo0 then (if s < e then (lo, e) else (s, lo)) else (s, e);
    if hi > hi0 then (if s1 > e1 then (hi, e1) else (s1, hi)) else (s1, e1)
  }

  /** The range is used only when it exists and all four bounds are truthy. */
  predicate RangeUsable(range: Option<Range>)
  {
    range.Some? && Truthy(range.value.xMin) && Truthy(range.value.yMin)
    && Truthy(range.value.xMax) && Truthy(range.value.yMax)
  }

  /**
   * The drag grown to the smallest rectangle that holds both the old drag
   * rectangle and the range; without a usable range the drag is unchanged.
   */
  function AdjustPointsToRange(p: Points, range: Option<Range>): (q: Points)
    ensures !RangeUsable(range) ==> q == p
    ensures RangeUsable(range) ==>
      && Min(q.sx, q.x) == Min(Min(p.sx, p.x), range.value.xMin.value)
      && Min(q.sy, q.y) == Min(Min(p.sy, p.y), range.value.yMin.value)
      && Max(q.sx, q.x) == Max(Max(p.sx, p.x), range.value.xMax.value)
      && Max(q.sy, q.y) == Max(Max(p.sy, p.y), range.value.yMax.value)
  {
    if !RangeUsable(range) then p
    else
      var r := range.value;
      var (sx, x) := GrowAxis(p.sx, p.x, r.xMin.value, r.xMax.value);
      var (sy, y) := GrowAxis(p.sy, p.y, r.yMin.value, r.yMax.value);
      Points(sx, sy, x, y)
  }

  /** The grown drag never shrinks and contains the range on both axes. */
  lemma AdjustedContainsRange(p: Points, range: Option<Range>)
    requires RangeUsable(range)
    ensures var q := AdjustPointsToRange(p, range);
      && Min(q.sx, q.x) <= Min(p.sx, p.x) && Max(q.sx, q.x) >= Max(p.sx, p.x)
      && Min(q.sy, q.y) <= Min(p.sy, p.y) && Max(q.sy, q.y) >= Max(p.sy, p.y)
      && Min(q.sx, q.x) <= range.value.xMin.value && Max(q.sx, q.x) >= range.value.xMax.value
      && Min(q.sy, q.y) <= range.value.yMin.value && Max(q.sy, q.y) >= range.value.yMax.value
  {
  }

  // ---------------------------------------------------------------------
  // Drag counting

  /** One drag move: the counter advances, and on reaching the threshold it fires and resets. */
  function DragStep(count: nat): (r: (nat, bool))
    requires count < DRAG_THRESHOLD
    ensures r.0 < DRAG_THRESHOLD
    ensures r.1 <==> count + 1 == DRAG_THRESHOLD
    ensures r.0 == (count + 1) % DRAG_THRESHOLD
  {
    if count + 1 == DRAG_THRESHOLD then (0, true) else (count + 1, false)
  }

  /** Counter value and number of box recomputes after `n` drag moves. */
  function AfterMoves(count: nat, n: nat): (nat, nat)
    requires count < DRAG_THRESHOLD
    decreases n
  {
    if n == 0 then (count, 0)
    else
      var (c1, fired) := DragStep(count);
      var r := AfterMoves(c1, n - 1);
      (r.0, r.1 + if fired then 1 else 0)
  }

  /** n moves from counter c leave the counter at (c + n) mod 4 and fire (c + n) div 4 recomputes. */
  lemma {:induction false} MovesFireEveryThreshold(count: nat, n: nat)
    requires count < DRAG_THRESHOLD
    decreases n
    ensures AfterMoves(count, n) == ((count + n) % DRAG_THRESHOLD, (count + n) / DRAG_THRESHOLD)
  {
    if n > 0 {
      var (c1, fired) := DragStep(count);
      MovesFireEveryThreshold(c1, n - 1);
      if fired {
        assert count + n == DRAG_THRESHOLD + (n - 1);
      } else {
        assert c1 == count + 1;
      }
    }
  }

  /** Five moves from a fresh drag trigger exactly one recompute. */
  lemma FiveMovesOneRecompute()
    ensures AfterMoves(0, 5).1 == 1
  {
    MovesFireEveryThreshold(0, 5);
  }
}
