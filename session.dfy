/**
 * The interaction state shared by the stage, the canvas and the
 * application shell: the prompt list and its redo history, the predicted
 * masks and theirs, the freehand lines and theirs, and the drag in
 * progress. Every handler is one synchronous step; the model, the tracer
 * and the pointer are parameters.
 */
module Interaction {
  import opened Options
  import opened Prompts
  import CanvasGeometry
  import AppModel

  /** A low-resolution mask returned by the model; only its identity matters here. */
  datatype Mask = Mask(id: nat)

  /** A freehand stroke drawn in drawing mode; only its identity matters here. */
  datatype Line = Line(id: nat)

  /**
   * The prompt list an undo or redo step leaves: `newClicks` itself with no
   * drag; with a drag, the drag grown to hold the positive points of
   * `newClicks` becomes a box placed first.
   */
  function AppliedPrompts(newClicks: seq<Click>, points: Option<Points>, scale: real, canvasScale: real): (r: seq<Click>)
    requires scale > 0.0 && canvasScale > 0.0
    ensures points.None? ==> r == newClicks
    ensures points.Some? ==> |r| >= 1 && r[0] == BoxClick(GrownDrag(newClicks, points.value, scale, canvasScale), scale, canvasScale)
    ensures points.Some? && |newClicks| > 0 ==> r[1..] == (if Truthy(newClicks[0].width) then newClicks[1..] else newClicks)
  {
    if points.None? then newClicks
    else PlaceBox(newClicks, BoxClick(GrownDrag(newClicks, points.value, scale, canvasScale), scale, canvasScale))
  }

  /** The drag `p` grown to hold the range of the prompts `newClicks` (a copy; the drag itself is kept). */
  function GrownDrag(newClicks: seq<Click>, p: Points, scale: real, canvasScale: real): Points
    requires scale > 0.0
  {
    AdjustPointsToRange(p, Some(ClickRange(newClicks, scale, canvasScale)))
  }

  class Session {
    var segmentType: SegmentType
    var stickerTab: bool
    var isAllowDrawing: bool
    var isMultiMaskMode: bool
    var userNegClick: bool
    var hasClicked: bool
    var hasNegClicked: bool
    var isLoading: bool
    var isErased: bool

    var click: Option<Click>
    var clicks: Option<seq<Click>>
    var clicksHistory: Option<seq<Click>>
    var predMask: Option<Mask>
    var predMasks: Option<seq<Mask>>
    var predMasksHistory: Option<seq<Mask>>
    var drawnLines: seq<Line>
    var drawnLinesHistory: Option<seq<Line>>
    var svg: Option<seq<string>>

    var annotations: seq<Annotation>
    var newAnnotation: seq<Annotation>
    var points: Option<Points>
    var numOfDragEvents: nat

    /** The display scale of the loaded image and the canvas clamp factor. */
    var scale: real
    var canvasScale: real

    predicate Valid()
      reads this
    {
      scale > 0.0 && canvasScale > 0.0 && numOfDragEvents < DRAG_THRESHOLD
    }

    /** Undo has something to take back: both the mask list and the prompt list are non-empty. */
    predicate CanUndo()
      reads this
    {
      predMasks.Some? && |predMasks.value| > 0 && clicks.Some? && |clicks.value| > 0
    }

    /** Redo has something to restore: both histories are non-empty. */
    predicate CanRedo()
      reads this
    {
      predMasksHistory.Some? && |predMasksHistory.value| > 0 && clicksHistory.Some? && |clicksHistory.value| > 0
    }

    /**
     * What a reset leaves: no prompts, masks, outlines, drag or lines, no
     * prompt or mask history, and neither the negative toggle nor loading.
     */
    predicate Cleared()
      reads this
    {
      && svg.None? && click.None? && clicks.None? && clicksHistory.None?
      && predMask.None? && predMasks.None? && predMasksHistory.None?
      && annotations == [] && newAnnotation == [] && points.None? && drawnLines == []
      && !userNegClick && !isLoading
    }

    /**
     * One undo step in drawing mode: the last line moves onto the line
     * history; with no lines, a null history becomes an empty one.
     */
    twostate predicate LineUndone()
      reads this
    {
      var lines, h := old(drawnLines), OrEmpty(old(drawnLinesHistory));
      && (lines == [] ==> drawnLines == [] && drawnLinesHistory == Some(h))
      && (lines != [] ==>
            drawnLines == lines[..|lines| - 1] && drawnLinesHistory == Some(h + [lines[|lines| - 1]]))
    }

    /**
     * One redo step in drawing mode: the last line of the history moves
     * back onto the lines; a null history becomes an empty one.
     */
    twostate predicate LineRedone()
      reads this
    {
      var h := OrEmpty(old(drawnLinesHistory));
      && (h == [] ==> drawnLines == old(drawnLines) && drawnLinesHistory == Some([]))
      && (h != [] ==> drawnLines == old(drawnLines) + [h[|h| - 1]] && drawnLinesHistory == Some(h[..|h| - 1]))
    }

    /**
     * One undo step of a prompt, from a state where undo is possible: the
     * last mask and the last prompt move onto their histories. Undoing the
     * only prompt clears the prompts, the mask, the outlines and the drag;
     * otherwise loading starts, the previous mask is shown, the remaining
     * prompts are applied and the outlines stay.
     */
    twostate predicate PromptUndone()
      reads this
    {
      && Valid() && old(CanUndo())
      && var pm, cs := old(predMasks).value, old(clicks).value;
      && predMasks == Some(pm[..|pm| - 1])
      && predMasksHistory == Some(OrEmpty(old(predMasksHistory)) + [pm[|pm| - 1]])
      && clicksHistory == Some(OrEmpty(old(clicksHistory)) + [cs[|cs| - 1]])
      && (|cs| == 1 ==>
            && clicks.None? && !hasClicked && predMask.None? && svg.None? && !isErased
            && points.None? && annotations == [] && newAnnotation == [] && isLoading == old(isLoading))
      && (|cs| > 1 ==>
            && isLoading && points == old(points) && hasClicked == old(hasClicked) && svg == old(svg)
            && isErased == old(isErased) && newAnnotation == old(newAnnotation)
            && predMask == (if |pm| > 1 then Some(pm[|pm| - 2]) else None)
            && clicks == Some(AppliedPrompts(cs[..|cs| - 1], points, scale, canvasScale))
            && (points.None? ==> annotations == old(annotations))
            && (points.Some? ==> annotations == [GetAnnotation(GrownDrag(cs[..|cs| - 1], points.value, scale, canvasScale))]))
    }

    /**
     * One redo step of a prompt, from a state where redo is possible: the
     * last mask and the last prompt of the histories move back, loading
     * starts, the mask is shown and the restored prompts are applied.
     */
    twostate predicate PromptRedone()
      reads this
    {
      && Valid() && old(CanRedo())
      && var ph, ch := old(predMasksHistory).value, old(clicksHistory).value;
      && var newClicks := OrEmpty(old(clicks)) + [ch[|ch| - 1]];
      && isLoading && hasClicked
      && predMasks == Some(OrEmpty(old(predMasks)) + [ph[|ph| - 1]])
      && predMasksHistory == Some(ph[..|ph| - 1])
      && predMask == Some(ph[|ph| - 1])
      && clicksHistory == Some(ch[..|ch| - 1])
      && clicks == Some(AppliedPrompts(newClicks, points, scale, canvasScale))
      && (points.None? ==> annotations == old(annotations))
      && (points.Some? ==> annotations == [GetAnnotation(GrownDrag(newClicks, points.value, scale, canvasScale))])
    }

    /** The state of a freshly loaded image at display scale `scale`. */
    constructor (scale: real)
      requires scale > 0.0
      ensures Valid()
      ensures segmentType == ClickMode && !stickerTab && !isAllowDrawing && !isMultiMaskMode
      ensures !userNegClick && !hasClicked && !hasNegClicked && !isLoading && !isErased
      ensures click.None? && clicks.None? && clicksHistory.None?
      ensures predMask.None? && predMasks.None? && predMasksHistory.None?
      ensures drawnLines == [] && drawnLinesHistory.None? && svg.None?
      ensures annotations == [] && newAnnotation == [] && points.None? && numOfDragEvents == 0
      ensures this.scale == scale && canvasScale == 1.0
    {
      segmentType := ClickMode;
      stickerTab := false;
      isAllowDrawing := false;
      isMultiMaskMode := false;
      userNegClick := false;
      hasClicked := false;
      hasNegClicked := false;
      isLoading := false;
      isErased := false;
      click := None;
      clicks := None;
      clicksHistory := None;
      predMask := None;
      predMasks := None;
      predMasksHistory := None;
      drawnLines := [];
      drawnLinesHistory := None;
      svg := None;
      annotations := [];
      newAnnotation := [];
      points := None;
      numOfDragEvents := 0;
      this.scale := scale;
      canvasScale := 1.0;
    }

    /** The canvas reports the clamp factor for an image of `w` by `h`. */
    method SetCanvasScale(w: nat, h: nat, root: real)
      requires Valid() && CanvasGeometry.IsClampRoot(w, h, root)
      modifies this`canvasScale
      ensures Valid()
      ensures canvasScale == CanvasGeometry.CanvasScale(w, h, root)
      ensures 0.0 < canvasScale <= 1.0
    {
      canvasScale := CanvasGeometry.CanvasScale(w, h, root);
    }

    // -------------------------------------------------------------------
    // Pointer handlers

    /**
     * Mouse-down: outside the sticker tab every redo history is dropped;
     * in box mode the drag counter restarts and, when no drag is open, a
     * drag is opened at the pointer.
     */
    method MouseDown(x: real, y: real)
      requires Valid()
      modifies this`clicksHistory, this`predMasksHistory, this`drawnLinesHistory,
               this`numOfDragEvents, this`newAnnotation
      ensures Valid()
      ensures old(stickerTab) ==>
        clicksHistory == old(clicksHistory) && predMasksHistory == old(predMasksHistory)
        && drawnLinesHistory == old(drawnLinesHistory)
      ensures !stickerTab ==> clicksHistory.None? && predMasksHistory.None? && drawnLinesHistory.None?
      ensures !stickerTab && segmentType == BoxMode ==>
        numOfDragEvents == 0 &&
        newAnnotation == if old(newAnnotation) == [] then [Annotation(x, y, 0.0, 0.0, -1)] else old(newAnnotation)
      ensures stickerTab || segmentType != BoxMode ==>
        numOfDragEvents == old(numOfDragEvents) && newAnnotation == old(newAnnotation)
    {
      if stickerTab {
        return;
      }
      clicksHistory := None;
      predMasksHistory := None;
      drawnLinesHistory := None;
      if segmentType != BoxMode {
        return;
      }
      numOfDragEvents := 0;
      if newAnnotation == [] {
        newAnnotation := [Annotation(x, y, 0.0, 0.0, -1)];
      }
    }

    /**
     * `handleSegmentByBox`: the drag becomes a box prompt placed first in
     * the given prompt list (the current one when none is given), after an
     * optional extra prompt is appended.
     */
    method SegmentByBox(p: Points, extra: Option<Click>, newerClicks: Option<seq<Click>>)
      requires Valid()
      modifies this`clicks
      ensures clicks == Some(PlaceBox(AllClicks(newerClicks, Some(OrEmpty(old(clicks))), extra).value,
                                      BoxClick(p, scale, canvasScale)))
      ensures clicks.value[0].clickType == BOX
    {
      var base := AllClicks(newerClicks, Some(OrEmpty(clicks)), extra).value;
      clicks := Some(PlaceBox(base, BoxClick(p, scale, canvasScale)));
    }

    /**
     * Mouse-move, with the drag-threshold effect run after it. In click
     * mode before the first click the hovered point becomes the only
     * prompt; otherwise an open drag follows the pointer, and every fourth
     * move turns it into a box prompt (`fired`).
     */
    method MouseMove(button: Option<int>, x: real, y: real) returns (fired: bool)
      requires Valid()
      modifies this`clicks, this`newAnnotation, this`annotations, this`points, this`numOfDragEvents
      ensures Valid()
      ensures old(stickerTab) ==>
        !fired && clicks == old(clicks) && newAnnotation == old(newAnnotation) && annotations == old(annotations)
        && points == old(points) && numOfDragEvents == old(numOfDragEvents)
      ensures !stickerTab && segmentType == ClickMode && !hasClicked ==>
        var c := GetClick(button, userNegClick, x, y, scale, canvasScale);
        !fired && clicks == (if c.Some? then Some([c.value]) else old(clicks))
        && newAnnotation == old(newAnnotation) && annotations == old(annotations)
        && points == old(points) && numOfDragEvents == old(numOfDragEvents)
      ensures !stickerTab && !(segmentType == ClickMode && !hasClicked) && |old(newAnnotation)| == 1 ==>
        var p := Points(old(newAnnotation)[0].x, old(newAnnotation)[0].y, x, y);
        && newAnnotation == [GetAnnotation(p)] && annotations == [] && points == Some(p)
        && (fired <==> old(numOfDragEvents) + 1 == DRAG_THRESHOLD)
        && numOfDragEvents == (old(numOfDragEvents) + 1) % DRAG_THRESHOLD
        && clicks == if fired then Some(PlaceBox(OrEmpty(old(clicks)), BoxClick(p, scale, canvasScale))) else old(clicks)
      ensures !stickerTab && !(segmentType == ClickMode && !hasClicked) && |old(newAnnotation)| != 1 ==>
        !fired && clicks == old(clicks) && newAnnotation == old(newAnnotation) && annotations == old(annotations)
        && points == old(points) && numOfDragEvents == old(numOfDragEvents)
    {
      fired := false;
      if stickerTab {
        return;
      }
      if segmentType == ClickMode && !hasClicked {
        var c := GetClick(button, userNegClick, x, y, scale, canvasScale);
        if c.Some? {
          clicks := Some([c.value]);
        }
      } else if |newAnnotation| == 1 {
        var p := Points(newAnnotation[0].x, newAnnotation[0].y, x, y);
        newAnnotation := [GetAnnotation(p)];
        annotations := [];
        points := Some(p);
        var (count, fire) := DragStep(numOfDragEvents);
        numOfDragEvents := count;
        if fire {
          assert AllClicks(None, Some(OrEmpty(clicks)), None).value == OrEmpty(clicks);
          SegmentByBox(p, None, None);
          fired := true;
        }
      }
    }

    /**
     * The stage's mouse-up: outside the sticker tab it marks loading and
     * clicked; in click mode, after an earlier click or when asked to set
     * the pending click, the pointer prompt either becomes the pending
     * click or is appended to the prompt list.
     */
    method MouseUp(button: Option<int>, x: real, y: real, shouldSetClick: bool)
      requires Valid()
      modifies this`isLoading, this`hasClicked, this`hasNegClicked, this`click, this`clicks
      ensures Valid()
      ensures old(stickerTab) ==>
        isLoading == old(isLoading) && hasClicked == old(hasClicked)
        && hasNegClicked == old(hasNegClicked) && click == old(click) && clicks == old(clicks)
      ensures !stickerTab ==> isLoading && hasClicked
      ensures var c := GetClick(button, userNegClick, x, y, scale, canvasScale);
        var acts := !stickerTab && segmentType == ClickMode && (old(hasClicked) || shouldSetClick);
        && (acts && shouldSetClick ==>
              && click == c && clicks == old(clicks)
              && hasNegClicked == (old(hasNegClicked) || (c.Some? && c.value.clickType == NEGATIVE)))
        && (acts && !shouldSetClick ==>
              && click == old(click) && hasNegClicked == old(hasNegClicked)
              && clicks == (if c.Some? then Some(OrEmpty(old(clicks)) + [c.value]) else old(clicks)))
        && (!acts ==> click == old(click) && clicks == old(clicks) && hasNegClicked == old(hasNegClicked))
    {
      if stickerTab {
        return;
      }
      var wasClicked := hasClicked;
      isLoading := true;
      hasClicked := true;
      if segmentType == ClickMode && (wasClicked || shouldSetClick) {
        var c := GetClick(button, userNegClick, x, y, scale, canvasScale);
        if shouldSetClick {
          if c.Some? && c.value.clickType == NEGATIVE {
            hasNegClicked := true;
          }
          click := c;
        } else if c.Some? {
          clicks := Some(OrEmpty(clicks) + [c.value]);
        }
      }
    }

    /**
     * The canvas's mouse-up: a click while the sticker tab is open only
     * closes it; "All" mode and multi-mask mode with prompts ignore it;
     * otherwise loading starts and the stage handler runs.
     */
    method CanvasMouseUp(button: Option<int>, x: real, y: real)
      requires Valid()
      modifies this`stickerTab, this`isLoading, this`hasClicked, this`hasNegClicked, this`click, this`clicks
      ensures Valid()
      ensures !stickerTab
      ensures !CanvasGeometry.MouseUpReachesStage(old(stickerTab), segmentType, isMultiMaskMode, old(clicks)) ==>
        unchanged(this`isLoading, this`hasClicked, this`hasNegClicked, this`click, this`clicks)
      ensures CanvasGeometry.MouseUpReachesStage(old(stickerTab), segmentType, isMultiMaskMode, old(clicks)) ==>
        var c := GetClick(button, userNegClick, x, y, scale, canvasScale);
        isLoading && hasClicked && click == old(click) && hasNegClicked == old(hasNegClicked) &&
        clicks == (if segmentType == ClickMode && old(hasClicked) && c.Some? then Some(OrEmpty(old(clicks)) + [c.value]) else old(clicks))
    {
      if stickerTab {
        stickerTab := false;
        return;
      }
      if segmentType == AllMode {
        return;
      }
      if isMultiMaskMode && clicks.Some? {
        return;
      }
      isLoading := true;
      MouseUp(button, x, y, false);
    }

    /** Leaving the stage with only the hover prompt and no click resets the interaction. */
    method MouseOut()
      requires Valid()
      modifies this`svg, this`click, this`clicks, this`annotations, this`newAnnotation, this`clicksHistory,
               this`userNegClick, this`predMask, this`predMasks, this`predMasksHistory, this`isLoading,
               this`points, this`drawnLines, this`hasClicked, this`isMultiMaskMode
      ensures Valid()
      ensures var resets := !old(stickerTab) && old(clicks).Some? && |old(clicks).value| == 1
        && segmentType == ClickMode && !old(hasClicked);
        && (resets ==> Cleared() && !hasClicked && isMultiMaskMode == old(isMultiMaskMode))
        && (!resets ==> unchanged(this))
    {
      if stickerTab {
        return;
      }
      if clicks.Some? && |clicks.value| == 1 && segmentType == ClickMode && !hasClicked {
        ResetInteraction(false);
      }
    }

    /** The canvas merges the pending click into the prompt list. */
    method MergePendingClick()
      requires Valid()
      modifies this`clicks
      ensures click.Some? ==> clicks == CanvasGeometry.MergeClick(old(clicks), click)
      ensures click.Some? ==> clicks.Some? && clicks.value == OrEmpty(old(clicks)) + [click.value]
      ensures click.None? ==> clicks == old(clicks)
    {
      var merged := CanvasGeometry.MergeClick(clicks, click);
      if merged.Some? {
        assert merged.value == OrEmpty(clicks) + [click.value];
        clicks := merged;
      }
    }

    // -------------------------------------------------------------------
    // Undo and redo

    /**
     * The prompt list after an undo or redo step: with no drag it is
     * `newClicks` itself; with a drag, the drag is grown to hold the
     * positive points of `newClicks`, drawn, and placed first as a box.
     */
    method ApplyPrompts(newClicks: seq<Click>)
      requires Valid()
      modifies this`clicks, this`annotations
      ensures clicks == Some(AppliedPrompts(newClicks, points, scale, canvasScale))
      ensures points.None? ==> annotations == old(annotations)
      ensures points.Some? ==> annotations == [GetAnnotation(GrownDrag(newClicks, points.value, scale, canvasScale))]
    {
      if points.Some? {
        var range := FindClickRange(Some(newClicks), clicks, None, scale, canvasScale);
        assert AllClicks(Some(newClicks), clicks, None).value == newClicks;
        var q := AdjustPointsToRange(points.value, range);
        annotations := [GetAnnotation(q)];
        assert AllClicks(Some(newClicks), Some(OrEmpty(clicks)), None).value == newClicks;
        SegmentByBox(q, None, Some(newClicks));
      } else {
        clicks := Some(newClicks);
      }
    }

    /**
     * Undo in drawing mode: the last line moves onto the line history; an
     * empty line list only turns a missing history into an empty one.
     */
    method UndoLine()
      modifies this`drawnLines, this`drawnLinesHistory
      ensures LineUndone()
    {
      var history := OrEmpty(drawnLinesHistory);
      if drawnLines != [] {
        history := history + [drawnLines[|drawnLines| - 1]];
        drawnLines := drawnLines[..|drawnLines| - 1];
      }
      drawnLinesHistory := Some(history);
    }

    /**
     * Undo of a prompt: the last mask and the last prompt move onto their
     * histories. Undoing the only prompt clears the prompts and the drag;
     * otherwise the previous mask is shown and the remaining prompts are
     * applied.
     */
    method UndoPrompt()
      requires Valid() && CanUndo()
      modifies this`predMasks, this`predMasksHistory, this`clicks, this`clicksHistory, this`predMask,
               this`hasClicked, this`svg, this`isErased, this`isLoading, this`annotations,
               this`newAnnotation, this`points
      ensures PromptUndone()
    {
      var pm, cs := predMasks.value, clicks.value;
      PushUndoHistories();
      if |cs| == 1 {
        ClearLastPrompt();
      } else {
        isLoading := true;
        predMask := if |pm| > 1 then Some(pm[|pm| - 2]) else None;
        ApplyPrompts(cs[..|cs| - 1]);
      }
    }

    /** The last mask and the last prompt move onto their histories. */
    method PushUndoHistories()
      requires CanUndo()
      modifies this`predMasks, this`predMasksHistory, this`clicksHistory
      ensures var pm, cs := old(predMasks).value, old(clicks).value;
        && predMasks == Some(pm[..|pm| - 1])
        && predMasksHistory == Some(OrEmpty(old(predMasksHistory)) + [pm[|pm| - 1]])
        && clicksHistory == Some(OrEmpty(old(clicksHistory)) + [cs[|cs| - 1]])
    {
      var pm, cs := predMasks.value, clicks.value;
      predMasks := Some(pm[..|pm| - 1]);
      predMasksHistory := Some(OrEmpty(predMasksHistory) + [pm[|pm| - 1]]);
      clicksHistory := Some(OrEmpty(clicksHistory) + [cs[|cs| - 1]]);
    }

    /**
     * Undoing the only prompt: the prompts, the mask, the outlines and the
     * drag are cleared (the drag by the effect that runs when the prompt
     * list becomes null).
     */
    method ClearLastPrompt()
      modifies this`predMask, this`hasClicked, this`clicks, this`svg, this`isErased,
               this`annotations, this`newAnnotation, this`points
      ensures clicks.None? && !hasClicked && predMask.None? && svg.None? && !isErased
      ensures points.None? && annotations == [] && newAnnotation == []
    {
      predMask := None;
      hasClicked := false;
      clicks := None;
      svg := None;
      isErased := false;
      annotations := [];
      newAnnotation := [];
      points := None;
    }

    /**
     * Undo: a line in drawing mode; otherwise a prompt and its mask, when
     * there are both.
     */
    method Undo()
      requires Valid()
      modifies this`drawnLines, this`drawnLinesHistory, this`predMasks, this`predMasksHistory,
               this`clicks, this`clicksHistory, this`predMask, this`hasClicked, this`svg,
               this`isErased, this`isLoading, this`annotations, this`newAnnotation, this`points
      ensures Valid()
      ensures old(isAllowDrawing) ==>
        && LineUndone()
        && unchanged(this`predMasks, this`predMasksHistory, this`clicks, this`clicksHistory, this`predMask,
                     this`hasClicked, this`svg, this`isErased, this`isLoading, this`annotations,
                     this`newAnnotation, this`points)
      ensures !old(isAllowDrawing) ==> unchanged(this`drawnLines, this`drawnLinesHistory)
      ensures !old(isAllowDrawing) && !old(CanUndo()) ==> unchanged(this)
      ensures !old(isAllowDrawing) && old(CanUndo()) ==> PromptUndone()
    {
      if isAllowDrawing {
        UndoLine();
      } else if CanUndo() {
        UndoPrompt();
      }
    }

    /**
     * Redo in drawing mode: the last line of the history moves back onto
     * the lines; a missing history becomes an empty one.
     */
    method RedoLine()
      modifies this`drawnLines, this`drawnLinesHistory
      ensures LineRedone()
    {
      var h := OrEmpty(drawnLinesHistory);
      if h != [] {
        drawnLines := drawnLines + [h[|h| - 1]];
        drawnLinesHistory := Some(h[..|h| - 1]);
      } else {
        drawnLinesHistory := Some([]);
      }
    }

    /**
     * Redo of a prompt: the last mask and the last prompt of the histories
     * move back, the mask is shown, and the restored prompts are applied.
     */
    method RedoPrompt()
      requires Valid() && CanRedo()
      modifies this`predMasks, this`predMasksHistory, this`clicks, this`clicksHistory, this`predMask,
               this`hasClicked, this`isLoading, this`annotations
      ensures PromptRedone()
    {
      isLoading := true;
      hasClicked := true;
      var ch := clicksHistory.value;
      var newClicks := OrEmpty(clicks) + [ch[|ch| - 1]];
      PopRedoHistories();
      ApplyPrompts(newClicks);
    }

    /**
     * The last mask of the history moves back onto the masks and is shown;
     * the last prompt of the history is dropped from it.
     */
    method PopRedoHistories()
      requires CanRedo()
      modifies this`predMasks, this`predMasksHistory, this`predMask, this`clicksHistory
      ensures var ph, ch := old(predMasksHistory).value, old(clicksHistory).value;
        && predMasks == Some(OrEmpty(old(predMasks)) + [ph[|ph| - 1]])
        && predMasksHistory == Some(ph[..|ph| - 1])
        && predMask == Some(ph[|ph| - 1])
        && clicksHistory == Some(ch[..|ch| - 1])
    {
      var ph, ch := predMasksHistory.value, clicksHistory.value;
      predMasks := Some(OrEmpty(predMasks) + [ph[|ph| - 1]]);
      predMasksHistory := Some(ph[..|ph| - 1]);
      predMask := Some(ph[|ph| - 1]);
      clicksHistory := Some(ch[..|ch| - 1]);
    }

    /**
     * Redo: a line in drawing mode; otherwise a prompt and its mask, when
     * both histories hold one.
     */
    method Redo()
      requires Valid()
      modifies this`drawnLines, this`drawnLinesHistory, this`predMasks, this`predMasksHistory,
               this`clicks, this`clicksHistory, this`predMask, this`hasClicked, this`isLoading,
               this`annotations
      ensures Valid()
      ensures old(isAllowDrawing) ==>
        && LineRedone()
        && unchanged(this`predMasks, this`predMasksHistory, this`clicks, this`clicksHistory, this`predMask,
                     this`hasClicked, this`isLoading, this`annotations)
      ensures !old(isAllowDrawing) ==> unchanged(this`drawnLines, this`drawnLinesHistory)
      ensures !old(isAllowDrawing) && !old(CanRedo()) ==> unchanged(this)
      ensures !old(isAllowDrawing) && old(CanRedo()) ==> PromptRedone()
    {
      if isAllowDrawing {
        RedoLine();
      } else if CanRedo() {
        RedoPrompt();
      }
    }

    // -------------------------------------------------------------------
    // Resets

    /**
     * `handleResetInteraction`: prompts, masks, outlines and the drag are
     * cleared, and so are the prompt and mask histories but not the line
     * history; the clicked flag survives only a soft reset in click mode
     * with multi-mask mode on, and a hard reset also leaves multi-mask mode.
     */
    method ResetInteraction(forceFullReset: bool)
      requires Valid()
      modifies this`svg, this`click, this`clicks, this`annotations, this`newAnnotation, this`clicksHistory,
               this`userNegClick, this`predMask, this`predMasks, this`predMasksHistory, this`isLoading,
               this`points, this`drawnLines, this`hasClicked, this`isMultiMaskMode
      ensures Valid()
      ensures Cleared()
      ensures segmentType == ClickMode && !forceFullReset ==>
        isMultiMaskMode == old(isMultiMaskMode) && hasClicked == (old(hasClicked) && old(isMultiMaskMode))
      ensures !(segmentType == ClickMode && !forceFullReset) ==> !hasClicked && !isMultiMaskMode
    {
      ClearInteraction();
      if segmentType == ClickMode && !forceFullReset {
        if !isMultiMaskMode {
          hasClicked := false;
        }
      } else {
        hasClicked := false;
        isMultiMaskMode := false;
      }
    }

    /** The unconditional part of a reset: prompts, masks, outlines, the drag and the lines. */
    method ClearInteraction()
      modifies this`svg, this`click, this`clicks, this`annotations, this`newAnnotation, this`clicksHistory,
               this`userNegClick, this`predMask, this`predMasks, this`predMasksHistory, this`isLoading,
               this`points, this`drawnLines
      ensures Cleared()
    {
      ClearPromptsAndMasks();
      ClearDragAndLines();
    }

    /** The prompts, the masks, the outlines and their histories are cleared. */
    method ClearPromptsAndMasks()
      modifies this`svg, this`click, this`clicks, this`clicksHistory, this`predMask, this`predMasks,
               this`predMasksHistory
      ensures svg.None? && click.None? && clicks.None? && clicksHistory.None?
      ensures predMask.None? && predMasks.None? && predMasksHistory.None?
    {
      svg := None;
      click := None;
      clicks := None;
      clicksHistory := None;
      predMask := None;
      predMasks := None;
      predMasksHistory := None;
    }

    /** The drag, the lines, the negative-click flag and the loading flag are cleared. */
    method ClearDragAndLines()
      modifies this`annotations, this`newAnnotation, this`userNegClick, this`isLoading, this`points,
               this`drawnLines
      ensures annotations == [] && newAnnotation == [] && points.None? && drawnLines == []
      ensures !userNegClick && !isLoading
    {
      annotations := [];
      newAnnotation := [];
      userNegClick := false;
      isLoading := false;
      points := None;
      drawnLines := [];
    }

    /**
     * `handleResetState` (a new image): prompts, masks and outlines are
     * cleared and the mode returns to clicks; the three histories and the
     * lines are not touched. When the prompt list was not already null,
     * the effect that runs on its becoming null also clears the drag.
     */
    method ResetState()
      requires Valid()
      modifies this`hasClicked, this`click, this`clicks, this`svg, this`predMask, this`predMasks,
               this`segmentType, this`isLoading, this`annotations, this`newAnnotation, this`points
      ensures !hasClicked && click.None? && clicks.None? && svg.None?
      ensures predMask.None? && predMasks.None? && segmentType == ClickMode && !isLoading
      ensures old(clicks).Some? ==> annotations == [] && newAnnotation == [] && points.None?
      ensures old(clicks).None? ==> unchanged(this`annotations, this`newAnnotation, this`points)
    {
      if clicks.Some? {
        annotations := [];
        newAnnotation := [];
        points := None;
      }
      hasClicked := false;
      click := None;
      clicks := None;
      svg := None;
      predMask := None;
      predMasks := None;
      segmentType := ClickMode;
      isLoading := false;
    }

    // -------------------------------------------------------------------
    // Inference bookkeeping

    /**
     * `runModel`, with the model, the feed builder and the tracer as
     * parameters: `ready` says the model, the image embedding and the scale
     * record are loaded, `feedsBuilt` that the input could be built, `out`
     * is the predicted mask and `traced` its traced outline. When it runs,
     * only the last prompt is sent (`fed`); after a click the mask is shown
     * and appended to the masks only when there is no mask redo history,
     * and the outline is appended to the outlines.
     */
    method RunModel(ready: bool, feedsBuilt: bool, out: Mask, traced: string) returns (fed: seq<Click>)
      requires Valid()
      modifies this`predMask, this`predMasks, this`svg, this`click, this`isLoading
      ensures Valid()
      ensures var runs := ready && old(clicks).Some? && !stickerTab && feedsBuilt;
        && (runs ==> fed == AppModel.LastClick(clicks.value) && |fed| <= 1 && click.None? && !isLoading)
        && (!runs ==>
              && fed == [] && predMask == old(predMask) && predMasks == old(predMasks)
              && svg == old(svg) && click == old(click) && isLoading == old(isLoading))
        && (runs && hasClicked ==>
              && predMask == Some(out)
              && svg == Some(OrEmpty(old(svg)) + [traced])
              && predMasks == (if predMasksHistory.None? then Some(OrEmpty(old(predMasks)) + [out]) else old(predMasks)))
        && (runs && !hasClicked ==> predMask == old(predMask) && predMasks == old(predMasks) && svg == old(svg))
    {
      fed := [];
      if !ready || clicks.None? {
        return;
      }
      if stickerTab {
        return;
      }
      var lastClick := AppModel.LastClick(clicks.value);
      if !feedsBuilt {
        return;
      }
      fed := lastClick;
      if hasClicked {
        ShowPrediction(out, traced);
      }
      click := None;
      isLoading := false;
    }

    /**
     * The part of `runModel` that follows a click: the predicted mask is
     * shown, appended to the masks only when there is no mask redo history,
     * and its outline is appended to the outlines.
     */
    method ShowPrediction(out: Mask, traced: string)
      modifies this`predMask, this`predMasks, this`svg
      ensures predMask == Some(out)
      ensures svg == Some(OrEmpty(old(svg)) + [traced])
      ensures predMasks == if predMasksHistory.None? then Some(OrEmpty(old(predMasks)) + [out]) else old(predMasks)
    {
      predMask := Some(out);
      if predMasksHistory.None? {
        predMasks := Some(OrEmpty(predMasks) + [out]);
      }
      svg := Some(OrEmpty(svg) + [traced]);
    }

    /** When there are fewer prompts than outlines, the outlines are cut to the prompt count. */
    method SyncSvgToClicks()
      modifies this`svg
      ensures clicks.Some? && old(svg).Some? && |clicks.value| < |old(svg).value| ==>
        svg == Some(old(svg).value[..|clicks.value|])
      ensures !(clicks.Some? && old(svg).Some? && |clicks.value| < |old(svg).value|) ==> svg == old(svg)
      ensures clicks.Some? && svg.Some? && old(svg).Some? ==> |svg.value| <= |clicks.value| || svg == old(svg)
    {
      if clicks.Some? && svg.Some? && |clicks.value| < |svg.value| {
        svg := Some(svg.value[..|clicks.value|]);
      }
    }
  }

  // ---------------------------------------------------------------------
  // Laws of the history, as client code

  /**
   * Undo followed by redo, with no drag, restores the prompt list and the
   * mask list and shows the last mask again; a missing history comes
   * back as an empty one.
   */
  method UndoThenRedo(s: Session)
    requires s.Valid() && !s.isAllowDrawing && s.CanUndo() && s.points.None?
    modifies s
    ensures s.Valid() && !s.isAllowDrawing && s.points.None?
    ensures s.clicks == old(s.clicks) && s.predMasks == old(s.predMasks)
    ensures s.clicksHistory == Some(OrEmpty(old(s.clicksHistory)))
    ensures s.predMasksHistory == Some(OrEmpty(old(s.predMasksHistory)))
    ensures s.hasClicked && s.predMask == Some(old(s.predMasks).value[|old(s.predMasks).value| - 1])
  {
    var pm, cs := s.predMasks.value, s.clicks.value;
    var ph, ch := OrEmpty(s.predMasksHistory), OrEmpty(s.clicksHistory);
    UndoWithoutDrag(s);
    RedoWithoutDrag(s);
    DropLastThenAppend(pm);
    DropLastThenAppend(cs);
    AppendThenDropLast(ph, pm[|pm| - 1]);
    AppendThenDropLast(ch, cs[|cs| - 1]);
  }

  /** Undo with no drag: the prompt list loses its last prompt, or becomes null with it. */
  method UndoWithoutDrag(s: Session)
    requires s.Valid() && !s.isAllowDrawing && s.CanUndo() && s.points.None?
    modifies s
    ensures s.Valid() && !s.isAllowDrawing && s.CanRedo() && s.points.None?
    ensures var pm, cs := old(s.predMasks).value, old(s.clicks).value;
      && s.predMasks == Some(pm[..|pm| - 1])
      && s.clicks == (if |cs| == 1 then None else Some(cs[..|cs| - 1]))
      && s.predMasksHistory == Some(OrEmpty(old(s.predMasksHistory)) + [pm[|pm| - 1]])
      && s.clicksHistory == Some(OrEmpty(old(s.clicksHistory)) + [cs[|cs| - 1]])
  {
    s.Undo();
  }

  /** Redo with no drag: the last prompt and mask of the histories are appended back and the mask is shown. */
  method RedoWithoutDrag(s: Session)
    requires s.Valid() && !s.isAllowDrawing && s.CanRedo() && s.points.None?
    modifies s
    ensures s.Valid() && !s.isAllowDrawing && s.points.None?
    ensures var ph, ch := old(s.predMasksHistory).value, old(s.clicksHistory).value;
      && s.predMasks == Some(OrEmpty(old(s.predMasks)) + [ph[|ph| - 1]])
      && s.clicks == Some(OrEmpty(old(s.clicks)) + [ch[|ch| - 1]])
      && s.predMasksHistory == Some(ph[..|ph| - 1])
      && s.clicksHistory == Some(ch[..|ch| - 1])
      && s.hasClicked && s.predMask == Some(ph[|ph| - 1])
  {
    s.Redo();
  }

  /**
   * The undo/redo law for `k` steps: with no drag, `k` undos followed by
   * `k` redos give back the prompt and mask lists, and each history
   * returns to what it was (a null history comes back empty).
   */
  method UndoRedoSteps(s: Session, k: nat)
    requires s.Valid() && !s.isAllowDrawing && s.points.None?
    requires s.clicks.Some? && s.predMasks.Some? && k <= |s.clicks.value| && k <= |s.predMasks.value|
    modifies s
    ensures s.Valid() && !s.isAllowDrawing && s.points.None?
    ensures s.clicks == old(s.clicks) && s.predMasks == old(s.predMasks)
    ensures k > 0 ==>
      s.clicksHistory == Some(OrEmpty(old(s.clicksHistory))) && s.predMasksHistory == Some(OrEmpty(old(s.predMasksHistory)))
  {
    if k == 0 {
      return;
    }
    ghost var cs, pm := s.clicks.value, s.predMasks.value;
    ghost var ch, ph := OrEmpty(s.clicksHistory), OrEmpty(s.predMasksHistory);
    assert ch + LastReversed(cs, 0) == ch && ph + LastReversed(pm, 0) == ph;
    assert cs[..|cs|] == cs && pm[..|pm|] == pm;
    var i := 0;
    while i < k
      invariant 0 <= i <= k && UndoneBy(s, cs, pm, ch, ph, i)
    {
      UndoStep(s, cs, pm, ch, ph, i);
      i := i + 1;
    }
    while i > 0
      invariant 0 <= i <= k && UndoneBy(s, cs, pm, ch, ph, i)
      invariant i < k ==> s.clicks.Some? && s.clicksHistory.Some? && s.predMasksHistory.Some?
    {
      RedoStep(s, cs, pm, ch, ph, i);
      i := i - 1;
    }
  }

  /**
   * `s` is, with no drag, the state `i` undos after prompts `cs`, masks
   * `pm` and histories `ch` and `ph`: the last `i` prompts and masks sit
   * on the histories, last first.
   */
  ghost predicate UndoneBy(s: Session, cs: seq<Click>, pm: seq<Mask>, ch: seq<Click>, ph: seq<Mask>, i: nat)
    reads s
  {
    && s.Valid() && !s.isAllowDrawing && s.points.None?
    && i <= |cs| && i <= |pm|
    && s.predMasks == Some(pm[..|pm| - i])
    && OrEmpty(s.clicks) == cs[..|cs| - i]
    && OrEmpty(s.clicksHistory) == ch + LastReversed(cs, i)
    && OrEmpty(s.predMasksHistory) == ph + LastReversed(pm, i)
    && (i > 0 ==> s.clicksHistory.Some? && s.predMasksHistory.Some?)
  }

  /** One more undo pushes the next prompt and mask onto the histories. */
  method UndoStep(s: Session, ghost cs: seq<Click>, ghost pm: seq<Mask>, ghost ch: seq<Click>, ghost ph: seq<Mask>, i: nat)
    requires UndoneBy(s, cs, pm, ch, ph, i) && i < |cs| && i < |pm|
    modifies s
    ensures UndoneBy(s, cs, pm, ch, ph, i + 1)
  {
    PushedOneMore(ch, cs, i);
    PushedOneMore(ph, pm, i);
    assert s.clicks.Some?;
    UndoWithoutDrag(s);
    assert pm[..|pm| - i][..|pm| - i - 1] == pm[..|pm| - i - 1];
    assert cs[..|cs| - i][..|cs| - i - 1] == cs[..|cs| - i - 1];
  }

  /** One redo takes back what the last of `i` undos pushed. */
  method RedoStep(s: Session, ghost cs: seq<Click>, ghost pm: seq<Mask>, ghost ch: seq<Click>, ghost ph: seq<Mask>, i: nat)
    requires UndoneBy(s, cs, pm, ch, ph, i) && i > 0
    modifies s
    ensures UndoneBy(s, cs, pm, ch, ph, i - 1)
    ensures s.clicks.Some? && s.clicksHistory.Some? && s.predMasksHistory.Some?
  {
    PopPushed(ch, cs, i);
    PopPushed(ph, pm, i);
    RedoWithoutDrag(s);
    assert pm[..|pm| - i + 1] == pm[..|pm| - i] + [pm[|pm| - i]];
    assert cs[..|cs| - i + 1] == cs[..|cs| - i] + [cs[|cs| - i]];
  }

  /** The last `i` elements of `xs`, last first: what `i` undo steps push onto a history. */
  function LastReversed<T>(xs: seq<T>, i: nat): (r: seq<T>)
    requires i <= |xs|
    ensures |r| == i
    ensures forall j :: 0 <= j < i ==> r[j] == xs[|xs| - 1 - j]
  {
    if i == 0 then [] else LastReversed(xs, i - 1) + [xs[|xs| - i]]
  }

  /** An undo step pushes the next element from the end. */
  lemma PushedOneMore<T>(h: seq<T>, xs: seq<T>, i: nat)
    requires i < |xs|
    ensures h + LastReversed(xs, i + 1) == (h + LastReversed(xs, i)) + [xs[|xs| - i - 1]]
  {
    assert LastReversed(xs, i + 1) == LastReversed(xs, i) + [xs[|xs| - i - 1]];
  }

  /** A redo step pops what the matching undo step pushed. */
  lemma PopPushed<T>(h: seq<T>, xs: seq<T>, r: nat)
    requires 0 < r <= |xs|
    ensures var p := h + LastReversed(xs, r);
      |p| > 0 && p[|p| - 1] == xs[|xs| - r] && p[..|p| - 1] == h + LastReversed(xs, r - 1)
  {
    assert LastReversed(xs, r) == LastReversed(xs, r - 1) + [xs[|xs| - r]];
    assert h + LastReversed(xs, r) == (h + LastReversed(xs, r - 1)) + [xs[|xs| - r]];
  }

  /** Putting back the last element of a non-empty list restores it. */
  lemma DropLastThenAppend<T>(s: seq<T>)
    requires |s| > 0
    ensures s[..|s| - 1] + [s[|s| - 1]] == s
    ensures |s| == 1 ==> [] + [s[0]] == s
  {
  }

  /** Dropping the element just appended restores the list. */
  lemma AppendThenDropLast<T>(s: seq<T>, x: T)
    ensures (s + [x])[..|s|] == s && (s + [x])[|s|] == x
  {
  }

  /**
   * The inference run that follows an undo leaves the prompt and mask
   * lists alone and keeps redo possible: the mask history is no longer
   * null, so the re-predicted mask is not appended.
   */
  method UndoThenRun(s: Session, ready: bool, feedsBuilt: bool, out: Mask, traced: string)
    requires s.Valid() && !s.isAllowDrawing && s.CanUndo() && s.points.None?
    modifies s
    ensures s.Valid() && !s.isAllowDrawing && s.CanRedo() && s.points.None?
    ensures var pm, cs := old(s.predMasks).value, old(s.clicks).value;
      && s.predMasks == Some(pm[..|pm| - 1])
      && s.clicks == (if |cs| == 1 then None else Some(cs[..|cs| - 1]))
      && s.predMasksHistory.value[|s.predMasksHistory.value| - 1] == pm[|pm| - 1]
      && s.clicksHistory.value[|s.clicksHistory.value| - 1] == cs[|cs| - 1]
  {
    s.Undo();
    var _ := s.RunModel(ready, feedsBuilt, out, traced);
  }

  /** Hence undo, inference, redo still restores both lists. */
  method UndoRunRedo(s: Session, ready: bool, feedsBuilt: bool, out: Mask, traced: string)
    requires s.Valid() && !s.isAllowDrawing && s.CanUndo() && s.points.None?
    modifies s
    ensures s.Valid() && !s.isAllowDrawing && s.points.None?
    ensures s.clicks == old(s.clicks) && s.predMasks == old(s.predMasks)
  {
    var pm, cs := s.predMasks.value, s.clicks.value;
    UndoThenRun(s, ready, feedsBuilt, out, traced);
    RedoWithoutDrag(s);
    assert pm[..|pm| - 1] + [pm[|pm| - 1]] == pm;
    if |cs| == 1 {
      assert [] + [cs[0]] == cs;
    } else {
      assert cs[..|cs| - 1] + [cs[|cs| - 1]] == cs;
    }
    assert s.clicks == Some(cs);
  }

  /** Undo then redo in drawing mode restores the lines. */
  method UndoThenRedoLines(s: Session)
    requires s.Valid() && s.isAllowDrawing && s.drawnLines != []
    modifies s
    ensures s.drawnLines == old(s.drawnLines)
    ensures s.drawnLinesHistory == Some(OrEmpty(old(s.drawnLinesHistory)))
  {
    var lines, h := s.drawnLines, OrEmpty(s.drawnLinesHistory);
    s.Undo();
    s.Redo();
    assert lines[..|lines| - 1] + [lines[|lines| - 1]] == lines;
    assert (h + [lines[|lines| - 1]])[..|h|] == h;
  }

  /** After a mouse-down outside the sticker tab there is nothing to redo. */
  method MouseDownThenRedo(s: Session, x: real, y: real)
    requires s.Valid() && !s.stickerTab && !s.isAllowDrawing
    modifies s
    ensures s.clicks == old(s.clicks) && s.predMasks == old(s.predMasks)
    ensures s.clicksHistory.None? && s.predMasksHistory.None? && s.drawnLinesHistory.None?
  {
    s.MouseDown(x, y);
    assert !s.CanRedo();
    s.Redo();
  }
}
