/** The state of VisualizationPanel: which feature map is shown, whether the
    original image is shown instead, and the 600 ms fade-in that runs when the
    selection changes. React's state updates become field assignments; the
    drawing effect runs again whenever one of its dependencies changed; each
    animation frame arrives as an explicit call carrying its timestamp. */
module Transition {
  import opened Wrappers
  import opened Numeric
  import HeatmapCanvas

  /** `duration = 600`, in milliseconds. */
  const Duration: real := 600.0

  /** `Math.min(elapsed / duration, 1)`. */
  function Progress(elapsed: real): (p: real)
    ensures p <= 1.0
    ensures p == 1.0 <==> elapsed >= Duration
    ensures 0.0 <= elapsed ==> 0.0 <= p
    ensures elapsed < Duration ==> p * Duration == elapsed
  {
    var ratio := elapsed / Duration;
    if ratio < 1.0 then ratio else 1.0
  }

  /** Later frames of one transition are never less opaque. */
  lemma ProgressMonotone(e1: real, e2: real)
    requires e1 <= e2
    ensures Progress(e1) <= Progress(e2)
  {
  }

  /** What one call of `drawVisualization(mapIndex, opacity)` puts on the canvas. */
  datatype Frame =
    | OriginalImage
      /** The uploaded image alone. */
    | Cleared
      /** `featureMaps[mapIndex]` is missing: the canvas is only cleared. */
    | HeatmapFrame(index: nat, opacity: real, overlay: bool)
      /** The heatmap of one feature map, with the original image at 0.2 alpha on top when `overlay`. */

  function DrawVisualization(featureCount: nat, showOriginal: bool, hasOriginal: bool,
                             mapIndex: int, opacity: real): (f: Frame)
    ensures f == OriginalImage <==> showOriginal && hasOriginal
    ensures f.HeatmapFrame? <==> !(showOriginal && hasOriginal) && 0 <= mapIndex < featureCount
    ensures f.HeatmapFrame? ==> f.index == mapIndex && f.opacity == opacity && f.overlay == hasOriginal
  {
    if showOriginal && hasOriginal then OriginalImage
    else if !(0 <= mapIndex < featureCount) then Cleared
    else HeatmapFrame(mapIndex, opacity, hasOriginal && !showOriginal)
  }

  /** A draw outside a transition uses the default opacity 1, so every heatmap
      pixel it writes has alpha 255. */
  lemma StillFrameIsOpaque(featureCount: nat, showOriginal: bool, hasOriginal: bool, mapIndex: int)
    requires DrawVisualization(featureCount, showOriginal, hasOriginal, mapIndex, 1.0).HeatmapFrame?
    ensures HeatmapCanvas.Alpha(DrawVisualization(featureCount, showOriginal, hasOriginal, mapIndex, 1.0).opacity) == 255
  {
    RoundOfInteger(255);
  }

  class Panel {
    /** `featureMaps.length`. */
    const featureCount: nat
    /** `originalImage` is a non-empty image URL. */
    const hasOriginal: bool
    var activeMap: int
    /** `previousMapRef.current`. */
    var previousMap: int
    var showOriginal: bool
    var isTransitioning: bool
    /** `animationFrameRef` holds a requested, not yet cancelled or fired frame. */
    var framePending: bool
    /** The running animation's `startTime`; `None` is `null`. */
    var startTime: Option<real>

    /** A frame is only ever pending while a transition runs on a non-empty panel. */
    ghost predicate Valid()
      reads this
    {
      framePending ==> isTransitioning && featureCount > 0
    }

    /** The panel as first rendered, before its effects run. */
    constructor (featureCount: nat, hasOriginal: bool, activeFeatureIndex: int := 0)
      ensures Valid()
      ensures this.featureCount == featureCount && this.hasOriginal == hasOriginal
      ensures activeMap == activeFeatureIndex && previousMap == activeFeatureIndex
      ensures !showOriginal && !isTransitioning && !framePending && startTime == None
    {
      this.featureCount := featureCount;
      this.hasOriginal := hasOriginal;
      activeMap := activeFeatureIndex;
      previousMap := activeFeatureIndex;
      showOriginal := false;
      isTransitioning := false;
      framePending := false;
      startTime := None;
    }

    /** The drawing effect: the previous run's cleanup cancels its frame, then
        either a fresh animation is requested (during a transition) or the
        active map is drawn at opacity 1. `None` when nothing is drawn now. */
    method DrawEffect() returns (f: Option<Frame>)
      requires Valid()
      modifies this`framePending, this`startTime
      ensures Valid()
      ensures featureCount == 0 ==> f == None && !framePending && startTime == old(startTime)
      ensures featureCount > 0 && isTransitioning ==> f == None && framePending && startTime == None
      ensures featureCount > 0 && !isTransitioning ==>
                f == Some(DrawVisualization(featureCount, showOriginal, hasOriginal, activeMap, 1.0))
                && !framePending && startTime == old(startTime)
    {
      framePending := false;
      if featureCount == 0 {
        return None;
      }
      if isTransitioning {
        startTime := None;
        framePending := true;
        f := None;
      } else {
        f := Some(DrawVisualization(featureCount, showOriginal, hasOriginal, activeMap, 1.0));
      }
    }

    /** `transitionToMap`: ignored while a transition runs or when the map is
        already active; otherwise remembers the old map and starts a transition. */
    method TransitionToMap(newMapIndex: int)
      requires Valid()
      modifies this`activeMap, this`previousMap, this`isTransitioning
      ensures Valid()
      ensures old(isTransitioning) || newMapIndex == old(activeMap) ==>
                activeMap == old(activeMap) && previousMap == old(previousMap) && isTransitioning == old(isTransitioning)
      ensures !old(isTransitioning) && newMapIndex != old(activeMap) ==>
                previousMap == old(activeMap) && activeMap == newMapIndex && isTransitioning
    {
      if isTransitioning || newMapIndex == activeMap {
        return;
      }
      previousMap := activeMap;
      activeMap := newMapIndex;
      isTransitioning := true;
    }

    /** The map button of `index`: `transitionToMap(index)` and leave the original
        image; the drawing effect runs if any of its dependencies changed. */
    method SelectMap(index: nat) returns (f: Option<Frame>)
      requires Valid()
      modifies this
      ensures Valid()
      ensures !showOriginal
      ensures old(isTransitioning) || index == old(activeMap) ==>
                activeMap == old(activeMap) && previousMap == old(previousMap) && isTransitioning == old(isTransitioning)
      ensures !old(isTransitioning) && index != old(activeMap) ==>
                previousMap == old(activeMap) && activeMap == index && isTransitioning
      ensures activeMap == old(activeMap) && !old(showOriginal) && isTransitioning == old(isTransitioning) ==>
                f == None && framePending == old(framePending) && startTime == old(startTime)
      ensures !(activeMap == old(activeMap) && !old(showOriginal) && isTransitioning == old(isTransitioning)) ==>
                && framePending == (featureCount > 0 && isTransitioning)
                && (framePending ==> startTime == None)
                && (!framePending ==> startTime == old(startTime))
                && f == (if featureCount > 0 && !isTransitioning
                         then Some(DrawVisualization(featureCount, false, hasOriginal, activeMap, 1.0)) else None)
    {
      var before := (activeMap, showOriginal, isTransitioning);
      TransitionToMap(index);
      showOriginal := false;
      f := None;
      if (activeMap, showOriginal, isTransitioning) != before {
        f := DrawEffect();
      }
    }

    /** The "Original Image" button: show the uploaded image, fading it in. */
    method ShowOriginalImage() returns (f: Option<Frame>)
      requires Valid()
      modifies this
      ensures Valid()
      ensures showOriginal && isTransitioning
      ensures activeMap == old(activeMap) && previousMap == old(previousMap)
      ensures old(showOriginal) && old(isTransitioning) ==>
                f == None && framePending == old(framePending) && startTime == old(startTime)
      ensures !(old(showOriginal) && old(isTransitioning)) ==>
                && f == None && framePending == (featureCount > 0)
                && (framePending ==> startTime == None)
                && (!framePending ==> startTime == old(startTime))
    {
      var before := (showOriginal, isTransitioning);
      showOriginal := true;
      isTransitioning := true;
      f := None;
      if (showOriginal, isTransitioning) != before {
        f := DrawEffect();
      }
    }

    /** The `activeFeatureIndex` prop changed: the map is switched without a transition. */
    method SetActiveFeatureIndex(activeFeatureIndex: int) returns (f: Option<Frame>)
      requires Valid()
      modifies this
      ensures Valid()
      ensures activeMap == activeFeatureIndex
      ensures previousMap == old(previousMap) && showOriginal == old(showOriginal) && isTransitioning == old(isTransitioning)
      ensures activeFeatureIndex == old(activeMap) ==>
                f == None && framePending == old(framePending) && startTime == old(startTime)
      ensures activeFeatureIndex != old(activeMap) ==>
                && framePending == (featureCount > 0 && isTransitioning)
                && (framePending ==> startTime == None)
                && (!framePending ==> startTime == old(startTime))
                && f == (if featureCount > 0 && !isTransitioning
                         then Some(DrawVisualization(featureCount, showOriginal, hasOriginal, activeMap, 1.0)) else None)
    {
      var changed := activeFeatureIndex != activeMap;
      activeMap := activeFeatureIndex;
      f := None;
      if changed {
        f := DrawEffect();
      }
    }

    /** The pending `animate(timestamp)` callback fires: the first frame fixes the
        start time (`if (!startTime)`, so a start time of 0 is taken again), the
        active map is drawn at opacity `progress`, and either the next frame is
        requested or the transition ends and the effect redraws at opacity 1. */
    method AnimationFrame(timestamp: real) returns (frames: seq<Frame>)
      requires Valid()
      modifies this
      ensures Valid()
      ensures activeMap == old(activeMap) && previousMap == old(previousMap) && showOriginal == old(showOriginal)
      ensures !old(framePending) ==>
                frames == [] && isTransitioning == old(isTransitioning) && !framePending && startTime == old(startTime)
      ensures old(framePending) ==>
                var start := if old(startTime).None? || old(startTime).value == 0.0 then timestamp else old(startTime).value;
                var progress := Progress(timestamp - start);
                && |frames| >= 1
                && frames[0] == DrawVisualization(featureCount, showOriginal, hasOriginal, activeMap, progress)
                && isTransitioning == (progress < 1.0)
                && framePending == (progress < 1.0)
                && (progress < 1.0 ==> |frames| == 1 && startTime == Some(start))
                && (progress == 1.0 ==>
                      frames == [DrawVisualization(featureCount, showOriginal, hasOriginal, activeMap, 1.0),
                                 DrawVisualization(featureCount, showOriginal, hasOriginal, activeMap, 1.0)])
    {
      if !framePending {
        return [];
      }
      framePending := false;
      if startTime.None? || startTime.value == 0.0 {
        startTime := Some(timestamp);
      }
      var progress := Progress(timestamp - startTime.value);
      frames := [DrawVisualization(featureCount, showOriginal, hasOriginal, activeMap, progress)];
      if progress < 1.0 {
        framePending := true;
      } else {
        isTransitioning := false;
        var f := DrawEffect();
        frames := frames + [f.value];
      }
    }
  }

  /** A full fade-in on a panel with two feature maps and an uploaded image:
      selecting map 1 starts a transition, a second selection during it is
      ignored, and frames at 0, 300 and 600 ms draw it at opacity 0, 0.5 and 1. */
  method FadeInScenario() {
    var panel := new Panel(2, true);
    var f := panel.SelectMap(1);
    assert f == None && panel.isTransitioning && panel.framePending;
    assert panel.activeMap == 1 && panel.previousMap == 0;
    f := panel.SelectMap(0);
    assert panel.activeMap == 1 && panel.previousMap == 0;
    var frames := panel.AnimationFrame(1000.0);
    assert frames == [HeatmapFrame(1, 0.0, true)];
    frames := panel.AnimationFrame(1300.0);
    assert frames == [HeatmapFrame(1, 0.5, true)];
    frames := panel.AnimationFrame(1600.0);
    assert frames == [HeatmapFrame(1, 1.0, true), HeatmapFrame(1, 1.0, true)];
    assert !panel.isTransitioning && !panel.framePending;
    frames := panel.AnimationFrame(1700.0);
    assert frames == [];
  }
}
