/**
 * The three-snap drawer: release handling, drawer translation, scroll
 * enabling and the master handler's travel bound.
 */
module ThreeSnapDrawer {
  import opened Options
  import opened NearestSnap
  import opened Interpolation
  import GestureStates

  /** Resting distances of the drawer from the top of the screen. */
  const SnapPointsFromTop: seq<real> := [50.0, 300.0, 500.0]
  const Start: real := SnapPointsFromTop[0]
  const End: real := SnapPointsFromTop[|SnapPointsFromTop| - 1]

  /** Weight of the release velocity when projecting where a flick lands. */
  const DragToss: real := 0.05

  /** The component state: the snap point of the last release. */
  datatype Drawer = Drawer(lastSnap: real)

  predicate AtSnapPoint(d: Drawer) {
    d.lastSnap in SnapPointsFromTop
  }

  /** The drawer starts at rest on the lowest snap point. */
  function Initial(): (d: Drawer)
    ensures AtSnapPoint(d)
    ensures forall s :: s in SnapPointsFromTop ==> s <= d.lastSnap
  {
    Drawer(End)
  }

  /**
   * Where a release would land: the resting snap plus the drag, net of the
   * content scroll offset latched when the drag began, plus the velocity toss.
   */
  function EndOffsetY(lastSnap: real, translationY: real, lastScrollYValue: real, velocityY: real): (r: real)
    ensures velocityY == 0.0 ==> r == lastSnap + translationY - lastScrollYValue
    ensures translationY == lastScrollYValue ==> r == lastSnap + velocityY / 20.0
  {
    lastSnap + (translationY - lastScrollYValue) + DragToss * velocityY
  }

  /** New state, and the target of the spring animation if one is started. */
  datatype Reaction = Reaction(next: Drawer, springTo: Option<real>)

  /**
   * `_onHandlerStateChange`: only a transition out of ACTIVE (to END,
   * CANCELLED, FAILED or anything else) triggers the nearest-snap decision.
   */
  function OnHandlerStateChange(d: Drawer, e: GestureStates.HandlerEvent, lastScrollYValue: real): (r: Reaction)
    ensures !GestureStates.EndsActive(e) ==> r.next == d && r.springTo == None
    ensures GestureStates.EndsActive(e) ==> AtSnapPoint(r.next) && r.springTo == Some(r.next.lastSnap)
    ensures GestureStates.EndsActive(e) ==>
      var endOffsetY := EndOffsetY(d.lastSnap, e.translationY, lastScrollYValue, e.velocityY);
      forall s :: s in SnapPointsFromTop ==> Dist(r.next.lastSnap, endOffsetY) <= Dist(s, endOffsetY)
    ensures GestureStates.EndsActive(e) ==>
      var endOffsetY := EndOffsetY(d.lastSnap, e.translationY, lastScrollYValue, e.velocityY);
      exists k :: IsNearestAt(SnapPointsFromTop, endOffsetY, k) && SnapPointsFromTop[k] == r.next.lastSnap
  {
    if GestureStates.EndsActive(e) then
      var endOffsetY := EndOffsetY(d.lastSnap, e.translationY, lastScrollYValue, e.velocityY);
      var destSnapPoint := Nearest(SnapPointsFromTop, endOffsetY);
      Reaction(Drawer(destSnapPoint), Some(destSnapPoint))
    else
      Reaction(d, None)
  }

  /** The nearest snap point for every projected offset, in closed form. */
  lemma NearestSnapClosedForm(target: real)
    ensures Nearest(SnapPointsFromTop, target)
         == if target <= 175.0 then 50.0 else if target <= 400.0 then 300.0 else 500.0
  {
    var p := SnapPointsFromTop;
    if target <= 175.0 {
      assert IsNearestAt(p, target, 0) by {
        assert Dist(p[0], target) <= Dist(p[1], target) <= Dist(p[2], target);
      }
      NearestIsEarliestClosest(p, target, 0);
    } else if target <= 400.0 {
      assert IsNearestAt(p, target, 1) by {
        assert Dist(p[1], target) < Dist(p[0], target);
        assert Dist(p[1], target) <= Dist(p[2], target);
      }
      NearestIsEarliestClosest(p, target, 1);
    } else {
      assert IsNearestAt(p, target, 2) by {
        assert Dist(p[2], target) < Dist(p[1], target) < Dist(p[0], target);
      }
      NearestIsEarliestClosest(p, target, 2);
    }
  }

  /** On a tie the snap nearer the top wins: 175 is as far from 50 as from 300. */
  lemma TiesGoToUpperSnap()
    ensures Nearest(SnapPointsFromTop, 175.0) == 50.0
    ensures Nearest(SnapPointsFromTop, 400.0) == 300.0
  {
    NearestSnapClosedForm(175.0);
    NearestSnapClosedForm(400.0);
  }

  /** A lower (larger) projected offset never selects a higher snap point. */
  lemma NearestSnapMonotone(t1: real, t2: real)
    requires t1 <= t2
    ensures Nearest(SnapPointsFromTop, t1) <= Nearest(SnapPointsFromTop, t2)
  {
    NearestSnapClosedForm(t1);
    NearestSnapClosedForm(t2);
  }

  /** Releasing with no net drag and no velocity leaves the drawer where it rests. */
  lemma ReleaseInPlaceKeepsSnap(d: Drawer, e: GestureStates.HandlerEvent, lastScrollYValue: real)
    requires AtSnapPoint(d)
    requires GestureStates.EndsActive(e)
    requires e.translationY == lastScrollYValue && e.velocityY == 0.0
    ensures OnHandlerStateChange(d, e, lastScrollYValue) == Reaction(d, Some(d.lastSnap))
  {
    NearestOfSnapPoint(SnapPointsFromTop, d.lastSnap);
  }

  /** One gesture-state callback together with the scroll offset latched at that time. */
  datatype Step = Step(event: GestureStates.HandlerEvent, lastScrollYValue: real)

  function Run(d: Drawer, steps: seq<Step>): Drawer
    decreases |steps|
  {
    if |steps| == 0 then d
    else Run(OnHandlerStateChange(d, steps[0].event, steps[0].lastScrollYValue).next, steps[1..])
  }

  /** `lastSnap` is a declared snap point after any sequence of callbacks. */
  lemma {:induction false} RunStaysAtSnapPoint(d: Drawer, steps: seq<Step>)
    requires AtSnapPoint(d)
    ensures AtSnapPoint(Run(d, steps))
    decreases |steps|
  {
    if |steps| > 0 {
      RunStaysAtSnapPoint(OnHandlerStateChange(d, steps[0].event, steps[0].lastScrollYValue).next, steps[1..]);
    }
  }

  lemma ReachableStatesAtSnapPoint(steps: seq<Step>)
    ensures AtSnapPoint(Run(Initial(), steps))
  {
    RunStaysAtSnapPoint(Initial(), steps);
  }

  /**
   * The master handler's `maxDeltaY`: how far the drawer can still travel up
   * before the master handler fails and the content may scroll.
   */
  function MaxDeltaY(lastSnap: real): (r: real)
    ensures lastSnap in SnapPointsFromTop ==> 0.0 <= r <= End - Start
    ensures r == 0.0 <==> lastSnap == Start
  {
    lastSnap - SnapPointsFromTop[0]
  }

  /**
   * The drawer's vertical translation: the committed offset plus the live drag
   * minus the latched scroll offset, clamped to the snap range.
   */
  function TranslateY(offset: real, dragY: real, lastScrollY: real): (r: real)
    ensures Start <= r <= End
    ensures Start <= offset + dragY - lastScrollY <= End ==> r == offset + dragY - lastScrollY
    ensures offset + dragY - lastScrollY <= Start ==> r == Start
    ensures End <= offset + dragY - lastScrollY ==> r == End
  {
    InterpolateIdentity(offset + (dragY + -1.0 * lastScrollY), Start, End);
    Interpolate(offset + (dragY + -1.0 * lastScrollY), Start, End, Start, End)
  }

  /**
   * `_showScroll`: 1 while the drawer is fully open, 0 once it is a point or
   * more below the top snap.
   */
  function ShowScroll(translateY: real): (r: real)
    ensures 0.0 <= r <= 1.0
    ensures r == 1.0 <==> translateY <= Start
    ensures r == 0.0 <==> Start + 1.0 <= translateY
  {
    Interpolate(translateY, Start, Start + 1.0, 1.0, 0.0)
  }

  /** `_showScroll` is 1 exactly when the composed drag reaches the top snap. */
  lemma ScrollShownOnlyWhenOpen(offset: real, dragY: real, lastScrollY: real)
    ensures ShowScroll(TranslateY(offset, dragY, lastScrollY)) == 1.0 <==> offset + dragY - lastScrollY <= Start
  {
  }

  /** The scenarios of a release from the lowest snap point. */
  lemma ReleaseScenarios()
    ensures OnHandlerStateChange(Initial(),
              GestureStates.HandlerEvent(GestureStates.Active, GestureStates.End, 250.0, 0.0), 0.0).next.lastSnap
         == 500.0
    ensures OnHandlerStateChange(Initial(),
              GestureStates.HandlerEvent(GestureStates.Active, GestureStates.End, -250.0, 0.0), 0.0).next.lastSnap
         == 300.0
  {
    NearestSnapClosedForm(750.0);
    NearestSnapClosedForm(250.0);
  }
}
