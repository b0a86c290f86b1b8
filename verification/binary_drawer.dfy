/**
 * The two-state drawer: open at 50 or hidden at 300, with a hysteresis band
 * on the projected release offset so that the drawer does not flicker.
 */
module BinaryDrawer {
  import opened Options
  import opened Interpolation
  import GestureStates

  /** Spring target of an open drawer. */
  const Open: real := 50.0
  /** Spring target of a hidden drawer, also its initial offset. */
  const Closed: real := 300.0
  /** Translation range of the drawer container. */
  const TopLimit: real := 50.0
  const BottomLimit: real := 500.0

  const DragToss: real := 0.05
  /** A hidden drawer opens only when the release projects above this. */
  const ShowThreshold: real := -150.0
  /** An open drawer stays open only when the release projects above this. */
  const KeepOpenThreshold: real := 150.0

  datatype Drawer = Drawer(drawerHidden: bool)

  function Initial(): (d: Drawer)
    ensures d.drawerHidden
  {
    Drawer(true)
  }

  /** Where the drawer rests in a given state. */
  function RestingOffset(drawerHidden: bool): real {
    if drawerHidden then Closed else Open
  }

  /** The projected release offset; it does not depend on the drawer's state. */
  function EndOffsetY(translationY: real, velocityY: real): (r: real)
    ensures velocityY == 0.0 ==> r == translationY
    ensures translationY == 0.0 ==> r == velocityY / 20.0
  {
    translationY + DragToss * velocityY
  }

  datatype Decision = Decision(toValue: real, hideDrawer: bool)

  /** The release decision for a projected offset, given the current state. */
  function Decide(drawerHidden: bool, endOffsetY: real): (r: Decision)
    ensures r.toValue == RestingOffset(r.hideDrawer)
    ensures drawerHidden ==> (!r.hideDrawer <==> endOffsetY < -150.0)
    ensures !drawerHidden ==> (!r.hideDrawer <==> endOffsetY < 150.0)
  {
    if drawerHidden && endOffsetY < ShowThreshold then Decision(Open, false)
    else if !drawerHidden && endOffsetY < KeepOpenThreshold then Decision(Open, false)
    else Decision(Closed, true)
  }

  /** Inside the band [-150, 150) a release keeps whatever state the drawer had. */
  lemma Hysteresis(drawerHidden: bool, endOffsetY: real)
    requires -150.0 <= endOffsetY < 150.0
    ensures Decide(drawerHidden, endOffsetY).hideDrawer == drawerHidden
    ensures Decide(drawerHidden, endOffsetY).toValue == RestingOffset(drawerHidden)
  {
  }

  /** Outside the band the decision is the same from either state. */
  lemma DecisionOutsideBand(endOffsetY: real)
    requires endOffsetY < -150.0 || 150.0 <= endOffsetY
    ensures Decide(true, endOffsetY) == Decide(false, endOffsetY)
  {
  }

  /** Repeating a release with the same projection never flips the drawer again. */
  lemma DecideIdempotent(drawerHidden: bool, endOffsetY: real)
    ensures var first := Decide(drawerHidden, endOffsetY);
            Decide(first.hideDrawer, endOffsetY) == first
  {
  }

  /** New state, and the target of the spring animation if one is started. */
  datatype Reaction = Reaction(next: Drawer, springTo: Option<real>)

  /**
   * `_onHandlerStateChange`: every transition out of ACTIVE (including one to
   * CANCELLED) decides open or hidden; any other transition changes nothing.
   */
  function OnHandlerStateChange(d: Drawer, e: GestureStates.HandlerEvent): (r: Reaction)
    ensures !GestureStates.EndsActive(e) ==> r.next == d && r.springTo == None
    ensures GestureStates.EndsActive(e) ==> r.springTo == Some(RestingOffset(r.next.drawerHidden))
    ensures GestureStates.EndsActive(e) ==>
      (!r.next.drawerHidden <==>
        EndOffsetY(e.translationY, e.velocityY) < (if d.drawerHidden then -150.0 else 150.0))
  {
    if GestureStates.EndsActive(e) then
      var endOffsetY := EndOffsetY(e.translationY, e.velocityY);
      var decision := Decide(d.drawerHidden, endOffsetY);
      Reaction(Drawer(decision.hideDrawer), Some(decision.toValue))
    else
      Reaction(d, None)
  }

  /**
   * The master handler's `maxDeltaY`: the distance from the resting offset up
   * to the open position, so a hidden drawer may travel 250 and an open one 0.
   */
  function MaxDeltaY(drawerHidden: bool): (r: real)
    ensures r == RestingOffset(drawerHidden) - Open
    ensures 0.0 <= r
    ensures r == 0.0 <==> !drawerHidden
  {
    if drawerHidden then 250.0 else 0.0
  }

  /** The drawer container's translation: the drag term plus the offset, clamped. */
  function TranslateY(dragUnlocked: real, translateYOffset: real): (r: real)
    ensures TopLimit <= r <= BottomLimit
    ensures TopLimit <= dragUnlocked + translateYOffset <= BottomLimit ==> r == dragUnlocked + translateYOffset
    ensures dragUnlocked + translateYOffset <= TopLimit ==> r == TopLimit
    ensures BottomLimit <= dragUnlocked + translateYOffset ==> r == BottomLimit
  {
    InterpolateIdentity(dragUnlocked + translateYOffset, TopLimit, BottomLimit);
    Interpolate(dragUnlocked + translateYOffset, TopLimit, BottomLimit, TopLimit, BottomLimit)
  }

  /** Both spring targets lie inside the container's translation range. */
  lemma RestingOffsetsInRange(drawerHidden: bool)
    ensures TopLimit <= RestingOffset(drawerHidden) <= BottomLimit
    ensures TranslateY(0.0, RestingOffset(drawerHidden)) == RestingOffset(drawerHidden)
  {
  }

  /** A hidden drawer dragged up 200 points and released without velocity opens. */
  lemma OpenScenario()
    ensures OnHandlerStateChange(Initial(), GestureStates.HandlerEvent(GestureStates.Active, GestureStates.End, -200.0, 0.0))
         == Reaction(Drawer(false), Some(Open))
  {
  }
}
