/**
 * The nearest-snap search of the release handler: a linear scan over the snap
 * points that replaces the current best only on a strictly smaller distance to
 * the projected offset, so the earliest of several equally near points wins.
 */
module NearestSnap {

  function Abs(x: real): (r: real)
    ensures 0.0 <= r && (r == x || r == -x)
  {
    if x < 0.0 then -x else x
  }

  /** `Math.abs(a - b)`. */
  function Dist(a: real, b: real): (r: real)
    ensures 0.0 <= r
    ensures r == 0.0 <==> a == b
  {
    Abs(a - b)
  }

  /**
   * Index `k` holds a point nearest to `target`, and every earlier index holds
   * a strictly farther one.
   */
  predicate IsNearestAt(points: seq<real>, target: real, k: int) {
    && 0 <= k < |points|
    && (forall j :: 0 <= j < |points| ==> Dist(points[k], target) <= Dist(points[j], target))
    && (forall j :: 0 <= j < k ==> Dist(points[k], target) < Dist(points[j], target))
  }

  /** At most one index is the earliest nearest one. */
  lemma NearestAtUnique(points: seq<real>, target: real, k: int)
    requires IsNearestAt(points, target, k)
    ensures forall j :: IsNearestAt(points, target, j) ==> j == k
  {
    forall j | IsNearestAt(points, target, j)
      ensures j == k
    {
      assert Dist(points[k], target) <= Dist(points[j], target);
      assert Dist(points[j], target) <= Dist(points[k], target);
    }
  }

  /**
   * The scan from index `i` on, with the best so far at index `k`: the
   * recursive form of the `for` loop of `_onHandlerStateChange` in App.js.
   */
  function ArgminFrom(points: seq<real>, target: real, i: nat, k: nat): (r: nat)
    requires k < |points| && i <= |points|
    requires forall j :: 0 <= j < i ==> Dist(points[k], target) <= Dist(points[j], target)
    requires forall j :: 0 <= j < k ==> Dist(points[k], target) < Dist(points[j], target)
    ensures IsNearestAt(points, target, r)
    decreases |points| - i
  {
    if i == |points| then k
    else if Dist(points[i], target) < Dist(points[k], target) then ArgminFrom(points, target, i + 1, i)
    else ArgminFrom(points, target, i + 1, k)
  }

  /** The snap point the release handler settles on for a projected offset `target`. */
  function Nearest(points: seq<real>, target: real): (r: real)
    requires |points| > 0
    ensures r in points
    ensures forall s :: s in points ==> Dist(r, target) <= Dist(s, target)
    ensures exists k :: IsNearestAt(points, target, k) && points[k] == r
  {
    points[ArgminFrom(points, target, 0, 0)]
  }

  /** Whichever index is the earliest nearest one, its point is the one chosen. */
  lemma NearestIsEarliestClosest(points: seq<real>, target: real, k: int)
    requires IsNearestAt(points, target, k)
    ensures Nearest(points, target) == points[k]
  {
    var k' :| IsNearestAt(points, target, k') && points[k'] == Nearest(points, target);
    NearestAtUnique(points, target, k);
  }

  /** A projection that lands exactly on a snap point selects that point. */
  lemma NearestOfSnapPoint(points: seq<real>, s: real)
    requires s in points
    ensures Nearest(points, s) == s
  {
  }

  /** The release handler's loop, as written: a value-tracking scan from index 0. */
  method ResolveSnap(points: seq<real>, target: real) returns (dest: real)
    requires |points| > 0
    ensures dest in points
    ensures forall j :: 0 <= j < |points| ==> Dist(dest, target) <= Dist(points[j], target)
    ensures dest == Nearest(points, target)
  {
    dest := points[0];
    ghost var k := 0;
    var i := 0;
    while i < |points|
      invariant 0 <= i <= |points|
      invariant 0 <= k < |points| && dest == points[k]
      invariant forall j :: 0 <= j < i ==> Dist(dest, target) <= Dist(points[j], target)
      invariant forall j :: 0 <= j < k ==> Dist(dest, target) < Dist(points[j], target)
    {
      var snapPoint := points[i];
      var distFromSnap := Dist(snapPoint, target);
      if distFromSnap < Dist(dest, target) {
        dest := snapPoint;
        k := i;
      }
      i := i + 1;
    }
    NearestIsEarliestClosest(points, target, k);
  }
}
