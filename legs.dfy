/**
 * Transition legs: the axis-aligned path (no diagonals) that carries the
 * mover from a point off the route onto its projection on the route.
 */
module Legs {
  import opened Wrappers
  import opened Geometry

  /** `finalMain`: the main segment and ratio the mover adopts once the last leg is done. */
  datatype Target = Target(step: int, t: real)

  /** One leg `{start, end, length, ratio, meta}`; `ratio` advances in place while the leg is walked. */
  datatype Leg = Leg(start: Point, end: Point, length: real, ratio: real, meta: Option<Target>)

  /** A leg of the given endpoints, its length measured by `hypot`, not yet walked. */
  function NewLeg(a: Point, b: Point, meta: Option<Target>, hypot: (real, real) -> real): Leg
  {
    Leg(a, b, hypot(b.left - a.left, b.top - a.top), 0.0, meta)
  }

  /**
   * `createOrthogonalLegs`: no legs when the endpoints are closer than 0.5;
   * one straight leg when they are aligned within 0.5 on one axis;
   * otherwise horizontal to the target's column, then vertical. Only the
   * last leg carries `meta`.
   */
  function CreateLegs(from: Point, to: Point, meta: Option<Target>, hypot: (real, real) -> real): (legs: seq<Leg>)
    ensures |legs| <= 2
    ensures legs == [] <==> Dist2(from, to) < 0.25
    ensures legs != [] ==>
      legs[0].start == from && legs[|legs| - 1].end == to && legs[|legs| - 1].meta == meta &&
      forall i :: 0 <= i < |legs| ==>
        (legs[i].ratio == 0.0 &&
         legs[i].length == hypot(legs[i].end.left - legs[i].start.left, legs[i].end.top - legs[i].start.top))
    ensures |legs| == 1 ==> Abs(from.top - to.top) < 0.5 || Abs(from.left - to.left) < 0.5
    ensures |legs| == 2 ==>
      Abs(from.top - to.top) >= 0.5 && Abs(from.left - to.left) >= 0.5 &&
      legs[0].meta == None && legs[0].end == legs[1].start &&
      legs[0].start.top == legs[0].end.top && legs[1].start.left == legs[1].end.left
  {
    if Dist2(from, to) < 0.25 then
      []
    else if Abs(from.top - to.top) < 0.5 || Abs(from.left - to.left) < 0.5 then
      [NewLeg(from, to, meta, hypot)]
    else
      var mid := Point(to.left, from.top);
      TwoLegsApart(from, to);
      [NewLeg(from, mid, None, hypot), NewLeg(mid, to, meta, hypot)]
  }

  /** Points at least 0.5 apart on both axes are at least 0.5 apart. */
  lemma TwoLegsApart(from: Point, to: Point)
    requires Abs(from.top - to.top) >= 0.5 && Abs(from.left - to.left) >= 0.5
    ensures Dist2(from, to) >= 0.25
  {
    var dx := Abs(from.left - to.left);
    var dy := Abs(from.top - to.top);
    assert Sq(from.left - to.left) == Sq(dx);
    assert Sq(from.top - to.top) == Sq(dy);
    MulNonnegOf(dx - 0.5, dx + 0.5, Sq(dx) - 0.25);
    SqNonneg(dy);
  }

  /**
   * With the true `hypot`, each leg of a two-leg path is as long as the
   * offset it covers on its axis, so the legs add up to the Manhattan
   * distance.
   */
  lemma LegLengthsAreAxisOffsets(from: Point, to: Point, meta: Option<Target>, hypot: (real, real) -> real)
    requires IsHypot(hypot)
    ensures var legs := CreateLegs(from, to, meta, hypot);
      |legs| == 2 ==> legs[0].length == Abs(to.left - from.left) && legs[1].length == Abs(to.top - from.top)
  {
    HypotOnAxis(hypot, to.left - from.left);
    HypotOnAxis(hypot, to.top - from.top);
  }
}
