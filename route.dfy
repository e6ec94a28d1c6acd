/**
 * The main evacuation route: a closed polyline of vertices, segment `i`
 * running from vertex `i` to vertex `(i + 1) mod n`, and the query that
 * snaps an arbitrary point onto it.
 */
module Route {
  import opened Geometry

  /** The 14 vertices of the route, in container pixels. */
  const MainPath: seq<Point> := [
    Point(235.0, 75.0), Point(720.0, 75.0), Point(720.0, 258.0), Point(598.0, 258.0),
    Point(598.0, 458.0), Point(327.0, 458.0), Point(327.0, 565.0), Point(327.0, 428.0),
    Point(215.0, 428.0), Point(215.0, 205.0), Point(165.0, 205.0), Point(165.0, 130.0),
    Point(285.0, 130.0), Point(285.0, 75.0)
  ]

  /**
   * JavaScript's `%` on integers: the remainder takes the sign of the
   * dividend (Dafny's `%` is Euclidean and never negative).
   */
  function JsRem(a: int, n: int): (r: int)
    requires n > 0
    ensures a >= 0 ==> r == a % n && 0 <= r < n
    ensures a < 0 ==> -n < r <= 0
  {
    if a >= 0 then a % n else -((-a) % n)
  }

  /** The vertex that ends segment `i`. */
  function Next(path: seq<Point>, i: nat): nat
    requires i < |path|
  {
    (i + 1) % |path|
  }

  /** A segment of non-zero length (the code skips `len2 === 0`). */
  predicate NonDegenerate(path: seq<Point>, i: nat)
    requires i < |path|
  {
    SegLen2(path[i], path[Next(path, i)]) != 0.0
  }

  /** The projection of `p` on segment `i`. */
  function SegProjection(path: seq<Point>, p: Point, i: nat): Projection
    requires i < |path|
  {
    Project(path[i], path[Next(path, i)], p)
  }

  /** Squared distance from `p` to its projection on segment `i`. */
  function SegDist2(path: seq<Point>, p: Point, i: nat): real
    requires i < |path|
  {
    Dist2(SegProjection(path, p, i).Foot(), p)
  }

  /**
   * Result of `findNearestMainSegmentAndT`. `found` is false while no
   * segment has been considered, which the code encodes as `d: Infinity`.
   */
  datatype Nearest = Nearest(segIndex: nat, t: real, proj: Point, d2: real, found: bool)

  function NoSegment(path: seq<Point>): Nearest
    requires |path| > 0
  {
    Nearest(0, 0.0, path[0], 0.0, false)
  }

  /** The scan over segments `i..n-1`, keeping the first strict minimum. */
  function NearestFrom(path: seq<Point>, p: Point, i: nat, best: Nearest): Nearest
    requires i <= |path|
    decreases |path| - i
  {
    if i == |path| then best
    else if !NonDegenerate(path, i) then NearestFrom(path, p, i + 1, best)
    else
      var d2 := SegDist2(path, p, i);
      var pr := SegProjection(path, p, i);
      NearestFrom(path, p, i + 1,
        if !best.found || d2 < best.d2 then Nearest(i, pr.t, pr.Foot(), d2, true) else best)
  }

  /** `findNearestMainSegmentAndT` */
  function NearestSegment(path: seq<Point>, p: Point): Nearest
    requires |path| > 0
  {
    NearestFrom(path, p, 0, NoSegment(path))
  }

  /** What the scan knows after looking at segments `0..i-1`. */
  ghost predicate ScanInvariant(path: seq<Point>, p: Point, i: nat, best: Nearest)
    requires 0 < |path| && i <= |path|
  {
    (best.found <==> exists j :: 0 <= j < i && NonDegenerate(path, j)) &&
    (!best.found ==> best == NoSegment(path)) &&
    (best.found ==>
      best.segIndex < i && NonDegenerate(path, best.segIndex) &&
      best.t == SegProjection(path, p, best.segIndex).t &&
      best.proj == SegProjection(path, p, best.segIndex).Foot() &&
      best.d2 == SegDist2(path, p, best.segIndex) &&
      (forall j :: 0 <= j < i && NonDegenerate(path, j) ==> best.d2 <= SegDist2(path, p, j)) &&
      (forall j :: 0 <= j < best.segIndex && NonDegenerate(path, j) ==> best.d2 < SegDist2(path, p, j)))
  }

  /** The scan's choice after looking at segment `i`. */
  function ScanNext(path: seq<Point>, p: Point, i: nat, best: Nearest): Nearest
    requires i < |path|
  {
    if !NonDegenerate(path, i) then best
    else if !best.found || SegDist2(path, p, i) < best.d2 then
      Nearest(i, SegProjection(path, p, i).t, SegProjection(path, p, i).Foot(), SegDist2(path, p, i), true)
    else best
  }

  /** Looking at one more segment keeps the scan invariant. */
  lemma ScanStepKeeps(path: seq<Point>, p: Point, i: nat, best: Nearest)
    requires 0 < |path| && i < |path|
    requires ScanInvariant(path, p, i, best)
    ensures ScanInvariant(path, p, i + 1, ScanNext(path, p, i, best))
  {
    if NonDegenerate(path, i) && best.found && SegDist2(path, p, i) >= best.d2 {
      assert forall j :: 0 <= j < i + 1 && NonDegenerate(path, j) ==> best.d2 <= SegDist2(path, p, j);
    }
  }

  lemma {:induction false} NearestFromKeeps(path: seq<Point>, p: Point, i: nat, best: Nearest)
    requires 0 < |path| && i <= |path|
    requires ScanInvariant(path, p, i, best)
    ensures ScanInvariant(path, p, |path|, NearestFrom(path, p, i, best))
    decreases |path| - i
  {
    if i < |path| {
      var next := ScanNext(path, p, i, best);
      assert NearestFrom(path, p, i, best) == NearestFrom(path, p, i + 1, next);
      ScanStepKeeps(path, p, i, best);
      NearestFromKeeps(path, p, i + 1, next);
    }
  }

  /**
   * The snap target is the first segment, in path order, whose clamped
   * projection is strictly nearest; it is found exactly when some segment
   * has non-zero length, and otherwise the result is segment 0, t = 0 at
   * vertex 0.
   */
  lemma NearestSegmentIsFirstMinimum(path: seq<Point>, p: Point)
    requires |path| > 0
    ensures var r := NearestSegment(path, p);
      (r.found <==> exists j :: 0 <= j < |path| && NonDegenerate(path, j)) &&
      (!r.found ==> r.segIndex == 0 && r.t == 0.0 && r.proj == path[0]) &&
      (r.found ==>
        r.segIndex < |path| && NonDegenerate(path, r.segIndex) &&
        r.t == SegProjection(path, p, r.segIndex).t &&
        r.proj == SegProjection(path, p, r.segIndex).Foot() &&
        r.d2 == Dist2(r.proj, p) &&
        (forall j :: 0 <= j < |path| && NonDegenerate(path, j) ==> r.d2 <= SegDist2(path, p, j)) &&
        (forall j :: 0 <= j < r.segIndex && NonDegenerate(path, j) ==> r.d2 < SegDist2(path, p, j)))
  {
    NearestFromKeeps(path, p, 0, NoSegment(path));
  }

  /**
   * The snap target is a nearest point of the whole route: no point of any
   * non-degenerate segment is closer to `p` than `proj`.
   */
  lemma NearestSegmentIsNearestPoint(path: seq<Point>, p: Point, j: nat, s: real)
    requires j < |path| && NonDegenerate(path, j) && 0.0 <= s <= 1.0
    ensures NearestSegment(path, p).found
    ensures Dist2(p, NearestSegment(path, p).proj) <= Dist2(p, Lerp(path[j], path[Next(path, j)], s))
  {
    NearestSegmentIsFirstMinimum(path, p);
    var r := NearestSegment(path, p);
    ProjectIsNearestOnSegment(path[j], path[Next(path, j)], p, s);
    Dist2Symmetric(r.proj, p);
    Dist2Symmetric(SegProjection(path, p, j).Foot(), p);
  }

  /**
   * The snap target is always a point of the route: a segment index in
   * range, a ratio in [0,1], and the projection at that ratio.
   */
  lemma NearestSegmentOnRoute(path: seq<Point>, p: Point)
    requires |path| > 0
    ensures var r := NearestSegment(path, p);
      r.segIndex < |path| && 0.0 <= r.t <= 1.0 &&
      r.proj == Lerp(path[r.segIndex], path[Next(path, r.segIndex)], r.t)
  {
    NearestSegmentIsFirstMinimum(path, p);
  }

  lemma Dist2Symmetric(a: Point, b: Point)
    ensures Dist2(a, b) == Dist2(b, a)
  {
  }

  /** `findNearestMainSegmentAndT`, as the loop the code runs. */
  method FindNearestMainSegmentAndT(path: seq<Point>, p: Point) returns (best: Nearest)
    requires |path| > 0
    ensures best == NearestSegment(path, p)
  {
    best := NoSegment(path);
    var i := 0;
    while i < |path|
      invariant 0 <= i <= |path|
      invariant NearestFrom(path, p, i, best) == NearestSegment(path, p)
    {
      var a := path[i];
      var b := path[(i + 1) % |path|];
      if SegLen2(a, b) != 0.0 {
        var pr := Project(a, b, p);
        var d2 := Dist2(pr.Foot(), p);
        if !best.found || d2 < best.d2 {
          best := Nearest(i, pr.t, pr.Foot(), d2, true);
        }
      }
      i := i + 1;
    }
  }

  /** Every segment of the main route has non-zero length. */
  lemma MainPathNonDegenerate()
    ensures |MainPath| == 14
    ensures forall i :: 0 <= i < |MainPath| ==> NonDegenerate(MainPath, i)
  {
    forall i | 0 <= i < |MainPath|
      ensures NonDegenerate(MainPath, i)
    {
      SegLenPositive(MainPath[i], MainPath[Next(MainPath, i)]);
    }
  }
}
