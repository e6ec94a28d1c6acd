/**
 * Trail bookkeeping. Main-route dots use toggle semantics (a first pass
 * lights a dot, a second pass clears it); room dots and proximity marks are
 * one-way and only ever turn a dot's trail flag on.
 */
module Trail {
  import opened Geometry
  import opened Route
  import opened Rooms
  import opened Waypoints

  /** `dotsBySegment`: one row of dots per main segment. */
  type Grid = seq<seq<Dot>>
  /** `roomDotsByIndex`: one row of dots per room path. */
  type RoomGrid = seq<seq<RoomDot>>

  /** The closed range between two ratios, in either order. */
  predicate InSpan(t: real, low: real, high: real)
  {
    Min(low, high) <= t <= Max(low, high)
  }

  /** `toggleDotTrail`: flips the trail flag and nothing else. */
  function ToggleTrail(d: Dot): (r: Dot)
    ensures r.trail == !d.trail
    ensures r.(trail := d.trail) == d
  {
    d.(trail := !d.trail)
  }

  /** `setDotTrail`: turns the trail flag on (a lit dot stays as it is). */
  function SetTrail(d: Dot): (r: Dot)
    ensures r.trail
    ensures r.(trail := d.trail) == d
    ensures d.trail ==> r == d
  {
    if d.trail then d else d.(trail := true)
  }

  /**
   * `setRoomDotTrail`: the one-way room counterpart. Room dots are a
   * separate datatype without a `blocked` flag, so this cannot reuse
   * `SetTrail`; the program likewise keeps two functions.
   */
  function SetRoomTrail(d: RoomDot): (r: RoomDot)
    ensures r.trail
    ensures r.(trail := d.trail) == d
    ensures d.trail ==> r == d
  {
    if d.trail then d else d.(trail := true)
  }

  /** Toggles the dots of one row whose parameter lies in the closed range. */
  function ToggleRow(row: seq<Dot>, low: real, high: real): (r: seq<Dot>)
    ensures |r| == |row|
  {
    seq(|row|, i requires 0 <= i < |row| =>
      if InSpan(row[i].t, low, high) then ToggleTrail(row[i]) else row[i])
  }

  /** `handleTrailForSegment`: an out-of-range segment index changes nothing. */
  function TrailForSegment(dots: Grid, seg: int, low: real, high: real): (r: Grid)
    ensures |r| == |dots|
  {
    if seg < 0 || seg >= |dots| then dots else dots[seg := ToggleRow(dots[seg], low, high)]
  }

  /** A range of one segment that a sweep toggles. */
  datatype Span = Span(seg: int, low: real, high: real)

  /**
   * The ranges `handleTrailCrossingsAcrossSegments` toggles for a move from
   * `rCurr` to `rNext` on segment `step` of an `n`-vertex route: nothing for
   * an empty grid or a standing move; the range on `step` while `rNext` stays
   * in [0,1]; otherwise the part on `step` and the overshoot on the next (or
   * previous) segment.
   */
  function SweepSpans(dotRows: nat, n: int, step: int, rCurr: real, rNext: real): (spans: seq<Span>)
    requires n > 0
    ensures |spans| <= 2
    ensures dotRows == 0 || rCurr == rNext <==> spans == []
    ensures forall sp :: sp in spans ==>
      sp.seg == step || sp.seg == JsRem(step + 1, n) || sp.seg == JsRem(step - 1 + n, n)
  {
    if dotRows == 0 || rCurr == rNext then []
    else if 0.0 <= rNext <= 1.0 then [Span(step, rCurr, rNext)]
    else if rNext > 1.0 then [Span(step, rCurr, 1.0), Span(JsRem(step + 1, n), 0.0, rNext - 1.0)]
    else [Span(JsRem(step - 1 + n, n), rNext + 1.0, 1.0), Span(step, 0.0, rCurr)]
  }

  /** Applies `handleTrailForSegment` to each span in order. */
  function ApplySpans(dots: Grid, spans: seq<Span>): (r: Grid)
    ensures |r| == |dots|
    decreases |spans|
  {
    if spans == [] then dots
    else ApplySpans(TrailForSegment(dots, spans[0].seg, spans[0].low, spans[0].high), spans[1..])
  }

  /** `handleTrailCrossingsAcrossSegments` on an `n`-vertex route. */
  function Sweep(dots: Grid, n: int, step: int, rCurr: real, rNext: real): (r: Grid)
    requires n > 0
    ensures |r| == |dots|
  {
    ApplySpans(dots, SweepSpans(|dots|, n, step, rCurr, rNext))
  }

  /** Whether a list of spans toggles a dot with parameter `t` on segment `s` an odd number of times. */
  function Flips(spans: seq<Span>, s: int, t: real): bool
  {
    if spans == [] then false
    else (spans[0].seg == s && InSpan(t, spans[0].low, spans[0].high)) != Flips(spans[1..], s, t)
  }

  /** Two grids with the same shape that differ at most in trail flags, as `flip` says. */
  predicate FlippedBy(dots: Grid, r: Grid, spans: seq<Span>)
  {
    |r| == |dots| &&
    (forall s :: 0 <= s < |dots| ==> |r[s]| == |dots[s]|) &&
    (forall s, k :: 0 <= s < |dots| && 0 <= k < |dots[s]| ==>
      r[s][k].(trail := dots[s][k].trail) == dots[s][k] &&
      r[s][k].trail == (dots[s][k].trail != Flips(spans, s, dots[s][k].t)))
  }

  /**
   * Applying a list of spans flips exactly the dots covered an odd number of
   * times, and changes nothing else about any dot.
   */
  lemma {:induction false} ApplySpansFlips(dots: Grid, spans: seq<Span>)
    ensures FlippedBy(dots, ApplySpans(dots, spans), spans)
    decreases |spans|
  {
    if spans != [] {
      var sp := spans[0];
      var mid := TrailForSegment(dots, sp.seg, sp.low, sp.high);
      ApplySpansFlips(mid, spans[1..]);
      forall s, k | 0 <= s < |dots| && 0 <= k < |dots[s]|
        ensures mid[s][k].(trail := dots[s][k].trail) == dots[s][k]
        ensures mid[s][k].trail == (dots[s][k].trail != (sp.seg == s && InSpan(dots[s][k].t, sp.low, sp.high)))
      {
      }
    }
  }

  /** A sweep's pointwise meaning: a dot flips exactly when one of the sweep's spans covers it. */
  lemma SweepFlipsSpans(dots: Grid, n: int, step: int, rCurr: real, rNext: real)
    requires n > 0
    ensures FlippedBy(dots, Sweep(dots, n, step, rCurr, rNext), SweepSpans(|dots|, n, step, rCurr, rNext))
  {
    ApplySpansFlips(dots, SweepSpans(|dots|, n, step, rCurr, rNext));
  }

  /** The same sweep applied twice restores every trail flag: toggling is an involution. */
  lemma SweepTwiceRestores(dots: Grid, n: int, step: int, rCurr: real, rNext: real)
    requires n > 0
    ensures Sweep(Sweep(dots, n, step, rCurr, rNext), n, step, rCurr, rNext) == dots
  {
    var spans := SweepSpans(|dots|, n, step, rCurr, rNext);
    var once := Sweep(dots, n, step, rCurr, rNext);
    var twice := Sweep(once, n, step, rCurr, rNext);
    SweepFlipsSpans(dots, n, step, rCurr, rNext);
    SweepFlipsSpans(once, n, step, rCurr, rNext);
    assert SweepSpans(|once|, n, step, rCurr, rNext) == spans;
    forall s | 0 <= s < |dots|
      ensures twice[s] == dots[s]
    {
      forall k | 0 <= k < |dots[s]|
        ensures twice[s][k] == dots[s][k]
      {
        assert once[s][k].t == dots[s][k].t;
      }
    }
  }

  /**
   * A move that stays inside [0,1] toggles exactly the dots of segment `step`
   * whose parameter lies between the two ratios; one that leaves [0,1]
   * through 1 toggles [rCurr,1] on `step` and [0,rNext-1] on the next
   * segment, and one that leaves through 0 toggles [rNext+1,1] on the
   * previous segment and [0,rCurr] on `step`.
   */
  lemma SweepByCase(dots: Grid, n: int, step: int, rCurr: real, rNext: real, s: int, k: int)
    requires n > 0 && |dots| > 0 && rCurr != rNext
    requires 0 <= s < |dots| && 0 <= k < |dots[s]|
    ensures |Sweep(dots, n, step, rCurr, rNext)[s]| == |dots[s]|
    ensures var r := Sweep(dots, n, step, rCurr, rNext); var t := dots[s][k].t;
      var flipped := r[s][k].trail != dots[s][k].trail;
      (0.0 <= rNext <= 1.0 ==> (flipped <==> s == step && InSpan(t, rCurr, rNext))) &&
      (rNext > 1.0 ==> (flipped <==> (s == step && InSpan(t, rCurr, 1.0)) != (s == JsRem(step + 1, n) && InSpan(t, 0.0, rNext - 1.0)))) &&
      (rNext < 0.0 ==> (flipped <==> (s == JsRem(step - 1 + n, n) && InSpan(t, rNext + 1.0, 1.0)) != (s == step && InSpan(t, 0.0, rCurr))))
  {
    var spans := SweepSpans(|dots|, n, step, rCurr, rNext);
    SweepFlipsSpans(dots, n, step, rCurr, rNext);
    var t := dots[s][k].t;
    assert Flips(spans[|spans|..], s, t) == false;
    if |spans| == 2 {
      assert Flips(spans, s, t) == ((spans[0].seg == s && InSpan(t, spans[0].low, spans[0].high)) != Flips(spans[1..], s, t));
      assert Flips(spans[1..], s, t) == (spans[1].seg == s && InSpan(t, spans[1].low, spans[1].high));
    }
  }

  /** `markNearbyMainDots` on one dot: lit when within `radius` of the point. */
  function MarkDot(d: Dot, p: Point, radius: real): Dot
  {
    if !d.trail && Dist2(d.Pos(), p) <= Sq(radius) then SetTrail(d) else d
  }

  /**
   * `markNearbyMainDots`: one-way and exact; afterwards a dot is lit when it
   * was lit before or lies within `radius` of `p`, and nothing else changes.
   */
  function MarkNearbyMain(dots: Grid, p: Point, radius: real): (r: Grid)
    ensures |r| == |dots|
    ensures forall s, k :: 0 <= s < |dots| && 0 <= k < |dots[s]| ==>
      |r[s]| == |dots[s]| && r[s][k].(trail := dots[s][k].trail) == dots[s][k] &&
      (r[s][k].trail <==> dots[s][k].trail || Dist2(dots[s][k].Pos(), p) <= Sq(radius))
  {
    seq(|dots|, s requires 0 <= s < |dots| =>
      seq(|dots[s]|, i requires 0 <= i < |dots[s]| => MarkDot(dots[s][i], p, radius)))
  }

  /** Marking twice at the same point is marking once. */
  lemma MarkNearbyMainIdempotent(dots: Grid, p: Point, radius: real)
    ensures MarkNearbyMain(MarkNearbyMain(dots, p, radius), p, radius) == MarkNearbyMain(dots, p, radius)
  {
    var once := MarkNearbyMain(dots, p, radius);
    var twice := MarkNearbyMain(once, p, radius);
    forall s | 0 <= s < |dots|
      ensures twice[s] == once[s]
    {
    }
  }

  /** `markNearbyRoomDots` on one room dot. */
  function MarkRoomDot(d: RoomDot, p: Point, radius: real): RoomDot
  {
    if !d.trail && Dist2(d.Pos(), p) <= Sq(radius) then SetRoomTrail(d) else d
  }

  /**
   * `markNearbyRoomDots`: lights the room dots within `radius` of `p`, but
   * only in rooms whose area contains `p`; rows without a room are skipped.
   * One-way: a lit dot stays lit and nothing but the flag changes.
   */
  function MarkNearbyRoom(roomDots: RoomGrid, rooms: seq<Room>, p: Point, radius: real): (r: RoomGrid)
    ensures |r| == |roomDots|
    ensures forall ri :: 0 <= ri < |roomDots| && !(ri < |rooms| && Inside(rooms[ri].area, p)) ==> r[ri] == roomDots[ri]
    ensures forall ri, j :: 0 <= ri < |roomDots| && 0 <= j < |roomDots[ri]| ==>
      |r[ri]| == |roomDots[ri]| && r[ri][j].(trail := roomDots[ri][j].trail) == roomDots[ri][j] &&
      (r[ri][j].trail <==>
        roomDots[ri][j].trail ||
        (ri < |rooms| && Inside(rooms[ri].area, p) && Dist2(roomDots[ri][j].Pos(), p) <= Sq(radius)))
  {
    seq(|roomDots|, ri requires 0 <= ri < |roomDots| =>
      if ri < |rooms| && Inside(rooms[ri].area, p) then
        seq(|roomDots[ri]|, j requires 0 <= j < |roomDots[ri]| => MarkRoomDot(roomDots[ri][j], p, radius))
      else roomDots[ri])
  }

  /** Room marking twice at the same point is marking once. */
  lemma MarkNearbyRoomIdempotent(roomDots: RoomGrid, rooms: seq<Room>, p: Point, radius: real)
    ensures var once := MarkNearbyRoom(roomDots, rooms, p, radius);
      MarkNearbyRoom(once, rooms, p, radius) == once
  {
    var once := MarkNearbyRoom(roomDots, rooms, p, radius);
    var twice := MarkNearbyRoom(once, rooms, p, radius);
    forall ri | 0 <= ri < |roomDots|
      ensures twice[ri] == once[ri]
    {
    }
  }

  /** The room tick's swept-range marking: lights the dots whose parameter lies in the range. */
  function MarkRoomRange(row: seq<RoomDot>, low: real, high: real): (r: seq<RoomDot>)
    ensures |r| == |row|
    ensures forall j :: 0 <= j < |row| ==>
      r[j].(trail := row[j].trail) == row[j] && (r[j].trail <==> row[j].trail || InSpan(row[j].t, low, high))
  {
    seq(|row|, j requires 0 <= j < |row| =>
      if !row[j].trail && InSpan(row[j].t, low, high) then SetRoomTrail(row[j]) else row[j])
  }

  /** Range marking is idempotent. */
  lemma MarkRoomRangeIdempotent(row: seq<RoomDot>, low: real, high: real)
    ensures MarkRoomRange(MarkRoomRange(row, low, high), low, high) == MarkRoomRange(row, low, high)
  {
  }

  /**
   * The room row the room tick marks: `roomDotsByIndex[roomIndex] || []`,
   * so an index without a row changes nothing.
   */
  function MarkRoomRowRange(roomDots: RoomGrid, ri: int, low: real, high: real): (r: RoomGrid)
    ensures |r| == |roomDots|
    ensures forall j :: 0 <= j < |roomDots| && j != ri ==> r[j] == roomDots[j]
  {
    if 0 <= ri < |roomDots| then roomDots[ri := MarkRoomRange(roomDots[ri], low, high)] else roomDots
  }

  /** Every trail flag that was on stays on under the one-way operations. */
  predicate RoomTrailGrows(before: RoomGrid, after: RoomGrid)
  {
    |after| == |before| &&
    (forall ri :: 0 <= ri < |before| ==> |after[ri]| == |before[ri]|) &&
    (forall ri, j :: 0 <= ri < |before| && 0 <= j < |before[ri]| ==>
      (before[ri][j].trail ==> after[ri][j].trail) && after[ri][j].(trail := before[ri][j].trail) == before[ri][j])
  }

  lemma RoomMarkingGrows(roomDots: RoomGrid, rooms: seq<Room>, p: Point, radius: real, ri: int, low: real, high: real)
    ensures RoomTrailGrows(roomDots, MarkNearbyRoom(roomDots, rooms, p, radius))
    ensures RoomTrailGrows(roomDots, MarkRoomRowRange(roomDots, ri, low, high))
  {
  }

  // ---------------------------------------------------------------------
  // The room marking at placement, as written and as intended.
  // ---------------------------------------------------------------------

  /** A JavaScript number read from an object: a missing property reads as NaN once used in arithmetic. */
  datatype Num = Num(v: real) | NaN

  /** Reading a named property of a projection object `{t, px, py}`. */
  function ProjectionField(proj: Projection, name: string): (r: Num)
    ensures name != "t" && name != "px" && name != "py" ==> r == NaN
  {
    if name == "t" then Num(proj.t)
    else if name == "px" then Num(proj.px)
    else if name == "py" then Num(proj.py)
    else NaN
  }

  /** `a - b` where NaN is absorbing. */
  function SubNum(a: real, b: Num): Num
  {
    if b.NaN? then NaN else Num(a - b.v)
  }

  /** `a <= b` and `a >= b` with JavaScript's rule that any comparison with NaN is false. */
  predicate LeNum(a: Num, b: Num) { a.Num? && b.Num? && a.v <= b.v }

  /** `pointIsInsideArea` on a point whose coordinates may be NaN. */
  predicate InsideNum(r: Rect, x: Num, y: Num)
  {
    LeNum(Num(r.left), x) && LeNum(x, Num(r.left + r.width)) &&
    LeNum(Num(r.top), y) && LeNum(y, Num(r.top + r.height))
  }

  /** `markNearbyRoomDots` on one dot, for a point read property by property. */
  function MarkRoomDotNum(d: RoomDot, x: Num, y: Num, radius: real): RoomDot
  {
    var dx := SubNum(d.x, x);
    var dy := SubNum(d.y, y);
    if !d.trail && dx.Num? && dy.Num? && Sq(dx.v) + Sq(dy.v) <= Sq(radius) then SetRoomTrail(d) else d
  }

  /** `markNearbyRoomDots` for a point whose `left`/`top` are read as JavaScript properties. */
  function MarkNearbyRoomNum(roomDots: RoomGrid, rooms: seq<Room>, x: Num, y: Num, radius: real): (r: RoomGrid)
    ensures |r| == |roomDots|
  {
    seq(|roomDots|, ri requires 0 <= ri < |roomDots| =>
      if ri < |rooms| && InsideNum(rooms[ri].area, x, y) then
        seq(|roomDots[ri]|, j requires 0 <= j < |roomDots[ri]| => MarkRoomDotNum(roomDots[ri][j], x, y, radius))
      else roomDots[ri])
  }

  /** With real coordinates the property-wise reading is exactly `MarkNearbyRoom`. */
  lemma MarkNearbyRoomNumAgrees(roomDots: RoomGrid, rooms: seq<Room>, p: Point, radius: real)
    ensures MarkNearbyRoomNum(roomDots, rooms, Num(p.left), Num(p.top), radius) == MarkNearbyRoom(roomDots, rooms, p, radius)
  {
    var a := MarkNearbyRoomNum(roomDots, rooms, Num(p.left), Num(p.top), radius);
    var b := MarkNearbyRoom(roomDots, rooms, p, radius);
    forall ri | 0 <= ri < |roomDots|
      ensures a[ri] == b[ri]
    {
      if ri < |rooms| && Inside(rooms[ri].area, p) {
        forall j | 0 <= j < |roomDots[ri]|
          ensures a[ri][j] == b[ri][j]
        {
          var d := roomDots[ri][j];
          assert Dist2(d.Pos(), p) == Sq(d.x - p.left) + Sq(d.y - p.top);
        }
      }
    }
  }

  /**
   * Placement inside a room, as written: the projection `{t, px, py}` is
   * passed where a point `{left, top}` is expected, so both coordinates read
   * as NaN and no room dot is ever marked.
   */
  function PlacementRoomMarkAsWritten(roomDots: RoomGrid, rooms: seq<Room>, proj: Projection): (r: RoomGrid)
    ensures r == roomDots
  {
    MarkNearbyRoomNum(roomDots, rooms, ProjectionField(proj, "left"), ProjectionField(proj, "top"), 10.0)
  }

  /** Placement inside a room, as intended: the room dots within 10 of the projected point. */
  function PlacementRoomMark(roomDots: RoomGrid, rooms: seq<Room>, proj: Projection): (r: RoomGrid)
    ensures RoomTrailGrows(roomDots, r)
  {
    RoomMarkingGrows(roomDots, rooms, proj.Foot(), 10.0, -1, 0.0, 0.0);
    MarkNearbyRoom(roomDots, rooms, proj.Foot(), 10.0)
  }

  /**
   * The placement input on which the program and its intent part ways: a
   * room dot within 10 of the entry point whose parameter lies below the
   * entry parameter. The intended call lights it, the written one does not,
   * and no later room frame reaches it, since each marks a range that
   * starts at the entry parameter or above.
   */
  lemma PlacementBehindEntryStaysUnlit(roomDots: RoomGrid, rooms: seq<Room>, proj: Projection, ri: nat, j: nat)
    requires ri < |rooms| && ri < |roomDots| && j < |roomDots[ri]|
    requires Inside(rooms[ri].area, proj.Foot())
    requires Dist2(roomDots[ri][j].Pos(), proj.Foot()) <= 100.0 && !roomDots[ri][j].trail
    requires roomDots[ri][j].t < proj.t
    ensures PlacementRoomMark(roomDots, rooms, proj)[ri][j].trail
    ensures !PlacementRoomMarkAsWritten(roomDots, rooms, proj)[ri][j].trail
    ensures forall low, high :: proj.t <= low && proj.t <= high ==>
      !MarkRoomRange(PlacementRoomMarkAsWritten(roomDots, rooms, proj)[ri], low, high)[j].trail
  {
    assert Sq(10.0) == 100.0;
  }

  /**
   * A room whose area contains the projected point and whose first dot sits
   * on it: the intended marking lights that dot, the written one does not.
   */
  lemma PlacementRoomMarkDiffers(roomDots: RoomGrid, rooms: seq<Room>, proj: Projection, ri: nat)
    requires ri < |rooms| && ri < |roomDots| && |roomDots[ri]| > 0
    requires Inside(rooms[ri].area, proj.Foot())
    requires roomDots[ri][0].Pos() == proj.Foot() && !roomDots[ri][0].trail
    ensures PlacementRoomMark(roomDots, rooms, proj)[ri][0].trail
    ensures !PlacementRoomMarkAsWritten(roomDots, rooms, proj)[ri][0].trail
  {
    Dist2Facts(roomDots[ri][0].Pos(), proj.Foot());
    SqNonneg(10.0);
  }
}
