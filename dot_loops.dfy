/**
 * The loops that build the dot grids and flip their flags in place, each
 * proved to compute the function that specifies it: the grid of rows is
 * walked row by row and dot by dot, and a row is written back once its
 * dots are done.
 */
module DotLoops {
  import opened Geometry
  import opened Route
  import opened Rooms
  import opened Waypoints
  import opened Trail
  import opened Blocking

  // ---------------------------------------------------------------------
  // Building the grids
  // ---------------------------------------------------------------------

  /** The `count` dots of one main segment, pushed one after another. */
  method BuildSegmentDots(a: Point, b: Point, count: nat) returns (arr: seq<Dot>)
    requires count >= 1
    ensures arr == SegmentDots(a, b, count)
  {
    arr := [];
    var k := 0;
    while k < count
      invariant 0 <= k <= count && |arr| == k
      invariant forall j :: 0 <= j < k ==> arr[j] == SegmentDots(a, b, count)[j]
    {
      var t := if count == 1 then 0.0 else k as real / (count - 1) as real;
      var pos := Lerp(a, b, t);
      arr := arr + [Dot(pos.left, pos.top, t, false, false)];
      k := k + 1;
    }
  }

  /** `createDotsForAllSegments`: one row per segment of the route, in order. */
  method CreateDotsForAllSegments(path: seq<Point>, hypot: (real, real) -> real) returns (dots: Grid)
    ensures dots == MainDots(path, hypot)
  {
    dots := [];
    var i := 0;
    while i < |path|
      invariant 0 <= i <= |path| && |dots| == i
      invariant forall s :: 0 <= s < i ==> dots[s] == MainDots(path, hypot)[s]
    {
      var start := path[i];
      var end := path[Next(path, i)];
      var count := MainDotCount(hypot(start.left - end.left, start.top - end.top));
      var arr := BuildSegmentDots(start, end, count);
      assert arr == MainDots(path, hypot)[i];
      dots := dots + [arr];
      i := i + 1;
    }
  }

  /** The `count` dots of one room path. */
  method BuildRoomDots(a: Point, b: Point, count: nat) returns (arr: seq<RoomDot>)
    requires count >= 1
    ensures arr == RoomSegmentDots(a, b, count)
  {
    arr := [];
    var k := 0;
    while k < count
      invariant 0 <= k <= count && |arr| == k
      invariant forall j :: 0 <= j < k ==> arr[j] == RoomSegmentDots(a, b, count)[j]
    {
      var t := if count == 1 then 0.0 else k as real / (count - 1) as real;
      var pos := Lerp(a, b, t);
      arr := arr + [RoomDot(pos.left, pos.top, t, false)];
      k := k + 1;
    }
  }

  /** `createRoomDotsForPaths`: one row per room path, in room order. */
  method CreateRoomDotsForPaths(rooms: seq<Room>, hypot: (real, real) -> real) returns (roomDots: RoomGrid)
    ensures roomDots == RoomDots(rooms, hypot)
  {
    roomDots := [];
    var ri := 0;
    while ri < |rooms|
      invariant 0 <= ri <= |rooms| && |roomDots| == ri
      invariant forall j :: 0 <= j < ri ==> roomDots[j] == RoomDots(rooms, hypot)[j]
    {
      var rp := rooms[ri];
      var count := RoomDotCount(hypot(rp.end.left - rp.start.left, rp.end.top - rp.start.top));
      var arr := BuildRoomDots(rp.start, rp.end, count);
      assert arr == RoomDots(rooms, hypot)[ri];
      roomDots := roomDots + [arr];
      ri := ri + 1;
    }
  }

  // ---------------------------------------------------------------------
  // Trail
  // ---------------------------------------------------------------------

  /** `handleTrailForSegment`: toggles, dot by dot, the dots of the segment whose parameter is in the range. */
  method HandleTrailForSegment(dots: Grid, seg: int, low: real, high: real) returns (r: Grid)
    ensures r == TrailForSegment(dots, seg, low, high)
  {
    if seg < 0 || seg >= |dots| {
      return dots;
    }
    var row := dots[seg];
    var lo := Min(low, high);
    var hi := Max(low, high);
    var i := 0;
    while i < |row|
      invariant 0 <= i <= |row| && |row| == |dots[seg]|
      invariant forall j :: 0 <= j < i ==> row[j] == ToggleRow(dots[seg], low, high)[j]
      invariant forall j :: i <= j < |row| ==> row[j] == dots[seg][j]
    {
      if lo <= row[i].t <= hi {
        row := row[i := ToggleTrail(row[i])];
      }
      i := i + 1;
    }
    assert row == ToggleRow(dots[seg], low, high);
    r := dots[seg := row];
  }

  /**
   * `handleTrailCrossingsAcrossSegments`: the range on the current segment,
   * split at the segment boundary the move crosses.
   */
  method HandleTrailCrossings(dots: Grid, n: int, step: int, rCurr: real, rNext: real) returns (r: Grid)
    requires n > 0
    ensures r == Sweep(dots, n, step, rCurr, rNext)
  {
    if |dots| == 0 || rCurr == rNext {
      return dots;
    }
    ghost var spans := SweepSpans(|dots|, n, step, rCurr, rNext);
    if 0.0 <= rNext <= 1.0 {
      r := HandleTrailForSegment(dots, step, rCurr, rNext);
      assert ApplySpans(dots, spans) == ApplySpans(r, spans[1..]);
      assert spans[1..] == [];
    } else if rNext > 1.0 {
      var d1 := HandleTrailForSegment(dots, step, rCurr, 1.0);
      r := HandleTrailForSegment(d1, JsRem(step + 1, n), 0.0, rNext - 1.0);
      assert ApplySpans(dots, spans) == ApplySpans(d1, spans[1..]);
      assert ApplySpans(d1, spans[1..]) == ApplySpans(r, spans[1..][1..]);
      assert spans[1..][1..] == [];
    } else {
      var d1 := HandleTrailForSegment(dots, JsRem(step - 1 + n, n), rNext + 1.0, 1.0);
      r := HandleTrailForSegment(d1, step, 0.0, rCurr);
      assert ApplySpans(dots, spans) == ApplySpans(d1, spans[1..]);
      assert ApplySpans(d1, spans[1..]) == ApplySpans(r, spans[1..][1..]);
      assert spans[1..][1..] == [];
    }
  }

  /** `markNearbyMainDots`: every unlit dot within `radius` of `p` is lit. */
  method MarkNearbyMainDots(dots: Grid, p: Point, radius: real) returns (r: Grid)
    ensures r == MarkNearbyMain(dots, p, radius)
  {
    var r2 := radius * radius;
    r := dots;
    var s := 0;
    while s < |r|
      invariant 0 <= s <= |r| && |r| == |dots|
      invariant forall j :: 0 <= j < s ==> r[j] == MarkNearbyMain(dots, p, radius)[j]
      invariant forall j :: s <= j < |r| ==> r[j] == dots[j]
    {
      var row := r[s];
      var i := 0;
      while i < |row|
        invariant 0 <= i <= |row| && |row| == |dots[s]|
        invariant forall k :: 0 <= k < i ==> row[k] == MarkDot(dots[s][k], p, radius)
        invariant forall k :: i <= k < |row| ==> row[k] == dots[s][k]
      {
        var d := row[i];
        if !d.trail && Dist2(d.Pos(), p) <= r2 {
          row := row[i := SetTrail(d)];
        }
        i := i + 1;
      }
      r := r[s := row];
      s := s + 1;
    }
  }

  /** `markNearbyRoomDots`: the same, in the rooms whose area holds `p` only. */
  method MarkNearbyRoomDots(roomDots: RoomGrid, rooms: seq<Room>, p: Point, radius: real) returns (r: RoomGrid)
    ensures r == MarkNearbyRoom(roomDots, rooms, p, radius)
  {
    var r2 := radius * radius;
    r := roomDots;
    var ri := 0;
    while ri < |r|
      invariant 0 <= ri <= |r| && |r| == |roomDots|
      invariant forall j :: 0 <= j < ri ==> r[j] == MarkNearbyRoom(roomDots, rooms, p, radius)[j]
      invariant forall j :: ri <= j < |r| ==> r[j] == roomDots[j]
    {
      if ri < |rooms| && Inside(rooms[ri].area, p) {
        var row := r[ri];
        var i := 0;
        while i < |row|
          invariant 0 <= i <= |row| && |row| == |roomDots[ri]|
          invariant forall k :: 0 <= k < i ==> row[k] == MarkRoomDot(roomDots[ri][k], p, radius)
          invariant forall k :: i <= k < |row| ==> row[k] == roomDots[ri][k]
        {
          var d := row[i];
          if !d.trail && Dist2(d.Pos(), p) <= r2 {
            row := row[i := SetRoomTrail(d)];
          }
          i := i + 1;
        }
        r := r[ri := row];
      }
      ri := ri + 1;
    }
  }

  /** The room frame's swept-range marking on the row of room `ri`, if there is one. */
  method MarkRoomSweep(roomDots: RoomGrid, ri: int, low: real, high: real) returns (r: RoomGrid)
    ensures r == MarkRoomRowRange(roomDots, ri, low, high)
  {
    if !(0 <= ri < |roomDots|) {
      return roomDots;
    }
    var row := roomDots[ri];
    var lo := Min(low, high);
    var hi := Max(low, high);
    var j := 0;
    while j < |row|
      invariant 0 <= j <= |row| && |row| == |roomDots[ri]|
      invariant forall k :: 0 <= k < j ==> row[k] == MarkRoomRange(roomDots[ri], low, high)[k]
      invariant forall k :: j <= k < |row| ==> row[k] == roomDots[ri][k]
    {
      if !row[j].trail && lo <= row[j].t <= hi {
        row := row[j := SetRoomTrail(row[j])];
      }
      j := j + 1;
    }
    assert row == MarkRoomRange(roomDots[ri], low, high);
    r := roomDots[ri := row];
  }

  // ---------------------------------------------------------------------
  // Blocks and hazards
  // ---------------------------------------------------------------------

  /** `resetAllBlocks`: every dot of every row unblocked. */
  method ResetAllBlocksInPlace(dots: Grid) returns (r: Grid)
    ensures r == ResetAllBlocks(dots)
  {
    r := dots;
    var s := 0;
    while s < |r|
      invariant 0 <= s <= |r| && |r| == |dots|
      invariant forall j :: 0 <= j < s ==> r[j] == ResetAllBlocks(dots)[j]
      invariant forall j :: s <= j < |r| ==> r[j] == dots[j]
    {
      var row := r[s];
      var i := 0;
      while i < |row|
        invariant 0 <= i <= |row| && |row| == |dots[s]|
        invariant forall k :: 0 <= k < i ==> row[k] == dots[s][k].(blocked := false)
        invariant forall k :: i <= k < |row| ==> row[k] == dots[s][k]
      {
        row := row[i := row[i].(blocked := false)];
        i := i + 1;
      }
      r := r[s := row];
      s := s + 1;
    }
  }

  /**
   * `placeHazardAtPoint` at an already clamped point: the grid is built
   * when there is none, then every dot in the square is blocked and added
   * to the hazard set.
   */
  method PlaceHazardAtPoint(h: Hazards, path: seq<Point>, hypot: (real, real) -> real, c: Point) returns (r: Hazards)
    ensures r == PlaceHazard(h, MainDots(path, hypot), c)
  {
    var dots := h.dots;
    if |dots| == 0 {
      dots := CreateDotsForAllSegments(path, hypot);
    }
    ghost var base := dots;
    var tracked := h.tracked;
    var s := 0;
    while s < |dots|
      invariant 0 <= s <= |dots| && |dots| == |base|
      invariant forall j :: 0 <= j < s ==> dots[j] == BlockSquare(base, c)[j]
      invariant forall j :: s <= j < |dots| ==> dots[j] == base[j]
      invariant forall id :: id in tracked <==> id in h.tracked || (id in SquareIds(base, c) && id.seg < s)
    {
      var row := dots[s];
      var i := 0;
      while i < |row|
        invariant 0 <= i <= |row| && |row| == |base[s]|
        invariant forall k :: 0 <= k < i ==> row[k] == BlockSquare(base, c)[s][k]
        invariant forall k :: i <= k < |row| ==> row[k] == base[s][k]
        invariant forall id :: id in tracked <==>
          id in h.tracked || (id in SquareIds(base, c) && (id.seg < s || (id.seg == s && id.idx < i)))
      {
        var d := row[i];
        if InSquare(c, d) {
          row := row[i := d.(blocked := true)];
          tracked := tracked + {DotId(s, i)};
        }
        i := i + 1;
      }
      assert row == BlockSquare(base, c)[s];
      dots := dots[s := row];
      s := s + 1;
    }
    assert dots == BlockSquare(base, c);
    assert tracked == h.tracked + SquareIds(base, c);
    r := Hazards(dots, tracked);
  }

  /** `resetHandler`: each tracked dot unblocked, one at a time, then the set emptied. */
  method ResetHazardsInPlace(h: Hazards) returns (r: Hazards)
    ensures r == ResetHazards(h)
  {
    var dots := h.dots;
    var rest := h.tracked;
    while rest != {}
      invariant rest <= h.tracked
      invariant |dots| == |h.dots| && forall s :: 0 <= s < |h.dots| ==> |dots[s]| == |h.dots[s]|
      invariant forall s, k :: 0 <= s < |h.dots| && 0 <= k < |h.dots[s]| ==>
        dots[s][k] == if DotId(s, k) in h.tracked - rest then h.dots[s][k].(blocked := false) else h.dots[s][k]
      decreases rest
    {
      var id :| id in rest;
      if 0 <= id.seg < |dots| && 0 <= id.idx < |dots[id.seg]| {
        dots := dots[id.seg := dots[id.seg][id.idx := dots[id.seg][id.idx].(blocked := false)]];
      }
      rest := rest - {id};
    }
    r := Hazards(dots, {});
    assert r.dots == ResetHazards(h).dots by {
      var want := ResetHazards(h).dots;
      forall s | 0 <= s < |dots|
        ensures dots[s] == want[s]
      {
      }
    }
  }
}
