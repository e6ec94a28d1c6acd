/**
 * Waypoint dots. Every segment of the main route carries an evenly spaced
 * row of dots that light up as the mover passes ("trail") and that a user or
 * a hazard can block; every room path carries a row of one-way room dots.
 */
module Waypoints {
  import opened Geometry
  import opened Route
  import opened Rooms

  /** A main-route dot (`{x, y, label, blocked, t, trail}`); `t` is its parameter along the segment. */
  datatype Dot = Dot(x: real, y: real, t: real, blocked: bool, trail: bool)
  {
    function Pos(): Point { Point(x, y) }
  }

  /** A room-path dot (`{x, y, t, trail, roomIndex}`; the room is the row it sits in). */
  datatype RoomDot = RoomDot(x: real, y: real, t: real, trail: bool)
  {
    function Pos(): Point { Point(x, y) }
  }

  const DOT_SPACING: real := 10.0
  const MAX_LABELS: int := 26
  const MAX_ROOM_DOTS: int := 40

  function IntMin(a: int, b: int): int { if a <= b then a else b }
  function IntMax(a: int, b: int): int { if a <= b then b else a }

  /** `Math.round`: the nearest integer, halves rounding up. */
  function Round(x: real): (r: int)
    ensures r as real - 0.5 <= x < r as real + 0.5
  {
    (x + 0.5).Floor
  }

  /** Dots on a main segment of length `len`: one per 10 px plus one, between 2 and 26. */
  function MainDotCount(len: real): (c: nat)
    ensures 2 <= c <= MAX_LABELS
    ensures 2 <= Round(len / DOT_SPACING) + 1 <= MAX_LABELS ==> c == Round(len / DOT_SPACING) + 1
    ensures Round(len / DOT_SPACING) + 1 < 2 ==> c == 2
    ensures Round(len / DOT_SPACING) + 1 > MAX_LABELS ==> c == MAX_LABELS
  {
    var count := IntMin(MAX_LABELS, IntMax(2, Round(len / DOT_SPACING) + 1));
    if count > MAX_LABELS then MAX_LABELS else count
  }

  /** Dots on a room path of length `len` (zero counts as one): at least 2, at most 40. */
  function RoomDotCount(len: real): (c: nat)
    ensures 2 <= c <= MAX_ROOM_DOTS
    ensures 2 <= Round(OrOne(len) / DOT_SPACING) + 1 <= MAX_ROOM_DOTS ==> c == Round(OrOne(len) / DOT_SPACING) + 1
    ensures Round(OrOne(len) / DOT_SPACING) + 1 < 2 ==> c == 2
    ensures Round(OrOne(len) / DOT_SPACING) + 1 > MAX_ROOM_DOTS ==> c == MAX_ROOM_DOTS
  {
    var count := IntMax(2, Round(OrOne(len) / DOT_SPACING) + 1);
    IntMin(count, MAX_ROOM_DOTS)
  }

  /** Parameter of dot `k` of `count`: `k / (count - 1)`, or 0 for a single dot. */
  function DotT(k: nat, count: nat): real
    requires count >= 1
  {
    if count == 1 then 0.0 else k as real / (count - 1) as real
  }

  /** Dot parameters run from 0 to 1, strictly increasing. */
  lemma DotTSpan(count: nat)
    requires count >= 2
    ensures DotT(0, count) == 0.0 && DotT(count - 1, count) == 1.0
    ensures forall k :: 0 <= k < count ==> 0.0 <= DotT(k, count) <= 1.0
    ensures forall j, k :: 0 <= j < k < count ==> DotT(j, count) < DotT(k, count)
  {
    DotTInUnit(count);
    forall j, k | 0 <= j < k < count
      ensures DotT(j, count) < DotT(k, count)
    {
      DotTIncreasing(count, j, k);
    }
  }

  /** Every dot parameter lies in [0, 1]. */
  lemma DotTInUnit(count: nat)
    requires count >= 2
    ensures forall k :: 0 <= k < count ==> 0.0 <= DotT(k, count) <= 1.0
  {
    forall k | 0 <= k < count
      ensures 0.0 <= DotT(k, count) <= 1.0
    {
      if 0 < k { DotTIncreasing(count, 0, k); }
      if k < count - 1 { DotTIncreasing(count, k, count - 1); }
    }
  }

  /** A later dot has a larger parameter. */
  lemma DotTIncreasing(count: nat, j: nat, k: nat)
    requires count >= 2 && j < k < count
    ensures DotT(j, count) < DotT(k, count)
  {
    DivStrictMono(j as real, k as real, (count - 1) as real);
  }

  /** The row of dots of one main segment from `a` to `b`. */
  function SegmentDots(a: Point, b: Point, count: nat): (dots: seq<Dot>)
    requires count >= 1
    ensures |dots| == count
  {
    seq(count, k requires 0 <= k < count =>
      var t := DotT(k, count);
      var p := Lerp(a, b, t);
      Dot(p.left, p.top, t, false, false))
  }

  /** The row of dots of one room path. */
  function RoomSegmentDots(a: Point, b: Point, count: nat): (dots: seq<RoomDot>)
    requires count >= 1
    ensures |dots| == count
  {
    seq(count, k requires 0 <= k < count =>
      var t := DotT(k, count);
      var p := Lerp(a, b, t);
      RoomDot(p.left, p.top, t, false))
  }

  /** `createDotsForAllSegments`: one row per segment, in segment order. */
  function MainDots(path: seq<Point>, hypot: (real, real) -> real): (dots: seq<seq<Dot>>)
    ensures |dots| == |path|
  {
    seq(|path|, i requires 0 <= i < |path| =>
      var a := path[i];
      var b := path[Next(path, i)];
      SegmentDots(a, b, MainDotCount(hypot(a.left - b.left, a.top - b.top))))
  }

  /** `createRoomDotsForPaths`: one row per room path, in room order. */
  function RoomDots(rooms: seq<Room>, hypot: (real, real) -> real): (dots: seq<seq<RoomDot>>)
    ensures |dots| == |rooms|
  {
    seq(|rooms|, ri requires 0 <= ri < |rooms| =>
      var rp := rooms[ri];
      RoomSegmentDots(rp.start, rp.end,
        RoomDotCount(hypot(rp.end.left - rp.start.left, rp.end.top - rp.start.top))))
  }

  /** A row of dots from `a` to `b`: first at `a` (t = 0), last at `b` (t = 1), parameters strictly increasing. */
  lemma SegmentDotsSpan(a: Point, b: Point, count: nat)
    requires count >= 2
    ensures var row := SegmentDots(a, b, count);
      row[0].Pos() == a && row[0].t == 0.0 &&
      row[count - 1].Pos() == b && row[count - 1].t == 1.0 &&
      (forall j, k :: 0 <= j < k < count ==> row[j].t < row[k].t) &&
      (forall k :: 0 <= k < count ==>
         (0.0 <= row[k].t <= 1.0 && row[k].t == DotT(k, count) &&
          row[k].Pos() == Lerp(a, b, row[k].t) && !row[k].blocked && !row[k].trail))
  {
    DotTSpan(count);
  }

  /** The room-dot counterpart of `SegmentDotsSpan`. */
  lemma RoomSegmentDotsSpan(a: Point, b: Point, count: nat)
    requires count >= 2
    ensures var row := RoomSegmentDots(a, b, count);
      row[0].Pos() == a && row[0].t == 0.0 &&
      row[count - 1].Pos() == b && row[count - 1].t == 1.0 &&
      (forall j, k :: 0 <= j < k < count ==> row[j].t < row[k].t) &&
      (forall k :: 0 <= k < count ==>
         (0.0 <= row[k].t <= 1.0 && row[k].t == DotT(k, count) &&
          row[k].Pos() == Lerp(a, b, row[k].t) && !row[k].trail))
  {
    DotTSpan(count);
  }

  /**
   * A freshly built main row holds between 2 and 26 dots and spans its
   * segment from vertex `i` to the next vertex.
   */
  lemma MainDotsSpanSegments(path: seq<Point>, hypot: (real, real) -> real, i: nat)
    requires i < |path|
    ensures var row := MainDots(path, hypot)[i];
      2 <= |row| <= MAX_LABELS &&
      row == SegmentDots(path[i], path[Next(path, i)], |row|) &&
      row[0].Pos() == path[i] && row[|row| - 1].Pos() == path[Next(path, i)]
  {
    var a, b := path[i], path[Next(path, i)];
    var count := MainDotCount(hypot(a.left - b.left, a.top - b.top));
    assert MainDots(path, hypot)[i] == SegmentDots(a, b, count);
    SegmentDotsSpan(a, b, count);
  }

  /** A freshly built room row holds between 2 and 40 dots and spans its room from start to end. */
  lemma RoomDotsSpanRooms(rooms: seq<Room>, hypot: (real, real) -> real, ri: nat)
    requires ri < |rooms|
    ensures var row := RoomDots(rooms, hypot)[ri];
      2 <= |row| <= MAX_ROOM_DOTS &&
      row == RoomSegmentDots(rooms[ri].start, rooms[ri].end, |row|) &&
      row[0].Pos() == rooms[ri].start && row[|row| - 1].Pos() == rooms[ri].end
  {
    var rp := rooms[ri];
    var count := RoomDotCount(hypot(rp.end.left - rp.start.left, rp.end.top - rp.start.top));
    assert RoomDots(rooms, hypot)[ri] == RoomSegmentDots(rp.start, rp.end, count);
    RoomSegmentDotsSpan(rp.start, rp.end, count);
  }
}
