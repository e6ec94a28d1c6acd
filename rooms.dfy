/**
 * Room paths: each configured room contributes one straight path, read off
 * the page, that the mover walks from `start` to `end` before joining the
 * main route, plus the area rectangle that decides whether a point is in
 * that room.
 */
module Rooms {
  import opened Wrappers
  import opened Geometry

  datatype Direction = TopToBottom | BottomToTop | LeftToRight | RightToLeft | Unrecognised

  /** An entry of `roomConfig`: the selectors of the path and area elements and the walking direction. */
  datatype RoomConfig = RoomConfig(id: string, selector: string, area: string, direction: Direction)

  /** An entry of `roomPaths`. */
  datatype Room = Room(id: string, direction: Direction, start: Point, end: Point, length: real, area: Rect)

  /** The room table of dump.js and of the working2, working3 and working4 checkpoints. */
  const RoomTable: seq<RoomConfig> := [
    RoomConfig("room1pathA", ".room1pathA", ".arearoom1A", TopToBottom),
    RoomConfig("room1pathB", ".room1pathB", ".arearoom1B", LeftToRight),
    RoomConfig("room2pathA", ".room2pathA", ".arearoom2A", BottomToTop),
    RoomConfig("room3pathA", ".room3pathA", ".arearoom3A", LeftToRight),
    RoomConfig("room4pathA", ".room4pathA", ".arearoom4A", RightToLeft),
    RoomConfig("room5pathA", ".room5pathA", ".arearoom5A", RightToLeft),
    RoomConfig("roomoutpathA", ".roomoutpathA", ".arearoomoutA", TopToBottom),
    RoomConfig("roomoutpathA", ".roomoutpathA", ".arearoomoutB", TopToBottom)
  ]

  /** The room table of the working1 checkpoint: the two exit rooms are absent. */
  const RoomTableW1: seq<RoomConfig> := RoomTable[..6]

  /**
   * The page as the code sees it: the container-relative rectangle of the
   * element a selector finds, or `None` when `querySelector` finds nothing.
   */
  type Page = string -> Option<Rect>

  /** Start and end of a room path, from its rectangle and direction (the `switch` on `cfg.direction`). */
  function Endpoints(dir: Direction, r: Rect): (Point, Point)
  {
    var right := r.left + r.width;
    var bottom := r.top + r.height;
    match dir
    case TopToBottom => (Point(r.left + r.width / 2.0, r.top), Point(r.left + r.width / 2.0, bottom))
    case BottomToTop => (Point(r.left + r.width / 2.0, bottom), Point(r.left + r.width / 2.0, r.top))
    case LeftToRight => (Point(r.left, r.top + r.height / 2.0), Point(right, r.top + r.height / 2.0))
    case RightToLeft => (Point(right, r.top + r.height / 2.0), Point(r.left, r.top + r.height / 2.0))
    case Unrecognised => (Point(r.left, r.top), Point(right, r.top))
  }

  function MakeRoom(cfg: RoomConfig, r: Rect, area: Rect, hypot: (real, real) -> real): Room
  {
    var (start, end) := Endpoints(cfg.direction, r);
    Room(cfg.id, cfg.direction, start, end, hypot(end.left - start.left, end.top - start.top), area)
  }

  /** `buildRoomPaths`: one room per table entry whose path and area elements both exist, in table order. */
  function RoomPaths(table: seq<RoomConfig>, page: Page, hypot: (real, real) -> real): (rooms: seq<Room>)
    ensures |rooms| <= |table|
  {
    if table == [] then []
    else
      var cfg := table[0];
      var rest := RoomPaths(table[1..], page, hypot);
      match (page(cfg.selector), page(cfg.area))
      case (Some(r), Some(a)) => [MakeRoom(cfg, r, a, hypot)] + rest
      case _ => rest
  }

  /**
   * Each room path runs across its rectangle between the midpoints of two
   * opposite sides, in the configured direction: vertical rooms keep `left`
   * fixed, horizontal ones keep `top` fixed, both ends lie in the
   * rectangle, and with the real `Math.hypot` the length is the height or
   * width it spans.
   */
  lemma RoomPathSpansRect(cfg: RoomConfig, r: Rect, area: Rect, hypot: (real, real) -> real)
    requires r.width >= 0.0 && r.height >= 0.0
    requires IsHypot(hypot)
    ensures var room := MakeRoom(cfg, r, area, hypot);
      Inside(r, room.start) && Inside(r, room.end) && room.area == area && room.id == cfg.id &&
      (cfg.direction == TopToBottom ==>
         room.start.left == room.end.left == r.left + r.width / 2.0 && room.end.top - room.start.top == room.length == r.height) &&
      (cfg.direction == BottomToTop ==>
         room.start.left == room.end.left == r.left + r.width / 2.0 && room.start.top - room.end.top == room.length == r.height) &&
      (cfg.direction == LeftToRight ==>
         room.start.top == room.end.top == r.top + r.height / 2.0 && room.end.left - room.start.left == room.length == r.width) &&
      (cfg.direction == RightToLeft ==>
         room.start.top == room.end.top == r.top + r.height / 2.0 && room.start.left - room.end.left == room.length == r.width)
  {
    var room := MakeRoom(cfg, r, area, hypot);
    HypotOnAxis(hypot, r.height);
    HypotOnAxis(hypot, -r.height);
    HypotOnAxis(hypot, r.width);
    HypotOnAxis(hypot, -r.width);
    assert r.top + r.height - r.top == r.height;
    assert r.left + r.width - r.left == r.width;
  }

  /** Both elements of the entry are on the page. */
  predicate Present(cfg: RoomConfig, page: Page)
  {
    page(cfg.selector).Some? && page(cfg.area).Some?
  }

  /** `room` is what `buildRoomPaths` makes of entry `cfg`. */
  predicate BuiltFrom(room: Room, cfg: RoomConfig, page: Page, hypot: (real, real) -> real)
  {
    Present(cfg, page) && room == MakeRoom(cfg, page(cfg.selector).value, page(cfg.area).value, hypot)
  }

  /** Room `j` comes from a present table entry at or after position `j`. */
  lemma {:induction false} RoomComesFromTable(table: seq<RoomConfig>, page: Page, hypot: (real, real) -> real, j: nat)
    requires j < |RoomPaths(table, page, hypot)|
    ensures exists i :: j <= i < |table| && BuiltFrom(RoomPaths(table, page, hypot)[j], table[i], page, hypot)
  {
    var rest := RoomPaths(table[1..], page, hypot);
    var rooms := RoomPaths(table, page, hypot);
    if Present(table[0], page) {
      assert rooms == [MakeRoom(table[0], page(table[0].selector).value, page(table[0].area).value, hypot)] + rest;
      if j == 0 {
        assert BuiltFrom(rooms[0], table[0], page, hypot);
      } else {
        RoomComesFromTable(table[1..], page, hypot, j - 1);
        var i :| j - 1 <= i < |table[1..]| && BuiltFrom(rest[j - 1], table[1..][i], page, hypot);
        assert BuiltFrom(rooms[j], table[i + 1], page, hypot);
      }
    } else {
      assert rooms == rest;
      RoomComesFromTable(table[1..], page, hypot, j);
      var i :| j <= i < |table[1..]| && BuiltFrom(rest[j], table[1..][i], page, hypot);
      assert BuiltFrom(rooms[j], table[i + 1], page, hypot);
    }
  }

  /** When every entry is present the rooms line up with the table one for one. */
  lemma {:induction false} RoomPathsMatchFullTable(table: seq<RoomConfig>, page: Page, hypot: (real, real) -> real)
    requires forall i :: 0 <= i < |table| ==> Present(table[i], page)
    ensures var rooms := RoomPaths(table, page, hypot);
      |rooms| == |table| && forall i :: 0 <= i < |table| ==> BuiltFrom(rooms[i], table[i], page, hypot)
  {
    if table != [] {
      var rest := RoomPaths(table[1..], page, hypot);
      var rooms := RoomPaths(table, page, hypot);
      assert forall i :: 0 <= i < |table[1..]| ==> Present(table[1..][i], page) by {
        forall i | 0 <= i < |table[1..]| ensures Present(table[1..][i], page) {
          assert table[1..][i] == table[i + 1];
        }
      }
      RoomPathsMatchFullTable(table[1..], page, hypot);
      assert Present(table[0], page);
      assert rooms == [MakeRoom(table[0], page(table[0].selector).value, page(table[0].area).value, hypot)] + rest;
      forall i | 0 <= i < |table| ensures BuiltFrom(rooms[i], table[i], page, hypot) {
        if i > 0 {
          assert BuiltFrom(rest[i - 1], table[1..][i - 1], page, hypot);
        }
      }
    }
  }

  /** `for` loop over the rooms: the first one whose area contains `p`. */
  function FirstContaining(rooms: seq<Room>, p: Point): (r: Option<nat>)
    ensures r.Some? ==> r.value < |rooms| && Inside(rooms[r.value].area, p) &&
                        forall i :: 0 <= i < r.value ==> !Inside(rooms[i].area, p)
    ensures r.None? ==> forall i :: 0 <= i < |rooms| ==> !Inside(rooms[i].area, p)
  {
    if rooms == [] then None
    else if Inside(rooms[0].area, p) then Some(0)
    else match FirstContaining(rooms[1..], p)
      case None => None
      case Some(i) => Some(i + 1)
  }

  /** The placement loop over `roomPaths`, as the code runs it. */
  method FindContainingRoom(rooms: seq<Room>, p: Point) returns (r: Option<nat>)
    ensures r == FirstContaining(rooms, p)
  {
    var i := 0;
    while i < |rooms|
      invariant 0 <= i <= |rooms|
      invariant forall j :: 0 <= j < i ==> !Inside(rooms[j].area, p)
    {
      if Inside(rooms[i].area, p) {
        FirstContainingIsFirst(rooms, p, i);
        return Some(i);
      }
      i := i + 1;
    }
    FirstContainingIsFirst(rooms, p, |rooms|);
    return None;
  }

  lemma FirstContainingIsFirst(rooms: seq<Room>, p: Point, i: nat)
    requires i <= |rooms|
    requires forall j :: 0 <= j < i ==> !Inside(rooms[j].area, p)
    requires i < |rooms| ==> Inside(rooms[i].area, p)
    ensures FirstContaining(rooms, p) == if i < |rooms| then Some(i) else None
  {
    var r := FirstContaining(rooms, p);
    if r.Some? {
      assert r.value >= i;
    }
  }
}
