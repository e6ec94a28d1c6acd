/**
 * The engine as the page runs it: its module-level variables are the
 * fields of one `Engine` object, and every handler and animation frame is
 * a method that updates them in place. Each method is proved to leave the
 * object in the state the corresponding `Motion` function computes, so
 * everything proved about those functions holds of the object.
 */
module Simulation {
  import opened Wrappers
  import opened Geometry
  import opened Route
  import opened Rooms
  import opened Waypoints
  import opened Trail
  import opened Blocking
  import opened Legs
  import opened Replay
  import opened Motion
  import opened DotLoops

  // ---------------------------------------------------------------------
  // Scans used by the frames
  // ---------------------------------------------------------------------

  /** `buildRoomPaths`: walks the room table in order, keeping the entries whose elements exist. */
  method BuildRoomPaths(table: seq<RoomConfig>, page: Page, hypot: (real, real) -> real) returns (rooms: seq<Room>)
    ensures rooms == RoomPaths(table, page, hypot)
  {
    rooms := [];
    var i := 0;
    while i < |table|
      invariant 0 <= i <= |table|
      invariant rooms + RoomPaths(table[i..], page, hypot) == RoomPaths(table, page, hypot)
    {
      var cfg := table[i];
      assert table[i..][0] == cfg && table[i..][1..] == table[i + 1..];
      var r, a := page(cfg.selector), page(cfg.area);
      if r.Some? && a.Some? {
        rooms := rooms + [MakeRoom(cfg, r.value, a.value, hypot)];
      }
      i := i + 1;
    }
    assert table[|table|..] == [];
  }

  /** The finish test of the main frame: whether some finish marker lies within 12 of `p`. */
  method ReachedFinish(finishes: seq<Point>, p: Point) returns (reached: bool)
    ensures reached == NearFinish(finishes, p)
  {
    reached := false;
    var i := 0;
    while i < |finishes|
      invariant 0 <= i <= |finishes|
      invariant reached <==> exists j :: 0 <= j < i && Dist2(p, finishes[j]) < FINISH_RADIUS2
    {
      if Dist2(p, finishes[i]) < FINISH_RADIUS2 {
        reached := true;
      }
      i := i + 1;
    }
  }

  /**
   * The landing dot: the first dot of the row whose parameter is closest
   * to `r` (the code starts from an infinite best distance, so its first
   * pass always takes dot 0).
   */
  method ClosestDot(row: seq<Dot>, r: real) returns (best: nat)
    requires |row| > 0
    ensures best == ClosestT(row, r)
  {
    best := 0;
    var bestD := Abs(row[0].t - r);
    var i := 1;
    while i < |row|
      invariant 1 <= i <= |row|
      invariant best < i && best == ClosestT(row[..i], r) && bestD == Abs(row[best].t - r)
    {
      assert row[..i + 1][..i] == row[..i];
      var dd := Abs(row[i].t - r);
      if dd < bestD {
        best := i;
        bestD := dd;
      }
      i := i + 1;
    }
    assert row[..|row|] == row;
  }

  /** The landing dot lit: the dot of segment `step` whose parameter is closest to `ratio`. */
  method LightLandingDot(dots: Grid, step: int, ratio: real) returns (r: Grid)
    ensures r == LightClosest(dots, step, ratio)
  {
    r := dots;
    if 0 <= step < |dots| && |dots[step]| > 0 {
      var k := ClosestDot(dots[step], ratio);
      r := dots[step := dots[step][k := SetTrail(dots[step][k])]];
    }
  }

  /** What a snap scan has found so far, given what the rest of the scan finds. */
  function Shifted(rest: Option<nat>, i: nat, found: Option<nat>): Option<nat>
  {
    if rest.Some? then Some(rest.value + i) else found
  }

  /** One step of the snap scan: the first distance, then the rest from the updated best. */
  lemma SnapIndexStep(ds: seq<real>, best: Option<real>)
    requires ds != []
    ensures SnapIndex(ds, best) ==
      Shifted(SnapIndex(ds[1..], if best.None? || ds[0] < best.value then Some(ds[0]) else best), 1,
              if best.None? || ds[0] < best.value then Some(0) else None)
  {
  }

  /**
   * The first checkpoint's finish scan: each finish strictly closer than
   * the best distance so far becomes the snap target and the new best.
   */
  method SnapToFinish(finishes: seq<Point>, p: Point, best0: Option<real>) returns (snap: Option<nat>)
    ensures snap == SnapIndex(FinishDists(finishes, p), best0)
  {
    ghost var ds := FinishDists(finishes, p);
    snap := None;
    var best := best0;
    var i := 0;
    while i < |finishes|
      invariant 0 <= i <= |finishes| == |ds|
      invariant SnapIndex(ds, best0) == Shifted(SnapIndex(ds[i..], best), i, snap)
    {
      var d := Dist2(p, finishes[i]);
      var closer := best.None? || d < best.value;
      var best', snap' := if closer then Some(d) else best, if closer then Some(i) else snap;
      assert ds[i..][0] == d && ds[i..][1..] == ds[i + 1..];
      SnapIndexStep(ds[i..], best);
      ShiftedTwice(SnapIndex(ds[i + 1..], best'), if closer then Some(0) else None, i, snap);
      snap, best, i := snap', best', i + 1;
    }
    assert ds[|finishes|..] == [];
  }

  /** Two scan steps composed. */
  lemma ShiftedTwice(x: Option<nat>, here: Option<nat>, i: nat, snap: Option<nat>)
    ensures Shifted(Shifted(x, 1, here), i, snap) == Shifted(x, i + 1, Shifted(here, i, snap))
  {
  }

  // ---------------------------------------------------------------------
  // The engine
  // ---------------------------------------------------------------------

  /**
   * The page's module-level variables, grouped as `Motion.World` groups
   * them: the mover's course (`currentMode`, `step`, `ratioAlongSegment`,
   * `moveForward`, `roomIndex`, `roomRatio`, `transitionSegments`,
   * `transitionIndex` and the mover's centre), the recorder and the
   * follower are each one field, updated in place part by part.
   */
  class Engine {
    /** The version, route, finishes, room table and `Math.hypot` the engine runs with. */
    const env: Env

    var moving: bool
    /** Animation frames requested and not yet run. */
    var frames: nat
    var course: Course
    /** `roomPaths` */
    var rooms: seq<Room>
    /** `dotsBySegment` */
    var dots: Grid
    /** `roomDotsByIndex` */
    var roomDots: RoomGrid
    /** `hazardDots` */
    var hazards: set<DotId>
    /** `recording`, `recordedTrail`, `trailComplete`, `playbackTrailPoints` */
    var rec: Recorder
    /** `followActive`, the pending replay frame, `playbackIdx` and the follower. */
    var follow: Follow

    /** The fields as one `Motion.World`. */
    function State(): World
      reads this
    {
      World(moving, frames, course, rooms, dots, roomDots, hazards, rec, follow)
    }

    /** The route position and the legs' targets are on the route. */
    predicate Valid()
      reads this
    {
      Motion.Valid(env, State())
    }

    /** The page has loaded: rooms and dots are built and the mover waits at the first vertex. */
    constructor (e: Env, page: Page)
      requires ValidEnv(e)
      ensures env == e && State() == Init(e, page) && Valid()
    {
      var rs := BuildRoomPaths(e.table, page, e.hypot);
      var ds := CreateDotsForAllSegments(e.path, e.hypot);
      var rds: RoomGrid := [];
      if e.version == Dump {
        rds := CreateRoomDotsForPaths(rs, e.hypot);
      }
      env := e;
      moving := false;
      frames := 0;
      course := Course(MainMode, 0, 0.0, true, -1, 0.0, [], 0, e.path[0]);
      rooms := rs;
      dots := ds;
      roomDots := rds;
      hazards := {};
      rec := Recorder(false, [], false, []);
      follow := Follow(false, false, 0, None);
    }

    // -------------------------------------------------------------------
    // Main frame
    // -------------------------------------------------------------------

    /** `animateMainStep`: the proposed ratio, one speed's worth along the neighbour segment in the direction of travel. */
    method AnimateMainStep()
      requires Valid()
      modifies this
      ensures Valid() && State() == MainStep(env, old(State()))
    {
      var c := course;
      var n := |env.path|;
      var start := env.path[c.step];
      var endIdx := if c.forward then JsRem(c.step + 1, n) else JsRem(c.step - 1 + n, n);
      var end := env.path[endIdx];
      var segLen := OrOne(env.hypot(end.left - start.left, end.top - start.top));
      var deltaRatio := (SPEED / segLen) * (if c.forward then 1.0 else -1.0);
      var proposed := c.ratio + deltaRatio;
      assert proposed == Proposed(env, c);
      AdvanceMain(proposed);
    }

    /**
     * The rest of the main frame: the trail sweep, the finish test, the
     * block test, and the committed move.
     */
    method AdvanceMain(proposed: real)
      requires Valid()
      modifies this
      ensures Valid() && State() == MainAdvance(env, old(State()), proposed)
    {
      var c := course;
      var swept := dots;
      if SweepsTrail(env.version) {
        swept := HandleTrailCrossings(dots, |env.path|, c.step, c.ratio, proposed);
      }
      var reached := ReachedFinish(env.finishes, c.pos);
      if reached && env.version == Dump {
        var pb := BuildPlaybackTrail(rec.recorded, swept, roomDots);
        moving, dots, rec := false, swept, rec.(recording := false, trailComplete := true, playback := pb);
        return;
      }
      moving, dots := moving && !reached, swept;
      MoveOn(proposed);
    }

    /** The block test and the move on the swept dots. */
    method MoveOn(proposed: real)
      requires Valid()
      modifies this
      ensures Valid() && State() == MainMove(env, old(State()), proposed)
    {
      var c, hit := MoveOrTurn(course, dots, proposed);
      frames, course, rec := frames + 1, c, if hit then rec else RecordAt(env, rec, c.pos);
    }

    /** The course after the block test: turned round when a blocked dot of `swept` lies ahead (`hit`), otherwise moved. */
    method MoveOrTurn(c: Course, swept: Grid, proposed: real) returns (r: Course, hit: bool)
      requires OnRoute(env, c)
      ensures hit == BlockedDotBetween(swept, c.step, c.ratio, proposed).Some?
      ensures r == MainCourse(env, c, hit, proposed)
    {
      var blocked := FindBlockedDotBetween(swept, c.step, c.ratio, proposed);
      hit := blocked.Some?;
      if hit {
        r := c.(forward := !c.forward);
      } else {
        r := CommitMove(c, proposed);
      }
    }

    /** The free move: the proposed ratio committed, across to the neighbour segment when it leaves (0,1). */
    method CommitMove(c: Course, proposed: real) returns (r: Course)
      requires OnRoute(env, c)
      ensures r == MainCourse(env, c, false, proposed)
    {
      var n := |env.path|;
      var s, t := c.step, proposed;
      if t >= 1.0 || t <= 0.0 {
        if c.forward {
          t := t - 1.0;
          s := JsRem(s + 1, n);
        } else {
          t := t + 1.0;
          s := JsRem(s - 1 + n, n);
        }
        t := Max(0.0, Min(1.0, t));
      }
      r := c.(step := s, ratio := t, pos := Lerp(env.path[s], env.path[Next(env.path, s)], t));
    }

    // -------------------------------------------------------------------
    // Room frame
    // -------------------------------------------------------------------

    /** `animateRoomStep` of the reference engine and checkpoints 2 to 4. */
    method AnimateRoomStep()
      requires Valid() && env.version != W1
      modifies this
      ensures Valid() && State() == RoomStep(env, old(State()))
    {
      var c := course;
      if !(0 <= c.roomIndex < |rooms|) {
        course, frames := c.(mode := MainMode), frames + 1;
        return;
      }
      var segLen := OrOne(rooms[c.roomIndex].length);
      AdvanceInRoom(c.roomRatio + SPEED / segLen);
    }

    /** The rest of the room frame: the room dots swept lit, then the walk on, or the exit at the room's end. */
    method AdvanceInRoom(rr: real)
      requires Valid() && 0 <= course.roomIndex < |rooms|
      modifies this
      ensures Valid() && State() == RoomAdvance(env, old(State()), rr)
    {
      if env.version == Dump {
        roomDots := MarkRoomSweep(roomDots, course.roomIndex, course.roomRatio, rr);
      }
      if rr >= 1.0 {
        ExitRoom(rr);
      } else {
        WalkInRoom(rr);
      }
    }

    /** At the room's end: onto the route, or onto legs towards it. */
    method ExitRoom(rr: real)
      requires Valid() && 0 <= course.roomIndex < |rooms|
      modifies this
      ensures Valid() && State() == LeaveRoom(env, old(State()), rr)
    {
      var c := JoinNearest(course.(roomRatio := rr), rooms[course.roomIndex].end);
      course, frames, rec := c, frames + 1, if c.mode == MainMode then RecordAt(env, rec, c.pos) else rec;
    }

    /** Inside the room: the mover at ratio `rr`, recorded, and the main dots near it lit. */
    method WalkInRoom(rr: real)
      requires Valid() && 0 <= course.roomIndex < |rooms|
      modifies this
      ensures Valid() && State() == WalkRoom(env, old(State()), rr)
    {
      var rp := rooms[course.roomIndex];
      var c := course.(roomRatio := rr, pos := Lerp(rp.start, rp.end, rr));
      var d := dots;
      if env.version == Dump {
        d := MarkNearbyMainDots(dots, c.pos, MARK_RADIUS);
      }
      course, frames, rec, dots := c, frames + 1, RecordAt(env, rec, c.pos), d;
    }

    /**
     * The room exit from `p`: legs towards the route's nearest point, or,
     * when none is needed, the mover stands on that point at once.
     */
    method JoinNearest(c: Course, p: Point) returns (r: Course)
      requires OnRoute(env, c)
      ensures r == JoinCourse(env, c, p)
    {
      var nearest := FindNearestMainSegmentAndT(env.path, p);
      NearestSegmentOnRoute(env.path, p);
      var legs := CreateLegs(p, nearest.proj, Some(Target(nearest.segIndex, nearest.t)), env.hypot);
      r := c.(legs := legs, legIndex := 0, roomIndex := -1);
      if |legs| > 0 {
        r := r.(mode := TransitionMode);
      } else {
        var s := nearest.segIndex;
        r := r.(mode := MainMode, step := s, ratio := nearest.t,
                pos := Lerp(env.path[s], env.path[Next(env.path, s)], nearest.t));
      }
    }

    /** `animateRoomStep` of the first checkpoint: no marks, no recording, and no frame at the room's end. */
    method AnimateRoomStepW1()
      requires Valid()
      modifies this
      ensures Valid() && State() == RoomStepW1(env, old(State()))
    {
      var c := course;
      if !(0 <= c.roomIndex < |rooms|) {
        course := c.(mode := MainMode);
        return;
      }
      var rp := rooms[c.roomIndex];
      var rr := c.roomRatio + SPEED / OrOne(rp.length);
      if rr >= 1.0 {
        var nearest := FindNearestMainSegmentAndT(env.path, rp.end);
        NearestSegmentOnRoute(env.path, rp.end);
        var s := nearest.segIndex;
        course := c.(roomRatio := rr, step := s, ratio := nearest.t, mode := MainMode, roomIndex := -1,
                     pos := Lerp(env.path[s], env.path[Next(env.path, s)], nearest.t), forward := true);
        return;
      }
      course, frames := c.(roomRatio := rr, pos := Lerp(rp.start, rp.end, rr)), frames + 1;
    }

    // -------------------------------------------------------------------
    // Transition frame
    // -------------------------------------------------------------------

    /** `animateTransitionStep` */
    method AnimateTransitionStep()
      requires Valid()
      modifies this
      ensures Valid() && State() == TransitionStep(env, old(State()))
    {
      var c := course;
      if c.legIndex < 0 || c.legIndex >= |c.legs| {
        course, frames := c.(mode := MainMode), frames + 1;
        return;
      }
      var leg := c.legs[c.legIndex];
      AdvanceLeg(leg.ratio + SPEED / OrOne(leg.length));
    }

    /** The reference engine's marks at the mover's new point: recorded, and main and room dots within 8 lit. */
    method Trace()
      modifies this
      ensures State() == Traced(env, old(State()))
    {
      if env.version == Dump {
        var p := course.pos;
        var d := MarkNearbyMainDots(dots, p, MARK_RADIUS);
        var rd := MarkNearbyRoomDots(roomDots, rooms, p, MARK_RADIUS);
        rec, dots, roomDots := RecordAt(env, rec, p), d, rd;
      }
    }

    /** The current leg's ratio set to `nr`, then the walk along it, to its end, or onto the route. */
    method AdvanceLeg(nr: real)
      requires Valid() && 0 <= course.legIndex < |course.legs|
      modifies this
      ensures Valid() && State() == TransitionAdvance(env, old(State()), nr)
    {
      var c := course;
      var leg := c.legs[c.legIndex];
      WalkingKeepsTargets(env, c.legs, c.legIndex, nr);
      c := c.(legs := c.legs[c.legIndex := leg.(ratio := nr)]);
      if nr >= 1.0 {
        c := c.(pos := leg.end, legIndex := c.legIndex + 1);
      } else {
        c := c.(pos := Lerp(leg.start, leg.end, nr));
      }
      course := c;
      Trace();
      if nr >= 1.0 && c.legIndex >= |c.legs| {
        LandOnRoute(leg.meta);
      } else {
        frames := frames + 1;
      }
    }

    /** The end of the last leg: onto the leg's target, recorded, and the landing dot lit. */
    method LandOnRoute(meta: Option<Target>)
      requires Valid() && ValidTarget(env, meta)
      modifies this
      ensures Valid() && State() == Land(env, old(State()), meta)
    {
      var c := course;
      var target := if meta.Some? then meta.value else Target(c.step, c.ratio);
      var s := target.step;
      c := c.(step := s, ratio := target.t, mode := MainMode,
              pos := Lerp(env.path[s], env.path[Next(env.path, s)], target.t));
      var d := dots;
      if env.version == Dump {
        d := LightLandingDot(dots, s, target.t);
      }
      course, rec, dots, frames := c, RecordAt(env, rec, c.pos), d, frames + 1;
    }

    // -------------------------------------------------------------------
    // Frames
    // -------------------------------------------------------------------

    /** `animateStep` */
    method AnimateStep()
      requires Valid()
      modifies this
      ensures Valid() && State() == Dispatch(env, old(State()))
    {
      if !moving {
        return;
      }
      if env.version == W1 {
        if course.mode == RoomMode {
          AnimateRoomStepW1();
        } else {
          AnimateMainStep();
        }
      } else if course.mode == RoomMode {
        AnimateRoomStep();
      } else if course.mode == TransitionMode {
        AnimateTransitionStep();
      } else {
        AnimateMainStep();
      }
    }

    /** One display frame: a requested frame runs `animateStep`. */
    method Frame()
      requires Valid()
      modifies this
      ensures Valid() && State() == Tick(env, old(State()))
    {
      if frames > 0 {
        ghost var w := State();
        frames := frames - 1;
        assert State() == w.(frames := w.frames - 1);
        AnimateStep();
      }
    }

    // -------------------------------------------------------------------
    // Placement and the buttons
    // -------------------------------------------------------------------

    /** `placeRatAtNearest` of the reference engine and checkpoints 2 to 4. */
    method PlaceRatAtNearest()
      requires Valid()
      modifies this
      ensures Valid() && State() == Place(env, old(State()))
    {
      var c := course;
      var room := FindContainingRoom(rooms, c.pos);
      if room.Some? {
        var rp := rooms[room.value];
        var proj := Project(rp.start, rp.end, c.pos);
        course, roomDots := c.(roomIndex := room.value, roomRatio := proj.t, mode := RoomMode, pos := proj.Foot()),
                            if env.version == Dump then PlacementRoomMark(roomDots, rooms, proj) else roomDots;
        return;
      }
      c := PlaceNearRoute(c);
      course := c;
    }

    /** Placement outside the rooms: snapped onto the route's nearest point when within 1 of it, otherwise legs towards it. */
    method PlaceNearRoute(c: Course) returns (r: Course)
      requires OnRoute(env, c)
      ensures r == PlaceOnRoute(env, c)
    {
      var p := c.pos;
      var nearest := FindNearestMainSegmentAndT(env.path, p);
      NearestSegmentOnRoute(env.path, p);
      if Dist2(nearest.proj, p) < 1.0 {
        var s := nearest.segIndex;
        r := c.(mode := MainMode, roomIndex := -1, step := s, ratio := nearest.t,
                pos := Lerp(env.path[s], env.path[Next(env.path, s)], nearest.t));
        return;
      }
      var m := Some(Target(nearest.segIndex, nearest.t));
      var legs := CreateLegs(p, nearest.proj, m, env.hypot);
      r := c.(legs := legs, legIndex := 0, mode := TransitionMode);
    }

    /** `placeRatAtNearest` of the first checkpoint, with its finish-marker snapping. */
    method PlaceRatAtNearestW1()
      requires Valid()
      modifies this
      ensures Valid() && State() == PlaceW1(env, old(State()))
    {
      var c := PlaceFirstCheckpoint(course, rooms);
      course := c;
    }

    /** The first checkpoint's placement of course `c` among `rooms`. */
    method PlaceFirstCheckpoint(c: Course, rooms: seq<Room>) returns (r: Course)
      requires OnRoute(env, c)
      ensures r == PlaceCourseW1(env, c, rooms)
    {
      var p := c.pos;
      var room := FindContainingRoom(rooms, p);
      if room.Some? {
        r := c.(mode := RoomMode, roomIndex := room.value, roomRatio := 0.0, pos := rooms[room.value].start, forward := true);
        return;
      }
      var nearest := FindNearestMainSegmentAndT(env.path, p);
      NearestSegmentOnRoute(env.path, p);
      var snap := SnapToFinish(env.finishes, p, if nearest.found then Some(nearest.d2) else None);
      if snap.Some? {
        r := c.(pos := env.finishes[snap.value]);
        return;
      }
      var s := nearest.segIndex;
      r := c.(mode := MainMode, roomIndex := -1, step := s, ratio := nearest.t,
              pos := Lerp(env.path[s], env.path[Next(env.path, s)], nearest.t));
    }

    /** The start/stop button. */
    method Toggle(page: Page)
      requires Valid()
      modifies this
      ensures Valid() && State() == StartStop(env, old(State()), page)
    {
      if moving {
        moving, rec := false, if env.version == Dump then rec.(recording := false) else rec;
        return;
      }
      Rebuild(page);
      Launch();
    }

    /** Starting: the room paths rebuilt from the page; the reference engine also resets the recorder and rebuilds the dots. */
    method Rebuild(page: Page)
      modifies this
      ensures State() == Rebuilt(env, old(State()), page)
    {
      var rs := BuildRoomPaths(env.table, page, env.hypot);
      var r, rds, ds := rec, roomDots, dots;
      if env.version == Dump {
        r := Recorder(true, [], false, []);
        rds := CreateRoomDotsForPaths(rs, env.hypot);
        if |dots| == 0 {
          ds := CreateDotsForAllSegments(env.path, env.hypot);
        }
      }
      moving, rooms, rec, roomDots, dots := true, rs, r, rds, ds;
    }

    /** Starting, once rebuilt: placement, the segment index normalised, and the first frame requested. */
    method Launch()
      requires Valid()
      modifies this
      ensures Valid() && State() == Motion.Launch(env, old(State()))
    {
      if env.version == W1 {
        PlaceRatAtNearestW1();
      } else {
        PlaceRatAtNearest();
      }
      course, frames := course.(step := NormaliseStep(|env.path|, course.step)), frames + 1;
    }

    /** The hazard reset (`resetHandler`). */
    method ResetHazardDots()
      modifies this
      ensures State() == ResetHazardsOp(old(State()))
    {
      var h := ResetHazardsInPlace(Hazards(dots, hazards));
      dots, hazards := h.dots, h.tracked;
    }

    /** The reset button. */
    method Reset()
      modifies this
      ensures State() == ResetButton(env, old(State()))
    {
      var d := ResetAllBlocksInPlace(dots);
      dots := d;
      if env.version == Dump {
        rec, follow := Recorder(false, [], false, []), follow.(active := false, frame := false, follower := None);
        ResetHazardDots();
      }
    }

    /** `placeHazardAtPoint` */
    method PlaceHazardAt(p: Point, area: Rect)
      requires HasHazards(env.version)
      modifies this
      ensures State() == PlaceHazardOp(env, old(State()), p, area)
    {
      var c := if env.version == Dump then ClampToArea(area, p) else p;
      var h := PlaceHazardAtPoint(Hazards(dots, hazards), env.path, env.hypot, c);
      dots, hazards := h.dots, h.tracked;
    }

    /** A click on main dot `idx` of segment `seg` (`toggleDotBlocked`). */
    method ClickDot(seg: int, idx: int)
      modifies this
      ensures State() == Motion.ClickDot(old(State()), seg, idx)
    {
      if 0 <= seg < |dots| && 0 <= idx < |dots[seg]| {
        dots := dots[seg := dots[seg][idx := dots[seg][idx].(blocked := !dots[seg][idx].blocked)]];
      }
    }

    /** The delayed clearing of the dot the mover ran into. */
    method ClearHit(seg: int, idx: int)
      modifies this
      ensures State() == Motion.ClearHit(old(State()), seg, idx)
    {
      if 0 <= seg < |dots| && 0 <= idx < |dots[seg]| {
        dots := dots[seg := dots[seg][idx := dots[seg][idx].(blocked := false)]];
      }
    }

    /** Dragging the mover to `p`. */
    method DragTo(p: Point)
      modifies this
      ensures State() == Drag(old(State()), p)
    {
      if !moving {
        course := course.(pos := p);
      }
    }

    /** The follow button. */
    method PressFollow()
      modifies this
      ensures State() == FollowButton(old(State()))
    {
      if !rec.trailComplete {
        return;
      }
      if follow.active {
        follow := follow.(active := false, frame := false);
        return;
      }
      if |rec.playback| == 0 {
        return;
      }
      follow := Follow(true, true, 0, Some(rec.playback[0]));
    }

    /** `playbackStep`, with `due` telling whether 100 ms have passed. */
    method PlaybackStep(due: bool)
      modifies this
      ensures State() == PlaybackFrame(old(State()), due)
    {
      var f := follow;
      if !f.frame {
        return;
      }
      if !f.active {
        follow := f.(frame := false);
        return;
      }
      if !due {
        return;
      }
      if f.idx >= |rec.playback| {
        follow := f.(active := false, idx := 0, frame := false);
        return;
      }
      follow := f.(follower := Some(rec.playback[f.idx]), idx := f.idx + 1);
    }
  }
}
