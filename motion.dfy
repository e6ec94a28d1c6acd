/**
 * The per-frame motion state machine. The engine's module-level variables
 * form one `World`; every event handler and every animation frame is a
 * function from `World` to `World`. The reference engine and its four
 * earlier checkpoints differ in small ways, selected by `Version`.
 */
module Motion {
  import opened Wrappers
  import opened Geometry
  import opened Route
  import opened Rooms
  import opened Waypoints
  import opened Trail
  import opened Blocking
  import opened Legs
  import opened Replay

  /** The reference engine and the checkpoints before it, newest first. */
  datatype Version = Dump | W4 | W3 | W2 | W1

  /** `currentMode` */
  datatype Mode = MainMode | RoomMode | TransitionMode

  const SPEED: real := 1.8
  /** A finish counts as reached within 12 px; squared. */
  const FINISH_RADIUS2: real := 144.0
  /** Radius of the proximity marks made while walking rooms and legs. */
  const MARK_RADIUS: real := 8.0

  /** The finish markers of the reference engine and of checkpoints 2 to 4. */
  const Finishes: seq<Point> := [Point(325.0, 570.0), Point(230.0, 70.0)]
  /** The finish markers of the first checkpoint. */
  const FinishesW1: seq<Point> := [Point(325.0, 567.0), Point(230.0, 70.0)]

  /**
   * What the engine reads but never changes: its version, the route, the
   * finish markers, the room table and `Math.hypot`.
   */
  datatype Env = Env(version: Version, path: seq<Point>, finishes: seq<Point>,
                     table: seq<RoomConfig>, hypot: (real, real) -> real)

  predicate ValidEnv(e: Env)
  {
    |e.path| > 0
  }

  /** The environment of each version: the same route, its own finishes and room table. */
  function EnvOf(v: Version, hypot: (real, real) -> real): (e: Env)
    ensures ValidEnv(e) && e.version == v
  {
    Env(v, MainPath, if v == W1 then FinishesW1 else Finishes, if v == W1 then RoomTableW1 else RoomTable, hypot)
  }

  /**
   * Where the mover is and how it goes: the mode, the main segment and
   * ratio with the direction of travel, the room and its ratio, the
   * transition legs and the current one, and the mover's centre.
   */
  datatype Course = Course(mode: Mode, step: int, ratio: real, forward: bool,
                           roomIndex: int, roomRatio: real, legs: seq<Leg>, legIndex: int, pos: Point)

  /** `recording`, `recordedTrail`, `trailComplete`, `playbackTrailPoints` */
  datatype Recorder = Recorder(recording: bool, recorded: seq<Point>, trailComplete: bool, playback: seq<Point>)

  /** `followActive`, the pending replay frame, `playbackIdx` and where the follower stands. */
  datatype Follow = Follow(active: bool, frame: bool, idx: nat, follower: Option<Point>)

  /**
   * The engine's module-level state. `frames` counts the animation frames
   * requested and not yet run.
   */
  datatype World = World(moving: bool, frames: nat, course: Course, rooms: seq<Room>,
                         dots: Grid, roomDots: RoomGrid, hazards: set<DotId>,
                         rec: Recorder, follow: Follow)

  /** A target names a point of the route. */
  predicate ValidTarget(e: Env, m: Option<Target>)
  {
    m.Some? ==> 0 <= m.value.step < |e.path| && 0.0 <= m.value.t <= 1.0
  }

  /** Every leg's target names a point of the route. */
  predicate LegsValid(e: Env, legs: seq<Leg>)
  {
    forall i :: 0 <= i < |legs| ==> ValidTarget(e, legs[i].meta)
  }

  /** The course's main segment and ratio name a point of the route, and so do its legs' targets. */
  predicate OnRoute(e: Env, c: Course)
  {
    ValidEnv(e) && 0 <= c.step < |e.path| && 0.0 <= c.ratio <= 1.0 && LegsValid(e, c.legs)
  }

  /** The invariant every handler and every frame keeps. */
  predicate Valid(e: Env, w: World)
  {
    OnRoute(e, w.course)
  }

  /** Legs built towards a route target carry only that target. */
  lemma LegsToTargetValid(e: Env, from: Point, to: Point, m: Option<Target>)
    requires ValidTarget(e, m)
    ensures LegsValid(e, CreateLegs(from, to, m, e.hypot))
  {
    var legs := CreateLegs(from, to, m, e.hypot);
    forall i | 0 <= i < |legs|
      ensures ValidTarget(e, legs[i].meta)
    {
      if i < |legs| - 1 {
        assert |legs| == 2 && i == 0;
      }
    }
  }

  /** Walking a leg changes its ratio, never its target. */
  lemma WalkingKeepsTargets(e: Env, legs: seq<Leg>, i: nat, nr: real)
    requires LegsValid(e, legs) && i < |legs|
    ensures LegsValid(e, legs[i := legs[i].(ratio := nr)])
  {
  }

  /** The point at `ratio` along main segment `step`. */
  function MainPoint(e: Env, step: int, ratio: real): Point
    requires ValidEnv(e) && 0 <= step < |e.path|
  {
    Lerp(e.path[step], e.path[Next(e.path, step)], ratio)
  }

  /** `recordTrailPoint` at `p`, made only by the reference engine. */
  function RecordAt(e: Env, rec: Recorder, p: Point): (r: Recorder)
    ensures r == rec.(recorded := if e.version == Dump then RecordTrailPoint(rec.recording, rec.recorded, p) else rec.recorded)
  {
    if e.version == Dump then rec.(recorded := RecordTrailPoint(rec.recording, rec.recorded, p)) else rec
  }

  // ---------------------------------------------------------------------
  // Main frame
  // ---------------------------------------------------------------------

  /** The neighbour vertex in the direction of travel (`endIdx`). */
  function EndIndex(n: int, step: int, forward: bool): (r: int)
    requires n > 0 && 0 <= step < n
    ensures 0 <= r < n
    ensures forward ==> r == (step + 1) % n
    ensures !forward ==> r == (step - 1 + n) % n
  {
    if forward then JsRem(step + 1, n) else JsRem(step - 1 + n, n)
  }

  /** The ratio the main frame proposes: one speed's worth along the neighbour segment's length, signed by direction. */
  function Proposed(e: Env, c: Course): real
    requires ValidEnv(e) && 0 <= c.step < |e.path|
  {
    var a := e.path[c.step];
    var b := e.path[EndIndex(|e.path|, c.step, c.forward)];
    var segLen := OrOne(e.hypot(b.left - a.left, b.top - a.top));
    c.ratio + (SPEED / segLen) * (if c.forward then 1.0 else -1.0)
  }

  /** Whether the mover is within 12 of some finish marker. */
  predicate NearFinish(finishes: seq<Point>, p: Point)
  {
    exists i :: 0 <= i < |finishes| && Dist2(p, finishes[i]) < FINISH_RADIUS2
  }

  /**
   * Committing a proposed ratio: inside (0,1) it is taken as is; otherwise
   * the mover passes to the neighbour segment in its direction of travel,
   * the ratio shifts by one and is clamped to [0,1].
   */
  function Commit(n: int, step: int, proposed: real, forward: bool): (r: (int, real))
    requires n > 0 && 0 <= step < n
    ensures 0 <= r.0 < n && 0.0 <= r.1 <= 1.0
    ensures 0.0 < proposed < 1.0 ==> r == (step, proposed)
    ensures !(0.0 < proposed < 1.0) ==>
      r.0 == EndIndex(n, step, forward) &&
      r.1 == Clamp(if forward then proposed - 1.0 else proposed + 1.0, 0.0, 1.0)
  {
    if proposed >= 1.0 || proposed <= 0.0 then
      if forward then (JsRem(step + 1, n), Clamp(proposed - 1.0, 0.0, 1.0))
      else (JsRem(step - 1 + n, n), Clamp(proposed + 1.0, 0.0, 1.0))
    else (step, proposed)
  }

  /** Whether the version's main frame toggles the trail over the swept range. */
  predicate SweepsTrail(v: Version) { v == Dump || v == W4 }

  /** The main dots after the frame's trail sweep towards `proposed`. */
  function SweptDots(e: Env, w: World, proposed: real): Grid
    requires Valid(e, w)
  {
    if SweepsTrail(e.version) then Sweep(w.dots, |e.path|, w.course.step, w.course.ratio, proposed) else w.dots
  }

  /** The blocked dot the main frame runs into on its way to `proposed`, if any. */
  function MainHit(e: Env, w: World, proposed: real): Option<nat>
    requires Valid(e, w)
  {
    BlockedDotBetween(SweptDots(e, w, proposed), w.course.step, w.course.ratio, proposed)
  }

  /** `animateMainStep`: the frame proposes a ratio and hands it to `MainAdvance`. */
  function MainStep(e: Env, w: World): (r: World)
    requires Valid(e, w)
    ensures Valid(e, r)
  {
    MainAdvance(e, w, Proposed(e, w.course))
  }

  /**
   * The main frame's course: turned round on the spot when a blocked dot
   * lies ahead, otherwise at the committed segment and ratio.
   */
  function MainCourse(e: Env, c: Course, hit: bool, proposed: real): (r: Course)
    requires OnRoute(e, c)
    ensures OnRoute(e, r)
  {
    if hit then c.(forward := !c.forward)
    else
      var m := Commit(|e.path|, c.step, proposed, c.forward);
      c.(step := m.0, ratio := m.1, pos := MainPoint(e, m.0, m.1))
  }

  /**
   * The main frame towards a proposed ratio. The reference engine halts at
   * a finish: it stops the run and the recorder, marks the trail complete
   * and builds the replay list, without moving and without asking for
   * another frame. The checkpoints only clear `moving` there and go on with
   * the frame. A blocked dot in the swept range turns the mover round
   * without moving; otherwise the move is committed and (reference engine)
   * recorded.
   */
  function MainAdvance(e: Env, w: World, proposed: real): (r: World)
    requires Valid(e, w)
    ensures Valid(e, r)
  {
    var swept := SweptDots(e, w, proposed);
    var atFinish := NearFinish(e.finishes, w.course.pos);
    if atFinish && e.version == Dump then FinishRun(w, swept)
    else MainMove(e, w.(moving := w.moving && !atFinish, dots := swept), proposed)
  }

  /** The reference engine at a finish: stopped, recorder off, trail complete, replay list built. */
  function FinishRun(w: World, swept: Grid): (r: World)
    ensures r.course == w.course && r.frames == w.frames && !r.moving && !r.rec.recording && r.rec.trailComplete
  {
    w.(moving := false, dots := swept,
       rec := w.rec.(recording := false, trailComplete := true,
                     playback := BuildPlayback(w.rec.recorded, swept, w.roomDots)))
  }

  /** The block test and the move, on the swept dots: turned round, or committed and recorded. */
  function MainMove(e: Env, w: World, proposed: real): (r: World)
    requires Valid(e, w)
    ensures Valid(e, r)
  {
    var hit := BlockedDotBetween(w.dots, w.course.step, w.course.ratio, proposed).Some?;
    var c := MainCourse(e, w.course, hit, proposed);
    w.(frames := w.frames + 1, course := c, rec := if hit then w.rec else RecordAt(e, w.rec, c.pos))
  }

  // ---------------------------------------------------------------------
  // Room frame
  // ---------------------------------------------------------------------

  /**
   * The course after joining the route from `p` at its nearest point: on
   * the route when no leg is needed, otherwise in transition along the
   * legs. Either way the room is left.
   */
  function JoinCourse(e: Env, c: Course, p: Point): (r: Course)
    requires OnRoute(e, c)
    ensures OnRoute(e, r)
  {
    var nearest := NearestSegment(e.path, p);
    NearestSegmentOnRoute(e.path, p);
    var legs := CreateLegs(p, nearest.proj, Some(Target(nearest.segIndex, nearest.t)), e.hypot);
    LegsToTargetValid(e, p, nearest.proj, Some(Target(nearest.segIndex, nearest.t)));
    var c1 := c.(legs := legs, legIndex := 0, roomIndex := -1);
    if legs == [] then
      c1.(mode := MainMode, step := nearest.segIndex, ratio := nearest.t,
          pos := MainPoint(e, nearest.segIndex, nearest.t))
    else c1.(mode := TransitionMode)
  }

  /**
   * `animateRoomStep` (reference engine and checkpoints 2 to 4): the room
   * ratio grows by speed over length; at the end the mover joins the
   * route, through transition legs when it is not already on it. The
   * reference engine also lights the room dots swept over, records the
   * mover, and marks main dots near it.
   */
  function RoomStep(e: Env, w: World): (r: World)
    requires Valid(e, w)
    ensures Valid(e, r)
  {
    var ri := w.course.roomIndex;
    if !(0 <= ri < |w.rooms|) then
      w.(course := w.course.(mode := MainMode), frames := w.frames + 1)
    else
      RoomAdvance(e, w, w.course.roomRatio + SPEED / OrOne(w.rooms[ri].length))
  }

  /** The room frame once the new room ratio `rr` is known: the reference engine lights the room dots swept over. */
  function RoomAdvance(e: Env, w: World, rr: real): (r: World)
    requires Valid(e, w) && 0 <= w.course.roomIndex < |w.rooms|
    ensures Valid(e, r)
  {
    var ri := w.course.roomIndex;
    var w1 := if e.version == Dump then w.(roomDots := MarkRoomRowRange(w.roomDots, ri, w.course.roomRatio, rr)) else w;
    if rr >= 1.0 then LeaveRoom(e, w1, rr) else WalkRoom(e, w1, rr)
  }

  /** The room's end: the mover joins the route from the room's end point, and is recorded if it is already on it. */
  function LeaveRoom(e: Env, w: World, rr: real): (r: World)
    requires Valid(e, w) && 0 <= w.course.roomIndex < |w.rooms|
    ensures Valid(e, r)
    ensures r.course.roomRatio == rr && r.course.roomIndex == -1 && r.frames == w.frames + 1
    ensures r.roomDots == w.roomDots && r.dots == w.dots && r.rooms == w.rooms
  {
    var c := JoinCourse(e, w.course.(roomRatio := rr), w.rooms[w.course.roomIndex].end);
    w.(course := c, frames := w.frames + 1, rec := if c.mode == MainMode then RecordAt(e, w.rec, c.pos) else w.rec)
  }

  /** Inside the room: the mover at ratio `rr` along the room path, recorded, and (reference engine) main dots near it lit. */
  function WalkRoom(e: Env, w: World, rr: real): (r: World)
    requires Valid(e, w) && 0 <= w.course.roomIndex < |w.rooms|
    ensures Valid(e, r)
    ensures r.course == w.course.(roomRatio := rr,
      pos := Lerp(w.rooms[w.course.roomIndex].start, w.rooms[w.course.roomIndex].end, rr))
    ensures r.frames == w.frames + 1 && r.roomDots == w.roomDots && r.rooms == w.rooms
  {
    var rp := w.rooms[w.course.roomIndex];
    var c := w.course.(roomRatio := rr, pos := Lerp(rp.start, rp.end, rr));
    w.(course := c, frames := w.frames + 1, rec := RecordAt(e, w.rec, c.pos),
       dots := if e.version == Dump then MarkNearbyMain(w.dots, c.pos, MARK_RADIUS) else w.dots)
  }

  /**
   * `animateRoomStep` of the first checkpoint: at the end of the room the
   * mover snaps onto the route's nearest projection heading forward, and
   * no further frame is requested; neither is one when the room is missing.
   */
  function RoomStepW1(e: Env, w: World): (r: World)
    requires Valid(e, w)
    ensures Valid(e, r)
  {
    var ri := w.course.roomIndex;
    if !(0 <= ri < |w.rooms|) then
      w.(course := w.course.(mode := MainMode))
    else
      var rp := w.rooms[ri];
      var rr := w.course.roomRatio + SPEED / OrOne(rp.length);
      if rr >= 1.0 then
        var nearest := NearestSegment(e.path, rp.end);
        NearestSegmentOnRoute(e.path, rp.end);
        w.(course := w.course.(roomRatio := rr, step := nearest.segIndex, ratio := nearest.t, mode := MainMode,
                               roomIndex := -1, pos := MainPoint(e, nearest.segIndex, nearest.t), forward := true))
      else
        w.(course := w.course.(roomRatio := rr, pos := Lerp(rp.start, rp.end, rr)), frames := w.frames + 1)
  }

  // ---------------------------------------------------------------------
  // Transition frame
  // ---------------------------------------------------------------------

  /** The index of the first dot of a row whose parameter is closest to `r` (see `ClosestTIsFirstClosest`). */
  function ClosestT(row: seq<Dot>, r: real): (k: nat)
    requires |row| > 0
    ensures k < |row|
  {
    if |row| == 1 then 0
    else
      var k := ClosestT(row[..|row| - 1], r);
      if Abs(row[|row| - 1].t - r) < Abs(row[k].t - r) then |row| - 1 else k
  }

  /** No dot of the row is closer than the chosen one, and every dot before it is strictly farther. */
  lemma {:induction false} ClosestTIsFirstClosest(row: seq<Dot>, r: real)
    requires |row| > 0
    ensures var k := ClosestT(row, r);
      (forall i :: 0 <= i < |row| ==> Abs(row[k].t - r) <= Abs(row[i].t - r)) &&
      (forall i :: 0 <= i < k ==> Abs(row[k].t - r) < Abs(row[i].t - r))
  {
    if |row| > 1 {
      var n := |row| - 1;
      var front := row[..n];
      ClosestTIsFirstClosest(front, r);
      var k0 := ClosestT(front, r);
      var k := ClosestT(row, r);
      var dk := Abs(row[k].t - r);
      assert front[k0] == row[k0];
      assert dk <= Abs(row[k0].t - r) && (k == n || k == k0);
      forall i | 0 <= i < |row|
        ensures dk <= Abs(row[i].t - r)
      {
        if i < n { assert front[i] == row[i]; }
      }
      forall i | 0 <= i < k
        ensures dk < Abs(row[i].t - r)
      {
        assert front[i] == row[i];
      }
    }
  }

  /** Lights the dot of segment `step` whose parameter is closest to the ratio. */
  function LightClosest(dots: Grid, step: int, ratio: real): (r: Grid)
    ensures |r| == |dots| && forall s :: 0 <= s < |dots| ==> |r[s]| == |dots[s]|
    ensures 0 <= step < |dots| && |dots[step]| > 0 ==> r[step][ClosestT(dots[step], ratio)].trail
  {
    if 0 <= step < |dots| && |dots[step]| > 0 then
      var k := ClosestT(dots[step], ratio);
      dots[step := dots[step][k := SetTrail(dots[step][k])]]
    else dots
  }

  /**
   * `animateTransitionStep`: with no current leg the mover returns to the
   * route; otherwise the current leg's ratio grows by speed over length.
   */
  function TransitionStep(e: Env, w: World): (r: World)
    requires Valid(e, w)
    ensures Valid(e, r)
  {
    var c := w.course;
    if !(0 <= c.legIndex < |c.legs|) then
      w.(course := c.(mode := MainMode), frames := w.frames + 1)
    else
      var leg := c.legs[c.legIndex];
      TransitionAdvance(e, w, leg.ratio + SPEED / OrOne(leg.length))
  }

  /**
   * What the reference engine does at each point of a transition: record
   * the mover and light the main and room dots within 8 of it. The
   * checkpoints do neither.
   */
  function Traced(e: Env, w: World): (r: World)
    ensures r.moving == w.moving && r.frames == w.frames && r.course == w.course && r.rooms == w.rooms
    ensures r.hazards == w.hazards && r.follow == w.follow
  {
    if e.version == Dump then
      w.(rec := RecordAt(e, w.rec, w.course.pos),
         dots := MarkNearbyMain(w.dots, w.course.pos, MARK_RADIUS),
         roomDots := MarkNearbyRoom(w.roomDots, w.rooms, w.course.pos, MARK_RADIUS))
    else w
  }

  /**
   * The transition frame once the current leg's new ratio `nr` is known:
   * the leg is walked up to `nr`; at its end the mover stands on it and
   * takes the next leg, and after the last leg it lands on the route.
   */
  function TransitionAdvance(e: Env, w: World, nr: real): (r: World)
    requires Valid(e, w) && 0 <= w.course.legIndex < |w.course.legs|
    ensures Valid(e, r)
  {
    var c := w.course;
    var leg := c.legs[c.legIndex];
    WalkingKeepsTargets(e, c.legs, c.legIndex, nr);
    var c1 := c.(legs := c.legs[c.legIndex := leg.(ratio := nr)]);
    if nr >= 1.0 then
      var w2 := Traced(e, w.(course := c1.(pos := leg.end, legIndex := c.legIndex + 1)));
      if c.legIndex + 1 >= |c.legs| then Land(e, w2, leg.meta)
      else w2.(frames := w2.frames + 1)
    else
      var w2 := Traced(e, w.(course := c1.(pos := Lerp(leg.start, leg.end, nr))));
      w2.(frames := w2.frames + 1)
  }

  /**
   * The end of the last leg: the mover adopts the leg's target (or stays
   * on its segment when the leg has none) and continues on the route. The
   * reference engine records the landing point and lights the dot of the
   * landing segment whose parameter is closest to the landing ratio.
   */
  function Land(e: Env, w: World, meta: Option<Target>): (r: World)
    requires Valid(e, w) && ValidTarget(e, meta)
    ensures Valid(e, r)
  {
    var target := if meta.Some? then meta.value else Target(w.course.step, w.course.ratio);
    var c := w.course.(step := target.step, ratio := target.t, mode := MainMode,
                       pos := MainPoint(e, target.step, target.t));
    w.(course := c, frames := w.frames + 1, rec := RecordAt(e, w.rec, c.pos),
       dots := if e.version == Dump then LightClosest(w.dots, target.step, target.t) else w.dots)
  }

  // ---------------------------------------------------------------------
  // Frames
  // ---------------------------------------------------------------------

  /** `animateStep`: nothing once stopped; otherwise the step of the current mode (the first checkpoint knows only room and main). */
  function Dispatch(e: Env, w: World): (r: World)
    requires Valid(e, w)
    ensures Valid(e, r)
  {
    if !w.moving then w
    else if e.version == W1 then
      if w.course.mode == RoomMode then RoomStepW1(e, w) else MainStep(e, w)
    else if w.course.mode == RoomMode then RoomStep(e, w)
    else if w.course.mode == TransitionMode then TransitionStep(e, w)
    else MainStep(e, w)
  }

  /** One animation frame: a requested frame runs `animateStep`; without one nothing happens. */
  function Tick(e: Env, w: World): (r: World)
    requires Valid(e, w)
    ensures Valid(e, r)
  {
    if w.frames == 0 then w else Dispatch(e, w.(frames := w.frames - 1))
  }

  // ---------------------------------------------------------------------
  // Placement
  // ---------------------------------------------------------------------

  /**
   * `placeRatAtNearest` (reference engine and checkpoints 2 to 4): inside a
   * room's area the mover enters the first such room at its projection;
   * otherwise it goes onto the route's nearest point. In the reference
   * engine the model also lights the room dots within 10 of the projected
   * point, the corrected `PlacementRoomMark`: the program's own call
   * (dump.js:618) lights none, as `PlacementRoomMarkAsWritten` shows.
   */
  function Place(e: Env, w: World): (r: World)
    requires Valid(e, w)
    ensures Valid(e, r)
  {
    var p := w.course.pos;
    match FirstContaining(w.rooms, p)
    case Some(i) =>
      var rp := w.rooms[i];
      var proj := Project(rp.start, rp.end, p);
      w.(course := w.course.(roomIndex := i, roomRatio := proj.t, mode := RoomMode, pos := proj.Foot()),
         roomDots := if e.version == Dump then PlacementRoomMark(w.roomDots, w.rooms, proj) else w.roomDots)
    case None =>
      w.(course := PlaceOnRoute(e, w.course))
  }

  /**
   * Placement outside the rooms: within 1 of the route's nearest point the
   * mover snaps onto it; otherwise it gets transition legs towards it.
   */
  function PlaceOnRoute(e: Env, c: Course): (r: Course)
    requires OnRoute(e, c)
    ensures OnRoute(e, r)
  {
    var p := c.pos;
    var nearest := NearestSegment(e.path, p);
    NearestSegmentOnRoute(e.path, p);
    if Dist2(nearest.proj, p) < 1.0 then
      c.(mode := MainMode, roomIndex := -1, step := nearest.segIndex, ratio := nearest.t,
         pos := MainPoint(e, nearest.segIndex, nearest.t))
    else
      var m := Some(Target(nearest.segIndex, nearest.t));
      LegsToTargetValid(e, p, nearest.proj, m);
      c.(legs := CreateLegs(p, nearest.proj, m, e.hypot), legIndex := 0, mode := TransitionMode)
  }

  /**
   * The first checkpoint's finish snapping, on the squared distances `ds`
   * from the mover to each finish: scanning in order, each distance
   * strictly below the best so far (the route's projection to begin with,
   * none when no segment has length) makes its finish the snap target.
   */
  function SnapIndex(ds: seq<real>, best: Option<real>): (r: Option<nat>)
    ensures r.Some? ==> r.value < |ds|
  {
    if ds == [] then None
    else
      var rest := SnapIndex(ds[1..], if best.None? || ds[0] < best.value then Some(ds[0]) else best);
      if rest.Some? then Some(rest.value + 1)
      else if best.None? || ds[0] < best.value then Some(0)
      else None
  }

  /**
   * What the snap scan finds: none when no finish beats `best`; otherwise
   * a finish strictly closer than `best` and no farther than any other,
   * the first of the closest ones.
   */
  lemma {:induction false} SnapIndexIsFirstClosest(ds: seq<real>, best: Option<real>)
    ensures var r := SnapIndex(ds, best);
      (r.None? ==> forall i :: 0 <= i < |ds| ==> best.Some? && best.value <= ds[i]) &&
      (r.Some? ==>
         (best.Some? ==> ds[r.value] < best.value) &&
         (forall i :: 0 <= i < |ds| ==> ds[r.value] <= ds[i]) &&
         (forall i :: 0 <= i < r.value ==> ds[r.value] < ds[i]))
  {
    if ds != [] {
      SnapIndexIsFirstClosest(ds[1..], if best.None? || ds[0] < best.value then Some(ds[0]) else best);
      assert forall i :: 0 <= i < |ds| - 1 ==> ds[1..][i] == ds[i + 1];
    }
  }

  /** The squared distance from `p` to each finish. */
  function FinishDists(finishes: seq<Point>, p: Point): (ds: seq<real>)
    ensures |ds| == |finishes| && forall i :: 0 <= i < |finishes| ==> ds[i] == Dist2(p, finishes[i])
  {
    seq(|finishes|, i requires 0 <= i < |finishes| => Dist2(p, finishes[i]))
  }

  /**
   * `placeRatAtNearest` of the first checkpoint: inside a room's area the
   * mover enters that room at its start, heading forward; otherwise it
   * snaps onto the route's nearest projection unless a finish marker is
   * strictly closer, in which case it moves onto the marker and mode, step
   * and ratio stay as they were.
   */
  function PlaceW1(e: Env, w: World): (r: World)
    requires Valid(e, w)
    ensures Valid(e, r)
  {
    w.(course := PlaceCourseW1(e, w.course, w.rooms))
  }

  /** The course the first checkpoint's placement gives the mover. */
  function PlaceCourseW1(e: Env, c: Course, rooms: seq<Room>): (r: Course)
    requires OnRoute(e, c)
    ensures OnRoute(e, r)
  {
    var p := c.pos;
    match FirstContaining(rooms, p)
    case Some(i) =>
      c.(mode := RoomMode, roomIndex := i, roomRatio := 0.0, pos := rooms[i].start, forward := true)
    case None =>
      var nearest := NearestSegment(e.path, p);
      NearestSegmentOnRoute(e.path, p);
      var snap := SnapIndex(FinishDists(e.finishes, p), if nearest.found then Some(nearest.d2) else None);
      if snap.Some? then c.(pos := e.finishes[snap.value])
      else
        c.(mode := MainMode, roomIndex := -1, step := nearest.segIndex, ratio := nearest.t,
           pos := MainPoint(e, nearest.segIndex, nearest.t))
  }

  // ---------------------------------------------------------------------
  // Buttons and mouse
  // ---------------------------------------------------------------------

  /** `if(step < 0) step = 0; if(step >= path.length) step = step % path.length;` */
  function NormaliseStep(n: int, step: int): (r: int)
    requires n > 0
    ensures 0 <= r < n
    ensures 0 <= step < n ==> r == step
  {
    if step < 0 then 0 else if step >= n then step % n else step
  }

  /**
   * The start/stop button. Starting rebuilds the room paths from the page
   * (the reference engine also clears the recorder, rebuilds the room dots
   * and builds the main dots if there are none), places the mover and asks
   * for a frame. Stopping only clears `moving` (and the recorder flag in
   * the reference engine).
   */
  function StartStop(e: Env, w: World, page: Page): (r: World)
    requires Valid(e, w)
    ensures Valid(e, r)
  {
    if w.moving then
      w.(moving := false, rec := if e.version == Dump then w.rec.(recording := false) else w.rec)
    else Launch(e, Rebuilt(e, w, page))
  }

  /** Starting, before placement: running, with the room paths (and the reference engine's recorder and dots) rebuilt. */
  function Rebuilt(e: Env, w: World, page: Page): (r: World)
    ensures r.course == w.course && r.moving
  {
    var rooms := RoomPaths(e.table, page, e.hypot);
    if e.version == Dump then
      w.(moving := true, rec := Recorder(true, [], false, []), rooms := rooms,
         roomDots := RoomDots(rooms, e.hypot),
         dots := if |w.dots| == 0 then MainDots(e.path, e.hypot) else w.dots)
    else w.(moving := true, rooms := rooms)
  }

  /** Starting, after the rebuild: the mover placed, its segment index normalised, and a frame requested. */
  function Launch(e: Env, w: World): (r: World)
    requires Valid(e, w)
    ensures Valid(e, r)
  {
    var w2 := if e.version == W1 then PlaceW1(e, w) else Place(e, w);
    w2.(frames := w2.frames + 1, course := w2.course.(step := NormaliseStep(|e.path|, w2.course.step)))
  }

  /** The hazard reset: the hazard-blocked dots unblocked, the set emptied. */
  function ResetHazardsOp(w: World): (r: World)
    ensures r.hazards == {} && r.(dots := w.dots, hazards := w.hazards) == w
    ensures |r.dots| == |w.dots| && forall s :: 0 <= s < |w.dots| ==> |r.dots[s]| == |w.dots[s]|
    ensures forall s, k :: 0 <= s < |w.dots| && 0 <= k < |w.dots[s]| ==>
      r.dots[s][k].(blocked := w.dots[s][k].blocked) == w.dots[s][k] &&
      (r.dots[s][k].blocked <==> w.dots[s][k].blocked && DotId(s, k) !in w.hazards)
  {
    var h := ResetHazards(Hazards(w.dots, w.hazards));
    w.(dots := h.dots, hazards := h.tracked)
  }

  /**
   * The reset button: every block cleared. The reference engine also
   * clears the recorder, the replay and the follower, and its hazard reset
   * runs on the same button.
   */
  function ResetButton(e: Env, w: World): (r: World)
    ensures |r.dots| == |w.dots| && forall s :: 0 <= s < |w.dots| ==> |r.dots[s]| == |w.dots[s]|
    ensures forall s, k :: 0 <= s < |w.dots| && 0 <= k < |w.dots[s]| ==> r.dots[s][k] == w.dots[s][k].(blocked := false)
    ensures r.moving == w.moving && r.frames == w.frames && r.course == w.course &&
      r.rooms == w.rooms && r.roomDots == w.roomDots
    ensures e.version == Dump ==>
      r.hazards == {} && r.rec == Recorder(false, [], false, []) && !r.follow.active && r.follow.follower.None?
    ensures e.version != Dump ==> r.hazards == w.hazards && r.rec == w.rec && r.follow == w.follow
  {
    var w1 := w.(dots := ResetAllBlocks(w.dots));
    if e.version == Dump then
      ResetHazardsOp(w1.(rec := Recorder(false, [], false, []),
                         follow := w.follow.(active := false, frame := false, follower := None)))
    else w1
  }

  /** Whether the version has hazards. */
  predicate HasHazards(v: Version) { v == Dump || v == W4 || v == W3 }

  /**
   * A hazard dropped or clicked at `p`: the reference engine first clamps
   * the point into the map area; the checkpoints use it as it is.
   */
  function PlaceHazardOp(e: Env, w: World, p: Point, area: Rect): (r: World)
    requires HasHazards(e.version)
    ensures r.(dots := w.dots, hazards := w.hazards) == w && w.hazards <= r.hazards
    ensures var c := if e.version == Dump then ClampToArea(area, p) else p;
      var base := if |w.dots| == 0 then MainDots(e.path, e.hypot) else w.dots;
      r.dots == BlockSquare(base, c) && r.hazards == w.hazards + SquareIds(base, c)
    ensures var base := if |w.dots| == 0 then MainDots(e.path, e.hypot) else w.dots;
      |r.dots| == |base| && forall s :: 0 <= s < |base| ==> |r.dots[s]| == |base[s]|
    ensures var base := if |w.dots| == 0 then MainDots(e.path, e.hypot) else w.dots;
      forall s, k :: 0 <= s < |base| && 0 <= k < |base[s]| ==>
        r.dots[s][k].(blocked := base[s][k].blocked) == base[s][k] &&
        (base[s][k].blocked ==> r.dots[s][k].blocked) &&
        (r.dots[s][k].blocked && !base[s][k].blocked ==> DotId(s, k) in r.hazards)
  {
    var c := if e.version == Dump then ClampToArea(area, p) else p;
    var h := PlaceHazard(Hazards(w.dots, w.hazards), MainDots(e.path, e.hypot), c);
    w.(dots := h.dots, hazards := h.tracked)
  }

  /** A click on a main dot. */
  function ClickDot(w: World, seg: int, idx: int): (r: World)
    ensures r.(dots := w.dots) == w
    ensures |r.dots| == |w.dots| && forall s :: 0 <= s < |w.dots| ==> |r.dots[s]| == |w.dots[s]|
    ensures forall s, k :: 0 <= s < |w.dots| && 0 <= k < |w.dots[s]| ==>
      r.dots[s][k].(blocked := w.dots[s][k].blocked) == w.dots[s][k] &&
      (r.dots[s][k].blocked != w.dots[s][k].blocked <==> s == seg && k == idx)
  {
    w.(dots := ToggleDotBlocked(w.dots, seg, idx))
  }

  /** The delayed clearing of a dot the mover ran into. */
  function ClearHit(w: World, seg: int, idx: int): (r: World)
    ensures r.(dots := w.dots) == w
    ensures |r.dots| == |w.dots| && forall s :: 0 <= s < |w.dots| ==> |r.dots[s]| == |w.dots[s]|
    ensures forall s, k :: 0 <= s < |w.dots| && 0 <= k < |w.dots[s]| ==>
      r.dots[s][k].(blocked := w.dots[s][k].blocked) == w.dots[s][k] &&
      (r.dots[s][k].blocked <==> w.dots[s][k].blocked && !(s == seg && k == idx))
  {
    w.(dots := ClearBlocked(w.dots, seg, idx))
  }

  /**
   * Dragging the mover, possible only while it is stopped. The program
   * checks `moving` when the drag starts (mousedown) and lets the moves of a
   * drag already under way through; here every move step checks it.
   */
  function Drag(w: World, p: Point): (r: World)
    ensures r.(course := w.course) == w && r.course.(pos := w.course.pos) == w.course
    ensures r.course.pos == p || r == w
    ensures w.moving ==> r == w
  {
    if w.moving then w else w.(course := w.course.(pos := p))
  }

  /**
   * The follow button (reference engine): only after a completed run; it
   * starts the replay at the first point, or stops it. What the replay then
   * does frame by frame is stated in `MotionFacts.ReplayVisitsInOrder`, and
   * that it does nothing before a completed run in
   * `MotionFacts.FollowNeedsCompletedRun`.
   */
  function FollowButton(w: World): (r: World)
    ensures r.(follow := w.follow) == w
    ensures !w.rec.trailComplete ==> r == w
    ensures w.rec.trailComplete && w.follow.active ==> !r.follow.active && !r.follow.frame
    ensures !w.follow.active && r.follow.active ==>
      w.rec.trailComplete && r.follow.frame && r.follow.idx == 0 &&
      w.rec.playback != [] && r.follow.follower == Some(w.rec.playback[0])
  {
    if !w.rec.trailComplete then w
    else if w.follow.active then w.(follow := w.follow.(active := false, frame := false))
    else if w.rec.playback == [] then w
    else w.(follow := Follow(true, true, 0, Some(w.rec.playback[0])))
  }

  /**
   * One replay frame; `due` says whether 100 ms have passed since the last
   * step. Each due frame moves the follower to the next point; past the
   * end the replay stops and rewinds. Over several frames this is stated in
   * `MotionFacts.ReplayVisitsInOrder` and
   * `MotionFacts.ReplayStopsAfterLastPoint`.
   */
  function PlaybackFrame(w: World, due: bool): (r: World)
    ensures r.(follow := w.follow) == w
    ensures !due ==> r.follow.idx == w.follow.idx && r.follow.follower == w.follow.follower
    ensures r.follow.follower != w.follow.follower ==>
      w.follow.idx < |w.rec.playback| && r.follow.follower == Some(w.rec.playback[w.follow.idx]) &&
      r.follow.idx == w.follow.idx + 1
    ensures r.follow.active ==> r.follow == w.follow || r.follow.idx == w.follow.idx + 1
    ensures !w.follow.active ==> !r.follow.active && !r.follow.frame
  {
    var f := w.follow;
    if !f.frame then w
    else if !f.active then w.(follow := f.(frame := false))
    else if !due then w
    else if f.idx >= |w.rec.playback| then w.(follow := f.(active := false, idx := 0, frame := false))
    else w.(follow := f.(follower := Some(w.rec.playback[f.idx]), idx := f.idx + 1))
  }

  /** The state after the page has loaded: room paths and dots built, the mover at the route's first vertex, nothing moving. */
  function Init(e: Env, page: Page): (w: World)
    requires ValidEnv(e)
    ensures Valid(e, w) && !w.moving && w.frames == 0 && w.course.pos == e.path[0]
  {
    var rooms := RoomPaths(e.table, page, e.hypot);
    World(false, 0, Course(MainMode, 0, 0.0, true, -1, 0.0, [], 0, e.path[0]),
          rooms, MainDots(e.path, e.hypot),
          if e.version == Dump then RoomDots(rooms, e.hypot) else [],
          {}, Recorder(false, [], false, []), Follow(false, false, 0, None))
  }
}
