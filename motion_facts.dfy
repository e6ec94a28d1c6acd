/**
 * What the motion state machine promises: how a frame moves the mover on
 * the route, in a room and along transition legs, how the run ends, where
 * starting places the mover, and what the buttons leave behind. Most
 * promises are predicates relating the state before and after.
 */
module MotionFacts {
  import opened Wrappers
  import opened Geometry
  import opened Route
  import opened Rooms
  import opened Waypoints
  import opened Trail
  import opened Blocking
  import opened Legs
  import opened Replay
  import opened Motion

  // ---------------------------------------------------------------------
  // Frames
  // ---------------------------------------------------------------------

  /** A frame changes nothing when none was requested, and only uses up the request once the run is stopped. */
  lemma StoppedEngineIsInert(e: Env, w: World)
    requires Valid(e, w)
    ensures w.frames == 0 ==> Tick(e, w) == w
    ensures w.frames > 0 && !w.moving ==> Tick(e, w) == w.(frames := w.frames - 1)
  {
  }

  // ---------------------------------------------------------------------
  // Main route
  // ---------------------------------------------------------------------

  /** With the true `hypot` the proposed ratio moves strictly in the direction of travel. */
  lemma ProposedFollowsDirection(e: Env, c: Course)
    requires ValidEnv(e) && 0 <= c.step < |e.path| && IsHypot(e.hypot)
    ensures c.forward ==> Proposed(e, c) > c.ratio
    ensures !c.forward ==> Proposed(e, c) < c.ratio
  {
    var a := e.path[c.step];
    var b := e.path[EndIndex(|e.path|, c.step, c.forward)];
    var h := e.hypot(b.left - a.left, b.top - a.top);
    var segLen := OrOne(h);
    assert h >= 0.0;
    assert segLen > 0.0;
    DivStrictMono(0.0, SPEED, segLen);
  }

  /**
   * A blocked dot ahead turns the mover round: the frame flips the
   * direction, requests the next frame and leaves segment, ratio,
   * position and recording as they were. The dot is blocked and lies in
   * the swept range.
   */
  lemma BlockedDotTurnsRound(e: Env, w: World, proposed: real)
    requires Valid(e, w)
    requires !(e.version == Dump && NearFinish(e.finishes, w.course.pos))
    requires MainHit(e, w, proposed).Some?
    ensures MainAdvance(e, w, proposed).course == w.course.(forward := !w.course.forward)
    ensures MainAdvance(e, w, proposed).frames == w.frames + 1 && MainAdvance(e, w, proposed).rec == w.rec
    ensures var k := MainHit(e, w, proposed).value; var dots := SweptDots(e, w, proposed); var s := w.course.step;
      s < |dots| && k < |dots[s]| && dots[s][k].blocked && InSpan(DotT(k, |dots[s]|), w.course.ratio, proposed)
  {
  }

  /** The course stands at the committed point of the route and keeps its direction and everything else. */
  predicate Committed(e: Env, c: Course, proposed: real, r: Course)
    requires ValidEnv(e) && 0 <= c.step < |e.path|
  {
    var m := Commit(|e.path|, c.step, proposed, c.forward);
    r == c.(step := m.0, ratio := m.1, pos := MainPoint(e, m.0, m.1))
  }

  /**
   * Without a block or a finish the move is committed: the mover stands
   * at the committed point, the next frame is requested, and the
   * reference engine records the new position.
   */
  lemma FreeMoveCommits(e: Env, w: World, proposed: real)
    requires Valid(e, w)
    requires !NearFinish(e.finishes, w.course.pos) && MainHit(e, w, proposed).None?
    ensures Committed(e, w.course, proposed, MainAdvance(e, w, proposed).course)
    ensures MainAdvance(e, w, proposed).frames == w.frames + 1 && MainAdvance(e, w, proposed).moving == w.moving
    ensures MainAdvance(e, w, proposed).rec.recorded ==
      if e.version == Dump then RecordTrailPoint(w.rec.recording, w.rec.recorded, MainAdvance(e, w, proposed).course.pos)
      else w.rec.recorded
  {
  }

  /**
   * A committed move goes the way the mover faces: forward it stays on
   * its segment further along or passes to the next segment; backward it
   * stays nearer the start or passes to the previous segment.
   */
  lemma CommitFollowsDirection(n: int, step: int, ratio: real, proposed: real, forward: bool)
    requires n > 0 && 0 <= step < n && 0.0 <= ratio <= 1.0
    requires forward ==> proposed > ratio
    requires !forward ==> proposed < ratio
    ensures forward ==>
      (Commit(n, step, proposed, forward).0 == step && Commit(n, step, proposed, forward).1 > ratio) ||
      Commit(n, step, proposed, forward).0 == (step + 1) % n
    ensures !forward ==>
      (Commit(n, step, proposed, forward).0 == step && Commit(n, step, proposed, forward).1 < ratio) ||
      Commit(n, step, proposed, forward).0 == (step - 1 + n) % n
  {
  }

  /**
   * The main frame's trail: the reference engine and the fourth checkpoint
   * toggle the dots swept over, the earlier checkpoints leave the trail
   * alone; either way, sweeping the same range twice restores it.
   */
  lemma MainTrailByVersion(e: Env, w: World, proposed: real)
    requires Valid(e, w)
    ensures MainAdvance(e, w, proposed).dots == SweptDots(e, w, proposed)
    ensures !SweepsTrail(e.version) ==> SweptDots(e, w, proposed) == w.dots
    ensures SweepsTrail(e.version) ==>
      Sweep(SweptDots(e, w, proposed), |e.path|, w.course.step, w.course.ratio, proposed) == w.dots
  {
    if SweepsTrail(e.version) {
      SweepTwiceRestores(w.dots, |e.path|, w.course.step, w.course.ratio, proposed);
    }
  }

  /**
   * The run has ended: moving and recording off, trail complete, the
   * replay list built from the recording over the lit dots, the mover in
   * place and no frame requested.
   */
  predicate RunEnded(w: World, r: World)
  {
    !r.moving && !r.rec.recording && r.rec.trailComplete && r.rec.recorded == w.rec.recorded &&
    r.rec.playback == BuildPlayback(w.rec.recorded, r.dots, r.roomDots) &&
    r.course == w.course && r.frames == w.frames
  }

  /**
   * Reaching a finish in the reference engine ends the run; the replay
   * list then holds only lit dots and never the same point twice in a row.
   */
  lemma FinishEndsRun(e: Env, w: World, proposed: real)
    requires Valid(e, w) && e.version == Dump && NearFinish(e.finishes, w.course.pos)
    ensures RunEnded(w, MainAdvance(e, w, proposed))
    ensures var r := MainAdvance(e, w, proposed);
      NoAdjacentRepeats(r.rec.playback) && forall q :: q in r.rec.playback ==> LitDotAt(r.dots, w.roomDots, q)
  {
    PlaybackIsLitAndCompact(w.rec.recorded, SweptDots(e, w, proposed), w.roomDots);
  }

  /**
   * In the checkpoints a finish only clears `moving`; the frame still
   * moves or turns the mover and requests another frame, and that frame
   * finds the run stopped.
   */
  lemma CheckpointFinishStopsNextFrame(e: Env, w: World, proposed: real)
    requires Valid(e, w) && e.version != Dump && NearFinish(e.finishes, w.course.pos)
    ensures !MainAdvance(e, w, proposed).moving && MainAdvance(e, w, proposed).frames == w.frames + 1
    ensures Tick(e, MainAdvance(e, w, proposed)) == MainAdvance(e, w, proposed).(frames := w.frames)
  {
    var r := MainAdvance(e, w, proposed);
    assert !r.moving && r.frames == w.frames + 1;
  }

  // ---------------------------------------------------------------------
  // Rooms
  // ---------------------------------------------------------------------

  /**
   * A room frame (room lengths are never negative) moves the mover strictly
   * further along its room; before the end it stands on the room path at
   * the new ratio; the reference engine only ever adds room-dot trail.
   */
  lemma RoomFrameAdvances(e: Env, w: World)
    requires Valid(e, w) && e.version != W1
    requires 0 <= w.course.roomIndex < |w.rooms| && w.rooms[w.course.roomIndex].length >= 0.0
    ensures RoomStep(e, w).course.roomRatio > w.course.roomRatio && RoomStep(e, w).frames == w.frames + 1
    ensures RoomStep(e, w).course.roomRatio < 1.0 ==>
      RoomStep(e, w).course == w.course.(roomRatio := RoomStep(e, w).course.roomRatio, pos :=
        Lerp(w.rooms[w.course.roomIndex].start, w.rooms[w.course.roomIndex].end, RoomStep(e, w).course.roomRatio))
    ensures RoomTrailGrows(w.roomDots, RoomStep(e, w).roomDots)
  {
    var ri := w.course.roomIndex;
    var rp := w.rooms[ri];
    var len := OrOne(rp.length);
    assert len > 0.0;
    DivStrictMono(0.0, SPEED, len);
    var rr := w.course.roomRatio + SPEED / len;
    assert RoomStep(e, w) == RoomAdvance(e, w, rr);
    RoomAdvanceFacts(e, w, rr);
  }

  /** A room frame with new ratio `rr`: one more frame, the ratio stored, the mover on the room path before its end. */
  lemma RoomAdvanceFacts(e: Env, w: World, rr: real)
    requires Valid(e, w) && 0 <= w.course.roomIndex < |w.rooms|
    ensures var r := RoomAdvance(e, w, rr);
      r.course.roomRatio == rr && r.frames == w.frames + 1 &&
      (rr < 1.0 ==> r.course == w.course.(roomRatio := rr, pos :=
        Lerp(w.rooms[w.course.roomIndex].start, w.rooms[w.course.roomIndex].end, rr))) &&
      RoomTrailGrows(w.roomDots, r.roomDots)
  {
    RoomMarkingGrows(w.roomDots, w.rooms, Point(0.0, 0.0), 0.0, w.course.roomIndex, w.course.roomRatio, rr);
  }

  /** The course left its room for the route point `nearest`, through legs exactly when at least 0.5 away. */
  predicate JoinedRoute(e: Env, c: Course, from: Point, nearest: Nearest, r: Course)
  {
    r.roomIndex == -1 &&
    r.legs == CreateLegs(from, nearest.proj, Some(Target(nearest.segIndex, nearest.t)), e.hypot) &&
    (r.mode == TransitionMode <==> Dist2(from, nearest.proj) >= 0.25) &&
    (r.mode == TransitionMode ==> r.legIndex == 0 && r.pos == c.pos) &&
    (r.mode != TransitionMode ==>
       r.mode == MainMode && r.step == nearest.segIndex && r.ratio == nearest.t && r.pos == nearest.proj)
  }

  /** Joining from `p` heads for the route's nearest point to `p`. */
  lemma JoinCourseFacts(e: Env, c: Course, p: Point)
    requires OnRoute(e, c)
    ensures JoinedRoute(e, c, p, NearestSegment(e.path, p), JoinCourse(e, c, p))
  {
    NearestSegmentOnRoute(e.path, p);
  }

  /**
   * At the end of a room the mover leaves it for the nearest point of the
   * route: through transition legs towards that point exactly when it is
   * at least 0.5 away, otherwise straight onto it; the next frame is
   * requested either way.
   */
  lemma RoomEndJoinsRoute(e: Env, w: World)
    requires Valid(e, w) && e.version != W1 && 0 <= w.course.roomIndex < |w.rooms|
    requires w.course.roomRatio + SPEED / OrOne(w.rooms[w.course.roomIndex].length) >= 1.0
    ensures JoinedRoute(e, w.course, w.rooms[w.course.roomIndex].end,
                        NearestSegment(e.path, w.rooms[w.course.roomIndex].end), RoomStep(e, w).course)
    ensures RoomStep(e, w).frames == w.frames + 1
  {
    var rp := w.rooms[w.course.roomIndex];
    var rr := w.course.roomRatio + SPEED / OrOne(rp.length);
    var c := w.course.(roomRatio := rr);
    assert RoomStep(e, w).course == JoinCourse(e, c, rp.end);
    JoinCourseFacts(e, c, rp.end);
  }

  /** A room frame whose room is gone returns the mover to the route's step. */
  lemma MissingRoomFallsBack(e: Env, w: World)
    requires Valid(e, w) && !(0 <= w.course.roomIndex < |w.rooms|)
    ensures e.version != W1 ==> RoomStep(e, w) == w.(course := w.course.(mode := MainMode), frames := w.frames + 1)
    ensures RoomStepW1(e, w) == w.(course := w.course.(mode := MainMode))
  {
  }

  /** The first checkpoint's room exit: on the route heading forward, still moving, no frame requested. */
  predicate FrozenOnRoute(nearest: Nearest, r: World)
  {
    r.moving && r.frames == 0 && r.course.mode == MainMode && r.course.forward && r.course.roomIndex == -1 &&
    r.course.step == nearest.segIndex && r.course.ratio == nearest.t && r.course.pos == nearest.proj
  }

  /**
   * The first checkpoint never requests a frame when the mover leaves a
   * room: it is put on the route heading forward and, although the run is
   * still on, every later frame finds no request and changes nothing.
   */
  lemma FirstCheckpointFreezesAtRoomEnd(e: Env, w: World)
    requires Valid(e, w) && e.version == W1 && w.moving && w.frames == 1 && w.course.mode == RoomMode
    requires 0 <= w.course.roomIndex < |w.rooms|
    requires w.course.roomRatio + SPEED / OrOne(w.rooms[w.course.roomIndex].length) >= 1.0
    ensures FrozenOnRoute(NearestSegment(e.path, w.rooms[w.course.roomIndex].end), Tick(e, w))
    ensures Tick(e, Tick(e, w)) == Tick(e, w)
  {
    NearestSegmentOnRoute(e.path, w.rooms[w.course.roomIndex].end);
  }

  // ---------------------------------------------------------------------
  // Transition legs
  // ---------------------------------------------------------------------

  /**
   * Finishing the last leg lands the mover on the leg's target on the
   * route; the reference engine also lights the landing segment's dot
   * whose parameter is closest to the landing ratio.
   */
  lemma LastLegLandsOnTarget(e: Env, w: World, m: Target)
    requires Valid(e, w) && ValidTarget(e, Some(m))
    ensures Land(e, w, Some(m)).course ==
      w.course.(mode := MainMode, step := m.step, ratio := m.t, pos := MainPoint(e, m.step, m.t))
    ensures Land(e, w, Some(m)).frames == w.frames + 1
    ensures e.version == Dump && m.step < |w.dots| && |w.dots[m.step]| > 0 ==>
      Land(e, w, Some(m)).dots[m.step][ClosestT(w.dots[m.step], m.t)].trail
  {
  }

  /** The current leg was walked up to `nr`, the mover on it. */
  predicate Walked(c: Course, nr: real, r: Course)
    requires 0 <= c.legIndex < |c.legs|
  {
    var leg := c.legs[c.legIndex];
    |r.legs| == |c.legs| && r.legs[c.legIndex] == leg.(ratio := nr) &&
    (nr < 1.0 ==> r.mode == c.mode && r.legIndex == c.legIndex && r.pos == Lerp(leg.start, leg.end, nr)) &&
    (nr >= 1.0 && c.legIndex + 1 < |c.legs| ==> r.mode == c.mode && r.legIndex == c.legIndex + 1 && r.pos == leg.end)
  }

  /**
   * A transition frame walks the current leg: before its end the mover is
   * on the leg at the new ratio; at its end it stands on the leg's end and
   * the next leg becomes current.
   */
  lemma LegFrameWalks(e: Env, w: World, nr: real)
    requires Valid(e, w) && 0 <= w.course.legIndex < |w.course.legs|
    ensures Walked(w.course, nr, TransitionAdvance(e, w, nr).course)
  {
  }

  // ---------------------------------------------------------------------
  // Placement
  // ---------------------------------------------------------------------

  /** The course entered room `k`, the first containing `p`, at its projection. */
  predicate EnteredRoom(rooms: seq<Room>, p: Point, r: Course)
  {
    var k := r.roomIndex;
    r.mode == RoomMode && 0 <= k < |rooms| && Inside(rooms[k].area, p) &&
    (forall j :: 0 <= j < k ==> !Inside(rooms[j].area, p)) &&
    0.0 <= r.roomRatio <= 1.0 && r.pos == Lerp(rooms[k].start, rooms[k].end, r.roomRatio)
  }

  /** Inside a room's area the mover enters the first room containing it, at its projection onto that room path. */
  lemma PlaceEntersFirstRoom(e: Env, w: World, i: nat)
    requires Valid(e, w) && i < |w.rooms| && Inside(w.rooms[i].area, w.course.pos)
    ensures EnteredRoom(w.rooms, w.course.pos, Place(e, w).course) && Place(e, w).course.roomIndex <= i
  {
  }

  /** The course is on its way to the route point `nearest`: on it when within 1, else at the start of legs ending there. */
  predicate HeadedForRoute(c: Course, nearest: Nearest, r: Course)
  {
    (Dist2(nearest.proj, c.pos) < 1.0 ==>
       r.mode == MainMode && r.step == nearest.segIndex && r.ratio == nearest.t && r.pos == nearest.proj) &&
    (Dist2(nearest.proj, c.pos) >= 1.0 ==>
       r.mode == TransitionMode && r.legIndex == 0 && r.pos == c.pos && r.legs != [] &&
       r.legs[0].start == c.pos && r.legs[|r.legs| - 1].end == nearest.proj &&
       r.legs[|r.legs| - 1].meta == Some(Target(nearest.segIndex, nearest.t)))
  }

  /**
   * Outside every room the mover goes onto the nearest point of the
   * route: directly when it is within 1 of it, otherwise through at least
   * one transition leg that ends there and carries that point as target.
   */
  lemma PlaceJoinsRoute(e: Env, w: World)
    requires Valid(e, w) && forall i :: 0 <= i < |w.rooms| ==> !Inside(w.rooms[i].area, w.course.pos)
    ensures HeadedForRoute(w.course, NearestSegment(e.path, w.course.pos), Place(e, w).course)
  {
    FirstContainingNone(w.rooms, w.course.pos);
    PlaceOnRouteFacts(e, w.course);
  }

  /** `FirstContaining` finds nothing when no room contains the point. */
  lemma FirstContainingNone(rooms: seq<Room>, p: Point)
    requires forall i :: 0 <= i < |rooms| ==> !Inside(rooms[i].area, p)
    ensures FirstContaining(rooms, p) == None
  {
  }

  /** Placement outside the rooms heads for the route's nearest point. */
  lemma PlaceOnRouteFacts(e: Env, c: Course)
    requires OnRoute(e, c)
    ensures HeadedForRoute(c, NearestSegment(e.path, c.pos), PlaceOnRoute(e, c))
  {
    var nearest := NearestSegment(e.path, c.pos);
    NearestSegmentOnRoute(e.path, c.pos);
    Dist2Symmetric(nearest.proj, c.pos);
  }

  /**
   * The first checkpoint moves the mover onto a finish marker when one is
   * strictly closer than the route: the chosen marker is no farther than
   * any other and closer than the route's nearest point; otherwise the
   * mover goes onto the route's nearest point.
   */
  lemma FirstCheckpointSnapsToFinish(e: Env, c: Course, rooms: seq<Room>)
    requires OnRoute(e, c)
    requires forall i :: 0 <= i < |rooms| ==> !Inside(rooms[i].area, c.pos)
    ensures var nearest := NearestSegment(e.path, c.pos);
      var snap := SnapIndex(FinishDists(e.finishes, c.pos), if nearest.found then Some(nearest.d2) else None);
      var r := PlaceCourseW1(e, c, rooms);
      (snap.Some? ==>
         r == c.(pos := e.finishes[snap.value]) &&
         (forall f :: f in e.finishes ==> Dist2(c.pos, e.finishes[snap.value]) <= Dist2(c.pos, f)) &&
         (nearest.found ==> Dist2(c.pos, e.finishes[snap.value]) < nearest.d2)) &&
      (snap.None? ==>
         r.mode == MainMode && r.step == nearest.segIndex && r.ratio == nearest.t && r.pos == nearest.proj)
  {
    var p := c.pos;
    FirstContainingNone(rooms, p);
    var nearest := NearestSegment(e.path, p);
    NearestSegmentOnRoute(e.path, p);
    var ds := FinishDists(e.finishes, p);
    var snap := SnapIndex(ds, if nearest.found then Some(nearest.d2) else None);
    SnapIndexIsFirstClosest(ds, if nearest.found then Some(nearest.d2) else None);
    if snap.Some? {
      var k := snap.value;
      forall f | f in e.finishes
        ensures Dist2(p, e.finishes[k]) <= Dist2(p, f)
      {
        var i :| 0 <= i < |e.finishes| && e.finishes[i] == f;
        assert ds[k] <= ds[i];
      }
    }
  }

  /** Inside a room's area the first checkpoint enters the room at its start, heading forward. */
  lemma FirstCheckpointEntersRoomAtStart(e: Env, w: World, i: nat)
    requires Valid(e, w) && e.version == W1 && i < |w.rooms| && Inside(w.rooms[i].area, w.course.pos)
    ensures var c := PlaceW1(e, w).course;
      c.mode == RoomMode && 0 <= c.roomIndex <= i && c.roomRatio == 0.0 && c.forward &&
      c.pos == w.rooms[c.roomIndex].start
  {
  }

  // ---------------------------------------------------------------------
  // Buttons
  // ---------------------------------------------------------------------

  /** A run was started: on, a frame requested, rooms rebuilt, and (reference engine) a fresh recording. */
  predicate Started(e: Env, w: World, page: Page, r: World)
  {
    r.moving && r.frames == w.frames + 1 && r.rooms == RoomPaths(e.table, page, e.hypot) &&
    (e.version == Dump ==> r.rec == Recorder(true, [], false, []))
  }

  /** Starting a run turns it on and requests a frame. */
  lemma StartStarts(e: Env, w: World, page: Page)
    requires Valid(e, w) && !w.moving
    ensures Started(e, w, page, StartStop(e, w, page))
  {
  }

  /** Placing the mover changes nothing but the course and the room dots. */
  lemma PlaceKeepsRun(e: Env, w: World)
    requires Valid(e, w)
    ensures Place(e, w).(course := w.course, roomDots := w.roomDots) == w
    ensures PlaceW1(e, w).(course := w.course) == w
  {
  }

  /** Stopping a run turns it and the recorder off and requests nothing. */
  lemma StopStops(e: Env, w: World, page: Page)
    requires Valid(e, w) && w.moving
    ensures StartStop(e, w, page) ==
      if e.version == Dump then w.(moving := false, rec := w.rec.(recording := false)) else w.(moving := false)
  {
  }

  /**
   * The reset button leaves no dot blocked and the mover where it is; in
   * the reference engine it also forgets the hazards, the recording, the
   * replay list and the follower.
   */
  lemma ResetClearsBlocks(e: Env, w: World)
    ensures NoneBlocked(ResetButton(e, w).dots)
    ensures ResetButton(e, w).course == w.course && ResetButton(e, w).moving == w.moving
    ensures e.version == Dump ==>
      ResetButton(e, w).hazards == {} && ResetButton(e, w).rec == Recorder(false, [], false, []) &&
      ResetButton(e, w).follow.follower.None? && !ResetButton(e, w).follow.active && !ResetButton(e, w).follow.frame
  {
    var r1 := ResetAllBlocks(w.dots);
    ResetAllBlocksClearsAll(w.dots);
    if e.version == Dump {
      var h := ResetHazards(Hazards(r1, w.hazards));
      assert NoneBlocked(h.dots);
    }
  }

  /** The reference engine clamps a dropped hazard into the map area before blocking the dots around it. */
  lemma HazardLandsInArea(e: Env, w: World, p: Point, area: Rect)
    requires e.version == Dump && area.width >= 0.0 && area.height >= 0.0
    ensures Inside(area, ClampToArea(area, p))
    ensures PlaceHazardOp(e, w, p, area).hazards ==
      PlaceHazard(Hazards(w.dots, w.hazards), MainDots(e.path, e.hypot), ClampToArea(area, p)).tracked
  {
  }

  /** Dragging moves the mover only while the run is stopped, and changes nothing else. */
  lemma DragOnlyWhenStopped(w: World, p: Point)
    ensures Drag(w, p).course.pos == (if w.moving then w.course.pos else p)
    ensures Drag(w, p).(course := w.course) == w
  {
  }

  // ---------------------------------------------------------------------
  // Replay
  // ---------------------------------------------------------------------

  /** `k` replay frames that are all due. */
  function DueFrames(w: World, k: nat): World
  {
    if k == 0 then w else PlaybackFrame(DueFrames(w, k - 1), true)
  }

  /** The replay is on at its `k`-th point, the follower on the point shown last. */
  predicate ReplayingAt(w: World, k: nat, r: World)
    requires w.rec.playback != [] && k <= |w.rec.playback|
  {
    r.follow == Follow(true, true, k, Some(w.rec.playback[if k == 0 then 0 else k - 1])) && r.rec == w.rec
  }

  /**
   * Once the follow button has started a replay, the follower visits the
   * replay points in order, one per due frame, starting from the first.
   */
  lemma {:induction false} ReplayVisitsInOrder(w: World, k: nat)
    requires w.rec.trailComplete && !w.follow.active && w.rec.playback != [] && k <= |w.rec.playback|
    ensures ReplayingAt(w, k, DueFrames(FollowButton(w), k))
  {
    if k > 0 {
      ReplayVisitsInOrder(w, k - 1);
    }
  }

  /** After the last point the next due frame ends the replay and rewinds it, the follower left on the last point. */
  lemma ReplayStopsAfterLastPoint(w: World)
    requires w.rec.trailComplete && !w.follow.active && w.rec.playback != []
    ensures DueFrames(FollowButton(w), |w.rec.playback| + 1).follow ==
      Follow(false, false, 0, Some(w.rec.playback[|w.rec.playback| - 1]))
  {
    ReplayVisitsInOrder(w, |w.rec.playback|);
  }

  /** Without a completed run the follow button does nothing. */
  lemma FollowNeedsCompletedRun(w: World)
    requires !w.rec.trailComplete
    ensures FollowButton(w) == w
  {
  }
}
