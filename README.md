# Evacuation route animation engine

This project models the engine behind an evacuation-route page. The page
draws a closed main route of 14 vertices, a set of rooms with one straight
path each, and two finish markers. A mover (the "rat") walks the route
frame by frame, and the engine keeps these things up to date:

- Route waypoints ("dots"). Blocked dots turn the mover round, and a trail
  flag records where the mover has been.
- Room dots, lit one way as the mover walks a room.
- Orthogonal transition legs. They lead from a room's end, or from any
  off-route position, back onto the route.
- A recorder of the mover's positions. When a finish is reached, the
  recording becomes a replay list that a follower walks.
- Hazards dropped on the map. Each one blocks the dots in a 50 x 50 square.

The reference engine is `dump.js`. The four earlier checkpoints
(`checkpoint/working1.js` to `checkpoint/working4.js`) share its structure
and differ in small ways: no trail, no recorder, no hazards, different
finish handling, or a different placement. The model covers all five. The
`Version` datatype selects the differences (`Dump`, `W4`, `W3`, `W2`, `W1`).

Modules follow the program's structure:

- `Geometry` covers points, rectangles, interpolation, the clamped projection
  onto a segment and `clampToArea`.
- `Route` covers `findNearestMainSegmentAndT`, the nearest point of the route.
- `Rooms` covers `buildRoomPaths`, the room table and the "first room
  containing a point" loop.
- `Waypoints` covers dot counts, dot parameters and the rows built by
  `createDotsForAllSegments` and `createRoomDotsForPaths`.
- `Trail` covers trail toggling across segment boundaries, the proximity
  marking of main and room dots, and the room sweep.
- `Blocking` covers `blockedDotBetween`, block toggling and reset, hazard
  squares and the hazard reset.
- `Legs` covers `createOrthogonalLegs`.
- `Replay` covers the recorder, `findNearestDotMeta` and
  `buildPlaybackTrailFromRecorded`.
- `Motion` is the specification. The page's module-level variables form one
  `World` value, and every frame and every event handler is a function from
  `World` to `World` that keeps the invariant `Valid`. `Valid` says the mover's
  segment, ratio and leg targets name points of the route.
- `MotionFacts` holds the properties of those functions.
- `DotLoops` has the loops of the dot and hazard helpers as methods proved
  equal to their `Trail`, `Blocking` and `Waypoints` specifications.
- `Simulation` has the engine itself. `Simulation.Engine` is a class whose
  fields are the page's module-level variables. Its methods update them in
  place, and each is proved to produce exactly the `Motion` function's new
  state.

Squared distances replace the code's `Math.hypot(...) < c` comparisons. These
are exact over the reals:

- 12 for a finish.
- 1 and 0.5 for placement and legs.
- 14 for the nearest dot.
- 6 for the recorder's spacing.

Lengths that the code divides by, or counts dots from, come from
a `hypot` function the caller supplies (`Env.hypot`). `Geometry.IsHypot`
states what the real `Math.hypot` satisfies, and lemmas that need actual
lengths assume it.

## Model

| member | source | states |
|---|---|---|
| Geometry.OrOne | dump.js:661 | `len \|\| 1` never yields zero and keeps every non-zero length |
| Geometry.Clamp | dump.js:898 | the result lies in [lo, hi], equals x inside the range and the nearer bound outside it |
| Geometry.Lerp | dump.js:60 | t = 0 gives the start, t = 1 the end, and a coordinate shared by both ends is kept |
| Geometry.Dist2Facts | dump.js:59 | a squared distance is never negative and is zero exactly between equal points |
| Geometry.HypotOnAxis | dump.js:59 | along one axis the true `Math.hypot` is the absolute offset |
| Geometry.ClampToArea | dump.js:1320-1325 | the clamped point lies in any non-empty rectangle, and a point already inside is unchanged |
| Geometry.Project | dump.js:555-565 | the projection parameter lies in [0,1] and the foot is the point of the segment at that parameter |
| Geometry.ProjectIsNearestOnSegment | dump.js:555-565 | no point of the segment is closer to the query point than the clamped projection |
| Route.JsRem | dump.js:813 | JavaScript's `%` agrees with the Euclidean remainder on non-negative operands and is non-positive on negative ones |
| Route.NearestSegmentIsFirstMinimum | dump.js:136-155 | the result is found exactly when some segment has non-zero length; it is the first segment whose projection is strictly nearest, with its ratio, foot and squared distance; otherwise segment 0 at vertex 0 |
| Route.NearestSegmentIsNearestPoint | dump.js:136-155 | no point of any non-degenerate segment is closer than the returned projection |
| Route.NearestSegmentOnRoute | dump.js:136-155 | the returned segment index is in range, the ratio in [0,1], and the projection is the route point at that ratio |
| Route.FindNearestMainSegmentAndT | dump.js:136-155 | the scan loop returns exactly the specified nearest segment |
| Route.MainPathNonDegenerate | dump.js:21-36 | the route has 14 vertices and every segment has non-zero length |
| Rooms.RoomPaths | dump.js:78-133 | there are never more room paths than table entries |
| Rooms.RoomPathSpansRect | dump.js:89-127 | each room path runs between midpoints of opposite sides of its rectangle in the configured direction, and its length is the height or width it spans |
| Rooms.RoomComesFromTable | dump.js:82-128 | room j is built from a present table entry at position j or later |
| Rooms.RoomPathsMatchFullTable | dump.js:82-128 | when every entry's elements exist, the rooms match the table one for one |
| Rooms.FirstContaining | dump.js:605-621 | the result is a room whose area holds the point with no earlier such room, or none when no area holds it |
| Rooms.FindContainingRoom | dump.js:605-621 | the loop over the rooms returns exactly the first containing room |
| Waypoints.Round | dump.js:183 | `Math.round` returns the integer within half a unit, halves rounding up |
| Waypoints.MainDotCount | dump.js:182-184 | a segment gets between 2 and 26 dots, one per 10 px plus one, raised to 2 when below and cut to 26 when above |
| Waypoints.RoomDotCount | dump.js:243-246 | a room path gets between 2 and 40 dots, one per 10 px of its length (a zero length counting as 1) plus one, raised to 2 when below and cut to 40 when above |
| Waypoints.DotTSpan | dump.js:187-188 | dot parameters start at 0, end at 1 and strictly increase |
| Waypoints.SegmentDotsSpan | dump.js:186-229 | a freshly built row starts at the segment's start, ends at its end, and its dots sit at increasing parameters on the segment, unblocked and unlit |
| Waypoints.RoomSegmentDotsSpan | dump.js:248-273 | the same for a room row: from room start to room end, dot k at parameter k/(count-1), increasing, unlit |
| Waypoints.MainDotsSpanSegments | dump.js:174-230 | main row i holds 2 to 26 dots spanning vertex i to the next vertex |
| Waypoints.RoomDotsSpanRooms | dump.js:233-275 | room row i holds 2 to 40 dots spanning room i from start to end |
| Trail.ToggleTrail | dump.js:291-316 | the trail flag is flipped and nothing else changes |
| Trail.SetTrail | dump.js:278-288 | the trail flag is turned on, nothing else changes, and a lit dot is untouched |
| Trail.SetRoomTrail | dump.js:319-329 | the one-way room counterpart: lit afterwards, nothing else changed |
| Trail.SweepSpans | dump.js:348-372 | at most two ranges; none exactly for an empty grid or a standing move; only the current, next or previous segment is touched |
| Trail.ApplySpansFlips | dump.js:332-345 | applying the ranges flips exactly the dots covered an odd number of times and changes nothing else |
| Trail.SweepFlipsSpans | dump.js:348-372 | a sweep flips exactly the dots its ranges cover |
| Trail.SweepTwiceRestores | dump.js:348-372 | sweeping the same move twice restores every trail flag |
| Trail.SweepByCase | dump.js:348-372 | inside [0,1] only the dots of the current segment between the ratios flip; past 1 the rest of this segment and the overshoot on the next; below 0 the overshoot on the previous segment and the start of this one |
| Trail.MarkNearbyMain | dump.js:377-392 | a dot is lit afterwards exactly when it was lit or lies within the radius; nothing but the flag changes |
| Trail.MarkNearbyMainIdempotent | dump.js:377-392 | marking twice at the same point is marking once |
| Trail.MarkNearbyRoom | dump.js:398-420 | only rooms whose area holds the point are touched; there a dot becomes lit exactly when within the radius; nothing but flags change |
| Trail.MarkNearbyRoomIdempotent | dump.js:398-420 | room marking twice at the same point is marking once |
| Trail.MarkRoomRange | dump.js:668-677 | a room dot is lit afterwards exactly when it was lit or its parameter lies between the two ratios |
| Trail.MarkRoomRangeIdempotent | dump.js:668-677 | marking the same range twice is marking once |
| Trail.MarkRoomRowRange | dump.js:668-677 | only the current room's row is changed; an index without a row changes nothing |
| Trail.RoomMarkingGrows | dump.js:398-420 | proximity marking and range marking never unlight a room dot |
| Trail.ProjectionField | dump.js:618 | reading any property other than `t`, `px`, `py` of a projection object gives NaN |
| Trail.MarkNearbyRoomNumAgrees | dump.js:398-420 | with real coordinates, the property-by-property reading of the point is exactly the room marking |
| Trail.PlacementRoomMarkAsWritten | dump.js:618 | passing the projection object as the point marks no room dot at all |
| Trail.PlacementRoomMark | dump.js:618 | the intended marking only adds trail to room dots |
| Trail.PlacementRoomMarkDiffers | dump.js:618 | when a room's first dot sits on the projected point, the intended marking lights it and the written one does not |
| Trail.PlacementBehindEntryStaysUnlit | dump.js:618 | a room dot within 10 of the entry point with a parameter below the entry parameter is lit by the intended call, not by the written one, and no later room range starting at the entry parameter or above reaches it |
| Blocking.BlockedDotBetween | dump.js:493-505 | the result is the lowest-index blocked dot of the segment whose parameter lies between the ratios, none when there is no such dot, and none for a segment out of range |
| Blocking.FindBlockedDotBetween | dump.js:493-505 | the scan with early exit returns exactly that dot |
| Blocking.ToggleDotBlocked | dump.js:449-474 | exactly the named dot's blocked flag flips; a missing dot changes nothing |
| Blocking.ToggleDotBlockedTwice | dump.js:449-474 | clicking the same dot twice restores the grid |
| Blocking.ResetAllBlocks | dump.js:476-491 | every dot is unblocked with its position and trail kept |
| Blocking.ClearBlocked | dump.js:868-880 | the delayed clear unblocks the dot the mover ran into and nothing else |
| Blocking.ClearBlockedIdempotent | dump.js:868-880 | clearing twice is clearing once |
| Blocking.InSquareIsCentred | dump.js:1411-1423 | the hazard square test is the box of half-width 25 centred on the drop point |
| Blocking.BlockSquare | dump.js:1419-1436 | a dot is blocked afterwards exactly when it was or lies in the square; nothing else changes |
| Blocking.SquareIds | dump.js:1419-1436 | the hazard set gains exactly the dots in the square |
| Blocking.PlaceHazard | dump.js:1411-1436 | the grid is built when empty, then the square's dots are blocked and added to the hazard set |
| Blocking.ResetHazards | dump.js:1475-1498 | exactly the tracked dots are unblocked and the set is emptied |
| Blocking.HazardResetUndoesPlacement | dump.js:1391-1498 | on a grid without blocks, placing two hazards and resetting gives the grid back with an empty set |
| Blocking.ResetAllBlocksClearsAll | dump.js:476-491 | after a full reset no dot is blocked, and a second reset changes nothing |
| Legs.CreateLegs | dump.js:571-594 | no legs exactly when the ends are closer than 0.5; one leg when aligned on an axis; otherwise horizontal then vertical legs joined end to start; the first leg starts at the origin, the last ends at the target and alone carries the target |
| Legs.LegLengthsAreAxisOffsets | dump.js:571-594 | with the true `Math.hypot` the two legs are as long as the horizontal and vertical offsets |
| Replay.RecordTrailPoint | dump.js:947-957 | nothing is recorded while not recording; the first point is always kept, a later one exactly when at least 6 from the last; spacing is kept |
| Replay.RecordAllKeepsSpacing | dump.js:947-964 | a run of recordings only appends to the record and keeps every pair of consecutive samples at least 6 apart |
| Replay.NearestOfIsFirstNearest | dump.js:1020-1056 | the chosen dot is within 14, strictly nearer than every earlier dot and no farther than any later one; none exactly when every dot is farther than 14 |
| Replay.ScanMainDots | dump.js:1025-1037 | the scan of the main dots returns the nearest main dot as specified |
| Replay.ScanRoomDots | dump.js:1040-1052 | the scan of the room dots, continued from the best main dot, returns the nearest dot of both |
| Replay.FindNearestDotMeta | dump.js:1020-1056 | the method returns the specified nearest dot, main dots searched first |
| Replay.CollectIsWellFormed | dump.js:1076-1086 | the mapping holds each dot at most once, and every point is the position of a lit dot named by its identity |
| Replay.CollectPrefix | dump.js:1072-1087 | mapping more samples only appends, so the mapped dots stay in the order the samples first reach them |
| Replay.CollectIsComplete | dump.js:1072-1087 | every sample whose nearest dot is lit has that dot among the mapped identities |
| Replay.SameRefSamePos | dump.js:1025-1052 | two dots of the grids with the same identity stand at the same position |
| Replay.PlaybackHoldsMappedDots | dump.js:1067-1121 | every sample whose nearest dot is lit has that dot's position on the replay list |
| Replay.LitPoints | dump.js:1090-1108 | the fallback holds the position of every lit dot and only those, and is no longer than the list of dots |
| Replay.LitPointsAppend | dump.js:1090-1108 | the fallback lists the lit dots of a first group before those of a second, each in scan order, so room dots come before main dots |
| Replay.LitPointsSingle | dump.js:1094-1097 | a single dot contributes its position exactly when it is lit |
| Replay.Compact | dump.js:1111-1119 | the compacted list has no adjacent repeats, is empty only for an empty input, holds exactly the input's points and keeps its last |
| Replay.CompactIsKept | dump.js:1111-1119 | compaction removes exactly the entries equal to the entry before them and keeps the rest in order |
| Replay.CompactKeepsRepeatFree | dump.js:1111-1119 | a list without adjacent repeats is left as it is |
| Replay.PlaybackIsLitAndCompact | dump.js:1067-1121 | the replay list never repeats a point twice in a row, is empty without samples, and holds only lit dots' positions |
| Replay.PlaybackRefsDistinct | dump.js:1076-1086 | the mapped points name no dot twice |
| Replay.CollectLitDots | dump.js:1090-1108 | the fallback loops return every lit room dot, then every lit main dot |
| Replay.CollectRecordedDots | dump.js:1076-1086 | the mapping loop returns the specified mapped points |
| Replay.CompactPoints | dump.js:1111-1119 | the compaction loop returns the specified compact list |
| Replay.BuildPlaybackTrail | dump.js:1067-1121 | the three loops together return the specified replay list |
| Motion.EnvOf | dump.js:21-36 | every version runs on the 14-vertex route with its own finishes and room table, and that environment is valid |
| Motion.RecordAt | dump.js:960-964 | only the reference engine records, and it records as the recorder specifies |
| Motion.EndIndex | dump.js:813 | the neighbour vertex is the next one forward and the previous one backward, always in range |
| Motion.Commit | dump.js:884-899 | a ratio inside (0,1) is kept; otherwise the mover passes to the neighbour segment and the shifted ratio is clamped to [0,1] |
| Motion.MainStep | dump.js:811-913 | the main frame keeps the mover on the route |
| Motion.MainCourse | dump.js:862-899 | turning round or committing both leave the mover on the route |
| Motion.MainAdvance | dump.js:825-913 | every version's main frame keeps the mover on the route, finish handling included |
| Motion.FinishRun | dump.js:839-855 | at a finish the mover stays put, the run and the recorder stop, the trail is complete and no frame is requested |
| Motion.MainMove | dump.js:862-913 | the block test and the move keep the mover on the route |
| Motion.JoinCourse | dump.js:679-706 | joining the route from a room's end keeps the mover on the route |
| Motion.RoomStep | dump.js:651-722 | the room frame keeps the mover on the route invariant |
| Motion.RoomAdvance | dump.js:664-722 | the room frame at a known new ratio keeps the invariant |
| Motion.LeaveRoom | dump.js:679-706 | at the room's end the room is left, the ratio stored, one frame requested, and the dots and rooms kept |
| Motion.WalkRoom | dump.js:708-721 | inside the room the mover stands on the room path at the new ratio, one frame is requested and room dots are kept |
| Motion.RoomStepW1 | checkpoint/working1.js:354-397 | the first checkpoint's room frame keeps the invariant |
| Motion.ClosestTIsFirstClosest | dump.js:772-781 | the landing dot's parameter is closest to the ratio, and every earlier dot is strictly farther |
| Motion.LightClosest | dump.js:772-783 | the landing dot is lit and the grid keeps its shape |
| Motion.TransitionStep | dump.js:728-805 | the transition frame keeps the invariant |
| Motion.Traced | dump.js:745-751 | the reference engine's marks change no course, run flag, frame count, rooms, hazards or follower |
| Motion.TransitionAdvance | dump.js:737-804 | walking a leg to a known new ratio keeps the invariant |
| Motion.Land | dump.js:754-787 | landing on the route keeps the invariant |
| Motion.Dispatch | dump.js:916-925 | `animateStep` keeps the invariant in every mode and version |
| Motion.Tick | dump.js:916-925 | an animation frame keeps the invariant |
| Motion.Place | dump.js:597-646 | placement keeps the invariant |
| Motion.PlaceOnRoute | dump.js:623-645 | placement outside the rooms keeps the mover on the route |
| Motion.SnapIndexIsFirstClosest | checkpoint/working1.js:325-338 | none when no finish beats the route; otherwise a finish strictly closer than the route, no farther than any other, and the first such |
| Motion.FinishDists | checkpoint/working1.js:325-338 | one squared distance per finish marker, in order |
| Motion.PlaceW1 | checkpoint/working1.js:277-351 | the first checkpoint's placement keeps the invariant |
| Motion.PlaceCourseW1 | checkpoint/working1.js:286-350 | the first checkpoint's placed course stays on the route |
| Motion.NormaliseStep | dump.js:1191-1192 | the normalised index is in range and an index already in range is kept |
| Motion.StartStop | dump.js:1171-1198 | the start/stop button keeps the invariant |
| Motion.Rebuilt | dump.js:1175-1187 | the rebuild before placement turns the run on and leaves the course alone |
| Motion.Launch | dump.js:1189-1193 | placement, normalisation and the frame request keep the invariant |
| Motion.Init | dump.js:1248-1253 | after page load the mover waits at the first vertex, not moving, no frame requested, invariant holding |
| Motion.ResetHazardsOp | dump.js:1475-1498 | the hazard reset unblocks exactly the tracked dots, empties the set and changes nothing else |
| Motion.ResetButton | dump.js:1201-1215 | every block is cleared and the mover and rooms are untouched; the reference engine also clears the hazards, the recorder and the follower |
| Motion.PlaceHazardOp | dump.js:1391-1437 | the grid (built first when empty) gets exactly the dots in the square around the point blocked, clamped into the area in the reference engine, and the tracked set gains exactly their ids; no block is lost and nothing else changes |
| Motion.ClickDot | dump.js:449-474 | a click flips the blocked flag of exactly the clicked dot and changes nothing else |
| Motion.ClearHit | dump.js:868-880 | the delayed clear unblocks exactly the dot that was hit and changes nothing else |
| Motion.Drag | dump.js:1222-1239 | a drag moves only the mover's position, and does nothing while the mover runs |
| Motion.FollowButton | dump.js:1131-1167 | only the follow state changes, only after a completed run; it stops an active replay, or starts one at the first replay point |
| Motion.PlaybackFrame | dump.js:989-1015 | only the follow state changes; a frame that moves the follower shows the current replay point and advances the index by one; nothing moves when the frame is not due |
| MotionFacts.StoppedEngineIsInert | dump.js:916-918 | without a requested frame nothing happens; once stopped a frame only uses up its request |
| MotionFacts.ProposedFollowsDirection | dump.js:811-821 | with the true `Math.hypot` the proposed ratio moves strictly in the direction of travel |
| MotionFacts.BlockedDotTurnsRound | dump.js:862-882 | a blocked dot ahead flips the direction, requests a frame and moves nothing; the dot found is blocked and between the ratios |
| MotionFacts.FreeMoveCommits | dump.js:884-912 | without block or finish the mover stands at the committed route point, a frame is requested and the reference engine records the position |
| MotionFacts.CommitFollowsDirection | dump.js:884-899 | a committed move goes the way the mover faces: further along the segment or onto its neighbour in that direction |
| MotionFacts.MainTrailByVersion | dump.js:825 | the reference engine and the fourth checkpoint toggle the swept dots (undone by a second identical sweep); earlier checkpoints keep the trail |
| MotionFacts.FinishEndsRun | dump.js:827-856 | at a finish the reference engine ends the run and builds a replay list of lit dots without adjacent repeats |
| MotionFacts.CheckpointFinishStopsNextFrame | checkpoint/working2.js:485-497 | in the checkpoints a finish only clears `moving`; the next frame then does nothing but use up its request |
| MotionFacts.RoomFrameAdvances | dump.js:651-722 | a room frame strictly increases the room ratio, puts the mover on the room path before its end, and never unlights a room dot |
| MotionFacts.JoinCourseFacts | dump.js:679-706 | joining from a point heads for the route's nearest point to it |
| MotionFacts.RoomEndJoinsRoute | dump.js:679-706 | at a room's end the mover leaves for the nearest route point, through legs exactly when at least 0.5 away, and a frame is requested |
| MotionFacts.MissingRoomFallsBack | dump.js:654-660 | a missing room sends the mover back to main mode, with a frame request except in the first checkpoint |
| MotionFacts.FirstCheckpointFreezesAtRoomEnd | checkpoint/working1.js:368-386 | the first checkpoint puts the mover on the route at the room's end but requests no frame, so every later frame changes nothing |
| MotionFacts.LastLegLandsOnTarget | dump.js:754-787 | the last leg lands the mover on its target route point, and the reference engine lights the landing segment's closest dot |
| MotionFacts.LegFrameWalks | dump.js:737-804 | a transition frame walks the current leg, onto the next leg at its end |
| MotionFacts.PlaceEntersFirstRoom | dump.js:605-621 | inside a room's area the mover enters the first containing room at its projection |
| MotionFacts.PlaceJoinsRoute | dump.js:623-645 | outside every room the mover snaps onto the nearest route point within 1, otherwise gets legs ending there that carry it as target |
| MotionFacts.FirstCheckpointSnapsToFinish | checkpoint/working1.js:300-350 | the first checkpoint moves onto the closest finish marker when it beats the route, otherwise onto the route's nearest point |
| MotionFacts.FirstCheckpointEntersRoomAtStart | checkpoint/working1.js:286-298 | the first checkpoint enters a containing room at its start, heading forward |
| MotionFacts.StartStarts | dump.js:1171-1193 | starting turns the run on, requests a frame and rebuilds the rooms (and, in the reference engine, resets the recording) |
| MotionFacts.PlaceKeepsRun | dump.js:597-646 | placement changes only the course (and room dots) |
| MotionFacts.StopStops | dump.js:1194-1198 | stopping turns the run (and the reference recorder) off and changes nothing else |
| MotionFacts.ResetClearsBlocks | dump.js:1201-1215 | the reset button leaves no dot blocked and the mover in place; in the reference engine it also clears hazards, recording, replay and follower |
| MotionFacts.HazardLandsInArea | dump.js:1441-1454 | a dropped hazard is clamped into the map area before its square is blocked |
| MotionFacts.DragOnlyWhenStopped | dump.js:1222-1239 | dragging moves the mover only while stopped and changes nothing else |
| MotionFacts.ReplayVisitsInOrder | dump.js:989-1015 | once started, the follower visits the replay points in order, one per due frame |
| MotionFacts.ReplayStopsAfterLastPoint | dump.js:997-1003 | after the last point the next due frame stops and rewinds the replay, the follower on the last point |
| MotionFacts.FollowNeedsCompletedRun | dump.js:1131-1136 | without a completed run the follow button does nothing |
| DotLoops.BuildSegmentDots | dump.js:186-229 | the dot loop of one segment builds exactly the specified row |
| DotLoops.CreateDotsForAllSegments | dump.js:174-230 | the segment loop builds exactly the specified grid |
| DotLoops.BuildRoomDots | dump.js:248-273 | the dot loop of one room builds exactly the specified row |
| DotLoops.CreateRoomDotsForPaths | dump.js:233-275 | the room loop builds exactly the specified room grid |
| DotLoops.HandleTrailForSegment | dump.js:332-345 | the dot loop toggles exactly the specified range |
| DotLoops.HandleTrailCrossings | dump.js:348-372 | the crossing split gives exactly the specified sweep |
| DotLoops.MarkNearbyMainDots | dump.js:377-392 | the nested loop gives exactly the specified proximity marking |
| DotLoops.MarkNearbyRoomDots | dump.js:398-420 | the nested loop gives exactly the specified room marking |
| DotLoops.MarkRoomSweep | dump.js:666-677 | the room-dot loop gives exactly the specified range marking |
| DotLoops.ResetAllBlocksInPlace | dump.js:476-491 | the loop gives exactly the specified reset |
| DotLoops.PlaceHazardAtPoint | dump.js:1411-1436 | the loop gives exactly the specified hazard placement |
| DotLoops.ResetHazardsInPlace | dump.js:1475-1498 | the loop gives exactly the specified hazard reset |
| Simulation.BuildRoomPaths | dump.js:78-133 | the loop over the table builds exactly the specified rooms |
| Simulation.ReachedFinish | dump.js:827-838 | the finish loop answers exactly whether a marker lies within 12 |
| Simulation.ClosestDot | dump.js:772-781 | the loop returns exactly the specified landing dot |
| Simulation.LightLandingDot | dump.js:772-783 | the landing dot is lit as specified |
| Simulation.SnapToFinish | checkpoint/working1.js:325-338 | the finish loop returns exactly the specified snap target |
| Simulation.Engine.constructor | dump.js:1248-1253 | the engine starts in the page-load state and the invariant holds |
| Simulation.Engine.AnimateMainStep | dump.js:811-913 | the fields are updated to exactly the main frame's new state, invariant kept |
| Simulation.Engine.AdvanceMain | dump.js:825-913 | sweep, finish test, block test and move update the fields as specified |
| Simulation.Engine.MoveOn | dump.js:862-913 | the block test and the move update the fields as specified |
| Simulation.Engine.MoveOrTurn | dump.js:862-899 | reports a hit exactly when a blocked dot lies ahead, and returns the specified course |
| Simulation.Engine.CommitMove | dump.js:884-899 | the free move returns the committed course |
| Simulation.Engine.AnimateRoomStep | dump.js:651-722 | the fields are updated to exactly the room frame's new state |
| Simulation.Engine.AdvanceInRoom | dump.js:664-722 | the room sweep then the walk or the exit, as specified |
| Simulation.Engine.ExitRoom | dump.js:679-706 | the room exit updates the fields as specified |
| Simulation.Engine.WalkInRoom | dump.js:708-721 | the in-room walk updates the fields as specified |
| Simulation.Engine.JoinNearest | dump.js:682-705 | the route join returns the specified course |
| Simulation.Engine.AnimateRoomStepW1 | checkpoint/working1.js:354-397 | the first checkpoint's room frame, as specified |
| Simulation.Engine.AnimateTransitionStep | dump.js:728-805 | the fields are updated to exactly the transition frame's new state |
| Simulation.Engine.Trace | dump.js:745-751 | records and marks as specified |
| Simulation.Engine.AdvanceLeg | dump.js:737-804 | walking the current leg updates the fields as specified |
| Simulation.Engine.LandOnRoute | dump.js:754-787 | landing updates the fields as specified |
| Simulation.Engine.AnimateStep | dump.js:916-925 | `animateStep` updates the fields as specified |
| Simulation.Engine.Frame | dump.js:916-925 | a display frame runs a requested `animateStep` |
| Simulation.Engine.PlaceRatAtNearest | dump.js:597-646 | placement updates the fields as specified |
| Simulation.Engine.PlaceNearRoute | dump.js:623-645 | placement outside rooms returns the specified course |
| Simulation.Engine.PlaceRatAtNearestW1 | checkpoint/working1.js:277-351 | the first checkpoint's placement, as specified |
| Simulation.Engine.PlaceFirstCheckpoint | checkpoint/working1.js:286-350 | returns the first checkpoint's placed course |
| Simulation.Engine.Toggle | dump.js:1171-1198 | the start/stop button updates the fields as specified |
| Simulation.Engine.Rebuild | dump.js:1175-1187 | the rebuild at start, as specified |
| Simulation.Engine.Launch | dump.js:1189-1193 | placement, normalisation and frame request, as specified |
| Simulation.Engine.ResetHazardDots | dump.js:1475-1498 | the hazard reset, as specified |
| Simulation.Engine.Reset | dump.js:1201-1215 | the reset button, as specified |
| Simulation.Engine.PlaceHazardAt | dump.js:1391-1437 | hazard placement, as specified |
| Simulation.Engine.ClickDot | dump.js:449-474 | a dot click toggles its block, as specified |
| Simulation.Engine.ClearHit | dump.js:868-880 | the delayed clear, as specified |
| Simulation.Engine.DragTo | dump.js:1232-1239 | dragging, as specified |
| Simulation.Engine.PressFollow | dump.js:1131-1167 | the follow button, as specified |
| Simulation.Engine.PlaybackStep | dump.js:989-1015 | one replay frame, as specified |

## Left out

- The DOM is not modelled. Element rectangles come from a `Page` function (selector to rectangle); the mover's centre is a field rather than a rectangle read back; labels, colours, opacity, icons, text outputs and console messages are not modelled.
- `requestAnimationFrame` is modelled as a count of requested frames (`frames`) and `Motion.Tick`; a handler that requests a frame increments it.
- The one-second `setTimeout` that unblocks a dot the mover ran into is the separate operation `ClearHit`, which the environment may call at any later point.
- The replay's 100 ms timing is a `due` flag on each replay frame; timestamps are not modelled.
- `Math.random` (the follower's picture), the WebSocket broadcast of the follower position and the server are not modelled; `server.js`, `adminjs.js`, `icons.js` and `try11-icons-init.js` are not part of this model.
- Floating point is not modelled: coordinates are reals, `Math.hypot` is a parameter, and the 1e-9 and 1e-6 tolerances in the trail range and compaction tests are dropped (exact comparisons).
- The main frame divides by the length of the neighbour segment in the direction of travel (for backward moves, the previous segment) while the ratio is measured on the current segment; this is modelled as written, not corrected.
- Hazard icons, drag-and-drop of icon cards and the selection of an icon are not modelled; a drop or click on the map is `PlaceHazardAt` with the point.
- `createFinishMarkers` only draws; the finish markers are the constant lists `Finishes` and `FinishesW1`.
- The engine holds the page's variables grouped as the `Course`, `Recorder` and `Follow` records, so one handler's update of several variables is one field assignment.
- Concurrency between handlers is not modelled: each handler runs to completion.
- Motion.Place: in the reference engine it applies the corrected room marking `Trail.PlacementRoomMark`, lighting the room dots within 10 of the projected point; as written, the call at dump.js:618 lights none (see "## Findings"), so a room dot just behind the entry point, which the room frame never reaches, stays unlit in the program but is lit in the model, and the fallback replay list can differ accordingly.
- Simulation.Engine.PlaceRatAtNearest: applies the corrected room marking in the reference engine, as `Motion.Place` does.
- Motion.Launch: places the mover through `Motion.Place`, so it inherits the corrected room marking.
- Motion.StartStop: starting goes through `Motion.Launch`, so it inherits the corrected room marking.
- Simulation.Engine.Launch: places the mover through `PlaceRatAtNearest`, so it inherits the corrected room marking.
- Simulation.Engine.Toggle: starting goes through `Simulation.Engine.Launch`, so it inherits the corrected room marking.
- Motion.FinishRun: assumes the page defines `fadeSpeed` and an element `#hide` (dump.js:845-846), which no script of the repository declares. Without them the finish branch throws after `moving`, `recording` and `trailComplete` are set and before `buildPlaybackTrailFromRecorded` runs, leaving the replay list as it was; MotionFacts.FinishEndsRun, which builds a replay list at every finish, holds under the same assumption.
- MotionFacts.FinishEndsRun: holds only when the page supplies `fadeSpeed` and `#hide`, as stated for `Motion.FinishRun`.
- Motion.Drag: the program checks `moving` only when a drag starts (dump.js:1223); mouse moves of a drag already under way keep moving the mover even after it starts running. The model checks it on every move step.
- Simulation.Engine.DragTo: checks `moving` on every move step, as `Motion.Drag` does.
- Motion.PlaybackFrame: assumes the broadcast of the follower position returns normally. As written, `broadcastFollowerPosition` (dump.js:1265-1273) reads `povWs`, whose declaration is commented out (dump.js:40-42), so every due frame that shows a point throws a ReferenceError before `playbackIdx++` and before the next frame is requested; in the program the follower stops on the first replay point and `followActive` stays true.
- Simulation.Engine.PlaybackStep: makes the same assumption as `Motion.PlaybackFrame` about the broadcast.
- MotionFacts.ReplayVisitsInOrder: holds under that assumption; in the program as written the follower never passes the first replay point.

## Findings

| source | as written | input that shows it | evidently intended | confidence | as-written member | corrected member |
|---|---|---|---|---|---|---|
| dump.js:618 | `markNearbyRoomDots(proj, 10)` passes the projection object `{t, px, py}`, whose `left` and `top` are undefined, so every coordinate test compares NaN and no room dot is lit | the mover placed inside a room's area within 10 of a room dot whose parameter lies below the entry parameter (the dot just behind the entry point): the call lights nothing, and the room frames, which mark ranges from the entry parameter upward, never reach that dot, so it stays unlit where the intended call lights it | light the room dots within 10 of the projected point `(px, py)` | not executed | Trail.PlacementRoomMarkAsWritten | Trail.PlacementRoomMark |
