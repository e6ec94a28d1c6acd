/**
 * Blocking and hazards. A blocked main dot stops the mover, which turns
 * back; the user toggles single dots, a hazard blocks every main dot inside
 * a 50 x 50 square, and two reset operations clear blocks.
 */
module Blocking {
  import opened Wrappers
  import opened Geometry
  import opened Waypoints
  import opened Trail

  /** Whether dot `k` of a row of `count` dots blocks the range between the two ratios (t recomputed from the index). */
  predicate BlocksRange(row: seq<Dot>, k: nat, rCurr: real, rNext: real)
    requires k < |row|
  {
    InSpan(DotT(k, |row|), rCurr, rNext) && row[k].blocked
  }

  /** The first index at or after `i` that blocks the range. */
  function FirstBlockedFrom(row: seq<Dot>, rCurr: real, rNext: real, i: nat): (r: Option<nat>)
    requires i <= |row|
    ensures r.Some? ==> i <= r.value < |row| && BlocksRange(row, r.value, rCurr, rNext)
    ensures forall j :: i <= j < |row| && (r.None? || j < r.value) ==> !BlocksRange(row, j, rCurr, rNext)
    decreases |row| - i
  {
    if i == |row| then None
    else if BlocksRange(row, i, rCurr, rNext) then Some(i)
    else FirstBlockedFrom(row, rCurr, rNext, i + 1)
  }

  /**
   * `blockedDotBetween`: the lowest-index blocked dot of segment `seg` whose
   * parameter lies between the two ratios, or none (also none for a segment
   * index out of range). Only segment `seg` is inspected.
   */
  function BlockedDotBetween(dots: Grid, seg: int, rCurr: real, rNext: real): (r: Option<nat>)
    ensures !(0 <= seg < |dots|) ==> r.None?
    ensures r.Some? ==> 0 <= seg < |dots| && r.value < |dots[seg]| && BlocksRange(dots[seg], r.value, rCurr, rNext)
    ensures 0 <= seg < |dots| ==>
      forall j :: 0 <= j < |dots[seg]| && (r.None? || j < r.value) ==> !BlocksRange(dots[seg], j, rCurr, rNext)
  {
    if seg < 0 || seg >= |dots| then None else FirstBlockedFrom(dots[seg], rCurr, rNext, 0)
  }

  /** The same query as a scan with early exit. */
  method FindBlockedDotBetween(dots: Grid, seg: int, rCurr: real, rNext: real) returns (r: Option<nat>)
    ensures r == BlockedDotBetween(dots, seg, rCurr, rNext)
  {
    if seg < 0 || seg >= |dots| {
      return None;
    }
    var row := dots[seg];
    var low, high := Min(rCurr, rNext), Max(rCurr, rNext);
    var i := 0;
    while i < |row|
      invariant 0 <= i <= |row|
      invariant FirstBlockedFrom(row, rCurr, rNext, i) == FirstBlockedFrom(row, rCurr, rNext, 0)
    {
      var t := if |row| == 1 then 0.0 else i as real / (|row| - 1) as real;
      if low <= t && t <= high && row[i].blocked {
        return Some(i);
      }
      i := i + 1;
    }
    return None;
  }

  /** `toggleDotBlocked`: flips one dot's blocked flag; a missing dot changes nothing. */
  function ToggleDotBlocked(dots: Grid, seg: int, idx: int): (r: Grid)
    ensures |r| == |dots| && forall s :: 0 <= s < |dots| ==> |r[s]| == |dots[s]|
    ensures !(0 <= seg < |dots| && 0 <= idx < |dots[seg]|) ==> r == dots
    ensures forall s, k :: 0 <= s < |dots| && 0 <= k < |dots[s]| ==>
      r[s][k].(blocked := dots[s][k].blocked) == dots[s][k] &&
      r[s][k].blocked == (dots[s][k].blocked != (s == seg && k == idx))
  {
    if 0 <= seg < |dots| && 0 <= idx < |dots[seg]| then
      dots[seg := dots[seg][idx := dots[seg][idx].(blocked := !dots[seg][idx].blocked)]]
    else dots
  }

  /** Toggling the same dot twice restores the grid. */
  lemma ToggleDotBlockedTwice(dots: Grid, seg: int, idx: int)
    ensures ToggleDotBlocked(ToggleDotBlocked(dots, seg, idx), seg, idx) == dots
  {
    var once := ToggleDotBlocked(dots, seg, idx);
    var twice := ToggleDotBlocked(once, seg, idx);
    forall s | 0 <= s < |dots|
      ensures twice[s] == dots[s]
    {
      forall k | 0 <= k < |dots[s]|
        ensures twice[s][k] == dots[s][k]
      {
      }
    }
  }

  /** `resetAllBlocks`: every main dot unblocked, trail flags and positions kept. */
  function ResetAllBlocks(dots: Grid): (r: Grid)
    ensures |r| == |dots| && forall s :: 0 <= s < |dots| ==> |r[s]| == |dots[s]|
    ensures forall s, k :: 0 <= s < |dots| && 0 <= k < |dots[s]| ==>
      !r[s][k].blocked && r[s][k] == dots[s][k].(blocked := false)
  {
    seq(|dots|, s requires 0 <= s < |dots| =>
      seq(|dots[s]|, k requires 0 <= k < |dots[s]| => dots[s][k].(blocked := false)))
  }

  /**
   * The delayed clearing of a dot the mover ran into: one dot unblocked,
   * everything else kept; a missing dot changes nothing.
   */
  function ClearBlocked(dots: Grid, seg: int, idx: int): (r: Grid)
    ensures |r| == |dots| && forall s :: 0 <= s < |dots| ==> |r[s]| == |dots[s]|
    ensures forall s, k :: 0 <= s < |dots| && 0 <= k < |dots[s]| ==>
      r[s][k] == if s == seg && k == idx then dots[s][k].(blocked := false) else dots[s][k]
  {
    if 0 <= seg < |dots| && 0 <= idx < |dots[seg]| then
      dots[seg := dots[seg][idx := dots[seg][idx].(blocked := false)]]
    else dots
  }

  /** Clearing is idempotent. */
  lemma ClearBlockedIdempotent(dots: Grid, seg: int, idx: int)
    ensures ClearBlocked(ClearBlocked(dots, seg, idx), seg, idx) == ClearBlocked(dots, seg, idx)
  {
    var once := ClearBlocked(dots, seg, idx);
    var twice := ClearBlocked(once, seg, idx);
    forall s | 0 <= s < |dots|
      ensures twice[s] == once[s]
    {
    }
  }

  // ---------------------------------------------------------------------
  // Hazards
  // ---------------------------------------------------------------------

  const HAZARD_AREA: real := 50.0
  const HAZARD_HALF: real := HAZARD_AREA / 2.0

  /** The position of a main dot in the grid. */
  datatype DotId = DotId(seg: int, idx: int)

  /** Whether a dot's centre lies in the closed 50 x 50 square centred on `c`. */
  predicate InSquare(c: Point, d: Dot)
  {
    var left := c.left - HAZARD_HALF;
    var top := c.top - HAZARD_HALF;
    left <= d.x <= left + HAZARD_AREA && top <= d.y <= top + HAZARD_AREA
  }

  /** The square test is the centred box of half-width 25. */
  lemma InSquareIsCentred(c: Point, d: Dot)
    ensures InSquare(c, d) <==> Abs(d.x - c.left) <= 25.0 && Abs(d.y - c.top) <= 25.0
  {
  }

  /** The dots a hazard at `c` blocks. */
  function BlockSquare(dots: Grid, c: Point): (r: Grid)
    ensures |r| == |dots| && forall s :: 0 <= s < |dots| ==> |r[s]| == |dots[s]|
    ensures forall s, k :: 0 <= s < |dots| && 0 <= k < |dots[s]| ==>
      r[s][k].(blocked := dots[s][k].blocked) == dots[s][k] &&
      r[s][k].blocked == (dots[s][k].blocked || InSquare(c, dots[s][k]))
  {
    seq(|dots|, s requires 0 <= s < |dots| =>
      seq(|dots[s]|, k requires 0 <= k < |dots[s]| =>
        if InSquare(c, dots[s][k]) then dots[s][k].(blocked := true) else dots[s][k]))
  }

  /** The identities of the dots inside the square: what the hazard set gains. */
  function SquareIds(dots: Grid, c: Point): (ids: set<DotId>)
    ensures forall id :: id in ids <==>
      0 <= id.seg < |dots| && 0 <= id.idx < |dots[id.seg]| && InSquare(c, dots[id.seg][id.idx])
  {
    set s, k | 0 <= s < |dots| && 0 <= k < |dots[s]| && InSquare(c, dots[s][k]) :: DotId(s, k)
  }

  /** Hazard bookkeeping: the main dots and the set of dots hazards have blocked. */
  datatype Hazards = Hazards(dots: Grid, tracked: set<DotId>)

  /**
   * `placeHazardAtPoint` at an already clamped point: the grid is built
   * first when it is empty, then every dot in the square is blocked and
   * tracked; room dots and trail flags are not touched.
   */
  function PlaceHazard(h: Hazards, built: Grid, c: Point): (r: Hazards)
    ensures var base := if |h.dots| == 0 then built else h.dots;
      r.dots == BlockSquare(base, c) && r.tracked == h.tracked + SquareIds(base, c)
  {
    var base := if |h.dots| == 0 then built else h.dots;
    Hazards(BlockSquare(base, c), h.tracked + SquareIds(base, c))
  }

  /** The reset of hazards: unblocks exactly the tracked dots, then forgets them. */
  function ResetHazards(h: Hazards): (r: Hazards)
    ensures r.tracked == {}
    ensures |r.dots| == |h.dots| && forall s :: 0 <= s < |h.dots| ==> |r.dots[s]| == |h.dots[s]|
    ensures forall s, k :: 0 <= s < |h.dots| && 0 <= k < |h.dots[s]| ==>
      r.dots[s][k] == if DotId(s, k) in h.tracked then h.dots[s][k].(blocked := false) else h.dots[s][k]
  {
    var dots := h.dots;
    Hazards(
      seq(|dots|, s requires 0 <= s < |dots| =>
        seq(|dots[s]|, k requires 0 <= k < |dots[s]| =>
          if DotId(s, k) in h.tracked then dots[s][k].(blocked := false) else dots[s][k])),
      {})
  }

  /** No dot of the grid is blocked. */
  predicate NoneBlocked(dots: Grid)
  {
    forall s, k :: 0 <= s < |dots| && 0 <= k < |dots[s]| ==> !dots[s][k].blocked
  }

  /**
   * Placing hazards on a grid without blocks and then resetting them gives
   * the grid back: a hazard's blocks are exactly the ones the reset clears.
   */
  lemma HazardResetUndoesPlacement(dots: Grid, built: Grid, c1: Point, c2: Point)
    requires |dots| > 0 && NoneBlocked(dots)
    ensures var h1 := PlaceHazard(Hazards(dots, {}), built, c1);
      ResetHazards(PlaceHazard(h1, built, c2)) == Hazards(dots, {})
  {
    var h1 := PlaceHazard(Hazards(dots, {}), built, c1);
    var h2 := PlaceHazard(h1, built, c2);
    var r := ResetHazards(h2);
    forall s | 0 <= s < |dots|
      ensures r.dots[s] == dots[s]
    {
      forall k | 0 <= k < |dots[s]|
        ensures r.dots[s][k] == dots[s][k]
      {
        assert h1.dots[s][k].x == dots[s][k].x && h1.dots[s][k].y == dots[s][k].y;
        if h2.dots[s][k].blocked {
          assert InSquare(c1, dots[s][k]) || InSquare(c2, h1.dots[s][k]);
          assert DotId(s, k) in h2.tracked;
        }
      }
    }
  }

  /** A reset of everything clears hazard blocks as well: afterwards no dot is blocked. */
  lemma ResetAllBlocksClearsAll(dots: Grid)
    ensures NoneBlocked(ResetAllBlocks(dots))
    ensures ResetAllBlocks(ResetAllBlocks(dots)) == ResetAllBlocks(dots)
  {
    var once := ResetAllBlocks(dots);
    var twice := ResetAllBlocks(once);
    forall s | 0 <= s < |dots|
      ensures twice[s] == once[s]
    {
    }
  }
}
