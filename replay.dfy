/**
 * Recorder and replay. While the simulation runs, the mover's positions are
 * recorded with a minimum spacing; at the finish they are mapped to the
 * nearest lit waypoints, giving the de-duplicated list a follower replays.
 */
module Replay {
  import opened Wrappers
  import opened Geometry
  import opened Waypoints
  import opened Trail

  /** `RECORD_SPACING` (6), squared. */
  const RECORD_SPACING2: real := 36.0
  /** The default search radius of `findNearestDotMeta` (14), squared. */
  const SNAP_RADIUS2: real := 196.0

  // ---------------------------------------------------------------------
  // Recorder
  // ---------------------------------------------------------------------

  /** Consecutive samples are at least 6 apart. */
  predicate Spaced(samples: seq<Point>)
  {
    forall i :: 0 < i < |samples| ==> Dist2(samples[i - 1], samples[i]) >= RECORD_SPACING2
  }

  /**
   * `recordTrailPoint`: nothing while not recording; the first sample is
   * always kept, a later one only when it is at least 6 from the last.
   */
  function RecordTrailPoint(recording: bool, samples: seq<Point>, pt: Point): (r: seq<Point>)
    ensures !recording ==> r == samples
    ensures recording && samples == [] ==> r == [pt]
    ensures recording && samples != [] ==>
      (r == samples + [pt] <==> Dist2(samples[|samples| - 1], pt) >= RECORD_SPACING2) &&
      (r != samples + [pt] ==> r == samples)
    ensures Spaced(samples) ==> Spaced(r)
  {
    if !recording then samples
    else if samples == [] then [pt]
    else if Dist2(samples[|samples| - 1], pt) >= RECORD_SPACING2 then samples + [pt]
    else samples
  }

  /** Recording a whole run of positions from an empty record gives a spaced record. */
  function RecordAll(recording: bool, samples: seq<Point>, pts: seq<Point>): (r: seq<Point>)
    decreases |pts|
  {
    if pts == [] then samples else RecordAll(recording, RecordTrailPoint(recording, samples, pts[0]), pts[1..])
  }

  /** The recorder only ever appends, and keeps the spacing of what it holds. */
  lemma {:induction false} RecordAllKeepsSpacing(recording: bool, samples: seq<Point>, pts: seq<Point>)
    requires Spaced(samples)
    ensures var r := RecordAll(recording, samples, pts);
      Spaced(r) && samples <= r && |r| <= |samples| + |pts|
    decreases |pts|
  {
    if pts != [] {
      var next := RecordTrailPoint(recording, samples, pts[0]);
      RecordAllKeepsSpacing(recording, next, pts[1..]);
    }
  }

  // ---------------------------------------------------------------------
  // Nearest dot
  // ---------------------------------------------------------------------

  /** A dot's identity: a main dot by segment and index, a room dot by room and index. */
  datatype DotRef = MainRef(seg: nat, idx: nat) | RoomRef(room: nat, idx: nat)

  /** A dot as `findNearestDotMeta` sees it. */
  datatype Cand = Cand(ref: DotRef, pos: Point, trail: bool)

  function MainRow(s: nat, row: seq<Dot>): (cs: seq<Cand>)
    ensures |cs| == |row|
  {
    seq(|row|, i requires 0 <= i < |row| => Cand(MainRef(s, i), row[i].Pos(), row[i].trail))
  }

  function RoomRow(ri: nat, row: seq<RoomDot>): (cs: seq<Cand>)
    ensures |cs| == |row|
  {
    seq(|row|, i requires 0 <= i < |row| => Cand(RoomRef(ri, i), row[i].Pos(), row[i].trail))
  }

  /** The main dots in scan order: segment by segment, dot by dot. */
  function MainCands(dots: Grid): seq<Cand>
  {
    if dots == [] then [] else MainCands(dots[..|dots| - 1]) + MainRow(|dots| - 1, dots[|dots| - 1])
  }

  /** The room dots in scan order. */
  function RoomCands(roomDots: RoomGrid): seq<Cand>
  {
    if roomDots == [] then [] else RoomCands(roomDots[..|roomDots| - 1]) + RoomRow(|roomDots| - 1, roomDots[|roomDots| - 1])
  }

  /** Every main candidate is the dot its reference names. */
  lemma {:induction false} MainCandsAreDots(dots: Grid)
    ensures forall c :: c in MainCands(dots) ==>
      c.ref.MainRef? && c.ref.seg < |dots| && c.ref.idx < |dots[c.ref.seg]| &&
      c.pos == dots[c.ref.seg][c.ref.idx].Pos() && c.trail == dots[c.ref.seg][c.ref.idx].trail
    decreases |dots|
  {
    if dots != [] {
      MainCandsAreDots(dots[..|dots| - 1]);
    }
  }

  /** Every room candidate is the room dot its reference names. */
  lemma {:induction false} RoomCandsAreDots(roomDots: RoomGrid)
    ensures forall c :: c in RoomCands(roomDots) ==>
      c.ref.RoomRef? && c.ref.room < |roomDots| && c.ref.idx < |roomDots[c.ref.room]| &&
      c.pos == roomDots[c.ref.room][c.ref.idx].Pos() && c.trail == roomDots[c.ref.room][c.ref.idx].trail
    decreases |roomDots|
  {
    if roomDots != [] {
      RoomCandsAreDots(roomDots[..|roomDots| - 1]);
    }
  }

  /** Every candidate, main dots first: the order `findNearestDotMeta` searches in. */
  function AllCands(dots: Grid, roomDots: RoomGrid): seq<Cand>
  {
    MainCands(dots) + RoomCands(roomDots)
  }

  /** The candidate `findNearestDotMeta` picks among `cs`: the running best is replaced only by a strictly nearer one within the radius. */
  function NearestOf(cs: seq<Cand>, p: Point): (r: Option<nat>)
    ensures r.Some? ==> r.value < |cs|
  {
    if cs == [] then None
    else
      var n := |cs| - 1;
      var prev := NearestOf(cs[..n], p);
      var dd := Dist2(cs[n].pos, p);
      if dd <= SNAP_RADIUS2 && (prev.None? || dd < Dist2(cs[prev.value].pos, p)) then Some(n) else prev
  }

  /**
   * What the scan finds: a candidate within the radius, strictly nearer than
   * every earlier candidate and no farther than any later one; nothing when
   * every candidate lies outside the radius.
   */
  lemma {:induction false} NearestOfIsFirstNearest(cs: seq<Cand>, p: Point)
    ensures var r := NearestOf(cs, p);
      (r.None? <==> forall i :: 0 <= i < |cs| ==> Dist2(cs[i].pos, p) > SNAP_RADIUS2) &&
      (r.Some? ==>
        Dist2(cs[r.value].pos, p) <= SNAP_RADIUS2 &&
        (forall i :: 0 <= i < r.value ==> Dist2(cs[i].pos, p) > Dist2(cs[r.value].pos, p)) &&
        (forall i :: r.value < i < |cs| ==> Dist2(cs[i].pos, p) >= Dist2(cs[r.value].pos, p)))
    decreases |cs|
  {
    if cs != [] {
      var n := |cs| - 1;
      NearestOfIsFirstNearest(cs[..n], p);
      assert forall i :: 0 <= i < n ==> cs[..n][i] == cs[i];
    }
  }

  /** The nearest dot to `p` as a candidate, if any. */
  function NearestDot(cs: seq<Cand>, p: Point): Option<Cand>
  {
    var r := NearestOf(cs, p);
    if r.Some? then Some(cs[r.value]) else None
  }

  /** One more candidate: the running best is replaced only by a strictly nearer dot within the radius. */
  lemma NearestDotSnoc(seen: seq<Cand>, c: Cand, p: Point, best: Option<Cand>, bestD: real)
    requires best == NearestDot(seen, p) && (best.Some? ==> bestD == Dist2(best.value.pos, p))
    ensures NearestDot(seen + [c], p) ==
      if (best.None? || Dist2(c.pos, p) < bestD) && Dist2(c.pos, p) <= SNAP_RADIUS2 then Some(c) else best
  {
    var cs := seen + [c];
    assert cs[..|cs| - 1] == seen;
  }

  /** The scan of one row of main dots, continuing from the best dot so far. */
  method ScanMainRow(s: nat, row: seq<Dot>, p: Point, ghost before: seq<Cand>, best0: Option<Cand>, bestD0: real)
    returns (best: Option<Cand>, bestD: real)
    requires best0 == NearestDot(before, p) && (best0.Some? ==> bestD0 == Dist2(best0.value.pos, p))
    ensures best == NearestDot(before + MainRow(s, row), p) && (best.Some? ==> bestD == Dist2(best.value.pos, p))
  {
    best, bestD := best0, bestD0;
    var i := 0;
    assert before + MainRow(s, row[..i]) == before;
    while i < |row|
      invariant 0 <= i <= |row|
      invariant best == NearestDot(before + MainRow(s, row[..i]), p)
      invariant best.Some? ==> bestD == Dist2(best.value.pos, p)
    {
      var d := row[i];
      var dd := Dist2(d.Pos(), p);
      var c := Cand(MainRef(s, i), d.Pos(), d.trail);
      MainRowSnoc(s, row, before, i);
      NearestDotSnoc(before + MainRow(s, row[..i]), c, p, best, bestD);
      if (best.None? || dd < bestD) && dd <= SNAP_RADIUS2 {
        best, bestD := Some(c), dd;
      }
      i := i + 1;
    }
    assert row[..i] == row;
  }

  /** The scan of one row of room dots, continuing from the best dot so far. */
  method ScanRoomRow(ri: nat, row: seq<RoomDot>, p: Point, ghost before: seq<Cand>, best0: Option<Cand>, bestD0: real)
    returns (best: Option<Cand>, bestD: real)
    requires best0 == NearestDot(before, p) && (best0.Some? ==> bestD0 == Dist2(best0.value.pos, p))
    ensures best == NearestDot(before + RoomRow(ri, row), p) && (best.Some? ==> bestD == Dist2(best.value.pos, p))
  {
    best, bestD := best0, bestD0;
    var j := 0;
    assert before + RoomRow(ri, row[..j]) == before;
    while j < |row|
      invariant 0 <= j <= |row|
      invariant best == NearestDot(before + RoomRow(ri, row[..j]), p)
      invariant best.Some? ==> bestD == Dist2(best.value.pos, p)
    {
      var d := row[j];
      var dd := Dist2(d.Pos(), p);
      var c := Cand(RoomRef(ri, j), d.Pos(), d.trail);
      RoomRowSnoc(ri, row, before, j);
      NearestDotSnoc(before + RoomRow(ri, row[..j]), c, p, best, bestD);
      if (best.None? || dd < bestD) && dd <= SNAP_RADIUS2 {
        best, bestD := Some(c), dd;
      }
      j := j + 1;
    }
    assert row[..j] == row;
  }

  /** `findNearestDotMeta`'s scan of the main dots, segment by segment. */
  method ScanMainDots(dots: Grid, p: Point) returns (best: Option<Cand>, bestD: real)
    ensures best == NearestDot(MainCands(dots), p) && (best.Some? ==> bestD == Dist2(best.value.pos, p))
  {
    best, bestD := None, 0.0;
    var s := 0;
    while s < |dots|
      invariant 0 <= s <= |dots|
      invariant best == NearestDot(MainCands(dots[..s]), p) && (best.Some? ==> bestD == Dist2(best.value.pos, p))
    {
      assert dots[..s + 1][..s] == dots[..s];
      best, bestD := ScanMainRow(s, dots[s], p, MainCands(dots[..s]), best, bestD);
      s := s + 1;
    }
    assert dots[..s] == dots;
  }

  /** `findNearestDotMeta`'s scan of the room dots, continuing from the best main dot. */
  method ScanRoomDots(roomDots: RoomGrid, p: Point, ghost before: seq<Cand>, best0: Option<Cand>, bestD0: real)
    returns (best: Option<Cand>, bestD: real)
    requires best0 == NearestDot(before, p) && (best0.Some? ==> bestD0 == Dist2(best0.value.pos, p))
    ensures best == NearestDot(before + RoomCands(roomDots), p) && (best.Some? ==> bestD == Dist2(best.value.pos, p))
  {
    best, bestD := best0, bestD0;
    var ri := 0;
    assert before + RoomCands(roomDots[..ri]) == before;
    while ri < |roomDots|
      invariant 0 <= ri <= |roomDots|
      invariant best == NearestDot(before + RoomCands(roomDots[..ri]), p)
      invariant best.Some? ==> bestD == Dist2(best.value.pos, p)
    {
      assert roomDots[..ri + 1][..ri] == roomDots[..ri];
      assert before + RoomCands(roomDots[..ri + 1]) == (before + RoomCands(roomDots[..ri])) + RoomRow(ri, roomDots[ri]);
      best, bestD := ScanRoomRow(ri, roomDots[ri], p, before + RoomCands(roomDots[..ri]), best, bestD);
      ri := ri + 1;
    }
    assert roomDots[..ri] == roomDots;
  }

  /** `findNearestDotMeta`: main dots are searched before room dots, the first strict minimum wins. */
  method FindNearestDotMeta(dots: Grid, roomDots: RoomGrid, p: Point) returns (best: Option<Cand>)
    ensures best == NearestDot(AllCands(dots, roomDots), p)
  {
    var b, d := ScanMainDots(dots, p);
    best, d := ScanRoomDots(roomDots, p, MainCands(dots), b, d);
  }

  // ---------------------------------------------------------------------
  // Playback list
  // ---------------------------------------------------------------------

  /** The list being built and the identities already in it (`includedSet`). */
  datatype Collected = Collected(points: seq<Point>, included: set<DotRef>, refs: seq<DotRef>)

  /** One recorded sample: its nearest dot is added when lit and not yet included. */
  function CollectOne(acc: Collected, cs: seq<Cand>, p: Point): Collected
  {
    var n := NearestDot(cs, p);
    if n.None? || !n.value.trail || n.value.ref in acc.included then acc
    else Collected(acc.points + [n.value.pos], acc.included + {n.value.ref}, acc.refs + [n.value.ref])
  }

  /** The samples mapped in chronological order. */
  function Collect(recorded: seq<Point>, cs: seq<Cand>): Collected
  {
    if recorded == [] then Collected([], {}, [])
    else CollectOne(Collect(recorded[..|recorded| - 1], cs), cs, recorded[|recorded| - 1])
  }

  /** Some lit candidate has this reference and position. */
  predicate LitCand(cs: seq<Cand>, r: DotRef, q: Point)
  {
    exists c :: c in cs && c.trail && c.ref == r && c.pos == q
  }

  /** No reference twice; each point is the position of a lit candidate named by its reference. */
  predicate WellCollected(acc: Collected, cs: seq<Cand>)
  {
    |acc.points| == |acc.refs| &&
    (forall i, j :: 0 <= i < j < |acc.refs| ==> acc.refs[i] != acc.refs[j]) &&
    acc.included == (set r | r in acc.refs) &&
    (forall i :: 0 <= i < |acc.points| ==> LitCand(cs, acc.refs[i], acc.points[i]))
  }

  /** The mapping includes each lit dot at most once, and only lit dots. */
  lemma {:induction false} CollectIsWellFormed(recorded: seq<Point>, cs: seq<Cand>)
    ensures WellCollected(Collect(recorded, cs), cs)
    decreases |recorded|
  {
    if recorded != [] {
      var prev := Collect(recorded[..|recorded| - 1], cs);
      CollectIsWellFormed(recorded[..|recorded| - 1], cs);
      var p := recorded[|recorded| - 1];
      var n := NearestDot(cs, p);
      if !(n.None? || !n.value.trail || n.value.ref in prev.included) {
        var acc := Collect(recorded, cs);
        assert acc.refs == prev.refs + [n.value.ref] && acc.points == prev.points + [n.value.pos];
        var idx := NearestOf(cs, p).value;
        assert cs[idx] in cs;
        assert LitCand(cs, n.value.ref, n.value.pos);
        forall i | 0 <= i < |prev.refs|
          ensures prev.refs[i] != n.value.ref
        {
          assert prev.refs[i] in prev.refs;
        }
      }
    }
  }

  /**
   * Mapping more samples only appends: the list, its identities and the
   * included set of the first `i` samples are a prefix (a subset) of those
   * of all samples, so dots keep the order in which samples first reach them.
   */
  lemma {:induction false} CollectPrefix(recorded: seq<Point>, i: nat, cs: seq<Cand>)
    requires i <= |recorded|
    ensures var early := Collect(recorded[..i], cs);
      var late := Collect(recorded, cs);
      early.points <= late.points && early.refs <= late.refs && early.included <= late.included
    decreases |recorded|
  {
    if i < |recorded| {
      var n := |recorded| - 1;
      assert recorded[..n][..i] == recorded[..i];
      CollectPrefix(recorded[..n], i, cs);
    } else {
      assert recorded[..i] == recorded;
    }
  }

  /** Every sample whose nearest dot is lit has that dot among the mapped identities. */
  lemma {:induction false} CollectIsComplete(recorded: seq<Point>, cs: seq<Cand>)
    ensures forall i :: 0 <= i < |recorded| && NearestDot(cs, recorded[i]).Some? && NearestDot(cs, recorded[i]).value.trail ==>
      NearestDot(cs, recorded[i]).value.ref in Collect(recorded, cs).refs
    decreases |recorded|
  {
    if recorded != [] {
      var n := |recorded| - 1;
      var prev := Collect(recorded[..n], cs);
      var acc := Collect(recorded, cs);
      CollectIsComplete(recorded[..n], cs);
      CollectIsWellFormed(recorded[..n], cs);
      assert prev.refs <= acc.refs;
      forall i | 0 <= i < |recorded| && NearestDot(cs, recorded[i]).Some? && NearestDot(cs, recorded[i]).value.trail
        ensures NearestDot(cs, recorded[i]).value.ref in acc.refs
      {
        var r := NearestDot(cs, recorded[i]).value.ref;
        if i < n {
          assert recorded[..n][i] == recorded[i];
          assert r in prev.refs;
        } else if r in prev.included {
          assert r in prev.refs;
        }
      }
    }
  }

  /** Two candidates of the grids with the same identity stand at the same position. */
  lemma SameRefSamePos(dots: Grid, roomDots: RoomGrid, c: Cand, d: Cand)
    requires c in AllCands(dots, roomDots) && d in AllCands(dots, roomDots)
    requires c.ref == d.ref
    ensures c.pos == d.pos
  {
    MainCandsAreDots(dots);
    RoomCandsAreDots(roomDots);
  }

  /**
   * Completeness of the replay list: every sample whose nearest dot is lit
   * has that dot's position on the list.
   */
  lemma PlaybackHoldsMappedDots(recorded: seq<Point>, dots: Grid, roomDots: RoomGrid)
    ensures var cs := AllCands(dots, roomDots);
      forall i :: 0 <= i < |recorded| && NearestDot(cs, recorded[i]).Some? && NearestDot(cs, recorded[i]).value.trail ==>
        NearestDot(cs, recorded[i]).value.pos in BuildPlayback(recorded, dots, roomDots)
  {
    var cs := AllCands(dots, roomDots);
    var acc := Collect(recorded, cs);
    CollectIsComplete(recorded, cs);
    CollectIsWellFormed(recorded, cs);
    forall i | 0 <= i < |recorded| && NearestDot(cs, recorded[i]).Some? && NearestDot(cs, recorded[i]).value.trail
      ensures NearestDot(cs, recorded[i]).value.pos in BuildPlayback(recorded, dots, roomDots)
    {
      var nd := NearestDot(cs, recorded[i]).value;
      assert nd == cs[NearestOf(cs, recorded[i]).value];
      var k :| 0 <= k < |acc.refs| && acc.refs[k] == nd.ref;
      assert LitCand(cs, acc.refs[k], acc.points[k]);
      var c :| c in cs && c.trail && c.ref == acc.refs[k] && c.pos == acc.points[k];
      SameRefSamePos(dots, roomDots, c, nd);
      assert acc.points[k] in acc.points;
    }
  }

  /**
   * The fallback: the position of every lit candidate and nothing else,
   * in candidate order (the engine passes room candidates before main ones).
   */
  function LitPoints(cs: seq<Cand>): (pts: seq<Point>)
    ensures |pts| <= |cs|
    ensures forall q :: q in pts ==> exists c :: c in cs && c.trail && c.pos == q
    ensures forall c :: c in cs && c.trail ==> c.pos in pts
  {
    if cs == [] then []
    else
      var prev := LitPoints(cs[..|cs| - 1]);
      var c := cs[|cs| - 1];
      assert forall c' :: c' in cs[..|cs| - 1] ==> c' in cs;
      assert forall c' :: c' in cs ==> c' in cs[..|cs| - 1] || c' == c;
      if c.trail then prev + [c.pos] else prev
  }

  /**
   * Order of the fallback: the points of a concatenation are the points of
   * its first part followed by those of its second, so the lit room dots
   * come before the lit main dots, each group in scan order.
   */
  lemma {:induction false} LitPointsAppend(a: seq<Cand>, b: seq<Cand>)
    ensures LitPoints(a + b) == LitPoints(a) + LitPoints(b)
    decreases |b|
  {
    if b != [] {
      assert (a + b)[..|a + b| - 1] == a + b[..|b| - 1];
      LitPointsAppend(a, b[..|b| - 1]);
    } else {
      assert a + b == a;
    }
  }

  /** A single candidate contributes its position exactly when it is lit. */
  lemma LitPointsSingle(c: Cand)
    ensures LitPoints([c]) == if c.trail then [c.pos] else []
  {
    assert [c][..0] == [];
  }

  /** No two consecutive points are equal. */
  predicate NoAdjacentRepeats(pts: seq<Point>)
  {
    forall i :: 0 < i < |pts| ==> pts[i - 1] != pts[i]
  }

  /** Drops every point equal to the last point kept. */
  function Compact(pts: seq<Point>): (r: seq<Point>)
    ensures NoAdjacentRepeats(r)
    ensures |r| <= |pts| && (r == [] <==> pts == [])
    ensures forall q :: q in r <==> q in pts
    ensures pts != [] ==> r[|r| - 1] == pts[|pts| - 1]
  {
    if pts == [] then []
    else
      var prev := Compact(pts[..|pts| - 1]);
      var q := pts[|pts| - 1];
      assert forall x :: x in pts <==> x in pts[..|pts| - 1] || x == q;
      if prev != [] && prev[|prev| - 1] == q then prev else prev + [q]
  }

  /** The entries of `pts` that differ from the entry just before them; the first entry always stays. */
  function Kept(pts: seq<Point>): seq<Point>
  {
    if pts == [] then []
    else
      var n := |pts| - 1;
      Kept(pts[..n]) + (if n == 0 || pts[n - 1] != pts[n] then [pts[n]] else [])
  }

  /** Compaction removes exactly the entries equal to their predecessor and keeps the rest in order. */
  lemma {:induction false} CompactIsKept(pts: seq<Point>)
    ensures Compact(pts) == Kept(pts)
    decreases |pts|
  {
    if pts != [] {
      var n := |pts| - 1;
      var prev := Compact(pts[..n]);
      CompactIsKept(pts[..n]);
      assert Compact(pts) == if prev != [] && prev[|prev| - 1] == pts[n] then prev else prev + [pts[n]];
      assert Kept(pts) == Kept(pts[..n]) + (if n == 0 || pts[n - 1] != pts[n] then [pts[n]] else []);
      if n > 0 {
        assert prev != [] && prev[|prev| - 1] == pts[..n][n - 1] == pts[n - 1];
      } else {
        assert prev == [];
      }
    }
  }

  /** A list without adjacent repeats is left as it is. */
  lemma {:induction false} CompactKeepsRepeatFree(pts: seq<Point>)
    requires NoAdjacentRepeats(pts)
    ensures Compact(pts) == pts
    decreases |pts|
  {
    if pts != [] {
      CompactKeepsRepeatFree(pts[..|pts| - 1]);
    }
  }

  /**
   * `buildPlaybackTrailFromRecorded`: empty without samples; otherwise the
   * lit nearest dots in chronological order, or, when none maps, every lit
   * dot (room dots first); consecutive repeats removed.
   */
  function BuildPlayback(recorded: seq<Point>, dots: Grid, roomDots: RoomGrid): seq<Point>
  {
    if recorded == [] then []
    else
      var pts := Collect(recorded, AllCands(dots, roomDots)).points;
      Compact(if pts == [] then LitPoints(RoomCands(roomDots) + MainCands(dots)) else pts)
  }

  /** A lit candidate stands for a lit dot of one of the two grids. */
  predicate LitDotAt(dots: Grid, roomDots: RoomGrid, q: Point)
  {
    (exists s, k :: 0 <= s < |dots| && 0 <= k < |dots[s]| && dots[s][k].trail && dots[s][k].Pos() == q) ||
    (exists ri, j :: 0 <= ri < |roomDots| && 0 <= j < |roomDots[ri]| && roomDots[ri][j].trail && roomDots[ri][j].Pos() == q)
  }

  lemma LitCandIsLitDot(dots: Grid, roomDots: RoomGrid, c: Cand)
    requires c in MainCands(dots) || c in RoomCands(roomDots)
    requires c.trail
    ensures LitDotAt(dots, roomDots, c.pos)
  {
    MainCandsAreDots(dots);
    RoomCandsAreDots(roomDots);
    if c in MainCands(dots) {
      assert dots[c.ref.seg][c.ref.idx].Pos() == c.pos;
    } else {
      assert roomDots[c.ref.room][c.ref.idx].Pos() == c.pos;
    }
  }

  /** Every mapped point is a lit dot's position. */
  lemma CollectedAreLit(recorded: seq<Point>, dots: Grid, roomDots: RoomGrid)
    ensures forall q :: q in Collect(recorded, AllCands(dots, roomDots)).points ==> LitDotAt(dots, roomDots, q)
  {
    var cs := AllCands(dots, roomDots);
    var acc := Collect(recorded, cs);
    CollectIsWellFormed(recorded, cs);
    forall q | q in acc.points
      ensures LitDotAt(dots, roomDots, q)
    {
      var i :| 0 <= i < |acc.points| && acc.points[i] == q;
      assert WellCollected(acc, cs);
      assert LitCand(cs, acc.refs[i], acc.points[i]);
      var c :| c in cs && c.trail && c.ref == acc.refs[i] && c.pos == acc.points[i];
      LitCandIsLitDot(dots, roomDots, c);
    }
  }

  /** Every fallback point is a lit dot's position. */
  lemma FallbackIsLit(dots: Grid, roomDots: RoomGrid)
    ensures forall q :: q in LitPoints(RoomCands(roomDots) + MainCands(dots)) ==> LitDotAt(dots, roomDots, q)
  {
    forall q | q in LitPoints(RoomCands(roomDots) + MainCands(dots))
      ensures LitDotAt(dots, roomDots, q)
    {
      var c :| c in RoomCands(roomDots) + MainCands(dots) && c.trail && c.pos == q;
      LitCandIsLitDot(dots, roomDots, c);
    }
  }

  /**
   * The replay list never repeats a point twice in a row, is empty without
   * samples, and every point on it is the position of a lit waypoint.
   */
  lemma PlaybackIsLitAndCompact(recorded: seq<Point>, dots: Grid, roomDots: RoomGrid)
    ensures var pl := BuildPlayback(recorded, dots, roomDots);
      NoAdjacentRepeats(pl) && (recorded == [] ==> pl == []) &&
      forall q :: q in pl ==> LitDotAt(dots, roomDots, q)
  {
    CollectedAreLit(recorded, dots, roomDots);
    FallbackIsLit(dots, roomDots);
  }

  /** The mapped points carry no dot twice. */
  lemma PlaybackRefsDistinct(recorded: seq<Point>, dots: Grid, roomDots: RoomGrid)
    ensures var acc := Collect(recorded, AllCands(dots, roomDots));
      |acc.points| == |acc.refs| && forall i, j :: 0 <= i < j < |acc.refs| ==> acc.refs[i] != acc.refs[j]
  {
    CollectIsWellFormed(recorded, AllCands(dots, roomDots));
  }

  /** Appending one candidate to the fallback scan. */
  lemma LitPointsSnoc(cs: seq<Cand>, c: Cand)
    ensures LitPoints(cs + [c]) == LitPoints(cs) + (if c.trail then [c.pos] else [])
  {
    assert (cs + [c])[..|cs|] == cs;
  }

  /** One more room dot appended to a scan of a room row. */
  lemma RoomRowSnoc(ri: nat, row: seq<RoomDot>, before: seq<Cand>, j: nat)
    requires j < |row|
    ensures before + RoomRow(ri, row[..j + 1]) ==
      (before + RoomRow(ri, row[..j])) + [Cand(RoomRef(ri, j), row[j].Pos(), row[j].trail)]
  {
    assert RoomRow(ri, row[..j + 1]) == RoomRow(ri, row[..j]) + [Cand(RoomRef(ri, j), row[j].Pos(), row[j].trail)];
  }

  /** One more main dot appended to a scan of a segment's row. */
  lemma MainRowSnoc(s: nat, row: seq<Dot>, before: seq<Cand>, i: nat)
    requires i < |row|
    ensures before + MainRow(s, row[..i + 1]) ==
      (before + MainRow(s, row[..i])) + [Cand(MainRef(s, i), row[i].Pos(), row[i].trail)]
  {
    assert MainRow(s, row[..i + 1]) == MainRow(s, row[..i]) + [Cand(MainRef(s, i), row[i].Pos(), row[i].trail)];
  }

  /** The fallback scan of one row of room dots. */
  method LitRoomRow(ri: nat, row: seq<RoomDot>, ghost before: seq<Cand>, acc0: seq<Point>) returns (acc: seq<Point>)
    requires acc0 == LitPoints(before)
    ensures acc == LitPoints(before + RoomRow(ri, row))
  {
    acc := acc0;
    var j := 0;
    assert before + RoomRow(ri, row[..j]) == before;
    while j < |row|
      invariant 0 <= j <= |row|
      invariant acc == LitPoints(before + RoomRow(ri, row[..j]))
    {
      var c := Cand(RoomRef(ri, j), row[j].Pos(), row[j].trail);
      RoomRowSnoc(ri, row, before, j);
      LitPointsSnoc(before + RoomRow(ri, row[..j]), c);
      if row[j].trail {
        acc := acc + [row[j].Pos()];
      }
      j := j + 1;
    }
    assert row[..j] == row;
  }

  /** The fallback scan of one row of main dots. */
  method LitMainRow(s: nat, row: seq<Dot>, ghost before: seq<Cand>, acc0: seq<Point>) returns (acc: seq<Point>)
    requires acc0 == LitPoints(before)
    ensures acc == LitPoints(before + MainRow(s, row))
  {
    acc := acc0;
    var i := 0;
    assert before + MainRow(s, row[..i]) == before;
    while i < |row|
      invariant 0 <= i <= |row|
      invariant acc == LitPoints(before + MainRow(s, row[..i]))
    {
      var c := Cand(MainRef(s, i), row[i].Pos(), row[i].trail);
      MainRowSnoc(s, row, before, i);
      LitPointsSnoc(before + MainRow(s, row[..i]), c);
      if row[i].trail {
        acc := acc + [row[i].Pos()];
      }
      i := i + 1;
    }
    assert row[..i] == row;
  }

  /** The fallback list: every lit room dot, then every lit main dot. */
  method CollectLitDots(dots: Grid, roomDots: RoomGrid) returns (pts: seq<Point>)
    ensures pts == LitPoints(RoomCands(roomDots) + MainCands(dots))
  {
    pts := LitRoomDots(roomDots);
    pts := LitMainDots(dots, RoomCands(roomDots), pts);
  }

  /** The lit room dots, room by room. */
  method LitRoomDots(roomDots: RoomGrid) returns (pts: seq<Point>)
    ensures pts == LitPoints(RoomCands(roomDots))
  {
    pts := [];
    var ri := 0;
    while ri < |roomDots|
      invariant 0 <= ri <= |roomDots|
      invariant pts == LitPoints(RoomCands(roomDots[..ri]))
    {
      assert roomDots[..ri + 1][..ri] == roomDots[..ri];
      pts := LitRoomRow(ri, roomDots[ri], RoomCands(roomDots[..ri]), pts);
      ri := ri + 1;
    }
    assert roomDots[..ri] == roomDots;
  }

  /** One more segment appended to a scan of the main grid. */
  lemma MainCandsSnoc(dots: Grid, before: seq<Cand>, s: nat)
    requires s < |dots|
    ensures before + MainCands(dots[..s + 1]) == (before + MainCands(dots[..s])) + MainRow(s, dots[s])
  {
    assert dots[..s + 1][..s] == dots[..s];
  }

  /** The lit main dots, segment by segment, appended to the scan of `before`. */
  method LitMainDots(dots: Grid, ghost before: seq<Cand>, acc0: seq<Point>) returns (pts: seq<Point>)
    requires acc0 == LitPoints(before)
    ensures pts == LitPoints(before + MainCands(dots))
  {
    pts := acc0;
    var s := 0;
    assert before + MainCands(dots[..s]) == before;
    while s < |dots|
      invariant 0 <= s <= |dots|
      invariant pts == LitPoints(before + MainCands(dots[..s]))
    {
      MainCandsSnoc(dots, before, s);
      pts := LitMainRow(s, dots[s], before + MainCands(dots[..s]), pts);
      s := s + 1;
    }
    assert dots[..s] == dots;
  }

  /** `buildPlaybackTrailFromRecorded`: the mapping loop, the fallback and the compaction loop. */
  method BuildPlaybackTrail(recorded: seq<Point>, dots: Grid, roomDots: RoomGrid) returns (playback: seq<Point>)
    ensures playback == BuildPlayback(recorded, dots, roomDots)
  {
    if |recorded| == 0 {
      return [];
    }
    var pts := CollectRecordedDots(recorded, dots, roomDots);
    if |pts| == 0 {
      pts := CollectLitDots(dots, roomDots);
    }
    playback := CompactPoints(pts);
  }

  /** The first loop of `buildPlaybackTrailFromRecorded`: each sample's nearest dot, when lit and new. */
  method CollectRecordedDots(recorded: seq<Point>, dots: Grid, roomDots: RoomGrid) returns (pts: seq<Point>)
    ensures pts == Collect(recorded, AllCands(dots, roomDots)).points
  {
    ghost var cs := AllCands(dots, roomDots);
    pts := [];
    var included: set<DotRef> := {};
    ghost var refs: seq<DotRef> := [];
    var i := 0;
    while i < |recorded|
      invariant 0 <= i <= |recorded|
      invariant Collected(pts, included, refs) == Collect(recorded[..i], cs)
    {
      assert recorded[..i + 1][..i] == recorded[..i];
      var nearest := FindNearestDotMeta(dots, roomDots, recorded[i]);
      if nearest.Some? && nearest.value.trail && nearest.value.ref !in included {
        included := included + {nearest.value.ref};
        refs := refs + [nearest.value.ref];
        pts := pts + [nearest.value.pos];
      }
      i := i + 1;
    }
    assert recorded[..i] == recorded;
  }

  /** The compaction loop: a point equal to the last kept one is dropped. */
  method CompactPoints(pts: seq<Point>) returns (playback: seq<Point>)
    ensures playback == Compact(pts)
  {
    playback := [];
    var k := 0;
    while k < |pts|
      invariant 0 <= k <= |pts|
      invariant playback == Compact(pts[..k])
    {
      assert pts[..k + 1][..k] == pts[..k];
      if |playback| == 0 || playback[|playback| - 1] != pts[k] {
        playback := playback + [pts[k]];
      }
      k := k + 1;
    }
    assert pts[..k] == pts;
  }
}
