/**
 Cleaning a track before it is drawn: distance gating, Douglas-Peucker simplification, and splitting at
 gaps.  Distances are arbitrary functions, so the guarantees hold for every metric and projection.

 A selection of points is described by the list of their indices (Selects).
 */
module Track {

  /** A recorded point; the interface reads its coordinates, speed and time. */
  datatype Point = Point(lat: real, lng: real, speed: real, dateTime: string)

  // ---------- selections ----------

  predicate Ascending(ks: seq<nat>) { forall i, j | 0 <= i < j < |ks| :: ks[i] < ks[j] }

  /** kept is the points at the indices ks, in order. */
  predicate Selects(pts: seq<Point>, ks: seq<nat>, kept: seq<Point>) {
    |ks| == |kept| && Ascending(ks) && forall i | 0 <= i < |ks| :: ks[i] < |pts| && kept[i] == pts[ks[i]]
  }

  // ---------- Douglas-Peucker ----------

  /** The largest distance of the inner points before k, and the first index that has it. */
  function Farthest(pts: seq<Point>, dist: (Point, Point, Point) -> real, k: nat): (r: (real, nat))
    requires 1 <= k < |pts| && forall p, a, b :: dist(p, a, b) >= 0.0
    ensures k > 1 ==> 1 <= r.1 < k && r.0 == dist(pts[r.1], pts[0], pts[|pts| - 1])
    ensures k == 1 ==> r.0 == -1.0
    ensures forall i | 1 <= i < k :: dist(pts[i], pts[0], pts[|pts| - 1]) <= r.0
    ensures forall i | 1 <= i < k && i < r.1 :: dist(pts[i], pts[0], pts[|pts| - 1]) < r.0
  {
    if k == 1 then (-1.0, 0)
    else
      var (best, index) := Farthest(pts, dist, k - 1);
      var d := dist(pts[k - 1], pts[0], pts[|pts| - 1]);
      if d > best then (d, k - 1) else (best, index)
  }

  /** The inner point farthest from the segment between the ends, the first of several. */
  function Peak(pts: seq<Point>, dist: (Point, Point, Point) -> real): (r: (real, nat))
    requires |pts| > 2 && forall p, a, b :: dist(p, a, b) >= 0.0
    ensures 1 <= r.1 < |pts| - 1 && r.0 == dist(pts[r.1], pts[0], pts[|pts| - 1]) >= 0.0
    ensures forall i | 1 <= i < |pts| - 1 :: dist(pts[i], pts[0], pts[|pts| - 1]) <= r.0
    ensures forall i | 1 <= i < r.1 :: dist(pts[i], pts[0], pts[|pts| - 1]) < r.0
  {
    Farthest(pts, dist, |pts| - 1)
  }

  function Simplified(pts: seq<Point>, dist: (Point, Point, Point) -> real, tolerance: real): (r: seq<Point>)
    requires forall p, a, b :: dist(p, a, b) >= 0.0
    ensures pts != [] ==> r != []
    decreases |pts|
  {
    if |pts| <= 2 then pts
    else
      var (maxDist, index) := Peak(pts, dist);
      if 0.0 <= maxDist <= tolerance then [pts[0], pts[|pts| - 1]]
      else
        var left := Simplified(pts[..index + 1], dist, tolerance);
        left[..|left| - 1] + Simplified(pts[index..], dist, tolerance)
  }

  /** A short track stays; a flat one keeps its ends; any other is simplified on both sides of its peak. */
  lemma OneSplit(pts: seq<Point>, dist: (Point, Point, Point) -> real, tolerance: real)
    requires |pts| > 2 && forall p, a, b :: dist(p, a, b) >= 0.0
    ensures var (maxDist, m) := Peak(pts, dist);
            && Simplified(pts[..m + 1], dist, tolerance) != []
            && Simplified(pts, dist, tolerance) ==
                 if maxDist <= tolerance then [pts[0], pts[|pts| - 1]]
                 else Front(Simplified(pts[..m + 1], dist, tolerance)) + Simplified(pts[m..], dist, tolerance)
  {
    hide Peak, Farthest;
  }

  function Front(s: seq<Point>): seq<Point>
    requires s != []
  {
    s[..|s| - 1]
  }

  /** The inner loop. */
  method FindFarthest(points: seq<Point>, dist: (Point, Point, Point) -> real) returns (maxDist: real, index: nat)
    requires |points| > 2 && forall p, a, b :: dist(p, a, b) >= 0.0
    ensures (maxDist, index) == Peak(points, dist)
  {
    var start, end := points[0], points[|points| - 1];
    maxDist, index := -1.0, 0;
    for i := 1 to |points| - 1
      invariant (maxDist, index) == Farthest(points, dist, i)
    {
      var d := dist(points[i], start, end);
      if d > maxDist { maxDist, index := d, i; }
    }
  }

  method SimplifyRdp(points: seq<Point>, dist: (Point, Point, Point) -> real, tolerance: real) returns (kept: seq<Point>)
    requires forall p, a, b :: dist(p, a, b) >= 0.0
    ensures kept == Simplified(points, dist, tolerance)
    decreases |points|
  {
    if |points| <= 2 { return points; }
    OneSplit(points, dist, tolerance);
    hide *;
    var maxDist, index := FindFarthest(points, dist);
    if maxDist >= 0.0 && maxDist <= tolerance { return [points[0], points[|points| - 1]]; }
    var left := SimplifyRdp(points[..index + 1], dist, tolerance);
    var right := SimplifyRdp(points[index..], dist, tolerance);
    return Front(left) + right;
  }

  /** The points between two neighbours of a selection are within tolerance of their segment. */
  predicate Close(pts: seq<Point>, a: nat, b: nat, dist: (Point, Point, Point) -> real, tolerance: real)
    requires a < |pts| && b < |pts|
  {
    forall k | a < k < b :: dist(pts[k], pts[a], pts[b]) <= tolerance
  }

  /** Both ends are selected, and a point between two selected neighbours is within tolerance of the segment
      that joins them. */
  predicate Brackets(pts: seq<Point>, ks: seq<nat>, dist: (Point, Point, Point) -> real, tolerance: real)
    requires forall i | 0 <= i < |ks| :: ks[i] < |pts|
  {
    && ks != [] && ks[0] == 0 && ks[|ks| - 1] == |pts| - 1
    && (forall i | 0 <= i < |ks| - 1 :: Close(pts, ks[i], ks[i + 1], dist, tolerance))
  }

  /** An inner point is selected only because it is out of tolerance of some segment around it. */
  ghost predicate Needed(pts: seq<Point>, k: nat, dist: (Point, Point, Point) -> real, tolerance: real) {
    exists a, b :: 0 <= a < k < b < |pts| && dist(pts[k], pts[a], pts[b]) > tolerance
  }

  ghost predicate AllNeeded(pts: seq<Point>, ks: seq<nat>, dist: (Point, Point, Point) -> real, tolerance: real) {
    forall i | 0 < i < |ks| - 1 :: Needed(pts, ks[i], dist, tolerance)
  }

  function Shift(ks: seq<nat>, n: nat): (r: seq<nat>)
    ensures |r| == |ks| && forall i | 0 <= i < |ks| :: r[i] == ks[i] + n
  {
    seq(|ks|, i requires 0 <= i < |ks| => ks[i] + n)
  }

  /** Two selections that share the point at index m. */
  function Joined(left: seq<nat>, right: seq<nat>, m: nat): seq<nat>
    requires left != []
  {
    left[..|left| - 1] + Shift(right, m)
  }

  lemma JoinedSelects(pts: seq<Point>, m: nat, ks1: seq<nat>, kept1: seq<Point>, ks2: seq<nat>, kept2: seq<Point>)
    requires m < |pts| && ks1 != [] && ks1[|ks1| - 1] == m
    requires Selects(pts[..m + 1], ks1, kept1) && Selects(pts[m..], ks2, kept2)
    ensures kept1 != [] && Selects(pts, Joined(ks1, ks2, m), Front(kept1) + kept2)
  {
    var ks, kept := Joined(ks1, ks2, m), kept1[..|kept1| - 1] + kept2;
    var n := |ks1| - 1;
    JoinedAscends(ks1, ks2, m);
    hide Ascending;
    forall i | 0 <= i < |ks| ensures ks[i] < |pts| && kept[i] == pts[ks[i]] {
      if i < n {
        assert ks[i] == ks1[i];
      } else {
        assert ks[i] == ks2[i - n] + m && kept[i] == kept2[i - n];
      }
    }
  }

  lemma JoinedAscends(ks1: seq<nat>, ks2: seq<nat>, m: nat)
    requires Ascending(ks1) && Ascending(ks2) && ks1 != [] && ks1[|ks1| - 1] == m
    ensures Ascending(Joined(ks1, ks2, m))
  {
    var ks, n := Joined(ks1, ks2, m), |ks1| - 1;
    forall i, j | 0 <= i < j < |ks| ensures ks[i] < ks[j] {
      if i < n {
        assert ks[i] == ks1[i] < ks1[n] == m;
        if j < n { assert ks[j] == ks1[j]; } else { assert ks[j] == ks2[j - n] + m; }
      } else {
        assert ks[i] == ks2[i - n] + m && ks[j] == ks2[j - n] + m;
      }
    }
  }

  lemma CloseInside(pts: seq<Point>, m: nat, n: nat, a: nat, b: nat, dist: (Point, Point, Point) -> real, tolerance: real)
    requires m <= n <= |pts| && a < n - m && b < n - m && Close(pts[m..n], a, b, dist, tolerance)
    ensures Close(pts, a + m, b + m, dist, tolerance)
  {
    var part := pts[m..n];
    forall k | a + m < k < b + m ensures dist(pts[k], pts[a + m], pts[b + m]) <= tolerance {
      assert part[k - m] == pts[k] && part[a] == pts[a + m] && part[b] == pts[b + m];
    }
  }

  lemma JoinedBrackets(pts: seq<Point>, m: nat, ks1: seq<nat>, ks2: seq<nat>, dist: (Point, Point, Point) -> real, tolerance: real)
    requires m < |pts|
    requires (forall i | 0 <= i < |ks1| :: ks1[i] < m + 1) && (forall i | 0 <= i < |ks2| :: ks2[i] < |pts| - m)
    requires Brackets(pts[..m + 1], ks1, dist, tolerance) && Brackets(pts[m..], ks2, dist, tolerance)
    ensures forall i | 0 <= i < |Joined(ks1, ks2, m)| :: Joined(ks1, ks2, m)[i] < |pts|
    ensures Brackets(pts, Joined(ks1, ks2, m), dist, tolerance)
  {
    var ks := Joined(ks1, ks2, m);
    var n := |ks1| - 1;
    assert forall i | 0 <= i < n :: ks[i] == ks1[i];
    assert forall i | n <= i < |ks| :: ks[i] == ks2[i - n] + m;
    assert ks[n] == m == ks1[n];
    assert pts[..m + 1] == pts[0..m + 1] && pts[m..] == pts[m..|pts|];
    hide Close;
    forall i | 0 <= i < |ks| - 1 ensures Close(pts, ks[i], ks[i + 1], dist, tolerance) {
      if i < n {
        CloseInside(pts, 0, m + 1, ks1[i], ks1[i + 1], dist, tolerance);
      } else {
        CloseInside(pts, m, |pts|, ks2[i - n], ks2[i + 1 - n], dist, tolerance);
      }
    }
  }

  lemma NeededInside(pts: seq<Point>, m: nat, n: nat, k: nat, dist: (Point, Point, Point) -> real, tolerance: real)
    requires m <= n <= |pts| && Needed(pts[m..n], k, dist, tolerance)
    ensures Needed(pts, k + m, dist, tolerance)
  {
    var part := pts[m..n];
    var a, b :| 0 <= a < k < b < |part| && dist(part[k], part[a], part[b]) > tolerance;
    assert part[k] == pts[k + m] && part[a] == pts[a + m] && part[b] == pts[b + m];
  }

  lemma JoinedNeeded(pts: seq<Point>, m: nat, ks1: seq<nat>, ks2: seq<nat>, dist: (Point, Point, Point) -> real, tolerance: real)
    requires m < |pts| && ks1 != [] && ks2 != [] && ks1[|ks1| - 1] == m && ks2[0] == 0
    requires AllNeeded(pts[..m + 1], ks1, dist, tolerance) && AllNeeded(pts[m..], ks2, dist, tolerance)
    requires Needed(pts, m, dist, tolerance)
    ensures AllNeeded(pts, Joined(ks1, ks2, m), dist, tolerance)
  {
    var ks := Joined(ks1, ks2, m);
    var n := |ks1| - 1;
    hide Needed;
    assert pts[..m + 1] == pts[0..m + 1] && pts[m..] == pts[m..|pts|];
    forall i | 0 < i < |ks| - 1 ensures Needed(pts, ks[i], dist, tolerance) {
      if i < n {
        NeededInside(pts, 0, m + 1, ks1[i], dist, tolerance);
      } else if i > n {
        NeededInside(pts, m, |pts|, ks2[i - n], dist, tolerance);
      }
    }
  }

  /**
   The simplified track is a selection with both ends; every point left out is within tolerance of the
   segment between the two selected points around it; and every inner point selected is needed.
   */
  lemma {:induction false} SimplifyGuarantee(pts: seq<Point>, dist: (Point, Point, Point) -> real, tolerance: real)
      returns (ks: seq<nat>)
    requires pts != [] && forall p, a, b :: dist(p, a, b) >= 0.0
    ensures Selects(pts, ks, Simplified(pts, dist, tolerance))
    ensures Brackets(pts, ks, dist, tolerance)
    ensures AllNeeded(pts, ks, dist, tolerance)
    decreases |pts|
  {
    if |pts| <= 2 {
      ks := if |pts| == 1 then [0] else [0, 1];
    } else {
      var (maxDist, m) := Peak(pts, dist);
      OneSplit(pts, dist, tolerance);
      if maxDist <= tolerance {
        ks := EndsGuarantee(pts, dist, tolerance);
      } else {
        assert Needed(pts, m, dist, tolerance);
        hide *;
        var left, right := pts[..m + 1], pts[m..];
        var ks1 := SimplifyGuarantee(left, dist, tolerance);
        var ks2 := SimplifyGuarantee(right, dist, tolerance);
        BracketsEnds(left, ks1, Simplified(left, dist, tolerance), dist, tolerance);
        BracketsEnds(right, ks2, Simplified(right, dist, tolerance), dist, tolerance);
        ks := Joined(ks1, ks2, m);
        JoinedSelects(pts, m, ks1, Simplified(left, dist, tolerance), ks2, Simplified(right, dist, tolerance));
        JoinedBrackets(pts, m, ks1, ks2, dist, tolerance);
        JoinedNeeded(pts, m, ks1, ks2, dist, tolerance);
      }
    }
  }

  lemma BracketsEnds(pts: seq<Point>, ks: seq<nat>, kept: seq<Point>, dist: (Point, Point, Point) -> real, tolerance: real)
    requires Selects(pts, ks, kept) && Brackets(pts, ks, dist, tolerance)
    ensures ks != [] && ks[0] == 0 && ks[|ks| - 1] == |pts| - 1
    ensures forall i | 0 <= i < |ks| :: ks[i] < |pts|
  {
  }

  lemma EndsGuarantee(pts: seq<Point>, dist: (Point, Point, Point) -> real, tolerance: real) returns (ks: seq<nat>)
    requires |pts| > 2 && forall p, a, b :: dist(p, a, b) >= 0.0
    requires Peak(pts, dist).0 <= tolerance
    ensures Selects(pts, ks, [pts[0], pts[|pts| - 1]]) && Brackets(pts, ks, dist, tolerance) && AllNeeded(pts, ks, dist, tolerance)
  {
    hide Peak;
    ks := [0, |pts| - 1];
  }

  // ---------- gating by distance ----------

  const MIN_STILL_DISTANCE: real := 2.0
  const MIN_MOVE_DISTANCE: real := 5.0

  /** How far, in metres, a point must be from the last one kept. */
  function LeastDistance(p: Point): real { if p.speed == 0.0 then MIN_STILL_DISTANCE else MIN_MOVE_DISTANCE }

  /** The points kept behind the last one kept. */
  function Gate(last: Point, pts: seq<Point>, far: (Point, Point) -> real): seq<Point>
    decreases |pts|
  {
    if pts == [] then []
    else if far(last, pts[0]) >= LeastDistance(pts[0]) then [pts[0]] + Gate(pts[0], pts[1..], far)
    else Gate(last, pts[1..], far)
  }

  function Gated(pts: seq<Point>, far: (Point, Point) -> real): seq<Point> {
    if pts == [] then [] else [pts[0]] + Gate(pts[0], pts[1..], far)
  }

  method FilterByMinDistance(points: seq<Point>, far: (Point, Point) -> real) returns (kept: seq<Point>)
    ensures kept == Gated(points, far)
  {
    if |points| == 0 { return []; }
    kept := [points[0]];
    for i := 1 to |points|
      invariant kept != [] && Gated(points, far) == kept + Gate(kept[|kept| - 1], points[i..], far)
    {
      var p := points[i];
      assert points[i..][1..] == points[i + 1..];
      ghost var rest := Gate(p, points[i + 1..], far);
      assert kept + ([p] + rest) == kept + [p] + rest;
      if far(kept[|kept| - 1], p) >= LeastDistance(p) { kept := kept + [p]; }
    }
    assert points[|points|..] == [];
  }

  /** Two metres for a point without speed, five for one that moves. */
  predicate FarEnough(metres: real, p: Point) { metres >= if p.speed == 0.0 then 2.0 else 5.0 }

  /** Neighbours that are kept are far enough apart. */
  predicate Spaced(last: Point, kept: seq<Point>, far: (Point, Point) -> real)
    decreases |kept|
  {
    kept != [] ==> FarEnough(far(last, kept[0]), kept[0]) && Spaced(kept[0], kept[1..], far)
  }

  /** Points are either kept or closer than their limit to the last point kept. */
  ghost predicate Thins(last: Point, pts: seq<Point>, kept: seq<Point>, far: (Point, Point) -> real)
    decreases |pts|
  {
    if pts == [] then kept == []
    else
      || (kept != [] && kept[0] == pts[0] && FarEnough(far(last, pts[0]), pts[0]) && Thins(pts[0], pts[1..], kept[1..], far))
      || (!FarEnough(far(last, pts[0]), pts[0]) && Thins(last, pts[1..], kept, far))
  }

  /** Gating is the one way to thin a track out, and it leaves neighbours far enough apart. */
  lemma {:induction false} GateThins(last: Point, pts: seq<Point>, kept: seq<Point>, far: (Point, Point) -> real)
    ensures Thins(last, pts, kept, far) <==> kept == Gate(last, pts, far)
    ensures Spaced(last, Gate(last, pts, far), far)
    decreases |pts|
  {
    if pts != [] {
      var p := pts[0];
      if far(last, p) >= LeastDistance(p) {
        var rest := Gate(p, pts[1..], far);
        GateThins(p, pts[1..], if kept == [] then [] else kept[1..], far);
        assert ([p] + rest)[1..] == rest;
        if kept != [] { assert kept == [kept[0]] + kept[1..]; }
      } else {
        GateThins(last, pts[1..], kept, far);
      }
    }
  }

  lemma {:induction false} SpacedIsKept(last: Point, kept: seq<Point>, far: (Point, Point) -> real)
    requires Spaced(last, kept, far)
    ensures Gate(last, kept, far) == kept
    decreases |kept|
  {
    if kept != [] { SpacedIsKept(kept[0], kept[1..], far); }
  }

  /** Gating twice is gating once. */
  lemma GatingIsIdempotent(pts: seq<Point>, far: (Point, Point) -> real)
    ensures Gated(Gated(pts, far), far) == Gated(pts, far)
  {
    if pts != [] {
      var rest := Gate(pts[0], pts[1..], far);
      GateThins(pts[0], pts[1..], rest, far);
      SpacedIsKept(pts[0], rest, far);
      assert ([pts[0]] + rest)[1..] == rest;
    }
  }

  lemma {:induction false} GateSelects(last: Point, pts: seq<Point>, far: (Point, Point) -> real) returns (ks: seq<nat>)
    ensures Selects(pts, ks, Gate(last, pts, far))
    decreases |pts|
  {
    ks := [];
    if pts != [] {
      var p := pts[0];
      if far(last, p) >= LeastDistance(p) {
        var ks1 := GateSelects(p, pts[1..], far);
        ks := [0] + Shift(ks1, 1);
      } else {
        var ks1 := GateSelects(last, pts[1..], far);
        ks := Shift(ks1, 1);
      }
    }
  }

  // ---------- both together ----------

  const TOLERANCE: real := 6.0

  function Smoothed(pts: seq<Point>, far: (Point, Point) -> real, dist: (Point, Point, Point) -> real): seq<Point>
    requires forall p, a, b :: dist(p, a, b) >= 0.0
  {
    var gated := Gated(pts, far);
    if |gated| <= 2 then gated else Simplified(gated, dist, TOLERANCE)
  }

  lemma SelectsTrans(a: seq<Point>, ks: seq<nat>, b: seq<Point>, js: seq<nat>, c: seq<Point>) returns (ls: seq<nat>)
    requires Selects(a, ks, b) && Selects(b, js, c)
    ensures Selects(a, ls, c) && |ls| == |js|
    ensures ks != [] && ks[0] == 0 && js != [] && js[0] == 0 ==> ls[0] == 0
  {
    ls := seq(|js|, i requires 0 <= i < |js| => ks[js[i]]);
  }

  lemma SelectsBehind(p: Point, pts: seq<Point>, ks: seq<nat>, kept: seq<Point>)
    requires Selects(pts, ks, kept)
    ensures Selects([p] + pts, [0] + Shift(ks, 1), [p] + kept)
  {
  }

  lemma GatedSelects(pts: seq<Point>, far: (Point, Point) -> real) returns (ks: seq<nat>)
    requires pts != []
    ensures Selects(pts, ks, Gated(pts, far)) && ks != [] && ks[0] == 0
  {
    assert pts == [pts[0]] + pts[1..];
    hide Gate, Selects;
    var ks1 := GateSelects(pts[0], pts[1..], far);
    ks := [0] + Shift(ks1, 1);
    SelectsBehind(pts[0], pts[1..], ks1, Gate(pts[0], pts[1..], far));
  }

  /** A cleaned track is a selection ls of the points recorded that begins with the first of them, and a selection
      js of the gated track with both its ends, within tolerance of every gated point that it leaves out and with
      no inner point that it could have left out. */
  lemma SmoothedSelects(pts: seq<Point>, far: (Point, Point) -> real, dist: (Point, Point, Point) -> real)
      returns (ls: seq<nat>, js: seq<nat>)
    requires pts != [] && forall p, a, b :: dist(p, a, b) >= 0.0
    ensures var gated, s := Gated(pts, far), Smoothed(pts, far, dist);
            && Selects(pts, ls, s) && ls != [] && ls[0] == 0
            && Selects(gated, js, s) && Brackets(gated, js, dist, 6.0) && AllNeeded(gated, js, dist, 6.0)
            && s != [] && gated != [] && s[|s| - 1] == gated[|gated| - 1]
  {
    var gated := Gated(pts, far);
    var ks := GatedSelects(pts, far);
    assert gated != [];
    var kept := Smoothed(pts, far, dist);
    assert kept == Simplified(gated, dist, TOLERANCE) by { ShortIsSimplified(gated, dist, TOLERANCE); }
    hide Simplified, Smoothed, Gated, AllNeeded, Needed, Selects, Brackets;
    js := SimplifyGuarantee(gated, dist, TOLERANCE);
    BracketsEnds(gated, js, kept, dist, TOLERANCE);
    SameLast(gated, js, kept);
    ls := SelectsTrans(pts, ks, gated, js, kept);
  }

  lemma ShortIsSimplified(pts: seq<Point>, dist: (Point, Point, Point) -> real, tolerance: real)
    requires forall p, a, b :: dist(p, a, b) >= 0.0
    ensures pts != [] && |pts| <= 2 ==> Simplified(pts, dist, tolerance) == pts
  {
  }

  lemma SameLast(pts: seq<Point>, ks: seq<nat>, kept: seq<Point>)
    requires Selects(pts, ks, kept) && ks != [] && ks[|ks| - 1] == |pts| - 1
    ensures kept != [] && pts != [] && kept[|kept| - 1] == pts[|pts| - 1]
  {
  }

  // ---------- gaps ----------

  /** The track cut between neighbours that are a gap apart. */
  function Split(current: seq<Point>, pts: seq<Point>, gap: (Point, Point) -> bool): seq<seq<Point>>
    requires current != []
    decreases |pts|
  {
    if pts == [] then [current]
    else if gap(current[|current| - 1], pts[0]) then [current] + Split([pts[0]], pts[1..], gap)
    else Split(current + [pts[0]], pts[1..], gap)
  }

  function LongOnes(segments: seq<seq<Point>>): seq<seq<Point>> {
    if segments == [] then [] else (if |segments[0]| >= 2 then [segments[0]] else []) + LongOnes(segments[1..])
  }

  /** The segments of at least two points, in their order. */
  lemma {:induction false} LongOnesExactly(a: seq<seq<Point>>, s: seq<Point>)
    ensures LongOnes([]) == []
    ensures LongOnes(a + [s]) == LongOnes(a) + if 2 <= |s| then [s] else []
  {
    NoneLong();
    hide LongOnes;
    if a == [] {
      assert a + [s] == [s] && [s][1..] == [];
      KeepsFirst([s], []);
      assert [] + LongOnes([s]) == LongOnes([s]);
    } else {
      LongOnesExactly(a[1..], s);
      var all := a + [s];
      assert all[0] == a[0] && all[1..] == a[1..] + [s];
      KeepsFirst(all, []);
      KeepsFirst(a, []);
      assert [] + LongOnes(all) == LongOnes(all) && [] + LongOnes(a) == LongOnes(a);
    }
  }

  lemma KeepsFirst(all: seq<seq<Point>>, done: seq<seq<Point>>)
    requires all != []
    ensures done + LongOnes(all) == (if |all[0]| >= 2 then done + [all[0]] else done) + LongOnes(all[1..])
  {
    var rest := LongOnes(all[1..]);
    assert done + ([all[0]] + rest) == done + [all[0]] + rest && [] + rest == rest;
  }

  lemma NoneLong()
    ensures LongOnes([]) == []
  {
  }

  method KeepLong(all: seq<seq<Point>>) returns (segments: seq<seq<Point>>)
    ensures segments == LongOnes(all)
  {
    hide LongOnes;
    segments := [];
    assert all[0..] == all && [] + LongOnes(all) == LongOnes(all);
    for k := 0 to |all|
      invariant LongOnes(all) == segments + LongOnes(all[k..])
    {
      assert all[k..][0] == all[k] && all[k..][1..] == all[k + 1..];
      KeepsFirst(all[k..], segments);
      if |all[k]| >= 2 { segments := segments + [all[k]]; }
    }
    NoneLong();
    assert all[|all|..] == [];
  }

  method SplitTrackByGaps(points: seq<Point>, gap: (Point, Point) -> bool) returns (segments: seq<seq<Point>>)
    ensures segments == if points == [] then [] else LongOnes(Split([points[0]], points[1..], gap))
  {
    if |points| == 0 { return []; }
    var all: seq<seq<Point>> := [];
    var current := [points[0]];
    ghost var whole := Split([points[0]], points[1..], gap);
    assert [] + whole == whole;
    for i := 1 to |points|
      invariant current != [] && current[|current| - 1] == points[i - 1]
      invariant whole == all + Split(current, points[i..], gap)
    {
      var next := points[i];
      assert points[i..][1..] == points[i + 1..];
      ghost var rest := Split([next], points[i + 1..], gap);
      assert all + ([current] + rest) == all + [current] + rest;
      if gap(points[i - 1], next) {
        all := all + [current];
        current := [next];
      } else {
        current := current + [next];
      }
    }
    assert points[|points|..] == [];
    segments := KeepLong(all + [current]);
  }

  function Concat(segments: seq<seq<Point>>): seq<Point> { if segments == [] then [] else segments[0] + Concat(segments[1..]) }

  predicate NoGap(s: seq<Point>, gap: (Point, Point) -> bool) { forall i | 0 <= i < |s| - 1 :: !gap(s[i], s[i + 1]) }

  /** Segments without a gap inside and with one between neighbours. */
  predicate CutAtGaps(segments: seq<seq<Point>>, gap: (Point, Point) -> bool) {
    segments != [] ==>
      && segments[0] != [] && NoGap(segments[0], gap)
      && (|segments| > 1 ==> segments[1] != [] && gap(segments[0][|segments[0]| - 1], segments[1][0]))
      && CutAtGaps(segments[1..], gap)
  }

  lemma {:induction false} SplitCuts(current: seq<Point>, pts: seq<Point>, gap: (Point, Point) -> bool)
    requires current != [] && NoGap(current, gap)
    ensures var ss := Split(current, pts, gap);
            && Concat(ss) == current + pts && CutAtGaps(ss, gap)
            && ss != [] && current <= ss[0]
    decreases |pts|
  {
    var ss := Split(current, pts, gap);
    if pts == [] {
      assert ss[1..] == [] && current + [] == current;
    } else {
      var p := pts[0];
      assert pts == [p] + pts[1..];
      if gap(current[|current| - 1], p) {
        SplitCuts([p], pts[1..], gap);
        assert ss[1..] == Split([p], pts[1..], gap);
      } else {
        SplitCuts(current + [p], pts[1..], gap);
        assert current + [p] + pts[1..] == current + pts;
      }
    }
  }

  lemma ConcatStart(segments: seq<seq<Point>>)
    requires segments != [] && segments[0] != []
    ensures Concat(segments) != [] && Concat(segments)[0] == segments[0][0]
  {
  }

  /** There is one way to cut a track at its gaps. */
  lemma {:induction false} CutIsUnique(a: seq<seq<Point>>, b: seq<seq<Point>>, gap: (Point, Point) -> bool)
    requires CutAtGaps(a, gap) && CutAtGaps(b, gap) && Concat(a) == Concat(b)
    ensures a == b
    decreases |a|
  {
    if a == [] {
      if b != [] { ConcatStart(b); }
    } else if b == [] {
      ConcatStart(a);
    } else {
      SameFirst(a, b, gap);
      assert Concat(a)[|a[0]|..] == Concat(a[1..]) && Concat(b)[|b[0]|..] == Concat(b[1..]);
      CutIsUnique(a[1..], b[1..], gap);
      assert a == [a[0]] + a[1..] && b == [b[0]] + b[1..];
    }
  }

  lemma SameFirst(a: seq<seq<Point>>, b: seq<seq<Point>>, gap: (Point, Point) -> bool)
    requires a != [] && b != [] && CutAtGaps(a, gap) && CutAtGaps(b, gap) && Concat(a) == Concat(b)
    ensures a[0] == b[0]
  {
    NotShorter(a, b, gap);
    NotShorter(b, a, gap);
    assert a[0] == Concat(a)[..|a[0]|] && b[0] == Concat(b)[..|b[0]|];
  }

  /** Where the shorter first segment ends, the track has a gap. */
  lemma GapInside(a: seq<seq<Point>>, b: seq<seq<Point>>, gap: (Point, Point) -> bool)
    requires a != [] && b != [] && CutAtGaps(a, gap) && Concat(a) == Concat(b) && |a[0]| < |b[0]|
    ensures gap(b[0][|a[0]| - 1], b[0][|a[0]|])
  {
    var n, whole := |a[0]|, Concat(a);
    assert whole == a[0] + Concat(a[1..]) && whole == b[0] + Concat(b[1..]);
    assert |a| > 1;
    ConcatStart(a[1..]);
    assert whole[n - 1] == a[0][n - 1] == b[0][n - 1];
    assert whole[n] == a[1][0] == b[0][n];
  }

  lemma NotShorter(a: seq<seq<Point>>, b: seq<seq<Point>>, gap: (Point, Point) -> bool)
    requires a != [] && b != [] && CutAtGaps(a, gap) && CutAtGaps(b, gap) && Concat(a) == Concat(b)
    ensures |a[0]| >= |b[0]|
  {
    if |a[0]| < |b[0]| { GapInside(a, b, gap); }
  }

  /** The segments before short ones are left out are the one cut of the track at its gaps. */
  lemma SplitIsTheCut(pts: seq<Point>, segments: seq<seq<Point>>, gap: (Point, Point) -> bool)
    requires pts != []
    ensures CutAtGaps(segments, gap) && Concat(segments) == pts <==> segments == Split([pts[0]], pts[1..], gap)
  {
    var ss := Split([pts[0]], pts[1..], gap);
    SplitCuts([pts[0]], pts[1..], gap);
    assert [pts[0]] + pts[1..] == pts;
    if CutAtGaps(segments, gap) && Concat(segments) == pts { CutIsUnique(segments, ss, gap); }
  }
}
