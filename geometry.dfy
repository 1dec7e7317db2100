/** Pose geometry of the detection loop: the nose-to-wrist smoking heuristic,
    the head box used for redaction and the decorative "clean zone" rectangle.
    Keypoints are the pose model's pixel coordinates; a coordinate of 0 is the
    model's marker for a keypoint it did not find. */
module Geometry {
  import opened Wrappers

  datatype Point = Point(x: real, y: real)

  /** One detected person: keypoints in the COCO layout
      (0 nose, 1-4 eyes and ears, 9 left wrist, 10 right wrist, ...). */
  type Skeleton = seq<Point>

  /** An axis-aligned pixel rectangle, corners included as the loop computes them. */
  datatype Box = Box(minX: int, minY: int, maxX: int, maxY: int)

  const Nose := 0
  const LeftWrist := 9
  const RightWrist := 10
  /** A skeleton takes part in either decision only when it has more than this many keypoints. */
  const MinKeypoints := 10
  /** Keypoints 0..4 (nose, eyes, ears) make up the head. */
  const HeadPoints := 5

  /** Nose-to-wrist distance, in pixels, below which a person counts as smoking. */
  const SmokingThreshold: real := 160.0
  /** The distance the loop substitutes when the nose or the wrist is missing. */
  const MissingDistance: real := 999.0

  const MarginX := 40
  const MarginUp := 60
  const MarginDown := 30

  function Min(a: int, b: int): int { if a <= b then a else b }
  function Max(a: int, b: int): int { if a >= b then a else b }

  /** Python's `int()` on a float: truncation toward zero. */
  function Trunc(v: real): (r: int)
    ensures v >= 0.0 ==> 0 <= r && r as real <= v < r as real + 1.0
    ensures v < 0.0 ==> r <= 0 && r as real - 1.0 < v <= r as real
  {
    if v >= 0.0 then v.Floor else -((-v).Floor)
  }

  // ---------------------------------------------------------------------------
  // Smoking heuristic

  /** The squared Euclidean distance between two keypoints. */
  function SqDist(a: Point, b: Point): (r: real)
    ensures r >= 0.0
  {
    (a.x - b.x) * (a.x - b.x) + (a.y - b.y) * (a.y - b.y)
  }

  /** The squared nose-to-wrist distance, or the square of the 999 sentinel when
      the x coordinate of either keypoint is 0. Comparing the square with
      SmokingThreshold squared decides exactly as comparing `math.dist` with
      SmokingThreshold, since both distances are non-negative. The sentinel is
      never near: a missing keypoint cannot make anyone a smoker. */
  function WristDistSq(nose: Point, wrist: Point): (r: real)
    ensures r >= 0.0
    ensures Near(r) <==> nose.x != 0.0 && wrist.x != 0.0 && Near(SqDist(nose, wrist))
  {
    if nose.x != 0.0 && wrist.x != 0.0 then SqDist(nose, wrist) else MissingDistance * MissingDistance
  }

  predicate Near(d2: real) {
    d2 < SmokingThreshold * SmokingThreshold
  }

  /** The test the scan applies to one skeleton: more than ten keypoints, a
      detected nose, and a detected wrist closer to it than the threshold. */
  function IsSmoker(kps: Skeleton): (r: bool)
    ensures r <==> (|kps| > MinKeypoints && kps[Nose].x != 0.0 &&
      ((kps[LeftWrist].x != 0.0 && Near(SqDist(kps[Nose], kps[LeftWrist]))) ||
       (kps[RightWrist].x != 0.0 && Near(SqDist(kps[Nose], kps[RightWrist])))))
  {
    |kps| > MinKeypoints &&
    (Near(WristDistSq(kps[Nose], kps[LeftWrist])) || Near(WristDistSq(kps[Nose], kps[RightWrist])))
  }

  /** The index the scan settles on: the smallest index of a smoking skeleton,
      or -1 when there is none. */
  function FirstSmoker(batch: seq<Skeleton>): (r: int)
    ensures -1 <= r < |batch|
    ensures r == -1 ==> forall j :: 0 <= j < |batch| ==> !IsSmoker(batch[j])
    ensures r >= 0 ==> IsSmoker(batch[r]) && forall j :: 0 <= j < r ==> !IsSmoker(batch[j])
    decreases |batch|
  {
    if batch == [] then -1
    else if IsSmoker(batch[0]) then 0
    else
      var k := FirstSmoker(batch[1..]);
      if k == -1 then -1 else k + 1
  }

  /** The scan over the skeletons in detection order, stopping at the first
      smoker. */
  method SmokingScan(batch: seq<Skeleton>) returns (smoking: bool, offender: int)
    ensures offender == FirstSmoker(batch)
    ensures smoking <==> offender != -1
  {
    smoking, offender := false, -1;
    var i := 0;
    while i < |batch|
      invariant 0 <= i <= |batch|
      invariant forall j :: 0 <= j < i ==> !IsSmoker(batch[j])
    {
      if IsSmoker(batch[i]) {
        smoking, offender := true, i;
        break;
      }
      i := i + 1;
    }
  }

  // ---------------------------------------------------------------------------
  // Head box

  function MinOf(s: seq<real>): (r: real)
    requires |s| > 0
    ensures r in s && forall v :: v in s ==> r <= v
  {
    if |s| == 1 then s[0]
    else
      assert s == [s[0]] + s[1..];
      var m := MinOf(s[1..]);
      if s[0] <= m then s[0] else m
  }

  function MaxOf(s: seq<real>): (r: real)
    requires |s| > 0
    ensures r in s && forall v :: v in s ==> v <= r
  {
    if |s| == 1 then s[0]
    else
      assert s == [s[0]] + s[1..];
      var m := MaxOf(s[1..]);
      if s[0] >= m then s[0] else m
  }

  /** The coordinates that are not 0, in their original order. */
  function NonZero(vs: seq<real>): (r: seq<real>)
    ensures forall v :: v in r <==> v in vs && v != 0.0
  {
    if vs == [] then []
    else if vs[0] != 0.0 then [vs[0]] + NonZero(vs[1..])
    else NonZero(vs[1..])
  }

  function Xs(ps: seq<Point>): seq<real> {
    seq(|ps|, i requires 0 <= i < |ps| => ps[i].x)
  }

  function Ys(ps: seq<Point>): seq<real> {
    seq(|ps|, i requires 0 <= i < |ps| => ps[i].y)
  }

  /** The head rectangle the loop blurs or frames: the extent of the detected
      head coordinates widened by the fixed margins and clamped to the frame.
      There is none for a short skeleton or one without a detected head x and
      head y. */
  function HeadBox(kps: Skeleton, w: int, h: int): (r: Option<Box>)
    ensures r.Some? <==> |kps| > MinKeypoints
                         && (exists i :: 0 <= i < HeadPoints && kps[i].x != 0.0)
                         && (exists i :: 0 <= i < HeadPoints && kps[i].y != 0.0)
    ensures r.Some? ==> 0 <= r.value.minX && 0 <= r.value.minY && r.value.maxX <= w && r.value.maxY <= h
  {
    if |kps| <= MinKeypoints then None
    else
      var head := kps[..HeadPoints];
      HeadDetected(kps);
      var xs := NonZero(Xs(head));
      var ys := NonZero(Ys(head));
      if xs == [] || ys == [] then
        None
      else
        Some(Box(Max(0, Trunc(MinOf(xs)) - MarginX), Max(0, Trunc(MinOf(ys)) - MarginUp),
                 Min(w, Trunc(MaxOf(xs)) + MarginX), Min(h, Trunc(MaxOf(ys)) + MarginDown)))
  }

  /** Keypoint `i` is a detected head keypoint with the smallest x of them all. */
  predicate LeastHeadX(kps: Skeleton, i: int)
    requires |kps| >= HeadPoints
  {
    0 <= i < HeadPoints && kps[i].x != 0.0 &&
    forall j :: 0 <= j < HeadPoints && kps[j].x != 0.0 ==> kps[i].x <= kps[j].x
  }

  predicate GreatestHeadX(kps: Skeleton, i: int)
    requires |kps| >= HeadPoints
  {
    0 <= i < HeadPoints && kps[i].x != 0.0 &&
    forall j :: 0 <= j < HeadPoints && kps[j].x != 0.0 ==> kps[j].x <= kps[i].x
  }

  predicate LeastHeadY(kps: Skeleton, i: int)
    requires |kps| >= HeadPoints
  {
    0 <= i < HeadPoints && kps[i].y != 0.0 &&
    forall j :: 0 <= j < HeadPoints && kps[j].y != 0.0 ==> kps[i].y <= kps[j].y
  }

  predicate GreatestHeadY(kps: Skeleton, i: int)
    requires |kps| >= HeadPoints
  {
    0 <= i < HeadPoints && kps[i].y != 0.0 &&
    forall j :: 0 <= j < HeadPoints && kps[j].y != 0.0 ==> kps[j].y <= kps[i].y
  }

  predicate IsLeastNonZero(vs: seq<real>, i: int) {
    0 <= i < |vs| && vs[i] != 0.0 && forall j :: 0 <= j < |vs| && vs[j] != 0.0 ==> vs[i] <= vs[j]
  }

  predicate IsGreatestNonZero(vs: seq<real>, i: int) {
    0 <= i < |vs| && vs[i] != 0.0 && forall j :: 0 <= j < |vs| && vs[j] != 0.0 ==> vs[j] <= vs[i]
  }

  /** The minimum and maximum of the non-zero values sit at indices of `vs`. */
  lemma NonZeroExtremes(vs: seq<real>)
    requires NonZero(vs) != []
    ensures exists i :: IsLeastNonZero(vs, i) && vs[i] == MinOf(NonZero(vs))
    ensures exists i :: IsGreatestNonZero(vs, i) && vs[i] == MaxOf(NonZero(vs))
  {
    var nz := NonZero(vs);
    assert forall j :: 0 <= j < |vs| && vs[j] != 0.0 ==> vs[j] in nz by {
      forall j | 0 <= j < |vs| && vs[j] != 0.0 ensures vs[j] in nz {
        assert vs[j] in vs;
      }
    }
    assert MinOf(nz) in nz && MaxOf(nz) in nz;
    var a :| 0 <= a < |vs| && vs[a] == MinOf(nz);
    assert IsLeastNonZero(vs, a);
    var b :| 0 <= b < |vs| && vs[b] == MaxOf(nz);
    assert IsGreatestNonZero(vs, b);
  }

  /** A head coordinate list has a non-zero entry exactly when some head
      keypoint has a non-zero coordinate on that axis. */
  lemma HeadDetected(kps: Skeleton)
    requires |kps| >= HeadPoints
    ensures NonZero(Xs(kps[..HeadPoints])) != [] <==> exists i :: 0 <= i < HeadPoints && kps[i].x != 0.0
    ensures NonZero(Ys(kps[..HeadPoints])) != [] <==> exists i :: 0 <= i < HeadPoints && kps[i].y != 0.0
  {
    var head := kps[..HeadPoints];
    assert forall i :: 0 <= i < HeadPoints ==> Xs(head)[i] == kps[i].x && Ys(head)[i] == kps[i].y;
    assert forall i :: 0 <= i < HeadPoints ==> kps[i].x in Xs(head) && kps[i].y in Ys(head);
    var xs, ys := NonZero(Xs(head)), NonZero(Ys(head));
    if xs != [] {
      assert xs[0] in xs;
    }
    if ys != [] {
      assert ys[0] in ys;
    }
    if exists i :: 0 <= i < HeadPoints && kps[i].x != 0.0 {
      var i :| 0 <= i < HeadPoints && kps[i].x != 0.0;
      assert kps[i].x in xs;
    }
    if exists i :: 0 <= i < HeadPoints && kps[i].y != 0.0 {
      var i :| 0 <= i < HeadPoints && kps[i].y != 0.0;
      assert kps[i].y in ys;
    }
  }

  /** The extremes of the non-zero head x coordinates are the x coordinates of
      extreme head keypoints. */
  lemma HeadExtremesX(kps: Skeleton)
    requires |kps| >= HeadPoints && NonZero(Xs(kps[..HeadPoints])) != []
    ensures exists i :: LeastHeadX(kps, i) && kps[i].x == MinOf(NonZero(Xs(kps[..HeadPoints])))
    ensures exists i :: GreatestHeadX(kps, i) && kps[i].x == MaxOf(NonZero(Xs(kps[..HeadPoints])))
  {
    var xs := Xs(kps[..HeadPoints]);
    assert forall j :: 0 <= j < HeadPoints ==> xs[j] == kps[j].x;
    NonZeroExtremes(xs);
    var a :| IsLeastNonZero(xs, a) && xs[a] == MinOf(NonZero(xs));
    assert LeastHeadX(kps, a);
    var b :| IsGreatestNonZero(xs, b) && xs[b] == MaxOf(NonZero(xs));
    assert GreatestHeadX(kps, b);
  }

  /** The same for the y coordinates. */
  lemma HeadExtremesY(kps: Skeleton)
    requires |kps| >= HeadPoints && NonZero(Ys(kps[..HeadPoints])) != []
    ensures exists i :: LeastHeadY(kps, i) && kps[i].y == MinOf(NonZero(Ys(kps[..HeadPoints])))
    ensures exists i :: GreatestHeadY(kps, i) && kps[i].y == MaxOf(NonZero(Ys(kps[..HeadPoints])))
  {
    var ys := Ys(kps[..HeadPoints]);
    assert forall j :: 0 <= j < HeadPoints ==> ys[j] == kps[j].y;
    NonZeroExtremes(ys);
    var a :| IsLeastNonZero(ys, a) && ys[a] == MinOf(NonZero(ys));
    assert LeastHeadY(kps, a);
    var b :| IsGreatestNonZero(ys, b) && ys[b] == MaxOf(NonZero(ys));
    assert GreatestHeadY(kps, b);
  }

  /** Each side of the head box comes from the extreme detected head
      coordinate on that side: the leftmost x less 40, the topmost y less 60,
      the rightmost x plus 40 and the lowest y plus 30, each truncated and
      clamped to the frame. */
  lemma HeadBoxSides(kps: Skeleton, w: int, h: int)
    requires HeadBox(kps, w, h).Some?
    ensures var b := HeadBox(kps, w, h).value;
      && (exists i :: LeastHeadX(kps, i) && b.minX == Max(0, Trunc(kps[i].x) - MarginX))
      && (exists i :: GreatestHeadX(kps, i) && b.maxX == Min(w, Trunc(kps[i].x) + MarginX))
      && (exists i :: LeastHeadY(kps, i) && b.minY == Max(0, Trunc(kps[i].y) - MarginUp))
      && (exists i :: GreatestHeadY(kps, i) && b.maxY == Min(h, Trunc(kps[i].y) + MarginDown))
  {
    var b := HeadBox(kps, w, h).value;
    var xs, ys := NonZero(Xs(kps[..HeadPoints])), NonZero(Ys(kps[..HeadPoints]));
    assert xs != [] && ys != [];
    assert b == Box(Max(0, Trunc(MinOf(xs)) - MarginX), Max(0, Trunc(MinOf(ys)) - MarginUp),
                    Min(w, Trunc(MaxOf(xs)) + MarginX), Min(h, Trunc(MaxOf(ys)) + MarginDown));
    HeadExtremesX(kps);
    HeadExtremesY(kps);
    var a :| LeastHeadX(kps, a) && kps[a].x == MinOf(xs);
    var c :| GreatestHeadX(kps, c) && kps[c].x == MaxOf(xs);
    var d :| LeastHeadY(kps, d) && kps[d].y == MinOf(ys);
    var e :| GreatestHeadY(kps, e) && kps[e].y == MaxOf(ys);
  }

  /** The head box covers every detected head keypoint that lies inside the
      frame, so the blur hides the whole detected face. */
  lemma HeadBoxCovers(kps: Skeleton, w: int, h: int, i: int)
    requires HeadBox(kps, w, h).Some? && 0 <= i < HeadPoints
    ensures var b := HeadBox(kps, w, h).value;
      (kps[i].x != 0.0 && 0.0 <= kps[i].x <= w as real ==> b.minX as real <= kps[i].x <= b.maxX as real) &&
      (kps[i].y != 0.0 && 0.0 <= kps[i].y <= h as real ==> b.minY as real <= kps[i].y <= b.maxY as real)
  {
    var head := kps[..HeadPoints];
    var xs := NonZero(Xs(head));
    var ys := NonZero(Ys(head));
    assert Xs(head)[i] == kps[i].x && Ys(head)[i] == kps[i].y;
    if kps[i].x != 0.0 {
      assert kps[i].x in xs;
    }
    if kps[i].y != 0.0 {
      assert kps[i].y in ys;
    }
  }

  // ---------------------------------------------------------------------------
  // Clean zone

  /** The fixed region drawn while the posting scenario is active, as
      proportions of the frame: x in [0.65w, 0.95w], y in [0.2h, 0.7h]. */
  function CleanZone(w: int, h: int): (r: Box)
    ensures 0 <= w ==> 0 <= r.minX <= r.maxX <= w
    ensures 0 <= h ==> 0 <= r.minY <= r.maxY <= h
    // each side is its proportion of the frame, truncated to a whole pixel
    ensures 0 <= w ==> r.minX as real <= w as real * 0.65 < r.minX as real + 1.0
    ensures 0 <= w ==> r.maxX as real <= w as real * 0.95 < r.maxX as real + 1.0
    ensures 0 <= h ==> r.minY as real <= h as real * 0.2 < r.minY as real + 1.0
    ensures 0 <= h ==> r.maxY as real <= h as real * 0.7 < r.maxY as real + 1.0
  {
    Box(Trunc(w as real * 0.65), Trunc(h as real * 0.2), Trunc(w as real * 0.95), Trunc(h as real * 0.7))
  }
}
