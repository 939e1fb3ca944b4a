/** build_pm_rings_for_mesh: turn the stations of one body mesh into
    Plane-Maker rings of 18 slots. A one-vertex station (the nose or the
    tail) collapses to a point on the centre plane copied into every slot; a
    mid station keeps its x >= 0 half, orders it top / sides / bottom, fills
    nine slots and mirrors them into the other nine. `math.atan2` is the
    parameter `angle` (called as angle(y, x)). */
module Rings {
  import opened Wrappers
  import opened NumText
  import opened Geometry
  import opened Seqs
  import opened Sorting
  import opened Topology

  const Eps: real := 0.00001
  const EpsSplit: real := 0.00001
  const EpsCenter: real := 0.0001
  const EpsAngle: real := 0.000000000001
  const HalfSlots: nat := 9
  const RingSlots: nat := 18

  const HalfRingError: Error := ValueError("half-ring count outside 5..9")

  /** What build_pm_rings_for_mesh returns: `part_x` in feet, the rings and
      the largest half size seen (`half_n_max`). */
  datatype MeshRings = MeshRings(partX: real, rings: seq<seq<Vec3>>, halfNMax: nat)

  /** Each component of a point snapped to zero below Eps. */
  function SnapPoint(p: Vec3): Vec3 {
    Vec3(Snap(p.x, Eps), Snap(p.y, Eps), Snap(p.z, Eps))
  }

  /** The ring of a one-vertex station at local point `p` (metres). */
  function TipRing(p: Vec3): (r: seq<Vec3>)
    ensures |r| == RingSlots
  {
    seq(RingSlots, _ => Vec3(0.0, Snap(p.y * FtPerM, Eps), Snap(p.z * FtPerM, Eps)))
  }

  /** The tip ring is one point on the centre plane, in feet, in every slot. */
  lemma TipRingUniform(p: Vec3, j: nat)
    requires j < RingSlots
    ensures TipRing(p)[j] == TipRing(p)[0]
    ensures TipRing(p)[j].x == 0.0
    ensures TipRing(p)[j].y == 0.0 || TipRing(p)[j].y == p.y * FtPerM
    ensures AbsReal(p.z * FtPerM) >= Eps ==> TipRing(p)[j].z == p.z * FtPerM
  {
  }

  predicate InHalf(v: Vec3) {
    v.x >= -EpsSplit
  }

  /** `[verts_local[idx] for idx in station]` */
  function PointsOf(verts: seq<Vec3>, station: seq<nat>): (r: seq<Vec3>)
    requires forall k :: 0 <= k < |station| ==> station[k] < |verts|
    ensures |r| == |station|
  {
    seq(|station|, k requires 0 <= k < |station| => verts[station[k]])
  }

  /** The positions of the centre-plane points of a half (|x| < 1e-4 ft). */
  function CenterIndices(h: seq<Vec3>): (r: seq<int>)
    ensures forall k :: 0 <= k < |r| ==> 0 <= r[k] < |h| && AbsReal(h[r[k]].x) < EpsCenter
  {
    var r := Filter(Range(0, |h|), i => 0 <= i < |h| && AbsReal(h[i].x) < EpsCenter);
    assert forall k :: 0 <= k < |r| ==> r[k] in r;
    r
  }

  /** The heights of the points at positions `idx`. */
  function HeightsAt(h: seq<Vec3>, idx: seq<int>): (ys: seq<real>)
    requires forall k :: 0 <= k < |idx| ==> 0 <= idx[k] < |h|
    ensures |ys| == |idx|
    ensures forall k :: 0 <= k < |idx| ==> ys[k] == h[idx[k]].y
  {
    seq(|idx|, k requires 0 <= k < |idx| => h[idx[k]].y)
  }

  /** The position of the first largest value (Python `max` with a key). */
  function FirstMax(ys: seq<real>): (k: nat)
    requires |ys| > 0
    ensures k < |ys|
    ensures forall i :: 0 <= i < |ys| ==> ys[i] <= ys[k]
    ensures forall i :: 0 <= i < k ==> ys[i] < ys[k]
    decreases |ys|
  {
    if |ys| == 1 then 0
    else
      var k := FirstMax(ys[..|ys| - 1]);
      if ys[|ys| - 1] > ys[k] then |ys| - 1 else k
  }

  /** The position of the first smallest value (Python `min` with a key). */
  function FirstMin(ys: seq<real>): (k: nat)
    requires |ys| > 0
    ensures k < |ys|
    ensures forall i :: 0 <= i < |ys| ==> ys[k] <= ys[i]
    ensures forall i :: 0 <= i < k ==> ys[k] < ys[i]
    decreases |ys|
  {
    if |ys| == 1 then 0
    else
      var k := FirstMin(ys[..|ys| - 1]);
      if ys[|ys| - 1] < ys[k] then |ys| - 1 else k
  }

  /** `[h[i] for i in range(len(h)) if i not in {a, b}]` */
  function Sides<T>(h: seq<T>, a: int, b: int): seq<T>
    decreases |h|
  {
    if |h| == 0 then []
    else Sides(h[..|h| - 1], a, b) + (if |h| - 1 != a && |h| - 1 != b then [h[|h| - 1]] else [])
  }

  /** The elements at positions `a` and `b` (once when they coincide). */
  function Picked<T>(h: seq<T>, a: int, b: int): multiset<T> {
    (if 0 <= a < |h| then multiset{h[a]} else multiset{})
    + (if 0 <= b < |h| && b != a then multiset{h[b]} else multiset{})
  }

  /** The sides are the half without the points at `a` and `b`. */
  lemma {:induction false} SidesMultiset<T>(h: seq<T>, a: int, b: int)
    ensures multiset(Sides(h, a, b)) + Picked(h, a, b) == multiset(h)
    decreases |h|
  {
    if |h| > 0 {
      var n := |h| - 1;
      var p := h[..n];
      calc {
        multiset(Sides(h, a, b)) + Picked(h, a, b);
      == { SidesStep(h, a, b); }
        multiset(Sides(p, a, b)) + Picked(p, a, b) + multiset{h[n]};
      == { SidesMultiset(p, a, b); }
        multiset(p) + multiset{h[n]};
      == { MultisetSnoc(h); }
        multiset(h);
      }
    }
  }

  /** The multiset of a non-empty sequence: that of all but the last
      element, and the last. */
  lemma MultisetSnoc<T>(h: seq<T>)
    requires |h| > 0
    ensures multiset(h) == multiset(h[..|h| - 1]) + multiset{h[|h| - 1]}
  {
    assert h == h[..|h| - 1] + [h[|h| - 1]];
  }

  /** One more element either joins the sides or is one of the picked two. */
  lemma SidesStep<T>(h: seq<T>, a: int, b: int)
    requires |h| > 0
    ensures var p := h[..|h| - 1];
            multiset(Sides(h, a, b)) + Picked(h, a, b)
            == multiset(Sides(p, a, b)) + Picked(p, a, b) + multiset{h[|h| - 1]}
  {
    var n := |h| - 1;
    var p := h[..n];
    var e := multiset{h[n]};
    if n == a || n == b {
      assert Sides(h, a, b) == Sides(p, a, b) + [];
      PickedLast(h, a, b);
      MultisetAssoc(multiset(Sides(p, a, b)), Picked(p, a, b), e);
    } else {
      assert Sides(h, a, b) == Sides(p, a, b) + [h[n]];
      assert multiset(Sides(h, a, b)) == multiset(Sides(p, a, b)) + e;
      PickedEarlier(h, a, b);
      MultisetSwap(multiset(Sides(p, a, b)), e, Picked(p, a, b));
    }
  }

  lemma PickedLast<T>(h: seq<T>, a: int, b: int)
    requires |h| > 0 && (|h| - 1 == a || |h| - 1 == b)
    ensures Picked(h, a, b) == Picked(h[..|h| - 1], a, b) + multiset{h[|h| - 1]}
  {
    var p := h[..|h| - 1];
    if 0 <= a < |p| {
      assert p[a] == h[a];
    }
    if 0 <= b < |p| {
      assert p[b] == h[b];
    }
  }

  lemma PickedEarlier<T>(h: seq<T>, a: int, b: int)
    requires |h| > 0 && |h| - 1 != a && |h| - 1 != b
    ensures Picked(h, a, b) == Picked(h[..|h| - 1], a, b)
  {
    var p := h[..|h| - 1];
    if 0 <= a < |p| {
      assert p[a] == h[a];
    }
    if 0 <= b < |p| {
      assert p[b] == h[b];
    }
  }

  /** The angular sort key: atan2(y, x) with |x| <= 1e-12 read as 0. */
  function AngleKey(angle: (real, real) -> real): Vec3 -> real {
    (p: Vec3) => angle(p.y, if AbsReal(p.x) > EpsAngle then p.x else 0.0)
  }

  /** The top centre point's position in the half (first largest y). */
  function TopIndex(h: seq<Vec3>): int
    requires |CenterIndices(h)| > 0
  {
    var c := CenterIndices(h);
    c[FirstMax(HeightsAt(h, c))]
  }

  /** The bottom centre point's position in the half (first smallest y). */
  function BottomIndex(h: seq<Vec3>): int
    requires |CenterIndices(h)| > 0
  {
    var c := CenterIndices(h);
    c[FirstMin(HeightsAt(h, c))]
  }

  /** The half in slot order: with two or more centre points, the top one,
      the other points by decreasing angle, the bottom one; otherwise all
      points by decreasing angle. */
  function OrderHalf(h: seq<Vec3>, angle: (real, real) -> real): (r: seq<Vec3>)
    ensures |h| > 0 ==> |r| > 0
  {
    SortDescendingCorrect(h, AngleKey(angle));
    if |CenterIndices(h)| >= 2 then
      [h[TopIndex(h)]] + SortDescending(Sides(h, TopIndex(h), BottomIndex(h)), AngleKey(angle)) + [h[BottomIndex(h)]]
    else SortDescending(h, AngleKey(angle))
  }

  /** The top centre point is the first highest centre point and the
      bottom one the first lowest. */
  lemma CenterExtremes(h: seq<Vec3>)
    requires |CenterIndices(h)| > 0
    ensures var c := CenterIndices(h);
            var top, bot := TopIndex(h), BottomIndex(h);
            && top in c && bot in c
            && (forall k :: 0 <= k < |c| ==> h[bot].y <= h[c[k]].y <= h[top].y)
            && (forall k :: 0 <= k < |c| && c[k] < top ==> h[c[k]].y < h[top].y)
            && (forall k :: 0 <= k < |c| && c[k] < bot ==> h[c[k]].y > h[bot].y)
  {
    var c := CenterIndices(h);
    var ys := HeightsAt(h, c);
    var kt, kb := FirstMax(ys), FirstMin(ys);
    forall k | 0 <= k < |c| ensures h[BottomIndex(h)].y <= h[c[k]].y <= h[TopIndex(h)].y {
      assert ys[k] == h[c[k]].y;
    }
    forall k | 0 <= k < |c| && c[k] < TopIndex(h) ensures h[c[k]].y < h[TopIndex(h)].y {
      IncreasingCenters(h, k, kt);
      assert ys[k] == h[c[k]].y;
    }
    forall k | 0 <= k < |c| && c[k] < BottomIndex(h) ensures h[c[k]].y > h[BottomIndex(h)].y {
      IncreasingCenters(h, k, kb);
      assert ys[k] == h[c[k]].y;
    }
  }

  /** With two or more centre points the ordered half starts with the top
      centre point, ends with the bottom one, holds the rest by decreasing
      angle between them, and is the half itself reordered unless top and
      bottom coincide (all centre points at one height). */
  lemma OrderHalfWithCenter(h: seq<Vec3>, angle: (real, real) -> real)
    requires |CenterIndices(h)| >= 2
    ensures var r := OrderHalf(h, angle);
            var top, bot := TopIndex(h), BottomIndex(h);
            && r[0] == h[top] && r[|r| - 1] == h[bot]
            && (forall i, j :: 1 <= i < j < |r| - 1 ==> AngleKey(angle)(r[i]) >= AngleKey(angle)(r[j]))
            && (top != bot ==> multiset(r) == multiset(h))
            && (top == bot ==> multiset(r) == multiset(h) + multiset{h[top]})
  {
    var top, bot := TopIndex(h), BottomIndex(h);
    CenterExtremes(h);
    Framed(h, top, bot, AngleKey(angle));
  }

  /** `[h[a]] + (the rest by decreasing key) + [h[b]]`: its ends, its
      order and its elements. */
  lemma Framed<T(!new)>(h: seq<T>, a: int, b: int, key: T -> real)
    requires 0 <= a < |h| && 0 <= b < |h|
    ensures var r := [h[a]] + SortDescending(Sides(h, a, b), key) + [h[b]];
            && r[0] == h[a] && r[|r| - 1] == h[b]
            && (forall i, j :: 1 <= i < j < |r| - 1 ==> key(r[i]) >= key(r[j]))
            && (a != b ==> multiset(r) == multiset(h))
            && (a == b ==> multiset(r) == multiset(h) + multiset{h[a]})
  {
    var sides := Sides(h, a, b);
    var sorted := SortDescending(sides, key);
    SortDescendingCorrect(sides, key);
    Bracketed(h[a], sorted, h[b], key);
    FramedMultiset(h, a, b, sorted);
  }

  /** The half's two picked points around any reordering of its sides. */
  lemma FramedMultiset<T>(h: seq<T>, a: int, b: int, sorted: seq<T>)
    requires 0 <= a < |h| && 0 <= b < |h|
    requires multiset(sorted) == multiset(Sides(h, a, b))
    ensures a != b ==> multiset([h[a]] + sorted + [h[b]]) == multiset(h)
    ensures a == b ==> multiset([h[a]] + sorted + [h[b]]) == multiset(h) + multiset{h[a]}
  {
    SidesMultiset(h, a, b);
    var m := multiset(sorted);
    calc {
      multiset([h[a]] + sorted + [h[b]]);
      multiset{h[a]} + m + multiset{h[b]};
      { MultisetSwap(multiset{h[a]}, m, multiset{h[b]}); }
      multiset{h[a]} + multiset{h[b]} + m;
      m + (multiset{h[a]} + multiset{h[b]});
    }
    if a != b {
      assert Picked(h, a, b) == multiset{h[a]} + multiset{h[b]};
    } else {
      assert Picked(h, a, b) == multiset{h[a]};
    }
  }

  /** A descending run between two end points. */
  lemma Bracketed<T>(x: T, mid: seq<T>, y: T, key: T -> real)
    requires forall i, j :: 0 <= i < j < |mid| ==> key(mid[i]) >= key(mid[j])
    ensures var r := [x] + mid + [y];
            && r[0] == x && r[|r| - 1] == y
            && (forall i, j :: 1 <= i < j < |r| - 1 ==> key(r[i]) >= key(r[j]))
            && multiset(r) == multiset{x} + multiset(mid) + multiset{y}
  {
    var r := [x] + mid + [y];
    forall i, j | 1 <= i < j < |r| - 1 ensures key(r[i]) >= key(r[j]) {
      assert r[i] == mid[i - 1] && r[j] == mid[j - 1];
    }
  }

  /** The centre positions are listed in increasing order, so an earlier
      position in the list is an earlier point of the half. */
  lemma IncreasingCenters(h: seq<Vec3>, k: nat, m: nat)
    requires k < |CenterIndices(h)| && m < |CenterIndices(h)|
    requires CenterIndices(h)[k] < CenterIndices(h)[m]
    ensures k < m
  {
    var range := Range(0, |h|);
    FilterIncreasing(range, i => 0 <= i < |h| && AbsReal(h[i].x) < EpsCenter);
  }

  /** Filtering an increasing sequence keeps it increasing. */
  lemma {:induction false} FilterIncreasing(s: seq<int>, p: int -> bool)
    requires StrictlyIncreasing(s)
    ensures StrictlyIncreasing(Filter(s, p))
    decreases |s|
  {
    if |s| > 0 {
      var q := s[..|s| - 1];
      FilterIncreasing(q, p);
      var f := Filter(q, p);
      forall k | 0 <= k < |f| ensures f[k] < s[|s| - 1] {
        assert f[k] in f;
        var i :| 0 <= i < |q| && q[i] == f[k];
      }
    }
  }

  /** With fewer than two centre points the ordered half is the half sorted
      by decreasing angle. */
  lemma OrderHalfWithoutCenter(h: seq<Vec3>, angle: (real, real) -> real)
    requires |CenterIndices(h)| < 2
    ensures var r := OrderHalf(h, angle);
            && multiset(r) == multiset(h)
            && forall i, j :: 0 <= i < j < |r| ==> AngleKey(angle)(r[i]) >= AngleKey(angle)(r[j])
  {
    SortDescendingCorrect(h, AngleKey(angle));
  }

  /** The nine half slots: the ordered points, the last one repeated past
      the end, every component snapped. */
  function LeftSlots(ordered: seq<Vec3>): (r: seq<Vec3>)
    requires |ordered| > 0
    ensures |r| == HalfSlots
  {
    seq(HalfSlots, j requires 0 <= j < HalfSlots => SnapPoint(if j < |ordered| then ordered[j] else ordered[|ordered| - 1]))
  }

  /** Half slot j holds ordered point j, or the last point when the half
      has fewer than j + 1 points, snapped. */
  lemma LeftSlotsFill(ordered: seq<Vec3>, j: nat)
    requires |ordered| > 0 && j < HalfSlots
    ensures j < |ordered| ==> LeftSlots(ordered)[j] == SnapPoint(ordered[j])
    ensures j >= |ordered| ==> LeftSlots(ordered)[j] == LeftSlots(ordered)[|ordered| - 1]
  {
  }

  /** A ring of 18 from its nine half slots: the half, then the half with x
      negated. */
  function MirrorRing(left: seq<Vec3>): (r: seq<Vec3>)
    requires |left| == HalfSlots
    ensures |r| == RingSlots
    ensures forall j :: 0 <= j < HalfSlots ==> r[j] == left[j]
    ensures forall j :: HalfSlots <= j < RingSlots ==>
              r[j] == Vec3(Snap(-left[j - HalfSlots].x, Eps), left[j - HalfSlots].y, left[j - HalfSlots].z)
  {
    seq(RingSlots, j requires 0 <= j < RingSlots =>
      if j < HalfSlots then left[j] else Vec3(Snap(-left[j - HalfSlots].x, Eps), left[j - HalfSlots].y, left[j - HalfSlots].z))
  }

  /** The ring of a mid station: ValueError unless 5..9 of its points lie on
      the x >= -1e-5 side; otherwise the mirrored ring and the half size. */
  function MidRingSpec(pts: seq<Vec3>, angle: (real, real) -> real): Result<(seq<Vec3>, nat)> {
    var half := Filter(pts, InHalf);
    if !(5 <= |half| <= 9) then Err(HalfRingError)
    else Ok((MirrorRing(LeftSlots(OrderHalf(FeetAll(half), angle))), |half|))
  }

  /** Every point converted to feet. */
  function FeetAll(ps: seq<Vec3>): (r: seq<Vec3>)
    ensures |r| == |ps|
  {
    seq(|ps|, i requires 0 <= i < |ps| => ToFeet(ps[i]))
  }

  /** A mid ring is symmetric: slot 9 + j is slot j with x negated. */
  lemma MidRingMirrored(pts: seq<Vec3>, angle: (real, real) -> real, j: nat)
    requires MidRingSpec(pts, angle).Ok? && j < HalfSlots
    ensures var ring := MidRingSpec(pts, angle).value.0;
            |ring| == RingSlots && ring[HalfSlots + j] == Vec3(-ring[j].x, ring[j].y, ring[j].z)
  {
    var half := Filter(pts, InHalf);
    var left := LeftSlots(OrderHalf(FeetAll(half), angle));
    var ring := MirrorRing(left);
    assert ring[HalfSlots + j] == Vec3(Snap(-left[j].x, Eps), left[j].y, left[j].z);
  }

  /** A mid ring keeps only half sizes 5..9, and which points count as the
      half is decided by x >= -1e-5 alone. */
  lemma MidRingHalf(pts: seq<Vec3>, angle: (real, real) -> real)
    ensures MidRingSpec(pts, angle).Ok? <==> 5 <= |Filter(pts, InHalf)| <= 9
    ensures MidRingSpec(pts, angle).Ok? ==> MidRingSpec(pts, angle).value.1 == |Filter(pts, InHalf)|
    ensures forall v :: v in Filter(pts, InHalf) <==> v in pts && v.x >= -EpsSplit
  {
  }

  /** The mid-ring branch of the station loop: select the half, convert to
      feet, order it, fill the nine half slots and mirror them into the
      preallocated ring of 18. */
  method MidRing(pts: seq<Vec3>, angle: (real, real) -> real) returns (r: Result<(seq<Vec3>, nat)>)
    ensures r == MidRingSpec(pts, angle)
  {
    var half := Filter(pts, InHalf);
    var nHalf := |half|;
    if !(5 <= nHalf <= 9) {
      return Err(HalfRingError);
    }
    var halfFt := HalfToFeet(half);
    var ordered := OrderHalf(halfFt, angle);
    var left := FillHalfSlots(ordered);
    var ring := MirrorHalf(left);
    r := Ok((ring, nHalf));
  }

  /** The loop appending each half point converted to feet. */
  method HalfToFeet(half: seq<Vec3>) returns (halfFt: seq<Vec3>)
    ensures halfFt == FeetAll(half)
  {
    halfFt := [];
    var i := 0;
    while i < |half|
      invariant 0 <= i <= |half|
      invariant halfFt == FeetAll(half[..i])
    {
      halfFt := halfFt + [ToFeet(half[i])];
      i := i + 1;
    }
    assert half[..i] == half;
  }

  /** The loop filling the nine half slots (`left_ring`). */
  method FillHalfSlots(ordered: seq<Vec3>) returns (left: seq<Vec3>)
    requires |ordered| > 0
    ensures left == LeftSlots(ordered)
  {
    left := [];
    var j := 0;
    while j < HalfSlots
      invariant 0 <= j <= HalfSlots
      invariant |left| == j
      invariant forall k :: 0 <= k < j ==> left[k] == LeftSlots(ordered)[k]
    {
      var p := if j < |ordered| then ordered[j] else ordered[|ordered| - 1];
      var x, y, z := p.x, p.y, p.z;
      if AbsReal(x) < Eps {
        x := 0.0;
      }
      if AbsReal(y) < Eps {
        y := 0.0;
      }
      if AbsReal(z) < Eps {
        z := 0.0;
      }
      left := left + [Vec3(x, y, z)];
      j := j + 1;
    }
  }

  /** The loop writing each half slot and its mirror image into the
      preallocated ring of 18 slots. */
  method MirrorHalf(left: seq<Vec3>) returns (r: seq<Vec3>)
    requires |left| == HalfSlots
    ensures r == MirrorRing(left)
  {
    var ring := new Vec3[RingSlots](_ => Origin);
    var jLeft := 0;
    while jLeft < HalfSlots
      invariant 0 <= jLeft <= HalfSlots
      invariant forall k :: 0 <= k < jLeft ==> ring[k] == left[k]
      invariant forall k :: HalfSlots <= k < HalfSlots + jLeft ==>
                  ring[k] == Vec3(Snap(-left[k - HalfSlots].x, Eps), left[k - HalfSlots].y, left[k - HalfSlots].z)
    {
      var q := left[jLeft];
      ring[jLeft] := q;
      var xRight := -q.x;
      if AbsReal(xRight) < Eps {
        xRight := 0.0;
      }
      ring[HalfSlots + jLeft] := Vec3(xRight, q.y, q.z);
      jLeft := jLeft + 1;
    }
    r := ring[..];
  }

  /** The ring of one station and its half size (0 for a one-vertex
      station). */
  function StationRing(verts: seq<Vec3>, station: seq<nat>, angle: (real, real) -> real)
    : Result<(seq<Vec3>, nat)>
    requires forall k :: 0 <= k < |station| ==> station[k] < |verts|
  {
    if |station| == 1 then Ok((TipRing(verts[station[0]]), 0))
    else MidRingSpec(PointsOf(verts, station), angle)
  }

  /** A station ring has 18 slots: one repeated centre-plane point for a
      one-vertex station, a mirrored ring with a half of 5..9 points for
      any other. */
  lemma StationRingShape(verts: seq<Vec3>, station: seq<nat>, angle: (real, real) -> real)
    requires forall k :: 0 <= k < |station| ==> station[k] < |verts|
    requires StationRing(verts, station, angle).Ok?
    ensures var (ring, n) := StationRing(verts, station, angle).value;
            && |ring| == RingSlots
            && (|station| == 1 ==> n == 0 && forall j :: 0 <= j < RingSlots ==> ring[j] == ring[0] && ring[j].x == 0.0)
            && (|station| != 1 ==>
                  && 5 <= n <= 9
                  && forall j :: 0 <= j < HalfSlots ==> ring[HalfSlots + j] == Vec3(-ring[j].x, ring[j].y, ring[j].z))
  {
    if |station| != 1 {
      MidRingHalf(PointsOf(verts, station), angle);
      forall j | 0 <= j < HalfSlots
        ensures StationRing(verts, station, angle).value.0[HalfSlots + j]
                == Vec3(-StationRing(verts, station, angle).value.0[j].x,
                        StationRing(verts, station, angle).value.0[j].y,
                        StationRing(verts, station, angle).value.0[j].z)
      {
        MidRingMirrored(PointsOf(verts, station), angle, j);
      }
    }
  }

  /** The ring of every station, each on its own. */
  function StationRings(verts: seq<Vec3>, stations: seq<seq<nat>>, angle: (real, real) -> real)
    : (r: seq<Result<(seq<Vec3>, nat)>>)
    requires StationsInRange(verts, stations)
    ensures |r| == |stations|
  {
    seq(|stations|, s requires 0 <= s < |stations| => StationRing(verts, stations[s], angle))
  }

  /** The station loop's accumulation: the values in order with the largest
      size, or the first error. */
  function Collect<T>(rs: seq<Result<(T, nat)>>): Result<(seq<T>, nat)>
    decreases |rs|
  {
    if |rs| == 0 then Ok(([], 0))
    else
      match Collect(rs[..|rs| - 1])
      case Err(e) => Err(e)
      case Ok((vs, m)) =>
        match rs[|rs| - 1]
        case Err(e) => Err(e)
        case Ok((v, n)) => Ok((vs + [v], if n > m then n else m))
  }

  /** One more successful result extends the collection. */
  lemma CollectStep<T>(rs: seq<Result<(T, nat)>>, k: nat, vs: seq<T>, m: nat, v: T, n: nat)
    requires k < |rs| && Collect(rs[..k]) == Ok((vs, m)) && rs[k] == Ok((v, n))
    ensures Collect(rs[..k + 1]) == Ok((vs + [v], if n > m then n else m))
  {
    assert rs[..k + 1][..k] == rs[..k];
  }

  /** A successful collection holds every value in order, and its size is 0
      or the largest of the sizes. */
  lemma {:induction false} CollectOk<T>(rs: seq<Result<(T, nat)>>)
    requires Collect(rs).Ok?
    ensures var (vs, m) := Collect(rs).value;
            && |vs| == |rs|
            && (forall s :: 0 <= s < |rs| ==> rs[s].Ok? && vs[s] == rs[s].value.0 && rs[s].value.1 <= m)
            && (m == 0 || exists s :: 0 <= s < |rs| && rs[s].value.1 == m)
    decreases |rs|
  {
    if |rs| > 0 {
      var p := rs[..|rs| - 1];
      CollectOk(p);
      var (vs0, m0) := Collect(p).value;
      var (vs, m) := Collect(rs).value;
      forall s | 0 <= s < |rs| ensures rs[s].Ok? && vs[s] == rs[s].value.0 && rs[s].value.1 <= m {
        if s < |p| {
          assert rs[s] == p[s];
        }
      }
      if m != 0 && m == m0 {
        var s :| 0 <= s < |p| && p[s].value.1 == m0;
        assert rs[s] == p[s];
      }
    }
  }

  /** A collection fails exactly when some element is an error, and then
      with the first error. */
  lemma {:induction false} CollectErr<T>(rs: seq<Result<(T, nat)>>, k: nat)
    requires k < |rs| && rs[k].Err? && forall s :: 0 <= s < k ==> rs[s].Ok?
    ensures Collect(rs) == Err(rs[k].error)
    decreases |rs|
  {
    var p := rs[..|rs| - 1];
    if k < |p| {
      assert p[k] == rs[k];
      CollectErr(p, k);
    } else {
      CollectAllOk(p);
    }
  }

  lemma {:induction false} CollectAllOk<T>(rs: seq<Result<(T, nat)>>)
    requires forall s :: 0 <= s < |rs| ==> rs[s].Ok?
    ensures Collect(rs).Ok?
    decreases |rs|
  {
    if |rs| > 0 {
      CollectAllOk(rs[..|rs| - 1]);
    }
  }

  /** The rings of `stations` in order with the largest half size, or the
      error of the first station whose half size is outside 5..9. */
  function RingsOf(verts: seq<Vec3>, stations: seq<seq<nat>>, angle: (real, real) -> real)
    : Result<(seq<seq<Vec3>>, nat)>
    requires StationsInRange(verts, stations)
  {
    Collect(StationRings(verts, stations, angle))
  }

  /** Successful ring building gives each station its own ring, in station
      order, with 18 slots, mirrored for mid stations, and `half_n_max` is 0
      or the largest half size, within 5..9. */
  lemma RingsOfShape(verts: seq<Vec3>, stations: seq<seq<nat>>, angle: (real, real) -> real)
    requires StationsInRange(verts, stations)
    requires RingsOf(verts, stations, angle).Ok?
    ensures var (rs, m) := RingsOf(verts, stations, angle).value;
            && |rs| == |stations|
            && (m == 0 || 5 <= m <= 9)
            && (forall s :: 0 <= s < |stations| ==>
                  && StationRing(verts, stations[s], angle).Ok?
                  && rs[s] == StationRing(verts, stations[s], angle).value.0
                  && StationRing(verts, stations[s], angle).value.1 <= m
                  && |rs[s]| == RingSlots)
  {
    var all := StationRings(verts, stations, angle);
    CollectOk(all);
    var (rs, m) := RingsOf(verts, stations, angle).value;
    forall s | 0 <= s < |stations|
      ensures && StationRing(verts, stations[s], angle).Ok?
              && rs[s] == StationRing(verts, stations[s], angle).value.0
              && StationRing(verts, stations[s], angle).value.1 <= m
              && |rs[s]| == RingSlots
    {
      assert all[s] == StationRing(verts, stations[s], angle);
      StationRingShape(verts, stations[s], angle);
    }
    if m != 0 {
      var s :| 0 <= s < |all| && all[s].value.1 == m;
      assert all[s] == StationRing(verts, stations[s], angle);
      StationRingShape(verts, stations[s], angle);
    }
  }

  /** The error of the first failing station is the result. */
  lemma RingsOfFails(verts: seq<Vec3>, stations: seq<seq<nat>>, angle: (real, real) -> real, k: nat)
    requires StationsInRange(verts, stations) && k < |stations|
    requires StationRing(verts, stations[k], angle).Err?
    requires forall s :: 0 <= s < k ==> StationRing(verts, stations[s], angle).Ok?
    ensures RingsOf(verts, stations, angle) == Err(StationRing(verts, stations[k], angle).error)
  {
    CollectErr(StationRings(verts, stations, angle), k);
  }

  /** The station loop of build_pm_rings_for_mesh. */
  method RingsForStations(verts: seq<Vec3>, stations: seq<seq<nat>>, angle: (real, real) -> real)
    returns (r: Result<(seq<seq<Vec3>>, nat)>)
    requires StationsInRange(verts, stations)
    ensures r == RingsOf(verts, stations, angle)
  {
    ghost var all := StationRings(verts, stations, angle);
    var rings: seq<seq<Vec3>> := [];
    var halfNMax := 0;
    var s := 0;
    while s < |stations|
      invariant 0 <= s <= |stations|
      invariant Collect(all[..s]) == Ok((rings, halfNMax))
    {
      var station := stations[s];
      assert all[s] == StationRing(verts, station, angle);
      if |station| == 1 {
        var ring := TipRingAt(verts[station[0]]);
        CollectStep(all, s, rings, halfNMax, ring, 0);
        rings := rings + [ring];
        s := s + 1;
        continue;
      }
      var mid := MidRing(PointsOf(verts, station), angle);
      if mid.Err? {
        CollectOk(all[..s]);
        forall i | 0 <= i < s ensures all[i].Ok? {
          assert all[..s][i] == all[i];
        }
        CollectErr(all, s);
        return Err(mid.error);
      }
      var (ring, nHalf) := mid.value;
      CollectStep(all, s, rings, halfNMax, ring, nHalf);
      if nHalf > halfNMax {
        halfNMax := nHalf;
      }
      rings := rings + [ring];
      s := s + 1;
    }
    assert all[..s] == all;
    return Ok((rings, halfNMax));
  }

  /** The tip / tail branch: y and z in feet, snapped, on the centre plane,
      copied into all 18 slots. */
  method TipRingAt(p: Vec3) returns (ring: seq<Vec3>)
    ensures ring == TipRing(p)
  {
    var yFt, zFt := p.y * FtPerM, p.z * FtPerM;
    if AbsReal(yFt) < Eps {
      yFt := 0.0;
    }
    if AbsReal(zFt) < Eps {
      zFt := 0.0;
    }
    ring := seq(RingSlots, _ => Vec3(0.0, yFt, zFt));
  }

  /** build_pm_rings_for_mesh: recentre x on the mid-point of the x extent,
      build the adjacency and the stations, then one ring per station. The
      neighbour sets and the layering are returned as ghost results so that
      the contract can name them. */
  method BuildPmRings(verts: seq<Vec3>, faces: seq<seq<nat>>, angle: (real, real) -> real)
    returns (r: Result<MeshRings>, ghost nb: seq<set<nat>>, ghost dist: map<nat, nat>, ghost order: seq<nat>)
    requires ValidFaces(|verts|, faces)
    ensures |verts| == 0 ==> r == Ok(MeshRings(0.0, [], 0))
    ensures |verts| > 0 ==> MeshLayering(Centered(verts), faces, nb, dist, order)
    ensures |verts| > 0 ==> GroupsInRange(Centered(verts), dist, order)
    ensures |verts| > 0 ==> r == RingsResult(Centered(verts), CenterX(verts) * FtPerM, angle, Groups(Centered(verts), dist, order))
    ensures r.Ok? ==> RingsShaped(r.value)
  {
    if |verts| == 0 {
      r, nb, dist, order := Ok(MeshRings(0.0, [], 0)), [], map[], [];
    } else {
      var centerX := CenterX(verts);
      var local := ShiftX(verts, centerX);
      r, nb, dist, order := CenteredRings(local, centerX * FtPerM, faces, angle);
    }
  }

  /** The body of build_pm_rings_for_mesh once the mesh is recentred and
      `part_x` (feet) is known. */
  method CenteredRings(local: seq<Vec3>, partX: real, faces: seq<seq<nat>>, angle: (real, real) -> real)
    returns (r: Result<MeshRings>, ghost nb: seq<set<nat>>, ghost dist: map<nat, nat>, ghost order: seq<nat>)
    requires |local| > 0 && ValidFaces(|local|, faces)
    ensures MeshLayering(local, faces, nb, dist, order)
    ensures GroupsInRange(local, dist, order)
    ensures r == RingsResult(local, partX, angle, Groups(local, dist, order))
    ensures r.Ok? ==> RingsShaped(r.value) && r.value.partX == partX && 2 <= |r.value.rings| <= DefaultMaxStations
  {
    var groups;
    groups, nb, dist, order := MeshStations(local, faces);
    if groups.Err? {
      r := Err(groups.error);
    } else {
      var built := RingsForStations(local, groups.value, angle);
      if built.Err? {
        r := Err(built.error);
      } else {
        var (rings, halfNMax) := built.value;
        r := Ok(MeshRings(partX, rings, halfNMax));
        RingsOfShape(local, groups.value, angle);
        StationGroupsShape(order, dist, ArgMinZ(local), ArgMaxZ(local), DefaultMaxStations);
      }
    }
  }

  /** Every ring has 18 slots, and `half_n_max` is 0 or a half size within 5..9. */
  predicate RingsShaped(m: MeshRings) {
    && (m.halfNMax == 0 || 5 <= m.halfNMax <= 9)
    && forall s :: 0 <= s < |m.rings| ==> |m.rings[s]| == RingSlots
  }

  /** The mid-point of the x extent (metres). */
  function CenterX(verts: seq<Vec3>): real
    requires |verts| > 0
  {
    (MinX(verts) + MaxX(verts)) / 2.0
  }

  /** The mesh recentred so that its x extent is symmetric about 0. */
  function Centered(verts: seq<Vec3>): seq<Vec3>
    requires |verts| > 0
  {
    ShiftX(verts, CenterX(verts))
  }

  /** The station grouping for a layering of the recentred mesh. */
  function Groups(local: seq<Vec3>, dist: map<nat, nat>, order: seq<nat>): Result<seq<seq<nat>>>
    requires |local| > 0
  {
    StationGroupsSpec(order, dist, ArgMinZ(local), ArgMaxZ(local), DefaultMaxStations)
  }

  /** Every vertex index of a successful grouping is a vertex of `local`. */
  predicate GroupsInRange(local: seq<Vec3>, dist: map<nat, nat>, order: seq<nat>)
    requires |local| > 0
  {
    Groups(local, dist, order).Ok? ==> StationsInRange(local, Groups(local, dist, order).value)
  }

  /** What build_pm_rings_for_mesh returns for the recentred mesh `local`
      given its station grouping: the grouping's error, a ring error, or
      `part_x` with the rings and `half_n_max`. */
  function RingsResult(local: seq<Vec3>, partX: real, angle: (real, real) -> real, groups: Result<seq<seq<nat>>>)
    : Result<MeshRings>
    requires groups.Ok? ==> StationsInRange(local, groups.value)
  {
    match groups
    case Err(e) => Err(e)
    case Ok(st) =>
      match RingsOf(local, st, angle)
      case Err(e) => Err(e)
      case Ok((rs, m)) => Ok(MeshRings(partX, rs, m))
  }
}
