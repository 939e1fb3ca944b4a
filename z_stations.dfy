/** The z-sorted fallback stationing of the single-body importer: centring
    a mesh on x, cutting its vertices sorted by z into a nose tip, chunks
    of a fixed size and a tail tip, and padding or truncating the station
    list to the grid's station count. */
module ZStations {
  import opened NumText
  import opened Geometry
  import opened Seqs
  import opened Sorting

  // --------------------------------------------------------------- centring

  /** `abs(center_x) < 1e-12` leaves the vertices alone. */
  const CenterEps: real := 0.000000000001

  /** compute_center_x: the middle of the x extent, 0.0 for no vertices. */
  function CenterX(verts: seq<Vec3>): real {
    if |verts| == 0 then 0.0 else (MinX(verts) + MaxX(verts)) / 2.0
  }

  /** recenter_vertices_x */
  function RecenterX(verts: seq<Vec3>, c: real): (r: seq<Vec3>)
    ensures |r| == |verts|
    ensures forall i :: 0 <= i < |r| ==> r[i].y == verts[i].y && r[i].z == verts[i].z
    ensures forall i :: 0 <= i < |r| ==> r[i].x == verts[i].x || (AbsReal(c) >= CenterEps && r[i].x == verts[i].x - c)
  {
    if AbsReal(c) < CenterEps then verts else ShiftX(verts, c)
  }

  /** Recentering on the computed centre leaves a mesh whose computed
      centre is (within the tolerance) zero, and keeps its x width. */
  lemma RecenterCentres(verts: seq<Vec3>)
    ensures var r := RecenterX(verts, CenterX(verts));
            && AbsReal(CenterX(r)) < CenterEps
            && (|verts| > 0 ==> MaxX(r) - MinX(r) == MaxX(verts) - MinX(verts))
  {
    var c := CenterX(verts);
    var r := RecenterX(verts, c);
    if AbsReal(c) < CenterEps {
      assert r == verts;
    } else {
      assert |verts| > 0 && r == ShiftX(verts, c);
      ShiftByMidpointCentres(verts);
      ShiftXExtent(verts, c);
      assert MinX(r) + MaxX(r) == 0.0;
      assert CenterX(r) == 0.0;
    }
  }

  // ------------------------------------------------------------- stationing

  function ZOf(v: Vec3): real { v.z }

  /** `sorted(verts, key=lambda v: v[2])`: ordered by z, a permutation. */
  function SortedByZ(verts: seq<Vec3>): (r: seq<Vec3>)
    ensures |r| == |verts| && multiset(r) == multiset(verts)
    ensures forall i, j :: 0 <= i < j < |r| ==> r[i].z <= r[j].z
  {
    SortAscendingCorrect(verts, ZOf);
    SortAscending(verts, ZOf)
  }

  function MinNat(a: nat, b: nat): nat {
    if a <= b then a else b
  }

  /** `[s[off:off + w], s[off + w:off + 2w], ...]` up to the end of s. */
  function ChunksFrom<T>(s: seq<T>, w: nat, off: nat): (r: seq<seq<T>>)
    requires w > 0
    ensures forall c :: 0 <= c < |r| ==> 0 < |r[c]| <= w
    ensures forall c :: 0 <= c < |r| - 1 ==> |r[c]| == w
    decreases |s| - off
  {
    if off >= |s| then []
    else
      [s[off..MinNat(off + w, |s|)]] + ChunksFrom(s, w, off + w)
  }

  /** The chunks hold the rest of s, in order. */
  lemma {:induction false} ChunksFlatten<T>(s: seq<T>, w: nat, off: nat)
    requires w > 0 && off <= |s|
    ensures Flatten(ChunksFrom(s, w, off)) == s[off..]
    decreases |s| - off
  {
    if off < |s| {
      var next := MinNat(off + w, |s|);
      var head := s[off..next];
      var rest := ChunksFrom(s, w, off + w);
      assert ChunksFrom(s, w, off) == [head] + rest;
      FlattenAppend([head], rest);
      assert Flatten([head]) == Flatten([]) + head;
      if off + w < |s| {
        ChunksFlatten(s, w, off + w);
        assert s[off..] == head + s[next..];
      } else {
        assert rest == [];
        assert s[off..] == head;
      }
    }
  }

  /** `v_sorted[1:-1]` */
  function Middle(s: seq<Vec3>): seq<Vec3> {
    if |s| >= 2 then s[1..|s| - 1] else []
  }

  /** The stations after the tip, before the tail. */
  function MidStations(middle: seq<Vec3>, perLoop: int): seq<seq<Vec3>>
    requires perLoop > 0 || |middle| == 0
  {
    if |middle| == 0 then [] else ChunksFrom(middle, perLoop, 0)
  }

  /** build_stations_from_geometry. The `while off < n_mid` loop ends only
      when the chunk size is positive or there is no middle. */
  function ZStations(verts: seq<Vec3>, perLoop: int, tipTail: bool): seq<seq<Vec3>>
    requires perLoop > 0 || |verts| <= 2
  {
    if |verts| == 0 then []
    else
      var s := SortedByZ(verts);
      if |s| < 1 + perLoop + 1 then [s]
      else
        (if tipTail then [[s[0]]] else [])
        + MidStations(Middle(s), perLoop)
        + (if tipTail then [[s[|s| - 1]]] else [])
  }

  /** The z-sorted stationing loop. */
  method BuildStationsFromGeometry(verts: seq<Vec3>, perLoop: int, tipTail: bool)
    returns (stations: seq<seq<Vec3>>)
    requires perLoop > 0 || |verts| <= 2
    ensures stations == ZStations(verts, perLoop, tipTail)
  {
    if |verts| == 0 {
      return [];
    }
    var sorted := SortedByZ(verts);
    if |sorted| < 1 + perLoop + 1 {
      return [sorted];
    }
    var tip := [sorted[0]];
    var tail := [sorted[|sorted| - 1]];
    var middle := Middle(sorted);
    stations := [];
    if tipTail {
      stations := stations + [tip];
    }
    var chunks := ChunkMiddle(middle, perLoop);
    stations := stations + chunks;
    if tipTail {
      stations := stations + [tail];
    }
  }

  /** The `while off < n_mid` loop: the middle cut into chunks. */
  method ChunkMiddle(middle: seq<Vec3>, perLoop: int) returns (chunks: seq<seq<Vec3>>)
    requires perLoop > 0 || |middle| == 0
    ensures chunks == MidStations(middle, perLoop)
  {
    chunks := [];
    if |middle| == 0 {
      return;
    }
    var off := 0;
    var nMid := |middle|;
    while off < nMid
      invariant ChunksFrom(middle, perLoop, 0) == chunks + ChunksFrom(middle, perLoop, off)
      decreases nMid - off
    {
      var chunk := middle[off..MinNat(off + perLoop, nMid)];
      assert ChunksFrom(middle, perLoop, off) == [chunk] + ChunksFrom(middle, perLoop, off + perLoop);
      chunks := chunks + [chunk];
      off := off + perLoop;
    }
  }

  /** Flattening a tip, the stations between and a tail. */
  lemma FlattenEnds<T>(a: T, mid: seq<seq<T>>, z: T)
    ensures Flatten([[a]] + mid + [[z]]) == [a] + Flatten(mid) + [z]
  {
    FlattenAppend([[a]], mid);
    FlattenAppend([[a]] + mid, [[z]]);
    assert Flatten([[a]]) == Flatten([]) + [a];
    assert Flatten([[z]]) == Flatten([]) + [z];
  }

  /** The tip, the chunks and the tail flatten back to the sorted list. */
  lemma FlattenLong(s: seq<Vec3>, perLoop: int)
    requires perLoop > 0 && |s| >= 2
    ensures Flatten([[s[0]]] + MidStations(Middle(s), perLoop) + [[s[|s| - 1]]]) == s
  {
    var m := Middle(s);
    var mid := MidStations(m, perLoop);
    assert Flatten(mid) == m by {
      if |m| > 0 {
        ChunksFlatten(m, perLoop, 0);
        assert m[0..] == m;
      }
    }
    FlattenEnds(s[0], mid, s[|s| - 1]);
    EndsAround(s);
  }

  /** A list of two or more is its first, its middle and its last. */
  lemma EndsAround(s: seq<Vec3>)
    requires |s| >= 2
    ensures [s[0]] + Middle(s) + [s[|s| - 1]] == s
  {
  }

  /** With tip and tail, the stations hold the z-sorted vertices in order:
      nothing is lost, duplicated or reordered. */
  lemma ZStationsFlatten(verts: seq<Vec3>, perLoop: int)
    requires perLoop > 0
    ensures Flatten(ZStations(verts, perLoop, true)) == SortedByZ(verts)
    ensures multiset(Flatten(ZStations(verts, perLoop, true))) == multiset(verts)
  {
    var s := SortedByZ(verts);
    if |verts| > 0 {
      if |s| < 1 + perLoop + 1 {
        assert Flatten([s]) == Flatten([]) + s;
      } else {
        FlattenLong(s, perLoop);
      }
    }
  }

  /** With at least chunk size + 2 vertices: the first station is a lowest
      z vertex alone, the last a highest z vertex alone, and the stations
      between are full chunks but perhaps the last. */
  lemma ZStationsShape(verts: seq<Vec3>, perLoop: int)
    requires perLoop > 0 && |verts| >= perLoop + 2
    ensures var st := ZStations(verts, perLoop, true);
            && |st| >= 3
            && |st[0]| == 1 && (forall i :: 0 <= i < |verts| ==> st[0][0].z <= verts[i].z)
            && |st[|st| - 1]| == 1 && (forall i :: 0 <= i < |verts| ==> st[|st| - 1][0].z >= verts[i].z)
            && (forall c :: 1 <= c < |st| - 1 ==> 0 < |st[c]| <= perLoop)
            && (forall c :: 1 <= c < |st| - 2 ==> |st[c]| == perLoop)
  {
    var s := SortedByZ(verts);
    var st := ZStations(verts, perLoop, true);
    var mid := MidStations(Middle(s), perLoop);
    assert st == [[s[0]]] + mid + [[s[|s| - 1]]];
    forall i | 0 <= i < |verts| ensures s[0].z <= verts[i].z && s[|s| - 1].z >= verts[i].z {
      assert verts[i] in multiset(s);
      var m :| 0 <= m < |s| && s[m] == verts[i];
    }
  }

  /** Fewer vertices make one station of all of them, z-sorted; none make
      no station. */
  lemma ZStationsFew(verts: seq<Vec3>, perLoop: int, tipTail: bool)
    requires perLoop > 0 && |verts| < perLoop + 2
    ensures |verts| == 0 ==> ZStations(verts, perLoop, tipTail) == []
    ensures |verts| > 0 ==> ZStations(verts, perLoop, tipTail) == [SortedByZ(verts)]
  {
  }

  // ---------------------------------------------------------------- padding

  /** The end of the Python slice `s[:t]` on a list of length n. */
  function SliceEnd(t: int, n: nat): (e: nat)
    ensures e <= n
  {
    if t >= 0 then MinNat(t, n) else if n + t >= 0 then n + t else 0
  }

  /** pad_or_truncate_stations */
  function PadOrTruncate(stations: seq<seq<Vec3>>, target: int): seq<seq<Vec3>> {
    if |stations| == target then stations
    else if |stations| > target then stations[..SliceEnd(target, |stations|)]
    else stations + seq(target - |stations|, _ => [])
  }

  /** The padding loop. */
  method PadOrTruncateStations(stations: seq<seq<Vec3>>, target: int) returns (out: seq<seq<Vec3>>)
    ensures out == PadOrTruncate(stations, target)
  {
    if |stations| == target {
      return stations;
    }
    if |stations| > target {
      return stations[..SliceEnd(target, |stations|)];
    }
    out := stations;
    while |out| < target
      invariant |stations| <= |out| <= target
      invariant out == stations + seq(|out| - |stations|, _ => [])
    {
      out := out + [[]];
    }
  }

  /** Exactly `target` stations: the originals first, unchanged, then
      empty ones. A negative target counts from the end, as the slice does. */
  lemma PadOrTruncateShape(stations: seq<seq<Vec3>>, target: int)
    ensures var r := PadOrTruncate(stations, target);
            && (target >= 0 ==> |r| == target)
            && (target >= 0 ==> forall i :: 0 <= i < |r| ==> r[i] == if i < |stations| then stations[i] else [])
            && (target < 0 ==> r == stations[..SliceEnd(target, |stations|)])
  {
  }
}
