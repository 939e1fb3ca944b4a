/** Points, the metre-to-foot factor and the epsilon snapping shared by the
    ring builders. */
module Geometry {
  import opened NumText

  /** A vertex or grid point (x lateral, y vertical, z along the body). */
  datatype Vec3 = Vec3(x: real, y: real, z: real)

  const FtPerM: real := 3.28084
  const Origin: Vec3 := Vec3(0.0, 0.0, 0.0)

  /** `if abs(v) < eps: v = 0.0` */
  function Snap(v: real, eps: real): (r: real)
    ensures r == 0.0 || r == v
    ensures AbsReal(v) < eps ==> r == 0.0
  {
    if AbsReal(v) < eps then 0.0 else v
  }

  function ToFeet(p: Vec3): Vec3 {
    Vec3(p.x * FtPerM, p.y * FtPerM, p.z * FtPerM)
  }

  /** Component k of a point: 0 is x, 1 is y, anything else z. */
  function Component(p: Vec3, k: int): real {
    if k == 0 then p.x else if k == 1 then p.y else p.z
  }

  /** The first index holding the smallest z (Python `min(range(n), key=z)`). */
  function ArgMinZ(verts: seq<Vec3>): (k: nat)
    requires |verts| > 0
    ensures k < |verts|
    ensures forall i :: 0 <= i < |verts| ==> verts[k].z <= verts[i].z
    ensures forall i :: 0 <= i < k ==> verts[i].z > verts[k].z
    decreases |verts|
  {
    if |verts| == 1 then 0
    else
      var k := ArgMinZ(verts[..|verts| - 1]);
      if verts[|verts| - 1].z < verts[k].z then |verts| - 1 else k
  }

  /** The first index holding the largest z (Python `max(range(n), key=z)`). */
  function ArgMaxZ(verts: seq<Vec3>): (k: nat)
    requires |verts| > 0
    ensures k < |verts|
    ensures forall i :: 0 <= i < |verts| ==> verts[k].z >= verts[i].z
    ensures forall i :: 0 <= i < k ==> verts[i].z < verts[k].z
    decreases |verts|
  {
    if |verts| == 1 then 0
    else
      var k := ArgMaxZ(verts[..|verts| - 1]);
      if verts[|verts| - 1].z > verts[k].z then |verts| - 1 else k
  }

  /** `min(v[0] for v in verts)` */
  function MinX(verts: seq<Vec3>): (m: real)
    requires |verts| > 0
    ensures forall i :: 0 <= i < |verts| ==> m <= verts[i].x
    ensures exists i :: 0 <= i < |verts| && m == verts[i].x
    decreases |verts|
  {
    if |verts| == 1 then verts[0].x
    else
      var m := MinX(verts[..|verts| - 1]);
      assert verts[..|verts| - 1][0] == verts[0];
      if verts[|verts| - 1].x < m then verts[|verts| - 1].x else m
  }

  /** `max(v[0] for v in verts)` */
  function MaxX(verts: seq<Vec3>): (m: real)
    requires |verts| > 0
    ensures forall i :: 0 <= i < |verts| ==> m >= verts[i].x
    ensures exists i :: 0 <= i < |verts| && m == verts[i].x
    decreases |verts|
  {
    if |verts| == 1 then verts[0].x
    else
      var m := MaxX(verts[..|verts| - 1]);
      if verts[|verts| - 1].x > m then verts[|verts| - 1].x else m
  }

  /** `[(x - c, y, z) for (x, y, z) in verts]` */
  function ShiftX(verts: seq<Vec3>, c: real): (r: seq<Vec3>)
    ensures |r| == |verts|
    ensures forall i :: 0 <= i < |verts| ==> r[i] == Vec3(verts[i].x - c, verts[i].y, verts[i].z)
  {
    seq(|verts|, i requires 0 <= i < |verts| => Vec3(verts[i].x - c, verts[i].y, verts[i].z))
  }

  /** Shifting every x by `c` shifts the x extent by `c`. */
  lemma {:induction false} ShiftXExtent(verts: seq<Vec3>, c: real)
    requires |verts| > 0
    ensures MinX(ShiftX(verts, c)) == MinX(verts) - c
    ensures MaxX(ShiftX(verts, c)) == MaxX(verts) - c
  {
    var r := ShiftX(verts, c);
    var i :| 0 <= i < |verts| && MinX(verts) == verts[i].x;
    var j :| 0 <= j < |verts| && MaxX(verts) == verts[j].x;
    var a :| 0 <= a < |r| && MinX(r) == r[a].x;
    var b :| 0 <= b < |r| && MaxX(r) == r[b].x;
    assert MinX(r) <= r[i].x;
    assert r[a].x == verts[a].x - c && verts[a].x >= MinX(verts);
    assert MaxX(r) >= r[j].x;
    assert r[b].x == verts[b].x - c && verts[b].x <= MaxX(verts);
  }

  /** Shifting by the mid-point of the x extent centres the extent on zero. */
  lemma ShiftByMidpointCentres(verts: seq<Vec3>)
    requires |verts| > 0
    ensures var r := ShiftX(verts, (MinX(verts) + MaxX(verts)) / 2.0);
            MinX(r) == -MaxX(r) && MaxX(r) == (MaxX(verts) - MinX(verts)) / 2.0
  {
    var lo, hi := MinX(verts), MaxX(verts);
    var c := (lo + hi) / 2.0;
    ShiftXExtent(verts, c);
    var r := ShiftX(verts, c);
    assert MinX(r) == lo - c && MaxX(r) == hi - c;
  }
}
