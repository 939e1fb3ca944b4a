/** The `_geo_xyz` entries the single-body importer writes from z-sorted
    stations: empty stations are all zero, the tip and the last non-empty
    station broadcast their mean y and z, and a middle station puts its
    x >= 0 half, highest first, in the right slots and its mirror image in
    the left slots. */
module GeoLiteral {
  import opened Wrappers
  import opened NumText
  import opened Geometry
  import opened Seqs
  import opened Sorting
  import opened GeoLine
  import opened PmGrid
  import opened ZStations

  /** `J = max(2, int(target_j))` */
  function SlotCount(targetJ: int): (n: nat)
    ensures n >= 2
  {
    if targetJ < 2 then 2 else targetJ
  }

  /** `max(1, n)` */
  function AtLeastOne(n: nat): (m: nat)
    ensures m >= 1
  {
    if n < 1 then 1 else n
  }

  /** `js_right = list(range(0, half))` */
  function RightSlots(slots: nat): seq<int> {
    Range(0, slots / 2)
  }

  /** `js_left = list(range(J - 1, half - 1, -1))` */
  function LeftSlots(slots: nat): (r: seq<int>)
    ensures |r| == slots - slots / 2
  {
    seq(slots - slots / 2, p requires 0 <= p < slots - slots / 2 => slots - 1 - p)
  }

  /** The right slots are the lower half, the left slots the upper half
      counted down from the last; together they are every slot once. */
  lemma SlotHalves(slots: nat)
    requires slots >= 2
    ensures |RightSlots(slots)| == slots / 2 >= 1 && |LeftSlots(slots)| == slots - slots / 2 >= 1
    ensures forall q :: 0 <= q < |RightSlots(slots)| ==> RightSlots(slots)[q] == q
    ensures forall p :: 0 <= p < |LeftSlots(slots)| ==> slots / 2 <= LeftSlots(slots)[p] == slots - 1 - p < slots
  {
  }

  function Mirror(p: Vec3): Vec3 {
    Vec3(-p.x, p.y, p.z)
  }

  function NonNegX(v: Vec3): bool { v.x >= 0.0 }

  function YOf(v: Vec3): real { v.y }

  /** `[v for v in verts_here if v[0] >= 0.0] or verts_here[:]` */
  function HalfPoints(verts: seq<Vec3>): seq<Vec3> {
    var pos := Filter(verts, NonNegX);
    if |pos| == 0 then verts else pos
  }

  /** The half kept is the x >= 0 vertices when there are any, all of them
      otherwise. */
  lemma HalfPointsKept(verts: seq<Vec3>)
    ensures (exists i :: 0 <= i < |verts| && verts[i].x >= 0.0) ==>
              forall v :: v in HalfPoints(verts) ==> v in verts && v.x >= 0.0
    ensures (forall i :: 0 <= i < |verts| ==> verts[i].x < 0.0) ==> HalfPoints(verts) == verts
  {
    if exists i :: 0 <= i < |verts| && verts[i].x >= 0.0 {
      var i :| 0 <= i < |verts| && verts[i].x >= 0.0;
      assert verts[i] in Filter(verts, NonNegX);
    } else {
      FilterNone(verts, NonNegX);
    }
  }

  /** `sorted(pos, key=lambda v: v[1], reverse=True)` */
  function HalfSorted(verts: seq<Vec3>): (r: seq<Vec3>)
    ensures multiset(r) == multiset(HalfPoints(verts))
    ensures forall a, c :: 0 <= a < c < |r| ==> r[a].y >= r[c].y
  {
    SortDescendingCorrect(HalfPoints(verts), YOf);
    SortDescending(HalfPoints(verts), YOf)
  }

  function SumY(verts: seq<Vec3>): real
    decreases |verts|
  {
    if |verts| == 0 then 0.0 else SumY(verts[..|verts| - 1]) + verts[|verts| - 1].y
  }

  function SumZ(verts: seq<Vec3>): real
    decreases |verts|
  {
    if |verts| == 0 then 0.0 else SumZ(verts[..|verts| - 1]) + verts[|verts| - 1].z
  }

  /** The point a tip or tail broadcasts: `(0, mean y, mean z)` in feet. */
  function TipPoint(verts: seq<Vec3>): Vec3
    requires |verts| > 0
  {
    Vec3(0.0, SumY(verts) / |verts| as real * FtPerM, SumZ(verts) / |verts| as real * FtPerM)
  }

  /** A station whose vertices share y and z broadcasts them. */
  lemma {:induction false} SumsOfLevel(verts: seq<Vec3>, y: real, z: real)
    requires forall i :: 0 <= i < |verts| ==> verts[i].y == y && verts[i].z == z
    ensures SumY(verts) == |verts| as real * y && SumZ(verts) == |verts| as real * z
    decreases |verts|
  {
    if |verts| > 0 {
      SumsOfLevel(verts[..|verts| - 1], y, z);
    }
  }

  lemma TipPointOfLevel(verts: seq<Vec3>, y: real, z: real)
    requires |verts| > 0
    requires forall i :: 0 <= i < |verts| ==> verts[i].y == y && verts[i].z == z
    ensures TipPoint(verts) == Vec3(0.0, y * FtPerM, z * FtPerM)
  {
    SumsOfLevel(verts, y, z);
  }

  // ------------------------------------------------------------- the cells

  /** The `cell` dictionary after the first |pts| points: point idx in feet
      at right slot `js_right[idx % len]`, its mirror at left slot
      `js_left[idx % len]`, later points overwriting earlier ones. */
  function CellAfter(pts: seq<Vec3>, slots: nat): map<int, Vec3>
    requires slots >= 2
    decreases |pts|
  {
    if |pts| == 0 then map[]
    else
      var idx := |pts| - 1;
      var p := ToFeet(pts[idx]);
      var right := RightSlots(slots)[idx % AtLeastOne(|RightSlots(slots)|)];
      var left := LeftSlots(slots)[idx % AtLeastOne(|LeftSlots(slots)|)];
      CellAfter(pts[..idx], slots)[right := p][left := Mirror(p)]
  }

  /** `cell.get((j, k), 0.0)` for the three axes of slot j. */
  function SlotValue(cell: map<int, Vec3>, j: int): Vec3 {
    if j in cell then cell[j] else Origin
  }

  /** The last of the first n indices that is r modulo m, if any. */
  function LastWriter(n: nat, m: nat, r: nat): (w: Option<nat>)
    requires m > 0
    ensures w.Some? ==> w.value < n
    decreases n
  {
    if n == 0 then None else if (n - 1) % m == r then Some(n - 1) else LastWriter(n - 1, m, r)
  }

  /** The writer is the last index below n that is r modulo m, and there
      is none exactly when no index below n is. */
  lemma {:induction false} LastWriterIs(n: nat, m: nat, r: nat)
    requires m > 0
    ensures var w := LastWriter(n, m, r);
            && (w.Some? ==> w.value % m == r && forall k :: w.value < k < n ==> k % m != r)
            && (w.None? ==> forall k :: 0 <= k < n ==> k % m != r)
    decreases n
  {
    if n > 0 && (n - 1) % m != r {
      LastWriterIs(n - 1, m, r);
    }
  }

  /** A right slot holds the last point that went there, a left slot the
      mirror of the last point that went there, and a slot nothing went to
      is absent. */
  lemma {:induction false} CellAfterSlots(pts: seq<Vec3>, slots: nat, j: int)
    requires slots >= 2
    ensures var cell := CellAfter(pts, slots);
            var half := slots / 2;
            && (0 <= j < half ==>
                  (j in cell <==> LastWriter(|pts|, half, j).Some?)
                  && (j in cell ==> cell[j] == ToFeet(pts[LastWriter(|pts|, half, j).value])))
            && (half <= j < slots ==>
                  (j in cell <==> LastWriter(|pts|, slots - half, slots - 1 - j).Some?)
                  && (j in cell ==> cell[j] == Mirror(ToFeet(pts[LastWriter(|pts|, slots - half, slots - 1 - j).value]))))
            && (!(0 <= j < slots) ==> j !in cell)
    decreases |pts|
  {
    if |pts| > 0 {
      var idx := |pts| - 1;
      SlotHalves(slots);
      CellAfterSlots(pts[..idx], slots, j);
      assert forall k :: 0 <= k < idx ==> pts[..idx][k] == pts[k];
    }
  }

  /** With no wrap-around (at most half as many points as slots), point q
      goes to right slot q and left slot J-1-q. */
  lemma LastWriterNoWrap(n: nat, m: nat, r: nat)
    requires 0 < m && n <= m && r < m
    ensures LastWriter(n, m, r) == if r < n then Some(r) else None
  {
    var w := LastWriter(n, m, r);
    LastWriterIs(n, m, r);
    if w.Some? {
      ModBelow(w.value, m);
    }
    if r < n {
      ModBelow(r, m);
    }
  }

  lemma ModBelow(a: nat, m: nat)
    requires a < m
    ensures a % m == a
  {
  }

  /** What a right slot reads as: the last point written there, or zero. */
  lemma RightSlotValue(pts: seq<Vec3>, slots: nat, j: nat)
    requires slots >= 2 && j < slots / 2
    ensures var w := LastWriter(|pts|, slots / 2, j);
            SlotValue(CellAfter(pts, slots), j) == if w.Some? then ToFeet(pts[w.value]) else Origin
  {
    CellAfterSlots(pts, slots, j);
  }

  /** What a left slot reads as: the mirror of the last point written there, or zero. */
  lemma LeftSlotValue(pts: seq<Vec3>, slots: nat, j: nat)
    requires slots >= 2 && j < slots / 2
    ensures var w := LastWriter(|pts|, slots - slots / 2, j);
            SlotValue(CellAfter(pts, slots), slots - 1 - j) == if w.Some? then Mirror(ToFeet(pts[w.value])) else Origin
  {
    var jl := slots - 1 - j;
    assert slots / 2 <= jl < slots && slots - 1 - jl == j;
    CellAfterSlots(pts, slots, jl);
  }

  /** Each left slot holds the mirror of its paired right slot (the same y
      and z, x negated) when the slot count is even or no point wraps
      around; a slot no point reached is zero on both sides. */
  lemma MirroredSlots(pts: seq<Vec3>, slots: nat, j: nat)
    requires slots >= 2 && j < slots / 2
    requires slots % 2 == 0 || |pts| <= slots / 2
    ensures var cell := CellAfter(pts, slots);
            SlotValue(cell, slots - 1 - j) == Mirror(SlotValue(cell, j))
  {
    RightSlotValue(pts, slots, j);
    LeftSlotValue(pts, slots, j);
    SameWriter(|pts|, slots, j);
    assert Mirror(Origin) == Origin;
  }

  /** The left slot paired with right slot j is written by the same point. */
  lemma SameWriter(n: nat, slots: nat, j: nat)
    requires slots >= 2 && j < slots / 2
    requires slots % 2 == 0 || n <= slots / 2
    ensures LastWriter(n, slots - slots / 2, j) == LastWriter(n, slots / 2, j)
  {
    var half := slots / 2;
    if slots % 2 == 0 {
      assert slots - half == half;
    } else {
      LastWriterNoWrap(n, half, j);
      LastWriterNoWrap(n, slots - half, j);
    }
  }

  // ---------------------------------------------------------- the stations

  function NonEmpty(st: seq<Vec3>): bool { |st| > 0 }

  /** `last_non_empty_idx`: the index of the last non-empty station, -1 for none. */
  function LastNonEmpty(stations: seq<seq<Vec3>>): (k: int)
    ensures -1 <= k < |stations|
    ensures k >= 0 ==> |stations[k]| > 0
    ensures forall i :: k < i < |stations| ==> |stations[i]| == 0
  {
    match LastWhere(stations, NonEmpty)
    case Some(k) => k
    case None => -1
  }

  /** The slots of station i: zero when it is empty, the broadcast point at
      the tip and at the last non-empty station, the cells otherwise. */
  function StationSlots(st: seq<Vec3>, i: int, last: int, slots: nat, tipTail: bool): (r: seq<Vec3>)
    requires slots >= 2
    ensures |r| == slots
  {
    if |st| == 0 then seq(slots, _ => Origin)
    else if tipTail && (i == 0 || i == last) then seq(slots, _ => TipPoint(st))
    else
      var cell := CellAfter(HalfSorted(st), slots);
      seq(slots, j requires 0 <= j < slots => SlotValue(cell, j))
  }

  /** The points of every slot of every padded station. */
  function GeoGrid(stationsMesh: seq<seq<Vec3>>, targetI: int, targetJ: int, tipTail: bool): (g: seq<seq<Vec3>>)
    ensures |g| == |PadOrTruncate(stationsMesh, targetI)|
    ensures forall i :: 0 <= i < |g| ==> |g[i]| == SlotCount(targetJ)
  {
    var stations := PadOrTruncate(stationsMesh, targetI);
    StationRows(stations, LastNonEmpty(stations), SlotCount(targetJ), tipTail)
  }

  /** The slots of every station, in station order. */
  function StationRows(stations: seq<seq<Vec3>>, last: int, slots: nat, tipTail: bool): (g: seq<seq<Vec3>>)
    requires slots >= 2
    ensures |g| == |stations|
    ensures forall i :: 0 <= i < |g| ==> |g[i]| == slots
  {
    seq(|stations|, i requires 0 <= i < |stations| => StationSlots(stations[i], i, last, slots, tipTail))
  }

  lemma GeoGridCovers(stationsMesh: seq<seq<Vec3>>, targetI: int, targetJ: int, tipTail: bool)
    ensures var g := GeoGrid(stationsMesh, targetI, targetJ, tipTail);
            GridCovers(g, Range(0, |g|), Range(0, SlotCount(targetJ)))
  {
  }

  /** generate_geo_xyz_literal_from_stations: stations in ascending order,
      slots in ascending order, axes x, y, z. */
  function GeoLiteral(stationsMesh: seq<seq<Vec3>>, b: int, targetI: int, targetJ: int, tipTail: bool): seq<string> {
    var g := GeoGrid(stationsMesh, targetI, targetJ, tipTail);
    GeoGridCovers(stationsMesh, targetI, targetJ, tipTail);
    RenderCells(b, GridCells(g, Range(0, |g|), Range(0, SlotCount(targetJ))))
  }

  /** The backward scan for the last non-empty station. */
  method FindLastNonEmpty(stations: seq<seq<Vec3>>) returns (last: int)
    ensures last == LastNonEmpty(stations)
  {
    var k := |stations|;
    while k > 0
      invariant 0 <= k <= |stations|
      invariant forall i :: k <= i < |stations| ==> |stations[i]| == 0
    {
      k := k - 1;
      if |stations[k]| > 0 {
        LastWhereIs(stations, NonEmpty, k);
        return k;
      }
    }
    return -1;
  }

  /** The `for idx, ... in enumerate(pos_sorted)` loop filling `cell`. */
  method FillCells(pts: seq<Vec3>, slots: nat) returns (cell: map<int, Vec3>)
    requires slots >= 2
    ensures cell == CellAfter(pts, slots)
  {
    var jsRight := RightSlots(slots);
    var jsLeft := LeftSlots(slots);
    cell := map[];
    var idx := 0;
    while idx < |pts|
      invariant idx <= |pts|
      invariant cell == CellAfter(pts[..idx], slots)
    {
      var p := ToFeet(pts[idx]);
      var right := jsRight[idx % AtLeastOne(|jsRight|)];
      var left := jsLeft[idx % AtLeastOne(|jsLeft|)];
      cell := cell[right := p][left := Mirror(p)];
      assert pts[..idx + 1][..idx] == pts[..idx];
      idx := idx + 1;
    }
    assert pts[..idx] == pts;
  }

  /** The slots of one station, as the station loop body computes them. */
  method ComputeStationSlots(st: seq<Vec3>, i: int, last: int, slots: nat, tipTail: bool) returns (r: seq<Vec3>)
    requires slots >= 2
    ensures r == StationSlots(st, i, last, slots, tipTail)
  {
    if |st| == 0 {
      return seq(slots, _ => Origin);
    }
    if tipTail && (i == 0 || i == last) {
      return seq(slots, _ => TipPoint(st));
    }
    var cell := FillCells(HalfSorted(st), slots);
    r := seq(slots, j requires 0 <= j < slots => SlotValue(cell, j));
  }

  /** The station loop: the slots of every station in turn. */
  method ComputeGrid(stations: seq<seq<Vec3>>, last: int, slots: nat, tipTail: bool) returns (grid: seq<seq<Vec3>>)
    requires slots >= 2
    ensures grid == StationRows(stations, last, slots, tipTail)
  {
    ghost var rows := StationRows(stations, last, slots, tipTail);
    grid := [];
    var i := 0;
    while i < |stations|
      invariant i <= |stations| && grid == rows[..i]
    {
      var r := ComputeStationSlots(stations[i], i, last, slots, tipTail);
      assert rows[i] == r;
      TakeSnoc(rows, i);
      grid := grid + [r];
      i := i + 1;
    }
    assert rows[..i] == rows;
  }

  /** One more element of a prefix. */
  lemma TakeSnoc<T>(s: seq<T>, i: nat)
    requires i < |s|
    ensures s[..i + 1] == s[..i] + [s[i]]
  {
  }

  method GenerateGeoXyzLiteral(stationsMesh: seq<seq<Vec3>>, b: int, targetI: int, targetJ: int, tipTail: bool)
    returns (lines: seq<string>)
    ensures lines == GeoLiteral(stationsMesh, b, targetI, targetJ, tipTail)
  {
    var stations := PadOrTruncateStations(stationsMesh, targetI);
    var slots := SlotCount(targetJ);
    var last := FindLastNonEmpty(stations);
    var grid := ComputeGrid(stations, last, slots, tipTail);
    assert grid == GeoGrid(stationsMesh, targetI, targetJ, tipTail);
    GeoGridCovers(stationsMesh, targetI, targetJ, tipTail);
    lines := AppendGrid([], b, grid, Range(0, |grid|), Range(0, slots));
  }

  /** The lines are target_i · J · 3 entries. */
  lemma GeoLiteralCount(stationsMesh: seq<seq<Vec3>>, b: int, targetI: nat, targetJ: int, tipTail: bool)
    ensures |GeoLiteral(stationsMesh, b, targetI, targetJ, tipTail)| == 3 * targetI * SlotCount(targetJ)
  {
    var g := GeoGrid(stationsMesh, targetI, targetJ, tipTail);
    var slots := SlotCount(targetJ);
    PadOrTruncateShape(stationsMesh, targetI);
    GeoGridCovers(stationsMesh, targetI, targetJ, tipTail);
    assert |GeoLiteral(stationsMesh, b, targetI, targetJ, tipTail)| == Times(|g|, 3 * |Range(0, slots)|);
    TimesIsProduct(targetI, 3 * slots);
    ProductShape(targetI, slots);
  }

  /** Stations then slots then axes ascending: line
      EntryIndex(i, J, j, k) = 3(iJ + j) + k is axis k of slot j of station i. */
  lemma GeoLiteralAt(stationsMesh: seq<seq<Vec3>>, b: int, targetI: nat, targetJ: int, tipTail: bool,
                     i: nat, j: nat, k: nat)
    requires i < targetI && j < SlotCount(targetJ) && k < 3
    ensures var lines := GeoLiteral(stationsMesh, b, targetI, targetJ, tipTail);
            var slots := SlotCount(targetJ);
            && EntryIndex(i, slots, j, k) < |lines|
            && lines[EntryIndex(i, slots, j, k)]
               == Render(b, i, j, k, Component(GeoGrid(stationsMesh, targetI, targetJ, tipTail)[i][j], k))
  {
    var g := GeoGrid(stationsMesh, targetI, targetJ, tipTail);
    var slots := SlotCount(targetJ);
    PadOrTruncateShape(stationsMesh, targetI);
    RangeCellsAt(g, slots, i, j, k);
    var cells := GridCells(g, Range(0, |g|), Range(0, slots));
    var t := EntryIndex(i, slots, j, k);
    assert cells[t] == Cell(i, j, k, Component(g[i][j], k));
    RenderCellsAt(b, cells, t);
  }

  /** The entries of a grid listed station by station and slot by slot. */
  lemma RangeCellsAt(g: seq<seq<Vec3>>, slots: nat, i: nat, j: nat, k: nat)
    requires forall a :: 0 <= a < |g| ==> |g[a]| == slots
    requires i < |g| && j < slots && k < 3
    ensures GridCovers(g, Range(0, |g|), Range(0, slots))
    ensures var cells := GridCells(g, Range(0, |g|), Range(0, slots));
            && EntryIndex(i, slots, j, k) < |cells|
            && cells[EntryIndex(i, slots, j, k)] == Cell(i, j, k, Component(g[i][j], k))
  {
    var io, jo := Range(0, |g|), Range(0, slots);
    RangeCovers(g, slots);
    assert io[i] == i;
    assert jo[j] == j;
    assert |jo| == slots;
    GridCellsAt(g, io, jo, i, j, k);
    assert EntryIndex(i, slots, j, k) == Times(i, 3 * |jo|) + 3 * j + k;
  }

  lemma RenderCellsAt(b: int, cells: seq<Cell>, t: nat)
    requires t < |cells|
    ensures RenderCells(b, cells)[t] == Render(b, cells[t].i, cells[t].j, cells[t].k, cells[t].v)
  {
  }

  /** Every slot of a rectangular grid is covered by the ascending orders. */
  lemma RangeCovers(g: seq<seq<Vec3>>, slots: nat)
    requires forall a :: 0 <= a < |g| ==> |g[a]| == slots
    ensures GridCovers(g, Range(0, |g|), Range(0, slots))
  {
    var io, jo := Range(0, |g|), Range(0, slots);
    forall a | 0 <= a < |io| ensures StationCovered(g, io[a], jo) {
      assert io[a] == a;
    }
  }

  /** What each slot of the grid holds: zero for an empty (or padding)
      station, the broadcast point for the tip and the last non-empty
      station, and otherwise the cell, zero where no point went. */
  lemma GeoGridSlot(stationsMesh: seq<seq<Vec3>>, targetI: nat, targetJ: int, tipTail: bool, i: nat, j: nat)
    requires i < targetI && j < SlotCount(targetJ)
    ensures var stations := PadOrTruncate(stationsMesh, targetI);
            var p := GeoGrid(stationsMesh, targetI, targetJ, tipTail)[i][j];
            && (i >= |stationsMesh| ==> p == Origin)
            && (|stations[i]| == 0 ==> p == Origin)
            && (|stations[i]| > 0 && tipTail && (i == 0 || i == LastNonEmpty(stations)) ==> p == TipPoint(stations[i]))
            && (|stations[i]| > 0 && !(tipTail && (i == 0 || i == LastNonEmpty(stations))) ==>
                  p == SlotValue(CellAfter(HalfSorted(stations[i]), SlotCount(targetJ)), j))
  {
    PadOrTruncateShape(stationsMesh, targetI);
  }
}
