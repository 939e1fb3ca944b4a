/** The Plane-Maker body grid: `_part_rad`, the padded station x slot
    grid, Plane-Maker's print order and the complete body block written
    from the rings of one body. */
module PmGrid {
  import opened Wrappers
  import opened Text
  import opened NumText
  import opened Geometry
  import opened Seqs
  import opened GeoLine

  /** One processed body: its display name, `part_x` and `part_rad` in
      feet, its rings (`rings[i][j]`, feet) and `half_n_max`. */
  datatype Body = Body(name: string, partXFt: real, partRadFt: real, rings: seq<seq<Vec3>>, halfNMax: nat)

  function Max0(n: int): nat {
    if n > 0 then n else 0
  }

  function MinInt(a: int, b: int): int {
    if a <= b then a else b
  }

  // ---------------------------------------------------------------- part_rad

  /** `m` is the largest |x| or |y| over all ring points, or 0 when there
      is none larger. */
  predicate IsExtent(rings: seq<seq<Vec3>>, m: real) {
    && m >= 0.0
    && (forall i, j :: 0 <= i < |rings| && 0 <= j < |rings[i]| ==>
          AbsReal(rings[i][j].x) <= m && AbsReal(rings[i][j].y) <= m)
    && (m == 0.0 || (exists i, j :: 0 <= i < |rings| && 0 <= j < |rings[i]| &&
                                   (AbsReal(rings[i][j].x) == m || AbsReal(rings[i][j].y) == m)))
  }

  /** compute_part_rad_from_rings: the extent of the rings in x and y plus
      the buffer. */
  method ComputePartRad(rings: seq<seq<Vec3>>, bufferFt: real) returns (rad: real)
    ensures IsExtent(rings, rad - bufferFt)
  {
    var maxX, maxY := 0.0, 0.0;
    ghost var wx, wy := (0, 0), (0, 0);
    var i := 0;
    while i < |rings|
      invariant 0 <= i <= |rings|
      invariant ExtentSoFar(rings, i, 0, maxX, maxY, wx, wy)
    {
      var ring := rings[i];
      var j := 0;
      while j < |ring|
        invariant 0 <= j <= |ring|
        invariant ExtentSoFar(rings, i, j, maxX, maxY, wx, wy)
      {
        var p := ring[j];
        var ax, ay := AbsReal(p.x), AbsReal(p.y);
        if ax > maxX {
          maxX, wx := ax, (i, j);
        }
        if ay > maxY {
          maxY, wy := ay, (i, j);
        }
        j := j + 1;
      }
      i := i + 1;
    }
    var base := if maxX >= maxY then maxX else maxY;
    rad := base + bufferFt;
    assert rad - bufferFt == base;
  }

  /** The loop state of ComputePartRad after the points of rings[..i] and
      rings[i][..j]: bounds, and a witness for each non-zero maximum. */
  ghost predicate ExtentSoFar(rings: seq<seq<Vec3>>, i: nat, j: nat, maxX: real, maxY: real,
                              wx: (int, int), wy: (int, int))
  {
    && i <= |rings| && (i < |rings| ==> j <= |rings[i]|)
    && maxX >= 0.0 && maxY >= 0.0
    && (forall a, c :: Visited(rings, i, j, a, c) ==> AbsReal(rings[a][c].x) <= maxX && AbsReal(rings[a][c].y) <= maxY)
    && (maxX == 0.0 || (Visited(rings, i, j, wx.0, wx.1) && AbsReal(rings[wx.0][wx.1].x) == maxX))
    && (maxY == 0.0 || (Visited(rings, i, j, wy.0, wy.1) && AbsReal(rings[wy.0][wy.1].y) == maxY))
  }

  /** Point (a, c) comes before point (i, j) in ring order. */
  predicate Visited(rings: seq<seq<Vec3>>, i: nat, j: nat, a: int, c: int) {
    0 <= a < |rings| && 0 <= c < |rings[a]| && (a < i || (a == i && c < j))
  }

  // ------------------------------------------------------------- print order

  /** Plane-Maker's listing order of `n` stations or slots: 0, 1, then 10
      and up, then 2..9. */
  function PmOrder(n: int): (r: seq<int>)
    ensures |r| == Max0(n)
  {
    Range(0, MinInt(n, 2)) + Range(10, n) + Range(2, MinInt(n, 10))
  }

  /** _pm_i_print_order / _pm_j_print_order */
  method PrintOrder(n: int) returns (order: seq<int>)
    ensures order == PmOrder(n)
  {
    order := [];
    if n > 0 {
      order := order + [0];
    }
    if n > 1 {
      order := order + [1];
    }
    assert order == Range(0, MinInt(n, 2));
    order := AppendHigh(order, n);
    order := AppendLow(order, n);
  }

  /** The first loop of the print order: 10 up to n - 1. */
  method AppendHigh(front: seq<int>, n: int) returns (order: seq<int>)
    ensures order == front + Range(10, n)
  {
    order := front;
    var i := 10;
    while i < n
      invariant 10 <= i && (i == 10 || i <= n)
      invariant order == front + Range(10, i)
    {
      RangeSnoc(10, i);
      order := order + [i];
      i := i + 1;
    }
    assert Range(10, i) == Range(10, n);
  }

  /** The second loop of the print order: 2..9 below n, each unless listed. */
  method AppendLow(high: seq<int>, n: int) returns (order: seq<int>)
    requires forall x :: x in high ==> x < 2 || x >= 10
    ensures order == high + Range(2, MinInt(n, 10))
  {
    order := high;
    var i := 2;
    while i < 10
      invariant 2 <= i <= 10
      invariant order == high + Range(2, MinInt(MinInt(n, 10), i))
    {
      if i < n {
        RangeSnoc(2, i);
        assert order == high + Range(2, i);
        assert i !in order;
      }
      if i < n && i !in order {
        order := order + [i];
        assert order == high + Range(2, i + 1);
      } else {
        assert MinInt(MinInt(n, 10), i + 1) == MinInt(MinInt(n, 10), i);
      }
      i := i + 1;
    }
  }

  /** Range(a, b + 1) extends Range(a, b) by b, which it does not hold. */
  lemma RangeSnoc(a: int, b: int)
    requires a <= b
    ensures Range(a, b + 1) == Range(a, b) + [b]
    ensures b !in Range(a, b)
  {
  }

  /** Every listed index is below `n`. */
  lemma PmOrderInRange(n: int)
    ensures forall a :: 0 <= a < |PmOrder(n)| ==> 0 <= PmOrder(n)[a] < n
  {
    PmOrderPermutation(n);
    forall a | 0 <= a < |PmOrder(n)| ensures 0 <= PmOrder(n)[a] < n {
      assert PmOrder(n)[a] in PmOrder(n);
    }
  }

  /** The print order lists every index below `n` exactly once, starting
      with 0 and 1. */
  lemma PmOrderPermutation(n: int)
    ensures |PmOrder(n)| == Max0(n)
    ensures Distinct(PmOrder(n))
    ensures forall x :: x in PmOrder(n) <==> 0 <= x < n
    ensures n >= 2 ==> PmOrder(n)[0] == 0 && PmOrder(n)[1] == 1
  {
    var o := PmOrder(n);
    var a, b, c := Range(0, MinInt(n, 2)), Range(10, n), Range(2, MinInt(n, 10));
    assert o == a + b + c;
    forall x | 0 <= x < n ensures x in o {
      if x < 2 {
        assert a[x] == x;
      } else if x >= 10 {
        assert b[x - 10] == x;
      } else {
        assert c[x - 2] == x;
      }
    }
  }

  // ---------------------------------------------------------------- padding

  /** The padded grid: `total` stations; a real ring padded with the
      origin up to `points` slots (a longer one is kept whole); a station
      past the rings all origin. */
  function Padded(rings: seq<seq<Vec3>>, total: int, points: int): (g: seq<seq<Vec3>>)
    ensures |g| == Max0(total)
  {
    seq(Max0(total), i requires 0 <= i < Max0(total) =>
      if i < |rings| then rings[i] + seq(Max0(points - |rings[i]|), _ => Origin)
      else seq(Max0(points), _ => Origin))
  }

  /** Every cell of the padded grid is the ring point when there is one and
      the origin otherwise, and every station has at least `points` slots. */
  lemma PaddedCells(rings: seq<seq<Vec3>>, total: int, points: int, i: nat, j: nat)
    requires i < Max0(total)
    ensures |Padded(rings, total, points)[i]| >= points
    ensures |Padded(rings, total, points)[i]| == if i < |rings| && |rings[i]| > points then |rings[i]| else Max0(points)
    ensures j < |Padded(rings, total, points)[i]| ==>
              Padded(rings, total, points)[i][j] == if i < |rings| && j < |rings[i]| then rings[i][j] else Origin
  {
  }

  /** The padding loops of build_body_block_lines and
      build_body_block_from_template. */
  method PadGrid(rings: seq<seq<Vec3>>, total: int, points: int) returns (padded: seq<seq<Vec3>>)
    ensures padded == Padded(rings, total, points)
  {
    padded := [];
    var i := 0;
    while i < MinInt(|rings|, total)
      invariant 0 <= i <= Max0(MinInt(|rings|, total))
      invariant padded == Padded(rings, total, points)[..i]
    {
      var ring := rings[i];
      if |ring| < points {
        ring := ring + seq(points - |ring|, _ => Origin);
      } else {
        assert ring + seq(Max0(points - |ring|), _ => Origin) == ring;
      }
      assert ring == Padded(rings, total, points)[i];
      padded := padded + [ring];
      i := i + 1;
    }
    i := |padded|;
    while i < total
      invariant Max0(MinInt(|rings|, total)) <= i <= Max0(total)
      invariant |padded| == i && padded == Padded(rings, total, points)[..i]
    {
      assert i >= |rings|;
      padded := padded + [seq(Max0(points), _ => Origin)];
      i := i + 1;
    }
    assert padded == Padded(rings, total, points)[..Max0(total)];
  }

  // ------------------------------------------------------------ body block

  /** One `_geo_xyz` entry: station, slot, axis and value. */
  datatype Cell = Cell(i: int, j: int, k: int, v: real)

  /** The three entries of slot j of station i. */
  function SlotCells(i: int, j: int, p: Vec3): seq<Cell> {
    [Cell(i, j, 0, p.x), Cell(i, j, 1, p.y), Cell(i, j, 2, p.z)]
  }

  /** Every slot `jo` names is a slot of station i of the grid. */
  predicate StationCovered(grid: seq<seq<Vec3>>, i: int, jo: seq<int>) {
    |jo| > 0 ==> 0 <= i < |grid| && forall c :: 0 <= c < |jo| ==> 0 <= jo[c] < |grid[i]|
  }

  /** Station i's entries, slots in the order `jo`. */
  function StationCells(grid: seq<seq<Vec3>>, i: int, jo: seq<int>): (r: seq<Cell>)
    requires StationCovered(grid, i, jo)
    ensures |r| == 3 * |jo|
    decreases |jo|
  {
    if |jo| == 0 then []
    else StationCells(grid, i, jo[..|jo| - 1]) + SlotCells(i, jo[|jo| - 1], grid[i][jo[|jo| - 1]])
  }

  /** Every (station, slot) pair the orders name is a cell of the grid. */
  predicate GridCovers(grid: seq<seq<Vec3>>, io: seq<int>, jo: seq<int>) {
    forall a :: 0 <= a < |io| ==> StationCovered(grid, io[a], jo)
  }

  /** The grid's entries, stations in the order `io`. */
  function GridCells(grid: seq<seq<Vec3>>, io: seq<int>, jo: seq<int>): (r: seq<Cell>)
    requires GridCovers(grid, io, jo)
    ensures |r| == Times(|io|, 3 * |jo|)
    decreases |io|
  {
    if |io| == 0 then []
    else GridCells(grid, io[..|io| - 1], jo) + StationCells(grid, io[|io| - 1], jo)
  }

  /** n·w as repeated addition, which keeps the index reasoning linear. */
  function Times(n: nat, w: nat): nat {
    if n == 0 then 0 else Times(n - 1, w) + w
  }

  lemma {:induction false} TimesMonotone(a: nat, n: nat, w: nat)
    requires a < n
    ensures Times(a, w) + w <= Times(n, w)
    decreases n
  {
    if a < n - 1 {
      TimesMonotone(a, n - 1, w);
    }
  }

  lemma {:induction false} TimesIsProduct(n: nat, w: nat)
    ensures Times(n, w) == n * w
    decreases n
  {
    if n > 0 {
      TimesIsProduct(n - 1, w);
      assert (n - 1) * w + w == n * w;
    }
  }

  /** Entry 3c + k of a station is axis k of its c-th listed slot. */
  lemma {:induction false} StationCellsAt(grid: seq<seq<Vec3>>, i: int, jo: seq<int>, c: nat, k: nat)
    requires StationCovered(grid, i, jo)
    requires c < |jo| && k < 3
    ensures StationCells(grid, i, jo)[3 * c + k] == Cell(i, jo[c], k, Component(grid[i][jo[c]], k))
    decreases |jo|
  {
    var n := |jo| - 1;
    if c < n {
      StationCellsAt(grid, i, jo[..n], c, k);
      assert jo[..n][c] == jo[c];
    }
  }

  /** Entry Times(a, 3m) + 3c + k of the grid, m slots per station, is
      axis k of slot jo[c] of station io[a]. */
  lemma {:induction false} GridCellsAt(grid: seq<seq<Vec3>>, io: seq<int>, jo: seq<int>, a: nat, c: nat, k: nat)
    requires GridCovers(grid, io, jo)
    requires a < |io| && c < |jo| && k < 3
    ensures Times(a, 3 * |jo|) + 3 * c + k < Times(|io|, 3 * |jo|)
    ensures GridCells(grid, io, jo)[Times(a, 3 * |jo|) + 3 * c + k]
            == Cell(io[a], jo[c], k, Component(grid[io[a]][jo[c]], k))
    decreases |io|
  {
    var n := |io| - 1;
    var w := 3 * |jo|;
    var prefix := GridCells(grid, io[..n], jo);
    assert GridCells(grid, io, jo) == prefix + StationCells(grid, io[n], jo);
    if a < n {
      TimesMonotone(a, n, w);
      GridCellsAt(grid, io[..n], jo, a, c, k);
      assert io[..n][a] == io[a];
    } else {
      StationCellsAt(grid, io[n], jo, c, k);
    }
  }

  /** The `_geo_xyz` lines of body number b for the given entries. */
  function RenderCells(b: int, cells: seq<Cell>): (r: seq<string>)
    ensures |r| == |cells|
  {
    seq(|cells|, t requires 0 <= t < |cells| => Render(b, cells[t].i, cells[t].j, cells[t].k, cells[t].v))
  }

  lemma RenderCellsSnoc(b: int, cells: seq<Cell>, x: Cell)
    ensures RenderCells(b, cells + [x]) == RenderCells(b, cells) + [Render(b, x.i, x.j, x.k, x.v)]
  {
    assert forall t :: 0 <= t < |cells| ==> (cells + [x])[t] == cells[t];
  }

  /** `f"P _body/{b}/<key> <value>"` */
  function Param(b: int, key: string, value: string): string {
    BodyPrefix + IntToString(b) + "/" + key + " " + value
  }

  /** The six header lines and the blank line of a body block. */
  function HeaderLines(body: Body, b: int): seq<string> {
    [ Param(b, "_part_x", Fixed9(body.partXFt)),
      Param(b, "_part_y", "0.000000000"),
      Param(b, "_part_z", "0.000000000"),
      Param(b, "_part_rad", Fixed9(body.partRadFt)),
      Param(b, "_r_dim", IntToString(2 * body.halfNMax)),
      Param(b, "_s_dim", IntToString(|body.rings|)),
      "" ]
  }

  /** The print orders name only cells of the padded grid. */
  lemma PaddedCovers(rings: seq<seq<Vec3>>, total: int, points: int)
    ensures GridCovers(Padded(rings, total, points), PmOrder(total), PmOrder(points))
  {
    PmOrderInRange(total);
    PmOrderInRange(points);
    var g := Padded(rings, total, points);
    var io, jo := PmOrder(total), PmOrder(points);
    forall a | 0 <= a < |io| ensures StationCovered(g, io[a], jo) {
      PaddedCells(rings, total, points, io[a], 0);
    }
  }

  /** The entries of a block, in print order. */
  function BlockCells(rings: seq<seq<Vec3>>, total: int, points: int): (r: seq<Cell>)
    ensures |r| == Times(Max0(total), 3 * Max0(points))
  {
    PaddedCovers(rings, total, points);
    GridCells(Padded(rings, total, points), PmOrder(total), PmOrder(points))
  }

  /** build_body_block_lines for `body` written as body number `b`: the
      header, then one line per entry of the padded grid in print order. */
  method BuildBodyBlockLines(body: Body, b: int, total: int, points: int) returns (lines: seq<string>)
    ensures lines == HeaderLines(body, b) + RenderCells(b, BlockCells(body.rings, total, points))
  {
    var header := HeaderLines(body, b);
    var padded := PadGrid(body.rings, total, points);
    var io := PrintOrder(total);
    var jo := PrintOrder(points);
    PaddedCovers(body.rings, total, points);
    lines := AppendGrid(header, b, padded, io, jo);
  }

  /** The station loop: the lines of every station in the order `io`. */
  method AppendGrid(header: seq<string>, b: int, padded: seq<seq<Vec3>>, io: seq<int>, jo: seq<int>)
    returns (lines: seq<string>)
    requires GridCovers(padded, io, jo)
    ensures lines == header + RenderCells(b, GridCells(padded, io, jo))
  {
    lines := header;
    ghost var done: seq<Cell> := [];
    var a := 0;
    while a < |io|
      invariant 0 <= a <= |io|
      invariant GridCovers(padded, io[..a], jo)
      invariant done == GridCells(padded, io[..a], jo)
      invariant lines == header + RenderCells(b, done)
    {
      GridCellsSnoc(padded, io, jo, a);
      lines, done := AppendStation(lines, header, b, padded, io[a], jo, done);
      a := a + 1;
    }
    assert io[..a] == io;
  }

  /** One more station of the order appends its entries. */
  lemma GridCellsSnoc(grid: seq<seq<Vec3>>, io: seq<int>, jo: seq<int>, a: nat)
    requires GridCovers(grid, io, jo) && a < |io|
    ensures StationCovered(grid, io[a], jo)
    ensures GridCovers(grid, io[..a], jo) && GridCovers(grid, io[..a + 1], jo)
    ensures GridCells(grid, io[..a + 1], jo) == GridCells(grid, io[..a], jo) + StationCells(grid, io[a], jo)
  {
    assert io[..a + 1][..a] == io[..a];
  }

  /** The slot loop of one station: its three lines per slot, appended. */
  method AppendStation(lines: seq<string>, ghost header: seq<string>, b: int, padded: seq<seq<Vec3>>,
                       i: int, jo: seq<int>, ghost done: seq<Cell>)
    returns (r: seq<string>, ghost done': seq<Cell>)
    requires StationCovered(padded, i, jo)
    requires lines == header + RenderCells(b, done)
    ensures done' == done + StationCells(padded, i, jo)
    ensures r == header + RenderCells(b, done')
  {
    r, done' := lines, done;
    var c := 0;
    while c < |jo|
      invariant 0 <= c <= |jo|
      invariant done' == done + StationCells(padded, i, jo[..c])
      invariant r == header + RenderCells(b, done')
    {
      var j := jo[c];
      var p := padded[i][j];
      assert jo[..c + 1][..c] == jo[..c];
      r := AppendCell(r, header, b, done', Cell(i, j, 0, p.x));
      done' := done' + [Cell(i, j, 0, p.x)];
      r := AppendCell(r, header, b, done', Cell(i, j, 1, p.y));
      done' := done' + [Cell(i, j, 1, p.y)];
      r := AppendCell(r, header, b, done', Cell(i, j, 2, p.z));
      done' := done' + [Cell(i, j, 2, p.z)];
      c := c + 1;
    }
    assert jo[..c] == jo;
  }

  /** Appends the line of one entry. */
  method AppendCell(lines: seq<string>, ghost header: seq<string>, b: int, ghost done: seq<Cell>, x: Cell)
    returns (r: seq<string>)
    requires lines == header + RenderCells(b, done)
    ensures r == header + RenderCells(b, done + [x])
  {
    r := lines + [Render(b, x.i, x.j, x.k, x.v)];
    RenderCellsSnoc(b, done, x);
  }

  /** The position of axis k of the c-th listed slot of the a-th listed
      station among the entries of a block with `points` slots per station. */
  function EntryIndex(a: nat, points: nat, c: nat, k: nat): nat {
    Times(a, 3 * points) + 3 * c + k
  }

  /** EntryIndex is 3(a·points + c) + k. */
  lemma EntryIndexProduct(a: nat, points: nat, c: nat, k: nat)
    ensures EntryIndex(a, points, c, k) == 3 * (a * points + c) + k
  {
    TimesIsProduct(a, 3 * points);
    ProductShape(a, points);
  }

  /** A block holds 3·total·points geometry entries. */
  lemma BlockCellsCount(rings: seq<seq<Vec3>>, total: nat, points: nat)
    ensures |BlockCells(rings, total, points)| == 3 * total * points
  {
    TimesIsProduct(total, 3 * points);
    ProductShape(total, points);
  }

  /** Entry EntryIndex(a, points, c, k) of a block is axis k of slot
      PmOrder(points)[c] of station PmOrder(total)[a]: the ring point
      there, or the origin. */
  lemma BlockCellsAt(rings: seq<seq<Vec3>>, total: nat, points: nat, a: nat, c: nat, k: nat)
    requires a < total && c < points && k < 3
    ensures EntryIndex(a, points, c, k) < |BlockCells(rings, total, points)|
    ensures var i, j := PmOrder(total)[a], PmOrder(points)[c];
            BlockCells(rings, total, points)[EntryIndex(a, points, c, k)]
            == Cell(i, j, k, Component(if i < |rings| && j < |rings[i]| then rings[i][j] else Origin, k))
  {
    PmOrderInRange(total);
    PmOrderInRange(points);
    PaddedCovers(rings, total, points);
    var io, jo := PmOrder(total), PmOrder(points);
    var g := Padded(rings, total, points);
    var i, j := io[a], jo[c];
    assert BlockCells(rings, total, points) == GridCells(g, io, jo);
    assert |jo| == points;
    var t := Times(a, 3 * |jo|) + 3 * c + k;
    assert EntryIndex(a, points, c, k) == t;
    GridCellsAt(g, io, jo, a, c, k);
    PaddedCells(rings, total, points, i, j);
    var p := if i < |rings| && j < |rings[i]| then rings[i][j] else Origin;
    assert g[i][j] == p;
    assert GridCells(g, io, jo)[t] == Cell(i, j, k, Component(p, k));
  }

  lemma ProductShape(a: nat, p: nat)
    ensures a * (3 * p) == 3 * (a * p) == 3 * a * p
  {
  }
}
