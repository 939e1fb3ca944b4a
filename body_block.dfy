/** The single-body importer's body block: the grid dimensions read from
    an .acf file, the `_part_rad` bound of a centred mesh and the full
    list of `P _body/<b>/...` lines written for one body. */
module BodyBlock {
  import opened Wrappers
  import opened Text
  import opened NumText
  import opened Geometry
  import opened GeoLine
  import opened PmGrid
  import opened ZStations
  import opened GeoLiteral

  const DefaultICount: int := 20
  const DefaultJCount: int := 18

  // -------------------------------------------------------- the last word

  /** The longest run of non-whitespace that ends `s`: what follows the
      last whitespace character. */
  function TrailingRun(s: string): (w: string)
    ensures |w| <= |s| && NoSpace(w)
    ensures |w| < |s| ==> IsSpace(s[|s| - |w| - 1])
    decreases |s|
  {
    if |s| == 0 || IsSpace(s[|s| - 1]) then [] else TrailingRun(s[..|s| - 1]) + [s[|s| - 1]]
  }

  /** The run is a suffix of `s`. */
  lemma {:induction false} TrailingRunSuffix(s: string)
    ensures TrailingRun(s) == s[|s| - |TrailingRun(s)|..]
    decreases |s|
  {
    if |s| > 0 && !IsSpace(s[|s| - 1]) {
      var init := s[..|s| - 1];
      TrailingRunSuffix(init);
      var w := TrailingRun(init);
      var n := |s| - |w| - 1;
      assert init[|init| - |w|..] == s[n..|s| - 1];
      assert s[n..] == s[n..|s| - 1] + [s[|s| - 1]];
    }
  }

  /** `s.split()[-1]`: the last run of non-whitespace. */
  function LastWord(s: string): string {
    TrailingRun(RStrip(s))
  }

  lemma {:induction false} TrailingRunOf(a: string, w: string)
    requires NoSpace(w) && |a| > 0 && IsSpace(a[|a| - 1])
    ensures TrailingRun(a + w) == w
    decreases |w|
  {
    if |w| == 0 {
      assert a + w == a;
    } else {
      var w' := w[..|w| - 1];
      assert (a + w)[..|a + w| - 1] == a + w';
      TrailingRunOf(a, w');
    }
  }

  /** The last word of `a + " " + w` is w, for a word w. */
  lemma LastWordOf(a: string, w: string)
    requires |w| > 0 && NoSpace(w)
    ensures LastWord(a + " " + w) == w
  {
    var s := a + " " + w;
    assert !IsSpace(s[|s| - 1]);
    assert RStrip(s) == s;
    TrailingRunOf(a + " ", w);
  }

  // --------------------------------------------------- read_target_dims

  /** `f"P _body/{b}/"` */
  function BodyKey(b: int): string {
    BodyPrefix + IntToString(b) + "/"
  }

  function ICountKey(b: int): string { BodyKey(b) + "_locked/i_count" }
  function JCountKey(b: int): string { BodyKey(b) + "_locked/j_count" }

  /** `int(t.split()[-1])`, None where it raises. */
  function DimValue(t: string): Option<int> {
    ParseInt(LastWord(t))
  }

  /** What one stripped line is to the scan: an i_count line, a j_count
      line (each with the integer its last word holds, if any) or neither. */
  datatype DimLine = ICount(value: Option<int>) | JCount(value: Option<int>) | OtherLine

  /** `if t.startswith(pi): ... elif t.startswith(pj): ...` */
  function Classify(t: string, pi: string, pj: string): DimLine {
    if StartsWith(t, pi) then ICount(DimValue(t))
    else if StartsWith(t, pj) then JCount(DimValue(t))
    else OtherLine
  }

  /** The stripped line t is an i_count line whose last word is an integer. */
  predicate CarriesI(t: string, pi: string, pj: string) {
    Classify(t, pi, pj).ICount? && Classify(t, pi, pj).value.Some?
  }

  /** The same for a j_count line. */
  predicate CarriesJ(t: string, pi: string, pj: string) {
    Classify(t, pi, pj).JCount? && Classify(t, pi, pj).value.Some?
  }

  /** Every line of the file, stripped and classified. */
  function ClassifyAll(lines: seq<string>, b: int): (rs: seq<DimLine>)
    ensures |rs| == |lines|
    decreases |lines|
  {
    if |lines| == 0 then []
    else ClassifyAll(lines[..|lines| - 1], b) + [Classify(Strip(lines[|lines| - 1]), ICountKey(b), JCountKey(b))]
  }

  lemma {:induction false} ClassifyAllAt(lines: seq<string>, b: int, k: nat)
    requires k < |lines|
    ensures ClassifyAll(lines, b)[k] == Classify(Strip(lines[k]), ICountKey(b), JCountKey(b))
    decreases |lines|
  {
    if k < |lines| - 1 {
      ClassifyAllAt(lines[..|lines| - 1], b, k);
    }
  }

  lemma ClassifyAllEach(lines: seq<string>, b: int)
    ensures forall k :: 0 <= k < |lines| ==> ClassifyAll(lines, b)[k] == Classify(Strip(lines[k]), ICountKey(b), JCountKey(b))
  {
    forall k | 0 <= k < |lines| ensures ClassifyAll(lines, b)[k] == Classify(Strip(lines[k]), ICountKey(b), JCountKey(b)) {
      ClassifyAllAt(lines, b, k);
    }
  }

  /** One line of the scan: a count line whose last word is an integer sets
      that count; `int()` raising leaves it as it was. */
  function DimStep(iv: Option<int>, jv: Option<int>, r: DimLine): (Option<int>, Option<int>) {
    match r
    case ICount(v) => (if v.Some? then v else iv, jv)
    case JCount(v) => (iv, if v.Some? then v else jv)
    case OtherLine => (iv, jv)
  }

  /** The scan from line k on, stopping once both counts are known. */
  function DimsFrom(rs: seq<DimLine>, k: nat, iv: Option<int>, jv: Option<int>): (Option<int>, Option<int>)
    requires k <= |rs|
    decreases |rs| - k
  {
    if k == |rs| then (iv, jv)
    else
      var r := DimStep(iv, jv, rs[k]);
      if r.0.Some? && r.1.Some? then r else DimsFrom(rs, k + 1, r.0, r.1)
  }

  /** One step of the scan. */
  lemma DimsFromNext(rs: seq<DimLine>, k: nat, iv: Option<int>, jv: Option<int>)
    requires k < |rs|
    ensures var s := DimStep(iv, jv, rs[k]);
            && (s.0.Some? && s.1.Some? ==> DimsFrom(rs, k, iv, jv) == s)
            && (!(s.0.Some? && s.1.Some?) ==> DimsFrom(rs, k, iv, jv) == DimsFrom(rs, k + 1, s.0, s.1))
  {
  }

  /** read_target_dims_from_acf */
  function TargetDims(lines: seq<string>, b: int): (int, int) {
    var r := DimsFrom(ClassifyAll(lines, b), 0, None, None);
    (if r.0.Some? then r.0.value else DefaultICount, if r.1.Some? then r.1.value else DefaultJCount)
  }

  /** The scan with its early break. */
  method ReadTargetDimsFromAcf(lines: seq<string>, b: int) returns (iCount: int, jCount: int)
    ensures (iCount, jCount) == TargetDims(lines, b)
  {
    var pi, pj := ICountKey(b), JCountKey(b);
    ghost var rs := ClassifyAll(lines, b);
    var iv: Option<int> := None;
    var jv: Option<int> := None;
    var k := 0;
    while k < |lines|
      invariant k <= |lines|
      invariant DimsFrom(rs, 0, None, None) == DimsFrom(rs, k, iv, jv)
      invariant !(iv.Some? && jv.Some?)
    {
      ghost var before := (iv, jv);
      iv, jv := ScanDimLine(iv, jv, Strip(lines[k]), pi, pj, lines, b, k);
      DimsFromNext(rs, k, before.0, before.1);
      if iv.Some? && jv.Some? {
        break;
      }
      k := k + 1;
    }
    iCount := if iv.Some? then iv.value else DefaultICount;
    jCount := if jv.Some? then jv.value else DefaultJCount;
  }

  /** The body of the scan for the stripped line t, line k of the file. */
  method ScanDimLine(iv: Option<int>, jv: Option<int>, t: string, pi: string, pj: string,
                     ghost lines: seq<string>, ghost b: int, ghost k: nat)
    returns (iv': Option<int>, jv': Option<int>)
    requires k < |lines| && t == Strip(lines[k]) && pi == ICountKey(b) && pj == JCountKey(b)
    ensures (iv', jv') == DimStep(iv, jv, ClassifyAll(lines, b)[k])
  {
    ClassifyAllAt(lines, b, k);
    iv', jv' := iv, jv;
    if StartsWith(t, pi) {
      var v := ParseInt(LastWord(t));
      if v.Some? { iv' := v; }
    } else if StartsWith(t, pj) {
      var v := ParseInt(LastWord(t));
      if v.Some? { jv' := v; }
    }
  }

  /** The i_count found from line k on is the one carried in, or that of
      some i line from k on; none is found only when none was carried in
      and no i line from k on holds an integer. */
  lemma {:induction false} DimsFromI(rs: seq<DimLine>, k: nat, iv: Option<int>, jv: Option<int>)
    requires k <= |rs|
    ensures var r := DimsFrom(rs, k, iv, jv);
            && (r.0.None? <==> iv.None? && forall m :: k <= m < |rs| ==> !(rs[m].ICount? && rs[m].value.Some?))
            && (r.0.Some? && r.0 != iv ==> exists m :: k <= m < |rs| && rs[m] == ICount(r.0))
    decreases |rs| - k
  {
    if k < |rs| {
      var s := DimStep(iv, jv, rs[k]);
      if !(s.0.Some? && s.1.Some?) {
        DimsFromI(rs, k + 1, s.0, s.1);
      }
    }
  }

  /** The same for j_count. */
  lemma {:induction false} DimsFromJ(rs: seq<DimLine>, k: nat, iv: Option<int>, jv: Option<int>)
    requires k <= |rs|
    ensures var r := DimsFrom(rs, k, iv, jv);
            && (r.1.None? <==> jv.None? && forall m :: k <= m < |rs| ==> !(rs[m].JCount? && rs[m].value.Some?))
            && (r.1.Some? && r.1 != jv ==> exists m :: k <= m < |rs| && rs[m] == JCount(r.1))
    decreases |rs| - k
  {
    if k < |rs| {
      var s := DimStep(iv, jv, rs[k]);
      if !(s.0.Some? && s.1.Some?) {
        DimsFromJ(rs, k + 1, s.0, s.1);
      }
    }
  }

  /** target_i is 20 unless some stripped line starting with the i key
      ends in an integer; otherwise it is the integer of one of those
      lines. */
  lemma TargetISource(lines: seq<string>, b: int)
    ensures var i := TargetDims(lines, b).0;
            var pi, pj := ICountKey(b), JCountKey(b);
            && ((forall m :: 0 <= m < |lines| ==> !CarriesI(Strip(lines[m]), pi, pj)) ==> i == DefaultICount)
            && ((exists m :: 0 <= m < |lines| && CarriesI(Strip(lines[m]), pi, pj)) ==>
                  exists m :: 0 <= m < |lines| && Classify(Strip(lines[m]), pi, pj) == ICount(Some(i)))
  {
    var rs := ClassifyAll(lines, b);
    ClassifyAllEach(lines, b);
    DimsFromI(rs, 0, None, None);
  }

  /** target_j likewise: 18 unless some stripped line starting with the
      j key, and not with the i key, ends in an integer. */
  lemma TargetJSource(lines: seq<string>, b: int)
    ensures var j := TargetDims(lines, b).1;
            var pi, pj := ICountKey(b), JCountKey(b);
            && ((forall m :: 0 <= m < |lines| ==> !CarriesJ(Strip(lines[m]), pi, pj)) ==> j == DefaultJCount)
            && ((exists m :: 0 <= m < |lines| && CarriesJ(Strip(lines[m]), pi, pj)) ==>
                  exists m :: 0 <= m < |lines| && Classify(Strip(lines[m]), pi, pj) == JCount(Some(j)))
  {
    var rs := ClassifyAll(lines, b);
    ClassifyAllEach(lines, b);
    DimsFromJ(rs, 0, None, None);
  }

  lemma KeysDiffer(b: int)
    ensures var pi, pj := ICountKey(b), JCountKey(b);
            |pi| == |pj| && pi[|pi| - 7] == 'i' && pj[|pj| - 7] == 'j'
  {
  }

  /** The classes: an i line starts with the i key, a j line with the j
      key but not the i key, and each carries its last word's integer. */
  lemma ClassifyIff(t: string, pi: string, pj: string)
    ensures Classify(t, pi, pj).ICount? <==> StartsWith(t, pi)
    ensures Classify(t, pi, pj).JCount? <==> !StartsWith(t, pi) && StartsWith(t, pj)
    ensures !Classify(t, pi, pj).OtherLine? ==> Classify(t, pi, pj).value == DimValue(t)
  {
  }

  // ------------------------------------------------------------- part_rad

  /** `max((abs(x) for (x, _, _) in verts), default=0.0)` */
  function MaxAbsX(verts: seq<Vec3>): (m: real)
    ensures m >= 0.0 && forall i :: 0 <= i < |verts| ==> AbsReal(verts[i].x) <= m
    ensures |verts| > 0 ==> exists i :: 0 <= i < |verts| && m == AbsReal(verts[i].x)
    decreases |verts|
  {
    if |verts| == 0 then 0.0
    else
      var m := MaxAbsX(verts[..|verts| - 1]);
      var a := AbsReal(verts[|verts| - 1].x);
      if |verts| == 1 || a > m then a else m
  }

  /** `max((abs(y) for (_, y, _) in verts), default=0.0)` */
  function MaxAbsY(verts: seq<Vec3>): (m: real)
    ensures m >= 0.0 && forall i :: 0 <= i < |verts| ==> AbsReal(verts[i].y) <= m
    ensures |verts| > 0 ==> exists i :: 0 <= i < |verts| && m == AbsReal(verts[i].y)
    decreases |verts|
  {
    if |verts| == 0 then 0.0
    else
      var m := MaxAbsY(verts[..|verts| - 1]);
      var a := AbsReal(verts[|verts| - 1].y);
      if |verts| == 1 || a > m then a else m
  }

  /** compute_grid_radius_ft: 5 ft for no vertices, otherwise the largest
      |x| or |y| in feet plus a 3 ft margin. */
  function GridRadiusFt(verts: seq<Vec3>): real {
    if |verts| == 0 then 5.0
    else
      var mx, my := MaxAbsX(verts), MaxAbsY(verts);
      (if mx >= my then mx else my) * FtPerM + 3.0
  }

  /** The radius clears every vertex by 3 ft in x and in y, and is that
      margin past some vertex's |x| or |y|. */
  lemma GridRadiusBounds(verts: seq<Vec3>)
    ensures var r := GridRadiusFt(verts);
            && (|verts| == 0 ==> r == 5.0)
            && (forall i :: 0 <= i < |verts| ==>
                  r >= AbsReal(verts[i].x) * FtPerM + 3.0 && r >= AbsReal(verts[i].y) * FtPerM + 3.0)
            && (|verts| > 0 ==>
                  exists i :: 0 <= i < |verts| && (r == AbsReal(verts[i].x) * FtPerM + 3.0 || r == AbsReal(verts[i].y) * FtPerM + 3.0))
  {
    if |verts| > 0 {
      var mx, my := MaxAbsX(verts), MaxAbsY(verts);
      var m := if mx >= my then mx else my;
      forall i | 0 <= i < |verts|
        ensures m * FtPerM >= AbsReal(verts[i].x) * FtPerM && m * FtPerM >= AbsReal(verts[i].y) * FtPerM
      {
        ScaleMono(AbsReal(verts[i].x), m);
        ScaleMono(AbsReal(verts[i].y), m);
      }
    }
  }

  lemma ScaleMono(a: real, m: real)
    requires a <= m
    ensures a * FtPerM <= m * FtPerM
  {
  }

  // --------------------------------------------------------- the block

  /** `f"P _body/{b}/{key} {value}"` */
  function Line(b: int, key: string, value: string): string {
    BodyKey(b) + key + " " + value
  }

  /** The six lines before the geometry. */
  function HeadLines(b: int): seq<string> {
    [ Line(b, "_bot_s1", "0.000000000"),
      Line(b, "_bot_s2", "1.000000000"),
      Line(b, "_bot_t1", "0.000000000"),
      Line(b, "_bot_t2", "1.000000000"),
      Line(b, "_engn_for_body", "-1"),
      Line(b, "_gear_for_body", "-1") ]
  }

  /** `f"P _body/{b}/_locked/{i},{j} 0"` */
  function LockedLine(b: int, i: int, j: int): string {
    Line(b, "_locked/" + IntToString(i) + "," + IntToString(j), "0")
  }

  /** f(i, 0), ..., f(i, w-1). */
  function RowOf<T>(i: nat, w: nat, f: (nat, nat) -> T): (r: seq<T>)
    ensures |r| == w
  {
    if w == 0 then [] else RowOf(i, w - 1, f) + [f(i, w - 1)]
  }

  /** The rows 0..n-1 of f, each w wide, one after another. */
  function RowMajor<T>(n: nat, w: nat, f: (nat, nat) -> T): (r: seq<T>)
    ensures |r| == Times(n, w)
  {
    if n == 0 then [] else RowMajor(n - 1, w, f) + RowOf(n - 1, w, f)
  }

  lemma {:induction false} RowOfAt<T>(i: nat, w: nat, f: (nat, nat) -> T, j: nat)
    requires j < w
    ensures RowOf(i, w, f)[j] == f(i, j)
  {
    if j < w - 1 {
      RowOfAt(i, w - 1, f, j);
      assert RowOf(i, w, f)[j] == RowOf(i, w - 1, f)[j];
    }
  }

  /** Entry Times(i, w) + j is f(i, j). */
  lemma {:induction false} RowMajorAt<T>(n: nat, w: nat, f: (nat, nat) -> T, i: nat, j: nat)
    requires i < n && j < w
    ensures Times(i, w) + j < |RowMajor(n, w, f)|
    ensures RowMajor(n, w, f)[Times(i, w) + j] == f(i, j)
    decreases n
  {
    var prev := RowMajor(n - 1, w, f);
    if i < n - 1 {
      RowMajorAt(n - 1, w, f, i, j);
      TimesMonotone(i, n - 1, w);
      assert RowMajor(n, w, f)[Times(i, w) + j] == prev[Times(i, w) + j];
    } else {
      RowOfAt(i, w, f, j);
      assert Times(i, w) == |prev|;
    }
  }

  /** The locked line of each station and slot. */
  function LockedFn(b: int): (nat, nat) -> string {
    (i: nat, j: nat) => LockedLine(b, i, j)
  }

  /** The locked lines of station i, slots 0..w-1. */
  function LockedRow(b: int, i: nat, w: nat): seq<string> {
    RowOf(i, w, LockedFn(b))
  }

  /** The locked lines of stations 0..n-1. */
  function LockedRows(b: int, n: nat, w: nat): seq<string> {
    RowMajor(n, w, LockedFn(b))
  }

  /** Line Times(i, w) + j of the locked lines is the one for (i, j). */
  lemma LockedRowsAt(b: int, n: nat, w: nat, i: nat, j: nat)
    requires i < n && j < w
    ensures Times(i, w) + j < |LockedRows(b, n, w)|
    ensures LockedRows(b, n, w)[Times(i, w) + j] == LockedLine(b, i, j)
  {
    RowMajorAt(n, w, LockedFn(b), i, j);
  }

  /** The lines after the locked lines. */
  function TailLines(b: int, ti: int, tj: int, stationCount: nat, radius: real, lateral: real): seq<string> {
    [ Line(b, "_locked/i_count", IntToString(ti)),
      Line(b, "_locked/j_count", IntToString(tj)),
      Line(b, "_r_dim", IntToString(tj)),
      Line(b, "_s_dim", IntToString(stationCount)),
      Line(b, "_part_area_rule", "1.000000000"),
      Line(b, "_part_cd", "0.075000003"),
      Line(b, "_part_phi", "0.000000000"),
      Line(b, "_part_psi", "0.000000000"),
      Line(b, "_part_rad", Fixed9(radius)),
      Line(b, "_part_specs_eq", "1"),
      Line(b, "_part_specs_invis", "0"),
      Line(b, "_part_specs_rmod", "1"),
      Line(b, "_part_tex", "1"),
      Line(b, "_part_the", "0.000000000"),
      Line(b, "_part_x", Fixed9(lateral)),
      Line(b, "_part_y", "0.000000000"),
      Line(b, "_part_z", "0.000000000"),
      Line(b, "_top_s1", "0.000000000"),
      Line(b, "_top_s2", "1.000000000"),
      Line(b, "_top_t1", "0.000000000"),
      Line(b, "_top_t2", "1.000000000") ]
  }

  /** build_body_block */
  function BodyBlockLines(b: int, stationsMesh: seq<seq<Vec3>>, centered: seq<Vec3>, ti: int, tj: int, lateral: real): seq<string> {
    HeadLines(b)
    + GeoLiteral.GeoLiteral(stationsMesh, b, ti, tj, true)
    + LockedRows(b, Max0(ti), Max0(tj))
    + TailLines(b, ti, tj, |stationsMesh|, GridRadiusFt(centered), lateral)
  }

  /** The line-appending body of build_body_block. */
  method BuildBodyBlock(b: int, stationsMesh: seq<seq<Vec3>>, centered: seq<Vec3>, ti: int, tj: int, lateral: real)
    returns (lines: seq<string>)
    ensures lines == BodyBlockLines(b, stationsMesh, centered, ti, tj, lateral)
  {
    var radius := GridRadiusFt(centered);
    lines := HeadLines(b);
    var geo := GenerateGeoXyzLiteral(stationsMesh, b, ti, tj, true);
    lines := lines + geo;
    var locked := LockedLoop(b, ti, tj);
    lines := lines + locked;
    lines := lines + TailLines(b, ti, tj, |stationsMesh|, radius, lateral);
  }

  /** `for i in range(target_i): for j in range(target_j): ...` */
  method LockedLoop(b: int, ti: int, tj: int) returns (out: seq<string>)
    ensures out == LockedRows(b, Max0(ti), Max0(tj))
  {
    out := [];
    var i := 0;
    while i < ti
      invariant 0 <= i <= Max0(ti)
      invariant out == LockedRows(b, i, Max0(tj))
    {
      var row := LockedRowLoop(b, i, tj);
      assert LockedRows(b, i + 1, Max0(tj)) == LockedRows(b, i, Max0(tj)) + LockedRow(b, i, Max0(tj));
      out := out + row;
      i := i + 1;
    }
  }

  /** The inner loop: the locked lines of station i. */
  method LockedRowLoop(b: int, i: nat, tj: int) returns (row: seq<string>)
    ensures row == LockedRow(b, i, Max0(tj))
  {
    row := [];
    var j := 0;
    while j < tj
      invariant 0 <= j <= Max0(tj)
      invariant row == LockedRow(b, i, j)
    {
      assert LockedRow(b, i, j + 1) == LockedRow(b, i, j) + [LockedFn(b)(i, j)];
      row := row + [LockedLine(b, i, j)];
      j := j + 1;
    }
  }

  /** The block holds 6 head lines, the 3·target_i·J geometry lines,
      target_i·target_j locked lines and 21 more, and the geometry
      follows the head lines. */
  lemma BodyBlockShape(b: int, stationsMesh: seq<seq<Vec3>>, centered: seq<Vec3>, ti: nat, tj: nat, lateral: real)
    ensures var lines := BodyBlockLines(b, stationsMesh, centered, ti, tj, lateral);
            var geo := GeoLiteral.GeoLiteral(stationsMesh, b, ti, tj, true);
            && |geo| == 3 * ti * SlotCount(tj)
            && |lines| == 6 + |geo| + ti * tj + 21
            && 6 + |geo| <= |lines| && lines[6..6 + |geo|] == geo
  {
    var geo := GeoLiteral.GeoLiteral(stationsMesh, b, ti, tj, true);
    var tail := TailLines(b, ti, tj, |stationsMesh|, GridRadiusFt(centered), lateral);
    BodyBlockParts(b, stationsMesh, centered, ti, tj, lateral);
    GeoLiteralCount(stationsMesh, b, ti, tj, true);
    TimesIsProduct(ti, tj);
    TailCounts(b, ti, tj, |stationsMesh|, GridRadiusFt(centered), lateral);
    ConcatSlice(HeadLines(b), geo, LockedRows(b, ti, tj), tail);
  }

  /** The second of four concatenated parts. */
  lemma ConcatSlice<T>(h: seq<T>, g: seq<T>, l: seq<T>, t: seq<T>)
    ensures |h + g + l + t| == |h| + |g| + |l| + |t|
    ensures (h + g + l + t)[|h|..|h| + |g|] == g
  {
    assert (h + g + l + t)[|h|..|h| + |g|] == (h + g)[|h|..];
  }

  /** The locked line of station i, slot j sits at
      6 + |geometry| + i·target_j + j (`Times(i, tj)` is i·tj). */
  lemma BodyBlockLocked(b: int, stationsMesh: seq<seq<Vec3>>, centered: seq<Vec3>, ti: nat, tj: nat, lateral: real, i: nat, j: nat)
    requires i < ti && j < tj
    ensures var lines := BodyBlockLines(b, stationsMesh, centered, ti, tj, lateral);
            var g := |GeoLiteral.GeoLiteral(stationsMesh, b, ti, tj, true)|;
            && 6 + g + Times(i, tj) + j < |lines| && lines[6 + g + Times(i, tj) + j] == LockedLine(b, i, j)
  {
    BodyBlockParts(b, stationsMesh, centered, ti, tj, lateral);
    assert Max0(ti) == ti && Max0(tj) == tj;
    var geo := GeoLiteral.GeoLiteral(stationsMesh, b, ti, tj, true);
    var locked := LockedRows(b, ti, tj);
    var tail := TailLines(b, ti, tj, |stationsMesh|, GridRadiusFt(centered), lateral);
    var t := Times(i, tj) + j;
    LockedRowsAt(b, ti, tj, i, j);
    ConcatAt(HeadLines(b), geo, locked, tail, t);
  }

  /** The four parts of the block, the head being six lines long. */
  lemma BodyBlockParts(b: int, stationsMesh: seq<seq<Vec3>>, centered: seq<Vec3>, ti: int, tj: int, lateral: real)
    ensures |HeadLines(b)| == 6
    ensures BodyBlockLines(b, stationsMesh, centered, ti, tj, lateral)
            == HeadLines(b) + GeoLiteral.GeoLiteral(stationsMesh, b, ti, tj, true) + LockedRows(b, Max0(ti), Max0(tj))
               + TailLines(b, ti, tj, |stationsMesh|, GridRadiusFt(centered), lateral)
  {
  }

  /** Entry k of the third of four concatenated parts. */
  lemma ConcatAt<T>(h: seq<T>, g: seq<T>, l: seq<T>, t: seq<T>, k: nat)
    requires k < |l|
    ensures |h| + |g| + k < |h + g + l + t| && (h + g + l + t)[|h| + |g| + k] == l[k]
  {
  }

  /** The 13th line from the end is `_part_rad`, carrying the grid radius
      of the centred vertices. */
  lemma BodyBlockRadius(b: int, stationsMesh: seq<seq<Vec3>>, centered: seq<Vec3>, ti: int, tj: int, lateral: real)
    ensures var lines := BodyBlockLines(b, stationsMesh, centered, ti, tj, lateral);
            |lines| >= 21 && lines[|lines| - 13] == Line(b, "_part_rad", Fixed9(GridRadiusFt(centered)))
  {
    var front := HeadLines(b) + GeoLiteral.GeoLiteral(stationsMesh, b, ti, tj, true) + LockedRows(b, Max0(ti), Max0(tj));
    var tail := TailLines(b, ti, tj, |stationsMesh|, GridRadiusFt(centered), lateral);
    TailRadius(b, ti, tj, |stationsMesh|, GridRadiusFt(centered), lateral);
    var lines := front + tail;
    assert BodyBlockLines(b, stationsMesh, centered, ti, tj, lateral) == lines;
    assert lines[|lines| - 13] == tail[8];
  }

  lemma TailRadius(b: int, ti: int, tj: int, stationCount: nat, radius: real, lateral: real)
    ensures var tail := TailLines(b, ti, tj, stationCount, radius, lateral);
            |tail| == 21 && tail[8] == Line(b, "_part_rad", Fixed9(radius))
  {
  }

  // ------------------------------------------------------ the round trip

  /** The line is neither an i nor a j count line. */
  predicate NotDim(line: string, pi: string, pj: string) {
    !StartsWith(Strip(line), pi) && !StartsWith(Strip(line), pj)
  }

  predicate NoDims(lines: seq<string>, pi: string, pj: string) {
    forall m :: 0 <= m < |lines| ==> NotDim(lines[m], pi, pj)
  }

  /** A line starting with a non-space character that differs from the
      key at some position below the key's length does not start with it
      once stripped. */
  lemma NotKeyAt(line: string, key: string, c: nat)
    requires |line| > 0 && !IsSpace(line[0])
    requires c < |key| && c < |line| && line[c] != key[c]
    ensures !StartsWith(Strip(line), key)
  {
    LStripNoLeadingSpace(line);
    RStripPrefix(line);
    var t := Strip(line);
    assert t == line[..|t|];
    if |key| <= |t| {
      assert t[..|key|][c] != key[c];
    }
  }

  /** A `Line` whose key differs from `_locked/?_count` at position c. */
  lemma LineNotDim(b: int, key: string, value: string, c: nat)
    requires c < |key| && c < 15 && key[c] != "_locked/i_count"[c] && key[c] != "_locked/j_count"[c]
    ensures NotDim(Line(b, key, value), ICountKey(b), JCountKey(b))
  {
    var line := Line(b, key, value);
    var q := |BodyKey(b)|;
    assert line[0] == 'P';
    assert line[q + c] == key[c];
    assert ICountKey(b)[q + c] == "_locked/i_count"[c];
    assert JCountKey(b)[q + c] == "_locked/j_count"[c];
    NotKeyAt(line, ICountKey(b), q + c);
    NotKeyAt(line, JCountKey(b), q + c);
  }

  lemma NoDimsAppend(a: seq<string>, c: seq<string>, pi: string, pj: string)
    requires NoDims(a, pi, pj) && NoDims(c, pi, pj)
    ensures NoDims(a + c, pi, pj)
  {
    forall m | 0 <= m < |a + c| ensures NotDim((a + c)[m], pi, pj) {
      if m >= |a| {
        assert (a + c)[m] == c[m - |a|];
      }
    }
  }

  lemma HeadNoDims(b: int)
    ensures NoDims(HeadLines(b), ICountKey(b), JCountKey(b))
  {
    var h := HeadLines(b);
    forall m | 0 <= m < 6 ensures NotDim(h[m], ICountKey(b), JCountKey(b)) {
      if m == 0 { LineNotDim(b, "_bot_s1", "0.000000000", 1); }
      else if m == 1 { LineNotDim(b, "_bot_s2", "1.000000000", 1); }
      else if m == 2 { LineNotDim(b, "_bot_t1", "0.000000000", 1); }
      else if m == 3 { LineNotDim(b, "_bot_t2", "1.000000000", 1); }
      else if m == 4 { LineNotDim(b, "_engn_for_body", "-1", 1); }
      else { LineNotDim(b, "_gear_for_body", "-1", 1); }
    }
  }

  /** A `_geo_xyz` line: its key starts `_g`, not `_l`. */
  lemma RenderNotDim(b: int, i: int, j: int, k: int, v: real)
    ensures NotDim(Render(b, i, j, k, v), ICountKey(b), JCountKey(b))
  {
    GeoKeyNotDim(b, Indices(i, j, k, v));
  }

  /** Any text after `P _body/<b>/_geo_xyz/` leaves the line no count line. */
  lemma GeoKeyNotDim(b: int, rest: string)
    ensures NotDim(BodyPrefix + (IntToString(b) + (GeoKey + rest)), ICountKey(b), JCountKey(b))
  {
    var line := BodyPrefix + (IntToString(b) + (GeoKey + rest));
    var x := IntToString(b);
    var r := GeoKey + rest;
    assert r[2] == 'g';
    assert (x + r)[|x| + 2] == 'g';
    assert line[|BodyPrefix| + |x| + 2] == 'g';
    assert line[0] == 'P';
    NotDimAt(line, b, 1);
  }

  /** A line starting `P` whose text after `P _body/<b>/` differs from
      `_locked/?_count` at position c is no count line. */
  lemma NotDimAt(line: string, b: int, c: nat)
    requires |line| > 0 && line[0] == 'P'
    requires c < 15 && |BodyKey(b)| + c < |line|
    requires line[|BodyKey(b)| + c] != "_locked/i_count"[c] && line[|BodyKey(b)| + c] != "_locked/j_count"[c]
    ensures NotDim(line, ICountKey(b), JCountKey(b))
  {
    var q := |BodyKey(b)|;
    assert ICountKey(b)[q + c] == "_locked/i_count"[c];
    assert JCountKey(b)[q + c] == "_locked/j_count"[c];
    NotKeyAt(line, ICountKey(b), q + c);
    NotKeyAt(line, JCountKey(b), q + c);
  }

  lemma GeoNoDims(b: int, cells: seq<Cell>)
    ensures NoDims(RenderCells(b, cells), ICountKey(b), JCountKey(b))
  {
    var lines := RenderCells(b, cells);
    forall m | 0 <= m < |lines| ensures NotDim(lines[m], ICountKey(b), JCountKey(b)) {
      RenderNotDim(b, cells[m].i, cells[m].j, cells[m].k, cells[m].v);
    }
  }

  lemma GeoLiteralNoDims(stationsMesh: seq<seq<Vec3>>, b: int, ti: int, tj: int)
    ensures NoDims(GeoLiteral.GeoLiteral(stationsMesh, b, ti, tj, true), ICountKey(b), JCountKey(b))
  {
    var g := GeoGrid(stationsMesh, ti, tj, true);
    GeoGridCovers(stationsMesh, ti, tj, true);
    GeoNoDims(b, GridCells(g, Seqs.Range(0, |g|), Seqs.Range(0, SlotCount(tj))));
  }

  /** A locked line: the character after `_locked/` is a digit. */
  lemma LockedLineNotDim(b: int, i: nat, j: int)
    ensures NotDim(LockedLine(b, i, j), ICountKey(b), JCountKey(b))
  {
    var key := "_locked/" + IntToString(i) + "," + IntToString(j);
    assert IsDigit(NatToString(i)[0]);
    assert key[8] == IntToString(i)[0];
    LineNotDim(b, key, "0", 8);
  }

  lemma {:induction false} LockedRowsNoDims(b: int, n: nat, w: nat)
    ensures NoDims(LockedRows(b, n, w), ICountKey(b), JCountKey(b))
    decreases n
  {
    if n > 0 {
      LockedRowsNoDims(b, n - 1, w);
      var row := LockedRow(b, n - 1, w);
      assert LockedRows(b, n, w) == LockedRows(b, n - 1, w) + row;
      forall m | 0 <= m < w ensures NotDim(row[m], ICountKey(b), JCountKey(b)) {
        RowOfAt(n - 1, w, LockedFn(b), m);
        LockedLineNotDim(b, n - 1, m);
      }
      NoDimsAppend(LockedRows(b, n - 1, w), row, ICountKey(b), JCountKey(b));
    }
  }

  /** Lines that are not count lines leave the scan where it was. */
  lemma {:induction false} DimsSkip(rs: seq<DimLine>, k: nat, p: nat)
    requires k <= p <= |rs|
    requires forall m :: k <= m < p ==> rs[m] == OtherLine
    ensures DimsFrom(rs, k, None, None) == DimsFrom(rs, p, None, None)
    decreases p - k
  {
    if k < p {
      DimsSkip(rs, k + 1, p);
    }
  }

  /** A number's text is a non-empty word. */
  lemma IntTextWord(n: int)
    ensures |IntToString(n)| > 0 && NoSpace(IntToString(n))
  {
    var u := NatToString(if n < 0 then -n else n);
    assert forall i :: 0 <= i < |u| ==> IsDigit(u[i]);
  }

  /** Nothing before the count lines is a count line. */
  lemma FrontNoDims(b: int, stationsMesh: seq<seq<Vec3>>, ti: int, tj: int)
    ensures NoDims(HeadLines(b) + GeoLiteral.GeoLiteral(stationsMesh, b, ti, tj, true) + LockedRows(b, Max0(ti), Max0(tj)),
                   ICountKey(b), JCountKey(b))
  {
    var g := GeoLiteral.GeoLiteral(stationsMesh, b, ti, tj, true);
    HeadNoDims(b);
    GeoLiteralNoDims(stationsMesh, b, ti, tj);
    LockedRowsNoDims(b, Max0(ti), Max0(tj));
    NoDimsAppend(HeadLines(b), g, ICountKey(b), JCountKey(b));
    NoDimsAppend(HeadLines(b) + g, LockedRows(b, Max0(ti), Max0(tj)), ICountKey(b), JCountKey(b));
  }

  /** The scan reaching the i_count line followed by the j_count line
      finds both counts there. */
  lemma CountLinesRead(rs: seq<DimLine>, p: nat, ti: int, tj: int)
    requires p + 1 < |rs| && rs[p] == ICount(Some(ti)) && rs[p + 1] == JCount(Some(tj))
    ensures DimsFrom(rs, p, None, None) == (Some(ti), Some(tj))
  {
    assert DimStep(None, None, rs[p]) == (Some(ti), None);
  }

  lemma TailCounts(b: int, ti: int, tj: int, stationCount: nat, radius: real, lateral: real)
    ensures var tail := TailLines(b, ti, tj, stationCount, radius, lateral);
            && |tail| == 21
            && tail[0] == Line(b, "_locked/i_count", IntToString(ti))
            && tail[1] == Line(b, "_locked/j_count", IntToString(tj))
  {
  }

  /** Count-free lines followed by the two count lines read as those counts. */
  lemma ReadBackAfter(front: seq<string>, tail: seq<string>, b: int, ti: int, tj: int)
    requires NoDims(front, ICountKey(b), JCountKey(b))
    requires |tail| >= 2
    requires tail[0] == Line(b, "_locked/i_count", IntToString(ti))
    requires tail[1] == Line(b, "_locked/j_count", IntToString(tj))
    ensures TargetDims(front + tail, b) == (ti, tj)
  {
    var pi, pj := ICountKey(b), JCountKey(b);
    var lines := front + tail;
    var rs := ClassifyAll(lines, b);
    var p := |front|;
    ClassifyAllEach(lines, b);
    forall m | 0 <= m < p ensures rs[m] == OtherLine {
      assert lines[m] == front[m];
      assert NotDim(front[m], pi, pj);
    }
    DimsSkip(rs, 0, p);
    assert lines[p] == tail[0] && lines[p + 1] == tail[1];
    IDimLine(b, ti);
    JDimLine(b, tj);
    CountLinesRead(rs, p, ti, tj);
  }

  /** Reading the dimensions of a freshly built block gives back the
      target_i and target_j it was built with. */
  lemma ReadBackDims(b: int, stationsMesh: seq<seq<Vec3>>, centered: seq<Vec3>, ti: int, tj: int, lateral: real)
    ensures TargetDims(BodyBlockLines(b, stationsMesh, centered, ti, tj, lateral), b) == (ti, tj)
  {
    var front := HeadLines(b) + GeoLiteral.GeoLiteral(stationsMesh, b, ti, tj, true) + LockedRows(b, Max0(ti), Max0(tj));
    var tail := TailLines(b, ti, tj, |stationsMesh|, GridRadiusFt(centered), lateral);
    FrontNoDims(b, stationsMesh, ti, tj);
    TailCounts(b, ti, tj, |stationsMesh|, GridRadiusFt(centered), lateral);
    ReadBackAfter(front, tail, b, ti, tj);
    assert BodyBlockLines(b, stationsMesh, centered, ti, tj, lateral) == front + tail;
  }

  /** The i_count line: stripped it is itself, it starts with the i key and
      its last word is the count. */
  lemma IDimLine(b: int, n: int)
    ensures var line := Line(b, "_locked/i_count", IntToString(n));
            && StartsWith(Strip(line), ICountKey(b)) && DimValue(Strip(line)) == Some(n)
  {
    var line := Line(b, "_locked/i_count", IntToString(n));
    DimLineReads(ICountKey(b), IntToString(n));
    assert line == ICountKey(b) + " " + IntToString(n);
    IntTextWord(n);
    ParseIntOfString(n);
  }

  /** The j_count line likewise, and it is not an i line. */
  lemma JDimLine(b: int, n: int)
    ensures var line := Line(b, "_locked/j_count", IntToString(n));
            && StartsWith(Strip(line), JCountKey(b)) && DimValue(Strip(line)) == Some(n)
            && !StartsWith(Strip(line), ICountKey(b))
  {
    var line := Line(b, "_locked/j_count", IntToString(n));
    IntTextWord(n);
    DimLineReads(JCountKey(b), IntToString(n));
    assert line == JCountKey(b) + " " + IntToString(n);
    ParseIntOfString(n);
    KeysDiffer(b);
    var c := |JCountKey(b)| - 7;
    assert line[c] == 'j';
    NotKeyAt(line, ICountKey(b), c);
  }

  /** `key + " " + w` for a word w strips to itself, starts with the key
      and has w for its last word. */
  lemma DimLineReads(key: string, w: string)
    requires |key| > 0 && !IsSpace(key[0]) && |w| > 0 && NoSpace(w)
    ensures var line := key + " " + w;
            Strip(line) == line && StartsWith(line, key) && LastWord(line) == w
  {
    var line := key + " " + w;
    assert line[0] == key[0];
    LStripNoLeadingSpace(line);
    assert !IsSpace(line[|line| - 1]);
    assert RStrip(line) == line;
    assert line[..|key|] == key;
    LastWordOf(key, w);
  }
}
