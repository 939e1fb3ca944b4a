/** The wing converter: finding the OBJ group of a logical panel, and
    patching the `_wing/<n>` keys of an .acf file from the measured panels. */
module Wings {
  import opened Wrappers
  import opened Text
  import opened NumText
  import opened Seqs
  import opened AcfPatch

  // ------------------------------------------------------ get_panel_points

  /** The keys of the `{name: points}` dict, in insertion order. */
  function Names<T>(objs: seq<(string, T)>): (r: seq<string>)
    ensures |r| == |objs| && forall i :: 0 <= i < |objs| ==> r[i] == objs[i].0
  {
    seq(|objs|, i requires 0 <= i < |objs| => objs[i].0)
  }

  /** `name` is `logical` followed by `_`, `.` or `-` and anything. */
  predicate Suffixed(name: string, logical: string) {
    StartsWith(name, logical + "_") || StartsWith(name, logical + ".") || StartsWith(name, logical + "-")
  }

  function IsNamed(logical: string): string -> bool {
    n => n == logical
  }

  function HasSuffixed(logical: string): string -> bool {
    n => Suffixed(n, logical)
  }

  function Mentions(logical: string): string -> bool {
    n => Contains(n, logical)
  }

  /** The position of the group get_panel_points returns: the exact name,
      else the first name extending it by a separator, else the first name
      containing it; `None` where it raises ValueError. */
  function PanelMatch(names: seq<string>, logical: string): (r: Option<nat>)
    ensures r.Some? ==> r.value < |names|
  {
    match FirstWhere(names, IsNamed(logical))
    case Some(i) => Some(i)
    case None =>
      match FirstWhere(names, HasSuffixed(logical))
      case Some(i) => Some(i)
      case None => FirstWhere(names, Mentions(logical))
  }

  /** How well a name matches: 0 exactly, 1 by a separator, 2 by
      containment, 3 not at all. */
  function Rank(name: string, logical: string): nat {
    if name == logical then 0
    else if Suffixed(name, logical) then 1
    else if Contains(name, logical) then 2
    else 3
  }

  lemma PrefixContains(s: string, p: string, q: string)
    requires StartsWith(s, p + q)
    ensures Contains(s, p)
  {
    assert s[..|p|] == (p + q)[..|p|] == p;
    StartsWithContains(s, p);
  }

  lemma RankBelow3(name: string, logical: string)
    ensures Rank(name, logical) < 3 <==> Contains(name, logical)
  {
    if name == logical {
      assert StartsWith(name, logical);
      StartsWithContains(name, logical);
    } else if StartsWith(name, logical + "_") {
      PrefixContains(name, logical, "_");
    } else if StartsWith(name, logical + ".") {
      PrefixContains(name, logical, ".");
    } else if StartsWith(name, logical + "-") {
      PrefixContains(name, logical, "-");
    }
  }

  /** The returned group is the first among the best-ranked names, and
      there is none exactly when no name contains the logical name. */
  lemma PanelMatchBest(names: seq<string>, logical: string)
    ensures PanelMatch(names, logical).None? <==> forall k :: 0 <= k < |names| ==> !Contains(names[k], logical)
    ensures PanelMatch(names, logical).Some? ==>
      var i := PanelMatch(names, logical).value;
      && Contains(names[i], logical)
      && (forall k :: 0 <= k < |names| ==> Rank(names[i], logical) <= Rank(names[k], logical))
      && (forall k :: 0 <= k < i ==> Rank(names[i], logical) < Rank(names[k], logical))
  {
    forall k | 0 <= k < |names| {
      RankBelow3(names[k], logical);
    }
    var e := FirstWhere(names, IsNamed(logical));
    var s := FirstWhere(names, HasSuffixed(logical));
    var c := FirstWhere(names, Mentions(logical));
    if e.Some? {
      assert Rank(names[e.value], logical) == 0;
    } else if s.Some? {
      assert Rank(names[s.value], logical) == 1;
      assert forall k :: 0 <= k < |names| ==> Rank(names[k], logical) >= 1;
    } else if c.Some? {
      assert Rank(names[c.value], logical) == 2;
      assert forall k :: 0 <= k < |names| ==> Rank(names[k], logical) >= 2;
    }
  }

  /** get_panel_points: the points of the matching group, or `None` for the
      ValueError. */
  method GetPanelPoints<T>(objs: seq<(string, T)>, logical: string) returns (r: Option<T>)
    ensures r == match PanelMatch(Names(objs), logical)
                 case Some(i) => Some(objs[i].1)
                 case None => None
  {
    var names := Names(objs);
    var exact := FirstWhere(names, IsNamed(logical));
    if exact.Some? {
      return Some(objs[exact.value].1);
    }
    var i := 0;
    while i < |objs|
      invariant i <= |objs|
      invariant forall k :: 0 <= k < i ==> !HasSuffixed(logical)(names[k])
    {
      if Suffixed(objs[i].0, logical) {
        FirstWhereIs(names, HasSuffixed(logical), i);
        return Some(objs[i].1);
      }
      i := i + 1;
    }
    i := 0;
    while i < |objs|
      invariant i <= |objs|
      invariant forall k :: 0 <= k < i ==> !Mentions(logical)(names[k])
    {
      if Contains(objs[i].0, logical) {
        FirstWhereIs(names, Mentions(logical), i);
        return Some(objs[i].1);
      }
      i := i + 1;
    }
    return None;
  }

  // --------------------------------------------------------------- panels

  /** Meters to feet, as the wing converter writes it. */
  const M2Ft: real := 3.280839895

  datatype Panel = Wing1 | Wing2 | HorizontalStab | VertStab

  /** The `mapping` dict of patch_acf, in its order. */
  const Mapping: seq<Panel> := [Wing1, Wing2, HorizontalStab, VertStab]

  /** The logical group name of a panel. */
  function PanelName(p: Panel): string {
    match p
    case Wing1 => "Wing1"
    case Wing2 => "Wing2"
    case HorizontalStab => "Horizontal_Stab"
    case VertStab => "Vert_Stab"
  }

  /** The Plane-Maker wing slots a panel fills: inner, outer and tail
      left/right pairs, and the single fin. */
  function WingIndices(p: Panel): seq<nat> {
    match p
    case Wing1 => [0, 1]
    case Wing2 => [2, 3]
    case HorizontalStab => [8, 9]
    case VertStab => [10]
  }

  /** The panel that fills a wing slot, if any does. */
  function SlotPanel(idx: nat): (r: Option<Panel>)
    ensures r.Some? ==> idx in WingIndices(r.value)
  {
    if idx <= 1 then Some(Wing1)
    else if idx <= 3 then Some(Wing2)
    else if 8 <= idx <= 9 then Some(HorizontalStab)
    else if idx == 10 then Some(VertStab)
    else None
  }

  /** The mapping gives every slot to one panel only. */
  lemma SlotPanelOwns(p: Panel, idx: nat)
    ensures idx in WingIndices(p) <==> SlotPanel(idx) == Some(p)
  {
  }

  /** One panel as measured from the OBJ, in meters and degrees. */
  datatype PanelInfo = PanelInfo(chordRoot: real, chordTip: real, semi: real,
                                 sweepDeg: real, dihedDeg: real,
                                 xRoot: real, yRoot: real, zRoot25: real)

  /** The lateral arm written for a slot: Wing2's left slot gets `-|lat|`
      and its right slot `+|lat|`; every other slot keeps `lat`. */
  function Lateral(p: Panel, idx: nat, latFt: real): real {
    if p == Wing2 then
      var mag := AbsReal(latFt);
      if idx == 2 then -mag else if idx == 3 then mag else latFt
    else latFt
  }

  /** Wing2's two slots mirror each other whatever side the OBJ put it on:
      the left arm is never positive, the right one is its negation, and
      flipping the measured sign changes neither. */
  lemma Wing2Mirrored(latFt: real)
    ensures Lateral(Wing2, 2, latFt) <= 0.0
    ensures Lateral(Wing2, 3, latFt) == -Lateral(Wing2, 2, latFt)
    ensures Lateral(Wing2, 2, -latFt) == Lateral(Wing2, 2, latFt)
    ensures Lateral(Wing2, 3, -latFt) == Lateral(Wing2, 3, latFt)
    ensures AbsReal(Lateral(Wing2, 3, latFt)) == AbsReal(latFt)
  {
  }

  /** Every other panel writes the measured lateral arm as it is. */
  lemma OthersUnmirrored(p: Panel, idx: nat, latFt: real)
    requires p != Wing2 && idx in WingIndices(p)
    ensures Lateral(p, idx, latFt) == latFt
  {
  }

  // --------------------------------------------------------------- keys

  /** The eleven keys patch_acf writes per slot, in its order. */
  datatype Field = Croot | Ctip | SemiLen | Sweep | Dihed | PartX | PartY | PartZ | GeoX | GeoY | GeoZ

  const Fields: seq<Field> := [Croot, Ctip, SemiLen, Sweep, Dihed, PartX, PartY, PartZ, GeoX, GeoY, GeoZ]

  function FieldSuffix(f: Field): string {
    match f
    case Croot => "/_Croot"
    case Ctip => "/_Ctip"
    case SemiLen => "/_semilen_SEG"
    case Sweep => "/_sweep_design"
    case Dihed => "/_dihed_design"
    case PartX => "/_part_x"
    case PartY => "/_part_y"
    case PartZ => "/_part_z"
    case GeoX => "/_geo_xyz/0,0,0"
    case GeoY => "/_geo_xyz/0,0,1"
    case GeoZ => "/_geo_xyz/0,0,2"
  }

  /** `f"{base}/..."` with `base = f"_wing/{idx}"` */
  function WingKey(idx: nat, f: Field): string {
    "_wing/" + NatToString(idx) + FieldSuffix(f)
  }

  /** The value written for a field: lengths in feet, angles as measured,
      the lateral arm after the Wing2 sign rule. */
  function FieldValue(p: Panel, idx: nat, f: Field, info: PanelInfo): real {
    match f
    case Croot => info.chordRoot * M2Ft
    case Ctip => info.chordTip * M2Ft
    case SemiLen => info.semi * M2Ft
    case Sweep => info.sweepDeg
    case Dihed => info.dihedDeg
    case PartX => Lateral(p, idx, info.xRoot * M2Ft)
    case PartY => info.yRoot * M2Ft
    case PartZ => info.zRoot25 * M2Ft
    case GeoX => Lateral(p, idx, info.xRoot * M2Ft)
    case GeoY => info.yRoot * M2Ft
    case GeoZ => info.zRoot25 * M2Ft
  }

  /** Where a field sits in `Fields`. */
  function FieldPos(f: Field): (i: nat)
    ensures i < |Fields| && Fields[i] == f
  {
    match f
    case Croot => 0
    case Ctip => 1
    case SemiLen => 2
    case Sweep => 3
    case Dihed => 4
    case PartX => 5
    case PartY => 6
    case PartZ => 7
    case GeoX => 8
    case GeoY => 9
    case GeoZ => 10
  }

  lemma FieldsDistinct()
    ensures forall i, j :: 0 <= i < j < |Fields| ==> Fields[i] != Fields[j]
  {
  }

  function SuffixField(s: string): Option<Field> {
    if s == "/_Croot" then Some(Croot)
    else if s == "/_Ctip" then Some(Ctip)
    else if s == "/_semilen_SEG" then Some(SemiLen)
    else if s == "/_sweep_design" then Some(Sweep)
    else if s == "/_dihed_design" then Some(Dihed)
    else if s == "/_part_x" then Some(PartX)
    else if s == "/_part_y" then Some(PartY)
    else if s == "/_part_z" then Some(PartZ)
    else if s == "/_geo_xyz/0,0,0" then Some(GeoX)
    else if s == "/_geo_xyz/0,0,1" then Some(GeoY)
    else if s == "/_geo_xyz/0,0,2" then Some(GeoZ)
    else None
  }

  lemma SuffixFieldInverse(f: Field)
    ensures SuffixField(FieldSuffix(f)) == Some(f)
  {
  }

  lemma SuffixShape(f: Field)
    ensures |FieldSuffix(f)| > 0 && FieldSuffix(f)[0] == '/' && NoSpace(FieldSuffix(f))
  {
  }

  /** Digits followed by a slash split only one way. */
  lemma DigitsThenSlash(a: string, s: string, b: string, t: string)
    requires AllDigits(a) && AllDigits(b) && |s| > 0 && |t| > 0 && s[0] == '/' && t[0] == '/'
    requires a + s == b + t
    ensures a == b && s == t
  {
    assert (a + s)[|a|] == '/' && (b + t)[|b|] == '/';
    assert |a| == |b|;
    assert a == (a + s)[..|a|] && b == (b + t)[..|b|];
    assert s == (a + s)[|a|..] && t == (b + t)[|b|..];
  }

  /** Different slots or fields never share a key. */
  lemma WingKeyInjective(i1: nat, f1: Field, i2: nat, f2: Field)
    requires WingKey(i1, f1) == WingKey(i2, f2)
    ensures i1 == i2 && f1 == f2
  {
    SuffixShape(f1);
    SuffixShape(f2);
    KeySplit(NatToString(i1), FieldSuffix(f1), NatToString(i2), FieldSuffix(f2));
    NatToStringRoundTrip(i1);
    NatToStringRoundTrip(i2);
    SuffixInjective(f1, f2);
  }

  lemma KeySplit(a: string, s: string, b: string, t: string)
    requires AllDigits(a) && AllDigits(b) && |s| > 0 && |t| > 0 && s[0] == '/' && t[0] == '/'
    requires "_wing/" + a + s == "_wing/" + b + t
    ensures a == b && s == t
  {
    assert a + s == ("_wing/" + a + s)[6..];
    assert b + t == ("_wing/" + b + t)[6..];
    DigitsThenSlash(a, s, b, t);
  }

  lemma SuffixInjective(f1: Field, f2: Field)
    requires FieldSuffix(f1) == FieldSuffix(f2)
    ensures f1 == f2
  {
    SuffixFieldInverse(f1);
    SuffixFieldInverse(f2);
  }

  lemma WingKeyShape(idx: nat, f: Field)
    ensures NoSpace(WingKey(idx, f)) && StartsWith(WingKey(idx, f), "_wing/")
  {
    SuffixShape(f);
    var k := WingKey(idx, f);
    var d := NatToString(idx);
    assert forall i :: 0 <= i < |d| ==> IsDigit(d[i]);
    forall i | 0 <= i < |k| ensures !IsSpace(k[i]) {
      if i < 6 {
      } else if i < 6 + |d| {
        assert k[i] == d[i - 6];
      } else {
        assert k[i] == FieldSuffix(f)[i - 6 - |d|];
      }
    }
  }

  // ------------------------------------------------- writes and lookups

  /** One `replace_or_append(text, key, value)` call. */
  type Write = (string, real)

  /** One call on the file's lines. */
  function SetKey(lines: seq<string>, w: Write): seq<string> {
    WithKey(lines, w.0, w.1)
  }

  /** `for w in ws: s = f(s, w)` */
  function Fold<S, W>(s: S, ws: seq<W>, f: (S, W) -> S): S {
    if |ws| == 0 then s else f(Fold(s, ws[..|ws| - 1], f), ws[|ws| - 1])
  }

  /** The calls in order, applied to the file's lines. */
  function ApplyWrites(lines: seq<string>, ws: seq<Write>): seq<string> {
    Fold(lines, ws, SetKey)
  }

  /** The value of the last write of key `k`, if any. */
  function LastWrite(ws: seq<Write>, k: string): Option<real> {
    if |ws| == 0 then None
    else if ws[|ws| - 1].0 == k then Some(ws[|ws| - 1].1)
    else LastWrite(ws[..|ws| - 1], k)
  }

  /** The line Plane-Maker reads for key `k`: the first one starting with
      `P <k> `. */
  function Lookup(lines: seq<string>, k: string): Option<string> {
    match FirstWhere(lines, HasKey(k))
    case Some(i) => Some(lines[i])
    case None => None
  }

  lemma {:induction false} FoldAppend<S, W>(s: S, a: seq<W>, b: seq<W>, f: (S, W) -> S)
    ensures Fold(s, a + b, f) == Fold(Fold(s, a, f), b, f)
    decreases |b|
  {
    if |b| == 0 {
      assert a + b == a;
    } else {
      var b' := b[..|b| - 1];
      assert (a + b)[..|a + b| - 1] == a + b';
      FoldAppend(s, a, b', f);
    }
  }

  lemma ApplyAppend(lines: seq<string>, a: seq<Write>, b: seq<Write>)
    ensures ApplyWrites(lines, a + b) == ApplyWrites(ApplyWrites(lines, a), b)
  {
    FoldAppend(lines, a, b, SetKey);
  }

  lemma {:induction false} LastWriteAppend(a: seq<Write>, b: seq<Write>, k: string)
    ensures LastWrite(a + b, k) == if LastWrite(b, k).Some? then LastWrite(b, k) else LastWrite(a, k)
    decreases |b|
  {
    if |b| == 0 {
      assert a + b == a;
    } else {
      var b' := b[..|b| - 1];
      assert (a + b)[..|a + b| - 1] == a + b';
      LastWriteAppend(a, b', k);
    }
  }

  /** A line starts with the prefix of at most one space-free key. */
  lemma KeyPrefixesExclusive(line: string, k1: string, k2: string)
    requires NoSpace(k1) && NoSpace(k2)
    requires StartsWith(line, KeyPrefix(k1)) && StartsWith(line, KeyPrefix(k2))
    ensures k1 == k2
  {
    assert forall i :: 0 <= i < |k1| ==> line[2 + i] == k1[i];
    assert forall i :: 0 <= i < |k2| ==> line[2 + i] == k2[i];
    assert line[2 + |k1|] == ' ' && line[2 + |k2|] == ' ';
    assert |k1| == |k2|;
    assert k1 == line[2..2 + |k1|] == k2;
  }

  /** Two sequences the predicate cannot tell apart have the same first match. */
  lemma FirstWhereAlike<T>(a: seq<T>, b: seq<T>, p: T -> bool)
    requires |a| == |b| && forall k :: 0 <= k < |a| ==> p(a[k]) == p(b[k])
    ensures FirstWhere(a, p) == FirstWhere(b, p)
  {
    match FirstWhere(a, p)
    case Some(i) => FirstWhereIs(b, p, i);
    case None =>
  }

  lemma WithKeySame(lines: seq<string>, k: string, v: real)
    ensures Lookup(WithKey(lines, k, v), k) == Some(KeyLine(k, v))
  {
    WithKeySets(lines, k, v);
  }

  /** Writing one key leaves the line read for any other key as it was. */
  lemma WithKeyOther(lines: seq<string>, k: string, v: real, k1: string)
    requires NoSpace(k) && NoSpace(k1) && k1 != k
    ensures Lookup(WithKey(lines, k, v), k1) == Lookup(lines, k1)
  {
    var r := WithKey(lines, k, v);
    var line := KeyLine(k, v);
    KeyLineHasKey(k, v);
    if HasKey(k1)(line) {
      KeyPrefixesExclusive(line, k, k1);
    }
    match FirstWhere(lines, HasKey(k))
    case Some(i) =>
      if HasKey(k1)(lines[i]) {
        KeyPrefixesExclusive(lines[i], k, k1);
      }
      FirstWhereAlike(lines, r, HasKey(k1));
    case None =>
      match FirstWhere(lines, HasKey(k1))
      case Some(j) =>
        FirstWhereIs(r, HasKey(k1), j);
      case None =>
        assert forall j :: 0 <= j < |r| ==> !HasKey(k1)(r[j]);
  }

  /** After a run of writes, each key reads the line of its last write, or
      what it read before when it was not written. */
  lemma {:induction false} ApplyWritesLookup(lines: seq<string>, ws: seq<Write>, k: string)
    requires NoSpace(k) && forall j :: 0 <= j < |ws| ==> NoSpace(ws[j].0)
    ensures Lookup(ApplyWrites(lines, ws), k)
      == match LastWrite(ws, k)
         case Some(v) => Some(KeyLine(k, v))
         case None => Lookup(lines, k)
    decreases |ws|
  {
    if |ws| > 0 {
      var init := ws[..|ws| - 1];
      var w := ws[|ws| - 1];
      ApplyWritesLookup(lines, init, k);
      assert ApplyWrites(lines, ws) == WithKey(ApplyWrites(lines, init), w.0, w.1);
      if w.0 == k {
        WithKeySame(ApplyWrites(lines, init), k, w.1);
      } else {
        WithKeyOther(ApplyWrites(lines, init), w.0, w.1, k);
      }
    }
  }

  /** Each write replaces a line or adds one. */
  lemma {:induction false} ApplyWritesLength(lines: seq<string>, ws: seq<Write>)
    ensures |lines| <= |ApplyWrites(lines, ws)| <= |lines| + |ws|
    decreases |ws|
  {
    if |ws| > 0 {
      var init := ws[..|ws| - 1];
      ApplyWritesLength(lines, init);
      assert ApplyWrites(lines, ws) == WithKey(ApplyWrites(lines, init), ws[|ws| - 1].0, ws[|ws| - 1].1);
      WithKeySets(ApplyWrites(lines, init), ws[|ws| - 1].0, ws[|ws| - 1].1);
    }
  }

  // ------------------------------------------------------------ patch_acf

  /** The eleven writes of one slot, in order. */
  function SlotWrites(p: Panel, idx: nat, info: PanelInfo): (ws: seq<Write>)
    ensures |ws| == |Fields|
  {
    seq(|Fields|, i requires 0 <= i < |Fields| => (WingKey(idx, Fields[i]), FieldValue(p, idx, Fields[i], info)))
  }

  /** The writes of a panel over its slots. */
  function PanelWrites(p: Panel, idxs: seq<nat>, info: PanelInfo): seq<Write> {
    if |idxs| == 0 then []
    else PanelWrites(p, idxs[..|idxs| - 1], info) + SlotWrites(p, idxs[|idxs| - 1], info)
  }

  /** The writes of patch_acf over a list of panels. */
  function PatchWrites(ps: seq<Panel>, info: Panel -> PanelInfo): seq<Write> {
    if |ps| == 0 then []
    else PatchWrites(ps[..|ps| - 1], info) + PanelWrites(ps[|ps| - 1], WingIndices(ps[|ps| - 1]), info(ps[|ps| - 1]))
  }

  /** The lines patch_acf leaves. */
  function PatchedLines(lines: seq<string>, info: Panel -> PanelInfo): seq<string> {
    ApplyWrites(lines, PatchWrites(Mapping, info))
  }

  lemma SlotWritesLast(p: Panel, j: nat, info: PanelInfo, idx: nat, f: Field)
    ensures LastWrite(SlotWrites(p, j, info), WingKey(idx, f))
      == if j == idx then Some(FieldValue(p, idx, f, info)) else None
  {
    var ws := SlotWrites(p, j, info);
    var k := WingKey(idx, f);
    forall i | 0 <= i < |ws| && ws[i].0 == k ensures j == idx && i == FieldPos(f) {
      WingKeyInjective(j, Fields[i], idx, f);
      FieldsDistinct();
    }
    if j == idx {
      LastWriteAt(ws, k, FieldPos(f));
    } else {
      LastWriteNone(ws, k);
    }
  }

  lemma {:induction false} LastWriteAt(ws: seq<Write>, k: string, i: nat)
    requires i < |ws| && ws[i].0 == k && forall j :: i < j < |ws| ==> ws[j].0 != k
    ensures LastWrite(ws, k) == Some(ws[i].1)
    decreases |ws|
  {
    if i < |ws| - 1 {
      LastWriteAt(ws[..|ws| - 1], k, i);
    }
  }

  lemma {:induction false} LastWriteNone(ws: seq<Write>, k: string)
    requires forall j :: 0 <= j < |ws| ==> ws[j].0 != k
    ensures LastWrite(ws, k) == None
    decreases |ws|
  {
    if |ws| > 0 {
      LastWriteNone(ws[..|ws| - 1], k);
    }
  }

  lemma {:induction false} PanelWritesLast(p: Panel, idxs: seq<nat>, info: PanelInfo, idx: nat, f: Field)
    ensures LastWrite(PanelWrites(p, idxs, info), WingKey(idx, f))
      == if idx in idxs then Some(FieldValue(p, idx, f, info)) else None
    decreases |idxs|
  {
    if |idxs| > 0 {
      var init := idxs[..|idxs| - 1];
      var j := idxs[|idxs| - 1];
      assert idxs == init + [j];
      PanelWritesLast(p, init, info, idx, f);
      LastWriteAppend(PanelWrites(p, init, info), SlotWrites(p, j, info), WingKey(idx, f));
      SlotWritesLast(p, j, info, idx, f);
    }
  }

  /** The panel among `ps` whose slots last include `idx`. */
  function LastOwner(ps: seq<Panel>, idx: nat): Option<Panel> {
    if |ps| == 0 then None
    else if idx in WingIndices(ps[|ps| - 1]) then Some(ps[|ps| - 1])
    else LastOwner(ps[..|ps| - 1], idx)
  }

  lemma {:induction false} PatchWritesLast(ps: seq<Panel>, info: Panel -> PanelInfo, idx: nat, f: Field)
    ensures LastWrite(PatchWrites(ps, info), WingKey(idx, f))
      == match LastOwner(ps, idx)
         case Some(p) => Some(FieldValue(p, idx, f, info(p)))
         case None => None
    decreases |ps|
  {
    if |ps| > 0 {
      var init := ps[..|ps| - 1];
      var p := ps[|ps| - 1];
      PatchWritesLast(init, info, idx, f);
      LastWriteAppend(PatchWrites(init, info), PanelWrites(p, WingIndices(p), info(p)), WingKey(idx, f));
      PanelWritesLast(p, WingIndices(p), info(p), idx, f);
    }
  }

  lemma MappingOwner(idx: nat)
    ensures LastOwner(Mapping, idx) == SlotPanel(idx)
  {
    var m3 := Mapping[..3];
    var m2 := m3[..2];
    var m1 := m2[..1];
    assert m3 == [Wing1, Wing2, HorizontalStab] && m2 == [Wing1, Wing2] && m1 == [Wing1] && m1[..0] == [];
    assert LastOwner(m1, idx) == if idx <= 1 then Some(Wing1) else None;
    assert LastOwner(m2, idx) == if idx <= 1 then Some(Wing1) else if idx <= 3 then Some(Wing2) else None;
    assert LastOwner(m3, idx) == if idx <= 3 then LastOwner(m2, idx)
      else if 8 <= idx <= 9 then Some(HorizontalStab) else None;
  }

  /** Every key patch_acf writes is a `_wing/` key without spaces. */
  lemma {:induction false} PatchWritesKeys(ps: seq<Panel>, info: Panel -> PanelInfo)
    ensures forall j :: 0 <= j < |PatchWrites(ps, info)| ==>
      NoSpace(PatchWrites(ps, info)[j].0) && StartsWith(PatchWrites(ps, info)[j].0, "_wing/")
    decreases |ps|
  {
    if |ps| > 0 {
      PatchWritesKeys(ps[..|ps| - 1], info);
      var p := ps[|ps| - 1];
      PanelWritesKeys(p, WingIndices(p), info(p));
    }
  }

  lemma {:induction false} PanelWritesKeys(p: Panel, idxs: seq<nat>, info: PanelInfo)
    ensures forall j :: 0 <= j < |PanelWrites(p, idxs, info)| ==>
      NoSpace(PanelWrites(p, idxs, info)[j].0) && StartsWith(PanelWrites(p, idxs, info)[j].0, "_wing/")
    decreases |idxs|
  {
    if |idxs| > 0 {
      PanelWritesKeys(p, idxs[..|idxs| - 1], info);
      var idx := idxs[|idxs| - 1];
      forall i | 0 <= i < |Fields| {
        WingKeyShape(idx, Fields[i]);
      }
    }
  }

  /** After patch_acf, each of the slots 0-3 and 8-10 reads, for each of its
      eleven keys, the value of the panel that owns it; every other key,
      including those of the unmapped slots, reads what it read before. */
  lemma PatchedKeys(lines: seq<string>, info: Panel -> PanelInfo, idx: nat, f: Field)
    ensures Lookup(PatchedLines(lines, info), WingKey(idx, f))
      == match SlotPanel(idx)
         case Some(p) => Some(KeyLine(WingKey(idx, f), FieldValue(p, idx, f, info(p))))
         case None => Lookup(lines, WingKey(idx, f))
  {
    PatchWritesKeys(Mapping, info);
    WingKeyShape(idx, f);
    ApplyWritesLookup(lines, PatchWrites(Mapping, info), WingKey(idx, f));
    PatchWritesLast(Mapping, info, idx, f);
    MappingOwner(idx);
  }

  /** Keys outside `_wing/` are untouched, and the file grows by at most one
      line per write. */
  lemma PatchedOthers(lines: seq<string>, info: Panel -> PanelInfo, k: string)
    requires NoSpace(k) && !StartsWith(k, "_wing/")
    ensures Lookup(PatchedLines(lines, info), k) == Lookup(lines, k)
    ensures |lines| <= |PatchedLines(lines, info)| <= |lines| + |PatchWrites(Mapping, info)|
  {
    var ws := PatchWrites(Mapping, info);
    PatchWritesKeys(Mapping, info);
    ApplyWritesLookup(lines, ws, k);
    LastWriteNone(ws, k);
    ApplyWritesLength(lines, ws);
  }

  /** One more call of the run `ws[lo..k]`, generically. */
  lemma FoldSlice<S, W>(s: S, ws: seq<W>, lo: nat, k: nat, f: (S, W) -> S, cur: S, next: S)
    requires lo <= k < |ws| && cur == Fold(s, ws[lo..k], f) && next == f(cur, ws[k])
    ensures next == Fold(s, ws[lo..k + 1], f)
  {
    assert ws[lo..k + 1][..k - lo] == ws[lo..k];
  }

  /** A run split in two. */
  lemma FoldJoin<S, W>(s: S, ws: seq<W>, lo: nat, mid: nat, hi: nat, f: (S, W) -> S)
    requires lo <= mid <= hi <= |ws|
    ensures Fold(s, ws[lo..hi], f) == Fold(Fold(s, ws[lo..mid], f), ws[mid..hi], f)
  {
    assert ws[lo..hi] == ws[lo..mid] + ws[mid..hi];
    FoldAppend(s, ws[lo..mid], ws[mid..hi], f);
  }

  /** Three calls in a row are the run `ws[lo..lo + 3]`. */
  lemma FoldRun3<S, W>(f: (S, W) -> S, ws: seq<W>, lo: nat, s0: S, s1: S, s2: S, s3: S)
    requires lo + 3 <= |ws|
    requires s1 == f(s0, ws[lo]) && s2 == f(s1, ws[lo + 1]) && s3 == f(s2, ws[lo + 2])
    ensures s3 == Fold(s0, ws[lo..lo + 3], f)
  {
    assert ws[lo..lo] == [];
    FoldSlice(s0, ws, lo, lo, f, s0, s1);
    FoldSlice(s0, ws, lo, lo + 1, f, s1, s2);
    FoldSlice(s0, ws, lo, lo + 2, f, s2, s3);
  }

  /** Five calls in a row are the run `ws[lo..lo + 5]`. */
  lemma FoldRun5<S, W>(f: (S, W) -> S, ws: seq<W>, lo: nat, s0: S, s1: S, s2: S, s3: S, s4: S, s5: S)
    requires lo + 5 <= |ws|
    requires s1 == f(s0, ws[lo]) && s2 == f(s1, ws[lo + 1]) && s3 == f(s2, ws[lo + 2])
    requires s4 == f(s3, ws[lo + 3]) && s5 == f(s4, ws[lo + 4])
    ensures s5 == Fold(s0, ws[lo..lo + 5], f)
  {
    FoldRun3(f, ws, lo, s0, s1, s2, s3);
    FoldSlice(s0, ws, lo, lo + 3, f, s3, s4);
    FoldSlice(s0, ws, lo, lo + 4, f, s4, s5);
  }

  /** Three `replace_or_append` calls in a row are three writes. */
  lemma Wrote3(s0: seq<string>, s1: seq<string>, s2: seq<string>, s3: seq<string>,
               k0: string, v0: real, k1: string, v1: real, k2: string, v2: real)
    requires s1 == WithKey(s0, k0, v0) && s2 == WithKey(s1, k1, v1) && s3 == WithKey(s2, k2, v2)
    ensures s3 == ApplyWrites(s0, [(k0, v0), (k1, v1), (k2, v2)])
  {
    var ws := [(k0, v0), (k1, v1), (k2, v2)];
    FoldRun3(SetKey, ws, 0, s0, s1, s2, s3);
    assert ws[0..3] == ws;
  }

  /** Two `replace_or_append` calls in a row are two writes. */
  lemma Wrote2(s0: seq<string>, s1: seq<string>, s2: seq<string>, k0: string, v0: real, k1: string, v1: real)
    requires s1 == WithKey(s0, k0, v0) && s2 == WithKey(s1, k1, v1)
    ensures s2 == ApplyWrites(s0, [(k0, v0), (k1, v1)])
  {
    var ws := [(k0, v0), (k1, v1)];
    assert ws[0..0] == [];
    FoldSlice(s0, ws, 0, 0, SetKey, s0, s1);
    FoldSlice(s0, ws, 0, 1, SetKey, s1, s2);
    assert ws[0..2] == ws;
  }

  /** Five `replace_or_append` calls in a row are five writes. */
  lemma Wrote5(s0: seq<string>, s1: seq<string>, s2: seq<string>, s3: seq<string>, s4: seq<string>, s5: seq<string>,
               k0: string, v0: real, k1: string, v1: real, k2: string, v2: real, k3: string, v3: real, k4: string, v4: real)
    requires s1 == WithKey(s0, k0, v0) && s2 == WithKey(s1, k1, v1) && s3 == WithKey(s2, k2, v2)
    requires s4 == WithKey(s3, k3, v3) && s5 == WithKey(s4, k4, v4)
    ensures s5 == ApplyWrites(s0, [(k0, v0), (k1, v1), (k2, v2), (k3, v3), (k4, v4)])
  {
    Wrote3(s0, s1, s2, s3, k0, v0, k1, v1, k2, v2);
    Wrote2(s3, s4, s5, k3, v3, k4, v4);
    ApplyAppend(s0, [(k0, v0), (k1, v1), (k2, v2)], [(k3, v3), (k4, v4)]);
    assert [(k0, v0), (k1, v1), (k2, v2)] + [(k3, v3), (k4, v4)] == [(k0, v0), (k1, v1), (k2, v2), (k3, v3), (k4, v4)];
  }

  /** The write `i` of a slot, spelled out. */
  lemma SlotWriteAt(p: Panel, idx: nat, info: PanelInfo, i: nat)
    requires i < |Fields|
    ensures SlotWrites(p, idx, info)[i]
      == ("_wing/" + NatToString(idx) + FieldSuffix(Fields[i]), FieldValue(p, idx, Fields[i], info))
  {
  }

  /** The first five writes of a slot: the planform. */
  lemma PlanformWrites(p: Panel, idx: nat, info: PanelInfo)
    ensures SlotWrites(p, idx, info)[0..5]
      == [("_wing/" + NatToString(idx) + "/_Croot", info.chordRoot * M2Ft), ("_wing/" + NatToString(idx) + "/_Ctip", info.chordTip * M2Ft),
          ("_wing/" + NatToString(idx) + "/_semilen_SEG", info.semi * M2Ft), ("_wing/" + NatToString(idx) + "/_sweep_design", info.sweepDeg),
          ("_wing/" + NatToString(idx) + "/_dihed_design", info.dihedDeg)]
  {
    SlotWriteAt(p, idx, info, 0);
    SlotWriteAt(p, idx, info, 1);
    SlotWriteAt(p, idx, info, 2);
    SlotWriteAt(p, idx, info, 3);
    SlotWriteAt(p, idx, info, 4);
  }

  /** Writes 5-7 of a slot: the arms, with the lateral one after the sign rule. */
  lemma ArmWrites(p: Panel, idx: nat, info: PanelInfo, latHere: real)
    requires latHere == Lateral(p, idx, info.xRoot * M2Ft)
    ensures SlotWrites(p, idx, info)[5..8]
      == [("_wing/" + NatToString(idx) + "/_part_x", latHere), ("_wing/" + NatToString(idx) + "/_part_y", info.yRoot * M2Ft),
          ("_wing/" + NatToString(idx) + "/_part_z", info.zRoot25 * M2Ft)]
  {
    SlotWriteAt(p, idx, info, 5);
    SlotWriteAt(p, idx, info, 6);
    SlotWriteAt(p, idx, info, 7);
  }

  /** Writes 8-10 of a slot: the root vertex, equal to the arms. */
  lemma GeoRootWrites(p: Panel, idx: nat, info: PanelInfo, latHere: real)
    requires latHere == Lateral(p, idx, info.xRoot * M2Ft)
    ensures SlotWrites(p, idx, info)[8..11]
      == [("_wing/" + NatToString(idx) + "/_geo_xyz/0,0,0", latHere), ("_wing/" + NatToString(idx) + "/_geo_xyz/0,0,1", info.yRoot * M2Ft),
          ("_wing/" + NatToString(idx) + "/_geo_xyz/0,0,2", info.zRoot25 * M2Ft)]
  {
    SlotWriteAt(p, idx, info, 8);
    SlotWriteAt(p, idx, info, 9);
    SlotWriteAt(p, idx, info, 10);
  }

  /** The three runs of a slot make up all of its writes. */
  lemma SlotRuns(ws: seq<Write>, s0: seq<string>, s1: seq<string>, s2: seq<string>, s3: seq<string>)
    requires |ws| == 11
    requires s1 == ApplyWrites(s0, ws[0..5]) && s2 == ApplyWrites(s1, ws[5..8]) && s3 == ApplyWrites(s2, ws[8..11])
    ensures s3 == ApplyWrites(s0, ws)
  {
    FoldJoin(s0, ws, 0, 5, 8, SetKey);
    FoldJoin(s0, ws, 0, 8, 11, SetKey);
    assert ws[0..11] == ws;
  }

  /** The planform keys of a slot: chords, semi-length, sweep, dihedral. */
  method PatchPlanform(text: AcfText, ghost p: Panel, idx: nat, info: PanelInfo)
    modifies text
    ensures text.lines == ApplyWrites(old(text.lines), SlotWrites(p, idx, info)[0..5])
  {
    var base := "_wing/" + NatToString(idx);
    var crootFt := info.chordRoot * M2Ft;
    var ctipFt := info.chordTip * M2Ft;
    var semiFt := info.semi * M2Ft;
    ghost var s0 := text.lines;
    text.ReplaceOrAppend(base + "/_Croot", crootFt);
    ghost var s1 := text.lines;
    text.ReplaceOrAppend(base + "/_Ctip", ctipFt);
    ghost var s2 := text.lines;
    text.ReplaceOrAppend(base + "/_semilen_SEG", semiFt);
    ghost var s3 := text.lines;
    text.ReplaceOrAppend(base + "/_sweep_design", info.sweepDeg);
    ghost var s4 := text.lines;
    text.ReplaceOrAppend(base + "/_dihed_design", info.dihedDeg);
    Wrote5(s0, s1, s2, s3, s4, text.lines, base + "/_Croot", crootFt, base + "/_Ctip", ctipFt,
      base + "/_semilen_SEG", semiFt, base + "/_sweep_design", info.sweepDeg, base + "/_dihed_design", info.dihedDeg);
    PlanformWrites(p, idx, info);
  }

  /** The arm keys of a slot, from the root quarter-chord point. */
  method PatchArms(text: AcfText, ghost p: Panel, idx: nat, info: PanelInfo, latHere: real)
    requires latHere == Lateral(p, idx, info.xRoot * M2Ft)
    modifies text
    ensures text.lines == ApplyWrites(old(text.lines), SlotWrites(p, idx, info)[5..8])
  {
    var base := "_wing/" + NatToString(idx);
    var vertFt := info.yRoot * M2Ft;
    var longFt := info.zRoot25 * M2Ft;
    ghost var s0 := text.lines;
    text.ReplaceOrAppend(base + "/_part_x", latHere);
    ghost var s1 := text.lines;
    text.ReplaceOrAppend(base + "/_part_y", vertFt);
    ghost var s2 := text.lines;
    text.ReplaceOrAppend(base + "/_part_z", longFt);
    Wrote3(s0, s1, s2, text.lines, base + "/_part_x", latHere, base + "/_part_y", vertFt, base + "/_part_z", longFt);
    ArmWrites(p, idx, info, latHere);
  }

  /** The root vertex of the slot's `_geo_xyz`, kept in step with the arms. */
  method PatchGeoRoot(text: AcfText, ghost p: Panel, idx: nat, info: PanelInfo, latHere: real)
    requires latHere == Lateral(p, idx, info.xRoot * M2Ft)
    modifies text
    ensures text.lines == ApplyWrites(old(text.lines), SlotWrites(p, idx, info)[8..11])
  {
    var base := "_wing/" + NatToString(idx);
    var vertFt := info.yRoot * M2Ft;
    var longFt := info.zRoot25 * M2Ft;
    ghost var s0 := text.lines;
    text.ReplaceOrAppend(base + "/_geo_xyz/0,0,0", latHere);
    ghost var s1 := text.lines;
    text.ReplaceOrAppend(base + "/_geo_xyz/0,0,1", vertFt);
    ghost var s2 := text.lines;
    text.ReplaceOrAppend(base + "/_geo_xyz/0,0,2", longFt);
    Wrote3(s0, s1, s2, text.lines, base + "/_geo_xyz/0,0,0", latHere, base + "/_geo_xyz/0,0,1", vertFt,
      base + "/_geo_xyz/0,0,2", longFt);
    GeoRootWrites(p, idx, info, latHere);
  }

  /** The eleven `replace_or_append` calls of one slot, with the Wing2
      lateral sign rule between the planform and the arms. */
  method PatchSlot(text: AcfText, p: Panel, idx: nat, info: PanelInfo)
    modifies text
    ensures text.lines == ApplyWrites(old(text.lines), SlotWrites(p, idx, info))
  {
    ghost var lines0 := text.lines;
    ghost var ws := SlotWrites(p, idx, info);
    PatchPlanform(text, p, idx, info);
    ghost var lines1 := text.lines;
    var latFt := info.xRoot * M2Ft;
    var latHere: real;
    if p == Wing2 {
      var latMag := AbsReal(latFt);
      if idx == 2 {
        latHere := -latMag;
      } else if idx == 3 {
        latHere := latMag;
      } else {
        latHere := latFt;
      }
    } else {
      latHere := latFt;
    }
    PatchArms(text, p, idx, info, latHere);
    ghost var lines2 := text.lines;
    PatchGeoRoot(text, p, idx, info, latHere);
    SlotRuns(ws, lines0, lines1, lines2, text.lines);
  }

  /** The slots of one panel. */
  method PatchPanel(text: AcfText, p: Panel, info: PanelInfo)
    modifies text
    ensures text.lines == ApplyWrites(old(text.lines), PanelWrites(p, WingIndices(p), info))
  {
    var indices := WingIndices(p);
    var ii := 0;
    while ii < |indices|
      invariant ii <= |indices|
      invariant text.lines == ApplyWrites(old(text.lines), PanelWrites(p, indices[..ii], info))
    {
      PatchSlot(text, p, indices[ii], info);
      assert indices[..ii + 1][..ii] == indices[..ii];
      ApplyAppend(old(text.lines), PanelWrites(p, indices[..ii], info), SlotWrites(p, indices[ii], info));
      ii := ii + 1;
    }
    assert indices[..ii] == indices;
  }

  /** patch_acf's loop over the mapping, on the lines of the file. */
  method PatchAcf(text: AcfText, info: Panel -> PanelInfo)
    modifies text
    ensures text.lines == PatchedLines(old(text.lines), info)
  {
    var pi := 0;
    while pi < |Mapping|
      invariant pi <= |Mapping|
      invariant text.lines == ApplyWrites(old(text.lines), PatchWrites(Mapping[..pi], info))
    {
      var p := Mapping[pi];
      PatchPanel(text, p, info(p));
      assert Mapping[..pi + 1][..pi] == Mapping[..pi];
      ApplyAppend(old(text.lines), PatchWrites(Mapping[..pi], info), PanelWrites(p, WingIndices(p), info(p)));
      pi := pi + 1;
    }
    assert Mapping[..pi] == Mapping;
  }
}
