/** make_ref_body_split: the `_geo_xyz` values of one body of a reference
    .acf file tabulated by station, ring slot and axis, and printed station
    by station in the "split" QC format. Reading the file, writing the
    output file and the console message are left out; the model takes the
    lines of the file and returns the lines of the output. */
module RefBodies {
  import opened Wrappers
  import opened Text
  import opened NumText
  import opened Seqs
  import opened GeoLine

  const DefaultPointsPerRing: int := 18

  /** One stored value: station `i`, ring slot `j`, axis `k`. */
  datatype Entry = Entry(i: nat, j: nat, k: nat, value: real)

  /** What one line contributes: the stripped line matches
      `^P _body/(\d+)/_geo_xyz/(\d+),(\d+),(\d+)\s+(-?\d+\.\d+)$` and its
      body index is `b`. */
  function EntryOf(line: string, b: nat): Option<Entry> {
    match ParseNumbered(Strip(line))
    case Some((n, e)) => if n == b then Some(Entry(e.i, e.j, e.k, e.value)) else None
    case None => None
  }

  /** The entries of body `b`, in file order. */
  function Entries(lines: seq<string>, b: nat): seq<Entry> {
    if |lines| == 0 then []
    else
      var init := Entries(lines[..|lines| - 1], b);
      match EntryOf(lines[|lines| - 1], b)
      case Some(e) => init + [e]
      case None => init
  }

  /** `body_data[i]`: its ring slots in the order they were first stored
      (the key order of the inner dict) and the stored values by (j, k). */
  datatype Station = Station(slots: seq<nat>, comps: map<(nat, nat), real>)

  /** `body_data`: its station keys in insertion order and their data. */
  datatype Table = Table(keys: seq<nat>, stations: map<nat, Station>)

  ghost predicate KeysAgree(t: Table) {
    forall i :: i in t.stations <==> i in t.keys
  }

  /** `body_data[i][j][k] = val`, the defaultdicts creating what is missing. */
  function Store(t: Table, e: Entry): Table {
    var st := if e.i in t.stations then t.stations[e.i] else Station([], map[]);
    var keys := if e.i in t.stations then t.keys else t.keys + [e.i];
    var slots := if e.j in st.slots then st.slots else st.slots + [e.j];
    Table(keys, t.stations[e.i := Station(slots, st.comps[(e.j, e.k) := e.value])])
  }

  /** The table after storing the entries in order. */
  function Tabulate(es: seq<Entry>): (t: Table)
    ensures KeysAgree(t)
  {
    if |es| == 0 then Table([], map[]) else Store(Tabulate(es[..|es| - 1]), es[|es| - 1])
  }

  // Reference definitions over the entries alone.

  function At(i: nat, j: nat, k: nat): Entry -> bool {
    (e: Entry) => e.i == i && e.j == j && e.k == k
  }

  /** The value of the last entry for (i, j, k), if there is one. */
  function LastValue(es: seq<Entry>, i: nat, j: nat, k: nat): Option<real> {
    match LastWhere(es, At(i, j, k))
    case Some(n) => Some(es[n].value)
    case None => None
  }

  /** The station of each entry, in file order. */
  function StationsOf(es: seq<Entry>): seq<nat> {
    if |es| == 0 then [] else StationsOf(es[..|es| - 1]) + [es[|es| - 1].i]
  }

  /** The ring slot of each entry of station `i`, in file order. */
  function SlotsOf(es: seq<Entry>, i: nat): seq<nat> {
    if |es| == 0 then []
    else
      var init := SlotsOf(es[..|es| - 1], i);
      if es[|es| - 1].i == i then init + [es[|es| - 1].j] else init
  }

  /** What the table holds at (i, j, k). */
  function Stored(t: Table, i: nat, j: nat, k: nat): Option<real> {
    if i in t.stations && (j, k) in t.stations[i].comps then Some(t.stations[i].comps[(j, k)]) else None
  }

  lemma StoreStored(t: Table, e: Entry, i: nat, j: nat, k: nat)
    ensures Stored(Store(t, e), i, j, k)
      == if e.i == i && e.j == j && e.k == k then Some(e.value) else Stored(t, i, j, k)
  {
  }

  /** The table holds, at each (i, j, k), the value of the last entry for
      it: a repeated (i, j, k) keeps the last value, and nothing else is
      stored. */
  lemma {:induction false} TabulateStored(es: seq<Entry>, i: nat, j: nat, k: nat)
    ensures Stored(Tabulate(es), i, j, k) == LastValue(es, i, j, k)
    decreases |es|
  {
    if |es| > 0 {
      var init := es[..|es| - 1];
      TabulateStored(init, i, j, k);
      StoreStored(Tabulate(init), es[|es| - 1], i, j, k);
      assert es[..|es|] == es;
      WhereSnoc(es, At(i, j, k), |es| - 1);
    }
  }

  /** The station keys are the stations of the entries in order of first
      appearance, and each station's slots are its ring slots in order of
      first appearance. */
  lemma {:induction false} TabulateOrder(es: seq<Entry>)
    ensures Tabulate(es).keys == FirstSeen(StationsOf(es))
    ensures forall i :: i in Tabulate(es).stations ==> Tabulate(es).stations[i].slots == FirstSeen(SlotsOf(es, i))
    decreases |es|
  {
    if |es| > 0 {
      var init, e := es[..|es| - 1], es[|es| - 1];
      TabulateOrder(init);
      var t := Tabulate(init);
      FirstSeenMembers(StationsOf(init));
      FirstSeenSnoc(StationsOf(init), e.i);
      forall i | i in Tabulate(es).stations
        ensures Tabulate(es).stations[i].slots == FirstSeen(SlotsOf(es, i))
      {
        if i == e.i {
          if i in t.stations {
            FirstSeenSnoc(SlotsOf(init, i), e.j);
          } else {
            NoSlotsUnseen(init, i);
            FirstSeenSnoc(SlotsOf(init, i), e.j);
          }
        }
      }
    }
  }

  /** A station that no entry names has no slots. */
  lemma {:induction false} NoSlotsUnseen(es: seq<Entry>, i: nat)
    requires i !in Tabulate(es).stations
    ensures SlotsOf(es, i) == []
    decreases |es|
  {
    if |es| > 0 {
      NoSlotsUnseen(es[..|es| - 1], i);
    }
  }

  /** The table is empty exactly when there are no entries. */
  lemma TabulateEmpty(es: seq<Entry>)
    ensures |Tabulate(es).keys| == 0 <==> |es| == 0
  {
    if |es| > 0 {
      var t := Tabulate(es[..|es| - 1]);
      assert es[|es| - 1].i in Tabulate(es).stations;
    }
  }

  // The output.

  /** `comp.get(k, 0.0)` of `body_data[i].get(j, {})` */
  function Or0(st: Station, j: nat, k: nat): real {
    if (j, k) in st.comps then st.comps[(j, k)] else 0.0
  }

  function HasZ(st: Station): nat -> bool {
    j => (j, 2) in st.comps
  }

  /** z_val: the k = 2 value of the first ring slot, in storing order, that
      has one; 0.0 when none has. */
  function HeaderZ(st: Station): real {
    match FirstWhere(st.slots, HasZ(st))
    case Some(a) => st.comps[(st.slots[a], 2)]
    case None => 0.0
  }

  /** `f"body/{b} ('REF_body_{b}'), station i={i}, z={z:.9f}"` */
  function HeaderLine(b: nat, i: nat, z: real): string {
    "body/" + NatToString(b) + " ('REF_body_" + NatToString(b) + "'), station i=" + NatToString(i) + ", z=" + Fixed9(z)
  }

  /** `f"  j={j:2d}:  x={x:.9f}  y={y:.9f}  z={z:.9f}"` */
  function SlotLine(j: nat, x: real, y: real, z: real): string {
    "  j=" + Pad2(NatToString(j)) + ":  x=" + Fixed9(x) + "  y=" + Fixed9(y) + "  z=" + Fixed9(z)
  }

  function SlotRow(st: Station): nat -> string {
    (j: nat) => SlotLine(j, Or0(st, j, 0), Or0(st, j, 1), Or0(st, j, 2))
  }

  /** The lines of one station: its header, one line per ring slot, a blank. */
  function StationLines(b: nat, i: nat, st: Station, n: nat): seq<string> {
    [HeaderLine(b, i, HeaderZ(st))] + Tab(n, SlotRow(st)) + [""]
  }

  /** `sorted(body_data.keys())` */
  function SortedStations(keys: seq<nat>): (r: seq<nat>)
    ensures StrictlyIncreasing(r)
    ensures forall x :: x in r <==> x in keys
  {
    var s := SortedDistinct(keys);
    assert forall x :: 0 <= x < |s| ==> s[x] in keys;
    s
  }

  /** The blocks of the stations in ascending order. */
  function StationBlocks(t: Table, b: nat, n: nat): seq<seq<string>>
    requires KeysAgree(t)
  {
    var order := SortedStations(t.keys);
    seq(|order|, x requires 0 <= x < |order| => StationLines(b, order[x], t.stations[order[x]], n))
  }

  /** What make_ref_body_split writes for body `b`, or the ValueError it
      raises when the file holds no value of that body. */
  function RefBodySplit(lines: seq<string>, b: nat, pointsPerRing: int): Result<seq<string>> {
    var t := Tabulate(Entries(lines, b));
    if |t.keys| == 0 then Err(ValueError("No _geo_xyz data found for the body"))
    else Ok(Flatten(StationBlocks(t, b, if pointsPerRing < 0 then 0 else pointsPerRing)))
  }

  // Properties of the output.

  /** No value of the body is exactly the error case. */
  lemma ErrorIffNoEntries(lines: seq<string>, b: nat, pointsPerRing: int)
    ensures RefBodySplit(lines, b, pointsPerRing).Err? <==> |Entries(lines, b)| == 0
  {
    TabulateEmpty(Entries(lines, b));
  }

  /** A station's block: the header line first, then slot lines
      `j = 0 .. n - 1` with missing components read as 0.0, then a blank. */
  lemma StationLinesShape(b: nat, i: nat, st: Station, n: nat)
    ensures |StationLines(b, i, st, n)| == n + 2
    ensures StationLines(b, i, st, n)[0] == HeaderLine(b, i, HeaderZ(st))
    ensures forall j :: 0 <= j < n ==> StationLines(b, i, st, n)[j + 1] == SlotRow(st)(j)
    ensures StationLines(b, i, st, n)[n + 1] == ""
  {
    TabAt(n, SlotRow(st));
  }

  /** The output is one block of `n + 2` lines per station, the stations
      ascending and exactly those that hold a value of the body. */
  lemma OutputShape(lines: seq<string>, b: nat, pointsPerRing: int)
    requires RefBodySplit(lines, b, pointsPerRing).Ok?
    ensures var t := Tabulate(Entries(lines, b));
            var order := SortedStations(t.keys);
            var n := if pointsPerRing < 0 then 0 else pointsPerRing;
            && StrictlyIncreasing(order)
            && (forall i :: i in order <==> exists e :: e in Entries(lines, b) && e.i == i)
            && |RefBodySplit(lines, b, pointsPerRing).value| == |order| * (n + 2)
  {
    var es := Entries(lines, b);
    var t := Tabulate(es);
    var n := if pointsPerRing < 0 then 0 else pointsPerRing;
    var bs := StationBlocks(t, b, n);
    forall x | 0 <= x < |bs|
      ensures |bs[x]| == n + 2
    {
      var order := SortedStations(t.keys);
      StationLinesShape(b, order[x], t.stations[order[x]], n);
    }
    FlattenUniform(bs, n + 2);
    TabulateOrder(es);
    FirstSeenMembers(StationsOf(es));
    StationsOfMembers(es);
  }

  lemma {:induction false} StationsOfMembers(es: seq<Entry>)
    ensures forall i :: i in StationsOf(es) <==> exists e :: e in es && e.i == i
    decreases |es|
  {
    if |es| > 0 {
      var init := es[..|es| - 1];
      StationsOfMembers(init);
      assert es == init + [es[|es| - 1]];
    }
  }

  /** Each slot line reads the last value stored for it, or 0.0. */
  lemma SlotValues(es: seq<Entry>, i: nat, j: nat, k: nat)
    requires i in Tabulate(es).stations
    ensures Or0(Tabulate(es).stations[i], j, k)
      == match LastValue(es, i, j, k) case Some(v) => v case None => 0.0
  {
    TabulateStored(es, i, j, k);
  }

  // The method.

  /** One `body_data[i][j][k] = val`, with the defaultdicts creating the
      station and slot dicts that are missing. */
  method StoreEntry(keys: seq<nat>, data: map<nat, Station>, e: Entry) returns (keys': seq<nat>, data': map<nat, Station>)
    ensures Table(keys', data') == Store(Table(keys, data), e)
  {
    keys', data' := keys, data;
    if e.i !in data' {
      keys' := keys' + [e.i];
      data' := data'[e.i := Station([], map[])];
    }
    var st := data'[e.i];
    var slots := if e.j in st.slots then st.slots else st.slots + [e.j];
    data' := data'[e.i := Station(slots, st.comps[(e.j, e.k) := e.value])];
  }

  lemma EntriesSnoc(lines: seq<string>, n: nat, b: nat)
    requires n < |lines|
    ensures Entries(lines[..n + 1], b)
      == match EntryOf(lines[n], b) case Some(e) => Entries(lines[..n], b) + [e] case None => Entries(lines[..n], b)
  {
    assert lines[..n + 1][..n] == lines[..n];
  }

  /** The line loop: `body_data` after reading every line. */
  method CollectBody(lines: seq<string>, b: nat) returns (keys: seq<nat>, data: map<nat, Station>)
    ensures Table(keys, data) == Tabulate(Entries(lines, b))
  {
    keys, data := [], map[];
    var n := 0;
    while n < |lines|
      invariant n <= |lines|
      invariant Table(keys, data) == Tabulate(Entries(lines[..n], b))
    {
      EntriesSnoc(lines, n, b);
      var m := EntryOf(lines[n], b);
      if m.Some? {
        keys, data := StoreEntry(keys, data, m.value);
      }
      n := n + 1;
    }
    assert lines[..n] == lines;
  }

  /** The z_val search over the station's slot dicts. */
  method StationZ(st: Station) returns (z: real)
    ensures z == HeaderZ(st)
  {
    var found: Option<real> := None;
    var a := 0;
    while a < |st.slots|
      invariant a <= |st.slots|
      invariant forall c :: 0 <= c < a ==> !HasZ(st)(st.slots[c])
    {
      if (st.slots[a], 2) in st.comps {
        FirstWhereIs(st.slots, HasZ(st), a);
        found := Some(st.comps[(st.slots[a], 2)]);
        break;
      }
      a := a + 1;
    }
    z := if found.None? then 0.0 else found.value;
  }

  /** One station's lines. */
  method EmitStation(b: nat, i: nat, st: Station, n: nat) returns (block: seq<string>)
    ensures block == StationLines(b, i, st, n)
  {
    var zVal := StationZ(st);
    block := [HeaderLine(b, i, zVal)];
    ghost var head := block;
    var j := 0;
    while j < n
      invariant j <= n
      invariant block == head + Tab(j, SlotRow(st))
    {
      var x := Or0(st, j, 0);
      var y := Or0(st, j, 1);
      var z := Or0(st, j, 2);
      block := block + [SlotLine(j, x, y, z)];
      j := j + 1;
    }
    block := block + [""];
  }

  /** The output loop: the stations in ascending order, one block each. */
  method EmitStations(keys: seq<nat>, data: map<nat, Station>, b: nat, n: nat) returns (out: seq<string>)
    requires KeysAgree(Table(keys, data))
    ensures out == Flatten(StationBlocks(Table(keys, data), b, n))
  {
    var order := SortedStations(keys);
    ghost var blocks := StationBlocks(Table(keys, data), b, n);
    out := [];
    var s := 0;
    while s < |order|
      invariant s <= |order|
      invariant out == Flatten(blocks[..s])
    {
      var i := order[s];
      var block := EmitStation(b, i, data[i], n);
      FlattenPrefix(blocks, s);
      out := out + block;
      s := s + 1;
    }
    assert blocks[..s] == blocks;
  }

  /** make_ref_body_split on the lines of the file. */
  method MakeRefBodySplit(lines: seq<string>, b: nat, pointsPerRing: int) returns (r: Result<seq<string>>)
    ensures r == RefBodySplit(lines, b, pointsPerRing)
  {
    var keys, data := CollectBody(lines, b);
    if |keys| == 0 {
      return Err(ValueError("No _geo_xyz data found for the body"));
    }
    var out := EmitStations(keys, data, b, if pointsPerRing < 0 then 0 else pointsPerRing);
    r := Ok(out);
  }
}
