/** Reading Wavefront OBJ groups: the line scanner of the single-body
    importer, which gathers for every `g`/`o` group the vertices its faces
    reference, and the remapping of a group's faces onto a group-local
    vertex array used by the multi-body converter. */
module ObjGroups {
  import opened Wrappers
  import opened Text
  import opened NumText
  import opened Geometry
  import opened Seqs

  const DefaultGroup: string := "default"
  const Unnamed: string := "unnamed"

  // ------------------------------------------------------------ line kinds

  /** The text after the one-letter keyword of a stripped `g`/`o` line,
      stripped: `s.split(maxsplit=1)[1].strip()`, empty when there is none. */
  function HeaderText(s: string): string {
    if |s| == 0 then [] else Strip(s[1..])
  }

  /** The group a `g`/`o` header starts: its name, or "unnamed". */
  function GroupName(s: string): (r: string)
    ensures |r| > 0
  {
    var t := HeaderText(s);
    if t == [] then Unnamed else t
  }

  predicate IsHeader(s: string) {
    StartsWith(s, "g ") || StartsWith(s, "o ")
  }

  /** `float(parts[1]); float(parts[2]); float(parts[3])`, all or nothing. */
  function ParseVertex(parts: seq<string>, parseReal: string -> Option<real>): Option<Vec3>
    requires |parts| >= 4
  {
    match (parseReal(parts[1]), parseReal(parts[2]), parseReal(parts[3]))
    case (Some(x), Some(y), Some(z)) => Some(Vec3(x, y, z))
    case _ => None
  }

  /** The 0-based vertex a face token names when it lies among the first
      n vertices: `int(token.split("/")[0]) - 1`. */
  function TokenIndex(token: string, n: nat): (r: Option<nat>)
    ensures r.Some? ==> r.value < n
  {
    var v := BeforeSlash(token);
    if v == [] then None
    else match ParseInt(v)
      case None => None
      case Some(x) => if 0 <= x - 1 < n then Some(x - 1) else None
  }

  /** The indices the tokens of one face add to the current group, in
      token order; tokens that are empty, not integers or out of range
      add nothing. */
  function FaceRefs(tokens: seq<string>, n: nat): (r: seq<nat>)
    ensures forall x :: x in r ==> x < n
    decreases |tokens|
  {
    if |tokens| == 0 then []
    else
      var last := tokens[|tokens| - 1];
      FaceRefs(tokens[..|tokens| - 1], n) + (match TokenIndex(last, n) case Some(x) => [x] case None => [])
  }

  /** A face adds exactly the indices its tokens name. */
  lemma {:induction false} FaceRefsMembers(tokens: seq<string>, n: nat)
    ensures forall x :: x in FaceRefs(tokens, n) <==> exists t :: t in tokens && TokenIndex(t, n) == Some(x)
    decreases |tokens|
  {
    if |tokens| > 0 {
      var init := tokens[..|tokens| - 1];
      var last := tokens[|tokens| - 1];
      FaceRefsMembers(init, n);
      assert tokens == init + [last];
      assert forall t :: t in tokens <==> t in init || t == last;
    }
  }

  // ------------------------------------------------------------- the scan

  /** The scanner's state: the vertices read so far, the groups in order
      of first mention, the indices each group's faces referenced (in the
      order added; `sorted(set)` of them is what the group keeps) and the
      current group. */
  datatype Scan = Scan(verts: seq<Vec3>, names: seq<string>, refs: map<string, seq<nat>>, current: string)

  const Start: Scan := Scan([], [DefaultGroup], map[DefaultGroup := []], DefaultGroup)

  /** Every group is registered once, the current group is registered
      and every referenced index names a vertex. */
  ghost predicate ScanOk(st: Scan) {
    && Distinct(st.names)
    && (forall nm :: nm in st.refs <==> nm in st.names)
    && st.current in st.refs
    && (forall nm, x :: nm in st.refs && x in st.refs[nm] ==> x < |st.verts|)
  }

  /** `group_to_indices[name]` touched and `current_group = name` */
  function Enter(st: Scan, name: string): Scan {
    if name in st.refs then st.(current := name)
    else st.(names := st.names + [name], refs := st.refs[name := []], current := name)
  }

  /** The referenced indices added to the current group. */
  function AddRefs(st: Scan, xs: seq<nat>): Scan {
    var before := if st.current in st.refs then st.refs[st.current] else [];
    st.(refs := st.refs[st.current := before + xs])
  }

  /** One line of the file. */
  function Step(st: Scan, line: string, parseReal: string -> Option<real>): Scan {
    var s := Strip(line);
    var parts := SplitWs(s);
    if s == [] then st
    else if StartsWith(s, "v ") then
      if |parts| < 4 then st
      else match ParseVertex(parts, parseReal)
        case None => st
        case Some(p) => st.(verts := st.verts + [p])
    else if IsHeader(s) then Enter(st, GroupName(s))
    else if StartsWith(s, "f ") then
      if |st.verts| == 0 then st
      else AddRefs(st, FaceRefs(if |parts| > 0 then parts[1..] else [], |st.verts|))
    else st
  }

  /** The state after the given lines. */
  function ScanLines(lines: seq<string>, parseReal: string -> Option<real>): Scan
    decreases |lines|
  {
    if |lines| == 0 then Start
    else Step(ScanLines(lines[..|lines| - 1], parseReal), lines[|lines| - 1], parseReal)
  }

  lemma StepOk(st: Scan, line: string, parseReal: string -> Option<real>)
    requires ScanOk(st)
    ensures ScanOk(Step(st, line, parseReal))
  {
    var s := Strip(line);
    var parts := SplitWs(s);
    if s == [] {
    } else if StartsWith(s, "v ") {
      if |parts| >= 4 && ParseVertex(parts, parseReal).Some? {
        VertexOk(st, ParseVertex(parts, parseReal).value);
      }
    } else if IsHeader(s) {
      EnterOk(st, GroupName(s));
    } else if StartsWith(s, "f ") && |st.verts| > 0 {
      AddRefsOk(st, FaceRefs(if |parts| > 0 then parts[1..] else [], |st.verts|));
    }
  }

  lemma VertexOk(st: Scan, p: Vec3)
    requires ScanOk(st)
    ensures ScanOk(st.(verts := st.verts + [p]))
  {
  }

  lemma EnterOk(st: Scan, name: string)
    requires ScanOk(st)
    ensures ScanOk(Enter(st, name))
  {
    if name !in st.refs {
      assert name !in st.names;
      DistinctSnoc(st.names, name);
    }
  }

  /** A name not yet listed keeps the list duplicate-free. */
  lemma DistinctSnoc(names: seq<string>, name: string)
    requires Distinct(names) && name !in names
    ensures Distinct(names + [name])
  {
    var t := names + [name];
    forall i, j | 0 <= i < j < |t| ensures t[i] != t[j] {
      if j == |names| {
        assert t[i] == names[i];
      } else {
        assert t[i] == names[i] && t[j] == names[j];
      }
    }
  }

  lemma AddRefsOk(st: Scan, xs: seq<nat>)
    requires ScanOk(st) && forall x :: x in xs ==> x < |st.verts|
    ensures ScanOk(AddRefs(st, xs))
  {
  }

  /** The scan keeps its bookkeeping consistent on every input. */
  lemma {:induction false} ScanValid(lines: seq<string>, parseReal: string -> Option<real>)
    ensures ScanOk(ScanLines(lines, parseReal))
    decreases |lines|
  {
    if |lines| > 0 {
      ScanValid(lines[..|lines| - 1], parseReal);
      StepOk(ScanLines(lines[..|lines| - 1], parseReal), lines[|lines| - 1], parseReal);
    }
  }

  /** A face line read while vertices exist adds exactly its in-range
      integer tokens to the current group; one read before any vertex adds
      nothing. Vertices and groups are unchanged by it. */
  lemma FaceLineRefs(st: Scan, line: string, parseReal: string -> Option<real>)
    requires ScanOk(st)
    requires StartsWith(Strip(line), "f ")
    ensures var st' := Step(st, line, parseReal);
            var toks := SplitWs(Strip(line));
            && st'.verts == st.verts && st'.names == st.names && st'.current == st.current
            && (|st.verts| == 0 ==> st' == st)
            && (|st.verts| > 0 ==>
                  st'.refs == st.refs[st.current := st.refs[st.current] + FaceRefs(toks[1..], |st.verts|)])
  {
    var s := Strip(line);
    assert s[..2] == "f ";
    assert !StartsWith(s, "v ") && !IsHeader(s) by {
      assert s[..2] != "v " && s[..2] != "g " && s[..2] != "o ";
    }
    LStripNonEmpty(s);
  }

  /** A stripped non-empty string has a first word. */
  lemma LStripNonEmpty(s: string)
    requires |s| > 0 && s == Strip(s) && !IsSpace(s[0])
    ensures |SplitWs(s)| > 0
  {
    LStripNoLeadingSpace(s);
  }

  // ----------------------------------------------------------- the groups

  /** `[verts[i] for i in sorted(idxs)]`: the referenced vertices, each
      once, in ascending index order. */
  function GroupVerts(verts: seq<Vec3>, xs: seq<nat>): (r: seq<Vec3>)
    requires forall x :: x in xs ==> x < |verts|
    ensures var idx := SortedDistinct(xs);
            && |r| == |idx|
            && (forall k :: 0 <= k < |idx| ==> 0 <= idx[k] < |verts| && r[k] == verts[idx[k]])
  {
    var idx := SortedDistinct(xs);
    assert forall k :: 0 <= k < |idx| ==> idx[k] in xs;
    seq(|idx|, k requires 0 <= k < |idx| => verts[idx[k]])
  }

  /** The referenced vertices are exactly the vertices at the distinct
      referenced indices, taken in strictly increasing index order. */
  lemma GroupVertsAscending(verts: seq<Vec3>, xs: seq<nat>)
    requires forall x :: x in xs ==> x < |verts|
    ensures var idx := SortedDistinct(xs);
            && StrictlyIncreasing(idx)
            && (forall x :: x in idx <==> x in xs)
            && |GroupVerts(verts, xs)| == |idx|
            && (forall k :: 0 <= k < |idx| ==> GroupVerts(verts, xs)[k] == verts[idx[k]])
  {
  }

  /** The groups that referenced a vertex, in order of first mention. */
  function GroupsFrom(names: seq<string>, refs: map<string, seq<nat>>, verts: seq<Vec3>): seq<(string, seq<Vec3>)>
    requires forall nm, x :: nm in refs && x in refs[nm] ==> x < |verts|
    decreases |names|
  {
    if |names| == 0 then []
    else
      var nm := names[|names| - 1];
      GroupsFrom(names[..|names| - 1], refs, verts)
      + (if nm in refs && |refs[nm]| > 0 then [(nm, GroupVerts(verts, refs[nm]))] else [])
  }

  /** load_obj_groups on the lines of a file. */
  function LoadedGroups(lines: seq<string>, parseReal: string -> Option<real>): seq<(string, seq<Vec3>)> {
    var st := ScanLines(lines, parseReal);
    ScanValid(lines, parseReal);
    GroupsFrom(st.names, st.refs, st.verts)
  }

  /** GroupsFrom of names ending in nm: the earlier groups, then nm's. */
  lemma GroupsFromSnoc(names: seq<string>, refs: map<string, seq<nat>>, verts: seq<Vec3>)
    requires |names| > 0
    requires forall nm, x :: nm in refs && x in refs[nm] ==> x < |verts|
    ensures var nm := names[|names| - 1];
            var ri := GroupsFrom(names[..|names| - 1], refs, verts);
            var r := GroupsFrom(names, refs, verts);
            && (nm in refs && |refs[nm]| > 0 ==> r == ri + [(nm, GroupVerts(verts, refs[nm]))])
            && (!(nm in refs && |refs[nm]| > 0) ==> r == ri)
  {
  }

  /** Only registered groups with a reference appear, with their vertices. */
  lemma {:induction false} GroupsFromMembers(names: seq<string>, refs: map<string, seq<nat>>, verts: seq<Vec3>)
    requires forall nm, x :: nm in refs && x in refs[nm] ==> x < |verts|
    ensures var r := GroupsFrom(names, refs, verts);
            forall a :: 0 <= a < |r| ==>
              && r[a].0 in names && r[a].0 in refs && |refs[r[a].0]| > 0
              && r[a].1 == GroupVerts(verts, refs[r[a].0])
    decreases |names|
  {
    if |names| > 0 {
      var init := names[..|names| - 1];
      var nm := names[|names| - 1];
      GroupsFromMembers(init, refs, verts);
      GroupsFromSnoc(names, refs, verts);
      var ri := GroupsFrom(init, refs, verts);
      var r := GroupsFrom(names, refs, verts);
      forall a | 0 <= a < |r|
        ensures r[a].0 in names && r[a].0 in refs && |refs[r[a].0]| > 0
        ensures r[a].1 == GroupVerts(verts, refs[r[a].0])
      {
        if a < |ri| {
          assert r[a] == ri[a];
          assert ri[a].0 in init;
          var m :| 0 <= m < |init| && init[m] == ri[a].0;
          assert names[m] == init[m];
        } else {
          assert r[a].0 == nm;
        }
      }
    }
  }

  /** Every registered group with a reference appears. */
  lemma {:induction false} GroupsFromComplete(names: seq<string>, refs: map<string, seq<nat>>, verts: seq<Vec3>, nm: string)
    requires forall nm, x :: nm in refs && x in refs[nm] ==> x < |verts|
    requires nm in names && nm in refs && |refs[nm]| > 0
    ensures var r := GroupsFrom(names, refs, verts);
            exists a :: 0 <= a < |r| && r[a].0 == nm
    decreases |names|
  {
    var init := names[..|names| - 1];
    var r := GroupsFrom(names, refs, verts);
    GroupsFromSnoc(names, refs, verts);
    if names[|names| - 1] == nm {
      assert r[|r| - 1].0 == nm;
    } else {
      assert names == init + [names[|names| - 1]];
      assert nm in init;
      GroupsFromComplete(init, refs, verts, nm);
      var a :| 0 <= a < |GroupsFrom(init, refs, verts)| && GroupsFrom(init, refs, verts)[a].0 == nm;
      assert r[a].0 == nm;
    }
  }

  /** No group appears twice. */
  lemma {:induction false} GroupsFromDistinct(names: seq<string>, refs: map<string, seq<nat>>, verts: seq<Vec3>)
    requires Distinct(names)
    requires forall nm, x :: nm in refs && x in refs[nm] ==> x < |verts|
    ensures var r := GroupsFrom(names, refs, verts);
            forall a, c :: 0 <= a < c < |r| ==> r[a].0 != r[c].0
    decreases |names|
  {
    if |names| > 0 {
      var init := names[..|names| - 1];
      var nm := names[|names| - 1];
      GroupsFromDistinct(init, refs, verts);
      GroupsFromMembers(init, refs, verts);
      GroupsFromSnoc(names, refs, verts);
      assert nm !in init by {
        assert forall k :: 0 <= k < |init| ==> init[k] == names[k];
      }
      var ri := GroupsFrom(init, refs, verts);
      var r := GroupsFrom(names, refs, verts);
      forall a, c | 0 <= a < c < |r| ensures r[a].0 != r[c].0 {
        if c >= |ri| {
          assert r[a] == ri[a] && ri[a].0 in init && r[c].0 == nm;
        } else {
          assert r[a] == ri[a] && r[c] == ri[c];
        }
      }
    }
  }

  /** What load_obj_groups returns: no group twice, only groups whose
      faces referenced a vertex, and every such group, each with its
      distinct referenced vertices in ascending index order. */
  lemma LoadedGroupsShape(lines: seq<string>, parseReal: string -> Option<real>)
    ensures var st := ScanLines(lines, parseReal);
            var r := LoadedGroups(lines, parseReal);
            && (forall nm, x :: nm in st.refs && x in st.refs[nm] ==> x < |st.verts|)
            && (forall a, c :: 0 <= a < c < |r| ==> r[a].0 != r[c].0)
            && (forall a :: 0 <= a < |r| ==>
                  r[a].0 in st.refs && |st.refs[r[a].0]| > 0 && r[a].1 == GroupVerts(st.verts, st.refs[r[a].0]))
            && (forall nm :: nm in st.refs && |st.refs[nm]| > 0 ==> exists a :: 0 <= a < |r| && r[a].0 == nm)
  {
    var st := ScanLines(lines, parseReal);
    ScanValid(lines, parseReal);
    GroupsFromDistinct(st.names, st.refs, st.verts);
    GroupsFromMembers(st.names, st.refs, st.verts);
    assert LoadedGroups(lines, parseReal) == GroupsFrom(st.names, st.refs, st.verts);
    forall nm | nm in st.refs && |st.refs[nm]| > 0
      ensures exists a :: 0 <= a < |LoadedGroups(lines, parseReal)| && LoadedGroups(lines, parseReal)[a].0 == nm
    {
      GroupsFromComplete(st.names, st.refs, st.verts, nm);
    }
  }

  // ------------------------------------------------------------ the method

  /** The token loop of a face line. */
  method FaceIndices(tokens: seq<string>, n: nat) returns (xs: seq<nat>)
    ensures xs == FaceRefs(tokens, n)
  {
    xs := [];
    var k := 0;
    while k < |tokens|
      invariant k <= |tokens|
      invariant xs == FaceRefs(tokens[..k], n)
    {
      var vStr := BeforeSlash(tokens[k]);
      assert tokens[..k + 1][..k] == tokens[..k];
      if vStr != [] {
        var parsed := ParseInt(vStr);
        if parsed.Some? {
          var vidx := parsed.value - 1;
          if 0 <= vidx < n {
            xs := xs + [vidx];
          }
        }
      }
      k := k + 1;
    }
    assert tokens[..k] == tokens;
  }

  /** The body of the line loop. */
  method ScanLine(verts: seq<Vec3>, names: seq<string>, refs: map<string, seq<nat>>, current: string,
                  line: string, parseReal: string -> Option<real>)
    returns (verts': seq<Vec3>, names': seq<string>, refs': map<string, seq<nat>>, current': string)
    requires current in refs
    ensures Scan(verts', names', refs', current') == Step(Scan(verts, names, refs, current), line, parseReal)
  {
    verts', names', refs', current' := verts, names, refs, current;
    var s := Strip(line);
    var parts := SplitWs(s);
    if s == [] {
    } else if StartsWith(s, "v ") {
      if |parts| >= 4 {
        var p := ParseVertex(parts, parseReal);
        if p.Some? {
          verts' := verts + [p.value];
        }
      }
    } else if IsHeader(s) {
      current' := GroupName(s);
      if current' !in refs {
        names' := names + [current'];
        refs' := refs[current' := []];
      }
    } else if StartsWith(s, "f ") {
      if |verts| > 0 {
        var xs := FaceIndices(if |parts| > 0 then parts[1..] else [], |verts|);
        refs' := refs[current := refs[current] + xs];
      }
    }
  }

  /** load_obj_groups over the lines of the file. */
  method LoadObjGroups(lines: seq<string>, parseReal: string -> Option<real>)
    returns (groups: seq<(string, seq<Vec3>)>)
    ensures groups == LoadedGroups(lines, parseReal)
  {
    var verts: seq<Vec3> := [];
    var names: seq<string> := [DefaultGroup];
    var refs: map<string, seq<nat>> := map[DefaultGroup := []];
    var current := DefaultGroup;
    var k := 0;
    while k < |lines|
      invariant k <= |lines|
      invariant Scan(verts, names, refs, current) == ScanLines(lines[..k], parseReal)
    {
      ScanValid(lines[..k], parseReal);
      assert lines[..k + 1][..k] == lines[..k];
      verts, names, refs, current := ScanLine(verts, names, refs, current, lines[k], parseReal);
      k := k + 1;
    }
    assert lines[..k] == lines;
    ScanValid(lines, parseReal);
    groups := CollectGroups(names, refs, verts);
  }

  /** The loop over the registered groups. */
  method CollectGroups(names: seq<string>, refs: map<string, seq<nat>>, verts: seq<Vec3>)
    returns (groups: seq<(string, seq<Vec3>)>)
    requires forall nm, x :: nm in refs && x in refs[nm] ==> x < |verts|
    ensures groups == GroupsFrom(names, refs, verts)
  {
    groups := [];
    var k := 0;
    while k < |names|
      invariant k <= |names|
      invariant groups == GroupsFrom(names[..k], refs, verts)
    {
      var nm := names[k];
      assert names[..k + 1][..k] == names[..k];
      if nm in refs && |refs[nm]| > 0 {
        groups := groups + [(nm, GroupVerts(verts, refs[nm]))];
      }
      k := k + 1;
    }
    assert names[..k] == names;
  }

  // ---------------------------------------------------- group-local faces

  /** Python's `xs[g]` on a list of length n: negative indices count from
      the end; None where it raises IndexError. */
  function PyIndex(n: nat, g: int): (r: Option<nat>)
    ensures r.Some? ==> r.value < n
    ensures r.Some? <==> -(n as int) <= g < n
  {
    if 0 <= g < n then Some(g) else if -(n as int) <= g < 0 then Some(n + g) else None
  }

  /** The position of x in a sequence holding it. */
  function IndexIn(s: seq<int>, x: int): (k: nat)
    requires x in s
    ensures k < |s| && s[k] == x
    decreases |s|
  {
    if s[0] == x then 0 else 1 + IndexIn(s[1..], x)
  }

  /** `sorted(set(v for face in faces for v in face))`: every index some
      face uses, once, in increasing order, and nothing else. */
  function UsedIndices(faces: seq<seq<int>>): (used: seq<int>)
    ensures StrictlyIncreasing(used)
    ensures forall f, c :: 0 <= f < |faces| && 0 <= c < |faces[f]| ==> faces[f][c] in used
    ensures forall k :: 0 <= k < |used| ==>
              exists f, c :: 0 <= f < |faces| && 0 <= c < |faces[f]| && faces[f][c] == used[k]
  {
    FlattenHolds(faces);
    var used := SortedDistinct(Flatten(faces));
    assert forall k :: 0 <= k < |used| ==> used[k] in Flatten(faces) by {
      forall k | 0 <= k < |used| ensures used[k] in Flatten(faces) {
        assert used[k] in used;
      }
    }
    used
  }

  /** Every element of every face is an element of the flattening, and
      nothing else is. */
  lemma {:induction false} FlattenHolds<T>(faces: seq<seq<T>>)
    ensures forall f, c :: 0 <= f < |faces| && 0 <= c < |faces[f]| ==> faces[f][c] in Flatten(faces)
    ensures forall x :: x in Flatten(faces) ==> exists f, c :: 0 <= f < |faces| && 0 <= c < |faces[f]| && faces[f][c] == x
    decreases |faces|
  {
    if |faces| > 0 {
      var init := faces[..|faces| - 1];
      var last := faces[|faces| - 1];
      FlattenHolds(init);
      assert Flatten(faces) == Flatten(init) + last;
      forall f, c | 0 <= f < |faces| && 0 <= c < |faces[f]| ensures faces[f][c] in Flatten(faces) {
        if f < |init| {
          assert init[f][c] in Flatten(init);
        } else {
          assert last[c] in last;
        }
      }
      forall x | x in Flatten(faces)
        ensures exists f, c :: 0 <= f < |faces| && 0 <= c < |faces[f]| && faces[f][c] == x
      {
        if x in Flatten(init) {
          var f, c :| 0 <= f < |init| && 0 <= c < |init[f]| && init[f][c] == x;
          assert faces[f][c] == x;
        } else {
          var c :| 0 <= c < |last| && last[c] == x;
          assert faces[|faces| - 1][c] == x;
        }
      }
    }
  }

  /** The local faces: every global index replaced by its position among
      the used indices. */
  function LocalFaces(used: seq<int>, faces: seq<seq<int>>): (r: seq<seq<nat>>)
    requires forall f, c :: 0 <= f < |faces| && 0 <= c < |faces[f]| ==> faces[f][c] in used
    ensures |r| == |faces|
    ensures forall f :: 0 <= f < |faces| ==> |r[f]| == |faces[f]|
    ensures forall f, c :: 0 <= f < |faces| && 0 <= c < |faces[f]| ==> r[f][c] < |used| && used[r[f][c]] == faces[f][c]
  {
    seq(|faces|, f requires 0 <= f < |faces| =>
      seq(|faces[f]|, c requires 0 <= c < |faces[f]| => IndexIn(used, faces[f][c])))
  }

  /** Python can index the vertex list at every used index. */
  predicate AllIndexable(n: nat, used: seq<int>) {
    forall k :: 0 <= k < |used| ==> PyIndex(n, used[k]).Some?
  }

  /** `[all_verts[gv] for gv in used_sorted]` */
  function LocalVerts(allVerts: seq<Vec3>, used: seq<int>): (r: seq<Vec3>)
    requires AllIndexable(|allVerts|, used)
    ensures |r| == |used|
  {
    seq(|used|, k requires 0 <= k < |used| && AllIndexable(|allVerts|, used) => allVerts[PyIndex(|allVerts|, used[k]).value])
  }

  /** A group-local vertex array and faces indexing into it. */
  datatype LocalGroup = LocalGroup(verts: seq<Vec3>, faces: seq<seq<nat>>)

  const BadVertexIndex: Error := IndexError("list index out of range")

  /** The remap of load_all_groups_with_faces for one group. */
  function Remap(allVerts: seq<Vec3>, faces: seq<seq<int>>): Result<LocalGroup> {
    var used := UsedIndices(faces);
    if !AllIndexable(|allVerts|, used) then Err(BadVertexIndex)
    else Ok(LocalGroup(LocalVerts(allVerts, used), LocalFaces(used, faces)))
  }

  /** The remap fails exactly when a face names a vertex Python cannot
      index. */
  lemma RemapFails(allVerts: seq<Vec3>, faces: seq<seq<int>>)
    ensures Remap(allVerts, faces).Err? <==>
              exists f, c :: 0 <= f < |faces| && 0 <= c < |faces[f]| && PyIndex(|allVerts|, faces[f][c]).None?
  {
    var n := |allVerts|;
    var used := UsedIndices(faces);
    if !AllIndexable(n, used) {
      var k :| 0 <= k < |used| && PyIndex(n, used[k]).None?;
      var f, c :| 0 <= f < |faces| && 0 <= c < |faces[f]| && faces[f][c] == used[k];
    } else {
      forall f, c | 0 <= f < |faces| && 0 <= c < |faces[f]|
        ensures PyIndex(n, faces[f][c]).Some?
      {
        var k := IndexIn(used, faces[f][c]);
      }
    }
  }

  /** On success every local face has its global face's length and each
      of its local indices picks the vertex the global index picked; the
      local array holds one vertex per used index. */
  lemma RemapFaithful(allVerts: seq<Vec3>, faces: seq<seq<int>>, f: nat, c: nat)
    requires Remap(allVerts, faces).Ok?
    requires f < |faces| && c < |faces[f]|
    ensures var g := Remap(allVerts, faces).value;
            && |g.faces| == |faces| && |g.faces[f]| == |faces[f]|
            && |g.verts| == |UsedIndices(faces)|
            && g.faces[f][c] < |g.verts|
            && PyIndex(|allVerts|, faces[f][c]).Some?
            && g.verts[g.faces[f][c]] == allVerts[PyIndex(|allVerts|, faces[f][c]).value]
  {
    var used := UsedIndices(faces);
    var g := Remap(allVerts, faces).value;
    var k := g.faces[f][c];
    assert used[k] == faces[f][c];
  }

  /** The remap loops: the used indices, the global-to-local map, the
      local vertices and the local faces. */
  method RemapGroup(allVerts: seq<Vec3>, faces: seq<seq<int>>) returns (r: Result<LocalGroup>)
    ensures r == Remap(allVerts, faces)
  {
    var used := CollectUsed(faces);
    var toLocal := LocalNumbering(used);
    var local := TakeVerts(allVerts, used);
    if local.None? {
      return Err(BadVertexIndex);
    }
    var out := MapFaces(used, toLocal, faces);
    return Ok(LocalGroup(local.value, out));
  }

  /** `for face in faces_global: used_global.update(face)`, then sorted. */
  method CollectUsed(faces: seq<seq<int>>) returns (used: seq<int>)
    ensures used == UsedIndices(faces)
  {
    var all: seq<int> := [];
    var f := 0;
    while f < |faces|
      invariant f <= |faces|
      invariant all == Flatten(faces[..f])
    {
      assert faces[..f + 1][..f] == faces[..f];
      all := all + faces[f];
      f := f + 1;
    }
    assert faces[..f] == faces;
    used := SortedDistinct(all);
  }

  /** `{gv: li for li, gv in enumerate(used_sorted)}` */
  method LocalNumbering(used: seq<int>) returns (toLocal: map<int, nat>)
    requires StrictlyIncreasing(used)
    ensures forall x :: x in toLocal <==> x in used
    ensures forall k :: 0 <= k < |used| ==> used[k] in toLocal && toLocal[used[k]] == k
  {
    toLocal := map[];
    var li := 0;
    while li < |used|
      invariant li <= |used|
      invariant forall x :: x in toLocal <==> x in used[..li]
      invariant forall k :: 0 <= k < li ==> used[k] in toLocal && toLocal[used[k]] == k
    {
      assert used[..li + 1] == used[..li] + [used[li]];
      toLocal := toLocal[used[li] := li];
      li := li + 1;
    }
    assert used[..li] == used;
  }

  /** The local vertex list, None where an index raises IndexError. */
  method TakeVerts(allVerts: seq<Vec3>, used: seq<int>) returns (local: Option<seq<Vec3>>)
    ensures local.None? <==> !AllIndexable(|allVerts|, used)
    ensures local.Some? ==> local.value == LocalVerts(allVerts, used)
  {
    var vs: seq<Vec3> := [];
    while |vs| < |used|
      invariant |vs| <= |used|
      invariant forall k :: 0 <= k < |vs| ==> PyIndex(|allVerts|, used[k]).Some?
      invariant forall k :: 0 <= k < |vs| ==> vs[k] == allVerts[PyIndex(|allVerts|, used[k]).value]
    {
      var g := PyIndex(|allVerts|, used[|vs|]);
      if g.None? {
        return None;
      }
      vs := vs + [allVerts[g.value]];
    }
    return Some(vs);
  }

  /** `[[global_to_local[gv] for gv in face] for face in faces_global]` */
  method MapFaces(used: seq<int>, toLocal: map<int, nat>, faces: seq<seq<int>>) returns (out: seq<seq<nat>>)
    requires StrictlyIncreasing(used)
    requires forall x :: x in toLocal <==> x in used
    requires forall k :: 0 <= k < |used| ==> used[k] in toLocal && toLocal[used[k]] == k
    requires forall f, c :: 0 <= f < |faces| && 0 <= c < |faces[f]| ==> faces[f][c] in used
    ensures out == LocalFaces(used, faces)
  {
    out := [];
    while |out| < |faces|
      invariant |out| <= |faces|
      invariant forall f :: 0 <= f < |out| ==> out[f] == LocalFaces(used, faces)[f]
    {
      var face := faces[|out|];
      var lf: seq<nat> := [];
      while |lf| < |face|
        invariant |lf| <= |face|
        invariant forall c :: 0 <= c < |lf| ==> lf[c] == IndexIn(used, face[c])
      {
        var gv := face[|lf|];
        var k := IndexIn(used, gv);
        assert toLocal[used[k]] == k;
        lf := lf + [toLocal[gv]];
      }
      out := out + [lf];
    }
  }
}
