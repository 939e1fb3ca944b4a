/** The launcher's pre-scan of an OBJ file: count the `v` lines under each
    named `g`/`o` header and sort the groups, by case-folded name, into
    bodies (10 vertices or more), wings (8 or fewer) and the ambiguous rest. */
module GroupScan {
  import opened Wrappers
  import opened Text
  import opened Seqs
  import opened Sorting
  import opened ObjGroups

  /** A `(name, vertex_count)` pair of the result lists. */
  datatype GroupCount = GroupCount(name: string, count: nat)

  const WingMax: nat := 8
  const BodyMin: nat := 10

  /** The scan state: the defaultdict's keys in insertion order, its
      counts, and the group the next vertex belongs to. */
  datatype Tally = Tally(names: seq<string>, counts: map<string, nat>, current: Option<string>)

  const Start: Tally := Tally([], map[], None)

  /** `if current_name:` */
  predicate Named(cur: Option<string>) {
    cur.Some? && cur.value != []
  }

  /** A defaultdict lookup: absent keys read as 0. */
  function Get(m: map<string, nat>, n: string): nat {
    if n in m then m[n] else 0
  }

  /** `vert_counts[name]`: the key is created at 0, and listed, on first use. */
  function Touch(st: Tally, name: string): (r: Tally)
    ensures name in r.counts && Get(r.counts, name) == Get(st.counts, name)
  {
    if name in st.counts then st
    else Tally(st.names + [name], st.counts[name := 0], st.current)
  }

  /** `parts = line.split(maxsplit=1)`, then `parts[1].strip()` when there
      are two parts, `None` otherwise. */
  function HeaderName(s: string): (r: Option<string>)
    ensures r.Some? ==> r.value != []
  {
    if HeaderText(s) == [] then None else Some(HeaderText(s))
  }

  /** One line of the scan. */
  function Step(st: Tally, line: string): Tally {
    var s := Strip(line);
    if s == [] then st
    else if IsHeader(s) then
      var cur := HeaderName(s);
      var t := if Named(cur) then Touch(st, cur.value) else st;
      t.(current := cur)
    else if StartsWith(s, "v ") && Named(st.current) then
      var c := st.current.value;
      var t := Touch(st, c);
      t.(counts := t.counts[c := t.counts[c] + 1])
    else st
  }

  function ScanTally(lines: seq<string>): Tally {
    if |lines| == 0 then Start
    else Step(ScanTally(lines[..|lines| - 1]), lines[|lines| - 1])
  }

  // ------------------------------------------------- reference definitions

  /** `line` is a `g`/`o` header naming the group `n`. */
  predicate Heads(line: string, n: string) {
    IsHeader(Strip(line)) && HeaderName(Strip(line)) == Some(n)
  }

  /** `line` is a vertex line (a header takes precedence). */
  predicate VertexLine(line: string) {
    var s := Strip(line);
    !IsHeader(s) && StartsWith(s, "v ")
  }

  /** The name of the most recent header among `lines`, if it has one. */
  function LastHeader(lines: seq<string>): (r: Option<string>)
    ensures r.Some? ==> r.value != []
  {
    if |lines| == 0 then None
    else if IsHeader(Strip(lines[|lines| - 1])) then HeaderName(Strip(lines[|lines| - 1]))
    else LastHeader(lines[..|lines| - 1])
  }

  /** Some header among `lines` names `n`. */
  predicate HeaderSeen(lines: seq<string>, n: string) {
    |lines| > 0 && (HeaderSeen(lines[..|lines| - 1], n) || Heads(lines[|lines| - 1], n))
  }

  /** The vertex lines whose most recent header names `n`. */
  function VerticesUnder(lines: seq<string>, n: string): nat {
    if |lines| == 0 then 0
    else
      var init := lines[..|lines| - 1];
      VerticesUnder(init, n)
        + (if VertexLine(lines[|lines| - 1]) && LastHeader(init) == Some(n) then 1 else 0)
  }

  /** What the scan state says about the lines read so far. */
  ghost predicate Describes(st: Tally, lines: seq<string>) {
    && Distinct(st.names)
    && (forall n :: n in st.counts <==> n in st.names)
    && (forall n :: n in st.names <==> HeaderSeen(lines, n))
    && st.current == LastHeader(lines)
    && (forall n :: Get(st.counts, n) == VerticesUnder(lines, n))
  }

  // ------------------------------------------------------------ the scan

  /** The name a stripped header line yields is never empty, so the
      `current_name = None` branch is unreachable. */
  lemma HeaderAlwaysNamed(line: string)
    requires IsHeader(Strip(line))
    ensures HeaderName(Strip(line)).Some?
  {
    var s := Strip(line);
    assert |s| >= 2 && s[..2] in {"g ", "o "};
    assert !IsSpace(s[|s| - 1]);
    var t := s[1..];
    var l := LStrip(t);
    assert l != [];
    LStripSuffix(t);
    assert l[|l| - 1] == t[|t| - 1];
    assert RStrip(l) == l;
  }

  /** `HeaderSeen` holds exactly when some line is a header naming `n`. */
  lemma HeaderSeenAt(lines: seq<string>, n: string)
    ensures HeaderSeen(lines, n) <==> exists k :: 0 <= k < |lines| && Heads(lines[k], n)
  {
    if HeaderSeen(lines, n) {
      SeenSomewhere(lines, n);
    }
    if exists k :: 0 <= k < |lines| && Heads(lines[k], n) {
      var k :| 0 <= k < |lines| && Heads(lines[k], n);
      SeenFrom(lines, n, k);
    }
  }

  lemma {:induction false} SeenSomewhere(lines: seq<string>, n: string)
    requires HeaderSeen(lines, n)
    ensures exists k :: 0 <= k < |lines| && Heads(lines[k], n)
  {
    var init := lines[..|lines| - 1];
    if HeaderSeen(init, n) {
      SeenSomewhere(init, n);
      var k :| 0 <= k < |init| && Heads(init[k], n);
      assert lines[k] == init[k];
    } else {
      assert Heads(lines[|lines| - 1], n);
    }
  }

  lemma {:induction false} SeenFrom(lines: seq<string>, n: string, k: nat)
    requires k < |lines| && Heads(lines[k], n)
    ensures HeaderSeen(lines, n)
  {
    var init := lines[..|lines| - 1];
    if k < |init| {
      assert init[k] == lines[k];
      SeenFrom(init, n, k);
    }
  }

  lemma {:induction false} LastHeaderSeen(lines: seq<string>)
    ensures LastHeader(lines).Some? ==> HeaderSeen(lines, LastHeader(lines).value)
  {
    if |lines| > 0 && !IsHeader(Strip(lines[|lines| - 1])) {
      LastHeaderSeen(lines[..|lines| - 1]);
    }
  }

  lemma HeaderSeenSnoc(init: seq<string>, line: string, n: string)
    ensures HeaderSeen(init + [line], n) <==> HeaderSeen(init, n) || Heads(line, n)
  {
    var lines := init + [line];
    assert lines[..|lines| - 1] == init;
  }

  lemma TouchDescribes(st: Tally, name: string)
    requires Distinct(st.names) && (forall n :: n in st.counts <==> n in st.names)
    ensures var t := Touch(st, name);
      && Distinct(t.names)
      && (forall n :: n in t.counts <==> n in st.names || n == name)
      && (forall n :: n in t.names <==> n in st.names || n == name)
      && (forall n :: Get(t.counts, n) == Get(st.counts, n))
  {
    if name !in st.counts {
      DistinctSnoc(st.names, name);
    }
  }

  /** A blank line, or one that is neither a header nor a vertex line,
      changes nothing. */
  lemma StepSkips(st: Tally, init: seq<string>, line: string)
    requires Describes(st, init)
    requires !IsHeader(Strip(line)) && !(StartsWith(Strip(line), "v ") && Named(st.current))
    ensures Describes(Step(st, line), init + [line])
  {
    var lines := init + [line];
    assert lines[..|lines| - 1] == init && lines[|lines| - 1] == line;
    assert Step(st, line) == st;
    forall n ensures HeaderSeen(lines, n) <==> HeaderSeen(init, n) {
      HeaderSeenSnoc(init, line, n);
    }
    assert LastHeader(lines) == LastHeader(init);
    forall n ensures VerticesUnder(lines, n) == VerticesUnder(init, n) {
      assert VertexLine(line) ==> LastHeader(init) != Some(n);
    }
  }

  /** A header makes its group current and lists it. */
  lemma StepHeader(st: Tally, init: seq<string>, line: string)
    requires Describes(st, init)
    requires IsHeader(Strip(line))
    ensures Describes(Step(st, line), init + [line])
  {
    var lines := init + [line];
    assert lines[..|lines| - 1] == init && lines[|lines| - 1] == line;
    var s := Strip(line);
    assert s != [];
    var cur := HeaderName(s);
    assert !VertexLine(line);
    forall n ensures HeaderSeen(lines, n) <==> HeaderSeen(init, n) || cur == Some(n) {
      HeaderSeenSnoc(init, line, n);
    }
    assert LastHeader(lines) == cur;
    forall n ensures VerticesUnder(lines, n) == VerticesUnder(init, n) {
    }
    if Named(cur) {
      TouchDescribes(st, cur.value);
    }
  }

  /** A vertex line adds one to the current group. */
  lemma StepVertex(st: Tally, init: seq<string>, line: string)
    requires Describes(st, init)
    requires !IsHeader(Strip(line)) && StartsWith(Strip(line), "v ") && Named(st.current)
    ensures Describes(Step(st, line), init + [line])
  {
    var c := st.current.value;
    LastHeaderSeen(init);
    assert c in st.counts;
    VertexState(st, line);
    VertexSeen(init, line);
    VertexCounts(init, line, c);
    Bumped(st, init, init + [line], c);
  }

  lemma Bumped(st: Tally, init: seq<string>, lines: seq<string>, c: string)
    requires Describes(st, init) && st.current == Some(c) && c in st.counts
    requires forall n :: HeaderSeen(lines, n) <==> HeaderSeen(init, n)
    requires LastHeader(lines) == Some(c)
    requires forall n :: VerticesUnder(lines, n) == VerticesUnder(init, n) + if n == c then 1 else 0
    ensures Describes(st.(counts := st.counts[c := st.counts[c] + 1]), lines)
  {
    var st' := st.(counts := st.counts[c := st.counts[c] + 1]);
    assert forall n :: n in st'.counts <==> n in st.counts;
    forall n ensures Get(st'.counts, n) == VerticesUnder(lines, n) {
      assert Get(st'.counts, n) == Get(st.counts, n) + if n == c then 1 else 0;
    }
  }

  lemma VertexSeen(init: seq<string>, line: string)
    requires !IsHeader(Strip(line))
    ensures forall n :: HeaderSeen(init + [line], n) <==> HeaderSeen(init, n)
  {
    forall n ensures HeaderSeen(init + [line], n) <==> HeaderSeen(init, n) {
      HeaderSeenSnoc(init, line, n);
    }
  }

  lemma VertexState(st: Tally, line: string)
    requires !IsHeader(Strip(line)) && StartsWith(Strip(line), "v ") && Named(st.current)
    requires st.current.value in st.counts
    ensures Step(st, line) == st.(counts := st.counts[st.current.value := st.counts[st.current.value] + 1])
  {
    assert Strip(line) != [];
  }

  lemma VertexCounts(init: seq<string>, line: string, c: string)
    requires !IsHeader(Strip(line)) && StartsWith(Strip(line), "v ") && LastHeader(init) == Some(c)
    ensures LastHeader(init + [line]) == Some(c)
    ensures forall n :: VerticesUnder(init + [line], n) == VerticesUnder(init, n) + if n == c then 1 else 0
  {
    var lines := init + [line];
    assert lines[..|lines| - 1] == init && lines[|lines| - 1] == line;
    assert VertexLine(line);
  }

  lemma StepDescribes(st: Tally, init: seq<string>, line: string)
    requires Describes(st, init)
    ensures Describes(Step(st, line), init + [line])
  {
    var s := Strip(line);
    if IsHeader(s) {
      StepHeader(st, init, line);
    } else if StartsWith(s, "v ") && Named(st.current) {
      StepVertex(st, init, line);
    } else {
      StepSkips(st, init, line);
    }
  }

  /** The scan lists every named group once, in first-mention order, and
      counts for each the vertex lines read while it was the current group. */
  lemma {:induction false} ScanDescribes(lines: seq<string>)
    ensures Describes(ScanTally(lines), lines)
  {
    if |lines| == 0 {
    } else {
      var init := lines[..|lines| - 1];
      ScanDescribes(init);
      StepDescribes(ScanTally(init), init, lines[|lines| - 1]);
      assert init + [lines[|lines| - 1]] == lines;
    }
  }

  // ------------------------------------------------------- classification

  /** `vert_counts.items()`: the pairs in key insertion order. */
  function Items(st: Tally): (r: seq<GroupCount>)
    ensures |r| == |st.names|
    ensures forall i :: 0 <= i < |r| ==> r[i] == GroupCount(st.names[i], Get(st.counts, st.names[i]))
  {
    seq(|st.names|, i requires 0 <= i < |st.names| => GroupCount(st.names[i], Get(st.counts, st.names[i])))
  }

  /** The sort key `name.lower()`, compared as Python compares strings. */
  function ByLowerName(): (GroupCount, GroupCount) -> bool {
    (a: GroupCount, b: GroupCount) => LexLe(Lower(a.name), Lower(b.name))
  }

  lemma ByLowerNamePreorder()
    ensures TotalPreorder(ByLowerName())
  {
    var le := ByLowerName();
    forall a: GroupCount, b: GroupCount ensures le(a, b) || le(b, a) {
      LexLeTotal(Lower(a.name), Lower(b.name));
    }
    forall a: GroupCount, b: GroupCount, c: GroupCount | le(a, b) && le(b, c) ensures le(a, c) {
      LexLeTransitive(Lower(a.name), Lower(b.name), Lower(c.name));
    }
  }

  predicate IsWing(g: GroupCount) {
    g.count <= WingMax
  }

  predicate IsBody(g: GroupCount) {
    !IsWing(g) && g.count >= BodyMin
  }

  predicate IsAmbiguous(g: GroupCount) {
    !IsWing(g) && !IsBody(g)
  }

  /** The sorted pairs. */
  function SortedItems(lines: seq<string>): seq<GroupCount> {
    SortBy(Items(ScanTally(lines)), ByLowerName())
  }

  /** `(bodies, wings, ambig)` */
  function Classified(lines: seq<string>): (seq<GroupCount>, seq<GroupCount>, seq<GroupCount>) {
    var sorted := SortedItems(lines);
    (Filter(sorted, IsBody), Filter(sorted, IsWing), Filter(sorted, IsAmbiguous))
  }

  /** A filter of a sorted sequence is sorted. */
  lemma {:induction false} FilterSorted<T>(s: seq<T>, p: T -> bool, le: (T, T) -> bool)
    requires Sorted(s, le)
    ensures Sorted(Filter(s, p), le)
    decreases |s|
  {
    if |s| > 0 {
      var init := s[..|s| - 1];
      var x := s[|s| - 1];
      assert Sorted(init, le);
      FilterSorted(init, p, le);
      var f := Filter(init, p);
      forall y | y in f ensures le(y, x) {
        var i :| 0 <= i < |init| && init[i] == y;
      }
    }
  }

  /** What the last element adds to a filter's multiset. */
  lemma FilterSnocMultiset<T>(s: seq<T>, p: T -> bool)
    requires |s| > 0
    ensures multiset(Filter(s, p))
      == multiset(Filter(s[..|s| - 1], p)) + if p(s[|s| - 1]) then multiset{s[|s| - 1]} else multiset{}
  {
  }

  /** A filter keeps every copy of an element it accepts and none of one it
      rejects. */
  lemma {:induction false} FilterCount<T>(s: seq<T>, p: T -> bool, y: T)
    ensures multiset(Filter(s, p))[y] == if p(y) then multiset(s)[y] else 0
    decreases |s|
  {
    if |s| > 0 {
      var init := s[..|s| - 1];
      assert s == init + [s[|s| - 1]];
      FilterCount(init, p, y);
      FilterSnocMultiset(s, p);
    }
  }

  /** Three filters whose predicates split every element exactly once
      split the multiset. */
  lemma FilterSplit3<T>(s: seq<T>, p: T -> bool, q: T -> bool, r: T -> bool)
    requires forall x :: if p(x) then !q(x) && !r(x) else q(x) != r(x)
    ensures multiset(Filter(s, p)) + multiset(Filter(s, q)) + multiset(Filter(s, r)) == multiset(s)
  {
    var a, b, c := multiset(Filter(s, p)), multiset(Filter(s, q)), multiset(Filter(s, r));
    forall y ensures (a + b + c)[y] == multiset(s)[y] {
      FilterCount(s, p, y);
      FilterCount(s, q, y);
      FilterCount(s, r, y);
      MultisetSum(a, b, c, y);
      if p(y) {
        assert !q(y) && !r(y);
      } else if q(y) {
        assert !r(y);
      } else {
        assert r(y);
      }
    }
    MultisetExt(a + b + c, multiset(s));
  }

  lemma MultisetSum<T>(a: multiset<T>, b: multiset<T>, c: multiset<T>, y: T)
    ensures (a + b + c)[y] == a[y] + b[y] + c[y]
  {
  }

  /** Every scanned group lands in exactly one of the three lists, chosen by
      its count, and each list is ordered by case-folded name. */
  lemma ClassifiedPartition(lines: seq<string>)
    ensures var items := Items(ScanTally(lines));
      var cl := Classified(lines);
      && multiset(cl.0) + multiset(cl.1) + multiset(cl.2) == multiset(items)
      && (forall g :: g in cl.0 <==> g in items && g.count >= BodyMin)
      && (forall g :: g in cl.1 <==> g in items && g.count <= WingMax)
      && (forall g :: g in cl.2 <==> g in items && WingMax < g.count < BodyMin)
      && Sorted(cl.0, ByLowerName()) && Sorted(cl.1, ByLowerName()) && Sorted(cl.2, ByLowerName())
  {
    var items := Items(ScanTally(lines));
    var sorted := SortedItems(lines);
    ByLowerNamePreorder();
    SortByCorrect(items, ByLowerName());
    assert forall g :: g in sorted <==> g in items by {
      forall g ensures g in sorted <==> g in items {
        assert g in sorted <==> g in multiset(sorted);
        assert g in items <==> g in multiset(items);
      }
    }
    FilterSplit3(sorted, IsBody, IsWing, IsAmbiguous);
    FilterSorted(sorted, IsBody, ByLowerName());
    FilterSorted(sorted, IsWing, ByLowerName());
    FilterSorted(sorted, IsAmbiguous, ByLowerName());
  }

  /** The pairs of the scan: one for every group some header names, with
      the number of vertex lines read while that group was current. */
  lemma ItemsCounts(lines: seq<string>)
    ensures var items := Items(ScanTally(lines));
      forall g :: g in items <==> HeaderSeen(lines, g.name) && g.count == VerticesUnder(lines, g.name)
  {
    var st := ScanTally(lines);
    ScanDescribes(lines);
    forall g ensures g in Items(st) <==> HeaderSeen(lines, g.name) && g.count == VerticesUnder(lines, g.name) {
      ItemFor(st, lines, g);
    }
  }

  lemma ItemFor(st: Tally, lines: seq<string>, g: GroupCount)
    requires Describes(st, lines)
    ensures g in Items(st) <==> HeaderSeen(lines, g.name) && g.count == VerticesUnder(lines, g.name)
  {
    var items := Items(st);
    if g in items {
      var i :| 0 <= i < |items| && items[i] == g;
      assert g.name == st.names[i];
    }
    if HeaderSeen(lines, g.name) && g.count == VerticesUnder(lines, g.name) {
      var i :| 0 <= i < |st.names| && st.names[i] == g.name;
      assert items[i] == g;
    }
  }

  /** The three lists hold, between them, exactly those pairs. */
  lemma ClassifiedCounts(lines: seq<string>)
    ensures var cl := Classified(lines);
      forall g :: (g in cl.0 || g in cl.1 || g in cl.2)
        <==> HeaderSeen(lines, g.name) && g.count == VerticesUnder(lines, g.name)
  {
    ItemsCounts(lines);
    ClassifiedPartition(lines);
  }

  /** A group named twice is listed once. */
  lemma ItemsDistinctNames(lines: seq<string>)
    ensures var items := Items(ScanTally(lines));
      forall i, j :: 0 <= i < j < |items| ==> items[i].name != items[j].name
  {
    ScanDescribes(lines);
  }

  /** Before the first header no group is current, so `v` lines count
      for nothing: a file without a header leaves the scan where it began. */
  lemma {:induction false} NoHeaderStart(lines: seq<string>)
    requires forall k :: 0 <= k < |lines| ==> !IsHeader(Strip(lines[k]))
    ensures ScanTally(lines) == Start
  {
    if |lines| > 0 {
      NoHeaderStart(lines[..|lines| - 1]);
    }
  }

  /** A file without a header yields three empty lists. */
  lemma NoHeaderNoGroups(lines: seq<string>)
    requires forall k :: 0 <= k < |lines| ==> !IsHeader(Strip(lines[k]))
    ensures Classified(lines) == ([], [], [])
  {
    NoHeaderStart(lines);
    assert SortedItems(lines) == [];
  }

  /** `_ = vert_counts[current_name]`: a header with no vertex under it is
      still listed, with count 0, among the wings. */
  lemma EmptyGroupIsWing(lines: seq<string>, k: nat, n: string)
    requires k < |lines| && Heads(lines[k], n) && VerticesUnder(lines, n) == 0
    ensures GroupCount(n, 0) in Classified(lines).1
  {
    HeaderSeenAt(lines, n);
    ItemsCounts(lines);
    ClassifiedPartition(lines);
  }

  /** The loop over the file's lines. */
  method CountVertices(lines: seq<string>) returns (st: Tally)
    ensures st == ScanTally(lines)
  {
    var names: seq<string> := [];
    var counts: map<string, nat> := map[];
    var current: Option<string> := None;
    var k := 0;
    while k < |lines|
      invariant k <= |lines|
      invariant Tally(names, counts, current) == ScanTally(lines[..k])
    {
      assert lines[..k + 1][..k] == lines[..k];
      assert ScanTally(lines[..k + 1]) == Step(Tally(names, counts, current), lines[k]);
      var s := Strip(lines[k]);
      if s != [] {
        if IsHeader(s) {
          current := HeaderName(s);
          if Named(current) && current.value !in counts {
            names := names + [current.value];
            counts := counts[current.value := 0];
          }
        } else if StartsWith(s, "v ") && Named(current) {
          var c := current.value;
          if c !in counts {
            names := names + [c];
            counts := counts[c := 0];
          }
          counts := counts[c := counts[c] + 1];
        }
      }
      k := k + 1;
    }
    assert lines[..k] == lines;
    st := Tally(names, counts, current);
  }

  lemma FilterSnoc<T>(s: seq<T>, i: nat, p: T -> bool)
    requires i < |s|
    ensures Filter(s[..i + 1], p) == Filter(s[..i], p) + if p(s[i]) then [s[i]] else []
  {
    assert s[..i + 1][..i] == s[..i];
  }

  /** The loop appending each sorted pair to the list its count selects. */
  method SplitByCount(sorted: seq<GroupCount>)
    returns (bodies: seq<GroupCount>, wings: seq<GroupCount>, ambig: seq<GroupCount>)
    ensures bodies == Filter(sorted, IsBody)
    ensures wings == Filter(sorted, IsWing)
    ensures ambig == Filter(sorted, IsAmbiguous)
  {
    bodies, wings, ambig := [], [], [];
    var i := 0;
    while i < |sorted|
      invariant i <= |sorted|
      invariant bodies == Filter(sorted[..i], IsBody)
      invariant wings == Filter(sorted[..i], IsWing)
      invariant ambig == Filter(sorted[..i], IsAmbiguous)
    {
      var g := sorted[i];
      FilterSnoc(sorted, i, IsBody);
      FilterSnoc(sorted, i, IsWing);
      FilterSnoc(sorted, i, IsAmbiguous);
      if g.count <= WingMax {
        assert IsWing(g) && !IsBody(g) && !IsAmbiguous(g);
        wings := wings + [g];
      } else if g.count >= BodyMin {
        assert !IsWing(g) && IsBody(g) && !IsAmbiguous(g);
        bodies := bodies + [g];
      } else {
        assert !IsWing(g) && !IsBody(g) && IsAmbiguous(g);
        ambig := ambig + [g];
      }
      i := i + 1;
    }
    assert sorted[..i] == sorted;
  }

  /** The whole pre-scan. */
  method ScanObjGroupsByVertexCount(lines: seq<string>)
    returns (bodies: seq<GroupCount>, wings: seq<GroupCount>, ambig: seq<GroupCount>)
    ensures bodies == Classified(lines).0
    ensures wings == Classified(lines).1
    ensures ambig == Classified(lines).2
  {
    var st := CountVertices(lines);
    var sorted := SortBy(Items(st), ByLowerName());
    bodies, wings, ambig := SplitByCount(sorted);
  }
}
