/** Patching the lines of an .acf file: replacing every body entry of the
    PROPERTIES block at once, replacing the entries of one body, and
    setting one `P <key> <value>` line.

    The positions these patches compute are defined generically in the
    line tests (`isBegin`, `isEnd`, `inside`, `of`), so that the proofs
    about them reason about positions only; the .acf operations
    instantiate them with the tests on the text. */
module AcfPatch {
  import opened Wrappers
  import opened Text
  import opened NumText
  import opened Seqs

  const PropertiesBegin: string := "PROPERTIES_BEGIN"
  const PropertiesEnd: string := "PROPERTIES_END"
  const AnyBody: string := "P _body/"
  const BlockError: Error := RuntimeError("Could not find valid PROPERTIES_BEGIN/END block in ACF.")

  predicate IsBegin(line: string) { Strip(line) == PropertiesBegin }
  predicate IsEnd(line: string) { Strip(line) == PropertiesEnd }

  /** A line of some body's entries, indented or not. */
  predicate IsBodyLine(line: string) { StartsWith(LStrip(line), AnyBody) }

  /** `o + d` under the option. */
  function Shift(o: Option<nat>, d: nat): Option<nat> {
    match o
    case None => None
    case Some(x) => Some(x + d)
  }

  function Not<T>(p: T -> bool): T -> bool {
    x => !p(x)
  }

  // ---------------------------------------------------------------------
  // rewrite_acf_bodies
  // ---------------------------------------------------------------------

  /** The block the marker scan settles on, as (BEGIN line, END line): the
      first END line and the last BEGIN line before it. */
  function MarkedBlock<T>(lines: seq<T>, isBegin: T -> bool, isEnd: T -> bool): (r: Option<(nat, nat)>)
    ensures r.Some? ==> r.value.0 < r.value.1 < |lines|
    ensures r.Some? ==> isEnd(lines[r.value.1]) && forall k :: 0 <= k < r.value.1 ==> !isEnd(lines[k])
    ensures r.Some? ==> isBegin(lines[r.value.0]) && forall k :: r.value.0 < k < r.value.1 ==> !isBegin(lines[k])
  {
    match FirstWhere(lines, isEnd)
    case None => None
    case Some(e) =>
      assert forall k :: 0 <= k < e ==> lines[..e][k] == lines[k];
      match LastWhere(lines[..e], isBegin)
      case None => None
      case Some(b) => if e <= b then None else Some((b, e))
  }

  /** The lines passing `inside` strictly within the block, as a half-open
      range from the first to one past the last; the empty range just
      after BEGIN when there is none. */
  function Span<T>(lines: seq<T>, b: nat, e: nat, inside: T -> bool): (r: (nat, nat))
    requires b < e <= |lines|
    ensures b < r.0 <= r.1 <= e
    ensures r.0 == r.1 ==> r.0 == b + 1
    ensures r.0 < r.1 ==> inside(lines[r.0]) && inside(lines[r.1 - 1])
    ensures forall k :: b < k < r.0 ==> !inside(lines[k])
    ensures forall k :: r.1 <= k < e ==> !inside(lines[k])
  {
    var mid := lines[b + 1..e];
    assert forall k :: 0 <= k < |mid| ==> mid[k] == lines[b + 1 + k];
    var f := FirstWhere(mid, inside);
    var l := LastWhere(mid, inside);
    if f.Some? && l.Some? then (b + 1 + f.value, b + 2 + l.value) else (b + 1, b + 1)
  }

  /** Everything before the old span, the new lines, then everything after
      the old span; nothing when there is no block. */
  function Splice<T>(lines: seq<T>, newBody: seq<T>, isBegin: T -> bool, isEnd: T -> bool, inside: T -> bool): Option<seq<T>> {
    match MarkedBlock(lines, isBegin, isEnd)
    case None => None
    case Some((b, e)) =>
      var (s, t) := Span(lines, b, e, inside);
      Some(lines[..s] + newBody + lines[t..])
  }

  /** The new .acf lines of rewrite_acf_bodies. */
  function RewriteBodies(lines: seq<string>, newBody: seq<string>): Result<seq<string>> {
    match Splice(lines, newBody, IsBegin, IsEnd, IsBodyLine)
    case None => Err(BlockError)
    case Some(r) => Ok(r)
  }

  /** The marker scan: BEGIN lines move the block start, the first END
      line stops the scan. */
  method FindPropertiesBlock(lines: seq<string>) returns (begin: Option<nat>, end: Option<nat>)
    ensures end == FirstWhere(lines, IsEnd)
    ensures end.Some? ==> begin == LastWhere(lines[..end.value], IsBegin)
  {
    begin, end := None, None;
    var idx := 0;
    while idx < |lines|
      invariant idx <= |lines|
      invariant begin == LastWhere(lines[..idx], IsBegin)
      invariant FirstWhere(lines[..idx], IsEnd).None?
    {
      WhereSnoc(lines, IsBegin, idx);
      WhereSnoc(lines, IsEnd, idx);
      if IsBegin(lines[idx]) {
        begin := Some(idx);
      } else if IsEnd(lines[idx]) {
        end := Some(idx);
        assert forall k :: 0 <= k < idx ==> lines[..idx][k] == lines[k];
        FirstWhereIs(lines, IsEnd, idx);
        return;
      }
      idx := idx + 1;
    }
    assert lines[..idx] == lines;
  }

  /** The body-line scan over the lines strictly between the markers. */
  method FindBodyLines(lines: seq<string>, b: nat, e: nat) returns (first: Option<nat>, last: Option<nat>)
    requires b < e <= |lines|
    ensures first == Shift(FirstWhere(lines[b + 1..e], IsBodyLine), b + 1)
    ensures last == Shift(LastWhere(lines[b + 1..e], IsBodyLine), b + 1)
  {
    first, last := None, None;
    var mid := lines[b + 1..e];
    var j := 0;
    while j < |mid|
      invariant j <= |mid|
      invariant first == Shift(FirstWhere(mid[..j], IsBodyLine), b + 1)
      invariant last == Shift(LastWhere(mid[..j], IsBodyLine), b + 1)
    {
      WhereSnoc(mid, IsBodyLine, j);
      var hit := IsBodyLine(mid[j]);
      assert hit == (IsBodyLine)(mid[j]);
      if hit {
        if first.None? {
          first := Some(b + 1 + j);
        }
        last := Some(b + 1 + j);
      }
      j := j + 1;
    }
    assert mid[..j] == mid;
  }

  /** The two scans determine the spliced lines. */
  lemma ScansDetermine<T>(lines: seq<T>, newBody: seq<T>, isBegin: T -> bool, isEnd: T -> bool, inside: T -> bool,
                          b: nat, e: nat, s: nat, t: nat)
    requires FirstWhere(lines, isEnd) == Some(e) && LastWhere(lines[..e], isBegin) == Some(b)
    requires var mid := lines[b + 1..e];
             var f := FirstWhere(mid, inside);
             && (f.None? ==> s == t == b + 1)
             && (f.Some? ==> s == b + 1 + f.value && t == b + 2 + LastWhere(mid, inside).value)
    ensures b < e && s <= t <= |lines|
    ensures Splice(lines, newBody, isBegin, isEnd, inside) == Some(lines[..s] + newBody + lines[t..])
  {
    assert MarkedBlock(lines, isBegin, isEnd) == Some((b, e));
    var st := Span(lines, b, e, inside);
    assert st.0 == s && st.1 == t;
  }

  /** rewrite_acf_bodies on the lines of the file. */
  method RewriteAcfBodies(lines: seq<string>, newBody: seq<string>) returns (r: Result<seq<string>>)
    ensures r == RewriteBodies(lines, newBody)
  {
    var begin, end := FindPropertiesBlock(lines);
    if begin.None? || end.None? || end.value <= begin.value {
      return Err(BlockError);
    }
    var b, e := begin.value, end.value;
    var first, last := FindBodyLines(lines, b, e);
    var s, t;
    if first.None? {
      s := b + 1;
      t := s;
    } else {
      s := first.value;
      t := last.value + 1;
    }
    ScansDetermine(lines, newBody, IsBegin, IsEnd, IsBodyLine, b, e, s, t);
    r := Ok(lines[..s] + newBody + lines[t..]);
  }

  /** Conversely, a BEGIN line with no BEGIN after it before the first END
      line is the block the scan settles on. */
  lemma BlockFound<T>(lines: seq<T>, isBegin: T -> bool, isEnd: T -> bool, b: nat, e: nat)
    requires b < e < |lines|
    requires isEnd(lines[e]) && forall k :: 0 <= k < e ==> !isEnd(lines[k])
    requires isBegin(lines[b]) && forall k :: b < k < e ==> !isBegin(lines[k])
    ensures MarkedBlock(lines, isBegin, isEnd) == Some((b, e))
  {
    FirstWhereIs(lines, isEnd, e);
    LastWhereIs(lines[..e], isBegin, b);
  }

  /** Given the first BEGIN line and an END line after it, the scan fails
      exactly when an END line comes before that BEGIN line. */
  lemma BlockMissing<T>(lines: seq<T>, isBegin: T -> bool, isEnd: T -> bool, b: nat, e: nat)
    requires forall k :: 0 <= k < |lines| ==> !(isBegin(lines[k]) && isEnd(lines[k]))
    requires b < e < |lines| && isBegin(lines[b]) && isEnd(lines[e])
    requires forall k :: 0 <= k < b ==> !isBegin(lines[k])
    ensures MarkedBlock(lines, isBegin, isEnd).None? <==> exists e0 :: 0 <= e0 < b && isEnd(lines[e0])
  {
    var e0 := FirstWhere(lines, isEnd).value;
    assert forall k :: 0 <= k < e0 ==> lines[..e0][k] == lines[k];
    if MarkedBlock(lines, isBegin, isEnd).None? {
      if b < e0 {
        assert false;
      }
      assert isEnd(lines[e0]) && e0 < b;
    } else {
      var (b', e') := MarkedBlock(lines, isBegin, isEnd).value;
      assert e' == e0;
      assert b <= b' < e0;
      if e1 :| 0 <= e1 < b && isEnd(lines[e1]) {
        assert false;
      }
    }
  }

  /** No line is both markers. */
  lemma MarkersDiffer(line: string)
    ensures !(IsBegin(line) && IsEnd(line))
  {
    assert PropertiesBegin[11] != PropertiesEnd[11];
  }

  /** rewrite_acf_bodies raises exactly when no BEGIN line comes before
      the first END line: given the first BEGIN line and an END line after
      it, exactly when an END line comes before that BEGIN line. */
  lemma RewriteFails(lines: seq<string>, newBody: seq<string>, b: nat, e: nat)
    requires b < e < |lines| && IsBegin(lines[b]) && IsEnd(lines[e])
    requires forall k :: 0 <= k < b ==> !IsBegin(lines[k])
    ensures RewriteBodies(lines, newBody).Err? <==> exists e0 :: 0 <= e0 < b && IsEnd(lines[e0])
  {
    forall k | 0 <= k < |lines| ensures !(IsBegin(lines[k]) && IsEnd(lines[k])) {
      MarkersDiffer(lines[k]);
    }
    BlockMissing(lines, IsBegin, IsEnd, b, e);
  }

  /** The scan finds no block exactly when there is no END line, or every
      BEGIN line comes after an END line. */
  lemma NoBlockIff<T>(lines: seq<T>, isBegin: T -> bool, isEnd: T -> bool)
    requires forall k :: 0 <= k < |lines| ==> !(isBegin(lines[k]) && isEnd(lines[k]))
    ensures MarkedBlock(lines, isBegin, isEnd).None? <==>
              || (forall e :: 0 <= e < |lines| ==> !isEnd(lines[e]))
              || (forall b :: 0 <= b < |lines| && isBegin(lines[b]) ==> exists e :: 0 <= e < b && isEnd(lines[e]))
  {
    match FirstWhere(lines, isEnd)
    case None =>
    case Some(e0) =>
      assert isEnd(lines[e0]);
      assert forall k :: 0 <= k < e0 ==> lines[..e0][k] == lines[k];
      if MarkedBlock(lines, isBegin, isEnd).None? {
        forall b | 0 <= b < |lines| && isBegin(lines[b]) ensures exists e :: 0 <= e < b && isEnd(lines[e]) {
          assert b != e0;
          assert 0 <= e0 < b && isEnd(lines[e0]);
        }
      } else {
        var (b, e) := MarkedBlock(lines, isBegin, isEnd).value;
        assert isBegin(lines[b]) && b < e;
        if e1 :| 0 <= e1 < b && isEnd(lines[e1]) {
          assert false;
        }
      }
  }

  /** rewrite_acf_bodies raises exactly when the file has no
      PROPERTIES_END line, or no PROPERTIES_BEGIN line before its first
      PROPERTIES_END line. */
  lemma RewriteFailsIff(lines: seq<string>, newBody: seq<string>)
    ensures RewriteBodies(lines, newBody).Err? <==>
              || (forall e :: 0 <= e < |lines| ==> !IsEnd(lines[e]))
              || (forall b :: 0 <= b < |lines| && IsBegin(lines[b]) ==> exists e :: 0 <= e < b && IsEnd(lines[e]))
  {
    forall k | 0 <= k < |lines| ensures !(IsBegin(lines[k]) && IsEnd(lines[k])) {
      MarkersDiffer(lines[k]);
    }
    NoBlockIff(lines, IsBegin, IsEnd);
  }

  /** The splice of lines whose block and span are known. */
  lemma SpliceOf<T>(lines: seq<T>, newBody: seq<T>, isBegin: T -> bool, isEnd: T -> bool, inside: T -> bool,
                    b: nat, e: nat, s: nat, t: nat)
    requires MarkedBlock(lines, isBegin, isEnd) == Some((b, e)) && Span(lines, b, e, inside).0 == s && Span(lines, b, e, inside).1 == t
    ensures Splice(lines, newBody, isBegin, isEnd, inside) == Some(lines[..s] + newBody + lines[t..])
  {
  }

  /** After a splice the block's markers are where the new layout puts
      them, the lines outside the old span are kept, and the only lines
      passing `inside` left in the block are the new ones. */
  lemma SpliceLayout<T>(lines: seq<T>, newBody: seq<T>, isBegin: T -> bool, isEnd: T -> bool, inside: T -> bool,
                        b: nat, e: nat, s: nat, t: nat)
    requires MarkedBlock(lines, isBegin, isEnd) == Some((b, e)) && Span(lines, b, e, inside).0 == s && Span(lines, b, e, inside).1 == t
    ensures var r := lines[..s] + newBody + lines[t..];
            var e' := s + |newBody| + (e - t);
            && |r| == |lines| - (t - s) + |newBody|
            && r[..s] == lines[..s] && r[s + |newBody|..] == lines[t..]
            && r[s..s + |newBody|] == newBody
            && isBegin(r[b]) && isEnd(r[e'])
            && (forall k :: b < k < s ==> !inside(r[k]))
            && (forall k :: s + |newBody| <= k < e' ==> !inside(r[k]))
  {
    var r := lines[..s] + newBody + lines[t..];
    assert forall k :: s + |newBody| <= k < |r| ==> r[k] == lines[k - s - |newBody| + t];
  }

  /** New lines carrying no marker, which begin and end with a line
      passing `inside` when there are any. */
  predicate WellFormedBody<T>(newBody: seq<T>, isBegin: T -> bool, isEnd: T -> bool, inside: T -> bool) {
    && (forall k :: 0 <= k < |newBody| ==> !isBegin(newBody[k]) && !isEnd(newBody[k]))
    && (|newBody| > 0 ==> inside(newBody[0]) && inside(newBody[|newBody| - 1]))
  }

  /** A test no line passes in a range before the span, in the new
      lines, or in a range after the span, no line of the splice passes
      over the joined range. */
  lemma ClearAcross<T>(lines: seq<T>, newBody: seq<T>, p: T -> bool, lo: nat, s: nat, t: nat, hi: nat)
    requires lo <= s <= t <= hi <= |lines|
    requires forall k :: lo <= k < s ==> !p(lines[k])
    requires forall k :: 0 <= k < |newBody| ==> !p(newBody[k])
    requires forall k :: t <= k < hi ==> !p(lines[k])
    ensures var r := lines[..s] + newBody + lines[t..];
            forall k :: lo <= k < s + |newBody| + (hi - t) ==> !p(r[k])
  {
    var r := lines[..s] + newBody + lines[t..];
    forall k | lo <= k < s + |newBody| + (hi - t) ensures !p(r[k]) {
      if k < s {
        assert r[k] == lines[k];
      } else if k < s + |newBody| {
        assert r[k] == newBody[k - s];
      } else {
        assert r[k] == lines[k - s - |newBody| + t];
      }
    }
  }

  /** The spliced lines have the same block, shifted past the new lines. */
  lemma SpliceBlock<T>(lines: seq<T>, newBody: seq<T>, isBegin: T -> bool, isEnd: T -> bool, inside: T -> bool,
                       b: nat, e: nat, s: nat, t: nat)
    requires MarkedBlock(lines, isBegin, isEnd) == Some((b, e)) && Span(lines, b, e, inside).0 == s && Span(lines, b, e, inside).1 == t
    requires WellFormedBody(newBody, isBegin, isEnd, inside)
    ensures MarkedBlock(lines[..s] + newBody + lines[t..], isBegin, isEnd) == Some((b, s + |newBody| + (e - t)))
  {
    var r := lines[..s] + newBody + lines[t..];
    var e' := s + |newBody| + (e - t);
    ClearAcross(lines, newBody, isEnd, 0, s, t, e);
    ClearAcross(lines, newBody, isBegin, b + 1, s, t, e);
    assert r[b] == lines[b];
    assert r[e'] == lines[e];
    BlockFound(r, isBegin, isEnd, b, e');
  }

  /** In the spliced lines the span is exactly the new lines (the empty
      range after BEGIN when there are none). */
  lemma SpliceSpan<T>(lines: seq<T>, newBody: seq<T>, isBegin: T -> bool, isEnd: T -> bool, inside: T -> bool,
                      b: nat, e: nat, s: nat, t: nat)
    requires MarkedBlock(lines, isBegin, isEnd) == Some((b, e)) && Span(lines, b, e, inside).0 == s && Span(lines, b, e, inside).1 == t
    requires WellFormedBody(newBody, isBegin, isEnd, inside)
    ensures |newBody| > 0 ==> Span(lines[..s] + newBody + lines[t..], b, s + |newBody| + (e - t), inside).0 == s
    ensures |newBody| > 0 ==> Span(lines[..s] + newBody + lines[t..], b, s + |newBody| + (e - t), inside).1 == s + |newBody|
    ensures |newBody| == 0 ==> Span(lines[..s] + newBody + lines[t..], b, s + |newBody| + (e - t), inside).0 == b + 1
    ensures |newBody| == 0 ==> Span(lines[..s] + newBody + lines[t..], b, s + |newBody| + (e - t), inside).1 == b + 1
  {
    SpliceLayout(lines, newBody, isBegin, isEnd, inside, b, e, s, t);
    var r := lines[..s] + newBody + lines[t..];
    var e' := s + |newBody| + (e - t);
    var st' := Span(r, b, e', inside);
    if |newBody| > 0 {
      assert inside(r[s]) && inside(r[s + |newBody| - 1]);
      assert st'.0 == s;
      assert st'.1 == s + |newBody|;
    }
  }

  /** A second splice of spliced lines finds the new lines and puts
      them back where they are. */
  lemma SpliceAgain<T>(lines: seq<T>, newBody: seq<T>, isBegin: T -> bool, isEnd: T -> bool, inside: T -> bool,
                       b: nat, e: nat, s: nat, t: nat)
    requires MarkedBlock(lines, isBegin, isEnd) == Some((b, e)) && Span(lines, b, e, inside).0 == s && Span(lines, b, e, inside).1 == t
    requires WellFormedBody(newBody, isBegin, isEnd, inside)
    ensures Splice(lines[..s] + newBody + lines[t..], newBody, isBegin, isEnd, inside) == Some(lines[..s] + newBody + lines[t..])
  {
    var r := lines[..s] + newBody + lines[t..];
    var e' := s + |newBody| + (e - t);
    SpliceBlock(lines, newBody, isBegin, isEnd, inside, b, e, s, t);
    SpliceSpan(lines, newBody, isBegin, isEnd, inside, b, e, s, t);
    if |newBody| > 0 {
      SpliceOf(r, newBody, isBegin, isEnd, inside, b, e', s, s + |newBody|);
      assert r[..s] == lines[..s];
      assert r[s + |newBody|..] == lines[t..];
    } else {
      SpliceOf(r, newBody, isBegin, isEnd, inside, b, e', b + 1, b + 1);
      JoinAt(r, newBody, b + 1);
    }
  }

  /** Splitting a sequence and joining it around nothing gives it back. */
  lemma JoinAt<T>(r: seq<T>, none: seq<T>, i: nat)
    requires |none| == 0 && i <= |r|
    ensures r[..i] + none + r[i..] == r
  {
    assert none == [];
  }

  /** Splicing in well-formed lines twice is splicing once: the second
      pass finds exactly the lines the first pass put in. */
  lemma SpliceIdempotent<T>(lines: seq<T>, newBody: seq<T>, isBegin: T -> bool, isEnd: T -> bool, inside: T -> bool)
    requires WellFormedBody(newBody, isBegin, isEnd, inside)
    ensures var r := Splice(lines, newBody, isBegin, isEnd, inside);
            r.Some? ==> Splice(r.value, newBody, isBegin, isEnd, inside) == r
  {
    if MarkedBlock(lines, isBegin, isEnd).Some? {
      var b, e := MarkedBlock(lines, isBegin, isEnd).value.0, MarkedBlock(lines, isBegin, isEnd).value.1;
      var s, t := Span(lines, b, e, inside).0, Span(lines, b, e, inside).1;
      SpliceOf(lines, newBody, isBegin, isEnd, inside, b, e, s, t);
      SpliceAgain(lines, newBody, isBegin, isEnd, inside, b, e, s, t);
    }
  }

  /** Rewriting the bodies twice with a block that starts and ends with a
      body line and holds no marker is rewriting them once. */
  lemma RewriteIdempotent(lines: seq<string>, newBody: seq<string>)
    requires WellFormedBody(newBody, IsBegin, IsEnd, IsBodyLine)
    ensures var r := RewriteBodies(lines, newBody);
            r.Ok? ==> RewriteBodies(r.value, newBody) == r
  {
    SpliceIdempotent(lines, newBody, IsBegin, IsEnd, IsBodyLine);
  }

  // ---------------------------------------------------------------------
  // replace_body_block
  // ---------------------------------------------------------------------

  /** `f"P _body/{b}/"` */
  function BodyIndexPrefix(b: int): string {
    AnyBody + IntToString(b) + "/"
  }

  /** A line of the body whose prefix is given, indented or not. */
  predicate OfBody(prefix: string, line: string) {
    StartsWith(LStrip(line), prefix)
  }

  function IsOfBody(prefix: string): string -> bool {
    line => OfBody(prefix, line)
  }

  /** Where the block goes among the kept lines: the index of the first
      removed line, or the end when there is none (never past the end). */
  function InsertPos<T>(lines: seq<T>, of: T -> bool): (pos: nat)
    ensures pos <= |Filter(lines, Not(of))|
  {
    var kept := Filter(lines, Not(of));
    var firstPos := match FirstWhere(lines, of) case Some(i) => i case None => |kept|;
    if firstPos < |kept| then firstPos else |kept|
  }

  /** The lines removed are replaced by the block where the first of them
      was, or at the end when there is none; the others keep their order. */
  function ReplaceMatching<T>(lines: seq<T>, of: T -> bool, block: seq<T>): seq<T> {
    var kept := Filter(lines, Not(of));
    var pos := InsertPos(lines, of);
    kept[..pos] + block + kept[pos..]
  }

  /** replace_body_block */
  function ReplaceBodyBlock(lines: seq<string>, b: int, block: seq<string>): seq<string> {
    ReplaceMatching(lines, IsOfBody(BodyIndexPrefix(b)), block)
  }

  /** Kept and removed lines share out the sequence. */
  lemma {:induction false} FilterSplit<T>(lines: seq<T>, of: T -> bool)
    ensures |Filter(lines, Not(of))| + |Filter(lines, of)| == |lines|
    decreases |lines|
  {
    if |lines| > 0 {
      FilterSplit(lines[..|lines| - 1], of);
    }
  }

  /** The lines before the first removed one stay where they are, the new
      block follows them, and the rest keeps its order without the removed
      lines; with none removed the block is appended. */
  lemma ReplaceMatchingLayout<T>(lines: seq<T>, of: T -> bool, block: seq<T>)
    ensures var r := ReplaceMatching(lines, of, block);
            && |r| == |lines| - |Filter(lines, of)| + |block|
            && match FirstWhere(lines, of)
               case Some(i) => r == lines[..i] + block + Filter(lines[i..], Not(of))
               case None => r == lines + block
  {
    FilterSplit(lines, of);
    match FirstWhere(lines, of)
    case Some(i) =>
      KeptBefore(lines, of, i);
    case None =>
      KeepClean(lines, of);
  }

  /** The kept lines start with every line before the first removed one. */
  lemma KeptBefore<T>(lines: seq<T>, of: T -> bool, i: nat)
    requires FirstWhere(lines, of) == Some(i)
    ensures var kept := Filter(lines, Not(of));
            i <= |kept| && kept[..i] == lines[..i] && kept[i..] == Filter(lines[i..], Not(of))
  {
    assert lines == lines[..i] + lines[i..];
    FilterAppend(lines[..i], lines[i..], Not(of));
    KeepClean(lines[..i], of);
  }

  /** No kept line is of the removed kind. */
  lemma KeptClean<T>(lines: seq<T>, of: T -> bool)
    ensures forall k :: 0 <= k < |Filter(lines, Not(of))| ==> !of(Filter(lines, Not(of))[k])
  {
    var kept := Filter(lines, Not(of));
    forall k | 0 <= k < |kept| ensures !of(kept[k]) {
      assert kept[k] in kept;
    }
  }

  /** Filtering keeps lines none of which is of the removed kind. */
  lemma KeepClean<T>(s: seq<T>, of: T -> bool)
    requires forall k :: 0 <= k < |s| ==> !of(s[k])
    ensures Filter(s, Not(of)) == s
  {
    FilterAll(s, Not(of));
  }

  /** Filtering drops lines all of which are of the removed kind. */
  lemma DropAll<T>(s: seq<T>, of: T -> bool)
    requires forall k :: 0 <= k < |s| ==> of(s[k])
    ensures Filter(s, Not(of)) == []
  {
    FilterNone(s, Not(of));
  }

  /** No removed kind of line is left outside the new block. */
  lemma ReplaceMatchingClean<T>(lines: seq<T>, of: T -> bool, block: seq<T>)
    ensures var r := ReplaceMatching(lines, of, block);
            var pos := InsertPos(lines, of);
            forall k :: 0 <= k < |r| && !(pos <= k < pos + |block|) ==> !of(r[k])
  {
    var kept := Filter(lines, Not(of));
    var pos := InsertPos(lines, of);
    var r := kept[..pos] + block + kept[pos..];
    KeptClean(lines, of);
    forall k | 0 <= k < |r| && !(pos <= k < pos + |block|) ensures !of(r[k]) {
      if k < pos {
        assert r[k] == kept[k];
      } else {
        assert r[k] == kept[pos..][k - pos - |block|] == kept[k - |block|];
      }
    }
  }

  /** Filtering clean lines around a block of removed-kind lines drops
      just the block. */
  lemma FilterJoin<T>(a: seq<T>, block: seq<T>, c: seq<T>, of: T -> bool)
    requires forall k :: 0 <= k < |a| ==> !of(a[k])
    requires forall k :: 0 <= k < |block| ==> of(block[k])
    requires forall k :: 0 <= k < |c| ==> !of(c[k])
    ensures Filter(a + block + c, Not(of)) == a + c
  {
    KeepClean(a, of);
    KeepClean(c, of);
    DropAll(block, of);
    FilterAppend(a, block, Not(of));
    FilterAppend(a + block, c, Not(of));
    var ab := Filter(a + block, Not(of));
    assert ab == a by {
      assert ab == a + [];
    }
    assert Filter(a + block + c, Not(of)) == ab + Filter(c, Not(of));
  }

  /** Filtering the replaced lines gives back the kept lines. */
  lemma ReplaceMatchingKept<T>(lines: seq<T>, of: T -> bool, block: seq<T>)
    requires forall k :: 0 <= k < |block| ==> of(block[k])
    ensures Filter(ReplaceMatching(lines, of, block), Not(of)) == Filter(lines, Not(of))
  {
    var kept := Filter(lines, Not(of));
    var pos := InsertPos(lines, of);
    var a, c := kept[..pos], kept[pos..];
    KeptClean(lines, of);
    assert forall k :: 0 <= k < |a| ==> a[k] == kept[k];
    assert forall k :: 0 <= k < |c| ==> c[k] == kept[pos + k];
    FilterJoin(a, block, c, of);
    assert a + c == kept;
  }

  /** A non-empty block of removed-kind lines is where the replaced lines'
      first removed-kind line is. */
  lemma ReplaceMatchingFirst<T>(lines: seq<T>, of: T -> bool, block: seq<T>)
    requires forall k :: 0 <= k < |block| ==> of(block[k])
    ensures |block| > 0 ==> FirstWhere(ReplaceMatching(lines, of, block), of) == Some(InsertPos(lines, of))
    ensures |block| == 0 ==> FirstWhere(ReplaceMatching(lines, of, block), of).None?
  {
    var kept := Filter(lines, Not(of));
    var pos := InsertPos(lines, of);
    var r := kept[..pos] + block + kept[pos..];
    KeptClean(lines, of);
    if |block| > 0 {
      assert r[pos] == block[0];
      assert forall k :: 0 <= k < pos ==> r[k] == kept[k];
      FirstWhereIs(r, of, pos);
    } else {
      assert r == kept;
    }
  }

  /** The replaced lines put a non-empty block back at the same place. */
  lemma ReplaceMatchingPos<T>(lines: seq<T>, of: T -> bool, block: seq<T>)
    requires |block| > 0 && forall k :: 0 <= k < |block| ==> of(block[k])
    ensures InsertPos(ReplaceMatching(lines, of, block), of) == InsertPos(lines, of)
  {
    var r := ReplaceMatching(lines, of, block);
    var pos := InsertPos(lines, of);
    ReplaceMatchingKept(lines, of, block);
    ReplaceMatchingFirst(lines, of, block);
    assert FirstWhere(r, of) == Some(pos);
    assert pos <= |Filter(r, Not(of))|;
  }

  /** Lines with the same kept lines and the same insertion point are
      replaced alike. */
  lemma ReplaceMatchingAlike<T>(a: seq<T>, b: seq<T>, of: T -> bool, block: seq<T>)
    requires Filter(a, Not(of)) == Filter(b, Not(of)) && InsertPos(a, of) == InsertPos(b, of)
    ensures ReplaceMatching(a, of, block) == ReplaceMatching(b, of, block)
  {
  }

  /** Replacing with nothing only drops the removed-kind lines. */
  lemma ReplaceEmpty<T>(lines: seq<T>, of: T -> bool, block: seq<T>)
    requires |block| == 0
    ensures ReplaceMatching(lines, of, block) == Filter(lines, Not(of))
  {
    var kept := Filter(lines, Not(of));
    var pos := InsertPos(lines, of);
    assert kept[..pos] + block + kept[pos..] == kept;
  }

  /** Replacing with a block of removed-kind lines twice is replacing once. */
  lemma ReplaceMatchingIdempotent<T>(lines: seq<T>, of: T -> bool, block: seq<T>)
    requires forall k :: 0 <= k < |block| ==> of(block[k])
    ensures ReplaceMatching(ReplaceMatching(lines, of, block), of, block) == ReplaceMatching(lines, of, block)
  {
    if |block| > 0 {
      ReplaceMatchingKept(lines, of, block);
      ReplaceMatchingPos(lines, of, block);
      ReplaceMatchingAlike(ReplaceMatching(lines, of, block), lines, of, block);
    } else {
      ReplaceEmpty(lines, of, block);
      ReplaceEmpty(Filter(lines, Not(of)), of, block);
      KeptClean(lines, of);
      KeepClean(Filter(lines, Not(of)), of);
    }
  }

  /** Replacing a body's entries with lines of that body twice is
      replacing them once. */
  lemma ReplaceBodyBlockIdempotent(lines: seq<string>, b: int, block: seq<string>)
    requires forall k :: 0 <= k < |block| ==> OfBody(BodyIndexPrefix(b), block[k])
    ensures ReplaceBodyBlock(ReplaceBodyBlock(lines, b, block), b, block) == ReplaceBodyBlock(lines, b, block)
  {
    ReplaceMatchingIdempotent(lines, IsOfBody(BodyIndexPrefix(b)), block);
  }

  // ---------------------------------------------------------------------
  // replace_or_append
  // ---------------------------------------------------------------------

  /** `f"P {key} "` */
  function KeyPrefix(key: string): string {
    "P " + key + " "
  }

  /** `f"P {key} {value:.9f}\n"` */
  function KeyLine(key: string, value: real): string {
    KeyPrefix(key) + Fixed9(value) + "\n"
  }

  function HasKey(key: string): string -> bool {
    line => StartsWith(line, KeyPrefix(key))
  }

  /** The lines after replace_or_append: the first line of the key
      replaced, or the line appended when there is none. */
  function WithKey(lines: seq<string>, key: string, value: real): seq<string> {
    match FirstWhere(lines, HasKey(key))
    case Some(i) => lines[i := KeyLine(key, value)]
    case None => lines + [KeyLine(key, value)]
  }

  lemma KeyLineHasKey(key: string, value: real)
    ensures HasKey(key)(KeyLine(key, value))
  {
    assert KeyLine(key, value)[..|KeyPrefix(key)|] == KeyPrefix(key);
  }

  /** Afterwards the first line of the key is the new one; every other
      line is kept and at most one line is added. */
  lemma WithKeySets(lines: seq<string>, key: string, value: real)
    ensures var r := WithKey(lines, key, value);
            var i := FirstWhere(r, HasKey(key));
            && i.Some? && r[i.value] == KeyLine(key, value)
            && |lines| <= |r| <= |lines| + 1
            && (forall k :: 0 <= k < |lines| && k != i.value ==> r[k] == lines[k])
            && (|r| == |lines| + 1 <==> forall k :: 0 <= k < |lines| ==> !HasKey(key)(lines[k]))
  {
    var r := WithKey(lines, key, value);
    KeyLineHasKey(key, value);
    match FirstWhere(lines, HasKey(key))
    case Some(i) =>
      FirstWhereIs(r, HasKey(key), i);
    case None =>
      FirstWhereIs(r, HasKey(key), |lines|);
  }

  /** Setting a key twice leaves the second value: the last write wins. */
  lemma WithKeyLastWins(lines: seq<string>, key: string, v1: real, v2: real)
    ensures WithKey(WithKey(lines, key, v1), key, v2) == WithKey(lines, key, v2)
  {
    var r := WithKey(lines, key, v1);
    KeyLineHasKey(key, v1);
    match FirstWhere(lines, HasKey(key))
    case Some(i) =>
      FirstWhereIs(r, HasKey(key), i);
      assert r[i := KeyLine(key, v2)] == lines[i := KeyLine(key, v2)];
    case None =>
      FirstWhereIs(r, HasKey(key), |lines|);
      assert r[|lines| := KeyLine(key, v2)] == lines + [KeyLine(key, v2)];
  }

  /** The lines of an .acf file read with their line ends, patched in place. */
  class AcfText {
    var lines: seq<string>

    constructor(lines: seq<string>)
      ensures this.lines == lines
    {
      this.lines := lines;
    }

    /** replace_or_append */
    method ReplaceOrAppend(key: string, value: real)
      modifies this
      ensures lines == WithKey(old(lines), key, value)
    {
      var prefix := KeyPrefix(key);
      var line := KeyLine(key, value);
      var i := 0;
      while i < |lines|
        invariant i <= |lines|
        invariant lines == old(lines)
        invariant forall k :: 0 <= k < i ==> !StartsWith(lines[k], prefix)
      {
        if StartsWith(lines[i], prefix) {
          FirstWhereIs(lines, HasKey(key), i);
          lines := lines[i := line];
          return;
        }
        i := i + 1;
      }
      lines := lines + [line];
    }
  }
}
