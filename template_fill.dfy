/** build_body_block_from_template: a zeroed template block written for
    body `b` (every key spelled `_body/b/...`) is cloned line for line,
    its `_geo_xyz` entries taken from the padded rings of one body and
    its header parameters from the body. */
module TemplateFill {
  import opened Wrappers
  import opened Text
  import opened NumText
  import opened Geometry
  import opened GeoLine
  import opened PmGrid

  /** The placeholder body path of the template. */
  const TemplateBody: string := "_body/b/"

  /** `P _body/b/<key>`: the start of a template parameter line. */
  function TemplateKey(key: string): string {
    "P " + TemplateBody + key
  }

  /** `_body/<b>/`: the placeholder's replacement. */
  function BodyPath(b: int): string {
    "_body/" + IntToString(b) + "/"
  }

  // ----------------------------------------------------------- grid shape

  /** What the `_geo_xyz` expression makes of each line. */
  function Entries(lines: seq<string>): (r: seq<Option<GeoEntry>>)
    ensures |r| == |lines|
  {
    seq(|lines|, n requires 0 <= n < |lines| => Parse(lines[n]))
  }

  /** The largest station index and the largest slot index over the
      entries; 0 and 0 when there is none. */
  function MaxIndices(es: seq<Option<GeoEntry>>): (nat, nat)
    decreases |es|
  {
    if |es| == 0 then (0, 0)
    else
      var m := MaxIndices(es[..|es| - 1]);
      match es[|es| - 1]
      case None => m
      case Some(e) => (if e.i > m.0 then e.i else m.0, if e.j > m.1 then e.j else m.1)
  }

  /** The grid a template describes: `max_i + 1` stations of `max_j + 1`
      slots over its `_geo_xyz` lines. */
  function Shape(lines: seq<string>): (nat, nat) {
    var m := MaxIndices(Entries(lines));
    (m.0 + 1, m.1 + 1)
  }

  /** Every entry's station and slot are at most the maxima, and each
      maximum is 0 or an index that occurs. */
  lemma {:induction false} MaxIndicesBounds(es: seq<Option<GeoEntry>>)
    ensures forall n :: 0 <= n < |es| && es[n].Some? ==>
              es[n].value.i <= MaxIndices(es).0 && es[n].value.j <= MaxIndices(es).1
    ensures MaxIndices(es).0 == 0 || exists n :: 0 <= n < |es| && es[n].Some? && es[n].value.i == MaxIndices(es).0
    ensures MaxIndices(es).1 == 0 || exists n :: 0 <= n < |es| && es[n].Some? && es[n].value.j == MaxIndices(es).1
    decreases |es|
  {
    if |es| > 0 {
      var init := es[..|es| - 1];
      MaxIndicesBounds(init);
      assert forall n :: 0 <= n < |init| ==> init[n] == es[n];
    }
  }

  /** Every entry line lies inside the shape, and each dimension is 1 or
      one past an index that occurs. */
  lemma ShapeBounds(lines: seq<string>)
    ensures forall n :: 0 <= n < |lines| && Parse(lines[n]).Some? ==>
              Parse(lines[n]).value.i < Shape(lines).0 && Parse(lines[n]).value.j < Shape(lines).1
    ensures Shape(lines).0 == 1 ||
              exists n :: 0 <= n < |lines| && Parse(lines[n]).Some? && Parse(lines[n]).value.i + 1 == Shape(lines).0
    ensures Shape(lines).1 == 1 ||
              exists n :: 0 <= n < |lines| && Parse(lines[n]).Some? && Parse(lines[n]).value.j + 1 == Shape(lines).1
  {
    var es := Entries(lines);
    MaxIndicesBounds(es);
    forall n | 0 <= n < |lines| ensures es[n] == Parse(lines[n]) {
    }
  }

  /** The shape-inference loop over the template lines. */
  method InferShape(lines: seq<string>) returns (total: nat, points: nat)
    ensures total == Shape(lines).0
    ensures points == Shape(lines).1
  {
    ghost var es := Entries(lines);
    var maxI: nat, maxJ: nat := 0, 0;
    var n := 0;
    while n < |lines|
      invariant 0 <= n <= |lines|
      invariant maxI == MaxIndices(es[..n]).0
      invariant maxJ == MaxIndices(es[..n]).1
    {
      MaxIndicesStep(es, n);
      var m := Parse(lines[n]);
      assert es[n] == m;
      if m.Some? {
        if m.value.i > maxI {
          maxI := m.value.i;
        }
        if m.value.j > maxJ {
          maxJ := m.value.j;
        }
      }
      n := n + 1;
    }
    assert es[..n] == es;
    total, points := maxI + 1, maxJ + 1;
  }

  lemma MaxIndicesStep(es: seq<Option<GeoEntry>>, n: nat)
    requires n < |es|
    ensures var m := MaxIndices(es[..n]);
            && MaxIndices(es[..n + 1]).0 == (if es[n].Some? && es[n].value.i > m.0 then es[n].value.i else m.0)
            && MaxIndices(es[..n + 1]).1 == (if es[n].Some? && es[n].value.j > m.1 then es[n].value.j else m.1)
  {
    assert es[..n + 1][..n] == es[..n];
  }

  // ------------------------------------------------------------ line fill

  /** The header parameter a stripped template line sets, if it is one. */
  function HeaderParam(body: Body, b: int, stripped: string): Option<string> {
    if StartsWith(stripped, TemplateKey("_part_x")) then Some(Param(b, "_part_x", Fixed9(body.partXFt)))
    else if StartsWith(stripped, TemplateKey("_part_y")) then Some(Param(b, "_part_y", "0.000000000"))
    else if StartsWith(stripped, TemplateKey("_part_z")) then Some(Param(b, "_part_z", "0.000000000"))
    else if StartsWith(stripped, TemplateKey("_part_rad")) then Some(Param(b, "_part_rad", Fixed9(body.partRadFt)))
    else if StartsWith(stripped, TemplateKey("_r_dim")) then Some(Param(b, "_r_dim", IntToString(2 * body.halfNMax)))
    else if StartsWith(stripped, TemplateKey("_s_dim")) then Some(Param(b, "_s_dim", IntToString(|body.rings|)))
    else if StartsWith(stripped, TemplateKey("_descrip")) then Some(Param(b, "_descrip", body.name))
    else None
  }

  /** What one template line becomes: a `_geo_xyz` entry takes the value
      of its cell of the padded grid, and every other line is rewritten
      by FillOther. */
  function FillLine(body: Body, b: int, padded: seq<seq<Vec3>>, line: string): Result<string> {
    var stripped := Strip(line);
    match Parse(stripped)
    case Some(e) => FillEntry(b, padded, e)
    case None => Ok(FillOther(body, b, line, stripped))
  }

  /** An entry's line for body b holding the value of its cell of the
      padded grid; an IndexError when the cell is not there. */
  function FillEntry(b: int, padded: seq<seq<Vec3>>, e: GeoEntry): Result<string> {
    if e.i < |padded| && e.j < |padded[e.i]| then
      Ok(Render(b, e.i, e.j, e.k, Component(padded[e.i][e.j], e.k)))
    else
      Err(IndexError("list index out of range"))
  }

  /** A line that is not an entry: a header parameter takes the body's
      value, any other `_body/b/` line its body path, and every other line
      stays as it is. */
  function FillOther(body: Body, b: int, line: string, stripped: string): string {
    match HeaderParam(body, b, stripped)
    case Some(p) => p
    case None =>
      if Contains(stripped, TemplateBody) then ReplaceAll(stripped, TemplateBody, BodyPath(b))
      else line
  }

  /** The lines' results gathered: all values in order, or the first error. */
  function AllOk<T>(rs: seq<Result<T>>): Result<seq<T>>
    decreases |rs|
  {
    if |rs| == 0 then Ok([])
    else
      match AllOk(rs[..|rs| - 1])
      case Err(e) => Err(e)
      case Ok(vs) =>
        match rs[|rs| - 1]
        case Err(e) => Err(e)
        case Ok(v) => Ok(vs + [v])
  }

  /** Gathering succeeds exactly when every result does, and then keeps
      every value in its place. */
  lemma {:induction false} AllOkValues<T>(rs: seq<Result<T>>)
    ensures AllOk(rs).Ok? <==> forall n :: 0 <= n < |rs| ==> rs[n].Ok?
    ensures AllOk(rs).Ok? ==>
              |AllOk(rs).value| == |rs| && forall n :: 0 <= n < |rs| ==> AllOk(rs).value[n] == rs[n].value
    decreases |rs|
  {
    if |rs| > 0 {
      var init := rs[..|rs| - 1];
      AllOkValues(init);
      assert forall n :: 0 <= n < |init| ==> init[n] == rs[n];
    }
  }

  /** Once a prefix fails, the whole gathering fails with its error. */
  lemma {:induction false} AllOkErrSticks<T>(rs: seq<Result<T>>, n: nat)
    requires n <= |rs| && AllOk(rs[..n]).Err?
    ensures AllOk(rs) == AllOk(rs[..n])
    decreases |rs| - n
  {
    if n < |rs| {
      assert rs[..n + 1][..n] == rs[..n];
      AllOkErrSticks(rs, n + 1);
    } else {
      assert rs[..n] == rs;
    }
  }

  /** Each template line filled. */
  function FilledLines(body: Body, b: int, padded: seq<seq<Vec3>>, lines: seq<string>): (r: seq<Result<string>>)
    ensures |r| == |lines|
  {
    seq(|lines|, n requires 0 <= n < |lines| => FillLine(body, b, padded, lines[n]))
  }

  /** The filled lines, in template order; the first failing line's error. */
  function FillLines(body: Body, b: int, padded: seq<seq<Vec3>>, lines: seq<string>): Result<seq<string>> {
    AllOk(FilledLines(body, b, padded, lines))
  }

  /** The fill succeeds exactly when every line does. */
  lemma FillLinesOk(body: Body, b: int, padded: seq<seq<Vec3>>, lines: seq<string>)
    ensures FillLines(body, b, padded, lines).Ok? <==>
              forall n :: 0 <= n < |lines| ==> FillLine(body, b, padded, lines[n]).Ok?
  {
    var rs := FilledLines(body, b, padded, lines);
    AllOkValues(rs);
    forall n | 0 <= n < |lines| ensures rs[n] == FillLine(body, b, padded, lines[n]) {
    }
  }

  /** A successful fill yields one line per template line, in template
      order, each the fill of that line. */
  lemma FillLinesValues(body: Body, b: int, padded: seq<seq<Vec3>>, lines: seq<string>)
    requires FillLines(body, b, padded, lines).Ok?
    ensures |FillLines(body, b, padded, lines).value| == |lines|
    ensures forall n :: 0 <= n < |lines| ==>
              && FillLine(body, b, padded, lines[n]).Ok?
              && FillLines(body, b, padded, lines).value[n] == FillLine(body, b, padded, lines[n]).value
  {
    var rs := FilledLines(body, b, padded, lines);
    AllOkValues(rs);
    forall n | 0 <= n < |lines| ensures rs[n] == FillLine(body, b, padded, lines[n]) {
    }
  }

  /** The output loop over the template lines. */
  method FillTemplateLines(body: Body, b: int, padded: seq<seq<Vec3>>, template: seq<string>)
    returns (r: Result<seq<string>>)
    ensures r == FillLines(body, b, padded, template)
  {
    ghost var rs := FilledLines(body, b, padded, template);
    var out: seq<string> := [];
    var n := 0;
    while n < |template|
      invariant 0 <= n <= |template|
      invariant AllOk(rs[..n]) == Ok(out)
    {
      var l := FillLine(body, b, padded, template[n]);
      assert rs[n] == l;
      if l.Err? {
        AllOkFails(rs, n, out);
        return Err(l.error);
      }
      AllOkSnoc(rs, n, out);
      out := out + [l.value];
      n := n + 1;
    }
    assert rs[..n] == rs;
    r := Ok(out);
  }

  lemma AllOkSnoc<T>(rs: seq<Result<T>>, n: nat, vs: seq<T>)
    requires n < |rs| && AllOk(rs[..n]) == Ok(vs) && rs[n].Ok?
    ensures AllOk(rs[..n + 1]) == Ok(vs + [rs[n].value])
  {
    assert rs[..n + 1][..n] == rs[..n];
  }

  lemma AllOkFails<T>(rs: seq<Result<T>>, n: nat, vs: seq<T>)
    requires n < |rs| && AllOk(rs[..n]) == Ok(vs) && rs[n].Err?
    ensures AllOk(rs) == Err(rs[n].error)
  {
    assert rs[..n + 1][..n] == rs[..n];
    AllOkErrSticks(rs, n + 1);
  }

  // ------------------------------------------------------ whole template

  /** The filled block: the grid shape read from `shapeLines`, the rings
      padded to it, then every template line filled. */
  function FillFromTemplate(body: Body, b: int, template: seq<string>, shapeLines: seq<string>): Result<seq<string>> {
    var shape := Shape(shapeLines);
    FillLines(body, b, Padded(body.rings, shape.0, shape.1), template)
  }

  /** build_body_block_from_template as written: the shape is read from
      the template lines as they are, the entries from the stripped lines. */
  method BuildBodyBlockFromTemplateAsWritten(body: Body, b: int, template: seq<string>)
    returns (r: Result<seq<string>>)
    ensures r == FillFromTemplate(body, b, template, template)
  {
    var total, points := InferShape(template);
    var padded := PadGrid(body.rings, total, points);
    r := FillTemplateLines(body, b, padded, template);
  }

  /** Every line stripped. */
  function StripAll(lines: seq<string>): seq<string> {
    seq(|lines|, n requires 0 <= n < |lines| => Strip(lines[n]))
  }

  /** build_body_block_from_template with the shape read from the same
      stripped lines the entries are: it never fails, and yields one line
      per template line. */
  method BuildBodyBlockFromTemplate(body: Body, b: int, template: seq<string>)
    returns (r: Result<seq<string>>)
    ensures r == FillFromTemplate(body, b, template, StripAll(template))
    ensures r.Ok? && |r.value| == |template|
  {
    var total, points := InferShape(StripAll(template));
    var padded := PadGrid(body.rings, total, points);
    r := FillTemplateLines(body, b, padded, template);
    StrippedShapeFits(body, b, template);
  }

  /** With the shape read from the stripped lines every entry names a cell
      of the padded grid, so no line fails. */
  lemma StrippedShapeFits(body: Body, b: int, template: seq<string>)
    ensures FillFromTemplate(body, b, template, StripAll(template)).Ok?
    ensures |FillFromTemplate(body, b, template, StripAll(template)).value| == |template|
  {
    var stripped := StripAll(template);
    var shape := Shape(stripped);
    var padded := Padded(body.rings, shape.0, shape.1);
    ShapeBounds(stripped);
    forall n | 0 <= n < |template| ensures FillLine(body, b, padded, template[n]).Ok? {
      assert stripped[n] == Strip(template[n]);
      LineInsideFits(body, b, shape.0, shape.1, template[n]);
    }
    FillLinesOk(body, b, padded, template);
    FillLinesValues(body, b, padded, template);
  }

  /** A line whose entry, if any, lies inside the grid fills without error. */
  lemma LineInsideFits(body: Body, b: int, total: nat, points: nat, line: string)
    requires Parse(Strip(line)).Some? ==> Parse(Strip(line)).value.i < total && Parse(Strip(line)).value.j < points
    ensures FillLine(body, b, Padded(body.rings, total, points), line).Ok?
  {
    var padded := Padded(body.rings, total, points);
    var m := Parse(Strip(line));
    if m.Some? {
      PaddedCells(body.rings, total, points, m.value.i, m.value.j);
      assert FillEntry(b, padded, m.value).Ok?;
      assert FillLine(body, b, padded, line) == FillEntry(b, padded, m.value);
    } else {
      assert FillLine(body, b, padded, line) == Ok(FillOther(body, b, line, Strip(line)));
    }
  }

  // ------------------------------------------------------ per-line rules

  /** A `_geo_xyz` line inside the grid becomes the entry of body b for the
      same station, slot and axis, holding the ring point's coordinate (or
      0 past the rings), and that line reads back as such. */
  lemma FilledEntryReadsBack(body: Body, b: nat, total: nat, points: nat, line: string, e: GeoEntry)
    requires Parse(Strip(line)) == Some(e) && e.i < total && e.j < points
    ensures var p := if e.i < |body.rings| && e.j < |body.rings[e.i]| then body.rings[e.i][e.j] else Origin;
            var out := Render(b, e.i, e.j, e.k, Component(p, e.k));
            && FillLine(body, b, Padded(body.rings, total, points), line) == Ok(out)
            && ParseNumbered(out) == Some((b, GeoEntry(NatToString(b), e.i, e.j, e.k, Round9(Component(p, e.k)))))
  {
    var padded := Padded(body.rings, total, points);
    PaddedCells(body.rings, total, points, e.i, e.j);
    var v := Component(padded[e.i][e.j], e.k);
    assert FillEntry(b, padded, e) == Ok(Render(b, e.i, e.j, e.k, v));
    assert FillLine(body, b, padded, line) == FillEntry(b, padded, e);
    ParseNumberedRender(b, e.i, e.j, e.k, v);
  }

  /** A line that is neither an entry nor mentions `_body/b/` is copied as
      it is, surrounding whitespace included. */
  lemma FillKeepsOtherLines(body: Body, b: int, padded: seq<seq<Vec3>>, line: string)
    requires Parse(Strip(line)).None? && !Contains(Strip(line), TemplateBody)
    ensures FillLine(body, b, padded, line) == Ok(line)
  {
    HeaderParamNeedsBody(body, b, Strip(line));
  }

  /** Every header parameter line mentions `_body/b/`. */
  lemma HeaderParamNeedsBody(body: Body, b: int, s: string)
    ensures HeaderParam(body, b, s).Some? ==> Contains(s, TemplateBody)
  {
    if StartsWith(s, TemplateKey("_part_x")) {
      KeyMentionsBody(s, "_part_x");
    } else if StartsWith(s, TemplateKey("_part_y")) {
      KeyMentionsBody(s, "_part_y");
    } else if StartsWith(s, TemplateKey("_part_z")) {
      KeyMentionsBody(s, "_part_z");
    } else if StartsWith(s, TemplateKey("_part_rad")) {
      KeyMentionsBody(s, "_part_rad");
    } else if StartsWith(s, TemplateKey("_r_dim")) {
      KeyMentionsBody(s, "_r_dim");
    } else if StartsWith(s, TemplateKey("_s_dim")) {
      KeyMentionsBody(s, "_s_dim");
    } else if StartsWith(s, TemplateKey("_descrip")) {
      KeyMentionsBody(s, "_descrip");
    }
  }

  /** A line starting `P _body/b/<key>` contains `_body/b/`. */
  lemma KeyMentionsBody(s: string, key: string)
    requires StartsWith(s, TemplateKey(key))
    ensures Contains(s, TemplateBody)
  {
    assert s[2..][..|TemplateBody|] == TemplateKey(key)[2..2 + |TemplateBody|] == TemplateBody;
    StartsWithContains(s[2..], TemplateBody);
    assert s[1..][1..] == s[2..];
  }

  /** A `P _body/b/<rest>` parameter the fill does not set keeps its key
      and value, with `b` replaced by the body number. */
  lemma FillRetargetsParameter(body: Body, b: int, padded: seq<seq<Vec3>>, line: string, rest: string)
    requires Strip(line) == TemplateKey(rest) && !Contains(rest, TemplateBody)
    requires Parse(Strip(line)).None? && HeaderParam(body, b, Strip(line)).None?
    ensures FillLine(body, b, padded, line) == Ok("P " + BodyPath(b) + rest)
  {
    var s := Strip(line);
    assert FillLine(body, b, padded, line) == Ok(FillOther(body, b, line, s));
    ReplaceTemplateBody(rest, BodyPath(b));
  }

  /** In `P _body/b/<rest>`, with no further `_body/b/` in rest, the
      replacement touches the one placeholder. */
  lemma ReplaceTemplateBody(rest: string, rep: string)
    requires !Contains(rest, TemplateBody)
    ensures Contains(TemplateKey(rest), TemplateBody)
    ensures ReplaceAll(TemplateKey(rest), TemplateBody, rep) == "P " + rep + rest
  {
    var s := TemplateKey(rest);
    assert s[2..] == TemplateBody + rest;
    StartsWithContains(s[2..], TemplateBody);
    assert s[1..][1..] == s[2..];
    assert s[..|TemplateBody|][0] == 'P' != TemplateBody[0];
    assert s[1..][..|TemplateBody|][0] == ' ' != TemplateBody[0];
    assert !StartsWith(s, TemplateBody) && !StartsWith(s[1..], TemplateBody);
    ReplaceAbsent(rest, TemplateBody, rep);
    assert s[2..][|TemplateBody|..] == rest;
    assert ReplaceAll(s[2..], TemplateBody, rep) == rep + rest;
  }

  // ------------------------------------------------------ indented entries

  /** An indented line is not an entry as it stands. */
  lemma IndentedNotEntry(x: string)
    ensures Parse(" " + x).None?
  {
    var s := " " + x;
    if |BodyPrefix| <= |s| {
      assert s[..|BodyPrefix|][0] == ' ' != BodyPrefix[0];
    }
    assert !StartsWith(s, BodyPrefix);
  }

  /** An indented entry line stripped is the entry line. */
  lemma IndentedEntryStrips(t: nat, i: nat, j: nat, k: nat, v: real)
    ensures Strip(" " + Render(t, i, j, k, v)) == Render(t, i, j, k, v)
  {
    var line := Render(t, i, j, k, v);
    var s := " " + line;
    RenderFirst(t, i, j, k, v);
    assert s[0] == ' ' && s[1..] == line;
    LStripNoLeadingSpace(line);
    assert LStrip(s) == line;
    RenderLast(t, i, j, k, v);
    Fixed9EndsWithDigit(v);
    RStripDigitEnd(line);
  }

  lemma RenderFirst(t: nat, i: nat, j: nat, k: nat, v: real)
    ensures |Render(t, i, j, k, v)| > 0 && Render(t, i, j, k, v)[0] == 'P'
  {
  }

  /** A rendered entry ends as its value's rendering does. */
  lemma RenderLast(t: nat, i: nat, j: nat, k: nat, v: real)
    ensures |Fixed9(v)| > 0 && |Render(t, i, j, k, v)| > 0
    ensures Render(t, i, j, k, v)[|Render(t, i, j, k, v)| - 1] == Fixed9(v)[|Fixed9(v)| - 1]
  {
    var f := Fixed9(v);
    Fixed9EndsWithDigit(v);
    var s5 := " " + f;
    var s4 := IntToString(k) + s5;
    var s3 := "," + s4;
    var s2 := IntToString(j) + s3;
    var s1 := "," + s2;
    var idx := IntToString(i) + s1;
    var r2 := GeoKey + idx;
    var r1 := IntToString(t) + r2;
    var line := BodyPrefix + r1;
    assert line == Render(t, i, j, k, v);
    LastOfAppend(" ", f);
    LastOfAppend(IntToString(k), s5);
    LastOfAppend(",", s4);
    LastOfAppend(IntToString(j), s3);
    LastOfAppend(",", s2);
    LastOfAppend(IntToString(i), s1);
    LastOfAppend(GeoKey, idx);
    LastOfAppend(IntToString(t), r2);
    LastOfAppend(BodyPrefix, r1);
  }

  lemma LastOfAppend(x: string, y: string)
    requires |y| > 0
    ensures |x + y| > 0 && (x + y)[|x + y| - 1] == y[|y| - 1]
  {
  }

  /** A string ending with a digit is its own rstrip. */
  lemma RStripDigitEnd(s: string)
    requires |s| > 0 && IsDigit(s[|s| - 1])
    ensures RStrip(s) == s
  {
  }

  /** A nine-decimal rendering ends with a digit. */
  lemma Fixed9EndsWithDigit(v: real)
    ensures |Fixed9(v)| > 0 && IsDigit(Fixed9(v)[|Fixed9(v)| - 1])
  {
    Fixed9Shape(v);
    var d := FixedDigits(ScaledMagnitude(v) % Scale, 9);
    assert Fixed9(v)[|Fixed9(v)| - 1] == d[8];
  }

  /** As written, a template holding only an indented entry of station 1
      is taken for a one-station grid, so the fill fails with IndexError;
      reading the shape from the stripped lines fills it. */
  lemma IndentedTemplateFails(body: Body, b: int, t: nat, v: real)
    ensures FillFromTemplate(body, b, [" " + Render(t, 1, 0, 0, v)], [" " + Render(t, 1, 0, 0, v)]).Err?
    ensures FillFromTemplate(body, b, [" " + Render(t, 1, 0, 0, v)], StripAll([" " + Render(t, 1, 0, 0, v)])).Ok?
  {
    var template := [" " + Render(t, 1, 0, 0, v)];
    IndentedShape(Render(t, 1, 0, 0, v));
    IndentedLineFails(body, b, t, v);
    FillLinesOk(body, b, Padded(body.rings, 1, 1), template);
    StrippedShapeFits(body, b, template);
  }

  /** An indented line alone is read as a 1 x 1 grid. */
  lemma IndentedShape(x: string)
    ensures Shape([" " + x]) == (1, 1)
  {
    IndentedNotEntry(x);
    var es := Entries([" " + x]);
    assert |es| == 1 && es[0] == None;
    assert es[..0] == [];
    assert MaxIndices(es[..0]) == (0, 0);
    assert MaxIndices(es) == (0, 0);
  }

  /** Station 1 of a 1 x 1 grid is not there. */
  lemma IndentedLineFails(body: Body, b: int, t: nat, v: real)
    ensures FillLine(body, b, Padded(body.rings, 1, 1), " " + Render(t, 1, 0, 0, v)).Err?
  {
    var line := " " + Render(t, 1, 0, 0, v);
    var padded := Padded(body.rings, 1, 1);
    IndentedEntryStrips(t, 1, 0, 0, v);
    ParseRender(t, 1, 0, 0, v);
    var e := GeoEntry(NatToString(t), 1, 0, 0, Round9(v));
    assert Parse(Strip(line)) == Some(e);
    assert FillLine(body, b, padded, line) == FillEntry(b, padded, e);
    assert |padded| == 1;
  }
}
