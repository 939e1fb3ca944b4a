/** The `P _body/<b>/_geo_xyz/<i>,<j>,<k> <value>` line of an .acf file:
    how the writers render it and how the readers' regular expressions
    recognise it. */
module GeoLine {
  import opened Wrappers
  import opened Text
  import opened NumText

  const BodyPrefix: string := "P _body/"
  const GeoKey: string := "/_geo_xyz/"

  /** What a matching line holds: the body tag (the text between
      `_body/` and the next slash), the grid indices and the value. */
  datatype GeoEntry = GeoEntry(tag: string, i: nat, j: nat, k: nat, value: real)

  /** `f"P _body/{b}/_geo_xyz/{i},{j},{k} {v:.9f}"` */
  function Render(b: int, i: int, j: int, k: int, v: real): string {
    BodyPrefix + (IntToString(b) + (GeoKey + Indices(i, j, k, v)))
  }

  /** `(\d+)<sep>`: the value of a digit run ended by `sep`, and the text after it. */
  function IndexThen(s: string, sep: char): (r: Option<(nat, string)>)
    ensures r.Some? ==> |r.value.1| < |s|
  {
    var n := DigitRun(s);
    if n == 0 || n >= |s| || s[n] != sep then None
    else Some((DigitsToNat(s[..n]), s[n + 1..]))
  }

  /** `(\d+)\s+(-?\d+\.\d+)$`: a digit run, at least one whitespace
      character, then a decimal running to the end. */
  function IndexThenValue(s: string): Option<(nat, real)> {
    var n := DigitRun(s);
    var rest := s[n..];
    var value := LStrip(rest);
    if n == 0 || |value| == |rest| then None
    else
      match ParseDecimal(value)
      case None => None
      case Some(v) => Some((DigitsToNat(s[..n]), v))
  }

  /** `^P _body/([^/]+)/_geo_xyz/(\d+),(\d+),(\d+)\s+(-?\d+\.\d+)$` */
  function Parse(line: string): (r: Option<GeoEntry>)
    ensures r.Some? ==> StartsWith(line, BodyPrefix) && |r.value.tag| > 0 && '/' !in r.value.tag
  {
    if !StartsWith(line, BodyPrefix) then None
    else
      var rest := line[|BodyPrefix|..];
      var tag := BeforeSlash(rest);
      var after := rest[|tag|..];
      if |tag| == 0 || !StartsWith(after, GeoKey) then None
      else
        match IndexThen(after[|GeoKey|..], ',')
        case None => None
        case Some((i, t1)) =>
          match IndexThen(t1, ',')
          case None => None
          case Some((j, t2)) =>
            match IndexThenValue(t2)
            case None => None
            case Some((k, v)) => Some(GeoEntry(tag, i, j, k, v))
  }

  /** The same expression with `(\d+)` for the body: the body index of a
      line whose tag is a number. */
  function ParseNumbered(line: string): (r: Option<(nat, GeoEntry)>)
    ensures r.Some? ==> Parse(line) == Some(r.value.1)
  {
    match Parse(line)
    case None => None
    case Some(e) => if AllDigits(e.tag) then Some((DigitsToNat(e.tag), e)) else None
  }

  /** `^P _body/(\d+)/_geo_xyz/`: the body index of a line that starts a
      numbered geometry entry, whatever follows. */
  function PrefixIndex(line: string): Option<nat> {
    if !StartsWith(line, BodyPrefix) then None
    else
      var rest := line[|BodyPrefix|..];
      var n := DigitRun(rest);
      if n == 0 || !StartsWith(rest[n..], GeoKey) then None
      else Some(DigitsToNat(rest[..n]))
  }

  /** The digits of a number followed by a non-digit separator read back. */
  lemma IndexThenOf(n: nat, sep: char, rest: string)
    requires !IsDigit(sep)
    ensures IndexThen(NatToString(n) + ([sep] + rest), sep) == Some((n, rest))
  {
    var a := NatToString(n);
    var s := a + ([sep] + rest);
    DigitRunAfterDigits(a, [sep] + rest);
    NatToStringRoundTrip(n);
    assert s[..|a|] == a;
    assert s[|a| + 1..] == rest;
  }

  /** A nine-decimal rendering never starts with whitespace. */
  lemma Fixed9Leading(v: real)
    ensures |Fixed9(v)| > 0 && !IsSpace(Fixed9(v)[0])
  {
    var m := ScaledMagnitude(v);
    var a := NatToString(m / Scale);
    Fixed9Shape(v);
    if v >= 0.0 {
      assert Fixed9(v)[0] == a[0];
    }
  }

  /** The last index and the value read back. */
  lemma IndexThenValueOf(n: nat, v: real)
    ensures IndexThenValue(NatToString(n) + (" " + Fixed9(v))) == Some((n, Round9(v)))
  {
    var a := NatToString(n);
    var f := Fixed9(v);
    var s := a + (" " + f);
    DigitRunAfterDigits(a, " " + f);
    NatToStringRoundTrip(n);
    assert s[..|a|] == a;
    assert s[|a|..] == " " + f;
    Fixed9Leading(v);
    assert (" " + f)[1..] == f;
    LStripNoLeadingSpace(f);
    assert LStrip(" " + f) == f;
    Fixed9RoundTrip(v);
  }

  /** The text before the first slash of `a + s` is `a` when `a` has no
      slash and `s` starts with one. */
  lemma {:induction false} BeforeSlashOf(a: string, s: string)
    requires '/' !in a && |s| > 0 && s[0] == '/'
    ensures BeforeSlash(a + s) == a
    decreases |a|
  {
    if |a| > 0 {
      assert (a + s)[1..] == a[1..] + s;
      BeforeSlashOf(a[1..], s);
    } else {
      assert a + s == s;
    }
  }

  lemma DigitsNoSlash(a: string)
    requires AllDigits(a)
    ensures '/' !in a
  {
  }

  /** `f"{i},{j},{k} {v:.9f}"`, the text after the key. */
  function Indices(i: int, j: int, k: int, v: real): string {
    IntToString(i) + ("," + (IntToString(j) + ("," + (IntToString(k) + (" " + Fixed9(v))))))
  }

  /** The three indices after the key read back. */
  lemma IndicesRoundTrip(i: nat, j: nat, k: nat, v: real)
    ensures var kv := NatToString(k) + (" " + Fixed9(v));
            var jkv := NatToString(j) + ("," + kv);
            && Indices(i, j, k, v) == NatToString(i) + ("," + jkv)
            && IndexThen(Indices(i, j, k, v), ',') == Some((i, jkv))
            && IndexThen(jkv, ',') == Some((j, kv))
            && IndexThenValue(kv) == Some((k, Round9(v)))
  {
    var kv := NatToString(k) + (" " + Fixed9(v));
    var jkv := NatToString(j) + ("," + kv);
    IndexThenOf(i, ',', jkv);
    IndexThenOf(j, ',', kv);
    IndexThenValueOf(k, v);
  }

  /** Every line the writers emit matches the readers' expression, with
      the body, the indices and the value rounded to nine decimals. */
  lemma ParseRender(b: nat, i: nat, j: nat, k: nat, v: real)
    ensures Parse(Render(b, i, j, k, v)) == Some(GeoEntry(NatToString(b), i, j, k, Round9(v)))
  {
    var tag := NatToString(b);
    var t := Indices(i, j, k, v);
    var rest := tag + (GeoKey + t);
    var line := BodyPrefix + rest;
    assert line[|BodyPrefix|..] == rest;
    DigitsNoSlash(tag);
    BeforeSlashOf(tag, GeoKey + t);
    assert rest[|tag|..] == GeoKey + t;
    assert (GeoKey + t)[|GeoKey|..] == t;
    IndicesRoundTrip(i, j, k, v);
  }

  /** ... and its numeric tag reads back as the body number. */
  lemma ParseNumberedRender(b: nat, i: nat, j: nat, k: nat, v: real)
    ensures ParseNumbered(Render(b, i, j, k, v)) == Some((b, GeoEntry(NatToString(b), i, j, k, Round9(v))))
  {
    ParseRender(b, i, j, k, v);
    NatToStringRoundTrip(b);
  }

  /** ... and the prefix expression reads the body number. */
  lemma PrefixIndexRender(b: nat, i: nat, j: nat, k: nat, v: real)
    ensures PrefixIndex(Render(b, i, j, k, v)) == Some(b)
  {
    var tag := NatToString(b);
    var t := Indices(i, j, k, v);
    var rest := tag + (GeoKey + t);
    var line := BodyPrefix + rest;
    assert line[|BodyPrefix|..] == rest;
    DigitRunAfterDigits(tag, GeoKey + t);
    NatToStringRoundTrip(b);
    assert rest[..|tag|] == tag;
    assert rest[|tag|..] == GeoKey + t;
  }
}
