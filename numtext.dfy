/** Decimal text for numbers: `str(n)`, `int(s)`, the `{:.9f}` rendering of a
    coordinate, and `float(s)` on the `-?\d+\.\d+` form the readers accept. */
module NumText {
  import opened Wrappers
  import opened Text

  function DigitValue(c: char): nat
    requires IsDigit(c)
  {
    c as int - '0' as int
  }

  function DigitChar(d: nat): (c: char)
    requires d < 10
    ensures IsDigit(c) && DigitValue(c) == d
  {
    ('0' as int + d) as char
  }

  function Pow10(e: nat): (p: nat)
    ensures p >= 1
  {
    if e == 0 then 1 else 10 * Pow10(e - 1)
  }

  /** The value of a run of decimal digits. */
  function DigitsToNat(s: string): nat
    requires AllDigits(s)
    decreases |s|
  {
    if |s| == 0 then 0 else DigitsToNat(s[..|s| - 1]) * 10 + DigitValue(s[|s| - 1])
  }

  /** str(n) for a non-negative integer: no sign, no leading zeros. */
  function NatToString(n: nat): (r: string)
    ensures |r| > 0 && AllDigits(r)
    decreases n
  {
    if n < 10 then [DigitChar(n)] else NatToString(n / 10) + [DigitChar(n % 10)]
  }

  /** str(n) for any integer */
  function IntToString(n: int): string {
    if n < 0 then "-" + NatToString(-n) else NatToString(n)
  }

  /** Reading back the digits of a number gives the number. */
  lemma {:induction false} NatToStringRoundTrip(n: nat)
    ensures DigitsToNat(NatToString(n)) == n
    decreases n
  {
    if n >= 10 {
      var r := NatToString(n);
      NatToStringRoundTrip(n / 10);
      assert r[..|r| - 1] == NatToString(n / 10);
    }
  }

  /** The number of leading decimal digits of `s`. */
  function DigitRun(s: string): (n: nat)
    ensures n <= |s| && AllDigits(s[..n])
    ensures n == |s| || !IsDigit(s[n])
    decreases |s|
  {
    if |s| == 0 || !IsDigit(s[0]) then 0
    else
      var k := DigitRun(s[1..]);
      assert s[..k + 1] == [s[0]] + s[1..][..k];
      k + 1
  }

  lemma {:induction false} DigitRunAfterDigits(a: string, b: string)
    requires AllDigits(a) && (|b| == 0 || !IsDigit(b[0]))
    ensures DigitRun(a + b) == |a|
    decreases |a|
  {
    if |a| > 0 {
      DigitRunAfterDigits(a[1..], b);
      assert (a + b)[1..] == a[1..] + b;
    }
  }

  /** What Python's int() accepts after the sign: decimal digits, where a
      single underscore may stand between two of them. */
  predicate DigitGroups(u: string)
    decreases |u|
  {
    && |u| > 0 && IsDigit(u[0])
    && (|u| == 1 || if u[1] == '_' then |u| > 2 && DigitGroups(u[2..]) else DigitGroups(u[1..]))
  }

  /** The same form stated character by character: it starts and ends with a
      digit, holds only digits and underscores, and a digit follows every
      underscore. */
  lemma {:induction false} DigitGroupsIff(u: string)
    ensures DigitGroups(u) <==>
              && |u| > 0 && IsDigit(u[0]) && IsDigit(u[|u| - 1])
              && (forall k :: 0 <= k < |u| ==> IsDigit(u[k]) || u[k] == '_')
              && (forall k :: 0 <= k < |u| - 1 && u[k] == '_' ==> IsDigit(u[k + 1]))
    decreases |u|
  {
    if |u| > 1 {
      var v := if u[1] == '_' && |u| > 2 then u[2..] else u[1..];
      var d := |u| - |v|;
      DigitGroupsIff(v);
      assert forall k :: 0 <= k < |v| ==> v[k] == u[k + d];
      assert u[|u| - 1] == v[|v| - 1] by { assert |v| > 0 ==> u[|u| - 1] == v[|v| - 1]; }
    }
  }

  /** The digits of `s`, in order: for text in the accepted form, the text
      without its underscores. */
  function DigitsOf(s: string): (r: string)
    ensures AllDigits(r) && |r| <= |s|
    decreases |s|
  {
    if |s| == 0 then []
    else if IsDigit(s[0]) then [s[0]] + DigitsOf(s[1..])
    else DigitsOf(s[1..])
  }

  lemma {:induction false} DigitsOfDigits(s: string)
    requires AllDigits(s)
    ensures DigitsOf(s) == s
    decreases |s|
  {
    if |s| > 0 {
      DigitsOfDigits(s[1..]);
      assert s == [s[0]] + s[1..];
    }
  }

  lemma {:induction false} DigitsOfAppend(x: string, y: string)
    ensures DigitsOf(x + y) == DigitsOf(x) + DigitsOf(y)
    decreases |x|
  {
    if |x| > 0 {
      assert (x + y)[0] == x[0] && (x + y)[1..] == x[1..] + y;
      DigitsOfAppend(x[1..], y);
    } else {
      assert x + y == y;
    }
  }

  /** A non-empty run of plain digits is in the form int() accepts. */
  lemma {:induction false} DigitsAreGroups(u: string)
    requires |u| > 0 && AllDigits(u)
    ensures DigitGroups(u)
    decreases |u|
  {
    if |u| > 1 {
      DigitsAreGroups(u[1..]);
    }
  }

  /** Two runs of digits joined by one underscore are in that form too. */
  lemma {:induction false} JoinedGroups(a: string, b: string)
    requires |a| > 0 && |b| > 0 && AllDigits(a) && AllDigits(b)
    ensures DigitGroups(a + "_" + b)
    decreases |a|
  {
    var s := a + "_" + b;
    if |a| == 1 {
      assert s[1] == '_' && s[2..] == b;
      DigitsAreGroups(b);
    } else {
      assert s[1] == a[1] && s[1..] == a[1..] + "_" + b;
      JoinedGroups(a[1..], b);
    }
  }

  /** Python int(s) for a token without surrounding whitespace: an optional
      sign, then digits with single underscores allowed between them. */
  function ParseInt(s: string): (r: Option<int>)
    ensures r.Some? ==> |s| > 0
  {
    var neg := |s| > 0 && s[0] == '-';
    var u := if |s| > 0 && (s[0] == '-' || s[0] == '+') then s[1..] else s;
    if !DigitGroups(u) then None
    else
      var n := DigitsToNat(DigitsOf(u));
      Some(if neg then -(n as int) else n)
  }

  /** Unsigned text in the accepted form reads as the value of its digits. */
  lemma ParseIntOfGroups(u: string)
    requires DigitGroups(u)
    ensures ParseInt(u) == Some(DigitsToNat(DigitsOf(u)))
  {
    assert u[0] != '-' && u[0] != '+';
  }

  /** A minus sign before text in the accepted form negates its value. */
  lemma ParseIntNegative(u: string)
    requires DigitGroups(u)
    ensures ParseInt("-" + u) == Some(-(DigitsToNat(DigitsOf(u)) as int))
  {
    assert ("-" + u)[0] == '-' && ("-" + u)[1..] == u;
  }

  lemma DigitsOfJoin(a: string, b: string)
    requires AllDigits(a) && AllDigits(b)
    ensures DigitsOf(a + "_" + b) == a + b
  {
    var u := "_" + b;
    assert a + "_" + b == a + u;
    DigitsOfAppend(a, u);
    DigitsOfDigits(a);
    DigitsOfDigits(b);
    assert u[0] == '_' && u[1..] == b;
  }

  /** int("1_0") == int("10"): an underscore between two runs of digits is
      read as nothing. */
  lemma ParseIntUnderscore(a: string, b: string)
    requires |a| > 0 && |b| > 0 && AllDigits(a) && AllDigits(b)
    ensures ParseInt(a + "_" + b) == ParseInt(a + b) == Some(DigitsToNat(a + b))
  {
    JoinedGroups(a, b);
    DigitsAreGroups(a + b);
    DigitsOfJoin(a, b);
    DigitsOfDigits(a + b);
    ParseIntOfGroups(a + "_" + b);
    ParseIntOfGroups(a + b);
  }

  /** int() refuses an underscore at either end or two in a row. */
  lemma ParseIntStrayUnderscore(a: string, b: string)
    requires AllDigits(a) && AllDigits(b)
    ensures ParseInt("_" + a) == None && ParseInt(a + "_") == None
    ensures ParseInt(a + "__" + b) == None
  {
    var s := a + "_";
    DigitGroupsIff(s);
    assert s[|s| - 1] == '_';
    var t := a + "__" + b;
    DigitGroupsIff(t);
    if |a| > 0 {
      assert t[0] == a[0] && t[|a|] == '_' && t[|a| + 1] == '_';
      assert s[0] == a[0];
    }
  }

  /** int(str(n)) == n */
  lemma ParseIntOfString(n: int)
    ensures ParseInt(IntToString(n)) == Some(n)
  {
    var u := NatToString(if n < 0 then -n else n);
    NatToStringRoundTrip(if n < 0 then -n else n);
    DigitsAreGroups(u);
    DigitsOfDigits(u);
    if n < 0 {
      ParseIntNegative(u);
    } else {
      ParseIntOfGroups(u);
    }
  }

  /** Exactly `w` digits holding `f mod 10^w`, most significant first. */
  function FixedDigits(f: nat, w: nat): (r: string)
    ensures |r| == w && AllDigits(r)
  {
    if w == 0 then [] else FixedDigits(f / 10, w - 1) + [DigitChar(f % 10)]
  }

  lemma {:induction false} FixedDigitsValue(f: nat, w: nat)
    ensures DigitsToNat(FixedDigits(f, w)) == f % Pow10(w)
  {
    if w > 0 {
      var r := FixedDigits(f, w);
      FixedDigitsValue(f / 10, w - 1);
      assert r[..|r| - 1] == FixedDigits(f / 10, w - 1);
      ModSplit(f, Pow10(w - 1));
    }
  }

  /** (f / 10) % p * 10 + f % 10 == f % (10 * p) */
  lemma ModSplit(f: nat, p: nat)
    requires p >= 1
    ensures (f / 10) % p * 10 + f % 10 == f % (10 * p)
  {
    var q := f / 10;
    var a := q / p;
    assert q == a * p + q % p;
    assert f == (a * p + q % p) * 10 + f % 10;
    assert f == a * (10 * p) + ((q % p) * 10 + f % 10);
    assert 0 <= (q % p) * 10 + f % 10 < 10 * p;
    DivModUnique(f, 10 * p, a, (q % p) * 10 + f % 10);
  }

  lemma DivModUnique(f: int, d: int, q: int, r: int)
    requires d > 0 && 0 <= r < d && f == q * d + r
    ensures f % d == r && f / d == q
  {
    var q0, r0 := f / d, f % d;
    assert (q - q0) * d == r0 - r;
    if q > q0 {
      MulAtLeast(q - q0, d);
    } else if q < q0 {
      MulAtLeast(q0 - q, d);
    }
  }

  lemma MulAtLeast(x: int, d: int)
    requires x >= 1 && d > 0
    ensures x * d >= d
  {
    assert x * d == d + (x - 1) * d;
  }

  const Scale: nat := 1_000_000_000

  function AbsReal(r: real): (a: real)
    ensures a >= 0.0 && (a == r || a == -r)
  {
    if r < 0.0 then -r else r
  }

  /** |r| * 10^9 rounded half up to an integer. */
  function ScaledMagnitude(r: real): nat {
    (AbsReal(r) * Scale as real + 0.5).Floor as nat
  }

  /** f"{r:.9f}": a minus sign when r is negative, the integer part, a point
      and exactly nine fractional digits. */
  function Fixed9(r: real): string {
    var m := ScaledMagnitude(r);
    (if r < 0.0 then "-" else "") + NatToString(m / Scale) + "." + FixedDigits(m % Scale, 9)
  }

  /** The value Fixed9(r) denotes: r rounded to nine decimals. */
  function Round9(r: real): real {
    var m := ScaledMagnitude(r) as real / Scale as real;
    if r < 0.0 then -m else m
  }

  /** float(s) for text matching `-?\d+\.\d+`; None for anything else. */
  function ParseDecimal(s: string): Option<real> {
    if |s| > 0 && s[0] == '-' then
      match ParseUnsignedDecimal(s[1..])
      case Some(v) => Some(-v)
      case None => None
    else ParseUnsignedDecimal(s)
  }

  /** float(s) for text matching `\d+\.\d+`. */
  function ParseUnsignedDecimal(u: string): Option<real> {
    var n := DigitRun(u);
    if n == 0 || n + 1 >= |u| || u[n] != '.' || !AllDigits(u[n + 1..]) then None
    else Some(DecimalValue(u[..n], u[n + 1..]))
  }

  /** The value of the decimal numeral `a.b`. */
  function DecimalValue(a: string, b: string): real
    requires AllDigits(a) && AllDigits(b)
  {
    DigitsToNat(a) as real + DigitsToNat(b) as real / Pow10(|b|) as real
  }

  /** How ParseDecimal reads unsigned text `a.b`. */
  lemma ParseUnsigned(a: string, b: string)
    requires |a| > 0 && |b| > 0 && AllDigits(a) && AllDigits(b)
    ensures ParseUnsignedDecimal(a + "." + b) == Some(DecimalValue(a, b))
    ensures ParseDecimal(a + "." + b) == Some(DecimalValue(a, b))
  {
    var u := a + "." + b;
    DigitRunAfterDigits(a, "." + b);
    assert u == a + ("." + b);
    assert u[0] == a[0];
    assert u[..|a|] == a;
    assert u[|a| + 1..] == b;
  }

  /** How ParseDecimal reads signed text `-a.b`. */
  lemma ParseNegative(a: string, b: string)
    requires |a| > 0 && |b| > 0 && AllDigits(a) && AllDigits(b)
    ensures ParseDecimal("-" + (a + "." + b)) == Some(-DecimalValue(a, b))
  {
    ParseUnsigned(a, b);
    assert ("-" + (a + "." + b))[1..] == a + "." + b;
  }

  /** The digits Fixed9 writes for a scaled magnitude `m` denote m / 10^9. */
  lemma ScaledDigitsValue(m: nat)
    ensures DecimalValue(NatToString(m / Scale), FixedDigits(m % Scale, 9)) == m as real / Scale as real
  {
    var q, f := m / Scale, m % Scale;
    NatToStringRoundTrip(q);
    FixedDigitsValue(f, 9);
    assert Pow10(9) == Scale;
    DivModUnique(f, Scale, 0, f);
    assert m == q * Scale + f;
    assert (q * Scale + f) as real == q as real * Scale as real + f as real;
  }

  /** The nine-decimal rendering reads back as the value rounded to nine decimals. */
  lemma Fixed9RoundTrip(r: real)
    ensures ParseDecimal(Fixed9(r)) == Some(Round9(r))
  {
    if r < 0.0 {
      Fixed9RoundTripNegative(r);
    } else {
      Fixed9RoundTripNonNegative(r);
    }
  }

  lemma Fixed9RoundTripNegative(r: real)
    requires r < 0.0
    ensures ParseDecimal(Fixed9(r)) == Some(Round9(r))
  {
    var m := ScaledMagnitude(r);
    var a, b := NatToString(m / Scale), FixedDigits(m % Scale, 9);
    var v := m as real / Scale as real;
    Fixed9Shape(r);
    ScaledDigitsValue(m);
    assert DecimalValue(a, b) == v;
    ParseNegative(a, b);
    assert Fixed9(r) == "-" + (a + "." + b) && Round9(r) == -v;
  }

  lemma Fixed9RoundTripNonNegative(r: real)
    requires r >= 0.0
    ensures ParseDecimal(Fixed9(r)) == Some(Round9(r))
  {
    var m := ScaledMagnitude(r);
    var a, b := NatToString(m / Scale), FixedDigits(m % Scale, 9);
    var v := m as real / Scale as real;
    Fixed9Shape(r);
    ScaledDigitsValue(m);
    assert DecimalValue(a, b) == v;
    ParseUnsigned(a, b);
    assert Fixed9(r) == a + "." + b && Round9(r) == v;
  }

  /** Fixed9(r) spelled out: sign, integer digits, point, nine digits. */
  lemma Fixed9Shape(r: real)
    ensures var m := ScaledMagnitude(r);
            var a, b := NatToString(m / Scale), FixedDigits(m % Scale, 9);
            && Fixed9(r) == (if r < 0.0 then "-" + (a + "." + b) else a + "." + b)
            && Round9(r) == (if r < 0.0 then -(m as real / Scale as real) else m as real / Scale as real)
  {
  }

  /** f"{n:2d}": right-aligned in a field of width two. */
  function Pad2(s: string): (r: string)
    ensures |r| == if |s| < 2 then 2 else |s|
    ensures r[|r| - |s|..] == s
    ensures forall k :: 0 <= k < |r| - |s| ==> r[k] == ' '
  {
    if |s| == 0 then "  " else if |s| == 1 then " " + s else s
  }
}
