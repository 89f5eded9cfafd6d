/** The JavaScript built-ins the compliance engine calls: `String.prototype.trim`,
    `Number(string)`, `Number.isFinite`, `Math.abs`, `Math.round`,
    `Number.prototype.toFixed(0)` and the rendering of a number in a template
    string. Numbers are exact reals; rounding to binary64 is not modelled, only
    the overflow of a parsed literal to an infinity. */
module Js {
  import opened Types

  // ---------------------------------------------------------------------------
  // String.prototype.trim
  // ---------------------------------------------------------------------------

  /** WhiteSpace and LineTerminator code points of ECMAScript: what `trim` strips. */
  predicate IsWhiteSpace(c: char) {
    || c == '\t' || c == '\n' || c == '\U{000B}' || c == '\U{000C}' || c == '\r'
    || c == ' ' || c == '\U{00A0}' || c == '\U{1680}'
    || ('\U{2000}' <= c <= '\U{200A}')
    || c == '\U{2028}' || c == '\U{2029}' || c == '\U{202F}' || c == '\U{205F}'
    || c == '\U{3000}' || c == '\U{FEFF}'
  }

  predicate AllWhiteSpace(s: string) {
    forall i :: 0 <= i < |s| ==> IsWhiteSpace(s[i])
  }

  /** True when `s` neither starts nor ends with white space. */
  predicate Trimmed(s: string) {
    s == [] || (!IsWhiteSpace(s[0]) && !IsWhiteSpace(s[|s| - 1]))
  }

  function TrimStart(s: string): (r: string)
    ensures |r| <= |s| && r == s[|s| - |r|..]
    ensures r == [] || !IsWhiteSpace(r[0])
    ensures AllWhiteSpace(s[..|s| - |r|])
  {
    if s != [] && IsWhiteSpace(s[0]) then TrimStart(s[1..]) else s
  }

  function TrimEnd(s: string): (r: string)
    ensures |r| <= |s| && r == s[..|r|]
    ensures r == [] || !IsWhiteSpace(r[|r| - 1])
    ensures AllWhiteSpace(s[|r|..])
  {
    if s != [] && IsWhiteSpace(s[|s| - 1]) then TrimEnd(s[..|s| - 1]) else s
  }

  /** `s.trim()`: `s` with white space removed from both ends. */
  function Trim(s: string): (r: string)
    ensures Trimmed(r)
    ensures r == [] <==> AllWhiteSpace(s)
    ensures |r| <= |s|
  {
    TrimBothEnds(s);
    TrimEnd(TrimStart(s))
  }

  lemma AllWhiteSpaceConcat(x: string, y: string)
    requires AllWhiteSpace(x) && AllWhiteSpace(y)
    ensures AllWhiteSpace(x + y)
  {
    forall i | 0 <= i < |x + y| ensures IsWhiteSpace((x + y)[i]) {
      if i < |x| { assert (x + y)[i] == x[i]; } else { assert (x + y)[i] == y[i - |x|]; }
    }
  }

  lemma TrimBothEnds(s: string)
    ensures Trimmed(TrimEnd(TrimStart(s)))
    ensures TrimEnd(TrimStart(s)) == [] <==> AllWhiteSpace(s)
    ensures |TrimEnd(TrimStart(s))| <= |s|
  {
    var a := TrimStart(s);
    TrimEndKeepsStart(a);
    if TrimEnd(a) == [] {
      TrimEndEmpty(a);
      TrimStartSplit(s);
      AllWhiteSpaceConcat(s[..|s| - |a|], a);
    }
    TrimStartOfBlank(s);
  }

  lemma TrimEndKeepsStart(a: string)
    requires a == [] || !IsWhiteSpace(a[0])
    ensures Trimmed(TrimEnd(a))
  {
    var r := TrimEnd(a);
    if r != [] { assert r[0] == a[0]; }
  }

  lemma TrimEndEmpty(a: string)
    requires TrimEnd(a) == []
    ensures AllWhiteSpace(a)
  {
    assert a[|TrimEnd(a)|..] == a;
  }

  lemma TrimStartSplit(s: string)
    ensures s == s[..|s| - |TrimStart(s)|] + TrimStart(s)
  {
  }

  lemma TrimStartOfBlank(s: string)
    ensures AllWhiteSpace(s) ==> TrimStart(s) == []
  {
    var a := TrimStart(s);
    if a != [] { assert a[0] == s[|s| - |a|]; }
  }

  lemma {:induction false} TrimStartOfPadded(p: string, u: string)
    requires AllWhiteSpace(p)
    requires u == [] || !IsWhiteSpace(u[0])
    ensures TrimStart(p + u) == u
  {
    if p != [] {
      assert (p + u)[1..] == p[1..] + u;
      TrimStartOfPadded(p[1..], u);
    } else {
      assert p + u == u;
    }
  }

  lemma {:induction false} TrimEndOfPadded(u: string, q: string)
    requires AllWhiteSpace(q)
    requires u == [] || !IsWhiteSpace(u[|u| - 1])
    ensures TrimEnd(u + q) == u
  {
    if q != [] {
      assert (u + q)[..|u + q| - 1] == u + q[..|q| - 1];
      TrimEndOfPadded(u, q[..|q| - 1]);
    } else {
      assert u + q == u;
    }
  }

  /** Trimming removes exactly the surrounding white space: a trimmed text
      padded on both sides with white space trims back to itself. */
  lemma TrimOfPadded(p: string, t: string, q: string)
    requires AllWhiteSpace(p) && AllWhiteSpace(q) && Trimmed(t)
    ensures Trim(p + t + q) == t
  {
    if t == [] {
      assert p + t + q == p + q;
      assert AllWhiteSpace(p + q) by {
        forall i | 0 <= i < |p + q| ensures IsWhiteSpace((p + q)[i]) {
          if i < |p| { assert (p + q)[i] == p[i]; } else { assert (p + q)[i] == q[i - |p|]; }
        }
      }
    } else {
      assert p + t + q == p + (t + q);
      TrimStartOfPadded(p, t + q);
      TrimEndOfPadded(t, q);
    }
  }

  /** A text without white space at either end is left as it is. */
  lemma TrimmedUnchanged(t: string)
    requires Trimmed(t)
    ensures Trim(t) == t
  {
    assert TrimStart(t) == t;
    assert TrimEnd(t) == t;
  }

  /** `trim` is idempotent. */
  lemma TrimIdempotent(s: string)
    ensures Trim(Trim(s)) == Trim(s)
  {
    TrimmedUnchanged(Trim(s));
  }

  // ---------------------------------------------------------------------------
  // Digit strings
  // ---------------------------------------------------------------------------

  function Pow(base: nat, n: nat): (r: nat)
    ensures base > 0 ==> r > 0
  {
    if n == 0 then 1 else base * Pow(base, n - 1)
  }

  function Pow10(n: nat): (r: nat)
    ensures r > 0
  {
    Pow(10, n)
  }

  /** The value of a digit character in bases up to 16, or 16 for any other character. */
  function DigitValue(c: char): (v: nat)
    ensures v <= 16
    ensures v < 10 <==> '0' <= c <= '9'
  {
    if '0' <= c <= '9' then (c as int - '0' as int)
    else if 'a' <= c <= 'f' then (c as int - 'a' as int) + 10
    else if 'A' <= c <= 'F' then (c as int - 'A' as int) + 10
    else 16
  }

  predicate IsDigits(d: string, base: nat) {
    forall i :: 0 <= i < |d| ==> DigitValue(d[i]) < base
  }

  /** The number a digit string denotes in the given base (most significant digit first). */
  function DigitsValue(d: string, base: nat): nat
    requires IsDigits(d, base)
  {
    if d == [] then 0
    else DigitsValue(d[..|d| - 1], base) * base + DigitValue(d[|d| - 1])
  }

  function DigitChar(v: nat): (c: char)
    requires v < 10
    ensures DigitValue(c) == v
  {
    ('0' as int + v) as char
  }

  /** Decimal digits of `n`, without leading zeros. */
  function NatToString(n: nat): (s: string)
    ensures |s| > 0 && IsDigits(s, 10)
    ensures DigitsValue(s, 10) == n
    decreases n
  {
    if n < 10 then [DigitChar(n)]
    else
      var p := NatToString(n / 10);
      var s := p + [DigitChar(n % 10)];
      assert s[..|s| - 1] == p;
      s
  }

  /** Exactly `k` decimal digits of `m`, zero-padded on the left. */
  function FixedDigits(m: nat, k: nat): (s: string)
    requires m < Pow10(k)
    ensures |s| == k && IsDigits(s, 10)
    ensures DigitsValue(s, 10) == m
  {
    if k == 0 then []
    else
      var p := FixedDigits(m / 10, k - 1);
      var s := p + [DigitChar(m % 10)];
      assert s[..|s| - 1] == p;
      s
  }

  // ---------------------------------------------------------------------------
  // Number(string) and Number.isFinite
  // ---------------------------------------------------------------------------

  /** A JavaScript number, with binary64 rounding abstracted to exact reals. */
  datatype Number = Finite(value: real) | PositiveInfinity | NegativeInfinity | NaN

  /** Literals at least this large in magnitude round to an infinity
      (2^1024 - 2^970, the largest finite binary64 plus half a unit in the last place). */
  const OverflowBound: real := 179769313486231580793728971405303415079934132710037826936173778980444968292764750946649017977587207096330286416692887910946555547851940402630657488671505820681908902000708383676273854845817711531764475730270069855571366959622842914819860834936475292719074168444365510704342711559699508093042880177904174497792.0

  /** From 10^21 upwards in magnitude, `toFixed` and the rendering of a number in a
      template literal switch to exponent notation; below it `toFixed` writes plain
      digits, and so does template text except for non-zero magnitudes below 10^-6. */
  const PlainBound: real := 1000000000000000000000.0

  /** Rounds an exact value to a number: finite below the overflow bound, an infinity above. */
  function FromReal(x: real): (n: Number)
    ensures n.Finite? <==> -OverflowBound < x < OverflowBound
    ensures n.Finite? ==> n.value == x
    ensures n.PositiveInfinity? <==> x >= OverflowBound
    ensures n.NegativeInfinity? <==> x <= -OverflowBound
  {
    if x >= OverflowBound then PositiveInfinity
    else if x <= -OverflowBound then NegativeInfinity
    else Finite(x)
  }

  /** `Number.isFinite(n)`: false exactly for NaN and the two infinities. */
  function IsFinite(n: Number): (b: bool)
    ensures b <==> !(n.NaN? || n.PositiveInfinity? || n.NegativeInfinity?)
  {
    n.Finite?
  }

  /** Index of the first character of `s` in `cs`, or `|s|` when there is none. */
  function FirstIndex(s: string, cs: set<char>): (i: nat)
    ensures i <= |s|
    ensures forall j :: 0 <= j < i ==> s[j] !in cs
    ensures i < |s| ==> s[i] in cs
  {
    if s == [] then 0
    else if s[0] in cs then 0
    else 1 + FirstIndex(s[1..], cs)
  }

  function Scale10(x: real, e: int): (r: real)
    ensures x >= 0.0 ==> r >= 0.0
  {
    if e >= 0 then x * Pow10(e) as real else x / Pow10(-e) as real
  }

  /** The value of `intDigits.fracDigits`. */
  function MantissaValue(intDigits: string, fracDigits: string): (r: real)
    requires IsDigits(intDigits, 10) && IsDigits(fracDigits, 10)
    ensures r >= 0.0
  {
    if fracDigits == [] then DigitsValue(intDigits, 10) as real
    else DigitsValue(intDigits, 10) as real
         + DigitsValue(fracDigits, 10) as real / Pow10(|fracDigits|) as real
  }

  /** A signed exponent after `e`/`E`: an optional sign and at least one digit. */
  function ParseExponent(s: string): (r: Option<int>)
    ensures r.Some? ==> s != []
  {
    if s != [] && (s[0] == '+' || s[0] == '-') then
      var d := s[1..];
      if d != [] && IsDigits(d, 10) then
        var v: int := DigitsValue(d, 10);
        Some(if s[0] == '-' then -v else v)
      else None
    else if s != [] && IsDigits(s, 10) then Some(DigitsValue(s, 10))
    else None
  }

  /** StrUnsignedDecimalLiteral (without `Infinity`): digits with at most one `.`,
      at least one digit, then an optional exponent. */
  function ParseUnsignedDecimal(s: string): (r: Option<real>)
    ensures r.Some? ==> r.value >= 0.0
  {
    var e := FirstIndex(s, {'e', 'E'});
    var mantissa := s[..e];
    var d := FirstIndex(mantissa, {'.'});
    var intDigits := mantissa[..d];
    var fracDigits := if d < |mantissa| then mantissa[d + 1..] else [];
    var exponent := if e < |s| then ParseExponent(s[e + 1..]) else Some(0);
    if IsDigits(intDigits, 10) && IsDigits(fracDigits, 10)
       && |intDigits| + |fracDigits| > 0 && exponent.Some? then
      Some(Scale10(MantissaValue(intDigits, fracDigits), exponent.value))
    else None
  }

  /** NonDecimalIntegerLiteral: `0x`, `0o` or `0b` (any case) and at least one digit in that base. */
  function ParseNonDecimal(s: string): (r: Option<nat>)
  {
    if |s| >= 3 && s[0] == '0' then
      var base := if s[1] in {'x', 'X'} then 16 else if s[1] in {'o', 'O'} then 8
                  else if s[1] in {'b', 'B'} then 2 else 0;
      if base != 0 && IsDigits(s[2..], base) then Some(DigitsValue(s[2..], base)) else None
    else None
  }

  /** StrDecimalLiteral: an optional sign, then `Infinity` or an unsigned decimal literal. */
  function ParseSignedDecimal(t: string): (n: Number)
    requires t != []
  {
    var negative := t[0] == '-';
    var body := if t[0] == '-' || t[0] == '+' then t[1..] else t;
    if body == "Infinity" then (if negative then NegativeInfinity else PositiveInfinity)
    else
      match ParseUnsignedDecimal(body)
      case None => NaN
      case Some(x) => FromReal(if negative then -x else x)
  }

  /** StringNumericLiteral without the surrounding white space. */
  function ParseNumericLiteral(t: string): (n: Number)
    requires t != []
    ensures n.Finite? ==> -OverflowBound < n.value < OverflowBound
  {
    var nd := ParseNonDecimal(t);
    if nd.Some? then FromReal(nd.value as real) else ParseSignedDecimal(t)
  }

  /** `Number(s)` on a string: white space is trimmed, an empty text is 0,
      a literal that does not parse is NaN, and a literal too large in magnitude
      is an infinity. */
  function ToNumber(s: string): (n: Number)
    ensures Trim(s) == [] ==> n == Finite(0.0)
    ensures n.Finite? ==> -OverflowBound < n.value < OverflowBound
  {
    var t := Trim(s);
    if t == [] then Finite(0.0) else ParseNumericLiteral(t)
  }

  // ---------------------------------------------------------------------------
  // Math.abs, Math.round, toFixed(0)
  // ---------------------------------------------------------------------------

  function Abs(x: real): (r: real)
    ensures r >= 0.0 && (r == x || r == -x)
  {
    if x < 0.0 then -x else x
  }

  /** `Math.round(x)`: the nearest integer, a half rounding towards +infinity. */
  function Round(x: real): (n: int)
    ensures n as real - 0.5 <= x < n as real + 0.5
  {
    (x + 0.5).Floor
  }

  /** The integer `x.toFixed(0)` denotes: the magnitude rounded to the nearest
      integer, a half rounding away from zero, and the sign of `x`. */
  function ToFixed0Value(x: real): (n: int)
    ensures Abs(n as real - x) <= 0.5
    ensures Abs(n as real - x) == 0.5 ==> Abs(n as real) > Abs(x)
  {
    if x < 0.0 then -Round(-x) else Round(x)
  }

  /** `x.toFixed(0)`: "-" for a negative `x` (so a small negative value gives "-0"),
      then the decimal digits of the rounded magnitude. */
  function ToFixed0(x: real): (s: string)
    ensures |s| > 0
    ensures s[0] == '-' <==> x < 0.0
  {
    var m := Round(Abs(x));
    assert m >= 0;
    var i := NatToString(m);
    assert DigitValue(i[0]) < 10;
    (if x < 0.0 then "-" else "") + i
  }

  // ---------------------------------------------------------------------------
  // Number to string (template interpolation)
  // ---------------------------------------------------------------------------

  predicate IsIntegral(x: real) {
    x.Floor as real == x
  }

  /** `f * 10^k` */
  function Scaled(f: real, k: nat): real {
    f * Pow10(k) as real
  }

  /** `f` has an exact decimal expansion with `k` fractional digits. */
  predicate ExactAt(f: real, k: nat) {
    IsIntegral(Scaled(f, k))
  }

  /** The number of fractional decimal digits `f` needs, searched from `k` up to 16. */
  function FractionScale(f: real, k: nat): (r: nat)
    requires k <= 16
    ensures k <= r <= 16
    ensures r < 16 ==> ExactAt(f, r)
    ensures forall j :: k <= j < r ==> !ExactAt(f, j)
    decreases 16 - k
  {
    if k == 16 then k
    else if ExactAt(f, k) then k
    else FractionScale(f, k + 1)
  }

  /** True when `x` has at most 16 fractional decimal digits: the values whose
      text this model renders exactly. */
  predicate IsDecimal16(x: real) {
    ExactAt(x, 16)
  }

  /** The fractional digits of `f` (0 <= f < 1) as plain notation shows them: none
      for 0, otherwise at most 16, the fewest that are exact when there are such
      (so the last one is never 0). For a value below 10^-6, `${x}` itself writes
      exponent notation instead, which this model does not produce. */
  function FractionDigits(f: real): (d: string)
    requires 0.0 <= f < 1.0
    ensures IsDigits(d, 10)
  {
    var k := FractionScale(f, 0);
    if k == 0 then [] else FixedDigits(ScaledDigits(f, k), k)
  }

  /** The integer part of `f * 10^k`, for `0 <= f < 1`: below `10^k`. */
  function ScaledDigits(f: real, k: nat): (m: nat)
    requires 0.0 <= f < 1.0
    ensures m < Pow10(k)
  {
    MulBelow(f, Pow10(k) as real);
    Scaled(f, k).Floor
  }

  lemma MulBelow(f: real, p: real)
    requires 0.0 <= f < 1.0 && p > 0.0
    ensures 0.0 <= f * p < p
  {
  }

  /** `-`, the integer digits `i` and, when `f` is not empty, `.` and `f`. */
  function DecimalText(negative: bool, i: string, f: string): string {
    (if negative then "-" else "") + i + (if f == [] then "" else "." + f)
  }

  /** `${x}` written in plain notation: sign, integer digits, and when the value is
      not integral a `.` and the fractional digits. This is the text JavaScript
      writes for magnitudes from 10^-6 up to 10^21, and for 0. */
  function NumberToString(x: real): (s: string)
    ensures |s| > 0
    ensures s[0] == '-' <==> x < 0.0
  {
    var a := Abs(x);
    var q := a.Floor;
    assert q >= 0;
    var i := NatToString(q);
    assert DigitValue(i[0]) < 10;
    DecimalText(x < 0.0, i, FractionDigits(a - q as real))
  }

  // ---------------------------------------------------------------------------
  // Reading rendered numbers back
  // ---------------------------------------------------------------------------

  lemma {:induction false} ParsePlainDecimal(i: string, f: string)
    requires |i| > 0 && IsDigits(i, 10) && IsDigits(f, 10)
    ensures ParseUnsignedDecimal(DecimalText(false, i, f)) == Some(MantissaValue(i, f))
  {
    var s := DecimalText(false, i, f);
    var x := MantissaValue(i, f);
    assert ParseUnsignedDecimal(s) == Some(Scale10(x, 0)) by {
      PlainDecimalLayout(i, f);
      var e := FirstIndex(s, {'e', 'E'});
      var mantissa := s[..e];
      assert mantissa == s;
      var d := FirstIndex(mantissa, {'.'});
      var fracDigits := if d < |mantissa| then mantissa[d + 1..] else [];
      assert mantissa[..d] == i;
      assert fracDigits == f;
    }
    Scale10Zero(x);
  }

  /** Where the exponent marker and the decimal point fall in a plain decimal text. */
  lemma PlainDecimalLayout(i: string, f: string)
    requires |i| > 0 && IsDigits(i, 10) && IsDigits(f, 10)
    ensures var s := DecimalText(false, i, f);
      && FirstIndex(s, {'e', 'E'}) == |s|
      && FirstIndex(s, {'.'}) == |i|
      && s[..|i|] == i
      && (if f == [] then |s| == |i| else s[|i| + 1..] == f)
  {
    var s := DecimalText(false, i, f);
    assert s == i + (if f == [] then "" else "." + f);
    forall j | 0 <= j < |s| ensures s[j] !in {'e', 'E'} && (j != |i| ==> '0' <= s[j] <= '9') {
      if j < |i| {
        assert s[j] == i[j];
      } else if j > |i| {
        assert s[j] == f[j - |i| - 1];
      }
    }
    if f != [] {
      assert s[|i|] == '.';
    }
  }

  lemma Scale10Zero(x: real)
    ensures Scale10(x, 0) == x
  {
    assert Pow10(0) == 1;
  }

  lemma DecimalTextShape(negative: bool, i: string, f: string)
    requires |i| > 0 && IsDigits(i, 10) && IsDigits(f, 10)
    ensures var u := DecimalText(false, i, f);
      && DecimalText(negative, i, f) == (if negative then "-" else "") + u
      && '0' <= u[0] <= '9' && '0' <= u[|u| - 1] <= '9'
      && (|u| > 1 ==> u[1] == '.' || '0' <= u[1] <= '9')
  {
    var u := DecimalText(false, i, f);
    assert u[0] == i[0];
    if f == [] {
      assert u == i;
    } else {
      assert u[|u| - 1] == f[|f| - 1];
      assert |i| == 1 ==> u[1] == '.';
    }
    assert |i| > 1 ==> u[1] == i[1];
  }

  lemma DigitNotWhiteSpace(c: char)
    requires '0' <= c <= '9'
    ensures !IsWhiteSpace(c)
  {
  }

  lemma DecimalTextTrimmed(negative: bool, i: string, f: string)
    requires |i| > 0 && IsDigits(i, 10) && IsDigits(f, 10)
    ensures Trim(DecimalText(negative, i, f)) == DecimalText(negative, i, f)
  {
    var t := DecimalText(negative, i, f);
    var u := DecimalText(false, i, f);
    DecimalTextShape(negative, i, f);
    assert t[0] == '-' || t[0] == u[0];
    assert t[|t| - 1] == u[|u| - 1];
    DigitNotWhiteSpace(u[0]);
    DigitNotWhiteSpace(u[|u| - 1]);
    TrimmedUnchanged(t);
  }

  lemma DecimalTextNotNonDecimal(negative: bool, i: string, f: string)
    requires |i| > 0 && IsDigits(i, 10) && IsDigits(f, 10)
    ensures ParseNonDecimal(DecimalText(negative, i, f)) == None
  {
    DecimalTextShape(negative, i, f);
  }

  lemma DecimalTextIsSigned(negative: bool, i: string, f: string)
    requires |i| > 0 && IsDigits(i, 10) && IsDigits(f, 10)
    ensures DecimalText(negative, i, f) != []
    ensures ToNumber(DecimalText(negative, i, f)) == ParseSignedDecimal(DecimalText(negative, i, f))
  {
    DecimalTextTrimmed(negative, i, f);
    DecimalTextNotNonDecimal(negative, i, f);
    assert DecimalText(negative, i, f) != [] by {
      assert |DecimalText(negative, i, f)| >= |i|;
    }
  }

  lemma SignedBody(negative: bool, i: string, f: string)
    requires |i| > 0 && IsDigits(i, 10) && IsDigits(f, 10)
    ensures ParseSignedDecimal(DecimalText(negative, i, f))
            == FromReal(if negative then -MantissaValue(i, f) else MantissaValue(i, f))
  {
    var t := DecimalText(negative, i, f);
    var u := DecimalText(false, i, f);
    DecimalTextShape(negative, i, f);
    ParsePlainDecimal(i, f);
    var body := if t[0] == '-' || t[0] == '+' then t[1..] else t;
    assert body == u;
    assert body != "Infinity" by { assert u[0] != 'I'; }
  }

  /** A signed plain decimal text is read by `Number` as the value it spells,
      rounded to an infinity only beyond the overflow bound. */
  lemma ReadDecimalText(negative: bool, i: string, f: string)
    requires |i| > 0 && IsDigits(i, 10) && IsDigits(f, 10)
    ensures ToNumber(DecimalText(negative, i, f))
            == FromReal(if negative then -MantissaValue(i, f) else MantissaValue(i, f))
  {
    DecimalTextIsSigned(negative, i, f);
    SignedBody(negative, i, f);
  }

  /** A nonempty digit string reads back as the number it denotes. */
  lemma ReadDigits(i: string)
    requires |i| > 0 && IsDigits(i, 10)
    ensures ToNumber(i) == FromReal(DigitsValue(i, 10) as real)
  {
    var t := DecimalText(false, i, []);
    assert t == "" + i + "";
    assert t == i;
    ReadDecimalText(false, i, []);
  }

  /** The text of a natural number reads back as that number. */
  lemma ReadNatToString(n: nat)
    ensures ToNumber(NatToString(n)) == FromReal(n as real)
  {
    ReadDigits(NatToString(n));
  }

  /** `Number(x.toFixed(0))` is the rounded value (`"-0"` reads as 0), for the
      magnitudes where `toFixed` writes plain digits. */
  lemma ReadToFixed0(x: real)
    requires Abs(x) < PlainBound
    ensures ToNumber(ToFixed0(x)) == Finite(ToFixed0Value(x) as real)
  {
    var m := Round(Abs(x));
    var i := NatToString(m);
    assert ToFixed0(x) == DecimalText(x < 0.0, i, []);
    ReadDecimalText(x < 0.0, i, []);
  }

  lemma ScaledDifference(a: real, b: real, k: nat)
    ensures Scaled(a - b, k) == Scaled(a, k) - Scaled(b, k)
  {
  }

  lemma ScaledNegation(a: real, k: nat)
    ensures Scaled(-a, k) == -Scaled(a, k)
  {
  }

  lemma ScaledInteger(n: int, k: nat)
    ensures Scaled(n as real, k) == (n * Pow10(k)) as real
  {
  }

  lemma ExactAtFraction(x: real, k: nat)
    requires ExactAt(x, k)
    ensures ExactAt(Abs(x) - Abs(x).Floor as real, k)
  {
    var N := Scaled(x, k).Floor;
    var n := Abs(x).Floor;
    var sN := if x < 0.0 then -N else N;
    assert Scaled(Abs(x), k) == sN as real by {
      if x < 0.0 { ScaledNegation(x, k); }
    }
    ScaledInteger(n, k);
    ScaledDifference(Abs(x), n as real, k);
    var z := sN - n * Pow10(k);
    assert Scaled(Abs(x) - n as real, k) == z as real;
    assert (z as real).Floor == z;
  }

  lemma Unscale(g: real, k: nat)
    ensures Scaled(g, k) / Pow10(k) as real == g
  {
  }

  /** The fractional digits of an exactly representable fraction spell that fraction. */
  lemma FractionDigitsValue(g: real)
    requires 0.0 <= g < 1.0 && ExactAt(g, 16)
    ensures MantissaValue("0", FractionDigits(g)) == g
  {
    var k := FractionScale(g, 0);
    assert ExactAt(g, k);
    assert DigitsValue("0", 10) == 0 by {
      assert "0"[..0] == [];
    }
    if k == 0 {
      assert Scaled(g, 0) == g;
    } else {
      FractionDigitsAt(g, k);
    }
  }

  lemma FractionDigitsAt(g: real, k: nat)
    requires 0.0 <= g < 1.0 && 0 < k <= 16 && ExactAt(g, k)
    requires DigitsValue("0", 10) == 0
    ensures MantissaValue("0", FixedDigits(ScaledDigits(g, k), k)) == g
  {
    var m := ScaledDigits(g, k);
    var f := FixedDigits(m, k);
    assert m as real == Scaled(g, k);
    Unscale(g, k);
  }

  lemma MantissaSplit(i: string, f: string)
    requires IsDigits(i, 10) && IsDigits(f, 10)
    ensures MantissaValue(i, f) == DigitsValue(i, 10) as real + MantissaValue("0", f)
  {
    assert DigitsValue("0", 10) == 0 by {
      assert "0"[..0] == [];
    }
  }

  /** `${x}` reads back through `Number` as `x` itself, for every value below
      10^21 in magnitude with at most 16 fractional decimal digits. */
  lemma ReadNumberToString(x: real)
    requires IsDecimal16(x) && Abs(x) < PlainBound
    ensures ToNumber(NumberToString(x)) == Finite(x)
  {
    var a := Abs(x);
    var q := a.Floor;
    var g := a - q as real;
    var i := NatToString(q);
    var f := FractionDigits(g);
    assert MantissaValue(i, f) == a by {
      ExactAtFraction(x, 16);
      FractionDigitsValue(g);
      MantissaSplit(i, f);
    }
    assert NumberToString(x) == DecimalText(x < 0.0, i, f);
    ReadSignedMagnitude(x, i, f);
  }

  lemma ReadSignedMagnitude(x: real, i: string, f: string)
    requires |i| > 0 && IsDigits(i, 10) && IsDigits(f, 10)
    requires MantissaValue(i, f) == Abs(x) && Abs(x) < OverflowBound
    ensures ToNumber(DecimalText(x < 0.0, i, f)) == Finite(x)
  {
    ReadDecimalText(x < 0.0, i, f);
  }

  /** A rendered number carries no surrounding white space. */
  lemma NumberToStringTrimmed(x: real)
    ensures Trim(NumberToString(x)) == NumberToString(x)
  {
    var a := Abs(x);
    var q := a.Floor;
    var i := NatToString(q);
    var f := FractionDigits(a - q as real);
    assert NumberToString(x) == DecimalText(x < 0.0, i, f);
    DecimalTextTrimmed(x < 0.0, i, f);
  }

  lemma ToFixed0Trimmed(x: real)
    ensures Trim(ToFixed0(x)) == ToFixed0(x)
  {
    var i := NatToString(Round(Abs(x)));
    assert ToFixed0(x) == DecimalText(x < 0.0, i, []);
    DecimalTextTrimmed(x < 0.0, i, []);
  }

  /** `Number` trims its argument itself, so trimming first changes nothing. */
  lemma ToNumberOfTrimmed(s: string)
    ensures ToNumber(Trim(s)) == ToNumber(s)
  {
    TrimIdempotent(s);
  }

  /** An integer is written without a fractional part. */
  lemma IntegerToString(n: int)
    ensures NumberToString(n as real)
      == DecimalText(n < 0, NatToString(if n < 0 then -n else n), [])
  {
    var m := if n < 0 then -n else n;
    assert Abs(n as real).Floor == m by {
      assert Abs(n as real) == m as real;
    }
    assert Abs(n as real) - m as real == 0.0 by {
      assert Abs(n as real) == m as real;
    }
    FractionDigitsZero();
  }

  lemma FractionDigitsZero()
    ensures FractionDigits(0.0) == []
  {
    assert ExactAt(0.0, 0);
  }

  /** `${Math.round(x)}` */
  function RoundToString(x: real): (s: string)
    ensures |s| > 0
    ensures s[0] == '-' <==> Round(x) < 0
  {
    NumberToString(Round(x) as real)
  }

  /** The text of a rounded number reads back as that integer. */
  lemma ReadRoundToString(x: real)
    requires Abs(Round(x) as real) < PlainBound
    ensures ToNumber(RoundToString(x)) == Finite(Round(x) as real)
  {
    var n := Round(x);
    ScaledInteger(n, 16);
    assert IsDecimal16(n as real);
    ReadNumberToString(n as real);
  }

  lemma RoundToStringZero()
    ensures RoundToString(0.0) == "0"
  {
    IntegerToString(0);
  }

  /** The characters a rendered number is made of. */
  predicate IsNumeralChar(c: char) {
    c == '-' || c == '.' || '0' <= c <= '9'
  }

  lemma DecimalTextChars(negative: bool, i: string, f: string)
    requires IsDigits(i, 10) && IsDigits(f, 10)
    ensures var t := DecimalText(negative, i, f);
      forall j :: 0 <= j < |t| ==> IsNumeralChar(t[j])
  {
    var t := DecimalText(negative, i, f);
    var p := if negative then "-" else "";
    var q := if f == [] then "" else "." + f;
    assert t == p + i + q;
    forall j | 0 <= j < |t| ensures IsNumeralChar(t[j]) {
      if j < |p| {
        assert t[j] == '-';
      } else if j < |p| + |i| {
        assert t[j] == i[j - |p|];
      } else if j == |p| + |i| {
        assert t[j] == '.';
      } else {
        assert t[j] == f[j - |p| - |i| - 1];
      }
    }
  }

  lemma NumberToStringChars(x: real)
    ensures var s := NumberToString(x);
      forall j :: 0 <= j < |s| ==> IsNumeralChar(s[j])
  {
    var a := Abs(x);
    var q := a.Floor;
    var i := NatToString(q);
    var f := FractionDigits(a - q as real);
    assert NumberToString(x) == DecimalText(x < 0.0, i, f);
    DecimalTextChars(x < 0.0, i, f);
  }

  /** `Math.round` gives an integer nearest to `x`, and of two equally near the larger. */
  lemma RoundNearest(x: real, n: int)
    ensures Abs(Round(x) as real - x) <= Abs(n as real - x)
    ensures Abs(Round(x) as real - x) == Abs(n as real - x) ==> n <= Round(x)
  {
  }
}
