/** format.ts: the percentage text, the compliance status of a signed deviation,
    and the parsing of a numeric form field. */
module Format {
  import opened Types
  import Js

  /** `pct(n)`: "—" when there is no value, otherwise `n * 100` written with
      `toFixed(0)` and a `%` sign. */
  function Pct(n: Option<real>): (s: string)
    ensures n.None? <==> s == "—"
    ensures n.Some? ==> |s| >= 2 && s[|s| - 1] == '%'
  {
    match n
    case None => "—"
    case Some(x) => Js.ToFixed0(Percentage(x)) + "%"
  }

  /** The fraction `x` as a percentage: a hundredth of it gives `x` back. */
  function Percentage(x: real): (p: real)
    ensures p / 100.0 == x
  {
    x * 100.0
  }

  /** What `pct` shows in front of the `%` sign reads back as the percentage
      rounded to the nearest integer (halves away from zero). */
  lemma PctReadsBack(x: real)
    requires Js.Abs(Percentage(x)) < Js.PlainBound
    ensures var s := Pct(Some(x));
      Js.ToNumber(s[..|s| - 1]) == Js.Finite(Js.ToFixed0Value(Percentage(x)) as real)
  {
    var s := Pct(Some(x));
    var t := Js.ToFixed0(Percentage(x));
    assert s[..|s| - 1] == t by {
      assert s == t + "%";
      assert (t + "%")[..|t|] == t;
    }
    Js.ReadToFixed0(Percentage(x));
  }

  /** The same digits typed into a form field come back through `safeNum` as
      that rounded percentage: `toFixed` writes no surrounding white space. */
  lemma PctSafeNum(x: real)
    requires Js.Abs(Percentage(x)) < Js.PlainBound
    ensures var s := Pct(Some(x));
      SafeNum(s[..|s| - 1]) == Some(Js.ToFixed0Value(Percentage(x)) as real)
  {
    var s := Pct(Some(x));
    var t := Js.ToFixed0(Percentage(x));
    PctReadsBack(x);
    assert s[..|s| - 1] == t by {
      assert s == t + "%";
      assert (t + "%")[..|t|] == t;
    }
    Js.ToFixed0Trimmed(Percentage(x));
  }

  /** A deviation just under zero is written with a minus sign. */
  lemma PctNegativeZero()
    ensures Pct(Some(-0.001)) == "-0%"
    ensures Pct(Some(0.001)) == "0%"
    ensures Pct(Some(-0.25)) == "-25%"
  {
    assert Js.Round(0.1) == 0;
    assert Js.Round(25.0) == 25;
    assert Js.NatToString(25) == Js.NatToString(2) + [Js.DigitChar(5)];
  }

  datatype Tone = Good | Warn | Bad

  datatype Status = Status(text: string, tone: Tone)

  /** How far a tone is from on target. */
  function Severity(t: Tone): nat {
    match t
    case Good => 0
    case Warn => 1
    case Bad => 2
  }

  /** `statusFromPctOff(p)`: unknown for a missing deviation; otherwise the tier
      of `|p|`: at most 10% is on target, at most 20% slightly off, beyond that
      more than 20% off. */
  function StatusFromPctOff(p: Option<real>): (s: Status)
    ensures p.None? ==> s == Status("—", Warn)
    ensures p.Some? ==> (s.tone == Good <==> Js.Abs(p.value) <= 0.10)
    ensures p.Some? ==> (s.tone == Warn <==> 0.10 < Js.Abs(p.value) <= 0.20)
    ensures p.Some? ==> (s.tone == Bad <==> 0.20 < Js.Abs(p.value))
    ensures p.Some? ==> s.text == TierLabel(s.tone)
  {
    match p
    case None => Status("—", Warn)
    case Some(x) =>
      var a := Js.Abs(x);
      if a <= 0.10 then Status("ON TARGET", Good)
      else if a <= 0.20 then Status("SLIGHTLY OFF", Warn)
      else Status(">20% OFF", Bad)
  }

  /** The label of each tier of a known deviation. */
  function TierLabel(t: Tone): string {
    match t
    case Good => "ON TARGET"
    case Warn => "SLIGHTLY OFF"
    case Bad => ">20% OFF"
  }

  /** Over and under target by the same fraction have the same status. */
  lemma StatusSignSymmetric(x: real)
    ensures StatusFromPctOff(Some(-x)) == StatusFromPctOff(Some(x))
  {
  }

  /** A larger deviation is never judged better. */
  lemma StatusMonotone(x: real, y: real)
    requires Js.Abs(x) <= Js.Abs(y)
    ensures Severity(StatusFromPctOff(Some(x)).tone) <= Severity(StatusFromPctOff(Some(y)).tone)
  {
  }

  /** The boundaries belong to the better tier. */
  lemma StatusBoundaries()
    ensures StatusFromPctOff(Some(0.10)).tone == Good
    ensures StatusFromPctOff(Some(-0.10)).tone == Good
    ensures StatusFromPctOff(Some(0.1000001)).tone == Warn
    ensures StatusFromPctOff(Some(0.20)).tone == Warn
    ensures StatusFromPctOff(Some(-0.20)).tone == Warn
    ensures StatusFromPctOff(Some(0.2000001)).tone == Bad
    ensures StatusFromPctOff(Some(0.0)) == Status("ON TARGET", Good)
  {
  }

  /** The unknown status shares its tone with "slightly off" but not its label,
      so it is never mistaken for any judged deviation. */
  lemma UnknownStatusDistinct(x: real)
    ensures StatusFromPctOff(None) != StatusFromPctOff(Some(x))
    ensures StatusFromPctOff(None).tone == Warn
  {
  }

  /** `safeNum(v)`: null for a blank field; otherwise `Number` of the trimmed
      text when that is finite, and null for text that is not a number or
      overflows to an infinity. */
  function SafeNum(v: string): (r: Option<real>)
    ensures Js.AllWhiteSpace(v) ==> r.None?
    ensures r.Some? <==> !Js.AllWhiteSpace(v) && Js.ToNumber(v).Finite?
    ensures r.Some? ==> Js.ToNumber(v) == Js.Finite(r.value)
    ensures r.Some? ==> -Js.OverflowBound < r.value < Js.OverflowBound
  {
    var t := Js.Trim(v);
    Js.ToNumberOfTrimmed(v);
    if t == [] then None
    else
      var n := Js.ToNumber(t);
      if Js.IsFinite(n) then Some(n.value) else None
  }

  /** Unlike `Number("")`, which is 0, a blank field gives no value. */
  lemma BlankIsNotZero(v: string)
    requires Js.AllWhiteSpace(v)
    ensures SafeNum(v) == None
    ensures Js.ToNumber(v) == Js.Finite(0.0)
  {
  }

  /** Parsing the trimmed text gives what parsing the text gives. */
  lemma SafeNumOfTrim(v: string)
    ensures SafeNum(Js.Trim(v)) == SafeNum(v)
  {
    Js.TrimIdempotent(v);
    Js.ToNumberOfTrimmed(v);
    Js.ToNumberOfTrimmed(Js.Trim(v));
  }

  /** A field of plain digits is stored as the number they spell. */
  lemma SafeNumOfDigits(d: string)
    requires |d| > 0 && Js.IsDigits(d, 10)
    requires (Js.DigitsValue(d, 10) as real) < Js.OverflowBound
    ensures SafeNum(d) == Some(Js.DigitsValue(d, 10) as real)
  {
    Js.ReadDigits(d);
    assert !Js.AllWhiteSpace(d) by {
      assert Js.DigitValue(d[0]) < 10;
      Js.DigitNotWhiteSpace(d[0]);
    }
  }

  /** A character no numeric literal begins with: not white space, not a decimal
      digit, not a sign, not `.` and not the `I` of `Infinity`. */
  predicate CannotStartNumber(c: char) {
    !Js.IsWhiteSpace(c) && !('0' <= c <= '9') && c != '.' && c != '+' && c != '-' && c != 'I'
  }

  /** A field that starts with such a character, a lower-case letter say, is not a number. */

  lemma SafeNumOfWord(v: string)
    requires v != [] && CannotStartNumber(v[0])
    ensures SafeNum(v) == None
  {
    var t := Js.Trim(v);
    LetterSurvivesTrim(v);
    assert Js.ToNumber(v) == Js.NaN by {
      WordIsNaN(t);
    }
  }

  lemma WordIsNaN(t: string)
    requires t != [] && CannotStartNumber(t[0])
    ensures Js.ParseNumericLiteral(t) == Js.NaN
  {
    assert Js.ParseNonDecimal(t) == None;
    assert Js.ParseUnsignedDecimal(t) == None by {
      LetterIsNotDecimal(t);
    }
    assert t != "Infinity" by {
      assert t[0] != "Infinity"[0];
    }
  }

  lemma LetterSurvivesTrim(v: string)
    requires v != [] && CannotStartNumber(v[0])
    ensures Js.Trim(v) != [] && Js.Trim(v)[0] == v[0]
  {
    assert !Js.IsWhiteSpace(v[0]);
    assert Js.TrimStart(v) == v;
    var r := Js.TrimEnd(v);
    assert r == Js.Trim(v) && r != [];
    assert r[0] == v[0];
  }

  lemma LetterIsNotDecimal(t: string)
    requires t != [] && CannotStartNumber(t[0])
    ensures Js.ParseUnsignedDecimal(t) == None
  {
    var e := Js.FirstIndex(t, {'e', 'E'});
    if e > 0 {
      var mantissa := t[..e];
      assert mantissa[0] == t[0];
      var d := Js.FirstIndex(mantissa, {'.'});
      assert d > 0;
      assert Js.DigitValue(mantissa[..d][0]) >= 10;
    }
  }

  /** Surrounding white space does not change the parsed value. */
  lemma SafeNumPadded(p: string, t: string, q: string)
    requires Js.AllWhiteSpace(p) && Js.AllWhiteSpace(q) && Js.Trimmed(t)
    ensures SafeNum(p + t + q) == SafeNum(t)
  {
    Js.TrimOfPadded(p, t, q);
    Js.TrimmedUnchanged(t);
  }

  /** A number as the page writes it parses back to itself. */
  lemma SafeNumOfRendered(x: real)
    requires Js.IsDecimal16(x) && Js.Abs(x) < Js.PlainBound
    ensures SafeNum(Js.NumberToString(x)) == Some(x)
  {
    var s := Js.NumberToString(x);
    Js.ReadNumberToString(x);
    Js.NumberToStringTrimmed(x);
  }
}
