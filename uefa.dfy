/** UefaClient.tsx: the reference table of the governing body's g/kg guidance,
    converted to grams for the selected player's body mass. */
module Uefa {
  import opened Types
  import Js
  import Format

  /** A guidance row: a g/kg value or range, either end possibly missing. */
  datatype Guidance = Guidance(
    id: int,
    labelText: string,
    gPerKgLow: Option<real>,
    gPerKgHigh: Option<real>,
    notes: Option<string>)

  // ---------------------------------------------------------------------------
  // The selected player
  // ---------------------------------------------------------------------------

  /** The position of the first player with the given id, `|players|` when none has it. */
  function FindIndex(players: seq<Player>, id: string): (i: nat)
    ensures i <= |players|
    ensures forall j :: 0 <= j < i ==> players[j].id != id
    ensures i < |players| ==> players[i].id == id
  {
    if players == [] then 0
    else if players[0].id == id then 0
    else 1 + FindIndex(players[1..], id)
  }

  /** The first player with the given id, or null when there is none. */
  function FindPlayer(players: seq<Player>, id: string): (r: Option<Player>)
    ensures r.None? <==> forall j :: 0 <= j < |players| ==> players[j].id != id
    ensures r.Some? ==> r.value.id == id
    ensures r.Some? ==>
      exists i :: 0 <= i < |players| && players[i] == r.value && (forall j :: 0 <= j < i ==> players[j].id != id)
  {
    var i := FindIndex(players, id);
    if i < |players| then Some(players[i]) else None
  }

  /** The body mass of the selected player, or null when no player is selected. */
  function BodyMassKg(player: Option<Player>): (kg: Option<real>)
    ensures kg.None? <==> player.None?
    ensures kg.Some? ==> kg.value == player.value.bodyMassKg
  {
    match player
    case None => None
    case Some(p) => Some(p.bodyMassKg)
  }

  /** The body-mass line: the player's mass, or "—" without a player, then " kg". */
  function BodyMassText(player: Option<Player>): (s: string)
    ensures player.None? <==> s == "— kg"
    ensures player.Some? ==> s == Js.NumberToString(player.value.bodyMassKg) + " kg"
  {
    match player
    case None => "— kg"
    case Some(p) =>
      var m := Js.NumberToString(p.bodyMassKg);
      Js.NumberToStringChars(p.bodyMassKg);
      assert (m + " kg")[0] == m[0];
      m + " kg"
  }

  // ---------------------------------------------------------------------------
  // g/kg to grams
  // ---------------------------------------------------------------------------

  /** `grams(v, kg)`: no value when either is missing, otherwise `v * kg`
      rounded to an integer by `Math.round`. */
  function Grams(v: Option<real>, kg: Option<real>): (r: Option<int>)
    ensures r.None? <==> v.None? || kg.None?
    ensures r.Some? ==> r.value as real - 0.5 <= v.value * kg.value < r.value as real + 0.5
  {
    if v.None? || kg.None? then None else Some(Js.Round(v.value * kg.value))
  }

  /** The grams are an integer nearest the product, the larger of two equally near. */
  lemma GramsNearest(v: real, kg: real, n: int)
    ensures var g := Grams(Some(v), Some(kg)).value;
      && Js.Abs(g as real - v * kg) <= Js.Abs(n as real - v * kg)
      && (Js.Abs(g as real - v * kg) == Js.Abs(n as real - v * kg) ==> n <= g)
  {
    var y := v * kg;
    assert Grams(Some(v), Some(kg)).value == Js.Round(y);
    Js.RoundNearest(y, n);
  }

  /** The grams, when there are any, are below 10^21 and so are written in plain digits. */
  predicate PlainGrams(v: Option<real>, kg: Option<real>) {
    var g := Grams(v, kg);
    g.Some? ==> Js.Abs(g.value as real) < Js.PlainBound
  }

  function AsReal(n: Option<int>): Option<real> {
    match n
    case None => None
    case Some(k) => Some(k as real)
  }

  /** A number as a template literal writes it, or "—" when it is missing. */
  function NumberText(x: Option<real>): (s: string)
    ensures |s| > 0
    ensures s == "—" <==> x.None?
    ensures s[0] == '—' <==> x.None?
    ensures forall j :: 0 <= j < |s| ==> s[j] != '–'
  {
    match x
    case None => "—"
    case Some(v) =>
      Js.NumberToStringChars(v);
      Js.NumberToString(v)
  }

  /** The g/kg cell: the low end alone when there is no high end, otherwise
      "low–high", a missing low end shown as "—". */
  function GkgText(low: Option<real>, high: Option<real>): (s: string)
    ensures |s| > 0
    ensures s[0] == '—' <==> low.None?
    ensures high.None? ==> (s == "—" <==> low.None?)
    ensures '–' in s <==> high.Some?
  {
    if high.None? then NumberText(low)
    else
      var a := NumberText(low);
      var s := a + "–" + Js.NumberToString(high.value);
      assert s[0] == a[0];
      assert s[|a|] == '–';
      s
  }

  /** The grams cell: without a high end, "—" or the grams of the low end and
      "g"; with one, "lo–hi" and "g", each end "—" when it has no grams. */
  function GramsText(low: Option<real>, high: Option<real>, kg: Option<real>): (s: string)
    ensures |s| > 0
    ensures s == "—" <==> high.None? && Grams(low, kg).None?
    ensures '–' in s <==> high.Some?
  {
    var a := NumberText(AsReal(Grams(low, kg)));
    if high.None? then
      (if Grams(low, kg).None? then "—"
       else
         var s := a + "g";
         assert forall j :: 0 <= j < |s| ==> s[j] != '–' by {
           assert forall j :: 0 <= j < |a| ==> s[j] == a[j];
         }
         s)
    else
      var s := a + "–" + NumberText(AsReal(Grams(high, kg))) + "g";
      assert s[|a|] == '–';
      s
  }

  /** What one guidance row of the table shows. */
  datatype GuidanceRowView = GuidanceRowView(labelText: string, gkg: string, grams: string, notes: string)

  function GuidanceRow(g: Guidance, player: Option<Player>): (v: GuidanceRowView)
    ensures v.labelText == g.labelText && v.notes == g.notes.GetOr("")
    ensures v.gkg == GkgText(g.gPerKgLow, g.gPerKgHigh)
    ensures v.grams == GramsText(g.gPerKgLow, g.gPerKgHigh, BodyMassKg(player))
  {
    var kg := BodyMassKg(player);
    GuidanceRowView(g.labelText, GkgText(g.gPerKgLow, g.gPerKgHigh), GramsText(g.gPerKgLow, g.gPerKgHigh, kg),
                    g.notes.GetOr(""))
  }

  /** Without a selected player no row has grams: a single value shows "—" and
      a range shows "—–—g". */
  lemma NoPlayerGrams(g: Guidance)
    ensures GuidanceRow(g, None).grams == (if g.gPerKgHigh.None? then "—" else "—–—g")
  {
    assert BodyMassKg(None) == None;
    var d := NumberText(AsReal(Grams(g.gPerKgLow, None)));
    assert d == "—";
    if g.gPerKgHigh.Some? {
      assert NumberText(AsReal(Grams(g.gPerKgHigh, None))) == d;
      assert GramsText(g.gPerKgLow, g.gPerKgHigh, None) == d + "–" + d + "g";
      assert d + "–" + d + "g" == "—–—g";
    }
  }

  // ---------------------------------------------------------------------------
  // Reading the cells back
  // ---------------------------------------------------------------------------

  /** The text before and after the first "–". */
  function SplitAtDash(s: string): (string, string) {
    var i := Js.FirstIndex(s, {'–'});
    if i < |s| then (s[..i], s[i + 1..]) else (s, "")
  }

  lemma SplitAtDashOf(a: string, b: string)
    requires forall j :: 0 <= j < |a| ==> a[j] != '–'
    ensures SplitAtDash(a + "–" + b) == (a, b)
  {
    var s := a + "–" + b;
    forall j | 0 <= j < |a| ensures s[j] !in {'–'} {
      assert s[j] == a[j];
    }
    assert s[|a|] == '–';
    assert s[..|a|] == a;
    assert s[|a| + 1..] == b;
  }

  /** A value the model writes exactly in plain notation: at most 16 fractional
      digits and below 10^21. Below 10^-6 the page writes exponent notation
      instead, which reads back the same way. */
  predicate Representable(x: Option<real>) {
    x.Some? ==> Js.IsDecimal16(x.value) && Js.Abs(x.value) < Js.PlainBound
  }

  /** Missing values, whole numbers and short decimals are all written exactly. */
  lemma RepresentableWitness()
    ensures Representable(None) && Representable(Some(0.0)) && Representable(Some(2.5))
  {
    Js.ScaledInteger(0, 16);
    var p := Js.Pow10(15);
    assert Js.Pow10(16) == 10 * p;
    assert Js.Scaled(2.5, 16) == (25 * p) as real;
  }

  lemma DashIsNotANumber()
    ensures Format.SafeNum("—") == None
  {
    assert Format.CannotStartNumber("—"[0]);
    Format.SafeNumOfWord("—");
  }

  /** What `NumberText` shows parses back, through `safeNum`, to `x`. */
  lemma NumberTextReadsBack(x: Option<real>)
    requires Representable(x)
    ensures Format.SafeNum(NumberText(x)) == x
  {
    if x.Some? {
      Format.SafeNumOfRendered(x.value);
    } else {
      DashIsNotANumber();
    }
  }

  /** The g/kg cell gives back both ends of the guidance. */
  lemma GkgTextReadsBack(low: Option<real>, high: Option<real>)
    requires Representable(low) && Representable(high)
    ensures high.None? ==> Format.SafeNum(GkgText(low, high)) == low
    ensures high.Some? ==> var parts := SplitAtDash(GkgText(low, high));
      Format.SafeNum(parts.0) == low && Format.SafeNum(parts.1) == high
    ensures low.None? && high.None? ==> GkgText(low, high) == "—"
    ensures high.Some? ==> (SplitAtDash(GkgText(low, high)).0 == "—" <==> low.None?)
  {
    NumberTextReadsBack(low);
    if high.Some? {
      assert Js.NumberToString(high.value) == NumberText(high);
      SplitAtDashOf(NumberText(low), NumberText(high));
      NumberTextReadsBack(high);
    }
  }

  lemma RoundedRepresentable(v: Option<real>, kg: Option<real>)
    requires PlainGrams(v, kg)
    ensures Representable(AsReal(Grams(v, kg)))
  {
    var r := Grams(v, kg);
    if r.Some? {
      Js.ScaledInteger(r.value, 16);
    }
  }

  /** The grams cell of a single value: "—" exactly when it has no grams,
      otherwise the grams followed by "g". */
  lemma GramsTextSingle(low: Option<real>, kg: Option<real>)
    requires PlainGrams(low, kg)
    ensures var s := GramsText(low, None, kg);
      && |s| > 0
      && (s == "—" <==> Grams(low, kg).None?)
      && (Grams(low, kg).Some? ==> Format.SafeNum(s[..|s| - 1]) == AsReal(Grams(low, kg)))
  {
    RoundedRepresentable(low, kg);
    var lo := Grams(low, kg);
    if lo.Some? {
      assert GramsText(low, None, kg) == NumberText(AsReal(lo)) + "g";
      UnitTextReadsBack(AsReal(lo));
    }
  }

  lemma UnitTextReadsBack(x: Option<real>)
    requires Representable(x) && x.Some?
    ensures var s := NumberText(x) + "g";
      s != "—" && Format.SafeNum(s[..|s| - 1]) == x
  {
    var t := NumberText(x);
    assert (t + "g")[..|t|] == t;
    assert (t + "g")[|t|] == 'g';
    NumberTextReadsBack(x);
  }

  /** The grams cell of a range gives back the grams of both ends. */
  lemma GramsTextRange(low: Option<real>, high: real, kg: Option<real>)
    requires PlainGrams(low, kg)
    requires PlainGrams(Some(high), kg)
    ensures var s := GramsText(low, Some(high), kg);
      && |s| > 0
      && var parts := SplitAtDash(s[..|s| - 1]);
      && Format.SafeNum(parts.0) == AsReal(Grams(low, kg))
      && Format.SafeNum(parts.1) == AsReal(Grams(Some(high), kg))
      && (parts.0 == "—" <==> Grams(low, kg).None?)
      && (parts.1 == "—" <==> Grams(Some(high), kg).None?)
  {
    RoundedRepresentable(low, kg);
    RoundedRepresentable(Some(high), kg);
    var lo := AsReal(Grams(low, kg));
    var hi := AsReal(Grams(Some(high), kg));
    assert GramsText(low, Some(high), kg) == NumberText(lo) + "–" + NumberText(hi) + "g";
    RangeTextReadsBack(lo, hi);
  }

  lemma RangeTextReadsBack(lo: Option<real>, hi: Option<real>)
    requires Representable(lo) && Representable(hi)
    ensures var s := NumberText(lo) + "–" + NumberText(hi) + "g";
      var parts := SplitAtDash(s[..|s| - 1]);
      && parts == (NumberText(lo), NumberText(hi))
      && Format.SafeNum(parts.0) == lo && Format.SafeNum(parts.1) == hi
  {
    var a := NumberText(lo);
    var b := NumberText(hi);
    assert (a + "–" + b + "g")[..|a + "–" + b|] == a + "–" + b;
    SplitAtDashOf(a, b);
    NumberTextReadsBack(lo);
    NumberTextReadsBack(hi);
  }
}
