/** WeeklyReportClient.tsx: the summary table of a player's game week. Its
    `totals` are `Compliance.Aggregate` of the week's logs (the same rules as
    the Dashboard's `agg`), and each row shows the rounded totals, the
    deviation and the status badge. */
module WeeklyReport {
  import opened Types
  import Js
  import Format
  import opened Compliance

  /** What one `SummaryRow` shows. */
  datatype SummaryRowView = SummaryRowView(
    labelText: string,
    advised: string,
    actual: string,
    percent: string,
    badgeTone: Format.Tone,
    badgeText: string)

  /** `SummaryRow({ label, advised, actual, pctOffValue })` for a macro's totals. */
  function SummaryRow(labelText: string, t: MacroTotal): (v: SummaryRowView)
    ensures v.labelText == labelText
    ensures v.percent == Format.Pct(t.pct)
    ensures v.percent == "—" <==> t.pct.None?
    ensures v.badgeText == Format.StatusFromPctOff(t.pct).text
    ensures v.badgeText == "—" <==> t.pct.None?
    ensures v.badgeTone == Format.StatusFromPctOff(t.pct).tone
    ensures v.advised == Js.RoundToString(t.advised) + "g"
    ensures v.actual == Js.RoundToString(t.actual) + "g"
  {
    var s := Format.StatusFromPctOff(t.pct);
    SummaryRowView(
      labelText,
      Js.RoundToString(t.advised) + "g",
      Js.RoundToString(t.actual) + "g",
      Format.Pct(t.pct),
      s.tone,
      s.text)
  }

  /** The grams a row shows read back as the rounded totals. */
  lemma SummaryRowGrams(labelText: string, t: MacroTotal)
    requires Js.Abs(Js.Round(t.advised) as real) < Js.PlainBound
    requires Js.Abs(Js.Round(t.actual) as real) < Js.PlainBound
    ensures var v := SummaryRow(labelText, t);
      && Js.ToNumber(v.advised[..|v.advised| - 1]) == Js.Finite(Js.Round(t.advised) as real)
      && Js.ToNumber(v.actual[..|v.actual| - 1]) == Js.Finite(Js.Round(t.actual) as real)
  {
    var v := SummaryRow(labelText, t);
    var a := Js.RoundToString(t.advised);
    var x := Js.RoundToString(t.actual);
    assert v.advised[..|v.advised| - 1] == a by {
      assert (a + "g")[..|a|] == a;
    }
    assert v.actual[..|v.actual| - 1] == x by {
      assert (x + "g")[..|x|] == x;
    }
    Js.ReadRoundToString(t.advised);
    Js.ReadRoundToString(t.actual);
  }

  /** With no logs, every row shows "0g", "0g", "—" for the deviation and the
      unknown badge. */
  lemma EmptyWeekRows(labelText: string, m: Macro)
    ensures SummaryRow(labelText, Aggregate([]).Of(m))
      == SummaryRowView(labelText, "0g", "0g", "—", Format.Warn, "—")
  {
    var t := Aggregate([]).Of(m);
    assert t == MacroTotal(0.0, 0.0, None) by {
      AggregateEmpty();
    }
    Js.RoundToStringZero();
  }
}
