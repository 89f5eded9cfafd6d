/** DashboardClient.tsx: the week's per-macro cards. The totals come from
    `Compliance.Aggregate` (the screen's `agg`), and each card shows the
    deviation as a percentage, the rounded totals and the status badge. */
module Dashboard {
  import opened Types
  import Js
  import Format
  import opened Compliance

  /** What one `Metric` card shows. */
  datatype MetricView = MetricView(
    labelText: string,
    value: string,
    sub: string,
    badgeTone: Format.Tone,
    badgeText: string)

  /** `Metric({ label, pctOffValue, advised, actual })` for a macro's totals. */
  function Metric(labelText: string, t: MacroTotal): (v: MetricView)
    ensures v.labelText == labelText
    ensures v.value == Format.Pct(t.pct)
    ensures v.value == "—" <==> t.pct.None?
    ensures v.badgeText == Format.StatusFromPctOff(t.pct).text
    ensures v.badgeText == "—" <==> t.pct.None?
    ensures v.badgeTone == Format.StatusFromPctOff(t.pct).tone
    ensures v.sub == Js.RoundToString(t.actual) + "g actual • " + Js.RoundToString(t.advised) + "g advised"
  {
    var s := Format.StatusFromPctOff(t.pct);
    MetricView(
      labelText,
      Format.Pct(t.pct),
      Js.RoundToString(t.actual) + "g actual • " + Js.RoundToString(t.advised) + "g advised",
      s.tone,
      s.text)
  }

  /** A card of the week's totals shows "—" for the deviation and for the badge
      exactly when the macro's advised or actual total is 0, and "ON TARGET"
      exactly when both are non-zero and the actual total is within 10% of the
      advised one. */
  lemma MetricOfWeek(labelText: string, logs: seq<FuelLog>, m: Macro)
    ensures var t := Aggregate(logs).Of(m);
      var v := Metric(labelText, t);
      && (v.value == "—" <==> t.advised == 0.0 || t.actual == 0.0)
      && (v.badgeText == "—" <==> t.advised == 0.0 || t.actual == 0.0)
      && (v.badgeText == "ON TARGET" <==>
            t.advised != 0.0 && t.actual != 0.0
            && Js.Abs(t.actual - t.advised) <= 0.10 * Js.Abs(t.advised))
  {
    var t := Aggregate(logs).Of(m);
    assert t == Summarize(logs, m);
    TotalsStatus(logs, m);
  }

  /** With no logs every card reads "—", "0g actual • 0g advised" and an
      unknown badge. */
  lemma MetricOfEmptyWeek(labelText: string, m: Macro)
    ensures Metric(labelText, Aggregate([]).Of(m))
      == MetricView(labelText, "—", "0g actual • 0g advised", Format.Warn, "—")
  {
    assert Aggregate([]).Of(m) == MacroTotal(0.0, 0.0, None) by {
      AggregateEmpty();
    }
    MetricOfZeroTotals(labelText);
  }

  lemma MetricOfZeroTotals(labelText: string)
    ensures Metric(labelText, MacroTotal(0.0, 0.0, None))
      == MetricView(labelText, "—", "0g actual • 0g advised", Format.Warn, "—")
  {
    var v := Metric(labelText, MacroTotal(0.0, 0.0, None));
    Js.RoundToStringZero();
    assert v.sub == "0g actual • 0g advised" by {
      assert v.sub == "0" + "g actual • " + "0" + "g advised";
    }
    assert v.badgeTone == Format.Warn && v.badgeText == "—" && v.value == "—";
  }
}
