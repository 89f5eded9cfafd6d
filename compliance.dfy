/** The macro-compliance rules the screens share: the signed deviation of an
    actual intake from its advice, the per-field sum over a week of fuel logs,
    the per-macro totals whose deviation treats a zero total as absent, and the
    colour of a log row. The Dashboard, Weekly Report and Fuel Log screens each
    carry a textually identical copy of these helpers; each is defined once here. */
module Compliance {
  import opened Types
  import Js
  import Format

  // ---------------------------------------------------------------------------
  // Deviation
  // ---------------------------------------------------------------------------

  /** `pctOff(actual, advised)`: the signed fraction by which `actual` misses
      `advised`; unknown when `advised` is absent or 0 or `actual` is absent. */
  function PctOff(actual: Option<real>, advised: Option<real>): (r: Option<real>)
    ensures r.None? <==> advised.None? || advised == Some(0.0) || actual.None?
    ensures r.Some? ==> r.value * advised.value == actual.value - advised.value
  {
    if advised.None? || advised.value == 0.0 || actual.None? then None
    else Some((actual.value - advised.value) / advised.value)
  }

  /** The deviation is the one number `p` with `actual == advised * (1 + p)`. */
  lemma PctOffUnique(actual: real, advised: real, p: real)
    requires advised != 0.0
    ensures PctOff(Some(actual), Some(advised)) == Some(p) <==> actual == advised * (1.0 + p)
  {
    var r := PctOff(Some(actual), Some(advised));
    if actual == advised * (1.0 + p) {
      assert r.value * advised == p * advised;
      MulCancel(r.value, p, advised);
    }
  }

  lemma MulCancel(x: real, y: real, c: real)
    requires c != 0.0 && x * c == y * c
    ensures x == y
  {
    assert (x - y) * c == 0.0;
  }

  /** The deviation does not depend on the unit: scaling both sides by the same
      non-zero factor leaves it unchanged. */
  lemma PctOffScaleInvariant(actual: real, advised: real, c: real)
    requires c != 0.0
    ensures PctOff(Some(c * actual), Some(c * advised)) == PctOff(Some(actual), Some(advised))
  {
    if advised != 0.0 {
      var p := PctOff(Some(actual), Some(advised)).value;
      assert c * actual == c * advised * (1.0 + p) by {
        PctOffUnique(actual, advised, p);
      }
      assert c * advised != 0.0;
      PctOffUnique(c * actual, c * advised, p);
    }
  }

  /** The size of the deviation in terms of grams: `|p| <= bound` exactly when
      the actual intake is within `bound` times the advice of the advice. */
  lemma PctOffWithin(actual: real, advised: real, bound: real)
    requires advised != 0.0 && bound >= 0.0
    ensures var p := PctOff(Some(actual), Some(advised)).value;
      Js.Abs(p) <= bound <==> Js.Abs(actual - advised) <= bound * Js.Abs(advised)
  {
    var p := PctOff(Some(actual), Some(advised)).value;
    AbsProduct(p, advised);
    MulMonotone(Js.Abs(p), bound, Js.Abs(advised));
  }

  lemma AbsProduct(x: real, y: real)
    ensures Js.Abs(x * y) == Js.Abs(x) * Js.Abs(y)
  {
    if x < 0.0 && y < 0.0 {
      assert x * y == (-x) * (-y);
    } else if x < 0.0 {
      assert -(x * y) == (-x) * y;
    } else if y < 0.0 {
      assert -(x * y) == x * (-y);
    }
  }

  lemma MulMonotone(x: real, y: real, c: real)
    requires c > 0.0
    ensures x <= y <==> x * c <= y * c
  {
    if x <= y {
      assert (y - x) * c >= 0.0;
    } else {
      assert (x - y) * c > 0.0;
    }
  }

  /** On target is 0; eating nothing of a non-zero advice is -100%; eating
      nothing of a zero advice is unknown. */
  lemma PctOffExamples()
    ensures PctOff(Some(100.0), Some(100.0)) == Some(0.0)
    ensures PctOff(Some(0.0), Some(100.0)) == Some(-1.0)
    ensures PctOff(Some(110.0), Some(100.0)) == Some(0.1)
    ensures PctOff(Some(50.0), Some(0.0)) == None
    ensures PctOff(None, Some(100.0)) == None
    ensures PctOff(Some(50.0), None) == None
  {
  }

  // ---------------------------------------------------------------------------
  // Summing a field over the logs
  // ---------------------------------------------------------------------------

  /** What one log adds to the sum of field `k`: its value of the field, coerced
      to a number, with a missing value counting as 0. */
  function Contribution(r: FuelLog, k: Field): (v: real)
    ensures FieldValue(r, k).None? ==> v == 0.0
    ensures FieldValue(r, k).Some? ==> v == FieldValue(r, k).value
  {
    FieldValue(r, k).GetOr(0.0)
  }

  /** The reference total of field `k`: the contributions added up, first log first. */
  function Total(logs: seq<FuelLog>, k: Field): real {
    if logs == [] then 0.0 else Contribution(logs[0], k) + Total(logs[1..], k)
  }

  /** The step of `reduce`: continue the running sum `acc` over `logs`, left to right. */
  function Fold(acc: real, logs: seq<FuelLog>, k: Field): (r: real)
    ensures r == acc + Total(logs, k)
    decreases |logs|
  {
    if logs == [] then acc else Fold(acc + Contribution(logs[0], k), logs[1..], k)
  }

  /** `sum(logs, k)`: a left fold from 0 that adds each log's contribution of
      field `k` in turn. It is the total of the field. */
  function Sum(logs: seq<FuelLog>, k: Field): (r: real)
    ensures r == Total(logs, k)
    ensures logs == [] ==> r == 0.0
  {
    Fold(0.0, logs, k)
  }

  lemma {:induction false} TotalAppend(xs: seq<FuelLog>, ys: seq<FuelLog>, k: Field)
    ensures Total(xs + ys, k) == Total(xs, k) + Total(ys, k)
    decreases |xs|
  {
    if xs == [] {
      assert xs + ys == ys;
    } else {
      assert (xs + ys)[1..] == xs[1..] + ys;
      TotalAppend(xs[1..], ys, k);
    }
  }

  /** The fold adds one log at a time: the sum of `xs` followed by `r` is the
      sum of `xs` plus what `r` contributes. */
  lemma SumSnoc(xs: seq<FuelLog>, r: FuelLog, k: Field)
    ensures Sum(xs + [r], k) == Sum(xs, k) + Contribution(r, k)
  {
    TotalAppend(xs, [r], k);
    assert [r][1..] == [];
  }

  /** The sum does not depend on the order of the logs: any rearrangement
      (same multiset of logs) has the same sum. */
  lemma {:induction false} SumPermutation(xs: seq<FuelLog>, ys: seq<FuelLog>, k: Field)
    requires multiset(xs) == multiset(ys)
    ensures Sum(xs, k) == Sum(ys, k)
    decreases |xs|
  {
    if xs != [] {
      assert xs[0] in multiset(ys);
      var j :| 0 <= j < |ys| && ys[j] == xs[0];
      MultisetRemove(xs, ys, j);
      SumPermutation(xs[1..], ys[..j] + ys[j + 1..], k);
      TotalRemove(ys, j, k);
    } else {
      assert |ys| == |multiset(ys)|;
    }
  }

  lemma MultisetRemove(xs: seq<FuelLog>, ys: seq<FuelLog>, j: nat)
    requires multiset(xs) == multiset(ys) && xs != [] && j < |ys| && ys[j] == xs[0]
    ensures multiset(xs[1..]) == multiset(ys[..j] + ys[j + 1..])
  {
    var x := xs[0];
    var rest := ys[..j] + ys[j + 1..];
    assert xs == [x] + xs[1..];
    assert multiset(xs) == multiset{x} + multiset(xs[1..]);
    assert ys == ys[..j] + [x] + ys[j + 1..];
    assert multiset(ys) == multiset(ys[..j]) + multiset{x} + multiset(ys[j + 1..]);
    assert multiset(rest) == multiset(ys[..j]) + multiset(ys[j + 1..]);
    assert multiset(xs[1..]) == multiset(xs) - multiset{x};
    assert multiset(rest) == multiset(ys) - multiset{x};
  }

  /** Taking out the log at `j` takes out exactly its contribution. */
  lemma TotalRemove(ys: seq<FuelLog>, j: nat, k: Field)
    requires j < |ys|
    ensures Total(ys, k) == Contribution(ys[j], k) + Total(ys[..j] + ys[j + 1..], k)
  {
    assert ys == ys[..j] + [ys[j]] + ys[j + 1..];
    TotalAppend(ys[..j] + [ys[j]], ys[j + 1..], k);
    TotalAppend(ys[..j], [ys[j]], k);
    TotalAppend(ys[..j], ys[j + 1..], k);
    assert [ys[j]][1..] == [];
  }

  /** The sum of field `k` reads only field `k`: logs that agree on it, one for
      one, have the same sum whatever their other fields hold. */
  lemma {:induction false} SumReadsOnlyField(xs: seq<FuelLog>, ys: seq<FuelLog>, k: Field)
    requires |xs| == |ys|
    requires forall i :: 0 <= i < |xs| ==> FieldValue(xs[i], k) == FieldValue(ys[i], k)
    ensures Sum(xs, k) == Sum(ys, k)
    decreases |xs|
  {
    if xs != [] {
      assert FieldValue(xs[0], k) == FieldValue(ys[0], k);
      SumReadsOnlyField(xs[1..], ys[1..], k);
    }
  }

  /** A missing value and an explicit 0 add the same to a sum. */
  lemma {:induction false} SumNullAsZero(xs: seq<FuelLog>, ys: seq<FuelLog>, k: Field)
    requires |xs| == |ys|
    requires forall i :: 0 <= i < |xs| ==>
      FieldValue(xs[i], k).GetOr(0.0) == FieldValue(ys[i], k).GetOr(0.0)
    ensures Sum(xs, k) == Sum(ys, k)
    decreases |xs|
  {
    if xs != [] {
      assert Contribution(xs[0], k) == Contribution(ys[0], k);
      SumNullAsZero(xs[1..], ys[1..], k);
    }
  }

  // ---------------------------------------------------------------------------
  // Per-macro totals
  // ---------------------------------------------------------------------------

  /** `x || null`: a zero total is treated as absent. */
  function OrNull(x: real): (r: Option<real>)
    ensures r.None? <==> x == 0.0
    ensures r.Some? ==> r.value == x
  {
    if x == 0.0 then None else Some(x)
  }

  /** `{ advised, actual, pct }` for one macro. */
  datatype MacroTotal = MacroTotal(advised: real, actual: real, pct: Option<real>)

  /** `{ cho, pro, fat }` */
  datatype WeekTotals = WeekTotals(cho: MacroTotal, pro: MacroTotal, fat: MacroTotal) {
    function Of(m: Macro): MacroTotal {
      match m
      case Cho => cho
      case Pro => pro
      case Fat => fat
    }
  }

  /** One macro's entry: the two sums, and the deviation of the actual total from
      the advised total with each total `|| null`. */
  function Summarize(logs: seq<FuelLog>, m: Macro): (t: MacroTotal)
    ensures t.advised == Total(logs, AdvisedField(m))
    ensures t.actual == Total(logs, ActualField(m))
    ensures t.pct.None? <==> t.advised == 0.0 || t.actual == 0.0
    ensures t.pct.Some? ==> t.pct.value * t.advised == t.actual - t.advised
  {
    var a := Sum(logs, AdvisedField(m));
    var x := Sum(logs, ActualField(m));
    MacroTotal(a, x, PctOff(OrNull(x), OrNull(a)))
  }

  /** Dashboard's `agg(logs)` and Weekly Report's `totals`, whose bodies are the
      same: the sums of the six fields and the three deviations. */
  function Aggregate(logs: seq<FuelLog>): (w: WeekTotals)
    ensures forall m :: w.Of(m) == Summarize(logs, m)
  {
    WeekTotals(Summarize(logs, Cho), Summarize(logs, Pro), Summarize(logs, Fat))
  }

  /** The totals do not depend on the order the logs were fetched in. */
  lemma AggregatePermutation(xs: seq<FuelLog>, ys: seq<FuelLog>)
    requires multiset(xs) == multiset(ys)
    ensures Aggregate(xs) == Aggregate(ys)
  {
    forall k: Field ensures Sum(xs, k) == Sum(ys, k) {
      SumPermutation(xs, ys, k);
    }
    assert Aggregate(xs).cho == Aggregate(ys).cho;
    assert Aggregate(xs).pro == Aggregate(ys).pro;
    assert Aggregate(xs).fat == Aggregate(ys).fat;
  }

  /** A macro's entry reads only that macro's two fields: logs that agree on
      them give the same entry, whatever the other macros hold. */
  lemma SummarizeReadsOnlyMacro(xs: seq<FuelLog>, ys: seq<FuelLog>, m: Macro)
    requires |xs| == |ys|
    requires forall i :: 0 <= i < |xs| ==>
      FieldValue(xs[i], AdvisedField(m)) == FieldValue(ys[i], AdvisedField(m))
      && FieldValue(xs[i], ActualField(m)) == FieldValue(ys[i], ActualField(m))
    ensures Summarize(xs, m) == Summarize(ys, m)
  {
    SumReadsOnlyField(xs, ys, AdvisedField(m));
    SumReadsOnlyField(xs, ys, ActualField(m));
  }

  /** The record `r` with new protein values. */
  function WithPro(r: FuelLog, advised: Option<real>, actual: Option<real>): FuelLog {
    r.(proAdvisedG := advised, proActualG := actual)
  }

  /** Changing the protein fields of any logs leaves the carbohydrate and fat
      entries as they were. */
  lemma ProChangeKeepsChoAndFat(xs: seq<FuelLog>, ys: seq<FuelLog>)
    requires |xs| == |ys|
    requires forall i :: 0 <= i < |xs| ==> ys[i] == WithPro(xs[i], ys[i].proAdvisedG, ys[i].proActualG)
    ensures Aggregate(ys).cho == Aggregate(xs).cho
    ensures Aggregate(ys).fat == Aggregate(xs).fat
  {
    SummarizeReadsOnlyMacro(xs, ys, Cho);
    SummarizeReadsOnlyMacro(xs, ys, Fat);
  }

  /** The status a week shows for a macro, in terms of its gram totals (which
      `Summarize` states are the sums of the macro's fields): unknown exactly
      when a total is 0; otherwise on target when the actual total is within 10%
      of the advised total, and more than 20% off when it is further than 20%
      away. */
  lemma TotalsStatus(logs: seq<FuelLog>, m: Macro)
    ensures var t := Aggregate(logs).Of(m);
      var s := Format.StatusFromPctOff(t.pct);
      && (s == Format.Status("—", Format.Warn) <==> t.advised == 0.0 || t.actual == 0.0)
      && (t.advised != 0.0 && t.actual != 0.0 ==>
           && (s.tone == Format.Good <==> Js.Abs(t.actual - t.advised) <= 0.10 * Js.Abs(t.advised))
           && (s.tone == Format.Bad <==> Js.Abs(t.actual - t.advised) > 0.20 * Js.Abs(t.advised)))
  {
    var t := Aggregate(logs).Of(m);
    assert t.pct == PctOff(OrNull(t.actual), OrNull(t.advised)) by {
      assert t == Summarize(logs, m);
    }
    TotalStatus(t);
  }

  lemma TotalStatus(t: MacroTotal)
    requires t.pct == PctOff(OrNull(t.actual), OrNull(t.advised))
    ensures var s := Format.StatusFromPctOff(t.pct);
      && (s == Format.Status("—", Format.Warn) <==> t.advised == 0.0 || t.actual == 0.0)
      && (t.advised != 0.0 && t.actual != 0.0 ==>
           && (s.tone == Format.Good <==> Js.Abs(t.actual - t.advised) <= 0.10 * Js.Abs(t.advised))
           && (s.tone == Format.Bad <==> Js.Abs(t.actual - t.advised) > 0.20 * Js.Abs(t.advised)))
  {
    if t.pct.Some? {
      Format.UnknownStatusDistinct(t.pct.value);
      assert t.pct == PctOff(Some(t.actual), Some(t.advised));
      PctOffWithin(t.actual, t.advised, 0.10);
      PctOffWithin(t.actual, t.advised, 0.20);
    }
  }

  /** An empty week has zero totals and no deviation. */
  lemma AggregateEmpty()
    ensures forall m :: Aggregate([]).Of(m) == MacroTotal(0.0, 0.0, None)
  {
  }

  /** A log with no carbohydrate eaten against 100 g advised is 100% under on
      its own, but the week made of that log alone has an unknown deviation:
      a zero total counts as absent, an explicit zero entry does not. */
  lemma ZeroTotalIsUnknown(r: FuelLog)
    requires r.choActualG == Some(0.0) && r.choAdvisedG == Some(100.0)
    ensures PctOff(r.choActualG, r.choAdvisedG) == Some(-1.0)
    ensures Aggregate([r]).cho.pct == None
    ensures Aggregate([r]).cho.advised == 100.0
  {
  }

  // ---------------------------------------------------------------------------
  // Row colour
  // ---------------------------------------------------------------------------

  datatype RowClass = RowGood | RowWarn | RowBad

  /** `rowTone(r)`: the class of a log row, from the tone of its carbohydrate
      deviation alone; an unknown deviation gives the warning class. */
  function RowTone(r: FuelLog): (c: RowClass)
    ensures var s := Format.StatusFromPctOff(PctOff(r.choActualG, r.choAdvisedG));
      && (c == RowGood <==> s.tone == Format.Good)
      && (c == RowWarn <==> s.tone == Format.Warn)
      && (c == RowBad <==> s.tone == Format.Bad)
  {
    var s := Format.StatusFromPctOff(PctOff(r.choActualG, r.choAdvisedG));
    if s.tone == Format.Good then RowGood
    else if s.tone == Format.Warn then RowWarn
    else RowBad
  }

  /** Rows that agree on their carbohydrate fields have the same colour,
      whatever their protein, fat and notes. */
  lemma RowToneChoOnly(r: FuelLog, q: FuelLog)
    requires r.choActualG == q.choActualG && r.choAdvisedG == q.choAdvisedG
    ensures RowTone(r) == RowTone(q)
  {
  }

  /** The row colour in terms of the carbohydrate values: unknown is the warning
      class, within 10% good, within 20% warning, beyond that bad. */
  lemma RowToneTiers(r: FuelLog)
    ensures var p := PctOff(r.choActualG, r.choAdvisedG);
      && (p.None? ==> RowTone(r) == RowWarn)
      && (p.Some? && -0.10 <= p.value <= 0.10 ==> RowTone(r) == RowGood)
      && (p.Some? && (0.10 < p.value <= 0.20 || -0.20 <= p.value < -0.10) ==> RowTone(r) == RowWarn)
      && (p.Some? && (p.value > 0.20 || p.value < -0.20) ==> RowTone(r) == RowBad)
  {
  }
}
