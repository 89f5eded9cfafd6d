# Macro-compliance engine

This is a Dafny model of the rules a sports-nutrition app applies to a player's daily intake records ("fuel logs"). Each log has optional advised and actual grams of carbohydrate (CHO), protein (PRO) and fat.

From those values the screens work out four things:

- **Deviation.** `pctOff` gives the signed fraction by which the actual grams miss the advice.
- **Status tier.** `statusFromPctOff` sorts that deviation into one of these tiers:
  - on target (at most 10%);
  - slightly off (at most 20%);
  - more than 20% off;
  - unknown.
- **Percentage text.** `pct` writes the deviation as a percentage.
- **Week totals.** The Dashboard and Weekly Report screens sum a week of logs per macro. The deviation of those totals treats a zero total as absent.

The Fuel Log screen does three things:

- it turns the typed form fields into an insert payload, through `safeNum`;
- it colours each row by its CHO deviation;
- it keeps the form's state through add, clear and delete.

The UEFA reference screen converts g/kg guidance into grams for the selected player and writes them as single values or ranges.

## How the model is organised

The modules follow the source files:

- `Types`: the record shapes of `types.ts`.
- `Js`: the JavaScript built-ins the engine calls:
  - `trim`;
  - `Number(string)`, with its decimal and non-decimal literal grammar, `Infinity` and overflow to an infinity;
  - `Math.round` and `Math.abs`;
  - `Number.isFinite`;
  - `toFixed(0)`;
  - rendering a number in template text.
- `Format`: the three functions of `format.ts`.
- `Compliance`: `pctOff`, `sum`, `agg`/`totals` and `rowTone`.
- `Dashboard` and `WeeklyReport`: the two screens' cards and rows.
- `FuelLogScreen`: the Fuel Log form. It is a class whose methods change the form state step by step.
- `Uefa`: the UEFA screen.

Dashboard, Weekly Report and Fuel Log each carry a textually identical copy of `pctOff`. Dashboard's `sum` and Weekly Report's `sum` are the same fold. Dashboard's `agg` and Weekly Report's `totals` have the same body, and the two `rowTone`s are identical. Each of these is defined once in `Compliance`, and the screens use that one definition. The screens therefore agree by construction, and every property proved about a helper holds for every copy.

Numbers are exact reals, and `null`, `undefined` and `NaN` are `None`. Data-store results are inputs:

- the rows a refresh returns;
- whether the insert succeeded;
- whether the delete succeeded.

The user's answer to the delete confirmation is also an input, as is today's date.

The source's `label` fields and props are called `labelText` here, because `label` is a Dafny keyword.

## Model

| member | source | states |
|---|---|---|
| Types.Option.GetOr | DashboardClient.tsx:14 | `x ?? d` gives the value when there is one and the default only when it is absent |
| Types.DayLabelText | types.ts:12 | each stored label text starts with "MD" and has two to four characters; only match day itself is the bare "MD" |
| Types.ParseDayLabel | types.ts:12 | a text read as a day label is the text of that label |
| Types.DayLabelTextRoundTrip | types.ts:12 | each of the seven day labels reads back from its stored text, so the texts are distinct |
| Js.Trim | format.ts:16 | `trim` leaves no white space at either end, is empty exactly for blank text, and never lengthens |
| Js.TrimOfPadded | format.ts:16 | a trimmed text padded with white space on both sides trims back to itself |
| Js.TrimIdempotent | format.ts:16 | trimming twice is trimming once |
| Js.ToNumber | format.ts:18 | `Number` of blank text is 0; a finite result is below the overflow bound in magnitude |
| Js.ToNumberOfTrimmed | format.ts:16-18 | `Number` of the trimmed text equals `Number` of the text |
| Js.IsFinite | format.ts:19 | `Number.isFinite` is false exactly for NaN and the two infinities |
| Js.Abs | format.ts:9 | `Math.abs(x)` is non-negative and is `x` or `-x` |
| Js.Round | UefaClient.tsx:28 | `Math.round(x)` is an integer within a half of `x`, halves rounding up |
| Js.RoundNearest | UefaClient.tsx:28 | `Math.round(x)` is at least as near to `x` as any integer, and the larger of two equally near |
| Js.ToFixed0 | format.ts:4 | `toFixed(0)` writes a nonempty text that starts with "-" exactly for a negative value, so a small negative value shows "-0" |
| Js.ToFixed0Value | format.ts:4 | the integer `toFixed(0)` writes is within a half of `x`, halves rounding away from zero |
| Js.ReadToFixed0 | format.ts:4 | the text of `toFixed(0)` reads back through `Number` as that integer |
| Js.NumberToString | UefaClient.tsx:66 | a number in template text is nonempty and starts with "-" exactly when it is negative |
| Js.ReadNumberToString | UefaClient.tsx:66 | a number rendered into template text reads back through `Number` as itself |
| Js.RoundToString | DashboardClient.tsx:66 | the text of `Math.round(x)` is nonempty and starts with "-" exactly when the rounded value is negative |
| Js.ReadRoundToString | DashboardClient.tsx:66 | the text of `Math.round(x)` reads back as that integer, while it is below 10^21 in magnitude |
| Js.IntegerToString | WeeklyReportClient.tsx:60-61 | an integer is rendered without a fractional part |
| Format.Percentage | format.ts:3 | the percentage is the fraction times 100: dividing it by 100 gives the fraction back |
| Format.Pct | format.ts:1-5 | "—" exactly for a missing value; otherwise text ending in "%" |
| Format.PctReadsBack | format.ts:3-4 | the text before "%" reads back as `n*100` rounded to the nearest integer, halves away from zero |
| Format.PctSafeNum | format.ts:3-4 | the digits before "%", read by `safeNum`, give the same rounded percentage, since `toFixed` writes no white space |
| Format.PctNegativeZero | format.ts:3-4 | -0.1% is written "-0%", 0.1% is "0%" and -25% is "-25%" |
| Format.StatusFromPctOff | format.ts:7-13 | unknown is ("—", warn); good iff abs(p) <= 0.10; warn iff 0.10 < abs(p) <= 0.20; bad iff abs(p) > 0.20; each tier's label |
| Format.StatusSignSymmetric | format.ts:9-12 | status(-p) == status(p) |
| Format.StatusMonotone | format.ts:9-12 | a larger abs(p) never has a less severe tone |
| Format.StatusBoundaries | format.ts:10-11 | 0.10 and -0.10 are good, 0.20 and -0.20 are warn, and just beyond each threshold is the next tier |
| Format.UnknownStatusDistinct | format.ts:8 | the unknown status has the warn tone but differs from every known status |
| Format.SafeNum | format.ts:15-20 | blank text gives null; a value exists iff the text is not blank and `Number` of it is finite; then it is that number |
| Format.SafeNumOfTrim | format.ts:16 | `safeNum(trim(v)) == safeNum(v)` |
| Format.BlankIsNotZero | format.ts:17 | a blank field is null although `Number` of it is 0 |
| Format.SafeNumPadded | format.ts:16-18 | white space around a number does not change what is read |
| Format.SafeNumOfRendered | format.ts:18-19 | a number as the page writes it is read back as itself |
| Format.SafeNumOfDigits | format.ts:16-19 | a field of plain digits is stored as the number they spell |
| Format.SafeNumOfWord | format.ts:18-19 | a field starting with a character no numeric literal begins with (a lower-case letter, "—") is not a number, so it gives null |
| Compliance.PctOff | DashboardClient.tsx:8-11 | null iff advised is null or 0 or actual is null; otherwise p with p*advised == actual-advised |
| Compliance.PctOffUnique | WeeklyReportClient.tsx:8-11 | the deviation is the one p with actual == advised*(1+p) |
| Compliance.PctOffScaleInvariant | FuelLogClient.tsx:10-13 | scaling both values by the same non-zero factor keeps the deviation |
| Compliance.PctOffWithin | DashboardClient.tsx:10 | abs(p) <= b iff abs(actual-advised) <= b*abs(advised) |
| Compliance.PctOffExamples | DashboardClient.tsx:8-11 | equal values give 0; nothing eaten of 100 g gives -1; a zero or missing advice or a missing actual gives null |
| Compliance.Contribution | DashboardClient.tsx:14 | a log adds its field's value, or 0 when that value is null |
| Compliance.Fold | DashboardClient.tsx:14 | the reduce from a running sum adds the reference total of the logs |
| Compliance.Sum | WeeklyReportClient.tsx:13-15 | the sum is the total of the field; no logs sum to 0 |
| Compliance.TotalAppend | DashboardClient.tsx:14 | the total of two lists is the sum of their totals |
| Compliance.SumSnoc | WeeklyReportClient.tsx:14 | sum(xs + [r]) == sum(xs) + value(r) |
| Compliance.SumPermutation | DashboardClient.tsx:14 | logs with the same multiset have the same sum, so entry order does not matter |
| Compliance.SumReadsOnlyField | DashboardClient.tsx:14 | the sum of a field depends on that field alone |
| Compliance.SumNullAsZero | WeeklyReportClient.tsx:14 | a null value and an explicit 0 add the same |
| Compliance.OrNull | DashboardClient.tsx:19-21 | a zero total is treated as absent: null iff x is 0, otherwise x |
| Compliance.Summarize | WeeklyReportClient.tsx:45-51 | advised and actual are the sums of the macro's fields; pct is null iff either total is 0, otherwise the deviation of the totals |
| Compliance.Aggregate | DashboardClient.tsx:13-23 | every macro's entry is `Summarize` of that macro; this one definition is both `agg` and the Weekly Report's `totals` |
| Compliance.AggregatePermutation | WeeklyReportClient.tsx:44-53 | the totals do not depend on the order of the logs |
| Compliance.SummarizeReadsOnlyMacro | DashboardClient.tsx:15-21 | a macro's entry depends only on that macro's two fields |
| Compliance.ProChangeKeepsChoAndFat | DashboardClient.tsx:15-21 | changing PRO fields leaves the CHO and FAT entries unchanged |
| Compliance.TotalsStatus | WeeklyReportClient.tsx:49-51 | a macro's status is unknown iff a total is 0; otherwise good iff within 10% of the advised total and bad iff beyond 20% |
| Compliance.TotalStatus | DashboardClient.tsx:19-21 | the same, for one macro's totals |
| Compliance.AggregateEmpty | WeeklyReportClient.tsx:44-53 | no logs give zero totals and no deviation |
| Compliance.ZeroTotalIsUnknown | DashboardClient.tsx:19-21 | one log with 0 actual and 100 advised is -100% on its own, yet the week of that log has no deviation |
| Compliance.RowTone | DashboardClient.tsx:74-78 | the row class is good, warn or bad exactly when the CHO status tone is good, warn (including unknown) or bad |
| Compliance.RowToneChoOnly | FuelLogClient.tsx:52-56 | rows that agree on the CHO fields have the same class |
| Compliance.RowToneTiers | FuelLogClient.tsx:52-56 | the row class from the CHO deviation: unknown is warn, within 10% good, within 20% warn, beyond that bad |
| Dashboard.Metric | DashboardClient.tsx:58-72 | the card's value is `pct` of the deviation and its badge is the status text and tone; both show "—" exactly when there is no deviation; the sub-line has the rounded totals |
| Dashboard.MetricOfWeek | DashboardClient.tsx:56-68 | a week's card shows "—" iff a total is 0, and "ON TARGET" iff both totals are non-zero and within 10% |
| Dashboard.MetricOfEmptyWeek | DashboardClient.tsx:56-68 | with no logs a card shows "—", "0g actual • 0g advised" and the unknown badge |
| Dashboard.MetricOfZeroTotals | DashboardClient.tsx:58-72 | the card of zero totals with no deviation |
| WeeklyReport.SummaryRow | WeeklyReportClient.tsx:55-66 | the percent is `pct` of the deviation and the badge is the status text and tone; both show "—" exactly when there is no deviation; the grams are rounded and followed by "g" |
| WeeklyReport.SummaryRowGrams | WeeklyReportClient.tsx:60-61 | the grams shown read back as the rounded totals |
| WeeklyReport.EmptyWeekRows | WeeklyReportClient.tsx:44-63 | with no logs every row shows "0g", "0g", "—" and the "—"/warn status |
| FuelLogScreen.DayLabelsComplete | FuelLogClient.tsx:8 | the selector lists the seven day labels, each once, in the order MD, MD+1 … MD-1 |
| FuelLogScreen.NotesValue | FuelLogClient.tsx:74 | notes are null iff blank; otherwise nonempty, trimmed and no longer |
| FuelLogScreen.NotesPadded | FuelLogClient.tsx:74 | padded notes are stored as their text without the padding |
| FuelLogScreen.BuildPayload | FuelLogClient.tsx:63-75 | the payload carries the selection, date and day label; each gram field is `safeNum` of its input; the notes go through `NotesValue` |
| FuelLogScreen.PayloadFields | FuelLogClient.tsx:68-73 | a blank input is stored as null, never 0; a stored value is what `Number` reads |
| FuelLogScreen.PayloadOfRendered | FuelLogClient.tsx:68-73 | a number typed as the page writes it is stored as that number |
| FuelLogScreen.RemoveById | FuelLogClient.tsx:98 | no kept row has the id; every other row keeps its multiplicity |
| FuelLogScreen.RemoveByIdAppend | FuelLogClient.tsx:98 | the filter works piecewise, so kept rows keep their order |
| FuelLogScreen.RemoveByIdAbsent | FuelLogClient.tsx:98 | rows without the id are left as they are |
| FuelLogScreen.RemoveByIdIdempotent | FuelLogClient.tsx:98 | filtering twice is filtering once |
| FuelLogScreen.FuelLogForm.constructor | FuelLogClient.tsx:17-28 | no player, week 1, no rows, not saving, the given date, MD-1, empty inputs |
| FuelLogScreen.FuelLogForm.Clear | FuelLogClient.tsx:169 | the six gram inputs and the notes empty; date, day label, selection and rows kept |
| FuelLogScreen.FuelLogForm.BeginAdd | FuelLogClient.tsx:60-75 | without a player nothing happens; otherwise `saving` is set and the payload of the current inputs is made |
| FuelLogScreen.FuelLogForm.FinishAdd | FuelLogClient.tsx:77-91 | `saving` cleared; on success the rows are the refreshed list (empty when the store sent none) and only the notes are emptied; on an error rows and notes kept |
| FuelLogScreen.FuelLogForm.AddRow | FuelLogClient.tsx:58-92 | nothing without a player; otherwise `saving` is true during the insert and false after, and the rows and notes follow the outcome |
| FuelLogScreen.FuelLogForm.BeginDelete | FuelLogClient.tsx:94-95 | without confirmation the handler stops; with it, it keeps the list of rows it was rendered with |
| FuelLogScreen.FuelLogForm.FinishDelete | FuelLogClient.tsx:96-98 | after a successful delete the rows are that kept list filtered by id, whatever the list holds by then; after an error nothing changes |
| FuelLogScreen.FuelLogForm.DeleteRow | FuelLogClient.tsx:94-99 | with nothing in between, confirmed and deleted: the rows are filtered by id; otherwise nothing changes |
| FuelLogScreen.FuelLogForm.RowClassAt | FuelLogClient.tsx:190-191 | row `i` of the list is coloured good, warn or bad exactly when the tone of its CHO status is good, warn or bad |
| Uefa.FindIndex | UefaClient.tsx:24 | the index of the first player with the id, or the length when there is none |
| Uefa.FindPlayer | UefaClient.tsx:24 | null iff no player has the id; otherwise the first player that has it |
| Uefa.BodyMassKg | UefaClient.tsx:64 | null iff no player; otherwise the player's body mass |
| Uefa.BodyMassText | UefaClient.tsx:42 | "— kg" exactly when no player is selected; otherwise the player's mass as a number is written, then " kg" |
| Uefa.Grams | UefaClient.tsx:26-29 | null iff the g/kg value or the body mass is null; otherwise an integer within a half of v*kg |
| Uefa.GramsNearest | UefaClient.tsx:28 | the grams are an integer nearest v*kg, the larger of two equally near |
| Uefa.GuidanceRow | UefaClient.tsx:61-76 | a row shows the label text, the g/kg cell, the grams cell for the player's mass, and the notes or "" |
| Uefa.NoPlayerGrams | UefaClient.tsx:64-69 | without a player, a single value shows "—" and a range "—–—g" |
| Uefa.NumberText | UefaClient.tsx:66 | "—" exactly for a missing value, and otherwise it does not start with "—"; the text never holds the range dash "–" |
| Uefa.GkgText | UefaClient.tsx:66 | the g/kg cell starts with "—" exactly when the low value is missing (and is just "—" without a high end), and holds the range dash exactly when there is a high end |
| Uefa.GramsText | UefaClient.tsx:67-69 | the grams cell is "—" exactly when there is no high end and no grams, and holds the range dash exactly when there is a high end |
| Uefa.RepresentableWitness | UefaClient.tsx:66 | missing values, 0 and 2.5 are all written exactly, so the read-back lemmas apply to real inputs |
| Uefa.GkgTextReadsBack | UefaClient.tsx:66 | the g/kg cell gives back the low value alone, or both ends on each side of "–"; it is "—" when both values are missing, and its low part is "—" exactly when the low value is missing |
| Uefa.NumberTextReadsBack | UefaClient.tsx:66 | the text of a number (or "—" for a missing one) is read back by `safeNum` as x, and "—" as null |
| Uefa.DashIsNotANumber | UefaClient.tsx:66-69 | "—" is not a number |
| Uefa.GramsTextSingle | UefaClient.tsx:67-68 | without a high end, "—" iff no grams; otherwise the grams followed by "g" |
| Uefa.GramsTextRange | UefaClient.tsx:69 | with a high end, the text before "g" splits at "–" into the grams of both ends, each shown as "—" exactly when it has no grams |

## Left out

- Floating point: numbers are exact reals. Binary rounding of `(actual - advised) / advised`, of products and of the sums is not represented. So `Compliance.SumPermutation` and `Compliance.AggregatePermutation` hold in exact arithmetic only: the source's binary `reduce` can depend on the order of the logs. Likewise a deviation of exactly 0.10 is on target here, even where binary arithmetic would land just above it.
- `NaN` and `undefined` arguments of `pct` and `statusFromPctOff` are the absent value `None`. In the sum a missing field counts as 0. The branch of that coercion that turns `NaN` into 0 cannot arise, because the stored fields are numbers or null.
- Js.ToNumber: literal rounding to binary64 is not modelled. Only overflow beyond the largest finite double is modelled, and it gives an infinity.
- Js.ToFixed0: the exponent form `toFixed` uses from 1e21 upwards is not modelled. The lemmas about it assume smaller magnitudes (`Js.PlainBound`).
- Js.NumberToString: exponent notation, which template text uses from 1e21 upwards and for non-zero magnitudes below 1e-6, and values with more than 16 fractional digits are not modelled. The read-back lemmas require magnitudes below 1e21 and at most 16 fractional digits.
- Data-store I/O of every kind is left out. This covers the `select` of players, logs and guidance, the `insert` and the `delete`. Their results are parameters of `FinishAdd`, `AddRow`, `FinishDelete` and `DeleteRow`.
- The loading effects that fill `players`, `rows`, `logs` and `guidance` and pick the first player are data-store I/O, so they are left out.
- `alert` and `confirm`: the dialog is a boolean parameter of `BeginDelete` and `DeleteRow`, and the alert message of a failed insert or delete is not shown.
- FuelLogScreen.FuelLogForm.AddRow, DeleteRow: each runs its two steps back to back. The source's async handlers can interleave with other updates during the wait for the store. The split steps (`BeginAdd`/`FinishAdd`, `BeginDelete`/`FinishDelete`) capture this only when a caller runs other transitions between them. For deleteRow, the list it filters is the one it kept at the start, so a refresh that lands during the delete is overwritten. No scheduler of the interleavings is modelled. The source also disables the submit button while `saving` is set, so it never starts a second `addRow` during an insert. `BeginAdd` has no such guard, and the model does not rule out a second add started before `FinishAdd`.
- The date from `new Date()` is the constructor's `today` parameter.
- The `onChange` setters of the inputs are plain field assignments, so they are not listed separately.
- JSX markup and CSS class strings are represented only by the tone and row class.
- `gameWeek` is an unbounded integer. In the source the week selector stores `Number` of the typed text, or 1 for an empty field, so a fractional week such as 1.5 is possible there. The model does not admit it.
- AuthGate.tsx, Shell.tsx, layout.tsx, page.tsx and PlayersClient.tsx are not part of this model. They are session handling, navigation, page composition, and create/read/update/delete over the data store.
