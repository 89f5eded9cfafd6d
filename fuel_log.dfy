/** FuelLogClient.tsx: the entry form of a player's daily intake. The form's
    text fields become an insert payload (each gram field through `safeNum`,
    the notes trimmed or null); adding, clearing and deleting change the form
    and the local list of rows step by step. The data store's insert, delete
    and refresh are outside the model: their outcomes are parameters. */
module FuelLogScreen {
  import opened Types
  import Js
  import Format
  import Compliance

  /** `DAY_LABELS`, in the order the day selector lists them. */
  const DayLabels: seq<DayLabel> := [MD, MDPlus1, MDPlus2, MDPlus3, MDPlus4, MDMinus2, MDMinus1]

  /** The selector offers exactly the seven day labels a log can carry, each
      once, with the texts the data store keeps. */
  lemma DayLabelsComplete()
    ensures |DayLabels| == 7
    ensures forall d: DayLabel :: d in DayLabels
    ensures forall i, j :: 0 <= i < j < |DayLabels| ==> DayLabels[i] != DayLabels[j]
    ensures forall i :: 0 <= i < |DayLabels| ==>
      DayLabelText(DayLabels[i]) == ["MD", "MD+1", "MD+2", "MD+3", "MD+4", "MD-2", "MD-1"][i]
  {
    forall d: DayLabel ensures d in DayLabels {
      match d
      case MD => assert DayLabels[0] == d;
      case MDPlus1 => assert DayLabels[1] == d;
      case MDPlus2 => assert DayLabels[2] == d;
      case MDPlus3 => assert DayLabels[3] == d;
      case MDPlus4 => assert DayLabels[4] == d;
      case MDMinus2 => assert DayLabels[5] == d;
      case MDMinus1 => assert DayLabels[6] == d;
    }
  }

  // ---------------------------------------------------------------------------
  // The insert payload
  // ---------------------------------------------------------------------------

  /** The six gram inputs of the form, as typed. */
  datatype GramTexts = GramTexts(
    choA: string, choX: string, proA: string, proX: string, fatA: string, fatX: string)

  /** The input that feeds field `k`. */
  function GramText(g: GramTexts, k: Field): string {
    match k
    case ChoAdvised => g.choA
    case ChoActual => g.choX
    case ProAdvised => g.proA
    case ProActual => g.proX
    case FatAdvised => g.fatA
    case FatActual => g.fatX
  }

  /** The record `addRow` inserts: a fuel log without its store-assigned id. */
  datatype NewFuelLog = NewFuelLog(
    playerId: string,
    gameWeek: int,
    logDate: string,
    dayLabel: DayLabel,
    choAdvisedG: Option<real>,
    choActualG: Option<real>,
    proAdvisedG: Option<real>,
    proActualG: Option<real>,
    fatAdvisedG: Option<real>,
    fatActualG: Option<real>,
    notes: Option<string>)

  /** `payload[k]` for a numeric key. */
  function PayloadValue(p: NewFuelLog, k: Field): Option<real> {
    match k
    case ChoAdvised => p.choAdvisedG
    case ChoActual => p.choActualG
    case ProAdvised => p.proAdvisedG
    case ProActual => p.proActualG
    case FatAdvised => p.fatAdvisedG
    case FatActual => p.fatActualG
  }

  /** The stored notes: the trimmed text, or null when nothing is left after trimming. */
  function NotesValue(notes: string): (r: Option<string>)
    ensures r.None? <==> Js.AllWhiteSpace(notes)
    ensures r.Some? ==> r.value != [] && Js.Trimmed(r.value) && |r.value| <= |notes|
  {
    var t := Js.Trim(notes);
    if t != [] then Some(t) else None
  }

  /** Notes keep their text and lose only the white space around it. */
  lemma NotesPadded(p: string, t: string, q: string)
    requires Js.AllWhiteSpace(p) && Js.AllWhiteSpace(q) && Js.Trimmed(t) && t != []
    ensures NotesValue(p + t + q) == Some(t)
  {
    Js.TrimOfPadded(p, t, q);
  }

  /** The payload of `addRow`: the selection, the date and day label, each gram
      input through `safeNum`, and the notes trimmed or null. */
  function BuildPayload(playerId: string, gameWeek: int, logDate: string, dayLabel: DayLabel,
                        g: GramTexts, notes: string): (p: NewFuelLog)
    ensures p.playerId == playerId && p.gameWeek == gameWeek
    ensures p.logDate == logDate && p.dayLabel == dayLabel
    ensures forall k :: PayloadValue(p, k) == Format.SafeNum(GramText(g, k))
    ensures p.notes == NotesValue(notes)
  {
    var p := NewFuelLog(
      playerId, gameWeek, logDate, dayLabel,
      Format.SafeNum(g.choA), Format.SafeNum(g.choX),
      Format.SafeNum(g.proA), Format.SafeNum(g.proX),
      Format.SafeNum(g.fatA), Format.SafeNum(g.fatX),
      NotesValue(notes));
    EachFieldParsed(g, p);
    p
  }

  lemma EachFieldParsed(g: GramTexts, p: NewFuelLog)
    requires p.choAdvisedG == Format.SafeNum(g.choA) && p.choActualG == Format.SafeNum(g.choX)
    requires p.proAdvisedG == Format.SafeNum(g.proA) && p.proActualG == Format.SafeNum(g.proX)
    requires p.fatAdvisedG == Format.SafeNum(g.fatA) && p.fatActualG == Format.SafeNum(g.fatX)
    ensures forall k :: PayloadValue(p, k) == Format.SafeNum(GramText(g, k))
  {
    forall k ensures PayloadValue(p, k) == Format.SafeNum(GramText(g, k)) {
      match k
      case ChoAdvised =>
      case ChoActual =>
      case ProAdvised =>
      case ProActual =>
      case FatAdvised =>
      case FatActual =>
    }
  }

  /** A blank gram input is stored as null, never as 0, and a stored value is
      what `Number` reads from the input. */
  lemma PayloadFields(playerId: string, gameWeek: int, logDate: string, dayLabel: DayLabel,
                      g: GramTexts, notes: string, k: Field)
    ensures var v := PayloadValue(BuildPayload(playerId, gameWeek, logDate, dayLabel, g, notes), k);
      && (Js.AllWhiteSpace(GramText(g, k)) ==> v == None)
      && (v.Some? ==> Js.ToNumber(GramText(g, k)) == Js.Finite(v.value))
      && (v.None? ==> Js.AllWhiteSpace(GramText(g, k)) || !Js.ToNumber(GramText(g, k)).Finite?)
  {
  }

  /** A number typed as the page writes numbers is stored as that number. */
  lemma PayloadOfRendered(playerId: string, gameWeek: int, logDate: string, dayLabel: DayLabel,
                          g: GramTexts, notes: string, k: Field, x: real)
    requires GramText(g, k) == Js.NumberToString(x)
    requires Js.IsDecimal16(x) && Js.Abs(x) < Js.PlainBound
    ensures PayloadValue(BuildPayload(playerId, gameWeek, logDate, dayLabel, g, notes), k) == Some(x)
  {
    Format.SafeNumOfRendered(x);
  }

  // ---------------------------------------------------------------------------
  // Removing a deleted row
  // ---------------------------------------------------------------------------

  /** The rows without those whose id is `id`, the others kept in order. */
  function RemoveById(rows: seq<FuelLog>, id: string): (r: seq<FuelLog>)
    ensures forall x :: x in r ==> x.id != id
    ensures forall x: FuelLog :: x.id != id ==> multiset(r)[x] == multiset(rows)[x]
    ensures |r| <= |rows|
  {
    if rows == [] then []
    else
      var rest := RemoveById(rows[1..], id);
      assert rows == [rows[0]] + rows[1..];
      assert multiset(rows) == multiset{rows[0]} + multiset(rows[1..]);
      if rows[0].id != id then [rows[0]] + rest else rest
  }

  /** The filter keeps the order of the rows it keeps: it works piecewise. */
  lemma {:induction false} RemoveByIdAppend(xs: seq<FuelLog>, ys: seq<FuelLog>, id: string)
    ensures RemoveById(xs + ys, id) == RemoveById(xs, id) + RemoveById(ys, id)
    decreases |xs|
  {
    if xs == [] {
      assert xs + ys == ys;
    } else {
      assert (xs + ys)[1..] == xs[1..] + ys;
      RemoveByIdAppend(xs[1..], ys, id);
    }
  }

  /** Rows with other ids are left as they are. */
  lemma {:induction false} RemoveByIdAbsent(rows: seq<FuelLog>, id: string)
    requires forall i :: 0 <= i < |rows| ==> rows[i].id != id
    ensures RemoveById(rows, id) == rows
    decreases |rows|
  {
    if rows != [] {
      var rest := rows[1..];
      assert forall i :: 0 <= i < |rest| ==> rest[i].id != id by {
        forall i | 0 <= i < |rest| ensures rest[i].id != id {
          assert rest[i] == rows[i + 1];
        }
      }
      RemoveByIdAbsent(rest, id);
      assert rows[0].id != id;
      assert RemoveById(rows, id) == [rows[0]] + RemoveById(rest, id);
      assert [rows[0]] + rest == rows;
    }
  }

  /** Deleting the same id twice removes nothing more. */
  lemma RemoveByIdIdempotent(rows: seq<FuelLog>, id: string)
    ensures RemoveById(RemoveById(rows, id), id) == RemoveById(rows, id)
  {
    var r := RemoveById(rows, id);
    forall i | 0 <= i < |r| ensures r[i].id != id {
      assert r[i] in r;
    }
    RemoveByIdAbsent(r, id);
  }

  // ---------------------------------------------------------------------------
  // The form
  // ---------------------------------------------------------------------------

  /** What the data store answered to the insert of `addRow`: success with the
      refreshed rows of the week (`data`, possibly null), or an error. */
  datatype InsertOutcome = Inserted(refreshed: Option<seq<FuelLog>>) | InsertFailed(message: string)

  /** The component state of the Fuel Log screen. */
  class FuelLogForm {
    var playerId: string
    var gameWeek: int
    var rows: seq<FuelLog>
    var saving: bool
    var logDate: string
    var dayLabel: DayLabel
    var choA: string
    var choX: string
    var proA: string
    var proX: string
    var fatA: string
    var fatX: string
    var notes: string

    /** The initial state: no player, week 1, no rows, today's date (given),
        the day before match day, and empty inputs. */
    constructor(today: string)
      ensures playerId == "" && gameWeek == 1 && rows == [] && !saving
      ensures logDate == today && dayLabel == MDMinus1
      ensures Grams() == GramTexts("", "", "", "", "", "") && notes == ""
    {
      playerId := "";
      gameWeek := 1;
      rows := [];
      saving := false;
      logDate := today;
      dayLabel := MDMinus1;
      choA, choX, proA, proX, fatA, fatX := "", "", "", "", "", "";
      notes := "";
    }

    /** The six gram inputs. */
    function Grams(): GramTexts
      reads this
    {
      GramTexts(choA, choX, proA, proX, fatA, fatX)
    }

    /** The payload the current inputs make. */
    function Payload(): NewFuelLog
      reads this
    {
      BuildPayload(playerId, gameWeek, logDate, dayLabel, Grams(), notes)
    }

    /** The Clear button: empties the six gram inputs and the notes; the date,
        the day label, the selection and the rows stay. */
    method Clear()
      modifies this
      ensures Grams() == GramTexts("", "", "", "", "", "") && notes == ""
      ensures playerId == old(playerId) && gameWeek == old(gameWeek)
      ensures rows == old(rows) && saving == old(saving)
      ensures logDate == old(logDate) && dayLabel == old(dayLabel)
    {
      choA := "";
      choX := "";
      proA := "";
      proX := "";
      fatA := "";
      fatX := "";
      notes := "";
    }

    /** The part of `addRow` before the insert: nothing at all without a
        selected player; otherwise `saving` is set and the payload is made. */
    method BeginAdd() returns (payload: Option<NewFuelLog>)
      modifies this
      ensures old(playerId) == "" ==> payload == None && saving == old(saving)
      ensures old(playerId) != "" ==> payload == Some(old(Payload())) && saving
      ensures playerId == old(playerId) && gameWeek == old(gameWeek) && rows == old(rows)
      ensures logDate == old(logDate) && dayLabel == old(dayLabel)
      ensures Grams() == old(Grams()) && notes == old(notes)
    {
      if playerId == "" {
        return None;
      }
      payload := Some(Payload());
      saving := true;
    }

    /** The part of `addRow` after the insert: on success the rows become the
        refreshed week (none when the refresh returned null) and the notes are
        emptied, the gram inputs keep their text; on an error nothing changes
        but `saving`, which is cleared in both cases. */
    method FinishAdd(outcome: InsertOutcome)
      modifies this
      ensures !saving
      ensures outcome.Inserted? ==> rows == outcome.refreshed.GetOr([]) && notes == ""
      ensures outcome.InsertFailed? ==> rows == old(rows) && notes == old(notes)
      ensures playerId == old(playerId) && gameWeek == old(gameWeek)
      ensures logDate == old(logDate) && dayLabel == old(dayLabel) && Grams() == old(Grams())
    {
      if outcome.Inserted? {
        rows := outcome.refreshed.GetOr([]);
        notes := "";
      }
      saving := false;
    }

    /** `addRow`: with no player selected nothing happens; otherwise the payload
        of the current inputs is inserted with `saving` set while the store is
        asked, and afterwards `saving` is clear, the rows and notes follow the
        outcome and the gram inputs, date and day label are kept. */
    method AddRow(outcome: InsertOutcome) returns (payload: Option<NewFuelLog>, savingDuringInsert: bool)
      modifies this
      ensures old(playerId) == "" ==>
        payload == None && saving == old(saving) && rows == old(rows) && notes == old(notes)
      ensures old(playerId) != "" ==> payload == Some(old(Payload())) && savingDuringInsert && !saving
      ensures old(playerId) != "" && outcome.Inserted? ==> rows == outcome.refreshed.GetOr([]) && notes == ""
      ensures old(playerId) != "" && outcome.InsertFailed? ==> rows == old(rows) && notes == old(notes)
      ensures playerId == old(playerId) && gameWeek == old(gameWeek)
      ensures logDate == old(logDate) && dayLabel == old(dayLabel) && Grams() == old(Grams())
    {
      payload := BeginAdd();
      savingDuringInsert := saving;
      if payload.Some? {
        FinishAdd(outcome);
      }
    }

    /** The part of `deleteRow` before the delete: the confirmation dialog. When
        the user confirms, the handler goes on with the list of rows it was
        rendered with, which it keeps across the wait for the store. */
    method BeginDelete(confirmed: bool) returns (snapshot: Option<seq<FuelLog>>)
      ensures confirmed <==> snapshot.Some?
      ensures confirmed ==> snapshot.value == rows
    {
      if !confirmed {
        return None;
      }
      snapshot := Some(rows);
    }

    /** The part of `deleteRow` after the delete: on success the list becomes
        the snapshot without the rows of that id, whatever the list holds by
        then (a refresh that landed during the wait is overwritten); on an
        error nothing changes. */
    method FinishDelete(snapshot: seq<FuelLog>, id: string, deleted: bool)
      modifies this
      ensures deleted ==> rows == RemoveById(snapshot, id)
      ensures !deleted ==> rows == old(rows)
      ensures playerId == old(playerId) && gameWeek == old(gameWeek) && saving == old(saving)
      ensures logDate == old(logDate) && dayLabel == old(dayLabel)
      ensures Grams() == old(Grams()) && notes == old(notes)
    {
      if deleted {
        rows := RemoveById(snapshot, id);
      }
    }

    /** `deleteRow(id)` with nothing else happening during the wait: when the
        user confirms and the store deletes, the rows with that id leave the
        list and the rest keep their order; otherwise nothing changes. */
    method DeleteRow(id: string, confirmed: bool, deleted: bool)
      modifies this
      ensures confirmed && deleted ==> rows == RemoveById(old(rows), id)
      ensures !(confirmed && deleted) ==> rows == old(rows)
      ensures playerId == old(playerId) && gameWeek == old(gameWeek) && saving == old(saving)
      ensures logDate == old(logDate) && dayLabel == old(dayLabel)
      ensures Grams() == old(Grams()) && notes == old(notes)
    {
      var snapshot := BeginDelete(confirmed);
      if snapshot.Some? {
        FinishDelete(snapshot.value, id, deleted);
      }
    }

    /** The colour of row `i` of the list. */
    function RowClassAt(i: nat): (c: Compliance.RowClass)
      reads this
      requires i < |rows|
      ensures var s := Format.StatusFromPctOff(Compliance.PctOff(rows[i].choActualG, rows[i].choAdvisedG));
        && (c == Compliance.RowGood <==> s.tone == Format.Good)
        && (c == Compliance.RowWarn <==> s.tone == Format.Warn)
        && (c == Compliance.RowBad <==> s.tone == Format.Bad)
    {
      Compliance.RowTone(rows[i])
    }
  }
}
