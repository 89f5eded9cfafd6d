/** The record shapes of the data store (Player, FuelLog) and the optional
    value used wherever the source writes `number | null`. */
module Types {

  /** `T | null`: absent is a value of its own, distinct from 0. */
  datatype Option<+T> = None | Some(value: T) {
    /** `x ?? d`: the value when there is one, the default only when it is absent. */
    function GetOr(default: T): (r: T)
      ensures this.Some? ==> r == this.value
      ensures this.None? ==> r == default
    {
      match this
      case Some(v) => v
      case None => default
    }
  }

  /** A squad member; the body mass is a required number. */
  datatype Player = Player(id: string, name: string, bodyMassKg: real)

  /** Position of a day relative to match day: exactly seven values. */
  datatype DayLabel = MD | MDPlus1 | MDPlus2 | MDPlus3 | MDPlus4 | MDMinus2 | MDMinus1

  /** The text the data store keeps for a day label. */
  function DayLabelText(d: DayLabel): (s: string)
    ensures 2 <= |s| <= 4 && s[..2] == "MD"
    ensures s == "MD" <==> d == MD
  {
    match d
    case MD => "MD"
    case MDPlus1 => "MD+1"
    case MDPlus2 => "MD+2"
    case MDPlus3 => "MD+3"
    case MDPlus4 => "MD+4"
    case MDMinus2 => "MD-2"
    case MDMinus1 => "MD-1"
  }

  /** Reads a stored day label back; any other text is not a day label. The app
      never parses a label (the day selector hands its value over as a label);
      this inverse exists to show that the seven stored texts are distinct. */
  function ParseDayLabel(s: string): (r: Option<DayLabel>)
    ensures r.Some? ==> DayLabelText(r.value) == s
  {
    if s == "MD" then Some(MD)
    else if s == "MD+1" then Some(MDPlus1)
    else if s == "MD+2" then Some(MDPlus2)
    else if s == "MD+3" then Some(MDPlus3)
    else if s == "MD+4" then Some(MDPlus4)
    else if s == "MD-2" then Some(MDMinus2)
    else if s == "MD-1" then Some(MDMinus1)
    else None
  }

  /** Every label's text reads back as that label, so distinct labels have distinct texts. */
  lemma DayLabelTextRoundTrip(d: DayLabel)
    ensures ParseDayLabel(DayLabelText(d)) == Some(d)
  {
  }

  /** One daily intake record. `gameWeek`, `logDate`, `id` and `playerId` are
      required; the six gram fields and the notes are each optional. */
  datatype FuelLog = FuelLog(
    id: string,
    playerId: string,
    gameWeek: int,
    logDate: string,
    dayLabel: DayLabel,
    choAdvisedG: Option<real>,
    choActualG: Option<real>,
    proAdvisedG: Option<real>,
    proActualG: Option<real>,
    fatAdvisedG: Option<real>,
    fatActualG: Option<real>,
    notes: Option<string>)

  /** The numeric keys of a FuelLog that the screens sum over. */
  datatype Field = ChoAdvised | ChoActual | ProAdvised | ProActual | FatAdvised | FatActual

  /** `r[k]` for a numeric key. */
  function FieldValue(r: FuelLog, k: Field): Option<real> {
    match k
    case ChoAdvised => r.choAdvisedG
    case ChoActual => r.choActualG
    case ProAdvised => r.proAdvisedG
    case ProActual => r.proActualG
    case FatAdvised => r.fatAdvisedG
    case FatActual => r.fatActualG
  }

  /** The three tracked macronutrients. */
  datatype Macro = Cho | Pro | Fat

  function AdvisedField(m: Macro): Field {
    match m
    case Cho => ChoAdvised
    case Pro => ProAdvised
    case Fat => FatAdvised
  }

  function ActualField(m: Macro): Field {
    match m
    case Cho => ChoActual
    case Pro => ProActual
    case Fat => FatActual
  }
}
