/** The enumerations of `DataExtractor`: the catalog tables, the searchable
    fields and the comparison operators, each with the string it carries on
    the wire. */
module Vocabulary {

  /** `SpaceTrackDatabases`. */
  datatype Dataset = LatestRecords | HistRecords

  /** What a caller may pass as `database`: one of the two tables, or any other
      value, of which the compiler only ever reads `.value`. */
  datatype DatasetArg = Table(table: Dataset) | Unrecognised(value: string)

  /** `SearchFields`. */
  datatype Field =
    | Originator | ObjectName | ObjectId | ClassificationType
    | NoradCatId | LaunchDate | DecayDate | Epoch

  /** `Operators`. */
  datatype Operator = GreaterThan | LessThan | Equal | NotEqual | Range | Like

  function DatasetValue(d: Dataset): string
  {
    match d
    case LatestRecords => "gp"
    case HistRecords => "gp_history"
  }

  /** `database.value` for whatever the caller passed. */
  function DatasetArgValue(arg: DatasetArg): string
  {
    match arg
    case Table(d) => DatasetValue(d)
    case Unrecognised(v) => v
  }

  function FieldValue(f: Field): string
  {
    match f
    case Originator => "ORIGINATOR"
    case ObjectName => "OBJECT_NAME"
    case ObjectId => "OBJECT_ID"
    case ClassificationType => "CLASSIFICATION_TYPE"
    case NoradCatId => "NORAD_CAT_ID"
    case LaunchDate => "LAUNCH_DATE"
    case DecayDate => "DECAY_DATE"
    case Epoch => "EPOCH"
  }

  function OperatorValue(op: Operator): string
  {
    match op
    case GreaterThan => ">"
    case LessThan => "<"
    case Equal => ""
    case NotEqual => "<>"
    case Range => "--"
    case Like => "~~"
  }

  /** Distinct fields are written differently in the path. */
  lemma FieldValueInjective(f: Field, g: Field)
    ensures FieldValue(f) == FieldValue(g) ==> f == g
  {
  }

  /** Distinct operators are written differently in the path. */
  lemma OperatorValueInjective(p: Operator, q: Operator)
    ensures OperatorValue(p) == OperatorValue(q) ==> p == q
  {
  }

  /** The guard `database != LATEST_RECORDS or database != HIST_RECORDS` as
      written: no argument equals both tables, so it always holds. */
  predicate ReplacesDataset(arg: DatasetArg)
  {
    arg != Table(LatestRecords) || arg != Table(HistRecords)
  }

  /** The dataset the query is sent to, after the guard has run: the historical
      table, whatever the caller asked for. */
  function ResolveDataset(arg: DatasetArg): (d: DatasetArg)
    ensures ReplacesDataset(arg)
    ensures d == Table(HistRecords)
    ensures DatasetArgValue(d) == "gp_history"
  {
    if ReplacesDataset(arg) then Table(HistRecords) else arg
  }
}
