/** The entities both stores keep (internal/storage/storage.go) and the columns a patch may write. */
module Sensors {
  import opened Wrappers

  type Int64 = n: int | -0x8000_0000_0000_0000 <= n <= 0x7FFF_FFFF_FFFF_FFFF

  datatype Rule = Rule(name: string, expression: string, targetState: string, messageTemplate: string)

  /** A Go map that may be nil. */
  type Labels = Option<map<string, string>>

  /** `rules` holds pointers, hence the Option; a nil and an empty list are not told apart. */
  datatype SensorInfo = SensorInfo(
    id: string,
    namespace: string,
    name: string,
    resourceVersion: string,
    description: string,
    gracefulPeriod: Int64,
    failurePeriod: Int64,
    labels: Labels,
    registeredAt: int,
    lastSpecUpdatedAt: int,
    rules: seq<Option<Rule>>)

  datatype SensorState = SensorState(
    info: SensorInfo,
    reportedData: map<string, string>,
    lastReportedAt: int)

  datatype SensorIdentity = SensorIdentity(id: string, name: string, namespace: string)

  datatype StorageError = AlreadyExists | NotFound | VersionMismatch

  /** Reading a nil map is reading an empty one. */
  function LabelMap(labels: Labels): map<string, string> {
    labels.GetOr(map[])
  }

  /** The names a patch may use for storage columns; `ColOther` is any other name. */
  datatype Column =
    | ColName
    | ColNamespace
    | ColDescription
    | ColGraceful
    | ColFailure
    | ColLabels
    | ColRules
    | ColOther(text: string)

  const COLUMNS: set<Column> := {ColName, ColNamespace, ColDescription, ColGraceful, ColFailure, ColLabels, ColRules}

  /** Writes one column of `updates`; a name that is no column writes nothing. */
  function SetColumn(info: SensorInfo, updates: SensorInfo, column: Column): SensorInfo {
    match column
    case ColName => info.(name := updates.name)
    case ColNamespace => info.(namespace := updates.namespace)
    case ColDescription => info.(description := updates.description)
    case ColGraceful => info.(gracefulPeriod := updates.gracefulPeriod)
    case ColFailure => info.(failurePeriod := updates.failurePeriod)
    case ColLabels => info.(labels := updates.labels)
    case ColRules => info.(rules := updates.rules)
    case ColOther(_) => info
  }

  function SetColumns(info: SensorInfo, updates: SensorInfo, columns: seq<Column>): SensorInfo
    decreases |columns|
  {
    if columns == [] then info
    else SetColumns(SetColumn(info, updates, columns[0]), updates, columns[1..])
  }

  /** Whether two infos hold the same value in a column. */
  predicate SameColumn(a: SensorInfo, b: SensorInfo, column: Column) {
    SetColumn(a, b, column) == a
  }

  /** `info` with all of the given columns taken from `updates`, at once. */
  function Overlay(info: SensorInfo, updates: SensorInfo, columns: set<Column>): SensorInfo {
    info.(name := if ColName in columns then updates.name else info.name,
          namespace := if ColNamespace in columns then updates.namespace else info.namespace,
          description := if ColDescription in columns then updates.description else info.description,
          gracefulPeriod := if ColGraceful in columns then updates.gracefulPeriod else info.gracefulPeriod,
          failurePeriod := if ColFailure in columns then updates.failurePeriod else info.failurePeriod,
          labels := if ColLabels in columns then updates.labels else info.labels,
          rules := if ColRules in columns then updates.rules else info.rules)
  }

  /** An info without the two fields that are renewed by every change. */
  function Unversioned(info: SensorInfo): SensorInfo {
    info.(resourceVersion := "", lastSpecUpdatedAt := 0)
  }

  function ToSet<T>(s: seq<T>): set<T> {
    set c | c in s
  }

  lemma OverlayOneMore(info: SensorInfo, updates: SensorInfo, column: Column, columns: set<Column>)
    ensures Overlay(SetColumn(info, updates, column), updates, columns) == Overlay(info, updates, columns + {column})
  {
    match column {
      case ColName =>
      case ColNamespace =>
      case ColDescription =>
      case ColGraceful =>
      case ColFailure =>
      case ColLabels =>
      case ColRules =>
      case ColOther(_) =>
    }
  }

  /** Column writes commute: only the set of columns matters, not order or repetition. */
  lemma {:induction false} SetColumnsIsOverlay(info: SensorInfo, updates: SensorInfo, columns: seq<Column>)
    ensures SetColumns(info, updates, columns) == Overlay(info, updates, ToSet(columns))
    decreases |columns|
  {
    if columns != [] {
      var rest := columns[1..];
      SetColumnsIsOverlay(SetColumn(info, updates, columns[0]), updates, rest);
      OverlayOneMore(info, updates, columns[0], ToSet(rest));
      assert ToSet(columns) == ToSet(rest) + {columns[0]};
    }
  }
}
