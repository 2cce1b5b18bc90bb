/** What a client gets that replaces whole fields: exactly those fields change, to exactly those values. */
module ColumnPatches {
  import opened Wrappers
  import opened Strings
  import opened Sensors
  import opened JsonPatch
  import opened Patching

  function ColumnPath(column: Column): string
    requires column in COLUMNS
  {
    "/" + ColumnPointer(column)[0] + "/" + ColumnPointer(column)[1]
  }

  /** The operation that gives a field the value it has in `updates`. */
  function ReplaceColumn(column: Column, updates: SensorInfo): PatchOperation
    requires column in COLUMNS
  {
    PatchOperation("replace", ColumnPath(column), JsonText(EncodeColumn(updates, column)))
  }

  function ReplaceColumns(columns: seq<Column>, updates: SensorInfo): (ops: seq<PatchOperation>)
    requires forall c | c in columns :: c in COLUMNS
    ensures |ops| == |columns|
    ensures forall i | 0 <= i < |ops| :: ops[i] == ReplaceColumn(columns[i], updates)
    decreases |columns|
  {
    if columns == [] then [] else [ReplaceColumn(columns[0], updates)] + ReplaceColumns(columns[1..], updates)
  }

  /** The key of the allowlist that names a column. */
  function ColumnRoot(column: Column): string
    requires column in COLUMNS
  {
    match column
    case ColName => "/metadata/name"
    case ColNamespace => "/metadata/namespace"
    case ColDescription => "/metadata/description"
    case ColLabels => "/metadata/labels"
    case ColGraceful => "/spec/graceful_period_seconds"
    case ColFailure => "/spec/failure_period_seconds"
    case _ => "/spec/rules"
  }

  lemma ColumnRootIsKey(column: Column)
    requires column in COLUMNS
    ensures ColumnRoot(column) in PATCHABLE_PATHS && ColumnOfRoot(ColumnRoot(column)) == Some(column)
  {
  }

  /** Every column can be patched, under the path that names it. */
  lemma ColumnPathIsPatchable(column: Column)
    requires column in COLUMNS
    ensures ValidatePath(ColumnPath(column)) && ParsePointer(ColumnPath(column)) == Some(ColumnPointer(column))
  {
    hide ParsePointer, HasPrefix, ColumnRoot, ColumnOfRoot, ColumnPointer;
    ColumnRootIsKey(column);
    PatchableRoot(ColumnRoot(column));
    var p := ColumnPointer(column);
    PlainColumnPointer(column);
    assert p == [p[0], p[1]];
    ExactPointer(ColumnPath(column), p[0], p[1]);
  }

  /** Each operation touches the one column it replaces. */
  lemma ReplaceTouches(column: Column, updates: SensorInfo)
    requires column in COLUMNS
    ensures PathToColumn(ReplaceColumn(column, updates).path) == Some(column)
  {
    hide ValidatePath, ParsePointer, PathToColumn, ColumnPointer, ColumnPath, EncodeColumn;
    var path := ColumnPath(column);
    ColumnPathIsPatchable(column);
    AcceptedPathHasColumn(path);
    var touched := PathToColumn(path).value;
    var p := ColumnPointer(column);
    assert p[..2] == p;
    if touched != column {
      ColumnPointersDiffer(touched, column);
    }
  }

  /** Replacing the field of a single column. */
  lemma ReplaceOne(info: SensorInfo, updates: SensorInfo, column: Column)
    requires column in COLUMNS
    ensures var ops := ReplaceColumns([column], updates);
            && ops != [] && Touched(ops) == {column}
            && PatchInfo(info, ops) == Ok(SetColumn(Unversioned(info), updates, column))
  {
    hide ValidatePath, PatchInfo, PathToColumn, ColumnPath, EncodeColumn;
    var ops := ReplaceColumns([column], updates);
    assert ops == [ReplaceColumn(column, updates)];
    ReplaceTouches(column, updates);
    ReplacesSetColumns(info, updates, [column]);
    SetColumnsIsOverlay(Unversioned(info), updates, [column]);
    assert SetColumns(Unversioned(info), updates, [column]) == SetColumn(Unversioned(info), updates, column) by {
      assert [column][1..] == [];
    }
    assert forall op :: op in ops <==> op == ReplaceColumn(column, updates);
  }

  /** Replacing a field of the document of an info gives the document of the info with that column set. */
  lemma ReplaceIsSetColumn(info: SensorInfo, updates: SensorInfo, column: Column)
    requires column in COLUMNS
    ensures EditAt(EncodeInfo(info), ColumnPointer(column), Replace(EncodeColumn(updates, column))) ==
            Some(EncodeInfo(SetColumn(info, updates, column)))
  {
    hide EncodeColumn, SetColumn;
    var p := ColumnPointer(column);
    assert p == [p[0], p[1]];
    var before, after := EncodeInfo(info).members, EncodeInfo(SetColumn(info, updates, column)).members;
    SectionAfter(info, updates, column);
    ReplaceInSection(before, p[0], p[1], EncodeColumn(updates, column));
    assert before[p[0] := after[p[0]]] == after;
  }

  /** A replace two levels down replaces one member of one section. */
  lemma ReplaceInSection(doc: map<string, Json>, section: string, field: string, value: Json)
    requires section in doc && doc[section].JObject? && field in doc[section].members
    ensures EditAt(JObject(doc), [section, field], Replace(value)) ==
            Some(JObject(doc[section := JObject(doc[section].members[field := value])]))
  {
    assert [section, field][1..] == [field];
    assert EditAt(doc[section], [field], Replace(value)) == Some(JObject(doc[section].members[field := value]));
  }

  lemma SectionAfter(info: SensorInfo, updates: SensorInfo, column: Column)
    requires column in COLUMNS
    ensures var p := ColumnPointer(column);
            var before, after := EncodeInfo(info).members, EncodeInfo(SetColumn(info, updates, column)).members;
            && before.Keys == after.Keys == {"metadata", "spec"}
            && (forall other | other in before && other != p[0] :: after[other] == before[other])
            && before[p[0]].JObject? && p[1] in before[p[0]].members
            && after[p[0]] == JObject(before[p[0]].members[p[1] := EncodeColumn(updates, column)])
  {
    hide EncodeLabels, EncodeRules;
    var p := ColumnPointer(column);
    if p[0] == "metadata" {
      MetadataAfter(info, updates, column);
    } else {
      SpecAfter(info, updates, column);
    }
  }

  lemma MetadataAfter(info: SensorInfo, updates: SensorInfo, column: Column)
    requires column in {ColName, ColNamespace, ColDescription, ColLabels}
    ensures var before, after := EncodeInfo(info).members, EncodeInfo(SetColumn(info, updates, column)).members;
            && after["spec"] == before["spec"]
            && after["metadata"].members ==
               before["metadata"].members[ColumnPointer(column)[1] := EncodeColumn(updates, column)]
  {
    hide EncodeLabels, EncodeRules;
  }

  lemma SpecAfter(info: SensorInfo, updates: SensorInfo, column: Column)
    requires column in {ColGraceful, ColFailure, ColRules}
    ensures var before, after := EncodeInfo(info).members, EncodeInfo(SetColumn(info, updates, column)).members;
            && after["metadata"] == before["metadata"]
            && after["spec"].members ==
               before["spec"].members[ColumnPointer(column)[1] := EncodeColumn(updates, column)]
  {
    hide EncodeLabels, EncodeRules;
  }

  lemma {:induction false} ReplacesApply(info: SensorInfo, updates: SensorInfo, columns: seq<Column>)
    requires forall c | c in columns :: c in COLUMNS
    ensures var ops := ReplaceColumns(columns, updates);
            && (forall op | op in ops :: ValidatePath(op.path))
            && BuildOps(ops).Some?
            && ApplyOps(EncodeInfo(info), BuildOps(ops).value) == Some(EncodeInfo(SetColumns(info, updates, columns)))
    decreases |columns|
  {
    hide ValidatePath, ParsePointer, EncodeInfo, EditAt, ColumnPath, EncodeColumn, ColumnPointer, SetColumn;
    if columns != [] {
      var c, rest := columns[0], columns[1..];
      ColumnPathIsPatchable(c);
      ReplaceIsSetColumn(info, updates, c);
      ReplacesApply(SetColumn(info, updates, c), updates, rest);
      var ops := ReplaceColumns(columns, updates);
      assert ops[1..] == ReplaceColumns(rest, updates);
      assert BuildOps(ops).value[1..] == BuildOps(ReplaceColumns(rest, updates)).value;
    }
  }

  /** Replacing fields, in any order and even repeatedly, sets exactly those columns. */
  lemma ReplacesSetColumns(info: SensorInfo, updates: SensorInfo, columns: seq<Column>)
    requires forall c | c in columns :: c in COLUMNS
    ensures PatchInfo(info, ReplaceColumns(columns, updates)) == Ok(Overlay(Unversioned(info), updates, ToSet(columns)))
  {
    hide ValidatePath, EncodeInfo, DecodeInfo;
    var target := SetColumns(info, updates, columns);
    ReplacesApply(info, updates, columns);
    SetColumnsIsOverlay(info, updates, columns);
    InfoRoundTrip(target);
    SameOwner(EncodeInfo(target), info, target);
  }
}
