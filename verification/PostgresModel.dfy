/**
 The Postgres store of internal/storage/postgresql_storage.go, read as transitions of one table. A
 row is kept as the state it is scanned into; its labels may be the JSON null.
 */
module PostgresModel {
  import opened Wrappers
  import opened Sensors
  import opened Filters
  import opened Queries
  import opened Pages
  import StoreModel

  /** The rows by primary key. */
  type Table = map<string, SensorState>

  /**
   An error the store maps, a violated UNIQUE constraint on update, a statement SQL refuses, or text
   that the database does not take.
   */
  datatype DbError = Known(error: StorageError) | UniqueViolation | BadStatement | BadText

  // ---- what the database can hold ----------------------------------------------------------

  /** The length of the VARCHAR columns id, namespace and name. */
  const MAX_VARCHAR: nat := 255

  /** Neither text nor JSONB can hold U+0000. */
  predicate IsText(s: string) {
    '\0' !in s
  }

  predicate IsTextMap(m: map<string, string>) {
    forall k | k in m :: IsText(k) && IsText(m[k])
  }

  predicate IsTextRule(rule: Option<Rule>) {
    rule.Some? ==>
      && IsText(rule.value.name) && IsText(rule.value.expression)
      && IsText(rule.value.targetState) && IsText(rule.value.messageTemplate)
  }

  /** The value sent for a column holds no U+0000. */
  predicate IsTextColumn(info: SensorInfo, column: Column) {
    match column
    case ColName => IsText(info.name)
    case ColNamespace => IsText(info.namespace)
    case ColDescription => IsText(info.description)
    case ColLabels => IsTextMap(LabelMap(info.labels))
    case ColRules => forall rule | rule in info.rules :: IsTextRule(rule)
    case _ => true
  }

  predicate IsTextInfo(info: SensorInfo) {
    IsText(info.id) && forall c | c in COLUMNS :: IsTextColumn(info, c)
  }

  /** Assignment to a VARCHAR(255) column: what is too long is refused, but excess spaces are cut off. */
  function VarChar(s: string): Option<string> {
    if |s| <= MAX_VARCHAR then Some(s)
    else if forall i | MAX_VARCHAR <= i < |s| :: s[i] == ' ' then Some(s[..MAX_VARCHAR])
    else None
  }

  /** The info as the listed columns take it. */
  function Fitted(info: SensorInfo, columns: set<Column>): Option<SensorInfo> {
    var name :- if ColName in columns then VarChar(info.name) else Some(info.name);
    var namespace :- if ColNamespace in columns then VarChar(info.namespace) else Some(info.namespace);
    Some(info.(name := name, namespace := namespace))
  }

  predicate IsShort(info: SensorInfo) {
    |info.id| <= MAX_VARCHAR && |info.namespace| <= MAX_VARCHAR && |info.name| <= MAX_VARCHAR
  }

  /** What the columns of a row always hold. */
  predicate Storable(info: SensorInfo) {
    IsTextInfo(info) && IsShort(info)
  }

  ghost predicate TableInv(t: Table) {
    forall id | id in t :: t[id].info.id == id && Storable(t[id].info) && IsTextMap(t[id].reportedData)
  }

  // ---- the statements ----------------------------------------------------------------------

  function NewRow(sensor: SensorInfo, version: string): SensorState {
    SensorState(sensor.(labels := Some(LabelMap(sensor.labels)), resourceVersion := version, lastSpecUpdatedAt := 0),
                map[], sensor.registeredAt)
  }

  /** A new sensor as the row takes it. */
  function FittedNew(sensor: SensorInfo): Option<SensorInfo> {
    var id :- VarChar(sensor.id);
    var fitted :- Fitted(sensor, COLUMNS);
    Some(fitted.(id := id))
  }

  /** INSERT under the primary key and the constraint unique_namespace_name; the given version is not stored. */
  function Register(t: Table, sensor: SensorInfo, version: string): Result<Table, DbError> {
    if !IsTextInfo(sensor) || FittedNew(sensor).None? then Err(BadText)
    else
      var fitted := FittedNew(sensor).value;
      if fitted.id in t || StoreModel.NameTaken(t, fitted) then Err(Known(AlreadyExists))
      else Ok(t[fitted.id := NewRow(fitted, version)])
  }

  function Greatest(a: int, b: int): int {
    if a >= b then a else b
  }

  predicate HasDuplicates(columns: seq<Column>) {
    exists i, j | 0 <= i < j < |columns| :: columns[i] == columns[j]
  }

  /** The columns that become SET clauses. */
  function Clauses(columns: seq<Column>): seq<Column>
    decreases |columns|
  {
    if columns == [] then []
    else (if columns[0].ColOther? then [] else [columns[0]]) + Clauses(columns[1..])
  }

  /** The parameters of an UPDATE can be sent: the two of its WHERE and one per SET clause. */
  predicate IsTextUpdate(id: string, expected: string, updates: SensorInfo, columns: seq<Column>) {
    IsText(id) && IsText(expected) && forall c | c in columns :: IsTextColumn(updates, c)
  }

  /** The one row that an UPDATE matches. */
  predicate Selects(t: Table, id: string, expected: string) {
    id in t && t[id].info.resourceVersion == expected
  }

  /**
   UPDATE ... WHERE id = ... AND resource_version = ... Whether a text is too long is found out for the
   matching row or, if the planner already folds the conversion (`early`), without any row.
   */
  function Patch(t: Table, id: string, expected: string, updates: SensorInfo, columns: seq<Column>, now: int,
                 version: string, early: bool)
    : Result<Table, DbError>
  {
    if columns == [] then Ok(t)
    else if HasDuplicates(Clauses(columns)) then Err(BadStatement)
    else if !IsTextUpdate(id, expected, updates, columns) then Err(BadText)
    else
      var fitted := Fitted(updates, ToSet(columns));
      if fitted.None? && (early || Selects(t, id, expected)) then Err(BadText)
      else if id !in t then Err(Known(NotFound))
      else if t[id].info.resourceVersion != expected then Err(Known(VersionMismatch))
      else Update(t, id, fitted.value, columns, now, version)
  }

  function Update(t: Table, id: string, updates: SensorInfo, columns: seq<Column>, now: int, version: string)
    : Result<Table, DbError>
    requires id in t
  {
    var written := SetColumns(t[id].info, updates, columns);
    if exists other | other in t && other != id :: StoreModel.SameName(t[other].info, written) then Err(UniqueViolation)
    else
      var info := written.(resourceVersion := version,
                           lastSpecUpdatedAt := Greatest(t[id].info.lastSpecUpdatedAt, now));
      Ok(t[id := t[id].(info := info)])
  }

  /** metadata || $1 keeps the right operand's value for a key in both. */
  function SendData(t: Table, id: string, data: map<string, string>, now: int): Result<Table, DbError> {
    if !IsText(id) || !IsTextMap(data) then Err(BadText)
    else if id !in t then Err(Known(NotFound))
    else Ok(t[id := t[id].(lastReportedAt := now, reportedData := t[id].reportedData + data)])
  }

  function Delete(t: Table, id: string): Result<Table, DbError> {
    if !IsText(id) then Err(BadText)
    else if id !in t then Err(Known(NotFound))
    else Ok(t - {id})
  }

  /** The rows a WHERE clause keeps. */
  function SqlMatchSet(t: Table, filter: QueryFilter): set<string> {
    set id | id in t && SqlMatches(t[id].info, filter)
  }

  /** The order of strings that the database is set up with. */
  type Collation = (string, string) -> bool

  /** A collation is a total order in which only equal strings tie. */
  ghost predicate IsCollation(c: Collation) {
    && (forall a, b :: c(a, b) || c(b, a))
    && (forall a, b :: c(a, b) && c(b, a) ==> a == b)
    && (forall x, y, z :: c(x, y) && c(y, z) ==> c(x, z))
  }

  /** The column of an ORDER BY. */
  function SortKey(orderBy: string, info: SensorInfo): string {
    if orderBy == "id" then info.id else if orderBy == "namespace" then info.namespace else info.name
  }

  /** ORDER BY, or any order without one. */
  function SqlOrder(t: Table, filter: QueryFilter, collation: Collation): Order {
    (a, b) =>
      || filter.orderBy == ""
      || (a in t && b in t &&
          var x, y := SortKey(filter.orderBy, t[a].info), SortKey(filter.orderBy, t[b].info);
          if filter.orderDesc then collation(y, x) else collation(x, y))
  }

  /** What a SELECT may return. */
  ghost predicate MaySelect(t: Table, filter: QueryFilter, collation: Collation, ids: seq<string>) {
    IsPage(SqlMatchSet(t, filter), SqlOrder(t, filter, collation), PageSize(SqlMatchSet(t, filter), filter.limit), ids)
  }

  predicate AllowedOrder(orderBy: string) {
    orderBy == "" || orderBy == "name" || orderBy == "id" || orderBy == "namespace"
  }

  /** The parameters of a SELECT can be sent. */
  predicate IsTextFilter(filter: QueryFilter) {
    && IsText(filter.id) && IsText(filter.name) && IsText(filter.namespace) && IsText(filter.search)
    && IsTextMap(filter.labels) && forall k | k in filter.hasLabelKeys :: IsText(k)
  }

  /** A row as the scan returns it: last_spec_updated is read but dropped. */
  function Scanned(row: SensorState): SensorState {
    row.(info := row.info.(lastSpecUpdatedAt := 0))
  }

  // ---- what is refused, spelled out ----------------------------------------------------------

  /** What is sent for a sensor or for one column of it is refused exactly for a U+0000 somewhere in its text. */
  lemma TextColumnIff(info: SensorInfo)
    ensures IsTextColumn(info, ColName) <==> '\0' !in info.name
    ensures IsTextColumn(info, ColNamespace) <==> '\0' !in info.namespace
    ensures IsTextColumn(info, ColDescription) <==> '\0' !in info.description
    ensures IsTextColumn(info, ColGraceful) && IsTextColumn(info, ColFailure)
    ensures IsTextColumn(info, ColLabels) <==>
            info.labels.None? || forall k | k in info.labels.value :: '\0' !in k && '\0' !in info.labels.value[k]
    ensures IsTextColumn(info, ColRules) <==>
            forall i | 0 <= i < |info.rules| && info.rules[i].Some? ::
              var r := info.rules[i].value;
              '\0' !in r.name && '\0' !in r.expression && '\0' !in r.targetState && '\0' !in r.messageTemplate
    ensures IsTextInfo(info) <==> '\0' !in info.id && forall c | c in COLUMNS :: IsTextColumn(info, c)
  {
    assert forall i | 0 <= i < |info.rules| :: info.rules[i] in info.rules;
  }

  /** A column of 255 characters takes what is no longer, cuts off spaces beyond, and refuses the rest. */
  lemma VarCharIff(s: string)
    ensures VarChar(s) == Some(s) <==> |s| <= 255
    ensures VarChar(s) == None <==> exists i | 255 <= i < |s| :: s[i] != ' '
    ensures VarChar(s).Some? && |s| > 255 ==> VarChar(s).value == s[..255]
  {
  }

  /** A query is refused for the order of a column it does not list, or for U+0000 in one of its texts. */
  lemma QueryRefusedIff(filter: QueryFilter)
    ensures AllowedOrder(filter.orderBy) <==> filter.orderBy in ["", "name", "id", "namespace"]
    ensures IsTextFilter(filter) <==>
            && '\0' !in filter.id && '\0' !in filter.name && '\0' !in filter.namespace && '\0' !in filter.search
            && (forall k | k in filter.labels :: '\0' !in k && '\0' !in filter.labels[k])
            && (forall i | 0 <= i < |filter.hasLabelKeys| :: '\0' !in filter.hasLabelKeys[i])
  {
    assert forall i | 0 <= i < |filter.hasLabelKeys| :: filter.hasLabelKeys[i] in filter.hasLabelKeys;
  }

  /** Registering, outcome by outcome. */
  lemma RegisterSpelled(t: Table, sensor: SensorInfo, version: string)
    ensures var r := Register(t, sensor, version);
            var fits := |sensor.id| <= 255 && |sensor.namespace| <= 255 && |sensor.name| <= 255;
            var taken := sensor.id in t || exists id | id in t ::
                           t[id].info.namespace == sensor.namespace && t[id].info.name == sensor.name;
            && (!IsTextInfo(sensor) ==> r == Err(BadText))
            && ((exists text | text in [sensor.id, sensor.namespace, sensor.name] :: VarChar(text) == None) ==>
                  r == Err(BadText))
            && (IsTextInfo(sensor) && fits && taken ==> r == Err(Known(AlreadyExists)))
            && (IsTextInfo(sensor) && fits && !taken ==>
                  r == Ok(t[sensor.id := SensorState(
                                sensor.(labels := if sensor.labels == None then Some(map[]) else sensor.labels,
                                        resourceVersion := version, lastSpecUpdatedAt := 0),
                                map[], sensor.registeredAt)]))
  {
    hide IsTextInfo;
  }

  /** A statement that sets a column twice is refused; names that are no columns do not count. */
  lemma {:induction false} DuplicatesIff(columns: seq<Column>)
    ensures HasDuplicates(Clauses(columns)) <==>
            exists i, j | 0 <= i < j < |columns| :: columns[i] == columns[j] && !columns[i].ColOther?
    decreases |columns|
  {
    if columns != [] {
      var first, rest := columns[0], columns[1..];
      DuplicatesIff(rest);
      ClausesMembers(rest);
      if !first.ColOther? {
        FirstRepeated(first, Clauses(rest));
        assert Clauses(columns) == [first] + Clauses(rest);
      } else {
        assert Clauses(columns) == Clauses(rest);
      }
      FirstRepeatedReal(first, rest);
      assert columns == [first] + rest;
    }
  }

  lemma FirstRepeated(first: Column, rest: seq<Column>)
    ensures HasDuplicates([first] + rest) <==> first in rest || HasDuplicates(rest)
  {
    var all := [first] + rest;
    assert forall i | 1 <= i < |all| :: all[i] == rest[i - 1];
    assert forall i | 0 <= i < |rest| :: rest[i] == all[i + 1];
    if first in rest {
      var i :| 0 <= i < |rest| && rest[i] == first;
      assert all[0] == all[i + 1];
    }
    if HasDuplicates(rest) {
      var i, j :| 0 <= i < j < |rest| && rest[i] == rest[j];
      assert all[i + 1] == all[j + 1];
    }
  }

  lemma FirstRepeatedReal(first: Column, rest: seq<Column>)
    ensures var all := [first] + rest;
            (exists i, j | 0 <= i < j < |all| :: all[i] == all[j] && !all[i].ColOther?) <==>
            || (first in rest && !first.ColOther?)
            || exists i, j | 0 <= i < j < |rest| :: rest[i] == rest[j] && !rest[i].ColOther?
  {
    var all := [first] + rest;
    assert forall i | 1 <= i < |all| :: all[i] == rest[i - 1];
    if first in rest && !first.ColOther? {
      var i :| 0 <= i < |rest| && rest[i] == first;
      assert all[0] == all[i + 1] && !all[0].ColOther?;
    }
    if exists i, j | 0 <= i < j < |rest| :: rest[i] == rest[j] && !rest[i].ColOther? {
      var i, j :| 0 <= i < j < |rest| && rest[i] == rest[j] && !rest[i].ColOther?;
      assert all[i + 1] == all[j + 1] && !all[i + 1].ColOther?;
    }
  }

  /** Updating with text that the columns hold, outcome by outcome; anything else it refuses for the text. */
  lemma PatchSpelled(t: Table, id: string, expected: string, updates: SensorInfo, columns: seq<Column>, now: int,
                     version: string, early: bool)
    requires columns != []
    ensures Patch(t, id, expected, updates, columns, now, version, early) == Err(BadStatement) <==>
            exists i, j | 0 <= i < j < |columns| :: columns[i] == columns[j] && !columns[i].ColOther?
    ensures var r := Patch(t, id, expected, updates, columns, now, version, early);
            r != Err(BadStatement) ==>
            var sent := '\0' !in id && '\0' !in expected && forall c | c in columns :: IsTextColumn(updates, c);
            var fits := |updates.name| <= 255 && |updates.namespace| <= 255;
            && (!sent ==> r == Err(BadText))
            && (sent && fits && id !in t ==> r == Err(Known(NotFound)))
            && (sent && fits && id in t && t[id].info.resourceVersion != expected ==> r == Err(Known(VersionMismatch)))
            && (sent && fits && id in t && t[id].info.resourceVersion == expected ==>
                  var written := SetColumns(t[id].info, updates, columns);
                  var taken := exists other | other in t && other != id ::
                                 t[other].info.namespace == written.namespace && t[other].info.name == written.name;
                  && (taken ==> r == Err(UniqueViolation))
                  && (!taken ==>
                        && r.Ok? && r.value.Keys == t.Keys
                        && (forall other | other in t && other != id :: r.value[other] == t[other])
                        && r.value[id].reportedData == t[id].reportedData
                        && r.value[id].lastReportedAt == t[id].lastReportedAt
                        && Unversioned(r.value[id].info) == Unversioned(written)))
  {
    hide SetColumns, IsTextColumn, Clauses, HasDuplicates;
    DuplicatesIff(columns);
    if |updates.name| <= 255 && |updates.namespace| <= 255 {
      FittedIsShort(updates, ToSet(columns));
    }
  }

  // ---- what the statements keep ------------------------------------------------------------

  lemma FittedIsShort(info: SensorInfo, columns: set<Column>)
    ensures Fitted(info, columns).Some? ==>
              && (ColName in columns ==> |Fitted(info, columns).value.name| <= 255)
              && (ColNamespace in columns ==> |Fitted(info, columns).value.namespace| <= 255)
    ensures Fitted(info, columns) == Some(info) <==>
              && (ColName in columns ==> |info.name| <= 255)
              && (ColNamespace in columns ==> |info.namespace| <= 255)
  {
  }

  /** Cutting a text off adds no character. */
  lemma FittedIsText(info: SensorInfo, columns: set<Column>, column: Column)
    requires Fitted(info, columns).Some? && IsTextColumn(info, column)
    ensures IsTextColumn(Fitted(info, columns).value, column)
  {
  }

  /** Fresh rows hold what the columns can hold. */
  lemma NewRowIsStorable(sensor: SensorInfo, version: string)
    requires IsTextInfo(sensor) && FittedNew(sensor).Some?
    ensures Storable(NewRow(FittedNew(sensor).value, version).info)
  {
    var fitted := FittedNew(sensor).value;
    FittedIsShort(sensor, COLUMNS);
    forall c | c in COLUMNS
      ensures IsTextColumn(NewRow(fitted, version).info, c)
    {
      FittedIsText(sensor, COLUMNS, c);
      assert IsTextColumn(fitted, c);
    }
  }

  /** So do rows after an update: each column holds what it held or what was sent for it. */
  lemma UpdatedIsStorable(info: SensorInfo, updates: SensorInfo, columns: seq<Column>)
    requires Storable(info)
    requires forall c | c in columns :: IsTextColumn(updates, c)
    requires Fitted(updates, ToSet(columns)).Some?
    ensures Storable(SetColumns(info, Fitted(updates, ToSet(columns)).value, columns))
  {
    var cols := ToSet(columns);
    var fitted := Fitted(updates, cols).value;
    SetColumnsIsOverlay(info, fitted, columns);
    FittedIsShort(updates, cols);
    forall c | c in COLUMNS
      ensures IsTextColumn(Overlay(info, fitted, cols), c)
    {
      if c in cols {
        FittedIsText(updates, cols, c);
      }
      assert IsTextColumn(info, c);
    }
  }

  lemma PatchKeepsTable(t: Table, id: string, expected: string, updates: SensorInfo, columns: seq<Column>, now: int,
                        version: string, early: bool)
    requires TableInv(t) && Patch(t, id, expected, updates, columns, now, version, early).Ok?
    ensures TableInv(Patch(t, id, expected, updates, columns, now, version, early).value)
  {
    hide Storable, IsTextMap, Fitted, IsTextColumn, SetColumns;
    if columns != [] {
      UpdatedIsStorable(t[id].info, updates, columns);
      var fitted := Fitted(updates, ToSet(columns)).value;
      var written := SetColumns(t[id].info, fitted, columns);
      StoreModel.SetColumnsKeeps(t[id].info, fitted, columns);
      StampedIsStorable(written, version, Greatest(t[id].info.lastSpecUpdatedAt, now));
    }
  }

  /** The time of the last change never goes back: it is the later of the one stored and the one given. */
  lemma ChangeTimeIsLater(t: Table, id: string, expected: string, updates: SensorInfo, columns: seq<Column>, now: int,
                          version: string, early: bool)
    requires columns != [] && Patch(t, id, expected, updates, columns, now, version, early).Ok?
    ensures var after := Patch(t, id, expected, updates, columns, now, version, early).value;
            && id in t && id in after
            && after[id].info.lastSpecUpdatedAt >= t[id].info.lastSpecUpdatedAt
            && after[id].info.lastSpecUpdatedAt >= now
            && after[id].info.lastSpecUpdatedAt in {t[id].info.lastSpecUpdatedAt, now}
            && after[id].info.resourceVersion == version
  {
  }

  lemma StampedIsStorable(info: SensorInfo, version: string, time: int)
    requires Storable(info)
    ensures Storable(info.(resourceVersion := version, lastSpecUpdatedAt := time))
  {
    var stamped := info.(resourceVersion := version, lastSpecUpdatedAt := time);
    forall c | c in COLUMNS
      ensures IsTextColumn(stamped, c)
    {
      assert IsTextColumn(info, c);
    }
  }

  lemma MergeIsText(a: map<string, string>, b: map<string, string>)
    requires IsTextMap(a) && IsTextMap(b)
    ensures IsTextMap(a + b)
  {
  }

  lemma SqlOrderIsOrder(t: Table, filter: QueryFilter, collation: Collation)
    requires IsCollation(collation)
    ensures IsOrder(SqlMatchSet(t, filter), SqlOrder(t, filter, collation))
  {
    hide SqlMatches, SortKey;
    var m, r := SqlMatchSet(t, filter), SqlOrder(t, filter, collation);
    forall a, b | a in m && b in m
      ensures r(a, b) || r(b, a)
    {
      var x, y := SortKey(filter.orderBy, t[a].info), SortKey(filter.orderBy, t[b].info);
      assert collation(x, y) || collation(y, x);
    }
    forall a, b, c | a in m && b in m && c in m && r(a, b) && r(b, c)
      ensures r(a, c)
    {
      var x, y := SortKey(filter.orderBy, t[a].info), SortKey(filter.orderBy, t[b].info);
      var z := SortKey(filter.orderBy, t[c].info);
      assert collation(x, y) && collation(y, z) ==> collation(x, z);
    }
  }

  /** What a SELECT may return, in terms of the rows. */
  lemma SelectionSpelled(t: Table, filter: QueryFilter, collation: Collation, ids: seq<string>)
    requires MaySelect(t, filter, collation, ids)
    ensures forall i | 0 <= i < |ids| ::
              && ids[i] in t
              && (filter.id != "" ==> t[ids[i]].info.id == filter.id)
              && (filter.name != "" ==> t[ids[i]].info.name == filter.name)
              && (filter.namespace != "" ==> t[ids[i]].info.namespace == filter.namespace)
    ensures filter.search == "" && filter.labels == map[] && filter.hasLabelKeys == [] && filter.limit <= 0 ==>
              forall id | id in t && id !in ids ::
                || (filter.id != "" && t[id].info.id != filter.id)
                || (filter.name != "" && t[id].info.name != filter.name)
                || (filter.namespace != "" && t[id].info.namespace != filter.namespace)
  {
    hide SqlMatches, SqlOrder;
    forall id | id in t && IsPlain(filter.search) {
      SqlMatchesIff(t[id].info, filter);
    }
    forall id | id in t && SqlMatches(t[id].info, filter)
      ensures filter.id in {"", t[id].info.id} && filter.name in {"", t[id].info.name}
      ensures filter.namespace in {"", t[id].info.namespace}
    {
      SqlMatchesIdentity(t[id].info, filter);
    }
    if filter.limit <= 0 {
      PageMembers(ids);
      assert ToSet(ids) <= SqlMatchSet(t, filter);
      SubsetOfSameSize(ToSet(ids), SqlMatchSet(t, filter));
    }
  }

  lemma SqlMatchesIdentity(info: SensorInfo, filter: QueryFilter)
    requires SqlMatches(info, filter)
    ensures filter.id in {"", info.id} && filter.name in {"", info.name} && filter.namespace in {"", info.namespace}
  {
  }

  lemma SelectionInOrder(t: Table, filter: QueryFilter, collation: Collation, ids: seq<string>, i: nat, j: nat)
    requires MaySelect(t, filter, collation, ids) && i < j < |ids| && ids[i] in t && ids[j] in t
    ensures var a, b := t[ids[i]].info, t[ids[j]].info;
            && (filter.orderBy == "id" ==> if filter.orderDesc then collation(b.id, a.id) else collation(a.id, b.id))
            && (filter.orderBy == "name" ==>
                  if filter.orderDesc then collation(b.name, a.name) else collation(a.name, b.name))
            && (filter.orderBy == "namespace" ==>
                  if filter.orderDesc then collation(b.namespace, a.namespace)
                  else collation(a.namespace, b.namespace))
  {
    hide SqlMatches;
    var a, b, key := t[ids[i]].info, t[ids[j]].info, filter.orderBy;
    assert SqlOrder(t, filter, collation)(ids[i], ids[j]);
    assert |"id"| != |"name"| && |"id"| != |"namespace"| && |"name"| != |"namespace"|;
    assert key == "id" ==> SortKey(key, a) == a.id && SortKey(key, b) == b.id;
    assert key == "name" ==> SortKey(key, a) == a.name && SortKey(key, b) == b.name;
    assert key == "namespace" ==> SortKey(key, a) == a.namespace && SortKey(key, b) == b.namespace;
  }

  /** The rows of such a selection are those asked for. */
  lemma RowsAreAskedFor(t: Table, filter: QueryFilter, collation: Collation, ids: seq<string>, rows: seq<SensorState>)
    requires MaySelect(t, filter, collation, ids) && |rows| == |ids|
    requires forall i | 0 <= i < |ids| :: ids[i] in t && rows[i] == Scanned(t[ids[i]])
    ensures forall row | row in rows ::
              && (filter.id != "" ==> row.info.id == filter.id)
              && (filter.name != "" ==> row.info.name == filter.name)
              && (filter.namespace != "" ==> row.info.namespace == filter.namespace)
    ensures filter.search == "" && filter.labels == map[] && filter.hasLabelKeys == [] && filter.limit <= 0 ==>
              forall id | id in t && Scanned(t[id]) !in rows ::
                || (filter.id != "" && t[id].info.id != filter.id)
                || (filter.name != "" && t[id].info.name != filter.name)
                || (filter.namespace != "" && t[id].info.namespace != filter.namespace)
  {
    hide MaySelect;
    SelectionSpelled(t, filter, collation, ids);
    forall id | id in t && Scanned(t[id]) !in rows
      ensures id !in ids
    {
      assert forall i | 0 <= i < |ids| :: rows[i] in rows;
    }
  }

  /** And they are in the order asked for. */
  lemma RowsAreInOrder(t: Table, filter: QueryFilter, collation: Collation, ids: seq<string>, rows: seq<SensorState>)
    requires MaySelect(t, filter, collation, ids) && |rows| == |ids|
    requires forall i | 0 <= i < |ids| :: ids[i] in t && rows[i] == Scanned(t[ids[i]])
    ensures filter.orderBy == "id" ==> forall i, j | 0 <= i < j < |rows| ::
              if filter.orderDesc then collation(rows[j].info.id, rows[i].info.id)
              else collation(rows[i].info.id, rows[j].info.id)
    ensures filter.orderBy == "name" ==> forall i, j | 0 <= i < j < |rows| ::
              if filter.orderDesc then collation(rows[j].info.name, rows[i].info.name)
              else collation(rows[i].info.name, rows[j].info.name)
    ensures filter.orderBy == "namespace" ==> forall i, j | 0 <= i < j < |rows| ::
              if filter.orderDesc then collation(rows[j].info.namespace, rows[i].info.namespace)
              else collation(rows[i].info.namespace, rows[j].info.namespace)
  {
    hide MaySelect;
    forall i: nat, j: nat | i < j < |ids| {
      SelectionInOrder(t, filter, collation, ids, i, j);
    }
  }

  /** A query by id finds the row of that id and no other; with an empty id it is not restricted. */
  lemma ByIdSelects(t: Table, id: string, collation: Collation, ids: seq<string>)
    requires forall k | k in t :: t[k].info.id == k
    requires MaySelect(t, EMPTY_FILTER.(id := id, limit := 1), collation, ids)
    ensures id != "" ==> ids == if id in t then [id] else []
    ensures id == "" ==> (ids == [] <==> t == map[]) && forall k | k in ids :: k in t
  {
    var filter := EMPTY_FILTER.(id := id, limit := 1);
    if id != "" {
      assert SqlMatchSet(t, filter) == if id in t then {id} else {};
      if id in t {
        assert |ids| == 1 && ids[0] in SqlMatchSet(t, filter);
      }
    } else {
      assert SqlMatchSet(t, filter) == t.Keys;
      assert forall k | k in ids :: exists i | 0 <= i < |ids| :: ids[i] == k;
    }
  }

  lemma ClausesOneMore(columns: seq<Column>, i: nat)
    requires i < |columns|
    ensures Clauses(columns[..i + 1]) == Clauses(columns[..i]) + (if columns[i].ColOther? then [] else [columns[i]])
  {
    assert columns[..i + 1] == columns[..i] + [columns[i]];
    ClausesConcat(columns[..i], [columns[i]]);
    assert [columns[i]][1..] == [];
  }

  lemma {:induction false} ClausesConcat(a: seq<Column>, b: seq<Column>)
    ensures Clauses(a + b) == Clauses(a) + Clauses(b)
    decreases |a|
  {
    if a == [] {
      assert a + b == b;
    } else {
      assert (a + b)[0] == a[0] && (a + b)[1..] == a[1..] + b;
      ClausesConcat(a[1..], b);
    }
  }

  /** Names that are no columns change nothing, so leaving them out of the statement is right. */
  lemma {:induction false} ClausesSetTheSame(info: SensorInfo, updates: SensorInfo, columns: seq<Column>)
    ensures SetColumns(info, updates, Clauses(columns)) == SetColumns(info, updates, columns)
    decreases |columns|
  {
    if columns != [] {
      ClausesSetTheSame(SetColumn(info, updates, columns[0]), updates, columns[1..]);
      var rest := Clauses(columns[1..]);
      assert [] + rest == rest;
      if !columns[0].ColOther? {
        assert ([columns[0]] + rest)[1..] == rest;
      }
    }
  }

  lemma {:induction false} ClausesMembers(columns: seq<Column>)
    ensures forall c :: c in Clauses(columns) <==> c in columns && !c.ColOther?
    decreases |columns|
  {
    if columns != [] {
      ClausesMembers(columns[1..]);
      assert forall c :: c in columns <==> c == columns[0] || c in columns[1..];
    }
  }

  /** Nor do they matter to what can be sent and stored. */
  lemma ClausesFitTheSame(id: string, expected: string, updates: SensorInfo, columns: seq<Column>)
    ensures IsTextUpdate(id, expected, updates, Clauses(columns)) == IsTextUpdate(id, expected, updates, columns)
    ensures Fitted(updates, ToSet(Clauses(columns))) == Fitted(updates, ToSet(columns))
  {
    ClausesMembers(columns);
    assert forall c: Column | c.ColOther? :: IsTextColumn(updates, c);
    assert forall c :: c in ToSet(columns) <==> c in columns;
    assert forall c :: c in ToSet(Clauses(columns)) <==> c in Clauses(columns);
  }
}
