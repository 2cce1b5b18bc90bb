/** The methods of the Postgres store: each is one statement on the table, specified by PostgresModel. */
module PostgresStorage {
  import opened Wrappers
  import opened Sensors
  import opened Filters
  import opened Pages
  import StoreModel
  import Model = PostgresModel
  import opened PostgresModel

  class PostgresSensorStorage {
    const collation: Collation
    var table: Table

    /** Rows sit under their own id and hold what the columns can hold. */
    ghost predicate Valid()
      reads this
    {
      TableInv(table) && IsCollation(collation)
    }

    constructor (collation: Collation)
      requires IsCollation(collation)
      ensures Valid() && table == map[] && this.collation == collation
    {
      this.collation := collation;
      table := map[];
    }

    method Register(sensor: SensorInfo, version: string) returns (r: Result<(), DbError>)
      requires Valid()
      modifies this
      ensures Valid()
      ensures match Model.Register(old(table), sensor, version)
              case Ok(t) => r == Ok(()) && table == t
              case Err(e) => r == Err(e) && table == old(table)
    {
      hide IsTextInfo, Storable, StoreModel.SameName;
      if !IsTextInfo(sensor) {
        return Err(BadText);
      }
      var labels := sensor.labels;
      if labels.None? {
        labels := Some(map[]);
      }
      var id, namespace, name := VarChar(sensor.id), VarChar(sensor.namespace), VarChar(sensor.name);
      if id.None? || namespace.None? || name.None? {
        return Err(BadText);
      }
      var info := sensor.(id := id.value, namespace := namespace.value, name := name.value);
      assert FittedNew(sensor) == Some(info);
      if info.id in table || exists other | other in table :: StoreModel.SameName(table[other].info, info) {
        return Err(Known(AlreadyExists));
      }
      NewRowIsStorable(sensor, version);
      var row := SensorState(info.(labels := labels, resourceVersion := version, lastSpecUpdatedAt := 0),
                             map[], sensor.registeredAt);
      table := table[info.id := row];
      r := Ok(());
    }

    /** The statement builder: SET clauses are collected first, then one statement is executed. */
    method Patch(id: string, expected: string, updates: SensorInfo, columns: seq<Column>, now: int, version: string,
                 early: bool)
      returns (r: Result<(), DbError>)
      requires Valid()
      modifies this
      ensures Valid()
      ensures match Model.Patch(old(table), id, expected, updates, columns, now, version, early)
              case Ok(t) => r == Ok(()) && table == t
              case Err(e) => r == Err(e) && table == old(table)
    {
      hide Storable, IsTextMap, Fitted, IsTextColumn, SetColumns, IsTextUpdate;
      if |columns| == 0 {
        return Ok(());
      }
      var builder: seq<Column> := [];
      for i := 0 to |columns|
        invariant table == old(table)
        invariant builder == Clauses(columns[..i])
      {
        if !columns[i].ColOther? {
          builder := builder + [columns[i]];
        }
        ClausesOneMore(columns, i);
      }
      assert columns[..|columns|] == columns;
      ClausesFitTheSame(id, expected, updates, columns);
      if HasDuplicates(builder) {
        return Err(BadStatement);
      }
      if !IsTextUpdate(id, expected, updates, builder) {
        return Err(BadText);
      }
      var fitted := Fitted(updates, ToSet(builder));
      var matches := id in table && table[id].info.resourceVersion == expected;
      if fitted.None? && (early || matches) {
        return Err(BadText);
      }
      if matches {
        ClausesSetTheSame(table[id].info, fitted.value, columns);
        var info := SetColumns(table[id].info, fitted.value, builder);
        if exists other | other in table && other != id :: StoreModel.SameName(table[other].info, info) {
          return Err(UniqueViolation);
        }
        PatchKeepsTable(table, id, expected, updates, columns, now, version, early);
        info := info.(resourceVersion := version, lastSpecUpdatedAt := Greatest(table[id].info.lastSpecUpdatedAt, now));
        table := table[id := table[id].(info := info)];
        return Ok(());
      }
      if id !in table {
        return Err(Known(NotFound));
      }
      r := Err(Known(VersionMismatch));
    }

    /** A report: each of its entries is set, every other entry, column and row stays. */
    method SendData(id: string, data: map<string, string>, now: int) returns (r: Result<(), DbError>)
      requires Valid()
      modifies this
      ensures Valid()
      ensures r.Ok? <==> IsText(id) && IsTextMap(data) && id in old(table)
      ensures r.Err? ==> table == old(table)
      ensures r.Err? ==> r.error == if IsText(id) && IsTextMap(data) then Known(NotFound) else BadText
      ensures r.Ok? ==>
                && table.Keys == old(table).Keys
                && (forall other | other in table && other != id :: table[other] == old(table)[other])
                && table[id].info == old(table)[id].info && table[id].lastReportedAt == now
                && (forall k | k in data :: k in table[id].reportedData && table[id].reportedData[k] == data[k])
                && (forall k | k !in data ::
                      && (k in table[id].reportedData <==> k in old(table)[id].reportedData)
                      && (k in table[id].reportedData ==> table[id].reportedData[k] == old(table)[id].reportedData[k]))
      ensures match Model.SendData(old(table), id, data, now)
              case Ok(t) => r == Ok(()) && table == t
              case Err(e) => r == Err(e) && table == old(table)
    {
      if !IsText(id) || !IsTextMap(data) {
        return Err(BadText);
      }
      if id !in table {
        return Err(Known(NotFound));
      }
      MergeIsText(table[id].reportedData, data);
      table := table[id := table[id].(lastReportedAt := now, reportedData := table[id].reportedData + data)];
      r := Ok(());
    }

    /** The row is gone, all others stay; deleting again finds nothing. */
    method Delete(id: string) returns (r: Result<(), DbError>)
      requires Valid()
      modifies this
      ensures Valid()
      ensures r.Ok? <==> IsText(id) && id in old(table)
      ensures r.Err? ==> table == old(table) && r.error == if IsText(id) then Known(NotFound) else BadText
      ensures r.Ok? ==>
                && id !in table
                && (forall other | other != id :: other in table <==> other in old(table))
                && (forall other | other in table :: table[other] == old(table)[other])
                && Model.Delete(table, id) == Err(Known(NotFound))
      ensures match Model.Delete(old(table), id)
              case Ok(t) => r == Ok(()) && table == t
              case Err(e) => r == Err(e) && table == old(table)
    {
      if !IsText(id) {
        return Err(BadText);
      }
      if id !in table {
        return Err(Known(NotFound));
      }
      table := table - {id};
      r := Ok(());
    }

    /** SELECT with WHERE, ORDER BY and LIMIT; None for an order column or text that is not allowed. */
    method Query(filter: QueryFilter) returns (rows: Option<seq<SensorState>>, ghost ids: seq<string>)
      requires Valid()
      // Only rows of the id, name and namespace asked for, and without other conditions all of them.
      ensures rows.Some? ==> forall row | row in rows.value ::
                && (filter.id != "" ==> row.info.id == filter.id)
                && (filter.name != "" ==> row.info.name == filter.name)
                && (filter.namespace != "" ==> row.info.namespace == filter.namespace)
      ensures rows.Some? && filter.search == "" && filter.labels == map[] && filter.hasLabelKeys == []
              && filter.limit <= 0 ==>
                forall id | id in table && Scanned(table[id]) !in rows.value ::
                  || (filter.id != "" && table[id].info.id != filter.id)
                  || (filter.name != "" && table[id].info.name != filter.name)
                  || (filter.namespace != "" && table[id].info.namespace != filter.namespace)
      // In the order asked for.
      ensures rows.Some? && filter.orderBy == "id" ==> forall i, j | 0 <= i < j < |rows.value| ::
                if filter.orderDesc then collation(rows.value[j].info.id, rows.value[i].info.id)
                else collation(rows.value[i].info.id, rows.value[j].info.id)
      ensures rows.Some? && filter.orderBy == "name" ==> forall i, j | 0 <= i < j < |rows.value| ::
                if filter.orderDesc then collation(rows.value[j].info.name, rows.value[i].info.name)
                else collation(rows.value[i].info.name, rows.value[j].info.name)
      ensures rows.Some? && filter.orderBy == "namespace" ==> forall i, j | 0 <= i < j < |rows.value| ::
                if filter.orderDesc then collation(rows.value[j].info.namespace, rows.value[i].info.namespace)
                else collation(rows.value[i].info.namespace, rows.value[j].info.namespace)
      ensures rows.None? <==> !(filter.orderBy in ["", "name", "id", "namespace"] && IsTextFilter(filter))
      ensures rows.Some? ==> MaySelect(table, filter, collation, ids) && |rows.value| == |ids|
      ensures rows.Some? ==> forall i | 0 <= i < |ids| :: ids[i] in table && rows.value[i] == Scanned(table[ids[i]])
    {
      hide SqlMatchSet, SqlOrder, IsOrder;
      ids := [];
      if !AllowedOrder(filter.orderBy) || !IsTextFilter(filter) {
        return None, ids;
      }
      var matches := SqlMatchSet(table, filter);
      SqlOrderIsOrder(table, filter, collation);
      var page := SelectPage(matches, SqlOrder(table, filter, collation), PageSize(matches, filter.limit));
      ids := page;
      assert MaySelect(table, filter, collation, ids);
      SelectionSpelled(table, filter, collation, ids);
      var found := seq(|page|, i requires 0 <= i < |page| && page[i] in table reads this => Scanned(table[page[i]]));
      RowsAreAskedFor(table, filter, collation, ids, found);
      RowsAreInOrder(table, filter, collation, ids, found);
      rows := Some(found);
    }

    /** Implemented as a query by id, so an empty id selects any sensor; callers never pass one. */
    method GetStatus(id: string) returns (r: Result<SensorState, DbError>)
      requires Valid()
      ensures !IsText(id) ==> r == Err(BadText)
      ensures IsText(id) && id != "" && id !in table ==> r == Err(Known(NotFound))
      ensures IsText(id) && id != "" && id in table ==>
                && r.Ok? && r.value.info == table[id].info.(lastSpecUpdatedAt := 0)
                && r.value.reportedData == table[id].reportedData && r.value.lastReportedAt == table[id].lastReportedAt
      ensures id == "" ==> match r
                           case Ok(row) => exists any :: any in table && row == Scanned(table[any])
                           case Err(e) => e == Known(NotFound) && table == map[]
    {
      var filter := EMPTY_FILTER.(id := id, limit := 1);
      ghost var ids;
      var rows;
      rows, ids := Query(filter);
      if rows.None? {
        return Err(BadText);
      }
      ByIdSelects(table, id, collation, ids);
      if |rows.value| == 0 {
        return Err(Known(NotFound));
      }
      r := Ok(rows.value[0]);
    }
  }

  /** Takes the first of what is left until the page is full. */
  method SelectPage(matches: set<string>, order: Order, size: nat) returns (page: seq<string>)
    requires IsOrder(matches, order) && size <= |matches|
    ensures IsPage(matches, order, size, page)
  {
    page := [];
    var rest := matches;
    while |page| < size
      invariant |page| <= size && IsPage(matches, order, |page|, page)
      invariant rest == matches - ToSet(page)
    {
      PageMembers(page);
      assert ToSet(page) <= matches && |rest| == |matches| - |ToSet(page)|;
      var first := First(rest, order);
      PageGrows(matches, order, |page|, page, first);
      assert ToSet(page + [first]) == ToSet(page) + {first};
      page := page + [first];
      rest := rest - {first};
    }
  }

  method First(rest: set<string>, order: Order) returns (first: string)
    requires IsOrder(rest, order) && rest != {}
    ensures first in rest && forall x | x in rest :: order(first, x)
  {
    first :| first in rest;
    var todo := rest - {first};
    assert order(first, first);
    while todo != {}
      invariant todo <= rest && first in rest
      invariant forall x | x in rest - todo :: order(first, x)
    {
      var x :| x in todo;
      if !order(first, x) {
        assert order(x, first) && order(x, x);
        first := x;
      }
      todo := todo - {x};
    }
  }
}
