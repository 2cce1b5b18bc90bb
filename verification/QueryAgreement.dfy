/**
 When the in-memory store and the Postgres store may answer a query alike: the same sensors, in the
 same orders, for stores that hold the same rows.
 */
module QueryAgreement {
  import opened Wrappers
  import opened Sensors
  import opened Filters
  import opened Queries
  import opened Pages
  import opened StoreModel
  import Pg = PostgresModel

  /** The same sensors but for the two fields that the stores renew in their own way. */
  predicate SameRows(st: Store, t: Pg.Table) {
    st.Keys == t.Keys && forall id | id in st :: Unversioned(st[id].info) == Unversioned(t[id].info)
  }

  /** Both stores answer, and whatever the one may answer the other may. */
  ghost predicate SameAnswers(st: Store, t: Pg.Table, filter: QueryFilter, collation: Pg.Collation) {
    && Pg.AllowedOrder(filter.orderBy) && Pg.IsTextFilter(filter)
    && forall ids :: IsAnswer(st, filter, ids) <==> Pg.MaySelect(t, filter, collation, ids)
  }

  /**
   The queries on which the stores part, told from the memory store: Postgres refuses the order or a
   text, or the two pages differ in size or in what they can hold, in which order.
   */
  ghost predicate QueryParts(st: Store, filter: QueryFilter, collation: Pg.Collation) {
    var m, n := MatchSet(st, filter), Pg.SqlMatchSet(st, filter);
    var k := PageSize(m, filter.limit);
    || !Pg.AllowedOrder(filter.orderBy) || !Pg.IsTextFilter(filter)
    || k != PageSize(n, filter.limit)
    || !SameReach(m, MemOrder(st, filter), n, Pg.SqlOrder(st, filter, collation), k)
  }

  // ---- one query ---------------------------------------------------------------------------------

  lemma FieldsAlike(a: SensorInfo, b: SensorInfo, filter: QueryFilter)
    requires Unversioned(a) == Unversioned(b)
    ensures SqlMatches(a, filter) <==> SqlMatches(b, filter)
    ensures Pg.SortKey(filter.orderBy, a) == Pg.SortKey(filter.orderBy, b)
  {
    hide SqlSearchMatches;
    var c := Unversioned(a);
    assert a.id == c.id == b.id && a.namespace == c.namespace == b.namespace && a.name == c.name == b.name;
    assert a.description == c.description == b.description && a.labels == c.labels == b.labels;
    assert SqlSearchMatches(a, filter.search) <==> SqlSearchMatches(b, filter.search) by {
      SearchReads(a, b, filter.search);
    }
  }

  lemma SearchReads(a: SensorInfo, b: SensorInfo, search: string)
    requires a.name == b.name && a.description == b.description
    ensures SqlSearchMatches(a, search) <==> SqlSearchMatches(b, search)
  {
  }

  /** A SELECT reads nothing in which the rows differ. */
  lemma SelectsAlike(st: Store, t: Pg.Table, filter: QueryFilter, collation: Pg.Collation, ids: seq<string>)
    requires SameRows(st, t)
    ensures Pg.MaySelect(st, filter, collation, ids) <==> Pg.MaySelect(t, filter, collation, ids)
  {
    hide SqlMatches, Pg.SortKey;
    forall id | id in st
      ensures SqlMatches(st[id].info, filter) <==> SqlMatches(t[id].info, filter)
      ensures Pg.SortKey(filter.orderBy, st[id].info) == Pg.SortKey(filter.orderBy, t[id].info)
    {
      FieldsAlike(st[id].info, t[id].info, filter);
    }
    assert Pg.SqlMatchSet(st, filter) == Pg.SqlMatchSet(t, filter);
    var r, s := Pg.SqlOrder(st, filter, collation), Pg.SqlOrder(t, filter, collation);
    assert forall a, b :: r(a, b) == s(a, b);
  }

  /** A query may be answered alike exactly when it is none of those on which the stores part. */
  lemma QueryAnswersAgreeIff(st: Store, t: Pg.Table, filter: QueryFilter, collation: Pg.Collation)
    requires SameRows(st, t) && Pg.IsCollation(collation)
    ensures SameAnswers(st, t, filter, collation) <==> !QueryParts(st, filter, collation)
  {
    hide IsAnswer, IsPage, MemOrder, Pg.SqlOrder, Pg.IsTextFilter, MatchSet, Pg.SqlMatchSet, SameReach, IsOrder,
         SameRows, Pg.IsCollation;
    var m, n := MatchSet(st, filter), Pg.SqlMatchSet(st, filter);
    var r, s := MemOrder(st, filter), Pg.SqlOrder(st, filter, collation);
    var k, j := PageSize(m, filter.limit), PageSize(n, filter.limit);
    MemOrderIsOrder(st, filter);
    Pg.SqlOrderIsOrder(st, filter, collation);
    forall ids
      ensures IsAnswer(st, filter, ids) <==> IsPage(m, r, k, ids)
      ensures Pg.MaySelect(t, filter, collation, ids) <==> IsPage(n, s, j, ids)
    {
      AnswersArePages(st, filter, ids);
      SelectsAlike(st, t, filter, collation, ids);
    }
    if k != j {
      SizesTellPagesApart(m, r, k, n, s, j);
    } else {
      SamePagesIff(m, r, n, s, k);
    }
  }

  // ---- queries on which the stores never part ------------------------------------------------------

  /** The order of strings by code points, in which the memory store sorts. */
  ghost predicate IsCodePointOrder(collation: Pg.Collation) {
    forall a, b :: collation(a, b) <==> !LexLess(b, a)
  }

  /** The orders that mean the same to both stores. */
  ghost predicate SameOrder(orderBy: string, collation: Pg.Collation) {
    orderBy == "" || (orderBy == "name" && IsCodePointOrder(collation))
  }

  ghost predicate NeverParts(filter: QueryFilter, collation: Pg.Collation) {
    forall st: Store | StoreInv(st) :: !QueryParts(st, filter, collation)
  }

  /** The filters that select the same in both stores. */
  predicate IsSameFilter(filter: QueryFilter) {
    Pg.IsTextFilter(filter) && IsPlain(filter.search) && KeysCover(filter.labels, filter.hasLabelKeys)
  }

  lemma SameSelections(st: Store, filter: QueryFilter)
    requires IsPlain(filter.search) && KeysCover(filter.labels, filter.hasLabelKeys)
    ensures MatchSet(st, filter) == Pg.SqlMatchSet(st, filter)
  {
    hide Matches, SqlMatches;
    forall id | id in st
      ensures Matches(st[id].info, filter) <==> SqlMatches(st[id].info, filter)
    {
      StoresSelectTheSame(st[id].info, filter);
    }
  }

  lemma SameOrdersSameReach(m: set<string>, r: Order, s: Order, k: nat)
    requires forall a, b | a in m && b in m :: r(a, b) == s(a, b)
    ensures SameReach(m, r, m, s, k)
  {
    forall x | x in m
      ensures Below(m, r, x) == Below(m, s, x)
    {
    }
  }

  lemma OrdersAlike(st: Store, filter: QueryFilter, collation: Pg.Collation, a: string, b: string)
    requires a in st && b in st && SameOrder(filter.orderBy, collation)
    ensures MemOrder(st, filter)(a, b) == Pg.SqlOrder(st, filter, collation)(a, b)
  {
    if filter.orderBy != "" {
      var x, y := st[a].info.name, st[b].info.name;
      assert (collation(x, y) <==> !LexLess(y, x)) && (collation(y, x) <==> !LexLess(x, y));
      assert Pg.SortKey(filter.orderBy, st[a].info) == x && Pg.SortKey(filter.orderBy, st[b].info) == y;
      assert Pg.SqlOrder(st, filter, collation)(a, b) == if filter.orderDesc then collation(y, x) else collation(x, y);
    }
  }

  /** Such filters in such an order are answered alike, whatever the stores hold. */
  lemma SameQueriesAgree(st: Store, filter: QueryFilter, collation: Pg.Collation)
    requires IsSameFilter(filter) && SameOrder(filter.orderBy, collation)
    ensures !QueryParts(st, filter, collation)
  {
    hide Matches, Pg.SqlMatchSet, SameReach, Pg.IsTextFilter, MemOrder, Pg.SqlOrder;
    SameSelections(st, filter);
    var m, r, s := MatchSet(st, filter), MemOrder(st, filter), Pg.SqlOrder(st, filter, collation);
    forall a, b | a in m && b in m
      ensures r(a, b) == s(a, b)
    {
      OrdersAlike(st, filter, collation, a, b);
    }
    SameOrdersSameReach(m, r, s, PageSize(m, filter.limit));
  }

  /** In an order that means the same, these are all filters without a name on which the stores never part. */
  lemma FilterNeverPartsIff(filter: QueryFilter, collation: Pg.Collation)
    requires filter.name == "" && SameOrder(filter.orderBy, collation)
    ensures NeverParts(filter, collation) <==> IsSameFilter(filter)
  {
    hide QueryParts, IsCodePointOrder, Matches, SqlMatches, Pg.IsTextFilter;
    if IsSameFilter(filter) {
      forall st: Store | StoreInv(st)
        ensures !QueryParts(st, filter, collation)
      {
        SameQueriesAgree(st, filter, collation);
      }
    } else if !Pg.IsTextFilter(filter) {
      RefusedParts(filter, collation);
    } else {
      if !IsPlain(filter.search) {
        SearchPartsStores(filter);
      } else {
        LabelPartsStores(filter);
      }
      var info: SensorInfo :| info.labels.Some? && Matches(info, filter) != SqlMatches(info, filter);
      OneSensorParts(info, filter, collation);
    }
  }

  /** What Postgres refuses, it refuses on empty stores already. */
  lemma RefusedParts(filter: QueryFilter, collation: Pg.Collation)
    requires !Pg.AllowedOrder(filter.orderBy) || !Pg.IsTextFilter(filter)
    ensures !NeverParts(filter, collation)
  {
    var empty: Store := map[];
    assert StoreInv(empty) && QueryParts(empty, filter, collation);
  }

  lemma OneSensorParts(info: SensorInfo, filter: QueryFilter, collation: Pg.Collation)
    requires info.labels.Some? && Matches(info, filter) != SqlMatches(info, filter)
    ensures !NeverParts(filter, collation)
  {
    hide Matches, SqlMatches, Pg.IsTextFilter, SameReach;
    var st: Store := map[info.id := SensorState(info, map[], 0)];
    var m, n := MatchSet(st, filter), Pg.SqlMatchSet(st, filter);
    assert m == if Matches(info, filter) then {info.id} else {};
    assert n == if SqlMatches(info, filter) then {info.id} else {};
    assert StoreInv(st) && QueryParts(st, filter, collation);
  }

  // ---- the orders --------------------------------------------------------------------------------

  /** A query for all sensors in an order. */
  function AllIn(orderBy: string, orderDesc: bool): QueryFilter {
    EMPTY_FILTER.(orderBy := orderBy, orderDesc := orderDesc)
  }

  function Named(id: string, name: string): SensorState {
    SensorState(SensorInfo(id, id, name, "", "", 0, 0, Some(map[]), 0, 0, []), map[], 0)
  }

  /** Two sensors registered in the same second. */
  function Pair(x: string, y: string): Store {
    map["a" := Named("a", x), "b" := Named("b", y)]
  }

  lemma PairSelected(x: string, y: string, orderBy: string, orderDesc: bool)
    ensures MatchSet(Pair(x, y), AllIn(orderBy, orderDesc)) == {"a", "b"}
    ensures StoreInv(Pair(x, y)) && "a" != "b"
  {
    assert "a"[0] != "b"[0];
    assert Pair(x, y).Keys == {"a", "b"};
  }

  /** A pair that the two stores order differently. */
  lemma PairParts(x: string, y: string, orderBy: string, orderDesc: bool, collation: Pg.Collation)
    requires Pg.IsCollation(collation)
    requires var filter := AllIn(orderBy, orderDesc);
             MemOrder(Pair(x, y), filter)("a", "b") != Pg.SqlOrder(Pair(x, y), filter, collation)("a", "b")
             || MemOrder(Pair(x, y), filter)("b", "a") != Pg.SqlOrder(Pair(x, y), filter, collation)("b", "a")
    ensures !NeverParts(AllIn(orderBy, orderDesc), collation)
  {
    hide MatchSet, Pg.SqlMatchSet, MemOrder, Pg.SqlOrder, StoreInv, Pg.IsTextFilter, Pg.IsCollation;
    var st, filter := Pair(x, y), AllIn(orderBy, orderDesc);
    PairSelected(x, y, orderBy, orderDesc);
    MemOrderIsOrder(st, filter);
    var m, r := MatchSet(st, filter), MemOrder(st, filter);
    assert |{"a", "b"}| == 2;
    WholeReach(m, r);
    assert QueryParts(st, filter, collation);
  }

  lemma WholeReach(m: set<string>, r: Order)
    requires IsOrder(m, r)
    ensures Reach(m, r, |m|) == m
  {
    forall x | x in m
      ensures |Below(m, r, x)| < |m|
    {
      assert r(x, x);
      SubsetSize(Below(m, r, x), m - {x});
    }
  }

  /**
   Asked for all sensors, the stores never part exactly in the orders that mean the same: none, or by
   name if the database collates by code points. By id and by namespace the memory store sorts by
   registration time, and every other order Postgres refuses.
   */
  lemma OrderNeverPartsIff(orderBy: string, orderDesc: bool, collation: Pg.Collation)
    requires Pg.IsCollation(collation)
    ensures NeverParts(AllIn(orderBy, orderDesc), collation) <==> SameOrder(orderBy, collation)
  {
    hide QueryParts, StoreInv;
    var filter := AllIn(orderBy, orderDesc);
    if SameOrder(orderBy, collation) {
      FilterNeverPartsIff(filter, collation);
    } else if !Pg.AllowedOrder(orderBy) {
      RefusedParts(filter, collation);
    } else if orderBy == "name" {
      var x, y :| collation(x, y) != !LexLess(y, x);
      LexLessTotal(x, y);
      NamesPart(x, y, orderDesc, collation);
    } else {
      TiesPart(orderBy, orderDesc, collation);
    }
  }

  lemma NamesPart(x: string, y: string, orderDesc: bool, collation: Pg.Collation)
    requires Pg.IsCollation(collation) && collation(x, y) != !LexLess(y, x)
    ensures !NeverParts(AllIn("name", orderDesc), collation)
  {
    hide LexLess;
    PairParts(x, y, "name", orderDesc, collation);
  }

  /** Registered in the same second, the pair is tied in memory but not in the database. */
  lemma TiesPart(orderBy: string, orderDesc: bool, collation: Pg.Collation)
    requires Pg.IsCollation(collation) && (orderBy == "id" || orderBy == "namespace")
    ensures !NeverParts(AllIn(orderBy, orderDesc), collation)
  {
    var st, filter := Pair("", ""), AllIn(orderBy, orderDesc);
    assert "a"[0] != "b"[0];
    assert st["a"] == Named("a", "") && st["b"] == Named("b", "");
    assert !(collation("a", "b") && collation("b", "a"));
    assert MemOrder(st, filter)("a", "b") && MemOrder(st, filter)("b", "a") by {
      assert !Less(orderBy, st["a"], st["b"]) && !Less(orderBy, st["b"], st["a"]);
    }
    assert Pg.SortKey(orderBy, st["a"].info) == "a" && Pg.SortKey(orderBy, st["b"].info) == "b";
    PairParts("", "", orderBy, orderDesc, collation);
  }
}
