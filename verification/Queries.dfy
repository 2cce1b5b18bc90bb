/**
 What a query answers: which sensors, how many and in which order; and what the service makes of
 the answer when states are requested.
 */
module Queries {
  import opened Sensors
  import opened StoreModel
  import opened Filters

  // ---- the sort order --------------------------------------------------------------------

  /** String order of Go, by code points. */
  predicate LexLess(a: string, b: string)
    decreases |a|
  {
    if b == "" then false
    else if a == "" then true
    else a[0] < b[0] || (a[0] == b[0] && LexLess(a[1..], b[1..]))
  }

  /** The texts are the same up to `k`, where the first ends or has the smaller character. */
  predicate DiffersAt(a: string, b: string, k: nat) {
    k < |b| && k <= |a| && a[..k] == b[..k] && (k == |a| || a[k] < b[k])
  }

  /** The first difference decides, and a proper prefix comes first. */
  lemma {:induction false} LexLessIff(a: string, b: string)
    ensures LexLess(a, b) <==>
            exists k: nat | k < |b| :: DiffersAt(a, b, k)
    decreases |a|
  {
    assert a[..0] == b[..0];
    assert DiffersAt(a, b, 0) <==> b != "" && (a == "" || a[0] < b[0]);
    if a != "" && b != "" && a[0] == b[0] {
      LexLessIff(a[1..], b[1..]);
      forall k: nat | k < |b| - 1 && k <= |a| - 1
        ensures DiffersAt(a[1..], b[1..], k) <==> DiffersAt(a, b, k + 1)
      {
        assert a[..k + 1] == [a[0]] + a[1..][..k] && b[..k + 1] == [b[0]] + b[1..][..k];
      }
      assert forall k: nat | k > 0 :: DiffersAt(a, b, k) ==> DiffersAt(a[1..], b[1..], k - 1);
    } else {
      assert forall k: nat | k > 0 && DiffersAt(a, b, k) :: a[..k][0] == b[..k][0];
    }
  }

  lemma {:induction false} LexLessTotal(a: string, b: string)
    ensures !LexLess(a, b) && !LexLess(b, a) ==> a == b
    ensures !(LexLess(a, b) && LexLess(b, a))
    decreases |a|
  {
    if a != "" && b != "" {
      LexLessTotal(a[1..], b[1..]);
      assert a == [a[0]] + a[1..] && b == [b[0]] + b[1..];
    }
  }

  lemma {:induction false} LexLessTransitive(a: string, b: string, c: string)
    requires LexLess(a, b) && LexLess(b, c)
    ensures LexLess(a, c)
    decreases |a|
  {
    if a != "" && a[0] == b[0] == c[0] {
      LexLessTransitive(a[1..], b[1..], c[1..]);
    }
  }

  /** The field that an order compares; an unknown order means registration time. */
  predicate Less(orderBy: string, a: SensorState, b: SensorState) {
    if orderBy == "name" then LexLess(a.info.name, b.info.name)
    else if orderBy == "last_reported" then a.lastReportedAt < b.lastReportedAt
    else a.info.registeredAt < b.info.registeredAt
  }

  /** The comparison handed to the sort; for a descending order it is not strict. */
  predicate SortsBefore(filter: QueryFilter, a: SensorState, b: SensorState) {
    if filter.orderDesc then !Less(filter.orderBy, a, b) else Less(filter.orderBy, a, b)
  }

  /** `a` may stand before `b` in the requested order. */
  predicate InOrder(filter: QueryFilter, a: SensorState, b: SensorState) {
    if filter.orderDesc then !Less(filter.orderBy, a, b) else !Less(filter.orderBy, b, a)
  }

  /** The order, key by key: for every key but two it is that of registration. */
  lemma InOrderIff(filter: QueryFilter, a: SensorState, b: SensorState)
    ensures filter.orderBy == "name" ==>
              (InOrder(filter, a, b) <==>
               if filter.orderDesc then !LexLess(a.info.name, b.info.name) else !LexLess(b.info.name, a.info.name))
    ensures filter.orderBy == "last_reported" ==>
              (InOrder(filter, a, b) <==>
               if filter.orderDesc then a.lastReportedAt >= b.lastReportedAt else a.lastReportedAt <= b.lastReportedAt)
    ensures filter.orderBy != "name" && filter.orderBy != "last_reported" ==>
              (InOrder(filter, a, b) <==>
               if filter.orderDesc then a.info.registeredAt >= b.info.registeredAt
               else a.info.registeredAt <= b.info.registeredAt)
  {
    assert "name" != "last_reported" by {
      assert |"name"| != |"last_reported"|;
    }
  }

  /** The order is a total preorder, and the comparison decides it although it need not be strict. */
  lemma OrderIsTotal(filter: QueryFilter, a: SensorState, b: SensorState)
    ensures InOrder(filter, a, b) || InOrder(filter, b, a)
    ensures SortsBefore(filter, a, b) ==> InOrder(filter, a, b)
    ensures !SortsBefore(filter, a, b) ==> InOrder(filter, b, a)
  {
    LexLessTotal(a.info.name, b.info.name);
  }

  lemma OrderIsTransitive(filter: QueryFilter, a: SensorState, b: SensorState, c: SensorState)
    requires InOrder(filter, a, b) && InOrder(filter, b, c)
    ensures InOrder(filter, a, c)
  {
    if filter.orderDesc {
      NotLessTransitive(filter.orderBy, a, b, c);
    } else {
      NotLessTransitive(filter.orderBy, c, b, a);
    }
  }

  lemma NotLessTransitive(orderBy: string, a: SensorState, b: SensorState, c: SensorState)
    requires !Less(orderBy, a, b) && !Less(orderBy, b, c)
    ensures !Less(orderBy, a, c)
  {
    if orderBy == "name" {
      LexLessTotal(a.info.name, b.info.name);
      LexLessTotal(b.info.name, c.info.name);
      LexLessTotal(a.info.name, c.info.name);
      if LexLess(c.info.name, b.info.name) && LexLess(b.info.name, a.info.name) {
        LexLessTransitive(c.info.name, b.info.name, a.info.name);
      }
    }
  }

  // ---- what a query answers ----------------------------------------------------------------

  function MatchSet(st: Store, filter: QueryFilter): set<string> {
    set id | id in st && Matches(st[id].info, filter)
  }

  predicate Sorted(st: Store, filter: QueryFilter, ids: seq<string>) {
    && (forall id | id in ids :: id in st)
    && forall i, j | 0 <= i < j < |ids| :: InOrder(filter, st[ids[i]], st[ids[j]])
  }

  predicate NoDuplicates(ids: seq<string>) {
    forall i, j | 0 <= i < j < |ids| :: ids[i] != ids[j]
  }

  /**
   The answer of a query, by ids: matching sensors only, none twice, as many as the limit allows; if
   an order is asked for, in that order and never leaving out a sensor that should come earlier.
   */
  predicate IsAnswer(st: Store, filter: QueryFilter, ids: seq<string>) {
    && NoDuplicates(ids)
    && (forall id | id in ids :: id in MatchSet(st, filter))
    && |ids| == (if 0 < filter.limit < |MatchSet(st, filter)| then filter.limit else |MatchSet(st, filter)|)
    && (filter.orderBy != "" ==>
          && Sorted(st, filter, ids)
          && forall kept, omitted | kept in ids && omitted in MatchSet(st, filter) && omitted !in ids ::
               InOrder(filter, st[kept], st[omitted]))
  }

  lemma AnswerMembers(st: Store, filter: QueryFilter, ids: seq<string>)
    requires IsAnswer(st, filter, ids)
    ensures forall i | 0 <= i < |ids| :: ids[i] in st
  {
    assert forall i | 0 <= i < |ids| :: ids[i] in ids;
  }

  /** An answer, in terms of the sensors in it. */
  lemma AnswerSpelled(st: Store, filter: QueryFilter, ids: seq<string>)
    requires IsAnswer(st, filter, ids)
    ensures forall id | id in ids ::
              && id in st
              && (filter.id != "" ==> st[id].info.id == filter.id)
              && (filter.name != "" ==> st[id].info.name == filter.name)
              && (filter.namespace != "" ==> st[id].info.namespace == filter.namespace)
    ensures filter.search == "" && filter.labels == map[] && filter.hasLabelKeys == [] && filter.limit <= 0 ==>
              forall id | id in st && id !in ids ::
                || (filter.id != "" && st[id].info.id != filter.id)
                || (filter.name != "" && st[id].info.name != filter.name)
                || (filter.namespace != "" && st[id].info.namespace != filter.namespace)
    ensures forall i, j | 0 <= i < j < |ids| && filter.orderBy != "" ::
              ids[i] in st && ids[j] in st && InOrder(filter, st[ids[i]], st[ids[j]])
  {
    hide Matches, InOrder;
    forall id | id in MatchSet(st, filter) || (id in st && id !in MatchSet(st, filter)) {
      MatchesIff(st[id].info, filter);
    }
    if filter.limit <= 0 {
      AnswerIsComplete(st, filter, ids);
      assert forall id :: id in ids <==> id in ToSet(ids);
    }
  }

  /** No two matching sensors rank the same. */
  predicate DistinctRanks(st: Store, filter: QueryFilter) {
    forall a, b | a in MatchSet(st, filter) && b in MatchSet(st, filter) && a != b ::
      !(InOrder(filter, st[a], st[b]) && InOrder(filter, st[b], st[a]))
  }

  lemma NoDuplicatesSize(ids: seq<string>)
    requires NoDuplicates(ids)
    ensures |ToSet(ids)| == |ids|
  {
    if ids == [] {
      assert ToSet(ids) == {};
    } else {
      var init := ids[..|ids| - 1];
      NoDuplicatesSize(init);
      assert ToSet(ids) == ToSet(init) + {ids[|ids| - 1]};
    }
  }

  /** Without a limit, or with one that is not reached, every matching sensor is in the answer. */
  lemma AnswerIsComplete(st: Store, filter: QueryFilter, ids: seq<string>)
    requires IsAnswer(st, filter, ids)
    requires filter.limit <= 0 || |MatchSet(st, filter)| <= filter.limit
    ensures ToSet(ids) == MatchSet(st, filter)
  {
    NoDuplicatesSize(ids);
    SubsetOfSameSize(ToSet(ids), MatchSet(st, filter));
  }

  lemma SubsetOfSameSize<T>(a: set<T>, b: set<T>)
    requires a <= b && |a| == |b|
    ensures a == b
  {
    assert |b - a| == |b| - |a|;
  }

  /** With an order that ranks sensors differently there is only one answer: paging is deterministic. */
  lemma AnswerIsUnique(st: Store, filter: QueryFilter, ids: seq<string>, again: seq<string>)
    requires IsAnswer(st, filter, ids) && IsAnswer(st, filter, again)
    requires filter.orderBy != "" && DistinctRanks(st, filter)
    ensures ids == again
  {
    assert |ids| == |again|;
    SamePrefix(st, filter, ids, again, |ids|);
    assert ids[..|ids|] == ids && again[..|ids|] == again;
  }

  lemma {:induction false} SamePrefix(st: Store, filter: QueryFilter, ids: seq<string>, again: seq<string>, n: nat)
    requires IsAnswer(st, filter, ids) && IsAnswer(st, filter, again)
    requires filter.orderBy != "" && DistinctRanks(st, filter)
    requires n <= |ids| == |again|
    ensures ids[..n] == again[..n]
  {
    if n > 0 {
      SamePrefix(st, filter, ids, again, n - 1);
      NextIsNotAfter(st, filter, ids, again, n - 1);
      NextIsNotAfter(st, filter, again, ids, n - 1);
      assert ids[n - 1] in ids && again[n - 1] in again;
      assert ids[..n] == ids[..n - 1] + [ids[n - 1]] && again[..n] == again[..n - 1] + [again[n - 1]];
    }
  }

  /** Where two answers part, the element of the one may stand before that of the other. */
  lemma NextIsNotAfter(st: Store, filter: QueryFilter, ids: seq<string>, again: seq<string>, n: nat)
    requires IsAnswer(st, filter, ids) && IsAnswer(st, filter, again)
    requires filter.orderBy != ""
    requires n < |ids| == |again| && ids[..n] == again[..n]
    ensures InOrder(filter, st[ids[n]], st[again[n]])
  {
    var other := again[n];
    assert other in again && ids[n] in ids;
    OrderIsTotal(filter, st[ids[n]], st[ids[n]]);
    assert forall j | 0 <= j < n :: ids[j] == ids[..n][j] == again[..n][j] == again[j];
    if other in ids {
      var k :| 0 <= k < |ids| && ids[k] == other;
    }
  }

  // ---- the service's filter on computed states -----------------------------------------------

  /** The entries of a page whose computed state was asked for; all of them when none was. */
  function KeepStates<S(==)>(page: seq<string>, stateOf: string -> S, wanted: seq<S>): seq<string>
    decreases |page|
  {
    if page == [] then []
    else (if wanted == [] || stateOf(page[0]) in wanted then [page[0]] else [])
         + KeepStates(page[1..], stateOf, wanted)
  }

  lemma {:induction false} KeepStatesConcat<S>(a: seq<string>, b: seq<string>, stateOf: string -> S, wanted: seq<S>)
    ensures KeepStates(a + b, stateOf, wanted) == KeepStates(a, stateOf, wanted) + KeepStates(b, stateOf, wanted)
    decreases |a|
  {
    if a == [] {
      assert a + b == b;
    } else {
      assert (a + b)[0] == a[0] && (a + b)[1..] == a[1..] + b;
      KeepStatesConcat(a[1..], b, stateOf, wanted);
    }
  }

  lemma KeepStatesNext<S>(page: seq<string>, k: nat, stateOf: string -> S, wanted: seq<S>)
    requires k < |page|
    ensures KeepStates(page[..k + 1], stateOf, wanted) ==
            KeepStates(page[..k], stateOf, wanted)
            + (if wanted == [] || stateOf(page[k]) in wanted then [page[k]] else [])
  {
    assert page[..k + 1] == page[..k] + [page[k]];
    KeepStatesConcat(page[..k], [page[k]], stateOf, wanted);
    assert [page[k]][1..] == [];
  }

  lemma {:induction false} KeepStatesMember<S>(page: seq<string>, stateOf: string -> S, wanted: seq<S>, id: string)
    ensures id in KeepStates(page, stateOf, wanted) <==> id in page && (wanted == [] || stateOf(id) in wanted)
    decreases |page|
  {
    if page != [] {
      KeepStatesMember(page[1..], stateOf, wanted, id);
      assert id in page <==> id == page[0] || id in page[1..];
    }
  }

  /** Only the states of the sensors on the page matter. */
  lemma {:induction false} KeepStatesReads<S>(page: seq<string>, a: string -> S, b: string -> S, wanted: seq<S>)
    requires forall id | id in page :: a(id) == b(id)
    ensures KeepStates(page, a, wanted) == KeepStates(page, b, wanted)
    decreases |page|
  {
    if page != [] {
      KeepStatesReads(page[1..], a, b, wanted);
    }
  }

  /** Without a page size a query by state finds exactly the matching sensors in those states. */
  lemma StateQueryIsComplete<S>(st: Store, filter: QueryFilter, page: seq<string>, stateOf: string -> S, wanted: seq<S>)
    requires IsAnswer(st, filter, page)
    requires filter.limit <= 0
    ensures forall id :: id in KeepStates(page, stateOf, wanted) <==>
                         id in MatchSet(st, filter) && (wanted == [] || stateOf(id) in wanted)
  {
    AnswerIsComplete(st, filter, page);
    forall id
      ensures id in KeepStates(page, stateOf, wanted) <==>
              id in MatchSet(st, filter) && (wanted == [] || stateOf(id) in wanted)
    {
      KeepStatesMember(page, stateOf, wanted, id);
      assert id in page <==> id in ToSet(page);
    }
  }

  /** Whatever states the sensors have and whichever are asked for, all matching sensors in them are found. */
  ghost predicate FindsAllStates<S(!new)>(st: Store, filter: QueryFilter, page: seq<string>) {
    forall stateOf: string -> S, wanted: seq<S>, id: string | id in MatchSet(st, filter) && stateOf(id) in wanted ::
      id in KeepStates(page, stateOf, wanted)
  }

  /** A query by state is complete for all states exactly when the page was not cut at the limit. */
  lemma StateQueryIsCompleteIff<S(!new)>(st: Store, filter: QueryFilter, page: seq<string>, someState: S)
    requires IsAnswer(st, filter, page)
    ensures FindsAllStates<S>(st, filter, page) <==> !(0 < filter.limit < |MatchSet(st, filter)|)
  {
    if 0 < filter.limit < |MatchSet(st, filter)| {
      NoDuplicatesSize(page);
      assert |MatchSet(st, filter) - ToSet(page)| == |MatchSet(st, filter)| - |ToSet(page)|;
      var missed :| missed in MatchSet(st, filter) - ToSet(page);
      var stateOf := (_: string) => someState;
      KeepStatesMember(page, stateOf, [someState], missed);
      assert missed !in page && stateOf(missed) in [someState];
    } else {
      forall stateOf: string -> S, wanted: seq<S>, id: string | id in MatchSet(st, filter) && stateOf(id) in wanted
        ensures id in KeepStates(page, stateOf, wanted)
      {
        AnswerIsComplete(st, filter, page);
        KeepStatesMember(page, stateOf, wanted, id);
        assert id in page <==> id in ToSet(page);
      }
    }
  }

  /** A smallest such miss: a page of one comes back empty although a sensor was asked for. */
  lemma StateQueryCanMiss(s: SensorState)
    ensures var st: Store := map["a" := s, "b" := s];
            var filter := EMPTY_FILTER.(limit := 1);
            var stateOf := (id: string) => id == "b";
            IsAnswer(st, filter, ["a"]) && "b" in MatchSet(st, filter)
            && stateOf("b") && KeepStates(["a"], stateOf, [true]) == []
  {
    var st: Store := map["a" := s, "b" := s];
    var filter := EMPTY_FILTER.(limit := 1);
    assert MatchSet(st, filter) == {"a", "b"};
    assert ["a"][1..] == [];
  }
}
