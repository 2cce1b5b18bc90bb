/**
 The in-memory store of internal/storage/memory_storage.go: a map of records that are changed in
 place. Every method is one critical section; its contract is the transition of StoreModel.
 */
module MemoryStorage {
  import opened Wrappers
  import opened Sensors
  import opened Filters
  import opened Queries
  import Model = StoreModel

  class SensorRecord {
    var info: SensorInfo
    var reportedData: map<string, string>
    var lastReportedAt: int

    function View(): SensorState
      reads this
    {
      SensorState(info, reportedData, lastReportedAt)
    }

    constructor (state: SensorState)
      ensures View() == state
    {
      info := state.info;
      reportedData := state.reportedData;
      lastReportedAt := state.lastReportedAt;
    }

    /** Copies the entries of a report over the data, key by key. */
    method Merge(metadata: map<string, string>)
      modifies this`reportedData
      ensures reportedData == old(reportedData) + metadata
    {
      var todo := metadata.Keys;
      while todo != {}
        invariant todo <= metadata.Keys
        invariant reportedData.Keys == old(reportedData).Keys + (metadata.Keys - todo)
        invariant forall k | k in metadata.Keys - todo :: reportedData[k] == metadata[k]
        invariant forall k | k in old(reportedData).Keys - (metadata.Keys - todo) ::
                  reportedData[k] == old(reportedData)[k]
      {
        var k :| k in todo;
        reportedData := reportedData[k := metadata[k]];
        todo := todo - {k};
      }
    }
  }

  class MemorySensorStorage {
    var sensors: map<string, SensorRecord>

    /** No two ids share a record, and the records are well-formed. */
    ghost predicate Valid()
      reads this, sensors.Values
    {
      && (forall a, b | a in sensors && b in sensors && a != b :: sensors[a] != sensors[b])
      && Model.RecordInv(Contents())
    }

    ghost function Contents(): Model.Store
      reads this, sensors.Values
    {
      map id | id in sensors :: sensors[id].View()
    }

    constructor ()
      ensures Valid() && Contents() == map[]
    {
      sensors := map[];
    }

    method Register(sensor: SensorInfo) returns (r: Result<(), StorageError>)
      requires Valid()
      modifies this
      ensures Valid()
      ensures match Model.Register(old(Contents()), sensor)
              case Ok(st) => r == Ok(()) && Contents() == st
              case Err(e) => r == Err(e) && Contents() == old(Contents())
      ensures forall id | id in old(sensors) :: id in sensors && sensors[id] == old(sensors)[id]
    {
      if sensor.id in sensors {
        return Err(AlreadyExists);
      }
      var todo := sensors.Keys;
      while todo != {}
        invariant todo <= sensors.Keys
        invariant forall id | id in sensors.Keys - todo :: !Model.SameName(sensors[id].info, sensor)
      {
        var id :| id in todo;
        var existing := sensors[id];
        if existing.info.name == sensor.name && existing.info.namespace == sensor.namespace {
          assert Model.SameName(Contents()[id].info, sensor);
          return Err(AlreadyExists);
        }
        todo := todo - {id};
      }
      assert !Model.NameTaken(Contents(), sensor) by {
        assert forall id | id in sensors.Keys :: id in sensors.Keys - todo;
      }
      var state := new SensorRecord(Model.NewState(sensor));
      sensors := sensors[sensor.id := state];
      assert Contents() == old(Contents())[sensor.id := Model.NewState(sensor)];
      r := Ok(());
    }

    /** The columns are written one by one into the live record. */
    method Patch(id: string, expected: string, updates: SensorInfo, columns: seq<Column>, now: int, version: string)
      returns (r: Result<(), StorageError>)
      requires Valid()
      modifies sensors.Values
      ensures Valid()
      ensures match Model.Patch(old(Contents()), id, expected, updates, columns, now, version)
              case Ok(st) => r == Ok(()) && Contents() == st
              case Err(e) => r == Err(e) && Contents() == old(Contents())
    {
      if id !in sensors {
        return Err(NotFound);
      }
      var state := sensors[id];
      if expected != state.info.resourceVersion {
        return Err(VersionMismatch);
      }
      var copied := Model.CopyLabels(updates);
      ghost var before := state.info;
      for i := 0 to |columns|
        invariant SetColumns(before, copied, columns) == SetColumns(state.info, copied, columns[i..])
        invariant state.reportedData == old(state.reportedData) && state.lastReportedAt == old(state.lastReportedAt)
        invariant forall other | other in sensors && other != id :: sensors[other].View() == old(sensors[other].View())
      {
        state.info := SetColumn(state.info, copied, columns[i]);
      }
      state.info := state.info.(lastSpecUpdatedAt := now);
      state.info := state.info.(resourceVersion := version);
      Model.StepKeepsRecords(old(Contents()), Model.CallPatch(id, expected, updates, columns, now, version));
      assert Contents() == Model.After(old(Contents()), Model.CallPatch(id, expected, updates, columns, now, version));
      r := Ok(());
    }

    method SendData(id: string, metadata: map<string, string>, now: int) returns (r: Result<(), StorageError>)
      requires Valid()
      modifies sensors.Values
      ensures Valid()
      ensures match Model.SendData(old(Contents()), id, metadata, now)
              case Ok(st) => r == Ok(()) && Contents() == st
              case Err(e) => r == Err(e) && Contents() == old(Contents())
    {
      if id !in sensors {
        return Err(NotFound);
      }
      var state := sensors[id];
      state.lastReportedAt := now;
      state.Merge(metadata);
      assert Contents() == Model.SendData(old(Contents()), id, metadata, now).value;
      r := Ok(());
    }

    /** The answer is the live record, not a copy: later changes show through it. */
    method GetStatus(id: string) returns (r: Result<SensorRecord, StorageError>)
      ensures id in sensors ==> r == Ok(sensors[id]) && r.value.View() == Contents()[id]
      ensures id !in sensors ==> r == Err(NotFound)
    {
      if id !in sensors {
        return Err(NotFound);
      }
      r := Ok(sensors[id]);
    }

    method Delete(id: string) returns (r: Result<(), StorageError>)
      requires Valid()
      modifies this
      ensures Valid()
      ensures match Model.Delete(old(Contents()), id)
              case Ok(st) => r == Ok(()) && Contents() == st
              case Err(e) => r == Err(e) && Contents() == old(Contents())
      ensures forall other | other in sensors :: other in old(sensors) && sensors[other] == old(sensors)[other]
    {
      if id !in sensors {
        return Err(NotFound);
      }
      sensors := sensors - {id};
      assert Contents() == old(Contents()) - {id};
      r := Ok(());
    }

    method GetIdentity(id: string) returns (r: Option<SensorIdentity>)
      ensures r == Model.GetIdentity(Contents(), id)
    {
      if id !in sensors {
        return None;
      }
      var state := sensors[id];
      r := Some(SensorIdentity(state.info.id, state.info.name, state.info.namespace));
    }

    method FindIdentity(namespace: string, name: string) returns (r: Option<SensorIdentity>)
      ensures Model.MayFind(Contents(), namespace, name, r)
    {
      var todo := sensors.Keys;
      while todo != {}
        invariant todo <= sensors.Keys
        invariant forall id | id in sensors.Keys - todo ::
                    !(sensors[id].info.namespace == namespace && sensors[id].info.name == name)
      {
        var id :| id in todo;
        var state := sensors[id];
        if state.info.namespace == namespace && state.info.name == name {
          r := Some(SensorIdentity(state.info.id, state.info.name, state.info.namespace));
          assert id in Contents() && Model.GetIdentity(Contents(), id) == r;
          return;
        }
        todo := todo - {id};
      }
      assert forall id | id in Contents() :: id in sensors.Keys - todo;
      r := None;
    }

    /** The ids of the matching sensors, in whatever order the map is walked. */
    method CollectMatches(filter: QueryFilter) returns (ids: seq<string>)
      ensures NoDuplicates(ids)
      ensures ToSet(ids) == MatchSet(Contents(), filter)
    {
      ids := [];
      var todo := sensors.Keys;
      while todo != {}
        invariant todo <= sensors.Keys
        invariant NoDuplicates(ids)
        invariant forall id :: id in ids <==> id in sensors.Keys - todo && Matches(sensors[id].info, filter)
      {
        var id :| id in todo;
        if Matches(sensors[id].info, filter) {
          ids := ids + [id];
        }
        todo := todo - {id};
      }
    }

    /** The live records of an answer. */
    method SelectRecords(filter: QueryFilter) returns (results: seq<SensorRecord>)
      requires Valid()
      ensures IsAnswer(Contents(), filter, Ids(results))
      ensures forall i | 0 <= i < |results| ::
              results[i].info.id in sensors && results[i] == sensors[results[i].info.id]
    {
      hide IsAnswer, MatchSet, Matches;
      var found := CollectMatches(filter);
      ghost var st := Contents();
      var states := map id | id in sensors :: sensors[id].View();
      assert states == st;
      var kept := Arrange(found, states, filter);
      AnswerMembers(states, filter, kept);
      results := seq(|kept|, i requires 0 <= i < |kept| && kept[i] in sensors reads this => sensors[kept[i]]);
      assert forall i | 0 <= i < |kept| :: st[kept[i]] == results[i].View();
      assert Ids(results) == kept;
    }

    /** Records of the id, name and namespace asked for only, and without other conditions all of them. */
    ghost predicate AreAskedFor(filter: QueryFilter, results: seq<SensorRecord>)
      reads this, sensors.Values, results
    {
      && (forall r | r in results ::
            && (filter.id != "" ==> r.info.id == filter.id)
            && (filter.name != "" ==> r.info.name == filter.name)
            && (filter.namespace != "" ==> r.info.namespace == filter.namespace))
      && (filter.search == "" && filter.labels == map[] && filter.hasLabelKeys == [] && filter.limit <= 0 ==>
            forall r | r in sensors.Values ::
              || r in results
              || (filter.id != "" && r.info.id != filter.id)
              || (filter.name != "" && r.info.name != filter.name)
              || (filter.namespace != "" && r.info.namespace != filter.namespace))
    }

    /** By name, by the time of the last report, or for any other key by the time of registration. */
    static ghost predicate AreInOrder(filter: QueryFilter, results: seq<SensorRecord>)
      reads results
    {
      && (filter.orderBy == "name" ==>
            forall i, j | 0 <= i < j < |results| ::
              if filter.orderDesc then !LexLess(results[i].info.name, results[j].info.name)
              else !LexLess(results[j].info.name, results[i].info.name))
      && (filter.orderBy == "last_reported" ==>
            forall i, j | 0 <= i < j < |results| ::
              if filter.orderDesc then results[i].lastReportedAt >= results[j].lastReportedAt
              else results[i].lastReportedAt <= results[j].lastReportedAt)
      && (filter.orderBy !in ["", "name", "last_reported"] ==>
            forall i, j | 0 <= i < j < |results| ::
              if filter.orderDesc then results[i].info.registeredAt >= results[j].info.registeredAt
              else results[i].info.registeredAt <= results[j].info.registeredAt)
    }

    /** Such records are of the id, name and namespace asked for, and without other conditions these are all of them. */
    lemma RecordsAreAskedFor(filter: QueryFilter, results: seq<SensorRecord>)
      requires Valid() && IsAnswer(Contents(), filter, Ids(results))
      requires forall i | 0 <= i < |results| ::
               results[i].info.id in sensors && results[i] == sensors[results[i].info.id]
      ensures AreAskedFor(filter, results)
    {
      hide IsAnswer;
      var st, ids := Contents(), Ids(results);
      AnswerSpelled(st, filter, ids);
      forall r | r in results
        ensures r.info.id in ids && r.info.id in st && st[r.info.id] == r.View()
      {
        var i :| 0 <= i < |results| && results[i] == r;
        assert ids[i] == r.info.id;
      }
      forall r | r in sensors.Values && r !in results
        ensures exists id :: id in st && id !in ids && st[id] == r.View()
      {
        var id :| id in sensors && sensors[id] == r;
        assert id !in ids;
      }
    }

    /** And they are in the order asked for. */
    lemma RecordsAreInOrder(filter: QueryFilter, results: seq<SensorRecord>)
      requires Valid() && IsAnswer(Contents(), filter, Ids(results))
      requires forall i | 0 <= i < |results| ::
               results[i].info.id in sensors && results[i] == sensors[results[i].info.id]
      ensures AreInOrder(filter, results)
    {
      hide IsAnswer, InOrder, LexLess;
      var st, ids := Contents(), Ids(results);
      AnswerSpelled(st, filter, ids);
      forall i, j | 0 <= i < j < |results| && filter.orderBy != ""
        ensures InOrder(filter, results[i].View(), results[j].View())
      {
        assert ids[i] in st && ids[j] in st;
      }
      forall i, j | 0 <= i < j < |results| {
        InOrderIff(filter, results[i].View(), results[j].View());
      }
    }

    /** The answer holds the live records. */
    method Query(filter: QueryFilter) returns (results: seq<SensorRecord>)
      requires Valid()
      ensures IsAnswer(Contents(), filter, Ids(results))
      ensures forall i | 0 <= i < |results| ::
              results[i].info.id in sensors && results[i] == sensors[results[i].info.id]
      ensures AreAskedFor(filter, results) && AreInOrder(filter, results)
    {
      hide IsAnswer, LexLess;
      results := SelectRecords(filter);
      RecordsAreAskedFor(filter, results);
      RecordsAreInOrder(filter, results);
    }
  }

  ghost function Ids(records: seq<SensorRecord>): (ids: seq<string>)
    reads records
    ensures |ids| == |records| && forall i | 0 <= i < |ids| :: ids[i] == records[i].info.id
  {
    seq(|records|, i requires 0 <= i < |records| reads records => records[i].info.id)
  }

  /** Sorts the matches if an order is asked for and cuts them at the limit. */
  method Arrange(found: seq<string>, st: Model.Store, filter: QueryFilter) returns (kept: seq<string>)
    requires NoDuplicates(found) && ToSet(found) == MatchSet(st, filter)
    ensures IsAnswer(st, filter, kept)
  {
    var ids := found;
    if filter.orderBy != "" {
      var a := new string[|found|](k requires 0 <= k < |found| => found[k]);
      assert a[..] == found && forall id | id in found :: id in ToSet(found);
      SortInPlace(a, st, filter);
      PermutationKeeps(found, a[..]);
      ids := a[..];
    }
    kept := if 0 < filter.limit < |ids| then ids[..filter.limit] else ids;
    PrefixIsAnswer(st, filter, ids, kept);
  }

  /** sort.Slice, as an insertion sort with the comparison that Query passes. */
  method SortInPlace(a: array<string>, st: Model.Store, filter: QueryFilter)
    requires forall id | id in a[..] :: id in st
    modifies a
    ensures multiset(a[..]) == multiset(old(a[..]))
    ensures Sorted(st, filter, a[..])
  {
    for i := 0 to a.Length
      invariant multiset(a[..]) == multiset(old(a[..]))
      invariant Sorted(st, filter, a[..i])
    {
      PermutationMembers(old(a[..]), a[..]);
      Insert(a, i, st, filter);
    }
    assert a[..a.Length] == a[..];
  }

  /** Moves element `i` down to its place among the sorted elements before it. */
  method Insert(a: array<string>, i: nat, st: Model.Store, filter: QueryFilter)
    requires i < a.Length
    requires forall id | id in a[..] :: id in st
    requires Sorted(st, filter, a[..i])
    modifies a
    ensures multiset(a[..]) == multiset(old(a[..]))
    ensures Sorted(st, filter, a[..i + 1])
  {
    var j := i;
    ghost var s := a[..];
    InsertStarts(st, filter, s, i);
    while j > 0 && SortsBefore(filter, st[a[j]], st[a[j - 1]])
      invariant 0 <= j <= i
      invariant a[..] == s && forall k | 0 <= k < a.Length :: a[k] in st
      invariant multiset(s) == multiset(old(a[..]))
      invariant SortedExcept(st, filter, s, i, j)
    {
      SwapKeepsSortedExcept(st, filter, s, i, j);
      s := Swapped(s, j);
      a[j], a[j - 1] := a[j - 1], a[j];
      j := j - 1;
    }
    InsertEnds(st, filter, s, i, j);
  }

  /** Elements up to `i` are sorted but for the one at `j`, which may stand before those after it. */
  predicate SortedExcept(st: Model.Store, filter: QueryFilter, s: seq<string>, i: nat, j: nat) {
    && j <= i < |s|
    && (forall id | id in s :: id in st)
    && (forall p, q | 0 <= p < q <= i && p != j && q != j :: InOrder(filter, st[s[p]], st[s[q]]))
    && (forall q | j < q <= i :: InOrder(filter, st[s[j]], st[s[q]]))
  }

  function Swapped(s: seq<string>, j: nat): seq<string>
    requires 0 < j < |s|
  {
    s[j := s[j - 1]][j - 1 := s[j]]
  }

  lemma InsertStarts(st: Model.Store, filter: QueryFilter, s: seq<string>, i: nat)
    requires i < |s| && forall id | id in s :: id in st
    requires Sorted(st, filter, s[..i])
    ensures SortedExcept(st, filter, s, i, i)
  {
    forall p, q | 0 <= p < q < i
      ensures InOrder(filter, st[s[p]], st[s[q]])
    {
      assert s[..i][p] == s[p] && s[..i][q] == s[q];
    }
  }

  lemma SwapKeepsSortedExcept(st: Model.Store, filter: QueryFilter, s: seq<string>, i: nat, j: nat)
    requires SortedExcept(st, filter, s, i, j) && j > 0
    requires SortsBefore(filter, st[s[j]], st[s[j - 1]])
    ensures SortedExcept(st, filter, Swapped(s, j), i, j - 1)
    ensures multiset(Swapped(s, j)) == multiset(s)
  {
    OrderIsTotal(filter, st[s[j]], st[s[j - 1]]);
    assert forall id | id in Swapped(s, j) :: id in s;
  }

  lemma InsertEnds(st: Model.Store, filter: QueryFilter, s: seq<string>, i: nat, j: nat)
    requires SortedExcept(st, filter, s, i, j)
    requires j > 0 ==> !SortsBefore(filter, st[s[j]], st[s[j - 1]])
    ensures Sorted(st, filter, s[..i + 1])
  {
    forall p | 0 <= p < j
      ensures InOrder(filter, st[s[p]], st[s[j]])
    {
      OrderIsTotal(filter, st[s[j]], st[s[j - 1]]);
      if p < j - 1 {
        OrderIsTransitive(filter, st[s[p]], st[s[j - 1]], st[s[j]]);
      }
    }
    var t := s[..i + 1];
    forall p, q | 0 <= p < q < |t|
      ensures InOrder(filter, st[t[p]], st[t[q]])
    {
      assert t[p] == s[p] && t[q] == s[q];
    }
  }

  lemma PermutationMembers(a: seq<string>, b: seq<string>)
    requires multiset(a) == multiset(b)
    ensures forall x :: x in a <==> x in b
  {
    assert forall x :: x in a <==> x in multiset(a);
    assert forall x :: x in b <==> x in multiset(b);
  }

  lemma PermutationKeeps(a: seq<string>, b: seq<string>)
    requires multiset(a) == multiset(b) && NoDuplicates(a)
    ensures |a| == |b| && ToSet(a) == ToSet(b) && NoDuplicates(b)
  {
    assert |a| == |multiset(a)| && |b| == |multiset(b)|;
    PermutationMembers(a, b);
    forall i, j | 0 <= i < j < |b|
      ensures b[i] != b[j]
    {
      CountsTwice(b, i, j);
      NoDuplicatesCount(a, b[i]);
    }
  }

  lemma CountsTwice(s: seq<string>, i: nat, j: nat)
    requires i < j < |s|
    ensures s[i] == s[j] ==> multiset(s)[s[i]] >= 2
  {
    assert s == s[..i] + [s[i]] + s[i + 1..j] + [s[j]] + s[j + 1..];
  }

  lemma {:induction false} NoDuplicatesCount(s: seq<string>, x: string)
    requires NoDuplicates(s)
    ensures multiset(s)[x] <= 1
    decreases |s|
  {
    if s != [] {
      NoDuplicatesCount(s[1..], x);
      assert s == [s[0]] + s[1..];
      if s[0] == x {
        assert x !in s[1..];
      }
    }
  }

  /** Cutting the sorted list of all matches at the limit gives an answer. */
  lemma PrefixIsAnswer(st: Model.Store, filter: QueryFilter, all: seq<string>, ids: seq<string>)
    requires NoDuplicates(all) && ToSet(all) == MatchSet(st, filter)
    requires filter.orderBy != "" ==> Sorted(st, filter, all)
    requires ids == if 0 < filter.limit < |all| then all[..filter.limit] else all
    ensures IsAnswer(st, filter, ids)
  {
    NoDuplicatesSize(all);
    assert ids <= all && forall id :: id in all <==> id in MatchSet(st, filter);
    if filter.orderBy != "" {
      forall kept, omitted | kept in ids && omitted in MatchSet(st, filter) && omitted !in ids
        ensures InOrder(filter, st[kept], st[omitted])
      {
        var i :| 0 <= i < |ids| && ids[i] == kept;
        var j :| 0 <= j < |all| && all[j] == omitted;
        assert all[i] == kept && j >= |ids|;
      }
    }
  }
}
