/**
 Saving the store to a file and loading it back (internal/storage/snapshot_storage.go). A snapshot is
 a value; loading registers its sensors one by one, in whatever order the map is walked.
 */
module Snapshots {
  import opened Wrappers
  import opened Sensors
  import opened Queries
  import opened Filters
  import opened StoreModel
  import opened MemoryStorage
  import Health

  /** Registering the listed sensors of a snapshot, failures ignored. */
  function Load(st: Store, snapshot: Store, order: seq<string>): Store
    requires forall id | id in order :: id in snapshot
    decreases |order|
  {
    if order == [] then st
    else Load(After(st, CallRegister(snapshot[order[0]].info)), snapshot, order[1..])
  }

  ghost predicate Enumerates(order: seq<string>, keys: set<string>) {
    NoDuplicates(order) && ToSet(order) == keys
  }

  /** A snapshot as takeSnapshot writes it: every sensor under its own id. */
  ghost predicate Keyed(snapshot: Store) {
    forall id | id in snapshot :: snapshot[id].info.id == id
  }

  /** What a snapshot becomes when every sensor in it can be registered. */
  function Restored(snapshot: Store): Store {
    map id | id in snapshot :: NewState(snapshot[id].info)
  }

  function RestoredOnly(snapshot: Store, ids: set<string>): Store {
    map id | id in snapshot && id in ids :: NewState(snapshot[id].info)
  }

  // ---- order of loading ----------------------------------------------------------------------

  /** With unique names a sensor that is not loaded yet can be registered next to the loaded ones. */
  lemma LoadsOne(snapshot: Store, loaded: set<string>, id: string)
    requires Keyed(snapshot) && UniqueNames(snapshot) && id in snapshot && id !in loaded
    ensures After(RestoredOnly(snapshot, loaded), CallRegister(snapshot[id].info)) ==
            RestoredOnly(snapshot, loaded + {id})
  {
    var st, info := RestoredOnly(snapshot, loaded), snapshot[id].info;
    assert !NameTaken(st, info);
    assert st[id := NewState(info)] == RestoredOnly(snapshot, loaded + {id});
  }

  lemma TailIsDistinct(order: seq<string>)
    requires NoDuplicates(order) && order != []
    ensures NoDuplicates(order[1..]) && order[0] !in order[1..]
    ensures ToSet(order) == {order[0]} + ToSet(order[1..])
  {
    assert order == [order[0]] + order[1..];
  }

  lemma {:induction false} LoadUnique(snapshot: Store, loaded: set<string>, order: seq<string>)
    requires Keyed(snapshot) && UniqueNames(snapshot)
    requires NoDuplicates(order) && loaded !! ToSet(order)
    requires forall id | id in order :: id in snapshot
    ensures Load(RestoredOnly(snapshot, loaded), snapshot, order) == RestoredOnly(snapshot, loaded + ToSet(order))
    decreases |order|
  {
    hide NewState, NoDuplicates, After;
    if order == [] {
      assert loaded + ToSet(order) == loaded;
    } else {
      var id := order[0];
      TailIsDistinct(order);
      LoadsOne(snapshot, loaded, id);
      LoadUnique(snapshot, loaded + {id}, order[1..]);
      assert loaded + {id} + ToSet(order[1..]) == loaded + ToSet(order);
    }
  }

  /** Once `a` is in, a sensor `b` of the same name stays out. */
  lemma {:induction false} NamesakeStaysOut(st: Store, snapshot: Store, order: seq<string>, a: string, b: string)
    requires Keyed(snapshot) && forall id | id in order :: id in snapshot
    requires a in snapshot && b in snapshot && SameName(snapshot[a].info, snapshot[b].info)
    requires a in st && b !in st && SameName(st[a].info, snapshot[a].info)
    ensures a in Load(st, snapshot, order) && b !in Load(st, snapshot, order)
    decreases |order|
  {
    if order != [] {
      if order[0] == b {
        assert NameTaken(st, snapshot[b].info);
      }
      NamesakeStaysOut(After(st, CallRegister(snapshot[order[0]].info)), snapshot, order[1..], a, b);
    }
  }

  lemma OneMoreIsDistinct(order: seq<string>, id: string)
    requires NoDuplicates(order) && id !in order
    ensures NoDuplicates(order + [id])
  {
    assert forall i | 0 <= i < |order| :: order[i] in order;
  }

  lemma {:induction false} SomeOrder(keys: set<string>) returns (order: seq<string>)
    ensures Enumerates(order, keys)
    decreases |keys|
  {
    if keys == {} {
      order := [];
    } else {
      var id :| id in keys;
      var rest := SomeOrder(keys - {id});
      order := [id] + rest;
      assert forall x :: x in rest <==> x in ToSet(rest);
    }
  }

  lemma OrderStartingWith(keys: set<string>, first: string) returns (rest: seq<string>)
    requires first in keys
    ensures Enumerates([first] + rest, keys)
  {
    rest := SomeOrder(keys - {first});
    assert forall x :: x in rest <==> x in ToSet(rest);
    assert ToSet([first] + rest) == keys;
  }

  lemma EnumeratedMembers(order: seq<string>, keys: set<string>)
    requires Enumerates(order, keys)
    ensures forall id :: id in order <==> id in keys
  {
    assert forall id :: id in order <==> id in ToSet(order);
  }

  /** Of two namesakes the one that is loaded first is kept and the other is lost. */
  lemma FirstNamesakeWins(snapshot: Store, a: string, b: string) returns (order: seq<string>)
    requires Keyed(snapshot) && a in snapshot && b in snapshot && a != b
    requires SameName(snapshot[a].info, snapshot[b].info)
    ensures Enumerates(order, snapshot.Keys) && forall id | id in order :: id in snapshot
    ensures a in Load(map[], snapshot, order) && b !in Load(map[], snapshot, order)
  {
    var rest := OrderStartingWith(snapshot.Keys, a);
    order := [a] + rest;
    EnumeratedMembers(order, snapshot.Keys);
    assert order[1..] == rest;
    NamesakeStaysOut(After(map[], CallRegister(snapshot[a].info)), snapshot, rest, a, b);
  }

  /** Loading in any order gives the same store. */
  ghost predicate OrderIrrelevant(snapshot: Store) {
    forall a, b | Enumerates(a, snapshot.Keys) && Enumerates(b, snapshot.Keys)
                  && (forall id | id in a + b :: id in snapshot) ::
      Load(map[], snapshot, a) == Load(map[], snapshot, b)
  }

  /** Loading depends on the order in which the map is walked exactly when names are not unique. */
  lemma OrderIrrelevantIffUnique(snapshot: Store)
    requires Keyed(snapshot)
    ensures OrderIrrelevant(snapshot) <==> UniqueNames(snapshot)
  {
    if UniqueNames(snapshot) {
      forall a, b | Enumerates(a, snapshot.Keys) && Enumerates(b, snapshot.Keys)
                    && (forall id | id in a + b :: id in snapshot)
        ensures Load(map[], snapshot, a) == Load(map[], snapshot, b)
      {
        EnumeratedMembers(a, snapshot.Keys);
        EnumeratedMembers(b, snapshot.Keys);
        LoadsRestored(snapshot, a);
        LoadsRestored(snapshot, b);
      }
    } else {
      var a, b :| a in snapshot && b in snapshot && SameName(snapshot[a].info, snapshot[b].info) && a != b;
      var keepsA := FirstNamesakeWins(snapshot, a, b);
      var keepsB := FirstNamesakeWins(snapshot, b, a);
      assert forall id | id in keepsA + keepsB :: id in snapshot;
      assert Load(map[], snapshot, keepsA) != Load(map[], snapshot, keepsB);
    }
  }

  /** With unique names every sensor is restored, whatever the order. */
  lemma LoadsRestored(snapshot: Store, order: seq<string>)
    requires Keyed(snapshot) && UniqueNames(snapshot)
    requires Enumerates(order, snapshot.Keys) && forall id | id in order :: id in snapshot
    ensures Load(map[], snapshot, order) == Restored(snapshot)
  {
    LoadUnique(snapshot, {}, order);
    assert RestoredOnly(snapshot, {}) == map[];
    assert RestoredOnly(snapshot, {} + ToSet(order)) == Restored(snapshot);
  }

  // ---- what a restart keeps ------------------------------------------------------------------

  /**
   A restart, in whatever order it loads, keeps every info but the time of its last change, and forgets
   every report.
   */
  lemma RestoreForgetsOnlyReports(st: Store, order: seq<string>)
    requires StoreInv(st)
    requires Enumerates(order, st.Keys) && forall id | id in order :: id in st
    ensures var after := Load(map[], st, order);
            && StoreInv(after) && after.Keys == st.Keys
            && (forall id | id in st ::
                  after[id] == SensorState(st[id].info.(lastSpecUpdatedAt := 0), map[], st[id].info.registeredAt))
            && forall id :: GetIdentity(after, id) == GetIdentity(st, id)
  {
    LoadsRestored(st, order);
    forall id | id in st
      ensures Restored(st)[id].info == st[id].info.(lastSpecUpdatedAt := 0)
    {
      assert CopyLabels(st[id].info) == st[id].info;
    }
  }

  /** From then on saving and loading changes nothing any more. */
  lemma RestoreIsIdempotent(st: Store, order: seq<string>, again: seq<string>)
    requires StoreInv(st)
    requires Enumerates(order, st.Keys) && forall id | id in order :: id in st
    requires Enumerates(again, st.Keys)
    ensures var once := Load(map[], st, order);
            (forall id | id in again :: id in once) && Load(map[], once, again) == once
  {
    hide Load, NewState, StoreInv, SameName;
    RestoreForgetsOnlyReports(st, order);
    StoreIsKeyed(st);
    LoadsRestored(st, order);
    EnumeratedMembers(again, st.Keys);
    StoreIsKeyed(Restored(st));
    LoadsRestored(Restored(st), again);
    RestoredTwice(st);
  }

  lemma StoreIsKeyed(st: Store)
    requires StoreInv(st)
    ensures Keyed(st) && UniqueNames(st)
  {
  }

  lemma RestoredTwice(st: Store)
    ensures Restored(Restored(st)) == Restored(st)
  {
    forall id | id in st
      ensures NewState(NewState(st[id].info).info) == NewState(st[id].info)
    {
      assert CopyLabels(NewState(st[id].info).info) == NewState(st[id].info).info;
    }
  }

  /** No sensor looks healthier after a restart, as far as silence goes. */
  lemma RestoreNeverImprovesHealth(st: Store, id: string, now: int)
    requires StoreInv(st) && id in st && st[id].info.registeredAt <= st[id].lastReportedAt
    ensures Health.Severity(Health.BaseState(st[id], now)) <= Health.Severity(Health.BaseState(Restored(st)[id], now))
  {
  }

  // ---- the storage ---------------------------------------------------------------------------

  lemma EmptyFilterMatchesAll(st: Store)
    ensures MatchSet(st, EMPTY_FILTER) == st.Keys
  {
  }

  lemma AllUnderTheirIds(st: Store, ids: seq<string>)
    requires RecordInv(st) && ToSet(ids) == st.Keys
    ensures forall i | 0 <= i < |ids| :: ids[i] in st && st[ids[i]].info.id == ids[i]
    ensures forall id | id in st :: id in ids
  {
    assert forall id :: id in ids <==> id in ToSet(ids);
  }

  /** The wrapper around a store; `file` is the content of the snapshot file, if there is one. */
  class SnapshotStorage {
    const underlying: MemorySensorStorage
    var file: Option<Store>

    /** Wraps a store, which is first filled from the file. */
    constructor (underlying: MemorySensorStorage, file: Option<Store>)
      requires underlying.Valid()
      modifies underlying
      ensures this.underlying == underlying && this.file == file && underlying.Valid()
      ensures file.None? ==> underlying.Contents() == old(underlying.Contents())
      ensures file.Some? ==>
                exists order | Enumerates(order, file.value.Keys) && (forall id | id in order :: id in file.value) ::
                  underlying.Contents() == Load(old(underlying.Contents()), file.value, order)
    {
      this.underlying := underlying;
      this.file := file;
      new;
      var order := LoadInitialState();
    }

    method LoadInitialState() returns (ghost order: seq<string>)
      requires underlying.Valid()
      modifies underlying
      ensures underlying.Valid()
      ensures file.None? ==> underlying.Contents() == old(underlying.Contents())
      ensures file.Some? ==>
                && Enumerates(order, file.value.Keys) && (forall id | id in order :: id in file.value)
                && underlying.Contents() == Load(old(underlying.Contents()), file.value, order)
    {
      order := [];
      if file.None? {
        return;
      }
      var snapshot := file.value;
      var todo := snapshot.Keys;
      while todo != {}
        invariant underlying.Valid()
        invariant todo <= snapshot.Keys && NoDuplicates(order)
        invariant forall id :: id in order <==> id in snapshot.Keys - todo
        invariant underlying.Contents() == Load(old(underlying.Contents()), snapshot, order)
      {
        var id :| id in todo;
        LoadOneMore(old(underlying.Contents()), snapshot, order, id);
        var _ := underlying.Register(snapshot[id].info);
        OneMoreIsDistinct(order, id);
        todo := todo - {id};
        order := order + [id];
      }
      assert ToSet(order) == snapshot.Keys;
    }

    method TakeSnapshot()
      requires underlying.Valid()
      modifies this`file
      ensures file == Some(underlying.Contents())
    {
      hide IsAnswer, MatchSet, RecordInv, NoDuplicates, Matches, MemorySensorStorage.AreAskedFor,
           MemorySensorStorage.AreInOrder;
      var states := underlying.Query(EMPTY_FILTER);
      ghost var ids := Ids(states);
      ghost var st := underlying.Contents();
      EmptyFilterMatchesAll(st);
      AnswerIsComplete(st, EMPTY_FILTER, ids);
      AllUnderTheirIds(st, ids);
      assert forall i | 0 <= i < |states| :: states[i].View() == st[ids[i]];
      var dataMap: Store := map[];
      for i := 0 to |states|
        invariant forall k | 0 <= k < i :: ids[k] in dataMap
        invariant forall id | id in dataMap :: id in st && dataMap[id] == st[id]
      {
        assert states[i].View().info.id == ids[i];
        dataMap := dataMap[states[i].info.id := states[i].View()];
      }
      assert dataMap == st;
      file := Some(dataMap);
    }
  }

  lemma {:induction false} LoadOneMore(st: Store, snapshot: Store, order: seq<string>, id: string)
    requires id in snapshot && forall x | x in order :: x in snapshot
    ensures Load(st, snapshot, order + [id]) == After(Load(st, snapshot, order), CallRegister(snapshot[id].info))
    decreases |order|
  {
    if order == [] {
      assert ([] + [id])[1..] == [];
    } else {
      assert (order + [id])[0] == order[0] && (order + [id])[1..] == order[1..] + [id];
      LoadOneMore(After(st, CallRegister(snapshot[order[0]].info)), snapshot, order[1..], id);
    }
  }
}
