/**
 What clients may see of live records. GetStatus and Query of the in-memory store hand out the records
 themselves, and answers and snapshots are assembled from them field by field and without a lock
 (internal/server/qivitals_svc.go, internal/storage/snapshot_storage.go), while patches go on.
 */
module LiveReads {
  import opened Wrappers
  import opened Sensors
  import opened Patching
  import opened ColumnPatches
  import opened PatchProtocol
  import Model = StoreModel

  // ---- what a whole run may do to a record ----------------------------------------------------

  lemma StepRespects(s: Sys, t: Sys, a: Action)
    requires Inv(s) && Do(s, a) == Some(t)
    ensures Respects(s, t)
  {
    hide HistoryInv, RequestInv, WriterInv, Respects, ServeAll, PatchInfo, NameInUse, AddsRecord, InfoMoves;
    match a
    case Register(ref, sensor) =>
      RegisterAddsRecord(s, t, ref, sensor);
      NewRecordRespects(s, t, ref, Model.NewState(sensor));
    case Delete(id) => DeleteRespects(s, t, id);
    case Report(id, data, now) => ReportRespects(s, t, id, data, now);
    case Begin(request, id, expected, ops) => BeginRespects(s, t, request, id, expected, ops);
    case ReadColumn(request, column) => OnlyRequestMoves(s, t, request, t.requests[request].stage);
    case Compute(request) => OnlyRequestMoves(s, t, request, t.requests[request].stage);
    case Acquire(request) =>
      if t.lock.None? {
        OnlyRequestMoves(s, t, request, t.requests[request].stage);
      } else {
        LockTaken(s, t, request);
      }
    case WriteColumn(request, column) =>
      WriteKeepsLock(s, t, request, column);
      InfoMovesRespects(s, t, s.sensors[s.requests[request].id]);
    case Release(request, now, version) => ReleaseRespects(s, t, request, now, version);
  }

  /** The part of Respects that is about one record. */
  predicate RecordRespected(s: Sys, t: Sys, r: Ref)
    requires r in s.heap
  {
    && r in t.heap
    && (t.heap[r].info.resourceVersion == s.heap[r].info.resourceVersion || t.heap[r].info.resourceVersion !in s.used)
    && (|| (t.heap[r].info == s.heap[r].info && (Written(s) == Some(r) ==> Written(t) == Some(r)))
        || Written(t) == Some(r)
        || t.heap[r].info.resourceVersion !in s.used)
  }

  lemma {:induction false} RunRespects(s: Sys, actions: seq<Action>, r: Ref)
    requires Inv(s) && Run(s, actions).Some? && r in s.heap
    ensures var t := Run(s, actions).value;
            Inv(t) && s.used <= t.used && RecordRespected(s, t, r)
    decreases |actions|
  {
    hide Inv, Do, Written;
    if actions != [] {
      var next := Do(s, actions[0]).value;
      StepKeepsInv(s, next, actions[0]);
      StepRespects(s, next, actions[0]);
      RunRespects(next, actions[1..], r);
      RecordRespectedTwice(s, next, Run(next, actions[1..]).value, r);
    }
  }

  lemma RecordRespectedTwice(s: Sys, t: Sys, u: Sys, r: Ref)
    requires r in s.heap && Respects(s, t) && r in t.heap && RecordRespected(t, u, r)
    ensures RecordRespected(s, u, r)
  {
    hide Written;
  }

  lemma {:induction false} RunConcat(s: Sys, a: seq<Action>, b: seq<Action>)
    ensures Run(s, a + b) == (var mid := Run(s, a); if mid.Some? then Run(mid.value, b) else None)
    decreases |a|
  {
    hide Do;
    if a == [] {
      assert a + b == b;
    } else {
      assert (a + b)[0] == a[0] && (a + b)[1..] == a[1..] + b;
      var next := Do(s, a[0]);
      if next.Some? {
        RunConcat(next.value, a[1..], b);
      }
    }
  }

  // ---- when a field-by-field read is of one moment ----------------------------------------------

  /**
   If a record carries the same version before and after, and is not being written afterwards, then its
   info was the same at every moment in between, so fields read at any of them belong together.
   */
  lemma BracketedReadIsOfOneMoment(s: Sys, before: seq<Action>, after: seq<Action>, r: Ref)
    requires Inv(s) && r in s.heap && Run(s, before + after).Some?
    requires var t := Run(s, before + after).value;
             r in t.heap && t.heap[r].info.resourceVersion == s.heap[r].info.resourceVersion && Written(t) != Some(r)
    ensures var t := Run(s, before + after).value;
            && Run(s, before).Some? && r in Run(s, before).value.heap
            && Run(s, before).value.heap[r].info == t.heap[r].info
            && (forall id | id in t.sensors && t.sensors[id] == r ::
                  id in Contents(t) && Contents(t)[id].info == t.heap[r].info)
  {
    hide Do, Written;
    RunConcat(s, before, after);
    var mid := Run(s, before).value;
    RunRespects(s, before, r);
    RunRespects(mid, after, r);
    VersionIsUsed(s, r);
    VersionIsUsed(mid, r);
  }

  lemma VersionIsUsed(s: Sys, r: Ref)
    requires Inv(s) && r in s.heap
    ensures s.heap[r].info.resourceVersion in s.used
  {
  }

  /** What a record holds after so many actions of a run. */
  function InfoAt(s: Sys, actions: seq<Action>, k: nat, r: Ref): Option<SensorInfo>
    requires k <= |actions|
  {
    var at := Run(s, actions[..k]);
    if at.Some? && r in at.value.heap then Some(at.value.heap[r].info) else None
  }

  /**
   The version decides for every run: unless the record is being written at the end, its info was the
   same at every moment exactly when its version is the same at both ends.
   */
  lemma VersionTellsChangeIff(s: Sys, actions: seq<Action>, r: Ref)
    requires Inv(s) && r in s.heap && Run(s, actions).Some? && Written(Run(s, actions).value) != Some(r)
    ensures var t := Run(s, actions).value;
            && r in t.heap
            && ((forall k | 0 <= k <= |actions| :: InfoAt(s, actions, k, r) == Some(t.heap[r].info)) <==>
                t.heap[r].info.resourceVersion == s.heap[r].info.resourceVersion)
  {
    hide Do, Written;
    RunRespects(s, actions, r);
    var t := Run(s, actions).value;
    assert InfoAt(s, actions, 0, r) == Some(s.heap[r].info);
    if t.heap[r].info.resourceVersion == s.heap[r].info.resourceVersion {
      forall k | 0 <= k <= |actions|
        ensures InfoAt(s, actions, k, r) == Some(t.heap[r].info)
      {
        assert actions == actions[..k] + actions[k..];
        BracketedReadIsOfOneMoment(s, actions[..k], actions[k..], r);
      }
    }
  }

  // ---- without that, it need not be -------------------------------------------------------------

  const READ_ORDER: seq<Column> := [ColName, ColNamespace, ColDescription, ColLabels, ColGraceful, ColFailure, ColRules]

  function Reads(request: nat, columns: seq<Column>): seq<Action>
    decreases |columns|
  {
    if columns == [] then [] else [ReadColumn(request, columns[0])] + Reads(request, columns[1..])
  }

  /** A request by itself reads column after column. */
  lemma {:induction false} ReadsRun(s: Sys, request: nat, columns: seq<Column>)
    requires request in s.requests && s.requests[request].stage.Reading? && s.requests[request].ref in s.heap
    ensures var q := s.requests[request];
            var stage := Reading(SetColumns(q.stage.view, s.heap[q.ref].info, columns), q.stage.seen + ToSet(columns));
            Run(s, Reads(request, columns)) == Some(s.(requests := Advance(s, request, stage)))
    decreases |columns|
  {
    var q := s.requests[request];
    if columns == [] {
      assert q.stage.seen + ToSet(columns) == q.stage.seen;
      assert Advance(s, request, q.stage) == s.requests;
    } else {
      var next := DoRead(s, request, columns[0]).value;
      assert Reads(request, columns)[1..] == Reads(request, columns[1..]);
      ReadsRun(next, request, columns[1..]);
      var last := next.requests[request].stage.(view := SetColumns(q.stage.view, s.heap[q.ref].info, columns),
                                                seen := q.stage.seen + ToSet(columns));
      assert Advance(next, request, last) == Advance(s, request, last);
      assert ToSet(columns) == {columns[0]} + ToSet(columns[1..]);
      assert q.stage.seen + {columns[0]} + ToSet(columns[1..]) == q.stage.seen + ToSet(columns);
    }
  }

  lemma ReadOrderIsAll(info: SensorInfo)
    ensures ToSet(READ_ORDER) == COLUMNS
    ensures SetColumns(Blank(info), info, READ_ORDER) == Unversioned(info)
  {
    assert forall c :: c in ToSet(READ_ORDER) <==> c in READ_ORDER;
    SetColumnsIsOverlay(Blank(info), info, READ_ORDER);
  }

  /** A request that has the lock and is about to write the name. */
  function Renaming(info: SensorInfo, updates: SensorInfo): PatchRequest {
    PatchRequest(info.id, info.resourceVersion, ReplaceColumns([ColName], updates), 0,
                 Writing(SetColumn(Unversioned(info), updates, ColName), {ColName}, info))
  }

  function About(info: SensorInfo, updates: SensorInfo): Sys {
    Sys(map[0 := Model.NewState(info)], map[info.id := 0], Some(0), map[0 := Renaming(info, updates)],
        {info.resourceVersion}, [Registered(info)])
  }

  /** How a first sensor and a first request to rename it get there. */
  function UpToLock(info: SensorInfo, updates: SensorInfo): seq<Action> {
    [Register(0, info), Begin(0, info.id, info.resourceVersion, ReplaceColumns([ColName], updates))]
    + (Reads(0, READ_ORDER) + [Compute(0), Acquire(0)])
  }

  lemma RunOfTwo(s: Sys, a: Action, b: Action)
    requires Do(s, a).Some?
    ensures Run(s, [a, b]) == Do(Do(s, a).value, b)
  {
    hide Do;
    assert [a, b][1..] == [b] && [b][1..] == [];
    var next := Do(s, a).value;
    assert Run(next, [b]) == (var last := Do(next, b); if last.Some? then Run(last.value, []) else None);
  }

  /** A stored info, that is one with labels and without a time of change. */
  predicate IsNew(info: SensorInfo) {
    info.id != "" && info.labels.Some? && info.lastSpecUpdatedAt == 0
  }

  function Reader(info: SensorInfo, updates: SensorInfo, view: SensorInfo, seen: set<Column>): Sys {
    About(info, updates).(lock := None, requests := map[0 := Renaming(info, updates).(stage := Reading(view, seen))])
  }

  lemma ReadsAll(info: SensorInfo, updates: SensorInfo)
    requires IsNew(info)
    ensures Run(Reader(info, updates, Blank(info), {}), Reads(0, READ_ORDER)) ==
            Some(Reader(info, updates, Unversioned(info), COLUMNS))
  {
    hide Run, Reads, ReplaceColumns, SetColumns, SetColumn, Blank, Unversioned;
    var begun := Reader(info, updates, Blank(info), {});
    ReadsRun(begun, 0, READ_ORDER);
    ReadOrderIsAll(info);
    assert Model.NewState(info).info == info;
    assert {} + COLUMNS == COLUMNS;
    var q := Renaming(info, updates);
    assert begun.requests[0 := q.(stage := Reading(Unversioned(info), COLUMNS))] ==
           map[0 := q.(stage := Reading(Unversioned(info), COLUMNS))];
  }

  lemma ReachesLock(info: SensorInfo, updates: SensorInfo)
    requires IsNew(info)
    ensures Run(INITIAL, UpToLock(info, updates)) == Some(About(info, updates))
  {
    hide Run, Reads, PatchInfo, Touched, ReplaceColumns, SetColumns, SetColumn, Blank, Unversioned, Do;
    var ops := ReplaceColumns([ColName], updates);
    ReplaceOne(info, updates, ColName);
    var begun := Reader(info, updates, Blank(info), {});
    var read := Reader(info, updates, Unversioned(info), COLUMNS);
    Start(info, ops, begun.(requests := map[]), begun);
    ReadsAll(info, updates);
    Finish(info, updates, read);
    RunConcat(begun, Reads(0, READ_ORDER), [Compute(0), Acquire(0)]);
    RunConcat(INITIAL, [Register(0, info), Begin(0, info.id, info.resourceVersion, ops)],
              Reads(0, READ_ORDER) + [Compute(0), Acquire(0)]);
  }

  lemma Start(info: SensorInfo, ops: seq<PatchOperation>, registered: Sys, begun: Sys)
    requires IsNew(info) && ops != []
    requires registered == Sys(map[0 := Model.NewState(info)], map[info.id := 0], None, map[], {info.resourceVersion},
                               [Registered(info)])
    requires var q := PatchRequest(info.id, info.resourceVersion, ops, 0, Reading(Blank(info), {}));
             begun == registered.(requests := map[0 := q])
    ensures Run(INITIAL, [Register(0, info), Begin(0, info.id, info.resourceVersion, ops)]) == Some(begun)
  {
    hide Run, Blank;
    assert Do(INITIAL, Register(0, info)) == Some(registered) by {
      assert {} + {info.resourceVersion} == {info.resourceVersion} && [] + [Registered(info)] == [Registered(info)];
    }
    assert {info.resourceVersion} + {info.resourceVersion} == {info.resourceVersion};
    assert Model.NewState(info).info == info;
    RunOfTwo(INITIAL, Register(0, info), Begin(0, info.id, info.resourceVersion, ops));
  }

  lemma Finish(info: SensorInfo, updates: SensorInfo, read: Sys)
    requires IsNew(info)
    requires read == About(info, updates).(
               lock := None,
               requests := map[0 := Renaming(info, updates).(stage := Reading(Unversioned(info), COLUMNS))])
    ensures Run(read, [Compute(0), Acquire(0)]) == Some(About(info, updates))
  {
    hide Run, PatchInfo, Touched, SetColumn;
    ReplaceOne(Unversioned(info), updates, ColName);
    assert Unversioned(Unversioned(info)) == Unversioned(info);
    assert Model.NewState(info).info == info;
    var q := Renaming(info, updates);
    var computed := Do(read, Compute(0)).value;
    assert computed == read.(requests := map[0 := q.(stage := Ready(q.stage.updated))]) by {
      assert read.requests[0 := q.(stage := Ready(q.stage.updated))] == map[0 := q.(stage := Ready(q.stage.updated))];
    }
    assert computed.requests[0 := q] == map[0 := q];
    RunOfTwo(read, Compute(0), Acquire(0));
  }

  /** The rename is written and committed. */
  lemma RenameCommits(info: SensorInfo, updates: SensorInfo, version: string)
    requires IsNew(info) && version != info.resourceVersion
    ensures var t := Run(About(info, updates), [WriteColumn(0, ColName), Release(0, 0, version)]);
            t.Some? && t.value.heap.Keys == {0} && t.value.heap[0].info.name == updates.name
            && t.value.heap[0].info.resourceVersion == version && t.value.lock.None?
  {
    hide Run, PatchInfo, Touched;
    var s := About(info, updates);
    var next := Do(s, WriteColumn(0, ColName)).value;
    assert {ColName} - {ColName} == {};
    RunOfTwo(s, WriteColumn(0, ColName), Release(0, 0, version));
    assert next.requests[0].stage.todo == {};
  }

  /** A record that is being written shows one of the new columns under the old version. */
  lemma HalfWrittenReadCanHappen(info: SensorInfo, updates: SensorInfo)
    requires IsNew(info) && updates.name != info.name
    ensures var early := Run(INITIAL, UpToLock(info, updates));
            var late := Run(INITIAL, UpToLock(info, updates) + [WriteColumn(0, ColName)]);
            && early.Some? && Inv(early.value) && 0 in early.value.heap && early.value.heap[0].info == info
            && late.Some? && 0 in late.value.heap && Written(late.value) == Some(0)
            && late.value.heap[0].info.resourceVersion == info.resourceVersion
            && late.value.heap[0].info.name != info.name
  {
    hide Run, UpToLock, PatchInfo, Inv;
    StartsWithInv();
    ReachesLock(info, updates);
    RunConcat(INITIAL, UpToLock(info, updates), [WriteColumn(0, ColName)]);
    NameWritten(info, updates);
    RunKeepsInv(INITIAL, UpToLock(info, updates));
    assert Model.NewState(info).info == info;
  }

  lemma NameWritten(info: SensorInfo, updates: SensorInfo)
    requires IsNew(info)
    ensures var t := Run(About(info, updates), [WriteColumn(0, ColName)]);
            t.Some? && 0 in t.value.heap && t.value.heap[0].info.name == updates.name && Written(t.value) == Some(0)
            && t.value.heap[0].info.resourceVersion == info.resourceVersion
  {
    hide PatchInfo, Touched, ReplaceColumns;
    assert [WriteColumn(0, ColName)][1..] == [];
  }

  lemma StartsWithInv()
    ensures Inv(INITIAL)
  {
    assert Contents(INITIAL) == map[];
  }

  /** Before the rename is committed no record has its version. */
  lemma VersionComesLast(s: Sys, actions: seq<Action>, k: nat, r: Ref, version: string)
    requires Inv(s) && Run(s, actions).Some? && k <= |actions| && version !in Run(s, actions).value.used
    ensures InfoAt(s, actions, k, r).Some? ==> InfoAt(s, actions, k, r).value.resourceVersion != version
  {
    hide Do, Inv;
    assert actions == actions[..k] + actions[k..];
    RunConcat(s, actions[..k], actions[k..]);
    RunKeepsInv(s, actions[..k]);
    var at := Run(s, actions[..k]).value;
    if r in at.heap {
      RunRespects(at, actions[k..], r);
      VersionIsUsed(at, r);
    }
  }

  /**
   Reading the name first and the version later, as an answer is assembled, can pair the old name with
   the version of the rename: an info that the record has at no moment of the run. A client that patches
   under that version passes the check although what it was shown was overwritten.
   */
  lemma TornReadCanHappen(info: SensorInfo, updates: SensorInfo, version: string)
    requires IsNew(info) && version != info.resourceVersion && updates.name != info.name
    ensures var run := UpToLock(info, updates) + [WriteColumn(0, ColName), Release(0, 0, version)];
            var early, late := |UpToLock(info, updates)|, |run|;
            && InfoAt(INITIAL, run, early, 0).Some? && InfoAt(INITIAL, run, early, 0).value.name == info.name
            && InfoAt(INITIAL, run, late, 0).Some? && InfoAt(INITIAL, run, late, 0).value.resourceVersion == version
            && forall k | 0 <= k <= |run| && InfoAt(INITIAL, run, k, 0).Some? ::
                 !(InfoAt(INITIAL, run, k, 0).value.name == info.name
                   && InfoAt(INITIAL, run, k, 0).value.resourceVersion == version)
  {
    hide Run, UpToLock, Inv, Do;
    StartsWithInv();
    var first, rename := UpToLock(info, updates), [WriteColumn(0, ColName), Release(0, 0, version)];
    var run := first + rename;
    ReachesLock(info, updates);
    RenameCommits(info, updates, version);
    NameWritten(info, updates);
    assert Model.NewState(info).info == info;
    RunConcat(INITIAL, first, rename);
    RunConcat(INITIAL, first, [WriteColumn(0, ColName)]);
    assert run[..|first|] == first && run[..|first| + 1] == first + [WriteColumn(0, ColName)] && run[..|run|] == run;
    forall k | 0 <= k <= |first|
      ensures InfoAt(INITIAL, run, k, 0).Some? ==> InfoAt(INITIAL, run, k, 0).value.resourceVersion != version
    {
      assert run[..k] == first[..k];
      VersionComesLast(INITIAL, first, k, 0, version);
    }
  }
}
