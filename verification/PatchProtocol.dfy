/**
 Concurrent requests on the in-memory store, step by step. GetStatus hands out the live record, so a
 patch request reads its columns one at a time and without a lock, while others write them one at a
 time under the lock; it then compares versions and writes its own columns. Every reachable state is
 nevertheless that of the successful requests served one after another.
 */
module PatchProtocol {
  import opened Wrappers
  import opened Sensors
  import opened Patching
  import Model = StoreModel
  import opened Service

  /** The address of a record. */
  type Ref = nat

  /**
   Where a patch request stands. `base` is the info of the record when the lock was taken; the program
   does not keep it.
   */
  datatype Stage =
    | Reading(view: SensorInfo, seen: set<Column>)
    | Ready(updated: SensorInfo)
    | Writing(updated: SensorInfo, todo: set<Column>, base: SensorInfo)
    | Finished(result: Result<(), ServiceError>)

  datatype PatchRequest = PatchRequest(id: string, expected: string, ops: seq<PatchOperation>, ref: Ref, stage: Stage)

  /** A successful request, as it takes effect; a patch with the number of its request. */
  datatype Served =
    | Registered(sensor: SensorInfo)
    | Deleted(id: string)
    | Reported(id: string, data: map<string, string>, now: int)
    | Patched(request: nat, id: string, expected: string, ops: seq<PatchOperation>, now: int, version: string)

  /**
   `used` holds all versions that were issued or named so far; fresh versions are taken outside it.
   `served` is the history of effects.
   */
  datatype Sys = Sys(
    heap: map<Ref, SensorState>,
    sensors: map<string, Ref>,
    lock: Option<nat>,
    requests: map<nat, PatchRequest>,
    used: set<string>,
    served: seq<Served>)

  const INITIAL := Sys(map[], map[], None, map[], {}, [])

  datatype Action =
    | Register(ref: Ref, sensor: SensorInfo)
    | Delete(id: string)
    | Report(id: string, data: map<string, string>, now: int)
    | Begin(request: nat, id: string, expected: string, ops: seq<PatchOperation>)
    | ReadColumn(request: nat, column: Column)
    | Compute(request: nat)
    | Acquire(request: nat)
    | WriteColumn(request: nat, column: Column)
    | Release(request: nat, now: int, version: string)

  /** What a request knows before it reads any column: id and registration time never change. */
  function Blank(info: SensorInfo): SensorInfo {
    SensorInfo(info.id, "", "", "", "", 0, 0, None, info.registeredAt, 0, [])
  }

  function SetInfo(heap: map<Ref, SensorState>, ref: Ref, info: SensorInfo): map<Ref, SensorState>
    requires ref in heap
  {
    heap[ref := heap[ref].(info := info)]
  }

  predicate InStage(s: Sys, request: nat) {
    request in s.requests && s.requests[request].id in s.sensors && s.sensors[s.requests[request].id] in s.heap
  }

  function Advance(s: Sys, request: nat, stage: Stage): map<nat, PatchRequest>
    requires request in s.requests
  {
    s.requests[request := s.requests[request].(stage := stage)]
  }

  // ---- the steps; None means that a step cannot happen now --------------------------------------

  predicate NameInUse(s: Sys, sensor: SensorInfo) {
    exists id | id in s.sensors && s.sensors[id] in s.heap :: Model.SameName(s.heap[s.sensors[id]].info, sensor)
  }

  function DoRegister(s: Sys, ref: Ref, sensor: SensorInfo): Option<Sys> {
    if || s.lock.Some? || ref in s.heap || sensor.id in s.sensors
       || sensor.resourceVersion in s.used || NameInUse(s, sensor)
    then None
    else Some(s.(heap := s.heap[ref := Model.NewState(sensor)],
                 sensors := s.sensors[sensor.id := ref],
                 used := s.used + {sensor.resourceVersion},
                 served := s.served + [Registered(sensor)]))
  }

  function DoDelete(s: Sys, id: string): Option<Sys> {
    if s.lock.Some? || id !in s.sensors then None
    else Some(s.(sensors := s.sensors - {id}, served := s.served + [Deleted(id)]))
  }

  function DoReport(s: Sys, id: string, data: map<string, string>, now: int): Option<Sys> {
    if s.lock.Some? || id !in s.sensors || s.sensors[id] !in s.heap then None
    else
      var r := s.heap[s.sensors[id]];
      Some(s.(heap := s.heap[s.sensors[id] := r.(reportedData := r.reportedData + data, lastReportedAt := now)],
              served := s.served + [Reported(id, data, now)]))
  }

  /** GetStatus under the read lock: the request keeps the address of the live record. */
  function DoBegin(s: Sys, request: nat, id: string, expected: string, ops: seq<PatchOperation>): Option<Sys> {
    if s.lock.Some? || request in s.requests || id == "" || ops == [] || id !in s.sensors || s.sensors[id] !in s.heap
    then None
    else
      var q := PatchRequest(id, expected, ops, s.sensors[id], Reading(Blank(s.heap[s.sensors[id]].info), {}));
      Some(s.(requests := s.requests[request := q], used := s.used + {expected}))
  }

  /** Reading through the live record, at any time and without a lock. */
  function DoRead(s: Sys, request: nat, column: Column): Option<Sys> {
    if request !in s.requests || !s.requests[request].stage.Reading? || s.requests[request].ref !in s.heap then None
    else
      var q := s.requests[request];
      var stage := Reading(SetColumn(q.stage.view, s.heap[q.ref].info, column), q.stage.seen + {column});
      Some(s.(requests := Advance(s, request, stage)))
  }

  function DoCompute(s: Sys, request: nat): Option<Sys> {
    if request !in s.requests || !s.requests[request].stage.Reading? || !(COLUMNS <= s.requests[request].stage.seen)
    then None
    else
      var q := s.requests[request];
      var stage :=
        match PatchInfo(q.stage.view, q.ops)
        case Ok(updated) => Ready(updated)
        case Err(reason) => Finished(Err(Rejected(reason)));
      Some(s.(requests := Advance(s, request, stage)))
  }

  /** Patch takes the lock, looks the sensor up again and compares versions. */
  function DoAcquire(s: Sys, request: nat): Option<Sys> {
    if s.lock.Some? || request !in s.requests || !s.requests[request].stage.Ready? then None
    else
      var q := s.requests[request];
      if q.id !in s.sensors then Some(s.(requests := Advance(s, request, Finished(Err(Storage(NotFound))))))
      else if s.sensors[q.id] !in s.heap then None
      else
        var info := s.heap[s.sensors[q.id]].info;
        if info.resourceVersion != q.expected then
          Some(s.(requests := Advance(s, request, Finished(Err(Storage(VersionMismatch))))))
        else
          Some(s.(lock := Some(request),
                  requests := Advance(s, request, Writing(q.stage.updated, Touched(q.ops), info))))
  }

  predicate HoldsLock(s: Sys, request: nat) {
    s.lock == Some(request) && InStage(s, request) && s.requests[request].stage.Writing?
  }

  /** The touched columns are written in any order. */
  function DoWrite(s: Sys, request: nat, column: Column): Option<Sys> {
    if !HoldsLock(s, request) || column !in s.requests[request].stage.todo then None
    else
      var q := s.requests[request];
      var ref := s.sensors[q.id];
      var info := SetColumn(s.heap[ref].info, Model.CopyLabels(q.stage.updated), column);
      Some(s.(heap := SetInfo(s.heap, ref, info),
              requests := Advance(s, request, q.stage.(todo := q.stage.todo - {column}))))
  }

  /** The version is renewed last, then the lock is released. */
  function DoRelease(s: Sys, request: nat, now: int, version: string): Option<Sys> {
    if !HoldsLock(s, request) || s.requests[request].stage.todo != {} || version in s.used then None
    else
      var q := s.requests[request];
      var ref := s.sensors[q.id];
      var info := s.heap[ref].info.(lastSpecUpdatedAt := now, resourceVersion := version);
      Some(s.(heap := SetInfo(s.heap, ref, info),
              lock := None,
              requests := Advance(s, request, Finished(Ok(()))),
              used := s.used + {version},
              served := s.served + [Patched(request, q.id, q.expected, q.ops, now, version)]))
  }

  function Do(s: Sys, a: Action): Option<Sys> {
    match a
    case Register(ref, sensor) => DoRegister(s, ref, sensor)
    case Delete(id) => DoDelete(s, id)
    case Report(id, data, now) => DoReport(s, id, data, now)
    case Begin(request, id, expected, ops) => DoBegin(s, request, id, expected, ops)
    case ReadColumn(request, column) => DoRead(s, request, column)
    case Compute(request) => DoCompute(s, request)
    case Acquire(request) => DoAcquire(s, request)
    case WriteColumn(request, column) => DoWrite(s, request, column)
    case Release(request, now, version) => DoRelease(s, request, now, version)
  }

  /** A run: actions that all could happen. */
  function Run(s: Sys, actions: seq<Action>): Option<Sys>
    decreases |actions|
  {
    if actions == [] then Some(s) else
      var next :- Do(s, actions[0]);
      Run(next, actions[1..])
  }

  // ---- serving requests one after another ----------------------------------------------------

  function Success<T, E>(r: Result<T, E>): Option<T> {
    match r
    case Ok(v) => Some(v)
    case Err(_) => None
  }

  /** One successful request served alone; None when it would fail. */
  function ServeAlone(st: Model.Store, call: Served): Option<Model.Store> {
    match call
    case Registered(sensor) => Success(Model.Register(st, sensor))
    case Deleted(id) => Success(Model.Delete(st, id))
    case Reported(id, data, now) => Success(Model.SendData(st, id, data, now))
    case Patched(_, id, expected, ops, now, version) => Success(PatchSensorModel(st, id, expected, ops, now, version))
  }

  function ServeAll(st: Model.Store, calls: seq<Served>): Option<Model.Store>
    decreases |calls|
  {
    if calls == [] then Some(st) else
      var next :- ServeAlone(st, calls[0]);
      ServeAll(next, calls[1..])
  }

  lemma {:induction false} ServeOneMore(st: Model.Store, calls: seq<Served>, call: Served)
    ensures ServeAll(st, calls + [call]) ==
            (var mid := ServeAll(st, calls); if mid.Some? then ServeAlone(mid.value, call) else None)
    decreases |calls|
  {
    if calls == [] {
      assert calls + [call] == [call] && [call][1..] == [];
    } else {
      assert (calls + [call])[0] == calls[0] && (calls + [call])[1..] == calls[1..] + [call];
      var next := ServeAlone(st, calls[0]);
      if next.Some? {
        ServeOneMore(next.value, calls[1..], call);
      }
    }
  }

  // ---- the invariant -------------------------------------------------------------------------

  /** Live ids lead to their records, records have labels, and no two records carry the same version. */
  ghost predicate HeapInv(s: Sys) {
    && LiveInv(s)
    && (forall r | r in s.heap :: s.heap[r].info.labels.Some? && s.heap[r].info.resourceVersion in s.used)
    && VersionsDiffer(s)
  }

  ghost predicate LiveInv(s: Sys) {
    forall id | id in s.sensors :: s.sensors[id] in s.heap && s.heap[s.sensors[id]].info.id == id
  }

  ghost predicate VersionsDiffer(s: Sys) {
    forall a, b | a in s.heap && b in s.heap && a != b ::
      s.heap[a].info.resourceVersion != s.heap[b].info.resourceVersion
  }

  /** The record that is being written, if any. */
  function Written(s: Sys): Option<Ref> {
    if s.lock.Some? && InStage(s, s.lock.value) then Some(s.sensors[s.requests[s.lock.value].id]) else None
  }

  /** The holder of the lock is half-way through writing what it computed from the info it found. */
  ghost predicate WriterInv(s: Sys, request: nat) {
    && InStage(s, request)
    && var q := s.requests[request];
       && q.stage.Writing?
       && q.ops != [] && q.id != ""
       && q.stage.todo <= Touched(q.ops)
       && q.stage.base.resourceVersion == q.expected
       && q.stage.base.labels.Some?
       && PatchInfo(q.stage.base, q.ops) == Ok(q.stage.updated)
       && s.heap[s.sensors[q.id]].info ==
          Overlay(q.stage.base, Model.CopyLabels(q.stage.updated), Touched(q.ops) - q.stage.todo)
  }

  ghost predicate LockInv(s: Sys) {
    && (s.lock.Some? ==> WriterInv(s, s.lock.value))
    && forall request | request in s.requests && s.requests[request].stage.Writing? :: s.lock == Some(request)
  }

  /** The version a request named is that of its record, which nobody is writing. */
  predicate Settled(s: Sys, q: PatchRequest)
    requires q.ref in s.heap
  {
    s.heap[q.ref].info.resourceVersion == q.expected && Written(s) != Some(q.ref)
  }

  /** If the live record of the id carries the named version, it is the one the request reads from. */
  predicate NamesOwnRecord(s: Sys, q: PatchRequest) {
    q.id in s.sensors && s.sensors[q.id] in s.heap && s.heap[s.sensors[q.id]].info.resourceVersion == q.expected
    ==> s.sensors[q.id] == q.ref
  }

  predicate SameColumns(a: SensorInfo, b: SensorInfo, columns: set<Column>) {
    forall c | c in columns :: SameColumn(a, b, c)
  }

  /** As long as the named version is current, what was read so far is what the record holds. */
  ghost predicate RequestInv(s: Sys, q: PatchRequest) {
    && q.expected in s.used
    && q.ops != [] && q.id != ""
    && (q.stage.Reading? || q.stage.Ready? ==> q.ref in s.heap && NamesOwnRecord(s, q))
    && (q.stage.Reading? ==>
          && q.stage.view.id == s.heap[q.ref].info.id
          && q.stage.view.registeredAt == s.heap[q.ref].info.registeredAt
          && (Settled(s, q) ==> SameColumns(q.stage.view, s.heap[q.ref].info, q.stage.seen)))
    && (q.stage.Ready? ==>
          Settled(s, q) ==> PatchInfo(s.heap[q.ref].info, q.ops) == Ok(q.stage.updated))
  }

  /** The store that others may rely on: a record being written counts as it was before. */
  function Settle(s: Sys, ref: Ref): SensorState
    requires ref in s.heap
  {
    if Written(s) == Some(ref) && s.requests[s.lock.value].stage.Writing?
    then s.heap[ref].(info := s.requests[s.lock.value].stage.base)
    else s.heap[ref]
  }

  function Contents(s: Sys): Model.Store {
    map id | id in s.sensors && s.sensors[id] in s.heap :: Settle(s, s.sensors[id])
  }

  /** The history explains the contents, and no version in it was used up twice. */
  ghost predicate HistoryInv(s: Sys) {
    && ServeAll(map[], s.served) == Some(Contents(s))
    && (forall call | call in s.served && call.Patched? ::
          call.expected in s.used && forall r | r in s.heap :: s.heap[r].info.resourceVersion != call.expected)
    && (forall i, j | 0 <= i < j < |s.served| && s.served[i].Patched? && s.served[j].Patched? ::
          s.served[i].expected != s.served[j].expected)
  }

  ghost predicate Inv(s: Sys) {
    && HeapInv(s)
    && LockInv(s)
    && RequestsInv(s)
    && HistoryInv(s)
  }

  // ---- what a step may do to the requests of others --------------------------------------------

  /**
   A step that respects the others: a record keeps id and registration time; its info stays, or it is
   being written afterwards, or it carries a version nobody has named yet; the same for live ids.
   */
  ghost predicate Respects(s: Sys, t: Sys) {
    && s.used <= t.used
    && (forall r | r in s.heap ::
          && r in t.heap
          && t.heap[r].info.id == s.heap[r].info.id
          && t.heap[r].info.registeredAt == s.heap[r].info.registeredAt
          && (t.heap[r].info.resourceVersion == s.heap[r].info.resourceVersion
              || t.heap[r].info.resourceVersion !in s.used)
          && (|| (t.heap[r].info == s.heap[r].info && (Written(s) == Some(r) ==> Written(t) == Some(r)))
              || Written(t) == Some(r)
              || t.heap[r].info.resourceVersion !in s.used))
    && (forall id | id in t.sensors && t.sensors[id] in t.heap ::
          (id in s.sensors && t.sensors[id] == s.sensors[id]) || t.heap[t.sensors[id]].info.resourceVersion !in s.used)
  }

  lemma RequestStays(s: Sys, t: Sys, q: PatchRequest)
    requires HeapInv(s) && Respects(s, t) && RequestInv(s, q)
    ensures RequestInv(t, q)
  {
  }

  ghost predicate RequestsInv(s: Sys) {
    forall request | request in s.requests :: RequestInv(s, s.requests[request])
  }

  lemma OthersStay(s: Sys, t: Sys, request: nat)
    requires HeapInv(s) && RequestsInv(s) && Respects(s, t)
    requires forall other | other in t.requests && other != request ::
             other in s.requests && t.requests[other] == s.requests[other]
    requires request in t.requests ==> RequestInv(t, t.requests[request])
    ensures RequestsInv(t)
  {
    forall other | other in t.requests
      ensures RequestInv(t, t.requests[other])
    {
      if other != request {
        RequestStays(s, t, s.requests[other]);
      }
    }
  }

  lemma AllStay(s: Sys, t: Sys)
    requires HeapInv(s) && RequestsInv(s) && Respects(s, t) && t.requests == s.requests
    ensures RequestsInv(t)
  {
    forall other | other in t.requests
      ensures RequestInv(t, t.requests[other])
    {
      RequestStays(s, t, s.requests[other]);
    }
  }

  /** Serving one more request extends the history. */
  lemma HistoryGrows(s: Sys, t: Sys, call: Served)
    requires HistoryInv(s) && s.used <= t.used
    requires t.served == s.served + [call]
    requires ServeAlone(Contents(s), call) == Some(Contents(t))
    requires forall r | r in t.heap ::
               (r in s.heap && t.heap[r].info.resourceVersion == s.heap[r].info.resourceVersion)
               || t.heap[r].info.resourceVersion !in s.used
    requires call.Patched? ==>
               && call.expected in s.used
               && (exists r | r in s.heap :: s.heap[r].info.resourceVersion == call.expected)
               && forall r | r in t.heap :: t.heap[r].info.resourceVersion != call.expected
    ensures HistoryInv(t)
  {
    ServeOneMore(map[], s.served, call);
    forall c | c in t.served && c.Patched?
      ensures c.expected in t.used && forall r | r in t.heap :: t.heap[r].info.resourceVersion != c.expected
    {
      assert c in s.served || c == call;
    }
    forall i, j | 0 <= i < j < |t.served| && t.served[i].Patched? && t.served[j].Patched?
      ensures t.served[i].expected != t.served[j].expected
    {
      assert t.served[i] == s.served[i] && s.served[i] in s.served;
    }
  }

  // ---- every step keeps the invariant ------------------------------------------------------------

  /** What registering does to the records, apart from how a new one looks. */
  predicate AddsRecord(s: Sys, t: Sys, ref: Ref, state: SensorState) {
    && s.lock.None? && ref !in s.heap
    && state.info.id !in s.sensors && state.info.resourceVersion !in s.used && state.info.labels.Some?
    && t.heap == s.heap[ref := state] && t.sensors == s.sensors[state.info.id := ref]
    && t.used == s.used + {state.info.resourceVersion}
    && t.lock == s.lock && t.requests == s.requests
  }

  lemma RegisterAddsRecord(s: Sys, t: Sys, ref: Ref, sensor: SensorInfo)
    requires DoRegister(s, ref, sensor) == Some(t)
    ensures AddsRecord(s, t, ref, Model.NewState(sensor)) && Model.NewState(sensor).info.id == sensor.id
    ensures !NameInUse(s, sensor) && t.served == s.served + [Registered(sensor)]
  {
    hide NameInUse;
  }

  lemma NewRecordRespects(s: Sys, t: Sys, ref: Ref, state: SensorState)
    requires LiveInv(s) && AddsRecord(s, t, ref, state)
    ensures Respects(s, t)
  {
    hide InStage;
    forall r | r in s.heap
      ensures r in t.heap && t.heap[r] == s.heap[r]
    {
    }
    assert Written(s) == None && Written(t) == None;
  }

  lemma NewRecordKeepsVersions(s: Sys, t: Sys, ref: Ref, state: SensorState)
    requires HeapInv(s) && AddsRecord(s, t, ref, state)
    ensures VersionsDiffer(t)
  {
    hide LiveInv;
    forall a, b | a in t.heap && b in t.heap && a != b
      ensures t.heap[a].info.resourceVersion != t.heap[b].info.resourceVersion
    {
      assert a in s.heap || b in s.heap;
    }
  }

  lemma NewRecordKeepsHeap(s: Sys, t: Sys, ref: Ref, state: SensorState)
    requires HeapInv(s) && LockInv(s) && AddsRecord(s, t, ref, state)
    ensures HeapInv(t) && LockInv(t)
  {
    hide WriterInv, InStage, VersionsDiffer;
    NewRecordKeepsVersions(s, t, ref, state);
  }

  lemma NewRecordShows(s: Sys, t: Sys, ref: Ref, state: SensorState)
    requires HeapInv(s) && AddsRecord(s, t, ref, state)
    ensures Contents(t) == Contents(s)[state.info.id := state]
  {
    hide InStage;
  }

  lemma NameIsFree(s: Sys, sensor: SensorInfo)
    requires s.lock.None? && !NameInUse(s, sensor)
    ensures !Model.NameTaken(Contents(s), sensor)
  {
    forall id | id in Contents(s)
      ensures !Model.SameName(Contents(s)[id].info, sensor)
    {
      assert Contents(s)[id] == s.heap[s.sensors[id]];
    }
  }

  lemma RegisterServes(s: Sys, t: Sys, ref: Ref, sensor: SensorInfo)
    requires HeapInv(s) && DoRegister(s, ref, sensor) == Some(t)
    ensures ServeAlone(Contents(s), Registered(sensor)) == Some(Contents(t))
  {
    hide DoRegister, Contents, Model.NewState, Model.NameTaken, NameInUse;
    RegisterAddsRecord(s, t, ref, sensor);
    NameIsFree(s, sensor);
    NewRecordShows(s, t, ref, Model.NewState(sensor));
    SameIds(s);
  }

  lemma SameIds(s: Sys)
    requires HeapInv(s)
    ensures Contents(s).Keys == s.sensors.Keys
  {
  }

  lemma RegisterKeepsInv(s: Sys, t: Sys, ref: Ref, sensor: SensorInfo)
    requires Inv(s) && DoRegister(s, ref, sensor) == Some(t)
    ensures Inv(t)
  {
    hide PatchInfo, RequestInv, WriterInv, ServeAlone, DoRegister, Respects, LockInv, HistoryInv, Model.NewState,
         NameInUse;
    RegisterAddsRecord(s, t, ref, sensor);
    NewRecordRespects(s, t, ref, Model.NewState(sensor));
    NewRecordKeepsHeap(s, t, ref, Model.NewState(sensor));
    RegisterServes(s, t, ref, sensor);
    AllStay(s, t);
    HistoryGrows(s, t, Registered(sensor));
  }

  lemma DeleteRespects(s: Sys, t: Sys, id: string)
    requires HeapInv(s) && LockInv(s) && DoDelete(s, id) == Some(t)
    ensures HeapInv(t) && LockInv(t) && Respects(s, t)
  {
    hide PatchInfo, WriterInv, SameColumn, Touched;
  }

  lemma DeleteServes(s: Sys, t: Sys, id: string)
    requires HeapInv(s) && DoDelete(s, id) == Some(t)
    ensures ServeAlone(Contents(s), Deleted(id)) == Some(Contents(t))
  {
    hide PatchSensorModel, Model.Register, Model.SendData;
    assert Contents(t) == Contents(s) - {id};
  }

  lemma DeleteKeepsInv(s: Sys, t: Sys, id: string)
    requires Inv(s) && DoDelete(s, id) == Some(t)
    ensures Inv(t)
  {
    hide PatchInfo, RequestInv, WriterInv, ServeAlone;
    DeleteRespects(s, t, id);
    DeleteServes(s, t, id);
    AllStay(s, t);
    HistoryGrows(s, t, Deleted(id));
  }

  lemma ReportRespects(s: Sys, t: Sys, id: string, data: map<string, string>, now: int)
    requires HeapInv(s) && DoReport(s, id, data, now) == Some(t)
    ensures Respects(s, t)
  {
    hide PatchInfo, WriterInv, Touched, SameColumn, Settle;
    forall r | r in s.heap
      ensures r in t.heap && t.heap[r].info == s.heap[r].info
    {
    }
  }

  lemma ReportKeepsHeap(s: Sys, t: Sys, id: string, data: map<string, string>, now: int)
    requires HeapInv(s) && LockInv(s) && DoReport(s, id, data, now) == Some(t)
    ensures HeapInv(t) && LockInv(t)
  {
    hide PatchInfo, WriterInv, Touched, SameColumn, Settle;
  }

  lemma ReportServes(s: Sys, t: Sys, id: string, data: map<string, string>, now: int)
    requires HeapInv(s) && DoReport(s, id, data, now) == Some(t)
    ensures ServeAlone(Contents(s), Reported(id, data, now)) == Some(Contents(t))
  {
    hide PatchInfo;
    assert Contents(t) == Contents(s)[id := t.heap[t.sensors[id]]];
  }

  lemma ReportKeepsInv(s: Sys, t: Sys, id: string, data: map<string, string>, now: int)
    requires Inv(s) && DoReport(s, id, data, now) == Some(t)
    ensures Inv(t)
  {
    hide PatchInfo, RequestInv, WriterInv, ServeAlone;
    ReportRespects(s, t, id, data, now);
    ReportKeepsHeap(s, t, id, data, now);
    ReportServes(s, t, id, data, now);
    AllStay(s, t);
    HistoryGrows(s, t, Reported(id, data, now));
  }

  lemma BeginRespects(s: Sys, t: Sys, request: nat, id: string, expected: string, ops: seq<PatchOperation>)
    requires HeapInv(s) && LockInv(s) && DoBegin(s, request, id, expected, ops) == Some(t)
    ensures HeapInv(t) && LockInv(t) && Respects(s, t)
  {
    hide PatchInfo, WriterInv, Touched, SameColumn, Settle;
  }

  lemma BeginKeepsInv(s: Sys, t: Sys, request: nat, id: string, expected: string, ops: seq<PatchOperation>)
    requires Inv(s) && DoBegin(s, request, id, expected, ops) == Some(t)
    ensures Inv(t)
  {
    hide PatchInfo, ServeAll, LockInv, Respects, SetColumn, Touched, WriterInv;
    BeginRespects(s, t, request, id, expected, ops);
    BeginKeepsContents(s, t, request, id, expected, ops);
    hide Contents;
    assert RequestInv(t, t.requests[request]);
    OthersStay(s, t, request);
  }

  lemma BeginKeepsContents(s: Sys, t: Sys, request: nat, id: string, expected: string, ops: seq<PatchOperation>)
    requires LockInv(s) && DoBegin(s, request, id, expected, ops) == Some(t)
    ensures Contents(t) == Contents(s)
  {
    hide PatchInfo, WriterInv, Touched;
  }

  /** A step that only moves a request which neither was nor becomes a writer leaves lock and contents alone. */
  lemma OnlyRequestMoves(s: Sys, t: Sys, request: nat, stage: Stage)
    requires HeapInv(s) && LockInv(s) && HistoryInv(s)
    requires request in s.requests && !s.requests[request].stage.Writing? && !stage.Writing?
    requires t == s.(requests := Advance(s, request, stage))
    ensures HeapInv(t) && LockInv(t) && HistoryInv(t) && Respects(s, t) && Written(t) == Written(s)
  {
    hide PatchInfo, ServeAll, Touched, Contents, VersionsDiffer;
    LockStays(s, t, request, stage);
    SameRecords(s, t);
    HistoryStays(s, t);
  }

  lemma LockStays(s: Sys, t: Sys, request: nat, stage: Stage)
    requires LockInv(s)
    requires request in s.requests && !s.requests[request].stage.Writing? && !stage.Writing?
    requires t == s.(requests := Advance(s, request, stage))
    ensures LockInv(t) && Written(t) == Written(s) && Contents(t) == Contents(s)
  {
    hide PatchInfo, Touched;
    assert s.lock != Some(request);
    assert Written(t) == Written(s);
    assert Contents(t) == Contents(s);
  }

  lemma SameRecords(s: Sys, t: Sys)
    requires HeapInv(s) && t.heap == s.heap && t.sensors == s.sensors && t.used == s.used && Written(t) == Written(s)
    ensures HeapInv(t) && Respects(s, t)
  {
    hide Written;
  }

  lemma HistoryStays(s: Sys, t: Sys)
    requires HistoryInv(s) && t.heap == s.heap && t.used == s.used && t.served == s.served && Contents(t) == Contents(s)
    ensures HistoryInv(t)
  {
    hide Contents, ServeAll;
  }

  lemma ReadKeepsInv(s: Sys, t: Sys, request: nat, column: Column)
    requires Inv(s) && DoRead(s, request, column) == Some(t)
    ensures Inv(t)
  {
    hide PatchInfo, ServeAlone, SetColumn;
    var q := s.requests[request];
    OnlyRequestMoves(s, t, request, t.requests[request].stage);
    assert RequestInv(s, q);
    ReadIsSame(q.stage.view, s.heap[q.ref].info, column, q.stage.seen);
    OthersStay(s, t, request);
  }

  /** Reading one more column from an info agrees with it on that column, and still on the others. */
  lemma ReadIsSame(view: SensorInfo, info: SensorInfo, column: Column, seen: set<Column>)
    ensures SameColumns(view, info, seen) ==> SameColumns(SetColumn(view, info, column), info, seen + {column})
    ensures SetColumn(view, info, column).id == view.id
            && SetColumn(view, info, column).registeredAt == view.registeredAt
  {
    if SameColumns(view, info, seen) {
      var next := SetColumn(view, info, column);
      forall c | c in seen + {column}
        ensures SameColumn(next, info, c)
      {
        SetTwice(view, info, column, c);
      }
    }
  }

  lemma SetTwice(view: SensorInfo, info: SensorInfo, a: Column, b: Column)
    requires a == b || SameColumn(view, info, b)
    ensures SameColumn(SetColumn(view, info, a), info, b)
  {
    match b {
      case ColName =>
      case ColNamespace =>
      case ColDescription =>
      case ColGraceful =>
      case ColFailure =>
      case ColLabels =>
      case ColRules =>
      case ColOther(_) =>
    }
  }

  lemma ComputeKeepsInv(s: Sys, t: Sys, request: nat)
    requires Inv(s) && DoCompute(s, request) == Some(t)
    ensures Inv(t)
  {
    hide PatchInfo, ServeAlone;
    var q := s.requests[request];
    OnlyRequestMoves(s, t, request, t.requests[request].stage);
    assert RequestInv(s, q);
    if Settled(s, q) {
      SameColumnsPatchAlike(q.stage.view, s.heap[q.ref].info, q.stage.seen, q.ops);
    }
    OthersStay(s, t, request);
  }

  /** An info read completely is patched like the one it was read from. */
  lemma SameColumnsPatchAlike(view: SensorInfo, info: SensorInfo, seen: set<Column>, ops: seq<PatchOperation>)
    requires COLUMNS <= seen && SameColumns(view, info, seen)
    requires view.id == info.id && view.registeredAt == info.registeredAt
    ensures PatchInfo(view, ops) == PatchInfo(info, ops)
  {
    hide PatchInfo;
    SameColumnFields(view, info, seen);
    assert Unversioned(view) == Unversioned(info);
    PatchReadsUnversioned(view, info, ops);
  }

  /** The version check is enough: a request that passes it has computed its update from exactly the info it found. */
  lemma AcquireFindsWhatWasRead(s: Sys, t: Sys, request: nat)
    requires Inv(s) && DoAcquire(s, request) == Some(t) && t.lock.Some?
    ensures var q := s.requests[request];
            q.stage.Ready? && q.id in s.sensors && s.sensors[q.id] == q.ref && q.ref in s.heap
            && s.heap[q.ref].info.resourceVersion == q.expected
            && PatchInfo(s.heap[q.ref].info, q.ops) == Ok(q.stage.updated)
  {
    hide PatchInfo;
    assert RequestInv(s, s.requests[request]);
  }

  /** What taking the lock changes. */
  predicate TakesLock(s: Sys, t: Sys, request: nat) {
    && request in s.requests && s.requests[request].stage.Ready?
    && s.requests[request].ref in s.heap
    && var q := s.requests[request];
       t == s.(lock := Some(request),
               requests := Advance(s, request, Writing(q.stage.updated, Touched(q.ops), s.heap[q.ref].info)))
  }

  lemma LockTaken(s: Sys, t: Sys, request: nat)
    requires Inv(s) && DoAcquire(s, request) == Some(t) && t.lock.Some?
    ensures HeapInv(t) && LockInv(t) && Respects(s, t) && HistoryInv(t) && RequestInv(t, t.requests[request])
  {
    var q := s.requests[request];
    AcquireFindsWhatWasRead(s, t, request);
    assert RequestInv(s, q);
    hide PatchInfo, ServeAlone, Touched, RequestInv, HistoryInv, Respects;
    assert TakesLock(s, t, request);
    WriterStarts(s, t, request);
    LockTakenRespects(s, t, request);
    LockTakenKeepsHistory(s, t, request);
    RequestIsWriting(s, t, request);
  }

  lemma WriterStarts(s: Sys, t: Sys, request: nat)
    requires HeapInv(s) && TakesLock(s, t, request)
    requires var q := s.requests[request];
             && q.ops != [] && q.id in s.sensors && s.sensors[q.id] == q.ref
             && s.heap[q.ref].info.resourceVersion == q.expected
             && PatchInfo(s.heap[q.ref].info, q.ops) == Ok(q.stage.updated)
    requires s.requests[request].id != ""
    ensures WriterInv(t, request)
  {
    hide PatchInfo, Touched;
    var q := s.requests[request];
    var info := s.heap[q.ref].info;
    assert Touched(q.ops) - Touched(q.ops) == {};
    assert Overlay(info, Model.CopyLabels(q.stage.updated), {}) == info;
  }

  lemma LockTakenRespects(s: Sys, t: Sys, request: nat)
    requires HeapInv(s) && s.lock.None? && TakesLock(s, t, request)
    ensures HeapInv(t) && Respects(s, t)
  {
    hide PatchInfo, Touched;
    assert Written(s) == None;
  }

  lemma LockTakenKeepsHistory(s: Sys, t: Sys, request: nat)
    requires HistoryInv(s) && s.lock.None? && TakesLock(s, t, request)
    requires s.requests[request].id in s.sensors && s.sensors[s.requests[request].id] == s.requests[request].ref
    ensures HistoryInv(t)
  {
    hide PatchInfo, Touched, ServeAll;
    var q := s.requests[request];
    assert Settle(t, q.ref) == s.heap[q.ref];
    assert Contents(t) == Contents(s);
  }

  lemma RequestIsWriting(s: Sys, t: Sys, request: nat)
    requires TakesLock(s, t, request) && RequestInv(s, s.requests[request])
    ensures RequestInv(t, t.requests[request])
  {
    hide PatchInfo, Touched;
  }

  lemma AcquireKeepsInv(s: Sys, t: Sys, request: nat)
    requires Inv(s) && DoAcquire(s, request) == Some(t)
    ensures Inv(t)
  {
    hide PatchInfo, ServeAlone, HistoryInv, HeapInv, LockInv, Respects, Touched;
    assert RequestInv(s, s.requests[request]);
    if t.lock.None? {
      OnlyRequestMoves(s, t, request, t.requests[request].stage);
    } else {
      LockTaken(s, t, request);
    }
    OthersStay(s, t, request);
  }

  predicate OverlayKeeps(base: SensorInfo, updates: SensorInfo, columns: set<Column>) {
    var o := Overlay(base, updates, columns);
    o.id == base.id && o.registeredAt == base.registeredAt && o.resourceVersion == base.resourceVersion
    && (base.labels.Some? && updates.labels.Some? ==> o.labels.Some?)
  }

  lemma OverlayThenColumn(base: SensorInfo, updates: SensorInfo, columns: set<Column>, column: Column)
    ensures SetColumn(Overlay(base, updates, columns), updates, column) == Overlay(base, updates, columns + {column})
    ensures OverlayKeeps(base, updates, columns) && OverlayKeeps(base, updates, columns + {column})
  {
    match column {
      case ColName =>
      case ColNamespace =>
      case ColDescription =>
      case ColGraceful =>
      case ColFailure =>
      case ColLabels =>
      case ColRules =>
      case ColOther(_) =>
    }
  }

  /** One more column written: the record keeps its identity and version, the writer its plan. */
  lemma WriterGoesOn(s: Sys, t: Sys, request: nat, column: Column)
    requires WriterInv(s, request) && DoWrite(s, request, column) == Some(t)
    ensures WriterInv(t, request)
    ensures var ref := s.sensors[s.requests[request].id];
            var before, after := s.heap[ref].info, t.heap[ref].info;
            t == s.(heap := SetInfo(s.heap, ref, after), requests := t.requests)
            && after.id == before.id && after.registeredAt == before.registeredAt
            && after.resourceVersion == before.resourceVersion && after.labels.Some?
  {
    hide PatchInfo, SetColumn, Overlay;
    var q := s.requests[request];
    var copied, written := Model.CopyLabels(q.stage.updated), Touched(q.ops) - q.stage.todo;
    OverlayThenColumn(q.stage.base, copied, written, column);
    assert Touched(q.ops) - (q.stage.todo - {column}) == written + {column};
  }

  /** The info of one record changes, but not its identity, version or having labels. */
  predicate InfoMoves(s: Sys, t: Sys, ref: Ref) {
    && ref in s.heap && ref in t.heap
    && var before, after := s.heap[ref].info, t.heap[ref].info;
       && t == s.(heap := SetInfo(s.heap, ref, after), requests := t.requests)
       && after.id == before.id && after.registeredAt == before.registeredAt
       && after.resourceVersion == before.resourceVersion && after.labels.Some?
  }

  lemma InfoMovesKeepsHeap(s: Sys, t: Sys, ref: Ref)
    requires HeapInv(s) && InfoMoves(s, t, ref)
    ensures HeapInv(t)
    ensures forall r | r in t.heap :: r in s.heap && t.heap[r].info.resourceVersion == s.heap[r].info.resourceVersion
  {
  }

  lemma InfoMovesRespects(s: Sys, t: Sys, ref: Ref)
    requires HeapInv(s) && InfoMoves(s, t, ref) && Written(s) == Written(t) == Some(ref)
    ensures Respects(s, t)
  {
    hide HeapInv, Written;
  }

  lemma InfoMovesIsHidden(s: Sys, t: Sys, request: nat, ref: Ref)
    requires InfoMoves(s, t, ref) && s.lock == Some(request) && Written(s) == Written(t) == Some(ref)
    requires request in s.requests && request in t.requests
    requires s.requests[request].stage.Writing? && t.requests[request].stage.Writing?
    requires t.requests[request].stage.base == s.requests[request].stage.base
    ensures Contents(t) == Contents(s)
  {
    hide Written;
  }

  lemma WriteKeepsLock(s: Sys, t: Sys, request: nat, column: Column)
    requires LockInv(s) && DoWrite(s, request, column) == Some(t)
    ensures LockInv(t) && InfoMoves(s, t, s.sensors[s.requests[request].id])
    ensures Written(s) == Written(t) == Some(s.sensors[s.requests[request].id])
  {
    hide PatchInfo, SetColumn, Overlay, Touched, WriterInv;
    WriterGoesOn(s, t, request, column);
  }

  lemma WriteKeepsInv(s: Sys, t: Sys, request: nat, column: Column)
    requires Inv(s) && DoWrite(s, request, column) == Some(t)
    ensures Inv(t)
  {
    hide PatchInfo, ServeAll, WriterInv, Contents, HeapInv, LockInv, Respects, SetColumn, Touched, Written, InfoMoves;
    var ref := s.sensors[s.requests[request].id];
    WriteKeepsLock(s, t, request, column);
    InfoMovesKeepsHeap(s, t, ref);
    InfoMovesRespects(s, t, ref);
    InfoMovesIsHidden(s, t, request, ref);
    assert RequestInv(s, s.requests[request]);
    OthersStay(s, t, request);
  }

  /** A finished writer has written the whole patched document over what it found. */
  lemma WriterHasWritten(s: Sys, request: nat)
    requires WriterInv(s, request) && s.requests[request].stage.todo == {}
    ensures var q := s.requests[request];
            s.heap[s.sensors[q.id]].info == Overlay(q.stage.base, Model.CopyLabels(q.stage.updated), COLUMNS)
  {
    hide PatchInfo, Touched, Overlay;
    var q := s.requests[request];
    TouchedIsEverything(q.stage.base, q.ops);
    assert Touched(q.ops) - q.stage.todo == Touched(q.ops);
  }

  /** Releasing the lock takes the contents from before the patch to those after it, in one move. */
  lemma ReleaseCommits(s: Sys, t: Sys, request: nat, now: int, version: string)
    requires HeapInv(s) && LockInv(s) && DoRelease(s, request, now, version) == Some(t)
    ensures var q := s.requests[request];
            PatchSensorModel(Contents(s), q.id, q.expected, q.ops, now, version) == Ok(Contents(t))
  {
    hide PatchInfo, Overlay, Touched, SetColumns, Model.CopyLabels;
    var q := s.requests[request];
    assert WriterInv(s, request);
    WriterHasWritten(s, request);
    var ref := s.sensors[q.id];
    var base := q.stage.base;
    assert t.heap[ref].info == Committed(base, q.stage.updated, now, version);
    assert Contents(s)[q.id] == s.heap[ref].(info := base);
    assert Contents(t) == Contents(s)[q.id := t.heap[ref]];
  }

  /** The record being written still has its identity, its labels and the version that the writer named. */
  lemma WriterVersion(s: Sys, request: nat)
    requires WriterInv(s, request)
    ensures var q := s.requests[request];
            var info := s.heap[s.sensors[q.id]].info;
            info.resourceVersion == q.expected && info.id == q.stage.base.id && info.labels.Some?
  {
    hide PatchInfo, Touched;
  }

  /** What releasing does to the records: the one that was written gets a version never seen before. */
  predicate RenewsVersion(s: Sys, t: Sys, ref: Ref, version: string) {
    && ref in s.heap && ref in t.heap && version !in s.used
    && t.heap == SetInfo(s.heap, ref, t.heap[ref].info) && t.sensors == s.sensors && t.used == s.used + {version}
    && t.heap[ref].info.id == s.heap[ref].info.id && t.heap[ref].info.labels.Some?
    && t.heap[ref].info.resourceVersion == version
  }

  lemma RenewedKeepsHeap(s: Sys, t: Sys, ref: Ref, version: string)
    requires HeapInv(s) && RenewsVersion(s, t, ref, version)
    ensures HeapInv(t)
    ensures forall r | r in t.heap :: t.heap[r].info.resourceVersion != s.heap[ref].info.resourceVersion
  {
  }

  lemma ReleaseKeepsHeap(s: Sys, t: Sys, request: nat, now: int, version: string)
    requires HeapInv(s) && LockInv(s) && DoRelease(s, request, now, version) == Some(t)
    ensures HeapInv(t) && LockInv(t)
    ensures forall r | r in t.heap :: t.heap[r].info.resourceVersion != s.requests[request].expected
  {
    hide PatchInfo, Overlay, Touched, WriterInv, HeapInv;
    LockHolderWrites(s, request);
    WriterVersion(s, request);
    RenewedKeepsHeap(s, t, s.sensors[s.requests[request].id], version);
  }

  lemma ReleaseRespects(s: Sys, t: Sys, request: nat, now: int, version: string)
    requires HeapInv(s) && LockInv(s) && DoRelease(s, request, now, version) == Some(t)
    ensures Respects(s, t)
  {
    hide PatchInfo, Overlay, Touched, WriterInv, HeapInv, LockInv;
  }

  lemma LockHolderWrites(s: Sys, request: nat)
    requires LockInv(s) && HoldsLock(s, request)
    ensures WriterInv(s, request)
  {
  }

  lemma ReleaseKeepsHistory(s: Sys, t: Sys, request: nat, now: int, version: string)
    requires HeapInv(s) && LockInv(s) && HistoryInv(s) && DoRelease(s, request, now, version) == Some(t)
    requires s.requests[request].expected in s.used
    ensures HistoryInv(t)
  {
    hide PatchInfo, Overlay, Touched, Contents, PatchSensorModel, HeapInv, LockInv, WriterInv, HistoryInv;
    var q := s.requests[request];
    LockHolderWrites(s, request);
    ReleaseKeepsHeap(s, t, request, now, version);
    ReleaseCommits(s, t, request, now, version);
    WriterVersion(s, request);
    HistoryGrows(s, t, Patched(request, q.id, q.expected, q.ops, now, version));
  }

  lemma ReleaseKeepsInv(s: Sys, t: Sys, request: nat, now: int, version: string)
    requires Inv(s) && DoRelease(s, request, now, version) == Some(t)
    ensures Inv(t)
  {
    hide PatchInfo, HeapInv, LockInv, Respects, WriterInv, HistoryInv;
    assert RequestInv(s, s.requests[request]);
    ReleaseKeepsHeap(s, t, request, now, version);
    ReleaseRespects(s, t, request, now, version);
    ReleaseKeepsHistory(s, t, request, now, version);
    OthersStay(s, t, request);
  }

  lemma StepKeepsInv(s: Sys, t: Sys, a: Action)
    requires Inv(s) && Do(s, a) == Some(t)
    ensures Inv(t)
  {
    hide Inv;
    match a
    case Register(ref, sensor) => RegisterKeepsInv(s, t, ref, sensor);
    case Delete(id) => DeleteKeepsInv(s, t, id);
    case Report(id, data, now) => ReportKeepsInv(s, t, id, data, now);
    case Begin(request, id, expected, ops) => BeginKeepsInv(s, t, request, id, expected, ops);
    case ReadColumn(request, column) => ReadKeepsInv(s, t, request, column);
    case Compute(request) => ComputeKeepsInv(s, t, request);
    case Acquire(request) => AcquireKeepsInv(s, t, request);
    case WriteColumn(request, column) => WriteKeepsInv(s, t, request, column);
    case Release(request, now, version) => ReleaseKeepsInv(s, t, request, now, version);
  }

  lemma {:induction false} RunKeepsInv(s: Sys, actions: seq<Action>)
    requires Inv(s) && Run(s, actions).Some?
    ensures Inv(Run(s, actions).value)
    decreases |actions|
  {
    if actions != [] {
      StepKeepsInv(s, Do(s, actions[0]).value, actions[0]);
      RunKeepsInv(Do(s, actions[0]).value, actions[1..]);
    }
  }

  // ---- results -------------------------------------------------------------------------------------

  /**
   No lost updates: after any interleaving, the contents of the store are those of the successful
   requests served alone, one after another, in the order in which they took effect.
   */
  lemma RunsAreSerializable(actions: seq<Action>)
    requires Run(INITIAL, actions).Some?
    ensures var s := Run(INITIAL, actions).value;
            ServeAll(map[], s.served) == Some(Contents(s))
            && (s.lock.None? ==>
                  Contents(s) == map id | id in s.sensors && s.sensors[id] in s.heap :: s.heap[s.sensors[id]])
  {
    assert Contents(INITIAL) == map[];
    RunKeepsInv(INITIAL, actions);
  }

  /** Of all patches that name the same version at most one ever commits. */
  lemma OneCommitPerVersion(actions: seq<Action>, i: nat, j: nat)
    requires Run(INITIAL, actions).Some?
    requires var served := Run(INITIAL, actions).value.served;
             i < j < |served| && served[i].Patched? && served[j].Patched?
    ensures var served := Run(INITIAL, actions).value.served;
            served[i].expected != served[j].expected
  {
    assert Contents(INITIAL) == map[];
    RunKeepsInv(INITIAL, actions);
  }
}
