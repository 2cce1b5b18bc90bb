/**
 What the operations of the in-memory store (internal/storage/memory_storage.go) do, as functions
 on its contents, and what they keep over whole runs.
 */
module StoreModel {
  import opened Wrappers
  import opened Sensors

  /** The contents of a store: one state per sensor id. */
  type Store = map<string, SensorState>

  predicate SameName(a: SensorInfo, b: SensorInfo) {
    a.namespace == b.namespace && a.name == b.name
  }

  predicate NameTaken(st: Store, info: SensorInfo) {
    exists id | id in st :: SameName(st[id].info, info)
  }

  /** A map copied key by key, as the store copies labels: nil becomes empty. */
  function CopyLabels(info: SensorInfo): SensorInfo {
    info.(labels := Some(LabelMap(info.labels)))
  }

  function NewState(sensor: SensorInfo): SensorState {
    SensorState(CopyLabels(sensor).(lastSpecUpdatedAt := 0), map[], sensor.registeredAt)
  }

  function Register(st: Store, sensor: SensorInfo): Result<Store, StorageError> {
    if sensor.id in st || NameTaken(st, sensor) then Err(AlreadyExists)
    else Ok(st[sensor.id := NewState(sensor)])
  }

  /** The info after a patch that passed the version check. */
  function PatchedInfo(info: SensorInfo, updates: SensorInfo, columns: seq<Column>, now: int, version: string)
    : SensorInfo
  {
    SetColumns(info, CopyLabels(updates), columns).(lastSpecUpdatedAt := now, resourceVersion := version)
  }

  function Patch(st: Store, id: string, expected: string, updates: SensorInfo, columns: seq<Column>, now: int,
                 version: string)
    : Result<Store, StorageError>
  {
    if id !in st then Err(NotFound)
    else if expected != st[id].info.resourceVersion then Err(VersionMismatch)
    else Ok(st[id := st[id].(info := PatchedInfo(st[id].info, updates, columns, now, version))])
  }

  function SendData(st: Store, id: string, data: map<string, string>, now: int): Result<Store, StorageError> {
    if id !in st then Err(NotFound)
    else Ok(st[id := st[id].(reportedData := st[id].reportedData + data, lastReportedAt := now)])
  }

  function Delete(st: Store, id: string): Result<Store, StorageError> {
    if id !in st then Err(NotFound) else Ok(st - {id})
  }

  function GetIdentity(st: Store, id: string): Option<SensorIdentity> {
    if id in st then Some(SensorIdentity(st[id].info.id, st[id].info.name, st[id].info.namespace)) else None
  }

  /** What a search by namespace and name may answer: any sensor of that name, or nothing when there is none. */
  ghost predicate MayFind(st: Store, namespace: string, name: string, found: Option<SensorIdentity>) {
    match found
    case Some(identity) =>
      exists id | id in st :: st[id].info.namespace == namespace && st[id].info.name == name
                              && GetIdentity(st, id) == found
    case None => forall id | id in st :: !(st[id].info.namespace == namespace && st[id].info.name == name)
  }

  // ---- runs ----------------------------------------------------------------------------

  datatype Call =
    | CallRegister(sensor: SensorInfo)
    | CallPatch(id: string, expected: string, updates: SensorInfo, columns: seq<Column>, now: int, version: string)
    | CallSendData(id: string, data: map<string, string>, now: int)
    | CallDelete(id: string)

  function Step(st: Store, call: Call): Result<Store, StorageError> {
    match call
    case CallRegister(sensor) => Register(st, sensor)
    case CallPatch(id, expected, updates, columns, now, version) =>
      Patch(st, id, expected, updates, columns, now, version)
    case CallSendData(id, data, now) => SendData(st, id, data, now)
    case CallDelete(id) => Delete(st, id)
  }

  /** A failed call changes nothing. */
  function After(st: Store, call: Call): Store {
    match Step(st, call)
    case Ok(next) => next
    case Err(_) => st
  }

  function Run(st: Store, calls: seq<Call>): Store
    decreases |calls|
  {
    if calls == [] then st else Run(After(st, calls[0]), calls[1..])
  }

  /** Records sit under their own id and their labels are never nil. */
  ghost predicate RecordInv(st: Store) {
    forall id | id in st :: st[id].info.id == id && st[id].info.labels.Some?
  }

  ghost predicate UniqueNames(st: Store) {
    forall a, b | a in st && b in st && SameName(st[a].info, st[b].info) :: a == b
  }

  ghost predicate StoreInv(st: Store) {
    RecordInv(st) && UniqueNames(st)
  }

  /** A patch that would give its sensor a name that another sensor has. */
  predicate Collides(st: Store, call: Call) {
    && call.CallPatch?
    && call.id in st
    && call.expected == st[call.id].info.resourceVersion
    && var renamed := SetColumns(st[call.id].info, call.updates, call.columns);
       exists other | other in st && other != call.id :: SameName(st[other].info, renamed)
  }

  /** Column writes keep id, version and times; copying the labels first changes nothing but labels. */
  lemma SetColumnsKeeps(info: SensorInfo, updates: SensorInfo, columns: seq<Column>)
    ensures var after := SetColumns(info, updates, columns);
            after.id == info.id && after.resourceVersion == info.resourceVersion
            && after.registeredAt == info.registeredAt && after.lastSpecUpdatedAt == info.lastSpecUpdatedAt
    ensures SameName(SetColumns(info, updates, columns), SetColumns(info, CopyLabels(updates), columns))
    ensures info.labels.Some? ==> SetColumns(info, CopyLabels(updates), columns).labels.Some?
  {
    SetColumnsIsOverlay(info, updates, columns);
    SetColumnsIsOverlay(info, CopyLabels(updates), columns);
  }

  /** Whatever is called, records stay well-formed. */
  lemma StepKeepsRecords(st: Store, call: Call)
    requires RecordInv(st)
    ensures RecordInv(After(st, call))
  {
    if call.CallPatch? && call.id in st {
      SetColumnsKeeps(st[call.id].info, CopyLabels(call.updates), call.columns);
    }
  }

  /** One call keeps the store invariant exactly when it is no renaming onto a taken name. */
  lemma StepKeepsInvIff(st: Store, call: Call)
    requires StoreInv(st)
    ensures StoreInv(After(st, call)) <==> !Collides(st, call)
  {
    StepKeepsRecords(st, call);
    if call.CallPatch? && call.id in st && call.expected == st[call.id].info.resourceVersion {
      SetColumnsKeeps(st[call.id].info, call.updates, call.columns);
      var next := After(st, call);
      var renamed := SetColumns(st[call.id].info, call.updates, call.columns);
      assert SameName(next[call.id].info, renamed);
      if Collides(st, call) {
        var other :| other in st && other != call.id && SameName(st[other].info, renamed);
        assert SameName(next[other].info, next[call.id].info);
      } else {
        forall a, b | a in next && b in next && SameName(next[a].info, next[b].info)
          ensures a == b
        {
          assert forall other | other in st && other != call.id :: next[other] == st[other];
          assert forall other | other in st && other != call.id :: !SameName(st[other].info, renamed);
        }
      }
    }
  }

  ghost predicate NeverCollides(st: Store, calls: seq<Call>)
    decreases |calls|
  {
    calls == [] || (!Collides(st, calls[0]) && NeverCollides(After(st, calls[0]), calls[1..]))
  }

  /** Every run without such a renaming keeps the invariant. */
  lemma {:induction false} RunKeepsInv(st: Store, calls: seq<Call>)
    requires StoreInv(st) && NeverCollides(st, calls)
    ensures StoreInv(Run(st, calls))
    decreases |calls|
  {
    if calls != [] {
      StepKeepsInvIff(st, calls[0]);
      RunKeepsInv(After(st, calls[0]), calls[1..]);
    }
  }

  /** The store does not look for the new name: two sensors can end up with the same one. */
  lemma RenameCanCollide(info: SensorInfo)
    ensures var a := info.(id := "a", name := "x");
            var b := info.(id := "b", name := "y", resourceVersion := "v");
            var calls := [CallRegister(a), CallRegister(b), CallPatch("b", "v", a, [ColName], 0, "w")];
            !StoreInv(Run(map[], calls))
  {
    var a := info.(id := "a", name := "x");
    var b := info.(id := "b", name := "y", resourceVersion := "v");
    var first, second, third := CallRegister(a), CallRegister(b), CallPatch("b", "v", a, [ColName], 0, "w");
    var st1 := After(map[], first);
    assert st1 == map["a" := NewState(a)];
    var st2 := After(st1, second);
    assert st2 == map["a" := NewState(a), "b" := NewState(b)];
    var st3 := After(st2, third);
    assert SetColumns(st2["b"].info, CopyLabels(a), [ColName]) == st2["b"].info.(name := "x");
    assert SameName(st3["a"].info, st3["b"].info);
    var calls := [first, second, third];
    assert calls[1..] == [second, third] && calls[1..][1..] == [third];
    assert Run(map[], calls) == Run(st2, [third]) == Run(st3, []);
  }

  /** With unique names a search by name has one answer, and it is the inverse of looking up an id. */
  lemma FindIsInverseOfGet(st: Store, namespace: string, name: string, found: Option<SensorIdentity>)
    requires StoreInv(st)
    requires MayFind(st, namespace, name, found)
    ensures forall id :: (found.Some? && found.value.id == id) <==>
                         GetIdentity(st, id) == Some(SensorIdentity(id, name, namespace))
    ensures forall again :: MayFind(st, namespace, name, again) ==> again == found
  {
    if found.Some? {
      var id :| id in st && st[id].info.namespace == namespace && st[id].info.name == name
                && GetIdentity(st, id) == found;
      forall other | other in st && st[other].info.namespace == namespace && st[other].info.name == name
        ensures other == id
      {
        assert SameName(st[other].info, st[id].info);
      }
    }
  }

  // ---- reports and patches do not interfere --------------------------------------------

  /** A report and a patch, on whichever sensors, may be swapped: same outcomes, same data. */
  lemma ReportAndPatchCommute(st: Store, report: Call, patch: Call)
    requires report.CallSendData? && patch.CallPatch?
    ensures After(After(st, report), patch) == After(After(st, patch), report)
    ensures Step(st, report).Ok? <==> Step(After(st, patch), report).Ok?
    ensures Step(st, patch).Ok? <==> Step(After(st, report), patch).Ok?
    ensures Step(st, patch).Err? ==> Step(After(st, report), patch) == Step(st, patch)
  {
    assert After(After(st, report), patch) == After(After(st, patch), report);
  }

  lemma {:induction false} RunConcat(st: Store, a: seq<Call>, b: seq<Call>)
    ensures Run(st, a + b) == Run(Run(st, a), b)
    decreases |a|
  {
    if a == [] {
      assert a + b == b;
    } else {
      assert (a + b)[0] == a[0] && (a + b)[1..] == a[1..] + b;
      RunConcat(After(st, a[0]), a[1..], b);
    }
  }

  /** Hence in any run a report may be moved across a patch without changing where the run ends. */
  lemma ReportMovesAcrossPatch(st: Store, before: seq<Call>, report: Call, patch: Call, after: seq<Call>)
    requires report.CallSendData? && patch.CallPatch?
    ensures Run(st, before + [report, patch] + after) == Run(st, before + [patch, report] + after)
  {
    hide After;
    var mid := Run(st, before);
    ReportAndPatchCommute(mid, report, patch);
    RunOfTwo(mid, report, patch);
    RunOfTwo(mid, patch, report);
    RunConcat(st, before, [report, patch]);
    RunConcat(st, before, [patch, report]);
    RunConcat(st, before + [report, patch], after);
    RunConcat(st, before + [patch, report], after);
  }

  lemma RunOfTwo(st: Store, a: Call, b: Call)
    ensures Run(st, [a, b]) == After(After(st, a), b)
  {
    hide After;
    assert [a, b][1..] == [b] && [b][1..] == [];
    assert Run(After(st, a), [b]) == Run(After(After(st, a), b), []);
  }

  function Infos(st: Store): map<string, SensorInfo> {
    map id | id in st :: st[id].info
  }

  function DropReports(calls: seq<Call>): seq<Call>
    decreases |calls|
  {
    if calls == [] then []
    else (if calls[0].CallSendData? then [] else [calls[0]]) + DropReports(calls[1..])
  }

  lemma NameTakenByInfos(a: Store, b: Store, info: SensorInfo)
    requires Infos(a) == Infos(b)
    ensures NameTaken(a, info) ==> NameTaken(b, info)
  {
    if NameTaken(a, info) {
      var id :| id in a && SameName(a[id].info, info);
      assert id in Infos(a) && id in b && Infos(a)[id] == Infos(b)[id];
    }
  }

  lemma SameInfosStep(a: Store, b: Store, call: Call)
    requires Infos(a) == Infos(b) && !call.CallSendData?
    ensures Infos(After(a, call)) == Infos(After(b, call))
  {
    assert a.Keys == Infos(a).Keys == Infos(b).Keys == b.Keys;
    assert forall id | id in a :: a[id].info == Infos(a)[id] == Infos(b)[id] == b[id].info;
    if call.CallRegister? {
      NameTakenByInfos(a, b, call.sensor);
      NameTakenByInfos(b, a, call.sensor);
    }
  }

  /** What sensors are, as opposed to what they reported, depends on no report. */
  lemma {:induction false} InfosIgnoreReports(a: Store, b: Store, calls: seq<Call>)
    requires Infos(a) == Infos(b)
    ensures Infos(Run(a, calls)) == Infos(Run(b, DropReports(calls)))
    decreases |calls|
  {
    if calls != [] {
      var call, rest := calls[0], calls[1..];
      if call.CallSendData? {
        assert Infos(After(a, call)) == Infos(a);
        assert [] + DropReports(rest) == DropReports(rest);
        InfosIgnoreReports(After(a, call), b, rest);
      } else {
        SameInfosStep(a, b, call);
        InfosIgnoreReports(After(a, call), After(b, call), rest);
        var dropped := [call] + DropReports(rest);
        assert dropped[0] == call && dropped[1..] == DropReports(rest);
      }
    }
  }

  /** What one call reports on a sensor. */
  function ReportOf(call: Call, id: string): map<string, string> {
    if call.CallSendData? && call.id == id then call.data else map[]
  }

  /** All reports on one sensor, merged so that later values win. */
  function MergedReports(calls: seq<Call>, id: string): map<string, string>
    decreases |calls|
  {
    if calls == [] then map[] else ReportOf(calls[0], id) + MergedReports(calls[1..], id)
  }

  lemma StepMergesReport(st: Store, call: Call, id: string)
    requires id in st && call != CallDelete(id)
    ensures id in After(st, call)
    ensures After(st, call)[id].reportedData == st[id].reportedData + ReportOf(call, id)
  {
  }

  lemma {:induction false} ReportsMergeFrom(st: Store, calls: seq<Call>, id: string)
    requires id in st && CallDelete(id) !in calls
    ensures id in Run(st, calls)
    ensures Run(st, calls)[id].reportedData == st[id].reportedData + MergedReports(calls, id)
    decreases |calls|
  {
    hide ReportOf, Register, Patch, SendData, Delete;
    if calls != [] {
      StepMergesReport(st, calls[0], id);
      ReportsMergeFrom(After(st, calls[0]), calls[1..], id);
      var before, first, rest := st[id].reportedData, ReportOf(calls[0], id), MergedReports(calls[1..], id);
      assert (before + first) + rest == before + (first + rest);
    }
  }

  /** From its registration on, a sensor that is not deleted holds the merge of exactly its reports. */
  lemma ReportedDataIsMergeOfReports(st: Store, sensor: SensorInfo, calls: seq<Call>)
    requires Register(st, sensor).Ok?
    requires CallDelete(sensor.id) !in calls
    ensures var after := Run(st, [CallRegister(sensor)] + calls);
            sensor.id in after && after[sensor.id].reportedData == MergedReports(calls, sensor.id)
  {
    var all := [CallRegister(sensor)] + calls;
    assert all[0] == CallRegister(sensor) && all[1..] == calls;
    ReportsMergeFrom(After(st, CallRegister(sensor)), calls, sensor.id);
  }

  predicate IsReport(call: Call, id: string) {
    call.CallSendData? && call.id == id
  }

  lemma StepKeepsTime(st: Store, call: Call, id: string)
    requires id in st && call != CallDelete(id)
    ensures id in After(st, call)
    ensures After(st, call)[id].lastReportedAt == if IsReport(call, id) then call.now else st[id].lastReportedAt
  {
  }

  /** After calls of which only the k-th, or none from there on, reports to the sensor, its time is that of this one. */
  lemma {:induction false} TimeOfReport(st: Store, calls: seq<Call>, id: string, k: nat)
    requires id in st && CallDelete(id) !in calls
    requires k <= |calls| && forall j | k <= j < |calls| :: !IsReport(calls[j], id)
    ensures id in Run(st, calls)
    ensures k == 0 ==> Run(st, calls)[id].lastReportedAt == st[id].lastReportedAt
    ensures k > 0 && IsReport(calls[k - 1], id) ==> Run(st, calls)[id].lastReportedAt == calls[k - 1].now
    decreases |calls|
  {
    hide Register, Patch, SendData, Delete;
    if calls != [] {
      StepKeepsTime(st, calls[0], id);
      TimeOfReport(After(st, calls[0]), calls[1..], id, if k > 0 then k - 1 else 0);
    }
  }

  /** From its registration on, a sensor that is not deleted was last reported to by its last report, if it had one. */
  lemma LastReportedIsLastReport(st: Store, sensor: SensorInfo, calls: seq<Call>)
    requires Register(st, sensor).Ok?
    requires CallDelete(sensor.id) !in calls
    ensures var after := Run(st, [CallRegister(sensor)] + calls);
            && sensor.id in after
            && ((forall j | 0 <= j < |calls| :: !IsReport(calls[j], sensor.id)) ==>
                  after[sensor.id].lastReportedAt == sensor.registeredAt)
            && forall k | 0 <= k < |calls| && IsReport(calls[k], sensor.id)
                          && (forall j | k < j < |calls| :: !IsReport(calls[j], sensor.id)) ::
                 after[sensor.id].lastReportedAt == calls[k].now
  {
    var all := [CallRegister(sensor)] + calls;
    assert all[0] == CallRegister(sensor) && all[1..] == calls;
    var registered := After(st, CallRegister(sensor));
    ReportsMergeFrom(registered, calls, sensor.id);
    if forall j | 0 <= j < |calls| :: !IsReport(calls[j], sensor.id) {
      TimeOfReport(registered, calls, sensor.id, 0);
    }
    forall k | 0 <= k < |calls| && IsReport(calls[k], sensor.id)
               && (forall j | k < j < |calls| :: !IsReport(calls[j], sensor.id))
      ensures Run(registered, calls)[sensor.id].lastReportedAt == calls[k].now
    {
      TimeOfReport(registered, calls, sensor.id, k + 1);
    }
  }
}
