/**
 The request handlers (internal/server/qivitals_svc.go and qivitals_patching.go) on top of the
 in-memory store and the condition evaluator, one request at a time.
 */
module Service {
  import opened Wrappers
  import opened Sensors
  import opened JsonPatch
  import opened Patching
  import opened Filters
  import opened Queries
  import opened MemoryStorage
  import Model = StoreModel
  import opened Evaluator
  import opened Health

  datatype ServiceError =
    | InvalidArgument
    | Rejected(reason: PatchError)
    | Storage(error: StorageError)
    | Database

  // ---- patching --------------------------------------------------------------------------

  /** A committed patch: the whole patched document, under a new version. */
  function Committed(info: SensorInfo, updated: SensorInfo, now: int, version: string): SensorInfo {
    Overlay(info, Model.CopyLabels(updated), COLUMNS).(lastSpecUpdatedAt := now, resourceVersion := version)
  }

  /** What PatchSensor does, told without columns. */
  function PatchSensorModel(st: Model.Store, id: string, expected: string, ops: seq<PatchOperation>, now: int,
                            version: string)
    : Result<Model.Store, ServiceError>
  {
    if id == "" || ops == [] then Err(InvalidArgument)
    else if id !in st then Err(Storage(NotFound))
    else match PatchInfo(st[id].info, ops)
      case Err(reason) => Err(Rejected(reason))
      case Ok(updated) =>
        if expected != st[id].info.resourceVersion then Err(Storage(VersionMismatch))
        else Ok(st[id := st[id].(info := Committed(st[id].info, updated, now, version))])
  }

  /** On a record with labels, the touched columns of a patch carry the whole patched document. */
  lemma TouchedIsEverything(info: SensorInfo, ops: seq<PatchOperation>)
    requires PatchInfo(info, ops).Ok? && info.labels.Some?
    ensures var copied := Model.CopyLabels(PatchInfo(info, ops).value);
            Overlay(info, copied, Touched(ops)) == Overlay(info, copied, COLUMNS)
  {
    hide PatchInfo, Touched, Overlay;
    var updated := PatchInfo(info, ops).value;
    var copied := Model.CopyLabels(updated);
    PatchedColumns(info, ops);
    forall c | c in COLUMNS - Touched(ops)
      ensures SameColumn(info, copied, c)
    {
      assert SameColumn(info, updated, c);
    }
    OverlayGrows(info, copied, Touched(ops), COLUMNS);
  }

  /** Writing the touched columns into a record with labels writes the whole patched document. */
  lemma SparseCommit(info: SensorInfo, ops: seq<PatchOperation>, order: seq<Column>, now: int, version: string)
    requires info.labels.Some? && ToSet(order) == Touched(ops)
    ensures PatchInfo(info, ops).Ok? ==>
              Model.PatchedInfo(info, PatchInfo(info, ops).value, order, now, version) ==
              Committed(info, PatchInfo(info, ops).value, now, version)
  {
    hide PatchInfo, Touched, SetColumns, Overlay;
    if PatchInfo(info, ops).Ok? {
      SetColumnsIsOverlay(info, Model.CopyLabels(PatchInfo(info, ops).value), order);
      TouchedIsEverything(info, ops);
    }
  }

  /** The loop of PatchSensor over the operations: None when a path is not patchable. */
  method CollectColumns(ops: seq<PatchOperation>) returns (touched: Option<map<Column, bool>>)
    ensures touched.None? <==> exists op | op in ops :: !ValidatePath(op.path)
    ensures touched.Some? ==> touched.value.Keys == Touched(ops)
  {
    var columns: map<Column, bool> := map[];
    for i := 0 to |ops|
      invariant forall op | op in ops[..i] :: ValidatePath(op.path)
      invariant columns.Keys == Touched(ops[..i])
    {
      assert ops[i] in ops && ops[..i + 1] == ops[..i] + [ops[i]];
      if !ValidatePath(ops[i].path) {
        return None;
      }
      var c := PathToColumn(ops[i].path);
      if c.Some? {
        columns := columns[c.value := true];
      }
      TouchedOneMore(ops[..i], ops[i]);
    }
    assert ops[..|ops|] == ops;
    touched := Some(columns);
  }

  lemma TouchedOneMore(ops: seq<PatchOperation>, op: PatchOperation)
    ensures Touched(ops + [op]) == Touched(ops) + (var c := PathToColumn(op.path); if c.Some? then {c.value} else {})
  {
    var c := PathToColumn(op.path);
    assert forall o :: o in ops + [op] <==> o in ops || o == op;
    forall x
      ensures x in Touched(ops + [op]) <==> x in Touched(ops) || (c.Some? && x == c.value)
    {
      if x in Touched(ops) {
        var o :| o in ops && PathToColumn(o.path) == Some(x);
        assert o in ops + [op];
      }
      if c == Some(x) {
        assert op in ops + [op];
      }
    }
  }

  /** buildJSONPatch. */
  method BuildJSONPatch(ops: seq<PatchOperation>) returns (wire: Option<seq<WireOp>>)
    ensures wire == BuildOps(ops)
  {
    hide BuildOp;
    var out: seq<WireOp> := [];
    assert ops[0..] == ops;
    assert BuildOps(ops).Some? ==> out + BuildOps(ops).value == BuildOps(ops).value;
    for i := 0 to |ops|
      invariant BuildOps(ops) == (var rest := BuildOps(ops[i..]); if rest.Some? then Some(out + rest.value) else None)
    {
      assert ops[i..] != [] && ops[i..][0] == ops[i] && ops[i..][1..] == ops[i + 1..];
      var entry := BuildOp(ops[i]);
      if entry.None? {
        return None;
      }
      ghost var rest := BuildOps(ops[i + 1..]);
      if rest.Some? {
        assert out + ([entry.value] + rest.value) == (out + [entry.value]) + rest.value;
      }
      out := out + [entry.value];
    }
    assert ops[|ops|..] == [] && out + [] == out;
    wire := Some(out);
  }

  method MapKeys(m: map<Column, bool>) returns (keys: seq<Column>)
    ensures ToSet(keys) == m.Keys
    ensures |keys| == |m|
  {
    keys := [];
    var todo := m.Keys;
    while todo != {}
      invariant todo <= m.Keys
      invariant ToSet(keys) == m.Keys - todo
      invariant |keys| + |todo| == |m.Keys|
    {
      var k :| k in todo;
      assert ToSet(keys + [k]) == ToSet(keys) + {k};
      keys := keys + [k];
      todo := todo - {k};
    }
  }

  /** Steps 2 to 7 of PatchSensor: the patched info and the columns to write, in some order. */
  method ComputeUpdate(info: SensorInfo, ops: seq<PatchOperation>)
    returns (update: Result<SensorInfo, PatchError>, columns: seq<Column>)
    ensures update == PatchInfo(info, ops)
    ensures update.Ok? ==> ToSet(columns) == Touched(ops) && |columns| == |Touched(ops)|
  {
    columns := [];
    var touched := CollectColumns(ops);
    if touched.None? {
      return Err(BadPath), [];
    }
    var original := EncodeInfo(info);
    var wire := BuildJSONPatch(ops);
    if wire.None? {
      return Err(BadValue), [];
    }
    var patched := ApplyOps(original, wire.value);
    if patched.None? {
      return Err(NotApplicable), [];
    }
    var updated := DecodeInfo(patched.value, info);
    if updated.None? {
      return Err(BadShape), [];
    }
    columns := MapKeys(touched.value);
    update := Ok(updated.value);
  }

  // ---- the service -------------------------------------------------------------------------

  predicate NoNilRules(rules: seq<Option<Rule>>) {
    forall i :: 0 <= i < |rules| ==> rules[i].Some?
  }

  /** The rules behind a list of non-nil pointers. */
  function Present(rules: seq<Option<Rule>>): (present: seq<Rule>)
    requires NoNilRules(rules)
    ensures AllRules(present) == rules
  {
    seq(|rules|, i requires 0 <= i < |rules| => rules[i].value)
  }

  lemma NoRules<P, T>(engine: Engine<P, T>, state: SensorState, now: int)
    ensures ReportedState(engine, state, [], now) == BaseState(state, now)
  {
    assert AllRules([]) == [];
  }

  /** The state reported for a sensor of the store. */
  function StateIn<P, T>(engine: Engine<P, T>, st: Model.Store, now: int, id: string): State {
    if id in st && NoNilRules(st[id].info.rules)
    then ReportedState(engine, st[id], Present(st[id].info.rules), now)
    else UNKNOWN
  }

  function StatesIn<P, T>(engine: Engine<P, T>, st: Model.Store, now: int): string -> State {
    id => StateIn(engine, st, now, id)
  }

  /** A sensor as a response shows it. */
  datatype Answer = Answer(sensor: SensorState, state: State, conditions: seq<Condition>)

  /** What is answered about a sensor of the store; None where a nil rule keeps its state from being derived. */
  function AnswerAbout<P, T>(engine: Engine<P, T>, st: Model.Store, id: string, now: int): Option<Answer> {
    if id in st && NoNilRules(st[id].info.rules)
    then Some(Answer(st[id], StateIn(engine, st, now, id),
                     ConditionsOf(engine, st[id].info.rules, st[id].reportedData, LabelMap(st[id].info.labels))))
    else None
  }

  /** Whether a report names this sensor: by id if it has one, else by a complete name. */
  predicate Names(st: Model.Store, target: string, id: string, name: string, namespace: string)
    requires target in st
  {
    if id != "" then target == id
    else name != "" && namespace != "" && st[target].info.name == name && st[target].info.namespace == namespace
  }

  /** Whether a report that left `after` reached the sensor that it names, the only one by id or with unique names. */
  ghost predicate Reached(before: Model.Store, after: Model.Store, target: string,
                          id: string, name: string, namespace: string, data: map<string, string>, now: int) {
    && target in before && Names(before, target, id, name, namespace)
    && Model.SendData(before, target, data, now) == Ok(after)
    && (id != "" || Model.UniqueNames(before) ==>
          forall other | other in before :: Names(before, other, id, name, namespace) ==> other == target)
  }

  /** Whether a report names no sensor, and how it is then refused. */
  ghost predicate NamesNone(st: Model.Store, id: string, name: string, namespace: string, e: ServiceError) {
    && e == (if id == "" && (name == "" || namespace == "") then InvalidArgument else Storage(NotFound))
    && forall other | other in st :: !Names(st, other, id, name, namespace)
  }

  class QiVitalsService<P(!new), T(!new)> {
    const storage: MemorySensorStorage
    const evaluator: ConditionEvaluator<P, T>

    constructor (storage: MemorySensorStorage, evaluator: ConditionEvaluator<P, T>)
      ensures this.storage == storage && this.evaluator == evaluator
    {
      this.storage := storage;
      this.evaluator := evaluator;
    }

    /** GetStatus and buildProtoSensor: what a handler reads back when it is done. */
    method ReadBack(id: string, now: int) returns (answer: Option<Answer>)
      requires storage.Valid() && evaluator.Valid()
      modifies evaluator
      ensures evaluator.Valid()
      ensures answer == AnswerAbout(evaluator.engine, storage.Contents(), id, now)
    {
      hide ReportedState;
      var stored := storage.GetStatus(id);
      if stored.Err? || !NoNilRules(stored.value.info.rules) {
        return None;
      }
      var view := stored.value.View();
      var state, conditions := Evaluate(stored.value, now);
      answer := Some(Answer(view, state, conditions));
    }

    /** PatchSensor up to the commit. */
    method CommitPatch(id: string, expected: string, ops: seq<PatchOperation>, now: int, version: string)
      returns (r: Result<(), ServiceError>)
      requires storage.Valid()
      modifies storage.sensors.Values
      ensures storage.Valid()
      ensures match PatchSensorModel(old(storage.Contents()), id, expected, ops, now, version)
              case Ok(st) => r == Ok(()) && storage.Contents() == st
              case Err(e) => r == Err(e) && storage.Contents() == old(storage.Contents())
    {
      hide PatchInfo, Touched, SetColumns, Overlay;
      if id == "" || |ops| == 0 {
        return Err(InvalidArgument);
      }
      var current := storage.GetStatus(id);
      if current.Err? {
        return Err(Storage(current.error));
      }
      ghost var info := current.value.info;
      var update, columns := ComputeUpdate(current.value.info, ops);
      if update.Err? {
        return Err(Rejected(update.error));
      }
      SparseCommit(info, ops, columns, now, version);
      var stored := storage.Patch(id, expected, update.value, columns, now, version);
      match stored {
        case Ok(_) => r := Ok(());
        case Err(e) => r := Err(Storage(e));
      }
    }

    /** A patch either commits the whole patched document and answers what is then stored, or changes nothing. */
    method PatchSensor(id: string, expected: string, ops: seq<PatchOperation>, now: int, version: string, later: int)
      returns (r: Result<(), ServiceError>, answer: Option<Answer>)
      requires storage.Valid() && evaluator.Valid()
      modifies storage.sensors.Values, evaluator
      ensures storage.Valid() && evaluator.Valid()
      ensures answer == if r.Ok? then AnswerAbout(evaluator.engine, storage.Contents(), id, later) else None
      ensures match PatchSensorModel(old(storage.Contents()), id, expected, ops, now, version)
              case Ok(st) => r == Ok(()) && storage.Contents() == st
              case Err(e) => r == Err(e) && storage.Contents() == old(storage.Contents())
    {
      hide PatchSensorModel, AnswerAbout;
      answer := None;
      r := CommitPatch(id, expected, ops, now, version);
      if r.Ok? {
        answer := ReadBack(id, later);
      }
    }

    /** Registers under a new version, and under a new id when none is given. */
    method RegisterSensor(sensor: SensorInfo, freshId: string, version: string, now: int, later: int)
      returns (r: Result<string, ServiceError>, answer: Option<Answer>)
      requires storage.Valid() && evaluator.Valid()
      requires freshId != ""
      modifies storage, evaluator
      ensures storage.Valid() && evaluator.Valid()
      ensures answer == if r.Ok? then AnswerAbout(evaluator.engine, storage.Contents(), r.value, later) else None
      ensures var info := sensor.(id := if sensor.id == "" then freshId else sensor.id,
                                  resourceVersion := version, registeredAt := now);
              match Model.Register(old(storage.Contents()), info)
              case Ok(st) => r == Ok(info.id) && info.id != "" && storage.Contents() == st
              case Err(e) => r == Err(Storage(e)) && storage.Contents() == old(storage.Contents())
    {
      var info := sensor.(resourceVersion := version, registeredAt := now);
      if info.id == "" {
        info := info.(id := freshId);
      }
      answer := None;
      var stored := storage.Register(info);
      if stored.Err? {
        return Err(Storage(stored.error)), None;
      }
      r := Ok(info.id);
      answer := ReadBack(info.id, later);
    }

    /** By id if there is one, else by namespace and name. */
    method ResolveIdentity(id: string, name: string, namespace: string)
      returns (r: Result<SensorIdentity, ServiceError>)
      ensures id != "" ==> r == (match Model.GetIdentity(storage.Contents(), id)
                                 case Some(identity) => Ok(identity)
                                 case None => Err(Storage(NotFound)))
      ensures id == "" && (name == "" || namespace == "") ==> r == Err(InvalidArgument)
      ensures id == "" && name != "" && namespace != "" ==>
                match r
                case Ok(identity) => Model.MayFind(storage.Contents(), namespace, name, Some(identity))
                case Err(e) => e == Storage(NotFound) && Model.MayFind(storage.Contents(), namespace, name, None)
    {
      var identity: Option<SensorIdentity>;
      if id != "" {
        identity := storage.GetIdentity(id);
      } else if name != "" && namespace != "" {
        identity := storage.FindIdentity(namespace, name);
      } else {
        return Err(InvalidArgument);
      }
      r := if identity.Some? then Ok(identity.value) else Err(Storage(NotFound));
    }

    /** ReportSensor up to the change; the result is the sensor that was reached. */
    method StoreReport(id: string, name: string, namespace: string, data: map<string, string>, now: int)
      returns (r: Result<string, ServiceError>)
      requires storage.Valid()
      modifies storage.sensors.Values
      ensures storage.Valid()
      ensures match r
              case Ok(target) =>
                Reached(old(storage.Contents()), storage.Contents(), target, id, name, namespace, data, now)
              case Err(e) =>
                storage.Contents() == old(storage.Contents()) && NamesNone(storage.Contents(), id, name, namespace, e)
    {
      var identity := ResolveIdentity(id, name, namespace);
      if identity.Err? {
        return Err(identity.error);
      }
      var stored := storage.SendData(identity.value.id, data, now);
      assert Names(old(storage.Contents()), identity.value.id, id, name, namespace);
      match stored {
        case Ok(_) => r := Ok(identity.value.id);
        case Err(e) => r := Err(Storage(e));
      }
    }

    /**
     A report reaches one sensor that it names, by id or by namespace and name, with unique names the only
     one, and answers what is then stored; or it names none and nothing changes.
     */
    method ReportSensor(id: string, name: string, namespace: string, data: map<string, string>, now: int, later: int)
      returns (r: Result<string, ServiceError>, answer: Option<Answer>)
      requires storage.Valid() && evaluator.Valid()
      modifies storage.sensors.Values, evaluator
      ensures storage.Valid() && evaluator.Valid()
      ensures answer == if r.Ok? then AnswerAbout(evaluator.engine, storage.Contents(), r.value, later) else None
      ensures match r
              case Ok(target) =>
                Reached(old(storage.Contents()), storage.Contents(), target, id, name, namespace, data, now)
              case Err(e) =>
                storage.Contents() == old(storage.Contents()) && NamesNone(storage.Contents(), id, name, namespace, e)
    {
      hide Reached, NamesNone, AnswerAbout;
      answer := None;
      r := StoreReport(id, name, namespace, data, now);
      if r.Ok? {
        answer := ReadBack(r.value, later);
      }
    }

    method DeleteSensor(id: string) returns (r: Result<(), ServiceError>)
      requires storage.Valid()
      modifies storage
      ensures storage.Valid()
      ensures id == "" ==> r == Err(InvalidArgument) && storage.Contents() == old(storage.Contents())
      ensures id != "" ==> match Model.Delete(old(storage.Contents()), id)
                           case Ok(st) => r == Ok(()) && storage.Contents() == st
                           case Err(e) => r == Err(Storage(e)) && storage.Contents() == old(storage.Contents())
    {
      var identity := ResolveIdentity(id, "", "");
      if identity.Err? {
        return Err(identity.error);
      }
      var stored := storage.Delete(identity.value.id);
      match stored {
        case Ok(_) => r := Ok(());
        case Err(e) => r := Err(Storage(e));
      }
    }

    /** GetSensor: the reported state of a sensor and its conditions. */
    method Evaluate(state: SensorRecord, now: int) returns (s: State, conditions: seq<Condition>)
      requires evaluator.Valid() && NoNilRules(state.info.rules)
      modifies evaluator
      ensures evaluator.Valid()
      ensures conditions == ConditionsOf(evaluator.engine, state.info.rules, state.reportedData,
                                         LabelMap(state.info.labels))
      ensures s == ReportedState(evaluator.engine, state.View(), Present(state.info.rules), now)
      // Without rules the age of the last report decides; with rules it is no better than that.
      ensures var age := now - state.lastReportedAt;
              && (state.info.rules == [] ==>
                    && (s == OK <==> age < state.info.gracefulPeriod)
                    && (s == DEGRADED <==> state.info.gracefulPeriod <= age < state.info.failurePeriod)
                    && (s == FAILED <==> state.info.gracefulPeriod <= age && state.info.failurePeriod <= age))
              && s != UNKNOWN
              && (state.info.gracefulPeriod <= age < state.info.failurePeriod ==> s in {DEGRADED, FAILED, PAUSED})
              && (state.info.gracefulPeriod <= age && state.info.failurePeriod <= age ==> s in {FAILED, PAUSED})
    {
      hide ConditionsOf, ApplyOverrides;
      StateOfAge(state.View(), now);
      StateIsNoBetter(evaluator.engine, state.View(), Present(state.info.rules), now);
      NoRules(evaluator.engine, state.View(), now);
      conditions := evaluator.EvaluateConditions(state.info.rules, state.reportedData, LabelMap(state.info.labels));
      s := ApplyConditionOverrides(BaseState(state.View(), now), Present(state.info.rules), conditions);
    }

    /** The page of matching sensors, less those whose computed state was not asked for. */
    method QuerySensors(filter: QueryFilter, wanted: seq<State>, now: int)
      returns (sensors: seq<SensorRecord>, ghost ids: seq<string>, ghost page: seq<string>)
      requires storage.Valid() && evaluator.Valid()
      requires forall id | id in storage.Contents() :: NoNilRules(storage.Contents()[id].info.rules)
      modifies evaluator
      ensures evaluator.Valid()
      ensures IsAnswer(storage.Contents(), filter, page)
      ensures ids == KeepStates(page, StatesIn(evaluator.engine, storage.Contents(), now), wanted)
      ensures |sensors| == |ids|
      ensures forall i | 0 <= i < |ids| :: ids[i] in storage.sensors && sensors[i] == storage.sensors[ids[i]]
    {
      hide IsAnswer, MatchSet, Matches, KeepStates, StateIn, ReportedState;
      var states := storage.Query(filter);
      page := Ids(states);
      assert forall k | 0 <= k < |page| :: storage.Contents()[page[k]] == states[k].View();
      sensors, ids := KeepWanted(states, page, storage.sensors, wanted, now);
    }

    /** The loop of QuerySensors over a page. */
    method KeepWanted(states: seq<SensorRecord>, ghost page: seq<string>, ghost records: map<string, SensorRecord>,
                      wanted: seq<State>, now: int)
      returns (sensors: seq<SensorRecord>, ghost ids: seq<string>)
      requires evaluator.Valid() && |states| == |page|
      requires forall k | 0 <= k < |page| :: page[k] in records && records[page[k]] == states[k]
      requires forall k | 0 <= k < |states| :: NoNilRules(states[k].info.rules)
      modifies evaluator
      ensures evaluator.Valid()
      ensures ids == KeepStates(page, StatesIn(evaluator.engine, Views(records), now), wanted)
      ensures |sensors| == |ids| && forall i | 0 <= i < |ids| :: ids[i] in records && sensors[i] == records[ids[i]]
    {
      ghost var stateOf := StatesIn(evaluator.engine, Views(records), now);
      sensors, ids := [], [];
      for k := 0 to |states|
        invariant evaluator.Valid()
        invariant ids == KeepStates(page[..k], stateOf, wanted)
        invariant |sensors| == |ids| && forall i | 0 <= i < |ids| :: ids[i] in records && sensors[i] == records[ids[i]]
      {
        var s, _ := Evaluate(states[k], now);
        assert s == stateOf(page[k]);
        KeepStatesNext(page, k, stateOf, wanted);
        if wanted == [] || s in wanted {
          sensors, ids := sensors + [states[k]], ids + [page[k]];
        }
      }
      assert page[..|states|] == page;
    }
  }

  ghost function Views(records: map<string, SensorRecord>): Model.Store
    reads records.Values
  {
    map id | id in records :: records[id].View()
  }
}
