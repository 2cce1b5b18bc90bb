/**
 The service on the memory store and the service on the Postgres store, driven by the same requests:
 same outcomes and same data, up to the version strings each store makes up for itself.
 */
module Simulation {
  import opened Wrappers
  import opened Sensors
  import opened JsonPatch
  import opened Patching
  import opened ColumnPatches
  import opened Filters
  import opened Queries
  import opened QueryAgreement
  import opened Evaluator
  import opened Health
  import opened Service
  import Mem = StoreModel
  import Pg = PostgresModel

  // ---- one request on each store -----------------------------------------------------------

  /**
   A request and the choices made while serving it: the versions given by the client and the fresh
   ones, for the memory store (`m`) and for Postgres (`p`), the order in which each run walks the
   touched columns, whether the database looks at the length of a text before it looks for the row, and
   how it collates strings.
   */
  datatype Request =
    | ReqRegister(sensor: SensorInfo, pVersion: string)
    | ReqPatch(id: string, mExpected: string, pExpected: string, ops: seq<PatchOperation>,
               mOrder: seq<Column>, pOrder: seq<Column>, now: int, mVersion: string, pVersion: string, early: bool)
    | ReqReport(id: string, name: string, namespace: string, data: map<string, string>, now: int)
    | ReqDelete(id: string)
    | ReqQuery(filter: QueryFilter, collation: Pg.Collation)

  function Lift<T>(r: Result<T, StorageError>): Result<T, ServiceError> {
    match r
    case Ok(v) => Ok(v)
    case Err(e) => Err(Storage(e))
  }

  function LiftDb<T>(r: Result<T, Pg.DbError>): Result<T, ServiceError> {
    match r
    case Ok(v) => Ok(v)
    case Err(Known(e)) => Err(Storage(e))
    case Err(_) => Err(Database)
  }

  /** Some sensor of that namespace and name, if there is one. */
  ghost function Find(st: Mem.Store, namespace: string, name: string): (found: Option<SensorIdentity>)
    ensures Mem.MayFind(st, namespace, name, found)
  {
    if id :| id in st && st[id].info.namespace == namespace && st[id].info.name == name
    then Mem.GetIdentity(st, id)
    else None
  }

  /** The sensor that a report or a delete is about. */
  ghost function Resolve(st: Mem.Store, id: string, name: string, namespace: string): Result<string, ServiceError> {
    if id == "" && (name == "" || namespace == "") then Err(InvalidArgument)
    else match if id != "" then Mem.GetIdentity(st, id) else Find(st, namespace, name)
      case Some(identity) => Ok(identity.id)
      case None => Err(Storage(NotFound))
  }

  /** The text that is sent to look the sensor up can be sent. */
  predicate IsTextLookup(id: string, name: string, namespace: string) {
    if id != "" then Pg.IsText(id)
    else name == "" || namespace == "" || (Pg.IsText(name) && Pg.IsText(namespace))
  }

  ghost function PgResolve(t: Pg.Table, id: string, name: string, namespace: string): Result<string, ServiceError> {
    if IsTextLookup(id, name, namespace) then Resolve(t, id, name, namespace) else Err(Database)
  }

  /** A query changes nothing; what it may answer is compared by SameAnswers. */
  ghost function ServeMem(st: Mem.Store, req: Request): Result<Mem.Store, ServiceError> {
    match req
    case ReqRegister(sensor, _) => Lift(Mem.Register(st, sensor))
    case ReqPatch(id, expected, _, ops, order, _, now, version, _, _) =>
      if id == "" || ops == [] then Err(InvalidArgument)
      else if id !in st then Err(Storage(NotFound))
      else (match PatchInfo(st[id].info, ops)
            case Err(reason) => Err(Rejected(reason))
            case Ok(updated) => Lift(Mem.Patch(st, id, expected, updated, order, now, version)))
    case ReqReport(id, name, namespace, data, now) =>
      (match Resolve(st, id, name, namespace)
       case Err(e) => Err(e)
       case Ok(target) => Lift(Mem.SendData(st, target, data, now)))
    case ReqDelete(id) =>
      (match Resolve(st, id, "", "")
       case Err(e) => Err(e)
       case Ok(target) => Lift(Mem.Delete(st, target)))
    case ReqQuery(_, _) => Ok(st)
  }

  /** Patches, reports and deletes first look the sensor up, which fails on text that cannot be sent. */
  ghost function ServePg(t: Pg.Table, req: Request): Result<Pg.Table, ServiceError> {
    match req
    case ReqRegister(sensor, version) => LiftDb(Pg.Register(t, sensor, version))
    case ReqPatch(id, _, expected, ops, _, order, now, _, version, early) =>
      if id == "" || ops == [] then Err(InvalidArgument)
      else if !Pg.IsText(id) then Err(Database)
      else if id !in t then Err(Storage(NotFound))
      else (match PatchInfo(Pg.Scanned(t[id]).info, ops)
            case Err(reason) => Err(Rejected(reason))
            case Ok(updated) => LiftDb(Pg.Patch(t, id, expected, updated, order, now, version, early)))
    case ReqReport(id, name, namespace, data, now) =>
      (match PgResolve(t, id, name, namespace)
       case Err(e) => Err(e)
       case Ok(target) => LiftDb(Pg.SendData(t, target, data, now)))
    case ReqDelete(id) =>
      (match PgResolve(t, id, "", "")
       case Err(e) => Err(e)
       case Ok(target) => LiftDb(Pg.Delete(t, target)))
    case ReqQuery(filter, _) =>
      if Pg.AllowedOrder(filter.orderBy) && Pg.IsTextFilter(filter) then Ok(t) else Err(Database)
  }

  /** What the client sees of a result. */
  function Outcome<T>(r: Result<T, ServiceError>): Result<(), ServiceError> {
    match r
    case Ok(_) => Ok(())
    case Err(e) => Err(e)
  }

  function Keep<T>(before: T, r: Result<T, ServiceError>): T {
    match r
    case Ok(after) => after
    case Err(_) => before
  }

  // ---- the relation ------------------------------------------------------------------------

  /** `issued` pairs the versions that the two stores made up at the same moment. */
  datatype Twin = Twin(mem: Mem.Store, pg: Pg.Table, issued: set<(string, string)>)

  /** A state without the two fields that the stores keep in their own way. */
  function Data(s: SensorState): SensorState {
    s.(info := Unversioned(s.info))
  }

  predicate OneToOne(issued: set<(string, string)>) {
    forall a, b | a in issued && b in issued :: a.0 == b.0 <==> a.1 == b.1
  }

  predicate Fresh(issued: set<(string, string)>, m: string, p: string) {
    forall a | a in issued :: a.0 != m && a.1 != p
  }

  /** The client names the same version to both: one that was issued, or one that neither knows. */
  predicate Paired(issued: set<(string, string)>, m: string, p: string) {
    (m, p) in issued || Fresh(issued, m, p)
  }

  ghost predicate Related(tw: Twin) {
    && Mem.StoreInv(tw.mem)
    && Pg.TableInv(tw.pg)
    && OneToOne(tw.issued)
    && tw.mem.Keys == tw.pg.Keys
    && forall id | id in tw.mem ::
         && Data(tw.mem[id]) == Data(tw.pg[id])
         && (tw.mem[id].info.resourceVersion, tw.pg[id].info.resourceVersion) in tw.issued
  }

  /** Requests the service can make: fresh versions are fresh, columns are the touched ones in some order. */
  ghost predicate WellFormed(tw: Twin, req: Request) {
    match req
    case ReqRegister(sensor, p) => sensor.id != "" && Fresh(tw.issued, sensor.resourceVersion, p)
    case ReqPatch(_, m, p, ops, mOrder, pOrder, _, mVersion, pVersion, _) =>
      && Paired(tw.issued, m, p)
      && Fresh(tw.issued, mVersion, pVersion)
      && ToSet(mOrder) == ToSet(pOrder) == Touched(ops)
      && |mOrder| == |pOrder| == |Touched(ops)|
    case ReqReport(_, _, _, _, _) => true
    case ReqDelete(_) => true
    case ReqQuery(_, collation) => Pg.IsCollation(collation)
  }

  // ---- the requests on which the stores part --------------------------------------------------

  /** The patched sensor would have a name that another sensor has. */
  predicate TakesName(st: Mem.Store, id: string, updated: SensorInfo) {
    exists other | other in st && other != id :: Mem.SameName(st[other].info, updated)
  }

  /** Postgres cannot hold what is registered: U+0000 anywhere, or a new id, namespace or name beyond 255 characters. */
  predicate RegisterDiverges(st: Mem.Store, sensor: SensorInfo) {
    || !Pg.IsTextInfo(sensor)
    || Pg.FittedNew(sensor).None?
    || (!Pg.IsShort(sensor) && Mem.Register(st, sensor).Ok?)
  }

  /** A patch with a current version, on which the stores part: too long, a taken name, or null labels. */
  predicate CurrentDiverges(st: Mem.Store, id: string, updated: SensorInfo, columns: set<Column>) {
    || Pg.Fitted(updated, columns) != Some(updated)
    || updated.labels.None?
    || TakesName(st, id, updated)
  }

  predicate PatchDiverges(st: Mem.Store, req: Request)
    requires req.ReqPatch? && req.id in st && PatchInfo(st[req.id].info, req.ops).Ok?
  {
    var updated, columns := PatchInfo(st[req.id].info, req.ops).value, Touched(req.ops);
    || !Pg.IsText(req.pExpected)
    || (exists c | c in columns :: !Pg.IsTextColumn(updated, c))
    || if req.mExpected == st[req.id].info.resourceVersion then CurrentDiverges(st, req.id, updated, columns)
       else req.early && Pg.Fitted(updated, columns).None?
  }

  /** All requests on which the stores part, told from the request and the memory store before it is served. */
  ghost predicate Diverges(st: Mem.Store, req: Request) {
    match req
    case ReqRegister(sensor, _) => RegisterDiverges(st, sensor)
    case ReqPatch(id, _, _, ops, _, _, _, _, _, _) =>
      && id != "" && ops != []
      && (!Pg.IsText(id) || (id in st && PatchInfo(st[id].info, ops).Ok? && PatchDiverges(st, req)))
    case ReqReport(id, name, namespace, data, _) =>
      || !IsTextLookup(id, name, namespace)
      || (Resolve(st, id, name, namespace).Ok? && !Pg.IsTextMap(data))
    case ReqDelete(id) => !Pg.IsText(id)
    case ReqQuery(filter, collation) => QueryParts(st, filter, collation)
  }

  /** Both stores answer alike, a query with the same possible answers, and hold the same data afterwards. */
  ghost predicate Agree(tw: Twin, req: Request) {
    && Outcome(ServeMem(tw.mem, req)) == Outcome(ServePg(tw.pg, req)) && Related(Next(tw, req))
    && (req.ReqQuery? ==> SameAnswers(tw.mem, tw.pg, req.filter, req.collation))
  }

  ghost function Next(tw: Twin, req: Request): Twin {
    var m, p := ServeMem(tw.mem, req), ServePg(tw.pg, req);
    var issued :=
      match req
      case ReqRegister(sensor, pVersion) => if m.Ok? then {(sensor.resourceVersion, pVersion)} else {}
      case ReqPatch(_, _, _, _, _, _, _, mVersion, pVersion, _) => if m.Ok? then {(mVersion, pVersion)} else {}
      case _ => {};
    Twin(Keep(tw.mem, m), Keep(tw.pg, p), tw.issued + issued)
  }

  // ---- patches see the same sensor on both sides ---------------------------------------------

  lemma PatchInfoReadsData(a: SensorState, b: SensorState, ops: seq<PatchOperation>)
    requires Data(a) == Data(b)
    ensures PatchInfo(a.info, ops) == PatchInfo(b.info, ops)
  {
    assert Data(a).info == Unversioned(a.info) && Data(b).info == Unversioned(b.info);
    PatchReadsUnversioned(a.info, b.info, ops);
  }

  // ---- one step ------------------------------------------------------------------------------

  lemma NameTakenAgrees(tw: Twin, info: SensorInfo)
    requires Related(tw)
    ensures Mem.NameTaken(tw.mem, info) <==> Mem.NameTaken(tw.pg, info)
  {
    forall id | id in tw.mem
      ensures Mem.SameName(tw.mem[id].info, info) <==> Mem.SameName(tw.pg[id].info, info)
    {
      SameDataNamesAlike(tw.mem[id], tw.pg[id], info, info);
    }
  }

  /** Whatever the memory store holds fits the columns of the table. */
  lemma HeldIsStorable(tw: Twin, id: string)
    requires Related(tw) && id in tw.mem
    ensures Pg.Storable(tw.mem[id].info) && Pg.IsText(id) && |id| <= Pg.MAX_VARCHAR
  {
    var m, p := tw.mem[id].info, tw.pg[id].info;
    assert Data(tw.mem[id]) == Data(tw.pg[id]);
    assert Data(tw.mem[id]).info == Unversioned(m) && Data(tw.pg[id]).info == Unversioned(p);
    SameStorable(m, p);
  }

  lemma SameStorable(a: SensorInfo, b: SensorInfo)
    requires Unversioned(a) == Unversioned(b) && Pg.Storable(b)
    ensures Pg.Storable(a)
  {
    var c := Unversioned(a);
    assert a.id == c.id == b.id && a.namespace == c.namespace == b.namespace && a.name == c.name == b.name;
    assert a.description == c.description == b.description && a.labels == c.labels == b.labels
           && a.rules == c.rules == b.rules;
    forall column | column in COLUMNS
      ensures Pg.IsTextColumn(a, column)
    {
      assert Pg.IsTextColumn(b, column);
    }
  }

  lemma FittedNewIff(sensor: SensorInfo)
    ensures Pg.FittedNew(sensor) == Some(sensor) <==> Pg.IsShort(sensor)
  {
  }

  /** What Postgres keeps of a new sensor cannot be told apart from it only if nothing was cut off. */
  lemma CutRegisterDiffers(tw: Twin, req: Request)
    requires Related(tw) && req.ReqRegister? && ServeMem(tw.mem, req).Ok? && ServePg(tw.pg, req).Ok?
    requires !Pg.IsShort(req.sensor)
    ensures !Related(Next(tw, req))
  {
    hide PatchInfo, Pg.IsTextInfo, Mem.StoreInv, Pg.TableInv, OneToOne, Mem.NameTaken;
    FittedNewIff(req.sensor);
    var next, sensor, fitted := Next(tw, req), req.sensor, Pg.FittedNew(req.sensor).value;
    assert sensor.id in next.mem && sensor.id !in tw.pg && next.pg.Keys == tw.pg.Keys + {fitted.id};
    if fitted.id == sensor.id {
      var m, p := Data(next.mem[sensor.id]).info, Data(next.pg[sensor.id]).info;
      assert m.name == sensor.name && p.name == fitted.name && m.namespace == sensor.namespace
             && p.namespace == fitted.namespace;
      assert Data(next.mem[sensor.id]) != Data(next.pg[sensor.id]);
    }
  }

  /** A refused registration of a sensor that is too long is refused alike by both stores. */
  lemma LongIsRefusedAlike(tw: Twin, sensor: SensorInfo, version: string)
    requires Related(tw) && Mem.Register(tw.mem, sensor).Err?
    requires Pg.IsTextInfo(sensor) && Pg.FittedNew(sensor).Some?
    ensures Pg.Register(tw.pg, sensor, version) == Err(Pg.Known(AlreadyExists))
  {
    hide Pg.IsTextInfo, Pg.TableInv, OneToOne, PatchInfo;
    var fitted := Pg.FittedNew(sensor).value;
    if sensor.id in tw.mem {
      HeldIsStorable(tw, sensor.id);
    } else {
      var id :| id in tw.mem && Mem.SameName(tw.mem[id].info, sensor);
      HeldIsStorable(tw, id);
      assert Mem.SameName(sensor, fitted);
      NameTakenAgrees(tw, sensor);
    }
  }

  lemma ShortRegisters(tw: Twin, req: Request)
    requires Related(tw) && WellFormed(tw, req) && req.ReqRegister? && ServeMem(tw.mem, req).Ok?
    requires Pg.IsTextInfo(req.sensor) && Pg.FittedNew(req.sensor) == Some(req.sensor)
    ensures ServePg(tw.pg, req).Ok? && Related(Next(tw, req))
  {
    hide PatchInfo, Pg.IsTextInfo, Pg.FittedNew, OneToOne;
    NameTakenAgrees(tw, req.sensor);
    Mem.StepKeepsInvIff(tw.mem, Mem.CallRegister(req.sensor));
    var m, p := Mem.NewState(req.sensor), Pg.NewRow(req.sensor, req.pVersion);
    Pg.NewRowIsStorable(req.sensor, req.pVersion);
    assert Next(tw, req) == Twin(tw.mem[req.sensor.id := m], tw.pg[req.sensor.id := p],
                                 tw.issued + {(m.info.resourceVersion, p.info.resourceVersion)});
    UpdateKeepsRelated(tw, req.sensor.id, m, p);
  }

  /** Registering agrees exactly when Postgres can hold the sensor as it is, or need not because both refuse it. */
  lemma RegisterAgreesIff(tw: Twin, req: Request)
    requires Related(tw) && WellFormed(tw, req) && req.ReqRegister?
    ensures Agree(tw, req) <==> !Diverges(tw.mem, req)
  {
    hide PatchInfo, Related, Pg.IsTextInfo, Pg.FittedNew, Pg.IsShort, Mem.StoreInv, Pg.TableInv;
    var sensor := req.sensor;
    NothingIssued(tw);
    if Pg.IsTextInfo(sensor) && Pg.FittedNew(sensor).Some? {
      if Mem.Register(tw.mem, sensor).Err? {
        LongIsRefusedAlike(tw, sensor, req.pVersion);
      } else if Pg.IsShort(sensor) {
        FittedNewIff(sensor);
        ShortRegisters(tw, req);
      } else if ServePg(tw.pg, req).Ok? {
        CutRegisterDiffers(tw, req);
      }
    }
  }

  lemma NothingIssued(tw: Twin)
    ensures Twin(tw.mem, tw.pg, tw.issued + {}) == tw
  {
    assert tw.issued + {} == tw.issued;
  }

  lemma MergedIsRelated(tw: Twin, id: string, data: map<string, string>, now: int)
    requires Related(tw) && id in tw.mem && Pg.IsTextMap(data)
    ensures var m, p := tw.mem[id], tw.pg[id];
            Related(tw.(mem := tw.mem[id := m.(reportedData := m.reportedData + data, lastReportedAt := now)],
                        pg := tw.pg[id := p.(lastReportedAt := now, reportedData := p.reportedData + data)]))
  {
    hide Pg.Storable, Pg.IsTextMap, OneToOne;
    Mem.StepKeepsInvIff(tw.mem, Mem.CallSendData(id, data, now));
    Pg.MergeIsText(tw.pg[id].reportedData, data);
    assert Data(tw.mem[id]) == Data(tw.pg[id]);
    assert Data(tw.mem[id]).reportedData == tw.mem[id].reportedData
           && Data(tw.pg[id]).reportedData == tw.pg[id].reportedData;
  }

  lemma SameFields(tw: Twin, id: string)
    requires Related(tw) && id in tw.mem
    ensures var m, p := tw.mem[id].info, tw.pg[id].info;
            m.id == p.id == id && m.name == p.name && m.namespace == p.namespace && Unversioned(m) == Unversioned(p)
  {
    hide Pg.Storable, OneToOne, Mem.UniqueNames;
    var m, p := Data(tw.mem[id]), Data(tw.pg[id]);
    assert m == p && m.info == Unversioned(tw.mem[id].info) && p.info == Unversioned(tw.pg[id].info);
    assert m.info.name == tw.mem[id].info.name && p.info.name == tw.pg[id].info.name;
    assert m.info.namespace == tw.mem[id].info.namespace && p.info.namespace == tw.pg[id].info.namespace;
  }

  /** Looking a sensor up by namespace and name may find the same in both stores. */
  lemma FindsAgree(tw: Twin, namespace: string, name: string, found: Option<SensorIdentity>)
    requires Related(tw)
    ensures Mem.MayFind(tw.mem, namespace, name, found) <==> Mem.MayFind(tw.pg, namespace, name, found)
  {
    hide Pg.Storable, OneToOne, Mem.StoreInv, Pg.TableInv, Data, Unversioned;
    forall id | id in tw.mem
      ensures Mem.GetIdentity(tw.mem, id) == Mem.GetIdentity(tw.pg, id)
      ensures tw.mem[id].info.name == tw.pg[id].info.name && tw.mem[id].info.namespace == tw.pg[id].info.namespace
    {
      SameFields(tw, id);
    }
  }

  /** By id or by name, both services resolve to the same sensor or the same error, if the text can be sent. */
  lemma ResolutionAgrees(tw: Twin, id: string, name: string, namespace: string)
    requires Related(tw)
    ensures Resolve(tw.mem, id, name, namespace) == Resolve(tw.pg, id, name, namespace)
    ensures PgResolve(tw.pg, id, name, namespace) == Resolve(tw.mem, id, name, namespace) <==>
            IsTextLookup(id, name, namespace)
    ensures PgResolve(tw.pg, id, name, namespace) == Err(Database) <==>
            if id != "" then '\0' in id
            else name != "" && namespace != "" && ('\0' in name || '\0' in namespace)
    ensures Resolve(tw.mem, id, name, namespace).Ok? ==> Resolve(tw.mem, id, name, namespace).value in tw.mem
  {
    hide Pg.Storable, OneToOne, Pg.TableInv, Data, Unversioned;
    if id != "" {
      if id in tw.mem {
        SameFields(tw, id);
      }
    } else {
      FindsAgree(tw, namespace, name, Find(tw.pg, namespace, name));
      Mem.FindIsInverseOfGet(tw.mem, namespace, name, Find(tw.mem, namespace, name));
    }
  }

  /** Reporting agrees exactly when no text sent holds U+0000, the data only counting when the sensor exists. */
  lemma ReportAgreesIff(tw: Twin, req: Request)
    requires Related(tw) && req.ReqReport?
    ensures Agree(tw, req) <==> !Diverges(tw.mem, req)
  {
    hide PatchInfo, Mem.StoreInv, Pg.TableInv, OneToOne, Data, Resolve;
    NothingIssued(tw);
    ResolutionAgrees(tw, req.id, req.name, req.namespace);
    var target := Resolve(tw.mem, req.id, req.name, req.namespace);
    if target.Ok? {
      HeldIsStorable(tw, target.value);
      if Pg.IsTextMap(req.data) {
        MergedIsRelated(tw, target.value, req.data, req.now);
      }
    }
  }

  /** Deleting agrees exactly when the id can be sent. */
  lemma DeleteAgreesIff(tw: Twin, req: Request)
    requires Related(tw) && req.ReqDelete?
    ensures Agree(tw, req) <==> !Diverges(tw.mem, req)
  {
    hide PatchInfo, Mem.StoreInv, OneToOne, Data, Pg.Storable, Pg.IsTextMap, Resolve;
    NothingIssued(tw);
    ResolutionAgrees(tw, req.id, "", "");
    var target := Resolve(tw.mem, req.id, "", "");
    if target.Ok? {
      HeldIsStorable(tw, target.value);
      Mem.StepKeepsInvIff(tw.mem, Mem.CallDelete(target.value));
    }
  }

  /**
   A query agrees exactly when Postgres takes its order and its texts and the pages of both stores are
   of one size, can hold the same sensors, and order those alike.
   */
  lemma QueryAgreesIff(tw: Twin, req: Request)
    requires Related(tw) && WellFormed(tw, req) && req.ReqQuery?
    ensures Agree(tw, req) <==> !Diverges(tw.mem, req)
  {
    hide PatchInfo, QueryParts, Mem.StoreInv, Pg.TableInv, OneToOne, Data, Unversioned, Pg.IsTextFilter, IsAnswer,
         Pg.MaySelect;
    NothingIssued(tw);
    forall id | id in tw.mem
      ensures Unversioned(tw.mem[id].info) == Unversioned(tw.pg[id].info)
    {
      SameFields(tw, id);
    }
    QueryAnswersAgreeIff(tw.mem, tw.pg, req.filter, req.collation);
  }

  lemma NoDuplicateClauses(columns: seq<Column>, touched: set<Column>)
    requires ToSet(columns) == touched && |columns| == |touched| && touched <= COLUMNS
    ensures !Pg.HasDuplicates(Pg.Clauses(columns))
  {
    AllClauses(columns);
    forall i, j | 0 <= i < j < |columns|
      ensures columns[i] != columns[j]
    {
      DuplicateShrinks(columns, i, j);
    }
  }

  lemma DuplicateShrinks<T>(s: seq<T>, i: nat, j: nat)
    requires i < j < |s|
    ensures s[i] == s[j] ==> |ToSet(s)| < |s|
  {
    var shorter := s[..j] + s[j + 1..];
    ToSetSize(shorter);
    if s[i] == s[j] {
      forall x | x in s
        ensures x in shorter
      {
        var k :| 0 <= k < |s| && s[k] == x;
        assert if k < j then shorter[k] == x else if k > j then shorter[k - 1] == x else shorter[i] == x;
      }
      assert ToSet(s) == ToSet(shorter);
    }
  }

  lemma {:induction false} ToSetSize<T>(s: seq<T>)
    ensures |ToSet(s)| <= |s|
    decreases |s|
  {
    if s == [] {
      assert ToSet(s) == {};
    } else {
      ToSetSize(s[1..]);
      assert ToSet(s) == ToSet(s[1..]) + {s[0]};
    }
  }

  lemma {:induction false} AllClauses(columns: seq<Column>)
    requires ToSet(columns) <= COLUMNS
    ensures Pg.Clauses(columns) == columns
    decreases |columns|
  {
    if columns != [] {
      assert columns[0] in ToSet(columns) && ToSet(columns[1..]) <= ToSet(columns);
      AllClauses(columns[1..]);
    }
  }

  /** Both stores turn the current info into the same patched data. */
  lemma SameWrite(m: SensorState, p: SensorState, ops: seq<PatchOperation>, mOrder: seq<Column>, pOrder: seq<Column>)
    requires Data(m) == Data(p) && m.info.labels.Some?
    requires PatchInfo(m.info, ops).Ok? && PatchInfo(m.info, ops).value.labels.Some?
    requires ToSet(mOrder) == ToSet(pOrder) == Touched(ops)
    ensures var updated := PatchInfo(m.info, ops).value;
            var mSet, pSet := SetColumns(m.info, Mem.CopyLabels(updated), mOrder), SetColumns(p.info, updated, pOrder);
            && Unversioned(mSet) == Unversioned(pSet)
            && Mem.SameName(mSet, updated) && Mem.SameName(pSet, updated)
  {
    var updated := PatchInfo(m.info, ops).value;
    assert Mem.CopyLabels(updated) == updated;
    SparseWriteIsFullWrite(m.info, ops, mOrder);
    PatchInfoReadsData(m, p, ops);
    SparseWriteIsFullWrite(p.info, ops, pOrder);
    assert Data(m).info == Unversioned(m.info);
    assert Data(p).info == Unversioned(p.info);
    FullWriteData(m.info, p.info, updated);
  }

  lemma FullWriteData(a: SensorInfo, b: SensorInfo, updated: SensorInfo)
    requires Unversioned(a) == Unversioned(b)
    ensures Unversioned(FullWrite(a, updated))
         == Unversioned(FullWrite(b, updated))
    ensures Mem.SameName(FullWrite(a, updated), updated)
  {
    var c := Unversioned(a);
    assert a.id == c.id == b.id && a.registeredAt == c.registeredAt == b.registeredAt;
  }

  /** Whether both stores know the version the client names, they know it for the same sensors. */
  lemma VersionsAgree(tw: Twin, id: string, m: string, p: string)
    requires Related(tw) && id in tw.mem && Paired(tw.issued, m, p)
    ensures tw.mem[id].info.resourceVersion == m <==> tw.pg[id].info.resourceVersion == p
  {
    var pair := (tw.mem[id].info.resourceVersion, tw.pg[id].info.resourceVersion);
    assert pair in tw.issued;
    if (m, p) in tw.issued {
      assert pair.0 == (m, p).0 <==> pair.1 == (m, p).1;
    }
  }

  /** A patch of a sensor that exists, reduced to its write. */
  lemma PatchReduces(tw: Twin, req: Request, updated: SensorInfo)
    requires Related(tw) && WellFormed(tw, req) && req.ReqPatch? && req.id != "" && req.ops != []
    requires req.id in tw.mem && PatchInfo(tw.mem[req.id].info, req.ops) == Ok(updated)
    ensures PatchInfo(tw.pg[req.id].info, req.ops) == Ok(updated)
    ensures ToSet(req.pOrder) == Touched(req.ops) <= COLUMNS && req.pOrder != []
    ensures req.mExpected == tw.mem[req.id].info.resourceVersion <==>
            req.pExpected == tw.pg[req.id].info.resourceVersion
    ensures ServeMem(tw.mem, req) ==
            Lift(Mem.Patch(tw.mem, req.id, req.mExpected, updated, req.mOrder, req.now, req.mVersion))
    ensures ServePg(tw.pg, req) == PgWrites(tw.pg, req, updated)
  {
    hide PatchInfo, Touched, OneToOne, Mem.StoreInv, Mem.Patch, Pg.Storable, Pg.Fitted, Pg.IsTextColumn, Pg.Update,
         SetColumns;
    var m, p := tw.mem[req.id], tw.pg[req.id];
    assert Data(Pg.Scanned(p)) == Data(p);
    PatchInfoReadsData(m, p, req.ops);
    PatchInfoReadsData(m, Pg.Scanned(p), req.ops);
    PatchedColumns(m.info, req.ops);
    assert req.pOrder != [] by {
      assert ToSet<Column>([]) == {};
    }
    NoDuplicateClauses(req.pOrder, Touched(req.ops));
    VersionsAgree(tw, req.id, req.mExpected, req.pExpected);
    HeldIsStorable(tw, req.id);
    assert forall c :: c in req.pOrder <==> c in ToSet(req.pOrder);
  }

  /** What Postgres answers to the write of a patch. */
  function PgWrites(t: Pg.Table, req: Request, updated: SensorInfo): Result<Pg.Table, ServiceError>
    requires req.ReqPatch? && req.id in t
  {
    var columns := Touched(req.ops);
    var current := req.pExpected == t[req.id].info.resourceVersion;
    var fitted := Pg.Fitted(updated, columns);
    if !Pg.IsText(req.pExpected) || exists c | c in columns :: !Pg.IsTextColumn(updated, c) then Err(Database)
    else if fitted.None? && (req.early || current) then Err(Database)
    else if !current then Err(Storage(VersionMismatch))
    else LiftDb(Pg.Update(t, req.id, fitted.value, req.pOrder, req.now, req.pVersion))
  }

  /**
   A patch leaves the stores agreeing exactly when it takes no other sensor's name, puts no null in
   place of the labels and sends only text that the columns can hold.
   */
  lemma PatchAgreesIff(tw: Twin, req: Request)
    requires Related(tw) && WellFormed(tw, req) && req.ReqPatch?
    ensures Agree(tw, req) <==> !Diverges(tw.mem, req)
  {
    hide PatchInfo, Touched, Related, PatchDiverges, PgWrites, Pg.Patch, Mem.Patch;
    NothingIssued(tw);
    KeysAgree(tw);
    if req.id != "" && req.ops != [] && req.id in tw.mem {
      HeldIsStorable(tw, req.id);
      SameRejection(tw, req);
      if PatchInfo(tw.mem[req.id].info, req.ops).Ok? {
        WriteAgreesIff(tw, req, PatchInfo(tw.mem[req.id].info, req.ops).value);
      }
    }
  }

  lemma KeysAgree(tw: Twin)
    requires Related(tw)
    ensures tw.mem.Keys == tw.pg.Keys
  {
  }

  lemma SameRejection(tw: Twin, req: Request)
    requires Related(tw) && req.ReqPatch? && req.id in tw.mem
    ensures PatchInfo(Pg.Scanned(tw.pg[req.id]).info, req.ops) == PatchInfo(tw.mem[req.id].info, req.ops)
  {
    hide PatchInfo;
    assert Data(Pg.Scanned(tw.pg[req.id])) == Data(tw.pg[req.id]);
    PatchInfoReadsData(tw.mem[req.id], Pg.Scanned(tw.pg[req.id]), req.ops);
  }

  lemma WriteAgreesIff(tw: Twin, req: Request, updated: SensorInfo)
    requires Related(tw) && WellFormed(tw, req) && req.ReqPatch? && req.id != "" && req.ops != []
    requires req.id in tw.mem && PatchInfo(tw.mem[req.id].info, req.ops) == Ok(updated)
    ensures Agree(tw, req) <==> !PatchDiverges(tw.mem, req)
  {
    hide PatchInfo, Touched, Related, Pg.Update, Pg.Fitted, Pg.IsTextColumn, CurrentDiverges, Mem.PatchedInfo;
    PatchReduces(tw, req, updated);
    NothingIssued(tw);
    var columns := Touched(req.ops);
    if req.mExpected == tw.mem[req.id].info.resourceVersion
       && Pg.IsText(req.pExpected) && forall c | c in columns :: Pg.IsTextColumn(updated, c) {
      if Pg.Fitted(updated, columns).Some? {
        CurrentAgreesIff(tw, req, updated);
      } else {
        NoFitDiverges(tw.mem, req.id, updated, columns);
      }
    }
  }

  lemma NoFitDiverges(st: Mem.Store, id: string, updated: SensorInfo, columns: set<Column>)
    requires Pg.Fitted(updated, columns).None?
    ensures CurrentDiverges(st, id, updated, columns)
  {
  }

  lemma SameDataNamesAlike(m: SensorState, p: SensorState, a: SensorInfo, b: SensorInfo)
    requires Data(m) == Data(p) && Mem.SameName(a, b)
    ensures Mem.SameName(m.info, a) <==> Mem.SameName(p.info, b)
  {
    assert Data(m).info.name == m.info.name && Data(p).info.name == p.info.name;
    assert Data(m).info.namespace == m.info.namespace && Data(p).info.namespace == p.info.namespace;
  }

  /** A patch with a current version and text that can be sent. */
  ghost predicate IsCurrent(tw: Twin, req: Request, updated: SensorInfo) {
    && Related(tw) && WellFormed(tw, req) && req.ReqPatch? && req.id != "" && req.ops != []
    && req.id in tw.mem && PatchInfo(tw.mem[req.id].info, req.ops) == Ok(updated)
    && req.mExpected == tw.mem[req.id].info.resourceVersion
    && Pg.IsText(req.pExpected) && (forall c | c in Touched(req.ops) :: Pg.IsTextColumn(updated, c))
    && Pg.Fitted(updated, Touched(req.ops)).Some?
  }

  lemma CurrentAgreesIff(tw: Twin, req: Request, updated: SensorInfo)
    requires IsCurrent(tw, req, updated)
    ensures Agree(tw, req) <==> !CurrentDiverges(tw.mem, req.id, updated, Touched(req.ops))
  {
    hide PatchInfo, Touched, Related, Pg.Update, Pg.Fitted, Pg.IsTextColumn, SetColumns, TakesName, WellFormed,
         ServeMem, ServePg, Next;
    CurrentIsServed(tw, req, updated);
    var columns := Touched(req.ops);
    if Pg.Fitted(updated, columns) != Some(updated) {
      if ServePg(tw.pg, req).Ok? {
        CutPatchDiffers(tw, req, updated);
      }
    } else if updated.labels.None? {
      if ServePg(tw.pg, req).Ok? {
        NullPatchDiffers(tw, req, updated);
      }
    } else {
      CurrentCommits(tw, req, updated);
    }
  }

  /** The memory store commits, and Postgres does what the update does. */
  lemma CurrentIsServed(tw: Twin, req: Request, updated: SensorInfo)
    requires IsCurrent(tw, req, updated)
    ensures req.id in tw.pg && req.pExpected == tw.pg[req.id].info.resourceVersion
    ensures ServeMem(tw.mem, req) == Ok(tw.mem[req.id := CommittedMem(tw.mem[req.id], updated, req)])
    ensures var fitted := Pg.Fitted(updated, Touched(req.ops)).value;
            ServePg(tw.pg, req) == LiftDb(Pg.Update(tw.pg, req.id, fitted, req.pOrder, req.now, req.pVersion))
    ensures var fitted := Pg.Fitted(updated, Touched(req.ops)).value;
            ServePg(tw.pg, req).Ok? ==>
              Next(tw, req) == Twin(tw.mem[req.id := CommittedMem(tw.mem[req.id], updated, req)],
                                    tw.pg[req.id := CommittedPg(tw.pg[req.id], fitted, req)],
                                    tw.issued + {(req.mVersion, req.pVersion)})
  {
    hide PatchInfo, Touched, Pg.Fitted, Pg.IsTextColumn, SetColumns, Mem.PatchedInfo, Pg.Patch, Mem.StoreInv,
         Pg.TableInv, OneToOne;
    PatchReduces(tw, req, updated);
  }

  /** A name or namespace that was cut off is not the one that the memory store holds. */
  lemma CutPatchDiffers(tw: Twin, req: Request, updated: SensorInfo)
    requires IsCurrent(tw, req, updated) && ServePg(tw.pg, req).Ok?
    requires Pg.Fitted(updated, Touched(req.ops)) != Some(updated)
    ensures !Related(Next(tw, req))
  {
    hide PatchInfo, Touched, Pg.IsTextColumn, SetColumns, Mem.StoreInv, Pg.TableInv, OneToOne, ServeMem, ServePg,
         Pg.Update;
    PatchReduces(tw, req, updated);
    CurrentIsServed(tw, req, updated);
    var next, id, fitted := Next(tw, req), req.id, Pg.Fitted(updated, Touched(req.ops)).value;
    SetColumnsIsOverlay(tw.mem[id].info, Mem.CopyLabels(updated), req.mOrder);
    SetColumnsIsOverlay(tw.pg[id].info, fitted, req.pOrder);
    var m, p := next.mem[id], next.pg[id];
    assert Data(m).info.name == m.info.name && Data(m).info.namespace == m.info.namespace;
    assert Data(p).info.name == p.info.name && Data(p).info.namespace == p.info.namespace;
    assert Data(m) != Data(p);
  }

  lemma NullPatchDiffers(tw: Twin, req: Request, updated: SensorInfo)
    requires IsCurrent(tw, req, updated) && ServePg(tw.pg, req).Ok? && updated.labels.None?
    requires Pg.Fitted(updated, Touched(req.ops)) == Some(updated)
    ensures var next := Next(tw, req);
            && req.id in next.mem && next.mem[req.id].info.labels == Some(map[])
            && req.id in next.pg && next.pg[req.id].info.labels == None
    ensures !Related(Next(tw, req))
  {
    hide PatchInfo, Touched, Pg.IsTextColumn, SetColumns, Mem.UniqueNames, Pg.TableInv, OneToOne, ServeMem, ServePg,
         Pg.Update, Pg.Fitted;
    PatchReduces(tw, req, updated);
    CurrentIsServed(tw, req, updated);
    var next, id := Next(tw, req), req.id;
    var m, p := tw.mem[id], tw.pg[id];
    assert Data(m) == Data(p) && Data(m).info.labels == m.info.labels && Data(p).info.labels == p.info.labels;
    LabelsAfter(m.info, req.ops, req.mOrder);
    LabelsAfter(p.info, req.ops, req.pOrder);
    assert Data(next.mem[id]).info.labels == Some(map[]) && Data(next.pg[id]).info.labels == None;
  }

  /** The case that the columns can hold: only a taken name makes a difference. */
  lemma CurrentCommits(tw: Twin, req: Request, updated: SensorInfo)
    requires IsCurrent(tw, req, updated) && updated.labels.Some?
    requires Pg.Fitted(updated, Touched(req.ops)) == Some(updated)
    ensures ServePg(tw.pg, req).Ok? <==> !TakesName(tw.mem, req.id, updated)
    ensures !TakesName(tw.mem, req.id, updated) ==> Related(Next(tw, req))
  {
    hide PatchInfo, Touched, SetColumns, Unversioned, OneToOne, Mem.UniqueNames, Pg.TableInv, ServeMem, ServePg,
         Pg.Fitted, Pg.IsTextColumn, Next;
    var id, m, p := req.id, tw.mem[req.id], tw.pg[req.id];
    CurrentIsServed(tw, req, updated);
    SameWrite(m, p, req.ops, req.mOrder, req.pOrder);
    var pSet := SetColumns(p.info, updated, req.pOrder);
    forall other | other in tw.mem && other != id
      ensures Mem.SameName(tw.pg[other].info, pSet) <==> Mem.SameName(tw.mem[other].info, updated)
    {
      assert Data(tw.mem[other]) == Data(tw.pg[other]);
      SameDataNamesAlike(tw.mem[other], tw.pg[other], updated, pSet);
    }
    if !TakesName(tw.mem, id, updated) {
      CommitKeepsRelated(tw, req, updated);
    }
  }

  /** Committing keeps the invariant of the memory store. */
  lemma CommitKeepsInv(tw: Twin, req: Request, updated: SensorInfo)
    requires IsCurrent(tw, req, updated) && updated.labels.Some? && !TakesName(tw.mem, req.id, updated)
    ensures Mem.StoreInv(tw.mem[req.id := CommittedMem(tw.mem[req.id], updated, req)])
  {
    hide PatchInfo, Touched, SetColumns, Pg.TableInv, OneToOne, Pg.Fitted, Pg.IsTextColumn;
    var call := Mem.CallPatch(req.id, req.mExpected, updated, req.mOrder, req.now, req.mVersion);
    SameWrite(tw.mem[req.id], tw.mem[req.id], req.ops, req.mOrder, req.mOrder);
    Mem.StepKeepsInvIff(tw.mem, call);
    assert Mem.After(tw.mem, call) == tw.mem[req.id := CommittedMem(tw.mem[req.id], updated, req)];
  }

  /** And that of the table. */
  lemma CommitKeepsTable(tw: Twin, req: Request, updated: SensorInfo)
    requires IsCurrent(tw, req, updated) && Pg.Fitted(updated, Touched(req.ops)) == Some(updated)
    ensures req.id in tw.pg
    ensures Pg.TableInv(tw.pg[req.id := CommittedPg(tw.pg[req.id], updated, req)])
  {
    hide PatchInfo, Touched, SetColumns, Mem.StoreInv, OneToOne, Pg.Fitted, Pg.IsTextColumn, Pg.Storable, Pg.IsTextMap;
    PatchReduces(tw, req, updated);
    var p := tw.pg[req.id];
    assert forall c :: c in req.pOrder <==> c in ToSet(req.pOrder);
    Pg.UpdatedIsStorable(p.info, updated, req.pOrder);
    var written := SetColumns(p.info, updated, req.pOrder);
    Mem.SetColumnsKeeps(p.info, updated, req.pOrder);
    Pg.StampedIsStorable(written, req.pVersion, Pg.Greatest(p.info.lastSpecUpdatedAt, req.now));
  }

  /** What a committed patch leaves in either store. */
  function CommittedMem(m: SensorState, updated: SensorInfo, req: Request): SensorState
    requires req.ReqPatch?
  {
    m.(info := Mem.PatchedInfo(m.info, updated, req.mOrder, req.now, req.mVersion))
  }

  function CommittedPg(p: SensorState, updated: SensorInfo, req: Request): SensorState
    requires req.ReqPatch?
  {
    p.(info := SetColumns(p.info, updated, req.pOrder).(
         resourceVersion := req.pVersion, lastSpecUpdatedAt := Pg.Greatest(p.info.lastSpecUpdatedAt, req.now)))
  }

  lemma CommitKeepsRelated(tw: Twin, req: Request, updated: SensorInfo)
    requires IsCurrent(tw, req, updated) && updated.labels.Some? && !TakesName(tw.mem, req.id, updated)
    requires Pg.Fitted(updated, Touched(req.ops)) == Some(updated)
    requires ServePg(tw.pg, req).Ok?
    ensures Related(Next(tw, req))
  {
    hide PatchInfo, Touched, SetColumns, ServeMem, ServePg, Next, Mem.UniqueNames, Pg.TableInv, OneToOne, Pg.Fitted,
         Pg.IsTextColumn, Pg.Update;
    var id, m, p := req.id, tw.mem[req.id], tw.pg[req.id];
    CurrentIsServed(tw, req, updated);
    CommitKeepsInv(tw, req, updated);
    CommitKeepsTable(tw, req, updated);
    SameWrite(m, p, req.ops, req.mOrder, req.pOrder);
    SameData(m, p, CommittedMem(m, updated, req), CommittedPg(p, updated, req));
    UpdateKeepsRelated(tw, id, CommittedMem(m, updated, req), CommittedPg(p, updated, req));
  }

  lemma SameData(m: SensorState, p: SensorState, mNew: SensorState, pNew: SensorState)
    requires Data(m) == Data(p)
    requires Unversioned(mNew.info) == Unversioned(pNew.info)
    requires mNew.reportedData == m.reportedData && mNew.lastReportedAt == m.lastReportedAt
    requires pNew.reportedData == p.reportedData && pNew.lastReportedAt == p.lastReportedAt
    ensures Data(mNew) == Data(pNew)
  {
    assert Data(m).reportedData == m.reportedData && Data(p).reportedData == p.reportedData;
    assert Data(m).lastReportedAt == m.lastReportedAt && Data(p).lastReportedAt == p.lastReportedAt;
  }

  lemma UpdateKeepsRelated(tw: Twin, id: string, m: SensorState, p: SensorState)
    requires Related(tw) && Data(m) == Data(p)
    requires Mem.StoreInv(tw.mem[id := m]) && Pg.TableInv(tw.pg[id := p])
    requires Fresh(tw.issued, m.info.resourceVersion, p.info.resourceVersion)
    ensures var issued := tw.issued + {(m.info.resourceVersion, p.info.resourceVersion)};
            Related(Twin(tw.mem[id := m], tw.pg[id := p], issued))
  {
  }

  // ---- whole runs ----------------------------------------------------------------------------

  /** Both services start from empty stores. */
  const START := Twin(map[], map[], {})

  ghost function RunTwin(tw: Twin, reqs: seq<Request>): Twin
    decreases |reqs|
  {
    if reqs == [] then tw else RunTwin(Next(tw, reqs[0]), reqs[1..])
  }

  /** What the two clients see, request by request. */
  ghost function Outcomes(tw: Twin, reqs: seq<Request>): seq<(Result<(), ServiceError>, Result<(), ServiceError>)>
    decreases |reqs|
  {
    if reqs == [] then []
    else [(Outcome(ServeMem(tw.mem, reqs[0])), Outcome(ServePg(tw.pg, reqs[0])))] +
         Outcomes(Next(tw, reqs[0]), reqs[1..])
  }

  /** Requests that the service can make when they come. */
  ghost predicate AllWellFormed(tw: Twin, reqs: seq<Request>)
    decreases |reqs|
  {
    reqs == [] || (WellFormed(tw, reqs[0]) && AllWellFormed(Next(tw, reqs[0]), reqs[1..]))
  }

  /** No request of a run is one on which the stores part. */
  ghost predicate NeverDiverges(st: Mem.Store, reqs: seq<Request>)
    decreases |reqs|
  {
    reqs == [] || (!Diverges(st, reqs[0]) && NeverDiverges(Keep(st, ServeMem(st, reqs[0])), reqs[1..]))
  }

  /** Over a whole run the stores answer alike, request by request, and hold the same data after each. */
  ghost predicate AgreeThroughout(tw: Twin, reqs: seq<Request>)
    decreases |reqs|
  {
    reqs == [] || (Agree(tw, reqs[0]) && AgreeThroughout(Next(tw, reqs[0]), reqs[1..]))
  }

  /** One request leaves the stores agreeing exactly when it is none of those on which they part. */
  lemma StepAgreesIff(tw: Twin, req: Request)
    requires Related(tw) && WellFormed(tw, req)
    ensures Agree(tw, req) <==> !Diverges(tw.mem, req)
  {
    hide Related, WellFormed, Agree, Diverges;
    match req
    case ReqRegister(_, _) => RegisterAgreesIff(tw, req);
    case ReqPatch(_, _, _, _, _, _, _, _, _, _) => PatchAgreesIff(tw, req);
    case ReqReport(_, _, _, _, _) => ReportAgreesIff(tw, req);
    case ReqDelete(_) => DeleteAgreesIff(tw, req);
    case ReqQuery(_, _) => QueryAgreesIff(tw, req);
  }

  /** Over whole runs the stores agree throughout exactly when no request is one on which they part. */
  lemma {:induction false} RunsAgreeIff(tw: Twin, reqs: seq<Request>)
    requires Related(tw) && AllWellFormed(tw, reqs)
    ensures AgreeThroughout(tw, reqs) <==> NeverDiverges(tw.mem, reqs)
    decreases |reqs|
  {
    hide Related, WellFormed, Diverges, ServeMem, ServePg;
    if reqs != [] {
      StepAgreesIff(tw, reqs[0]);
      if Agree(tw, reqs[0]) {
        RunsAgreeIff(Next(tw, reqs[0]), reqs[1..]);
      }
    }
  }

  /**
   What agreeing throughout means for a run from empty stores: the answers to queries, all outcomes, the
   data at the end.
   */
  lemma RunsFromStartAgree(reqs: seq<Request>)
    requires AllWellFormed(START, reqs)
    ensures AgreeThroughout(START, reqs) <==> NeverDiverges(map[], reqs)
    ensures NeverDiverges(map[], reqs) ==>
              && (forall o | o in Outcomes(START, reqs) :: o.0 == o.1)
              && (forall i | 0 <= i < |reqs| && reqs[i].ReqQuery? :: SameAnswersAt(START, reqs, i))
              && RunTwin(START, reqs).mem.Keys == RunTwin(START, reqs).pg.Keys
              && forall id | id in RunTwin(START, reqs).mem ::
                   Data(RunTwin(START, reqs).mem[id]) == Data(RunTwin(START, reqs).pg[id])
  {
    hide WellFormed, Diverges, ServeMem, ServePg, Data, SameAnswersAt;
    RunsAgreeIff(START, reqs);
    if NeverDiverges(map[], reqs) {
      AgreeingEnds(START, reqs);
      forall i | 0 <= i < |reqs| && reqs[i].ReqQuery?
        ensures SameAnswersAt(START, reqs, i)
      {
        AgreesAt(START, reqs, i);
      }
    }
  }

  /** A query of a run meets the same possible answers in both stores. */
  ghost predicate SameAnswersAt(tw: Twin, reqs: seq<Request>, i: nat)
    requires i < |reqs| && reqs[i].ReqQuery?
  {
    var before := RunTwin(tw, reqs[..i]);
    SameAnswers(before.mem, before.pg, reqs[i].filter, reqs[i].collation)
  }

  lemma {:induction false} AgreesAt(tw: Twin, reqs: seq<Request>, i: nat)
    requires AgreeThroughout(tw, reqs) && i < |reqs| && reqs[i].ReqQuery?
    ensures SameAnswersAt(tw, reqs, i)
    decreases i
  {
    hide Related, WellFormed, ServeMem, ServePg, Next, SameAnswers;
    if i > 0 {
      AgreesAt(Next(tw, reqs[0]), reqs[1..], i - 1);
      assert reqs[..i][1..] == reqs[1..][..i - 1];
    }
  }

  lemma {:induction false} AgreeingEnds(tw: Twin, reqs: seq<Request>)
    requires Related(tw) && AgreeThroughout(tw, reqs)
    ensures forall o | o in Outcomes(tw, reqs) :: o.0 == o.1
    ensures Related(RunTwin(tw, reqs))
    decreases |reqs|
  {
    hide Related, WellFormed, Diverges, ServeMem, ServePg;
    if reqs != [] {
      AgreeingEnds(Next(tw, reqs[0]), reqs[1..]);
    }
  }

  /** Filters without wildcards and uncovered empty label values agree in any order that means the same. */
  lemma SelectionsAgree(tw: Twin, filter: QueryFilter, collation: Pg.Collation)
    requires Related(tw) && Pg.IsCollation(collation)
    requires IsSameFilter(filter) && SameOrder(filter.orderBy, collation)
    ensures Agree(tw, ReqQuery(filter, collation))
  {
    hide PatchInfo, Related, Agree, QueryParts, IsSameFilter, SameOrder;
    SameQueriesAgree(tw.mem, filter, collation);
    QueryAgreesIff(tw, ReqQuery(filter, collation));
  }

  /** The state of a sensor does not depend on what the stores keep in their own way. */
  lemma StateReadsData<P, T>(tw: Twin, engine: Engine<P, T>, now: int, id: string)
    requires Related(tw)
    ensures StateIn(engine, tw.mem, now, id) == StateIn(engine, tw.pg, now, id)
  {
    hide PatchInfo, ConditionsOf, ApplyOverrides, Pg.Storable, OneToOne, Mem.UniqueNames;
    if id in tw.mem {
      var m, p, c := tw.mem[id], tw.pg[id], Data(tw.mem[id]);
      assert c == Data(p) && c.info == Unversioned(m.info) && c.info == Unversioned(p.info);
      assert m.info.rules == c.info.rules == p.info.rules && m.info.labels == c.info.labels == p.info.labels;
      assert m.info.gracefulPeriod == c.info.gracefulPeriod == p.info.gracefulPeriod;
      assert m.info.failurePeriod == c.info.failurePeriod == p.info.failurePeriod;
      assert m.reportedData == c.reportedData == p.reportedData;
      assert m.lastReportedAt == c.lastReportedAt == p.lastReportedAt;
    }
  }

  /**
   What is asked for by state is then the same as well: any page of the one store is a page of the other,
   and keeps the same.
   */
  lemma StateQueriesAgree<P, T>(tw: Twin, filter: QueryFilter, collation: Pg.Collation, page: seq<string>,
                                engine: Engine<P, T>, now: int, wanted: seq<State>)
    requires Related(tw) && Agree(tw, ReqQuery(filter, collation)) && IsAnswer(tw.mem, filter, page)
    ensures Pg.MaySelect(tw.pg, filter, collation, page)
    ensures KeepStates(page, StatesIn(engine, tw.mem, now), wanted) ==
            KeepStates(page, StatesIn(engine, tw.pg, now), wanted)
  {
    hide Related, ServeMem, ServePg, Next, KeepStates, Pg.MaySelect, IsAnswer, StateIn, Pg.IsTextFilter;
    forall id | id in page
      ensures StateIn(engine, tw.mem, now, id) == StateIn(engine, tw.pg, now, id)
    {
      StateReadsData(tw, engine, now, id);
    }
    KeepStatesReads(page, StatesIn(engine, tw.mem, now), StatesIn(engine, tw.pg, now), wanted);
  }

  // ---- the one way in which the documents can differ -------------------------------------------

  /** A request that distinguishes an empty object from a null. */
  const TEST_LABELS := PatchOperation("test", "/metadata/labels", JsonText(JObject(map[])))

  lemma TestLabelsPath()
    ensures ValidatePath("/metadata/labels")
    ensures ParsePointer("/metadata/labels") == Some(["metadata", "labels"])
  {
    var path := "/metadata/labels";
    assert path in PATCHABLE_PATHS;
    assert path == "/" + "metadata" + "/" + "labels";
    ExactPointer(path, "metadata", "labels");
  }

  lemma SingleOp(doc: Json, op: PatchOperation, wire: WireOp)
    requires BuildOp(op) == Some(wire)
    ensures BuildOps([op]) == Some([wire])
    ensures ApplyOps(doc, [wire]) == ApplyOp(doc, wire)
  {
    assert [op][1..] == [] && [wire][1..] == [];
    assert [wire] + [] == [wire];
  }

  lemma TestLabelsApplies(info: SensorInfo)
    ensures ValidatePath(TEST_LABELS.path)
    ensures BuildOps([TEST_LABELS]).Some?
    ensures ApplyOps(EncodeInfo(info), BuildOps([TEST_LABELS]).value) ==
            EditAt(EncodeInfo(info), ["metadata", "labels"], Test(JObject(map[])))
  {
    hide ValidatePath, ParsePointer, EncodeInfo, EditAt, ApplyOps, BuildOps;
    TestLabelsPath();
    SingleOp(EncodeInfo(info), TEST_LABELS, WireOp("test", "/metadata/labels", Some(JObject(map[])), None));
  }

  lemma TestLabelsOutcome(info: SensorInfo)
    requires info.labels == None || info.labels == Some(map[])
    ensures PatchInfo(info, [TEST_LABELS]).Ok? <==> info.labels == Some(map[])
  {
    hide ValidatePath, ParsePointer, EncodeInfo, EditAt, ApplyOps, BuildOps, DecodeInfo;
    TestLabelsApplies(info);
    TestLabelsEdit(info);
    InfoRoundTrip(info);
  }

  lemma TestLabelsEdit(info: SensorInfo)
    requires info.labels == None || info.labels == Some(map[])
    ensures EditAt(EncodeInfo(info), ["metadata", "labels"], Test(JObject(map[]))) ==
            if info.labels == Some(map[]) then Some(EncodeInfo(info)) else None
  {
    var doc, p := EncodeInfo(info), ["metadata", "labels"];
    var metadata := doc.members["metadata"];
    assert p[1..] == ["labels"];
    assert EncodeLabels(info.labels) == if info.labels == None then JNull else JObject(map[]);
    assert doc.members["metadata" := metadata] == doc.members;
  }

  /**
   Two infos that differ only in a nil against an empty label map are patched alike by every request
   exactly when both are nil or both are not: Postgres keeps a null that the memory store replaces.
   */
  lemma PatchedAlikeIffSameLabels(info: SensorInfo, labels: Labels)
    requires LabelMap(info.labels) == LabelMap(labels)
    ensures (forall ops :: PatchInfo(info, ops) == PatchInfo(info.(labels := labels), ops)) <==> info.labels == labels
  {
    if info.labels == labels {
      assert info.(labels := labels) == info;
    } else {
      TestLabelsOutcome(info);
      TestLabelsOutcome(info.(labels := labels));
    }
  }

  /** The request that tells the stores apart once a patch has put null in place of the labels. */
  function TestRequest(req: Request, mVersion: string, pVersion: string): Request
    requires req.ReqPatch?
  {
    ReqPatch(req.id, req.mVersion, req.pVersion, [TEST_LABELS], [ColLabels], [ColLabels], req.now, mVersion, pVersion,
             req.early)
  }

  lemma LabelsAfter(info: SensorInfo, ops: seq<PatchOperation>, order: seq<Column>)
    requires PatchInfo(info, ops).Ok? && PatchInfo(info, ops).value.labels.None? && info.labels.Some?
    requires ToSet(order) == Touched(ops)
    ensures SetColumns(info, Mem.CopyLabels(PatchInfo(info, ops).value), order).labels == Some(map[])
    ensures SetColumns(info, PatchInfo(info, ops).value, order).labels == None
  {
    hide PatchInfo, Touched, SetColumns;
    var updated := PatchInfo(info, ops).value;
    if ColLabels !in Touched(ops) {
      UntouchedColumnsSame(info, ops, ColLabels);
    }
    SetColumnsIsOverlay(info, Mem.CopyLabels(updated), order);
    SetColumnsIsOverlay(info, updated, order);
  }

  /** After a patch that puts null in place of the labels, that request is answered differently. */
  lemma NullLabelsTellStoresApart(tw: Twin, req: Request, updated: SensorInfo, mVersion: string, pVersion: string)
    requires IsCurrent(tw, req, updated) && updated.labels.None? && ServePg(tw.pg, req).Ok?
    requires Pg.Fitted(updated, Touched(req.ops)) == Some(updated)
    ensures var next, test := Next(tw, req), TestRequest(req, mVersion, pVersion);
            ServeMem(next.mem, test).Ok? && ServePg(next.pg, test).Err?
  {
    hide PatchInfo, Touched, SetColumns, Related, Pg.Fitted, Pg.IsTextColumn, Pg.Patch;
    NullPatchDiffers(tw, req, updated);
    CurrentIsServed(tw, req, updated);
    var next := Next(tw, req);
    TestLabelsOutcome(next.mem[req.id].info);
    TestLabelsOutcome(Pg.Scanned(next.pg[req.id]).info);
  }

  // ---- runs from the start that end in different answers ----------------------------------------

  /** The first sensor, registered in both stores. */
  function Registered(sensor: SensorInfo): Twin {
    Twin(map[sensor.id := Mem.NewState(sensor)], map[sensor.id := Pg.NewRow(sensor, "p")],
         {(sensor.resourceVersion, "p")})
  }

  lemma RegisteredFirst(sensor: SensorInfo)
    requires sensor.id != "" && Pg.Storable(sensor)
    ensures WellFormed(START, ReqRegister(sensor, "p"))
    ensures Next(START, ReqRegister(sensor, "p")) == Registered(sensor) && Related(Registered(sensor))
  {
    hide PatchInfo, Pg.IsTextInfo;
    FittedNewIff(sensor);
    ShortRegisters(START, ReqRegister(sensor, "p"));
    assert map[][sensor.id := Mem.NewState(sensor)] == Registered(sensor).mem;
    assert {} + {(sensor.resourceVersion, "p")} == Registered(sensor).issued;
  }

  /** The patch of that sensor which replaces one field. */
  function ReplaceRequest(sensor: SensorInfo, column: Column, updates: SensorInfo): Request
    requires column in COLUMNS
  {
    ReqPatch(sensor.id, sensor.resourceVersion, "p", ReplaceColumns([column], updates), [column], [column],
             0, "m2", "p2", false)
  }

  lemma ReplaceIsCurrent(sensor: SensorInfo, column: Column, updates: SensorInfo)
    requires sensor.id != "" && Pg.Storable(sensor) && sensor.resourceVersion != "m2"
    requires column in COLUMNS && Pg.IsTextColumn(updates, column)
    ensures var req := ReplaceRequest(sensor, column, updates);
            var updated := SetColumn(Unversioned(Mem.NewState(sensor).info), updates, column);
            && WellFormed(Registered(sensor), req) && Touched(req.ops) == {column} && req.ops != []
            && PatchInfo(Mem.NewState(sensor).info, req.ops) == Ok(updated)
            && Pg.IsText("p") && forall c | c in Touched(req.ops) :: Pg.IsTextColumn(updated, c)
  {
    hide PatchInfo, Touched, Pg.Storable;
    ReplaceOne(Mem.NewState(sensor).info, updates, column);
    assert [column][1..] == [];
    assert ToSet([column]) == {column};
    TextOfSet(Unversioned(Mem.NewState(sensor).info), updates, column);
  }

  lemma TextOfSet(info: SensorInfo, updates: SensorInfo, column: Column)
    requires Pg.IsTextColumn(updates, column)
    ensures Pg.IsTextColumn(SetColumn(info, updates, column), column)
  {
  }

  /**
   Whatever sensor is registered first: replacing its labels by null is answered alike by both stores,
   and the request after that is not.
   */
  lemma NullLabelsRunParts(sensor: SensorInfo)
    requires sensor.id != "" && Pg.Storable(sensor) && sensor.resourceVersion != "m2"
    ensures var nulling := ReplaceRequest(sensor, ColLabels, sensor.(labels := None));
            var outcomes := Outcomes(START, [ReqRegister(sensor, "p"), nulling, TestRequest(nulling, "m3", "p3")]);
            && |outcomes| == 3 && outcomes[0] == (Ok(()), Ok(())) && outcomes[1] == (Ok(()), Ok(()))
            && outcomes[2].0 == Ok(()) && outcomes[2].1.Err?
  {
    hide PatchInfo, Touched, Pg.Storable, ServeMem, ServePg, Related, WellFormed, Next;
    var register, updates := ReqRegister(sensor, "p"), sensor.(labels := None);
    var nulling := ReplaceRequest(sensor, ColLabels, updates);
    var test := TestRequest(nulling, "m3", "p3");
    var tw := Registered(sensor);
    var updated := SetColumn(Unversioned(Mem.NewState(sensor).info), updates, ColLabels);
    RegisteredFirst(sensor);
    FirstIsAccepted(sensor);
    ReplaceIsCurrent(sensor, ColLabels, updates);
    assert IsCurrent(tw, nulling, updated);
    CurrentIsServed(tw, nulling, updated);
    NoOtherRow(tw, nulling, updated);
    NullLabelsTellStoresApart(tw, nulling, updated, "m3", "p3");
    ThreeOutcomes(START, register, nulling, test);
  }

  lemma FirstIsAccepted(sensor: SensorInfo)
    requires sensor.id != "" && Pg.Storable(sensor)
    ensures ServeMem(START.mem, ReqRegister(sensor, "p")).Ok? && ServePg(START.pg, ReqRegister(sensor, "p")).Ok?
  {
    hide PatchInfo, Pg.IsTextInfo;
    FittedNewIff(sensor);
  }

  /** In a table of one row an update cannot take another's name. */
  lemma NoOtherRow(tw: Twin, req: Request, updates: SensorInfo)
    requires req.ReqPatch? && tw.pg.Keys == {req.id}
    ensures Pg.Update(tw.pg, req.id, updates, req.pOrder, req.now, req.pVersion).Ok?
  {
  }

  lemma ThreeOutcomes(tw: Twin, a: Request, b: Request, c: Request)
    ensures var second := Next(tw, a);
            var third := Next(second, b);
            Outcomes(tw, [a, b, c]) ==
              [(Outcome(ServeMem(tw.mem, a)), Outcome(ServePg(tw.pg, a))),
               (Outcome(ServeMem(second.mem, b)), Outcome(ServePg(second.pg, b))),
               (Outcome(ServeMem(third.mem, c)), Outcome(ServePg(third.pg, c)))]
  {
    hide ServeMem, ServePg, Next;
    assert [a, b, c][1..] == [b, c] && [b, c][1..] == [c] && [c][1..] == [];
    var second := Next(tw, a);
    var third := Next(second, b);
    assert Outcomes(third, [c]) ==
           [(Outcome(ServeMem(third.mem, c)), Outcome(ServePg(third.pg, c)))] + Outcomes(Next(third, c), []);
    assert Outcomes(second, [b, c]) ==
           [(Outcome(ServeMem(second.mem, b)), Outcome(ServePg(second.pg, b)))] + Outcomes(third, [c]);
  }

  /**
   Renaming a sensor to a name of 256 letters, which nobody else has, is committed in memory and refused by
   Postgres.
   */
  lemma LongRenameParts(sensor: SensorInfo)
    requires sensor.id != "" && Pg.Storable(sensor) && sensor.resourceVersion != "m2"
    ensures var rename := ReplaceRequest(sensor, ColName, sensor.(name := seq(256, _ => 'a')));
            ServeMem(Registered(sensor).mem, rename).Ok? && ServePg(Registered(sensor).pg, rename) == Err(Database)
  {
    hide PatchInfo, Touched, Related, WellFormed;
    var updates := sensor.(name := seq(256, _ => 'a'));
    var rename := ReplaceRequest(sensor, ColName, updates);
    var tw := Registered(sensor);
    var updated := SetColumn(Unversioned(Mem.NewState(sensor).info), updates, ColName);
    RegisteredFirst(sensor);
    assert updates.name[255] == 'a';
    ReplaceIsCurrent(sensor, ColName, updates);
    PatchReduces(tw, rename, updated);
  }
}
