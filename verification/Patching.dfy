/**
 The patch pipeline of internal/server/qivitals_patching.go: which JSON Pointers may be patched,
 which storage column each one touches, and how a sensor becomes a document and comes back.
 */
module Patching {
  import opened Wrappers
  import opened Strings
  import opened JsonPatch
  import opened Sensors

  // ---- path allowlist ------------------------------------------------------------------

  /** `true` means that the path may be continued below. */
  const PATCHABLE_PATHS: map<string, bool> := map[
    "/metadata/name" := false,
    "/metadata/namespace" := false,
    "/metadata/description" := false,
    "/metadata/labels" := true,
    "/spec/graceful_period_seconds" := false,
    "/spec/failure_period_seconds" := false,
    "/spec/rules" := true]

  predicate ValidatePath(path: string) {
    || path in PATCHABLE_PATHS
    || exists prefix | prefix in PATCHABLE_PATHS ::
         PATCHABLE_PATHS[prefix] && HasPrefix(path, prefix + "/")
  }

  function ColumnOfRoot(rootPath: string): Option<Column> {
    if rootPath == "/metadata/name" then Some(ColName)
    else if rootPath == "/metadata/namespace" then Some(ColNamespace)
    else if rootPath == "/metadata/description" then Some(ColDescription)
    else if rootPath == "/metadata/labels" then Some(ColLabels)
    else if rootPath == "/spec/graceful_period_seconds" then Some(ColGraceful)
    else if rootPath == "/spec/failure_period_seconds" then Some(ColFailure)
    else if rootPath == "/spec/rules" then Some(ColRules)
    else None
  }

  /** The storage column of a path, if there is one. */
  function PathToColumn(path: string): Option<Column> {
    var parts := SplitN(TrimPrefix(path, "/"), '/', 3);
    if |parts| < 2 then None else ColumnOfRoot("/" + parts[0] + "/" + parts[1])
  }

  /** Where a column lives in the API document. */
  function ColumnPointer(column: Column): (p: Pointer)
    requires column in COLUMNS
    ensures |p| == 2 && p[0] in {"metadata", "spec"}
  {
    match column
    case ColName => ["metadata", "name"]
    case ColNamespace => ["metadata", "namespace"]
    case ColDescription => ["metadata", "description"]
    case ColLabels => ["metadata", "labels"]
    case ColGraceful => ["spec", "graceful_period_seconds"]
    case ColFailure => ["spec", "failure_period_seconds"]
    case _ => ["spec", "rules"]
  }

  // ---- shape translation ---------------------------------------------------------------

  /** A member that encoding/json drops when it is empty. */
  function OmitEmpty(key: string, value: string): map<string, Json> {
    if value == "" then map[] else map[key := JString(value)]
  }

  function EncodeRule(rule: Option<Rule>): Json {
    match rule
    case None => JNull
    case Some(r) =>
      JObject(OmitEmpty("name", r.name) + OmitEmpty("expression", r.expression)
              + OmitEmpty("target_state", r.targetState) + OmitEmpty("message_template", r.messageTemplate))
  }

  function EncodeRules(rules: seq<Option<Rule>>): (items: seq<Json>)
    ensures |items| == |rules|
    ensures forall i :: 0 <= i < |items| ==> items[i] == EncodeRule(rules[i])
  {
    seq(|rules|, i requires 0 <= i < |rules| => EncodeRule(rules[i]))
  }

  function EncodeLabels(labels: Labels): Json {
    match labels
    case None => JNull
    case Some(m) => JObject(map k | k in m :: JString(m[k]))
  }

  /** sensorInfoToAPIShape followed by json.Marshal. */
  function EncodeInfo(info: SensorInfo): Json {
    JObject(map[
      "metadata" := JObject(map[
        "id" := JString(info.id),
        "namespace" := JString(info.namespace),
        "name" := JString(info.name),
        "description" := JString(info.description),
        "labels" := EncodeLabels(info.labels)]),
      "spec" := JObject(map[
        "graceful_period_seconds" := JInt(info.gracefulPeriod),
        "failure_period_seconds" := JInt(info.failurePeriod),
        "rules" := JArray(EncodeRules(info.rules))])])
  }

  /** A string field: an absent or null member leaves it empty, anything but a string is an error. */
  function DecodeString(j: Option<Json>): Option<string> {
    match j
    case None => Some("")
    case Some(JNull) => Some("")
    case Some(JString(s)) => Some(s)
    case _ => None
  }

  function DecodeInt64(j: Option<Json>): Option<Int64> {
    match j
    case None => Some(0)
    case Some(JNull) => Some(0)
    case Some(JInt(n)) => if -0x8000_0000_0000_0000 <= n <= 0x7FFF_FFFF_FFFF_FFFF then Some(n) else None
    case _ => None
  }

  function DecodeLabels(j: Option<Json>): Option<Labels> {
    match j
    case None => Some(None)
    case Some(JNull) => Some(None)
    case Some(JObject(ms)) =>
      if forall k | k in ms :: DecodeString(Some(ms[k])).Some?
      then Some(Some(map k | k in ms :: DecodeString(Some(ms[k])).value))
      else None
    case _ => None
  }

  function DecodeRule(j: Json): Option<Option<Rule>> {
    match j
    case JNull => Some(None)
    case JObject(ms) =>
      var name :- DecodeString(Get(j, ["name"]));
      var expression :- DecodeString(Get(j, ["expression"]));
      var targetState :- DecodeString(Get(j, ["target_state"]));
      var messageTemplate :- DecodeString(Get(j, ["message_template"]));
      Some(Some(Rule(name, expression, targetState, messageTemplate)))
    case _ => None
  }

  function DecodeItems(items: seq<Json>): Option<seq<Option<Rule>>>
    decreases |items|
  {
    if items == [] then Some([]) else
      var first :- DecodeRule(items[0]);
      var rest :- DecodeItems(items[1..]);
      Some([first] + rest)
  }

  function DecodeRules(j: Option<Json>): Option<seq<Option<Rule>>> {
    match j
    case None => Some([])
    case Some(JNull) => Some([])
    case Some(JArray(items)) => DecodeItems(items)
    case _ => None
  }

  /** A struct field of the API shape: its member is an object, null or absent. */
  predicate IsSection(j: Option<Json>) {
    j.None? || j.value.JNull? || j.value.JObject?
  }

  /** unmarshalAPIShape: `get` is the JSON value found for each column; id and registration time are kept. */
  function DecodeFields(get: Column -> Option<Json>, original: SensorInfo): Option<SensorInfo> {
    var namespace :- DecodeString(get(ColNamespace));
    var name :- DecodeString(get(ColName));
    var description :- DecodeString(get(ColDescription));
    var labels :- DecodeLabels(get(ColLabels));
    var graceful :- DecodeInt64(get(ColGraceful));
    var failure :- DecodeInt64(get(ColFailure));
    var rules :- DecodeRules(get(ColRules));
    Some(SensorInfo(original.id, namespace, name, "", description, graceful, failure, labels,
                    original.registeredAt, 0, rules))
  }

  function ColumnValue(doc: Json, column: Column): Option<Json> {
    if column in COLUMNS then Get(doc, ColumnPointer(column)) else None
  }

  /** json.Unmarshal into the API shape, then unmarshalAPIShape. */
  function DecodeInfo(doc: Json, original: SensorInfo): Option<SensorInfo> {
    if !(IsSection(Some(doc)) && IsSection(Get(doc, ["metadata"])) && IsSection(Get(doc, ["spec"]))) then None else
      var id :- DecodeString(Get(doc, ["metadata", "id"]));
      DecodeFields(column => ColumnValue(doc, column), original)
  }

  // ---- the pipeline --------------------------------------------------------------------

  /** The `value` of a request operation: empty, text that is no JSON, or JSON text. */
  datatype ValueText = NoValue | Malformed | JsonText(json: Json)

  datatype PatchOperation = PatchOperation(op: string, path: string, value: ValueText)

  datatype PatchError = BadPath | BadValue | NotApplicable | BadShape

  /** buildJSONPatch for one operation; `from` is never filled in. */
  function BuildOp(op: PatchOperation): Option<WireOp> {
    match op.value
    case NoValue => Some(WireOp(op.op, op.path, None, None))
    case Malformed => None
    case JsonText(j) => Some(WireOp(op.op, op.path, Some(j), None))
  }

  function BuildOps(ops: seq<PatchOperation>): (wire: Option<seq<WireOp>>)
    ensures wire.Some? ==> |wire.value| == |ops|
    decreases |ops|
  {
    if ops == [] then Some([]) else
      var first :- BuildOp(ops[0]);
      var rest :- BuildOps(ops[1..]);
      Some([first] + rest)
  }

  /** The columns that the operations touch. */
  function Touched(ops: seq<PatchOperation>): set<Column> {
    set op | op in ops && PathToColumn(op.path).Some? :: PathToColumn(op.path).value
  }

  /** Steps 2 to 6 of PatchSensor: the updated info, or why there is none. */
  function PatchInfo(info: SensorInfo, ops: seq<PatchOperation>): Result<SensorInfo, PatchError> {
    if exists op | op in ops :: !ValidatePath(op.path) then Err(BadPath) else
      match BuildOps(ops)
      case None => Err(BadValue)
      case Some(wire) =>
        match ApplyOps(EncodeInfo(info), wire)
        case None => Err(NotApplicable)
        case Some(doc) =>
          match DecodeInfo(doc, info)
          case None => Err(BadShape)
          case Some(updated) => Ok(updated)
  }

  // ---- every accepted path lies in exactly one column ----------------------------------

  lemma SplitFirst(s: string, first: string, below: string)
    requires '/' !in first && s == first + ['/'] + below
    ensures Split(s, '/') == [first] + Split(below, '/')
    ensures SplitN(s, '/', 3) == [first] + SplitN(below, '/', 2)
    ensures SplitN(s, '/', 2) == [first] + SplitN(below, '/', 1)
  {
    IndexOfAt(first, '/', below);
    assert s[..|first|] == first && s[|first| + 1..] == below;
  }

  lemma SplitField(below: string, field: string, tail: string)
    requires '/' !in field && below == field + tail
    requires tail == "" || tail[0] == '/'
    ensures Split(below, '/')[0] == field && SplitN(below, '/', 2)[0] == field
  {
    if tail == "" {
      assert below == field;
      assert forall j :: 0 <= j < |below| ==> below[j] in field;
    } else {
      assert below == field + ['/'] + tail[1..];
      SplitFirst(below, field, tail[1..]);
    }
  }

  /** A path below /section/field splits into those two names and the rest. */
  lemma SplitRoot(path: string, section: string, field: string, tail: string)
    requires '/' !in section && '/' !in field
    requires path == "/" + section + "/" + field + tail
    requires tail == "" || tail[0] == '/'
    ensures TrimPrefix(path, "/") == path[1..]
    ensures |Split(path[1..], '/')| >= 2 && Split(path[1..], '/')[..2] == [section, field]
    ensures |SplitN(path[1..], '/', 3)| >= 2 && SplitN(path[1..], '/', 3)[..2] == [section, field]
  {
    hide Split, SplitN;
    var s, below := path[1..], field + tail;
    assert s == section + ['/'] + below;
    SplitFirst(s, section, below);
    SplitField(below, field, tail);
  }

  lemma {:induction false} PlainTokenUnescape(token: string)
    requires '~' !in token
    ensures Unescape(token) == token
    decreases |token|
  {
    if token != "" {
      PlainTokenUnescape(token[1..]);
    }
  }

  /** The document location of a path that starts at /section/field. */
  lemma RootPointer(path: string, section: string, field: string, tail: string)
    requires '/' !in section && '/' !in field && '~' !in section && '~' !in field
    requires path == "/" + section + "/" + field + tail
    requires tail == "" || tail[0] == '/'
    ensures var p := ParsePointer(path); p.Some? && |p.value| >= 2 && p.value[..2] == [section, field]
  {
    SplitRoot(path, section, field, tail);
    PlainTokenUnescape(section);
    PlainTokenUnescape(field);
    var tokens := Split(path[1..], '/');
    assert tokens[0] == tokens[..2][0] && tokens[1] == tokens[..2][1];
  }

  /** A path of just a section and a field is the pointer of those two tokens. */
  lemma ExactPointer(path: string, section: string, field: string)
    requires '/' !in section && '/' !in field && '~' !in section && '~' !in field
    requires path == "/" + section + "/" + field
    ensures ParsePointer(path) == Some([section, field])
  {
    var parts := [section, field];
    assert parts[1..] == [field];
    assert path[1..] == Join(parts, '/');
    JoinSplit(parts, '/');
    PlainTokenUnescape(section);
    PlainTokenUnescape(field);
    assert UnescapeAll(parts) == parts;
  }

  predicate IsSpelled(root: string, p: Pointer)
    requires |p| == 2
  {
    root == "/" + p[0] + "/" + p[1]
  }

  lemma PatchableMetadata(root: string)
    requires root in {"/metadata/name", "/metadata/namespace", "/metadata/description", "/metadata/labels"}
    ensures var c := ColumnOfRoot(root); c.Some? && c.value in COLUMNS && IsSpelled(root, ColumnPointer(c.value))
  {
    assert "/metadata/name" == "/" + "metadata" + "/" + "name";
    assert "/metadata/namespace" == "/" + "metadata" + "/" + "namespace";
    assert "/metadata/description" == "/" + "metadata" + "/" + "description";
    assert "/metadata/labels" == "/" + "metadata" + "/" + "labels";
  }

  lemma PatchableSpec(root: string)
    requires root in {"/spec/graceful_period_seconds", "/spec/failure_period_seconds", "/spec/rules"}
    ensures var c := ColumnOfRoot(root); c.Some? && c.value in COLUMNS && IsSpelled(root, ColumnPointer(c.value))
  {
    if root == "/spec/graceful_period_seconds" {
      PatchableGraceful();
    } else if root == "/spec/failure_period_seconds" {
      PatchableFailure();
    } else {
      assert "/spec/rules" == "/" + "spec" + "/" + "rules";
    }
  }

  lemma PatchableGraceful()
    ensures ColumnOfRoot("/spec/graceful_period_seconds") == Some(ColGraceful)
    ensures IsSpelled("/spec/graceful_period_seconds", ColumnPointer(ColGraceful))
  {
    assert "/spec/graceful_period_seconds" == "/" + "spec" + "/" + "graceful_period_seconds";
  }

  lemma PatchableFailure()
    ensures ColumnOfRoot("/spec/failure_period_seconds") == Some(ColFailure)
    ensures IsSpelled("/spec/failure_period_seconds", ColumnPointer(ColFailure))
  {
    assert "/spec/failure_period_seconds" == "/" + "spec" + "/" + "failure_period_seconds";
  }

  /** Each key of the allowlist is the spelling of its column. */
  lemma PatchableRoot(root: string)
    requires root in PATCHABLE_PATHS
    ensures var c := ColumnOfRoot(root); c.Some? && c.value in COLUMNS && IsSpelled(root, ColumnPointer(c.value))
  {
    if root in {"/metadata/name", "/metadata/namespace", "/metadata/description", "/metadata/labels"} {
      PatchableMetadata(root);
    } else {
      PatchableSpec(root);
    }
  }

  /** Every accepted path has a column, and addresses the document at or below that column. */
  lemma AcceptedPathHasColumn(path: string)
    requires ValidatePath(path)
    ensures var c := PathToColumn(path);
            c.Some? && c.value in COLUMNS &&
            var p := ParsePointer(path);
            p.Some? && |p.value| >= 2 && p.value[..2] == ColumnPointer(c.value)
  {
    var root := AcceptedRoot(path);
    PatchableRoot(root);
    var p := ColumnPointer(ColumnOfRoot(root).value);
    PlainColumnPointer(ColumnOfRoot(root).value);
    assert p == [p[0], p[1]];
    SpelledPath(path, root, p[0], p[1]);
  }

  lemma AcceptedRoot(path: string) returns (root: string)
    requires ValidatePath(path)
    ensures root in PATCHABLE_PATHS && (path == root || HasPrefix(path, root + "/"))
  {
    if path in PATCHABLE_PATHS {
      root := path;
    } else {
      root :| root in PATCHABLE_PATHS && PATCHABLE_PATHS[root] && HasPrefix(path, root + "/");
    }
  }

  lemma PlainColumnPointer(column: Column)
    requires column in COLUMNS
    ensures forall token | token in ColumnPointer(column) :: '/' !in token && '~' !in token
  {
  }

  lemma SpelledPath(path: string, root: string, section: string, field: string)
    requires path == root || HasPrefix(path, root + "/")
    requires IsSpelled(root, [section, field])
    requires '/' !in section && '/' !in field && '~' !in section && '~' !in field
    ensures PathToColumn(path) == ColumnOfRoot(root)
    ensures var p := ParsePointer(path); p.Some? && |p.value| >= 2 && p.value[..2] == [section, field]
  {
    assert HasPrefix(path, root);
    var tail := path[|root|..];
    assert path == root + tail;
    if path != root {
      assert path[..|root| + 1][|root|] == '/';
    }
    assert path == "/" + section + "/" + field + tail;
    SplitRoot(path, section, field, tail);
    RootPointer(path, section, field, tail);
    var parts := SplitN(path[1..], '/', 3);
    assert parts[0] == parts[..2][0] && parts[1] == parts[..2][1];
  }

  // ---- documents and infos carry the same content ---------------------------------------

  lemma RuleRoundTrip(rule: Option<Rule>)
    ensures DecodeRule(EncodeRule(rule)) == Some(rule)
  {
    match rule
    case None =>
    case Some(r) =>
      var j := EncodeRule(rule);
      RuleField(r, "name", r.name);
      RuleField(r, "expression", r.expression);
      RuleField(r, "target_state", r.targetState);
      RuleField(r, "message_template", r.messageTemplate);
      hide EncodeRule, Get;
  }

  lemma RuleField(r: Rule, key: string, value: string)
    requires (key, value) in {("name", r.name), ("expression", r.expression), ("target_state", r.targetState),
                              ("message_template", r.messageTemplate)}
    ensures DecodeString(Get(EncodeRule(Some(r)), [key])) == Some(value)
  {
    MemberGet(EncodeRule(Some(r)), key);
  }

  lemma MemberGet(j: Json, key: string)
    requires j.JObject?
    ensures Get(j, [key]) == (if key in j.members then Some(j.members[key]) else None)
  {
    assert [key][1..] == [];
  }

  lemma MemberGet2(j: Json, section: string, field: string)
    requires j.JObject? && section in j.members && j.members[section].JObject?
    ensures Get(j, [section, field]) ==
            (var ms := j.members[section].members; if field in ms then Some(ms[field]) else None)
  {
    assert [section, field][1..] == [field];
    MemberGet(j.members[section], field);
  }

  lemma {:induction false} ItemsRoundTrip(rules: seq<Option<Rule>>)
    ensures DecodeItems(EncodeRules(rules)) == Some(rules)
  {
    if rules == [] {
      assert EncodeRules(rules) == [];
    } else {
      RuleRoundTrip(rules[0]);
      ItemsRoundTrip(rules[1..]);
      assert EncodeRules(rules)[1..] == EncodeRules(rules[1..]);
      assert [rules[0]] + rules[1..] == rules;
    }
  }

  lemma LabelsRoundTrip(labels: Labels)
    ensures DecodeLabels(Some(EncodeLabels(labels))) == Some(labels)
  {
    if labels.Some? {
      var j := EncodeLabels(labels);
      assert (map k | k in j.members :: DecodeString(Some(j.members[k])).value) == labels.value;
    }
  }

  /** The value a column has in the document of an info. */
  function EncodeColumn(info: SensorInfo, column: Column): Json
    requires column in COLUMNS
  {
    match column
    case ColName => JString(info.name)
    case ColNamespace => JString(info.namespace)
    case ColDescription => JString(info.description)
    case ColLabels => EncodeLabels(info.labels)
    case ColGraceful => JInt(info.gracefulPeriod)
    case ColFailure => JInt(info.failurePeriod)
    case _ => JArray(EncodeRules(info.rules))
  }

  lemma EncodeInfoGet(info: SensorInfo, column: Column)
    requires column in COLUMNS
    ensures Get(EncodeInfo(info), ColumnPointer(column)) == Some(EncodeColumn(info, column))
  {
    var p := ColumnPointer(column);
    assert p == [p[0], p[1]];
    MemberGet2(EncodeInfo(info), p[0], p[1]);
  }

  /** What decoding a column reports when it succeeds, put into `into`. */
  function DecodeColumn(doc: Json, column: Column, into: SensorInfo): Option<SensorInfo>
    requires column in COLUMNS
  {
    DecodeField(Get(doc, ColumnPointer(column)), column, into)
  }

  function DecodeField(j: Option<Json>, column: Column, into: SensorInfo): Option<SensorInfo>
    requires column in COLUMNS
  {
    match column
    case ColName => var v :- DecodeString(j); Some(into.(name := v))
    case ColNamespace => var v :- DecodeString(j); Some(into.(namespace := v))
    case ColDescription => var v :- DecodeString(j); Some(into.(description := v))
    case ColLabels => var v :- DecodeLabels(j); Some(into.(labels := v))
    case ColGraceful => var v :- DecodeInt64(j); Some(into.(gracefulPeriod := v))
    case ColFailure => var v :- DecodeInt64(j); Some(into.(failurePeriod := v))
    case _ => var v :- DecodeRules(j); Some(into.(rules := v))
  }

  /** A column that still has its encoded value decodes to the value it came from. */
  lemma ColumnRoundTrip(info: SensorInfo, column: Column, doc: Json)
    requires column in COLUMNS
    requires Get(doc, ColumnPointer(column)) == Some(EncodeColumn(info, column))
    ensures DecodeColumn(doc, column, info) == Some(info)
  {
    LabelsRoundTrip(info.labels);
    ItemsRoundTrip(info.rules);
  }

  /** Decoding is column by column. */
  lemma DecodeInfoColumn(doc: Json, original: SensorInfo, column: Column)
    requires column in COLUMNS
    requires DecodeInfo(doc, original).Some?
    ensures var updated := DecodeInfo(doc, original).value;
            forall into :: DecodeColumn(doc, column, into) == Some(SetColumn(into, updated, column))
  {
  }

  /** The nested document loses nothing of an info but the two fields a patch never writes. */
  lemma InfoRoundTrip(info: SensorInfo)
    ensures DecodeInfo(EncodeInfo(info), info) == Some(Unversioned(info))
  {
    var doc := EncodeInfo(info);
    EncodeShaped(info);
    MemberGet2(doc, "metadata", "id");
    forall c | c in COLUMNS
      ensures ColumnValue(doc, c) == Some(EncodeColumn(info, c))
    {
      EncodeInfoGet(info, c);
    }
    FieldsRoundTrip(column => ColumnValue(doc, column), info);
  }

  lemma FieldsRoundTrip(get: Column -> Option<Json>, info: SensorInfo)
    requires forall c | c in COLUMNS :: get(c) == Some(EncodeColumn(info, c))
    ensures DecodeFields(get, info) == Some(Unversioned(info))
  {
    hide DecodeLabels, EncodeLabels, DecodeItems, EncodeRules;
    LabelsRoundTrip(info.labels);
    ItemsRoundTrip(info.rules);
    assert get(ColLabels) == Some(EncodeLabels(info.labels)) && get(ColRules) == Some(JArray(EncodeRules(info.rules)));
    assert get(ColName) == Some(JString(info.name)) && get(ColNamespace) == Some(JString(info.namespace));
    assert get(ColDescription) == Some(JString(info.description));
    assert get(ColGraceful) == Some(JInt(info.gracefulPeriod)) && get(ColFailure) == Some(JInt(info.failurePeriod));
  }

  // ---- an operation changes only its own column ------------------------------------------

  predicate IsObject(j: Option<Json>) {
    j.Some? && j.value.JObject?
  }

  /** The document has both its sections. */
  predicate Shaped(doc: Json) {
    doc.JObject? && IsObject(Get(doc, ["metadata"])) && IsObject(Get(doc, ["spec"]))
  }

  lemma EncodeShaped(info: SensorInfo)
    ensures Shaped(EncodeInfo(info))
  {
    MemberGet(EncodeInfo(info), "metadata");
    MemberGet(EncodeInfo(info), "spec");
  }

  lemma ColumnPointersDiffer(a: Column, b: Column)
    requires a in COLUMNS && b in COLUMNS && a != b
    ensures ColumnPointer(a) != ColumnPointer(b)
  {
    var p, q := ColumnPointer(a), ColumnPointer(b);
    assert p[0] != q[0] || p[1] != q[1];
  }

  /** An edit at or below a column keeps both sections and everything outside that column. */
  lemma EditOutside(doc: Json, p: Pointer, edit: Edit, q: Pointer)
    requires Shaped(doc) && |p| >= 2 && |q| == 2 && p[..2] != q
    requires p[0] in {"metadata", "spec"}
    requires EditAt(doc, p, edit).Some?
    ensures Shaped(EditAt(doc, p, edit).value)
    ensures Get(EditAt(doc, p, edit).value, q) == Get(doc, q)
  {
    var other := if p[0] == "metadata" then ["spec"] else ["metadata"];
    assert p[..1] == [p[0]] && p[..0] == [];
    EditFrame(doc, p, edit, other, 0);
    EditKeepsObjects(doc, p, edit, 1);
    EditKeepsObjects(doc, p, edit, 0);
    if p[0] != q[0] {
      EditFrame(doc, p, edit, q, 0);
    } else {
      assert p[..2] == [p[0], p[1]] && q == [q[0], q[1]];
      assert q[..1] == [q[0]];
      EditFrame(doc, p, edit, q, 1);
    }
  }

  /** Without `from`, an operation that applies is an edit: move and copy fail. */
  lemma WireOpIsEdit(doc: Json, wire: WireOp) returns (edit: Edit)
    requires wire.from == None
    requires ParsePointer(wire.path).Some? && ParsePointer(wire.path).value != []
    requires ApplyOp(doc, wire).Some?
    ensures wire.op in {"add", "remove", "replace", "test"}
    ensures ApplyOp(doc, wire) == EditAt(doc, ParsePointer(wire.path).value, edit)
  {
    if wire.op == "remove" {
      edit := Remove;
    } else if wire.op == "add" {
      edit := Add(wire.value.value);
    } else if wire.op == "replace" {
      edit := Replace(wire.value.value);
    } else {
      edit := Test(wire.value.value);
    }
  }

  /** A request operation that applies is an edit of its column. */
  lemma RequestOpIsEdit(doc: Json, op: PatchOperation) returns (edit: Edit)
    requires ValidatePath(op.path)
    requires BuildOp(op).Some? && ApplyOp(doc, BuildOp(op).value).Some?
    ensures op.op in {"add", "remove", "replace", "test"}
    ensures ParsePointer(op.path).Some? && |ParsePointer(op.path).value| >= 2
    ensures ApplyOp(doc, BuildOp(op).value) == EditAt(doc, ParsePointer(op.path).value, edit)
  {
    hide ValidatePath, PathToColumn, ParsePointer, ColumnPointer, EditAt;
    AcceptedPathHasColumn(op.path);
    edit := WireOpIsEdit(doc, BuildOp(op).value);
  }

  /** Requests cannot move or copy: such an operation never applies. */
  lemma MoveAndCopyNeverApply(info: SensorInfo, ops: seq<PatchOperation>)
    requires exists op | op in ops :: op.op in {"move", "copy"}
    ensures PatchInfo(info, ops) in {Err(BadPath), Err(BadValue), Err(NotApplicable)}
  {
    if PatchInfo(info, ops).Ok? || PatchInfo(info, ops) == Err(BadShape) {
      OpsAreEdits(EncodeInfo(info), ops);
    }
  }

  lemma {:induction false} OpsAreEdits(doc: Json, ops: seq<PatchOperation>)
    requires forall op | op in ops :: ValidatePath(op.path)
    requires BuildOps(ops).Some? && ApplyOps(doc, BuildOps(ops).value).Some?
    ensures forall op | op in ops :: op.op in {"add", "remove", "replace", "test"}
    decreases |ops|
  {
    if ops != [] {
      var edit := RequestOpIsEdit(doc, ops[0]);
      var wire := BuildOps(ops).value;
      assert wire[1..] == BuildOps(ops[1..]).value;
      OpsAreEdits(ApplyOp(doc, wire[0]).value, ops[1..]);
    }
  }

  /** A patch keeps every two-token place that none of its operations touches. */
  lemma {:induction false} OpsOutside(doc: Json, ops: seq<PatchOperation>, q: Pointer)
    requires Shaped(doc) && |q| == 2
    requires forall op | op in ops :: ValidatePath(op.path)
    requires forall c | c in Touched(ops) && c in COLUMNS :: ColumnPointer(c) != q
    requires BuildOps(ops).Some? && ApplyOps(doc, BuildOps(ops).value).Some?
    ensures Shaped(ApplyOps(doc, BuildOps(ops).value).value)
    ensures Get(ApplyOps(doc, BuildOps(ops).value).value, q) == Get(doc, q)
    decreases |ops|
  {
    if ops != [] {
      var op := ops[0];
      AcceptedPathHasColumn(op.path);
      assert op in ops && PathToColumn(op.path).value in Touched(ops);
      var edit := RequestOpIsEdit(doc, op);
      var p := ParsePointer(op.path).value;
      assert p[0] == p[..2][0];
      EditOutside(doc, p, edit, q);
      var wire := BuildOps(ops).value;
      assert wire[1..] == BuildOps(ops[1..]).value;
      assert Touched(ops[1..]) <= Touched(ops);
      OpsOutside(ApplyOp(doc, wire[0]).value, ops[1..], q);
    }
  }

  /** Every operation of an accepted request touches a real column. */
  lemma TouchedAreColumns(ops: seq<PatchOperation>)
    requires forall op | op in ops :: ValidatePath(op.path)
    ensures Touched(ops) <= COLUMNS
    ensures ops != [] ==> Touched(ops) != {}
  {
    forall op | op in ops
      ensures PathToColumn(op.path).Some? && PathToColumn(op.path).value in COLUMNS
    {
      AcceptedPathHasColumn(op.path);
    }
    if ops != [] {
      assert ops[0] in ops && PathToColumn(ops[0].path).value in Touched(ops);
    }
  }

  /** The patched info differs from the current one in touched columns only. */
  lemma UntouchedColumnsSame(info: SensorInfo, ops: seq<PatchOperation>, column: Column)
    requires column in COLUMNS && column !in Touched(ops)
    ensures PatchInfo(info, ops).Ok? ==> SameColumn(info, PatchInfo(info, ops).value, column)
  {
    if PatchInfo(info, ops).Ok? {
      var doc := EncodeInfo(info);
      var q := ColumnPointer(column);
      EncodeShaped(info);
      forall c | c in Touched(ops) && c in COLUMNS
        ensures ColumnPointer(c) != q
      {
        ColumnPointersDiffer(c, column);
      }
      OpsOutside(doc, ops, q);
      EncodeInfoGet(info, column);
      var patched := ApplyOps(doc, BuildOps(ops).value).value;
      ColumnRoundTrip(info, column, patched);
      DecodeInfoColumn(patched, info, column);
    }
  }

  lemma NoColumnIsId(column: Column)
    requires column in COLUMNS
    ensures ColumnPointer(column) != ["metadata", "id"]
  {
    assert ColumnPointer(column)[1] != ["metadata", "id"][1];
  }

  /** A patch cannot change the id in the document, so discarding it on the way back loses nothing. */
  lemma PatchKeepsId(info: SensorInfo, ops: seq<PatchOperation>)
    ensures PatchInfo(info, ops).Ok? ==>
              Get(ApplyOps(EncodeInfo(info), BuildOps(ops).value).value, ["metadata", "id"]) == Some(JString(info.id))
    ensures PatchInfo(info, ops).Ok? ==>
              PatchInfo(info, ops).value.id == info.id && PatchInfo(info, ops).value.registeredAt == info.registeredAt
  {
    hide ValidatePath, EncodeInfo, DecodeFields, Shaped, PathToColumn;
    if PatchInfo(info, ops).Ok? {
      var q := ["metadata", "id"];
      EncodeShaped(info);
      forall c | c in Touched(ops) && c in COLUMNS
        ensures ColumnPointer(c) != q
      {
        NoColumnIsId(c);
      }
      EncodedId(info);
      OpsOutside(EncodeInfo(info), ops, q);
      DecodeKeepsId(ApplyOps(EncodeInfo(info), BuildOps(ops).value).value, info);
    }
  }

  lemma EncodedId(info: SensorInfo)
    ensures Get(EncodeInfo(info), ["metadata", "id"]) == Some(JString(info.id))
  {
    MemberGet2(EncodeInfo(info), "metadata", "id");
  }

  lemma DecodeKeepsId(doc: Json, original: SensorInfo)
    requires DecodeInfo(doc, original).Some?
    ensures var updated := DecodeInfo(doc, original).value;
            updated.id == original.id && updated.registeredAt == original.registeredAt
  {
  }

  /** The full write of a patched info: every column at once. */
  function FullWrite(info: SensorInfo, updated: SensorInfo): SensorInfo {
    Overlay(info, updated, COLUMNS)
  }

  /** Writing only the touched columns, in any order, is writing the whole patched document. */
  lemma SparseWriteIsFullWrite(info: SensorInfo, ops: seq<PatchOperation>, order: seq<Column>)
    requires ToSet(order) == Touched(ops)
    ensures PatchInfo(info, ops).Ok? ==>
              SetColumns(info, PatchInfo(info, ops).value, order) == FullWrite(info, PatchInfo(info, ops).value)
  {
    if PatchInfo(info, ops).Ok? {
      var updated := PatchInfo(info, ops).value;
      SetColumnsIsOverlay(info, updated, order);
      PatchedColumns(info, ops);
      OverlayGrows(info, updated, Touched(ops), COLUMNS);
    }
  }

  /** The frame of a patch: touched columns are columns, all others keep their value. */
  lemma PatchedColumns(info: SensorInfo, ops: seq<PatchOperation>)
    ensures PatchInfo(info, ops).Ok? ==>
              && Touched(ops) <= COLUMNS
              && (ops != [] ==> Touched(ops) != {})
              && forall c | c in COLUMNS - Touched(ops) :: SameColumn(info, PatchInfo(info, ops).value, c)
  {
    if PatchInfo(info, ops).Ok? {
      TouchedAreColumns(ops);
      forall c | c in COLUMNS - Touched(ops)
        ensures SameColumn(info, PatchInfo(info, ops).value, c)
      {
        UntouchedColumnsSame(info, ops, c);
      }
    }
  }

  lemma OverlayGrows(info: SensorInfo, updated: SensorInfo, small: set<Column>, large: set<Column>)
    requires forall c | c in large - small :: SameColumn(info, updated, c)
    ensures small <= large ==> Overlay(info, updated, small) == Overlay(info, updated, large)
  {
    assert forall c :: c in large && c !in small ==> c in large - small;
    SameColumnFields(info, updated, large - small);
  }

  lemma SameColumnFields(a: SensorInfo, b: SensorInfo, columns: set<Column>)
    requires forall c | c in columns :: SameColumn(a, b, c)
    ensures ColName in columns ==> a.name == b.name
    ensures ColNamespace in columns ==> a.namespace == b.namespace
    ensures ColDescription in columns ==> a.description == b.description
    ensures ColGraceful in columns ==> a.gracefulPeriod == b.gracefulPeriod
    ensures ColFailure in columns ==> a.failurePeriod == b.failurePeriod
    ensures ColLabels in columns ==> a.labels == b.labels
    ensures ColRules in columns ==> a.rules == b.rules
  {
    assert ColName in columns ==> SameColumn(a, b, ColName);
    assert ColNamespace in columns ==> SameColumn(a, b, ColNamespace);
    assert ColDescription in columns ==> SameColumn(a, b, ColDescription);
    assert ColGraceful in columns ==> SameColumn(a, b, ColGraceful);
    assert ColFailure in columns ==> SameColumn(a, b, ColFailure);
    assert ColLabels in columns ==> SameColumn(a, b, ColLabels);
    assert ColRules in columns ==> SameColumn(a, b, ColRules);
  }

  /** The pipeline reads neither the version nor the time of the last change. */
  lemma PatchReadsUnversioned(a: SensorInfo, b: SensorInfo, ops: seq<PatchOperation>)
    requires Unversioned(a) == Unversioned(b)
    ensures PatchInfo(a, ops) == PatchInfo(b, ops)
  {
    SameDocument(a, b);
    var wire := BuildOps(ops);
    if wire.Some? {
      var doc := ApplyOps(EncodeInfo(a), wire.value);
      if doc.Some? {
        SameDecoding(doc.value, a, b);
      }
    }
  }

  lemma SameDocument(a: SensorInfo, b: SensorInfo)
    requires Unversioned(a) == Unversioned(b)
    ensures EncodeInfo(a) == EncodeInfo(b)
  {
    var c := Unversioned(a);
    assert a.id == c.id == b.id && a.namespace == c.namespace == b.namespace && a.name == c.name == b.name;
    assert a.description == c.description == b.description && a.labels == c.labels == b.labels
           && a.rules == c.rules == b.rules;
    assert a.gracefulPeriod == c.gracefulPeriod == b.gracefulPeriod
           && a.failurePeriod == c.failurePeriod == b.failurePeriod;
  }

  lemma SameDecoding(doc: Json, a: SensorInfo, b: SensorInfo)
    requires Unversioned(a) == Unversioned(b)
    ensures DecodeInfo(doc, a) == DecodeInfo(doc, b)
  {
    var c := Unversioned(a);
    assert a.id == c.id == b.id && a.registeredAt == c.registeredAt == b.registeredAt;
    SameOwner(doc, a, b);
  }

  /** Decoding takes nothing from the original but its id and registration time. */
  lemma SameOwner(doc: Json, a: SensorInfo, b: SensorInfo)
    requires a.id == b.id && a.registeredAt == b.registeredAt
    ensures DecodeInfo(doc, a) == DecodeInfo(doc, b)
  {
  }
}
