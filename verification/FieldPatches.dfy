/**
 What replacing or removing one whole field does, for any JSON value: which values a field takes, what it
 then holds, and that a field removed or replaced by null is empty or zero.
 */
module FieldPatches {
  import opened Wrappers
  import opened Strings
  import opened Sensors
  import opened JsonPatch
  import opened Patching
  import opened ColumnPatches

  function ReplaceField(path: string, value: Json): PatchOperation {
    PatchOperation("replace", path, JsonText(value))
  }

  function RemoveField(path: string): PatchOperation {
    PatchOperation("remove", path, NoValue)
  }

  function FieldOp(path: string, value: Option<Json>): PatchOperation {
    if value.Some? then ReplaceField(path, value.value) else RemoveField(path)
  }

  // ---- which paths are accepted ------------------------------------------------------------------------

  /** The seven fields by their own paths, and anything below labels and rules; nothing else. */
  lemma PathAcceptedIff(path: string)
    ensures ValidatePath(path) <==>
            || path in ["/metadata/name", "/metadata/namespace", "/metadata/description", "/metadata/labels",
                        "/spec/graceful_period_seconds", "/spec/failure_period_seconds", "/spec/rules"]
            || HasPrefix(path, "/metadata/labels/") || HasPrefix(path, "/spec/rules/")
  {
    assert "/metadata/labels" + "/" == "/metadata/labels/" && "/spec/rules" + "/" == "/spec/rules/";
    assert PATCHABLE_PATHS["/metadata/labels"] && PATCHABLE_PATHS["/spec/rules"];
    if prefix :| prefix in PATCHABLE_PATHS && PATCHABLE_PATHS[prefix] && HasPrefix(path, prefix + "/") {
      OnlyTwoHaveMore(prefix);
    }
  }

  lemma OnlyTwoHaveMore(prefix: string)
    requires prefix in PATCHABLE_PATHS && PATCHABLE_PATHS[prefix]
    ensures prefix == "/metadata/labels" || prefix == "/spec/rules"
  {
  }

  // ---- why a request is refused ------------------------------------------------------------------------

  /** The operations as they are written on the wire: nothing but the value may be missing, and "from" always is. */
  function Wired(ops: seq<PatchOperation>): (wire: seq<WireOp>)
    ensures |wire| == |ops|
  {
    seq(|ops|, i requires 0 <= i < |ops| =>
      WireOp(ops[i].op, ops[i].path, if ops[i].value.JsonText? then Some(ops[i].value.json) else None, None))
  }

  lemma {:induction false} BuiltUnlessMalformed(ops: seq<PatchOperation>)
    ensures BuildOps(ops) == if exists op | op in ops :: op.value == Malformed then None else Some(Wired(ops))
    decreases |ops|
  {
    if ops == [] {
      assert Wired(ops) == [];
    } else {
      BuiltUnlessMalformed(ops[1..]);
      assert forall op :: op in ops <==> op == ops[0] || op in ops[1..];
      assert Wired(ops) == [Wired(ops)[0]] + Wired(ops[1..]);
    }
  }

  /** Paths are looked at first, then values, then whether the operations apply, then what comes of them. */
  lemma PatchErrorIff(info: SensorInfo, ops: seq<PatchOperation>)
    ensures var r := PatchInfo(info, ops);
            var paths, values := (forall op | op in ops :: ValidatePath(op.path)),
                                 (forall op | op in ops :: op.value != Malformed);
            var applied := ApplyOps(EncodeInfo(info), Wired(ops));
            && (r == Err(BadPath) <==> !paths)
            && (r == Err(BadValue) <==> paths && !values)
            && (r == Err(NotApplicable) <==> paths && values && applied == None)
            && (r == Err(BadShape) <==> paths && values && applied.Some? && DecodeInfo(applied.value, info) == None)
            && (r.Ok? <==> paths && values && applied.Some? && DecodeInfo(applied.value, info).Some?)
            && (r.Ok? ==> DecodeInfo(applied.value, info) == Some(r.value))
  {
    hide ValidatePath, ApplyOps, EncodeInfo, DecodeInfo, BuildOps;
    BuiltUnlessMalformed(ops);
  }

  /** A test of a field passes exactly for the value that the document has there, and changes nothing. */
  lemma TestFieldIff(info: SensorInfo, column: Column, j: Json)
    requires column in COLUMNS
    ensures PatchInfo(info, [PatchOperation("test", ColumnPath(column), JsonText(j))]) ==
            if j == EncodeColumn(info, column) then Ok(Unversioned(info)) else Err(NotApplicable)
  {
    hide PatchInfo, ValidatePath, ParsePointer, EncodeInfo, DecodeInfo, ColumnPath, ColumnPointer, EncodeColumn;
    var op := PatchOperation("test", ColumnPath(column), JsonText(j));
    ColumnPathIsPatchable(column);
    InfoRoundTrip(info);
    assert forall o :: o in [op] <==> o == op;
    PatchErrorIff(info, [op]);
    TestApplies(info, column, j);
    var wire := WireOp("test", ColumnPath(column), Some(j), None);
    assert Wired([op]) == [wire] && [wire][1..] == [];
    OneTestApplies(EncodeInfo(info), ColumnPath(column), ColumnPointer(column), j);
    var applied := ApplyOp(EncodeInfo(info), wire);
    assert applied.Some? ==> ApplyOps(applied.value, []) == applied;
    assert ApplyOps(EncodeInfo(info), [wire]) == applied;
  }

  lemma OneTestApplies(doc: Json, path: string, p: Pointer, j: Json)
    requires ParsePointer(path) == Some(p) && p != []
    ensures ApplyOp(doc, WireOp("test", path, Some(j), None)) == EditAt(doc, p, Test(j))
  {
    hide ParsePointer, EditAt;
    assert |"test"| != |"add"| && |"test"| != |"remove"| && |"test"| != |"replace"|;
  }

  lemma TestApplies(info: SensorInfo, column: Column, j: Json)
    requires column in COLUMNS
    ensures EditAt(EncodeInfo(info), ColumnPointer(column), Test(j)) ==
            if j == EncodeColumn(info, column) then Some(EncodeInfo(info)) else None
  {
    hide EncodeInfo, ColumnPointer, EncodeColumn;
    SectionsOf(info, column);
    EncodeInfoGet(info, column);
    var doc, p := EncodeInfo(info).members, ColumnPointer(column);
    assert p == [p[0], p[1]] && p[1..] == [p[1]];
    MemberGet2(EncodeInfo(info), p[0], p[1]);
    assert doc[p[0] := doc[p[0]]] == doc;
  }

  // ---- one field changes, the others decode to what they were ------------------------------------

  /** The document of an info with the value of one column put in place, or taken out. */
  function DocumentWith(info: SensorInfo, column: Column, value: Option<Json>): Json
    requires column in COLUMNS
  {
    var doc, p := EncodeInfo(info).members, ColumnPointer(column);
    var section := doc[p[0]].members;
    JObject(doc[p[0] := JObject(if value.Some? then section[p[1] := value.value] else section - {p[1]})])
  }

  function ValueWith(info: SensorInfo, column: Column, value: Option<Json>, other: Column): Option<Json> {
    if other == column then value else if other in COLUMNS then Some(EncodeColumn(info, other)) else None
  }

  lemma DocumentHolds(info: SensorInfo, column: Column, value: Option<Json>, other: Column)
    requires column in COLUMNS && other in COLUMNS
    ensures ColumnValue(DocumentWith(info, column, value), other) == ValueWith(info, column, value, other)
  {
    hide EncodeColumn, EncodeInfo, ColumnPointer;
    var p, q := ColumnPointer(column), ColumnPointer(other);
    assert p == [p[0], p[1]] && q == [q[0], q[1]];
    SectionsOf(info, column);
    SectionsOf(info, other);
    if other != column {
      ColumnPointersDiffer(other, column);
    }
    MemberGet2(DocumentWith(info, column, value), q[0], q[1]);
    MemberGet2(EncodeInfo(info), q[0], q[1]);
    EncodeInfoGet(info, other);
  }

  lemma SectionsOf(info: SensorInfo, column: Column)
    requires column in COLUMNS
    ensures var doc, p := EncodeInfo(info), ColumnPointer(column);
            && doc.JObject? && doc.members.Keys == {"metadata", "spec"} && p[0] in doc.members
            && doc.members[p[0]].JObject? && p[1] in doc.members[p[0]].members
            && doc.members["metadata"].JObject? && doc.members["spec"].JObject?
            && p != ["metadata", "id"]
            && Get(doc, ["metadata", "id"]) == Some(JString(info.id))
  {
    NoColumnIsId(column);
    EncodedId(info);
  }

  lemma DocumentDecodes(info: SensorInfo, column: Column, value: Option<Json>)
    requires column in COLUMNS
    ensures DecodeInfo(DocumentWith(info, column, value), info) ==
            DecodeFields(other => ValueWith(info, column, value, other), info)
  {
    hide EncodeColumn, EncodeInfo, ColumnPointer, ColumnValue, ValueWith, DecodeFields;
    var doc, p := DocumentWith(info, column, value), ColumnPointer(column);
    SectionsOf(info, column);
    MemberGet(doc, "metadata");
    MemberGet(doc, "spec");
    IdStays(info, column, value);
    forall c | c in COLUMNS
      ensures ColumnValue(doc, c) == ValueWith(info, column, value, c)
    {
      DocumentHolds(info, column, value, c);
    }
    FieldsReadColumns(c => ColumnValue(doc, c), other => ValueWith(info, column, value, other), info);
  }

  lemma FieldsReadColumns(a: Column -> Option<Json>, b: Column -> Option<Json>, info: SensorInfo)
    requires forall c | c in COLUMNS :: a(c) == b(c)
    ensures DecodeFields(a, info) == DecodeFields(b, info)
  {
    hide DecodeLabels, DecodeRules, DecodeString, DecodeInt64;
  }

  lemma IdStays(info: SensorInfo, column: Column, value: Option<Json>)
    requires column in COLUMNS
    ensures Get(DocumentWith(info, column, value), ["metadata", "id"]) == Some(JString(info.id))
  {
    hide EncodeInfo, ColumnPointer;
    var p := ColumnPointer(column);
    assert p == [p[0], p[1]];
    SectionsOf(info, column);
    MemberGet2(EncodeInfo(info), "metadata", "id");
    MemberGet2(DocumentWith(info, column, value), "metadata", "id");
  }

  /** Both operations apply, and what comes of them is what the fields decode to. */
  lemma OneFieldPatch(info: SensorInfo, column: Column, value: Option<Json>)
    requires column in COLUMNS
    ensures PatchInfo(info, [FieldOp(ColumnPath(column), value)]) ==
            match DecodeFields(other => ValueWith(info, column, value, other), info)
            case None => Err(BadShape)
            case Some(updated) => Ok(updated)
  {
    hide ValidatePath, ParsePointer, EncodeInfo, DecodeInfo, DecodeFields, ColumnPath, ColumnPointer, ValueWith;
    var op := FieldOp(ColumnPath(column), value);
    ColumnPathIsPatchable(column);
    DocumentDecodes(info, column, value);
    FieldApplies(info, column, value);
    assert [op][1..] == [];
    var wire := BuildOp(op).value;
    assert [wire] + [] == [wire] && [wire][1..] == [] && forall o :: o in [op] <==> o == op;
    assert BuildOps([op]) == Some([wire]);
    OneOpApplies(EncodeInfo(info), ColumnPath(column), ColumnPointer(column), value);
    assert ApplyOp(EncodeInfo(info), wire) == Some(DocumentWith(info, column, value));
    assert ApplyOps(EncodeInfo(info), [wire]) == Some(DocumentWith(info, column, value));
  }

  lemma OneOpApplies(doc: Json, path: string, p: Pointer, value: Option<Json>)
    requires ParsePointer(path) == Some(p) && p != []
    ensures ApplyOp(doc, WireOp("remove", path, None, None)) == EditAt(doc, p, Remove)
    ensures value.Some? ==> ApplyOp(doc, WireOp("replace", path, value, None)) == EditAt(doc, p, Replace(value.value))
  {
    hide ParsePointer, EditAt;
    assert "replace"[2] != "remove"[2];
  }

  lemma FieldApplies(info: SensorInfo, column: Column, value: Option<Json>)
    requires column in COLUMNS
    ensures var edit := if value.Some? then Replace(value.value) else Remove;
            EditAt(EncodeInfo(info), ColumnPointer(column), edit) == Some(DocumentWith(info, column, value))
  {
    hide EncodeInfo, ColumnPointer;
    SectionsOf(info, column);
    var doc, p := EncodeInfo(info).members, ColumnPointer(column);
    assert p == [p[0], p[1]] && p[1..] == [p[1]];
    if value.Some? {
      ReplaceInSection(doc, p[0], p[1], value.value);
    } else {
      assert EditAt(doc[p[0]], [p[1]], Remove) == Some(JObject(doc[p[0]].members - {p[1]}));
    }
  }

  // ---- which values each field takes ----------------------------------------------------------------

  predicate IsTextOrNull(j: Json) {
    j.JString? || j.JNull?
  }

  function TextIn(j: Json): string {
    if j.JString? then j.s else ""
  }

  /** What a patch of one field comes to: the field set, or a value of the wrong shape. */
  function Outcome(fits: bool, after: SensorInfo): Result<SensorInfo, PatchError> {
    if fits then Ok(Unversioned(after)) else Err(BadShape)
  }

  lemma DecodeChanged(info: SensorInfo, column: Column, value: Option<Json>)
    requires column in COLUMNS
    ensures DecodeFields(other => ValueWith(info, column, value, other), info) ==
            DecodeField(value, column, Unversioned(info))
  {
    hide DecodeLabels, EncodeLabels, DecodeItems, EncodeRules, DecodeRules;
    LabelsRoundTrip(info.labels);
    RulesRoundTrip(info.rules);
    var get := other => ValueWith(info, column, value, other);
    forall c | c in COLUMNS && c != column
      ensures get(c) == Some(EncodeColumn(info, c))
    {
    }
    assert get(column) == value;
  }

  lemma RulesRoundTrip(rules: seq<Option<Rule>>)
    ensures DecodeRules(Some(JArray(EncodeRules(rules)))) == Some(rules)
  {
    ItemsRoundTrip(rules);
  }

  /** The path of each field, spelled out. */
  lemma PathsSpelled()
    ensures ColumnPath(ColName) == "/metadata/name" && ColumnPath(ColNamespace) == "/metadata/namespace"
    ensures ColumnPath(ColDescription) == "/metadata/description" && ColumnPath(ColLabels) == "/metadata/labels"
    ensures ColumnPath(ColGraceful) == "/spec/graceful_period_seconds"
    ensures ColumnPath(ColFailure) == "/spec/failure_period_seconds"
    ensures ColumnPath(ColRules) == "/spec/rules"
  {
    hide ColumnPointer;
    PathSpelled("/metadata/name", ColName);
    PathSpelled("/metadata/namespace", ColNamespace);
    PathSpelled("/metadata/description", ColDescription);
    PathSpelled("/metadata/labels", ColLabels);
    PathSpelled("/spec/graceful_period_seconds", ColGraceful);
    PathSpelled("/spec/failure_period_seconds", ColFailure);
    PathSpelled("/spec/rules", ColRules);
  }

  lemma PathSpelled(path: string, column: Column)
    requires column in COLUMNS && path == ColumnRoot(column)
    ensures path == ColumnPath(column)
  {
    hide ColumnPointer, ColumnOfRoot;
    ColumnRootIsKey(column);
    PatchableRoot(path);
  }

  /** A patch of one field comes to what the value decodes to. */
  lemma FieldComesTo(info: SensorInfo, column: Column, value: Option<Json>, fits: bool, after: SensorInfo)
    requires column in COLUMNS
    requires DecodeField(value, column, Unversioned(info)) == if fits then Some(Unversioned(after)) else None
    ensures PatchInfo(info, [FieldOp(ColumnPath(column), value)]) == Outcome(fits, after)
  {
    hide PatchInfo, DecodeFields, DecodeField, ColumnPath;
    OneFieldPatch(info, column, value);
    DecodeChanged(info, column, value);
  }

  /** The text fields take text, and null as empty text. */
  lemma TextFieldTakes(info: SensorInfo, j: Json)
    ensures var fits, v := IsTextOrNull(j), TextIn(j);
            && PatchInfo(info, [ReplaceField("/metadata/name", j)]) == Outcome(fits, info.(name := v))
            && PatchInfo(info, [ReplaceField("/metadata/namespace", j)]) == Outcome(fits, info.(namespace := v))
            && PatchInfo(info, [ReplaceField("/metadata/description", j)]) == Outcome(fits, info.(description := v))
  {
    hide PatchInfo, ColumnPath;
    PathsSpelled();
    var fits, v := IsTextOrNull(j), TextIn(j);
    FieldComesTo(info, ColName, Some(j), fits, info.(name := v));
    FieldComesTo(info, ColNamespace, Some(j), fits, info.(namespace := v));
    FieldComesTo(info, ColDescription, Some(j), fits, info.(description := v));
  }

  /** The periods take whole numbers of 64 bits, and null as zero. */
  lemma PeriodFieldTakes(info: SensorInfo, j: Json)
    ensures j.JInt? && -0x8000_0000_0000_0000 <= j.n <= 0x7FFF_FFFF_FFFF_FFFF ==>
              && PatchInfo(info, [ReplaceField("/spec/graceful_period_seconds", j)]) ==
                 Ok(Unversioned(info.(gracefulPeriod := j.n)))
              && PatchInfo(info, [ReplaceField("/spec/failure_period_seconds", j)]) ==
                 Ok(Unversioned(info.(failurePeriod := j.n)))
    ensures j.JNull? ==>
              && PatchInfo(info, [ReplaceField("/spec/graceful_period_seconds", j)]) ==
                 Ok(Unversioned(info.(gracefulPeriod := 0)))
              && PatchInfo(info, [ReplaceField("/spec/failure_period_seconds", j)]) ==
                 Ok(Unversioned(info.(failurePeriod := 0)))
    ensures !j.JNull? && !(j.JInt? && -0x8000_0000_0000_0000 <= j.n <= 0x7FFF_FFFF_FFFF_FFFF) ==>
              && PatchInfo(info, [ReplaceField("/spec/graceful_period_seconds", j)]) == Err(BadShape)
              && PatchInfo(info, [ReplaceField("/spec/failure_period_seconds", j)]) == Err(BadShape)
  {
    hide PatchInfo, ColumnPath;
    PathsSpelled();
    var fits := j.JNull? || (j.JInt? && -0x8000_0000_0000_0000 <= j.n <= 0x7FFF_FFFF_FFFF_FFFF);
    var v: Int64 := if fits && j.JInt? then j.n else 0;
    FieldComesTo(info, ColGraceful, Some(j), fits, info.(gracefulPeriod := v));
    FieldComesTo(info, ColFailure, Some(j), fits, info.(failurePeriod := v));
  }

  /** The labels take an object of texts, a null among them as empty text, and null as no labels at all. */
  lemma LabelsFieldTakes(info: SensorInfo, j: Json)
    ensures var fits := j.JNull? || (j.JObject? && forall k | k in j.members :: IsTextOrNull(j.members[k]));
            var labels := if j.JObject? then Some(map k | k in j.members :: TextIn(j.members[k])) else None;
            PatchInfo(info, [ReplaceField("/metadata/labels", j)]) == Outcome(fits, info.(labels := labels))
  {
    hide PatchInfo, ColumnPath;
    PathsSpelled();
    var fits := j.JNull? || (j.JObject? && forall k | k in j.members :: IsTextOrNull(j.members[k]));
    var labels := if j.JObject? then Some(map k | k in j.members :: TextIn(j.members[k])) else None;
    LabelsDecode(j);
    FieldComesTo(info, ColLabels, Some(j), fits, info.(labels := labels));
  }

  lemma LabelsDecode(j: Json)
    ensures var fits := j.JNull? || (j.JObject? && forall k | k in j.members :: IsTextOrNull(j.members[k]));
            var labels := if j.JObject? then Some(map k | k in j.members :: TextIn(j.members[k])) else None;
            DecodeLabels(Some(j)) == if fits then Some(labels) else None
  {
    if j.JObject? {
      forall k | k in j.members
        ensures DecodeString(Some(j.members[k])) ==
                if IsTextOrNull(j.members[k]) then Some(TextIn(j.members[k])) else None
      {
      }
      if forall k | k in j.members :: IsTextOrNull(j.members[k]) {
        assert (map k | k in j.members :: DecodeString(Some(j.members[k])).value) ==
               (map k | k in j.members :: TextIn(j.members[k]));
      }
    }
  }

  // ---- rules -------------------------------------------------------------------------------------------

  const RULE_MEMBERS: set<string> := {"name", "expression", "target_state", "message_template"}

  /** A rule in a document: null, or an object whose members of a rule are text; other members do not matter. */
  predicate IsRuleOrNull(j: Json) {
    j.JNull? || (j.JObject? && forall key | key in RULE_MEMBERS && key in j.members :: IsTextOrNull(j.members[key]))
  }

  function RuleMember(members: map<string, Json>, key: string): string {
    if key in members then TextIn(members[key]) else ""
  }

  function RuleIn(j: Json): Option<Rule> {
    if !j.JObject? then None
    else Some(Rule(RuleMember(j.members, "name"), RuleMember(j.members, "expression"),
                   RuleMember(j.members, "target_state"), RuleMember(j.members, "message_template")))
  }

  lemma RuleDecodes(j: Json)
    ensures DecodeRule(j) == if IsRuleOrNull(j) then Some(RuleIn(j)) else None
  {
    if j.JObject? {
      forall key | key in RULE_MEMBERS
        ensures DecodeString(Get(j, [key])) ==
                if key in j.members && !IsTextOrNull(j.members[key]) then None else Some(RuleMember(j.members, key))
      {
        MemberGet(j, key);
      }
    }
  }

  function RulesIn(items: seq<Json>): (rules: seq<Option<Rule>>)
    ensures |rules| == |items| && forall i | 0 <= i < |items| :: rules[i] == RuleIn(items[i])
  {
    seq(|items|, i requires 0 <= i < |items| => RuleIn(items[i]))
  }

  lemma {:induction false} ItemsDecode(items: seq<Json>)
    ensures DecodeItems(items) ==
            if forall item | item in items :: IsRuleOrNull(item) then Some(RulesIn(items)) else None
    decreases |items|
  {
    hide DecodeRule, RuleIn, IsRuleOrNull;
    if items == [] {
      assert RulesIn(items) == [];
    } else {
      RuleDecodes(items[0]);
      ItemsDecode(items[1..]);
      assert forall item :: item in items <==> item == items[0] || item in items[1..];
      assert RulesIn(items) == [RuleIn(items[0])] + RulesIn(items[1..]);
    }
  }

  /** The rules take a list of rules, a null among them as a nil rule, and null as the empty list. */
  lemma RulesFieldTakes(info: SensorInfo, j: Json)
    ensures var fits := j.JNull? || (j.JArray? && forall item | item in j.items :: IsRuleOrNull(item));
            var rules := if j.JArray? then RulesIn(j.items) else [];
            PatchInfo(info, [ReplaceField("/spec/rules", j)]) == Outcome(fits, info.(rules := rules))
  {
    hide PatchInfo, ColumnPath, DecodeItems, IsRuleOrNull, RulesIn;
    PathsSpelled();
    var fits := j.JNull? || (j.JArray? && forall item | item in j.items :: IsRuleOrNull(item));
    var rules := if j.JArray? then RulesIn(j.items) else [];
    if j.JArray? {
      ItemsDecode(j.items);
    }
    FieldComesTo(info, ColRules, Some(j), fits, info.(rules := rules));
  }

  // ---- removing ------------------------------------------------------------------------------------------

  /** A field that is removed is empty or zero afterwards, as if it had been replaced by null. */
  lemma RemovedFieldIsEmpty(info: SensorInfo)
    ensures PatchInfo(info, [RemoveField("/metadata/name")]) == Ok(Unversioned(info.(name := "")))
    ensures PatchInfo(info, [RemoveField("/metadata/namespace")]) == Ok(Unversioned(info.(namespace := "")))
    ensures PatchInfo(info, [RemoveField("/metadata/description")]) == Ok(Unversioned(info.(description := "")))
    ensures PatchInfo(info, [RemoveField("/metadata/labels")]) == Ok(Unversioned(info.(labels := None)))
    ensures PatchInfo(info, [RemoveField("/spec/graceful_period_seconds")]) ==
            Ok(Unversioned(info.(gracefulPeriod := 0)))
    ensures PatchInfo(info, [RemoveField("/spec/failure_period_seconds")]) ==
            Ok(Unversioned(info.(failurePeriod := 0)))
    ensures PatchInfo(info, [RemoveField("/spec/rules")]) == Ok(Unversioned(info.(rules := [])))
  {
    hide PatchInfo, ColumnPath;
    PathsSpelled();
    FieldComesTo(info, ColName, None, true, info.(name := ""));
    FieldComesTo(info, ColNamespace, None, true, info.(namespace := ""));
    FieldComesTo(info, ColDescription, None, true, info.(description := ""));
    FieldComesTo(info, ColLabels, None, true, info.(labels := None));
    FieldComesTo(info, ColGraceful, None, true, info.(gracefulPeriod := 0));
    FieldComesTo(info, ColFailure, None, true, info.(failurePeriod := 0));
    FieldComesTo(info, ColRules, None, true, info.(rules := []));
  }
}
