/**
 How the command line turns edits of a rule list into JSON Patch operations
 (cmd/qivitals-cli/cmd/update.go): it does not hold the list, only how long it is.
 */
module RuleEdits {
  import opened Wrappers
  import opened Strings
  import opened Sensors
  import opened JsonPatch
  import opened Patching
  import opened RuleGrammar
  import StoreModel
  import Service

  datatype EditError = BadRule | BadIndex | IndexOutOfRange | NoIndex

  /** strconv.Atoi: an optional sign and digits, within 64 bits. */
  function Atoi(s: string): Option<int> {
    var digits := if s != "" && (s[0] == '+' || s[0] == '-') then s[1..] else s;
    if digits == "" || !AllDigits(digits) then None
    else
      var value: int := DigitsValue(digits);
      var n := if s[0] == '-' then -value else value;
      if -0x8000_0000_0000_0000 <= n <= 0x7FFF_FFFF_FFFF_FFFF then Some(n) else None
  }

  /** Atoi reads every decimal form within 64 bits, with or without a sign. */
  lemma AtoiReadsDecimals(n: nat)
    ensures Atoi(Digits(n)) == Atoi("+" + Digits(n)) == if n <= 0x7FFF_FFFF_FFFF_FFFF then Some(n) else None
    ensures Atoi("-" + Digits(n)) == if n <= 0x8000_0000_0000_0000 then Some(-(n as int)) else None
  {
    hide Digits, DigitsValue;
    var digits := Digits(n);
    DigitsRoundTrip(n);
    assert IsDigit(digits[0]);
    assert ("+" + digits)[1..] == digits && ("-" + digits)[1..] == digits;
  }

  /** Nothing else is a number: a text that Atoi reads is digits, at least one, behind at most one sign. */
  lemma AtoiReadsNothingElse(s: string)
    requires Atoi(s).Some?
    ensures s != "" && (AllDigits(s) || (|s| > 1 && s[0] in ['+', '-'] && AllDigits(s[1..])))
    ensures -0x8000_0000_0000_0000 <= Atoi(s).value <= 0x7FFF_FFFF_FFFF_FFFF
  {
  }

  function AddOp(rule: Rule): PatchOperation {
    PatchOperation("add", "/spec/rules/-", JsonText(EncodeRule(Some(rule))))
  }

  const CLEAR_OP := PatchOperation("replace", "/spec/rules", JsonText(JArray([])))

  function IndexPath(index: nat): string {
    "/spec/rules/" + Digits(index)
  }

  function RemoveOp(index: nat): PatchOperation {
    PatchOperation("remove", IndexPath(index), NoValue)
  }

  function ReplaceOp(index: nat, rule: Rule): PatchOperation {
    PatchOperation("replace", IndexPath(index), JsonText(EncodeRule(Some(rule))))
  }

  function AddOps(adds: seq<string>): Result<seq<PatchOperation>, EditError>
    decreases |adds|
  {
    if adds == [] then Ok([]) else
      match ParseRule(adds[0])
      case None => Err(BadRule)
      case Some(rule) =>
        var rest :- AddOps(adds[1..]);
        Ok([AddOp(rule)] + rest)
  }

  /** The operations of the remove flags on a list of `count` rules, and how many rules are left. */
  function RemoveOps(removes: seq<string>, count: nat): Result<(seq<PatchOperation>, nat), EditError>
    decreases |removes|
  {
    if removes == [] then Ok(([], count))
    else if removes[0] == "all" then
      var rest :- RemoveOps(removes[1..], 0);
      Ok(([CLEAR_OP] + rest.0, rest.1))
    else
      match Atoi(removes[0])
      case None => Err(BadIndex)
      case Some(index) =>
        if !(0 <= index < count) then Err(IndexOutOfRange) else
          var rest :- RemoveOps(removes[1..], count - 1);
          Ok(([RemoveOp(index)] + rest.0, rest.1))
  }

  function ReplaceOne(s: string, count: nat): Result<(nat, Rule), EditError> {
    match Cut(s, ':')
    case None => Err(NoIndex)
    case Some((indexText, ruleText)) =>
      match Atoi(indexText)
      case None => Err(BadIndex)
      case Some(index) =>
        if !(0 <= index < count) then Err(IndexOutOfRange) else
          match ParseRule(ruleText)
          case None => Err(BadRule)
          case Some(rule) => Ok((index, rule))
  }

  function ReplaceOps(swaps: seq<string>, count: nat): Result<seq<PatchOperation>, EditError>
    decreases |swaps|
  {
    if swaps == [] then Ok([]) else
      var one :- ReplaceOne(swaps[0], count);
      var rest :- ReplaceOps(swaps[1..], count);
      Ok([ReplaceOp(one.0, one.1)] + rest)
  }

  /** All operations: additions first, then removals, then replacements. */
  function CalculateOps(count: nat, adds: seq<string>, removes: seq<string>, swaps: seq<string>)
    : Result<seq<PatchOperation>, EditError>
  {
    var a :- AddOps(adds);
    var r :- RemoveOps(removes, count);
    var p :- ReplaceOps(swaps, r.1);
    Ok(a + r.0 + p)
  }

  // ---- when the edits are accepted ---------------------------------------------------------

  predicate InRange(index: Option<int>, count: int) {
    index.Some? && 0 <= index.value < count
  }

  /** How many rules the counter says are left once all removals are through. */
  function CountAfter(removes: seq<string>, count: int): int {
    if "all" in removes then 0 else count - |removes|
  }

  lemma {:induction false} AddsAcceptedIff(adds: seq<string>)
    ensures AddOps(adds).Ok? <==> forall s | s in adds :: ':' in s
    decreases |adds|
  {
    hide ParseRule, EncodeRule;
    if adds != [] {
      AcceptedIffColon(adds[0]);
      AddsAcceptedIff(adds[1..]);
      assert forall s :: s in adds <==> s == adds[0] || s in adds[1..];
    }
  }

  /** An index is measured against what the removals before it have left; after "all" nothing is. */
  predicate RemoveAccepted(removes: seq<string>, count: int, k: nat)
    requires k < |removes|
  {
    removes[k] == "all" || ("all" !in removes[..k] && InRange(Atoi(removes[k]), count - k))
  }

  lemma {:induction false} RemovesAcceptedIff(removes: seq<string>, count: nat)
    ensures RemoveOps(removes, count).Ok? <==> forall k | 0 <= k < |removes| :: RemoveAccepted(removes, count, k)
    ensures RemoveOps(removes, count).Ok? ==> RemoveOps(removes, count).value.1 == CountAfter(removes, count)
    decreases |removes|
  {
    hide Atoi;
    if removes != [] {
      var rest := removes[1..];
      assert removes == [removes[0]] + rest;
      if removes[0] == "all" {
        RestAccepted(removes, count, 0);
        RemovesAcceptedIff(rest, 0);
      } else if InRange(Atoi(removes[0]), count) {
        RestAccepted(removes, count, count - 1);
        RemovesAcceptedIff(rest, count - 1);
      } else {
        assert !RemoveAccepted(removes, count, 0);
      }
    }
  }

  lemma RestAccepted(removes: seq<string>, count: nat, left: nat)
    requires removes != []
    requires if removes[0] == "all" then left == 0 else InRange(Atoi(removes[0]), count) && left == count - 1
    ensures (forall k | 0 <= k < |removes| :: RemoveAccepted(removes, count, k)) <==>
            (forall k | 0 <= k < |removes| - 1 :: RemoveAccepted(removes[1..], left, k))
  {
    hide Atoi;
    var rest := removes[1..];
    forall k | 0 <= k < |rest|
      ensures RemoveAccepted(rest, left, k) <==> RemoveAccepted(removes, count, k + 1)
    {
      assert removes[..k + 1] == [removes[0]] + rest[..k];
    }
    assert RemoveAccepted(removes, count, 0);
    assert forall k | 0 < k < |removes| :: RemoveAccepted(rest, left, k - 1) <==> RemoveAccepted(removes, count, k);
  }

  predicate ReplaceAccepted(s: string, count: int) {
    var cut := Cut(s, ':');
    cut.Some? && InRange(Atoi(cut.value.0), count) && ':' in cut.value.1
  }

  lemma {:induction false} ReplacesAcceptedIff(swaps: seq<string>, count: nat)
    ensures ReplaceOps(swaps, count).Ok? <==> forall s | s in swaps :: ReplaceAccepted(s, count)
    decreases |swaps|
  {
    hide ParseRule, Atoi;
    if swaps != [] {
      var cut := Cut(swaps[0], ':');
      if cut.Some? {
        AcceptedIffColon(cut.value.1);
      }
      ReplacesAcceptedIff(swaps[1..], count);
      assert ReplaceOne(swaps[0], count).Ok? <==> ReplaceAccepted(swaps[0], count);
      assert forall s :: s in swaps <==> s == swaps[0] || s in swaps[1..];
    }
  }

  /** Exactly these edits compile. */
  lemma EditsAcceptedIff(count: nat, adds: seq<string>, removes: seq<string>, swaps: seq<string>)
    ensures CalculateOps(count, adds, removes, swaps).Ok? <==>
            && (forall s | s in adds :: ':' in s)
            && (forall k | 0 <= k < |removes| :: RemoveAccepted(removes, count, k))
            && (forall s | s in swaps :: ReplaceAccepted(s, CountAfter(removes, count)))
  {
    AddsAcceptedIff(adds);
    RemovesAcceptedIff(removes, count);
    if RemoveOps(removes, count).Ok? {
      ReplacesAcceptedIff(swaps, CountAfter(removes, count));
    }
  }

  // ---- what the edits mean -----------------------------------------------------------------

  /** The rules that the add flags describe. */
  function AddedRules(adds: seq<string>): seq<Option<Rule>> {
    if adds == [] then [] else [ParseRule(adds[0])] + AddedRules(adds[1..])
  }

  /** What the removals leave of the original rules, each index counting in the list left so far. */
  function Survivors(rules: seq<Option<Rule>>, removes: seq<string>): seq<Option<Rule>>
    decreases |removes|
  {
    if removes == [] then rules
    else if removes[0] == "all" then Survivors([], removes[1..])
    else
      var index := Atoi(removes[0]);
      var left := if InRange(index, |rules|) then rules[..index.value] + rules[index.value + 1..] else rules;
      Survivors(left, removes[1..])
  }

  function Replaced(rules: seq<Option<Rule>>, swaps: seq<string>): (r: seq<Option<Rule>>)
    ensures |r| == |rules|
    decreases |swaps|
  {
    if swaps == [] then rules else
      var one := ReplaceOne(swaps[0], |rules|);
      Replaced(if one.Ok? then rules[one.value.0 := Some(one.value.1)] else rules, swaps[1..])
  }

  /** Replaced survivors first, then the added rules, unless everything was removed. */
  function EditedRules(rules: seq<Option<Rule>>, adds: seq<string>, removes: seq<string>, swaps: seq<string>)
    : seq<Option<Rule>>
  {
    Replaced(Survivors(rules, removes), swaps) + (if "all" in removes then [] else AddedRules(adds))
  }

  // ---- one operation -----------------------------------------------------------------------

  lemma DigitsArePlain(index: nat)
    ensures '/' !in Digits(index) && '~' !in Digits(index)
  {
    assert forall c | c in Digits(index) :: IsDigit(c);
  }

  /** The paths below the rule list are accepted and name one token there. */
  lemma RulesPath(path: string, token: string)
    requires path == "/spec/rules/" + token && '/' !in token && '~' !in token
    ensures ValidatePath(path) && ParsePointer(path) == Some(["spec", "rules", token])
  {
    hide ParsePointer, ValidatePath;
    RulesPathIsAccepted(path, token);
    RulesPathPointer(path, token);
  }

  lemma RulesPathIsAccepted(path: string, token: string)
    requires path == "/spec/rules/" + token
    ensures ValidatePath(path)
  {
    var prefix := "/spec/rules";
    assert prefix in PATCHABLE_PATHS && PATCHABLE_PATHS[prefix];
    assert HasPrefix(path, prefix + "/") by {
      assert prefix + "/" == "/spec/rules/";
    }
  }

  lemma RulesPathPointer(path: string, token: string)
    requires path == "/spec/rules/" + token && '/' !in token && '~' !in token
    ensures ParsePointer(path) == Some(["spec", "rules", token])
  {
    hide Split, Unescape;
    var parts := ["spec", "rules", token];
    assert parts[1..] == ["rules", token] && parts[1..][1..] == [token];
    assert Join(["rules", token], '/') == "rules" + ['/'] + token;
    assert path[1..] == "spec" + ['/'] + ("rules" + ['/'] + token);
    JoinSplit(parts, '/');
    PlainTokenUnescape("spec");
    PlainTokenUnescape("rules");
    PlainTokenUnescape(token);
    assert UnescapeAll(parts) == parts;
  }

  /** An edit of the rule list leaves the rest of the document alone. */
  lemma EditRuleList(info: SensorInfo, token: string, edit: Edit, rules: seq<Option<Rule>>)
    requires EditArray(EncodeRules(info.rules), token, edit) == Some(JArray(EncodeRules(rules)))
    ensures EditAt(EncodeInfo(info), ["spec", "rules", token], edit) == Some(EncodeInfo(info.(rules := rules)))
  {
    var p := ["spec", "rules", token];
    assert p[1..] == ["rules", token] && p[1..][1..] == [token];
    var doc, after := EncodeInfo(info), EncodeInfo(info.(rules := rules));
    var spec := doc.members["spec"];
    assert EditAt(spec.members["rules"], [token], edit) == Some(JArray(EncodeRules(rules)));
    assert EditAt(spec, ["rules", token], edit) == Some(JObject(spec.members["rules" := JArray(EncodeRules(rules))]));
    assert spec.members["rules" := JArray(EncodeRules(rules))] == after.members["spec"].members;
    assert doc.members["spec" := after.members["spec"]] == after.members;
  }

  /** What `op` does to a sensor with rules `before`: its list becomes `after`. */
  predicate Turns(info: SensorInfo, before: seq<Option<Rule>>, op: PatchOperation, after: seq<Option<Rule>>) {
    && ValidatePath(op.path)
    && BuildOp(op).Some?
    && ApplyOp(EncodeInfo(info.(rules := before)), BuildOp(op).value) == Some(EncodeInfo(info.(rules := after)))
  }

  lemma AddTurns(info: SensorInfo, rules: seq<Option<Rule>>, rule: Rule)
    ensures Turns(info, rules, AddOp(rule), rules + [Some(rule)])
  {
    hide ValidatePath, ParsePointer, EncodeInfo, EncodeRule, EditAt;
    RulesPath("/spec/rules/-", "-");
    assert EncodeRules(rules) + [EncodeRule(Some(rule))] == EncodeRules(rules + [Some(rule)]);
    EditRuleList(info.(rules := rules), "-", Add(EncodeRule(Some(rule))), rules + [Some(rule)]);
  }

  lemma RemoveTurns(info: SensorInfo, rules: seq<Option<Rule>>, i: nat)
    requires i < |rules|
    ensures Turns(info, rules, RemoveOp(i), rules[..i] + rules[i + 1..])
  {
    hide ValidatePath, ParsePointer, EncodeInfo, EncodeRule, EditAt;
    DigitsArePlain(i);
    RulesPath(IndexPath(i), Digits(i));
    ArrayIndexIffDigits(Digits(i), i);
    DashIsNoIndex();
    var items := EncodeRules(rules);
    assert items[..i] + items[i + 1..] == EncodeRules(rules[..i] + rules[i + 1..]);
    EditRuleList(info.(rules := rules), Digits(i), Remove, rules[..i] + rules[i + 1..]);
  }

  lemma ReplaceTurns(info: SensorInfo, rules: seq<Option<Rule>>, i: nat, rule: Rule)
    requires i < |rules|
    ensures Turns(info, rules, ReplaceOp(i, rule), rules[i := Some(rule)])
  {
    hide ValidatePath, ParsePointer, EncodeInfo, EncodeRule, EditAt;
    DigitsArePlain(i);
    RulesPath(IndexPath(i), Digits(i));
    ArrayIndexIffDigits(Digits(i), i);
    DashIsNoIndex();
    assert EncodeRules(rules)[i := EncodeRule(Some(rule))] == EncodeRules(rules[i := Some(rule)]);
    EditRuleList(info.(rules := rules), Digits(i), Replace(EncodeRule(Some(rule))), rules[i := Some(rule)]);
  }

  lemma ClearTurns(info: SensorInfo, rules: seq<Option<Rule>>)
    ensures Turns(info, rules, CLEAR_OP, [])
  {
    hide ParsePointer, EncodeInfo, EditAt;
    ExactPointer("/spec/rules", "spec", "rules");
    assert "/spec/rules" in PATCHABLE_PATHS;
    ReplaceRuleList(info.(rules := rules));
  }

  lemma ReplaceRuleList(info: SensorInfo)
    ensures EditAt(EncodeInfo(info), ["spec", "rules"], Replace(JArray([]))) == Some(EncodeInfo(info.(rules := [])))
  {
    var p := ["spec", "rules"];
    assert p[1..] == ["rules"];
    var doc, after := EncodeInfo(info), EncodeInfo(info.(rules := []));
    var spec := doc.members["spec"];
    assert EncodeRules([]) == [];
    assert EditAt(spec, ["rules"], Replace(JArray([]))) == Some(JObject(spec.members["rules" := JArray([])]));
    assert spec.members["rules" := JArray([])] == after.members["spec"].members;
    assert doc.members["spec" := after.members["spec"]] == after.members;
  }

  // ---- all operations ----------------------------------------------------------------------

  /** What a list of operations does to a sensor with rules `before`: its list becomes `after`. */
  predicate TurnsAll(info: SensorInfo, before: seq<Option<Rule>>, ops: seq<PatchOperation>, after: seq<Option<Rule>>) {
    && (forall op | op in ops :: ValidatePath(op.path))
    && BuildOps(ops).Some?
    && ApplyOps(EncodeInfo(info.(rules := before)), BuildOps(ops).value) == Some(EncodeInfo(info.(rules := after)))
  }

  lemma TurnsNone(info: SensorInfo, rules: seq<Option<Rule>>)
    ensures TurnsAll(info, rules, [], rules)
  {
  }

  lemma TurnsFirst(info: SensorInfo, before: seq<Option<Rule>>, op: PatchOperation, mid: seq<Option<Rule>>,
                   ops: seq<PatchOperation>, after: seq<Option<Rule>>)
    requires Turns(info, before, op, mid) && TurnsAll(info, mid, ops, after)
    ensures TurnsAll(info, before, [op] + ops, after)
  {
    hide ValidatePath, ApplyOp, BuildOp, EncodeInfo;
    var all := [op] + ops;
    assert all[0] == op && all[1..] == ops;
    var wire := BuildOps(all).value;
    assert wire[0] == BuildOp(op).value && wire[1..] == BuildOps(ops).value;
  }

  lemma {:induction false} TurnsBoth(info: SensorInfo, before: seq<Option<Rule>>, a: seq<PatchOperation>,
                                     mid: seq<Option<Rule>>, b: seq<PatchOperation>, after: seq<Option<Rule>>)
    requires TurnsAll(info, before, a, mid) && TurnsAll(info, mid, b, after)
    ensures TurnsAll(info, before, a + b, after)
  {
    hide ValidatePath, ApplyOp, BuildOp, EncodeInfo;
    BuildOpsConcat(a, b);
    ApplyOpsConcat(EncodeInfo(info.(rules := before)), BuildOps(a).value, BuildOps(b).value);
  }

  lemma {:induction false} BuildOpsConcat(a: seq<PatchOperation>, b: seq<PatchOperation>)
    requires BuildOps(a).Some? && BuildOps(b).Some?
    ensures BuildOps(a + b) == Some(BuildOps(a).value + BuildOps(b).value)
    decreases |a|
  {
    hide BuildOp;
    if a == [] {
      assert a + b == b;
      assert [] + BuildOps(b).value == BuildOps(b).value;
    } else {
      assert (a + b)[0] == a[0] && (a + b)[1..] == a[1..] + b;
      BuildOpsConcat(a[1..], b);
      assert [BuildOp(a[0]).value] + (BuildOps(a[1..]).value + BuildOps(b).value) ==
             BuildOps(a).value + BuildOps(b).value;
    }
  }

  lemma {:induction false} AddsTurn(info: SensorInfo, rules: seq<Option<Rule>>, adds: seq<string>)
    requires AddOps(adds).Ok?
    ensures TurnsAll(info, rules, AddOps(adds).value, rules + AddedRules(adds))
    decreases |adds|
  {
    hide Turns, TurnsAll, ParseRule, Atoi, EncodeRule;
    if adds == [] {
      assert rules + [] == rules;
      TurnsNone(info, rules);
    } else {
      var rule := ParseRule(adds[0]).value;
      var longer := rules + [Some(rule)];
      AddTurns(info, rules, rule);
      AddsTurn(info, longer, adds[1..]);
      assert longer + AddedRules(adds[1..]) == rules + AddedRules(adds);
      TurnsFirst(info, rules, AddOp(rule), longer, AddOps(adds[1..]).value, rules + AddedRules(adds));
    }
  }

  /** Removals work on the originals in front and never reach the rules behind them. */
  lemma {:induction false} RemovesTurn(info: SensorInfo, rules: seq<Option<Rule>>, behind: seq<Option<Rule>>,
                                       removes: seq<string>)
    requires RemoveOps(removes, |rules|).Ok?
    ensures |Survivors(rules, removes)| == RemoveOps(removes, |rules|).value.1
    ensures TurnsAll(info, rules + behind, RemoveOps(removes, |rules|).value.0,
                     Survivors(rules, removes) + (if "all" in removes then [] else behind))
    decreases |removes|
  {
    hide Turns, TurnsAll, ParseRule, Atoi, EncodeRule;
    if removes != [] {
      var rest := removes[1..];
      assert removes == [removes[0]] + rest;
      var left := Survivors(rules, removes) + (if "all" in removes then [] else behind);
      if removes[0] == "all" {
        ClearTurns(info, rules + behind);
        var none: seq<Option<Rule>> := [];
        RemovesTurn(info, none, none, rest);
        assert none + none == none;
        TurnsFirst(info, rules + behind, CLEAR_OP, [], RemoveOps(rest, 0).value.0, left);
      } else {
        var i := Atoi(removes[0]).value;
        var fewer := rules[..i] + rules[i + 1..];
        RemoveTurns(info, rules + behind, i);
        assert (rules + behind)[..i] + (rules + behind)[i + 1..] == fewer + behind;
        RemovesTurn(info, fewer, behind, rest);
        TurnsFirst(info, rules + behind, RemoveOp(i), fewer + behind, RemoveOps(rest, |rules| - 1).value.0, left);
      }
    } else {
      TurnsNone(info, rules + behind);
    }
  }

  lemma {:induction false} ReplacesTurn(info: SensorInfo, rules: seq<Option<Rule>>, behind: seq<Option<Rule>>,
                                        swaps: seq<string>)
    requires ReplaceOps(swaps, |rules|).Ok?
    ensures TurnsAll(info, rules + behind, ReplaceOps(swaps, |rules|).value, Replaced(rules, swaps) + behind)
    decreases |swaps|
  {
    hide Turns, TurnsAll, ParseRule, Atoi, EncodeRule;
    if swaps != [] {
      var one := ReplaceOne(swaps[0], |rules|).value;
      var changed := rules[one.0 := Some(one.1)];
      ReplaceTurns(info, rules + behind, one.0, one.1);
      assert (rules + behind)[one.0 := Some(one.1)] == changed + behind;
      ReplacesTurn(info, changed, behind, swaps[1..]);
      TurnsFirst(info, rules + behind, ReplaceOp(one.0, one.1), changed + behind,
                 ReplaceOps(swaps[1..], |rules|).value, Replaced(rules, swaps) + behind);
    } else {
      TurnsNone(info, rules + behind);
    }
  }

  /**
   The compiled operations do on the server what the flags mean on the list, although the command
   line never held the list: the patch is accepted, applies, and changes nothing but the rules.
   */
  lemma EditsCompileCorrectly(info: SensorInfo, adds: seq<string>, removes: seq<string>, swaps: seq<string>)
    requires CalculateOps(|info.rules|, adds, removes, swaps).Ok?
    ensures PatchInfo(info, CalculateOps(|info.rules|, adds, removes, swaps).value) ==
            Ok(Unversioned(info).(rules := EditedRules(info.rules, adds, removes, swaps)))
  {
    var rules, added := info.rules, AddedRules(adds);
    var a, r := AddOps(adds).value, RemoveOps(removes, |rules|).value;
    var kept, behind := Survivors(rules, removes), if "all" in removes then [] else added;
    AddsTurn(info, rules, adds);
    RemovesTurn(info, rules, added, removes);
    TurnsBoth(info, rules, a, rules + added, r.0, kept + behind);
    ReplacesTurn(info, kept, behind, swaps);
    var p := ReplaceOps(swaps, r.1).value;
    var final := EditedRules(rules, adds, removes, swaps);
    TurnsBoth(info, rules, a + r.0, kept + behind, p, final);
    assert info.(rules := rules) == info;
    InfoRoundTrip(info.(rules := final));
    SameOwner(EncodeInfo(info.(rules := final)), info, info.(rules := final));
  }

  lemma {:induction false} AddsCount(adds: seq<string>)
    requires AddOps(adds).Ok?
    ensures |AddOps(adds).value| == |adds|
    decreases |adds|
  {
    hide ParseRule, AddOp;
    if adds != [] {
      AddsCount(adds[1..]);
    }
  }

  lemma {:induction false} RemovesCount(removes: seq<string>, count: nat)
    requires RemoveOps(removes, count).Ok?
    ensures |RemoveOps(removes, count).value.0| == |removes|
    decreases |removes|
  {
    hide Atoi, RemoveOp;
    if removes != [] {
      RemovesCount(removes[1..], if removes[0] == "all" then 0 else count - 1);
    }
  }

  lemma {:induction false} ReplacesCount(swaps: seq<string>, count: nat)
    requires ReplaceOps(swaps, count).Ok?
    ensures |ReplaceOps(swaps, count).value| == |swaps|
    decreases |swaps|
  {
    hide ReplaceOne, ReplaceOp;
    if swaps != [] {
      ReplacesCount(swaps[1..], count);
    }
  }

  /**
   What the command does to the sensor it was given: under the version it carries, its rules become the
   edited ones and nothing else changes. Without any edit the request is refused as empty.
   */
  lemma EditsReachTheSensor(st: StoreModel.Store, id: string, adds: seq<string>, removes: seq<string>,
                            swaps: seq<string>, now: int, version: string)
    requires id != "" && id in st && st[id].info.labels.Some?
    requires CalculateOps(|st[id].info.rules|, adds, removes, swaps).Ok?
    ensures var info := st[id].info;
            var ops := CalculateOps(|info.rules|, adds, removes, swaps).value;
            Service.PatchSensorModel(st, id, info.resourceVersion, ops, now, version) ==
            if adds == [] && removes == [] && swaps == [] then Err(Service.InvalidArgument)
            else Ok(st[id := st[id].(info := info.(rules := EditedRules(info.rules, adds, removes, swaps),
                                                   lastSpecUpdatedAt := now, resourceVersion := version))])
  {
    hide PatchInfo, AddOps, RemoveOps, ReplaceOps, EditedRules;
    var info := st[id].info;
    EditsCompileCorrectly(info, adds, removes, swaps);
    AddsCount(adds);
    RemovesCount(removes, |info.rules|);
    ReplacesCount(swaps, RemoveOps(removes, |info.rules|).value.1);
    var updated := Unversioned(info).(rules := EditedRules(info.rules, adds, removes, swaps));
    assert Service.Committed(info, updated, now, version) ==
           info.(rules := updated.rules, lastSpecUpdatedAt := now, resourceVersion := version);
  }

  /** With "all" among the removals nothing is left, not even the rules added by the same command. */
  lemma AllClearsAdditionsToo(rules: seq<Option<Rule>>, adds: seq<string>, removes: seq<string>, swaps: seq<string>)
    requires CalculateOps(|rules|, adds, removes, swaps).Ok?
    requires "all" in removes
    ensures EditedRules(rules, adds, removes, swaps) == [] && swaps == []
  {
    assert swaps != [] ==> swaps[0] in swaps;
    EditsAcceptedIff(|rules|, adds, removes, swaps);
    RemovesAcceptedIff(removes, |rules|);
    var info := SensorInfo("", "", "", "", "", 0, 0, None, 0, 0, rules);
    RemovesTurn(info, rules, [], removes);
    assert forall s | s in swaps :: ReplaceAccepted(s, 0);
  }

  // ---- why edits are refused -----------------------------------------------------------------

  /** Why one replacement is refused: no colon, no number before it, a number out of range, or no rule behind it. */
  lemma ReplaceErrorIff(s: string, count: nat)
    ensures var cut := Cut(s, ':');
            && (ReplaceOne(s, count) == Err(NoIndex) <==> ':' !in s)
            && (cut.Some? ==>
                  var index := Atoi(cut.value.0);
                  && (ReplaceOne(s, count) == Err(BadIndex) <==> index == None)
                  && (ReplaceOne(s, count) == Err(IndexOutOfRange) <==> index.Some? && !InRange(index, count))
                  && (ReplaceOne(s, count) == Err(BadRule) <==> InRange(index, count) && ':' !in cut.value.1))
  {
    hide Atoi, ParseRule;
    var cut := Cut(s, ':');
    if cut.Some? {
      AcceptedIffColon(cut.value.1);
      assert s[|cut.value.0|] == ':';
    } else {
      assert s == s[..|s|];
    }
  }

  /** The first removal that is refused says why: its text is no number, or its number is out of range by then. */
  lemma {:induction false} RemoveErrorIs(removes: seq<string>, count: nat, k: nat)
    requires k < |removes| && !RemoveAccepted(removes, count, k)
    requires forall j | 0 <= j < k :: RemoveAccepted(removes, count, j)
    ensures RemoveOps(removes, count) == Err(if Atoi(removes[k]) == None then BadIndex else IndexOutOfRange)
    decreases |removes|
  {
    hide Atoi;
    if k > 0 {
      assert RemoveAccepted(removes, count, 0);
      var left := if removes[0] == "all" then 0 else count - 1;
      forall j | 0 < j < |removes|
        ensures RemoveAccepted(removes, count, j) <==> RemoveAccepted(removes[1..], left, j - 1)
      {
        assert removes[..j] == [removes[0]] + removes[1..][..j - 1];
      }
      forall j | 0 <= j < k - 1
        ensures RemoveAccepted(removes[1..], left, j)
      {
        assert RemoveAccepted(removes, count, j + 1);
      }
      RemoveErrorIs(removes[1..], left, k - 1);
    } else {
      assert removes[..0] == [];
    }
  }

  /** The first replacement that is refused is what all of them are refused for. */
  lemma {:induction false} ReplacesErrorIs(swaps: seq<string>, count: nat, k: nat)
    requires k < |swaps| && ReplaceOne(swaps[k], count).Err?
    requires forall j | 0 <= j < k :: ReplaceOne(swaps[j], count).Ok?
    ensures ReplaceOps(swaps, count) == Err(ReplaceOne(swaps[k], count).error)
    decreases |swaps|
  {
    hide ReplaceOne;
    if k > 0 {
      ReplacesErrorIs(swaps[1..], count, k - 1);
    }
  }

  /** Additions are looked at first, then removals, then replacements, and the first that is refused decides. */
  lemma EditErrorIs(count: nat, adds: seq<string>, removes: seq<string>, swaps: seq<string>)
    ensures var r := CalculateOps(count, adds, removes, swaps);
            && ((exists s | s in adds :: ':' !in s) ==> r == Err(BadRule))
            && ((forall s | s in adds :: ':' in s) && RemoveOps(removes, count).Err? ==>
                  r == Err(RemoveOps(removes, count).error))
            && ((forall s | s in adds :: ':' in s) && RemoveOps(removes, count).Ok?
                && ReplaceOps(swaps, RemoveOps(removes, count).value.1).Err? ==>
                  r == Err(ReplaceOps(swaps, RemoveOps(removes, count).value.1).error))
  {
    hide AddOps, RemoveOps, ReplaceOps;
    AddsAcceptedIff(adds);
    AddErrorIs(adds);
  }

  lemma {:induction false} AddErrorIs(adds: seq<string>)
    ensures AddOps(adds).Err? ==> AddOps(adds) == Err(BadRule)
    decreases |adds|
  {
    if adds != [] {
      AddErrorIs(adds[1..]);
    }
  }

  // ---- which rules the operations address ---------------------------------------------------

  /** The j-th removal clears the list, or removes one of the originals that the j before it have left. */
  predicate IsRemoval(op: PatchOperation, removes: seq<string>, count: int, j: nat)
    requires j < |removes|
  {
    if removes[j] == "all" then op == CLEAR_OP
    else "all" !in removes[..j] && exists i: nat | i < count - j :: Atoi(removes[j]) == Some(i) && op == RemoveOp(i)
  }

  /** A replacement exchanges one of the `left` originals that no removal took. */
  predicate IsReplacement(op: PatchOperation, s: string, left: int) {
    var cut := Cut(s, ':');
    && cut.Some? && ParseRule(cut.value.1).Some?
    && exists i: nat | i < left :: Atoi(cut.value.0) == Some(i) && op == ReplaceOp(i, ParseRule(cut.value.1).value)
  }

  lemma {:induction false} RemovalsByPosition(removes: seq<string>, count: nat)
    requires RemoveOps(removes, count).Ok?
    ensures |RemoveOps(removes, count).value.0| == |removes|
    ensures forall j | 0 <= j < |removes| :: IsRemoval(RemoveOps(removes, count).value.0[j], removes, count, j)
    decreases |removes|
  {
    hide Atoi, IndexPath, IsRemoval;
    if removes != [] {
      var left := if removes[0] == "all" then 0 else count - 1;
      var ops, rest := RemoveOps(removes, count).value.0, RemoveOps(removes[1..], left).value.0;
      RemovalsByPosition(removes[1..], left);
      FirstRemoval(removes, count);
      forall j | 0 < j < |removes|
        ensures IsRemoval(ops[j], removes, count, j)
      {
        LaterRemoval(ops[j], removes, count, left, j);
      }
    }
  }

  lemma FirstRemoval(removes: seq<string>, count: nat)
    requires removes != [] && RemoveOps(removes, count).Ok?
    ensures IsRemoval(RemoveOps(removes, count).value.0[0], removes, count, 0)
  {
    hide Atoi, IndexPath;
    assert removes[..0] == [];
  }

  /** After "all" no index is in range, so nothing but further clearing can follow. */
  lemma LaterRemoval(op: PatchOperation, removes: seq<string>, count: nat, left: nat, j: nat)
    requires 0 < j < |removes| && left == (if removes[0] == "all" then 0 else count - 1)
    requires IsRemoval(op, removes[1..], left, j - 1)
    ensures IsRemoval(op, removes, count, j)
  {
    hide Atoi, IndexPath;
    assert removes[..j] == [removes[0]] + removes[1..][..j - 1];
  }

  lemma {:induction false} ReplacementsByPosition(swaps: seq<string>, left: nat)
    requires ReplaceOps(swaps, left).Ok?
    ensures |ReplaceOps(swaps, left).value| == |swaps|
    ensures forall j | 0 <= j < |swaps| :: IsReplacement(ReplaceOps(swaps, left).value[j], swaps[j], left)
    decreases |swaps|
  {
    hide Atoi, IndexPath, ParseRule, EncodeRule;
    if swaps != [] {
      ReplacementsByPosition(swaps[1..], left);
    }
  }

  lemma {:induction false} AdditionsByPosition(adds: seq<string>)
    requires AddOps(adds).Ok?
    ensures |AddOps(adds).value| == |adds|
    ensures forall j | 0 <= j < |adds| ::
            ParseRule(adds[j]).Some? && AddOps(adds).value[j] == AddOp(ParseRule(adds[j]).value)
    decreases |adds|
  {
    hide ParseRule, EncodeRule;
    if adds != [] {
      AdditionsByPosition(adds[1..]);
    }
  }

  /**
   One operation for each flag, in the order additions, removals, replacements. Additions go behind the
   list; the j-th removal has an index below what j removals have left of the originals, and every
   replacement one below what all of them have left, so none reaches a rule that the same command adds.
   Each index is sent as an array index in the sense of section 4 of RFC 6901, however the flag
   spelled it ("+1", "007").
   */
  lemma IndicesAreCanonical(count: nat, adds: seq<string>, removes: seq<string>, swaps: seq<string>)
    requires CalculateOps(count, adds, removes, swaps).Ok?
    ensures var ops := CalculateOps(count, adds, removes, swaps).value;
            && |ops| == |adds| + |removes| + |swaps|
            && (forall j | 0 <= j < |adds| :: ParseRule(adds[j]).Some? && ops[j] == AddOp(ParseRule(adds[j]).value))
            && (forall j | 0 <= j < |removes| :: IsRemoval(ops[|adds|..][j], removes, count, j))
            && (forall j | 0 <= j < |swaps| ::
                  IsReplacement(ops[|adds| + |removes|..][j], swaps[j], CountAfter(removes, count)))
    ensures forall i: nat :: ArrayIndex(Digits(i)) == Some(i)
  {
    hide IsRemoval, IsReplacement, Atoi, ParseRule, EncodeRule;
    AdditionsByPosition(adds);
    RemovalsByPosition(removes, count);
    RemovesAcceptedIff(removes, count);
    ReplacementsByPosition(swaps, CountAfter(removes, count));
    forall i: nat
      ensures ArrayIndex(Digits(i)) == Some(i)
    {
      ArrayIndexIffDigits(Digits(i), i);
    }
  }

  // ---- the three loops -------------------------------------------------------------------

  function Extend(prefix: seq<PatchOperation>, r: Result<seq<PatchOperation>, EditError>)
    : Result<seq<PatchOperation>, EditError>
  {
    var rest :- r;
    Ok(prefix + rest)
  }

  function ExtendPair(prefix: seq<PatchOperation>, r: Result<(seq<PatchOperation>, nat), EditError>)
    : Result<(seq<PatchOperation>, nat), EditError>
  {
    var rest :- r;
    Ok((prefix + rest.0, rest.1))
  }

  lemma ExtendTwice(a: seq<PatchOperation>, b: seq<PatchOperation>, r: Result<seq<PatchOperation>, EditError>)
    ensures Extend(a, Extend(b, r)) == Extend(a + b, r)
  {
    if r.Ok? {
      assert a + (b + r.value) == (a + b) + r.value;
    }
  }

  lemma ExtendPairTwice(a: seq<PatchOperation>, b: seq<PatchOperation>,
                        r: Result<(seq<PatchOperation>, nat), EditError>)
    ensures ExtendPair(a, ExtendPair(b, r)) == ExtendPair(a + b, r)
  {
    if r.Ok? {
      assert a + (b + r.value.0) == (a + b) + r.value.0;
    }
  }

  /** calculatePatchConditions. */
  method CalculatePatchConditions(count: nat, adds: seq<string>, removes: seq<string>, swaps: seq<string>)
    returns (r: Result<seq<PatchOperation>, EditError>)
    ensures r == CalculateOps(count, adds, removes, swaps)
  {
    hide ParseRule, Atoi, EncodeRule, Cut;
    var patches: seq<PatchOperation> := [];
    var ruleCount := count;
    assert forall rest: seq<PatchOperation> :: [] + rest == rest;
    assert adds[0..] == adds;
    for i := 0 to |adds|
      invariant AddOps(adds) == Extend(patches, AddOps(adds[i..]))
    {
      var rule := ParseRule(adds[i]);
      if rule.None? {
        return Err(BadRule);
      }
      ExtendTwice(patches, [AddOp(rule.value)], AddOps(adds[i + 1..]));
      patches := patches + [AddOp(rule.value)];
    }
    assert patches + [] == patches;
    var added := patches;
    patches := [];
    assert removes[0..] == removes;
    for i := 0 to |removes|
      invariant RemoveOps(removes, count) == ExtendPair(patches, RemoveOps(removes[i..], ruleCount))
    {
      if removes[i] == "all" {
        ExtendPairTwice(patches, [CLEAR_OP], RemoveOps(removes[i + 1..], 0));
        patches := patches + [CLEAR_OP];
        ruleCount := 0;
      } else {
        var index := Atoi(removes[i]);
        if index.None? {
          return Err(BadIndex);
        }
        if index.value < 0 || index.value >= ruleCount {
          return Err(IndexOutOfRange);
        }
        ExtendPairTwice(patches, [RemoveOp(index.value)], RemoveOps(removes[i + 1..], ruleCount - 1));
        patches := patches + [RemoveOp(index.value)];
        ruleCount := ruleCount - 1;
      }
    }
    assert patches + [] == patches;
    var removed := patches;
    patches := [];
    assert swaps[0..] == swaps;
    for i := 0 to |swaps|
      invariant ReplaceOps(swaps, ruleCount) == Extend(patches, ReplaceOps(swaps[i..], ruleCount))
    {
      var one := ReplaceOne(swaps[i], ruleCount);
      if one.Err? {
        return Err(one.error);
      }
      ExtendTwice(patches, [ReplaceOp(one.value.0, one.value.1)], ReplaceOps(swaps[i + 1..], ruleCount));
      patches := patches + [ReplaceOp(one.value.0, one.value.1)];
    }
    assert patches + [] == patches;
    r := Ok(added + removed + patches);
  }
}
