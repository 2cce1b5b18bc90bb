/**
 How the service derives the state it reports for a sensor (internal/server/qivitals_svc.go): a
 state from the age of the last report, overridden by the conditions of its rules.
 */
module Health {
  import opened Wrappers
  import opened Sensors
  import opened Evaluator
  import StoreModel

  /** The enum of the API, in order of severity. */
  datatype State = UNKNOWN | OK | DEGRADED | FAILED | PAUSED

  function Severity(s: State): nat {
    match s
    case UNKNOWN => 0
    case OK => 1
    case DEGRADED => 2
    case FAILED => 3
    case PAUSED => 4
  }

  /** v1.SensorState_value: the state of a name, if it is one. */
  function StateOfName(name: string): Option<State> {
    if name == "UNKNOWN" then Some(UNKNOWN)
    else if name == "OK" then Some(OK)
    else if name == "DEGRADED" then Some(DEGRADED)
    else if name == "FAILED" then Some(FAILED)
    else if name == "PAUSED" then Some(PAUSED)
    else None
  }

  /** calculateSensorStatus. */
  function BaseState(state: SensorState, now: int): State {
    var age := now - state.lastReportedAt;
    if age < state.info.gracefulPeriod then OK
    else if age < state.info.failurePeriod then DEGRADED
    else FAILED
  }

  function Worse(a: State, b: State): State {
    if Severity(b) > Severity(a) then b else a
  }

  /** The target of the first rule of that name that has one. */
  function TargetOf(rules: seq<Rule>, name: string): Option<State>
    decreases |rules|
  {
    if rules == [] then None
    else if rules[0].name == name && rules[0].targetState != "" then StateOfName(rules[0].targetState)
    else TargetOf(rules[1..], name)
  }

  /** What one condition asks for: FAILED on an error, the rule's target when true, nothing otherwise. */
  function Override(rules: seq<Rule>, c: Condition): Option<State> {
    if c.status == StatusError || c.status == StatusUnknown then Some(FAILED)
    else if c.status == StatusTrue then TargetOf(rules, c.ctype)
    else None
  }

  /** applyConditionOverrides. */
  function ApplyOverrides(base: State, rules: seq<Rule>, conditions: seq<Condition>): State
    decreases |conditions|
  {
    if conditions == [] then base
    else
      var o := Override(rules, conditions[0]);
      ApplyOverrides(if o.Some? then Worse(base, o.value) else base, rules, conditions[1..])
  }

  lemma {:induction false} ApplyOverridesConcat(base: State, rules: seq<Rule>, a: seq<Condition>, b: seq<Condition>)
    ensures ApplyOverrides(base, rules, a + b) == ApplyOverrides(ApplyOverrides(base, rules, a), rules, b)
    decreases |a|
  {
    if a == [] {
      assert a + b == b;
    } else {
      assert (a + b)[0] == a[0] && (a + b)[1..] == a[1..] + b;
      var o := Override(rules, a[0]);
      ApplyOverridesConcat(if o.Some? then Worse(base, o.value) else base, rules, a[1..], b);
    }
  }

  /** The two nested loops of applyConditionOverrides. */
  method ApplyConditionOverrides(base: State, rules: seq<Rule>, conditions: seq<Condition>) returns (final: State)
    ensures final == ApplyOverrides(base, rules, conditions)
  {
    final := base;
    for i := 0 to |conditions|
      invariant final == ApplyOverrides(base, rules, conditions[..i])
    {
      ghost var before := final;
      var c := conditions[i];
      assert conditions[..i + 1] == conditions[..i] + [c];
      ApplyOverridesConcat(base, rules, conditions[..i], [c]);
      assert [c][1..] == [];
      if c.status == StatusError || c.status == StatusUnknown {
        if Severity(FAILED) > Severity(final) {
          final := FAILED;
        }
      } else if c.status == StatusTrue {
        var j := 0;
        while j < |rules|
          invariant j <= |rules| && final == before
          invariant TargetOf(rules, c.ctype) == TargetOf(rules[j..], c.ctype)
        {
          if rules[j].name == c.ctype && rules[j].targetState != "" {
            var s := StateOfName(rules[j].targetState);
            if s.Some? && Severity(s.value) > Severity(final) {
              final := s.value;
            }
            break;
          }
          j := j + 1;
        }
      }
    }
    assert conditions[..|conditions|] == conditions;
  }

  // ---- the reported state is a maximum -----------------------------------------------------

  /** `s` is the most severe of `base` and everything asked for. */
  ghost predicate IsMostSevere(s: State, base: State, asked: set<State>) {
    && (s == base || s in asked)
    && Severity(base) <= Severity(s)
    && forall t | t in asked :: Severity(t) <= Severity(s)
  }

  /** What a list of conditions asks for. */
  function Asked(rules: seq<Rule>, conditions: seq<Condition>): set<State> {
    set c | c in conditions && Override(rules, c).Some? :: Override(rules, c).value
  }

  /** Overriding takes the maximum, whatever the order of the conditions. */
  lemma {:induction false} OverridesTakeMaximum(base: State, rules: seq<Rule>, conditions: seq<Condition>)
    ensures IsMostSevere(ApplyOverrides(base, rules, conditions), base, Asked(rules, conditions))
    decreases |conditions|
  {
    if conditions != [] {
      var o := Override(rules, conditions[0]);
      var next := if o.Some? then Worse(base, o.value) else base;
      OverridesTakeMaximum(next, rules, conditions[1..]);
      assert forall c :: c in conditions <==> c == conditions[0] || c in conditions[1..];
      assert Asked(rules, conditions) == Asked(rules, conditions[1..]) + (if o.Some? then {o.value} else {});
    }
  }

  lemma MostSevereIsUnique(s: State, t: State, base: State, asked: set<State>)
    requires IsMostSevere(s, base, asked) && IsMostSevere(t, base, asked)
    ensures s == t
  {
    assert Severity(s) == Severity(t);
  }

  /** What one rule contributes by itself: its target when it holds, FAILED when it cannot be evaluated. */
  function Contribution<P, T>(engine: Engine<P, T>, rule: Rule, data: map<string, string>, labels: map<string, string>)
    : Option<State>
  {
    match engine.compile(rule.expression)
    case None => Some(FAILED)
    case Some(program) =>
      match engine.run(program, data, labels)
      case None => Some(FAILED)
      case Some(true) => StateOfName(rule.targetState)
      case Some(false) => None
  }

  function Contributions<P, T>(engine: Engine<P, T>, rules: seq<Rule>,
                               data: map<string, string>, labels: map<string, string>)
    : set<State>
  {
    set r | r in rules && Contribution(engine, r, data, labels).Some? :: Contribution(engine, r, data, labels).value
  }

  /** The rules of a sensor whose list has no nil. */
  function AllRules(rules: seq<Rule>): (pointers: seq<Option<Rule>>)
    ensures |pointers| == |rules|
    ensures forall i :: 0 <= i < |rules| ==> pointers[i] == Some(rules[i])
  {
    seq(|rules|, i requires 0 <= i < |rules| => Some(rules[i]))
  }

  /** buildProtoSensor: the state reported for a sensor. */
  function ReportedState<P, T>(engine: Engine<P, T>, state: SensorState, rules: seq<Rule>, now: int): State {
    ApplyOverrides(BaseState(state, now), rules,
                   ConditionsOf(engine, AllRules(rules), state.reportedData, LabelMap(state.info.labels)))
  }

  /** Where the age of the last report alone decides: within the first period, else within the second, else neither. */
  lemma StateOfAge(state: SensorState, now: int)
    ensures var s, age := BaseState(state, now), now - state.lastReportedAt;
            && (s == OK <==> age < state.info.gracefulPeriod)
            && (s == DEGRADED <==> state.info.gracefulPeriod <= age < state.info.failurePeriod)
            && (s == FAILED <==> state.info.gracefulPeriod <= age && state.info.failurePeriod <= age)
  {
  }

  /** Rules never make it better than that. */
  lemma StateIsNoBetter<P, T>(engine: Engine<P, T>, state: SensorState, rules: seq<Rule>, now: int)
    ensures var s, age := ReportedState(engine, state, rules, now), now - state.lastReportedAt;
            && s != UNKNOWN
            && (state.info.gracefulPeriod <= age < state.info.failurePeriod ==> s in {DEGRADED, FAILED, PAUSED})
            && (state.info.gracefulPeriod <= age && state.info.failurePeriod <= age ==> s in {FAILED, PAUSED})
  {
    StateOfAge(state, now);
    OverridesTakeMaximum(BaseState(state, now), rules,
                         ConditionsOf(engine, AllRules(rules), state.reportedData, LabelMap(state.info.labels)));
  }

  /**
   What a single rule does, target by target: one that cannot be evaluated fails the sensor, one that does
   not hold does nothing, one that holds makes it no better than its target. An unknown target does nothing.
   */
  lemma OneRuleDecides<P, T>(engine: Engine<P, T>, state: SensorState, rule: Rule, now: int)
    ensures var s, base := ReportedState(engine, state, [rule], now), ReportedState(engine, state, [], now);
            var verdict := Verdict(engine, rule.expression, state.reportedData, LabelMap(state.info.labels));
            && base == BaseState(state, now)
            && (verdict == None ==> s == FAILED)
            && (verdict == Some(false) ==> s == base)
            && (verdict == Some(true) ==>
                  && (rule.targetState == "PAUSED" ==> s == PAUSED)
                  && (rule.targetState == "FAILED" ==> s == FAILED)
                  && (rule.targetState == "DEGRADED" ==> s == if base == FAILED then FAILED else DEGRADED)
                  && (rule.targetState !in ["PAUSED", "FAILED", "DEGRADED"] ==> s == base))
  {
    var data, labels := state.reportedData, LabelMap(state.info.labels);
    assert AllRules([]) == [] && AllRules([rule]) == [Some(rule)] && [Some(rule)][1..] == [];
    var c := ConditionOf(engine, rule, data, labels);
    assert ConditionsOf(engine, AllRules([rule]), data, labels) == [c] && [c][1..] == [];
    var base, o := BaseState(state, now), Override([rule], c);
    assert ApplyOverrides(base, [rule], [c]) ==
           ApplyOverrides(if o.Some? then Worse(base, o.value) else base, [rule], []);
    assert ReportedState(engine, state, [rule], now) == if o.Some? then Worse(base, o.value) else base;
    RuleAsks(engine, [rule], rule, data, labels);
    OneTarget(rule);
  }

  lemma OneTarget(rule: Rule)
    ensures var target := TargetOf([rule], rule.name);
            && (rule.targetState == "PAUSED" ==> target == Some(PAUSED))
            && (rule.targetState == "FAILED" ==> target == Some(FAILED))
            && (rule.targetState == "DEGRADED" ==> target == Some(DEGRADED))
            && (rule.targetState !in ["PAUSED", "FAILED", "DEGRADED"] ==>
                  target == None || target == Some(OK) || target == Some(UNKNOWN))
  {
    assert [rule][1..] == [];
    assert "PAUSED"[0] != "FAILED"[0] && |"DEGRADED"| != |"PAUSED"| && |"UNKNOWN"| != |"PAUSED"|;
  }

  /** The uniqueness of rule names that the API asks for. */
  predicate DistinctNames(rules: seq<Rule>) {
    forall i, j | 0 <= i < j < |rules| :: rules[i].name != rules[j].name
  }

  lemma {:induction false} ConditionsAreOfRules<P, T>(
    engine: Engine<P, T>, rules: seq<Rule>, data: map<string, string>, labels: map<string, string>)
    ensures |ConditionsOf(engine, AllRules(rules), data, labels)| == |rules|
    ensures forall i | 0 <= i < |rules| ::
              ConditionsOf(engine, AllRules(rules), data, labels)[i] == ConditionOf(engine, rules[i], data, labels)
    decreases |rules|
  {
    if rules != [] {
      assert AllRules(rules)[1..] == AllRules(rules[1..]);
      ConditionsAreOfRules(engine, rules[1..], data, labels);
    }
  }

  lemma {:induction false} TargetOfDistinct(rules: seq<Rule>, i: nat)
    requires DistinctNames(rules) && i < |rules|
    ensures TargetOf(rules, rules[i].name) == StateOfName(rules[i].targetState)
    decreases |rules|
  {
    if i > 0 {
      assert rules[0].name != rules[i].name;
      TargetOfDistinct(rules[1..], i - 1);
    } else if rules[0].targetState == "" {
      NoTarget(rules[1..], rules[0].name);
    }
  }

  lemma {:induction false} NoTarget(rules: seq<Rule>, name: string)
    requires forall r | r in rules :: r.name != name
    ensures TargetOf(rules, name) == None
    decreases |rules|
  {
    if rules != [] {
      assert rules[0] in rules && forall r | r in rules[1..] :: r in rules;
      NoTarget(rules[1..], name);
    }
  }

  // ---- repeated names ----------------------------------------------------------------------

  /** Found by its name, every rule has its own target. */
  predicate TargetsAgree(rules: seq<Rule>) {
    forall i | 0 <= i < |rules| :: TargetOf(rules, rules[i].name) == StateOfName(rules[i].targetState)
  }

  lemma DistinctNamesAgree(rules: seq<Rule>)
    requires DistinctNames(rules)
    ensures TargetsAgree(rules)
  {
    forall i | 0 <= i < |rules|
      ensures TargetOf(rules, rules[i].name) == StateOfName(rules[i].targetState)
    {
      TargetOfDistinct(rules, i);
    }
  }

  /** What an expression evaluates to; None on an error. */
  function Verdict<P, T>(engine: Engine<P, T>, expression: string,
                         data: map<string, string>, labels: map<string, string>)
    : Option<bool>
  {
    var program :- engine.compile(expression);
    engine.run(program, data, labels)
  }

  /** What a verdict makes of a target. */
  function Effective(verdict: Option<bool>, target: Option<State>): Option<State> {
    match verdict
    case None => Some(FAILED)
    case Some(true) => target
    case Some(false) => None
  }

  /** A rule contributes its own target; its condition asks for the one found by its name. */
  lemma RuleAsks<P, T>(engine: Engine<P, T>, rules: seq<Rule>, r: Rule,
                       data: map<string, string>, labels: map<string, string>)
    ensures Contribution(engine, r, data, labels) ==
            Effective(Verdict(engine, r.expression, data, labels), StateOfName(r.targetState))
    ensures Override(rules, ConditionOf(engine, r, data, labels)) ==
            Effective(Verdict(engine, r.expression, data, labels), TargetOf(rules, r.name))
  {
  }

  /** Each condition asks for exactly what its rule contributes. */
  lemma OverrideIsContribution<P, T>(
    engine: Engine<P, T>, rules: seq<Rule>, i: nat, data: map<string, string>, labels: map<string, string>)
    requires TargetsAgree(rules) && i < |rules|
    ensures Override(rules, ConditionOf(engine, rules[i], data, labels)) == Contribution(engine, rules[i], data, labels)
  {
    RuleAsks(engine, rules, rules[i], data, labels);
  }

  /** An engine on which every expression holds. */
  function TrueEngine<P, T>(program: P): Engine<P, T> {
    Engine(_ => Some(program), (_, _, _) => Some(true), _ => None, (_, _) => None)
  }

  /** For every engine and data, exactly the rule lists whose targets agree have this. */
  lemma OverrideIsContributionIff<P(!new), T(!new)>(rules: seq<Rule>, program: P)
    ensures (forall engine: Engine<P, T>, i, data, labels | 0 <= i < |rules| ::
               Override(rules, ConditionOf(engine, rules[i], data, labels)) ==
               Contribution(engine, rules[i], data, labels))
            <==> TargetsAgree(rules)
  {
    if TargetsAgree(rules) {
      forall engine: Engine<P, T>, i, data, labels | 0 <= i < |rules|
        ensures Override(rules, ConditionOf(engine, rules[i], data, labels)) ==
                Contribution(engine, rules[i], data, labels)
      {
        OverrideIsContribution(engine, rules, i, data, labels);
      }
    } else {
      var i :| 0 <= i < |rules| && TargetOf(rules, rules[i].name) != StateOfName(rules[i].targetState);
      var engine: Engine<P, T> := TrueEngine(program);
      RuleAsks(engine, rules, rules[i], map[], map[]);
      assert Override(rules, ConditionOf(engine, rules[i], map[], map[])) !=
             Contribution(engine, rules[i], map[], map[]);
    }
  }

  /** How far a target can raise a state; the base state is OK at least. */
  function Raise(target: Option<State>): nat {
    if target.Some? && Severity(target.value) > Severity(OK) then Severity(target.value) else 0
  }

  /** The highest raise among the rules of one expression. */
  function Highest(rules: seq<Rule>, expression: string, target: Rule -> Option<State>): nat
    decreases |rules|
  {
    if rules == [] then 0 else
      var first := if rules[0].expression == expression then Raise(target(rules[0])) else 0;
      var rest := Highest(rules[1..], expression, target);
      if first >= rest then first else rest
  }

  lemma {:induction false} HighestIsReached(rules: seq<Rule>, expression: string, target: Rule -> Option<State>)
    ensures forall r | r in rules && r.expression == expression ::
            Raise(target(r)) <= Highest(rules, expression, target)
    ensures Highest(rules, expression, target) == 0
            || exists r | r in rules && r.expression == expression ::
                 Raise(target(r)) == Highest(rules, expression, target)
    decreases |rules|
  {
    if rules != [] {
      HighestIsReached(rules[1..], expression, target);
      assert forall r :: r in rules <==> r == rules[0] || r in rules[1..];
    }
  }

  function NameTarget(rules: seq<Rule>): Rule -> Option<State> {
    (r: Rule) => TargetOf(rules, r.name)
  }

  function OwnTarget(): Rule -> Option<State> {
    (r: Rule) => StateOfName(r.targetState)
  }

  /** For each expression, the highest raise found by name is the highest of the rules' own targets. */
  predicate RaisesAgree(rules: seq<Rule>) {
    forall i | 0 <= i < |rules| ::
      Highest(rules, rules[i].expression, NameTarget(rules)) == Highest(rules, rules[i].expression, OwnTarget())
  }

  lemma AgreeingTargetsRaiseAlike(rules: seq<Rule>)
    requires TargetsAgree(rules)
    ensures RaisesAgree(rules)
  {
    assert forall r | r in rules :: NameTarget(rules)(r) == OwnTarget()(r);
    forall i | 0 <= i < |rules|
      ensures Highest(rules, rules[i].expression, NameTarget(rules)) == Highest(rules, rules[i].expression, OwnTarget())
    {
      HighestIsReached(rules, rules[i].expression, NameTarget(rules));
      HighestIsReached(rules, rules[i].expression, OwnTarget());
    }
  }

  // ---- the reported state ------------------------------------------------------------------

  /** The reported state is the most severe of the time-based state and every rule's contribution. */
  ghost predicate ReportsMaximum<P, T>(engine: Engine<P, T>, state: SensorState, rules: seq<Rule>, now: int) {
    IsMostSevere(ReportedState(engine, state, rules, now), BaseState(state, now),
                 Contributions(engine, rules, state.reportedData, LabelMap(state.info.labels)))
  }

  lemma AskedIff<P, T>(engine: Engine<P, T>, rules: seq<Rule>,
                       data: map<string, string>, labels: map<string, string>, s: State)
    ensures s in Asked(rules, ConditionsOf(engine, AllRules(rules), data, labels)) <==>
            exists r | r in rules :: Override(rules, ConditionOf(engine, r, data, labels)) == Some(s)
  {
    hide Override, ConditionOf;
    var conditions := ConditionsOf(engine, AllRules(rules), data, labels);
    ConditionsAreOfRules(engine, rules, data, labels);
    if s in Asked(rules, conditions) {
      var c :| c in conditions && Override(rules, c) == Some(s);
      var i :| 0 <= i < |conditions| && conditions[i] == c;
      assert rules[i] in rules;
    }
    if r :| r in rules && Override(rules, ConditionOf(engine, r, data, labels)) == Some(s) {
      var i :| 0 <= i < |rules| && rules[i] == r;
      assert conditions[i] in conditions;
    }
  }

  /** What a state above OK needs to be asked for, or to be contributed. */
  lemma AskedWhen<P, T>(engine: Engine<P, T>, rules: seq<Rule>, r: Rule,
                        data: map<string, string>, labels: map<string, string>)
    requires r in rules
    ensures var verdict := Verdict(engine, r.expression, data, labels);
            var asked := Asked(rules, ConditionsOf(engine, AllRules(rules), data, labels));
            var contributed := Contributions(engine, rules, data, labels);
            && (verdict.None? ==> FAILED in asked && FAILED in contributed)
            && (verdict == Some(true) && NameTarget(rules)(r).Some? ==> NameTarget(rules)(r).value in asked)
            && (verdict == Some(true) && OwnTarget()(r).Some? ==> OwnTarget()(r).value in contributed)
  {
    RuleAsks(engine, rules, r, data, labels);
    var own, found := Contribution(engine, r, data, labels), Override(rules, ConditionOf(engine, r, data, labels));
    if own.Some? {
      assert own.value in Contributions(engine, rules, data, labels);
    }
    if found.Some? {
      AskedIff(engine, rules, data, labels, found.value);
    }
  }

  /** A state above OK in one list of targets has one at least as severe in a list with the same highest raise. */
  lemma Counterpart(rules: seq<Rule>, r: Rule, a: Rule -> Option<State>, b: Rule -> Option<State>) returns (other: Rule)
    requires r in rules && Highest(rules, r.expression, a) == Highest(rules, r.expression, b)
    requires a(r).Some? && Severity(a(r).value) > Severity(OK)
    ensures other in rules && other.expression == r.expression
    ensures b(other).Some? && Severity(b(other).value) >= Severity(a(r).value)
  {
    HighestIsReached(rules, r.expression, a);
    HighestIsReached(rules, r.expression, b);
    other :| other in rules && other.expression == r.expression && Raise(b(other)) == Highest(rules, r.expression, b);
  }

  lemma RaisesAgreeAt(rules: seq<Rule>, r: Rule)
    requires RaisesAgree(rules) && r in rules
    ensures Highest(rules, r.expression, NameTarget(rules)) == Highest(rules, r.expression, OwnTarget())
  {
    var i :| 0 <= i < |rules| && rules[i] == r;
  }

  /** Nothing contributed is more severe than what is reported. */
  lemma ContributedIsReported<P, T>(engine: Engine<P, T>, state: SensorState, rules: seq<Rule>, now: int, t: State)
    requires RaisesAgree(rules)
    requires t in Contributions(engine, rules, state.reportedData, LabelMap(state.info.labels))
    ensures Severity(t) <= Severity(ReportedState(engine, state, rules, now))
  {
    hide RaisesAgree, Highest, ReportedState, ApplyOverrides, Contribution, ConditionsOf, TargetOf, StateOfName;
    var data, labels := state.reportedData, LabelMap(state.info.labels);
    ReportedIsAsked(engine, state, rules, now);
    var r :| r in rules && Contribution(engine, r, data, labels) == Some(t);
    RuleAsks(engine, rules, r, data, labels);
    AskedWhen(engine, rules, r, data, labels);
    if Verdict(engine, r.expression, data, labels) == Some(true) && Severity(t) > Severity(OK) {
      RaisesAgreeAt(rules, r);
      var other := Counterpart(rules, r, OwnTarget(), NameTarget(rules));
      AskedWhen(engine, rules, other, data, labels);
    }
  }

  lemma ReportedIsAsked<P, T>(engine: Engine<P, T>, state: SensorState, rules: seq<Rule>, now: int)
    ensures IsMostSevere(ReportedState(engine, state, rules, now), BaseState(state, now),
                         Asked(rules,
                               ConditionsOf(engine, AllRules(rules), state.reportedData, LabelMap(state.info.labels))))
    ensures Severity(BaseState(state, now)) >= Severity(OK)
  {
    OverridesTakeMaximum(BaseState(state, now), rules,
                         ConditionsOf(engine, AllRules(rules), state.reportedData, LabelMap(state.info.labels)));
  }

  /** The reported state is a maximum of contributions, for every engine, sensor and time, if the raises agree. */
  lemma ReportedStateIsMaximum<P, T>(engine: Engine<P, T>, state: SensorState, rules: seq<Rule>, now: int)
    requires RaisesAgree(rules)
    ensures ReportsMaximum(engine, state, rules, now)
  {
    hide RaisesAgree, Highest, ReportedState, ApplyOverrides, Contribution, ConditionsOf, TargetOf, StateOfName,
         Contributions;
    var data, labels := state.reportedData, LabelMap(state.info.labels);
    var reported, contributed := ReportedState(engine, state, rules, now), Contributions(engine, rules, data, labels);
    ReportedIsAsked(engine, state, rules, now);
    forall t | t in contributed
      ensures Severity(t) <= Severity(reported)
    {
      ContributedIsReported(engine, state, rules, now, t);
    }
    if reported != BaseState(state, now) {
      AskedIff(engine, rules, data, labels, reported);
      var r :| r in rules && Override(rules, ConditionOf(engine, r, data, labels)) == Some(reported);
      RuleAsks(engine, rules, r, data, labels);
      AskedWhen(engine, rules, r, data, labels);
      if Verdict(engine, r.expression, data, labels) == Some(true) {
        RaisesAgreeAt(rules, r);
        assert Severity(reported) != Severity(BaseState(state, now));
        var other := Counterpart(rules, r, NameTarget(rules), OwnTarget());
        AskedWhen(engine, rules, other, data, labels);
        assert Severity(OwnTarget()(other).value) == Severity(reported);
      }
    }
  }

  /** An engine on which one expression holds and no other does. */
  function OneTrueEngine<P(==), T>(expression: string, yes: P, no: P): Engine<P, T> {
    Engine(e => Some(if e == expression then yes else no), (p, _, _) => Some(p == yes), _ => None, (_, _) => None)
  }

  /** A sensor that reported just now. */
  const FRESH := SensorState(SensorInfo("", "", "", "", "", 1, 1, None, 0, 0, []), map[], 0)

  /**
   With one expression true, the raises found by name and those of the targets themselves are both the one
   reported.
   */
  lemma OneTrueRaise<P, T>(engine: Engine<P, T>, rules: seq<Rule>, expression: string, yes: P, no: P)
    requires yes != no && engine == OneTrueEngine(expression, yes, no)
    ensures var reported := ReportedState(engine, FRESH, rules, 0);
            && Highest(rules, expression, NameTarget(rules)) == Raise(Some(reported))
            && (ReportsMaximum(engine, FRESH, rules, 0) ==>
                Highest(rules, expression, OwnTarget()) == Raise(Some(reported)))
  {
    hide ReportedState, ApplyOverrides, ConditionsOf, TargetOf, StateOfName;
    var data, labels := FRESH.reportedData, LabelMap(FRESH.info.labels);
    var reported := ReportedState(engine, FRESH, rules, 0);
    assert BaseState(FRESH, 0) == OK;
    ReportedIsAsked(engine, FRESH, rules, 0);
    forall e
      ensures Verdict(engine, e, data, labels) == Some(e == expression)
    {
    }
    var asked := Asked(rules, ConditionsOf(engine, AllRules(rules), data, labels));
    var contributed := Contributions(engine, rules, data, labels);
    AskedIff(engine, rules, data, labels, reported);
    forall r | r in rules
      ensures Contribution(engine, r, data, labels) == if r.expression == expression then OwnTarget()(r) else None
      ensures Override(rules, ConditionOf(engine, r, data, labels)) ==
              if r.expression == expression then NameTarget(rules)(r) else None
      ensures r.expression == expression && OwnTarget()(r).Some? ==> OwnTarget()(r).value in contributed
      ensures r.expression == expression && NameTarget(rules)(r).Some? ==> NameTarget(rules)(r).value in asked
    {
      RuleAsks(engine, rules, r, data, labels);
      AskedWhen(engine, rules, r, data, labels);
    }
    RaiseIsReached(rules, expression, NameTarget(rules), reported, asked);
    if ReportsMaximum(engine, FRESH, rules, 0) {
      RaiseIsReached(rules, expression, OwnTarget(), reported, contributed);
    }
  }

  /** The most severe of OK and the targets of one expression has their highest raise. */
  lemma RaiseIsReached(rules: seq<Rule>, expression: string, target: Rule -> Option<State>, s: State, asked: set<State>)
    requires IsMostSevere(s, OK, asked)
    requires forall r | r in rules && r.expression == expression && target(r).Some? :: target(r).value in asked
    requires s in asked ==> exists r | r in rules && r.expression == expression :: target(r) == Some(s)
    ensures Highest(rules, expression, target) == Raise(Some(s))
  {
    HighestIsReached(rules, expression, target);
  }

  /**
   The exact condition, told from the rule list alone: the reported state is the maximum for every
   engine, sensor and time exactly when the raises agree.
   */
  lemma ReportedStateIsMaximumIff<P(!new), T(!new)>(rules: seq<Rule>, yes: P, no: P)
    requires yes != no
    ensures (forall engine: Engine<P, T>, state, now :: ReportsMaximum(engine, state, rules, now)) <==>
            RaisesAgree(rules)
  {
    hide ReportsMaximum, Highest;
    if RaisesAgree(rules) {
      forall engine: Engine<P, T>, state, now
        ensures ReportsMaximum(engine, state, rules, now)
      {
        ReportedStateIsMaximum(engine, state, rules, now);
      }
    }
    if forall engine: Engine<P, T>, state, now :: ReportsMaximum(engine, state, rules, now) {
      forall i | 0 <= i < |rules|
        ensures Highest(rules, rules[i].expression, NameTarget(rules)) ==
                Highest(rules, rules[i].expression, OwnTarget())
      {
        var engine: Engine<P, T> := OneTrueEngine(rules[i].expression, yes, no);
        assert ReportsMaximum(engine, FRESH, rules, 0);
        OneTrueRaise(engine, rules, rules[i].expression, yes, no);
      }
    }
  }

  /** Distinct names are enough, and not needed: two rules of one name and one target do no harm. */
  lemma DistinctNamesAreEnough(rules: seq<Rule>)
    ensures (forall i, j | 0 <= i < |rules| && 0 <= j < |rules| && i != j :: rules[i].name != rules[j].name) ==>
              RaisesAgree(rules)
    ensures var twice := [Rule("r", "a", "FAILED", ""), Rule("r", "b", "FAILED", "")];
            twice[0].name == twice[1].name && RaisesAgree(twice)
  {
    hide RaisesAgree;
    if forall i, j | 0 <= i < |rules| && 0 <= j < |rules| && i != j :: rules[i].name != rules[j].name {
      DistinctNamesAgree(rules);
      AgreeingTargetsRaiseAlike(rules);
    }
    var twice := [Rule("r", "a", "FAILED", ""), Rule("r", "b", "FAILED", "")];
    assert twice[0].name == twice[1].name;
    assert TargetOf(twice, "r") == Some(FAILED);
    AgreeingTargetsRaiseAlike(twice);
  }

  /** Reordering the rules does not change the reported state. */
  lemma RuleOrderIsIrrelevant<P, T>(engine: Engine<P, T>, state: SensorState, rules: seq<Rule>, reordered: seq<Rule>,
                                    now: int)
    requires RaisesAgree(rules) && RaisesAgree(reordered)
    requires ToSet(rules) == ToSet(reordered)
    ensures ReportedState(engine, state, rules, now) == ReportedState(engine, state, reordered, now)
  {
    hide RaisesAgree, ReportedState;
    var data, labels := state.reportedData, LabelMap(state.info.labels);
    ReportedStateIsMaximum(engine, state, rules, now);
    ReportedStateIsMaximum(engine, state, reordered, now);
    assert forall r :: r in rules <==> r in ToSet(rules);
    assert forall r :: r in reordered <==> r in ToSet(reordered);
    assert Contributions(engine, rules, data, labels) == Contributions(engine, reordered, data, labels);
    MostSevereIsUnique(ReportedState(engine, state, rules, now), ReportedState(engine, state, reordered, now),
                       BaseState(state, now), Contributions(engine, rules, data, labels));
  }

  /** A list whose raises do not agree: the condition of the second rule takes the target of the first. */
  lemma DuplicateNamesMislead<P, T>(yes: P, no: P)
    requires yes != no
    ensures var rules := [Rule("r", "no", "DEGRADED", ""), Rule("r", "yes", "FAILED", "")];
            var engine: Engine<P, T> := OneTrueEngine("yes", yes, no);
            && ReportedState(engine, FRESH, rules, 0) == DEGRADED
            && FAILED in Contributions(engine, rules, FRESH.reportedData, LabelMap(FRESH.info.labels))
            && !RaisesAgree(rules)
  {
    var rules := [Rule("r", "no", "DEGRADED", ""), Rule("r", "yes", "FAILED", "")];
    var engine: Engine<P, T> := OneTrueEngine("yes", yes, no);
    var data, labels := FRESH.reportedData, LabelMap(FRESH.info.labels);
    ConditionsAreOfRules(engine, rules, data, labels);
    var conditions := ConditionsOf(engine, AllRules(rules), data, labels);
    assert conditions == [ConditionOf(engine, rules[0], data, labels), ConditionOf(engine, rules[1], data, labels)];
    assert "yes" != "no" && "yes"[0] != "no"[0];
    assert TargetOf(rules, "r") == Some(DEGRADED);
    assert Override(rules, conditions[0]) == None && Override(rules, conditions[1]) == Some(DEGRADED);
    assert conditions[1..] == [conditions[1]] && conditions[1..][1..] == [];
    assert ApplyOverrides(OK, rules, conditions) == ApplyOverrides(OK, rules, conditions[1..])
        == ApplyOverrides(DEGRADED, rules, []);
    assert rules[1] in rules && Contribution(engine, rules[1], data, labels) == Some(FAILED);
    if RaisesAgree(rules) {
      ContributedIsReported(engine, FRESH, rules, 0, FAILED);
    }
  }

  // ---- health only worsens with silence ----------------------------------------------------

  lemma {:induction false} OverridesAreMonotone(a: State, b: State, rules: seq<Rule>, conditions: seq<Condition>)
    requires Severity(a) <= Severity(b)
    ensures Severity(ApplyOverrides(a, rules, conditions)) <= Severity(ApplyOverrides(b, rules, conditions))
    decreases |conditions|
  {
    if conditions != [] {
      var o := Override(rules, conditions[0]);
      OverridesAreMonotone(if o.Some? then Worse(a, o.value) else a, if o.Some? then Worse(b, o.value) else b,
                           rules, conditions[1..]);
    }
  }

  /** A call that neither reports to, nor patches, nor deletes the sensor. */
  predicate Silent(call: StoreModel.Call, id: string) {
    match call
    case CallRegister(_) => true
    case CallPatch(other, _, _, _, _, _) => other != id
    case CallSendData(other, _, _) => other != id
    case CallDelete(other) => other != id
  }

  lemma {:induction false} SilenceKeepsRecord(st: StoreModel.Store, calls: seq<StoreModel.Call>, id: string)
    requires id in st
    requires forall call | call in calls :: Silent(call, id)
    ensures id in StoreModel.Run(st, calls) && StoreModel.Run(st, calls)[id] == st[id]
    decreases |calls|
  {
    if calls != [] {
      assert calls[0] in calls && forall call | call in calls[1..] :: call in calls;
      SilenceKeepsRecord(StoreModel.After(st, calls[0]), calls[1..], id);
    }
  }

  /** As long as nobody reports to a sensor or changes it, its severity never goes down. */
  lemma HealthOnlyWorsensWithSilence<P, T>(
    engine: Engine<P, T>, st: StoreModel.Store, calls: seq<StoreModel.Call>, id: string, rules: seq<Rule>,
    now: int, later: int)
    requires id in st && st[id].info.rules == AllRules(rules)
    requires forall call | call in calls :: call.CallRegister? || call.id != id
    requires now <= later
    ensures var after := StoreModel.Run(st, calls);
            id in after && after[id].info.rules == AllRules(rules)
            && Severity(ReportedState(engine, st[id], rules, now)) <=
               Severity(ReportedState(engine, after[id], rules, later))
  {
    SilenceKeepsRecord(st, calls, id);
    OverridesAreMonotone(BaseState(st[id], now), BaseState(st[id], later), rules,
                         ConditionsOf(engine, AllRules(rules), st[id].reportedData, LabelMap(st[id].info.labels)));
  }
}
