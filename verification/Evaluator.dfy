/**
 Evaluation of condition rules (internal/server/condition_evaluator.go). Compiling, running, parsing
 and rendering are deterministic functions of the engine that may fail; the evaluator adds two caches.
 */
module Evaluator {
  import opened Wrappers
  import opened Sensors

  /** CEL and Go templates, reduced to what the evaluator asks of them; a result that is no boolean counts as false. */
  datatype Engine<!P, !T> = Engine(
    compile: string -> Option<P>,
    run: (P, map<string, string>, map<string, string>) -> Option<bool>,
    parse: string -> Option<T>,
    render: (T, map<string, string>) -> Option<string>)

  datatype Status = StatusTrue | StatusFalse | StatusUnknown | StatusError

  datatype Reason = CompilationError | EvaluationError | ThresholdExceeded | RuleNotMatched

  datatype Condition = Condition(ctype: string, status: Status, reason: Reason, message: Option<string>)

  // ---- what evaluation answers, without caches -------------------------------------------

  /** formatMessage; None stands for the error text of a template that does not parse. */
  function FormatMessage<P, T>(engine: Engine<P, T>, template: string, data: map<string, string>): Option<string> {
    if template == "" then Some("")
    else match engine.parse(template)
      case None => None
      case Some(t) =>
        match engine.render(t, data)
        case None => Some(template)
        case Some(text) => Some(text)
  }

  function TriggeredMessage<P, T>(engine: Engine<P, T>, rule: Rule, data: map<string, string>): Option<string> {
    var message := FormatMessage(engine, rule.messageTemplate, data);
    if message == Some("") then Some("Condition '" + rule.name + "' triggered") else message
  }

  function ConditionOf<P, T>(engine: Engine<P, T>, rule: Rule, data: map<string, string>, labels: map<string, string>)
    : Condition
  {
    match engine.compile(rule.expression)
    case None => Condition(rule.name, StatusUnknown, CompilationError, None)
    case Some(program) =>
      match engine.run(program, data, labels)
      case None => Condition(rule.name, StatusUnknown, EvaluationError, None)
      case Some(true) => Condition(rule.name, StatusTrue, ThresholdExceeded, TriggeredMessage(engine, rule, data))
      case Some(false) =>
        Condition(rule.name, StatusFalse, RuleNotMatched, Some("Condition '" + rule.name + "' did not match"))
  }

  /**
   The condition of a rule, spelled out. One that holds always has a message, unless its template does not
   parse.
   */
  lemma ConditionSpelled<P, T>(engine: Engine<P, T>, rule: Rule, data: map<string, string>, labels: map<string, string>)
    ensures var c, program := ConditionOf(engine, rule, data, labels), engine.compile(rule.expression);
            var template := rule.messageTemplate;
            && c.ctype == rule.name && c.status != StatusError && c.message != Some("")
            && (program.None? <==> c.status == StatusUnknown && c.reason == CompilationError)
            && (program.Some? ==>
                  var out := engine.run(program.value, data, labels);
                  && (out.None? <==> c.status == StatusUnknown && c.reason == EvaluationError)
                  && (out == Some(true) <==> c.status == StatusTrue && c.reason == ThresholdExceeded)
                  && (out == Some(false) <==> c.status == StatusFalse && c.reason == RuleNotMatched)
                  && (out == Some(false) ==> c.message == Some("Condition '" + rule.name + "' did not match"))
                  && (out == Some(true) && template == "" ==>
                        c.message == Some("Condition '" + rule.name + "' triggered"))
                  && (out == Some(true) && template != "" ==>
                        && (engine.parse(template).None? ==> c.message == None)
                        && (engine.parse(template).Some? ==>
                              var text := engine.render(engine.parse(template).value, data);
                              && (text.None? ==> c.message == Some(template))
                              && (text.Some? && text.value != "" ==> c.message == text)
                              && (text == Some("") ==>
                                    c.message == Some("Condition '" + rule.name + "' triggered")))))
  {
    assert |"Condition '" + rule.name + "' triggered"| > 0 && |"Condition '" + rule.name + "' did not match"| > 0;
  }

  /** One condition per rule, in order; nil rules are skipped. */
  function ConditionsOf<P, T>(engine: Engine<P, T>, rules: seq<Option<Rule>>, data: map<string, string>,
                              labels: map<string, string>)
    : seq<Condition>
    decreases |rules|
  {
    if rules == [] then []
    else (if rules[0].Some? then [ConditionOf(engine, rules[0].value, data, labels)] else [])
         + ConditionsOf(engine, rules[1..], data, labels)
  }

  lemma {:induction false} ConditionsOfConcat<P, T>(
    engine: Engine<P, T>, a: seq<Option<Rule>>, b: seq<Option<Rule>>,
    data: map<string, string>, labels: map<string, string>)
    ensures ConditionsOf(engine, a + b, data, labels) ==
            ConditionsOf(engine, a, data, labels) + ConditionsOf(engine, b, data, labels)
    decreases |a|
  {
    if a == [] {
      assert a + b == b;
    } else {
      assert (a + b)[0] == a[0] && (a + b)[1..] == a[1..] + b;
      ConditionsOfConcat(engine, a[1..], b, data, labels);
    }
  }

  /** A nil rule leaves no trace, and every other rule has its condition where it stands among them. */
  lemma NilRulesAreSkipped<P, T>(
    engine: Engine<P, T>, a: seq<Option<Rule>>, rule: Option<Rule>, b: seq<Option<Rule>>,
    data: map<string, string>, labels: map<string, string>)
    ensures ConditionsOf(engine, a + [rule] + b, data, labels) ==
            ConditionsOf(engine, a, data, labels)
            + (if rule.None? then [] else [ConditionOf(engine, rule.value, data, labels)])
            + ConditionsOf(engine, b, data, labels)
  {
    ConditionsOfConcat(engine, a + [rule], b, data, labels);
    ConditionsOfConcat(engine, a, [rule], data, labels);
    assert [rule][1..] == [];
  }

  // ---- caches ----------------------------------------------------------------------------

  /** Every cached entry is what computing its key gives. */
  ghost predicate CacheCorrect<V(!new)>(cache: map<string, V>, compute: string -> Option<V>) {
    forall key | key in cache :: compute(key) == Some(cache[key])
  }

  const MAX_CACHE_SIZE: nat := 1000

  class ConditionEvaluator<P(!new), T(!new)> {
    const engine: Engine<P, T>
    var cached: map<string, P>
    var templates: map<string, T>

    ghost predicate Valid()
      reads this
    {
      && CacheCorrect(cached, engine.compile)
      && CacheCorrect(templates, engine.parse)
      && |templates| <= MAX_CACHE_SIZE
    }

    constructor (engine: Engine<P, T>)
      ensures Valid() && this.engine == engine && cached == map[] && templates == map[]
    {
      this.engine := engine;
      cached := map[];
      templates := map[];
    }

    /** A full cache drops an arbitrary entry before parsing, even if the template then fails to parse. */
    method GetTemplate(text: string) returns (r: Option<T>)
      requires Valid()
      modifies this`templates
      ensures Valid()
      ensures r == engine.parse(text)
      ensures templates.Keys <= old(templates).Keys + {text} && |templates| <= 1000
      ensures text in old(templates) ==> templates == old(templates)
      ensures r.Some? ==> text in templates
      ensures text !in old(templates) && |old(templates)| < 1000 ==>
                templates == if r.Some? then old(templates)[text := r.value] else old(templates)
    {
      if text in templates {
        return Some(templates[text]);
      }
      if |templates| >= MAX_CACHE_SIZE {
        var victim :| victim in templates;
        templates := templates - {victim};
      }
      r := engine.parse(text);
      if r.Some? {
        templates := templates[text := r.value];
      }
    }

    method CompileExpression(expr: string) returns (r: Option<P>)
      requires Valid()
      modifies this`cached
      ensures Valid()
      ensures r == engine.compile(expr)
      ensures cached == if r.Some? then old(cached)[expr := r.value] else old(cached)
    {
      if expr in cached {
        return Some(cached[expr]);
      }
      r := engine.compile(expr);
      if r.Some? {
        cached := cached[expr := r.value];
      }
    }

    method Format(template: string, data: map<string, string>) returns (message: Option<string>)
      requires Valid()
      modifies this`templates
      ensures Valid()
      ensures message == FormatMessage(engine, template, data)
    {
      if template == "" {
        return Some("");
      }
      var t := GetTemplate(template);
      if t.None? {
        return None;
      }
      var text := engine.render(t.value, data);
      message := if text.None? then Some(template) else text;
    }

    method EvaluateSingleRule(rule: Rule, data: map<string, string>, labels: map<string, string>) returns (c: Condition)
      requires Valid()
      modifies this
      ensures Valid()
      ensures c == ConditionOf(engine, rule, data, labels)
    {
      var program := CompileExpression(rule.expression);
      if program.None? {
        return Condition(rule.name, StatusUnknown, CompilationError, None);
      }
      var out := engine.run(program.value, data, labels);
      if out.None? {
        return Condition(rule.name, StatusUnknown, EvaluationError, None);
      }
      if out.value {
        var message := Format(rule.messageTemplate, data);
        if message == Some("") {
          message := Some("Condition '" + rule.name + "' triggered");
        }
        c := Condition(rule.name, StatusTrue, ThresholdExceeded, message);
      } else {
        c := Condition(rule.name, StatusFalse, RuleNotMatched, Some("Condition '" + rule.name + "' did not match"));
      }
    }

    /** The caches never show: the answer is that of evaluating every rule afresh. */
    method EvaluateConditions(rules: seq<Option<Rule>>, data: map<string, string>, labels: map<string, string>)
      returns (conditions: seq<Condition>)
      requires Valid()
      modifies this
      ensures Valid()
      ensures conditions == ConditionsOf(engine, rules, data, labels)
    {
      conditions := [];
      for i := 0 to |rules|
        invariant Valid()
        invariant conditions == ConditionsOf(engine, rules[..i], data, labels)
      {
        if rules[i].Some? {
          var c := EvaluateSingleRule(rules[i].value, data, labels);
          conditions := conditions + [c];
        }
        assert rules[..i + 1] == rules[..i] + [rules[i]];
        ConditionsOfConcat(engine, rules[..i], [rules[i]], data, labels);
        assert [rules[i]][1..] == [];
      }
      assert rules[..|rules|] == rules;
    }
  }
}
