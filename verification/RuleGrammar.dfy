/** The colon-separated notation of condition rules (cmd/qivitals-cli/cmd/parsing_utils.go). */
module RuleGrammar {
  import opened Wrappers
  import opened Strings
  import opened Sensors

  /** parseConditionRule: name, expression and, if present, target state and message. */
  function ParseRule(s: string): Option<Rule> {
    var parts := SplitN(s, ':', 4);
    if |parts| < 2 then None
    else Some(Rule(parts[0], parts[1], if |parts| >= 3 then parts[2] else "", if |parts| == 4 then parts[3] else ""))
  }

  function Fields(r: Rule): seq<string> {
    [r.name, r.expression, r.targetState, r.messageTemplate]
  }

  function PrintRule(r: Rule): string {
    Join(Fields(r), ':')
  }

  /** A rule survives being printed and parsed exactly when only its message holds colons. */
  lemma RuleRoundTripIff(r: Rule)
    ensures ParseRule(PrintRule(r)) == Some(r) <==>
            ':' !in r.name && ':' !in r.expression && ':' !in r.targetState
  {
    var s := PrintRule(r);
    var parts := SplitN(s, ':', 4);
    if ':' !in r.name && ':' !in r.expression && ':' !in r.targetState {
      JoinSplitN(Fields(r), ':', 4);
    }
    if ParseRule(s) == Some(r) {
      SplitNParts(s, ':', 4, 0);
      SplitNParts(s, ':', 4, 1);
      if |parts| >= 3 {
        SplitNParts(s, ':', 4, 2);
      }
    }
  }

  /** Whatever is accepted is spelled by the fields found in it, the absent ones being empty. */
  lemma AcceptedIsRejoined(s: string)
    requires ParseRule(s).Some?
    ensures var fields, n := Fields(ParseRule(s).value), |SplitN(s, ':', 4)|;
            2 <= n <= 4 && s == Join(fields[..n], ':') && forall k | n <= k < 4 :: fields[k] == ""
  {
    var fields, parts := Fields(ParseRule(s).value), SplitN(s, ':', 4);
    SplitNJoin(s, ':', 4);
    assert fields[..|parts|] == parts;
  }

  /** Everything with a colon is accepted, and nothing else. */
  lemma AcceptedIffColon(s: string)
    ensures ParseRule(s).Some? <==> ':' in s
  {
    if IndexOf(s, ':') == |s| {
      assert s[..|s|] == s;
    }
  }

  /** A numbered rule as the replace flag takes it: the index goes up to the first colon. */
  lemma NumberedRuleSplits(index: string, s: string)
    requires ':' !in index
    ensures Cut(index + ":" + s, ':') == Some((index, s))
  {
    IndexOfAt(index, ':', s);
    var whole := index + [':'] + s;
    assert whole == index + ":" + s && whole[..|index|] == index && whole[|index| + 1..] == s;
  }

  /** parseConditionRules: all rules in order, or an error when one of them does not parse. */
  method ParseConditionRules(rules: seq<string>) returns (r: Option<seq<Rule>>)
    ensures r.None? <==> exists s | s in rules :: ':' !in s
    ensures r.Some? ==> |r.value| == |rules| && forall i | 0 <= i < |rules| :: ParseRule(rules[i]) == Some(r.value[i])
  {
    var result: seq<Rule> := [];
    for i := 0 to |rules|
      invariant |result| == i
      invariant forall k | 0 <= k < i :: ParseRule(rules[k]) == Some(result[k])
      invariant forall k | 0 <= k < i :: ':' in rules[k]
    {
      AcceptedIffColon(rules[i]);
      var rule := ParseRule(rules[i]);
      if rule.None? {
        return None;
      }
      result := result + [rule.value];
    }
    r := Some(result);
  }
}
