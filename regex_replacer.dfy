/** RegexReplacer: Regex.Replace with each (pattern, replacement) rule in turn.
    The regular-expression engine itself is a parameter. */
module RegexReplacing {
  import opened Platform

  /** AddRule never admits an empty pattern; patterns are not validated otherwise. */
  predicate ValidRules(rules: seq<(string, string)>)
  {
    forall i :: 0 <= i < |rules| ==> rules[i].0 != []
  }

  /** The text after applying every rule, in insertion order, to s. */
  function ApplyAll(rules: seq<(string, string)>, s: string, regexReplace: RegexReplaceFn): string
  {
    if rules == [] then s
    else
      var last := rules[|rules| - 1];
      regexReplace(ApplyAll(rules[..|rules| - 1], s, regexReplace), last.0, last.1)
  }

  /** What Run computes: "" when there are no rules (whatever the input), and
      otherwise every rule applied in insertion order. */
  function RegexReplaced(rules: seq<(string, string)>, s: string, regexReplace: RegexReplaceFn): string
  {
    if rules == [] then [] else ApplyAll(rules, s, regexReplace)
  }

  class RegexReplacer {
    var rules: seq<(string, string)>

    ghost predicate Valid()
      reads this
    {
      ValidRules(rules)
    }

    /** RegexReplacer.Create(): no rules, so Run gives "" until a rule is added. */
    constructor ()
      ensures Valid() && rules == []
    {
      rules := [];
    }

    /** An empty pattern is ignored; any other rule is appended, unvalidated.
        This is the only place the rule list changes. */
    method AddRule(regexPattern: string, replacement: string)
      requires Valid()
      modifies this
      ensures Valid()
      ensures rules == if regexPattern == [] then old(rules) else old(rules) + [(regexPattern, replacement)]
    {
      if regexPattern != [] {
        rules := rules + [(regexPattern, replacement)];
      }
    }

    method Run(sourceText: string, regexReplace: RegexReplaceFn) returns (currentText: string)
      ensures currentText == RegexReplaced(rules, sourceText, regexReplace)
      ensures rules == [] ==> currentText == []
    {
      if |rules| == 0 {
        return [];
      }
      currentText := sourceText;
      for i := 0 to |rules|
        invariant currentText == ApplyAll(rules[..i], sourceText, regexReplace)
      {
        assert rules[..i + 1][..i] == rules[..i];
        currentText := regexReplace(currentText, rules[i].0, rules[i].1);
      }
      assert rules[..|rules|] == rules;
    }
  }

  /** The first rule added is the first applied: the rules are a left fold. */
  lemma {:induction false} FirstRuleFirst(rule: (string, string), rest: seq<(string, string)>,
                                          s: string, regexReplace: RegexReplaceFn)
    ensures RegexReplaced([rule] + rest, s, regexReplace)
         == ApplyAll(rest, regexReplace(s, rule.0, rule.1), regexReplace)
    decreases |rest|
  {
    var rules := [rule] + rest;
    if rest == [] {
      assert rules[..0] == [];
      assert ApplyAll(rules, s, regexReplace) == regexReplace(ApplyAll([], s, regexReplace), rule.0, rule.1);
    } else {
      assert rules[..|rules| - 1] == [rule] + rest[..|rest| - 1];
      FirstRuleFirst(rule, rest[..|rest| - 1], s, regexReplace);
    }
  }

  /** Once there is a rule, adding another composes one more Regex.Replace after
      the old behaviour; before that, Run ignores its input. */
  lemma RegexReplacedAfterAddRule(rules: seq<(string, string)>, pattern: string, replacement: string,
                                  s: string, regexReplace: RegexReplaceFn)
    ensures RegexReplaced([], s, regexReplace) == []
    ensures RegexReplaced(rules + [(pattern, replacement)], s, regexReplace)
         == regexReplace(if rules == [] then s else RegexReplaced(rules, s, regexReplace), pattern, replacement)
  {
    var added := rules + [(pattern, replacement)];
    assert added[..|rules|] == rules;
    assert ApplyAll(added, s, regexReplace) == regexReplace(ApplyAll(rules, s, regexReplace), pattern, replacement);
  }
}
