/** TextReplacer: literal (ordinal) substring replacement, one rule after another. */
module TextReplacing {
  import opened Strings

  /** A rule list TextReplacer can hold: AddRule never admits an empty pattern. */
  predicate ValidRules(rules: seq<(string, string)>)
  {
    forall i :: 0 <= i < |rules| ==> rules[i].0 != []
  }

  /** What Run computes: every (pattern, replacement) rule replaces all
      occurrences in the output of the rules added before it. */
  function Replaced(rules: seq<(string, string)>, s: string): string
    requires ValidRules(rules)
  {
    if rules == [] then s
    else
      var last := rules[|rules| - 1];
      ReplaceAll(Replaced(rules[..|rules| - 1], s), last.0, last.1)
  }

  class TextReplacer {
    var rules: seq<(string, string)>

    ghost predicate Valid()
      reads this
    {
      ValidRules(rules)
    }

    /** TextReplacer.Create(): a replacer with no rules. */
    constructor ()
      ensures Valid() && rules == []
    {
      rules := [];
    }

    /** An empty pattern is ignored; any other rule is appended. */
    method AddRule(textPattern: string, replacement: string)
      requires Valid()
      modifies this
      ensures Valid()
      ensures rules == if textPattern == [] then old(rules) else old(rules) + [(textPattern, replacement)]
    {
      if textPattern != [] {
        rules := rules + [(textPattern, replacement)];
      }
    }

    method Run(sourceText: string) returns (updatedText: string)
      requires Valid()
      ensures updatedText == Replaced(rules, sourceText)
      ensures rules == [] ==> updatedText == sourceText
    {
      updatedText := sourceText;
      for i := 0 to |rules|
        invariant updatedText == Replaced(rules[..i], sourceText)
      {
        assert rules[..i + 1][..i] == rules[..i];
        updatedText := ReplaceAll(updatedText, rules[i].0, rules[i].1);
      }
      assert rules[..|rules|] == rules;
    }
  }

  /** The first rule added is the first applied: Replaced is the left fold of
      ReplaceAll over the rules in insertion order. */
  lemma {:induction false} ReplacedFirstRuleFirst(pattern: string, replacement: string,
                                                  rest: seq<(string, string)>, s: string)
    requires pattern != [] && ValidRules(rest)
    ensures ValidRules([(pattern, replacement)] + rest)
    ensures Replaced([(pattern, replacement)] + rest, s) == Replaced(rest, ReplaceAll(s, pattern, replacement))
    decreases |rest|
  {
    var rules := [(pattern, replacement)] + rest;
    if rest == [] {
      assert rules[..0] == [];
    } else {
      assert rules[..|rules| - 1] == [(pattern, replacement)] + rest[..|rest| - 1];
      ReplacedFirstRuleFirst(pattern, replacement, rest[..|rest| - 1], s);
    }
  }

  /** A rule whose pattern does not occur in the text it is given changes nothing. */
  lemma SkipAbsentRule(rules: seq<(string, string)>, pattern: string, replacement: string, s: string)
    requires ValidRules(rules) && pattern != []
    requires !Contains(Replaced(rules, s), pattern)
    ensures ValidRules(rules + [(pattern, replacement)])
    ensures Replaced(rules + [(pattern, replacement)], s) == Replaced(rules, s)
  {
    assert (rules + [(pattern, replacement)])[..|rules|] == rules;
    ReplaceAbsent(Replaced(rules, s), pattern, replacement);
  }

  /** Adding a rule composes one more replacement after the old behaviour. */
  lemma ReplacedAfterAddRule(rules: seq<(string, string)>, pattern: string, replacement: string, s: string)
    requires ValidRules(rules) && pattern != []
    ensures ValidRules(rules + [(pattern, replacement)])
    ensures Replaced(rules + [(pattern, replacement)], s) == ReplaceAll(Replaced(rules, s), pattern, replacement)
  {
    assert (rules + [(pattern, replacement)])[..|rules|] == rules;
  }
}
