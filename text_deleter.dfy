/** TextDeleter: removes every literal occurrence of each rule text, in order. */
module TextDeleting {
  import opened Strings
  import TextReplacing

  /** AddRule never admits an empty text. */
  predicate ValidRules(rules: seq<string>)
  {
    forall i :: 0 <= i < |rules| ==> rules[i] != []
  }

  /** What Run computes: each rule deletes its text from the output of the
      rules added before it. */
  function Deleted(rules: seq<string>, s: string): string
    requires ValidRules(rules)
  {
    if rules == [] then s
    else ReplaceAll(Deleted(rules[..|rules| - 1], s), rules[|rules| - 1], "")
  }

  class TextDeleter {
    var rules: seq<string>

    ghost predicate Valid()
      reads this
    {
      ValidRules(rules)
    }

    /** TextDeleter.Create(): a deleter with no rules. */
    constructor ()
      ensures Valid() && rules == []
    {
      rules := [];
    }

    /** An empty text is ignored; any other is appended. */
    method AddRule(textToDelete: string)
      requires Valid()
      modifies this
      ensures Valid()
      ensures rules == if textToDelete == [] then old(rules) else old(rules) + [textToDelete]
    {
      if textToDelete != [] {
        rules := rules + [textToDelete];
      }
    }

    method Run(sourceText: string) returns (updatedText: string)
      requires Valid()
      ensures updatedText == Deleted(rules, sourceText)
      ensures |updatedText| <= |sourceText|
      ensures rules == [] ==> updatedText == sourceText
    {
      updatedText := sourceText;
      for i := 0 to |rules|
        invariant updatedText == Deleted(rules[..i], sourceText)
      {
        assert rules[..i + 1][..i] == rules[..i];
        updatedText := ReplaceAll(updatedText, rules[i], "");
      }
      assert rules[..|rules|] == rules;
      DeletedNeverLonger(rules, sourceText);
    }
  }

  /** Deleting never makes the text longer. */
  lemma {:induction false} DeletedNeverLonger(rules: seq<string>, s: string)
    requires ValidRules(rules)
    ensures |Deleted(rules, s)| <= |s|
    decreases |rules|
  {
    if rules != [] {
      DeletedNeverLonger(rules[..|rules| - 1], s);
      ReplaceShrinksWithEmpty(Deleted(rules[..|rules| - 1], s), rules[|rules| - 1]);
    }
  }

  /** When no rule text occurs in the input, the output is the input. */
  lemma {:induction false} DeletedAbsent(rules: seq<string>, s: string)
    requires ValidRules(rules)
    requires forall i :: 0 <= i < |rules| ==> !Contains(s, rules[i])
    ensures Deleted(rules, s) == s
    decreases |rules|
  {
    if rules != [] {
      DeletedAbsent(rules[..|rules| - 1], s);
      ReplaceAbsent(s, rules[|rules| - 1], "");
    }
  }

  /** The rules of a TextReplacer that replaces each text by "". */
  function AsReplacements(rules: seq<string>): seq<(string, string)>
  {
    seq(|rules|, i requires 0 <= i < |rules| => (rules[i], ""))
  }

  /** A deleter with rules [a, b, ...] behaves exactly like a TextReplacer
      with rules [(a, ""), (b, ""), ...]. */
  lemma {:induction false} DeleterIsReplacer(rules: seq<string>, s: string)
    requires ValidRules(rules)
    ensures TextReplacing.ValidRules(AsReplacements(rules))
    ensures Deleted(rules, s) == TextReplacing.Replaced(AsReplacements(rules), s)
    decreases |rules|
  {
    if rules != [] {
      var prefix := rules[..|rules| - 1];
      assert AsReplacements(rules)[..|rules| - 1] == AsReplacements(prefix);
      DeleterIsReplacer(prefix, s);
    }
  }
}
