/** TextPrefixer: puts each rule text in front of the running text, in order. */
module TextPrefixing {
  import opened Strings

  /** AddRule never admits an empty text. */
  predicate ValidRules(rules: seq<string>)
  {
    forall i :: 0 <= i < |rules| ==> rules[i] != []
  }

  /** What Run computes: each rule is prepended to the output of the rules
      added before it, so the rule added last ends up leftmost. */
  function Prefixed(rules: seq<string>, s: string): string
  {
    if rules == [] then s
    else rules[|rules| - 1] + Prefixed(rules[..|rules| - 1], s)
  }

  /** The usual reversal of a sequence. */
  function Reverse(ss: seq<string>): (r: seq<string>)
    ensures |r| == |ss|
  {
    if ss == [] then [] else Reverse(ss[1..]) + [ss[0]]
  }

  /** Sum of the lengths of the rule texts. */
  function TotalLength(ss: seq<string>): nat
  {
    if ss == [] then 0 else |ss[0]| + TotalLength(ss[1..])
  }

  class TextPrefixer {
    var rules: seq<string>

    ghost predicate Valid()
      reads this
    {
      ValidRules(rules)
    }

    /** TextPrefixer.Create(): a prefixer with no rules. */
    constructor ()
      ensures Valid() && rules == []
    {
      rules := [];
    }

    /** An empty text is ignored; any other is appended. */
    method AddRule(prefixTextToAdd: string)
      requires Valid()
      modifies this
      ensures Valid()
      ensures rules == if prefixTextToAdd == [] then old(rules) else old(rules) + [prefixTextToAdd]
    {
      if prefixTextToAdd != [] {
        rules := rules + [prefixTextToAdd];
      }
    }

    method Run(sourceText: string) returns (updatedText: string)
      ensures updatedText == Prefixed(rules, sourceText)
      ensures updatedText == Concat(Reverse(rules)) + sourceText
    {
      updatedText := sourceText;
      for i := 0 to |rules|
        invariant updatedText == Prefixed(rules[..i], sourceText)
      {
        assert rules[..i + 1][..i] == rules[..i];
        updatedText := rules[i] + updatedText;
      }
      assert rules[..|rules|] == rules;
      PrefixedIsReversedConcat(rules, sourceText);
    }
  }

  /** Reversal puts the last element first. */
  lemma {:induction false} ReverseLastFirst(ss: seq<string>)
    requires ss != []
    ensures Reverse(ss) == [ss[|ss| - 1]] + Reverse(ss[..|ss| - 1])
    decreases |ss|
  {
    if |ss| > 1 {
      ReverseLastFirst(ss[1..]);
      assert ss[1..][..|ss| - 2] == ss[..|ss| - 1][1..];
    }
  }

  lemma {:induction false} ConcatAppend(a: seq<string>, b: seq<string>)
    ensures Concat(a + b) == Concat(a) + Concat(b)
    decreases |a|
  {
    if a != [] {
      assert (a + b)[1..] == a[1..] + b;
      ConcatAppend(a[1..], b);
    } else {
      assert a + b == b;
    }
  }

  /** Run(s) is the reversed rules, concatenated, followed by s: the first rule
      added sits right next to s. */
  lemma {:induction false} PrefixedIsReversedConcat(rules: seq<string>, s: string)
    ensures Prefixed(rules, s) == Concat(Reverse(rules)) + s
    decreases |rules|
  {
    if rules != [] {
      var last, prefix := rules[|rules| - 1], rules[..|rules| - 1];
      PrefixedIsReversedConcat(prefix, s);
      ReverseLastFirst(rules);
      ConcatAppend([last], Reverse(prefix));
    }
  }

  lemma {:induction false} TotalLengthAppend(a: seq<string>, b: seq<string>)
    ensures TotalLength(a + b) == TotalLength(a) + TotalLength(b)
    decreases |a|
  {
    if a != [] {
      assert (a + b)[1..] == a[1..] + b;
      TotalLengthAppend(a[1..], b);
    } else {
      assert a + b == b;
    }
  }

  /** s is always a suffix of Run(s), which is longer by the total length of the rules. */
  lemma {:induction false} PrefixedLength(rules: seq<string>, s: string)
    ensures |Prefixed(rules, s)| == |s| + TotalLength(rules)
    ensures Prefixed(rules, s)[TotalLength(rules)..] == s
    decreases |rules|
  {
    if rules != [] {
      var prefix := rules[..|rules| - 1];
      assert rules == prefix + [rules[|rules| - 1]];
      TotalLengthAppend(prefix, [rules[|rules| - 1]]);
      PrefixedLength(prefix, s);
    }
  }

  lemma {:induction false} TotalLengthPositive(rules: seq<string>)
    requires ValidRules(rules) && rules != []
    ensures TotalLength(rules) > 0
  {
  }

  /** With no rules Run is the identity; with any rule, running it twice differs
      from running it once, since every rule text is non-empty. */
  lemma PrefixedTwiceDiffers(rules: seq<string>, s: string)
    requires ValidRules(rules)
    ensures rules == [] ==> Prefixed(rules, s) == s
    ensures rules != [] ==> Prefixed(rules, Prefixed(rules, s)) != Prefixed(rules, s)
  {
    if rules != [] {
      PrefixedLength(rules, s);
      PrefixedLength(rules, Prefixed(rules, s));
      TotalLengthPositive(rules);
    }
  }
}
