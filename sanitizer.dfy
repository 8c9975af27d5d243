/**
 * TextSanitizer: four fixed regular-expression replacements, then Trim, then a
 * check that the name in front of the extension is not blank.
 *
 * Every pattern uses ASCII character classes only, so each rule is written out
 * here as an exact function on strings. Regex.Replace scans from the left and
 * takes the leftmost, longest match each time; for a pattern that is one
 * character class repeated ("[...]+", "[...]{2,}") that means every maximal run
 * of class characters at least as long as the minimum is replaced, and shorter
 * runs are kept.
 */
module Sanitizing {
  import opened Strings
  import opened Paths

  /** The characters rule 1 lets through: [a-zA-Z0-9_. -]. */
  predicate IsSafeChar(c: char)
  {
    IsAsciiAlphanumeric(c) || c == '_' || c == '.' || c == ' ' || c == '-'
  }

  predicate AllSafe(s: string)
  {
    forall i :: 0 <= i < |s| ==> IsSafeChar(s[i])
  }

  /** The character classes of rules 1, 2 and 4. */
  datatype CharClass =
    | Unsafe              // [^a-zA-Z0-9_. -]
    | HyphenOrUnderscore  // [-_]
    | Space               // ' '

  predicate InClass(c: char, k: CharClass)
  {
    match k
    case Unsafe => !IsSafeChar(c)
    case HyphenOrUnderscore => c == '-' || c == '_'
    case Space => c == ' '
  }

  /** No two neighbouring characters both belong to class k. */
  predicate NoAdjacent(s: string, k: CharClass)
  {
    forall i :: 0 <= i < |s| - 1 ==> !(InClass(s[i], k) && InClass(s[i + 1], k))
  }

  /** Length of the run of class-k characters at the start of s. */
  function RunLength(s: string, k: CharClass): (n: nat)
    ensures n <= |s|
    ensures forall i :: 0 <= i < n ==> InClass(s[i], k)
    ensures n < |s| ==> !InClass(s[n], k)
  {
    if s == [] || !InClass(s[0], k) then 0 else 1 + RunLength(s[1..], k)
  }

  /** Regex.Replace(s, "[k]{minLen,}", rep): every maximal run of class-k
      characters that is at least minLen long becomes rep; shorter runs and
      all other characters are kept. */
  function CollapseRuns(s: string, k: CharClass, minLen: nat, rep: string): (r: string)
    ensures |rep| <= minLen ==> |r| <= |s|
    decreases |s|
  {
    if s == [] then []
    else if !InClass(s[0], k) then [s[0]] + CollapseRuns(s[1..], k, minLen, rep)
    else
      var n := RunLength(s, k);
      (if n >= minLen then rep else s[..n]) + CollapseRuns(s[n..], k, minLen, rep)
  }

  /** The lookahead of rule 3, [a-zA-Z0-9]+$: one or more ASCII letters or
      digits up to the end of the text, where '$' also matches in front of a
      final '\n'. */
  predicate IsAlnumTail(t: string)
  {
    || (t != [] && AllAlphanumeric(t))
    || (|t| >= 2 && t[|t| - 1] == '\n' && AllAlphanumeric(t[..|t| - 1]))
  }

  predicate AllAlphanumeric(a: string)
  {
    forall i :: 0 <= i < |a| ==> IsAsciiAlphanumeric(a[i])
  }

  /** Rule 3's pattern " \.(?=[a-zA-Z0-9]+$)" matches at position i. */
  predicate MatchesSpaceDotAt(s: string, i: nat)
  {
    i + 1 < |s| && s[i] == ' ' && s[i + 1] == '.' && IsAlnumTail(s[i + 2..])
  }

  /** Rule 3: the space in front of a final ".ext" is dropped. The text after
      a match contains no '.', so a match can only sit just before the last
      '.' and there is at most one. */
  function RemoveSpaceBeforeExtension(s: string): (r: string)
    ensures r == s || exists i: nat :: MatchesSpaceDotAt(s, i) && r == s[..i] + s[i + 1..]
    ensures |r| == |s| || |r| + 1 == |s|
  {
    var d := LastIndexOf(s, '.');
    if d >= 1 && MatchesSpaceDotAt(s, d - 1) then s[..d - 1] + s[d..] else s
  }

  /** The _rules table, in order. */
  datatype SanitizeRule =
    | ReplaceUnsafeRuns      // [^a-zA-Z0-9_. -]+  ->  " "
    | CollapseSeparatorRuns  // [-_]{2,}           ->  "-"
    | JoinExtension          // " \.(?=[a-zA-Z0-9]+$)"  ->  "."
    | CollapseSpaceRuns      // " {2,}"            ->  " "

  const Rules: seq<SanitizeRule> := [ReplaceUnsafeRuns, CollapseSeparatorRuns, JoinExtension, CollapseSpaceRuns]

  function ApplyRule(rule: SanitizeRule, s: string): string
  {
    match rule
    case ReplaceUnsafeRuns => CollapseRuns(s, Unsafe, 1, " ")
    case CollapseSeparatorRuns => CollapseRuns(s, HyphenOrUnderscore, 2, "-")
    case JoinExtension => RemoveSpaceBeforeExtension(s)
    case CollapseSpaceRuns => CollapseRuns(s, Space, 2, " ")
  }

  /** The rules applied one after another, in table order. */
  function ApplyRules(rules: seq<SanitizeRule>, s: string): string
  {
    if rules == [] then s
    else ApplyRule(rules[|rules| - 1], ApplyRules(rules[..|rules| - 1], s))
  }

  /** What Sanitize returns. */
  function Sanitized(s: string): (r: string)
    ensures IsNullOrWhiteSpace(s) ==> r == []
    ensures r == [] || r == Trim(ApplyRules(Rules, s))
    ensures r != [] ==> !IsNullOrWhiteSpace(FileNameWithoutExtension(r))
  {
    if IsNullOrWhiteSpace(s) then [] else Checked(Trim(ApplyRules(Rules, s)))
  }

  /** A name that is nothing but an extension: a leading '.' and no other. */
  predicate IsBareExtension(s: string)
  {
    s != [] && s[0] == '.' && forall j :: 0 < j < |s| ==> s[j] != '.'
  }

  method Sanitize(sourceText: string) returns (r: string)
    ensures r == Sanitized(sourceText)
    ensures IsNullOrWhiteSpace(sourceText) ==> r == []
    ensures AllSafe(r)
    ensures NoAdjacent(r, Space)
    ensures NoAdjacent(r, HyphenOrUnderscore)
    ensures r != [] ==> r[0] != ' ' && r[|r| - 1] != ' '
    ensures r != [] ==> !IsBareExtension(r)
  {
    if IsNullOrWhiteSpace(sourceText) {
      r := [];
    } else {
      var currentText := sourceText;
      for i := 0 to |Rules|
        invariant currentText == ApplyRules(Rules[..i], sourceText)
      {
        assert Rules[..i + 1][..i] == Rules[..i];
        currentText := ApplyRule(Rules[i], currentText);
      }
      assert Rules[..|Rules|] == Rules;
      currentText := Trim(currentText);
      r := if IsNullOrWhiteSpace(FileNameWithoutExtension(currentText)) then [] else currentText;
    }
    assert r == Sanitized(sourceText);
    SanitizedProperties(sourceText);
  }

  // ----- The four rules, one at a time -----

  /** The four rules written out one after another. */
  function Pipeline(s: string): string
  {
    var s1 := CollapseRuns(s, Unsafe, 1, " ");
    var s2 := CollapseRuns(s1, HyphenOrUnderscore, 2, "-");
    var s3 := RemoveSpaceBeforeExtension(s2);
    CollapseRuns(s3, Space, 2, " ")
  }

  /** Looping over the table applies the rules in the order of the table. */
  lemma Stages(s: string)
    ensures ApplyRules(Rules, s) == Pipeline(s)
  {
    var r1 := Rules[..1];
    var r2 := Rules[..2];
    var r3 := Rules[..3];
    assert r1[..0] == [] && r1 == [ReplaceUnsafeRuns];
    assert r2[..1] == r1 && r2[1] == CollapseSeparatorRuns;
    assert r3[..2] == r2 && r3[2] == JoinExtension;
    assert Rules[..3] == r3 && Rules[3] == CollapseSpaceRuns;
    assert ApplyRules(r1, s) == CollapseRuns(s, Unsafe, 1, " ");
    assert ApplyRules(r2, s) == ApplyRule(CollapseSeparatorRuns, ApplyRules(r1, s));
    assert ApplyRules(r3, s) == ApplyRule(JoinExtension, ApplyRules(r2, s));
    assert ApplyRules(Rules, s) == ApplyRule(CollapseSpaceRuns, ApplyRules(r3, s));
  }

  /** Characters outside the class pass through unchanged. */
  lemma {:induction false} CollapseRunsOutside(a: string, b: string, k: CharClass, minLen: nat, rep: string)
    requires forall i :: 0 <= i < |a| ==> !InClass(a[i], k)
    ensures CollapseRuns(a + b, k, minLen, rep) == a + CollapseRuns(b, k, minLen, rep)
    decreases |a|
  {
    if a != [] {
      assert (a + b)[1..] == a[1..] + b;
      CollapseRunsOutside(a[1..], b, k, minLen, rep);
    } else {
      assert a + b == b;
    }
  }

  lemma {:induction false} RunLengthOfRun(r: string, b: string, k: CharClass)
    requires forall i :: 0 <= i < |r| ==> InClass(r[i], k)
    requires b == [] || !InClass(b[0], k)
    ensures RunLength(r + b, k) == |r|
    decreases |r|
  {
    if r != [] {
      assert (r + b)[1..] == r[1..] + b;
      RunLengthOfRun(r[1..], b, k);
    } else {
      assert r + b == b;
    }
  }

  /** A maximal run of the class is replaced when it is at least minLen
      long, and kept otherwise. */
  lemma CollapseRunsRun(r: string, b: string, k: CharClass, minLen: nat, rep: string)
    requires r != [] && forall i :: 0 <= i < |r| ==> InClass(r[i], k)
    requires b == [] || !InClass(b[0], k)
    ensures CollapseRuns(r + b, k, minLen, rep) == (if |r| >= minLen then rep else r) + CollapseRuns(b, k, minLen, rep)
  {
    RunLengthOfRun(r, b, k);
    assert (r + b)[..|r|] == r && (r + b)[|r|..] == b;
  }

  /** Text without class characters is left as it is. */
  lemma CollapseRunsNone(s: string, k: CharClass, minLen: nat, rep: string)
    requires forall i :: 0 <= i < |s| ==> !InClass(s[i], k)
    ensures CollapseRuns(s, k, minLen, rep) == s
  {
    CollapseRunsOutside(s, [], k, minLen, rep);
    assert s + [] == s;
  }

  /** Rules 2 and 4 leave text alone that has no two class characters side
      by side. */
  lemma {:induction false} CollapseRunsSingles(s: string, k: CharClass, rep: string)
    requires NoAdjacent(s, k)
    ensures CollapseRuns(s, k, 2, rep) == s
    decreases |s|
  {
    if s != [] {
      if InClass(s[0], k) {
        assert RunLength(s, k) == 1 by {
          if |s| > 1 {
            assert !InClass(s[1], k);
          }
        }
        assert s == s[..1] + s[1..];
      }
      CollapseRunsSingles(s[1..], k, rep);
    }
  }

  /** Collapsing runs keeps safe text safe; rule 1 makes any text safe. */
  lemma {:induction false} CollapseRunsSafe(s: string, k: CharClass, minLen: nat, rep: string)
    requires AllSafe(rep)
    requires (k == Unsafe && minLen <= 1) || AllSafe(s)
    ensures AllSafe(CollapseRuns(s, k, minLen, rep))
    decreases |s|
  {
    if s != [] {
      if !InClass(s[0], k) {
        CollapseRunsSafe(s[1..], k, minLen, rep);
      } else {
        var n := RunLength(s, k);
        CollapseRunsSafe(s[n..], k, minLen, rep);
      }
    }
  }

  /** The output starts with the input's first character, unless that one
      opens a run that was replaced. */
  lemma CollapseRunsHead(s: string, k: CharClass, minLen: nat, rep: string)
    requires s != [] && rep != []
    ensures CollapseRuns(s, k, minLen, rep) != []
    ensures CollapseRuns(s, k, minLen, rep)[0] == s[0]
         || (InClass(s[0], k) && CollapseRuns(s, k, minLen, rep)[0] == rep[0])
  {
  }

  /** A class character followed by one outside the class, then anything
      without adjacent class characters, has none. */
  lemma JoinNoAdjacent(a: string, b: string, k: CharClass)
    requires NoAdjacent(a, k) && NoAdjacent(b, k)
    requires a != [] && b != [] ==> !(InClass(a[|a| - 1], k) && InClass(b[0], k))
    ensures NoAdjacent(a + b, k)
  {
    var ab := a + b;
    forall i | 0 <= i < |ab| - 1
      ensures !(InClass(ab[i], k) && InClass(ab[i + 1], k))
    {
      if i < |a| - 1 {
        assert ab[i] == a[i] && ab[i + 1] == a[i + 1];
      } else if i == |a| - 1 {
        assert ab[i] == a[|a| - 1] && ab[i + 1] == b[0];
      } else {
        assert ab[i] == b[i - |a|] && ab[i + 1] == b[i - |a| + 1];
      }
    }
  }

  /** Collapsing every run of class k to a single character leaves no two
      class-k characters side by side: rules 2 and 4. */
  lemma {:induction false} CollapseRunsNoAdjacent(s: string, k: CharClass, minLen: nat, rep: string)
    requires 1 <= minLen <= 2 && |rep| == 1
    ensures NoAdjacent(CollapseRuns(s, k, minLen, rep), k)
    decreases |s|
  {
    if s != [] {
      if !InClass(s[0], k) {
        CollapseRunsNoAdjacent(s[1..], k, minLen, rep);
        JoinNoAdjacent([s[0]], CollapseRuns(s[1..], k, minLen, rep), k);
      } else {
        var n := RunLength(s, k);
        var rest := CollapseRuns(s[n..], k, minLen, rep);
        CollapseRunsNoAdjacent(s[n..], k, minLen, rep);
        if n < |s| {
          CollapseRunsHead(s[n..], k, minLen, rep);
        }
        JoinNoAdjacent(if n >= minLen then rep else s[..n], rest, k);
      }
    }
  }

  /** Rule 4 turns spaces into spaces only, so it creates no new neighbours
      from {'-', '_'}. */
  lemma {:induction false} SpaceCollapseKeepsSeparators(s: string)
    requires NoAdjacent(s, HyphenOrUnderscore)
    ensures NoAdjacent(CollapseRuns(s, Space, 2, " "), HyphenOrUnderscore)
    decreases |s|
  {
    if s != [] {
      if !InClass(s[0], Space) {
        var rest := CollapseRuns(s[1..], Space, 2, " ");
        SpaceCollapseKeepsSeparators(s[1..]);
        if |s| > 1 {
          CollapseRunsHead(s[1..], Space, 2, " ");
        }
        JoinNoAdjacent([s[0]], rest, HyphenOrUnderscore);
      } else {
        var n := RunLength(s, Space);
        var seg := if n >= 2 then " " else s[..n];
        SpaceCollapseKeepsSeparators(s[n..]);
        JoinNoAdjacent(seg, CollapseRuns(s[n..], Space, 2, " "), HyphenOrUnderscore);
      }
    }
  }

  /** Rule 3 only ever removes a space in front of a '.', so it keeps safe
      text safe and creates no new neighbours from rule 2's or rule 4's class. */
  lemma RemoveSpaceKeeps(s: string, k: CharClass)
    requires k != Unsafe
    ensures AllSafe(s) ==> AllSafe(RemoveSpaceBeforeExtension(s))
    ensures NoAdjacent(s, k) ==> NoAdjacent(RemoveSpaceBeforeExtension(s), k)
  {
    var d := LastIndexOf(s, '.');
    if d >= 1 && MatchesSpaceDotAt(s, d - 1) {
      var r := s[..d - 1] + s[d..];
      assert forall j :: 0 <= j < d - 1 ==> r[j] == s[j];
      assert forall j :: d - 1 <= j < |r| ==> r[j] == s[j + 1];
    }
  }

  /** A match of rule 3 can only be the one right before the last '.', and
      removing its space is what the rule does. */
  lemma SpaceDotMatch(s: string, i: nat)
    requires MatchesSpaceDotAt(s, i)
    ensures i + 1 == LastIndexOf(s, '.')
    ensures RemoveSpaceBeforeExtension(s) == s[..i] + s[i + 1..]
  {
    var t := s[i + 2..];
    forall j | 0 <= j < |t|
      ensures t[j] != '.'
    {
      if !AllAlphanumeric(t) && j < |t| - 1 {
        assert t[j] == t[..|t| - 1][j];
      }
    }
    assert forall k :: i + 1 < k < |s| ==> s[k] == t[k - i - 2];
    LastIndexOfUnique(s, '.', i + 1);
  }

  /** Without a match rule 3 changes nothing. */
  lemma NoSpaceDotMatch(s: string)
    requires forall i: nat :: !MatchesSpaceDotAt(s, i)
    ensures RemoveSpaceBeforeExtension(s) == s
  {
  }

  /** Trim returns a slice, so it keeps both kinds of property. */
  lemma TrimKeeps(s: string, k: CharClass)
    ensures AllSafe(s) ==> AllSafe(Trim(s))
    ensures NoAdjacent(s, k) ==> NoAdjacent(Trim(s), k)
  {
    var r := Trim(s);
    if r != [] {
      var a := TrimStartIndex(s);
      assert forall j :: 0 <= j < |r| ==> r[j] == s[a + j];
    }
  }

  /** For trimmed text without separators, the part in front of the last '.'
      is blank exactly when the text is a bare extension. */
  lemma BlankStemIsBareExtension(t: string)
    requires AllSafe(t) && t != [] && !IsWhiteSpace(t[0])
    ensures IsNullOrWhiteSpace(FileNameWithoutExtension(t)) <==> IsBareExtension(t)
  {
    assert forall i :: 0 <= i < |t| ==> t[i] != DirectorySeparator;
    LastIndexOfUnique(t, DirectorySeparator, -1);
    assert FileName(t) == t;
    if IsBareExtension(t) {
      LastIndexOfUnique(t, '.', 0);
    }
  }

  /** The four rules leave only safe characters, no two spaces and no two
      of '-', '_' side by side. */
  lemma PipelineProperties(s: string)
    ensures AllSafe(Pipeline(s))
    ensures NoAdjacent(Pipeline(s), Space)
    ensures NoAdjacent(Pipeline(s), HyphenOrUnderscore)
  {
    var s1 := CollapseRuns(s, Unsafe, 1, " ");
    var s2 := CollapseRuns(s1, HyphenOrUnderscore, 2, "-");
    var s3 := RemoveSpaceBeforeExtension(s2);
    CollapseRunsSafe(s, Unsafe, 1, " ");
    CollapseRunsSafe(s1, HyphenOrUnderscore, 2, "-");
    CollapseRunsNoAdjacent(s1, HyphenOrUnderscore, 2, "-");
    RemoveSpaceKeeps(s2, HyphenOrUnderscore);
    CollapseRunsSafe(s3, Space, 2, " ");
    CollapseRunsNoAdjacent(s3, Space, 2, " ");
    SpaceCollapseKeepsSeparators(s3);
  }

  /** What the sanitizer guarantees about every output. */
  lemma SanitizedProperties(s: string)
    ensures IsNullOrWhiteSpace(s) ==> Sanitized(s) == []
    ensures AllSafe(Sanitized(s))
    ensures NoAdjacent(Sanitized(s), Space)
    ensures NoAdjacent(Sanitized(s), HyphenOrUnderscore)
    ensures Sanitized(s) != [] ==> Sanitized(s)[0] != ' ' && Sanitized(s)[|Sanitized(s)| - 1] != ' '
    ensures Sanitized(s) != [] ==> !IsBareExtension(Sanitized(s))
  {
    if !IsNullOrWhiteSpace(s) {
      Stages(s);
      var p := Pipeline(s);
      PipelineProperties(s);
      var t := Trim(p);
      TrimKeeps(p, Space);
      TrimKeeps(p, HyphenOrUnderscore);
      assert Sanitized(s) == Checked(t);
      CheckedProperties(t);
      if Checked(t) != [] {
        assert Sanitized(s) == t;
      }
    }
  }

  /** The blank-name check at the end of Sanitize. */
  function Checked(t: string): (r: string)
    ensures r == [] || r == t
    ensures r != [] ==> !IsNullOrWhiteSpace(FileNameWithoutExtension(r))
  {
    if IsNullOrWhiteSpace(FileNameWithoutExtension(t)) then [] else t
  }

  /** The check either empties the name or keeps it as it is, and what it
      keeps is no bare extension. */
  lemma CheckedProperties(t: string)
    requires AllSafe(t)
    requires t != [] ==> !IsWhiteSpace(t[0])
    ensures Checked(t) == [] || (Checked(t) == t && !IsBareExtension(t))
  {
    if !IsNullOrWhiteSpace(FileNameWithoutExtension(t)) && t != [] {
      BlankStemIsBareExtension(t);
    }
  }

  /** Safe characters include no directory separator. */
  lemma SafeHasNoSeparator(r: string)
    requires AllSafe(r)
    ensures forall i :: 0 <= i < |r| ==> r[i] != DirectorySeparator
  {
    forall i | 0 <= i < |r| ensures r[i] != DirectorySeparator {
      assert IsSafeChar(r[i]);
    }
  }
}
