/**
 * Worked inputs for TextSanitizer: the behaviour its comments describe, the
 * place where the code differs from one of them, and an input on which a
 * second pass changes the result again.
 */
module SanitizerExamples {
  import opened Strings
  import opened Paths
  import opened Sanitizing

  /** Trim keeps a text that has no white space at either end. */
  lemma TrimmedIs(t: string)
    requires t != [] && !IsWhiteSpace(t[0]) && !IsWhiteSpace(t[|t| - 1])
    ensures Trim(t) == t
  {
    assert TrimStartIndex(t) == 0 && TrimEndIndex(t) == |t|;
    assert t[0..|t|] == t;
  }

  /** When the four rules leave a text with no white space at its ends that
      is not a bare extension, Sanitize returns exactly that text. */
  lemma SanitizedIs(s: string, t: string)
    requires !IsNullOrWhiteSpace(s) && Pipeline(s) == t
    requires t != [] && !IsWhiteSpace(t[0]) && !IsWhiteSpace(t[|t| - 1])
    requires !IsBareExtension(t)
    ensures Sanitized(s) == t
  {
    Stages(s);
    PipelineProperties(s);
    TrimmedIs(t);
    BlankStemIsBareExtension(t);
  }

  /** Rules 1 and 2 leave safe text without '-' and '_' as it is. */
  lemma CleanText(s: string)
    requires forall i :: 0 <= i < |s| ==> IsSafeChar(s[i]) && s[i] != '-' && s[i] != '_'
    ensures CollapseRuns(CollapseRuns(s, Unsafe, 1, " "), HyphenOrUnderscore, 2, "-") == s
  {
    CollapseRunsNone(s, Unsafe, 1, " ");
    CollapseRunsNone(s, HyphenOrUnderscore, 2, "-");
  }

  lemma FileRuleOne(s: string)
    requires s == "file---name" || s == "file___name"
    ensures CollapseRuns(s, Unsafe, 1, " ") == s
  {
    assert forall i :: 0 <= i < |s| ==> IsSafeChar(s[i]);
    CollapseRunsNone(s, Unsafe, 1, " ");
  }

  /** Rule 2 on a run of at least two separators between two parts
      without any. */
  lemma SeparatorRunBetween(a: string, run: string, b: string)
    requires forall i :: 0 <= i < |a| ==> !InClass(a[i], HyphenOrUnderscore)
    requires |run| >= 2 && forall i :: 0 <= i < |run| ==> InClass(run[i], HyphenOrUnderscore)
    requires forall i :: 0 <= i < |b| ==> !InClass(b[i], HyphenOrUnderscore)
    ensures CollapseRuns(a + (run + b), HyphenOrUnderscore, 2, "-") == a + "-" + b
  {
    CollapseRunsOutside(a, run + b, HyphenOrUnderscore, 2, "-");
    RunThenPlain(run, b);
    assert a + ("-" + b) == a + "-" + b;
  }

  lemma RunThenPlain(run: string, b: string)
    requires |run| >= 2 && forall i :: 0 <= i < |run| ==> InClass(run[i], HyphenOrUnderscore)
    requires forall i :: 0 <= i < |b| ==> !InClass(b[i], HyphenOrUnderscore)
    ensures CollapseRuns(run + b, HyphenOrUnderscore, 2, "-") == "-" + b
  {
    assert b == [] || !InClass(b[0], HyphenOrUnderscore);
    CollapseRunsRun(run, b, HyphenOrUnderscore, 2, "-");
    CollapseRunsNone(b, HyphenOrUnderscore, 2, "-");
  }

  /** The run of three separators in the middle is replaced by one '-'. */
  lemma FileRuleTwo(s: string, t: string)
    requires s == "file---name" || s == "file___name"
    requires t == "file-name"
    ensures CollapseRuns(s, HyphenOrUnderscore, 2, "-") == t
  {
    var a, b := "file", "name";
    assert a + "-" + b == t;
    if s == "file---name" {
      var run := "---";
      assert s == a + (run + b);
      SeparatorRunBetween(a, run, b);
    } else {
      var run := "___";
      assert s == a + (run + b);
      SeparatorRunBetween(a, run, b);
    }
  }

  lemma FileRulesThreeFour(t: string)
    requires t == "file-name"
    ensures CollapseRuns(RemoveSpaceBeforeExtension(t), Space, 2, " ") == t
  {
    assert forall i :: 0 <= i < |t| ==> t[i] != '.';
    LastIndexOfUnique(t, '.', -1);
    assert forall i :: 0 <= i < |t| ==> t[i] != ' ';
    CollapseRunsNone(t, Space, 2, " ");
  }

  lemma FileNameShape(t: string)
    requires t == "file-name"
    ensures t != [] && !IsWhiteSpace(t[0]) && !IsWhiteSpace(t[|t| - 1]) && !IsBareExtension(t)
  {
  }

  /** A run of '_' or of '-' becomes a single '-': "file---name" and also
      "file___name" give "file-name". A comment beside rule 2 expects
      "file_name" for the second; the rule's replacement is "-". */
  lemma SeparatorRunExample(s: string)
    requires s == "file---name" || s == "file___name"
    ensures Sanitized(s) == "file-name"
  {
    var t :| t == "file-name";
    assert !IsNullOrWhiteSpace(s) by { assert s[0] == 'f'; }
    FileRuleOne(s);
    FileRuleTwo(s, t);
    FileRulesThreeFour(t);
    FileNameShape(t);
    SanitizedIs(s, t);
  }

  lemma PhotoRulesOneTwo(s: string)
    requires s == "photo .jpg" || s == "photo  .jpg"
    ensures CollapseRuns(CollapseRuns(s, Unsafe, 1, " "), HyphenOrUnderscore, 2, "-") == s
  {
    assert forall i :: 0 <= i < |s| ==> IsSafeChar(s[i]) && s[i] != '-' && s[i] != '_';
    CleanText(s);
  }

  /** Rule 3 drops the one space right in front of ".jpg", at position i. */
  lemma PhotoRuleThree(s: string, t: string, i: nat)
    requires || (s == "photo .jpg" && t == "photo.jpg" && i == 5)
             || (s == "photo  .jpg" && t == "photo .jpg" && i == 6)
    ensures RemoveSpaceBeforeExtension(s) == t
  {
    assert s[i + 2..] == "jpg";
    assert AllAlphanumeric("jpg");
    assert MatchesSpaceDotAt(s, i);
    SpaceDotMatch(s, i);
    SpaceRemoved(s, t, i);
  }

  lemma SpaceRemoved(s: string, t: string, i: nat)
    requires || (s == "photo .jpg" && t == "photo.jpg" && i == 5)
             || (s == "photo  .jpg" && t == "photo .jpg" && i == 6)
    ensures s[..i] + s[i + 1..] == t
  {
    assert s[i + 1..] == ".jpg";
    assert s[..i] == t[..i];
  }

  /** Rule 4 has nothing to collapse once at most one space is left. */
  lemma PhotoRuleFour(t: string)
    requires t == "photo.jpg" || t == "photo .jpg"
    ensures CollapseRuns(t, Space, 2, " ") == t
  {
    forall i | 0 <= i < |t| - 1
      ensures !(InClass(t[i], Space) && InClass(t[i + 1], Space))
    {
    }
    CollapseRunsSingles(t, Space, " ");
  }

  lemma PhotoShape(t: string)
    requires t == "photo.jpg" || t == "photo .jpg"
    ensures t != [] && !IsWhiteSpace(t[0]) && !IsWhiteSpace(t[|t| - 1]) && !IsBareExtension(t)
  {
    assert t[0] == 'p';
  }

  /** The four rules take "photo .jpg" to "photo.jpg", and "photo  .jpg"
      to "photo .jpg". */
  lemma PhotoPipeline(s: string, t: string)
    requires || (s == "photo .jpg" && t == "photo.jpg")
             || (s == "photo  .jpg" && t == "photo .jpg")
    ensures Pipeline(s) == t
  {
    PhotoRulesOneTwo(s);
    PhotoRuleThree(s, t, if s == "photo .jpg" then 5 else 6);
    PhotoRuleFour(t);
  }

  /** Both "photo" inputs, sanitized. */
  lemma PhotoSanitized(s: string, t: string)
    requires (s == "photo .jpg" && t == "photo.jpg") || (s == "photo  .jpg" && t == "photo .jpg")
    ensures Sanitized(s) == t
  {
    assert !IsNullOrWhiteSpace(s) by { assert s[0] == 'p'; }
    PhotoPipeline(s, t);
    PhotoShape(t);
    SanitizedIs(s, t);
  }

  /** The case rule 3 exists for: "photo .jpg" gives "photo.jpg". */
  lemma SpaceBeforeExtensionExample(s: string)
    requires s == "photo .jpg"
    ensures Sanitized(s) == "photo.jpg"
  {
    var t :| t == "photo.jpg";
    PhotoSanitized(s, t);
  }

  /** Sanitize is not idempotent: rule 3 runs before rule 4, so when two
      spaces precede the extension only one of them goes, and a second pass
      removes the other. */
  lemma NotIdempotent(s: string)
    requires s == "photo  .jpg"
    ensures Sanitized(s) == "photo .jpg"
    ensures Sanitized(Sanitized(s)) == "photo.jpg"
    ensures Sanitized(Sanitized(s)) != Sanitized(s)
  {
    var t1, t2 :| t1 == "photo .jpg" && t2 == "photo.jpg";
    PhotoSanitized(s, t1);
    PhotoSanitized(t1, t2);
  }

  /** The four rules leave ".gitignore" as it is. */
  lemma GitignorePipeline(s: string)
    requires s == ".gitignore"
    ensures Pipeline(s) == s
  {
    assert forall i :: 0 <= i < |s| ==> IsSafeChar(s[i]) && s[i] != '-' && s[i] != '_' && s[i] != ' ';
    CleanText(s);
    assert LastIndexOf(s, '.') == 0 by {
      LastIndexOfUnique(s, '.', 0);
    }
    CollapseRunsNone(s, Space, 2, " ");
  }

  lemma GitignoreShape(s: string)
    requires s == ".gitignore"
    ensures s != [] && !IsWhiteSpace(s[0]) && !IsWhiteSpace(s[|s| - 1]) && AllSafe(s)
    ensures IsBareExtension(s)
  {
    assert s[0] == '.';
  }

  /** A name that is only an extension is rejected, even though every
      character of it is allowed: ".gitignore" gives "". */
  lemma BareExtensionExample(s: string)
    requires s == ".gitignore"
    ensures Sanitized(s) == []
  {
    assert !IsNullOrWhiteSpace(s) by { assert s[0] == '.'; }
    GitignorePipeline(s);
    GitignoreShape(s);
    Stages(s);
    TrimmedIs(s);
    BlankStemIsBareExtension(s);
  }
}
