/**
 * The parts of System.String and System.Char that the renaming core relies on:
 * white-space classification, IsNullOrWhiteSpace, Trim, ordinal Replace and
 * (ASCII-only) upper- and lower-casing.
 */
module Strings {

  /** char.IsWhiteSpace: the Unicode space, line and paragraph separators,
      U+0009..U+000D and U+0085. The regex class \s matches exactly this set. */
  predicate IsWhiteSpace(c: char)
  {
    || c == ' ' || ('\t' <= c <= '\r') || c == '\U{0085}' || c == '\U{00A0}'
    || c == '\U{1680}' || ('\U{2000}' <= c <= '\U{200A}') || c == '\U{2028}'
    || c == '\U{2029}' || c == '\U{202F}' || c == '\U{205F}' || c == '\U{3000}'
  }

  /** string.IsNullOrWhiteSpace for a non-null string: empty or only white space. */
  predicate IsNullOrWhiteSpace(s: string)
  {
    forall i :: 0 <= i < |s| ==> IsWhiteSpace(s[i])
  }

  predicate IsAsciiLower(c: char) { 'a' <= c <= 'z' }

  predicate IsAsciiUpper(c: char) { 'A' <= c <= 'Z' }

  predicate IsAsciiLetter(c: char) { IsAsciiLower(c) || IsAsciiUpper(c) }

  predicate IsAsciiDigit(c: char) { '0' <= c <= '9' }

  predicate IsAsciiAlphanumeric(c: char) { IsAsciiLetter(c) || IsAsciiDigit(c) }

  /** char.ToUpper restricted to ASCII letters; every other character is kept. */
  function ToUpperChar(c: char): (u: char)
    ensures !IsAsciiLower(u)
    ensures IsAsciiLetter(u) <==> IsAsciiLetter(c)
    ensures !IsAsciiLetter(c) ==> u == c
  {
    if IsAsciiLower(c) then (c as int - 32) as char else c
  }

  /** char.ToLower restricted to ASCII letters; every other character is kept. */
  function ToLowerChar(c: char): (l: char)
    ensures !IsAsciiUpper(l)
    ensures IsAsciiLetter(l) <==> IsAsciiLetter(c)
    ensures !IsAsciiLetter(c) ==> l == c
  {
    if IsAsciiUpper(c) then (c as int + 32) as char else c
  }

  /** Lowering an upper-cased char gives the lowered char, and the other way round. */
  lemma CaseRoundTrip(c: char)
    ensures ToLowerChar(ToUpperChar(c)) == ToLowerChar(c)
    ensures ToUpperChar(ToLowerChar(c)) == ToUpperChar(c)
  {
  }

  /** string.ToUpper (ASCII model): maps every character, keeps the length. */
  function ToUpper(s: string): (r: string)
    ensures |r| == |s|
    ensures forall i :: 0 <= i < |s| ==> r[i] == ToUpperChar(s[i])
  {
    if s == [] then [] else [ToUpperChar(s[0])] + ToUpper(s[1..])
  }

  /** string.ToLower (ASCII model): maps every character, keeps the length. */
  function ToLower(s: string): (r: string)
    ensures |r| == |s|
    ensures forall i :: 0 <= i < |s| ==> r[i] == ToLowerChar(s[i])
  {
    if s == [] then [] else [ToLowerChar(s[0])] + ToLower(s[1..])
  }

  /** Number of leading white-space characters: where Trim starts. */
  function TrimStartIndex(s: string): (i: nat)
    ensures i <= |s|
    ensures forall k :: 0 <= k < i ==> IsWhiteSpace(s[k])
    ensures i < |s| ==> !IsWhiteSpace(s[i])
  {
    if s == [] || !IsWhiteSpace(s[0]) then 0 else 1 + TrimStartIndex(s[1..])
  }

  /** Length of s without its trailing white space: where Trim ends. */
  function TrimEndIndex(s: string): (j: nat)
    ensures j <= |s|
    ensures forall k :: j <= k < |s| ==> IsWhiteSpace(s[k])
    ensures 0 < j ==> !IsWhiteSpace(s[j - 1])
  {
    if s == [] || !IsWhiteSpace(s[|s| - 1]) then |s| else TrimEndIndex(s[..|s| - 1])
  }

  /** string.Trim: drops leading and trailing white space and nothing else. */
  function Trim(s: string): (r: string)
    ensures r == [] <==> IsNullOrWhiteSpace(s)
    ensures r != [] ==> !IsWhiteSpace(r[0]) && !IsWhiteSpace(r[|r| - 1])
    ensures r != [] ==> TrimStartIndex(s) < TrimEndIndex(s) && r == s[TrimStartIndex(s)..TrimEndIndex(s)]
  {
    var i, j := TrimStartIndex(s), TrimEndIndex(s);
    if i < j then s[i..j] else []
  }

  /** Whether pat occurs in s at position i. */
  predicate OccursAt(s: string, pat: string, i: nat)
  {
    i + |pat| <= |s| && s[i..i + |pat|] == pat
  }

  /** string.Contains (ordinal). */
  predicate Contains(s: string, pat: string)
  {
    exists i: nat :: i <= |s| && OccursAt(s, pat, i)
  }

  /** A proof helper: string concatenation is associative. */
  lemma Associative(a: string, b: string, c: string)
    ensures a + b + c == a + (b + c)
  {
  }

  /** A proof helper: a suffix of a suffix is a suffix. */
  lemma SuffixOfSuffix(a: string, b: string, c: string)
    requires |b| <= |a| && a[|a| - |b|..] == b
    requires |c| <= |b| && b[|b| - |c|..] == c
    ensures |c| <= |a| && a[|a| - |c|..] == c
  {
    assert a[|a| - |c|..] == a[|a| - |b|..][|b| - |c|..];
  }

  /** string.Replace(pat, rep) with ordinal comparison: scans from the left and
      replaces each non-overlapping occurrence of pat. .NET refuses an empty pat. */
  function ReplaceAll(s: string, pat: string, rep: string): (r: string)
    requires pat != []
    ensures rep == pat ==> r == s
    decreases |s|
  {
    if |s| < |pat| then s
    else if s[..|pat|] == pat then rep + ReplaceAll(s[|pat|..], pat, rep)
    else [s[0]] + ReplaceAll(s[1..], pat, rep)
  }

  /** The number of occurrences ReplaceAll replaces. */
  function Occurrences(s: string, pat: string): nat
    requires pat != []
    decreases |s|
  {
    if |s| < |pat| then 0
    else if s[..|pat|] == pat then 1 + Occurrences(s[|pat|..], pat)
    else Occurrences(s[1..], pat)
  }

  /** A proof helper for ReplaceAllLength: one more occurrence adds d. */
  lemma MulSucc(k: int, d: int)
    ensures (k + 1) * d == k * d + d
  {
  }

  /** Each replaced occurrence changes the length by |rep| - |pat|. */
  lemma {:induction false} ReplaceAllLength(s: string, pat: string, rep: string)
    requires pat != []
    ensures |ReplaceAll(s, pat, rep)| == |s| + Occurrences(s, pat) * (|rep| - |pat|)
    decreases |s|
  {
    if |s| < |pat| {
    } else if s[..|pat|] == pat {
      var k, d := Occurrences(s[|pat|..], pat), |rep| - |pat|;
      ReplaceAllLength(s[|pat|..], pat, rep);
      assert Occurrences(s, pat) == k + 1;
      assert |ReplaceAll(s, pat, rep)| == |rep| + |ReplaceAll(s[|pat|..], pat, rep)|;
      MulSucc(k, d);
    } else {
      ReplaceAllLength(s[1..], pat, rep);
      assert Occurrences(s, pat) == Occurrences(s[1..], pat);
      assert |ReplaceAll(s, pat, rep)| == 1 + |ReplaceAll(s[1..], pat, rep)|;
    }
  }

  /** ReplaceAll finds an occurrence exactly when pat is contained in s. */
  lemma {:induction false} OccurrencesZeroIffAbsent(s: string, pat: string)
    requires pat != []
    ensures Occurrences(s, pat) == 0 <==> !Contains(s, pat)
    decreases |s|
  {
    if |s| < |pat| {
      forall i: nat | i <= |s| ensures !OccursAt(s, pat, i) { }
    } else if s[..|pat|] == pat {
      assert OccursAt(s, pat, 0);
    } else {
      OccurrencesZeroIffAbsent(s[1..], pat);
      ContainsPastFirst(s, pat);
    }
  }

  /** When pat does not occur at the start of s, it occurs in s exactly when
      it occurs in s without its first character. */
  lemma ContainsPastFirst(s: string, pat: string)
    requires s != [] && !OccursAt(s, pat, 0)
    ensures Contains(s, pat) <==> Contains(s[1..], pat)
  {
    if Contains(s[1..], pat) {
      var i: nat :| i <= |s[1..]| && OccursAt(s[1..], pat, i);
      assert s[i + 1..i + 1 + |pat|] == s[1..][i..i + |pat|];
      assert OccursAt(s, pat, i + 1);
    }
    if Contains(s, pat) {
      var i: nat :| i <= |s| && OccursAt(s, pat, i);
      assert i != 0;
      assert s[1..][i - 1..i - 1 + |pat|] == s[i..i + |pat|];
      assert OccursAt(s[1..], pat, i - 1);
    }
  }

  /** Replacing a pattern that does not occur leaves the text unchanged. */
  lemma {:induction false} ReplaceAbsent(s: string, pat: string, rep: string)
    requires pat != []
    requires !Contains(s, pat)
    ensures ReplaceAll(s, pat, rep) == s
  {
    OccurrencesZeroIffAbsent(s, pat);
    ReplaceZeroOccurrences(s, pat, rep);
  }

  lemma {:induction false} ReplaceZeroOccurrences(s: string, pat: string, rep: string)
    requires pat != []
    requires Occurrences(s, pat) == 0
    ensures ReplaceAll(s, pat, rep) == s
    decreases |s|
  {
    if |s| < |pat| {
    } else {
      ReplaceZeroOccurrences(s[1..], pat, rep);
    }
  }

  /** Removing every occurrence of a one-character pattern leaves none of it. */
  lemma {:induction false} DeleteCharRemovesAll(s: string, c: char)
    ensures forall i :: 0 <= i < |ReplaceAll(s, [c], "")| ==> ReplaceAll(s, [c], "")[i] != c
    decreases |s|
  {
    if |s| >= 1 {
      DeleteCharRemovesAll(s[1..], c);
    }
  }

  /** With no occurrence, ReplaceAll is the identity; here stated for one character. */
  lemma {:induction false} DeleteAbsentChar(s: string, c: char)
    requires forall i :: 0 <= i < |s| ==> s[i] != c
    ensures ReplaceAll(s, [c], "") == s
    decreases |s|
  {
    if |s| >= 1 {
      DeleteAbsentChar(s[1..], c);
    }
  }

  /** Deleting a pattern never makes the text longer. */
  lemma {:induction false} ReplaceShrinksWithEmpty(s: string, pat: string)
    requires pat != []
    ensures |ReplaceAll(s, pat, "")| <= |s|
  {
    ReplaceAllLength(s, pat, "");
  }

  /** Concatenation of a sequence of strings (string.Concat). */
  function Concat(ss: seq<string>): (r: string)
    ensures ss == [] ==> r == []
  {
    if ss == [] then [] else ss[0] + Concat(ss[1..])
  }

  /** string.Join(sep, ss). */
  function Join(sep: string, ss: seq<string>): (r: string)
    ensures ss == [] ==> r == []
    ensures ss != [] ==> |ss[0]| <= |r| && r[..|ss[0]|] == ss[0]
  {
    if ss == [] then [] else if |ss| == 1 then ss[0] else ss[0] + sep + Join(sep, ss[1..])
  }

  /** Joining with the empty separator is concatenation. */
  lemma {:induction false} JoinWithoutSeparator(ss: seq<string>)
    ensures Join([], ss) == Concat(ss)
  {
    if |ss| > 1 {
      JoinWithoutSeparator(ss[1..]);
      assert ss[0] + [] == ss[0];
    }
  }
}
