/**
 * TextCaseChanger: rewrites the whole text in one of eight cases. Letter case
 * is ASCII-only here; title case is the culture's TextInfo.ToTitleCase, a
 * parameter of the model.
 */
module CaseChanging {
  import opened Strings
  import opened Platform

  datatype TextCase =
    | SentenceCase | TitleCase | UpperCase | LowerCase
    | CamelCase | PascalCase | SnakeCase | KebabCase

  /** The separator class [\s_-] of GetWords' split pattern. */
  predicate IsWordSeparator(c: char)
  {
    IsWhiteSpace(c) || c == '_' || c == '-'
  }

  /** The zero-width split point (?<=[a-z])(?=[A-Z]) lies between a and b. */
  predicate IsCamelBoundary(a: char, b: char)
  {
    IsAsciiLower(a) && IsAsciiUpper(b)
  }

  /** What GetWords yields: non-empty, no separator, no camel boundary inside. */
  predicate IsWord(w: string)
  {
    && w != []
    && (forall k :: 0 <= k < |w| ==> !IsWordSeparator(w[k]))
    && (forall k :: 0 <= k < |w| - 1 ==> !IsCamelBoundary(w[k], w[k + 1]))
  }

  /** Length of the word s starts with: up to the next separator or camel boundary. */
  function WordLength(s: string): (n: nat)
    requires s != [] && !IsWordSeparator(s[0])
    ensures 1 <= n <= |s|
    ensures IsWord(s[..n])
    ensures n < |s| ==> IsWordSeparator(s[n]) || IsCamelBoundary(s[n - 1], s[n])
  {
    if |s| == 1 || IsWordSeparator(s[1]) || IsCamelBoundary(s[0], s[1]) then 1
    else
      var n := 1 + WordLength(s[1..]);
      assert s[..n] == [s[0]] + s[1..][..n - 1];
      n
  }

  /** GetWords: Regex.Split(text, @"(?<=[a-z])(?=[A-Z])|[\s_-]+") without the
      blank pieces. A piece never holds a separator, so the blank pieces are
      exactly the empty ones. */
  function GetWords(s: string): (words: seq<string>)
    ensures forall i :: 0 <= i < |words| ==> IsWord(words[i])
    decreases |s|
  {
    if s == [] then []
    else if IsWordSeparator(s[0]) then GetWords(s[1..])
    else
      var n := WordLength(s);
      [s[..n]] + GetWords(s[n..])
  }

  /** A word ends at a separator, at a lower-to-upper step or at the end. */
  predicate EndsWordBefore(w: string, rest: string)
  {
    w != [] && (rest == [] || IsWordSeparator(rest[0]) || IsCamelBoundary(w[|w| - 1], rest[0]))
  }

  lemma {:induction false} WordLengthOf(w: string, rest: string)
    requires IsWord(w) && EndsWordBefore(w, rest)
    ensures WordLength(w + rest) == |w|
    decreases |w|
  {
    var s := w + rest;
    if |w| > 1 {
      assert s[0] == w[0] && s[1] == w[1];
      assert s[1..] == w[1..] + rest;
      assert w[1..][|w| - 2] == w[|w| - 1];
      WordLengthOf(w[1..], rest);
    }
  }

  /** GetWords peels a leading word off. */
  lemma GetWordsCons(w: string, rest: string)
    requires IsWord(w) && EndsWordBefore(w, rest)
    ensures GetWords(w + rest) == [w] + GetWords(rest)
  {
    WordLengthOf(w, rest);
    assert (w + rest)[..|w|] == w && (w + rest)[|w|..] == rest;
  }

  /** GetWords skips a leading separator. */
  lemma GetWordsSkip(c: char, rest: string)
    requires IsWordSeparator(c)
    ensures GetWords([c] + rest) == GetWords(rest)
  {
    assert ([c] + rest)[1..] == rest;
  }

  /** The characters of s that are not separators, in order. */
  function WithoutSeparators(s: string): string
  {
    if s == [] then []
    else if IsWordSeparator(s[0]) then WithoutSeparators(s[1..])
    else [s[0]] + WithoutSeparators(s[1..])
  }

  lemma {:induction false} WithoutSeparatorsOfWord(w: string, rest: string)
    requires forall k :: 0 <= k < |w| ==> !IsWordSeparator(w[k])
    ensures WithoutSeparators(w + rest) == w + WithoutSeparators(rest)
    decreases |w|
  {
    if w != [] {
      assert (w + rest)[1..] == w[1..] + rest;
      WithoutSeparatorsOfWord(w[1..], rest);
    } else {
      assert w + rest == rest;
    }
  }

  /** GetWords loses nothing but separators: its words, concatenated, are the
      input with every separator taken out. */
  lemma {:induction false} GetWordsKeepsEveryOtherChar(s: string)
    ensures Concat(GetWords(s)) == WithoutSeparators(s)
    decreases |s|
  {
    if s != [] {
      if IsWordSeparator(s[0]) {
        GetWordsKeepsEveryOtherChar(s[1..]);
      } else {
        var n := WordLength(s);
        GetWordsKeepsEveryOtherChar(s[n..]);
        assert s == s[..n] + s[n..];
        WithoutSeparatorsOfWord(s[..n], s[n..]);
        assert ([s[..n]] + GetWords(s[n..]))[1..] == GetWords(s[n..]);
      }
    }
  }

  /** A word with its first character upper-cased and the rest lower-cased. */
  function Capitalize(w: string): (r: string)
    requires w != []
    ensures |r| == |w| && r[0] == ToUpperChar(w[0]) && r[1..] == ToLower(w[1..])
  {
    [ToUpperChar(w[0])] + ToLower(w[1..])
  }

  function CapitalizeAll(words: seq<string>): (r: seq<string>)
    requires forall i :: 0 <= i < |words| ==> words[i] != []
  {
    if words == [] then [] else [Capitalize(words[0])] + CapitalizeAll(words[1..])
  }

  /** ToCamelCase: "" without words, else the first word lower-cased and the
      others capitalised. */
  function ToCamelCase(s: string): (r: string)
    ensures r == [] <==> GetWords(s) == []
    ensures GetWords(s) != [] ==>
      |GetWords(s)[0]| <= |r| && r[..|GetWords(s)[0]|] == ToLower(GetWords(s)[0])
    ensures r != [] ==> !IsAsciiUpper(r[0])
  {
    var words := GetWords(s);
    if |words| == 0 then [] else ToLower(words[0]) + Concat(CapitalizeAll(words[1..]))
  }

  /** ToPascalCase: every word capitalised. */
  function ToPascalCase(s: string): (r: string)
    ensures r == [] <==> GetWords(s) == []
    ensures GetWords(s) != [] ==>
      |GetWords(s)[0]| <= |r| && r[..|GetWords(s)[0]|] == Capitalize(GetWords(s)[0])
    ensures r != [] ==> !IsAsciiLower(r[0])
  {
    Concat(CapitalizeAll(GetWords(s)))
  }

  /** ToSnakeCase: the words joined by '_', lower-cased. */
  function ToSnakeCase(s: string): (r: string)
    ensures GetWords(s) == [] ==> r == []
    ensures forall k :: 0 <= k < |r| ==> !IsAsciiUpper(r[k])
  {
    ToLower(Join("_", GetWords(s)))
  }

  /** ToKebabCase: the words joined by '-', lower-cased. */
  function ToKebabCase(s: string): (r: string)
    ensures GetWords(s) == [] ==> r == []
    ensures forall k :: 0 <= k < |r| ==> !IsAsciiUpper(r[k])
  {
    ToLower(Join("-", GetWords(s)))
  }

  /** Index of the first letter of s, -1 when it has none. */
  function FirstLetterIndex(s: string): (r: int)
    ensures -1 <= r < |s|
    ensures 0 <= r ==> IsAsciiLetter(s[r])
    ensures forall k :: 0 <= k < |s| && (r < 0 || k < r) ==> !IsAsciiLetter(s[k])
  {
    if s == [] then -1
    else if IsAsciiLetter(s[0]) then 0
    else
      var r := FirstLetterIndex(s[1..]);
      if r < 0 then -1 else r + 1
  }

  /** ToSentenceCase as a value: the lower-cased text with its first letter upper-cased. */
  function SentenceCased(s: string): string
  {
    var lower := ToLower(s);
    var i := FirstLetterIndex(lower);
    if i < 0 then lower else lower[i := ToUpperChar(lower[i])]
  }

  /** Lower-casing keeps every letter where it was. */
  lemma FirstLetterOfLower(s: string)
    ensures FirstLetterIndex(ToLower(s)) == FirstLetterIndex(s)
  {
  }

  /** Sentence case keeps the length, upper-cases the first letter and
      lower-cases everything else. */
  lemma SentenceCasedProperties(text: string)
    ensures |SentenceCased(text)| == |text|
    ensures FirstLetterIndex(text) < 0 ==> SentenceCased(text) == ToLower(text)
    ensures 0 <= FirstLetterIndex(text) ==>
      var i := FirstLetterIndex(text);
      && SentenceCased(text)[i] == ToUpperChar(text[i])
      && forall k :: 0 <= k < |text| && k != i ==> SentenceCased(text)[k] == ToLowerChar(text[k])
  {
    FirstLetterOfLower(text);
    var i := FirstLetterIndex(text);
    if 0 <= i {
      assert ToUpperChar(ToLowerChar(text[i])) == ToUpperChar(text[i]) by {
        CaseRoundTrip(text[i]);
      }
    }
  }

  /** ToSentenceCase: the text is copied lower-cased into a buffer, whose first
      letter is then upper-cased in place. */
  method ToSentenceCase(text: string) returns (r: string)
    ensures |r| == |text|
    ensures FirstLetterIndex(text) < 0 ==> r == ToLower(text)
    ensures 0 <= FirstLetterIndex(text) ==>
      var i := FirstLetterIndex(text);
      && r[i] == ToUpperChar(text[i])
      && forall k :: 0 <= k < |text| && k != i ==> r[k] == ToLowerChar(text[k])
    ensures r == SentenceCased(text)
  {
    var lowerCaseText := ToLower(text);
    var sb := new char[|lowerCaseText|](k requires 0 <= k < |lowerCaseText| => lowerCaseText[k]);
    ghost var done := false;
    for i := 0 to sb.Length
      invariant forall k :: 0 <= k < i ==> !IsAsciiLetter(sb[k])
      invariant sb[..] == lowerCaseText
    {
      if IsAsciiLetter(sb[i]) {
        assert FirstLetterIndex(lowerCaseText) == i;
        sb[i] := ToUpperChar(sb[i]);
        assert sb[..] == SentenceCased(text);
        done := true;
        break;
      }
    }
    if !done {
      assert FirstLetterIndex(lowerCaseText) < 0;
    }
    r := sb[..];
    SentenceCasedProperties(text);
  }

  /** What Run computes for each target case. */
  function ChangeCase(target: TextCase, s: string, toTitleCase: TitleCaseFn): (r: string)
    ensures IsNullOrWhiteSpace(s) ==> r == s
    ensures target == UpperCase || target == LowerCase || target == SentenceCase ==> |r| == |s|
    ensures !IsNullOrWhiteSpace(s) && target == UpperCase ==> forall k :: 0 <= k < |r| ==> !IsAsciiLower(r[k])
    ensures !IsNullOrWhiteSpace(s) && (target == LowerCase || target == SnakeCase || target == KebabCase) ==>
      forall k :: 0 <= k < |r| ==> !IsAsciiUpper(r[k])
  {
    if IsNullOrWhiteSpace(s) then s
    else
      match target
      case UpperCase => ToUpper(s)
      case LowerCase => ToLower(s)
      case SentenceCase => SentenceCasedProperties(s); SentenceCased(s)
      case TitleCase => toTitleCase(ToLower(s))
      case CamelCase => ToCamelCase(s)
      case PascalCase => ToPascalCase(s)
      case SnakeCase => ToSnakeCase(s)
      case KebabCase => ToKebabCase(s)
  }

  class TextCaseChanger {
    var targetCase: TextCase

    /** TextCaseChanger.Create(): sentence case until SetCase is called. */
    constructor ()
      ensures targetCase == SentenceCase
    {
      targetCase := SentenceCase;
    }

    method SetCase(targetCase: TextCase)
      modifies this
      ensures this.targetCase == targetCase
    {
      this.targetCase := targetCase;
    }

    method Run(sourceText: string, toTitleCase: TitleCaseFn) returns (r: string)
      ensures r == ChangeCase(targetCase, sourceText, toTitleCase)
      ensures IsNullOrWhiteSpace(sourceText) ==> r == sourceText
    {
      if IsNullOrWhiteSpace(sourceText) {
        return sourceText;
      }
      match targetCase {
        case UpperCase => r := ToUpper(sourceText);
        case LowerCase => r := ToLower(sourceText);
        case SentenceCase => r := ToSentenceCase(sourceText);
        case TitleCase => r := toTitleCase(ToLower(sourceText));
        case CamelCase => r := ToCamelCase(sourceText);
        case PascalCase => r := ToPascalCase(sourceText);
        case SnakeCase => r := ToSnakeCase(sourceText);
        case KebabCase => r := ToKebabCase(sourceText);
      }
    }
  }

  /** Joining separator-free words with '-' gives the '_'-joined text with
      every '_' turned into '-'. */
  lemma {:induction false} JoinSeparatorSwap(words: seq<string>)
    requires forall i :: 0 <= i < |words| ==> IsWord(words[i])
    ensures |Join("-", words)| == |Join("_", words)|
    ensures forall k :: 0 <= k < |Join("_", words)| ==>
      Join("-", words)[k] == if Join("_", words)[k] == '_' then '-' else Join("_", words)[k]
    decreases |words|
  {
    if |words| > 1 {
      JoinSeparatorSwap(words[1..]);
      var w := words[0];
      var dash, under := Join("-", words[1..]), Join("_", words[1..]);
      assert Join("-", words) == w + "-" + dash;
      assert Join("_", words) == w + "_" + under;
      forall k | 0 <= k < |Join("_", words)|
        ensures Join("-", words)[k] == if Join("_", words)[k] == '_' then '-' else Join("_", words)[k]
      {
        if k < |w| {
        } else if k == |w| {
        } else {
          assert Join("-", words)[k] == dash[k - |w| - 1];
          assert Join("_", words)[k] == under[k - |w| - 1];
        }
      }
    }
  }

  /** Snake and kebab case are lower-case and differ only in the separator:
      kebab is snake with every '_' replaced by '-'. */
  lemma SnakeAndKebab(s: string)
    ensures forall k :: 0 <= k < |ToSnakeCase(s)| ==> !IsAsciiUpper(ToSnakeCase(s)[k])
    ensures |ToKebabCase(s)| == |ToSnakeCase(s)|
    ensures forall k :: 0 <= k < |ToSnakeCase(s)| ==>
      ToKebabCase(s)[k] == if ToSnakeCase(s)[k] == '_' then '-' else ToSnakeCase(s)[k]
  {
    JoinSeparatorSwap(GetWords(s));
  }

  /** Camel and Pascal case differ only in the case of the first character, and
      both are "" when there are no words. */
  lemma CamelAndPascal(s: string)
    ensures GetWords(s) == [] ==> ToCamelCase(s) == [] && ToPascalCase(s) == []
    ensures |ToCamelCase(s)| == |ToPascalCase(s)|
    ensures ToCamelCase(s) != [] ==>
      && ToCamelCase(s)[1..] == ToPascalCase(s)[1..]
      && ToPascalCase(s)[0] == ToUpperChar(ToCamelCase(s)[0])
      && ToCamelCase(s)[0] == ToLowerChar(ToPascalCase(s)[0])
  {
    var words := GetWords(s);
    if words != [] {
      var w, rest := words[0], Concat(CapitalizeAll(words[1..]));
      assert ToCamelCase(s) == ToLower(w) + rest;
      assert ToPascalCase(s) == Capitalize(w) + rest;
      FirstCharOnly(ToLower(w), Capitalize(w), rest);
      CaseRoundTrip(w[0]);
    }
  }

  lemma FirstCharOnly(a: string, b: string, rest: string)
    requires |a| == |b| && a != [] && a[1..] == b[1..]
    ensures |a + rest| == |b + rest|
    ensures (a + rest)[1..] == (b + rest)[1..]
    ensures (a + rest)[0] == a[0] && (b + rest)[0] == b[0]
  {
    assert (a + rest)[1..] == a[1..] + rest;
    assert (b + rest)[1..] == b[1..] + rest;
  }

  /** Upper- then lower-casing does not restore the input. */
  lemma UpperThenLowerIsLossy(toTitleCase: TitleCaseFn)
    ensures ChangeCase(LowerCase, ChangeCase(UpperCase, "Ab", toTitleCase), toTitleCase) == "ab"
  {
    assert !IsNullOrWhiteSpace("Ab") by { assert !IsWhiteSpace("Ab"[0]); }
    assert ToUpper("Ab") == "AB";
    assert !IsNullOrWhiteSpace("AB") by { assert !IsWhiteSpace("AB"[0]); }
    assert ToLower("AB") == "ab";
  }
}
