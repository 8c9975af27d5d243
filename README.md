# Filemate renaming core in Dafny

Filemate renames the files and folders under a root folder. Each name is
changed by a chain of text processors and then, optionally, by a sanitizer.
This project models that renaming core of `Filemate.Core` and proves what
it does. It covers:

- the five text processors: literal replace, literal delete, prefix, regex
  replace and case change;
- `TextSanitizer.Sanitize`;
- `Renamer`: the walk over the tree, the name computation and the path
  splitting;
- `RenamerBuilder`, which collects the settings and builds a `Renamer`.

Modules follow the source files:

| module | file | models |
|---|---|---|
| `Strings` | strings.dfy | `string.Replace` (ordinal), `Trim`, ASCII `ToUpper`/`ToLower`, `Concat`, `Join`, `IsNullOrWhiteSpace` |
| `Paths` | paths.dfy | the `Path.GetFileName`, `GetDirectoryName`, `GetExtension`, `GetFileNameWithoutExtension` and `Combine` calls the core makes (separator `/`) |
| `Wrappers`, `Platform` | wrappers.dfy, platform.dfy | `Option`; the regex engine and `ToTitleCase` as parameters |
| `TargetFileDir` | target_file_dir.dfy | the `[Flags]` enum `TargetFileOrFolder` as a 2-bit vector |
| `TextReplacing`, `TextDeleting`, `TextPrefixing`, `RegexReplacing`, `CaseChanging` | text_*.dfy, regex_replacer.dfy | one class per processor. `AddRule`/`SetCase` change a field. `Run` is a loop proved equal to a fold over the rules |
| `TextProcessors` | text_processor.dfy | `ITextProcessorCore`/`ITextProcessor` as a closed datatype over the five classes: the `GetName`/`Create` factory and `Run` dispatch |
| `Sanitizing` | sanitizer.dfy | the four regexes of `_rules`, each written out exactly, then the loop, `Trim` and the blank-name check |
| `Renaming` | renamer.dfy | `Renamer` as a class: `ProcessText`, `DeconstructPath`, and `IterateEntries` over an in-memory tree |
| `RenamerBuilding` | renamer_builder.dfy | `RenamerBuilder` as a class with the source's fields |
| `SanitizerExamples`, `CaseExamples` | *_examples.dfy | worked inputs, the "file---name" and "photo .jpg" ones among them |

The walk is modelled over a tree of `Entry` values. Each `Renamer` has a
log. The walk appends to it, in order:

- a `Reported` event for each OLD/NEW pair printed;
- outside debug mode, a `Moved` or `MoveFailed` event for each move
  attempted.

Whether `File.Move`/`Directory.Move` throws is decided by a parameter
`fails`. `Renamer.Run` is proved to append exactly the events of a plan.
The plan is defined separately as `Plan`. The lemmas describe
the plan:

- which entries are visited;
- which of them are moved;
- where each is moved to;
- that a folder's contents come before the folder itself.

Where the code and its comments disagree, the model follows the code:

- The comment on the second sanitizer rule says "file___name" becomes
  "file_name". The rule replaces every run of two or more `-`/`_` with `-`,
  so the result is "file-name" (`SanitizerExamples.SeparatorRunExample`).
- The flag `isNameHasChanged` in `IterateEntries` is true when the path is
  unchanged. A move happens only when it is false, so an entry is renamed
  exactly when its path changes.
- A sanitizer result of "" is not rejected. The new file name is then the
  extension alone. With no extension either, `Path.Combine` returns the
  directory name on its own, so the entry would be moved onto its own
  folder's path: "/r/写真" becomes "/r" (`Renaming.SanitizedPathKeepsDirectory`;
  `Renaming.EmptyNameExample` shows the same for a regex replacer without
  rules).
- `Path.GetDirectoryName` collapses repeated separators, so "/r//a" is
  renamed to "/r/a" even when no processor changes anything
  (`Renaming.RepeatedSeparatorExample`).
- `Path.GetExtension` returns "" for a name ending in `.`, but
  `GetFileNameWithoutExtension` drops that dot. So "d/a." is renamed to
  "d/a" even when no processor changes anything (`Renaming.UnprocessedPath`).
- `Sanitize` is not idempotent (`SanitizerExamples.NotIdempotent`).
- The comment in `RegexReplacer.Run` says there is nothing to do when there
  are no rules. The code returns `string.Empty` in that case, so a regex
  replacer with no rules erases the name (`RegexReplacing.RegexReplacer.Run`,
  `Renaming.EmptyNameExample`).

## Model

| member | source | states |
|---|---|---|
| Strings.IsWhiteSpace | Filemate.Core/Renamer/TextProcessors/TextCaseChanger.cs:102 | char.IsWhiteSpace, which is also the set the regex class `\s` matches: the space, U+0009..U+000D, U+0085, U+00A0 and the Unicode space, line and paragraph separators |
| Strings.IsNullOrWhiteSpace | Filemate.Core/Renamer/TextProcessors/TextSanitizer.cs:37 | string.IsNullOrWhiteSpace on a non-null string: empty or every character white space (also used at TextSanitizer.cs:53 and TextCaseChanger.cs:45, 103) |
| Strings.Concat | Filemate.Core/Renamer/TextProcessors/TextCaseChanger.cs:133 | string.Concat: the strings one after another, "" for none |
| Strings.Join | Filemate.Core/Renamer/TextProcessors/TextCaseChanger.cs:148 | string.Join: "" for no strings; otherwise the strings in order with the separator between neighbours, starting with the first string (also at TextCaseChanger.cs:154) |
| Strings.JoinWithoutSeparator | Filemate.Core/Renamer/TextProcessors/TextCaseChanger.cs:142 | joining with the empty separator is concatenation |
| Strings.ReplaceAll | Filemate.Core/Renamer/TextProcessors/TextReplacer.cs:26 | replacing a pattern by itself leaves the text unchanged |
| Strings.ReplaceAllLength | Filemate.Core/Renamer/TextProcessors/TextReplacer.cs:26 | Replace-all changes the length by the number of matches times (replacement length − pattern length) |
| Strings.OccurrencesZeroIffAbsent | Filemate.Core/Renamer/TextProcessors/TextReplacer.cs:26 | replace-all finds no match exactly when the pattern does not occur |
| Strings.ReplaceAbsent | Filemate.Core/Renamer/TextProcessors/TextReplacer.cs:26 | a pattern that does not occur leaves the text unchanged |
| Strings.ReplaceZeroOccurrences | Filemate.Core/Renamer/TextProcessors/TextReplacer.cs:26 | with zero matches the text is unchanged |
| Strings.DeleteCharRemovesAll | Filemate.Core/Renamer/RenamerBuilder.cs:53 | deleting a one-character pattern leaves none of that character |
| Strings.DeleteAbsentChar | Filemate.Core/Renamer/RenamerBuilder.cs:53 | deleting a character that does not occur is the identity |
| Strings.ReplaceShrinksWithEmpty | Filemate.Core/Renamer/TextProcessors/TextDeleter.cs:27 | replacing with "" never lengthens the text |
| Strings.Trim | Filemate.Core/Renamer/TextProcessors/TextSanitizer.cs:50 | the result is "" exactly for blank input; otherwise it is a slice of the input with no white space at either end |
| Strings.ToUpper | Filemate.Core/Renamer/TextProcessors/TextCaseChanger.cs:52-53 | upper-casing keeps the length and maps each character on its own |
| Strings.ToLower | Filemate.Core/Renamer/TextProcessors/TextCaseChanger.cs:55-56 | lower-casing keeps the length and maps each character on its own |
| Strings.CaseRoundTrip | Filemate.Core/Renamer/TextProcessors/TextCaseChanger.cs:52-56 | lower-casing after upper-casing equals lower-casing, and the other way round |
| Paths.LastIndexOf | Filemate.Core/Renamer/Renamer.cs:141-143 | the index is the last occurrence of the character, or −1 when there is none |
| Paths.LastIndexOfUnique | Filemate.Core/Renamer/Renamer.cs:141-143 | those properties determine the index |
| Paths.FileName | Filemate.Core/Renamer/Renamer.cs:142 | the file name is a separator-free suffix of the path |
| Paths.DirectoryPart | Filemate.Core/Renamer/Renamer.cs:141-142 | the text in front of the file name is empty or ends in the separator, and followed by the file name it gives the path back |
| Paths.Extension | Filemate.Core/Renamer/Renamer.cs:143 | the extension is "" or a suffix of the path holding one `.`, at its start, and no separator |
| Paths.FileNameWithoutExtension | Filemate.Core/Renamer/Renamer.cs:142 | the name without extension holds no separator |
| Paths.Recombine | Filemate.Core/Renamer/Renamer.cs:138-149 | directory + name + extension gives the path back exactly when the name does not end in `.` |
| Paths.RecombineNoDot | Filemate.Core/Renamer/Renamer.cs:138-149 | a file name without `.` splits into directory, name and an empty extension that join back to the path |
| Paths.RecombineFinalDot | Filemate.Core/Renamer/Renamer.cs:138-149 | a file name ending in `.` loses that dot: the three parts join to a path one character shorter |
| Paths.RecombineInnerDot | Filemate.Core/Renamer/Renamer.cs:138-149 | a file name with a `.` before its last character splits into name and extension that join back to the path |
| Paths.ExtensionOfRenamed | Filemate.Core/Renamer/Renamer.cs:133-135 | any name followed by an extension has that extension |
| Paths.SplitJoined | Filemate.Core/Renamer/Renamer.cs:133-135 | a directory joined to a separator-free name splits back into that directory and that name |
| Paths.JoinedPath | Filemate.Core/Renamer/Renamer.cs:133-135 | directory + stem + extension has that directory, that file name and, when it is non-empty, that extension |
| Paths.CollapseSeparators | Filemate.Core/Renamer/Renamer.cs:141 | the result keeps the first character, is no longer than the input, has no two separators side by side, and is the input itself when that had none |
| Paths.TrimSeparatorsEnd | Filemate.Core/Renamer/Renamer.cs:141 | the end moves back over separators only, never into the root, and stops after a non-separator or at the root |
| Paths.DirectoryName | Filemate.Core/Renamer/Renamer.cs:141 | GetDirectoryName is null exactly for "" and "/"; otherwise it is shorter than the path and has no repeated separator |
| Paths.DirectoryNameOfSimplePath | Filemate.Core/Renamer/Renamer.cs:141 | on a path without repeated separators, the directory name is the text in front of the file name less its final separator, unless that separator is the root |
| Paths.Combine | Filemate.Core/Renamer/Renamer.cs:135 | an empty second part gives the first unchanged; otherwise the result ends with the second part, and starts with the first unless the second is rooted |
| Paths.CombineWithDirectory | Filemate.Core/Renamer/Renamer.cs:135 | combining a path's directory name with a name gives the directory name alone for "", the name alone when it is rooted, and otherwise the text in front of the old file name followed by the name |
| Paths.CombineAfterDirectoryPart | Filemate.Core/Renamer/Renamer.cs:135 | the same, with the directory name written as the text in front of the file name |
| Paths.JoinPath | Filemate.Core/Renamer/Renamer.cs:49 | the path of a folder's entry ends with the entry's name |
| Paths.ChildHasDirectory | Filemate.Core/Renamer/Renamer.cs:49-60 | an entry listed in a folder always has a directory name, so DeconstructPath never throws on it |
| TargetFileDir.HasFlag | Filemate.Core/Renamer/Renamer.cs:71 | Enum.HasFlag: every bit of the flag is set in the value (also at Renamer.cs:93) |
| TargetFileDir.AddFlag | Filemate.Core/Renamer/RenamerBuilder.cs:62 | `\|=` sets the flag and keeps every flag already set |
| TargetFileDir.FlagsOfNamedValues | Filemate.Core/Common/TargetFileDir.cs:3-10 | the four named values are the only ones; Both is the one value with both flags; None has neither |
| TargetFileDir.SetBothFlags | Filemate.Core/Renamer/RenamerBuilder.cs:60-70 | setting a flag twice is setting it once, the two setters commute, and both together give Both |
| TextReplacing.TextReplacer.constructor | Filemate.Core/Renamer/TextProcessors/TextReplacer.cs:31-34 | a new replacer has no rules |
| TextReplacing.TextReplacer.AddRule | Filemate.Core/Renamer/TextProcessors/TextReplacer.cs:15-19 | an empty pattern leaves the rules unchanged; any other rule is appended at the end |
| TextReplacing.TextReplacer.Run | Filemate.Core/Renamer/TextProcessors/TextReplacer.cs:21-29 | the result is the left fold of replace-all over the rules in insertion order; with no rules it is the input |
| TextReplacing.ReplacedFirstRuleFirst | Filemate.Core/Renamer/TextProcessors/TextReplacer.cs:25-26 | the first rule is applied first, and the rest act on its output |
| TextReplacing.SkipAbsentRule | Filemate.Core/Renamer/TextProcessors/TextReplacer.cs:26 | a rule whose pattern does not occur in the text so far changes nothing |
| TextReplacing.ReplacedAfterAddRule | Filemate.Core/Renamer/TextProcessors/TextReplacer.cs:15-29 | after AddRule, Run is the old Run followed by one more replace-all |
| TextDeleting.TextDeleter.constructor | Filemate.Core/Renamer/TextProcessors/TextDeleter.cs:32 | a new deleter has no rules |
| TextDeleting.TextDeleter.AddRule | Filemate.Core/Renamer/TextProcessors/TextDeleter.cs:16-20 | an empty text is ignored; any other is appended |
| TextDeleting.TextDeleter.Run | Filemate.Core/Renamer/TextProcessors/TextDeleter.cs:22-30 | the result is the rules' texts deleted in order; it is never longer than the input; with no rules it is the input |
| TextDeleting.DeletedNeverLonger | Filemate.Core/Renamer/TextProcessors/TextDeleter.cs:26-27 | deleting never lengthens the text |
| TextDeleting.DeletedAbsent | Filemate.Core/Renamer/TextProcessors/TextDeleter.cs:27 | when no rule text occurs in the input, the output is the input |
| TextDeleting.DeleterIsReplacer | Filemate.Core/Renamer/TextProcessors/TextDeleter.cs:26-27 | a deleter with rules [a, b, …] computes what a replacer with [(a, ""), (b, ""), …] does |
| TextPrefixing.TextPrefixer.constructor | Filemate.Core/Renamer/TextProcessors/TextPrefixer.cs:32 | a new prefixer has no rules |
| TextPrefixing.TextPrefixer.AddRule | Filemate.Core/Renamer/TextProcessors/TextPrefixer.cs:16-20 | an empty text is ignored; any other is appended |
| TextPrefixing.TextPrefixer.Run | Filemate.Core/Renamer/TextProcessors/TextPrefixer.cs:22-30 | the result is the rules, reversed and concatenated, followed by the input |
| TextPrefixing.PrefixedIsReversedConcat | Filemate.Core/Renamer/TextProcessors/TextPrefixer.cs:26-27 | the last prefix added ends up leftmost, and the first one sits next to the input |
| TextPrefixing.PrefixedLength | Filemate.Core/Renamer/TextProcessors/TextPrefixer.cs:27 | the input is a suffix of the output, which is longer by the total length of the rules |
| TextPrefixing.PrefixedTwiceDiffers | Filemate.Core/Renamer/TextProcessors/TextPrefixer.cs:22-30 | with no rules Run is the identity; with any rule, running it twice differs from running it once |
| RegexReplacing.RegexReplacer.constructor | Filemate.Core/Renamer/TextProcessors/RegexReplacer.cs:48-51 | a new regex replacer has no rules |
| RegexReplacing.RegexReplacer.AddRule | Filemate.Core/Renamer/TextProcessors/RegexReplacer.cs:17-21 | an empty pattern is ignored; any other rule is appended, unvalidated |
| RegexReplacing.RegexReplacer.Run | Filemate.Core/Renamer/TextProcessors/RegexReplacer.cs:28-46 | with no rules the result is "" for any input; otherwise it is every Regex.Replace in insertion order |
| RegexReplacing.FirstRuleFirst | Filemate.Core/Renamer/TextProcessors/RegexReplacer.cs:40-43 | the first rule added is applied first |
| RegexReplacing.RegexReplacedAfterAddRule | Filemate.Core/Renamer/TextProcessors/RegexReplacer.cs:17-46 | once there is a rule, adding another composes one more Regex.Replace after the old behaviour; before that Run ignores its input |
| CaseChanging.WordLength | Filemate.Core/Renamer/TextProcessors/TextCaseChanger.cs:102 | a word is non-empty and ends at a separator, at a lower-to-upper step or at the end of the text |
| CaseChanging.GetWords | Filemate.Core/Renamer/TextProcessors/TextCaseChanger.cs:99-105 | every word is non-empty, contains no white space, `_` or `-`, and has no lower-to-upper step inside |
| CaseChanging.WordLengthOf | Filemate.Core/Renamer/TextProcessors/TextCaseChanger.cs:102 | a word followed by a separator, a lower-to-upper step or the end is taken whole |
| CaseChanging.GetWordsCons | Filemate.Core/Renamer/TextProcessors/TextCaseChanger.cs:99-105 | such a word is the first of the words, and the rest are the words of what follows |
| CaseChanging.GetWordsSkip | Filemate.Core/Renamer/TextProcessors/TextCaseChanger.cs:102-103 | a leading separator yields no word |
| CaseChanging.GetWordsKeepsEveryOtherChar | Filemate.Core/Renamer/TextProcessors/TextCaseChanger.cs:99-105 | the words, concatenated, are the input without its separators |
| CaseChanging.Capitalize | Filemate.Core/Renamer/TextProcessors/TextCaseChanger.cs:131 | the first character is upper-cased and the rest lower-cased |
| CaseChanging.FirstLetterIndex | Filemate.Core/Renamer/TextProcessors/TextCaseChanger.cs:113-119 | the index is the first letter, or −1 when there is no letter |
| CaseChanging.ToSentenceCase | Filemate.Core/Renamer/TextProcessors/TextCaseChanger.cs:107-122 | the whole text is lower-cased except its first letter, which is upper-cased; with no letter it is just lower-cased |
| CaseChanging.SentenceCasedProperties | Filemate.Core/Renamer/TextProcessors/TextCaseChanger.cs:107-122 | sentence case keeps the length, upper-cases the first letter of the text and lower-cases every other character |
| CaseChanging.TextCaseChanger.constructor | Filemate.Core/Renamer/TextProcessors/TextCaseChanger.cs:31 | the default case is sentence case |
| CaseChanging.TextCaseChanger.SetCase | Filemate.Core/Renamer/TextProcessors/TextCaseChanger.cs:37-40 | only the target case changes |
| CaseChanging.TextCaseChanger.Run | Filemate.Core/Renamer/TextProcessors/TextCaseChanger.cs:43-81 | the result is the chosen case's conversion; an empty or white-space input is returned as it is |
| CaseChanging.ToCamelCase | Filemate.Core/Renamer/TextProcessors/TextCaseChanger.cs:124-134 | "" exactly when there are no words; otherwise it starts with the first word lower-cased, and its first character is not upper-case |
| CaseChanging.ToPascalCase | Filemate.Core/Renamer/TextProcessors/TextCaseChanger.cs:136-143 | "" exactly when there are no words; otherwise it starts with the first word capitalised, and its first character is not lower-case |
| CaseChanging.ToSnakeCase | Filemate.Core/Renamer/TextProcessors/TextCaseChanger.cs:145-149 | no upper-case letter anywhere; "" without words |
| CaseChanging.ToKebabCase | Filemate.Core/Renamer/TextProcessors/TextCaseChanger.cs:151-155 | no upper-case letter anywhere; "" without words |
| CaseChanging.ChangeCase | Filemate.Core/Renamer/TextProcessors/TextCaseChanger.cs:43-81 | a blank input is returned as it is; upper, lower and sentence case keep the length; upper case leaves no lower-case letter, and lower, snake and kebab case leave no upper-case letter |
| CaseChanging.SnakeAndKebab | Filemate.Core/Renamer/TextProcessors/TextCaseChanger.cs:145-155 | snake case has no upper-case letter, and kebab case is snake case with every `_` turned into `-` |
| CaseChanging.CamelAndPascal | Filemate.Core/Renamer/TextProcessors/TextCaseChanger.cs:124-143 | with no words both are ""; otherwise they have the same length and differ only in the case of the first character |
| CaseChanging.JoinSeparatorSwap | Filemate.Core/Renamer/TextProcessors/TextCaseChanger.cs:148-154 | separator-free words joined by `-` are those joined by `_` with each `_` replaced |
| CaseChanging.UpperThenLowerIsLossy | Filemate.Core/Renamer/TextProcessors/TextCaseChanger.cs:52-56 | lower-casing after upper-casing does not restore "Ab" |
| CaseExamples.SnakeCaseExamples | Filemate.Core/Renamer/TextProcessors/TextCaseChanger.cs:145-149 | "HelloWorldExample" and "Hello World-Example" both give "hello_world_example" |
| CaseExamples.CamelOfSeparatorsOnly | Filemate.Core/Renamer/TextProcessors/TextCaseChanger.cs:124-127 | "___" has no words, so camel case gives "" |
| TextProcessors.Name | Filemate.Core/Renamer/TextProcessors/TextReplacer.cs:5 | the GetName() key of each of the five kinds, as in each processor's `_name` |
| TextProcessors.NamesIdentifyKinds | Filemate.Core/Renamer/TextProcessors/ITextProcessor.cs:17 | no two processor kinds share a GetName(), so a name identifies its kind |
| TextProcessors.Run | Filemate.Core/Renamer/TextProcessors/ITextProcessor.cs:6-9 | Run dispatches to the processor's own Run and returns what its current configuration computes |
| TextProcessors.Create | Filemate.Core/Renamer/TextProcessors/ITextProcessor.cs:15-19 | Create gives a fresh, valid processor of the requested kind, with no rules or with sentence case |
| TextProcessors.InitialBehaviour | Filemate.Core/Renamer/TextProcessors/RegexReplacer.cs:31-34 | a fresh regex replacer outputs "" for everything; a fresh case changer gives sentence case; the other three are the identity |
| TextProcessors.ChainFirst | Filemate.Core/Renamer/Renamer.cs:123-128 | the first processor in the list sees the name first, and the rest work on its output |
| Sanitizing.CollapseRuns | Filemate.Core/Renamer/TextProcessors/TextSanitizer.cs:12-24 | with a replacement no longer than the minimum run, collapsing never lengthens the text |
| Sanitizing.RemoveSpaceBeforeExtension | Filemate.Core/Renamer/TextProcessors/TextSanitizer.cs:20 | the text is unchanged, or exactly one space at a match of the pattern is removed |
| Sanitizing.Sanitized | Filemate.Core/Renamer/TextProcessors/TextSanitizer.cs:35-62 | blank input gives ""; otherwise the result is "" or the trimmed output of the four rules, and a non-empty result has a non-blank name in front of its extension |
| Sanitizing.Checked | Filemate.Core/Renamer/TextProcessors/TextSanitizer.cs:53-61 | the check returns "" or its input unchanged, and a non-empty result has a non-blank name in front of its extension |
| Sanitizing.RunLength | Filemate.Core/Renamer/TextProcessors/TextSanitizer.cs:12 | the length of the maximal run of class characters at the start |
| Sanitizing.Sanitize | Filemate.Core/Renamer/TextProcessors/TextSanitizer.cs:35-62 | blank input gives "". The output uses only `[a-zA-Z0-9_. -]`, never holds two adjacent spaces or two adjacent `-`/`_`, has no space at either end, and is never a bare extension |
| Sanitizing.SanitizedProperties | Filemate.Core/Renamer/TextProcessors/TextSanitizer.cs:37-61 | the same guarantees, for every input |
| Sanitizing.CheckedProperties | Filemate.Core/Renamer/TextProcessors/TextSanitizer.cs:53-61 | the final check either returns "" or the trimmed text unchanged, and what it returns is never a bare extension |
| Sanitizing.Stages | Filemate.Core/Renamer/TextProcessors/TextSanitizer.cs:44-47 | the loop over the table applies rules 1 to 4 in table order |
| Sanitizing.CollapseRunsSafe | Filemate.Core/Renamer/TextProcessors/TextSanitizer.cs:12 | after rule 1 only safe characters are left |
| Sanitizing.CollapseRunsNoAdjacent | Filemate.Core/Renamer/TextProcessors/TextSanitizer.cs:16 | after a collapsing rule, no two class characters are adjacent |
| Sanitizing.SpaceCollapseKeepsSeparators | Filemate.Core/Renamer/TextProcessors/TextSanitizer.cs:24 | collapsing spaces creates no adjacent `-`/`_` pair |
| Sanitizing.RemoveSpaceKeeps | Filemate.Core/Renamer/TextProcessors/TextSanitizer.cs:20 | rule 3 keeps safety and the absence of adjacent pairs |
| Sanitizing.SpaceDotMatch | Filemate.Core/Renamer/TextProcessors/TextSanitizer.cs:20 | a match of rule 3 sits just before the last `.`, and that one space is removed |
| Sanitizing.NoSpaceDotMatch | Filemate.Core/Renamer/TextProcessors/TextSanitizer.cs:20 | without a match, rule 3 changes nothing |
| Sanitizing.TrimKeeps | Filemate.Core/Renamer/TextProcessors/TextSanitizer.cs:50 | trimming keeps safety and the absence of adjacent pairs |
| Sanitizing.BlankStemIsBareExtension | Filemate.Core/Renamer/TextProcessors/TextSanitizer.cs:53 | for trimmed safe text, a blank name part means the text is a bare extension |
| Sanitizing.PipelineProperties | Filemate.Core/Renamer/TextProcessors/TextSanitizer.cs:12-24 | after the four rules: only safe characters, no adjacent spaces, no adjacent `-`/`_` |
| Sanitizing.SafeHasNoSeparator | Filemate.Core/Renamer/TextProcessors/TextSanitizer.cs:12 | safe characters include no directory separator |
| SanitizerExamples.SeparatorRunExample | Filemate.Core/Renamer/TextProcessors/TextSanitizer.cs:15-16 | "file---name" and "file___name" both give "file-name" |
| SanitizerExamples.SpaceBeforeExtensionExample | Filemate.Core/Renamer/TextProcessors/TextSanitizer.cs:18-20 | "photo .jpg" gives "photo.jpg" |
| SanitizerExamples.PhotoSanitized | Filemate.Core/Renamer/TextProcessors/TextSanitizer.cs:18-24 | "photo .jpg" gives "photo.jpg" and "photo  .jpg" gives "photo .jpg" |
| SanitizerExamples.NotIdempotent | Filemate.Core/Renamer/TextProcessors/TextSanitizer.cs:20-24 | "photo  .jpg" gives "photo .jpg", and a second pass gives "photo.jpg" |
| SanitizerExamples.BareExtensionExample | Filemate.Core/Renamer/TextProcessors/TextSanitizer.cs:53-58 | a name that is only an extension is rejected with "" |
| Renaming.EventsAppend | Filemate.Core/Renamer/Renamer.cs:49-112 | the events of two move lists, one after the other, are the events of the joined list |
| Renaming.DebugOnlyReports | Filemate.Core/Renamer/Renamer.cs:73-77 | in debug mode every pair is reported and nothing is moved |
| Renaming.EachReportThenMove | Filemate.Core/Renamer/Renamer.cs:77-88 | outside debug mode each report is followed by its move, which succeeds or fails on its own, and the walk goes on |
| Renaming.WellFormed | Filemate.Core/Renamer/Renamer.cs:49 | the entries of a folder are that folder joined with their own non-empty names, at every level |
| Renaming.DeconstructPath | Filemate.Core/Renamer/Renamer.cs:138-149 | fails (the FileNotFoundException) exactly for "" and "/"; the name part holds no separator; on a path without repeated separators, Path.Combine of the three parts gives the path back exactly when its file name is non-empty and does not end in `.` |
| Renaming.CombineParts | Filemate.Core/Renamer/Renamer.cs:138-149 | the round trip of DeconstructPath through Path.Combine, both directions |
| Renaming.ProcessedName | Filemate.Core/Renamer/Renamer.cs:123-131 | the processors in list order, then Sanitize when switched on; a sanitised non-empty name is never a bare extension |
| Renaming.ProcessedPath | Filemate.Core/Renamer/Renamer.cs:115-136 | the new path always ends with the old extension |
| Renaming.UnprocessedPath | Filemate.Core/Renamer/Renamer.cs:115-136 | with no processors and no sanitizing, a path without repeated separators is kept exactly when its file name is non-empty and does not end in `.` |
| Renaming.ProcessedPathParts | Filemate.Core/Renamer/Renamer.cs:133-135 | the new path is the old directory name alone when the new name and extension are both empty, the new name alone when it starts with the separator, and otherwise the text in front of the old file name followed by the new name and the old extension |
| Renaming.SanitizedPathKeepsDirectory | Filemate.Core/Renamer/Renamer.cs:115-136 | with sanitizing on, the directory stays, the file name is the sanitized stem + extension, a non-empty extension stays, an empty stem leaves the extension alone as the name, and with no extension either the new path is the directory name |
| Renaming.NameInPlace | Filemate.Core/Renamer/Renamer.cs:133-135 | a separator-free name is put back between the path's directory and extension; when name and extension are both empty, the result is the directory name |
| Renaming.EmptyNameExample | Filemate.Core/Renamer/Renamer.cs:133-135 | a regex replacer without rules renames "/r/abc" to "/r" |
| Renaming.RepeatedSeparatorExample | Filemate.Core/Renamer/Renamer.cs:141 | with nothing to apply, "/r//a" becomes "/r/a" |
| Renaming.FirstProcessorFirst | Filemate.Core/Renamer/Renamer.cs:123-131 | the first processor sees the name first; the other processors, and then the sanitizer when it is on, work on its output |
| Renaming.Renamer.constructor | Filemate.Core/Renamer/Renamer.cs:22-39 | every setting is stored as given, and the log starts empty |
| Renaming.Renamer.ProcessText | Filemate.Core/Renamer/Renamer.cs:115-136 | the loop threads the name through the processors, then sanitizes when the flag is set, then puts the directory and extension back |
| Renaming.Renamer.Record | Filemate.Core/Renamer/Renamer.cs:71-89 | the pair is reported, then moved unless in debug mode, and a failed move is recorded |
| Renaming.Renamer.IterateEntries | Filemate.Core/Renamer/Renamer.cs:46-113 | the log grows by exactly the events of the plan for the entries, in order |
| Renaming.Renamer.Targets | Filemate.Core/Renamer/Renamer.cs:71 | a folder is renamed only when the Folder flag is set, a file only when the File flag is (the gate at Renamer.cs:93) |
| Renaming.Renamer.Ignored | Filemate.Core/Renamer/Renamer.cs:55 | an entry is skipped when its extension is on the ignore list, compared exactly |
| Renaming.Renamer.MoveIfRenamed | Filemate.Core/Renamer/Renamer.cs:63-110 | the entry's own move is reported and made exactly when its kind is targeted and its path changes |
| Renaming.Renamer.IterateEntry | Filemate.Core/Renamer/Renamer.cs:51-111 | one entry: nothing if ignored; otherwise its contents first when recursive, then its own move when its kind is targeted and its path changes |
| Renaming.Renamer.Run | Filemate.Core/Renamer/Renamer.cs:41-44 | for the entries listed under the root path, the log grows by the events of the plan, with the renaming ProcessText computes |
| Renaming.Renamer.PlanFollowsVisits | Filemate.Core/Renamer/Renamer.cs:55-111 | the plan is the visited entries, in visiting order, filtered to the targeted kinds whose path changes |
| Renaming.Renamer.EntryPlanFollowsVisits | Filemate.Core/Renamer/Renamer.cs:55-111 | the same, for the plan of one entry |
| Renaming.Renamer.EligibleMembers | Filemate.Core/Renamer/Renamer.cs:63-93 | a move is in the filtered list exactly when its entry is listed, its kind is targeted, and its new path is the processed one and differs |
| Renaming.Renamer.PlanMembers | Filemate.Core/Renamer/Renamer.cs:55-111 | a move is made exactly for a visited entry of a targeted kind whose processed path differs, and it goes to that path |
| Renaming.Renamer.VisitsNotIgnored | Filemate.Core/Renamer/Renamer.cs:55-58 | no visited entry has an extension on the ignore list |
| Renaming.Renamer.EntryVisitsNotIgnored | Filemate.Core/Renamer/Renamer.cs:55-58 | the same, for one entry and its contents |
| Renaming.Renamer.TopLevelOnly | Filemate.Core/Renamer/Renamer.cs:66-69 | without recursion, the visited entries are exactly the listed entries that are not ignored |
| Renaming.Renamer.SubtreeBeforeFolder | Filemate.Core/Renamer/Renamer.cs:66-81 | a renamed folder in recursive mode is moved last, after every move inside it |
| RenamerBuilding.Undotted | Filemate.Core/Renamer/RenamerBuilder.cs:53 | the result holds no `.` |
| RenamerBuilding.ReplaceDotsIsUndotted | Filemate.Core/Renamer/RenamerBuilder.cs:53 | `Replace(".", "")` removes exactly the dots and keeps the other characters in order |
| RenamerBuilding.NormalizeExtension | Filemate.Core/Renamer/RenamerBuilder.cs:53-54 | the result is "." followed by the input without dots, so its only `.` is the first character |
| RenamerBuilding.NormalizeExtensionIdempotent | Filemate.Core/Renamer/RenamerBuilder.cs:53-54 | normalising twice is normalising once |
| RenamerBuilding.UndottedOfUndotted | Filemate.Core/Renamer/RenamerBuilder.cs:53 | removing dots twice is removing them once |
| RenamerBuilding.NormalizeTxt | Filemate.Core/Renamer/RenamerBuilder.cs:51-58 | "txt" and ".txt" both give ".txt" |
| RenamerBuilding.RenamerBuilder.Values | Filemate.Core/Renamer/RenamerBuilder.cs:103 | the processors in the order their names were first configured |
| RenamerBuilding.RenamerBuilder.OnePerKind | Filemate.Core/Renamer/RenamerBuilder.cs:30-40 | the builder holds at most one processor of each kind |
| RenamerBuilding.RenamerBuilder.constructor | Filemate.Core/Renamer/RenamerBuilder.cs:11-18 | no root path, target None, not recursive, nothing ignored, both switches off, no processors |
| RenamerBuilding.RenamerBuilder.SetRootPath | Filemate.Core/Renamer/RenamerBuilder.cs:20-24 | only the root path changes |
| RenamerBuilding.RenamerBuilder.ConfigureProcessor | Filemate.Core/Renamer/RenamerBuilder.cs:27-43 | get-or-create. A name already present returns its processor and changes nothing; otherwise a fresh processor is filed under the name and added at the end of the order |
| RenamerBuilding.RenamerBuilder.SetRecursive | Filemate.Core/Renamer/RenamerBuilder.cs:45-49 | only the recursive setting changes, and it is overwritten |
| RenamerBuilding.RenamerBuilder.SetExtensionToIgnore | Filemate.Core/Renamer/RenamerBuilder.cs:51-58 | the normalised extension is appended, duplicates included, and nothing else changes |
| RenamerBuilding.RenamerBuilder.SetDoRenameFiles | Filemate.Core/Renamer/RenamerBuilder.cs:60-64 | only the target changes: the File flag is OR-ed in |
| RenamerBuilding.RenamerBuilder.SetDoRenameFolders | Filemate.Core/Renamer/RenamerBuilder.cs:66-70 | only the target changes: the Folder flag is OR-ed in |
| RenamerBuilding.RenamerBuilder.SetSanitizeFileNames | Filemate.Core/Renamer/RenamerBuilder.cs:72-76 | only the sanitize switch changes, to on |
| RenamerBuilding.RenamerBuilder.SetDebugMode | Filemate.Core/Renamer/RenamerBuilder.cs:78-82 | only the debug switch changes, to on |
| RenamerBuilding.RenamerBuilder.Build | Filemate.Core/Renamer/RenamerBuilder.cs:84-114 | null exactly when the root path is unset or the target is None. Otherwise a new renamer with every setting passed through, the processors in insertion order, and an empty log |

## Left out

- The real file system and the console. `Directory.EnumerateFileSystemEntries`
  and `File.GetAttributes` are replaced by an in-memory tree. `File.Move`,
  `Directory.Move` and `Console.WriteLine` are replaced by the log, and
  whether a move throws is the `fails` parameter. Exception text and the
  keys Build prints are not modelled.
- Renaming while the enumeration is still in progress. Each entry's path is
  the one it had when the walk started. Name collisions, and what the file
  system then does, are left out.
- Renaming.Renamer.Run: the renamer holds the processors' configuration,
  copied when Build runs. The source holds references to the processor
  objects. A processor configured after Build would change the source's
  renamer but not this one.
- RenamerBuilding.RenamerBuilder.Build: the source hands the builder's own
  `_extensionsToIgnore` list to the renamer, so a later
  `SetExtensionToIgnore` on the builder also changes what the built renamer
  ignores. The model copies the list as a value.
- Renaming.Renamer.IterateEntries: the walk carries the renaming as a ghost
  parameter, which is equal to ProcessText's result. The loop body is a
  separate method, IterateEntry.
- `System.IO.Path` beyond Unix. `GetDirectoryName` and `Combine` are
  modelled as they behave with `/` as the only separator, including the
  collapse of repeated separators; Windows roots, drive letters and the `\` separator
  are left out. The lemmas about the new path assume a path without
  repeated separators; `Renaming.RepeatedSeparatorExample` shows what
  happens otherwise. `DeconstructPath`'s FileNotFoundException is its
  `None` result; the walk never reaches it, because every listed entry has
  a non-empty name (`Renaming.WellFormed`).
- Renaming.Renamer.ProcessText: requires a path that has a directory
  name. That is the path the source's `DeconstructPath` does not throw on,
  and the walk only passes such paths.
- Uncaught exceptions. Only the moves are inside a try/catch. An invalid
  pattern in `Regex.Replace` (`AddRule` does not validate it), or a failure
  of `Directory.EnumerateFileSystemEntries` or `File.GetAttributes`, ends
  `Run` there, after the moves already made. The model has no such
  failures: the regex engine is a total function and the tree is given.
- The regex engine behind `RegexReplacer`, which is the `regexReplace`
  parameter. `TextInfo.ToTitleCase` is the `toTitleCase` parameter. Patterns
  are not validated, as in the source.
- Culture-dependent casing and `char.IsLetter` beyond ASCII: letters are
  `a-z`/`A-Z` only.
- Unicode normalisation and UTF-16 surrogate pairs: a `char` is one unit.
- Null strings. The core never passes null, so `RegexReplacer`'s null check
  is not modelled.
- Build's third check. It repeats the first, so it can never fire.
- The fluent `return this` of the builder's setters. ConfigureProcessor
  returns the processor instead of calling a `configure` callback; the
  callback's work is whatever the caller then does with that processor.
- The UI layer and the console test program.
