/**
 * Renamer: walks a folder and renames the files and folders in it whose name
 * the processors (and, when switched on, the sanitizer) change.
 *
 * The file system is an in-memory tree handed to Run; what the real program
 * prints and does is kept, in order, in the Renamer's log: a Reported event
 * for each OLD/NEW pair printed, then (outside debug mode) Moved or
 * MoveFailed for the File.Move / Directory.Move attempted. Whether a move
 * fails is the file system's business, so it is a parameter.
 */
module Renaming {
  import opened Wrappers
  import opened Strings
  import opened Paths
  import opened Platform
  import TargetFileDir
  import opened TextProcessors
  import Sanitizing

  datatype EntryKind = FileEntry | FolderEntry

  /** An entry as Directory.EnumerateFileSystemEntries and File.GetAttributes
      see it: its full path, and for a folder the entries inside it. */
  datatype Entry =
    | File(path: string)
    | Folder(path: string, children: seq<Entry>)

  function KindOf(e: Entry): EntryKind
  {
    if e.Folder? then FolderEntry else FileEntry
  }

  /** One OLD/NEW pair. */
  datatype Move = Move(kind: EntryKind, oldPath: string, newPath: string)

  datatype Event =
    | Reported(move: Move)    // the OLD/NEW lines on the console
    | Moved(move: Move)       // File.Move or Directory.Move succeeded
    | MoveFailed(move: Move)  // it threw; the error is printed and the walk goes on

  /** What one move leaves in the log. */
  function MoveEvents(m: Move, debug: bool, fails: Move -> bool): seq<Event>
  {
    [Reported(m)] + (if debug then [] else if fails(m) then [MoveFailed(m)] else [Moved(m)])
  }

  function Events(ms: seq<Move>, debug: bool, fails: Move -> bool): seq<Event>
  {
    if ms == [] then [] else MoveEvents(ms[0], debug, fails) + Events(ms[1..], debug, fails)
  }

  lemma {:induction false} EventsAppend(a: seq<Move>, b: seq<Move>, debug: bool, fails: Move -> bool)
    ensures Events(a + b, debug, fails) == Events(a, debug, fails) + Events(b, debug, fails)
    decreases |a|
  {
    if a != [] {
      assert (a + b)[1..] == a[1..] + b;
      EventsAppend(a[1..], b, debug, fails);
    } else {
      assert a + b == b;
    }
  }

  /** A proof helper: appending events is associative. */
  lemma EventsAssociative(a: seq<Event>, b: seq<Event>, c: seq<Event>)
    ensures a + b + c == a + (b + c)
  {
  }

  /** In debug mode every pair is reported and nothing is moved. */
  lemma {:induction false} DebugOnlyReports(ms: seq<Move>, fails: Move -> bool)
    ensures |Events(ms, true, fails)| == |ms|
    ensures forall i :: 0 <= i < |ms| ==> Events(ms, true, fails)[i] == Reported(ms[i])
    decreases |ms|
  {
    if ms != [] {
      DebugOnlyReports(ms[1..], fails);
    }
  }

  /** Outside debug mode every reported pair is followed by its move, which
      succeeds or fails on its own, and the walk goes on either way. */
  lemma {:induction false} EachReportThenMove(ms: seq<Move>, fails: Move -> bool)
    ensures |Events(ms, false, fails)| == 2 * |ms|
    ensures forall i :: 0 <= i < |ms| ==>
      && Events(ms, false, fails)[2 * i] == Reported(ms[i])
      && Events(ms, false, fails)[2 * i + 1] == if fails(ms[i]) then MoveFailed(ms[i]) else Moved(ms[i])
    decreases |ms|
  {
    if ms != [] {
      EachReportThenMove(ms[1..], fails);
      var rest := Events(ms[1..], false, fails);
      assert Events(ms, false, fails) == MoveEvents(ms[0], false, fails) + rest;
      forall i | 1 <= i < |ms|
        ensures Events(ms, false, fails)[2 * i] == Reported(ms[i])
        ensures Events(ms, false, fails)[2 * i + 1] == if fails(ms[i]) then MoveFailed(ms[i]) else Moved(ms[i])
      {
        assert ms[1..][i - 1] == ms[i];
        assert Events(ms, false, fails)[2 * i] == rest[2 * (i - 1)];
        assert Events(ms, false, fails)[2 * i + 1] == rest[2 * (i - 1) + 1];
      }
    }
  }

  /** The entries handed to the walk are those Directory.EnumerateFileSystemEntries
      lists: each entry's path is its folder joined with its own non-empty
      name, and so on inside every folder. */
  predicate WellFormed(folder: string, es: seq<Entry>)
    decreases es
  {
    forall i :: 0 <= i < |es| ==>
      && ChildOf(folder, es[i].path)
      && (es[i].Folder? ==> WellFormed(es[i].path, es[i].children))
  }

  /** DeconstructPath: directory name, name without extension, and
      extension. It is None where GetDirectoryName returns null, which the
      source answers with FileNotFoundException. On a path without repeated
      separators, Path.Combine of the three gives the path back exactly when
      its file name is neither empty nor ends in '.'. */
  function DeconstructPath(entry: string): (parts: Option<(string, string, string)>)
    ensures parts.None? <==> entry == [] || entry == [DirectorySeparator]
    ensures parts.Some? ==> forall i :: 0 <= i < |parts.value.1| ==> parts.value.1[i] != DirectorySeparator
    ensures parts.Some? && NoDoubleSeparator(entry) ==>
      (Combine(parts.value.0, parts.value.1 + parts.value.2) == entry <==> FileName(entry) != [] && !EndsWithDot(entry))
  {
    match DirectoryName(entry)
    case None => None
    case Some(directory) =>
      CombineParts(entry);
      Some((directory, FileNameWithoutExtension(entry), Extension(entry)))
  }

  lemma CombineParts(entry: string)
    requires DirectoryName(entry).Some?
    ensures NoDoubleSeparator(entry) ==>
      ((Combine(DirectoryName(entry).value, FileNameWithoutExtension(entry) + Extension(entry)) == entry)
         <==> FileName(entry) != [] && !EndsWithDot(entry))
  {
    if NoDoubleSeparator(entry) {
      var stem, ext := FileNameWithoutExtension(entry), Extension(entry);
      var name := stem + ext;
      var d := DirectoryPart(entry);
      assert name == [] || name[0] != DirectorySeparator;
      CombineWithDirectory(entry, name);
      Recombine(entry);
      Strings.Associative(d, stem, ext);
      if EndsWithDot(entry) {
        RecombineFinalDot(entry);
      }
    }
  }

  /** The new name: every processor in list order, each fed the output of the
      one before, then the sanitizer once when it is switched on. */
  function ProcessedName(chain: seq<Behaviour>, sanitize: bool, stem: string, services: Services): (r: string)
    requires AllValidBehaviours(chain)
    ensures sanitize && r != [] ==> !IsNullOrWhiteSpace(FileNameWithoutExtension(r))
  {
    var chained := ApplyChain(chain, stem, services);
    if sanitize then Sanitizing.Sanitized(chained) else chained
  }

  /** ProcessText: only the name without extension is processed; the
      directory name and the extension are put back with Path.Combine, so the
      new path always ends with the old extension. */
  function ProcessedPath(chain: seq<Behaviour>, sanitize: bool, path: string, services: Services): (r: string)
    requires AllValidBehaviours(chain)
    requires DirectoryName(path).Some?
    ensures |Extension(path)| <= |r| && r[|r| - |Extension(path)|..] == Extension(path)
  {
    var (directory, filenameWithoutExtension, extension) := DeconstructPath(path).value;
    var name := ProcessedName(chain, sanitize, filenameWithoutExtension, services) + extension;
    ExtensionAtEnd(directory, name, extension);
    Combine(directory, name)
  }

  /** A proof helper: a name that ends with the extension keeps it at the
      end once combined with a directory. */
  lemma ExtensionAtEnd(directory: string, name: string, ext: string)
    requires |ext| <= |name| && name[|name| - |ext|..] == ext
    ensures var r := Combine(directory, name); |ext| <= |r| && r[|r| - |ext|..] == ext
  {
    SuffixOfSuffix(Combine(directory, name), name, ext);
  }

  /** With nothing to apply and no sanitizing, a path without repeated
      separators keeps its name, except one whose file name ends in '.',
      which loses that dot. */
  lemma UnprocessedPath(path: string, services: Services)
    requires DirectoryName(path).Some? && NoDoubleSeparator(path)
    ensures ProcessedPath([], false, path, services) == path <==> FileName(path) != [] && !EndsWithDot(path)
  {
    var stem := FileNameWithoutExtension(path);
    assert ProcessedName([], false, stem, services) == stem;
  }

  /** Path.Combine after the processors. A new name and extension that are
      both empty give the directory name on its own ("/r" for "/r/abc").
      A name that starts with the separator is a rooted path and is taken
      alone. Any other name goes after the old directory. */
  lemma ProcessedPathParts(chain: seq<Behaviour>, sanitize: bool, path: string, services: Services)
    requires AllValidBehaviours(chain)
    requires DirectoryName(path).Some? && NoDoubleSeparator(path)
    ensures var name := ProcessedName(chain, sanitize, FileNameWithoutExtension(path), services) + Extension(path);
      ProcessedPath(chain, sanitize, path, services)
        == if name == [] then DropTrailingSeparator(DirectoryPart(path))
           else if name[0] == DirectorySeparator then name
           else DirectoryPart(path) + name
  {
    var name := ProcessedName(chain, sanitize, FileNameWithoutExtension(path), services) + Extension(path);
    ProcessedPathIs(chain, sanitize, path, services);
    CombineWithDirectory(path, name);
  }

  /** A proof helper: ProcessedPath in terms of the path's own parts. */
  lemma ProcessedPathIs(chain: seq<Behaviour>, sanitize: bool, path: string, services: Services)
    requires AllValidBehaviours(chain)
    requires DirectoryName(path).Some?
    ensures ProcessedPath(chain, sanitize, path, services)
         == Combine(DirectoryName(path).value, ProcessedName(chain, sanitize, FileNameWithoutExtension(path), services) + Extension(path))
  {
  }

  /** With sanitizing on, the new name has no separator, so only the name
      changes: the directory stays, and so does a non-empty extension. When
      the sanitizer leaves nothing of the name, the new file name is the
      extension alone, and with no extension either the new path is the
      directory name itself. */
  lemma SanitizedPathKeepsDirectory(chain: seq<Behaviour>, path: string, services: Services)
    requires AllValidBehaviours(chain)
    requires DirectoryName(path).Some? && NoDoubleSeparator(path)
    ensures var stem := ProcessedName(chain, true, FileNameWithoutExtension(path), services);
      var ext := Extension(path);
      var newPath := ProcessedPath(chain, true, path, services);
      && (stem + ext != [] ==>
           && newPath == DirectoryPart(path) + stem + ext
           && DirectoryPart(newPath) == DirectoryPart(path)
           && FileName(newPath) == stem + ext
           && (ext != [] ==> Extension(newPath) == ext))
      && (stem == [] && ext != [] ==> newPath == DirectoryPart(path) + ext)
      && (stem + ext == [] ==> newPath == DropTrailingSeparator(DirectoryPart(path)))
  {
    var chained := ApplyChain(chain, FileNameWithoutExtension(path), services);
    var stem := ProcessedName(chain, true, FileNameWithoutExtension(path), services);
    Sanitizing.SanitizedProperties(chained);
    Sanitizing.SafeHasNoSeparator(stem);
    ProcessedPathIs(chain, true, path, services);
    NameInPlace(path, stem);
  }

  /** A new name without separators, put back between a path's directory
      name and its extension. */
  lemma NameInPlace(path: string, stem: string)
    requires forall i :: 0 <= i < |stem| ==> stem[i] != DirectorySeparator
    requires DirectoryName(path).Some? && NoDoubleSeparator(path)
    ensures var ext := Extension(path);
      var newPath := Combine(DirectoryName(path).value, stem + ext);
      && (stem + ext != [] ==>
           && newPath == DirectoryPart(path) + stem + ext
           && DirectoryPart(newPath) == DirectoryPart(path)
           && FileName(newPath) == stem + ext
           && (ext != [] ==> Extension(newPath) == ext))
      && (stem == [] && ext != [] ==> newPath == DirectoryPart(path) + ext)
      && (stem + ext == [] ==> newPath == DropTrailingSeparator(DirectoryPart(path)))
  {
    var ext := Extension(path);
    var d := DirectoryPart(path);
    DirectoryNameOfSimplePath(path);
    CombineAfterDirectoryPart(path, stem + ext);
    if stem + ext != [] {
      assert (stem + ext)[0] == if stem == [] then ext[0] else stem[0];
      JoinedPath(d, stem, ext);
      Strings.Associative(d, stem, ext);
      if stem == [] {
        assert d + stem + ext == d + ext;
      }
    }
  }

  /** A regex replacer without rules turns every name into "", so "/r/abc"
      becomes the directory name "/r". */
  lemma EmptyNameExample(path: string, services: Services)
    requires path == "/r/abc"
    ensures ProcessedPath([RegexRules([])], false, path, services) == "/r"
  {
    LastIndexOfUnique(path, DirectorySeparator, 2);
    assert DirectoryPart(path) == "/r/";
    assert FileName(path) == "abc";
    LastIndexOfUnique(FileName(path), '.', -1);
    assert Extension(path) == [];
    var chain := [RegexRules([])];
    assert chain[..0] == [];
    assert ProcessedName(chain, false, FileNameWithoutExtension(path), services) == [];
    ProcessedPathParts(chain, false, path, services);
  }

  /** GetDirectoryName collapses repeated separators, so such a path changes
      even when nothing else does: "/r//a" becomes "/r/a". */
  lemma RepeatedSeparatorExample(path: string, services: Services)
    requires path == "/r//a"
    ensures ProcessedPath([], false, path, services) == "/r/a"
  {
    LastIndexOfUnique(path, DirectorySeparator, 3);
    assert TrimSeparatorsEnd(path, 3, 1) == 2;
    assert path[..2] == "/r";
    assert NoDoubleSeparator(path[..2]);
    assert DirectoryName(path) == Some("/r");
    assert FileName(path) == "a";
    LastIndexOfUnique(FileName(path), '.', -1);
    assert FileNameWithoutExtension(path) == "a" && Extension(path) == [];
    assert ProcessedName([], false, "a", services) == "a";
  }

  /** The processors run in list order: the first one added sees the name
      first, and the rest work on its output. */
  lemma FirstProcessorFirst(b: Behaviour, chain: seq<Behaviour>, sanitize: bool, stem: string, services: Services)
    requires AllValidBehaviours([b] + chain)
    ensures AllValidBehaviours(chain) && ValidBehaviour(b)
    ensures ProcessedName([b] + chain, sanitize, stem, services)
         == ProcessedName(chain, sanitize, Transform(b, stem, services), services)
  {
    ChainFirst(b, chain, stem, services);
  }

  class Renamer {
    /** The processors, as configured when the renamer was built. */
    const textProcessors: seq<Behaviour>
    const targetFileOrFolder: TargetFileDir.TargetFileOrFolder
    const rootPath: string
    const recursive: bool
    const extensionsToIgnore: seq<string>
    const sanitizeFileNames: bool
    const isDebugMode: bool
    /** What the walk has printed and done so far. */
    var log: seq<Event>

    /** The processors' rules are ones AddRule can produce. */
    predicate Valid()
    {
      AllValidBehaviours(textProcessors)
    }

    constructor (textProcessors: seq<Behaviour>, targetFileOrFolder: TargetFileDir.TargetFileOrFolder, rootPath: string,
                 recursive: bool, extensionsToIgnore: seq<string>, sanitizeFileNames: bool, isDebugMode: bool)
      ensures this.textProcessors == textProcessors && this.targetFileOrFolder == targetFileOrFolder
      ensures this.rootPath == rootPath && this.recursive == recursive
      ensures this.extensionsToIgnore == extensionsToIgnore
      ensures this.sanitizeFileNames == sanitizeFileNames && this.isDebugMode == isDebugMode
      ensures log == []
    {
      this.textProcessors := textProcessors;
      this.targetFileOrFolder := targetFileOrFolder;
      this.rootPath := rootPath;
      this.recursive := recursive;
      this.extensionsToIgnore := extensionsToIgnore;
      this.sanitizeFileNames := sanitizeFileNames;
      this.isDebugMode := isDebugMode;
      log := [];
    }

    /** The extension is on the ignore list: exact, case-sensitive match. */
    predicate Ignored(path: string)
    {
      Extension(path) in extensionsToIgnore
    }

    /** Entries of this kind are renamed. */
    predicate Targets(kind: EntryKind)
    {
      TargetFileDir.HasFlag(targetFileOrFolder, if kind == FolderEntry then TargetFileDir.Folder else TargetFileDir.File)
    }

    function NewPath(path: string, services: Services): string
      requires Valid() && DirectoryName(path).Some?
    {
      ProcessedPath(textProcessors, sanitizeFileNames, path, services)
    }

    /** The renaming is the one ProcessText computes. It is a ghost
        parameter of the walk, so that the walk's specification does not
        depend on how each name is computed. */
    ghost predicate Renames(rename: string -> string, services: Services)
      requires Valid()
    {
      forall p {:trigger NewPath(p, services)} :: DirectoryName(p).Some? ==> rename(p) == NewPath(p, services)
    }

    /** The entry's own move: renamed kind, and a new path that differs. */
    function OwnMove(e: Entry, rename: string -> string): seq<Move>
    {
      var newPath := rename(e.path);
      if Targets(KindOf(e)) && newPath != e.path then [Move(KindOf(e), e.path, newPath)] else []
    }

    /** The moves the walk over entries reports, in order. */
    function Plan(es: seq<Entry>, rename: string -> string): seq<Move>
      decreases es, 1
    {
      if es == [] then []
      else Plan(es[..|es| - 1], rename) + EntryPlan(es[|es| - 1], rename)
    }

    /** One entry: nothing when ignored; otherwise, for a folder in recursive
      mode, the moves inside it first, and then its own. */
    function EntryPlan(e: Entry, rename: string -> string): seq<Move>
      decreases e, 0
    {
      if Ignored(e.path) then []
      else (if e.Folder? && recursive then Plan(e.children, rename) else []) + OwnMove(e, rename)
    }

    /** The entries the walk looks at, independent of what it does with them:
        none below an ignored entry, and nothing inside a folder unless the
        walk is recursive. */
    function Visited(es: seq<Entry>): seq<(EntryKind, string)>
      decreases es, 1
    {
      if es == [] then [] else Visited(es[..|es| - 1]) + VisitedEntry(es[|es| - 1])
    }

    function VisitedEntry(e: Entry): seq<(EntryKind, string)>
      decreases e, 0
    {
      if Ignored(e.path) then []
      else (if e.Folder? && recursive then Visited(e.children) else []) + [(KindOf(e), e.path)]
    }

    /** The renaming is passed along as a ghost parameter, which the new
        path is equal to. */
    method ProcessText(entry: string, services: Services, ghost rename: string -> string) returns (r: string)
      requires Valid() && Renames(rename, services)
      requires DirectoryName(entry).Some?
      ensures r == NewPath(entry, services) == rename(entry)
    {
      var (directory, filenameWithoutExtension, extension) := DeconstructPath(entry).value;
      var newFilename := filenameWithoutExtension;
      for i := 0 to |textProcessors|
        invariant newFilename == ApplyChain(textProcessors[..i], filenameWithoutExtension, services)
      {
        assert textProcessors[..i + 1][..i] == textProcessors[..i];
        newFilename := Transform(textProcessors[i], newFilename, services);
      }
      assert textProcessors[..|textProcessors|] == textProcessors;
      if sanitizeFileNames {
        newFilename := Sanitizing.Sanitize(newFilename);
      }
      var newFilenameWithExt := newFilename + extension;
      r := Combine(directory, newFilenameWithExt);
      assert r == NewPath(entry, services);
    }

    /** The OLD/NEW lines, then the move unless in debug mode; a failing move
        is caught and reported. */
    method Record(m: Move, fails: Move -> bool)
      modifies this
      ensures log == old(log) + MoveEvents(m, isDebugMode, fails)
    {
      log := log + [Reported(m)];
      if !isDebugMode {
        if fails(m) {
          log := log + [MoveFailed(m)];
        } else {
          log := log + [Moved(m)];
        }
      }
    }

    /** Events of the walk over a prefix one entry longer. */
    lemma PlanStep(es: seq<Entry>, i: nat, rename: string -> string, debug: bool, fails: Move -> bool)
      requires i < |es|
      ensures Events(Plan(es[..i + 1], rename), debug, fails)
           == Events(Plan(es[..i], rename), debug, fails) + Events(EntryPlan(es[i], rename), debug, fails)
    {
      assert es[..i + 1][..i] == es[..i];
      EventsAppend(Plan(es[..i], rename), EntryPlan(es[i], rename), debug, fails);
    }

    /** Events of one entry that is not ignored: those of its contents,
        when the walk is recursive, then its own. */
    lemma EntryEvents(e: Entry, rename: string -> string, debug: bool, fails: Move -> bool)
      requires !Ignored(e.path)
      ensures Events(EntryPlan(e, rename), debug, fails)
           == Events(if e.Folder? && recursive then Plan(e.children, rename) else [], debug, fails)
            + Events(OwnMove(e, rename), debug, fails)
    {
      var sub := if e.Folder? && recursive then Plan(e.children, rename) else [];
      EventsAppend(sub, OwnMove(e, rename), debug, fails);
    }

    method IterateEntries(ghost folder: string, entries: seq<Entry>, services: Services, fails: Move -> bool,
                          ghost rename: string -> string)
      requires Valid() && Renames(rename, services)
      requires WellFormed(folder, entries)
      modifies this
      ensures log == old(log) + Events(Plan(entries, rename), isDebugMode, fails)
      decreases entries, 1
    {
      for i := 0 to |entries|
        invariant log == old(log) + Events(Plan(entries[..i], rename), isDebugMode, fails)
      {
        PlanStep(entries, i, rename, isDebugMode, fails);
        ChildHasDirectory(folder, entries[i].path);
        IterateEntry(entries[i], services, fails, rename);
        EventsAssociative(old(log), Events(Plan(entries[..i], rename), isDebugMode, fails),
                    Events(EntryPlan(entries[i], rename), isDebugMode, fails));
      }
      assert entries[..|entries|] == entries;
    }

    /** The body of the loop in IterateEntries, for one entry. */
    method IterateEntry(entry: Entry, services: Services, fails: Move -> bool,
                        ghost rename: string -> string)
      requires Valid() && Renames(rename, services)
      requires DirectoryName(entry.path).Some? && (entry.Folder? ==> WellFormed(entry.path, entry.children))
      modifies this
      ensures log == old(log) + Events(EntryPlan(entry, rename), isDebugMode, fails)
      decreases entry, 0
    {
      var sourceFilePath := entry.path;
      var entryIsFolder := entry.Folder?;
      if Extension(sourceFilePath) in extensionsToIgnore {
        assert old(log) + [] == old(log);
        return;
      }
      EntryEvents(entry, rename, isDebugMode, fails);
      var processedFilePath := ProcessText(sourceFilePath, services, rename);
      // Named as in the source, but true when the path is NOT changed.
      var isNameHasChanged := processedFilePath == sourceFilePath;
      ghost var own := Events(OwnMove(entry, rename), isDebugMode, fails);
      ghost var sub := Events(if entryIsFolder && recursive then Plan(entry.children, rename) else [], isDebugMode, fails);
      if entryIsFolder && recursive {
        IterateEntries(sourceFilePath, entry.children, services, fails, rename);
      } else {
        assert old(log) + sub == old(log);
      }
      MoveIfRenamed(entry, processedFilePath, isNameHasChanged, fails, rename);
      EventsAssociative(old(log), sub, own);
    }

    /** The end of the loop body in IterateEntries: the entry is moved when
        its kind is targeted and its path changes. */
    method MoveIfRenamed(entry: Entry, processedFilePath: string, isNameHasChanged: bool, fails: Move -> bool,
                         ghost rename: string -> string)
      requires processedFilePath == rename(entry.path)
      requires isNameHasChanged <==> processedFilePath == entry.path
      modifies this
      ensures log == old(log) + Events(OwnMove(entry, rename), isDebugMode, fails)
    {
      var entryIsFolder := entry.Folder?;
      var isTarget := TargetFileDir.HasFlag(targetFileOrFolder, if entryIsFolder then TargetFileDir.Folder else TargetFileDir.File);
      ghost var own := Events(OwnMove(entry, rename), isDebugMode, fails);
      if isTarget && !isNameHasChanged {
        var m := Move(if entryIsFolder then FolderEntry else FileEntry, entry.path, processedFilePath);
        assert OwnMove(entry, rename) == [m];
        assert Events([m], isDebugMode, fails) == MoveEvents(m, isDebugMode, fails) + Events([], isDebugMode, fails);
        Record(m, fails);
      } else {
        assert own == [];
        assert old(log) + own == old(log);
      }
    }

    /** The renaming the walk applies: NewPath for a valid renamer, on every
        path GetDirectoryName accepts. */
    function Renaming(services: Services): string -> string
    {
      p => if Valid() && DirectoryName(p).Some? then NewPath(p, services) else p
    }

    /** Run: the walk over the entries of the root folder. */
    method Run(root: seq<Entry>, services: Services, fails: Move -> bool)
      requires Valid() && WellFormed(rootPath, root)
      modifies this
      ensures log == old(log) + Events(Plan(root, Renaming(services)), isDebugMode, fails)
    {
      ghost var rename := Renaming(services);
      assert Renames(rename, services);
      IterateEntries(rootPath, root, services, fails, rename);
    }

    /** The moves a list of visited entries calls for. */
    function Eligible(vs: seq<(EntryKind, string)>, rename: string -> string): seq<Move>
    {
      if vs == [] then []
      else
        var v := vs[|vs| - 1];
        Eligible(vs[..|vs| - 1], rename)
          + (if Targets(v.0) && rename(v.1) != v.1 then [Move(v.0, v.1, rename(v.1))] else [])
    }

    lemma {:induction false} EligibleAppend(a: seq<(EntryKind, string)>, b: seq<(EntryKind, string)>, rename: string -> string)
      ensures Eligible(a + b, rename) == Eligible(a, rename) + Eligible(b, rename)
      decreases |b|
    {
      if b == [] {
        assert a + b == a;
      } else {
        var init := b[..|b| - 1];
        assert (a + b)[..|a + b| - 1] == a + init;
        assert (a + b)[|a + b| - 1] == b[|b| - 1];
        EligibleAppend(a, init, rename);
      }
    }

    /** What the walk does is what it visits, filtered: the entries of a kind
        it renames whose path changes, in the order visited. */
    lemma {:induction false} PlanFollowsVisits(es: seq<Entry>, rename: string -> string)
      ensures Plan(es, rename) == Eligible(Visited(es), rename)
      decreases es, 1
    {
      if es != [] {
        var init := es[..|es| - 1];
        PlanFollowsVisits(init, rename);
        EntryPlanFollowsVisits(es[|es| - 1], rename);
        EligibleAppend(Visited(init), VisitedEntry(es[|es| - 1]), rename);
      }
    }

    lemma {:induction false} EntryPlanFollowsVisits(e: Entry, rename: string -> string)
      ensures EntryPlan(e, rename) == Eligible(VisitedEntry(e), rename)
      decreases e, 0
    {
      if !Ignored(e.path) {
        var sub := if e.Folder? && recursive then Visited(e.children) else [];
        if e.Folder? && recursive {
          PlanFollowsVisits(e.children, rename);
        }
        assert Plan(if e.Folder? && recursive then e.children else [], rename) == Eligible(sub, rename);
        var own := [(KindOf(e), e.path)];
        assert own[..0] == [];
        assert Eligible(own, rename) == OwnMove(e, rename);
        assert VisitedEntry(e) == sub + own;
        EligibleAppend(sub, own, rename);
      }
    }

    lemma {:induction false} EligibleMembers(vs: seq<(EntryKind, string)>, rename: string -> string, m: Move)
      ensures m in Eligible(vs, rename)
          <==> (m.kind, m.oldPath) in vs && Targets(m.kind) && m.newPath == rename(m.oldPath) && m.newPath != m.oldPath
      decreases |vs|
    {
      if vs != [] {
        var init := vs[..|vs| - 1];
        EligibleMembers(init, rename, m);
        assert vs == init + [vs[|vs| - 1]];
      }
    }

    /** A move is made exactly for a visited entry of a kind the renamer
        targets whose processed path differs from its path, and it moves the
        entry to that path. */
    lemma PlanMembers(es: seq<Entry>, rename: string -> string, m: Move)
      ensures m in Plan(es, rename)
          <==> (m.kind, m.oldPath) in Visited(es) && Targets(m.kind) && m.newPath == rename(m.oldPath) && m.newPath != m.oldPath
    {
      PlanFollowsVisits(es, rename);
      EligibleMembers(Visited(es), rename, m);
    }

    /** No entry the walk visits has an ignored extension. */
    lemma {:induction false} VisitsNotIgnored(es: seq<Entry>)
      ensures forall v :: v in Visited(es) ==> !Ignored(v.1)
      decreases es, 1
    {
      if es != [] {
        VisitsNotIgnored(es[..|es| - 1]);
        EntryVisitsNotIgnored(es[|es| - 1]);
      }
    }

    lemma {:induction false} EntryVisitsNotIgnored(e: Entry)
      ensures forall v :: v in VisitedEntry(e) ==> !Ignored(v.1)
      decreases e, 0
    {
      if !Ignored(e.path) && e.Folder? && recursive {
        VisitsNotIgnored(e.children);
      }
    }

    /** Without recursion the walk visits exactly the entries of the list
        itself that are not ignored. */
    lemma {:induction false} TopLevelOnly(es: seq<Entry>)
      requires !recursive
      ensures forall v :: v in Visited(es) <==> exists e :: e in es && !Ignored(e.path) && v == (KindOf(e), e.path)
      decreases |es|
    {
      if es != [] {
        var init := es[..|es| - 1];
        TopLevelOnly(init);
        assert es == init + [es[|es| - 1]];
      }
    }

    /** A folder that is visited, renamed and walked recursively is moved
        after everything inside it: its move comes last, and every move
        before it is one from inside. */
    lemma SubtreeBeforeFolder(e: Entry, rename: string -> string)
      requires e.Folder? && recursive && !Ignored(e.path)
      requires Targets(FolderEntry) && rename(e.path) != e.path
      ensures var plan := EntryPlan(e, rename);
        && |plan| == |Plan(e.children, rename)| + 1
        && plan[|plan| - 1] == Move(FolderEntry, e.path, rename(e.path))
        && plan[..|plan| - 1] == Plan(e.children, rename)
    {
    }

  }
}
