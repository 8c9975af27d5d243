/**
 * RenamerBuilder: collects the settings of a Renamer, one setter at a time,
 * and Build checks them and hands them over.
 *
 * The processors are kept in a dictionary from name to processor. A
 * Dictionary that is only ever added to enumerates its values in insertion
 * order, so it is a map together with the order in which its keys were
 * first added.
 */
module RenamerBuilding {
  import opened Wrappers
  import opened Strings
  import TargetFileDir
  import opened TextProcessors
  import Renaming

  /** A string with every '.' taken out, the other characters kept in order. */
  function Undotted(s: string): (r: string)
    ensures forall i :: 0 <= i < |r| ==> r[i] != '.'
  {
    if s == [] then [] else (if s[0] == '.' then [] else [s[0]]) + Undotted(s[1..])
  }

  /** string.Replace(".", "") takes out exactly the dots. */
  lemma {:induction false} ReplaceDotsIsUndotted(s: string)
    ensures ReplaceAll(s, ".", "") == Undotted(s)
    decreases |s|
  {
    if s != [] {
      ReplaceDotsIsUndotted(s[1..]);
      assert s[..1] == [s[0]];
    }
  }

  /** SetExtensionToIgnore's normalisation: every dot removed, then one put in
      front. */
  function NormalizeExtension(extension: string): (ext: string)
    ensures ext == "." + Undotted(extension)
    ensures ext != [] && ext[0] == '.'
    ensures forall i :: 1 <= i < |ext| ==> ext[i] != '.'
  {
    ReplaceDotsIsUndotted(extension);
    "." + ReplaceAll(extension, ".", "")
  }

  /** Normalising twice is normalising once, and "txt" and ".txt" name the
      same extension. */
  lemma NormalizeExtensionIdempotent(extension: string)
    ensures NormalizeExtension(NormalizeExtension(extension)) == NormalizeExtension(extension)
  {
    var once := NormalizeExtension(extension);
    assert once == ['.'] + Undotted(extension);
    assert Undotted(once) == Undotted(Undotted(extension));
    UndottedOfUndotted(extension);
  }

  lemma {:induction false} UndottedOfUndotted(s: string)
    ensures Undotted(Undotted(s)) == Undotted(s)
    decreases |s|
  {
    if s != [] {
      UndottedOfUndotted(s[1..]);
      if s[0] == '.' {
        assert Undotted(s) == Undotted(s[1..]);
      } else {
        var u := Undotted(s);
        assert u == [s[0]] + Undotted(s[1..]);
        assert u[1..] == Undotted(s[1..]);
      }
    }
  }

  lemma UndottedStep(c: char, s: string)
    ensures Undotted([c] + s) == (if c == '.' then [] else [c]) + Undotted(s)
  {
    assert ([c] + s)[1..] == s;
  }

  lemma NormalizeTxt()
    ensures NormalizeExtension("txt") == ".txt"
    ensures NormalizeExtension(".txt") == ".txt"
  {
    UndottedStep('t', []);
    UndottedStep('x', "t");
    UndottedStep('t', "xt");
    UndottedStep('.', "txt");
  }

  /** Every setting of the builder at one moment. */
  datatype Settings = Settings(
    rootPath: Option<string>,
    targetFileOrFolder: TargetFileDir.TargetFileOrFolder,
    recursive: bool,
    extensionsToIgnore: seq<string>,
    sanitizeFileNames: bool,
    isDebugMode: bool,
    textProcessors: map<string, Processor>,
    processorOrder: seq<string>)

  class RenamerBuilder {
    var rootPath: Option<string>
    var targetFileOrFolder: TargetFileDir.TargetFileOrFolder
    var recursive: bool
    var extensionsToIgnore: seq<string>
    var sanitizeFileNames: bool
    var isDebugMode: bool
    var textProcessors: map<string, Processor>
    /** The keys of textProcessors, in the order they were added. */
    var processorOrder: seq<string>

    function Config(): Settings
      reads this
    {
      Settings(rootPath, targetFileOrFolder, recursive, extensionsToIgnore,
               sanitizeFileNames, isDebugMode, textProcessors, processorOrder)
    }

    /** Every processor is filed under its own name, and the order lists each
        key once. */
    ghost predicate Valid()
      reads this
    {
      && (forall i, j :: 0 <= i < j < |processorOrder| ==> processorOrder[i] != processorOrder[j])
      && (forall k :: k in processorOrder <==> k in textProcessors)
      && (forall k :: k in textProcessors ==> Name(Kind(textProcessors[k])) == k)
    }

    /** The processors in the order Dictionary.Values enumerates them. */
    function Values(): (ps: seq<Processor>)
      requires Valid()
      reads this
      ensures |ps| == |processorOrder|
      ensures forall i :: 0 <= i < |ps| ==> ps[i] == textProcessors[processorOrder[i]]
    {
      seq(|processorOrder|, i requires 0 <= i < |processorOrder| && processorOrder[i] in textProcessors reads this =>
        textProcessors[processorOrder[i]])
    }

    /** At most one processor of each kind. */
    lemma OnePerKind()
      requires Valid()
      ensures forall i, j :: 0 <= i < |Values()| && 0 <= j < |Values()| && Kind(Values()[i]) == Kind(Values()[j]) ==> i == j
    {
      var ps := Values();
      forall i, j | 0 <= i < |ps| && 0 <= j < |ps| && Kind(ps[i]) == Kind(ps[j])
        ensures i == j
      {
        assert Name(Kind(ps[i])) == processorOrder[i];
        assert Name(Kind(ps[j])) == processorOrder[j];
      }
    }

    /** A new builder: no root path, nothing targeted, nothing ignored, every
        switch off and no processors. */
    constructor ()
      ensures Valid()
      ensures Config() == Settings(None, TargetFileDir.None, false, [], false, false, map[], [])
    {
      rootPath := None;
      targetFileOrFolder := TargetFileDir.None;
      recursive := false;
      extensionsToIgnore := [];
      sanitizeFileNames := false;
      isDebugMode := false;
      textProcessors := map[];
      processorOrder := [];
    }

    method SetRootPath(path: string)
      requires Valid()
      modifies this
      ensures Valid()
      ensures Config() == old(Config()).(rootPath := Some(path))
    {
      rootPath := Some(path);
    }

    /** Get-or-create: the processor already filed under the kind's name, or a
        new one filed under it at the end. The configuring callback of the
        source is what the caller then does with the returned processor. */
    method ConfigureProcessor(kind: ProcessorKind) returns (p: Processor)
      requires Valid()
      modifies this
      ensures Valid()
      ensures Kind(p) == kind && Name(kind) in textProcessors && textProcessors[Name(kind)] == p
      ensures Name(kind) in old(textProcessors) ==> p == old(textProcessors)[Name(kind)] && Config() == old(Config())
      ensures Name(kind) !in old(textProcessors) ==>
        && fresh(Target(p)) && TextProcessors.Valid(p) && IsInitial(p)
        && Config() == old(Config()).(textProcessors := old(textProcessors)[Name(kind) := p],
                                      processorOrder := old(processorOrder) + [Name(kind)])
    {
      var textProcessorName := Name(kind);
      if textProcessorName in textProcessors {
        p := textProcessors[textProcessorName];
        NamesIdentifyKinds(Kind(p), kind);
      } else {
        p := Create(kind);
        textProcessors := textProcessors[textProcessorName := p];
        processorOrder := processorOrder + [textProcessorName];
      }
    }

    method SetRecursive(recursiveMode: bool)
      requires Valid()
      modifies this
      ensures Valid()
      ensures Config() == old(Config()).(recursive := recursiveMode)
    {
      recursive := recursiveMode;
    }

    /** The normalised extension is appended; duplicates are kept. */
    method SetExtensionToIgnore(extension: string)
      requires Valid()
      modifies this
      ensures Valid()
      ensures Config() == old(Config()).(extensionsToIgnore := old(extensionsToIgnore) + [NormalizeExtension(extension)])
    {
      var ext := ReplaceAll(extension, ".", "");
      ext := "." + ext;
      extensionsToIgnore := extensionsToIgnore + [ext];
    }

    method SetDoRenameFiles()
      requires Valid()
      modifies this
      ensures Valid()
      ensures Config() == old(Config()).(targetFileOrFolder := TargetFileDir.AddFlag(old(targetFileOrFolder), TargetFileDir.File))
    {
      targetFileOrFolder := targetFileOrFolder | TargetFileDir.File;
    }

    method SetDoRenameFolders()
      requires Valid()
      modifies this
      ensures Valid()
      ensures Config() == old(Config()).(targetFileOrFolder := TargetFileDir.AddFlag(old(targetFileOrFolder), TargetFileDir.Folder))
    {
      targetFileOrFolder := targetFileOrFolder | TargetFileDir.Folder;
    }

    /** Switches sanitizing on; nothing switches it off again. */
    method SetSanitizeFileNames()
      requires Valid()
      modifies this
      ensures Valid()
      ensures Config() == old(Config()).(sanitizeFileNames := true)
    {
      sanitizeFileNames := true;
    }

    /** Switches debug mode on; nothing switches it off again. */
    method SetDebugMode()
      requires Valid()
      modifies this
      ensures Valid()
      ensures Config() == old(Config()).(isDebugMode := true)
    {
      isDebugMode := true;
    }

    /** No renamer without a root path or a kind of entry to rename; otherwise
        a new renamer with every setting as it is, and the processors in the
        order they were first configured. */
    method Build() returns (r: Renaming.Renamer?)
      requires Valid()
      ensures r == null <==> rootPath.None? || targetFileOrFolder == TargetFileDir.None
      ensures r != null ==>
        && fresh(r) && r.log == []
        && r.textProcessors == Snapshots(Values())
        && r.rootPath == rootPath.value
        && r.targetFileOrFolder == targetFileOrFolder
        && r.recursive == recursive
        && r.extensionsToIgnore == extensionsToIgnore
        && r.sanitizeFileNames == sanitizeFileNames
        && r.isDebugMode == isDebugMode
      ensures r != null && AllValid(Values()) ==> r.Valid()
    {
      if rootPath.None? {
        return null;
      }
      if targetFileOrFolder == TargetFileDir.None {
        return null;
      }
      var processors := Values();
      r := new Renaming.Renamer(Snapshots(processors), targetFileOrFolder, rootPath.value, recursive,
                                extensionsToIgnore, sanitizeFileNames, isDebugMode);
    }
  }
}
