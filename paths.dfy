/**
 * The parts of System.IO.Path the renaming core uses, as they behave on Unix,
 * where the only directory separator is '/': the file name, the directory
 * name, the extension, the file name without its extension, Combine and Join.
 */
module Paths {
  import opened Wrappers
  import opened Strings

  const DirectorySeparator: char := '/'

  /** string.LastIndexOf(c), -1 when c does not occur. */
  function LastIndexOf(s: string, c: char): (r: int)
    ensures -1 <= r < |s|
    ensures 0 <= r ==> s[r] == c
    ensures forall k :: r < k < |s| ==> s[k] != c
  {
    if s == [] then -1
    else if s[|s| - 1] == c then |s| - 1
    else LastIndexOf(s[..|s| - 1], c)
  }

  /** The three properties of LastIndexOf single out its result. */
  lemma LastIndexOfUnique(s: string, c: char, r: int)
    requires -1 <= r < |s|
    requires 0 <= r ==> s[r] == c
    requires forall k :: r < k < |s| ==> s[k] != c
    ensures r == LastIndexOf(s, c)
  {
  }

  /** Path.GetFileName: what follows the last separator. */
  function FileName(p: string): (r: string)
    ensures forall i :: 0 <= i < |r| ==> r[i] != DirectorySeparator
    ensures |r| <= |p| && r == p[|p| - |r|..]
  {
    p[LastIndexOf(p, DirectorySeparator) + 1..]
  }

  /** Everything up to and including the last separator: the text in front
      of the file name. */
  function DirectoryPart(p: string): (r: string)
    ensures p == r + FileName(p)
    ensures r == [] || r[|r| - 1] == DirectorySeparator
  {
    var i := LastIndexOf(p, DirectorySeparator) + 1;
    assert p == p[..i] + p[i..];
    p[..i]
  }

  /** Path.GetExtension: the file name from its last '.', or "" when the name
      has no '.' or ends with it. */
  function Extension(p: string): (r: string)
    ensures r == [] || (|r| >= 2 && r[0] == '.')
    ensures forall i :: 1 <= i < |r| ==> r[i] != '.' && r[i] != DirectorySeparator
    ensures |r| <= |p| && r == p[|p| - |r|..]
  {
    var name := FileName(p);
    var dot := LastIndexOf(name, '.');
    if dot < 0 || dot == |name| - 1 then [] else name[dot..]
  }

  /** Path.GetFileNameWithoutExtension: the file name up to its last '.'. */
  function FileNameWithoutExtension(p: string): (r: string)
    ensures forall i :: 0 <= i < |r| ==> r[i] != DirectorySeparator
  {
    var name := FileName(p);
    var dot := LastIndexOf(name, '.');
    if dot < 0 then name else name[..dot]
  }

  /** The file name ends with a '.', which GetExtension does not return. */
  predicate EndsWithDot(p: string)
  {
    var name := FileName(p);
    name != [] && name[|name| - 1] == '.'
  }

  /** Directory, name without extension and extension put back together give
      the path again, except when the file name ends with a dot: that dot is
      in neither of the last two parts. */
  lemma Recombine(p: string)
    ensures DirectoryPart(p) + FileNameWithoutExtension(p) + Extension(p) == p <==> !EndsWithDot(p)
  {
    var name := FileName(p);
    var dot := LastIndexOf(name, '.');
    if dot < 0 {
      RecombineNoDot(p);
    } else if dot == |name| - 1 {
      RecombineFinalDot(p);
    } else {
      RecombineInnerDot(p);
    }
  }

  lemma RecombineNoDot(p: string)
    requires LastIndexOf(FileName(p), '.') < 0
    ensures DirectoryPart(p) + FileNameWithoutExtension(p) + Extension(p) == p
    ensures !EndsWithDot(p)
  {
    assert FileNameWithoutExtension(p) == FileName(p) && Extension(p) == [];
  }

  lemma RecombineFinalDot(p: string)
    requires 0 <= LastIndexOf(FileName(p), '.') == |FileName(p)| - 1
    ensures |DirectoryPart(p) + FileNameWithoutExtension(p) + Extension(p)| == |p| - 1
    ensures EndsWithDot(p)
  {
    var name := FileName(p);
    assert FileNameWithoutExtension(p) == name[..|name| - 1] && Extension(p) == [];
  }

  lemma RecombineInnerDot(p: string)
    requires 0 <= LastIndexOf(FileName(p), '.') < |FileName(p)| - 1
    ensures DirectoryPart(p) + FileNameWithoutExtension(p) + Extension(p) == p
    ensures !EndsWithDot(p)
  {
    var name := FileName(p);
    var dot := LastIndexOf(name, '.');
    var stem, ext := FileNameWithoutExtension(p), Extension(p);
    assert stem == name[..dot] && ext == name[dot..];
    assert stem + ext == name;
    Strings.Associative(DirectoryPart(p), stem, ext);
  }

  /** Appending an extension to any name gives a path with that extension. */
  lemma {:induction false} ExtensionOfRenamed(name: string, ext: string)
    requires |ext| >= 2 && ext[0] == '.'
    requires forall i :: 1 <= i < |ext| ==> ext[i] != '.' && ext[i] != DirectorySeparator
    ensures Extension(name + ext) == ext
  {
    var p := name + ext;
    var slash := LastIndexOf(p, DirectorySeparator);
    assert p[|name|] == '.';
    assert slash < |name|;
    var fileName := FileName(p);
    assert fileName == p[slash + 1..];
    var dot := |fileName| - |ext|;
    assert fileName[dot..] == ext;
    LastIndexOfUnique(fileName, '.', dot);
  }

  /** A directory part followed by a name without separators splits back
      into the two. */
  lemma SplitJoined(directory: string, name: string)
    requires directory == [] || directory[|directory| - 1] == DirectorySeparator
    requires forall i :: 0 <= i < |name| ==> name[i] != DirectorySeparator
    ensures DirectoryPart(directory + name) == directory
    ensures FileName(directory + name) == name
  {
    var p := directory + name;
    LastIndexOfUnique(p, DirectorySeparator, |directory| - 1);
  }

  /** A directory part, a name without separators and an extension as
      Extension returns it: the path they make has that directory, that file
      name and, when it is not empty, that extension. */
  lemma JoinedPath(directory: string, stem: string, ext: string)
    requires directory == [] || directory[|directory| - 1] == DirectorySeparator
    requires forall i :: 0 <= i < |stem| ==> stem[i] != DirectorySeparator
    requires ext == [] || (|ext| >= 2 && ext[0] == '.')
    requires forall i :: 1 <= i < |ext| ==> ext[i] != '.' && ext[i] != DirectorySeparator
    ensures DirectoryPart(directory + stem + ext) == directory
    ensures FileName(directory + stem + ext) == stem + ext
    ensures ext != [] ==> Extension(directory + stem + ext) == ext
  {
    var name := stem + ext;
    assert forall i :: 0 <= i < |name| ==> name[i] != DirectorySeparator by {
      forall i | 0 <= i < |name| ensures name[i] != DirectorySeparator {
        if i >= |stem| {
          assert name[i] == ext[i - |stem|];
        }
      }
    }
    assert directory + stem + ext == directory + name;
    SplitJoined(directory, name);
    if ext != [] {
      ExtensionOfRenamed(directory + stem, ext);
    }
  }

  // ----- Path.GetDirectoryName -----

  /** Path.GetPathRoot(p).Length on Unix: 1 for a rooted path, else 0. */
  function RootLength(p: string): nat
  {
    if p != [] && p[0] == DirectorySeparator then 1 else 0
  }

  /** No two separators side by side. */
  predicate NoDoubleSeparator(p: string)
  {
    forall i :: 0 <= i < |p| - 1 ==> !(p[i] == DirectorySeparator && p[i + 1] == DirectorySeparator)
  }

  /** The normalisation GetDirectoryName applies on Unix: a separator that
      another one follows is dropped, so every run of separators becomes
      one. */
  function CollapseSeparators(s: string): (r: string)
    ensures |r| <= |s|
    ensures s != [] ==> r != [] && r[0] == s[0]
    ensures NoDoubleSeparator(r)
    ensures NoDoubleSeparator(s) ==> r == s
    decreases |s|
  {
    if |s| <= 1 then s
    else if s[0] == DirectorySeparator && s[1] == DirectorySeparator then CollapseSeparators(s[1..])
    else [s[0]] + CollapseSeparators(s[1..])
  }

  /** The end of the directory name moved back over the separators in front
      of it, but not into the root. */
  function TrimSeparatorsEnd(p: string, end: nat, root: nat): (e: nat)
    requires root <= end <= |p|
    ensures root <= e <= end
    ensures forall i :: e <= i < end ==> p[i] == DirectorySeparator
    ensures e == root || p[e - 1] != DirectorySeparator
    decreases end
  {
    if end > root && p[end - 1] == DirectorySeparator then TrimSeparatorsEnd(p, end - 1, root) else end
  }

  /** Path.GetDirectoryName on Unix. It is null for "" and for the root "/"
      on its own. Otherwise it is the text before the last separator outside
      the root, less any separators at its end, with every run of separators
      collapsed; for a name in the root that is "/". */
  function DirectoryName(p: string): (d: Option<string>)
    ensures d.None? <==> p == [] || p == [DirectorySeparator]
    ensures d.Some? ==> NoDoubleSeparator(d.value) && |d.value| < |p|
  {
    var root := RootLength(p);
    if |p| <= root then None
    else
      var last := LastIndexOf(p, DirectorySeparator);
      var end := TrimSeparatorsEnd(p, if last < root then root else last, root);
      Some(CollapseSeparators(p[..end]))
  }

  /** A directory part without its final separator, unless that separator is
      the whole of it. */
  function DropTrailingSeparator(d: string): string
  {
    if |d| >= 2 then d[..|d| - 1] else d
  }

  /** On a path without repeated separators, the directory name is the text
      in front of the file name, less the separator before the name, except
      when that separator is the root. */
  lemma DirectoryNameOfSimplePath(p: string)
    requires DirectoryName(p).Some? && NoDoubleSeparator(p)
    ensures DirectoryName(p).value == DropTrailingSeparator(DirectoryPart(p))
  {
    var root := RootLength(p);
    var last := LastIndexOf(p, DirectorySeparator);
    if last < root {
      assert p[..root] == DirectoryPart(p);
      assert NoDoubleSeparator(p[..root]);
    } else {
      assert last == 0 || p[last - 1] != DirectorySeparator;
      assert TrimSeparatorsEnd(p, last, root) == last;
      assert NoDoubleSeparator(p[..last]);
      assert DirectoryPart(p)[..last] == p[..last];
    }
  }

  // ----- Path.Combine and Path.Join -----

  /** Path.Combine(first, second) on Unix: either text alone when the other
      is empty, second alone when it is rooted, and otherwise the two with
      one separator between them. */
  function Combine(first: string, second: string): (r: string)
    ensures second == [] ==> r == first
    ensures |second| <= |r| && r[|r| - |second|..] == second
    ensures second != [] && second[0] != DirectorySeparator ==> |first| <= |r| && r[..|first|] == first
  {
    if first == [] then second
    else if second == [] then first
    else if second[0] == DirectorySeparator then second
    else if first[|first| - 1] == DirectorySeparator then first + second
    else first + [DirectorySeparator] + second
  }

  /** Combining a path's directory name with a new name: the directory name
      alone for an empty name, a rooted name alone, and otherwise the text
      in front of the old file name followed by the new one. */
  lemma CombineWithDirectory(p: string, name: string)
    requires DirectoryName(p).Some? && NoDoubleSeparator(p)
    ensures Combine(DirectoryName(p).value, name)
         == if name == [] then DropTrailingSeparator(DirectoryPart(p))
            else if name[0] == DirectorySeparator then name
            else DirectoryPart(p) + name
  {
    DirectoryNameOfSimplePath(p);
    CombineAfterDirectoryPart(p, name);
  }

  /** A proof helper: CombineWithDirectory with the directory name written
      out as the text in front of the file name. */
  lemma CombineAfterDirectoryPart(p: string, name: string)
    requires NoDoubleSeparator(p)
    ensures Combine(DropTrailingSeparator(DirectoryPart(p)), name)
         == if name == [] then DropTrailingSeparator(DirectoryPart(p))
            else if name[0] == DirectorySeparator then name
            else DirectoryPart(p) + name
  {
    var d := DirectoryPart(p);
    if |d| >= 2 && name != [] && name[0] != DirectorySeparator {
      var last := |d| - 1;
      assert p[last] == DirectorySeparator && p[last - 1] == d[last - 1];
      assert d[..last] + [DirectorySeparator] + name == d + name;
    }
  }

  /** Path.Join(folder, name) for a name without separators: how
      Directory.EnumerateFileSystemEntries forms the paths of a folder's
      entries. */
  function JoinPath(folder: string, name: string): (r: string)
    ensures |name| <= |r| && r[|r| - |name|..] == name
  {
    if folder == [] then name
    else if folder[|folder| - 1] == DirectorySeparator then folder + name
    else folder + [DirectorySeparator] + name
  }

  /** The path of an entry of the folder: the folder joined with a non-empty
      file name. */
  predicate ChildOf(folder: string, path: string)
  {
    FileName(path) != [] && path == JoinPath(folder, FileName(path))
  }

  /** An entry of a folder always has a directory name. */
  lemma ChildHasDirectory(folder: string, path: string)
    requires ChildOf(folder, path)
    ensures DirectoryName(path).Some?
  {
    var name := FileName(path);
    assert path[|path| - 1] == name[|name| - 1] != DirectorySeparator;
  }
}
