/** The [Flags] enum TargetFileOrFolder: which kinds of entries are renamed. */
module TargetFileDir {

  type TargetFileOrFolder = bv2

  const None: TargetFileOrFolder := 0
  const File: TargetFileOrFolder := 1 << 0
  const Folder: TargetFileOrFolder := 1 << 1
  const Both: TargetFileOrFolder := File | Folder

  /** Enum.HasFlag: every bit of flag is set in t. */
  predicate HasFlag(t: TargetFileOrFolder, flag: TargetFileOrFolder)
  {
    t & flag == flag
  }

  /** `t |= flag`: the flag is set afterwards and every flag set before still is. */
  function AddFlag(t: TargetFileOrFolder, flag: TargetFileOrFolder): (r: TargetFileOrFolder)
    ensures HasFlag(r, flag)
    ensures forall f :: HasFlag(t, f) ==> HasFlag(r, f)
  {
    t | flag
  }

  /** The four named values are the only ones, and Both has both flags. */
  lemma FlagsOfNamedValues(t: TargetFileOrFolder)
    ensures t == None || t == File || t == Folder || t == Both
    ensures HasFlag(Both, File) && HasFlag(Both, Folder)
    ensures !HasFlag(None, File) && !HasFlag(None, Folder)
    ensures HasFlag(t, File) && HasFlag(t, Folder) <==> t == Both
  {
  }

  /** Setting a flag again changes nothing; setting File and Folder, in either
      order, gives Both. */
  lemma SetBothFlags(t: TargetFileOrFolder)
    ensures AddFlag(AddFlag(t, File), File) == AddFlag(t, File)
    ensures AddFlag(AddFlag(t, Folder), Folder) == AddFlag(t, Folder)
    ensures AddFlag(AddFlag(t, File), Folder) == AddFlag(AddFlag(t, Folder), File)
    ensures AddFlag(AddFlag(None, File), Folder) == Both
  {
  }
}
