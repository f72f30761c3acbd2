/** What each call on the tree costs in blocks, and whether it finds them. */
module FsCosts {
  import opened Machine
  import opened FsLayout
  import opened FsEntries
  import opened FsTree
  import opened FsFiles
  import opened FsAccount

  /** The blocks of a directory of `n` entries. */
  function DirBlocks(n: nat): nat {
    NeededBlocks(ENTRY_SIZE * n)
  }

  /** The current directory with one more entry finds its blocks. */
  predicate EntryFits(fs: Fs, a: Account)
    requires fs.cwd < |fs.dirs| == |a.own|
  {
    Fits(a, fs.cwd, DirBlocks(|fs.dirs[fs.cwd]| + 1))
  }

  function Entering(fs: Fs, a: Account): (b: Account)
    requires fs.cwd < |fs.dirs| == |a.own|
    ensures |b.own| == |a.own|
  {
    Rewrite(a, fs.cwd, DirBlocks(|fs.dirs[fs.cwd]| + 1))
  }

  function CreateCost(fs: Fs, a: Account, name: CString): (b: Account)
    requires fs.cwd < |fs.dirs| == |fs.kinds| == |a.own|
    ensures |b.own| == |a.own|
  {
    if CanAdd(fs, name) then Entering(fs, a) else a
  }

  /** A new directory's own block is there. */
  predicate ChildFits(a: Account) {
    DirBlocks(2) <= a.free
  }

  function WithChild(a: Account, i: nat): (b: Account)
    requires i < |a.own|
    ensures |b.own| == |a.own|
  {
    Rewrite(a, i, DirBlocks(2))
  }

  /** The parent's entry fits once the child's block is gone. */
  predicate ParentFits(fs: Fs, a: Account)
    requires fs.cwd < |fs.dirs| == |fs.kinds| == |a.own|
  {
    var i := FirstFree(fs.kinds, 0);
    i < |fs.kinds| && EntryFits(fs, WithChild(a, i))
  }

  function MakeDirCost(fs: Fs, a: Account, name: CString): (b: Account)
    requires fs.cwd < |fs.dirs| == |fs.kinds| == |a.own|
    ensures |b.own| == |a.own|
  {
    var i := FirstFree(fs.kinds, 0);
    if !ChildFits(a) then a
    else if CanAdd(fs, name) then
      var b := Entering(fs, WithChild(a, i));
      if ParentFits(fs, a) then b else Release(b, i)
    else if Reviving(fs, name) then WithChild(a, i)
    else a
  }

  function DropCost(fs: Fs, a: Account, slot: nat): (b: Account)
    requires fs.cwd < |fs.dirs| == |fs.kinds| == |a.own| && slot < |fs.dirs[fs.cwd]|
    requires fs.dirs[fs.cwd][slot].inode < |fs.kinds|
    ensures |b.own| == |a.own|
  {
    Release(Rewrite(a, fs.cwd, DirBlocks(|fs.dirs[fs.cwd]| - 1)), fs.dirs[fs.cwd][slot].inode)
  }

  function DeleteCost(fs: Fs, a: Account, name: CString, open: set<nat>): (b: Account)
    requires fs.cwd < |fs.dirs| == |fs.kinds| == |fs.files| == |a.own|
    ensures |b.own| == |a.own|
  {
    if !Names(fs, name, Regular) || fs.dirs[fs.cwd][Lookup(fs, name)].inode in open then a
    else DropCost(fs, a, Lookup(fs, name))
  }

  function RemoveDirCost(fs: Fs, a: Account, name: CString): (b: Account)
    requires fs.cwd < |fs.dirs| == |fs.kinds| == |a.own|
    ensures |b.own| == |a.own|
  {
    if !CanRemoveDir(fs, name) then a else DropCost(fs, a, Lookup(fs, name))
  }

  /** A file written by name finds its blocks, after what its entry takes if it is new. */
  predicate FileFits(fs: Fs, a: Account, name: CString, size: nat)
    requires fs.cwd < |fs.dirs| == |fs.kinds| == |a.own|
  {
    if CanAdd(fs, name) then Fits(CreateCost(fs, a, name), FirstFree(fs.kinds, 0), NeededBlocks(size))
    else Names(fs, name, Regular) && Fits(a, fs.dirs[fs.cwd][Lookup(fs, name)].inode, NeededBlocks(size))
  }

  function WriteCost(fs: Fs, a: Account, name: CString, size: nat): (b: Account)
    requires fs.cwd < |fs.dirs| == |fs.kinds| == |a.own|
    ensures |b.own| == |a.own|
  {
    if !ValidName(name) || size > SIMPLEFS_MAX_FILE_SIZE then a
    else if CanAdd(fs, name) then
      if EntryFits(fs, a) then Rewrite(Entering(fs, a), FirstFree(fs.kinds, 0), NeededBlocks(size)) else Entering(fs, a)
    else if Names(fs, name, Regular) then Rewrite(a, fs.dirs[fs.cwd][Lookup(fs, name)].inode, NeededBlocks(size))
    else a
  }

  /** On a fresh volume the root has its one block. */
  function FormattedAccount(): Account {
    Account(SIMPLEFS_DATA_BLOCKS - 1, seq(SIMPLEFS_MAX_INODES, _ => 0)[SIMPLEFS_ROOT_INODE := 1])
  }

  lemma {:induction false} FreshAccount()
    ensures Total(FormattedAccount()) == SIMPLEFS_DATA_BLOCKS
  {
    var none := seq<nat>(SIMPLEFS_MAX_INODES, _ => 0);
    SumOfNone(SIMPLEFS_MAX_INODES, SIMPLEFS_MAX_INODES);
    SumMoves(none, SIMPLEFS_ROOT_INODE, 1, SIMPLEFS_MAX_INODES);
  }

  lemma {:induction false} SumOfNone(size: nat, n: nat)
    requires n <= size
    ensures SumTo(seq(size, _ => 0), n) == 0
  {
    if n > 0 {
      SumOfNone(size, n - 1);
    }
  }
}
