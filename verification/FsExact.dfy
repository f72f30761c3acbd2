/** From a formatted volume on, every inode holds exactly the blocks its content needs: what
    is neither free nor needed has leaked. */
module FsExact {
  import opened Machine
  import opened FsLayout
  import opened FsEntries
  import opened FsTree
  import opened FsFiles
  import opened FsAccount
  import opened FsCosts
  import opened FsRuns
  import opened FsBudget

  /** A free inode holds nothing; a directory or file holds what its content needs. */
  ghost predicate Exact(s: Session)
    requires Sized(s)
  {
    forall i :: 0 <= i < SIMPLEFS_MAX_INODES ==> s.account.own[i] == Holds(s.fs, i)
  }

  /** The blocks of an inode's content: 32 bytes for each entry, or the bytes of the file;
      one block for each 512 bytes begun, and one more from the seventh on. */
  function Holds(fs: Fs, i: nat): nat
    requires i < |fs.kinds| == |fs.dirs| == |fs.files|
  {
    match fs.kinds[i]
    case FreeInode => 0
    case Directory => BlocksFor(32 * |fs.dirs[i]|)
    case Regular => BlocksFor(|fs.files[i]|)
  }

  function BlocksFor(size: nat): nat {
    var n := (size + 511) / 512;
    if n > 6 then n + 1 else n
  }

  lemma {:induction false} BlocksAreNeeded(size: nat)
    ensures NeededBlocks(size) == BlocksFor(size) && DirBlocks(size) == BlocksFor(32 * size)
  {
  }

  ghost predicate Good(s: Session) {
    InOrder(s) && Exact(s)
  }

  lemma {:induction false} FreshIsExact()
    ensures Good(FreshSession())
  {
    FreshIsInOrder();
  }

  lemma {:induction false} CreateKeepsExact(s: Session, name: CString)
    requires Good(s)
    ensures Good(Step(s, CreateCall(name)))
  {
    hide Lookup, FirstFree, ValidName, NeededBlocks, Find, BlocksFor, DirBlocks, Covered;
    CreateKeepsOrder(s, name);
    NothingForNothing();
    BlocksAreNeeded(|s.fs.dirs[s.fs.cwd]| + 1);
  }

  lemma {:induction false} NothingForNothing()
    ensures BlocksFor(0) == 0 && BlocksFor(64) == 1 && BlocksFor(96) == 1
  {
  }

  lemma {:induction false} MakeDirKeepsExact(s: Session, name: CString)
    requires Good(s)
    ensures Good(Step(s, MakeDirCall(name)))
  {
    hide Lookup, ValidName, NeededBlocks, DirBlocks, Find, FirstFree, BlocksFor, Covered;
    MakeDirKeepsOrder(s, name);
    NothingForNothing();
    BlocksAreNeeded(2);
    BlocksAreNeeded(|s.fs.dirs[s.fs.cwd]| + 1);
    if CanAdd(s.fs, name) {
      CanAddIsFree(s.fs, name);
    }
  }

  lemma {:induction false} DropKeepsExact(s: Session, slot: nat)
    requires Good(s) && slot < |s.fs.dirs[s.fs.cwd]| && s.fs.dirs[s.fs.cwd][slot].inode < SIMPLEFS_MAX_INODES
    requires s.fs.kinds[s.fs.cwd].Directory?
    ensures Good(s.(fs := Dropped(s.fs, slot), account := DropCost(s.fs, s.account, slot)))
  {
    hide NeededBlocks, BlocksFor;
    DropKeepsOrder(s, slot);
    BlocksAreNeeded(|s.fs.dirs[s.fs.cwd]| - 1);
    BlocksAreNeeded(|s.fs.dirs[s.fs.cwd]|);
    FewerBytes(ENTRY_SIZE * (|s.fs.dirs[s.fs.cwd]| - 1), ENTRY_SIZE * |s.fs.dirs[s.fs.cwd]|);
  }

  lemma {:induction false} StoreKeepsExact(s: Session, i: nat, data: seq<Byte>)
    requires Good(s) && i < SIMPLEFS_MAX_INODES && s.fs.kinds[i].Regular?
    ensures var n := NeededBlocks(|data|);
            Good(s.(fs := Stored(s.fs, i, data, Fits(s.account, i, n)), account := Rewrite(s.account, i, n)))
  {
    hide NeededBlocks, BlocksFor;
    StoreKeepsOrder(s, i, data);
    NothingForNothing();
    BlocksAreNeeded(|data|);
  }

  lemma {:induction false} WriteKeepsExact(s: Session, name: CString, data: seq<Byte>)
    requires Good(s)
    ensures Good(WriteStep(s, name, data).after)
  {
    hide Good, Lookup, FirstFree, ValidName, NeededBlocks, Find;
    CreateKeepsExact(s, name);
    GoodIs(s);
    var made := Step(s, CreateCall(name));
    if CanAdd(s.fs, name) && EntryFits(s.fs, s.account) {
      StoreKeepsExact(made, FirstFree(s.fs.kinds, 0), data);
    } else if Names(s.fs, name, Regular) {
      StoreKeepsExact(s, s.fs.dirs[s.fs.cwd][Lookup(s.fs, name)].inode, data);
    }
  }

  lemma {:induction false} GoodIs(s: Session)
    requires Good(s)
    ensures Sized(s) && Shape(s.fs)
  {
  }

  lemma {:induction false} StepKeepsExact(s: Session, c: Call)
    requires Good(s)
    ensures Good(Step(s, c))
  {
    hide Lookup, FirstFree, ValidName, NeededBlocks, Find, Covered, Create, MakeDirAnywhere, WriteFile, Splice, Slice, DropCost, Dropped, Exact;
    match c
    case FormatCall => FreshIsExact();
    case CreateCall(name) => CreateKeepsExact(s, name);
    case MakeDirCall(name) => MakeDirKeepsExact(s, name);
    case DeleteCall(name) =>
      if Names(s.fs, name, Regular) {
        DropKeepsExact(s, Lookup(s.fs, name));
      }
    case RemoveDirCall(name) =>
      if CanRemoveDir(s.fs, name) {
        DropKeepsExact(s, Lookup(s.fs, name));
      }
    case WriteCall(name, data) => WriteKeepsExact(s, name, data);
    case AppendCall(name, data) => WriteKeepsExact(s, name, AppendedData(s.fs, name, data));
    case WriteFdCall(fd, data) =>
      if IsOpen(s, fd) && s.open[fd].offset + |data| <= SIMPLEFS_MAX_FILE_SIZE {
        var i, after := s.open[fd].inode, Splice(s.fs.files[s.open[fd].inode], s.open[fd].offset, data);
        StoreKeepsExact(s, i, after);
        MovedIsExact(s.(fs := Stored(s.fs, i, after, Fits(s.account, i, NeededBlocks(|after|))),
                        account := Rewrite(s.account, i, NeededBlocks(|after|))), Step(s, c));
      }
    case _ => MovedIsExact(s, Step(s, c));
  }

  lemma {:induction false} MovedIsExact(s: Session, t: Session)
    requires Good(s) && Sized(t) && t.fs == s.fs.(cwd := t.fs.cwd) && t.account == s.account
    ensures Good(t)
  {
    MovedInOrder(s, t);
  }

  ghost function HeldByAll(fs: Fs, n: nat): nat
    requires n <= |fs.kinds| == |fs.dirs| == |fs.files|
  {
    if n == 0 then 0 else HeldByAll(fs, n - 1) + Holds(fs, n - 1)
  }

  lemma {:induction false} SumIsHeld(s: Session, n: nat)
    requires Good(s) && n <= SIMPLEFS_MAX_INODES
    ensures SumTo(s.account.own, n) == HeldByAll(s.fs, n)
  {
    hide InOrder, Holds;
    InOrderIs(s);
    if n > 0 {
      SumIsHeld(s, n - 1);
    }
  }

  /** On a volume that was formatted and then used, the free blocks are all those that neither
      the contents need nor the calls have lost. */
  lemma {:induction false} FreeBlocksExactly(calls: seq<Call>)
    requires forall i :: 0 <= i < |calls| ==> !calls[i].FormatCall?
    ensures var s := Run(FreshSession(), calls);
            s.account.free + HeldByAll(s.fs, SIMPLEFS_MAX_INODES) + LostOver(FreshSession(), calls) == 2048
  {
    hide InOrder, Exact, Step;
    FreshIsExact();
    FreshAccount();
    RunsKeepExact(FreshSession(), calls);
    RunsLoseExactly(FreshSession(), calls);
    SumIsHeld(Run(FreshSession(), calls), SIMPLEFS_MAX_INODES);
  }

  lemma {:induction false} RunsKeepExact(s: Session, calls: seq<Call>)
    requires Good(s)
    ensures Good(Run(s, calls))
    decreases |calls|
  {
    hide Good, Step;
    GoodIs(s);
    if calls != [] {
      StepKeepsExact(s, calls[0]);
      RunsKeepExact(Step(s, calls[0]), calls[1..]);
    }
  }
}
