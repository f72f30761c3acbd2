/** Where the blocks go over a run: exactly what leaks, and how many free blocks are enough
    for a run that loses nothing. */
module FsBudget {
  import opened Machine
  import opened FsLayout
  import opened FsEntries
  import opened FsTree
  import opened FsFiles
  import opened FsAccount
  import opened FsCosts
  import opened FsRuns

  // ---- every inode has the blocks its content needs -------------------------------------------------

  /** Each directory and file holds at least the blocks its content needs. */
  ghost predicate Covered(s: Session)
    requires Sized(s)
  {
    forall i :: 0 <= i < SIMPLEFS_MAX_INODES ==>
      DirBlocks(|s.fs.dirs[i]|) <= s.account.own[i] && NeededBlocks(|s.fs.files[i]|) <= s.account.own[i]
  }

  /** The session is one a volume can have. */
  ghost predicate InOrder(s: Session) {
    Sized(s) && Shape(s.fs) && Covered(s)
  }

  lemma {:induction false} FreshIsInOrder()
    ensures InOrder(FreshSession())
  {
  }

  lemma {:induction false} CreateKeepsOrder(s: Session, name: CString)
    requires InOrder(s)
    ensures InOrder(Step(s, CreateCall(name)))
  {
    hide Lookup, FirstFree, ValidName, NeededBlocks, Find;
    NoBlocksForNothing();
  }

  lemma {:induction false} NoBlocksForNothing()
    ensures NeededBlocks(0) == 0 && DirBlocks(0) == 0 && DirBlocks(2) == 1 && DirBlocks(3) == 1
  {
  }

  lemma {:induction false} MakeDirKeepsOrder(s: Session, name: CString)
    requires InOrder(s)
    ensures InOrder(Step(s, MakeDirCall(name)))
  {
    hide Lookup, ValidName, NeededBlocks, DirBlocks, Find, FirstFree;
    NoBlocksForNothing();
    if CanAdd(s.fs, name) {
      CanAddIsFree(s.fs, name);
    }
  }

  lemma {:induction false} DropKeepsOrder(s: Session, slot: nat)
    requires InOrder(s) && slot < |s.fs.dirs[s.fs.cwd]| && s.fs.dirs[s.fs.cwd][slot].inode < SIMPLEFS_MAX_INODES
    requires s.fs.kinds[s.fs.cwd].Directory?
    ensures InOrder(s.(fs := Dropped(s.fs, slot), account := DropCost(s.fs, s.account, slot)))
  {
    hide NeededBlocks;
    NoBlocksForNothing();
    FewerBytes(ENTRY_SIZE * (|s.fs.dirs[s.fs.cwd]| - 1), ENTRY_SIZE * |s.fs.dirs[s.fs.cwd]|);
  }

  lemma {:induction false} FewerBytes(m: nat, n: nat)
    requires m <= n
    ensures NeededBlocks(m) <= NeededBlocks(n)
  {
  }

  lemma {:induction false} StoreKeepsOrder(s: Session, i: nat, data: seq<Byte>)
    requires InOrder(s) && i < SIMPLEFS_MAX_INODES && s.fs.kinds[i].Regular?
    ensures var n := NeededBlocks(|data|);
            InOrder(s.(fs := Stored(s.fs, i, data, Fits(s.account, i, n)), account := Rewrite(s.account, i, n)))
  {
    hide NeededBlocks;
    NoBlocksForNothing();
  }

  lemma {:induction false} WriteKeepsOrder(s: Session, name: CString, data: seq<Byte>)
    requires InOrder(s)
    ensures InOrder(WriteStep(s, name, data).after)
  {
    hide InOrder, Lookup, FirstFree, ValidName, NeededBlocks, Find, Covered;
    CreateKeepsOrder(s, name);
    InOrderIs(s);
    var made := Step(s, CreateCall(name));
    if CanAdd(s.fs, name) && EntryFits(s.fs, s.account) {
      StoreKeepsOrder(made, FirstFree(s.fs.kinds, 0), data);
    } else if Names(s.fs, name, Regular) {
      StoreKeepsOrder(s, s.fs.dirs[s.fs.cwd][Lookup(s.fs, name)].inode, data);
    }
  }

  lemma {:induction false} InOrderIs(s: Session)
    requires InOrder(s)
    ensures Sized(s) && Shape(s.fs) && Covered(s)
  {
  }

  /** Every call keeps a session in order. */
  lemma {:induction false} StepKeepsOrder(s: Session, c: Call)
    requires InOrder(s)
    ensures InOrder(Step(s, c))
  {
    hide Lookup, FirstFree, ValidName, NeededBlocks, Find, Covered, Create, MakeDirAnywhere, WriteFile, Splice, Slice, DropCost, Dropped;
    match c
    case FormatCall => FreshIsInOrder();
    case CreateCall(name) => CreateKeepsOrder(s, name);
    case MakeDirCall(name) => MakeDirKeepsOrder(s, name);
    case DeleteCall(name) =>
      if Names(s.fs, name, Regular) {
        DropKeepsOrder(s, Lookup(s.fs, name));
      }
    case RemoveDirCall(name) =>
      if CanRemoveDir(s.fs, name) {
        DropKeepsOrder(s, Lookup(s.fs, name));
      }
    case WriteCall(name, data) => WriteKeepsOrder(s, name, data);
    case AppendCall(name, data) => WriteKeepsOrder(s, name, AppendedData(s.fs, name, data));
    case WriteFdCall(fd, data) =>
      if IsOpen(s, fd) && s.open[fd].offset + |data| <= SIMPLEFS_MAX_FILE_SIZE {
        var i, after := s.open[fd].inode, Splice(s.fs.files[s.open[fd].inode], s.open[fd].offset, data);
        StoreKeepsOrder(s, i, after);
        MovedInOrder(s.(fs := Stored(s.fs, i, after, Fits(s.account, i, NeededBlocks(|after|))),
                        account := Rewrite(s.account, i, NeededBlocks(|after|))), Step(s, c));
      }
    case _ => MovedInOrder(s, Step(s, c));
  }

  /** Where the current directory is and what is open does not matter. */
  lemma {:induction false} MovedInOrder(s: Session, t: Session)
    requires InOrder(s) && Sized(t) && t.fs == s.fs.(cwd := t.fs.cwd) && t.account == s.account
    ensures InOrder(t)
  {
  }

  // ---- what leaks ----------------------------------------------------------------------------

  ghost function LostByEntry(fs: Fs, a: Account): nat
    requires fs.cwd < |fs.dirs| == |a.own|
  {
    if EntryFits(fs, a) then 0 else Leak(a.free + a.own[fs.cwd])
  }

  ghost function LostByRewrite(a: Account, i: nat, size: nat): nat
    requires i < |a.own|
  {
    if Fits(a, i, NeededBlocks(size)) then 0 else Leak(a.free + a.own[i])
  }

  ghost function LostByWrite(s: Session, name: CString, size: nat): nat
    requires Sized(s)
  {
    if !ValidName(name) || size > SIMPLEFS_MAX_FILE_SIZE then 0
    else if CanAdd(s.fs, name) then
      if EntryFits(s.fs, s.account) then LostByRewrite(Entering(s.fs, s.account), FirstFree(s.fs.kinds, 0), size)
      else LostByEntry(s.fs, s.account)
    else if Names(s.fs, name, Regular) then LostByRewrite(s.account, s.fs.dirs[s.fs.cwd][Lookup(s.fs, name)].inode, size)
    else 0
  }

  /** The blocks a call loses: those its rewrite leaves marked when it runs out. */
  ghost function Lost(s: Session, c: Call): nat
    requires Sized(s)
  {
    match c
    case CreateCall(name) => if CanAdd(s.fs, name) then LostByEntry(s.fs, s.account) else 0
    case MakeDirCall(name) =>
      if CanAdd(s.fs, name) && ChildFits(s.account) then LostByEntry(s.fs, WithChild(s.account, FirstFree(s.fs.kinds, 0))) else 0
    case WriteCall(name, data) => LostByWrite(s, name, |data|)
    case AppendCall(name, data) =>
      if CanAppendFile(s.fs, name, data) then LostByWrite(s, name, |AppendedData(s.fs, name, data)|) else 0
    case WriteFdCall(fd, data) =>
      if !IsOpen(s, fd) || s.open[fd].offset + |data| > SIMPLEFS_MAX_FILE_SIZE then 0
      else LostByRewrite(s.account, s.open[fd].inode, |Splice(s.fs.files[s.open[fd].inode], s.open[fd].offset, data)|)
    case _ => 0
  }

  lemma {:induction false} DropKeepsTotal(s: Session, slot: nat)
    requires Sized(s) && slot < |s.fs.dirs[s.fs.cwd]| && s.fs.dirs[s.fs.cwd][slot].inode < SIMPLEFS_MAX_INODES
    requires Covered(s)
    ensures Total(DropCost(s.fs, s.account, slot)) == Total(s.account)
  {
    var n := |s.fs.dirs[s.fs.cwd]|;
    RewriteTotal(s.account, s.fs.cwd, DirBlocks(n - 1));
    ReleaseTotal(Rewrite(s.account, s.fs.cwd, DirBlocks(n - 1)), s.fs.dirs[s.fs.cwd][slot].inode);
  }

  lemma {:induction false} MakeDirLoses(s: Session, name: CString)
    requires Sized(s)
    ensures Total(MakeDirCost(s.fs, s.account, name)) + Lost(s, MakeDirCall(name)) == Total(s.account)
  {
    hide Total, Lookup, FirstFree, DirBlocks;
    var fs, a, i := s.fs, s.account, FirstFree(s.fs.kinds, 0);
    if ChildFits(a) && i < SIMPLEFS_MAX_INODES {
      RewriteTotal(a, i, DirBlocks(2));
      var b := Entering(fs, WithChild(a, i));
      RewriteTotal(WithChild(a, i), fs.cwd, DirBlocks(|fs.dirs[fs.cwd]| + 1));
      ReleaseTotal(b, i);
    }
  }

  lemma {:induction false} WriteLoses(s: Session, name: CString, size: nat)
    requires Sized(s)
    ensures Total(WriteCost(s.fs, s.account, name, size)) + LostByWrite(s, name, size) == Total(s.account)
  {
    hide Total, Lookup, FirstFree, DirBlocks, NeededBlocks;
    var fs, a := s.fs, s.account;
    if CanAdd(fs, name) {
      RewriteTotal(a, fs.cwd, DirBlocks(|fs.dirs[fs.cwd]| + 1));
      RewriteTotal(Entering(fs, a), FirstFree(fs.kinds, 0), NeededBlocks(size));
    } else if Names(fs, name, Regular) {
      RewriteTotal(a, fs.dirs[fs.cwd][Lookup(fs, name)].inode, NeededBlocks(size));
    }
  }

  /** A call other than a format keeps every block free or owned, but for what it loses. */
  lemma {:induction false} StepLosesExactly(s: Session, c: Call)
    requires Sized(s) && Covered(s) && !c.FormatCall?
    ensures Total(Step(s, c).account) + Lost(s, c) == Total(s.account)
  {
    hide Total, Splice, Slice, Lookup, FirstFree, Covered, LostByWrite, WriteCost, MakeDirCost, DropCost, NeededBlocks, DirBlocks;
    match c
    case CreateCall(name) => RewriteTotal(s.account, s.fs.cwd, DirBlocks(|s.fs.dirs[s.fs.cwd]| + 1));
    case MakeDirCall(name) => MakeDirLoses(s, name);
    case DeleteCall(name) =>
      if Names(s.fs, name, Regular) {
        DropKeepsTotal(s, Lookup(s.fs, name));
      }
    case RemoveDirCall(name) =>
      if CanRemoveDir(s.fs, name) {
        DropKeepsTotal(s, Lookup(s.fs, name));
      }
    case WriteCall(name, data) => WriteLoses(s, name, |data|);
    case AppendCall(name, data) => WriteLoses(s, name, |AppendedData(s.fs, name, data)|);
    case WriteFdCall(fd, data) =>
      if IsOpen(s, fd) {
        var h := s.open[fd];
        RewriteTotal(s.account, h.inode, NeededBlocks(|Splice(s.fs.files[h.inode], h.offset, data)|));
      }
    case _ =>
  }

  ghost function LostOver(s: Session, calls: seq<Call>): nat
    requires Sized(s)
    decreases |calls|
  {
    if calls == [] then 0 else Lost(s, calls[0]) + LostOver(Step(s, calls[0]), calls[1..])
  }

  /** Over any run without a format the blocks that are neither free nor owned grow by exactly
      what its calls lose. */
  lemma {:induction false} RunsLoseExactly(s: Session, calls: seq<Call>)
    requires InOrder(s) && forall i :: 0 <= i < |calls| ==> !calls[i].FormatCall?
    ensures InOrder(Run(s, calls)) && Total(Run(s, calls).account) + LostOver(s, calls) == Total(s.account)
    decreases |calls|
  {
    hide Total, Lost, Covered, Step, Shape;
    if calls != [] {
      StepKeepsOrder(s, calls[0]);
      InOrderIs(s);
      StepLosesExactly(s, calls[0]);
      RunsLoseExactly(Step(s, calls[0]), calls[1..]);
    }
  }

  // ---- how many free blocks are enough ---------------------------------------------------------------

  /** The blocks a call may take at most. */
  function Demand(c: Call): nat {
    match c
    case FormatCall => 1
    case CreateCall(_) => GrowthBy(ENTRY_SIZE)
    case MakeDirCall(_) => DirBlocks(2) + GrowthBy(ENTRY_SIZE)
    case WriteCall(_, data) => GrowthBy(ENTRY_SIZE) + GrowthBy(|data|)
    case AppendCall(_, data) => GrowthBy(ENTRY_SIZE) + GrowthBy(|data|)
    case WriteFdCall(_, _) => NeededBlocks(SIMPLEFS_MAX_FILE_SIZE)
    case _ => 0
  }

  /** What `n` more bytes may add to a file's blocks: their own, and an indirect block. */
  function GrowthBy(n: nat): nat {
    RequiredBlocks(n) + 1
  }

  lemma {:induction false} GrowsAtMost(m: nat, n: nat)
    ensures NeededBlocks(m + n) <= NeededBlocks(m) + GrowthBy(n)
  {
  }

  function DemandOver(calls: seq<Call>): nat {
    if calls == [] then 0 else Demand(calls[0]) + DemandOver(calls[1..])
  }

  /** No call of the run is a `rmdir .` in an empty directory below the root. */
  ghost predicate NeverRemovesHere(s: Session, calls: seq<Call>)
    requires Sized(s)
    decreases |calls|
  {
    calls != [] ==> !RemovesHere(s.fs, calls[0]) && NeverRemovesHere(Step(s, calls[0]), calls[1..])
  }

  /** A rewrite of inode `i` by `n` bytes more than `m`, which it has the blocks for. */
  lemma {:induction false} GrowthFits(a: Account, i: nat, m: nat, n: nat)
    requires i < |a.own| && NeededBlocks(m) <= a.own[i] && GrowthBy(n) <= a.free
    ensures Fits(a, i, NeededBlocks(m + n)) && Rewrite(a, i, NeededBlocks(m + n)).free >= a.free - GrowthBy(n)
  {
    GrowsAtMost(m, n);
  }

  lemma {:induction false} EntryProvided(s: Session, a: Account)
    requires InOrder(s) && |a.own| == SIMPLEFS_MAX_INODES && a.own[s.fs.cwd] >= s.account.own[s.fs.cwd] && GrowthBy(ENTRY_SIZE) <= a.free
    ensures EntryFits(s.fs, a) && Entering(s.fs, a).free >= a.free - GrowthBy(ENTRY_SIZE)
  {
    var n := |s.fs.dirs[s.fs.cwd]|;
    GrowthFits(a, s.fs.cwd, ENTRY_SIZE * n, ENTRY_SIZE);
    assert ENTRY_SIZE * n + ENTRY_SIZE == ENTRY_SIZE * (n + 1);
  }

  lemma {:induction false} MakeDirProvided(s: Session, name: CString)
    requires InOrder(s) && Demand(MakeDirCall(name)) <= s.account.free
    ensures ChildFits(s.account) && (CanAdd(s.fs, name) ==> ParentFits(s.fs, s.account)) && Lost(s, MakeDirCall(name)) == 0
    ensures MakeDirCost(s.fs, s.account, name).free >= s.account.free - Demand(MakeDirCall(name))
  {
    hide NeededBlocks, DirBlocks, RequiredBlocks, FirstFree, Lookup, ValidName, Covered;
    var i := FirstFree(s.fs.kinds, 0);
    if CanAdd(s.fs, name) {
      CanAddIsFree(s.fs, name);
      EntryProvided(s, WithChild(s.account, i));
    }
  }

  lemma {:induction false} CanAddIsFree(fs: Fs, name: CString)
    requires Shape(fs) && CanAdd(fs, name)
    ensures FirstFree(fs.kinds, 0) != fs.cwd && FirstFree(fs.kinds, 0) < SIMPLEFS_MAX_INODES
  {
  }

  lemma {:induction false} WriteProvided(s: Session, name: CString, m: nat, n: nat)
    requires InOrder(s) && GrowthBy(ENTRY_SIZE) + GrowthBy(n) <= s.account.free
    requires CanAdd(s.fs, name) ==> m == 0
    requires Names(s.fs, name, Regular) ==> m <= |s.fs.files[s.fs.dirs[s.fs.cwd][Lookup(s.fs, name)].inode]|
    ensures CanAdd(s.fs, name) ==> EntryFits(s.fs, s.account)
    ensures LostByWrite(s, name, m + n) == 0
    ensures WriteCost(s.fs, s.account, name, m + n).free >= s.account.free - GrowthBy(ENTRY_SIZE) - GrowthBy(n)
  {
    hide NeededBlocks, DirBlocks, RequiredBlocks, FirstFree, Lookup, ValidName, Find;
    var i := FirstFree(s.fs.kinds, 0);
    if CanAdd(s.fs, name) {
      CanAddIsFree(s.fs, name);
      EntryProvided(s, s.account);
      NoBlocksForNothing();
      GrowthFits(Entering(s.fs, s.account), i, m, n);
    } else if Names(s.fs, name, Regular) {
      var f := s.fs.dirs[s.fs.cwd][Lookup(s.fs, name)].inode;
      FewerBytes(m, |s.fs.files[f]|);
      GrowthFits(s.account, f, m, n);
    }
  }

  lemma {:induction false} WriteFdProvided(s: Session, fd: nat, data: seq<Byte>)
    requires InOrder(s) && NeededBlocks(SIMPLEFS_MAX_FILE_SIZE) <= s.account.free
    ensures Lost(s, WriteFdCall(fd, data)) == 0
    ensures WriteFdStep(s, fd, data).after.account.free >= s.account.free - NeededBlocks(SIMPLEFS_MAX_FILE_SIZE)
  {
    hide NeededBlocks, Splice, Leak;
    if IsOpen(s, fd) && s.open[fd].offset + |data| <= SIMPLEFS_MAX_FILE_SIZE {
      var old_ := s.fs.files[s.open[fd].inode];
      var after := Splice(old_, s.open[fd].offset, data);
      if |after| > |old_| {
        FewerBytes(|after|, SIMPLEFS_MAX_FILE_SIZE);
      }
    }
  }

  lemma {:induction false} DropProvided(s: Session, slot: nat)
    requires InOrder(s) && slot < |s.fs.dirs[s.fs.cwd]| && s.fs.dirs[s.fs.cwd][slot].inode < SIMPLEFS_MAX_INODES
    ensures DropCost(s.fs, s.account, slot).free >= s.account.free
  {
    FewerBytes(ENTRY_SIZE * (|s.fs.dirs[s.fs.cwd]| - 1), ENTRY_SIZE * |s.fs.dirs[s.fs.cwd]|);
  }

  /** With its demand free a call finds its blocks: it loses no entries and no block. */
  lemma {:induction false} ProvidedStep(s: Session, c: Call)
    requires InOrder(s) && Total(s.account) <= SIMPLEFS_DATA_BLOCKS && Demand(c) <= s.account.free
    ensures Sized(s) && (Breaks(s, c) <==> RemovesHere(s.fs, c))
    ensures Lost(s, c) == 0 && Step(s, c).account.free >= s.account.free - Demand(c)
  {
    hide Covered, Shape, SumTo, FirstFree, Lookup, ValidName, Find, WriteCost, MakeDirCost, DropCost, LostByWrite, Splice, Slice, EntryFits,
         ParentFits, Create, MakeDirAnywhere, WriteFile, Delete, RemoveDir, ChangeDir, WriteFdStep, NeededBlocks, RequiredBlocks, WithChild;
    match c
    case CreateCall(name) => EntryProvided(s, s.account);
    case MakeDirCall(name) => MakeDirProvided(s, name);
    case DeleteCall(name) =>
      if Names(s.fs, name, Regular) {
        DropProvided(s, Lookup(s.fs, name));
      }
    case RemoveDirCall(name) =>
      if CanRemoveDir(s.fs, name) {
        DropProvided(s, Lookup(s.fs, name));
      }
    case WriteCall(name, data) => WriteProvided(s, name, 0, |data|);
    case AppendCall(name, data) => AppendProvided(s, name, data);
    case WriteFdCall(fd, data) => WriteFdProvided(s, fd, data);
    case _ =>
  }

  lemma {:induction false} AppendProvided(s: Session, name: CString, data: seq<Byte>)
    requires InOrder(s) && GrowthBy(ENTRY_SIZE) + GrowthBy(|data|) <= s.account.free
    ensures var whole := AppendedData(s.fs, name, data);
            && LostByWrite(s, name, |whole|) == 0
            && WriteCost(s.fs, s.account, name, |whole|).free >= s.account.free - GrowthBy(ENTRY_SIZE) - GrowthBy(|data|)
    ensures CanAdd(s.fs, name) ==> EntryFits(s.fs, s.account)
  {
    hide NeededBlocks, DirBlocks, RequiredBlocks, FirstFree, ValidName, Find, WriteCost, LostByWrite, Covered;
    WriteProvided(s, name, |AppendedData(s.fs, name, data)| - |data|, |data|);
  }

  /** With the demand of a whole run free, nothing but `rmdir .` breaks the tree, and no block
      is lost. */
  lemma {:induction false} ProvidedRun(s: Session, calls: seq<Call>)
    requires InOrder(s) && Total(s.account) <= SIMPLEFS_DATA_BLOCKS && DemandOver(calls) <= s.account.free
    ensures Unbroken(s, calls) <==> NeverRemovesHere(s, calls)
    ensures LostOver(s, calls) == 0 && (Total(s.account) == SIMPLEFS_DATA_BLOCKS ==> Total(Run(s, calls).account) == SIMPLEFS_DATA_BLOCKS)
    ensures IsTree(s.fs) && NeverRemovesHere(s, calls) ==> IsTree(Run(s, calls).fs)
    decreases |calls|
  {
    hide Total, Lost, Covered, Step, Shape, Breaks, RemovesHere, Demand, IsTree;
    if calls != [] {
      ProvidedStep(s, calls[0]);
      StepKeepsOrder(s, calls[0]);
      StepKeepsTotal(s, calls[0]);
      InOrderIs(s);
      ProvidedRun(Step(s, calls[0]), calls[1..]);
      if IsTree(s.fs) {
        StepKeepsTreeExactly(s, calls[0]);
      }
    }
  }

  lemma {:induction false} StepKeepsTotal(s: Session, c: Call)
    requires InOrder(s) && Total(s.account) <= SIMPLEFS_DATA_BLOCKS
    ensures Sized(s) && Total(Step(s, c).account) <= SIMPLEFS_DATA_BLOCKS
    ensures Total(s.account) == SIMPLEFS_DATA_BLOCKS && Lost(s, c) == 0 ==> Total(Step(s, c).account) == SIMPLEFS_DATA_BLOCKS
  {
    hide Total, Lost, Covered, Shape, FormattedAccount;
    FreshAccount();
    if !c.FormatCall? {
      StepLosesExactly(s, c);
    }
  }
}
