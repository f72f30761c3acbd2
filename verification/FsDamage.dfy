/** Runs of accepted calls, from a fresh volume, that damage the tree. */
module FsDamage {
  import opened Machine
  import opened FsLayout
  import opened FsEntries
  import opened FsTree
  import opened FsFiles
  import opened FsAccount
  import opened FsCosts
  import opened FsRuns
  import opened FsBudget

  function Letter(k: nat): CString {
    [97 + (k % 26)]
  }

  lemma {:induction false} RunThen(s: Session, calls: seq<Call>, c: Call)
    requires Sized(s)
    ensures Run(s, calls + [c]) == Step(Run(s, calls), c)
    decreases |calls|
  {
    if calls == [] {
      assert [c][1..] == [];
      assert Run(Step(s, c), []) == Step(s, c);
      assert calls + [c] == [c];
    } else {
      assert (calls + [c])[1..] == calls[1..] + [c];
      RunThen(Step(s, calls[0]), calls[1..], c);
    }
  }

  // ---- filling a volume -------------------------------------------------------------------------

  /** The session is a tree whose current directory has `n` entries in one block, the ordinary
      ones with the first `k` letters as names; inodes from `i` on are free, and `free` blocks. */
  ghost predicate Filling(s: Session, n: nat, k: nat, i: nat, free: nat) {
    && InOrder(s) && IsTree(s.fs)
    && |s.fs.dirs[s.fs.cwd]| == n && s.account.own[s.fs.cwd] == 1 && s.account.free == free
    && (forall j :: 0 <= j < SIMPLEFS_MAX_INODES ==> (s.fs.kinds[j].FreeInode? <==> j >= i))
    && (forall j :: i <= j < SIMPLEFS_MAX_INODES ==> s.account.own[j] == 0)
    && forall e :: 0 <= e < n ==> NameBelow(s.fs.dirs[s.fs.cwd][e].name, k)
  }

  predicate NameBelow(name: CString, k: nat) {
    name == DOT || name == DOT_DOT || (|name| == 1 && 97 <= name[0] < 97 + k)
  }

  /** What filling the current directory leaves of the others. */
  ghost predicate OthersStay(s: Session, t: Session) {
    && Sized(s) && Sized(t) && t.fs.cwd == s.fs.cwd
    && forall d :: 0 <= d < SIMPLEFS_MAX_INODES && d != s.fs.cwd && !s.fs.kinds[d].FreeInode? ==>
         t.fs.dirs[d] == s.fs.dirs[d] && t.account.own[d] == s.account.own[d] && t.fs.kinds[d] == s.fs.kinds[d]
  }

  lemma {:induction false} NewLetter(s: Session, n: nat, k: nat, i: nat, free: nat)
    requires Filling(s, n, k, i, free) && k < 26 && i < SIMPLEFS_MAX_INODES && n < 16
    ensures CanAdd(s.fs, Letter(k)) && FirstFree(s.fs.kinds, 0) == i != s.fs.cwd && EntryFits(s.fs, s.account)
    ensures s.fs.kinds[s.fs.cwd].Directory?
  {
    hide Find, NeededBlocks, Covered, IsTree, DirBlocks;
    NothingToRevive(s.fs, Letter(k));
    assert s.fs.kinds[i].FreeInode? && !s.fs.kinds[s.fs.cwd].FreeInode?;
    forall e | 0 <= e < n ensures !Matches(s.fs.dirs[s.fs.cwd][e], Letter(k)) {
      assert NameBelow(s.fs.dirs[s.fs.cwd][e].name, k);
    }
    OneBlock(n + 1);
  }

  /** Writing a new file with enough blocks free. */
  lemma {:induction false} WriteNew(s: Session, n: nat, k: nat, i: nat, free: nat, data: seq<Byte>)
    requires Filling(s, n, k, i, free) && k < 26 && i < SIMPLEFS_MAX_INODES && n < 16
    requires |data| <= SIMPLEFS_MAX_FILE_SIZE && NeededBlocks(|data|) <= free
    ensures var t := Step(s, WriteCall(Letter(k), data));
            Filling(t, n + 1, k + 1, i + 1, free - NeededBlocks(|data|)) && OthersStay(s, t)
  {
    hide NeededBlocks, IsTree, Find, FirstFree, Lookup, InOrder;
    var c := WriteCall(Letter(k), data);
    InOrderIs(s);
    NewLetter(s, n, k, i, free);
    StepKeepsOrder(s, c);
    StepKeepsTreeExactly(s, c);
    WriteNewIs(s, n, k, i, free, data);
  }

  lemma {:induction false} WriteNewIs(s: Session, n: nat, k: nat, i: nat, free: nat, data: seq<Byte>)
    requires Filling(s, n, k, i, free) && k < 26 && i < SIMPLEFS_MAX_INODES && n < 16
    requires |data| <= SIMPLEFS_MAX_FILE_SIZE && NeededBlocks(|data|) <= free
    ensures var t, d := Step(s, WriteCall(Letter(k), data)), s.fs.cwd;
            && i != d && t.fs.cwd == d && t.fs.kinds == s.fs.kinds[i := Regular] && s.fs.kinds[d].Directory?
            && t.fs.dirs == s.fs.dirs[i := []][d := s.fs.dirs[d] + [Entry(i, Letter(k))]]
            && t.account == Account(free - NeededBlocks(|data|), s.account.own[i := NeededBlocks(|data|)])
  {
    hide NeededBlocks, IsTree, Find, FirstFree, Lookup, Covered;
    NewLetter(s, n, k, i, free);
    OneBlock(n + 1);
    assert s.account.own[s.fs.cwd := 1] == s.account.own;
  }

  lemma {:induction false} OneBlock(n: nat)
    requires 0 < n <= 16
    ensures DirBlocks(n) == 1
  {
  }

  /** `mkdir` and `cd` into the new directory, with a block free. */
  lemma {:induction false} EnterNew(s: Session, n: nat, k: nat, i: nat, free: nat)
    requires Filling(s, n, k, i, free) && k < 26 && i < SIMPLEFS_MAX_INODES && n < 16 && free > 0
    ensures var t := Step(Step(s, MakeDirCall(Letter(k))), ChangeDirCall(Letter(k)));
            && Filling(t, 2, 0, i + 1, free - 1) && t.fs.cwd == i != s.fs.cwd
            && |t.fs.dirs[s.fs.cwd]| == n + 1 && t.account.own[s.fs.cwd] == s.account.own[s.fs.cwd] && t.fs.kinds[s.fs.cwd].Directory?
            && forall e :: 0 <= e < n + 1 ==> NameBelow(t.fs.dirs[s.fs.cwd][e].name, k + 1)
  {
    hide IsTree, Find, FirstFree, Lookup, InOrder;
    var make, enter := MakeDirCall(Letter(k)), ChangeDirCall(Letter(k));
    InOrderIs(s);
    NewLetter(s, n, k, i, free);
    StepKeepsOrder(s, make);
    MakeNewIs(s, n, k, i, free);
    StepKeepsTreeExactly(s, make);
    var made := Step(s, make);
    StepKeepsOrder(made, enter);
    StepKeepsTreeExactly(made, enter);
    FoundLast(made.fs, s.fs.dirs[s.fs.cwd], k, i);
  }

  lemma {:induction false} MakeNewIs(s: Session, n: nat, k: nat, i: nat, free: nat)
    requires Filling(s, n, k, i, free) && k < 26 && i < SIMPLEFS_MAX_INODES && n < 16 && free > 0
    ensures var t, d := Step(s, MakeDirCall(Letter(k))), s.fs.cwd;
            && i != d && s.fs.kinds[d].Directory? && ChildFits(s.account) && ParentFits(s.fs, s.account)
            && t.fs.cwd == d && t.fs.kinds == s.fs.kinds[i := Directory]
            && t.fs.dirs == s.fs.dirs[i := NewDirectory(i, d)][d := s.fs.dirs[d] + [Entry(i, Letter(k))]]
            && t.account == Account(free - 1, s.account.own[i := 1])
  {
    hide NeededBlocks, IsTree, Find, FirstFree, Lookup, Covered;
    NewLetter(s, n, k, i, free);
    NothingToRevive(s.fs, Letter(k));
    OneBlock(n + 1);
    OneBlock(2);
    assert s.account.own[i := 1][s.fs.cwd := 1] == s.account.own[i := 1];
  }

  /** The last entry of the current directory is the one its letter finds. */
  lemma {:induction false} FoundLast(fs: Fs, before: seq<Entry>, k: nat, i: nat)
    requires i < SIMPLEFS_MAX_INODES && fs.cwd < |fs.dirs| && fs.dirs[fs.cwd] == before + [Entry(i, Letter(k))] && k < 26
    requires forall e :: 0 <= e < |before| ==> NameBelow(before[e].name, k)
    ensures Lookup(fs, Letter(k)) == |before|
  {
    forall e | 0 <= e < |before| ensures !Matches(fs.dirs[fs.cwd][e], Letter(k)) {
      assert NameBelow(before[e].name, k);
    }
    assert Matches(fs.dirs[fs.cwd][|before|], Letter(k));
  }

  /** Files of the largest size, named by the first `k` letters. */
  function Writes(k: nat): seq<Call> {
    if k == 0 then [] else Writes(k - 1) + [WriteCall(Letter(k - 1), Zeros(SIMPLEFS_MAX_FILE_SIZE))]
  }

  lemma {:induction false} FreshIsFilling()
    ensures Filling(FreshSession(), 2, 0, 1, SIMPLEFS_DATA_BLOCKS - 1) && FreshSession().fs.cwd == SIMPLEFS_ROOT_INODE
  {
    hide IsTree, InOrder;
    FormattedIsTree();
    FreshIsInOrder();
  }

  lemma {:induction false} LargestFile()
    ensures NeededBlocks(SIMPLEFS_MAX_FILE_SIZE) == 135 && NeededBlocks(20 * SECTOR_SIZE) == 21
  {
  }

  lemma {:induction false} FillRoot(k: nat)
    requires k <= 13
    ensures var s := Run(FreshSession(), Writes(k));
            Filling(s, 2 + k, k, 1 + k, SIMPLEFS_DATA_BLOCKS - 1 - 135 * k) && s.fs.cwd == SIMPLEFS_ROOT_INODE
  {
    hide Filling, FreshSession, Step, NeededBlocks;
    if k == 0 {
      FreshIsFilling();
    } else {
      var before, full := Run(FreshSession(), Writes(k - 1)), Zeros(SIMPLEFS_MAX_FILE_SIZE);
      FillRoot(k - 1);
      LargestFile();
      RunThen(FreshSession(), Writes(k - 1), WriteCall(Letter(k - 1), full));
      WriteNew(before, 1 + k, k - 1, k, SIMPLEFS_DATA_BLOCKS - 1 - 135 * (k - 1), full);
    }
  }

  /** Thirteen files of the largest size in the root, then three in a directory below it: 20
      calls that fill the volume and the root directory's block, and end in the root. */
  function FillingCalls(): seq<Call> {
    Writes(13) + [MakeDirCall(Letter(13))] + [ChangeDirCall(Letter(13))]
    + [WriteCall(Letter(0), Zeros(SIMPLEFS_MAX_FILE_SIZE))] + [WriteCall(Letter(1), Zeros(SIMPLEFS_MAX_FILE_SIZE))]
    + [WriteCall(Letter(2), Zeros(20 * SECTOR_SIZE))] + [ChangeDirCall(SLASH)]
  }

  /** The root keeps its 16 entries while the directory below it fills. */
  ghost predicate RootFull(s: Session) {
    && Sized(s) && s.fs.cwd != SIMPLEFS_ROOT_INODE && s.fs.kinds[SIMPLEFS_ROOT_INODE].Directory?
    && |s.fs.dirs[SIMPLEFS_ROOT_INODE]| == 16 && s.account.own[SIMPLEFS_ROOT_INODE] == 1
    && forall e :: 0 <= e < 16 ==> NameBelow(s.fs.dirs[SIMPLEFS_ROOT_INODE][e].name, 14)
  }

  lemma {:induction false} StaysFull(s: Session, t: Session)
    requires RootFull(s) && OthersStay(s, t)
    ensures RootFull(t)
  {
  }

  lemma {:induction false} FillBelow(s: Session)
    requires Filling(s, 15, 13, 14, 292) && s.fs.cwd == SIMPLEFS_ROOT_INODE
    ensures var full := Zeros(SIMPLEFS_MAX_FILE_SIZE);
            var t := Step(Step(s, MakeDirCall(Letter(13))), ChangeDirCall(Letter(13)));
            var u := Step(Step(Step(t, WriteCall(Letter(0), full)), WriteCall(Letter(1), full)), WriteCall(Letter(2), Zeros(20 * SECTOR_SIZE)));
            RootFull(u) && Filling(u, 5, 3, 18, 0)
  {
    hide Filling, OthersStay, Step, RootFull;
    var full := Zeros(SIMPLEFS_MAX_FILE_SIZE);
    EnterNew(s, 15, 13, 14, 292);
    FillingIsSized(s, 15, 13, 14, 292);
    var t := Step(Step(s, MakeDirCall(Letter(13))), ChangeDirCall(Letter(13)));
    RootIsFull(s, t);
    WriteNew(t, 2, 0, 15, 291, full);
    var t1 := Step(t, WriteCall(Letter(0), full));
    StaysFull(t, t1);
    WriteNew(t1, 3, 1, 16, 156, full);
    var t2 := Step(t1, WriteCall(Letter(1), full));
    StaysFull(t1, t2);
    WriteNew(t2, 4, 2, 17, 21, Zeros(20 * SECTOR_SIZE));
    StaysFull(t2, Step(t2, WriteCall(Letter(2), Zeros(20 * SECTOR_SIZE))));
  }

  lemma {:induction false} FillingIsSized(s: Session, n: nat, k: nat, i: nat, free: nat)
    requires Filling(s, n, k, i, free)
    ensures Sized(s)
  {
  }

  lemma {:induction false} RootIsFull(s: Session, t: Session)
    requires Filling(s, 15, 13, 14, 292) && s.fs.cwd == SIMPLEFS_ROOT_INODE && Filling(t, 2, 0, 15, 291) && t.fs.cwd == 14
    requires |t.fs.dirs[s.fs.cwd]| == 16 && t.account.own[s.fs.cwd] == s.account.own[s.fs.cwd] && t.fs.kinds[s.fs.cwd].Directory?
    requires forall e :: 0 <= e < 16 ==> NameBelow(t.fs.dirs[s.fs.cwd][e].name, 14)
    ensures RootFull(t)
  {
  }

  /** On a fresh volume these 20 accepted calls leave no block free and the root directory's
      block full; then `create` fails, loses all of the root's entries and the tree. */
  lemma {:induction false} LosingEntriesHappens()
    ensures var s := Run(FreshSession(), FillingCalls());
            && IsTree(s.fs) && |s.fs.dirs[SIMPLEFS_ROOT_INODE]| == 16 && s.fs.cwd == SIMPLEFS_ROOT_INODE
            && Serve(s, CreateCall(Letter(25))).reply == Done(false)
            && var t := Step(s, CreateCall(Letter(25)));
               t.fs.dirs[SIMPLEFS_ROOT_INODE] == [] && !IsTree(t.fs)
  {
    hide Filling, RootFull, IsTree, Run, Writes, Step, Serve;
    var empty, full := FreshSession(), Zeros(SIMPLEFS_MAX_FILE_SIZE);
    var s := Run(empty, Writes(13));
    FillRoot(13);
    FillBelow(s);
    var c0 := Writes(13);
    var c1 := c0 + [MakeDirCall(Letter(13))];
    var c2 := c1 + [ChangeDirCall(Letter(13))];
    var c3 := c2 + [WriteCall(Letter(0), full)];
    var c4 := c3 + [WriteCall(Letter(1), full)];
    var c5 := c4 + [WriteCall(Letter(2), Zeros(20 * SECTOR_SIZE))];
    RunThen(empty, c0, MakeDirCall(Letter(13)));
    RunThen(empty, c1, ChangeDirCall(Letter(13)));
    RunThen(empty, c2, WriteCall(Letter(0), full));
    RunThen(empty, c3, WriteCall(Letter(1), full));
    RunThen(empty, c4, WriteCall(Letter(2), Zeros(20 * SECTOR_SIZE)));
    RunThen(empty, c5, ChangeDirCall(SLASH));
    CreateLoses(Run(empty, c5));
  }

  lemma {:induction false} CreateLoses(s: Session)
    requires RootFull(s) && Filling(s, 5, 3, 18, 0)
    ensures var t := Step(s, ChangeDirCall(SLASH));
            && IsTree(t.fs) && |t.fs.dirs[SIMPLEFS_ROOT_INODE]| == 16 && t.fs.cwd == SIMPLEFS_ROOT_INODE
            && Serve(t, CreateCall(Letter(25))).reply == Done(false)
            && Step(t, CreateCall(Letter(25))).fs.dirs[SIMPLEFS_ROOT_INODE] == [] && !IsTree(Step(t, CreateCall(Letter(25))).fs)
  {
    hide IsTree, InOrder;
    var t := Step(s, ChangeDirCall(SLASH));
    InOrderIs(s);
    StepKeepsTreeExactly(s, ChangeDirCall(SLASH));
    assert t.fs.kinds[18].FreeInode? && FirstFree(t.fs.kinds, 0) <= 18;
    forall e | 0 <= e < 16 ensures !Matches(t.fs.dirs[SIMPLEFS_ROOT_INODE][e], Letter(25)) {
      assert NameBelow(s.fs.dirs[SIMPLEFS_ROOT_INODE][e].name, 14);
    }
    StepKeepsTreeExactly(t, CreateCall(Letter(25)));
  }

  /** On a fresh volume `mkdir a`, `cd a`, `rmdir .` are each accepted, and after them the
      directories are no tree. */
  lemma {:induction false} RemovingDotHappens()
    ensures var t := Run(FreshSession(), [MakeDirCall(Letter(0)), ChangeDirCall(Letter(0))]);
            && IsTree(t.fs) && t.fs.cwd == 1
            && Serve(t, RemoveDirCall(DOT)).reply == Done(true) && !IsTree(Step(t, RemoveDirCall(DOT)).fs)
  {
    hide Filling, IsTree, InOrder, Step, Serve, CanRemoveDir;
    var s := FreshSession();
    FillRoot(0);
    EnterNew(s, 2, 0, 1, SIMPLEFS_DATA_BLOCKS - 1);
    assert [MakeDirCall(Letter(0))] + [ChangeDirCall(Letter(0))] == [MakeDirCall(Letter(0)), ChangeDirCall(Letter(0))];
    assert [] + [MakeDirCall(Letter(0))] == [MakeDirCall(Letter(0))];
    RunThen(s, [MakeDirCall(Letter(0))], ChangeDirCall(Letter(0)));
    RunThen(s, [], MakeDirCall(Letter(0)));
    DotIsAccepted(Run(s, [MakeDirCall(Letter(0)), ChangeDirCall(Letter(0))]));
  }

  lemma {:induction false} DotIsAccepted(t: Session)
    requires Filling(t, 2, 0, 2, SIMPLEFS_DATA_BLOCKS - 2) && t.fs.cwd == 1
    ensures IsTree(t.fs) && Serve(t, RemoveDirCall(DOT)).reply == Done(true) && !IsTree(Step(t, RemoveDirCall(DOT)).fs)
  {
    hide InOrder;
    InOrderIs(t);
    var home, depth :| Tree(t.fs, home, depth);
    assert DirOk(t.fs, home, 1);
    assert Lookup(t.fs, DOT) == Find(t.fs.dirs[1], DOT, 0) == 0;
    StepKeepsTreeExactly(t, RemoveDirCall(DOT));
  }
}
