/** What a user of the file system can count on, said in calls and replies: what was written is
    read, where it was written, and nothing else changes. */
module FsLaws {
  import opened Machine
  import opened FsLayout
  import opened FsEntries
  import opened FsTree
  import opened FsFiles
  import opened FsAccount
  import opened FsCosts
  import opened FsRuns
  import opened FsBudget

  ghost function Reply1(s: Session, c: Call): Reply
    requires Sized(s)
  {
    Serve(s, c).reply
  }

  // ---- names -----------------------------------------------------------------------------------------------

  /** The inode behind a name of the current directory. */
  function InodeOf(fs: Fs, name: CString): nat
    requires fs.cwd < |fs.dirs| && Lookup(fs, name) >= 0
  {
    fs.dirs[fs.cwd][Lookup(fs, name)].inode
  }

  /** A name that has just been entered is found, and every other name is found as before. */
  lemma {:induction false} EnteredIsFound(fs: Fs, name: CString, kind: InodeKind, entries: seq<Entry>)
    requires Shape(fs) && CanAdd(fs, name)
    ensures var i, after := FirstFree(fs.kinds, 0), Added(fs, name, FirstFree(fs.kinds, 0), kind, entries);
            && Lookup(after, name) >= 0 && InodeOf(after, name) == i && i != fs.cwd
            && (forall other: CString :: other != name ==>
                  (Lookup(after, other) == Lookup(fs, other) && (Lookup(fs, other) >= 0 ==> InodeOf(after, other) == InodeOf(fs, other))))
  {
    var i := FirstFree(fs.kinds, 0);
    var before, after := fs.dirs[fs.cwd], Added(fs, name, i, kind, entries).dirs[fs.cwd];
    assert after == before + [Entry(i, name)];
    AppendedFind(before, Entry(i, name), name, 0);
    forall other: CString | other != name
      ensures Find(after, other, 0) == Find(before, other, 0) && (Find(before, other, 0) >= 0 ==> after[Find(before, other, 0)] == before[Find(before, other, 0)])
    {
      AppendedFind(before, Entry(i, name), other, 0);
    }
  }

  lemma {:induction false} AppendedFind(entries: seq<Entry>, e: Entry, name: CString, k: nat)
    requires k <= |entries|
    ensures Find(entries + [e], name, k) == if Find(entries, name, k) >= 0 then Find(entries, name, k)
                                            else if Matches(e, name) then |entries| else -1
    decreases |entries| - k
  {
    if k < |entries| {
      AppendedFind(entries, e, name, k + 1);
    }
  }

  /** In a tree two names of the current directory are two nodes, unless one is special. */
  lemma {:induction false} TwoNamesTwoNodes(fs: Fs, name: CString, other: CString)
    requires IsTree(fs) && name != other && Lookup(fs, name) >= 0 && Lookup(fs, other) >= 0
    requires fs.kinds[fs.cwd].Directory? && InodeOf(fs, name) < |fs.kinds| && fs.kinds[InodeOf(fs, name)].Regular?
    ensures InodeOf(fs, name) != InodeOf(fs, other)
  {
    var home, depth :| Tree(fs, home, depth);
    assert DirOk(fs, home, fs.cwd);
    var j, k := Lookup(fs, name), Lookup(fs, other);
    if k < 2 {
      assert fs.kinds[fs.cwd].Directory?;
      HomeIsDirectory(fs, home, depth);
    }
  }

  lemma {:induction false} HomeIsDirectory(fs: Fs, home: seq<nat>, depth: seq<nat>)
    requires Tree(fs, home, depth)
    ensures home[fs.cwd] < SIMPLEFS_MAX_INODES && fs.kinds[home[fs.cwd]].Directory?
  {
    if fs.cwd != 0 {
      assert NodeOk(fs, home, depth, fs.cwd);
    }
  }

  lemma {:induction false} TreeIsShaped(fs: Fs)
    requires IsTree(fs)
    ensures Shape(fs) && fs.kinds[fs.cwd].Directory?
  {
  }

  // ---- whole files ------------------------------------------------------------------------------------------

  function Prefix(data: seq<Byte>, n: nat): seq<Byte> {
    if n < |data| then data[..n] else data
  }

  /** A write that succeeds is read back. */
  lemma {:induction false} WriteIsRead(s: Session, name: CString, data: seq<Byte>, n: nat)
    requires InOrder(s) && Reply1(s, WriteCall(name, data)) == Done(true)
    ensures Reply1(Step(s, WriteCall(name, data)), ReadCall(name, n)) == Read(Prefix(data, n))
  {
    hide Covered, EntryFits, FileFits, WriteCost, Find, FirstFree;
    if CanAdd(s.fs, name) {
      EnteredIsFound(s.fs, name, Regular, []);
    }
  }

  /** It changes no other file, wherever that is. */
  lemma {:induction false} WriteLeavesFiles(s: Session, name: CString, data: seq<Byte>, i: nat)
    requires InOrder(s) && Reply1(s, WriteCall(name, data)) == Done(true) && i < SIMPLEFS_MAX_INODES
    ensures var after := Step(s, WriteCall(name, data)).fs;
            && Lookup(after, name) >= 0 && after.cwd == s.fs.cwd
            && (i != InodeOf(after, name) ==> after.files[i] == s.fs.files[i] && after.kinds[i] == s.fs.kinds[i] && (i != s.fs.cwd ==> after.dirs[i] == s.fs.dirs[i]))
  {
    hide Covered, EntryFits, FileFits, WriteCost, Find, FirstFree;
    if CanAdd(s.fs, name) {
      EnteredIsFound(s.fs, name, Regular, []);
    }
  }

  /** In a tree every other name of the directory reads as before. */
  lemma {:induction false} WriteLeavesNames(s: Session, name: CString, data: seq<Byte>, other: CString, n: nat)
    requires InOrder(s) && IsTree(s.fs) && other != name && Reply1(s, WriteCall(name, data)) == Done(true)
    ensures Reply1(Step(s, WriteCall(name, data)), ReadCall(other, n)) == Reply1(s, ReadCall(other, n))
  {
    hide Covered, EntryFits, FileFits, WriteCost, Find, FirstFree, IsTree;
    TreeIsShaped(s.fs);
    if CanAdd(s.fs, name) {
      EnteredIsFound(s.fs, name, Regular, []);
      NewIsNotNamed(s.fs, other);
    } else if Lookup(s.fs, other) >= 0 {
      TwoNamesTwoNodes(s.fs, name, other);
    }
  }

  /** In a tree no name leads to a free inode. */
  lemma {:induction false} NewIsNotNamed(fs: Fs, name: CString)
    requires IsTree(fs)
    ensures Lookup(fs, name) >= 0 ==> InodeOf(fs, name) != FirstFree(fs.kinds, 0) && InodeOf(fs, name) < SIMPLEFS_MAX_INODES
  {
    if Lookup(fs, name) >= 0 {
      var home, depth :| Tree(fs, home, depth);
      assert DirOk(fs, home, fs.cwd);
      HomeIsDirectory(fs, home, depth);
      assert Lookup(fs, name) >= 2 ==> ChildOk(fs, home, fs.cwd, fs.dirs[fs.cwd][Lookup(fs, name)]);
    }
  }

  /** An append that succeeds adds the data to what was read before. */
  lemma {:induction false} AppendIsRead(s: Session, name: CString, data: seq<Byte>, n: nat)
    requires InOrder(s) && Reply1(s, AppendCall(name, data)) == Done(true)
    requires var was := Reply1(s, ReadCall(name, n)); was.Read? ==> |was.data| < n && |was.data| + |data| <= n
    requires |data| <= n
    ensures var was := Reply1(s, ReadCall(name, n));
            Reply1(Step(s, AppendCall(name, data)), ReadCall(name, n)) == Read((if was.Read? then was.data else []) + data)
  {
    hide Covered, EntryFits, FileFits, WriteCost, Find, FirstFree;
    if CanAdd(s.fs, name) {
      EnteredIsFound(s.fs, name, Regular, []);
    }
  }

  lemma {:induction false} AppendLeavesFiles(s: Session, name: CString, data: seq<Byte>, i: nat)
    requires InOrder(s) && Reply1(s, AppendCall(name, data)) == Done(true) && i < SIMPLEFS_MAX_INODES
    ensures var after := Step(s, AppendCall(name, data)).fs;
            && Lookup(after, name) >= 0 && after.cwd == s.fs.cwd
            && (i != InodeOf(after, name) ==> after.files[i] == s.fs.files[i] && after.kinds[i] == s.fs.kinds[i] && (i != s.fs.cwd ==> after.dirs[i] == s.fs.dirs[i]))
  {
    hide Covered, EntryFits, FileFits, WriteCost, Find, FirstFree, AppendedData;
    WriteLeavesFiles(s, name, AppendedData(s.fs, name, data), i);
  }

  lemma {:induction false} AppendLeavesNames(s: Session, name: CString, data: seq<Byte>, other: CString, n: nat)
    requires InOrder(s) && IsTree(s.fs) && other != name && Reply1(s, AppendCall(name, data)) == Done(true)
    ensures Reply1(Step(s, AppendCall(name, data)), ReadCall(other, n)) == Reply1(s, ReadCall(other, n))
  {
    hide Covered, EntryFits, FileFits, WriteCost, Find, FirstFree, AppendedData, IsTree;
    WriteLeavesNames(s, name, AppendedData(s.fs, name, data), other, n);
  }

  // ---- descriptors ------------------------------------------------------------------------------------------

  /** Two calls, one after the other, answer what the laws say of the first and the second. */
  lemma {:induction false} TwoReplies(s: Session, a: Call, b: Call)
    requires Sized(s)
    ensures Replies(s, [a, b]) == [Reply1(s, a), Reply1(Step(s, a), b)] && Run(s, [a, b]) == Step(Step(s, a), b)
  {
    hide Serve;
    assert [a, b][1..] == [b] && [b][1..] == [];
    assert Replies(Step(s, a), [b]) == [Reply1(Step(s, a), b)] + Replies(Step(Step(s, a), b), []);
    assert Run(Step(s, a), [b]) == Run(Step(Step(s, a), b), []);
  }

  /** A descriptor that has just been opened reads what the name reads, chunk after chunk. */
  lemma {:induction false} OpenIsRead(s: Session, name: CString, n: nat, m: nat)
    requires Sized(s) && Reply1(s, OpenCall(name)).Descriptor? && Reply1(s, OpenCall(name)).fd >= 0
    ensures var fd, open := Reply1(s, OpenCall(name)).fd, Step(s, OpenCall(name));
            && Reply1(s, ReadCall(name, n + m)).Read?
            && Reply1(open, ReadFdCall(fd, n)).Read? && Reply1(Step(open, ReadFdCall(fd, n)), ReadFdCall(fd, m)).Read?
            && Reply1(s, ReadCall(name, n + m)).data
               == Reply1(open, ReadFdCall(fd, n)).data + Reply1(Step(open, ReadFdCall(fd, n)), ReadFdCall(fd, m)).data
  {
    hide Find, Slice, FirstShut;
    SlicesJoin(s.fs.files[InodeOf(s.fs, name)], 0, n, m);
    IsFirstShut(s.open);
  }

  lemma {:induction false} IsFirstShut(open: seq<Handle>)
    ensures FirstShut(open, 0) <= |open|
  {
  }

  /** Opening fails exactly for what cannot be read, or with every descriptor in use. */
  lemma {:induction false} OpenWorksExactly(s: Session, name: CString, n: nat)
    requires Sized(s)
    ensures Reply1(s, OpenCall(name)).Descriptor? && Reply1(s, OpenCall(name)).fd >= -1
    ensures Reply1(s, OpenCall(name)).fd >= 0 <==>
              Reply1(s, ReadCall(name, n)).Read? && exists fd :: 0 <= fd < SIMPLEFS_MAX_OPEN_FILES && !s.open[fd].used
    ensures Reply1(s, OpenCall(name)).fd >= 0 ==>
              Reply1(s, OpenCall(name)).fd < SIMPLEFS_MAX_OPEN_FILES && !s.open[Reply1(s, OpenCall(name)).fd].used
    ensures forall fd :: 0 <= fd < SIMPLEFS_MAX_OPEN_FILES && s.open[fd].used ==> Step(s, OpenCall(name)).open[fd] == s.open[fd]
  {
    hide Find, Slice;
    AllUsedBefore(s.open, 0);
  }

  lemma {:induction false} AllUsedBefore(open: seq<Handle>, k: nat)
    requires k <= |open|
    ensures forall fd :: k <= fd < FirstShut(open, k) ==> open[fd].used
    decreases |open| - k
  {
    if k < |open| && open[k].used {
      AllUsedBefore(open, k + 1);
    }
  }

  /** A closed descriptor is of no use; the others keep their places. */
  lemma {:induction false} ClosedIsClosed(s: Session, fd: nat, n: nat, data: seq<Byte>, offset: nat)
    requires Sized(s) && Reply1(s, CloseCall(fd)) == Done(true)
    ensures var after := Step(s, CloseCall(fd));
            && Reply1(after, ReadFdCall(fd, n)) == Done(false) && Reply1(after, WriteFdCall(fd, data)) == Done(false)
            && Reply1(after, SeekCall(fd, offset)) == Done(false) && Reply1(after, CloseCall(fd)) == Done(false)
            && after.fs == s.fs && after.account == s.account
            && forall other :: 0 <= other < SIMPLEFS_MAX_OPEN_FILES && other != fd ==> after.open[other] == s.open[other]
  {
  }

  /** What is written through a descriptor is read there after seeking back. */
  lemma {:induction false} WriteFdIsRead(s: Session, fd: nat, offset: nat, data: seq<Byte>)
    requires Sized(s)
    requires Reply1(s, SeekCall(fd, offset)) == Done(true) && Reply1(Step(s, SeekCall(fd, offset)), WriteFdCall(fd, data)) == Done(true)
    ensures var written := Step(Step(s, SeekCall(fd, offset)), WriteFdCall(fd, data));
            && Reply1(written, SeekCall(fd, offset)) == Done(true)
            && Reply1(Step(written, SeekCall(fd, offset)), ReadFdCall(fd, |data|)) == Read(data)
  {
    hide Fits, Rewrite, Splice, Slice;
    SpliceThere(s.fs.files[s.open[fd].inode], offset, data);
  }

  lemma {:induction false} SpliceThere(file: seq<Byte>, offset: nat, data: seq<Byte>)
    ensures |Splice(file, offset, data)| >= offset + |data| && Slice(Splice(file, offset, data), offset, |data|) == data
  {
    hide Splice;
    AllOfIt(Splice(file, offset, data), offset, |data|, data);
  }

  /** After a write or a read the descriptor stands right behind it. */
  lemma {:induction false} StandsBehind(s: Session, fd: nat, offset: nat, data: seq<Byte>, n: nat)
    requires Sized(s) && Reply1(s, SeekCall(fd, offset)) == Done(true)
    requires Reply1(Step(s, SeekCall(fd, offset)), WriteFdCall(fd, data)) == Done(true)
    ensures var written := Step(Step(s, SeekCall(fd, offset)), WriteFdCall(fd, data));
            && Reply1(written, SeekCall(fd, offset + |data|)) == Done(true)
            && Reply1(written, ReadFdCall(fd, n)) == Reply1(Step(written, SeekCall(fd, offset + |data|)), ReadFdCall(fd, n))
  {
    hide Fits, Rewrite, Slice;
  }

  lemma {:induction false} AllOfIt(file: seq<Byte>, offset: nat, n: nat, data: seq<Byte>)
    requires offset + n <= |file| && file[offset..offset + n] == data
    ensures Slice(file, offset, n) == data
  {
  }

  /** Elsewhere in the file everything reads as before. */
  lemma {:induction false} WriteFdLeavesPlaces(s: Session, fd: nat, offset: nat, data: seq<Byte>, place: nat, n: nat)
    requires Sized(s)
    requires Reply1(s, SeekCall(fd, offset)) == Done(true) && Reply1(Step(s, SeekCall(fd, offset)), WriteFdCall(fd, data)) == Done(true)
    requires Reply1(s, SeekCall(fd, place)) == Done(true) && (place + n <= offset || offset + |data| <= place)
    ensures var written := Step(Step(s, SeekCall(fd, offset)), WriteFdCall(fd, data));
            && Reply1(written, SeekCall(fd, place)) == Done(true)
            && Reply1(Step(written, SeekCall(fd, place)), ReadFdCall(fd, n)) == Reply1(Step(s, SeekCall(fd, place)), ReadFdCall(fd, n))
  {
    hide Fits, Rewrite, Splice, Slice;
    SpliceElsewhere(s.fs.files[s.open[fd].inode], offset, data, place, n);
  }

  lemma {:induction false} SpliceElsewhere(file: seq<Byte>, offset: nat, data: seq<Byte>, place: nat, n: nat)
    requires offset <= |file| && place <= |file| && (place + n <= offset || offset + |data| <= place)
    ensures |Splice(file, offset, data)| >= |file| && Slice(Splice(file, offset, data), place, n) == Slice(file, place, n)
  {
    hide Splice;
    var after := Splice(file, offset, data);
    assert |Slice(after, place, n)| == |Slice(file, place, n)|;
    forall k | 0 <= k < |Slice(file, place, n)| ensures Slice(after, place, n)[k] == Slice(file, place, n)[k] {
      assert after[place + k] == file[place + k];
    }
  }

  /** A write through a descriptor changes no other file, no name and no other descriptor. */
  lemma {:induction false} WriteFdLeavesFiles(s: Session, fd: nat, data: seq<Byte>, i: nat)
    requires Sized(s) && Reply1(s, WriteFdCall(fd, data)) == Done(true) && i < SIMPLEFS_MAX_INODES
    ensures var after := Step(s, WriteFdCall(fd, data));
            && after.fs == s.fs.(files := after.fs.files)
            && (i != s.open[fd].inode ==> after.fs.files[i] == s.fs.files[i])
            && forall other :: 0 <= other < SIMPLEFS_MAX_OPEN_FILES && other != fd ==> after.open[other] == s.open[other]
  {
    hide Splice, Fits, Rewrite;
  }

  /** Through the name one reads what was written through the descriptor. */
  lemma {:induction false} WriteFdIsReadByName(s: Session, name: CString, data: seq<Byte>, n: nat)
    requires Sized(s) && Reply1(s, OpenCall(name)).Descriptor? && Reply1(s, OpenCall(name)).fd >= 0
    requires Reply1(Step(s, OpenCall(name)), WriteFdCall(Reply1(s, OpenCall(name)).fd, data)) == Done(true)
    ensures var written := Step(Step(s, OpenCall(name)), WriteFdCall(Reply1(s, OpenCall(name)).fd, data));
            n <= |data| ==> Reply1(written, ReadCall(name, n)) == Read(data[..n])
  {
    hide Fits, Rewrite, Find, Splice, Slice, FirstShut;
    SpliceHead(s.fs.files[InodeOf(s.fs, name)], data, n);
  }

  lemma {:induction false} SpliceHead(file: seq<Byte>, data: seq<Byte>, n: nat)
    ensures n <= |data| ==> Slice(Splice(file, 0, data), 0, n) == data[..n]
  {
    hide Splice;
    var after := Splice(file, 0, data);
    if n <= |data| {
      assert after[0..|data|][..n] == after[0..n];
      AllOfIt(after, 0, n, data[..n]);
    }
  }

  // ---- directories ------------------------------------------------------------------------------------------

  /** What `create` makes is an empty file; every other name stays. */
  lemma {:induction false} CreatedIsEmpty(s: Session, name: CString, other: CString, n: nat)
    requires InOrder(s) && Reply1(s, CreateCall(name)) == Done(true)
    ensures Reply1(s, ReadCall(name, n)) == Done(false) && Reply1(Step(s, CreateCall(name)), ReadCall(name, n)) == Read([])
    ensures other != name && IsTree(s.fs) ==> Reply1(Step(s, CreateCall(name)), ReadCall(other, n)) == Reply1(s, ReadCall(other, n))
    ensures Reply1(Step(s, CreateCall(name)), CreateCall(name)) == Done(false)
  {
    hide Covered, EntryFits, CreateCost, Find, FirstFree, IsTree, Slice;
    EnteredIsFound(s.fs, name, Regular, []);
    if IsTree(s.fs) {
      NewIsNotNamed(s.fs, other);
    }
    EmptyReads(n);
  }

  lemma {:induction false} EmptyReads(n: nat)
    ensures Slice([], 0, n) == []
  {
  }

  /** What is deleted cannot be read; in a tree every other name leads where it led. */
  lemma {:induction false} DeletedIsGone(s: Session, name: CString, other: CString, n: nat)
    requires InOrder(s) && IsTree(s.fs) && Reply1(s, DeleteCall(name)) == Done(true)
    ensures Reply1(s, ReadCall(name, n)).Read? && Reply1(Step(s, DeleteCall(name)), ReadCall(name, n)) == Done(false)
    ensures other != name ==> Reply1(Step(s, DeleteCall(name)), ReadCall(other, n)) == Reply1(s, ReadCall(other, n))
    ensures other != name ==> Reply1(Step(s, DeleteCall(name)), ChangeDirCall(other)) == Reply1(s, ChangeDirCall(other))
  {
    hide Covered, DeleteCost, FirstFree, IsTree, Slice, OpenNow, Find, Dropped;
    SpecialsAreDirectories(s.fs);
    DroppedNames(s.fs, name, other);
  }

  /** Dot and dot-dot are found, and are directories. */
  lemma {:induction false} SpecialsAreDirectories(fs: Fs)
    requires IsTree(fs)
    ensures Shape(fs) && Names(fs, DOT, Directory) && Names(fs, DOT_DOT, Directory)
  {
    var home, depth :| Tree(fs, home, depth);
    SpecialSlots(fs, home, depth, fs.cwd);
    HomeIsDirectory(fs, home, depth);
  }

  /** An entry taken out of a list of distinct names is not found, and every other is. */
  lemma {:induction false} WithoutNames(entries: seq<Entry>, slot: nat, other: CString)
    requires DistinctEntries(entries) && slot < |entries|
    ensures Find(WithoutSlot(entries, slot), entries[slot].name, 0) < 0
    ensures other != entries[slot].name ==>
              (if Find(entries, other, 0) < 0 then Find(WithoutSlot(entries, slot), other, 0) < 0
               else Find(WithoutSlot(entries, slot), other, 0) >= 0
                    && WithoutSlot(entries, slot)[Find(WithoutSlot(entries, slot), other, 0)] == entries[Find(entries, other, 0)])
  {
    var less := WithoutSlot(entries, slot);
    assert forall k :: 0 <= k < |less| ==> less[k] == entries[if k < slot then k else k + 1];
    var k := Find(entries, other, 0);
    if other != entries[slot].name && k >= 0 {
      assert less[if k < slot then k else k - 1] == entries[k];
    }
  }

  /** A name that is dropped is no longer found; every other leads where it led. */
  lemma {:induction false} DroppedNames(fs: Fs, name: CString, other: CString)
    requires IsTree(fs) && Lookup(fs, name) >= 0 && InodeOf(fs, name) < |fs.kinds| && name != DOT && name != DOT_DOT
    requires fs.kinds[InodeOf(fs, name)].Regular? || (fs.kinds[InodeOf(fs, name)].Directory? && |fs.dirs[InodeOf(fs, name)]| == 2)
    ensures Shape(fs) && InodeOf(fs, name) != fs.cwd
    ensures var after := Dropped(fs, Lookup(fs, name));
            && after.cwd == fs.cwd && |after.dirs| == |after.kinds| == |after.files| == SIMPLEFS_MAX_INODES && Lookup(after, name) < 0
            && (other != name ==>
                  if Lookup(fs, other) < 0 then Lookup(after, other) < 0
                  else Lookup(after, other) >= 0 && InodeOf(after, other) == InodeOf(fs, other) < SIMPLEFS_MAX_INODES
                       && after.kinds[InodeOf(fs, other)] == fs.kinds[InodeOf(fs, other)]
                       && after.files[InodeOf(fs, other)] == fs.files[InodeOf(fs, other)])
  {
    hide Find, IsTree, DirOk, WithoutSlot;
    var home, depth := Rooted(fs);
    var slot := Lookup(fs, name);
    SpecialSlots(fs, home, depth, fs.cwd);
    assert DirOk(fs, home, fs.cwd);
    DistinctHere(fs, home);
    NotAboveItself(fs, home, depth, slot);
    WithoutNames(fs.dirs[fs.cwd], slot, other);
    if Lookup(fs, other) >= 0 && other != name {
      OtherNode(fs, home, depth, slot, Lookup(fs, other));
    }
  }

  lemma {:induction false} Rooted(fs: Fs) returns (home: seq<nat>, depth: seq<nat>)
    requires IsTree(fs)
    ensures Tree(fs, home, depth) && Shape(fs) && fs.kinds[fs.cwd].Directory?
  {
    home, depth :| Tree(fs, home, depth);
  }

  lemma {:induction false} DistinctHere(fs: Fs, home: seq<nat>)
    requires |fs.kinds| == |home| == SIMPLEFS_MAX_INODES && fs.cwd < |fs.dirs| && DirOk(fs, home, fs.cwd)
    ensures |fs.dirs[fs.cwd]| >= 2 && DistinctEntries(fs.dirs[fs.cwd])
    ensures fs.dirs[fs.cwd][0].name == DOT && fs.dirs[fs.cwd][1].name == DOT_DOT
  {
  }

  /** Another entry of the directory names another node. */
  lemma {:induction false} OtherNode(fs: Fs, home: seq<nat>, depth: seq<nat>, slot: nat, k: nat)
    requires Tree(fs, home, depth) && 2 <= slot < |fs.dirs[fs.cwd]| && k < |fs.dirs[fs.cwd]| && k != slot
    ensures fs.dirs[fs.cwd][k].inode != fs.dirs[fs.cwd][slot].inode && fs.dirs[fs.cwd][k].inode < SIMPLEFS_MAX_INODES
  {
    hide NodeOk, ValidName;
    NotAboveItself(fs, home, depth, slot);
    HomeIsDirectory(fs, home, depth);
    assert DirOk(fs, home, fs.cwd);
    if k >= 2 {
      assert ChildOk(fs, home, fs.cwd, fs.dirs[fs.cwd][k]);
    }
  }

  /** An ordinary entry names neither the directory nor the parent. */
  lemma {:induction false} NotAboveItself(fs: Fs, home: seq<nat>, depth: seq<nat>, slot: nat)
    requires Tree(fs, home, depth) && 2 <= slot < |fs.dirs[fs.cwd]|
    ensures fs.dirs[fs.cwd][slot].inode != fs.cwd && fs.dirs[fs.cwd][slot].inode != home[fs.cwd]
  {
    hide DistinctEntries, ValidName, Listed;
    var c := fs.dirs[fs.cwd][slot].inode;
    assert DirOk(fs, home, fs.cwd);
    assert ChildOk(fs, home, fs.cwd, fs.dirs[fs.cwd][slot]);
    assert NodeOk(fs, home, depth, c);
    if fs.cwd != 0 {
      assert NodeOk(fs, home, depth, fs.cwd);
    }
  }

  /** Where a name leads, `..` leads back from. */
  lemma {:induction false} UpAndBack(s: Session, name: CString)
    requires Sized(s) && IsTree(s.fs) && ValidName(name) && Reply1(s, ChangeDirCall(name)) == Done(true)
    ensures var down := Step(s, ChangeDirCall(name)); Reply1(down, ChangeDirCall(DOT_DOT)) == Done(true) && Step(down, ChangeDirCall(DOT_DOT)) == s
  {
    hide IsTree, Find;
    BackUp(s.fs, name);
  }

  lemma {:induction false} BackUp(fs: Fs, name: CString)
    requires IsTree(fs) && ValidName(name) && Names(fs, name, Directory)
    ensures var down := fs.(cwd := InodeOf(fs, name));
            Shape(fs) && Names(down, DOT_DOT, Directory) && InodeOf(down, DOT_DOT) == fs.cwd
  {
    var home, depth :| Tree(fs, home, depth);
    var k := Lookup(fs, name);
    assert DirOk(fs, home, fs.cwd);
    assert ChildOk(fs, home, fs.cwd, fs.dirs[fs.cwd][k]);
    SpecialSlots(fs, home, depth, fs.dirs[fs.cwd][k].inode);
  }

  /** What `mkdir` does when it succeeds. */
  lemma {:induction false} MadeIs(s: Session, name: CString)
    requires InOrder(s) && IsTree(s.fs) && Reply1(s, MakeDirCall(name)) == Done(true)
    ensures CanAdd(s.fs, name) && Shape(s.fs)
    ensures var i := FirstFree(s.fs.kinds, 0);
            Step(s, MakeDirCall(name)).fs == Added(s.fs, name, i, Directory, NewDirectory(i, s.fs.cwd)) && i != s.fs.cwd
  {
    hide Covered, MakeDirCost, FirstFree, IsTree, ChildFits, ParentFits, EntryFits, Find, Reviving, ValidName, Added, NewDirectory;
    TreeIsShaped(s.fs);
    NothingToRevive(s.fs, name);
    EnteredIsFound(s.fs, name, Directory, NewDirectory(FirstFree(s.fs.kinds, 0), s.fs.cwd));
  }

  /** `mkdir` makes an empty directory that can be entered, and left by `..` to the same place. */
  lemma {:induction false} MadeIsEntered(s: Session, name: CString, other: CString, n: nat)
    requires InOrder(s) && IsTree(s.fs) && Reply1(s, MakeDirCall(name)) == Done(true)
    ensures var made := Step(s, MakeDirCall(name));
            && Reply1(s, ChangeDirCall(name)) == Done(false) && Reply1(made, ChangeDirCall(name)) == Done(true)
            && Reply1(Step(made, ChangeDirCall(name)), ReadCall(other, n)) == Done(false)
            && Reply1(Step(made, ChangeDirCall(name)), ChangeDirCall(DOT_DOT)) == Done(true)
            && Step(Step(made, ChangeDirCall(name)), ChangeDirCall(DOT_DOT)) == made
  {
    hide Covered, MakeDir, MakeDirAnywhere, MakeDirCost, FirstFree, IsTree, Slice, ChildFits, ParentFits, EntryFits, Find, Reviving, ValidName,
         InOrder, NewDirectory;
    var i := FirstFree(s.fs.kinds, 0);
    NotTheRoot(name);
    MadeIs(s, name);
    EnteredIsFound(s.fs, name, Directory, NewDirectory(i, s.fs.cwd));
    NewHasTwo(i, s.fs.cwd, other);
    NewHasTwo(i, s.fs.cwd, DOT_DOT);
  }

  /** Every other name of the directory stays. */
  lemma {:induction false} MadeLeavesNames(s: Session, name: CString, other: CString, n: nat)
    requires InOrder(s) && IsTree(s.fs) && Reply1(s, MakeDirCall(name)) == Done(true) && other != name
    ensures Reply1(Step(s, MakeDirCall(name)), ReadCall(other, n)) == Reply1(s, ReadCall(other, n))
    ensures Reply1(Step(s, MakeDirCall(name)), ChangeDirCall(other)) == Reply1(s, ChangeDirCall(other))
  {
    hide Covered, MakeDir, MakeDirAnywhere, MakeDirCost, FirstFree, IsTree, Slice, ChildFits, ParentFits, EntryFits, Find, Reviving, ValidName,
         InOrder, NewDirectory;
    MadeIs(s, name);
    EnteredIsFound(s.fs, name, Directory, NewDirectory(FirstFree(s.fs.kinds, 0), s.fs.cwd));
    NewIsNotNamed(s.fs, other);
  }

  lemma {:induction false} NotTheRoot(name: CString)
    ensures ValidName(name) ==> name != [] && name != SLASH && name != DOT_DOT && name != DOT
    ensures DOT_DOT != [] && DOT_DOT != SLASH && DOT_DOT != DOT
  {
  }

  /** A new directory lists itself and its parent. */
  lemma {:induction false} NewHasTwo(i: nat, parent: nat, name: CString)
    requires i < SIMPLEFS_MAX_INODES && parent < SIMPLEFS_MAX_INODES
    ensures var entries, k := NewDirectory(i, parent), Find(NewDirectory(i, parent), name, 0);
            k == (if name == DOT then 0 else if name == DOT_DOT then 1 else -1) && |entries| == 2
            && entries[0].inode == i && entries[1].inode == parent
  {
  }

  /** A directory removed by its name cannot be entered any more; other names stay. */
  lemma {:induction false} RemovedIsGone(s: Session, name: CString, other: CString, n: nat)
    requires InOrder(s) && IsTree(s.fs) && name != DOT && Reply1(s, RemoveDirCall(name)) == Done(true)
    ensures Reply1(s, ChangeDirCall(name)) == Done(true) && Reply1(Step(s, RemoveDirCall(name)), ChangeDirCall(name)) == Done(false)
    ensures other != name ==> Reply1(Step(s, RemoveDirCall(name)), ReadCall(other, n)) == Reply1(s, ReadCall(other, n))
    ensures other != name ==> Reply1(Step(s, RemoveDirCall(name)), ChangeDirCall(other)) == Reply1(s, ChangeDirCall(other))
  {
    hide Covered, RemoveDirCost, FirstFree, IsTree, Slice, Find, Dropped, OnlySpecial;
    TwoLeft(s.fs, name);
    DroppedNames(s.fs, name, other);
  }

  lemma {:induction false} TwoLeft(fs: Fs, name: CString)
    requires IsTree(fs) && fs.cwd < |fs.dirs| == |fs.kinds| && CanRemoveDir(fs, name) && name != DOT
    ensures name != DOT_DOT && name != [] && name != SLASH && |fs.dirs[InodeOf(fs, name)]| == 2
  {
    var home, depth :| Tree(fs, home, depth);
    SpecialSlots(fs, home, depth, fs.cwd);
    SpecialSlots(fs, home, depth, InodeOf(fs, name));
    ParentIsNotEmpty(fs, home, depth);
    assert Lookup(fs, name) >= 2 ==> ChildOk(fs, home, fs.cwd, fs.dirs[fs.cwd][Lookup(fs, name)]);
  }

  // ---- when calls succeed ------------------------------------------------------------------------------------

  /** Inode `i` can hold `size` bytes: one block for 512, and an indirect block beyond six. */
  predicate RoomFor(a: Account, i: nat, size: nat)
    requires i < |a.own|
  {
    BlocksOf(size) <= a.free + a.own[i]
  }

  function BlocksOf(size: nat): nat {
    var k := (size + 511) / 512;
    k + if k > 6 then 1 else 0
  }

  lemma {:induction false} RoomIsBlocks(a: Account, i: nat, size: nat)
    requires i < |a.own|
    ensures RoomFor(a, i, size) <==> Fits(a, i, NeededBlocks(size))
  {
  }

  /** A legal name that is not in use, in a directory with an entry left, and a free inode. */
  predicate CanEnter(fs: Fs, name: CString)
    requires fs.cwd < |fs.dirs| == |fs.kinds|
  {
    && 0 < |name| < 28 && name != DOT && name != DOT_DOT && name != SLASH
    && (forall k :: 0 <= k < |fs.dirs[fs.cwd]| ==> !Matches(fs.dirs[fs.cwd][k], name))
    && (exists i :: 0 <= i < |fs.kinds| && fs.kinds[i].FreeInode?) && fs.kinds[fs.cwd].Directory?
    && |fs.dirs[fs.cwd]| < SIMPLEFS_MAX_DIRECTORY_ENTRIES
  }

  lemma {:induction false} CanEnterIsCanAdd(fs: Fs, name: CString)
    requires fs.cwd < |fs.dirs| == |fs.kinds|
    ensures CanEnter(fs, name) <==> CanAdd(fs, name)
  {
    var i := FirstFree(fs.kinds, 0);
    assert i < |fs.kinds| ==> fs.kinds[i].FreeInode?;
  }

  lemma {:induction false} CreateWorksExactly(s: Session, name: CString)
    requires InOrder(s)
    ensures Reply1(s, CreateCall(name)) == Done(CanEnter(s.fs, name) && RoomFor(s.account, s.fs.cwd, 32 * (|s.fs.dirs[s.fs.cwd]| + 1)))
  {
    hide Covered, CreateCost, CanEnter, CanAdd, Fits, NeededBlocks, RoomFor, Added, Damaged;
    CanEnterIsCanAdd(s.fs, name);
    RoomIsBlocks(s.account, s.fs.cwd, 32 * (|s.fs.dirs[s.fs.cwd]| + 1));
  }

  /** The directory's own block first, then the entry in the parent; `i` is the first free
      inode, if there is one. */
  lemma {:induction false} MakeDirWorksExactly(s: Session, name: CString, i: nat)
    requires InOrder(s) && IsTree(s.fs) && i < SIMPLEFS_MAX_INODES
    requires CanEnter(s.fs, name) ==> s.fs.kinds[i].FreeInode? && forall k :: 0 <= k < i ==> !s.fs.kinds[k].FreeInode?
    ensures Reply1(s, MakeDirCall(name)) ==
            Done(CanEnter(s.fs, name) && s.account.free >= 1
                 && 1 + BlocksOf(32 * (|s.fs.dirs[s.fs.cwd]| + 1)) <= s.account.free + s.account.own[i] + s.account.own[s.fs.cwd])
  {
    hide Covered, MakeDirCost, CanEnter, CanAdd, Added, Damaged, ParentFits, Reviving, IsTree, NeededBlocks, BlocksOf;
    TreeIsShaped(s.fs);
    NothingToRevive(s.fs, name);
    CanEnterIsCanAdd(s.fs, name);
    NoBlocksForNothing();
    if CanAdd(s.fs, name) && s.account.free >= 1 {
      ParentNeeds(s.fs, s.account, name, i);
    }
  }

  lemma {:induction false} ParentNeeds(fs: Fs, a: Account, name: CString, i: nat)
    requires fs.cwd < |fs.dirs| == |fs.kinds| == |a.own| && i < |fs.kinds| && CanAdd(fs, name) && a.free >= 1
    requires fs.kinds[i].FreeInode? && forall k :: 0 <= k < i ==> !fs.kinds[k].FreeInode?
    ensures ParentFits(fs, a) <==> 1 + BlocksOf(32 * (|fs.dirs[fs.cwd]| + 1)) <= a.free + a.own[i] + a.own[fs.cwd]
  {
    assert FirstFree(fs.kinds, 0) == i;
    RoomIsBlocks(WithChild(a, i), fs.cwd, 32 * (|fs.dirs[fs.cwd]| + 1));
  }

  /** In a current directory that was removed nothing can be entered, but a `mkdir` that gets
      its old inode brings it back, as a directory that holds itself under the new name. */
  lemma {:induction false} MakeDirRevives(s: Session, name: CString)
    requires InOrder(s) && s.fs.kinds[s.fs.cwd].FreeInode? && 0 < |name| < 28 && name != DOT && name != DOT_DOT && name != SLASH
    ensures Reply1(s, MakeDirCall(name)) ==
            Done(s.account.free >= 1 && forall k :: 0 <= k < s.fs.cwd ==> !s.fs.kinds[k].FreeInode?)
    ensures Reply1(s, MakeDirCall(name)) == Done(true) ==>
              var made := Step(s, MakeDirCall(name));
              && Step(made, ChangeDirCall(name)) == Step(made, ChangeDirCall(DOT_DOT)) == Step(made, ChangeDirCall(DOT)) == made
              && forall each :: each in [name, DOT, DOT_DOT] ==> Reply1(made, ChangeDirCall(each)) == Done(true)
    ensures Reply1(s, MakeDirCall(name)) != Done(true) ==> Step(s, MakeDirCall(name)) == s
  {
    hide Covered, NeededBlocks, FirstFree, NewDirectory, DirBlocks, Entering;
    NoBlocksForNothing();
    var i := FirstFree(s.fs.kinds, 0);
    assert i <= s.fs.cwd && s.fs.kinds[i].FreeInode?;
    RevivedFinds(s.fs, name);
  }

  lemma {:induction false} RevivedFinds(fs: Fs, name: CString)
    requires Shape(fs) && name != DOT && name != DOT_DOT && name != SLASH && name != []
    ensures forall each :: each in [name, DOT, DOT_DOT] ==>
              && each != [] && each != SLASH && Names(Revived(fs, name), each, Directory)
              && InodeOf(Revived(fs, name), each) == fs.cwd
  {
    var entries := Revived(fs, name).dirs[fs.cwd];
    assert entries == [Entry(fs.cwd, DOT), Entry(fs.cwd, DOT_DOT), Entry(fs.cwd, name)];
    assert Matches(entries[0], DOT) && Matches(entries[1], DOT_DOT) && Matches(entries[2], name);
  }

  /** A file is rewritten exactly if the data has a legal size and finds its blocks, those it
      had counted. */
  lemma {:induction false} WriteWorksExactly(s: Session, name: CString, data: seq<Byte>, n: nat)
    requires InOrder(s) && Reply1(s, ReadCall(name, n)).Read? && ValidName(name)
    ensures Reply1(s, WriteCall(name, data)) ==
            Done(|data| <= SIMPLEFS_MAX_FILE_SIZE && RoomFor(s.account, InodeOf(s.fs, name), |data|))
  {
    hide Covered, WriteCost, Fits, NeededBlocks, RoomFor, Slice, Find, FirstFree, ValidName, EntryFits;
    RoomIsBlocks(s.account, InodeOf(s.fs, name), |data|);
  }

  /** Writing a new name is creating it and then writing it. */
  lemma {:induction false} NewWriteIsCreateAndWrite(s: Session, name: CString, data: seq<Byte>)
    requires InOrder(s) && Reply1(s, CreateCall(name)) == Done(true) && |data| <= SIMPLEFS_MAX_FILE_SIZE
    ensures Serve(s, WriteCall(name, data)) == Serve(Step(s, CreateCall(name)), WriteCall(name, data))
  {
    hide Covered, Fits, NeededBlocks, Slice, Find, FirstFree, ValidName, EntryFits, Rewrite, Entering;
    EnteredIsFound(s.fs, name, Regular, []);
  }

  /** Appending is writing what was read and the data behind it. */
  lemma {:induction false} AppendIsReadAndWrite(s: Session, name: CString, data: seq<Byte>, n: nat)
    requires InOrder(s) && Reply1(s, ReadCall(name, n)).Read? && |Reply1(s, ReadCall(name, n)).data| < n
    requires |Reply1(s, ReadCall(name, n)).data + data| <= SIMPLEFS_MAX_FILE_SIZE
    ensures Serve(s, AppendCall(name, data)) == Serve(s, WriteCall(name, Reply1(s, ReadCall(name, n)).data + data))
  {
    hide Covered, Fits, NeededBlocks, Find, FirstFree, ValidName, EntryFits, Rewrite, Entering, WriteFile, WriteCost, Slice;
    WholeRead(s.fs.files[InodeOf(s.fs, name)], n);
    assert AppendedData(s.fs, name, data) == Reply1(s, ReadCall(name, n)).data + data;
  }

  lemma {:induction false} WholeRead(file: seq<Byte>, n: nat)
    ensures |Slice(file, 0, n)| < n ==> Slice(file, 0, n) == file
  {
  }

  /** A file is deleted exactly if no descriptor has it open. */
  lemma {:induction false} DeleteWorksExactly(s: Session, name: CString, n: nat)
    requires InOrder(s) && IsTree(s.fs)
    ensures Reply1(s, DeleteCall(name)) ==
            Done(Reply1(s, ReadCall(name, n)).Read?
                 && forall fd :: 0 <= fd < SIMPLEFS_MAX_OPEN_FILES && s.open[fd].used ==> s.open[fd].inode != InodeOf(s.fs, name))
  {
    hide Covered, DeleteCost, Dropped, Find, Slice, IsTree;
    TreeIsShaped(s.fs);
    RootIsDirectory(s.fs);
  }

  lemma {:induction false} RootIsDirectory(fs: Fs)
    requires IsTree(fs)
    ensures Shape(fs) && fs.kinds[SIMPLEFS_ROOT_INODE].Directory?
  {
  }

  /** A directory is removed exactly if it can be entered, lists nothing of its own, and is not
      the root; `..` is never empty. */
  lemma {:induction false} RemoveDirWorksExactly(s: Session, name: CString)
    requires InOrder(s) && IsTree(s.fs) && name != SLASH
    ensures Reply1(s, RemoveDirCall(name)) ==
            Done(name != [] && Reply1(s, ChangeDirCall(name)) == Done(true)
                 && InodeOf(s.fs, name) != SIMPLEFS_ROOT_INODE && |s.fs.dirs[InodeOf(s.fs, name)]| == 2)
  {
    hide Covered, RemoveDirCost, Dropped, Find, Slice, IsTree, OnlySpecial;
    TreeIsShaped(s.fs);
    if Names(s.fs, name, Directory) {
      var home, depth := Rooted(s.fs);
      SpecialSlots(s.fs, home, depth, InodeOf(s.fs, name));
      EmptyNameIsNothing(s.fs);
    }
  }

  lemma {:induction false} EmptyNameIsNothing(fs: Fs)
    requires IsTree(fs)
    ensures fs.cwd < |fs.dirs| && Lookup(fs, []) < 0
  {
    var home, depth := Rooted(fs);
    assert DirOk(fs, home, fs.cwd);
    forall k | 0 <= k < |fs.dirs[fs.cwd]| ensures fs.dirs[fs.cwd][k].name != [] {
      if k >= 2 {
        assert ChildOk(fs, home, fs.cwd, fs.dirs[fs.cwd][k]);
      }
    }
  }

  /** A seek works exactly up to the end of what can be read. */
  lemma {:induction false} SeekWorksExactly(s: Session, fd: nat, offset: nat, n: nat)
    requires Sized(s) && IsOpen(s, fd) && Reply1(s, SeekCall(fd, 0)) == Done(true)
    requires |Reply1(Step(s, SeekCall(fd, 0)), ReadFdCall(fd, n)).data| < n
    ensures Reply1(s, SeekCall(fd, offset)) == Done(offset <= |Reply1(Step(s, SeekCall(fd, 0)), ReadFdCall(fd, n)).data|)
  {
  }

  /** A write through a descriptor works exactly if the file stays within the legal size and
      finds its blocks. */
  lemma {:induction false} WriteFdWorksExactly(s: Session, fd: nat, data: seq<Byte>)
    requires Sized(s) && IsOpen(s, fd)
    ensures var h := s.open[fd];
            var size := if h.offset + |data| > |s.fs.files[h.inode]| then h.offset + |data| else |s.fs.files[h.inode]|;
            Reply1(s, WriteFdCall(fd, data)) == Done(h.offset + |data| <= SIMPLEFS_MAX_FILE_SIZE && RoomFor(s.account, h.inode, size))
  {
    hide Fits, NeededBlocks, RoomFor, Splice, Rewrite;
    var h := s.open[fd];
    SpliceSize(s.fs.files[h.inode], h.offset, data);
    RoomIsBlocks(s.account, h.inode, |Splice(s.fs.files[h.inode], h.offset, data)|);
  }

  lemma {:induction false} SpliceSize(file: seq<Byte>, offset: nat, data: seq<Byte>)
    ensures |Splice(file, offset, data)| == if offset + |data| > |file| then offset + |data| else |file|
  {
  }

  // ---- the whole volume ----------------------------------------------------------------------------------------

  /** After a format nothing is left to read, open or enter. */
  lemma {:induction false} FormattedIsEmpty(s: Session, name: CString, n: nat, fd: nat)
    requires Sized(s)
    ensures var blank := Step(s, FormatCall);
            && Reply1(blank, ReadCall(name, n)) == Done(false) && Reply1(blank, OpenCall(name)) == Descriptor(-1)
            && Reply1(blank, ReadFdCall(fd, n)) == Done(false)
            && (ValidName(name) ==> Reply1(blank, ChangeDirCall(name)) == Done(false))
  {
    hide Formatted, Find;
    FormattedNames(name);
  }

  lemma {:induction false} FormattedNames(name: CString)
    ensures !Names(Formatted(), name, Regular) && (ValidName(name) ==> !Names(Formatted(), name, Directory))
  {
    NewHasTwo(0, 0, name);
  }

  /** Mounting again keeps every file: from the root everything reads as before. Open descriptors
      are lost. */
  lemma {:induction false} RemountReads(s: Session, name: CString, n: nat, fd: nat)
    requires Sized(s)
    ensures var mounted := Step(s, RemountCall);
            && mounted.fs == Step(s, ChangeDirCall(SLASH)).fs && Reply1(s, ChangeDirCall(SLASH)) == Done(true)
            && Reply1(mounted, ReadCall(name, n)) == Reply1(Step(s, ChangeDirCall(SLASH)), ReadCall(name, n))
            && Reply1(mounted, ReadFdCall(fd, n)) == Done(false)
  {
    hide Slice, Find;
  }

  /** Reading, seeking, opening, closing and refused calls change no file and no name. */
  lemma {:induction false} LookingChangesNothing(s: Session, c: Call)
    requires Sized(s) && (c.ReadCall? || c.ReadFdCall? || c.SeekCall? || c.OpenCall? || c.CloseCall?)
    ensures Step(s, c).fs == s.fs && Step(s, c).account == s.account
  {
    hide Slice, Find;
  }
}
