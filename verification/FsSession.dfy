/** The calls of SimpleFS take one session to the next, for any script of them. */
module FsSession {
  import opened Machine
  import opened Bitmap
  import opened FsLayout
  import opened FsVolume
  import opened FsAccount
  import opened FsLedger
  import opened FsEntries
  import opened FsTree
  import opened FsView
  import opened FsFiles
  import opened FsCosts
  import opened FsRuns
  import opened FsBudget
  import opened FsSimple

  function HandleOf(f: OpenFile): Handle {
    if f.used then Handle(true, f.inode, f.offset) else SHUT
  }

  function Handles(open: seq<OpenFile>): (h: seq<Handle>)
    ensures |h| == |open|
  {
    seq(|open|, fd requires 0 <= fd < |open| => HandleOf(open[fd]))
  }

  /** What a mounted file system is as a session. */
  ghost function SessionOf(fs: SimpleFs): (s: Session)
    requires fs.Valid() && fs.mounted
    reads fs, fs.store
    ensures Sized(s)
  {
    Session(fs.View(), Handles(fs.openFiles), fs.Ledger())
  }

  /** No `write_fd` makes offset plus size wrap. */
  predicate NoWrap(c: Call) {
    c.WriteFdCall? ==> SIMPLEFS_MAX_FILE_SIZE + |c.data| < WORD_LIMIT
  }

  lemma {:induction false} OpenIsOpen(open: seq<OpenFile>)
    ensures OpenInodes(open) == OpenNow(Handles(open))
  {
    forall i: nat ensures i in OpenInodes(open) <==> i in OpenNow(Handles(open)) {
      if i in OpenInodes(open) {
        var fd :| 0 <= fd < |open| && open[fd].used && open[fd].inode == i;
        assert Handles(open)[fd] == HandleOf(open[fd]);
      }
    }
  }

  lemma {:induction false} ClosedIsShut()
    ensures Handles(AllClosed()) == Shut()
  {
  }

  lemma {:induction false} OneHandle(open: seq<OpenFile>, fd: nat, f: OpenFile)
    requires fd < |open|
    ensures Handles(open[fd := f]) == Handles(open)[fd := HandleOf(f)]
  {
  }

  lemma {:induction false} OpenDescriptor(fs: SimpleFs, fd: nat)
    requires fs.Valid() && fs.mounted
    ensures FsRuns.IsOpen(SessionOf(fs), fd) <==> fs.IsOpen(fd)
    ensures fs.IsOpen(fd) ==>
              && SessionOf(fs).open[fd] == Handle(true, fs.openFiles[fd].inode, fs.openFiles[fd].offset)
              && fs.openFiles[fd].offset <= SIMPLEFS_MAX_FILE_SIZE
  {
    if fs.IsOpen(fd) {
      assert fs.openFiles[fd].used;
    }
  }

  // ---- the calls one by one --------------------------------------------------------------

  method DoFormat(fs: SimpleFs) returns (reply: Reply)
    requires fs.Valid() && fs.mounted
    modifies fs, fs.store
    ensures fs.Valid() && fs.mounted && Served(SessionOf(fs), reply) == Serve(old(SessionOf(fs)), FormatCall)
  {
    hide DescriptorsOk, Tight, Bytes, FreeCount, InodesOk, Marked, NoSharing, KindsOk, AccountOf, FormattedAccount;
    ClosedIsShut();
    var ok := fs.Format();
    return Done(ok);
  }

  method DoRemount(fs: SimpleFs) returns (reply: Reply)
    requires fs.Valid() && fs.mounted
    modifies fs, fs.store
    ensures fs.Valid() && fs.mounted && Served(SessionOf(fs), reply) == Serve(old(SessionOf(fs)), RemountCall)
  {
    fs.RemountRecovers();
    ClosedIsShut();
    var ok := fs.Init();
    return Done(ok);
  }

  method DoCreate(fs: SimpleFs, name: CString) returns (reply: Reply)
    requires fs.Valid() && fs.mounted
    modifies fs, fs.store
    ensures fs.Valid() && fs.mounted && Served(SessionOf(fs), reply) == Serve(old(SessionOf(fs)), CreateCall(name))
  {
    hide DescriptorsOk, Tight, Bytes, FreeCount, InodesOk, Marked, NoSharing, KindsOk, AccountOf, FsTree.Create, CreateCost, EntryFits;
    var ok := fs.Create(name);
    return Done(ok);
  }

  method DoMakeDir(fs: SimpleFs, name: CString) returns (reply: Reply)
    requires fs.Valid() && fs.mounted
    modifies fs, fs.store
    ensures fs.Valid() && fs.mounted && Served(SessionOf(fs), reply) == Serve(old(SessionOf(fs)), MakeDirCall(name))
  {
    hide DescriptorsOk, Tight, Bytes, FreeCount, InodesOk, Marked, NoSharing, KindsOk, AccountOf, MakeDirAnywhere, MakeDirCost, ChildFits,
         ParentFits;
    var ok := fs.MakeDir(name);
    return Done(ok);
  }

  method DoDelete(fs: SimpleFs, name: CString) returns (reply: Reply)
    requires fs.Valid() && fs.mounted
    modifies fs, fs.store
    ensures fs.Valid() && fs.mounted && Served(SessionOf(fs), reply) == Serve(old(SessionOf(fs)), DeleteCall(name))
  {
    hide DescriptorsOk, Tight, Bytes, FreeCount, InodesOk, Marked, NoSharing, KindsOk, AccountOf, FsTree.Delete, DeleteCost;
    OpenIsOpen(fs.openFiles);
    var ok := fs.Delete(name);
    return Done(ok);
  }

  method DoRemoveDir(fs: SimpleFs, name: CString) returns (reply: Reply)
    requires fs.Valid() && fs.mounted
    modifies fs, fs.store
    ensures fs.Valid() && fs.mounted && Served(SessionOf(fs), reply) == Serve(old(SessionOf(fs)), RemoveDirCall(name))
  {
    hide DescriptorsOk, Tight, Bytes, FreeCount, InodesOk, Marked, NoSharing, KindsOk, AccountOf, FsTree.RemoveDir, RemoveDirCost;
    var ok := fs.RemoveDir(name);
    return Done(ok);
  }

  method DoChangeDir(fs: SimpleFs, name: CString) returns (reply: Reply)
    requires fs.Valid() && fs.mounted
    modifies fs, fs.store
    ensures fs.Valid() && fs.mounted && Served(SessionOf(fs), reply) == Serve(old(SessionOf(fs)), ChangeDirCall(name))
  {
    hide DescriptorsOk, Tight, Bytes, FreeCount, InodesOk, Marked, NoSharing, KindsOk, AccountOf, FsTree.ChangeDir;
    var ok := fs.ChangeDir(name);
    return Done(ok);
  }

  method DoRead(fs: SimpleFs, name: CString, limit: nat) returns (reply: Reply)
    requires fs.Valid() && fs.mounted
    ensures Served(SessionOf(fs), reply) == Serve(SessionOf(fs), ReadCall(name, limit))
  {
    hide DescriptorsOk, Tight, Bytes, FreeCount, InodesOk, Marked, NoSharing, KindsOk, AccountOf, Slice;
    var ok, data := fs.ReadFile(name, limit);
    return if ok then Read(data) else Done(false);
  }

  method DoWrite(fs: SimpleFs, name: CString, data: seq<Byte>) returns (reply: Reply)
    requires fs.Valid() && fs.mounted
    modifies fs, fs.store
    ensures fs.Valid() && fs.mounted && Served(SessionOf(fs), reply) == Serve(old(SessionOf(fs)), WriteCall(name, data))
  {
    hide DescriptorsOk, Tight, Bytes, FreeCount, InodesOk, Marked, NoSharing, KindsOk, AccountOf, WriteFile, WriteCost, EntryFits, FileFits;
    var ok := fs.WriteFile(name, data);
    return Done(ok);
  }

  method DoAppend(fs: SimpleFs, name: CString, data: seq<Byte>) returns (reply: Reply)
    requires fs.Valid() && fs.mounted
    modifies fs, fs.store
    ensures fs.Valid() && fs.mounted && Served(SessionOf(fs), reply) == Serve(old(SessionOf(fs)), AppendCall(name, data))
  {
    hide DescriptorsOk, Tight, Bytes, FreeCount, InodesOk, Marked, NoSharing, KindsOk, AccountOf, WriteFile, WriteCost, EntryFits, FileFits,
         CanAppendFile, AppendedData;
    var ok := fs.AppendFile(name, data);
    return Done(ok);
  }

  // ---- descriptors ---------------------------------------------------------------------------

  lemma {:induction false} ShutBefore(open: seq<Handle>, fd: nat, k: nat)
    requires k <= fd <= |open| && (forall j :: k <= j < fd ==> open[j].used) && (fd < |open| ==> !open[fd].used)
    ensures FirstShut(open, k) == fd
    decreases fd - k
  {
    if k < fd {
      ShutBefore(open, fd, k + 1);
    }
  }

  method DoOpen(fs: SimpleFs, name: CString) returns (reply: Reply)
    requires fs.Valid() && fs.mounted
    modifies fs, fs.store
    ensures fs.Valid() && fs.mounted && Served(SessionOf(fs), reply) == Serve(old(SessionOf(fs)), OpenCall(name))
  {
    hide DescriptorsOk, Tight, Bytes, FreeCount, InodesOk, Marked, NoSharing, KindsOk, AccountOf, Lookup, OpenNow,
         WriteStep, WriteFdStep, ReadFdStep, Told, FreshSession, CanAppendFile, AppendedData, Slice;
    ghost var before, h := fs.openFiles, Handles(fs.openFiles);
    var fd := fs.Open(name);
    if fd >= 0 {
      ShutBefore(h, fd, 0);
      OneHandle(before, fd, fs.openFiles[fd]);
    } else if Names(fs.View(), name, Regular) {
      ShutBefore(h, SIMPLEFS_MAX_OPEN_FILES, 0);
    }
    return Descriptor(fd);
  }

  method DoClose(fs: SimpleFs, fd: nat) returns (reply: Reply)
    requires fs.Valid() && fs.mounted
    modifies fs, fs.store
    ensures fs.Valid() && fs.mounted && Served(SessionOf(fs), reply) == Serve(old(SessionOf(fs)), CloseCall(fd))
  {
    hide DescriptorsOk, Tight, Bytes, FreeCount, InodesOk, Marked, NoSharing, KindsOk, AccountOf;
    OpenDescriptor(fs, fd);
    ghost var before := fs.openFiles;
    var ok := fs.Close(fd);
    if ok {
      OneHandle(before, fd, CLOSED);
    }
    return Done(ok);
  }

  method DoSeek(fs: SimpleFs, fd: nat, offset: nat) returns (reply: Reply)
    requires fs.Valid() && fs.mounted
    modifies fs, fs.store
    ensures fs.Valid() && fs.mounted && Served(SessionOf(fs), reply) == Serve(old(SessionOf(fs)), SeekCall(fd, offset))
  {
    hide DescriptorsOk, Tight, Bytes, FreeCount, InodesOk, Marked, NoSharing, KindsOk, AccountOf;
    OpenDescriptor(fs, fd);
    ghost var before := fs.openFiles;
    var ok := fs.Seek(fd, offset);
    if ok {
      OneHandle(before, fd, fs.openFiles[fd]);
    }
    return Done(ok);
  }

  method DoReadFd(fs: SimpleFs, fd: nat, limit: nat) returns (reply: Reply)
    requires fs.Valid() && fs.mounted
    modifies fs, fs.store
    ensures fs.Valid() && fs.mounted && Served(SessionOf(fs), reply) == Serve(old(SessionOf(fs)), ReadFdCall(fd, limit))
  {
    hide DescriptorsOk, Tight, Slice, Bytes, FreeCount, AccountOf;
    OpenDescriptor(fs, fd);
    ghost var before := fs.openFiles;
    var ok, data := fs.ReadFd(fd, limit);
    if ok {
      OneHandle(before, fd, fs.openFiles[fd]);
    }
    return if ok then Read(data) else Done(false);
  }

  lemma {:induction false} ServesWriteFd(s: Session, fd: nat, data: seq<Byte>)
    requires Sized(s)
    ensures Serve(s, WriteFdCall(fd, data)) == WriteFdStep(s, fd, data)
  {
  }

  method DoWriteFd(fs: SimpleFs, fd: nat, data: seq<Byte>) returns (reply: Reply)
    requires fs.Valid() && fs.mounted && SIMPLEFS_MAX_FILE_SIZE + |data| < WORD_LIMIT
    modifies fs, fs.store
    ensures fs.Valid() && fs.mounted && Served(SessionOf(fs), reply) == Serve(old(SessionOf(fs)), WriteFdCall(fd, data))
  {
    hide DescriptorsOk, Tight, Splice, Bytes, FreeCount, Stored, InodesOk, Marked, NoSharing, KindsOk, AccountOf, FsAccount.Fits, Rewrite,
         Serve, NeededBlocks;
    ServesWriteFd(SessionOf(fs), fd, data);
    OpenDescriptor(fs, fd);
    ghost var before := fs.openFiles;
    var ok := fs.WriteFd(fd, data);
    if ok {
      OneHandle(before, fd, fs.openFiles[fd]);
    }
    return Done(ok);
  }

  // ---- any script -------------------------------------------------------------------------------

  /** Each call is one step of the session, and answers what the session answers: found
      blocks or not, and wherever the current directory is. */
  method Do(fs: SimpleFs, call: Call) returns (reply: Reply)
    requires fs.Valid() && fs.mounted && NoWrap(call)
    modifies fs, fs.store
    ensures fs.Valid() && fs.mounted && Served(SessionOf(fs), reply) == Serve(old(SessionOf(fs)), call)
  {
    hide DescriptorsOk, Tight, Serve, SimpleFs.Valid;
    match call {
      case FormatCall => reply := DoFormat(fs);
      case RemountCall => reply := DoRemount(fs);
      case CreateCall(name) => reply := DoCreate(fs, name);
      case MakeDirCall(name) => reply := DoMakeDir(fs, name);
      case DeleteCall(name) => reply := DoDelete(fs, name);
      case RemoveDirCall(name) => reply := DoRemoveDir(fs, name);
      case ChangeDirCall(name) => reply := DoChangeDir(fs, name);
      case ReadCall(name, limit) => reply := DoRead(fs, name, limit);
      case WriteCall(name, data) => reply := DoWrite(fs, name, data);
      case AppendCall(name, data) => reply := DoAppend(fs, name, data);
      case OpenCall(name) => reply := DoOpen(fs, name);
      case CloseCall(fd) => reply := DoClose(fs, fd);
      case SeekCall(fd, offset) => reply := DoSeek(fs, fd, offset);
      case ReadFdCall(fd, limit) => reply := DoReadFd(fs, fd, limit);
      case WriteFdCall(fd, data) => reply := DoWriteFd(fs, fd, data);
    }
  }

  /** Any script of calls on a mounted file system answers what the session answers, call by
      call, and ends as the session ends: directories, contents, descriptors and blocks. */
  method RunScript(fs: SimpleFs, script: seq<Call>) returns (replies: seq<Reply>)
    requires fs.Valid() && fs.mounted && forall i :: 0 <= i < |script| ==> NoWrap(script[i])
    modifies fs, fs.store
    ensures fs.Valid() && fs.mounted && SessionOf(fs) == Run(old(SessionOf(fs)), script)
    ensures replies == Replies(old(SessionOf(fs)), script)
    decreases |script|
  {
    hide DescriptorsOk, Tight, Serve, NoWrap, VolumeOk, SimpleFs.Valid;
    replies := [];
    if script != [] {
      var first := Do(fs, script[0]);
      var rest := RunScript(fs, script[1..]);
      replies := [first] + rest;
    }
  }

  /** Every mounted volume is in order, and leaks show in the account. */
  lemma {:induction false} VolumeInOrder(fs: SimpleFs)
    requires fs.Valid() && fs.mounted
    ensures InOrder(SessionOf(fs)) && HandlesOk(SessionOf(fs)) && Total(fs.Ledger()) <= SIMPLEFS_DATA_BLOCKS
    ensures Tight(fs.store.View()) <==> Total(fs.Ledger()) == SIMPLEFS_DATA_BLOCKS
  {
    hide Total, Tight;
    TightIffAccounted(fs.store.View());
    forall i | 0 <= i < SIMPLEFS_MAX_INODES
      ensures DirBlocks(|fs.View().dirs[i]|) <= fs.Ledger().own[i] && NeededBlocks(|fs.View().files[i]|) <= fs.Ledger().own[i]
    {
      HasItsBlocks(fs.store.View(), fs.currentDirectory, i);
    }
    forall fd | 0 <= fd < SIMPLEFS_MAX_OPEN_FILES && fs.openFiles[fd].used ensures IsFile(fs.View(), fs.openFiles[fd].inode) {
      OpenDescriptor(fs, fd);
    }
  }

  lemma {:induction false} HasItsBlocks(v: Volume, cwd: nat, i: nat)
    requires VolumeOk(v) && cwd < SIMPLEFS_MAX_INODES && i < SIMPLEFS_MAX_INODES
    ensures DirBlocks(|Abs(v, cwd).dirs[i]|) <= AccountOf(v).own[i] && NeededBlocks(|Abs(v, cwd).files[i]|) <= AccountOf(v).own[i]
  {
    hide NoSharing, Marked, FreeCount, OwnedCount;
    if v.used[i] {
      OwnsItsBlocks(v, i);
      assert ENTRY_SIZE * |Abs(v, cwd).dirs[i]| <= v.inodes[i].size && |Abs(v, cwd).files[i]| <= v.inodes[i].size;
    }
  }

  /** With the demand of a script free, the directories stay a tree unless a `rmdir .` meets
      an empty directory below the root, and no block leaks. */
  method RunProvided(fs: SimpleFs, script: seq<Call>) returns (replies: seq<Reply>)
    requires fs.Valid() && fs.mounted && forall i :: 0 <= i < |script| ==> NoWrap(script[i])
    requires DemandOver(script) <= fs.Ledger().free
    modifies fs, fs.store
    ensures fs.Valid() && fs.mounted && replies == Replies(old(SessionOf(fs)), script)
    ensures IsTree(old(fs.View())) && NeverRemovesHere(old(SessionOf(fs)), script) ==> IsTree(fs.View())
    ensures Tight(old(fs.store.View())) ==> Tight(fs.store.View())
  {
    hide DescriptorsOk, Tight, NoWrap, VolumeOk, SimpleFs.Valid, IsTree, InOrder, Total, HandlesOk, Run, Replies, NeverRemovesHere, DemandOver,
         SimpleFs.View, SimpleFs.Ledger;
    VolumeInOrder(fs);
    SessionIs(fs);
    ProvidedRun(SessionOf(fs), script);
    replies := RunScript(fs, script);
    VolumeInOrder(fs);
    SessionIs(fs);
  }

  lemma {:induction false} SessionIs(fs: SimpleFs)
    requires fs.Valid() && fs.mounted
    ensures SessionOf(fs).fs == fs.View() && SessionOf(fs).account == fs.Ledger()
  {
  }
}
