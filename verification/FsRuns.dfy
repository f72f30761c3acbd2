/** Runs of file system calls: what each does and answers, when they keep the directories a
    tree, what open descriptors name, and where the blocks are. */
module FsRuns {
  import opened Machine
  import opened FsLayout
  import opened FsEntries
  import opened FsTree
  import opened FsFiles
  import opened FsAccount
  import opened FsCosts

  datatype Handle = Handle(used: bool, inode: nat, offset: nat)

  const SHUT := Handle(false, 0, 0)

  /** The mounted tree, the descriptor table and the account of blocks. */
  datatype Session = Session(fs: Fs, open: seq<Handle>, account: Account)

  datatype Call =
    | FormatCall
    | RemountCall
    | CreateCall(name: CString)
    | MakeDirCall(name: CString)
    | DeleteCall(name: CString)
    | RemoveDirCall(name: CString)
    | ChangeDirCall(name: CString)
    | ReadCall(name: CString, limit: nat)
    | WriteCall(name: CString, data: seq<Byte>)
    | AppendCall(name: CString, data: seq<Byte>)
    | OpenCall(name: CString)
    | CloseCall(fd: nat)
    | SeekCall(fd: nat, offset: nat)
    | ReadFdCall(fd: nat, limit: nat)
    | WriteFdCall(fd: nat, data: seq<Byte>)

  /** What a call answers: success, a descriptor or -1, or the bytes read. */
  datatype Reply = Done(ok: bool) | Descriptor(fd: int) | Read(data: seq<Byte>)

  datatype Served = Served(after: Session, reply: Reply)

  ghost predicate Sized(s: Session) {
    && |s.fs.kinds| == |s.fs.dirs| == |s.fs.files| == |s.account.own| == SIMPLEFS_MAX_INODES && s.fs.cwd < SIMPLEFS_MAX_INODES
    && |s.open| == SIMPLEFS_MAX_OPEN_FILES
  }

  function Shut(): seq<Handle> {
    seq(SIMPLEFS_MAX_OPEN_FILES, _ => SHUT)
  }

  /** Every open descriptor names an allocated regular file. */
  ghost predicate HandlesOk(s: Session)
    requires Sized(s)
  {
    forall fd :: 0 <= fd < SIMPLEFS_MAX_OPEN_FILES && s.open[fd].used ==> IsFile(s.fs, s.open[fd].inode)
  }

  predicate IsFile(fs: Fs, i: nat) {
    i < |fs.kinds| && i < |fs.files| && fs.kinds[i].Regular?
  }

  function OpenNow(open: seq<Handle>): set<nat> {
    set fd | 0 <= fd < |open| && open[fd].used :: open[fd].inode
  }

  function FirstShut(open: seq<Handle>, k: nat): (fd: nat)
    requires k <= |open|
    ensures k <= fd <= |open| && (fd < |open| ==> !open[fd].used)
    decreases |open| - k
  {
    if k == |open| || !open[k].used then k else FirstShut(open, k + 1)
  }

  predicate IsOpen(s: Session, fd: nat) {
    fd < |s.open| && s.open[fd].used && IsFile(s.fs, s.open[fd].inode)
  }

  function Moved(h: Handle, n: nat): Handle {
    h.(offset := h.offset + n)
  }

  function FreshSession(): (s: Session)
    ensures Sized(s)
  {
    Session(Formatted(), Shut(), FormattedAccount())
  }

  ghost function Told(s: Session, o: Outcome, a: Account): Served {
    Served(Session(o.fs, s.open, a), Done(o.ok))
  }

  ghost function WriteStep(s: Session, name: CString, data: seq<Byte>): (r: Served)
    requires Sized(s)
    ensures Sized(r.after)
  {
    Told(s, WriteFile(s.fs, name, data, EntryFits(s.fs, s.account), FileFits(s.fs, s.account, name, |data|)),
         WriteCost(s.fs, s.account, name, |data|))
  }

  ghost function OpenStep(s: Session, name: CString): (r: Served)
    requires Sized(s)
    ensures Sized(r.after)
  {
    var fd := FirstShut(s.open, 0);
    if !Names(s.fs, name, Regular) || fd == SIMPLEFS_MAX_OPEN_FILES then Served(s, Descriptor(-1))
    else Served(s.(open := s.open[fd := Handle(true, s.fs.dirs[s.fs.cwd][Lookup(s.fs, name)].inode, 0)]), Descriptor(fd))
  }

  ghost function ReadFdStep(s: Session, fd: nat, limit: nat): (r: Served)
    requires Sized(s)
    ensures Sized(r.after)
  {
    if !IsOpen(s, fd) then Served(s, Done(false))
    else
      var data := Slice(s.fs.files[s.open[fd].inode], s.open[fd].offset, limit);
      Served(s.(open := s.open[fd := Moved(s.open[fd], |data|)]), Read(data))
  }

  ghost function WriteFdStep(s: Session, fd: nat, data: seq<Byte>): (r: Served)
    requires Sized(s)
    ensures Sized(r.after)
  {
    if !IsOpen(s, fd) || s.open[fd].offset + |data| > SIMPLEFS_MAX_FILE_SIZE then Served(s, Done(false))
    else
      var h := s.open[fd];
      var after := Splice(s.fs.files[h.inode], h.offset, data);
      var fits := Fits(s.account, h.inode, NeededBlocks(|after|));
      Served(Session(Stored(s.fs, h.inode, after, fits), if fits then s.open[fd := Moved(h, |data|)] else s.open,
                     Rewrite(s.account, h.inode, NeededBlocks(|after|))),
             Done(fits))
  }

  /** What a call makes of a session, and what it answers. */
  ghost function Serve(s: Session, c: Call): (r: Served)
    requires Sized(s)
    ensures Sized(r.after)
  {
    match c
    case FormatCall => Served(FreshSession(), Done(true))
    case RemountCall => Served(Session(s.fs.(cwd := SIMPLEFS_ROOT_INODE), Shut(), s.account), Done(true))
    case CreateCall(name) => Told(s, Create(s.fs, name, EntryFits(s.fs, s.account)), CreateCost(s.fs, s.account, name))
    case MakeDirCall(name) =>
      Told(s, MakeDirAnywhere(s.fs, name, ChildFits(s.account), ParentFits(s.fs, s.account)), MakeDirCost(s.fs, s.account, name))
    case DeleteCall(name) => Told(s, Delete(s.fs, name, OpenNow(s.open)), DeleteCost(s.fs, s.account, name, OpenNow(s.open)))
    case RemoveDirCall(name) => Told(s, RemoveDir(s.fs, name), RemoveDirCost(s.fs, s.account, name))
    case ChangeDirCall(name) => Told(s, ChangeDir(s.fs, name), s.account)
    case ReadCall(name, limit) =>
      Served(s, if !Names(s.fs, name, Regular) then Done(false)
                else Read(Slice(s.fs.files[s.fs.dirs[s.fs.cwd][Lookup(s.fs, name)].inode], 0, limit)))
    case WriteCall(name, data) => WriteStep(s, name, data)
    case AppendCall(name, data) =>
      if !CanAppendFile(s.fs, name, data) then Served(s, Done(false)) else WriteStep(s, name, AppendedData(s.fs, name, data))
    case OpenCall(name) => OpenStep(s, name)
    case CloseCall(fd) => if !IsOpen(s, fd) then Served(s, Done(false)) else Served(s.(open := s.open[fd := SHUT]), Done(true))
    case SeekCall(fd, offset) =>
      if !IsOpen(s, fd) || offset > |s.fs.files[s.open[fd].inode]| then Served(s, Done(false))
      else Served(s.(open := s.open[fd := s.open[fd].(offset := offset)]), Done(true))
    case ReadFdCall(fd, limit) => ReadFdStep(s, fd, limit)
    case WriteFdCall(fd, data) => WriteFdStep(s, fd, data)
  }

  ghost function Step(s: Session, c: Call): (after: Session)
    requires Sized(s)
    ensures Sized(after)
  {
    Serve(s, c).after
  }

  /** The session after a run of calls. */
  ghost function Run(s: Session, calls: seq<Call>): (after: Session)
    requires Sized(s)
    ensures Sized(after)
    decreases |calls|
  {
    if calls == [] then s else Run(Step(s, calls[0]), calls[1..])
  }

  /** What the calls of a run answer. */
  ghost function Replies(s: Session, calls: seq<Call>): (replies: seq<Reply>)
    requires Sized(s)
    ensures |replies| == |calls|
    decreases |calls|
  {
    if calls == [] then [] else [Serve(s, calls[0]).reply] + Replies(Step(s, calls[0]), calls[1..])
  }

  // ---- trees ---------------------------------------------------------------------------------

  predicate RemovesHere(fs: Fs, c: Call)
    requires fs.cwd < |fs.dirs|
  {
    c.RemoveDirCall? && c.name == DOT && fs.cwd != SIMPLEFS_ROOT_INODE && |fs.dirs[fs.cwd]| == 2
  }

  /** The calls that break the tree: those that lose the current directory's entries for
      want of a block, and `rmdir .` in an empty directory below the root. */
  ghost predicate Breaks(s: Session, c: Call)
    requires Sized(s)
  {
    match c
    case CreateCall(name) => CanAdd(s.fs, name) && !EntryFits(s.fs, s.account)
    case MakeDirCall(name) => CanAdd(s.fs, name) && ChildFits(s.account) && !ParentFits(s.fs, s.account)
    case RemoveDirCall(name) => RemovesHere(s.fs, c)
    case WriteCall(name, data) => |data| <= SIMPLEFS_MAX_FILE_SIZE && CanAdd(s.fs, name) && !EntryFits(s.fs, s.account)
    case AppendCall(name, data) => |data| <= SIMPLEFS_MAX_FILE_SIZE && CanAdd(s.fs, name) && !EntryFits(s.fs, s.account)
    case _ => false
  }

  /** No call of the run is one that breaks the tree it meets. */
  ghost predicate Unbroken(s: Session, calls: seq<Call>)
    requires Sized(s)
    decreases |calls|
  {
    calls != [] ==> !Breaks(s, calls[0]) && Unbroken(Step(s, calls[0]), calls[1..])
  }

  lemma {:induction false} WriteKeepsTreeExactly(fs: Fs, name: CString, data: seq<Byte>, dirRoom: bool, fileRoom: bool)
    requires IsTree(fs) && fs.cwd < |fs.dirs| == |fs.kinds| == |fs.files| == SIMPLEFS_MAX_INODES
    ensures IsTree(WriteFile(fs, name, data, dirRoom, fileRoom).fs)
       <==> !(|data| <= SIMPLEFS_MAX_FILE_SIZE && CanAdd(fs, name) && !dirRoom)
  {
    if ValidName(name) && |data| <= SIMPLEFS_MAX_FILE_SIZE {
      if Lookup(fs, name) < 0 {
        CreateKeepsTreeExactly(fs, name, dirRoom);
        var created := Create(fs, name, dirRoom);
        if created.ok {
          FilesDontShapeTrees(created.fs, FirstFree(fs.kinds, 0), if fileRoom then data else []);
        }
      } else if Names(fs, name, Regular) {
        FilesDontShapeTrees(fs, fs.dirs[fs.cwd][Lookup(fs, name)].inode, if fileRoom then data else []);
      }
    }
  }

  lemma {:induction false} RemountKeepsTree(fs: Fs)
    requires IsTree(fs)
    ensures IsTree(fs.(cwd := SIMPLEFS_ROOT_INODE))
  {
    var home, depth :| Tree(fs, home, depth);
    var after := fs.(cwd := SIMPLEFS_ROOT_INODE);
    forall d | 0 <= d < SIMPLEFS_MAX_INODES && after.kinds[d].Directory? ensures DirOk(after, home, d) {
      assert DirOk(fs, home, d);
      forall k | 2 <= k < |fs.dirs[d]| ensures ChildOk(after, home, d, fs.dirs[d][k]) {
        assert ChildOk(fs, home, d, fs.dirs[d][k]);
      }
    }
    forall c | 0 < c < SIMPLEFS_MAX_INODES && !after.kinds[c].FreeInode? ensures NodeOk(after, home, depth, c) {
      assert NodeOk(fs, home, depth, c);
    }
    assert Tree(after, home, depth);
  }

  lemma {:induction false} WriteFdKeepsTree(s: Session, fd: nat, data: seq<Byte>)
    requires Sized(s) && IsTree(s.fs)
    ensures IsTree(WriteFdStep(s, fd, data).after.fs)
  {
    hide Splice, IsTree;
    if IsOpen(s, fd) {
      var h := s.open[fd];
      var after := Splice(s.fs.files[h.inode], h.offset, data);
      FilesDontShapeTrees(s.fs, h.inode, if Fits(s.account, h.inode, NeededBlocks(|after|)) then after else []);
    }
  }

  /** An append to a name that is still to be created writes just the data. */
  lemma {:induction false} AppendAsWritten(fs: Fs, name: CString, data: seq<Byte>)
    requires fs.cwd < |fs.dirs| == |fs.kinds| == |fs.files|
    ensures CanAdd(fs, name) ==>
              && AppendedData(fs, name, data) == data
              && (CanAppendFile(fs, name, data) <==> |data| <= SIMPLEFS_MAX_FILE_SIZE)
  {
  }

  /** In a tree the current directory is there, so `mkdir` has nothing to revive. */
  lemma {:induction false} NothingToRevive(fs: Fs, name: CString)
    requires IsTree(fs)
    ensures Shape(fs) && fs.kinds[fs.cwd].Directory? && !Reviving(fs, name)
  {
  }

  /** Each call keeps the tree exactly when it is not one of those. */
  lemma {:induction false} StepKeepsTreeExactly(s: Session, c: Call)
    requires Sized(s) && IsTree(s.fs)
    ensures IsTree(Step(s, c).fs) <==> !Breaks(s, c)
  {
    hide Splice, Slice, Formatted, IsTree, Create, MakeDir, Delete, RemoveDir, ChangeDir, WriteFile, FirstShut, OpenNow, FirstFree, Lookup,
         Names, CanAdd, CanAppendFile, AppendedData, Reviving, EntryFits, ChildFits, ParentFits, FileFits, CreateCost, MakeDirCost,
         DeleteCost, RemoveDirCost, WriteCost, WriteFdStep;
    match c
    case FormatCall => FormattedIsTree();
    case RemountCall => RemountKeepsTree(s.fs);
    case CreateCall(name) => CreateKeepsTreeExactly(s.fs, name, EntryFits(s.fs, s.account));
    case MakeDirCall(name) =>
      NothingToRevive(s.fs, name);
      MakeDirKeepsTreeExactly(s.fs, name, ChildFits(s.account), ParentFits(s.fs, s.account));
    case DeleteCall(name) => DeleteKeepsTree(s.fs, name, OpenNow(s.open));
    case RemoveDirCall(name) => RemoveDirKeepsTreeExactly(s.fs, name);
    case ChangeDirCall(name) => ChangeDirKeepsTree(s.fs, name);
    case WriteCall(name, data) =>
      WriteKeepsTreeExactly(s.fs, name, data, EntryFits(s.fs, s.account), FileFits(s.fs, s.account, name, |data|));
    case AppendCall(name, data) =>
      var whole := AppendedData(s.fs, name, data);
      WriteKeepsTreeExactly(s.fs, name, whole, EntryFits(s.fs, s.account), FileFits(s.fs, s.account, name, |whole|));
      AppendAsWritten(s.fs, name, data);
    case WriteFdCall(fd, data) => WriteFdKeepsTree(s, fd, data);
    case _ =>
  }

  /** After any run from a tree without such a call the directories are a tree. */
  lemma {:induction false} RunsKeepTree(s: Session, calls: seq<Call>)
    requires Sized(s) && IsTree(s.fs) && Unbroken(s, calls)
    ensures IsTree(Run(s, calls).fs)
    decreases |calls|
  {
    if calls != [] {
      StepKeepsTreeExactly(s, calls[0]);
      RunsKeepTree(Step(s, calls[0]), calls[1..]);
    }
  }

  // ---- descriptors ------------------------------------------------------------------------------

  /** No call takes the file from under an open descriptor: deleting spares open files, and
      nothing else ends or changes the kind of a regular file. */
  lemma {:induction false} StepKeepsHandles(s: Session, c: Call)
    requires Sized(s) && HandlesOk(s)
    ensures HandlesOk(Step(s, c))
  {
    hide Splice, Slice, Formatted, Encodable;
    var after := Step(s, c);
    forall fd | 0 <= fd < SIMPLEFS_MAX_OPEN_FILES && after.open[fd].used ensures IsFile(after.fs, after.open[fd].inode) {
      if s.open[fd].used && after.open[fd].inode == s.open[fd].inode {
        assert IsFile(s.fs, s.open[fd].inode) && s.open[fd].inode in OpenNow(s.open);
        FilesStayFiles(s, c, s.open[fd].inode);
      }
    }
  }

  lemma {:induction false} FilesStayFiles(s: Session, c: Call, i: nat)
    requires Sized(s) && IsFile(s.fs, i) && i in OpenNow(s.open) && !c.FormatCall?
    ensures IsFile(Step(s, c).fs, i)
  {
    hide Splice, Slice, Formatted;
    FreeIsNoFile(s.fs, i);
  }

  lemma {:induction false} FreeIsNoFile(fs: Fs, i: nat)
    requires IsFile(fs, i)
    ensures FirstFree(fs.kinds, 0) != i
  {
  }

  /** On every run, from any session whose descriptors are in order, every open descriptor
      names an allocated regular file. */
  lemma {:induction false} RunsKeepHandles(s: Session, calls: seq<Call>)
    requires Sized(s) && HandlesOk(s)
    ensures HandlesOk(Run(s, calls))
    decreases |calls|
  {
    if calls != [] {
      StepKeepsHandles(s, calls[0]);
      RunsKeepHandles(Step(s, calls[0]), calls[1..]);
    }
  }
}
