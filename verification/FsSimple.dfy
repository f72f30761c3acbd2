/** The public calls of SimpleFS, over the block and inode layer. */
module FsSimple {
  import opened Machine
  import opened Bitmap
  import opened FsLayout
  import opened FsVolume
  import opened FsAccount
  import opened FsLedger
  import opened FsStore
  import opened FsBlockStore
  import opened FsEntries
  import opened FsTree
  import opened FsView
  import opened FsFiles
  import opened FsCosts

  datatype OpenFile = OpenFile(used: bool, inode: U32, offset: U32, name: CString)

  const CLOSED := OpenFile(false, SIMPLEFS_INVALID_INODE, 0, [])

  function AllClosed(): seq<OpenFile> {
    seq(SIMPLEFS_MAX_OPEN_FILES, _ => CLOSED)
  }

  /** Every open descriptor names an allocated regular file. */
  ghost predicate DescriptorsOk(v: Volume, open: seq<OpenFile>)
    requires VolumeOk(v)
  {
    forall fd :: 0 <= fd < |open| && open[fd].used ==>
      && open[fd].inode < SIMPLEFS_MAX_INODES && KindOf(v, open[fd].inode).Regular?
      && open[fd].offset <= SIMPLEFS_MAX_FILE_SIZE
  }

  ghost function OpenInodes(open: seq<OpenFile>): set<nat> {
    set fd | 0 <= fd < |open| && open[fd].used :: open[fd].inode
  }

  class SimpleFs {
    const store: BlockStore
    var mounted: bool
    var currentDirectory: nat
    var openFiles: seq<OpenFile>

    /** At power-up nothing is mounted; the disk holds whatever it holds. */
    constructor (store: BlockStore)
      requires BlocksShaped(store.blocks) && |store.diskInfo.inodeBitmap| == |store.diskInodes| == SIMPLEFS_MAX_INODES
      ensures Valid() && !mounted && this.store == store
    {
      this.store := store;
      mounted := false;
      currentDirectory := SIMPLEFS_ROOT_INODE;
      openFiles := AllClosed();
    }

    ghost predicate Mounted()
      reads this, store
    {
      && VolumeOk(store.View())
      && KindOf(store.View(), SIMPLEFS_ROOT_INODE).Directory?
      && WellKnown(store.boot, store.info) && store.Synced()
      && currentDirectory < SIMPLEFS_MAX_INODES
      && |openFiles| == SIMPLEFS_MAX_OPEN_FILES
      && DescriptorsOk(store.View(), openFiles)
    }

    ghost predicate Valid()
      reads this, store
    {
      && BlocksShaped(store.blocks)
      && |store.diskInfo.inodeBitmap| == |store.diskInodes| == SIMPLEFS_MAX_INODES
      && |openFiles| == SIMPLEFS_MAX_OPEN_FILES
      && (mounted ==> Mounted())
    }

    ghost function View(): Fs
      requires Mounted()
      reads this, store
    {
      Abs(store.View(), currentDirectory)
    }

    /** Which blocks are free, and how many each inode holds. */
    ghost function Ledger(): Account
      requires Mounted()
      reads this, store
    {
      AccountOf(store.View())
    }

    // ---- directory files ------------------------------------------------------------

    method ReadDirectoryEntries(d: nat) returns (ok: bool, entries: seq<Entry>)
      requires Mounted()
      ensures ok <==> d < SIMPLEFS_MAX_INODES && View().kinds[d].Directory?
      ensures ok ==> entries == View().dirs[d] && |entries| <= SIMPLEFS_MAX_DIRECTORY_ENTRIES
    {
      entries := [];
      if d >= SIMPLEFS_MAX_INODES || !store.info.inodeBitmap[d] {
        return false, entries;
      }
      if !store.inodes[d].kind.Directory? || store.inodes[d].size > SIMPLEFS_MAX_FILE_SIZE {
        return false, entries;
      }
      var bytes;
      ok, bytes := store.ReadInodeBytes(d, 0, SIMPLEFS_MAX_FILE_SIZE);
      assert bytes == Bytes(store.View(), d);
      entries := DecodeEntries(bytes);
    }

    method WriteDirectoryEntries(d: nat, entries: seq<Entry>) returns (ok: bool)
      requires Mounted() && d < SIMPLEFS_MAX_INODES && View().kinds[d].Directory?
      requires Encodable(entries) && |entries| <= SIMPLEFS_MAX_DIRECTORY_ENTRIES
      modifies store
      ensures Mounted()
      ensures ok <==> Fits(old(Ledger()), d, DirBlocks(|entries|))
      ensures View() == old(View()).(dirs := old(View()).dirs[d := if ok then entries else []])
      ensures Ledger() == Rewrite(old(Ledger()), d, DirBlocks(|entries|))
    {
      ghost var v := store.View();
      ok := store.WriteInodeData(d, EncodeEntries(entries));
      hide Sound, KindsOk, WellKnown, Tight, Abs, EncodeEntries, AccountOf, Rewrite;
      DirectoryWritten(v, store.View(), currentDirectory, d, entries, ok);
      DescriptorsKept(v, store.View(), currentDirectory, openFiles);
    }

    method FindEntry(d: nat, name: CString) returns (slot: int, entry: Entry)
      requires Mounted() && d < SIMPLEFS_MAX_INODES
      ensures slot == Find(View().dirs[d], name, 0)
      ensures slot >= 0 ==> entry == View().dirs[d][slot]
    {
      entry := Entry(SIMPLEFS_INVALID_INODE, []);
      var ok, entries := ReadDirectoryEntries(d);
      if !ok {
        return -1, entry;
      }
      for i := 0 to |entries|
        invariant Find(entries, name, 0) == Find(entries, name, i)
      {
        if entries[i].inode != SIMPLEFS_INVALID_INODE && entries[i].name == name {
          return i, entries[i];
        }
      }
      return -1, entry;
    }

    method AppendEntry(d: nat, name: CString, child: U32) returns (ok: bool)
      requires Mounted() && d < SIMPLEFS_MAX_INODES && |name| < NAME_SIZE
      modifies store
      ensures Mounted()
      ensures !AppendPossible(old(View()), d) ==> !ok && store.View() == old(store.View())
      ensures AppendPossible(old(View()), d) ==>
                && (ok <==> Fits(old(Ledger()), d, DirBlocks(|old(View()).dirs[d]| + 1)))
                && View() == old(View()).(dirs := old(View()).dirs[d := if ok then old(View()).dirs[d] + [Entry(child, name)] else []])
                && Ledger() == Rewrite(old(Ledger()), d, DirBlocks(|old(View()).dirs[d]| + 1))
    {
      hide Sound, KindsOk, WellKnown, DescriptorsOk, Tight, Abs, AccountOf, Rewrite, Fits, DirBlocks;
      var found, entries := ReadDirectoryEntries(d);
      if !found || |entries| >= SIMPLEFS_MAX_DIRECTORY_ENTRIES {
        return false;
      }
      ok := WriteDirectoryEntries(d, entries + [Entry(child, name)]);
    }

    /** The entries after the removed one move up; the shorter directory always fits. */
    method RemoveEntry(d: nat, name: CString) returns (ok: bool)
      requires Mounted() && d < SIMPLEFS_MAX_INODES
      modifies store
      ensures Mounted()
      ensures ok <==> Find(old(View()).dirs[d], name, 0) >= 0
      ensures !ok ==> store.View() == old(store.View())
      ensures ok ==>
                && View() == old(View()).(dirs := old(View()).dirs[d := WithoutSlot(old(View()).dirs[d], Find(old(View()).dirs[d], name, 0))])
                && Ledger() == Rewrite(old(Ledger()), d, DirBlocks(|old(View()).dirs[d]| - 1))
    {
      hide Sound, KindsOk, WellKnown, DescriptorsOk, Tight, Abs, AccountOf, Rewrite, Fits, DirBlocks;
      var slot, entry := FindEntry(d, name);
      if slot < 0 {
        return false;
      }
      var found, entries := ReadDirectoryEntries(d);
      ShorterFits(store.View(), currentDirectory, d, |entries|);
      ok := WriteDirectoryEntries(d, entries[..slot] + entries[slot + 1..]);
    }

    // ---- inodes -----------------------------------------------------------------------

    method NewInode(kind: InodeKind) returns (ok: bool, i: nat)
      requires Mounted() && !kind.FreeInode?
      modifies store
      ensures Mounted() && Ledger() == old(Ledger())
      ensures ok <==> FirstFree(old(View()).kinds, 0) < SIMPLEFS_MAX_INODES
      ensures !ok ==> View() == old(View())
      ensures ok ==>
                && i == FirstFree(old(View()).kinds, 0) && 0 < i && i !in OpenInodes(openFiles)
                && View() == old(View()).(kinds := old(View()).kinds[i := kind])
    {
      hide Sound, KindsOk, DescriptorsOk, Tight, Abs, FreeCount, Bytes, AccountOf;
      ghost var v := store.View();
      FreeKinds(v, currentDirectory);
      ok, i := store.AllocateInode(kind);
      if ok {
        NodeTaken(v, store.View(), currentDirectory, i, openFiles);
      }
    }

    method DropInode(i: nat)
      requires Mounted() && 0 < i < SIMPLEFS_MAX_INODES && !View().kinds[i].FreeInode? && i !in OpenInodes(openFiles)
      modifies store
      ensures Mounted()
      ensures View() == Without(old(View()), i) && Ledger() == Release(old(Ledger()), i)
    {
      var ok := store.ReleaseInode(i);
      NodeLeft(old(store.View()), store.View(), currentDirectory, i);
      OneAccountMoves(old(store.View()), store.View(), i);
    }

    /** The directory's `link_count`, a statistic, goes up or down by one. */
    method CountLink(d: nat, up: bool)
      requires Mounted() && d < SIMPLEFS_MAX_INODES
      modifies store
      ensures Mounted() && View() == old(View()) && Ledger() == old(Ledger())
    {
      hide Sound, KindsOk, DescriptorsOk, Tight, Abs, FreeCount, Bytes, AccountOf;
      AnInodeEach(store.View());
      var count := store.inodes[d].linkCount;
      if up {
        store.SetLinkCount(d, (count + 1) % 0x1_0000);
      } else if count > 0 {
        store.SetLinkCount(d, count - 1);
      }
      if up || count > 0 {
        LinkCountsDontShow(old(store.View()), store.View(), currentDirectory);
        DescriptorsKept(old(store.View()), store.View(), currentDirectory, openFiles);
        SameAccount(old(store.View()), store.View());
      }
    }

    // ---- creating and removing ------------------------------------------------------

    /** Enters node `i` in the current directory; when that fails the node goes. Only files
        are counted in the directory's `link_count`. */
    method EnterNode(name: CString, i: nat) returns (ok: bool)
      requires Mounted() && 0 < i < SIMPLEFS_MAX_INODES && !View().kinds[i].FreeInode? && |name| < NAME_SIZE && i !in OpenInodes(openFiles)
      modifies store
      ensures Mounted()
      ensures ok <==> AppendPossible(old(View()), currentDirectory) && EntryFits(old(View()), old(Ledger()))
      ensures View() == Entered(old(View()), name, i, ok)
      ensures Ledger() == EnterCost(old(View()), old(Ledger()), i, ok)
    {
      hide Sound, KindsOk, WellKnown, DescriptorsOk, Tight, Abs, AccountOf, Rewrite, Fits, DirBlocks, Release;
      AbsIsThere(store.View(), currentDirectory);
      ok := AppendEntry(currentDirectory, name, i);
      if !ok {
        DropInode(i);
      }
    }

    /** A call's outcome is the tree's, and it costs what the account says. */
    ghost predicate Did(o: Outcome, a: Account, ok: bool)
      requires Mounted()
      reads this, store
    {
      o == Outcome(View(), ok) && a == Ledger()
    }

    method Create(name: CString) returns (ok: bool)
      requires Valid()
      modifies store
      ensures Valid()
      ensures !mounted ==> !ok && store.View() == old(store.View())
      ensures mounted ==> Did(FsTree.Create(old(View()), name, EntryFits(old(View()), old(Ledger()))),
                              CreateCost(old(View()), old(Ledger()), name), ok)
    {
      if !mounted {
        return false;
      }
      ok := CreateMounted(name);
    }

    method CreateMounted(name: CString) returns (ok: bool)
      requires Mounted()
      modifies store
      ensures Mounted()
      ensures Did(FsTree.Create(old(View()), name, EntryFits(old(View()), old(Ledger()))),
                  CreateCost(old(View()), old(Ledger()), name), ok)
    {
      var slot, _ := FindEntry(currentDirectory, name);
      if !ValidName(name) || slot >= 0 {
        return false;
      }
      ok := AddFile(name);
    }

    method AddFile(name: CString) returns (ok: bool)
      requires Mounted() && ValidName(name) && Lookup(View(), name) < 0
      modifies store
      ensures Mounted()
      ensures Did(FsTree.Create(old(View()), name, EntryFits(old(View()), old(Ledger()))),
                  CreateCost(old(View()), old(Ledger()), name), ok)
    {
      hide Sound, KindsOk, WellKnown, DescriptorsOk, Tight, Abs, AccountOf, Entered, EnterCost, EntryFits, FsTree.Create, CreateCost, Lookup;
      AbsIsThere(store.View(), currentDirectory);
      ghost var fs, a := View(), Ledger();
      FreeOwnsNothing();
      var i;
      ok, i := NewInode(Regular);
      if !ok {
        NoInodeNoFile(fs, a, name);
        return;
      }
      ok := EnterNode(name, i);
      if ok {
        CountLink(currentDirectory, true);
      }
      CreateIsEntered(fs, a, name, i, ok);
    }

    method MakeDir(name: CString) returns (ok: bool)
      requires Valid()
      modifies store
      ensures Valid()
      ensures !mounted ==> !ok && store.View() == old(store.View())
      ensures mounted ==>
                Did(MakeDirAnywhere(old(View()), name, ChildFits(old(Ledger())), ParentFits(old(View()), old(Ledger()))),
                    MakeDirCost(old(View()), old(Ledger()), name), ok)
    {
      if !mounted {
        return false;
      }
      ok := MakeDirMounted(name);
    }

    method MakeDirMounted(name: CString) returns (ok: bool)
      requires Mounted()
      modifies store
      ensures Mounted()
      ensures Did(MakeDirAnywhere(old(View()), name, ChildFits(old(Ledger())), ParentFits(old(View()), old(Ledger()))),
                  MakeDirCost(old(View()), old(Ledger()), name), ok)
    {
      var slot, _ := FindEntry(currentDirectory, name);
      if !ValidName(name) || slot >= 0 {
        return false;
      }
      ok := AddDirectory(name);
    }

    method AddDirectory(name: CString) returns (ok: bool)
      requires Mounted() && ValidName(name) && Lookup(View(), name) < 0
      modifies store
      ensures Mounted()
      ensures Did(MakeDirAnywhere(old(View()), name, ChildFits(old(Ledger())), ParentFits(old(View()), old(Ledger()))),
                  MakeDirCost(old(View()), old(Ledger()), name), ok)
    {
      hide Sound, KindsOk, WellKnown, DescriptorsOk, Tight, Abs, AccountOf, Entered, EnterCost, EntryFits, MakeDirAnywhere, MakeDirCost,
           WithChild, ParentFits, ChildFits, Lookup;
      AbsIsThere(store.View(), currentDirectory);
      ghost var fs, a := View(), Ledger();
      FreeOwnsNothing();
      var i;
      ok, i := TakeDirectory();
      if !ok {
        NoDirectoryMade(fs, a, name);
        return;
      }
      ok := EnterNode(name, i);
      MakeDirIsEntered(fs, a, name, ok);
    }

    /** A fresh directory with its two entries on disk, not yet named. */
    method TakeDirectory() returns (ok: bool, i: nat)
      requires Mounted()
      modifies store
      ensures Mounted()
      ensures ok <==> FirstFree(old(View()).kinds, 0) < SIMPLEFS_MAX_INODES && ChildFits(old(Ledger()))
      ensures !ok ==> View() == old(View()) && Ledger() == old(Ledger())
      ensures ok ==>
                && i == FirstFree(old(View()).kinds, 0) && 0 < i && i !in OpenInodes(openFiles)
                && View() == ChildTaken(old(View()), i) && Ledger() == WithChild(old(Ledger()), i)
    {
      hide Sound, KindsOk, WellKnown, DescriptorsOk, Tight, Abs, AccountOf;
      AbsIsThere(store.View(), currentDirectory);
      FreeOwnsNothing();
      ghost var fs, a := View(), Ledger();
      ok, i := NewInode(Directory);
      if !ok {
        return;
      }
      ok := WriteDirectoryEntries(i, NewDirectory(i, currentDirectory));
      if !ok {
        DropInode(i);
        NothingTaken(fs, a, i, Directory);
      }
    }

    lemma {:induction false} FreeOwnsNothing()
      requires Mounted()
      ensures forall i :: 0 <= i < SIMPLEFS_MAX_INODES && View().kinds[i].FreeInode? ==> Ledger().own[i] == 0
    {
    }

    /** The shared end of `delete` and `rmdir`: the entry goes, then the inode. */
    method RemoveNode(name: CString, c: nat)
      requires Mounted() && Lookup(View(), name) >= 0 && View().dirs[currentDirectory][Lookup(View(), name)].inode == c
      requires 0 < c < SIMPLEFS_MAX_INODES && !View().kinds[c].FreeInode? && c !in OpenInodes(openFiles)
      modifies store
      ensures Mounted()
      ensures View() == Dropped(old(View()), Lookup(old(View()), name))
      ensures Ledger() == DropCost(old(View()), old(Ledger()), Lookup(old(View()), name))
    {
      hide Sound, KindsOk, WellKnown, DescriptorsOk, Tight, Abs, AccountOf, Rewrite, Release, DirBlocks;
      AbsIsThere(store.View(), currentDirectory);
      ghost var fs := View();
      var ok := RemoveEntry(currentDirectory, name);
      DropInode(c);
      assert View().dirs == Dropped(fs, Lookup(fs, name)).dirs;
    }

    method Delete(name: CString) returns (ok: bool)
      requires Valid()
      modifies store
      ensures Valid()
      ensures !mounted ==> !ok && store.View() == old(store.View())
      ensures mounted ==> Did(FsTree.Delete(old(View()), name, OpenInodes(openFiles)), DeleteCost(old(View()), old(Ledger()), name, OpenInodes(openFiles)), ok)
    {
      if !mounted {
        return false;
      }
      ok := DeleteMounted(name);
    }

    method DeleteMounted(name: CString) returns (ok: bool)
      requires Mounted()
      modifies store
      ensures Mounted()
      ensures Did(FsTree.Delete(old(View()), name, OpenInodes(openFiles)), DeleteCost(old(View()), old(Ledger()), name, OpenInodes(openFiles)), ok)
    {
      hide Sound, KindsOk, WellKnown, DescriptorsOk, Tight, Abs, AccountOf, DropCost;
      RootIsDirectory();
      AbsIsThere(store.View(), currentDirectory);
      var slot, entry := FindEntry(currentDirectory, name);
      if slot < 0 || entry.inode >= SIMPLEFS_MAX_INODES {
        return false;
      }
      var regular := IsKind(entry.inode, Regular);
      var open := InodeIsOpen(entry.inode);
      if !regular || open {
        return false;
      }
      RemoveNode(name, entry.inode);
      CountLink(currentDirectory, false);
      return true;
    }

    lemma {:induction false} RootIsDirectory()
      requires Mounted()
      ensures View().kinds[SIMPLEFS_ROOT_INODE].Directory?
    {
    }

    /** The inode is allocated and of this kind. */
    method IsKind(i: nat, kind: InodeKind) returns (yes: bool)
      requires Mounted() && i < SIMPLEFS_MAX_INODES && !kind.FreeInode?
      ensures yes <==> View().kinds[i] == kind
    {
      return store.info.inodeBitmap[i] && store.inodes[i].kind == kind;
    }

    method InodeIsOpen(i: nat) returns (open: bool)
      requires Mounted()
      ensures open <==> i in OpenInodes(openFiles)
    {
      for fd := 0 to SIMPLEFS_MAX_OPEN_FILES
        invariant forall k :: 0 <= k < fd ==> !(openFiles[k].used && openFiles[k].inode == i)
      {
        if openFiles[fd].used && openFiles[fd].inode == i {
          return true;
        }
      }
      return false;
    }

    method RemoveDir(name: CString) returns (ok: bool)
      requires Valid()
      modifies store
      ensures Valid()
      ensures !mounted ==> !ok && store.View() == old(store.View())
      ensures mounted ==> Did(FsTree.RemoveDir(old(View()), name), RemoveDirCost(old(View()), old(Ledger()), name), ok)
    {
      if !mounted {
        return false;
      }
      ok := RemoveDirMounted(name);
    }

    method RemoveDirMounted(name: CString) returns (ok: bool)
      requires Mounted()
      modifies store
      ensures Mounted()
      ensures Did(FsTree.RemoveDir(old(View()), name), RemoveDirCost(old(View()), old(Ledger()), name), ok)
    {
      hide Sound, KindsOk, WellKnown, DescriptorsOk, Tight, Abs, AccountOf, DropCost;
      OnlyFilesAreOpen();
      AbsIsThere(store.View(), currentDirectory);
      var slot, entry := FindEntry(currentDirectory, name);
      if slot < 0 || entry.inode == SIMPLEFS_ROOT_INODE || entry.inode >= SIMPLEFS_MAX_INODES {
        return false;
      }
      var directory := IsKind(entry.inode, Directory);
      if !directory {
        return false;
      }
      var empty := DirectoryIsEmpty(entry.inode);
      if !empty {
        return false;
      }
      RemoveNode(name, entry.inode);
      return true;
    }

    lemma {:induction false} OnlyFilesAreOpen()
      requires Mounted()
      ensures forall i :: i in OpenInodes(openFiles) ==> i < SIMPLEFS_MAX_INODES && View().kinds[i].Regular?
    {
    }

    method DirectoryIsEmpty(d: nat) returns (empty: bool)
      requires Mounted()
      ensures empty <==> d < SIMPLEFS_MAX_INODES && View().kinds[d].Directory? && OnlySpecial(View().dirs[d])
    {
      var ok, entries := ReadDirectoryEntries(d);
      if !ok {
        return false;
      }
      for k := 0 to |entries|
        invariant forall j :: 0 <= j < k ==> IsSpecial(entries[j].name)
      {
        if !IsSpecial(entries[k].name) {
          return false;
        }
      }
      return true;
    }

    method ChangeDir(name: CString) returns (ok: bool)
      requires Valid()
      modifies this`currentDirectory
      ensures Valid()
      ensures !mounted ==> !ok && currentDirectory == old(currentDirectory)
      ensures mounted ==> Outcome(View(), ok) == FsTree.ChangeDir(old(View()), name)
    {
      if !mounted || name == [] {
        return false;
      }
      if name == SLASH {
        currentDirectory := SIMPLEFS_ROOT_INODE;
        return true;
      }
      var slot, entry := FindEntry(currentDirectory, name);
      if slot < 0 || entry.inode >= SIMPLEFS_MAX_INODES {
        return false;
      }
      var directory := IsKind(entry.inode, Directory);
      if !directory {
        return false;
      }
      currentDirectory := entry.inode;
      return true;
    }

    /** The components `pwd` prints, climbing through `..`. */
    method PathComponents(i: nat, ghost home: seq<nat>, ghost depth: seq<nat>) returns (path: seq<CString>)
      requires Mounted() && Tree(View(), home, depth) && i < SIMPLEFS_MAX_INODES && View().kinds[i].Directory?
      ensures path == PathTo(View(), home, depth, i)
      decreases depth[i]
    {
      if i == SIMPLEFS_ROOT_INODE {
        return [];
      }
      UpOneLevel(View(), home, depth, i);
      var slot, entry := FindEntry(i, DOT_DOT);
      if slot < 0 || entry.inode >= SIMPLEFS_MAX_INODES {
        return [];
      }
      path := PathComponents(entry.inode, home, depth);
      var found, name := FindNameForInode(entry.inode, i);
      if found {
        path := path + [name];
      }
    }

    /** The name of the first ordinary entry of directory `d` for inode `child`, if any. */
    method FindNameForInode(d: nat, child: nat) returns (found: bool, name: CString)
      requires Mounted()
      ensures found <==> d < SIMPLEFS_MAX_INODES && View().kinds[d].Directory? && FindName(View().dirs[d], child, 0) >= 0
      ensures found ==> name == View().dirs[d][FindName(View().dirs[d], child, 0)].name
    {
      var entries;
      name := [];
      found, entries := ReadDirectoryEntries(d);
      if !found {
        return;
      }
      for k := 0 to |entries|
        invariant FindName(entries, child, 0) == FindName(entries, child, k)
      {
        if entries[k].inode == child && !IsSpecial(entries[k].name) {
          return true, entries[k].name;
        }
      }
      return false, name;
    }

    // ---- files ------------------------------------------------------------------------

    method ReadFile(name: CString, limit: nat) returns (ok: bool, data: seq<Byte>)
      requires Valid()
      ensures !mounted ==> !ok
      ensures mounted ==>
                && (ok <==> Names(View(), name, Regular))
                && (ok ==> data == Slice(View().files[View().dirs[currentDirectory][Lookup(View(), name)].inode], 0, limit))
    {
      data := [];
      if !mounted {
        return false, data;
      }
      var slot, entry := FindEntry(currentDirectory, name);
      if slot < 0 || entry.inode >= SIMPLEFS_MAX_INODES {
        return false, data;
      }
      var regular := IsKind(entry.inode, Regular);
      if !regular {
        return false, data;
      }
      ok, data := store.ReadInodeBytes(entry.inode, 0, limit);
    }

    /** Rewrites a regular file. */
    method StoreFile(i: nat, data: seq<Byte>) returns (ok: bool)
      requires Mounted() && i < SIMPLEFS_MAX_INODES && View().kinds[i].Regular? && |data| <= SIMPLEFS_MAX_FILE_SIZE
      modifies store
      ensures Mounted()
      ensures ok <==> Fits(old(Ledger()), i, NeededBlocks(|data|))
      ensures View() == Stored(old(View()), i, data, ok)
      ensures Ledger() == Rewrite(old(Ledger()), i, NeededBlocks(|data|))
    {
      ok := store.WriteInodeData(i, data);
      FileRewritten(old(store.View()), store.View(), currentDirectory, i, if ok then data else []);
      WrittenAccount(old(store.View()), store.View(), i, data, ok);
    }

    method CreateAndStore(name: CString, data: seq<Byte>) returns (ok: bool)
      requires Mounted() && ValidName(name) && |data| <= SIMPLEFS_MAX_FILE_SIZE && Lookup(View(), name) < 0
      modifies store
      ensures Mounted()
      ensures Did(FsFiles.WriteFile(old(View()), name, data, EntryFits(old(View()), old(Ledger())),
                                    FileFits(old(View()), old(Ledger()), name, |data|)),
                  WriteCost(old(View()), old(Ledger()), name, |data|), ok)
    {
      hide Sound, KindsOk, WellKnown, DescriptorsOk, Tight, Abs, AccountOf, Rewrite, Fits, DirBlocks;
      AbsIsThere(store.View(), currentDirectory);
      ghost var fs := View();
      ok := CreateMounted(name);
      if !ok {
        return;
      }
      NewNameIsFound(fs, name, FirstFree(fs.kinds, 0));
      var slot, entry := FindEntry(currentDirectory, name);
      if slot < 0 {
        return false;
      }
      ok := StoreFile(entry.inode, data);
    }

    method WriteFile(name: CString, data: seq<Byte>) returns (ok: bool)
      requires Valid()
      modifies store
      ensures Valid()
      ensures !mounted ==> !ok && store.View() == old(store.View())
      ensures mounted ==> Did(FsFiles.WriteFile(old(View()), name, data, EntryFits(old(View()), old(Ledger())),
                                                FileFits(old(View()), old(Ledger()), name, |data|)),
                              WriteCost(old(View()), old(Ledger()), name, |data|), ok)
    {
      if !mounted {
        return false;
      }
      ok := WriteFileMounted(name, data);
    }

    method WriteFileMounted(name: CString, data: seq<Byte>) returns (ok: bool)
      requires Mounted()
      modifies store
      ensures Mounted()
      ensures Did(FsFiles.WriteFile(old(View()), name, data, EntryFits(old(View()), old(Ledger())),
                                    FileFits(old(View()), old(Ledger()), name, |data|)),
                  WriteCost(old(View()), old(Ledger()), name, |data|), ok)
    {
      hide Sound, KindsOk, WellKnown, DescriptorsOk, Tight, Abs, AccountOf, Rewrite, Fits, EntryFits;
      AbsIsThere(store.View(), currentDirectory);
      if !ValidName(name) || |data| > SIMPLEFS_MAX_FILE_SIZE {
        return false;
      }
      var slot, entry := FindEntry(currentDirectory, name);
      if slot < 0 {
        ok := CreateAndStore(name, data);
        return;
      }
      if entry.inode >= SIMPLEFS_MAX_INODES {
        return false;
      }
      var regular := IsKind(entry.inode, Regular);
      if !regular {
        return false;
      }
      ok := StoreFile(entry.inode, data);
    }

    /** Appending reads the whole file and rewrites it longer. Unmounted, it is refused by
        the write. */
    method AppendFile(name: CString, data: seq<Byte>) returns (ok: bool)
      requires Valid()
      modifies store
      ensures Valid()
      ensures !mounted ==> !ok && store.View() == old(store.View())
      ensures mounted && !CanAppendFile(old(View()), name, data) ==> !ok && store.View() == old(store.View())
      ensures mounted && CanAppendFile(old(View()), name, data) ==>
                var whole := AppendedData(old(View()), name, data);
                Did(FsFiles.WriteFile(old(View()), name, whole, EntryFits(old(View()), old(Ledger())),
                                      FileFits(old(View()), old(Ledger()), name, |whole|)),
                    WriteCost(old(View()), old(Ledger()), name, |whole|), ok)
    {
      if !mounted {
        return false;
      }
      ok := AppendMounted(name, data);
    }

    method AppendMounted(name: CString, data: seq<Byte>) returns (ok: bool)
      requires Valid() && mounted
      modifies store
      ensures Mounted()
      ensures !CanAppendFile(old(View()), name, data) ==> !ok && store.View() == old(store.View())
      ensures CanAppendFile(old(View()), name, data) ==>
                var whole := AppendedData(old(View()), name, data);
                Did(FsFiles.WriteFile(old(View()), name, whole, EntryFits(old(View()), old(Ledger())),
                                      FileFits(old(View()), old(Ledger()), name, |whole|)),
                    WriteCost(old(View()), old(Ledger()), name, |whole|), ok)
    {
      hide Sound, KindsOk, WellKnown, DescriptorsOk, Tight, Abs, AccountOf, FsFiles.WriteFile, WriteCost, EntryFits, FileFits;
      if |data| > SIMPLEFS_MAX_FILE_SIZE {
        return false;
      }
      var whole;
      ok, whole := ExistingContent(name);
      if !ok || |whole| + |data| > SIMPLEFS_MAX_FILE_SIZE {
        return false;
      }
      ok := WriteFileMounted(name, whole + data);
    }

    /** The content to append to: nothing for a name not in use. */
    method ExistingContent(name: CString) returns (ok: bool, whole: seq<Byte>)
      requires Valid() && mounted
      ensures ok <==> (Lookup(View(), name) >= 0 ==> Names(View(), name, Regular))
      ensures ok ==> forall data: seq<Byte> :: AppendedData(View(), name, data) == whole + data
    {
      FilesFit();
      whole := [];
      var slot, _ := FindEntry(currentDirectory, name);
      if slot < 0 {
        return true, whole;
      }
      ok, whole := ReadFile(name, SIMPLEFS_MAX_FILE_SIZE);
    }

    lemma {:induction false} FilesFit()
      requires Mounted()
      ensures forall i :: 0 <= i < SIMPLEFS_MAX_INODES ==> |View().files[i]| <= SIMPLEFS_MAX_FILE_SIZE
    {
    }

    // ---- descriptors --------------------------------------------------------------------

    ghost predicate IsOpen(fd: int)
      reads this
    {
      0 <= fd < |openFiles| && openFiles[fd].used
    }

    /** The bytes of the file behind an open descriptor. */
    ghost function FdFile(fd: int): seq<Byte>
      requires Mounted() && IsOpen(fd)
      reads this, store
    {
      View().files[openFiles[fd].inode]
    }

    method Open(name: CString) returns (fd: int)
      requires Valid()
      modifies this`openFiles
      ensures Valid()
      ensures !mounted ==> fd == -1
      ensures fd == -1 ==> openFiles == old(openFiles)
      ensures mounted ==>
                (fd == -1 <==> !Names(View(), name, Regular) || forall k :: 0 <= k < |openFiles| ==> old(openFiles)[k].used)
      ensures fd != -1 ==>
                && 0 <= fd < |openFiles| && !old(openFiles)[fd].used && (forall k :: 0 <= k < fd ==> old(openFiles)[k].used)
                && openFiles == old(openFiles)[fd := openFiles[fd]] && openFiles[fd].used && openFiles[fd].offset == 0
                && openFiles[fd].inode == View().dirs[currentDirectory][Lookup(View(), name)].inode
    {
      hide Sound, KindsOk, WellKnown, Tight, Bytes, FreeCount;
      if !mounted {
        return -1;
      }
      var slot, entry := FindEntry(currentDirectory, name);
      if slot < 0 || entry.inode >= SIMPLEFS_MAX_INODES {
        return -1;
      }
      var regular := IsKind(entry.inode, Regular);
      if !regular {
        return -1;
      }
      for k := 0 to SIMPLEFS_MAX_OPEN_FILES
        invariant openFiles == old(openFiles)
        invariant forall j :: 0 <= j < k ==> openFiles[j].used
      {
        if !openFiles[k].used {
          openFiles := openFiles[k := OpenFile(true, entry.inode, 0, if |name| < NAME_SIZE then name else name[..NAME_SIZE - 1])];
          return k;
        }
      }
      return -1;
    }

    method Close(fd: int) returns (ok: bool)
      requires Valid()
      modifies this`openFiles
      ensures Valid() && (ok <==> old(IsOpen(fd)))
      ensures openFiles == if ok then old(openFiles)[fd := CLOSED] else old(openFiles)
    {
      if fd < 0 || fd >= SIMPLEFS_MAX_OPEN_FILES || !openFiles[fd].used {
        return false;
      }
      openFiles := openFiles[fd := CLOSED];
      return true;
    }

    method ReadFd(fd: int, limit: nat) returns (ok: bool, data: seq<Byte>)
      requires Valid()
      modifies this`openFiles
      ensures Valid() && (ok <==> mounted && old(IsOpen(fd)))
      ensures !ok ==> openFiles == old(openFiles)
      ensures ok ==>
                && data == Slice(old(FdFile(fd)), old(openFiles)[fd].offset, limit)
                && openFiles == old(openFiles)[fd := old(openFiles)[fd].(offset := old(openFiles)[fd].offset + |data|)]
    {
      data := [];
      if !mounted || fd < 0 || fd >= SIMPLEFS_MAX_OPEN_FILES || !openFiles[fd].used {
        return false, data;
      }
      FilesFit();
      ok, data := store.ReadInodeBytes(openFiles[fd].inode, openFiles[fd].offset, limit);
      openFiles := openFiles[fd := openFiles[fd].(offset := openFiles[fd].offset + |data|)];
    }

    /** Writing at the descriptor's offset splices the data into the file. */
    method WriteFd(fd: int, data: seq<Byte>) returns (ok: bool)
      requires Valid()
      requires mounted && IsOpen(fd) ==> openFiles[fd].offset + |data| < WORD_LIMIT
      modifies this`openFiles, store
      ensures Valid()
      ensures !(mounted && old(IsOpen(fd))) ==> !ok && store.View() == old(store.View()) && openFiles == old(openFiles)
      ensures mounted && old(IsOpen(fd)) ==>
                var f := old(openFiles)[fd];
                var after := Splice(old(FdFile(fd)), f.offset, data);
                var fits := f.offset + |data| <= SIMPLEFS_MAX_FILE_SIZE;
                && f.inode < SIMPLEFS_MAX_INODES
                && (ok <==> fits && Fits(old(Ledger()), f.inode, NeededBlocks(|after|)))
                && View() == (if fits then Stored(old(View()), f.inode, after, ok) else old(View()))
                && Ledger() == (if fits then Rewrite(old(Ledger()), f.inode, NeededBlocks(|after|)) else old(Ledger()))
                && openFiles == (if ok then old(openFiles)[fd := f.(offset := f.offset + |data|)] else old(openFiles))
    {
      hide KindsOk, WellKnown, Tight, Splice, Stored, Bytes, FreeCount, AccountOf, Rewrite, Fits, InodesOk, Marked, NoSharing, NeededBlocks;
      if !mounted || fd < 0 || fd >= SIMPLEFS_MAX_OPEN_FILES || !openFiles[fd].used {
        return false;
      }
      var f := openFiles[fd];
      if Add32(f.offset, |data|) > SIMPLEFS_MAX_FILE_SIZE {
        return false;
      }
      ok := StoreSplice(f.inode, f.offset, data);
      if ok {
        openFiles := openFiles[fd := f.(offset := f.offset + |data|)];
      }
    }

    /** Reads the whole file, changes the copy and rewrites the file with it. */
    method StoreSplice(i: nat, offset: nat, data: seq<Byte>) returns (ok: bool)
      requires Mounted() && i < SIMPLEFS_MAX_INODES && View().kinds[i].Regular? && offset + |data| <= SIMPLEFS_MAX_FILE_SIZE
      modifies store
      ensures Mounted()
      ensures ok <==> Fits(old(Ledger()), i, NeededBlocks(|Splice(old(View()).files[i], offset, data)|))
      ensures View() == Stored(old(View()), i, Splice(old(View()).files[i], offset, data), ok)
      ensures Ledger() == Rewrite(old(Ledger()), i, NeededBlocks(|Splice(old(View()).files[i], offset, data)|))
    {
      FilesFit();
      var found, whole := store.ReadInodeBytes(i, 0, SIMPLEFS_MAX_FILE_SIZE);
      assert whole == View().files[i];
      ok := StoreFile(i, Splice(whole, offset, data));
    }

    /** A seek may go up to the end of the file, not past it. */
    method Seek(fd: int, offset: nat) returns (ok: bool)
      requires Valid()
      modifies this`openFiles
      ensures Valid() && (ok <==> mounted && old(IsOpen(fd)) && offset <= |old(FdFile(fd))|)
      ensures openFiles == if ok then old(openFiles)[fd := old(openFiles)[fd].(offset := offset)] else old(openFiles)
    {
      if !mounted || fd < 0 || fd >= SIMPLEFS_MAX_OPEN_FILES || !openFiles[fd].used {
        return false;
      }
      FilesFit();
      var i := openFiles[fd].inode;
      if i >= SIMPLEFS_MAX_INODES || !store.info.inodeBitmap[i] || offset > store.inodes[i].size {
        return false;
      }
      openFiles := openFiles[fd := openFiles[fd].(offset := offset)];
      return true;
    }

    // ---- formatting and mounting ----------------------------------------------------------

    /** What the disk holds is either no SimpleFS or a sound one. */
    ghost predicate DiskSound()
      reads store
    {
      Acceptable() ==> VolumeOk(DiskVolume())
    }

    ghost function DiskVolume(): Volume
      reads store
    {
      Volume(store.diskInfo.inodeBitmap, store.diskInodes, store.diskInfo.dataBitmap, store.blocks)
    }

    ghost predicate Acceptable()
      reads store
    {
      && WellKnown(store.diskBoot, store.diskInfo)
      && |store.diskInfo.inodeBitmap| == |store.diskInodes| == SIMPLEFS_MAX_INODES
      && store.diskInfo.inodeBitmap[SIMPLEFS_ROOT_INODE] && store.diskInodes[SIMPLEFS_ROOT_INODE].kind == Directory
    }

    /** Formatting always finds room for the root directory. */
    method Format() returns (ok: bool)
      requires Valid()
      modifies this, store
      ensures Valid() && ok && mounted && View() == Formatted() && openFiles == AllClosed()
      ensures Ledger() == FormattedAccount() && Tight(store.View())
    {
      store.FormatMetadata();
      openFiles := AllClosed();
      currentDirectory := SIMPLEFS_ROOT_INODE;
      EmptyRoot(store.View());
      ok := WriteDirectoryEntries(SIMPLEFS_ROOT_INODE, NewDirectory(SIMPLEFS_ROOT_INODE, SIMPLEFS_ROOT_INODE));
      assert View().dirs == Formatted().dirs && View().kinds == Formatted().kinds && View().files == Formatted().files;
      mounted := true;
      FreshAccount();
      TightIffAccounted(store.View());
    }

    /** Mounting reads the metadata back. On a disk this file system left behind it
        always succeeds and recovers the whole tree. */
    method Init() returns (ok: bool)
      requires Valid() && DiskSound()
      modifies this, store`boot, store`info, store`inodes
      ensures Valid() && mounted == ok && openFiles == AllClosed() && currentDirectory == SIMPLEFS_ROOT_INODE
      ensures ok <==> old(Acceptable())
      ensures ok ==> View() == Abs(old(DiskVolume()), SIMPLEFS_ROOT_INODE) && Ledger() == AccountOf(old(DiskVolume()))
    {
      currentDirectory := SIMPLEFS_ROOT_INODE;
      openFiles := AllClosed();
      mounted := false;
      ok := store.ReadMetadata();
      mounted := ok;
    }

    /** What a mounted file system keeps on disk is what mounting it again recovers. */
    lemma {:induction false} RemountRecovers()
      requires Valid() && mounted
      ensures DiskSound() && Acceptable()
      ensures Abs(DiskVolume(), SIMPLEFS_ROOT_INODE) == View().(cwd := SIMPLEFS_ROOT_INODE) && AccountOf(DiskVolume()) == Ledger()
    {
    }
  }

  lemma {:induction false} AnInodeEach(v: Volume)
    requires Sound(v)
    ensures |v.inodes| == |v.used| == SIMPLEFS_MAX_INODES
  {
  }

  lemma {:induction false} AbsIsThere(v: Volume, cwd: nat)
    requires VolumeOk(v) && cwd < SIMPLEFS_MAX_INODES
    ensures Abs(v, cwd).cwd == cwd
  {
  }

  // ---- the account --------------------------------------------------------------------------------

  /** A rewrite changes the account as `Rewrite` says. */
  lemma {:induction false} WrittenAccount(v: Volume, w: Volume, i: nat, data: seq<Byte>, ok: bool)
    requires Sound(v) && Sound(w) && Allocated(v, i) && Written(v, w, i, data, ok, SpareBlocks(v, i))
    ensures AccountOf(w) == Rewrite(AccountOf(v), i, NeededBlocks(|data|))
    ensures ok <==> Fits(AccountOf(v), i, NeededBlocks(|data|))
  {
    hide FreeCount, OwnedCount, NoSharing, Marked, InodesOk, Tight;
    OneAccountMoves(v, w, i);
  }

  lemma {:induction false} SameAccount(v: Volume, w: Volume)
    requires Sound(v) && Sound(w) && w.used == v.used && w.bitmap == v.bitmap
    requires forall j :: 0 <= j < SIMPLEFS_MAX_INODES && v.used[j] ==> OwnedCount(w, j) == OwnedCount(v, j)
    ensures AccountOf(w) == AccountOf(v)
  {
    assert AccountOf(w).own == AccountOf(v).own;
  }

  /** A directory with one entry less always fits in its own blocks. */
  lemma {:induction false} ShorterFits(v: Volume, cwd: nat, d: nat, n: nat)
    requires VolumeOk(v) && cwd < SIMPLEFS_MAX_INODES && d < SIMPLEFS_MAX_INODES && Abs(v, cwd).kinds[d].Directory?
    requires 0 < n == |Abs(v, cwd).dirs[d]|
    ensures Fits(AccountOf(v), d, DirBlocks(n - 1))
  {
    OwnsItsBlocks(v, d);
    assert ENTRY_SIZE * (n - 1) <= v.inodes[d].size;
  }

  /** An inode owns the blocks its size needs. */
  lemma {:induction false} OwnsItsBlocks(v: Volume, i: nat)
    requires Sound(v) && Allocated(v, i)
    ensures OwnedCount(v, i) >= NeededBlocks(v.inodes[i].size)
  {
    var all := AllPointers(v.blocks, v.inodes[i]);
    var n := RequiredBlocks(v.inodes[i].size);
    assert InodeOk(v.blocks, v.inodes[i]);
    assert all == all[..n] + (all[n..INDIRECT_ROLE] + [all[INDIRECT_ROLE]]);
    CountAppend(all[..n], all[n..INDIRECT_ROLE] + [all[INDIRECT_ROLE]], SIMPLEFS_DATA_BLOCKS);
    CountAppend(all[n..INDIRECT_ROLE], [all[INDIRECT_ROLE]], SIMPLEFS_DATA_BLOCKS);
    CountAll(all[..n], SIMPLEFS_DATA_BLOCKS);
    CountAll([all[INDIRECT_ROLE]], SIMPLEFS_DATA_BLOCKS);
    if n > SIMPLEFS_DIRECT_BLOCKS {
      assert all[n - 1] == IndirectTable(v.blocks, v.inodes[i])[n - 1 - SIMPLEFS_DIRECT_BLOCKS];
    }
  }

  // ---- entering a node ------------------------------------------------------------------------------

  ghost predicate AppendPossible(fs: Fs, d: nat)
    requires Shape(fs) && d < SIMPLEFS_MAX_INODES
  {
    fs.kinds[d].Directory? && |fs.dirs[d]| < SIMPLEFS_MAX_DIRECTORY_ENTRIES
  }

  function Without(fs: Fs, i: nat): Fs
    requires i < |fs.kinds| == |fs.dirs| == |fs.files|
  {
    fs.(kinds := fs.kinds[i := FreeInode], dirs := fs.dirs[i := []], files := fs.files[i := []])
  }

  /** Node `i` of `taken` is entered in the current directory, or leaves again. */
  ghost function Entered(taken: Fs, name: CString, i: nat, ok: bool): Fs
    requires Shape(taken) && i < SIMPLEFS_MAX_INODES
  {
    if ok then taken.(dirs := taken.dirs[taken.cwd := taken.dirs[taken.cwd] + [Entry(i, name)]])
    else Without(if AppendPossible(taken, taken.cwd) then Damaged(taken) else taken, i)
  }

  ghost function EnterCost(taken: Fs, a: Account, i: nat, ok: bool): Account
    requires Shape(taken) && i < SIMPLEFS_MAX_INODES == |a.own|
  {
    if ok then Entering(taken, a)
    else Release(if AppendPossible(taken, taken.cwd) then Entering(taken, a) else a, i)
  }

  /** A fresh directory `i` with its two entries. */
  ghost function ChildTaken(fs: Fs, i: nat): Fs
    requires Shape(fs) && i < SIMPLEFS_MAX_INODES
  {
    fs.(kinds := fs.kinds[i := Directory], dirs := fs.dirs[i := NewDirectory(i, fs.cwd)])
  }

  lemma {:induction false} NothingTaken(fs: Fs, a: Account, i: nat, kind: InodeKind)
    requires Shape(fs) && i < SIMPLEFS_MAX_INODES == |a.own| && fs.kinds[i].FreeInode? && a.own[i] == 0
    ensures Without(fs.(kinds := fs.kinds[i := kind]), i) == fs
    ensures Without(fs.(kinds := fs.kinds[i := kind], dirs := fs.dirs[i := []]), i) == fs
    ensures Without(ChildTaken(fs, i), i) == fs
    ensures Release(a, i) == a && Release(WithChild(a, i), i) == a
  {
    assert fs.kinds[i := kind][i := FreeInode] == fs.kinds;
    assert fs.dirs[i := []] == fs.dirs && fs.files[i := []] == fs.files && fs.dirs[i := NewDirectory(i, fs.cwd)][i := []] == fs.dirs;
    assert a.own[i := 0] == a.own && a.own[i := DirBlocks(2)][i := 0] == a.own;
  }

  lemma {:induction false} NoInodeNoFile(fs: Fs, a: Account, name: CString)
    requires Shape(fs) && |a.own| == SIMPLEFS_MAX_INODES && FirstFree(fs.kinds, 0) == SIMPLEFS_MAX_INODES
    ensures forall room :: FsTree.Create(fs, name, room) == Outcome(fs, false)
    ensures CreateCost(fs, a, name) == a
  {
  }

  /** `create`, seen from before its inode was taken. */
  lemma {:induction false} CreateIsEntered(fs: Fs, a: Account, name: CString, i: nat, ok: bool)
    requires Shape(fs) && |a.own| == SIMPLEFS_MAX_INODES && ValidName(name) && Lookup(fs, name) < 0
    requires i == FirstFree(fs.kinds, 0) < SIMPLEFS_MAX_INODES && a.own[i] == 0
    requires var taken := fs.(kinds := fs.kinds[i := Regular]);
             ok <==> AppendPossible(taken, fs.cwd) && EntryFits(taken, a)
    ensures var taken := fs.(kinds := fs.kinds[i := Regular]);
            && FsTree.Create(fs, name, EntryFits(fs, a)) == Outcome(Entered(taken, name, i, ok), ok)
            && CreateCost(fs, a, name) == EnterCost(taken, a, i, ok)
  {
    NothingTaken(fs, a, i, Regular);
    var taken := fs.(kinds := fs.kinds[i := Regular]);
    if i != fs.cwd {
      assert fs.dirs[i := []] == fs.dirs;
      assert Without(Damaged(taken), i).kinds == fs.kinds && Without(Damaged(taken), i).dirs == Damaged(fs).dirs;
      assert Without(Damaged(taken), i).files == fs.files;
      assert !ok ==> Entering(taken, a).own[i := 0] == Entering(taken, a).own;
    }
  }

  lemma {:induction false} NoDirectoryMade(fs: Fs, a: Account, name: CString)
    requires Shape(fs) && |a.own| == SIMPLEFS_MAX_INODES && (FirstFree(fs.kinds, 0) == SIMPLEFS_MAX_INODES || !ChildFits(a))
    ensures forall room :: MakeDirAnywhere(fs, name, ChildFits(a), room) == Outcome(fs, false)
    ensures MakeDirCost(fs, a, name) == a
  {
  }

  /** `mkdir`, seen from before its inode was taken. */
  lemma {:induction false} MakeDirIsEntered(fs: Fs, a: Account, name: CString, ok: bool)
    requires Shape(fs) && |a.own| == SIMPLEFS_MAX_INODES && ValidName(name) && Lookup(fs, name) < 0 && ChildFits(a)
    requires var i := FirstFree(fs.kinds, 0);
             && i < SIMPLEFS_MAX_INODES && a.own[i] == 0
             && (ok <==> AppendPossible(ChildTaken(fs, i), fs.cwd) && EntryFits(ChildTaken(fs, i), WithChild(a, i)))
    ensures var i := FirstFree(fs.kinds, 0);
            && MakeDirAnywhere(fs, name, true, ParentFits(fs, a)) == Outcome(Entered(ChildTaken(fs, i), name, i, ok), ok)
            && MakeDirCost(fs, a, name) == EnterCost(ChildTaken(fs, i), WithChild(a, i), i, ok)
  {
    var i := FirstFree(fs.kinds, 0);
    NothingTaken(fs, a, i, Directory);
    var taken := ChildTaken(fs, i);
    if i != fs.cwd {
      assert taken.dirs[fs.cwd] == fs.dirs[fs.cwd];
      assert Without(Damaged(taken), i).kinds == fs.kinds && Without(Damaged(taken), i).dirs == Damaged(fs).dirs;
      assert Without(Damaged(taken), i).files == fs.files;
    } else {
      assert taken.dirs[i := taken.dirs[i] + [Entry(i, name)]] == fs.dirs[i := NewDirectory(i, i) + [Entry(i, name)]];
      assert WithChild(a, i).own[i := 1] == WithChild(a, i).own;
    }
  }

  lemma {:induction false} EmptyRoot(v: Volume)
    requires Sound(v)
    requires forall i :: 0 <= i < SIMPLEFS_MAX_INODES ==> (v.used[i] <==> i == SIMPLEFS_ROOT_INODE)
    requires v.inodes[SIMPLEFS_ROOT_INODE].kind == Directory && Bytes(v, SIMPLEFS_ROOT_INODE) == []
    ensures VolumeOk(v) && KindOf(v, SIMPLEFS_ROOT_INODE).Directory?
    ensures Abs(v, SIMPLEFS_ROOT_INODE) == Formatted().(dirs := seq(SIMPLEFS_MAX_INODES, _ => []))
  {
    assert DecodeEntries([]) == [];
    var fs := Abs(v, SIMPLEFS_ROOT_INODE);
    assert fs.kinds == Formatted().kinds && fs.files == Formatted().files;
    assert fs.dirs == seq(SIMPLEFS_MAX_INODES, _ => []);
  }

  lemma {:induction false} NewNameIsFound(fs: Fs, name: CString, i: nat)
    requires Shape(fs) && Lookup(fs, name) < 0 && i < SIMPLEFS_MAX_INODES
    ensures var after := Added(fs, name, i, Regular, []).dirs[fs.cwd];
            i != fs.cwd ==> Find(after, name, 0) == |fs.dirs[fs.cwd]| && after[|fs.dirs[fs.cwd]|] == Entry(i, name)
  {
    if i != fs.cwd {
      var before, after := fs.dirs[fs.cwd], Added(fs, name, i, Regular, []).dirs[fs.cwd];
      assert after == before + [Entry(i, name)];
      forall j | 0 <= j < |before| ensures !Matches(after[j], name) {
        assert after[j] == before[j] && !Matches(before[j], name);
      }
      assert Matches(after[|before|], name);
    }
  }

  lemma {:induction false} DirectoryWritten(v: Volume, w: Volume, cwd: nat, d: nat, entries: seq<Entry>, ok: bool)
    requires VolumeOk(v) && Sound(w) && cwd < SIMPLEFS_MAX_INODES && d < SIMPLEFS_MAX_INODES
    requires KindOf(v, d).Directory? && Encodable(entries)
    requires Written(v, w, d, EncodeEntries(entries), ok, SpareBlocks(v, d))
    ensures VolumeOk(w) && Abs(w, cwd) == Abs(v, cwd).(dirs := Abs(v, cwd).dirs[d := if ok then entries else []])
    ensures forall i :: 0 <= i < SIMPLEFS_MAX_INODES ==> KindOf(w, i) == KindOf(v, i)
    ensures ok <==> Fits(AccountOf(v), d, DirBlocks(|entries|))
    ensures AccountOf(w) == Rewrite(AccountOf(v), d, DirBlocks(|entries|))
  {
    DirectoryRewritten(v, w, cwd, d, if ok then entries else []);
    WrittenAccount(v, w, d, EncodeEntries(entries), ok);
  }

  lemma {:induction false} DescriptorsKept(v: Volume, w: Volume, cwd: nat, open: seq<OpenFile>)
    requires VolumeOk(v) && VolumeOk(w) && cwd < SIMPLEFS_MAX_INODES && DescriptorsOk(v, open)
    requires forall fd :: 0 <= fd < |open| && open[fd].used ==>
               Abs(w, cwd).kinds[open[fd].inode] == Abs(v, cwd).kinds[open[fd].inode]
    ensures DescriptorsOk(w, open)
  {
    forall fd | 0 <= fd < |open| && open[fd].used
      ensures KindOf(w, open[fd].inode) == KindOf(v, open[fd].inode)
    {
      assert Abs(w, cwd).kinds[open[fd].inode] == Abs(v, cwd).kinds[open[fd].inode];
    }
  }

  lemma {:induction false} NodeTaken(v: Volume, w: Volume, cwd: nat, i: nat, open: seq<OpenFile>)
    requires VolumeOk(v) && Sound(w) && cwd < SIMPLEFS_MAX_INODES && DescriptorsOk(v, open)
    requires KindOf(v, SIMPLEFS_ROOT_INODE).Directory?
    requires Appeared(v, w, i) && !w.inodes[i].kind.FreeInode? && w.inodes == v.inodes[i := w.inodes[i]]
    requires forall j :: 0 <= j < i ==> v.used[j]
    ensures VolumeOk(w) && DescriptorsOk(w, open) && KindOf(w, SIMPLEFS_ROOT_INODE).Directory?
    ensures Abs(w, cwd) == Abs(v, cwd).(kinds := Abs(v, cwd).kinds[i := w.inodes[i].kind])
    ensures i == FirstFree(Abs(v, cwd).kinds, 0) && 0 < i && i !in OpenInodes(open)
    ensures AccountOf(w) == AccountOf(v)
  {
    NodeAppeared(v, w, cwd, i);
    FreeKinds(v, cwd);
    assert AccountOf(w).own == AccountOf(v).own;
  }
}
