/** The file system as a tree: what each call does to it, and why it stays a tree. */
module FsTree {
  import opened Machine
  import opened FsLayout
  import opened FsEntries

  /** Per inode: its kind, its entries if a directory, its bytes if a regular file. */
  datatype Fs = Fs(kinds: seq<InodeKind>, dirs: seq<seq<Entry>>, files: seq<seq<Byte>>, cwd: nat)

  datatype Outcome = Outcome(fs: Fs, ok: bool)

  ghost predicate Shape(fs: Fs) {
    && |fs.kinds| == |fs.dirs| == |fs.files| == SIMPLEFS_MAX_INODES
    && fs.cwd < SIMPLEFS_MAX_INODES
    && (forall i :: 0 <= i < SIMPLEFS_MAX_INODES && !fs.kinds[i].Directory? ==> fs.dirs[i] == [])
    && (forall i :: 0 <= i < SIMPLEFS_MAX_INODES && !fs.kinds[i].Regular? ==> fs.files[i] == [])
  }

  // ---- the calls ------------------------------------------------------------------

  /** The slot of a name in the current directory, or -1. */
  function Lookup(fs: Fs, name: CString): (slot: int)
    requires fs.cwd < |fs.dirs|
    ensures -1 <= slot < |fs.dirs[fs.cwd]|
  {
    Find(fs.dirs[fs.cwd], name, 0)
  }

  predicate Names(fs: Fs, name: CString, kind: InodeKind)
    requires fs.cwd < |fs.dirs|
  {
    var slot := Lookup(fs, name);
    slot >= 0 && fs.dirs[fs.cwd][slot].inode < |fs.kinds| && fs.kinds[fs.dirs[fs.cwd][slot].inode] == kind
  }

  function FirstFree(kinds: seq<InodeKind>, from: nat): (i: nat)
    requires from <= |kinds|
    ensures from <= i <= |kinds| && (i < |kinds| ==> kinds[i].FreeInode?)
    ensures forall j :: from <= j < i ==> !kinds[j].FreeInode?
    decreases |kinds| - from
  {
    if from == |kinds| || kinds[from].FreeInode? then from else FirstFree(kinds, from + 1)
  }

  /** A new name can be entered: it is legal, not taken, and an inode and an entry slot
      are free. */
  predicate CanAdd(fs: Fs, name: CString)
    requires fs.cwd < |fs.dirs| == |fs.kinds|
  {
    && ValidName(name) && Lookup(fs, name) < 0
    && FirstFree(fs.kinds, 0) < |fs.kinds|
    && fs.kinds[fs.cwd].Directory? && |fs.dirs[fs.cwd]| < SIMPLEFS_MAX_DIRECTORY_ENTRIES
  }

  /** A new node under the current directory. */
  function Added(fs: Fs, name: CString, i: nat, kind: InodeKind, entries: seq<Entry>): Fs
    requires fs.cwd < |fs.dirs| == |fs.kinds| == SIMPLEFS_MAX_INODES && i < SIMPLEFS_MAX_INODES
  {
    fs.(kinds := fs.kinds[i := kind],
        dirs := fs.dirs[i := entries][fs.cwd := fs.dirs[fs.cwd] + [Entry(i, name)]])
  }

  /** What is left of the tree when the current directory could not be rewritten. */
  function Damaged(fs: Fs): Fs
    requires fs.cwd < |fs.dirs|
  {
    fs.(dirs := fs.dirs[fs.cwd := []])
  }

  /** `room` says the rewritten directory fits on the volume. */
  function Create(fs: Fs, name: CString, room: bool): Outcome
    requires fs.cwd < |fs.dirs| == |fs.kinds| == SIMPLEFS_MAX_INODES
  {
    if !CanAdd(fs, name) then Outcome(fs, false)
    else if !room then Outcome(Damaged(fs), false)
    else Outcome(Added(fs, name, FirstFree(fs.kinds, 0), Regular, []), true)
  }

  function NewDirectory(i: nat, parent: nat): seq<Entry>
    requires i < SIMPLEFS_MAX_INODES && parent < SIMPLEFS_MAX_INODES
  {
    [Entry(i, DOT), Entry(parent, DOT_DOT)]
  }

  /** `childRoom` says the new directory's own block is there. */
  function MakeDir(fs: Fs, name: CString, childRoom: bool, room: bool): Outcome
    requires fs.cwd < |fs.dirs| == |fs.kinds| == SIMPLEFS_MAX_INODES
  {
    if !CanAdd(fs, name) || !childRoom then Outcome(fs, false)
    else if !room then Outcome(Damaged(fs), false)
    else
      var i := FirstFree(fs.kinds, 0);
      Outcome(Added(fs, name, i, Directory, NewDirectory(i, fs.cwd)), true)
  }

  /** A current directory that was removed comes back when `mkdir` takes its inode: the new
      directory is then entered in itself. */
  predicate Reviving(fs: Fs, name: CString)
    requires fs.cwd < |fs.kinds|
  {
    ValidName(name) && !fs.kinds[fs.cwd].Directory? && FirstFree(fs.kinds, 0) == fs.cwd
  }

  function Revived(fs: Fs, name: CString): Fs
    requires fs.cwd < |fs.dirs| == |fs.kinds| == SIMPLEFS_MAX_INODES
  {
    fs.(kinds := fs.kinds[fs.cwd := Directory],
        dirs := fs.dirs[fs.cwd := NewDirectory(fs.cwd, fs.cwd) + [Entry(fs.cwd, name)]])
  }

  /** `mkdir` wherever the current directory is, even removed. */
  function MakeDirAnywhere(fs: Fs, name: CString, childRoom: bool, room: bool): Outcome
    requires fs.cwd < |fs.dirs| == |fs.kinds| == SIMPLEFS_MAX_INODES
  {
    if Reviving(fs, name) && childRoom then Outcome(Revived(fs, name), true) else MakeDir(fs, name, childRoom, room)
  }

  /** The node behind a slot of the current directory leaves, with its entry. */
  function Dropped(fs: Fs, slot: nat): Fs
    requires fs.cwd < |fs.dirs| == |fs.kinds| == |fs.files| && slot < |fs.dirs[fs.cwd]|
    requires fs.dirs[fs.cwd][slot].inode < |fs.kinds|
  {
    var c := fs.dirs[fs.cwd][slot].inode;
    fs.(kinds := fs.kinds[c := FreeInode],
        dirs := fs.dirs[fs.cwd := WithoutSlot(fs.dirs[fs.cwd], slot)][c := []],
        files := fs.files[c := []])
  }

  function Delete(fs: Fs, name: CString, open: set<nat>): Outcome
    requires fs.cwd < |fs.dirs| == |fs.kinds| == |fs.files|
  {
    var slot := Lookup(fs, name);
    if !Names(fs, name, Regular) || fs.dirs[fs.cwd][slot].inode in open then Outcome(fs, false)
    else Outcome(Dropped(fs, slot), fs.dirs[fs.cwd][slot].inode != SIMPLEFS_ROOT_INODE)
  }

  predicate OnlySpecial(entries: seq<Entry>) {
    forall k :: 0 <= k < |entries| ==> IsSpecial(entries[k].name)
  }

  predicate CanRemoveDir(fs: Fs, name: CString)
    requires fs.cwd < |fs.dirs| == |fs.kinds|
  {
    && Names(fs, name, Directory)
    && var c := fs.dirs[fs.cwd][Lookup(fs, name)].inode;
       c != SIMPLEFS_ROOT_INODE && OnlySpecial(fs.dirs[c])
  }

  function RemoveDir(fs: Fs, name: CString): Outcome
    requires fs.cwd < |fs.dirs| == |fs.kinds| == |fs.files|
  {
    if !CanRemoveDir(fs, name) then Outcome(fs, false)
    else Outcome(Dropped(fs, Lookup(fs, name)), true)
  }

  function ChangeDir(fs: Fs, name: CString): Outcome
    requires fs.cwd < |fs.dirs| == |fs.kinds|
  {
    if name == [] then Outcome(fs, false)
    else if name == SLASH then Outcome(fs.(cwd := SIMPLEFS_ROOT_INODE), true)
    else if !Names(fs, name, Directory) then Outcome(fs, false)
    else Outcome(fs.(cwd := fs.dirs[fs.cwd][Lookup(fs, name)].inode), true)
  }

  function Formatted(): Fs {
    Fs([Directory] + seq(SIMPLEFS_MAX_INODES - 1, _ => FreeInode),
       [NewDirectory(0, 0)] + seq(SIMPLEFS_MAX_INODES - 1, _ => []),
       seq(SIMPLEFS_MAX_INODES, _ => []),
       SIMPLEFS_ROOT_INODE)
  }

  // ---- the tree ----------------------------------------------------------------------

  /** An ordinary entry of directory `d` names a node whose home is `d`. */
  ghost predicate ChildOk(fs: Fs, home: seq<nat>, d: nat, e: Entry)
    requires |fs.kinds| == |home| == SIMPLEFS_MAX_INODES
  {
    && ValidName(e.name) && 0 < e.inode < SIMPLEFS_MAX_INODES
    && !fs.kinds[e.inode].FreeInode? && home[e.inode] == d
  }

  ghost predicate DistinctEntries(entries: seq<Entry>) {
    && (forall j, k :: 0 <= j < k < |entries| ==> entries[j].name != entries[k].name)
    && (forall j, k :: 2 <= j < k < |entries| ==> entries[j].inode != entries[k].inode)
  }

  ghost predicate DirOk(fs: Fs, home: seq<nat>, d: nat)
    requires |fs.kinds| == |home| == SIMPLEFS_MAX_INODES && d < |fs.dirs|
  {
    var entries := fs.dirs[d];
    && |entries| >= 2 && d < SIMPLEFS_MAX_INODES && home[d] < SIMPLEFS_MAX_INODES
    && entries[0] == Entry(d, DOT) && entries[1] == Entry(home[d], DOT_DOT)
    && (forall k :: 2 <= k < |entries| ==> ChildOk(fs, home, d, entries[k]))
    && DistinctEntries(entries)
  }

  ghost predicate Listed(entries: seq<Entry>, c: nat) {
    exists k :: 2 <= k < |entries| && entries[k].inode == c
  }

  /** A node other than the root is listed in its home directory, one level down. */
  ghost predicate NodeOk(fs: Fs, home: seq<nat>, depth: seq<nat>, c: nat)
    requires |fs.kinds| == |fs.dirs| == |home| == |depth| == SIMPLEFS_MAX_INODES && c < |home|
  {
    && home[c] < SIMPLEFS_MAX_INODES && fs.kinds[home[c]].Directory?
    && Listed(fs.dirs[home[c]], c)
    && depth[c] == depth[home[c]] + 1
  }

  /** Directories form a tree rooted at inode 0; `home` is each node's parent. */
  ghost predicate Tree(fs: Fs, home: seq<nat>, depth: seq<nat>) {
    && Shape(fs) && |home| == |depth| == SIMPLEFS_MAX_INODES
    && home[0] == 0 && depth[0] == 0
    && fs.kinds[0].Directory? && fs.kinds[fs.cwd].Directory?
    && (forall d :: 0 <= d < SIMPLEFS_MAX_INODES && fs.kinds[d].Directory? ==> DirOk(fs, home, d))
    && (forall c :: 0 < c < SIMPLEFS_MAX_INODES && !fs.kinds[c].FreeInode? ==> NodeOk(fs, home, depth, c))
  }

  ghost predicate IsTree(fs: Fs) {
    exists home, depth :: Tree(fs, home, depth)
  }

  lemma {:induction false} FormattedIsTree()
    ensures IsTree(Formatted())
  {
    var zeros: seq<nat> := seq(SIMPLEFS_MAX_INODES, _ => 0);
    assert Tree(Formatted(), zeros, zeros);
  }

  /** Each allocated inode but the root is named by exactly one ordinary entry. */
  lemma {:induction false} NamedExactlyOnce(fs: Fs, c: nat)
    requires IsTree(fs) && 0 < c < SIMPLEFS_MAX_INODES && !fs.kinds[c].FreeInode?
    ensures exists d, k :: 0 <= d < SIMPLEFS_MAX_INODES && NamesAt(fs, d, k, c)
    ensures forall d, k, e, l ::
              (0 <= d < SIMPLEFS_MAX_INODES && NamesAt(fs, d, k, c)
               && 0 <= e < SIMPLEFS_MAX_INODES && NamesAt(fs, e, l, c)) ==> d == e && k == l
  {
    var home, depth :| Tree(fs, home, depth);
    assert NodeOk(fs, home, depth, c);
    var k :| 2 <= k < |fs.dirs[home[c]]| && fs.dirs[home[c]][k].inode == c;
    assert NamesAt(fs, home[c], k, c);
    forall d, k | 0 <= d < SIMPLEFS_MAX_INODES && NamesAt(fs, d, k, c) ensures home[c] == d {
      assert DirOk(fs, home, d);
      assert ChildOk(fs, home, d, fs.dirs[d][k]);
    }
  }

  ghost predicate NamesAt(fs: Fs, d: nat, k: int, c: nat)
    requires d < |fs.dirs| == |fs.kinds|
  {
    fs.kinds[d].Directory? && 2 <= k < |fs.dirs[d]| && fs.dirs[d][k].inode == c
  }

  // ---- adding ----------------------------------------------------------------------------

  lemma {:induction false} AddedKeepsTree(fs: Fs, home: seq<nat>, depth: seq<nat>, name: CString, i: nat, kind: InodeKind, entries: seq<Entry>)
    requires Tree(fs, home, depth) && CanAdd(fs, name) && i < SIMPLEFS_MAX_INODES && fs.kinds[i].FreeInode?
    requires (kind == Regular && entries == []) || (kind == Directory && entries == NewDirectory(i, fs.cwd))
    ensures Tree(Added(fs, name, i, kind, entries), home[i := fs.cwd], depth[i := depth[fs.cwd] + 1])
  {
    var after, home', depth' := Added(fs, name, i, kind, entries), home[i := fs.cwd], depth[i := depth[fs.cwd] + 1];
    forall d | 0 <= d < SIMPLEFS_MAX_INODES && after.kinds[d].Directory? ensures DirOk(after, home', d) {
      AddedDirs(fs, home, depth, name, i, kind, entries, d);
    }
    forall c | 0 < c < SIMPLEFS_MAX_INODES && !after.kinds[c].FreeInode? ensures NodeOk(after, home', depth', c) {
      AddedNodes(fs, home, depth, name, i, kind, entries, c);
    }
  }

  lemma {:induction false} AddedDirs(fs: Fs, home: seq<nat>, depth: seq<nat>, name: CString, i: nat, kind: InodeKind, entries: seq<Entry>, d: nat)
    requires Tree(fs, home, depth) && CanAdd(fs, name) && i < SIMPLEFS_MAX_INODES && fs.kinds[i].FreeInode?
    requires (kind == Regular && entries == []) || (kind == Directory && entries == NewDirectory(i, fs.cwd))
    requires d < SIMPLEFS_MAX_INODES && Added(fs, name, i, kind, entries).kinds[d].Directory?
    ensures DirOk(Added(fs, name, i, kind, entries), home[i := fs.cwd], d)
  {
    hide FirstFree, NodeOk;
    var after, home' := Added(fs, name, i, kind, entries), home[i := fs.cwd];
    if d != i {
      assert DirOk(fs, home, d);
      forall k | 2 <= k < |fs.dirs[d]| ensures ChildOk(after, home', d, fs.dirs[d][k]) && fs.dirs[d][k].inode != i {
        assert ChildOk(fs, home, d, fs.dirs[d][k]);
      }
      if d == fs.cwd {
        forall j | 0 <= j < |fs.dirs[d]| ensures fs.dirs[d][j].name != name {
          assert !Matches(fs.dirs[d][j], name);
        }
      }
    }
  }

  lemma {:induction false} AddedNodes(fs: Fs, home: seq<nat>, depth: seq<nat>, name: CString, i: nat, kind: InodeKind, entries: seq<Entry>, c: nat)
    requires Tree(fs, home, depth) && CanAdd(fs, name) && i < SIMPLEFS_MAX_INODES && fs.kinds[i].FreeInode?
    requires (kind == Regular && entries == []) || (kind == Directory && entries == NewDirectory(i, fs.cwd))
    requires 0 < c < SIMPLEFS_MAX_INODES && !Added(fs, name, i, kind, entries).kinds[c].FreeInode?
    ensures NodeOk(Added(fs, name, i, kind, entries), home[i := fs.cwd], depth[i := depth[fs.cwd] + 1], c)
  {
    var after := Added(fs, name, i, kind, entries);
    if c != i {
      assert NodeOk(fs, home, depth, c);
      var k :| 2 <= k < |fs.dirs[home[c]]| && fs.dirs[home[c]][k].inode == c;
      assert after.dirs[home[c]][k].inode == c;
    } else {
      assert DirOk(fs, home, fs.cwd);
      assert after.dirs[fs.cwd][|fs.dirs[fs.cwd]|].inode == c;
    }
  }

  lemma {:induction false} DamagedIsNoTree(fs: Fs)
    requires Shape(fs) && fs.kinds[fs.cwd].Directory?
    ensures !IsTree(Damaged(fs))
  {
    assert |Damaged(fs).dirs[fs.cwd]| == 0;
  }

  /** `create` keeps the tree exactly when the directory it has to rewrite fits. */
  lemma {:induction false} CreateKeepsTreeExactly(fs: Fs, name: CString, room: bool)
    requires IsTree(fs)
    ensures IsTree(Create(fs, name, room).fs) <==> !(CanAdd(fs, name) && !room)
  {
    if CanAdd(fs, name) {
      var home, depth :| Tree(fs, home, depth);
      if room {
        AddedKeepsTree(fs, home, depth, name, FirstFree(fs.kinds, 0), Regular, []);
      } else {
        DamagedIsNoTree(fs);
      }
    }
  }

  /** `mkdir` likewise, once the new directory has its block. */
  lemma {:induction false} MakeDirKeepsTreeExactly(fs: Fs, name: CString, childRoom: bool, room: bool)
    requires IsTree(fs)
    ensures IsTree(MakeDir(fs, name, childRoom, room).fs) <==> !(CanAdd(fs, name) && childRoom && !room)
  {
    if CanAdd(fs, name) && childRoom {
      var home, depth :| Tree(fs, home, depth);
      var i := FirstFree(fs.kinds, 0);
      if room {
        AddedKeepsTree(fs, home, depth, name, i, Directory, NewDirectory(i, fs.cwd));
      } else {
        DamagedIsNoTree(fs);
      }
    }
  }

  // ---- removing ----------------------------------------------------------------------------

  /** In a tree the two special names sit in the first two slots, and a directory with
      only special entries has just those. */
  lemma {:induction false} SpecialSlots(fs: Fs, home: seq<nat>, depth: seq<nat>, d: nat)
    requires Tree(fs, home, depth) && d < SIMPLEFS_MAX_INODES && fs.kinds[d].Directory?
    ensures DirOk(fs, home, d)
    ensures Find(fs.dirs[d], DOT, 0) == 0 && Find(fs.dirs[d], DOT_DOT, 0) == 1
    ensures OnlySpecial(fs.dirs[d]) <==> |fs.dirs[d]| == 2
  {
    assert DirOk(fs, home, d);
    forall k | 2 <= k < |fs.dirs[d]| ensures !IsSpecial(fs.dirs[d][k].name) {
      assert ChildOk(fs, home, d, fs.dirs[d][k]);
    }
    assert |fs.dirs[d]| > 2 ==> !IsSpecial(fs.dirs[d][2].name);
  }

  lemma {:induction false} DroppedKeepsTree(fs: Fs, home: seq<nat>, depth: seq<nat>, slot: nat)
    requires Tree(fs, home, depth) && 2 <= slot < |fs.dirs[fs.cwd]|
    requires var c := fs.dirs[fs.cwd][slot].inode;
             c < SIMPLEFS_MAX_INODES && c != fs.cwd && (fs.kinds[c].Directory? ==> |fs.dirs[c]| == 2)
    ensures Tree(Dropped(fs, slot), home, depth)
  {
    var after := Dropped(fs, slot);
    assert DirOk(fs, home, fs.cwd);
    assert ChildOk(fs, home, fs.cwd, fs.dirs[fs.cwd][slot]);
    forall d | 0 <= d < SIMPLEFS_MAX_INODES && after.kinds[d].Directory? ensures DirOk(after, home, d) {
      DroppedDirs(fs, home, depth, slot, d);
    }
    forall x | 0 < x < SIMPLEFS_MAX_INODES && !after.kinds[x].FreeInode? ensures NodeOk(after, home, depth, x) {
      DroppedNodes(fs, home, depth, slot, x);
    }
  }

  lemma {:induction false} DroppedDirs(fs: Fs, home: seq<nat>, depth: seq<nat>, slot: nat, d: nat)
    requires Tree(fs, home, depth) && 2 <= slot < |fs.dirs[fs.cwd]|
    requires fs.dirs[fs.cwd][slot].inode < SIMPLEFS_MAX_INODES && fs.dirs[fs.cwd][slot].inode != fs.cwd
    requires d < SIMPLEFS_MAX_INODES && Dropped(fs, slot).kinds[d].Directory?
    ensures DirOk(Dropped(fs, slot), home, d)
  {
    hide NodeOk, ValidName;
    var after, c := Dropped(fs, slot), fs.dirs[fs.cwd][slot].inode;
    assert DirOk(fs, home, d);
    if d == fs.cwd {
      var entries := fs.dirs[d];
      forall k | 2 <= k < |after.dirs[d]| ensures ChildOk(after, home, d, after.dirs[d][k]) {
        var l := if k >= slot then k + 1 else k;
        assert after.dirs[d][k] == entries[l] && entries[l].inode != c;
        assert ChildOk(fs, home, d, entries[l]);
      }
    } else {
      forall k | 2 <= k < |fs.dirs[d]| ensures ChildOk(after, home, d, fs.dirs[d][k]) {
        assert ChildOk(fs, home, d, fs.dirs[d][k]);
        assert ChildOk(fs, home, fs.cwd, fs.dirs[fs.cwd][slot]);
      }
    }
  }

  /** What is left of the entries and the kinds after a drop. */
  lemma {:induction false} LeftByDrop(fs: Fs, slot: nat)
    requires fs.cwd < |fs.dirs| == |fs.kinds| == |fs.files| && slot < |fs.dirs[fs.cwd]|
    requires fs.dirs[fs.cwd][slot].inode < |fs.kinds| && fs.dirs[fs.cwd][slot].inode != fs.cwd
    ensures var after, c := Dropped(fs, slot), fs.dirs[fs.cwd][slot].inode;
            && after.cwd == fs.cwd && |after.dirs| == |after.kinds| == |after.files| == |fs.dirs|
            && after.kinds == fs.kinds[c := FreeInode]
            && (forall d :: 0 <= d < |fs.dirs| && d != c && d != fs.cwd ==> after.dirs[d] == fs.dirs[d])
            && |after.dirs[fs.cwd]| == |fs.dirs[fs.cwd]| - 1
            && (forall k :: 0 <= k < slot ==> after.dirs[fs.cwd][k] == fs.dirs[fs.cwd][k])
            && (forall k :: slot < k < |fs.dirs[fs.cwd]| ==> after.dirs[fs.cwd][k - 1] == fs.dirs[fs.cwd][k])
  {
  }

  lemma {:induction false} DroppedNodes(fs: Fs, home: seq<nat>, depth: seq<nat>, slot: nat, x: nat)
    requires Tree(fs, home, depth) && 2 <= slot < |fs.dirs[fs.cwd]|
    requires var c := fs.dirs[fs.cwd][slot].inode;
             c < SIMPLEFS_MAX_INODES && c != fs.cwd && (fs.kinds[c].Directory? ==> |fs.dirs[c]| == 2)
    requires 0 < x < SIMPLEFS_MAX_INODES && !Dropped(fs, slot).kinds[x].FreeInode?
    ensures NodeOk(Dropped(fs, slot), home, depth, x)
  {
    hide ChildOk, DirOk, Dropped, WithoutSlot, FirstFree;
    var after, c := Dropped(fs, slot), fs.dirs[fs.cwd][slot].inode;
    LeftByDrop(fs, slot);
    assert NodeOk(fs, home, depth, x);
    var k :| 2 <= k < |fs.dirs[home[x]]| && fs.dirs[home[x]][k].inode == x;
    var l := if home[x] == fs.cwd && k > slot then k - 1 else k;
    assert home[x] != c;
    assert after.dirs[home[x]][l].inode == x;
  }

  lemma {:induction false} DeleteKeepsTree(fs: Fs, name: CString, open: set<nat>)
    requires IsTree(fs)
    ensures IsTree(Delete(fs, name, open).fs)
    ensures Delete(fs, name, open).ok <==> Names(fs, name, Regular) && fs.dirs[fs.cwd][Lookup(fs, name)].inode !in open
  {
    var home, depth :| Tree(fs, home, depth);
    SpecialSlots(fs, home, depth, fs.cwd);
    var slot := Lookup(fs, name);
    if Names(fs, name, Regular) {
      assert slot != 0;
      assert slot != 1 by {
        if fs.cwd != 0 {
          assert NodeOk(fs, home, depth, fs.cwd);
        }
      }
      assert ChildOk(fs, home, fs.cwd, fs.dirs[fs.cwd][slot]);
      if fs.dirs[fs.cwd][slot].inode !in open {
        DroppedKeepsTree(fs, home, depth, slot);
      }
    }
  }

  /** `rmdir` keeps the tree exactly when it is not `rmdir .` in an empty directory below
      the root, which the code does not reject. */
  lemma {:induction false} RemoveDirKeepsTreeExactly(fs: Fs, name: CString)
    requires IsTree(fs)
    ensures IsTree(RemoveDir(fs, name).fs)
       <==> !(name == DOT && fs.cwd != SIMPLEFS_ROOT_INODE && |fs.dirs[fs.cwd]| == 2)
  {
    var home, depth :| Tree(fs, home, depth);
    SpecialSlots(fs, home, depth, fs.cwd);
    var slot := Lookup(fs, name);
    if CanRemoveDir(fs, name) {
      var c := fs.dirs[fs.cwd][slot].inode;
      SpecialSlots(fs, home, depth, c);
      if slot == 0 {
        assert !RemoveDir(fs, name).fs.kinds[fs.cwd].Directory?;
      } else {
        ParentIsNotEmpty(fs, home, depth);
        assert ChildOk(fs, home, fs.cwd, fs.dirs[fs.cwd][slot]);
        assert c != fs.cwd by {
          if fs.cwd != 0 {
            assert NodeOk(fs, home, depth, fs.cwd);
          }
        }
        DroppedKeepsTree(fs, home, depth, slot);
      }
    }
  }

  lemma {:induction false} ParentIsNotEmpty(fs: Fs, home: seq<nat>, depth: seq<nat>)
    requires Tree(fs, home, depth)
    ensures home[fs.cwd] == SIMPLEFS_ROOT_INODE || |fs.dirs[home[fs.cwd]]| > 2
  {
    if fs.cwd != 0 {
      assert NodeOk(fs, home, depth, fs.cwd);
    }
  }

  lemma {:induction false} ChangeDirKeepsTree(fs: Fs, name: CString)
    requires IsTree(fs)
    ensures IsTree(ChangeDir(fs, name).fs)
  {
    var home, depth :| Tree(fs, home, depth);
    var after := ChangeDir(fs, name).fs;
    forall d | 0 <= d < SIMPLEFS_MAX_INODES && after.kinds[d].Directory? ensures DirOk(after, home, d) {
      assert DirOk(fs, home, d);
      forall k | 2 <= k < |fs.dirs[d]| ensures ChildOk(after, home, d, fs.dirs[d][k]) {
        assert ChildOk(fs, home, d, fs.dirs[d][k]);
      }
    }
    forall c | 0 < c < SIMPLEFS_MAX_INODES && !after.kinds[c].FreeInode? ensures NodeOk(after, home, depth, c) {
      assert NodeOk(fs, home, depth, c);
    }
    assert Tree(after, home, depth);
  }

  // ---- paths -------------------------------------------------------------------------------

  /** The first ordinary entry for a child, as the reverse lookup finds it. */
  function FindName(entries: seq<Entry>, child: nat, from: nat): (slot: int)
    requires from <= |entries|
    ensures -1 <= slot < |entries|
    ensures slot >= 0 ==> entries[slot].inode == child && !IsSpecial(entries[slot].name)
    ensures slot < 0 ==> forall k :: from <= k < |entries| ==> entries[k].inode != child || IsSpecial(entries[k].name)
    decreases |entries| - from
  {
    if from == |entries| then -1
    else if entries[from].inode == child && !IsSpecial(entries[from].name) then from
    else FindName(entries, child, from + 1)
  }

  /** The components `pwd` prints for a directory: up through `..`, names by reverse
      lookup. It terminates because each step goes up one level. */
  ghost function PathTo(fs: Fs, home: seq<nat>, depth: seq<nat>, i: nat): (path: seq<CString>)
    requires Tree(fs, home, depth) && i < SIMPLEFS_MAX_INODES && fs.kinds[i].Directory?
    decreases depth[i]
  {
    if i == SIMPLEFS_ROOT_INODE then []
    else
      UpOneLevel(fs, home, depth, i);
      var parent := fs.dirs[i][Find(fs.dirs[i], DOT_DOT, 0)].inode;
      PathTo(fs, home, depth, parent) + [fs.dirs[parent][FindName(fs.dirs[parent], i, 0)].name]
  }

  lemma {:induction false} UpOneLevel(fs: Fs, home: seq<nat>, depth: seq<nat>, i: nat)
    requires Tree(fs, home, depth) && 0 < i < SIMPLEFS_MAX_INODES && fs.kinds[i].Directory?
    ensures Find(fs.dirs[i], DOT_DOT, 0) == 1 && |fs.dirs[i]| >= 2
    ensures fs.dirs[i][1].inode == home[i] < SIMPLEFS_MAX_INODES && fs.kinds[home[i]].Directory?
    ensures depth[home[i]] < depth[i]
    ensures FindName(fs.dirs[home[i]], i, 0) >= 2
    ensures Find(fs.dirs[home[i]], fs.dirs[home[i]][FindName(fs.dirs[home[i]], i, 0)].name, 0)
         == FindName(fs.dirs[home[i]], i, 0)
  {
    SpecialSlots(fs, home, depth, i);
    assert NodeOk(fs, home, depth, i);
    var parent := fs.dirs[home[i]];
    SpecialSlots(fs, home, depth, home[i]);
    var k :| 2 <= k < |parent| && parent[k].inode == i;
    assert ChildOk(fs, home, home[i], parent[k]);
    var slot := FindName(parent, i, 0);
    assert slot >= 2;
  }

  datatype Walked = Lost | At(inode: nat)

  /** Following names down from a directory with the kernel's own lookup. */
  ghost function Walk(fs: Fs, from: nat, path: seq<CString>): Walked
    decreases |path|
  {
    if path == [] then At(from)
    else if from >= |fs.dirs| then Lost
    else
      var slot := Find(fs.dirs[from], path[0], 0);
      if slot < 0 then Lost else Walk(fs, fs.dirs[from][slot].inode, path[1..])
  }

  lemma {:induction false} WalkOneMore(fs: Fs, from: nat, path: seq<CString>, name: CString)
    ensures Walk(fs, from, path + [name])
         == match Walk(fs, from, path) case Lost => Lost case At(d) => Walk(fs, d, [name])
    decreases |path|
  {
    if path == [] {
      assert path + [name] == [name];
    } else {
      assert (path + [name])[1..] == path[1..] + [name];
      if from < |fs.dirs| && Find(fs.dirs[from], path[0], 0) >= 0 {
        WalkOneMore(fs, fs.dirs[from][Find(fs.dirs[from], path[0], 0)].inode, path[1..], name);
      }
    }
  }

  /** Walking the printed path from the root leads back to the same directory. */
  lemma {:induction false} PathLeadsBack(fs: Fs, home: seq<nat>, depth: seq<nat>, i: nat)
    requires Tree(fs, home, depth) && i < SIMPLEFS_MAX_INODES && fs.kinds[i].Directory?
    ensures Walk(fs, SIMPLEFS_ROOT_INODE, PathTo(fs, home, depth, i)) == At(i)
    decreases depth[i]
  {
    if i != SIMPLEFS_ROOT_INODE {
      UpOneLevel(fs, home, depth, i);
      PathLeadsBack(fs, home, depth, home[i]);
      var parent := fs.dirs[home[i]];
      var name := parent[FindName(parent, i, 0)].name;
      WalkOneMore(fs, SIMPLEFS_ROOT_INODE, PathTo(fs, home, depth, home[i]), name);
      assert [name][1..] == [];
    }
  }
}
