/** Two-level page tables over typed physical pages, with the owner of every page. */
module VmmSpec {
  import opened Machine
  import opened PmmSpec

  const PAGE_TABLE_ENTRIES: nat := 1024
  const KERNEL_DIRECTORY_START: nat := 768
  const VMM_KERNEL_BASE: U32 := 0xC000_0000

  /** A page directory or page table entry; Empty is the all-zero, not-present word. */
  datatype Entry = Empty | Entry(frame: nat, writable: bool, user: bool, accessed: bool)

  /** What a physical page is being used as. */
  datatype Frame = Data(bytes: seq<Byte>) | Entries(entries: seq<Entry>)

  /** Who holds a physical page. The last two kinds hold the data of one directory. */
  datatype Owner =
    | Directory
    | Table(dir: nat, index: nat)
    | PagerFrame(dir: nat, page: nat)
    | DemoFrame(dir: nat, slot: nat)

  /** Physical memory: the pages, the allocator's bitmap, the first unreserved address,
      the owners, and the kernel's page directory. Pages are named by number. */
  datatype Vm = Vm(frames: seq<Frame>, used: seq<bool>, reserved: nat, owner: map<nat, Owner>, kernel: nat)

  function DirectoryIndex(virt: U32): (i: nat)
    ensures i < PAGE_TABLE_ENTRIES
  {
    virt / 0x40_0000
  }

  function TableIndex(virt: U32): (i: nat)
    ensures i < PAGE_TABLE_ENTRIES
  {
    virt / 0x1000 % 0x400
  }

  predicate Aligned(virt: U32) {
    virt % PAGE_SIZE == 0
  }

  ghost predicate IsTable(f: Frame) {
    f.Entries? && |f.entries| == PAGE_TABLE_ENTRIES
  }

  ghost predicate IsPage(f: Frame) {
    f.Data? && |f.bytes| == PAGE_SIZE
  }

  ghost predicate IsDir(v: Vm, d: nat) {
    d in v.owner && v.owner[d] == Directory && d < |v.frames| && IsTable(v.frames[d])
  }

  ghost predicate IsLeaf(v: Vm, f: nat) {
    f in v.owner && (v.owner[f].PagerFrame? || v.owner[f].DemoFrame?)
  }

  /** A present entry of a directory points to the table that directory owns there; above
      the kernel base all directories share the kernel's. A page open to user code lies in
      a table open to user code. */
  ghost predicate EntryOk(v: Vm, d: nat, i: nat)
    requires IsDir(v, d) && i < PAGE_TABLE_ENTRIES
  {
    var e := v.frames[d].entries[i];
    e.Entry? ==>
      && e.frame in v.owner && v.owner[e.frame] == Table(if i < KERNEL_DIRECTORY_START then d else v.kernel, i)
      && e.frame < |v.frames| && IsTable(v.frames[e.frame])
      && e.writable
      && forall j :: 0 <= j < PAGE_TABLE_ENTRIES ==> UserOk(e, v.frames[e.frame].entries[j])
  }

  predicate UserOk(directoryEntry: Entry, tableEntry: Entry)
    requires directoryEntry.Entry?
  {
    tableEntry.Entry? && tableEntry.user ==> directoryEntry.user
  }

  ghost predicate FrameOk(v: Vm, f: nat)
    requires f in v.owner && IsDir(v, v.kernel)
  {
    && 0 < f < |v.frames| && |v.used| == |v.frames| && v.used[f] && v.reserved <= PAGE_SIZE * f
    && match v.owner[f] {
       case Directory =>
         && IsTable(v.frames[f])
         && (forall i :: 0 <= i < PAGE_TABLE_ENTRIES ==> EntryOk(v, f, i))
         && (forall i :: KERNEL_DIRECTORY_START <= i < PAGE_TABLE_ENTRIES ==>
               v.frames[f].entries[i] == v.frames[v.kernel].entries[i])
       case Table(d, i) =>
         && i < PAGE_TABLE_ENTRIES && IsDir(v, d) && IsTable(v.frames[f])
         && v.frames[d].entries[i].Entry? && v.frames[d].entries[i].frame == f
         && (i >= KERNEL_DIRECTORY_START ==> d == v.kernel)
       case _ => IsPage(v.frames[f])
     }
  }

  ghost predicate Sound(v: Vm) {
    && |v.frames| == |v.used|
    && IsDir(v, v.kernel)
    && forall f :: f in v.owner ==> FrameOk(v, f)
  }

  // ---- translation -----------------------------------------------------------------

  ghost predicate HasTable(v: Vm, d: nat, virt: U32)
    requires Sound(v) && IsDir(v, d)
  {
    v.frames[d].entries[DirectoryIndex(virt)].Entry?
  }

  /** The page table entry that translates `virt` in directory `d`. */
  ghost function Lookup(v: Vm, d: nat, virt: U32): Entry
    requires Sound(v) && IsDir(v, d)
  {
    assert FrameOk(v, d) && EntryOk(v, d, DirectoryIndex(virt));
    var e := v.frames[d].entries[DirectoryIndex(virt)];
    if e.Empty? then Empty else v.frames[e.frame].entries[TableIndex(virt)]
  }

  /** The rights the processor grants: those both levels allow. */
  ghost predicate Grants(v: Vm, d: nat, virt: U32, write: bool)
    requires Sound(v) && IsDir(v, d)
  {
    var e := v.frames[d].entries[DirectoryIndex(virt)];
    var p := Lookup(v, d, virt);
    e.Entry? && p.Entry? && e.user && p.user && (write ==> e.writable && p.writable)
  }

  /** Both levels together grant exactly what was asked for when the page was mapped. */
  lemma {:induction false} RightsAreThePages(v: Vm, d: nat, virt: U32, write: bool)
    requires Sound(v) && IsDir(v, d)
    ensures Grants(v, d, virt, write) <==>
              var p := Lookup(v, d, virt); p.Entry? && p.user && (write ==> p.writable)
  {
    assert FrameOk(v, d) && EntryOk(v, d, DirectoryIndex(virt));
    var e := v.frames[d].entries[DirectoryIndex(virt)];
    if e.Entry? {
      assert UserOk(e, v.frames[e.frame].entries[TableIndex(virt)]);
    }
  }

  lemma {:induction false} IndexesTell(x: U32, y: U32)
    requires Aligned(x) && Aligned(y)
    ensures DirectoryIndex(x) == DirectoryIndex(y) && TableIndex(x) == TableIndex(y) <==> x == y
    ensures DirectoryIndex(x) >= KERNEL_DIRECTORY_START <==> x >= VMM_KERNEL_BASE
    ensures x == 0x40_0000 * DirectoryIndex(x) + 0x1000 * TableIndex(x)
  {
    assert x / 0x1000 / 0x400 == x / 0x40_0000 && y / 0x1000 / 0x400 == y / 0x40_0000;
  }

  // ---- how operations change memory -----------------------------------------------------

  /** The same directories, and the same data pages with the same content. */
  ghost predicate Alike(v: Vm, w: Vm) {
    && w.kernel == v.kernel && w.reserved == v.reserved && |w.frames| == |v.frames|
    && (forall d: nat :: IsDir(w, d) <==> IsDir(v, d))
    && (forall f: nat :: IsLeaf(w, f) <==> IsLeaf(v, f))
    && (forall f: nat :: IsLeaf(v, f) ==> f in w.owner && w.owner[f] == v.owner[f] && SameFrame(v, w, f))
  }

  ghost predicate SameFrame(v: Vm, w: Vm, f: nat) {
    f < |v.frames| && f < |w.frames| && w.frames[f] == v.frames[f]
  }

  /** Address `x` in directory `d` is not the one being remapped. */
  predicate Elsewhere(d: nat, x: U32, dir: nat, virt: U32) {
    x != virt || (d != dir && virt < VMM_KERNEL_BASE)
  }

  /** In directory `dir` address `virt` now translates to `e`; every other address in every
      directory, and all data, is as before. */
  ghost predicate Remapped(v: Vm, w: Vm, dir: nat, virt: U32, e: Entry)
    requires Sound(v) && Sound(w) && IsDir(v, dir)
  {
    && Alike(v, w)
    && Lookup(w, dir, virt) == e
    && (forall d: nat, x: U32 :: IsDir(v, d) && Aligned(x) && Elsewhere(d, x, dir, virt) ==> Lookup(w, d, x) == Lookup(v, d, x))
  }

  ghost predicate SameLookups(v: Vm, w: Vm)
    requires Sound(v) && Sound(w)
  {
    forall d: nat, x: U32 :: IsDir(v, d) && IsDir(w, d) && Aligned(x) ==> Lookup(w, d, x) == Lookup(v, d, x)
  }

  function EmptyTable(): (t: seq<Entry>)
    ensures |t| == PAGE_TABLE_ENTRIES && forall i :: 0 <= i < PAGE_TABLE_ENTRIES ==> t[i] == Empty
  {
    seq(PAGE_TABLE_ENTRIES, _ => Empty)
  }

  function Store(v: Vm, f: nat, i: nat, e: Entry): Vm
    requires f < |v.frames| && v.frames[f].Entries? && i < |v.frames[f].entries|
  {
    v.(frames := v.frames[f := Entries(v.frames[f].entries[i := e])])
  }

  /** Taking a free page `f` for `o`, filled with `frame`. */
  function Take(v: Vm, f: nat, o: Owner, frame: Frame): Vm
    requires f < |v.frames| == |v.used|
  {
    v.(frames := v.frames[f := frame], used := v.used[f := true], owner := v.owner[f := o])
  }

  function Drop(v: Vm, f: nat): Vm
    requires f < |v.used|
  {
    v.(used := v.used[f := false], owner := v.owner - {f})
  }

  ghost predicate Takable(v: Vm, f: nat) {
    0 < f < |v.frames| && |v.frames| == |v.used| && !v.used[f] && v.reserved <= PAGE_SIZE * f
  }

  /** A mapping above the kernel base is made only before there are other directories. */
  ghost predicate MapAllowed(v: Vm, virt: U32) {
    virt < VMM_KERNEL_BASE || forall d: nat :: IsDir(v, d) ==> d == v.kernel
  }

  /** A new, empty table `t` behind entry `i` of directory `d`. */
  ghost predicate TableAdded(v: Vm, w: Vm, d: nat, i: nat, t: nat, user: bool)
    requires IsDir(v, d) && i < PAGE_TABLE_ENTRIES && Takable(v, t)
  {
    w == Store(Take(v, t, Table(d, i), Entries(EmptyTable())), d, i, Entry(t, true, user, false))
  }

  lemma {:induction false} FreeIsUnowned(v: Vm, f: nat)
    requires Sound(v) && Takable(v, f)
    ensures f !in v.owner
  {
    assert f in v.owner ==> FrameOk(v, f);
  }

  lemma {:induction false} TableAddedDirs(v: Vm, w: Vm, d: nat, i: nat, t: nat, user: bool)
    requires Sound(v) && IsDir(v, d) && i < PAGE_TABLE_ENTRIES && Takable(v, t) && TableAdded(v, w, d, i, t, user)
    ensures t !in v.owner && t != d && IsDir(w, w.kernel)
    ensures forall e: nat :: IsDir(w, e) <==> IsDir(v, e)
    ensures forall f :: f in w.owner <==> f == t || f in v.owner
    ensures forall f :: f in v.owner ==> w.owner[f] == v.owner[f]
    ensures |w.frames| == |v.frames| && forall f :: 0 <= f < |v.frames| && f != d && f != t ==> w.frames[f] == v.frames[f]
  {
    FreeIsUnowned(v, t);
  }

  lemma {:induction false} TableAddedFrame(v: Vm, w: Vm, d: nat, i: nat, t: nat, user: bool, f: nat)
    requires Sound(v) && IsDir(v, d) && i < PAGE_TABLE_ENTRIES && Takable(v, t) && TableAdded(v, w, d, i, t, user)
    requires v.frames[d].entries[i].Empty?
    requires i < KERNEL_DIRECTORY_START || forall e: nat :: IsDir(v, e) ==> e == v.kernel
    requires f in w.owner && IsDir(w, w.kernel)
    ensures FrameOk(w, f)
  {
    TableAddedDirs(v, w, d, i, t, user);
    if f != t {
      assert FrameOk(v, f);
      if v.owner[f].Directory? {
        forall k | 0 <= k < PAGE_TABLE_ENTRIES ensures EntryOk(w, f, k) {
          assert EntryOk(v, f, k);
        }
        assert IsDir(v, f);
      }
    }
  }

  lemma {:induction false} TableAddedSound(v: Vm, w: Vm, d: nat, i: nat, t: nat, user: bool)
    requires Sound(v) && IsDir(v, d) && i < PAGE_TABLE_ENTRIES && Takable(v, t) && TableAdded(v, w, d, i, t, user)
    requires v.frames[d].entries[i].Empty?
    requires i < KERNEL_DIRECTORY_START || forall e: nat :: IsDir(v, e) ==> e == v.kernel
    ensures Sound(w)
  {
    TableAddedDirs(v, w, d, i, t, user);
    forall f | f in w.owner ensures FrameOk(w, f) {
      TableAddedFrame(v, w, d, i, t, user, f);
    }
  }

  lemma {:induction false} TableAddedKeeps(v: Vm, w: Vm, d: nat, i: nat, t: nat, user: bool)
    requires Sound(v) && IsDir(v, d) && i < PAGE_TABLE_ENTRIES && Takable(v, t) && TableAdded(v, w, d, i, t, user)
    requires v.frames[d].entries[i].Empty? && Sound(w)
    ensures Alike(v, w) && SameLookups(v, w)
  {
    TableAddedDirs(v, w, d, i, t, user);
    forall f: nat | IsLeaf(v, f) ensures SameFrame(v, w, f) {
      assert FrameOk(v, f);
    }
    forall e: nat, x: U32 | IsDir(v, e) && IsDir(w, e) && Aligned(x) ensures Lookup(w, e, x) == Lookup(v, e, x) {
      assert FrameOk(v, e) && EntryOk(v, e, DirectoryIndex(x));
    }
  }

  // ---- one entry rewritten -------------------------------------------------------------

  lemma {:induction false} UserBitSound(v: Vm, w: Vm, d: nat, i: nat)
    requires Sound(v) && IsDir(v, d) && i < PAGE_TABLE_ENTRIES && v.frames[d].entries[i].Entry?
    requires w == Store(v, d, i, v.frames[d].entries[i].(user := true))
    requires i < KERNEL_DIRECTORY_START || forall e: nat :: IsDir(v, e) ==> e == v.kernel
    ensures Sound(w) && Alike(v, w)
  {
    assert forall e: nat :: IsDir(w, e) <==> IsDir(v, e);
    forall f | f in w.owner ensures FrameOk(w, f) {
      assert FrameOk(v, f);
      if v.owner[f].Directory? {
        forall k | 0 <= k < PAGE_TABLE_ENTRIES ensures EntryOk(w, f, k) {
          assert EntryOk(v, f, k);
        }
        assert IsDir(v, f);
      }
    }
  }

  lemma {:induction false} UserBitLookups(v: Vm, w: Vm, d: nat, i: nat)
    requires Sound(v) && Sound(w) && IsDir(v, d) && i < PAGE_TABLE_ENTRIES && v.frames[d].entries[i].Entry?
    requires w == Store(v, d, i, v.frames[d].entries[i].(user := true))
    ensures SameLookups(v, w)
  {
    forall e: nat, x: U32 | IsDir(v, e) && IsDir(w, e) && Aligned(x) ensures Lookup(w, e, x) == Lookup(v, e, x) {
      assert FrameOk(v, e) && EntryOk(v, e, DirectoryIndex(x));
    }
  }

  ghost predicate EntryWritten(v: Vm, w: Vm, d: nat, virt: U32, e: Entry)
    requires Sound(v) && IsDir(v, d) && HasTable(v, d, virt)
  {
    assert FrameOk(v, d) && EntryOk(v, d, DirectoryIndex(virt));
    w == Store(v, v.frames[d].entries[DirectoryIndex(virt)].frame, TableIndex(virt), e)
  }

  lemma {:induction false} EntryWrittenSound(v: Vm, w: Vm, d: nat, virt: U32, e: Entry)
    requires Sound(v) && IsDir(v, d) && HasTable(v, d, virt) && EntryWritten(v, w, d, virt, e)
    requires UserOk(v.frames[d].entries[DirectoryIndex(virt)], e)
    ensures Sound(w) && Alike(v, w)
  {
    assert FrameOk(v, d) && EntryOk(v, d, DirectoryIndex(virt));
    var t := v.frames[d].entries[DirectoryIndex(virt)].frame;
    assert FrameOk(v, t);
    assert forall q: nat :: IsDir(w, q) <==> IsDir(v, q);
    forall f | f in w.owner ensures FrameOk(w, f) {
      assert FrameOk(v, f);
      if v.owner[f].Directory? {
        forall k | 0 <= k < PAGE_TABLE_ENTRIES ensures EntryOk(w, f, k) {
          assert EntryOk(v, f, k);
          if v.frames[f].entries[k].Entry? && v.frames[f].entries[k].frame == t {
            TableHome(v, d, f, DirectoryIndex(virt), k);
          }
        }
      }
    }
  }

  /** Two directory entries reach the same table only at the same index, and only in the
      same directory unless it is a kernel table. */
  lemma {:induction false} TableHome(v: Vm, d: nat, f: nat, i: nat, k: nat)
    requires Sound(v) && IsDir(v, d) && IsDir(v, f) && i < PAGE_TABLE_ENTRIES && k < PAGE_TABLE_ENTRIES
    requires v.frames[d].entries[i].Entry? && v.frames[f].entries[k].Entry?
    requires v.frames[d].entries[i].frame == v.frames[f].entries[k].frame
    ensures i == k && (d == f || i >= KERNEL_DIRECTORY_START)
    ensures v.frames[d].entries[i] == v.frames[f].entries[k]
  {
    assert FrameOk(v, d) && EntryOk(v, d, i);
    assert FrameOk(v, f) && EntryOk(v, f, k);
  }

  lemma {:induction false} EntryWrittenRemaps(v: Vm, w: Vm, d: nat, virt: U32, e: Entry)
    requires Sound(v) && IsDir(v, d) && HasTable(v, d, virt) && EntryWritten(v, w, d, virt, e) && Aligned(virt)
    requires Sound(w) && Alike(v, w)
    ensures Remapped(v, w, d, virt, e)
  {
    var i := DirectoryIndex(virt);
    assert FrameOk(v, d) && EntryOk(v, d, i);
    forall q: nat, x: U32 | IsDir(v, q) && Aligned(x) ensures IsDir(w, q)
      && Lookup(w, q, x) == if Elsewhere(q, x, d, virt) then Lookup(v, q, x) else e
    {
      var k := DirectoryIndex(x);
      assert FrameOk(v, q) && EntryOk(v, q, k);
      assert FrameOk(w, q) && EntryOk(w, q, k);
      IndexesTell(x, virt);
      if i >= KERNEL_DIRECTORY_START {
        assert FrameOk(v, d) && v.frames[d].entries[i] == v.frames[q].entries[i];
      }
      if v.frames[q].entries[k].Entry? && v.frames[q].entries[k].frame == v.frames[d].entries[i].frame {
        TableHome(v, d, q, i, k);
      }
    }
  }

  // ---- data pages --------------------------------------------------------------------------

  /** Only data pages come, go or change; page tables stay. */
  ghost predicate LeavesOnly(v: Vm, w: Vm) {
    && w.kernel == v.kernel && w.reserved == v.reserved && |w.frames| == |v.frames| == |w.used|
    && (forall f :: f in v.owner && !IsLeaf(v, f) ==> f in w.owner && w.owner[f] == v.owner[f] && SameFrame(v, w, f) && w.used[f])
    && (forall f :: f in w.owner && !IsLeaf(w, f) ==> f in v.owner && w.owner[f] == v.owner[f])
    && (forall f: nat :: IsLeaf(w, f) ==> 0 < f < |w.frames| && w.used[f] && w.reserved <= PAGE_SIZE * f && IsPage(w.frames[f]))
  }

  lemma {:induction false} LeavesOnlyKeeps(v: Vm, w: Vm)
    requires Sound(v) && LeavesOnly(v, w)
    ensures Sound(w) && SameLookups(v, w)
    ensures forall d: nat :: IsDir(w, d) <==> IsDir(v, d)
  {
    assert FrameOk(v, v.kernel);
    assert forall d: nat :: IsDir(w, d) <==> IsDir(v, d);
    forall f | f in w.owner ensures FrameOk(w, f) {
      if !IsLeaf(w, f) {
        assert FrameOk(v, f);
        if v.owner[f].Directory? {
          forall k | 0 <= k < PAGE_TABLE_ENTRIES ensures EntryOk(w, f, k) {
            assert EntryOk(v, f, k);
          }
        }
      }
    }
    forall e: nat, x: U32 | IsDir(v, e) && IsDir(w, e) && Aligned(x) ensures Lookup(w, e, x) == Lookup(v, e, x) {
      assert FrameOk(v, e) && EntryOk(v, e, DirectoryIndex(x));
    }
  }

  // ---- directories --------------------------------------------------------------------------

  /** A new directory `n` with an empty user half and the kernel's upper half. */
  function FreshDirectory(kernel: seq<Entry>): (t: seq<Entry>)
    requires |kernel| == PAGE_TABLE_ENTRIES
    ensures |t| == PAGE_TABLE_ENTRIES
  {
    EmptyTable()[..KERNEL_DIRECTORY_START] + kernel[KERNEL_DIRECTORY_START..]
  }

  lemma {:induction false} DirectoryAdded(v: Vm, w: Vm, n: nat)
    requires Sound(v) && Takable(v, n)
    requires w == Take(v, n, Directory, Entries(FreshDirectory(v.frames[v.kernel].entries)))
    ensures Sound(w) && SameLookups(v, w) && n !in v.owner && IsDir(w, n)
    ensures forall d: nat :: IsDir(w, d) <==> IsDir(v, d) || d == n
    ensures forall x: U32 :: Aligned(x) ==> Lookup(w, n, x) == if x < VMM_KERNEL_BASE then Empty else Lookup(v, v.kernel, x)
  {
    FreeIsUnowned(v, n);
    assert FrameOk(v, v.kernel);
    forall f | f in w.owner ensures FrameOk(w, f) {
      if f != n {
        assert FrameOk(v, f);
        if v.owner[f].Directory? {
          forall k | 0 <= k < PAGE_TABLE_ENTRIES ensures EntryOk(w, f, k) {
            assert EntryOk(v, f, k);
          }
        }
      } else {
        forall k | 0 <= k < PAGE_TABLE_ENTRIES ensures EntryOk(w, n, k) {
          assert EntryOk(v, v.kernel, k);
        }
      }
    }
    forall e: nat, x: U32 | IsDir(v, e) && IsDir(w, e) && Aligned(x) ensures Lookup(w, e, x) == Lookup(v, e, x) {
      assert FrameOk(v, e) && EntryOk(v, e, DirectoryIndex(x));
    }
    forall x: U32 | Aligned(x)
      ensures Lookup(w, n, x) == if x < VMM_KERNEL_BASE then Empty else Lookup(v, v.kernel, x)
    {
      IndexesTell(x, x);
      assert EntryOk(v, v.kernel, DirectoryIndex(x));
    }
  }

  /** Table `i` of user directory `d` is freed. */
  lemma {:induction false} TableDropped(v: Vm, w: Vm, d: nat, i: nat)
    requires Sound(v) && IsDir(v, d) && d != v.kernel && i < KERNEL_DIRECTORY_START && v.frames[d].entries[i].Entry?
    requires FrameOk(v, d) && EntryOk(v, d, i)
    requires w == Drop(Store(v, d, i, Empty), v.frames[d].entries[i].frame)
    ensures Sound(w)
    ensures forall e: nat :: IsDir(w, e) <==> IsDir(v, e)
    ensures forall e: nat, x: U32 :: IsDir(v, e) && Aligned(x) && e != d ==> Lookup(w, e, x) == Lookup(v, e, x)
  {
    var t := v.frames[d].entries[i].frame;
    assert FrameOk(v, t);
    assert forall e: nat :: IsDir(w, e) <==> IsDir(v, e);
    forall f | f in w.owner ensures FrameOk(w, f) {
      assert FrameOk(v, f);
      if v.owner[f].Directory? {
        forall k | 0 <= k < PAGE_TABLE_ENTRIES ensures EntryOk(w, f, k) {
          assert EntryOk(v, f, k);
        }
      }
    }
    forall e: nat, x: U32 | IsDir(v, e) && Aligned(x) && e != d ensures Lookup(w, e, x) == Lookup(v, e, x) {
      assert FrameOk(v, e) && EntryOk(v, e, DirectoryIndex(x));
    }
  }

  /** A directory without tables of its own is freed. */
  lemma {:induction false} DirectoryDropped(v: Vm, w: Vm, d: nat)
    requires Sound(v) && IsDir(v, d) && d != v.kernel && w == Drop(v, d)
    requires forall i :: 0 <= i < KERNEL_DIRECTORY_START ==> v.frames[d].entries[i].Empty?
    ensures Sound(w) && SameLookups(v, w)
    ensures forall e: nat :: IsDir(w, e) <==> IsDir(v, e) && e != d
  {
    forall f | f in w.owner ensures FrameOk(w, f) {
      assert FrameOk(v, f);
      if v.owner[f].Directory? {
        forall k | 0 <= k < PAGE_TABLE_ENTRIES ensures EntryOk(w, f, k) {
          assert EntryOk(v, f, k);
        }
      }
    }
    forall e: nat, x: U32 | IsDir(v, e) && IsDir(w, e) && Aligned(x) ensures Lookup(w, e, x) == Lookup(v, e, x) {
      assert FrameOk(v, e) && EntryOk(v, e, DirectoryIndex(x));
    }
  }

  // ---- ownership ---------------------------------------------------------------------------

  /** The pages of `pool` are the free ones and the owned ones: none is ever lost, and
      none outside the pool is ever handed out. */
  ghost predicate Conserved(v: Vm, pool: set<nat>) {
    |v.used| == |v.frames| && forall f: nat :: f < |v.frames| ==> (f in pool <==> !v.used[f] || f in v.owner)
  }

  /** Owners are only added, and those added are tables of entry `i` of directory `d`. */
  ghost predicate OwnersGrow(v: Vm, w: Vm, d: nat, i: nat) {
    && (forall f :: f in v.owner ==> f in w.owner && w.owner[f] == v.owner[f])
    && (forall f :: f in w.owner ==> f in v.owner || w.owner[f] == Table(d, i))
  }

  /** Page `f`, owned as `o`, is part of the address space of directory `d`. */
  predicate PartOf(f: nat, o: Owner, d: nat) {
    if o.Directory? then f == d else o.dir == d
  }

  lemma {:induction false} RemapAfter(v: Vm, u: Vm, w: Vm, dir: nat, virt: U32, e: Entry)
    requires Sound(v) && Sound(u) && Sound(w) && IsDir(v, dir) && IsDir(u, dir)
    requires Alike(v, u) && SameLookups(v, u) && Remapped(u, w, dir, virt, e)
    ensures Remapped(v, w, dir, virt, e)
  {
    forall f: nat | IsLeaf(v, f) ensures f in w.owner && w.owner[f] == v.owner[f] && SameFrame(v, w, f) {
      assert IsLeaf(u, f) && SameFrame(v, u, f) && SameFrame(u, w, f);
    }
    forall d: nat, x: U32 | IsDir(v, d) && Aligned(x) && Elsewhere(d, x, dir, virt)
      ensures Lookup(w, d, x) == Lookup(v, d, x)
    {
      assert IsDir(u, d);
    }
  }

  /** The pages in `gone` are free and unowned, all others as before. */
  ghost predicate Released(v: Vm, w: Vm, gone: set<nat>) {
    && w.kernel == v.kernel && w.reserved == v.reserved
    && |w.frames| == |v.frames| == |w.used| == |v.used|
    && gone <= v.owner.Keys
    && (forall f :: f in w.owner <==> f in v.owner && f !in gone)
    && (forall f :: f in w.owner ==> w.owner[f] == v.owner[f])
    && (forall f :: 0 <= f < |v.used| ==> w.used[f] == (v.used[f] && f !in gone))
    && (forall f: nat :: IsLeaf(w, f) && f < |v.frames| ==> SameFrame(v, w, f))
  }

  lemma {:induction false} ReleasedTwice(v: Vm, u: Vm, w: Vm, a: set<nat>, b: set<nat>)
    requires Released(v, u, a) && Released(u, w, b)
    ensures Released(v, w, a + b)
  {
    forall f: nat | IsLeaf(w, f) && f < |v.frames| ensures SameFrame(v, w, f) {
      assert SameFrame(u, w, f) && IsLeaf(u, f) && SameFrame(v, u, f);
    }
  }

  /** The tables of directory `d` below entry `i`. */
  ghost function TablesBelow(v: Vm, d: nat, i: nat): set<nat> {
    set f | f in v.owner && v.owner[f].Table? && v.owner[f].dir == d && v.owner[f].index < i
  }

  /** Everything that makes up directory `d`: itself and its tables. */
  ghost function StructureOf(v: Vm, d: nat): set<nat> {
    {d} + TablesBelow(v, d, KERNEL_DIRECTORY_START)
  }

  /** Everything the address space of directory `d` holds, data pages included. */
  ghost function SpaceOf(v: Vm, d: nat): set<nat> {
    set f | f in v.owner && PartOf(f, v.owner[f], d)
  }

  lemma {:induction false} OneTableEach(v: Vm, d: nat, i: nat)
    requires Sound(v) && IsDir(v, d) && i < KERNEL_DIRECTORY_START
    ensures var e := v.frames[d].entries[i];
            TablesBelow(v, d, i + 1) == TablesBelow(v, d, i) + (if e.Entry? then {e.frame} else {})
  {
    var e := v.frames[d].entries[i];
    assert FrameOk(v, d) && EntryOk(v, d, i);
    forall f | f in v.owner
      ensures f in TablesBelow(v, d, i + 1) <==> f in TablesBelow(v, d, i) || (e.Entry? && f == e.frame)
    {
      assert FrameOk(v, f);
    }
  }

  /** One more table of `d` is gone. */
  lemma {:induction false} OneTableFewer(v: Vm, u: Vm, w: Vm, d: nat, i: nat)
    requires Sound(v) && IsDir(v, d) && i < KERNEL_DIRECTORY_START && v.frames[d].entries[i].Entry?
    requires Released(v, u, TablesBelow(v, d, i)) && Released(u, w, {v.frames[d].entries[i].frame})
    ensures Released(v, w, TablesBelow(v, d, i + 1))
  {
    OneTableEach(v, d, i);
    ReleasedTwice(v, u, w, TablesBelow(v, d, i), {v.frames[d].entries[i].frame});
  }

  /** Directory `d` of `v` has lost its first `i` tables, and nothing else changed. */
  ghost predicate TablesGone(v: Vm, w: Vm, d: nat, i: nat) {
    && Sound(v) && Sound(w) && IsDir(v, d) && IsDir(w, d)
    && Released(v, w, TablesBelow(v, d, i))
    && (forall e: nat :: IsDir(w, e) <==> IsDir(v, e))
    && forall e: nat, x: U32 :: IsDir(v, e) && Aligned(x) && e != d ==> Lookup(w, e, x) == Lookup(v, e, x)
  }

  function FirstCleared(entries: seq<Entry>, i: nat): (after: seq<Entry>)
    requires i <= |entries|
    ensures |after| == |entries|
  {
    seq(|entries|, k requires 0 <= k < |entries| => if k < i then Empty else entries[k])
  }

  lemma {:induction false} NoneCleared(entries: seq<Entry>)
    ensures FirstCleared(entries, 0) == entries
  {
  }

  lemma {:induction false} NoTablesBelow(v: Vm, d: nat)
    requires Sound(v) && IsDir(v, d)
    ensures TablesGone(v, v, d, 0)
  {
    assert TablesBelow(v, d, 0) == {};
    forall f: nat | IsLeaf(v, f) && f < |v.frames| ensures SameFrame(v, v, f) {
    }
  }

  lemma {:induction false} AllTablesGone(v: Vm, w: Vm, d: nat)
    requires Sound(v) && IsDir(v, d) && TablesGone(v, w, d, KERNEL_DIRECTORY_START)
    requires w.frames[d].entries == FirstCleared(v.frames[d].entries, KERNEL_DIRECTORY_START)
    ensures Sound(w) && IsDir(w, d)
    ensures forall k :: 0 <= k < KERNEL_DIRECTORY_START ==> w.frames[d].entries[k].Empty?
  {
  }

  lemma {:induction false} StructureGone(v: Vm, u: Vm, w: Vm, d: nat)
    requires TablesGone(v, u, d, KERNEL_DIRECTORY_START) && Sound(w)
    requires Released(u, w, {d}) && SameLookups(u, w) && forall e: nat :: IsDir(w, e) <==> IsDir(u, e) && e != d
    ensures Released(v, w, StructureOf(v, d)) && SameLookups(v, w)
    ensures forall e: nat :: IsDir(w, e) <==> IsDir(v, e) && e != d
  {
    ReleasedTwice(v, u, w, TablesBelow(v, d, KERNEL_DIRECTORY_START), {d});
    assert TablesBelow(v, d, KERNEL_DIRECTORY_START) + {d} == StructureOf(v, d);
  }

  lemma {:induction false} DropReleases(v: Vm, w: Vm, d: nat, i: nat)
    requires Sound(v) && IsDir(v, d) && i < PAGE_TABLE_ENTRIES && v.frames[d].entries[i].Entry?
    requires v.frames[d].entries[i].frame in v.owner && v.frames[d].entries[i].frame < |v.used|
    requires w == Drop(Store(v, d, i, Empty), v.frames[d].entries[i].frame)
    ensures Released(v, w, {v.frames[d].entries[i].frame})
  {
  }

  lemma {:induction false} AlikeItself(v: Vm)
    requires Sound(v)
    ensures Alike(v, v)
  {
    forall f: nat | IsLeaf(v, f) ensures SameFrame(v, v, f) {
      assert FrameOk(v, f);
    }
  }
}
