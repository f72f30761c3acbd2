/** The virtual memory manager: page directories and tables changed in place. */
module VmmModule {
  import opened Machine
  import opened Bitmap
  import opened PmmSpec
  import opened PmmModule
  import opened VmmSpec

  class Vmm {
    const pmm: Pmm
    var frames: seq<Frame>
    var kernel: nat
    var current: nat
    ghost var owner: map<nat, Owner>
    ghost var pool: set<nat>

    ghost function View(): (v: Vm)
      reads this, pmm
      ensures v.frames == frames && v.used == pmm.bitmap && v.owner == owner && v.kernel == kernel
    {
      Vm(frames, pmm.bitmap, pmm.ReservedEnd(), owner, kernel)
    }

    ghost predicate Valid()
      reads this, pmm
    {
      && pmm.ready && pmm.Valid() && |frames| == pmm.totalPages
      && Sound(View()) && Conserved(View(), pool)
      && IsDir(View(), current)
    }

    /** Before `Init`: no page is owned and there is no directory. */
    constructor (pmm: Pmm, memory: seq<Frame>)
      requires pmm.ready && pmm.Valid() && |memory| == pmm.totalPages
      ensures this.pmm == pmm && frames == memory && owner == map[] && Conserved(View(), pool)
    {
      this.pmm := pmm;
      frames := memory;
      kernel, current := 0, 0;
      owner := map[];
      pool := set p: nat | p < |memory| && !pmm.bitmap[p];
    }

    /** Builds the kernel's directory and maps all of physical memory at the kernel base,
        open to the kernel only. It fails exactly for want of pages: one for the directory
        and one for every 4 MiB mapped. */
    method Init() returns (ok: bool)
      requires pmm.ready && pmm.Valid() && owner == map[] && |frames| == pmm.totalPages && Conserved(View(), pool)
      requires pmm.totalBytes <= 0x4000_0000
      modifies this`frames, this`owner, this`kernel, this`current, pmm`bitmap, pmm`freePages
      ensures ok <==> old(pmm.freePages) > TablesFor(AlignDown(pmm.totalBytes))
      ensures ok ==> Valid() && current == kernel && MapsDirectly(View(), AlignDown(pmm.totalBytes))
      ensures ok ==> pmm.freePages == old(pmm.freePages) - 1 - TablesFor(AlignDown(pmm.totalBytes))
      ensures ok ==> forall f :: f in owner ==> owner[f].Directory? || owner[f].Table?
    {
      hide FreeCount, Valid, Sound, MapsDirectly, Aligned, AlignDown, AlignUp, Pmm.Valid, Pmm.Counted, Pmm.ReservedEnd, Conserved,
           TablesMade, TablesFor;
      var mapped := AlignDown(pmm.totalBytes);
      MappedBounds(pmm.totalBytes);
      ok := NewKernelDirectory();
      if !ok {
        return;
      }
      var addr: U32 := 0;
      while addr < mapped
        invariant Aligned(addr) && addr <= mapped && Valid() && current == kernel && MapsDirectly(View(), addr)
        invariant TablesMade(View(), TablesFor(addr)) && pmm.freePages == old(pmm.freePages) - 1 - TablesFor(addr)
      {
        ok := MapDirectPage(addr);
        NextPage(addr, mapped);
        MoreTables(addr + PAGE_SIZE, mapped);
        if !ok {
          return;
        }
        addr := addr + PAGE_SIZE;
      }
      OnlyTablesMade(View(), TablesFor(addr));
    }

    method MapDirectPage(addr: U32) returns (ok: bool)
      requires Valid() && Aligned(addr) && addr < 0x4000_0000 && current == kernel && MapsDirectly(View(), addr)
      requires TablesMade(View(), TablesFor(addr))
      modifies this`frames, this`owner, pmm`bitmap, pmm`freePages
      ensures ok <==> old(pmm.freePages) >= TablesFor(addr + PAGE_SIZE) - TablesFor(addr)
      ensures ok ==> Valid() && MapsDirectly(View(), addr + PAGE_SIZE) && TablesMade(View(), TablesFor(addr + PAGE_SIZE))
      ensures ok ==> pmm.freePages == old(pmm.freePages) - (TablesFor(addr + PAGE_SIZE) - TablesFor(addr))
    {
      hide FreeCount, TablesMade, TablesFor, FrameOk, EntryOk, Conserved, Pmm.Valid;
      ghost var v := View();
      var virt := Add32(VMM_KERNEL_BASE, addr);
      DirectMapStep(addr, 0);
      TableIsMade(v, addr);
      ok := MapPage(current, virt, addr, true, false);
      if ok {
        ghost var w := View();
        OneMoreTable(v, w, addr);
        hide Sound, Lookup;
        forall x: U32 | Aligned(x) ensures Lookup(w, kernel, x) == DirectMap(addr + PAGE_SIZE, x) {
          DirectMapStep(addr, x);
          assert x != virt ==> Elsewhere(kernel, x, kernel, virt) && Lookup(w, kernel, x) == Lookup(v, kernel, x);
        }
      }
    }

    method NewKernelDirectory() returns (ok: bool)
      requires pmm.ready && pmm.Valid() && owner == map[] && |frames| == pmm.totalPages && Conserved(View(), pool)
      modifies this`frames, this`owner, this`kernel, this`current, pmm`bitmap, pmm`freePages
      ensures ok <==> old(pmm.freePages) > 0
      ensures ok ==> Valid() && current == kernel && MapsDirectly(View(), 0) && TablesMade(View(), TablesFor(0))
      ensures ok ==> pmm.freePages == old(pmm.freePages) - 1
    {
      hide FreeCount;
      var phys := pmm.AllocPage();
      if phys == 0 {
        return false;
      }
      current := phys / PAGE_SIZE;
      kernel := current;
      frames := frames[kernel := Entries(EmptyTable())];
      owner := map[kernel := Directory];
      ghost var v := View();
      forall f | f in owner ensures FrameOk(v, f) {
        forall k | 0 <= k < PAGE_TABLE_ENTRIES ensures EntryOk(v, f, k) {
        }
      }
      return true;
    }

    /** A table for entry `i` of a directory, and the entry opened to user code if asked. */
    method EnsureTable(dir: nat, i: nat, user: bool) returns (ok: bool)
      requires Valid() && IsDir(View(), dir) && i < PAGE_TABLE_ENTRIES
      requires i < KERNEL_DIRECTORY_START || forall e: nat :: IsDir(View(), e) ==> e == kernel
      modifies this`frames, this`owner, pmm`bitmap, pmm`freePages
      ensures Valid()
      ensures ok <==> old(frames[dir].entries[i].Entry?) || old(pmm.freePages) > 0
      ensures !ok ==> View() == old(View())
      ensures pmm.freePages == old(pmm.freePages) - (if ok && old(frames[dir].entries[i].Empty?) then 1 else 0)
      ensures ok ==>
                && Alike(old(View()), View()) && SameLookups(old(View()), View()) && IsDir(View(), dir)
                && frames[dir].entries[i].Entry? && (user ==> frames[dir].entries[i].user)
                && OwnersGrow(old(View()), View(), dir, i)
                && (old(frames[dir].entries[i].Entry?) ==> owner == old(owner))
    {
      hide FreeCount;
      hide FrameOk, EntryOk;
      ghost var v := View();
      if frames[dir].entries[i].Empty? {
        var phys := pmm.AllocPage();
        if phys == 0 {
          return false;
        }
        var t := phys / PAGE_SIZE;
        FreeIsUnowned(v, t);
        frames := frames[t := Entries(EmptyTable())];
        frames := frames[dir := Entries(frames[dir].entries[i := Entry(t, true, user, false)])];
        owner := owner[t := Table(dir, i)];
        assert TableAdded(v, View(), dir, i, t, user);
        TableAddedSound(v, View(), dir, i, t, user);
        TableAddedKeeps(v, View(), dir, i, t, user);
        TableAddedDirs(v, View(), dir, i, t, user);
      } else if !user {
        AlikeItself(v);
      } else {
        frames := frames[dir := Entries(frames[dir].entries[i := frames[dir].entries[i].(user := true)])];
        UserBitSound(v, View(), dir, i);
        UserBitLookups(v, View(), dir, i);
      }
      return true;
    }

    /** Maps a page, making the table for it if needed. It fails only on unaligned
        addresses, without a directory, or when that table finds no free page. */
    method MapPage(dir: nat, virt: U32, phys: U32, writable: bool, user: bool) returns (ok: bool)
      requires Valid() && (dir == 0 || IsDir(View(), dir)) && MapAllowed(View(), virt)
      modifies this`frames, this`owner, pmm`bitmap, pmm`freePages
      ensures Valid()
      ensures ok <==> dir != 0 && Aligned(virt) && Aligned(phys) && (HasTable(old(View()), dir, virt) || old(pmm.freePages) > 0)
      ensures !ok ==> View() == old(View()) && pmm.freePages == old(pmm.freePages)
      ensures ok ==>
                && Remapped(old(View()), View(), dir, virt, Entry(phys / PAGE_SIZE, writable, user, false))
                && pmm.freePages == old(pmm.freePages) - (if HasTable(old(View()), dir, virt) then 0 else 1)
                && OwnersGrow(old(View()), View(), dir, DirectoryIndex(virt))
                && (HasTable(old(View()), dir, virt) ==> owner == old(owner))
    {
      hide FreeCount, Lookup, Alike, SameLookups, Remapped, Conserved, Pmm.Valid;
      if dir == 0 || !Aligned(virt) || !Aligned(phys) {
        return false;
      }
      hide FrameOk, EntryOk;
      ghost var v := View();
      IndexesTell(virt, virt);
      ok := EnsureTable(dir, DirectoryIndex(virt), user);
      if ok {
        ghost var u := View();
        WriteEntry(dir, virt, Entry(phys / PAGE_SIZE, writable, user, false));
        RemapAfter(v, u, View(), dir, virt, Entry(phys / PAGE_SIZE, writable, user, false));
      }
    }

    /** Writes the table entry of an address whose directory entry is present. */
    method WriteEntry(dir: nat, virt: U32, e: Entry)
      requires Valid() && IsDir(View(), dir) && Aligned(virt) && HasTable(View(), dir, virt)
      requires UserOk(frames[dir].entries[DirectoryIndex(virt)], e)
      modifies this`frames
      ensures Valid() && Remapped(old(View()), View(), dir, virt, e) && owner == old(owner)
    {
      hide FreeCount;
      ghost var v := View();
      assert FrameOk(v, dir) && EntryOk(v, dir, DirectoryIndex(virt));
      var t := frames[dir].entries[DirectoryIndex(virt)].frame;
      frames := frames[t := Entries(frames[t].entries[TableIndex(virt) := e])];
      assert EntryWritten(v, View(), dir, virt, e);
      EntryWrittenSound(v, View(), dir, virt, e);
      EntryWrittenRemaps(v, View(), dir, virt, e);
    }

    /** Reads the table entry of an address; absent when there is no table for it. */
    method GetPageEntry(dir: nat, virt: U32) returns (e: Entry)
      requires Valid() && IsDir(View(), dir)
      ensures e == Lookup(View(), dir, virt)
    {
      assert FrameOk(View(), dir) && EntryOk(View(), dir, DirectoryIndex(virt));
      if frames[dir].entries[DirectoryIndex(virt)].Empty? {
        return Empty;
      }
      return frames[frames[dir].entries[DirectoryIndex(virt)].frame].entries[TableIndex(virt)];
    }

    /** The physical address an address translates to. */
    method GetMapping(dir: nat, virt: U32) returns (ok: bool, phys: int)
      requires Valid() && (dir == 0 || IsDir(View(), dir))
      ensures ok <==> dir != 0 && Lookup(View(), dir, virt).Entry?
      ensures ok ==> phys == PAGE_SIZE * Lookup(View(), dir, virt).frame + virt % PAGE_SIZE
    {
      if dir == 0 {
        return false, 0;
      }
      var e := GetPageEntry(dir, virt);
      if e.Empty? {
        return false, 0;
      }
      return true, PAGE_SIZE * e.frame + virt % PAGE_SIZE;
    }

    method UnmapPage(dir: nat, virt: U32)
      requires Valid() && (dir == 0 || IsDir(View(), dir))
      modifies this`frames
      ensures Valid() && owner == old(owner)
      ensures if dir != 0 && Aligned(virt) && Lookup(old(View()), dir, virt).Entry?
              then Remapped(old(View()), View(), dir, virt, Empty) else View() == old(View())
    {
      if dir == 0 || !Aligned(virt) {
        return;
      }
      var e := GetPageEntry(dir, virt);
      if e.Entry? {
        WriteEntry(dir, virt, Empty);
      }
    }

    /** Clears the accessed bit of the page an address lies in, so that the next access
        shows. */
    method ClearAccessed(dir: nat, virt: U32) returns (ok: bool)
      requires Valid() && (dir == 0 || IsDir(View(), dir))
      modifies this`frames
      ensures Valid() && owner == old(owner)
      ensures ok <==> dir != 0 && Lookup(old(View()), dir, AlignDown(virt)).Entry?
      ensures if ok then Remapped(old(View()), View(), dir, AlignDown(virt), Lookup(old(View()), dir, AlignDown(virt)).(accessed := false))
              else View() == old(View())
    {
      if dir == 0 {
        return false;
      }
      SamePage(virt);
      var e := GetPageEntry(dir, virt);
      if e.Empty? {
        return false;
      }
      EntryKeepsUser(View(), dir, virt);
      WriteEntry(dir, AlignDown(virt), e.(accessed := false));
      return true;
    }

    /** The processor's own update on an access: the accessed bit goes up. */
    method SetAccessed(dir: nat, virt: U32)
      requires Valid() && IsDir(View(), dir) && Aligned(virt) && Lookup(View(), dir, virt).Entry?
      modifies this`frames
      ensures Valid() && owner == old(owner)
      ensures Remapped(old(View()), View(), dir, virt, Lookup(old(View()), dir, virt).(accessed := true))
    {
      var e := GetPageEntry(dir, virt);
      EntryKeepsUser(View(), dir, virt);
      WriteEntry(dir, virt, e.(accessed := true));
    }

    // ---- data pages ------------------------------------------------------------------------

    /** Takes a free page and fills it; 0 when there is none. */
    method TakeFrame(bytes: seq<Byte>, ghost o: Owner) returns (frame: nat)
      requires Valid() && |bytes| == PAGE_SIZE && (o.PagerFrame? || o.DemoFrame?)
      modifies this`frames, this`owner, pmm`bitmap, pmm`freePages
      ensures Valid()
      ensures frame == 0 <==> old(pmm.freePages) == 0
      ensures frame == 0 ==> View() == old(View()) && pmm.freePages == old(pmm.freePages)
      ensures frame != 0 ==>
                && frame < |frames| == |old(pmm.bitmap)| && PAGE_SIZE * frame < WORD_LIMIT && frame !in old(owner)
                && !old(pmm.bitmap)[frame] && View() == Take(old(View()), frame, o, Data(bytes))
                && LeavesOnly(old(View()), View()) && pmm.freePages == old(pmm.freePages) - 1
    {
      hide FreeCount;
      hide FrameOk, EntryOk;
      ghost var v := View();
      var phys := pmm.AllocPage();
      if phys == 0 {
        return 0;
      }
      frame := phys / PAGE_SIZE;
      FreeIsUnowned(v, frame);
      frames := frames[frame := Data(bytes)];
      owner := owner[frame := o];
      LeafAdded(v, View(), frame, o, bytes);
      LeavesOnlyKeeps(v, View());
    }

    /** Gives a data page back. */
    method FreeFrame(frame: nat)
      requires Valid() && IsLeaf(View(), frame)
      modifies this`owner, pmm`bitmap, pmm`freePages
      ensures Valid()
      ensures View() == Drop(old(View()), frame) && LeavesOnly(old(View()), View())
      ensures pmm.freePages == old(pmm.freePages) + 1
    {
      hide FreeCount;
      ghost var v := View();
      assert FrameOk(v, frame);
      hide FrameOk, EntryOk;
      pmm.FreePage(PAGE_SIZE * frame);
      owner := owner - {frame};
      LeafDropped(v, View(), frame);
      LeavesOnlyKeeps(v, View());
    }

    /** User code or the kernel writes into a data page. */
    method FillFrame(frame: nat, bytes: seq<Byte>)
      requires Valid() && IsLeaf(View(), frame) && |bytes| == PAGE_SIZE
      modifies this`frames
      ensures Valid() && owner == old(owner)
      ensures frame < |frames| && frames == old(frames)[frame := Data(bytes)]
      ensures LeavesOnly(old(View()), View())
    {
      hide FreeCount;
      ghost var v := View();
      assert FrameOk(v, frame);
      hide FrameOk, EntryOk;
      frames := frames[frame := Data(bytes)];
      LeafFilled(v, View(), frame, bytes);
      LeavesOnlyKeeps(v, View());
    }

    // ---- address spaces -----------------------------------------------------------------------

    /** A directory with nothing mapped below the kernel base and the kernel above it. */
    method CreateAddressSpace() returns (dir: nat)
      requires Valid()
      modifies this`frames, this`owner, pmm`bitmap, pmm`freePages
      ensures Valid()
      ensures dir == 0 <==> old(pmm.freePages) == 0
      ensures dir == 0 ==> View() == old(View()) && pmm.freePages == old(pmm.freePages)
      ensures dir != 0 ==>
                && dir !in old(owner) && owner == old(owner)[dir := Directory] && IsDir(View(), dir)
                && dir < |old(pmm.bitmap)| && !old(pmm.bitmap)[dir] && pmm.bitmap == old(pmm.bitmap)[dir := true]
                && |frames| == |old(frames)|
                && SameLookups(old(View()), View()) && pmm.freePages == old(pmm.freePages) - 1
                && (forall d: nat :: IsDir(View(), d) <==> IsDir(old(View()), d) || d == dir)
                && (forall f: nat :: IsLeaf(old(View()), f) ==> SameFrame(old(View()), View(), f))
                && forall x: U32 :: Aligned(x) ==>
                     Lookup(View(), dir, x) == if x < VMM_KERNEL_BASE then Empty else Lookup(old(View()), kernel, x)
    {
      hide FreeCount;
      ghost var v := View();
      var phys := pmm.AllocPage();
      if phys == 0 {
        return 0;
      }
      dir := phys / PAGE_SIZE;
      FreeIsUnowned(v, dir);
      assert FrameOk(v, kernel);
      hide FrameOk, EntryOk;
      frames := frames[dir := Entries(EmptyTable())];
      for i := KERNEL_DIRECTORY_START to PAGE_TABLE_ENTRIES
        modifies this`frames
        invariant |frames| == |v.frames| && IsTable(frames[dir]) && frames == v.frames[dir := frames[dir]]
        invariant forall k :: 0 <= k < PAGE_TABLE_ENTRIES ==>
                    frames[dir].entries[k] == if KERNEL_DIRECTORY_START <= k < i then v.frames[kernel].entries[k] else Empty
      {
        frames := frames[dir := Entries(frames[dir].entries[i := frames[kernel].entries[i]])];
      }
      owner := owner[dir := Directory];
      assert frames[dir].entries == FreshDirectory(v.frames[kernel].entries);
      assert View() == Take(v, dir, Directory, Entries(FreshDirectory(v.frames[kernel].entries)));
      DirectoryAdded(v, View(), dir);
    }

    /** Frees the tables of a user directory and the directory, and nothing else. */
    method DestroyAddressSpace(dir: nat)
      requires Valid() && (dir == 0 || IsDir(View(), dir)) && (dir == current ==> dir == kernel)
      modifies this`frames, this`owner, pmm`bitmap, pmm`freePages
      ensures Valid()
      ensures dir == 0 || dir == kernel ==> View() == old(View())
      ensures dir != 0 && dir != kernel ==>
                && Released(old(View()), View(), StructureOf(old(View()), dir)) && SameLookups(old(View()), View())
                && forall d: nat :: IsDir(View(), d) <==> IsDir(old(View()), d) && d != dir
      ensures pmm.freePages >= old(pmm.freePages)
    {
      hide FreeCount, Sound, Conserved, FrameOk, TablesGone, FirstCleared, Released, SameLookups, StructureOf, Lookup, Pmm.Valid;
      if dir == 0 || dir == kernel {
        return;
      }
      ghost var v := View();
      NoTablesBelow(v, dir);
      NoneCleared(frames[dir].entries);
      for i := 0 to KERNEL_DIRECTORY_START
        invariant Valid() && kernel == v.kernel && current == old(current)
        invariant TablesGone(v, View(), dir, i) && pmm.freePages >= old(pmm.freePages)
        invariant IsTable(frames[dir]) && frames[dir].entries == FirstCleared(v.frames[dir].entries, i)
      {
        FreeOneTable(dir, i, v);
      }
      AllTablesGone(v, View(), dir);
      ghost var u := View();
      FreeDirectory(dir);
      StructureGone(v, u, View(), dir);
    }

    method FreeOneTable(dir: nat, i: nat, ghost v: Vm)
      requires Valid() && dir != kernel && kernel == v.kernel && i < KERNEL_DIRECTORY_START
      requires TablesGone(v, View(), dir, i)
      requires IsTable(frames[dir]) && frames[dir].entries == FirstCleared(v.frames[dir].entries, i)
      modifies this`frames, this`owner, pmm`bitmap, pmm`freePages
      ensures Valid() && TablesGone(v, View(), dir, i + 1)
      ensures IsTable(frames[dir]) && frames[dir].entries == FirstCleared(v.frames[dir].entries, i + 1)
      ensures pmm.freePages >= old(pmm.freePages)
    {
      hide FreeCount, FrameOk, EntryOk, Conserved, Pmm.Valid;
      ghost var u := View();
      OneTableEach(v, dir, i);
      if frames[dir].entries[i].Entry? {
        FreeTable(dir, i);
        OneTableFewer(v, u, View(), dir, i);
      }
      assert frames[dir].entries == FirstCleared(v.frames[dir].entries, i + 1);
    }

    method FreeTable(dir: nat, i: nat)
      requires Valid() && IsDir(View(), dir) && dir != kernel && i < KERNEL_DIRECTORY_START && frames[dir].entries[i].Entry?
      modifies this`frames, this`owner, pmm`bitmap, pmm`freePages
      ensures Valid()
      ensures Released(old(View()), View(), {old(frames)[dir].entries[i].frame})
      ensures forall d: nat :: IsDir(View(), d) <==> IsDir(old(View()), d)
      ensures IsDir(View(), dir) && frames[dir].entries == old(frames)[dir].entries[i := Empty]
      ensures forall d: nat, x: U32 :: IsDir(old(View()), d) && Aligned(x) && d != dir ==>
                Lookup(View(), d, x) == Lookup(old(View()), d, x)
      ensures pmm.freePages >= old(pmm.freePages)
    {
      hide FreeCount;
      ghost var v := View();
      assert FrameOk(v, dir) && EntryOk(v, dir, i);
      var t := frames[dir].entries[i].frame;
      assert FrameOk(v, t);
      hide FrameOk, EntryOk;
      pmm.FreePage(PAGE_SIZE * t);
      frames := frames[dir := Entries(frames[dir].entries[i := Empty])];
      owner := owner - {t};
      assert View() == Drop(Store(v, dir, i, Empty), t);
      TableDropped(v, View(), dir, i);
      DropReleases(v, View(), dir, i);
      hide Released, Sound, Lookup;
    }

    method FreeDirectory(dir: nat)
      requires Valid() && IsDir(View(), dir) && dir != kernel && dir != current
      requires forall i :: 0 <= i < KERNEL_DIRECTORY_START ==> frames[dir].entries[i].Empty?
      modifies this`frames, this`owner, pmm`bitmap, pmm`freePages
      ensures Valid() && Sound(View()) && Sound(old(View()))
      ensures Released(old(View()), View(), {dir}) && SameLookups(old(View()), View())
      ensures forall d: nat :: IsDir(View(), d) <==> IsDir(old(View()), d) && d != dir
      ensures pmm.freePages >= old(pmm.freePages)
    {
      hide FreeCount;
      ghost var v := View();
      assert FrameOk(v, dir);
      hide FrameOk, EntryOk;
      pmm.FreePage(PAGE_SIZE * dir);
      owner := owner - {dir};
      DirectoryDropped(v, View(), dir);
    }

    method SwitchPageDirectory(dir: nat) returns (ok: bool)
      requires Valid() && (dir == 0 || IsDir(View(), dir))
      modifies this`current
      ensures Valid() && View() == old(View())
      ensures ok <==> dir != 0
      ensures current == if ok then dir else old(current)
    {
      if dir == 0 {
        return false;
      }
      current := dir;
      return true;
    }
  }

  lemma {:induction false} LeafAdded(v: Vm, w: Vm, f: nat, o: Owner, bytes: seq<Byte>)
    requires Sound(v) && Takable(v, f) && |bytes| == PAGE_SIZE && (o.PagerFrame? || o.DemoFrame?) && f !in v.owner
    requires w == Take(v, f, o, Data(bytes))
    ensures LeavesOnly(v, w)
  {
    forall g: nat | g in v.owner ensures 0 < g < |v.frames| && v.used[g] && v.reserved <= PAGE_SIZE * g && (IsLeaf(v, g) ==> IsPage(v.frames[g])) {
      assert FrameOk(v, g);
    }
  }

  lemma {:induction false} LeafDropped(v: Vm, w: Vm, f: nat)
    requires Sound(v) && IsLeaf(v, f) && f < |v.used| && w == Drop(v, f)
    ensures LeavesOnly(v, w)
  {
    forall g: nat | g in v.owner ensures 0 < g < |v.frames| && v.used[g] && v.reserved <= PAGE_SIZE * g && (IsLeaf(v, g) ==> IsPage(v.frames[g])) {
      assert FrameOk(v, g);
    }
  }

  lemma {:induction false} LeafFilled(v: Vm, w: Vm, f: nat, bytes: seq<Byte>)
    requires Sound(v) && IsLeaf(v, f) && f < |v.frames| && w == v.(frames := v.frames[f := Data(bytes)])
    requires |bytes| == PAGE_SIZE
    ensures LeavesOnly(v, w)
  {
    forall g: nat | g in v.owner ensures 0 < g < |v.frames| && v.used[g] && v.reserved <= PAGE_SIZE * g && (IsLeaf(v, g) ==> IsPage(v.frames[g])) {
      assert FrameOk(v, g);
    }
  }

  /** The page tables that mapping `size` bytes from a 4 MiB boundary takes. */
  function TablesFor(size: nat): nat {
    (size + 0x3F_FFFF) / 0x40_0000
  }

  /** Owned are one directory and its first `n` upper tables, and nothing else. */
  ghost predicate TablesMade(v: Vm, n: nat) {
    && Sound(v) && (forall d: nat :: IsDir(v, d) <==> d == v.kernel)
    && (forall f :: f in v.owner ==> v.owner[f].Directory? || v.owner[f].Table?)
    && forall i :: 0 <= i < PAGE_TABLE_ENTRIES ==>
         (v.frames[v.kernel].entries[i].Entry? <==> KERNEL_DIRECTORY_START <= i < KERNEL_DIRECTORY_START + n)
  }

  lemma {:induction false} OnlyTablesMade(v: Vm, n: nat)
    requires TablesMade(v, n)
    ensures forall f :: f in v.owner ==> v.owner[f].Directory? || v.owner[f].Table?
  {
  }

  lemma {:induction false} MoreTables(size: nat, end: nat)
    requires PAGE_SIZE <= size <= end
    ensures TablesFor(size - PAGE_SIZE) <= TablesFor(size) <= TablesFor(end)
    ensures TablesFor(size) - TablesFor(size - PAGE_SIZE) <= 1
  {
  }

  /** The next page to map has its table unless it begins one. */
  lemma {:induction false} TableIsMade(v: Vm, addr: U32)
    requires TablesMade(v, TablesFor(addr)) && Aligned(addr) && addr < 0x4000_0000
    ensures v.kernel != 0
    ensures var virt := Add32(VMM_KERNEL_BASE, addr);
            && Aligned(virt) && DirectoryIndex(virt) == KERNEL_DIRECTORY_START + addr / 0x40_0000
            && (HasTable(v, v.kernel, virt) <==> TablesFor(addr + PAGE_SIZE) == TablesFor(addr))
            && (!HasTable(v, v.kernel, virt) <==> TablesFor(addr + PAGE_SIZE) == TablesFor(addr) + 1)
  {
    assert FrameOk(v, v.kernel);
    var i := addr / 0x40_0000;
    assert addr == 0x40_0000 * i + addr % 0x40_0000 && i < 256;
    assert addr % 0x40_0000 % PAGE_SIZE == 0;
    assert TablesFor(addr) == i + if addr % 0x40_0000 == 0 then 0 else 1;
    assert TablesFor(addr + PAGE_SIZE) == i + 1;
    assert Add32(VMM_KERNEL_BASE, addr) == VMM_KERNEL_BASE + addr;
  }

  /** An entry of the only directory is present exactly when its table is owned. */
  lemma {:induction false} TableIsOwned(v: Vm, i: nat)
    requires Sound(v) && i < PAGE_TABLE_ENTRIES && forall d: nat :: IsDir(v, d) <==> d == v.kernel
    ensures v.frames[v.kernel].entries[i].Entry? <==> exists f :: f in v.owner && v.owner[f] == Table(v.kernel, i)
  {
    assert FrameOk(v, v.kernel) && EntryOk(v, v.kernel, i);
    forall f | f in v.owner && v.owner[f] == Table(v.kernel, i) ensures v.frames[v.kernel].entries[i].Entry? {
      assert FrameOk(v, f);
    }
  }

  lemma {:induction false} OneMoreTable(v: Vm, w: Vm, addr: U32)
    requires TablesMade(v, TablesFor(addr)) && Aligned(addr) && addr < 0x4000_0000 && Sound(w) && w.kernel == v.kernel
    requires forall d: nat :: IsDir(w, d) <==> IsDir(v, d)
    requires var virt := Add32(VMM_KERNEL_BASE, addr);
             && Lookup(w, w.kernel, virt).Entry? && OwnersGrow(v, w, v.kernel, DirectoryIndex(virt))
    ensures TablesMade(w, TablesFor(addr + PAGE_SIZE))
  {
    var at := DirectoryIndex(Add32(VMM_KERNEL_BASE, addr));
    TableIsMade(v, addr);
    assert HasTable(w, w.kernel, Add32(VMM_KERNEL_BASE, addr));
    forall i | 0 <= i < PAGE_TABLE_ENTRIES
      ensures w.frames[w.kernel].entries[i].Entry? <==> v.frames[v.kernel].entries[i].Entry? || i == at
    {
      TableIsOwned(v, i);
      TableIsOwned(w, i);
    }
  }

  /** The kernel's direct map of the first `size` bytes. */
  function DirectMap(size: nat, x: U32): Entry {
    if VMM_KERNEL_BASE <= x < VMM_KERNEL_BASE + size
    then Entry((x - VMM_KERNEL_BASE) / PAGE_SIZE, true, false, false)
    else Empty
  }

  /** There is one directory, and it maps the first `size` bytes of memory and no more. */
  ghost predicate MapsDirectly(v: Vm, size: nat) {
    && Sound(v) && (forall d: nat :: IsDir(v, d) <==> d == v.kernel)
    && forall x: U32 :: Aligned(x) ==> Lookup(v, v.kernel, x) == DirectMap(size, x)
  }

  /** Under the direct map each byte of memory is found 3 GiB further up, by the kernel only. */
  lemma {:induction false} DirectMapReaches(v: Vm, size: nat, a: U32)
    requires MapsDirectly(v, size) && Aligned(a) && size <= 0x4000_0000
    requires IsDir(v, v.kernel)
    ensures a < size ==>
              var e := Lookup(v, v.kernel, 0xC000_0000 + a);
              e.Entry? && 4096 * e.frame == a && e.writable && !e.user
    ensures a < 0xC000_0000 || a >= 0xC000_0000 + size ==> Lookup(v, v.kernel, a) == Empty
  {
    assert a < size ==> Aligned(0xC000_0000 + a);
  }

  lemma {:induction false} MappedBounds(total: U32)
    ensures Aligned(0) && Aligned(AlignDown(total)) && AlignDown(total) <= total < AlignDown(total) + PAGE_SIZE && TablesFor(0) == 0
  {
    AlignDownBounds(total);
  }

  lemma {:induction false} NextPage(addr: U32, end: U32)
    requires Aligned(addr) && Aligned(end) && addr < end
    ensures addr + PAGE_SIZE <= end && Aligned(addr + PAGE_SIZE)
  {
  }

  lemma {:induction false} DirectMapStep(addr: U32, x: U32)
    requires Aligned(addr) && Aligned(x) && addr < 0x4000_0000
    ensures Aligned(Add32(VMM_KERNEL_BASE, addr))
    ensures DirectMap(addr + PAGE_SIZE, x)
         == if x == Add32(VMM_KERNEL_BASE, addr) then Entry(addr / PAGE_SIZE, true, false, false) else DirectMap(addr, x)
  {
  }

  /** An address has the indexes of its page. */
  lemma {:induction false} SamePage(virt: U32)
    ensures Aligned(AlignDown(virt))
    ensures DirectoryIndex(AlignDown(virt)) == DirectoryIndex(virt) && TableIndex(AlignDown(virt)) == TableIndex(virt)
    ensures Aligned(virt) ==> AlignDown(virt) == virt
  {
    var page := virt / PAGE_SIZE;
    assert AlignDown(virt) == PAGE_SIZE * page;
    assert PAGE_SIZE * page / 0x1000 == page && virt / 0x1000 == page;
    assert page / 0x400 == virt / 0x40_0000;
    assert PAGE_SIZE * page / 0x40_0000 == page / 0x400;
  }

  lemma {:induction false} EntryKeepsUser(v: Vm, d: nat, virt: U32)
    requires Sound(v) && IsDir(v, d) && Lookup(v, d, virt).Entry?
    ensures HasTable(v, d, virt) && UserOk(v.frames[d].entries[DirectoryIndex(virt)], Lookup(v, d, virt))
  {
    assert FrameOk(v, d) && EntryOk(v, d, DirectoryIndex(virt));
  }
}
