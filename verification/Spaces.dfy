/** Creating, using and releasing the address spaces of processes: allocator, page tables,
    pager and memory demo together. */
module SpacesModule {
  import opened Machine
  import opened Bitmap
  import opened PmmSpec
  import opened PmmModule
  import opened VmmSpec
  import opened VmmModule
  import opened PagerSpec
  import opened PagerSteps
  import opened PagerVictim
  import opened PagerModule
  import opened MemDemoSpec
  import opened MemDemoModule
  import opened SpacesSpec
  import opened SpacesRights

  class AddressSpaces {
    const vmm: Vmm
    const pager: Pager
    const demo: MemDemo
    var spaces: seq<Space>
    /** Memory as it was when the address spaces began. */
    ghost const boot: Booted

    ghost predicate Valid()
      reads this, pager, demo, vmm, vmm.pmm
    {
      && pager.vmm == vmm && demo.vmm == vmm && pager.Valid() && demo.Valid()
      && World(spaces, demo.slots, pager.flat, vmm.View())
      && BootKept(boot, vmm.View()) && BootPool(boot, vmm.pool)
      && Ruled(pager.pages, vmm.View())
    }

    /** Pages that page-ins can still get: the free ones, and those the pager holds. */
    ghost function Spare(): int
      reads pager, vmm, vmm.pmm
    {
      vmm.pmm.freePages + pager.resident
    }

    constructor (pager: Pager, demo: MemDemo)
      requires pager.Valid() && demo.Valid() && demo.vmm == pager.vmm && pager.flat == map[]
      requires MapsDirectly(pager.vmm.View(), AlignDown(pager.vmm.pmm.totalBytes))
      ensures this.pager == pager && this.demo == demo && vmm == pager.vmm && Valid()
      ensures forall i :: 0 <= i < PROCESS_MAX ==> spaces[i] == NoSpace
      ensures boot == BootedAs(vmm.View(), vmm.pool)
      ensures (forall j :: 0 <= j < |demo.slots| ==> !demo.slots[j].held) ==> KernelApart(boot, demo.slots, vmm.View())
    {
      this.pager := pager;
      this.demo := demo;
      vmm := pager.vmm;
      spaces := seq(PROCESS_MAX, _ => NoSpace);
      boot := BootedAs(pager.vmm.View(), pager.vmm.pool);
      new;
      BootBegins(vmm.View(), vmm.pool);
      NewWorld(vmm.View(), demo.slots, spaces);
      NoPagesRuled(pager.State(), vmm.View(), pager.flat);
    }

    /** A user load of the running process: the same bytes as flat memory. It works exactly
        when rights and frames allow, and only a page-in that finds no frame costs anything. */
    method UserLoad(virt: U32) returns (ok: bool, b: Byte)
      requires Valid() && virt < VMM_KERNEL_BASE && !IsDemoAddress(AlignDown(virt))
      modifies pager, vmm`frames, vmm`owner, vmm.pmm`bitmap, vmm.pmm`freePages
      ensures Valid() && pager.flat == old(pager.flat)
      ensures old(pager.Faithful()) ==>
                && (ok <==> AccessWorks(old(pager.State()), old(vmm.View()), old(vmm.pmm.freePages),
                                        (vmm.current, AlignDown(virt)), false))
                && Agrees(pager.State(), vmm.View(), pager.flat)
                && (pager.Faithful() <==> FramesSuffice(old(pager.State()), old(vmm.View()), old(vmm.pmm.freePages),
                                                        old(pager.flat), (vmm.current, AlignDown(virt))))
                && (ok ==> HoldsByte(pager.flat, (vmm.current, AlignDown(virt)), virt % PAGE_SIZE, b))
      ensures old(pager.Faithful()) && pager.Faithful() ==> Spare() >= old(Spare()) - 1
      ensures KernelApart(boot, old(demo.slots), old(vmm.View())) ==> KernelApart(boot, demo.slots, vmm.View())
    {
      hide Ruled, KernelApart, Kept, DemoKept, World, SameKeys, OutsideKept, Vmm.Valid, Sound, FreeCount, Agrees, Tidy, EntryAt, HeldCount, AccessWorks,
           FramesSuffice, TicksFit, Quiet, OnlyAccessed, TickedOnly, RightsFit, WasAccessed, RoomHarmless, BringsIn;
      ghost var v, p := vmm.View(), pager.pages;
      ReachableOrEmpty(spaces, demo.slots, pager.flat, v, vmm.current, AlignDown(virt));
      ghost var k, slot;
      ok, b, k, slot := pager.UserLoad(virt);
      WorldAfterPager(spaces, demo.slots, pager.flat, v, vmm.View());
      RuledAfterPager(p, pager.pages, v, vmm.View());
      ApartAfterPager(boot, spaces, demo.slots, pager.flat, v, vmm.View());
      BootAfterPager(boot, spaces, demo.slots, pager.flat, v, vmm.View());
    }

    /** A user store of the running process: it changes that byte of flat memory only. */
    method UserStore(virt: U32, b: Byte) returns (ok: bool)
      requires Valid() && virt < VMM_KERNEL_BASE && !IsDemoAddress(AlignDown(virt))
      modifies pager, vmm`frames, vmm`owner, vmm.pmm`bitmap, vmm.pmm`freePages
      ensures Valid() && (!ok ==> pager.flat == old(pager.flat))
      ensures old(pager.Faithful()) ==>
                && (ok <==> AccessWorks(old(pager.State()), old(vmm.View()), old(vmm.pmm.freePages),
                                        (vmm.current, AlignDown(virt)), true))
                && Agrees(pager.State(), vmm.View(), pager.flat)
                && (pager.Faithful() <==> FramesSuffice(old(pager.State()), old(vmm.View()), old(vmm.pmm.freePages),
                                                        old(pager.flat), (vmm.current, AlignDown(virt))))
                && (ok ==> ByteStored(old(pager.flat), pager.flat, (vmm.current, AlignDown(virt)), virt % PAGE_SIZE, b))
      ensures old(pager.Faithful()) && pager.Faithful() ==> Spare() >= old(Spare()) - 1
      ensures KernelApart(boot, old(demo.slots), old(vmm.View())) ==> KernelApart(boot, demo.slots, vmm.View())
    {
      hide Ruled, KernelApart, Kept, DemoKept, World, SameKeys, OutsideKept, Vmm.Valid, Sound, FreeCount, Agrees, Tidy, EntryAt, HeldCount, AccessWorks,
           FramesSuffice, TicksFit, Quiet, OnlyAccessed, TickedOnly, RightsFit, WasAccessed, RoomHarmless, BringsIn;
      ghost var v, flat, p := vmm.View(), pager.flat, pager.pages;
      ReachableOrEmpty(spaces, demo.slots, flat, v, vmm.current, AlignDown(virt));
      ghost var k, slot;
      ok, k, slot := pager.UserStore(virt, b);
      WorldAfterPager(spaces, demo.slots, flat, v, vmm.View());
      RuledAfterPager(p, pager.pages, v, vmm.View());
      ApartAfterPager(boot, spaces, demo.slots, flat, v, vmm.View());
      BootAfterPager(boot, spaces, demo.slots, flat, v, vmm.View());
      WorldAfterStore(spaces, demo.slots, flat, pager.flat, vmm.View());
    }

    /** A page fault of the running process: repaired exactly if it is a not-present fault on
        one of its pages that can come in. */
    method PageFault(virt: U32, protection: bool) returns (ok: bool)
      requires Valid()
      modifies pager, vmm`frames, vmm`owner, vmm.pmm`bitmap, vmm.pmm`freePages
      ensures Valid() && pager.flat == old(pager.flat)
      ensures old(pager.Faithful()) ==>
                && (ok <==> !protection && FaultWorks(old(pager.State()), old(vmm.View()), old(vmm.pmm.freePages), (vmm.current, AlignDown(virt))))
                && Agrees(pager.State(), vmm.View(), pager.flat)
                && (pager.Faithful() <==> ok || protection || (vmm.current, AlignDown(virt)) !in pager.flat)
      ensures old(pager.Faithful()) && pager.Faithful() ==> Spare() >= old(Spare()) - 1
      ensures KernelApart(boot, old(demo.slots), old(vmm.View())) ==> KernelApart(boot, demo.slots, vmm.View())
    {
      hide Ruled, KernelApart, Kept, DemoKept, World, SameKeys, OutsideKept, Vmm.Valid, Sound, FreeCount, Agrees, Tidy, EntryAt, HeldCount, FaultWorks, Repaired,
           TicksFit, Quiet, KeyTicked, RightsFit, RoomHarmless, BringsIn;
      ghost var v, p := vmm.View(), pager.pages;
      ghost var slot;
      ok, slot := pager.HandlePageFault(virt, protection);
      WorldAfterPager(spaces, demo.slots, pager.flat, v, vmm.View());
      RuledAfterPager(p, pager.pages, v, vmm.View());
      ApartAfterPager(boot, spaces, demo.slots, pager.flat, v, vmm.View());
      BootAfterPager(boot, spaces, demo.slots, pager.flat, v, vmm.View());
    }

    /** The `vm_alloc` system call of the process whose space is number `i`: it registers
        one more zeroed page, once. It fails exactly past the last page, or for a new page
        without a free entry. */
    method VmAllocPage(i: nat, n: U32) returns (virt: U32)
      requires Valid() && i < PROCESS_MAX && spaces[i].Space?
      modifies this`spaces, pager
      ensures Valid()
      ensures virt != 0 <==> n < PROCESS_USER_VM_PAGE_COUNT && |old(spaces)[i].pages| == PROCESS_USER_VM_PAGE_COUNT
                             && (old(spaces)[i].pages[n] || |old(pager.flat)| < PAGER_MAX_PAGES)
      ensures virt == 0 ==> spaces == old(spaces) && pager.flat == old(pager.flat)
      ensures virt != 0 ==>
                && n < PROCESS_USER_VM_PAGE_COUNT && virt == VmVirt(n) && |old(spaces)[i].pages| == PROCESS_USER_VM_PAGE_COUNT
                && spaces == old(spaces)[i := Space(old(spaces)[i].dir, old(spaces)[i].pages[n := true])]
                && pager.flat == if old(spaces)[i].pages[n] then old(pager.flat)
                                 else old(pager.flat)[(spaces[i].dir, virt) := Padded([])]
      ensures virt != 0 && !old(spaces)[i].pages[n] ==> forall k: nat :: k < PAGE_SIZE ==> HoldsByte(pager.flat, (spaces[i].dir, virt), k, 0)
      ensures old(pager.Faithful()) ==> pager.Faithful()
      ensures Spare() == old(Spare())
    {
      hide Ruled, Kept, DemoKept, World, SameKeys, Vmm.Valid, Sound, FreeCount, Agrees, Tidy, EntryAt, HeldCount, Virts, OnlyKeyChanged, PresentKey,
           TicksFit, RightsFit, Flagged, FirstFree;
      ghost var v, flat, p := vmm.View(), pager.flat, pager.pages;
      SpaceFacts(spaces, demo.slots, flat, v, i);
      if n >= PROCESS_USER_VM_PAGE_COUNT {
        return 0;
      }
      MoreVirts(spaces[i], n);
      virt := VmVirt(n);
      if spaces[i].pages[n] {
        assert spaces[i].pages[n := true] == spaces[i].pages;
        assert spaces[i := spaces[i]] == spaces;
        return;
      }
      ReachableOrEmpty(spaces, demo.slots, flat, v, spaces[i].dir, virt);
      UnregisteredIsNotPresent(pager.State(), v, flat, (spaces[i].dir, virt));
      var ok := pager.RegisterPageData(spaces[i].dir, virt, true, true, []);
      if !ok {
        return 0;
      }
      RuledAfterRegister(p, pager.pages, v, (spaces[i].dir, virt));
      WorldAfterAlloc(spaces, demo.slots, flat, v, i, n, Padded([]));
      spaces := spaces[i := Space(spaces[i].dir, spaces[i].pages[n := true])];
    }

    /** The memory demo's system call. */
    method DemoApply(op: DemoOp, page: U32) returns (r: U32)
      requires Valid()
      modifies demo, vmm`frames, vmm`owner, vmm.pmm`bitmap, vmm.pmm`freePages
      ensures Valid() && (old(pager.Faithful()) ==> pager.Faithful())
      ensures r != 0 <==> DemoWorks(old(demo.slots), op, page, old(demo.sequence), old(vmm.View()), vmm.current, old(vmm.pmm.freePages))
      ensures r == 0 ==> demo.slots == old(demo.slots)
      ensures r != 0 ==> page < MEMDEMO_PAGE_COUNT && r == (if op == Free then 1 else SlotVirt(page)) && demo.sequence == old(demo.sequence) + 1
      ensures r != 0 && (op == Touch || (op == Alloc && old(demo.slots)[page].held)) ==> demo.slots == old(demo.slots)
      ensures r != 0 && op == Alloc && !old(demo.slots)[page].held ==>
                demo.slots == old(demo.slots)[page := DemoSlot(true, vmm.current, r, demo.slots[page].frame)]
      ensures r != 0 && op == Free ==> demo.slots == old(demo.slots)[page := CLEAR]
      ensures BytesKept(old(demo.slots), old(vmm.View()), demo.slots, vmm.View())
      ensures r != 0 && op == Alloc && !old(demo.slots)[page].held ==> SlotBytes(demo.slots, vmm.View(), page) == ZeroPage()
      ensures Spare() >= old(Spare()) - 2
      ensures vmm.current != vmm.kernel && KernelApart(boot, old(demo.slots), old(vmm.View())) ==>
                KernelApart(boot, demo.slots, vmm.View())
    {
      hide Ruled, Kept, DemoKept, World, SameKeys, Vmm.Valid, Sound, FreeCount, Agrees, Tidy, EntryAt, HeldCount, PagerSide, Released, SameLookups;
      ghost var v, before := vmm.View(), demo.slots;
      r := demo.ApplyOp(op, page);
      SlotsShape(before, v);
      if DemoOpKeys(before, op, page, r, vmm.current) != {} {
        assert SlotChange(before[page], demo.slots[page], vmm.View(), DemoOpKeys(before, op, page, r, vmm.current),
                          if op == Free then before[page].dir else vmm.current, SlotVirt(page));
      }
      WorldAfterDemo(spaces, before, demo.slots, pager.State(), pager.flat, v, vmm.View(),
                     if page < MEMDEMO_PAGE_COUNT then page else 0, DemoOpKeys(before, op, page, r, vmm.current));
      RuledAfterSide(pager.State(), v, vmm.View(), DemoOpKeys(before, op, page, r, vmm.current), pager.flat);
      if vmm.current != vmm.kernel {
        ApartAfterSide(boot, before, v, demo.slots, vmm.View(), DemoOpKeys(before, op, page, r, vmm.current));
      }
      BootAfterDemo(boot, v, vmm.View(), DemoOpKeys(before, op, page, r, vmm.current));
    }

    /** The slot whose page an access of the running process to a demo address reaches, once
        its accessed bit is up; a demo address that is not mapped raises a fault nobody
        repairs. */
    method DemoAccess(virt: U32) returns (ok: bool, frame: nat, ghost i: nat)
      requires Valid() && virt < VMM_KERNEL_BASE && IsDemoAddress(AlignDown(virt))
      modifies pager, vmm`frames, vmm`owner, vmm.pmm`bitmap, vmm.pmm`freePages
      ensures Valid() && pager.flat == old(pager.flat) && (old(pager.Faithful()) ==> pager.Faithful())
      ensures ok <==> DemoMaps(demo.slots, vmm.current, AlignDown(virt))
      ensures ok ==> MapsSlot(demo.slots, vmm.current, AlignDown(virt), i) && frame == demo.slots[i].frame
      ensures forall j: nat :: j < MEMDEMO_PAGE_COUNT && demo.slots[j].held ==>
                SlotBytes(demo.slots, vmm.View(), j) == SlotBytes(demo.slots, old(vmm.View()), j)
      ensures old(pager.Faithful()) ==> Spare() >= old(Spare()) - 1
      ensures KernelApart(boot, old(demo.slots), old(vmm.View())) ==> KernelApart(boot, demo.slots, vmm.View())
    {
      hide Ruled, KernelApart, DemoKept, World, SameKeys, OutsideKept, Sound, FreeCount, Agrees, Tidy, HeldCount, FaultWorks, Repaired, Lookup, FrameOk, EntryOk,
           TicksFit, Quiet, KeyTicked, RightsFit, RoomHarmless, BringsIn, Conserved, Pmm.Valid, SlotBytes, PagesOk, HasSlot, DemoMaps, AccessedOnly;
      ghost var v, flat, c := vmm.View(), pager.flat, pager.State();
      var page := AlignDown(virt);
      DemoEntry(spaces, demo.slots, flat, v, vmm.current, virt);
      i, frame := 0, 0;
      var e := vmm.GetPageEntry(vmm.current, page);
      if e.Empty? {
        ghost var slot;
        ok, slot := pager.HandlePageFault(virt, false);
        return;
      }
      i := DemoPage(spaces, demo.slots, flat, v, vmm.current, virt);
      vmm.SetAccessed(vmm.current, page);
      RemapIsAccessedOnly(v, vmm.View(), vmm.current, page, true);
      UndisturbedKept(c, v, c, vmm.View());
      RuledAfterSample(c, v, c, vmm.View());
      UndisturbedAgrees(c, v, c, vmm.View(), flat);
      AccessedIsOutside(v, vmm.View(), flat);
      ApartAfterPager(boot, spaces, demo.slots, flat, v, vmm.View());
      WorldAfterPager(spaces, demo.slots, flat, v, vmm.View());
      AccessKeepsBytes(demo.slots, v, vmm.View());
      return true, e.frame, i;
    }

    /** A load of the running process from its demo pages. */
    method DemoLoad(virt: U32) returns (ok: bool, b: Byte, ghost i: nat)
      requires Valid() && virt < VMM_KERNEL_BASE && IsDemoAddress(AlignDown(virt))
      modifies pager, vmm`frames, vmm`owner, vmm.pmm`bitmap, vmm.pmm`freePages
      ensures Valid() && pager.flat == old(pager.flat) && (old(pager.Faithful()) ==> pager.Faithful())
      ensures ok <==> DemoMaps(demo.slots, vmm.current, AlignDown(virt))
      ensures ok ==> MapsSlot(demo.slots, vmm.current, AlignDown(virt), i)
                     && |SlotBytes(demo.slots, vmm.View(), i)| == PAGE_SIZE && b == SlotBytes(demo.slots, vmm.View(), i)[virt % PAGE_SIZE]
      ensures forall j: nat :: j < MEMDEMO_PAGE_COUNT && demo.slots[j].held ==>
                SlotBytes(demo.slots, vmm.View(), j) == SlotBytes(demo.slots, old(vmm.View()), j)
      ensures old(pager.Faithful()) ==> Spare() >= old(Spare()) - 1
      ensures KernelApart(boot, old(demo.slots), old(vmm.View())) ==> KernelApart(boot, demo.slots, vmm.View())
    {
      hide Ruled, KernelApart, Kept, World, SameKeys, Vmm.Valid, Sound, FreeCount, Agrees, Tidy, HeldCount, TicksFit, DemoMaps, SlotOk, FrameSlotted;
      var frame;
      ok, frame, i := DemoAccess(virt);
      b := 0;
      if ok {
        HeldHasBytes(demo.slots, vmm.View(), i);
        b := vmm.frames[frame].bytes[virt % PAGE_SIZE];
      }
    }

    /** A store of the running process to its demo pages: it changes that byte of that slot's
        page, and no byte of any process's other memory. */
    method DemoStore(virt: U32, b: Byte) returns (ok: bool, ghost i: nat)
      requires Valid() && virt < VMM_KERNEL_BASE && IsDemoAddress(AlignDown(virt))
      modifies pager, vmm`frames, vmm`owner, vmm.pmm`bitmap, vmm.pmm`freePages
      ensures Valid() && pager.flat == old(pager.flat) && (old(pager.Faithful()) ==> pager.Faithful())
      ensures ok <==> DemoMaps(demo.slots, vmm.current, AlignDown(virt))
      ensures ok ==> MapsSlot(demo.slots, vmm.current, AlignDown(virt), i)
      ensures forall j: nat :: j < MEMDEMO_PAGE_COUNT && demo.slots[j].held ==>
                var was := SlotBytes(demo.slots, old(vmm.View()), j);
                && |was| == PAGE_SIZE
                && SlotBytes(demo.slots, vmm.View(), j) == if ok && j == i then WithByte(was, virt % PAGE_SIZE, b) else was
      ensures old(pager.Faithful()) ==> Spare() >= old(Spare()) - 1
      ensures KernelApart(boot, old(demo.slots), old(vmm.View())) ==> KernelApart(boot, demo.slots, vmm.View())
    {
      hide Ruled, DemoKept, World, SameKeys, Sound, FreeCount, Agrees, Tidy, HeldCount, TicksFit, DemoMaps, PagerSide, Kept, FrameOk, SlotBytes,
           Conserved, Pmm.Valid, SameLookups, LeavesOnly;
      ghost var v0 := vmm.View();
      SlotsAreFull(demo.slots, v0);
      var frame;
      ok, frame, i := DemoAccess(virt);
      if ok {
        ghost var v := vmm.View();
        HeldHasBytes(demo.slots, v, i);
        SlotIsFrame(demo.slots, v, i);
        vmm.FillFrame(frame, WithByte(vmm.frames[frame].bytes, virt % PAGE_SIZE, b));
        SlotFilled(demo.slots, v, vmm.View(), i, vmm.frames[frame].bytes);
        ApartAfterSide(boot, demo.slots, v, demo.slots, vmm.View(), {});
        RuledAfterSide(pager.State(), v, vmm.View(), {}, pager.flat);
        PagerSideKeeps(pager.State(), v, vmm.View(), {}, pager.flat);
        WorldAfterFill(spaces, demo.slots, pager.flat, v, vmm.View());
      }
    }

    /** The demo's reset: every demo page of every process is given back and unmapped. */
    method DemoReset()
      requires Valid()
      modifies demo, vmm`frames, vmm`owner, vmm.pmm`bitmap, vmm.pmm`freePages
      ensures Valid() && (old(pager.Faithful()) ==> pager.Faithful()) && Spare() >= old(Spare())
      ensures (forall i :: 0 <= i < MEMDEMO_PAGE_COUNT ==> demo.slots[i] == CLEAR) && demo.sequence == 0
      ensures Released(old(vmm.View()), vmm.View(), HeldFrames(old(demo.slots), MEMDEMO_PAGE_COUNT))
      ensures KernelApart(boot, old(demo.slots), old(vmm.View())) ==> KernelApart(boot, demo.slots, vmm.View())
    {
      hide Ruled, KernelApart, Kept, DemoKept, World, SameKeys, Vmm.Valid, Sound, FreeCount, Agrees, Tidy, EntryAt, HeldCount, PagerSide, Released,
           HeldKeys, HeldFrames, Unmapped, BootKept;
      ghost var v, before := vmm.View(), demo.slots;
      SlotsShape(before, v);
      demo.Reset();
      WorldAfterReset(spaces, before, demo.slots, pager.State(), pager.flat, v, vmm.View());
      RuledAfterSide(pager.State(), v, vmm.View(), HeldKeys(before, MEMDEMO_PAGE_COUNT), pager.flat);
      SlotsShape(demo.slots, vmm.View());
      ApartAfterReset(boot, before, v, demo.slots, vmm.View());
      BootStaysAside(boot, v, vmm.View(), HeldKeys(before, MEMDEMO_PAGE_COUNT));
    }

    /** Lets the pager look at the accessed bits, as the `vm_sample` system call does under LRU. */
    method Sample()
      requires Valid()
      modifies pager, vmm`frames
      ensures Valid() && pager.flat == old(pager.flat) && (old(pager.Faithful()) ==> pager.Faithful()) && Spare() == old(Spare())
      ensures KernelApart(boot, old(demo.slots), old(vmm.View())) ==> KernelApart(boot, demo.slots, vmm.View())
    {
      hide Ruled, KernelApart, Kept, DemoKept, World, SameKeys, OutsideKept, Vmm.Valid, Sound, FreeCount, Agrees, Tidy, EntryAt, HeldCount, TicksFit, Quiet,
           SampledAll, Undisturbed, RightsFit, BootKept, AccessedOnly;
      if !pager.lru {
        return;
      }
      ghost var c, v := pager.State(), vmm.View();
      pager.SampleUsage();
      UndisturbedOutside(c, v, pager.State(), vmm.View(), pager.flat);
      WorldAfterPager(spaces, demo.slots, pager.flat, v, vmm.View());
      RuledAfterSample(c, v, pager.State(), vmm.View());
      ApartAfterPager(boot, spaces, demo.slots, pager.flat, v, vmm.View());
      BootAfterPager(boot, spaces, demo.slots, pager.flat, v, vmm.View());
    }

    /** Switches to the directory of a process, or to the kernel's. */
    method SwitchTo(dir: nat) returns (ok: bool)
      requires Valid() && (dir == 0 || IsDir(vmm.View(), dir))
      modifies vmm`current
      ensures Valid() && vmm.View() == old(vmm.View()) && (old(pager.Faithful()) ==> pager.Faithful())
      ensures ok == (dir != 0) && vmm.current == if ok then dir else old(vmm.current)
    {
      hide Ruled, Kept, DemoKept, World, SameKeys, Sound, FreeCount, Agrees, Tidy, HeldCount, TicksFit, Conserved, Pmm.Valid, BootKept, BootPool;
      ok := vmm.SwitchPageDirectory(dir);
    }

    /** With a page to spare, an access of the running process works exactly on its registered
        pages, and a write not on its code page. */
    lemma {:induction false} AccessWorksByRule(key: Key)
      requires Valid() && Spare() > PAGER_FRAME_LIMIT
      ensures Kept(pager.State(), vmm.View()) && FramesSuffice(pager.State(), vmm.View(), vmm.pmm.freePages, pager.flat, key)
      ensures AccessWorks(pager.State(), vmm.View(), vmm.pmm.freePages, key, false) <==> key in pager.flat
      ensures AccessWorks(pager.State(), vmm.View(), vmm.pmm.freePages, key, true) <==> key in pager.flat && MayWrite(key.1)
    {
      hide Ruled, Kept, DemoKept, World, SameKeys, Vmm.Valid, FreeCount, BootKept, BootPool, AccessWorks, FramesSuffice, TicksFit;
      AccessIsRuled(pager.State(), vmm.View(), vmm.pmm.freePages, pager.flat, key);
    }

    lemma {:induction false} KernelDirectory()
      requires Valid()
      ensures IsDir(vmm.View(), vmm.kernel) && vmm.kernel != 0
    {
      hide Ruled, DemoKept, World, SameKeys, FreeCount, BootKept, BootPool, TicksFit, Kept;
      NoDirectoryZero(vmm.View());
    }

    lemma {:induction false} HoldsItsLimit()
      requires Valid()
      ensures pager.resident <= PAGER_FRAME_LIMIT
    {
      hide Ruled, DemoKept, World, SameKeys, FreeCount, BootKept, BootPool, TicksFit;
    }

    /** Every process has a directory of its own, and none has the kernel's. */
    lemma {:induction false} OwnDirectories(i: nat)
      requires Valid() && i < PROCESS_MAX && spaces[i].Space?
      ensures IsDir(vmm.View(), spaces[i].dir) && spaces[i].dir != vmm.kernel && spaces[i].dir != 0 && spaces[i].dir in vmm.owner
      ensures |spaces[i].pages| == PROCESS_USER_VM_PAGE_COUNT
      ensures forall j :: 0 <= j < PROCESS_MAX && j != i && spaces[j].Space? ==> spaces[j].dir != spaces[i].dir
      ensures forall x: U32 :: (spaces[i].dir, x) in pager.flat <==> x in Virts(spaces[i])
    {
      hide Kept, DemoKept, SameKeys, FreeCount, BootKept, BootPool, TicksFit, NoStray, Conserved, Pmm.Valid, FrameOk, Virts;
      NoDirectoryZero(vmm.View());
      assert KeysOf(spaces[i], pager.flat);
    }

    /** Every page of the pager is some process's, below the kernel base, and no demo page. */
    lemma {:induction false} EveryPageHasSpace()
      requires Valid()
      ensures forall key :: key in pager.flat ==> HasSpace(spaces, key.0) && key.1 < VMM_KERNEL_BASE && !IsDemoAddress(key.1)
    {
      hide Ruled, DemoKept, FreeCount, BootKept, BootPool, TicksFit, NoStray, Conserved, Pmm.Valid, FrameOk, Virts;
      forall key | key in pager.flat ensures HasSpace(spaces, key.0) && key.1 < VMM_KERNEL_BASE {
        var k := KeyHasPage(pager.State(), vmm.View(), pager.flat, key);
        assert PageOk(pager.pages[k], vmm.View(), k);
      }
    }

    // ---- the end of a process ------------------------------------------------------------------------

    /** Frees every data page of a space: its demo slots, its code and stack pages, and the
        virtual pages it allocated. */
    method LeaveSpace(i: nat) returns (ghost gone: set<nat>)
      requires Valid() && i < PROCESS_MAX && spaces[i].Space?
      modifies pager, demo, vmm`frames, vmm`owner, vmm.pmm`bitmap, vmm.pmm`freePages
      ensures pager.vmm == vmm && demo.vmm == vmm && pager.Valid() && demo.Valid()
      ensures demo.slots == ClearedFor(old(demo.slots), spaces[i].dir, MEMDEMO_PAGE_COUNT)
      ensures pager.flat == Without(old(pager.flat), spaces[i].dir, Virts(spaces[i]))
      ensures Leaving(old(vmm.View()), vmm.View(), spaces[i].dir, gone, demo.slots, pager.flat)
      ensures old(pager.Faithful()) ==> pager.Faithful()
      ensures Ruled(old(pager.pages), old(vmm.View())) ==> Ruled(pager.pages, vmm.View())
      ensures Spare() >= old(Spare())
    {
      hide Ruled, Kept, DemoKept, World, SameKeys, Sound, FreeCount, Agrees, Tidy, EntryAt, HeldCount, PagerSide, Released, Leaving,
           OutsideKept, ClearedFor, SlotFrames, Virts, VirtsBelow, Without, DemoKeys, KeysApart, NoStray;
      ghost var v, flat := vmm.View(), pager.flat;
      SpaceFacts(spaces, demo.slots, flat, v, i);
      var dir := spaces[i].dir;
      FirstVirts(spaces[i], flat, dir);
      gone := FreeDemoSlots(dir);
      gone := ForgetPage(dir, PROCESS_USER_CODE_BASE, v, gone);
      gone := ForgetPage(dir, PROCESS_USER_STACK_PAGE, v, gone);
      gone := ForgetVmPages(spaces[i], flat, v, gone);
    }

    method FreeDemoSlots(dir: nat) returns (ghost gone: set<nat>)
      requires pager.vmm == vmm && demo.vmm == vmm && pager.Valid() && demo.Valid()
      requires NoStray(demo.slots, pager.flat, vmm.View(), 0) && KeysApart(pager.flat)
      modifies demo, vmm`frames, vmm`owner, vmm.pmm`bitmap, vmm.pmm`freePages
      ensures pager.Valid() && demo.Valid() && demo.slots == ClearedFor(old(demo.slots), dir, MEMDEMO_PAGE_COUNT)
      ensures Leaving(old(vmm.View()), vmm.View(), dir, gone, demo.slots, pager.flat)
      ensures old(pager.Faithful()) ==> pager.Faithful()
      ensures Ruled(old(pager.pages), old(vmm.View())) ==> Ruled(pager.pages, vmm.View())
      ensures Spare() >= old(Spare())
    {
      hide Ruled, Kept, DemoKept, SameKeys, Sound, FreeCount, Agrees, Tidy, HeldCount, PagerSide, Released, Leaving, ClearedFor, SlotFrames,
           DemoKeys, KeysApart, NoStray;
      ghost var v, before := vmm.View(), demo.slots;
      gone := SlotFrames(before, dir, MEMDEMO_PAGE_COUNT);
      demo.ReleaseForDirectory(dir);
      LeavingBegins(before, pager.flat, v, vmm.View(), dir);
      if Ruled(pager.pages, v) {
        RuledAfterSide(pager.State(), v, vmm.View(), DemoKeys(dir), pager.flat);
      }
      PagerSideKeeps(pager.State(), v, vmm.View(), DemoKeys(dir), pager.flat);
    }

    /** Unregisters the virtual pages a space has allocated. */
    method ForgetVmPages(s: Space, ghost flat: Flat, ghost v: Vm, ghost before: set<nat>) returns (ghost gone: set<nat>)
      requires pager.vmm == vmm && demo.vmm == vmm && pager.Valid() && demo.Valid()
      requires s.Space? && |s.pages| == PROCESS_USER_VM_PAGE_COUNT && pager.flat == Without(flat, s.dir, VirtsBelow(s, 0))
      requires Leaving(v, vmm.View(), s.dir, before, demo.slots, pager.flat)
      modifies pager, vmm`frames, vmm`owner, vmm.pmm`bitmap, vmm.pmm`freePages
      ensures pager.Valid() && demo.Valid()
      ensures pager.flat == Without(flat, s.dir, VirtsBelow(s, PROCESS_USER_VM_PAGE_COUNT))
      ensures Leaving(v, vmm.View(), s.dir, gone, demo.slots, pager.flat)
      ensures old(pager.Faithful()) ==> pager.Faithful()
      ensures Ruled(old(pager.pages), old(vmm.View())) ==> Ruled(pager.pages, vmm.View())
      ensures Spare() >= old(Spare())
    {
      hide Ruled, Kept, DemoKept, SameKeys, Sound, FreeCount, Agrees, Tidy, HeldCount, Leaving, VirtsBelow, Without, Vmm.Valid;
      gone := before;
      for n := 0 to PROCESS_USER_VM_PAGE_COUNT
        invariant pager.Valid() && demo.Valid()
        invariant pager.flat == Without(flat, s.dir, VirtsBelow(s, n))
        invariant Leaving(v, vmm.View(), s.dir, gone, demo.slots, pager.flat)
        invariant old(pager.Faithful()) ==> pager.Faithful()
        invariant Ruled(old(pager.pages), old(vmm.View())) ==> Ruled(pager.pages, vmm.View())
        invariant Spare() >= old(Spare())
      {
        NextVirt(s, n);
        if s.pages[n] {
          WithoutOneMore(flat, s.dir, VirtsBelow(s, n), VmVirt(n));
          gone := ForgetPage(s.dir, VmVirt(n), v, gone);
        }
      }
    }

    /** Unregisters one page of a space on its way out. */
    method ForgetPage(dir: nat, virt: U32, ghost v: Vm, ghost gone: set<nat>) returns (ghost more: set<nat>)
      requires pager.vmm == vmm && demo.vmm == vmm && pager.Valid() && demo.Valid() && Aligned(virt)
      requires Leaving(v, vmm.View(), dir, gone, demo.slots, pager.flat)
      modifies pager, vmm`frames, vmm`owner, vmm.pmm`bitmap, vmm.pmm`freePages
      ensures pager.Valid() && demo.Valid() && pager.flat == old(pager.flat) - {(dir, virt)}
      ensures Leaving(v, vmm.View(), dir, more, demo.slots, pager.flat)
      ensures old(pager.Faithful()) ==> pager.Faithful()
      ensures Ruled(old(pager.pages), old(vmm.View())) ==> Ruled(pager.pages, vmm.View())
      ensures Spare() >= old(Spare())
    {
      hide Ruled, Kept, DemoKept, SameKeys, Sound, FreeCount, Agrees, Tidy, EntryAt, HeldCount, Released, OutsideKept, FramesOfKey, OnlyKeyChanged, NoStray,
           KeysApart;
      ghost var c, u, flat := pager.State(), vmm.View(), pager.flat;
      pager.UnregisterPage(dir, virt);
      LeavingGoesOn(v, u, vmm.View(), dir, gone, demo.slots, flat, c, virt);
      SlotsOutside(demo.slots, flat, u);
      OutsideKeepsDemo(demo.slots, u, vmm.View(), flat);
      if Ruled(c.pages, u) {
        RuledAfterForget(c.pages, pager.pages, u, vmm.View(), (dir, virt), pager.flat);
      }
      more := gone + FramesOfKey(c.pages, (dir, virt));
    }

    /** Destroys a directory without data pages. */
    method DropDirectory(dir: nat)
      requires pager.vmm == vmm && demo.vmm == vmm && pager.Valid() && demo.Valid()
      requires IsDir(vmm.View(), dir) && dir != vmm.kernel && dir != vmm.current && dir != 0
      requires forall key :: key in pager.flat ==> key.0 != dir
      requires forall j :: 0 <= j < |demo.slots| && demo.slots[j].held ==> demo.slots[j].dir != dir
      modifies vmm`frames, vmm`owner, vmm.pmm`bitmap, vmm.pmm`freePages
      ensures pager.Valid() && demo.Valid() && (old(pager.Faithful()) ==> pager.Faithful())
      ensures Released(old(vmm.View()), vmm.View(), StructureOf(old(vmm.View()), dir))
      ensures SameLookups(old(vmm.View()), vmm.View())
      ensures forall d: nat :: IsDir(vmm.View(), d) <==> IsDir(old(vmm.View()), d) && d != dir
      ensures Ruled(old(pager.pages), old(vmm.View())) ==> Ruled(pager.pages, vmm.View())
      ensures Spare() >= old(Spare())
    {
      hide Ruled, Kept, DemoKept, SameKeys, FreeCount, Agrees, Tidy, HeldCount, Released, SameLookups, FrameOk, Conserved, Pmm.Valid, DirChanged;
      ghost var v := vmm.View();
      SlotsShape(demo.slots, v);
      vmm.DestroyAddressSpace(dir);
      DestroyedIsChanged(v, vmm.View(), dir);
      if Ruled(pager.pages, v) {
        RuledAfterDir(pager.State(), v, vmm.View(), dir, pager.flat);
      }
      PagerSurvives(pager.State(), v, vmm.View(), dir, pager.flat);
      DemoSurvives(demo.slots, v, vmm.View(), dir);
    }

    /** Releases the address space of a process that is not running: exactly the pages of
        that space become free, and every other process keeps its bytes. */
    method ReleaseSpace(i: nat)
      requires Valid() && i < PROCESS_MAX && spaces[i].Space? && vmm.current != spaces[i].dir
      modifies this`spaces, pager, demo, vmm`frames, vmm`owner, vmm.pmm`bitmap, vmm.pmm`freePages
      ensures Valid() && spaces == old(spaces)[i := NoSpace]
      ensures Released(old(vmm.View()), vmm.View(), SpaceOf(old(vmm.View()), old(spaces)[i].dir))
      ensures pager.flat == Without(old(pager.flat), old(spaces)[i].dir, Virts(old(spaces)[i]))
      ensures old(pager.Faithful()) ==> pager.Faithful()
      ensures Spare() >= old(Spare())
      ensures KernelApart(boot, old(demo.slots), old(vmm.View())) ==> KernelApart(boot, demo.slots, vmm.View())
    {
      hide Ruled, KernelApart, Kept, DemoKept, World, SameKeys, Sound, FreeCount, Agrees, Tidy, EntryAt, HeldCount, PagerSide, Released, SameLookups,
           KeysApart, NoStray, Leaving, OutsideKept, ClearedFor, SlotFrames, Virts, SpaceOf, Conserved, Pmm.Valid;
      ghost var v, flat, before := vmm.View(), pager.flat, demo.slots;
      SpaceFacts(spaces, before, flat, v, i);
      SlotsShape(before, v);
      var s := spaces[i];
      ghost var gone := LeaveSpace(i);
      LeavingEnds(v, vmm.View(), s.dir, gone, demo.slots, pager.flat);
      NoLeavesLeft(spaces, before, flat, v, i, pager.State(), vmm.View());
      ghost var u := vmm.View();
      DropDirectory(s.dir);
      LeavesGone(v, u, vmm.View(), s.dir, gone);
      WorldAfterRelease(spaces, before, flat, v, i, u, vmm.View());
      BootAfterRelease(boot, spaces, before, flat, v, i, vmm.View());
      ApartAfterRelease(boot, before, v, vmm.View(), SpaceOf(v, s.dir), s.dir);
      spaces := spaces[i := NoSpace];
    }

    // ---- the start of a process ---------------------------------------------------------------------

    /** A new, empty directory. */
    method MakeDirectory() returns (dir: nat)
      requires Valid()
      modifies vmm`frames, vmm`owner, vmm.pmm`bitmap, vmm.pmm`freePages
      ensures pager.vmm == vmm && demo.vmm == vmm && pager.Valid() && demo.Valid()
      ensures dir == 0 <==> old(vmm.pmm.freePages) == 0
      ensures dir == 0 ==> Valid() && vmm.View() == old(vmm.View())
      ensures dir != 0 ==>
                && DirectoryMade(old(vmm.View()), vmm.View(), dir) && NoStray(demo.slots, pager.flat, vmm.View(), 0)
                && KeysApart(pager.flat) && dir != vmm.kernel && IsDir(vmm.View(), dir) && dir != vmm.current
                && (forall key :: key in pager.flat ==> key.0 != dir)
                && (forall j :: 0 <= j < |demo.slots| && demo.slots[j].held ==> demo.slots[j].dir != dir)
                && (forall x: U32 :: Aligned(x) && x < VMM_KERNEL_BASE ==> EntryAt(vmm.View(), (dir, x)) == Empty)
      ensures old(pager.Faithful()) ==> pager.Faithful()
      ensures dir != 0 ==> vmm.pmm.freePages == old(vmm.pmm.freePages) - 1
      ensures Ruled(pager.pages, vmm.View())
    {
      hide Ruled, Kept, DemoKept, World, SameKeys, FreeCount, Agrees, Tidy, EntryAt, HeldCount, NoStray, KeysApart,
           DirChanged, FrameOk, Conserved, Pmm.Valid, Lookup;
      ghost var v := vmm.View();
      SlotsShape(demo.slots, v);
      dir := vmm.CreateAddressSpace();
      if dir != 0 {
        assert DirectoryMade(v, vmm.View(), dir);
        MadeKeeps(spaces, demo.slots, pager.flat, v, vmm.View(), dir, pager.State());
        RuledAfterDir(pager.State(), v, vmm.View(), dir, pager.flat);
      }
    }

    /** Registers and pins the code and stack pages of a new directory; says how many it
        could register. */
    method RegisterStart(dir: nat, image: seq<Byte>, ghost flat: Flat) returns (n: nat)
      requires pager.vmm == vmm && demo.vmm == vmm && pager.Valid() && demo.Valid() && IsDir(vmm.View(), dir)
      requires dir != 0 && 0 < |image| <= PAGE_SIZE && pager.flat == flat && forall key :: key in flat ==> key.0 != dir
      requires forall x: U32 :: Aligned(x) && x < VMM_KERNEL_BASE ==> EntryAt(vmm.View(), (dir, x)) == Empty
      modifies pager
      ensures pager.Valid() && n <= 2 && (old(pager.Faithful()) ==> pager.Faithful())
      ensures n == 2 <==> |flat| + 2 <= PAGER_MAX_PAGES
      ensures n == 2 ==> PinnedKey(pager.pages, (dir, PROCESS_USER_CODE_BASE)) && PinnedKey(pager.pages, (dir, PROCESS_USER_STACK_PAGE))
      ensures pager.flat == if n == 0 then flat
                            else if n == 1 then flat[(dir, PROCESS_USER_CODE_BASE) := Padded(image)]
                            else flat[(dir, PROCESS_USER_CODE_BASE) := Padded(image)][(dir, PROCESS_USER_STACK_PAGE) := Padded([])]
      ensures pager.resident == old(pager.resident)
      ensures Ruled(old(pager.pages), vmm.View()) ==> Ruled(pager.pages, vmm.View())
    {
      hide Ruled, Kept, DemoKept, SameKeys, Sound, FreeCount, Agrees, Tidy, EntryAt, OnlyKeyChanged, PresentKey, Vmm.Valid, TicksFit, RightsFit,
           Flagged, FirstFree, SamePlaces;
      ghost var v := vmm.View();
      var code, stack := PROCESS_USER_CODE_BASE, PROCESS_USER_STACK_PAGE;
      UnregisteredIsNotPresent(pager.State(), v, pager.flat, (dir, code));
      ghost var p := pager.pages;
      var ok := pager.RegisterPageData(dir, code, false, true, image);
      if !ok {
        return 0;
      }
      ghost var q := pager.pages;
      ok := pager.PinPage(dir, code, true);
      EnteredRuled(p, q, pager.pages, v, (dir, code));
      assert PinnedKey(pager.pages, (dir, code));
      p := pager.pages;
      UnregisteredIsNotPresent(pager.State(), v, pager.flat, (dir, stack));
      ok := pager.RegisterPageData(dir, stack, true, true, []);
      if !ok {
        return 1;
      }
      StaysPinned(p, pager.pages, (dir, code), (dir, stack));
      q := pager.pages;
      ok := pager.PinPage(dir, stack, true);
      StaysPinned(q, pager.pages, (dir, code), (dir, stack));
      EnteredRuled(p, q, pager.pages, v, (dir, stack));
      return 2;
    }

    /** Takes a half-made address space apart again. */
    method Unspawn(dir: nat, codeRegistered: bool, ghost b: Cache, ghost v: Vm, ghost w: Vm, ghost flat: Flat)
      requires pager.vmm == vmm && demo.vmm == vmm && pager.Valid() && demo.Valid()
      requires Kept(b, v) && DirectoryMade(v, w, dir) && w == vmm.View() && NoStray(demo.slots, flat, w, 0) && KeysApart(flat)
      requires dir != vmm.kernel && dir != vmm.current && dir != 0 && forall key :: key in flat ==> key.0 != dir
      requires forall j :: 0 <= j < |demo.slots| && demo.slots[j].held ==> demo.slots[j].dir != dir
      requires (dir, PROCESS_USER_CODE_BASE) in pager.flat <==> codeRegistered
      requires pager.flat - {(dir, PROCESS_USER_CODE_BASE)} == flat
      modifies pager, demo, vmm`frames, vmm`owner, vmm.pmm`bitmap, vmm.pmm`freePages
      ensures pager.Valid() && demo.Valid() && pager.flat == flat && demo.slots == old(demo.slots)
      ensures Released(w, vmm.View(), {dir}) && NoStray(demo.slots, flat, vmm.View(), 0)
      ensures forall d: nat :: IsDir(vmm.View(), d) <==> IsDir(v, d)
      ensures old(pager.Faithful()) ==> pager.Faithful()
      ensures Ruled(old(pager.pages), old(vmm.View())) ==> Ruled(pager.pages, vmm.View())
      ensures Spare() >= old(Spare())
    {
      hide Ruled, Kept, DemoKept, World, SameKeys, Sound, FreeCount, Agrees, Tidy, EntryAt, HeldCount, PagerSide, Released, SameLookups,
           KeysApart, NoStray, Leaving, OutsideKept, ClearedFor, SlotFrames, SpaceOf, Conserved, Pmm.Valid, DirectoryMade;
      ghost var slots := demo.slots;
      StrayAnyway(slots, flat, w, dir);
      MadeDirs(v, w, dir);
      if codeRegistered {
        LeaveHalfMade(dir, b, v, flat);
      }
      ghost var u := vmm.View();
      MadeIsBare(v, w, u, dir);
      DropDirectory(dir);
      StrayAfterDestroy(slots, flat, u, vmm.View(), dir);
      ReleasedTwice(w, u, vmm.View(), {}, {dir});
      assert {} + {dir} == {dir};
    }

    /** Frees demo slots of a new directory, of which there are none, and its code page. */
    method LeaveHalfMade(dir: nat, ghost b: Cache, ghost v: Vm, ghost flat: Flat)
      requires pager.vmm == vmm && demo.vmm == vmm && pager.Valid() && demo.Valid()
      requires Kept(b, v) && DirectoryMade(v, vmm.View(), dir) && NoStray(demo.slots, flat, vmm.View(), 0) && KeysApart(flat)
      requires forall j :: 0 <= j < |demo.slots| && demo.slots[j].held ==> demo.slots[j].dir != dir
      requires pager.flat - {(dir, PROCESS_USER_CODE_BASE)} == flat
      modifies pager, demo, vmm`frames, vmm`owner, vmm.pmm`bitmap, vmm.pmm`freePages
      ensures pager.Valid() && demo.Valid() && pager.flat == flat && demo.slots == old(demo.slots)
      ensures Released(old(vmm.View()), vmm.View(), {}) && NoStray(demo.slots, flat, vmm.View(), dir)
      ensures forall d: nat :: IsDir(vmm.View(), d) <==> IsDir(old(vmm.View()), d)
      ensures old(pager.Faithful()) ==> pager.Faithful()
      ensures Ruled(old(pager.pages), old(vmm.View())) ==> Ruled(pager.pages, vmm.View())
      ensures Spare() >= old(Spare())
    {
      hide Ruled, Kept, DemoKept, SameKeys, Sound, FreeCount, Agrees, Tidy, EntryAt, HeldCount, PagerSide, Released, KeysApart, NoStray,
           Leaving, OutsideKept, ClearedFor, SlotFrames, DirectoryMade, Vmm.Valid;
      ghost var w, slots, c, more := vmm.View(), demo.slots, pager.State(), pager.flat;
      SlotsShape(slots, w);
      demo.ReleaseForDirectory(dir);
      HalfMadeLeaves(b, slots, flat, more, v, w, vmm.View(), dir, c);
      if Ruled(c.pages, w) {
        RuledAfterSide(c, w, vmm.View(), DemoKeys(dir), more);
      }
      ghost var gone := ForgetPage(dir, PROCESS_USER_CODE_BASE, w, {});
      LeavingEnds(w, vmm.View(), dir, gone, slots, flat);
      NothingWasHeld(b, v, w, vmm.View(), dir, gone, slots, flat);
    }

    /** Gives process slot `i` an address space: a directory, its code page with the image,
        its stack page, both pinned and neither in memory yet. It takes one page of memory
        and two pager entries; it fails exactly without them or without a fitting image, and
        then takes nothing. */
    method Spawn(i: nat, image: seq<Byte>) returns (ok: bool)
      requires Valid() && i < PROCESS_MAX && spaces[i].NoSpace?
      modifies this`spaces, pager, demo, vmm`frames, vmm`owner, vmm.pmm`bitmap, vmm.pmm`freePages
      ensures Valid()
      ensures ok <==> 0 < |image| <= PAGE_SIZE && old(vmm.pmm.freePages) > 0 && |old(pager.flat)| + 2 <= PAGER_MAX_PAGES
      ensures !ok ==> spaces == old(spaces) && pager.flat == old(pager.flat)
                      && vmm.owner == old(vmm.owner) && vmm.pmm.bitmap == old(vmm.pmm.bitmap)
      ensures ok ==> 0 < |image| <= PAGE_SIZE && spaces[i].Space? && spaces == old(spaces)[i := Space(spaces[i].dir, NO_PAGES)]
      ensures ok ==> spaces[i].dir !in old(vmm.owner) && vmm.owner == old(vmm.owner)[spaces[i].dir := Directory]
      ensures ok ==> pager.flat == old(pager.flat)[(spaces[i].dir, PROCESS_USER_CODE_BASE) := Padded(image)]
                                                  [(spaces[i].dir, PROCESS_USER_STACK_PAGE) := Padded([])]
      ensures ok ==> forall k: nat :: k < PAGE_SIZE ==>
                HoldsByte(pager.flat, (spaces[i].dir, PROCESS_USER_CODE_BASE), k, if k < |image| then image[k] else 0)
                && HoldsByte(pager.flat, (spaces[i].dir, PROCESS_USER_STACK_PAGE), k, 0)
      ensures ok ==> PinnedKey(pager.pages, (spaces[i].dir, PROCESS_USER_CODE_BASE))
                     && PinnedKey(pager.pages, (spaces[i].dir, PROCESS_USER_STACK_PAGE))
      ensures old(pager.Faithful()) ==> pager.Faithful()
      ensures Spare() >= old(Spare()) - 1
      ensures KernelApart(boot, old(demo.slots), old(vmm.View())) ==> KernelApart(boot, demo.slots, vmm.View())
    {
      hide Ruled, KernelApart, Kept, DemoKept, World, SameKeys, Sound, FreeCount, Agrees, Tidy, EntryAt, HeldCount, DirectoryMade, NoStray, KeysApart, Vmm.Valid,
           Released, SameLookups, PinnedKey, HoldsByte;
      if |image| == 0 || |image| > PAGE_SIZE {
        return false;
      }
      ghost var v, flat, b := vmm.View(), pager.flat, pager.State();
      var dir := MakeDirectory();
      if dir == 0 {
        return false;
      }
      ghost var w := vmm.View();
      var registered := RegisterStart(dir, image, flat);
      if registered < 2 {
        Unspawn(dir, registered == 1, b, v, w, flat);
        UnmadeWorld(spaces, demo.slots, flat, v, w, vmm.View(), dir);
        ApartAfterUnmade(boot, demo.slots, v, w, vmm.View(), dir);
        BootAfterUnmade(boot, v, w, vmm.View(), dir);
        return false;
      }
      SpawnedWorld(spaces, demo.slots, flat, v, w, i, dir, Padded(image), Padded([]));
      BootAfterMade(boot, v, w, dir);
      ApartAfterMade(boot, demo.slots, v, w, dir);
      StartBytes(flat, dir, image);
      spaces := spaces[i := Space(dir, NO_PAGES)];
      return true;
    }

    // ---- nothing leaks ------------------------------------------------------------------------------

    /** Without processes, and if the kernel keeps to itself, no demo page is held. */
    lemma {:induction false} NoDemoPagesLeft()
      requires Valid() && KernelApart(boot, demo.slots, vmm.View()) && forall i :: 0 <= i < PROCESS_MAX ==> spaces[i].NoSpace?
      ensures forall i :: 0 <= i < MEMDEMO_PAGE_COUNT ==> !demo.slots[i].held
    {
      hide Ruled, FreeCount, Kept, SameKeys, BootKept, BootPool, Conserved, TicksFit, NoStray;
      forall i | 0 <= i < MEMDEMO_PAGE_COUNT ensures !demo.slots[i].held {
        assert SlotOk(demo.slots[i], vmm.View(), i);
        assert !HasSpace(spaces, demo.slots[i].dir);
      }
    }

    /** Whatever ran before: once no process and no demo page is left, every owned page is the
        kernel directory or one of its tables, and the pages free are those that were free when
        the address spaces began, but for one if the kernel itself ever used a demo page: its
        table stays. */
    lemma {:induction false} NothingLeaks()
      requires Valid() && (forall i :: 0 <= i < PROCESS_MAX ==> spaces[i].NoSpace?)
      requires forall i :: 0 <= i < MEMDEMO_PAGE_COUNT ==> !demo.slots[i].held
      ensures pager.flat.Keys == {} && forall f: nat :: f in vmm.owner ==> OfKernel(vmm.View(), f)
      ensures FreeSet(vmm.View()) == boot.free - KernelPages(vmm.View()).Keys && vmm.pmm.freePages == |FreeSet(vmm.View())|
      ensures Sound(vmm.View()) && vmm.pmm.freePages == |boot.free|
                                   - if FreeSet(vmm.View()) != boot.free then 1 else 0
      ensures FreeSet(vmm.View()) != boot.free ==> HasTable(vmm.View(), vmm.kernel, MEMDEMO_USER_BASE)
      ensures KernelApart(boot, demo.slots, vmm.View()) ==> FreeSet(vmm.View()) == boot.free
    {
      hide Ruled, KernelApart, World, FreeCount, Kept, DemoKept, SameKeys, BootKept, BootPool, Conserved, TicksFit;
      OnlyKernelOwns(spaces, demo.slots, pager.flat, pager.State(), vmm.View());
      AllGivenBack(boot, vmm.View(), vmm.pool);
      if KernelApart(boot, demo.slots, vmm.View()) {
        ApartGivesAllBack(boot, demo.slots, vmm.View(), vmm.pool);
      }
      ClearBits(vmm.pmm.bitmap);
      assert FreeSet(vmm.View()) == set p: nat | p < |vmm.pmm.bitmap| && !vmm.pmm.bitmap[p];
    }
  }
}
