/** The memory demo: eight slots that each map one real page into user space. */
module MemDemoModule {
  import opened Machine
  import opened Bitmap
  import opened PmmSpec
  import opened PmmModule
  import opened VmmSpec
  import opened VmmModule
  import opened PagerSpec
  import opened PagerSteps
  import opened MemDemoSpec

  class MemDemo {
    const vmm: Vmm
    var slots: seq<DemoSlot>
    var activePages: nat
    /** Events recorded so far; the log holds eight and is never reused. */
    var sequence: nat

    ghost predicate Valid()
      reads this, vmm, vmm.pmm
    {
      && vmm.Valid() && DemoKept(slots, vmm.View())
      && activePages == HeldCount(slots) && sequence <= MEMDEMO_EVENT_COUNT
    }

    constructor (vmm: Vmm)
      requires vmm.Valid() && forall f: nat :: f in vmm.owner ==> !vmm.owner[f].DemoFrame?
      ensures this.vmm == vmm && Valid() && forall i :: 0 <= i < MEMDEMO_PAGE_COUNT ==> slots[i] == CLEAR
      ensures |slots| == MEMDEMO_PAGE_COUNT
    {
      this.vmm := vmm;
      slots := seq(MEMDEMO_PAGE_COUNT, _ => CLEAR);
      activePages, sequence := 0, 0;
      new;
      NoneHeld(slots);
    }

    /** Gives a held slot's page back and forgets the slot. */
    method FreeSlot(i: nat)
      requires Valid() && i < MEMDEMO_PAGE_COUNT
      modifies this`slots, this`activePages, vmm`frames, vmm`owner, vmm.pmm`bitmap, vmm.pmm`freePages
      ensures Valid() && slots == old(slots)[i := CLEAR]
      ensures PagerSide(old(vmm.View()), vmm.View(), {(old(slots)[i].dir, old(slots)[i].virt)})
      ensures Released(old(vmm.View()), vmm.View(), if old(slots)[i].held then {old(slots)[i].frame} else {})
      ensures old(slots)[i].held ==> EntryAt(vmm.View(), (old(slots)[i].dir, old(slots)[i].virt)) == Empty
      ensures vmm.pmm.freePages >= old(vmm.pmm.freePages)
    {
      hide FreeCount, FrameOk, HeldCount, PagerSide, Released, Remapped, LeavesOnly, Lookup, Conserved, Pmm.Valid, EntryAt;
      ghost var v, before := vmm.View(), slots;
      var s := slots[i];
      SideItself(v, {(s.dir, s.virt)});
      if !s.held {
        assert SlotOk(s, v, i);
        assert slots[i := CLEAR] == slots;
        return;
      }
      HeldHasPage(slots, v, i);
      vmm.UnmapPage(s.dir, s.virt);
      ghost var u := vmm.View();
      LeafKeeps(v, u, s.dir, s.virt, s.frame);
      vmm.FreeFrame(s.frame);
      LeavesOnlyKeeps(u, vmm.View());
      assert SlotGivenBack(before, v, u, vmm.View(), i);
      SlotFreed(before, v, u, vmm.View(), i);
      SlotFreedSide(before, v, u, vmm.View(), i);
      SlotFreedReleases(before, v, u, vmm.View(), i);
      HeldCountUpdate(slots, i, CLEAR);
      slots := slots[i := CLEAR];
      if activePages > 0 {
        activePages := activePages - 1;
      }
    }

    /** Takes a zeroed page and maps it at slot `i`'s address; or takes nothing. */
    method MapZeroPage(i: nat, dir: nat) returns (frame: nat, ghost u: Vm)
      requires Valid() && i < MEMDEMO_PAGE_COUNT && IsDir(vmm.View(), dir)
      modifies vmm`frames, vmm`owner, vmm.pmm`bitmap, vmm.pmm`freePages
      ensures vmm.Valid() && Sound(old(vmm.View())) && (frame == 0 ==> Valid())
      ensures frame != 0 <==> old(vmm.pmm.freePages) >= (if HasTable(old(vmm.View()), dir, SlotVirt(i)) then 1 else 2)
      ensures frame != 0 ==> SlotTaken(old(vmm.View()), u, vmm.View(), dir, i, frame, ZeroPage())
      ensures frame == 0 ==> PagerSide(old(vmm.View()), vmm.View(), {}) && Released(old(vmm.View()), vmm.View(), {})
                             && SameLookups(old(vmm.View()), vmm.View())
      ensures vmm.pmm.freePages >= old(vmm.pmm.freePages) - 2
    {
      hide FreeCount, FrameOk, EntryOk, HeldCount, PagerSide, Released, Remapped, LeavesOnly, SameLookups, Lookup, Conserved, Pmm.Valid,
           EntryAt, OwnersGrow, SlotOk, FrameSlotted, ZeroPage, HasTable, DemoKept, Alike;
      ghost var v := vmm.View();
      u := v;
      SameAsItself(v);
      NoDirectoryZero(v);
      frame := vmm.TakeFrame(ZeroPage(), DemoFrame(dir, i));
      if frame == 0 {
        return;
      }
      u := vmm.View();
      TakenFrame(v, u, frame, DemoFrame(dir, i), ZeroPage(), dir, SlotVirt(i));
      var mapped := vmm.MapPage(dir, SlotVirt(i), PAGE_SIZE * frame, true, true);
      if !mapped {
        vmm.FreeFrame(frame);
        DemoTakeUndone(slots, v, u, vmm.View(), frame, DemoFrame(dir, i), ZeroPage(), {});
        return 0, u;
      }
    }

    /** Takes a zeroed page for a free slot and maps it for `dir`; or takes nothing. */
    method TakeSlot(i: nat, dir: nat) returns (ok: bool)
      requires Valid() && i < MEMDEMO_PAGE_COUNT && !slots[i].held && IsDir(vmm.View(), dir)
      modifies this`slots, this`activePages, vmm`frames, vmm`owner, vmm.pmm`bitmap, vmm.pmm`freePages
      ensures Valid() && PagerSide(old(vmm.View()), vmm.View(), if ok then {(dir, SlotVirt(i))} else {})
      ensures ok <==> old(vmm.pmm.freePages) >= (if HasTable(old(vmm.View()), dir, SlotVirt(i)) then 1 else 2)
      ensures !ok ==> slots == old(slots) && Released(old(vmm.View()), vmm.View(), {}) && SameLookups(old(vmm.View()), vmm.View())
      ensures ok ==> slots[i].held && slots == old(slots)[i := DemoSlot(true, dir, SlotVirt(i), slots[i].frame)]
                     && MayAccess(EntryAt(vmm.View(), (dir, SlotVirt(i))), true) && SlotBytes(slots, vmm.View(), i) == ZeroPage()
      ensures BytesKept(old(slots), old(vmm.View()), slots, vmm.View())
      ensures vmm.pmm.freePages >= old(vmm.pmm.freePages) - 2
    {
      hide FreeCount, HeldCount, PagerSide, Released, SameLookups, EntryAt, SlotTaken, FrameSlotted, Vmm.Valid, FrameOk, SlotBytes, BytesKept,
           DemoKept;
      ghost var v := vmm.View();
      var frame;
      ghost var u;
      KeptIsSound(slots, v);
      frame, u := MapZeroPage(i, dir);
      if frame == 0 {
        ReleasedBytes(slots, v, slots, vmm.View(), {});
        return false;
      }
      SlotTakenBooked(slots, v, u, vmm.View(), dir, i, frame, ZeroPage());
      TakenBytes(slots, v, u, vmm.View(), dir, i, frame, ZeroPage());
      HeldCountUpdate(slots, i, DemoSlot(true, dir, SlotVirt(i), frame));
      slots := slots[i := DemoSlot(true, dir, SlotVirt(i), frame)];
      activePages := activePages + 1;
      return true;
    }

    /** The demo system call, for the current directory. It works exactly for a known operation
        on one of the slots with room for its event, if the slot is held or, for ALLOC, pages
        for it are free. ALLOC of a held slot, whoever holds it, only records an event and
        returns the slot's address. */
    method ApplyOp(op: DemoOp, page: U32) returns (r: U32)
      requires Valid()
      modifies this, vmm`frames, vmm`owner, vmm.pmm`bitmap, vmm.pmm`freePages
      ensures Valid()
      ensures r != 0 <==> DemoWorks(old(slots), op, page, old(sequence), old(vmm.View()), vmm.current, old(vmm.pmm.freePages))
      ensures r == 0 ==> slots == old(slots) && sequence == old(sequence) && Released(old(vmm.View()), vmm.View(), {})
                         && SameLookups(old(vmm.View()), vmm.View())
      ensures r == 0 || page < MEMDEMO_PAGE_COUNT
      ensures r != 0 && op != Free ==> r == 0x0200_0000 + 4096 * page
      ensures r != 0 ==> sequence == old(sequence) + 1
      ensures r != 0 && op == Alloc ==> r == SlotVirt(page) && slots[page].held
                                        && slots == old(slots)[page := if old(slots)[page].held then old(slots)[page]
                                                                       else DemoSlot(true, vmm.current, r, slots[page].frame)]
      ensures r != 0 && op == Touch ==> r == SlotVirt(page) && old(slots)[page].held && slots == old(slots)
      ensures r != 0 && op == Free ==> r == 1 && old(slots)[page].held && slots == old(slots)[page := CLEAR]
      ensures r == 0 || op == Touch || (op == Alloc && old(slots)[page].held) ==> PagerSide(old(vmm.View()), vmm.View(), {})
      ensures r != 0 && op == Free ==> EntryAt(vmm.View(), (old(slots)[page].dir, SlotVirt(page))) == Empty
      ensures r != 0 ==>
                PagerSide(old(vmm.View()), vmm.View(), {(if op == Free then old(slots)[page].dir else vmm.current, SlotVirt(page))})
      ensures BytesKept(old(slots), old(vmm.View()), slots, vmm.View())
      ensures r != 0 && op == Alloc && !old(slots)[page].held ==> SlotBytes(slots, vmm.View(), page) == ZeroPage()
      ensures vmm.pmm.freePages >= old(vmm.pmm.freePages) - 2
    {
      hide FreeCount, FrameOk, HeldCount, PagerSide, Released, SameLookups, EntryAt, Conserved, Pmm.Valid, SlotOk, SlotBytes, BytesKept;
      ghost var v := vmm.View();
      BytesStay(slots, v);
      SameAsItself(v);
      SlotsAreThere(slots, v);
      if page >= MEMDEMO_PAGE_COUNT || sequence >= MEMDEMO_EVENT_COUNT {
        return 0;
      }
      SideItself(v, {(vmm.current, SlotVirt(page))});
      HeldIsAtHome(slots, v, page);
      if op == Alloc {
        if !slots[page].held {
          var ok := TakeSlot(page, vmm.current);
          if !ok {
            return 0;
          }
          HeldIsAtHome(slots, vmm.View(), page);
        }
        sequence := sequence + 1;
        return slots[page].virt;
      }
      if op == Touch {
        if !slots[page].held {
          return 0;
        }
        sequence := sequence + 1;
        return slots[page].virt;
      }
      if op == Free {
        if !slots[page].held {
          return 0;
        }
        ghost var before := slots;
        FreeSlot(page);
        ReleasedBytes(before, v, slots, vmm.View(), {before[page].frame});
        sequence := sequence + 1;
        return 1;
      }
      return 0;
    }

    /** Frees every slot held for a directory that is going away. */
    method ReleaseForDirectory(dir: nat)
      requires Valid()
      modifies this`slots, this`activePages, vmm`frames, vmm`owner, vmm.pmm`bitmap, vmm.pmm`freePages
      ensures Valid() && slots == ClearedFor(old(slots), dir, MEMDEMO_PAGE_COUNT)
      ensures PagerSide(old(vmm.View()), vmm.View(), DemoKeys(dir))
      ensures Released(old(vmm.View()), vmm.View(), SlotFrames(old(slots), dir, MEMDEMO_PAGE_COUNT))
      ensures vmm.pmm.freePages >= old(vmm.pmm.freePages)
    {
      hide FreeCount, FrameOk, HeldCount, PagerSide, Released, EntryAt, Vmm.Valid, Conserved, Pmm.Valid, SlotOk, SlotFrames, DemoKeys, ClearedFor;
      ghost var v, before := vmm.View(), slots;
      ReleaseBegins(before, v, dir);
      for i := 0 to MEMDEMO_PAGE_COUNT
        invariant Valid() && slots == ClearedFor(before, dir, i)
        invariant PagerSide(v, vmm.View(), DemoKeys(dir)) && vmm.pmm.freePages >= old(vmm.pmm.freePages)
        invariant Released(v, vmm.View(), SlotFrames(before, dir, i))
      {
        OneMoreCleared(before, dir, i);
        if slots[i].held && slots[i].dir == dir {
          ghost var u := vmm.View();
          HeldIsAtHome(slots, u, i);
          FreeSlot(i);
          OneMoreReleased(v, u, vmm.View(), before, dir, i);
        }
      }
    }

    /** Empties every slot and the event log: exactly the pages of held slots become free, and
        exactly their addresses are unmapped. */
    method Reset()
      requires Valid()
      modifies this, vmm`frames, vmm`owner, vmm.pmm`bitmap, vmm.pmm`freePages
      ensures Valid() && sequence == 0 && activePages == 0
      ensures forall i :: 0 <= i < MEMDEMO_PAGE_COUNT ==> slots[i] == CLEAR
      ensures Released(old(vmm.View()), vmm.View(), HeldFrames(old(slots), MEMDEMO_PAGE_COUNT))
      ensures PagerSide(old(vmm.View()), vmm.View(), HeldKeys(old(slots), MEMDEMO_PAGE_COUNT))
      ensures Unmapped(old(slots), vmm.View(), MEMDEMO_PAGE_COUNT) && vmm.pmm.freePages >= old(vmm.pmm.freePages)
    {
      hide FreeCount, FrameOk, HeldCount, PagerSide, Released, EntryAt, Vmm.Valid, Conserved, Pmm.Valid, SlotOk, HeldFrames, HeldKeys,
           Unmapped;
      ghost var v, before := vmm.View(), slots;
      NothingHeldYet(before, v);
      NothingUnmapped(before, v);
      for i := 0 to MEMDEMO_PAGE_COUNT
        invariant Valid() && forall j :: 0 <= j < MEMDEMO_PAGE_COUNT ==> slots[j] == if j < i then CLEAR else before[j]
        invariant Released(v, vmm.View(), HeldFrames(before, i)) && PagerSide(v, vmm.View(), HeldKeys(before, i))
        invariant Unmapped(before, vmm.View(), i) && vmm.pmm.freePages >= old(vmm.pmm.freePages)
      {
        ghost var u := vmm.View();
        FreeSlot(i);
        OneMoreUnmapped(before, v, u, vmm.View(), i);
        OneMoreReset(v, u, vmm.View(), before, i);
      }
      NoneHeld(slots);
      activePages, sequence := 0, 0;
    }
  }
}
