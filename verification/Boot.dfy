/** Bringing the memory stack up, from the boot information on. */
module BootModule {
  import opened Machine
  import opened Bitmap
  import opened PmmSpec
  import opened PmmModule
  import opened VmmSpec
  import opened VmmModule
  import opened PagerSpec
  import opened PagerVictim
  import opened PagerSteps
  import opened PagerPlain
  import opened PagerModule
  import opened PagerRuns
  import opened PagerRecency
  import opened MemDemoSpec
  import opened MemDemoModule
  import opened SpacesSpec
  import opened SpacesModule

  /** The pages free after boot: promised by the boot information, above kernel and bitmap. */
  ghost function PagesAtBoot(boot: Boot, kernelEnd: U32): set<nat> {
    var total := DetectTotalMemory(boot);
    set p: nat | p < total / PAGE_SIZE && Promised(boot, total, p) && KernelAndBitmapEnd(kernelEnd, total) <= PAGE_SIZE * p
  }

  function KernelAndBitmapEnd(kernelEnd: U32, total: U32): U32 {
    AlignUp(Add32(AlignUp(kernelEnd), (total / PAGE_SIZE + 7) / 8))
  }

  /** Boots allocator, page tables, pager and memory demo. It works exactly when enough pages
      are free for the kernel's directory and one table for every 4 MiB; then no process
      exists, the pager holds nothing, and every invariant of the memory stack holds. */
  method Start(boot: Boot, kernelEnd: U32, memory: seq<Frame>, pageZero: seq<Byte>) returns (ok: bool, spaces: AddressSpaces?)
    requires 0 < kernelEnd && KernelFits(kernelEnd, DetectTotalMemory(boot)) && DetectTotalMemory(boot) <= 0x4000_0000
    requires |memory| == DetectTotalMemory(boot) / PAGE_SIZE && |pageZero| == PAGE_SIZE
    ensures ok <==> |PagesAtBoot(boot, kernelEnd)| > TablesFor(AlignDown(DetectTotalMemory(boot)))
    ensures ok <==> spaces != null
    ensures ok ==>
              && spaces.Valid() && spaces.pager.Faithful() && spaces.pager.flat == map[]
              && (forall i :: 0 <= i < PROCESS_MAX ==> spaces.spaces[i] == NoSpace)
              && (forall i :: 0 <= i < MEMDEMO_PAGE_COUNT ==> spaces.demo.slots[i] == CLEAR)
              && spaces.vmm.pmm.freePages == |PagesAtBoot(boot, kernelEnd)| - 1 - TablesFor(AlignDown(DetectTotalMemory(boot)))
    ensures ok ==> Rested(Plain(spaces.vmm.current, map[]), spaces.pager)
    ensures ok ==> spaces.boot.free == FreeSet(spaces.vmm.View()) && spaces.vmm.current == spaces.vmm.kernel
    ensures ok ==> KernelApart(spaces.boot, spaces.demo.slots, spaces.vmm.View()) && spaces.pager.resident == 0
    ensures ok ==> fresh(spaces) && fresh(spaces.pager) && fresh(spaces.demo) && fresh(spaces.vmm) && fresh(spaces.vmm.pmm)
  {
    hide FreeCount, Kept, DemoKept, World, SameKeys, Sound, Agrees, Tidy, EntryAt, HeldCount, Promised, KernelFits, AlignUp, AlignDown,
         TablesFor, TicksFit, RightsFit, Conserved, MapsDirectly, Quiet, Looks, OnlyPagesMapped, Stands, Rested, Pager.Valid, MemDemo.Valid,
         AddressSpaces.Valid;
    spaces := null;
    var pmm := new Pmm();
    pmm.Init(boot, kernelEnd);
    ghost var bitmap := pmm.bitmap;
    FreeAtBoot(bitmap, boot, kernelEnd);
    var vmm := new Vmm(pmm, memory);
    ok := vmm.Init();
    if !ok {
      return;
    }
    var pager := new Pager(vmm, pageZero);
    var demo := new MemDemo(vmm);
    NothingMapped(pager);
    spaces := new AddressSpaces(pager, demo);
    spaces.NothingLeaks();
  }

  /** A new directory beside the pager: scripts may use it from then on. */
  method NewDirectory(pager: Pager, ghost m: Plain, ghost dirs: set<nat>) returns (dir: nat)
    requires Stands(m, pager) && AreDirs(dirs, pager.vmm.View())
    modifies pager.vmm`frames, pager.vmm`owner, pager.vmm.pmm`bitmap, pager.vmm.pmm`freePages
    ensures Stands(m, pager) && AreDirs(if dir == 0 then dirs else dirs + {dir}, pager.vmm.View())
    ensures dir == 0 <==> old(pager.vmm.pmm.freePages) == 0
    ensures pager.vmm.pmm.freePages == old(pager.vmm.pmm.freePages) - if dir == 0 then 0 else 1
  {
    hide FreeCount, SameKeys, Agrees, Tidy, EntryAt, TicksFit, RightsFit, Looks, OnlyPagesMapped, FrameOk, EntryOk, Conserved, Pmm.Valid,
         Kept, Lookup, DirChanged, SameLookups;
    ghost var c, v := pager.State(), pager.vmm.View();
    dir := pager.vmm.CreateAddressSpace();
    if dir != 0 {
      CreatedIsChanged(v, pager.vmm.View(), dir);
      UnknownDirectory(c, v, pager.flat, dir);
      PagerSurvives(c, v, pager.vmm.View(), dir, pager.flat);
      StandsStill(c, pager.flat, v, pager.vmm.View(), dir);
    }
  }

  lemma {:induction false} UnknownDirectory(c: Cache, v: Vm, flat: Flat, dir: nat)
    requires Kept(c, v) && SameKeys(c.pages, flat) && dir !in v.owner
    ensures forall key :: key in flat ==> key.0 != dir
  {
    forall key | key in flat ensures key.0 != dir {
      var k := KeyHasPage(c, v, flat, key);
    }
  }

  lemma {:induction false} StandsStill(c: Cache, flat: Flat, v: Vm, w: Vm, dir: nat)
    requires Kept(c, v) && DirChanged(v, w, dir) && OnlyPagesMapped(flat, v) && RightsFit(c.pages, v) && dir !in v.owner && IsDir(w, dir)
    requires forall x: U32 :: Aligned(x) && x < VMM_KERNEL_BASE ==> Lookup(w, dir, x) == Empty
    ensures OnlyPagesMapped(flat, w) && RightsFit(c.pages, w)
  {
    forall d: nat, x: U32 | IsDir(w, d) && Aligned(x) && x < VMM_KERNEL_BASE && (d, x) !in flat ensures EntryAt(w, (d, x)) == Empty {
      if d != dir {
        assert IsDir(v, d) && EntryAt(v, (d, x)) == Empty;
      }
    }
    forall k | 0 <= k < |c.pages| && c.pages[k].present ensures RightsFitOne(c.pages[k], EntryAt(w, KeyOf(c.pages[k]))) {
      assert PageOk(c.pages[k], v, k) && RightsFitOne(c.pages[k], EntryAt(v, KeyOf(c.pages[k])));
      assert IsDir(v, c.pages[k].dir) && c.pages[k].dir != dir;
    }
  }

  lemma {:induction false} FreeAtBoot(bitmap: seq<bool>, boot: Boot, kernelEnd: U32)
    requires |bitmap| == DetectTotalMemory(boot) / PAGE_SIZE
    requires forall p :: 0 <= p < |bitmap| ==>
               (!bitmap[p] <==> Promised(boot, DetectTotalMemory(boot), p)
                                && KernelAndBitmapEnd(kernelEnd, DetectTotalMemory(boot)) <= PAGE_SIZE * p)
    ensures FreeCount(bitmap) == |PagesAtBoot(boot, kernelEnd)|
  {
    ClearBits(bitmap);
    assert PagesAtBoot(boot, kernelEnd) == set p: nat | p < |bitmap| && !bitmap[p];
  }

  /** A new pager over the kernel's direct map. */
  lemma {:induction false} NothingMapped(pager: Pager)
    requires pager.Valid() && pager.Faithful() && pager.flat == map[]
    requires exists size :: MapsDirectly(pager.vmm.View(), size)
    requires forall k :: 0 <= k < |pager.pages| ==> pager.pages[k] == UNUSED
    ensures Rested(Plain(pager.vmm.current, map[]), pager)
  {
    hide SameKeys, Kept, Agrees, Tidy;
    var v := pager.vmm.View();
    forall d: nat, x: U32 | IsDir(v, d) && Aligned(x) && x < VMM_KERNEL_BASE ensures EntryAt(v, (d, x)) == Empty {
    }
  }
}
