/** The address spaces of processes: which pages each has registered, who maps what, and
    what creating and destroying one means for everybody else. */
module SpacesSpec {
  import opened Machine
  import opened PmmSpec
  import opened VmmSpec
  import opened PagerSpec
  import opened PagerSteps
  import opened MemDemoSpec

  const PROCESS_MAX: nat := 8
  const PROCESS_USER_CODE_BASE: U32 := 0x0080_0000
  const PROCESS_USER_STACK_PAGE: U32 := 0xBFFE_F000
  const PROCESS_USER_VM_BASE: U32 := 0x0300_0000
  const PROCESS_USER_VM_PAGE_COUNT: nat := 24

  /** A process's page directory and its bitmap of allocated virtual pages. */
  datatype Space = NoSpace | Space(dir: nat, pages: seq<bool>)

  function VmVirt(i: nat): U32
    requires i < PROCESS_USER_VM_PAGE_COUNT
  {
    PROCESS_USER_VM_BASE + PAGE_SIZE * i
  }

  /** The addresses a space has registered with the pager. */
  function Virts(s: Space): set<U32>
    requires s.Space?
  {
    {PROCESS_USER_CODE_BASE, PROCESS_USER_STACK_PAGE}
    + set i: nat | i < PROCESS_USER_VM_PAGE_COUNT && i < |s.pages| && s.pages[i] :: VmVirt(i)
  }

  predicate IsDemoAddress(x: U32) {
    MEMDEMO_USER_BASE <= x < MEMDEMO_USER_BASE + PAGE_SIZE * MEMDEMO_PAGE_COUNT
  }

  ghost predicate DemoMaps(slots: seq<DemoSlot>, d: nat, x: U32) {
    exists i: nat :: MapsSlot(slots, d, x, i)
  }

  /** Slot `i` maps its page at `x` for directory `d`. */
  predicate MapsSlot(slots: seq<DemoSlot>, d: nat, x: U32, i: nat) {
    i < |slots| && slots[i].held && slots[i].dir == d && slots[i].virt == x
  }

  /** Below the kernel base only registered pages and demo slots are mapped, except perhaps
      in directory `but`. */
  ghost predicate NoStray(slots: seq<DemoSlot>, flat: Flat, v: Vm, but: nat) {
    Sound(v) && forall d: nat, x: U32 :: IsDir(v, d) && Aligned(x) && x < VMM_KERNEL_BASE && d != but && Lookup(v, d, x).Entry? ==>
      (d, x) in flat || DemoMaps(slots, d, x)
  }

  /** The keys of a directory are those of its space. */
  ghost predicate KeysOf(s: Space, flat: Flat) {
    s.Space? ==> |s.pages| == PROCESS_USER_VM_PAGE_COUNT && forall x: U32 :: (s.dir, x) in flat <==> x in Virts(s)
  }

  ghost predicate OwnDirs(spaces: seq<Space>, v: Vm) {
    && |spaces| == PROCESS_MAX
    && (forall i :: 0 <= i < PROCESS_MAX && spaces[i].Space? ==> IsDir(v, spaces[i].dir) && spaces[i].dir != v.kernel)
    && (forall i, j :: 0 <= i < j < PROCESS_MAX && spaces[i].Space? && spaces[j].Space? ==> spaces[i].dir != spaces[j].dir)
    && (forall d: nat :: IsDir(v, d) && d != v.kernel ==> HasSpace(spaces, d))
  }

  ghost predicate HasSpace(spaces: seq<Space>, d: nat) {
    exists i :: 0 <= i < |spaces| && spaces[i].Space? && spaces[i].dir == d
  }

  ghost predicate KeysApart(flat: Flat) {
    forall key :: key in flat ==> !IsDemoAddress(key.1)
  }

  /** The kernel's directory has no pages of its own with the pager. */
  ghost predicate NotKernels(flat: Flat, v: Vm) {
    forall key :: key in flat ==> key.0 != v.kernel
  }

  ghost predicate World(spaces: seq<Space>, slots: seq<DemoSlot>, flat: Flat, v: Vm) {
    && OwnDirs(spaces, v) && KeysApart(flat) && NoStray(slots, flat, v, 0) && NotKernels(flat, v)
    && forall i :: 0 <= i < PROCESS_MAX ==> KeysOf(spaces[i], flat)
  }

  // ---- isolation -----------------------------------------------------------------------------

  /** Below the kernel base no page of memory is mapped by two directories: what one process
      can reach, no other can. */
  lemma {:induction false} Isolation(c: Cache, slots: seq<DemoSlot>, flat: Flat, v: Vm, d: nat, x: U32, e: nat, y: U32)
    requires Kept(c, v) && SameKeys(c.pages, flat) && DemoKept(slots, v) && NoStray(slots, flat, v, 0)
    requires IsDir(v, d) && IsDir(v, e) && d != e && Aligned(x) && Aligned(y) && x < VMM_KERNEL_BASE && y < VMM_KERNEL_BASE
    requires Lookup(v, d, x).Entry? && Lookup(v, e, y).Entry?
    ensures Lookup(v, d, x).frame != Lookup(v, e, y).frame
  {
    MappedIsOwned(c, slots, flat, v, d, x);
    MappedIsOwned(c, slots, flat, v, e, y);
  }

  /** A page mapped below the kernel base is a data page of that address space. */
  lemma {:induction false} MappedIsOwned(c: Cache, slots: seq<DemoSlot>, flat: Flat, v: Vm, d: nat, x: U32)
    requires Kept(c, v) && SameKeys(c.pages, flat) && DemoKept(slots, v) && NoStray(slots, flat, v, 0)
    requires IsDir(v, d) && Aligned(x) && x < VMM_KERNEL_BASE && Lookup(v, d, x).Entry?
    ensures var f := Lookup(v, d, x).frame;
            f in v.owner && (v.owner[f].PagerFrame? || v.owner[f].DemoFrame?) && v.owner[f].dir == d
  {
    NoDirectoryZero(v);
    if (d, x) in flat {
      var k := KeyHasPage(c, v, flat, (d, x));
    } else {
      assert DemoMaps(slots, d, x);
      var i: nat :| MapsSlot(slots, d, x, i);
      assert SlotOk(slots[i], v, i);
    }
  }

  // ---- release -------------------------------------------------------------------------------

  /** Releasing an address space frees all its pages and no page of another. */
  lemma {:induction false} ReleaseFreesOnlyThat(v: Vm, w: Vm, dir: nat)
    requires Released(v, w, SpaceOf(v, dir))
    ensures SpaceOf(w, dir) == {} && forall d: nat :: d != dir ==> SpaceOf(w, d) == SpaceOf(v, d)
    ensures forall f: nat :: f < |v.used| ==> (!w.used[f] <==> !v.used[f] || f in SpaceOf(v, dir))
  {
    forall d: nat | d != dir ensures SpaceOf(w, d) == SpaceOf(v, d) {
      assert forall f: nat :: f in SpaceOf(w, d) <==> f in SpaceOf(v, d);
    }
  }

  /** Once the demo slots and the pages of a directory are gone, what was freed and what the
      directory is made of are all the pages of its space. */
  lemma {:induction false} LeavesGone(v: Vm, u: Vm, w: Vm, dir: nat, gone: set<nat>)
    requires Sound(v) && IsDir(v, dir) && Released(v, u, gone) && Released(u, w, StructureOf(u, dir))
    requires forall f :: f in gone ==> f in v.owner && (v.owner[f].PagerFrame? || v.owner[f].DemoFrame?) && v.owner[f].dir == dir
    requires forall f: nat :: f in u.owner && (u.owner[f].PagerFrame? || u.owner[f].DemoFrame?) ==> u.owner[f].dir != dir
    requires dir != v.kernel
    ensures Released(v, w, SpaceOf(v, dir))
  {
    ReleasedTwice(v, u, w, gone, StructureOf(u, dir));
    forall f: nat ensures f in gone + StructureOf(u, dir) <==> f in SpaceOf(v, dir) {
      if f in v.owner {
        assert FrameOk(v, f);
      }
    }
    assert gone + StructureOf(u, dir) == SpaceOf(v, dir);
  }

  lemma {:induction false} StrayAfterDemo(slots: seq<DemoSlot>, flat: Flat, v: Vm, w: Vm, dir: nat)
    requires NoStray(slots, flat, v, 0) && PagerSide(v, w, DemoKeys(dir))
    ensures NoStray(ClearedFor(slots, dir, MEMDEMO_PAGE_COUNT), flat, w, dir)
  {
    var after := ClearedFor(slots, dir, MEMDEMO_PAGE_COUNT);
    NoDirectoryZero(v);
    forall d: nat, x: U32 | IsDir(w, d) && Aligned(x) && x < VMM_KERNEL_BASE && d != dir && Lookup(w, d, x).Entry?
      ensures (d, x) in flat || DemoMaps(after, d, x)
    {
      assert IsDir(v, d) && (d, x) !in DemoKeys(dir);
      if (d, x) !in flat {
        assert DemoMaps(slots, d, x);
        var i: nat :| MapsSlot(slots, d, x, i);
        assert after[i] == slots[i] && MapsSlot(after, d, x, i);
      }
    }
  }

  lemma {:induction false} StrayAfterForget(slots: seq<DemoSlot>, flat: Flat, v: Vm, w: Vm, key: Key, but: nat)
    requires NoStray(slots, flat, v, but) && OutsideKept(v, w, flat)
    requires key in flat ==> EntryAt(w, key) == Empty
    ensures NoStray(slots, flat - {key}, w, but)
  {
    forall d: nat, x: U32 | IsDir(w, d) && Aligned(x) && x < VMM_KERNEL_BASE && d != but && Lookup(w, d, x).Entry?
      ensures (d, x) in flat - {key} || DemoMaps(slots, d, x)
    {
      assert IsDir(v, d);
      if (d, x) !in flat {
        assert SameButAccessed(Lookup(v, d, x), Lookup(w, d, x));
      }
    }
  }

  lemma {:induction false} StrayAfterDestroy(slots: seq<DemoSlot>, flat: Flat, v: Vm, w: Vm, dir: nat)
    requires NoStray(slots, flat, v, dir) && Sound(w) && SameLookups(v, w)
    requires forall d: nat :: IsDir(w, d) <==> IsDir(v, d) && d != dir
    ensures NoStray(slots, flat, w, 0)
  {
  }

  // ---- directories come and go ------------------------------------------------------------------

  /** Directories other than `dir`, their mappings and all data pages are as before. */
  ghost predicate DirChanged(v: Vm, w: Vm, dir: nat) {
    && Sound(v) && Sound(w) && SameLookups(v, w) && |w.frames| == |v.frames| && w.kernel == v.kernel
    && (forall d: nat :: d != dir ==> (IsDir(w, d) <==> IsDir(v, d)))
    && (forall f: nat :: IsLeaf(w, f) <==> IsLeaf(v, f))
    && (forall f: nat :: IsLeaf(v, f) ==> w.owner[f] == v.owner[f] && SameFrame(v, w, f))
  }

  lemma {:induction false} PagerSurvives(c: Cache, v: Vm, w: Vm, dir: nat, flat: Flat)
    requires Kept(c, v) && SameKeys(c.pages, flat) && DirChanged(v, w, dir) && forall key :: key in flat ==> key.0 != dir
    ensures Kept(c, w) && (Agrees(c, v, flat) ==> Agrees(c, w, flat))
  {
    forall k | 0 <= k < PAGER_MAX_PAGES && c.pages[k].used ensures PageOk(c.pages[k], v, k) && SeesNoChange(c.pages[k], v, w) {
      assert PageOk(c.pages[k], v, k) && KeyOf(c.pages[k]) in flat;
      assert c.pages[k].present ==> IsLeaf(v, c.pages[k].frame);
    }
    forall f | f in w.owner && w.owner[f].PagerFrame? ensures f in v.owner && v.owner[f] == w.owner[f] {
      assert IsLeaf(w, f);
    }
    StillKept(c, v, w);
  }

  lemma {:induction false} DemoSurvives(slots: seq<DemoSlot>, v: Vm, w: Vm, dir: nat)
    requires DemoKept(slots, v) && DirChanged(v, w, dir)
    requires forall i :: 0 <= i < MEMDEMO_PAGE_COUNT && slots[i].held ==> slots[i].dir != dir
    ensures DemoKept(slots, w)
  {
    forall i | 0 <= i < MEMDEMO_PAGE_COUNT ensures SlotOk(slots[i], w, i) {
      assert SlotOk(slots[i], v, i);
      assert slots[i].held ==> IsLeaf(v, slots[i].frame);
    }
    forall f: nat ensures FrameSlotted(slots, w, f) {
      assert FrameSlotted(slots, v, f);
      assert f in w.owner && w.owner[f].DemoFrame? ==> IsLeaf(w, f) && IsLeaf(v, f);
    }
  }

  lemma {:induction false} DestroyedIsChanged(v: Vm, w: Vm, dir: nat)
    requires Sound(v) && Sound(w) && IsDir(v, dir) && Released(v, w, StructureOf(v, dir)) && SameLookups(v, w)
    requires forall d: nat :: IsDir(w, d) <==> IsDir(v, d) && d != dir
    ensures DirChanged(v, w, dir)
  {
    forall f: nat ensures IsLeaf(w, f) <==> IsLeaf(v, f) {
    }
    forall f: nat | IsLeaf(v, f) ensures w.owner[f] == v.owner[f] && SameFrame(v, w, f) {
      assert FrameOk(v, f) && IsLeaf(w, f);
    }
  }

  lemma {:induction false} CreatedIsChanged(v: Vm, w: Vm, dir: nat)
    requires Sound(v) && Sound(w) && dir !in v.owner && w.owner == v.owner[dir := Directory] && SameLookups(v, w)
    requires |w.frames| == |v.frames| && w.kernel == v.kernel
    requires forall d: nat :: IsDir(w, d) <==> IsDir(v, d) || d == dir
    requires forall f: nat :: IsLeaf(v, f) ==> SameFrame(v, w, f)
    ensures DirChanged(v, w, dir)
  {
  }

  lemma {:induction false} StrayAfterPager(slots: seq<DemoSlot>, flat: Flat, v: Vm, w: Vm)
    requires NoStray(slots, flat, v, 0) && OutsideKept(v, w, flat)
    ensures NoStray(slots, flat, w, 0)
  {
    forall d: nat, x: U32 | IsDir(w, d) && Aligned(x) && x < VMM_KERNEL_BASE && d != 0 && Lookup(w, d, x).Entry?
      ensures (d, x) in flat || DemoMaps(slots, d, x)
    {
      assert IsDir(v, d);
      if (d, x) !in flat {
        assert SameButAccessed(Lookup(v, d, x), Lookup(w, d, x));
      }
    }
  }

  /** A demo operation maps or unmaps one address, and its slot says so. */
  lemma {:induction false} StrayAfterSlot(before: seq<DemoSlot>, after: seq<DemoSlot>, flat: Flat, v: Vm, w: Vm, i: nat, keys: set<Key>)
    requires NoStray(before, flat, v, 0) && PagerSide(v, w, keys) && i < |before| == |after|
    requires forall j :: 0 <= j < |before| && j != i ==> after[j] == before[j]
    requires keys == {} ==> after == before
    requires keys != {} ==> exists d: nat, x: U32 :: SlotChange(before[i], after[i], w, keys, d, x)
    ensures NoStray(after, flat, w, 0)
  {
    forall d: nat, x: U32 | IsDir(w, d) && Aligned(x) && x < VMM_KERNEL_BASE && d != 0 && Lookup(w, d, x).Entry?
      ensures (d, x) in flat || DemoMaps(after, d, x)
    {
      assert IsDir(v, d);
      if (d, x) in keys {
        var e: nat, y: U32 :| SlotChange(before[i], after[i], w, keys, e, y);
        assert MapsSlot(after, d, x, i);
      } else if (d, x) !in flat {
        assert DemoMaps(before, d, x);
        var j: nat :| MapsSlot(before, d, x, j);
        assert MapsSlot(after, d, x, j);
      }
    }
  }

  /** The slot now maps (d, x); or it did, and that address is unmapped. */
  ghost predicate SlotChange(before: DemoSlot, after: DemoSlot, w: Vm, keys: set<Key>, d: nat, x: U32) {
    && keys == {(d, x)}
    && ((after.held && after.dir == d && after.virt == x && (before.held ==> before == after))
        || (before.held && before.dir == d && before.virt == x && EntryAt(w, (d, x)) == Empty))
  }

  lemma {:induction false} NewWorld(v: Vm, slots: seq<DemoSlot>, spaces: seq<Space>)
    requires Sound(v) && (forall d: nat :: IsDir(v, d) <==> d == v.kernel)
    requires forall x: U32 :: Aligned(x) && x < VMM_KERNEL_BASE ==> Lookup(v, v.kernel, x) == Empty
    requires |spaces| == PROCESS_MAX && forall i :: 0 <= i < PROCESS_MAX ==> spaces[i] == NoSpace
    ensures World(spaces, slots, map[], v)
  {
  }

  // ---- the world goes on ------------------------------------------------------------------------

  /** A user address outside the demo range is registered, or unmapped. */
  lemma {:induction false} ReachableOrEmpty(spaces: seq<Space>, slots: seq<DemoSlot>, flat: Flat, v: Vm, d: nat, x: U32)
    requires World(spaces, slots, flat, v) && DemoKept(slots, v) && Aligned(x) && x < VMM_KERNEL_BASE && !IsDemoAddress(x)
    ensures (d, x) in flat || EntryAt(v, (d, x)) == Empty
  {
    NoDirectoryZero(v);
    HeldAddresses(slots, v);
    if IsDir(v, d) && Lookup(v, d, x).Entry? {
      assert (d, x) in flat || DemoMaps(slots, d, x);
    }
  }

  lemma {:induction false} HeldAddresses(slots: seq<DemoSlot>, v: Vm)
    requires DemoKept(slots, v)
    ensures forall i :: 0 <= i < |slots| && slots[i].held ==> IsDemoAddress(slots[i].virt)
  {
    forall i | 0 <= i < |slots| && slots[i].held ensures IsDemoAddress(slots[i].virt) {
      assert SlotOk(slots[i], v, i);
    }
  }

  /** A demo address is mapped for a directory exactly when one of its slots maps it. */
  lemma {:induction false} DemoEntry(spaces: seq<Space>, slots: seq<DemoSlot>, flat: Flat, v: Vm, d: nat, virt: U32)
    requires World(spaces, slots, flat, v) && DemoKept(slots, v) && IsDir(v, d) && virt < VMM_KERNEL_BASE
    requires IsDemoAddress(AlignDown(virt))
    ensures Sound(v) && Aligned(AlignDown(virt)) && AlignDown(virt) < VMM_KERNEL_BASE && (d, AlignDown(virt)) !in flat
    ensures |slots| == MEMDEMO_PAGE_COUNT
    ensures Lookup(v, d, AlignDown(virt)).Entry? <==> DemoMaps(slots, d, AlignDown(virt))
  {
    NoDirectoryZero(v);
    var x := AlignDown(virt);
    assert (d, x) in flat ==> !IsDemoAddress((d, x).1);
    if DemoMaps(slots, d, x) {
      var i: nat :| MapsSlot(slots, d, x, i);
      assert SlotOk(slots[i], v, i);
    }
  }

  lemma {:induction false} DemoPage(spaces: seq<Space>, slots: seq<DemoSlot>, flat: Flat, v: Vm, d: nat, virt: U32) returns (i: nat)
    requires World(spaces, slots, flat, v) && DemoKept(slots, v) && IsDir(v, d) && virt < VMM_KERNEL_BASE
    requires IsDemoAddress(AlignDown(virt)) && Lookup(v, d, AlignDown(virt)).Entry?
    ensures MapsSlot(slots, d, AlignDown(virt), i) && Lookup(v, d, AlignDown(virt)).frame == slots[i].frame
    ensures MayAccess(Lookup(v, d, AlignDown(virt)), true)
  {
    DemoEntry(spaces, slots, flat, v, d, virt);
    i :| MapsSlot(slots, d, AlignDown(virt), i);
    HeldHasBytes(slots, v, i);
  }

  lemma {:induction false} SlotsAreFull(slots: seq<DemoSlot>, v: Vm)
    requires DemoKept(slots, v)
    ensures |slots| == MEMDEMO_PAGE_COUNT
    ensures forall j: nat :: j < MEMDEMO_PAGE_COUNT && slots[j].held ==> |SlotBytes(slots, v, j)| == PAGE_SIZE
  {
    forall j: nat | j < MEMDEMO_PAGE_COUNT && slots[j].held ensures |SlotBytes(slots, v, j)| == PAGE_SIZE {
      HeldHasBytes(slots, v, j);
    }
  }

  lemma {:induction false} SlotIsFrame(slots: seq<DemoSlot>, v: Vm, i: nat)
    requires DemoKept(slots, v) && i < MEMDEMO_PAGE_COUNT && slots[i].held
    ensures IsPageAt(v, slots[i].frame) && SlotBytes(slots, v, i) == v.frames[slots[i].frame].bytes
  {
    HeldHasBytes(slots, v, i);
  }

  /** Writing into data pages changes no mapping. */
  lemma {:induction false} WorldAfterFill(spaces: seq<Space>, slots: seq<DemoSlot>, flat: Flat, v: Vm, w: Vm)
    requires World(spaces, slots, flat, v) && LeavesOnly(v, w) && Sound(v)
    ensures World(spaces, slots, flat, w)
  {
    LeavesOnlyKeeps(v, w);
    forall d: nat, x: U32 | IsDir(w, d) && Aligned(x) && x < VMM_KERNEL_BASE && d != 0 && Lookup(w, d, x).Entry?
      ensures (d, x) in flat || DemoMaps(slots, d, x)
    {
      assert IsDir(v, d) && Lookup(v, d, x).Entry?;
    }
  }

  lemma {:induction false} WorldAfterPager(spaces: seq<Space>, slots: seq<DemoSlot>, flat: Flat, v: Vm, w: Vm)
    requires World(spaces, slots, flat, v) && DemoKept(slots, v) && OutsideKept(v, w, flat)
    ensures World(spaces, slots, flat, w) && DemoKept(slots, w)
  {
    StrayAfterPager(slots, flat, v, w);
    SlotsOutside(slots, flat, v);
    OutsideKeepsDemo(slots, v, w, flat);
  }

  lemma {:induction false} SlotsOutside(slots: seq<DemoSlot>, flat: Flat, v: Vm)
    requires DemoKept(slots, v) && KeysApart(flat)
    ensures forall i :: 0 <= i < MEMDEMO_PAGE_COUNT && slots[i].held ==> (slots[i].dir, slots[i].virt) !in flat
  {
    forall i | 0 <= i < MEMDEMO_PAGE_COUNT && slots[i].held ensures (slots[i].dir, slots[i].virt) !in flat {
      assert SlotOk(slots[i], v, i);
      assert IsDemoAddress((slots[i].dir, slots[i].virt).1);
    }
  }

  /** One page more for space `i`. */
  lemma {:induction false} WorldAfterAlloc(spaces: seq<Space>, slots: seq<DemoSlot>, flat: Flat, v: Vm, i: nat, n: nat, bytes: seq<Byte>)
    requires World(spaces, slots, flat, v) && i < PROCESS_MAX && spaces[i].Space? && n < PROCESS_USER_VM_PAGE_COUNT
    requires |spaces[i].pages| == PROCESS_USER_VM_PAGE_COUNT
    ensures World(spaces[i := Space(spaces[i].dir, spaces[i].pages[n := true])], slots, flat[(spaces[i].dir, VmVirt(n)) := bytes], v)
  {
    var s := spaces[i];
    var t := Space(s.dir, s.pages[n := true]);
    var after := spaces[i := t];
    var newFlat := flat[(s.dir, VmVirt(n)) := bytes];
    MoreVirts(s, n);
    forall d: nat | IsDir(v, d) && d != v.kernel ensures HasSpace(after, d) {
      assert HasSpace(spaces, d);
      var j :| 0 <= j < PROCESS_MAX && spaces[j].Space? && spaces[j].dir == d;
      assert after[j].Space? && after[j].dir == d;
    }
    forall j | 0 <= j < PROCESS_MAX ensures KeysOf(after[j], newFlat) {
      assert KeysOf(spaces[j], flat);
      assert j != i && after[j].Space? ==> after[j].dir != s.dir;
    }
  }

  lemma {:induction false} MoreVirts(s: Space, n: nat)
    requires s.Space? && |s.pages| == PROCESS_USER_VM_PAGE_COUNT && n < PROCESS_USER_VM_PAGE_COUNT
    ensures Virts(Space(s.dir, s.pages[n := true])) == Virts(s) + {VmVirt(n)}
    ensures VmVirt(n) in Virts(s) <==> s.pages[n]
    ensures !IsDemoAddress(VmVirt(n)) && Aligned(VmVirt(n)) && VmVirt(n) < VMM_KERNEL_BASE
  {
    var t := Space(s.dir, s.pages[n := true]);
    forall x: U32 ensures x in Virts(t) <==> x in Virts(s) + {VmVirt(n)} {
      if x in Virts(t) && x !in Virts(s) {
        var i: nat :| i < PROCESS_USER_VM_PAGE_COUNT && t.pages[i] && x == VmVirt(i);
        assert !s.pages[i];
      }
      if x in Virts(s) && x != PROCESS_USER_CODE_BASE && x != PROCESS_USER_STACK_PAGE {
        var i: nat :| i < PROCESS_USER_VM_PAGE_COUNT && s.pages[i] && x == VmVirt(i);
        assert t.pages[i];
      }
      if x == VmVirt(n) {
        assert t.pages[n];
      }
    }
  }

  lemma {:induction false} SpaceFacts(spaces: seq<Space>, slots: seq<DemoSlot>, flat: Flat, v: Vm, i: nat)
    requires World(spaces, slots, flat, v) && i < PROCESS_MAX && spaces[i].Space?
    ensures |spaces| == PROCESS_MAX && |spaces[i].pages| == PROCESS_USER_VM_PAGE_COUNT && IsDir(v, spaces[i].dir)
    ensures spaces[i].dir != v.kernel && spaces[i].dir != 0
    ensures forall x: U32 :: (spaces[i].dir, x) in flat <==> x in Virts(spaces[i])
    ensures NoStray(slots, flat, v, 0) && KeysApart(flat)
  {
    assert KeysOf(spaces[i], flat);
    NoDirectoryZero(v);
  }

  lemma {:induction false} WorldAfterDemo(spaces: seq<Space>, before: seq<DemoSlot>, after: seq<DemoSlot>, c: Cache, flat: Flat, v: Vm, w: Vm,
                                          i: nat, keys: set<Key>)
    requires World(spaces, before, flat, v) && Kept(c, v) && SameKeys(c.pages, flat) && PagerSide(v, w, keys)
    requires |before| == |after| == MEMDEMO_PAGE_COUNT && i < MEMDEMO_PAGE_COUNT
    requires forall j :: 0 <= j < |before| && j != i ==> after[j] == before[j]
    requires keys == {} ==> after == before
    requires keys != {} ==> exists d: nat, x: U32 :: SlotChange(before[i], after[i], w, keys, d, x) && IsDemoAddress(x)
    ensures World(spaces, after, flat, w) && Kept(c, w) && (Agrees(c, v, flat) ==> Agrees(c, w, flat))
    ensures forall key :: key in keys ==> key !in flat
  {
    StrayAfterSlot(before, after, flat, v, w, i, keys);
    if keys != {} {
      var d: nat, x: U32 :| SlotChange(before[i], after[i], w, keys, d, x) && IsDemoAddress(x);
      assert (d, x) in flat ==> !IsDemoAddress((d, x).1);
    }
    PagerSideKeeps(c, v, w, keys, flat);
  }

  /** Every demo page goes, and its mapping. */
  lemma {:induction false} WorldAfterReset(spaces: seq<Space>, before: seq<DemoSlot>, after: seq<DemoSlot>, c: Cache, flat: Flat, v: Vm, w: Vm)
    requires World(spaces, before, flat, v) && Kept(c, v) && SameKeys(c.pages, flat) && DemoKept(before, v)
    requires PagerSide(v, w, HeldKeys(before, MEMDEMO_PAGE_COUNT)) && Unmapped(before, w, MEMDEMO_PAGE_COUNT)
    ensures World(spaces, after, flat, w) && Kept(c, w) && (Agrees(c, v, flat) ==> Agrees(c, w, flat))
    ensures forall key :: key in HeldKeys(before, MEMDEMO_PAGE_COUNT) ==> key !in flat && (key.0 != v.kernel || IsDemoAddress(key.1))
  {
    var keys := HeldKeys(before, MEMDEMO_PAGE_COUNT);
    NoDirectoryZero(v);
    NoKeyZero(c, v, flat, 0);
    forall i | 0 <= i < MEMDEMO_PAGE_COUNT
      ensures (before[i].dir, before[i].virt) !in flat && (before[i].dir != v.kernel || IsDemoAddress(before[i].virt))
    {
      assert SlotOk(before[i], v, i);
    }
    PagerSideKeeps(c, v, w, keys, flat);
    forall d: nat, x: U32 | IsDir(w, d) && Aligned(x) && x < VMM_KERNEL_BASE && (d, x) !in flat ensures Lookup(w, d, x) == Empty {
      UnmappedByReset(before, flat, v, w, d, x);
    }
  }

  lemma {:induction false} UnmappedByReset(slots: seq<DemoSlot>, flat: Flat, v: Vm, w: Vm, d: nat, x: U32)
    requires NoStray(slots, flat, v, 0) && DemoKept(slots, v) && PagerSide(v, w, HeldKeys(slots, MEMDEMO_PAGE_COUNT))
    requires Unmapped(slots, w, MEMDEMO_PAGE_COUNT) && IsDir(w, d) && Aligned(x) && x < VMM_KERNEL_BASE && (d, x) !in flat
    ensures Lookup(w, d, x) == Empty
  {
    NoDirectoryZero(v);
    assert IsDir(v, d);
    if (d, x) in HeldKeys(slots, MEMDEMO_PAGE_COUNT) {
      var i :| 0 <= i < MEMDEMO_PAGE_COUNT && (d, x) == (slots[i].dir, slots[i].virt);
      assert SlotOk(slots[i], v, i);
    } else {
      NotHeldNotMapped(slots, d, x);
    }
  }

  lemma {:induction false} NotHeldNotMapped(slots: seq<DemoSlot>, d: nat, x: U32)
    requires |slots| == MEMDEMO_PAGE_COUNT && (d, x) !in HeldKeys(slots, MEMDEMO_PAGE_COUNT)
    ensures !DemoMaps(slots, d, x)
  {
    forall i: nat ensures !MapsSlot(slots, d, x, i) {
    }
  }

  lemma {:induction false} WorldAfterStore(spaces: seq<Space>, slots: seq<DemoSlot>, flat: Flat, newFlat: Flat, v: Vm)
    requires World(spaces, slots, flat, v) && newFlat.Keys == flat.Keys
    ensures World(spaces, slots, newFlat, v)
  {
    forall i | 0 <= i < PROCESS_MAX ensures KeysOf(spaces[i], newFlat) {
      assert KeysOf(spaces[i], flat);
    }
  }

  lemma {:induction false} UnregisteredIsNotPresent(c: Cache, v: Vm, flat: Flat, key: Key)
    requires Kept(c, v) && SameKeys(c.pages, flat) && key !in flat
    ensures !PresentKey(c.pages, key)
  {
    forall k: nat ensures !IsNowPresent(c.pages, key, k) {
      assert k < |c.pages| && c.pages[k].used ==> KeyOf(c.pages[k]) in flat;
    }
  }

  lemma {:induction false} SlotsShape(slots: seq<DemoSlot>, v: Vm)
    requires DemoKept(slots, v)
    ensures |slots| == MEMDEMO_PAGE_COUNT
    ensures forall i :: 0 <= i < MEMDEMO_PAGE_COUNT && slots[i].held ==> slots[i].virt == SlotVirt(i)
  {
    forall i | 0 <= i < MEMDEMO_PAGE_COUNT && slots[i].held ensures slots[i].virt == SlotVirt(i) {
      assert SlotOk(slots[i], v, i);
    }
  }

  /** The addresses a demo call maps or unmaps. */
  function DemoOpKeys(before: seq<DemoSlot>, op: DemoOp, page: U32, r: U32, current: nat): set<Key>
    requires r == 0 || page < MEMDEMO_PAGE_COUNT == |before|
  {
    if r == 0 || op == Touch || (op == Alloc && before[page].held) then {}
    else {(if op == Free then before[page].dir else current, SlotVirt(page))}
  }

  // ---- releasing a space ---------------------------------------------------------------------------

  /** `dir` is on its way out: from `v` only its own data pages, `gone`, were freed, and no
      other directory's mappings are stray. */
  ghost predicate Leaving(v: Vm, w: Vm, dir: nat, gone: set<nat>, slots: seq<DemoSlot>, flat: Flat) {
    && Released(v, w, gone) && NoStray(slots, flat, w, dir) && KeysApart(flat)
    && (forall f :: f in gone ==> f in v.owner && (v.owner[f].PagerFrame? || v.owner[f].DemoFrame?) && v.owner[f].dir == dir)
    && (forall d: nat :: IsDir(w, d) <==> IsDir(v, d))
  }

  lemma {:induction false} LeavingBegins(slots: seq<DemoSlot>, flat: Flat, v: Vm, w: Vm, dir: nat)
    requires NoStray(slots, flat, v, 0) && KeysApart(flat) && DemoKept(slots, v) && PagerSide(v, w, DemoKeys(dir))
    requires Released(v, w, SlotFrames(slots, dir, MEMDEMO_PAGE_COUNT))
    ensures Leaving(v, w, dir, SlotFrames(slots, dir, MEMDEMO_PAGE_COUNT), ClearedFor(slots, dir, MEMDEMO_PAGE_COUNT), flat)
    ensures DemoKeys(dir) !! flat.Keys
  {
    StrayAfterDemo(slots, flat, v, w, dir);
    SlotFramesAreDemos(slots, v, dir);
  }

  lemma {:induction false} LeavingGoesOn(v: Vm, u: Vm, w: Vm, dir: nat, gone: set<nat>, slots: seq<DemoSlot>, flat: Flat, c: Cache, x: U32)
    requires Leaving(v, u, dir, gone, slots, flat) && Kept(c, u) && SameKeys(c.pages, flat)
    requires OutsideKept(u, w, flat) && Released(u, w, FramesOfKey(c.pages, (dir, x)))
    requires (dir, x) in flat ==> EntryAt(w, (dir, x)) == Empty
    ensures Leaving(v, w, dir, gone + FramesOfKey(c.pages, (dir, x)), slots, flat - {(dir, x)})
  {
    var more := FramesOfKey(c.pages, (dir, x));
    StrayAfterForget(slots, flat, u, w, (dir, x), dir);
    ReleasedTwice(v, u, w, gone, more);
    forall f | f in more ensures f in v.owner && v.owner[f].PagerFrame? && v.owner[f].dir == dir {
      var k: nat :| k < |c.pages| && IsNowPresent(c.pages, (dir, x), k) && c.pages[k].frame == f;
      assert PageOk(c.pages[k], u, k);
    }
  }

  lemma {:induction false} LeavingEnds(v: Vm, w: Vm, dir: nat, gone: set<nat>, slots: seq<DemoSlot>, flat: Flat)
    requires Leaving(v, w, dir, gone, slots, flat)
    ensures Released(v, w, gone) && NoStray(slots, flat, w, dir) && KeysApart(flat) && w.kernel == v.kernel
    ensures forall f :: f in gone ==> f in v.owner && (v.owner[f].PagerFrame? || v.owner[f].DemoFrame?) && v.owner[f].dir == dir
    ensures forall d: nat :: IsDir(w, d) <==> IsDir(v, d)
  {
  }

  /** The addresses of a space, its virtual pages below the `n`th. */
  function VirtsBelow(s: Space, n: nat): set<U32>
    requires s.Space?
  {
    {PROCESS_USER_CODE_BASE, PROCESS_USER_STACK_PAGE}
    + set i: nat | i < n && i < PROCESS_USER_VM_PAGE_COUNT && i < |s.pages| && s.pages[i] :: VmVirt(i)
  }

  /** Flat memory without some addresses of a directory. */
  ghost function Without(flat: Flat, dir: nat, xs: set<U32>): Flat {
    map key | key in flat && !(key.0 == dir && key.1 in xs) :: flat[key]
  }

  lemma {:induction false} WithoutOneMore(flat: Flat, dir: nat, xs: set<U32>, x: U32)
    ensures Without(flat, dir, xs) - {(dir, x)} == Without(flat, dir, xs + {x})
  {
  }

  lemma {:induction false} NextVirt(s: Space, n: nat)
    requires s.Space? && n < |s.pages| == PROCESS_USER_VM_PAGE_COUNT
    ensures VirtsBelow(s, n + 1) == if s.pages[n] then VirtsBelow(s, n) + {VmVirt(n)} else VirtsBelow(s, n)
    ensures Aligned(VmVirt(n))
  {
  }

  lemma {:induction false} FirstVirts(s: Space, flat: Flat, dir: nat)
    requires s.Space?
    ensures Without(flat, dir, {PROCESS_USER_CODE_BASE, PROCESS_USER_STACK_PAGE}) == Without(flat, dir, VirtsBelow(s, 0))
    ensures flat - {(dir, PROCESS_USER_CODE_BASE)} - {(dir, PROCESS_USER_STACK_PAGE)}
         == Without(flat, dir, {PROCESS_USER_CODE_BASE, PROCESS_USER_STACK_PAGE})
    ensures VirtsBelow(s, PROCESS_USER_VM_PAGE_COUNT) == Virts(s)
    ensures Aligned(PROCESS_USER_CODE_BASE) && Aligned(PROCESS_USER_STACK_PAGE)
  {
  }

  /** With its demo slots cleared and its keys gone, a directory has no data pages. */
  lemma {:induction false} NoLeavesLeft(spaces: seq<Space>, before: seq<DemoSlot>, flat: Flat, v: Vm, i: nat, c: Cache, w: Vm)
    requires World(spaces, before, flat, v) && i < PROCESS_MAX && spaces[i].Space? && |before| == MEMDEMO_PAGE_COUNT
    requires var dir := spaces[i].dir;
             && Kept(c, w) && SameKeys(c.pages, Without(flat, dir, Virts(spaces[i])))
             && DemoKept(ClearedFor(before, dir, MEMDEMO_PAGE_COUNT), w)
    ensures var dir := spaces[i].dir;
            && (forall f: nat :: f in w.owner && (w.owner[f].PagerFrame? || w.owner[f].DemoFrame?) ==> w.owner[f].dir != dir)
            && (forall key :: key in Without(flat, dir, Virts(spaces[i])) ==> key.0 != dir)
            && (forall j :: 0 <= j < MEMDEMO_PAGE_COUNT && ClearedFor(before, dir, MEMDEMO_PAGE_COUNT)[j].held ==>
                  ClearedFor(before, dir, MEMDEMO_PAGE_COUNT)[j].dir != dir)
  {
    var dir, left := spaces[i].dir, Without(flat, spaces[i].dir, Virts(spaces[i]));
    var slots := ClearedFor(before, dir, MEMDEMO_PAGE_COUNT);
    assert KeysOf(spaces[i], flat);
    forall key | key in left ensures key.0 != dir {
      assert (dir, key.1) in flat <==> key.1 in Virts(spaces[i]);
    }
    forall f: nat | f in w.owner && (w.owner[f].PagerFrame? || w.owner[f].DemoFrame?) ensures w.owner[f].dir != dir {
      assert FrameUsed(c.pages, w, f) && FrameSlotted(slots, w, f);
      if w.owner[f].PagerFrame? {
        var k := w.owner[f].page;
        assert PageOk(c.pages[k], w, k) && KeyOf(c.pages[k]) in left;
      }
    }
  }

  lemma {:induction false} WorldAfterRelease(spaces: seq<Space>, before: seq<DemoSlot>, flat: Flat, v: Vm, i: nat, u: Vm, w: Vm)
    requires World(spaces, before, flat, v) && i < PROCESS_MAX && spaces[i].Space? && |before| == MEMDEMO_PAGE_COUNT
    requires var dir, left := spaces[i].dir, Without(flat, spaces[i].dir, Virts(spaces[i]));
             && NoStray(ClearedFor(before, dir, MEMDEMO_PAGE_COUNT), left, u, dir) && KeysApart(left)
             && (forall d: nat :: IsDir(u, d) <==> IsDir(v, d)) && u.kernel == v.kernel
             && Sound(w) && SameLookups(u, w) && w.kernel == u.kernel && forall d: nat :: IsDir(w, d) <==> IsDir(u, d) && d != dir
    ensures var dir, left := spaces[i].dir, Without(flat, spaces[i].dir, Virts(spaces[i]));
            World(spaces[i := NoSpace], ClearedFor(before, dir, MEMDEMO_PAGE_COUNT), left, w)
  {
    var dir, left := spaces[i].dir, Without(flat, spaces[i].dir, Virts(spaces[i]));
    var after := spaces[i := NoSpace];
    StrayAfterDestroy(ClearedFor(before, dir, MEMDEMO_PAGE_COUNT), left, u, w, dir);
    forall d: nat | IsDir(w, d) && d != w.kernel ensures HasSpace(after, d) {
      assert HasSpace(spaces, d);
      var j :| 0 <= j < PROCESS_MAX && spaces[j].Space? && spaces[j].dir == d;
      assert after[j].Space? && after[j].dir == d;
    }
    forall j | 0 <= j < PROCESS_MAX ensures KeysOf(after[j], left) {
      assert KeysOf(spaces[j], flat);
      assert after[j].Space? ==> after[j].dir != dir;
    }
  }

  // ---- spawning ---------------------------------------------------------------------------------------

  /** `w` is `v` with one new directory `dir` and nothing in it. */
  ghost predicate DirectoryMade(v: Vm, w: Vm, dir: nat) {
    && Sound(v) && Sound(w) && dir !in v.owner && w.owner == v.owner[dir := Directory] && SameLookups(v, w)
    && dir < |v.used| && !v.used[dir] && w.used == v.used[dir := true] && w.reserved == v.reserved
    && |w.frames| == |v.frames| && w.kernel == v.kernel && IsDir(w, dir)
    && (forall d: nat :: IsDir(w, d) <==> IsDir(v, d) || d == dir)
    && (forall f: nat :: IsLeaf(v, f) ==> SameFrame(v, w, f))
    && (forall x: U32 :: Aligned(x) && x < VMM_KERNEL_BASE ==> Lookup(w, dir, x) == Empty)
  }

  lemma {:induction false} NobodyKnows(c: Cache, slots: seq<DemoSlot>, flat: Flat, v: Vm, dir: nat)
    requires Kept(c, v) && SameKeys(c.pages, flat) && DemoKept(slots, v) && !IsDir(v, dir)
    ensures forall key :: key in flat ==> key.0 != dir
    ensures forall j :: 0 <= j < MEMDEMO_PAGE_COUNT && slots[j].held ==> slots[j].dir != dir
  {
    forall key | key in flat ensures key.0 != dir {
      var k := KeyHasPage(c, v, flat, key);
    }
    forall j | 0 <= j < MEMDEMO_PAGE_COUNT && slots[j].held ensures slots[j].dir != dir {
      assert SlotOk(slots[j], v, j);
    }
  }

  lemma {:induction false} MadeKeeps(spaces: seq<Space>, slots: seq<DemoSlot>, flat: Flat, v: Vm, w: Vm, dir: nat, c: Cache)
    requires World(spaces, slots, flat, v) && Kept(c, v) && SameKeys(c.pages, flat) && DemoKept(slots, v) && DirectoryMade(v, w, dir)
    ensures Kept(c, w) && DemoKept(slots, w) && (Agrees(c, v, flat) ==> Agrees(c, w, flat)) && DirChanged(v, w, dir)
    ensures NoStray(slots, flat, w, 0) && KeysApart(flat) && dir != 0 && dir != w.kernel
    ensures forall key :: key in flat ==> key.0 != dir
    ensures forall j :: 0 <= j < MEMDEMO_PAGE_COUNT && slots[j].held ==> slots[j].dir != dir
    ensures forall x: U32 :: Aligned(x) && x < VMM_KERNEL_BASE ==> EntryAt(w, (dir, x)) == Empty
  {
    CreatedIsChanged(v, w, dir);
    NobodyKnows(c, slots, flat, v, dir);
    PagerSurvives(c, v, w, dir, flat);
    DemoSurvives(slots, v, w, dir);
    NoDirectoryZero(w);
  }

  const NO_PAGES: seq<bool> := seq(PROCESS_USER_VM_PAGE_COUNT, _ => false)

  lemma {:induction false} SpawnedWorld(spaces: seq<Space>, slots: seq<DemoSlot>, flat: Flat, v: Vm, w: Vm, i: nat, dir: nat,
                                        code: seq<Byte>, stack: seq<Byte>)
    requires World(spaces, slots, flat, v) && DirectoryMade(v, w, dir) && NoStray(slots, flat, w, 0) && dir != w.kernel
    requires i < PROCESS_MAX && spaces[i].NoSpace? && forall key :: key in flat ==> key.0 != dir
    ensures World(spaces[i := Space(dir, NO_PAGES)], slots,
                  flat[(dir, PROCESS_USER_CODE_BASE) := code][(dir, PROCESS_USER_STACK_PAGE) := stack], w)
    ensures |spaces| == PROCESS_MAX && dir !in v.owner && w.owner == v.owner[dir := Directory]
  {
    var after := spaces[i := Space(dir, NO_PAGES)];
    var newFlat := flat[(dir, PROCESS_USER_CODE_BASE) := code][(dir, PROCESS_USER_STACK_PAGE) := stack];
    assert Virts(after[i]) == {PROCESS_USER_CODE_BASE, PROCESS_USER_STACK_PAGE};
    forall d: nat | IsDir(w, d) && d != w.kernel ensures HasSpace(after, d) {
      if d == dir {
        assert after[i].Space? && after[i].dir == d;
      } else {
        assert HasSpace(spaces, d);
        var j :| 0 <= j < PROCESS_MAX && spaces[j].Space? && spaces[j].dir == d;
        assert after[j].Space? && after[j].dir == d;
      }
    }
    forall j | 0 <= j < PROCESS_MAX ensures KeysOf(after[j], newFlat) {
      assert KeysOf(spaces[j], flat);
      if j != i && spaces[j].Space? {
        assert IsDir(v, spaces[j].dir) && spaces[j].dir != dir;
      }
    }
  }

  /** The new directory given back: everything is owned and free as before. */
  /** The code page starts with the image; the rest of it, and the stack page, are zeros. */
  lemma {:induction false} StartBytes(flat: Flat, dir: nat, image: seq<Byte>)
    requires |image| <= PAGE_SIZE
    ensures var after := flat[(dir, PROCESS_USER_CODE_BASE) := Padded(image)][(dir, PROCESS_USER_STACK_PAGE) := Padded([])];
            forall k: nat :: k < PAGE_SIZE ==>
              HoldsByte(after, (dir, PROCESS_USER_CODE_BASE), k, if k < |image| then image[k] else 0)
              && HoldsByte(after, (dir, PROCESS_USER_STACK_PAGE), k, 0)
  {
    var after := flat[(dir, PROCESS_USER_CODE_BASE) := Padded(image)][(dir, PROCESS_USER_STACK_PAGE) := Padded([])];
    assert after[(dir, PROCESS_USER_CODE_BASE)] == Padded(image) && after[(dir, PROCESS_USER_STACK_PAGE)] == Padded([]);
    forall k: nat | k < PAGE_SIZE
      ensures HoldsByte(after, (dir, PROCESS_USER_CODE_BASE), k, if k < |image| then image[k] else 0)
              && HoldsByte(after, (dir, PROCESS_USER_STACK_PAGE), k, 0)
    {
      assert Padded(image)[k] == (if k < |image| then image[k] else 0) && Padded([])[k] == 0;
    }
  }

  lemma {:induction false} UnmadeWorld(spaces: seq<Space>, slots: seq<DemoSlot>, flat: Flat, v: Vm, w: Vm, x: Vm, dir: nat)
    requires World(spaces, slots, flat, v) && DirectoryMade(v, w, dir) && Released(w, x, {dir}) && NoStray(slots, flat, x, 0)
    requires forall d: nat :: IsDir(x, d) <==> IsDir(v, d)
    ensures World(spaces, slots, flat, x) && x.owner == v.owner && x.used == v.used
  {
  }

  lemma {:induction false} MadeDirs(v: Vm, w: Vm, dir: nat)
    requires DirectoryMade(v, w, dir)
    ensures Sound(w) && IsDir(w, dir) && !IsDir(v, dir) && forall d: nat :: IsDir(w, d) <==> IsDir(v, d) || d == dir
  {
  }

  /** A directory just made is nothing but its own page. */
  lemma {:induction false} MadeIsBare(v: Vm, w: Vm, u: Vm, dir: nat)
    requires DirectoryMade(v, w, dir) && Released(w, u, {}) && Sound(u)
    ensures StructureOf(u, dir) == {dir}
  {
    forall f | f in u.owner ensures !(u.owner[f].Table? && u.owner[f].dir == dir) {
      assert f != dir ==> f in v.owner && FrameOk(v, f);
    }
  }

  /** The half-made space can leave like a finished one; it holds no data page. */
  lemma {:induction false} HalfMadeLeaves(b: Cache, slots: seq<DemoSlot>, flat: Flat, more: Flat, v: Vm, w: Vm, u: Vm, dir: nat, c: Cache)
    requires Kept(b, v) && DirectoryMade(v, w, dir) && Kept(c, w) && SameKeys(c.pages, more) && DemoKept(slots, w)
    requires NoStray(slots, flat, w, 0) && KeysApart(flat) && more - {(dir, PROCESS_USER_CODE_BASE)} == flat
    requires forall j :: 0 <= j < MEMDEMO_PAGE_COUNT && slots[j].held ==> slots[j].dir != dir
    requires PagerSide(w, u, DemoKeys(dir)) && Released(w, u, SlotFrames(slots, dir, MEMDEMO_PAGE_COUNT))
    ensures ClearedFor(slots, dir, MEMDEMO_PAGE_COUNT) == slots && Leaving(w, u, dir, {}, slots, more)
    ensures Kept(c, u) && (Agrees(c, w, more) ==> Agrees(c, u, more)) && forall key :: key in DemoKeys(dir) ==> key !in more
  {
    forall key | key in more ensures !IsDemoAddress(key.1) {
      assert key in flat || key == (dir, PROCESS_USER_CODE_BASE);
    }
    assert NoStray(slots, more, w, 0);
    assert ClearedFor(slots, dir, MEMDEMO_PAGE_COUNT) == slots;
    assert SlotFrames(slots, dir, MEMDEMO_PAGE_COUNT) == {};
    LeavingBegins(slots, more, w, u, dir);
    PagerSideKeeps(c, w, u, DemoKeys(dir), more);
  }

  lemma {:induction false} NothingWasHeld(b: Cache, v: Vm, w: Vm, u: Vm, dir: nat, gone: set<nat>, slots: seq<DemoSlot>, flat: Flat)
    requires Kept(b, v) && DirectoryMade(v, w, dir) && Leaving(w, u, dir, gone, slots, flat) && DemoKept(slots, w)
    requires forall j :: 0 <= j < MEMDEMO_PAGE_COUNT && slots[j].held ==> slots[j].dir != dir
    ensures gone == {} && Released(w, u, {}) && NoStray(slots, flat, u, dir)
  {
    forall f: nat ensures f !in gone {
      assert FrameUsed(b.pages, v, f) && FrameSlotted(slots, w, f);
      assert f in v.owner && v.owner[f].PagerFrame? ==> PageOk(b.pages[v.owner[f].page], v, v.owner[f].page);
    }
    assert gone == {};
  }

  lemma {:induction false} StrayAnyway(slots: seq<DemoSlot>, flat: Flat, v: Vm, dir: nat)
    requires NoStray(slots, flat, v, 0)
    ensures NoStray(slots, flat, v, dir) && Released(v, v, {})
  {
    NoDirectoryZero(v);
    ReleasedNone(v);
  }

  /** Every page registered under a key is pinned. */
  ghost predicate PinnedKey(pages: seq<PagerPage>, key: Key) {
    forall k :: 0 <= k < |pages| && pages[k].used && KeyOf(pages[k]) == key ==> pages[k].pinned
  }

  lemma {:induction false} StaysPinned(p: seq<PagerPage>, q: seq<PagerPage>, key: Key, other: Key)
    requires PinnedKey(p, key) && OnlyKeyChanged(p, q, other) && key != other
    ensures PinnedKey(q, key)
  {
  }

  // ---- nothing leaks --------------------------------------------------------------------------

  /** Memory when the address spaces began: its pages, the kernel's own, and the managed ones
      that are not the kernel's. */
  datatype Booted = Booted(pages: nat, owner: map<nat, Owner>, free: set<nat>)

  ghost function BootedAs(v: Vm, pool: set<nat>): Booted {
    Booted(|v.frames|, KernelPages(v), set f: nat | f in pool && f < |v.frames| && f !in KernelPages(v))
  }

  /** The kernel's directory and tables. */
  ghost function KernelPages(v: Vm): map<nat, Owner> {
    map f | f in v.owner && OfKernel(v, f) :: v.owner[f]
  }

  ghost function FreeSet(v: Vm): set<nat> {
    set f: nat | f < |v.used| && !v.used[f]
  }

  /** The one table the kernel's directory may gain: that of the demo addresses. */
  ghost function DemoTable(v: Vm): Owner {
    Table(v.kernel, DirectoryIndex(MEMDEMO_USER_BASE))
  }

  /** The kernel has the directory and tables it booted with, and at most the demo table. */
  ghost predicate BootKept(boot: Booted, v: Vm) {
    && |v.frames| == boot.pages
    && (forall f :: f in boot.owner ==> OfKernel(v, f) && v.owner[f] == boot.owner[f])
    && (forall f: nat :: OfKernel(v, f) ==> f in boot.owner || v.owner[f] == DemoTable(v))
  }

  /** The pages managed since boot: those free then and those the kernel had. */
  ghost predicate BootPool(boot: Booted, pool: set<nat>) {
    && boot.free !! boot.owner.Keys && (forall f :: f in boot.free ==> f < boot.pages)
    && forall f: nat :: f < boot.pages ==> (f in pool <==> f in boot.free || f in boot.owner)
  }

  /** What the pager and the demo do for keys that are not the kernel's, or demo addresses. */
  lemma {:induction false} BootStays(boot: Booted, v: Vm, w: Vm, keys: set<Key>)
    requires BootKept(boot, v) && KernelGrows(v, w, keys)
    requires forall key :: key in keys ==> key.0 != v.kernel || IsDemoAddress(key.1)
    ensures BootKept(boot, w)
  {
    forall f: nat | OfKernel(w, f) ensures f in boot.owner || w.owner[f] == DemoTable(w) {
      if !(f in v.owner && v.owner[f] == w.owner[f]) {
        var key :| key in keys && key.0 == w.kernel && w.owner[f] == Table(key.0, DirectoryIndex(key.1));
        assert IsDemoAddress(key.1);
      }
    }
  }

  /** The kernel itself has used no demo page: it has no table more than at boot. */
  ghost predicate KernelApart(boot: Booted, slots: seq<DemoSlot>, v: Vm) {
    && (forall f: nat :: OfKernel(v, f) ==> f in boot.owner)
    && (forall j :: 0 <= j < |slots| && slots[j].held ==> slots[j].dir != v.kernel)
  }

  lemma {:induction false} ApartStays(boot: Booted, slots: seq<DemoSlot>, v: Vm, after: seq<DemoSlot>, w: Vm, keys: set<Key>)
    requires KernelApart(boot, slots, v) && KernelGrows(v, w, keys) && forall key :: key in keys ==> key.0 != v.kernel
    requires forall j :: 0 <= j < |after| && after[j].held ==> after[j].dir != v.kernel
    ensures KernelApart(boot, after, w)
  {
    forall f: nat | OfKernel(w, f) ensures f in boot.owner {
      assert !TableOfKey(w, f, keys);
    }
  }

  lemma {:induction false} ApartAfterPager(boot: Booted, spaces: seq<Space>, slots: seq<DemoSlot>, flat: Flat, v: Vm, w: Vm)
    requires World(spaces, slots, flat, v) && OutsideKept(v, w, flat)
    ensures KernelApart(boot, slots, v) ==> KernelApart(boot, slots, w)
  {
    if KernelApart(boot, slots, v) {
      ApartStays(boot, slots, v, slots, w, flat.Keys);
    }
  }

  lemma {:induction false} ApartAfterSide(boot: Booted, slots: seq<DemoSlot>, v: Vm, after: seq<DemoSlot>, w: Vm, keys: set<Key>)
    requires PagerSide(v, w, keys)
    requires KernelApart(boot, slots, v) ==> forall key :: key in keys ==> key.0 != v.kernel
    requires KernelApart(boot, slots, v) ==> forall j :: 0 <= j < |after| && after[j].held ==> after[j].dir != v.kernel
    ensures KernelApart(boot, slots, v) ==> KernelApart(boot, after, w)
  {
    if KernelApart(boot, slots, v) {
      ApartStays(boot, slots, v, after, w, keys);
    }
  }

  lemma {:induction false} ApartAfterRelease(boot: Booted, slots: seq<DemoSlot>, v: Vm, w: Vm, gone: set<nat>, dir: nat)
    requires |slots| == MEMDEMO_PAGE_COUNT && Released(v, w, gone)
    ensures KernelApart(boot, slots, v) ==> KernelApart(boot, ClearedFor(slots, dir, MEMDEMO_PAGE_COUNT), w)
  {
    if KernelApart(boot, slots, v) {
      forall f: nat | OfKernel(w, f) ensures OfKernel(v, f) {
      }
    }
  }

  lemma {:induction false} ApartAfterReset(boot: Booted, slots: seq<DemoSlot>, v: Vm, after: seq<DemoSlot>, w: Vm)
    requires DemoKept(slots, v) && PagerSide(v, w, HeldKeys(slots, MEMDEMO_PAGE_COUNT)) && forall j :: 0 <= j < |after| ==> after[j] == CLEAR
    ensures KernelApart(boot, slots, v) ==> KernelApart(boot, after, w)
  {
    if KernelApart(boot, slots, v) {
      NoDirectoryZero(v);
      forall j | 0 <= j < MEMDEMO_PAGE_COUNT ensures slots[j].dir != v.kernel {
        assert SlotOk(slots[j], v, j);
      }
      ApartStays(boot, slots, v, after, w, HeldKeys(slots, MEMDEMO_PAGE_COUNT));
    }
  }

  lemma {:induction false} ApartAfterMade(boot: Booted, slots: seq<DemoSlot>, v: Vm, w: Vm, dir: nat)
    requires DirectoryMade(v, w, dir) && dir != v.kernel
    ensures KernelApart(boot, slots, v) ==> KernelApart(boot, slots, w)
  {
    forall f: nat | OfKernel(w, f) ensures OfKernel(v, f) {
    }
  }

  lemma {:induction false} ApartAfterUnmade(boot: Booted, slots: seq<DemoSlot>, v: Vm, w: Vm, x: Vm, dir: nat)
    requires DirectoryMade(v, w, dir) && Released(w, x, {dir}) && dir != v.kernel
    ensures KernelApart(boot, slots, v) ==> KernelApart(boot, slots, x)
  {
    ApartAfterMade(boot, slots, v, w, dir);
    forall f: nat | OfKernel(x, f) ensures OfKernel(w, f) {
    }
  }

  /** Then everything not the kernel's at boot is free again, if nobody else owns a page. */
  lemma {:induction false} ApartGivesAllBack(boot: Booted, slots: seq<DemoSlot>, v: Vm, pool: set<nat>)
    requires KernelApart(boot, slots, v) && BootPool(boot, pool)
    ensures boot.free - KernelPages(v).Keys == boot.free
  {
  }

  lemma {:induction false} BootAfterPager(boot: Booted, spaces: seq<Space>, slots: seq<DemoSlot>, flat: Flat, v: Vm, w: Vm)
    requires World(spaces, slots, flat, v) && BootKept(boot, v) && OutsideKept(v, w, flat)
    ensures BootKept(boot, w)
  {
    BootStays(boot, v, w, flat.Keys);
  }

  lemma {:induction false} BootStaysAside(boot: Booted, v: Vm, w: Vm, keys: set<Key>)
    requires BootKept(boot, v) && PagerSide(v, w, keys) && forall key :: key in keys ==> key.0 != v.kernel || IsDemoAddress(key.1)
    ensures BootKept(boot, w)
  {
    BootStays(boot, v, w, keys);
  }

  lemma {:induction false} BootAfterDemo(boot: Booted, v: Vm, w: Vm, keys: set<Key>)
    requires BootKept(boot, v) && PagerSide(v, w, keys) && forall key :: key in keys ==> IsDemoAddress(key.1)
    ensures BootKept(boot, w)
  {
    BootStaysAside(boot, v, w, keys);
  }

  lemma {:induction false} BootBegins(v: Vm, pool: set<nat>)
    requires Sound(v) && Conserved(v, pool)
    ensures BootKept(BootedAs(v, pool), v) && BootPool(BootedAs(v, pool), pool)
  {
    forall f: nat | f in v.owner ensures f < |v.frames| {
      assert FrameOk(v, f);
    }
  }

  /** The space of a process goes. */
  lemma {:induction false} BootAfterRelease(boot: Booted, spaces: seq<Space>, slots: seq<DemoSlot>, flat: Flat, v: Vm, i: nat, w: Vm)
    requires World(spaces, slots, flat, v) && i < PROCESS_MAX && spaces[i].Space?
    requires BootKept(boot, v) && Released(v, w, SpaceOf(v, spaces[i].dir))
    ensures BootKept(boot, w)
  {
  }

  lemma {:induction false} BootAfterMade(boot: Booted, v: Vm, w: Vm, dir: nat)
    requires BootKept(boot, v) && DirectoryMade(v, w, dir)
    ensures BootKept(boot, w)
  {
    hide FrameOk, SameLookups, IsLeaf, EntryOk;
  }

  lemma {:induction false} BootAfterUnmade(boot: Booted, v: Vm, w: Vm, x: Vm, dir: nat)
    requires BootKept(boot, v) && DirectoryMade(v, w, dir) && Released(w, x, {dir})
    ensures BootKept(boot, x)
  {
    hide FrameOk, SameLookups, IsLeaf, EntryOk;
  }

  /** Without spaces and without demo pages, all that is owned is the kernel's. */
  lemma {:induction false} OnlyKernelOwns(spaces: seq<Space>, slots: seq<DemoSlot>, flat: Flat, c: Cache, v: Vm)
    requires World(spaces, slots, flat, v) && Kept(c, v) && SameKeys(c.pages, flat) && DemoKept(slots, v)
    requires forall i :: 0 <= i < PROCESS_MAX ==> spaces[i].NoSpace?
    requires forall i :: 0 <= i < MEMDEMO_PAGE_COUNT ==> !slots[i].held
    ensures flat.Keys == {} && forall f: nat :: f in v.owner ==> OfKernel(v, f)
  {
    hide NoStray, KeysApart;
    forall key | key in flat ensures IsDir(v, key.0) && key.0 != v.kernel {
      var k := KeyHasPage(c, v, flat, key);
    }
    forall f: nat | f in v.owner ensures OfKernel(v, f) {
      assert FrameOk(v, f) && FrameUsed(c.pages, v, f) && FrameSlotted(slots, v, f);
      assert v.owner[f].Directory? && f != v.kernel ==> IsDir(v, f) && HasSpace(spaces, f);
      assert v.owner[f].Table? && v.owner[f].dir != v.kernel ==> HasSpace(spaces, v.owner[f].dir);
      assert v.owner[f].PagerFrame? ==> PageOk(c.pages[v.owner[f].page], v, v.owner[f].page);
    }
  }

  /** Then the pages free are those that were free at boot, but for the kernel's demo table. */
  lemma {:induction false} AllGivenBack(boot: Booted, v: Vm, pool: set<nat>)
    requires Sound(v) && Conserved(v, pool) && BootKept(boot, v) && BootPool(boot, pool)
    requires forall f: nat :: f in v.owner ==> OfKernel(v, f)
    ensures FreeSet(v) == boot.free - KernelPages(v).Keys
    ensures FreeSet(v) != boot.free ==> HasTable(v, v.kernel, MEMDEMO_USER_BASE)
    ensures |FreeSet(v)| == |boot.free| - if FreeSet(v) != boot.free then 1 else 0
  {
    forall f: nat | f in v.owner ensures f < |v.frames| && v.used[f] && (v.owner[f] == DemoTable(v) ==> HasTable(v, v.kernel, MEMDEMO_USER_BASE)) {
      assert FrameOk(v, f);
    }
    forall f: nat ensures f in FreeSet(v) <==> f in boot.free && f !in KernelPages(v) {
      assert f in v.owner <==> f in KernelPages(v);
    }
    if FreeSet(v) != boot.free {
      var f :| f in boot.free && f in KernelPages(v);
      forall g | g in boot.free && g in KernelPages(v) ensures g == f {
        OneTableOnly(v, f, g);
      }
      assert FreeSet(v) == boot.free - {f};
    }
  }

  /** No two tables of a directory serve the same addresses. */
  lemma {:induction false} OneTableOnly(v: Vm, f: nat, g: nat)
    requires Sound(v) && f in v.owner && g in v.owner && v.owner[f] == v.owner[g] && v.owner[f].Table?
    ensures f == g
  {
    assert FrameOk(v, f) && FrameOk(v, g);
  }
}
