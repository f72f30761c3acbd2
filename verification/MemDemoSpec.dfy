/** The memory demo's slots: what ties them to the page tables, and what taking and
    freeing one does to memory. */
module MemDemoSpec {
  import opened Machine
  import opened PmmSpec
  import opened VmmSpec
  import opened PagerSpec
  import opened PagerSteps

  const MEMDEMO_PAGE_COUNT: nat := 8
  const MEMDEMO_EVENT_COUNT: nat := 8
  const MEMDEMO_USER_BASE: U32 := 0x0200_0000

  datatype DemoOp = Alloc | Free | Touch | Unknown

  datatype DemoSlot = DemoSlot(held: bool, dir: nat, virt: U32, frame: nat)

  const CLEAR := DemoSlot(false, 0, 0, 0)

  function SlotVirt(i: nat): U32
    requires i < MEMDEMO_PAGE_COUNT
  {
    MEMDEMO_USER_BASE + PAGE_SIZE * i
  }

  function ZeroPage(): (bytes: seq<Byte>)
    ensures |bytes| == PAGE_SIZE && forall i :: 0 <= i < PAGE_SIZE ==> bytes[i] == 0
  {
    seq(PAGE_SIZE, _ => 0)
  }

  /** A slot's page is mapped in its directory, open to user code, and owned by the slot. */
  ghost predicate SlotOk(s: DemoSlot, v: Vm, i: nat)
    requires Sound(v) && i < MEMDEMO_PAGE_COUNT
  {
    if s.held then
      && IsDir(v, s.dir) && s.virt == SlotVirt(i) && Aligned(s.virt) && s.virt < VMM_KERNEL_BASE
      && s.frame in v.owner && v.owner[s.frame] == DemoFrame(s.dir, i) && IsPageAt(v, s.frame)
      && MayAccess(Lookup(v, s.dir, s.virt), true) && Lookup(v, s.dir, s.virt).frame == s.frame
    else s == CLEAR
  }

  ghost predicate FrameSlotted(slots: seq<DemoSlot>, v: Vm, f: nat) {
    f in v.owner && v.owner[f].DemoFrame? ==>
      var i := v.owner[f].slot;
      i < |slots| && slots[i].held && slots[i].frame == f && slots[i].dir == v.owner[f].dir
  }

  ghost predicate DemoKept(slots: seq<DemoSlot>, v: Vm) {
    && |slots| == MEMDEMO_PAGE_COUNT && Sound(v)
    && (forall i :: 0 <= i < MEMDEMO_PAGE_COUNT ==> SlotOk(slots[i], v, i))
    && (forall f: nat :: FrameSlotted(slots, v, f))
  }

  /** What the pager sees: the directories, its frames, and every mapping but those of
      `keys` are as before. */
  ghost predicate PagerSide(v: Vm, w: Vm, keys: set<Key>) {
    && Sound(v) && Sound(w) && w.kernel == v.kernel && |w.frames| == |v.frames| && KernelGrows(v, w, keys)
    && (forall d: nat :: IsDir(w, d) <==> IsDir(v, d))
    && (forall f: nat :: f in v.owner && v.owner[f].PagerFrame? ==> f in w.owner && w.owner[f] == v.owner[f] && SameFrame(v, w, f))
    && (forall f: nat :: f in w.owner && w.owner[f].PagerFrame? ==> f in v.owner && v.owner[f] == w.owner[f])
    && (forall d: nat, x: U32 :: IsDir(v, d) && Aligned(x) && x < VMM_KERNEL_BASE && (d, x) !in keys ==>
          Lookup(w, d, x) == Lookup(v, d, x))
  }

  /** The pager survives a change of a mapping that is not its own. */
  lemma {:induction false} PagerSideKeeps(c: Cache, v: Vm, w: Vm, keys: set<Key>, flat: Flat)
    requires Kept(c, v) && SameKeys(c.pages, flat) && PagerSide(v, w, keys) && keys !! flat.Keys
    ensures Kept(c, w) && (Agrees(c, v, flat) ==> Agrees(c, w, flat))
  {
    forall k | 0 <= k < PAGER_MAX_PAGES && c.pages[k].used ensures PageOk(c.pages[k], v, k) && SeesNoChange(c.pages[k], v, w) {
      assert PageOk(c.pages[k], v, k);
      assert KeyOf(c.pages[k]) in flat;
    }
    StillKept(c, v, w);
  }

  /** The demo survives whatever is not its own. */
  lemma {:induction false} OutsideKeepsDemo(slots: seq<DemoSlot>, v: Vm, w: Vm, flat: Flat)
    requires DemoKept(slots, v) && OutsideKept(v, w, flat)
    requires forall i :: 0 <= i < MEMDEMO_PAGE_COUNT && slots[i].held ==> (slots[i].dir, slots[i].virt) !in flat
    ensures DemoKept(slots, w)
  {
    forall i | 0 <= i < MEMDEMO_PAGE_COUNT ensures SlotOk(slots[i], w, i) {
      assert SlotOk(slots[i], v, i);
    }
    forall f: nat ensures FrameSlotted(slots, w, f) {
      assert FrameSlotted(slots, v, f);
    }
  }

  lemma {:induction false} HeldHasPage(slots: seq<DemoSlot>, v: Vm, i: nat)
    requires DemoKept(slots, v) && i < MEMDEMO_PAGE_COUNT && slots[i].held
    ensures SlotOk(slots[i], v, i) && IsDir(v, slots[i].dir) && slots[i].dir != 0 && IsLeaf(v, slots[i].frame)
    ensures Aligned(slots[i].virt) && Lookup(v, slots[i].dir, slots[i].virt).Entry?
  {
    assert SlotOk(slots[i], v, i);
    NoDirectoryZero(v);
  }

  lemma {:induction false} LeafKeeps(v: Vm, u: Vm, dir: nat, virt: U32, f: nat)
    requires Sound(v) && Sound(u) && IsDir(v, dir) && Remapped(v, u, dir, virt, Empty) && IsLeaf(v, f)
    ensures IsLeaf(u, f) && f < |u.used|
  {
    assert SameFrame(v, u, f);
  }

  // ---- freeing a slot --------------------------------------------------------------------------

  /** Slot `i`'s page unmapped (`u`) and its frame freed (`w`). */
  ghost predicate SlotGivenBack(slots: seq<DemoSlot>, v: Vm, u: Vm, w: Vm, i: nat)
    requires DemoKept(slots, v) && i < MEMDEMO_PAGE_COUNT && slots[i].held && SlotOk(slots[i], v, i)
  {
    var s := slots[i];
    && Sound(u) && Sound(w) && Remapped(v, u, s.dir, s.virt, Empty) && u.owner == v.owner && u.used == v.used
    && s.frame < |u.used| && w == Drop(u, s.frame) && LeavesOnly(u, w) && SameLookups(u, w)
    && forall d: nat :: IsDir(w, d) <==> IsDir(u, d)
  }

  lemma {:induction false} SlotFreed(slots: seq<DemoSlot>, v: Vm, u: Vm, w: Vm, i: nat)
    requires DemoKept(slots, v) && i < MEMDEMO_PAGE_COUNT && slots[i].held && SlotOk(slots[i], v, i)
    requires SlotGivenBack(slots, v, u, w, i)
    ensures DemoKept(slots[i := CLEAR], w)
  {
    var s, after := slots[i], slots[i := CLEAR];
    forall j | 0 <= j < MEMDEMO_PAGE_COUNT && j != i ensures SlotOk(slots[j], w, j) {
      assert SlotOk(slots[j], v, j);
      if slots[j].held {
        assert IsLeaf(v, slots[j].frame) && SameFrame(v, u, slots[j].frame);
        assert IsDir(u, slots[j].dir) && Elsewhere(slots[j].dir, slots[j].virt, s.dir, s.virt);
      }
    }
    SlotFreedFrames(slots, v, u, w, i);
  }

  lemma {:induction false} SlotFreedFrames(slots: seq<DemoSlot>, v: Vm, u: Vm, w: Vm, i: nat)
    requires DemoKept(slots, v) && i < MEMDEMO_PAGE_COUNT && slots[i].held && SlotOk(slots[i], v, i)
    requires SlotGivenBack(slots, v, u, w, i)
    ensures var after := slots[i := CLEAR]; forall f: nat :: FrameSlotted(after, w, f)
  {
    var after := slots[i := CLEAR];
    forall f: nat ensures FrameSlotted(after, w, f) {
      assert FrameSlotted(slots, v, f);
    }
  }

  lemma {:induction false} SlotFreedSide(slots: seq<DemoSlot>, v: Vm, u: Vm, w: Vm, i: nat)
    requires DemoKept(slots, v) && i < MEMDEMO_PAGE_COUNT && slots[i].held && SlotOk(slots[i], v, i)
    requires SlotGivenBack(slots, v, u, w, i)
    ensures PagerSide(v, w, {(slots[i].dir, slots[i].virt)}) && EntryAt(w, (slots[i].dir, slots[i].virt)) == Empty
  {
    hide FrameOk, EntryOk, FrameSlotted, LeavesOnly;
    var s := slots[i];
    forall f: nat | f in v.owner && v.owner[f].PagerFrame? ensures f in w.owner && w.owner[f] == v.owner[f] && SameFrame(v, w, f) {
      assert IsLeaf(v, f) && SameFrame(v, u, f);
    }
    forall d: nat, x: U32 | IsDir(v, d) && Aligned(x) && x < VMM_KERNEL_BASE && (d, x) != (s.dir, s.virt)
      ensures Lookup(w, d, x) == Lookup(v, d, x)
    {
      assert IsDir(u, d) && Elsewhere(d, x, s.dir, s.virt);
    }
    assert IsDir(u, s.dir);
  }

  lemma {:induction false} SlotFreedReleases(slots: seq<DemoSlot>, v: Vm, u: Vm, w: Vm, i: nat)
    requires DemoKept(slots, v) && i < MEMDEMO_PAGE_COUNT && slots[i].held && SlotOk(slots[i], v, i)
    requires SlotGivenBack(slots, v, u, w, i)
    ensures Released(v, w, {slots[i].frame})
  {
    forall f: nat | IsLeaf(w, f) && f < |v.frames| ensures SameFrame(v, w, f) {
      assert IsLeaf(v, f) && SameFrame(v, u, f);
    }
  }

  // ---- taking a slot --------------------------------------------------------------------------

  /** Frame `f` taken for slot `i` (`u`) and mapped in directory `dir` (`w`). */
  ghost predicate SlotTaken(v: Vm, u: Vm, w: Vm, dir: nat, i: nat, f: nat, bytes: seq<Byte>)
    requires Sound(v) && IsDir(v, dir) && i < MEMDEMO_PAGE_COUNT
  {
    && Sound(u) && Sound(w) && f < |v.frames| == |v.used| && f !in v.owner && |bytes| == PAGE_SIZE
    && u == Take(v, f, DemoFrame(dir, i), Data(bytes)) && LeavesOnly(v, u)
    && SameLookups(v, u) && (forall d: nat :: IsDir(u, d) <==> IsDir(v, d))
    && Remapped(u, w, dir, SlotVirt(i), Entry(f, true, true, false))
    && OwnersGrow(u, w, dir, DirectoryIndex(SlotVirt(i)))
  }

  lemma {:induction false} SlotTakenKept(slots: seq<DemoSlot>, v: Vm, u: Vm, w: Vm, dir: nat, i: nat, f: nat, bytes: seq<Byte>)
    requires DemoKept(slots, v) && i < MEMDEMO_PAGE_COUNT && !slots[i].held && IsDir(v, dir)
    requires SlotTaken(v, u, w, dir, i, f, bytes)
    ensures DemoKept(slots[i := DemoSlot(true, dir, SlotVirt(i), f)], w)
  {
    hide LeavesOnly, Remapped, SlotTaken, Sound;
    var after := slots[i := DemoSlot(true, dir, SlotVirt(i), f)];
    SlotTakenSelf(v, u, w, dir, i, f, bytes);
    forall j | 0 <= j < MEMDEMO_PAGE_COUNT ensures SlotOk(after[j], w, j) {
      if j != i {
        SlotTakenOther(slots, v, u, w, dir, i, f, bytes, j);
      }
    }
    SlotTakenFrames(slots, v, u, w, dir, i, f, bytes);
  }

  lemma {:induction false} SlotTakenSelf(v: Vm, u: Vm, w: Vm, dir: nat, i: nat, f: nat, bytes: seq<Byte>)
    requires Sound(v) && IsDir(v, dir) && i < MEMDEMO_PAGE_COUNT && SlotTaken(v, u, w, dir, i, f, bytes)
    ensures Sound(w) && SlotOk(DemoSlot(true, dir, SlotVirt(i), f), w, i)
  {
    hide FrameOk, EntryOk, LeavesOnly, OwnersGrow, SameLookups;
    assert IsLeaf(u, f) && SameFrame(u, w, f) && IsDir(u, dir);
  }

  lemma {:induction false} SlotTakenFrames(slots: seq<DemoSlot>, v: Vm, u: Vm, w: Vm, dir: nat, i: nat, f: nat, bytes: seq<Byte>)
    requires DemoKept(slots, v) && i < MEMDEMO_PAGE_COUNT && !slots[i].held && IsDir(v, dir)
    requires SlotTaken(v, u, w, dir, i, f, bytes)
    ensures var after := slots[i := DemoSlot(true, dir, SlotVirt(i), f)]; forall g: nat :: FrameSlotted(after, w, g)
  {
    var after := slots[i := DemoSlot(true, dir, SlotVirt(i), f)];
    assert SlotOk(slots[i], v, i);
    forall g: nat ensures FrameSlotted(after, w, g) {
      assert FrameSlotted(slots, v, g);
    }
  }

  lemma {:induction false} SlotTakenOther(slots: seq<DemoSlot>, v: Vm, u: Vm, w: Vm, dir: nat, i: nat, f: nat, bytes: seq<Byte>, j: nat)
    requires DemoKept(slots, v) && i < MEMDEMO_PAGE_COUNT && !slots[i].held && IsDir(v, dir)
    requires SlotTaken(v, u, w, dir, i, f, bytes) && j < MEMDEMO_PAGE_COUNT && j != i
    ensures SlotOk(slots[j], w, j)
  {
    hide FrameOk, EntryOk, LeavesOnly, OwnersGrow, FrameSlotted;
    assert SlotOk(slots[j], v, j);
    if slots[j].held {
      assert SameFrame(v, u, slots[j].frame) && IsLeaf(u, slots[j].frame) && SameFrame(u, w, slots[j].frame);
      assert IsDir(u, slots[j].dir) && Elsewhere(slots[j].dir, slots[j].virt, dir, SlotVirt(i));
    }
  }

  lemma {:induction false} LeavesInRange(v: Vm)
    requires Sound(v)
    ensures forall g: nat :: IsLeaf(v, g) ==> g < |v.frames|
  {
    forall g: nat | IsLeaf(v, g) ensures g < |v.frames| {
      assert FrameOk(v, g);
    }
  }

  lemma {:induction false} SlotTakenSide(v: Vm, u: Vm, w: Vm, dir: nat, i: nat, f: nat, bytes: seq<Byte>)
    requires Sound(v) && IsDir(v, dir) && i < MEMDEMO_PAGE_COUNT && SlotTaken(v, u, w, dir, i, f, bytes)
    ensures PagerSide(v, w, {(dir, SlotVirt(i))})
  {
    hide EntryOk, LeavesOnly, FrameOk;
    LeavesInRange(v);
    forall g: nat | g in v.owner && v.owner[g].PagerFrame? ensures g in w.owner && w.owner[g] == v.owner[g] && SameFrame(v, w, g) {
      assert IsLeaf(v, g);
      assert SameFrame(v, u, g) && IsLeaf(u, g) && SameFrame(u, w, g);
    }
    forall d: nat, x: U32 | IsDir(v, d) && Aligned(x) && x < VMM_KERNEL_BASE && (d, x) != (dir, SlotVirt(i))
      ensures Lookup(w, d, x) == Lookup(v, d, x)
    {
      assert IsDir(u, d) && Elsewhere(d, x, dir, SlotVirt(i));
    }
  }

  lemma {:induction false} SlotTakenEntry(v: Vm, u: Vm, w: Vm, dir: nat, i: nat, f: nat, bytes: seq<Byte>)
    requires Sound(v) && IsDir(v, dir) && i < MEMDEMO_PAGE_COUNT && SlotTaken(v, u, w, dir, i, f, bytes)
    ensures EntryAt(w, (dir, SlotVirt(i))) == Entry(f, true, true, false)
  {
    assert IsDir(u, dir) && IsDir(w, dir);
  }

  lemma {:induction false} SlotTakenBooked(slots: seq<DemoSlot>, v: Vm, u: Vm, w: Vm, dir: nat, i: nat, f: nat, bytes: seq<Byte>)
    requires DemoKept(slots, v) && i < MEMDEMO_PAGE_COUNT && !slots[i].held && IsDir(v, dir)
    requires SlotTaken(v, u, w, dir, i, f, bytes)
    ensures DemoKept(slots[i := DemoSlot(true, dir, SlotVirt(i), f)], w) && PagerSide(v, w, {(dir, SlotVirt(i))})
    ensures MayAccess(EntryAt(w, (dir, SlotVirt(i))), true)
  {
    hide SlotTaken, DemoKept, PagerSide, EntryAt;
    KeptIsSound(slots, v);
    SlotTakenKept(slots, v, u, w, dir, i, f, bytes);
    SlotTakenSide(v, u, w, dir, i, f, bytes);
    SlotTakenEntry(v, u, w, dir, i, f, bytes);
  }

  lemma {:induction false} KeptIsSound(slots: seq<DemoSlot>, v: Vm)
    requires DemoKept(slots, v)
    ensures Sound(v) && |slots| == MEMDEMO_PAGE_COUNT
  {
  }

  lemma {:induction false} SameAsItself(v: Vm)
    requires Sound(v)
    ensures SameLookups(v, v) && Released(v, v, {}) && PagerSide(v, v, {})
  {
    SideItself(v, {});
  }

  /** Frame `f` taken (`u`) and given back (`w`). */
  ghost predicate TakenAndDropped(v: Vm, u: Vm, w: Vm, f: nat, o: Owner, bytes: seq<Byte>) {
    && Sound(v) && Sound(u) && Sound(w) && f !in v.owner && f < |v.frames| == |v.used| && !v.used[f] && o.DemoFrame?
    && u == Take(v, f, o, Data(bytes)) && w == Drop(u, f) && LeavesOnly(v, u) && LeavesOnly(u, w)
  }

  lemma {:induction false} UndoneIsUnseen(v: Vm, u: Vm, w: Vm, f: nat, o: Owner, bytes: seq<Byte>)
    requires TakenAndDropped(v, u, w, f, o, bytes)
    ensures SameLookups(v, w) && Released(v, w, {}) && (forall d: nat :: IsDir(w, d) <==> IsDir(v, d))
    ensures w.owner == v.owner && forall g :: g in v.owner ==> SameFrame(v, w, g)
  {
    LeavesOnlyKeeps(v, u);
    LeavesOnlyKeeps(u, w);
    forall g | g in v.owner ensures SameFrame(v, w, g) {
      assert FrameOk(v, g);
    }
    forall d: nat, x: U32 | IsDir(v, d) && IsDir(w, d) && Aligned(x) ensures Lookup(w, d, x) == Lookup(v, d, x) {
      assert IsDir(u, d);
    }
  }

  /** A frame taken and given back again leaves everything as it was. */
  lemma {:induction false} DemoTakeUndone(slots: seq<DemoSlot>, v: Vm, u: Vm, w: Vm, f: nat, o: Owner, bytes: seq<Byte>, keys: set<Key>)
    requires DemoKept(slots, v) && TakenAndDropped(v, u, w, f, o, bytes)
    ensures DemoKept(slots, w) && PagerSide(v, w, keys) && Released(v, w, {}) && SameLookups(v, w)
  {
    hide LeavesOnly;
    UndoneIsUnseen(v, u, w, f, o, bytes);
    forall j | 0 <= j < MEMDEMO_PAGE_COUNT ensures SlotOk(slots[j], w, j) {
      assert SlotOk(slots[j], v, j);
    }
    forall g: nat ensures FrameSlotted(slots, w, g) {
      assert FrameSlotted(slots, v, g);
    }
  }

  function HeldCount(slots: seq<DemoSlot>): nat {
    if slots == [] then 0 else HeldCount(slots[..|slots| - 1]) + if slots[|slots| - 1].held then 1 else 0
  }

  lemma {:induction false} HeldCountUpdate(slots: seq<DemoSlot>, i: nat, s: DemoSlot)
    requires i < |slots|
    ensures HeldCount(slots[i := s]) + (if slots[i].held then 1 else 0) == HeldCount(slots) + (if s.held then 1 else 0)
  {
    var n := |slots| - 1;
    if i < n {
      HeldCountUpdate(slots[..n], i, s);
      assert slots[i := s][..n] == slots[..n][i := s];
    } else {
      assert slots[i := s][..n] == slots[..n];
    }
  }

  lemma {:induction false} SideItself(v: Vm, keys: set<Key>)
    requires Sound(v)
    ensures PagerSide(v, v, keys) && Released(v, v, {})
  {
    ReleasedNone(v);
    forall f | f in v.owner ensures SameFrame(v, v, f) {
      assert FrameOk(v, f);
    }
  }

  lemma {:induction false} SideTwice(v: Vm, u: Vm, w: Vm, a: set<Key>, b: set<Key>)
    requires PagerSide(v, u, a) && PagerSide(u, w, b)
    ensures PagerSide(v, w, a + b)
  {
    forall f: nat | f in v.owner && v.owner[f].PagerFrame? ensures f in w.owner && w.owner[f] == v.owner[f] && SameFrame(v, w, f) {
      assert SameFrame(v, u, f) && SameFrame(u, w, f);
    }
    forall d: nat, x: U32 | IsDir(v, d) && Aligned(x) && x < VMM_KERNEL_BASE && (d, x) !in a + b
      ensures Lookup(w, d, x) == Lookup(v, d, x)
    {
      assert IsDir(u, d);
    }
  }

  lemma {:induction false} NoneHeld(slots: seq<DemoSlot>)
    requires forall i :: 0 <= i < |slots| ==> slots[i] == CLEAR
    ensures HeldCount(slots) == 0
  {
    if slots != [] {
      NoneHeld(slots[..|slots| - 1]);
    }
  }

  // ---- what the pages hold -----------------------------------------------------------------------

  /** The bytes of slot `i`'s page. */
  ghost function SlotBytes(slots: seq<DemoSlot>, v: Vm, i: nat): seq<Byte>
    requires DemoKept(slots, v) && i < MEMDEMO_PAGE_COUNT && slots[i].held
  {
    HeldHasBytes(slots, v, i);
    v.frames[slots[i].frame].bytes
  }

  lemma {:induction false} HeldHasBytes(slots: seq<DemoSlot>, v: Vm, i: nat)
    requires DemoKept(slots, v) && i < MEMDEMO_PAGE_COUNT && slots[i].held
    ensures IsPageAt(v, slots[i].frame) && IsLeaf(v, slots[i].frame) && IsDir(v, slots[i].dir) && slots[i].virt == SlotVirt(i)
    ensures v.owner[slots[i].frame] == DemoFrame(slots[i].dir, i)
    ensures MayAccess(Lookup(v, slots[i].dir, slots[i].virt), true) && Lookup(v, slots[i].dir, slots[i].virt).frame == slots[i].frame
  {
    assert SlotOk(slots[i], v, i);
  }

  /** Slot `i`'s page holds `bytes` now; all the others hold what they did. */
  ghost predicate SlotWritten(slots: seq<DemoSlot>, v: Vm, w: Vm, i: nat, bytes: seq<Byte>) {
    && DemoKept(slots, v) && DemoKept(slots, w) && i < MEMDEMO_PAGE_COUNT && slots[i].held
    && forall j: nat :: j < MEMDEMO_PAGE_COUNT && slots[j].held ==>
         SlotBytes(slots, w, j) == if j == i then bytes else SlotBytes(slots, v, j)
  }

  /** Filling the page of slot `i` is invisible to the pager and to the other slots. */
  lemma {:induction false} SlotFilled(slots: seq<DemoSlot>, v: Vm, w: Vm, i: nat, bytes: seq<Byte>)
    requires DemoKept(slots, v) && i < MEMDEMO_PAGE_COUNT && slots[i].held && |bytes| == PAGE_SIZE
    requires slots[i].frame < |v.frames| && w == v.(frames := v.frames[slots[i].frame := Data(bytes)]) && LeavesOnly(v, w)
    ensures PagerSide(v, w, {}) && SlotWritten(slots, v, w, i, bytes) && SameLookups(v, w)
  {
    LeavesOnlyKeeps(v, w);
    HeldHasBytes(slots, v, i);
    forall f: nat | f in v.owner && v.owner[f].PagerFrame? ensures SameFrame(v, w, f) {
      assert FrameOk(v, f);
    }
    forall j | 0 <= j < MEMDEMO_PAGE_COUNT ensures SlotOk(slots[j], w, j) {
      assert SlotOk(slots[j], v, j);
    }
    forall f: nat ensures FrameSlotted(slots, w, f) {
      assert FrameSlotted(slots, v, f);
    }
    forall j: nat | j < MEMDEMO_PAGE_COUNT && slots[j].held
      ensures SlotBytes(slots, w, j) == if j == i then bytes else SlotBytes(slots, v, j)
    {
      HeldHasBytes(slots, v, j);
    }
  }

  /** Accessed bits do not touch what the slots' pages hold. */
  lemma {:induction false} AccessKeepsBytes(slots: seq<DemoSlot>, v: Vm, w: Vm)
    requires DemoKept(slots, v) && DemoKept(slots, w) && AccessedOnly(v, w)
    ensures forall j: nat :: j < MEMDEMO_PAGE_COUNT && slots[j].held ==> SlotBytes(slots, w, j) == SlotBytes(slots, v, j)
  {
    forall j: nat | j < MEMDEMO_PAGE_COUNT && slots[j].held ensures SlotBytes(slots, w, j) == SlotBytes(slots, v, j) {
      HeldHasBytes(slots, v, j);
      assert SameFrame(v, w, slots[j].frame);
    }
  }

  /** Slots held before and after hold the same bytes. */
  ghost predicate BytesKept(before: seq<DemoSlot>, v: Vm, after: seq<DemoSlot>, w: Vm) {
    && DemoKept(before, v) && DemoKept(after, w)
    && forall j: nat :: j < MEMDEMO_PAGE_COUNT && before[j].held && after[j].held ==>
         after[j] == before[j] && SlotBytes(after, w, j) == SlotBytes(before, v, j)
  }

  lemma {:induction false} BytesStay(slots: seq<DemoSlot>, v: Vm)
    requires DemoKept(slots, v)
    ensures BytesKept(slots, v, slots, v)
  {
  }

  /** A slot that has taken a page holds zeros; the other slots hold what they did. */
  lemma {:induction false} TakenBytes(slots: seq<DemoSlot>, v: Vm, u: Vm, w: Vm, dir: nat, i: nat, f: nat, bytes: seq<Byte>)
    requires DemoKept(slots, v) && i < MEMDEMO_PAGE_COUNT && !slots[i].held && IsDir(v, dir)
    requires SlotTaken(v, u, w, dir, i, f, bytes) && DemoKept(slots[i := DemoSlot(true, dir, SlotVirt(i), f)], w)
    ensures var after := slots[i := DemoSlot(true, dir, SlotVirt(i), f)];
            BytesKept(slots, v, after, w) && SlotBytes(after, w, i) == bytes
  {
    hide FrameOk, EntryOk, LeavesOnly, OwnersGrow, FrameSlotted, SlotOk, Lookup;
    var after := slots[i := DemoSlot(true, dir, SlotVirt(i), f)];
    assert IsLeaf(u, f) && SameFrame(u, w, f);
    forall j: nat | j < MEMDEMO_PAGE_COUNT && slots[j].held ensures SlotBytes(after, w, j) == SlotBytes(slots, v, j) {
      HeldHasBytes(slots, v, j);
      assert SameFrame(v, u, slots[j].frame) && IsLeaf(u, slots[j].frame) && SameFrame(u, w, slots[j].frame);
    }
  }

  /** Giving pages back leaves the slots that stay as they are. */
  lemma {:induction false} ReleasedBytes(before: seq<DemoSlot>, v: Vm, after: seq<DemoSlot>, w: Vm, gone: set<nat>)
    requires DemoKept(before, v) && DemoKept(after, w) && Released(v, w, gone)
    requires forall j :: 0 <= j < MEMDEMO_PAGE_COUNT ==> after[j] == before[j] || !after[j].held
    ensures BytesKept(before, v, after, w)
  {
    hide FrameSlotted, SlotOk, Lookup;
    forall j: nat | j < MEMDEMO_PAGE_COUNT && before[j].held && after[j].held
      ensures after[j] == before[j] && SlotBytes(after, w, j) == SlotBytes(before, v, j)
    {
      HeldHasBytes(before, v, j);
      HeldHasBytes(after, w, j);
      assert SameFrame(v, w, before[j].frame);
    }
  }

  // ---- releasing a directory -------------------------------------------------------------------

  /** The demo addresses of a directory. */
  function DemoKeys(dir: nat): set<Key> {
    set i: nat | i < MEMDEMO_PAGE_COUNT :: (dir, SlotVirt(i))
  }

  /** The frames the first `n` slots hold in directory `dir`. */
  ghost function SlotFrames(slots: seq<DemoSlot>, dir: nat, n: nat): set<nat> {
    set i: nat | i < n && i < |slots| && slots[i].held && slots[i].dir == dir :: slots[i].frame
  }

  /** The slots with the first `n` of directory `dir` cleared. */
  function ClearedFor(slots: seq<DemoSlot>, dir: nat, n: nat): (after: seq<DemoSlot>)
    ensures |after| == |slots|
  {
    seq(|slots|, i requires 0 <= i < |slots| => if i < n && slots[i].held && slots[i].dir == dir then CLEAR else slots[i])
  }

  lemma {:induction false} OneMoreCleared(slots: seq<DemoSlot>, dir: nat, n: nat)
    requires n < |slots|
    ensures ClearedFor(slots, dir, n)[n] == slots[n]
    ensures if slots[n].held && slots[n].dir == dir
            then ClearedFor(slots, dir, n + 1) == ClearedFor(slots, dir, n)[n := CLEAR]
                 && SlotFrames(slots, dir, n + 1) == SlotFrames(slots, dir, n) + {slots[n].frame}
            else ClearedFor(slots, dir, n + 1) == ClearedFor(slots, dir, n)
                 && SlotFrames(slots, dir, n + 1) == SlotFrames(slots, dir, n)
  {
  }

  /** The frames of a directory's slots are the pages the demo owns for it. */
  lemma {:induction false} SlotFramesAreDemos(slots: seq<DemoSlot>, v: Vm, dir: nat)
    requires DemoKept(slots, v)
    ensures forall f: nat :: f in SlotFrames(slots, dir, MEMDEMO_PAGE_COUNT) <==>
              f in v.owner && v.owner[f].DemoFrame? && v.owner[f].dir == dir
  {
    forall f: nat ensures f in SlotFrames(slots, dir, MEMDEMO_PAGE_COUNT) <==>
                            f in v.owner && v.owner[f].DemoFrame? && v.owner[f].dir == dir
    {
      assert FrameSlotted(slots, v, f);
      if f in SlotFrames(slots, dir, MEMDEMO_PAGE_COUNT) {
        var i :| 0 <= i < MEMDEMO_PAGE_COUNT && slots[i].held && slots[i].dir == dir && slots[i].frame == f;
        assert SlotOk(slots[i], v, i);
      }
    }
  }

  /** When the demo system call succeeds. */
  ghost predicate DemoWorks(slots: seq<DemoSlot>, op: DemoOp, page: U32, sequence: nat, v: Vm, dir: nat, freePages: nat) {
    && page < MEMDEMO_PAGE_COUNT <= |slots| && sequence < MEMDEMO_EVENT_COUNT && Sound(v) && IsDir(v, dir)
    && match op {
       case Alloc => slots[page].held || freePages >= if HasTable(v, dir, SlotVirt(page)) then 1 else 2
       case Touch => slots[page].held
       case Free => slots[page].held
       case Unknown => false
     }
  }

  lemma {:induction false} SlotsAreThere(slots: seq<DemoSlot>, v: Vm)
    requires DemoKept(slots, v)
    ensures |slots| == MEMDEMO_PAGE_COUNT && Sound(v)
  {
  }

  lemma {:induction false} HeldIsAtHome(slots: seq<DemoSlot>, v: Vm, i: nat)
    requires DemoKept(slots, v) && i < MEMDEMO_PAGE_COUNT
    ensures slots[i].held ==> slots[i].virt == SlotVirt(i) && slots[i].virt != 0
  {
    assert SlotOk(slots[i], v, i);
  }

  lemma {:induction false} ReleaseBegins(slots: seq<DemoSlot>, v: Vm, dir: nat)
    requires DemoKept(slots, v)
    ensures ClearedFor(slots, dir, 0) == slots && SlotFrames(slots, dir, 0) == {}
    ensures PagerSide(v, v, DemoKeys(dir)) && Released(v, v, SlotFrames(slots, dir, 0))
  {
    SideItself(v, DemoKeys(dir));
  }

  lemma {:induction false} OneMoreReleased(v: Vm, u: Vm, w: Vm, slots: seq<DemoSlot>, dir: nat, i: nat)
    requires i < |slots| == MEMDEMO_PAGE_COUNT && slots[i].held && slots[i].dir == dir && slots[i].virt == SlotVirt(i)
    requires PagerSide(v, u, DemoKeys(dir)) && PagerSide(u, w, {(dir, slots[i].virt)})
    requires Released(v, u, SlotFrames(slots, dir, i)) && Released(u, w, {slots[i].frame})
    ensures PagerSide(v, w, DemoKeys(dir)) && Released(v, w, SlotFrames(slots, dir, i + 1))
  {
    OneMoreCleared(slots, dir, i);
    ReleasedTwice(v, u, w, SlotFrames(slots, dir, i), {slots[i].frame});
    SideTwice(v, u, w, DemoKeys(dir), {(dir, slots[i].virt)});
    assert DemoKeys(dir) + {(dir, slots[i].virt)} == DemoKeys(dir);
  }

  // ---- releasing everything --------------------------------------------------------------------

  ghost function HeldFrames(slots: seq<DemoSlot>, n: nat): set<nat>
    requires n <= |slots|
  {
    set i | 0 <= i < n && slots[i].held :: slots[i].frame
  }

  ghost function HeldKeys(slots: seq<DemoSlot>, n: nat): set<Key>
    requires n <= |slots|
  {
    set i | 0 <= i < n :: (slots[i].dir, slots[i].virt)
  }

  lemma {:induction false} NothingHeldYet(slots: seq<DemoSlot>, v: Vm)
    requires DemoKept(slots, v)
    ensures |slots| == MEMDEMO_PAGE_COUNT && Released(v, v, HeldFrames(slots, 0)) && PagerSide(v, v, HeldKeys(slots, 0))
  {
    assert HeldFrames(slots, 0) == {} && HeldKeys(slots, 0) == {};
    ReleasedNone(v);
    SideItself(v, {});
  }

  lemma {:induction false} OneMoreReset(v: Vm, u: Vm, w: Vm, slots: seq<DemoSlot>, i: nat)
    requires i < |slots| && Released(v, u, HeldFrames(slots, i)) && PagerSide(v, u, HeldKeys(slots, i))
    requires Released(u, w, if slots[i].held then {slots[i].frame} else {}) && PagerSide(u, w, {(slots[i].dir, slots[i].virt)})
    ensures Released(v, w, HeldFrames(slots, i + 1)) && PagerSide(v, w, HeldKeys(slots, i + 1))
  {
    hide Released, PagerSide;
    var one := if slots[i].held then {slots[i].frame} else {};
    assert HeldFrames(slots, i + 1) == HeldFrames(slots, i) + one;
    assert HeldKeys(slots, i + 1) == HeldKeys(slots, i) + {(slots[i].dir, slots[i].virt)};
    ReleasedTwice(v, u, w, HeldFrames(slots, i), one);
    SideTwice(v, u, w, HeldKeys(slots, i), {(slots[i].dir, slots[i].virt)});
  }

  /** The addresses of the first `n` slots are not mapped. */
  ghost predicate Unmapped(slots: seq<DemoSlot>, v: Vm, n: nat) {
    forall j :: 0 <= j < n && j < |slots| && slots[j].held ==> EntryAt(v, (slots[j].dir, slots[j].virt)) == Empty
  }

  lemma {:induction false} NothingUnmapped(slots: seq<DemoSlot>, v: Vm)
    ensures Unmapped(slots, v, 0)
  {
  }

  lemma {:induction false} OneMoreUnmapped(slots: seq<DemoSlot>, v: Vm, u: Vm, w: Vm, i: nat)
    requires DemoKept(slots, v) && i < |slots| && PagerSide(v, u, HeldKeys(slots, i)) && Unmapped(slots, u, i)
    requires PagerSide(u, w, {(slots[i].dir, slots[i].virt)})
    requires slots[i].held ==> EntryAt(w, (slots[i].dir, slots[i].virt)) == Empty
    ensures Unmapped(slots, w, i + 1)
  {
    forall j | 0 <= j < i && slots[j].held ensures EntryAt(w, (slots[j].dir, slots[j].virt)) == Empty {
      assert SlotOk(slots[j], v, j) && SlotOk(slots[i], v, i);
      assert EntryAt(u, (slots[j].dir, slots[j].virt)) == Empty;
    }
  }
}
