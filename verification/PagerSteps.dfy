/** Single steps of the pager, on values: what sampling, choosing, evicting and making
    room do to the cache and to memory. */
module PagerSteps {
  import opened Machine
  import opened PmmSpec
  import opened VmmSpec
  import opened PagerSpec
  import opened PagerVictim

  /** What a choice of victim owes to a cache whose frames are all resident; `exact` says
      that the choice can tell pages accessed since the last look from others. */
  ghost predicate WellChosen(c: Cache, v: Vm, exact: bool, slot: nat)
    requires Shaped(c)
  {
    && slot < PAGER_FRAME_LIMIT
    && forall i :: 0 <= i < PAGER_FRAME_LIMIT && !PinnedSlots(c)[i] ==>
         && !PinnedSlots(c)[slot]
         && (exact && !AccessedSlots(c, v)[i] ==> !AccessedSlots(c, v)[slot])
  }

  lemma {:induction false} KeptIsShaped(c: Cache, v: Vm)
    requires Kept(c, v)
    ensures Shaped(c) && Sound(v)
  {
  }

  lemma {:induction false} SampledRegistration(c: Cache, v: Vm, pages: seq<PagerPage>, w: Vm, tick: U32, n: nat)
    requires Sampled(c, v, pages, w, tick, n)
    ensures SameRegistration(c.pages, pages)
  {
    forall k | 0 <= k < PAGER_MAX_PAGES ensures pages[k] == c.pages[k].(lastUsed := pages[k].lastUsed) {
      assert Candidate(c, n, k) ==> PageSampled(c, v, pages[k], w, tick, k);
    }
  }

  lemma {:induction false} ClockIsWellChosen(c: Cache, v: Vm, slot: nat)
    requires Shaped(c) && slot == ClockSlot(PinnedSlots(c), AccessedSlots(c, v), c.hand)
    ensures WellChosen(c, v, true, slot)
  {
    forall i | 0 <= i < PAGER_FRAME_LIMIT && !PinnedSlots(c)[i]
      ensures !PinnedSlots(c)[slot] && (!AccessedSlots(c, v)[i] ==> !AccessedSlots(c, v)[slot])
    {
      ClockChoosesWell(PinnedSlots(c), AccessedSlots(c, v), c.hand, i);
    }
  }

  lemma {:induction false} LruIsWellChosen(c: Cache, v: Vm, pages: seq<PagerPage>, w: Vm, tick: U32, slot: nat)
    requires AllResident(c) && Sampled(c, v, pages, w, tick, PAGER_FRAME_LIMIT)
    requires if exists i :: 0 <= i < c.resident && !c.pages[c.slots[i]].pinned
             then LeastTick(c, pages, c.resident, slot) else slot == 0
    ensures WellChosen(c, v, TicksInOrder(c), slot)
  {
    forall i | 0 <= i < PAGER_FRAME_LIMIT && !PinnedSlots(c)[i]
      ensures !PinnedSlots(c)[slot] && (TicksInOrder(c) && !AccessedSlots(c, v)[i] ==> !AccessedSlots(c, v)[slot])
    {
      assert !c.pages[c.slots[i]].pinned;
      if TicksInOrder(c) && !AccessedSlots(c, v)[i] {
        LeastIsUntouched(c, v, pages, w, tick, PAGER_FRAME_LIMIT, slot, i);
      }
    }
  }

  lemma {:induction false} OneMoreSlot(c: Cache, v: Vm, flat: Flat)
    requires Kept(c, v) && c.resident < PAGER_FRAME_LIMIT
    ensures var d := c.(resident := c.resident + 1);
            && Kept(d, v) && !SlotNeeded(d, c.resident) && (Tidy(c) ==> TidyBut(d, c.resident))
            && (Agrees(c, v, flat) ==> Agrees(d, v, flat))
  {
    var d := c.(resident := c.resident + 1);
    forall k | 0 <= k < PAGER_MAX_PAGES && d.pages[k].present ensures HasSlot(d, k) {
      assert HasSlot(c, k);
    }
    if d.pages[d.slots[c.resident]].present {
      assert HasSlot(c, d.slots[c.resident]);
    }
    assert Kept(d, v);
    if Agrees(c, v, flat) {
      forall k | 0 <= k < PAGER_MAX_PAGES && d.pages[k].used ensures PageAgrees(d, v, flat, k) {
        assert PageAgrees(c, v, flat, k);
      }
    }
  }

  lemma {:induction false} UndisturbedOutside(c: Cache, v: Vm, d: Cache, w: Vm, flat: Flat)
    requires Undisturbed(c, v, d, w)
    ensures OutsideKept(v, w, flat) && SameTables(v, w) && Shaped(c) && Shaped(d)
    ensures d.slots == c.slots && d.resident == c.resident
    ensures forall j :: 0 <= j < |c.pages| ==> d.pages[j].present == c.pages[j].present
  {
    AccessedIsOutside(v, w, flat);
  }

  /** Choosing a victim changes nothing that swapping it out depends on. */
  lemma {:induction false} ChosenIsSame(c: Cache, v: Vm, d: Cache, w: Vm, k: nat, pageZero: seq<Byte>, flat: Flat)
    requires Undisturbed(c, v, d, w) && k < PAGER_MAX_PAGES
    ensures Kept(c, v) && Kept(d, w) && |c.pages| == |c.swap| == |d.pages| == |d.swap| == PAGER_MAX_PAGES
    ensures EvictedBytes(d, w, k, pageZero) == EvictedBytes(c, v, k, pageZero) && d.swap == c.swap
    ensures EvictionHarmless(d, k, pageZero) <==> EvictionHarmless(c, k, pageZero)
    ensures Agrees(c, v, flat) ==> Agrees(d, w, flat)
    ensures RightsFit(c.pages, v) ==> RightsFit(d.pages, w)
  {
    if RightsFit(c.pages, v) {
      UndisturbedRights(c, v, d, w);
    }
    UndisturbedAgrees(c, v, d, w, flat);
    PresentHasFrame(c, v, k);
    UndisturbedPage(c.pages[k], d.pages[k], v, w, k);
  }

  lemma {:induction false} SlotEmptied(c: Cache, d: Cache, slot: nat)
    requires Shaped(c) && Shaped(d) && slot < c.resident && |c.pages| == |d.pages|
    requires d.slots == c.slots && d.resident == c.resident && !d.pages[c.slots[slot]].present
    requires forall j :: 0 <= j < |c.pages| && j != c.slots[slot] ==> d.pages[j].present == c.pages[j].present
    ensures !SlotNeeded(d, slot) && (Tidy(c) ==> TidyBut(d, slot))
  {
  }

  lemma {:induction false} PresentIsMapped(c: Cache, v: Vm, k: nat)
    requires Kept(c, v) && k < PAGER_MAX_PAGES && c.pages[k].present
    ensures Sound(v) && IsDir(v, c.pages[k].dir) && Lookup(v, c.pages[k].dir, c.pages[k].virt).Entry?
    ensures Aligned(c.pages[k].virt) && c.pages[k].virt < VMM_KERNEL_BASE && c.pages[k].dir != 0
    ensures |c.pages| == PAGER_MAX_PAGES && c.pages[k].used
    ensures c.pages[k].frame in v.owner && v.owner[c.pages[k].frame].PagerFrame?
  {
    assert PageOk(c.pages[k], v, k);
    NoDirectoryZero(v);
  }

  lemma {:induction false} FrameStaysLeaf(v: Vm, u: Vm, p: PagerPage, k: nat)
    requires Sound(v) && Sound(u) && IsDir(v, p.dir) && Remapped(v, u, p.dir, p.virt, Empty)
    requires IsLeaf(v, p.frame) && p.frame in v.owner && v.owner[p.frame].PagerFrame?
    ensures IsLeaf(u, p.frame) && p.frame < |u.used| && p.frame in u.owner && u.owner[p.frame].PagerFrame?
  {
    assert SameFrame(v, u, p.frame);
  }

  lemma {:induction false} DroppedFrame(v: Vm, w: Vm, f: nat, flat: Flat)
    requires Sound(v) && Sound(w) && f in v.owner && v.owner[f].PagerFrame? && f < |v.used| && w == Drop(v, f)
    requires LeavesOnly(v, w)
    ensures SameLookups(v, w) && (forall d: nat :: IsDir(w, d) <==> IsDir(v, d)) && OutsideKept(v, w, flat)
  {
    LeavesOnlyKeeps(v, w);
    forall g | g != f && g in v.owner ensures SameFrame(v, w, g) {
      assert FrameOk(v, g);
    }
    PagerFrameIsOutside(v, w, f, flat);
  }

  /** Unmapping a pager page and freeing its frame is invisible outside. */
  lemma {:induction false} FrameGoes(v: Vm, u: Vm, w: Vm, p: PagerPage, flat: Flat)
    requires Sound(v) && Sound(u) && Sound(w) && IsDir(v, p.dir) && Remapped(v, u, p.dir, p.virt, Empty)
    requires KeyOf(p) in flat && p.virt < VMM_KERNEL_BASE && p.frame in u.owner && u.owner[p.frame].PagerFrame? && u.owner == v.owner
    requires p.frame < |u.used| && w == Drop(u, p.frame) && LeavesOnly(u, w)
    ensures SameLookups(u, w) && (forall d: nat :: IsDir(w, d) <==> IsDir(u, d)) && OutsideKept(v, w, flat)
  {
    RemapIsOutside(v, u, p.dir, p.virt, Empty, flat);
    DroppedFrame(u, w, p.frame, flat);
    hide Sound, OutsideKept;
    OutsideTwice(v, u, w, flat);
  }

  lemma {:induction false} TakeOutside(v: Vm, u: Vm, f: nat, o: Owner, bytes: seq<Byte>, flat: Flat)
    requires Sound(v) && f !in v.owner && f < |v.frames| == |v.used| && o.PagerFrame?
    requires u == Take(v, f, o, Data(bytes)) && LeavesOnly(v, u)
    ensures OutsideKept(v, u, flat)
  {
    LeavesOnlyKeeps(v, u);
    forall g | g != f && g in v.owner ensures SameFrame(v, u, g) {
      assert FrameOk(v, g);
    }
    PagerFrameIsOutside(v, u, f, flat);
  }

  /** A frame taken and given back again leaves everything as it was. */
  lemma {:induction false} TakeUndone(c: Cache, v: Vm, u: Vm, w: Vm, k: nat, f: nat)
    requires Kept(c, v) && k < PAGER_MAX_PAGES && f !in v.owner && f < |v.frames| == |v.used|
    requires u == Take(v, f, PagerFrame(c.pages[k].dir, k), Data(c.swap[k])) && w == Drop(u, f)
    requires LeavesOnly(v, u) && LeavesOnly(u, w) && Sound(u)
    ensures Kept(c, w) && forall flat: Flat :: Agrees(c, v, flat) <==> Agrees(c, w, flat)
  {
    LeavesOnlyKeeps(v, u);
    LeavesOnlyKeeps(u, w);
    forall j | 0 <= j < PAGER_MAX_PAGES && c.pages[j].used ensures PageOk(c.pages[j], v, j) && SeesNoChange(c.pages[j], v, w) {
      assert PageOk(c.pages[j], v, j) && IsDir(u, c.pages[j].dir);
    }
    StillKept(c, v, w);
  }

  lemma {:induction false} TakeUndoneRights(c: Cache, v: Vm, u: Vm, w: Vm, k: nat)
    requires Kept(c, v) && Kept(c, w) && k < PAGER_MAX_PAGES && !c.pages[k].present
    requires LeavesOnly(v, u) && LeavesOnly(u, w) && Sound(u)
    ensures SameAccess(c.pages, v, c.pages, w, k) && !WasAccessed(c.pages[k], w)
    ensures RightsFit(c.pages, v) ==> RightsFit(c.pages, w)
  {
    LeavesOnlyKeeps(v, u);
    LeavesOnlyKeeps(u, w);
    hide LeavesOnly, Sound;
    AbsentIsNotAccessed(c, w, k);
    forall j | 0 <= j < PAGER_MAX_PAGES && c.pages[j].used
      ensures EntryAt(w, KeyOf(c.pages[j])) == EntryAt(v, KeyOf(c.pages[j])) && (WasAccessed(c.pages[j], w) <==> WasAccessed(c.pages[j], v))
    {
      assert PageOk(c.pages[j], v, j) && IsDir(u, c.pages[j].dir);
    }
    forall j | 0 <= j < PAGER_MAX_PAGES && c.pages[j].present ensures c.pages[j].used {
      assert PageOk(c.pages[j], v, j);
    }
  }

  lemma {:induction false} TakeUndoneOutside(v: Vm, u: Vm, w: Vm, f: nat, o: Owner, bytes: seq<Byte>, flat: Flat)
    requires Sound(v) && Sound(u) && Sound(w) && f !in v.owner && f < |v.frames| == |v.used| && o.PagerFrame?
    requires u == Take(v, f, o, Data(bytes)) && w == Drop(u, f) && LeavesOnly(v, u) && LeavesOnly(u, w)
    ensures OutsideKept(v, w, flat)
  {
    hide Sound, OutsideKept, LeavesOnly;
    TakeOutside(v, u, f, o, bytes, flat);
    DroppedFrame(u, w, f, flat);
    OutsideTwice(v, u, w, flat);
  }

  /** The two memory steps of a page-in, seen from outside. */
  lemma {:induction false} PageInOutside(c: Cache, v: Vm, u: Vm, w: Vm, k: nat, f: nat, flat: Flat)
    requires Kept(c, v) && k < PAGER_MAX_PAGES && c.pages[k].used && PageOk(c.pages[k], v, k)
    requires FrameBrought(c, v, u, w, k, f) && KeyOf(c.pages[k]) in flat && LeavesOnly(v, u)
    ensures OutsideKept(v, w, flat)
  {
    hide PagesOk, HasSlot, OutsideKept, LeavesOnly, Remapped, SameLookups;
    TakeOutside(v, u, f, PagerFrame(c.pages[k].dir, k), c.swap[k], flat);
    RemapIsOutside(u, w, c.pages[k].dir, c.pages[k].virt, Entry(f, c.pages[k].writable, c.pages[k].user, false), flat);
    OutsideTwice(v, u, w, flat);
  }

  lemma {:induction false} TakenFrame(v: Vm, u: Vm, f: nat, o: Owner, bytes: seq<Byte>, d: nat, x: U32)
    requires Sound(v) && f !in v.owner && f < |v.frames| && u == Take(v, f, o, Data(bytes))
    requires LeavesOnly(v, u) && (o.PagerFrame? || o.DemoFrame?) && IsDir(v, d) && x < VMM_KERNEL_BASE
    ensures Sound(u) && IsLeaf(u, f) && SameLookups(v, u) && (forall e: nat :: IsDir(u, e) <==> IsDir(v, e))
    ensures HasTable(u, d, x) <==> HasTable(v, d, x)
  {
    LeavesOnlyKeeps(v, u);
    TablesTell(v, u, d, x);
  }

  lemma {:induction false} BroughtEntry(c: Cache, v: Vm, u: Vm, w: Vm, k: nat, f: nat)
    requires Kept(c, v) && k < PAGER_MAX_PAGES && c.pages[k].used && PageOk(c.pages[k], v, k)
    requires FrameBrought(c, v, u, w, k, f)
    ensures EntryAt(w, KeyOf(c.pages[k])) == Entry(f, c.pages[k].writable, c.pages[k].user, false)
  {
    assert IsDir(u, c.pages[k].dir) && IsDir(w, c.pages[k].dir);
  }

  /** The books of a page-in whose frame has been brought. */
  lemma {:induction false} PageInBooked(c: Cache, v: Vm, u: Vm, w: Vm, k: nat, f: nat, slot: nat, tick: U32, flat: Flat)
    requires Kept(c, v) && k < PAGER_MAX_PAGES && c.pages[k].used && !c.pages[k].present && PageOk(c.pages[k], v, k)
    requires FrameBrought(c, v, u, w, k, f) && slot < c.resident && !SlotNeeded(c, slot) && SameKeys(c.pages, flat)
    ensures Kept(PagedIn(c, k, f, slot, tick), w) && SameKeys(PagedIn(c, k, f, slot, tick).pages, flat)
    ensures EntryAt(w, KeyOf(c.pages[k])) == Entry(f, c.pages[k].writable, c.pages[k].user, false)
    ensures Agrees(PagedIn(c, k, f, slot, tick), w, flat) <==> Agrees(c, v, flat)
    ensures RightsFit(c.pages, v) ==> RightsFit(PagedIn(c, k, f, slot, tick).pages, w)
  {
    hide PagesOk, HasSlot, SlotNeeded, FrameBrought, Agrees, SameKeys, RightsFit;
    BroughtEntry(c, v, u, w, k, f);
    if RightsFit(c.pages, v) {
      PageInRights(c, v, u, w, k, f, slot, tick);
    }
    PageInKeeps(c, v, u, w, k, f, slot, tick);
    KeysStay(c.pages, PagedIn(c, k, f, slot, tick).pages, flat);
    PageInAgrees(c, v, u, w, k, f, slot, tick, flat);
  }

  /** The frame of page `k` is there, its bit clear, its tick the next. */
  lemma {:induction false} BroughtQuiet(c: Cache, v: Vm, d: Cache, w: Vm, k: nat, f: nat, slot: nat, tick: U32)
    requires Quiet(c, v) && SameAccess(c.pages, v, c.pages, w, k) && k < |c.pages| && slot < |c.slots| && !WasAccessed(c.pages[k], w)
    requires d == c || d == PagedIn(c, k, f, slot, NextTick(c.tick))
    ensures Quiet(d, w) && TickedOnly(c.pages, c.tick, d.pages, d.tick, k)
  {
  }

  lemma {:induction false} TickedAfterSame(p: seq<PagerPage>, tick: U32, q: seq<PagerPage>, r: seq<PagerPage>, now: U32, k: nat)
    requires SameTicks(p, q) && TickedOnly(q, tick, r, now, k)
    ensures TickedOnly(p, tick, r, now, k)
  {
  }

  /** A page-in succeeds when there are frames for it, the one an eviction frees included. */
  ghost predicate CanPageIn(c: Cache, v: Vm, freePages: nat, k: nat)
    requires Shaped(c) && k < PAGER_MAX_PAGES && Sound(v) && IsDir(v, c.pages[k].dir)
  {
    freePages + (if c.resident == PAGER_FRAME_LIMIT then 1 else 0) >= FramesNeeded(c.pages[k], v)
  }

  /** Making room in `slot` frees the frame of the page swapped out, if it has one. */
  function FramesFreed(c: Cache, slot: nat): nat {
    if c.resident == PAGER_FRAME_LIMIT && slot < |c.slots| && c.slots[slot] < |c.pages| && c.pages[c.slots[slot]].present then 1 else 0
  }

  lemma {:induction false} TidyFrees(c: Cache, slot: nat)
    requires Shaped(c) && slot < PAGER_FRAME_LIMIT
    ensures Tidy(c) ==> FramesFreed(c, slot) == if c.resident == PAGER_FRAME_LIMIT then 1 else 0
  {
  }

  /** All frames are resident, and one of their pages may be swapped out. */
  ghost predicate MustEvict(c: Cache) {
    Shaped(c) && c.resident == PAGER_FRAME_LIMIT && exists i :: 0 <= i < PAGER_FRAME_LIMIT && !c.pages[c.slots[i]].pinned
  }

  /** Making room in `slot` loses no bytes. */
  predicate RoomHarmless(c: Cache, slot: nat, pageZero: seq<Byte>) {
    c.resident == PAGER_FRAME_LIMIT ==>
      slot < |c.slots| && c.slots[slot] < |c.pages| == |c.swap| && EvictionHarmless(c, c.slots[slot], pageZero)
  }

  lemma {:induction false} TidyRoomIsHarmless(c: Cache, slot: nat, pageZero: seq<Byte>)
    requires Shaped(c) && slot < PAGER_FRAME_LIMIT
    ensures Tidy(c) ==> RoomHarmless(c, slot, pageZero)
  {
  }

  /** A fault at `key` brings a page in. */
  ghost predicate BringsIn(pages: seq<PagerPage>, key: Key) {
    exists k :: 0 <= k < |pages| && pages[k].used && KeyOf(pages[k]) == key && !pages[k].present
  }

  lemma {:induction false} FoundBringsIn(c: Cache, v: Vm, flat: Flat, key: Key, found: bool, k: nat)
    requires Kept(c, v) && SameKeys(c.pages, flat) && (found <==> key in flat)
    requires found ==> k < PAGER_MAX_PAGES && c.pages[k].used && KeyOf(c.pages[k]) == key
    ensures BringsIn(c.pages, key) <==> found && !c.pages[k].present
  {
    if found {
      KeyIsOfOnePage(c, v, flat, key, k);
    } else {
      assert forall j :: 0 <= j < PAGER_MAX_PAGES && c.pages[j].used ==> KeyOf(c.pages[j]) in flat;
    }
  }

  /** The page of `key` alone may have a new use tick. */
  ghost predicate KeyTicked(p: seq<PagerPage>, tick: U32, q: seq<PagerPage>, now: U32, key: Key) {
    exists k: nat :: KeyTickedAt(p, tick, q, now, key, k)
  }

  ghost predicate KeyTickedAt(p: seq<PagerPage>, tick: U32, q: seq<PagerPage>, now: U32, key: Key, k: nat) {
    k < |p| && p[k].used && KeyOf(p[k]) == key && TickedOnly(p, tick, q, now, k)
  }

  lemma {:induction false} NothingTicked(p: seq<PagerPage>, tick: U32, k: nat)
    requires k < |p|
    ensures TickedOnly(p, tick, p, tick, k)
  {
  }

  lemma {:induction false} NeededIsNotTidy(c: Cache, slot: nat)
    requires TidyBut(c, slot) && slot < c.resident && !SlotNeeded(c, slot)
    ensures !Tidy(c)
  {
    if c.pages[c.slots[slot]].present {
      var i :| 0 <= i < c.resident && i != slot && c.slots[i] == c.slots[slot];
      assert if i < slot then c.slots[i] == c.slots[slot] else c.slots[slot] == c.slots[i];
    }
  }

  lemma {:induction false} SameNeeds(c: Cache, v: Vm, d: Cache, w: Vm, k: nat)
    requires Kept(c, v) && Kept(d, w) && SameTables(v, w) && SameRegistration(c.pages, d.pages)
    requires k < PAGER_MAX_PAGES && c.pages[k].used
    ensures IsDir(v, c.pages[k].dir) && IsDir(w, d.pages[k].dir) && d.pages[k].used
    ensures FramesNeeded(d.pages[k], w) == FramesNeeded(c.pages[k], v)
  {
    assert PageOk(c.pages[k], v, k) && PageOk(d.pages[k], w, k);
    TablesTell(v, w, c.pages[k].dir, c.pages[k].virt);
  }

  lemma {:induction false} PagedInRegistration(b: seq<PagerPage>, c: Cache, k: nat, f: nat, slot: nat, tick: U32)
    requires Shaped(c) && k < PAGER_MAX_PAGES && slot < PAGER_FRAME_LIMIT && SameRegistration(b, c.pages)
    ensures SameRegistration(b, PagedIn(c, k, f, slot, tick).pages)
  {
  }

  /** The page registered under a key. */
  lemma {:induction false} KeyHasPage(c: Cache, v: Vm, flat: Flat, key: Key) returns (k: nat)
    requires Kept(c, v) && SameKeys(c.pages, flat) && key in flat
    ensures k < PAGER_MAX_PAGES && c.pages[k].used && KeyOf(c.pages[k]) == key && PageOk(c.pages[k], v, k)
    ensures forall j :: 0 <= j < PAGER_MAX_PAGES && c.pages[j].used && KeyOf(c.pages[j]) == key ==> j == k
  {
    assert Registered(c.pages, key);
    k :| 0 <= k < |c.pages| && c.pages[k].used && KeyOf(c.pages[k]) == key;
  }

  /** A page-in takes a frame for the page, and one more if its page table is missing. */
  ghost function FramesNeeded(p: PagerPage, v: Vm): nat
    requires Sound(v) && IsDir(v, p.dir)
  {
    if HasTable(v, p.dir, p.virt) then 1 else 2
  }

  lemma {:induction false} UsedHasDirectory(c: Cache, v: Vm, k: nat)
    requires Kept(c, v) && k < PAGER_MAX_PAGES && c.pages[k].used
    ensures IsDir(v, c.pages[k].dir) && c.pages[k].dir != 0 && Aligned(c.pages[k].virt) && c.pages[k].virt < VMM_KERNEL_BASE
  {
    assert PageOk(c.pages[k], v, k);
    NoDirectoryZero(v);
  }

  /** What swapping page `k` out writes. */
  ghost function EvictedBytes(c: Cache, v: Vm, k: nat, pageZero: seq<Byte>): seq<Byte>
    requires Kept(c, v) && k < PAGER_MAX_PAGES
  {
    PresentHasFrame(c, v, k);
    if c.pages[k].present then v.frames[c.pages[k].frame].bytes else pageZero
  }

  lemma {:induction false} NoDirectoryZero(v: Vm)
    requires Sound(v)
    ensures forall d: nat :: IsDir(v, d) ==> d != 0
  {
    forall d: nat | IsDir(v, d) ensures d != 0 {
      assert FrameOk(v, d);
    }
  }

  lemma {:induction false} ScanBegins(c: Cache, v: Vm)
    requires Kept(c, v)
    ensures Shaped(c) && At(c.hand, 0) == c.hand && Undisturbed(c, v, c, v)
    ensures Turned(PinnedSlots(c), AccessedSlots(c, v), AccessedSlots(c, v), c.hand, 0)
  {
    UndisturbedItself(c, v);
  }

  lemma {:induction false} HandMoved(c: Cache, v: Vm, d: Cache, w: Vm, hand: nat)
    requires Undisturbed(c, v, d, w) && hand < PAGER_FRAME_LIMIT
    ensures Kept(d.(hand := hand), w) && Undisturbed(c, v, d.(hand := hand), w)
  {
    UndisturbedKept(c, v, d.(hand := hand), w);
  }


  /** Only the use tick of page `k` changed. */
  ghost predicate TicksOnly(p: seq<PagerPage>, q: seq<PagerPage>, k: nat) {
    k < |p| == |q| && q == p[k := p[k].(lastUsed := q[k].lastUsed)]
  }

  lemma {:induction false} SamplingBegins(c: Cache, v: Vm)
    requires Kept(c, v)
    ensures Shaped(c) && Undisturbed(c, v, c, v) && Sampled(c, v, c.pages, v, c.tick, 0)
  {
    UndisturbedItself(c, v);
  }

  lemma {:induction false} SamplingFacts(c: Cache, v: Vm, d: Cache, w: Vm, slot: nat)
    requires Undisturbed(c, v, d, w) && slot < PAGER_FRAME_LIMIT && Sampled(c, v, d.pages, w, d.tick, slot)
    ensures d.slots == c.slots && Shaped(c) && Shaped(d)
    ensures var k := c.slots[slot];
            && (WasAccessed(c.pages[k], v) ==> c.pages[k].used) && (WasAccessed(d.pages[k], w) ==> d.pages[k].used)
            && (Candidate(c, slot, k) ==> !WasAccessed(d.pages[k], w))
  {
    AccessedIsUsed(c, v, c.slots[slot]);
    AccessedIsUsed(d, w, c.slots[slot]);
  }

  lemma {:induction false} UnusedUntouched(c: Cache, v: Vm, d: Cache, w: Vm)
    requires Undisturbed(c, v, d, w)
    ensures Shaped(c) && forall k :: 0 <= k < PAGER_MAX_PAGES && !c.pages[k].used ==> !WasAccessed(c.pages[k], w)
  {
    forall k | 0 <= k < PAGER_MAX_PAGES && !c.pages[k].used ensures !WasAccessed(c.pages[k], w) {
      assert PageOk(c.pages[k], v, k);
      NoDirectoryZero(w);
    }
  }

  lemma {:induction false} PinsStay(c: Cache, v: Vm, d: Cache, w: Vm, slot: nat)
    requires Undisturbed(c, v, d, w) && Shaped(c) && slot < c.resident && Sampled(c, v, d.pages, w, d.tick, slot)
    ensures Shaped(d) && d.slots == c.slots && d.pages[c.slots[slot]].pinned == c.pages[c.slots[slot]].pinned
  {
    assert Candidate(c, slot, c.slots[slot]) || d.pages[c.slots[slot]] == c.pages[c.slots[slot]];
  }

  lemma {:induction false} LeastSkips(c: Cache, pages: seq<PagerPage>, n: nat, best: nat)
    requires LeastTick(c, pages, n, best) && n < PAGER_FRAME_LIMIT && c.pages[c.slots[n]].pinned
    ensures LeastTick(c, pages, n + 1, best)
  {
  }

  lemma {:induction false} LeastFirst(c: Cache, pages: seq<PagerPage>, n: nat)
    requires Shaped(c) && |pages| == PAGER_MAX_PAGES && n < PAGER_FRAME_LIMIT && !c.pages[c.slots[n]].pinned
    requires forall i :: 0 <= i < n ==> c.pages[c.slots[i]].pinned
    ensures LeastTick(c, pages, n + 1, n)
  {
  }

  /** The next slot is sampled: the best so far is either still best or beaten by it. */
  lemma {:induction false} LeastNext(c: Cache, before: seq<PagerPage>, pages: seq<PagerPage>, n: nat, best: nat)
    requires LeastTick(c, before, n, best) && n < PAGER_FRAME_LIMIT && !c.pages[c.slots[n]].pinned
    requires TicksOnly(before, pages, c.slots[n]) && (Candidate(c, n, c.slots[n]) ==> pages == before)
    ensures pages[c.slots[best]].lastUsed == before[c.slots[best]].lastUsed
    ensures if pages[c.slots[n]].lastUsed < pages[c.slots[best]].lastUsed then LeastTick(c, pages, n + 1, n)
            else LeastTick(c, pages, n + 1, best)
  {
    forall i | 0 <= i < n && !c.pages[c.slots[i]].pinned ensures pages[c.slots[i]] == before[c.slots[i]] {
      assert c.slots[i] == c.slots[n] ==> Candidate(c, n, c.slots[n]);
    }
  }

  lemma {:induction false} AccessedIsUsed(c: Cache, v: Vm, k: nat)
    requires Kept(c, v) && k < PAGER_MAX_PAGES
    ensures |c.pages| == PAGER_MAX_PAGES && Sound(v) && (WasAccessed(c.pages[k], v) ==> c.pages[k].used)
  {
    assert PageOk(c.pages[k], v, k);
    NoDirectoryZero(v);
  }

  lemma {:induction false} SampleIsLocal(p: seq<PagerPage>, q: seq<PagerPage>, v: Vm, w: Vm, k: nat)
    requires k < |p| == |q| && q == p[k := p[k].(lastUsed := q[k].lastUsed)] && (v == w || SameAccess(q, v, q, w, k))
    ensures SameAccess(p, v, q, w, k)
  {
  }

  lemma {:induction false} UnusedNever(c: Cache, v: Vm)
    requires Kept(c, v)
    ensures |c.pages| == PAGER_MAX_PAGES && forall j :: 0 <= j < PAGER_MAX_PAGES && !c.pages[j].used ==> !WasAccessed(c.pages[j], v)
  {
    forall j | 0 <= j < PAGER_MAX_PAGES && !c.pages[j].used ensures !WasAccessed(c.pages[j], v) {
      AccessedIsUsed(c, v, j);
    }
  }

  /** Looking at page `k`, or moving the hand, makes no page look accessed. */
  lemma {:induction false} StaysQuiet(c: Cache, v: Vm, d: Cache, w: Vm, k: nat)
    requires Quiet(c, v) && SameAccess(c.pages, v, d.pages, w, k) && k < |c.pages| && (d.pages[k].used ==> !WasAccessed(d.pages[k], w))
    requires forall j :: 0 <= j < |c.pages| ==> d.pages[j].used == c.pages[j].used
    ensures Quiet(d, w)
  {
  }

  lemma {:induction false} QuietIsNotAccessed(c: Cache, v: Vm, k: nat)
    requires Quiet(c, v) && Kept(c, v) && k < PAGER_MAX_PAGES
    ensures |c.pages| == PAGER_MAX_PAGES && !WasAccessed(c.pages[k], v)
  {
    AccessedIsUsed(c, v, k);
  }

  lemma {:induction false} QuietHere(c: Cache, v: Vm, d: Cache)
    requires Quiet(c, v) && d.pages == c.pages
    ensures Quiet(d, v)
  {
  }

  /** A page out of memory does not look accessed. */
  lemma {:induction false} AbsentIsNotAccessed(c: Cache, v: Vm, k: nat)
    requires Kept(c, v) && k < PAGER_MAX_PAGES && !c.pages[k].present
    ensures |c.pages| == PAGER_MAX_PAGES && !WasAccessed(c.pages[k], v)
  {
    assert PageOk(c.pages[k], v, k);
    NoDirectoryZero(v);
  }

  lemma {:induction false} AbsentIsUnmapped(c: Cache, v: Vm, k: nat)
    requires Kept(c, v) && k < PAGER_MAX_PAGES && !c.pages[k].present && c.pages[k].used
    ensures EntryAt(v, KeyOf(c.pages[k])) == Empty
  {
    assert PageOk(c.pages[k], v, k);
  }

  /** What an eviction does to the accessed bits: nothing, but that the page is gone. */
  lemma {:induction false} StaleAccess(c: Cache, v: Vm, k: nat, bytes: seq<Byte>)
    requires Kept(c, v) && k < PAGER_MAX_PAGES && !c.pages[k].present
    ensures var d := Evicted(c, k, bytes); SameAccess(c.pages, v, d.pages, v, k) && !WasAccessed(d.pages[k], v)
  {
    AbsentIsNotAccessed(c, v, k);
  }

  lemma {:induction false} SamplingAllBegins(c: Cache, v: Vm)
    requires Kept(c, v)
    ensures SampledAll(c, v, c.pages, v, c.tick, 0)
    ensures forall k :: 0 <= k < PAGER_MAX_PAGES && !c.pages[k].used ==> !WasAccessed(c.pages[k], v)
  {
    UnusedNever(c, v);
  }

  /** Every page is quiet once all resident ones were sampled. */
  lemma {:induction false} SamplingAllDone(c: Cache, v: Vm, d: Cache, w: Vm)
    requires Undisturbed(c, v, d, w) && SampledAll(c, v, d.pages, w, d.tick, c.resident)
    ensures Quiet(d, w)
  {
    forall k | 0 <= k < PAGER_MAX_PAGES && d.pages[k].used ensures !WasAccessed(d.pages[k], w) {
      assert PageOk(d.pages[k], w, k) && PageOk(c.pages[k], v, k);
      if d.pages[k].present {
        assert HasSlot(c, k) && InSlots(c.slots, c.resident, k);
      }
    }
  }

  lemma {:induction false} UndisturbedItself(c: Cache, v: Vm)
    requires Kept(c, v)
    ensures Undisturbed(c, v, c, v)
  {
    AccessedItself(v);
  }

  lemma {:induction false} AccessedItself(v: Vm)
    requires Sound(v)
    ensures AccessedOnly(v, v)
  {
    AlikeItself(v);
  }

  /** A not-present fault at `key` is repaired: the page is registered, and present or
      able to come in. */
  ghost predicate FaultWorks(c: Cache, v: Vm, freePages: nat, key: Key)
    requires Kept(c, v)
  {
    exists k :: RepairsFault(c, v, freePages, key, k)
  }

  ghost predicate RepairsFault(c: Cache, v: Vm, freePages: nat, key: Key, k: nat)
    requires Kept(c, v)
  {
    && k < PAGER_MAX_PAGES && c.pages[k].used && KeyOf(c.pages[k]) == key
    && (c.pages[k].present || (IsDir(v, c.pages[k].dir) && CanPageIn(c, v, freePages, k)))
  }

  predicate IsNowPresent(pages: seq<PagerPage>, key: Key, k: nat) {
    k < |pages| && pages[k].present && pages[k].used && KeyOf(pages[k]) == key
  }

  /** Page `k` is present after a fault; if it was not before, it is mapped with its flags. */
  ghost predicate Repaired(before: seq<PagerPage>, pages: seq<PagerPage>, w: Vm, key: Key, k: nat) {
    && IsNowPresent(pages, key, k) && k < |before|
    && (!before[k].present ==> EntryAt(w, key) == Entry(pages[k].frame, pages[k].writable, pages[k].user, false))
  }

  /** A search decides what a fault finds. */
  lemma {:induction false} FoundIsThatPage(c: Cache, v: Vm, flat: Flat, key: Key, found: bool, k: nat)
    requires Kept(c, v) && SameKeys(c.pages, flat) && (found <==> key in flat)
    requires found ==> k < PAGER_MAX_PAGES && c.pages[k].used && KeyOf(c.pages[k]) == key
    ensures found ==> IsDir(v, c.pages[k].dir)
    ensures forall freePages: nat :: FaultWorks(c, v, freePages, key) <==>
              found && (c.pages[k].present || CanPageIn(c, v, freePages, k))
  {
    if found {
      var q := KeyHasPage(c, v, flat, key);
      assert PageOk(c.pages[k], v, k);
      forall freePages: nat ensures FaultWorks(c, v, freePages, key) <==> c.pages[k].present || CanPageIn(c, v, freePages, k) {
        assert RepairsFault(c, v, freePages, key, k) <==> c.pages[k].present || CanPageIn(c, v, freePages, k);
      }
    } else {
      assert forall j :: 0 <= j < PAGER_MAX_PAGES && c.pages[j].used ==> KeyOf(c.pages[j]) in flat;
    }
  }

  lemma {:induction false} OutsideItself(v: Vm, flat: Flat)
    requires Sound(v)
    ensures OutsideKept(v, v, flat)
  {
    AccessedItself(v);
    AccessedIsOutside(v, v, flat);
  }

  // ---- registration ----------------------------------------------------------------------------

  predicate HasFreeEntry(pages: seq<PagerPage>) {
    exists k :: 0 <= k < |pages| && !pages[k].used
  }

  /** The keys registered in the first `n` entries. */
  ghost function KeysBelow(pages: seq<PagerPage>, n: nat): set<Key>
    requires n <= |pages|
  {
    if n == 0 then {}
    else if pages[n - 1].used then KeysBelow(pages, n - 1) + {KeyOf(pages[n - 1])}
    else KeysBelow(pages, n - 1)
  }

  predicate IsBelow(pages: seq<PagerPage>, n: nat, key: Key)
    requires n <= |pages|
  {
    exists k :: 0 <= k < n && pages[k].used && KeyOf(pages[k]) == key
  }

  lemma {:induction false} KeysBelowAre(pages: seq<PagerPage>, n: nat, key: Key)
    requires n <= |pages|
    ensures key in KeysBelow(pages, n) <==> IsBelow(pages, n, key)
  {
    if n > 0 {
      KeysBelowAre(pages, n - 1, key);
      if IsBelow(pages, n, key) && !IsBelow(pages, n - 1, key) {
        assert pages[n - 1].used && KeyOf(pages[n - 1]) == key;
      }
    }
  }

  lemma {:induction false} KeysBelowCount(pages: seq<PagerPage>, n: nat)
    requires n <= |pages| && KeysDiffer(pages)
    ensures |KeysBelow(pages, n)| <= n
    ensures |KeysBelow(pages, n)| == n <==> forall k :: 0 <= k < n ==> pages[k].used
  {
    if n > 0 {
      KeysBelowCount(pages, n - 1);
      KeysBelowAre(pages, n - 1, KeyOf(pages[n - 1]));
    }
  }

  /** There is a free entry exactly while fewer pages are registered than there are entries. */
  lemma {:induction false} FreeEntryCount(c: Cache, v: Vm, flat: Flat)
    requires Kept(c, v) && SameKeys(c.pages, flat)
    ensures HasFreeEntry(c.pages) <==> |flat| < PAGER_MAX_PAGES
    ensures |flat| <= PAGER_MAX_PAGES
  {
    KeysBelowCount(c.pages, PAGER_MAX_PAGES);
    forall key ensures key in flat <==> key in KeysBelow(c.pages, PAGER_MAX_PAGES) {
      KeysBelowAre(c.pages, PAGER_MAX_PAGES, key);
      assert key in flat ==> Registered(c.pages, key);
    }
    assert flat.Keys == KeysBelow(c.pages, PAGER_MAX_PAGES);
  }

  /** The page registered under `key` has these rights. */
  predicate Flagged(pages: seq<PagerPage>, key: Key, writable: bool, user: bool) {
    forall k :: 0 <= k < |pages| && pages[k].used && KeyOf(pages[k]) == key ==> pages[k].writable == writable && pages[k].user == user
  }

  predicate FirstFree(pages: seq<PagerPage>, k: nat) {
    k < |pages| && !pages[k].used && forall j :: 0 <= j < k ==> pages[j].used
  }

  ghost predicate PresentKey(pages: seq<PagerPage>, key: Key) {
    exists k :: IsNowPresent(pages, key, k)
  }

  /** Pages with other keys are as before. */
  ghost predicate OnlyKeyChanged(p: seq<PagerPage>, q: seq<PagerPage>, key: Key) {
    |p| == |q| && forall k :: 0 <= k < |p| && ((p[k].used && KeyOf(p[k]) != key) || (q[k].used && KeyOf(q[k]) != key)) ==> q[k] == p[k]
  }

  lemma {:induction false} AlignedIsDown(virt: U32)
    requires Aligned(virt)
    ensures AlignDown(virt) == virt
  {
  }

  lemma {:induction false} NoKeyZero(c: Cache, v: Vm, flat: Flat, virt: U32)
    requires Kept(c, v) && SameKeys(c.pages, flat)
    ensures (0, virt) !in flat
  {
    if (0, virt) in flat {
      var k := KeyHasPage(c, v, flat, (0, virt));
      NoDirectoryZero(v);
      assert false;
    }
  }

  lemma {:induction false} AccessedItselfOf(c: Cache, v: Vm)
    requires Kept(c, v)
    ensures Sound(v) && AccessedOnly(v, v)
  {
    AccessedItself(v);
  }

  lemma {:induction false} KeyIsOfOnePage(c: Cache, v: Vm, flat: Flat, key: Key, k: nat)
    requires Kept(c, v) && SameKeys(c.pages, flat) && key in flat
    requires k < PAGER_MAX_PAGES && c.pages[k].used && KeyOf(c.pages[k]) == key
    ensures forall j :: 0 <= j < PAGER_MAX_PAGES && c.pages[j].used && KeyOf(c.pages[j]) == key ==> j == k
    ensures PresentKey(c.pages, key) <==> c.pages[k].present
    ensures |c.pages| == PAGER_MAX_PAGES && c.hand < PAGER_FRAME_LIMIT
  {
    var q := KeyHasPage(c, v, flat, key);
    assert c.pages[k].present ==> IsNowPresent(c.pages, key, k);
  }

  /** Registering a page again keeps its mapping in order: it has none, or the rights stay. */
  ghost predicate RightsAllow(pages: seq<PagerPage>, key: Key, writable: bool, user: bool) {
    PresentKey(pages, key) ==> Flagged(pages, key, writable, user)
  }

  lemma {:induction false} RewriteRights(c: Cache, v: Vm, flat: Flat, k: nat, writable: bool, user: bool)
    requires Kept(c, v) && k < PAGER_MAX_PAGES && c.pages[k].used && SameKeys(c.pages, flat)
    ensures var q := c.pages[k := c.pages[k].(writable := writable, user := user)];
            && Flagged(q, KeyOf(c.pages[k]), writable, user)
            && (RightsFit(c.pages, v) && RightsAllow(c.pages, KeyOf(c.pages[k]), writable, user) ==> RightsFit(q, v))
  {
    KeyIsOfOnePage(c, v, flat, KeyOf(c.pages[k]), k);
    var q := c.pages[k := c.pages[k].(writable := writable, user := user)];
    if RightsFit(c.pages, v) && RightsAllow(c.pages, KeyOf(c.pages[k]), writable, user) {
      forall j | 0 <= j < |q| && q[j].present ensures RightsFitOne(q[j], EntryAt(v, KeyOf(q[j]))) {
        assert RightsFitOne(c.pages[j], EntryAt(v, KeyOf(c.pages[j])));
      }
    }
  }

  lemma {:induction false} RewriteBooked(c: Cache, v: Vm, k: nat, writable: bool, user: bool, bytes: seq<Byte>, flat: Flat)
    requires Kept(c, v) && k < PAGER_MAX_PAGES && c.pages[k].used && |bytes| == PAGE_SIZE && SameKeys(c.pages, flat)
    ensures var d := Rewritten(c, k, writable, user, bytes);
            var newFlat := if c.pages[k].present then flat else flat[KeyOf(c.pages[k]) := bytes];
            && Kept(d, v) && SameKeys(d.pages, newFlat) && (Tidy(c) ==> Tidy(d))
            && (Agrees(c, v, flat) ==> Agrees(d, v, newFlat))
  {
    hide PagesOk, HasSlot, Tidy, Agrees, PageOk;
    var d := Rewritten(c, k, writable, user, bytes);
    RewriteKeeps(c, v, k, writable, user, bytes);
    KeysStay(c.pages, d.pages, flat);
    assert flat[KeyOf(c.pages[k]) := bytes].Keys == flat.Keys;
    if Agrees(c, v, flat) {
      RewriteAgrees(c, v, k, writable, user, bytes, flat);
    }
  }

  lemma {:induction false} EnterBooked(c: Cache, v: Vm, k: nat, dir: nat, virt: U32, writable: bool, user: bool,
                                       bytes: seq<Byte>, flat: Flat)
    requires Kept(c, v) && k < PAGER_MAX_PAGES && !c.pages[k].used && |bytes| == PAGE_SIZE && SameKeys(c.pages, flat)
    requires IsDir(v, dir) && Aligned(virt) && virt < VMM_KERNEL_BASE && EntryAt(v, (dir, virt)) == Empty
    requires (dir, virt) !in flat
    ensures var d := Entered(c, k, dir, virt, writable, user, bytes);
            && Kept(d, v) && SameKeys(d.pages, flat[(dir, virt) := bytes]) && (Tidy(c) ==> Tidy(d))
            && (Agrees(c, v, flat) ==> Agrees(d, v, flat[(dir, virt) := bytes]))
    ensures !PresentKey(c.pages, (dir, virt))
  {
    hide PagesOk, HasSlot, Tidy, Agrees, PageOk;
    assert Registered(c.pages, (dir, virt)) ==> (dir, virt) in flat;
    assert PresentKey(c.pages, (dir, virt)) ==> Registered(c.pages, (dir, virt));
    EnterKeeps(c, v, k, dir, virt, writable, user, bytes);
    EnterKeys(c, k, dir, virt, writable, user, bytes, flat);
    if Agrees(c, v, flat) {
      EnterAgrees(c, v, k, dir, virt, writable, user, bytes, flat);
    }
  }

  // ---- unregistering -----------------------------------------------------------------------------

  /** The frame the page of a key has, if any. */
  ghost function FramesOfKey(pages: seq<PagerPage>, key: Key): set<nat> {
    set k: nat | k < |pages| && IsNowPresent(pages, key, k) :: pages[k].frame
  }

  lemma {:induction false} FrameOfOne(c: Cache, v: Vm, flat: Flat, k: nat)
    requires Kept(c, v) && SameKeys(c.pages, flat) && k < PAGER_MAX_PAGES && c.pages[k].used
    ensures KeyOf(c.pages[k]) in flat
    ensures FramesOfKey(c.pages, KeyOf(c.pages[k])) == if c.pages[k].present then {c.pages[k].frame} else {}
  {
    var key := KeyOf(c.pages[k]);
    KeyIsOfOnePage(c, v, flat, key, k);
    assert forall j: nat :: IsNowPresent(c.pages, key, j) ==> j == k;
    assert c.pages[k].present ==> IsNowPresent(c.pages, key, k);
  }

  lemma {:induction false} NothingReleased(c: Cache, v: Vm, flat: Flat, key: Key)
    requires Kept(c, v) && SameKeys(c.pages, flat)
    ensures OutsideKept(v, v, flat) && OnlyKeyChanged(c.pages, c.pages, key)
    ensures key !in flat ==> flat - {key} == flat && Released(v, v, FramesOfKey(c.pages, key))
    ensures key.0 == 0 ==> key !in flat
    ensures |c.pages| == PAGER_MAX_PAGES
  {
    OutsideItself(v, flat);
    NoKeyZero(c, v, flat, key.1);
    if key !in flat {
      assert FramesOfKey(c.pages, key) == {};
      ReleasedNone(v);
    }
  }

  lemma {:induction false} ReleasedNone(v: Vm)
    requires Sound(v)
    ensures Released(v, v, {})
  {
    forall f: nat | IsLeaf(v, f) && f < |v.frames| ensures SameFrame(v, v, f) {
    }
  }

  lemma {:induction false} AbsentFacts(c: Cache, v: Vm, flat: Flat, k: nat)
    requires Kept(c, v) && SameKeys(c.pages, flat) && k < PAGER_MAX_PAGES && c.pages[k].used && !c.pages[k].present
    ensures OutsideKept(v, v, flat) && EntryAt(v, KeyOf(c.pages[k])) == Empty
    ensures Released(v, v, FramesOfKey(c.pages, KeyOf(c.pages[k])))
  {
    OutsideItself(v, flat);
    FrameOfOne(c, v, flat, k);
    ReleasedNone(v);
    assert PageOk(c.pages[k], v, k);
  }

  lemma {:induction false} PresentFacts(c: Cache, v: Vm, u: Vm, w: Vm, flat: Flat, k: nat)
    requires Kept(c, v) && SameKeys(c.pages, flat) && k < PAGER_MAX_PAGES && c.pages[k].present && PageOk(c.pages[k], v, k)
    requires FrameGivenBack(c, v, u, w, k) && u.used == v.used
    ensures EntryAt(w, KeyOf(c.pages[k])) == Empty
    ensures Released(v, w, FramesOfKey(c.pages, KeyOf(c.pages[k])))
  {
    var p := c.pages[k];
    FrameOfOne(c, v, flat, k);
    assert IsDir(u, p.dir) && IsDir(w, p.dir);
    forall f: nat | IsLeaf(w, f) && f < |v.frames| ensures SameFrame(v, w, f) {
      assert IsLeaf(v, f);
    }
  }

  lemma {:induction false} ForgetAbsentBooked(c: Cache, v: Vm, k: nat, flat: Flat)
    requires Kept(c, v) && k < PAGER_MAX_PAGES && c.pages[k].used && !c.pages[k].present && SameKeys(c.pages, flat)
    ensures var d := Forgotten(c, k);
            && Kept(d, v) && SameKeys(d.pages, flat - {KeyOf(c.pages[k])}) && (Tidy(c) ==> Tidy(d))
            && (Agrees(c, v, flat) ==> Agrees(d, v, flat - {KeyOf(c.pages[k])}))
  {
    ForgetAbsentKeeps(c, v, k);
    ForgetKeys(c.pages, c.pages[k := UNUSED], k, flat);
    if Agrees(c, v, flat) {
      forall j | 0 <= j < PAGER_MAX_PAGES && j != k && c.pages[j].used
        ensures PageOk(c.pages[j], v, j) && SeesNoChange(c.pages[j], v, v)
      {
        assert PageOk(c.pages[j], v, j);
      }
      ForgetAgrees(c, Forgotten(c, k), v, v, k, flat);
    }
  }

  lemma {:induction false} ForgetPresentBooked(c: Cache, v: Vm, u: Vm, w: Vm, k: nat, s: nat, flat: Flat)
    requires Kept(c, v) && k < PAGER_MAX_PAGES && c.pages[k].present && c.pages[k].used && PageOk(c.pages[k], v, k)
    requires FrameGivenBack(c, v, u, w, k) && s < c.resident && c.slots[s] == k && SameKeys(c.pages, flat)
    ensures var d := Forgotten(SlotRemoved(c, s), k);
            && Kept(d, w) && SameKeys(d.pages, flat - {KeyOf(c.pages[k])}) && (Tidy(c) ==> Tidy(d))
            && (Agrees(c, v, flat) ==> Agrees(d, w, flat - {KeyOf(c.pages[k])}))
  {
    ForgetPresentKeeps(c, v, u, w, k, s);
    ForgetKeys(c.pages, c.pages[k := UNUSED], k, flat);
    if Agrees(c, v, flat) {
      forall j | 0 <= j < PAGER_MAX_PAGES && j != k && c.pages[j].used
        ensures PageOk(c.pages[j], v, j) && SeesNoChange(c.pages[j], v, w)
      {
        EvictionUnseen(c, v, u, w, k, j);
      }
      ForgetAgrees(c, Forgotten(SlotRemoved(c, s), k), v, w, k, flat);
    }
  }

  // ---- user accesses -------------------------------------------------------------------------------

  predicate MayAccess(e: Entry, write: bool) {
    e.Entry? && e.user && (write ==> e.writable)
  }

  /** A user access to `key` works: its page is mapped with the right to it, or can come in
      with that right. */
  ghost predicate AccessWorks(c: Cache, v: Vm, freePages: nat, key: Key, write: bool)
    requires Kept(c, v)
  {
    exists k :: WorksFor(c, v, freePages, key, write, k)
  }

  /** An access to `key` leaves the resident slots a bijection: it is no page of the pager,
      or it is one that is present or can come in. */
  ghost predicate FramesSuffice(c: Cache, v: Vm, freePages: nat, flat: Flat, key: Key)
    requires Kept(c, v)
  {
    key in flat ==> FaultWorks(c, v, freePages, key)
  }

  ghost predicate WorksFor(c: Cache, v: Vm, freePages: nat, key: Key, write: bool, k: nat)
    requires Kept(c, v)
  {
    && RepairsFault(c, v, freePages, key, k)
    && if c.pages[k].present then MayAccess(EntryAt(v, key), write)
       else c.pages[k].user && (write ==> c.pages[k].writable)
  }

  lemma {:induction false} AccessWhenMapped(c: Cache, v: Vm, freePages: nat, key: Key, write: bool, flat: Flat) returns (k: nat)
    requires Kept(c, v) && SameKeys(c.pages, flat) && key in flat && EntryAt(v, key).Entry?
    ensures IsNowPresent(c.pages, key, k) && EntryAt(v, key).frame == c.pages[k].frame
    ensures AccessWorks(c, v, freePages, key, write) <==> MayAccess(EntryAt(v, key), write)
  {
    k := KeyHasPage(c, v, flat, key);
    assert WorksFor(c, v, freePages, key, write, k) <==> MayAccess(EntryAt(v, key), write);
  }

  /** After a fault at an unmapped key: no repair, no access; after a repair the new mapping
      decides. */
  lemma {:induction false} AccessWhenUnmapped(c: Cache, v: Vm, freePages: nat, key: Key, flat: Flat, d: Cache, w: Vm)
    requires Kept(c, v) && SameKeys(c.pages, flat) && EntryAt(v, key) == Empty
    ensures key !in flat ==> !FaultWorks(c, v, freePages, key)
    ensures forall write :: !FaultWorks(c, v, freePages, key) ==> !AccessWorks(c, v, freePages, key, write)
    ensures FaultWorks(c, v, freePages, key) && SameRegistration(c.pages, d.pages)
            && (exists k: nat :: Repaired(c.pages, d.pages, w, key, k))
            ==> forall write :: AccessWorks(c, v, freePages, key, write) <==> MayAccess(EntryAt(w, key), write)
  {
    forall write | AccessWorks(c, v, freePages, key, write) ensures FaultWorks(c, v, freePages, key) {
      var k: nat :| WorksFor(c, v, freePages, key, write, k);
      assert RepairsFault(c, v, freePages, key, k);
    }
    if FaultWorks(c, v, freePages, key) {
      var k: nat :| RepairsFault(c, v, freePages, key, k);
      assert PageOk(c.pages[k], v, k) && !c.pages[k].present;
      assert KeyOf(c.pages[k]) in flat;
      if SameRegistration(c.pages, d.pages) && exists j: nat :: Repaired(c.pages, d.pages, w, key, j) {
        var j: nat :| Repaired(c.pages, d.pages, w, key, j);
        assert c.pages[j].used && KeyOf(c.pages[j]) == key;
        assert j == k;
        forall write ensures AccessWorks(c, v, freePages, key, write) <==> MayAccess(EntryAt(w, key), write) {
          assert WorksFor(c, v, freePages, key, write, k) <==> MayAccess(EntryAt(w, key), write);
          forall i: nat | WorksFor(c, v, freePages, key, write, i) ensures i == k {
          }
        }
      }
    }
  }

  lemma {:induction false} RepairedIsMapped(before: seq<PagerPage>, c: Cache, w: Vm, flat: Flat, key: Key)
    requires Kept(c, w) && SameKeys(c.pages, flat) && exists k: nat :: Repaired(before, c.pages, w, key, k)
    ensures key in flat && EntryAt(w, key).Entry?
  {
    var k: nat :| Repaired(before, c.pages, w, key, k);
    assert PageOk(c.pages[k], w, k);
  }

  lemma {:induction false} EntryAtIs(v: Vm, d: nat, x: U32)
    requires Sound(v) && IsDir(v, d)
    ensures EntryAt(v, (d, x)) == Lookup(v, d, x)
  {
  }

  /** The bytes in memory are the page's bytes of the flat memory. */
  lemma {:induction false} PresentHoldsFlat(c: Cache, v: Vm, flat: Flat, k: nat)
    requires Kept(c, v) && k < PAGER_MAX_PAGES && c.pages[k].present && c.pages[k].used && Agrees(c, v, flat)
    ensures KeyOf(c.pages[k]) in flat && IsPageAt(v, c.pages[k].frame)
    ensures flat[KeyOf(c.pages[k])] == v.frames[c.pages[k].frame].bytes
  {
    assert PageAgrees(c, v, flat, k);
  }

  ghost predicate HoldsByte(flat: Flat, key: Key, offset: nat, b: Byte) {
    key in flat && offset < |flat[key]| && flat[key][offset] == b
  }

  function WithByte(bytes: seq<Byte>, offset: nat, b: Byte): (after: seq<Byte>)
    requires offset < |bytes|
    ensures |after| == |bytes|
  {
    bytes[offset := b]
  }

  /** `after` is `before` with one byte of one page changed. */
  ghost predicate ByteStored(before: Flat, after: Flat, key: Key, offset: nat, b: Byte) {
    key in before && offset < |before[key]| && after == before[key := WithByte(before[key], offset, b)]
  }

  lemma {:induction false} FrameHasBytes(c: Cache, v: Vm, flat: Flat, k: nat)
    requires Kept(c, v) && k < |c.pages| && c.pages[k].present && c.pages[k].used
    ensures c.pages[k].frame < |v.frames| && IsPage(v.frames[c.pages[k].frame])
    ensures Agrees(c, v, flat) ==> KeyOf(c.pages[k]) in flat && flat[KeyOf(c.pages[k])] == v.frames[c.pages[k].frame].bytes
  {
    assert PageOk(c.pages[k], v, k);
    if Agrees(c, v, flat) {
      PresentHoldsFlat(c, v, flat, k);
    }
  }

  lemma {:induction false} WriteBooked(c: Cache, v: Vm, w: Vm, k: nat, bytes: seq<Byte>, flat: Flat)
    requires Kept(c, v) && k < PAGER_MAX_PAGES && c.pages[k].present && c.pages[k].used && PageOk(c.pages[k], v, k)
    requires |bytes| == PAGE_SIZE && LeavesOnly(v, w) && SameKeys(c.pages, flat)
    requires w == v.(frames := v.frames[c.pages[k].frame := Data(bytes)])
    ensures Kept(c, w) && SameKeys(c.pages, flat[KeyOf(c.pages[k]) := bytes])
    ensures OutsideKept(v, w, flat)
    ensures Agrees(c, v, flat) ==> Agrees(c, w, flat[KeyOf(c.pages[k]) := bytes])
  {
    hide HasSlot, Agrees, SameLookups;
    LeavesOnlyKeeps(v, w);
    assert PageWritten(c, v, w, k, bytes);
    WriteKeeps(c, v, w, k, bytes);
    assert flat[KeyOf(c.pages[k]) := bytes].Keys == flat.Keys;
    FilledOutside(v, w, c.pages[k].frame, bytes, flat);
    if Agrees(c, v, flat) {
      WriteAgrees(c, v, w, k, bytes, flat);
    }
  }

  ghost predicate SameBits(pages: seq<PagerPage>, v: Vm, w: Vm) {
    forall j :: 0 <= j < |pages| && pages[j].used ==> (WasAccessed(pages[j], w) <==> WasAccessed(pages[j], v))
  }

  lemma {:induction false} BitsStay(c: Cache, v: Vm, w: Vm, k: nat)
    requires SameBits(c.pages, v, w) && k < |c.pages| && c.pages[k].used
    ensures WasAccessed(c.pages[k], v) ==> WasAccessed(c.pages[k], w)
    ensures OnlyAccessed(c, v, k) ==> OnlyAccessed(c, w, k)
  {
  }

  /** Writing data touches no accessed bit and no right. */
  lemma {:induction false} WrittenRights(c: Cache, v: Vm, w: Vm)
    requires Kept(c, v) && Kept(c, w) && LeavesOnly(v, w)
    ensures SameBits(c.pages, v, w)
    ensures RightsFit(c.pages, v) ==> RightsFit(c.pages, w)
  {
    LeavesOnlyKeeps(v, w);
    hide LeavesOnly, Sound;
    forall j | 0 <= j < PAGER_MAX_PAGES && c.pages[j].used
      ensures EntryAt(w, KeyOf(c.pages[j])) == EntryAt(v, KeyOf(c.pages[j])) && (WasAccessed(c.pages[j], w) <==> WasAccessed(c.pages[j], v))
    {
      assert PageOk(c.pages[j], v, j) && IsDir(w, c.pages[j].dir);
    }
    forall j | 0 <= j < PAGER_MAX_PAGES && c.pages[j].present ensures c.pages[j].used {
      assert PageOk(c.pages[j], v, j);
    }
  }

  /** A mapped key is that of a present page: nothing comes in. */
  lemma {:induction false} MappedIsThere(c: Cache, v: Vm, flat: Flat, key: Key, freePages: nat, slot: nat, pageZero: seq<Byte>)
    requires Kept(c, v) && SameKeys(c.pages, flat) && slot < PAGER_FRAME_LIMIT && key in flat && EntryAt(v, key).Entry?
    ensures Tidy(c) ==> RoomHarmless(c, slot, pageZero)
    ensures !BringsIn(c.pages, key) && FramesSuffice(c, v, freePages, flat, key) && SameRegistration(c.pages, c.pages)
    ensures forall write :: AccessWorks(c, v, freePages, key, write) <==> MayAccess(EntryAt(v, key), write)
    ensures KeyTicked(c.pages, c.tick, c.pages, c.tick, key)
  {
    assert Shaped(c);
    TidyRoomIsHarmless(c, slot, pageZero);
    var k := KeyHasPage(c, v, flat, key);
    assert RepairsFault(c, v, freePages, key, k);
    forall write ensures AccessWorks(c, v, freePages, key, write) <==> MayAccess(EntryAt(v, key), write) {
      var j := AccessWhenMapped(c, v, freePages, key, write, flat);
    }
    NothingTicked(c.pages, c.tick, k);
    assert KeyTickedAt(c.pages, c.tick, c.pages, c.tick, key, k);
  }

  /** The present page behind a mapped key. */
  lemma {:induction false} EntryHasPage(c: Cache, v: Vm, flat: Flat, key: Key) returns (k: nat)
    requires Kept(c, v) && SameKeys(c.pages, flat) && key in flat && EntryAt(v, key).Entry?
    ensures IsNowPresent(c.pages, key, k) && EntryAt(v, key).frame == c.pages[k].frame && k < PAGER_MAX_PAGES
  {
    k := KeyHasPage(c, v, flat, key);
  }

  lemma {:induction false} UndisturbedAgreesBack(c: Cache, v: Vm, w: Vm, flat: Flat)
    requires Undisturbed(c, v, c, w)
    ensures Agrees(c, v, flat) <==> Agrees(c, w, flat)
  {
    hide Agrees;
    UndisturbedAgrees(c, v, c, w, flat);
    assert Undisturbed(c, w, c, v) by {
      AccessedBack(v, w);
    }
    UndisturbedAgrees(c, w, c, v, flat);
  }

  lemma {:induction false} AccessedBack(v: Vm, w: Vm)
    requires Sound(v) && Sound(w) && AccessedOnly(v, w)
    ensures AccessedOnly(w, v)
  {
    forall f: nat | IsLeaf(w, f) ensures SameFrame(w, v, f) {
      assert IsLeaf(v, f) && SameFrame(v, w, f);
    }
    forall d: nat, x: U32 | IsDir(w, d) && Aligned(x) ensures SameButAccessed(Lookup(w, d, x), Lookup(v, d, x)) {
      assert IsDir(v, d) && SameButAccessed(Lookup(v, d, x), Lookup(w, d, x));
    }
  }

  /** Touching the page of an access, after the page was there or came in. */
  lemma {:induction false} TouchedKeeps(c: Cache, v: Vm, d: Cache, u: Vm, w: Vm, key: Key, k: nat)
    requires Undisturbed(d, u, d, w) && k < PAGER_MAX_PAGES && d.pages[k].used && KeyOf(d.pages[k]) == key
    requires WasAccessed(d.pages[k], w) && SameAccess(d.pages, u, d.pages, w, k) && SameRegistration(c.pages, d.pages)
    ensures RightsFit(d.pages, u) ==> RightsFit(d.pages, w)
    ensures Quiet(d, u) ==> OnlyAccessed(d, w, k)
    ensures KeyTicked(c.pages, c.tick, d.pages, d.tick, key) ==> TickedOnly(c.pages, c.tick, d.pages, d.tick, k)
    ensures c == d ==> TickedOnly(c.pages, c.tick, d.pages, d.tick, k)
  {
    if RightsFit(d.pages, u) {
      UndisturbedRights(d, u, d, w);
    }
    if KeyTicked(c.pages, c.tick, d.pages, d.tick, key) {
      var j: nat :| KeyTickedAt(c.pages, c.tick, d.pages, d.tick, key, j);
      assert d.pages[j].used && KeyOf(d.pages[j]) == key;
      assert KeysDiffer(d.pages);
      assert j == k;
    }
  }

  lemma {:induction false} TouchedOnlyThat(c: Cache, v: Vm, w: Vm, k: nat)
    requires Kept(c, v) && k < PAGER_MAX_PAGES && Sound(w) && IsDir(v, c.pages[k].dir) && c.pages[k].used
    requires Lookup(v, c.pages[k].dir, c.pages[k].virt).Entry?
    requires Remapped(v, w, c.pages[k].dir, c.pages[k].virt, Lookup(v, c.pages[k].dir, c.pages[k].virt).(accessed := true))
    ensures WasAccessed(c.pages[k], w) && SameAccess(c.pages, v, c.pages, w, k)
  {
    assert PageOk(c.pages[k], v, k) && IsDir(w, c.pages[k].dir);
    forall j | 0 <= j < PAGER_MAX_PAGES && c.pages[j].used && j != k
      ensures WasAccessed(c.pages[j], w) <==> WasAccessed(c.pages[j], v)
    {
      assert PageOk(c.pages[j], v, j) && KeyOf(c.pages[j]) != KeyOf(c.pages[k]);
      assert Elsewhere(c.pages[j].dir, c.pages[j].virt, c.pages[k].dir, c.pages[k].virt);
    }
  }

  lemma {:induction false} FilledOutside(v: Vm, w: Vm, f: nat, bytes: seq<Byte>, flat: Flat)
    requires Sound(v) && Sound(w) && f in v.owner && v.owner[f].PagerFrame? && LeavesOnly(v, w)
    requires f < |v.frames| && w == v.(frames := v.frames[f := Data(bytes)])
    ensures OutsideKept(v, w, flat)
  {
    LeavesOnlyKeeps(v, w);
    forall g | g != f && g in v.owner ensures SameFrame(v, w, g) {
      assert FrameOk(v, g);
    }
    PagerFrameIsOutside(v, w, f, flat);
  }
}
