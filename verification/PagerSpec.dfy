/** The pager as a cache: 128 logical pages, 16 resident ones, a swap slot for each page
    (page k's slot is number k). */
module PagerSpec {
  import opened Machine
  import opened PmmSpec
  import opened VmmSpec

  const PAGER_MAX_PAGES: nat := 128
  const PAGER_FRAME_LIMIT: nat := 16

  datatype PagerPage = PagerPage(used: bool, present: bool, swapped: bool, dir: nat, virt: U32, frame: nat,
                                 writable: bool, user: bool, lastUsed: U32, pinned: bool)

  const UNUSED := PagerPage(false, false, false, 0, 0, 0, false, false, 0, false)

  /** `slots` says which page each resident frame holds; those below `resident` count. */
  datatype Cache = Cache(pages: seq<PagerPage>, slots: seq<nat>, resident: nat, hand: nat, tick: U32, swap: seq<seq<Byte>>)

  type Key = (nat, U32)

  function KeyOf(p: PagerPage): Key {
    (p.dir, p.virt)
  }

  ghost predicate Shaped(c: Cache) {
    && |c.pages| == |c.swap| == PAGER_MAX_PAGES && |c.slots| == PAGER_FRAME_LIMIT
    && c.resident <= PAGER_FRAME_LIMIT && c.hand < PAGER_FRAME_LIMIT
    && (forall i :: 0 <= i < PAGER_FRAME_LIMIT ==> c.slots[i] < PAGER_MAX_PAGES)
    && (forall k :: 0 <= k < PAGER_MAX_PAGES ==> |c.swap[k]| == PAGE_SIZE)
  }

  ghost predicate HasSlot(c: Cache, k: nat)
    requires Shaped(c)
  {
    exists i :: 0 <= i < c.resident && c.slots[i] == k
  }

  /** Page `k` is mapped to the frame it owns exactly when it is present. */
  ghost predicate PageOk(p: PagerPage, v: Vm, k: nat)
    requires Sound(v)
  {
    if !p.used then !p.present && p.dir == 0 && p.frame == 0
    else
      && IsDir(v, p.dir) && Aligned(p.virt) && p.virt < VMM_KERNEL_BASE
      && if p.present then
           && p.frame in v.owner && v.owner[p.frame] == PagerFrame(p.dir, k) && IsPageAt(v, p.frame)
           && Lookup(v, p.dir, p.virt).Entry? && Lookup(v, p.dir, p.virt).frame == p.frame
         else p.frame == 0 && Lookup(v, p.dir, p.virt) == Empty
  }

  ghost predicate IsPageAt(v: Vm, f: nat) {
    f < |v.frames| && IsPage(v.frames[f])
  }

  /** A frame owned by the pager is the frame of a present page. */
  ghost predicate FrameUsed(pages: seq<PagerPage>, v: Vm, f: nat) {
    f in v.owner && v.owner[f].PagerFrame? ==>
      var k := v.owner[f].page;
      k < |pages| && pages[k].present && pages[k].frame == f && pages[k].dir == v.owner[f].dir
  }

  ghost predicate KeysDiffer(pages: seq<PagerPage>) {
    forall j, k :: 0 <= j < k < |pages| && pages[j].used && pages[k].used ==> KeyOf(pages[j]) != KeyOf(pages[k])
  }

  ghost predicate PagesOk(pages: seq<PagerPage>, v: Vm)
    requires Sound(v)
  {
    && KeysDiffer(pages)
    && (forall k :: 0 <= k < |pages| ==> PageOk(pages[k], v, k))
    && (forall f: nat :: FrameUsed(pages, v, f))
  }

  /** What holds at all times, also after a page-in that failed half way. */
  ghost predicate Kept(c: Cache, v: Vm) {
    && Shaped(c) && Sound(v) && PagesOk(c.pages, v)
    && (forall k :: 0 <= k < PAGER_MAX_PAGES && c.pages[k].present ==> HasSlot(c, k))
  }

  /** The resident slots are a bijection onto the present pages. */
  ghost predicate Tidy(c: Cache) {
    && Shaped(c)
    && (forall i :: 0 <= i < c.resident ==> c.pages[c.slots[i]].present)
    && (forall i, j :: 0 <= i < j < c.resident ==> c.slots[i] != c.slots[j])
  }

  /** A page's bytes: its frame's if present, else its swap slot's. */
  ghost function ContentOf(p: PagerPage, v: Vm, swap: seq<Byte>): seq<Byte>
    requires p.present ==> IsPageAt(v, p.frame)
  {
    if p.present then v.frames[p.frame].bytes else swap
  }

  /** The flat memory the pager stands for, as bytes per registered page. */
  type Flat = map<Key, seq<Byte>>

  ghost predicate SameKeys(pages: seq<PagerPage>, flat: Flat) {
    && (forall k :: 0 <= k < |pages| && pages[k].used ==> KeyOf(pages[k]) in flat)
    && (forall key :: key in flat ==> Registered(pages, key))
  }

  ghost predicate Registered(pages: seq<PagerPage>, key: Key) {
    exists k :: 0 <= k < |pages| && pages[k].used && KeyOf(pages[k]) == key
  }

  ghost predicate Agrees(c: Cache, v: Vm, flat: Flat)
    requires Kept(c, v)
  {
    && SameKeys(c.pages, flat)
    && forall k :: 0 <= k < PAGER_MAX_PAGES && c.pages[k].used ==> PageAgrees(c, v, flat, k)
  }

  ghost predicate PageAgrees(c: Cache, v: Vm, flat: Flat, k: nat)
    requires Kept(c, v) && SameKeys(c.pages, flat) && k < PAGER_MAX_PAGES && c.pages[k].used
  {
    PageOk(c.pages[k], v, k) && flat[KeyOf(c.pages[k])] == ContentOf(c.pages[k], v, c.swap[k])
  }

  // ---- changes of memory the pager survives --------------------------------------------

  predicate SameButAccessed(a: Entry, b: Entry) {
    if a.Empty? then b.Empty? else b.Entry? && b == a.(accessed := b.accessed)
  }

  /** Only accessed bits changed. */
  ghost predicate AccessedOnly(v: Vm, w: Vm)
    requires Sound(v) && Sound(w)
  {
    && Alike(v, w) && w.owner == v.owner
    && forall d: nat, x: U32 :: IsDir(v, d) && Aligned(x) ==> SameButAccessed(Lookup(v, d, x), Lookup(w, d, x))
  }

  /** Page `p` sees no difference between `v` and `w`. */
  ghost predicate SeesNoChange(p: PagerPage, v: Vm, w: Vm)
    requires Sound(v) && Sound(w) && p.used && IsDir(v, p.dir)
  {
    && IsDir(w, p.dir) && SameButAccessed(Lookup(v, p.dir, p.virt), Lookup(w, p.dir, p.virt))
    && (p.present ==> p.frame in v.owner && p.frame in w.owner && w.owner[p.frame] == v.owner[p.frame] && SameFrame(v, w, p.frame))
  }

  lemma {:induction false} StillOk(p: PagerPage, v: Vm, w: Vm, k: nat)
    requires Sound(v) && Sound(w) && PageOk(p, v, k) && (p.used ==> SeesNoChange(p, v, w))
    ensures PageOk(p, w, k)
  {
  }

  /** A change none of its pages sees, and that makes no new pager frame, is harmless. */
  lemma {:induction false} StillKept(c: Cache, v: Vm, w: Vm)
    requires Kept(c, v) && Sound(w)
    requires forall k :: 0 <= k < PAGER_MAX_PAGES && c.pages[k].used ==> PageOk(c.pages[k], v, k) && SeesNoChange(c.pages[k], v, w)
    requires forall f :: f in w.owner && w.owner[f].PagerFrame? ==> f in v.owner && v.owner[f] == w.owner[f]
    ensures Kept(c, w)
    ensures forall flat: Flat :: Agrees(c, v, flat) <==> Agrees(c, w, flat)
  {
    forall k | 0 <= k < |c.pages| ensures PageOk(c.pages[k], w, k) {
      StillOk(c.pages[k], v, w, k);
    }
    forall f: nat ensures FrameUsed(c.pages, w, f) {
      assert FrameUsed(c.pages, v, f);
    }
    forall flat: Flat, k | SameKeys(c.pages, flat) && 0 <= k < PAGER_MAX_PAGES && c.pages[k].used
      ensures PageAgrees(c, w, flat, k) <==> PageAgrees(c, v, flat, k)
    {
    }
  }

  lemma {:induction false} AccessedTwice(v: Vm, u: Vm, w: Vm)
    requires Sound(v) && Sound(u) && Sound(w) && AccessedOnly(v, u) && AccessedOnly(u, w)
    ensures AccessedOnly(v, w)
  {
    forall f: nat | IsLeaf(v, f) ensures SameFrame(v, w, f) {
      assert SameFrame(v, u, f) && SameFrame(u, w, f);
    }
    forall d: nat, x: U32 | IsDir(v, d) && Aligned(x) ensures SameButAccessed(Lookup(v, d, x), Lookup(w, d, x)) {
      assert IsDir(u, d) && SameButAccessed(Lookup(v, d, x), Lookup(u, d, x));
    }
  }

  lemma {:induction false} RemapIsAccessedOnly(v: Vm, w: Vm, dir: nat, virt: U32, bit: bool)
    requires Sound(v) && Sound(w) && IsDir(v, dir) && Aligned(virt) && Lookup(v, dir, virt).Entry? && w.owner == v.owner
    requires virt < VMM_KERNEL_BASE
    requires Remapped(v, w, dir, virt, Lookup(v, dir, virt).(accessed := bit))
    ensures AccessedOnly(v, w)
  {
  }

  /** Only use ticks and pins changed. */
  ghost predicate SamePlaces(p: seq<PagerPage>, q: seq<PagerPage>) {
    |p| == |q| && forall k :: 0 <= k < |p| ==> q[k] == p[k].(lastUsed := q[k].lastUsed, pinned := q[k].pinned)
  }

  /** From (c, v) to (d, w) only use ticks, pins, the hand and accessed bits changed. */
  ghost predicate Undisturbed(c: Cache, v: Vm, d: Cache, w: Vm) {
    && Kept(c, v) && Kept(d, w) && AccessedOnly(v, w) && SamePlaces(c.pages, d.pages)
    && d == c.(pages := d.pages, hand := d.hand, tick := d.tick)
  }

  lemma {:induction false} UndisturbedPage(p: PagerPage, q: PagerPage, v: Vm, w: Vm, k: nat)
    requires Sound(v) && Sound(w) && AccessedOnly(v, w) && PageOk(p, v, k)
    requires q == p.(lastUsed := q.lastUsed, pinned := q.pinned)
    ensures PageOk(q, w, k)
    ensures p.present ==> SameFrame(v, w, p.frame)
  {
    assert p.present ==> IsLeaf(v, p.frame);
  }

  lemma {:induction false} UndisturbedKept(c: Cache, v: Vm, d: Cache, w: Vm)
    requires Kept(c, v) && Sound(w) && AccessedOnly(v, w) && SamePlaces(c.pages, d.pages)
    requires d == c.(pages := d.pages, hand := d.hand, tick := d.tick) && d.hand < PAGER_FRAME_LIMIT
    ensures Undisturbed(c, v, d, w)
  {
    forall k | 0 <= k < |d.pages| ensures PageOk(d.pages[k], w, k) {
      UndisturbedPage(c.pages[k], d.pages[k], v, w, k);
    }
    forall f: nat ensures FrameUsed(d.pages, w, f) {
      assert FrameUsed(c.pages, v, f);
    }
    forall k | 0 <= k < PAGER_MAX_PAGES && d.pages[k].present ensures HasSlot(d, k) {
      assert HasSlot(c, k);
    }
  }

  lemma {:induction false} UndisturbedAgrees(c: Cache, v: Vm, d: Cache, w: Vm, flat: Flat)
    requires Undisturbed(c, v, d, w)
    ensures Tidy(c) ==> Tidy(d)
    ensures SameKeys(c.pages, flat) ==> SameKeys(d.pages, flat)
    ensures Agrees(c, v, flat) ==> Agrees(d, w, flat)
  {
    if SameKeys(c.pages, flat) {
      KeysStay(c.pages, d.pages, flat);
    }
    if Agrees(c, v, flat) {
      forall k | 0 <= k < PAGER_MAX_PAGES && d.pages[k].used ensures PageAgrees(d, w, flat, k) {
        assert PageAgrees(c, v, flat, k) && PageOk(d.pages[k], w, k);
        UndisturbedPage(c.pages[k], d.pages[k], v, w, k);
      }
    }
  }

  lemma {:induction false} UndisturbedTwice(c: Cache, v: Vm, d: Cache, u: Vm, e: Cache, w: Vm)
    requires Undisturbed(c, v, d, u) && Undisturbed(d, u, e, w)
    ensures Undisturbed(c, v, e, w)
  {
    AccessedTwice(v, u, w);
  }

  /** The mapping of a key, if its directory exists. */
  ghost function EntryAt(v: Vm, key: Key): Entry {
    if Sound(v) && IsDir(v, key.0) then Lookup(v, key.0, key.1) else Empty
  }

  /** Present pages are mapped with the rights they were registered with. */
  ghost predicate RightsFit(pages: seq<PagerPage>, v: Vm) {
    forall k :: 0 <= k < |pages| && pages[k].present ==> RightsFitOne(pages[k], EntryAt(v, KeyOf(pages[k])))
  }

  predicate RightsFitOne(p: PagerPage, e: Entry) {
    e.Entry? && e.writable == p.writable && e.user == p.user
  }

  lemma {:induction false} UndisturbedRights(c: Cache, v: Vm, d: Cache, w: Vm)
    requires Undisturbed(c, v, d, w) && RightsFit(c.pages, v)
    ensures RightsFit(d.pages, w)
  {
    forall k | 0 <= k < |d.pages| && d.pages[k].present ensures RightsFitOne(d.pages[k], EntryAt(w, KeyOf(d.pages[k]))) {
      assert PageOk(c.pages[k], v, k) && PageOk(d.pages[k], w, k);
    }
  }

  /** Pages that see no change keep their rights. */
  lemma {:induction false} UnseenRights(p: PagerPage, v: Vm, w: Vm, k: nat)
    requires Sound(v) && Sound(w) && p.used && p.present && PageOk(p, v, k) && SeesNoChange(p, v, w)
    requires RightsFitOne(p, EntryAt(v, KeyOf(p)))
    ensures RightsFitOne(p, EntryAt(w, KeyOf(p)))
  {
  }

  /** What `page_was_accessed` reads. */
  ghost predicate WasAccessed(p: PagerPage, v: Vm) {
    Sound(v) && IsDir(v, p.dir) && Lookup(v, p.dir, p.virt).Entry? && Lookup(v, p.dir, p.virt).accessed
  }

  /** Every page but `k` is as accessed as before. */
  ghost predicate SameAccess(p: seq<PagerPage>, v: Vm, q: seq<PagerPage>, w: Vm, k: nat) {
    |p| == |q| && forall j :: 0 <= j < |p| && j != k && p[j].used ==> (WasAccessed(q[j], w) <==> WasAccessed(p[j], v))
  }

  /** Clearing one page's accessed bit leaves the other pages' alone. */
  lemma {:induction false} ClearedOnlyThat(c: Cache, v: Vm, w: Vm, k: nat)
    requires Kept(c, v) && k < PAGER_MAX_PAGES && Sound(w) && IsDir(v, c.pages[k].dir) && PageOk(c.pages[k], v, k)
    requires c.pages[k].used && Lookup(v, c.pages[k].dir, c.pages[k].virt).Entry?
    requires Remapped(v, w, c.pages[k].dir, c.pages[k].virt, Lookup(v, c.pages[k].dir, c.pages[k].virt).(accessed := false))
    ensures !WasAccessed(c.pages[k], w) && SameAccess(c.pages, v, c.pages, w, k)
  {
    forall j | 0 <= j < PAGER_MAX_PAGES && c.pages[j].used && j != k
      ensures WasAccessed(c.pages[j], w) <==> WasAccessed(c.pages[j], v)
    {
      assert PageOk(c.pages[j], v, j) && KeyOf(c.pages[j]) != KeyOf(c.pages[k]);
      assert Elsewhere(c.pages[j].dir, c.pages[j].virt, c.pages[k].dir, c.pages[k].virt);
    }
  }

  /** Page `f` is the kernel's directory or one of its tables. */
  ghost predicate OfKernel(v: Vm, f: nat) {
    f in v.owner && (f == v.kernel || (v.owner[f].Table? && v.owner[f].dir == v.kernel))
  }

  /** The kernel's directory and tables stay; it gains tables for its own keys only. */
  ghost predicate KernelGrows(v: Vm, w: Vm, keys: set<Key>) {
    && w.kernel == v.kernel && |w.frames| == |v.frames|
    && (forall f: nat :: OfKernel(v, f) ==> f in w.owner && w.owner[f] == v.owner[f])
    && (forall f: nat :: OfKernel(w, f) ==> (f in v.owner && v.owner[f] == w.owner[f]) || TableOfKey(w, f, keys))
  }

  ghost predicate TableOfKey(w: Vm, f: nat, keys: set<Key>)
    requires f in w.owner
  {
    exists key :: key in keys && key.0 == w.kernel && w.owner[f] == Table(key.0, DirectoryIndex(key.1))
  }

  lemma {:induction false} KernelGrowsTwice(v: Vm, u: Vm, w: Vm, keys: set<Key>)
    requires KernelGrows(v, u, keys) && KernelGrows(u, w, keys)
    ensures KernelGrows(v, w, keys)
  {
  }

  lemma {:induction false} OneTableGrows(v: Vm, w: Vm, key: Key, keys: set<Key>)
    requires Sound(v) && Sound(w) && w.kernel == v.kernel && |w.frames| == |v.frames|
    requires OwnersGrow(v, w, key.0, DirectoryIndex(key.1)) && key in keys
    ensures KernelGrows(v, w, keys)
  {
  }

  /** What everybody else sees: the directories, the demo pages, and every mapping that is
      not one of the pager's are as before. */
  ghost predicate OutsideKept(v: Vm, w: Vm, flat: Flat) {
    && Sound(v) && Sound(w) && w.kernel == v.kernel && |w.frames| == |v.frames| && KernelGrows(v, w, flat.Keys)
    && (forall d: nat :: IsDir(w, d) <==> IsDir(v, d))
    && (forall f: nat :: f in v.owner && v.owner[f].DemoFrame? ==> f in w.owner && w.owner[f] == v.owner[f] && SameFrame(v, w, f))
    && (forall f: nat :: f in w.owner && w.owner[f].DemoFrame? ==> f in v.owner && v.owner[f] == w.owner[f])
    && (forall d: nat, x: U32 :: IsDir(v, d) && Aligned(x) && (d, x) !in flat ==>
          SameButAccessed(Lookup(v, d, x), Lookup(w, d, x)))
  }

  lemma {:induction false} OutsideTwice(v: Vm, u: Vm, w: Vm, flat: Flat)
    requires OutsideKept(v, u, flat) && OutsideKept(u, w, flat)
    ensures OutsideKept(v, w, flat)
  {
    KernelGrowsTwice(v, u, w, flat.Keys);
    forall f: nat | f in v.owner && v.owner[f].DemoFrame? ensures f in w.owner && w.owner[f] == v.owner[f] && SameFrame(v, w, f) {
      assert SameFrame(v, u, f) && SameFrame(u, w, f);
    }
    forall d: nat, x: U32 | IsDir(v, d) && Aligned(x) && (d, x) !in flat
      ensures SameButAccessed(Lookup(v, d, x), Lookup(w, d, x))
    {
      assert IsDir(u, d) && SameButAccessed(Lookup(v, d, x), Lookup(u, d, x));
    }
  }

  lemma {:induction false} AccessedIsOutside(v: Vm, w: Vm, flat: Flat)
    requires Sound(v) && Sound(w) && AccessedOnly(v, w)
    ensures OutsideKept(v, w, flat)
  {
    forall f: nat | f in v.owner && v.owner[f].DemoFrame? ensures SameFrame(v, w, f) {
      assert IsLeaf(v, f);
    }
  }

  lemma {:induction false} RemapIsOutside(v: Vm, w: Vm, dir: nat, virt: U32, e: Entry, flat: Flat)
    requires Sound(v) && Sound(w) && IsDir(v, dir) && Remapped(v, w, dir, virt, e)
    requires (dir, virt) in flat && virt < VMM_KERNEL_BASE && OwnersGrow(v, w, dir, DirectoryIndex(virt))
    ensures OutsideKept(v, w, flat)
  {
    OneTableGrows(v, w, (dir, virt), flat.Keys);
    forall f: nat | f in v.owner && v.owner[f].DemoFrame? ensures f in w.owner && w.owner[f] == v.owner[f] && SameFrame(v, w, f) {
      assert IsLeaf(v, f);
    }
    forall f: nat | f in w.owner && w.owner[f].DemoFrame? ensures f in v.owner && v.owner[f] == w.owner[f] {
      assert IsLeaf(w, f) && IsLeaf(v, f);
    }
    forall d: nat, x: U32 | IsDir(v, d) && Aligned(x) && (d, x) !in flat
      ensures SameButAccessed(Lookup(v, d, x), Lookup(w, d, x))
    {
      assert Elsewhere(d, x, dir, virt);
    }
  }

  /** Taking, dropping or filling a pager frame. */
  lemma {:induction false} PagerFrameIsOutside(v: Vm, w: Vm, f: nat, flat: Flat)
    requires Sound(v) && Sound(w) && SameLookups(v, w) && w.kernel == v.kernel && |w.frames| == |v.frames|
    requires forall d: nat :: IsDir(w, d) <==> IsDir(v, d)
    requires f in v.owner ==> v.owner[f].PagerFrame?
    requires f in w.owner ==> w.owner[f].PagerFrame?
    requires forall g :: g != f ==> (g in w.owner <==> g in v.owner)
    requires forall g :: g != f && g in v.owner ==> w.owner[g] == v.owner[g] && SameFrame(v, w, g)
    ensures OutsideKept(v, w, flat)
  {
  }

  lemma {:induction false} PresentHasFrame(c: Cache, v: Vm, k: nat)
    requires Kept(c, v) && k < PAGER_MAX_PAGES
    ensures PageOk(c.pages[k], v, k)
    ensures c.pages[k].present <==> c.pages[k].frame != 0
    ensures c.pages[k].present ==> c.pages[k].used && IsLeaf(v, c.pages[k].frame) && c.pages[k].frame < |v.used|
    ensures !c.pages[k].used ==> c.pages[k].dir == 0
  {
    assert PageOk(c.pages[k], v, k);
    if c.pages[k].present {
      assert FrameOk(v, c.pages[k].frame);
    }
  }

  /** The same page tables exist. */
  ghost predicate SameTables(v: Vm, w: Vm) {
    && (forall f: nat :: f in v.owner && v.owner[f].Table? ==> f in w.owner && w.owner[f] == v.owner[f])
    && (forall f: nat :: f in w.owner && w.owner[f].Table? ==> f in v.owner && v.owner[f] == w.owner[f])
  }

  lemma {:induction false} TablesTell(v: Vm, w: Vm, d: nat, x: U32)
    requires Sound(v) && Sound(w) && SameTables(v, w) && IsDir(v, d) && IsDir(w, d) && x < VMM_KERNEL_BASE
    ensures HasTable(w, d, x) <==> HasTable(v, d, x)
  {
    IndexesTell(0, 0);
    var i := DirectoryIndex(x);
    assert i < KERNEL_DIRECTORY_START;
    assert FrameOk(v, d) && EntryOk(v, d, i) && FrameOk(w, d) && EntryOk(w, d, i);
    if HasTable(v, d, x) {
      assert FrameOk(w, v.frames[d].entries[i].frame);
    }
    if HasTable(w, d, x) {
      assert FrameOk(v, w.frames[d].entries[i].frame);
    }
  }

  /** The same pages are registered, with the same flags and pins. */
  ghost predicate SameRegistration(p: seq<PagerPage>, q: seq<PagerPage>) {
    |p| == |q| && forall j :: 0 <= j < |p| ==>
      q[j] == p[j].(present := q[j].present, swapped := q[j].swapped, frame := q[j].frame, lastUsed := q[j].lastUsed)
  }

  // ---- eviction ----------------------------------------------------------------------------

  /** Page `k` is out of memory; its swap slot holds `bytes`. */
  function Evicted(c: Cache, k: nat, bytes: seq<Byte>): Cache
    requires k < |c.pages| == |c.swap|
  {
    c.(pages := c.pages[k := c.pages[k].(frame := 0, present := false, swapped := true)], swap := c.swap[k := bytes])
  }

  /** The page of `k` unmapped (`u`) and its frame freed (`w`). */
  ghost predicate FrameGivenBack(c: Cache, v: Vm, u: Vm, w: Vm, k: nat)
    requires Kept(c, v) && k < PAGER_MAX_PAGES && c.pages[k].present && PageOk(c.pages[k], v, k)
  {
    var p := c.pages[k];
    && Sound(u) && Sound(w) && Remapped(v, u, p.dir, p.virt, Empty) && u.owner == v.owner
    && p.frame < |u.used| && w == Drop(u, p.frame) && SameLookups(u, w)
    && forall d: nat :: IsDir(w, d) <==> IsDir(u, d)
  }

  lemma {:induction false} EvictionUnseen(c: Cache, v: Vm, u: Vm, w: Vm, k: nat, j: nat)
    requires Kept(c, v) && k < PAGER_MAX_PAGES && c.pages[k].present && PageOk(c.pages[k], v, k)
    requires FrameGivenBack(c, v, u, w, k)
    requires j < PAGER_MAX_PAGES && j != k && c.pages[j].used
    ensures PageOk(c.pages[j], v, j) && SeesNoChange(c.pages[j], v, w)
  {
    var p, q := c.pages[k], c.pages[j];
    assert PageOk(q, v, j) && KeyOf(p) != KeyOf(q);
    assert IsDir(u, q.dir) && Elsewhere(q.dir, q.virt, p.dir, p.virt);
    if q.present {
      assert IsLeaf(v, q.frame) && SameFrame(v, u, q.frame);
      assert q.frame != p.frame;
    }
  }

  lemma {:induction false} EvictKeeps(c: Cache, v: Vm, u: Vm, w: Vm, k: nat, bytes: seq<Byte>)
    requires Kept(c, v) && k < PAGER_MAX_PAGES && c.pages[k].present && PageOk(c.pages[k], v, k) && |bytes| == PAGE_SIZE
    requires FrameGivenBack(c, v, u, w, k)
    ensures Kept(Evicted(c, k, bytes), w)
  {
    var after := Evicted(c, k, bytes);
    forall j | 0 <= j < PAGER_MAX_PAGES ensures PageOk(after.pages[j], w, j) {
      if j != k {
        assert PageOk(c.pages[j], v, j);
        if c.pages[j].used {
          EvictionUnseen(c, v, u, w, k, j);
          StillOk(c.pages[j], v, w, j);
        }
      }
    }
    forall f: nat ensures FrameUsed(after.pages, w, f) {
      assert FrameUsed(c.pages, v, f);
    }
    forall j | 0 <= j < PAGER_MAX_PAGES && after.pages[j].present ensures HasSlot(after, j) {
      assert HasSlot(c, j);
    }
  }

  /** Swapping a page out to its own bytes changes nothing it holds. */
  lemma {:induction false} EvictAgrees(c: Cache, v: Vm, u: Vm, w: Vm, k: nat, flat: Flat)
    requires Kept(c, v) && k < PAGER_MAX_PAGES && c.pages[k].present && PageOk(c.pages[k], v, k)
    requires FrameGivenBack(c, v, u, w, k) && Agrees(c, v, flat)
    requires Kept(Evicted(c, k, v.frames[c.pages[k].frame].bytes), w)
    ensures Agrees(Evicted(c, k, v.frames[c.pages[k].frame].bytes), w, flat)
  {
    var after := Evicted(c, k, v.frames[c.pages[k].frame].bytes);
    KeysStay(c.pages, after.pages, flat);
    forall j | 0 <= j < PAGER_MAX_PAGES && after.pages[j].used ensures PageAgrees(after, w, flat, j) {
      assert PageAgrees(c, v, flat, j);
      assert PageOk(after.pages[j], w, j);
      if j != k {
        EvictionUnseen(c, v, u, w, k, j);
      }
    }
  }

  /** The registered keys depend only on which pages are used and on their keys. */
  lemma {:induction false} KeysStay(before: seq<PagerPage>, after: seq<PagerPage>, flat: Flat)
    requires |before| == |after| && SameKeys(before, flat)
    requires forall j :: 0 <= j < |before| ==> after[j].used == before[j].used && KeyOf(after[j]) == KeyOf(before[j])
    ensures SameKeys(after, flat)
  {
    forall key | key in flat ensures Registered(after, key) {
      assert Registered(before, key);
      var k :| 0 <= k < |before| && before[k].used && KeyOf(before[k]) == key;
      assert after[k].used && KeyOf(after[k]) == key;
    }
  }

  lemma {:induction false} StaleEvictionKept(c: Cache, v: Vm, k: nat, bytes: seq<Byte>)
    requires Kept(c, v) && k < PAGER_MAX_PAGES && !c.pages[k].present && |bytes| == PAGE_SIZE
    ensures Kept(Evicted(c, k, bytes), v)
  {
    var after := Evicted(c, k, bytes);
    forall j | 0 <= j < PAGER_MAX_PAGES ensures PageOk(after.pages[j], v, j) {
      assert PageOk(c.pages[j], v, j);
    }
    forall f: nat ensures FrameUsed(after.pages, v, f) {
      assert FrameUsed(c.pages, v, f);
    }
    forall j | 0 <= j < PAGER_MAX_PAGES && after.pages[j].present ensures HasSlot(after, j) {
      assert HasSlot(c, j);
    }
  }

  /** Swapping out a page that is not in memory writes page 0 over its swap slot: what it
      held survives exactly when that changes nothing or the page is not in use. */
  lemma {:induction false} StaleEvictionKeeps(c: Cache, v: Vm, k: nat, bytes: seq<Byte>, flat: Flat)
    requires Kept(c, v) && k < PAGER_MAX_PAGES && !c.pages[k].present && |bytes| == PAGE_SIZE
    requires Kept(Evicted(c, k, bytes), v) && Agrees(c, v, flat)
    ensures Agrees(Evicted(c, k, bytes), v, flat) <==> !c.pages[k].used || bytes == c.swap[k]
  {
    var after := Evicted(c, k, bytes);
    hide PagesOk, Kept, PageOk;
    KeysStay(c.pages, after.pages, flat);
    forall j | 0 <= j < PAGER_MAX_PAGES && c.pages[j].used
      ensures PageAgrees(after, v, flat, j) <==> j != k || bytes == c.swap[k]
    {
      StaleOne(c, v, k, bytes, flat, j);
    }
  }

  /** Swapping page `k` out keeps what it holds: it is in memory, or not in use, or its swap
      slot holds page 0 already. */
  predicate EvictionHarmless(c: Cache, k: nat, pageZero: seq<Byte>)
    requires k < |c.pages| == |c.swap|
  {
    c.pages[k].present || !c.pages[k].used || pageZero == c.swap[k]
  }

  /** Swapping a page out touches no other page's accessed bit. */
  lemma {:induction false} EvictAccess(c: Cache, v: Vm, u: Vm, w: Vm, k: nat, bytes: seq<Byte>)
    requires Kept(c, v) && k < PAGER_MAX_PAGES && c.pages[k].present && PageOk(c.pages[k], v, k) && |bytes| == PAGE_SIZE
    requires FrameGivenBack(c, v, u, w, k)
    ensures var d := Evicted(c, k, bytes); SameAccess(c.pages, v, d.pages, w, k) && !WasAccessed(d.pages[k], w)
  {
    var p := c.pages[k];
    assert IsDir(u, p.dir);
    forall j | 0 <= j < PAGER_MAX_PAGES && j != k && c.pages[j].used
      ensures WasAccessed(c.pages[j], w) <==> WasAccessed(c.pages[j], v)
    {
      assert PageOk(c.pages[j], v, j) && KeyOf(c.pages[j]) != KeyOf(p);
      assert IsDir(u, c.pages[j].dir) && Elsewhere(c.pages[j].dir, c.pages[j].virt, p.dir, p.virt);
    }
  }

  lemma {:induction false} EvictRights(c: Cache, v: Vm, u: Vm, w: Vm, k: nat, bytes: seq<Byte>)
    requires Kept(c, v) && k < PAGER_MAX_PAGES && c.pages[k].present && PageOk(c.pages[k], v, k) && |bytes| == PAGE_SIZE
    requires FrameGivenBack(c, v, u, w, k) && RightsFit(c.pages, v)
    ensures RightsFit(Evicted(c, k, bytes).pages, w) && RightsFit(c.pages[k := UNUSED], w)
  {
    forall j | 0 <= j < PAGER_MAX_PAGES && j != k && c.pages[j].present ensures RightsFitOne(c.pages[j], EntryAt(w, KeyOf(c.pages[j]))) {
      assert PageOk(c.pages[j], v, j);
      EvictionUnseen(c, v, u, w, k, j);
      UnseenRights(c.pages[j], v, w, j);
    }
  }

  lemma {:induction false} StaleOne(c: Cache, v: Vm, k: nat, bytes: seq<Byte>, flat: Flat, j: nat)
    requires Kept(c, v) && k < PAGER_MAX_PAGES && !c.pages[k].present && |bytes| == PAGE_SIZE
    requires Kept(Evicted(c, k, bytes), v) && Agrees(c, v, flat) && SameKeys(Evicted(c, k, bytes).pages, flat)
    requires j < PAGER_MAX_PAGES && c.pages[j].used
    ensures PageAgrees(Evicted(c, k, bytes), v, flat, j) <==> j != k || bytes == c.swap[k]
  {
    assert PageAgrees(c, v, flat, j);
    assert PageOk(Evicted(c, k, bytes).pages[j], v, j);
  }

  // ---- page-in -----------------------------------------------------------------------------

  /** Page `k` brought into frame `f`, in resident slot `slot`. */
  function PagedIn(c: Cache, k: nat, f: nat, slot: nat, tick: U32): Cache
    requires k < |c.pages| && slot < |c.slots|
  {
    c.(pages := c.pages[k := c.pages[k].(frame := f, present := true, swapped := false, lastUsed := tick)],
       slots := c.slots[slot := k], hand := (slot + 1) % PAGER_FRAME_LIMIT, tick := tick)
  }

  /** Frame `f` taken and filled from swap (`u`), then mapped for page `k` (`w`). */
  ghost predicate FrameBrought(c: Cache, v: Vm, u: Vm, w: Vm, k: nat, f: nat)
    requires Kept(c, v) && k < PAGER_MAX_PAGES && c.pages[k].used && PageOk(c.pages[k], v, k)
  {
    var p := c.pages[k];
    && Sound(u) && Sound(w) && f < |v.frames| == |v.used| && f !in v.owner
    && u == Take(v, f, PagerFrame(p.dir, k), Data(c.swap[k]))
    && SameLookups(v, u) && (forall d: nat :: IsDir(u, d) <==> IsDir(v, d))
    && Remapped(u, w, p.dir, p.virt, Entry(f, p.writable, p.user, false))
    && OwnersGrow(u, w, p.dir, DirectoryIndex(p.virt))
  }

  lemma {:induction false} PageInUnseen(c: Cache, v: Vm, u: Vm, w: Vm, k: nat, f: nat, j: nat)
    requires Kept(c, v) && k < PAGER_MAX_PAGES && c.pages[k].used && PageOk(c.pages[k], v, k)
    requires FrameBrought(c, v, u, w, k, f)
    requires j < PAGER_MAX_PAGES && j != k && c.pages[j].used
    ensures PageOk(c.pages[j], v, j) && SeesNoChange(c.pages[j], v, w)
  {
    var p, q := c.pages[k], c.pages[j];
    assert PageOk(q, v, j) && KeyOf(p) != KeyOf(q);
    assert IsDir(u, q.dir) && Elsewhere(q.dir, q.virt, p.dir, p.virt);
    if q.present {
      assert q.frame != f && SameFrame(v, u, q.frame);
      assert IsLeaf(u, q.frame) && SameFrame(u, w, q.frame);
    }
  }

  lemma {:induction false} BroughtPageOk(c: Cache, v: Vm, u: Vm, w: Vm, k: nat, f: nat, tick: U32)
    requires Kept(c, v) && k < PAGER_MAX_PAGES && c.pages[k].used && PageOk(c.pages[k], v, k)
    requires FrameBrought(c, v, u, w, k, f)
    ensures PageOk(c.pages[k].(frame := f, present := true, swapped := false, lastUsed := tick), w, k)
    ensures w.frames[f] == Data(c.swap[k])
  {
    assert IsLeaf(u, f) && SameFrame(u, w, f) && IsDir(u, c.pages[k].dir);
  }

  /** Bringing a page in touches no other page's accessed bit, and leaves its own clear. */
  lemma {:induction false} PageInAccess(c: Cache, v: Vm, u: Vm, w: Vm, k: nat, f: nat)
    requires Kept(c, v) && k < PAGER_MAX_PAGES && c.pages[k].used && PageOk(c.pages[k], v, k)
    requires FrameBrought(c, v, u, w, k, f)
    ensures SameAccess(c.pages, v, c.pages, w, k) && !WasAccessed(c.pages[k], w)
  {
    var p := c.pages[k];
    assert IsDir(u, p.dir) && IsDir(w, p.dir);
    forall j | 0 <= j < PAGER_MAX_PAGES && j != k && c.pages[j].used
      ensures WasAccessed(c.pages[j], w) <==> WasAccessed(c.pages[j], v)
    {
      assert PageOk(c.pages[j], v, j) && KeyOf(c.pages[j]) != KeyOf(p);
      assert IsDir(u, c.pages[j].dir) && Elsewhere(c.pages[j].dir, c.pages[j].virt, p.dir, p.virt);
    }
  }

  lemma {:induction false} PageInRights(c: Cache, v: Vm, u: Vm, w: Vm, k: nat, f: nat, slot: nat, tick: U32)
    requires Kept(c, v) && k < PAGER_MAX_PAGES && c.pages[k].used && PageOk(c.pages[k], v, k) && slot < |c.slots|
    requires FrameBrought(c, v, u, w, k, f) && RightsFit(c.pages, v)
    requires EntryAt(w, KeyOf(c.pages[k])) == Entry(f, c.pages[k].writable, c.pages[k].user, false)
    ensures RightsFit(PagedIn(c, k, f, slot, tick).pages, w)
  {
    forall j | 0 <= j < PAGER_MAX_PAGES && j != k && c.pages[j].present ensures RightsFitOne(c.pages[j], EntryAt(w, KeyOf(c.pages[j]))) {
      assert PageOk(c.pages[j], v, j);
      PageInUnseen(c, v, u, w, k, f, j);
      UnseenRights(c.pages[j], v, w, j);
    }
  }

  lemma {:induction false} PageInPagesOk(c: Cache, v: Vm, u: Vm, w: Vm, k: nat, f: nat, slot: nat, tick: U32)
    requires Kept(c, v) && k < PAGER_MAX_PAGES && c.pages[k].used && !c.pages[k].present && PageOk(c.pages[k], v, k)
    requires FrameBrought(c, v, u, w, k, f) && slot < PAGER_FRAME_LIMIT
    ensures Sound(w) && PagesOk(PagedIn(c, k, f, slot, tick).pages, w)
  {
    var after := PagedIn(c, k, f, slot, tick);
    forall j | 0 <= j < |after.pages| ensures PageOk(after.pages[j], w, j) {
      if j == k {
        BroughtPageOk(c, v, u, w, k, f, tick);
      } else {
        assert PageOk(c.pages[j], v, j);
        if c.pages[j].used {
          PageInUnseen(c, v, u, w, k, f, j);
          StillOk(c.pages[j], v, w, j);
        }
      }
    }
    forall g: nat ensures FrameUsed(after.pages, w, g) {
      assert FrameUsed(c.pages, v, g);
    }
  }

  lemma {:induction false} PageInKeeps(c: Cache, v: Vm, u: Vm, w: Vm, k: nat, f: nat, slot: nat, tick: U32)
    requires Kept(c, v) && k < PAGER_MAX_PAGES && c.pages[k].used && !c.pages[k].present && PageOk(c.pages[k], v, k)
    requires FrameBrought(c, v, u, w, k, f) && slot < c.resident && !SlotNeeded(c, slot)
    ensures Kept(PagedIn(c, k, f, slot, tick), w)
  {
    hide PagesOk, FrameBrought, FrameOk;
    var after := PagedIn(c, k, f, slot, tick);
    PageInPagesOk(c, v, u, w, k, f, slot, tick);
    forall j | 0 <= j < PAGER_MAX_PAGES && after.pages[j].present ensures HasSlot(after, j) {
      if j == k {
        assert after.slots[slot] == k;
      } else {
        assert HasSlot(c, j);
        var i :| 0 <= i < c.resident && c.slots[i] == j;
        if i == slot {
          var other :| 0 <= other < c.resident && other != slot && c.slots[other] == j;
          assert after.slots[other] == j;
        } else {
          assert after.slots[i] == j;
        }
      }
    }
  }

  /** Some present page has no resident slot but this one. */
  ghost predicate SlotNeeded(c: Cache, slot: nat)
    requires Shaped(c) && slot < c.resident
  {
    c.pages[c.slots[slot]].present && !exists i :: 0 <= i < c.resident && i != slot && c.slots[i] == c.slots[slot]
  }

  /** A page brought in holds in its frame what its swap slot held. */
  lemma {:induction false} PageInAgrees(c: Cache, v: Vm, u: Vm, w: Vm, k: nat, f: nat, slot: nat, tick: U32, flat: Flat)
    requires Kept(c, v) && k < PAGER_MAX_PAGES && c.pages[k].used && !c.pages[k].present && PageOk(c.pages[k], v, k)
    requires FrameBrought(c, v, u, w, k, f) && slot < PAGER_FRAME_LIMIT && SameKeys(c.pages, flat)
    requires Kept(PagedIn(c, k, f, slot, tick), w)
    ensures Agrees(PagedIn(c, k, f, slot, tick), w, flat) <==> Agrees(c, v, flat)
  {
    hide PagesOk, PageOk, FrameBrought, Sound, SameKeys, PageAgrees, HasSlot;
    var after := PagedIn(c, k, f, slot, tick);
    KeysStay(c.pages, after.pages, flat);
    forall j | 0 <= j < PAGER_MAX_PAGES && c.pages[j].used
      ensures PageAgrees(after, w, flat, j) <==> PageAgrees(c, v, flat, j)
    {
      PageInAgreesOne(c, v, u, w, k, f, slot, tick, flat, j);
    }
  }

  lemma {:induction false} PageInAgreesOne(c: Cache, v: Vm, u: Vm, w: Vm, k: nat, f: nat, slot: nat, tick: U32, flat: Flat, j: nat)
    requires Kept(c, v) && k < PAGER_MAX_PAGES && c.pages[k].used && !c.pages[k].present && PageOk(c.pages[k], v, k)
    requires FrameBrought(c, v, u, w, k, f) && slot < PAGER_FRAME_LIMIT && SameKeys(c.pages, flat)
    requires Kept(PagedIn(c, k, f, slot, tick), w) && SameKeys(PagedIn(c, k, f, slot, tick).pages, flat)
    requires j < PAGER_MAX_PAGES && c.pages[j].used
    ensures PageAgrees(PagedIn(c, k, f, slot, tick), w, flat, j) <==> PageAgrees(c, v, flat, j)
  {
    assert PageOk(c.pages[j], v, j);
    assert PageOk(PagedIn(c, k, f, slot, tick).pages[j], w, j);
    if j == k {
      BroughtPageOk(c, v, u, w, k, f, tick);
    } else {
      PageInUnseen(c, v, u, w, k, f, j);
    }
  }

  /** Tidy but for one resident slot. */
  ghost predicate TidyBut(c: Cache, slot: nat) {
    && Shaped(c)
    && (forall i :: 0 <= i < c.resident && i != slot ==> c.pages[c.slots[i]].present)
    && (forall i, j :: 0 <= i < j < c.resident && i != slot && j != slot ==> c.slots[i] != c.slots[j])
  }

  lemma {:induction false} PageInTidies(c: Cache, k: nat, f: nat, slot: nat, tick: U32)
    requires TidyBut(c, slot) && slot < c.resident && k < PAGER_MAX_PAGES && !c.pages[k].present
    ensures Tidy(PagedIn(c, k, f, slot, tick))
  {
  }

  // ---- registration ------------------------------------------------------------------------

  /** The page that starts with `data`. */
  function Padded(data: seq<Byte>): (page: seq<Byte>)
    requires |data| <= PAGE_SIZE
    ensures |page| == PAGE_SIZE
    ensures forall i :: 0 <= i < PAGE_SIZE ==> page[i] == if i < |data| then data[i] else 0
  {
    data + seq(PAGE_SIZE - |data|, _ => 0)
  }

  function Entered(c: Cache, k: nat, dir: nat, virt: U32, writable: bool, user: bool, bytes: seq<Byte>): Cache
    requires k < |c.pages| == |c.swap|
  {
    c.(pages := c.pages[k := PagerPage(true, false, true, dir, virt, 0, writable, user, 0, false)],
       swap := c.swap[k := bytes])
  }

  lemma {:induction false} EnterKeeps(c: Cache, v: Vm, k: nat, dir: nat, virt: U32, writable: bool, user: bool, bytes: seq<Byte>)
    requires Kept(c, v) && k < PAGER_MAX_PAGES && !c.pages[k].used && |bytes| == PAGE_SIZE
    requires IsDir(v, dir) && Aligned(virt) && virt < VMM_KERNEL_BASE && Lookup(v, dir, virt) == Empty
    requires !Registered(c.pages, (dir, virt))
    ensures Kept(Entered(c, k, dir, virt, writable, user, bytes), v)
    ensures Tidy(c) ==> Tidy(Entered(c, k, dir, virt, writable, user, bytes))
  {
    var after := Entered(c, k, dir, virt, writable, user, bytes);
    assert PageOk(c.pages[k], v, k);
    forall j | 0 <= j < PAGER_MAX_PAGES ensures PageOk(after.pages[j], v, j) {
      assert PageOk(c.pages[j], v, j);
    }
    forall f: nat ensures FrameUsed(after.pages, v, f) {
      assert FrameUsed(c.pages, v, f);
    }
    forall j | 0 <= j < PAGER_MAX_PAGES && after.pages[j].present ensures HasSlot(after, j) {
      assert HasSlot(c, j);
    }
  }

  lemma {:induction false} EnterAgrees(c: Cache, v: Vm, k: nat, dir: nat, virt: U32, writable: bool, user: bool, bytes: seq<Byte>, flat: Flat)
    requires Kept(c, v) && k < PAGER_MAX_PAGES && !c.pages[k].used && |bytes| == PAGE_SIZE
    requires Kept(Entered(c, k, dir, virt, writable, user, bytes), v) && Agrees(c, v, flat)
    ensures Agrees(Entered(c, k, dir, virt, writable, user, bytes), v, flat[(dir, virt) := bytes])
  {
    var after := Entered(c, k, dir, virt, writable, user, bytes);
    EnterKeys(c, k, dir, virt, writable, user, bytes, flat);
    forall j | 0 <= j < PAGER_MAX_PAGES && after.pages[j].used ensures PageAgrees(after, v, flat[(dir, virt) := bytes], j) {
      assert PageOk(after.pages[j], v, j);
      if j != k {
        assert PageAgrees(c, v, flat, j);
        assert KeyOf(after.pages[j]) != KeyOf(after.pages[k]);
      }
    }
  }

  lemma {:induction false} EnterKeys(c: Cache, k: nat, dir: nat, virt: U32, writable: bool, user: bool, bytes: seq<Byte>, flat: Flat)
    requires Shaped(c) && k < PAGER_MAX_PAGES && !c.pages[k].used && SameKeys(c.pages, flat)
    ensures SameKeys(Entered(c, k, dir, virt, writable, user, bytes).pages, flat[(dir, virt) := bytes])
  {
    var after := Entered(c, k, dir, virt, writable, user, bytes).pages;
    forall key | key in flat[(dir, virt) := bytes] ensures Registered(after, key) {
      if key == (dir, virt) {
        assert after[k].used && KeyOf(after[k]) == key;
      } else {
        assert Registered(c.pages, key);
        var j :| 0 <= j < |c.pages| && c.pages[j].used && KeyOf(c.pages[j]) == key;
        assert after[j].used && KeyOf(after[j]) == key;
      }
    }
  }

  /** Registering a page again: its flags and its swap slot are rewritten. */
  function Rewritten(c: Cache, k: nat, writable: bool, user: bool, bytes: seq<Byte>): Cache
    requires k < |c.pages| == |c.swap|
  {
    c.(pages := c.pages[k := c.pages[k].(writable := writable, user := user)], swap := c.swap[k := bytes])
  }

  lemma {:induction false} RewriteKeeps(c: Cache, v: Vm, k: nat, writable: bool, user: bool, bytes: seq<Byte>)
    requires Kept(c, v) && k < PAGER_MAX_PAGES && c.pages[k].used && |bytes| == PAGE_SIZE
    ensures Kept(Rewritten(c, k, writable, user, bytes), v)
    ensures Tidy(c) ==> Tidy(Rewritten(c, k, writable, user, bytes))
  {
    var after := Rewritten(c, k, writable, user, bytes);
    forall j | 0 <= j < PAGER_MAX_PAGES ensures PageOk(after.pages[j], v, j) {
      assert PageOk(c.pages[j], v, j);
    }
    forall f: nat ensures FrameUsed(after.pages, v, f) {
      assert FrameUsed(c.pages, v, f);
    }
    forall j | 0 <= j < PAGER_MAX_PAGES && after.pages[j].present ensures HasSlot(after, j) {
      assert HasSlot(c, j);
    }
  }

  /** The new content shows only if the page was not in memory. */
  lemma {:induction false} RewriteAgrees(c: Cache, v: Vm, k: nat, writable: bool, user: bool, bytes: seq<Byte>, flat: Flat)
    requires Kept(c, v) && k < PAGER_MAX_PAGES && c.pages[k].used && |bytes| == PAGE_SIZE
    requires Kept(Rewritten(c, k, writable, user, bytes), v) && Agrees(c, v, flat)
    ensures Agrees(Rewritten(c, k, writable, user, bytes), v,
                   if c.pages[k].present then flat else flat[KeyOf(c.pages[k]) := bytes])
  {
    hide FrameOk, EntryOk, HasSlot, Lookup;
    var after := Rewritten(c, k, writable, user, bytes);
    var newFlat := if c.pages[k].present then flat else flat[KeyOf(c.pages[k]) := bytes];
    assert PageAgrees(c, v, flat, k);
    KeysStay(c.pages, after.pages, flat);
    assert SameKeys(after.pages, newFlat) by {
      assert newFlat.Keys == flat.Keys;
    }
    forall j | 0 <= j < PAGER_MAX_PAGES && after.pages[j].used ensures PageAgrees(after, v, newFlat, j) {
      assert PageAgrees(c, v, flat, j) && PageOk(after.pages[j], v, j);
      assert j != k ==> KeyOf(c.pages[j]) != KeyOf(c.pages[k]);
    }
  }

  // ---- unregistering -------------------------------------------------------------------------

  /** Resident slot `s` is given up: the last one takes its place. */
  function SlotRemoved(c: Cache, s: nat): Cache
    requires s < c.resident <= |c.slots|
  {
    var left := c.resident - 1;
    c.(slots := if s < left then c.slots[s := c.slots[left]] else c.slots,
       resident := left,
       hand := if left == 0 || c.hand >= left then 0 else c.hand)
  }

  function Forgotten(c: Cache, k: nat): Cache
    requires k < |c.pages|
  {
    c.(pages := c.pages[k := UNUSED])
  }

  lemma {:induction false} ForgetPagesOk(c: Cache, v: Vm, u: Vm, w: Vm, k: nat)
    requires Kept(c, v) && k < PAGER_MAX_PAGES && c.pages[k].present && PageOk(c.pages[k], v, k)
    requires FrameGivenBack(c, v, u, w, k)
    ensures PagesOk(c.pages[k := UNUSED], w)
  {
    var after := c.pages[k := UNUSED];
    forall j | 0 <= j < PAGER_MAX_PAGES ensures PageOk(after[j], w, j) {
      if j != k {
        assert PageOk(c.pages[j], v, j);
        if c.pages[j].used {
          EvictionUnseen(c, v, u, w, k, j);
          StillOk(c.pages[j], v, w, j);
        }
      }
    }
    forall f: nat ensures FrameUsed(after, w, f) {
      assert FrameUsed(c.pages, v, f);
    }
  }

  lemma {:induction false} ForgetSlots(c: Cache, k: nat, s: nat)
    requires Shaped(c) && k < PAGER_MAX_PAGES && s < c.resident && c.slots[s] == k
    requires forall j :: 0 <= j < PAGER_MAX_PAGES && c.pages[j].present ==> HasSlot(c, j)
    ensures var after := Forgotten(SlotRemoved(c, s), k);
            && Shaped(after) && (Tidy(c) ==> Tidy(after))
            && forall j :: 0 <= j < PAGER_MAX_PAGES && after.pages[j].present ==> HasSlot(after, j)
  {
    var after := Forgotten(SlotRemoved(c, s), k);
    forall j | 0 <= j < PAGER_MAX_PAGES && after.pages[j].present ensures HasSlot(after, j) {
      assert HasSlot(c, j);
      var i :| 0 <= i < c.resident && c.slots[i] == j;
      assert after.slots[if i == c.resident - 1 then s else i] == j;
    }
  }

  /** A page in memory is forgotten together with its resident slot and its frame. */
  lemma {:induction false} ForgetPresentKeeps(c: Cache, v: Vm, u: Vm, w: Vm, k: nat, s: nat)
    requires Kept(c, v) && k < PAGER_MAX_PAGES && c.pages[k].present && PageOk(c.pages[k], v, k)
    requires FrameGivenBack(c, v, u, w, k) && s < c.resident && c.slots[s] == k
    ensures Kept(Forgotten(SlotRemoved(c, s), k), w)
    ensures Tidy(c) ==> Tidy(Forgotten(SlotRemoved(c, s), k))
  {
    ForgetPagesOk(c, v, u, w, k);
    ForgetSlots(c, k, s);
    hide PagesOk, HasSlot, Tidy;
  }

  lemma {:induction false} ForgetAbsentKeeps(c: Cache, v: Vm, k: nat)
    requires Kept(c, v) && k < PAGER_MAX_PAGES && !c.pages[k].present
    ensures Kept(Forgotten(c, k), v)
    ensures Tidy(c) ==> Tidy(Forgotten(c, k))
  {
    var after := Forgotten(c, k);
    forall j | 0 <= j < PAGER_MAX_PAGES ensures PageOk(after.pages[j], v, j) {
      assert PageOk(c.pages[j], v, j);
    }
    forall f: nat ensures FrameUsed(after.pages, v, f) {
      assert FrameUsed(c.pages, v, f);
    }
    forall j | 0 <= j < PAGER_MAX_PAGES && after.pages[j].present ensures HasSlot(after, j) {
      assert HasSlot(c, j);
    }
  }

  /** A forgotten page leaves the flat memory; every other page keeps its bytes. */
  lemma {:induction false} ForgetAgrees(c: Cache, after: Cache, v: Vm, w: Vm, k: nat, flat: Flat)
    requires Kept(c, v) && k < PAGER_MAX_PAGES && c.pages[k].used && Agrees(c, v, flat)
    requires Kept(after, w) && after.pages == c.pages[k := UNUSED] && after.swap == c.swap
    requires forall j :: 0 <= j < PAGER_MAX_PAGES && j != k && c.pages[j].used ==>
               PageOk(c.pages[j], v, j) && SeesNoChange(c.pages[j], v, w)
    ensures Agrees(after, w, flat - {KeyOf(c.pages[k])})
  {
    var gone := KeyOf(c.pages[k]);
    ForgetKeys(c.pages, after.pages, k, flat);
    forall j | 0 <= j < PAGER_MAX_PAGES && after.pages[j].used ensures PageAgrees(after, w, flat - {gone}, j) {
      assert PageAgrees(c, v, flat, j) && PageOk(after.pages[j], w, j);
      assert KeyOf(c.pages[j]) != gone;
    }
  }

  lemma {:induction false} ForgetKeys(before: seq<PagerPage>, after: seq<PagerPage>, k: nat, flat: Flat)
    requires k < |before| && before[k].used && after == before[k := UNUSED] && KeysDiffer(before) && SameKeys(before, flat)
    ensures SameKeys(after, flat - {KeyOf(before[k])})
  {
    forall j | 0 <= j < |after| && after[j].used ensures KeyOf(after[j]) in flat - {KeyOf(before[k])} {
      assert j != k && KeyOf(before[j]) != KeyOf(before[k]);
    }
    forall key | key in flat - {KeyOf(before[k])} ensures Registered(after, key) {
      assert Registered(before, key);
      var j :| 0 <= j < |before| && before[j].used && KeyOf(before[j]) == key;
      assert after[j].used && KeyOf(after[j]) == key;
    }
  }

  // ---- user writes ---------------------------------------------------------------------------

  /** The frame of present page `k` holds `bytes` now, and nothing else changed. */
  ghost predicate PageWritten(c: Cache, v: Vm, w: Vm, k: nat, bytes: seq<Byte>)
    requires Kept(c, v) && k < PAGER_MAX_PAGES && c.pages[k].present && PageOk(c.pages[k], v, k)
  {
    && c.pages[k].used && |bytes| == PAGE_SIZE
    && Sound(w) && w == v.(frames := v.frames[c.pages[k].frame := Data(bytes)])
    && SameLookups(v, w) && forall d: nat :: IsDir(w, d) <==> IsDir(v, d)
  }

  lemma {:induction false} WriteKeeps(c: Cache, v: Vm, w: Vm, k: nat, bytes: seq<Byte>)
    requires Kept(c, v) && k < PAGER_MAX_PAGES && c.pages[k].present && PageOk(c.pages[k], v, k)
    requires PageWritten(c, v, w, k, bytes)
    ensures Kept(c, w)
  {
    forall j | 0 <= j < PAGER_MAX_PAGES ensures PageOk(c.pages[j], w, j) {
      assert PageOk(c.pages[j], v, j);
    }
    forall f: nat ensures FrameUsed(c.pages, w, f) {
      assert FrameUsed(c.pages, v, f);
    }
  }

  /** New bytes in the frame of a present page are new bytes of that page only. */
  lemma {:induction false} WriteAgrees(c: Cache, v: Vm, w: Vm, k: nat, bytes: seq<Byte>, flat: Flat)
    requires Kept(c, v) && k < PAGER_MAX_PAGES && c.pages[k].present && PageOk(c.pages[k], v, k)
    requires PageWritten(c, v, w, k, bytes) && Kept(c, w) && Agrees(c, v, flat)
    ensures Agrees(c, w, flat[KeyOf(c.pages[k]) := bytes])
  {
    hide FrameOk, EntryOk, HasSlot;
    var newFlat := flat[KeyOf(c.pages[k]) := bytes];
    assert PageAgrees(c, v, flat, k);
    assert newFlat.Keys == flat.Keys;
    forall j | 0 <= j < PAGER_MAX_PAGES && c.pages[j].used ensures PageAgrees(c, w, newFlat, j) {
      assert PageAgrees(c, v, flat, j) && PageOk(c.pages[j], w, j);
      assert j != k ==> KeyOf(c.pages[j]) != KeyOf(c.pages[k]);
      assert j != k && c.pages[j].present ==> c.pages[j].frame != c.pages[k].frame;
    }
  }
}
