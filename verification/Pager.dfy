/** The demand pager: page table, resident slots and swap area changed in place. The disk
    works; physical page 0 holds `pageZero`. */
module PagerModule {
  import opened Machine
  import opened Bitmap
  import opened PmmSpec
  import opened PmmModule
  import opened VmmSpec
  import opened VmmModule
  import opened PagerSpec
  import opened PagerVictim
  import opened PagerSteps

  class Pager {
    const vmm: Vmm
    const pageZero: seq<Byte>
    var pages: seq<PagerPage>
    var slots: seq<nat>
    var resident: nat
    var hand: nat
    var tick: U32
    var lru: bool
    var swap: seq<seq<Byte>>
    /** The flat memory this pager stands for. */
    ghost var flat: Flat
    /** How often a page was marked used. */
    ghost var uses: nat

    ghost function State(): Cache
      reads this
    {
      Cache(pages, slots, resident, hand, tick, swap)
    }

    ghost predicate Valid()
      reads this, vmm, vmm.pmm
    {
      vmm.Valid() && Kept(State(), vmm.View()) && SameKeys(pages, flat) && |pageZero| == PAGE_SIZE
      && TicksFit(pages, tick, uses)
    }

    /** Every registered page holds its bytes of the flat memory. */
    ghost predicate Faithful()
      requires Valid()
      reads this, vmm, vmm.pmm
    {
      Tidy(State()) && Agrees(State(), vmm.View(), flat)
    }

    constructor (vmm: Vmm, pageZero: seq<Byte>)
      requires vmm.Valid() && |pageZero| == PAGE_SIZE
      requires forall f: nat :: f in vmm.owner ==> !vmm.owner[f].PagerFrame?
      ensures this.vmm == vmm && this.pageZero == pageZero && Valid() && Faithful() && flat == map[] && uses == 0 && !lru && resident == 0
      ensures State() == Cache(seq(PAGER_MAX_PAGES, _ => UNUSED), seq(PAGER_FRAME_LIMIT, _ => 0), 0, 0, 0,
                               seq(PAGER_MAX_PAGES, _ => pageZero))
    {
      this.vmm := vmm;
      this.pageZero := pageZero;
      pages := seq(PAGER_MAX_PAGES, _ => UNUSED);
      slots := seq(PAGER_FRAME_LIMIT, _ => 0);
      resident, hand, tick, lru := 0, 0, 0, false;
      swap := seq(PAGER_MAX_PAGES, _ => pageZero);
      flat := map[];
      uses := 0;
    }

    // ---- looking pages up ------------------------------------------------------------------

    /** The page registered for an address, or none. */
    method FindPage(dir: nat, virt: U32) returns (found: bool, k: nat)
      requires Valid()
      ensures found <==> (dir, AlignDown(virt)) in flat
      ensures found ==> k < PAGER_MAX_PAGES && pages[k].used && KeyOf(pages[k]) == (dir, AlignDown(virt))
    {
      hide Vmm.Valid, PagesOk, FreeCount;
      var page := AlignDown(virt);
      for i := 0 to PAGER_MAX_PAGES
        invariant forall j :: 0 <= j < i ==> !(pages[j].used && KeyOf(pages[j]) == (dir, page))
      {
        if pages[i].used && pages[i].dir == dir && pages[i].virt == page {
          return true, i;
        }
      }
      assert (dir, page) in flat ==> Registered(pages, (dir, page));
      return false, 0;
    }

    method FindFree() returns (found: bool, k: nat)
      requires Valid()
      ensures found <==> HasFreeEntry(pages)
      ensures found ==> k < PAGER_MAX_PAGES && FirstFree(pages, k)
    {
      hide Vmm.Valid, PagesOk, FreeCount;
      for i := 0 to PAGER_MAX_PAGES
        invariant forall j :: 0 <= j < i ==> pages[j].used
      {
        if !pages[i].used {
          return true, i;
        }
      }
      return false, 0;
    }

    // ---- recency -----------------------------------------------------------------------------

    method PageWasAccessed(k: nat) returns (accessed: bool)
      requires Valid() && k < PAGER_MAX_PAGES
      ensures accessed == WasAccessed(pages[k], vmm.View())
    {
      assert PageOk(pages[k], vmm.View(), k);
      NoDirectoryZero(vmm.View());
      hide Vmm.Valid, PagesOk, FreeCount;
      var dir := pages[k].dir;
      if dir == 0 {
        return false;
      }
      var e := vmm.GetPageEntry(dir, pages[k].virt);
      return e.Entry? && e.accessed;
    }

    /** Clears the accessed bit of a page's mapping, if there is one. */
    method ClearPageAccessed(k: nat)
      requires Valid() && k < PAGER_MAX_PAGES && pages[k].used
      modifies vmm`frames
      ensures Valid() && Undisturbed(State(), old(vmm.View()), State(), vmm.View())
      ensures !WasAccessed(pages[k], vmm.View()) && SameAccess(pages, old(vmm.View()), pages, vmm.View(), k)
    {
      ghost var v := vmm.View();
      assert PageOk(pages[k], v, k);
      hide Vmm.Valid, PagesOk, FreeCount, FrameOk, EntryOk, Alike, Lookup;
      AccessedItself(v);
      SamePage(pages[k].virt);
      var ok := vmm.ClearAccessed(pages[k].dir, pages[k].virt);
      if ok {
        RemapIsAccessedOnly(v, vmm.View(), pages[k].dir, pages[k].virt, false);
        ClearedOnlyThat(State(), v, vmm.View(), k);
      }
      UndisturbedKept(State(), v, State(), vmm.View());
    }

    method MarkPageUsed(k: nat)
      requires Valid() && k < PAGER_MAX_PAGES
      modifies this`pages, this`tick, this`uses
      ensures Valid() && Undisturbed(old(State()), vmm.View(), State(), vmm.View())
      ensures tick == NextTick(old(tick)) && pages == old(pages)[k := old(pages)[k].(lastUsed := tick)]
      ensures uses == old(uses) + 1
    {
      hide Vmm.Valid, PagesOk, FreeCount, FrameOk;
      ghost var c, v := State(), vmm.View();
      tick := Add32(tick, 1);
      if tick == 0 {
        tick := 1;
      }
      pages := pages[k := pages[k].(lastUsed := tick)];
      uses := uses + 1;
      AccessedItself(v);
      UndisturbedKept(c, v, State(), v);
      KeysStay(c.pages, pages, flat);
    }

    /** Notes an access since the last sample. */
    method SamplePage(k: nat)
      requires Valid() && k < PAGER_MAX_PAGES
      modifies this`pages, this`tick, this`uses, vmm`frames
      ensures Valid() && Undisturbed(old(State()), old(vmm.View()), State(), vmm.View())
      ensures !WasAccessed(pages[k], vmm.View()) && SameAccess(old(pages), old(vmm.View()), pages, vmm.View(), k)
      ensures tick == if WasAccessed(old(pages)[k], old(vmm.View())) then NextTick(old(tick)) else old(tick)
      ensures pages == if WasAccessed(old(pages)[k], old(vmm.View()))
                       then old(pages)[k := old(pages)[k].(lastUsed := tick)] else old(pages)
      ensures uses == if WasAccessed(old(pages)[k], old(vmm.View())) then old(uses) + 1 else old(uses)
    {
      hide Kept, Sound, WasAccessed, Undisturbed, SameAccess, SameKeys, Vmm.Valid, FreeCount;
      ghost var c, v := State(), vmm.View();
      AccessedIsUsed(c, v, k);
      SampleIsLocal(pages, pages, v, v, k);
      var accessed := PageWasAccessed(k);
      UndisturbedItself(c, v);
      if accessed {
        MarkPageUsed(k);
        ghost var d := State();
        ClearPageAccessed(k);
        UndisturbedTwice(c, v, d, v, State(), vmm.View());
        SampleIsLocal(c.pages, pages, v, vmm.View(), k);
      }
    }

    // ---- victims -----------------------------------------------------------------------------

    /** The second-chance scan. It ends within two turns; with every frame resident it stops
        where `ClockSlot` says. */
    method ChooseClockVictim() returns (slot: nat)
      requires Valid()
      modifies this`hand, vmm`frames
      ensures Valid() && Undisturbed(old(State()), old(vmm.View()), State(), vmm.View())
      ensures slot == hand < PAGER_FRAME_LIMIT
      ensures AllResident(old(State())) ==>
                slot == ClockSlot(PinnedSlots(old(State())), AccessedSlots(old(State()), old(vmm.View())), old(hand))
      ensures Quiet(old(State()), old(vmm.View())) ==> Quiet(State(), vmm.View())
    {
      hide Kept, Sound, WasAccessed, Undisturbed, SameAccess, SameKeys, Vmm.Valid, FreeCount, Turned, ClockSlot, AllResident, Quiet;
      ghost var c, v := State(), vmm.View();
      var scanned := 0;
      ScanBegins(c, v);
      while true
        invariant scanned < 2 * PAGER_FRAME_LIMIT && hand == At(c.hand, scanned)
        invariant Valid() && Shaped(c) && Undisturbed(c, v, State(), vmm.View())
        invariant AllResident(c) ==>
                    Turned(PinnedSlots(c), AccessedSlots(c, v), AccessedSlots(c, vmm.View()), c.hand, scanned)
        invariant Quiet(c, v) ==> Quiet(State(), vmm.View())
        decreases 2 * PAGER_FRAME_LIMIT - scanned
      {
        var skipped := SkipSlot(c, v, scanned);
        if !skipped {
          return hand;
        }
        scanned := scanned + 1;
        if scanned >= 2 * PAGER_FRAME_LIMIT {
          if AllResident(c) {
            TwoTurns(PinnedSlots(c), AccessedSlots(c, v), AccessedSlots(c, vmm.View()), c.hand);
          }
          return hand;
        }
      }
    }

    /** One step of the scan: passes a pinned slot, or an accessed one after clearing its
        bit; otherwise stays. */
    method SkipSlot(ghost c: Cache, ghost v: Vm, ghost scanned: nat) returns (skipped: bool)
      requires Valid() && Shaped(c) && Undisturbed(c, v, State(), vmm.View()) && pages == c.pages && slots == c.slots
      requires scanned < 2 * PAGER_FRAME_LIMIT && hand == At(c.hand, scanned)
      requires AllResident(c) ==>
                 Turned(PinnedSlots(c), AccessedSlots(c, v), AccessedSlots(c, vmm.View()), c.hand, scanned)
      modifies this`hand, vmm`frames
      ensures Valid() && Undisturbed(c, v, State(), vmm.View())
      ensures hand == if skipped then At(c.hand, scanned + 1) else old(hand)
      ensures AllResident(c) && skipped ==>
                Turned(PinnedSlots(c), AccessedSlots(c, v), AccessedSlots(c, vmm.View()), c.hand, scanned + 1)
      ensures AllResident(c) && !skipped ==> hand == ClockSlot(PinnedSlots(c), AccessedSlots(c, v), c.hand)
      ensures Quiet(old(State()), old(vmm.View())) ==> Quiet(State(), vmm.View())
    {
      hide Kept, Sound, WasAccessed, Undisturbed, SameAccess, SameKeys, Vmm.Valid, FreeCount, Turned, ClockSlot, Quiet;
      ghost var d, w := State(), vmm.View();
      TurnsMeet(c.hand, scanned);
      var k := slots[hand];
      if pages[k].pinned {
        if AllResident(c) {
          PassPinned(PinnedSlots(c), AccessedSlots(c, v), AccessedSlots(c, w), c.hand, scanned);
        }
        hand := (hand + 1) % PAGER_FRAME_LIMIT;
        HandMoved(c, v, d, w, hand);
        if Quiet(d, w) {
          QuietHere(d, w, State());
        }
        return true;
      }
      var accessed := PageWasAccessed(k);
      if accessed {
        AccessedIsUsed(d, w, k);
        ClearPageAccessed(k);
        UndisturbedTwice(c, v, d, w, d, vmm.View());
        if AllResident(c) {
          OneSlotCleared(c, w, vmm.View(), hand);
          PassAccessed(PinnedSlots(c), AccessedSlots(c, v), AccessedSlots(c, w), c.hand, scanned);
        }
        hand := (hand + 1) % PAGER_FRAME_LIMIT;
        HandMoved(c, v, d, vmm.View(), hand);
        if Quiet(d, w) {
          StaysQuiet(d, w, State(), vmm.View(), k);
        }
        return true;
      }
      if AllResident(c) {
        StopsRightly(PinnedSlots(c), AccessedSlots(c, v), AccessedSlots(c, w), c.hand, scanned);
      }
      return false;
    }

    /** Samples every unpinned resident page and picks the one of least use tick; slot 0
        when all are pinned. */
    method ChooseLruVictim() returns (best: nat)
      requires Valid()
      modifies this`pages, this`tick, this`uses, vmm`frames
      ensures Valid() && Undisturbed(old(State()), old(vmm.View()), State(), vmm.View())
      ensures best < PAGER_FRAME_LIMIT && Sampled(old(State()), old(vmm.View()), pages, vmm.View(), tick, resident)
      ensures if exists i :: 0 <= i < resident && !old(pages)[slots[i]].pinned
              then LeastTick(old(State()), pages, resident, best) else best == 0
      ensures old(uses) <= uses <= old(uses) + PAGER_FRAME_LIMIT
      ensures Quiet(old(State()), old(vmm.View())) ==> State() == old(State()) && uses == old(uses) && Quiet(State(), vmm.View())
    {
      hide Kept, Sound, WasAccessed, Undisturbed, SameAccess, SameKeys, Vmm.Valid, FreeCount, Sampled, LeastTick, Quiet, TicksFit;
      ghost var c, v := State(), vmm.View();
      SamplingBegins(c, v);
      best := 0;
      var bestTick: U32 := WORD_LIMIT - 1;
      var found := false;
      for slot := 0 to resident
        invariant Valid() && Shaped(c) && Undisturbed(c, v, State(), vmm.View())
        invariant Sampled(c, v, pages, vmm.View(), tick, slot)
        invariant found <==> exists i :: 0 <= i < slot && !c.pages[slots[i]].pinned
        invariant |pages| == PAGER_MAX_PAGES && best < PAGER_FRAME_LIMIT
        invariant found ==> LeastTick(c, pages, slot, best) && bestTick == pages[slots[best]].lastUsed
        invariant !found ==> best == 0
        invariant old(uses) <= uses <= old(uses) + slot
        invariant Quiet(c, v) ==> State() == c && uses == old(uses) && Quiet(State(), vmm.View())
      {
        PinsStay(c, v, State(), vmm.View(), slot);
        if pages[slots[slot]].pinned {
          SkipPinned(c, v, pages, vmm.View(), tick, slot);
          if found {
            LeastSkips(c, pages, slot, best);
          }
        } else {
          ghost var before := pages;
          SampleSlot(c, v, slot);
          var usedTick := pages[slots[slot]].lastUsed;
          if found {
            LeastNext(c, before, pages, slot, best);
          } else {
            LeastFirst(c, pages, slot);
          }
          if !found || usedTick < bestTick {
            bestTick := usedTick;
            best := slot;
            found := true;
          }
        }
      }
    }

    method SampleSlot(ghost c: Cache, ghost v: Vm, slot: nat)
      requires Valid() && Shaped(c) && Undisturbed(c, v, State(), vmm.View()) && slots == c.slots
      requires slot < PAGER_FRAME_LIMIT && Sampled(c, v, pages, vmm.View(), tick, slot) && !c.pages[slots[slot]].pinned
      modifies this`pages, this`tick, this`uses, vmm`frames
      ensures Valid() && Undisturbed(c, v, State(), vmm.View())
      ensures Sampled(c, v, pages, vmm.View(), tick, slot + 1)
      ensures |pages| == PAGER_MAX_PAGES
      ensures TicksOnly(old(pages), pages, c.slots[slot]) && (Candidate(c, slot, c.slots[slot]) ==> pages == old(pages))
      ensures old(uses) <= uses <= old(uses) + 1
      ensures Quiet(old(State()), old(vmm.View())) ==> State() == old(State()) && uses == old(uses) && Quiet(State(), vmm.View())
    {
      hide Kept, Sound, WasAccessed, Undisturbed, SameAccess, SameKeys, Vmm.Valid, FreeCount, Sampled, Quiet, TicksFit;
      ghost var d, w := State(), vmm.View();
      SamplingFacts(c, v, d, w, slot);
      SamplePage(slots[slot]);
      UndisturbedTwice(c, v, d, w, State(), vmm.View());
      UnusedUntouched(c, v, State(), vmm.View());
      SampleNext(c, v, d.pages, w, d.tick, pages, vmm.View(), tick, slot);
      if Quiet(d, w) {
        QuietIsNotAccessed(d, w, slots[slot]);
        StaysQuiet(d, w, State(), vmm.View(), slots[slot]);
      }
    }

    // ---- eviction and page-in ---------------------------------------------------------------

    /** Unmaps a present page and frees its frame. */
    method GiveFrameBack(ghost c: Cache, k: nat, p: PagerPage) returns (ghost u: Vm)
      requires vmm.Valid() && Kept(c, vmm.View()) && k < PAGER_MAX_PAGES && c.pages[k].present && p == c.pages[k]
      requires SameKeys(c.pages, flat)
      modifies vmm`frames, vmm`owner, vmm.pmm`bitmap, vmm.pmm`freePages
      ensures vmm.Valid() && OutsideKept(old(vmm.View()), vmm.View(), flat)
      ensures PageOk(c.pages[k], old(vmm.View()), k) && FrameGivenBack(c, old(vmm.View()), u, vmm.View(), k)
      ensures vmm.pmm.freePages == old(vmm.pmm.freePages) + 1 && u.used == old(vmm.pmm.bitmap)
    {
      hide Kept, PageOk, FreeCount, OutsideKept, Remapped, SameLookups, LeavesOnly, FrameOk, Lookup, Conserved, Pmm.Valid;
      ghost var v := vmm.View();
      PresentHasFrame(c, v, k);
      PresentIsMapped(c, v, k);
      assert KeyOf(p) in flat;
      vmm.UnmapPage(p.dir, p.virt);
      u := vmm.View();
      FrameStaysLeaf(v, u, p, k);
      vmm.FreeFrame(p.frame);
      FrameGoes(v, u, vmm.View(), p, flat);
    }

    /** Writes the page of a slot to swap and gives its frame back. If the slot is stale,
        which only a failed page-in leaves behind, page 0 goes to swap instead. */
    method Evict(slot: nat)
      requires Valid() && slot < PAGER_FRAME_LIMIT
      modifies this`pages, this`swap, vmm`frames, vmm`owner, vmm.pmm`bitmap, vmm.pmm`freePages
      ensures Valid() && OutsideKept(old(vmm.View()), vmm.View(), flat)
      ensures State() == Evicted(old(State()), slots[slot], EvictedBytes(old(State()), old(vmm.View()), slots[slot], pageZero))
      ensures vmm.pmm.freePages == old(vmm.pmm.freePages) + if old(pages)[slots[slot]].present then 1 else 0
      ensures Agrees(old(State()), old(vmm.View()), flat) ==>
                (Agrees(State(), vmm.View(), flat) <==> EvictionHarmless(old(State()), slots[slot], pageZero))
      ensures SameAccess(old(pages), old(vmm.View()), pages, vmm.View(), slots[slot]) && !WasAccessed(pages[slots[slot]], vmm.View())
      ensures RightsFit(old(pages), old(vmm.View())) ==> RightsFit(pages, vmm.View())
      ensures !old(pages)[slots[slot]].present ==> vmm.View() == old(vmm.View())
      ensures SameTables(old(vmm.View()), vmm.View())
    {
      hide Sound, SameKeys, Vmm.Valid, FreeCount, PagesOk, Alike, Lookup, HasSlot, Agrees, Tidy, OutsideKept, WasAccessed, SameAccess;
      ghost var c, v := State(), vmm.View();
      var k := slots[slot];
      var p := pages[k];
      PresentHasFrame(c, v, k);
      swap := swap[k := if p.frame == 0 then pageZero else vmm.frames[p.frame].bytes];
      pages := pages[k := p.(frame := 0, present := false, swapped := true)];
      KeysStay(c.pages, pages, flat);
      if p.frame == 0 {
        vmm.UnmapPage(p.dir, p.virt);
        StaleEvictionKept(c, v, k, pageZero);
        StaleAccess(c, v, k, pageZero);
        if Agrees(c, v, flat) {
          StaleEvictionKeeps(c, v, k, pageZero, flat);
        }
        AccessedItself(v);
        AccessedIsOutside(v, v, flat);
      } else {
        ghost var u := GiveFrameBack(c, k, p);
        EvictKeeps(c, v, u, vmm.View(), k, swap[k]);
        EvictAccess(c, v, u, vmm.View(), k, swap[k]);
        if RightsFit(c.pages, v) {
          EvictRights(c, v, u, vmm.View(), k, swap[k]);
        }
        if Agrees(c, v, flat) {
          EvictAgrees(c, v, u, vmm.View(), k, flat);
        }
      }
    }

    /** The victim under the current algorithm. With every frame resident and one unpinned,
        neither algorithm picks a pinned page, nor one accessed since the last look while
        an unpinned one was not (for LRU, as long as the use tick does not wrap). Without
        accesses since the last look it changes nothing but the hand. */
    method ChooseVictim() returns (slot: nat)
      requires Valid()
      modifies this`pages, this`tick, this`uses, this`hand, vmm`frames
      ensures Valid() && Undisturbed(old(State()), old(vmm.View()), State(), vmm.View())
      ensures slot < PAGER_FRAME_LIMIT && SameRegistration(old(pages), pages)
      ensures AllResident(old(State())) ==>
                WellChosen(old(State()), old(vmm.View()), !lru || old(uses) + PAGER_FRAME_LIMIT < WORD_LIMIT, slot)
      ensures lru && Quiet(old(State()), old(vmm.View())) && (exists i :: 0 <= i < resident && !old(pages)[slots[i]].pinned) ==>
                LeastTick(old(State()), old(pages), resident, slot)
      ensures !lru ==> ClockPicks(old(State()), old(vmm.View()), slot)
      ensures old(uses) <= uses <= old(uses) + PAGER_FRAME_LIMIT
      ensures Quiet(old(State()), old(vmm.View())) ==>
                Quiet(State(), vmm.View()) && pages == old(pages) && tick == old(tick) && uses == old(uses)
    {
      hide Kept, Sound, WasAccessed, Undisturbed, SameKeys, Vmm.Valid, FreeCount, Sampled, LeastTick, ClockSlot, Quiet;
      ghost var c, v := State(), vmm.View();
      KeptIsShaped(c, v);
      if lru {
        slot := ChooseLruVictim();
        SampledRegistration(c, v, pages, vmm.View(), tick, resident);
        if AllResident(c) {
          LruIsWellChosen(c, v, pages, vmm.View(), tick, slot);
        }
      } else {
        slot := ChooseClockVictim();
        if AllResident(c) {
          ClockIsWellChosen(c, v, slot);
        }
      }
    }

    /** A resident slot for one more page: a new one, or one whose page is swapped out. */
    method MakeRoom() returns (slot: nat)
      requires Valid()
      modifies this`pages, this`resident, this`tick, this`uses, this`hand, this`swap
      modifies vmm`frames, vmm`owner, vmm.pmm`bitmap, vmm.pmm`freePages
      ensures Valid() && slot < resident && !SlotNeeded(State(), slot)
      ensures SameRegistration(old(pages), pages)
      ensures forall j :: 0 <= j < |pages| && !old(pages)[j].present ==> !pages[j].present
      ensures OutsideKept(old(vmm.View()), vmm.View(), flat) && SameTables(old(vmm.View()), vmm.View())
      ensures vmm.pmm.freePages == old(vmm.pmm.freePages) + FramesFreed(old(State()), slot)
      ensures Tidy(old(State())) ==> TidyBut(State(), slot)
      ensures lru && Tidy(old(State())) && Quiet(old(State()), old(vmm.View())) && MustEvict(old(State())) ==>
                LeastTick(old(State()), old(pages), PAGER_FRAME_LIMIT, slot)
      ensures !lru ==> ClockPicks(old(State()), old(vmm.View()), slot)
      ensures resident == (if old(resident) < PAGER_FRAME_LIMIT then old(resident) + 1 else old(resident)) && slot < PAGER_FRAME_LIMIT
      ensures old(resident) < PAGER_FRAME_LIMIT ==> slot == old(resident) && swap == old(swap)
      ensures old(resident) == PAGER_FRAME_LIMIT ==>
                swap == Evicted(old(State()), slots[slot], EvictedBytes(old(State()), old(vmm.View()), slots[slot], pageZero)).swap
      ensures Agrees(old(State()), old(vmm.View()), flat) ==>
                (Agrees(State(), vmm.View(), flat) <==>
                 old(resident) < PAGER_FRAME_LIMIT || EvictionHarmless(old(State()), slots[slot], pageZero))
      ensures old(uses) <= uses <= old(uses) + PAGER_FRAME_LIMIT
      ensures Quiet(old(State()), old(vmm.View())) ==>
                Quiet(State(), vmm.View()) && SameTicks(old(pages), pages) && tick == old(tick) && uses == old(uses)
      ensures RightsFit(old(pages), old(vmm.View())) ==> RightsFit(pages, vmm.View())
    {
      hide Sound, SameKeys, Vmm.Valid, FreeCount, PagesOk, Agrees, OutsideKept, WellChosen, Quiet, WasAccessed, LeastTick, EvictionHarmless,
           EvictedBytes, TicksFit, RightsFit, ClockPicks;
      ghost var c, v := State(), vmm.View();
      if resident < PAGER_FRAME_LIMIT {
        AnySlotIfNotFull(c, v, resident);
        slot := resident;
        resident := resident + 1;
        OneMoreSlot(c, v, flat);
        if Quiet(c, v) {
          QuietHere(c, v, State());
        }
        AccessedItself(v);
        AccessedIsOutside(v, v, flat);
      } else {
        slot := EvictVictim();
      }
    }

    /** Chooses a victim and swaps it out; its slot is free to be filled. */
    method EvictVictim() returns (slot: nat)
      requires Valid() && resident == PAGER_FRAME_LIMIT
      modifies this`pages, this`tick, this`uses, this`hand, this`swap
      modifies vmm`frames, vmm`owner, vmm.pmm`bitmap, vmm.pmm`freePages
      ensures Valid() && slot < resident && !SlotNeeded(State(), slot)
      ensures SameRegistration(old(pages), pages)
      ensures forall j :: 0 <= j < |pages| && !old(pages)[j].present ==> !pages[j].present
      ensures OutsideKept(old(vmm.View()), vmm.View(), flat) && SameTables(old(vmm.View()), vmm.View())
      ensures !lru ==> ClockPicks(old(State()), old(vmm.View()), slot)
      ensures AllResident(old(State())) ==>
                WellChosen(old(State()), old(vmm.View()), !lru || old(uses) + PAGER_FRAME_LIMIT < WORD_LIMIT, slot)
      ensures lru && Quiet(old(State()), old(vmm.View())) && (exists i :: 0 <= i < resident && !old(pages)[slots[i]].pinned) ==>
                LeastTick(old(State()), old(pages), resident, slot)
      ensures swap == Evicted(old(State()), slots[slot], EvictedBytes(old(State()), old(vmm.View()), slots[slot], pageZero)).swap
      ensures vmm.pmm.freePages == old(vmm.pmm.freePages) + if old(pages)[slots[slot]].present then 1 else 0
      ensures Tidy(old(State())) ==> TidyBut(State(), slot)
      ensures Agrees(old(State()), old(vmm.View()), flat) ==>
                (Agrees(State(), vmm.View(), flat) <==> EvictionHarmless(old(State()), slots[slot], pageZero))
      ensures old(uses) <= uses <= old(uses) + PAGER_FRAME_LIMIT
      ensures Quiet(old(State()), old(vmm.View())) ==>
                Quiet(State(), vmm.View()) && SameTicks(old(pages), pages) && tick == old(tick) && uses == old(uses)
      ensures RightsFit(old(pages), old(vmm.View())) ==> RightsFit(pages, vmm.View())
    {
      hide Sound, WasAccessed, Undisturbed, SameKeys, Vmm.Valid, FreeCount, PagesOk, Agrees, AccessedOnly, OutsideKept, WellChosen,
           AllResident, ClockPicks, HasSlot, Quiet, SameAccess, EvictionHarmless, LeastTick, Tidy, TidyBut, EvictedBytes, TicksFit, RightsFit;
      ghost var c, v := State(), vmm.View();
      slot := ChooseVictim();
      ghost var d, u := State(), vmm.View();
      UndisturbedOutside(c, v, d, u, flat);
      UndisturbedAgrees(c, v, d, u, flat);
      ChosenIsSame(c, v, d, u, slots[slot], pageZero, flat);
      Evict(slot);
      OutsideTwice(v, u, vmm.View(), flat);
      SlotEmptied(d, State(), slot);
      if Quiet(d, u) {
        StaysQuiet(d, u, State(), vmm.View(), slots[slot]);
      }
    }

    /** Takes a frame for page `k`, reads the page from swap into it, and maps it; or takes
        nothing. */
    method BringFrame(k: nat) returns (f: nat, ghost u: Vm)
      requires Valid() && k < PAGER_MAX_PAGES && pages[k].used && !pages[k].present
      requires PageOk(pages[k], vmm.View(), k)
      modifies vmm`frames, vmm`owner, vmm.pmm`bitmap, vmm.pmm`freePages
      ensures vmm.Valid() && OutsideKept(old(vmm.View()), vmm.View(), flat)
      ensures f != 0 <==> old(vmm.pmm.freePages) >= FramesNeeded(pages[k], old(vmm.View()))
      ensures f != 0 ==> FrameBrought(State(), old(vmm.View()), u, vmm.View(), k, f)
      ensures f == 0 ==>
                Kept(State(), vmm.View())
                && (Agrees(State(), vmm.View(), flat) <==> Agrees(State(), old(vmm.View()), flat))
      ensures SameAccess(pages, old(vmm.View()), pages, vmm.View(), k) && !WasAccessed(pages[k], vmm.View())
      ensures f == 0 && RightsFit(pages, old(vmm.View())) ==> RightsFit(pages, vmm.View())
      ensures vmm.pmm.freePages == old(vmm.pmm.freePages) - if f != 0 then FramesNeeded(pages[k], old(vmm.View())) else 0
    {
      hide FreeCount, FrameOk, EntryOk, HasSlot, PagesOk, Remapped, Lookup, OutsideKept, Conserved, Pmm.Valid, LeavesOnly, Agrees,
           SameAccess, WasAccessed, TicksFit, RightsFit;
      ghost var c, v := State(), vmm.View();
      u := v;
      var p := pages[k];
      UsedHasDirectory(c, v, k);
      f := vmm.TakeFrame(swap[k], PagerFrame(p.dir, k));
      AccessedItself(v);
      AccessedIsOutside(v, v, flat);
      if f == 0 {
        AbsentIsNotAccessed(c, v, k);
        SampleIsLocal(pages, pages, v, v, k);
        return;
      }
      u := vmm.View();
      TakenFrame(v, u, f, PagerFrame(p.dir, k), swap[k], p.dir, p.virt);
      var mapped := vmm.MapPage(p.dir, p.virt, PAGE_SIZE * f, p.writable, p.user);
      if mapped {
        assert FrameBrought(c, v, u, vmm.View(), k, f);
        PageInOutside(c, v, u, vmm.View(), k, f, flat);
        PageInAccess(c, v, u, vmm.View(), k, f);
      } else {
        vmm.FreeFrame(f);
        TakeUndone(c, v, u, vmm.View(), k, f);
        TakeUndoneRights(c, v, u, vmm.View(), k);
        TakeUndoneOutside(v, u, vmm.View(), f, PagerFrame(p.dir, k), swap[k], flat);
        f := 0;
      }
    }

    /** Brings page `k` in, in resident slot `slot`. */
    method Bring(k: nat, slot: nat) returns (ok: bool)
      requires Valid() && k < PAGER_MAX_PAGES && pages[k].used && !pages[k].present
      requires slot < resident && !SlotNeeded(State(), slot)
      modifies this`pages, this`slots, this`hand, this`tick, this`uses
      modifies vmm`frames, vmm`owner, vmm.pmm`bitmap, vmm.pmm`freePages
      ensures Valid() && OutsideKept(old(vmm.View()), vmm.View(), flat)
      ensures ok <==> old(vmm.pmm.freePages) >= FramesNeeded(old(pages)[k], old(vmm.View()))
      ensures ok ==> pages[k].present && State() == PagedIn(old(State()), k, pages[k].frame, slot, NextTick(old(tick)))
      ensures ok ==> EntryAt(vmm.View(), KeyOf(pages[k])) == Entry(pages[k].frame, pages[k].writable, pages[k].user, false)
      ensures !ok ==> State() == old(State())
      ensures Agrees(State(), vmm.View(), flat) <==> Agrees(old(State()), old(vmm.View()), flat)
      ensures vmm.pmm.freePages == old(vmm.pmm.freePages) - if ok then FramesNeeded(old(pages)[k], old(vmm.View())) else 0
      ensures uses == old(uses) + if ok then 1 else 0
      ensures Quiet(old(State()), old(vmm.View())) ==>
                Quiet(State(), vmm.View()) && TickedOnly(old(pages), old(tick), pages, tick, k)
      ensures RightsFit(old(pages), old(vmm.View())) ==> RightsFit(pages, vmm.View())
    {
      hide FreeCount, HasSlot, SlotNeeded, PagesOk, FrameBrought, OutsideKept, Agrees, Vmm.Valid, SameKeys, Sound, EntryAt, Quiet,
           SameAccess, WasAccessed, TickedOnly, RightsFit;
      ghost var c, v := State(), vmm.View();
      PresentHasFrame(c, v, k);
      UsedHasDirectory(c, v, k);
      var f;
      ghost var u;
      f, u := BringFrame(k);
      if Quiet(c, v) {
        BroughtQuiet(c, v, if f == 0 then c else PagedIn(c, k, f, slot, NextTick(c.tick)), vmm.View(), k, f, slot, NextTick(c.tick));
      }
      if f == 0 {
        return false;
      }
      slots := slots[slot := k];
      hand := (slot + 1) % PAGER_FRAME_LIMIT;
      tick := NextTick(tick);
      uses := uses + 1;
      pages := pages[k := pages[k].(frame := f, present := true, swapped := false, lastUsed := tick)];
      PageInBooked(c, v, u, vmm.View(), k, f, slot, tick, flat);
      return true;
    }

    /** Brings a registered page into memory, in resident slot `slot`. It fails exactly when
        frames run out. If the resident slots were a bijection, exactly a failure ends that,
        and sampled LRU swaps out the page of least use tick. What the pages hold survives exactly when the page swapped out
        for it, if any, does not come from a stale slot or loses nothing by it. */
    method PageIn(k: nat) returns (ok: bool, ghost slot: nat)
      requires Valid() && k < PAGER_MAX_PAGES && pages[k].used && !pages[k].present
      modifies this`pages, this`slots, this`resident, this`hand, this`tick, this`uses, this`swap
      modifies vmm`frames, vmm`owner, vmm.pmm`bitmap, vmm.pmm`freePages
      ensures Valid() && OutsideKept(old(vmm.View()), vmm.View(), flat)
      ensures SameRegistration(old(pages), pages)
      ensures ok ==> pages[k].present
      ensures ok ==> EntryAt(vmm.View(), KeyOf(pages[k])) == Entry(pages[k].frame, pages[k].writable, pages[k].user, false)
      ensures !ok ==> EntryAt(vmm.View(), KeyOf(pages[k])) == Empty
      ensures IsDir(old(vmm.View()), old(pages)[k].dir)
      ensures slot < PAGER_FRAME_LIMIT && slots == if ok then old(slots)[slot := k] else old(slots)
      ensures resident == (if old(resident) < PAGER_FRAME_LIMIT then old(resident) + 1 else old(resident))
      ensures swap == if old(resident) < PAGER_FRAME_LIMIT then old(swap)
                      else Evicted(old(State()), old(slots)[slot],
                                   EvictedBytes(old(State()), old(vmm.View()), old(slots)[slot], pageZero)).swap
      ensures Agrees(old(State()), old(vmm.View()), flat) ==>
                (Agrees(State(), vmm.View(), flat) <==> RoomHarmless(old(State()), slot, pageZero))
      ensures ok <==> old(vmm.pmm.freePages) + FramesFreed(old(State()), slot) >= FramesNeeded(old(pages)[k], old(vmm.View()))
      ensures vmm.pmm.freePages == old(vmm.pmm.freePages) + FramesFreed(old(State()), slot)
                                   - if ok then FramesNeeded(old(pages)[k], old(vmm.View())) else 0
      ensures lru && Tidy(old(State())) && Quiet(old(State()), old(vmm.View())) && MustEvict(old(State())) ==>
                LeastTick(old(State()), old(pages), PAGER_FRAME_LIMIT, slot)
      ensures !lru ==> ClockPicks(old(State()), old(vmm.View()), slot)
      ensures ok ==> hand == (slot + 1) % PAGER_FRAME_LIMIT
      ensures Tidy(old(State())) ==>
                && (ok <==> CanPageIn(old(State()), old(vmm.View()), old(vmm.pmm.freePages), k))
                && (ok <==> Tidy(State())) && RoomHarmless(old(State()), slot, pageZero)
                && (ok ==> vmm.pmm.freePages + resident >= old(vmm.pmm.freePages + resident) - 1)
      ensures old(uses) <= uses <= old(uses) + PAGER_FRAME_LIMIT + 1
      ensures Quiet(old(State()), old(vmm.View())) ==>
                && Quiet(State(), vmm.View()) && TickedOnly(old(pages), old(tick), pages, tick, k)
                && uses == old(uses) + if ok then 1 else 0
      ensures RightsFit(old(pages), old(vmm.View())) ==> RightsFit(pages, vmm.View())
    {
      hide FreeCount, HasSlot, SlotNeeded, PagesOk, OutsideKept, Agrees, Vmm.Valid, SameKeys, Sound, Tidy, TidyBut, SameTables, EntryAt,
           Quiet, SameTicks, TickedOnly, EvictionHarmless, EvictedBytes, TicksFit, RightsFit, ClockPicks,
           MustEvict, LeastTick, Lookup;
      ghost var c, v := State(), vmm.View();
      var at := MakeRoom();
      slot := at;
      ghost var d, u := State(), vmm.View();
      SameNeeds(c, v, d, u, k);
      ok := Bring(k, at);
      OutsideTwice(v, u, vmm.View(), flat);
      if Quiet(c, v) {
        TickedAfterSame(c.pages, c.tick, d.pages, pages, tick, k);
      }
      TidyRoomIsHarmless(c, slot, pageZero);
      TidyFrees(c, slot);
      if ok {
        PagedInRegistration(c.pages, d, k, pages[k].frame, slot, tick);
        if Tidy(c) {
          PageInTidies(d, k, pages[k].frame, slot, tick);
        }
      } else {
        AbsentIsUnmapped(State(), vmm.View(), k);
        if Tidy(c) {
          NeededIsNotTidy(d, slot);
        }
      }
    }

    /** Handles a page fault at `virt` in the current directory. Faults on present pages
        (`protection`) and on unregistered ones are left to the caller and change nothing. */
    method HandlePageFault(virt: U32, protection: bool) returns (ok: bool, ghost slot: nat)
      requires Valid()
      modifies this`pages, this`slots, this`resident, this`hand, this`tick, this`uses, this`swap
      modifies vmm`frames, vmm`owner, vmm.pmm`bitmap, vmm.pmm`freePages
      ensures Valid() && OutsideKept(old(vmm.View()), vmm.View(), flat) && SameRegistration(old(pages), pages)
      ensures protection || (vmm.current, AlignDown(virt)) !in flat ==>
                !ok && State() == old(State()) && vmm.View() == old(vmm.View())
      ensures slot < PAGER_FRAME_LIMIT
      ensures Agrees(old(State()), old(vmm.View()), flat) ==>
                (Agrees(State(), vmm.View(), flat) <==>
                 protection || !BringsIn(old(pages), (vmm.current, AlignDown(virt))) || RoomHarmless(old(State()), slot, pageZero))
      ensures Tidy(old(State())) ==>
                && (Tidy(State()) <==> ok || protection || (vmm.current, AlignDown(virt)) !in flat)
                && (!protection ==> (ok <==> FaultWorks(old(State()), old(vmm.View()), old(vmm.pmm.freePages), (vmm.current, AlignDown(virt)))))
                && RoomHarmless(old(State()), slot, pageZero)
                && (Tidy(State()) ==> vmm.pmm.freePages + resident >= old(vmm.pmm.freePages + resident) - 1)
      ensures ok ==> exists k: nat :: Repaired(old(pages), pages, vmm.View(), (vmm.current, AlignDown(virt)), k)
      ensures !ok && !protection && (vmm.current, AlignDown(virt)) in flat ==> EntryAt(vmm.View(), (vmm.current, AlignDown(virt))) == Empty
      ensures old(uses) <= uses <= old(uses) + PAGER_FRAME_LIMIT + 1
      ensures Quiet(old(State()), old(vmm.View())) ==>
                && Quiet(State(), vmm.View()) && uses <= old(uses) + 1
                && (ok ==> KeyTicked(old(pages), old(tick), pages, tick, (vmm.current, AlignDown(virt))))
      ensures RightsFit(old(pages), old(vmm.View())) ==> RightsFit(pages, vmm.View())
    {
      hide FreeCount, HasSlot, PagesOk, OutsideKept, Agrees, Vmm.Valid, SameKeys, Sound, Tidy, EntryAt, Quiet, TickedOnly, SameTicks,
           EvictionHarmless, EvictedBytes, Evicted, BringsIn, TicksFit, RightsFit;
      ghost var c, v := State(), vmm.View();
      slot := 0;
      OutsideItself(v, flat);
      TidyRoomIsHarmless(c, slot, pageZero);
      if protection {
        return false, 0;
      }
      var found, k := FindPage(vmm.current, virt);
      FoundIsThatPage(c, v, flat, (vmm.current, AlignDown(virt)), found, k);
      FoundBringsIn(c, v, flat, (vmm.current, AlignDown(virt)), found, k);
      if !found {
        return false, 0;
      }
      if pages[k].present {
        assert Repaired(c.pages, pages, v, (vmm.current, AlignDown(virt)), k);
        NothingTicked(pages, tick, k);
        assert KeyTickedAt(pages, tick, pages, tick, (vmm.current, AlignDown(virt)), k);
        return true, 0;
      }
      ok, slot := PageIn(k);
      if ok {
        assert Repaired(c.pages, pages, vmm.View(), (vmm.current, AlignDown(virt)), k);
        if Quiet(c, v) {
          assert KeyTickedAt(c.pages, c.tick, pages, tick, (vmm.current, AlignDown(virt)), k);
        }
      }
    }

    // ---- registration --------------------------------------------------------------------------

    /** Registers a page with initial content. Registering it again rewrites its flags and
        its swap slot, so the new content shows only if the page is not in memory. */
    method RegisterPageData(dir: nat, virt: U32, writable: bool, user: bool, data: seq<Byte>) returns (ok: bool)
      requires Valid() && (dir == 0 || IsDir(vmm.View(), dir)) && virt < VMM_KERNEL_BASE
      requires dir != 0 && Aligned(virt) && (dir, virt) !in flat ==> EntryAt(vmm.View(), (dir, virt)) == Empty
      modifies this`pages, this`swap, this`flat
      ensures Valid()
      ensures ok <==> dir != 0 && Aligned(virt) && |data| <= PAGE_SIZE
                      && ((dir, virt) in old(flat) || |old(flat)| < PAGER_MAX_PAGES)
      ensures !ok ==> State() == old(State()) && flat == old(flat)
      ensures ok ==> flat == if PresentKey(old(pages), (dir, virt)) then old(flat) else old(flat)[(dir, virt) := Padded(data)]
      ensures ok && !PresentKey(old(pages), (dir, virt)) ==>
                && (dir, virt) in flat && |flat[(dir, virt)]| == PAGE_SIZE
                && forall i :: 0 <= i < PAGE_SIZE ==> flat[(dir, virt)][i] == if i < |data| then data[i] else 0
      ensures ok ==> OnlyKeyChanged(old(pages), pages, (dir, virt)) && Flagged(pages, (dir, virt), writable, user)
      ensures ok && (dir, virt) !in old(flat) ==>
                exists k :: FirstFree(old(pages), k) && State() == Entered(old(State()), k, dir, virt, writable, user, Padded(data))
      ensures old(Faithful()) ==> Faithful()
      ensures RightsFit(old(pages), vmm.View()) && RightsAllow(old(pages), (dir, virt), writable, user) ==> RightsFit(pages, vmm.View())
    {
      hide FreeCount, Kept, Vmm.Valid, Sound, EntryAt, Tidy, Agrees, SameKeys, OnlyKeyChanged, PresentKey, TicksFit, RightsFit, Flagged,
           HasFreeEntry;
      if dir == 0 || !Aligned(virt) || |data| > PAGE_SIZE {
        return false;
      }
      AlignedIsDown(virt);
      var found, k := FindPage(dir, virt);
      if found {
        RewritePage(k, writable, user, Padded(data));
        return true;
      }
      FreeEntryCount(State(), vmm.View(), flat);
      found, k := FindFree();
      if !found {
        return false;
      }
      EnterPage(k, dir, virt, writable, user, Padded(data));
      return true;
    }

    method RewritePage(k: nat, writable: bool, user: bool, bytes: seq<Byte>)
      requires Valid() && k < PAGER_MAX_PAGES && pages[k].used && |bytes| == PAGE_SIZE
      modifies this`pages, this`swap, this`flat
      ensures Valid() && KeyOf(old(pages)[k]) in old(flat)
      ensures flat == if PresentKey(old(pages), KeyOf(old(pages)[k])) then old(flat) else old(flat)[KeyOf(old(pages)[k]) := bytes]
      ensures OnlyKeyChanged(old(pages), pages, KeyOf(old(pages)[k])) && Flagged(pages, KeyOf(old(pages)[k]), writable, user)
      ensures old(Faithful()) ==> Faithful()
      ensures RightsFit(old(pages), vmm.View()) && RightsAllow(old(pages), KeyOf(old(pages)[k]), writable, user) ==> RightsFit(pages, vmm.View())
    {
      hide FreeCount, HasSlot, PagesOk, PageOk, Tidy, Agrees, Vmm.Valid, Sound, PresentKey, RightsFit, RightsAllow, Flagged;
      ghost var c, v := State(), vmm.View();
      KeyIsOfOnePage(c, v, flat, KeyOf(pages[k]), k);
      RewriteRights(c, v, flat, k, writable, user);
      RewriteBooked(c, v, k, writable, user, bytes, flat);
      pages := pages[k := pages[k].(writable := writable, user := user)];
      swap := swap[k := bytes];
      if !pages[k].present {
        flat := flat[KeyOf(pages[k]) := bytes];
      }
    }

    method EnterPage(k: nat, dir: nat, virt: U32, writable: bool, user: bool, bytes: seq<Byte>)
      requires Valid() && k < PAGER_MAX_PAGES && !pages[k].used && |bytes| == PAGE_SIZE
      requires IsDir(vmm.View(), dir) && Aligned(virt) && virt < VMM_KERNEL_BASE
      requires EntryAt(vmm.View(), (dir, virt)) == Empty && (dir, virt) !in flat
      modifies this`pages, this`swap, this`flat
      ensures Valid() && flat == old(flat)[(dir, virt) := bytes] && !PresentKey(old(pages), (dir, virt))
      ensures State() == Entered(old(State()), k, dir, virt, writable, user, bytes)
      ensures OnlyKeyChanged(old(pages), pages, (dir, virt)) && Flagged(pages, (dir, virt), writable, user)
      ensures old(Faithful()) ==> Faithful()
      ensures RightsFit(old(pages), vmm.View()) ==> RightsFit(pages, vmm.View())
    {
      hide FreeCount, HasSlot, PagesOk, PageOk, Tidy, Agrees, Vmm.Valid, Sound, PresentKey, EntryAt;
      EnterBooked(State(), vmm.View(), k, dir, virt, writable, user, bytes, flat);
      pages := pages[k := PagerPage(true, false, true, dir, virt, 0, writable, user, 0, false)];
      swap := swap[k := bytes];
      flat := flat[(dir, virt) := bytes];
    }

    /** Exempts a page from eviction, or not. */
    method PinPage(dir: nat, virt: U32, pinned: bool) returns (ok: bool)
      requires Valid()
      modifies this`pages
      ensures Valid() && (ok <==> (dir, AlignDown(virt)) in flat)
      ensures !ok ==> pages == old(pages)
      ensures ok ==> OnlyKeyChanged(old(pages), pages, (dir, AlignDown(virt)))
                     && forall k :: 0 <= k < |pages| && pages[k].used && KeyOf(pages[k]) == (dir, AlignDown(virt)) ==>
                          pages[k] == old(pages)[k].(pinned := pinned)
      ensures SamePlaces(old(pages), pages)
      ensures old(Faithful()) ==> Faithful()
      ensures RightsFit(old(pages), vmm.View()) ==> RightsFit(pages, vmm.View())
    {
      hide FreeCount, Kept, SameKeys, Vmm.Valid, Sound, Tidy, Agrees, Undisturbed, AccessedOnly, RightsFit;
      ghost var c, v := State(), vmm.View();
      NoKeyZero(c, v, flat, AlignDown(virt));
      if dir == 0 {
        return false;
      }
      var found, k := FindPage(dir, virt);
      if !found {
        return false;
      }
      KeyIsOfOnePage(c, v, flat, (dir, AlignDown(virt)), k);
      pages := pages[k := pages[k].(pinned := pinned)];
      AccessedItselfOf(c, v);
      UndisturbedKept(c, v, State(), v);
      UndisturbedAgrees(c, v, State(), v, flat);
      if RightsFit(c.pages, v) {
        UndisturbedRights(c, v, State(), v);
      }
      return true;
    }

    method SetAlgorithm(useLru: bool)
      requires Valid()
      modifies this`lru
      ensures Valid() && lru == useLru && (old(Faithful()) ==> Faithful())
    {
      lru := useLru;
    }

    /** Samples every resident page: those accessed since the last look get new use ticks, in
        the order of their slots, and every accessed bit ends clear. */
    method SampleUsage()
      requires Valid()
      modifies this`pages, this`tick, this`uses, vmm`frames
      ensures Valid() && Undisturbed(old(State()), old(vmm.View()), State(), vmm.View())
      ensures SampledAll(old(State()), old(vmm.View()), pages, vmm.View(), tick, resident) && Quiet(State(), vmm.View())
      ensures old(uses) <= uses <= old(uses) + PAGER_FRAME_LIMIT
      ensures old(Faithful()) ==> Faithful()
      ensures RightsFit(old(pages), old(vmm.View())) ==> RightsFit(pages, vmm.View())
    {
      hide FreeCount, Kept, Vmm.Valid, Sound, Undisturbed, WasAccessed, SameAccess, SameKeys, SampledAll, Tidy, Agrees, Quiet, TicksFit, RightsFit;
      ghost var c, v := State(), vmm.View();
      SamplingBegins(c, v);
      SamplingAllBegins(c, v);
      for slot := 0 to resident
        invariant Valid() && Shaped(c) && Undisturbed(c, v, State(), vmm.View())
        invariant SampledAll(c, v, pages, vmm.View(), tick, slot)
        invariant old(uses) <= uses <= old(uses) + slot
      {
        ghost var d, w := State(), vmm.View();
        UnusedNever(d, w);
        SamplePage(slots[slot]);
        UndisturbedTwice(c, v, d, w, State(), vmm.View());
        SampleOneMore(c, v, d.pages, w, d.tick, pages, vmm.View(), tick, slot);
      }
      SamplingAllDone(c, v, State(), vmm.View());
      if RightsFit(c.pages, v) {
        UndisturbedRights(c, v, State(), vmm.View());
      }
      UndisturbedAgrees(c, v, State(), vmm.View(), flat);
    }

    /** Unregisters a page: its frame, if it has one, is given back, and nothing else
        changes for anyone. */
    method UnregisterPage(dir: nat, virt: U32)
      requires Valid()
      modifies this`pages, this`slots, this`resident, this`hand, this`flat
      modifies vmm`frames, vmm`owner, vmm.pmm`bitmap, vmm.pmm`freePages
      ensures Valid() && flat == old(flat) - {(dir, AlignDown(virt))}
      ensures OutsideKept(old(vmm.View()), vmm.View(), old(flat))
      ensures (dir, AlignDown(virt)) in old(flat) ==> EntryAt(vmm.View(), (dir, AlignDown(virt))) == Empty
      ensures Released(old(vmm.View()), vmm.View(), FramesOfKey(old(pages), (dir, AlignDown(virt))))
      ensures OnlyKeyChanged(old(pages), pages, (dir, AlignDown(virt)))
      ensures vmm.pmm.freePages + resident == old(vmm.pmm.freePages + resident)
      ensures old(Faithful()) ==> Faithful()
      ensures RightsFit(old(pages), old(vmm.View())) ==> RightsFit(pages, vmm.View())
    {
      hide FreeCount, Kept, SameKeys, Vmm.Valid, Sound, Tidy, Agrees, OutsideKept, EntryAt, Released, FramesOfKey, OnlyKeyChanged, RightsFit;
      ghost var c, v := State(), vmm.View();
      NothingReleased(c, v, flat, (dir, AlignDown(virt)));
      if dir == 0 {
        return;
      }
      var found, k := FindPage(dir, AlignDown(virt));
      if !found {
        return;
      }
      if pages[k].present {
        ForgetPresent(k);
      } else {
        ForgetAbsent(k);
      }
    }

    method ForgetAbsent(k: nat)
      requires Valid() && k < PAGER_MAX_PAGES && pages[k].used && !pages[k].present
      modifies this`pages, this`flat
      ensures Valid() && flat == old(flat) - {KeyOf(old(pages)[k])}
      ensures OutsideKept(vmm.View(), vmm.View(), old(flat)) && EntryAt(vmm.View(), KeyOf(old(pages)[k])) == Empty
      ensures Released(vmm.View(), vmm.View(), FramesOfKey(old(pages), KeyOf(old(pages)[k])))
      ensures OnlyKeyChanged(old(pages), pages, KeyOf(old(pages)[k]))
      ensures old(Faithful()) ==> Faithful()
      ensures RightsFit(old(pages), old(vmm.View())) ==> RightsFit(pages, vmm.View())
    {
      hide FreeCount, PagesOk, HasSlot, SameKeys, Vmm.Valid, Sound, Tidy, Agrees, OutsideKept, EntryAt, Released, FramesOfKey;
      ghost var c, v := State(), vmm.View();
      AbsentFacts(c, v, flat, k);
      ForgetAbsentBooked(c, v, k, flat);
      flat := flat - {KeyOf(pages[k])};
      pages := pages[k := UNUSED];
    }

    method ForgetPresent(k: nat)
      requires Valid() && k < PAGER_MAX_PAGES && pages[k].used && pages[k].present
      modifies this`pages, this`slots, this`resident, this`hand, this`flat
      modifies vmm`frames, vmm`owner, vmm.pmm`bitmap, vmm.pmm`freePages
      ensures Valid() && flat == old(flat) - {KeyOf(old(pages)[k])}
      ensures OutsideKept(old(vmm.View()), vmm.View(), old(flat)) && EntryAt(vmm.View(), KeyOf(old(pages)[k])) == Empty
      ensures Released(old(vmm.View()), vmm.View(), FramesOfKey(old(pages), KeyOf(old(pages)[k])))
      ensures OnlyKeyChanged(old(pages), pages, KeyOf(old(pages)[k]))
      ensures vmm.pmm.freePages + resident == old(vmm.pmm.freePages + resident)
      ensures old(Faithful()) ==> Faithful()
      ensures RightsFit(old(pages), old(vmm.View())) ==> RightsFit(pages, vmm.View())
    {
      hide FreeCount, PagesOk, SameKeys, Vmm.Valid, Sound, Tidy, Agrees, OutsideKept, EntryAt, Released, FramesOfKey, FrameGivenBack, RightsFit;
      ghost var c, v := State(), vmm.View();
      var p := pages[k];
      var s := RemoveSlot(k);
      ghost var u := GiveFrameBack(c, k, p);
      PresentFacts(c, v, u, vmm.View(), flat, k);
      ForgetPresentBooked(c, v, u, vmm.View(), k, s, flat);
      if RightsFit(c.pages, v) {
        EvictRights(c, v, u, vmm.View(), k, swap[k]);
      }
      flat := flat - {KeyOf(p)};
      pages := pages[k := UNUSED];
    }

    /** Gives up the resident slot of a present page. */
    method RemoveSlot(k: nat) returns (s: nat)
      requires Valid() && k < PAGER_MAX_PAGES && pages[k].present
      modifies this`slots, this`resident, this`hand
      ensures s < old(resident) && old(slots)[s] == k && State() == SlotRemoved(old(State()), s)
    {
      hide FreeCount, PagesOk, Vmm.Valid, Sound;
      assert HasSlot(State(), k);
      s := 0;
      for slot := 0 to resident
        invariant State() == old(State())
        invariant forall i :: 0 <= i < slot ==> slots[i] != k
      {
        if slots[slot] == k {
          if resident > 0 && slot + 1 < resident {
            slots := slots[slot := slots[resident - 1]];
          }
          resident := resident - 1;
          if resident == 0 || hand >= resident {
            hand := 0;
          }
          return slot;
        }
      }
      assert false;
    }

    // ---- the processor's accesses -------------------------------------------------------------------

    /** The mapping an access at `virt` finds, after the fault it may raise. */
    method Resolve(virt: U32) returns (e: Entry, ghost slot: nat)
      requires Valid() && virt < VMM_KERNEL_BASE
      requires (vmm.current, AlignDown(virt)) in flat || EntryAt(vmm.View(), (vmm.current, AlignDown(virt))) == Empty
      modifies this`pages, this`slots, this`resident, this`hand, this`tick, this`uses, this`swap
      modifies vmm`frames, vmm`owner, vmm.pmm`bitmap, vmm.pmm`freePages
      ensures Valid() && OutsideKept(old(vmm.View()), vmm.View(), flat) && SameRegistration(old(pages), pages)
      ensures e == EntryAt(vmm.View(), (vmm.current, AlignDown(virt)))
      ensures e.Entry? ==> (vmm.current, AlignDown(virt)) in flat
      ensures slot < PAGER_FRAME_LIMIT
      ensures Agrees(old(State()), old(vmm.View()), flat) ==>
                (Agrees(State(), vmm.View(), flat) <==>
                 !BringsIn(old(pages), (vmm.current, AlignDown(virt))) || RoomHarmless(old(State()), slot, pageZero))
      ensures Tidy(old(State())) ==>
                && (Tidy(State()) <==> FramesSuffice(old(State()), old(vmm.View()), old(vmm.pmm.freePages), flat, (vmm.current, AlignDown(virt))))
                && (forall write :: AccessWorks(old(State()), old(vmm.View()), old(vmm.pmm.freePages), (vmm.current, AlignDown(virt)), write)
                                    <==> MayAccess(e, write))
                && RoomHarmless(old(State()), slot, pageZero)
                && (Tidy(State()) ==> vmm.pmm.freePages + resident >= old(vmm.pmm.freePages + resident) - 1)
      ensures old(uses) <= uses <= old(uses) + PAGER_FRAME_LIMIT + 1
      ensures e.Entry? && Quiet(old(State()), old(vmm.View())) ==>
                && Quiet(State(), vmm.View()) && uses <= old(uses) + 1
                && KeyTicked(old(pages), old(tick), pages, tick, (vmm.current, AlignDown(virt)))
      ensures RightsFit(old(pages), old(vmm.View())) ==> RightsFit(pages, vmm.View())
    {
      hide FreeCount, Kept, OutsideKept, Agrees, SameKeys, Tidy, EntryAt, Repaired, AccessWorks, Undisturbed, FaultWorks,
           FrameOk, Lookup, Pmm.Valid, TicksFit, Quiet, TickedOnly, KeyTicked, RoomHarmless, RightsFit, BringsIn, SameRegistration;
      ghost var c, v, free := State(), vmm.View(), vmm.pmm.freePages;
      ghost var key := (vmm.current, AlignDown(virt));
      slot := 0;
      OutsideItself(v, flat);
      EntryAtIs(v, vmm.current, AlignDown(virt));
      e := vmm.GetPageEntry(vmm.current, AlignDown(virt));
      if e.Entry? {
        MappedIsThere(c, v, flat, key, free, slot, pageZero);
        return;
      }
      var ok;
      ok, slot := HandlePageFault(virt, false);
      AccessWhenUnmapped(c, v, free, key, flat, State(), vmm.View());
      if ok {
        RepairedIsMapped(c.pages, State(), vmm.View(), flat, key);
        EntryAtIs(vmm.View(), vmm.current, AlignDown(virt));
        e := vmm.GetPageEntry(vmm.current, AlignDown(virt));
      }
    }

    /** One user access to an address of the current directory: faults are handled and the
        access retried, rights are checked, and the accessed bit of that page goes up. */
    method UserAccess(virt: U32, write: bool) returns (ok: bool, frame: nat, ghost k: nat, ghost slot: nat)
      requires Valid() && virt < VMM_KERNEL_BASE
      requires (vmm.current, AlignDown(virt)) in flat || EntryAt(vmm.View(), (vmm.current, AlignDown(virt))) == Empty
      modifies this`pages, this`slots, this`resident, this`hand, this`tick, this`uses, this`swap
      modifies vmm`frames, vmm`owner, vmm.pmm`bitmap, vmm.pmm`freePages
      ensures Valid() && OutsideKept(old(vmm.View()), vmm.View(), flat) && SameRegistration(old(pages), pages)
      ensures ok ==> IsNowPresent(pages, (vmm.current, AlignDown(virt)), k) && frame == pages[k].frame && WasAccessed(pages[k], vmm.View())
      ensures slot < PAGER_FRAME_LIMIT
      ensures Agrees(old(State()), old(vmm.View()), flat) ==>
                (Agrees(State(), vmm.View(), flat) <==>
                 !BringsIn(old(pages), (vmm.current, AlignDown(virt))) || RoomHarmless(old(State()), slot, pageZero))
      ensures Tidy(old(State())) ==>
                && (Tidy(State()) <==> FramesSuffice(old(State()), old(vmm.View()), old(vmm.pmm.freePages), flat, (vmm.current, AlignDown(virt))))
                && (ok <==> AccessWorks(old(State()), old(vmm.View()), old(vmm.pmm.freePages),
                                        (vmm.current, AlignDown(virt)), write))
                && RoomHarmless(old(State()), slot, pageZero)
                && (Tidy(State()) ==> vmm.pmm.freePages + resident >= old(vmm.pmm.freePages + resident) - 1)
      ensures old(uses) <= uses <= old(uses) + PAGER_FRAME_LIMIT + 1
      ensures ok && Quiet(old(State()), old(vmm.View())) ==>
                && OnlyAccessed(State(), vmm.View(), k) && TickedOnly(old(pages), old(tick), pages, tick, k) && uses <= old(uses) + 1
      ensures RightsFit(old(pages), old(vmm.View())) ==> RightsFit(pages, vmm.View())
    {
      hide FreeCount, Kept, OutsideKept, Agrees, SameKeys, Tidy, EntryAt, AccessWorks, Undisturbed, FramesSuffice, Vmm.Valid,
           TicksFit, Quiet, TickedOnly, KeyTicked, RoomHarmless, RightsFit, WasAccessed, SameAccess, OnlyAccessed, BringsIn, SameRegistration;
      ghost var c, v := State(), vmm.View();
      ghost var key := (vmm.current, AlignDown(virt));
      var e;
      k, frame := 0, 0;
      e, slot := Resolve(virt);
      if e.Empty? || !e.user || (write && !e.writable) {
        return false, frame, k, slot;
      }
      ghost var d, u := State(), vmm.View();
      k := EntryHasPage(d, u, flat, key);
      TouchPage(AlignDown(virt), k);
      UndisturbedOutside(d, u, d, vmm.View(), flat);
      UndisturbedAgreesBack(d, u, vmm.View(), flat);
      TouchedKeeps(c, v, d, u, vmm.View(), key, k);
      OutsideTwice(v, u, vmm.View(), flat);
      return true, e.frame, k, slot;
    }

    /** The processor marks the page it accesses in the current directory. */
    method TouchPage(page: U32, ghost k: nat)
      requires Valid() && IsNowPresent(pages, (vmm.current, page), k)
      modifies vmm`frames
      ensures Valid() && Undisturbed(State(), old(vmm.View()), State(), vmm.View())
      ensures WasAccessed(pages[k], vmm.View()) && SameAccess(pages, old(vmm.View()), pages, vmm.View(), k)
    {
      hide FreeCount, PagesOk, HasSlot, FrameOk, Alike, Lookup, SameKeys, Conserved, Pmm.Valid, TicksFit, SameAccess, WasAccessed;
      ghost var v := vmm.View();
      PresentIsMapped(State(), v, k);
      vmm.SetAccessed(vmm.current, page);
      RemapIsAccessedOnly(v, vmm.View(), vmm.current, page, true);
      TouchedOnlyThat(State(), v, vmm.View(), k);
      UndisturbedKept(State(), v, State(), vmm.View());
    }

    /** A user load: it returns the byte of the flat memory. Whether it works or not, the
        pages keep their bytes, and only a page-in that finds no frame ends the bijection. */
    method UserLoad(virt: U32) returns (ok: bool, b: Byte, ghost k: nat, ghost slot: nat)
      requires Valid() && virt < VMM_KERNEL_BASE
      requires (vmm.current, AlignDown(virt)) in flat || EntryAt(vmm.View(), (vmm.current, AlignDown(virt))) == Empty
      modifies this`pages, this`slots, this`resident, this`hand, this`tick, this`uses, this`swap
      modifies vmm`frames, vmm`owner, vmm.pmm`bitmap, vmm.pmm`freePages
      ensures Valid() && OutsideKept(old(vmm.View()), vmm.View(), flat) && SameRegistration(old(pages), pages)
      ensures ok ==> IsNowPresent(pages, (vmm.current, AlignDown(virt)), k) && WasAccessed(pages[k], vmm.View())
      ensures slot < PAGER_FRAME_LIMIT
      ensures Agrees(old(State()), old(vmm.View()), flat) ==>
                (Agrees(State(), vmm.View(), flat) <==>
                 !BringsIn(old(pages), (vmm.current, AlignDown(virt))) || RoomHarmless(old(State()), slot, pageZero))
      ensures old(Faithful()) ==>
                && Agrees(State(), vmm.View(), flat)
                && (Faithful() <==> FramesSuffice(old(State()), old(vmm.View()), old(vmm.pmm.freePages), flat, (vmm.current, AlignDown(virt))))
                && (ok <==> AccessWorks(old(State()), old(vmm.View()), old(vmm.pmm.freePages),
                                        (vmm.current, AlignDown(virt)), false))
                && (Faithful() ==> vmm.pmm.freePages + resident >= old(vmm.pmm.freePages + resident) - 1)
                && (ok ==> HoldsByte(flat, (vmm.current, AlignDown(virt)), virt % PAGE_SIZE, b))
      ensures old(uses) <= uses <= old(uses) + PAGER_FRAME_LIMIT + 1
      ensures ok && Quiet(old(State()), old(vmm.View())) ==>
                && OnlyAccessed(State(), vmm.View(), k) && TickedOnly(old(pages), old(tick), pages, tick, k) && uses <= old(uses) + 1
      ensures RightsFit(old(pages), old(vmm.View())) ==> RightsFit(pages, vmm.View())
    {
      hide FreeCount, Kept, OutsideKept, Agrees, SameKeys, Tidy, EntryAt, AccessWorks, Sound, Vmm.Valid, TicksFit, Quiet, TickedOnly,
           OnlyAccessed, RoomHarmless, RightsFit, WasAccessed, BringsIn, FramesSuffice, SameRegistration, SameBits;
      var frame;
      ok, frame, k, slot := UserAccess(virt, false);
      b := 0;
      if ok {
        FrameHasBytes(State(), vmm.View(), flat, k);
        b := vmm.frames[frame].bytes[virt % PAGE_SIZE];
      }
    }

    /** A user store: it changes that byte of the flat memory and no other. */
    method UserStore(virt: U32, b: Byte) returns (ok: bool, ghost k: nat, ghost slot: nat)
      requires Valid() && virt < VMM_KERNEL_BASE
      requires (vmm.current, AlignDown(virt)) in flat || EntryAt(vmm.View(), (vmm.current, AlignDown(virt))) == Empty
      modifies this`pages, this`slots, this`resident, this`hand, this`tick, this`uses, this`swap, this`flat
      modifies vmm`frames, vmm`owner, vmm.pmm`bitmap, vmm.pmm`freePages
      ensures Valid() && OutsideKept(old(vmm.View()), vmm.View(), old(flat)) && SameRegistration(old(pages), pages)
      ensures flat.Keys == old(flat).Keys && (!ok ==> flat == old(flat))
      ensures ok ==> IsNowPresent(pages, (vmm.current, AlignDown(virt)), k) && WasAccessed(pages[k], vmm.View())
      ensures slot < PAGER_FRAME_LIMIT
      ensures Agrees(old(State()), old(vmm.View()), old(flat)) ==>
                (!BringsIn(old(pages), (vmm.current, AlignDown(virt))) || RoomHarmless(old(State()), slot, pageZero) ==>
                 Agrees(State(), vmm.View(), flat))
      ensures old(Faithful()) ==>
                && Agrees(State(), vmm.View(), flat)
                && (Faithful() <==> FramesSuffice(old(State()), old(vmm.View()), old(vmm.pmm.freePages), old(flat), (vmm.current, AlignDown(virt))))
                && (ok <==> AccessWorks(old(State()), old(vmm.View()), old(vmm.pmm.freePages),
                                        (vmm.current, AlignDown(virt)), true))
                && (Faithful() ==> vmm.pmm.freePages + resident >= old(vmm.pmm.freePages + resident) - 1)
                && (ok ==> ByteStored(old(flat), flat, (vmm.current, AlignDown(virt)), virt % PAGE_SIZE, b))
      ensures old(uses) <= uses <= old(uses) + PAGER_FRAME_LIMIT + 1
      ensures ok && Quiet(old(State()), old(vmm.View())) ==>
                && OnlyAccessed(State(), vmm.View(), k) && TickedOnly(old(pages), old(tick), pages, tick, k) && uses <= old(uses) + 1
      ensures RightsFit(old(pages), old(vmm.View())) ==> RightsFit(pages, vmm.View())
    {
      hide FreeCount, Kept, OutsideKept, Agrees, SameKeys, Tidy, EntryAt, AccessWorks, Sound, Vmm.Valid, TicksFit, Quiet, TickedOnly,
           OnlyAccessed, RoomHarmless, RightsFit, WasAccessed, BringsIn, FramesSuffice, SameRegistration, SameBits;
      var frame;
      ok, frame, k, slot := UserAccess(virt, true);
      if ok {
        ghost var v := vmm.View();
        FrameHasBytes(State(), v, flat, k);
        WriteFrame(frame, WithByte(vmm.frames[frame].bytes, virt % PAGE_SIZE, b), k);
        OutsideTwice(old(vmm.View()), v, vmm.View(), old(flat));
        BitsStay(State(), v, vmm.View(), k);
      }
    }

    /** New content for the frame of a present page. */
    method WriteFrame(frame: nat, bytes: seq<Byte>, ghost k: nat)
      requires Valid() && k < |pages| && pages[k].present && pages[k].used && frame == pages[k].frame && |bytes| == PAGE_SIZE
      modifies vmm`frames, this`flat
      ensures Valid() && flat == old(flat)[KeyOf(pages[k]) := bytes] && flat.Keys == old(flat).Keys
      ensures OutsideKept(old(vmm.View()), vmm.View(), old(flat))
      ensures Agrees(old(State()), old(vmm.View()), old(flat)) ==> Agrees(State(), vmm.View(), flat)
      ensures SameBits(pages, old(vmm.View()), vmm.View())
      ensures RightsFit(pages, old(vmm.View())) ==> RightsFit(pages, vmm.View())
    {
      hide FreeCount, PagesOk, HasSlot, FrameOk, Lookup, Conserved, Pmm.Valid, OutsideKept, Tidy, Agrees, RightsFit, WasAccessed, TicksFit, SameBits;
      ghost var c, v := State(), vmm.View();
      PresentHasFrame(c, v, k);
      vmm.FillFrame(frame, bytes);
      WriteBooked(c, v, vmm.View(), k, bytes, flat);
      WrittenRights(c, v, vmm.View());
      flat := flat[KeyOf(pages[k]) := bytes];
    }
  }
}
