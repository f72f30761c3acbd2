/** What the pager's runs say about recency and about failed page-ins. */
module PagerRecency {
  import opened Machine
  import opened Bitmap
  import opened PmmSpec
  import opened PmmModule
  import opened VmmSpec
  import opened VmmModule
  import opened PagerSpec
  import opened PagerVictim
  import opened PagerSteps
  import opened PagerPlain
  import opened PagerModule
  import opened PagerRuns

  // ---- sampled LRU is true LRU -----------------------------------------------------------------------

  /** Nothing was accessed since the last look, and the pager stands for the plain machine. */
  ghost predicate Rested(m: Plain, pager: Pager)
    reads pager, pager.vmm, pager.vmm.pmm
  {
    Stands(m, pager) && Quiet(pager.State(), pager.vmm.View())
  }

  /** A load or a store of a user address that the plain machine permits. */
  predicate Served(m: Plain, call: Call) {
    (call.Load? || call.Store?) && call.virt < VMM_KERNEL_BASE && Permits(m, call.virt, call.Store?)
  }

  predicate AllServed(m: Plain, run: seq<Call>) {
    forall i :: 0 <= i < |run| ==> Served(m, run[i])
  }

  /** The pages accessed, in order. */
  function Log(m: Plain, run: seq<Call>): (log: seq<Key>)
    requires AllServed(m, run)
    ensures |log| == |run|
  {
    seq(|run|, i requires 0 <= i < |run| => (m.dir, AlignDown(run[i].virt)))
  }

  /** The plain machine after a run of accesses. */
  function After(m: Plain, run: seq<Call>): (after: Plain)
    requires PlainOk(m)
    ensures PlainOk(after)
  {
    Run(m, run, seq(|run|, _ => false)).0
  }

  /** What a run of accesses answers. */
  function Answers(m: Plain, run: seq<Call>): (out: seq<Outcome>)
    requires PlainOk(m)
    ensures |out| == |run|
  {
    Run(m, run, seq(|run|, _ => false)).1
  }

  /** One access and one sample. */
  method AccessAndSample(pager: Pager, call: Call, ghost m: Plain, ghost n: nat, ghost start: nat, ghost log: seq<Key>) returns (out: Outcome)
    requires Rested(m, pager) && Served(m, call) && Provided(pager, n + 1)
    requires pager.uses + PAGER_FRAME_LIMIT + 2 < WORD_LIMIT && LruOrder(pager.State(), start, log)
    modifies pager, pager.vmm`frames, pager.vmm`owner, pager.vmm.pmm`bitmap, pager.vmm.pmm`freePages
    ensures PlainOk(m) && Rested(Step(m, call, false).0, pager) && Provided(pager, n) && out == Step(m, call, false).1
    ensures SameRegistration(old(pager.pages), pager.pages) && pager.lru == old(pager.lru) && pager.uses <= old(pager.uses) + 2
    ensures LruOrder(pager.State(), start, log + [(m.dir, AlignDown(call.virt))])
  {
    hide FreeCount, Kept, OutsideKept, Agrees, SameKeys, Tidy, EntryAt, Sound, Vmm.Valid, TicksFit, Quiet, OnlyAccessed, TickedOnly, RightsFit,
         WasAccessed, Looks, OnlyPagesMapped, LruOrder, SampledAll, Undisturbed, Pager.Valid, Pager.Faithful, Stands, Used, Step,
         SameRegistration;
    StandsCount(m, pager);
    ghost var c, v, uses := pager.State(), pager.vmm.View(), pager.uses;
    ghost var k;
    if call.Load? {
      out, k := DoLoad(pager, call.virt, m, {}, n);
    } else {
      out, k := DoStore(pager, call.virt, call.b, m, {}, n);
    }
    ServedIsAnswered(m, call);
    ghost var after := Step(m, call, false).0;
    StandsCount(after, pager);
    UsedOnce(c, v, uses, pager.State(), pager.vmm.View(), pager.uses, (m.dir, AlignDown(call.virt)), k);
    ghost var d, u, now := pager.State(), pager.vmm.View(), pager.uses;
    DoSample(pager, after, {});
    StandsCount(after, pager);
    TicksAre(d, now, c, uses);
    SampledOne(c, v, uses, d, u, now, pager.State(), pager.vmm.View(), (m.dir, AlignDown(call.virt)), k, start, log);
    TicksAre(pager.State(), pager.uses, d, now);
  }

  /** Any run of permitted accesses, each followed by a sample, answers what the plain machine
      answers and leaves the use ticks in the order of the last accesses. */
  method SampledRun(pager: Pager, run: seq<Call>, ghost m: Plain, ghost n: nat) returns (out: seq<Outcome>)
    requires Rested(m, pager) && AllServed(m, run) && Provided(pager, |run| + n)
    requires pager.uses + 2 * |run| + PAGER_FRAME_LIMIT < WORD_LIMIT
    modifies pager, pager.vmm`frames, pager.vmm`owner, pager.vmm.pmm`bitmap, pager.vmm.pmm`freePages
    ensures PlainOk(m) && Rested(After(m, run), pager) && Provided(pager, n) && out == Answers(m, run)
    ensures SameRegistration(old(pager.pages), pager.pages) && pager.lru == old(pager.lru) && pager.uses <= old(pager.uses) + 2 * |run|
    ensures LruOrder(pager.State(), old(pager.tick), Log(m, run))
  {
    hide FreeCount, Kept, Agrees, SameKeys, Tidy, Sound, Vmm.Valid, TicksFit, Quiet, OnlyPagesMapped, LruOrder, Pager.Valid, Pager.Faithful,
         Stands, Provided, Step, Run, Permits, SameRegistration;
    StandsCount(m, pager);
    SameRegistrationItself(pager.pages);
    NoAccessYet(m, pager);
    NothingRun(m, run);
    ghost var start := pager.tick;
    out := [];
    for i := 0 to |run|
      invariant Rested(After(m, run[..i]), pager) && Provided(pager, |run| - i + n) && out == Answers(m, run[..i])
      invariant pager.uses <= old(pager.uses) + 2 * i && SameRegistration(old(pager.pages), pager.pages) && pager.lru == old(pager.lru)
      invariant LruOrder(pager.State(), start, Log(m, run[..i]))
    {
      OneMoreServed(m, run, i);
      ghost var before := pager.pages;
      var one := AccessAndSample(pager, run[i], After(m, run[..i]), |run| - i - 1 + n, start, Log(m, run[..i]));
      SameRegistrationTwice(old(pager.pages), before, pager.pages);
      out := out + [one];
    }
    assert run[..|run|] == run;
  }

  /** Of the resident pages that may be swapped out, LRU chooses the one whose last access is
      the oldest. */
  method ChooseOldest(pager: Pager, ghost m: Plain, ghost start: nat, ghost log: seq<Key>) returns (best: nat)
    requires Rested(m, pager) && LruOrder(pager.State(), start, log)
    modifies pager, pager.vmm`frames
    ensures Rested(m, pager) && pager.State() == old(pager.State()) && pager.lru == old(pager.lru) && pager.uses == old(pager.uses)
    ensures forall i :: 0 <= i < pager.resident && !pager.pages[pager.slots[i]].pinned ==> OldestOf(pager.State(), log, best, i)
  {
    hide FreeCount, Kept, Agrees, SameKeys, Tidy, Sound, Vmm.Valid, TicksFit, Quiet, OnlyPagesMapped, LruOrder, Sampled, LeastTick, Undisturbed,
         OldestOf, RightsFit, Looks;
    ghost var c, v := pager.State(), pager.vmm.View();
    best := pager.ChooseLruVictim();
    UndisturbedOutside(c, v, pager.State(), pager.vmm.View(), pager.flat);
    UndisturbedAgrees(c, v, pager.State(), pager.vmm.View(), pager.flat);
    UndisturbedRights(c, v, pager.State(), pager.vmm.View());
    StillOnlyPages(pager.flat, v, pager.vmm.View(), pager.flat);
    LeastAreOldest(c, v, start, log, best);
  }

  /** Sampled LRU is true LRU: so it chooses after any run of permitted accesses. */
  method LruVictimAfter(pager: Pager, run: seq<Call>, ghost m: Plain, ghost n: nat) returns (out: seq<Outcome>, best: nat)
    requires Rested(m, pager) && AllServed(m, run) && Provided(pager, |run| + n)
    requires pager.uses + 2 * |run| + PAGER_FRAME_LIMIT < WORD_LIMIT
    modifies pager, pager.vmm`frames, pager.vmm`owner, pager.vmm.pmm`bitmap, pager.vmm.pmm`freePages
    ensures PlainOk(m) && Rested(After(m, run), pager) && Provided(pager, n) && out == Answers(m, run)
    ensures LruOrder(pager.State(), old(pager.tick), Log(m, run)) && pager.lru == old(pager.lru)
    ensures forall i :: 0 <= i < pager.resident && !pager.pages[pager.slots[i]].pinned ==> OldestOf(pager.State(), Log(m, run), best, i)
  {
    hide FreeCount, Kept, Agrees, SameKeys, Tidy, Sound, Vmm.Valid, TicksFit, Quiet, OnlyPagesMapped, LruOrder, OldestOf, RightsFit, Looks,
         Run, Permits, Pager.Valid, Pager.Faithful;
    ghost var start := pager.tick;
    out := SampledRun(pager, run, m, n);
    best := ChooseOldest(pager, After(m, run), start, Log(m, run));
  }

  /** With every frame resident, and not all pinned, that page is the one the next page-in
      swaps out. It fails exactly without frames, for which one free page is enough. */
  method PageInAfter(pager: Pager, k: nat, ghost m: Plain, ghost start: nat, ghost log: seq<Key>) returns (ok: bool, ghost slot: nat)
    requires Rested(m, pager) && LruOrder(pager.State(), start, log) && pager.lru
    requires k < PAGER_MAX_PAGES && pager.pages[k].used && !pager.pages[k].present && MustEvict(pager.State())
    modifies pager, pager.vmm`frames, pager.vmm`owner, pager.vmm.pmm`bitmap, pager.vmm.pmm`freePages
    ensures pager.Valid() && IsDir(old(pager.vmm.View()), old(pager.pages)[k].dir)
    ensures ok <==> CanPageIn(old(pager.State()), old(pager.vmm.View()), old(pager.vmm.pmm.freePages), k)
    ensures old(pager.vmm.pmm.freePages) > 0 ==> ok
    ensures ok ==> Rested(m, pager) && pager.pages[k].present && slot < PAGER_FRAME_LIMIT && pager.slots == old(pager.slots)[slot := k]
    ensures forall i :: 0 <= i < PAGER_FRAME_LIMIT && !old(pager.pages)[old(pager.slots)[i]].pinned ==> OldestOf(old(pager.State()), log, slot, i)
  {
    hide FreeCount, Kept, Agrees, SameKeys, Tidy, Sound, Vmm.Valid, TicksFit, Quiet, OnlyPagesMapped, LruOrder, LeastTick, OldestOf,
         OutsideKept, RightsFit, TickedOnly, RoomHarmless, EntryAt, SameRegistration, Looks;
    StandsCount(m, pager);
    ghost var c, v := pager.State(), pager.vmm.View();
    ok, slot := pager.PageIn(k);
    LeastAreOldest(c, v, start, log, slot);
    if ok {
      StillOnlyPages(pager.flat, v, pager.vmm.View(), pager.flat);
      SameLooks(m, c.pages, pager.pages, pager.flat, m.dir);
    }
  }

  /** The page in slot `best` may be swapped out, and was last accessed no later than the one
      in slot `i`. */
  ghost predicate OldestOf(c: Cache, log: seq<Key>, best: nat, i: nat) {
    && Shaped(c) && best < PAGER_FRAME_LIMIT && i < PAGER_FRAME_LIMIT && !c.pages[c.slots[best]].pinned
    && LastAccess(log, KeyOf(c.pages[c.slots[best]])) <= LastAccess(log, KeyOf(c.pages[c.slots[i]]))
  }

  lemma {:induction false} LeastAreOldest(c: Cache, v: Vm, start: nat, log: seq<Key>, best: nat)
    requires Kept(c, v) && Tidy(c) && LruOrder(c, start, log)
    requires (exists i :: 0 <= i < c.resident && !c.pages[c.slots[i]].pinned) ==> LeastTick(c, c.pages, c.resident, best)
    ensures forall i :: 0 <= i < c.resident && !c.pages[c.slots[i]].pinned ==> OldestOf(c, log, best, i)
  {
    forall i | 0 <= i < c.resident && !c.pages[c.slots[i]].pinned ensures OldestOf(c, log, best, i) {
      assert PageOk(c.pages[c.slots[i]], v, c.slots[i]) && PageOk(c.pages[c.slots[best]], v, c.slots[best]);
      LeastIsOldest(c, start, log, c.resident, best, i);
    }
  }

  lemma {:induction false} StandsCount(m: Plain, pager: Pager)
    requires Stands(m, pager)
    ensures PlainOk(m) && m.dir == pager.vmm.current && AreDirs({}, pager.vmm.View()) && TicksFit(pager.pages, pager.tick, pager.uses)
    ensures Kept(pager.State(), pager.vmm.View()) && KeysDiffer(pager.pages)
  {
  }

  lemma {:induction false} ServedIsAnswered(m: Plain, call: Call)
    requires PlainOk(m) && Served(m, call)
    ensures Step(m, call, false).1 != Refused && Step(m, call, false).0.dir == m.dir
    ensures RightsOf(Step(m, call, false).0.pages) == RightsOf(m.pages)
  {
    if call.Store? {
      StoreRights(m, call.virt, call.b, false);
    }
  }

  lemma {:induction false} SameRegistrationItself(p: seq<PagerPage>)
    ensures SameRegistration(p, p)
  {
  }

  lemma {:induction false} SameRegistrationTwice(p: seq<PagerPage>, q: seq<PagerPage>, r: seq<PagerPage>)
    requires SameRegistration(p, q) && SameRegistration(q, r)
    ensures SameRegistration(p, r)
  {
  }

  lemma {:induction false} NothingRun(m: Plain, run: seq<Call>)
    requires PlainOk(m) && AllServed(m, run)
    ensures After(m, run[..0]) == m && Answers(m, run[..0]) == [] && Log(m, run[..0]) == []
  {
  }

  /** Accesses do not change what is permitted. */
  lemma {:induction false} OneMoreServed(m: Plain, run: seq<Call>, i: nat)
    requires PlainOk(m) && AllServed(m, run) && i < |run|
    ensures var now := After(m, run[..i]);
            && now.dir == m.dir && RightsOf(now.pages) == RightsOf(m.pages) && Served(now, run[i])
            && After(m, run[..i + 1]) == Step(now, run[i], false).0
            && Answers(m, run[..i + 1]) == Answers(m, run[..i]) + [Step(now, run[i], false).1]
            && Log(m, run[..i + 1]) == Log(m, run[..i]) + [(now.dir, AlignDown(run[i].virt))]
  {
    hide RightsOf, Step;
    var now := After(m, run[..i]);
    assert run[..i + 1][..i] == run[..i] && seq(i + 1, _ => false)[..i] == seq(i, _ => false);
    if i > 0 {
      OneMoreServed(m, run, i - 1);
      var before := After(m, run[..i - 1]);
      ServedIsAnswered(before, run[i - 1]);
      assert now == Step(before, run[i - 1], false).0;
    } else {
      NothingRun(m, run);
    }
    SameRightsOf(m, now);
    assert Served(m, run[i]);
  }

  lemma {:induction false} NoAccessYet(m: Plain, pager: Pager)
    requires Rested(m, pager) && pager.uses < WORD_LIMIT
    ensures LruOrder(pager.State(), pager.tick, [])
  {
  }

  lemma {:induction false} TicksAre(d: Cache, later: nat, c: Cache, uses: nat)
    requires TicksFit(d.pages, d.tick, later) && TicksFit(c.pages, c.tick, uses) && uses < WORD_LIMIT && later < WORD_LIMIT
    ensures d.tick == later && c.tick == uses
  {
  }

  lemma {:induction false} UsedOnce(c: Cache, v: Vm, uses: nat, d: Cache, u: Vm, now: nat, key: Key, k: nat)
    requires Quiet(c, v) && Used(c, v, uses, d, u, now, key, k)
    ensures now <= uses + 1
  {
  }

  lemma {:induction false} SampledOne(c: Cache, v: Vm, uses: nat, d: Cache, u: Vm, now: nat, e: Cache, w: Vm, key: Key, k: nat,
                                      start: nat, log: seq<Key>)
    requires Quiet(c, v) && Used(c, v, uses, d, u, now, key, k) && LruOrder(c, start, log) && KeysDiffer(c.pages)
    requires SameRegistration(c.pages, d.pages) && c.tick == uses && d.tick == now && uses + PAGER_FRAME_LIMIT + 2 < WORD_LIMIT
    requires Undisturbed(d, u, e, w) && SampledAll(d, u, e.pages, w, e.tick, d.resident)
    ensures e.tick == d.tick + 1 && LruOrder(e, start, log + [key]) && SameRegistration(c.pages, e.pages)
  {
    UnusedNever(d, u);
    assert HasSlot(d, k);
    OnlyOneSampled(d, u, e.pages, w, e.tick, k);
    AccessKeepsOrder(c, d, e, start, log, k);
  }

  // ---- a failed page-in can lose a page ------------------------------------------------------------

  /** What a failed page-in leaves behind does harm: from any booted memory, real calls lead to
      a page whose bytes are lost. Address spaces take all free pages, a page is registered,
      and it faults without a frame once for each resident slot and once more. The last
      fault swaps out a stale slot and writes page 0 over the page. */
  method LostPage(vmm: Vmm, pageZero: seq<Byte>, data: seq<Byte>) returns (pager: Pager, dir: nat)
    requires vmm.Valid() && vmm.pmm.freePages > 0 && (forall f: nat :: f in vmm.owner ==> !vmm.owner[f].PagerFrame?)
    requires |pageZero| == PAGE_SIZE && |data| <= PAGE_SIZE && Padded(data) != pageZero
    modifies vmm`frames, vmm`owner, vmm.pmm`bitmap, vmm.pmm`freePages
    ensures fresh(pager) && pager.vmm == vmm && pager.Valid()
    ensures pager.flat == map[(dir, CODE) := Padded(data)] && !Agrees(pager.State(), vmm.View(), pager.flat)
  {
    hide FreeCount, Kept, Agrees, SameKeys, Tidy, Sound, Vmm.Valid, TicksFit, Quiet, OutsideKept, RightsFit, TickedOnly, EntryAt, Lookup,
         OnlyKeyChanged, Flagged, CanPageIn, EvictedBytes;
    dir := TakeAllPages(vmm);
    pager := new Pager(vmm, pageZero);
    ghost var b := pager.State();
    var ok := pager.RegisterPageData(dir, CODE, true, true, data);
    FirstIsZero(b, pager.State(), dir, Padded(data));
    for i := 0 to PAGER_FRAME_LIMIT
      invariant pager.Valid() && pager.resident == i && vmm.pmm.freePages == 0
      invariant pager.flat == map[(dir, CODE) := Padded(data)] && Agrees(pager.State(), vmm.View(), pager.flat)
      invariant Starved(pager.State(), Padded(data))
    {
      ghost var c := pager.State();
      var failed, slot := pager.PageIn(0);
      StaysStarved(c, pager.State(), vmm.View(), Padded(data));
    }
    StarvedHarms(pager.State(), pageZero, Padded(data));
    var last, slot := pager.PageIn(0);
  }

  const CODE: U32 := 0x0080_0000

  /** New address spaces until no page is left; the first of them. */
  method TakeAllPages(vmm: Vmm) returns (dir: nat)
    requires vmm.Valid() && vmm.pmm.freePages > 0 && (forall f: nat :: f in vmm.owner ==> !vmm.owner[f].PagerFrame?)
    modifies vmm`frames, vmm`owner, vmm.pmm`bitmap, vmm.pmm`freePages
    ensures vmm.Valid() && vmm.pmm.freePages == 0 && (forall f: nat :: f in vmm.owner ==> !vmm.owner[f].PagerFrame?)
    ensures IsDir(vmm.View(), dir) && dir != 0 && EntryAt(vmm.View(), (dir, CODE)) == Empty
  {
    hide FreeCount, FrameOk, EntryOk, Lookup, Conserved, Pmm.Valid;
    dir := vmm.CreateAddressSpace();
    while vmm.pmm.freePages > 0
      invariant vmm.Valid() && (forall f: nat :: f in vmm.owner ==> !vmm.owner[f].PagerFrame?)
      invariant IsDir(vmm.View(), dir) && dir != 0 && Lookup(vmm.View(), dir, CODE) == Empty
    {
      ghost var v := vmm.View();
      var more := vmm.CreateAddressSpace();
      assert IsDir(vmm.View(), dir) && Lookup(vmm.View(), dir, CODE) == Lookup(v, dir, CODE);
    }
    NotRegisteredYet(vmm.View(), dir);
  }

  lemma {:induction false} NotRegisteredYet(v: Vm, dir: nat)
    requires Sound(v) && IsDir(v, dir) && Lookup(v, dir, CODE) == Empty
    ensures EntryAt(v, (dir, CODE)) == Empty && Aligned(CODE)
  {
  }

  /** Page 0 is out of memory with `bytes` in its swap slot, and all slots name page 0. */
  ghost predicate Starved(c: Cache, bytes: seq<Byte>) {
    && Shaped(c) && c.pages[0].used && !c.pages[0].present && c.swap[0] == bytes
    && forall i :: 0 <= i < PAGER_FRAME_LIMIT ==> c.slots[i] == 0
  }

  lemma {:induction false} FirstIsZero(b: Cache, c: Cache, dir: nat, bytes: seq<Byte>)
    requires Shaped(b) && |bytes| == PAGE_SIZE
    requires (forall k :: 0 <= k < PAGER_MAX_PAGES ==> !b.pages[k].used) && forall i :: 0 <= i < PAGER_FRAME_LIMIT ==> b.slots[i] == 0
    requires exists k :: FirstFree(b.pages, k) && c == Entered(b, k, dir, CODE, true, true, bytes)
    ensures Starved(c, bytes)
  {
  }

  lemma {:induction false} StaysStarved(c: Cache, d: Cache, w: Vm, bytes: seq<Byte>)
    requires Starved(c, bytes) && Kept(d, w) && SameRegistration(c.pages, d.pages)
    requires d.slots == c.slots && d.swap == c.swap && EntryAt(w, KeyOf(d.pages[0])) == Empty
    ensures Starved(d, bytes)
  {
    assert PageOk(d.pages[0], w, 0);
  }

  lemma {:induction false} StarvedHarms(c: Cache, pageZero: seq<Byte>, bytes: seq<Byte>)
    requires Starved(c, bytes) && c.resident == PAGER_FRAME_LIMIT && bytes != pageZero
    ensures forall slot :: 0 <= slot < PAGER_FRAME_LIMIT ==> !RoomHarmless(c, slot, pageZero)
  {
  }
}
