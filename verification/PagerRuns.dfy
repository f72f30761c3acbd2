/** Whole runs of the pager: it cannot be told apart from the plain machine. */
module PagerRuns {
  import opened Machine
  import opened Bitmap
  import opened PmmSpec
  import opened PmmModule
  import opened VmmSpec
  import opened VmmModule
  import opened PagerSpec
  import opened PagerVictim
  import opened PagerSteps
  import opened PagerPlain
  import opened PagerModule

  // ---- any script of calls -----------------------------------------------------------------------

  /** The pager holds what the plain machine holds, and the current directory is its. */
  ghost predicate Stands(m: Plain, pager: Pager)
    reads pager, pager.vmm, pager.vmm.pmm
  {
    && pager.Valid() && pager.Faithful() && PlainOk(m)
    && RightsFit(pager.pages, pager.vmm.View()) && OnlyPagesMapped(pager.flat, pager.vmm.View())
    && Looks(m, pager.pages, pager.flat, pager.vmm.current)
  }

  ghost predicate AreDirs(dirs: set<nat>, v: Vm) {
    forall d :: d in dirs ==> IsDir(v, d)
  }

  /** Frames for `n` more page-ins: all resident slots can be filled and each page-in can
      find a page for a missing page table. */
  ghost predicate Provided(pager: Pager, n: nat)
    reads pager, pager.vmm, pager.vmm.pmm
  {
    pager.vmm.pmm.freePages + pager.resident >= PAGER_FRAME_LIMIT + n
  }

  /** What a served access does to the use ticks: page `k`, which it touched, is the only one
      to be marked, and the only one that may have been ticked. */
  ghost predicate Used(c: Cache, v: Vm, uses: nat, d: Cache, w: Vm, now: nat, key: Key, k: nat) {
    Quiet(c, v) ==> && IsNowPresent(d.pages, key, k) && OnlyAccessed(d, w, k)
                    && TickedOnly(c.pages, c.tick, d.pages, d.tick, k) && now <= uses + 1
  }

  method DoLoad(pager: Pager, virt: U32, ghost m: Plain, ghost dirs: set<nat>, ghost n: nat) returns (out: Outcome, ghost k: nat)
    requires Stands(m, pager) && AreDirs(dirs, pager.vmm.View()) && virt < VMM_KERNEL_BASE && Provided(pager, n + 1)
    modifies pager, pager.vmm`frames, pager.vmm`owner, pager.vmm.pmm`bitmap, pager.vmm.pmm`freePages
    ensures Stands(Step(m, Load(virt), false).0, pager) && AreDirs(dirs, pager.vmm.View()) && Provided(pager, n)
    ensures out == Step(m, Load(virt), false).1
    ensures SameRegistration(old(pager.pages), pager.pages) && pager.lru == old(pager.lru) && old(pager.uses) <= pager.uses
    ensures out != Refused ==> Used(old(pager.State()), old(pager.vmm.View()), old(pager.uses), pager.State(), pager.vmm.View(), pager.uses,
                                    (m.dir, AlignDown(virt)), k)
  {
    hide FreeCount, Kept, OutsideKept, Agrees, SameKeys, Tidy, EntryAt, AccessWorks, Sound, Vmm.Valid, TicksFit, Quiet, TickedOnly,
         OnlyAccessed, RoomHarmless, RightsFit, WasAccessed, BringsIn, FramesSuffice, SameRegistration, Looks, OnlyPagesMapped, FaultWorks;
    ghost var c, v := pager.State(), pager.vmm.View();
    Situated(pager, m);
    ReachableHere(pager.flat, v, m.dir, virt);
    AccessIsPlain(c, v, pager.vmm.pmm.freePages, pager.flat, m, virt, false);
    var ok, b;
    ghost var slot;
    ok, b, k, slot := pager.UserLoad(virt);
    StillOnlyPages(pager.flat, v, pager.vmm.View(), pager.flat);
    SameLooks(m, c.pages, pager.pages, pager.flat, m.dir);
    SameDirs(dirs, v, pager.vmm.View(), pager.flat);
    LooksAt(m, pager.pages, pager.flat, m.dir, virt);
    return if ok then Loaded(b) else Refused, k;
  }

  method DoStore(pager: Pager, virt: U32, b: Byte, ghost m: Plain, ghost dirs: set<nat>, ghost n: nat)
    returns (out: Outcome, ghost k: nat)
    requires Stands(m, pager) && AreDirs(dirs, pager.vmm.View()) && virt < VMM_KERNEL_BASE && Provided(pager, n + 1)
    modifies pager, pager.vmm`frames, pager.vmm`owner, pager.vmm.pmm`bitmap, pager.vmm.pmm`freePages
    ensures Stands(Step(m, Store(virt, b), false).0, pager) && AreDirs(dirs, pager.vmm.View()) && Provided(pager, n)
    ensures out == Step(m, Store(virt, b), false).1
    ensures SameRegistration(old(pager.pages), pager.pages) && pager.lru == old(pager.lru) && old(pager.uses) <= pager.uses
    ensures out != Refused ==> Used(old(pager.State()), old(pager.vmm.View()), old(pager.uses), pager.State(), pager.vmm.View(), pager.uses,
                                    (m.dir, AlignDown(virt)), k)
  {
    hide FreeCount, Kept, OutsideKept, Agrees, SameKeys, Tidy, EntryAt, AccessWorks, Sound, Vmm.Valid, TicksFit, Quiet, TickedOnly,
         OnlyAccessed, RoomHarmless, RightsFit, WasAccessed, BringsIn, FramesSuffice, SameRegistration, Looks, OnlyPagesMapped, FaultWorks;
    ghost var c, v, flat := pager.State(), pager.vmm.View(), pager.flat;
    Situated(pager, m);
    ReachableHere(flat, v, m.dir, virt);
    AccessIsPlain(c, v, pager.vmm.pmm.freePages, flat, m, virt, true);
    var ok;
    ghost var slot;
    ok, k, slot := pager.UserStore(virt, b);
    StillOnlyPages(flat, v, pager.vmm.View(), flat);
    SameMapped(flat, pager.flat, pager.vmm.View());
    SameLooks(m, c.pages, pager.pages, flat, m.dir);
    SameDirs(dirs, v, pager.vmm.View(), flat);
    LooksAt(m, pager.pages, flat, m.dir, virt);
    if ok {
      StoredLooks(m, pager.pages, flat, pager.flat, virt, b);
    }
    return if ok then Done else Refused, k;
  }

  method DoFault(pager: Pager, virt: U32, protection: bool, ghost m: Plain, ghost dirs: set<nat>, ghost n: nat) returns (out: Outcome)
    requires Stands(m, pager) && AreDirs(dirs, pager.vmm.View()) && Provided(pager, n + 1)
    modifies pager, pager.vmm`frames, pager.vmm`owner, pager.vmm.pmm`bitmap, pager.vmm.pmm`freePages
    ensures Stands(Step(m, Fault(virt, protection), false).0, pager) && AreDirs(dirs, pager.vmm.View()) && Provided(pager, n)
    ensures out == Step(m, Fault(virt, protection), false).1
  {
    hide FreeCount, Kept, OutsideKept, Agrees, SameKeys, Tidy, EntryAt, Sound, Vmm.Valid, TicksFit, Quiet, TickedOnly, KeyTicked,
         RoomHarmless, RightsFit, WasAccessed, BringsIn, SameRegistration, Looks, OnlyPagesMapped, FaultWorks, Repaired;
    ghost var c, v := pager.State(), pager.vmm.View();
    Situated(pager, m);
    AccessIsPlain(c, v, pager.vmm.pmm.freePages, pager.flat, m, virt, false);
    var ok;
    ghost var slot;
    ok, slot := pager.HandlePageFault(virt, protection);
    StillOnlyPages(pager.flat, v, pager.vmm.View(), pager.flat);
    SameLooks(m, c.pages, pager.pages, pager.flat, m.dir);
    SameDirs(dirs, v, pager.vmm.View(), pager.flat);
    LooksAt(m, pager.pages, pager.flat, m.dir, virt);
    return if ok then Done else Refused;
  }

  method DoRegister(pager: Pager, dir: nat, virt: U32, writable: bool, user: bool, data: seq<Byte>, ghost m: Plain, ghost dirs: set<nat>)
    returns (out: Outcome, ghost kept: bool)
    requires Stands(m, pager) && AreDirs(dirs, pager.vmm.View()) && Allowed(m, dirs, Register(dir, virt, writable, user, data))
    modifies pager
    ensures Stands(Step(m, Register(dir, virt, writable, user, data), kept).0, pager) && pager.resident == old(pager.resident)
    ensures out == Step(m, Register(dir, virt, writable, user, data), kept).1
    ensures kept <==> PresentKey(old(pager.pages), (dir, virt))
  {
    hide FreeCount, Kept, Agrees, SameKeys, Tidy, EntryAt, Sound, Vmm.Valid, TicksFit, RightsFit, Looks, OnlyPagesMapped,
         OnlyKeyChanged, Flagged, PresentKey, FirstFree;
    ghost var c, v, flat := pager.State(), pager.vmm.View(), pager.flat;
    Situated(pager, m);
    LookupsCount(m, flat);
    NewKeyIsUnmapped(c, v, flat, dir, virt);
    RightsAgain(m, c.pages, flat, (dir, virt), writable, user);
    kept := PresentKey(pager.pages, (dir, virt));
    var ok := pager.RegisterPageData(dir, virt, writable, user, data);
    if ok {
      RegisteredLooks(m, c.pages, pager.pages, flat, m.dir, (dir, virt), Padded(data), writable, user, kept);
      MoreMapped(flat, pager.flat, v);
    } else {
      assert pager.State() == c;
    }
    out := if ok then Done else Refused;
  }

  method DoUnregister(pager: Pager, dir: nat, virt: U32, ghost m: Plain, ghost dirs: set<nat>, ghost n: nat)
    requires Stands(m, pager) && AreDirs(dirs, pager.vmm.View()) && Provided(pager, n)
    modifies pager, pager.vmm`frames, pager.vmm`owner, pager.vmm.pmm`bitmap, pager.vmm.pmm`freePages
    ensures Stands(Step(m, Unregister(dir, virt), false).0, pager) && AreDirs(dirs, pager.vmm.View()) && Provided(pager, n)
  {
    hide FreeCount, Kept, OutsideKept, Agrees, SameKeys, Tidy, EntryAt, Sound, Vmm.Valid, TicksFit, RightsFit, Looks, OnlyPagesMapped,
         OnlyKeyChanged, Flagged, Released, FramesOfKey;
    ghost var c, v, flat := pager.State(), pager.vmm.View(), pager.flat;
    Situated(pager, m);
    pager.UnregisterPage(dir, virt);
    ForgottenLooks(m, c.pages, pager.pages, flat, m.dir, (dir, AlignDown(virt)));
    StillOnlyPages(flat, v, pager.vmm.View(), pager.flat);
    SameDirs(dirs, v, pager.vmm.View(), flat);
  }

  method DoPin(pager: Pager, dir: nat, virt: U32, pinned: bool, ghost m: Plain) returns (out: Outcome)
    requires Stands(m, pager)
    modifies pager
    ensures Stands(m, pager) && pager.resident == old(pager.resident) && out == Step(m, Pin(dir, virt, pinned), false).1
  {
    hide FreeCount, Kept, Agrees, SameKeys, Tidy, Sound, Vmm.Valid, TicksFit, RightsFit, Looks, OnlyPagesMapped, OnlyKeyChanged, SamePlaces;
    ghost var c := pager.State();
    Situated(pager, m);
    var ok := pager.PinPage(dir, virt, pinned);
    SameLooks(m, c.pages, pager.pages, pager.flat, m.dir);
    return if ok then Done else Refused;
  }

  method DoSample(pager: Pager, ghost m: Plain, ghost dirs: set<nat>)
    requires Stands(m, pager) && AreDirs(dirs, pager.vmm.View())
    modifies pager, pager.vmm`frames
    ensures Stands(m, pager) && AreDirs(dirs, pager.vmm.View()) && pager.resident == old(pager.resident) && pager.lru == old(pager.lru)
    ensures Undisturbed(old(pager.State()), old(pager.vmm.View()), pager.State(), pager.vmm.View())
    ensures SampledAll(old(pager.State()), old(pager.vmm.View()), pager.pages, pager.vmm.View(), pager.tick, pager.resident)
    ensures Quiet(pager.State(), pager.vmm.View()) && old(pager.uses) <= pager.uses <= old(pager.uses) + PAGER_FRAME_LIMIT
  {
    hide FreeCount, Kept, OutsideKept, Agrees, SameKeys, Tidy, Sound, Vmm.Valid, TicksFit, RightsFit, Looks, OnlyPagesMapped, SampledAll,
         Quiet, SamePlaces, AccessedOnly;
    ghost var c, v := pager.State(), pager.vmm.View();
    Situated(pager, m);
    pager.SampleUsage();
    UndisturbedOutside(c, v, pager.State(), pager.vmm.View(), pager.flat);
    StillOnlyPages(pager.flat, v, pager.vmm.View(), pager.flat);
    SameLooks(m, c.pages, pager.pages, pager.flat, m.dir);
    SameDirs(dirs, v, pager.vmm.View(), pager.flat);
  }

  /** One call of a script; `kept` says that it registered a page that was in memory. */
  method Do(pager: Pager, call: Call, ghost m: Plain, ghost dirs: set<nat>, ghost n: nat) returns (out: Outcome, ghost kept: bool)
    requires Stands(m, pager) && AreDirs(dirs, pager.vmm.View()) && Allowed(m, dirs, call)
    requires Provided(pager, if MayBringIn(call) then n + 1 else n)
    modifies pager, pager.vmm`frames, pager.vmm`owner, pager.vmm`current, pager.vmm.pmm`bitmap, pager.vmm.pmm`freePages
    ensures Stands(Step(m, call, kept).0, pager) && AreDirs(dirs, pager.vmm.View()) && Provided(pager, n)
    ensures out == Step(m, call, kept).1
    ensures kept <==> call.Register? && PresentKey(old(pager.pages), (call.dir, call.virt))
  {
    hide FreeCount, Kept, Agrees, SameKeys, Tidy, Sound, Vmm.Valid, TicksFit, RightsFit, Looks, OnlyPagesMapped, Pager.Valid, Pager.Faithful;
    out, kept := Done, false;
    ghost var k;
    match call {
      case Register(dir, virt, writable, user, data) => out, kept := DoRegister(pager, dir, virt, writable, user, data, m, dirs);
      case Pin(dir, virt, pinned) => out := DoPin(pager, dir, virt, pinned, m);
      case Unregister(dir, virt) => DoUnregister(pager, dir, virt, m, dirs, n);
      case Load(virt) => out, k := DoLoad(pager, virt, m, dirs, n);
      case Store(virt, b) => out, k := DoStore(pager, virt, b, m, dirs, n);
      case Fault(virt, protection) => out := DoFault(pager, virt, protection, m, dirs, n);
      case Sample => DoSample(pager, m, dirs);
      case SetAlgorithm(lru) => DoSetAlgorithm(pager, lru, m);
      case Switch(dir) => out := DoSwitch(pager, dir, m);
    }
  }

  method DoSetAlgorithm(pager: Pager, lru: bool, ghost m: Plain)
    requires Stands(m, pager)
    modifies pager
    ensures Stands(m, pager) && pager.resident == old(pager.resident)
  {
    hide FreeCount, Kept, Agrees, SameKeys, Tidy, Sound, Vmm.Valid, TicksFit, RightsFit, Looks, OnlyPagesMapped;
    pager.SetAlgorithm(lru);
  }

  method DoSwitch(pager: Pager, dir: nat, ghost m: Plain) returns (out: Outcome)
    requires Stands(m, pager) && (dir == 0 || IsDir(pager.vmm.View(), dir))
    modifies pager.vmm`current
    ensures Stands(Step(m, Switch(dir), false).0, pager) && out == Step(m, Switch(dir), false).1 && pager.vmm.View() == old(pager.vmm.View())
  {
    hide FreeCount, Kept, Agrees, SameKeys, Tidy, Sound, TicksFit, RightsFit, OnlyPagesMapped, Conserved, Pmm.Valid;
    var ok := pager.vmm.SwitchPageDirectory(dir);
    return if ok then Done else Refused;
  }

  /** Any script of calls answers what the plain machine answers, load by load, and ends with
      the pager standing for the plain machine's end; whatever was evicted on the way, under
      whichever algorithm, and however many accesses were refused. Premises: the calls name
      existing directories and user addresses, a page is registered again only with its
      rights, and there are frames for the resident slots and one page more for each access. */
  method RunScript(pager: Pager, script: seq<Call>, ghost m: Plain, ghost dirs: set<nat>) returns (out: seq<Outcome>, ghost kept: seq<bool>)
    requires PlainOk(m) && Stands(m, pager) && AreDirs(dirs, pager.vmm.View()) && AllAllowed(m, dirs, script)
    requires Provided(pager, CountBringIns(script))
    modifies pager, pager.vmm`frames, pager.vmm`owner, pager.vmm`current, pager.vmm.pmm`bitmap, pager.vmm.pmm`freePages
    ensures |kept| == |script| && out == Run(m, script, kept).1
    ensures pager.Valid() && pager.Faithful() && Stands(Run(m, script, kept).0, pager)
    ensures forall i :: 0 <= i < |script| && kept[i] ==> Again(m, script, kept, i)
  {
    hide FreeCount, Kept, Agrees, SameKeys, Tidy, Sound, Vmm.Valid, TicksFit, RightsFit, Looks, OnlyPagesMapped, Pager.Valid, Pager.Faithful,
         Stands, AreDirs, Provided, Step, Allowed, Again, PresentKey;
    out, kept := [], [];
    for i := 0 to |script|
      invariant |kept| == i
      invariant Stands(Run(m, script[..i], kept).0, pager) && AreDirs(dirs, pager.vmm.View()) && out == Run(m, script[..i], kept).1
      invariant CountBringIns(script[..i]) <= CountBringIns(script)
      invariant Provided(pager, CountBringIns(script) - CountBringIns(script[..i]))
      invariant forall j :: 0 <= j < i && kept[j] ==> Again(m, script, kept, j)
    {
      NextCall(m, dirs, script, kept, i);
      var one;
      ghost var was;
      OnlyAgain(pager, script[i], Run(m, script[..i], kept).0);
      one, was := Do(pager, script[i], Run(m, script[..i], kept).0, dirs, CountBringIns(script) - CountBringIns(script[..i + 1]));
      MoreKept(m, script, kept, was, i);
      out := out + [one];
      kept := kept + [was];
    }
    assert script[..|script|] == script;
    StandsIs(Run(m, script, kept).0, pager);
  }

  /** Call `i` registers a page that is registered already. */
  predicate Again(m: Plain, script: seq<Call>, kept: seq<bool>, i: nat)
    requires PlainOk(m) && i < |script| && i < |kept|
  {
    IsAgain(Run(m, script[..i], kept[..i]).0, script[i])
  }

  predicate IsAgain(m: Plain, call: Call) {
    call.Register? && (call.dir, call.virt) in m.pages
  }

  lemma {:induction false} OnlyAgain(pager: Pager, call: Call, m: Plain)
    requires Stands(m, pager)
    ensures call.Register? && PresentKey(pager.pages, (call.dir, call.virt)) ==> IsAgain(m, call)
  {
  }

  lemma {:induction false} MoreKept(m: Plain, script: seq<Call>, kept: seq<bool>, was: bool, i: nat)
    requires PlainOk(m) && |kept| == i < |script| && (was ==> IsAgain(Run(m, script[..i], kept).0, script[i]))
    requires forall j :: 0 <= j < i && kept[j] ==> Again(m, script, kept, j)
    ensures forall j :: 0 <= j < i + 1 && (kept + [was])[j] ==> Again(m, script, kept + [was], j)
    ensures Run(m, script[..i + 1], kept + [was]) == (Step(Run(m, script[..i], kept).0, script[i], was).0,
                                                      Run(m, script[..i], kept).1 + [Step(Run(m, script[..i], kept).0, script[i], was).1])
  {
    var more := kept + [was];
    forall j | 0 <= j <= i ensures more[..j] == kept[..j] {
    }
    assert kept[..i] == kept && script[..i + 1][..i] == script[..i];
    forall j | 0 <= j < i + 1 && more[j] ensures Again(m, script, more, j) {
      assert j < i ==> Again(m, script, kept, j);
    }
  }

  lemma {:induction false} StandsIs(m: Plain, pager: Pager)
    requires Stands(m, pager)
    ensures pager.Valid() && pager.Faithful()
  {
  }

  lemma {:induction false} NextCall(m: Plain, dirs: set<nat>, script: seq<Call>, kept: seq<bool>, i: nat)
    requires PlainOk(m) && AllAllowed(m, dirs, script) && |kept| == i < |script|
    ensures Allowed(Run(m, script[..i], kept).0, dirs, script[i])
    ensures CountBringIns(script[..i + 1]) == CountBringIns(script[..i]) + if MayBringIn(script[i]) then 1 else 0
    ensures CountBringIns(script[..i + 1]) <= CountBringIns(script)
  {
    assert script[..i + 1][..i] == script[..i];
    PrefixAllowed(m, dirs, script, i + 1);
    PrefixCounts(script, i + 1);
    var none := seq(i, _ => false);
    KeptIsNoRight(m, script[..i], kept, none, dirs);
    StepRights(Run(m, script[..i], kept).0, Run(m, script[..i], none).0, script[i], false, dirs);
  }

  lemma {:induction false} PrefixAllowed(m: Plain, dirs: set<nat>, script: seq<Call>, i: nat)
    requires PlainOk(m) && AllAllowed(m, dirs, script) && i <= |script|
    ensures AllAllowed(m, dirs, script[..i])
    decreases |script|
  {
    if i < |script| {
      PrefixAllowed(m, dirs, script[..|script| - 1], i);
      assert script[..|script| - 1][..i] == script[..i];
    } else {
      assert script[..i] == script;
    }
  }

  lemma {:induction false} PrefixCounts(script: seq<Call>, i: nat)
    requires i <= |script|
    ensures CountBringIns(script[..i]) <= CountBringIns(script)
    decreases |script|
  {
    if i < |script| {
      PrefixCounts(script[..|script| - 1], i);
      assert script[..|script| - 1][..i] == script[..i];
    } else {
      assert script[..i] == script;
    }
  }

  /** A new pager over memory without user mappings stands for the empty plain machine. */
  lemma {:induction false} NewPagerStands(pager: Pager)
    requires pager.Valid() && pager.Faithful() && pager.flat == map[] && OnlyPagesMapped(map[], pager.vmm.View())
    requires forall k :: 0 <= k < |pager.pages| ==> pager.pages[k] == UNUSED
    ensures Stands(Plain(pager.vmm.current, map[]), pager)
  {
  }

  // ---- facts the steps need ----------------------------------------------------------------------

  lemma {:induction false} Situated(pager: Pager, m: Plain)
    requires Stands(m, pager)
    ensures Kept(pager.State(), pager.vmm.View()) && SameKeys(pager.pages, pager.flat) && m.dir == pager.vmm.current
    ensures IsDir(pager.vmm.View(), m.dir) && m.pages.Keys == pager.flat.Keys
  {
  }

  lemma {:induction false} SameDirs(dirs: set<nat>, v: Vm, w: Vm, flat: Flat)
    requires AreDirs(dirs, v) && OutsideKept(v, w, flat)
    ensures AreDirs(dirs, w)
  {
  }

  lemma {:induction false} SameMapped(flat: Flat, more: Flat, v: Vm)
    requires OnlyPagesMapped(flat, v) && more.Keys == flat.Keys
    ensures OnlyPagesMapped(more, v)
  {
  }

  lemma {:induction false} MoreMapped(flat: Flat, more: Flat, v: Vm)
    requires OnlyPagesMapped(flat, v) && flat.Keys <= more.Keys
    ensures OnlyPagesMapped(more, v)
  {
  }

  lemma {:induction false} LooksAt(m: Plain, pages: seq<PagerPage>, flat: Flat, current: nat, virt: U32)
    requires Looks(m, pages, flat, current)
    ensures m.dir == current && m.pages.Keys == flat.Keys
    ensures (m.dir, AlignDown(virt)) in flat ==> m.pages[(m.dir, AlignDown(virt))].bytes == flat[(m.dir, AlignDown(virt))]
  {
  }

  lemma {:induction false} NewKeyIsUnmapped(c: Cache, v: Vm, flat: Flat, dir: nat, virt: U32)
    requires Kept(c, v) && SameKeys(c.pages, flat) && OnlyPagesMapped(flat, v) && virt < VMM_KERNEL_BASE
    ensures dir != 0 && IsDir(v, dir) && Aligned(virt) && (dir, virt) !in flat ==> EntryAt(v, (dir, virt)) == Empty
    ensures PresentKey(c.pages, (dir, virt)) ==> (dir, virt) in flat
  {
    assert PresentKey(c.pages, (dir, virt)) ==> Registered(c.pages, (dir, virt));
  }

  lemma {:induction false} StoredLooks(m: Plain, pages: seq<PagerPage>, flat: Flat, after: Flat, virt: U32, b: Byte)
    requires Looks(m, pages, flat, m.dir) && PlainOk(m) && Permits(m, virt, true)
    requires ByteStored(flat, after, (m.dir, AlignDown(virt)), virt % PAGE_SIZE, b)
    ensures Looks(Step(m, Store(virt, b), false).0, pages, after, m.dir)
  {
  }

  lemma {:induction false} RegisteredLooks(m: Plain, p: seq<PagerPage>, q: seq<PagerPage>, flat: Flat, current: nat, key: Key,
                                           bytes: seq<Byte>, writable: bool, user: bool, kept: bool)
    requires Looks(m, p, flat, current) && OnlyKeyChanged(p, q, key) && Flagged(q, key, writable, user)
    requires key in flat ==> m.pages[key].writable == writable && m.pages[key].user == user
    ensures Looks(m.(pages := m.pages[key := PlainPage(bytes, writable, user)]), q, flat[key := bytes], current)
    ensures key in flat ==> Looks(m, q, flat, current)
  {
    OtherLooks(m, p, q, flat, current, key);
    hide Flagged, OnlyKeyChanged;
  }

  lemma {:induction false} RightsAgain(m: Plain, pages: seq<PagerPage>, flat: Flat, key: Key, writable: bool, user: bool)
    requires Looks(m, pages, flat, m.dir) && (key in m.pages ==> m.pages[key].writable == writable && m.pages[key].user == user)
    ensures key in flat ==> Flagged(pages, key, writable, user)
  {
    if key in flat {
      assert Flagged(pages, key, m.pages[key].writable, m.pages[key].user);
    }
  }

  lemma {:induction false} ForgottenLooks(m: Plain, p: seq<PagerPage>, q: seq<PagerPage>, flat: Flat, current: nat, key: Key)
    requires Looks(m, p, flat, current) && OnlyKeyChanged(p, q, key)
    ensures Looks(m.(pages := m.pages - {key}), q, flat - {key}, current)
  {
    OtherLooks(m, p, q, flat, current, key);
    hide Flagged, OnlyKeyChanged;
  }
}
