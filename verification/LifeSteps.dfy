/** How flat memory and address spaces make up the private memories of processes. */
module LifeSteps {
  import opened Machine
  import opened PmmSpec
  import opened VmmSpec
  import opened PagerSpec
  import opened PagerSteps
  import opened MemDemoSpec
  import opened SpacesSpec
  import opened SpacesRights
  import opened LifeSpec
  import P = ProcessSpec
  import F = ProcessFamily

  ghost function MemoryOf(s: Space, flat: Flat): Memory {
    if s.NoSpace? then map[] else map key | key in flat && key.0 == s.dir :: key.1 := flat[key]
  }

  ghost function Memories(spaces: seq<Space>, flat: Flat): (memory: seq<Memory>)
    ensures |memory| == |spaces|
  {
    seq(|spaces|, i requires 0 <= i < |spaces| => MemoryOf(spaces[i], flat))
  }

  ghost predicate OwnDir(spaces: seq<Space>, i: nat) {
    i < |spaces| && spaces[i].Space? && forall j :: 0 <= j < |spaces| && j != i && spaces[j].Space? ==> spaces[j].dir != spaces[i].dir
  }

  /** Exactly the slots in use have an address space, and the current directory is the running
      process's, or the kernel's. */
  ghost predicate Joined(t: P.Table, spaces: seq<Space>, current: nat, kernel: nat) {
    && F.Family(t) && |t.processes| == |spaces| == PROCESS_MAX
    && (forall i :: 0 <= i < PROCESS_MAX ==> (t.processes[i].used <==> spaces[i].Space?))
    && (t.currentPid == 0 ==> current == kernel)
    && (t.currentPid != 0 ==> Slot(t) >= 0 && spaces[Slot(t)].Space? && current == spaces[Slot(t)].dir && t.processes[Slot(t)].state.Running?)
  }

  // ---- memory ---------------------------------------------------------------------------------------

  lemma {:induction false} MemoryHas(s: Space, flat: Flat, x: U32)
    requires s.Space?
    ensures x in MemoryOf(s, flat) <==> (s.dir, x) in flat
    ensures x in MemoryOf(s, flat) ==> MemoryOf(s, flat)[x] == flat[(s.dir, x)]
  {
    assert (s.dir, x).0 == s.dir && (s.dir, x).1 == x;
  }

  lemma {:induction false} OwnPagePut(s: Space, flat: Flat, x: U32, bytes: seq<Byte>)
    requires s.Space?
    ensures MemoryOf(s, flat[(s.dir, x) := bytes]) == MemoryOf(s, flat)[x := bytes]
  {
    var more := flat[(s.dir, x) := bytes];
    forall y: U32 ensures y in MemoryOf(s, more) <==> y in MemoryOf(s, flat) || y == x {
      MemoryHas(s, flat, y);
      MemoryHas(s, more, y);
    }
  }

  lemma {:induction false} OtherPagePut(s: Space, flat: Flat, d: nat, x: U32, bytes: seq<Byte>)
    requires s.Space? ==> s.dir != d
    ensures MemoryOf(s, flat[(d, x) := bytes]) == MemoryOf(s, flat)
  {
  }

  /** One page of one process is written or comes anew. */
  lemma {:induction false} PutPage(spaces: seq<Space>, flat: Flat, i: nat, x: U32, bytes: seq<Byte>)
    requires OwnDir(spaces, i)
    ensures Memories(spaces, flat[(spaces[i].dir, x) := bytes]) == Memories(spaces, flat)[i := MemoryOf(spaces[i], flat)[x := bytes]]
  {
    hide MemoryOf;
    var more := flat[(spaces[i].dir, x) := bytes];
    OwnPagePut(spaces[i], flat, x, bytes);
    forall j | 0 <= j < |spaces| && j != i ensures MemoryOf(spaces[j], more) == MemoryOf(spaces[j], flat) {
      OtherPagePut(spaces[j], flat, spaces[i].dir, x, bytes);
    }
  }

  /** Only the directory of a space counts. */
  lemma {:induction false} SamePages(spaces: seq<Space>, flat: Flat, i: nat, s: Space)
    requires i < |spaces| && spaces[i].Space? && s.Space? && s.dir == spaces[i].dir
    ensures Memories(spaces[i := s], flat) == Memories(spaces, flat)
  {
  }

  lemma {:induction false} DropSpace(spaces: seq<Space>, flat: Flat, i: nat)
    requires OwnDir(spaces, i) && forall x: U32 :: (spaces[i].dir, x) in flat <==> x in Virts(spaces[i])
    ensures Memories(spaces[i := NoSpace], Without(flat, spaces[i].dir, Virts(spaces[i]))) == Memories(spaces, flat)[i := map[]]
  {
    hide Virts;
    var less := Without(flat, spaces[i].dir, Virts(spaces[i]));
    forall j | 0 <= j < |spaces| && j != i ensures MemoryOf(spaces[j], less) == MemoryOf(spaces[j], flat) {
    }
  }

  /** A new space has no pages yet. */
  lemma {:induction false} BareSpace(spaces: seq<Space>, flat: Flat, i: nat, s: Space)
    requires i < |spaces| && spaces[i].NoSpace? && s.Space? && forall key :: key in flat ==> key.0 != s.dir
    ensures Memories(spaces[i := s], flat) == Memories(spaces, flat) && MemoryOf(s, flat) == map[]
  {
    assert MemoryOf(s, flat) == map[];
  }

  /** A new space with its code and stack pages. */
  lemma {:induction false} AddSpace(spaces: seq<Space>, flat: Flat, i: nat, s: Space, code: seq<Byte>, stack: seq<Byte>)
    requires i < |spaces| && spaces[i].NoSpace? && s.Space? && OwnDir(spaces[i := s], i) && forall key :: key in flat ==> key.0 != s.dir
    ensures Memories(spaces[i := s], flat[(s.dir, PROCESS_USER_CODE_BASE) := code][(s.dir, PROCESS_USER_STACK_PAGE) := stack])
            == Memories(spaces, flat)[i := StartMemory(code, stack)]
  {
    hide MemoryOf, Memories, OwnDir;
    var after, one := spaces[i := s], flat[(s.dir, PROCESS_USER_CODE_BASE) := code];
    BareSpace(spaces, flat, i, s);
    PutPage(after, flat, i, PROCESS_USER_CODE_BASE, code);
    PutPage(after, one, i, PROCESS_USER_STACK_PAGE, stack);
    OwnPagePut(s, flat, PROCESS_USER_CODE_BASE, code);
  }

  // ---- how many pages -------------------------------------------------------------------------------

  ghost function KeysOfDir(flat: Flat, d: nat): set<Key> {
    set key | key in flat && key.0 == d
  }

  lemma {:induction false} SecondsCount(keys: set<Key>, d: nat)
    requires forall key :: key in keys ==> key.0 == d
    ensures |set key | key in keys :: key.1| == |keys|
    decreases |keys|
  {
    if keys != {} {
      var one :| one in keys;
      SecondsCount(keys - {one}, d);
      assert (set key | key in keys :: key.1) == (set key | key in keys - {one} :: key.1) + {one.1};
    }
  }

  lemma {:induction false} MemoryCount(s: Space, flat: Flat)
    requires s.Space?
    ensures |MemoryOf(s, flat)| == |KeysOfDir(flat, s.dir)|
  {
    SecondsCount(KeysOfDir(flat, s.dir), s.dir);
    assert MemoryOf(s, flat).Keys == set key | key in KeysOfDir(flat, s.dir) :: key.1;
  }

  /** The keys of the first `n` spaces. */
  ghost function KeysBelow(spaces: seq<Space>, flat: Flat, n: nat): set<Key> {
    set key | key in flat && HasSpaceBelow(spaces, key.0, n)
  }

  ghost predicate HasSpaceBelow(spaces: seq<Space>, d: nat, n: nat) {
    exists i :: 0 <= i < n && i < |spaces| && spaces[i].Space? && spaces[i].dir == d
  }

  lemma {:induction false} OneMoreSpace(spaces: seq<Space>, flat: Flat, n: nat)
    requires n < |spaces| && (spaces[n].Space? ==> OwnDir(spaces, n))
    ensures |KeysBelow(spaces, flat, n + 1)| == |KeysBelow(spaces, flat, n)| + |MemoryOf(spaces[n], flat)|
  {
    hide MemoryOf;
    forall key | key in flat
      ensures HasSpaceBelow(spaces, key.0, n + 1) <==> HasSpaceBelow(spaces, key.0, n) || (spaces[n].Space? && key.0 == spaces[n].dir)
    {
    }
    if spaces[n].Space? {
      MemoryCount(spaces[n], flat);
      assert KeysBelow(spaces, flat, n + 1) == KeysBelow(spaces, flat, n) + KeysOfDir(flat, spaces[n].dir);
      assert KeysBelow(spaces, flat, n) !! KeysOfDir(flat, spaces[n].dir);
    } else {
      assert KeysBelow(spaces, flat, n + 1) == KeysBelow(spaces, flat, n);
      NoSpaceNoPages(flat);
    }
  }

  lemma {:induction false} NoSpaceNoPages(flat: Flat)
    ensures MemoryOf(NoSpace, flat) == map[]
  {
  }

  lemma {:induction false} EntriesBelow(spaces: seq<Space>, flat: Flat, n: nat)
    requires n <= |spaces| && forall i :: 0 <= i < |spaces| && spaces[i].Space? ==> OwnDir(spaces, i)
    ensures PagesHeld(Memories(spaces, flat)[..n]) == |KeysBelow(spaces, flat, n)|
    decreases n
  {
    hide MemoryOf, OwnDir, KeysBelow;
    if n == 0 {
      NoneBelow(spaces, flat);
    } else {
      EntriesBelow(spaces, flat, n - 1);
      OneMoreSpace(spaces, flat, n - 1);
      assert Memories(spaces, flat)[..n][..n - 1] == Memories(spaces, flat)[..n - 1];
    }
  }

  lemma {:induction false} NoneBelow(spaces: seq<Space>, flat: Flat)
    ensures KeysBelow(spaces, flat, 0) == {}
  {
  }

  /** Every entry of the pager is a page of some process. */
  lemma {:induction false} EntriesCount(spaces: seq<Space>, flat: Flat)
    requires forall i :: 0 <= i < |spaces| && spaces[i].Space? ==> OwnDir(spaces, i)
    requires forall key :: key in flat ==> HasSpace(spaces, key.0)
    ensures PagesHeld(Memories(spaces, flat)) == |flat|
  {
    EntriesBelow(spaces, flat, |spaces|);
    assert Memories(spaces, flat)[..|spaces|] == Memories(spaces, flat);
    forall key | key in flat ensures HasSpaceBelow(spaces, key.0, |spaces|) {
      assert HasSpace(spaces, key.0);
    }
    assert KeysBelow(spaces, flat, |spaces|) == flat.Keys;
  }

  // ---- table and spaces stay joined ---------------------------------------------------------------------

  /** The running process is found in the same slot as long as its row says so. */
  lemma {:induction false} StillRuns(t: P.Table, u: P.Table)
    requires F.Family(u) && |u.processes| == |t.processes| && u.currentPid == t.currentPid && t.currentPid != 0
    requires Slot(t) >= 0 && u.processes[Slot(t)].used && u.processes[Slot(t)].pid == u.currentPid
    ensures Slot(u) == Slot(t)
  {
    F.FindsOwnSlot(u.processes, Slot(t));
  }

  lemma {:induction false} SpawnJoined(t: P.Table, a: P.SpawnArgs, spaces: seq<Space>, after: seq<Space>, current: nat, kernel: nat)
    requires Joined(t, spaces, current, kernel)
    requires P.SpawnPid(t, a) == 0 ==> after == spaces
    requires P.SpawnPid(t, a) != 0 ==>
               P.FindFree(t.processes, 0) < |after| == |spaces| && after == spaces[P.FindFree(t.processes, 0) := after[P.FindFree(t.processes, 0)]]
               && after[P.FindFree(t.processes, 0)].Space?
    ensures Joined(P.Spawned(t, a), after, current, kernel)
  {
    hide F.Family;
    FamilyPids(t);
    F.SpawnKeepsFamily(t, a);
    if t.currentPid != 0 {
      StillRuns(t, P.Spawned(t, a));
    }
  }

  lemma {:induction false} FamilyPids(t: P.Table)
    requires F.Family(t)
    ensures t.nextPid > 0
    ensures forall i :: 0 <= i < |t.processes| && t.processes[i].used ==>
              t.processes[i].pid != 0 && (t.processes[i].state.Running? <==> t.processes[i].pid == t.currentPid)
  {
    forall i | 0 <= i < |t.processes| && t.processes[i].used
      ensures t.processes[i].pid != 0 && (t.processes[i].state.Running? <==> t.processes[i].pid == t.currentPid)
    {
      assert F.RowOk(t, t.processes[i]);
    }
  }

  lemma {:induction false} EnterJoined(t: P.Table, slot: nat, spaces: seq<Space>, current: nat, kernel: nat)
    requires Joined(t, spaces, current, kernel) && t.currentPid == 0 && slot < |t.processes| && P.Runnable(t.processes[slot])
    ensures Joined(P.Entered(t, slot), spaces, spaces[slot].dir, kernel) && Slot(P.Entered(t, slot)) == slot
  {
    FamilyPids(t);
    F.EnterKeepsFamily(t, slot);
    F.FindsOwnSlot(P.Entered(t, slot).processes, slot);
  }

  lemma {:induction false} LeaveJoined(t: P.Table, result: nat, spaces: seq<Space>, current: nat, kernel: nat)
    requires Joined(t, spaces, current, kernel) && t.currentPid != 0
    ensures Joined(P.Left(t, Slot(t), result), spaces, kernel, kernel)
  {
    F.LeaveKeepsFamily(t, Slot(t), result);
  }

  lemma {:induction false} EndJoined(t: P.Table, slot: nat, spaces: seq<Space>, current: nat, kernel: nat)
    requires Joined(t, spaces, current, kernel) && slot < |t.processes| && t.processes[slot].used && !t.processes[slot].state.Running?
    ensures Joined(t.(processes := P.Released(t.processes, slot)), spaces[slot := NoSpace], current, kernel)
    ensures t.currentPid != 0 ==> Slot(t) != slot
  {
    hide F.Family;
    var u := t.(processes := P.Released(t.processes, slot));
    FamilyPids(t);
    F.ReleaseKeepsFamily(t, slot);
    if t.currentPid != 0 {
      StillRuns(t, u);
    }
  }

  lemma {:induction false} PriorityJoined(t: P.Table, pid: int, priority: int, spaces: seq<Space>, current: nat, kernel: nat)
    requires Joined(t, spaces, current, kernel)
    ensures Joined(P.Reprioritised(t, pid, priority), spaces, current, kernel)
  {
    F.ReprioritiseKeepsFamily(t, pid, priority);
    if t.currentPid != 0 {
      StillRuns(t, P.Reprioritised(t, pid, priority));
    }
  }

  lemma {:induction false} CursorJoined(t: P.Table, cursor: nat, spaces: seq<Space>, current: nat, kernel: nat)
    requires Joined(t, spaces, current, kernel) && cursor < |t.processes|
    ensures Joined(t.(cursor := cursor), spaces, current, kernel)
  {
    F.CursorIsFree(t, cursor);
  }

  /** A deed leaves every row in use as it is. */
  lemma {:induction false} ActKeepsRows(s: Plain, d: Deed)
    requires F.Family(s.table)
    ensures F.Family(Act(s, d).0.table) && Act(s, d).0.table.currentPid == s.table.currentPid
    ensures |Act(s, d).0.table.processes| == |s.table.processes|
    ensures forall i :: 0 <= i < |s.table.processes| && s.table.processes[i].used ==> Act(s, d).0.table.processes[i] == s.table.processes[i]
  {
    hide F.Family;
    if d.Spawn? {
      F.SpawnKeepsFamily(s.table, BirthArgs(s, s.table.currentPid, d.image, P.PROCESS_PRIORITY_DEFAULT, true));
    }
  }

  // ---- deeds on flat memory are deeds on private memory ----------------------------------------------

  ghost predicate Housed(spaces: seq<Space>, flat: Flat) {
    && (forall i :: 0 <= i < |spaces| && spaces[i].Space? ==> OwnDir(spaces, i))
    && (forall key :: key in flat ==> HasSpace(spaces, key.0) && key.1 < VMM_KERNEL_BASE)
  }

  lemma {:induction false} LoadAct(t: P.Table, spaces: seq<Space>, flat: Flat, current: nat, kernel: nat, virt: U32, ok: bool, b: Byte)
    requires Joined(t, spaces, current, kernel) && Housed(spaces, flat) && t.currentPid != 0
    requires ok <==> (current, AlignDown(virt)) in flat
    requires ok ==> HoldsByte(flat, (current, AlignDown(virt)), virt % PAGE_SIZE, b)
    ensures Act(Plain(t, Memories(spaces, flat)), Load(virt)) == (Plain(t, Memories(spaces, flat)), if ok then Got(b) else Refused)
  {
    MemoryHas(spaces[Slot(t)], flat, AlignDown(virt));
  }

  lemma {:induction false} StoreAct(t: P.Table, spaces: seq<Space>, flat: Flat, after: Flat, current: nat, kernel: nat, virt: U32, b: Byte, ok: bool)
    requires Joined(t, spaces, current, kernel) && Housed(spaces, flat) && t.currentPid != 0
    requires ok <==> (current, AlignDown(virt)) in flat && MayWrite(AlignDown(virt))
    requires ok ==> ByteStored(flat, after, (current, AlignDown(virt)), virt % PAGE_SIZE, b)
    requires !ok ==> after == flat
    ensures Act(Plain(t, Memories(spaces, flat)), Store(virt, b)) == (Plain(t, Memories(spaces, after)), if ok then Stored else Refused)
  {
    hide MemoryOf;
    MemoryHas(spaces[Slot(t)], flat, AlignDown(virt));
    if ok {
      PutPage(spaces, flat, Slot(t), AlignDown(virt), WithByte(flat[(current, AlignDown(virt))], virt % PAGE_SIZE, b));
    }
  }

  /** The bitmap of a space says which of its virtual pages are registered. */
  lemma {:induction false} PageIsHeld(s: Space, flat: Flat, n: nat)
    requires s.Space? && |s.pages| == PROCESS_USER_VM_PAGE_COUNT && forall x: U32 :: (s.dir, x) in flat <==> x in Virts(s)
    ensures n < PROCESS_USER_VM_PAGE_COUNT ==> (s.pages[n] <==> (s.dir, VmVirt(n)) in flat)
  {
    if n < PROCESS_USER_VM_PAGE_COUNT {
      forall m: nat | m < PROCESS_USER_VM_PAGE_COUNT && VmVirt(m) == VmVirt(n) ensures m == n {
      }
    }
  }

  /** A spawn that is allowed finds its slot without a space. */
  lemma {:induction false} SpawnSlot(t: P.Table, a: P.SpawnArgs, spaces: seq<Space>, current: nat, kernel: nat)
    requires Joined(t, spaces, current, kernel)
    ensures t.nextPid > 0 && |t.processes| == |spaces| == PROCESS_MAX
    ensures P.FindFree(t.processes, 0) >= 0 ==> spaces[P.FindFree(t.processes, 0)].NoSpace?
    ensures P.SpawnPid(t, a) != 0 <==> P.SpawnAllowed(t, a) && P.FindFree(t.processes, 0) >= 0 && a.memoryFound
  {
    hide F.Family;
    FamilyPids(t);
  }

  lemma {:induction false} VmAllocAct(t: P.Table, spaces: seq<Space>, flat: Flat, after: seq<Space>, more: Flat, current: nat, kernel: nat,
                                      n: U32, virt: U32)
    requires Joined(t, spaces, current, kernel) && Housed(spaces, flat) && t.currentPid != 0
    requires virt != 0 <==> n < PROCESS_USER_VM_PAGE_COUNT && ((current, VmVirt(n)) in flat || |flat| < PAGER_MAX_PAGES)
    requires virt == 0 ==> after == spaces && more == flat
    requires virt != 0 ==> n < PROCESS_USER_VM_PAGE_COUNT && virt == VmVirt(n)
                           && (exists s: Space :: s.Space? && s.dir == current && after == spaces[Slot(t) := s])
                           && more == if (current, virt) in flat then flat else flat[(current, virt) := Padded([])]
    ensures Act(Plain(t, Memories(spaces, flat)), VmAlloc(n)) == (Plain(t, Memories(after, more)), Number(virt))
    ensures Joined(t, after, current, kernel)
  {
    hide MemoryOf, F.Family;
    EntriesCount(spaces, flat);
    if n < PROCESS_USER_VM_PAGE_COUNT {
      MemoryHas(spaces[Slot(t)], flat, VmVirt(n));
    }
    if virt != 0 {
      var s: Space :| s.Space? && s.dir == current && after == spaces[Slot(t) := s];
      SamePages(spaces, more, Slot(t), s);
      if more != flat {
        PutPage(spaces, flat, Slot(t), virt, Padded([]));
      }
    }
  }

  /** A spawn as the address spaces do it is a birth. */
  lemma {:induction false} BirthAct(t: P.Table, spaces: seq<Space>, flat: Flat, after: seq<Space>, more: Flat, current: nat, kernel: nat,
                                    parentPid: int, image: seq<Byte>, priority: int, page: bool, found: bool)
    requires Joined(t, spaces, current, kernel) && Housed(spaces, flat) && (found <==> page && |flat| + 2 <= PAGER_MAX_PAGES)
    requires var a := P.SpawnArgs(parentPid, 0 < |image| <= PAGE_SIZE, priority, found);
             if P.SpawnPid(t, a) == 0 then after == spaces && more == flat
             else P.FindFree(t.processes, 0) >= 0 && |image| <= PAGE_SIZE
                  && Moved(spaces, flat, after, more, P.FindFree(t.processes, 0), Padded(image), Padded([]))
    ensures Born(Plain(t, Memories(spaces, flat)), parentPid, image, priority, page)
            == (Plain(P.Spawned(t, P.SpawnArgs(parentPid, 0 < |image| <= PAGE_SIZE, priority, found)), Memories(after, more)),
                P.SpawnPid(t, P.SpawnArgs(parentPid, 0 < |image| <= PAGE_SIZE, priority, found)))
  {
    hide F.Family, MemoryOf, OwnDir, Memories;
    EntriesCount(spaces, flat);
    var a := P.SpawnArgs(parentPid, 0 < |image| <= PAGE_SIZE, priority, found);
    if P.SpawnPid(t, a) != 0 {
      var j := P.FindFree(t.processes, 0);
      AddSpace(spaces, flat, j, after[j], Padded(image), Padded([]));
    }
  }

  /** Slot `i` has been given a space of its own with a code and a stack page. */
  ghost predicate Moved(spaces: seq<Space>, flat: Flat, after: seq<Space>, more: Flat, i: nat, code: seq<Byte>, stack: seq<Byte>) {
    && i < |spaces| == |after| && spaces[i].NoSpace? && after[i].Space? && after == spaces[i := after[i]]
    && OwnDir(after, i) && (forall key :: key in flat ==> key.0 != after[i].dir)
    && more == flat[(after[i].dir, PROCESS_USER_CODE_BASE) := code][(after[i].dir, PROCESS_USER_STACK_PAGE) := stack]
  }

  /** A directory nobody owned before is nobody else's. */
  lemma {:induction false} NewSpaceIsOwn(spaces: seq<Space>, flat: Flat, after: seq<Space>, i: nat, owner: map<nat, Owner>)
    requires Housed(spaces, flat) && i < |spaces| == |after| && spaces[i].NoSpace? && after[i].Space? && after == spaces[i := after[i]]
    requires after[i].dir !in owner && forall j :: 0 <= j < |spaces| && spaces[j].Space? ==> spaces[j].dir in owner
    ensures OwnDir(after, i) && forall key :: key in flat ==> key.0 != after[i].dir
  {
    forall key | key in flat ensures key.0 != after[i].dir {
      assert HasSpace(spaces, key.0);
    }
  }

  lemma {:induction false} EndAct(t: P.Table, spaces: seq<Space>, flat: Flat, current: nat, kernel: nat, slot: nat)
    requires Joined(t, spaces, current, kernel) && slot < PROCESS_MAX && t.processes[slot].used && !t.processes[slot].state.Running?
    requires OwnDir(spaces, slot) && forall x: U32 :: (spaces[slot].dir, x) in flat <==> x in Virts(spaces[slot])
    ensures Ended(Plain(t, Memories(spaces, flat)), slot)
            == Plain(t.(processes := P.Released(t.processes, slot)),
                     Memories(spaces[slot := NoSpace], Without(flat, spaces[slot].dir, Virts(spaces[slot]))))
  {
    hide F.Family, MemoryOf, Virts;
    DropSpace(spaces, flat, slot);
  }

  /** The space of slot `i` is gone: exactly its pages are free. */
  ghost predicate GoneFrom(v: Vm, w: Vm, before: seq<Space>, after: seq<Space>, i: nat) {
    && i < |before| && before[i].Space? && after == before[i := NoSpace]
    && Released(v, w, SpaceOf(v, before[i].dir))
  }

  ghost predicate Gone(v: Vm, w: Vm, before: seq<Space>, after: seq<Space>) {
    exists i: nat :: GoneFrom(v, w, before, after, i)
  }

  /** Only the running process's directory is the current one. */
  lemma {:induction false} NotCurrent(t: P.Table, spaces: seq<Space>, slot: nat, current: nat, kernel: nat)
    requires Joined(t, spaces, current, kernel) && OwnDir(spaces, slot) && spaces[slot].dir != kernel
    requires t.currentPid != 0 ==> Slot(t) != slot
    ensures current != spaces[slot].dir
  {
    hide F.Family;
  }

  // ---- a process runs ---------------------------------------------------------------------------------

  lemma {:induction false} OneMoreDeed(s: Plain, deeds: seq<Deed>, k: nat)
    requires k < |deeds|
    ensures ActAll(s, deeds[..k + 1]).0 == Act(ActAll(s, deeds[..k]).0, deeds[k]).0
    ensures ActAll(s, deeds[..k + 1]).1 == ActAll(s, deeds[..k]).1 + [Act(ActAll(s, deeds[..k]).0, deeds[k]).1]
    ensures CostAll(deeds[..k + 1]) == CostAll(deeds[..k]) + Cost(deeds[k])
    ensures CostAll(deeds[..k + 1]) <= CostAll(deeds)
  {
    assert deeds[..k + 1][..k] == deeds[..k];
    CostsGrow(deeds, k + 1);
  }

  lemma {:induction false} NoDeedsYet(s: Plain, deeds: seq<Deed>)
    ensures ActAll(s, deeds[..0]) == (s, []) && CostAll(deeds[..0]) == 0
  {
  }

  lemma {:induction false} CostsGrow(deeds: seq<Deed>, k: nat)
    requires k <= |deeds|
    ensures CostAll(deeds[..k]) <= CostAll(deeds)
    decreases |deeds|
  {
    if k == |deeds| {
      assert deeds[..k] == deeds;
    } else {
      assert deeds[..|deeds| - 1][..k] == deeds[..k];
      CostsGrow(deeds[..|deeds| - 1], k);
    }
  }

  /** The running process stays in its slot whatever it does. */
  lemma {:induction false} StaysInSlot(s: Plain, d: Deed)
    requires F.Family(s.table) && s.table.currentPid != 0 && Slot(s.table) >= 0
    ensures Slot(Act(s, d).0.table) == Slot(s.table) && Act(s, d).0.table.currentPid == s.table.currentPid
  {
    hide F.Family, Act;
    ActKeepsRows(s, d);
    StillRuns(s.table, Act(s, d).0.table);
  }

  // ---- the other calls ----------------------------------------------------------------------------------

  lemma {:induction false} LiveIsFound(t: P.Table, pid: int)
    requires F.Family(t)
    ensures F.LivePid(t.processes, pid) <==> P.FindByPid(t.processes, pid, 0) >= 0 && !t.processes[P.FindByPid(t.processes, pid, 0)].state.Zombie?
  {
    if F.LivePid(t.processes, pid) {
      var j :| 0 <= j < |t.processes| && t.processes[j].used && t.processes[j].pid == pid && !t.processes[j].state.Zombie?;
      F.FindsOwnSlot(t.processes, j);
    }
  }

  /** When the pass comes to slot `i`, its row is as it was at the start. */
  lemma {:induction false} ReapedRow(s: Plain, i: nat)
    requires F.Family(s.table) && i < |s.table.processes| && |s.memory| == |s.table.processes|
    ensures P.OrphanZombies(s.table.processes, i + 1) == P.OrphanZombies(s.table.processes, i)
                                                         + if P.OrphanZombie(ReapedTo(s, i).table.processes[i]) then 1 else 0
    ensures ReapedTo(s, i + 1) == if P.OrphanZombie(ReapedTo(s, i).table.processes[i]) then Ended(ReapedTo(s, i), i) else ReapedTo(s, i)
  {
    hide F.Family, P.Released;
    ReapedTable(s, i);
    F.ReapedExactly(s.table, i);
  }

  /** The table of the pass is the table's own pass. */
  lemma {:induction false} ReapedTable(s: Plain, n: nat)
    requires n <= |s.table.processes| == |s.memory|
    ensures ReapedTo(s, n).table == s.table.(processes := P.ReapedTo(s.table.processes, n))
  {
    hide P.Released;
    if n > 0 {
      ReapedTable(s, n - 1);
      OrphanEnds(ReapedTo(s, n - 1), n - 1);
    }
  }

  lemma {:induction false} OrphanEnds(s: Plain, i: nat)
    requires i < |s.table.processes| == |s.memory|
    ensures P.OrphanZombie(s.table.processes[i]) ==>
              Ended(s, i) == Plain(s.table.(processes := P.Released(s.table.processes, i)), s.memory[i := map[]])
  {
  }

  /** The selected process can run, and is found in the selected slot. */
  lemma {:induction false} SelectedCanRun(s: Plain, selected: nat)
    requires F.Family(s.table) && selected == P.Selected(s.table)
    ensures P.CanRun(s.table, s.table.processes[selected].pid) && P.FindByPid(s.table.processes, s.table.processes[selected].pid, 0) == selected
  {
    F.FindsOwnSlot(s.table.processes, selected);
  }

  lemma {:induction false} NoEventsYet(s: Plain, events: seq<Event>)
    ensures Run(s, events[..0]) == (s, []) && CostOfAll(events[..0]) == 0
  {
  }

  lemma {:induction false} OneMoreEvent(s: Plain, events: seq<Event>, k: nat)
    requires k < |events|
    ensures Run(s, events[..k + 1]).0 == Step(Run(s, events[..k]).0, events[k]).0
    ensures Run(s, events[..k + 1]).1 == Run(s, events[..k]).1 + [Step(Run(s, events[..k]).0, events[k]).1]
    ensures CostOfAll(events[..k + 1]) == CostOfAll(events[..k]) + CostOf(events[k]) && CostOfAll(events[..k + 1]) <= CostOfAll(events)
  {
    hide Step, CostOf;
    assert events[..k + 1][..k] == events[..k];
    AllCostsGrow(events, k + 1);
  }

  lemma {:induction false} AllCostsGrow(events: seq<Event>, k: nat)
    requires k <= |events|
    ensures CostOfAll(events[..k]) <= CostOfAll(events)
    decreases |events|
  {
    if k == |events| {
      assert events[..k] == events;
    } else {
      assert events[..|events| - 1][..k] == events[..k];
      AllCostsGrow(events[..|events| - 1], k);
    }
  }
}
