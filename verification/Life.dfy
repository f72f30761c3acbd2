/** Process table, address spaces, pager and banker together: the kernel as processes meet it. */
module LifeModule {
  import opened Machine
  import opened PmmSpec
  import opened PmmModule
  import opened VmmSpec
  import opened VmmModule
  import opened PagerSpec
  import opened PagerSteps
  import opened PagerModule
  import opened MemDemoSpec
  import opened MemDemoModule
  import opened SpacesSpec
  import opened SpacesRights
  import opened SpacesModule
  import opened BootModule
  import opened PagerRecency
  import opened LifeSpec
  import opened LifeSteps
  import P = ProcessSpec
  import F = ProcessFamily
  import ProcessModule
  import B = BankerSpec
  import BankerModule

  class Life {
    const table: ProcessModule.ProcessTable
    const spaces: AddressSpaces
    const banker: BankerModule.Banker

    ghost predicate Valid()
      reads this, table, table.processes, spaces, spaces.pager, spaces.demo, spaces.vmm, spaces.vmm.pmm
      reads banker, banker.available, banker.processes
    {
      && table.Valid() && spaces.Valid() && banker.Valid()
      && Joined(table.View(), spaces.spaces, spaces.vmm.current, spaces.vmm.kernel)
      && KernelApart(spaces.boot, spaces.demo.slots, spaces.vmm.View())
    }

    /** What processes can tell of the state. */
    ghost function View(): Plain
      reads table, table.processes, spaces, spaces.pager
    {
      Plain(table.View(), Memories(spaces.spaces, spaces.pager.flat))
    }

    /** Pages for deeds of cost `n`, when the pager holds its 16 already. */
    ghost predicate Supplied(n: nat)
      reads this, table, table.processes, spaces, spaces.pager, spaces.demo, spaces.vmm, spaces.vmm.pmm
      reads banker, banker.available, banker.processes
    {
      Valid() && spaces.pager.Faithful() && spaces.Spare() >= PAGER_FRAME_LIMIT + n
    }

    constructor (table: ProcessModule.ProcessTable, spaces: AddressSpaces, banker: BankerModule.Banker)
      requires table.Valid() && spaces.Valid() && banker.Valid()
      requires table.View() == P.Booted(PROCESS_MAX) && spaces.vmm.current == spaces.vmm.kernel && spaces.pager.flat == map[]
      requires forall i :: 0 <= i < PROCESS_MAX ==> spaces.spaces[i] == NoSpace
      requires KernelApart(spaces.boot, spaces.demo.slots, spaces.vmm.View())
      ensures this.table == table && this.spaces == spaces && this.banker == banker
      ensures Valid() && View() == Fresh(PROCESS_MAX)
    {
      this.table := table;
      this.spaces := spaces;
      this.banker := banker;
      new;
      assert |spaces.spaces| == PROCESS_MAX;
      assert Memories(spaces.spaces, spaces.pager.flat) == Fresh(PROCESS_MAX).memory;
    }

    /** The parts of the invariant. */
    lemma {:induction false} Parts()
      requires Valid()
      ensures table.Valid() && spaces.Valid() && banker.Valid() && Housed(spaces.spaces, spaces.pager.flat)
      ensures Joined(table.View(), spaces.spaces, spaces.vmm.current, spaces.vmm.kernel)
      ensures KernelApart(spaces.boot, spaces.demo.slots, spaces.vmm.View()) && (table.currentPid != 0 ==> spaces.vmm.current != spaces.vmm.kernel)
      ensures table.View() == View().table && F.Family(table.View()) && |spaces.spaces| == PROCESS_MAX == table.processes.Length
      ensures |View().memory| == PROCESS_MAX == |View().table.processes|
      ensures forall key :: key in spaces.pager.flat ==> key.1 < VMM_KERNEL_BASE && !IsDemoAddress(key.1)
    {
      hide ProcessModule.ProcessTable.Valid, AddressSpaces.Valid, BankerModule.Banker.Valid, F.Family;
      spaces.EveryPageHasSpace();
      forall i | 0 <= i < |spaces.spaces| && spaces.spaces[i].Space?
        ensures OwnDir(spaces.spaces, i) && spaces.spaces[i].dir != spaces.vmm.kernel
      {
        spaces.OwnDirectories(i);
      }
    }

    // ---- what the running process does ---------------------------------------------------------------

    /** A load. Above the kernel base it is a protection fault, which nobody repairs. */
    method Load(virt: U32, ghost n: nat) returns (answer: Answer)
      requires Valid() && table.currentPid != 0 && Supplied(n + 1)
      modifies spaces.pager, spaces.vmm`frames, spaces.vmm`owner, spaces.vmm.pmm`bitmap, spaces.vmm.pmm`freePages
      ensures Valid() && Supplied(n) && View() == Act(old(View()), Deed.Load(virt)).0
      ensures !IsDemo(Deed.Load(virt)) ==> answer == Act(old(View()), Deed.Load(virt)).1
    {
      hide KernelApart, AddressSpaces.Valid, BankerModule.Banker.Valid, ProcessModule.ProcessTable.Valid, Joined, Housed, Act,
           Pager.Valid, Pager.Faithful, Memories, AccessWorks, FramesSuffice, Agrees, HoldsByte, DemoMaps, SlotBytes;
      Parts();
      var ok, b := false, 0;
      if virt >= VMM_KERNEL_BASE {
        KernelHalf(virt);
        var _ := spaces.PageFault(virt, true);
        LoadAct(table.View(), spaces.spaces, spaces.pager.flat, spaces.vmm.current, spaces.vmm.kernel, virt, false, 0);
      } else if IsDemoAddress(AlignDown(virt)) {
        LoadAct(table.View(), spaces.spaces, spaces.pager.flat, spaces.vmm.current, spaces.vmm.kernel, virt, false, 0);
        ghost var i;
        ok, b, i := spaces.DemoLoad(virt);
      } else {
        spaces.AccessWorksByRule((spaces.vmm.current, AlignDown(virt)));
        ok, b := spaces.UserLoad(virt);
        LoadAct(table.View(), spaces.spaces, spaces.pager.flat, spaces.vmm.current, spaces.vmm.kernel, virt, ok, b);
      }
      return if ok then Got(b) else Refused;
    }

    method Store(virt: U32, b: Byte, ghost n: nat) returns (answer: Answer)
      requires Valid() && table.currentPid != 0 && Supplied(n + 1)
      modifies spaces.pager, spaces.vmm`frames, spaces.vmm`owner, spaces.vmm.pmm`bitmap, spaces.vmm.pmm`freePages
      ensures Valid() && Supplied(n) && View() == Act(old(View()), Deed.Store(virt, b)).0
      ensures !IsDemo(Deed.Store(virt, b)) ==> answer == Act(old(View()), Deed.Store(virt, b)).1
    {
      hide KernelApart, AddressSpaces.Valid, BankerModule.Banker.Valid, ProcessModule.ProcessTable.Valid, Joined, Housed, Act,
           Pager.Valid, Pager.Faithful, Memories, AccessWorks, FramesSuffice, Agrees, ByteStored, DemoMaps, SlotBytes, MayWrite;
      Parts();
      ghost var flat := spaces.pager.flat;
      var ok := false;
      if virt >= VMM_KERNEL_BASE {
        KernelHalf(virt);
        var _ := spaces.PageFault(virt, true);
        StoreAct(table.View(), spaces.spaces, flat, flat, spaces.vmm.current, spaces.vmm.kernel, virt, b, false);
      } else if IsDemoAddress(AlignDown(virt)) {
        StoreAct(table.View(), spaces.spaces, flat, flat, spaces.vmm.current, spaces.vmm.kernel, virt, b, false);
        ghost var i;
        ok, i := spaces.DemoStore(virt, b);
      } else {
        spaces.AccessWorksByRule((spaces.vmm.current, AlignDown(virt)));
        ok := spaces.UserStore(virt, b);
        StoreAct(table.View(), spaces.spaces, flat, spaces.pager.flat, spaces.vmm.current, spaces.vmm.kernel, virt, b, ok);
      }
      return if ok then Stored else Refused;
    }

    /** The `vm_alloc` system call of the running process. */
    method VmAlloc(page: U32, ghost n: nat) returns (answer: Answer)
      requires Valid() && table.currentPid != 0 && Supplied(n)
      modifies spaces`spaces, spaces.pager
      ensures Valid() && Supplied(n) && (View(), answer) == Act(old(View()), Deed.VmAlloc(page))
    {
      hide KernelApart, AddressSpaces.Valid, BankerModule.Banker.Valid, ProcessModule.ProcessTable.Valid, Housed, Act, Pager.Valid,
           Pager.Faithful, Memories, F.Family;
      Parts();
      ghost var before, flat := spaces.spaces, spaces.pager.flat;
      var slot := table.FindProcessByPid(table.currentPid);
      spaces.OwnDirectories(slot);
      PageIsHeld(before[slot], flat, page);
      var virt := spaces.VmAllocPage(slot, page);
      VmAllocAct(table.View(), before, flat, spaces.spaces, spaces.pager.flat, spaces.vmm.current, spaces.vmm.kernel, page, virt);
      return Number(virt);
    }

    /** The memory demo's system calls, and the request to sample. */
    method DemoCall(d: Deed, ghost n: nat) returns (answer: Answer)
      requires Valid() && table.currentPid != 0 && Supplied(n + Cost(d)) && (d.Demo? || d.DemoReset? || d.Sample?)
      modifies spaces.pager, spaces.demo, spaces.vmm`frames, spaces.vmm`owner, spaces.vmm.pmm`bitmap, spaces.vmm.pmm`freePages
      ensures Valid() && Supplied(n) && View() == Act(old(View()), d).0
      ensures !IsDemo(d) ==> answer == Act(old(View()), d).1
    {
      hide KernelApart, AddressSpaces.Valid, BankerModule.Banker.Valid, ProcessModule.ProcessTable.Valid, Housed, Pager.Valid,
           Pager.Faithful, Memories, F.Family;
      Parts();
      match d {
        case Demo(op, page) =>
          var r := spaces.DemoApply(op, page);
          return Number(r);
        case DemoReset =>
          spaces.DemoReset();
          return Done;
        case Sample =>
          spaces.Sample();
          return Done;
      }
    }

    // ---- birth -----------------------------------------------------------------------------------------

    /** Spawns a process with its address space. Without a free page or two pager entries a
        pid is used up, and nothing else. */
    method SpawnChild(parentPid: int, image: seq<Byte>, priority: int, ghost n: nat) returns (pid: int)
      requires Valid()
      modifies table`nextPid, table.processes, spaces`spaces, spaces.pager, spaces.demo
      modifies spaces.vmm`frames, spaces.vmm`owner, spaces.vmm.pmm`bitmap, spaces.vmm.pmm`freePages
      ensures Valid() && (old(Supplied(n + 1)) ==> Supplied(n))
      ensures (View(), pid) == Born(old(View()), parentPid, image, priority, old(spaces.vmm.pmm.freePages) > 0)
    {
      hide KernelApart, AddressSpaces.Valid, BankerModule.Banker.Valid, ProcessModule.ProcessTable.Valid, Housed, Pager.Valid,
           Pager.Faithful, Memories, F.Family, OwnDir, Born, Joined, PinnedKey;
      Parts();
      DirsAreOwned();
      ghost var t, before, flat, owner := table.View(), spaces.spaces, spaces.pager.flat, spaces.vmm.owner;
      ghost var page := spaces.vmm.pmm.freePages > 0;
      ghost var a := P.SpawnArgs(parentPid, 0 < |image| <= PAGE_SIZE, priority, page && |flat| + 2 <= PAGER_MAX_PAGES);
      SpawnSlot(t, a, before, spaces.vmm.current, spaces.vmm.kernel);
      pid := 0;
      var slot := table.TakeSlot(parentPid, 0 < |image| <= PAGE_SIZE, priority);
      if slot >= 0 {
        var ok := spaces.Spawn(slot, image);
        if ok {
          pid := table.processes[slot].pid;
          NewSpaceIsOwn(before, flat, spaces.spaces, slot, owner);
        } else {
          table.GiveUpSlot(slot, t, a);
        }
      }
      BirthAct(t, before, flat, spaces.spaces, spaces.pager.flat, spaces.vmm.current, spaces.vmm.kernel, parentPid, image, priority, page,
               a.memoryFound);
      SpawnJoined(t, a, before, spaces.spaces, spaces.vmm.current, spaces.vmm.kernel);
    }

    /** The system call of the running process that spawns a built-in child. */
    method SpawnBuiltinChildForCurrent(known: bool, image: seq<Byte>, ghost n: nat) returns (pid: int)
      requires Valid() && table.currentPid != 0 && Supplied(n + 1) && (known ==> 0 < |image| <= PAGE_SIZE)
      modifies table`nextPid, table.processes, spaces`spaces, spaces.pager, spaces.demo
      modifies spaces.vmm`frames, spaces.vmm`owner, spaces.vmm.pmm`bitmap, spaces.vmm.pmm`freePages
      ensures Valid() && Supplied(n) && (View(), Number(pid)) == Act(old(View()), Spawn(known, image))
    {
      hide KernelApart, AddressSpaces.Valid, BankerModule.Banker.Valid, ProcessModule.ProcessTable.Valid, Housed, Pager.Valid,
           Pager.Faithful, Memories, F.Family, OwnDir, Born;
      Parts();
      spaces.HoldsItsLimit();
      var parent := table.FindProcessByPid(table.currentPid);
      if parent < 0 || !table.processes[parent].state.Running? || !known {
        return 0;
      }
      pid := SpawnChild(table.currentPid, image, P.PROCESS_PRIORITY_DEFAULT, n);
    }

    /** One deed of the running process: what it sees is its private memory. */
    method Perform(d: Deed, ghost n: nat) returns (answer: Answer)
      requires Valid() && table.currentPid != 0 && Buildable(d) && Supplied(n + Cost(d))
      modifies table`nextPid, table.processes, spaces`spaces, spaces.pager, spaces.demo
      modifies spaces.vmm`frames, spaces.vmm`owner, spaces.vmm.pmm`bitmap, spaces.vmm.pmm`freePages
      ensures Valid() && Supplied(n) && View() == Act(old(View()), d).0
      ensures !IsDemo(d) ==> answer == Act(old(View()), d).1
    {
      hide Valid, Act, View, Supplied;
      match d {
        case Load(virt) => answer := Load(virt, n);
        case Store(virt, b) => answer := Store(virt, b, n);
        case VmAlloc(page) => answer := VmAlloc(page, n);
        case Spawn(known, image) =>
          var pid := SpawnBuiltinChildForCurrent(known, image, n);
          answer := Number(pid);
        case _ => answer := DemoCall(d, n);
      }
    }

    // ---- death -----------------------------------------------------------------------------------------

    /** The banker's tables once it has forgotten the process in a slot. */
    ghost function ClaimsWithout(slot: nat): B.State
      reads table, table.processes, banker, banker.available, banker.processes
    {
      if banker.Valid() && banker.ready && slot < table.processes.Length then
        BankerModule.SaneIsShaped(banker.Tables(), banker.initial);
        B.Step(banker.Tables(), B.Unregister(table.processes[slot].pid))
      else banker.Tables()
    }

    /** The process in a slot is gone: its row, its claims with the banker, and exactly its pages. */
    method End(slot: nat, ghost n: nat)
      requires Valid() && slot < PROCESS_MAX && table.processes[slot].used && !table.processes[slot].state.Running?
      modifies table.processes, banker.available, banker.processes
      modifies spaces`spaces, spaces.pager, spaces.demo
      modifies spaces.vmm`frames, spaces.vmm`owner, spaces.vmm.pmm`bitmap, spaces.vmm.pmm`freePages
      ensures Valid() && View() == Ended(old(View()), slot) && (old(Supplied(n)) ==> Supplied(n))
      ensures spaces.spaces == old(spaces.spaces)[slot := NoSpace] && old(spaces.spaces)[slot].Space?
      ensures Released(old(spaces.vmm.View()), spaces.vmm.View(), SpaceOf(old(spaces.vmm.View()), old(spaces.spaces)[slot].dir))
      ensures banker.Tables() == old(ClaimsWithout(slot))
    {
      hide KernelApart, AddressSpaces.Valid, BankerModule.Banker.Valid, Housed, Pager.Valid, Pager.Faithful, Memories, F.Family,
           Released, SpaceOf, Virts, Without, B.Step, BankerModule.Banker.Tables, Ended, ProcessModule.ProcessTable.Valid, Joined,
           OwnDir, P.Released, AddressSpaces.Spare;
      Ending(slot);
      EndRow(slot);
      spaces.ReleaseSpace(slot);
    }

    /** Row and claims go first. */
    method EndRow(slot: nat)
      requires table.Valid() && banker.Valid() && slot < table.processes.Length
      modifies table.processes, banker.available, banker.processes
      ensures table.Valid() && banker.Valid()
      ensures table.View() == old(table.View()).(processes := P.Released(old(table.processes[..]), slot))
      ensures banker.Tables() == old(ClaimsWithout(slot))
    {
      hide BankerModule.Banker.Valid, B.Step, BankerModule.Banker.Tables, ProcessModule.ProcessTable.Valid, P.Released;
      banker.UnregisterProcess(table.processes[slot].pid);
      table.ReleaseProcess(slot);
    }

    /** What the end of the process in a slot will lead to. */
    lemma {:induction false} Ending(slot: nat)
      requires Valid() && slot < PROCESS_MAX && table.processes[slot].used && !table.processes[slot].state.Running?
      ensures KernelApart(spaces.boot, spaces.demo.slots, spaces.vmm.View())
      ensures table.Valid() && spaces.Valid() && banker.Valid() && slot < |spaces.spaces| && slot < table.processes.Length
      ensures spaces.spaces[slot].Space? && spaces.vmm.current != spaces.spaces[slot].dir
      ensures var t, after := table.View().(processes := P.Released(table.processes[..], slot)), spaces.spaces[slot := NoSpace];
              && Joined(t, after, spaces.vmm.current, spaces.vmm.kernel)
              && Ended(View(), slot)
                 == Plain(t, Memories(after, Without(spaces.pager.flat, spaces.spaces[slot].dir, Virts(spaces.spaces[slot]))))
    {
      hide KernelApart, AddressSpaces.Valid, BankerModule.Banker.Valid, Memories, F.Family, Virts, Without, Ended,
           ProcessModule.ProcessTable.Valid, P.Released;
      Parts();
      EndJoined(table.View(), slot, spaces.spaces, spaces.vmm.current, spaces.vmm.kernel);
      spaces.OwnDirectories(slot);
      EndAct(table.View(), spaces.spaces, spaces.pager.flat, spaces.vmm.current, spaces.vmm.kernel, slot);
      NotCurrent(table.View(), spaces.spaces, slot, spaces.vmm.current, spaces.vmm.kernel);
    }

    /** Kills a process that is not running. */
    method Kill(pid: int, ghost n: nat) returns (status: int)
      requires Valid()
      modifies table.processes, banker.available, banker.processes
      modifies spaces`spaces, spaces.pager, spaces.demo
      modifies spaces.vmm`frames, spaces.vmm`owner, spaces.vmm.pmm`bitmap, spaces.vmm.pmm`freePages
      ensures Valid() && (View(), Reply.Status(status)) == Step(old(View()), Event.Kill(pid)) && (old(Supplied(n)) ==> Supplied(n))
      ensures status == P.PROCESS_KILL_OK ==> Gone(old(spaces.vmm.View()), spaces.vmm.View(), old(spaces.spaces), spaces.spaces)
      ensures status != P.PROCESS_KILL_OK ==> spaces.vmm.View() == old(spaces.vmm.View()) && banker.Tables() == old(banker.Tables())
    {
      hide KernelApart, AddressSpaces.Valid, BankerModule.Banker.Valid, Housed, Pager.Valid, Pager.Faithful, Memories, F.Family,
           Released, SpaceOf, B.Step, BankerModule.Banker.Tables, Ended, Joined, ProcessModule.ProcessTable.Valid;
      Parts();
      var slot := table.FindProcessByPid(pid);
      if slot < 0 {
        return P.PROCESS_KILL_NOT_FOUND;
      }
      if table.processes[slot].state.Running? {
        return P.PROCESS_KILL_RUNNING;
      }
      ghost var v, before := spaces.vmm.View(), spaces.spaces;
      End(slot, n);
      assert GoneFrom(v, spaces.vmm.View(), before, spaces.spaces, slot);
      return P.PROCESS_KILL_OK;
    }

    /** Collects an exited child. */
    method WaitChild(parentPid: int, childPid: int, ghost n: nat) returns (status: int, waitedPid: int, exitCode: nat)
      requires Valid()
      modifies table.processes, banker.available, banker.processes
      modifies spaces`spaces, spaces.pager, spaces.demo
      modifies spaces.vmm`frames, spaces.vmm`owner, spaces.vmm.pmm`bitmap, spaces.vmm.pmm`freePages
      ensures Valid() && (old(Supplied(n)) ==> Supplied(n))
      ensures (View(), Waited(status, waitedPid, exitCode)) == Step(old(View()), Wait(parentPid, childPid))
      ensures status == P.PROCESS_WAIT_OK ==> Gone(old(spaces.vmm.View()), spaces.vmm.View(), old(spaces.spaces), spaces.spaces)
      ensures status != P.PROCESS_WAIT_OK ==> spaces.vmm.View() == old(spaces.vmm.View()) && banker.Tables() == old(banker.Tables())
    {
      hide KernelApart, AddressSpaces.Valid, BankerModule.Banker.Valid, Housed, Pager.Valid, Pager.Faithful, Memories, F.Family,
           Released, SpaceOf, BankerModule.Banker.Tables, Ended, Joined, ProcessModule.ProcessTable.Valid, ClaimsWithout;
      Parts();
      waitedPid, exitCode := 0, 0;
      var slot;
      status, slot := table.FindExited(parentPid, childPid);
      if status == P.PROCESS_WAIT_OK {
        waitedPid, exitCode := table.processes[slot].pid, table.processes[slot].exitCode;
        ghost var v, before := spaces.vmm.View(), spaces.spaces;
        End(slot, n);
        assert GoneFrom(v, spaces.vmm.View(), before, spaces.spaces, slot);
      }
    }

    /** One pass over the table frees the zombies left to pid 0. */
    method ReapZombies(ghost n: nat) returns (reaped: nat)
      requires Valid()
      modifies table.processes, banker.available, banker.processes
      modifies spaces`spaces, spaces.pager, spaces.demo
      modifies spaces.vmm`frames, spaces.vmm`owner, spaces.vmm.pmm`bitmap, spaces.vmm.pmm`freePages
      ensures Valid() && (View(), Reaped(reaped)) == Step(old(View()), Reap) && (old(Supplied(n)) ==> Supplied(n))
    {
      hide KernelApart, AddressSpaces.Valid, BankerModule.Banker.Valid, Housed, Pager.Valid, Pager.Faithful, Memories, F.Family,
           Released, SpaceOf, BankerModule.Banker.Tables, Ended, Joined, ProcessModule.ProcessTable.Valid, ClaimsWithout, Valid,
           View, Supplied;
      Parts();
      reaped := 0;
      ghost var s := View();
      for i := 0 to PROCESS_MAX
        invariant Valid() && View() == ReapedTo(s, i) && reaped == P.OrphanZombies(s.table.processes, i)
        invariant old(Supplied(n)) ==> Supplied(n)
      {
        Parts();
        ReapedRow(s, i);
        if table.processes[i].used && table.processes[i].state.Zombie? && table.processes[i].parentPid == 0 {
          End(i, n);
          reaped := reaped + 1;
        }
      }
    }

    method SetPriority(pid: int, priority: int, ghost n: nat) returns (done: bool)
      requires Valid()
      modifies table.processes
      ensures Valid() && (View(), Set(done)) == Step(old(View()), Event.SetPriority(pid, priority)) && (old(Supplied(n)) ==> Supplied(n))
    {
      hide KernelApart, AddressSpaces.Valid, BankerModule.Banker.Valid, Housed, Pager.Valid, Pager.Faithful, Memories, F.Family,
           Released, SpaceOf, BankerModule.Banker.Tables, Ended, Joined, ProcessModule.ProcessTable.Valid, ClaimsWithout;
      Parts();
      PriorityJoined(table.View(), pid, priority, spaces.spaces, spaces.vmm.current, spaces.vmm.kernel);
      LiveIsFound(table.View(), pid);
      done := table.SetPriority(pid, priority);
    }

    // ---- runs ------------------------------------------------------------------------------------------

    /** Switches to a READY process. */
    method Enter(slot: nat, ghost n: nat)
      requires Valid() && table.currentPid == 0 && slot < PROCESS_MAX && P.Runnable(table.processes[slot]) && Supplied(n)
      modifies table`currentPid, table.processes, spaces.vmm`current
      ensures Valid() && Supplied(n) && View() == old(View()).(table := P.Entered(old(table.View()), slot))
      ensures table.currentPid != 0 && Slot(table.View()) == slot
    {
      hide KernelApart, AddressSpaces.Valid, BankerModule.Banker.Valid, Housed, Pager.Valid, Pager.Faithful, Memories, F.Family,
           Joined, ProcessModule.ProcessTable.Valid;
      Parts();
      EnterJoined(table.View(), slot, spaces.spaces, spaces.vmm.current, spaces.vmm.kernel);
      spaces.OwnDirectories(slot);
      var ok := spaces.SwitchTo(spaces.spaces[slot].dir);
      table.Enter(slot);
    }

    /** Switches back to the kernel's directory and books how the process returned. */
    method Leave(slot: nat, result: nat, ghost n: nat)
      requires Valid() && table.currentPid != 0 && slot == Slot(table.View()) && Supplied(n)
      modifies table`currentPid, table.processes, spaces.vmm`current
      ensures Valid() && Supplied(n) && View() == old(View()).(table := P.Left(old(table.View()), slot, result))
      ensures table.currentPid == 0
    {
      hide KernelApart, AddressSpaces.Valid, BankerModule.Banker.Valid, Housed, Pager.Valid, Pager.Faithful, Memories, F.Family,
           Joined, ProcessModule.ProcessTable.Valid;
      Parts();
      LeaveJoined(table.View(), result, spaces.spaces, spaces.vmm.current, spaces.vmm.kernel);
      spaces.KernelDirectory();
      var ok := spaces.SwitchTo(spaces.vmm.kernel);
      table.Leave(slot, result);
    }

    /** Runs a READY process: its deeds act on its private memory. */
    method ProcessRun(pid: int, deeds: seq<Deed>, result: nat, ghost n: nat) returns (ran: bool, answers: seq<Answer>)
      requires Valid() && table.currentPid == 0 && Supplied(n + CostAll(deeds)) && forall k :: 0 <= k < |deeds| ==> Buildable(deeds[k])
      modifies table`nextPid, table`currentPid, table.processes, spaces`spaces, spaces.pager, spaces.demo
      modifies spaces.vmm`frames, spaces.vmm`owner, spaces.vmm`current, spaces.vmm.pmm`bitmap, spaces.vmm.pmm`freePages
      ensures Valid() && table.currentPid == 0 && Supplied(n)
      ensures ran == P.CanRun(old(View()).table, pid) && View() == RunOf(old(View()), pid, deeds, result).0
      ensures Agree(deeds, answers, RunOf(old(View()), pid, deeds, result).1)
    {
      hide KernelApart, AddressSpaces.Valid, BankerModule.Banker.Valid, Housed, Pager.Valid, Pager.Faithful, Memories, F.Family,
           Joined, ProcessModule.ProcessTable.Valid, Supplied, Valid, Cost, CostAll, ActAll, Act, P.Left, P.Entered, Buildable;
      Parts();
      answers := [];
      var slot := table.FindProcessByPid(pid);
      if slot < 0 || !table.processes[slot].state.Ready? {
        ran := false;
        LessSupplied(n + CostAll(deeds), n);
        return;
      }
      Enter(slot, n + CostAll(deeds));
      ghost var s := View();
      NoDeedsYet(s, deeds);
      for k := 0 to |deeds|
        invariant Valid() && table.currentPid != 0 && Slot(table.View()) == slot
        invariant View() == ActAll(s, deeds[..k]).0 && Agree(deeds, answers, ActAll(s, deeds[..k]).1) && |answers| == k
        invariant CostAll(deeds[..k]) <= CostAll(deeds) && Supplied(n + CostAll(deeds) - CostAll(deeds[..k]))
      {
        Parts();
        OneMoreDeed(s, deeds, k);
        StaysInSlot(View(), deeds[k]);
        var answer := Perform(deeds[k], n + CostAll(deeds) - CostAll(deeds[..k + 1]));
        answers := answers + [answer];
      }
      assert deeds[..|deeds|] == deeds;
      Leave(slot, result, n);
      ran := true;
    }

    /** Runs the process the scheduler picks, and moves the cursor past it. */
    method ScheduleAuto(deeds: seq<Deed>, result: nat, ghost n: nat) returns (pid: int, answers: seq<Answer>)
      requires Valid() && table.currentPid == 0 && Supplied(n + CostAll(deeds)) && forall k :: 0 <= k < |deeds| ==> Buildable(deeds[k])
      modifies table`nextPid, table`currentPid, table`scheduleCursor, table.processes, spaces`spaces, spaces.pager, spaces.demo
      modifies spaces.vmm`frames, spaces.vmm`owner, spaces.vmm`current, spaces.vmm.pmm`bitmap, spaces.vmm.pmm`freePages
      ensures Valid() && table.currentPid == 0 && Supplied(n) && View() == Step(old(View()), Schedule(deeds, result)).0
      ensures Matches(Schedule(deeds, result), Ran(pid, answers), Step(old(View()), Schedule(deeds, result)).1)
    {
      hide KernelApart, AddressSpaces.Valid, BankerModule.Banker.Valid, Housed, Pager.Valid, Pager.Faithful, Memories, F.Family,
           Joined, ProcessModule.ProcessTable.Valid, Supplied, Valid, RunOf, Cost, CostAll, Buildable;
      Parts();
      ghost var s := View();
      var selected := table.SelectNextReadyProcess();
      if selected < 0 {
        LessSupplied(n + CostAll(deeds), n);
        return 0, [];
      }
      pid := table.processes[selected].pid;
      SelectedCanRun(s, selected);
      var ran;
      ran, answers := ProcessRun(pid, deeds, result, n);
      MoveCursor((selected + 1) % PROCESS_MAX, n);
    }

    method MoveCursor(cursor: nat, ghost n: nat)
      requires Valid() && cursor < PROCESS_MAX && Supplied(n)
      modifies table`scheduleCursor
      ensures Valid() && Supplied(n) && View() == old(View()).(table := old(table.View()).(cursor := cursor))
    {
      hide KernelApart, AddressSpaces.Valid, BankerModule.Banker.Valid, Housed, Pager.Valid, Pager.Faithful, Memories, F.Family;
      Parts();
      CursorJoined(table.View(), cursor, spaces.spaces, spaces.vmm.current, spaces.vmm.kernel);
      table.scheduleCursor := cursor;
    }

    /** One call of the kernel: it does, and answers, what the plain kernel does. */
    method Do(e: Event, ghost n: nat) returns (reply: Reply)
      requires Valid() && table.currentPid == 0 && Supplied(n + CostOf(e)) && AllBuildable(e)
      modifies table`nextPid, table`currentPid, table`scheduleCursor, table.processes, banker.available, banker.processes
      modifies spaces`spaces, spaces.pager, spaces.demo
      modifies spaces.vmm`frames, spaces.vmm`owner, spaces.vmm`current, spaces.vmm.pmm`bitmap, spaces.vmm.pmm`freePages
      ensures Valid() && table.currentPid == 0 && Supplied(n) && View() == Step(old(View()), e).0
      ensures Matches(e, reply, Step(old(View()), e).1)
    {
      hide Valid, View, Supplied, RunOf, Ended, ReapedTo, Born, Cost, CostAll, Agree, Buildable;
      match e {
        case Exec(parentPid, image, priority) =>
          PageIsFree(n);
          var pid := SpawnChild(parentPid, image, priority, n);
          reply := Pid(pid);
        case RunPid(pid, deeds, result) =>
          var ran, answers := ProcessRun(pid, deeds, result, n);
          reply := Ran(if ran then pid else 0, answers);
        case Schedule(deeds, result) =>
          var pid, answers := ScheduleAuto(deeds, result, n);
          reply := Ran(pid, answers);
        case Wait(parentPid, childPid) =>
          var status, pid, exitCode := WaitChild(parentPid, childPid, n);
          reply := Waited(status, pid, exitCode);
        case Kill(pid) =>
          var status := Kill(pid, n);
          reply := Reply.Status(status);
        case Reap =>
          var reaped := ReapZombies(n);
          reply := Reaped(reaped);
        case SetPriority(pid, priority) =>
          var done := SetPriority(pid, priority, n);
          reply := Set(done);
      }
    }

    lemma {:induction false} PageIsFree(n: nat)
      requires Supplied(n + 1)
      ensures Valid() && spaces.vmm.pmm.freePages > 0
    {
      hide KernelApart, AddressSpaces.Valid, Joined, ProcessModule.ProcessTable.Valid, BankerModule.Banker.Valid;
      spaces.HoldsItsLimit();
    }

    /** Any run of kernel calls, with whatever the processes do in between: the replies and the
        final state are those of the plain kernel, in which every process has a memory of its
        own. Premise: a page to spare for each deed that may need one. */
    method RunScript(events: seq<Event>) returns (replies: seq<Reply>)
      requires Valid() && table.currentPid == 0 && Supplied(CostOfAll(events)) && forall k :: 0 <= k < |events| ==> AllBuildable(events[k])
      modifies table`nextPid, table`currentPid, table`scheduleCursor, table.processes, banker.available, banker.processes
      modifies spaces`spaces, spaces.pager, spaces.demo
      modifies spaces.vmm`frames, spaces.vmm`owner, spaces.vmm`current, spaces.vmm.pmm`bitmap, spaces.vmm.pmm`freePages
      ensures Valid() && table.currentPid == 0 && spaces.pager.Faithful() && View() == Run(old(View()), events).0
      ensures |replies| == |events| && forall k :: 0 <= k < |events| ==> Matches(events[k], replies[k], Run(old(View()), events).1[k])
    {
      hide Valid, View, Supplied, Step, Matches, CostOf, CostOfAll, AllBuildable, Run;
      replies := [];
      ghost var s := View();
      NoEventsYet(s, events);
      for k := 0 to |events|
        invariant Valid() && table.currentPid == 0 && View() == Run(s, events[..k]).0
        invariant |replies| == k == |Run(s, events[..k]).1|
        invariant forall j :: 0 <= j < k ==> Matches(events[j], replies[j], Run(s, events[..k]).1[j])
        invariant CostOfAll(events[..k]) <= CostOfAll(events) && Supplied(CostOfAll(events) - CostOfAll(events[..k]))
      {
        OneMoreEvent(s, events, k);
        var reply := Do(events[k], CostOfAll(events) - CostOfAll(events[..k + 1]));
        replies := replies + [reply];
      }
      assert events[..|events|] == events;
      IsFaithful(0);
    }

    /** However long the kernel has run: once no process is left, exactly the pages that were
        free when it started are free. */
    lemma {:induction false} NothingLeaks()
      requires Valid() && forall i :: 0 <= i < table.processes.Length ==> !table.processes[i].used
      ensures FreeSet(spaces.vmm.View()) == spaces.boot.free && spaces.vmm.pmm.freePages == |spaces.boot.free|
      ensures forall i :: 0 <= i < PROCESS_MAX ==> View().memory[i] == map[]
    {
      hide AddressSpaces.Valid, KernelApart, BankerModule.Banker.Valid, ProcessModule.ProcessTable.Valid, F.Family;
      spaces.NoDemoPagesLeft();
      spaces.NothingLeaks();
    }

    lemma {:induction false} IsFaithful(n: nat)
      requires Supplied(n)
      ensures Valid() && spaces.pager.Faithful()
    {
    }

    /** With less to do, what is supplied suffices. */
    lemma {:induction false} LessSupplied(n: nat, m: nat)
      requires Supplied(n) && m <= n
      ensures Supplied(m)
    {
    }

    lemma {:induction false} DirsAreOwned()
      requires Valid()
      ensures forall i :: 0 <= i < |spaces.spaces| && spaces.spaces[i].Space? ==> spaces.spaces[i].dir in spaces.vmm.owner
    {
      hide ProcessModule.ProcessTable.Valid, AddressSpaces.Valid, BankerModule.Banker.Valid, F.Family;
      forall i | 0 <= i < |spaces.spaces| && spaces.spaces[i].Space? ensures spaces.spaces[i].dir in spaces.vmm.owner {
        spaces.OwnDirectories(i);
      }
    }
  }

  /** From the boot information to a kernel without processes. It has what its pager needs, and
      pages for deeds of cost `n`, exactly if so many are left at boot. */
  method PowerOn(boot: Boot, kernelEnd: U32, memory: seq<Frame>, pageZero: seq<Byte>) returns (ok: bool, life: Life?)
    requires 0 < kernelEnd && KernelFits(kernelEnd, DetectTotalMemory(boot)) && DetectTotalMemory(boot) <= 0x4000_0000
    requires |memory| == DetectTotalMemory(boot) / PAGE_SIZE && |pageZero| == PAGE_SIZE
    ensures ok <==> |PagesAtBoot(boot, kernelEnd)| > TablesFor(AlignDown(DetectTotalMemory(boot)))
    ensures ok <==> life != null
    ensures ok ==> life.Valid() && life.table.currentPid == 0 && life.View() == Fresh(PROCESS_MAX)
    ensures ok ==> forall n: nat :: life.Supplied(n) <==>
                     |PagesAtBoot(boot, kernelEnd)| - 1 - TablesFor(AlignDown(DetectTotalMemory(boot))) >= PAGER_FRAME_LIMIT + n
  {
    hide KernelFits, PagesAtBoot, TablesFor, AlignDown, DetectTotalMemory, AddressSpaces.Valid, Pager.Valid, Pager.Faithful, MemDemo.Valid,
         KernelApart, Rested, Joined, Memories, BankerModule.Banker.Valid, ProcessModule.ProcessTable.Valid;
    life := null;
    var spaces;
    ok, spaces := Start(boot, kernelEnd, memory, pageZero);
    if ok {
      var table := new ProcessModule.ProcessTable.Init(PROCESS_MAX);
      var banker := new BankerModule.Banker(BankerModule.BANKER_RESOURCE_COUNT, BankerModule.BANKER_MAX_PROCESSES);
      life := new Life(table, spaces, banker);
    }
  }

  lemma {:induction false} KernelHalf(virt: U32)
    requires virt >= VMM_KERNEL_BASE
    ensures AlignDown(virt) >= VMM_KERNEL_BASE
  {
  }
}
