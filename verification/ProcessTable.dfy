/** The process module: a fixed table updated in place. */
module ProcessModule {
  import opened ProcessSpec
  import opened ProcessFamily

  const PROCESS_MAX := 8

  class ProcessTable {
    const processes: array<Process>
    var nextPid: int
    var currentPid: int
    var scheduleCursor: nat

    ghost function View(): Table
      reads this, processes
    {
      Table(processes[..], nextPid, currentPid, scheduleCursor)
    }

    ghost predicate Valid()
      reads this, processes
    {
      processes.Length > 0 && Family(View())
    }

    constructor Init(slots: nat)
      requires slots > 0
      ensures Valid() && fresh(processes) && View() == Booted(slots)
    {
      processes := new Process[slots](_ => FREED);
      nextPid := 1;
      currentPid := 0;
      scheduleCursor := 0;
      new;
      assert processes[..] == Booted(slots).processes;
      BootIsFamily(slots);
    }

    method FindProcessByPid(pid: int) returns (slot: int)
      ensures slot == FindByPid(processes[..], pid, 0)
    {
      for i := 0 to processes.Length
        invariant FindByPid(processes[..], pid, 0) == FindByPid(processes[..], pid, i)
      {
        if processes[i].used && processes[i].pid == pid {
          return i;
        }
      }
      return -1;
    }

    /** Fills the first free slot with a READY skeleton and consumes a pid. */
    method AllocateProcess() returns (slot: int)
      modifies this`nextPid, processes
      ensures slot == FindFree(old(processes[..]), 0)
      ensures slot < 0 ==> View() == old(View())
      ensures slot >= 0 ==>
                && nextPid == old(nextPid) + 1
                && processes[..] == old(processes[..])[slot := Process(true, old(nextPid), 0, Ready, PROCESS_PRIORITY_DEFAULT, 0)]
    {
      for i := 0 to processes.Length
        invariant View() == old(View())
        invariant FindFree(processes[..], 0) == FindFree(processes[..], i)
      {
        if !processes[i].used {
          processes[i] := Process(true, nextPid, 0, Ready, PROCESS_PRIORITY_DEFAULT, 0);
          nextPid := nextPid + 1;
          return i;
        }
      }
      return -1;
    }

    /** The checks of a spawn and the slot it fills; -1 if it is refused. */
    method TakeSlot(parentPid: int, imageFits: bool, priority: int) returns (slot: int)
      requires Valid()
      modifies this`nextPid, processes
      ensures Valid() && View() == Spawned(old(View()), SpawnArgs(parentPid, imageFits, priority, true))
      ensures slot == if SpawnAllowed(old(View()), SpawnArgs(parentPid, imageFits, priority, true)) then FindFree(old(processes[..]), 0) else -1
    {
      SpawnKeepsFamily(View(), SpawnArgs(parentPid, imageFits, priority, true));
      var parent := FindProcessByPid(parentPid);
      var parentValid := parentPid == 0 || (parent >= 0 && !processes[parent].state.Zombie?);
      if !imageFits || !parentValid || priority < PROCESS_PRIORITY_MIN || priority > PROCESS_PRIORITY_MAX {
        return -1;
      }
      slot := AllocateProcess();
      if slot >= 0 {
        processes[slot] := processes[slot].(parentPid := parentPid, priority := priority);
      }
      assert View() == Spawned(old(View()), SpawnArgs(parentPid, imageFits, priority, true));
    }

    /** A slot just taken is free again; its pid stays used up. */
    method GiveUpSlot(slot: nat, ghost before: Table, ghost args: SpawnArgs)
      requires processes.Length > 0 && Family(before) && !args.memoryFound && SpawnAllowed(before, args) && slot == FindFree(before.processes, 0)
      requires View() == Spawned(before, args.(memoryFound := true))
      modifies processes
      ensures Valid() && View() == Spawned(before, args)
    {
      SpawnKeepsFamily(before, args);
      processes[slot] := processes[slot].(used := false, state := Unused);
      assert View() == Spawned(before, args);
    }

    method SpawnChild(args: SpawnArgs) returns (pid: int)
      requires Valid()
      modifies this`nextPid, processes
      ensures Valid()
      ensures pid == SpawnPid(old(View()), args) && View() == Spawned(old(View()), args)
    {
      ghost var before := View();
      var slot := TakeSlot(args.parentPid, args.imageFits, args.priority);
      if slot < 0 {
        return 0;
      }
      if !args.memoryFound {
        GiveUpSlot(slot, before, args);
        return 0;
      }
      return processes[slot].pid;
    }

    method AdoptChildren(parentPid: int)
      modifies processes
      ensures processes[..] == Adopted(old(processes[..]), parentPid)
    {
      if parentPid == 0 {
        assert processes[..] == Adopted(processes[..], 0);
        return;
      }
      for i := 0 to processes.Length
        invariant forall j :: 0 <= j < i ==> processes[j] == Adopt(old(processes[j]), parentPid)
        invariant forall j :: i <= j < processes.Length ==> processes[j] == old(processes[j])
      {
        if processes[i].used && processes[i].parentPid == parentPid {
          processes[i] := processes[i].(parentPid := 0);
        }
      }
    }

    method ReleaseProcess(slot: nat)
      requires Valid() && slot < processes.Length
      modifies processes
      ensures Valid() && View() == old(View()).(processes := Released(old(processes[..]), slot))
    {
      ReleaseKeepsFamily(View(), slot);
      if !processes[slot].used || processes[slot].state.Running? {
        return;
      }
      AdoptChildren(processes[slot].pid);
      processes[slot] := FREED;
    }

    /** A system call of the running process that spawns a built-in child. */
    method SpawnBuiltinChildForCurrent(knownApp: bool, memoryFound: bool) returns (pid: int)
      requires Valid()
      modifies this`nextPid, processes
      ensures Valid() && View() == Acted(old(View()), SpawnBuiltin(knownApp, memoryFound))
      ensures pid == if currentPid == 0 || !knownApp then 0
                     else SpawnPid(old(View()), SpawnArgs(currentPid, true, PROCESS_PRIORITY_DEFAULT, memoryFound))
    {
      if currentPid == 0 {
        return 0;
      }
      var parent := FindProcessByPid(currentPid);
      if parent < 0 || !processes[parent].state.Running? {
        return 0;
      }
      if !knownApp {
        return 0;
      }
      pid := SpawnChild(SpawnArgs(currentPid, true, PROCESS_PRIORITY_DEFAULT, memoryFound));
    }

    /** A READY process becomes the running one. */
    method Enter(slot: nat)
      requires Valid() && currentPid == 0 && slot < processes.Length && Runnable(processes[slot])
      modifies this`currentPid, processes
      ensures Valid() && View() == Entered(old(View()), slot)
    {
      EnterKeepsFamily(View(), slot);
      currentPid := processes[slot].pid;
      processes[slot] := processes[slot].(state := Running);
    }

    /** The running process is back: READY after a yield, else a zombie without children. */
    method Leave(slot: nat, result: nat)
      requires Valid() && slot < processes.Length && processes[slot].used && processes[slot].pid == currentPid
      modifies this`currentPid, processes
      ensures Valid() && View() == Left(old(View()), slot, result)
    {
      LeaveKeepsFamily(View(), slot, result);
      if result == USERMODE_RETURN_YIELD {
        processes[slot] := processes[slot].(state := Ready);
      } else {
        processes[slot] := processes[slot].(exitCode := result, state := Zombie);
        AdoptChildren(processes[slot].pid);
      }
      currentPid := 0;
    }

    /** Runs a READY process until it yields, is preempted or exits: `script` is what
        it does in user mode and `result` how it comes back. */
    method ProcessRun(pid: int, script: seq<UserAction>, result: nat) returns (ran: bool)
      requires Valid() && currentPid == 0
      modifies this`nextPid, this`currentPid, processes
      ensures Valid() && currentPid == 0
      ensures ran == CanRun(old(View()), pid) && View() == Ran(old(View()), pid, script, result)
    {
      var slot := FindProcessByPid(pid);
      if slot < 0 || !processes[slot].state.Ready? {
        return false;
      }
      Enter(slot);
      ghost var entered := View();
      for k := 0 to |script|
        invariant Valid() && View() == ActedAll(entered, script[..k])
      {
        assert script[..k + 1][..k] == script[..k];
        var _ := SpawnBuiltinChildForCurrent(script[k].knownApp, script[k].memoryFound);
      }
      assert script[..|script|] == script;
      ActedKeepsFamily(entered, script);
      Leave(slot, result);
      return true;
    }

    method SelectNextReadyProcess() returns (selected: int)
      requires Valid()
      ensures selected == Selected(View())
    {
      selected := -1;
      var bestPriority := PROCESS_PRIORITY_MIN - 1;
      for offset := 0 to processes.Length
        invariant selected == Candidate(View(), offset)
        invariant bestPriority == if selected < 0 then PROCESS_PRIORITY_MIN - 1 else processes[selected].priority
      {
        var i := (scheduleCursor + offset) % processes.Length;
        if processes[i].used && processes[i].state.Ready? && processes[i].priority > bestPriority {
          bestPriority := processes[i].priority;
          selected := i;
        }
      }
    }

    method ScheduleAuto(script: seq<UserAction>, result: nat) returns (pid: int)
      requires Valid() && currentPid == 0
      modifies this, processes
      ensures Valid() && currentPid == 0
      ensures View() == Scheduled(old(View()), script, result)
      ensures pid == if Selected(old(View())) < 0 then 0 else old(View()).processes[Selected(old(View()))].pid
    {
      ScheduleKeepsFamily(View(), script, result);
      var selected := SelectNextReadyProcess();
      if selected < 0 {
        return 0;
      }
      pid := processes[selected].pid;
      FindsOwnSlot(processes[..], selected);
      var ran := ProcessRun(pid, script, result);
      if !ran {
        return 0;
      }
      scheduleCursor := (selected + 1) % processes.Length;
    }

    /** The status of a wait, and the slot of the child to collect, or -1. */
    method FindExited(parentPid: int, childPid: int) returns (status: int, selected: int)
      requires Valid()
      ensures status == WaitStatus(View(), parentPid, childPid)
      ensures selected == if status == PROCESS_WAIT_OK then FirstExited(processes[..], parentPid, childPid, 0) else -1
    {
      selected := -1;
      var parent := FindProcessByPid(parentPid);
      if parentPid != 0 && parent < 0 {
        return PROCESS_WAIT_BAD_PARENT, selected;
      }
      var hasChild := false;
      for i := 0 to processes.Length
        invariant selected == -1
        invariant FirstExited(processes[..], parentPid, childPid, 0) == FirstExited(processes[..], parentPid, childPid, i)
        invariant hasChild <==> exists j :: 0 <= j < i && IsChild(processes[j], parentPid, childPid)
      {
        if !processes[i].used || processes[i].parentPid != parentPid {
          continue;
        }
        if childPid != 0 && processes[i].pid != childPid {
          continue;
        }
        hasChild := true;
        if processes[i].state.Zombie? {
          return PROCESS_WAIT_OK, i;
        }
      }
      status := if hasChild then PROCESS_WAIT_NOT_EXITED else PROCESS_WAIT_NO_CHILD;
    }

    method WaitChild(parentPid: int, childPid: int) returns (status: int, waitedPid: int, exitCode: nat)
      requires Valid()
      modifies processes
      ensures Valid()
      ensures status == WaitStatus(old(View()), parentPid, childPid)
      ensures View() == Waited(old(View()), parentPid, childPid)
      ensures status == PROCESS_WAIT_OK ==>
                var z := old(View()).processes[FirstExited(old(View()).processes, parentPid, childPid, 0)];
                waitedPid == z.pid && exitCode == z.exitCode
    {
      waitedPid, exitCode := 0, 0;
      var selected;
      status, selected := FindExited(parentPid, childPid);
      if status == PROCESS_WAIT_OK {
        waitedPid, exitCode := processes[selected].pid, processes[selected].exitCode;
        ReleaseProcess(selected);
      }
    }

    method Kill(pid: int) returns (status: int)
      requires Valid()
      modifies processes
      ensures Valid() && status == KillStatus(old(View()), pid) && View() == Killed(old(View()), pid)
    {
      var slot := FindProcessByPid(pid);
      if slot < 0 {
        return PROCESS_KILL_NOT_FOUND;
      }
      if processes[slot].state.Running? {
        return PROCESS_KILL_RUNNING;
      }
      ReleaseProcess(slot);
      return PROCESS_KILL_OK;
    }

    /** One pass frees exactly the zombies left to pid 0. */
    method ReapZombies() returns (reaped: nat)
      requires Valid()
      modifies processes
      ensures Valid() && View() == Reaped(old(View()))
      ensures forall i :: 0 <= i < processes.Length ==>
                processes[i] == if OrphanZombie(old(processes[i])) then FREED else old(processes[i])
      ensures reaped == OrphanZombies(old(processes[..]), processes.Length)
    {
      reaped := 0;
      ghost var t := View();
      for i := 0 to processes.Length
        invariant processes[..] == ReapedTo(t.processes, i)
        invariant Valid() && View() == t.(processes := processes[..])
        invariant reaped == OrphanZombies(t.processes, i)
      {
        ReapedExactly(t, i);
        if processes[i].used && processes[i].state.Zombie? && processes[i].parentPid == 0 {
          ReleaseProcess(i);
          reaped := reaped + 1;
        }
      }
      ReapedExactly(t, processes.Length);
      assert processes[..] == Reaped(t).processes;
    }

    method SetPriority(pid: int, priority: int) returns (done: bool)
      requires Valid()
      modifies processes
      ensures Valid() && View() == Reprioritised(old(View()), pid, priority)
      ensures done <==> PROCESS_PRIORITY_MIN <= priority <= PROCESS_PRIORITY_MAX && LivePid(old(processes[..]), pid)
    {
      ReprioritiseKeepsFamily(View(), pid, priority);
      if priority < PROCESS_PRIORITY_MIN || priority > PROCESS_PRIORITY_MAX {
        return false;
      }
      var slot := FindProcessByPid(pid);
      if slot < 0 || processes[slot].state.Zombie? {
        return false;
      }
      processes[slot] := processes[slot].(priority := priority);
      return true;
    }
  }
}
