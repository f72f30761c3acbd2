/** What becomes of a process: its parent, its priority, its state and its exit code, from the
    call that makes it to the one that collects it. */
module ProcessLaws {
  import opened ProcessSpec
  import F = ProcessFamily

  /** The pid a call runs, or 0. */
  function RunBy(t: Table, e: Event): int {
    match e
    case RunPid(pid, _, _) => pid
    case Schedule(_, _) => if Selected(t) < 0 then 0 else t.processes[Selected(t)].pid
    case _ => 0
  }

  predicate SameProcess(p: Process, q: Process) {
    p.used && q.used && q.pid == p.pid
  }

  /** What a call may change about a process that lives on. */
  ghost predicate Fate(t: Table, e: Event, u: Table, p: Process, q: Process) {
    && (q.parentPid == p.parentPid || (q.parentPid == 0 && !F.LivePid(u.processes, p.parentPid)))
    && (q.priority == p.priority || (e.SetPriority? && e.pid == p.pid && e.priority == q.priority))
    && (p.state.Zombie? || RunBy(t, e) != p.pid ==> q.state == p.state && q.exitCode == p.exitCode)
  }

  lemma {:induction false} SpawnFate(t: Table, a: SpawnArgs, j: nat)
    requires F.Family(t) && j < |t.processes| && t.processes[j].used
    ensures Spawned(t, a).processes[j] == t.processes[j]
  {
  }

  /** Releasing a process frees its slot, and its children go to pid 0. */
  lemma {:induction false} ReleaseFate(t: Table, slot: nat, j: nat)
    requires F.Family(t) && slot < |t.processes| && j < |t.processes| && t.processes[slot].used && !t.processes[slot].state.Running?
    ensures j == slot ==> !Released(t.processes, slot)[j].used
    ensures !F.LivePid(Released(t.processes, slot), t.processes[slot].pid)
    ensures j != slot && t.processes[j].used ==>
              var p, q := t.processes[j], Released(t.processes, slot)[j];
              q == p.(parentPid := q.parentPid)
              && q.parentPid == if p.parentPid == t.processes[slot].pid then 0 else p.parentPid
  {
    assert F.RowOk(t, t.processes[slot]);
  }

  /** A process that runs keeps its slot, and every other its row, but for children left behind. */
  lemma {:induction false} RunFate(t: Table, pid: int, script: seq<UserAction>, result: nat, j: nat)
    requires F.Family(t) && t.currentPid == 0 && CanRun(t, pid) && j < |t.processes| && t.processes[j].used
    ensures var p, q := t.processes[j], Ran(t, pid, script, result).processes[j];
            && SameProcess(p, q) && q.priority == p.priority
            && (p.pid == pid ==>
                  q.state == (if result == USERMODE_RETURN_YIELD then Ready else Zombie)
                  && q.exitCode == (if result == USERMODE_RETURN_YIELD then p.exitCode else result))
            && (p.pid != pid ==> q.state == p.state && q.exitCode == p.exitCode)
            && (q.parentPid == p.parentPid
                || (p.parentPid == pid && q.parentPid == 0 && !F.LivePid(Ran(t, pid, script, result).processes, pid)))
  {
    hide F.Family, ActedAll;
    var slot := FindByPid(t.processes, pid, 0);
    var entered := Entered(t, slot);
    F.EnterKeepsFamily(t, slot);
    F.ActedKeepsFamily(entered, script);
    var acted := ActedAll(entered, script);
    F.LeaveKeepsFamily(acted, slot, result);
    OneOfEach(t, slot);
    OneOfEach(acted, slot);
  }

  lemma {:induction false} OneOfEach(t: Table, slot: nat)
    requires F.Family(t) && slot < |t.processes| && t.processes[slot].used
    ensures t.processes[slot].pid > 0 && t.processes[slot].parentPid != t.processes[slot].pid
    ensures forall j :: 0 <= j < |t.processes| && t.processes[j].used && t.processes[j].pid == t.processes[slot].pid ==> j == slot
  {
    assert F.RowOk(t, t.processes[slot]);
  }

  lemma {:induction false} RanFate(t: Table, e: Event, pid: int, script: seq<UserAction>, result: nat, j: nat)
    requires F.Family(t) && t.currentPid == 0 && RunBy(t, e) == pid && j < |t.processes| && t.processes[j].used
    ensures Fate(t, e, Ran(t, pid, script, result), t.processes[j], Ran(t, pid, script, result).processes[j])
  {
    hide F.Family, Ran, RunBy;
    if CanRun(t, pid) {
      RunFate(t, pid, script, result, j);
      OneOfEach(t, FindByPid(t.processes, pid, 0));
    } else {
      StaysPut(t, pid, script, result);
    }
  }

  lemma {:induction false} StaysPut(t: Table, pid: int, script: seq<UserAction>, result: nat)
    ensures !CanRun(t, pid) ==> Ran(t, pid, script, result) == t
  {
  }

  lemma {:induction false} ReapFate(t: Table, j: nat)
    requires F.Family(t) && j < |t.processes| && t.processes[j].used && Reaped(t).processes[j].used
    ensures Reaped(t).processes[j] == t.processes[j]
  {
    F.ReapedExactly(t, |t.processes|);
  }

  lemma {:induction false} EndFate(t: Table, e: Event, slot: nat, j: nat)
    requires F.Family(t) && slot < |t.processes| && j < |t.processes| && t.processes[slot].used && !t.processes[slot].state.Running?
    requires t.processes[j].used && Released(t.processes, slot)[j].used
    ensures Fate(t, e, t.(processes := Released(t.processes, slot)), t.processes[j], Released(t.processes, slot)[j])
  {
    hide F.Family, Released;
    ReleaseFate(t, slot, j);
  }

  /** The fate of a process in a call it survives. */
  lemma {:induction false} StepFate(t: Table, e: Event, j: nat)
    requires F.Family(t) && t.currentPid == 0 && j < |t.processes| && SameProcess(t.processes[j], Step(t, e).processes[j])
    ensures Fate(t, e, Step(t, e), t.processes[j], Step(t, e).processes[j])
  {
    hide F.Family, Ran, Released, Candidate, RunBy;
    match e
    case Spawn(args) => SpawnFate(t, args, j);
    case RunPid(pid, script, result) =>
      RunsIt(t, e);
      RanFate(t, e, pid, script, result, j);
    case Schedule(script, result) =>
      if Selected(t) >= 0 {
        RunsIt(t, e);
        RanFate(t, e, t.processes[Selected(t)].pid, script, result, j);
      }
    case Wait(parentPid, childPid) =>
      if WaitStatus(t, parentPid, childPid) == PROCESS_WAIT_OK {
        EndFate(t, e, FirstExited(t.processes, parentPid, childPid, 0), j);
      }
    case Kill(pid) =>
      if KillStatus(t, pid) == PROCESS_KILL_OK {
        EndFate(t, e, FindByPid(t.processes, pid, 0), j);
      }
    case Reap => ReapFate(t, j);
    case SetPriority(pid, priority) =>
  }

  lemma {:induction false} RunsIt(t: Table, e: Event)
    ensures e.RunPid? ==> RunBy(t, e) == e.pid
    ensures e.Schedule? && Selected(t) >= 0 ==> RunBy(t, e) == t.processes[Selected(t)].pid
  {
  }
}
