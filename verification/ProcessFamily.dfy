/** The family invariant of the process table, and what it buys. */
module ProcessFamily {
  import opened ProcessSpec

  ghost predicate LivePid(processes: seq<Process>, pid: int) {
    exists j :: 0 <= j < |processes| && processes[j].used && processes[j].pid == pid && !processes[j].state.Zombie?
  }

  ghost predicate ParentLives(processes: seq<Process>, p: Process) {
    p.parentPid == 0 || (0 < p.parentPid < p.pid && LivePid(processes, p.parentPid))
  }

  ghost predicate UniquePids(processes: seq<Process>) {
    forall i, j :: 0 <= i < j < |processes| && processes[i].used && processes[j].used ==>
                     processes[i].pid != processes[j].pid
  }

  ghost predicate RowOk(t: Table, p: Process) {
    p.used ==>
      && 0 < p.pid < t.nextPid
      && (p.state.Ready? || p.state.Running? || p.state.Zombie?)
      && PROCESS_PRIORITY_MIN <= p.priority <= PROCESS_PRIORITY_MAX
      && ParentLives(t.processes, p)
      && (p.state.Running? <==> p.pid == t.currentPid)
  }

  ghost predicate CurrentRuns(t: Table) {
    t.currentPid != 0 ==>
      exists j :: 0 <= j < |t.processes| && t.processes[j].used && t.processes[j].pid == t.currentPid
  }

  /** Pids are unique and below the next one; every parent is 0 or a live process with
      a smaller pid; the RUNNING process is exactly the current one. */
  ghost predicate Family(t: Table) {
    && 1 <= t.nextPid
    && (|t.processes| > 0 ==> t.cursor < |t.processes|)
    && UniquePids(t.processes)
    && (forall i :: 0 <= i < |t.processes| ==> RowOk(t, t.processes[i]))
    && CurrentRuns(t)
  }

  // ---- consequences ---------------------------------------------------------------

  /** No zombie has children, and at most one process is RUNNING. */
  lemma {:induction false} NoZombieHasChildren(t: Table, z: nat, c: nat)
    requires Family(t) && z < |t.processes| && c < |t.processes|
    requires t.processes[z].used && t.processes[z].state.Zombie? && t.processes[c].used
    ensures t.processes[c].parentPid != t.processes[z].pid
  {
    assert RowOk(t, t.processes[c]) && RowOk(t, t.processes[z]);
  }

  lemma {:induction false} FindsOwnSlot(processes: seq<Process>, slot: nat)
    requires UniquePids(processes) && slot < |processes| && processes[slot].used
    ensures FindByPid(processes, processes[slot].pid, 0) == slot
  {
  }

  /** Releasing a process without children changes its own slot only. */
  lemma {:induction false} ReleasedChildless(processes: seq<Process>, slot: nat)
    requires slot < |processes| && processes[slot].used && !processes[slot].state.Running?
    requires forall c :: 0 <= c < |processes| && processes[c].used ==> processes[c].parentPid != processes[slot].pid
    ensures Released(processes, slot) == processes[slot := FREED]
  {
    assert Adopted(processes, processes[slot].pid) == processes;
  }

  // ---- every call keeps the family --------------------------------------------------

  lemma {:induction false} SpawnKeepsFamily(t: Table, a: SpawnArgs)
    requires Family(t)
    ensures Family(Spawned(t, a))
  {
    var u := Spawned(t, a);
    var slot := FindFree(t.processes, 0);
    if u != t {
      forall i | 0 <= i < |u.processes| ensures RowOk(u, u.processes[i]) {
        var p := u.processes[i];
        if p.used {
          var parent := FindByPid(t.processes, a.parentPid, 0);
          if i != slot {
            assert RowOk(t, p);
            LiveStays(t.processes, u.processes, p.parentPid, slot);
          } else if a.parentPid != 0 {
            assert RowOk(t, t.processes[parent]);
            assert u.processes[parent] == t.processes[parent];
          }
        }
      }
      if u.currentPid != 0 {
        var j :| 0 <= j < |t.processes| && t.processes[j].used && t.processes[j].pid == t.currentPid;
        assert u.processes[j] == t.processes[j];
      }
    }
  }

  /** A live process outside `slot` is still there after `slot` is rewritten. */
  lemma {:induction false} LiveStays(before: seq<Process>, after: seq<Process>, pid: int, slot: nat)
    requires slot < |before| == |after| && after == before[slot := after[slot]]
    requires !before[slot].used || before[slot].pid != pid || before[slot].state.Zombie?
    ensures LivePid(before, pid) ==> LivePid(after, pid)
  {
    if LivePid(before, pid) {
      var j :| 0 <= j < |before| && before[j].used && before[j].pid == pid && !before[j].state.Zombie?;
      assert after[j] == before[j];
    }
  }

  /** Taking a process that is not running out of the live ones, and handing its
      children to pid 0, keeps the family: this is exit and release alike. */
  lemma {:induction false} DepartureKeepsFamily(t: Table, u: Table, slot: nat, row: Process)
    requires Family(t) && slot < |t.processes| && t.processes[slot].used
    requires u == t.(processes := Adopted(t.processes, t.processes[slot].pid)[slot := row], currentPid := u.currentPid)
    requires t.processes[slot].pid == t.currentPid ==> u.currentPid == 0
    requires t.processes[slot].pid != t.currentPid ==> u.currentPid == t.currentPid
    requires row.used ==> row == t.processes[slot].(state := Zombie, exitCode := row.exitCode)
    ensures Family(u)
  {
    var pid := t.processes[slot].pid;
    forall i | 0 <= i < |u.processes| ensures RowOk(u, u.processes[i]) {
      var p, q := t.processes[i], u.processes[i];
      assert RowOk(t, p);
      if q.used && q.parentPid != 0 {
        assert q.parentPid == p.parentPid != pid;
        ParentStays(t.processes, u.processes, q, slot, pid);
      }
    }
    if u.currentPid != 0 {
      var j :| 0 <= j < |t.processes| && t.processes[j].used && t.processes[j].pid == t.currentPid;
      assert u.processes[j] == Adopt(t.processes[j], pid);
    }
  }

  /** A parent other than the one that departs is still there. */
  lemma {:induction false} ParentStays(before: seq<Process>, after: seq<Process>, child: Process, slot: nat, pid: int)
    requires slot < |before| == |after| && before[slot].used && before[slot].pid == pid
    requires forall k :: 0 <= k < |before| && k != slot ==> after[k] == Adopt(before[k], pid)
    requires child.parentPid != 0 && child.parentPid != pid && ParentLives(before, child)
    ensures ParentLives(after, child)
  {
    var j :| 0 <= j < |before| && before[j].used && before[j].pid == child.parentPid && !before[j].state.Zombie?;
    assert after[j] == Adopt(before[j], pid);
  }

  lemma {:induction false} ReleaseKeepsFamily(t: Table, slot: nat)
    requires Family(t) && slot < |t.processes|
    ensures Family(t.(processes := Released(t.processes, slot)))
  {
    var p := t.processes[slot];
    assert RowOk(t, p);
    if p.used && !p.state.Running? {
      DepartureKeepsFamily(t, t.(processes := Released(t.processes, slot)), slot, FREED);
    }
  }

  lemma {:induction false} EnterKeepsFamily(t: Table, slot: nat)
    requires Family(t) && t.currentPid == 0 && slot < |t.processes| && Runnable(t.processes[slot])
    ensures Family(Entered(t, slot))
  {
    var u := Entered(t, slot);
    forall i | 0 <= i < |u.processes| ensures RowOk(u, u.processes[i]) {
      assert RowOk(t, t.processes[i]);
      StateChangeKeepsLive(t.processes, u.processes, slot, u.processes[i].parentPid);
    }
    assert u.processes[slot].used;
  }

  lemma {:induction false} StateChangeKeepsLive(before: seq<Process>, after: seq<Process>, slot: nat, pid: int)
    requires slot < |before| == |after| && after == before[slot := before[slot].(state := after[slot].state)]
    requires !after[slot].state.Zombie?
    ensures LivePid(before, pid) ==> LivePid(after, pid)
  {
    if LivePid(before, pid) {
      var j :| 0 <= j < |before| && before[j].used && before[j].pid == pid && !before[j].state.Zombie?;
      assert after[j].used && after[j].pid == pid;
    }
  }

  /** What a user script leaves alone: every slot in use, the current pid, the cursor. */
  lemma {:induction false} ActedKeepsFamily(t: Table, script: seq<UserAction>)
    requires Family(t)
    ensures Family(ActedAll(t, script))
    ensures |ActedAll(t, script).processes| == |t.processes|
    ensures ActedAll(t, script).currentPid == t.currentPid && ActedAll(t, script).cursor == t.cursor
    ensures forall i :: 0 <= i < |t.processes| && t.processes[i].used ==> ActedAll(t, script).processes[i] == t.processes[i]
  {
    if script != [] {
      var u := ActedAll(t, script[..|script| - 1]);
      ActedKeepsFamily(t, script[..|script| - 1]);
      SpawnKeepsFamily(u, SpawnArgs(u.currentPid, true, PROCESS_PRIORITY_DEFAULT, script[|script| - 1].memoryFound));
    }
  }

  lemma {:induction false} LeaveKeepsFamily(t: Table, slot: nat, result: nat)
    requires Family(t) && slot < |t.processes| && t.processes[slot].used && t.processes[slot].pid == t.currentPid
    ensures Family(Left(t, slot, result))
  {
    var u := Left(t, slot, result);
    assert RowOk(t, t.processes[slot]);
    if result == USERMODE_RETURN_YIELD {
      forall i | 0 <= i < |u.processes| ensures RowOk(u, u.processes[i]) {
        assert RowOk(t, t.processes[i]);
        StateChangeKeepsLive(t.processes, u.processes, slot, u.processes[i].parentPid);
      }
    } else {
      var row := t.processes[slot].(exitCode := result, state := Zombie);
      assert u.processes == Adopted(t.processes, t.currentPid)[slot := row];
      DepartureKeepsFamily(t, u, slot, row);
    }
  }

  lemma {:induction false} RunKeepsFamily(t: Table, pid: int, script: seq<UserAction>, result: nat)
    requires Family(t) && t.currentPid == 0
    ensures Family(Ran(t, pid, script, result)) && Ran(t, pid, script, result).currentPid == 0
    ensures Ran(t, pid, script, result).cursor == t.cursor
    ensures |Ran(t, pid, script, result).processes| == |t.processes|
  {
    if CanRun(t, pid) {
      var slot := FindByPid(t.processes, pid, 0);
      EnterKeepsFamily(t, slot);
      ActedKeepsFamily(Entered(t, slot), script);
      LeaveKeepsFamily(ActedAll(Entered(t, slot), script), slot, result);
    }
  }

  // ---- reaping: one pass is enough ------------------------------------------------

  /** A reaping pass frees exactly the orphaned zombies and touches nothing else. */
  lemma {:induction false} ReapedExactly(t: Table, n: nat)
    requires Family(t) && n <= |t.processes|
    ensures Family(t.(processes := ReapedTo(t.processes, n)))
    ensures forall i :: 0 <= i < |t.processes| ==>
              ReapedTo(t.processes, n)[i] == if i < n && OrphanZombie(t.processes[i]) then FREED else t.processes[i]
  {
    hide Family, Released;
    if n > 0 {
      ReapedExactly(t, n - 1);
      var before := t.(processes := ReapedTo(t.processes, n - 1));
      if OrphanZombie(before.processes[n - 1]) {
        ReapOne(before, n - 1);
      }
    }
  }

  /** An orphaned zombie has no children, so reaping it changes its slot only. */
  lemma {:induction false} ReapOne(t: Table, slot: nat)
    requires Family(t) && slot < |t.processes| && OrphanZombie(t.processes[slot])
    ensures Released(t.processes, slot) == t.processes[slot := FREED]
    ensures Family(t.(processes := Released(t.processes, slot)))
  {
    forall c: nat | c < |t.processes| && t.processes[c].used
      ensures t.processes[c].parentPid != t.processes[slot].pid
    {
      NoZombieHasChildren(t, slot, c);
    }
    ReleasedChildless(t.processes, slot);
    ReleaseKeepsFamily(t, slot);
  }

  /** After one pass no zombie is left to pid 0. */
  lemma {:induction false} ReapLeavesNoOrphanZombie(t: Table)
    requires Family(t)
    ensures forall i :: 0 <= i < |t.processes| ==> !OrphanZombie(Reaped(t).processes[i])
  {
    ReapedExactly(t, |t.processes|);
  }

  /** Whatever zombie remains, its parent is alive and collects it with a wait, which
      empties exactly that slot. */
  lemma {:induction false} RemainingZombieIsCollectable(t: Table, z: nat)
    requires Family(t) && z < |t.processes| && t.processes[z].used && t.processes[z].state.Zombie?
    requires t.processes[z].parentPid != 0
    ensures LivePid(t.processes, t.processes[z].parentPid)
    ensures WaitStatus(t, t.processes[z].parentPid, t.processes[z].pid) == PROCESS_WAIT_OK
    ensures Waited(t, t.processes[z].parentPid, t.processes[z].pid) == t.(processes := t.processes[z := FREED])
  {
    var p := t.processes[z];
    assert RowOk(t, p);
    var j :| 0 <= j < |t.processes| && t.processes[j].used && t.processes[j].pid == p.parentPid
             && !t.processes[j].state.Zombie?;
    FindsOwnSlot(t.processes, j);
    assert IsChild(t.processes[z], p.parentPid, p.pid);
    var slot := FirstExited(t.processes, p.parentPid, p.pid, 0);
    assert slot == z;
    forall c: nat | c < |t.processes| && t.processes[c].used ensures t.processes[c].parentPid != p.pid {
      NoZombieHasChildren(t, z, c);
    }
    ReleasedChildless(t.processes, z);
  }

  // ---- runs -------------------------------------------------------------------------

  lemma {:induction false} ScheduleKeepsFamily(t: Table, script: seq<UserAction>, result: nat)
    requires Family(t) && t.currentPid == 0
    ensures Family(Scheduled(t, script, result)) && Scheduled(t, script, result).currentPid == 0
    ensures Selected(t) >= 0 ==> Scheduled(t, script, result).cursor == (Selected(t) + 1) % |t.processes|
    ensures |Scheduled(t, script, result).processes| == |t.processes|
  {
    var slot := Selected(t);
    if slot >= 0 {
      var u := Ran(t, t.processes[slot].pid, script, result);
      RunKeepsFamily(t, t.processes[slot].pid, script, result);
      CursorIsFree(u, (slot + 1) % |t.processes|);
    }
  }

  lemma {:induction false} CursorIsFree(t: Table, cursor: nat)
    requires Family(t) && cursor < |t.processes|
    ensures Family(t.(cursor := cursor))
  {
    var u := t.(cursor := cursor);
    forall i | 0 <= i < |u.processes| ensures RowOk(u, u.processes[i]) {
      assert RowOk(t, t.processes[i]);
    }
  }

  lemma {:induction false} ReprioritiseKeepsFamily(t: Table, pid: int, priority: int)
    requires Family(t)
    ensures Family(Reprioritised(t, pid, priority))
  {
    var u := Reprioritised(t, pid, priority);
    if u != t {
      var slot := FindByPid(t.processes, pid, 0);
      forall i | 0 <= i < |u.processes| ensures RowOk(u, u.processes[i]) {
        assert RowOk(t, t.processes[i]);
        if LivePid(t.processes, u.processes[i].parentPid) {
          var j :| 0 <= j < |t.processes| && t.processes[j].used
                   && t.processes[j].pid == u.processes[i].parentPid && !t.processes[j].state.Zombie?;
          assert u.processes[j].used && u.processes[j].pid == t.processes[j].pid;
        }
      }
      if u.currentPid != 0 {
        var j :| 0 <= j < |t.processes| && t.processes[j].used && t.processes[j].pid == t.currentPid;
        assert u.processes[j].used && u.processes[j].pid == t.currentPid;
      }
    }
  }

  lemma {:induction false} StepKeepsFamily(t: Table, e: Event)
    requires Family(t) && t.currentPid == 0
    ensures Family(Step(t, e)) && Step(t, e).currentPid == 0
    ensures |Step(t, e).processes| == |t.processes|
    ensures !e.Schedule? ==> Step(t, e).cursor == t.cursor
  {
    match e
    case Spawn(args) => SpawnKeepsFamily(t, args);
    case RunPid(pid, script, result) => RunKeepsFamily(t, pid, script, result);
    case Schedule(script, result) => ScheduleKeepsFamily(t, script, result);
    case Wait(parentPid, childPid) =>
      if WaitStatus(t, parentPid, childPid) == PROCESS_WAIT_OK {
        ReleaseKeepsFamily(t, FirstExited(t.processes, parentPid, childPid, 0));
      }
    case Kill(pid) =>
      if KillStatus(t, pid) == PROCESS_KILL_OK {
        ReleaseKeepsFamily(t, FindByPid(t.processes, pid, 0));
      }
    case Reap => ReapedExactly(t, |t.processes|);
    case SetPriority(pid, priority) => ReprioritiseKeepsFamily(t, pid, priority);
  }

  lemma {:induction false} BootIsFamily(slots: nat)
    ensures Family(Booted(slots))
  {
  }

  /** The family invariant holds after every run of calls. */
  lemma {:induction false} RunsKeepFamily(t: Table, events: seq<Event>)
    requires Family(t) && t.currentPid == 0
    ensures Family(Run(t, events)) && Run(t, events).currentPid == 0
    decreases |events|
  {
    if events != [] {
      StepKeepsFamily(t, events[0]);
      RunsKeepFamily(Step(t, events[0]), events[1..]);
    }
  }
}
