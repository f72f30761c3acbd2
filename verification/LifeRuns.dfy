/** What the plain kernel promises its processes, over every run. */
module LifeRuns {
  import opened Machine
  import opened PmmSpec
  import opened PagerSpec
  import opened SpacesSpec
  import opened SpacesRights
  import opened LifeSpec
  import LifeSteps
  import P = ProcessSpec
  import F = ProcessFamily

  /** The table is in order, nobody runs, and unused slots hold no memory. */
  ghost predicate Orderly(s: Plain) {
    && F.Family(s.table) && |s.memory| == |s.table.processes| && s.table.currentPid == 0
    && forall i :: 0 <= i < |s.memory| && !s.table.processes[i].used ==> s.memory[i] == map[]
  }

  // ---- the table goes its own way ------------------------------------------------------------------------

  /** What a deed is to the process table. */
  function ActOf(s: Plain, d: Deed): P.UserAction {
    if d.Spawn? then P.SpawnBuiltin(d.known, PagesHeld(s.memory) + 2 <= PAGER_MAX_PAGES)
    else P.SpawnBuiltin(false, false)
  }

  function ActsOf(s: Plain, deeds: seq<Deed>): seq<P.UserAction> {
    if deeds == [] then []
    else ActsOf(s, deeds[..|deeds| - 1]) + [ActOf(ActAll(s, deeds[..|deeds| - 1]).0, deeds[|deeds| - 1])]
  }

  /** What a call is to the process table: memory decides which spawns succeed. */
  function ImageOf(s: Plain, e: Event): P.Event {
    match e
    case Exec(parentPid, image, priority) => P.Spawn(BirthArgs(s, parentPid, image, priority, true))
    case RunPid(pid, deeds, result) => P.RunPid(pid, ActsOf(EnteredBy(s, pid), deeds), result)
    case Schedule(deeds, result) => P.Schedule(ActsOf(EnteredBy(s, PickedPid(s)), deeds), result)
    case Wait(parentPid, childPid) => P.Wait(parentPid, childPid)
    case Kill(pid) => P.Kill(pid)
    case Reap => P.Reap
    case SetPriority(pid, priority) => P.SetPriority(pid, priority)
  }

  function EnteredBy(s: Plain, pid: int): Plain {
    var slot := P.FindByPid(s.table.processes, pid, 0);
    if slot < 0 then s else s.(table := P.Entered(s.table, slot))
  }

  function PickedPid(s: Plain): int {
    var slot := P.Selected(s.table);
    if slot < 0 then 0 else s.table.processes[slot].pid
  }

  predicate Built(deeds: seq<Deed>) {
    forall k :: 0 <= k < |deeds| ==> Buildable(deeds[k])
  }

  lemma {:induction false} ActOnTable(s: Plain, d: Deed)
    requires F.Family(s.table) && |s.memory| == |s.table.processes| && Buildable(d)
    ensures Act(s, d).0.table == P.Acted(s.table, ActOf(s, d))
    ensures F.Family(Act(s, d).0.table)
  {
    hide F.Family;
    LifeSteps.FamilyPids(s.table);
    LifeSteps.ActKeepsRows(s, d);
  }

  lemma {:induction false} ActsOnTable(s: Plain, deeds: seq<Deed>)
    requires F.Family(s.table) && |s.memory| == |s.table.processes| && Built(deeds)
    ensures ActAll(s, deeds).0.table == P.ActedAll(s.table, ActsOf(s, deeds)) && |ActsOf(s, deeds)| == |deeds|
    ensures F.Family(ActAll(s, deeds).0.table)
  {
    hide F.Family, P.Acted, Act, ActOf;
    if deeds != [] {
      var first := deeds[..|deeds| - 1];
      ActsOnTable(s, first);
      ActAllKeepsSize(s, first);
      assert Buildable(deeds[|deeds| - 1]);
      ActOnTable(ActAll(s, first).0, deeds[|deeds| - 1]);
      assert ActsOf(s, deeds)[..|deeds| - 1] == ActsOf(s, first);
    }
  }

  lemma {:induction false} RunOnTable(s: Plain, pid: int, deeds: seq<Deed>, result: nat)
    requires F.Family(s.table) && |s.memory| == |s.table.processes| && s.table.currentPid == 0 && Built(deeds)
    ensures RunOf(s, pid, deeds, result).0.table == P.Ran(s.table, pid, ActsOf(EnteredBy(s, pid), deeds), result)
  {
    hide F.Family, P.Left, Built;
    if P.CanRun(s.table, pid) {
      F.EnterKeepsFamily(s.table, P.FindByPid(s.table.processes, pid, 0));
      ActsOnTable(EnteredBy(s, pid), deeds);
    }
  }

  /** Every call does to the table what the table's own call does: all that is proved of the
      process table's runs, fairness included, holds of the whole kernel. */
  lemma {:induction false} StepOnTable(s: Plain, e: Event)
    requires F.Family(s.table) && |s.memory| == |s.table.processes| && s.table.currentPid == 0 && AllBuildable(e)
    ensures Step(s, e).0.table == P.Step(s.table, ImageOf(s, e))
  {
    hide F.Family, P.Ran, RunOf, P.Released, ActsOf;
    match e
    case RunPid(pid, deeds, result) => RunOnTable(s, pid, deeds, result);
    case Schedule(deeds, result) =>
      if P.Selected(s.table) >= 0 {
        RunOnTable(s, PickedPid(s), deeds, result);
      }
    case Wait(parentPid, childPid) =>
      if P.WaitStatus(s.table, parentPid, childPid) == P.PROCESS_WAIT_OK {
        EndOnTable(s, P.FirstExited(s.table.processes, parentPid, childPid, 0));
      }
    case Kill(pid) =>
      if P.KillStatus(s.table, pid) == P.PROCESS_KILL_OK {
        EndOnTable(s, P.FindByPid(s.table.processes, pid, 0));
      }
    case Reap => LifeSteps.ReapedTable(s, |s.table.processes|);
    case _ =>
  }

  lemma {:induction false} EndOnTable(s: Plain, slot: nat)
    requires slot < |s.table.processes| == |s.memory| && s.table.processes[slot].used && !s.table.processes[slot].state.Running?
    ensures Ended(s, slot).table == s.table.(processes := P.Released(s.table.processes, slot))
  {
  }

  // ---- every call keeps the order -----------------------------------------------------------------------

  /** Sizes and empty slots, whoever runs. */
  ghost predicate Clean(s: Plain) {
    && F.Family(s.table) && |s.memory| == |s.table.processes|
    && forall i :: 0 <= i < |s.memory| && !s.table.processes[i].used ==> s.memory[i] == map[]
  }

  lemma {:induction false} ActKeepsClean(s: Plain, d: Deed)
    requires Clean(s)
    ensures Clean(Act(s, d).0)
    ensures forall j :: 0 <= j < |s.memory| && s.table.processes[j].used && j != Slot(s.table) ==> Act(s, d).0.memory[j] == s.memory[j]
  {
    hide F.Family, NewMemory;
    LifeSteps.FamilyPids(s.table);
    LifeSteps.ActKeepsRows(s, d);
  }

  lemma {:induction false} ActAllKeepsClean(s: Plain, deeds: seq<Deed>)
    requires Clean(s) && s.table.currentPid != 0 && Slot(s.table) >= 0
    ensures Clean(ActAll(s, deeds).0) && Slot(ActAll(s, deeds).0.table) == Slot(s.table)
    ensures ActAll(s, deeds).0.table.currentPid == s.table.currentPid && |ActAll(s, deeds).0.memory| == |s.memory|
    ensures forall j :: 0 <= j < |s.memory| && s.table.processes[j].used ==> ActAll(s, deeds).0.table.processes[j] == s.table.processes[j]
    ensures forall j :: 0 <= j < |s.memory| && s.table.processes[j].used && j != Slot(s.table) ==> ActAll(s, deeds).0.memory[j] == s.memory[j]
  {
    hide F.Family, Act;
    if deeds != [] {
      var before := ActAll(s, deeds[..|deeds| - 1]).0;
      ActAllKeepsClean(s, deeds[..|deeds| - 1]);
      ActKeepsClean(before, deeds[|deeds| - 1]);
      LifeSteps.ActKeepsRows(before, deeds[|deeds| - 1]);
      LifeSteps.StaysInSlot(before, deeds[|deeds| - 1]);
    }
  }

  /** Whatever a process does while it runs, every other process keeps its row and every byte
      of its memory. */
  lemma {:induction false} RunLeavesOthers(s: Plain, pid: int, deeds: seq<Deed>, result: nat)
    requires Orderly(s)
    ensures Orderly(RunOf(s, pid, deeds, result).0)
    ensures forall j :: 0 <= j < |s.memory| && s.table.processes[j].used && s.table.processes[j].pid != pid ==>
              RunOf(s, pid, deeds, result).0.memory[j] == s.memory[j]
  {
    hide F.Family;
    if P.CanRun(s.table, pid) {
      var slot := P.FindByPid(s.table.processes, pid, 0);
      var entered := s.(table := P.Entered(s.table, slot));
      F.EnterKeepsFamily(s.table, slot);
      LifeSteps.FamilyPids(s.table);
      FamilyIsUnique(entered.table);
      F.FindsOwnSlot(entered.table.processes, slot);
      ActAllKeepsClean(entered, deeds);
      F.LeaveKeepsFamily(ActAll(entered, deeds).0.table, slot, result);
    }
  }

  lemma {:induction false} FamilyIsUnique(t: P.Table)
    requires F.Family(t)
    ensures F.UniquePids(t.processes)
  {
  }

  lemma {:induction false} EndKeepsOrder(s: Plain, slot: nat)
    requires Orderly(s) && slot < |s.memory|
    ensures Orderly(Ended(s, slot))
    ensures forall j :: 0 <= j < |s.memory| && j != slot ==> Ended(s, slot).memory[j] == s.memory[j]
    ensures s.table.processes[slot].used && !s.table.processes[slot].state.Running? ==> !Ended(s, slot).table.processes[slot].used
  {
    hide F.Family;
    F.ReleaseKeepsFamily(s.table, slot);
  }

  lemma {:induction false} ReapKeepsOrder(s: Plain, n: nat)
    requires Orderly(s) && n <= |s.memory|
    ensures Orderly(ReapedTo(s, n))
    ensures forall j :: 0 <= j < |s.memory| ==>
              ReapedTo(s, n).memory[j] == if j < n && P.OrphanZombie(s.table.processes[j]) then map[] else s.memory[j]
  {
    hide F.Family, Ended;
    if n > 0 {
      ReapKeepsOrder(s, n - 1);
      LifeSteps.ReapedTable(s, n - 1);
      F.ReapedExactly(s.table, n - 1);
      EndKeepsOrder(ReapedTo(s, n - 1), n - 1);
      LifeSteps.OrphanEnds(ReapedTo(s, n - 1), n - 1);
    }
  }

  /** The pid a call runs, or 0. */
  function RunBy(s: Plain, e: Event): int {
    match e
    case RunPid(pid, _, _) => pid
    case Schedule(_, _) => PickedPid(s)
    case _ => 0
  }

  /** Slot `j` is the process `pid`'s. */
  predicate Lives(s: Plain, j: nat, pid: int) {
    j < |s.table.processes| && s.table.processes[j].used && s.table.processes[j].pid == pid
  }

  /** A call keeps the order, and changes the memory of no process that lives on but the one
      it runs. */
  lemma {:induction false} StepKeepsOrder(s: Plain, e: Event)
    requires Orderly(s)
    ensures Orderly(Step(s, e).0)
    ensures forall j: nat, pid: int :: Lives(s, j, pid) && Lives(Step(s, e).0, j, pid) && pid != RunBy(s, e) ==>
              Step(s, e).0.memory[j] == s.memory[j]
  {
    hide F.Family, RunOf, Ended, ReapedTo, Born, P.Reprioritised;
    LifeSteps.FamilyPids(s.table);
    match e
    case Exec(parentPid, image, priority) => BirthKeepsOrder(s, parentPid, image, priority);
    case RunPid(pid, deeds, result) => RunLeavesOthers(s, pid, deeds, result);
    case Schedule(deeds, result) =>
      if P.Selected(s.table) >= 0 {
        RunLeavesOthers(s, PickedPid(s), deeds, result);
        F.CursorIsFree(RunOf(s, PickedPid(s), deeds, result).0.table, (P.Selected(s.table) + 1) % |s.table.processes|);
      }
    case Wait(parentPid, childPid) =>
      if P.WaitStatus(s.table, parentPid, childPid) == P.PROCESS_WAIT_OK {
        EndKeepsOrder(s, P.FirstExited(s.table.processes, parentPid, childPid, 0));
      }
    case Kill(pid) =>
      if P.KillStatus(s.table, pid) == P.PROCESS_KILL_OK {
        EndKeepsOrder(s, P.FindByPid(s.table.processes, pid, 0));
      }
    case Reap =>
      ReapKeepsOrder(s, |s.memory|);
      LifeSteps.ReapedTable(s, |s.memory|);
      F.ReapedExactly(s.table, |s.memory|);
    case SetPriority(pid, priority) => PriorityKeepsOrder(s, pid, priority);
  }

  lemma {:induction false} BirthKeepsOrder(s: Plain, parentPid: int, image: seq<Byte>, priority: int)
    requires Orderly(s)
    ensures Orderly(Born(s, parentPid, image, priority, true).0)
    ensures forall j :: 0 <= j < |s.memory| && s.table.processes[j].used ==> Born(s, parentPid, image, priority, true).0.memory[j] == s.memory[j]
  {
    hide F.Family, NewMemory;
    LifeSteps.FamilyPids(s.table);
    F.SpawnKeepsFamily(s.table, BirthArgs(s, parentPid, image, priority, true));
  }

  lemma {:induction false} PriorityKeepsOrder(s: Plain, pid: int, priority: int)
    requires Orderly(s)
    ensures Orderly(s.(table := P.Reprioritised(s.table, pid, priority)))
  {
    hide F.Family;
    F.ReprioritiseKeepsFamily(s.table, pid, priority);
  }

  // ---- pids are not used again ------------------------------------------------------------------------

  /** Whoever has an old pid in `u` had it in `t`, in the same slot. */
  ghost predicate Older(t: P.Table, u: P.Table) {
    && |u.processes| == |t.processes| && t.nextPid <= u.nextPid
    && forall i :: 0 <= i < |t.processes| && u.processes[i].used && u.processes[i].pid < t.nextPid ==>
         t.processes[i].used && t.processes[i].pid == u.processes[i].pid
  }

  lemma {:induction false} OlderTwice(t: P.Table, u: P.Table, w: P.Table)
    requires Older(t, u) && Older(u, w)
    ensures Older(t, w)
  {
  }

  lemma {:induction false} ActedIsOlder(t: P.Table, acts: seq<P.UserAction>)
    ensures Older(t, P.ActedAll(t, acts))
  {
    if acts != [] {
      ActedIsOlder(t, acts[..|acts| - 1]);
      OlderTwice(t, P.ActedAll(t, acts[..|acts| - 1]), P.ActedAll(t, acts));
    }
  }

  lemma {:induction false} RanIsOlder(t: P.Table, pid: int, acts: seq<P.UserAction>, result: nat)
    ensures Older(t, P.Ran(t, pid, acts, result))
  {
    if P.CanRun(t, pid) {
      var slot := P.FindByPid(t.processes, pid, 0);
      var acted := P.ActedAll(P.Entered(t, slot), acts);
      ActedIsOlder(P.Entered(t, slot), acts);
      OlderTwice(t, P.Entered(t, slot), acted);
      OlderTwice(t, acted, P.Left(acted, slot, result));
    }
  }

  lemma {:induction false} StepIsOlder(t: P.Table, e: P.Event)
    requires F.Family(t)
    ensures Older(t, P.Step(t, e))
  {
    hide F.Family, P.Ran;
    match e
    case RunPid(pid, script, result) => RanIsOlder(t, pid, script, result);
    case Schedule(script, result) =>
      if P.Selected(t) >= 0 {
        RanIsOlder(t, t.processes[P.Selected(t)].pid, script, result);
      }
    case Reap => F.ReapedExactly(t, |t.processes|);
    case _ =>
  }

  // ---- whole runs -------------------------------------------------------------------------------------

  /** None of the calls runs process `pid`. */
  predicate Sleeps(s: Plain, events: seq<Event>, pid: int) {
    forall k :: 0 <= k < |events| ==> RunBy(Run(s, events[..k]).0, events[k]) != pid
  }

  lemma {:induction false} RunsKeepOrder(s: Plain, events: seq<Event>)
    requires Orderly(s)
    ensures Orderly(Run(s, events).0)
  {
    hide Orderly, Step;
    if events != [] {
      RunsKeepOrder(s, events[..|events| - 1]);
      StepKeepsOrder(Run(s, events[..|events| - 1]).0, events[|events| - 1]);
    }
  }

  /** A process that is not run finds every byte of its memory as it left it, whatever other
      processes and the kernel did in between. */
  lemma {:induction false} MemoryWaits(s: Plain, events: seq<Event>, j: nat, pid: int)
    requires Orderly(s) && Lives(s, j, pid) && Lives(Run(s, events).0, j, pid) && Sleeps(s, events, pid)
    requires forall k :: 0 <= k < |events| ==> AllBuildable(events[k])
    ensures |s.memory| == |Run(s, events).0.memory| && j < |s.memory| && Run(s, events).0.memory[j] == s.memory[j]
    decreases |events|
  {
    hide F.Family, Step, RunBy;
    if events != [] {
      var n := |events| - 1;
      var before := Run(s, events[..n]).0;
      RunsKeepOrder(s, events[..n]);
      NextPidGrows(s, events[..n]);
      StepOnTable(before, events[n]);
      StepIsOlder(before.table, ImageOf(before, events[n]));
      PidIsPast(s, j);
      StepKeepsOrder(before, events[n]);
      forall k | 0 <= k < n ensures events[..n][..k] == events[..k] && RunBy(Run(s, events[..n][..k]).0, events[..n][k]) != pid {
      }
      MemoryWaits(s, events[..n], j, pid);
    }
  }

  lemma {:induction false} PidIsPast(s: Plain, j: nat)
    requires F.Family(s.table) && j < |s.table.processes| && s.table.processes[j].used
    ensures s.table.processes[j].pid < s.table.nextPid
  {
    assert F.RowOk(s.table, s.table.processes[j]);
  }

  lemma {:induction false} NextPidGrows(s: Plain, events: seq<Event>)
    requires Orderly(s) && forall k :: 0 <= k < |events| ==> AllBuildable(events[k])
    ensures s.table.nextPid <= Run(s, events).0.table.nextPid
  {
    hide F.Family, Step;
    if events != [] {
      var n := |events| - 1;
      NextPidGrows(s, events[..n]);
      RunsKeepOrder(s, events[..n]);
      StepOnTable(Run(s, events[..n]).0, events[n]);
      StepIsOlder(Run(s, events[..n]).0.table, ImageOf(Run(s, events[..n]).0, events[n]));
    }
  }

  // ---- a process sees only itself ------------------------------------------------------------------------

  /** What running process `s` and running process `u` have is the same. */
  ghost predicate SameSight(s: Plain, u: Plain) {
    && 0 <= Slot(s.table) < |s.memory| && 0 <= Slot(u.table) < |u.memory|
    && s.memory[Slot(s.table)] == u.memory[Slot(u.table)]
  }

  lemma {:induction false} SeesItsOwnDeed(s: Plain, u: Plain, d: Deed)
    requires SameSight(s, u) && (d.Load? || d.Store?)
    ensures Act(s, d).1 == Act(u, d).1 && SameSight(Act(s, d).0, Act(u, d).0)
    ensures Act(s, d).0.table == s.table && Act(u, d).0.table == u.table
  {
  }

  /** What a process loads depends on its own memory only: in any two states in which that is
      the same, the same loads and stores are answered alike and leave it the same. */
  lemma {:induction false} SeesOnlyItself(s: Plain, u: Plain, deeds: seq<Deed>)
    requires SameSight(s, u) && forall k :: 0 <= k < |deeds| ==> deeds[k].Load? || deeds[k].Store?
    ensures ActAll(s, deeds).1 == ActAll(u, deeds).1 && SameSight(ActAll(s, deeds).0, ActAll(u, deeds).0)
    ensures ActAll(s, deeds).0.table == s.table && ActAll(u, deeds).0.table == u.table
  {
    hide Act, SameSight;
    if deeds != [] {
      var n := |deeds| - 1;
      SeesOnlyItself(s, u, deeds[..n]);
      SeesItsOwnDeed(ActAll(s, deeds[..n]).0, ActAll(u, deeds[..n]).0, deeds[n]);
    }
  }
}
