/** From a process's birth to its wait, in calls and answers: who may collect it, when, and
    with which exit code. */
module LifeWaits {
  import opened Machine
  import opened LifeSpec
  import opened LifeRuns
  import opened LifeLaws
  import LifeSteps
  import P = ProcessSpec
  import F = ProcessFamily
  import Laws = ProcessLaws

  /** What a call may do to a process that lives on. */
  lemma {:induction false} StepRow(s: Plain, e: Event, j: nat, pid: int)
    requires Orderly(s) && AllBuildable(e) && Lives(s, j, pid) && Lives(Step(s, e).0, j, pid)
    ensures var p, q := s.table.processes[j], Step(s, e).0.table.processes[j];
            && (q.parentPid == p.parentPid || (q.parentPid == 0 && !F.LivePid(Step(s, e).0.table.processes, p.parentPid)))
            && (q.priority == p.priority || e == SetPriority(pid, q.priority))
            && (p.state.Zombie? || RunBy(s, e) != pid ==> q.state == p.state && q.exitCode == p.exitCode)
  {
    hide F.Family, Step, P.Step, RunBy, Laws.RunBy, ActsOf;
    StepOnTable(s, e);
    SameRunner(s, e);
    Laws.StepFate(s.table, ImageOf(s, e), j);
  }

  lemma {:induction false} SameRunner(s: Plain, e: Event)
    ensures Laws.RunBy(s.table, ImageOf(s, e)) == RunBy(s, e)
  {
  }

  /** A process that ran is READY after a yield, and otherwise a zombie with that exit code. */
  lemma {:induction false} RanRow(s: Plain, e: Event) returns (j: nat)
    requires Orderly(s) && AllBuildable(e) && Step(s, e).1.Ran? && Step(s, e).1.pid > 0
    ensures e.RunPid? || e.Schedule?
    ensures Lives(s, j, Step(s, e).1.pid) && Lives(Step(s, e).0, j, Step(s, e).1.pid)
    ensures var q := Step(s, e).0.table.processes[j];
            if e.result == P.USERMODE_RETURN_YIELD then q.state.Ready? else q.state.Zombie? && q.exitCode == e.result
  {
    hide F.Family, ActAll, RunOf, P.Ran, ActsOf;
    j := RanIn(s, e);
    var pid := Step(s, e).1.pid;
    var slot := P.FindByPid(s.table.processes, pid, 0);
    OneSlotEach(s, j, slot, pid);
    RunOnTable(s, pid, e.deeds, e.result);
    Laws.RunFate(s.table, pid, ActsOf(EnteredBy(s, pid), e.deeds), e.result, j);
  }

  // ---- exit codes --------------------------------------------------------------------------------------------

  lemma {:induction false} ZombieStays(s: Plain, events: seq<Event>, j: nat, pid: int, code: nat)
    requires Orderly(s) && Lives(s, j, pid) && Lives(Run(s, events).0, j, pid)
    requires s.table.processes[j].state.Zombie? && s.table.processes[j].exitCode == code
    requires forall k :: 0 <= k < |events| ==> AllBuildable(events[k])
    ensures Run(s, events).0.table.processes[j].state.Zombie? && Run(s, events).0.table.processes[j].exitCode == code
    decreases |events|
  {
    hide Orderly, Step, AllBuildable;
    if events != [] {
      var n := |events| - 1;
      LivedBefore(s, events, j, pid);
      ZombieStays(s, events[..n], j, pid, code);
      StepRow(Run(s, events[..n]).0, events[n], j, pid);
    }
  }

  /** Whatever happens between its exit and its wait, a process is collected with the code it
      exited with. */
  lemma {:induction false} ExitCodeIsCollected(s: Plain, e: Event, events: seq<Event>, parentPid: int, childPid: int)
    requires Orderly(s) && AllBuildable(e) && Step(s, e).1.Ran? && Step(s, e).1.pid > 0 && (e.RunPid? || e.Schedule?)
    requires e.result != P.USERMODE_RETURN_YIELD && forall k :: 0 <= k < |events| ==> AllBuildable(events[k])
    requires var reply := ReplyAfter(Step(s, e).0, events, Wait(parentPid, childPid));
             reply.status == P.PROCESS_WAIT_OK && reply.pid == Step(s, e).1.pid
    ensures ReplyAfter(Step(s, e).0, events, Wait(parentPid, childPid)).exitCode == e.result
  {
    hide F.Family, RunOf, Ended;
    var pid, u := Step(s, e).1.pid, Step(s, e).0;
    var j := RanRow(s, e);
    StepKeepsOrder(s, e);
    RunsKeepOrder(u, events);
    var t := Run(u, events).0;
    var slot := P.FirstExited(t.table.processes, parentPid, childPid, 0);
    StillInSlot(u, events, j, slot, pid);
    ZombieStays(u, events, j, pid, e.result);
  }

  /** The calls answer for no run of `pid` but such as yield. */
  predicate OnlyYields(s: Plain, events: seq<Event>, pid: int) {
    forall k :: 0 <= k < |events| ==> YieldsIn(events[k], Run(s, events).1[k], pid)
  }

  predicate YieldsIn(e: Event, reply: Reply, pid: int) {
    reply.Ran? && reply.pid == pid && (e.RunPid? || e.Schedule?) ==> e.result == P.USERMODE_RETURN_YIELD
  }

  lemma {:induction false} StepStaysReady(s: Plain, e: Event, j: nat, pid: int)
    requires Orderly(s) && AllBuildable(e) && pid > 0 && Lives(s, j, pid) && Lives(Step(s, e).0, j, pid)
    requires s.table.processes[j].state.Ready? && YieldsIn(e, Step(s, e).1, pid)
    ensures Step(s, e).0.table.processes[j].state.Ready?
  {
    hide F.Family, Step, RunBy;
    if Step(s, e).1.Ran? && Step(s, e).1.pid == pid {
      var slot := RanRow(s, e);
      OneSlotEach(s, j, slot, pid);
    } else {
      NotRunBy(s, e, pid);
      StepRow(s, e, j, pid);
    }
  }

  lemma {:induction false} StaysReady(s: Plain, events: seq<Event>, j: nat, pid: int)
    requires Orderly(s) && pid > 0 && Lives(s, j, pid) && Lives(Run(s, events).0, j, pid)
    requires s.table.processes[j].state.Ready? && OnlyYields(s, events, pid)
    requires forall k :: 0 <= k < |events| ==> AllBuildable(events[k])
    ensures Run(s, events).0.table.processes[j].state.Ready?
    decreases |events|
  {
    hide Orderly, Step, AllBuildable, YieldsIn;
    if events != [] {
      var n := |events| - 1;
      LivedBefore(s, events, j, pid);
      assert Run(s, events).1[n] == Step(Run(s, events[..n]).0, events[n]).1;
      forall k | 0 <= k < n ensures Run(s, events[..n]).1[k] == Run(s, events).1[k] {
      }
      StaysReady(s, events[..n], j, pid);
      StepStaysReady(Run(s, events[..n]).0, events[n], j, pid);
    }
  }

  /** A process that has only ever yielded is not collected. */
  lemma {:induction false} YieldedIsNotCollected(s: Plain, e: Event, events: seq<Event>, parentPid: int, childPid: int)
    requires Orderly(s) && AllBuildable(e) && Step(s, e).1.Ran? && Step(s, e).1.pid > 0 && (e.RunPid? || e.Schedule?)
    requires e.result == P.USERMODE_RETURN_YIELD && OnlyYields(Step(s, e).0, events, Step(s, e).1.pid)
    requires forall k :: 0 <= k < |events| ==> AllBuildable(events[k])
    ensures ReplyAfter(Step(s, e).0, events, Wait(parentPid, childPid)).pid != Step(s, e).1.pid
  {
    hide F.Family, RunOf, Ended, OnlyYields;
    var pid, u := Step(s, e).1.pid, Step(s, e).0;
    var j := RanRow(s, e);
    StepKeepsOrder(s, e);
    RunsKeepOrder(u, events);
    var t := Run(u, events).0;
    var slot := P.FirstExited(t.table.processes, parentPid, childPid, 0);
    if slot >= 0 && Lives(t, slot, pid) {
      StillInSlot(u, events, j, slot, pid);
      StaysReady(u, events, j, pid);
    }
  }

  // ---- who lives on ------------------------------------------------------------------------------------------

  /** The call does not end `pid`: it neither kills it, nor answers a wait with it, nor reaps. */
  predicate Spared(e: Event, reply: Reply, pid: int) {
    e != Kill(pid) && !e.Reap? && (reply.Waited? ==> reply.pid != pid)
  }

  lemma {:induction false} StepSpares(s: Plain, e: Event, j: nat, pid: int)
    requires Orderly(s) && pid > 0 && Lives(s, j, pid) && Spared(e, Step(s, e).1, pid)
    ensures Lives(Step(s, e).0, j, pid)
  {
    hide F.Family, RunOf, P.Reprioritised;
    match e
    case Exec(parentPid, image, priority) =>
    case RunPid(run, deeds, result) => RunSpares(s, run, deeds, result, j, pid);
    case Schedule(deeds, result) => RunSpares(s, PickedPid(s), deeds, result, j, pid);
    case Wait(parentPid, childPid) =>
      if P.WaitStatus(s.table, parentPid, childPid) == P.PROCESS_WAIT_OK {
        Laws.ReleaseFate(s.table, P.FirstExited(s.table.processes, parentPid, childPid, 0), j);
      }
    case Kill(other) =>
      if P.KillStatus(s.table, other) == P.PROCESS_KILL_OK {
        Laws.ReleaseFate(s.table, P.FindByPid(s.table.processes, other, 0), j);
      }
    case Reap =>
    case SetPriority(other, priority) => SameRows(s.table, other, priority, j);
  }

  lemma {:induction false} SameRows(t: P.Table, pid: int, priority: int, j: nat)
    requires j < |t.processes|
    ensures var u := P.Reprioritised(t, pid, priority);
            |u.processes| == |t.processes| && u.processes[j] == t.processes[j].(priority := u.processes[j].priority)
  {
  }

  lemma {:induction false} RunSpares(s: Plain, run: int, deeds: seq<Deed>, result: nat, j: nat, pid: int)
    requires Orderly(s) && Lives(s, j, pid)
    ensures Lives(RunOf(s, run, deeds, result).0, j, pid)
  {
    hide F.Family, ActAll;
    if P.CanRun(s.table, run) {
      EntersClean(s, P.FindByPid(s.table.processes, run, 0));
      ActAllKeepsClean(EnteredBy(s, run), deeds);
    }
  }

  predicate AllSpared(s: Plain, events: seq<Event>, pid: int) {
    forall k :: 0 <= k < |events| ==> Spared(events[k], Run(s, events).1[k], pid)
  }

  /** A process lives until it is killed, collected or reaped. */
  lemma {:induction false} LivesOn(s: Plain, events: seq<Event>, j: nat, pid: int)
    requires Orderly(s) && pid > 0 && Lives(s, j, pid) && AllSpared(s, events, pid)
    ensures Lives(Run(s, events).0, j, pid)
    decreases |events|
  {
    hide Orderly, Step, Spared, Lives;
    if events != [] {
      var n := |events| - 1;
      assert Run(s, events).1[n] == Step(Run(s, events[..n]).0, events[n]).1;
      forall k | 0 <= k < n ensures Run(s, events[..n]).1[k] == Run(s, events).1[k] {
      }
      LivesOn(s, events[..n], j, pid);
      RunsKeepOrder(s, events[..n]);
      StepSpares(Run(s, events[..n]).0, events[n], j, pid);
    }
  }

  // ---- parents ------------------------------------------------------------------------------------------------

  /** `pid`'s parent is `parentPid`, or was and has died. */
  ghost predicate HasParent(s: Plain, j: nat, parentPid: int) {
    j < |s.table.processes|
    && (s.table.processes[j].parentPid == parentPid || (s.table.processes[j].parentPid == 0 && Dead(s, parentPid)))
  }

  /** No live process has that pid, and none will. */
  ghost predicate Dead(s: Plain, pid: int) {
    pid < s.table.nextPid && !F.LivePid(s.table.processes, pid)
  }

  lemma {:induction false} DeadStaysDead(s: Plain, e: Event, pid: int)
    requires Orderly(s) && AllBuildable(e) && Dead(s, pid)
    ensures Dead(Step(s, e).0, pid)
  {
    hide F.Family, Step;
    StepOnTable(s, e);
    StepIsOlder(s.table, ImageOf(s, e));
    var u := Step(s, e).0;
    forall j: nat | j < |u.table.processes| && u.table.processes[j].used && u.table.processes[j].pid == pid
      ensures u.table.processes[j].state.Zombie?
    {
      StepRow(s, e, j, pid);
    }
  }

  lemma {:induction false} StepKeepsParent(s: Plain, e: Event, j: nat, pid: int, parentPid: int)
    requires Orderly(s) && AllBuildable(e) && Lives(s, j, pid) && Lives(Step(s, e).0, j, pid)
    requires HasParent(s, j, parentPid) && parentPid < s.table.nextPid
    ensures HasParent(Step(s, e).0, j, parentPid) && parentPid < Step(s, e).0.table.nextPid
  {
    hide F.Family, Step;
    StepRow(s, e, j, pid);
    StepOnTable(s, e);
    StepIsOlder(s.table, ImageOf(s, e));
    if Dead(s, parentPid) {
      DeadStaysDead(s, e, parentPid);
    }
  }

  lemma {:induction false} KeepsParent(s: Plain, events: seq<Event>, j: nat, pid: int, parentPid: int)
    requires Orderly(s) && Lives(s, j, pid) && Lives(Run(s, events).0, j, pid)
    requires HasParent(s, j, parentPid) && parentPid < s.table.nextPid && forall k :: 0 <= k < |events| ==> AllBuildable(events[k])
    ensures HasParent(Run(s, events).0, j, parentPid) && parentPid < Run(s, events).0.table.nextPid
    decreases |events|
  {
    hide Orderly, Step, AllBuildable, HasParent;
    if events != [] {
      var n := |events| - 1;
      LivedBefore(s, events, j, pid);
      KeepsParent(s, events[..n], j, pid, parentPid);
      StepKeepsParent(Run(s, events[..n]).0, events[n], j, pid, parentPid);
    }
  }

  /** A new process is READY, has the parent and the priority it was given. */
  lemma {:induction false} BornRow(s: Plain, parentPid: int, image: seq<Byte>, priority: int) returns (j: nat)
    requires Orderly(s) && Step(s, Exec(parentPid, image, priority)).1.pid != 0
    ensures var (born, reply) := Step(s, Exec(parentPid, image, priority));
            && reply.pid > 0 && Lives(born, j, reply.pid) && born.table.processes[j].state.Ready?
            && born.table.processes[j].parentPid == parentPid < born.table.nextPid && born.table.processes[j].priority == priority
            && (parentPid == 0 || F.LivePid(born.table.processes, parentPid))
  {
    hide F.Family, PagesHeld;
    LifeSteps.FamilyPids(s.table);
    j := P.FindFree(s.table.processes, 0);
    BirthKeepsOrder(s, parentPid, image, priority);
    RowIsOk(Step(s, Exec(parentPid, image, priority)).0, j);
  }

  lemma {:induction false} RowIsOk(s: Plain, j: nat)
    requires F.Family(s.table) && j < |s.table.processes|
    ensures F.RowOk(s.table, s.table.processes[j])
  {
  }

  /** What a wait for one child answers, by that child's row. */
  lemma {:induction false} WaitForOne(s: Plain, j: nat, pid: int, parentPid: int)
    requires Orderly(s) && pid > 0 && Lives(s, j, pid) && s.table.processes[j].parentPid == parentPid
    requires parentPid == 0 || F.LivePid(s.table.processes, parentPid)
    ensures Step(s, Wait(parentPid, pid)).1 ==
            if s.table.processes[j].state.Zombie? then Waited(P.PROCESS_WAIT_OK, pid, s.table.processes[j].exitCode)
            else Waited(P.PROCESS_WAIT_NOT_EXITED, 0, 0)
  {
    hide F.Family, Ended;
    if parentPid != 0 {
      var i :| 0 <= i < |s.table.processes| && s.table.processes[i].used && s.table.processes[i].pid == parentPid
               && !s.table.processes[i].state.Zombie?;
      FamilyIsUnique(s.table);
      F.FindsOwnSlot(s.table.processes, i);
    }
    assert P.IsChild(s.table.processes[j], parentPid, pid);
    forall i: nat | i < |s.table.processes| && P.IsChild(s.table.processes[i], parentPid, pid) ensures i == j {
      OneSlotEach(s, i, j, pid);
    }
  }

  lemma {:induction false} ParentOrDead(s: Plain, j: nat, parentPid: int)
    requires HasParent(s, j, parentPid) && (parentPid == 0 || F.LivePid(s.table.processes, parentPid))
    ensures s.table.processes[j].parentPid == parentPid
  {
  }

  /** From birth on: until a process exits, its parent's wait for it answers NOT_EXITED. */
  lemma {:induction false} WaitBeforeExit(s: Plain, parentPid: int, image: seq<Byte>, priority: int, events: seq<Event>)
    requires Orderly(s) && Step(s, Exec(parentPid, image, priority)).1.pid != 0
    requires forall k :: 0 <= k < |events| ==> AllBuildable(events[k])
    requires var (born, reply) := Step(s, Exec(parentPid, image, priority));
             && AllSpared(born, events, reply.pid) && OnlyYields(born, events, reply.pid)
             && (parentPid == 0 || F.LivePid(Run(born, events).0.table.processes, parentPid))
    ensures var (born, reply) := Step(s, Exec(parentPid, image, priority));
            ReplyAfter(born, events, Wait(parentPid, reply.pid)) == Waited(P.PROCESS_WAIT_NOT_EXITED, 0, 0)
  {
    hide F.Family, Step, Orderly, AllSpared, OnlyYields, AllBuildable, HasParent;
    var exec := Exec(parentPid, image, priority);
    ExecIsBirth(s, parentPid, image, priority);
    var born, pid := Step(s, exec).0, Step(s, exec).1.pid;
    var j := BornRow(s, parentPid, image, priority);
    StepKeepsOrder(s, exec);
    RunsKeepOrder(born, events);
    LivesOn(born, events, j, pid);
    StaysReady(born, events, j, pid);
    IsParent(born, j, parentPid);
    KeepsParent(born, events, j, pid, parentPid);
    ParentOrDead(Run(born, events).0, j, parentPid);
    WaitForOne(Run(born, events).0, j, pid, parentPid);
  }

  lemma {:induction false} IsParent(s: Plain, j: nat, parentPid: int)
    requires j < |s.table.processes| && s.table.processes[j].parentPid == parentPid
    ensures HasParent(s, j, parentPid)
  {
  }

  /** And once it has exited, its parent collects it, with its exit code, at any later time. */
  lemma {:induction false} WaitAfterExit(s: Plain, parentPid: int, image: seq<Byte>, priority: int, events: seq<Event>, e: Event, later: seq<Event>)
    requires Orderly(s) && Step(s, Exec(parentPid, image, priority)).1.pid != 0 && AllBuildable(e) && (e.RunPid? || e.Schedule?)
    requires forall k :: 0 <= k < |events| ==> AllBuildable(events[k])
    requires forall k :: 0 <= k < |later| ==> AllBuildable(later[k])
    requires var (born, reply) := Step(s, Exec(parentPid, image, priority));
             var (exited, ran) := Step(Run(born, events).0, e);
             && ran.Ran? && ran.pid == reply.pid && e.result != P.USERMODE_RETURN_YIELD && AllSpared(exited, later, reply.pid)
             && (parentPid == 0 || F.LivePid(Run(exited, later).0.table.processes, parentPid))
    ensures var (born, reply) := Step(s, Exec(parentPid, image, priority));
            var exited := Step(Run(born, events).0, e).0;
            ReplyAfter(exited, later, Wait(parentPid, reply.pid)) == Waited(P.PROCESS_WAIT_OK, reply.pid, e.result)
  {
    hide F.Family, Step, Orderly, AllSpared, OnlyYields, AllBuildable, HasParent;
    var exec := Exec(parentPid, image, priority);
    ExecIsBirth(s, parentPid, image, priority);
    var born, pid := Step(s, exec).0, Step(s, exec).1.pid;
    var before := Run(born, events).0;
    var exited := Step(before, e).0;
    var home := BornRow(s, parentPid, image, priority);
    StepKeepsOrder(s, exec);
    RunsKeepOrder(born, events);
    var j := RanRow(before, e);
    StillInSlot(born, events, home, j, pid);
    StepKeepsOrder(before, e);
    RunsKeepOrder(exited, later);
    LivesOn(exited, later, j, pid);
    ZombieStays(exited, later, j, pid, e.result);
    IsParent(born, j, parentPid);
    KeepsParent(born, events, j, pid, parentPid);
    StepKeepsParent(before, e, j, pid, parentPid);
    KeepsParent(exited, later, j, pid, parentPid);
    ParentOrDead(Run(exited, later).0, j, parentPid);
    WaitForOne(Run(exited, later).0, j, pid, parentPid);
  }

  // ---- when calls succeed --------------------------------------------------------------------------------

  /** A spawn succeeds exactly for an image of one page at most, a priority in range, a parent
      that lives or is 0, with a free slot, and with two of the pager's 128 entries left. */
  lemma {:induction false} ExecSucceedsExactly(s: Plain, parentPid: int, image: seq<Byte>, priority: int)
    requires Orderly(s)
    ensures Step(s, Exec(parentPid, image, priority)).1.Pid?
    ensures Step(s, Exec(parentPid, image, priority)).1.pid != 0 <==>
              && 0 < |image| <= 4096 && 0 <= priority <= 10 && (parentPid == 0 || F.LivePid(s.table.processes, parentPid))
              && (exists j :: 0 <= j < |s.table.processes| && !s.table.processes[j].used) && PagesHeld(s.memory) + 2 <= 128
  {
    hide F.Family, PagesHeld;
    LifeSteps.FamilyPids(s.table);
    LifeSteps.LiveIsFound(s.table, parentPid);
  }

  /** A process that has only yielded since its birth, and was not ended, runs when asked to. */
  lemma {:induction false} RunsWhileItYields(s: Plain, parentPid: int, image: seq<Byte>, priority: int, events: seq<Event>, deeds: seq<Deed>,
                                             result: nat)
    requires Orderly(s) && Step(s, Exec(parentPid, image, priority)).1.pid != 0
    requires forall k :: 0 <= k < |events| ==> AllBuildable(events[k])
    requires var (born, reply) := Step(s, Exec(parentPid, image, priority));
             AllSpared(born, events, reply.pid) && OnlyYields(born, events, reply.pid)
    ensures var (born, reply) := Step(s, Exec(parentPid, image, priority));
            var ran := ReplyAfter(born, events, RunPid(reply.pid, deeds, result));
            ran.Ran? && ran.pid == reply.pid && |ran.answers| == |deeds|
  {
    hide F.Family, Step, Orderly, AllSpared, OnlyYields, AllBuildable;
    var exec := Exec(parentPid, image, priority);
    ExecIsBirth(s, parentPid, image, priority);
    var born, pid := Step(s, exec).0, Step(s, exec).1.pid;
    var j := BornRow(s, parentPid, image, priority);
    StepKeepsOrder(s, exec);
    RunsKeepOrder(born, events);
    LivesOn(born, events, j, pid);
    StaysReady(born, events, j, pid);
    ReadyRuns(Run(born, events).0, j, pid, deeds, result);
  }

  lemma {:induction false} ReadyRuns(s: Plain, j: nat, pid: int, deeds: seq<Deed>, result: nat)
    requires Orderly(s) && Lives(s, j, pid) && s.table.processes[j].state.Ready?
    ensures var ran := Step(s, RunPid(pid, deeds, result)).1; ran.Ran? && ran.pid == pid && |ran.answers| == |deeds|
  {
    hide F.Family, ActAll;
    OneSlotEach(s, j, P.FindByPid(s.table.processes, pid, 0), pid);
    ActAllKeepsSize(EnteredBy(s, pid), deeds);
  }

  // ---- gone for good ----------------------------------------------------------------------------------------

  /** No process has that pid, and none will. */
  predicate Gone(s: Plain, pid: int) {
    pid < s.table.nextPid && forall j :: 0 <= j < |s.table.processes| ==> !Lives(s, j, pid)
  }

  lemma {:induction false} StaysGone(s: Plain, events: seq<Event>, pid: int)
    requires Orderly(s) && Gone(s, pid) && forall k :: 0 <= k < |events| ==> AllBuildable(events[k])
    ensures Gone(Run(s, events).0, pid)
    decreases |events|
  {
    hide F.Family, Step;
    if events != [] {
      var n := |events| - 1;
      var before := Run(s, events[..n]).0;
      StaysGone(s, events[..n], pid);
      RunsKeepOrder(s, events[..n]);
      StepOnTable(before, events[n]);
      StepIsOlder(before.table, ImageOf(before, events[n]));
      assert forall j: nat :: Lives(Run(s, events).0, j, pid) ==> Lives(before, j, pid);
    }
  }

  /** A process that has been killed or collected is never heard of again: it does not run,
      nobody finds it, it is no child and no parent. */
  lemma {:induction false} GoneIsGone(s: Plain, e: Event, pid: int, events: seq<Event>)
    requires Orderly(s) && pid > 0 && forall k :: 0 <= k < |events| ==> AllBuildable(events[k])
    requires (e == Kill(pid) && Step(s, e).1 == Reply.Status(P.PROCESS_KILL_OK))
             || (e.Wait? && Step(s, e).1.Waited? && Step(s, e).1.status == P.PROCESS_WAIT_OK && Step(s, e).1.pid == pid)
    ensures ReplyAfter(Step(s, e).0, events, Kill(pid)) == Reply.Status(P.PROCESS_KILL_NOT_FOUND)
    ensures forall deeds, result :: ReplyAfter(Step(s, e).0, events, RunPid(pid, deeds, result)) == Ran(0, [])
    ensures forall priority :: ReplyAfter(Step(s, e).0, events, SetPriority(pid, priority)) == Set(false)
    ensures ReplyAfter(Step(s, e).0, events, Wait(0, pid)) == Waited(P.PROCESS_WAIT_NO_CHILD, 0, 0)
    ensures forall child :: ReplyAfter(Step(s, e).0, events, Wait(pid, child)) == Waited(P.PROCESS_WAIT_BAD_PARENT, 0, 0)
  {
    hide F.Family, RunOf, Run;
    var u := Step(s, e).0;
    var slot := if e.Kill? then P.FindByPid(s.table.processes, pid, 0)
                else P.FirstExited(s.table.processes, e.parentPid, e.childPid, 0);
    EndedIsGone(s, slot);
    StepKeepsOrder(s, e);
    StaysGone(u, events, pid);
    RunsKeepOrder(u, events);
    GoneAnswers(Run(u, events).0, pid);
  }

  lemma {:induction false} EndedIsGone(s: Plain, slot: nat)
    requires Orderly(s) && slot < |s.memory| && s.table.processes[slot].used && !s.table.processes[slot].state.Running?
    ensures Gone(Ended(s, slot), s.table.processes[slot].pid)
  {
    hide F.Family, P.Released;
    PidIsPast(s, slot);
    forall j: nat | j < |s.memory| ensures !Lives(Ended(s, slot), j, s.table.processes[slot].pid) {
      Laws.ReleaseFate(s.table, slot, j);
      Laws.OneOfEach(s.table, slot);
      if !s.table.processes[j].used {
        StaysUnused(s.table.processes, slot, j);
      }
    }
  }

  lemma {:induction false} StaysUnused(processes: seq<P.Process>, slot: nat, j: nat)
    requires slot < |processes| && j < |processes| && !processes[j].used
    ensures !P.Released(processes, slot)[j].used
  {
  }

  lemma {:induction false} GoneAnswers(s: Plain, pid: int)
    requires Orderly(s) && pid > 0 && Gone(s, pid)
    ensures Step(s, Kill(pid)).1 == Reply.Status(P.PROCESS_KILL_NOT_FOUND)
    ensures forall deeds, result :: Step(s, RunPid(pid, deeds, result)).1 == Ran(0, [])
    ensures forall priority :: Step(s, SetPriority(pid, priority)).1 == Set(false)
    ensures Step(s, Wait(0, pid)).1 == Waited(P.PROCESS_WAIT_NO_CHILD, 0, 0)
    ensures forall child :: Step(s, Wait(pid, child)).1 == Waited(P.PROCESS_WAIT_BAD_PARENT, 0, 0)
  {
    hide F.Family;
    var slot := P.FindByPid(s.table.processes, pid, 0);
    assert slot >= 0 ==> Lives(s, slot, pid);
    forall j | 0 <= j < |s.table.processes| ensures !P.IsChild(s.table.processes[j], 0, pid) {
      assert !Lives(s, j, pid);
    }
  }

  // ---- priorities ------------------------------------------------------------------------------------------

  predicate NoneSets(events: seq<Event>, pid: int) {
    forall k :: 0 <= k < |events| ==> !(events[k].SetPriority? && events[k].pid == pid)
  }

  /** A process keeps the priority it was last given. */
  lemma {:induction false} PriorityStays(s: Plain, events: seq<Event>, j: nat, pid: int)
    requires Orderly(s) && Lives(s, j, pid) && Lives(Run(s, events).0, j, pid) && NoneSets(events, pid)
    requires forall k :: 0 <= k < |events| ==> AllBuildable(events[k])
    ensures Run(s, events).0.table.processes[j].priority == s.table.processes[j].priority
    decreases |events|
  {
    hide Orderly, Step, AllBuildable;
    if events != [] {
      var n := |events| - 1;
      LivedBefore(s, events, j, pid);
      PriorityStays(s, events[..n], j, pid);
      StepRow(Run(s, events[..n]).0, events[n], j, pid);
    }
  }

  /** A process has the priority it was born with, or the one last set. */
  lemma {:induction false} PriorityIsLastSet(s: Plain, e: Event, pid: int, priority: int, events: seq<Event>, j: nat)
    requires Orderly(s) && AllBuildable(e) && pid > 0 && NoneSets(events, pid) && forall k :: 0 <= k < |events| ==> AllBuildable(events[k])
    requires (e == SetPriority(pid, priority) && Step(s, e).1 == Set(true))
             || (e.Exec? && e.priority == priority && Step(s, e).1 == Pid(pid))
    requires Lives(Run(Step(s, e).0, events).0, j, pid)
    ensures Run(Step(s, e).0, events).0.table.processes[j].priority == priority
  {
    hide F.Family, Step;
    var u := Step(s, e).0;
    StepKeepsOrder(s, e);
    var home: nat;
    if e.Exec? {
      home := BornRow(s, e.parentPid, e.image, e.priority);
    } else {
      home := SetRow(s, pid, priority);
    }
    StillInSlot(u, events, home, j, pid);
    PriorityStays(u, events, j, pid);
  }

  lemma {:induction false} SetRow(s: Plain, pid: int, priority: int) returns (j: nat)
    requires Orderly(s) && Step(s, SetPriority(pid, priority)).1 == Set(true)
    ensures Lives(Step(s, SetPriority(pid, priority)).0, j, pid)
    ensures Step(s, SetPriority(pid, priority)).0.table.processes[j].priority == priority
  {
    j := P.FindByPid(s.table.processes, pid, 0);
  }
}
