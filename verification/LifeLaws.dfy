/** What processes and their parents can count on, said in calls and answers: what a load
    answers, and what a wait. */
module LifeLaws {
  import opened Machine
  import opened PmmSpec
  import opened PagerSpec
  import opened SpacesSpec
  import opened SpacesRights
  import opened LifeSpec
  import opened LifeRuns
  import LifeSteps
  import P = ProcessSpec
  import F = ProcessFamily
  import Laws = ProcessLaws

  // ---- a run, deed by deed -----------------------------------------------------------------------------

  /** The answer to deed `k` is that of the state before it. */
  lemma {:induction false} AnswerAt(s: Plain, deeds: seq<Deed>, k: nat)
    requires k < |deeds|
    ensures |ActAll(s, deeds).1| == |deeds| && ActAll(s, deeds).1[k] == Act(ActAll(s, deeds[..k]).0, deeds[k]).1
    decreases |deeds|
  {
    hide Act;
    var n := |deeds| - 1;
    ActAllKeepsSize(s, deeds[..n]);
    if k < n {
      AnswerAt(s, deeds[..n], k);
      assert deeds[..n][..k] == deeds[..k];
    }
  }

  lemma {:induction false} ActAllSplits(s: Plain, deeds: seq<Deed>, k: nat)
    requires k <= |deeds|
    ensures ActAll(s, deeds).0 == ActAll(ActAll(s, deeds[..k]).0, deeds[k..]).0
    decreases |deeds|
  {
    hide Act;
    if k == |deeds| {
      assert deeds[..k] == deeds;
    } else {
      var n := |deeds| - 1;
      ActAllSplits(s, deeds[..n], k);
      assert deeds[..n][..k] == deeds[..k] && deeds[..n][k..] == deeds[k..][..n - k] && deeds[k..][n - k] == deeds[n];
    }
  }

  /** A call that answers with a process's answers has run it, in its slot. */
  lemma {:induction false} RanIn(s: Plain, e: Event) returns (slot: nat)
    requires Orderly(s) && Step(s, e).1.Ran? && Step(s, e).1.pid > 0
    ensures (e.RunPid? || e.Schedule?) && RunBy(s, e) == Step(s, e).1.pid && Lives(s, slot, Step(s, e).1.pid) && slot < |s.memory|
    ensures var entered := EnteredBy(s, Step(s, e).1.pid);
            && Clean(entered) && entered.memory == s.memory && entered.table.currentPid == Step(s, e).1.pid && Slot(entered.table) == slot
            && Lives(entered, slot, Step(s, e).1.pid)
            && Step(s, e).1.answers == ActAll(entered, e.deeds).1 && Step(s, e).0.memory == ActAll(entered, e.deeds).0.memory
    ensures Lives(Step(s, e).0, slot, Step(s, e).1.pid)
    ensures s.table.processes[slot].state.Ready?
  {
    hide F.Family, ActAll, P.Left;
    var pid := Step(s, e).1.pid;
    slot := P.FindByPid(s.table.processes, pid, 0);
    LifeSteps.FamilyPids(s.table);
    if e.Schedule? {
      LifeSteps.SelectedCanRun(s, P.Selected(s.table));
    }
    EntersClean(s, slot);
    StaysAlive(s, pid, e.deeds, e.result);
  }

  lemma {:induction false} EntersClean(s: Plain, slot: nat)
    requires Orderly(s) && slot < |s.memory| && P.Runnable(s.table.processes[slot])
    ensures var entered := s.(table := P.Entered(s.table, slot));
            Clean(entered) && Slot(entered.table) == slot && entered.table.currentPid == s.table.processes[slot].pid > 0
  {
    hide F.Family;
    Laws.OneOfEach(s.table, slot);
    F.EnterKeepsFamily(s.table, slot);
    FamilyIsUnique(P.Entered(s.table, slot));
    F.FindsOwnSlot(P.Entered(s.table, slot).processes, slot);
  }

  lemma {:induction false} StaysAlive(s: Plain, pid: int, deeds: seq<Deed>, result: nat)
    requires Orderly(s) && P.CanRun(s.table, pid)
    ensures Lives(RunOf(s, pid, deeds, result).0, P.FindByPid(s.table.processes, pid, 0), pid)
    ensures RunOf(s, pid, deeds, result).0.memory == ActAll(EnteredBy(s, pid), deeds).0.memory
  {
    hide F.Family, ActAll;
    var slot := P.FindByPid(s.table.processes, pid, 0);
    EntersClean(s, slot);
    ActAllKeepsClean(EnteredBy(s, pid), deeds);
  }

  // ---- a byte of memory ----------------------------------------------------------------------------------

  /** The process in slot `j` has `b` at `virt`. */
  predicate Has(s: Plain, j: nat, virt: U32, b: Byte) {
    && j < |s.memory| && AlignDown(virt) in s.memory[j] && virt % PAGE_SIZE < |s.memory[j][AlignDown(virt)]|
    && s.memory[j][AlignDown(virt)][virt % PAGE_SIZE] == b
  }

  predicate StoresTo(d: Deed, virt: U32) {
    d.Store? && d.virt == virt
  }

  predicate NeverStores(deeds: seq<Deed>, virt: U32) {
    forall k :: 0 <= k < |deeds| ==> !StoresTo(deeds[k], virt)
  }

  lemma {:induction false} TwoAddresses(x: U32, y: U32)
    requires AlignDown(x) == AlignDown(y) && x % PAGE_SIZE == y % PAGE_SIZE
    ensures x == y
  {
  }

  /** A deed leaves the byte alone, unless it stores there and may. */
  lemma {:induction false} ActKeepsByte(s: Plain, d: Deed, j: nat, virt: U32, b: Byte)
    requires Clean(s) && j < |s.memory| && s.table.processes[j].used && Has(s, j, virt, b)
    requires j == Slot(s.table) && StoresTo(d, virt) ==> !MayWrite(AlignDown(virt))
    ensures Has(Act(s, d).0, j, virt, b)
  {
    hide F.Family, Act, Clean;
    ActKeepsClean(s, d);
    ActKeepsSize(s, d);
    if j == Slot(s.table) {
      OwnDeedKeepsByte(s, d, virt, b);
    }
  }

  lemma {:induction false} OwnDeedKeepsByte(s: Plain, d: Deed, virt: U32, b: Byte)
    requires Clean(s) && 0 <= Slot(s.table) < |s.memory| && Has(s, Slot(s.table), virt, b)
    requires StoresTo(d, virt) ==> !MayWrite(AlignDown(virt))
    ensures Has(Act(s, d).0, Slot(s.table), virt, b)
  {
    hide F.Family, Born, Padded, AlignDown, MayWrite;
    match d {
      case Store(x, _) =>
        if AlignDown(x) == AlignDown(virt) && x % PAGE_SIZE == virt % PAGE_SIZE {
          TwoAddresses(x, virt);
        }
      case Spawn(known, image) => BirthLeaves(s, image, Slot(s.table));
      case _ =>
    }
  }

  lemma {:induction false} BirthLeaves(s: Plain, image: seq<Byte>, j: nat)
    requires Clean(s) && j < |s.memory| && s.table.processes[j].used
    ensures var after := Born(s, s.table.currentPid, image, P.PROCESS_PRIORITY_DEFAULT, true).0;
            |after.memory| == |s.memory| && after.memory[j] == s.memory[j]
  {
  }

  lemma {:induction false} ActAllKeepsByte(s: Plain, deeds: seq<Deed>, j: nat, virt: U32, b: Byte)
    requires Clean(s) && s.table.currentPid != 0 && Slot(s.table) >= 0
    requires j < |s.memory| && s.table.processes[j].used && Has(s, j, virt, b)
    requires j == Slot(s.table) ==> !MayWrite(AlignDown(virt)) || NeverStores(deeds, virt)
    ensures Has(ActAll(s, deeds).0, j, virt, b)
  {
    hide F.Family, Act, Has, Clean, StoresTo;
    if deeds != [] {
      var n := |deeds| - 1;
      ActAllKeepsByte(s, deeds[..n], j, virt, b);
      ActAllKeepsClean(s, deeds[..n]);
      ActKeepsByte(ActAll(s, deeds[..n]).0, deeds[n], j, virt, b);
    }
  }

  /** The call, if it runs `pid`, does not store to `virt`. */
  predicate Spares(e: Event, reply: Reply, pid: int, virt: U32) {
    reply.Ran? && reply.pid == pid && (e.RunPid? || e.Schedule?) ==> NeverStores(e.deeds, virt)
  }

  lemma {:induction false} StepKeepsByte(s: Plain, e: Event, j: nat, pid: int, virt: U32, b: Byte)
    requires Orderly(s) && pid > 0 && Lives(s, j, pid) && Lives(Step(s, e).0, j, pid) && Has(s, j, virt, b)
    requires !MayWrite(AlignDown(virt)) || Spares(e, Step(s, e).1, pid, virt)
    ensures Has(Step(s, e).0, j, virt, b)
  {
    hide F.Family, NeverStores, ActAll, Clean;
    if Step(s, e).1.Ran? && Step(s, e).1.pid == pid {
      var slot := RanIn(s, e);
      OneSlotEach(s, slot, j, pid);
      ActAllKeepsByte(EnteredBy(s, pid), e.deeds, j, virt, b);
    } else {
      NotRunBy(s, e, pid);
      StepKeepsOrder(s, e);
    }
  }

  lemma {:induction false} OneSlotEach(s: Plain, i: nat, j: nat, pid: int)
    requires F.Family(s.table) && Lives(s, i, pid) && Lives(s, j, pid)
    ensures i == j
  {
  }

  /** A call that does not answer for `pid` does not run it, or changes nothing. */
  lemma {:induction false} NotRunBy(s: Plain, e: Event, pid: int)
    requires Orderly(s) && pid > 0 && !(Step(s, e).1.Ran? && Step(s, e).1.pid == pid)
    ensures RunBy(s, e) != pid || Step(s, e).0 == s
  {
    hide F.Family, ActAll;
    if e.Schedule? && P.Selected(s.table) >= 0 {
      LifeSteps.SelectedCanRun(s, P.Selected(s.table));
    }
  }

  /** Who lives at the end lived before: pids are not used again. */
  lemma {:induction false} LivedBefore(s: Plain, events: seq<Event>, j: nat, pid: int)
    requires Orderly(s) && events != [] && Lives(s, j, pid) && Lives(Run(s, events).0, j, pid)
    requires forall k :: 0 <= k < |events| ==> AllBuildable(events[k])
    ensures Orderly(Run(s, events[..|events| - 1]).0) && Lives(Run(s, events[..|events| - 1]).0, j, pid)
  {
    hide F.Family, Step;
    var n := |events| - 1;
    var before := Run(s, events[..n]).0;
    RunsKeepOrder(s, events[..n]);
    NextPidGrows(s, events[..n]);
    StepOnTable(before, events[n]);
    StepIsOlder(before.table, ImageOf(before, events[n]));
    PidIsPast(s, j);
  }

  predicate AllSpare(s: Plain, events: seq<Event>, pid: int, virt: U32) {
    forall k :: 0 <= k < |events| ==> Spares(events[k], Run(s, events).1[k], pid, virt)
  }

  /** A byte stays through any calls, as long as its process lives and does not store there. */
  lemma {:induction false} RunKeepsByte(s: Plain, events: seq<Event>, j: nat, pid: int, virt: U32, b: Byte)
    requires Orderly(s) && pid > 0 && Lives(s, j, pid) && Lives(Run(s, events).0, j, pid) && Has(s, j, virt, b)
    requires forall k :: 0 <= k < |events| ==> AllBuildable(events[k])
    requires !MayWrite(AlignDown(virt)) || AllSpare(s, events, pid, virt)
    ensures Has(Run(s, events).0, j, virt, b)
    decreases |events|
  {
    hide F.Family, Step, Spares, Has, Lives, Orderly, AllBuildable;
    if events != [] {
      var n := |events| - 1;
      LivedBefore(s, events, j, pid);
      assert Run(s, events).1[n] == Step(Run(s, events[..n]).0, events[n]).1;
      forall k | 0 <= k < n ensures Run(s, events[..n]).1[k] == Run(s, events).1[k] {
      }
      RunKeepsByte(s, events[..n], j, pid, virt, b);
      StepKeepsByte(Run(s, events[..n]).0, events[n], j, pid, virt, b);
    }
  }

  /** A load answers the byte that is there when its turn comes. */
  lemma {:induction false} LoadAnswers(s: Plain, e: Event, j: nat, k: nat, virt: U32, b: Byte)
    requires Orderly(s) && Step(s, e).1.Ran? && Step(s, e).1.pid > 0 && Lives(s, j, Step(s, e).1.pid) && Has(s, j, virt, b)
    requires (e.RunPid? || e.Schedule?) && k < |e.deeds| && e.deeds[k] == Load(virt)
    requires !MayWrite(AlignDown(virt)) || NeverStores(e.deeds[..k], virt)
    ensures k < |Step(s, e).1.answers| && Step(s, e).1.answers[k] == Got(b)
  {
    hide F.Family, Step, NeverStores, ActAll, Clean;
    var pid := Step(s, e).1.pid;
    var slot := RanIn(s, e);
    OneSlotEach(s, slot, j, pid);
    var entered := EnteredBy(s, pid);
    AnswerAt(entered, e.deeds, k);
    ActAllKeepsByte(entered, e.deeds[..k], j, virt, b);
    ActAllKeepsClean(entered, e.deeds[..k]);
  }

  // ---- what a load answers -------------------------------------------------------------------------------

  /** What call `f` answers after `events`. */
  function ReplyAfter(s: Plain, events: seq<Event>, f: Event): Reply {
    Step(Run(s, events).0, f).1
  }

  /** A new process has its image at the start of its code page, zeros behind it, and zeros in
      its stack page. */
  lemma {:induction false} BornWith(s: Plain, parentPid: int, image: seq<Byte>, priority: int, i: nat) returns (j: nat)
    requires Clean(s) && i < PAGE_SIZE && Born(s, parentPid, image, priority, true).1 != 0
    ensures var (after, pid) := Born(s, parentPid, image, priority, true);
            && pid > 0 && Lives(after, j, pid) && !s.table.processes[j].used
            && Has(after, j, PROCESS_USER_CODE_BASE + i, if i < |image| then image[i] else 0)
            && Has(after, j, PROCESS_USER_STACK_PAGE + i, 0)
  {
    hide F.Family, PagesHeld;
    LifeSteps.FamilyPids(s.table);
    j := P.FindFree(s.table.processes, 0);
  }

  lemma {:induction false} CodeIsFixed(i: nat)
    requires i < PAGE_SIZE
    ensures AlignDown(PROCESS_USER_CODE_BASE + i) == PROCESS_USER_CODE_BASE && !MayWrite(AlignDown(PROCESS_USER_CODE_BASE + i))
  {
  }

  /** Whatever happens in between, a process loads its own image, byte for byte, and zeros
      behind it. */
  lemma {:induction false} ImageIsLoaded(s: Plain, parentPid: int, image: seq<Byte>, priority: int, events: seq<Event>, f: Event, k: nat, i: nat)
    requires Orderly(s) && i < PAGE_SIZE && forall n :: 0 <= n < |events| ==> AllBuildable(events[n])
    requires var (born, reply) := Step(s, Exec(parentPid, image, priority));
             && reply.Pid? && reply.pid != 0 && ReplyAfter(born, events, f).Ran? && ReplyAfter(born, events, f).pid == reply.pid
    requires (f.RunPid? || f.Schedule?) && k < |f.deeds| && f.deeds[k] == Load(PROCESS_USER_CODE_BASE + i)
    ensures var answers := ReplyAfter(Step(s, Exec(parentPid, image, priority)).0, events, f).answers;
            k < |answers| && answers[k] == Got(if i < |image| then image[i] else 0)
  {
    hide F.Family, Step, Born, Has, NeverStores, MayWrite, Run;
    var exec := Exec(parentPid, image, priority);
    ExecIsBirth(s, parentPid, image, priority);
    var j := BornWith(s, parentPid, image, priority, i);
    var born, pid := Step(s, exec).0, Step(s, exec).1.pid;
    StepKeepsOrder(s, exec);
    RunsKeepOrder(born, events);
    var slot := RanIn(Run(born, events).0, f);
    StillInSlot(born, events, j, slot, pid);
    CodeIsFixed(i);
    var b: Byte := if i < |image| then image[i] else 0;
    RunKeepsByte(born, events, j, pid, PROCESS_USER_CODE_BASE + i, b);
    LoadAnswers(Run(born, events).0, f, j, k, PROCESS_USER_CODE_BASE + i, b);
  }

  lemma {:induction false} ExecIsBirth(s: Plain, parentPid: int, image: seq<Byte>, priority: int)
    ensures Step(s, Exec(parentPid, image, priority)) == (Born(s, parentPid, image, priority, true).0, Pid(Born(s, parentPid, image, priority, true).1))
  {
  }

  /** A process does not move to another slot. */
  lemma {:induction false} StillInSlot(s: Plain, events: seq<Event>, j: nat, slot: nat, pid: int)
    requires Orderly(s) && Lives(s, j, pid) && Lives(Run(s, events).0, slot, pid)
    requires forall k :: 0 <= k < |events| ==> AllBuildable(events[k])
    ensures slot == j
    decreases |events|
  {
    hide F.Family, Step;
    if events == [] {
      OneSlotEach(s, slot, j, pid);
    } else {
      var n := |events| - 1;
      var before := Run(s, events[..n]).0;
      RunsKeepOrder(s, events[..n]);
      NextPidGrows(s, events[..n]);
      StepOnTable(before, events[n]);
      StepIsOlder(before.table, ImageOf(before, events[n]));
      PidIsPast(s, j);
      StillInSlot(s, events[..n], j, slot, pid);
    }
  }

  /** A new process's stack page holds zeros until it stores there. */
  lemma {:induction false} StackStartsZero(s: Plain, parentPid: int, image: seq<Byte>, priority: int, events: seq<Event>, f: Event, k: nat, i: nat)
    requires Orderly(s) && i < PAGE_SIZE && forall n :: 0 <= n < |events| ==> AllBuildable(events[n])
    requires var (born, reply) := Step(s, Exec(parentPid, image, priority));
             && reply.Pid? && reply.pid != 0 && ReplyAfter(born, events, f).Ran? && ReplyAfter(born, events, f).pid == reply.pid
             && AllSpare(born, events, reply.pid, PROCESS_USER_STACK_PAGE + i)
    requires (f.RunPid? || f.Schedule?) && k < |f.deeds| && f.deeds[k] == Load(PROCESS_USER_STACK_PAGE + i)
    requires NeverStores(f.deeds[..k], PROCESS_USER_STACK_PAGE + i)
    ensures var answers := ReplyAfter(Step(s, Exec(parentPid, image, priority)).0, events, f).answers;
            k < |answers| && answers[k] == Got(0)
  {
    hide F.Family, Step, Born, Has, NeverStores, MayWrite, Run, AllSpare;
    var exec := Exec(parentPid, image, priority);
    ExecIsBirth(s, parentPid, image, priority);
    var j := BornWith(s, parentPid, image, priority, i);
    var born, pid := Step(s, exec).0, Step(s, exec).1.pid;
    StepKeepsOrder(s, exec);
    RunsKeepOrder(born, events);
    var slot := RanIn(Run(born, events).0, f);
    StillInSlot(born, events, j, slot, pid);
    RunKeepsByte(born, events, j, pid, PROCESS_USER_STACK_PAGE + i, 0);
    LoadAnswers(Run(born, events).0, f, j, k, PROCESS_USER_STACK_PAGE + i, 0);
  }

  /** A store that is not refused puts its byte there. */
  lemma {:induction false} StoredIsThere(s: Plain, virt: U32, b: Byte)
    requires 0 <= Slot(s.table) < |s.memory| && Act(s, Store(virt, b)).1 == Stored
    ensures Has(Act(s, Store(virt, b)).0, Slot(s.table), virt, b)
  {
  }

  /** After a store and with none to that address behind it, the byte is there at the end. */
  lemma {:induction false} StoredAtEnd(s: Plain, e: Event, j: nat, virt: U32, b: Byte) returns (slot: nat)
    requires Orderly(s) && Step(s, e).1.Ran? && Step(s, e).1.pid > 0 && (e.RunPid? || e.Schedule?)
    requires j < |e.deeds| && e.deeds[j] == Store(virt, b) && j < |Step(s, e).1.answers| && Step(s, e).1.answers[j] == Stored
    requires NeverStores(e.deeds[j + 1..], virt)
    ensures Lives(Step(s, e).0, slot, Step(s, e).1.pid) && Has(Step(s, e).0, slot, virt, b)
  {
    hide F.Family, Step, NeverStores, ActAll, Act, Clean;
    slot := RanIn(s, e);
    var entered := EnteredBy(s, Step(s, e).1.pid);
    assert e.deeds[j + 1..|e.deeds|] == e.deeds[j + 1..] && e.deeds[..|e.deeds|] == e.deeds;
    var there := StoredInRun(entered, e.deeds, j, |e.deeds|, virt, b);
  }

  /** And before deed `k` of the same run. */
  lemma {:induction false} StoredInRun(s: Plain, deeds: seq<Deed>, j: nat, k: nat, virt: U32, b: Byte) returns (slot: nat)
    requires Clean(s) && s.table.currentPid != 0 && 0 <= Slot(s.table) && j < k <= |deeds|
    requires deeds[j] == Store(virt, b) && j < |ActAll(s, deeds).1| && ActAll(s, deeds).1[j] == Stored && NeverStores(deeds[j + 1..k], virt)
    ensures slot == Slot(s.table) && Has(ActAll(s, deeds[..k]).0, slot, virt, b)
  {
    hide F.Family, Act, Clean, Has, NeverStores;
    slot := Slot(s.table);
    AnswerAt(s, deeds, j);
    ActAllKeepsClean(s, deeds[..j]);
    var before := ActAll(s, deeds[..j]).0;
    CleanSize(before);
    StoredIsThere(before, virt, b);
    assert deeds[..j + 1][..j] == deeds[..j];
    ActAllKeepsClean(s, deeds[..j + 1]);
    CleanSize(ActAll(s, deeds[..j + 1]).0);
    ActAllSplits(s, deeds[..k], j + 1);
    assert deeds[..k][..j + 1] == deeds[..j + 1] && deeds[..k][j + 1..] == deeds[j + 1..k];
    ActAllKeepsByte(ActAll(s, deeds[..j + 1]).0, deeds[j + 1..k], slot, virt, b);
  }

  lemma {:induction false} CleanSize(s: Plain)
    requires Clean(s)
    ensures |s.memory| == |s.table.processes|
  {
  }

  /** In one run a load answers the byte last stored at its address. */
  lemma {:induction false} LoadAfterStore(s: Plain, e: Event, j: nat, k: nat, virt: U32, b: Byte)
    requires Orderly(s) && Step(s, e).1.Ran? && Step(s, e).1.pid > 0 && (e.RunPid? || e.Schedule?)
    requires j < k < |e.deeds| && e.deeds[j] == Store(virt, b) && e.deeds[k] == Load(virt) && NeverStores(e.deeds[j + 1..k], virt)
    requires j < |Step(s, e).1.answers| && Step(s, e).1.answers[j] == Stored
    ensures k < |Step(s, e).1.answers| && Step(s, e).1.answers[k] == Got(b)
  {
    hide F.Family, Step, NeverStores, ActAll, Clean;
    var slot := RanIn(s, e);
    var entered := EnteredBy(s, Step(s, e).1.pid);
    var there := StoredInRun(entered, e.deeds, j, k, virt, b);
    AnswerAt(entered, e.deeds, k);
    ActAllKeepsClean(entered, e.deeds[..k]);
  }

  /** So it does when the process is run again, whatever happened in between. */
  lemma {:induction false} LastStoreIsLoaded(s: Plain, e: Event, j: nat, events: seq<Event>, f: Event, k: nat, virt: U32, b: Byte)
    requires Orderly(s) && Step(s, e).1.Ran? && Step(s, e).1.pid > 0 && (e.RunPid? || e.Schedule?) && (f.RunPid? || f.Schedule?)
    requires j < |e.deeds| && e.deeds[j] == Store(virt, b) && j < |Step(s, e).1.answers| && Step(s, e).1.answers[j] == Stored
    requires NeverStores(e.deeds[j + 1..], virt) && AllSpare(Step(s, e).0, events, Step(s, e).1.pid, virt)
    requires forall n :: 0 <= n < |events| ==> AllBuildable(events[n])
    requires var reply := ReplyAfter(Step(s, e).0, events, f); reply.Ran? && reply.pid == Step(s, e).1.pid
    requires k < |f.deeds| && f.deeds[k] == Load(virt) && NeverStores(f.deeds[..k], virt)
    ensures var answers := ReplyAfter(Step(s, e).0, events, f).answers; k < |answers| && answers[k] == Got(b)
  {
    hide F.Family, Step, Has, NeverStores, MayWrite, Run, AllSpare, Clean;
    var pid := Step(s, e).1.pid;
    var home := StoredAtEnd(s, e, j, virt, b);
    StepKeepsOrder(s, e);
    RunsKeepOrder(Step(s, e).0, events);
    var slot := RanIn(Run(Step(s, e).0, events).0, f);
    StillInSlot(Step(s, e).0, events, home, slot, pid);
    RunKeepsByte(Step(s, e).0, events, home, pid, virt, b);
    LoadAnswers(Run(Step(s, e).0, events).0, f, home, k, virt, b);
  }

  /** A process that spawns a built-in application gets a child with that image. */
  lemma {:induction false} SpawnedImageIsLoaded(s: Plain, e: Event, j: nat, image: seq<Byte>, events: seq<Event>, f: Event, k: nat, i: nat)
    requires Orderly(s) && i < PAGE_SIZE && forall n :: 0 <= n < |events| ==> AllBuildable(events[n])
    requires Step(s, e).1.Ran? && Step(s, e).1.pid > 0 && (e.RunPid? || e.Schedule?) && (f.RunPid? || f.Schedule?)
    requires j < |e.deeds| && e.deeds[j] == Spawn(true, image) && j < |Step(s, e).1.answers|
    requires var answer := Step(s, e).1.answers[j];
             var reply := ReplyAfter(Step(s, e).0, events, f);
             answer.Number? && answer.n != 0 && reply.Ran? && reply.pid == answer.n
    requires k < |f.deeds| && f.deeds[k] == Load(PROCESS_USER_CODE_BASE + i)
    ensures var answers := ReplyAfter(Step(s, e).0, events, f).answers;
            k < |answers| && answers[k] == Got(if i < |image| then image[i] else 0)
  {
    hide F.Family, Step, Has, NeverStores, MayWrite, Run, AllSpare, Clean;
    var child := Step(s, e).1.answers[j].n;
    var home := ChildAtEnd(s, e, j, image, i);
    StepKeepsOrder(s, e);
    RunsKeepOrder(Step(s, e).0, events);
    var slot := RanIn(Run(Step(s, e).0, events).0, f);
    StillInSlot(Step(s, e).0, events, home, slot, child);
    CodeIsFixed(i);
    var b: Byte := if i < |image| then image[i] else 0;
    RunKeepsByte(Step(s, e).0, events, home, child, PROCESS_USER_CODE_BASE + i, b);
    LoadAnswers(Run(Step(s, e).0, events).0, f, home, k, PROCESS_USER_CODE_BASE + i, b);
  }

  lemma {:induction false} ChildAtEnd(s: Plain, e: Event, j: nat, image: seq<Byte>, i: nat) returns (home: nat)
    requires Orderly(s) && i < PAGE_SIZE && Step(s, e).1.Ran? && Step(s, e).1.pid > 0 && (e.RunPid? || e.Schedule?)
    requires j < |e.deeds| && e.deeds[j] == Spawn(true, image) && j < |Step(s, e).1.answers|
    requires Step(s, e).1.answers[j].Number? && Step(s, e).1.answers[j].n != 0
    ensures Lives(Step(s, e).0, home, Step(s, e).1.answers[j].n) && Step(s, e).1.answers[j].n > 0
    ensures Has(Step(s, e).0, home, PROCESS_USER_CODE_BASE + i, if i < |image| then image[i] else 0)
  {
    hide F.Family, Step, ActAll, Act, Clean, MayWrite;
    var slot := RanIn(s, e);
    var entered := EnteredBy(s, Step(s, e).1.pid);
    AnswerAt(entered, e.deeds, j);
    ActAllKeepsClean(entered, e.deeds[..j]);
    var before := ActAll(entered, e.deeds[..j]).0;
    home := BornInRun(before, image, i);
    var after := ActAll(entered, e.deeds[..j + 1]).0;
    OneMore(entered, e.deeds, j);
    ActAllKeepsClean(entered, e.deeds[..j + 1]);
    CleanSize(after);
    CodeIsFixed(i);
    ActAllSplits(entered, e.deeds, j + 1);
    ActAllKeepsByte(after, e.deeds[j + 1..], home, PROCESS_USER_CODE_BASE + i, if i < |image| then image[i] else 0);
    ActAllKeepsClean(after, e.deeds[j + 1..]);
    CleanSize(ActAll(entered, e.deeds).0);
    LeavesAlive(s, e, home, Step(s, e).1.answers[j].n);
  }

  lemma {:induction false} BornInRun(s: Plain, image: seq<Byte>, i: nat) returns (home: nat)
    requires Clean(s) && s.table.currentPid != 0 && 0 <= Slot(s.table) && i < PAGE_SIZE
    requires Act(s, Spawn(true, image)).1.Number? && Act(s, Spawn(true, image)).1.n != 0
    ensures Act(s, Spawn(true, image)).1.n > 0 && Lives(Act(s, Spawn(true, image)).0, home, Act(s, Spawn(true, image)).1.n)
    ensures home != Slot(s.table)
    ensures Has(Act(s, Spawn(true, image)).0, home, PROCESS_USER_CODE_BASE + i, if i < |image| then image[i] else 0)
  {
    hide F.Family, Born, Has;
    home := BornWith(s, s.table.currentPid, image, P.PROCESS_PRIORITY_DEFAULT, i);
  }

  /** Who is there when a process leaves is there afterwards. */
  lemma {:induction false} LeavesAlive(s: Plain, e: Event, j: nat, pid: int)
    requires Orderly(s) && Step(s, e).1.Ran? && Step(s, e).1.pid > 0 && (e.RunPid? || e.Schedule?)
    requires Lives(ActAll(EnteredBy(s, Step(s, e).1.pid), e.deeds).0, j, pid)
    ensures Lives(Step(s, e).0, j, pid)
  {
    hide F.Family, ActAll;
    if e.Schedule? {
      LifeSteps.SelectedCanRun(s, P.Selected(s.table));
    }
  }

  // ---- which addresses answer at all ---------------------------------------------------------------------

  /** The pages a process can have: code, stack, and 24 from 48 MiB on. */
  predicate OwnPage(x: U32) {
    x == PROCESS_USER_CODE_BASE || x == PROCESS_USER_STACK_PAGE || (0x0300_0000 <= x < 0x0300_0000 + 24 * PAGE_SIZE && x % PAGE_SIZE == 0)
  }

  ghost predicate Paged(s: Plain) {
    forall j :: 0 <= j < |s.memory| ==> WholePages(s.memory[j])
  }

  ghost predicate WholePages(m: Memory) {
    forall x :: x in m ==> OwnPage(x) && |m[x]| == PAGE_SIZE
  }

  lemma {:induction false} VmVirtIsOwn(n: nat)
    requires n < PROCESS_USER_VM_PAGE_COUNT
    ensures OwnPage(VmVirt(n)) && VmVirt(n) == 0x0300_0000 + 4096 * n
  {
  }

  lemma {:induction false} ActKeepsPaged(s: Plain, d: Deed)
    requires Paged(s)
    ensures Paged(Act(s, d).0)
  {
    hide OwnPage, Padded, P.FindFree, P.FindByPid, PagesHeld;
    if d.VmAlloc? && d.n < PROCESS_USER_VM_PAGE_COUNT {
      VmVirtIsOwn(d.n);
    }
    StartIsOwn();
  }

  lemma {:induction false} StartIsOwn()
    ensures OwnPage(PROCESS_USER_CODE_BASE) && OwnPage(PROCESS_USER_STACK_PAGE)
  {
  }

  lemma {:induction false} ActAllKeepsPaged(s: Plain, deeds: seq<Deed>)
    requires Paged(s)
    ensures Paged(ActAll(s, deeds).0)
  {
    hide Paged, Act;
    if deeds != [] {
      ActAllKeepsPaged(s, deeds[..|deeds| - 1]);
      ActKeepsPaged(ActAll(s, deeds[..|deeds| - 1]).0, deeds[|deeds| - 1]);
    }
  }

  lemma {:induction false} ReapKeepsPaged(s: Plain, n: nat)
    requires Paged(s)
    ensures Paged(ReapedTo(s, n))
  {
    if n > 0 {
      ReapKeepsPaged(s, n - 1);
    }
  }

  lemma {:induction false} StepKeepsPaged(s: Plain, e: Event)
    requires Paged(s)
    ensures Paged(Step(s, e).0)
  {
    hide Paged, ActAll, Born, ReapedTo, Ended, P.Left, P.Reprioritised;
    match e
    case Exec(parentPid, image, priority) => BornKeepsPaged(s, parentPid, image, priority);
    case RunPid(pid, deeds, result) => RunKeepsPaged(s, pid, deeds, result);
    case Schedule(deeds, result) =>
      RunKeepsPaged(s, PickedPid(s), deeds, result);
      SameMemoryPaged(RunOf(s, PickedPid(s), deeds, result).0, Step(s, e).0);
    case Wait(parentPid, childPid) => EndKeepsPaged(s);
    case Kill(pid) => EndKeepsPaged(s);
    case Reap => ReapKeepsPaged(s, |s.table.processes|);
    case SetPriority(_, _) => SameMemoryPaged(s, Step(s, e).0);
  }

  lemma {:induction false} BornKeepsPaged(s: Plain, parentPid: int, image: seq<Byte>, priority: int)
    requires Paged(s)
    ensures Paged(Born(s, parentPid, image, priority, true).0)
  {
    hide OwnPage, Padded, P.FindFree, PagesHeld;
    StartIsOwn();
  }

  lemma {:induction false} EndKeepsPaged(s: Plain)
    requires Paged(s)
    ensures forall slot: nat :: Paged(Ended(s, slot))
  {
  }

  lemma {:induction false} SameMemoryPaged(s: Plain, u: Plain)
    requires Paged(s)
    ensures u.memory == s.memory ==> Paged(u)
  {
  }

  lemma {:induction false} RunKeepsPaged(s: Plain, pid: int, deeds: seq<Deed>, result: nat)
    requires Paged(s)
    ensures Paged(RunOf(s, pid, deeds, result).0)
  {
    hide Paged, ActAll, P.Left;
    if P.CanRun(s.table, pid) {
      SameMemoryPaged(s, EnteredBy(s, pid));
      ActAllKeepsPaged(EnteredBy(s, pid), deeds);
      SameMemoryPaged(ActAll(EnteredBy(s, pid), deeds).0, RunOf(s, pid, deeds, result).0);
    }
  }

  lemma {:induction false} RunsKeepPaged(s: Plain, events: seq<Event>)
    requires Paged(s)
    ensures Paged(Run(s, events).0)
  {
    hide Paged, Step;
    if events != [] {
      RunsKeepPaged(s, events[..|events| - 1]);
      StepKeepsPaged(Run(s, events[..|events| - 1]).0, events[|events| - 1]);
    }
  }

  predicate Stray(d: Deed) {
    || (d.Load? && !OwnPage(AlignDown(d.virt)))
    || (d.Store? && (!OwnPage(AlignDown(d.virt)) || AlignDown(d.virt) == PROCESS_USER_CODE_BASE))
  }

  /** From start-up on, whatever ran: a load outside code, stack and those 24 pages is refused,
      and so is a store there or to the code. */
  lemma {:induction false} ElsewhereIsRefused(slots: nat, events: seq<Event>, f: Event, k: nat)
    requires slots > 0 && ReplyAfter(Fresh(slots), events, f).Ran? && ReplyAfter(Fresh(slots), events, f).pid > 0
    requires (f.RunPid? || f.Schedule?) && k < |f.deeds|
    requires Stray(f.deeds[k])
    ensures k < |ReplyAfter(Fresh(slots), events, f).answers| && ReplyAfter(Fresh(slots), events, f).answers[k] == Refused
  {
    hide F.Family, Step, ActAll, Clean, OwnPage, Paged, Run;
    FreshIsOrderly(slots);
    var t := Run(Fresh(slots), events).0;
    RunsKeepOrder(Fresh(slots), events);
    RunsKeepPaged(Fresh(slots), events);
    var slot := RanIn(t, f);
    var entered := EnteredBy(t, Step(t, f).1.pid);
    SameMemoryPaged(t, entered);
    AnswerAt(entered, f.deeds, k);
    ActAllKeepsPaged(entered, f.deeds[..k]);
    ActAllKeepsClean(entered, f.deeds[..k]);
    RefusesElsewhere(ActAll(entered, f.deeds[..k]).0, f.deeds[k]);
  }

  lemma {:induction false} RefusesElsewhere(s: Plain, d: Deed)
    requires Paged(s) && 0 <= Slot(s.table) < |s.memory|
    requires Stray(d)
    ensures Act(s, d).1 == Refused
  {
  }

  lemma {:induction false} FreshIsOrderly(slots: nat)
    requires slots > 0
    ensures Orderly(Fresh(slots)) && Paged(Fresh(slots))
  {
    F.BootIsFamily(slots);
  }

  // ---- new pages ------------------------------------------------------------------------------------------

  /** The running process has no page at `virt`, or a zero there. */
  predicate ZeroOrNone(s: Plain, virt: U32) {
    var i := Slot(s.table);
    0 <= i < |s.memory| && (AlignDown(virt) !in s.memory[i] || Has(s, i, virt, 0))
  }

  lemma {:induction false} ActKeepsZero(s: Plain, d: Deed, virt: U32)
    requires Clean(s) && s.table.currentPid != 0 && ZeroOrNone(s, virt) && !StoresTo(d, virt)
    ensures ZeroOrNone(Act(s, d).0, virt)
    ensures AlignDown(virt) in s.memory[Slot(s.table)] ==>
              Slot(Act(s, d).0.table) == Slot(s.table) && AlignDown(virt) in Act(s, d).0.memory[Slot(s.table)]
    ensures d.VmAlloc? && Act(s, d).1 == Number(AlignDown(virt)) && AlignDown(virt) != 0 ==>
              AlignDown(virt) in Act(s, d).0.memory[Slot(Act(s, d).0.table)]
  {
    hide F.Family, Born, AlignDown, MayWrite, Act, Clean;
    CleanFamily(s);
    LifeSteps.StaysInSlot(s, d);
    ActKeepsSize(s, d);
    if Has(s, Slot(s.table), virt, 0) {
      OwnDeedKeepsByte(s, d, virt, 0);
    }
    NewPageOnly(s, d, virt);
  }

  lemma {:induction false} CleanFamily(s: Plain)
    requires Clean(s)
    ensures F.Family(s.table)
  {
  }

  lemma {:induction false} NewPageOnly(s: Plain, d: Deed, virt: U32)
    requires Clean(s) && 0 <= Slot(s.table) < |s.memory|
    ensures var m, after := s.memory[Slot(s.table)], Act(s, d).0.memory;
            && |after| == |s.memory|
            && (AlignDown(virt) !in m ==>
                  AlignDown(virt) !in after[Slot(s.table)] || Has(Act(s, d).0, Slot(s.table), virt, 0))
            && (d.VmAlloc? && Act(s, d).1 == Number(AlignDown(virt)) && AlignDown(virt) != 0 ==> AlignDown(virt) in after[Slot(s.table)])
  {
    hide F.Family, Born, AlignDown, MayWrite;
    AlignedDown(virt);
    if d.Spawn? {
      BirthLeaves(s, d.image, Slot(s.table));
    }
  }

  lemma {:induction false} AlignedDown(virt: U32)
    ensures AlignDown(virt) % PAGE_SIZE == 0
  {
  }

  lemma {:induction false} StaysZero(s: Plain, deeds: seq<Deed>, virt: U32)
    requires Clean(s) && s.table.currentPid != 0 && ZeroOrNone(s, virt) && NeverStores(deeds, virt)
    ensures ZeroOrNone(ActAll(s, deeds).0, virt)
    ensures AlignDown(virt) in s.memory[Slot(s.table)] ==>
              AlignDown(virt) in ActAll(s, deeds).0.memory[Slot(ActAll(s, deeds).0.table)]
  {
    hide F.Family, Act, Clean, Has, StoresTo;
    if deeds != [] {
      var n := |deeds| - 1;
      StaysZero(s, deeds[..n], virt);
      ActAllKeepsClean(s, deeds[..n]);
      ActKeepsZero(ActAll(s, deeds[..n]).0, deeds[n], virt);
    }
  }

  /** A page that `vm_alloc` has just made, refused before, holds zeros until it is stored to. */
  lemma {:induction false} NewPageIsZero(s: Plain, e: Event, i: nat, j: nat, k: nat, n: U32, virt: U32)
    requires Orderly(s) && Paged(s) && Step(s, e).1.Ran? && Step(s, e).1.pid > 0 && (e.RunPid? || e.Schedule?)
    requires i < j < k < |e.deeds| && |Step(s, e).1.answers| == |e.deeds|
    requires e.deeds[i] == Load(virt) && Step(s, e).1.answers[i] == Refused
    requires e.deeds[j] == VmAlloc(n) && Step(s, e).1.answers[j] == Number(AlignDown(virt)) && AlignDown(virt) != 0
    requires e.deeds[k] == Load(virt) && NeverStores(e.deeds[i..k], virt)
    ensures Step(s, e).1.answers[k] == Got(0)
  {
    hide F.Family, Step, ActAll, Clean, NeverStores, Paged, Has, Act;
    var slot := RanIn(s, e);
    var entered := EnteredBy(s, Step(s, e).1.pid);
    var deeds := e.deeds;
    AnswerAt(entered, deeds, i);
    AnswerAt(entered, deeds, j);
    AnswerAt(entered, deeds, k);
    SameMemoryPaged(s, entered);
    ActAllKeepsPaged(entered, deeds[..i]);
    ActAllKeepsClean(entered, deeds[..i]);
    ActAllKeepsClean(entered, deeds[..j]);
    ActAllKeepsClean(entered, deeds[..j + 1]);
    ActAllKeepsClean(entered, deeds[..k]);
    RefusedIsNone(ActAll(entered, deeds[..i]).0, virt);
    PartsSpare(deeds, i, j, k, virt);
    ActAllSplits(entered, deeds[..j], i);
    assert deeds[..j][..i] == deeds[..i] && deeds[..j][i..] == deeds[i..j];
    StaysZero(ActAll(entered, deeds[..i]).0, deeds[i..j], virt);
    ActKeepsZero(ActAll(entered, deeds[..j]).0, deeds[j], virt);
    OneMore(entered, deeds, j);
    ActAllSplits(entered, deeds[..k], j + 1);
    assert deeds[..k][..j + 1] == deeds[..j + 1] && deeds[..k][j + 1..] == deeds[j + 1..k];
    StaysZero(ActAll(entered, deeds[..j + 1]).0, deeds[j + 1..k], virt);
    ZeroAnswers(ActAll(entered, deeds[..k]).0, virt);
  }

  lemma {:induction false} OneMore(s: Plain, deeds: seq<Deed>, j: nat)
    requires j < |deeds|
    ensures ActAll(s, deeds[..j + 1]).0 == Act(ActAll(s, deeds[..j]).0, deeds[j]).0
  {
    assert deeds[..j + 1][..j] == deeds[..j];
  }

  lemma {:induction false} PartsSpare(deeds: seq<Deed>, i: nat, j: nat, k: nat, virt: U32)
    requires i < j < k <= |deeds| && NeverStores(deeds[i..k], virt)
    ensures NeverStores(deeds[i..j], virt) && !StoresTo(deeds[j], virt) && NeverStores(deeds[j + 1..k], virt)
  {
    var part := deeds[i..k];
    assert deeds[i..j] == part[..j - i] && deeds[j] == part[j - i] && deeds[j + 1..k] == part[j + 1 - i..];
  }

  lemma {:induction false} WholePage(s: Plain, j: nat, x: U32)
    requires Paged(s) && j < |s.memory|
    ensures x in s.memory[j] ==> |s.memory[j][x]| == PAGE_SIZE
  {
  }

  lemma {:induction false} RefusedIsNone(s: Plain, virt: U32)
    requires Paged(s) && 0 <= Slot(s.table) < |s.memory| && Act(s, Load(virt)).1 == Refused
    ensures ZeroOrNone(s, virt)
  {
    WholePage(s, Slot(s.table), AlignDown(virt));
  }

  lemma {:induction false} ZeroAnswers(s: Plain, virt: U32)
    requires ZeroOrNone(s, virt) && AlignDown(virt) in s.memory[Slot(s.table)]
    ensures Act(s, Load(virt)).1 == Got(0)
  {
  }

  /** Where a load is answered a store is, too, but not on the code page; and where it is
      refused, so is the store. */
  lemma {:induction false} StoreAnswers(s: Plain, e: Event, k: nat, virt: U32, b: Byte)
    requires Orderly(s) && Step(s, e).1.Ran? && Step(s, e).1.pid > 0 && (e.RunPid? || e.Schedule?) && |Step(s, e).1.answers| == |e.deeds|
    requires k + 1 < |e.deeds| && e.deeds[k] == Load(virt) && e.deeds[k + 1] == Store(virt, b)
    ensures Step(s, e).1.answers[k + 1] ==
            if Step(s, e).1.answers[k].Got? && AlignDown(virt) != PROCESS_USER_CODE_BASE then Stored else Refused
  {
    hide F.Family, Step, ActAll, Clean;
    var slot := RanIn(s, e);
    var entered := EnteredBy(s, Step(s, e).1.pid);
    AnswerAt(entered, e.deeds, k);
    AnswerAt(entered, e.deeds, k + 1);
    OneMore(entered, e.deeds, k);
    ActAllKeepsClean(entered, e.deeds[..k]);
  }
}
