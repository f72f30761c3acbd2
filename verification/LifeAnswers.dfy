/** When each call of the kernel and each deed of a process succeeds, and what it answers,
    said of the processes and pages there are. */
module LifeAnswers {
  import opened Machine
  import opened PmmSpec
  import opened PagerSpec
  import opened SpacesSpec
  import opened LifeSpec
  import opened LifeRuns
  import opened LifeLaws
  import LifeSteps
  import P = ProcessSpec
  import F = ProcessFamily

  // ---- calls ---------------------------------------------------------------------------------------------

  /** A child of `parentPid`, the one asked for if one is, that has exited. */
  predicate Exited(p: P.Process, parentPid: int, childPid: int) {
    Child(p, parentPid, childPid) && p.state.Zombie?
  }

  predicate Child(p: P.Process, parentPid: int, childPid: int) {
    p.used && p.parentPid == parentPid && (childPid == 0 || childPid == p.pid)
  }

  /** The first slot with an exited child. */
  predicate FirstExit(processes: seq<P.Process>, j: nat, parentPid: int, childPid: int) {
    && j < |processes| && Exited(processes[j], parentPid, childPid)
    && forall i :: 0 <= i < j ==> !Exited(processes[i], parentPid, childPid)
  }

  /** A wait collects the exited child in the lowest slot, with its exit code; there is an
      answer for no parent, for no exited child, and for no child at all. */
  lemma {:induction false} WaitAnswersExactly(s: Plain, parentPid: int, childPid: int)
    requires Orderly(s)
    ensures var reply, rows := Step(s, Wait(parentPid, childPid)).1, s.table.processes;
            if parentPid != 0 && !exists i :: Lives(s, i, parentPid) then reply == Waited(-2, 0, 0)
            else if exists j: nat :: FirstExit(rows, j, parentPid, childPid)
            then exists j: nat :: FirstExit(rows, j, parentPid, childPid) && reply == Waited(1, rows[j].pid, rows[j].exitCode)
            else reply == Waited(if exists i :: 0 <= i < |rows| && Child(rows[i], parentPid, childPid) then -1 else 0, 0, 0)
  {
    hide F.Family;
    var rows := s.table.processes;
    var slot := P.FirstExited(rows, parentPid, childPid, 0);
    var parent := P.FindByPid(rows, parentPid, 0);
    assert parent >= 0 ==> Lives(s, parent, parentPid);
    assert forall i :: 0 <= i < |rows| ==> P.IsChild(rows[i], parentPid, childPid) == Child(rows[i], parentPid, childPid);
    assert slot >= 0 ==> FirstExit(rows, slot, parentPid, childPid);
  }

  /** Between calls nobody runs, so a kill works exactly on the processes there are. */
  lemma {:induction false} KillAnswersExactly(s: Plain, pid: int)
    requires Orderly(s)
    ensures Step(s, Kill(pid)).1 == Reply.Status(if exists j :: Lives(s, j, pid) then 1 else 0)
  {
    hide F.Family;
    LifeSteps.FamilyPids(s.table);
    var slot := P.FindByPid(s.table.processes, pid, 0);
    assert slot >= 0 ==> Lives(s, slot, pid);
  }

  /** A priority can be set from 0 to 10, for a process that has not exited; a refused call
      changes nothing. */
  lemma {:induction false} SetAnswersExactly(s: Plain, pid: int, priority: int)
    requires Orderly(s)
    ensures Step(s, SetPriority(pid, priority)).1 == Set(0 <= priority <= 10 && F.LivePid(s.table.processes, pid))
    ensures Step(s, SetPriority(pid, priority)).1 == Set(false) ==> Step(s, SetPriority(pid, priority)).0 == s
  {
    hide F.Family;
    FamilyIsUnique(s.table);
    var slot := P.FindByPid(s.table.processes, pid, 0);
    if F.LivePid(s.table.processes, pid) {
      var j :| 0 <= j < |s.table.processes| && s.table.processes[j].used && s.table.processes[j].pid == pid
               && !s.table.processes[j].state.Zombie?;
      F.FindsOwnSlot(s.table.processes, j);
    }
  }

  /** The slots with a process in `s` and none in `t`. */
  ghost function Emptied(s: Plain, t: Plain): set<nat>
    requires |s.table.processes| == |t.table.processes|
  {
    set j: nat | j < |s.table.processes| && s.table.processes[j].used && !t.table.processes[j].used
  }

  /** A reaping pass answers how many processes it has ended: the exited ones of pid 0. */
  lemma {:induction false} ReapAnswersExactly(s: Plain)
    requires Orderly(s)
    ensures var (after, reply) := Step(s, Reap);
            && reply == Reply.Reaped(|Emptied(s, after)|)
            && forall j: nat :: j in Emptied(s, after) <==>
                 j < |s.table.processes| && s.table.processes[j].used && s.table.processes[j].state.Zombie?
                 && s.table.processes[j].parentPid == 0
  {
    hide F.Family;
    StepOnTable(s, Reap);
    var n := |s.table.processes|;
    F.ReapedExactly(s.table, n);
    CountOrphans(s.table.processes, n);
    assert Emptied(s, Step(s, Reap).0) == OrphanSlots(s.table.processes, n);
  }

  ghost function OrphanSlots(processes: seq<P.Process>, n: nat): set<nat> {
    set j: nat | j < n && j < |processes| && P.OrphanZombie(processes[j])
  }

  lemma {:induction false} CountOrphans(processes: seq<P.Process>, n: nat)
    requires n <= |processes|
    ensures P.OrphanZombies(processes, n) == |OrphanSlots(processes, n)|
  {
    if n > 0 {
      CountOrphans(processes, n - 1);
      var below := OrphanSlots(processes, n - 1);
      assert OrphanSlots(processes, n) == if P.OrphanZombie(processes[n - 1]) then below + {n - 1} else below;
    }
  }

  // ---- pids ----------------------------------------------------------------------------------------------

  /** The first process has pid 1, and one made right after another the next pid. */
  lemma {:induction false} PidsCountUp(s: Plain, slots: nat, parentPid: int, image: seq<Byte>, priority: int, next: Event)
    ensures var first := Step(Fresh(slots), Exec(parentPid, image, priority)).1; first.Pid? && first.pid in {0, 1}
    ensures next.Exec? ==>
              var (born, reply) := Step(s, Exec(parentPid, image, priority));
              reply.pid != 0 && Step(born, next).1.pid != 0 ==> Step(born, next).1.pid == reply.pid + 1
  {
  }

  // ---- deeds ---------------------------------------------------------------------------------------------

  /** The pages of all processes. */
  ghost function Pages(memory: seq<Memory>): (pages: set<(nat, U32)>)
    ensures forall p: (nat, U32) :: p in pages <==> p.0 < |memory| && p.1 in memory[p.0]
  {
    set i: nat, x: U32 | i < |memory| && x in memory[i] :: (i, x)
  }

  ghost function Beside(i: nat, xs: set<U32>): (pages: set<(nat, U32)>)
    ensures forall p: (nat, U32) :: p in pages <==> p.0 == i && p.1 in xs
  {
    set x | x in xs :: (i, x)
  }

  lemma {:induction false} HeldIsCounted(memory: seq<Memory>)
    ensures PagesHeld(memory) == |Pages(memory)|
  {
    hide Pages, Beside;
    if memory == [] {
      assert Pages(memory) == {};
    } else {
      var n := |memory| - 1;
      HeldIsCounted(memory[..n]);
      BesideCounts(n, memory[n].Keys);
      assert Pages(memory) == Pages(memory[..n]) + Beside(n, memory[n].Keys);
      assert Pages(memory[..n]) !! Beside(n, memory[n].Keys);
    }
  }

  lemma {:induction false} BesideCounts(i: nat, xs: set<U32>)
    ensures |Beside(i, xs)| == |xs|
    decreases |xs|
  {
    hide Beside;
    if xs == {} {
      assert Beside(i, xs) == {};
    } else {
      var one :| one in xs;
      BesideCounts(i, xs - {one});
      assert Beside(i, xs) == Beside(i, xs - {one}) + {(i, one)};
    }
  }

  /** `vm_alloc` answers the address of its page, the same one each time, exactly for the
      first 24 pages and while the page is there already or the pager has one of its 128
      entries left; afterwards the page is there. */
  lemma {:induction false} VmAllocAnswersExactly(s: Plain, n: U32)
    requires Clean(s) && 0 <= Slot(s.table)
    ensures var at := 0x0300_0000 + 4096 * n;
            var (after, answer) := Act(s, VmAlloc(n));
            var own := s.memory[Slot(s.table)];
            && answer == Number(if n < 24 && (at in own || |Pages(s.memory)| < 128) then at else 0)
            && after.table == s.table && |after.memory| == |s.memory|
            && after.memory[Slot(s.table)].Keys == own.Keys + (if answer == Number(0) then {} else {at})
            && forall j :: 0 <= j < |s.memory| && j != Slot(s.table) ==> after.memory[j] == s.memory[j]
  {
    hide F.Family, PagesHeld;
    HeldIsCounted(s.memory);
  }

  /** A process spawns a built-in application exactly when it is known, a slot is free and
      two pager entries are left; the child gets the next pid, is READY at priority 5, and
      has the spawning process as its parent. */
  lemma {:induction false} SpawnAnswersExactly(s: Plain, known: bool, image: seq<Byte>)
    requires Clean(s) && 0 <= Slot(s.table) && s.table.currentPid != 0 && 0 < |image| <= 4096
    ensures var (after, answer) := Act(s, Spawn(known, image));
            && answer.Number?
            && (answer.n != 0 <==>
                known && (exists j :: 0 <= j < |s.table.processes| && !s.table.processes[j].used) && |Pages(s.memory)| + 2 <= 128)
            && (answer.n != 0 ==> exists j: nat ::
                  && Lives(after, j, answer.n) && !s.table.processes[j].used
                  && after.table.processes[j] == P.Process(true, answer.n, s.table.currentPid, P.Ready, 5, 0))
  {
    hide F.Family, PagesHeld;
    HeldIsCounted(s.memory);
    LifeSteps.FamilyPids(s.table);
  }
}
