/** The kernel a process believes in: a process table, and for every process a private memory of
    whole pages. No frames, no swap, no page tables. */
module LifeSpec {
  import opened Machine
  import opened PmmSpec
  import opened PagerSpec
  import opened MemDemoSpec
  import opened SpacesSpec
  import opened SpacesRights
  import P = ProcessSpec
  import F = ProcessFamily

  /** What one process has at each of its page addresses. */
  type Memory = map<U32, seq<Byte>>

  /** The table, and the memory of the process in each slot; an unused slot has none. */
  datatype Plain = Plain(table: P.Table, memory: seq<Memory>)

  /** What a process does that the kernel or the memory management unit notices. A spawn names
      a built-in application, of which `image` is the image. */
  datatype Deed =
    | Load(virt: U32)
    | Store(virt: U32, b: Byte)
    | VmAlloc(n: U32)
    | Demo(op: DemoOp, page: U32)
    | DemoReset
    | Sample
    | Spawn(known: bool, image: seq<Byte>)

  datatype Answer = Got(b: Byte) | Stored | Refused | Number(n: int) | Done

  /** Demo pages are not private memory: what they answer is the memory demo's business. */
  predicate IsDemo(d: Deed) {
    || d.Demo?
    || (d.Load? && IsDemoAddress(AlignDown(d.virt)))
    || (d.Store? && IsDemoAddress(AlignDown(d.virt)))
  }

  predicate Buildable(d: Deed) {
    d.Spawn? && d.known ==> 0 < |d.image| <= PAGE_SIZE
  }

  /** The pager entries in use. */
  function PagesHeld(memory: seq<Memory>): nat {
    if memory == [] then 0 else PagesHeld(memory[..|memory| - 1]) + |memory[|memory| - 1]|
  }

  function Slot(t: P.Table): int {
    P.FindByPid(t.processes, t.currentPid, 0)
  }

  function PageBytes(m: Memory, virt: U32): (bytes: seq<Byte>) {
    if AlignDown(virt) in m then m[AlignDown(virt)] else []
  }

  function Act(s: Plain, d: Deed): (Plain, Answer) {
    var i := Slot(s.table);
    if i < 0 || i >= |s.memory| then (s, Refused)
    else
      var m := s.memory[i];
      match d {
        case Load(virt) =>
          var bytes := PageBytes(m, virt);
          (s, if virt % PAGE_SIZE < |bytes| then Got(bytes[virt % PAGE_SIZE]) else Refused)
        case Store(virt, b) =>
          var bytes := PageBytes(m, virt);
          if virt % PAGE_SIZE < |bytes| && MayWrite(AlignDown(virt))
          then (s.(memory := s.memory[i := m[AlignDown(virt) := bytes[virt % PAGE_SIZE := b]]]), Stored)
          else (s, Refused)
        case VmAlloc(n) =>
          if n >= PROCESS_USER_VM_PAGE_COUNT then (s, Number(0))
          else if VmVirt(n) in m then (s, Number(VmVirt(n)))
          else if PagesHeld(s.memory) >= PAGER_MAX_PAGES then (s, Number(0))
          else (s.(memory := s.memory[i := m[VmVirt(n) := Padded([])]]), Number(VmVirt(n)))
        case Spawn(known, image) =>
          if !known || !s.table.processes[i].state.Running? then (s, Number(0))
          else
            var (after, pid) := Born(s, s.table.currentPid, image, P.PROCESS_PRIORITY_DEFAULT, true);
            (after, Number(pid))
        case _ => (s, Done)
      }
  }

  /** A spawn: it needs a page, if `page` says there is one, and two pager entries. */
  function Born(s: Plain, parentPid: int, image: seq<Byte>, priority: int, page: bool): (Plain, int) {
    var args := BirthArgs(s, parentPid, image, priority, page);
    var pid := P.SpawnPid(s.table, args);
    var j := P.FindFree(s.table.processes, 0);
    (Plain(P.Spawned(s.table, args), if pid != 0 && j < |s.memory| then s.memory[j := NewMemory(image)] else s.memory), pid)
  }

  function BirthArgs(s: Plain, parentPid: int, image: seq<Byte>, priority: int, page: bool): P.SpawnArgs {
    P.SpawnArgs(parentPid, 0 < |image| <= PAGE_SIZE, priority, page && PagesHeld(s.memory) + 2 <= PAGER_MAX_PAGES)
  }

  function NewMemory(image: seq<Byte>): Memory {
    if |image| > PAGE_SIZE then map[] else StartMemory(Padded(image), Padded([]))
  }

  function StartMemory(code: seq<Byte>, stack: seq<Byte>): Memory {
    map[PROCESS_USER_CODE_BASE := code, PROCESS_USER_STACK_PAGE := stack]
  }

  function ActAll(s: Plain, deeds: seq<Deed>): (Plain, seq<Answer>) {
    if deeds == [] then (s, [])
    else
      var (before, answers) := ActAll(s, deeds[..|deeds| - 1]);
      var (after, answer) := Act(before, deeds[|deeds| - 1]);
      (after, answers + [answer])
  }

  // ---- the kernel's calls -------------------------------------------------------------------------

  datatype Event =
    | Exec(parentPid: int, image: seq<Byte>, priority: int)
    | RunPid(pid: int, deeds: seq<Deed>, result: nat)
    | Schedule(deeds: seq<Deed>, result: nat)
    | Wait(parentPid: int, childPid: int)
    | Kill(pid: int)
    | Reap
    | SetPriority(pid: int, priority: int)

  datatype Reply =
    | Pid(pid: int)
    | Ran(pid: int, answers: seq<Answer>)
    | Waited(status: int, pid: int, exitCode: nat)
    | Status(status: int)
    | Reaped(count: nat)
    | Set(done: bool)

  lemma {:induction false} ActKeepsSize(s: Plain, d: Deed)
    ensures |Act(s, d).0.memory| == |s.memory| && |Act(s, d).0.table.processes| == |s.table.processes|
  {
  }

  lemma {:induction false} ActAllKeepsSize(s: Plain, deeds: seq<Deed>)
    ensures |ActAll(s, deeds).0.memory| == |s.memory| && |ActAll(s, deeds).0.table.processes| == |s.table.processes|
    ensures |ActAll(s, deeds).1| == |deeds|
  {
    if deeds != [] {
      ActAllKeepsSize(s, deeds[..|deeds| - 1]);
      ActKeepsSize(ActAll(s, deeds[..|deeds| - 1]).0, deeds[|deeds| - 1]);
    }
  }

  /** The answers to the deeds, but for those of the demo, are the plain ones. */
  predicate Agree(deeds: seq<Deed>, said: seq<Answer>, plain: seq<Answer>) {
    |said| == |plain| <= |deeds| && forall k :: 0 <= k < |said| && !IsDemo(deeds[k]) ==> said[k] == plain[k]
  }

  predicate Matches(e: Event, said: Reply, plain: Reply) {
    match e
    case RunPid(_, deeds, _) => said.Ran? && plain.Ran? && said.pid == plain.pid && Agree(deeds, said.answers, plain.answers)
    case Schedule(deeds, _) => said.Ran? && plain.Ran? && said.pid == plain.pid && Agree(deeds, said.answers, plain.answers)
    case _ => said == plain
  }

  /** A process runs until it yields, is preempted or exits. */
  function RunOf(s: Plain, pid: int, deeds: seq<Deed>, result: nat): (r: (Plain, seq<Answer>))
    ensures |r.0.memory| == |s.memory| && |r.0.table.processes| == |s.table.processes|
  {
    if !P.CanRun(s.table, pid) then (s, [])
    else
      var slot := P.FindByPid(s.table.processes, pid, 0);
      var entered := s.(table := P.Entered(s.table, slot));
      var (acted, answers) := ActAll(entered, deeds);
      ActAllKeepsSize(entered, deeds);
      (acted.(table := P.Left(acted.table, slot, result)), answers)
  }

  /** The process in a slot is gone, with its memory. */
  function Ended(s: Plain, slot: nat): (after: Plain)
    ensures |after.memory| == |s.memory| && |after.table.processes| == |s.table.processes|
  {
    if slot >= |s.memory| || slot >= |s.table.processes| then s
    else if !s.table.processes[slot].used || s.table.processes[slot].state.Running? then s
    else Plain(s.table.(processes := P.Released(s.table.processes, slot)), s.memory[slot := map[]])
  }

  function ReapedTo(s: Plain, n: nat): (after: Plain)
    ensures |after.memory| == |s.memory| && |after.table.processes| == |s.table.processes|
  {
    if n == 0 then s
    else
      var before := ReapedTo(s, n - 1);
      if n <= |before.table.processes| && P.OrphanZombie(before.table.processes[n - 1]) then Ended(before, n - 1) else before
  }

  function Step(s: Plain, e: Event): (r: (Plain, Reply))
    ensures |r.0.memory| == |s.memory| && |r.0.table.processes| == |s.table.processes|
  {
    match e
    case Exec(parentPid, image, priority) =>
      var (after, pid) := Born(s, parentPid, image, priority, true);
      (after, Pid(pid))
    case RunPid(pid, deeds, result) =>
      var (after, answers) := RunOf(s, pid, deeds, result);
      (after, Ran(if P.CanRun(s.table, pid) then pid else 0, answers))
    case Schedule(deeds, result) =>
      var slot := P.Selected(s.table);
      if slot < 0 then (s, Ran(0, []))
      else
        var pid := s.table.processes[slot].pid;
        var (after, answers) := RunOf(s, pid, deeds, result);
        (after.(table := after.table.(cursor := (slot + 1) % |s.table.processes|)), Ran(pid, answers))
    case Wait(parentPid, childPid) =>
      var status := P.WaitStatus(s.table, parentPid, childPid);
      if status != P.PROCESS_WAIT_OK then (s, Waited(status, 0, 0))
      else
        var slot := P.FirstExited(s.table.processes, parentPid, childPid, 0);
        (Ended(s, slot), Waited(status, s.table.processes[slot].pid, s.table.processes[slot].exitCode))
    case Kill(pid) =>
      var status := P.KillStatus(s.table, pid);
      (if status != P.PROCESS_KILL_OK then s else Ended(s, P.FindByPid(s.table.processes, pid, 0)), Status(status))
    case Reap =>
      (ReapedTo(s, |s.table.processes|), Reaped(P.OrphanZombies(s.table.processes, |s.table.processes|)))
    case SetPriority(pid, priority) =>
      var slot := P.FindByPid(s.table.processes, pid, 0);
      (s.(table := P.Reprioritised(s.table, pid, priority)),
       Set(P.PROCESS_PRIORITY_MIN <= priority <= P.PROCESS_PRIORITY_MAX && slot >= 0 && !s.table.processes[slot].state.Zombie?))
  }

  function Run(s: Plain, events: seq<Event>): (r: (Plain, seq<Reply>))
    ensures |r.0.memory| == |s.memory| && |r.0.table.processes| == |s.table.processes| && |r.1| == |events|
  {
    if events == [] then (s, [])
    else
      var (before, replies) := Run(s, events[..|events| - 1]);
      var (after, reply) := Step(before, events[|events| - 1]);
      (after, replies + [reply])
  }

  function Fresh(slots: nat): Plain {
    Plain(P.Booted(slots), seq(slots, _ => map[]))
  }

  // ---- what it costs in pages -----------------------------------------------------------------------

  /** The most pages a deed can take: one for a page-in's page table or a new directory, two for
      a demo page and its table. */
  function Cost(d: Deed): nat {
    match d
    case Load(_) => 1
    case Store(_, _) => 1
    case Demo(_, _) => 2
    case Spawn(_, _) => 1
    case _ => 0
  }

  function CostAll(deeds: seq<Deed>): nat {
    if deeds == [] then 0 else CostAll(deeds[..|deeds| - 1]) + Cost(deeds[|deeds| - 1])
  }

  function CostOf(e: Event): nat {
    match e
    case Exec(_, _, _) => 1
    case RunPid(_, deeds, _) => CostAll(deeds)
    case Schedule(deeds, _) => CostAll(deeds)
    case _ => 0
  }

  function CostOfAll(events: seq<Event>): nat {
    if events == [] then 0 else CostOfAll(events[..|events| - 1]) + CostOf(events[|events| - 1])
  }

  predicate AllBuildable(e: Event) {
    && (e.RunPid? ==> forall k :: 0 <= k < |e.deeds| ==> Buildable(e.deeds[k]))
    && (e.Schedule? ==> forall k :: 0 <= k < |e.deeds| ==> Buildable(e.deeds[k]))
  }
}
