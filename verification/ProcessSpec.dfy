/** The process table as a value and the effect of each scheduler call on it. */
module ProcessSpec {
  const PROCESS_WAIT_OK := 1
  const PROCESS_WAIT_NO_CHILD := 0
  const PROCESS_WAIT_NOT_EXITED := -1
  const PROCESS_WAIT_BAD_PARENT := -2
  const PROCESS_KILL_OK := 1
  const PROCESS_KILL_NOT_FOUND := 0
  const PROCESS_KILL_RUNNING := -1
  const PROCESS_PRIORITY_DEFAULT := 5
  const PROCESS_PRIORITY_MIN := 0
  const PROCESS_PRIORITY_MAX := 10
  const USERMODE_RETURN_YIELD: nat := 0xFFFF_FFFE

  datatype RunState = Unused | Ready | Running | Waiting | Zombie

  datatype Process = Process(used: bool, pid: int, parentPid: int, state: RunState, priority: int, exitCode: nat)

  datatype Table = Table(processes: seq<Process>, nextPid: int, currentPid: int, cursor: nat)

  const FREED := Process(false, 0, 0, Unused, PROCESS_PRIORITY_DEFAULT, 0)

  function FindByPid(processes: seq<Process>, pid: int, from: nat): (slot: int)
    requires from <= |processes|
    ensures -1 <= slot < |processes|
    ensures slot >= 0 ==> from <= slot && processes[slot].used && processes[slot].pid == pid
    ensures forall j :: from <= j < (if slot < 0 then |processes| else slot) ==>
              !(processes[j].used && processes[j].pid == pid)
    decreases |processes| - from
  {
    if from == |processes| then -1
    else if processes[from].used && processes[from].pid == pid then from
    else FindByPid(processes, pid, from + 1)
  }

  function FindFree(processes: seq<Process>, from: nat): (slot: int)
    requires from <= |processes|
    ensures -1 <= slot < |processes|
    ensures slot >= 0 ==> from <= slot && !processes[slot].used
    ensures forall j :: from <= j < (if slot < 0 then |processes| else slot) ==> processes[j].used
    decreases |processes| - from
  {
    if from == |processes| then -1
    else if !processes[from].used then from
    else FindFree(processes, from + 1)
  }

  // ---- spawning ---------------------------------------------------------------

  predicate ParentIsValid(processes: seq<Process>, parentPid: int) {
    parentPid == 0 ||
    var slot := FindByPid(processes, parentPid, 0);
    slot >= 0 && !processes[slot].state.Zombie?
  }

  /** `imageFits` says the image is present and of a legal size; `memoryFound` that the
      address space and its two pages could be set up. */
  datatype SpawnArgs = SpawnArgs(parentPid: int, imageFits: bool, priority: int, memoryFound: bool)

  predicate SpawnAllowed(t: Table, a: SpawnArgs) {
    a.imageFits && ParentIsValid(t.processes, a.parentPid)
    && PROCESS_PRIORITY_MIN <= a.priority <= PROCESS_PRIORITY_MAX
  }

  function SpawnPid(t: Table, a: SpawnArgs): int {
    if SpawnAllowed(t, a) && FindFree(t.processes, 0) >= 0 && a.memoryFound then t.nextPid else 0
  }

  /** A spawn that finds a slot consumes a pid even when its memory cannot be set up. */
  function Spawned(t: Table, a: SpawnArgs): Table {
    var slot := FindFree(t.processes, 0);
    if !SpawnAllowed(t, a) || slot < 0 then t
    else
      var p := Process(a.memoryFound, t.nextPid, a.parentPid, if a.memoryFound then Ready else Unused, a.priority, 0);
      t.(processes := t.processes[slot := p], nextPid := t.nextPid + 1)
  }

  // ---- exit, release ----------------------------------------------------------

  function Adopt(p: Process, parentPid: int): Process {
    if parentPid != 0 && p.used && p.parentPid == parentPid then p.(parentPid := 0) else p
  }

  function Adopted(processes: seq<Process>, parentPid: int): seq<Process> {
    seq(|processes|, i requires 0 <= i < |processes| => Adopt(processes[i], parentPid))
  }

  function Released(processes: seq<Process>, slot: nat): seq<Process>
    requires slot < |processes|
  {
    var p := processes[slot];
    if !p.used || p.state.Running? then processes
    else Adopted(processes, p.pid)[slot := FREED]
  }

  // ---- running ------------------------------------------------------------------

  /** What a process does in user mode that reaches the table: spawning built-in
      children, by application number. */
  datatype UserAction = SpawnBuiltin(knownApp: bool, memoryFound: bool)

  function Acted(t: Table, action: UserAction): Table {
    if t.currentPid == 0 || !action.knownApp then t
    else
      var slot := FindByPid(t.processes, t.currentPid, 0);
      if slot < 0 || !t.processes[slot].state.Running? then t
      else Spawned(t, SpawnArgs(t.currentPid, true, PROCESS_PRIORITY_DEFAULT, action.memoryFound))
  }

  function ActedAll(t: Table, script: seq<UserAction>): Table {
    if script == [] then t
    else Acted(ActedAll(t, script[..|script| - 1]), script[|script| - 1])
  }

  function Entered(t: Table, slot: nat): Table
    requires slot < |t.processes|
  {
    t.(currentPid := t.processes[slot].pid,
       processes := t.processes[slot := t.processes[slot].(state := Running)])
  }

  function Left(t: Table, slot: nat, result: nat): Table
    requires slot < |t.processes|
  {
    var p := t.processes[slot];
    t.(currentPid := 0,
       processes :=
         if result == USERMODE_RETURN_YIELD then t.processes[slot := p.(state := Ready)]
         else Adopted(t.processes[slot := p.(exitCode := result, state := Zombie)], p.pid))
  }

  lemma {:induction false} ActedKeepsSlots(t: Table, script: seq<UserAction>)
    ensures |ActedAll(t, script).processes| == |t.processes|
  {
    if script != [] {
      ActedKeepsSlots(t, script[..|script| - 1]);
    }
  }

  predicate CanRun(t: Table, pid: int) {
    var slot := FindByPid(t.processes, pid, 0);
    slot >= 0 && t.processes[slot].state.Ready?
  }

  function Ran(t: Table, pid: int, script: seq<UserAction>, result: nat): (u: Table)
    ensures |u.processes| == |t.processes|
  {
    if !CanRun(t, pid) then t
    else
      var slot := FindByPid(t.processes, pid, 0);
      ActedKeepsSlots(Entered(t, slot), script);
      Left(ActedAll(Entered(t, slot), script), slot, result)
  }

  // ---- scheduling ---------------------------------------------------------------

  predicate Runnable(p: Process) {
    p.used && p.state.Ready?
  }

  /** The slot looked at `offset` places after the cursor. */
  function SlotAt(t: Table, offset: nat): (slot: nat)
    requires |t.processes| > 0
    ensures slot < |t.processes|
  {
    (t.cursor + offset) % |t.processes|
  }

  /** The best candidate among the first `n` slots from the cursor. */
  function Candidate(t: Table, n: nat): (slot: int)
    requires n <= |t.processes|
    ensures -1 <= slot < |t.processes|
    ensures slot >= 0 ==> Runnable(t.processes[slot])
  {
    if n == 0 then -1
    else
      var best := Candidate(t, n - 1);
      var i := SlotAt(t, n - 1);
      var floor := if best < 0 then PROCESS_PRIORITY_MIN - 1 else t.processes[best].priority;
      if Runnable(t.processes[i]) && t.processes[i].priority > floor then i else best
  }

  function Selected(t: Table): (slot: int)
    ensures -1 <= slot < |t.processes|
    ensures slot >= 0 ==> Runnable(t.processes[slot])
  {
    Candidate(t, |t.processes|)
  }

  function Scheduled(t: Table, script: seq<UserAction>, result: nat): Table {
    var slot := Selected(t);
    if slot < 0 then t
    else Ran(t, t.processes[slot].pid, script, result).(cursor := (slot + 1) % |t.processes|)
  }

  // ---- waiting and reaping --------------------------------------------------------

  predicate IsChild(p: Process, parentPid: int, childPid: int) {
    p.used && p.parentPid == parentPid && (childPid == 0 || p.pid == childPid)
  }

  function FirstExited(processes: seq<Process>, parentPid: int, childPid: int, from: nat): (slot: int)
    requires from <= |processes|
    ensures -1 <= slot < |processes|
    ensures slot >= 0 ==> IsChild(processes[slot], parentPid, childPid) && processes[slot].state.Zombie?
    ensures forall j :: from <= j < (if slot < 0 then |processes| else slot) && IsChild(processes[j], parentPid, childPid) ==>
              !processes[j].state.Zombie?
    decreases |processes| - from
  {
    if from == |processes| then -1
    else if IsChild(processes[from], parentPid, childPid) && processes[from].state.Zombie? then from
    else FirstExited(processes, parentPid, childPid, from + 1)
  }

  predicate HasChild(processes: seq<Process>, parentPid: int, childPid: int) {
    exists i :: 0 <= i < |processes| && IsChild(processes[i], parentPid, childPid)
  }

  function WaitStatus(t: Table, parentPid: int, childPid: int): int {
    if parentPid != 0 && FindByPid(t.processes, parentPid, 0) < 0 then PROCESS_WAIT_BAD_PARENT
    else if FirstExited(t.processes, parentPid, childPid, 0) >= 0 then PROCESS_WAIT_OK
    else if HasChild(t.processes, parentPid, childPid) then PROCESS_WAIT_NOT_EXITED
    else PROCESS_WAIT_NO_CHILD
  }

  function Waited(t: Table, parentPid: int, childPid: int): Table {
    if WaitStatus(t, parentPid, childPid) != PROCESS_WAIT_OK then t
    else t.(processes := Released(t.processes, FirstExited(t.processes, parentPid, childPid, 0)))
  }

  function KillStatus(t: Table, pid: int): int {
    var slot := FindByPid(t.processes, pid, 0);
    if slot < 0 then PROCESS_KILL_NOT_FOUND
    else if t.processes[slot].state.Running? then PROCESS_KILL_RUNNING
    else PROCESS_KILL_OK
  }

  function Killed(t: Table, pid: int): Table {
    if KillStatus(t, pid) != PROCESS_KILL_OK then t
    else t.(processes := Released(t.processes, FindByPid(t.processes, pid, 0)))
  }

  predicate OrphanZombie(p: Process) {
    p.used && p.state.Zombie? && p.parentPid == 0
  }

  /** The table after the reaping pass has looked at its first `n` slots. */
  function ReapedTo(processes: seq<Process>, n: nat): (after: seq<Process>)
    requires n <= |processes|
    ensures |after| == |processes|
  {
    if n == 0 then processes
    else
      var before := ReapedTo(processes, n - 1);
      if OrphanZombie(before[n - 1]) then Released(before, n - 1) else before
  }

  function OrphanZombies(processes: seq<Process>, n: nat): nat
    requires n <= |processes|
  {
    if n == 0 then 0
    else OrphanZombies(processes, n - 1) + if OrphanZombie(processes[n - 1]) then 1 else 0
  }

  function Reaped(t: Table): Table {
    t.(processes := ReapedTo(t.processes, |t.processes|))
  }

  function Reprioritised(t: Table, pid: int, priority: int): Table {
    var slot := FindByPid(t.processes, pid, 0);
    if !(PROCESS_PRIORITY_MIN <= priority <= PROCESS_PRIORITY_MAX) || slot < 0 || t.processes[slot].state.Zombie? then t
    else t.(processes := t.processes[slot := t.processes[slot].(priority := priority)])
  }

  // ---- runs -----------------------------------------------------------------------

  datatype Event =
    | Spawn(args: SpawnArgs)
    | RunPid(pid: int, script: seq<UserAction>, result: nat)
    | Schedule(script: seq<UserAction>, result: nat)
    | Wait(parentPid: int, childPid: int)
    | Kill(pid: int)
    | Reap
    | SetPriority(pid: int, priority: int)

  function Step(t: Table, e: Event): (u: Table)
    ensures |u.processes| == |t.processes|
  {
    match e
    case Spawn(args) => Spawned(t, args)
    case RunPid(pid, script, result) => Ran(t, pid, script, result)
    case Schedule(script, result) => Scheduled(t, script, result)
    case Wait(parentPid, childPid) => Waited(t, parentPid, childPid)
    case Kill(pid) => Killed(t, pid)
    case Reap => Reaped(t)
    case SetPriority(pid, priority) => Reprioritised(t, pid, priority)
  }

  function Run(t: Table, events: seq<Event>): Table
    decreases |events|
  {
    if events == [] then t else Run(Step(t, events[0]), events[1..])
  }

  function Booted(slots: nat): Table {
    Table(seq(slots, _ => FREED), 1, 0, 0)
  }
}
