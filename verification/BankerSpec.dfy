/** The banker's tables as a value, what it means for them to be safe, and the
    effect of each banker call on them. */
module BankerSpec {
  const BANKER_OK := 1
  const BANKER_ERR_NOT_READY := 0
  const BANKER_ERR_NO_SLOT := -1
  const BANKER_ERR_NO_PROCESS := -2
  const BANKER_ERR_OVER_NEED := -3
  const BANKER_ERR_OVER_AVAILABLE := -4
  const BANKER_ERR_UNSAFE := -5
  const BANKER_ERR_OVER_ALLOCATED := -6

  type Vector = seq<nat>

  datatype Process = Process(used: bool, pid: int, max: Vector, allocation: Vector, need: Vector)

  datatype State = State(available: Vector, processes: seq<Process>)

  /** Every vector has one entry per resource, and each row satisfies
      need + allocation = max. A free slot holds nothing. */
  ghost predicate Shaped(s: State) {
    forall i :: 0 <= i < |s.processes| ==> RowShaped(s.processes[i], |s.available|)
  }

  ghost predicate RowShaped(p: Process, resources: nat) {
    && |p.max| == |p.allocation| == |p.need| == resources
    && (forall r :: 0 <= r < resources ==> p.need[r] + p.allocation[r] == p.max[r])
    && (!p.used ==> forall r :: 0 <= r < resources ==> p.allocation[r] == 0)
  }

  /** What the slots of `d` below `n` hold of resource `r`. */
  ghost function Held(s: State, d: set<nat>, r: nat, n: nat): nat
    requires Shaped(s) && r < |s.available| && n <= |s.processes|
  {
    if n == 0 then 0
    else Held(s, d, r, n - 1) + if n - 1 in d then s.processes[n - 1].allocation[r] else 0
  }

  /** What is available of resource `r` once the slots of `d` have finished. */
  ghost function Work(s: State, d: set<nat>, r: nat): nat
    requires Shaped(s) && r < |s.available|
  {
    s.available[r] + Held(s, d, r, |s.processes|)
  }

  ghost function Below(n: nat): (b: set<nat>)
    ensures forall i: nat :: i in b <==> i < n
  {
    if n == 0 then {} else Below(n - 1) + {n - 1}
  }

  ghost function Slots(s: State): set<nat> {
    Below(|s.processes|)
  }

  ghost function UsedSlots(s: State): set<nat> {
    set i: nat | i < |s.processes| && s.processes[i].used
  }

  ghost function Total(s: State, r: nat): nat
    requires Shaped(s) && r < |s.available|
  {
    Work(s, Slots(s), r)
  }

  ghost predicate Fits(s: State, i: nat, d: set<nat>)
    requires Shaped(s) && i < |s.processes|
  {
    forall r :: 0 <= r < |s.available| ==> s.processes[i].need[r] <= Work(s, d, r)
  }

  ghost function Elements(order: seq<nat>): set<nat> {
    set i | i in order
  }

  /** `order` lists registered slots once each, and each one's need fits the work
      available at its turn. */
  ghost predicate Runs(s: State, order: seq<nat>)
    requires Shaped(s)
  {
    && (forall k :: 0 <= k < |order| ==> order[k] in UsedSlots(s))
    && (forall j, k :: 0 <= j < k < |order| ==> order[j] != order[k])
    && (forall k :: 0 <= k < |order| ==> Fits(s, order[k], Elements(order[..k])))
  }

  ghost predicate Completes(s: State, order: seq<nat>)
    requires Shaped(s)
  {
    Runs(s, order) && Elements(order) == UsedSlots(s)
  }

  /** Some ordering of all registered processes lets every one of them finish. */
  ghost predicate Safe(s: State)
    requires Shaped(s)
  {
    exists order :: Completes(s, order)
  }

  // ---- sums over slots -----------------------------------------------------

  lemma {:induction false} HeldMonotone(s: State, d: set<nat>, e: set<nat>, r: nat, n: nat)
    requires Shaped(s) && r < |s.available| && n <= |s.processes| && d <= e
    ensures Held(s, d, r, n) <= Held(s, e, r, n)
  {
    if n > 0 {
      HeldMonotone(s, d, e, r, n - 1);
    }
  }

  lemma {:induction false} HeldInsert(s: State, d: set<nat>, i: nat, r: nat, n: nat)
    requires Shaped(s) && r < |s.available| && n <= |s.processes| && i < |s.processes| && i !in d
    ensures Held(s, d + {i}, r, n) == Held(s, d, r, n) + if i < n then s.processes[i].allocation[r] else 0
  {
    if n > 0 {
      HeldInsert(s, d, i, r, n - 1);
    }
  }

  /** Changing one row moves a sum by what that row's allocation moved. */
  lemma {:induction false} HeldUpdate(s: State, t: State, i: nat, d: set<nat>, r: nat, n: nat)
    requires Shaped(s) && Shaped(t) && |s.available| == |t.available| && |s.processes| == |t.processes|
    requires i < |s.processes| && t.processes == s.processes[i := t.processes[i]]
    requires r < |s.available| && n <= |s.processes|
    ensures Held(t, d, r, n) + (if i < n && i in d then s.processes[i].allocation[r] else 0)
         == Held(s, d, r, n) + (if i < n && i in d then t.processes[i].allocation[r] else 0)
  {
    if n > 0 {
      HeldUpdate(s, t, i, d, r, n - 1);
    }
  }

  lemma {:induction false} HeldUsed(s: State, d: set<nat>, r: nat, n: nat)
    requires Shaped(s) && r < |s.available| && n <= |s.processes| && UsedSlots(s) <= d
    ensures Held(s, d, r, n) == Held(s, UsedSlots(s), r, n)
  {
    if n > 0 {
      HeldUsed(s, d, r, n - 1);
    }
  }

  lemma {:induction false} TotalIsUsed(s: State, r: nat)
    requires Shaped(s) && r < |s.available|
    ensures Total(s, r) == Work(s, UsedSlots(s), r)
  {
    HeldUsed(s, Slots(s), r, |s.processes|);
  }

  // ---- the greedy test is exact ---------------------------------------------

  /** A stuck greedy run proves the state unsafe: when no registered slot outside
      `done` fits the work of `done`, every safe ordering lies inside `done`. */
  lemma {:induction false} StuckMeansUnsafe(s: State, done: set<nat>, order: seq<nat>)
    requires Shaped(s) && Completes(s, order)
    requires forall i :: i in UsedSlots(s) && i !in done ==> !Fits(s, i, done)
    ensures UsedSlots(s) <= done
  {
    if !(UsedSlots(s) <= done) {
      var k := FirstOutside(order, done);
      assert Elements(order[..k]) <= done;
      forall r | 0 <= r < |s.available|
        ensures Work(s, Elements(order[..k]), r) <= Work(s, done, r)
      {
        HeldMonotone(s, Elements(order[..k]), done, r, |s.processes|);
      }
      assert Fits(s, order[k], done);
    }
  }

  lemma {:induction false} FirstOutside(order: seq<nat>, done: set<nat>) returns (k: nat)
    requires !(Elements(order) <= done)
    ensures k < |order| && order[k] !in done
    ensures forall j :: 0 <= j < k ==> order[j] in done
  {
    k := 0;
    while k < |order| && order[k] in done
      invariant k <= |order|
      invariant forall j :: 0 <= j < k ==> order[j] in done
    {
      k := k + 1;
    }
  }

  lemma {:induction false} RunsExtend(s: State, order: seq<nat>, i: nat)
    requires Shaped(s) && Runs(s, order)
    requires i in UsedSlots(s) && i !in order && Fits(s, i, Elements(order))
    ensures Runs(s, order + [i])
    ensures Elements(order + [i]) == Elements(order) + {i}
  {
    var longer := order + [i];
    forall k | 0 <= k < |longer|
      ensures Fits(s, longer[k], Elements(longer[..k]))
    {
      assert longer[..k] == order[..k];
      assert order[..|order|] == order;
    }
  }

  // ---- the effect of each call ----------------------------------------------

  function FindByPid(processes: seq<Process>, pid: int, from: nat): (slot: int)
    requires from <= |processes|
    ensures -1 <= slot < |processes|
    ensures slot >= 0 ==> from <= slot && processes[slot].used && processes[slot].pid == pid
    ensures forall j :: from <= j < (if slot < 0 then |processes| else slot) ==>
              !(processes[j].used && processes[j].pid == pid)
    decreases |processes| - from
  {
    if from == |processes| then -1
    else if processes[from].used && processes[from].pid == pid then from
    else FindByPid(processes, pid, from + 1)
  }

  function FindFree(processes: seq<Process>, from: nat): (slot: int)
    requires from <= |processes|
    ensures -1 <= slot < |processes|
    ensures slot >= 0 ==> from <= slot && !processes[slot].used
    ensures forall j :: from <= j < (if slot < 0 then |processes| else slot) ==> processes[j].used
    decreases |processes| - from
  {
    if from == |processes| then -1
    else if !processes[from].used then from
    else FindFree(processes, from + 1)
  }

  predicate Leq(a: Vector, b: Vector)
    requires |a| == |b|
  {
    forall r :: 0 <= r < |a| ==> a[r] <= b[r]
  }

  function Plus(a: Vector, b: Vector): (c: Vector)
    requires |a| == |b|
    ensures |c| == |a| && forall r :: 0 <= r < |a| ==> c[r] == a[r] + b[r]
  {
    seq(|a|, r requires 0 <= r < |a| => a[r] + b[r])
  }

  function Minus(a: Vector, b: Vector): (c: Vector)
    requires |a| == |b| && Leq(b, a)
    ensures |c| == |a| && forall r :: 0 <= r < |a| ==> c[r] == a[r] - b[r]
  {
    seq(|a|, r requires 0 <= r < |a| => a[r] - b[r])
  }

  function Zero(resources: nat): (z: Vector)
    ensures |z| == resources && forall r :: 0 <= r < resources ==> z[r] == 0
  {
    seq(resources, _ => 0)
  }

  function FreeRow(resources: nat): Process {
    Process(false, 0, Zero(resources), Zero(resources), Zero(resources))
  }

  function Initial(available: Vector, slots: nat): State {
    State(available, seq(slots, _ => FreeRow(|available|)))
  }

  /** The slot a registration writes: the pid's own, else the first free one. */
  function RegisterSlot(s: State, pid: int): (slot: int)
    ensures -1 <= slot < |s.processes|
  {
    var own := FindByPid(s.processes, pid, 0);
    if own >= 0 then own else FindFree(s.processes, 0)
  }

  function Registered(s: State, slot: nat, pid: int, max: Vector): State
    requires slot < |s.processes|
  {
    s.(processes := s.processes[slot := Process(true, pid, max, Zero(|s.available|), max)])
  }

  function Unregistered(s: State, slot: nat): State
    requires slot < |s.processes| && |s.processes[slot].allocation| == |s.available|
  {
    State(Plus(s.available, s.processes[slot].allocation),
          s.processes[slot := FreeRow(|s.available|)])
  }

  function Granted(s: State, slot: nat, v: Vector): State
    requires slot < |s.processes| && RowLengths(s.processes[slot], |s.available|)
    requires |v| == |s.available| && Leq(v, s.available) && Leq(v, s.processes[slot].need)
  {
    var p := s.processes[slot];
    State(Minus(s.available, v),
          s.processes[slot := p.(allocation := Plus(p.allocation, v), need := Minus(p.need, v))])
  }

  function Returned(s: State, slot: nat, v: Vector): State
    requires slot < |s.processes| && RowLengths(s.processes[slot], |s.available|)
    requires |v| == |s.available| && Leq(v, s.processes[slot].allocation)
  {
    var p := s.processes[slot];
    State(Plus(s.available, v),
          s.processes[slot := p.(allocation := Minus(p.allocation, v), need := Plus(p.need, v))])
  }

  predicate RowLengths(p: Process, resources: nat) {
    |p.max| == |p.allocation| == |p.need| == resources
  }

  datatype Call =
    | Register(pid: int, max: Vector)
    | Unregister(pid: int)
    | Request(pid: int, v: Vector)
    | Release(pid: int, v: Vector)

  ghost predicate WellTyped(s: State, c: Call) {
    && (c.Register? ==> |c.max| == |s.available|)
    && (c.Request? || c.Release? ==> |c.v| == |s.available|)
  }

  /** The status a ready banker returns. */
  ghost function Status(s: State, c: Call): int
    requires Shaped(s) && WellTyped(s, c)
  {
    var slot := FindByPid(s.processes, c.pid, 0);
    match c
    case Register(pid, _) =>
      if RegisterSlot(s, pid) < 0 then BANKER_ERR_NO_SLOT else BANKER_OK
    case Unregister(_) => BANKER_OK
    case Request(_, v) =>
      if slot < 0 then BANKER_ERR_NO_PROCESS
      else if !Leq(v, s.processes[slot].need) then BANKER_ERR_OVER_NEED
      else if !Leq(v, s.available) then BANKER_ERR_OVER_AVAILABLE
      else if !SafeAfter(s, slot, v) then BANKER_ERR_UNSAFE
      else BANKER_OK
    case Release(_, v) =>
      if slot < 0 then BANKER_ERR_NO_PROCESS
      else if !Leq(v, s.processes[slot].allocation) then BANKER_ERR_OVER_ALLOCATED
      else BANKER_OK
  }

  ghost predicate SafeAfter(s: State, slot: nat, v: Vector)
    requires Shaped(s) && slot < |s.processes| && |v| == |s.available|
    requires Leq(v, s.available) && Leq(v, s.processes[slot].need)
  {
    Shaped(Granted(s, slot, v)) && Safe(Granted(s, slot, v))
  }

  /** The tables after a call; a refused call changes nothing. */
  ghost function Step(s: State, c: Call): State
    requires Shaped(s) && WellTyped(s, c)
  {
    var slot := FindByPid(s.processes, c.pid, 0);
    if Status(s, c) != BANKER_OK then s
    else match c
      case Register(pid, max) => Registered(s, RegisterSlot(s, pid), pid, max)
      case Unregister(_) => if slot < 0 then s else Unregistered(s, slot)
      case Request(_, v) => Granted(s, slot, v)
      case Release(_, v) => Returned(s, slot, v)
  }
}
