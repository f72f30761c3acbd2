/** The banker module: fixed tables updated in place, over 32-bit arithmetic. */
module BankerModule {
  import opened Machine
  import opened BankerSpec
  import opened BankerSafety
  import opened BankerLaws

  const BANKER_RESOURCE_COUNT := 3
  const BANKER_MAX_PROCESSES := 8

  class Banker {
    const resources: nat
    const slots: nat
    var ready: bool
    const available: array<U32>
    const processes: array<Process>
    /** What the pool was initialised with. */
    ghost var initial: Vector

    ghost predicate Valid()
      reads this, available, processes
    {
      && available.Length == resources && processes.Length == slots
      && |initial| == resources
      && (forall r :: 0 <= r < resources ==> initial[r] < WORD_LIMIT)
      && Sane(Tables(), initial)
    }

    ghost function Tables(): State
      reads available, processes
    {
      State(available[..], processes[..])
    }

    constructor (resources: nat, slots: nat)
      ensures Valid() && !ready && this.resources == resources && this.slots == slots
      ensures fresh(available) && fresh(processes)
      ensures Tables() == Initial(Zero(resources), slots)
    {
      this.resources := resources;
      this.slots := slots;
      ready := false;
      available := new U32[resources](_ => 0);
      processes := new Process[slots](_ => FreeRow(resources));
      initial := Zero(resources);
      new;
      assert available[..] == Zero(resources);
      assert processes[..] == Initial(Zero(resources), slots).processes;
      InitialIsSafe(Zero(resources), slots);
    }

    method Init(initialAvailable: seq<U32>)
      requires Valid() && |initialAvailable| == resources
      modifies this`ready, this`initial, available, processes
      ensures Valid() && ready && initial == initialAvailable
      ensures Tables() == Initial(initialAvailable, slots) && Safe(Tables())
    {
      for r := 0 to resources
        invariant available[..r] == initialAvailable[..r]
      {
        available[r] := initialAvailable[r];
      }
      for i := 0 to slots
        invariant available[..] == initialAvailable
        invariant forall j :: 0 <= j < i ==> processes[j] == FreeRow(resources)
      {
        processes[i] := FreeRow(resources);
      }
      initial := initialAvailable;
      ready := true;
      assert available[..] == initialAvailable;
      assert processes[..] == Initial(initialAvailable, slots).processes;
      InitialIsSafe(initialAvailable, slots);
    }

    method FindSlotByPid(pid: int) returns (slot: int)
      requires Valid()
      ensures slot == FindByPid(processes[..], pid, 0)
    {
      for i := 0 to slots
        invariant FindByPid(processes[..], pid, 0) == FindByPid(processes[..], pid, i)
      {
        if processes[i].used && processes[i].pid == pid {
          return i;
        }
      }
      return -1;
    }

    method FindFreeSlot() returns (slot: int)
      requires Valid()
      ensures slot == FindFree(processes[..], 0)
    {
      for i := 0 to slots
        invariant FindFree(processes[..], 0) == FindFree(processes[..], i)
      {
        if !processes[i].used {
          return i;
        }
      }
      return -1;
    }

    static method VectorLeq(left: Vector, right: Vector) returns (leq: bool)
      requires |left| == |right|
      ensures leq == Leq(left, right)
    {
      for r := 0 to |left|
        invariant forall k :: 0 <= k < r ==> left[k] <= right[k]
      {
        if left[r] > right[r] {
          return false;
        }
      }
      return true;
    }

    method AllFinished(finish: array<bool>) returns (all: bool)
      requires Valid() && finish.Length == slots
      ensures all <==> forall i :: i in UsedSlots(Tables()) ==> finish[i]
    {
      for i := 0 to slots
        invariant forall j: nat :: j < i && processes[j].used ==> finish[j]
      {
        if processes[i].used && !finish[i] {
          assert i in UsedSlots(Tables());
          return false;
        }
      }
      return true;
    }

    /** What the greedy test has established so far. */
    ghost predicate Greedy(work: array<U32>, finish: array<bool>, order: seq<nat>)
      requires Valid()
      reads this, available, processes, work, finish
    {
      && work.Length == resources && finish.Length == slots
      && work != available
      && Runs(Tables(), order)
      && (forall r :: 0 <= r < resources ==> work[r] == Work(Tables(), Elements(order), r))
      && (forall i: nat :: i < slots ==> (finish[i] <==> !processes[i].used || i in order))
    }

    ghost predicate Stuck(order: seq<nat>, n: nat)
      requires Valid()
      reads this, available, processes
    {
      forall i :: i in UsedSlots(Tables()) && i < n && i !in order ==> !Fits(Tables(), i, Elements(order))
    }

    /** The greedy test: it terminates, never wraps, and answers exactly whether a
        completing order exists. */
    method StateIsSafe() returns (safe: bool)
      requires Valid()
      ensures safe <==> Safe(Tables())
    {
      var work, finish := Start();
      ghost var order: seq<nat> := [];
      var progress := true;
      while progress
        invariant fresh(work) && fresh(finish) && Valid() && Greedy(work, finish, order)
        invariant Tables() == old(Tables())
        invariant !progress ==> Stuck(order, slots)
        decreases UsedSlots(Tables()) - Elements(order), progress
      {
        progress, order := Pass(work, finish, order);
      }
      safe := AllFinished(finish);
      ghost var s := Tables();
      if safe {
        assert Elements(order) == UsedSlots(s);
        assert Completes(s, order);
      } else if Safe(s) {
        ghost var better :| Completes(s, better);
        StuckMeansUnsafe(s, Elements(order), better);
      }
    }

    method Start() returns (work: array<U32>, finish: array<bool>)
      requires Valid()
      ensures fresh(work) && fresh(finish) && Greedy(work, finish, [])
    {
      work := new U32[resources];
      for r := 0 to resources
        invariant forall k :: 0 <= k < r ==> work[k] == available[k]
      {
        work[r] := available[r];
      }
      finish := new bool[slots];
      for i := 0 to slots
        invariant forall k :: 0 <= k < resources ==> work[k] == available[k]
        invariant forall k :: 0 <= k < i ==> finish[k] == !processes[k].used
      {
        finish[i] := !processes[i].used;
      }
      ghost var none: seq<nat> := [];
      assert Elements(none) == {};
      forall r | 0 <= r < resources ensures Held(Tables(), Elements(none), r, slots) == 0 {
        HeldNone(Tables(), r, slots);
      }
    }

    /** One pass over the table, finishing every process that fits on the way. */
    method Pass(work: array<U32>, finish: array<bool>, ghost order: seq<nat>)
      returns (progress: bool, ghost longer: seq<nat>)
      requires Valid() && Greedy(work, finish, order)
      modifies work, finish
      ensures Greedy(work, finish, longer)
      ensures if progress then Elements(order) < Elements(longer) else longer == order && Stuck(order, slots)
    {
      progress := false;
      longer := order;
      for i := 0 to slots
        invariant Greedy(work, finish, longer)
        invariant if progress then Elements(order) < Elements(longer) else longer == order && Stuck(order, i)
      {
        if processes[i].used && !finish[i] {
          var fits := VectorLeq(processes[i].need, work[..]);
          if fits {
            longer := FinishSlot(work, finish, i, longer);
            progress := true;
          }
        }
      }
    }

    /** Lets a slot that fits finish: its allocation joins the work. */
    method FinishSlot(work: array<U32>, finish: array<bool>, i: nat, ghost order: seq<nat>) returns (ghost longer: seq<nat>)
      requires Valid() && Greedy(work, finish, order) && i < slots
      requires processes[i].used && !finish[i] && Leq(processes[i].need, work[..])
      modifies work, finish
      ensures longer == order + [i] && Greedy(work, finish, longer) && Elements(order) < Elements(longer)
    {
      hide Sane, Held;
      SaneIsShaped(Tables(), initial);
      assert Fits(Tables(), i, Elements(order));
      AddAllocation(work, i, Elements(order));
      RunsExtend(Tables(), order, i);
      longer := order + [i];
      finish[i] := true;
    }

    method AddAllocation(work: array<U32>, i: nat, ghost done: set<nat>)
      requires Valid() && i in UsedSlots(Tables()) && i !in done
      requires work.Length == resources && work != available
      requires done <= UsedSlots(Tables())
      requires forall r :: 0 <= r < resources ==> work[r] == Work(Tables(), done, r)
      modifies work
      ensures forall r :: 0 <= r < resources ==> work[r] == Work(Tables(), done + {i}, r)
    {
      ghost var s := Tables();
      for r := 0 to resources
        invariant Tables() == s
        invariant forall k :: 0 <= k < r ==> work[k] == Work(s, done + {i}, k)
        invariant forall k :: r <= k < resources ==> work[k] == Work(s, done, k)
      {
        HeldInsert(s, done, i, r, slots);
        HeldMonotone(s, done + {i}, Slots(s), r, slots);
        assert Work(s, done + {i}, r) <= Total(s, r) < WORD_LIMIT;
        work[r] := Add32(work[r], processes[i].allocation[r]);
      }
    }

    /** `available -= v`, `allocation += v`, `need -= v`. */
    method MoveToSlot(slot: nat, v: seq<U32>)
      requires Valid() && slot in UsedSlots(Tables()) && |v| == resources
      requires Leq(v, available[..]) && Leq(v, processes[slot].need)
      modifies available, processes
      ensures Valid() && Tables() == Granted(old(Tables()), slot, v)
    {
      hide Sane, Blend;
      ghost var s := Tables();
      RowBounds(s, initial, slot);
      MovesKeepSane(s, initial, slot, v);
      ghost var t := Granted(s, slot, v);
      NothingMoved(s, t, slot);
      for r := 0 to resources
        invariant Tables() == PartlyMoved(s, t, slot, r)
      {
        OneMoved(s, t, slot, r);
        available[r] := Sub32(available[r], v[r]);
        var q := processes[slot];
        processes[slot] := q.(allocation := q.allocation[r := Add32(q.allocation[r], v[r])],
                              need := q.need[r := Sub32(q.need[r], v[r])]);
      }
      AllMoved(s, t, slot);
    }

    /** `allocation -= v`, `need += v`, `available += v`. */
    method MoveFromSlot(slot: nat, v: seq<U32>)
      requires Valid() && slot in UsedSlots(Tables()) && |v| == resources
      requires Leq(v, processes[slot].allocation)
      modifies available, processes
      ensures Valid() && Tables() == Returned(old(Tables()), slot, v)
    {
      hide Sane, Blend;
      ghost var s := Tables();
      RowBounds(s, initial, slot);
      MovesKeepSane(s, initial, slot, v);
      ghost var t := Returned(s, slot, v);
      NothingMoved(s, t, slot);
      for r := 0 to resources
        invariant Tables() == PartlyMoved(s, t, slot, r)
      {
        OneMoved(s, t, slot, r);
        var q := processes[slot];
        processes[slot] := q.(allocation := q.allocation[r := Sub32(q.allocation[r], v[r])],
                              need := q.need[r := Add32(q.need[r], v[r])]);
        available[r] := Add32(available[r], v[r]);
      }
      AllMoved(s, t, slot);
    }

    method RegisterProcess(pid: int, max: seq<U32>) returns (status: int)
      requires Valid() && |max| == resources
      modifies processes
      ensures Valid()
      ensures status == if ready then Status(old(Tables()), Register(pid, max)) else BANKER_ERR_NOT_READY
      ensures Tables() == if ready then Step(old(Tables()), Register(pid, max)) else old(Tables())
      ensures status == BANKER_OK ==> OthersStay(old(Tables()), Tables(), pid) && available[..] == old(available[..])
      ensures status == BANKER_OK ==> RowOf(Tables(), pid) == Row(max, Zero(resources), max)
    {
      hide Sane, Shaped, UniquePids;
      SaneIsShaped(Tables(), initial);
      if !ready {
        return BANKER_ERR_NOT_READY;
      }
      var slot := FindSlotByPid(pid);
      if slot < 0 {
        slot := FindFreeSlot();
      }
      if slot < 0 {
        return BANKER_ERR_NO_SLOT;
      }
      ghost var s := Tables();
      processes[slot] := Process(true, pid, max, Zero(resources), max);
      status := BANKER_OK;
      assert Tables() == Step(s, Register(pid, max));
      StepKeepsSane(s, initial, Register(pid, max));
      RegisterOpens(s, pid, max);
    }

    method UnregisterProcess(pid: int)
      requires Valid()
      modifies available, processes
      ensures Valid()
      ensures Tables() == if ready then Step(old(Tables()), Unregister(pid)) else old(Tables())
      ensures ready ==> OthersStay(old(Tables()), Tables(), pid) && RowOf(Tables(), pid) == NoRow
      ensures ready ==> forall r: nat :: r < resources ==> available[r] == old(available[r] + AllocationOf(Tables(), pid, r))
    {
      hide Sane, Shaped, UniquePids;
      SaneIsShaped(Tables(), initial);
      if !ready {
        return;
      }
      UnregisterReturns(Tables(), pid);
      var slot := FindSlotByPid(pid);
      if slot < 0 {
        return;
      }
      ghost var s := Tables();
      RowBounds(s, initial, slot);
      for r := 0 to resources
        invariant processes[..] == s.processes
        invariant forall k :: 0 <= k < r ==> available[k] == s.available[k] + s.processes[slot].allocation[k]
        invariant forall k :: r <= k < resources ==> available[k] == s.available[k]
      {
        available[r] := Add32(available[r], processes[slot].allocation[r]);
      }
      processes[slot] := FreeRow(resources);
      ghost var t := Unregistered(s, slot);
      assert available[..] == t.available;
      assert Tables() == t;
      StepKeepsSane(s, initial, Unregister(pid));
    }

    /** Grants the request for a trial, and takes it back when that is not safe. */
    method GrantIfSafe(slot: nat, request: seq<U32>) returns (safe: bool)
      requires Valid() && slot in UsedSlots(Tables()) && |request| == resources
      requires Leq(request, available[..]) && Leq(request, processes[slot].need)
      modifies available, processes
      ensures Valid() && safe == SafeAfter(old(Tables()), slot, request)
      ensures Tables() == if safe then Granted(old(Tables()), slot, request) else old(Tables())
    {
      hide Sane, Safe;
      ghost var s := Tables();
      SaneIsShaped(s, initial);
      MoveToSlot(slot, request);
      SaneIsShaped(Tables(), initial);
      safe := StateIsSafe();
      if !safe {
        MoveFromSlot(slot, request);
        RollbackRestores(s, slot, request);
      }
    }

    method Request(pid: int, request: seq<U32>) returns (status: int)
      requires Valid() && |request| == resources
      modifies available, processes
      ensures Valid()
      ensures status == if ready then Status(old(Tables()), Call.Request(pid, request)) else BANKER_ERR_NOT_READY
      ensures Tables() == if ready then Step(old(Tables()), Call.Request(pid, request)) else old(Tables())
      ensures status == BANKER_OK ==> OthersStay(old(Tables()), Tables(), pid)
      ensures status == BANKER_OK ==> forall r: nat :: r < resources ==>
                && available[r] == old(available[r]) - request[r]
                && AllocationOf(Tables(), pid, r) == old(AllocationOf(Tables(), pid, r)) + request[r]
                && NeedOf(Tables(), pid, r) == old(NeedOf(Tables(), pid, r)) - request[r]
                && MaxOf(Tables(), pid, r) == old(MaxOf(Tables(), pid, r))
    {
      hide Sane, Shaped, UniquePids, Safe, RowOf, OthersStay;
      SaneIsShaped(Tables(), initial);
      if !ready {
        return BANKER_ERR_NOT_READY;
      }
      var slot := FindSlotByPid(pid);
      if slot < 0 {
        return BANKER_ERR_NO_PROCESS;
      }
      RowBounds(Tables(), initial, slot);
      var leq := VectorLeq(request, processes[slot].need);
      if !leq {
        return BANKER_ERR_OVER_NEED;
      }
      leq := VectorLeq(request, available[..]);
      if !leq {
        return BANKER_ERR_OVER_AVAILABLE;
      }
      ghost var s := Tables();
      var safe := GrantIfSafe(slot, request);
      if !safe {
        return BANKER_ERR_UNSAFE;
      }
      RequestMoves(s, pid, request);
      return BANKER_OK;
    }

    method Release(pid: int, release: seq<U32>) returns (status: int)
      requires Valid() && |release| == resources
      modifies available, processes
      ensures Valid()
      ensures status == if ready then Status(old(Tables()), Call.Release(pid, release)) else BANKER_ERR_NOT_READY
      ensures Tables() == if ready then Step(old(Tables()), Call.Release(pid, release)) else old(Tables())
      ensures status == BANKER_OK ==> OthersStay(old(Tables()), Tables(), pid)
      ensures status == BANKER_OK ==> forall r: nat :: r < resources ==>
                && available[r] == old(available[r]) + release[r]
                && AllocationOf(Tables(), pid, r) == old(AllocationOf(Tables(), pid, r)) - release[r]
                && NeedOf(Tables(), pid, r) == old(NeedOf(Tables(), pid, r)) + release[r]
                && MaxOf(Tables(), pid, r) == old(MaxOf(Tables(), pid, r))
    {
      if !ready {
        return BANKER_ERR_NOT_READY;
      }
      var slot := FindSlotByPid(pid);
      if slot < 0 {
        return BANKER_ERR_NO_PROCESS;
      }
      var leq := VectorLeq(release, processes[slot].allocation);
      if !leq {
        return BANKER_ERR_OVER_ALLOCATED;
      }
      ReleaseMoves(Tables(), pid, release);
      MoveFromSlot(slot, release);
      return BANKER_OK;
    }
  }

  /** The rows add up, pids are unique, all numbers fit 32 bits and the pool is not exceeded. */
  ghost predicate Sane(s: State, initial: Vector) {
    && Shaped(s) && UniquePids(s) && InRange(s.processes) && |initial| == |s.available|
    && forall r :: 0 <= r < |s.available| ==> Total(s, r) <= initial[r]
  }

  lemma {:induction false} StepKeepsSane(s: State, initial: Vector, c: Call)
    requires Sane(s, initial) && WellTyped(s, c) && (c.Register? || c.Unregister?)
    requires c.Register? ==> forall r :: 0 <= r < |c.max| ==> c.max[r] < WORD_LIMIT
    ensures Sane(Step(s, c), initial)
  {
    StepKeepsShape(s, c);
    forall r | 0 <= r < |s.available| ensures Total(Step(s, c), r) <= initial[r] {
      StepTotal(s, c, r);
    }
    forall i | 0 <= i < |s.processes| ensures RowInRange(Step(s, c).processes[i]) {
      assert RowInRange(s.processes[i]);
    }
  }

  lemma {:induction false} SaneIsShaped(s: State, initial: Vector)
    requires Sane(s, initial)
    ensures Shaped(s) && UniquePids(s)
  {
  }

  /** Numbers of a row can be moved between it and the pool without wrapping. */
  lemma {:induction false} RowBounds(s: State, initial: Vector, slot: nat)
    requires Sane(s, initial) && slot < |s.processes| && forall r :: 0 <= r < |initial| ==> initial[r] < WORD_LIMIT
    ensures RowLengths(s.processes[slot], |s.available|)
    ensures forall r :: 0 <= r < |s.available| ==>
              s.processes[slot].need[r] + s.processes[slot].allocation[r] < WORD_LIMIT
              && s.available[r] + s.processes[slot].allocation[r] < WORD_LIMIT
  {
    var p := s.processes[slot];
    assert RowInRange(p) && RowShaped(p, |s.available|);
    forall r | 0 <= r < |s.available| ensures s.available[r] + p.allocation[r] < WORD_LIMIT {
      HoldingWithinTotal(s, slot, r);
    }
  }

  lemma {:induction false} MovesKeepSane(s: State, initial: Vector, slot: nat, v: Vector)
    requires Sane(s, initial) && slot < |s.processes| && |v| == |s.available| && s.processes[slot].used
    ensures Leq(v, s.available) && RowLengths(s.processes[slot], |v|) && Leq(v, s.processes[slot].need) ==> Sane(Granted(s, slot, v), initial)
    ensures RowLengths(s.processes[slot], |v|) && Leq(v, s.processes[slot].allocation) ==> Sane(Returned(s, slot, v), initial)
  {
    var p := s.processes[slot];
    assert RowInRange(p) && RowShaped(p, |s.available|);
    if Leq(v, s.available) && Leq(v, p.need) {
      var t := Granted(s, slot, v);
      assert RowShaped(t.processes[slot], |s.available|);
      Balanced(s, t, slot);
    }
    if Leq(v, p.allocation) {
      var t := Returned(s, slot, v);
      assert RowShaped(t.processes[slot], |s.available|);
      Balanced(s, t, slot);
    }
  }

  /** Taking a grant back restores the state exactly. */
  lemma {:induction false} RollbackRestores(s: State, slot: nat, v: Vector)
    requires slot < |s.processes| && |v| == |s.available| && RowLengths(s.processes[slot], |v|)
    requires Leq(v, s.available) && Leq(v, s.processes[slot].need)
    ensures var g := Granted(s, slot, v); Leq(v, g.processes[slot].allocation) && Returned(g, slot, v) == s
  {
    var g := Granted(s, slot, v);
    assert Plus(g.available, v) == s.available;
    assert Minus(g.processes[slot].allocation, v) == s.processes[slot].allocation;
    assert Plus(g.processes[slot].need, v) == s.processes[slot].need;
  }

  /** The first `r` numbers of `b`, the others of `a`. */
  function Blend(a: Vector, b: Vector, r: nat): (c: Vector)
    requires r <= |a| == |b|
    ensures |c| == |a|
  {
    b[..r] + a[r..]
  }

  /** Only the numbers of slot `slot`'s row and of the pool differ. */
  ghost predicate SameElsewhere(s: State, t: State, slot: nat) {
    && slot < |s.processes| == |t.processes| && |s.available| == |t.available|
    && t.processes == s.processes[slot := t.processes[slot]]
    && RowLengths(s.processes[slot], |s.available|) && RowLengths(t.processes[slot], |s.available|)
    && t.processes[slot] == s.processes[slot].(allocation := t.processes[slot].allocation, need := t.processes[slot].need)
  }

  /** The first `r` numbers have moved from `s` to `t`. */
  ghost function PartlyMoved(s: State, t: State, slot: nat, r: nat): State
    requires SameElsewhere(s, t, slot) && r <= |s.available|
  {
    var p, q := s.processes[slot], t.processes[slot];
    State(Blend(s.available, t.available, r),
          s.processes[slot := p.(allocation := Blend(p.allocation, q.allocation, r), need := Blend(p.need, q.need, r))])
  }

  lemma {:induction false} BlendStep(a: Vector, b: Vector, r: nat)
    requires r < |a| == |b|
    ensures Blend(a, b, r)[r] == a[r] && Blend(a, b, r + 1) == Blend(a, b, r)[r := b[r]]
  {
  }

  lemma {:induction false} NothingMoved(s: State, t: State, slot: nat)
    requires SameElsewhere(s, t, slot)
    ensures PartlyMoved(s, t, slot, 0) == s
  {
    forall a: Vector, b: Vector | |a| == |b| ensures Blend(a, b, 0) == a {
    }
    assert s.processes[slot := s.processes[slot]] == s.processes;
  }

  lemma {:induction false} AllMoved(s: State, t: State, slot: nat)
    requires SameElsewhere(s, t, slot)
    ensures PartlyMoved(s, t, slot, |s.available|) == t
  {
    forall a: Vector, b: Vector | |a| == |b| ensures Blend(a, b, |a|) == b {
    }
  }

  lemma {:induction false} OneMoved(s: State, t: State, slot: nat, r: nat)
    requires SameElsewhere(s, t, slot) && r < |s.available|
    ensures var a, b := PartlyMoved(s, t, slot, r), PartlyMoved(s, t, slot, r + 1);
            var p := a.processes[slot];
            && a.available[r] == s.available[r] && p.allocation[r] == s.processes[slot].allocation[r] && p.need[r] == s.processes[slot].need[r]
            && b.available == a.available[r := t.available[r]]
            && b.processes == a.processes[slot := p.(allocation := p.allocation[r := t.processes[slot].allocation[r]],
                                                     need := p.need[r := t.processes[slot].need[r]])]
  {
    BlendStep(s.available, t.available, r);
    BlendStep(s.processes[slot].allocation, t.processes[slot].allocation, r);
    BlendStep(s.processes[slot].need, t.processes[slot].need, r);
  }

  ghost predicate InRange(processes: seq<Process>) {
    forall i :: 0 <= i < |processes| ==> RowInRange(processes[i])
  }

  ghost predicate RowInRange(p: Process) {
    forall r :: 0 <= r < |p.max| ==> p.max[r] < WORD_LIMIT
  }
}
