/** What runs of banker calls keep: the resource totals, safety, and the
    possibility of driving every registered process to completion. */
module BankerSafety {
  import opened BankerSpec

  // ---- orderings under a change of one slot ---------------------------------

  lemma {:induction false} WorkUpdate(s: State, t: State, i: nat, d: set<nat>, r: nat)
    requires Shaped(s) && Shaped(t) && |s.available| == |t.available| && |s.processes| == |t.processes|
    requires i < |s.processes| && t.processes == s.processes[i := t.processes[i]] && r < |s.available|
    ensures Work(t, d, r) + s.available[r] + (if i in d then s.processes[i].allocation[r] else 0)
         == Work(s, d, r) + t.available[r] + (if i in d then t.processes[i].allocation[r] else 0)
  {
    HeldUpdate(s, t, i, d, r, |s.processes|);
  }

  function Drop(order: seq<nat>, i: nat): (rest: seq<nat>)
    ensures i !in rest
    ensures forall x :: x in rest <==> x in order && x != i
  {
    if order == [] then []
    else
      var last := order[|order| - 1];
      Drop(order[..|order| - 1], i) + if last == i then [] else [last]
  }

  /** When slot `i` leaves and gives back at least what it held, the others can
      still run in the same order. */
  lemma {:induction false} RunsWithout(s: State, t: State, i: nat, order: seq<nat>)
    requires Shaped(s) && Shaped(t) && |s.available| == |t.available|
    requires i < |s.processes| == |t.processes| && !t.processes[i].used
    requires t.processes == s.processes[i := t.processes[i]]
    requires forall r :: 0 <= r < |s.available| ==>
               t.available[r] >= s.available[r] + s.processes[i].allocation[r]
    requires Runs(s, order)
    ensures Runs(t, Drop(order, i))
  {
    if order != [] {
      var front, last := order[..|order| - 1], order[|order| - 1];
      forall k | 0 <= k < |front| ensures Fits(s, front[k], Elements(front[..k])) {
        assert front[..k] == order[..k];
      }
      RunsWithout(s, t, i, front);
      if last != i {
        var d := Elements(front);
        assert Fits(s, last, d);
        forall r | 0 <= r < |s.available| ensures Work(s, d, r) <= Work(t, Elements(Drop(front, i)), r) {
          WorkUpdate(s, t, i, d, r);
          assert Elements(Drop(front, i)) == d - {i};
          if i in d {
            HeldInsert(t, d - {i}, i, r, |t.processes|);
            assert d - {i} + {i} == d;
          } else {
            assert d - {i} == d;
          }
        }
        RunsExtend(t, Drop(front, i), last);
      } else {
        assert Drop(order, i) == Drop(front, i);
      }
    }
  }

  lemma {:induction false} SafeWithout(s: State, t: State, i: nat)
    requires Shaped(s) && Shaped(t) && |s.available| == |t.available|
    requires i < |s.processes| == |t.processes| && !t.processes[i].used
    requires t.processes == s.processes[i := t.processes[i]]
    requires forall r :: 0 <= r < |s.available| ==>
               t.available[r] >= s.available[r] + s.processes[i].allocation[r]
    requires Safe(s)
    ensures Safe(t)
  {
    var order :| Completes(s, order);
    RunsWithout(s, t, i, order);
    assert Elements(Drop(order, i)) == Elements(order) - {i};
    assert UsedSlots(t) == UsedSlots(s) - {i};
    assert Completes(t, Drop(order, i));
  }

  // ---- registration -----------------------------------------------------------

  /** The tables with one slot emptied and nothing credited. */
  function Emptied(s: State, slot: nat): State
    requires slot < |s.processes|
  {
    s.(processes := s.processes[slot := FreeRow(|s.available|)])
  }

  /** The work the others leave is the same in both tables. */
  lemma {:induction false} RegistrationWork(t: State, e: State, slot: nat, pid: int, max: Vector, s: State)
    requires Shaped(s) && slot < |s.processes| && |max| == |s.available| && t == Registered(s, slot, pid, max) && e == Emptied(s, slot)
    ensures Shaped(t) && Shaped(e) && UsedSlots(t) == UsedSlots(e) + {slot} && slot !in UsedSlots(e)
    ensures forall d, r :: 0 <= r < |max| ==> Work(t, d, r) == Work(e, d, r)
    ensures forall r :: 0 <= r < |max| ==> Total(e, r) == Work(e, UsedSlots(e), r)
  {
    forall d, r | 0 <= r < |max| ensures Work(t, d, r) == Work(e, d, r) {
      WorkUpdate(e, t, slot, d, r);
    }
    forall r | 0 <= r < |max| ensures Total(e, r) == Work(e, UsedSlots(e), r) {
      TotalIsUsed(e, r);
    }
  }

  /** A registered process that can finish asks for no more than all there is. */
  lemma {:induction false} RegisteredFits(t: State, e: State, slot: nat, pid: int, max: Vector, s: State, order: seq<nat>, r: nat)
    requires Shaped(s) && slot < |s.processes| && |max| == |s.available| && t == Registered(s, slot, pid, max) && e == Emptied(s, slot)
    requires Shaped(t) && Completes(t, order) && r < |max|
    ensures Shaped(e) && max[r] <= Total(e, r)
  {
    RegistrationWork(t, e, slot, pid, max, s);
    assert slot in Elements(order);
    var k :| 0 <= k < |order| && order[k] == slot;
    assert Fits(t, slot, Elements(order[..k]));
    assert Elements(order[..k]) <= UsedSlots(t);
    HeldMonotone(t, Elements(order[..k]), UsedSlots(t), r, |t.processes|);
    HeldInsert(e, UsedSlots(e), slot, r, |e.processes|);
    assert Work(t, UsedSlots(t), r) == Work(e, UsedSlots(t), r) == Total(e, r);
  }

  /** Registration keeps the state safe exactly when the rest of the table is safe
      without what the slot held, and the declared maximum fits the total. */
  lemma {:induction false} RegisterSafeExactly(s: State, slot: nat, pid: int, max: Vector)
    requires Shaped(s) && slot < |s.processes| && |max| == |s.available|
    ensures Shaped(Registered(s, slot, pid, max)) && Shaped(Emptied(s, slot))
    ensures Safe(Registered(s, slot, pid, max))
       <==> Safe(Emptied(s, slot)) && forall r :: 0 <= r < |max| ==> max[r] <= Total(Emptied(s, slot), r)
  {
    var t, e := Registered(s, slot, pid, max), Emptied(s, slot);
    RegistrationWork(t, e, slot, pid, max, s);
    if Safe(t) {
      SafeWithout(t, e, slot);
      var order :| Completes(t, order);
      forall r | 0 <= r < |max| ensures max[r] <= Total(e, r) {
        RegisteredFits(t, e, slot, pid, max, s, order, r);
      }
    }
    if Safe(e) && forall r :: 0 <= r < |max| ==> max[r] <= Total(e, r) {
      var order :| Completes(e, order);
      RegisteredLast(t, e, slot, pid, max, s, order);
    }
  }

  /** What completes the others, and then the new process, completes all. */
  lemma {:induction false} RegisteredLast(t: State, e: State, slot: nat, pid: int, max: Vector, s: State, order: seq<nat>)
    requires Shaped(s) && slot < |s.processes| && |max| == |s.available| && t == Registered(s, slot, pid, max) && e == Emptied(s, slot)
    requires Shaped(t) && Shaped(e) && Completes(e, order) && forall r :: 0 <= r < |max| ==> max[r] <= Total(e, r)
    ensures Completes(t, order + [slot])
  {
    RegistrationWork(t, e, slot, pid, max, s);
    forall k | 0 <= k < |order| ensures Fits(t, order[k], Elements(order[..k])) {
      assert Fits(e, order[k], Elements(order[..k]));
    }
    assert Runs(t, order);
    assert Elements(order) == UsedSlots(e);
    RunsExtend(t, order, slot);
  }

  // ---- release, unregistration, request ---------------------------------------

  lemma {:induction false} ReleaseKeepsSafe(s: State, slot: nat, v: Vector)
    requires Shaped(s) && slot in UsedSlots(s) && |v| == |s.available| && Leq(v, s.processes[slot].allocation)
    requires Safe(s)
    ensures Shaped(Returned(s, slot, v)) && Safe(Returned(s, slot, v))
  {
    var t := Returned(s, slot, v);
    var order :| Completes(s, order);
    forall k | 0 <= k < |order| ensures Fits(t, order[k], Elements(order[..k])) {
      var d := Elements(order[..k]);
      assert Fits(s, order[k], d);
      forall r | 0 <= r < |s.available| ensures t.processes[order[k]].need[r] <= Work(t, d, r) {
        WorkUpdate(s, t, slot, d, r);
        assert slot in d ==> order[k] != slot;
      }
    }
    assert UsedSlots(t) == UsedSlots(s);
    assert Completes(t, order);
  }

  lemma {:induction false} UnregisterKeepsSafe(s: State, slot: nat)
    requires Shaped(s) && slot < |s.processes| && Safe(s)
    ensures Shaped(Unregistered(s, slot)) && Safe(Unregistered(s, slot))
  {
    SafeWithout(s, Unregistered(s, slot), slot);
  }

  /** Granting the whole need of the first process of a safe ordering is safe. */
  lemma {:induction false} GrantFirst(s: State, order: seq<nat>)
    requires Shaped(s) && Completes(s, order) && order != []
    ensures Leq(s.processes[order[0]].need, s.available)
    ensures SafeAfter(s, order[0], s.processes[order[0]].need)
  {
    var first := order[0];
    var need := s.processes[first].need;
    assert Fits(s, first, Elements(order[..0]));
    forall r | 0 <= r < |s.available| ensures Work(s, Elements(order[..0]), r) == s.available[r] {
      HeldNone(s, r, |s.processes|);
      assert Elements(order[..0]) == {};
    }
    var t := Granted(s, first, need);
    forall k | 0 <= k < |order| ensures Fits(t, order[k], Elements(order[..k])) {
      var d := Elements(order[..k]);
      assert Fits(s, order[k], d);
      forall r | 0 <= r < |s.available| ensures t.processes[order[k]].need[r] <= Work(t, d, r) {
        if k > 0 {
          assert order[0] == order[..k][0];
          WorkUpdate(s, t, first, d, r);
        }
      }
    }
    assert UsedSlots(t) == UsedSlots(s);
    assert Completes(t, order);
  }

  lemma {:induction false} HeldNone(s: State, r: nat, n: nat)
    requires Shaped(s) && r < |s.available| && n <= |s.processes|
    ensures Held(s, {}, r, n) == 0
  {
    if n > 0 {
      HeldNone(s, r, n - 1);
    }
  }

  // ---- runs ---------------------------------------------------------------------

  ghost predicate UniquePids(s: State) {
    forall i, j :: 0 <= i < j < |s.processes| && s.processes[i].used && s.processes[j].used ==>
                     s.processes[i].pid != s.processes[j].pid
  }

  lemma {:induction false} StepKeepsShape(s: State, c: Call)
    requires Shaped(s) && WellTyped(s, c)
    ensures Shaped(Step(s, c)) && |Step(s, c).available| == |s.available|
    ensures |Step(s, c).processes| == |s.processes|
    ensures UniquePids(s) ==> UniquePids(Step(s, c))
  {
  }

  /** What a registration forgets: the holding of a slot it overwrites. */
  ghost function Forgotten(s: State, c: Call, r: nat): nat
    requires Shaped(s) && r < |s.available|
  {
    if c.Register? && RegisterSlot(s, c.pid) >= 0 then s.processes[RegisterSlot(s, c.pid)].allocation[r] else 0
  }

  /** A change of one slot that the pool makes up for leaves every total alone. */
  lemma {:induction false} Balanced(s: State, t: State, slot: nat)
    requires Shaped(s) && Shaped(t) && |s.available| == |t.available| && |s.processes| == |t.processes|
    requires slot < |s.processes| && t.processes == s.processes[slot := t.processes[slot]]
    requires forall r :: 0 <= r < |s.available| ==>
               t.available[r] + t.processes[slot].allocation[r] == s.available[r] + s.processes[slot].allocation[r]
    ensures forall r :: 0 <= r < |s.available| ==> Total(t, r) == Total(s, r)
  {
    forall r | 0 <= r < |s.available| ensures Total(t, r) == Total(s, r) {
      assert Slots(s) == Slots(t);
      WorkUpdate(s, t, slot, Slots(s), r);
    }
  }

  lemma {:induction false} HoldingWithinTotal(s: State, slot: nat, r: nat)
    requires Shaped(s) && slot < |s.processes| && r < |s.available|
    ensures s.available[r] + s.processes[slot].allocation[r] <= Total(s, r)
  {
    HeldInsert(s, {}, slot, r, |s.processes|);
    HeldMonotone(s, {} + {slot}, Slots(s), r, |s.processes|);
  }

  lemma {:induction false} StepTotal(s: State, c: Call, r: nat)
    requires Shaped(s) && WellTyped(s, c) && r < |s.available|
    ensures Shaped(Step(s, c)) && |Step(s, c).available| == |s.available|
    ensures Total(Step(s, c), r) + Forgotten(s, c, r) == Total(s, r)
  {
    StepKeepsShape(s, c);
    var t := Step(s, c);
    var slot := if c.Register? then RegisterSlot(s, c.pid) else FindByPid(s.processes, c.pid, 0);
    if slot >= 0 {
      assert Slots(s) == Slots(t);
      WorkUpdate(s, t, slot, Slots(s), r);
    }
  }

  ghost predicate AllTyped(resources: nat, calls: seq<Call>) {
    forall k :: 0 <= k < |calls| ==>
      && (calls[k].Register? ==> |calls[k].max| == resources)
      && (calls[k].Request? || calls[k].Release? ==> |calls[k].v| == resources)
  }

  ghost function Run(s: State, calls: seq<Call>): (t: State)
    requires Shaped(s) && AllTyped(|s.available|, calls)
    ensures Shaped(t) && |t.available| == |s.available|
    decreases |calls|
  {
    if calls == [] then s
    else
      StepKeepsShape(s, calls[0]);
      Run(Step(s, calls[0]), calls[1..])
  }

  /** No sum the banker forms passes what it was initialised with, whatever the
      calls, so no uint32_t addition in it wraps. */
  lemma {:induction false} RunNeverExceedsInitial(s: State, calls: seq<Call>, r: nat)
    requires Shaped(s) && AllTyped(|s.available|, calls) && r < |s.available|
    ensures Total(Run(s, calls), r) <= Total(s, r)
    decreases |calls|
  {
    if calls != [] {
      StepTotal(s, calls[0], r);
      RunNeverExceedsInitial(Step(s, calls[0]), calls[1..], r);
    }
  }

  /** Each registration names a process that holds nothing and asks for at most
      the resources there are. */
  ghost predicate Admissible(s: State, calls: seq<Call>, limit: Vector)
    requires Shaped(s) && AllTyped(|s.available|, calls) && |limit| == |s.available|
    decreases |calls|
  {
    calls != [] ==>
      && (forall r :: 0 <= r < |limit| ==> Forgotten(s, calls[0], r) == 0)
      && (calls[0].Register? ==> Leq(calls[0].max, limit))
      && (StepKeepsShape(s, calls[0]); Admissible(Step(s, calls[0]), calls[1..], limit))
  }

  ghost predicate Accounts(s: State, limit: Vector)
    requires Shaped(s) && |limit| == |s.available|
  {
    forall r :: 0 <= r < |limit| ==> Total(s, r) == limit[r]
  }

  lemma {:induction false} StepKeepsSafe(s: State, c: Call, limit: Vector)
    requires Shaped(s) && WellTyped(s, c) && |limit| == |s.available|
    requires Safe(s) && Accounts(s, limit)
    requires forall r :: 0 <= r < |limit| ==> Forgotten(s, c, r) == 0
    requires c.Register? ==> Leq(c.max, limit)
    ensures Shaped(Step(s, c)) && |Step(s, c).available| == |limit|
    ensures Safe(Step(s, c)) && Accounts(Step(s, c), limit)
  {
    StepKeepsShape(s, c);
    forall r | 0 <= r < |limit| ensures Total(Step(s, c), r) == limit[r] {
      StepTotal(s, c, r);
    }
    var slot := FindByPid(s.processes, c.pid, 0);
    match c
    case Register(pid, max) =>
      var target := RegisterSlot(s, pid);
      if target >= 0 {
        var e := Emptied(s, target);
        forall r | 0 <= r < |limit| ensures Total(e, r) == limit[r] && s.processes[target].allocation[r] == 0 {
          assert Slots(e) == Slots(s) && Total(s, r) == limit[r];
          assert Forgotten(s, c, r) == 0;
          WorkUpdate(s, e, target, Slots(s), r);
        }
        SafeWithout(s, e, target);
        RegisterSafeExactly(s, target, pid, max);
      }
    case Unregister(_) => if slot >= 0 { UnregisterKeepsSafe(s, slot); }
    case Request(_, _) =>
    case Release(_, v) => if Status(s, c) == BANKER_OK { ReleaseKeepsSafe(s, slot, v); }
  }

  lemma {:induction false} RunKeepsSafe(s: State, calls: seq<Call>, limit: Vector)
    requires Shaped(s) && AllTyped(|s.available|, calls) && |limit| == |s.available|
    requires Safe(s) && Accounts(s, limit) && Admissible(s, calls, limit)
    ensures Safe(Run(s, calls)) && Accounts(Run(s, calls), limit)
    decreases |calls|
  {
    if calls != [] {
      StepKeepsSafe(s, calls[0], limit);
      RunKeepsSafe(Step(s, calls[0]), calls[1..], limit);
    }
  }

  lemma {:induction false} InitialIsSafe(available: Vector, slots: nat)
    ensures Shaped(Initial(available, slots)) && UniquePids(Initial(available, slots))
    ensures Safe(Initial(available, slots)) && Accounts(Initial(available, slots), available)
  {
    var s := Initial(available, slots);
    assert Completes(s, []);
    forall r | 0 <= r < |available| ensures Total(s, r) == available[r] {
      TotalIsUsed(s, r);
      assert UsedSlots(s) == {};
      HeldNone(s, r, slots);
    }
  }

  /** Every state an admissible run reaches is safe, and accounts for exactly the
      initial resources. */
  lemma {:induction false} ReachableStatesAreSafe(available: Vector, slots: nat, calls: seq<Call>)
    requires AllTyped(|available|, calls)
    requires Shaped(Initial(available, slots)) && Admissible(Initial(available, slots), calls, available)
    ensures Safe(Run(Initial(available, slots), calls))
    ensures Accounts(Run(Initial(available, slots), calls), available)
  {
    InitialIsSafe(available, slots);
    RunKeepsSafe(Initial(available, slots), calls, available);
  }

  /** The premise on registrations is needed: a safe state in which the holder of the
      only unit registers again, losing the unit for good, becomes unsafe. */
  lemma {:induction false} ReregisteringLosesResources()
    ensures var s := State([0], [Process(true, 1, [1], [1], [0])]);
            Shaped(s) && Safe(s) && !Safe(Step(s, Register(1, [1])))
  {
    var s := State([0], [Process(true, 1, [1], [1], [0])]);
    assert Elements([0]) == UsedSlots(s) == {0};
    assert Completes(s, [0]);
    var e := Emptied(s, 0);
    assert UsedSlots(e) == {};
    TotalIsUsed(e, 0);
    HeldNone(e, 0, 1);
    RegisterSafeExactly(s, 0, 1, [1]);
    assert Step(s, Register(1, [1])) == Registered(s, 0, 1, [1]);
  }

  // ---- completion -----------------------------------------------------------------

  /** A schedule of real calls: each round some process asks for its whole remaining
      need, is granted it, and finishes; in the end none is registered. */
  ghost predicate DrivesToCompletion(s: State, calls: seq<Call>)
    requires Shaped(s)
    decreases |calls|
  {
    if |calls| < 2 then calls == [] && UsedSlots(s) == {}
    else
      var slot := FindByPid(s.processes, calls[0].pid, 0);
      && slot >= 0
      && calls[0] == Request(calls[0].pid, s.processes[slot].need)
      && calls[1] == Unregister(calls[0].pid)
      && Status(s, calls[0]) == BANKER_OK
      && (StepKeepsShape(s, calls[0]);
          StepKeepsShape(Step(s, calls[0]), calls[1]);
          DrivesToCompletion(Step(Step(s, calls[0]), calls[1]), calls[2..]))
  }

  ghost predicate Completable(s: State)
    requires Shaped(s)
  {
    exists calls :: DrivesToCompletion(s, calls)
  }

  lemma {:induction false} FindsOwnSlot(s: State, slot: nat)
    requires slot in UsedSlots(s) && UniquePids(s)
    ensures FindByPid(s.processes, s.processes[slot].pid, 0) == slot
  {
  }

  /** A safe state has such a schedule. */
  lemma {:induction false} SafeHasSchedule(s: State) returns (calls: seq<Call>)
    requires Shaped(s) && UniquePids(s) && Safe(s)
    ensures DrivesToCompletion(s, calls)
    decreases UsedSlots(s)
  {
    if UsedSlots(s) == {} {
      calls := [];
    } else {
      var order :| Completes(s, order);
      var some :| some in UsedSlots(s);
      assert some in order;
      var first := order[0];
      GrantFirst(s, order);
      FindsOwnSlot(s, first);
      var pid := s.processes[first].pid;
      var ask, leave := Request(pid, s.processes[first].need), Unregister(pid);
      var granted := Step(s, ask);
      StepKeepsShape(s, ask);
      FindsOwnSlot(granted, first);
      UnregisterKeepsSafe(granted, first);
      StepKeepsShape(granted, leave);
      var finished := Step(granted, leave);
      assert UsedSlots(finished) == UsedSlots(s) - {first};
      var rest := SafeHasSchedule(finished);
      calls := [ask, leave] + rest;
      assert calls[2..] == rest;
    }
  }

  lemma {:induction false} ScheduleMeansSafe(s: State, calls: seq<Call>)
    requires Shaped(s) && DrivesToCompletion(s, calls)
    ensures Safe(s)
  {
    if |calls| < 2 {
      var none: seq<nat> := [];
      assert Elements(none) == UsedSlots(s);
      assert Completes(s, none);
    } else {
      var slot := FindByPid(s.processes, calls[0].pid, 0);
      var need := s.processes[slot].need;
      var t := Granted(s, slot, need);
      ReleaseKeepsSafe(t, slot, need);
      assert Plus(t.available, need) == s.available;
      assert Minus(t.processes[slot].allocation, need) == s.processes[slot].allocation;
      assert Plus(t.processes[slot].need, need) == s.processes[slot].need;
      assert Returned(t, slot, need) == s;
    }
  }

  /** Safety is exactly the possibility of driving all processes to completion. */
  lemma {:induction false} SafeIffCompletable(s: State)
    requires Shaped(s) && UniquePids(s)
    ensures Safe(s) <==> Completable(s)
  {
    if Safe(s) {
      var calls := SafeHasSchedule(s);
      assert Completable(s);
    }
    if Completable(s) {
      var calls :| DrivesToCompletion(s, calls);
      ScheduleMeansSafe(s, calls);
    }
  }

  /** Once all have finished, everything the state accounted for is available again. */
  lemma {:induction false} CompletedReturnsAll(s: State, r: nat)
    requires Shaped(s) && r < |s.available| && UsedSlots(s) == {}
    ensures s.available[r] == Total(s, r)
  {
    TotalIsUsed(s, r);
    HeldNone(s, r, |s.processes|);
  }
}
