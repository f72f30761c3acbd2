/** What each banker call does to the numbers of a process and of the pool, told by
    pid and resource, and what a process holds after any run of calls, told by the
    calls and their answers alone. */
module BankerLaws {
  import opened BankerSpec
  import opened BankerSafety

  /** The row of a pid, or none. */
  datatype Row = NoRow | Row(max: Vector, allocation: Vector, need: Vector)

  ghost function RowOf(s: State, pid: int): (row: Row)
    ensures row.Row? <==> exists i :: 0 <= i < |s.processes| && s.processes[i].used && s.processes[i].pid == pid
  {
    var slot := FindByPid(s.processes, pid, 0);
    if slot < 0 then NoRow
    else Row(s.processes[slot].max, s.processes[slot].allocation, s.processes[slot].need)
  }

  ghost function AllocationOf(s: State, pid: int, r: nat): int
    requires Shaped(s) && r < |s.available|
  {
    match RowOf(s, pid)
    case NoRow => 0
    case Row(_, allocation, _) => allocation[r]
  }

  ghost function NeedOf(s: State, pid: int, r: nat): int
    requires Shaped(s) && r < |s.available|
  {
    match RowOf(s, pid)
    case NoRow => 0
    case Row(_, _, need) => need[r]
  }

  ghost function MaxOf(s: State, pid: int, r: nat): int
    requires Shaped(s) && r < |s.available|
  {
    match RowOf(s, pid)
    case NoRow => 0
    case Row(max, _, _) => max[r]
  }

  /** What a pid holds and may still ask for, and what is left in the pool, have
      changed by exactly these amounts; its maximum, and every other row, have not. */
  ghost predicate Moved(s: State, t: State, pid: int, r: nat, units: nat)
    requires Shaped(s) && Shaped(t) && r < |s.available| == |t.available|
  {
    && t.available[r] == s.available[r] - units
    && AllocationOf(t, pid, r) == AllocationOf(s, pid, r) + units
    && NeedOf(t, pid, r) == NeedOf(s, pid, r) - units
    && MaxOf(t, pid, r) == MaxOf(s, pid, r)
  }

  ghost predicate OthersStay(s: State, t: State, pid: int) {
    forall q: int :: q != pid ==> RowOf(t, q) == RowOf(s, q)
  }

  // ---- one call ---------------------------------------------------------------

  predicate IsRow(p: Process, pid: int) {
    p.used && p.pid == pid
  }

  lemma {:induction false} FoundFirst(processes: seq<Process>, pid: int, slot: nat)
    requires slot < |processes| && IsRow(processes[slot], pid)
    requires forall j :: 0 <= j < slot ==> !IsRow(processes[j], pid)
    ensures FindByPid(processes, pid, 0) == slot
  {
    var found := FindByPid(processes, pid, 0);
    assert found >= 0 ==> IsRow(processes[found], pid);
  }

  /** A slot that changes hands within one pid leaves the rows of all others alone. */
  lemma {:induction false} OtherRowsStay(s: State, t: State, slot: nat, pid: int)
    requires slot < |s.processes| == |t.processes| && t.processes == s.processes[slot := t.processes[slot]]
    requires s.processes[slot].used ==> s.processes[slot].pid == pid
    requires t.processes[slot].used ==> t.processes[slot].pid == pid
    ensures OthersStay(s, t, pid)
  {
    forall q: int | q != pid ensures RowOf(t, q) == RowOf(s, q) {
      var found := FindByPid(s.processes, q, 0);
      if found >= 0 {
        FoundFirst(t.processes, q, found);
      } else if FindByPid(t.processes, q, 0) >= 0 {
        FoundFirst(s.processes, q, FindByPid(t.processes, q, 0));
      }
    }
  }

  /** A granted request moves exactly what was asked for. */
  lemma {:induction false} RequestMoves(s: State, pid: int, v: Vector)
    requires Shaped(s) && |v| == |s.available|
    requires Status(s, Request(pid, v)) == BANKER_OK
    ensures var t := Step(s, Request(pid, v));
            && Shaped(t) && |t.available| == |s.available| && OthersStay(s, t, pid)
            && RowOf(t, pid).Row?
            && forall r: nat :: r < |v| ==> Moved(s, t, pid, r, v[r])
  {
    var t := Step(s, Request(pid, v));
    var slot := FindByPid(s.processes, pid, 0);
    FoundFirst(t.processes, pid, slot);
    OtherRowsStay(s, t, slot, pid);
  }

  /** An accepted release moves exactly that much back: moved over once more, it gives
      the numbers from before. */
  lemma {:induction false} ReleaseMoves(s: State, pid: int, v: Vector)
    requires Shaped(s) && |v| == |s.available|
    requires Status(s, Release(pid, v)) == BANKER_OK
    ensures var t := Step(s, Release(pid, v));
            && Shaped(t) && |t.available| == |s.available| && OthersStay(s, t, pid)
            && RowOf(t, pid).Row?
            && forall r: nat :: r < |v| ==> Moved(t, s, pid, r, v[r])
  {
    StepKeepsShape(s, Release(pid, v));
    var t := Step(s, Release(pid, v));
    var slot := FindByPid(s.processes, pid, 0);
    FoundFirst(t.processes, pid, slot);
    OtherRowsStay(s, t, slot, pid);
  }

  /** A registered process holds nothing and may ask for its whole maximum; the pool
      is as before, whatever the pid held. */
  lemma {:induction false} RegisterOpens(s: State, pid: int, max: Vector)
    requires Shaped(s) && |max| == |s.available|
    requires Status(s, Register(pid, max)) == BANKER_OK
    ensures var t := Step(s, Register(pid, max));
            && t.available == s.available && OthersStay(s, t, pid)
            && RowOf(t, pid) == Row(max, Zero(|max|), max)
  {
    var t := Step(s, Register(pid, max));
    var slot := RegisterSlot(s, pid);
    FoundFirst(t.processes, pid, slot);
    OtherRowsStay(s, t, slot, pid);
  }

  /** An unregistered process is gone, and what it held is back in the pool. */
  lemma {:induction false} UnregisterReturns(s: State, pid: int)
    requires Shaped(s) && UniquePids(s)
    ensures var t := Step(s, Unregister(pid));
            && Shaped(t) && |t.available| == |s.available| && OthersStay(s, t, pid)
            && RowOf(t, pid) == NoRow
            && forall r: nat :: r < |s.available| ==> t.available[r] == s.available[r] + AllocationOf(s, pid, r)
  {
    StepKeepsShape(s, Unregister(pid));
    var t := Step(s, Unregister(pid));
    var slot := FindByPid(s.processes, pid, 0);
    if slot >= 0 {
      assert FindByPid(t.processes, pid, 0) < 0;
      OtherRowsStay(s, t, slot, pid);
    }
  }

  /** `t` is `s` with `v` moved from the pool to the process `pid`. */
  ghost predicate Transfer(s: State, t: State, pid: int, v: Vector)
    requires Shaped(s) && |v| == |s.available|
  {
    && Shaped(t) && |t.available| == |s.available| && |t.processes| == |s.processes|
    && (forall i :: 0 <= i < |s.processes| ==> SameHolder(s.processes[i], t.processes[i], pid))
    && (forall r: nat :: r < |v| ==> Moved(s, t, pid, r, v[r]))
  }

  ghost predicate SameHolder(p: Process, q: Process, pid: int) {
    if p.used && p.pid == pid then q.used && q.pid == pid else q == p
  }

  /** A request is granted exactly to a registered process that asks for no more than
      it may still need and than there is, when moving that much over to it leaves
      the tables safe; each refusal has its own answer. */
  lemma {:induction false} RequestAnswersExactly(s: State, pid: int, v: Vector)
    requires Shaped(s) && UniquePids(s) && |v| == |s.available|
    ensures Status(s, Request(pid, v)) ==
            if RowOf(s, pid) == NoRow then BANKER_ERR_NO_PROCESS
            else if exists r: nat :: r < |v| && v[r] > NeedOf(s, pid, r) then BANKER_ERR_OVER_NEED
            else if exists r: nat :: r < |v| && v[r] > s.available[r] then BANKER_ERR_OVER_AVAILABLE
            else if !exists t :: Transfer(s, t, pid, v) && Safe(t) then BANKER_ERR_UNSAFE
            else BANKER_OK
  {
    var slot := FindByPid(s.processes, pid, 0);
    if slot >= 0 && Leq(v, s.available) && Leq(v, s.processes[slot].need) {
      assert forall r: nat :: r < |v| ==> NeedOf(s, pid, r) == s.processes[slot].need[r];
      var g := Granted(s, slot, v);
      GrantTransfers(s, slot, pid, v);
      forall t | Transfer(s, t, pid, v) ensures t == g {
        OneTransfer(s, slot, pid, v, t);
      }
    } else if slot >= 0 {
      assert forall r: nat :: r < |v| ==> NeedOf(s, pid, r) == s.processes[slot].need[r];
    }
  }

  lemma {:induction false} GrantTransfers(s: State, slot: nat, pid: int, v: Vector)
    requires Shaped(s) && |v| == |s.available| && slot == FindByPid(s.processes, pid, 0) && UniquePids(s)
    requires Leq(v, s.available) && Leq(v, s.processes[slot].need)
    ensures Transfer(s, Granted(s, slot, v), pid, v)
  {
    var g := Granted(s, slot, v);
    forall i | 0 <= i < |s.processes| ensures RowShaped(g.processes[i], |v|) && SameHolder(s.processes[i], g.processes[i], pid) {
      assert RowShaped(s.processes[i], |v|);
    }
    FoundFirst(g.processes, pid, slot);
  }

  lemma {:induction false} OneTransfer(s: State, slot: nat, pid: int, v: Vector, t: State)
    requires Shaped(s) && |v| == |s.available| && slot == FindByPid(s.processes, pid, 0) && UniquePids(s)
    requires Leq(v, s.available) && Leq(v, s.processes[slot].need)
    requires Transfer(s, t, pid, v)
    ensures t == Granted(s, slot, v)
  {
    var g := Granted(s, slot, v);
    var p, q := t.processes[slot], g.processes[slot];
    forall i | 0 <= i < |s.processes| ensures i == slot || t.processes[i] == s.processes[i] {
      assert SameHolder(s.processes[i], t.processes[i], pid);
    }
    FoundFirst(t.processes, pid, slot);
    assert RowShaped(p, |v|) && SameHolder(s.processes[slot], p, pid);
    forall r: nat | r < |v|
      ensures t.available[r] == g.available[r] && p.max[r] == q.max[r] && p.allocation[r] == q.allocation[r] && p.need[r] == q.need[r]
    {
      assert Moved(s, t, pid, r, v[r]);
    }
    assert t.available == g.available && p.max == q.max && p.allocation == q.allocation && p.need == q.need;
    assert t.processes == g.processes;
  }

  /** A release is accepted exactly from a registered process that holds that much. */
  lemma {:induction false} ReleaseAnswersExactly(s: State, pid: int, v: Vector)
    requires Shaped(s) && |v| == |s.available|
    ensures Status(s, Release(pid, v)) ==
            if RowOf(s, pid) == NoRow then BANKER_ERR_NO_PROCESS
            else if exists r: nat :: r < |v| && v[r] > AllocationOf(s, pid, r) then BANKER_ERR_OVER_ALLOCATED
            else BANKER_OK
  {
    var slot := FindByPid(s.processes, pid, 0);
    assert slot >= 0 ==> forall r: nat :: r < |v| ==> AllocationOf(s, pid, r) == s.processes[slot].allocation[r];
  }

  /** A registration fails only for a new pid when every slot is used; an
      unregistration always answers OK. */
  lemma {:induction false} RegisterAnswersExactly(s: State, pid: int, max: Vector)
    requires Shaped(s) && |max| == |s.available|
    ensures Status(s, Register(pid, max)) ==
            if RowOf(s, pid) == NoRow && (forall i :: 0 <= i < |s.processes| ==> s.processes[i].used) then BANKER_ERR_NO_SLOT
            else BANKER_OK
    ensures Status(s, Unregister(pid)) == BANKER_OK
  {
  }

  lemma {:induction false} RefusedChangesNothing(s: State, c: Call)
    requires Shaped(s) && WellTyped(s, c) && Status(s, c) != BANKER_OK
    ensures Step(s, c) == s
  {
  }

  // ---- runs ---------------------------------------------------------------------

  /** The answers a run of calls gets. */
  ghost function Answers(s: State, calls: seq<Call>): (answers: seq<int>)
    requires Shaped(s) && AllTyped(|s.available|, calls)
    ensures |answers| == |calls|
    decreases |calls|
  {
    if calls == [] then []
    else
      StepKeepsShape(s, calls[0]);
      [Status(s, calls[0])] + Answers(Step(s, calls[0]), calls[1..])
  }

  /** What a pid that held `held` of `r` holds after one call, by its answer alone. */
  function Settled(held: int, c: Call, answer: int, pid: int, r: nat): int {
    if c.pid != pid || answer != BANKER_OK then held
    else match c
      case Register(_, _) => 0
      case Unregister(_) => 0
      case Request(_, v) => if r < |v| then held + v[r] else held
      case Release(_, v) => if r < |v| then held - v[r] else held
  }

  /** What `pid` holds of `r` by the calls and their answers: what it was granted less
      what it gave back since it was last registered. */
  function Balance(held: int, calls: seq<Call>, answers: seq<int>, pid: int, r: nat): int
    requires |calls| == |answers|
    decreases |calls|
  {
    if calls == [] then held
    else Balance(Settled(held, calls[0], answers[0], pid, r), calls[1..], answers[1..], pid, r)
  }

  lemma {:induction false} StepSettles(s: State, c: Call, pid: int, r: nat)
    requires Shaped(s) && UniquePids(s) && WellTyped(s, c) && r < |s.available|
    ensures Shaped(Step(s, c)) && |Step(s, c).available| == |s.available|
    ensures AllocationOf(Step(s, c), pid, r) == Settled(AllocationOf(s, pid, r), c, Status(s, c), pid, r)
  {
    hide Shaped, UniquePids, Status, Step, RowOf;
    StepKeepsShape(s, c);
    if Status(s, c) != BANKER_OK {
      RefusedChangesNothing(s, c);
    } else {
      match c
      case Register(p, max) => RegisterOpens(s, p, max);
      case Unregister(p) => UnregisterReturns(s, p);
      case Request(p, v) => RequestMoves(s, p, v);
      case Release(p, v) => ReleaseMoves(s, p, v);
    }
  }

  /** After any run of calls a process holds what it was granted less what it gave
      back since it was last registered. */
  lemma {:induction false} HoldsItsGrants(s: State, calls: seq<Call>, pid: int, r: nat)
    requires Shaped(s) && UniquePids(s) && AllTyped(|s.available|, calls) && r < |s.available|
    ensures AllocationOf(Run(s, calls), pid, r) == Balance(AllocationOf(s, pid, r), calls, Answers(s, calls), pid, r)
    decreases |calls|
  {
    hide Status, Step, RowOf;
    if calls != [] {
      StepKeepsShape(s, calls[0]);
      StepSettles(s, calls[0], pid, r);
      HoldsItsGrants(Step(s, calls[0]), calls[1..], pid, r);
    }
  }

  // ---- all processes together ------------------------------------------------

  /** What these pids together hold of `r` by the calls and their answers. */
  function BalanceOfAll(calls: seq<Call>, answers: seq<int>, pids: seq<int>, r: nat): int
    requires |calls| == |answers|
  {
    if pids == [] then 0
    else BalanceOfAll(calls, answers, pids[1..], r) + Balance(0, calls, answers, pids[0], r)
  }

  /** The slots of these pids. */
  ghost function SlotsOf(s: State, pids: seq<int>): (slots: set<nat>)
    ensures forall i :: i in slots ==> i < |s.processes| && s.processes[i].used && s.processes[i].pid in pids
  {
    if pids == [] then {}
    else
      var slot := FindByPid(s.processes, pids[0], 0);
      SlotsOf(s, pids[1..]) + if slot < 0 then {} else {slot}
  }

  lemma {:induction false} BalancesAreHeld(s: State, calls: seq<Call>, pids: seq<int>, r: nat)
    requires Shaped(s) && UniquePids(s) && AllTyped(|s.available|, calls) && r < |s.available|
    requires forall pid :: pid in pids ==> AllocationOf(s, pid, r) == 0
    requires forall i, j :: 0 <= i < j < |pids| ==> pids[i] != pids[j]
    ensures var t := Run(s, calls);
            BalanceOfAll(calls, Answers(s, calls), pids, r) == Held(t, SlotsOf(t, pids), r, |t.processes|)
  {
    var t := Run(s, calls);
    if pids == [] {
      HeldNone(t, r, |t.processes|);
    } else {
      HoldsItsGrants(s, calls, pids[0], r);
      BalancesAreHeld(s, calls, pids[1..], r);
      var slot := FindByPid(t.processes, pids[0], 0);
      if slot >= 0 {
        assert slot !in SlotsOf(t, pids[1..]);
        HeldInsert(t, SlotsOf(t, pids[1..]), slot, r, |t.processes|);
      } else {
        assert SlotsOf(t, pids) == SlotsOf(t, pids[1..]);
      }
    }
  }

  /** Whatever the calls, the processes never hold more of a resource between them, by
      the answers they got, than the banker was initialised with. */
  lemma {:induction false} GrantsNeverExceed(available: Vector, slots: nat, calls: seq<Call>, pids: seq<int>, r: nat)
    requires AllTyped(|available|, calls) && r < |available| && Shaped(Initial(available, slots))
    requires forall i, j :: 0 <= i < j < |pids| ==> pids[i] != pids[j]
    ensures BalanceOfAll(calls, Answers(Initial(available, slots), calls), pids, r) <= available[r]
  {
    var s := Initial(available, slots);
    var t := Run(s, calls);
    InitialIsSafe(available, slots);
    RunNeverExceedsInitial(s, calls, r);
    BalancesAreHeld(s, calls, pids, r);
    HeldMonotone(t, SlotsOf(t, pids), Slots(t), r, |t.processes|);
  }
}
