/** Priority with round robin: what is selected, and how long a process can wait. */
module SchedulerFairness {
  import opened ProcessSpec
  import opened ProcessFamily

  /** How many places after the cursor slot `i` is looked at. */
  function Distance(t: Table, i: nat): (d: nat)
    requires i < |t.processes| && t.cursor < |t.processes|
    ensures d < |t.processes|
  {
    Ahead(t.cursor, i, |t.processes|)
  }

  /** How far `to` is ahead of `from` on a ring of `n` places. */
  function Ahead(from: nat, to: nat, n: nat): (d: nat)
    requires from < n && to < n
    ensures d < n
  {
    if to >= from then to - from else to + n - from
  }

  lemma {:induction false} WrapsOnce(x: nat, n: nat)
    requires x < 2 * n
    ensures x % n == if x < n then x else x - n
  {
  }

  /** `slot` is the highest-priority READY slot, and of those the nearest one. */
  ghost predicate IsNext(t: Table, slot: int, n: nat)
    requires n <= |t.processes| && -1 <= slot < |t.processes|
    requires t.cursor < |t.processes|
  {
    && (slot >= 0 ==> Runnable(t.processes[slot]) && Distance(t, slot) < n)
    && forall d :: 0 <= d < n && Runnable(t.processes[SlotAt(t, d)]) ==>
         && slot >= 0
         && var p := t.processes[SlotAt(t, d)].priority;
            p < t.processes[slot].priority
            || (p == t.processes[slot].priority && Distance(t, slot) <= d)
  }

  lemma {:induction false} CandidateIsNext(t: Table, n: nat)
    requires Family(t) && n <= |t.processes| && |t.processes| > 0
    ensures IsNext(t, Candidate(t, n), n)
  {
    if n > 0 {
      CandidateIsNext(t, n - 1);
      var i := SlotAt(t, n - 1);
      DistanceOfSlotAt(t, n - 1);
      assert RowOk(t, t.processes[i]);
    }
  }

  lemma {:induction false} DistanceOfSlotAt(t: Table, d: nat)
    requires d < |t.processes| && t.cursor < |t.processes|
    ensures Distance(t, SlotAt(t, d)) == d
  {
    WrapsOnce(t.cursor + d, |t.processes|);
  }

  lemma {:induction false} SlotAtDistance(t: Table, i: nat)
    requires i < |t.processes| && t.cursor < |t.processes|
    ensures SlotAt(t, Distance(t, i)) == i
  {
    WrapsOnce(t.cursor + Distance(t, i), |t.processes|);
  }

  /** The selection is -1 exactly when nothing is READY; otherwise it has the highest
      priority, and no READY slot of that priority is nearer to the cursor. */
  lemma {:induction false} SelectedIsBest(t: Table)
    requires Family(t) && |t.processes| > 0
    ensures Selected(t) < 0 <==> forall i :: 0 <= i < |t.processes| ==> !Runnable(t.processes[i])
    ensures Selected(t) >= 0 ==> forall i :: 0 <= i < |t.processes| && Runnable(t.processes[i]) ==>
              var p, best := t.processes[i].priority, t.processes[Selected(t)].priority;
              p < best || (p == best && Distance(t, Selected(t)) <= Distance(t, i))
  {
    CandidateIsNext(t, |t.processes|);
    forall i | 0 <= i < |t.processes| && Runnable(t.processes[i])
      ensures Selected(t) >= 0
      ensures var p, best := t.processes[i].priority, t.processes[Selected(t)].priority;
              p < best || (p == best && Distance(t, Selected(t)) <= Distance(t, i))
    {
      SlotAtDistance(t, i);
    }
  }

  // ---- bounded waiting ----------------------------------------------------------------

  /** Slot `i` holds READY process `pid`, and no READY process has a higher priority. */
  ghost predicate Deserves(t: Table, i: nat, pid: int) {
    && i < |t.processes| && Runnable(t.processes[i]) && t.processes[i].pid == pid
    && forall j :: 0 <= j < |t.processes| && Runnable(t.processes[j]) ==> t.processes[j].priority <= t.processes[i].priority
  }

  /** Before every event up to its being picked, slot `i` deserves to be run. */
  ghost predicate StaysDeserving(t: Table, events: seq<Event>, i: nat, pid: int)
    decreases |events|
  {
    events != [] ==>
      && Deserves(t, i, pid)
      && ((events[0].Schedule? && Selected(t) == i) || StaysDeserving(Step(t, events[0]), events[1..], i, pid))
  }

  /** Some scheduling call of the run picks slot `i`. */
  ghost predicate GetsPicked(t: Table, events: seq<Event>, i: nat)
    decreases |events|
  {
    events != [] &&
      ((events[0].Schedule? && Selected(t) == i) || GetsPicked(Step(t, events[0]), events[1..], i))
  }

  function Schedules(events: seq<Event>): nat {
    if events == [] then 0
    else Schedules(events[1..]) + if events[0].Schedule? then 1 else 0
  }

  /** Being passed over brings a deserving slot strictly nearer to the cursor. */
  lemma {:induction false} PassedOverComesNearer(t: Table, i: nat, pid: int, script: seq<UserAction>, result: nat)
    requires Family(t) && t.currentPid == 0 && Deserves(t, i, pid) && Selected(t) != i
    ensures Selected(t) >= 0
    ensures Family(Scheduled(t, script, result)) && |Scheduled(t, script, result).processes| == |t.processes|
    ensures Distance(Scheduled(t, script, result), i) < Distance(t, i)
  {
    SelectedIsBest(t);
    ScheduleKeepsFamily(t, script, result);
    var slot := Selected(t);
    assert Distance(t, slot) <= Distance(t, i);
    WrapsOnce(slot + 1, |t.processes|);
    CursorPasses(t.cursor, slot, i, |t.processes|);
  }

  lemma {:induction false} CursorPasses(cursor: nat, slot: nat, i: nat, n: nat)
    requires cursor < n && slot < n && i < n && slot != i
    requires Ahead(cursor, slot, n) <= Ahead(cursor, i, n)
    ensures Ahead(if slot + 1 < n then slot + 1 else 0, i, n) < Ahead(cursor, i, n)
  {
  }

  lemma {:induction false} WaitIsBounded(t: Table, events: seq<Event>, i: nat, pid: int)
    requires Family(t) && t.currentPid == 0 && i < |t.processes|
    requires StaysDeserving(t, events, i, pid)
    requires Schedules(events) > Distance(t, i)
    ensures GetsPicked(t, events, i)
    decreases |events|
  {
    var e := events[0];
    StepKeepsFamily(t, e);
    if e.Schedule? {
      if Selected(t) != i {
        PassedOverComesNearer(t, i, pid, e.script, e.result);
        WaitIsBounded(Step(t, e), events[1..], i, pid);
      }
    } else {
      WaitIsBounded(Step(t, e), events[1..], i, pid);
    }
  }

  /** Bounded waiting: among as many scheduling calls as the table has slots, whatever
      else happens in between, one picks the deserving process. */
  lemma {:induction false} BoundedWaiting(t: Table, events: seq<Event>, i: nat, pid: int)
    requires Family(t) && t.currentPid == 0 && i < |t.processes|
    requires StaysDeserving(t, events, i, pid)
    requires Schedules(events) >= |t.processes|
    ensures GetsPicked(t, events, i)
  {
    WaitIsBounded(t, events, i, pid);
  }
}
