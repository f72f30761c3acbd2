/** The kernel's main loop as steps between which interrupts may be taken: the read of a key,
    the critical section around the event count, and the way into `hlt`. */
module KernelLoop {
  import opened KernelIrq

  /** Where the loop is. Between `StiHlt` and `Hlt` the processor has executed STI and has
      not yet begun HLT. */
  datatype Pc =
    | ReadTest | ReadLoad | ReadAdvance(key: Key) | Handle(key: Key)
    | TakeSave | TakeTest | TakeStore(loaded: nat) | TakeRestore(some: bool) | Schedule
    | Cli | TestKey | TestEvent | Enable | StiHlt | Hlt | Halted

  datatype Loop = Loop(ring: Ring, slices: Slices, interrupts: bool, shadow: bool, pc: Pc,
                       accepted: seq<Key>, delivered: seq<Key>, raised: nat, taken: nat)

  datatype Action = Run | Irq1(key: Key) | Irq0 | Slice(ticks: nat) | Preempt

  function Start(): Loop {
    Loop(Ring(seq(KEYBOARD_BUFFER_SIZE, _ => 0), 0, 0), Slices(10, 10, 0), true, false, ReadTest, [], [], 0, 0)
  }

  /** An interrupt is taken when the flag is set and, right after STI, one instruction has
      run (`shadowed`). */
  predicate Takes(s: Loop, shadowed: bool) {
    s.interrupts && (shadowed ==> !s.shadow)
  }

  function Woken(pc: Pc): Pc {
    if pc.Halted? then ReadTest else pc
  }

  /** The next step of the loop itself. */
  function Advanced(s: Loop): Loop
    requires |s.ring.buffer| == KEYBOARD_BUFFER_SIZE && s.ring.tail < KEYBOARD_BUFFER_SIZE
  {
    match s.pc {
      case ReadTest => s.(pc := if HasKey(s.ring) then ReadLoad else TakeSave, shadow := false)
      case ReadLoad => s.(pc := ReadAdvance(s.ring.buffer[s.ring.tail]))
      case ReadAdvance(key) =>
        s.(ring := s.ring.(tail := After(s.ring.tail)), pc := Handle(key), delivered := s.delivered + [key])
      case Handle(key) => s.(pc := ReadTest)
      case TakeSave => s.(interrupts := false, pc := TakeTest)
      case TakeTest => s.(pc := if s.slices.pending == 0 then TakeRestore(false) else TakeStore(s.slices.pending))
      case TakeStore(loaded) =>
        s.(slices := s.slices.(pending := if loaded > 0 then loaded - 1 else 0), pc := TakeRestore(true), taken := s.taken + 1)
      case TakeRestore(some) => s.(interrupts := true, pc := if some then Schedule else Cli)
      case Schedule => s.(pc := TakeSave)
      case Cli => s.(interrupts := false, pc := TestKey)
      case TestKey => s.(pc := if HasKey(s.ring) then Enable else TestEvent)
      case TestEvent => s.(pc := if s.slices.pending != 0 then Enable else StiHlt)
      case Enable => s.(interrupts := true, shadow := true, pc := ReadTest)
      case StiHlt => s.(interrupts := true, shadow := true, pc := Hlt)
      case Hlt => s.(shadow := false, pc := Halted)
      case Halted => s
    }
  }

  /** One action; one that cannot happen now changes nothing. */
  function Next(s: Loop, a: Action, shadowed: bool): Loop
    requires |s.ring.buffer| == KEYBOARD_BUFFER_SIZE && s.ring.tail < KEYBOARD_BUFFER_SIZE && s.ring.head < KEYBOARD_BUFFER_SIZE
  {
    match a {
      case Run => Advanced(s)
      case Irq1(key) =>
        if !Takes(s, shadowed) then s
        else s.(ring := Pushed(s.ring, key), pc := Woken(s.pc),
                accepted := if Accepts(s.ring) then s.accepted + [key] else s.accepted)
      case Irq0 =>
        if !Takes(s, shadowed) then s
        else s.(slices := Ticked(s.slices), pc := Woken(s.pc), raised := s.raised + if EndsSlice(s.slices) then 1 else 0)
      case Slice(ticks) =>
        if s.pc.Handle? then s.(slices := Resliced(ticks), raised := 0, taken := 0) else s
      case Preempt =>
        if (s.pc.Schedule? || s.pc.Handle?) && s.slices.pending > 0
        then s.(slices := s.slices.(pending := s.slices.pending - 1), taken := s.taken + 1) else s
    }
  }

  /** The interrupt flag is off exactly in the critical sections. */
  predicate Masked(pc: Pc) {
    pc.TakeTest? || pc.TakeStore? || pc.TakeRestore? || pc.TestKey? || pc.TestEvent? || pc.Enable? || pc.StiHlt?
  }

  ghost predicate Inv(s: Loop) {
    && RingOk(s.ring) && SlicesOk(s.slices)
    && s.accepted == s.delivered + Queue(s.ring)
    && s.raised == s.taken + s.slices.pending
    && s.interrupts == !Masked(s.pc)
    && (s.pc.ReadLoad? ==> Queue(s.ring) != [])
    && (s.pc.ReadAdvance? ==> Queue(s.ring) != [] && s.pc.key == Queue(s.ring)[0])
    && (s.pc.TakeStore? ==> s.pc.loaded == s.slices.pending > 0)
    && (s.pc.TestEvent? || s.pc.StiHlt? || s.pc.Hlt? || s.pc.Halted? ==> Queue(s.ring) == [])
    && (s.pc.StiHlt? || s.pc.Hlt? || s.pc.Halted? ==> s.slices.pending == 0)
    && (s.pc.Hlt? ==> s.shadow)
    && (s.shadow ==> s.pc.Hlt? || s.pc.ReadTest?)
  }

  lemma {:induction false} StartHolds()
    ensures Inv(Start())
  {
  }

  lemma {:induction false} AdvanceHolds(s: Loop)
    requires Inv(s)
    ensures Inv(Advanced(s))
  {
    hide Queue, KeysFrom;
    ReadTakesFirst(s.ring);
    if s.pc.ReadAdvance? {
      var first, rest := Queue(s.ring)[0], Queue(s.ring)[1..];
      assert Queue(s.ring) == [first] + rest;
    }
  }

  lemma {:induction false} KeyHolds(s: Loop, key: Key)
    requires Inv(s)
    ensures Inv(Next(s, Irq1(key), true))
  {
    PushAppends(s.ring, key);
    if Takes(s, true) {
      assert s.accepted + [key] == s.delivered + (Queue(s.ring) + [key]);
    }
  }

  lemma {:induction false} StepHolds(s: Loop, a: Action)
    requires Inv(s)
    ensures Inv(Next(s, a, true))
  {
    match a {
      case Run => AdvanceHolds(s);
      case Irq1(key) => KeyHolds(s, key);
      case _ =>
    }
  }

  /** The state after any run of steps and interrupts. */
  ghost function Reached(s: Loop, run: seq<Action>): (t: Loop)
    requires Inv(s)
    ensures Inv(t)
  {
    if run == [] then s
    else
      var t := Reached(s, run[..|run| - 1]);
      StepHolds(t, run[|run| - 1]);
      Next(t, run[|run| - 1], true)
  }

  /** On every run: the keys read are the first of those accepted, in order; every event
      raised since the slice was last set was taken or is pending; and when the loop goes to
      sleep no key waits and no event is pending. */
  lemma {:induction false} LoopIsSafe(run: seq<Action>)
    ensures Inv(Start())
    ensures var s := Reached(Start(), run);
            && s.delivered <= s.accepted
            && s.raised == s.taken + s.slices.pending
            && (s.pc.Hlt? || s.pc.Halted? ==> s.delivered == s.accepted && s.slices.pending == 0)
  {
    StartHolds();
  }

  /** The one instruction STI holds interrupts off for is needed: without it, whenever the
      loop is about to sleep, a key that arrives between STI and HLT is slept on. With it,
      the key waits until HLT has begun and wakes the loop. */
  lemma {:induction false} ShadowIsNeeded(s: Loop, key: Key)
    requires Inv(s) && s.pc.StiHlt?
    ensures var open := Next(Next(Next(s, Run, false), Irq1(key), false), Run, false);
            open.pc.Halted? && open.delivered != open.accepted
    ensures var held := Next(Next(s, Run, true), Irq1(key), true);
            held == Next(s, Run, true) && Next(Next(held, Run, true), Irq1(key), true).pc.ReadTest?
  {
    var asleep := Next(s, Run, false);
    PushAppends(asleep.ring, key);
    assert asleep.delivered + [key] != asleep.delivered;
  }

  // ---- what the loop does, by the steps it takes ---------------------------------------

  /** The keys the loop has gone to handle, in order. */
  ghost function Handled(s: Loop, run: seq<Action>): seq<Key>
    requires Inv(s)
  {
    if run == [] then []
    else
      var front, last := run[..|run| - 1], run[|run| - 1];
      var before, after := Reached(s, front), Reached(s, run);
      Handled(s, front) + if last.Run? && after.pc.Handle? then [after.pc.key] else []
  }

  /** The keys that arrived while interrupts got through and fewer than 127 keys waited. */
  ghost function Typed(s: Loop, run: seq<Action>): seq<Key>
    requires Inv(s)
  {
    if run == [] then []
    else
      var front, last := run[..|run| - 1], run[|run| - 1];
      var before := Reached(s, front);
      var room := |before.accepted| - |before.delivered| < KEYBOARD_BUFFER_SIZE - 1;
      Typed(s, front) + if last.Irq1? && before.interrupts && !before.shadow && room then [last.key] else []
  }

  /** How often the loop has gone to schedule, and a process was preempted with an event
      pending, since the time slice was last set. */
  ghost function Visits(s: Loop, run: seq<Action>): nat
    requires Inv(s)
  {
    if run == [] then 0
    else
      var front, last := run[..|run| - 1], run[|run| - 1];
      var before, after := Reached(s, front), Reached(s, run);
      if last.Slice? && before.pc.Handle? then 0
      else Visits(s, front) + if last.Run? && after.pc.Schedule? then 1 else 0
  }

  ghost function Preemptions(s: Loop, run: seq<Action>): nat
    requires Inv(s)
  {
    if run == [] then 0
    else
      var front, last := run[..|run| - 1], run[|run| - 1];
      var before := Reached(s, front);
      if last.Slice? && before.pc.Handle? then 0
      else Preemptions(s, front)
           + if last.Preempt? && (before.pc.Schedule? || before.pc.Handle?) && before.slices.pending > 0 then 1 else 0
  }

  /** On every run the keys that got through are accepted, and the loop handles the keys it
      reads, in order. */
  lemma {:induction false} KeysAreHandled(s: Loop, run: seq<Action>)
    requires Inv(s)
    ensures var t := Reached(s, run);
            && t.accepted == s.accepted + Typed(s, run)
            && t.delivered == s.delivered + Handled(s, run)
  {
    hide Queue, KeysFrom, Inv;
    if run != [] {
      var front, last := run[..|run| - 1], run[|run| - 1];
      KeysAreHandled(s, front);
      KeyStep(Reached(s, front), last);
    }
  }

  lemma {:induction false} KeyStep(s: Loop, a: Action)
    requires Inv(s)
    ensures var t := Next(s, a, true);
            && t.delivered == s.delivered + (if a.Run? && t.pc.Handle? then [t.pc.key] else [])
            && t.accepted == s.accepted
                 + (if a.Irq1? && s.interrupts && !s.shadow && |s.accepted| - |s.delivered| < KEYBOARD_BUFFER_SIZE - 1
                    then [a.key] else [])
  {
    if a.Irq1? {
      PushAppends(s.ring, a.key);
      assert |s.accepted| == |s.delivered| + |Queue(s.ring)|;
    }
  }

  /** On every run, each event taken since the time slice was last set is one visit to the
      scheduler or one preemption, except one just taken on the way there. */
  lemma {:induction false} EventsAreScheduled(run: seq<Action>)
    ensures Inv(Start())
    ensures var s := Reached(Start(), run);
            s.taken == Visits(Start(), run) + Preemptions(Start(), run) + if s.pc == TakeRestore(true) then 1 else 0
  {
    hide Queue, KeysFrom;
    StartHolds();
    if run != [] {
      var front, last := run[..|run| - 1], run[|run| - 1];
      EventsAreScheduled(front);
      EventStep(Reached(Start(), front), last);
    }
  }

  lemma {:induction false} EventStep(s: Loop, a: Action)
    requires Inv(s)
    ensures var t := Next(s, a, true);
            t.taken + (if s.pc == TakeRestore(true) then 1 else 0) ==
            (if a.Slice? && s.pc.Handle? then 0
             else s.taken + (if a.Run? && t.pc.Schedule? then 1 else 0)
                  + if a.Preempt? && (s.pc.Schedule? || s.pc.Handle?) && s.slices.pending > 0 then 1 else 0)
            + (if t.pc == TakeRestore(true) then 1 else 0)
  {
    hide Queue, KeysFrom;
  }

  // ---- left alone, the loop gets everything done ---------------------------------------

  ghost function Todo(s: Loop): nat
    requires Inv(s)
  {
    |Queue(s.ring)| + s.slices.pending
  }

  /** How far the loop is from the next key, the next event or its sleep. */
  ghost function Distance(s: Loop): nat
    requires Inv(s)
  {
    match s.pc
    case ReadTest => if Queue(s.ring) != [] then 2 else 12
    case ReadLoad => 1
    case ReadAdvance(_) => 0
    case Handle(_) => 13
    case Schedule => 26
    case TakeSave => if Queue(s.ring) == [] then 11 else 24
    case TakeTest => if Queue(s.ring) == [] then 10 else 23
    case TakeStore(_) => 0
    case TakeRestore(some) => if some then 27 else if Queue(s.ring) == [] && s.slices.pending == 0 then 9 else 22
    case Cli => if Queue(s.ring) == [] && s.slices.pending == 0 then 8 else 21
    case TestKey => if Queue(s.ring) == [] && s.slices.pending == 0 then 7 else 20
    case TestEvent => if s.slices.pending == 0 then 6 else 19
    case Enable => 18
    case StiHlt => 2
    case Hlt => 1
    case Halted => 0
  }

  lemma {:induction false} OneStepNearer(s: Loop)
    requires Inv(s) && !s.pc.Halted?
    ensures var t := Next(s, Run, true);
            && Inv(t) && t.accepted == s.accepted
            && (Todo(t) < Todo(s) || (Todo(t) == Todo(s) && Distance(t) < Distance(s)))
  {
    hide Queue, KeysFrom;
    StepHolds(s, Run);
    ReadTakesFirst(s.ring);
  }

  ghost function Steps(n: nat): seq<Action> {
    seq(n, _ => Run)
  }

  lemma {:induction false} ReachedFrom(s: Loop, run: seq<Action>)
    requires Inv(s)
    ensures Inv(Next(s, Run, true)) && Reached(s, [Run] + run) == Reached(Next(s, Run, true), run)
  {
    StepHolds(s, Run);
    if run == [] {
      assert [Run] + run == [Run];
      assert Reached(s, [Run][..0]) == s;
    } else {
      var front := run[..|run| - 1];
      assert ([Run] + run)[..|run|] == [Run] + front;
      ReachedFrom(s, front);
    }
  }

  /** With no more interrupts the loop gets from anywhere to sleep, and has then handled
      every key and taken every event that was pending. */
  lemma {:induction false} LeftAloneItSleeps(s: Loop) returns (n: nat)
    requires Inv(s)
    ensures var t := Reached(s, Steps(n));
            && t.pc.Halted? && t.slices.pending == 0
            && t.accepted == s.accepted == s.delivered + Handled(s, Steps(n))
            && t.taken == s.taken + s.slices.pending
    decreases Todo(s), Distance(s)
  {
    hide Queue, KeysFrom, Distance, Advanced;
    if s.pc.Halted? {
      n := 0;
    } else {
      var next := Next(s, Run, true);
      OneStepNearer(s);
      RaisesNothing(s);
      var rest := LeftAloneItSleeps(next);
      n := rest + 1;
      assert Steps(n) == [Run] + Steps(rest);
      ReachedFrom(s, Steps(rest));
    }
    KeysAreHandled(s, Steps(n));
  }

  lemma {:induction false} RaisesNothing(s: Loop)
    requires Inv(s)
    ensures Next(s, Run, true).taken + Next(s, Run, true).slices.pending == s.taken + s.slices.pending
  {
    StepHolds(s, Run);
  }
}
