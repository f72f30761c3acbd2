/** State shared by interrupt handlers and the kernel's main loop: the keyboard ring and the
    time slice counters. */
module KernelIrq {
  const KEYBOARD_BUFFER_SIZE: nat := 128

  type Key = k: int | 0 <= k < 0x1_0000

  // ---- the keyboard ring -------------------------------------------------------------------

  datatype Ring = Ring(buffer: seq<Key>, head: nat, tail: nat)

  ghost predicate RingOk(r: Ring) {
    |r.buffer| == KEYBOARD_BUFFER_SIZE && r.head < KEYBOARD_BUFFER_SIZE && r.tail < KEYBOARD_BUFFER_SIZE
  }

  function After(i: nat): (next: nat)
    requires i < KEYBOARD_BUFFER_SIZE
    ensures next < KEYBOARD_BUFFER_SIZE
  {
    (i + 1) % KEYBOARD_BUFFER_SIZE
  }

  /** The keys from `tail` round to `head`. */
  ghost function KeysFrom(buffer: seq<Key>, tail: nat, head: nat): (keys: seq<Key>)
    requires |buffer| == KEYBOARD_BUFFER_SIZE && tail < KEYBOARD_BUFFER_SIZE && head < KEYBOARD_BUFFER_SIZE
    ensures |keys| == if tail <= head then head - tail else head + KEYBOARD_BUFFER_SIZE - tail
  {
    if tail <= head then buffer[tail..head] else buffer[tail..] + buffer[..head]
  }

  ghost function Queue(r: Ring): seq<Key>
    requires RingOk(r)
  {
    KeysFrom(r.buffer, r.tail, r.head)
  }

  predicate HasKey(r: Ring) {
    r.head != r.tail
  }

  /** A full ring drops the new key. */
  predicate Accepts(r: Ring)
    requires r.head < KEYBOARD_BUFFER_SIZE
  {
    After(r.head) != r.tail
  }

  function Pushed(r: Ring, key: Key): Ring
    requires |r.buffer| == KEYBOARD_BUFFER_SIZE && r.head < KEYBOARD_BUFFER_SIZE
  {
    if Accepts(r) then Ring(r.buffer[r.head := key], After(r.head), r.tail) else r
  }

  /** The ring accepts a key exactly while it holds fewer than 127, and appends it. */
  lemma {:induction false} PushAppends(r: Ring, key: Key)
    requires RingOk(r)
    ensures RingOk(Pushed(r, key)) && (Accepts(r) <==> |Queue(r)| < KEYBOARD_BUFFER_SIZE - 1)
    ensures Queue(Pushed(r, key)) == if Accepts(r) then Queue(r) + [key] else Queue(r)
  {
    if Accepts(r) {
      var after := Pushed(r, key);
      var left, right := Queue(after), Queue(r) + [key];
      assert |left| == |right|;
      assert forall i :: 0 <= i < |left| ==> left[i] == right[i];
    }
  }

  lemma {:induction false} ReadTakesFirst(r: Ring)
    requires RingOk(r)
    ensures HasKey(r) <==> Queue(r) != []
    ensures HasKey(r) ==> Queue(r)[0] == r.buffer[r.tail] && Queue(Ring(r.buffer, r.head, After(r.tail))) == Queue(r)[1..]
  {
    if HasKey(r) {
      var left, right := Queue(Ring(r.buffer, r.head, After(r.tail))), Queue(r)[1..];
      assert |left| == |right|;
      assert forall i :: 0 <= i < |left| ==> left[i] == right[i];
    }
  }

  // ---- the time slice ---------------------------------------------------------------------------

  datatype Slices = Slices(timeslice: nat, remaining: nat, pending: nat)

  ghost predicate SlicesOk(t: Slices) {
    1 <= t.timeslice && 1 <= t.remaining <= t.timeslice
  }

  predicate EndsSlice(t: Slices) {
    t.remaining <= 1
  }

  function Ticked(t: Slices): Slices {
    var left := if t.remaining > 0 then t.remaining - 1 else 0;
    if left == 0 then Slices(t.timeslice, t.timeslice, t.pending + 1) else t.(remaining := left)
  }

  function Resliced(ticks: nat): Slices {
    var n := if ticks == 0 then 1 else ticks;
    Slices(n, n, 0)
  }

  /** Ticks of the timer, one after the other. */
  function TickedTimes(t: Slices, n: nat): Slices {
    if n == 0 then t else Ticked(TickedTimes(t, n - 1))
  }

  /** From a fresh slice, `n` ticks raise one event for each whole slice that passed. */
  lemma {:induction false} OneEventPerSlice(ticks: nat, n: nat)
    ensures var t := TickedTimes(Resliced(ticks), n);
            SlicesOk(t) && t.timeslice == (if ticks == 0 then 1 else ticks)
            && n == t.timeslice * t.pending + (t.timeslice - t.remaining)
  {
    if n > 0 {
      OneEventPerSlice(ticks, n - 1);
      var t := TickedTimes(Resliced(ticks), n - 1);
      assert t.timeslice * (t.pending + 1) == t.timeslice * t.pending + t.timeslice;
    }
  }

  // ---- the drivers ---------------------------------------------------------------------------------

  class Keyboard {
    var buffer: array<Key>
    var head: nat
    var tail: nat
    /** Keys accepted by the handler, and keys the main loop has read, both in order. */
    ghost var accepted: seq<Key>
    ghost var delivered: seq<Key>

    ghost function State(): Ring
      reads this, buffer
    {
      Ring(buffer[..], head, tail)
    }

    /** What was accepted is what was read, then what waits. */
    ghost predicate Valid()
      reads this, buffer
    {
      RingOk(State()) && accepted == delivered + Queue(State())
    }

    constructor ()
      ensures Valid() && accepted == [] && fresh(buffer)
    {
      buffer := new Key[KEYBOARD_BUFFER_SIZE](_ => 0);
      head, tail := 0, 0;
      accepted, delivered := [], [];
    }

    /** IRQ1: one translated key. */
    method Push(key: Key)
      requires Valid()
      modifies this`head, this`accepted, buffer
      ensures Valid() && buffer == old(buffer)
      ensures accepted == if |old(Queue(State()))| < KEYBOARD_BUFFER_SIZE - 1 then old(accepted) + [key] else old(accepted)
      ensures old(accepted) <= accepted
    {
      PushAppends(State(), key);
      ghost var after := Pushed(State(), key);
      var next := After(head);
      if next == tail {
        return;
      }
      buffer[head] := key;
      head := next;
      accepted := accepted + [key];
      assert State() == after;
    }

    /** Any number of IRQ1s. */
    method Burst(keys: seq<Key>)
      requires Valid()
      modifies this`head, this`accepted, buffer
      ensures Valid() && buffer == old(buffer) && old(accepted) <= accepted
    {
      for i := 0 to |keys|
        invariant Valid() && buffer == old(buffer) && old(accepted) <= accepted
      {
        Push(keys[i]);
      }
    }

    method HasKey() returns (yes: bool)
      requires Valid()
      ensures yes <==> delivered != accepted
    {
      ReadTakesFirst(State());
      return head != tail;
    }

    /** One read by the main loop. Keys may arrive before the test, between the test and the
        load, between the load and the advance, and after it: the key returned is always
        the first accepted one not read before. */
    method ReadKey(first: seq<Key>, second: seq<Key>, third: seq<Key>) returns (ok: bool, key: Key)
      requires Valid()
      modifies this`head, this`tail, this`accepted, this`delivered, buffer
      ensures Valid() && buffer == old(buffer) && old(accepted) <= accepted
      ensures !ok ==> delivered == old(delivered) == accepted
      ensures ok ==> delivered == old(delivered) + [key] && delivered <= accepted
    {
      hide Queue, KeysFrom;
      Burst(first);
      ReadTakesFirst(State());
      if head == tail {
        return false, 0;
      }
      Burst(second);
      key := Load();
      Burst(third);
      Advance();
      return true, key;
    }

    method Load() returns (key: Key)
      requires Valid() && delivered < accepted
      ensures key == accepted[|delivered|]
    {
      ReadTakesFirst(State());
      assert accepted[|delivered|] == Queue(State())[0];
      return buffer[tail];
    }

    method Advance()
      requires Valid() && delivered < accepted
      modifies this`tail, this`delivered
      ensures Valid() && delivered == old(delivered) + [accepted[|old(delivered)|]]
    {
      ReadTakesFirst(State());
      ghost var first, rest := Queue(State())[0], Queue(State())[1..];
      assert Queue(State()) == [first] + rest;
      tail := After(tail);
      delivered := delivered + [first];
    }
  }

  class Timer {
    var ticks: nat
    var slices: Slices
    /** Events raised and taken since the time slice was last set. */
    ghost var raised: nat
    ghost var taken: nat

    ghost predicate Valid()
      reads this
    {
      SlicesOk(slices) && raised == taken + slices.pending
    }

    constructor ()
      ensures Valid() && raised == taken == 0
    {
      ticks, slices := 0, Slices(10, 10, 0);
      raised, taken := 0, 0;
    }

    /** IRQ0: an event is raised exactly when the slice runs out. */
    method IrqHandler()
      requires Valid()
      modifies this
      ensures Valid() && slices == Ticked(old(slices)) && taken == old(taken) && ticks == old(ticks) + 1
      ensures raised == old(raised) + if EndsSlice(old(slices)) then 1 else 0
    {
      ticks := ticks + 1;
      var remaining := slices.remaining;
      if remaining > 0 {
        remaining := remaining - 1;
      }
      if remaining == 0 {
        slices := Slices(slices.timeslice, slices.timeslice, slices.pending + 1);
        raised := raised + 1;
      } else {
        slices := slices.(remaining := remaining);
      }
    }

    /** With interrupts off: a new slice length, no events pending. */
    method SetTimeslice(n: nat)
      modifies this
      ensures Valid() && slices == Resliced(n) && raised == taken == 0
    {
      var length := n;
      if length == 0 {
        length := 1;
      }
      slices := Slices(length, length, 0);
      raised, taken := 0, 0;
    }

    /** With interrupts off: takes one event if there is one. */
    method TakeScheduleEvent() returns (ok: bool)
      requires Valid()
      modifies this
      ensures Valid() && raised == old(raised) && ticks == old(ticks)
      ensures ok <==> old(slices.pending) > 0
      ensures taken == old(taken) + if ok then 1 else 0
      ensures slices == old(slices).(pending := slices.pending)
    {
      if slices.pending == 0 {
        return false;
      }
      slices := slices.(pending := slices.pending - 1);
      taken := taken + 1;
      return true;
    }
  }
}
