/** Which resident slot the clock algorithm gives up, as a function of which slots are
    pinned, which were accessed, and where the hand stands. */
module PagerVictim {
  import opened Machine
  import opened VmmSpec
  import opened PagerSpec

  /** The slot `j` steps after the hand. */
  function At(hand: nat, j: nat): (slot: nat)
    ensures slot < PAGER_FRAME_LIMIT
  {
    (hand + j) % PAGER_FRAME_LIMIT
  }

  /** The first step from `j` on, within one turn, that reaches a slot marked in `ok`. */
  function FirstMarked(ok: seq<bool>, hand: nat, j: nat): (first: nat)
    requires |ok| == PAGER_FRAME_LIMIT && j <= PAGER_FRAME_LIMIT
    ensures j <= first <= PAGER_FRAME_LIMIT
    ensures first < PAGER_FRAME_LIMIT ==> ok[At(hand, first)]
    ensures forall i :: j <= i < first ==> !ok[At(hand, i)]
    decreases PAGER_FRAME_LIMIT - j
  {
    if j == PAGER_FRAME_LIMIT || ok[At(hand, j)] then j else FirstMarked(ok, hand, j + 1)
  }

  function Unpinned(pinned: seq<bool>): (ok: seq<bool>)
    ensures |ok| == |pinned| && forall i :: 0 <= i < |ok| ==> ok[i] == !pinned[i]
  {
    seq(|pinned|, i requires 0 <= i < |pinned| => !pinned[i])
  }

  function Untouched(pinned: seq<bool>, accessed: seq<bool>): (ok: seq<bool>)
    requires |accessed| == |pinned|
    ensures |ok| == |pinned| && forall i :: 0 <= i < |ok| ==> ok[i] == (!pinned[i] && !accessed[i])
  {
    seq(|pinned|, i requires 0 <= i < |pinned| => !pinned[i] && !accessed[i])
  }

  function ClockSlot(pinned: seq<bool>, accessed: seq<bool>, hand: nat): nat
    requires |pinned| == |accessed| == PAGER_FRAME_LIMIT
  {
    var untouched := FirstMarked(Untouched(pinned, accessed), hand, 0);
    var unpinned := FirstMarked(Unpinned(pinned), hand, 0);
    At(hand, if untouched < PAGER_FRAME_LIMIT then untouched else if unpinned < PAGER_FRAME_LIMIT then unpinned else 0)
  }

  lemma {:induction false} EverySlotIsReached(hand: nat, slot: nat)
    requires hand < PAGER_FRAME_LIMIT && slot < PAGER_FRAME_LIMIT
    ensures var j := if slot >= hand then slot - hand else slot + PAGER_FRAME_LIMIT - hand;
            j < PAGER_FRAME_LIMIT && At(hand, j) == slot
  {
  }

  /** The clock never gives up a pinned slot while one is free, nor an accessed one while an
      unaccessed free one exists, and it takes the first such slot in rotation. */
  lemma {:induction false} ClockChoosesWell(pinned: seq<bool>, accessed: seq<bool>, hand: nat, slot: nat)
    requires |pinned| == |accessed| == PAGER_FRAME_LIMIT && hand < PAGER_FRAME_LIMIT
    requires slot < PAGER_FRAME_LIMIT && !pinned[slot]
    ensures !pinned[ClockSlot(pinned, accessed, hand)]
    ensures !accessed[slot] ==> !accessed[ClockSlot(pinned, accessed, hand)]
    ensures !accessed[slot] ==>
              exists j :: 0 <= j < PAGER_FRAME_LIMIT && At(hand, j) == ClockSlot(pinned, accessed, hand)
                && forall i :: 0 <= i < j ==> pinned[At(hand, i)] || accessed[At(hand, i)]
  {
    EverySlotIsReached(hand, slot);
    var step := if slot >= hand then slot - hand else slot + PAGER_FRAME_LIMIT - hand;
    assert At(hand, step) == slot;
    var untouched := FirstMarked(Untouched(pinned, accessed), hand, 0);
    assert !accessed[slot] ==> Untouched(pinned, accessed)[At(hand, step)];
    assert Unpinned(pinned)[At(hand, step)];
    assert untouched < PAGER_FRAME_LIMIT ==> forall i :: 0 <= i < untouched ==> !Untouched(pinned, accessed)[At(hand, i)];
  }

  // ---- the scan, step by step ------------------------------------------------------------

  /** After `scanned` steps from `hand`: accessed bits passed over are clear, every slot
      passed was pinned or accessed, and in the second turn every slot passed was pinned. */
  ghost predicate Turned(pinned: seq<bool>, before: seq<bool>, now: seq<bool>, hand: nat, scanned: nat) {
    && |pinned| == |before| == |now| == PAGER_FRAME_LIMIT && scanned <= 2 * PAGER_FRAME_LIMIT
    && (forall j :: 0 <= j < PAGER_FRAME_LIMIT ==>
          now[At(hand, j)] == (before[At(hand, j)] && (pinned[At(hand, j)] || j >= scanned)))
    && (forall j :: 0 <= j < scanned && j < PAGER_FRAME_LIMIT ==> pinned[At(hand, j)] || before[At(hand, j)])
    && (forall j :: 0 <= j < scanned - PAGER_FRAME_LIMIT ==> pinned[At(hand, j)])
  }

  lemma {:induction false} TurnsMeet(hand: nat, j: nat)
    ensures At(hand, j + PAGER_FRAME_LIMIT) == At(hand, j)
    ensures (At(hand, j) + 1) % PAGER_FRAME_LIMIT == At(hand, j + 1)
  {
  }

  lemma {:induction false} StepsDiffer(hand: nat, i: nat, j: nat)
    requires i < PAGER_FRAME_LIMIT && j < PAGER_FRAME_LIMIT && i != j
    ensures At(hand, i) != At(hand, j)
  {
  }

  lemma {:induction false} PassPinned(pinned: seq<bool>, before: seq<bool>, now: seq<bool>, hand: nat, scanned: nat)
    requires Turned(pinned, before, now, hand, scanned) && scanned < 2 * PAGER_FRAME_LIMIT && pinned[At(hand, scanned)]
    ensures Turned(pinned, before, now, hand, scanned + 1)
  {
    if scanned >= PAGER_FRAME_LIMIT {
      TurnsMeet(hand, scanned - PAGER_FRAME_LIMIT);
    }
  }

  lemma {:induction false} PassAccessed(pinned: seq<bool>, before: seq<bool>, now: seq<bool>, hand: nat, scanned: nat)
    requires Turned(pinned, before, now, hand, scanned) && scanned < 2 * PAGER_FRAME_LIMIT
    requires !pinned[At(hand, scanned)] && now[At(hand, scanned)]
    ensures Turned(pinned, before, now[At(hand, scanned) := false], hand, scanned + 1)
  {
    if scanned >= PAGER_FRAME_LIMIT {
      TurnsMeet(hand, scanned - PAGER_FRAME_LIMIT);
    } else {
      forall j | 0 <= j < PAGER_FRAME_LIMIT && j != scanned ensures At(hand, j) != At(hand, scanned) {
        StepsDiffer(hand, j, scanned);
      }
    }
  }

  lemma {:induction false} StopsRightly(pinned: seq<bool>, before: seq<bool>, now: seq<bool>, hand: nat, scanned: nat)
    requires Turned(pinned, before, now, hand, scanned) && scanned < 2 * PAGER_FRAME_LIMIT
    requires !pinned[At(hand, scanned)] && !now[At(hand, scanned)]
    ensures At(hand, scanned) == ClockSlot(pinned, before, hand)
  {
    hide At;
    var untouched := FirstMarked(Untouched(pinned, before), hand, 0);
    var unpinned := FirstMarked(Unpinned(pinned), hand, 0);
    if scanned < PAGER_FRAME_LIMIT {
      assert Untouched(pinned, before)[At(hand, scanned)];
      assert untouched == scanned;
    } else {
      TurnsMeet(hand, scanned - PAGER_FRAME_LIMIT);
      assert Unpinned(pinned)[At(hand, scanned - PAGER_FRAME_LIMIT)];
      assert unpinned == scanned - PAGER_FRAME_LIMIT;
    }
  }

  /** Two whole turns without a stop: every slot is pinned and the hand is back. */
  lemma {:induction false} TwoTurns(pinned: seq<bool>, before: seq<bool>, now: seq<bool>, hand: nat)
    requires Turned(pinned, before, now, hand, 2 * PAGER_FRAME_LIMIT)
    ensures At(hand, 2 * PAGER_FRAME_LIMIT) == ClockSlot(pinned, before, hand)
  {
    TurnsMeet(hand, 0);
    TurnsMeet(hand, PAGER_FRAME_LIMIT);
    var untouched := FirstMarked(Untouched(pinned, before), hand, 0);
    var unpinned := FirstMarked(Unpinned(pinned), hand, 0);
    assert untouched == unpinned == PAGER_FRAME_LIMIT;
  }

  // ---- slots of a cache ------------------------------------------------------------------

  ghost function PinnedSlots(c: Cache): (p: seq<bool>)
    requires Shaped(c)
    ensures |p| == PAGER_FRAME_LIMIT && forall i :: 0 <= i < PAGER_FRAME_LIMIT ==> p[i] == c.pages[c.slots[i]].pinned
  {
    seq(PAGER_FRAME_LIMIT, i requires 0 <= i < PAGER_FRAME_LIMIT => c.pages[c.slots[i]].pinned)
  }

  ghost function AccessedSlots(c: Cache, v: Vm): (a: seq<bool>)
    requires Shaped(c)
    ensures |a| == PAGER_FRAME_LIMIT
         && forall i :: 0 <= i < PAGER_FRAME_LIMIT ==> a[i] == WasAccessed(c.pages[c.slots[i]], v)
  {
    seq(PAGER_FRAME_LIMIT, i requires 0 <= i < PAGER_FRAME_LIMIT => WasAccessed(c.pages[c.slots[i]], v))
  }

  ghost predicate AllResident(c: Cache) {
    Tidy(c) && c.resident == PAGER_FRAME_LIMIT && forall i :: 0 <= i < PAGER_FRAME_LIMIT ==> c.pages[c.slots[i]].used
  }

  /** With all slots taken, `slot` is the one the clock's rule gives. */
  ghost predicate ClockPicks(c: Cache, v: Vm, slot: nat) {
    AllResident(c) ==> slot == ClockSlot(PinnedSlots(c), AccessedSlots(c, v), c.hand)
  }

  lemma {:induction false} AnySlotIfNotFull(c: Cache, v: Vm, slot: nat)
    requires c.resident < PAGER_FRAME_LIMIT
    ensures ClockPicks(c, v, slot)
  {
  }

  /** Clearing the bit of one slot's page clears that slot's bit and no other's. */
  lemma {:induction false} OneSlotCleared(c: Cache, v: Vm, w: Vm, slot: nat)
    requires AllResident(c) && slot < PAGER_FRAME_LIMIT
    requires !WasAccessed(c.pages[c.slots[slot]], w) && SameAccess(c.pages, v, c.pages, w, c.slots[slot])
    ensures AccessedSlots(c, w) == AccessedSlots(c, v)[slot := false]
  {
    forall i | 0 <= i < PAGER_FRAME_LIMIT && i != slot
      ensures WasAccessed(c.pages[c.slots[i]], w) == WasAccessed(c.pages[c.slots[i]], v)
    {
      assert c.slots[i] != c.slots[slot];
    }
  }

  // ---- sampled LRU -------------------------------------------------------------------------

  /** Page `k` is held, unpinned, by one of the first `n` slots. */
  ghost predicate Candidate(c: Cache, n: nat, k: nat)
    requires Shaped(c) && n <= PAGER_FRAME_LIMIT && k < PAGER_MAX_PAGES
  {
    !c.pages[k].pinned && exists i :: 0 <= i < n && c.slots[i] == k
  }

  /** The use ticks are those given so far, and no wrap is near. */
  ghost predicate TicksInOrder(c: Cache) {
    c.tick + PAGER_FRAME_LIMIT < WORD_LIMIT && forall k :: 0 <= k < |c.pages| ==> c.pages[k].lastUsed <= c.tick
  }

  /** Page `k` after sampling: if it was accessed it has a tick later than all before. */
  ghost predicate PageSampled(c: Cache, v: Vm, p: PagerPage, w: Vm, tick: U32, k: nat)
    requires k < |c.pages|
  {
    && !WasAccessed(p, w)
    && if WasAccessed(c.pages[k], v)
       then p == c.pages[k].(lastUsed := p.lastUsed) && (TicksInOrder(c) ==> c.tick < p.lastUsed <= tick)
       else p == c.pages[k]
  }

  /** The candidates among the first `n` slots have been sampled, no other page. */
  ghost predicate Sampled(c: Cache, v: Vm, pages: seq<PagerPage>, w: Vm, tick: U32, n: nat) {
    && Shaped(c) && n <= PAGER_FRAME_LIMIT && |pages| == PAGER_MAX_PAGES
    && (TicksInOrder(c) ==> c.tick <= tick <= c.tick + n)
    && forall k :: 0 <= k < PAGER_MAX_PAGES ==>
         if Candidate(c, n, k) then PageSampled(c, v, pages[k], w, tick, k)
         else pages[k] == c.pages[k] && (pages[k].used ==> (WasAccessed(pages[k], w) <==> WasAccessed(c.pages[k], v)))
  }

  lemma {:induction false} NextCandidate(c: Cache, n: nat, k: nat)
    requires Shaped(c) && n < PAGER_FRAME_LIMIT && k < PAGER_MAX_PAGES
    ensures Candidate(c, n + 1, k) <==> Candidate(c, n, k) || (c.slots[n] == k && !c.pages[k].pinned)
  {
    if c.slots[n] == k && !c.pages[k].pinned {
      assert c.slots[n] == k;
    }
  }

  lemma {:induction false} SkipPinned(c: Cache, v: Vm, pages: seq<PagerPage>, w: Vm, tick: U32, n: nat)
    requires Sampled(c, v, pages, w, tick, n) && n < PAGER_FRAME_LIMIT && c.pages[c.slots[n]].pinned
    ensures Sampled(c, v, pages, w, tick, n + 1)
  {
    forall k | 0 <= k < PAGER_MAX_PAGES ensures Candidate(c, n + 1, k) == Candidate(c, n, k) {
      NextCandidate(c, n, k);
    }
  }

  /** Sampling the next slot's page. */
  lemma {:induction false} SampleNext(c: Cache, v: Vm, p: seq<PagerPage>, u: Vm, t: U32, q: seq<PagerPage>, w: Vm, tick: U32, n: nat)
    requires Sampled(c, v, p, u, t, n) && n < PAGER_FRAME_LIMIT && !c.pages[c.slots[n]].pinned
    requires var k := c.slots[n];
             && |q| == |p| && !WasAccessed(q[k], w) && SameAccess(p, u, q, w, k)
             && tick == (if WasAccessed(p[k], u) then NextTick(t) else t)
             && q == (if WasAccessed(p[k], u) then p[k := p[k].(lastUsed := tick)] else p)
             && (WasAccessed(c.pages[k], v) ==> c.pages[k].used)
             && (WasAccessed(p[k], u) ==> p[k].used)
    requires forall k :: 0 <= k < PAGER_MAX_PAGES && !c.pages[k].used ==> !WasAccessed(c.pages[k], w)
    ensures Sampled(c, v, q, w, tick, n + 1)
  {
    forall k | 0 <= k < PAGER_MAX_PAGES ensures
      if Candidate(c, n + 1, k) then PageSampled(c, v, q[k], w, tick, k)
      else q[k] == c.pages[k] && (q[k].used ==> (WasAccessed(q[k], w) <==> WasAccessed(c.pages[k], v)))
    {
      NextCandidate(c, n, k);
      assert p[k].used == c.pages[k].used;
    }
  }

  /** The use tick wraps from 2^32 - 1 to 1. */
  function NextTick(tick: U32): U32 {
    if tick == WORD_LIMIT - 1 then 1 else tick + 1
  }

  /** The slot chosen among the first `n`: unpinned, of least tick, the first such. */
  ghost predicate LeastTick(c: Cache, pages: seq<PagerPage>, n: nat, best: nat) {
    && Shaped(c) && |pages| == PAGER_MAX_PAGES && best < n <= PAGER_FRAME_LIMIT && !c.pages[c.slots[best]].pinned
    && forall i :: 0 <= i < n && !c.pages[c.slots[i]].pinned ==>
         && pages[c.slots[best]].lastUsed <= pages[c.slots[i]].lastUsed
         && (i < best ==> pages[c.slots[best]].lastUsed < pages[c.slots[i]].lastUsed)
  }

  /** While the tick does not wrap, the slot of least tick was not accessed since the last
      sample if some unpinned slot was not. */
  lemma {:induction false} LeastIsUntouched(c: Cache, v: Vm, pages: seq<PagerPage>, w: Vm, tick: U32, n: nat, best: nat, i: nat)
    requires Sampled(c, v, pages, w, tick, n) && LeastTick(c, pages, n, best) && TicksInOrder(c)
    requires i < n && !c.pages[c.slots[i]].pinned && !WasAccessed(c.pages[c.slots[i]], v)
    ensures !WasAccessed(c.pages[c.slots[best]], v)
  {
    assert Candidate(c, n, c.slots[i]) && Candidate(c, n, c.slots[best]);
    assert PageSampled(c, v, pages[c.slots[i]], w, tick, c.slots[i]);
    assert PageSampled(c, v, pages[c.slots[best]], w, tick, c.slots[best]);
  }

  // ---- recency -----------------------------------------------------------------------------

  /** `uses` counts how often a page was marked used. Until the use tick wraps it is that
      count, and no page's tick is later. */
  ghost predicate TicksFit(pages: seq<PagerPage>, tick: U32, uses: nat) {
    uses < WORD_LIMIT ==> tick == uses && forall k :: 0 <= k < |pages| ==> pages[k].lastUsed <= tick
  }

  /** No page was accessed since it was last looked at. */
  ghost predicate Quiet(c: Cache, v: Vm) {
    forall k :: 0 <= k < |c.pages| && c.pages[k].used ==> !WasAccessed(c.pages[k], v)
  }

  /** Page `k` was accessed since the last look, and no other. */
  ghost predicate OnlyAccessed(c: Cache, v: Vm, k: nat) {
    && k < |c.pages| && c.pages[k].used
    && forall j :: 0 <= j < |c.pages| && c.pages[j].used ==> (WasAccessed(c.pages[j], v) <==> j == k)
  }

  /** The use ticks are as before, but for page `k`'s, which may be new. */
  ghost predicate TickedOnly(p: seq<PagerPage>, tick: U32, q: seq<PagerPage>, now: U32, k: nat) {
    && k < |p| == |q|
    && (forall j :: 0 <= j < |p| && j != k ==> q[j].lastUsed == p[j].lastUsed)
    && ((now == tick && q[k].lastUsed == p[k].lastUsed) || (now == NextTick(tick) && q[k].lastUsed == now))
  }

  ghost predicate SameTicks(p: seq<PagerPage>, q: seq<PagerPage>) {
    |p| == |q| && forall j :: 0 <= j < |p| ==> q[j].lastUsed == p[j].lastUsed
  }

  // ---- sampling every resident page ------------------------------------------------------------

  ghost function AccessedPages(c: Cache, v: Vm): (a: seq<bool>)
    ensures |a| == |c.pages| && forall k :: 0 <= k < |a| ==> a[k] == WasAccessed(c.pages[k], v)
  {
    seq(|c.pages|, k requires 0 <= k < |c.pages| => WasAccessed(c.pages[k], v))
  }

  /** Page `k` is in one of the first `n` slots. */
  predicate InSlots(slots: seq<nat>, n: nat, k: nat)
    requires n <= |slots|
  {
    exists i :: 0 <= i < n && slots[i] == k
  }

  /** How many accessed pages the first `n` slots hold. */
  function AccessedCount(slots: seq<nat>, accessed: seq<bool>, n: nat): (count: nat)
    requires n <= |slots| && forall i :: 0 <= i < |slots| ==> slots[i] < |accessed|
    ensures count <= n
  {
    if n == 0 then 0
    else
      AccessedCount(slots, accessed, n - 1)
      + if accessed[slots[n - 1]] && !InSlots(slots, n - 1, slots[n - 1]) then 1 else 0
  }

  /** The accessed pages of the first `n` slots have new ticks, which follow the old one in
      the order of the slots; all other pages have their old ticks. */
  ghost predicate TicksGiven(before: seq<PagerPage>, last: U32, slots: seq<nat>, accessed: seq<bool>,
                             pages: seq<PagerPage>, tick: U32, n: nat)
    requires n <= |slots| && |accessed| == |before| && forall i :: 0 <= i < |slots| ==> slots[i] < |before|
  {
    && |pages| == |before|
    && (forall k :: 0 <= k < |pages| ==> pages[k] == before[k].(lastUsed := pages[k].lastUsed))
    && (forall k :: 0 <= k < |pages| && !(accessed[k] && InSlots(slots, n, k)) ==> pages[k] == before[k])
    && (last + n < WORD_LIMIT ==>
         && tick == last + AccessedCount(slots, accessed, n)
         && forall i :: 0 <= i < n && accessed[slots[i]] && !InSlots(slots, i, slots[i]) ==>
              pages[slots[i]].lastUsed == last + AccessedCount(slots, accessed, i + 1))
  }

  /** The first `n` slots were sampled: their pages' bits are clear, no other bit changed. */
  ghost predicate SampledAll(c: Cache, v: Vm, pages: seq<PagerPage>, w: Vm, tick: U32, n: nat) {
    && Shaped(c) && n <= PAGER_FRAME_LIMIT
    && TicksGiven(c.pages, c.tick, c.slots, AccessedPages(c, v), pages, tick, n)
    && forall k :: 0 <= k < PAGER_MAX_PAGES && c.pages[k].used ==>
         (WasAccessed(pages[k], w) <==> WasAccessed(c.pages[k], v) && !InSlots(c.slots, n, k))
  }

  lemma {:induction false} NextSlot(slots: seq<nat>, n: nat, k: nat)
    requires n < |slots|
    ensures InSlots(slots, n + 1, k) <==> InSlots(slots, n, k) || slots[n] == k
  {
    assert slots[n] == k ==> InSlots(slots, n + 1, k);
  }

  lemma {:induction false} OneMoreTick(before: seq<PagerPage>, last: U32, slots: seq<nat>, accessed: seq<bool>,
                                       p: seq<PagerPage>, t: U32, q: seq<PagerPage>, tick: U32, n: nat)
    requires n < |slots| && |accessed| == |before| && forall i :: 0 <= i < |slots| ==> slots[i] < |before|
    requires TicksGiven(before, last, slots, accessed, p, t, n)
    requires var s := slots[n];
             if accessed[s] && !InSlots(slots, n, s) then tick == NextTick(t) && q == p[s := p[s].(lastUsed := tick)]
             else tick == t && q == p
    ensures TicksGiven(before, last, slots, accessed, q, tick, n + 1)
  {
    forall k ensures InSlots(slots, n + 1, k) <==> InSlots(slots, n, k) || slots[n] == k {
      NextSlot(slots, n, k);
    }
    forall i | 0 <= i < n && slots[i] == slots[n] ensures InSlots(slots, n, slots[n]) {
    }
  }

  lemma {:induction false} SampleOneMore(c: Cache, v: Vm, p: seq<PagerPage>, u: Vm, t: U32, q: seq<PagerPage>, w: Vm, tick: U32, n: nat)
    requires SampledAll(c, v, p, u, t, n) && n < PAGER_FRAME_LIMIT
    requires forall k :: 0 <= k < PAGER_MAX_PAGES && !c.pages[k].used ==> !WasAccessed(c.pages[k], v)
    requires var s := c.slots[n];
             && |q| == |p| && !WasAccessed(q[s], w) && SameAccess(p, u, q, w, s) && (WasAccessed(p[s], u) ==> p[s].used)
             && tick == (if WasAccessed(p[s], u) then NextTick(t) else t)
             && q == (if WasAccessed(p[s], u) then p[s := p[s].(lastUsed := tick)] else p)
    ensures SampledAll(c, v, q, w, tick, n + 1)
  {
    hide WasAccessed, TicksGiven;
    var s := c.slots[n];
    SameUses(c.pages, c.tick, c.slots, AccessedPages(c, v), p, t, n);
    OneMoreTick(c.pages, c.tick, c.slots, AccessedPages(c, v), p, t, q, tick, n);
    forall k | 0 <= k < PAGER_MAX_PAGES && c.pages[k].used
      ensures WasAccessed(q[k], w) <==> WasAccessed(c.pages[k], v) && !InSlots(c.slots, n + 1, k)
    {
      NextSlot(c.slots, n, k);
    }
  }

  lemma {:induction false} SameUses(before: seq<PagerPage>, last: U32, slots: seq<nat>, accessed: seq<bool>,
                                    pages: seq<PagerPage>, tick: U32, n: nat)
    requires n <= |slots| && |accessed| == |before| && forall i :: 0 <= i < |slots| ==> slots[i] < |before|
    requires TicksGiven(before, last, slots, accessed, pages, tick, n)
    ensures |pages| == |before| && forall k :: 0 <= k < |pages| ==> pages[k].used == before[k].used
  {
  }

  /** If one page alone was accessed, sampling gives it alone the next tick. */
  lemma {:induction false} OnlyOneSampled(c: Cache, v: Vm, pages: seq<PagerPage>, w: Vm, tick: U32, k: nat)
    requires SampledAll(c, v, pages, w, tick, c.resident) && OnlyAccessed(c, v, k) && HasSlot(c, k)
    requires forall j :: 0 <= j < PAGER_MAX_PAGES && !c.pages[j].used ==> !WasAccessed(c.pages[j], v)
    requires c.tick + c.resident < WORD_LIMIT
    ensures tick == c.tick + 1 && pages == c.pages[k := c.pages[k].(lastUsed := tick)]
  {
    hide WasAccessed;
    OneCounts(c.slots, AccessedPages(c, v), c.resident, k);
    var i := FirstIn(c.slots, c.resident, k);
    OneCounts(c.slots, AccessedPages(c, v), i + 1, k);
  }

  lemma {:induction false} FirstIn(slots: seq<nat>, n: nat, k: nat) returns (i: nat)
    requires n <= |slots| && InSlots(slots, n, k)
    ensures i < n && slots[i] == k && !InSlots(slots, i, k)
    decreases n
  {
    if InSlots(slots, n - 1, k) {
      i := FirstIn(slots, n - 1, k);
    } else {
      i := n - 1;
    }
  }

  lemma {:induction false} OneCounts(slots: seq<nat>, accessed: seq<bool>, n: nat, k: nat)
    requires n <= |slots| && forall i :: 0 <= i < |slots| ==> slots[i] < |accessed|
    requires forall j :: 0 <= j < |accessed| ==> (accessed[j] <==> j == k)
    ensures AccessedCount(slots, accessed, n) == if InSlots(slots, n, k) then 1 else 0
  {
    if n > 0 {
      OneCounts(slots, accessed, n - 1, k);
      NextSlot(slots, n - 1, k);
    }
  }

  // ---- when sampled LRU is true LRU --------------------------------------------------------------

  /** The position just after the last access to `key`; 0 if there is none. */
  function LastAccess(log: seq<Key>, key: Key): (n: nat)
    ensures n <= |log|
  {
    if log == [] then 0
    else if log[|log| - 1] == key then |log|
    else LastAccess(log[..|log| - 1], key)
  }

  predicate LaterTick(p: PagerPage, q: PagerPage, log: seq<Key>) {
    0 < LastAccess(log, KeyOf(p)) < LastAccess(log, KeyOf(q)) ==> p.lastUsed < q.lastUsed
  }

  /** The use ticks are in the order of the last accesses in `log`; pages without one have
      ticks no later than `start`. */
  ghost predicate LruOrder(c: Cache, start: nat, log: seq<Key>) {
    && start <= c.tick
    && (forall k :: 0 <= k < |c.pages| && c.pages[k].used ==>
          if LastAccess(log, KeyOf(c.pages[k])) == 0 then c.pages[k].lastUsed <= start
          else start < c.pages[k].lastUsed <= c.tick)
    && forall j, k :: 0 <= j < |c.pages| && 0 <= k < |c.pages| && c.pages[j].used && c.pages[k].used ==>
         LaterTick(c.pages[j], c.pages[k], log)
  }

  /** An access to page `k`, with or without a page-in, and then a sample. */
  lemma {:induction false} AccessKeepsOrder(c: Cache, d: Cache, e: Cache, start: nat, log: seq<Key>, k: nat)
    requires LruOrder(c, start, log) && TickedOnly(c.pages, c.tick, d.pages, d.tick, k) && c.pages[k].used
    requires c.tick + 2 < WORD_LIMIT && |e.pages| == |d.pages|
    requires forall j :: 0 <= j < |c.pages| ==> d.pages[j].used == c.pages[j].used && KeyOf(d.pages[j]) == KeyOf(c.pages[j])
    requires KeysDiffer(c.pages) && e.tick == d.tick + 1 && e.pages == d.pages[k := d.pages[k].(lastUsed := e.tick)]
    ensures LruOrder(e, start, log + [KeyOf(c.pages[k])])
  {
    var more := log + [KeyOf(c.pages[k])];
    assert more[..|more| - 1] == log;
    forall j | 0 <= j < |c.pages| && c.pages[j].used && j != k ensures KeyOf(c.pages[j]) != KeyOf(c.pages[k]) {
      assert if j < k then KeyOf(c.pages[j]) != KeyOf(c.pages[k]) else KeyOf(c.pages[k]) != KeyOf(c.pages[j]);
    }
    forall j | 0 <= j < |c.pages| && c.pages[j].used
      ensures LastAccess(more, KeyOf(c.pages[j])) == if j == k then |more| else LastAccess(log, KeyOf(c.pages[j]))
    {
    }
  }

  /** The slot of least tick holds the candidate whose last access is the oldest. */
  lemma {:induction false} LeastIsOldest(c: Cache, start: nat, log: seq<Key>, n: nat, best: nat, i: nat)
    requires LruOrder(c, start, log) && LeastTick(c, c.pages, n, best)
    requires i < n && !c.pages[c.slots[i]].pinned && c.pages[c.slots[i]].used && c.pages[c.slots[best]].used
    ensures LastAccess(log, KeyOf(c.pages[c.slots[best]])) <= LastAccess(log, KeyOf(c.pages[c.slots[i]]))
  {
    assert LaterTick(c.pages[c.slots[i]], c.pages[c.slots[best]], log);
  }
}
