/** The machine the pager must not be told apart from: every registered page is simply
    there, with its bytes and its rights, and nothing is ever swapped. */
module PagerPlain {
  import opened Machine
  import opened PmmSpec
  import opened VmmSpec
  import opened PagerSpec
  import opened PagerSteps

  datatype PlainPage = PlainPage(bytes: seq<Byte>, writable: bool, user: bool)

  /** The current directory and the pages of all directories. */
  datatype Plain = Plain(dir: nat, pages: map<Key, PlainPage>)

  datatype Call =
    | Register(dir: nat, virt: U32, writable: bool, user: bool, data: seq<Byte>)
    | Pin(dir: nat, virt: U32, pinned: bool)
    | Unregister(dir: nat, virt: U32)
    | Load(virt: U32)
    | Store(virt: U32, b: Byte)
    | Fault(virt: U32, protection: bool)
    | Sample
    | SetAlgorithm(lru: bool)
    | Switch(dir: nat)

  datatype Outcome = Refused | Done | Loaded(b: Byte)

  predicate PlainOk(m: Plain) {
    forall key :: key in m.pages ==> |m.pages[key].bytes| == PAGE_SIZE
  }

  /** The page at an address of the current directory may be accessed. */
  predicate Permits(m: Plain, virt: U32, write: bool) {
    var key := (m.dir, AlignDown(virt));
    key in m.pages && m.pages[key].user && (write ==> m.pages[key].writable)
  }

  predicate Registers(m: Plain, dir: nat, virt: U32, data: seq<Byte>) {
    dir != 0 && Aligned(virt) && |data| <= PAGE_SIZE && ((dir, virt) in m.pages || |m.pages| < PAGER_MAX_PAGES)
  }

  /** One call. Registering a page again replaces its content unless the page is in memory,
      which the plain machine cannot see: `kept` tells. */
  function Step(m: Plain, call: Call, kept: bool): (after: (Plain, Outcome))
    requires PlainOk(m)
    ensures PlainOk(after.0)
  {
    match call {
      case Register(dir, virt, writable, user, data) =>
        if Registers(m, dir, virt, data)
        then if kept && (dir, virt) in m.pages then (m, Done) else (m.(pages := m.pages[(dir, virt) := PlainPage(Padded(data), writable, user)]), Done)
        else (m, Refused)
      case Pin(dir, virt, _) =>
        (m, if (dir, AlignDown(virt)) in m.pages then Done else Refused)
      case Unregister(dir, virt) =>
        (m.(pages := m.pages - {(dir, AlignDown(virt))}), Done)
      case Load(virt) =>
        (m, if Permits(m, virt, false) then Loaded(m.pages[(m.dir, AlignDown(virt))].bytes[virt % PAGE_SIZE]) else Refused)
      case Store(virt, b) =>
        if Permits(m, virt, true)
        then
          var key := (m.dir, AlignDown(virt));
          var page := m.pages[key];
          (m.(pages := m.pages[key := page.(bytes := page.bytes[virt % PAGE_SIZE := b])]), Done)
        else (m, Refused)
      case Fault(virt, protection) =>
        (m, if !protection && (m.dir, AlignDown(virt)) in m.pages then Done else Refused)
      case Sample => (m, Done)
      case SetAlgorithm(_) => (m, Done)
      case Switch(dir) => if dir == 0 then (m, Refused) else (m.(dir := dir), Done)
    }
  }

  /** A whole script, and what each call answered. */
  function Run(m: Plain, script: seq<Call>, kept: seq<bool>): (after: (Plain, seq<Outcome>))
    requires PlainOk(m) && |kept| == |script|
    ensures PlainOk(after.0) && |after.1| == |script|
  {
    if script == [] then (m, [])
    else
      var n := |script| - 1;
      var before := Run(m, script[..n], kept[..n]);
      var last := Step(before.0, script[n], kept[n]);
      (last.0, before.1 + [last.1])
  }

  /** Calls name existing directories and user addresses; a page registered before is
      registered again only with the rights it has. */
  predicate Allowed(m: Plain, dirs: set<nat>, call: Call) {
    match call {
      case Register(dir, virt, writable, user, _) =>
        && (dir == 0 || dir in dirs) && virt < VMM_KERNEL_BASE
        && ((dir, virt) in m.pages ==> m.pages[(dir, virt)].writable == writable && m.pages[(dir, virt)].user == user)
      case Switch(dir) => dir == 0 || dir in dirs
      case Load(virt) => virt < VMM_KERNEL_BASE
      case Store(virt, _) => virt < VMM_KERNEL_BASE
      case _ => true
    }
  }

  /** The keys registered, with their rights: what is allowed depends on no more. */
  datatype Rights = Rights(writable: bool, user: bool)

  function RightsOf(pages: map<Key, PlainPage>): (r: map<Key, Rights>)
    ensures r.Keys == pages.Keys
  {
    map key | key in pages :: Rights(pages[key].writable, pages[key].user)
  }

  /** Every call of the script is allowed when its turn comes. */
  predicate AllAllowed(m: Plain, dirs: set<nat>, script: seq<Call>)
    requires PlainOk(m)
  {
    script == [] ||
    var n := |script| - 1;
    AllAllowed(m, dirs, script[..n]) && Allowed(Run(m, script[..n], seq(n, _ => false)).0, dirs, script[n])
  }

  /** What a run leaves registered, and with which rights, does not depend on `kept`. */
  lemma {:induction false} KeptIsNoRight(m: Plain, script: seq<Call>, kept: seq<bool>, other: seq<bool>, dirs: set<nat>)
    requires PlainOk(m) && |kept| == |other| == |script| && AllAllowed(m, dirs, script)
    requires other == seq(|script|, _ => false)
    ensures RightsOf(Run(m, script, kept).0.pages) == RightsOf(Run(m, script, other).0.pages)
    ensures Run(m, script, kept).0.dir == Run(m, script, other).0.dir
  {
    if script != [] {
      var n := |script| - 1;
      KeptIsNoRight(m, script[..n], kept[..n], other[..n], dirs);
      StepRights(Run(m, script[..n], kept[..n]).0, Run(m, script[..n], other[..n]).0, script[n], kept[n], dirs);
    }
  }

  lemma {:induction false} StepRights(a: Plain, b: Plain, call: Call, kept: bool, dirs: set<nat>)
    requires PlainOk(a) && PlainOk(b) && RightsOf(a.pages) == RightsOf(b.pages) && a.dir == b.dir && Allowed(b, dirs, call)
    ensures RightsOf(Step(a, call, kept).0.pages) == RightsOf(Step(b, call, false).0.pages)
    ensures Step(a, call, kept).0.dir == Step(b, call, false).0.dir
    ensures Allowed(a, dirs, call)
  {
    hide RightsOf, Padded, Aligned;
    SameRightsOf(a, b);
    match call {
      case Register(dir, virt, writable, user, data) =>
        SameSize(a, b);
        if Registers(a, dir, virt, data) {
          RightsUpdate(a, (dir, virt), PlainPage(Padded(data), writable, user));
          RightsUpdate(b, (dir, virt), PlainPage(Padded(data), writable, user));
        }
      case Unregister(dir, virt) =>
        RightsRemoved(a, (dir, AlignDown(virt)));
        RightsRemoved(b, (dir, AlignDown(virt)));
      case Store(virt, byte) =>
        StoreRights(a, virt, byte, kept);
        StoreRights(b, virt, byte, false);
      case _ =>
    }
  }

  lemma {:induction false} SameSize(a: Plain, b: Plain)
    requires a.pages.Keys == b.pages.Keys
    ensures |a.pages| == |b.pages|
  {
    assert |a.pages| == |a.pages.Keys| && |b.pages| == |b.pages.Keys|;
  }

  lemma {:induction false} RightsUpdate(m: Plain, key: Key, page: PlainPage)
    ensures RightsOf(m.pages[key := page]) == RightsOf(m.pages)[key := Rights(page.writable, page.user)]
    ensures key in m.pages && m.pages[key].writable == page.writable && m.pages[key].user == page.user ==>
              RightsOf(m.pages[key := page]) == RightsOf(m.pages)
  {
  }

  lemma {:induction false} RightsRemoved(m: Plain, key: Key)
    ensures RightsOf(m.pages - {key}) == RightsOf(m.pages) - {key}
  {
  }

  lemma {:induction false} StoreRights(m: Plain, virt: U32, b: Byte, kept: bool)
    requires PlainOk(m)
    ensures RightsOf(Step(m, Store(virt, b), kept).0.pages) == RightsOf(m.pages) && Step(m, Store(virt, b), kept).0.dir == m.dir
  {
  }

  lemma {:induction false} SameRightsOf(a: Plain, b: Plain)
    requires RightsOf(a.pages) == RightsOf(b.pages)
    ensures a.pages.Keys == b.pages.Keys
    ensures forall key :: key in a.pages ==> a.pages[key].writable == b.pages[key].writable && a.pages[key].user == b.pages[key].user
  {
    forall key | key in a.pages ensures a.pages[key].writable == b.pages[key].writable && a.pages[key].user == b.pages[key].user {
      assert RightsOf(a.pages)[key] == RightsOf(b.pages)[key];
    }
  }

  predicate MayBringIn(call: Call) {
    call.Load? || call.Store? || call.Fault?
  }

  function CountBringIns(script: seq<Call>): (n: nat)
    ensures n <= |script|
  {
    if script == [] then 0
    else CountBringIns(script[..|script| - 1]) + if MayBringIn(script[|script| - 1]) then 1 else 0
  }

  // ---- the pager seen as the plain machine -----------------------------------------------------

  /** No user address is mapped but those of registered pages. */
  ghost predicate OnlyPagesMapped(flat: Flat, v: Vm) {
    forall d: nat, x: U32 :: IsDir(v, d) && Aligned(x) && x < VMM_KERNEL_BASE && (d, x) !in flat ==> EntryAt(v, (d, x)) == Empty
  }

  ghost predicate Looks(m: Plain, pages: seq<PagerPage>, flat: Flat, current: nat) {
    && m.dir == current && m.pages.Keys == flat.Keys
    && forall key :: key in flat ==> m.pages[key].bytes == flat[key] && Flagged(pages, key, m.pages[key].writable, m.pages[key].user)
  }

  lemma {:induction false} LookupsCount(m: Plain, flat: Flat)
    requires m.pages.Keys == flat.Keys
    ensures |m.pages| == |flat|
  {
    assert |m.pages| == |m.pages.Keys| && |flat| == |flat.Keys|;
  }

  lemma {:induction false} StillOnlyPages(flat: Flat, v: Vm, w: Vm, more: Flat)
    requires OnlyPagesMapped(flat, v) && OutsideKept(v, w, flat)
    requires forall d: nat, x: U32 :: IsDir(w, d) && (d, x) in flat && (d, x) !in more ==> EntryAt(w, (d, x)) == Empty
    ensures OnlyPagesMapped(more, w)
  {
    forall d: nat, x: U32 | IsDir(w, d) && Aligned(x) && x < VMM_KERNEL_BASE && (d, x) !in more ensures EntryAt(w, (d, x)) == Empty {
      if (d, x) !in flat {
        assert IsDir(v, d) && EntryAt(v, (d, x)) == Empty && SameButAccessed(Lookup(v, d, x), Lookup(w, d, x));
      }
    }
  }

  lemma {:induction false} PageAddress(virt: U32)
    requires virt < VMM_KERNEL_BASE
    ensures Aligned(AlignDown(virt)) && AlignDown(virt) < VMM_KERNEL_BASE
  {
  }

  lemma {:induction false} ReachableHere(flat: Flat, v: Vm, d: nat, virt: U32)
    requires OnlyPagesMapped(flat, v) && IsDir(v, d) && virt < VMM_KERNEL_BASE
    ensures (d, AlignDown(virt)) in flat || EntryAt(v, (d, AlignDown(virt))) == Empty
  {
    PageAddress(virt);
  }

  /** With rights in order and frames at hand, an access works exactly when the plain
      machine permits it. */
  lemma {:induction false} AccessIsPlain(c: Cache, v: Vm, freePages: nat, flat: Flat, m: Plain, virt: U32, write: bool)
    requires Kept(c, v) && SameKeys(c.pages, flat) && RightsFit(c.pages, v) && Looks(m, c.pages, flat, m.dir)
    requires freePages + c.resident > PAGER_FRAME_LIMIT
    ensures FramesSuffice(c, v, freePages, flat, (m.dir, AlignDown(virt)))
    ensures AccessWorks(c, v, freePages, (m.dir, AlignDown(virt)), write) <==> Permits(m, virt, write)
    ensures FaultWorks(c, v, freePages, (m.dir, AlignDown(virt))) <==> (m.dir, AlignDown(virt)) in flat
  {
    var key := (m.dir, AlignDown(virt));
    if key in flat {
      var k := KeyHasPage(c, v, flat, key);
      assert RepairsFault(c, v, freePages, key, k);
      assert Flagged(c.pages, key, m.pages[key].writable, m.pages[key].user);
      assert c.pages[k].present ==> RightsFitOne(c.pages[k], EntryAt(v, key));
      assert WorksFor(c, v, freePages, key, write, k) <==> Permits(m, virt, write);
    } else {
      assert forall k :: 0 <= k < PAGER_MAX_PAGES && c.pages[k].used ==> KeyOf(c.pages[k]) in flat;
    }
  }

  lemma {:induction false} SameLooks(m: Plain, p: seq<PagerPage>, q: seq<PagerPage>, flat: Flat, current: nat)
    requires Looks(m, p, flat, current) && (SameRegistration(p, q) || SamePlaces(p, q))
    ensures Looks(m, q, flat, current)
  {
    forall key | key in flat ensures Flagged(q, key, m.pages[key].writable, m.pages[key].user) {
      assert Flagged(p, key, m.pages[key].writable, m.pages[key].user);
    }
  }

  /** A call that touched the entry of one key only. */
  lemma {:induction false} OtherLooks(m: Plain, p: seq<PagerPage>, q: seq<PagerPage>, flat: Flat, current: nat, key: Key)
    requires Looks(m, p, flat, current) && OnlyKeyChanged(p, q, key)
    ensures forall other :: other in flat && other != key ==> Flagged(q, other, m.pages[other].writable, m.pages[other].user)
  {
    forall other | other in flat && other != key ensures Flagged(q, other, m.pages[other].writable, m.pages[other].user) {
      assert Flagged(p, other, m.pages[other].writable, m.pages[other].user);
    }
  }
}
