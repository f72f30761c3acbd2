/** What a process may do with its pages: all are user pages, and all but the code page can be
    written. Page tables and pager agree on it. */
module SpacesRights {
  import opened Machine
  import opened Bitmap
  import opened PmmSpec
  import opened VmmSpec
  import opened PagerSpec
  import opened PagerSteps
  import opened MemDemoSpec
  import opened SpacesSpec

  predicate MayWrite(virt: U32) {
    virt != PROCESS_USER_CODE_BASE
  }

  ghost predicate Ruled(pages: seq<PagerPage>, v: Vm) {
    RightsFit(pages, v) && forall k :: 0 <= k < |pages| && pages[k].used ==> pages[k].user && pages[k].writable == MayWrite(pages[k].virt)
  }

  /** With a page to spare an access works exactly on a registered page with the right. */
  lemma {:induction false} AccessIsRuled(c: Cache, v: Vm, freePages: nat, flat: Flat, key: Key)
    requires Kept(c, v) && SameKeys(c.pages, flat) && Ruled(c.pages, v) && freePages + c.resident > PAGER_FRAME_LIMIT
    ensures FramesSuffice(c, v, freePages, flat, key)
    ensures AccessWorks(c, v, freePages, key, false) <==> key in flat
    ensures AccessWorks(c, v, freePages, key, true) <==> key in flat && MayWrite(key.1)
  {
    if key in flat {
      var k := KeyHasPage(c, v, flat, key);
      assert RepairsFault(c, v, freePages, key, k);
      assert c.pages[k].present ==> RightsFitOne(c.pages[k], EntryAt(v, key));
      assert WorksFor(c, v, freePages, key, false, k);
      assert WorksFor(c, v, freePages, key, true, k) <==> MayWrite(key.1);
      forall j: nat | WorksFor(c, v, freePages, key, true, j) ensures MayWrite(key.1) {
        assert c.pages[j].present ==> RightsFitOne(c.pages[j], EntryAt(v, key));
      }
    } else {
      assert forall k :: 0 <= k < PAGER_MAX_PAGES && c.pages[k].used ==> KeyOf(c.pages[k]) in flat;
    }
  }

  // ---- every step keeps the rights -----------------------------------------------------------------

  lemma {:induction false} NoPagesRuled(c: Cache, v: Vm, flat: Flat)
    requires Kept(c, v) && SameKeys(c.pages, flat) && flat == map[]
    ensures Ruled(c.pages, v)
  {
    forall k | 0 <= k < |c.pages| ensures !c.pages[k].used && !c.pages[k].present {
    }
  }

  lemma {:induction false} RuledAfterPager(p: seq<PagerPage>, q: seq<PagerPage>, v: Vm, w: Vm)
    requires Ruled(p, v) && (RightsFit(p, v) ==> RightsFit(q, w)) && (SameRegistration(p, q) || SamePlaces(p, q))
    ensures Ruled(q, w)
  {
    forall k | 0 <= k < |q| && q[k].used ensures q[k].user && q[k].writable == MayWrite(q[k].virt) {
      assert p[k].used;
    }
  }

  lemma {:induction false} RuledAfterRegister(p: seq<PagerPage>, q: seq<PagerPage>, v: Vm, key: Key)
    requires Ruled(p, v) && (RightsFit(p, v) ==> RightsFit(q, v)) && OnlyKeyChanged(p, q, key) && Flagged(q, key, MayWrite(key.1), true)
    ensures Ruled(q, v)
  {
    forall k | 0 <= k < |q| && q[k].used ensures q[k].user && q[k].writable == MayWrite(q[k].virt) {
      if KeyOf(q[k]) != key {
        assert q[k] == p[k];
      }
    }
  }

  /** A page is registered and then pinned. */
  lemma {:induction false} EnteredRuled(p: seq<PagerPage>, q: seq<PagerPage>, r: seq<PagerPage>, v: Vm, key: Key)
    requires OnlyKeyChanged(p, q, key) && Flagged(q, key, MayWrite(key.1), true) && SamePlaces(q, r)
    requires RightsFit(p, v) ==> RightsFit(q, v) && RightsFit(r, v)
    ensures Ruled(p, v) ==> Ruled(r, v)
  {
    if Ruled(p, v) {
      RuledAfterRegister(p, q, v, key);
      RuledAfterPager(q, r, v, v);
    }
  }

  lemma {:induction false} RuledAfterForget(p: seq<PagerPage>, q: seq<PagerPage>, v: Vm, w: Vm, key: Key, flat: Flat)
    requires Ruled(p, v) && (RightsFit(p, v) ==> RightsFit(q, w)) && OnlyKeyChanged(p, q, key) && SameKeys(q, flat) && key !in flat
    ensures Ruled(q, w)
  {
    forall k | 0 <= k < |q| && q[k].used ensures q[k].user && q[k].writable == MayWrite(q[k].virt) {
      assert KeyOf(q[k]) in flat;
      assert q[k] == p[k];
    }
  }

  /** Only use ticks, pins and accessed bits changed. */
  lemma {:induction false} RuledAfterSample(c: Cache, v: Vm, d: Cache, w: Vm)
    requires Undisturbed(c, v, d, w) && Ruled(c.pages, v)
    ensures Ruled(d.pages, w)
  {
    UndisturbedRights(c, v, d, w);
    RuledAfterPager(c.pages, d.pages, v, w);
  }

  /** The page tables changed, but at no page of the pager. */
  lemma {:induction false} RuledAfterSide(c: Cache, v: Vm, w: Vm, keys: set<Key>, flat: Flat)
    requires Kept(c, v) && SameKeys(c.pages, flat) && PagerSide(v, w, keys) && (forall key :: key in keys ==> key !in flat) && Ruled(c.pages, v)
    ensures Ruled(c.pages, w)
  {
    forall k | 0 <= k < |c.pages| && c.pages[k].present ensures RightsFitOne(c.pages[k], EntryAt(w, KeyOf(c.pages[k]))) {
      assert PageOk(c.pages[k], v, k) && RightsFitOne(c.pages[k], EntryAt(v, KeyOf(c.pages[k])));
      assert KeyOf(c.pages[k]) in flat;
    }
  }

  lemma {:induction false} RuledAfterDir(c: Cache, v: Vm, w: Vm, dir: nat, flat: Flat)
    requires Kept(c, v) && SameKeys(c.pages, flat) && DirChanged(v, w, dir) && Ruled(c.pages, v)
    requires forall key :: key in flat ==> key.0 != dir
    ensures Ruled(c.pages, w)
  {
    forall k | 0 <= k < |c.pages| && c.pages[k].present ensures RightsFitOne(c.pages[k], EntryAt(w, KeyOf(c.pages[k]))) {
      assert PageOk(c.pages[k], v, k) && RightsFitOne(c.pages[k], EntryAt(v, KeyOf(c.pages[k])));
      assert KeyOf(c.pages[k]) in flat;
    }
  }
}
