/** Which physical pages are usable after boot, stated on addresses. */
module PmmSpec {
  import opened Machine

  const PAGE_SIZE: nat := 4096
  const LOW_MEMORY_RESERVED_BYTES: U32 := 0x0010_0000
  const DEFAULT_TOTAL_MEMORY_BYTES: U32 := 0x0800_0000
  const MULTIBOOT_MEMORY_AVAILABLE: U32 := 1
  /** Above this address no 32-bit number is a page boundary. */
  const LAST_PAGE: nat := 0xFFFF_F000

  datatype MmapEntry = MmapEntry(addrLow: U32, addrHigh: U32, lenLow: U32, lenHigh: U32, kind: U32)

  /** What the boot loader handed over: nothing to trust, or its two optional parts. */
  datatype Boot =
    | NoInfo
    | Multiboot(hasMemory: bool, memUpper: U32, hasMmap: bool, mmap: seq<MmapEntry>)

  function AlignUp(value: U32): U32 {
    var sum := Add32(value, PAGE_SIZE - 1);
    sum - sum % PAGE_SIZE
  }

  function AlignDown(value: U32): U32 {
    value - value % PAGE_SIZE
  }

  function DetectTotalMemory(boot: Boot): U32 {
    if boot.Multiboot? && boot.hasMemory && boot.memUpper != 0
    then Add32(LOW_MEMORY_RESERVED_BYTES, boot.memUpper * 1024 % WORD_LIMIT)
    else DEFAULT_TOTAL_MEMORY_BYTES
  }

  function Max(a: int, b: int): int {
    if a < b then b else a
  }

  function Min(a: int, b: int): int {
    if a > b then b else a
  }

  /** Page `p` lies wholly in [start, end), clipped to 1 MiB and to total memory. */
  predicate Within(start: int, end: int, total: int, p: nat) {
    Max(start, LOW_MEMORY_RESERVED_BYTES) <= PAGE_SIZE * p && PAGE_SIZE * (p + 1) <= Min(end, total)
  }

  /** Page `p` is one that `free_range` frees, its 32-bit rounding included. */
  predicate RangeFrees(start: U32, end: U32, total: U32, p: nat) {
    var s, e := Max(start, LOW_MEMORY_RESERVED_BYTES), Min(end, total);
    start < end && s < e && AlignUp(s) / PAGE_SIZE <= p < AlignDown(e) / PAGE_SIZE
  }

  predicate EntryUsable(entry: MmapEntry) {
    && entry.kind == MULTIBOOT_MEMORY_AVAILABLE && entry.addrHigh == 0 && entry.lenHigh == 0 && entry.lenLow != 0
    && Add32(entry.addrLow, entry.lenLow) > entry.addrLow
  }

  /** Page `p` lies wholly inside one usable entry. */
  predicate EntryCovers(entry: MmapEntry, total: int, p: nat) {
    EntryUsable(entry) && Within(entry.addrLow, entry.addrLow + entry.lenLow, total, p)
  }

  predicate EntryFrees(entry: MmapEntry, total: U32, p: nat) {
    EntryUsable(entry) && RangeFrees(entry.addrLow, Add32(entry.addrLow, entry.lenLow), total, p)
  }

  predicate MapFrees(mmap: seq<MmapEntry>, total: U32, n: nat, p: nat)
    requires n <= |mmap|
  {
    exists k :: 0 <= k < n && EntryFrees(mmap[k], total, p)
  }

  predicate MapCovers(mmap: seq<MmapEntry>, total: int, p: nat) {
    exists entry :: entry in mmap && EntryCovers(entry, total, p)
  }

  predicate HasMap(boot: Boot) {
    boot.Multiboot? && boot.hasMmap && boot.mmap != []
  }

  /** The memory the boot information promises: one usable entry, or all of it. */
  predicate Promised(boot: Boot, total: int, p: nat) {
    if HasMap(boot) then MapCovers(boot.mmap, total, p) else Within(LOW_MEMORY_RESERVED_BYTES, total, total, p)
  }

  // ---- rounding --------------------------------------------------------------------

  lemma {:induction false} AlignUpBounds(value: U32)
    ensures AlignUp(value) % PAGE_SIZE == 0
    ensures value <= LAST_PAGE ==> value <= AlignUp(value) < value + PAGE_SIZE
    ensures value > LAST_PAGE ==> AlignUp(value) == 0
  {
  }

  lemma {:induction false} AlignDownBounds(value: U32)
    ensures AlignDown(value) % PAGE_SIZE == 0 && AlignDown(value) <= value < AlignDown(value) + PAGE_SIZE
  {
  }

  /** The memory size taken from the boot information is 1 MiB and the KiB above it,
      exactly while that fits 32 bits; a boot loader that gives none means 128 MiB. */
  lemma {:induction false} TotalMemoryIs(boot: Boot)
    ensures boot.Multiboot? && boot.hasMemory && boot.memUpper > 0 ==>
              var bytes := 1024 * 1024 + 1024 * boot.memUpper;
              && (DetectTotalMemory(boot) == bytes <==> bytes < 0x1_0000_0000)
              && exists wraps: nat :: DetectTotalMemory(boot) + 0x1_0000_0000 * wraps == bytes
    ensures !(boot.Multiboot? && boot.hasMemory && boot.memUpper > 0) ==> DetectTotalMemory(boot) == 128 * 1024 * 1024
  {
    if boot.Multiboot? && boot.hasMemory && boot.memUpper > 0 {
      var bytes := 1024 * 1024 + 1024 * boot.memUpper;
      assert DetectTotalMemory(boot) == bytes % 0x1_0000_0000;
      assert DetectTotalMemory(boot) + 0x1_0000_0000 * (bytes / 0x1_0000_0000) == bytes;
    }
  }

  predicate Between(lo: int, a: int, hi: int) {
    lo <= a < hi
  }

  /** Every byte of page `p` lies in [lo, hi). */
  ghost predicate BytesLie(p: nat, lo: int, hi: int) {
    forall a :: Between(PAGE_SIZE * p, a, PAGE_SIZE * (p + 1)) ==> Between(lo, a, hi)
  }

  /** An available range that lies in the first 4 GiB and ends below them. */
  ghost predicate Available(e: MmapEntry) {
    e.kind == 1 && e.addrHigh == 0 && e.lenHigh == 0 && e.addrLow + e.lenLow < 0x1_0000_0000
  }

  ghost predicate Provides(e: MmapEntry, p: nat) {
    Available(e) && BytesLie(p, e.addrLow, e.addrLow + e.lenLow)
  }

  lemma {:induction false} PageBytes(lo: int, hi: int, p: nat)
    ensures BytesLie(p, lo, hi) <==> lo <= PAGE_SIZE * p && PAGE_SIZE * (p + 1) <= hi
  {
    var first, last := PAGE_SIZE * p, PAGE_SIZE * (p + 1) - 1;
    assert Between(PAGE_SIZE * p, first, PAGE_SIZE * (p + 1)) && Between(PAGE_SIZE * p, last, PAGE_SIZE * (p + 1));
    assert BytesLie(p, lo, hi) ==> Between(lo, first, hi) && Between(lo, last, hi);
  }

  /** A page counts as promised exactly when each of its bytes lies above 1 MiB, in memory,
      and, if there is a map, in one available range of it. */
  lemma {:induction false} PromisedByBytes(boot: Boot, total: U32, p: nat)
    ensures Promised(boot, total, p) <==>
            && BytesLie(p, 1024 * 1024, total)
            && (boot.Multiboot? && boot.hasMmap && boot.mmap != [] ==> exists e :: e in boot.mmap && Provides(e, p))
  {
    PageBytes(1024 * 1024, total, p);
    if HasMap(boot) {
      forall e | e in boot.mmap ensures EntryCovers(e, total, p) <==> BytesLie(p, 1024 * 1024, total) && Provides(e, p) {
        EntryByBytes(e, total, p);
      }
      assert (exists e :: e in boot.mmap && EntryCovers(e, total, p)) <==>
             BytesLie(p, 1024 * 1024, total) && exists e :: e in boot.mmap && Provides(e, p);
    }
  }

  lemma {:induction false} EntryByBytes(e: MmapEntry, total: U32, p: nat)
    ensures EntryCovers(e, total, p) <==> BytesLie(p, 1024 * 1024, total) && Provides(e, p)
  {
    PageBytes(1024 * 1024, total, p);
    PageBytes(e.addrLow, e.addrLow + e.lenLow, p);
  }

  /** A page index is at or past a rounded bound exactly when its address is. */
  lemma {:induction false} PageBounds(value: U32, p: nat)
    requires value <= LAST_PAGE
    ensures AlignUp(value) / PAGE_SIZE <= p <==> value <= PAGE_SIZE * p
    ensures p < AlignDown(value) / PAGE_SIZE <==> PAGE_SIZE * (p + 1) <= value
  {
    AlignUpBounds(value);
  }

  /** What `free_range` frees is what lies wholly inside, for every page, exactly when
      the clipped start does not lie past the last 32-bit page boundary. */
  lemma {:induction false} RangeFreesExactly(start: U32, end: U32, total: U32)
    ensures (forall p: nat :: RangeFrees(start, end, total, p) <==> Within(start, end, total, p))
       <==> !(LAST_PAGE < Max(start, LOW_MEMORY_RESERVED_BYTES) < Min(end, total))
  {
    var s, e := Max(start, LOW_MEMORY_RESERVED_BYTES), Min(end, total);
    if LAST_PAGE < s < e {
      AlignUpBounds(s);
      assert RangeFrees(start, end, total, 0) && !Within(start, end, total, 0);
    } else if s < e {
      forall p: nat ensures RangeFrees(start, end, total, p) <==> Within(start, end, total, p) {
        PageBounds(s, p);
        AlignDownBound(e, p);
      }
    }
  }

  lemma {:induction false} AlignDownBound(value: U32, p: nat)
    ensures p < AlignDown(value) / PAGE_SIZE <==> PAGE_SIZE * (p + 1) <= value
  {
  }

  /** The order of the map's entries does not matter. */
  lemma {:induction false} OrderIsFree(a: seq<MmapEntry>, b: seq<MmapEntry>, total: int, p: nat)
    requires multiset(a) == multiset(b)
    ensures MapCovers(a, total, p) == MapCovers(b, total, p)
  {
    assert forall entry :: entry in a <==> entry in multiset(b);
  }

  lemma {:induction false} MapFreesExactly(mmap: seq<MmapEntry>, total: U32, p: nat)
    requires total <= LAST_PAGE
    ensures MapFrees(mmap, total, |mmap|, p) <==> MapCovers(mmap, total, p)
  {
    forall entry | entry in mmap ensures EntryFrees(entry, total, p) <==> EntryCovers(entry, total, p) {
      if EntryUsable(entry) {
        RangeFreesExactly(entry.addrLow, Add32(entry.addrLow, entry.lenLow), total);
        assert Add32(entry.addrLow, entry.lenLow) == entry.addrLow + entry.lenLow;
      }
    }
    if MapCovers(mmap, total, p) {
      var entry :| entry in mmap && EntryCovers(entry, total, p);
      var k :| 0 <= k < |mmap| && mmap[k] == entry;
      assert EntryFrees(mmap[k], total, p);
    }
  }

  /** A concrete case past the boundary: with just under 4 GiB of memory, a range inside
      the last page frees page 0x100, a megabyte and far outside the range. */
  lemma {:induction false} LastPageWraps()
    ensures RangeFrees(0xFFFF_F001, 0xFFFF_FC00, 0xFFFF_FC00, 0x100)
    ensures !Within(0xFFFF_F001, 0xFFFF_FC00, 0xFFFF_FC00, 0x100)
  {
    AlignUpBounds(0xFFFF_F001);
  }
}
