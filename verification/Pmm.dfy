/** The physical page allocator: one bit per page, first fit. */
module PmmModule {
  import opened Machine
  import opened Bitmap
  import opened PmmSpec

  class Pmm {
    var ready: bool
    var totalBytes: U32
    var totalPages: nat
    var freePages: nat
    var bitmapBase: U32
    var bitmapBytes: U32
    var bitmap: seq<bool>

    /** The count is right at every moment, also while memory is still being mapped. */
    ghost predicate Counted()
      reads this
    {
      && |bitmap| == totalPages == totalBytes / PAGE_SIZE
      && freePages == FreeCount(bitmap)
    }

    ghost predicate Valid()
      reads this
    {
      ready ==>
        && Counted()
        && 0 < ReservedEnd() <= LAST_PAGE
        && forall p :: 0 <= p < totalPages && PAGE_SIZE * p < ReservedEnd() ==> bitmap[p]
    }

    /** The first address above the kernel image and the bitmap. */
    function ReservedEnd(): U32
      reads this`bitmapBase, this`bitmapBytes
    {
      AlignUp(Add32(bitmapBase, bitmapBytes))
    }

    constructor ()
      ensures !ready && Valid()
    {
      ready := false;
      totalBytes, totalPages, freePages, bitmapBase, bitmapBytes, bitmap := 0, 0, 0, 0, 0, [];
    }

    method ReservePage(page: nat)
      requires Counted()
      modifies this`bitmap, this`freePages
      ensures Counted()
      ensures bitmap == if page < totalPages then old(bitmap)[page := true] else old(bitmap)
    {
      if page >= totalPages || bitmap[page] {
        return;
      }
      FreeCountUpdate(bitmap, page, true);
      bitmap := bitmap[page := true];
      if freePages > 0 {
        freePages := freePages - 1;
      }
    }

    method ClearPage(page: nat)
      requires Counted()
      modifies this`bitmap, this`freePages
      ensures Counted()
      ensures bitmap == if page < totalPages then old(bitmap)[page := false] else old(bitmap)
    {
      if page >= totalPages || !bitmap[page] {
        return;
      }
      FreeCountUpdate(bitmap, page, false);
      bitmap := bitmap[page := false];
      freePages := freePages + 1;
    }

    method ReserveRange(start: U32, end: U32)
      requires Counted()
      modifies this`bitmap, this`freePages
      ensures Counted()
      ensures forall p :: 0 <= p < totalPages ==>
                bitmap[p] == (old(bitmap)[p] || (start < end && AlignDown(start) / PAGE_SIZE <= p < AlignUp(end) / PAGE_SIZE))
    {
      if start >= end {
        return;
      }
      var pageStart := AlignDown(start) / PAGE_SIZE;
      var pageEnd := AlignUp(end) / PAGE_SIZE;
      if pageEnd > totalPages {
        pageEnd := totalPages;
      }
      var page := pageStart;
      while page < pageEnd
        invariant pageStart <= page && (page <= pageEnd || page == pageStart)
        invariant Counted()
        invariant forall p :: 0 <= p < totalPages ==> bitmap[p] == (old(bitmap)[p] || pageStart <= p < page)
      {
        ReservePage(page);
        page := page + 1;
      }
    }

    method FreeRange(start: U32, end: U32)
      requires Counted()
      modifies this`bitmap, this`freePages
      ensures Counted()
      ensures forall p :: 0 <= p < totalPages ==>
                bitmap[p] == (old(bitmap)[p] && !RangeFrees(start, end, totalBytes, p))
    {
      if start >= end {
        return;
      }
      var first, last := start, end;
      if first < LOW_MEMORY_RESERVED_BYTES {
        first := LOW_MEMORY_RESERVED_BYTES;
      }
      if last > totalBytes {
        last := totalBytes;
      }
      if first >= last {
        return;
      }
      var pageStart := AlignUp(first) / PAGE_SIZE;
      var pageEnd := AlignDown(last) / PAGE_SIZE;
      if pageEnd > totalPages {
        pageEnd := totalPages;
      }
      var page := pageStart;
      while page < pageEnd
        invariant pageStart <= page && (page <= pageEnd || page == pageStart)
        invariant Counted()
        invariant forall p :: 0 <= p < totalPages ==> bitmap[p] == (old(bitmap)[p] && !(pageStart <= p < page))
      {
        ClearPage(page);
        page := page + 1;
      }
    }

    method FreeMemoryFromMap(mmap: seq<MmapEntry>)
      requires Counted()
      modifies this`bitmap, this`freePages
      ensures Counted()
      ensures forall p :: 0 <= p < totalPages ==>
                bitmap[p] == (old(bitmap)[p] && !MapFrees(mmap, totalBytes, |mmap|, p))
    {
      for k := 0 to |mmap|
        invariant Counted()
        invariant forall p :: 0 <= p < totalPages ==> bitmap[p] == (old(bitmap)[p] && !MapFrees(mmap, totalBytes, k, p))
      {
        var entry := mmap[k];
        ghost var before := bitmap;
        if entry.kind == MULTIBOOT_MEMORY_AVAILABLE && entry.addrHigh == 0 && entry.lenHigh == 0 && entry.lenLow != 0 {
          var end := Add32(entry.addrLow, entry.lenLow);
          if end > entry.addrLow {
            FreeRange(entry.addrLow, end);
          }
        }
        forall p | 0 <= p < totalPages
          ensures bitmap[p] == (old(bitmap)[p] && !MapFrees(mmap, totalBytes, k + 1, p))
        {
          assert bitmap[p] == (before[p] && !EntryFrees(mmap[k], totalBytes, p));
          MapFreesStep(mmap, totalBytes, k, p);
        }
      }
    }

    /** Lays the bitmap out behind the kernel and decides every page: afterwards a page is
        free exactly when the boot information promises it and it lies above the bitmap. */
    method Init(boot: Boot, kernelEnd: U32)
      requires 0 < kernelEnd && KernelFits(kernelEnd, DetectTotalMemory(boot))
      requires DetectTotalMemory(boot) <= LAST_PAGE
      modifies this
      ensures ready && Valid()
      ensures totalBytes == DetectTotalMemory(boot)
      ensures bitmapBase == AlignUp(kernelEnd) && bitmapBytes == (totalPages + 7) / 8
      ensures forall p :: 0 <= p < totalPages ==>
                (!bitmap[p] <==> Promised(boot, totalBytes, p) && ReservedEnd() <= PAGE_SIZE * p)
      ensures kernelEnd <= bitmapBase < kernelEnd + PAGE_SIZE && bitmapBase % PAGE_SIZE == 0 && 8 * bitmapBytes >= totalPages
      ensures bitmapBase + bitmapBytes <= ReservedEnd() < bitmapBase + bitmapBytes + PAGE_SIZE
    {
      hide AlignUp, Promised, FreeCount, KernelFits, DetectTotalMemory;
      TakeEverything(boot, kernelEnd);
      FreePromised(boot);
      ghost var promised := bitmap;
      var bitmapEnd := AlignUp(Add32(bitmapBase, bitmapBytes));
      ReservedEndBounds(kernelEnd, totalBytes);
      ReserveRange(0, bitmapEnd);
      forall p | 0 <= p < totalPages
        ensures bitmap[p] == (promised[p] || PAGE_SIZE * p < bitmapEnd)
      {
        PageBounds(bitmapEnd, p);
      }
      ready := true;
    }

    /** Every page starts out taken. */
    method TakeEverything(boot: Boot, kernelEnd: U32)
      modifies this
      ensures Counted() && ready == old(ready) && forall p :: 0 <= p < totalPages ==> bitmap[p]
      ensures totalBytes == DetectTotalMemory(boot)
      ensures bitmapBase == AlignUp(kernelEnd) && bitmapBytes == (totalPages + 7) / 8
    {
      totalBytes := DetectTotalMemory(boot);
      totalPages := totalBytes / PAGE_SIZE;
      bitmapBytes := (totalPages + 7) / 8;
      bitmapBase := AlignUp(kernelEnd);
      bitmap := seq(totalPages, _ => true);
      freePages := 0;
      NoneFree(bitmap);
    }

    /** Frees what the boot information promises. */
    method FreePromised(boot: Boot)
      requires Counted() && totalBytes <= LAST_PAGE && forall p :: 0 <= p < totalPages ==> bitmap[p]
      modifies this`bitmap, this`freePages
      ensures Counted()
      ensures forall p :: 0 <= p < totalPages ==> (!bitmap[p] <==> Promised(boot, totalBytes, p))
    {
      if HasMap(boot) {
        FreeMemoryFromMap(boot.mmap);
      } else {
        FreeRange(LOW_MEMORY_RESERVED_BYTES, totalBytes);
      }
      hide MapFrees, MapCovers, RangeFrees, Within;
      forall p | 0 <= p < totalPages ensures !bitmap[p] <==> Promised(boot, totalBytes, p) {
        if HasMap(boot) {
          MapFreesExactly(boot.mmap, totalBytes, p);
        } else {
          RangeFreesExactly(LOW_MEMORY_RESERVED_BYTES, totalBytes, totalBytes);
        }
      }
    }

    /** First fit: the lowest clear bit, or 0 when there is none. Page 0 is never handed
        out, so 0 always means failure. */
    method AllocPage() returns (phys: U32)
      requires Valid()
      modifies this`bitmap, this`freePages
      ensures Valid()
      ensures phys == 0 <==> !ready || old(freePages) == 0
      ensures phys == 0 ==> bitmap == old(bitmap) && freePages == old(freePages)
      ensures phys != 0 ==>
                && phys % PAGE_SIZE == 0 && ReservedEnd() <= phys < totalBytes
                && var page := phys / PAGE_SIZE;
                   page < totalPages && !old(bitmap)[page] && bitmap == old(bitmap)[page := true]
                   && freePages == old(freePages) - 1
                   && forall q :: 0 <= q < page ==> old(bitmap)[q]
    {
      if !ready {
        return 0;
      }
      for page := 0 to totalPages
        invariant bitmap == old(bitmap) && freePages == old(freePages)
        invariant forall q :: 0 <= q < page ==> bitmap[q]
      {
        if !bitmap[page] {
          NoneFree(bitmap);
          FreeCountUpdate(bitmap, page, true);
          ReservePage(page);
          return page * PAGE_SIZE;
        }
      }
      NoneFree(bitmap);
      return 0;
    }

    /** Frees one page; an address that is unaligned, reserved or past the end is ignored. */
    method FreePage(phys: U32)
      requires Valid()
      modifies this`bitmap, this`freePages
      ensures Valid()
      ensures bitmap == if CanFree(phys) then old(bitmap)[phys / PAGE_SIZE := false] else old(bitmap)
      ensures freePages == old(freePages) + if CanFree(phys) && old(bitmap)[phys / PAGE_SIZE] then 1 else 0
    {
      if !ready || phys % PAGE_SIZE != 0 {
        return;
      }
      var page := phys / PAGE_SIZE;
      if page * PAGE_SIZE < AlignUp(Add32(bitmapBase, bitmapBytes)) {
        return;
      }
      if page < |bitmap| {
        FreeCountUpdate(bitmap, page, false);
      }
      ClearPage(page);
    }

    predicate CanFree(phys: U32)
      requires Valid()
      reads this
    {
      ready && phys % PAGE_SIZE == 0 && ReservedEnd() <= phys && phys / PAGE_SIZE < |bitmap|
    }
  }

  /** Kernel image and bitmap end below the last 32-bit page boundary. */
  predicate KernelFits(kernelEnd: U32, total: U32) {
    kernelEnd <= LAST_PAGE && AlignUp(kernelEnd) + (total / PAGE_SIZE + 7) / 8 <= LAST_PAGE
  }

  lemma {:induction false} ReservedEndBounds(kernelEnd: U32, total: U32)
    requires 0 < kernelEnd && KernelFits(kernelEnd, total)
    ensures var end := AlignUp(Add32(AlignUp(kernelEnd), (total / PAGE_SIZE + 7) / 8));
            && 0 < end <= LAST_PAGE && AlignDown(0) == 0 && AlignUp(end) == end
            && kernelEnd <= AlignUp(kernelEnd) < kernelEnd + PAGE_SIZE && AlignUp(kernelEnd) % PAGE_SIZE == 0
            && var bytes := AlignUp(kernelEnd) + (total / PAGE_SIZE + 7) / 8;
               bytes <= end < bytes + PAGE_SIZE
  {
    AlignUpBounds(kernelEnd);
    var sum := AlignUp(kernelEnd) + (total / PAGE_SIZE + 7) / 8;
    assert 0 < sum <= LAST_PAGE;
    assert sum == Add32(AlignUp(kernelEnd), (total / PAGE_SIZE + 7) / 8);
    AlignUpBounds(sum);
    AlignUpTwice(sum);
  }

  lemma {:induction false} AlignUpTwice(value: U32)
    requires value <= LAST_PAGE
    ensures value <= AlignUp(value) <= LAST_PAGE && AlignUp(AlignUp(value)) == AlignUp(value)
  {
    AlignUpBounds(value);
    AlignUpBounds(AlignUp(value));
  }

  lemma {:induction false} MapFreesStep(mmap: seq<MmapEntry>, total: U32, k: nat, p: nat)
    requires k < |mmap|
    ensures MapFrees(mmap, total, k + 1, p) <==> MapFrees(mmap, total, k, p) || EntryFrees(mmap[k], total, p)
  {
  }
}
