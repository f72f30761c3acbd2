/** The block and inode layer of SimpleFS: RAM metadata, its disk images and the data
    area, updated in place. Sector transfers succeed. */
module FsStore {
  import opened Machine
  import opened Bitmap
  import opened FsLayout
  import opened FsVolume
  import opened FsAccount

  /** The pointer slots of an inode and its RAM table: `pointers`, then nothing. */
  ghost predicate SlotsHold(direct: seq<U32>, table: seq<U32>, pointers: seq<U32>) {
    && |direct| == SIMPLEFS_DIRECT_BLOCKS && |pointers| <= INDIRECT_ROLE
    && direct + table == pointers + Invalids(INDIRECT_ROLE - |pointers|)
  }

  /** What laying out a file has done to `v` so far: `pointers` are the blocks written,
      `mine` all blocks taken, `table` the indirect table still in RAM. */
  ghost predicate Laid(v: Volume, w: Volume, i: nat, table: seq<U32>, pointers: seq<U32>, mine: set<nat>)
    requires Shaped(v) && i < SIMPLEFS_MAX_INODES
  {
    && Shaped(w) && w.used == v.used && w.inodes == v.inodes[i := w.inodes[i]]
    && w.inodes[i] == v.inodes[i].(direct := w.inodes[i].direct, indirect := w.inodes[i].indirect)
    && Taken(v, w, mine)
    && SlotsHold(w.inodes[i].direct, table, pointers)
    && Distinct(pointers, mine)
    && (if w.inodes[i].indirect == SIMPLEFS_INVALID_BLOCK then |pointers| <= SIMPLEFS_DIRECT_BLOCKS
        else
          && |pointers| >= SIMPLEFS_DIRECT_BLOCKS
          && w.inodes[i].indirect < SIMPLEFS_DATA_BLOCKS
          && w.blocks[w.inodes[i].indirect] == EncodeTable(Invalids(SIMPLEFS_INDIRECT_ENTRIES))
          && w.inodes[i].indirect in mine && w.inodes[i].indirect !in pointers)
  }

  /** A layout between two blocks: it has taken what its file blocks need and no more. */
  ghost predicate Laying(v: Volume, w: Volume, i: nat, table: seq<U32>, pointers: seq<U32>, mine: set<nat>)
    requires Shaped(v) && i < SIMPLEFS_MAX_INODES
  {
    && Laid(v, w, i, table, pointers, mine) && |table| == SIMPLEFS_INDIRECT_ENTRIES
    && (w.inodes[i].indirect == SIMPLEFS_INVALID_BLOCK <==> |pointers| <= SIMPLEFS_DIRECT_BLOCKS)
    && |mine| == |pointers| + (if |pointers| > SIMPLEFS_DIRECT_BLOCKS then 1 else 0)
    && (forall b :: b in mine ==> b in pointers || b == w.inodes[i].indirect)
  }

  /** A layout that found no free block, having taken every one there was. */
  ghost predicate Stopped(v: Volume, w: Volume, i: nat, table: seq<U32>, pointers: seq<U32>, mine: set<nat>)
    requires Shaped(v) && i < SIMPLEFS_MAX_INODES
  {
    && Laid(v, w, i, table, pointers, mine) && FreeCount(w.bitmap) == 0
    && if w.inodes[i].indirect != SIMPLEFS_INVALID_BLOCK then |mine| == |pointers| + 1 > SIMPLEFS_DIRECT_BLOCKS + 1
       else |mine| == |pointers| <= SIMPLEFS_DIRECT_BLOCKS
            || (|pointers| == SIMPLEFS_DIRECT_BLOCKS && |mine| == |pointers| + 1)
  }

  ghost predicate Distinct(pointers: seq<U32>, mine: set<nat>) {
    && (forall k :: 0 <= k < |pointers| ==> pointers[k] in mine && pointers[k] < SIMPLEFS_DATA_BLOCKS)
    && (forall j, k :: 0 <= j < k < |pointers| ==> pointers[j] != pointers[k])
  }

  /** Blocks `mine`, free in `v`, have been taken: nothing else has moved. */
  ghost predicate Taken(v: Volume, w: Volume, mine: set<nat>)
    requires Shaped(v) && Shaped(w)
  {
    && (forall b :: b in mine ==> b < SIMPLEFS_DATA_BLOCKS && !v.bitmap[b])
    && (forall b :: 0 <= b < SIMPLEFS_DATA_BLOCKS ==> (w.bitmap[b] <==> v.bitmap[b] || b in mine))
    && (forall b :: 0 <= b < SIMPLEFS_DATA_BLOCKS && b !in mine ==> w.blocks[b] == v.blocks[b])
    && FreeCount(w.bitmap) + |mine| == FreeCount(v.bitmap)
  }

  /** Inode `i` of `w` points to `pointers` and nothing else but its indirect block,
      all taken from what was free in `v`. */
  ghost predicate Points(v: Volume, w: Volume, i: nat, pointers: seq<U32>, mine: set<nat>)
    requires Shaped(v) && i < SIMPLEFS_MAX_INODES
  {
    && Shaped(w) && w.used == v.used && w.inodes == v.inodes[i := w.inodes[i]]
    && Taken(v, w, mine) && Distinct(pointers, mine) && |pointers| < POINTERS
    && InodeOk(w.blocks, w.inodes[i])
    && (forall r :: 0 <= r < INDIRECT_ROLE ==>
          Role(w, i, r) == if r < |pointers| then pointers[r] else SIMPLEFS_INVALID_BLOCK)
    && (w.inodes[i].indirect == SIMPLEFS_INVALID_BLOCK
        || (w.inodes[i].indirect in mine && w.inodes[i].indirect !in pointers))
  }

  lemma {:induction false} OwnRoles(v: Volume, w: Volume, i: nat, pointers: seq<U32>, mine: set<nat>)
    requires Shaped(v) && i < SIMPLEFS_MAX_INODES && Points(v, w, i, pointers, mine)
    ensures forall r :: 0 <= r < POINTERS && Role(w, i, r) != SIMPLEFS_INVALID_BLOCK ==> Role(w, i, r) in mine
    ensures forall r, s :: 0 <= r < s < POINTERS && Role(w, i, r) != SIMPLEFS_INVALID_BLOCK ==>
              Role(w, i, r) != Role(w, i, s)
  {
    assert Role(w, i, INDIRECT_ROLE) == w.inodes[i].indirect;
    forall r, s | 0 <= r < s < POINTERS && Role(w, i, r) != SIMPLEFS_INVALID_BLOCK
      ensures Role(w, i, r) != Role(w, i, s)
    {
      assert Role(w, i, r) == pointers[r];
    }
  }

  /** A laid out inode joins the sound ones. */
  lemma {:induction false} LaidIsSound(v: Volume, w: Volume, i: nat, pointers: seq<U32>, mine: set<nat>)
    requires Sound(v) && i < SIMPLEFS_MAX_INODES && v.used[i] && v.inodes[i] == Emptied(v.inodes[i])
    requires Points(v, w, i, pointers, mine)
    ensures Sound(w)
    ensures Rewritten(v, w, i, Content(w.blocks, w.inodes[i]))
  {
    hide FreeCount, Content, Concat;
    assert SoundBut(v, i);
    OthersKept(v, w, i, mine);
    OwnRoles(v, w, i, pointers, mine);
    forall r | 0 <= r < POINTERS && Role(w, i, r) != SIMPLEFS_INVALID_BLOCK
      ensures w.bitmap[Role(w, i, r)] && !OwnedBut(w, Role(w, i, r), i)
    {
      NotOthers(v, w, i, Role(w, i, r));
    }
    Joined(w, i);
  }

  lemma {:induction false} NotOthers(v: Volume, w: Volume, i: nat, b: nat)
    requires SoundBut(v, i) && SoundBut(w, i) && w.used == v.used && b < SIMPLEFS_DATA_BLOCKS && !v.bitmap[b]
    requires forall j :: 0 <= j < SIMPLEFS_MAX_INODES && v.used[j] && j != i ==>
               AllPointers(w.blocks, w.inodes[j]) == AllPointers(v.blocks, v.inodes[j])
    ensures !OwnedBut(w, b, i)
  {
    forall j, s | 0 <= j < SIMPLEFS_MAX_INODES && w.used[j] && j != i && 0 <= s < POINTERS
      ensures Role(w, j, s) != b
    {
      assert Role(w, j, s) == Role(v, j, s);
    }
  }

  // ---- steps of the layout --------------------------------------------------------

  lemma {:induction false} TakenStep(v: Volume, w: Volume, mine: set<nat>, b: nat, sector: seq<Byte>)
    requires Shaped(v) && Shaped(w) && Taken(v, w, mine)
    requires b < SIMPLEFS_DATA_BLOCKS && !w.bitmap[b] && |sector| == SECTOR_SIZE
    ensures b !in mine && !v.bitmap[b]
    ensures Taken(v, w.(bitmap := w.bitmap[b := true], blocks := w.blocks[b := sector]), mine + {b})
  {
    FreeCountUpdate(w.bitmap, b, true);
  }

  /** Setting the first unused pointer slot. */
  lemma {:induction false} PointerStep(all: seq<U32>, pointers: seq<U32>, n: nat, b: U32)
    requires |pointers| < n && all == pointers + Invalids(n - |pointers|)
    ensures all[|pointers| := b] == pointers + [b] + Invalids(n - |pointers| - 1)
  {
  }

  /** A block has been taken and filled; it is not a file block yet. */
  lemma {:induction false} BlockTaken(v: Volume, w: Volume, i: nat, table: seq<U32>, pointers: seq<U32>, mine: set<nat>, b: nat, sector: seq<Byte>)
    requires Shaped(v) && i < SIMPLEFS_MAX_INODES && Laid(v, w, i, table, pointers, mine)
    requires b < SIMPLEFS_DATA_BLOCKS && !w.bitmap[b] && |sector| == SECTOR_SIZE
    ensures var x := w.(bitmap := w.bitmap[b := true], blocks := w.blocks[b := sector]);
            && Laid(v, x, i, table, pointers, mine + {b})
            && Concat(x.blocks, pointers) == Concat(w.blocks, pointers)
    ensures b !in mine && b !in pointers && b != w.inodes[i].indirect
  {
    var x := w.(bitmap := w.bitmap[b := true], blocks := w.blocks[b := sector]);
    TakenStep(v, w, mine, b, sector);
    ConcatFrame(w.blocks, x.blocks, pointers);
  }

  /** The sixth block is in place and the indirect block has been taken. */
  lemma {:induction false} IndirectTaken(v: Volume, w: Volume, i: nat, table: seq<U32>, pointers: seq<U32>, mine: set<nat>, b: nat)
    requires Shaped(v) && i < SIMPLEFS_MAX_INODES && Laid(v, w, i, table, pointers, mine)
    requires |pointers| == SIMPLEFS_DIRECT_BLOCKS && w.inodes[i].indirect == SIMPLEFS_INVALID_BLOCK
    requires b < SIMPLEFS_DATA_BLOCKS && !w.bitmap[b]
    ensures table == Invalids(SIMPLEFS_INDIRECT_ENTRIES)
    ensures var x := w.(bitmap := w.bitmap[b := true], blocks := w.blocks[b := EncodeTable(table)],
                        inodes := w.inodes[i := w.inodes[i].(indirect := b)]);
            && Laid(v, x, i, table, pointers, mine + {b})
            && Concat(x.blocks, pointers) == Concat(w.blocks, pointers)
    ensures b !in mine
  {
    assert table == (w.inodes[i].direct + table)[SIMPLEFS_DIRECT_BLOCKS..];
    assert table == (pointers + Invalids(SIMPLEFS_INDIRECT_ENTRIES))[SIMPLEFS_DIRECT_BLOCKS..];
    BlockTaken(v, w, i, table, pointers, mine, b, EncodeTable(table));
  }

  lemma {:induction false} DirectSlot(direct: seq<U32>, table: seq<U32>, pointers: seq<U32>, b: U32)
    requires SlotsHold(direct, table, pointers) && |pointers| < SIMPLEFS_DIRECT_BLOCKS
    ensures SlotsHold(direct[|pointers| := b], table, pointers + [b])
  {
    PointerStep(direct + table, pointers, INDIRECT_ROLE, b);
    assert direct[|pointers| := b] + table == (direct + table)[|pointers| := b];
  }

  lemma {:induction false} TableSlot(direct: seq<U32>, table: seq<U32>, pointers: seq<U32>, b: U32)
    requires SlotsHold(direct, table, pointers) && SIMPLEFS_DIRECT_BLOCKS <= |pointers| < INDIRECT_ROLE
    requires |table| == SIMPLEFS_INDIRECT_ENTRIES
    ensures SlotsHold(direct, table[|pointers| - SIMPLEFS_DIRECT_BLOCKS := b], pointers + [b])
  {
    PointerStep(direct + table, pointers, INDIRECT_ROLE, b);
    assert direct + table[|pointers| - SIMPLEFS_DIRECT_BLOCKS := b] == (direct + table)[|pointers| := b];
  }

  /** A taken block becomes the next block of the file. */
  lemma {:induction false} PointerPlaced(v: Volume, w: Volume, x: Volume, i: nat, table: seq<U32>, longer: seq<U32>,
                      pointers: seq<U32>, mine: set<nat>, b: U32)
    requires Shaped(v) && i < SIMPLEFS_MAX_INODES && Laid(v, w, i, table, pointers, mine)
    requires |pointers| < INDIRECT_ROLE && b in mine && b !in pointers && b != w.inodes[i].indirect
    requires |pointers| >= SIMPLEFS_DIRECT_BLOCKS ==> w.inodes[i].indirect != SIMPLEFS_INVALID_BLOCK
    requires x.used == w.used && x.bitmap == w.bitmap && x.blocks == w.blocks && |x.inodes| == |w.inodes|
    requires x.inodes == w.inodes[i := w.inodes[i].(direct := x.inodes[i].direct)]
    requires SlotsHold(x.inodes[i].direct, longer, pointers + [b])
    ensures Laid(v, x, i, longer, pointers + [b], mine)
    ensures Concat(x.blocks, pointers + [b]) == Concat(w.blocks, pointers) + w.blocks[b]
  {
    assert (pointers + [b])[..|pointers|] == pointers;
  }

  lemma {:induction false} LaidFacts(v: Volume, w: Volume, i: nat, table: seq<U32>, pointers: seq<U32>, mine: set<nat>)
    requires Shaped(v) && i < SIMPLEFS_MAX_INODES && Laid(v, w, i, table, pointers, mine)
    ensures Shaped(w) && SIMPLEFS_INVALID_BLOCK !in mine && forall k :: 0 <= k < |pointers| ==> pointers[k] < SIMPLEFS_DATA_BLOCKS
  {
  }

  lemma {:induction false} LayingFacts(v: Volume, w: Volume, i: nat, table: seq<U32>, pointers: seq<U32>, mine: set<nat>)
    requires Shaped(v) && i < SIMPLEFS_MAX_INODES && Laying(v, w, i, table, pointers, mine)
    ensures Laid(v, w, i, table, pointers, mine) && |table| == SIMPLEFS_INDIRECT_ENTRIES && Shaped(w)
    ensures w.inodes[i].indirect == SIMPLEFS_INVALID_BLOCK <==> |pointers| <= SIMPLEFS_DIRECT_BLOCKS
    ensures |mine| == |pointers| + (if |pointers| > SIMPLEFS_DIRECT_BLOCKS then 1 else 0)
    ensures forall b :: b in mine ==> b in pointers || b == w.inodes[i].indirect
    ensures SIMPLEFS_INVALID_BLOCK !in mine && forall k :: 0 <= k < |pointers| ==> pointers[k] < SIMPLEFS_DATA_BLOCKS
  {
  }

  lemma {:induction false} LayingGoesOn(v: Volume, w: Volume, i: nat, table: seq<U32>, pointers: seq<U32>, mine: set<nat>)
    requires Shaped(v) && i < SIMPLEFS_MAX_INODES && Laid(v, w, i, table, pointers, mine) && |table| == SIMPLEFS_INDIRECT_ENTRIES
    requires Shaped(w) && (w.inodes[i].indirect == SIMPLEFS_INVALID_BLOCK <==> |pointers| <= SIMPLEFS_DIRECT_BLOCKS)
    requires |mine| == |pointers| + (if |pointers| > SIMPLEFS_DIRECT_BLOCKS then 1 else 0)
    requires forall b :: b in mine ==> b in pointers || b == w.inodes[i].indirect
    ensures Laying(v, w, i, table, pointers, mine)
    ensures forall k :: 0 <= k < |pointers| ==> pointers[k] < SIMPLEFS_DATA_BLOCKS
  {
  }

  lemma {:induction false} StoppedEarly(v: Volume, w: Volume, i: nat, table: seq<U32>, pointers: seq<U32>, mine: set<nat>)
    requires Shaped(v) && i < SIMPLEFS_MAX_INODES && Laying(v, w, i, table, pointers, mine) && FreeCount(w.bitmap) == 0
    ensures Stopped(v, w, i, table, pointers, mine)
  {
  }

  /** No block was left for the indirect table: the block just taken stays unreachable. */
  lemma {:induction false} StoppedOnIndirect(v: Volume, w: Volume, i: nat, table: seq<U32>, pointers: seq<U32>, mine: set<nat>, block: nat)
    requires Shaped(v) && i < SIMPLEFS_MAX_INODES && Laid(v, w, i, table, pointers, mine + {block}) && FreeCount(w.bitmap) == 0
    requires Shaped(w) && w.inodes[i].indirect == SIMPLEFS_INVALID_BLOCK && |pointers| == SIMPLEFS_DIRECT_BLOCKS
    requires |mine| == |pointers| && block !in mine
    ensures Stopped(v, w, i, table, pointers, mine + {block})
  {
  }

  lemma {:induction false} CoverStep(pointers: seq<U32>, mine: set<nat>, b: U32, indirect: U32, after: U32)
    requires forall x :: x in mine ==> x in pointers || x == indirect
    requires indirect == after || indirect == SIMPLEFS_INVALID_BLOCK
    requires SIMPLEFS_INVALID_BLOCK !in mine
    ensures forall x :: x in mine + {b} + {after} ==> x in pointers + [b] || x == after
    ensures forall x :: x in mine + {b} ==> x in pointers + [b] || x == after
  {
  }

  /** The bytes laid out so far, after one more block. */
  lemma {:induction false} WrittenStep(before: seq<Byte>, data: seq<Byte>, written: nat, toWrite: nat)
    requires |before| == written && written + toWrite <= |data| && toWrite <= SECTOR_SIZE
    requires before == data[..written]
    ensures (before + (data[written..written + toWrite] + Zeros(SECTOR_SIZE - toWrite)))[..written + toWrite]
         == data[..written + toWrite]
  {
  }

  lemma {:induction false} CountAppend(a: seq<U32>, b: seq<U32>, limit: nat)
    ensures CountBelow(a + b, limit) == CountBelow(a, limit) + CountBelow(b, limit)
  {
    if b == [] {
      assert a + b == a;
    } else {
      assert (a + b)[..|a + b| - 1] == a + b[..|b| - 1];
      CountAppend(a, b[..|b| - 1], limit);
    }
  }

  lemma {:induction false} CountAll(a: seq<U32>, limit: nat)
    ensures (forall k :: 0 <= k < |a| ==> a[k] < limit) ==> CountBelow(a, limit) == |a|
    ensures (forall k :: 0 <= k < |a| ==> a[k] >= limit) ==> CountBelow(a, limit) == 0
  {
    if a != [] {
      CountAll(a[..|a| - 1], limit);
    }
  }

  /** The pointers of an inode are `pointers`, nothing, and the indirect block. */
  ghost predicate PointerList(blocks: seq<seq<Byte>>, inode: Inode, pointers: seq<U32>)
    requires BlocksShaped(blocks) && InodeShaped(inode)
  {
    && |pointers| <= INDIRECT_ROLE
    && AllPointers(blocks, inode) == pointers + Invalids(INDIRECT_ROLE - |pointers|) + [inode.indirect]
  }

  lemma {:induction false} Pointed(v: Volume, w: Volume, i: nat, pointers: seq<U32>, mine: set<nat>)
    requires Shaped(v) && Shaped(w) && i < SIMPLEFS_MAX_INODES
    requires w.used == v.used && w.inodes == v.inodes[i := w.inodes[i]]
    requires Taken(v, w, mine) && Distinct(pointers, mine)
    requires InodeShaped(w.inodes[i]) && PointerList(w.blocks, w.inodes[i], pointers)
    requires w.inodes[i].size <= SIMPLEFS_MAX_FILE_SIZE && RequiredBlocks(w.inodes[i].size) <= |pointers|
    requires w.inodes[i].indirect == SIMPLEFS_INVALID_BLOCK
             || (w.inodes[i].indirect in mine && w.inodes[i].indirect !in pointers)
    ensures Points(v, w, i, pointers, mine)
  {
    var all := AllPointers(w.blocks, w.inodes[i]);
    forall r | 0 <= r < INDIRECT_ROLE
      ensures all[r] == if r < |pointers| then pointers[r] else SIMPLEFS_INVALID_BLOCK
    {
    }
    assert all[INDIRECT_ROLE] == w.inodes[i].indirect;
    assert InodeOk(w.blocks, w.inodes[i]);
  }

  lemma {:induction false} CountPointers(blocks: seq<seq<Byte>>, inode: Inode, pointers: seq<U32>)
    requires BlocksShaped(blocks) && InodeShaped(inode) && PointerList(blocks, inode, pointers)
    requires forall k :: 0 <= k < |pointers| ==> pointers[k] < SIMPLEFS_DATA_BLOCKS
    ensures CountBelow(AllPointers(blocks, inode), SIMPLEFS_DATA_BLOCKS)
         == |pointers| + if inode.indirect == SIMPLEFS_INVALID_BLOCK then 0 else 1
  {
    var rest := Invalids(INDIRECT_ROLE - |pointers|);
    CountAppend(pointers + rest, [inode.indirect], SIMPLEFS_DATA_BLOCKS);
    CountAppend(pointers, rest, SIMPLEFS_DATA_BLOCKS);
    CountAll(pointers, SIMPLEFS_DATA_BLOCKS);
    CountAll(rest, SIMPLEFS_DATA_BLOCKS);
    CountAll([inode.indirect], SIMPLEFS_DATA_BLOCKS);
  }

  /** The direct pointers, which are all that a layout that stops short leaves findable. */
  function DirectPart(pointers: seq<U32>): seq<U32> {
    if |pointers| <= SIMPLEFS_DIRECT_BLOCKS then pointers else pointers[..SIMPLEFS_DIRECT_BLOCKS]
  }

  lemma {:induction false} ShortList(v: Volume, w: Volume, i: nat, table: seq<U32>, pointers: seq<U32>, mine: set<nat>)
    requires Shaped(v) && i < SIMPLEFS_MAX_INODES && Laid(v, w, i, table, pointers, mine)
    ensures InodeShaped(w.inodes[i]) && PointerList(w.blocks, w.inodes[i], DirectPart(pointers))
  {
    var inode := w.inodes[i];
    TableRoundTrip(Invalids(SIMPLEFS_INDIRECT_ENTRIES));
    assert IndirectTable(w.blocks, inode) == Invalids(SIMPLEFS_INDIRECT_ENTRIES);
    DirectSlots(inode.direct, table, pointers);
  }

  lemma {:induction false} DirectSlots(direct: seq<U32>, table: seq<U32>, pointers: seq<U32>)
    requires SlotsHold(direct, table, pointers)
    ensures direct + Invalids(SIMPLEFS_INDIRECT_ENTRIES)
         == DirectPart(pointers) + Invalids(INDIRECT_ROLE - |DirectPart(pointers)|)
  {
    assert direct == (pointers + Invalids(INDIRECT_ROLE - |pointers|))[..SIMPLEFS_DIRECT_BLOCKS];
  }

  /** A layout that stops short leaves a sound volume in which the inode is empty. */
  lemma {:induction false} LaidShort(v: Volume, w: Volume, i: nat, table: seq<U32>, pointers: seq<U32>, mine: set<nat>)
    requires Sound(v) && i < SIMPLEFS_MAX_INODES && v.used[i] && v.inodes[i] == Emptied(v.inodes[i])
    requires Laid(v, w, i, table, pointers, mine)
    ensures Sound(w) && Rewritten(v, w, i, [])
    ensures OwnedCount(w, i) == if w.inodes[i].indirect == SIMPLEFS_INVALID_BLOCK then |pointers| else SIMPLEFS_DIRECT_BLOCKS + 1
  {
    var direct := DirectPart(pointers);
    ShortList(v, w, i, table, pointers, mine);
    CountPointers(w.blocks, w.inodes[i], direct);
    Pointed(v, w, i, direct, mine);
    LaidIsSound(v, w, i, direct, mine);
    assert Content(w.blocks, w.inodes[i]) == [];
  }

  lemma {:induction false} FullList(v: Volume, w: Volume, x: Volume, i: nat, table: seq<U32>, pointers: seq<U32>, mine: set<nat>)
    requires Shaped(v) && i < SIMPLEFS_MAX_INODES && Laid(v, w, i, table, pointers, mine)
    requires w.inodes[i].indirect == SIMPLEFS_INVALID_BLOCK <==> |pointers| <= SIMPLEFS_DIRECT_BLOCKS
    requires Shaped(x) && |x.inodes| == |w.inodes|
    requires x.inodes[i].direct == w.inodes[i].direct && x.inodes[i].indirect == w.inodes[i].indirect
    requires w.inodes[i].indirect != SIMPLEFS_INVALID_BLOCK ==> x.blocks[w.inodes[i].indirect] == EncodeTable(table)
    ensures InodeShaped(x.inodes[i]) && PointerList(x.blocks, x.inodes[i], pointers)
  {
    TableRoundTrip(table);
    var all := pointers + Invalids(INDIRECT_ROLE - |pointers|);
    assert x.inodes[i].direct + table == all;
    if w.inodes[i].indirect == SIMPLEFS_INVALID_BLOCK {
      assert table == all[SIMPLEFS_DIRECT_BLOCKS..];
      assert table == Invalids(SIMPLEFS_INDIRECT_ENTRIES);
    }
    assert IndirectTable(x.blocks, x.inodes[i]) == table;
  }

  lemma {:induction false} FullContent(blocks: seq<seq<Byte>>, after: seq<seq<Byte>>, inode: Inode, pointers: seq<U32>, mine: set<nat>, data: seq<Byte>)
    requires BlocksShaped(blocks) && BlocksShaped(after) && InodeOk(after, inode) && inode.size == |data|
    requires PointerList(after, inode, pointers) && Distinct(pointers, mine)
    requires |pointers| == RequiredBlocks(|data|)
    requires Concat(blocks, pointers)[..|data|] == data
    requires forall b :: 0 <= b < SIMPLEFS_DATA_BLOCKS && b != inode.indirect ==> after[b] == blocks[b]
    requires inode.indirect !in pointers
    ensures Content(after, inode) == data
  {
    assert FilePointers(after, inode) == pointers;
    ConcatFrame(blocks, after, pointers);
  }

  /** A completed layout: with its table on disk and its size set, the inode holds the data. */
  lemma {:induction false} LaidFully(v: Volume, w: Volume, x: Volume, i: nat, table: seq<U32>, pointers: seq<U32>, mine: set<nat>, data: seq<Byte>)
    requires Sound(v) && i < SIMPLEFS_MAX_INODES && v.used[i] && v.inodes[i] == Emptied(v.inodes[i])
    requires Laying(v, w, i, table, pointers, mine) && Shaped(x)
    requires |data| <= SIMPLEFS_MAX_FILE_SIZE && |pointers| == RequiredBlocks(|data|)
    requires Concat(w.blocks, pointers)[..|data|] == data
    requires x.used == w.used && x.bitmap == w.bitmap && x.inodes == w.inodes[i := w.inodes[i].(size := |data|)]
    requires forall b :: 0 <= b < SIMPLEFS_DATA_BLOCKS && b != w.inodes[i].indirect ==> x.blocks[b] == w.blocks[b]
    requires w.inodes[i].indirect != SIMPLEFS_INVALID_BLOCK ==> x.blocks[w.inodes[i].indirect] == EncodeTable(table)
    ensures Sound(x) && Rewritten(v, x, i, data) && OwnedCount(x, i) == NeededBlocks(|data|)
  {
    FullList(v, w, x, i, table, pointers, mine);
    assert Taken(v, x, mine);
    Pointed(v, x, i, pointers, mine);
    FullContent(w.blocks, x.blocks, x.inodes[i], pointers, mine, data);
    LaidIsSound(v, x, i, pointers, mine);
    CountPointers(x.blocks, x.inodes[i], pointers);
  }
}
