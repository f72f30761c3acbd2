/** The block and inode layer of SimpleFS, updated in place. Sector transfers succeed;
    running out of blocks or inodes is a real failure. */
module FsBlockStore {
  import opened Machine
  import opened Bitmap
  import opened FsLayout
  import opened FsVolume
  import opened FsAccount
  import opened FsLedger
  import opened FsStore
  import opened FsFiles

  const NO_INODE := Inode(FreeInode, 0, 0, seq(SIMPLEFS_DIRECT_BLOCKS, _ => 0), 0)

  /** The layout constants a mount checks. */
  predicate WellKnown(boot: BootBlock, info: InfoBlock) {
    && boot.magic == SIMPLEFS_BOOT_MAGIC && boot.version == SIMPLEFS_VERSION
    && info.magic == SIMPLEFS_MAGIC && info.version == SIMPLEFS_VERSION
    && info.rootInode == SIMPLEFS_ROOT_INODE
    && info.inodeTableLba == SIMPLEFS_INODE_TABLE_LBA
    && info.inodeTableSectors == SIMPLEFS_INODE_TABLE_SECTORS
    && info.dataLba == SIMPLEFS_DATA_LBA
    && info.inodeCount == SIMPLEFS_MAX_INODES
    && info.dataBlockCount == SIMPLEFS_DATA_BLOCKS
    && info.directBlocks == SIMPLEFS_DIRECT_BLOCKS
    && info.indirectEntries == SIMPLEFS_INDIRECT_ENTRIES
  }

  class BlockStore {
    // RAM images of the metadata.
    var boot: BootBlock
    var info: InfoBlock
    var inodes: seq<Inode>
    // The disk: the three metadata areas and the data sectors.
    var diskBoot: BootBlock
    var diskInfo: InfoBlock
    var diskInodes: seq<Inode>
    var blocks: seq<seq<Byte>>

    ghost function View(): Volume
      reads this
    {
      Volume(info.inodeBitmap, inodes, info.dataBitmap, blocks)
    }

    ghost predicate Valid()
      reads this
    {
      Sound(View())
    }

    /** The metadata on disk is what RAM holds. */
    ghost predicate Synced()
      reads this
    {
      diskBoot == boot && diskInfo == info && diskInodes == inodes
    }

    /** Only bitmaps, inodes and blocks may differ from `was`. */
    twostate predicate LayoutKept()
      reads this
    {
      boot == old(boot) && info == old(info).(inodeBitmap := info.inodeBitmap, dataBitmap := info.dataBitmap)
    }

    method WriteMetadata()
      modifies this`diskInfo, this`diskInodes
      ensures diskInfo == info && diskInodes == inodes
    {
      diskInfo := info;
      diskInodes := inodes;
    }

    /** First fit; the block is zeroed on disk. */
    method AllocateDataBlock() returns (ok: bool, block: U32)
      requires Shaped(View())
      modifies this`info, this`blocks
      ensures ok <==> FreeCount(old(info.dataBitmap)) > 0
      ensures !ok ==> info == old(info) && blocks == old(blocks)
      ensures ok ==>
                && block < SIMPLEFS_DATA_BLOCKS && !old(info.dataBitmap)[block]
                && (forall b :: 0 <= b < block ==> old(info.dataBitmap)[b])
                && info == old(info).(dataBitmap := old(info.dataBitmap)[block := true])
                && blocks == old(blocks)[block := Zeros(SECTOR_SIZE)]
    {
      NoneFree(info.dataBitmap);
      for b := 0 to SIMPLEFS_DATA_BLOCKS
        invariant info == old(info) && blocks == old(blocks)
        invariant forall k :: 0 <= k < b ==> info.dataBitmap[k]
      {
        if !info.dataBitmap[b] {
          info := info.(dataBitmap := info.dataBitmap[b := true]);
          blocks := blocks[b := Zeros(SECTOR_SIZE)];
          return true, b;
        }
      }
      return false, 0;
    }

    /** Clears the bit of every valid pointer of a table. */
    method ClearBlocks(pointers: seq<U32>)
      requires |info.dataBitmap| == SIMPLEFS_DATA_BLOCKS
      requires forall k :: 0 <= k < |pointers| ==> ValidPointer(pointers[k])
      modifies this`info
      ensures info == old(info).(dataBitmap := Cleared(old(info.dataBitmap), pointers, |pointers|))
    {
      for k := 0 to |pointers|
        invariant info == old(info).(dataBitmap := Cleared(old(info.dataBitmap), pointers, k))
      {
        if pointers[k] != SIMPLEFS_INVALID_BLOCK {
          info := info.(dataBitmap := info.dataBitmap[pointers[k] := false]);
        }
      }
    }

    /** Clears the bits of the direct blocks, of every entry of the on-disk indirect
        table, and of the indirect block; metadata is not written back. */
    method FreeInodeBlocks(i: nat)
      requires Valid() && i < SIMPLEFS_MAX_INODES && info.inodeBitmap[i]
      modifies this`info, this`inodes
      ensures inodes == old(inodes)[i := Emptied(old(inodes)[i])]
      ensures info == old(info).(dataBitmap := info.dataBitmap)
      ensures Valid() && Rewritten(old(View()), View(), i, [])
      ensures FreeCount(info.dataBitmap) == FreeCount(old(info.dataBitmap)) + OwnedCount(old(View()), i)
      ensures Tight(old(View())) ==> Tight(View())
    {
      ghost var v := View();
      var inode := inodes[i];
      PointersValid(blocks, inode);
      ClearBlocks(inode.direct);
      inodes := inodes[i := inode.(direct := Invalids(SIMPLEFS_DIRECT_BLOCKS))];
      ghost var table := IndirectTable(blocks, inode);
      if inode.indirect != SIMPLEFS_INVALID_BLOCK {
        ClearBlocks(DecodeTable(blocks[inode.indirect]));
        ClearBlocks([inode.indirect]);
        inodes := inodes[i := inodes[i].(indirect := SIMPLEFS_INVALID_BLOCK)];
      }
      inodes := inodes[i := inodes[i].(size := 0)];
      ClearedAll(v.bitmap, inode.direct, table, inode.indirect);
      Freed(v, View(), i);
    }

    /** Takes the indirect block when the file first passes its direct blocks, and
        writes the table, still all invalid, to it. */
    method TakeIndirect(i: nat, table: seq<U32>, ghost v: Volume, ghost pointers: seq<U32>, ghost mine: set<nat>)
      returns (ok: bool, ghost ours: set<nat>)
      requires Shaped(v) && i < SIMPLEFS_MAX_INODES && Laid(v, View(), i, table, pointers, mine)
      requires |pointers| == SIMPLEFS_DIRECT_BLOCKS && inodes[i].indirect == SIMPLEFS_INVALID_BLOCK
      modifies this`info, this`inodes, this`blocks
      ensures info == old(info).(dataBitmap := info.dataBitmap)
      ensures Laid(v, View(), i, table, pointers, ours)
      ensures ok ==> inodes[i].indirect != SIMPLEFS_INVALID_BLOCK && inodes[i].indirect !in mine
      ensures ok ==> ours == mine + {inodes[i].indirect}
      ensures ok ==> Concat(blocks, pointers) == Concat(old(blocks), pointers)
      ensures ok ==> forall b :: b in mine ==> blocks[b] == old(blocks)[b]
      ensures !ok ==> FreeCount(info.dataBitmap) == 0 && ours == mine && inodes == old(inodes)
    {
      ours := mine;
      ghost var u := View();
      var indirect: U32;
      ok, indirect := AllocateDataBlock();
      if ok {
        inodes := inodes[i := inodes[i].(indirect := indirect)];
        blocks := blocks[indirect := EncodeTable(table)];
        IndirectTaken(v, u, i, table, pointers, mine, indirect);
        assert View() == u.(bitmap := u.bitmap[indirect := true], blocks := u.blocks[indirect := EncodeTable(table)],
                            inodes := u.inodes[i := u.inodes[i].(indirect := indirect)]);
        ours := mine + {indirect};
      }
    }

    /** Writes one more block of a file to a fresh block; it is not pointed to yet. */
    method WriteFreshBlock(i: nat, sector: seq<Byte>, ghost v: Volume, ghost table: seq<U32>, ghost pointers: seq<U32>, ghost mine: set<nat>)
      returns (ok: bool, block: U32)
      requires Shaped(v) && i < SIMPLEFS_MAX_INODES && Laid(v, View(), i, table, pointers, mine)
      requires |sector| == SECTOR_SIZE
      modifies this`info, this`blocks
      ensures info == old(info).(dataBitmap := info.dataBitmap)
      ensures ok ==>
                && block < SIMPLEFS_DATA_BLOCKS && block !in mine && block !in pointers && block != inodes[i].indirect
                && Laid(v, View(), i, table, pointers, mine + {block})
                && blocks[block] == sector
                && Concat(blocks, pointers) == Concat(old(blocks), pointers)
      ensures !ok ==> View() == old(View()) && FreeCount(info.dataBitmap) == 0
    {
      ghost var w := View();
      ok, block := AllocateDataBlock();
      if ok {
        blocks := blocks[block := sector];
        BlockTaken(v, w, i, table, pointers, mine, block, sector);
        assert View() == w.(bitmap := w.bitmap[block := true], blocks := w.blocks[block := sector]);
      }
    }

    /** Points the next slot of the file, direct or in the RAM table, to a taken block. */
    method PointTo(i: nat, logical: nat, block: U32, table: seq<U32>,
                   ghost v: Volume, ghost pointers: seq<U32>, ghost mine: set<nat>)
      returns (longer: seq<U32>)
      requires Shaped(v) && i < SIMPLEFS_MAX_INODES && Laid(v, View(), i, table, pointers, mine)
      requires |pointers| == logical < INDIRECT_ROLE && |table| == SIMPLEFS_INDIRECT_ENTRIES
      requires block < SIMPLEFS_DATA_BLOCKS && block in mine && block !in pointers && block != inodes[i].indirect
      requires logical >= SIMPLEFS_DIRECT_BLOCKS ==> inodes[i].indirect != SIMPLEFS_INVALID_BLOCK
      modifies this`inodes
      ensures Laid(v, View(), i, longer, pointers + [block], mine) && |longer| == SIMPLEFS_INDIRECT_ENTRIES
      ensures Concat(blocks, pointers + [block]) == Concat(blocks, pointers) + blocks[block]
      ensures inodes[i].indirect == old(inodes)[i].indirect
    {
      longer := table;
      ghost var w := View();
      if logical < SIMPLEFS_DIRECT_BLOCKS {
        DirectSlot(inodes[i].direct, table, pointers, block);
        inodes := inodes[i := inodes[i].(direct := inodes[i].direct[logical := block])];
      } else {
        TableSlot(inodes[i].direct, table, pointers, block);
        longer := table[logical - SIMPLEFS_DIRECT_BLOCKS := block];
      }
      PointerPlaced(v, w, View(), i, table, longer, pointers, mine, block);
    }

    /** Puts one more block of a file in place. */
    method PlaceBlock(i: nat, logical: nat, sector: seq<Byte>, table: seq<U32>,
                      ghost v: Volume, ghost pointers: seq<U32>, ghost mine: set<nat>)
      returns (ok: bool, longer: seq<U32>, ghost more: seq<U32>, ghost ours: set<nat>)
      requires Shaped(v) && i < SIMPLEFS_MAX_INODES && Laying(v, View(), i, table, pointers, mine)
      requires |sector| == SECTOR_SIZE && |pointers| == logical < INDIRECT_ROLE
      modifies this`info, this`inodes, this`blocks
      ensures info == old(info).(dataBitmap := info.dataBitmap)
      ensures ok ==> Laying(v, View(), i, longer, more, ours) && |more| == logical + 1
      ensures ok ==> Concat(blocks, more) == Concat(old(blocks), pointers) + sector
      ensures !ok ==> Stopped(v, View(), i, longer, more, ours) && more == pointers
    {
      hide FreeCount, Laying, Laid, Stopped, Concat;
      LayingFacts(v, View(), i, table, pointers, mine);
      longer, more, ours := table, pointers, mine;
      ghost var indirect := inodes[i].indirect;
      var block: U32;
      ok, block := WriteFreshBlock(i, sector, v, table, pointers, mine);
      if !ok {
        StoppedEarly(v, View(), i, table, pointers, mine);
        return;
      }
      ours := ours + {block};
      LaidFacts(v, View(), i, table, pointers, ours);
      if logical == SIMPLEFS_DIRECT_BLOCKS {
        ok, ours := TakeIndirect(i, table, v, pointers, ours);
        if !ok {
          StoppedOnIndirect(v, View(), i, table, pointers, mine, block);
          return;
        }
      }
      CoverStep(pointers, mine, block, indirect, inodes[i].indirect);
      longer := PointTo(i, logical, block, table, v, pointers, ours);
      more := pointers + [block];
      LayingGoesOn(v, View(), i, longer, more, ours);
    }

    /** Lays `data` out block by block in an emptied inode. The indirect table stays in
        RAM: on disk it is still all invalid. */
    method LayOut(i: nat, data: seq<Byte>)
      returns (ok: bool, table: seq<U32>, ghost pointers: seq<U32>, ghost mine: set<nat>)
      requires Shaped(View()) && i < SIMPLEFS_MAX_INODES && inodes[i] == Emptied(inodes[i])
      requires |data| <= SIMPLEFS_MAX_FILE_SIZE
      modifies this`info, this`inodes, this`blocks
      ensures info == old(info).(dataBitmap := info.dataBitmap)
      ensures ok ==> Laying(old(View()), View(), i, table, pointers, mine)
      ensures ok ==> |pointers| == RequiredBlocks(|data|) && Concat(blocks, pointers)[..|data|] == data
      ensures !ok ==> Stopped(old(View()), View(), i, table, pointers, mine) && |pointers| < RequiredBlocks(|data|)
    {
      ghost var v := View();
      table := Invalids(SIMPLEFS_INDIRECT_ENTRIES);
      pointers, mine := [], {};
      assert Laying(v, v, i, table, pointers, mine) by {
        assert EMPTY_POINTERS + table == pointers + Invalids(INDIRECT_ROLE);
      }
      hide Laying, Stopped, Concat;
      assert View() == v;
      var required := RequiredBlocks(|data|);
      var written := 0;
      for logical := 0 to required
        invariant info == old(info).(dataBitmap := info.dataBitmap)
        invariant Laying(v, View(), i, table, pointers, mine)
        invariant |pointers| == logical
        invariant written == if SECTOR_SIZE * logical <= |data| then SECTOR_SIZE * logical else |data|
        invariant Concat(blocks, pointers)[..written] == data[..written]
      {
        var toWrite := |data| - written;
        if toWrite > SECTOR_SIZE {
          toWrite := SECTOR_SIZE;
        }
        var sector := data[written..written + toWrite] + Zeros(SECTOR_SIZE - toWrite);
        WrittenStep(Concat(blocks, pointers), data, written, toWrite);
        ok, table, pointers, mine := PlaceBlock(i, logical, sector, table, v, pointers, mine);
        if !ok {
          return;
        }
        written := written + toWrite;
      }
      ok := true;
    }

    /** Replaces the whole content of an inode: frees its blocks, then lays out the new
        ones. It succeeds exactly when the free blocks and the inode's own cover what the
        data needs; otherwise the file ends up empty and `Leak` blocks stay marked. A volume
        without leaks stays one exactly if the write succeeds or `Leak` is 0. */
    method WriteInodeData(i: nat, data: seq<Byte>) returns (ok: bool)
      requires Valid()
      modifies this`info, this`inodes, this`blocks, this`diskInfo, this`diskInodes
      ensures Valid() && LayoutKept()
      ensures !CanWrite(old(View()), i, data) ==> !ok && View() == old(View()) && info == old(info)
                                                  && diskInfo == old(diskInfo) && diskInodes == old(diskInodes)
      ensures CanWrite(old(View()), i, data) ==>
                && Written(old(View()), View(), i, data, ok, SpareBlocks(old(View()), i))
                && diskInfo == info && diskInodes == inodes
    {
      if i >= SIMPLEFS_MAX_INODES || !info.inodeBitmap[i] || |data| > SIMPLEFS_MAX_FILE_SIZE {
        return false;
      }
      FreeInodeBlocks(i);
      ghost var v := View();
      ok := Fill(i, data);
      WriteMetadata();
      RewrittenTwice(old(View()), v, View(), i, [], if ok then data else []);
    }

    /** Lays data out in an inode without blocks. */
    method Fill(i: nat, data: seq<Byte>) returns (ok: bool)
      requires Valid() && CanWrite(View(), i, data) && inodes[i] == Emptied(inodes[i])
      modifies this`info, this`inodes, this`blocks
      ensures Valid() && info == old(info).(dataBitmap := info.dataBitmap)
      ensures Written(old(View()), View(), i, data, ok, FreeCount(old(info.dataBitmap)))
    {
      ghost var v := View();
      var table: seq<U32>;
      ghost var pointers: seq<U32>, mine: set<nat>;
      ok, table, pointers, mine := LayOut(i, data);
      if ok {
        Complete(i, data, table, v, pointers, mine);
      } else {
        Abandon(i, table, v, pointers, mine);
      }
    }

    /** The last steps of a write: the indirect table goes to disk, the size is set. */
    method Complete(i: nat, data: seq<Byte>, table: seq<U32>, ghost v: Volume, ghost pointers: seq<U32>, ghost mine: set<nat>)
      requires Sound(v) && i < SIMPLEFS_MAX_INODES && v.used[i] && v.inodes[i] == Emptied(v.inodes[i])
      requires Laying(v, View(), i, table, pointers, mine)
      requires |data| <= SIMPLEFS_MAX_FILE_SIZE && |pointers| == RequiredBlocks(|data|)
      requires Concat(blocks, pointers)[..|data|] == data
      modifies this`inodes, this`blocks
      ensures Valid() && Rewritten(v, View(), i, data) && OwnedCount(View(), i) == NeededBlocks(|data|)
      ensures inodes == old(inodes)[i := old(inodes)[i].(size := |data|)]
      ensures Tight(v) ==> Tight(View())
      ensures FreeCount(info.dataBitmap) == FreeCount(v.bitmap) - NeededBlocks(|data|)
    {
      ghost var w := View();
      if inodes[i].indirect != SIMPLEFS_INVALID_BLOCK {
        blocks := blocks[inodes[i].indirect := EncodeTable(table)];
      }
      inodes := inodes[i := inodes[i].(size := |data|)];
      LaidFully(v, w, View(), i, table, pointers, mine, data);
      NothingOwned(v, i);
      TightAfterRewrite(v, View(), i, 0);
    }

    /** The rollback of a write that ran out of blocks: it frees what the inode and the
        table on disk still name. */
    method Abandon(i: nat, ghost table: seq<U32>, ghost v: Volume, ghost pointers: seq<U32>, ghost mine: set<nat>)
      requires Sound(v) && i < SIMPLEFS_MAX_INODES && v.used[i] && v.inodes[i] == Emptied(v.inodes[i])
      requires Stopped(v, View(), i, table, pointers, mine)
      modifies this`info, this`inodes
      ensures Valid() && Rewritten(v, View(), i, []) && OwnedCount(View(), i) == 0
      ensures info == old(info).(dataBitmap := info.dataBitmap)
      ensures inodes == old(inodes)[i := Emptied(old(inodes)[i])]
      ensures FreeCount(info.dataBitmap) == FreeCount(v.bitmap) - Leak(FreeCount(v.bitmap))
      ensures Tight(v) ==> (Tight(View()) <==> Leak(FreeCount(v.bitmap)) == 0)
    {
      LaidShort(v, View(), i, table, pointers, mine);
      FreeInodeBlocks(i);
      NothingOwned(v, i);
      NothingOwned(View(), i);
      TightAfterRewrite(v, View(), i, Leak(FreeCount(v.bitmap)));
    }

    /** Reads up to `limit` bytes at `offset`, block by block through the direct pointers
        and the indirect table. */
    method ReadInodeBytes(i: nat, offset: nat, limit: nat) returns (ok: bool, buffer: seq<Byte>)
      requires Valid()
      ensures ok <==> Allocated(View(), i)
      ensures ok ==> buffer == Slice(Bytes(View(), i), offset, limit)
    {
      hide Content, FreeCount, NoSharing, Marked;
      buffer := [];
      if i >= SIMPLEFS_MAX_INODES || !info.inodeBitmap[i] {
        return false, buffer;
      }
      ok := true;
      var inode := inodes[i];
      if offset >= inode.size {
        return;
      }
      var remaining := inode.size - offset;
      if remaining > limit {
        remaining := limit;
      }
      ghost var content := Content(blocks, inode);
      var logical := offset / SECTOR_SIZE;
      var sectorOffset := offset % SECTOR_SIZE;
      while |buffer| < remaining
        invariant |buffer| <= remaining
        invariant 0 <= sectorOffset < SECTOR_SIZE
        invariant |buffer| < remaining ==> offset + |buffer| == SECTOR_SIZE * logical + sectorOffset
        invariant buffer == content[offset..offset + |buffer|]
      {
        var toCopy := remaining - |buffer|;
        if toCopy > SECTOR_SIZE - sectorOffset {
          toCopy := SECTOR_SIZE - sectorOffset;
        }
        var part := ReadBlockPart(inode, logical, sectorOffset, toCopy);
        SliceGrows(content, offset, |buffer|, toCopy);
        buffer := buffer + part;
        logical := logical + 1;
        sectorOffset := 0;
      }
    }

    /** A stretch of one block of the file, read from its sector. */
    method ReadBlockPart(inode: Inode, logical: nat, from: nat, n: nat) returns (part: seq<Byte>)
      requires Shaped(View()) && InodeOk(blocks, inode)
      requires n > 0 && from + n <= SECTOR_SIZE && SECTOR_SIZE * logical + from + n <= inode.size
      ensures part == Content(blocks, inode)[SECTOR_SIZE * logical + from..SECTOR_SIZE * logical + from + n]
    {
      SliceOfBlock(blocks, inode, logical, from, n);
      var block := FileBlock(inode, logical);
      part := blocks[block][from..from + n];
    }

    /** The block behind a logical block: a pointer of the inode or of its indirect table,
        and the invalid block past them. */
    method FileBlock(inode: Inode, logical: nat) returns (block: U32)
      requires Shaped(View()) && InodeOk(blocks, inode)
      ensures block == if logical < INDIRECT_ROLE then AllPointers(blocks, inode)[logical] else SIMPLEFS_INVALID_BLOCK
      ensures logical < RequiredBlocks(inode.size) ==> block == FilePointers(blocks, inode)[logical]
    {
      if logical < SIMPLEFS_DIRECT_BLOCKS {
        return inode.direct[logical];
      }
      if logical - SIMPLEFS_DIRECT_BLOCKS >= SIMPLEFS_INDIRECT_ENTRIES {
        return SIMPLEFS_INVALID_BLOCK;
      }
      assert AllPointers(blocks, inode)[logical] == IndirectTable(blocks, inode)[logical - SIMPLEFS_DIRECT_BLOCKS];
      if inode.indirect == SIMPLEFS_INVALID_BLOCK {
        return SIMPLEFS_INVALID_BLOCK;
      }
      return DecodeTable(blocks[inode.indirect])[logical - SIMPLEFS_DIRECT_BLOCKS];
    }

    /** Takes the first free inode; both metadata areas are written back. */
    method AllocateInode(kind: InodeKind) returns (ok: bool, i: nat)
      requires Valid()
      modifies this`info, this`inodes, this`diskInfo, this`diskInodes
      ensures Valid() && LayoutKept() && info.dataBitmap == old(info).dataBitmap
      ensures ok <==> exists j :: 0 <= j < SIMPLEFS_MAX_INODES && !old(info).inodeBitmap[j]
      ensures !ok ==> View() == old(View()) && info == old(info) && diskInfo == old(diskInfo) && diskInodes == old(diskInodes)
      ensures ok ==>
                && i < SIMPLEFS_MAX_INODES && !old(info).inodeBitmap[i] && info.inodeBitmap == old(info).inodeBitmap[i := true]
                && (forall j :: 0 <= j < i ==> old(info).inodeBitmap[j])
                && inodes == old(inodes)[i := inodes[i]] && inodes[i].kind == kind && inodes[i].size == 0
                && Rewritten(old(View()), View(), i, [])
                && OwnedCount(View(), i) == 0
                && diskInfo == info && diskInodes == inodes
                && (Tight(old(View())) ==> Tight(View()))
    {
      for k := 0 to SIMPLEFS_MAX_INODES
        invariant View() == old(View()) && info == old(info) && diskInfo == old(diskInfo) && diskInodes == old(diskInodes)
        invariant forall j :: 0 <= j < k ==> info.inodeBitmap[j]
      {
        if !info.inodeBitmap[k] {
          info := info.(inodeBitmap := info.inodeBitmap[k := true]);
          inodes := inodes[k := Inode(kind, if kind.Directory? then 2 else 1, 0, EMPTY_POINTERS, SIMPLEFS_INVALID_BLOCK)];
          InodeAdded(old(View()), View(), k);
          EmptyInodeIsOk(blocks, inodes[k]);
          CountAll(Invalids(POINTERS), SIMPLEFS_DATA_BLOCKS);
          WriteMetadata();
          return true, k;
        }
      }
      return false, 0;
    }

    /** Frees an inode's blocks and the inode itself; the root is never released. */
    method ReleaseInode(i: nat) returns (ok: bool)
      requires Valid()
      modifies this`info, this`inodes, this`diskInfo, this`diskInodes
      ensures Valid() && LayoutKept()
      ensures ok <==> Allocated(old(View()), i) && i != SIMPLEFS_ROOT_INODE
      ensures !ok ==> View() == old(View()) && info == old(info) && diskInfo == old(diskInfo) && diskInodes == old(diskInodes)
      ensures ok ==>
                && info.inodeBitmap == old(info).inodeBitmap[i := false]
                && inodes == old(inodes)[i := NO_INODE]
                && Removed(old(View()), View(), i)
                && FreeCount(info.dataBitmap) == FreeCount(old(info).dataBitmap) + OwnedCount(old(View()), i)
                && diskInfo == info && diskInodes == inodes
                && (Tight(old(View())) ==> Tight(View()))
    {
      if i >= SIMPLEFS_MAX_INODES || !info.inodeBitmap[i] || i == SIMPLEFS_ROOT_INODE {
        return false;
      }
      FreeInodeBlocks(i);
      ghost var v := View();
      inodes := inodes[i := NO_INODE];
      info := info.(inodeBitmap := info.inodeBitmap[i := false]);
      InodeRemoved(v, View(), i);
      WriteMetadata();
      return true;
    }

    /** Builds the metadata of an empty volume whose root inode is a directory without
        content yet, and writes it to disk. */
    method FormatMetadata()
      requires BlocksShaped(blocks)
      modifies this`boot, this`info, this`inodes, this`diskBoot, this`diskInfo, this`diskInodes
      ensures Valid() && Synced() && WellKnown(boot, info) && Tight(View())
      ensures forall i :: 0 <= i < SIMPLEFS_MAX_INODES ==> (info.inodeBitmap[i] <==> i == SIMPLEFS_ROOT_INODE)
      ensures OwnedCount(View(), SIMPLEFS_ROOT_INODE) == 0
      ensures inodes[SIMPLEFS_ROOT_INODE].kind == Directory && Bytes(View(), SIMPLEFS_ROOT_INODE) == []
      ensures SpareBlocks(View(), SIMPLEFS_ROOT_INODE) == SIMPLEFS_DATA_BLOCKS
    {
      boot := BootBlock(SIMPLEFS_BOOT_MAGIC, SIMPLEFS_VERSION, SIMPLEFS_ROOT_INODE);
      info := InfoBlock(SIMPLEFS_MAGIC, SIMPLEFS_VERSION, SIMPLEFS_ROOT_INODE,
                        SIMPLEFS_INODE_TABLE_LBA, SIMPLEFS_INODE_TABLE_SECTORS, SIMPLEFS_DATA_LBA,
                        SIMPLEFS_MAX_INODES, SIMPLEFS_DATA_BLOCKS, SIMPLEFS_DIRECT_BLOCKS, SIMPLEFS_INDIRECT_ENTRIES,
                        seq(SIMPLEFS_MAX_INODES, _ => false), seq(SIMPLEFS_DATA_BLOCKS, _ => false));
      inodes := seq(SIMPLEFS_MAX_INODES, _ => Emptied(NO_INODE));
      ghost var v := View();
      AllFree(info.dataBitmap);
      info := info.(inodeBitmap := info.inodeBitmap[SIMPLEFS_ROOT_INODE := true]);
      inodes := inodes[SIMPLEFS_ROOT_INODE := inodes[SIMPLEFS_ROOT_INODE].(kind := Directory, linkCount := 2)];
      InodeAdded(v, View(), SIMPLEFS_ROOT_INODE);
      EmptyInodeIsOk(blocks, inodes[SIMPLEFS_ROOT_INODE]);
      CountAll(Invalids(POINTERS), SIMPLEFS_DATA_BLOCKS);
      diskBoot := boot;
      WriteMetadata();
    }

    /** Reads the metadata back from disk and checks it: what mounting does. */
    method ReadMetadata() returns (ok: bool)
      requires |diskInfo.inodeBitmap| == |diskInodes| == SIMPLEFS_MAX_INODES
      modifies this`boot, this`info, this`inodes
      ensures boot == diskBoot && info == diskInfo
      ensures ok <==> WellKnown(diskBoot, diskInfo) && diskInfo.inodeBitmap[SIMPLEFS_ROOT_INODE]
                      && diskInodes[SIMPLEFS_ROOT_INODE].kind == Directory
      ensures ok ==> inodes == diskInodes
    {
      boot := diskBoot;
      info := diskInfo;
      if !WellKnown(boot, info) {
        return false;
      }
      inodes := diskInodes;
      return info.inodeBitmap[SIMPLEFS_ROOT_INODE] && inodes[SIMPLEFS_ROOT_INODE].kind == Directory;
    }

    /** `link_count` of a directory goes up or down, a statistic only. */
    method SetLinkCount(i: nat, count: nat)
      requires Valid() && i < SIMPLEFS_MAX_INODES
      modifies this`inodes, this`diskInodes
      ensures Valid() && inodes == old(inodes)[i := old(inodes)[i].(linkCount := count)]
      ensures forall j :: 0 <= j < SIMPLEFS_MAX_INODES && info.inodeBitmap[j] ==>
                Bytes(View(), j) == Bytes(old(View()), j) && OwnedCount(View(), j) == OwnedCount(old(View()), j)
      ensures Tight(old(View())) ==> Tight(View())
      ensures diskInodes == inodes
    {
      inodes := inodes[i := inodes[i].(linkCount := count)];
      diskInodes := inodes;
      LinkCountOnly(old(View()), View(), i);
    }
  }

  ghost predicate CanWrite(v: Volume, i: nat, data: seq<Byte>) {
    Allocated(v, i) && |data| <= SIMPLEFS_MAX_FILE_SIZE
  }

  /** The outcome of rewriting inode `i` with `spare` blocks to use. */
  ghost predicate Written(v: Volume, w: Volume, i: nat, data: seq<Byte>, ok: bool, spare: nat)
    requires Sound(v) && Sound(w) && Allocated(v, i)
  {
    && (ok <==> NeededBlocks(|data|) <= spare)
    && w.used == v.used
    && Rewritten(v, w, i, if ok then data else [])
    && |w.inodes| == |v.inodes| && SameKind(v.inodes[i], w.inodes[i]) && w.inodes == v.inodes[i := w.inodes[i]]
    && FreeCount(w.bitmap) == spare - (if ok then NeededBlocks(|data|) else Leak(spare))
    && OwnedCount(w, i) == (if ok then NeededBlocks(|data|) else 0)
    && (Tight(v) ==> (Tight(w) <==> ok || Leak(spare) == 0))
  }

  lemma {:induction false} NothingOwned(v: Volume, i: nat)
    requires Sound(v) && i < SIMPLEFS_MAX_INODES && v.used[i] && v.inodes[i] == Emptied(v.inodes[i])
    ensures OwnedCount(v, i) == 0
  {
    EmptyInodeIsOk(v.blocks, v.inodes[i]);
    NoBlocks(POINTERS);
  }

  lemma {:induction false} NoBlocks(n: nat)
    ensures CountBelow(Invalids(n), SIMPLEFS_DATA_BLOCKS) == 0
  {
    if n > 0 {
      NoBlocks(n - 1);
      assert Invalids(n)[..n - 1] == Invalids(n - 1);
    }
  }

  predicate SameKind(a: Inode, b: Inode) {
    a.kind == b.kind && a.linkCount == b.linkCount
  }

  lemma {:induction false} RewrittenTwice(v: Volume, w: Volume, x: Volume, i: nat, first: seq<Byte>, second: seq<Byte>)
    requires Sound(v) && Sound(w) && Sound(x)
    requires Rewritten(v, w, i, first) && Rewritten(w, x, i, second)
    ensures Rewritten(v, x, i, second)
  {
  }

  /** The free blocks and those the inode holds now: what a rewrite can use. */
  ghost function SpareBlocks(v: Volume, i: nat): nat
    requires Sound(v) && Allocated(v, i)
  {
    FreeCount(v.bitmap) + OwnedCount(v, i)
  }


  /** A stretch within one block of a file is that stretch of its content. */
  lemma {:induction false} SliceOfBlock(blocks: seq<seq<Byte>>, inode: Inode, k: nat, from: nat, n: nat)
    requires BlocksShaped(blocks) && InodeOk(blocks, inode)
    requires from + n <= SECTOR_SIZE && SECTOR_SIZE * k + from + n <= inode.size && n > 0
    ensures k < RequiredBlocks(inode.size)
    ensures blocks[FilePointers(blocks, inode)[k]][from..from + n]
         == Content(blocks, inode)[SECTOR_SIZE * k + from..SECTOR_SIZE * k + from + n]
  {
    var pointers := FilePointers(blocks, inode);
    ConcatSlice(blocks, pointers, k);
    SliceWithin(Concat(blocks, pointers), SECTOR_SIZE * k, SECTOR_SIZE * (k + 1), from, n);
    SliceWithin(Concat(blocks, pointers), 0, inode.size, SECTOR_SIZE * k + from, n);
  }

  lemma {:induction false} SliceWithin(s: seq<Byte>, a: nat, b: nat, from: nat, n: nat)
    requires a <= b <= |s| && from + n <= b - a
    ensures s[a..b][from..from + n] == s[a + from..a + from + n]
  {
    var left, right := s[a..b][from..from + n], s[a + from..a + from + n];
    assert forall k :: 0 <= k < |left| ==> left[k] == right[k];
  }

  lemma {:induction false} SliceGrows(s: seq<Byte>, from: nat, have: nat, more: nat)
    requires from + have + more <= |s|
    ensures s[from..from + have] + s[from + have..from + have + more] == s[from..from + have + more]
  {
  }
}
