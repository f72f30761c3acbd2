/** SimpleFS on disk: sectors of bytes, the tables kept in them, and what an inode
    and its blocks mean as a sequence of bytes. */
module FsLayout {
  import opened Machine
  import opened Bitmap

  const SECTOR_SIZE := 512
  const SIMPLEFS_BOOT_MAGIC := 0x544F4F42
  const SIMPLEFS_MAGIC := 0x34464E49
  const SIMPLEFS_VERSION := 2
  const SIMPLEFS_LBA_BASE := 4096
  const SIMPLEFS_INODE_TABLE_LBA := SIMPLEFS_LBA_BASE + 2
  const SIMPLEFS_INODE_TABLE_SECTORS := 8
  const SIMPLEFS_DATA_LBA := SIMPLEFS_INODE_TABLE_LBA + SIMPLEFS_INODE_TABLE_SECTORS
  const SIMPLEFS_MAX_INODES := 64
  const SIMPLEFS_DATA_BLOCKS := 2048
  const SIMPLEFS_DIRECT_BLOCKS := 6
  const SIMPLEFS_INDIRECT_ENTRIES := 128
  const SIMPLEFS_MAX_FILE_SIZE := 68608
  const SIMPLEFS_ROOT_INODE := 0
  const SIMPLEFS_INVALID_BLOCK: U32 := 0xFFFF_FFFF
  /** The pointers of an inode: six direct, one table of 128, and the table's own block. */
  const POINTERS := SIMPLEFS_DIRECT_BLOCKS + SIMPLEFS_INDIRECT_ENTRIES + 1
  const INDIRECT_ROLE := POINTERS - 1

  function Zeros(n: nat): (z: seq<Byte>)
    ensures |z| == n
  {
    seq(n, _ => 0)
  }

  datatype InodeKind = FreeInode | Regular | Directory

  datatype Inode = Inode(kind: InodeKind, linkCount: nat, size: nat, direct: seq<U32>, indirect: U32)

  datatype BootBlock = BootBlock(magic: nat, version: nat, rootInode: nat)

  datatype InfoBlock = InfoBlock(
    magic: nat, version: nat, rootInode: nat,
    inodeTableLba: nat, inodeTableSectors: nat, dataLba: nat,
    inodeCount: nat, dataBlockCount: nat, directBlocks: nat, indirectEntries: nat,
    inodeBitmap: seq<bool>, dataBitmap: seq<bool>)

  // ---- 32-bit tables in sectors ------------------------------------------------

  function EncodeWord(x: U32): (b: seq<Byte>)
    ensures |b| == 4
  {
    [x % 256, x / 256 % 256, x / 65536 % 256, x / 16777216]
  }

  function DecodeWord(b: seq<Byte>): (x: U32)
    requires |b| == 4
  {
    (b[0] as int) + 256 * (b[1] as int) + 65536 * (b[2] as int) + 16777216 * (b[3] as int)
  }

  function EncodeTable(t: seq<U32>): (b: seq<Byte>)
    ensures |b| == 4 * |t|
  {
    if t == [] then [] else EncodeTable(t[..|t| - 1]) + EncodeWord(t[|t| - 1])
  }

  function DecodeTable(b: seq<Byte>): (t: seq<U32>)
    requires |b| % 4 == 0
    ensures |t| == |b| / 4
  {
    if b == [] then [] else DecodeTable(b[..|b| - 4]) + [DecodeWord(b[|b| - 4..])]
  }

  lemma {:induction false} WordRoundTrip(x: U32)
    ensures DecodeWord(EncodeWord(x)) == x
  {
    var a, b := x / 256, x / 65536;
    assert x == x % 256 + 256 * a;
    assert a == a % 256 + 256 * b;
    assert b == b % 256 + 256 * (x / 16777216);
  }

  lemma {:induction false} TableRoundTrip(t: seq<U32>)
    ensures DecodeTable(EncodeTable(t)) == t
  {
    if t != [] {
      var front := EncodeTable(t[..|t| - 1]);
      var b := EncodeTable(t);
      assert b[..|b| - 4] == front && b[|b| - 4..] == EncodeWord(t[|t| - 1]);
      TableRoundTrip(t[..|t| - 1]);
      WordRoundTrip(t[|t| - 1]);
    }
  }

  /** Number `k` of a table takes bytes `4k` to `4k + 3` of its sector, the lowest first. */
  lemma {:induction false} TableOnDisk(t: seq<U32>, k: nat)
    requires k < |t|
    ensures var b := EncodeTable(t);
            t[k] == (b[4 * k] as int) + 0x100 * (b[4 * k + 1] as int) + 0x1_0000 * (b[4 * k + 2] as int) + 0x100_0000 * (b[4 * k + 3] as int)
  {
    var n := |t| - 1;
    if k < n {
      TableOnDisk(t[..n], k);
    } else {
      WordRoundTrip(t[k]);
    }
  }

  // ---- blocks of a file ----------------------------------------------------------

  function Invalids(n: nat): (t: seq<U32>)
    ensures |t| == n && forall k :: 0 <= k < n ==> t[k] == SIMPLEFS_INVALID_BLOCK
  {
    seq(n, _ => SIMPLEFS_INVALID_BLOCK)
  }

  ghost predicate BlocksShaped(blocks: seq<seq<Byte>>) {
    |blocks| == SIMPLEFS_DATA_BLOCKS && forall b :: 0 <= b < |blocks| ==> |blocks[b]| == SECTOR_SIZE
  }

  ghost predicate InodeShaped(inode: Inode) {
    && |inode.direct| == SIMPLEFS_DIRECT_BLOCKS
    && (inode.indirect == SIMPLEFS_INVALID_BLOCK || inode.indirect < SIMPLEFS_DATA_BLOCKS)
  }

  /** The indirect table, all invalid when the inode has none. */
  function IndirectTable(blocks: seq<seq<Byte>>, inode: Inode): (t: seq<U32>)
    requires BlocksShaped(blocks) && InodeShaped(inode)
    ensures |t| == SIMPLEFS_INDIRECT_ENTRIES
  {
    if inode.indirect == SIMPLEFS_INVALID_BLOCK then Invalids(SIMPLEFS_INDIRECT_ENTRIES)
    else DecodeTable(blocks[inode.indirect])
  }

  /** Every block pointer the inode has, in the order they are freed. */
  ghost function AllPointers(blocks: seq<seq<Byte>>, inode: Inode): (p: seq<U32>)
    requires BlocksShaped(blocks) && InodeShaped(inode)
    ensures |p| == POINTERS
  {
    inode.direct + IndirectTable(blocks, inode) + [inode.indirect]
  }

  function RequiredBlocks(size: nat): nat {
    (size + SECTOR_SIZE - 1) / SECTOR_SIZE
  }

  /** Blocks a file of this size takes, with its indirect block. */
  function NeededBlocks(size: nat): nat {
    RequiredBlocks(size) + if RequiredBlocks(size) > SIMPLEFS_DIRECT_BLOCKS then 1 else 0
  }

  ghost predicate ValidPointer(p: U32) {
    p == SIMPLEFS_INVALID_BLOCK || p < SIMPLEFS_DATA_BLOCKS
  }

  ghost predicate InodeOk(blocks: seq<seq<Byte>>, inode: Inode)
    requires BlocksShaped(blocks)
  {
    && InodeShaped(inode)
    && inode.size <= SIMPLEFS_MAX_FILE_SIZE
    && (forall r :: 0 <= r < POINTERS ==> ValidPointer(AllPointers(blocks, inode)[r]))
    && (forall k :: 0 <= k < RequiredBlocks(inode.size) ==>
          AllPointers(blocks, inode)[k] != SIMPLEFS_INVALID_BLOCK)
  }

  /** The bytes of the listed blocks, one block after the other. */
  ghost function Concat(blocks: seq<seq<Byte>>, pointers: seq<U32>): (bytes: seq<Byte>)
    requires BlocksShaped(blocks) && forall k :: 0 <= k < |pointers| ==> pointers[k] < SIMPLEFS_DATA_BLOCKS
    ensures |bytes| == SECTOR_SIZE * |pointers|
  {
    if pointers == [] then []
    else Concat(blocks, pointers[..|pointers| - 1]) + blocks[pointers[|pointers| - 1]]
  }

  ghost function FilePointers(blocks: seq<seq<Byte>>, inode: Inode): (p: seq<U32>)
    requires BlocksShaped(blocks) && InodeOk(blocks, inode)
    ensures |p| == RequiredBlocks(inode.size)
    ensures forall k :: 0 <= k < |p| ==> p[k] < SIMPLEFS_DATA_BLOCKS
  {
    AllPointers(blocks, inode)[..RequiredBlocks(inode.size)]
  }

  /** The bytes of a file. */
  ghost function Content(blocks: seq<seq<Byte>>, inode: Inode): (bytes: seq<Byte>)
    requires BlocksShaped(blocks) && InodeOk(blocks, inode)
    ensures |bytes| == inode.size
  {
    Concat(blocks, FilePointers(blocks, inode))[..inode.size]
  }

  lemma {:induction false} ConcatFrame(blocks: seq<seq<Byte>>, after: seq<seq<Byte>>, pointers: seq<U32>)
    requires BlocksShaped(blocks) && BlocksShaped(after)
    requires forall k :: 0 <= k < |pointers| ==> pointers[k] < SIMPLEFS_DATA_BLOCKS
    requires forall k :: 0 <= k < |pointers| ==> after[pointers[k]] == blocks[pointers[k]]
    ensures Concat(after, pointers) == Concat(blocks, pointers)
  {
    if pointers != [] {
      ConcatFrame(blocks, after, pointers[..|pointers| - 1]);
    }
  }

  /** The k-th block of a file is its k-th slice. */
  lemma {:induction false} ConcatSlice(blocks: seq<seq<Byte>>, pointers: seq<U32>, k: nat)
    requires BlocksShaped(blocks) && forall j :: 0 <= j < |pointers| ==> pointers[j] < SIMPLEFS_DATA_BLOCKS
    requires k < |pointers|
    ensures Concat(blocks, pointers)[SECTOR_SIZE * k..SECTOR_SIZE * (k + 1)] == blocks[pointers[k]]
  {
    if k + 1 < |pointers| {
      var front := pointers[..|pointers| - 1];
      ConcatSlice(blocks, front, k);
      assert Concat(blocks, pointers)[..|Concat(blocks, front)|] == Concat(blocks, front);
    }
  }

  /** An inode whose own blocks are untouched keeps its pointers and its bytes. */
  lemma {:induction false} ContentFrame(blocks: seq<seq<Byte>>, after: seq<seq<Byte>>, inode: Inode)
    requires BlocksShaped(blocks) && BlocksShaped(after) && InodeOk(blocks, inode)
    requires forall r :: 0 <= r < POINTERS ==>
               var p := AllPointers(blocks, inode)[r];
               p != SIMPLEFS_INVALID_BLOCK ==> after[p] == blocks[p]
    ensures AllPointers(after, inode) == AllPointers(blocks, inode)
    ensures InodeOk(after, inode) && Content(after, inode) == Content(blocks, inode)
  {
    assert AllPointers(blocks, inode)[INDIRECT_ROLE] == inode.indirect;
    assert IndirectTable(after, inode) == IndirectTable(blocks, inode);
    var p := FilePointers(blocks, inode);
    forall k | 0 <= k < |p| ensures after[p[k]] == blocks[p[k]] {
      assert p[k] == AllPointers(blocks, inode)[k];
    }
    ConcatFrame(blocks, after, p);
  }

  // ---- bitmaps ---------------------------------------------------------------------

  /** The bitmap after clearing the first `n` pointers that are valid. */
  ghost function Cleared(bitmap: seq<bool>, pointers: seq<U32>, n: nat): (after: seq<bool>)
    requires n <= |pointers|
    ensures |after| == |bitmap|
  {
    if n == 0 then bitmap
    else
      var before := Cleared(bitmap, pointers, n - 1);
      if pointers[n - 1] < |bitmap| then before[pointers[n - 1] := false] else before
  }

  ghost function CountBelow(pointers: seq<U32>, limit: nat): nat {
    if pointers == [] then 0
    else CountBelow(pointers[..|pointers| - 1], limit) + if pointers[|pointers| - 1] < limit then 1 else 0
  }

  lemma {:induction false} ClearedAt(bitmap: seq<bool>, pointers: seq<U32>, n: nat, b: nat)
    requires n <= |pointers| && b < |bitmap|
    ensures Cleared(bitmap, pointers, n)[b] <==> bitmap[b] && b !in pointers[..n]
  {
    if n > 0 {
      ClearedAt(bitmap, pointers, n - 1, b);
      assert pointers[..n] == pointers[..n - 1] + [pointers[n - 1]];
    }
  }

  /** Clearing distinct marked blocks frees one block each. */
  lemma {:induction false} ClearedCount(bitmap: seq<bool>, pointers: seq<U32>, n: nat)
    requires n <= |pointers|
    requires forall k :: 0 <= k < n && pointers[k] < |bitmap| ==> bitmap[pointers[k]]
    requires forall j, k :: 0 <= j < k < n && pointers[j] < |bitmap| ==> pointers[j] != pointers[k]
    ensures FreeCount(Cleared(bitmap, pointers, n)) == FreeCount(bitmap) + CountBelow(pointers[..n], |bitmap|)
  {
    if n > 0 {
      var before := Cleared(bitmap, pointers, n - 1);
      ClearedCount(bitmap, pointers, n - 1);
      assert pointers[..n][..n - 1] == pointers[..n - 1];
      if pointers[n - 1] < |bitmap| {
        ClearedAt(bitmap, pointers, n - 1, pointers[n - 1]);
        FreeCountUpdate(before, pointers[n - 1], false);
      }
    }
  }

  lemma {:induction false} ClearedInTurn(bitmap: seq<bool>, p: seq<U32>, q: seq<U32>, n: nat)
    requires n <= |q|
    ensures Cleared(bitmap, p + q, |p| + n) == Cleared(Cleared(bitmap, p, |p|), q, n)
  {
    if n > 0 {
      ClearedInTurn(bitmap, p, q, n - 1);
    } else {
      ClearedPrefix(bitmap, p, q, |p|);
    }
  }

  lemma {:induction false} ClearedPrefix(bitmap: seq<bool>, p: seq<U32>, q: seq<U32>, n: nat)
    requires n <= |p|
    ensures Cleared(bitmap, p + q, n) == Cleared(bitmap, p, n)
  {
    if n > 0 {
      ClearedPrefix(bitmap, p, q, n - 1);
    }
  }

  lemma {:induction false} ClearedNothing(bitmap: seq<bool>, pointers: seq<U32>, n: nat)
    requires n <= |pointers| && forall k :: 0 <= k < n ==> pointers[k] >= |bitmap|
    ensures Cleared(bitmap, pointers, n) == bitmap
  {
    if n > 0 {
      ClearedNothing(bitmap, pointers, n - 1);
    }
  }

  /** Freeing the direct blocks, the table's blocks and the table's own block in turn. */
  lemma {:induction false} ClearedAll(bitmap: seq<bool>, direct: seq<U32>, table: seq<U32>, indirect: U32)
    requires |bitmap| == SIMPLEFS_DATA_BLOCKS && |direct| == SIMPLEFS_DIRECT_BLOCKS && |table| == SIMPLEFS_INDIRECT_ENTRIES
    requires indirect == SIMPLEFS_INVALID_BLOCK ==> table == Invalids(SIMPLEFS_INDIRECT_ENTRIES)
    ensures Cleared(bitmap, direct + table + [indirect], POINTERS)
         == if indirect == SIMPLEFS_INVALID_BLOCK then Cleared(bitmap, direct, |direct|)
            else Cleared(Cleared(Cleared(bitmap, direct, |direct|), table, |table|), [indirect], 1)
  {
    ClearedInTurn(bitmap, direct + table, [indirect], 1);
    ClearedInTurn(bitmap, direct, table, |table|);
    if indirect == SIMPLEFS_INVALID_BLOCK {
      ClearedNothing(Cleared(bitmap, direct, |direct|), table, |table|);
      ClearedNothing(Cleared(bitmap, direct, |direct|), [indirect], 1);
    }
  }

  lemma {:induction false} PointersValid(blocks: seq<seq<Byte>>, inode: Inode)
    requires BlocksShaped(blocks) && InodeOk(blocks, inode)
    ensures forall k :: 0 <= k < SIMPLEFS_DIRECT_BLOCKS ==> ValidPointer(inode.direct[k])
    ensures forall k :: 0 <= k < SIMPLEFS_INDIRECT_ENTRIES ==> ValidPointer(IndirectTable(blocks, inode)[k])
  {
    var all := AllPointers(blocks, inode);
    assert forall k :: 0 <= k < SIMPLEFS_DIRECT_BLOCKS ==> all[k] == inode.direct[k];
    forall k | 0 <= k < SIMPLEFS_INDIRECT_ENTRIES ensures ValidPointer(IndirectTable(blocks, inode)[k]) {
      assert all[SIMPLEFS_DIRECT_BLOCKS + k] == IndirectTable(blocks, inode)[k];
    }
  }
}
