/** A mounted volume as a value: who owns which block, and what each inode holds. */
module FsVolume {
  import opened Machine
  import opened Bitmap
  import opened FsLayout

  /** The RAM bitmaps and inode table together with the data area of the disk. */
  datatype Volume = Volume(used: seq<bool>, inodes: seq<Inode>, bitmap: seq<bool>, blocks: seq<seq<Byte>>)

  ghost predicate Shaped(v: Volume) {
    && |v.used| == |v.inodes| == SIMPLEFS_MAX_INODES
    && |v.bitmap| == SIMPLEFS_DATA_BLOCKS
    && BlocksShaped(v.blocks)
  }

  ghost predicate Allocated(v: Volume, i: int) {
    0 <= i < |v.used| && v.used[i]
  }

  /** The r-th pointer of an inode. */
  ghost function Role(v: Volume, i: nat, r: nat): U32
    requires Shaped(v) && i < SIMPLEFS_MAX_INODES && r < POINTERS
    requires InodeShaped(v.inodes[i])
  {
    AllPointers(v.blocks, v.inodes[i])[r]
  }

  ghost predicate InodesOk(v: Volume, skip: int)
    requires Shaped(v)
  {
    forall i :: 0 <= i < SIMPLEFS_MAX_INODES && v.used[i] && i != skip ==> InodeOk(v.blocks, v.inodes[i])
  }

  /** Every block an inode points to is marked in the bitmap. */
  ghost predicate Marked(v: Volume, skip: int)
    requires Shaped(v) && InodesOk(v, skip)
  {
    forall i, r :: 0 <= i < SIMPLEFS_MAX_INODES && v.used[i] && i != skip && 0 <= r < POINTERS ==>
      Role(v, i, r) == SIMPLEFS_INVALID_BLOCK || v.bitmap[Role(v, i, r)]
  }

  /** No block has two roles, within an inode or between inodes. */
  ghost predicate NoSharing(v: Volume, skip: int)
    requires Shaped(v) && InodesOk(v, skip)
  {
    forall i, j, r, s ::
      0 <= i < SIMPLEFS_MAX_INODES && v.used[i] && i != skip && 0 <= r < POINTERS &&
      0 <= j < SIMPLEFS_MAX_INODES && v.used[j] && j != skip && 0 <= s < POINTERS &&
      (i != j || r != s) && Role(v, i, r) != SIMPLEFS_INVALID_BLOCK ==>
        Role(v, i, r) != Role(v, j, s)
  }

  /** All of this for every inode but `skip`. */
  ghost predicate SoundBut(v: Volume, skip: int) {
    Shaped(v) && InodesOk(v, skip) && Marked(v, skip) && NoSharing(v, skip)
  }

  ghost predicate Sound(v: Volume) {
    SoundBut(v, -1)
  }

  ghost predicate OwnedBut(v: Volume, b: nat, skip: int)
    requires Shaped(v) && InodesOk(v, skip)
  {
    exists i, r :: 0 <= i < SIMPLEFS_MAX_INODES && v.used[i] && i != skip && 0 <= r < POINTERS && Role(v, i, r) == b
  }

  /** Every marked block is owned: nothing has leaked. */
  ghost predicate Tight(v: Volume)
    requires Sound(v)
  {
    forall b :: 0 <= b < SIMPLEFS_DATA_BLOCKS && v.bitmap[b] ==> OwnedBut(v, b, -1)
  }

  /** What an allocated inode holds. */
  ghost function Bytes(v: Volume, i: nat): seq<Byte>
    requires Sound(v) && Allocated(v, i)
  {
    Content(v.blocks, v.inodes[i])
  }

  /** `w` is `v` but that inode `i` is allocated and holds `data`. */
  ghost predicate Rewritten(v: Volume, w: Volume, i: nat, data: seq<Byte>)
    requires Sound(v) && Sound(w)
  {
    Allocated(w, i) && Bytes(w, i) == data && OthersSame(v, w, i)
  }

  /** `w` is `v` but that inode `i` is free. */
  ghost predicate Removed(v: Volume, w: Volume, i: nat)
    requires Sound(v) && Sound(w)
  {
    !Allocated(w, i) && OthersSame(v, w, i)
  }

  ghost predicate OthersSame(v: Volume, w: Volume, i: nat)
    requires Sound(v) && Sound(w)
  {
    forall j :: 0 <= j < SIMPLEFS_MAX_INODES && j != i ==>
      && (w.used[j] <==> v.used[j])
      && (v.used[j] ==> Bytes(w, j) == Bytes(v, j) && OwnedCount(w, j) == OwnedCount(v, j))
  }

  /** Blocks the inode's present contents occupy. */
  ghost function OwnedCount(v: Volume, i: nat): nat
    requires Shaped(v) && i < SIMPLEFS_MAX_INODES && InodeShaped(v.inodes[i])
  {
    CountBelow(AllPointers(v.blocks, v.inodes[i]), SIMPLEFS_DATA_BLOCKS)
  }

  const EMPTY_POINTERS := Invalids(SIMPLEFS_DIRECT_BLOCKS)

  /** The inode with every block pointer cleared and size 0. */
  function Emptied(inode: Inode): Inode {
    inode.(direct := EMPTY_POINTERS, indirect := SIMPLEFS_INVALID_BLOCK, size := 0)
  }

  lemma {:induction false} EmptyInodeIsOk(blocks: seq<seq<Byte>>, inode: Inode)
    requires BlocksShaped(blocks) && inode == Emptied(inode)
    ensures InodeOk(blocks, inode) && Content(blocks, inode) == []
    ensures AllPointers(blocks, inode) == Invalids(POINTERS)
  {
  }

  // ---- frames ------------------------------------------------------------------------

  /** When only inode `i`, blocks of `mine` and bits of `mine` differ, and none of
      `mine` was marked, every other inode is as it was. */
  lemma {:induction false} OthersKept(v: Volume, w: Volume, i: nat, mine: set<nat>)
    requires SoundBut(v, i) && Shaped(w) && i < SIMPLEFS_MAX_INODES
    requires w.used == v.used && w.inodes == v.inodes[i := w.inodes[i]]
    requires forall b :: 0 <= b < SIMPLEFS_DATA_BLOCKS && b !in mine ==> w.blocks[b] == v.blocks[b]
    requires forall b :: 0 <= b < SIMPLEFS_DATA_BLOCKS && b !in mine && v.bitmap[b] ==> w.bitmap[b]
    requires forall b :: 0 <= b < SIMPLEFS_DATA_BLOCKS && b in mine ==> !v.bitmap[b]
    ensures SoundBut(w, i)
    ensures forall j :: 0 <= j < SIMPLEFS_MAX_INODES && v.used[j] && j != i ==>
              && Content(w.blocks, w.inodes[j]) == Content(v.blocks, v.inodes[j])
              && AllPointers(w.blocks, w.inodes[j]) == AllPointers(v.blocks, v.inodes[j])
  {
    forall j | 0 <= j < SIMPLEFS_MAX_INODES && v.used[j] && j != i
      ensures InodeOk(w.blocks, w.inodes[j])
      ensures Content(w.blocks, w.inodes[j]) == Content(v.blocks, v.inodes[j])
      ensures AllPointers(w.blocks, w.inodes[j]) == AllPointers(v.blocks, v.inodes[j])
    {
      forall r | 0 <= r < POINTERS && AllPointers(v.blocks, v.inodes[j])[r] != SIMPLEFS_INVALID_BLOCK
        ensures w.blocks[AllPointers(v.blocks, v.inodes[j])[r]] == v.blocks[AllPointers(v.blocks, v.inodes[j])[r]]
      {
        assert v.bitmap[Role(v, j, r)];
      }
      ContentFrame(v.blocks, w.blocks, v.inodes[j]);
    }
    RolesKept(v, w, i, mine);
  }

  lemma {:induction false} RolesKept(v: Volume, w: Volume, i: nat, mine: set<nat>)
    requires SoundBut(v, i) && Shaped(w) && InodesOk(w, i) && i < SIMPLEFS_MAX_INODES
    requires w.used == v.used
    requires forall j :: 0 <= j < SIMPLEFS_MAX_INODES && v.used[j] && j != i ==>
               InodeShaped(w.inodes[j]) && AllPointers(w.blocks, w.inodes[j]) == AllPointers(v.blocks, v.inodes[j])
    requires forall b :: 0 <= b < SIMPLEFS_DATA_BLOCKS && b !in mine && v.bitmap[b] ==> w.bitmap[b]
    requires forall b :: 0 <= b < SIMPLEFS_DATA_BLOCKS && b in mine ==> !v.bitmap[b]
    ensures Marked(w, i) && NoSharing(w, i)
  {
    forall j, r | 0 <= j < SIMPLEFS_MAX_INODES && v.used[j] && j != i && 0 <= r < POINTERS
      ensures Role(w, j, r) == Role(v, j, r)
      ensures Role(w, j, r) == SIMPLEFS_INVALID_BLOCK || w.bitmap[Role(w, j, r)]
    {
    }
  }

  /** Inode `i` joins the sound ones: its pointers are its own, distinct and marked. */
  lemma {:induction false} Joined(v: Volume, i: nat)
    requires SoundBut(v, i) && i < SIMPLEFS_MAX_INODES && v.used[i] && InodeOk(v.blocks, v.inodes[i])
    requires forall r :: 0 <= r < POINTERS && Role(v, i, r) != SIMPLEFS_INVALID_BLOCK ==>
               v.bitmap[Role(v, i, r)] && !OwnedBut(v, Role(v, i, r), i)
    requires forall r, s :: 0 <= r < s < POINTERS && Role(v, i, r) != SIMPLEFS_INVALID_BLOCK ==>
               Role(v, i, r) != Role(v, i, s)
    ensures Sound(v)
  {
    forall j, k, r, s |
      0 <= j < SIMPLEFS_MAX_INODES && v.used[j] && 0 <= r < POINTERS &&
      0 <= k < SIMPLEFS_MAX_INODES && v.used[k] && 0 <= s < POINTERS &&
      (j != k || r != s) && Role(v, j, r) != SIMPLEFS_INVALID_BLOCK
      ensures Role(v, j, r) != Role(v, k, s)
    {
      if j == i && k != i {
        assert !OwnedBut(v, Role(v, i, r), i);
      } else if k == i && j != i && Role(v, i, s) != SIMPLEFS_INVALID_BLOCK {
        assert !OwnedBut(v, Role(v, i, s), i);
      }
    }
  }

  lemma {:induction false} JoinedEmpty(v: Volume, i: nat)
    requires SoundBut(v, i) && i < SIMPLEFS_MAX_INODES && v.used[i] && v.inodes[i] == Emptied(v.inodes[i])
    ensures Sound(v)
  {
    EmptyInodeIsOk(v.blocks, v.inodes[i]);
    forall r | 0 <= r < POINTERS ensures Role(v, i, r) == SIMPLEFS_INVALID_BLOCK {
      assert Role(v, i, r) == Invalids(POINTERS)[r];
    }
    Joined(v, i);
  }

  /** Freeing every block of an inode. */
  lemma {:induction false} Freed(v: Volume, w: Volume, i: nat)
    requires Sound(v) && i < SIMPLEFS_MAX_INODES && v.used[i]
    requires w == v.(inodes := v.inodes[i := Emptied(v.inodes[i])],
                     bitmap := Cleared(v.bitmap, AllPointers(v.blocks, v.inodes[i]), POINTERS))
    ensures Sound(w) && Rewritten(v, w, i, [])
    ensures FreeCount(w.bitmap) == FreeCount(v.bitmap) + OwnedCount(v, i)
    ensures Tight(v) ==> Tight(w)
  {
    FreedBits(v, w, i);
    FreedCount(v, i);
    JoinedEmpty(w, i);
    EmptyInodeIsOk(w.blocks, w.inodes[i]);
    if Tight(v) {
      FreedTight(v, w, i);
    }
  }

  lemma {:induction false} FreedTight(v: Volume, w: Volume, i: nat)
    requires Sound(v) && Tight(v) && Sound(w) && i < SIMPLEFS_MAX_INODES && v.used[i]
    requires w == v.(inodes := v.inodes[i := Emptied(v.inodes[i])],
                     bitmap := Cleared(v.bitmap, AllPointers(v.blocks, v.inodes[i]), POINTERS))
    ensures Tight(w)
  {
    var p := AllPointers(v.blocks, v.inodes[i]);
    forall b | 0 <= b < SIMPLEFS_DATA_BLOCKS && w.bitmap[b] ensures OwnedBut(w, b, -1) {
      ClearedAt(v.bitmap, p, POINTERS, b);
      assert p[..POINTERS] == p;
      var j, r :| 0 <= j < SIMPLEFS_MAX_INODES && v.used[j] && 0 <= r < POINTERS && Role(v, j, r) == b;
      assert p[r] in p;
      assert Role(w, j, r) == b;
    }
  }

  lemma {:induction false} FreedBits(v: Volume, w: Volume, i: nat)
    requires Sound(v) && i < SIMPLEFS_MAX_INODES && v.used[i]
    requires w == v.(inodes := v.inodes[i := Emptied(v.inodes[i])],
                     bitmap := Cleared(v.bitmap, AllPointers(v.blocks, v.inodes[i]), POINTERS))
    ensures SoundBut(w, i)
    ensures forall j, r :: 0 <= j < SIMPLEFS_MAX_INODES && v.used[j] && j != i && 0 <= r < POINTERS ==>
              Role(w, j, r) == Role(v, j, r)
  {
    var p := AllPointers(v.blocks, v.inodes[i]);
    assert p[..POINTERS] == p;
    forall j, r | 0 <= j < SIMPLEFS_MAX_INODES && v.used[j] && j != i && 0 <= r < POINTERS
      ensures Role(w, j, r) == Role(v, j, r)
      ensures Role(w, j, r) == SIMPLEFS_INVALID_BLOCK || w.bitmap[Role(w, j, r)]
    {
      if Role(v, j, r) != SIMPLEFS_INVALID_BLOCK {
        ClearedAt(v.bitmap, p, POINTERS, Role(v, j, r));
        assert forall s :: 0 <= s < POINTERS ==> p[s] == Role(v, i, s);
      }
    }
  }

  lemma {:induction false} FreedCount(v: Volume, i: nat)
    requires Sound(v) && i < SIMPLEFS_MAX_INODES && v.used[i]
    ensures FreeCount(Cleared(v.bitmap, AllPointers(v.blocks, v.inodes[i]), POINTERS))
         == FreeCount(v.bitmap) + OwnedCount(v, i)
  {
    var p := AllPointers(v.blocks, v.inodes[i]);
    forall j, k | 0 <= j < k < POINTERS && p[j] < SIMPLEFS_DATA_BLOCKS ensures p[j] != p[k] {
      assert Role(v, i, j) == p[j] && Role(v, i, k) == p[k];
    }
    forall k | 0 <= k < POINTERS && p[k] < SIMPLEFS_DATA_BLOCKS ensures v.bitmap[p[k]] {
      assert Role(v, i, k) == p[k];
    }
    ClearedCount(v.bitmap, p, POINTERS);
    assert p[..POINTERS] == p;
  }

  /** A fresh, empty inode. */
  lemma {:induction false} InodeAdded(v: Volume, w: Volume, i: nat)
    requires Sound(v) && i < SIMPLEFS_MAX_INODES && !v.used[i]
    requires |w.inodes| == SIMPLEFS_MAX_INODES && w.inodes[i] == Emptied(w.inodes[i])
    requires w == v.(used := v.used[i := true], inodes := v.inodes[i := w.inodes[i]])
    ensures Sound(w) && Rewritten(v, w, i, [])
    ensures Tight(v) ==> Tight(w)
  {
    forall j, r | 0 <= j < SIMPLEFS_MAX_INODES && v.used[j] && 0 <= r < POINTERS
      ensures Role(w, j, r) == Role(v, j, r)
    {
    }
    assert SoundBut(w, i);
    JoinedEmpty(w, i);
    EmptyInodeIsOk(w.blocks, w.inodes[i]);
    if Tight(v) {
      forall b | 0 <= b < SIMPLEFS_DATA_BLOCKS && w.bitmap[b] ensures OwnedBut(w, b, -1) {
        var j, r :| 0 <= j < SIMPLEFS_MAX_INODES && v.used[j] && 0 <= r < POINTERS && Role(v, j, r) == b;
        assert Role(w, j, r) == b;
      }
    }
  }

  /** An empty inode leaves the table. */
  lemma {:induction false} InodeRemoved(v: Volume, w: Volume, i: nat)
    requires Sound(v) && i < SIMPLEFS_MAX_INODES && v.used[i] && v.inodes[i] == Emptied(v.inodes[i])
    requires |w.inodes| == SIMPLEFS_MAX_INODES
    requires w == v.(used := v.used[i := false], inodes := v.inodes[i := w.inodes[i]])
    ensures Sound(w) && Removed(v, w, i)
    ensures Tight(v) ==> Tight(w)
  {
    forall j, r | 0 <= j < SIMPLEFS_MAX_INODES && w.used[j] && 0 <= r < POINTERS
      ensures Role(w, j, r) == Role(v, j, r)
    {
    }
    if Tight(v) {
      RemovedTight(v, w, i);
    }
  }

  lemma {:induction false} RemovedTight(v: Volume, w: Volume, i: nat)
    requires Sound(v) && Tight(v) && Sound(w) && i < SIMPLEFS_MAX_INODES && v.used[i]
    requires v.inodes[i] == Emptied(v.inodes[i])
    requires w.blocks == v.blocks && w.bitmap == v.bitmap && w.used == v.used[i := false]
    requires w.inodes == v.inodes[i := w.inodes[i]]
    ensures Tight(w)
  {
    EmptyInodeIsOk(v.blocks, v.inodes[i]);
    forall b | 0 <= b < SIMPLEFS_DATA_BLOCKS && w.bitmap[b] ensures OwnedBut(w, b, -1) {
      var j, r :| 0 <= j < SIMPLEFS_MAX_INODES && v.used[j] && 0 <= r < POINTERS && Role(v, j, r) == b;
      assert Role(v, i, r) == Invalids(POINTERS)[r];
      assert Role(w, j, r) == b;
    }
  }

  lemma {:induction false} LinkCountOnly(v: Volume, w: Volume, i: nat)
    requires Sound(v) && i < SIMPLEFS_MAX_INODES && |w.inodes| == |v.inodes|
    requires w == v.(inodes := v.inodes[i := v.inodes[i].(linkCount := w.inodes[i].linkCount)])
    ensures Sound(w)
    ensures forall j :: 0 <= j < SIMPLEFS_MAX_INODES && v.used[j] ==>
              Bytes(w, j) == Bytes(v, j) && OwnedCount(w, j) == OwnedCount(v, j)
    ensures Tight(v) ==> Tight(w)
  {
    forall j | 0 <= j < SIMPLEFS_MAX_INODES && v.used[j]
      ensures InodeOk(w.blocks, w.inodes[j])
      ensures AllPointers(w.blocks, w.inodes[j]) == AllPointers(v.blocks, v.inodes[j])
    {
      assert InodeOk(v.blocks, v.inodes[j]);
      assert AllPointers(w.blocks, w.inodes[j]) == AllPointers(v.blocks, v.inodes[j]);
    }
    forall j, r | 0 <= j < SIMPLEFS_MAX_INODES && v.used[j] && 0 <= r < POINTERS
      ensures Role(w, j, r) == Role(v, j, r)
    {
    }
    if Tight(v) {
      forall b | 0 <= b < SIMPLEFS_DATA_BLOCKS && w.bitmap[b] ensures OwnedBut(w, b, -1) {
        var j, r :| 0 <= j < SIMPLEFS_MAX_INODES && v.used[j] && 0 <= r < POINTERS && Role(v, j, r) == b;
        assert Role(w, j, r) == b;
      }
    }
  }
}
