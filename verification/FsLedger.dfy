/** The account of blocks: what is free, and what the inodes own, against the bitmap. */
module FsLedger {
  import opened Machine
  import opened Bitmap
  import opened FsLayout
  import opened FsVolume
  import opened FsAccount

  /** The blocks among the first `n` pointers. */
  ghost function Blocks(pointers: seq<U32>, n: nat): set<nat>
    requires n <= |pointers|
  {
    set r | 0 <= r < n && pointers[r] < SIMPLEFS_DATA_BLOCKS :: pointers[r] as nat
  }

  lemma {:induction false} DistinctBlocks(pointers: seq<U32>, n: nat)
    requires n <= |pointers|
    requires forall r, s :: 0 <= r < s < |pointers| && pointers[r] < SIMPLEFS_DATA_BLOCKS ==> pointers[r] != pointers[s]
    ensures |Blocks(pointers, n)| == CountBelow(pointers[..n], SIMPLEFS_DATA_BLOCKS)
  {
    if n > 0 {
      DistinctBlocks(pointers, n - 1);
      assert pointers[..n][..n - 1] == pointers[..n - 1];
      var last := pointers[n - 1];
      if last < SIMPLEFS_DATA_BLOCKS {
        assert last !in Blocks(pointers, n - 1);
        assert Blocks(pointers, n) == Blocks(pointers, n - 1) + {last};
      } else {
        assert Blocks(pointers, n) == Blocks(pointers, n - 1);
      }
    } else {
      assert Blocks(pointers, 0) == {};
    }
  }

  /** Block `b` has role `r` in inode `i`. */
  ghost predicate OwnsAt(v: Volume, i: int, r: int, b: nat)
    requires Sound(v)
  {
    0 <= i < SIMPLEFS_MAX_INODES && v.used[i] && 0 <= r < POINTERS && Role(v, i, r) == b
  }

  ghost predicate OwnedBy(v: Volume, i: nat, b: nat)
    requires Sound(v)
  {
    exists r :: OwnsAt(v, i, r, b)
  }

  /** The blocks of inode `i`. */
  ghost function BlocksOf(v: Volume, i: nat): set<nat>
    requires Sound(v) && i < SIMPLEFS_MAX_INODES && v.used[i]
  {
    Blocks(AllPointers(v.blocks, v.inodes[i]), POINTERS)
  }

  lemma {:induction false} OwnBlocks(v: Volume, i: nat)
    requires Sound(v) && i < SIMPLEFS_MAX_INODES && v.used[i]
    ensures |BlocksOf(v, i)| == OwnedCount(v, i)
    ensures forall b: nat :: b in BlocksOf(v, i) <==> b < SIMPLEFS_DATA_BLOCKS && OwnedBy(v, i, b)
  {
    var p := AllPointers(v.blocks, v.inodes[i]);
    assert forall r :: 0 <= r < POINTERS ==> p[r] == Role(v, i, r);
    assert p[..POINTERS] == p;
    assert forall r :: 0 <= r < POINTERS ==> ValidPointer(p[r]);
    DistinctBlocks(p, POINTERS);
    forall b | b in BlocksOf(v, i) ensures OwnedBy(v, i, b) {
      var r :| 0 <= r < POINTERS && p[r] == b;
      assert OwnsAt(v, i, r, b);
    }
  }

  /** The blocks of the first `n` inodes, and how many they are. */
  ghost function BlocksBelow(v: Volume, n: nat): set<nat>
    requires Sound(v) && n <= SIMPLEFS_MAX_INODES
  {
    if n == 0 then {} else BlocksBelow(v, n - 1) + if v.used[n - 1] then BlocksOf(v, n - 1) else {}
  }

  /** The account of a volume; inodes that are free hold nothing. */
  ghost function AccountOf(v: Volume): (a: Account)
    requires Sound(v)
    ensures |a.own| == SIMPLEFS_MAX_INODES
    ensures forall i :: 0 <= i < SIMPLEFS_MAX_INODES ==> a.own[i] == if v.used[i] then OwnedCount(v, i) else 0
  {
    Account(FreeCount(v.bitmap),
            seq(SIMPLEFS_MAX_INODES, i requires 0 <= i < SIMPLEFS_MAX_INODES => if v.used[i] then OwnedCount(v, i) else 0))
  }

  ghost predicate OwnedIn(v: Volume, n: nat, b: nat)
    requires Sound(v)
  {
    exists i, r :: OwnsAt(v, i, r, b) && i < n
  }

  lemma {:induction false} BelowAre(v: Volume, n: nat, b: nat)
    requires Sound(v) && n <= SIMPLEFS_MAX_INODES && b < SIMPLEFS_DATA_BLOCKS
    ensures b in BlocksBelow(v, n) <==> OwnedIn(v, n, b)
  {
    hide Role, OwnedCount, BlocksOf, NoSharing, Marked, InodesOk;
    if n > 0 {
      BelowAre(v, n - 1, b);
      OneMoreOwner(v, n, b);
      if v.used[n - 1] {
        OwnBlocks(v, n - 1);
      }
    }
  }

  lemma {:induction false} OneMoreOwner(v: Volume, n: nat, b: nat)
    requires Sound(v) && 0 < n <= SIMPLEFS_MAX_INODES
    ensures OwnedIn(v, n, b) <==> OwnedIn(v, n - 1, b) || OwnedBy(v, n - 1, b)
  {
    hide NoSharing, Marked;
    if OwnedBy(v, n - 1, b) {
      var r :| OwnsAt(v, n - 1, r, b);
    }
    if OwnedIn(v, n, b) {
      var i, r :| OwnsAt(v, i, r, b) && i < n;
      assert i < n - 1 ==> OwnedIn(v, n - 1, b);
    }
  }

  lemma {:induction false} BelowInRange(v: Volume, n: nat)
    requires Sound(v) && n <= SIMPLEFS_MAX_INODES
    ensures forall b :: b in BlocksBelow(v, n) ==> b < SIMPLEFS_DATA_BLOCKS
  {
    if n > 0 {
      BelowInRange(v, n - 1);
      if v.used[n - 1] {
        OwnBlocks(v, n - 1);
      }
    }
  }

  /** No inode's block belongs to an earlier one. */
  lemma {:induction false} BelowIsApart(v: Volume, n: nat)
    requires Sound(v) && n < SIMPLEFS_MAX_INODES && v.used[n]
    ensures BlocksBelow(v, n) !! BlocksOf(v, n)
  {
    BelowInRange(v, n);
    OwnBlocks(v, n);
    forall b | b in BlocksOf(v, n) ensures b !in BlocksBelow(v, n) {
      BelowAre(v, n, b);
      var r :| OwnsAt(v, n, r, b);
      assert forall i, s :: 0 <= i < n && v.used[i] && 0 <= s < POINTERS ==> Role(v, i, s) != Role(v, n, r);
    }
  }

  lemma {:induction false} BelowCount(v: Volume, n: nat)
    requires Sound(v) && n <= SIMPLEFS_MAX_INODES
    ensures |BlocksBelow(v, n)| == SumTo(AccountOf(v).own, n)
  {
    if n > 0 {
      BelowCount(v, n - 1);
      if v.used[n - 1] {
        OwnBlocks(v, n - 1);
        BelowIsApart(v, n - 1);
      }
    }
  }

  ghost function MarkedBlocks(bitmap: seq<bool>): set<nat> {
    set b: nat | b < |bitmap| && bitmap[b]
  }

  lemma {:induction false} OwnedIsMarked(v: Volume)
    requires Sound(v)
    ensures BlocksBelow(v, SIMPLEFS_MAX_INODES) <= MarkedBlocks(v.bitmap)
    ensures Tight(v) <==> BlocksBelow(v, SIMPLEFS_MAX_INODES) == MarkedBlocks(v.bitmap)
  {
    BelowInRange(v, SIMPLEFS_MAX_INODES);
    forall b: nat | b < SIMPLEFS_DATA_BLOCKS
      ensures b in BlocksBelow(v, SIMPLEFS_MAX_INODES) <==> OwnedBut(v, b, -1)
      ensures OwnedBut(v, b, -1) ==> v.bitmap[b]
    {
      BelowAre(v, SIMPLEFS_MAX_INODES, b);
      OwnedIsIn(v, b);
    }
  }

  lemma {:induction false} OwnedIsIn(v: Volume, b: nat)
    requires Sound(v) && b < SIMPLEFS_DATA_BLOCKS
    ensures OwnedIn(v, SIMPLEFS_MAX_INODES, b) <==> OwnedBut(v, b, -1)
    ensures OwnedBut(v, b, -1) ==> v.bitmap[b]
  {
    if OwnedBut(v, b, -1) {
      var i, r :| 0 <= i < SIMPLEFS_MAX_INODES && v.used[i] && i != -1 && 0 <= r < POINTERS && Role(v, i, r) == b;
      assert OwnsAt(v, i, r, b);
    }
    if OwnedIn(v, SIMPLEFS_MAX_INODES, b) {
      var i, r :| OwnsAt(v, i, r, b) && i < SIMPLEFS_MAX_INODES;
    }
  }

  /** Nothing has leaked exactly when the free blocks and the owned ones are all there are. */
  lemma {:induction false} TightIffAccounted(v: Volume)
    requires Sound(v)
    ensures Total(AccountOf(v)) <= SIMPLEFS_DATA_BLOCKS
    ensures Tight(v) <==> Total(AccountOf(v)) == SIMPLEFS_DATA_BLOCKS
  {
    hide FreeCount, Tight, BlocksBelow, SumTo, NoSharing, Marked, InodesOk;
    BelowCount(v, SIMPLEFS_MAX_INODES);
    MarkedBits(v.bitmap);
    OwnedIsMarked(v);
    assert |MarkedBlocks(v.bitmap)| == |BlocksBelow(v, SIMPLEFS_MAX_INODES)| + |MarkedBlocks(v.bitmap) - BlocksBelow(v, SIMPLEFS_MAX_INODES)|;
    if |BlocksBelow(v, SIMPLEFS_MAX_INODES)| == |MarkedBlocks(v.bitmap)| {
      SameSize(BlocksBelow(v, SIMPLEFS_MAX_INODES), MarkedBlocks(v.bitmap));
    }
  }

  lemma {:induction false} SameSize(a: set<nat>, b: set<nat>)
    requires a <= b && |a| == |b|
    ensures a == b
  {
    assert |b - a| == |b| - |a|;
  }

  /** A rewrite of inode `i` that leaves `leak` of the blocks it had at hand neither free nor
      owned keeps a volume without leaks exactly when there are none. */
  lemma {:induction false} TightAfterRewrite(v: Volume, w: Volume, i: nat, leak: nat)
    requires Sound(v) && Sound(w) && i < SIMPLEFS_MAX_INODES && v.used[i] && w.used[i] && OthersSame(v, w, i)
    requires FreeCount(w.bitmap) + OwnedCount(w, i) + leak == FreeCount(v.bitmap) + OwnedCount(v, i)
    ensures Tight(v) ==> (Tight(w) <==> leak == 0)
  {
    hide FreeCount, Tight, OwnedCount, NoSharing, Marked;
    OneAccountMoves(v, w, i);
    SumMoves(AccountOf(v).own, i, OwnedCount(w, i), SIMPLEFS_MAX_INODES);
    TightIffAccounted(v);
    TightIffAccounted(w);
  }

  /** A change of one inode and of the bitmap changes the account there. */
  lemma {:induction false} OneAccountMoves(v: Volume, w: Volume, i: nat)
    requires Sound(v) && Sound(w) && i < SIMPLEFS_MAX_INODES && OthersSame(v, w, i)
    ensures AccountOf(w) == Account(FreeCount(w.bitmap), AccountOf(v).own[i := if w.used[i] then OwnedCount(w, i) else 0])
  {
  }
}
