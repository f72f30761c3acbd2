/** Allocation bitmaps, one flag per block or page: true means taken. */
module Bitmap {
  /** The number of clear bits. */
  function FreeCount(bitmap: seq<bool>): nat {
    if bitmap == [] then 0
    else FreeCount(bitmap[..|bitmap| - 1]) + if bitmap[|bitmap| - 1] then 0 else 1
  }

  lemma {:induction false} FreeCountUpdate(bitmap: seq<bool>, b: nat, value: bool)
    requires b < |bitmap|
    ensures FreeCount(bitmap[b := value]) + (if bitmap[b] then 0 else 1) == FreeCount(bitmap) + (if value then 0 else 1)
  {
    var after := bitmap[b := value];
    var n := |bitmap| - 1;
    if b < n {
      FreeCountUpdate(bitmap[..n], b, value);
      assert after[..n] == bitmap[..n][b := value];
    } else {
      assert after[..n] == bitmap[..n];
    }
  }

  lemma {:induction false} NoneFree(bitmap: seq<bool>)
    ensures FreeCount(bitmap) == 0 <==> forall b :: 0 <= b < |bitmap| ==> bitmap[b]
  {
    if bitmap != [] {
      NoneFree(bitmap[..|bitmap| - 1]);
    }
  }

  lemma {:induction false} AllFree(bitmap: seq<bool>)
    requires forall b :: 0 <= b < |bitmap| ==> !bitmap[b]
    ensures FreeCount(bitmap) == |bitmap|
  {
    if bitmap != [] {
      AllFree(bitmap[..|bitmap| - 1]);
    }
  }

  lemma {:induction false} ClearBits(bitmap: seq<bool>)
    ensures FreeCount(bitmap) == |set b: nat | b < |bitmap| && !bitmap[b]|
  {
    var clear := set b: nat | b < |bitmap| && !bitmap[b];
    if bitmap != [] {
      var n := |bitmap| - 1;
      ClearBits(bitmap[..n]);
      var below := set b: nat | b < n && !bitmap[..n][b];
      assert clear == if bitmap[n] then below else below + {n};
    } else {
      assert clear == {};
    }
  }

  lemma {:induction false} MarkedBits(bitmap: seq<bool>)
    ensures |set b: nat | b < |bitmap| && bitmap[b]| + FreeCount(bitmap) == |bitmap|
  {
    var marked := set b: nat | b < |bitmap| && bitmap[b];
    if bitmap != [] {
      var n := |bitmap| - 1;
      MarkedBits(bitmap[..n]);
      var below := set b: nat | b < n && bitmap[..n][b];
      assert marked == if bitmap[n] then below + {n} else below;
    } else {
      assert marked == {};
    }
  }
}
