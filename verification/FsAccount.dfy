/** The account of data blocks: how many are free, and how many each inode holds. */
module FsAccount {
  import opened FsLayout

  datatype Account = Account(free: nat, own: seq<nat>)

  /** Blocks that a rewrite failing with `spare` blocks at hand leaves marked but unowned. */
  function Leak(spare: nat): nat {
    if spare <= SIMPLEFS_DIRECT_BLOCKS then 0
    else if spare == SIMPLEFS_DIRECT_BLOCKS + 1 then 1
    else spare - SIMPLEFS_DIRECT_BLOCKS - 1
  }

  /** Inode `i` can be rewritten to hold `n` blocks: the free ones and its own suffice. */
  predicate Fits(a: Account, i: nat, n: nat)
    requires i < |a.own|
  {
    n <= a.free + a.own[i]
  }

  /** What a rewrite of inode `i` to `n` blocks leaves; one that does not fit leaves the
      inode empty and leaks. */
  function Rewrite(a: Account, i: nat, n: nat): (b: Account)
    requires i < |a.own|
    ensures |b.own| == |a.own|
  {
    var spare := a.free + a.own[i];
    if n <= spare then Account(spare - n, a.own[i := n]) else Account(spare - Leak(spare), a.own[i := 0])
  }

  /** Inode `i` gives back what it holds. */
  function Release(a: Account, i: nat): (b: Account)
    requires i < |a.own|
    ensures |b.own| == |a.own|
  {
    Account(a.free + a.own[i], a.own[i := 0])
  }

  function SumTo(own: seq<nat>, n: nat): nat
    requires n <= |own|
  {
    if n == 0 then 0 else SumTo(own, n - 1) + own[n - 1]
  }

  /** All blocks that are free or held; the rest of the volume has leaked. */
  function Total(a: Account): nat {
    a.free + SumTo(a.own, |a.own|)
  }

  lemma {:induction false} SumMoves(own: seq<nat>, i: nat, k: nat, n: nat)
    requires i < |own| && n <= |own|
    ensures SumTo(own[i := k], n) == SumTo(own, n) + if i < n then k - own[i] else 0
  {
    if n > 0 {
      SumMoves(own, i, k, n - 1);
    }
  }

  /** A rewrite that fits keeps the total. One that does not loses the indirect block's worth
      of what it had at hand: nothing of six blocks, the one of seven, all but seven of more. */
  lemma {:induction false} RewriteTotal(a: Account, i: nat, n: nat)
    requires i < |a.own|
    ensures Total(Rewrite(a, i, n)) + (if Fits(a, i, n) then 0 else Leak(a.free + a.own[i])) == Total(a)
    ensures var spare := a.free + a.own[i];
            Total(Rewrite(a, i, n)) == Total(a) - if n <= spare || spare <= 6 then 0 else if spare == 7 then 1 else spare - 7
  {
    SumMoves(a.own, i, if Fits(a, i, n) then n else 0, |a.own|);
  }

  lemma {:induction false} ReleaseTotal(a: Account, i: nat)
    requires i < |a.own|
    ensures Total(Release(a, i)) == Total(a)
  {
    SumMoves(a.own, i, 0, |a.own|);
  }
}
