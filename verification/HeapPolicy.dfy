/** What the allocator decides: which block to use, when to split, what to merge. */
module HeapPolicy {
  import opened HeapLayout

  /** The first free block that is large enough, or the length. */
  function FirstFit(bs: seq<Block>, size: nat): (i: nat)
    ensures i <= |bs| && (i < |bs| ==> bs[i].free && bs[i].size >= size)
    ensures forall k :: 0 <= k < i ==> !(bs[k].free && bs[k].size >= size)
  {
    if bs == [] || (bs[0].free && bs[0].size >= size) then 0 else 1 + FirstFit(bs[1..], size)
  }

  lemma FirstFitIs(bs: seq<Block>, size: nat, i: nat)
    requires i <= |bs| && (i < |bs| ==> bs[i].free && bs[i].size >= size)
    requires forall k :: 0 <= k < i ==> !(bs[k].free && bs[k].size >= size)
    ensures FirstFit(bs, size) == i
  {
  }

  /** A cut must leave a header and four more bytes. */
  predicate Splits(b: Block, size: nat) {
    b.size >= size + HDR + 4
  }

  /** A free block cut down to `size`, with the rest as a new free block. */
  function Split(b: Block, size: nat): (s: seq<Block>)
    ensures 1 <= |s| <= 2 && s[0].addr == b.addr && s[|s| - 1].End() == b.End() && s[0].free == b.free
    ensures b.size >= size ==> size <= s[0].size < size + HDR + 4
    ensures |s| == 2 <==> b.size >= size + HDR + 4
    ensures |s| == 2 ==> s[0].size == size && s[1].addr == s[0].End() && s[1].free && s[1].size == b.size - size - HDR >= 4
  {
    if Splits(b, size) then
      [Block(b.addr, size, b.free), Block(b.addr + HDR + size, b.size - size - HDR, true)]
    else [b]
  }

  ghost function SplitBlocks(bs: seq<Block>, i: nat, size: nat): seq<Block>
    requires i < |bs|
  {
    bs[..i] + Split(bs[i], size) + bs[i + 1..]
  }

  function Used(b: Block): Block {
    b.(free := false)
  }

  /** The blocks after a successful mm_malloc of `size` bytes. */
  ghost function Malloced(bs: seq<Block>, size: nat, brk: nat): seq<Block>
    requires bs != []
  {
    var i, last := FirstFit(bs, size), |bs| - 1;
    if i < |bs| then bs[..i] + [Used(Split(bs[i], size)[0])] + Split(bs[i], size)[1..] + bs[i + 1..]
    else if bs[last].free then bs[..last] + [Block(bs[last].addr, size, false)]
    else bs + [Block(brk, size, false)]
  }

  /** The data pointer it returns. */
  ghost function MallocedAt(bs: seq<Block>, size: nat, brk: nat): nat
    requires bs != []
  {
    var i, last := FirstFit(bs, size), |bs| - 1;
    if i < |bs| then bs[i].Data() else if bs[last].free then bs[last].Data() else brk + HDR
  }

  /** How far it must move the break. */
  ghost function Growth(bs: seq<Block>, size: nat): nat
    requires bs != []
  {
    var last := |bs| - 1;
    if FirstFit(bs, size) < |bs| then 0
    else if bs[last].free then size - bs[last].size
    else HDR + size
  }

  // ----- what a client can rely on, from the blocks before the call

  /** A header is two pointers, a flag padded to a word, and a size. */
  lemma HeaderSize()
    ensures HDR == 8 + 8 + 8 + 8
  {
  }

  /**
   * A first fit with room for another header and four bytes is cut: the client gets exactly what it
   * asked for and the rest stays behind it as a free block. Otherwise the client gets all of it.
   */
  lemma FirstFitIsCut(bs: seq<Block>, i: nat, size: nat, brk: nat)
    requires i < |bs| && bs[i].free && bs[i].size >= size
    requires forall k :: 0 <= k < i ==> !(bs[k].free && bs[k].size >= size)
    ensures Growth(bs, size) == 0 && MallocedAt(bs, size, brk) == bs[i].Data()
    ensures var b, t := bs[i], Malloced(bs, size, brk);
            if b.size >= size + HDR + 4 then
              && t[..i] == bs[..i] && |t| == |bs| + 1 && t[i + 2..] == bs[i + 1..]
              && t[i] == Block(b.addr, size, false)
              && t[i + 1] == Block(b.addr + HDR + size, b.size - size - HDR, true)
            else t == bs[i := Block(b.addr, b.size, false)]
  {
    FirstFitIs(bs, size, i);
    hide FirstFit;
  }

  /** A later request that the rest is large enough for is served without moving the break. */
  lemma RestServesNext(bs: seq<Block>, i: nat, size: nat, next: nat, brk: nat)
    requires i < |bs| && bs[i].free && bs[i].size >= size + HDR + 4 && next <= bs[i].size - size - HDR
    requires forall k :: 0 <= k < i ==> !(bs[k].free && bs[k].size >= size)
    ensures var t := Malloced(bs, size, brk);
            && t != [] && Growth(t, next) == 0
            && ((forall k :: 0 <= k < i ==> !(bs[k].free && bs[k].size >= next)) ==>
                  MallocedAt(t, next, brk) == bs[i].Data() + size + HDR)
  {
    FirstFitIsCut(bs, i, size, brk);
    var t := Malloced(bs, size, brk);
    hide Malloced, FirstFit;
    assert forall k :: 0 <= k < i ==> t[k] == t[..i][k] == bs[..i][k];
    assert t[i + 1].free && t[i + 1].size >= next;
    assert FirstFit(t, next) <= i + 1;
    assert FirstFit(t, next) != i;
  }

  /** When nothing fits the break moves by what is missing behind a free last block, else by a header and the size. */
  lemma NothingFits(bs: seq<Block>, size: nat, brk: nat)
    requires bs != [] && forall k :: 0 <= k < |bs| ==> !(bs[k].free && bs[k].size >= size)
    ensures var last := bs[|bs| - 1];
            if last.free then
              && Growth(bs, size) == size - last.size > 0 && MallocedAt(bs, size, brk) == last.Data()
              && Malloced(bs, size, brk) == bs[|bs| - 1 := Block(last.addr, size, false)]
            else
              && Growth(bs, size) == HDR + size && MallocedAt(bs, size, brk) == brk + HDR
              && Malloced(bs, size, brk) == bs + [Block(brk, size, false)]
  {
    FirstFitIs(bs, size, |bs|);
    hide FirstFit;
  }

  /** The first and one past the last of the free blocks around the free block `i`. */
  function RunStart(bs: seq<Block>, i: nat): (lo: nat)
    requires i < |bs|
    ensures lo <= i && (forall k :: lo <= k < i ==> bs[k].free) && (lo > 0 ==> !bs[lo - 1].free)
  {
    if i > 0 && bs[i - 1].free then RunStart(bs, i - 1) else i
  }

  function RunEnd(bs: seq<Block>, i: nat): (hi: nat)
    requires i < |bs|
    ensures i < hi <= |bs| && (forall k :: i < k < hi ==> bs[k].free) && (hi < |bs| ==> !bs[hi].free)
    decreases |bs| - i
  {
    if i + 1 < |bs| && bs[i + 1].free then RunEnd(bs, i + 1) else i + 1
  }

  lemma RunStartIs(bs: seq<Block>, i: nat, lo: nat)
    requires lo <= i < |bs| && (forall k :: lo <= k < i ==> bs[k].free) && (lo > 0 ==> !bs[lo - 1].free)
    ensures RunStart(bs, i) == lo
  {
  }

  lemma RunEndIs(bs: seq<Block>, i: nat, hi: nat)
    requires i < hi <= |bs| && (forall k :: i < k < hi ==> bs[k].free) && (hi < |bs| ==> !bs[hi].free)
    ensures RunEnd(bs, i) == hi
  {
  }

  /** One free block that takes the place of blocks `lo` up to `hi`, their headers included. */
  function Merged(bs: seq<Block>, lo: nat, hi: nat): Block
    requires lo < hi <= |bs|
  {
    var size := bs[hi - 1].End() - bs[lo].addr - HDR;
    Block(bs[lo].addr, if size >= 0 then size else 0, true)
  }

  ghost function MergeBlocks(bs: seq<Block>, lo: nat, hi: nat): seq<Block>
    requires lo < hi <= |bs|
  {
    bs[..lo] + [Merged(bs, lo, hi)] + bs[hi..]
  }

  /** The blocks once the free block `i` has been merged with every free neighbour. */
  ghost function Coalesced(bs: seq<Block>, i: nat): seq<Block>
    requires i < |bs|
  {
    MergeBlocks(bs, RunStart(bs, i), RunEnd(bs, i))
  }

  /** The blocks after mm_free of block `i`. */
  ghost function Freed(bs: seq<Block>, i: nat): seq<Block>
    requires i < |bs|
  {
    Coalesced(bs[i := bs[i].(free := true)], i)
  }

  // ----- coalescing is maximal in every reachable heap

  lemma MallocKeepsCoalesced(bs: seq<Block>, size: nat, brk: nat)
    requires bs != [] && NoTwoFree(bs)
    ensures NoTwoFree(Malloced(bs, size, brk))
  {
  }

  lemma FreeKeepsCoalesced(bs: seq<Block>, i: nat)
    requires i < |bs| && NoTwoFree(bs)
    ensures NoTwoFree(Freed(bs, i))
  {
    var cs := bs[i := bs[i].(free := true)];
    var lo, hi := RunStart(cs, i), RunEnd(cs, i);
    var t := Freed(bs, i);
    forall k, n | 0 <= k < |t| && 0 <= n < |t| && n == k + 1 ensures !(t[k].free && t[n].free) {
      if n < lo {
        assert t[k] == cs[k] && t[n] == cs[n];
      } else if k > lo {
        assert t[k] == cs[k - lo - 1 + hi] && t[n] == cs[n - lo - 1 + hi];
      }
    }
  }
}
