/** What each group of writes the allocator makes does to the blocks and to its clients' data. */
module HeapSteps {
  import opened HeapLayout
  import opened HeapPolicy

  /** Facts about one block of a heap, for the code that is about to rewrite it. */
  lemma BlockFacts(mem: Memory, bs: seq<Block>, base: nat, i: nat)
    requires Rep(mem, bs, base) && i < |bs|
    ensures HeaderAt(mem, bs[i].addr, SlotOf(bs, i)) && DataOk(mem, bs[i]) && Tiled(bs, base, |mem|)
    ensures base <= bs[i].addr && bs[i].End() == if i + 1 < |bs| then bs[i + 1].addr else |mem|
    ensures bs[i].End() <= |mem|
    ensures i + 1 < |bs| ==> HeaderAt(mem, bs[i + 1].addr, SlotOf(bs, i + 1)) && bs[i + 1].End() <= |mem|
    ensures i > 0 ==> HeaderAt(mem, bs[i - 1].addr, SlotOf(bs, i - 1)) && bs[i - 1].End() == bs[i].addr
  {
    assert BlockOk(mem, bs, i);
    Above(bs, base, |mem|, i);
    Below(bs, base, |mem|, i);
    if i > 0 {
      assert BlockOk(mem, bs, i - 1);
    }
    if i + 1 < |bs| {
      assert BlockOk(mem, bs, i + 1);
      Below(bs, base, |mem|, i + 1);
    }
  }

  /** What the code reads in the header of block `i`, and that the code may follow its links. */
  lemma SlotFacts(mem: Memory, bs: seq<Block>, base: nat, i: nat)
    requires Rep(mem, bs, base) && base > 0 && i < |bs|
    ensures bs[i].End() <= |mem| && mem[bs[i].addr] == Header(SlotOf(bs, i)) && Tiled(bs, base, |mem|)
    ensures SlotOf(bs, i).next == if i + 1 < |bs| then bs[i].End() else NULL
    ensures i + 1 < |bs| ==> bs[i + 1].addr == bs[i].End() && bs[i + 1].End() <= |mem|
                             && mem[bs[i + 1].addr] == Header(SlotOf(bs, i + 1))
    ensures i > 0 ==> bs[i - 1].End() == bs[i].addr && mem[bs[i - 1].addr] == Header(SlotOf(bs, i - 1))
    ensures i + 1 == |bs| ==> bs[i].End() == |mem|
    ensures base <= bs[i].addr
  {
    BlockFacts(mem, bs, base, i);
  }

  /** Free data is zero already. */
  lemma ClearingFree(mem: Memory, bs: seq<Block>, base: nat, i: nat)
    requires Rep(mem, bs, base) && i < |bs| && bs[i].free
    ensures bs[i].End() <= |mem| && Cleared(mem, bs[i].Data(), bs[i].size) == mem
  {
    BlockFacts(mem, bs, base, i);
  }

  /** A live pointer belongs to exactly one block, and that block is in use. */
  lemma LivePointerBlock(bs: seq<Block>, base: nat, brk: nat, p: nat) returns (m: nat)
    requires Tiled(bs, base, brk) && p in LivePointers(bs)
    ensures 0 < m < |bs| && !bs[m].free && bs[m].Data() == p
    ensures forall k :: 0 <= k < |bs| && bs[k].Data() == p ==> k == m
  {
    var b :| b in bs[1..] && !b.free && b.Data() == p;
    m :| 0 < m < |bs| && bs[m] == b;
    forall k | 0 <= k < |bs| && k != m ensures bs[k].Data() != p {
      if k < m {
        InOrder(bs, base, brk, k, m);
      } else {
        InOrder(bs, base, brk, m, k);
      }
    }
  }

  lemma SpliceStep(mem: Memory, mem': Memory, bs: seq<Block>, base: nat, i: nat, j: nat, mid: seq<Block>)
    requires Rep(mem, bs, base) && 0 < i <= j <= |bs| && Fits(bs, i, j, mid, |mem|, |mem'|)
    requires OnlyBetween(mem, mem', bs, i, j) && Rewritten(mem', Spliced(bs, i, j, mid), i, |mid|)
    ensures Rep(mem', Spliced(bs, i, j, mid), base)
    ensures Live(mem', Spliced(bs, i, j, mid)) ==
            map p | p in LivePointers(bs) - Pointers(bs[i..j]) + Pointers(mid) ::
              if p in Pointers(mid) then DataAt(mem', p) else DataAt(mem, p)
  {
    SplicedIsRep(mem, mem', bs, base, i, j, mid);
    SplicedLive(mem, mem', bs, base, i, j, mid);
  }

  lemma OnePointer(b: Block)
    ensures Pointers([b]) == if b.free then {} else {b.Data()}
  {
  }

  lemma NoPointers(bs: seq<Block>, i: nat, j: nat)
    requires i <= j <= |bs| && forall k :: i <= k < j ==> bs[k].free
    ensures Pointers(bs[i..j]) == {}
  {
  }

  /** A stretch gave way to one block in use. */
  lemma LiveGains(mem: Memory, mem': Memory, bs: seq<Block>, t: seq<Block>, out: set<nat>, x: nat)
    requires bs != [] && t != [] && out <= {x}
    requires Live(mem', t) == map p | p in LivePointers(bs) - out + {x} :: if p in {x} then DataAt(mem', p) else DataAt(mem, p)
    ensures Live(mem', t) == Live(mem, bs)[x := DataAt(mem', x)]
  {
    hide LivePointers, DataAt;
  }

  /** A stretch gave way to free blocks. */
  lemma LiveLoses(mem: Memory, mem': Memory, bs: seq<Block>, t: seq<Block>, out: set<nat>)
    requires bs != [] && t != []
    requires Live(mem', t) == map p | p in LivePointers(bs) - out + {} :: if p in {} then DataAt(mem', p) else DataAt(mem, p)
    ensures Live(mem', t) == Live(mem, bs) - out
  {
    hide LivePointers, DataAt;
  }

  /** A stretch of free blocks replaced by free blocks: clients see no change. */
  lemma FreeForFree(mem: Memory, mem': Memory, bs: seq<Block>, base: nat, i: nat, j: nat, mid: seq<Block>)
    requires Rep(mem, bs, base) && 0 < i <= j <= |bs| && Fits(bs, i, j, mid, |mem|, |mem'|)
    requires OnlyBetween(mem, mem', bs, i, j) && Rewritten(mem', Spliced(bs, i, j, mid), i, |mid|)
    requires forall k :: i <= k < j ==> bs[k].free
    requires forall k :: 0 <= k < |mid| ==> mid[k].free
    ensures Rep(mem', Spliced(bs, i, j, mid), base)
    ensures Live(mem', Spliced(bs, i, j, mid)) == Live(mem, bs)
  {
    hide *;
    NoPointers(bs, i, j);
    NoPointers(mid, 0, |mid|);
    assert mid[0..|mid|] == mid;
    SpliceStep(mem, mem', bs, base, i, j, mid);
    LiveLoses(mem, mem', bs, Spliced(bs, i, j, mid), {});
  }

  /** One block rewritten in place. */
  ghost predicate Rewrites(mem: Memory, mem': Memory, bs: seq<Block>, i: nat, free: bool)
    requires i < |bs|
  {
    && |mem'| == |mem|
    && (forall k :: 0 <= k < |mem| && !(bs[i].addr <= k < bs[i].End()) ==> mem'[k] == mem[k])
    && HeaderAt(mem', bs[i].addr, SlotOf(bs, i).(isFree := free))
    && DataOk(mem', bs[i].(free := free))
  }

  lemma RewriteFits(mem: Memory, mem': Memory, bs: seq<Block>, base: nat, i: nat, free: bool, t: seq<Block>)
    requires Rep(mem, bs, base) && 0 < i < |bs| && Rewrites(mem, mem', bs, i, free)
    requires t == bs[i := bs[i].(free := free)]
    ensures Fits(bs, i, i + 1, [t[i]], |mem|, |mem'|)
    ensures OnlyBetween(mem, mem', bs, i, i + 1)
    ensures Spliced(bs, i, i + 1, [t[i]]) == t
    ensures Rewritten(mem', t, i, 1)
  {
    BlockFacts(mem, bs, base, i);
    hide Rep, DataOk, Tiled, DataAt;
    assert SlotOf(t, i - 1) == SlotOf(bs, i - 1) && SlotOf(t, i) == SlotOf(bs, i).(isFree := free);
    assert i + 1 < |bs| ==> SlotOf(t, i + 1) == SlotOf(bs, i + 1);
  }

  /** A used block freed, after its data was cleared: only its own pointer goes away. */
  lemma FreeStep(mem: Memory, mem': Memory, bs: seq<Block>, base: nat, i: nat, t: seq<Block>)
    requires Rep(mem, bs, base) && 0 < i < |bs| && Rewrites(mem, mem', bs, i, true) && !bs[i].free
    requires t == bs[i := bs[i].(free := true)]
    ensures Rep(mem', t, base) && Live(mem', t) == Live(mem, bs) - {bs[i].Data()}
  {
    hide *;
    RewriteFits(mem, mem', bs, base, i, true, t);
    SpliceStep(mem, mem', bs, base, i, i + 1, [t[i]]);
    assert bs[i..i + 1] == [bs[i]];
    OnePointer(t[i]);
    OnePointer(bs[i]);
    LiveLoses(mem, mem', bs, t, {bs[i].Data()});
  }

  /** The address a block put in place of blocks `i` up to `j` starts at. */
  ghost function StartOf(bs: seq<Block>, brk: nat, i: nat): nat
    requires i <= |bs|
  {
    if i < |bs| then bs[i].addr else brk
  }

  lemma NotLiveAt(bs: seq<Block>, base: nat, brk: nat, i: nat)
    requires Tiled(bs, base, brk) && 0 < i <= |bs| && (i < |bs| ==> bs[i].free)
    ensures StartOf(bs, brk, i) + HDR !in LivePointers(bs)
  {
    forall b | b in bs[1..] && !b.free ensures b.Data() != StartOf(bs, brk, i) + HDR {
      var k :| 1 <= k < |bs| && bs[k] == b;
      if i == |bs| {
        Below(bs, base, brk, k);
      } else if k < i {
        InOrder(bs, base, brk, k, i);
      } else {
        InOrder(bs, base, brk, i, k);
      }
    }
  }

  /** Free space, old or new, made into one used block of zeros: clients gain its pointer. */
  lemma NewLive(mem: Memory, mem': Memory, bs: seq<Block>, base: nat, i: nat, j: nat, b: Block, t: seq<Block>)
    requires Rep(mem, bs, base) && 0 < i <= j <= |bs| && Fits(bs, i, j, [b], |mem|, |mem'|)
    requires OnlyBetween(mem, mem', bs, i, j) && t == Spliced(bs, i, j, [b]) && Rewritten(mem', t, i, 1)
    requires (forall k :: i <= k < j ==> bs[k].free) && (i == j ==> i == |bs|) && !b.free
    requires b.End() <= |mem'| && mem'[b.Data()..b.End()] == Zeros(b.size)
    ensures Rep(mem', t, base)
    ensures b.Data() !in LivePointers(bs)
    ensures Live(mem', t) == Live(mem, bs)[b.Data() := Zeros(b.size)]
  {
    hide *;
    StartFits(mem, mem', bs, base, i, j, b, t);
    NoPointers(bs, i, j);
    NewData(mem', t, i, b);
    SpliceStep(mem, mem', bs, base, i, j, [b]);
    OnePointer(b);
    LiveGains(mem, mem', bs, t, {}, b.Data());
  }

  lemma StartFits(mem: Memory, mem': Memory, bs: seq<Block>, base: nat, i: nat, j: nat, b: Block, t: seq<Block>)
    requires Rep(mem, bs, base) && 0 < i <= j <= |bs| && Fits(bs, i, j, [b], |mem|, |mem'|)
    requires t == Spliced(bs, i, j, [b]) && Rewritten(mem', t, i, 1)
    requires (forall k :: i <= k < j ==> bs[k].free) && (i == j ==> i == |bs|)
    ensures b.Data() !in LivePointers(bs) && i < |t| && t[i] == b && BlockOk(mem', t, i)
  {
    hide BlockOk, LivePointers;
    NotLiveAt(bs, base, |mem|, i);
  }

  lemma NewData(mem': Memory, t: seq<Block>, i: nat, b: Block)
    requires i < |t| && t[i] == b && BlockOk(mem', t, i)
    requires b.End() <= |mem'| && mem'[b.Data()..b.End()] == Zeros(b.size)
    ensures DataAt(mem', b.Data()) == Zeros(b.size)
  {
  }

  lemma UseStep(mem: Memory, mem': Memory, bs: seq<Block>, base: nat, i: nat, t: seq<Block>)
    requires Rep(mem, bs, base) && 0 < i < |bs| && Rewrites(mem, mem', bs, i, false) && bs[i].free
    requires mem'[bs[i].Data()..bs[i].End()] == Zeros(bs[i].size)
    requires t == bs[i := Used(bs[i])]
    ensures Rep(mem', t, base)
    ensures bs[i].Data() !in LivePointers(bs)
    ensures Live(mem', t) == Live(mem, bs)[bs[i].Data() := Zeros(bs[i].size)]
  {
    RewriteFits(mem, mem', bs, base, i, false, t);
    hide Rep, OnlyBetween, Rewritten, Rewrites, Fits, Spliced, Live, LivePointers;
    NewLive(mem, mem', bs, base, i, i + 1, t[i], t);
  }

  /** The free last block grown over new memory and put to use. */
  lemma ExtendStep(mem: Memory, mem': Memory, bs: seq<Block>, base: nat, size: nat, t: seq<Block>)
    requires Rep(mem, bs, base) && |bs| > 1
    requires var last := bs[|bs| - 1];
             && last.free && last.size <= size && |mem'| == last.Data() + size
             && (forall k :: 0 <= k < last.addr ==> k < |mem| && mem'[k] == mem[k])
             && HeaderAt(mem', last.addr, Slot(bs[|bs| - 2].addr, NULL, false, size))
             && mem'[last.Data()..] == Zeros(size)
             && t == bs[..|bs| - 1] + [Block(last.addr, size, false)]
    requires |mem| <= |mem'|
    ensures Rep(mem', t, base)
    ensures bs[|bs| - 1].Data() !in LivePointers(bs)
    ensures Live(mem', t) == Live(mem, bs)[bs[|bs| - 1].Data() := Zeros(size)]
  {
    var n, b := |bs| - 1, t[|bs| - 1];
    BlockFacts(mem, bs, base, n);
    assert t == Spliced(bs, n, |bs|, [b]);
    assert SlotOf(t, n - 1) == SlotOf(bs, n - 1);
    assert mem'[b.Data()..b.End()] == mem'[b.Data()..];
    assert forall k :: b.Data() <= k < b.End() ==> mem'[k] == mem'[b.Data()..][k - b.Data()];
    hide Rep, Live, LivePointers;
    NewLive(mem, mem', bs, base, n, |bs|, b, t);
  }

  /** A new last block in new memory. */
  lemma AppendStep(mem: Memory, mem': Memory, bs: seq<Block>, base: nat, size: nat, t: seq<Block>)
    requires Rep(mem, bs, base) && |mem'| == |mem| + HDR + size
    requires var last := bs[|bs| - 1];
             && last.addr < |mem|
             && (forall k :: 0 <= k < |mem| && k != last.addr ==> mem'[k] == mem[k])
             && mem'[last.addr] == Header(SlotOf(bs, |bs| - 1).(next := |mem|))
             && HeaderAt(mem', |mem|, Slot(last.addr, NULL, false, size))
             && mem'[|mem| + HDR..] == Zeros(size)
             && t == bs + [Block(|mem|, size, false)]
    ensures Rep(mem', t, base)
    ensures |mem| + HDR !in LivePointers(bs)
    ensures Live(mem', t) == Live(mem, bs)[|mem| + HDR := Zeros(size)]
  {
    var n, b := |bs|, Block(|mem|, size, false);
    BlockFacts(mem, bs, base, n - 1);
    assert t == Spliced(bs, n, n, [b]);
    assert SlotOf(t, n - 1) == SlotOf(bs, n - 1).(next := |mem|);
    assert forall k :: b.Data() <= k < b.End() ==> mem'[k] == mem'[b.Data()..][k - b.Data()];
    assert mem'[b.Data()..b.End()] == mem'[b.Data()..];
    hide Rep, Live, LivePointers;
    NewLive(mem, mem', bs, base, n, n, b, t);
  }

  /** Free blocks `lo` up to `hi` made into one, once its header, its neighbours' links and its data are written. */
  lemma MergeStep(mem: Memory, mem': Memory, bs: seq<Block>, base: nat, lo: nat, hi: nat, t: seq<Block>)
    requires Rep(mem, bs, base) && 0 < lo < hi <= |bs| && |mem'| == |mem|
    requires forall k :: lo <= k < hi ==> bs[k].free
    requires t == MergeBlocks(bs, lo, hi)
    requires forall k :: 0 <= k < bs[lo].addr ==> k < |mem| && mem'[k] == mem[k]
    requires hi < |bs| ==> bs[hi].addr < |mem'| && mem'[bs[hi].addr] == Header(SlotOf(bs, hi).(prev := bs[lo].addr))
                           && forall k :: bs[hi].addr < k < |mem| ==> mem'[k] == mem[k]
    requires BlockOk(mem', t, lo)
    ensures Rep(mem', t, base) && Live(mem', t) == Live(mem, bs)
  {
    var b := Merged(bs, lo, hi);
    BlockFacts(mem, bs, base, lo);
    BlockFacts(mem, bs, base, hi - 1);
    if lo < hi - 1 {
      InOrder(bs, base, |mem|, lo, hi - 1);
    }
    assert b.End() == StartOf(bs, |mem|, hi);
    assert t == Spliced(bs, lo, hi, [b]);
    assert SlotOf(t, lo - 1) == SlotOf(bs, lo - 1);
    assert hi < |bs| ==> SlotOf(t, lo + 1) == SlotOf(bs, hi).(prev := bs[lo].addr);
    hide Rep, Live, LivePointers;
    FreeForFree(mem, mem', bs, base, lo, hi, [b]);
  }

  /** A free block cut in two. */
  lemma SplitStep(mem: Memory, mem': Memory, bs: seq<Block>, base: nat, i: nat, size: nat, t: seq<Block>)
    requires Rep(mem, bs, base) && 0 < i < |bs| && bs[i].free && Splits(bs[i], size) && |mem'| == |mem|
    requires t == bs[..i] + Split(bs[i], size) + bs[i + 1..]
    requires forall k :: 0 <= k < bs[i].addr ==> k < |mem| && mem'[k] == mem[k]
    requires i + 1 < |bs| ==>
               && bs[i + 1].addr < |mem'|
               && mem'[bs[i + 1].addr] == Header(SlotOf(bs, i + 1).(prev := bs[i].addr + HDR + size))
               && forall k :: bs[i + 1].addr < k < |mem| ==> mem'[k] == mem[k]
    requires BlockOk(mem', t, i) && BlockOk(mem', t, i + 1)
    ensures Rep(mem', t, base) && Live(mem', t) == Live(mem, bs)
  {
    var mid := Split(bs[i], size);
    BlockFacts(mem, bs, base, i);
    assert t == Spliced(bs, i, i + 1, mid);
    assert SlotOf(t, i - 1) == SlotOf(bs, i - 1);
    assert i + 1 < |bs| ==> SlotOf(t, i + 2) == SlotOf(bs, i + 1).(prev := bs[i].addr + HDR + size);
    hide Rep, Live, LivePointers, BlockOk;
    FreeForFree(mem, mem', bs, base, i, i + 1, mid);
  }

  /** The four header writes of split_slot: a new free slot behind `slot`, which shrinks to `size`. */
  ghost predicate NewSlotLinked(m0: Memory, m1: Memory, slot: nat, size: nat, newSlot: nat, newSize: nat)
    requires slot < newSlot && newSlot + HDR <= |m0| && m0[slot].Header?
    requires m0[slot].slot.next != NULL ==> m0[slot].slot.next < |m0| && m0[m0[slot].slot.next].Header?
  {
    var s := m0[slot].slot;
    && |m1| == |m0|
    && m1[slot] == Header(s.(next := newSlot, size := size))
    && HeaderAt(m1, newSlot, Slot(slot, s.next, true, newSize))
    && (s.next != NULL ==> m1[s.next] == Header(m0[s.next].slot.(prev := newSlot)))
    && forall k | 0 <= k < |m1| && k != slot && !(newSlot <= k < newSlot + HDR) && (s.next == NULL || k != s.next) ::
         m1[k] == m0[k]
  }

  lemma SplitWrites(m0: Memory, m1: Memory, bs: seq<Block>, base: nat, i: nat, size: nat)
    requires Rep(m0, bs, base) && base > 0 && 0 < i < |bs| && bs[i].free && Splits(bs[i], size)
    requires bs[i].End() <= |m0| && m0[bs[i].addr] == Header(SlotOf(bs, i))
    requires i + 1 < |bs| ==> bs[i + 1].addr < |m0| && m0[bs[i + 1].addr] == Header(SlotOf(bs, i + 1))
    requires var newSlot := bs[i].addr + HDR + size;
             NewSlotLinked(m0, m1, bs[i].addr, size, newSlot, bs[i].size - size - HDR)
    ensures var newSlot := bs[i].addr + HDR + size;
            var m2 := Cleared(m1, newSlot + HDR, bs[i].size - size - HDR);
            var m3 := Cleared(m2, bs[i].Data(), size);
            Rep(m3, SplitBlocks(bs, i, size), base) && Live(m3, SplitBlocks(bs, i, size)) == Live(m0, bs)
  {
    hide Rep, Tiled, BlockOk, DataOk, HeaderAt, Live, LivePointers, Zeros, Cleared, NewSlotLinked, SplitBlocks, SlotOf, Split;
    var newSlot, t := bs[i].addr + HDR + size, SplitBlocks(bs, i, size);
    BlockFacts(m0, bs, base, i);
    SplitFrame(m0, m1, bs, i, size);
    var m2 := Cleared(m1, newSlot + HDR, bs[i].size - size - HDR);
    var m3 := Cleared(m2, bs[i].Data(), size);
    SplitParts(bs, i, size);
    SplitCells(m0, m1, bs, i, size, t);
    SplitStep(m0, m3, bs, base, i, size, t);
  }

  lemma SplitParts(bs: seq<Block>, i: nat, size: nat)
    requires 0 < i < |bs| && Splits(bs[i], size)
    ensures var t := SplitBlocks(bs, i, size);
            && |t| == |bs| + 1 && t == bs[..i] + Split(bs[i], size) + bs[i + 1..]
            && |Split(bs[i], size)| == 2 && t[i - 1] == bs[i - 1]
            && t[i] == Split(bs[i], size)[0] && t[i + 1] == Split(bs[i], size)[1]
            && (i + 1 < |bs| ==> t[i + 2] == bs[i + 1])
  {
  }

  /** Outside the block that is split only the link back to it is different. */
  lemma SplitFrame(m0: Memory, m1: Memory, bs: seq<Block>, i: nat, size: nat)
    requires 0 < i < |bs| && Splits(bs[i], size) && bs[i].End() <= |m0| && m0[bs[i].addr] == Header(SlotOf(bs, i))
    requires i + 1 < |bs| ==> bs[i].End() == bs[i + 1].addr < |m0| && m0[bs[i + 1].addr] == Header(SlotOf(bs, i + 1))
    requires NewSlotLinked(m0, m1, bs[i].addr, size, bs[i].addr + HDR + size, bs[i].size - size - HDR)
    ensures |m1| == |m0|
    ensures var newSlot := bs[i].addr + HDR + size;
            var m3 := Cleared(Cleared(m1, newSlot + HDR, bs[i].size - size - HDR), bs[i].Data(), size);
            && |m3| == |m0| && (forall k :: 0 <= k < bs[i].addr ==> m3[k] == m0[k])
            && (i + 1 < |bs| ==>
                  && m3[bs[i + 1].addr] == Header(SlotOf(bs, i + 1).(prev := newSlot))
                  && forall k :: bs[i + 1].addr < k < |m0| ==> m3[k] == m0[k])
  {
  }

  lemma SplitEnds(bs: seq<Block>, i: nat, size: nat)
    requires i < |bs|
    ensures SplitBlocks(bs, i, size) != []
    ensures !Splits(bs[i], size) ==> SplitBlocks(bs, i, size) == bs
    ensures Splits(bs[i], size) ==>
              SplitBlocks(bs, i, size)[|bs|].addr ==
                if i + 1 == |bs| then bs[i].addr + HDR + size else bs[|bs| - 1].addr
    ensures Splits(bs[i], size) ==> |SplitBlocks(bs, i, size)| == |bs| + 1
  {
  }

  lemma SplitCells(m0: Memory, m1: Memory, bs: seq<Block>, i: nat, size: nat, t: seq<Block>)
    requires 0 < i < |bs| && Splits(bs[i], size) && |t| == |bs| + 1 && bs[i].free
    requires t[i - 1] == bs[i - 1] && t[i] == Split(bs[i], size)[0] && t[i + 1] == Split(bs[i], size)[1]
    requires i + 1 < |bs| ==> t[i + 2] == bs[i + 1] && bs[i].End() == bs[i + 1].addr
    requires HeaderAt(m0, bs[i].addr, SlotOf(bs, i)) && bs[i].End() <= |m0|
    requires i + 1 < |bs| ==> HeaderAt(m0, bs[i + 1].addr, SlotOf(bs, i + 1))
    requires NewSlotLinked(m0, m1, bs[i].addr, size, bs[i].addr + HDR + size, bs[i].size - size - HDR)
    ensures var newSlot := bs[i].addr + HDR + size;
            var m3 := Cleared(Cleared(m1, newSlot + HDR, bs[i].size - size - HDR), bs[i].Data(), size);
            BlockOk(m3, t, i) && BlockOk(m3, t, i + 1)
  {
    var newSlot := bs[i].addr + HDR + size;
    var m2 := Cleared(m1, newSlot + HDR, bs[i].size - size - HDR);
    var m3 := Cleared(m2, bs[i].Data(), size);
    assert HeaderAt(m3, bs[i].addr, SlotOf(t, i));
    assert HeaderAt(m3, newSlot, SlotOf(t, i + 1));
  }

  // ----- the loops of merge_free_space

  /** The forward loop has swallowed blocks `i + 1` up to and including `n`. */
  ghost function Swallowed(m0: Memory, bs: seq<Block>, i: nat, n: nat): (m: Memory)
    requires i <= n < |bs| && bs[i].addr < |m0|
    ensures |m| == |m0|
  {
    var size := bs[n].End() - bs[i].Data();
    m0[bs[i].addr := Header(SlotOf(bs, i).(size := if size >= 0 then size else 0))]
  }

  /** What the forward loop reads when it has come to block `n`. */
  lemma SwallowFacts(m0: Memory, bs: seq<Block>, base: nat, i: nat, n: nat)
    requires Rep(m0, bs, base) && base > 0 && i <= n < |bs|
    ensures bs[i].addr < |m0| && bs[n].addr < |m0| && bs[i].Data() <= bs[n].End()
    ensures Swallowed(m0, bs, i, n)[bs[i].addr] == Header(SlotOf(bs, i).(size := bs[n].End() - bs[i].Data()))
    ensures n == i ==> Swallowed(m0, bs, i, n) == m0
    ensures n > i ==> bs[n].addr > bs[i].addr && Swallowed(m0, bs, i, n)[bs[n].addr] == Header(SlotOf(bs, n))
    ensures SlotOf(bs, n).next == if n + 1 < |bs| then bs[n + 1].addr else NULL
    ensures n + 1 < |bs| ==>
              && NULL < bs[n + 1].addr < |m0| && bs[n + 1].addr > bs[i].addr && bs[n + 1].addr == bs[n].End()
              && Swallowed(m0, bs, i, n)[bs[n + 1].addr] == Header(SlotOf(bs, n + 1))
              && bs[i].Data() <= bs[n + 1].End()
              && Swallowed(m0, bs, i, n + 1) ==
                 Swallowed(m0, bs, i, n)[bs[i].addr := Header(SlotOf(bs, i).(size := bs[n + 1].End() - bs[i].Data()))]
  {
    SlotFacts(m0, bs, base, i);
    SlotFacts(m0, bs, base, n);
    if i < n {
      InOrder(bs, base, |m0|, i, n);
    }
    if n + 1 < |bs| {
      InOrder(bs, base, |m0|, i, n + 1);
      SlotFacts(m0, bs, base, n + 1);
    }
  }

  /** A merge of blocks `lo` up to `hi` is on disk: header, links and cleared data. */
  ghost predicate MergeWritten(m0: Memory, m: Memory, bs: seq<Block>, lo: nat, hi: nat)
    requires lo < hi <= |bs|
  {
    && |m| == |m0| && bs[lo].Data() <= bs[hi - 1].End() <= |m|
    && (forall k :: 0 <= k < bs[hi - 1].End() ==>
          m[k] == if k == bs[lo].addr then
                    Header(SlotOf(bs, lo).(next := SlotOf(bs, hi - 1).next, size := bs[hi - 1].End() - bs[lo].Data()))
                  else if bs[lo].Data() <= k then Byte(0) else m0[k])
    && (forall k :: bs[hi - 1].End() <= k < |m| ==>
          m[k] == if hi < |bs| && k == bs[hi].addr then Header(SlotOf(bs, hi).(prev := bs[lo].addr)) else m0[k])
  }

  lemma MergeWrites(m0: Memory, m: Memory, bs: seq<Block>, base: nat, lo: nat, hi: nat)
    requires Rep(m0, bs, base) && 0 < lo < hi <= |bs| && (forall k :: lo <= k < hi ==> bs[k].free)
    requires MergeWritten(m0, m, bs, lo, hi)
    ensures Rep(m, MergeBlocks(bs, lo, hi), base) && Live(m, MergeBlocks(bs, lo, hi)) == Live(m0, bs)
  {
    var t := MergeBlocks(bs, lo, hi);
    BlockFacts(m0, bs, base, lo);
    BlockFacts(m0, bs, base, hi - 1);
    hide Rep, Live, LivePointers, Tiled, DataOk;
    assert t[lo] == Merged(bs, lo, hi) && t[lo].End() == bs[hi - 1].End();
    MergedBlockOk(m0, m, bs, lo, hi, t);
    MergeStep(m0, m, bs, base, lo, hi, t);
  }

  lemma MergedBlockOk(m0: Memory, m: Memory, bs: seq<Block>, lo: nat, hi: nat, t: seq<Block>)
    requires 0 < lo < hi <= |bs| && bs[lo].free && MergeWritten(m0, m, bs, lo, hi) && t == MergeBlocks(bs, lo, hi)
    requires HeaderAt(m0, bs[lo].addr, SlotOf(bs, lo))
    ensures BlockOk(m, t, lo)
  {
    assert SlotOf(t, lo) ==
           SlotOf(bs, lo).(next := SlotOf(bs, hi - 1).next, size := bs[hi - 1].End() - bs[lo].Data());
  }

  /** `slot` linked to `next` as its successor, past the slots it has swallowed. */
  function Relinked(m: Memory, slot: nat, next: nat): (r: Memory)
    requires slot < |m| && m[slot].Header? && next < |m| && (next != NULL ==> next != slot && m[next].Header?)
    ensures |r| == |m| && r[slot] == Header(m[slot].slot.(next := next))
  {
    var m1 := m[slot := Header(m[slot].slot.(next := next))];
    if next == NULL then m1 else m1[next := Header(m1[next].slot.(prev := slot))]
  }

  lemma FollowingMerged(m0: Memory, bs: seq<Block>, base: nat, i: nat, n: nat)
    requires Rep(m0, bs, base) && base > 0 && 0 < i <= n < |bs| && (forall k :: i <= k <= n ==> bs[k].free)
    ensures bs[i].Data() <= bs[n].End() <= |m0|
    ensures var slot, next, m := bs[i].addr, SlotOf(bs, n).next, Swallowed(m0, bs, i, n);
            && slot < |m| && m[slot] == Header(SlotOf(bs, i).(size := bs[n].End() - bs[i].Data()))
            && next < |m| && (next != NULL ==> next != slot && m[next].Header?)
            && (next == NULL <==> n + 1 == |bs|)
            && var m2 := Cleared(if n == i then m else Relinked(m, slot, next), bs[i].Data(), bs[n].End() - bs[i].Data());
            Rep(m2, MergeBlocks(bs, i, n + 1), base) && Live(m2, MergeBlocks(bs, i, n + 1)) == Live(m0, bs)
  {
    hide Rep, Tiled, BlockOk, HeaderAt, DataOk, Live, LivePointers, Zeros, MergeBlocks, MergeWritten, Swallowed, SlotOf, Cleared, Relinked;
    SwallowFacts(m0, bs, base, i, n);
    SlotFacts(m0, bs, base, n);
    SlotFacts(m0, bs, base, i);
    var slot, next, m := bs[i].addr, SlotOf(bs, n).next, Swallowed(m0, bs, i, n);
    var m2 := Cleared(if n == i then m else Relinked(m, slot, next), bs[i].Data(), bs[n].End() - bs[i].Data());
    FollowingCells(m0, m2, bs, i, n);
    MergeWrites(m0, m2, bs, base, i, n + 1);
  }

  lemma FollowingCells(m0: Memory, m2: Memory, bs: seq<Block>, i: nat, n: nat)
    requires 0 < i <= n < |bs| && bs[i].Data() <= bs[n].End() <= |m0| && bs[i].addr > 0
    requires n + 1 < |bs| ==> bs[n + 1].addr == bs[n].End() < |m0| && m0[bs[n + 1].addr] == Header(SlotOf(bs, n + 1))
    requires m0[bs[i].addr] == Header(SlotOf(bs, i))
    requires var slot, next, m := bs[i].addr, SlotOf(bs, n).next, Swallowed(m0, bs, i, n);
             && next < |m| && (next != NULL ==> next != slot && m[next].Header?) && m[slot].Header?
             && m2 == Cleared(if n == i then m else Relinked(m, slot, next), bs[i].Data(), bs[n].End() - bs[i].Data())
    ensures MergeWritten(m0, m2, bs, i, n + 1)
  {
  }

  lemma MergeTail(bs: seq<Block>, lo: nat, hi: nat)
    requires lo < hi <= |bs|
    ensures MergeBlocks(bs, lo, hi) != []
    ensures MergeBlocks(bs, lo, hi)[|MergeBlocks(bs, lo, hi)| - 1].addr ==
            if hi == |bs| then bs[lo].addr else bs[|bs| - 1].addr
  {
  }

  /** The backward loop has reached block `n`: it and those up to `i` each count all that follows, to the end of `i`. */
  ghost function Backed(m0: Memory, bs: seq<Block>, n: nat, i: nat): (m: Memory)
    requires n <= i < |bs| && forall k :: n <= k <= i ==> bs[k].addr < |m0|
    ensures |m| == |m0|
    decreases i - n
  {
    var size := bs[i].End() - bs[n].Data();
    if n == i then m0
    else Backed(m0, bs, n + 1, i)[bs[n].addr := Header(SlotOf(bs, n).(size := if size >= 0 then size else 0))]
  }

  lemma BackedStart(m0: Memory, bs: seq<Block>, i: nat)
    requires i < |bs| && bs[i].addr < |m0|
    ensures Backed(m0, bs, i, i) == m0
  {
  }

  lemma BackedNext(m0: Memory, bs: seq<Block>, n: nat, i: nat)
    requires n < i < |bs| && (forall k :: n <= k <= i ==> bs[k].addr < |m0|) && bs[n].Data() <= bs[i].End()
    ensures Backed(m0, bs, n, i) ==
            Backed(m0, bs, n + 1, i)[bs[n].addr := Header(SlotOf(bs, n).(size := bs[i].End() - bs[n].Data()))]
  {
  }

  lemma AddrsInMemory(m0: Memory, bs: seq<Block>, base: nat)
    requires Rep(m0, bs, base)
    ensures forall k :: 0 <= k < |bs| ==> bs[k].addr < |m0|
  {
    forall k | 0 <= k < |bs| ensures bs[k].addr < |m0| {
      Below(bs, base, |m0|, k);
    }
  }

  /** Only headers from `n` up to `i` are different so far. */
  lemma {:induction false} BackedCells(m0: Memory, bs: seq<Block>, base: nat, n: nat, i: nat)
    requires Rep(m0, bs, base) && n <= i < |bs| && forall k :: n <= k <= i ==> bs[k].addr < |m0|
    ensures forall c :: 0 <= c < |m0| && (c != bs[n].addr || n == i) && (c < bs[n].Data() || bs[i].addr <= c) ==>
              Backed(m0, bs, n, i)[c] == m0[c]
    ensures bs[n].Data() <= bs[i].End()
    ensures Backed(m0, bs, n, i)[bs[n].addr] == Header(SlotOf(bs, n).(size := bs[i].End() - bs[n].Data()))
    decreases i - n
  {
    hide Rep, Tiled, BlockOk, DataOk;
    BlockFacts(m0, bs, base, n);
    if n < i {
      BackedCells(m0, bs, base, n + 1, i);
      InOrder(bs, base, |m0|, n, i);
      if n + 1 < i {
        InOrder(bs, base, |m0|, n + 1, i);
      }
    }
  }

  /** What the backward loop reads before it moves from block `n` to the one before. */
  lemma BackFacts(m0: Memory, bs: seq<Block>, base: nat, n: nat, i: nat)
    requires Rep(m0, bs, base) && base > 0 && 0 < n <= i < |bs| && forall k :: 0 <= k < |bs| ==> bs[k].addr < |m0|
    ensures bs[n].Data() <= bs[i].End()
    ensures var m := Backed(m0, bs, n, i);
            && m[bs[n].addr] == Header(SlotOf(bs, n).(size := bs[i].End() - bs[n].Data()))
            && m[bs[n - 1].addr] == Header(SlotOf(bs, n - 1))
    ensures bs[n - 1].Data() <= bs[i].End() && bs[n].addr == bs[n - 1].End() && SlotOf(bs, n - 1).next == bs[n].addr
    ensures base <= bs[n - 1].addr && (bs[n - 1].addr == base <==> n == 1)
  {
    BackedCells(m0, bs, base, n, i);
    SlotFacts(m0, bs, base, n);
    SlotFacts(m0, bs, base, n - 1);
    if n > 1 {
      SlotFacts(m0, bs, base, n - 2);
    }
  }

  lemma PreviousMerged(m0: Memory, bs: seq<Block>, base: nat, n: nat, i: nat)
    requires Rep(m0, bs, base) && base > 0 && 0 < n <= i < |bs| && (forall k :: n <= k <= i ==> bs[k].free)
    requires forall k :: 0 <= k < |bs| ==> bs[k].addr < |m0|
    ensures bs[n].Data() <= bs[i].End() <= |m0|
    ensures n < i ==> bs[n].addr < bs[i].addr
    ensures n < i ==>
      var slot, m, next := bs[n].addr, Backed(m0, bs, n, i), SlotOf(bs, i).next;
      && m[slot] == Header(SlotOf(bs, n).(size := bs[i].End() - bs[n].Data()))
      && m[bs[i].addr] == Header(SlotOf(bs, i))
      && next < |m| && (next != NULL ==> next != slot && m[next].Header?)
      && (next == NULL <==> i + 1 == |bs|)
      && var m2 := Cleared(Relinked(m, slot, next), bs[n].Data(), bs[i].End() - bs[n].Data());
      Rep(m2, MergeBlocks(bs, n, i + 1), base) && Live(m2, MergeBlocks(bs, n, i + 1)) == Live(m0, bs)
  {
    hide Rep, Tiled, BlockOk, HeaderAt, DataOk, Live, LivePointers, Zeros, MergeBlocks, MergeWritten, Backed, SlotOf, Cleared, Relinked;
    BackedCells(m0, bs, base, n, i);
    SlotFacts(m0, bs, base, i);
    if n < i {
      InOrder(bs, base, |m0|, n, i);
      var slot, m, next := bs[n].addr, Backed(m0, bs, n, i), SlotOf(bs, i).next;
      var m2 := Cleared(Relinked(m, slot, next), bs[n].Data(), bs[i].End() - bs[n].Data());
      PreviousCells(m0, m, m2, bs, n, i);
      MergeWrites(m0, m2, bs, base, n, i + 1);
    }
  }

  lemma PreviousCells(m0: Memory, m: Memory, m2: Memory, bs: seq<Block>, n: nat, i: nat)
    requires 0 < n < i < |bs| && bs[n].Data() <= bs[i].End() <= |m0| == |m| && bs[n].addr < bs[i].addr && bs[n].addr > 0
    requires forall c :: 0 <= c < |m0| && c != bs[n].addr && (c < bs[n].Data() || bs[i].addr <= c) ==> m[c] == m0[c]
    requires m[bs[n].addr] == Header(SlotOf(bs, n).(size := bs[i].End() - bs[n].Data()))
    requires i + 1 < |bs| ==> bs[i + 1].addr == bs[i].End() < |m0| && m0[bs[i + 1].addr] == Header(SlotOf(bs, i + 1))
    requires var slot, next := bs[n].addr, SlotOf(bs, i).next;
             && next < |m| && (next != NULL ==> next != slot && m[next].Header?)
             && m2 == Cleared(Relinked(m, slot, next), bs[n].Data(), bs[i].End() - bs[n].Data())
    ensures MergeWritten(m0, m2, bs, n, i + 1)
  {
  }

  lemma MergeOne(bs: seq<Block>, i: nat)
    requires i < |bs| && bs[i].free
    ensures MergeBlocks(bs, i, i + 1) == bs
  {
  }

  /** Merging forward and then backward is merging the whole run. */
  lemma MergeTwice(bs: seq<Block>, base: nat, brk: nat, i: nat, t: seq<Block>)
    requires Tiled(bs, base, brk) && 0 < i < |bs| && bs[i].free && !bs[0].free
    requires t == MergeBlocks(bs, i, RunEnd(bs, i))
    ensures i < |t| && t[i].free && 0 < RunStart(t, i) && t[i].addr == bs[i].addr
    ensures MergeBlocks(t, RunStart(t, i), i + 1) == Coalesced(bs, i)
  {
    var lo, hi := RunStart(bs, i), RunEnd(bs, i);
    if i < hi - 1 {
      InOrder(bs, base, brk, i, hi - 1);
    }
    assert lo > 0;
    hide Tiled, RunStart, RunEnd;
    assert t[..i] == bs[..i] && t[i] == Merged(bs, i, hi) && t[i + 1..] == bs[hi..];
    assert forall k :: 0 <= k < i ==> t[k] == t[..i][k] == bs[k];
    RunStartIs(t, i, lo);
    assert t[..lo] == bs[..lo];
    assert Merged(t, lo, i + 1) == Merged(bs, lo, hi);
  }

  // ----- the two ways mm_malloc puts a block to use

  /** A free block of zeros whose isFree flag is cleared. */
  lemma TakeBlock(m: Memory, t: seq<Block>, base: nat, i: nat)
    requires Rep(m, t, base) && 0 < i < |t| && t[i].free
    ensures t[i].End() <= |m| && m[t[i].addr] == Header(SlotOf(t, i))
    ensures var m', t' := m[t[i].addr := Header(SlotOf(t, i).(isFree := false))], t[i := Used(t[i])];
            && Rep(m', t', base)
            && t[i].Data() !in Live(m, t)
            && Live(m', t') == Live(m, t)[t[i].Data() := Zeros(t[i].size)]
  {
    hide Live, LivePointers, DataAt;
    BlockFacts(m, t, base, i);
    hide Rep;
    var m' := m[t[i].addr := Header(SlotOf(t, i).(isFree := false))];
    assert Rewrites(m, m', t, i, false);
    assert m'[t[i].Data()..t[i].End()] == Zeros(t[i].size);
    hide Rewrites;
    UseStep(m, m', t, base, i, t[i := Used(t[i])]);
    LiveKeys(m, t);
  }

  lemma HeadReplaced(front: seq<Block>, mid: seq<Block>, back: seq<Block>, u: Block)
    requires mid != []
    ensures (front + mid + back)[|front|] == mid[0]
    ensures (front + mid + back)[|front| := u] == front + [u] + mid[1..] + back
    ensures u.addr == mid[0].addr ==>
      (front + [u] + mid[1..] + back)[|front| + |mid| + |back| - 1].addr == (front + mid + back)[|front| + |mid| + |back| - 1].addr
  {
  }

  /** Split, then taken, is what mm_malloc makes of its first fit. */
  lemma SplitAndTaken(bs: seq<Block>, i: nat, size: nat, brk: nat)
    requires i == FirstFit(bs, size) < |bs|
    ensures var t := SplitBlocks(bs, i, size);
            && i < |t| && t[i].free && t[i].addr == bs[i].addr && size <= t[i].size < size + HDR + 4
            && t[i := Used(t[i])] == Malloced(bs, size, brk)
            && Malloced(bs, size, brk) != []
            && Malloced(bs, size, brk)[|Malloced(bs, size, brk)| - 1].addr == t[|t| - 1].addr
  {
    hide FirstFit, Split;
    var mid := Split(bs[i], size);
    HeadReplaced(bs[..i], mid, bs[i + 1..], Used(mid[0]));
  }

  lemma LiveKeys(m: Memory, bs: seq<Block>)
    requires bs != []
    ensures Live(m, bs).Keys == LivePointers(bs)
  {
  }

  /** What mm_malloc learns from looking for a slot. */
  lemma FitFacts(m: Memory, bs: seq<Block>, base: nat, size: nat)
    requires Rep(m, bs, base) && base > 0 && size > 0
    ensures var i, last := FirstFit(bs, size), |bs| - 1;
            && (i < |bs| ==> 0 < i && bs[i].addr != NULL && Growth(bs, size) == 0 && bs[i].End() <= |m|
                             && MallocedAt(bs, size, |m|) == bs[i].addr + HDR)
            && bs[last].addr < |m| && m[bs[last].addr].Header? && m[bs[last].addr].slot.isFree == bs[last].free
  {
    var i, last := FirstFit(bs, size), |bs| - 1;
    SlotFacts(m, bs, base, last);
    if i < |bs| {
      SlotFacts(m, bs, base, i);
    }
  }

  lemma TailFacts(m: Memory, bs: seq<Block>, base: nat, size: nat)
    requires Rep(m, bs, base) && FirstFit(bs, size) == |bs| && size > 0
    ensures var last := bs[|bs| - 1];
            && last.addr < |m| && m[last.addr] == Header(SlotOf(bs, |bs| - 1)) && last.End() == |m|
            && (last.free ==> last.size < size && Growth(bs, size) == size - last.size)
            && (!last.free ==> Growth(bs, size) == HDR + size)
  {
    BlockFacts(m, bs, base, |bs| - 1);
  }

  /** The writes that append a slot, from the moment the break has moved. */
  lemma AppendWrites(m0: Memory, m1: Memory, bs: seq<Block>, base: nat, size: nat)
    requires Rep(m0, bs, base) && base > 0 && |m1| == |m0| + HDR + size && (forall k :: 0 <= k < |m0| ==> m1[k] == m0[k])
    requires FirstFit(bs, size) == |bs| && !bs[|bs| - 1].free && size > 0
    ensures var tail, newSlot, t := bs[|bs| - 1].addr, |m0|, Malloced(bs, size, |m0|);
            && tail < |m0| && m1[tail].Header? && t != [] && t[|t| - 1].addr == newSlot
            && var m := WithHeader(Cleared(m1, newSlot, HDR + size), newSlot, Slot(tail, NULL, false, size));
            && m[tail] == m1[tail]
            && var m' := m[tail := Header(m[tail].slot.(next := newSlot))];
            && Rep(m', t, base) && newSlot + HDR !in Live(m0, bs)
            && Live(m', t) == Live(m0, bs)[newSlot + HDR := Zeros(size)]
    ensures Growth(bs, size) == HDR + size && MallocedAt(bs, size, |m0|) == |m0| + HDR
  {
    hide Live, LivePointers, FirstFit;
    var last := |bs| - 1;
    var tail, newSlot, t := bs[last].addr, |m0|, Malloced(bs, size, |m0|);
    SlotFacts(m0, bs, base, last);
    hide Rep;
    var m := WithHeader(Cleared(m1, newSlot, HDR + size), newSlot, Slot(tail, NULL, false, size));
    var m' := m[tail := Header(m[tail].slot.(next := newSlot))];
    AppendStep(m0, m', bs, base, size, t);
    LiveKeys(m0, bs);
  }

  lemma ExtendWrites(m0: Memory, m1: Memory, bs: seq<Block>, base: nat, size: nat)
    requires Rep(m0, bs, base) && base > 0 && FirstFit(bs, size) == |bs| && bs[|bs| - 1].free && size > 0
    requires |m1| == |m0| + Growth(bs, size) && (forall k :: 0 <= k < |m0| ==> m1[k] == m0[k])
    ensures var last, t := bs[|bs| - 1], Malloced(bs, size, |m0|);
            && last.addr < |m0| && m1[last.addr] == Header(SlotOf(bs, |bs| - 1)) && last.size < size
            && |m1| == last.Data() + size && t != [] && t[|t| - 1].addr == last.addr
            && var m := Cleared(m1, last.Data(), size);
            && var m2 := m[last.addr := Header(SlotOf(bs, |bs| - 1).(size := size))];
            && var m' := m2[last.addr := Header(SlotOf(bs, |bs| - 1).(size := size).(isFree := false))];
            && m[last.addr] == m1[last.addr]
            && Rep(m', t, base) && last.Data() !in Live(m0, bs)
            && Live(m', t) == Live(m0, bs)[last.Data() := Zeros(size)]
    ensures Growth(bs, size) == size - bs[|bs| - 1].size && MallocedAt(bs, size, |m0|) == bs[|bs| - 1].Data()
  {
    hide Live, LivePointers, FirstFit;
    var last, t := bs[|bs| - 1], Malloced(bs, size, |m0|);
    assert !bs[0].free && !(bs[|bs| - 1].free && bs[|bs| - 1].size >= size);
    BlockFacts(m0, bs, base, |bs| - 1);
    hide Rep;
    var m := Cleared(m1, last.Data(), size);
    var m2 := m[last.addr := Header(SlotOf(bs, |bs| - 1).(size := size))];
    var m' := m2[last.addr := Header(SlotOf(bs, |bs| - 1).(size := size).(isFree := false))];
    ExtendStep(m0, m', bs, base, size, t);
    LiveKeys(m0, bs);
  }

  lemma FreeWrites(m: Memory, bs: seq<Block>, base: nat, i: nat)
    requires Rep(m, bs, base) && base > 0 && 0 < i < |bs| && !bs[i].free && bs[i].End() <= |m|
    ensures var m1, t := Cleared(m, bs[i].Data(), bs[i].size), bs[i := bs[i].(free := true)];
            && m1[bs[i].addr] == Header(SlotOf(bs, i)) && t != [] && t[|t| - 1].addr == bs[|bs| - 1].addr
            && var m2 := m1[bs[i].addr := Header(SlotOf(bs, i).(isFree := true))];
            && Rep(m2, t, base) && Live(m2, t) == Live(m, bs) - {bs[i].Data()}
  {
    hide Live, LivePointers;
    var m1, t := Cleared(m, bs[i].Data(), bs[i].size), bs[i := bs[i].(free := true)];
    BlockFacts(m, bs, base, i);
    hide Rep;
    var m2 := m1[bs[i].addr := Header(SlotOf(bs, i).(isFree := true))];
    assert Rewrites(m, m2, bs, i, true);
    FreeStep(m, m2, bs, base, i, t);
  }

  // ----- the data of a live block

  lemma ClientFacts(m: Memory, bs: seq<Block>, base: nat, p: nat) returns (i: nat)
    requires Rep(m, bs, base) && p in LivePointers(bs)
    ensures 0 < i < |bs| && !bs[i].free && bs[i].Data() == p && bs[i].End() <= |m|
    ensures HDR <= p && m[p - HDR] == Header(SlotOf(bs, i))
    ensures Live(m, bs)[p] == m[p..bs[i].End()] && (forall k :: p <= k < bs[i].End() ==> m[k].Byte?)
  {
    i := LivePointerBlock(bs, base, |m|, p);
    BlockFacts(m, bs, base, i);
  }

  /** memcpy and stores through pointers: `data` written at `p`. */
  function Written(m: Memory, p: nat, data: seq<Cell>): (m': Memory)
    requires p + |data| <= |m|
    ensures |m'| == |m|
    ensures forall k :: 0 <= k < |m| ==> m'[k] == if p <= k < p + |data| then data[k - p] else m[k]
  {
    m[..p] + data + m[p + |data|..]
  }

  /** Writing inside a live block changes that block's data and nothing else. */
  lemma WriteStep(m: Memory, bs: seq<Block>, base: nat, p: nat, at: nat, data: seq<Cell>)
    requires Rep(m, bs, base) && p in LivePointers(bs) && (forall c :: c in data ==> c.Byte?)
    requires at + |data| <= |Live(m, bs)[p]|
    ensures p + at + |data| <= |m| && Rep(Written(m, p + at, data), bs, base)
    ensures Live(Written(m, p + at, data), bs) ==
            Live(m, bs)[p := Live(m, bs)[p][..at] + data + Live(m, bs)[p][at + |data|..]]
  {
    hide Rep, Live, LivePointers, DataAt, Tiled, Written, Rewrites;
    var i := ClientFacts(m, bs, base, p);
    var m' := Written(m, p + at, data);
    WriteRewrites(m, bs, base, i, at, data);
    UsedStep(m, m', bs, base, i);
    WrittenData(m, p, at, data, bs[i].End());
  }

  lemma WriteRewrites(m: Memory, bs: seq<Block>, base: nat, i: nat, at: nat, data: seq<Cell>)
    requires Rep(m, bs, base) && 0 < i < |bs| && !bs[i].free && bs[i].End() <= |m| && at + |data| <= bs[i].size
    requires forall c :: c in data ==> c.Byte?
    ensures Rewrites(m, Written(m, bs[i].Data() + at, data), bs, i, false)
  {
    hide Rep, Tiled;
    BlockFacts(m, bs, base, i);
  }

  lemma WrittenData(m: Memory, p: nat, at: nat, data: seq<Cell>, e: nat)
    requires p + at + |data| <= e <= |m|
    ensures Written(m, p + at, data)[p..e] == m[p..e][..at] + data + m[p..e][at + |data|..]
  {
  }

  lemma UsedStep(m: Memory, m': Memory, bs: seq<Block>, base: nat, i: nat)
    requires Rep(m, bs, base) && 0 < i < |bs| && !bs[i].free && Rewrites(m, m', bs, i, false)
    ensures Rep(m', bs, base) && bs[i].End() <= |m'|
    ensures Live(m', bs) == Live(m, bs)[bs[i].Data() := m'[bs[i].Data()..bs[i].End()]]
  {
    hide *;
    assert bs[i := bs[i].(free := false)] == bs;
    RewriteFits(m, m', bs, base, i, false, bs);
    RewrittenData(m, m', bs, i);
    assert bs[i..i + 1] == [bs[i]];
    SpliceStep(m, m', bs, base, i, i + 1, [bs[i]]);
    OnePointer(bs[i]);
    LiveGains(m, m', bs, bs, {bs[i].Data()}, bs[i].Data());
  }

  lemma RewrittenData(m: Memory, m': Memory, bs: seq<Block>, i: nat)
    requires i < |bs| && !bs[i].free && Rewrites(m, m', bs, i, false)
    ensures bs[i].End() <= |m'| && DataAt(m', bs[i].Data()) == m'[bs[i].Data()..bs[i].End()]
  {
  }
}
