/** mm_alloc.c: malloc, realloc and free over a list of slots kept inside the heap. */
module Allocator {
  import opened HeapLayout
  import opened HeapPolicy
  import opened HeapSteps

  class Allocator {
    /** The break before the first call, and the address the break cannot pass. */
    const base: nat
    const limit: nat
    var mem: Memory
    var head: nat
    var tail: nat
    var isInit: bool
    ghost var blocks: seq<Block>

    /** Everything but maximal coalescing, which mm_free breaks and merge_free_space restores. */
    ghost predicate Tidy()
      reads this
    {
      && isInit && 0 < base && blocks != [] && Rep(mem, blocks, base) && |mem| <= limit
      && head == base && tail == blocks[|blocks| - 1].addr
    }

    ghost predicate Valid()
      reads this
    {
      if isInit then Tidy() && NoTwoFree(blocks)
      else blocks == [] && 0 < |mem| == base && base + HDR <= limit
    }

    /** What the clients own: every live pointer and the bytes behind it. */
    ghost function Clients(): map<nat, seq<Cell>>
      reads this
    {
      if blocks == [] then map[] else Live(mem, blocks)
    }

    constructor (program: seq<bv8>, limit: nat)
      requires 0 < |program| && |program| + HDR <= limit
      ensures Valid() && Clients() == map[] && !isInit
    {
      this.limit := limit;
      base := |program|;
      mem := seq(|program|, i requires 0 <= i < |program| => Byte(program[i]));
      head, tail, isInit, blocks := NULL, NULL, false, [];
    }

    /** In every reachable heap what sbrk gave is accounted for and no two blocks overlap. */
    lemma Shape()
      requires Valid() && isInit
      ensures Bytes(blocks) == |mem| - base
      ensures forall i, j :: 0 <= i < j < |blocks| ==> blocks[i].End() <= blocks[j].addr
    {
      BytesConserved(blocks, base, |mem|);
      Disjoint(blocks, base, |mem|);
    }

    /** `prev` inverts `next`, and slots are linked in address order with nothing between them. */
    lemma Neighbours(i: nat)
      requires Valid() && isInit && i + 1 < |blocks|
      ensures blocks[i].End() == blocks[i + 1].addr < |mem|
      ensures mem[blocks[i].addr].Header? && mem[blocks[i].addr].slot.next == blocks[i + 1].addr
      ensures mem[blocks[i + 1].addr].Header? && mem[blocks[i + 1].addr].slot.prev == blocks[i].addr
    {
      SlotFacts(mem, blocks, base, i);
    }

    /** sbrk: new bytes of unknown content, or failure. */
    method Sbrk(n: nat) returns (ok: bool, a: nat)
      modifies `mem
      ensures ok <==> old(|mem|) + n <= limit
      ensures ok ==> a == old(|mem|) && |mem| == a + n && forall k :: 0 <= k < a ==> mem[k] == old(mem[k])
      ensures !ok ==> mem == old(mem)
    {
      ok, a := |mem| + n <= limit, |mem|;
      if ok {
        var more: seq<Cell> :| |more| == n by {
          assert |Zeros(n)| == n;
        }
        mem := mem + more;
      }
    }

    method InitMalloc()
      requires Valid() && !isInit
      modifies this
      ensures Valid() && isInit && Clients() == map[]
      ensures blocks == [Block(base, 0, false)] && |mem| == base + HDR
    {
      var _, a := Sbrk(HDR);
      head := a;
      mem := WithHeader(mem, head, Slot(NULL, NULL, false, 0));
      isInit := true;
      tail := head;
      blocks := [Block(base, 0, false)];
      assert BlockOk(mem, blocks, 0);
    }

    /** The first free slot with room for `size` bytes, or NULL. */
    method FindListElem(size: nat) returns (a: nat, ghost i: nat)
      requires Tidy()
      ensures i == FirstFit(blocks, size)
      ensures a == if FirstFit(blocks, size) < |blocks| then blocks[FirstFit(blocks, size)].addr else NULL
    {
      var iter := head;
      i := 0;
      while iter != NULL
        invariant i <= |blocks| && iter == if i < |blocks| then blocks[i].addr else NULL
        invariant forall k :: 0 <= k < i ==> !(blocks[k].free && blocks[k].size >= size)
        decreases |blocks| - i
      {
        BlockFacts(mem, blocks, base, i);
        if mem[iter].slot.isFree {
          if mem[iter].slot.size >= size {
            FirstFitIs(blocks, size, i);
            return iter, i;
          }
        }
        iter := mem[iter].slot.next;
        i := i + 1;
      }
      if i < |blocks| {
        BlockFacts(mem, blocks, base, i);
      }
      FirstFitIs(blocks, size, i);
      a := NULL;
    }

    /** The slot whose data starts at `p`. */
    method FindListElemDataLocation(p: nat) returns (a: nat, ghost i: nat)
      requires Tidy() && p in Clients()
      ensures 0 < i < |blocks| && blocks[i].Data() == p && !blocks[i].free
      ensures a + HDR == p
    {
      i := LivePointerBlock(blocks, base, |mem|, p);
      ghost var n := 0;
      var iter := head;
      while iter != NULL
        invariant n <= i && iter == blocks[n].addr
        decreases i - n
      {
        BlockFacts(mem, blocks, base, n);
        if iter + HDR == p {
          return iter, n;
        }
        iter := mem[iter].slot.next;
        n := n + 1;
      }
      BlockFacts(mem, blocks, base, n);
      assert false;
    }

    /** Write the header of a new free slot and link it in behind `slot`, which shrinks to `size`. */
    method LinkNewSlot(slot: nat, size: nat, newSlot: nat, newSize: nat)
      requires slot + HDR <= newSlot && newSlot + HDR <= |mem| && mem[slot].Header?
      requires mem[slot].slot.next != NULL ==>
                 newSlot + HDR <= mem[slot].slot.next < |mem| && mem[mem[slot].slot.next].Header?
      modifies `mem, `tail
      ensures NewSlotLinked(old(mem), mem, slot, size, newSlot, newSize)
      ensures tail == if old(mem[slot].slot.next) == NULL then newSlot else old(tail)
    {
      var next := mem[slot].slot.next;
      mem := WithHeader(mem, newSlot, Slot(slot, next, true, newSize));
      mem := mem[slot := Header(mem[slot].slot.(next := newSlot))];
      if next != NULL {
        mem := mem[next := Header(mem[next].slot.(prev := newSlot))];
      } else {
        tail := newSlot;
      }
      mem := mem[slot := Header(mem[slot].slot.(size := size))];
    }

    /** The first branch of split_slot: the rest of the free slot becomes a free slot of its own. */
    method CutSlot(slot: nat, size: nat, ghost i: nat)
      requires Tidy() && 0 < i < |blocks| && blocks[i].free && blocks[i].addr == slot && Splits(blocks[i], size)
      modifies `mem, `tail, `blocks
      ensures Tidy() && |mem| == old(|mem|)
      ensures blocks == SplitBlocks(old(blocks), i, size) && Live(mem, blocks) == old(Live(mem, blocks))
    {
      hide Rep, Live, LivePointers, NewSlotLinked, SplitBlocks, Split, HeaderAt, Cleared, Zeros;
      ghost var m0, bs, b := mem, blocks, blocks[i];
      SplitEnds(bs, i, size);
      SlotFacts(mem, bs, base, i);
      var newSlot, newSize := slot + HDR + size, mem[slot].slot.size - size - HDR;
      LinkNewSlot(slot, size, newSlot, newSize);
      SplitWrites(m0, mem, bs, base, i, size);
      mem := Cleared(Cleared(mem, newSlot + HDR, newSize), slot + HDR, size);
      blocks := SplitBlocks(bs, i, size);
    }

    /** Cut the free slot at `slot` down to `size` if the rest makes a slot of its own, and clear it. */
    method SplitSlot(slot: nat, size: nat, ghost i: nat)
      requires Tidy() && 0 < i < |blocks| && blocks[i].free && blocks[i].addr == slot
      modifies `mem, `tail, `blocks
      ensures Tidy() && |mem| == old(|mem|)
      ensures blocks == SplitBlocks(old(blocks), i, size) && Clients() == old(Clients())
    {
      SplitEnds(blocks, i, size);
      SlotFacts(mem, blocks, base, i);
      ClearingFree(mem, blocks, base, i);
      hide Rep, Live, LivePointers, SplitBlocks;
      if mem[slot].slot.size >= size + HDR + 4 {
        CutSlot(slot, size, i);
      } else {
        mem := Cleared(mem, slot + HDR, mem[slot].slot.size);
      }
    }

    /** The first loop of merge_free_space: add up the free slots that follow `slot`. */
    method SwallowFollowing(slot: nat, ghost i: nat) returns (last: nat, ghost n: nat)
      requires Tidy() && 0 < i < |blocks| && blocks[i].addr == slot
      modifies `mem
      ensures i <= n < |blocks| && n + 1 == RunEnd(blocks, i) && last == blocks[n].addr
      ensures slot < |old(mem)| && mem == Swallowed(old(mem), blocks, i, n)
      ensures forall k :: i < k <= n ==> blocks[k].free
    {
      hide Rep, HeaderAt, RunEnd, Swallowed;
      ghost var m0, bs := mem, blocks;
      n := i;
      SwallowFacts(mem, bs, base, i, i);
      SlotFacts(mem, bs, base, i);
      var iter;
      iter, last := mem[slot].slot.next, slot;
      while iter != NULL && mem[iter].slot.isFree
        invariant i <= n < |bs| && mem == Swallowed(m0, bs, i, n)
        invariant last == bs[n].addr && iter == if n + 1 < |bs| then bs[n + 1].addr else NULL
        invariant n + 1 < |bs| ==> iter != NULL && iter < |mem| && mem[iter] == Header(SlotOf(bs, n + 1))
        invariant forall k :: i < k <= n ==> bs[k].free
        decreases |bs| - n
      {
        SwallowFacts(m0, bs, base, i, n);
        SwallowFacts(m0, bs, base, i, n + 1);
        mem := mem[slot := Header(mem[slot].slot.(size := mem[slot].slot.size + mem[iter].slot.size + HDR))];
        last := iter;
        iter := mem[iter].slot.next;
        n := n + 1;
      }
      RunEndIs(bs, i, n + 1);
    }

    method Relink(slot: nat, next: nat)
      requires slot < |mem| && mem[slot].Header? && next < |mem|
      requires next != NULL ==> next != slot && mem[next].Header?
      modifies `mem, `tail
      ensures mem == Relinked(old(mem), slot, next)
      ensures tail == if next == NULL then slot else old(tail)
    {
      mem := mem[slot := Header(mem[slot].slot.(next := next))];
      if next == NULL {
        tail := slot;
      } else {
        mem := mem[next := Header(mem[next].slot.(prev := slot))];
      }
    }

    /** The first half of merge_free_space: merge the free slots that follow into `slot`. */
    method MergeFollowing(slot: nat, ghost i: nat)
      requires Tidy() && 0 < i < |blocks| && blocks[i].free && blocks[i].addr == slot
      modifies `mem, `tail, `blocks
      ensures Tidy() && |mem| == old(|mem|)
      ensures blocks == MergeBlocks(old(blocks), i, RunEnd(old(blocks), i)) && Live(mem, blocks) == old(Live(mem, blocks))
    {
      hide Rep, Live, LivePointers, HeaderAt, Zeros, RunEnd, MergeBlocks, Relinked, Swallowed, Cleared;
      ghost var m0, bs := mem, blocks;
      var last, n := SwallowFollowing(slot, i);
      FollowingMerged(m0, bs, base, i, n);
      SwallowFacts(m0, bs, base, i, n);
      MergeTail(bs, i, n + 1);
      if last != slot {
        Relink(slot, mem[last].slot.next);
      }
      assert mem[slot].Header? && mem[slot].slot.size == bs[n].End() - bs[i].Data();
      mem := Cleared(mem, slot + HDR, mem[slot].slot.size);
      blocks := MergeBlocks(bs, i, n + 1);
    }

    /** The second loop of merge_free_space: let each free slot before `slot` swallow what follows it. */
    method SwallowedByPrevious(slot: nat, ghost i: nat) returns (tmpHead: nat, ghost n: nat)
      requires Tidy() && 0 < i < |blocks| && blocks[i].addr == slot
      requires forall k :: 0 <= k < |blocks| ==> blocks[k].addr < |mem|
      modifies `mem
      ensures 0 < n <= i && n == RunStart(blocks, i) && tmpHead == blocks[n].addr
      ensures mem == Backed(old(mem), blocks, n, i)
      ensures forall k :: n <= k < i ==> blocks[k].free
    {
      hide HeaderAt, RunStart, Backed;
      ghost var m0, bs := mem, blocks;
      assert !bs[0].free;
      n := i;
      BackFacts(m0, bs, base, i, i);
      assert Backed(m0, bs, i, i) == m0 by { BackedStart(m0, bs, i); }
      hide Rep;
      var iter;
      iter, tmpHead := mem[slot].slot.prev, slot;
      while iter != head && mem[iter].slot.isFree
        invariant 0 < n <= i && mem == Backed(m0, bs, n, i)
        invariant tmpHead == bs[n].addr && iter == bs[n - 1].addr
        invariant forall k :: n <= k < i ==> bs[k].free
        invariant mem[iter] == Header(SlotOf(bs, n - 1)) && (iter == head <==> n == 1)
        decreases n
      {
        BackFacts(m0, bs, base, n, i);
        BackFacts(m0, bs, base, n - 1, i);
        BackedNext(m0, bs, n - 1, i);
        var size := mem[mem[iter].slot.next].slot.size;
        mem := mem[iter := Header(mem[iter].slot.(size := mem[iter].slot.size + size + HDR))];
        tmpHead := iter;
        iter := mem[iter].slot.prev;
        n := n - 1;
      }
      RunStartIs(bs, i, n);
    }

    /** The second half of merge_free_space: merge `slot` into the free slots before it. */
    method MergePrevious(slot: nat, ghost i: nat)
      requires Tidy() && 0 < i < |blocks| && blocks[i].free && blocks[i].addr == slot && !blocks[0].free
      modifies `mem, `tail, `blocks
      ensures Tidy() && |mem| == old(|mem|)
      ensures blocks == MergeBlocks(old(blocks), RunStart(old(blocks), i), i + 1)
      ensures Live(mem, blocks) == old(Live(mem, blocks))
    {
      hide Rep, Live, LivePointers, HeaderAt, Zeros, RunStart, MergeBlocks, Relinked, Backed, Cleared;
      ghost var m0, bs := mem, blocks;
      AddrsInMemory(mem, bs, base);
      var tmpHead, n := SwallowedByPrevious(slot, i);
      PreviousMerged(m0, bs, base, n, i);
      MergeTail(bs, n, i + 1);
      MergeOne(bs, i);
      BackedStart(m0, bs, i);
      if tmpHead != slot {
        Relink(tmpHead, mem[slot].slot.next);
        mem := Cleared(mem, tmpHead + HDR, mem[tmpHead].slot.size);
        blocks := MergeBlocks(bs, n, i + 1);
      }
    }

    method MergeFreeSpace(slot: nat, ghost i: nat)
      requires Tidy() && 0 < i < |blocks| && blocks[i].free && blocks[i].addr == slot
      modifies `mem, `tail, `blocks
      ensures Tidy() && |mem| == old(|mem|)
      ensures blocks == Coalesced(old(blocks), i) && Live(mem, blocks) == old(Live(mem, blocks))
    {
      ghost var bs := blocks;
      assert Tiled(bs, base, |mem|) && !bs[0].free;
      hide Rep, Live, LivePointers, Tiled, MergeBlocks, Coalesced, RunStart, RunEnd;
      MergeTwice(bs, base, |mem|, i, MergeBlocks(bs, i, RunEnd(bs, i)));
      MergeFollowing(slot, i);
      assert !blocks[0].free by { FirstIsSentinel(); }
      MergePrevious(slot, i);
    }

    lemma FirstIsSentinel()
      requires Tidy()
      ensures !blocks[0].free
    {
    }

    /** A first fit is split and taken. */
    method TakeFirstFit(slot: nat, size: nat, ghost i: nat) returns (p: nat)
      requires Tidy() && i == FirstFit(blocks, size) < |blocks| && 0 < i && slot == blocks[i].addr
      modifies `mem, `tail, `blocks
      ensures Tidy() && |mem| == old(|mem|)
      ensures blocks == Malloced(old(blocks), size, old(|mem|)) && p == MallocedAt(old(blocks), size, old(|mem|))
      ensures p !in old(Live(mem, blocks))
      ensures exists n :: size <= n < size + HDR + 4 && Live(mem, blocks) == old(Live(mem, blocks))[p := Zeros(n)]
    {
      hide Rep, Live, LivePointers, SplitBlocks, Malloced, FirstFit, Zeros;
      SplitAndTaken(blocks, i, size, |mem|);
      SplitSlot(slot, size, i);
      TakeBlock(mem, blocks, base, i);
      mem := mem[slot := Header(mem[slot].slot.(isFree := false))];
      ghost var n := blocks[i].size;
      blocks := blocks[i := Used(blocks[i])];
      p := slot + HDR;
      assert size <= n < size + HDR + 4;
    }

    /** The last slot, if free, grows to `size` bytes with new memory. */
    method ExtendTail(size: nat) returns (p: nat)
      requires Tidy() && FirstFit(blocks, size) == |blocks| && blocks[|blocks| - 1].free && size > 0
      modifies `mem, `blocks
      ensures Tidy()
      ensures p == NULL <==> old(|mem|) + Growth(old(blocks), size) > limit
      ensures p == NULL ==> mem == old(mem) && blocks == old(blocks)
      ensures p != NULL ==> |mem| == old(|mem|) + Growth(old(blocks), size)
      ensures p != NULL ==> blocks == Malloced(old(blocks), size, old(|mem|)) && p == MallocedAt(old(blocks), size, old(|mem|))
      ensures p != NULL ==> p !in old(Live(mem, blocks)) && Live(mem, blocks) == old(Live(mem, blocks))[p := Zeros(size)]
    {
      hide Rep, Live, LivePointers, FirstFit, Malloced, MallocedAt, Growth, Zeros, Cleared;
      ghost var m0, bs := mem, blocks;
      TailFacts(mem, bs, base, size);
      var ok, _ := Sbrk(size - mem[tail].slot.size);
      if !ok {
        return NULL;
      }
      ExtendWrites(m0, mem, bs, base, size);
      mem := Cleared(mem, tail + HDR, size);
      mem := mem[tail := Header(mem[tail].slot.(size := size))];
      mem := mem[tail := Header(mem[tail].slot.(isFree := false))];
      blocks := Malloced(bs, size, |m0|);
      p := tail + HDR;
    }

    /** A new slot in new memory behind the last one. */
    method AppendSlot(size: nat) returns (p: nat)
      requires Tidy() && FirstFit(blocks, size) == |blocks| && !blocks[|blocks| - 1].free && size > 0
      modifies `mem, `tail, `blocks
      ensures Tidy()
      ensures p == NULL <==> old(|mem|) + Growth(old(blocks), size) > limit
      ensures p == NULL ==> mem == old(mem) && blocks == old(blocks)
      ensures p != NULL ==> |mem| == old(|mem|) + Growth(old(blocks), size)
      ensures p != NULL ==> blocks == Malloced(old(blocks), size, old(|mem|)) && p == MallocedAt(old(blocks), size, old(|mem|))
      ensures p != NULL ==> p !in old(Live(mem, blocks)) && Live(mem, blocks) == old(Live(mem, blocks))[p := Zeros(size)]
    {
      hide Rep, Live, LivePointers, FirstFit, Malloced, MallocedAt, Growth, Zeros, Cleared, WithHeader;
      ghost var m0, bs := mem, blocks;
      TailFacts(mem, bs, base, size);
      var ok, newSlot := Sbrk(HDR + size);
      if !ok {
        return NULL;
      }
      AppendWrites(m0, mem, bs, base, size);
      mem := WithHeader(Cleared(mem, newSlot, HDR + size), newSlot, Slot(tail, NULL, false, size));
      mem := mem[tail := Header(mem[tail].slot.(next := newSlot))];
      tail := newSlot;
      blocks := Malloced(bs, size, |m0|);
      p := newSlot + HDR;
    }

    /** No free block is large enough, and the break cannot move as far as `size` needs. */
    ghost predicate NoRoom(size: nat)
      requires Valid()
      reads this
    {
      if isInit then |mem| + Growth(blocks, size) > limit
      else base + HDR + Growth([Block(base, 0, false)], size) > limit
    }

    /**
     * A new block of at least `size` zero bytes that nobody else owns, or NULL; everybody else's
     * data is as it was. NULL is returned only for size 0 and when the break cannot move far enough.
     */
    method Malloc(size: nat) returns (p: nat)
      requires Valid()
      modifies this
      ensures Valid() && isInit
      ensures var bs := if old(isInit) then old(blocks) else [Block(base, 0, false)];
              var brk := if old(isInit) then old(|mem|) else base + HDR;
              && (p == NULL ==> blocks == bs && Clients() == old(Clients()))
              && (p != NULL ==> blocks == Malloced(bs, size, brk) && p == MallocedAt(bs, size, brk))
      ensures p == NULL <==> size == 0 || old(NoRoom(size))
      ensures p != NULL ==> p !in old(Clients())
      ensures p != NULL ==> exists n :: size <= n < size + HDR + 4 && Clients() == old(Clients())[p := Zeros(n)]
    {
      hide Rep, Live, LivePointers, FirstFit, Malloced, MallocedAt, Growth, Zeros, NoTwoFree;
      if !isInit {
        InitMalloc();
      }
      if size == 0 {
        return NULL;
      }
      ghost var bs, m0 := blocks, mem;
      MallocKeepsCoalesced(bs, size, |m0|);
      FitFacts(m0, bs, base, size);
      var slot, i := FindListElem(size);
      if slot != NULL {
        p := TakeFirstFit(slot, size, i);
      } else if mem[tail].slot.isFree {
        p := ExtendTail(size);
        assert p != NULL ==> size <= size < size + HDR + 4;
      } else {
        p := AppendSlot(size);
        assert p != NULL ==> size <= size < size + HDR + 4;
      }
    }

    /** `ptr` must be NULL or live. */
    method Free(ptr: nat)
      requires Valid() && (ptr == NULL || ptr in Clients())
      modifies this
      ensures Valid() && isInit == old(isInit)
      ensures Clients() == old(Clients()) - {ptr}
      ensures ptr == NULL ==> blocks == old(blocks) && mem == old(mem)
      ensures ptr != NULL ==> exists i :: 0 < i < |old(blocks)| && old(blocks[i].Data()) == ptr && blocks == Freed(old(blocks), i)
    {
      hide Rep, Live, LivePointers, NoTwoFree, Coalesced, Cleared, HeaderAt, DataOk;
      NullIsNotLive();
      if ptr != NULL {
        ghost var m0, bs := mem, blocks;
        var slot, i := FindListElemDataLocation(ptr);
        SlotFacts(mem, bs, base, i);
        FreeKeepsCoalesced(bs, i);
        FreeWrites(mem, bs, base, i);
        mem := Cleared(mem, ptr, mem[slot].slot.size);
        mem := mem[slot := Header(mem[slot].slot.(isFree := true))];
        blocks := bs[i := bs[i].(free := true)];
        MergeFreeSpace(slot, i);
      }
    }

    lemma NullIsNotLive()
      requires Valid()
      ensures NULL !in Clients()
    {
      if blocks != [] && NULL in LivePointers(blocks) {
        var i := ClientFacts(mem, blocks, base, NULL);
        assert false;
      }
    }

    /** A store through a pointer by the client that owns it. */
    method Store(ptr: nat, at: nat, b: bv8)
      requires Valid() && ptr in Clients() && at < |Clients()[ptr]|
      modifies `mem
      ensures Valid() && Clients() == old(Clients())[ptr := old(Clients())[ptr][at := Byte(b)]]
    {
      WriteStep(mem, blocks, base, ptr, at, [Byte(b)]);
      ghost var data := Clients()[ptr];
      assert data[..at] + [Byte(b)] + data[at + 1..] == data[at := Byte(b)];
      hide Rep, Live, LivePointers, Written;
      mem := Written(mem, ptr + at, [Byte(b)]);
    }

    /** memcpy of the first `n` bytes of one live block over another. */
    method CopyInto(dst: nat, src: nat, n: nat)
      requires Valid() && dst in Clients() && src in Clients() && n <= |Clients()[src]| && n <= |Clients()[dst]|
      modifies `mem
      ensures Valid()
      ensures Clients() == old(Clients())[dst := old(Clients())[src][..n] + old(Clients())[dst][n..]]
    {
      hide Rep, Live, NoTwoFree, Written;
      SizeField(src);
      var data := mem[src..src + n];
      assert data == Clients()[src][..n];
      LiveKeys(mem, blocks);
      WriteStep(mem, blocks, base, dst, 0, data);
      assert Clients()[dst][..0] + data + Clients()[dst][n..] == data + Clients()[dst][n..];
      mem := Written(mem, dst + 0, data);
    }

    /** The size field of a live slot is the number of bytes its client owns. */
    lemma SizeField(ptr: nat)
      requires Valid() && ptr in Clients()
      ensures HDR <= ptr && ptr - HDR < |mem| && mem[ptr - HDR].Header?
      ensures mem[ptr - HDR].slot.size == |Clients()[ptr]| && ptr + |Clients()[ptr]| <= |mem|
      ensures mem[ptr..ptr + |Clients()[ptr]|] == Clients()[ptr] && forall c :: c in Clients()[ptr] ==> c.Byte?
    {
      var j := ClientFacts(mem, blocks, base, ptr);
    }

    /** What mm_realloc promises about the bytes of the new block. */
    ghost predicate Resized(was: seq<Cell>, now: seq<Cell>, size: nat) {
      var kept := if |was| <= size then |was| else size;
      && size <= |now|
      && now == was[..kept] + Zeros(|now| - kept)
    }

    lemma ClientsAreTidy()
      requires Valid() && Clients() != map[]
      ensures Tidy()
    {
    }

    lemma CopyResizes(was: seq<Cell>, n: nat, size: nat)
      requires size <= n
      ensures var kept := if size >= |was| then |was| else size;
              Resized(was, was[..kept] + Zeros(n)[kept..], size)
    {
    }

    /** The old block's bytes move to a new block, when there is one. */
    method Move(ptr: nat, size: nat) returns (newPtr: nat)
      requires Valid() && ptr in Clients() && size > 0
      modifies this
      ensures Valid()
      ensures newPtr == NULL <==> old(NoRoom(size))
      ensures newPtr == NULL ==> Clients() == old(Clients())
      ensures newPtr != NULL ==> newPtr !in old(Clients()) && newPtr in Clients()
      ensures newPtr != NULL ==> Clients() == (old(Clients()) - {ptr})[newPtr := Clients()[newPtr]]
      ensures newPtr != NULL ==> Resized(old(Clients())[ptr], Clients()[newPtr], size)
    {
      hide Valid, Tidy, Rep, Live, LivePointers, NoTwoFree, Malloced, MallocedAt, Growth, Freed, Zeros, Resized, Clients, NoRoom;
      ClientsAreTidy();
      var slot, i := FindListElemDataLocation(ptr);
      newPtr := Malloc(size);
      if newPtr == NULL {
        return;
      }
      SizeField(ptr);
      ghost var n: nat :| size <= n < size + HDR + 4 && Clients() == old(Clients())[newPtr := Zeros(n)];
      CopyResizes(old(Clients())[ptr], n, size);
      if size >= mem[slot].slot.size {
        CopyInto(newPtr, ptr, mem[slot].slot.size);
      } else {
        CopyInto(newPtr, ptr, size);
      }
      Free(ptr);
    }

    /**
     * The old block's bytes move to a new block, cut or filled up with zeros to the new size. When
     * there is no room the old block is left as it was.
     */
    method Realloc(ptr: nat, size: nat) returns (r: nat)
      requires Valid() && (ptr == NULL || ptr in Clients())
      modifies this
      ensures Valid()
      ensures size == 0 ==> r == NULL && Clients() == old(Clients()) - {ptr}
      ensures size > 0 ==> (r == NULL <==> old(NoRoom(size)))
      ensures size > 0 && r == NULL ==> Clients() == old(Clients())
      ensures r != NULL ==> r !in old(Clients()) && r in Clients()
      ensures r != NULL ==> Clients() == (old(Clients()) - {ptr})[r := Clients()[r]]
      ensures r != NULL ==> Resized(if ptr == NULL then [] else old(Clients())[ptr], Clients()[r], size)
    {
      hide Valid, Tidy, Rep, Live, LivePointers, NoTwoFree, Malloced, MallocedAt, Growth, Freed, Clients, NoRoom;
      NullIsNotLive();
      if size == 0 {
        Free(ptr);
        return NULL;
      }
      if ptr == NULL {
        r := Malloc(size);
        return;
      }
      r := Move(ptr, size);
    }
  }
}
