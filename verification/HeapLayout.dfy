/**
 * Memory as the allocator of hw3 sees it: bytes at addresses 0 up to the break, with slot
 * headers among them, and the list of blocks that memory is meant to hold.
 */
module HeapLayout {

  /** sizeof(slot): two pointers, a bool padded to a word, and a size. */
  const HDR: nat := 32
  const NULL: nat := 0

  datatype Slot = Slot(prev: nat, next: nat, isFree: bool, size: nat)

  /** A byte of data, the first byte of a header, or one of the 31 bytes that follow it. */
  datatype Cell = Byte(b: bv8) | Header(slot: Slot) | Inside

  type Memory = seq<Cell>

  datatype Block = Block(addr: nat, size: nat, free: bool) {
    function End(): nat {
      addr + HDR + size
    }

    function Data(): nat {
      addr + HDR
    }
  }

  function Zeros(n: nat): (s: seq<Cell>)
    ensures |s| == n && forall i :: 0 <= i < n ==> s[i] == Byte(0)
  {
    seq(n, _ => Byte(0))
  }

  /** memset(a, 0, n). */
  function Cleared(mem: Memory, a: nat, n: nat): (m: Memory)
    requires a + n <= |mem|
    ensures |m| == |mem|
    ensures forall k :: 0 <= k < |mem| ==> m[k] == if a <= k < a + n then Byte(0) else mem[k]
  {
    mem[..a] + Zeros(n) + mem[a + n..]
  }

  /** All the fields of a header written at `a`. */
  function WithHeader(mem: Memory, a: nat, s: Slot): (m: Memory)
    requires a + HDR <= |mem|
    ensures |m| == |mem|
    ensures forall k :: 0 <= k < |mem| ==>
              m[k] == if k == a then Header(s) else if a < k < a + HDR then Inside else mem[k]
  {
    mem[..a] + [Header(s)] + seq(HDR - 1, _ => Inside) + mem[a + HDR..]
  }

  ghost predicate HeaderAt(mem: Memory, a: nat, s: Slot) {
    a + HDR <= |mem| && mem[a] == Header(s) && forall k :: a < k < a + HDR ==> mem[k] == Inside
  }

  // ----- the heap invariant

  /** The blocks lie end to end from `base` to the break. */
  ghost predicate Tiled(bs: seq<Block>, base: nat, brk: nat) {
    && bs != [] && bs[0].addr == base
    && (forall i {:trigger bs[i].End()} :: 0 <= i < |bs| ==>
          bs[i].End() == if i + 1 < |bs| then bs[i + 1].addr else brk)
  }

  /** The header of block `i`: list order is address order, and `prev` inverts `next`. */
  ghost function SlotOf(bs: seq<Block>, i: nat): Slot
    requires i < |bs|
  {
    Slot(if i == 0 then NULL else bs[i - 1].addr,
         if i + 1 == |bs| then NULL else bs[i + 1].addr,
         bs[i].free, bs[i].size)
  }

  /** A free block is all zeros. */
  ghost predicate DataOk(mem: Memory, b: Block) {
    b.End() <= |mem| && forall k :: b.Data() <= k < b.End() ==> mem[k].Byte? && (b.free ==> mem[k] == Byte(0))
  }

  ghost predicate BlockOk(mem: Memory, bs: seq<Block>, i: nat)
    requires i < |bs|
  {
    HeaderAt(mem, bs[i].addr, SlotOf(bs, i)) && DataOk(mem, bs[i])
  }

  /** Memory holds exactly these blocks; the first is the empty sentinel that is never free. */
  ghost predicate Rep(mem: Memory, bs: seq<Block>, base: nat) {
    && Tiled(bs, base, |mem|)
    && bs[0].size == 0 && !bs[0].free
    && (forall i :: 0 <= i < |bs| ==> BlockOk(mem, bs, i))
  }

  /** Coalescing is maximal. */
  ghost predicate NoTwoFree(bs: seq<Block>) {
    forall i, j :: 0 <= i < |bs| && 0 <= j < |bs| && j == i + 1 ==> !(bs[i].free && bs[j].free)
  }

  lemma {:induction false} InOrder(bs: seq<Block>, base: nat, brk: nat, i: nat, j: nat)
    requires Tiled(bs, base, brk) && i < j < |bs|
    ensures base <= bs[i].addr && bs[i].End() <= bs[j].addr && bs[j].End() <= brk
    decreases j - i
  {
    assert bs[i].End() == bs[i + 1].addr;
    if i + 1 < j {
      InOrder(bs, base, brk, i + 1, j);
    }
    if i > 0 {
      Above(bs, base, brk, i);
    }
    Below(bs, base, brk, j);
  }

  lemma {:induction false} Above(bs: seq<Block>, base: nat, brk: nat, i: nat)
    requires Tiled(bs, base, brk) && i < |bs|
    ensures base <= bs[i].addr
  {
    if i > 0 {
      Above(bs, base, brk, i - 1);
      assert bs[i - 1].End() == bs[i].addr;
    }
  }

  lemma {:induction false} Below(bs: seq<Block>, base: nat, brk: nat, i: nat)
    requires Tiled(bs, base, brk) && i < |bs|
    ensures bs[i].End() <= brk
    decreases |bs| - i
  {
    assert bs[i].End() == if i + 1 < |bs| then bs[i + 1].addr else brk;
    if i + 1 < |bs| {
      Below(bs, base, brk, i + 1);
    }
  }

  /** Blocks never overlap. */
  lemma Disjoint(bs: seq<Block>, base: nat, brk: nat)
    requires Tiled(bs, base, brk)
    ensures forall i, j {:trigger bs[i], bs[j]} :: 0 <= i < j < |bs| ==> bs[i].End() <= bs[j].addr
    ensures forall i :: 0 <= i < |bs| ==> base <= bs[i].addr && bs[i].End() <= brk
  {
    forall i, j | 0 <= i < j < |bs| ensures bs[i].End() <= bs[j].addr {
      InOrder(bs, base, brk, i, j);
    }
    forall i | 0 <= i < |bs| ensures base <= bs[i].addr && bs[i].End() <= brk {
      Above(bs, base, brk, i);
      Below(bs, base, brk, i);
    }
  }

  // ----- conservation

  function Bytes(bs: seq<Block>): nat {
    if bs == [] then 0 else Bytes(bs[..|bs| - 1]) + HDR + bs[|bs| - 1].size
  }

  /** Headers and data add up to what sbrk has given. */
  lemma {:induction false} BytesConserved(bs: seq<Block>, base: nat, brk: nat)
    requires Tiled(bs, base, brk)
    ensures Bytes(bs) == brk - base
  {
    var n := |bs| - 1;
    assert bs[n].End() == brk;
    if n > 0 {
      assert bs[n - 1].End() == bs[n].addr;
      var front := bs[..n];
      forall i | 0 <= i < n ensures front[i].End() == if i + 1 < n then front[i + 1].addr else bs[n].addr {
        assert bs[i].End() == bs[i + 1].addr;
      }
      BytesConserved(front, base, bs[n].addr);
    } else {
      assert bs[..0] == [];
    }
  }

  // ----- live blocks and what they hold

  ghost function Pointers(s: seq<Block>): set<nat> {
    set b | b in s && !b.free :: b.Data()
  }

  /** The data pointers handed out and not yet freed; the sentinel is not one of them. */
  ghost function LivePointers(bs: seq<Block>): set<nat>
    requires bs != []
  {
    Pointers(bs[1..])
  }

  /** The data of the slot whose data pointer is `p`. */
  ghost function DataAt(mem: Memory, p: nat): seq<Cell> {
    if HDR <= p && p - HDR < |mem| && mem[p - HDR].Header? && p + mem[p - HDR].slot.size <= |mem| then
      mem[p..p + mem[p - HDR].slot.size]
    else []
  }

  /** What the clients of the allocator can see: each live pointer and the bytes behind it. */
  ghost function Live(mem: Memory, bs: seq<Block>): map<nat, seq<Cell>>
    requires bs != []
  {
    map p | p in LivePointers(bs) :: DataAt(mem, p)
  }

  // ----- replacing a stretch of blocks

  ghost function Spliced(bs: seq<Block>, i: nat, j: nat, mid: seq<Block>): (t: seq<Block>)
    requires i <= j <= |bs|
    ensures |t| == i + |mid| + |bs| - j
  {
    bs[..i] + mid + bs[j..]
  }

  /** `mid` lies end to end where `bs[i..j]` did; with nothing behind it, it may reach a new break. */
  ghost predicate Fits(bs: seq<Block>, i: nat, j: nat, mid: seq<Block>, brk: nat, brk': nat)
    requires 0 < i <= j <= |bs|
  {
    && mid != [] && mid[0].addr == (if i < |bs| then bs[i].addr else brk)
    && (forall k {:trigger mid[k].End()} :: 0 <= k < |mid| ==>
          mid[k].End() == if k + 1 < |mid| then mid[k + 1].addr else if j < |bs| then bs[j].addr else brk')
    && brk <= brk' && (j < |bs| ==> brk == brk')
  }

  lemma SplicedIsTiled(bs: seq<Block>, base: nat, i: nat, j: nat, mid: seq<Block>, brk: nat, brk': nat)
    requires Tiled(bs, base, brk) && 0 < i <= j <= |bs| && Fits(bs, i, j, mid, brk, brk')
    ensures Tiled(Spliced(bs, i, j, mid), base, brk')
  {
    var t := Spliced(bs, i, j, mid);
    forall n | 0 <= n < |t| ensures t[n].End() == if n + 1 < |t| then t[n + 1].addr else brk' {
      if n < i {
        assert t[n] == bs[n] && bs[n].End() == if n + 1 < |bs| then bs[n + 1].addr else brk;
      } else if n < i + |mid| {
        assert t[n] == mid[n - i] && mid[n - i].End() == mid[n - i].addr + HDR + mid[n - i].size;
      } else {
        var m := n - i - |mid| + j;
        assert t[n] == bs[m] && bs[m].End() == if m + 1 < |bs| then bs[m + 1].addr else brk;
      }
    }
  }

  /** Only the stretch, and the links of its two neighbours, are different in `mem'`. */
  ghost predicate OnlyBetween(mem: Memory, mem': Memory, bs: seq<Block>, i: nat, j: nat)
    requires 0 < i <= j <= |bs|
  {
    && |mem| <= |mem'|
    && (forall k :: 0 <= k < (if i < |bs| then bs[i].addr else |mem|) && k < |mem| && k != bs[i - 1].addr ==> mem'[k] == mem[k])
    && (j < |bs| ==> forall k :: bs[j].addr < k < |mem| ==> mem'[k] == mem[k])
  }

  /** The new headers are in place and the new blocks hold data. */
  ghost predicate Rewritten(mem': Memory, t: seq<Block>, i: nat, n: nat)
    requires 0 < i && i + n <= |t|
  {
    && t[i - 1].addr < |mem'| && mem'[t[i - 1].addr] == Header(SlotOf(t, i - 1))
    && (i + n < |t| ==> t[i + n].addr < |mem'| && mem'[t[i + n].addr] == Header(SlotOf(t, i + n)))
    && (forall k :: i <= k < i + n ==> BlockOk(mem', t, k))
  }

  lemma Untouched(mem: Memory, mem': Memory, bs: seq<Block>, base: nat, i: nat, j: nat, m: nat)
    requires Tiled(bs, base, |mem|) && 0 < i <= j <= |bs| && OnlyBetween(mem, mem', bs, i, j)
    requires m < i || j <= m < |bs|
    ensures bs[m].End() <= |mem|
    ensures forall k :: bs[m].addr < k < bs[m].End() ==> mem'[k] == mem[k]
    ensures m != i - 1 && m != j ==> mem'[bs[m].addr] == mem[bs[m].addr]
  {
    hide Tiled;
    Below(bs, base, |mem|, m);
    if m < i - 1 {
      InOrder(bs, base, |mem|, m, i - 1);
    }
    if m < i < |bs| {
      InOrder(bs, base, |mem|, m, i);
    }
    if j < m {
      InOrder(bs, base, |mem|, j, m);
    }
  }

  lemma KeptBlock(mem: Memory, mem': Memory, bs: seq<Block>, base: nat, i: nat, j: nat, m: nat, s: Slot)
    requires Rep(mem, bs, base) && 0 < i <= j <= |bs| && OnlyBetween(mem, mem', bs, i, j)
    requires m < i || j <= m < |bs|
    requires s.size == bs[m].size
    requires m == i - 1 || m == j ==> bs[m].addr < |mem'| && mem'[bs[m].addr] == Header(s)
    requires m != i - 1 && m != j ==> s == SlotOf(bs, m)
    ensures HeaderAt(mem', bs[m].addr, s) && DataOk(mem', bs[m])
    ensures DataAt(mem', bs[m].Data()) == DataAt(mem, bs[m].Data())
  {
    Untouched(mem, mem', bs, base, i, j, m);
    assert |mem| <= |mem'|;
    hide OnlyBetween, Tiled;
    var b := bs[m];
    assert BlockOk(mem, bs, m);
    hide Rep;
    SameData(mem, mem', b, SlotOf(bs, m), s);
  }

  lemma SameData(mem: Memory, mem': Memory, b: Block, was: Slot, s: Slot)
    requires b.End() <= |mem| <= |mem'| && HeaderAt(mem, b.addr, was) && DataOk(mem, b)
    requires was.size == s.size == b.size && mem'[b.addr] == Header(s)
    requires forall k :: b.addr < k < b.End() ==> mem'[k] == mem[k]
    ensures HeaderAt(mem', b.addr, s) && DataOk(mem', b)
    ensures DataAt(mem', b.Data()) == DataAt(mem, b.Data()) == mem[b.Data()..b.End()]
  {
  }

  /** Where a block outside the stretch ends up, and with which header. */
  lemma KeptInSpliced(mem: Memory, mem': Memory, bs: seq<Block>, base: nat, i: nat, j: nat, mid: seq<Block>, m: nat)
    requires Rep(mem, bs, base) && 0 < i <= j <= |bs| && Fits(bs, i, j, mid, |mem|, |mem'|)
    requires OnlyBetween(mem, mem', bs, i, j) && Rewritten(mem', Spliced(bs, i, j, mid), i, |mid|)
    requires m < i || j <= m < |bs|
    ensures var t, n := Spliced(bs, i, j, mid), if m < i then m else m - j + i + |mid|;
            t[n] == bs[m] && BlockOk(mem', t, n)
    ensures DataAt(mem', bs[m].Data()) == DataAt(mem, bs[m].Data())
  {
    hide HeaderAt, DataOk, OnlyBetween, DataAt, Rep, Tiled;
    var t, n := Spliced(bs, i, j, mid), if m < i then m else m - j + i + |mid|;
    assert t[n] == bs[m];
    KeptBlock(mem, mem', bs, base, i, j, m, SlotOf(t, n));
  }

  lemma SplicedIsRep(mem: Memory, mem': Memory, bs: seq<Block>, base: nat, i: nat, j: nat, mid: seq<Block>)
    requires Rep(mem, bs, base) && 0 < i <= j <= |bs| && Fits(bs, i, j, mid, |mem|, |mem'|)
    requires OnlyBetween(mem, mem', bs, i, j) && Rewritten(mem', Spliced(bs, i, j, mid), i, |mid|)
    ensures Rep(mem', Spliced(bs, i, j, mid), base)
  {
    hide BlockOk, OnlyBetween, Fits, Tiled, SlotOf;
    assert BlockOk(mem, bs, 0);
    var t := Spliced(bs, i, j, mid);
    SplicedIsTiled(bs, base, i, j, mid, |mem|, |mem'|);
    forall n: nat | n < |t| ensures BlockOk(mem', t, n) {
      if n < i || i + |mid| <= n {
        KeptInSpliced(mem, mem', bs, base, i, j, mid, if n < i then n else n - i - |mid| + j);
      }
    }
  }

  /** Clients see nothing of the change but the stretch itself. */
  lemma SplicedLive(mem: Memory, mem': Memory, bs: seq<Block>, base: nat, i: nat, j: nat, mid: seq<Block>)
    requires Rep(mem, bs, base) && 0 < i <= j <= |bs| && Fits(bs, i, j, mid, |mem|, |mem'|)
    requires OnlyBetween(mem, mem', bs, i, j) && Rewritten(mem', Spliced(bs, i, j, mid), i, |mid|)
    ensures Live(mem', Spliced(bs, i, j, mid)) ==
            map p | p in LivePointers(bs) - Pointers(bs[i..j]) + Pointers(mid) ::
              if p in Pointers(mid) then DataAt(mem', p) else DataAt(mem, p)
  {
    hide BlockOk, OnlyBetween, Fits, Rewritten, DataAt, Tiled;
    var t := Spliced(bs, i, j, mid);
    forall b | b in bs[..i] + bs[j..] ensures DataAt(mem', b.Data()) == DataAt(mem, b.Data()) {
      var m :| (0 <= m < i || j <= m < |bs|) && bs[m] == b;
      KeptInSpliced(mem, mem', bs, base, i, j, mid, m);
    }
    SplicedPointers(bs, base, i, j, mid, |mem|);
  }

  lemma PointersOfConcat(s: seq<Block>, t: seq<Block>)
    ensures Pointers(s + t) == Pointers(s) + Pointers(t)
  {
    assert forall b :: b in s + t <==> b in s || b in t;
  }

  lemma PointersApart(bs: seq<Block>, base: nat, brk: nat, a: nat, b: nat, c: nat, d: nat)
    requires Tiled(bs, base, brk) && a <= b <= c <= d <= |bs|
    ensures Pointers(bs[a..b]) !! Pointers(bs[c..d])
  {
    forall x, y | x in bs[a..b] && y in bs[c..d] ensures x.addr < y.addr {
      var m :| a <= m < b && bs[m] == x;
      var n :| c <= n < d && bs[n] == y;
      InOrder(bs, base, brk, m, n);
    }
  }

  lemma SplicedPointers(bs: seq<Block>, base: nat, i: nat, j: nat, mid: seq<Block>, brk: nat)
    requires Tiled(bs, base, brk) && 0 < i <= j <= |bs|
    ensures LivePointers(Spliced(bs, i, j, mid)) == LivePointers(bs) - Pointers(bs[i..j]) + Pointers(mid)
    ensures LivePointers(bs) - Pointers(bs[i..j]) == Pointers(bs[1..i]) + Pointers(bs[j..])
  {
    hide Pointers, Tiled;
    var before, out, after := bs[1..i], bs[i..j], bs[j..];
    assert Spliced(bs, i, j, mid)[1..] == before + mid + after;
    assert bs[1..] == before + out + after && bs[j..|bs|] == after;
    PointersApart(bs, base, brk, 1, i, i, j);
    PointersApart(bs, base, brk, i, j, j, |bs|);
    PointersOfConcat(before + mid, after);
    PointersOfConcat(before, mid);
    PointersOfConcat(before + out, after);
    PointersOfConcat(before, out);
  }
}
