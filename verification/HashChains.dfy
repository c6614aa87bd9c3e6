/** The bucket chains of uthash.h, and the arithmetic of bucket numbers. */
module HashChains {
  import opened Arithmetic
  import opened Common
  import opened LinkedLists

  // ----- unsigned arithmetic

  function Pow2(n: nat): (p: nat)
    ensures p > 0
  {
    if n == 0 then 1 else 2 * Pow2(n - 1)
  }

  /** The bits that are set in both numbers. */
  function BitAnd(x: nat, y: nat): (r: nat)
    ensures r <= y
  {
    if x == 0 || y == 0 then 0 else 2 * BitAnd(x / 2, y / 2) + (if x % 2 == 1 && y % 2 == 1 then 1 else 0)
  }

  function ShiftRight(x: nat, n: nat): nat {
    if n == 0 then x else ShiftRight(x / 2, n - 1)
  }

  /** HASH_TO_BKT. */
  function ToBucket(hashv: nat, buckets: nat): (b: nat)
    requires buckets > 0
    ensures b < buckets
  {
    BitAnd(hashv, buckets - 1)
  }

  lemma {:induction false} MaskIsMod(x: nat, n: nat)
    ensures BitAnd(x, Pow2(n) - 1) == x % Pow2(n)
    decreases n
  {
    hide BitAnd;
    if n > 0 && x > 0 {
      MaskIsMod(x / 2, n - 1);
      MaskStep(x, Pow2(n - 1), Pow2(n));
    } else {
      MaskOfNothing(x, Pow2(n));
    }
  }

  lemma MaskOfNothing(x: nat, p: nat)
    requires p == 1 || (x == 0 && p > 0)
    ensures BitAnd(x, p - 1) == x % p
  {
    if p == 1 {
      assert x % 1 == 0;
    }
  }

  lemma MaskStep(x: nat, p: nat, pp: nat)
    requires p > 0 && x > 0 && pp == 2 * p && BitAnd(x / 2, p - 1) == x / 2 % p
    ensures BitAnd(x, pp - 1) == x % pp
  {
    LastBit(x, p);
    HalfMod(x, p);
  }

  lemma LastBit(x: nat, p: nat)
    requires p > 0 && x > 0
    ensures BitAnd(x, 2 * p - 1) == 2 * BitAnd(x / 2, p - 1) + x % 2
  {
    assert (2 * p - 1) / 2 == p - 1 && (2 * p - 1) % 2 == 1;
  }

  lemma DoubleProduct(p: nat, q: nat)
    ensures 2 * p * q == 2 * (p * q)
  {
  }

  lemma HalfMod(x: nat, p: nat)
    requires p > 0
    ensures x % (2 * p) == 2 * (x / 2 % p) + x % 2 && x / (2 * p) == x / 2 / p
  {
    var h, last := x / 2, x % 2;
    var q, r := h / p, h % p;
    assert h == p * q + r;
    DoubleProduct(p, q);
    assert x == 2 * p * q + (2 * r + last);
    DivModIs(x, 2 * p, q, 2 * r + last);
  }

  lemma {:induction false} ShiftIsDiv(x: nat, n: nat)
    ensures ShiftRight(x, n) == x / Pow2(n)
    decreases n
  {
    if n > 0 {
      ShiftIsDiv(x / 2, n - 1);
      ShiftStep(x, n, Pow2(n - 1), Pow2(n));
    }
  }

  lemma ShiftStep(x: nat, n: nat, p: nat, pp: nat)
    requires n > 0 && p > 0 && pp == 2 * p && ShiftRight(x / 2, n - 1) == x / 2 / p
    ensures ShiftRight(x, n) == x / pp
  {
    HalfMod(x, p);
  }

  /** ceil(n/b) by shift and mask, for the doubled bucket count. */
  function IdealChain(items: nat, buckets: nat, log2: nat): nat
    requires buckets > 0
  {
    ShiftRight(items, log2 + 1) + (if BitAnd(items, buckets * 2 - 1) != 0 then 1 else 0)
  }

  /** The shift and the mask do compute the least length that lets all the items fit. */
  lemma IdealChainIsCeiling(items: nat, buckets: nat, log2: nat)
    requires buckets == Pow2(log2)
    ensures var c := IdealChain(items, buckets, log2);
            && items <= c * (2 * buckets)
            && (items > 0 ==> c > 0 && (c - 1) * (2 * buckets) < items)
  {
    ShiftIsDiv(items, log2 + 1);
    MaskIsMod(items, log2 + 1);
    hide BitAnd, ShiftRight;
    CeilingBounds(items, 2 * buckets);
  }

  lemma CeilingBounds(n: nat, b: nat)
    requires b > 0
    ensures var c := n / b + (if n % b != 0 then 1 else 0);
            && n <= c * b
            && (n > 0 ==> c > 0 && (c - 1) * b < n)
  {
    var q, r := n / b, n % b;
    assert n == q * b + r;
    assert (q + 1) * b == q * b + b;
    if q > 0 {
      assert (q - 1) * b == q * b - b;
    }
  }

  // ----- chains

  /** What is stored: its key, and everything else. */
  datatype Element<K, E> = Element(key: K, value: E)

  /** UT_hash_handle, with the element it is part of; `next` and `prev` are the application order. */
  type Handle<K, E> = Node<Element<K, E>>
  type Handle?<K, E> = Node?<Element<K, E>>

  ghost function At<K, E>(c: seq<Handle<K, E>>, i: int): Handle?<K, E> {
    if 0 <= i < |c| then c[i] else null
  }

  ghost predicate Forward<K, E>(head: Handle?<K, E>, c: seq<Handle<K, E>>)
    reads c`hhNext
  {
    && head == At(c, 0) && Distinct(c)
    && forall i {:trigger c[i].hhNext} :: 0 <= i < |c| ==> c[i].hhNext == At(c, i + 1)
  }

  ghost predicate Chain<K, E>(head: Handle?<K, E>, c: seq<Handle<K, E>>)
    reads c`hhNext, c`hhPrev
  {
    Forward(head, c) && forall i {:trigger c[i].hhPrev} :: 0 <= i < |c| ==> c[i].hhPrev == At(c, i - 1)
  }

  /** Insert before the first handle of a bucket. */
  method PushFront<K, E>(head: Handle?<K, E>, h: Handle<K, E>, ghost c: seq<Handle<K, E>>)
    requires Chain(head, c) && h !in c
    modifies h`hhNext, h`hhPrev, (if head == null then {} else {head})`hhPrev
    ensures Chain(h, [h] + c)
  {
    h.hhNext := head;
    h.hhPrev := null;
    if head != null {
      head.hhPrev := h;
    }
  }

  /** HASH_DEL_IN_BKT, but for the count. */
  method Unchain<K, E>(head: Handle?<K, E>, del: Handle<K, E>, ghost c: seq<Handle<K, E>>, ghost i: nat) returns (newHead: Handle?<K, E>)
    requires Chain(head, c) && i < |c| && del == c[i]
    modifies c`hhNext, c`hhPrev
    ensures Chain(newHead, c[..i] + c[i + 1..])
  {
    ghost var t := c[..i] + c[i + 1..];
    assert c[i].hhNext == At(c, i + 1) && c[i].hhPrev == At(c, i - 1);
    newHead := head;
    if head == del {
      newHead := del.hhNext;
    }
    if del.hhPrev != null {
      del.hhPrev.hhNext := del.hhNext;
    }
    if del.hhNext != null {
      del.hhNext.hhPrev := del.hhPrev;
    }
    forall k | 0 <= k < |t| ensures t[k].hhNext == At(t, k + 1) && t[k].hhPrev == At(t, k - 1) {
      var m := if k < i then k else k + 1;
      assert t[k] == c[m];
      assert At(t, k + 1) == At(c, if k + 1 < i then k + 1 else k + 2) && At(t, k - 1) == At(c, if k - 1 < i then k - 1 else k);
    }
  }

  /** HASH_FIND_IN_BKT. */
  method FindInChain<K(==), E>(head: Handle?<K, E>, key: K, ghost c: seq<Handle<K, E>>) returns (out: Handle?<K, E>)
    requires Forward(head, c)
    ensures if out == null then forall h :: h in c ==> h.data.key != key else out in c && out.data.key == key
  {
    out := head;
    ghost var i := 0;
    while out != null
      invariant 0 <= i <= |c| && out == At(c, i) && forall j :: 0 <= j < i ==> c[j].data.key != key
      decreases |c| - i
    {
      if out.data.key == key {
        break;
      }
      out := out.hhNext;
      i := i + 1;
    }
  }
}
