/** LL_SORT2, DL_SORT2 and CDL_SORT2 of utlist.h and HASH_SRT of uthash.h: merge sort by relinking the nodes. */
module ListSort {
  import opened Common
  import opened LinkedLists
  import opened MergeRuns

  /** The nodes a pass has put out so far; where the last one leads is left open. Singly linked lists have no `back` links. */
  ghost predicate Emitted<D>(out: seq<Node<D>>, list: Node?<D>, tail: Node?<D>, back: bool)
    reads out`next, (if back then out else [])`prev
  {
    if out == [] then list == null && tail == null
    else
      && list == out[0] && tail == out[|out| - 1] && Distinct(out) && Links(out, 0, |out| - 1, null)
      && (back ==> BackLinks(out) && out[0].prev == null)
  }

  ghost predicate NoneOf<D>(s: seq<Node<D>>, lo: int, hi: int, out: seq<Node<D>>) {
    forall i :: 0 <= lo <= i < hi <= |s| ==> s[i] !in out
  }

  /** The mark at which a walk along the list stops: NULL, or the old head of a ring. */
  ghost predicate EndMark<D>(s: seq<Node<D>>, end: Node?<D>) {
    end == null || (s != [] && end == s[0])
  }

  ghost function At<D>(s: seq<Node<D>>, i: nat): (n: Node?<D>)
  {
    if i < |s| then s[i] else null
  }

  function Follow<D>(x: Node<D>, end: Node?<D>): Node?<D>
    reads x
  {
    if x.next == end then null else x.next
  }

  lemma FollowIsNext<D>(s: seq<Node<D>>, lo: nat, hi: nat, end: Node?<D>)
    requires Distinct(s) && EndMark(s, end) && lo < hi <= |s| && Links(s, lo, hi, end)
    ensures Follow(s[lo], end) == At(s, lo + 1)
  {
    assert s[lo].next == if lo + 1 < |s| then s[lo + 1] else end;
  }

  /** Append `e` to what has been put out. */
  method Emit<D>(list: Node?<D>, tail: Node?<D>, e: Node<D>, back: bool, ghost out: seq<Node<D>>) returns (newList: Node<D>)
    requires Emitted(out, list, tail, back) && e !in out
    modifies (if tail == null then {} else {tail})`next, (if back then {e} else {})`prev
    ensures Emitted(out + [e], newList, e, back)
  {
    if tail != null {
      tail.next := e;
      newList := list;
    } else {
      newList := e;
    }
    if back {
      e.prev := tail;
    }
  }

  /** What a pass has put out and what it still has to take. */
  ghost predicate Progress<D>(s: seq<Node<D>>, end: Node?<D>, back: bool, out: seq<Node<D>>, list: Node?<D>, tail: Node?<D>,
                              pi: nat, mid: nat, qi: nat)
    reads s`next, out`next, (if back then out else [])`prev
  {
    && Emitted(out, list, tail, back) && (forall x :: x in out ==> x in s)
    && Links(s, pi, mid, end) && Links(s, qi, |s|, end)
    && NoneOf(s, pi, mid, out) && NoneOf(s, qi, |s|, out)
  }

  lemma TailIsOut<D>(out: seq<Node<D>>, list: Node?<D>, tail: Node?<D>, back: bool)
    requires Emitted(out, list, tail, back)
    ensures tail != null ==> tail in out
  {
  }

  /** Put out the front of the first run. */
  method TakeP<D>(p: Node<D>, list: Node?<D>, tail: Node?<D>, end: Node?<D>, back: bool, ghost s: seq<Node<D>>, ghost out: seq<Node<D>>,
                  ghost pi: nat, ghost mid: nat, ghost qi: nat)
    returns (e: Node<D>, next: Node?<D>, newList: Node<D>)
    requires Distinct(s) && EndMark(s, end) && Progress(s, end, back, out, list, tail, pi, mid, qi)
    requires pi < mid <= qi <= |s| && p == s[pi]
    modifies s`next, (if back then s else [])`prev
    ensures e == s[pi] && next == At(s, pi + 1)
    ensures Progress(s, end, back, out + [s[pi]], newList, e, pi + 1, mid, qi)
  {
    hide Emitted;
    e := p;
    FollowIsNext(s, pi, mid, end);
    next := Follow(p, end);
    TailIsOut(out, list, tail, back);
    newList := Emit(list, tail, e, back, out);
  }

  /** Put out the front of the second run. */
  method TakeQ<D>(q: Node<D>, list: Node?<D>, tail: Node?<D>, end: Node?<D>, back: bool, ghost s: seq<Node<D>>, ghost out: seq<Node<D>>,
                  ghost pi: nat, ghost mid: nat, ghost qi: nat)
    returns (e: Node<D>, next: Node?<D>, newList: Node<D>)
    requires Distinct(s) && EndMark(s, end) && Progress(s, end, back, out, list, tail, pi, mid, qi)
    requires pi <= mid <= qi < |s| && q == s[qi]
    modifies s`next, (if back then s else [])`prev
    ensures e == s[qi] && next == At(s, qi + 1)
    ensures Progress(s, end, back, out + [s[qi]], newList, e, pi, mid, qi + 1)
  {
    hide Emitted;
    e := q;
    FollowIsNext(s, qi, |s|, end);
    next := Follow(q, end);
    TailIsOut(out, list, tail, back);
    newList := Emit(list, tail, e, back, out);
  }

  /** What will have been put out when the two runs are merged. */
  ghost function Pending<D>(cmp: Order<D>, s: seq<Node<D>>, out: seq<Node<D>>, pi: nat, mid: nat, qi: nat, fin: nat): seq<Node<D>>
    requires pi <= mid <= qi <= fin <= |s|
  {
    out + Merge(cmp, s[pi..mid], s[qi..fin])
  }

  lemma PendingP<D>(cmp: Order<D>, s: seq<Node<D>>, out: seq<Node<D>>, pi: nat, mid: nat, qi: nat, fin: nat)
    requires pi < mid <= qi <= fin <= |s| && (qi == fin || NotAfter(cmp, s[pi], s[qi]))
    ensures Pending(cmp, s, out + [s[pi]], pi + 1, mid, qi, fin) == Pending(cmp, s, out, pi, mid, qi, fin)
  {
    assert s[pi..mid][1..] == s[pi + 1..mid];
  }

  lemma PendingQ<D>(cmp: Order<D>, s: seq<Node<D>>, out: seq<Node<D>>, pi: nat, mid: nat, qi: nat, fin: nat)
    requires pi <= mid <= qi < fin <= |s| && (pi == mid || !NotAfter(cmp, s[pi], s[qi]))
    ensures Pending(cmp, s, out + [s[qi]], pi, mid, qi + 1, fin) == Pending(cmp, s, out, pi, mid, qi, fin)
  {
    assert s[qi..fin][1..] == s[qi + 1..fin];
  }

  lemma NothingPending<D>(cmp: Order<D>, s: seq<Node<D>>, out: seq<Node<D>>, mid: nat, fin: nat)
    requires mid <= fin <= |s|
    ensures Pending(cmp, s, out, mid, mid, fin, fin) == out
  {
  }

  /** The fronts of the two runs, and how many nodes are left of each. */
  ghost predicate Cursors<D>(s: seq<Node<D>>, k: nat, p: Node?<D>, q: Node?<D>, psize: nat, qsize: nat,
                             pi: nat, mid: nat, qi: nat, fin: nat)
  {
    && pi <= mid <= qi <= fin <= |s| && psize == mid - pi && qsize == k - (qi - mid)
    && (pi < mid ==> p == s[pi]) && q == At(s, qi)
    && (qi == fin <==> qsize == 0 || q == null)
  }

  /** Which run the next node comes from. */
  method Choose<D>(p: Node?<D>, q: Node?<D>, psize: nat, qsize: nat, cmp: Order<D>,
                   ghost s: seq<Node<D>>, ghost k: nat, ghost pi: nat, ghost mid: nat, ghost qi: nat, ghost fin: nat)
    returns (first: bool)
    requires Cursors(s, k, p, q, psize, qsize, pi, mid, qi, fin) && (psize > 0 || (qsize > 0 && q != null))
    ensures first ==> pi < mid && (qi == fin || NotAfter(cmp, s[pi], s[qi]))
    ensures !first ==> qi < fin && (pi == mid || !NotAfter(cmp, s[pi], s[qi]))
  {
    if psize == 0 {
      first := false;
    } else if qsize == 0 || q == null {
      first := true;
    } else if cmp(p.data, q.data) <= 0 {
      first := true;
    } else {
      first := false;
    }
  }

  lemma Advance<D>(s: seq<Node<D>>, k: nat, p: Node?<D>, q: Node?<D>, psize: nat, qsize: nat,
                   pi: nat, mid: nat, qi: nat, fin: nat)
    requires Cursors(s, k, p, q, psize, qsize, pi, mid, qi, fin) && fin == Least(mid + k, |s|)
    ensures pi < mid ==> p == s[pi] && psize > 0 && Cursors(s, k, At(s, pi + 1), q, psize - 1, qsize, pi + 1, mid, qi, fin)
    ensures qi < fin ==> q == s[qi] && qsize > 0 && Cursors(s, k, p, At(s, qi + 1), psize, qsize - 1, pi, mid, qi + 1, fin)
  {
  }

  /** Merge two neighbouring runs; the result goes after what has been put out. */
  method MergeTwo<D>(p0: Node<D>, psize0: nat, q0: Node?<D>, k: nat, cmp: Order<D>, list0: Node?<D>, tail0: Node?<D>,
                     end: Node?<D>, back: bool, ghost s: seq<Node<D>>, ghost out0: seq<Node<D>>, ghost pi0: nat, ghost mid: nat, ghost fin: nat)
    returns (q: Node?<D>, list: Node?<D>, tail: Node?<D>, ghost out: seq<Node<D>>)
    requires Distinct(s) && EndMark(s, end)
    requires Cursors(s, k, p0, q0, psize0, k, pi0, mid, mid, fin) && fin == Least(mid + k, |s|)
    requires Progress(s, end, back, out0, list0, tail0, pi0, mid, mid)
    modifies s`next, (if back then s else [])`prev
    ensures q == At(s, fin) && Progress(s, end, back, out, list, tail, mid, mid, fin)
    ensures out == Pending(cmp, s, out0, pi0, mid, mid, fin)
  {
    hide *;
    var p: Node?<D>, psize, qsize := p0, psize0, k;
    q, list, tail, out := q0, list0, tail0, out0;
    ghost var pi: nat, qi: nat := pi0, mid;
    CursorRange(s, k, p, q, psize, qsize, pi, mid, qi, fin);
    while psize > 0 || (qsize > 0 && q != null)
      invariant pi <= mid <= qi <= fin <= |s|
      invariant Cursors(s, k, p, q, psize, qsize, pi, mid, qi, fin)
      invariant Progress(s, end, back, out, list, tail, pi, mid, qi)
      invariant Pending(cmp, s, out, pi, mid, qi, fin) == Pending(cmp, s, out0, pi0, mid, mid, fin)
      decreases psize + qsize
    {
      var e: Node<D>;
      var first := Choose(p, q, psize, qsize, cmp, s, k, pi, mid, qi, fin);
      Advance(s, k, p, q, psize, qsize, pi, mid, qi, fin);
      if first {
        PendingP(cmp, s, out, pi, mid, qi, fin);
        e, p, list := TakeP(p, list, tail, end, back, s, out, pi, mid, qi);
        psize, pi := psize - 1, pi + 1;
      } else {
        PendingQ(cmp, s, out, pi, mid, qi, fin);
        e, q, list := TakeQ(q, list, tail, end, back, s, out, pi, mid, qi);
        qsize, qi := qsize - 1, qi + 1;
      }
      out, tail := out + [e], e;
    }
    CursorRange(s, k, p, q, psize, qsize, pi, mid, qi, fin);
    NothingPending(cmp, s, out, mid, fin);
  }

  lemma CursorRange<D>(s: seq<Node<D>>, k: nat, p: Node?<D>, q: Node?<D>, psize: nat, qsize: nat,
                       pi: nat, mid: nat, qi: nat, fin: nat)
    requires Cursors(s, k, p, q, psize, qsize, pi, mid, qi, fin)
    ensures pi <= mid <= qi <= fin <= |s| && q == At(s, qi)
    ensures psize == 0 && (qsize == 0 || q == null) ==> pi == mid && qi == fin
  {
  }

  /** Walk over the first run, up to `k` nodes. */
  method TakeRun<D>(p: Node<D>, k: nat, end: Node?<D>, ghost s: seq<Node<D>>, ghost start: nat) returns (q: Node?<D>, psize: nat)
    requires Distinct(s) && EndMark(s, end) && k > 0 && start < |s| && p == s[start] && Links(s, start, |s|, end)
    ensures psize == Least(k, |s| - start) && q == At(s, start + psize)
  {
    q, psize := p, 0;
    for i := 0 to k
      invariant psize == i && start + i < |s| && q == s[start + i] && Links(s, start + i, |s|, end)
    {
      psize := psize + 1;
      FollowIsNext(s, start + i, |s|, end);
      q := Follow(q, end);
      if q == null {
        break;
      }
    }
  }

  /** What will have been put out when the pass is over. */
  ghost function Awaited<D>(cmp: Order<D>, s: seq<Node<D>>, out: seq<Node<D>>, start: nat, k: nat): seq<Node<D>>
    requires start <= |s| && k > 0
  {
    out + Pass(cmp, s[start..], k)
  }

  lemma RunSlices<T>(s: seq<T>, start: nat, mid: nat, fin: nat)
    requires start <= mid <= fin <= |s|
    ensures s[start..][..mid - start] == s[start..mid]
    ensures s[start..][mid - start..fin - start] == s[mid..fin]
    ensures s[start..][fin - start..] == s[fin..]
  {
  }

  lemma PassStep<D>(cmp: Order<D>, r: seq<Node<D>>, k: nat)
    requires k > 0 && r != []
    ensures var m, n := Least(k, |r|), Least(2 * k, |r|);
            Pass(cmp, r, k) == Merge(cmp, r[..m], r[m..n]) + Pass(cmp, r[n..], k)
  {
    hide Merge;
  }

  lemma MergesStep(n: nat, k: nat)
    requires k > 0 && n > 0
    ensures Merges(n, k) == 1 + Merges(n - Least(2 * k, n), k)
  {
  }

  lemma AwaitedStep<D>(cmp: Order<D>, s: seq<Node<D>>, out: seq<Node<D>>, start: nat, mid: nat, fin: nat, k: nat)
    requires k > 0 && start < |s| && mid == start + Least(k, |s| - start) && fin == Least(mid + k, |s|)
    ensures Awaited(cmp, s, Pending(cmp, s, out, start, mid, mid, fin), fin, k) == Awaited(cmp, s, out, start, k)
    ensures Merges(|s| - start, k) == 1 + Merges(|s| - fin, k)
  {
    hide Merge, Pass, Merges;
    PassStep(cmp, s[start..], k);
    MergesStep(|s| - start, k);
    RunSlices(s, start, mid, fin);
  }

  lemma AwaitedAtEnds<D>(cmp: Order<D>, s: seq<Node<D>>, out: seq<Node<D>>, k: nat)
    requires k > 0
    ensures Awaited(cmp, s, [], 0, k) == Pass(cmp, s, k) && Awaited(cmp, s, out, |s|, k) == out
    ensures Merges(0, k) == 0
  {
    assert s[0..] == s;
  }

  lemma RunStarts<D>(s: seq<Node<D>>, k: nat, p: Node?<D>, q: Node?<D>, psize: nat, start: nat, mid: nat, fin: nat)
    requires k > 0 && start < |s| && p == s[start] && psize == Least(k, |s| - start) && mid == start + psize
    requires q == At(s, mid) && fin == Least(mid + k, |s|)
    ensures Cursors(s, k, p, q, psize, k, start, mid, mid, fin)
    ensures start < fin <= |s|
  {
  }

  lemma ProgressParts<D>(s: seq<Node<D>>, end: Node?<D>, back: bool, out: seq<Node<D>>, list: Node?<D>, tail: Node?<D>,
                         start: nat, mid: nat)
    requires start <= mid <= |s|
    ensures Progress(s, end, back, out, list, tail, start, start, start) ==>
      Links(s, start, |s|, end) && Progress(s, end, back, out, list, tail, start, mid, mid)
  {
  }

  lemma PassStarts<D>(s: seq<Node<D>>, end: Node?<D>, back: bool)
    requires Links(s, 0, |s|, end)
    ensures Progress(s, end, back, [], null, null, 0, 0, 0)
  {
  }

  lemma PassEnds<D>(s: seq<Node<D>>, end: Node?<D>, back: bool, out: seq<Node<D>>, list: Node?<D>, tail: Node?<D>)
    requires Progress(s, end, back, out, list, tail, |s|, |s|, |s|)
    ensures Emitted(out, list, tail, back)
  {
  }

  /** One pass: all the runs of `k` nodes are merged two by two. */
  method MergePass<D>(head: Node<D>, k: nat, cmp: Order<D>, end: Node?<D>, back: bool, ghost s: seq<Node<D>>)
    returns (list: Node?<D>, tail: Node?<D>, nmerges: nat)
    requires s != [] && head == s[0] && Distinct(s) && Links(s, 0, |s|, end) && EndMark(s, end) && k > 0
    modifies s`next, (if back then s else [])`prev
    ensures Emitted(Pass(cmp, s, k), list, tail, back) && nmerges == Merges(|s|, k)
  {
    hide *;
    var p: Node?<D> := head;
    list, tail, nmerges := null, null, 0;
    ghost var start: nat, out: seq<Node<D>> := 0, [];
    PassStarts(s, end, back);
    AwaitedAtEnds(cmp, s, [], k);
    HeadAt(s);
    while p != null
      invariant start <= |s| && p == At(s, start)
      invariant Progress(s, end, back, out, list, tail, start, start, start)
      invariant Awaited(cmp, s, out, start, k) == Pass(cmp, s, k)
      invariant nmerges + Merges(|s| - start, k) == Merges(|s|, k)
      decreases |s| - start
    {
      nmerges := nmerges + 1;
      AtIs(s, start);
      ProgressParts(s, end, back, out, list, tail, start, start);
      var q, psize := TakeRun(p, k, end, s, start);
      ghost var mid, fin := start + psize, Least(start + psize + k, |s|);
      RunStarts(s, k, p, q, psize, start, mid, fin);
      ProgressParts(s, end, back, out, list, tail, start, mid);
      AwaitedStep(cmp, s, out, start, mid, fin, k);
      q, list, tail, out := MergeTwo(p, psize, q, k, cmp, list, tail, end, back, s, out, start, mid, fin);
      ProgressMoves(s, end, back, out, list, tail, mid, fin);
      p, start := q, fin;
    }
    AtIs(s, start);
    AwaitedAtEnds(cmp, s, out, k);
    PassEnds(s, end, back, out, list, tail);
  }

  lemma AtIs<D>(s: seq<Node<D>>, i: nat)
    requires i <= |s|
    ensures if At(s, i) == null then i == |s| else i < |s| && At(s, i) == s[i]
  {
  }

  lemma HeadAt<D>(s: seq<Node<D>>)
    requires s != []
    ensures At(s, 0) == s[0]
  {
  }

  lemma ProgressMoves<D>(s: seq<Node<D>>, end: Node?<D>, back: bool, out: seq<Node<D>>, list: Node?<D>, tail: Node?<D>, mid: nat, fin: nat)
    requires Progress(s, end, back, out, list, tail, mid, mid, fin)
    ensures Progress(s, end, back, out, list, tail, fin, fin, fin)
  {
  }

  // ----- the four sorts

  /** The order while the passes go on, and when they are over. */
  ghost predicate Sorting<D>(cmp: Order<D>, s: seq<Node<D>>, cur: seq<Node<D>>, k: nat, looping: bool) {
    && k > 0 && |cur| == |s| && (forall x :: x in cur ==> x in s)
    && (if looping then k <= |s| && Passes(cmp, cur, k) == SortOf(cmp, s) else cur == SortOf(cmp, s))
  }

  lemma SortingStarts<D>(cmp: Order<D>, s: seq<Node<D>>)
    requires s != []
    ensures Sorting(cmp, s, s, 1, true)
  {
  }

  lemma SortingStep<D>(cmp: Order<D>, s: seq<Node<D>>, cur: seq<Node<D>>, k: nat)
    requires Sorting(cmp, s, cur, k, true)
    ensures k > 0 && |cur| == |s| && Sorting(cmp, s, Pass(cmp, cur, k), 2 * k, Merges(|cur|, k) > 1)
    ensures k <= |s| && (Merges(|cur|, k) > 1 ==> 2 * k <= |s|)
  {
    hide Pass;
    PassPermutes(cmp, cur, k);
    forall x | x in Pass(cmp, cur, k) ensures x in s {
      assert x in multiset(Pass(cmp, cur, k));
    }
  }

  /** The members of a list being sorted are those of the list. */
  lemma SortingMembers<D>(cmp: Order<D>, s: seq<Node<D>>, cur: seq<Node<D>>, k: nat, looping: bool)
    requires Sorting(cmp, s, cur, k, looping)
    ensures |cur| == |s| && k > 0 && (forall i :: 0 <= i < |cur| ==> cur[i] in s)
    ensures !looping ==> cur == SortOf(cmp, s)
  {
  }

  lemma SortIsStable<D(!new)>(cmp: Order<D>, s: seq<Node<D>>)
    ensures TotalPreorder(cmp) ==> Sorted(cmp, SortOf(cmp, s)) && StablePermutation(cmp, s, SortOf(cmp, s))
  {
    hide *;
    if TotalPreorder(cmp) {
      SortOfIsStableSort(cmp, s);
    }
  }

  /** `list->prev = tail; tail->next = end`. */
  method Close<D>(list: Node?<D>, tail: Node?<D>, end: Node?<D>, ghost out: seq<Node<D>>)
    requires Emitted(out, list, tail, true) && out != [] && EndMark(out, end)
    modifies out
    ensures Distinct(out) && list == out[0] && Links(out, 0, |out|, end) && BackLinks(out) && out[0].prev == out[|out| - 1]
  {
    list.prev := tail;
    tail.next := end;
  }

  /** `if (tail) tail->next = NULL`. */
  method CloseNull<D>(list: Node?<D>, tail: Node?<D>, ghost out: seq<Node<D>>)
    requires Emitted(out, list, tail, true) && out != []
    modifies out`next
    ensures NullEnded(list, tail, out)
  {
    if tail != null {
      tail.next := null;
    }
  }

  /** The same for a list without `prev`. */
  method CloseSingle<D>(list: Node?<D>, tail: Node?<D>, ghost out: seq<Node<D>>)
    requires Emitted(out, list, tail, false) && out != []
    modifies out`next
    ensures SinglyLinked(list, out)
  {
    if tail != null {
      tail.next := null;
    }
  }

  lemma EmittedEnds<D>(out: seq<Node<D>>, list: Node?<D>, tail: Node?<D>)
    requires Emitted(out, list, tail, true) && out != []
    ensures list == out[0] && tail == out[|out| - 1]
  {
  }

  /** LL_SORT2: the singly linked list, in place; `prev` is never touched. */
  method LlSort<D(!new)>(list0: Node?<D>, cmp: Order<D>, ghost s: seq<Node<D>>) returns (list: Node?<D>)
    requires SinglyLinked(list0, s)
    modifies s`next
    ensures SinglyLinked(list, SortOf(cmp, s))
    ensures TotalPreorder(cmp) ==> Sorted(cmp, SortOf(cmp, s)) && StablePermutation(cmp, s, SortOf(cmp, s))
  {
    hide Distinct, Links, BackLinks, Emitted, Sorting, Passes, Pass, Merges, Sorted, StablePermutation, TotalPreorder;
    SortIsStable(cmp, s);
    list := list0;
    if list != null {
      var insize: nat, looping := 1, true;
      ghost var cur := s;
      SortingStarts(cmp, s);
      while looping
        invariant Sorting(cmp, s, cur, insize, looping) && SinglyLinked(list, cur) && cur != []
        decreases looping, |s| - insize
      {
        SortingMembers(cmp, s, cur, insize, looping);
        SortingStep(cmp, s, cur, insize);
        var tail, nmerges;
        list, tail, nmerges := MergePass(list, insize, cmp, null, false, cur);
        cur := Pass(cmp, cur, insize);
        if nmerges <= 1 {
          looping := false;
        }
        insize := insize * 2;
        SortingMembers(cmp, s, cur, insize, looping);
        CloseSingle(list, tail, cur);
      }
      SortingMembers(cmp, s, cur, insize, looping);
    }
  }

  /** DL_SORT2: the list, in place. */
  method DlSort<D(!new)>(list0: Node?<D>, cmp: Order<D>, ghost s: seq<Node<D>>) returns (list: Node?<D>)
    requires DoublyLinked(list0, s)
    modifies s
    ensures DoublyLinked(list, SortOf(cmp, s))
    ensures TotalPreorder(cmp) ==> Sorted(cmp, SortOf(cmp, s)) && StablePermutation(cmp, s, SortOf(cmp, s))
  {
    hide Distinct, Links, BackLinks, Emitted, Sorting, Passes, Pass, Merges, Sorted, StablePermutation, TotalPreorder;
    SortIsStable(cmp, s);
    list := list0;
    if list != null {
      var insize: nat, looping := 1, true;
      ghost var cur := s;
      SortingStarts(cmp, s);
      while looping
        invariant Sorting(cmp, s, cur, insize, looping) && DoublyLinked(list, cur) && cur != []
        decreases looping, |s| - insize
      {
        SortingMembers(cmp, s, cur, insize, looping);
        SortingStep(cmp, s, cur, insize);
        var tail, nmerges;
        list, tail, nmerges := MergePass(list, insize, cmp, null, true, cur);
        cur := Pass(cmp, cur, insize);
        if nmerges <= 1 {
          looping := false;
        }
        insize := insize * 2;
        SortingMembers(cmp, s, cur, insize, looping);
        Close(list, tail, null, cur);
      }
      SortingMembers(cmp, s, cur, insize, looping);
    }
  }

  /** CDL_SORT2: the ring, in place; a walk ends where it would come back to the old head. */
  method CdlSort<D(!new)>(list0: Node?<D>, cmp: Order<D>, ghost s: seq<Node<D>>) returns (list: Node?<D>)
    requires Ring(list0, s)
    modifies s
    ensures Ring(list, SortOf(cmp, s))
    ensures TotalPreorder(cmp) ==> Sorted(cmp, SortOf(cmp, s)) && StablePermutation(cmp, s, SortOf(cmp, s))
  {
    hide Distinct, Links, BackLinks, Emitted, Sorting, Passes, Pass, Merges, Sorted, StablePermutation, TotalPreorder;
    SortIsStable(cmp, s);
    list := list0;
    if list != null {
      var insize: nat, looping := 1, true;
      ghost var cur := s;
      SortingStarts(cmp, s);
      while looping
        invariant Sorting(cmp, s, cur, insize, looping) && Ring(list, cur) && cur != []
        decreases looping, |s| - insize
      {
        SortingMembers(cmp, s, cur, insize, looping);
        SortingStep(cmp, s, cur, insize);
        var oldhead := list;
        var tail, nmerges;
        list, tail, nmerges := MergePass(list, insize, cmp, oldhead, true, cur);
        cur := Pass(cmp, cur, insize);
        if nmerges <= 1 {
          looping := false;
        }
        insize := insize * 2;
        SortingMembers(cmp, s, cur, insize, looping);
        EmittedEnds(cur, list, tail);
        Close(list, tail, list, cur);
      }
      SortingMembers(cmp, s, cur, insize, looping);
    }
  }

  /** HASH_SRT: the application order of a hash table; the table's tail moves along. */
  method HashSort<D(!new)>(list0: Node?<D>, tail0: Node?<D>, cmp: Order<D>, ghost s: seq<Node<D>>) returns (list: Node?<D>, tail: Node?<D>)
    requires NullEnded(list0, tail0, s)
    modifies s`next, s`prev
    ensures NullEnded(list, tail, SortOf(cmp, s))
    ensures TotalPreorder(cmp) ==> Sorted(cmp, SortOf(cmp, s)) && StablePermutation(cmp, s, SortOf(cmp, s))
  {
    hide Distinct, Links, BackLinks, Emitted, Sorting, Passes, Pass, Merges, Sorted, StablePermutation, TotalPreorder;
    SortIsStable(cmp, s);
    list, tail := list0, tail0;
    if list != null {
      var insize: nat, looping := 1, true;
      ghost var cur := s;
      SortingStarts(cmp, s);
      while looping
        invariant Sorting(cmp, s, cur, insize, looping) && NullEnded(list, tail, cur) && cur != []
        decreases looping, |s| - insize
      {
        SortingMembers(cmp, s, cur, insize, looping);
        SortingStep(cmp, s, cur, insize);
        var nmerges;
        list, tail, nmerges := MergePass(list, insize, cmp, null, true, cur);
        cur := Pass(cmp, cur, insize);
        if nmerges <= 1 {
          looping := false;
        }
        insize := insize * 2;
        SortingMembers(cmp, s, cur, insize, looping);
        CloseNull(list, tail, cur);
      }
      SortingMembers(cmp, s, cur, insize, looping);
    }
  }
}
