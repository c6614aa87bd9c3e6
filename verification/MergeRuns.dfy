/** What one pass of the bottom-up merge sort of utlist.h does to the order of the nodes. */
module MergeRuns {

  import opened LinkedLists

  type Order<!D> = (D, D) -> int

  ghost predicate TotalPreorder<D(!new)>(cmp: Order<D>) {
    && (forall x, y :: cmp(x, y) <= 0 || cmp(y, x) <= 0)
    && (forall x, y, z :: cmp(x, y) <= 0 && cmp(y, z) <= 0 ==> cmp(x, z) <= 0)
  }

  predicate NotAfter<D>(cmp: Order<D>, x: Node<D>, y: Node<D>) {
    cmp(x.data, y.data) <= 0
  }

  ghost predicate Sorted<D>(cmp: Order<D>, s: seq<Node<D>>) {
    forall i, j :: 0 <= i < j < |s| ==> NotAfter(cmp, s[i], s[j])
  }

  predicate Ties<D>(cmp: Order<D>, x: D, y: Node<D>) {
    cmp(x, y.data) <= 0 && cmp(y.data, x) <= 0
  }

  /** Nodes whose payload the order does not tell from `x`, in list order. */
  function Same<D>(cmp: Order<D>, x: D, s: seq<Node<D>>): seq<Node<D>> {
    if s == [] then []
    else if Ties(cmp, x, s[0]) then [s[0]] + Same(cmp, x, s[1..])
    else Same(cmp, x, s[1..])
  }

  /** The order of `t` is that of `s` among nodes that compare equal. */
  ghost predicate StablePermutation<D(!new)>(cmp: Order<D>, s: seq<Node<D>>, t: seq<Node<D>>) {
    multiset(s) == multiset(t) && forall x :: Same(cmp, x, s) == Same(cmp, x, t)
  }

  // ----- merging two runs

  /** The front of `p` goes first unless it is strictly after the front of `q`. */
  function Merge<D>(cmp: Order<D>, p: seq<Node<D>>, q: seq<Node<D>>): (r: seq<Node<D>>)
    ensures |r| == |p| + |q|
    decreases |p| + |q|
  {
    if p == [] then q
    else if q == [] then p
    else if NotAfter(cmp, p[0], q[0]) then [p[0]] + Merge(cmp, p[1..], q)
    else [q[0]] + Merge(cmp, p, q[1..])
  }

  lemma {:induction false} MergePermutes<D>(cmp: Order<D>, p: seq<Node<D>>, q: seq<Node<D>>)
    ensures multiset(Merge(cmp, p, q)) == multiset(p) + multiset(q)
    decreases |p| + |q|
  {
    if p != [] && q != [] {
      if NotAfter(cmp, p[0], q[0]) {
        assert p == [p[0]] + p[1..];
        MergePermutes(cmp, p[1..], q);
      } else {
        assert q == [q[0]] + q[1..];
        MergePermutes(cmp, p, q[1..]);
      }
    }
  }

  ghost predicate Before<D>(cmp: Order<D>, x: Node<D>, s: seq<Node<D>>) {
    forall i :: 0 <= i < |s| ==> NotAfter(cmp, x, s[i])
  }

  lemma SortedCons<D>(cmp: Order<D>, s: seq<Node<D>>)
    requires s != []
    ensures Sorted(cmp, s) <==> Before(cmp, s[0], s[1..]) && Sorted(cmp, s[1..])
  {
    if Sorted(cmp, s) {
      forall i | 0 <= i < |s[1..]| ensures NotAfter(cmp, s[0], s[1..][i]) {
        assert NotAfter(cmp, s[0], s[i + 1]);
      }
    } else if Before(cmp, s[0], s[1..]) && Sorted(cmp, s[1..]) {
      forall i, j | 0 <= i < j < |s| ensures NotAfter(cmp, s[i], s[j]) {
        assert s[j] == s[1..][j - 1];
        assert i > 0 ==> s[i] == s[1..][i - 1];
      }
    }
  }

  lemma {:induction false} MergeIsSorted<D(!new)>(cmp: Order<D>, p: seq<Node<D>>, q: seq<Node<D>>)
    requires TotalPreorder(cmp) && Sorted(cmp, p) && Sorted(cmp, q)
    ensures Sorted(cmp, Merge(cmp, p, q))
    decreases |p| + |q|
  {
    hide Sorted;
    if p != [] && q != [] {
      SortedCons(cmp, p);
      SortedCons(cmp, q);
      var r := Merge(cmp, p, q);
      if NotAfter(cmp, p[0], q[0]) {
        MergeIsSorted(cmp, p[1..], q);
        MergeBefore(cmp, p[0], p[1..], q);
        assert r[1..] == Merge(cmp, p[1..], q);
      } else {
        MergeIsSorted(cmp, p, q[1..]);
        MergeBefore(cmp, q[0], p, q[1..]);
        assert r[1..] == Merge(cmp, p, q[1..]);
      }
      SortedCons(cmp, r);
    }
  }

  lemma {:induction false} MergeBefore<D>(cmp: Order<D>, x: Node<D>, p: seq<Node<D>>, q: seq<Node<D>>)
    requires Before(cmp, x, p) && Before(cmp, x, q)
    ensures Before(cmp, x, Merge(cmp, p, q))
    decreases |p| + |q|
  {
    if p != [] && q != [] {
      if NotAfter(cmp, p[0], q[0]) {
        MergeBefore(cmp, x, p[1..], q);
      } else {
        MergeBefore(cmp, x, p, q[1..]);
      }
    }
  }

  lemma {:induction false} SameOfConcat<D>(cmp: Order<D>, x: D, s: seq<Node<D>>, t: seq<Node<D>>)
    ensures Same(cmp, x, s + t) == Same(cmp, x, s) + Same(cmp, x, t)
  {
    if s == [] {
      assert s + t == t;
    } else {
      hide Ties;
      SameOfConcat(cmp, x, s[1..], t);
      assert (s + t)[0] == s[0] && (s + t)[1..] == s[1..] + t;
      assert Same(cmp, x, s + t) == (if Ties(cmp, x, s[0]) then [s[0]] else []) + Same(cmp, x, s[1..] + t);
    }
  }

  /** Nothing in a sorted run compares equal to something before the whole run. */
  lemma {:induction false} NoneSame<D(!new)>(cmp: Order<D>, x: D, y: Node<D>, s: seq<Node<D>>)
    requires TotalPreorder(cmp) && cmp(y.data, x) > 0
    requires Before(cmp, y, s)
    ensures Same(cmp, x, s) == []
  {
    if s != [] {
      assert NotAfter(cmp, y, s[0]);
      NoneSame(cmp, x, y, s[1..]);
    }
  }

  /** Equal nodes keep their order, those of the first run first. */
  lemma {:induction false} MergeIsStable<D(!new)>(cmp: Order<D>, x: D, p: seq<Node<D>>, q: seq<Node<D>>)
    requires TotalPreorder(cmp) && Sorted(cmp, p) && Sorted(cmp, q)
    ensures Same(cmp, x, Merge(cmp, p, q)) == Same(cmp, x, p) + Same(cmp, x, q)
    decreases |p| + |q|
  {
    hide Sorted;
    if p != [] && q != [] {
      SortedCons(cmp, p);
      SortedCons(cmp, q);
      var r := Merge(cmp, p, q);
      if NotAfter(cmp, p[0], q[0]) {
        MergeIsStable(cmp, x, p[1..], q);
        assert r[0] == p[0] && r[1..] == Merge(cmp, p[1..], q);
      } else {
        MergeIsStable(cmp, x, p, q[1..]);
        assert r[0] == q[0] && r[1..] == Merge(cmp, p, q[1..]);
        if Ties(cmp, x, q[0]) {
          assert cmp(p[0].data, x) > 0;
          NoneSame(cmp, x, p[0], p[1..]);
          assert Same(cmp, x, p) == [];
        }
      }
    }
  }

  // ----- a pass over the whole list

  function Least(x: nat, y: nat): (m: nat)
    ensures m <= x && m <= y && (m == x || m == y)
  {
    if x < y then x else y
  }

  /** Runs of `k` nodes are merged two by two. */
  function Pass<D>(cmp: Order<D>, s: seq<Node<D>>, k: nat): (r: seq<Node<D>>)
    requires k > 0
    ensures |r| == |s|
    decreases |s|
  {
    if s == [] then []
    else
      var m, n := Least(k, |s|), Least(2 * k, |s|);
      Merge(cmp, s[..m], s[m..n]) + Pass(cmp, s[n..], k)
  }

  /** How many merges the pass makes. */
  function Merges(n: nat, k: nat): (c: nat)
    requires k > 0
    ensures c <= 1 <==> n <= 2 * k
    decreases n
  {
    if n == 0 then 0 else 1 + Merges(n - Least(2 * k, n), k)
  }

  /** Every aligned run of `k` nodes is sorted; the last may be shorter. */
  ghost predicate RunsSorted<D>(cmp: Order<D>, s: seq<Node<D>>, k: nat)
    requires k > 0
    decreases |s|
  {
    Sorted(cmp, s[..Least(k, |s|)]) && (|s| > k ==> RunsSorted(cmp, s[k..], k))
  }

  lemma {:induction false} SingleRuns<D>(cmp: Order<D>, s: seq<Node<D>>)
    ensures RunsSorted(cmp, s, 1)
  {
    if |s| > 1 {
      SingleRuns(cmp, s[1..]);
    }
  }

  lemma OneRun<D>(cmp: Order<D>, s: seq<Node<D>>, k: nat)
    requires k > 0 && |s| <= k && RunsSorted(cmp, s, k)
    ensures Sorted(cmp, s)
  {
    assert s[..Least(k, |s|)] == s;
  }

  /** The first two runs of the list. */
  lemma FirstRuns<D>(cmp: Order<D>, s: seq<Node<D>>, k: nat)
    requires k > 0 && RunsSorted(cmp, s, k)
    ensures var m, n := Least(k, |s|), Least(2 * k, |s|);
            Sorted(cmp, s[..m]) && Sorted(cmp, s[m..n]) && RunsSorted(cmp, s[n..], k)
  {
    hide Sorted;
    var m, n := Least(k, |s|), Least(2 * k, |s|);
    if |s| > k {
      assert s[k..][..Least(k, |s| - k)] == s[m..n];
      if |s| > 2 * k {
        assert s[k..][k..] == s[n..];
      } else {
        NoRuns(cmp, s[n..], k);
      }
    } else {
      NoRuns(cmp, s[m..n], k);
      NoRuns(cmp, s[n..], k);
    }
  }

  lemma NoRuns<D>(cmp: Order<D>, s: seq<Node<D>>, k: nat)
    requires k > 0 && s == []
    ensures RunsSorted(cmp, s, k) && Sorted(cmp, s)
  {
  }

  /** A pass doubles the length of the sorted runs. */
  lemma {:induction false} PassDoublesRuns<D(!new)>(cmp: Order<D>, s: seq<Node<D>>, k: nat)
    requires TotalPreorder(cmp) && k > 0 && RunsSorted(cmp, s, k)
    ensures RunsSorted(cmp, Pass(cmp, s, k), 2 * k)
    decreases |s|
  {
    hide Sorted, Merge;
    if s == [] {
      NoRuns(cmp, Pass(cmp, s, k), 2 * k);
    } else {
      FirstRuns(cmp, s, k);
      var m, n := Least(k, |s|), Least(2 * k, |s|);
      var r := Merge(cmp, s[..m], s[m..n]);
      MergeIsSorted(cmp, s[..m], s[m..n]);
      PassDoublesRuns(cmp, s[n..], k);
      var whole := r + Pass(cmp, s[n..], k);
      assert whole[..n] == r && whole[n..] == Pass(cmp, s[n..], k);
    }
  }

  lemma {:induction false} PassPermutes<D>(cmp: Order<D>, s: seq<Node<D>>, k: nat)
    requires k > 0
    ensures multiset(Pass(cmp, s, k)) == multiset(s)
    decreases |s|
  {
    hide Merge;
    if s != [] {
      var m, n := Least(k, |s|), Least(2 * k, |s|);
      MergePermutes(cmp, s[..m], s[m..n]);
      PassPermutes(cmp, s[n..], k);
      assert s == s[..m] + s[m..n] + s[n..];
    }
  }

  lemma {:induction false} PassIsStable<D(!new)>(cmp: Order<D>, x: D, s: seq<Node<D>>, k: nat)
    requires TotalPreorder(cmp) && k > 0 && RunsSorted(cmp, s, k)
    ensures Same(cmp, x, Pass(cmp, s, k)) == Same(cmp, x, s)
    decreases |s|
  {
    hide Merge, Sorted, RunsSorted, Same;
    if s != [] {
      FirstRuns(cmp, s, k);
      var m, n := Least(k, |s|), Least(2 * k, |s|);
      MergeIsStable(cmp, x, s[..m], s[m..n]);
      PassIsStable(cmp, x, s[n..], k);
      SameOfConcat(cmp, x, Merge(cmp, s[..m], s[m..n]), Pass(cmp, s[n..], k));
      SameOfConcat(cmp, x, s[..m], s[m..n]);
      SameOfConcat(cmp, x, s[..m] + s[m..n], s[n..]);
      assert s == s[..m] + s[m..n] + s[n..];
    }
  }

  // ----- the outer loop

  /** Passes with runs of k, 2k, 4k, ... until one makes at most one merge. */
  function Passes<D>(cmp: Order<D>, s: seq<Node<D>>, k: nat): (r: seq<Node<D>>)
    requires k > 0
    ensures |r| == |s|
    decreases |s| - k
  {
    var r := Pass(cmp, s, k);
    if Merges(|s|, k) <= 1 then r else Passes(cmp, r, 2 * k)
  }

  /** The order the sort leaves the nodes in. */
  function SortOf<D>(cmp: Order<D>, s: seq<Node<D>>): (r: seq<Node<D>>)
    ensures |r| == |s|
  {
    Passes(cmp, s, 1)
  }

  /** Whatever the comparison, no node is lost or doubled. */
  lemma {:induction false} PassesPermute<D>(cmp: Order<D>, s: seq<Node<D>>, k: nat)
    requires k > 0
    ensures multiset(Passes(cmp, s, k)) == multiset(s)
    decreases |s| - k
  {
    hide Pass;
    PassPermutes(cmp, s, k);
    if Merges(|s|, k) > 1 {
      PassesPermute(cmp, Pass(cmp, s, k), 2 * k);
    }
  }

  lemma {:induction false} PassesSort<D(!new)>(cmp: Order<D>, s: seq<Node<D>>, k: nat)
    requires TotalPreorder(cmp) && k > 0 && RunsSorted(cmp, s, k)
    ensures Sorted(cmp, Passes(cmp, s, k)) && StablePermutation(cmp, s, Passes(cmp, s, k))
    decreases |s| - k
  {
    hide Sorted, RunsSorted, Merge, Pass, Same;
    var r := Pass(cmp, s, k);
    PassDoublesRuns(cmp, s, k);
    PassPermutes(cmp, s, k);
    forall x ensures Same(cmp, x, s) == Same(cmp, x, r) {
      PassIsStable(cmp, x, s, k);
    }
    if Merges(|s|, k) <= 1 {
      OneRun(cmp, r, 2 * k);
    } else {
      PassesSort(cmp, r, 2 * k);
    }
  }

  /** The sort is a stable sorting permutation, for every total preorder. */
  lemma SortOfIsStableSort<D(!new)>(cmp: Order<D>, s: seq<Node<D>>)
    requires TotalPreorder(cmp)
    ensures Sorted(cmp, SortOf(cmp, s)) && StablePermutation(cmp, s, SortOf(cmp, s))
  {
    SingleRuns(cmp, s);
    PassesSort(cmp, s, 1);
  }

  // ----- there is only one stable sorting permutation

  lemma {:induction false} SameMember<D>(cmp: Order<D>, x: D, s: seq<Node<D>>, i: nat)
    requires i < |Same(cmp, x, s)|
    ensures Same(cmp, x, s)[i] in s
  {
    if s != [] {
      var head := if Ties(cmp, x, s[0]) then 1 else 0;
      if i >= head {
        SameMember(cmp, x, s[1..], i - head);
      }
    }
  }

  /** The front of a sorted list is not after anything another list with the same classes starts with. */
  lemma FrontFirst<D(!new)>(cmp: Order<D>, s: seq<Node<D>>, t: seq<Node<D>>)
    requires TotalPreorder(cmp) && Sorted(cmp, t) && s != []
    requires Same(cmp, s[0].data, s) == Same(cmp, s[0].data, t)
    ensures t != [] && NotAfter(cmp, t[0], s[0])
  {
    var x := s[0].data;
    assert cmp(x, x) <= 0;
    assert Same(cmp, x, s)[0] == s[0];
    SameMember(cmp, x, t, 0);
    var j :| 0 <= j < |t| && t[j] == s[0];
    assert NotAfter(cmp, t[0], t[0]);
    assert j > 0 ==> NotAfter(cmp, t[0], t[j]);
  }

  lemma {:induction false} StableSortIsUnique<D(!new)>(cmp: Order<D>, s: seq<Node<D>>, t: seq<Node<D>>)
    requires TotalPreorder(cmp) && Sorted(cmp, s) && Sorted(cmp, t)
    requires forall x :: Same(cmp, x, s) == Same(cmp, x, t)
    ensures s == t
  {
    if s == [] {
      if t != [] {
        FrontFirst(cmp, t, s);
      }
    } else {
      FrontFirst(cmp, s, t);
      FrontFirst(cmp, t, s);
      var x := s[0].data;
      assert cmp(x, x) <= 0;
      assert Same(cmp, x, s)[0] == s[0] && Same(cmp, x, t)[0] == t[0];
      forall y ensures Same(cmp, y, s[1..]) == Same(cmp, y, t[1..]) {
        DropFront(cmp, y, s, t);
      }
      SortedCons(cmp, s);
      SortedCons(cmp, t);
      StableSortIsUnique(cmp, s[1..], t[1..]);
    }
  }

  lemma DropFront<D>(cmp: Order<D>, y: D, s: seq<Node<D>>, t: seq<Node<D>>)
    requires s != [] && t != [] && s[0] == t[0] && Same(cmp, y, s) == Same(cmp, y, t)
    ensures Same(cmp, y, s[1..]) == Same(cmp, y, t[1..])
  {
    var head := if Ties(cmp, y, s[0]) then [s[0]] else [];
    assert (head + Same(cmp, y, s[1..]))[|head|..] == Same(cmp, y, s[1..]);
    assert (head + Same(cmp, y, t[1..]))[|head|..] == Same(cmp, y, t[1..]);
  }
}
