/** uthash.h: a hash table that keeps the order of insertion and doubles its buckets. */
module HashTable {
  import opened Common
  import opened LinkedLists
  import opened HashChains
  import MergeRuns
  import ListSort

  const INITIAL_BUCKETS: nat := 32
  const INITIAL_LOG2: nat := 5
  const CAPACITY_THRESH: nat := 10

  /** UT_hash_bucket. */
  datatype Bucket<K, E> = Bucket(head: Handle?<K, E>, count: nat, expandMult: nat)

  /** The application order: NULL at both ends, `tail` last. */
  ghost predicate AppOrder<K, E>(head: Handle?<K, E>, tail: Handle?<K, E>, s: seq<Handle<K, E>>)
    reads s`next, s`prev
  {
    && s != [] && head == s[0] && tail == s[|s| - 1] && Distinct(s)
    && (forall i {:trigger s[i].next} :: 0 <= i < |s| ==> s[i].next == At(s, i + 1))
    && (forall i {:trigger s[i].prev} :: 0 <= i < |s| ==> s[i].prev == At(s, i - 1))
  }

  ghost predicate Hashed<K, E>(hash: K -> nat, s: seq<Handle<K, E>>)
    reads s`hashv
  {
    forall h :: h in s ==> h.hashv == hash(h.data.key)
  }

  /** A bucket heads its chain and counts it. */
  ghost predicate Heads<K, E>(b: Bucket<K, E>, c: seq<Handle<K, E>>)
    reads c`hhNext, c`hhPrev
  {
    Chain(b.head, c) && b.count == |c|
  }

  ghost predicate Inside<K, E>(c: seq<Handle<K, E>>, s: seq<Handle<K, E>>) {
    forall i :: 0 <= i < |c| ==> c[i] in s
  }

  ghost predicate AllHead<K, E>(bs: seq<Bucket<K, E>>, chains: seq<seq<Handle<K, E>>>, s: seq<Handle<K, E>>)
    reads s`hhNext, s`hhPrev
  {
    && |bs| == |chains|
    && forall b {:trigger chains[b]} :: 0 <= b < |bs| ==> Inside(chains[b], s) && Heads(bs[b], chains[b])
  }

  /** Every handle of `s` is in the bucket of its hash value, and nothing else is in the buckets. */
  ghost predicate Placed<K, E>(hash: K -> nat, s: seq<Handle<K, E>>, chains: seq<seq<Handle<K, E>>>) {
    && |chains| > 0
    && (forall h :: h in s ==> h in chains[ToBucket(hash(h.data.key), |chains|)])
    && (forall b, h :: 0 <= b < |chains| && h in chains[b] ==> h in s && ToBucket(hash(h.data.key), |chains|) == b)
  }

  ghost predicate DistinctKeys<K, E>(s: seq<Handle<K, E>>) {
    forall i, j :: 0 <= i < j < |s| ==> s[i].data.key != s[j].data.key
  }

  /** What the handles map their keys to. */
  ghost function Contents<K, E>(s: seq<Handle<K, E>>): map<K, Handle<K, E>>
    requires DistinctKeys(s)
  {
    map i | 0 <= i < |s| :: s[i].data.key := s[i]
  }

  lemma FoundIsMapped<K, E>(s: seq<Handle<K, E>>, key: K, out: Handle?<K, E>)
    requires DistinctKeys(s)
    requires if out == null then forall h :: h in s ==> h.data.key != key else out in s && out.data.key == key
    ensures out == if key in Contents(s) then Contents(s)[key] else null
  {
    if out != null {
      var i :| 0 <= i < |s| && s[i] == out;
    }
  }

  lemma MapsAt<K, E>(s: seq<Handle<K, E>>, i: nat)
    requires DistinctKeys(s) && i < |s|
    ensures s[i].data.key in Contents(s) && Contents(s)[s[i].data.key] == s[i]
  {
  }

  lemma MappedFrom<K, E>(s: seq<Handle<K, E>>, k: K) returns (i: nat)
    requires DistinctKeys(s) && k in Contents(s)
    ensures i < |s| && s[i].data.key == k && Contents(s)[k] == s[i]
  {
    i :| 0 <= i < |s| && s[i].data.key == k;
  }

  lemma ContentsAdd<K, E>(s: seq<Handle<K, E>>, add: Handle<K, E>)
    requires DistinctKeys(s) && DistinctKeys(s + [add])
    ensures Contents(s + [add]) == Contents(s)[add.data.key := add]
  {
    var t := s + [add];
    forall k | k in Contents(s) ensures k in Contents(t) && Contents(t)[k] == Contents(s)[k] {
      var i := MappedFrom(s, k);
      MapsAt(t, i);
    }
    MapsAt(t, |s|);
  }

  lemma DropKeeps<K, E>(s: seq<Handle<K, E>>, t: seq<Handle<K, E>>, i: nat, k: K)
    requires DistinctKeys(s) && i < |s| && t == s[..i] + s[i + 1..] && DistinctKeys(t)
    requires k in Contents(s) && k != s[i].data.key
    ensures k in Contents(t) && Contents(t)[k] == Contents(s)[k]
  {
    hide Contents;
    var j := MappedFrom(s, k);
    MapsAt(t, if j < i then j else j - 1);
  }

  lemma DropAddsNothing<K, E>(s: seq<Handle<K, E>>, t: seq<Handle<K, E>>, i: nat, k: K)
    requires DistinctKeys(s) && i < |s| && t == s[..i] + s[i + 1..] && DistinctKeys(t)
    requires k in Contents(t)
    ensures k in Contents(s) && k != s[i].data.key
  {
    hide Contents;
    var j := MappedFrom(t, k);
    MapsAt(s, if j < i then j else j + 1);
  }

  lemma ContentsDrop<K, E>(s: seq<Handle<K, E>>, i: nat)
    requires DistinctKeys(s) && i < |s| && DistinctKeys(s[..i] + s[i + 1..])
    ensures Contents(s[..i] + s[i + 1..]) == Contents(s) - {s[i].data.key}
  {
    hide *;
    var t := s[..i] + s[i + 1..];
    forall k | k in Contents(s) && k != s[i].data.key ensures k in Contents(t) && Contents(t)[k] == Contents(s)[k] {
      DropKeeps(s, t, i, k);
    }
    forall k | k in Contents(t) ensures k in Contents(s) && k != s[i].data.key {
      DropAddsNothing(s, t, i, k);
    }
  }

  lemma PlacedAdd<K, E>(hash: K -> nat, s: seq<Handle<K, E>>, chains: seq<seq<Handle<K, E>>>, h: Handle<K, E>, b: nat)
    requires Placed(hash, s, chains) && h !in s && b == ToBucket(hash(h.data.key), |chains|)
    ensures Placed(hash, s + [h], chains[b := [h] + chains[b]])
  {
  }

  ghost predicate Separate<K, E>(chains: seq<seq<Handle<K, E>>>) {
    forall b, c, h :: 0 <= b < |chains| && 0 <= c < |chains| && h in chains[b] && h in chains[c] ==> b == c
  }

  lemma PlacedIsSeparate<K, E>(hash: K -> nat, s: seq<Handle<K, E>>, chains: seq<seq<Handle<K, E>>>)
    requires Placed(hash, s, chains)
    ensures Separate(chains)
  {
    forall b, c, h | 0 <= b < |chains| && 0 <= c < |chains| && h in chains[b] && h in chains[c] ensures b == c {
      assert ToBucket(hash(h.data.key), |chains|) == b;
    }
  }

  /** Put a handle at the front of its bucket. */
  method PushBucket<K, E>(buckets: array<Bucket<K, E>>, b: nat, h: Handle<K, E>, mult: nat, ghost chains: seq<seq<Handle<K, E>>>, ghost s: seq<Handle<K, E>>)
    requires AllHead(buckets[..], chains, s) && b < |chains| && Separate(chains)
    requires h in s && forall c :: 0 <= c < |chains| ==> h !in chains[c]
    modifies buckets, h`hhNext, s`hhPrev
    ensures AllHead(buckets[..], chains[b := [h] + chains[b]], s)
    ensures buckets[..] == old(buckets[..])[b := Bucket(h, old(buckets[b]).count + 1, mult)]
  {
    ghost var old_, added := buckets[..], chains[b := [h] + chains[b]];
    assert Heads(old_[b], chains[b]) && Inside(chains[b], s);
    assert buckets[b].head != null ==> buckets[b].head == chains[b][0];
    label Before:
    PushFront(buckets[b].head, h, chains[b]);
    buckets[b] := Bucket(h, buckets[b].count + 1, mult);
    forall c | 0 <= c < |added| ensures Heads(buckets[..][c], added[c]) && Inside(added[c], s) {
      if c != b {
        assert old@Before(Heads(old_[c], chains[c]));
        assert h !in chains[c];
        assert chains[b] != [] ==> chains[b][0] in chains[b] && chains[b][0] !in chains[c];
        assert Inside(chains[c], s);
        assert buckets[..][c] == old_[c];
      }
    }
  }

  // ----- doubling the buckets

  /** Multiplier of the threshold of a bucket with `count` handles. */
  function Mult(count: nat, ideal: nat): (m: nat)
    ensures count <= ideal ==> m == 0
    ensures 0 < ideal < count ==> m * ideal <= count < m * ideal + ideal
  {
    if ideal > 0 && count > ideal then count / ideal else 0
  }

  /** Handles further down their chain than the ideal length. */
  function Excess<K, E>(bs: seq<Bucket<K, E>>, ideal: nat): nat {
    if bs == [] then 0 else Beyond(bs[0].count, ideal) + Excess(bs[1..], ideal)
  }

  function Beyond(count: nat, ideal: nat): nat {
    if count > ideal then count - ideal else 0
  }

  lemma {:induction false} ExcessUpdate<K, E>(bs: seq<Bucket<K, E>>, b: nat, x: Bucket<K, E>, ideal: nat)
    requires b < |bs|
    ensures Excess(bs[b := x], ideal) == Excess(bs, ideal) - Beyond(bs[b].count, ideal) + Beyond(x.count, ideal)
  {
    if b > 0 {
      ExcessUpdate(bs[1..], b - 1, x, ideal);
      assert bs[b := x][1..] == bs[1..][b - 1 := x];
    } else {
      assert bs[b := x][1..] == bs[1..];
    }
  }

  ghost predicate Multiplied<K, E>(bs: seq<Bucket<K, E>>, ideal: nat) {
    forall b :: 0 <= b < |bs| ==> bs[b].expandMult == Mult(bs[b].count, ideal)
  }

  lemma ForwardTail<K, E>(head: Handle?<K, E>, c: seq<Handle<K, E>>, j: nat)
    requires j <= |c| && Forward(head, c[j..])
    ensures if head == null then j == |c| else j < |c| && head == c[j] && Forward(head.hhNext, c[j + 1..]) && c[j] !in c[j + 1..]
  {
    if j < |c| {
      var t, u := c[j..], c[j + 1..];
      assert t[0].hhNext == At(t, 1);
      forall i | 0 <= i < |u| ensures u[i].hhNext == At(u, i + 1) && u[i] != c[j] {
        assert t[i + 1].hhNext == At(t, i + 2) && u[i] == t[i + 1];
      }
    }
  }

  lemma PlacedNext<K, E>(hash: K -> nat, done: seq<Handle<K, E>>, c: seq<Handle<K, E>>, j: nat, moved: seq<seq<Handle<K, E>>>, b: nat)
    requires j < |c| && Placed(hash, done + c[..j], moved) && b == ToBucket(hash(c[j].data.key), |moved|)
    requires Distinct(c) && c[j] !in done
    ensures Separate(moved) && forall a :: 0 <= a < |moved| ==> c[j] !in moved[a]
    ensures Placed(hash, done + c[..j + 1], moved[b := [c[j]] + moved[b]])
  {
    assert c[j] !in done + c[..j];
    PlacedIsSeparate(hash, done + c[..j], moved);
    PlacedAdd(hash, done + c[..j], moved, c[j], b);
    assert done + c[..j] + [c[j]] == done + c[..j + 1];
  }

  /** The buckets built so far hold the handles `done`, each where its hash value says. */
  ghost predicate Rebuilt<K, E>(bs: seq<Bucket<K, E>>, moved: seq<seq<Handle<K, E>>>, hash: K -> nat, done: seq<Handle<K, E>>,
                             s: seq<Handle<K, E>>, ideal: nat, nonideal: nat)
    reads s`hhNext, s`hhPrev
  {
    AllHead(bs, moved, s) && Placed(hash, done, moved) && Multiplied(bs, ideal) && nonideal == Excess(bs, ideal)
  }

  /** Move one handle to its new bucket. */
  method MoveHandle<K, E>(buckets: array<Bucket<K, E>>, h: Handle<K, E>, hash: K -> nat, ideal: nat, nonideal0: nat, ghost c: seq<Handle<K, E>>,
                       ghost j: nat, ghost done: seq<Handle<K, E>>, ghost s: seq<Handle<K, E>>, ghost moved0: seq<seq<Handle<K, E>>>)
    returns (nonideal: nat, ghost moved: seq<seq<Handle<K, E>>>)
    requires j < |c| && h == c[j] && Distinct(c) && h !in done && h in s && h.hashv == hash(h.data.key) && ideal > 0
    requires buckets.Length > 0 && Rebuilt(buckets[..], moved0, hash, done + c[..j], s, ideal, nonideal0)
    modifies buckets, h`hhNext, s`hhPrev
    ensures Rebuilt(buckets[..], moved, hash, done + c[..j + 1], s, ideal, nonideal)
  {
    nonideal := nonideal0;
    var bkt := ToBucket(h.hashv, buckets.Length);
    ghost var was := buckets[..];
    var mult := buckets[bkt].expandMult;
    if buckets[bkt].count + 1 > ideal {
      nonideal := nonideal + 1;
      mult := (buckets[bkt].count + 1) / ideal;
    }
    PlacedNext(hash, done, c, j, moved0, bkt);
    moved := moved0[bkt := [h] + moved0[bkt]];
    ExcessUpdate(was, bkt, Bucket(h, was[bkt].count + 1, mult), ideal);
    hide AllHead, Placed, ToBucket, Excess, Separate;
    PushBucket(buckets, bkt, h, mult, moved0, s);
  }

  /** Move a whole chain, front to back. */
  method MoveChain<K, E>(buckets: array<Bucket<K, E>>, head: Handle?<K, E>, hash: K -> nat, ideal: nat, nonideal0: nat, ghost c: seq<Handle<K, E>>,
                      ghost done: seq<Handle<K, E>>, ghost s: seq<Handle<K, E>>, ghost moved0: seq<seq<Handle<K, E>>>)
    returns (nonideal: nat, ghost moved: seq<seq<Handle<K, E>>>)
    requires Forward(head, c) && Inside(c, s) && Hashed(hash, s) && ideal > 0
    requires forall i :: 0 <= i < |c| ==> c[i] !in done
    requires buckets.Length > 0 && Rebuilt(buckets[..], moved0, hash, done, s, ideal, nonideal0)
    modifies buckets, c`hhNext, s`hhPrev
    ensures Rebuilt(buckets[..], moved, hash, done + c, s, ideal, nonideal)
  {
    hide *;
    nonideal, moved := nonideal0, moved0;
    var thh := head;
    ghost var j: nat := 0;
    assert c[0..] == c && done + c[..0] == done;
    ChainParts(head, c, s);
    while thh != null
      invariant j <= |c| && Forward(thh, c[j..])
      invariant Rebuilt(buckets[..], moved, hash, done + c[..j], s, ideal, nonideal)
      decreases |c| - j
    {
      ForwardTail(thh, c, j);
      HashedAt(hash, s, thh);
      var next := thh.hhNext;
      nonideal, moved := MoveHandle(buckets, thh, hash, ideal, nonideal, c, j, done, s, moved);
      thh, j := next, j + 1;
    }
    ForwardTail(thh, c, j);
    assert c[..j] == c;
  }

  lemma ChainParts<K, E>(head: Handle?<K, E>, c: seq<Handle<K, E>>, s: seq<Handle<K, E>>)
    requires Forward(head, c) && Inside(c, s)
    ensures Distinct(c) && forall i :: 0 <= i < |c| ==> c[i] in s
  {
  }

  lemma HashedAt<K, E>(hash: K -> nat, s: seq<Handle<K, E>>, h: Handle<K, E>)
    requires Hashed(hash, s) && h in s
    ensures h.hashv == hash(h.data.key)
  {
  }

  ghost function Members<K, E>(chains: seq<seq<Handle<K, E>>>, i: nat): set<Handle<K, E>> {
    set b, h | i <= b < |chains| && h in chains[b] :: h
  }

  /** The chains from `i` on still wait to be moved. */
  ghost predicate Waiting<K, E>(bs: seq<Bucket<K, E>>, chains: seq<seq<Handle<K, E>>>, i: nat)
    reads Members(chains, i)`hhNext
  {
    && |bs| == |chains|
    && forall b {:trigger chains[b]} :: i <= b < |bs| ==> Awaits(bs[b].head, chains[b], Members(chains, i))
  }

  ghost predicate Awaits<K, E>(head: Handle?<K, E>, c: seq<Handle<K, E>>, all: set<Handle<K, E>>)
    reads all`hhNext
  {
    (forall j :: 0 <= j < |c| ==> c[j] in all) && Forward(head, c)
  }

  function Flatten<K, E>(chains: seq<seq<Handle<K, E>>>, i: nat): seq<Handle<K, E>>
    requires i <= |chains|
  {
    if i == 0 then [] else Flatten(chains, i - 1) + chains[i - 1]
  }

  lemma {:induction false} FlattenMember<K, E>(chains: seq<seq<Handle<K, E>>>, i: nat, h: Handle<K, E>)
    requires i <= |chains|
    ensures h in Flatten(chains, i) <==> exists b :: 0 <= b < i && h in chains[b]
  {
    if i > 0 {
      FlattenMember(chains, i - 1, h);
    }
  }

  lemma {:induction false} NoExcess<K, E>(bs: seq<Bucket<K, E>>, ideal: nat)
    requires forall b :: 0 <= b < |bs| ==> bs[b].count == 0
    ensures Excess(bs, ideal) == 0
  {
    if bs != [] {
      NoExcess(bs[1..], ideal);
    }
  }

  lemma NothingRebuilt<K, E>(bs: seq<Bucket<K, E>>, moved: seq<seq<Handle<K, E>>>, hash: K -> nat, s: seq<Handle<K, E>>, ideal: nat)
    requires |bs| > 0 && |moved| == |bs|
    requires forall b :: 0 <= b < |bs| ==> bs[b] == Bucket(null, 0, 0) && moved[b] == []
    ensures Rebuilt(bs, moved, hash, [], s, ideal, 0)
  {
    NoExcess(bs, ideal);
  }

  lemma InMembers<K, E>(chains: seq<seq<Handle<K, E>>>, i: nat, b: nat)
    requires i <= b < |chains|
    ensures forall j :: 0 <= j < |chains[b]| ==> chains[b][j] in Members(chains, i)
  {
    forall j | 0 <= j < |chains[b]| ensures chains[b][j] in Members(chains, i) {
      assert chains[b][j] in chains[b];
    }
  }

  lemma AllWait<K, E>(bs: seq<Bucket<K, E>>, chains: seq<seq<Handle<K, E>>>, s: seq<Handle<K, E>>)
    requires AllHead(bs, chains, s)
    ensures Waiting(bs, chains, 0)
  {
    forall b | 0 <= b < |bs| ensures Awaits(bs[b].head, chains[b], Members(chains, 0)) {
      assert Heads(bs[b], chains[b]);
      InMembers(chains, 0, b);
    }
  }

  lemma NextWaits<K, E>(bs: seq<Bucket<K, E>>, chains: seq<seq<Handle<K, E>>>, i: nat)
    requires Waiting(bs, chains, i) && i < |bs|
    ensures i < |chains| && Forward(bs[i].head, chains[i]) && Waiting(bs, chains, i + 1)
  {
    forall b | i + 1 <= b < |bs| ensures Awaits(bs[b].head, chains[b], Members(chains, i + 1)) {
      assert Awaits(bs[b].head, chains[b], Members(chains, i));
      InMembers(chains, i + 1, b);
    }
  }

  lemma NextIsNew<K, E>(chains: seq<seq<Handle<K, E>>>, s: seq<Handle<K, E>>, hash: K -> nat, i: nat)
    requires i < |chains| && Placed(hash, s, chains)
    ensures Inside(chains[i], s) && Flatten(chains, i + 1) == Flatten(chains, i) + chains[i]
    ensures forall j :: 0 <= j < |chains[i]| ==> chains[i][j] !in Flatten(chains, i) && chains[i][j] !in Members(chains, i + 1)
    ensures forall h :: h in Members(chains, i + 1) ==> h !in chains[i]
  {
    PlacedIsSeparate(hash, s, chains);
    forall j | 0 <= j < |chains[i]|
      ensures chains[i][j] in s && chains[i][j] !in Flatten(chains, i) && chains[i][j] !in Members(chains, i + 1)
    {
      FlattenMember(chains, i, chains[i][j]);
    }
  }

  lemma PlacedSame<K, E>(hash: K -> nat, s: seq<Handle<K, E>>, t: seq<Handle<K, E>>, chains: seq<seq<Handle<K, E>>>)
    requires Placed(hash, s, chains) && forall h :: h in s <==> h in t
    ensures Placed(hash, t, chains)
  {
  }

  lemma InFlat<K, E>(hash: K -> nat, s: seq<Handle<K, E>>, chains: seq<seq<Handle<K, E>>>, h: Handle<K, E>)
    requires Placed(hash, s, chains)
    ensures h in Flatten(chains, |chains|) <==> h in s
  {
    FlattenMember(chains, |chains|, h);
    hide Flatten;
    if h in s {
      assert h in chains[ToBucket(hash(h.data.key), |chains|)];
    }
  }

  lemma AllRebuilt<K, E>(bs: seq<Bucket<K, E>>, moved: seq<seq<Handle<K, E>>>, hash: K -> nat, chains: seq<seq<Handle<K, E>>>,
                      s: seq<Handle<K, E>>, ideal: nat, nonideal: nat)
    requires Rebuilt(bs, moved, hash, Flatten(chains, |chains|), s, ideal, nonideal) && Placed(hash, s, chains)
    ensures Rebuilt(bs, moved, hash, s, s, ideal, nonideal)
  {
    hide AllHead, Multiplied, Excess, Placed, Flatten;
    forall h ensures h in Flatten(chains, |chains|) <==> h in s {
      InFlat(hash, s, chains, h);
    }
    PlacedSame(hash, Flatten(chains, |chains|), s, moved);
  }

  /** HASH_EXPAND_BUCKETS up to the new bucket array. */
  method Rehash<K, E>(buckets: array<Bucket<K, E>>, numBuckets: nat, hash: K -> nat, ideal: nat,
                   ghost s: seq<Handle<K, E>>, ghost chains: seq<seq<Handle<K, E>>>)
    returns (newBuckets: array<Bucket<K, E>>, nonideal: nat, ghost moved: seq<seq<Handle<K, E>>>)
    requires numBuckets == buckets.Length > 0 && |chains| == numBuckets
    requires AllHead(buckets[..], chains, s) && Placed(hash, s, chains) && Hashed(hash, s) && ideal > 0
    modifies s`hhNext, s`hhPrev
    ensures fresh(newBuckets) && newBuckets.Length == 2 * numBuckets
    ensures Rebuilt(newBuckets[..], moved, hash, s, s, ideal, nonideal)
  {
    hide AllHead, Placed, Hashed, Rebuilt, Flatten, Forward, Inside, Awaits, Waiting;
    newBuckets := new Bucket<K, E>[2 * numBuckets](_ => Bucket(null, 0, 0));
    nonideal := 0;
    moved := seq(2 * numBuckets, _ => []);
    NothingRebuilt(newBuckets[..], moved, hash, s, ideal);
    ghost var bs := buckets[..];
    AllWait(bs, chains, s);
    NothingFlat(chains);
    for i := 0 to numBuckets
      invariant Rebuilt(newBuckets[..], moved, hash, Flatten(chains, i), s, ideal, nonideal)
      invariant Waiting(bs, chains, i)
      invariant bs == buckets[..]
    {
      NextWaits(bs, chains, i);
      NextIsNew(chains, s, hash, i);
      nonideal, moved := MoveChain(newBuckets, buckets[i].head, hash, ideal, nonideal, chains[i], Flatten(chains, i), s, moved);
    }
    AllRebuilt(newBuckets[..], moved, hash, chains, s, ideal, nonideal);
  }

  lemma NothingFlat<K, E>(chains: seq<seq<Handle<K, E>>>)
    ensures Flatten(chains, 0) == []
  {
  }

  // ----- the application order

  /** Append to the application order. */
  method AppendApp<K, E>(tail: Handle<K, E>, add: Handle<K, E>, ghost head: Handle?<K, E>, ghost s: seq<Handle<K, E>>)
    requires AppOrder(head, tail, s) && add !in s && add.next == null
    modifies tail`next, add`prev
    ensures AppOrder(head, add, s + [add])
  {
    tail.next := add;
    add.prev := tail;
  }

  lemma WithoutAt<K, E>(s: seq<Handle<K, E>>, i: nat, k: int)
    requires i < |s|
    ensures var t := s[..i] + s[i + 1..];
            && At(t, k) == At(s, if k < i then k else k + 1)
            && (0 <= k < |t| ==> t[k] == s[if k < i then k else k + 1])
  {
  }

  /** Once its neighbours point past `s[i]`, the others are in order without it. */
  lemma Rejoined<K, E>(head: Handle?<K, E>, tail: Handle?<K, E>, s: seq<Handle<K, E>>, i: nat)
    requires i < |s| && |s| > 1 && Distinct(s)
    requires forall m {:trigger s[m].next} :: 0 <= m < |s| && m != i ==> s[m].next == At(s, if m + 1 == i then i + 1 else m + 1)
    requires forall m {:trigger s[m].prev} :: 0 <= m < |s| && m != i ==> s[m].prev == At(s, if m == i + 1 then i - 1 else m - 1)
    requires head == At(s, if i == 0 then 1 else 0) && tail == At(s, if i + 1 == |s| then |s| - 2 else |s| - 1)
    ensures AppOrder(head, tail, s[..i] + s[i + 1..])
  {
    hide At;
    var t := s[..i] + s[i + 1..];
    forall k | 0 <= k < |t| ensures t[k].next == At(t, k + 1) && t[k].prev == At(t, k - 1) {
      WithoutAt(s, i, k);
      WithoutAt(s, i, k + 1);
      WithoutAt(s, i, k - 1);
    }
    WithoutAt(s, i, 0);
    WithoutAt(s, i, |s| - 2);
    AtIs(t, 0);
    AtIs(t, |t| - 1);
  }

  lemma AtIs<K, E>(s: seq<Handle<K, E>>, k: nat)
    requires k < |s|
    ensures At(s, k) == s[k]
  {
  }

  /** Patch the application order around the deletee, which is not alone. */
  method UnlinkApp<K, E>(head0: Handle<K, E>, tail0: Handle<K, E>, del: Handle<K, E>, ghost s: seq<Handle<K, E>>, ghost i: nat)
    returns (head: Handle?<K, E>, tail: Handle?<K, E>)
    requires AppOrder(head0, tail0, s) && i < |s| && del == s[i] && |s| > 1
    modifies s`next, s`prev
    ensures AppOrder(head, tail, s[..i] + s[i + 1..])
  {
    assert s[i].next == At(s, i + 1) && s[i].prev == At(s, i - 1);
    head, tail := head0, tail0;
    if del == tail {
      tail := del.prev;
    }
    if del.prev != null {
      del.prev.next := del.next;
    } else {
      head := del.next;
    }
    if del.next != null {
      del.next.prev := del.prev;
    }
    Rejoined(head, tail, s, i);
  }

  lemma Alone<K, E>(head: Handle?<K, E>, tail: Handle?<K, E>, s: seq<Handle<K, E>>, i: nat)
    requires AppOrder(head, tail, s) && i < |s|
    ensures s[i].prev == null && s[i].next == null <==> |s| == 1
    ensures head == s[0] && tail == s[|s| - 1] && Distinct(s)
  {
    assert s[i].next == At(s, i + 1) && s[i].prev == At(s, i - 1);
  }

  lemma RebuiltParts<K, E>(bs: seq<Bucket<K, E>>, moved: seq<seq<Handle<K, E>>>, hash: K -> nat, s: seq<Handle<K, E>>, ideal: nat, nonideal: nat)
    requires Rebuilt(bs, moved, hash, s, s, ideal, nonideal)
    ensures AllHead(bs, moved, s) && Placed(hash, s, moved) && nonideal == Excess(bs, ideal) && |moved| == |bs|
  {
  }

  // ----- the table

  /** The user's head pointer and the UT_hash_table behind it. */
  class HashTable<K(==, !new), E(!new)> {
    const hash: K -> nat
    var head: Handle?<K, E>
    var buckets: array<Bucket<K, E>>
    var numBuckets: nat
    var log2NumBuckets: nat
    var numItems: nat
    var tail: Handle?<K, E>
    var idealChainMaxlen: nat
    var nonidealItems: nat
    var ineffExpands: nat
    var noexpand: bool
    ghost var items: seq<Handle<K, E>>
    ghost var chains: seq<seq<Handle<K, E>>>

    ghost predicate Valid()
      reads this, buckets, items
    {
      if items == [] then head == null
      else AppOrder(head, tail, items) && Hashed(hash, items) && DistinctKeys(items) && numItems == |items| && Indexed(items)
    }

    /** The buckets hold exactly the handles `s`; there are 2^log2_num_buckets of them. */
    ghost predicate Indexed(s: seq<Handle<K, E>>)
      reads `buckets, `numBuckets, `log2NumBuckets, `chains, buckets, s`hhNext, s`hhPrev
    {
      && numBuckets == buckets.Length == |chains| == Pow2(log2NumBuckets)
      && AllHead(buckets[..], chains, s) && Placed(hash, s, chains)
    }

    constructor (hash: K -> nat)
      ensures Valid() && items == [] && this.hash == hash && fresh(buckets)
    {
      this.hash := hash;
      head, tail, items, chains := null, null, [], [];
      buckets := new Bucket<K, E>[0];
      noexpand := false;
    }

    /** HASH_FIND. */
    method Find(key: K) returns (out: Handle?<K, E>)
      requires Valid()
      ensures DistinctKeys(items) && out == if key in Contents(items) then Contents(items)[key] else null
    {
      hide Contents;
      out := null;
      if head != null {
        var bkt := ToBucket(hash(key), numBuckets);
        assert Heads(buckets[..][bkt], chains[bkt]);
        out := FindInChain(buckets[bkt].head, key, chains[bkt]);
      }
      FoundIsMapped(items, key, out);
    }

    /** HASH_EXPAND_BUCKETS. */
    method ExpandBuckets(ghost s: seq<Handle<K, E>>)
      requires Indexed(s) && Hashed(hash, s) && numItems > 0
      modifies `buckets, `numBuckets, `log2NumBuckets, `chains, `idealChainMaxlen, `nonidealItems, `ineffExpands, `noexpand
      modifies s`hhNext, s`hhPrev
      ensures Indexed(s) && numBuckets == 2 * old(numBuckets) && fresh(buckets)
      ensures idealChainMaxlen > 0 && nonidealItems == Excess(buckets[..], idealChainMaxlen)
      ensures ineffExpands == if nonidealItems > numItems / 2 then old(ineffExpands) + 1 else 0
      ensures noexpand <==> old(noexpand) || (old(ineffExpands) > 0 && nonidealItems > numItems / 2)
    {
      hide *;
      IndexedParts(s);
      IdealChainIsCeiling(numItems, numBuckets, log2NumBuckets);
      idealChainMaxlen := IdealChain(numItems, numBuckets, log2NumBuckets);
      var newBuckets, nonideal;
      ghost var moved;
      newBuckets, nonideal, moved := Rehash(buckets, numBuckets, hash, idealChainMaxlen, s, chains);
      RebuiltParts(newBuckets[..], moved, hash, s, idealChainMaxlen, nonideal);
      nonidealItems := nonideal;
      numBuckets := numBuckets * 2;
      log2NumBuckets := log2NumBuckets + 1;
      buckets, chains := newBuckets, moved;
      ineffExpands := if nonidealItems > numItems / 2 then ineffExpands + 1 else 0;
      if ineffExpands > 1 {
        noexpand := true;
      }
      PartsIndexed(s);
    }

    lemma IndexedParts(s: seq<Handle<K, E>>)
      requires Indexed(s)
      ensures numBuckets == buckets.Length == |chains| == Pow2(log2NumBuckets) > 0
      ensures AllHead(buckets[..], chains, s) && Placed(hash, s, chains)
      ensures 2 * numBuckets == Pow2(log2NumBuckets + 1)
    {
    }

    lemma CrowdsIs(bkt: nat)
      requires bkt < buckets.Length
      ensures Crowds(bkt) <==> buckets[bkt].count + 1 >= (buckets[bkt].expandMult + 1) * CAPACITY_THRESH && !noexpand
    {
    }

    lemma NoneCrowds()
      requires forall b :: 0 <= b < buckets.Length ==> buckets[b].count == 0
      ensures forall b: nat :: b < buckets.Length ==> !Crowds(b)
    {
    }

    lemma HomeIs(key: K)
      requires Valid() && items != []
      ensures numBuckets == buckets.Length > 0 && Home(key) == ToBucket(hash(key), numBuckets) < buckets.Length
    {
    }

    lemma PartsIndexed(s: seq<Handle<K, E>>)
      requires numBuckets == buckets.Length == |chains| == Pow2(log2NumBuckets)
      requires AllHead(buckets[..], chains, s) && Placed(hash, s, chains)
      ensures Indexed(s)
    {
    }

    /** One more handle in this bucket would be a tenth for every multiple it is allowed. */
    ghost predicate Crowds(bkt: nat)
      requires bkt < buckets.Length
      reads `buckets, `noexpand, buckets
    {
      buckets[bkt].count + 1 >= 10 * (buckets[bkt].expandMult + 1) && !noexpand
    }

    /** HASH_ADD_TO_BKT. */
    method AddToBucket(bkt: nat, add: Handle<K, E>, ghost s: seq<Handle<K, E>>)
      requires Indexed(s) && add !in s && Hashed(hash, s + [add]) && bkt == ToBucket(add.hashv, numBuckets) && numItems > 0
      modifies `buckets, `numBuckets, `log2NumBuckets, `chains, `idealChainMaxlen, `nonidealItems, `ineffExpands, `noexpand
      modifies buckets, add`hhNext, add`hhPrev, s`hhNext, s`hhPrev
      ensures Indexed(s + [add]) && (buckets == old(buckets) || fresh(buckets))
      ensures numBuckets == if old(Crowds(bkt)) then 2 * old(numBuckets) else old(numBuckets)
    {
      hide *;
      ghost var t := s + [add];
      HashedAt(hash, t, add);
      IndexedParts(s);
      CrowdsIs(bkt);
      JoinsBucket(hash, s, chains, buckets[..], add, bkt);
      PushBucket(buckets, bkt, add, buckets[bkt].expandMult, chains, t);
      chains := chains[bkt := [add] + chains[bkt]];
      PartsIndexed(t);
      if buckets[bkt].count >= (buckets[bkt].expandMult + 1) * CAPACITY_THRESH && !noexpand {
        ExpandBuckets(t);
      }
    }

    /** HASH_MAKE_TABLE, but for the tail. */
    method MakeTable()
      modifies `buckets, `numBuckets, `log2NumBuckets, `numItems, `chains, `idealChainMaxlen, `nonidealItems, `ineffExpands, `noexpand
      ensures Indexed([]) && numItems == 0 && numBuckets == 32 && fresh(buckets)
      ensures forall b :: 0 <= b < buckets.Length ==> buckets[b].count == 0
    {
      buckets := new Bucket<K, E>[INITIAL_BUCKETS](_ => Bucket(null, 0, 0));
      numBuckets, log2NumBuckets := INITIAL_BUCKETS, INITIAL_LOG2;
      numItems, idealChainMaxlen, nonidealItems, ineffExpands, noexpand := 0, 0, 0, 0, false;
      chains := seq(INITIAL_BUCKETS, _ => []);
      NothingRebuilt(buckets[..], chains, hash, [], 0);
    }

    /** The application order of HASH_ADD_KEYPTR; the first handle makes the table. */
    method JoinOrder(add: Handle<K, E>)
      requires Valid() && add !in items && add.next == null
      modifies this, add`prev, items`next
      ensures AppOrder(head, tail, items + [add]) && items == old(items)
      ensures Hashed(hash, items) && numItems == |items| && Indexed(items) && numBuckets > 0
      ensures buckets == old(buckets) || fresh(buckets)
      ensures old(items) == [] ==> numBuckets == 32 && forall b: nat :: b < buckets.Length ==> !Crowds(b)
      ensures old(items) != [] ==> numBuckets == old(numBuckets) && buckets == old(buckets)
      ensures old(items) != [] ==> forall b: nat :: b < buckets.Length ==> (Crowds(b) <==> old(Crowds(b)))
    {
      hide *;
      Opened();
      if head == null {
        head := add;
        head.prev := null;
        tail := add;
        MakeTable();
        assert items + [add] == [add] && items == [];
        FirstApp(add);
        NoneCrowds();
        NoneHashed(hash, items);
      } else {
        AppTail(head, tail, items);
        AppendApp(tail, add, head, items);
        tail := add;
      }
    }

    /** The rest of HASH_ADD_KEYPTR: the handle is counted, hashed and put into its bucket. */
    method JoinIndex(add: Handle<K, E>, ghost s: seq<Handle<K, E>>)
      requires Hashed(hash, s) && numItems == |s| && Indexed(s) && numBuckets > 0 && add !in s
      modifies `buckets, `numBuckets, `log2NumBuckets, `chains, `idealChainMaxlen, `nonidealItems, `ineffExpands, `noexpand, `numItems
      modifies buckets, add`hashv, add`hhNext, add`hhPrev, s`hhNext, s`hhPrev
      ensures Hashed(hash, s + [add]) && numItems == |s + [add]| && Indexed(s + [add])
      ensures buckets == old(buckets) || fresh(buckets)
      ensures numBuckets == if old(Crowds(ToBucket(hash(add.data.key), numBuckets))) then 2 * old(numBuckets) else old(numBuckets)
    {
      hide *;
      IndexedParts(s);
      numItems := numItems + 1;
      add.hashv := hash(add.data.key);
      HashedAdd(hash, s, add);
      AddToBucket(ToBucket(add.hashv, numBuckets), add, s);
    }

    /** The bucket of a key, which is its hash value modulo the number of buckets. */
    ghost function Home(key: K): (b: nat)
      requires Valid() && items != []
      reads this, buckets, items
      ensures b < buckets.Length && b == hash(key) % numBuckets
    {
      MaskIsMod(hash(key), log2NumBuckets);
      ToBucket(hash(key), numBuckets)
    }

    /** HASH_ADD_KEYPTR: a handle with a new key joins at the end of the order. */
    method Add(add: Handle<K, E>)
      requires Valid() && add !in items && forall h :: h in items ==> h.data.key != add.data.key
      modifies this, buckets, add, items`next, items`hhNext, items`hhPrev
      ensures Valid() && items == old(items) + [add] && (buckets == old(buckets) || fresh(buckets))
      ensures DistinctKeys(old(items)) && DistinctKeys(items) && Contents(items) == Contents(old(items))[add.data.key := add]
      ensures old(items) == [] ==> numBuckets == 32
      ensures old(items) != [] ==> old(Home(add.data.key) < buckets.Length)
      ensures old(items) != [] ==>
        numBuckets == if old(Crowds(Home(add.data.key))) then 2 * old(numBuckets) else old(numBuckets)
    {
      hide *;
      Opened();
      ghost var s := items;
      KeysAdd(s, add);
      ContentsAdd(s, add);
      if items != [] {
        HomeIs(add.data.key);
      }
      add.next := null;
      JoinOrder(add);
      IndexedParts(s);
      JoinIndex(add, s);
      items := s + [add];
      Closed();
    }

    /** The bucket part of HASH_DELETE. */
    method DropFromBucket(del: Handle<K, E>, ghost s: seq<Handle<K, E>>, ghost i: nat)
      requires Indexed(s) && Hashed(hash, s) && i < |s| && del == s[i] && Distinct(s)
      modifies `chains, buckets, s`hhNext, s`hhPrev
      ensures Indexed(s[..i] + s[i + 1..])
    {
      hide *;
      IndexedParts(s);
      HashedAt(hash, s, del);
      var bkt := ToBucket(del.hashv, numBuckets);
      ghost var k := LeavesBucket(hash, s, chains, buckets[..], i, bkt);
      DropFrom(buckets, bkt, del, k, chains, s);
      AllHeadFewer(buckets[..], chains[bkt := chains[bkt][..k] + chains[bkt][k + 1..]], hash, s, s[..i] + s[i + 1..]);
      chains := chains[bkt := chains[bkt][..k] + chains[bkt][k + 1..]];
      PartsIndexed(s[..i] + s[i + 1..]);
    }

    /** HASH_DELETE of a handle that is not alone. */
    method Detach(del: Handle<K, E>, ghost s: seq<Handle<K, E>>, ghost i: nat)
      requires head != null && tail != null && AppOrder(head, tail, s) && Indexed(s) && Hashed(hash, s)
      requires i < |s| && del == s[i] && |s| > 1 && Distinct(s) && numItems > 0
      modifies `head, `tail, `numItems, `chains, buckets, s`next, s`prev, s`hhNext, s`hhPrev
      ensures AppOrder(head, tail, s[..i] + s[i + 1..]) && Indexed(s[..i] + s[i + 1..]) && numItems == old(numItems) - 1
    {
      hide *;
      head, tail := UnlinkApp(head, tail, del, s, i);
      DropFromBucket(del, s, i);
      numItems := numItems - 1;
    }

    /** HASH_DELETE: the handle leaves the order; the last one takes the table with it. */
    method Delete(del: Handle<K, E>, ghost i: nat)
      requires Valid() && i < |items| && del == items[i]
      modifies this, buckets, items`next, items`prev, items`hhNext, items`hhPrev
      ensures Valid() && items == old(items)[..i] + old(items)[i + 1..]
      ensures DistinctKeys(old(items)) && DistinctKeys(items) && Contents(items) == Contents(old(items)) - {del.data.key}
    {
      hide *;
      ghost var s := items;
      ghost var t := s[..i] + s[i + 1..];
      Opened();
      Alone(head, tail, s, i);
      KeysDrop(hash, s, i);
      ContentsDrop(s, i);
      if del.prev == null && del.next == null {
        head := null;
        items := t;
        Emptied();
      } else {
        Detach(del, s, i);
        items := t;
        Closed();
      }
    }

    /** HASH_SRT: the application order is sorted where it is; buckets and contents are left alone. */
    method Sort(cmp: MergeRuns.Order<Element<K, E>>)
      requires Valid()
      modifies `head, `tail, `items, items`next, items`prev
      ensures Valid() && items == MergeRuns.SortOf(cmp, old(items))
      ensures MergeRuns.TotalPreorder(cmp) ==>
        MergeRuns.Sorted(cmp, items) && MergeRuns.StablePermutation(cmp, old(items), items)
      ensures DistinctKeys(old(items)) && DistinctKeys(items) && Contents(items) == Contents(old(items))
    {
      hide *;
      ghost var s, t := items, MergeRuns.SortOf(cmp, items);
      Opened();
      SortKeeps(cmp, s);
      ListSort.SortIsStable(cmp, s);
      if head != null {
        AppIsNullEnded(head, tail, s);
        head, tail := ListSort.HashSort(head, tail, cmp, s);
        AppIsNullEnded(head, tail, t);
        items := t;
        IndexedSame(s, t);
        Closed();
      }
    }

    lemma IndexedSame(s: seq<Handle<K, E>>, t: seq<Handle<K, E>>)
      requires Indexed(s) && Hashed(hash, s) && Inside(s, t) && Inside(t, s)
      ensures Indexed(t) && Hashed(hash, t)
    {
      hide *;
      IndexedParts(s);
      SameMembers(s, t);
      PlacedSame(hash, s, t, chains);
      AllHeadFewer(buckets[..], chains, hash, s, t);
      HashedSame(hash, s, t);
      PartsIndexed(t);
    }

    lemma Emptied()
      requires items == [] && head == null
      ensures Valid()
    {
    }

    lemma Opened()
      requires Valid()
      ensures items == [] <==> head == null
      ensures items != [] ==>
        AppOrder(head, tail, items) && Hashed(hash, items) && numItems == |items| && Indexed(items) && numBuckets > 0
      ensures DistinctKeys(items)
    {
    }

    lemma Closed()
      requires AppOrder(head, tail, items) && Hashed(hash, items) && DistinctKeys(items)
      requires numItems == |items| && Indexed(items)
      ensures Valid()
    {
    }
  }

  /** An application order is one of the lists of utlist.h, NULL at both ends. */
  lemma AppIsNullEnded<K, E>(head: Handle?<K, E>, tail: Handle?<K, E>, s: seq<Handle<K, E>>)
    requires s != []
    ensures AppOrder(head, tail, s) <==> NullEnded(head, tail, s)
  {
  }

  lemma HashedSame<K, E>(hash: K -> nat, s: seq<Handle<K, E>>, t: seq<Handle<K, E>>)
    requires Hashed(hash, s) && forall h :: h in s <==> h in t
    ensures Hashed(hash, t)
  {
  }

  lemma SameMembers<K, E>(s: seq<Handle<K, E>>, t: seq<Handle<K, E>>)
    requires Inside(s, t) && Inside(t, s)
    ensures forall h :: h in s <==> h in t
  {
  }

  lemma {:induction false} AtMostOnce<T>(s: seq<T>, x: T)
    requires Distinct(s)
    ensures multiset(s)[x] <= 1
  {
    if s != [] {
      assert s == [s[0]] + s[1..];
      AtMostOnce(s[1..], x);
    }
  }

  lemma PermutedIsDistinct<T>(s: seq<T>, t: seq<T>)
    requires Distinct(s) && multiset(s) == multiset(t)
    ensures Distinct(t)
  {
    forall i, j | 0 <= i < j < |t| ensures t[i] != t[j] {
      AtMostOnce(s, t[i]);
      assert t == t[..i] + [t[i]] + t[i + 1..j] + [t[j]] + t[j + 1..];
    }
  }

  lemma PermutedInside<K, E>(s: seq<Handle<K, E>>, t: seq<Handle<K, E>>)
    requires multiset(s) == multiset(t)
    ensures Inside(s, t)
  {
    forall i | 0 <= i < |s| ensures s[i] in t {
      assert s[i] in multiset(t);
    }
  }

  lemma PermutedKeys<K, E>(s: seq<Handle<K, E>>, t: seq<Handle<K, E>>)
    requires DistinctKeys(s) && Distinct(t) && Inside(t, s)
    ensures DistinctKeys(t)
  {
    forall i, j | 0 <= i < j < |t| ensures t[i].data.key != t[j].data.key {
      assert t[i] in s && t[j] in s && t[i] != t[j];
    }
  }

  lemma KeysAreDistinct<K, E>(s: seq<Handle<K, E>>)
    requires DistinctKeys(s)
    ensures Distinct(s)
  {
  }

  lemma ContentsWithin<K, E>(s: seq<Handle<K, E>>, t: seq<Handle<K, E>>, k: K)
    requires DistinctKeys(s) && DistinctKeys(t) && Inside(s, t) && k in Contents(s)
    ensures k in Contents(t) && Contents(t)[k] == Contents(s)[k]
  {
    hide Contents;
    var i := MappedFrom(s, k);
    var j :| 0 <= j < |t| && t[j] == s[i];
    MapsAt(t, j);
  }

  /** Sorting keeps the handles, their keys and what they are mapped to. */
  lemma SortKeeps<K, E>(cmp: MergeRuns.Order<Element<K, E>>, s: seq<Handle<K, E>>)
    requires DistinctKeys(s)
    ensures var t := MergeRuns.SortOf(cmp, s);
            Inside(s, t) && Inside(t, s) && (s == [] <==> t == []) && DistinctKeys(t) && Contents(t) == Contents(s)
  {
    var t := MergeRuns.SortOf(cmp, s);
    MergeRuns.PassesPermute(cmp, s, 1);
    hide DistinctKeys, Inside, Contents, Distinct, MergeRuns.Passes;
    KeysAreDistinct(s);
    PermutedIsDistinct(s, t);
    PermutedInside(s, t);
    PermutedInside(t, s);
    PermutedKeys(s, t);
    forall k | k in Contents(s) ensures k in Contents(t) && Contents(t)[k] == Contents(s)[k] {
      ContentsWithin(s, t, k);
    }
    forall k | k in Contents(t) ensures k in Contents(s) {
      ContentsWithin(t, s, k);
    }
  }

  lemma FirstApp<K, E>(h: Handle<K, E>)
    requires h.next == null && h.prev == null
    ensures AppOrder(h, h, [h])
  {
  }

  lemma AppTail<K, E>(head: Handle?<K, E>, tail: Handle?<K, E>, s: seq<Handle<K, E>>)
    requires AppOrder(head, tail, s)
    ensures tail != null && tail in s
  {
  }

  lemma NoneHashed<K, E>(hash: K -> nat, s: seq<Handle<K, E>>)
    requires s == []
    ensures Hashed(hash, s)
  {
  }

  lemma HashedAdd<K, E>(hash: K -> nat, s: seq<Handle<K, E>>, h: Handle<K, E>)
    requires Hashed(hash, s) && h.hashv == hash(h.data.key)
    ensures Hashed(hash, s + [h])
  {
  }

  lemma KeysAdd<K, E>(s: seq<Handle<K, E>>, add: Handle<K, E>)
    requires DistinctKeys(s) && forall h :: h in s ==> h.data.key != add.data.key
    ensures DistinctKeys(s + [add])
  {
  }

  lemma KeysDrop<K, E>(hash: K -> nat, s: seq<Handle<K, E>>, i: nat)
    requires DistinctKeys(s) && Hashed(hash, s) && i < |s|
    ensures DistinctKeys(s[..i] + s[i + 1..]) && Hashed(hash, s[..i] + s[i + 1..])
  {
  }

  lemma LeavesBucket<K, E>(hash: K -> nat, s: seq<Handle<K, E>>, chains: seq<seq<Handle<K, E>>>, bs: seq<Bucket<K, E>>, i: nat, b: nat)
    returns (k: nat)
    requires AllHead(bs, chains, s) && Placed(hash, s, chains) && i < |s| && b == ToBucket(hash(s[i].data.key), |chains|) && Distinct(s)
    ensures Separate(chains) && k < |chains[b]| && chains[b][k] == s[i]
    ensures Placed(hash, s[..i] + s[i + 1..], chains[b := chains[b][..k] + chains[b][k + 1..]])
  {
    assert s[i] in chains[b] && Heads(bs[b], chains[b]);
    k :| 0 <= k < |chains[b]| && chains[b][k] == s[i];
    PlacedIsSeparate(hash, s, chains);
    hide AllHead, Heads, Chain;
    PlacedDrop(hash, s, chains, i, b, k);
  }

  lemma MemberDrop<T>(s: seq<T>, i: nat, x: T)
    requires i < |s| && Distinct(s)
    ensures x in s[..i] + s[i + 1..] <==> x in s && x != s[i]
  {
    if x in s && x != s[i] {
      var j :| 0 <= j < |s| && s[j] == x;
      assert x == if j < i then (s[..i] + s[i + 1..])[j] else (s[..i] + s[i + 1..])[j - 1];
    }
  }

  lemma PlacedDrop<K, E>(hash: K -> nat, s: seq<Handle<K, E>>, chains: seq<seq<Handle<K, E>>>, i: nat, b: nat, k: nat)
    requires Placed(hash, s, chains) && Distinct(s) && i < |s| && b == ToBucket(hash(s[i].data.key), |chains|)
    requires Distinct(chains[b]) && k < |chains[b]| && chains[b][k] == s[i]
    ensures Placed(hash, s[..i] + s[i + 1..], chains[b := chains[b][..k] + chains[b][k + 1..]])
  {
    var t, fewer := s[..i] + s[i + 1..], chains[b := chains[b][..k] + chains[b][k + 1..]];
    forall h | h in t ensures h in fewer[ToBucket(hash(h.data.key), |chains|)] {
      MemberDrop(s, i, h);
      MemberDrop(chains[b], k, h);
    }
    forall c, h | 0 <= c < |fewer| && h in fewer[c] ensures h in t && ToBucket(hash(h.data.key), |chains|) == c {
      MemberDrop(s, i, h);
      MemberDrop(chains[b], k, h);
    }
  }

  /** HASH_DEL_IN_BKT. */
  method DropFrom<K, E>(buckets: array<Bucket<K, E>>, b: nat, del: Handle<K, E>, ghost k: nat, ghost chains: seq<seq<Handle<K, E>>>, ghost s: seq<Handle<K, E>>)
    requires AllHead(buckets[..], chains, s) && b < |chains| && Separate(chains) && k < |chains[b]| && del == chains[b][k]
    modifies buckets, s`hhNext, s`hhPrev
    ensures AllHead(buckets[..], chains[b := chains[b][..k] + chains[b][k + 1..]], s)
  {
    ghost var old_, fewer := buckets[..], chains[b := chains[b][..k] + chains[b][k + 1..]];
    assert Heads(old_[b], chains[b]) && Inside(chains[b], s);
    label Before:
    var newHead := Unchain(buckets[b].head, del, chains[b], k);
    buckets[b] := buckets[b].(head := newHead, count := buckets[b].count - 1);
    forall c | 0 <= c < |fewer| ensures Heads(buckets[..][c], fewer[c]) && Inside(fewer[c], s) {
      assert Inside(chains[c], s);
      if c != b {
        assert old@Before(Heads(old_[c], chains[c]));
        assert forall j :: 0 <= j < |chains[b]| ==> chains[b][j] in chains[b] && chains[b][j] !in chains[c];
        assert buckets[..][c] == old_[c];
      }
    }
  }

  lemma AllHeadFewer<K, E>(bs: seq<Bucket<K, E>>, chains: seq<seq<Handle<K, E>>>, hash: K -> nat, s: seq<Handle<K, E>>, t: seq<Handle<K, E>>)
    requires AllHead(bs, chains, s) && Placed(hash, t, chains)
    ensures AllHead(bs, chains, t)
  {
    forall b | 0 <= b < |bs| ensures Inside(chains[b], t) && Heads(bs[b], chains[b]) {
      assert Inside(chains[b], s);
      forall j | 0 <= j < |chains[b]| ensures chains[b][j] in t {
        assert chains[b][j] in chains[b];
      }
    }
  }

  lemma JoinsBucket<K, E>(hash: K -> nat, s: seq<Handle<K, E>>, chains: seq<seq<Handle<K, E>>>, bs: seq<Bucket<K, E>>, add: Handle<K, E>, b: nat)
    requires AllHead(bs, chains, s) && Placed(hash, s, chains) && add !in s && b == ToBucket(hash(add.data.key), |chains|)
    ensures AllHead(bs, chains, s + [add]) && Separate(chains) && forall c :: 0 <= c < |chains| ==> add !in chains[c]
    ensures Placed(hash, s + [add], chains[b := [add] + chains[b]])
  {
    PlacedIsSeparate(hash, s, chains);
    PlacedAdd(hash, s, chains, add, b);
    hide Placed, Chain;
    forall c | 0 <= c < |bs| ensures Inside(chains[c], s + [add]) && Heads(bs[c], chains[c]) {
      assert Inside(chains[c], s);
    }
  }
}
