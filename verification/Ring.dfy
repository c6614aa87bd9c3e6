/** Consistent hashing as a computation on the followers' ids in increasing order. */
module Ring {
  import opened Common

  datatype Peer = Peer(id: Hash64, host: string, port: int)

  ghost predicate Sorted(ps: seq<Peer>) {
    forall i, j :: 0 <= i < j < |ps| ==> ps[i].id < ps[j].id
  }

  ghost predicate HasId(ps: seq<Peer>, id: Hash64) {
    exists x :: x in ps && x.id == id
  }

  /** The place of a new id: the first peer with a greater one, or the end. */
  function Place(ps: seq<Peer>, id: Hash64): (p: nat)
    ensures p <= |ps|
    ensures forall i :: 0 <= i < p ==> ps[i].id <= id
    ensures p < |ps| ==> ps[p].id > id
  {
    if ps == [] || ps[0].id > id then 0 else 1 + Place(ps[1..], id)
  }

  function Insert(ps: seq<Peer>, p: Peer): seq<Peer> {
    ps[..Place(ps, p.id)] + [p] + ps[Place(ps, p.id)..]
  }

  /** What registration does to the ring of a leader with room for `capacity` followers. */
  ghost function Registered(ps: seq<Peer>, p: Peer, capacity: nat): seq<Peer> {
    if |ps| == capacity || HasId(ps, p.id) then ps else Insert(ps, p)
  }

  lemma PlaceIs(ps: seq<Peer>, id: Hash64, n: nat)
    requires Sorted(ps) && n <= |ps|
    requires forall i :: 0 <= i < n ==> ps[i].id <= id
    requires n < |ps| ==> ps[n].id > id
    ensures Place(ps, id) == n
  {
  }

  lemma RegisteredIs(ps: seq<Peer>, p: Peer, capacity: nat)
    requires Sorted(ps) && |ps| < capacity
    ensures var r := Registered(ps, p, capacity);
            && Sorted(r) && |ps| <= |r| <= |ps| + 1
            && (forall x :: x in r <==> x in ps || (x == p && !HasId(ps, p.id)))
  {
    var r, n := Registered(ps, p, capacity), Place(ps, p.id);
    if !HasId(ps, p.id) {
      assert forall x :: x in ps <==> x in ps[..n] || x in ps[n..];
    }
  }

  lemma NoMember(s: seq<Peer>)
    ensures s == [] <==> forall x :: x !in s
  {
    if s != [] {
      assert s[0] in s;
    }
  }

  lemma {:induction false} SortedUnique(s: seq<Peer>, t: seq<Peer>)
    requires Sorted(s) && Sorted(t) && forall x :: x in s <==> x in t
    ensures s == t
  {
    NoMember(s);
    NoMember(t);
    if s != [] && t != [] {
      assert s[0] in t && t[0] in s;
      assert s[0] == t[0];
      forall x ensures x in s[1..] <==> x in t[1..] {
        assert x in s[1..] ==> x in s && x != s[0];
        assert x in t[1..] ==> x in t && x != t[0];
      }
      SortedUnique(s[1..], t[1..]);
    }
  }

  // ----- many registrations

  /** The ring after registrations one after the other. */
  ghost function RegisteredAll(ps: seq<Peer>, regs: seq<Peer>, capacity: nat): seq<Peer> {
    if regs == [] then ps else Registered(RegisteredAll(ps, regs[..|regs| - 1], capacity), regs[|regs| - 1], capacity)
  }

  ghost function Ids(ps: seq<Peer>): set<Hash64> {
    set p | p in ps :: p.id
  }

  /** No two peers share an id. */
  ghost predicate Consistent(regs: seq<Peer>) {
    forall p, q :: p in regs && q in regs && p.id == q.id ==> p == q
  }

  lemma HasIdIs(ps: seq<Peer>, id: Hash64)
    ensures HasId(ps, id) <==> id in Ids(ps)
  {
  }

  /** A sorted ring has as many ids as members. */
  lemma {:induction false} IdsCount(ps: seq<Peer>)
    requires Sorted(ps)
    ensures |Ids(ps)| == |ps|
    decreases |ps|
  {
    if ps != [] {
      var front, last := ps[..|ps| - 1], ps[|ps| - 1];
      IdsCount(front);
      assert last.id !in Ids(front);
      forall id ensures id in Ids(ps) <==> id in Ids(front) + {last.id} {
        assert forall p :: p in ps <==> p in front || p == last;
      }
      assert Ids(ps) == Ids(front) + {last.id};
    }
  }

  lemma Subsets(a: set<Hash64>, b: set<Hash64>, x: Hash64)
    requires a <= b && x in b && x !in a
    ensures |a| < |b|
  {
    SubsetSize(a + {x}, b);
  }

  lemma {:induction false} SubsetSize(a: set<Hash64>, b: set<Hash64>)
    requires a <= b
    ensures |a| <= |b|
  {
    if a != {} {
      var x :| x in a;
      SubsetSize(a - {x}, b - {x});
    }
  }

  /** With room for all of them, those are on the ring who were or who registered with an id that was not taken. */
  lemma {:induction false} RegisteredAllIs(ps: seq<Peer>, regs: seq<Peer>, capacity: nat)
    requires Sorted(ps) && Consistent(regs) && |Ids(ps) + Ids(regs)| <= capacity
    ensures var r := RegisteredAll(ps, regs, capacity);
            Sorted(r) && forall x :: x in r <==> x in ps || (x in regs && !HasId(ps, x.id))
    decreases |regs|
  {
    if regs != [] {
      var before, p := regs[..|regs| - 1], regs[|regs| - 1];
      assert Ids(ps) + Ids(before) <= Ids(ps) + Ids(regs);
      SubsetSize(Ids(ps) + Ids(before), Ids(ps) + Ids(regs));
      RegisteredAllIs(ps, before, capacity);
      var now := RegisteredAll(ps, before, capacity);
      hide Registered, Sorted;
      if !HasId(now, p.id) {
        IdsCount(now);
        assert Ids(now) <= Ids(ps) + Ids(regs) && p.id !in Ids(now);
        Subsets(Ids(now), Ids(ps) + Ids(regs), p.id);
        RegisteredIs(now, p, capacity);
      } else {
        AlreadyThere(now, p, capacity);
      }
      assert forall x :: x in regs <==> x in before || x == p;
    }
  }

  lemma AlreadyThere(ps: seq<Peer>, p: Peer, capacity: nat)
    requires HasId(ps, p.id)
    ensures Registered(ps, p, capacity) == ps
  {
  }

  /**
   * The ring depends on who registered: not on the order they came in, nor on how often, as when a
   * follower registers again after a restart.
   */
  lemma RegistrationOrderIsIrrelevant(ps: seq<Peer>, regs: seq<Peer>, others: seq<Peer>, capacity: nat)
    requires Sorted(ps) && Consistent(regs) && |Ids(ps) + Ids(regs)| <= capacity
    requires forall x :: x in regs <==> x in others
    ensures RegisteredAll(ps, regs, capacity) == RegisteredAll(ps, others, capacity)
  {
    assert Ids(regs) == Ids(others);
    RegisteredAllIs(ps, regs, capacity);
    RegisteredAllIs(ps, others, capacity);
    hide RegisteredAll, Sorted;
    SortedUnique(RegisteredAll(ps, regs, capacity), RegisteredAll(ps, others, capacity));
  }

  // ----- where a key is stored

  /** Where the walk clockwise from the hash first meets a follower. */
  function Primary(ps: seq<Peer>, hash: Hash64): (p: nat)
    requires ps != []
    ensures p < |ps|
  {
    if Place(ps, hash) < |ps| then Place(ps, hash) else 0
  }

  /** `j` places on from `p` around a ring of `n`. */
  function Around(p: nat, j: nat, n: nat): (i: nat)
    requires p < n && j <= n
    ensures i < n
  {
    if p + j < n then p + j else p + j - n
  }

  function Replica(ps: seq<Peer>, hash: Hash64, j: nat): Peer
    requires ps != [] && j <= |ps|
  {
    ps[Around(Primary(ps, hash), j, |ps|)]
  }

  /** The followers that store a key: the primary and its successors, `redundancy` in all. */
  function Replicas(ps: seq<Peer>, hash: Hash64, redundancy: nat): (r: seq<Peer>)
    requires ps != [] && redundancy <= |ps|
    ensures |r| == redundancy
    ensures forall j :: 0 <= j < redundancy ==> r[j] == Replica(ps, hash, j)
  {
    seq(redundancy, j requires 0 <= j < redundancy => Replica(ps, hash, j))
  }

  /** How far clockwise an id lies after a hash on the circle of 2^64 points. */
  function Clockwise(hash: Hash64, id: Hash64): nat {
    if id > hash then id - hash - 1 else id + 0x1_0000_0000_0000_0000 - hash - 1
  }

  /** Going around from the primary is going clockwise from the hash. */
  lemma ReplicasAreOrdered(ps: seq<Peer>, hash: Hash64)
    requires Sorted(ps) && ps != []
    ensures forall i, j :: 0 <= i < j < |ps| ==> Clockwise(hash, Replica(ps, hash, i).id) < Clockwise(hash, Replica(ps, hash, j).id)
  {
    hide Place;
  }

  /**
   * The replicas are exactly the `redundancy` followers nearest to the key's hash going
   * clockwise, nearest first, and no follower is chosen twice.
   */
  lemma ReplicasAreNearest(ps: seq<Peer>, hash: Hash64, redundancy: nat)
    requires Sorted(ps) && ps != [] && redundancy <= |ps|
    ensures var r := Replicas(ps, hash, redundancy);
            && (forall i, j :: 0 <= i < j < |r| ==> Clockwise(hash, r[i].id) < Clockwise(hash, r[j].id))
            && (forall i, j :: 0 <= i < j < |r| ==> r[i] != r[j])
            && (forall x, j :: x in ps && x !in r && 0 <= j < |r| ==>
                  Clockwise(hash, r[j].id) < Clockwise(hash, x.id))
  {
    var r, n, p := Replicas(ps, hash, redundancy), |ps|, Primary(ps, hash);
    ReplicasAreOrdered(ps, hash);
    hide Sorted, Primary, Clockwise;
    forall x, j | x in ps && x !in r && 0 <= j < |r|
      ensures Clockwise(hash, r[j].id) < Clockwise(hash, x.id)
    {
      var i :| 0 <= i < n && ps[i] == x;
      var back := if i >= p then i - p else i + n - p;
      assert Replica(ps, hash, back) == x;
      assert back >= redundancy;
    }
  }
}
