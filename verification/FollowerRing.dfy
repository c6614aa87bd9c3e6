/** The ring of followers that the leader links up in tpcleader.c. */
module FollowerRing {
  import opened Common
  import opened CStrings
  import opened Messages
  import opened Ring

  /** tpcfollower_t. A new one is a ring of itself. */
  class Node {
    const peer: Peer
    var next: Node
    var prev: Node

    constructor (peer: Peer)
      ensures this.peer == peer && next == this && prev == this
    {
      this.peer := peer;
      next, prev := this, this;
    }
  }

  function After(i: nat, n: nat): nat
    requires i < n
  {
    if i + 1 == n then 0 else i + 1
  }

  function Before(i: nat, n: nat): nat
    requires i < n
  {
    if i == 0 then n - 1 else i - 1
  }

  /** The `next` links go round, but for the one at `skip`. */
  ghost predicate NextLinks(s: seq<Node>, skip: int)
    reads s`next
  {
    forall i {:trigger s[i].next} :: 0 <= i < |s| && i != skip ==> s[i].next == s[After(i, |s|)]
  }

  ghost predicate PrevLinks(s: seq<Node>, skip: int)
    reads s`prev
  {
    forall i {:trigger s[i].prev} :: 0 <= i < |s| && i != skip ==> s[i].prev == s[Before(i, |s|)]
  }

  /** `s` with `node` put in front of position `p`. */
  ghost function Inserted(s: seq<Node>, node: Node, p: nat): (t: seq<Node>)
    requires p <= |s|
    ensures |t| == |s| + 1
  {
    s[..p] + [node] + s[p..]
  }

  /** The node before the place points to the new one, and the new one to the node behind the place. */
  lemma InsertedNext(s: seq<Node>, node: Node, p: nat, last: nat)
    requires s != [] && p <= |s| && last == Before(if p == |s| then 0 else p, |s|)
    requires s[last].next == node && node.next == s[After(last, |s|)] && NextLinks(s, last)
    ensures NextLinks(Inserted(s, node, p), -1)
  {
    var t := Inserted(s, node, p);
    forall i | 0 <= i < |t| && i != p ensures t[i].next == t[After(i, |t|)] {
      var k := if i < p then i else i - 1;
      assert t[i] == s[k] && (k != last ==> s[After(k, |s|)] == t[After(i, |t|)]);
    }
  }

  lemma InsertedPrev(s: seq<Node>, node: Node, p: nat, curr: nat)
    requires s != [] && p <= |s| && curr == if p == |s| then 0 else p
    requires s[curr].prev == node && node.prev == s[Before(curr, |s|)] && PrevLinks(s, curr)
    ensures PrevLinks(Inserted(s, node, p), -1)
  {
    var t := Inserted(s, node, p);
    forall i | 0 <= i < |t| && i != p ensures t[i].prev == t[Before(i, |t|)] {
      var k := if i < p then i else i - 1;
      assert t[i] == s[k] && (k != curr ==> s[Before(k, |s|)] == t[Before(i, |t|)]);
    }
  }

  lemma InsertedDistinct(s: seq<Node>, node: Node, p: nat)
    requires p <= |s| && Distinct(s) && node !in s
    ensures Distinct(Inserted(s, node, p))
  {
  }

  lemma InsertedMembers(s: seq<Node>, node: Node, p: nat)
    requires p <= |s|
    ensures forall n :: n in Inserted(s, node, p) ==> n in s || n == node
    ensures Inserted(s, node, p) != []
  {
  }

  function PeersOf(s: seq<Node>): (ps: seq<Peer>)
    ensures |ps| == |s| && forall i :: 0 <= i < |s| ==> ps[i] == s[i].peer
  {
    seq(|s|, i requires 0 <= i < |s| => s[i].peer)
  }

  lemma PeersOfInserted(s: seq<Node>, node: Node, p: nat)
    requires p <= |s|
    ensures PeersOf(s[..p] + [node] + s[p..]) == PeersOf(s)[..p] + [node.peer] + PeersOf(s)[p..]
  {
  }

  class TpcLeader {
    const hash: string -> Hash64
    const capacity: nat
    const redundancy: nat
    var follower_count: nat
    var followers_head: Node?
    ghost var ring: seq<Node>

    ghost predicate Linked(s: seq<Node>)
      reads s
    {
      Distinct(s) && NextLinks(s, -1) && PrevLinks(s, -1)
    }

    ghost predicate Valid()
      reads this, ring
    {
      && Linked(ring) && Sorted(Peers())
      && follower_count == |ring| <= capacity
      && 0 < redundancy <= capacity
      && followers_head == if ring == [] then null else ring[0]
    }

    ghost function Peers(): seq<Peer>
      reads this
    {
      PeersOf(ring)
    }

    /** A follower is known by the hash of "port:host". */
    function IdOf(host: string, port: string): Hash64 {
      hash(port + ":" + host)
    }

    constructor (hash: string -> Hash64, capacity: nat, redundancy: nat)
      requires capacity > 0 && redundancy > 0
      ensures Valid() && Peers() == [] && this.hash == hash && this.capacity == capacity
      ensures this.redundancy == if redundancy > capacity then capacity else redundancy
    {
      this.hash := hash;
      this.capacity := capacity;
      this.redundancy := if redundancy > capacity then capacity else redundancy;
      follower_count, followers_head, ring := 0, null, [];
    }

    /** Link `node` into the ring in front of `ring[p]`, or behind the last node when `p` is the length. */
    method LinkBefore(node: Node, curr: Node, ghost p: nat)
      requires Linked(ring) && ring != [] && p <= |ring| && node !in ring
      requires curr == ring[if p == |ring| then 0 else p]
      modifies this`ring, ring, node
      ensures ring == Inserted(old(ring), node, p)
      ensures Linked(ring)
    {
      ghost var s, n := ring, |ring|;
      ghost var next := if p == n then 0 else p;
      ghost var last := Before(next, n);
      assert curr.prev == s[last];
      InsertedDistinct(s, node, p);
      hide Inserted, Distinct;
      node.next := curr;
      node.prev := curr.prev;
      curr.prev := node;
      node.prev.next := node;
      assert NextLinks(s, last) && PrevLinks(s, next);
      hide NextLinks, PrevLinks;
      InsertedNext(s, node, p, last);
      InsertedPrev(s, node, p, next);
      ring := Inserted(s, node, p);
    }

    /** The loop of tpcleader_register: the node with this id, or the node a new one goes in front of. */
    method FindPlace(id: Hash64) returns (found: bool, curr: Node, ghost p: nat)
      requires Valid() && ring != []
      ensures found <==> HasId(Peers(), id)
      ensures !found ==> p == Place(Peers(), id) && curr == ring[if p == |ring| then 0 else p]
    {
      ghost var ps := Peers();
      var first: Node := followers_head;
      curr, p := first, 0;
      while true
        invariant 0 <= p < |ring| && curr == ring[p]
        invariant forall j :: 0 <= j < p ==> ps[j].id < id
        decreases |ring| - p
      {
        if curr.peer.id > id {
          PlaceIs(ps, id, p);
          return false, curr, p;
        } else if curr.peer.id == id {
          assert ps[p] in ps;
          return true, curr, p;
        }
        curr := curr.next;
        if curr == first {
          break;
        }
        p := p + 1;
      }
      PlaceIs(ps, id, |ps|);
      return false, followers_head, |ps|;
    }

    /** Link a new follower in at its place and count it. */
    method Add(node: Node, curr: Node, ghost p: nat)
      requires Valid() && ring != [] && follower_count < capacity && node !in ring
      requires !HasId(Peers(), node.peer.id) && p == Place(Peers(), node.peer.id)
      requires curr == ring[if p == |ring| then 0 else p]
      modifies `ring, `followers_head, `follower_count, ring, node
      ensures Valid() && Peers() == Registered(old(Peers()), node.peer, capacity)
      ensures forall n :: n in ring ==> n in old(ring) || n == node
    {
      hide *;
      BeforeAdd(node, curr, p);
      ghost var s := ring;
      var isHead := curr == followers_head && curr.peer.id > node.peer.id;
      LinkBefore(node, curr, p);
      if isHead {
        followers_head := node;
      }
      follower_count := follower_count + 1;
      InsertedMembers(s, node, p);
      Closed();
    }

    /** What the ring will be, and when the new follower becomes its head. */
    lemma BeforeAdd(node: Node, curr: Node, p: nat)
      requires Valid() && ring != [] && follower_count < capacity && node !in ring
      requires !HasId(Peers(), node.peer.id) && p == Place(Peers(), node.peer.id)
      requires curr == ring[if p == |ring| then 0 else p]
      ensures Linked(ring) && follower_count == |ring| && p <= |ring| && 0 < redundancy <= capacity
      ensures curr == followers_head && curr.peer.id > node.peer.id <==> p == 0
      ensures p > 0 ==> followers_head == Inserted(ring, node, p)[0]
      ensures p == 0 ==> node == Inserted(ring, node, p)[0]
      ensures PeersOf(Inserted(ring, node, p)) == Registered(Peers(), node.peer, capacity)
      ensures Sorted(Registered(Peers(), node.peer, capacity)) && Peers() == PeersOf(ring)
    {
      RegisteredIs(Peers(), node.peer, capacity);
      PeersOfInserted(ring, node, p);
      hide Place, NextLinks, PrevLinks, Distinct;
    }

    lemma Closed()
      requires Linked(ring) && Sorted(PeersOf(ring)) && follower_count == |ring| <= capacity && 0 < redundancy <= capacity
      requires ring != [] && followers_head == ring[0]
      ensures Valid() && Peers() == PeersOf(ring)
    {
    }

    method Register(host: string, port: string) returns (res: Response)
      requires Valid()
      modifies `ring, `followers_head, `follower_count, ring
      ensures Valid() && forall n :: n in ring ==> n in old(ring) || fresh(n)
      ensures Peers() == Registered(old(Peers()), Peer(IdOf(host, port), host, Atoi(port)), capacity)
      ensures res == if old(|Peers()|) == capacity then Response(ERROR, Some(ERRMSG_FOLLOWER_CAPACITY))
                     else Response(SUCCESS, None)
    {
      if follower_count == capacity {
        return Response(ERROR, Some(ERRMSG_FOLLOWER_CAPACITY));
      }
      var newFollower := new Node(Peer(IdOf(host, port), host, Atoi(port)));
      res := Response(SUCCESS, None);
      if followers_head == null {
        followers_head := newFollower;
        follower_count := follower_count + 1;
        ring := [newFollower];
        return;
      }
      var found, curr, p := FindPlace(newFollower.peer.id);
      if !found {
        Add(newFollower, curr, p);
      }
    }

    /** NULL until the leader is at capacity. */
    method GetPrimary(key: string) returns (pri: Node?, ghost p: nat)
      requires Valid()
      ensures |Peers()| < capacity ==> pri == null
      ensures |Peers()| == capacity ==> p < |ring| && pri == ring[p] && p == Primary(Peers(), hash(key))
    {
      p := 0;
      if follower_count < capacity {
        return null, 0;
      }
      var h := hash(key);
      ghost var ps := Peers();
      var curr: Node := followers_head;
      while true
        invariant 0 <= p < |ring| && curr == ring[p]
        invariant forall j :: 0 <= j < p ==> ps[j].id <= h
        decreases |ring| - p
      {
        if curr.peer.id > h {
          PlaceIs(ps, h, p);
          return curr, p;
        }
        curr := curr.next;
        if curr == followers_head {
          break;
        }
        p := p + 1;
      }
      PlaceIs(ps, h, |ps|);
      return followers_head, 0;
    }

    method GetSuccessor(predecessor: Node) returns (node: Node)
      ensures node == predecessor.next
    {
      node := predecessor.next;
    }
  }

  /** A follower on port 16201 of the local host, as its leader knows it. */
  lemma AddressSpelledOut(leader: TpcLeader)
    ensures leader.IdOf("127.0.0.1", "16201") == leader.hash("16201:127.0.0.1") && Atoi("16201") == 16201
  {
    assert "16201" + ":" + "127.0.0.1" == "16201:127.0.0.1";
    hide Digits;
    DecimalNotation(0, 1);
    DecimalNotation(1, 6);
    DecimalNotation(16, 2);
    DecimalNotation(162, 0);
    DecimalNotation(1620, 1);
    assert Decimal(16201) == "16201";
    hide Decimal, Atoi;
    AtoiDecimal(16201);
  }
}
