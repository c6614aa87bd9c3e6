/** The cluster as its clients see it: one map, served by the leader. */
module ReplicatedMap {
  import opened Common
  import opened CStrings
  import opened KvMap
  import opened Messages
  import opened FollowerProtocol
  import opened Cluster
  import opened Ring
  import opened FollowerRing
  import opened LeaderProtocol

  /** The parts of a leader that decide where keys live. */
  datatype Config = Config(peers: seq<Peer>, hash: string -> Hash64, capacity: nat, redundancy: nat) {
    predicate Full() {
      |peers| == capacity && 0 < redundancy <= capacity
    }
  }

  ghost function ConfigOf(leader: TpcLeader): Config
    reads leader
  {
    Config(leader.Peers(), leader.hash, leader.capacity, leader.redundancy)
  }

  ghost predicate StoredAt(c: Config, k: string, a: Addr) {
    c.Full() && IsReplica(Replicas(c.peers, c.hash(k), c.redundancy), c.redundancy, a)
  }

  ghost function ShareOf(c: Config, m: Store, a: Addr, k: string): Option<string> {
    if StoredAt(c, k, a) then Lookup(m, k) else None
  }

  /**
   * The followers together hold `m`: each replica of a key holds the map's value for it, every
   * other follower holds nothing for it, and no transaction is under way. Nothing is stored
   * before the ring is full.
   */
  ghost predicate Represents(c: Config, v: map<Addr, Disk>, m: Store) {
    && (|c.peers| < c.capacity ==> m == map[])
    && (forall k :: k in m ==> |k| <= MAX_KEYLEN)
    && Quiet(v)
    && (forall a, k :: a in v ==> Lookup(v[a].store, k) == ShareOf(c, m, a, k))
  }

  // ----- one transaction on the map

  lemma WillingIffMapAllows(c: Config, v: map<Addr, Disk>, m: Store, op: Op)
    requires c.Full() && Represents(c, v, m)
    requires forall i :: 0 <= i < |c.peers| ==> AddrOf(c.peers[i]) in v
    ensures var rs := Replicas(c.peers, c.hash(op.key), c.redundancy);
            Willing(v, rs, |rs|, op) <==> Check(op, m) == 0
  {
    var rs := Replicas(c.peers, c.hash(op.key), c.redundancy);
    forall i | 0 <= i < |rs|
      ensures AddrOf(rs[i]) in v && Check(op, v[AddrOf(rs[i])].store) == Check(op, m)
    {
      assert rs[i] == Replica(c.peers, c.hash(op.key), i);
      assert IsReplica(rs, |rs|, AddrOf(rs[i]));
      assert Lookup(v[AddrOf(rs[i])].store, op.key) == ShareOf(c, m, AddrOf(rs[i]), op.key);
    }
    assert Check(op, v[AddrOf(rs[0])].store) == Check(op, m);
  }

  /** A decided transaction changes the map exactly as one store would. */
  lemma DecisionRefinesMap(c: Config, v: map<Addr, Disk>, m: Store, op: Op, commit: bool)
    requires c.Full() && Represents(c, v, m)
    requires commit ==> Check(op, m) == 0
    requires commit ==> Willing(v, Replicas(c.peers, c.hash(op.key), c.redundancy), c.redundancy, op)
    ensures Represents(c, Decided(v, Replicas(c.peers, c.hash(op.key), c.redundancy), op, commit),
                       if commit then Apply(op, m) else m)
  {
    var rs := Replicas(c.peers, c.hash(op.key), c.redundancy);
    var v' := Decided(v, rs, op, commit);
    var m' := if commit then Apply(op, m) else m;
    DecidedIsQuiet(v, rs, op, commit);
    forall a, k | a in v' ensures Lookup(v'[a].store, k) == ShareOf(c, m', a, k) {
      assert Lookup(v[a].store, k) == ShareOf(c, m, a, k);
      if commit && IsReplica(rs, |rs|, a) {
        WillingAt(v, rs, op, a);
      }
    }
  }

  lemma WillingAt(v: map<Addr, Disk>, rs: seq<Peer>, op: Op, a: Addr)
    requires Willing(v, rs, |rs|, op) && IsReplica(rs, |rs|, a)
    ensures a in v && Check(op, v[a].store) == 0
  {
  }

  // ----- the leader's handlers

  /** Followers registered with their port in decimal, as kvserver_register_leader sends it. */
  ghost predicate Named(leader: TpcLeader)
    reads leader
  {
    forall p :: p in leader.Peers() ==> p.id == leader.IdOf(p.host, Decimal(p.port))
  }

  /** What a leader needs of its environment: its followers are servers of their own, and sound. */
  ghost predicate Ready(leader: TpcLeader, net: Net, m: Store)
    reads leader, leader.ring
  {
    && leader.Valid() && Named(leader) && Placed(leader.Peers(), net.followers) && AllSound(net.followers)
    && Represents(ConfigOf(leader), Views(net.followers), m)
  }

  /** The plain map's answer to a read. */
  function ReadAnswer(m: Store, key: string): Response {
    match Lookup(m, key)
    case Some(v) => Response(GETRESP, Some(v))
    case None => Response(ERROR, Some(ERRMSG_NO_KEY))
  }

  lemma ReplicaAnswersForMap(leader: TpcLeader, net: Net, m: Store, key: string, pri: Node?, n: nat)
    requires Ready(leader, net, m) && Visiting(leader, key, pri, n) && n < leader.redundancy
    ensures pri != null && AddrOf(pri.peer) in net.followers
    ensures var h := Handling(Views(net.followers)[AddrOf(pri.peer)], Get(key));
            && h.disk == Views(net.followers)[AddrOf(pri.peer)]
            && (key in m ==> h.reply == ReadAnswer(m, key))
            && (key !in m ==> h.reply.typ == ERROR)
  {
    hide Quiet, Sound, Settled;
    var c, v := ConfigOf(leader), Views(net.followers);
    VisitedReplica(leader, key, pri, n, net.followers);
    var rs := ReplicasOf(leader, key);
    assert IsReplica(rs, |rs|, AddrOf(pri.peer));
    assert StoredAt(c, key, AddrOf(pri.peer));
    assert Lookup(v[AddrOf(pri.peer)].store, key) == ShareOf(c, m, AddrOf(pri.peer), key);
  }

  /** What becomes of a message: a response, the index page, or a read through NULL that ends the leader. */
  datatype Answer = Answered(res: Response) | IndexPage | NullDereference

  /** Contacts with `a` are repeated until one is not refused: what is left of the network, and what came back. */
  function FirstContact(net: Net, a: Addr, req: Request): (Net, Reply)
    requires a in net.followers
    decreases |net.script|
  {
    var (net', reply) := Exchange(net, a, req);
    if reply.NotConnected? && |net'.script| < |net.script| then FirstContact(net', a, req) else (net', reply)
  }

  /** Asking these followers in turn until one has the value comes upon a reply that is lost. */
  predicate LosesReply(net: Net, rs: seq<Peer>, req: Request)
    decreases |rs|
  {
    if rs == [] || AddrOf(rs[0]) !in net.followers then false
    else
      var (net', reply) := FirstContact(net, AddrOf(rs[0]), req);
      reply.NoReply? || (!(reply.Got? && reply.res.typ == GETRESP) && LosesReply(net', rs[1..], req))
  }

  lemma LosesStep(net: Net, rs: seq<Peer>, n: nat, req: Request)
    requires n < |rs| && AddrOf(rs[n]) in net.followers
    ensures var (net', reply) := FirstContact(net, AddrOf(rs[n]), req);
            LosesReply(net, rs[n..], req) <==>
              (reply.NoReply? || (!(reply.Got? && reply.res.typ == GETRESP) && LosesReply(net', rs[n + 1..], req)))
  {
    hide FirstContact;
    assert rs[n..][0] == rs[n] && rs[n..][1..] == rs[n + 1..];
  }

  lemma LosesNothing(net: Net, rs: seq<Peer>, req: Request)
    ensures !LosesReply(net, rs[|rs|..], req) && rs[0..] == rs
  {
  }

  /** A read that is handled, or not handled, by a follower leaves every view as it was. */
  lemma ReadContact(leader: TpcLeader, net: Net, m: Store, key: string, pri: Node?, n: nat)
    requires Ready(leader, net, m) && Visiting(leader, key, pri, n) && n < leader.redundancy
    ensures pri != null && AddrOf(pri.peer) in net.followers
    ensures var (net', reply) := Exchange(net, AddrOf(pri.peer), Get(key));
            && Ready(leader, net', m) && Views(net'.followers) == Views(net.followers)
            && net'.followers.Keys == net.followers.Keys
            && |net'.script| <= |net.script| && (!reply.Got? ==> |net'.script| < |net.script|)
            && (reply.Got? && key in m ==> reply.res == ReadAnswer(m, key))
            && (reply.Got? && key !in m ==> reply.res.typ == ERROR)
  {
    hide *;
    ReplicaAnswersForMap(leader, net, m, key, pri, n);
    ReadyParts(leader, net, m);
    var a := AddrOf(pri.peer);
    ExchangeViews(net, a, Get(key));
    var (net', reply) := Exchange(net, a, Get(key));
    SamePlaces(leader.Peers(), net.followers, net'.followers);
    assert a in Views(net.followers) by { ViewsKeys(net.followers); }
    assert Views(net.followers)[a := Views(net.followers)[a]] == Views(net.followers);
    ReadyFrom(leader, net', m);
  }

  lemma ViewsKeys(fs: map<Addr, Follower>)
    ensures Views(fs).Keys == fs.Keys
  {
  }

  lemma ReadyParts(leader: TpcLeader, net: Net, m: Store)
    requires Ready(leader, net, m)
    ensures leader.Valid() && Named(leader) && Placed(leader.Peers(), net.followers) && AllSound(net.followers)
    ensures Represents(ConfigOf(leader), Views(net.followers), m) && Quiet(Views(net.followers))
    ensures |leader.Peers()| <= leader.capacity
  {
  }

  lemma ReadyFrom(leader: TpcLeader, net: Net, m: Store)
    requires leader.Valid() && Named(leader) && Placed(leader.Peers(), net.followers) && AllSound(net.followers)
    requires Represents(ConfigOf(leader), Views(net.followers), m)
    ensures Ready(leader, net, m)
  {
  }

  /** From `net` to `net'` the leader has done nothing but read. */
  ghost predicate OnlyRead(leader: TpcLeader, net: Net, net': Net, m: Store)
    reads leader, leader.ring
  {
    && Ready(leader, net', m) && Views(net'.followers) == Views(net.followers)
    && net'.followers.Keys == net.followers.Keys && |net'.script| <= |net.script|
  }

  lemma OnlyReadParts(leader: TpcLeader, net: Net, net': Net, net'': Net, m: Store)
    requires Ready(leader, net, m)
    ensures OnlyRead(leader, net, net, m)
    ensures OnlyRead(leader, net, net', m) ==> Ready(leader, net', m)
    ensures OnlyRead(leader, net, net', m) && OnlyRead(leader, net', net'', m) ==> OnlyRead(leader, net, net'', m)
  {
  }

  /** The `continue` of tpcleader_handle_get: ask one replica until it can be reached. */
  method Ask(leader: TpcLeader, key: string, net: Net, pri: Node, n: nat, ghost m: Store)
    returns (reply: Reply, net': Net)
    requires Ready(leader, net, m) && Visiting(leader, key, pri, n) && n < leader.redundancy
    requires AddrOf(pri.peer) in net.followers
    ensures OnlyRead(leader, net, net', m)
    ensures (net', reply) == FirstContact(net, AddrOf(pri.peer), Get(key)) && !reply.NotConnected?
    ensures reply.Got? && key in m ==> reply.res == ReadAnswer(m, key)
    ensures reply.Got? && key !in m ==> reply.res.typ == ERROR
  {
    hide Exchange, Ready, Visiting, Views, AllSound, Placed, Sound, Represents, ConfigOf, Named;
    hide TpcLeader.Valid, Quiet, ReadAnswer;
    net' := net;
    while true
      invariant OnlyRead(leader, net, net', m)
      invariant AddrOf(pri.peer) in net'.followers
      invariant FirstContact(net, AddrOf(pri.peer), Get(key)) == FirstContact(net', AddrOf(pri.peer), Get(key))
      decreases |net'.script|
    {
      ReadContact(leader, net', m, key, pri, n);
      var (next, r) := Exchange(net', AddrOf(pri.peer), Get(key));
      net', reply := next, r;
      if !reply.NotConnected? {
        return;
      }
    }
  }

  /** One turn of the loop of tpcleader_handle_get. */
  method AskReplica(leader: TpcLeader, key: string, net: Net, pri: Node?, n: nat, ghost m: Store, ghost asked: seq<Peer>,
                    ghost first: Net, ghost up: set<Addr>)
    returns (reply: Reply, net': Net)
    requires Ready(leader, first, m) && OnlyRead(leader, first, net, m) && AreUp(net.followers, up)
    requires Visiting(leader, key, pri, n) && n < leader.redundancy
    requires |leader.Peers()| == leader.capacity && asked == Asked(m, key, ReplicasOf(leader, key)) && n < |asked|
    ensures OnlyRead(leader, first, net', m) && !reply.NotConnected? && pri != null
    ensures var f := FirstConnected(up, net.script, AddrOf(asked[n]));
            && AreUp(net'.followers, f.up) && net'.script == f.script && (reply.NoReply? <==> f.luck == Lost)
            && Reads(up, net.script, asked[n..]) == if f.luck == Lost then f else Reads(f.up, f.script, asked[n + 1..])
    ensures reply.Got? && key in m ==> reply.res == ReadAnswer(m, key)
    ensures reply.Got? && key !in m ==> reply.res.typ == ERROR
  {
    hide *;
    OnlyReadParts(leader, first, net, net, m);
    ReadContact(leader, net, m, key, pri, n);
    ReadyParts(leader, net, m);
    VisitedReplica(leader, key, pri, n, net.followers);
    AskedAt(m, key, ReplicasOf(leader, key), n);
    FirstContactLuck(net, up, AddrOf(pri.peer), Get(key));
    ReadsStep(up, net.script, asked, n);
    reply, net' := Ask(leader, key, net, pri, n, m);
    OnlyReadParts(leader, first, net, net', m);
  }

  lemma AskedAt(m: Store, key: string, rs: seq<Peer>, n: nat)
    requires n < |Asked(m, key, rs)|
    ensures n < |rs| && Asked(m, key, rs)[n] == rs[n]
  {
  }

  lemma BeforeReading(leader: TpcLeader, net: Net, m: Store, key: string)
    requires Ready(leader, net, m)
    ensures leader.Valid() && |leader.Peers()| <= leader.capacity && 0 < leader.redundancy && OnlyRead(leader, net, net, m)
    ensures key !in m ==> ReadAnswer(m, key) == Response(ERROR, Some(ERRMSG_NO_KEY))
    ensures key in m ==> ReadAnswer(m, key).typ == GETRESP
    ensures |leader.Peers()| < leader.capacity ==> key !in m
    ensures |leader.Peers()| == leader.capacity ==>
              |Asked(m, key, ReplicasOf(leader, key))| == if key in m then 1 else leader.redundancy
  {
    AnswerShape(m, key);
    ReadyParts(leader, net, m);
    NothingUntilFull(leader, net, m);
    OnlyReadParts(leader, net, net, net, m);
    hide Ready, ReadAnswer, OnlyRead, TpcLeader.Valid;
  }

  /**
   * tpcleader_handle_get answers as the map does, unless a reply is lost: then, and only then, it
   * reads the fields of a NULL response. When that is depends on who is up and on the script alone.
   */
  method HandleGet(leader: TpcLeader, key: string, net: Net, ghost m: Store, ghost up: set<Addr>) returns (out: Answer, net': Net)
    requires Ready(leader, net, m) && AreUp(net.followers, up)
    ensures OnlyRead(leader, net, net', m)
    ensures out.Answered? ==> out.res == ReadAnswer(m, key)
    ensures LosesNoReply(net.script) ==> out.Answered?
    ensures !out.IndexPage? && leader.Valid() && (|leader.Peers()| < leader.capacity ==> out.Answered? && net' == net)
    ensures |leader.Peers()| == leader.capacity ==>
              var asked := Asked(m, key, ReplicasOf(leader, key));
              && (out.NullDereference? <==> AnyLost(up, net.script, asked))
              && net'.script == Reads(up, net.script, asked).script && AreUp(net'.followers, Reads(up, net.script, asked).up)
  {
    hide *;
    BeforeReading(leader, net, m, key);
    net' := net;
    var pri, p := leader.GetPrimary(key);
    var visited := 0;
    ghost var now, asked := up, if pri != null then Asked(m, key, ReplicasOf(leader, key)) else [];
    ReadsEnd(up, net.script, asked);
    LostMeans(up, net.script, asked);
    if pri != null {
      PrimaryVisits(leader, key, p);
    }
    while pri != null && visited < leader.redundancy
      invariant pri != null ==> Visiting(leader, key, pri, visited) && |asked| == if key in m then 1 else leader.redundancy
      invariant pri == null <==> |leader.Peers()| < leader.capacity
      invariant pri == null ==> net' == net && visited == 0
      invariant 0 <= visited <= leader.redundancy && (visited > 0 ==> key !in m)
      invariant OnlyRead(leader, net, net', m) && AreUp(net'.followers, now)
      invariant visited <= |asked| && Reads(up, net.script, asked) == Reads(now, net'.script, asked[visited..])
      decreases leader.redundancy - visited
    {
      var reply;
      ghost var f := FirstConnected(now, net'.script, AddrOf(asked[visited]));
      reply, net' := AskReplica(leader, key, net', pri, visited, m, asked, net, now);
      now := f.up;
      if reply.NoReply? {
        return NullDereference, net';
      }
      visited := visited + 1;
      if reply.res.typ == GETRESP {
        ReadsEnd(now, net'.script, asked);
        return Answered(Response(GETRESP, reply.res.body)), net';
      }
      SuccessorVisits(leader, key, pri, visited - 1);
      pri := leader.GetSuccessor(pri);
    }
    ReadsEnd(now, net'.script, asked);
    out := Answered(Response(ERROR, Some(ERRMSG_NO_KEY)));
  }

  lemma LostMeans(up: set<Addr>, script: seq<Step>, rs: seq<Peer>)
    ensures AnyLost(up, script, rs) <==> Reads(up, script, rs).luck == Lost
    ensures LosesNoReply(script) ==> !AnyLost(up, script, rs)
  {
    hide Reads;
    NothingIsLost(up, script, rs);
  }

  /** The first contact that is not refused reads the replica, or loses the reply. */
  lemma {:induction false} FirstContactReads(leader: TpcLeader, net: Net, m: Store, key: string, pri: Node?, n: nat)
    requires Ready(leader, net, m) && Visiting(leader, key, pri, n) && n < leader.redundancy
    ensures pri != null && AddrOf(pri.peer) in net.followers
    ensures var (net', reply) := FirstContact(net, AddrOf(pri.peer), Get(key));
            && Ready(leader, net', m) && net'.followers.Keys == net.followers.Keys
            && (reply.NoReply? || reply.Got?) && (reply.Got? ==> (reply.res.typ == GETRESP <==> key in m))
    decreases |net.script|
  {
    hide Ready, Visiting, Exchange, Views;
    ReadContact(leader, net, m, key, pri, n);
    AnswerShape(m, key);
    var (net', reply) := Exchange(net, AddrOf(pri.peer), Get(key));
    if reply.NotConnected? {
      FirstContactReads(leader, net', m, key, pri, n);
    }
  }

  /** For a key the map holds the primary alone decides: a follower that has the value is never passed over. */
  lemma PrimaryDecides(leader: TpcLeader, net: Net, m: Store, key: string, pri: Node?)
    requires Ready(leader, net, m) && Visiting(leader, key, pri, 0) && 0 < leader.redundancy && key in m
    ensures pri != null && AddrOf(pri.peer) in net.followers
    ensures LosesReply(net, ReplicasOf(leader, key), Get(key)) <==> FirstContact(net, AddrOf(pri.peer), Get(key)).1.NoReply?
  {
    hide Ready, Visiting, FirstContact, Placed;
    ReadyParts(leader, net, m);
    VisitedReplica(leader, key, pri, 0, net.followers);
    FirstContactReads(leader, net, m, key, pri, 0);
    LosesStep(net, ReplicasOf(leader, key), 0, Get(key));
    LosesNothing(net, ReplicasOf(leader, key), Get(key));
  }

  // ----- when a reply is lost, told from who is up and from the script alone

  /** Contacts with `a` are repeated until one is not refused. */
  function FirstConnected(up: set<Addr>, script: seq<Step>, a: Addr): Fortune
    decreases |script|
  {
    var f := LuckOf(up, script, a);
    if f.luck == Refused then FirstConnected(f.up, f.script, a) else f
  }

  /** First contacts that connect, one with each of these followers in turn until one is lost. */
  function Reads(up: set<Addr>, script: seq<Step>, rs: seq<Peer>): Fortune
    decreases |rs|
  {
    if rs == [] then Fortune(up, script, Served)
    else
      var f := FirstConnected(up, script, AddrOf(rs[0]));
      if f.luck == Lost then f else Reads(f.up, f.script, rs[1..])
  }

  predicate AnyLost(up: set<Addr>, script: seq<Step>, rs: seq<Peer>) {
    Reads(up, script, rs).luck == Lost
  }

  /** The followers that are asked for a key: the primary where the key is stored, else every replica. */
  function Asked(m: Store, key: string, rs: seq<Peer>): seq<Peer> {
    if key in m && rs != [] then rs[..1] else rs
  }

  lemma {:induction false} FirstContactLuck(net: Net, up: set<Addr>, a: Addr, req: Request)
    requires a in net.followers && AreUp(net.followers, up)
    ensures var (net', reply) := FirstContact(net, a, req);
            var f := FirstConnected(up, net.script, a);
            AreUp(net'.followers, f.up) && net'.script == f.script && (reply.NoReply? <==> f.luck == Lost)
    decreases |net.script|
  {
    hide Exchange, AreUp, UpAfter;
    LuckDecides(net, up, a, req);
    var (net', reply) := Exchange(net, a, req);
    if reply.NotConnected? {
      FirstContactLuck(net', LuckOf(up, net.script, a).up, a, req);
    }
  }

  lemma NodeOf(leader: TpcLeader, key: string, n: nat) returns (pri: Node)
    requires leader.Valid() && |leader.Peers()| == leader.capacity && n < leader.redundancy
    ensures Visiting(leader, key, pri, n)
  {
    pri := leader.ring[Around(Primary(leader.Peers(), leader.hash(key)), n, leader.capacity)];
  }

  lemma {:induction false} EveryReplicaIsAsked(leader: TpcLeader, net: Net, m: Store, key: string, n: nat, up: set<Addr>)
    requires Ready(leader, net, m) && |leader.Peers()| == leader.capacity && n <= leader.redundancy && key !in m
    requires AreUp(net.followers, up)
    ensures var rs := ReplicasOf(leader, key);
            LosesReply(net, rs[n..], Get(key)) <==> AnyLost(up, net.script, rs[n..])
    decreases leader.redundancy - n
  {
    hide *;
    ReadyParts(leader, net, m);
    var rs := ReplicasOf(leader, key);
    if n == leader.redundancy {
      LosesNothing(net, rs, Get(key));
      NoneLost(up, net.script, rs[n..]);
    } else {
      var pri := NodeOf(leader, key, n);
      VisitedReplica(leader, key, pri, n, net.followers);
      FirstContactReads(leader, net, m, key, pri, n);
      FirstContactLuck(net, up, AddrOf(rs[n]), Get(key));
      LosesStep(net, rs, n, Get(key));
      var f := FirstConnected(up, net.script, AddrOf(rs[n]));
      EveryReplicaIsAsked(leader, FirstContact(net, AddrOf(rs[n]), Get(key)).0, m, key, n + 1, f.up);
      AnyLostStep(up, net.script, rs, n);
    }
  }

  lemma NoneLost(up: set<Addr>, script: seq<Step>, rs: seq<Peer>)
    requires rs == []
    ensures !AnyLost(up, script, rs)
  {
  }

  lemma ReadsStep(up: set<Addr>, script: seq<Step>, rs: seq<Peer>, n: nat)
    requires n < |rs|
    ensures var f := FirstConnected(up, script, AddrOf(rs[n]));
            Reads(up, script, rs[n..]) == if f.luck == Lost then f else Reads(f.up, f.script, rs[n + 1..])
  {
    hide FirstConnected;
    assert rs[n..][0] == rs[n] && rs[n..][1..] == rs[n + 1..];
  }

  lemma ReadsEnd(up: set<Addr>, script: seq<Step>, rs: seq<Peer>)
    ensures Reads(up, script, rs[|rs|..]) == Fortune(up, script, Served) && Reads(up, script, rs[0..]) == Reads(up, script, rs)
  {
    assert rs[0..] == rs;
  }

  lemma AnyLostStep(up: set<Addr>, script: seq<Step>, rs: seq<Peer>, n: nat)
    requires n < |rs|
    ensures var f := FirstConnected(up, script, AddrOf(rs[n]));
            && (AnyLost(up, script, rs[n..]) <==> f.luck == Lost || AnyLost(f.up, f.script, rs[n + 1..]))
            && (AnyLost(up, script, rs[n..][..1]) <==> f.luck == Lost)
  {
    hide FirstConnected;
    ReadsStep(up, script, rs, n);
    ReadsStep(up, script, rs[n..][..1], 0);
    var f := FirstConnected(up, script, AddrOf(rs[n]));
    ReadsEnd(f.up, f.script, rs[n..][..1]);
    ConnectsAtLast(up, script, AddrOf(rs[n]));
  }

  lemma {:induction false} ConnectsAtLast(up: set<Addr>, script: seq<Step>, a: Addr)
    ensures FirstConnected(up, script, a).luck != Refused
    decreases |script|
  {
    var f := LuckOf(up, script, a);
    if f.luck == Refused {
      ConnectsAtLast(f.up, f.script, a);
    }
  }

  lemma {:induction false} ConnectsOrAnswers(up: set<Addr>, script: seq<Step>, a: Addr)
    requires LosesNoReply(script)
    ensures var f := FirstConnected(up, script, a); f.luck == Served && LosesNoReply(f.script)
    decreases |script|
  {
    LuckLosesNothing(up, script, a);
    hide LosesNoReply;
    var f := LuckOf(up, script, a);
    if f.luck == Refused {
      ConnectsOrAnswers(f.up, f.script, a);
    }
  }

  /** A network that refuses connections but keeps no reply back loses no read. */
  lemma {:induction false} NothingIsLost(up: set<Addr>, script: seq<Step>, rs: seq<Peer>)
    ensures LosesNoReply(script) ==> !AnyLost(up, script, rs) && LosesNoReply(Reads(up, script, rs).script)
    decreases |rs|
  {
    hide FirstConnected, LosesNoReply;
    if rs != [] && LosesNoReply(script) {
      ConnectsOrAnswers(up, script, AddrOf(rs[0]));
      var f := FirstConnected(up, script, AddrOf(rs[0]));
      NothingIsLost(f.up, f.script, rs[1..]);
    }
  }

  /** A caller can tell from the script and from who is up whether a read will lose a reply. */
  lemma LossIsScripted(leader: TpcLeader, net: Net, m: Store, key: string, up: set<Addr>)
    requires Ready(leader, net, m) && |leader.Peers()| == leader.capacity && AreUp(net.followers, up)
    ensures leader.Valid()
    ensures var rs := ReplicasOf(leader, key);
            LosesReply(net, rs, Get(key)) <==> AnyLost(up, net.script, Asked(m, key, rs))
  {
    hide Ready, FirstContact, FirstConnected, LosesReply, AnyLost, ReplicasOf, Visiting, AreUp, LuckOf;
    hide TpcLeader.Valid, Placed, AllSound, Named, ConfigOf, Represents, Quiet;
    ReadyParts(leader, net, m);
    NothingUntilFull(leader, net, m);
    var rs := ReplicasOf(leader, key);
    assert rs[0..] == rs;
    if key in m {
      var pri := NodeOf(leader, key, 0);
      VisitedReplica(leader, key, pri, 0, net.followers);
      PrimaryDecides(leader, net, m, key, pri);
      FirstContactLuck(net, up, AddrOf(rs[0]), Get(key));
      AnyLostStep(up, net.script, rs, 0);
    } else {
      EveryReplicaIsAsked(leader, net, m, key, 0, up);
    }
  }

  lemma AnswerShape(m: Store, key: string)
    ensures key in m ==> ReadAnswer(m, key) == Response(GETRESP, Some(m[key]))
    ensures key !in m ==> ReadAnswer(m, key) == Response(ERROR, Some(ERRMSG_NO_KEY))
  {
  }

  lemma NothingUntilFull(leader: TpcLeader, net: Net, m: Store)
    requires Ready(leader, net, m)
    ensures |leader.Peers()| < leader.capacity ==> m == map[]
    ensures 0 < leader.redundancy
  {
  }

  /** One follower with an empty disk, and a script that loses one reply. */
  function LossyNet(a: Addr): Net {
    Net(map[a := Follower(Disk([], map[]), true, TPC_WAIT)], [Step([], ReplyLost)])
  }

  /** It does happen: the one follower of a leader is up and handles the read, and its reply is lost. */
  lemma LossHappens(leader: TpcLeader, p: Peer, key: string)
    requires leader.Valid() && leader.Peers() == [p] && leader.capacity == 1
    requires p.id == leader.IdOf(p.host, Decimal(p.port))
    ensures Ready(leader, LossyNet(AddrOf(p)), map[])
    ensures var net := LossyNet(AddrOf(p));
            AnyLost(UpOf(net.followers), net.script, Asked(map[], key, ReplicasOf(leader, key)))
  {
    var net := LossyNet(AddrOf(p));
    assert AnyLost(UpOf(net.followers), net.script, ReplicasOf(leader, key)) by {
      assert FirstConnected(UpOf(net.followers), net.script, AddrOf(p)).luck == Lost;
    }
  }
}
