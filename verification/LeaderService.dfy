/** Whole runs of the leader: requests served one at a time, checked against one plain map. */
module LeaderService {
  import opened Common
  import opened CStrings
  import opened KvMap
  import opened Messages
  import opened KvMessage
  import KvServer
  import FollowerProtocol
  import opened Cluster
  import opened Ring
  import opened FollowerRing
  import opened LeaderProtocol
  import opened ReplicatedMap

  const UNKNOWN_TYPE := "unknown message type"
  const ABORTED := "abort the command"

  function OpOf(req: Request): Option<Op> {
    match req
    case Put(k, v) => Some(PutOp(k, v))
    case Del(k) => Some(DelOp(k))
    case _ => None
  }

  // ----- what the leader answers, exactly

  /**
   * What decides the answers: the ring, the map the followers hold together, who is up, and what is
   * left of the script. Neither disks nor handlers.
   */
  datatype Stage = Stage(c: Config, up: set<Addr>, script: seq<Step>, m: Store) {
    predicate RingFull() {
      |c.peers| == c.capacity
    }
  }

  function ReplicasIn(c: Config, key: string): seq<Peer> {
    if c.Full() then Replicas(c.peers, c.hash(key), c.redundancy) else []
  }

  /** The contacts of a read. */
  function ReadOf(s: Stage, key: string): Fortune {
    Reads(s.up, s.script, Asked(s.m, key, ReplicasIn(s.c, key)))
  }

  predicate ReadLost(s: Stage, key: string) {
    AnyLost(s.up, s.script, Asked(s.m, key, ReplicasIn(s.c, key)))
  }

  /** A write takes place iff the map allows it and the poll is answered throughout. */
  predicate Commits(s: Stage, op: Op) {
    Check(op, s.m) == 0 && PollServed(s.up, s.script, ReplicasIn(s.c, op.key))
  }

  function AnswerTo(s: Stage, req: Request): Answer {
    match req
    case Index => IndexPage
    case Get(key) => if ReadLost(s, key) then NullDereference else Answered(ReadAnswer(s.m, key))
    case Register(_, _) =>
      Answered(if s.RingFull() then Response(ERROR, Some(ERRMSG_FOLLOWER_CAPACITY)) else Response(SUCCESS, None))
    case _ =>
      if !s.RingFull() then Answered(Response(ERROR, Some(ERRMSG_NOT_AT_CAPACITY)))
      else match OpOf(req)
        case None => Answered(Response(ERROR, Some(UNKNOWN_TYPE)))
        case Some(op) => Answered(if Commits(s, op) then Response(SUCCESS, None) else Response(ERROR, Some(ABORTED)))
  }

  ghost function Next(s: Stage, req: Request): Stage {
    match req
    case Index => s
    case Get(key) => s.(up := ReadOf(s, key).up, script := ReadOf(s, key).script)
    case Register(host, port) => s.(c := Joined(s.c, host, port))
    case _ =>
      if !s.RingFull() || OpOf(req).None? then s
      else
        var op := OpOf(req).value;
        var course := Course(s.up, s.script, ReplicasIn(s.c, op.key));
        Stage(s.c, course.up, course.script, if Commits(s, op) then Apply(op, s.m) else s.m)
  }

  ghost function Joined(c: Config, host: string, port: string): Config {
    c.(peers := Registered(c.peers, Peer(c.hash(port + ":" + host), host, Atoi(port)), c.capacity))
  }

  /** For any bytes: those that are no request are the leader's end. */
  function AnswerFor(s: Stage, data: string): Answer {
    match ClientRequest(data)
    case None => NullDereference
    case Some(req) => AnswerTo(s, req)
  }

  ghost function After(s: Stage, data: string): Stage {
    match ClientRequest(data)
    case None => s
    case Some(req) => Next(s, req)
  }

  /** The leader and its network are at this stage. */
  ghost predicate Stands(leader: TpcLeader, net: Net, s: Stage)
    reads leader, leader.ring
  {
    Ready(leader, net, s.m) && s.c == ConfigOf(leader) && s.script == net.script && AreUp(net.followers, s.up)
  }

  lemma StandsParts(leader: TpcLeader, net: Net, s: Stage)
    requires Stands(leader, net, s)
    ensures Ready(leader, net, s.m) && s.script == net.script && AreUp(net.followers, s.up) && leader.Valid()
    ensures |s.c.peers| == |leader.Peers()| <= s.c.capacity == leader.capacity
    ensures s.RingFull() <==> |leader.Peers()| == leader.capacity
    ensures s.RingFull() ==> forall key :: ReplicasIn(s.c, key) == ReplicasOf(leader, key)
    ensures !s.RingFull() ==> forall key :: ReplicasIn(s.c, key) == []
  {
  }

  lemma StandsFrom(leader: TpcLeader, net: Net, s: Stage)
    requires Ready(leader, net, s.m) && s.c == ConfigOf(leader) && s.script == net.script && AreUp(net.followers, s.up)
    ensures Stands(leader, net, s)
  {
  }

  lemma SameConfig(leader: TpcLeader, net: Net, s: Stage)
    requires Stands(leader, net, s)
    ensures s.c == ConfigOf(leader)
  {
  }

  // ----- one request

  /** A server that exists, named by host and decimal port. */
  ghost predicate NamesServer(host: string, port: string, servers: set<Addr>) {
    port == Decimal(Atoi(port)) && Addr(host, Atoi(port)) in servers
  }

  /**
   * Registrations name servers, and what is sent on to a follower, once the ring is full, fits the URL
   * buffer. Other bytes may be anything.
   */
  ghost predicate Known(data: string, full: bool, servers: set<Addr>) {
    match ReceivedRequest(data)
    case None => true
    case Some(req) =>
      match RequestOf(req)
      case Register(host, port) => NamesServer(host, port, servers)
      case Get(_) => full ==> RequestFits(req)
      case Put(_, _) => full ==> RequestFits(req)
      case Del(_) => full ==> RequestFits(req)
      case _ => true
  }

  /** What the leader sends on is what it received, and it is clean enough for a follower to store. */
  lemma ForwardedUnchanged(data: string, servers: set<Addr>)
    requires Known(data, true, servers) && ClientRequest(data).Some?
    requires var r := ClientRequest(data).value; r.Get? || r.Put? || r.Del?
    ensures var req := ReceivedRequest(data).value;
            RequestWire(req).Some? && ClientRequest(RequestWire(req).value) == ClientRequest(data)
    ensures KvServer.CleanRequest(ClientRequest(data).value)
  {
    hide ReceivedRequest, RequestFits, RequestWire;
    ForwardedArrives(data);
    ReceivedIsComplete(data);
  }

  method HandleTpc(leader: TpcLeader, req: Request, net: Net, ghost s: Stage) returns (res: Response, net': Net)
    requires Stands(leader, net, s) && !req.Get? && !req.Register? && !req.Index?
    ensures Stands(leader, net', Next(s, req)) && Answered(res) == AnswerTo(s, req)
    ensures net'.followers.Keys == net.followers.Keys
  {
    hide *;
    StandsParts(leader, net, s);
    ReadyParts(leader, net, s.m);
    CountIsLength(leader);
    Unfold(s, req);
    net' := net;
    if leader.follower_count != leader.capacity {
      return Response(ERROR, Some(ERRMSG_NOT_AT_CAPACITY)), net;
    }
    if req.Put? || req.Del? {
      var op := OperationOf(req);
      TransactionOnMap(leader, net, s.m, op);
      ghost var passes;
      res, net', passes := Transact(leader, op, net, s.up);
      SamePlaces(leader.Peers(), net.followers, net'.followers);
      ReadyFrom(leader, net', Next(s, req).m);
      SameConfig(leader, net, s);
      StandsFrom(leader, net', Next(s, req));
    } else {
      res := Response(ERROR, Some(UNKNOWN_TYPE));
    }
  }

  function OperationOf(req: Request): (op: Op)
    requires req.Put? || req.Del?
    ensures OpOf(req) == Some(op)
  {
    OpOf(req).value
  }

  /** The branches of a write or of a message that only followers take. */
  lemma Unfold(s: Stage, req: Request)
    requires !req.Get? && !req.Register? && !req.Index?
    ensures ABORTED == "abort the command"
    ensures |s.c.peers| != s.c.capacity ==>
              Next(s, req) == s && AnswerTo(s, req) == Answered(Response(ERROR, Some(ERRMSG_NOT_AT_CAPACITY)))
    ensures s.RingFull() <==> |s.c.peers| == s.c.capacity
    ensures s.RingFull() && (req.Put? || req.Del?) ==>
      var op := OperationOf(req);
      var course := Course(s.up, s.script, ReplicasIn(s.c, op.key));
      && (Commits(s, op) <==> Check(op, s.m) == 0 && PollServed(s.up, s.script, ReplicasIn(s.c, op.key)))
      && Next(s, req) == Stage(s.c, course.up, course.script, if Commits(s, op) then Apply(op, s.m) else s.m)
      && AnswerTo(s, req) == Answered(if Commits(s, op) then Response(SUCCESS, None) else Response(ERROR, Some(ABORTED)))
    ensures s.RingFull() && !req.Put? && !req.Del? ==>
              Next(s, req) == s && AnswerTo(s, req) == Answered(Response(ERROR, Some(UNKNOWN_TYPE)))
  {
    hide Course, PollServed, ReplicasIn, Check, Apply;
  }

  lemma CountIsLength(leader: TpcLeader)
    requires leader.Valid()
    ensures leader.follower_count == |leader.Peers()| <= leader.capacity
  {
  }

  lemma TransactionOnMap(leader: TpcLeader, net: Net, m: Store, op: Op)
    requires Ready(leader, net, m) && |leader.Peers()| == leader.capacity
    ensures var rs, v := ReplicasOf(leader, op.key), Views(net.followers);
            && (Willing(v, rs, |rs|, op) <==> Check(op, m) == 0)
            && Represents(ConfigOf(leader), Decided(v, rs, op, false), m)
            && (Check(op, m) == 0 ==> Represents(ConfigOf(leader), Decided(v, rs, op, true), Apply(op, m)))
  {
    hide Represents, Willing, Decided, Check, Apply;
    var c, v := ConfigOf(leader), Views(net.followers);
    WillingIffMapAllows(c, v, m, op);
    DecisionRefinesMap(c, v, m, op, false);
    if Check(op, m) == 0 {
      DecisionRefinesMap(c, v, m, op, true);
    }
  }

  /** A new follower, empty like all others before the ring is full, changes nothing for clients. */
  lemma RegisteredIsReady(leader: TpcLeader, ps: seq<Peer>, fs: map<Addr, Follower>, p: Peer, m: Store)
    requires leader.Valid() && leader.Peers() == Registered(ps, p, leader.capacity)
    requires Sorted(ps) && |ps| <= leader.capacity && Placed(ps, fs) && AllSound(fs)
    requires Represents(Config(ps, leader.hash, leader.capacity, leader.redundancy), Views(fs), m)
    requires forall q :: q in ps ==> q.id == leader.IdOf(q.host, Decimal(q.port))
    requires p.id == leader.IdOf(p.host, Decimal(p.port)) && AddrOf(p) in fs
    ensures Named(leader) && Placed(leader.Peers(), fs)
    ensures Represents(ConfigOf(leader), Views(fs), m)
  {
    hide TpcLeader.Valid, AllSound, Views, Place, Decimal, Sound;
    var qs := leader.Peers();
    if |ps| < leader.capacity {
      RegisteredIs(ps, p, leader.capacity);
      forall i, j | 0 <= i < j < |qs| ensures AddrOf(qs[i]) != AddrOf(qs[j]) {
        assert qs[i] in qs && qs[j] in qs && qs[i].id < qs[j].id;
      }
      forall i | 0 <= i < |qs| ensures AddrOf(qs[i]) in fs {
        assert qs[i] in qs;
      }
    }
  }

  method Register(leader: TpcLeader, host: string, port: string, net: Net, ghost s: Stage) returns (res: Response)
    requires Stands(leader, net, s) && NamesServer(host, port, net.followers.Keys)
    modifies leader, leader.ring
    ensures Stands(leader, net, Next(s, Messages.Register(host, port)))
    ensures Answered(res) == AnswerTo(s, Messages.Register(host, port))
    ensures forall n :: n in leader.ring ==> n in old(leader.ring) || fresh(n)
  {
    hide *;
    StandsParts(leader, net, s);
    SameConfig(leader, net, s);
    BeforeRegistering(leader, net, s.m, host, port);
    ghost var ps, p := leader.Peers(), Peer(leader.IdOf(host, port), host, Atoi(port));
    UnfoldRegister(leader, s, host, port);
    res := leader.Register(host, port);
    RegisteredIsReady(leader, ps, net.followers, p, s.m);
    ReadyFrom(leader, net, s.m);
    ConfigIs(leader);
    StandsFrom(leader, net, Next(s, Messages.Register(host, port)));
  }

  lemma ConfigIs(leader: TpcLeader)
    ensures ConfigOf(leader) == Config(leader.Peers(), leader.hash, leader.capacity, leader.redundancy)
  {
  }

  lemma UnfoldRegister(leader: TpcLeader, s: Stage, host: string, port: string)
    requires s.c == ConfigOf(leader)
    ensures var next := Next(s, Messages.Register(host, port));
            && next == s.(c := next.c)
            && next.c == Config(Registered(leader.Peers(), Peer(leader.IdOf(host, port), host, Atoi(port)), leader.capacity),
                                leader.hash, leader.capacity, leader.redundancy)
    ensures AnswerTo(s, Messages.Register(host, port)) ==
              Answered(if |leader.Peers()| == leader.capacity then Response(ERROR, Some(ERRMSG_FOLLOWER_CAPACITY))
                       else Response(SUCCESS, None))
  {
    hide Registered, Atoi;
  }

  lemma BeforeRegistering(leader: TpcLeader, net: Net, m: Store, host: string, port: string)
    requires Ready(leader, net, m) && NamesServer(host, port, net.followers.Keys)
    ensures leader.Valid() && Sorted(leader.Peers()) && |leader.Peers()| <= leader.capacity
    ensures Placed(leader.Peers(), net.followers) && AllSound(net.followers)
    ensures Represents(Config(leader.Peers(), leader.hash, leader.capacity, leader.redundancy), Views(net.followers), m)
    ensures forall q :: q in leader.Peers() ==> q.id == leader.IdOf(q.host, Decimal(q.port))
    ensures var p := Peer(leader.IdOf(host, port), host, Atoi(port));
            p.id == leader.IdOf(p.host, Decimal(p.port)) && AddrOf(p) in net.followers
  {
    hide Quiet, Views, AllSound, Placed, Represents, Decimal, Atoi;
  }

  method Read(leader: TpcLeader, key: string, net: Net, ghost s: Stage) returns (a: Answer, net': Net)
    requires Stands(leader, net, s)
    ensures Stands(leader, net', Next(s, Get(key))) && a == AnswerTo(s, Get(key))
    ensures net'.followers.Keys == net.followers.Keys
  {
    hide *;
    StandsParts(leader, net, s);
    SameConfig(leader, net, s);
    UnfoldRead(s, key);
    a, net' := HandleGet(leader, key, net, s.m, s.up);
    OnlyReadFacts(leader, net, net', s.m);
    StandsFrom(leader, net', Next(s, Get(key)));
  }

  lemma UnfoldRead(s: Stage, key: string)
    ensures var asked := Asked(s.m, key, ReplicasIn(s.c, key));
            && AnswerTo(s, Get(key)) == (if AnyLost(s.up, s.script, asked) then NullDereference else Answered(ReadAnswer(s.m, key)))
            && Next(s, Get(key)) == s.(up := Reads(s.up, s.script, asked).up, script := Reads(s.up, s.script, asked).script)
    ensures ReplicasIn(s.c, key) == [] ==> Next(s, Get(key)) == s && AnswerTo(s, Get(key)) == Answered(ReadAnswer(s.m, key))
  {
    hide ReplicasIn, FirstConnected;
  }

  /**
   * tpcleader_handle, given the bytes of one message. A trace line uses the request before it is
   * tested, so a message that is no request ends the leader.
   */
  method Handle(leader: TpcLeader, data: string, net: Net, ghost s: Stage) returns (a: Answer, net': Net)
    requires Stands(leader, net, s) && Known(data, s.RingFull(), net.followers.Keys)
    modifies leader, leader.ring
    ensures Stands(leader, net', After(s, data)) && a == AnswerFor(s, data)
    ensures net'.followers.Keys == net.followers.Keys
    ensures forall i :: 0 <= i < |leader.ring| ==> leader.ring[i] in old(leader.ring) || fresh(leader.ring[i])
  {
    hide Stands, Next, AnswerTo, Decimal, Atoi, ReceivedRequest, RequestFits;
    var received := KvRequestReceive(data);
    if received.None? {
      return NullDereference, net;
    }
    var req := RequestOf(received.value);
    assert ClientRequest(data) == Some(req);
    if req.Index? {
      UnfoldIndex(s);
      return IndexPage, net;
    } else if req.Register? {
      var res := Register(leader, req.host, req.port, net, s);
      return Answered(res), net;
    } else if req.Get? {
      a, net' := Read(leader, req.key, net, s);
    } else {
      var res;
      res, net' := HandleTpc(leader, req, net, s);
      a := Answered(res);
    }
  }

  lemma UnfoldIndex(s: Stage)
    ensures Next(s, Index) == s && AnswerTo(s, Index) == IndexPage
  {
  }

  lemma OnlyReadFacts(leader: TpcLeader, net: Net, net': Net, m: Store)
    requires OnlyRead(leader, net, net', m)
    ensures Ready(leader, net', m) && net'.followers.Keys == net.followers.Keys
  {
  }

  /** A new leader over followers with empty stores and logs represents the empty map. */
  lemma FreshClusterIsReady(leader: TpcLeader, net: Net)
    requires leader.Valid() && leader.Peers() == []
    requires forall a :: a in net.followers ==> net.followers[a].disk == FollowerProtocol.Disk([], map[])
    requires forall a :: a in net.followers && net.followers[a].up ==>
               net.followers[a].state == FollowerProtocol.TPC_INIT || net.followers[a].state == FollowerProtocol.TPC_WAIT
    ensures Ready(leader, net, map[])
    ensures Stands(leader, net, Stage(ConfigOf(leader), UpOf(net.followers), net.script, map[]))
  {
  }

  // ----- how the leader ends

  /** The only ways to its end: bytes that are no request, and a read whose reply is lost. */
  lemma EndsIff(s: Stage, data: string)
    ensures AnswerFor(s, data) == NullDereference <==>
              match ClientRequest(data)
              case None => true
              case Some(Get(key)) => s.c.Full() && AnyLost(s.up, s.script, Asked(s.m, key, ReplicasIn(s.c, key)))
              case _ => false
  {
    hide FirstConnected, Replicas;
  }

  /** A client that connects and says nothing is enough. */
  lemma SilenceEndsLeader(s: Stage)
    ensures AnswerFor(s, "") == NullDereference && After(s, "") == s
  {
    NothingIsNoRequest();
    hide ReceivedRequest;
  }

  /** A new leader, its one follower registered, and a read whose reply is lost. */
  method LostRead(hash: string -> Hash64) returns (a: Answer)
    ensures a == NullDereference
  {
    hide Ready, LossyNet, AnyLost, Asked, TpcLeader.Valid, Registered, Decimal, Atoi, OnlyRead, Views;
    var leader := new TpcLeader(hash, 1, 1);
    PortOne();
    var p := Peer(leader.IdOf("host", "1"), "host", 1);
    JoinsFirst(p);
    var res := leader.Register("host", "1");
    LossHappens(leader, p, "key");
    ghost var up := UpOf(LossyNet(AddrOf(p)).followers);
    var net';
    a, net' := HandleGet(leader, "key", LossyNet(AddrOf(p)), map[], up);
  }

  lemma PortOne()
    ensures Atoi("1") == 1 && Decimal(1) == "1"
  {
    assert Decimal(1) == "1";
    AtoiDecimal(1);
  }

  lemma JoinsFirst(p: Peer)
    ensures Registered([], p, 1) == [p]
  {
  }

  // ----- the service spelled out, from bytes to the map

  /** A read of a full ring, unless its reply is lost. */
  lemma ReadSpelledOut(s: Stage, key: string)
    requires Spells(key) && |key| <= 8000 && !ReadLost(s, key)
    ensures var data := "GET /?key=" + key + " HTTP/1.1\r\n\r\n";
            && AnswerFor(s, data) == Answered(if key in s.m then Response(GETRESP, Some(s.m[key]))
                                              else Response(ERROR, Some("error: no key")))
            && After(s, data).m == s.m
  {
    ReadAndDeleteSpelledOut(key);
    hide ReceivedRequest, AnyLost, Reads, ClientRequest, ReadLost;
  }

  /** A write or a delete of a full ring whose poll is answered throughout changes the map where it says, or is refused. */
  lemma WriteSpelledOut(s: Stage, key: string, val: string)
    requires Spells(key) && Spells(val) && |key| + |val| <= 8000 && s.RingFull()
    requires PollServed(s.up, s.script, ReplicasIn(s.c, key))
    ensures var data := "PUT /?key=" + key + "&val=" + val + " HTTP/1.1\r\n\r\n";
            if 0 < |key| <= 1024 && |val| <= 1024 then
              AnswerFor(s, data) == Answered(Response(SUCCESS, None)) && After(s, data).m == s.m[key := val]
            else AnswerFor(s, data) == Answered(Response(ERROR, Some("abort the command"))) && After(s, data).m == s.m
    ensures var data := "DELETE /?key=" + key + " HTTP/1.1\r\n\r\n";
            if 0 < |key| <= 1024 && key in s.m then
              AnswerFor(s, data) == Answered(Response(SUCCESS, None)) && After(s, data).m == s.m - {key}
            else AnswerFor(s, data) == Answered(Response(ERROR, Some("abort the command"))) && After(s, data).m == s.m
  {
    hide ReceivedRequest, ClientRequest, PollServed, Course, ReplicasIn;
    ReadAndDeleteSpelledOut(key);
    KvMessage.WriteSpelledOut(key, val);
    assert ABORTED == "abort the command";
  }

  /** The other answers: before the ring is full, when it is, and to what only followers take. */
  lemma OthersSpelledOut(s: Stage, key: string, val: string)
    requires Spells(key) && Spells(val) && |key| + |val| <= 8000
    ensures !s.RingFull() ==>
              AnswerFor(s, "PUT /?key=" + key + "&val=" + val + " HTTP/1.1\r\n\r\n")
                == Answered(Response(ERROR, Some("error: follower_capacity not yet full")))
    ensures AnswerFor(s, "POST /register?key=" + key + "&val=" + val + " HTTP/1.1\r\n\r\n")
              == Answered(if s.RingFull() then Response(ERROR, Some("error: follower capacity already full"))
                          else Response(SUCCESS, None))
    ensures s.RingFull() ==>
              AnswerFor(s, "POST /commit HTTP/1.1\r\n\r\n") == Answered(Response(ERROR, Some("unknown message type")))
  {
    hide ReceivedRequest, ClientRequest, PollServed, Course, ReplicasIn, Registered, Atoi;
    KvMessage.WriteSpelledOut(key, val);
    RegistrationSpelledOut(key, val);
    DecisionsSpelledOut();
    assert ERRMSG_NOT_AT_CAPACITY == "error: follower_capacity not yet full";
    assert UNKNOWN_TYPE == "unknown message type";
  }

  // ----- one plain map

  /** The map after a message that was answered `a`: a write reported as successful changes it, nothing else does. */
  function MapAfter(m: Store, data: string, a: Answer): Store {
    var req := ClientRequest(data);
    if req.Some? && OpOf(req.value).Some? && a == Answered(Response(SUCCESS, None)) then Apply(OpOf(req.value).value, m) else m
  }

  /**
   * What a service of one map may answer. A write succeeds only if the map allows it, and with a
   * healthy network it does succeed; a read returns the map's value, unless replies get lost.
   */
  ghost predicate Allowed(full: bool, script: seq<Step>, m: Store, req: Request, a: Answer) {
    match req
    case Index => a == IndexPage
    case Get(key) => a == Answered(ReadAnswer(m, key)) || (a == NullDereference && full && !LosesNoReply(script))
    case Register(_, _) =>
      a == Answered(if full then Response(ERROR, Some(ERRMSG_FOLLOWER_CAPACITY)) else Response(SUCCESS, None))
    case _ =>
      if !full then a == Answered(Response(ERROR, Some(ERRMSG_NOT_AT_CAPACITY)))
      else match OpOf(req)
        case None => a == Answered(Response(ERROR, Some(UNKNOWN_TYPE)))
        case Some(op) =>
          || (a == Answered(Response(SUCCESS, None)) && Check(op, m) == 0)
          || (a == Answered(Response(ERROR, Some(ABORTED))) && !(script == [] && Check(op, m) == 0))
  }

  ghost predicate AllowedFor(full: bool, script: seq<Step>, m: Store, data: string, a: Answer) {
    match ClientRequest(data)
    case None => a == NullDereference
    case Some(req) => Allowed(full, script, m, req, a)
  }

  /** What the leader answers is what a service of one map may answer, and what its answers say is what becomes of the map. */
  lemma AnswerIsAllowed(s: Stage, data: string)
    ensures AllowedFor(s.RingFull(), s.script, s.m, data, AnswerFor(s, data))
    ensures After(s, data).m == MapAfter(s.m, data, AnswerFor(s, data))
  {
    hide AnyLost, LosesNoReply, PassOver, ClientRequest, Course, Replicas, Check, Apply, Reads;
    var req := ClientRequest(data);
    if req.Some? && req.value.Get? {
      NothingIsLost(s.up, s.script, Asked(s.m, req.value.key, ReplicasIn(s.c, req.value.key)));
      NoneLost(s.up, s.script, []);
    } else if req.Some? && OpOf(req.value).Some? {
      PassUsesScript(s.up, s.script, ReplicasIn(s.c, OpOf(req.value).value.key), 0, false);
    }
  }

  /** The network does not get worse by being used. */
  lemma NoWorse(s: Stage, data: string)
    ensures LosesNoReply(s.script) ==> LosesNoReply(After(s, data).script)
    ensures s.script == [] ==> After(s, data).script == []
  {
    hide LosesNoReply, ClientRequest, Reads, PassOver, SecondPhase, ReplicasIn, Registered, Check, Apply;
    var req := ClientRequest(data);
    if req.Some? && req.value.Get? {
      var asked := Asked(s.m, req.value.key, ReplicasIn(s.c, req.value.key));
      NothingIsLost(s.up, s.script, asked);
      ReadsOfNothing(s.up, asked);
    } else if req.Some? && OpOf(req.value).Some? {
      var rs := ReplicasIn(s.c, OpOf(req.value).value.key);
      var poll := PassOver(s.up, s.script, rs, 0, false);
      PassUsesScript(s.up, s.script, rs, 0, false);
      PassesBound(poll.up, poll.script, rs);
      if LosesNoReply(s.script) {
        PassLosesNothing(s.up, s.script, rs, 0, false);
        PassesLoseNothing(poll.up, poll.script, rs);
      }
    }
  }

  lemma {:induction false} ReadsOfNothing(up: set<Addr>, rs: seq<Peer>)
    ensures Reads(up, [], rs).script == []
    decreases |rs|
  {
    if rs != [] {
      ReadsOfNothing(LuckOf(up, [], AddrOf(rs[0])).up, rs[1..]);
    }
  }

  // ----- a whole run

  /** Where a run of messages leads. */
  ghost function RunOf(s: Stage, messages: seq<string>): Stage {
    if messages == [] then s else After(RunOf(s, messages[..|messages| - 1]), messages[|messages| - 1])
  }

  /** The map after a run of messages with the answers they got. */
  function RunAfter(m: Store, messages: seq<string>, answers: seq<Answer>): Store
    requires |messages| == |answers|
  {
    if messages == [] then m
    else MapAfter(RunAfter(m, messages[..|messages| - 1], answers[..|messages| - 1]), messages[|messages| - 1], answers[|messages| - 1])
  }

  /** Answer `i` is the one that the stage reached by then gives. */
  ghost predicate AnsweredAt(s: Stage, messages: seq<string>, answers: seq<Answer>, i: nat)
    requires i < |answers| <= |messages|
  {
    answers[i] == AnswerFor(RunOf(s, messages[..i]), messages[i])
  }

  ghost predicate AllAnswered(s: Stage, messages: seq<string>, answers: seq<Answer>)
    requires |answers| <= |messages|
  {
    forall i: nat :: i < |answers| ==> AnsweredAt(s, messages, answers, i)
  }

  /** Answer `i` is one a single map could have given at that point of the run. */
  ghost predicate AllowedAt(s: Stage, messages: seq<string>, answers: seq<Answer>, i: nat)
    requires i < |answers| <= |messages|
  {
    AllowedFor(RunOf(s, messages[..i]).RingFull(), s.script, RunAfter(s.m, messages[..i], answers[..i]), messages[i], answers[i])
  }

  lemma RunGrows(s: Stage, messages: seq<string>, answers: seq<Answer>, n: nat)
    requires n < |answers| <= |messages|
    ensures RunOf(s, messages[..n + 1]) == After(RunOf(s, messages[..n]), messages[n])
    ensures RunAfter(s.m, messages[..n + 1], answers[..n + 1]) ==
              MapAfter(RunAfter(s.m, messages[..n], answers[..n]), messages[n], answers[n])
  {
    hide After, MapAfter;
    assert messages[..n + 1][..n] == messages[..n] && answers[..n + 1][..n] == answers[..n];
  }

  lemma RunStarts(s: Stage, messages: seq<string>, answers: seq<Answer>)
    ensures RunOf(s, messages[..0]) == s && RunAfter(s.m, messages[..0], answers[..0]) == s.m
  {
  }

  lemma {:induction false} RunIsOneMap(s: Stage, messages: seq<string>, answers: seq<Answer>, n: nat)
    requires n <= |answers| <= |messages| && AllAnswered(s, messages, answers)
    ensures var t := RunOf(s, messages[..n]);
            && t.m == RunAfter(s.m, messages[..n], answers[..n])
            && (LosesNoReply(s.script) ==> LosesNoReply(t.script)) && (s.script == [] ==> t.script == [])
    decreases n
  {
    hide LosesNoReply, AnswerFor, After, MapAfter, RunOf, RunAfter;
    RunStarts(s, messages, answers);
    if n > 0 {
      RunIsOneMap(s, messages, answers, n - 1);
      RunGrows(s, messages, answers, n - 1);
      assert AnsweredAt(s, messages, answers, n - 1);
      AnswerIsAllowed(RunOf(s, messages[..n - 1]), messages[n - 1]);
      NoWorse(RunOf(s, messages[..n - 1]), messages[n - 1]);
    }
  }

  /** Every answer of a run is one that a single map, changed only by the writes reported as successful, could have given. */
  lemma OneMap(s: Stage, messages: seq<string>, answers: seq<Answer>, i: nat)
    requires i < |answers| <= |messages| && AllAnswered(s, messages, answers)
    ensures AllowedAt(s, messages, answers, i)
  {
    hide LosesNoReply, AnswerFor, MapAfter, RunOf, RunAfter, AllowedFor;
    RunIsOneMap(s, messages, answers, i);
    assert AnsweredAt(s, messages, answers, i);
    var t := RunOf(s, messages[..i]);
    AnswerIsAllowed(t, messages[i]);
    AllowedWhenWorse(t.RingFull(), t.script, s.script, t.m, messages[i], answers[i]);
  }

  lemma AllowedWhenWorse(full: bool, script: seq<Step>, worse: seq<Step>, m: Store, data: string, a: Answer)
    requires AllowedFor(full, script, m, data, a)
    requires (LosesNoReply(worse) ==> LosesNoReply(script)) && (worse == [] ==> script == [])
    ensures AllowedFor(full, worse, m, data, a)
  {
    hide LosesNoReply, ClientRequest, Check;
  }

  /** On a network that keeps no reply back a run of requests is answered to its end. */
  lemma NoEarlyEnd(s: Stage, messages: seq<string>, answers: seq<Answer>, i: nat)
    requires i < |answers| <= |messages| && AllAnswered(s, messages, answers)
    requires LosesNoReply(s.script) && ClientRequest(messages[i]).Some?
    ensures answers[i] != NullDereference
  {
    OneMap(s, messages, answers, i);
    hide LosesNoReply, RunOf, RunAfter;
  }

  /**
   * The loop of handle_leader. Every answer of the run, and where the run leads, is what the ring,
   * the map, who is up and the script determine, however the followers' disks came to hold the map;
   * when it ends they hold the map that follows. The run is cut short only where the answer is the
   * leader's end.
   */
  method Serve(leader: TpcLeader, messages: seq<string>, net: Net, ghost s: Stage)
    returns (answers: seq<Answer>, net': Net)
    requires Stands(leader, net, s)
    requires forall i :: 0 <= i < |messages| ==> Known(messages[i], RunOf(s, messages[..i]).RingFull(), net.followers.Keys)
    modifies leader, leader.ring
    ensures |answers| <= |messages| && AllAnswered(s, messages, answers)
    ensures |answers| < |messages| ==> answers != [] && answers[|answers| - 1] == NullDereference
    ensures forall i :: 0 <= i < |answers| - 1 ==> answers[i] != NullDereference
    ensures Stands(leader, net', RunOf(s, messages[..|answers|]))
    ensures Ready(leader, net', RunAfter(s.m, messages[..|answers|], answers))
    ensures forall i: nat :: i < |answers| ==> AllowedAt(s, messages, answers, i)
    ensures LosesNoReply(s.script) && (forall i :: 0 <= i < |messages| ==> ClientRequest(messages[i]).Some?) ==>
              |answers| == |messages|
  {
    hide *;
    answers, net' := [], net;
    NothingAnswered(s, messages, answers);
    while |answers| < |messages|
      invariant |answers| <= |messages| && net'.followers.Keys == net.followers.Keys
      invariant forall i :: 0 <= i < |leader.ring| ==> leader.ring[i] in old(leader.ring) || fresh(leader.ring[i])
      invariant Stands(leader, net', RunOf(s, messages[..|answers|]))
      invariant AllAnswered(s, messages, answers)
      invariant NullDereference !in answers
      decreases |messages| - |answers|
    {
      var a;
      ghost var was := answers;
      a, net' := Handle(leader, messages[|answers|], net', RunOf(s, messages[..|answers|]));
      answers := answers + [a];
      AnsweredGrows(s, messages, was, a);
      if a == NullDereference {
        break;
      }
    }
    EndOfRun(leader, net', s, messages, answers);
  }

  lemma NothingAnswered(s: Stage, messages: seq<string>, answers: seq<Answer>)
    requires answers == []
    ensures AllAnswered(s, messages, answers) && RunOf(s, messages[..0]) == s
  {
  }

  lemma AnsweredGrows(s: Stage, messages: seq<string>, answers: seq<Answer>, a: Answer)
    requires |answers| < |messages| && AllAnswered(s, messages, answers)
    requires a == AnswerFor(RunOf(s, messages[..|answers|]), messages[|answers|])
    ensures AllAnswered(s, messages, answers + [a])
    ensures RunOf(s, messages[..|answers| + 1]) == After(RunOf(s, messages[..|answers|]), messages[|answers|])
  {
    RunGrows(s, messages, answers + [a], |answers|);
    hide RunOf, AnswerFor;
    forall i: nat | i <= |answers| ensures AnsweredAt(s, messages, answers + [a], i) {
      assert i < |answers| ==> AnsweredAt(s, messages, answers, i);
    }
  }

  lemma EndOfRun(leader: TpcLeader, net: Net, s: Stage, messages: seq<string>, answers: seq<Answer>)
    requires |answers| <= |messages| && AllAnswered(s, messages, answers)
    requires Stands(leader, net, RunOf(s, messages[..|answers|]))
    ensures Ready(leader, net, RunAfter(s.m, messages[..|answers|], answers))
    ensures forall i: nat :: i < |answers| ==> AllowedAt(s, messages, answers, i)
    ensures LosesNoReply(s.script) && (forall i :: 0 <= i < |messages| ==> ClientRequest(messages[i]).Some?) ==>
              NullDereference !in answers
  {
    hide *;
    RunIsOneMap(s, messages, answers, |answers|);
    assert answers[..|answers|] == answers;
    StandsParts(leader, net, RunOf(s, messages[..|answers|]));
    forall i: nat | i < |answers| ensures AllowedAt(s, messages, answers, i) {
      OneMap(s, messages, answers, i);
    }
    if LosesNoReply(s.script) && (forall i :: 0 <= i < |messages| ==> ClientRequest(messages[i]).Some?) {
      forall i: nat | i < |answers| ensures answers[i] != NullDereference {
        NoEarlyEnd(s, messages, answers, i);
      }
    }
  }
}
