/**
 * The followers as the leader meets them: servers that crash and restart between and during
 * contacts, and a network that loses requests and replies.
 *
 * A contact is one synchronous exchange. It fails to connect, or is lost before it is handled,
 * or the follower crashes after some of the handler's durable writes, or the reply is lost, or
 * it is answered. Nothing is delivered late, and a follower handles one request at a time.
 */
module Cluster {
  import opened Common
  import opened KvMap
  import opened Messages
  import opened FollowerProtocol

  datatype Addr = Addr(host: string, port: int)

  /** `state` is volatile: it means nothing while the follower is down. */
  datatype Follower = Follower(disk: Disk, up: bool, state: TpcState)

  /** What may befall a follower on its own; a restart may itself crash after `writes` durable writes. */
  datatype Event = Crash(a: Addr) | Restart(a: Addr) | CrashedRestart(a: Addr, writes: nat)

  datatype Fate = Unreachable | RequestLost | CrashAfter(writes: nat) | ReplyLost | Delivered

  datatype Step = Step(before: seq<Event>, fate: Fate)

  /** The servers, and what will go wrong. When the script runs out the network is healthy. */
  datatype Net = Net(followers: map<Addr, Follower>, script: seq<Step>)

  datatype Reply = NotConnected | NoReply | Got(res: Response)

  // ----- one follower

  function RestartFollower(f: Follower): Follower {
    if f.up then f else Follower(Recover(f.disk).disk, true, Recover(f.disk).state)
  }

  function Befall(f: Follower, e: Event): Follower {
    match e
    case Crash(_) => f.(up := false)
    case Restart(_) => RestartFollower(f)
    case CrashedRestart(_, k) => if f.up then f else f.(disk := AfterWrites(f.disk, Recover(f.disk).steps, k))
  }

  function Meet(f: Follower, req: Request, fate: Fate): (Follower, Reply) {
    if !f.up then (f, NotConnected)
    else
      var h := Handle(f.disk, f.state, req);
      match fate
      case Unreachable => (f, NotConnected)
      case RequestLost => (f, NoReply)
      case CrashAfter(k) => (Follower(AfterWrites(f.disk, h.steps, k), false, f.state), NoReply)
      case ReplyLost => (Follower(h.disk, true, h.state), NoReply)
      case Delivered => (Follower(h.disk, true, h.state), Got(h.reply))
  }

  // ----- the network

  function BefallAll(fs: map<Addr, Follower>, es: seq<Event>): map<Addr, Follower>
    decreases |es|
  {
    if es == [] then fs
    else BefallAll(if es[0].a in fs then fs[es[0].a := Befall(fs[es[0].a], es[0])] else fs, es[1..])
  }

  /** connect_to, kvrequest_send and kvresponse_recieve: what one contact does and what comes back. */
  function Exchange(net: Net, a: Addr, req: Request): (r: (Net, Reply))
    requires a in net.followers
    ensures r.0.followers.Keys == net.followers.Keys
  {
    var step := if net.script == [] then Step([Restart(a)], Delivered) else net.script[0];
    BefallAllKeys(net.followers, step.before);
    var fs := BefallAll(net.followers, step.before);
    var m := Meet(fs[a], req, step.fate);
    (Net(fs[a := m.0], if net.script == [] then [] else net.script[1..]), m.1)
  }

  lemma {:induction false} BefallAllKeys(fs: map<Addr, Follower>, es: seq<Event>)
    ensures BefallAll(fs, es).Keys == fs.Keys
    decreases |es|
  {
    if es != [] {
      BefallAllKeys(if es[0].a in fs then fs[es[0].a := Befall(fs[es[0].a], es[0])] else fs, es[1..]);
    }
  }

  // ----- what a follower stands for, whatever crash it is in the middle of

  /** The state a follower is in once it is up again. */
  ghost predicate Sound(f: Follower) {
    && AtRest(Settled(f.disk), Recover(f.disk).state)
    && (f.up ==> AtRest(f.disk, f.state))
  }

  /** The disk of a follower at rest already is settled, and tells its state. */
  function StateOf(disk: Disk): TpcState {
    if disk.log == [] then TPC_WAIT else TPC_READY
  }

  /** What a settled disk becomes, and what is answered, when a request is handled. */
  function Handling(disk: Disk, req: Request): Handled {
    Handle(disk, StateOf(disk), req)
  }

  lemma AtRestIsSettled(disk: Disk, state: TpcState)
    requires AtRest(disk, state)
    ensures Settled(disk) == disk && AtRest(disk, Recover(disk).state)
  {
  }

  lemma HandlingIsHandle(disk: Disk, state: TpcState, req: Request)
    requires AtRest(disk, state)
    ensures Handle(disk, state, req).disk == Handling(disk, req).disk
    ensures Handle(disk, state, req).reply == Handling(disk, req).reply
    ensures AtRest(Handling(disk, req).disk, StateOf(Handling(disk, req).disk))
  {
    HandlersKeepAtRest(disk, state, req);
  }

  /** Crashes and restarts on their own never change what a follower stands for. */
  lemma BefallKeepsView(f: Follower, e: Event)
    requires Sound(f)
    ensures Sound(Befall(f, e)) && Settled(Befall(f, e).disk) == Settled(f.disk)
  {
    if e.CrashedRestart? {
      RecoveryRestarts(f.disk, e.writes);
    } else if !f.up {
      AtRestIsSettled(Settled(f.disk), Recover(f.disk).state);
    }
  }

  /** A contact is handled as a whole or not at all, and when it is answered it was handled. */
  lemma MeetIsAtomic(f: Follower, req: Request, fate: Fate)
    requires Sound(f)
    ensures var (f', reply) := Meet(f, req, fate);
            && Sound(f')
            && (Settled(f'.disk) == Settled(f.disk) || Settled(f'.disk) == Handling(Settled(f.disk), req).disk)
            && (reply.Got? ==>
                  && Settled(f'.disk) == Handling(Settled(f.disk), req).disk
                  && reply.res == Handling(Settled(f.disk), req).reply)
  {
    if f.up {
      AtRestIsSettled(f.disk, f.state);
      HandlingIsHandle(f.disk, f.state, req);
      HandlersKeepAtRest(f.disk, f.state, req);
      var h := Handle(f.disk, f.state, req);
      AtRestIsSettled(h.disk, h.state);
      if fate.CrashAfter? {
        CrashedHandlerIsAtomic(f.disk, f.state, req, fate.writes);
      }
    }
  }

  // ----- the whole network

  ghost predicate AllSound(fs: map<Addr, Follower>) {
    forall a :: a in fs ==> Sound(fs[a])
  }

  /** What every follower stands for. */
  ghost function Views(fs: map<Addr, Follower>): map<Addr, Disk> {
    map a | a in fs :: Settled(fs[a].disk)
  }

  lemma {:induction false} BefallAllKeepsViews(fs: map<Addr, Follower>, es: seq<Event>)
    requires AllSound(fs)
    ensures AllSound(BefallAll(fs, es)) && Views(BefallAll(fs, es)) == Views(fs)
    decreases |es|
  {
    if es != [] {
      var fs' := if es[0].a in fs then fs[es[0].a := Befall(fs[es[0].a], es[0])] else fs;
      if es[0].a in fs {
        BefallKeepsView(fs[es[0].a], es[0]);
      }
      assert Views(fs') == Views(fs);
      BefallAllKeepsViews(fs', es[1..]);
    }
  }

  /** What a contact makes of the views: at most one handler ran, on the follower contacted. */
  lemma ExchangeViews(net: Net, a: Addr, req: Request)
    requires AllSound(net.followers) && a in net.followers
    ensures var (net', reply) := Exchange(net, a, req);
            var v, v' := Views(net.followers), Views(net'.followers);
            && AllSound(net'.followers)
            && (v' == v || v' == v[a := Handling(v[a], req).disk])
            && (reply.Got? ==> v' == v[a := Handling(v[a], req).disk] && reply.res == Handling(v[a], req).reply)
            && (net.script == [] ==> reply.Got? && net'.script == [])
            && (net.script != [] ==> net'.script == net.script[1..])
  {
    hide Meet, Sound, Settled, Handling;
    var step := if net.script == [] then Step([Restart(a)], Delivered) else net.script[0];
    var fs := BefallAll(net.followers, step.before);
    BefallAllKeepsViews(net.followers, step.before);
    BefallAllKeys(net.followers, step.before);
    assert Views(fs)[a] == Settled(fs[a].disk);
    MeetIsAtomic(fs[a], req, step.fate);
    if net.script == [] {
      RestartedIsUp(net.followers, a, req);
    }
  }

  lemma RestartedIsUp(fs: map<Addr, Follower>, a: Addr, req: Request)
    requires a in fs
    ensures a in BefallAll(fs, [Restart(a)]) && Meet(BefallAll(fs, [Restart(a)])[a], req, Delivered).1.Got?
  {
    assert [Restart(a)][1..] == [];
    assert BefallAll(fs, [Restart(a)]) == fs[a := RestartFollower(fs[a])];
  }

  // ----- what the script alone decides about a contact, whatever is sent and whatever the disks hold

  /** Not connected, connected but without a reply, or answered. */
  datatype Luck = Refused | Lost | Served

  /** Who is up after these events. */
  function UpAfter(up: set<Addr>, es: seq<Event>): set<Addr>
    decreases |es|
  {
    if es == [] then up
    else
      match es[0]
      case Crash(a) => UpAfter(up - {a}, es[1..])
      case Restart(a) => UpAfter(up + {a}, es[1..])
      case CrashedRestart(_, _) => UpAfter(up, es[1..])
  }

  datatype Fortune = Fortune(up: set<Addr>, script: seq<Step>, luck: Luck)

  /** One contact with `a`. */
  function LuckOf(up: set<Addr>, script: seq<Step>, a: Addr): Fortune {
    if script == [] then Fortune(up + {a}, [], Served)
    else
      var now, fate := UpAfter(up, script[0].before), script[0].fate;
      Fortune(if a in now && fate.CrashAfter? then now - {a} else now, script[1..],
              if a !in now || fate.Unreachable? then Refused else if fate.Delivered? then Served else Lost)
  }

  /** Who is up, of those who are servers at all. */
  ghost predicate AreUp(fs: map<Addr, Follower>, up: set<Addr>) {
    forall a :: a in fs ==> (fs[a].up <==> a in up)
  }

  ghost function UpOf(fs: map<Addr, Follower>): (up: set<Addr>)
    ensures AreUp(fs, up)
  {
    set a | a in fs && fs[a].up
  }

  lemma {:induction false} BefallAllUp(fs: map<Addr, Follower>, up: set<Addr>, es: seq<Event>)
    requires AreUp(fs, up)
    ensures AreUp(BefallAll(fs, es), UpAfter(up, es))
    decreases |es|
  {
    hide Recover, AfterWrites;
    if es != [] {
      var e := es[0];
      var fs' := if e.a in fs then fs[e.a := Befall(fs[e.a], e)] else fs;
      var up' := match e case Crash(a) => up - {a} case Restart(a) => up + {a} case CrashedRestart(_, _) => up;
      assert AreUp(fs', up');
      BefallAllUp(fs', up', es[1..]);
    }
  }

  /** How a contact goes is a matter of who is up and of the script. */
  lemma LuckDecides(net: Net, up: set<Addr>, a: Addr, req: Request)
    requires a in net.followers && AreUp(net.followers, up)
    ensures var (net', reply) := Exchange(net, a, req);
            var f := LuckOf(up, net.script, a);
            && AreUp(net'.followers, f.up) && net'.script == f.script
            && (reply.NotConnected? <==> f.luck == Refused) && (reply.NoReply? <==> f.luck == Lost)
  {
    hide Handle, Recover, AfterWrites;
    var step := if net.script == [] then Step([Restart(a)], Delivered) else net.script[0];
    BefallAllUp(net.followers, up, step.before);
    BefallAllKeys(net.followers, step.before);
    assert [Restart(a)][1..] == [];
  }

  /** The script may refuse connections and crash followers between contacts, but keeps no reply back. */
  ghost predicate LosesNoReply(script: seq<Step>) {
    forall i :: 0 <= i < |script| ==> script[i].fate == Unreachable || script[i].fate == Delivered
  }

  lemma LuckLosesNothing(up: set<Addr>, script: seq<Step>, a: Addr)
    requires LosesNoReply(script)
    ensures LuckOf(up, script, a).luck != Lost && LosesNoReply(LuckOf(up, script, a).script)
  {
  }
}
