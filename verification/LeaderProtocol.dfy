/** tpcleader.c: two-phase commit over the replicas of a key, and reads from them. */
module LeaderProtocol {
  import opened Common
  import opened KvMap
  import opened Messages
  import opened FollowerProtocol
  import opened Cluster
  import opened Ring
  import opened FollowerRing

  function AddrOf(p: Peer): Addr {
    Addr(p.host, p.port)
  }

  function ReqOf(op: Op): Request {
    match op
    case PutOp(k, v) => Put(k, v)
    case DelOp(k) => Del(k)
  }

  /** Every follower on the ring is a server of its own. */
  ghost predicate Placed(ps: seq<Peer>, fs: map<Addr, Follower>) {
    && (forall i :: 0 <= i < |ps| ==> AddrOf(ps[i]) in fs)
    && DistinctAddrs(ps)
  }

  /** No follower is in the middle of a transaction. */
  ghost predicate Quiet(v: map<Addr, Disk>) {
    forall a :: a in v ==> v[a].log == []
  }

  // ----- what one follower makes of the two phases

  function PreparedDisk(d: Disk, op: Op): Disk {
    d.(log := [Prepared(op)])
  }

  /** The disk a decided transaction leads to. */
  function Outcome(d: Disk, op: Op, commit: bool): Disk {
    if commit then Disk([], Apply(op, d.store)) else d
  }

  lemma VoteView(d: Disk, op: Op)
    requires d.log == []
    ensures Handling(d, ReqOf(op)).disk == if Check(op, d.store) == 0 then PreparedDisk(d, op) else d
    ensures Handling(d, ReqOf(op)).reply.body == Some(MSG_COMMIT) <==> Check(op, d.store) == 0
  {
    RefusalIsNoCommitVote(Check(op, d.store));
    assert d.log + [Prepared(op)] == [Prepared(op)];
  }

  /** Whatever a follower missed so far, a decision that reaches it completes the transaction there. */
  lemma DecisionView(d: Disk, op: Op, commit: bool, now: Disk)
    requires d.log == []
    requires now == Outcome(d, op, commit) || (now == PreparedDisk(d, op) && Check(op, d.store) == 0)
    ensures Handling(now, if commit then Commit else Abort).disk == Outcome(d, op, commit)
    ensures Handling(now, if commit then Commit else Abort).reply.typ == ACK
  {
    if now == PreparedDisk(d, op) && commit {
      CommitPerforms(now, TPC_READY);
    }
  }

  // ----- the two phases

  /** The replicas of a key, in the order they are contacted. */
  ghost function ReplicasOf(leader: TpcLeader, key: string): (rs: seq<Peer>)
    requires leader.Valid() && |leader.Peers()| == leader.capacity
    reads leader, leader.ring
    ensures |rs| == leader.redundancy
  {
    Replicas(leader.Peers(), leader.hash(key), leader.redundancy)
  }

  ghost predicate IsReplica(rs: seq<Peer>, n: nat, a: Addr)
    requires n <= |rs|
  {
    exists i :: 0 <= i < n && AddrOf(rs[i]) == a
  }

  /** Some of the first `n` replicas hold the prepared operation; nobody else has changed. */
  ghost predicate Voting(v0: map<Addr, Disk>, v: map<Addr, Disk>, rs: seq<Peer>, n: nat, op: Op)
    requires n <= |rs|
  {
    && v.Keys == v0.Keys
    && (forall a :: a in v && v[a] != v0[a] ==>
          IsReplica(rs, n, a) && v[a] == PreparedDisk(v0[a], op) && Check(op, v0[a].store) == 0)
  }

  /** Every replica is prepared or done with the transaction; nobody else has changed. */
  ghost predicate Deciding(v0: map<Addr, Disk>, v: map<Addr, Disk>, rs: seq<Peer>, op: Op, commit: bool) {
    && v.Keys == v0.Keys
    && (forall a :: a in v && !IsReplica(rs, |rs|, a) ==> v[a] == v0[a])
    && (forall a :: a in v && IsReplica(rs, |rs|, a) ==>
          v[a] == Outcome(v0[a], op, commit) || (v[a] == PreparedDisk(v0[a], op) && Check(op, v0[a].store) == 0))
  }

  ghost predicate DoneUpTo(v0: map<Addr, Disk>, v: map<Addr, Disk>, rs: seq<Peer>, n: nat, op: Op, commit: bool)
    requires n <= |rs|
  {
    forall i :: 0 <= i < n ==>
      var a := AddrOf(rs[i]);
      a in v0 && a in v && v[a] == Outcome(v0[a], op, commit)
  }

  /** The effect of a transaction on what the followers stand for. */
  ghost function Decided(v0: map<Addr, Disk>, rs: seq<Peer>, op: Op, commit: bool): map<Addr, Disk> {
    map a | a in v0 :: if IsReplica(rs, |rs|, a) then Outcome(v0[a], op, commit) else v0[a]
  }

  /** The first `n` replicas could carry out the operation. */
  ghost predicate Willing(v0: map<Addr, Disk>, rs: seq<Peer>, n: nat, op: Op)
    requires n <= |rs|
  {
    forall i :: 0 <= i < n ==> AddrOf(rs[i]) in v0 && Check(op, v0[AddrOf(rs[i])].store) == 0
  }

  /** The first `n` replicas are bound by their vote. */
  ghost predicate Bound(v0: map<Addr, Disk>, v: map<Addr, Disk>, rs: seq<Peer>, n: nat, op: Op)
    requires n <= |rs|
  {
    forall i :: 0 <= i < n ==>
      var a := AddrOf(rs[i]);
      a in v0 && a in v && Check(op, v0[a].store) == 0 && v[a] == PreparedDisk(v0[a], op)
  }

  ghost predicate DistinctAddrs(rs: seq<Peer>) {
    forall i, j :: 0 <= i < j < |rs| ==> AddrOf(rs[i]) != AddrOf(rs[j])
  }

  lemma NoVotesYet(v0: map<Addr, Disk>, rs: seq<Peer>, op: Op)
    ensures Voting(v0, v0, rs, 0, op) && Bound(v0, v0, rs, 0, op) && Willing(v0, rs, 0, op)
  {
  }

  /** One vote: the contact with replica `n`. */
  lemma VoteStep(v0: map<Addr, Disk>, net: Net, rs: seq<Peer>, n: nat, op: Op)
    requires n < |rs| && DistinctAddrs(rs) && Quiet(v0) && AllSound(net.followers)
    requires Voting(v0, Views(net.followers), rs, n, op) && AddrOf(rs[n]) in net.followers
    ensures var (net', reply) := Exchange(net, AddrOf(rs[n]), ReqOf(op));
            var v, v' := Views(net.followers), Views(net'.followers);
            && AllSound(net'.followers) && Voting(v0, v', rs, n + 1, op)
            && |net'.script| <= |net.script|
            && (Bound(v0, v, rs, n, op) && reply.Got? && reply.res.body == Some(MSG_COMMIT) ==>
                  Bound(v0, v', rs, n + 1, op) && Willing(v0, rs, n + 1, op))
            && (reply.Got? && Willing(v0, rs, n + 1, op) ==> reply.res.body == Some(MSG_COMMIT))
            && (Willing(v0, rs, n + 1, op) ==> Willing(v0, rs, n, op))
  {
    hide Settled, Handling, Sound, Exchange;
    var a := AddrOf(rs[n]);
    var v := Views(net.followers);
    assert !IsReplica(rs, n, a);
    assert v[a] == v0[a];
    VoteView(v0[a], op);
    ExchangeViews(net, a, ReqOf(op));
    var (net', reply) := Exchange(net, a, ReqOf(op));
    var v' := Views(net'.followers);
    forall b | b in v' && v'[b] != v0[b] ensures IsReplica(rs, n + 1, b) {
      if b == a { assert AddrOf(rs[n]) == b; }
    }
  }

  lemma VotesAllowDecision(v0: map<Addr, Disk>, v: map<Addr, Disk>, rs: seq<Peer>, op: Op, commit: bool)
    requires Voting(v0, v, rs, |rs|, op) && (commit ==> Bound(v0, v, rs, |rs|, op))
    ensures Deciding(v0, v, rs, op, commit)
  {
  }

  lemma DecidingKept(v0: map<Addr, Disk>, v: map<Addr, Disk>, rs: seq<Peer>, n: nat, op: Op, commit: bool, a: Addr)
    requires n < |rs| && AddrOf(rs[n]) == a && a in v && Deciding(v0, v, rs, op, commit)
    ensures v[a] == Outcome(v0[a], op, commit) || (v[a] == PreparedDisk(v0[a], op) && Check(op, v0[a].store) == 0)
    ensures Deciding(v0, v[a := Outcome(v0[a], op, commit)], rs, op, commit)
  {
    hide Outcome, PreparedDisk, Check;
    assert IsReplica(rs, |rs|, a);
  }

  lemma DoneGrows(v0: map<Addr, Disk>, v: map<Addr, Disk>, rs: seq<Peer>, n: nat, op: Op, commit: bool, a: Addr)
    requires n < |rs| && AddrOf(rs[n]) == a && a in v && v.Keys == v0.Keys
    requires DoneUpTo(v0, v, rs, n, op, commit)
    ensures DoneUpTo(v0, v[a := Outcome(v0[a], op, commit)], rs, n + 1, op, commit)
  {
    hide Outcome;
  }

  /** One message of the second phase: the contact with replica `n`. */
  lemma DecideStep(v0: map<Addr, Disk>, net: Net, rs: seq<Peer>, n: nat, op: Op, commit: bool)
    requires n < |rs| && Quiet(v0) && AllSound(net.followers)
    requires Deciding(v0, Views(net.followers), rs, op, commit) && AddrOf(rs[n]) in net.followers
    ensures var (net', reply) := Exchange(net, AddrOf(rs[n]), if commit then Commit else Abort);
            var v, v' := Views(net.followers), Views(net'.followers);
            && AllSound(net'.followers) && Deciding(v0, v', rs, op, commit)
            && (DoneUpTo(v0, v, rs, n, op, commit) && reply.Got? ==> DoneUpTo(v0, v', rs, n + 1, op, commit))
            && (reply.Got? ==> reply.res.typ == ACK)
            && |net'.script| <= |net.script| && (!reply.Got? ==> |net'.script| < |net.script|)
  {
    hide *;
    var a, req := AddrOf(rs[n]), if commit then Commit else Abort;
    ExchangeViews(net, a, req);
    var v := Views(net.followers);
    InViews(net.followers, v0, rs, op, commit, a);
    DecidingKept(v0, v, rs, n, op, commit, a);
    DecisionView(v0[a], op, commit, v[a]);
    if DoneUpTo(v0, v, rs, n, op, commit) {
      DoneGrows(v0, v, rs, n, op, commit, a);
    }
  }

  lemma InViews(fs: map<Addr, Follower>, v0: map<Addr, Disk>, rs: seq<Peer>, op: Op, commit: bool, a: Addr)
    requires a in fs && Deciding(v0, Views(fs), rs, op, commit) && Quiet(v0)
    ensures a in Views(fs) && Views(fs).Keys == v0.Keys && v0[a].log == []
  {
  }

  lemma DecidedIsQuiet(v0: map<Addr, Disk>, rs: seq<Peer>, op: Op, commit: bool)
    requires Quiet(v0)
    ensures Quiet(Decided(v0, rs, op, commit))
  {
  }

  lemma AllDone(v0: map<Addr, Disk>, v: map<Addr, Disk>, rs: seq<Peer>, op: Op, commit: bool)
    requires Deciding(v0, v, rs, op, commit) && DoneUpTo(v0, v, rs, |rs|, op, commit)
    ensures v == Decided(v0, rs, op, commit)
  {
  }

  lemma SamePlaces(ps: seq<Peer>, fs: map<Addr, Follower>, fs': map<Addr, Follower>)
    requires Placed(ps, fs) && fs'.Keys == fs.Keys
    ensures Placed(ps, fs')
  {
  }

  /** `pri` is the `n`-th replica of `key` on the leader's ring. */
  ghost predicate Visiting(leader: TpcLeader, key: string, pri: Node?, n: nat)
    requires leader.Valid()
    reads leader, leader.ring
  {
    && |leader.Peers()| == leader.capacity
    && n <= leader.redundancy
    && pri == leader.ring[Around(Primary(leader.Peers(), leader.hash(key)), n, leader.capacity)]
  }

  lemma PrimaryVisits(leader: TpcLeader, key: string, p: nat)
    requires leader.Valid() && |leader.Peers()| == leader.capacity
    requires p < |leader.ring| && p == Primary(leader.Peers(), leader.hash(key))
    ensures Visiting(leader, key, leader.ring[p], 0)
  {
  }

  lemma SuccessorVisits(leader: TpcLeader, key: string, pri: Node, n: nat)
    requires leader.Valid() && Visiting(leader, key, pri, n) && n < leader.redundancy
    ensures Visiting(leader, key, pri.next, n + 1)
  {
  }

  lemma VisitedReplica(leader: TpcLeader, key: string, pri: Node?, n: nat, fs: map<Addr, Follower>)
    requires leader.Valid() && Visiting(leader, key, pri, n) && Placed(leader.Peers(), fs)
    ensures var rs := ReplicasOf(leader, key);
            && |rs| == leader.redundancy && DistinctAddrs(rs)
            && (forall i :: 0 <= i < |rs| ==> AddrOf(rs[i]) in fs)
            && pri != null && (n < |rs| ==> pri.peer == rs[n])
  {
  }

  // ----- how the contacts of a pass go, told from who is up and from the script alone

  /** Who is up and what is left of the script, and how many contacts were refused or got no reply. */
  datatype Tally = Tally(up: set<Addr>, script: seq<Step>, failed: nat)

  /** One contact with each of `rs` from `n` on; with `breaks` the first that is refused is the last. */
  function PassOver(up: set<Addr>, script: seq<Step>, rs: seq<Peer>, n: nat, breaks: bool): Tally
    requires n <= |rs|
    decreases |rs| - n
  {
    if n == |rs| then Tally(up, script, 0)
    else
      var f := LuckOf(up, script, AddrOf(rs[n]));
      if f.luck == Refused && breaks then Tally(f.up, f.script, 1)
      else Plus(PassOver(f.up, f.script, rs, n + 1, breaks), if f.luck == Served then 0 else 1)
  }

  function Plus(t: Tally, failed: nat): Tally {
    t.(failed := t.failed + failed)
  }

  lemma PassStep(up: set<Addr>, script: seq<Step>, rs: seq<Peer>, n: nat, breaks: bool, failed: nat)
    requires n < |rs|
    ensures var f := LuckOf(up, script, AddrOf(rs[n]));
            var t := Plus(PassOver(up, script, rs, n, breaks), failed);
            && (f.luck == Refused && breaks ==> t == Tally(f.up, f.script, failed + 1))
            && (f.luck == Refused && !breaks ==> t == Plus(PassOver(f.up, f.script, rs, n + 1, breaks), failed + 1))
            && (f.luck == Lost ==> t == Plus(PassOver(f.up, f.script, rs, n + 1, breaks), failed + 1))
            && (f.luck == Served ==> t == Plus(PassOver(f.up, f.script, rs, n + 1, breaks), failed))
  {
  }

  lemma PassEnds(up: set<Addr>, script: seq<Step>, rs: seq<Peer>, breaks: bool, failed: nat)
    ensures Plus(PassOver(up, script, rs, |rs|, breaks), failed) == Tally(up, script, failed)
    ensures Plus(PassOver(up, script, rs, 0, breaks), 0) == PassOver(up, script, rs, 0, breaks)
  {
  }

  /** Every failure uses a step of the script up; without one nothing fails. */
  lemma {:induction false} PassUsesScript(up: set<Addr>, script: seq<Step>, rs: seq<Peer>, n: nat, breaks: bool)
    requires n <= |rs|
    ensures var t := PassOver(up, script, rs, n, breaks);
            |t.script| + t.failed <= |script| && (script == [] ==> t.script == [])
    decreases |rs| - n
  {
    if n < |rs| {
      var f := LuckOf(up, script, AddrOf(rs[n]));
      PassUsesScript(f.up, f.script, rs, n + 1, breaks);
    }
  }

  /** A follower that is up and stays up, and whose messages all get through, fails no contact. */
  ghost predicate Untroubled(up: set<Addr>, script: seq<Step>, rs: seq<Peer>) {
    && (forall i :: 0 <= i < |script| ==> script[i] == Step([], Delivered))
    && (forall i :: 0 <= i < |rs| ==> AddrOf(rs[i]) in up)
  }

  lemma {:induction false} UntroubledPass(up: set<Addr>, script: seq<Step>, rs: seq<Peer>, n: nat, breaks: bool)
    requires n <= |rs| && Untroubled(up, script, rs)
    ensures var t := PassOver(up, script, rs, n, breaks); t.failed == 0 && Untroubled(t.up, t.script, rs)
    decreases |rs| - n
  {
    if n < |rs| {
      var f := LuckOf(up, script, AddrOf(rs[n]));
      assert Untroubled(f.up, f.script, rs);
      UntroubledPass(f.up, f.script, rs, n + 1, breaks);
    }
  }

  /** Passes of the second phase, up to the first that every replica acknowledges. */
  datatype Passes = Passes(up: set<Addr>, script: seq<Step>, passes: nat, failures: nat)

  function SecondPhase(up: set<Addr>, script: seq<Step>, rs: seq<Peer>): Passes
    decreases |script|
  {
    var t := PassOver(up, script, rs, 0, true);
    PassUsesScript(up, script, rs, 0, true);
    if t.failed == 0 then Passes(t.up, t.script, 1, 0)
    else
      var r := SecondPhase(t.up, t.script, rs);
      r.(passes := r.passes + 1, failures := r.failures + t.failed)
  }

  lemma SecondPhaseStep(up: set<Addr>, script: seq<Step>, rs: seq<Peer>)
    ensures var t, r := PassOver(up, script, rs, 0, true), SecondPhase(up, script, rs);
            && (t.failed == 0 ==> r == Passes(t.up, t.script, 1, 0))
            && (t.failed > 0 ==>
                  && |t.script| < |script|
                  && var q := SecondPhase(t.up, t.script, rs);
                     r == Passes(q.up, q.script, q.passes + 1, q.failures + t.failed))
  {
    hide PassOver;
    PassUsesScript(up, script, rs, 0, true);
  }

  /** Every pass but the last has a contact that fails. */
  lemma {:induction false} PassesBound(up: set<Addr>, script: seq<Step>, rs: seq<Peer>)
    ensures var r := SecondPhase(up, script, rs);
            1 <= r.passes <= r.failures + 1 && |r.script| + r.failures <= |script|
    decreases |script|
  {
    hide PassOver;
    PassUsesScript(up, script, rs, 0, true);
    var t := PassOver(up, script, rs, 0, true);
    if t.failed > 0 {
      PassesBound(t.up, t.script, rs);
    }
  }

  lemma {:induction false} PassLosesNothing(up: set<Addr>, script: seq<Step>, rs: seq<Peer>, n: nat, breaks: bool)
    requires n <= |rs| && LosesNoReply(script)
    ensures LosesNoReply(PassOver(up, script, rs, n, breaks).script)
    decreases |rs| - n
  {
    hide LosesNoReply;
    if n < |rs| {
      var f := LuckOf(up, script, AddrOf(rs[n]));
      LuckLosesNothing(up, script, AddrOf(rs[n]));
      PassLosesNothing(f.up, f.script, rs, n + 1, breaks);
    }
  }

  lemma {:induction false} PassesLoseNothing(up: set<Addr>, script: seq<Step>, rs: seq<Peer>)
    requires LosesNoReply(script)
    ensures LosesNoReply(SecondPhase(up, script, rs).script)
    decreases |script|
  {
    hide LosesNoReply, PassOver;
    var t := PassOver(up, script, rs, 0, true);
    PassUsesScript(up, script, rs, 0, true);
    PassLosesNothing(up, script, rs, 0, true);
    if t.failed > 0 {
      PassesLoseNothing(t.up, t.script, rs);
    }
  }

  /** What a transaction leaves of the script, and who is up then: a poll and the passes after it. */
  function Course(up: set<Addr>, script: seq<Step>, rs: seq<Peer>): Passes {
    var poll := PassOver(up, script, rs, 0, false);
    SecondPhase(poll.up, poll.script, rs)
  }

  /** Every contact of the poll is answered. */
  predicate PollServed(up: set<Addr>, script: seq<Step>, rs: seq<Peer>) {
    PassOver(up, script, rs, 0, false).failed == 0
  }

  /** With all replicas up and all messages delivered there is one pass, whatever is left of the script. */
  lemma UntroubledCourse(up: set<Addr>, script: seq<Step>, rs: seq<Peer>)
    requires Untroubled(up, script, rs)
    ensures PollServed(up, script, rs) && Course(up, script, rs).passes == 1
  {
    hide PassOver, Untroubled;
    UntroubledPass(up, script, rs, 0, false);
    var poll := PassOver(up, script, rs, 0, false);
    UntroubledPass(poll.up, poll.script, rs, 0, true);
  }

  // ----- the leader's loops

  /** The first phase: the decision is to commit iff every replica can carry the operation out and says so. */
  method CollectVotes(leader: TpcLeader, op: Op, net: Net, ghost up: set<Addr>) returns (isCommit: bool, net': Net)
    requires leader.Valid() && |leader.Peers()| == leader.capacity && Placed(leader.Peers(), net.followers)
    requires AllSound(net.followers) && Quiet(Views(net.followers)) && AreUp(net.followers, up)
    ensures AllSound(net'.followers) && net'.followers.Keys == net.followers.Keys
    ensures var rs, v, v' := ReplicasOf(leader, op.key), Views(net.followers), Views(net'.followers);
            var poll := PassOver(up, net.script, rs, 0, false);
            && net'.script == poll.script && AreUp(net'.followers, poll.up)
            && (isCommit <==> Willing(v, rs, |rs|, op) && PollServed(up, net.script, rs))
            && Voting(v, v', rs, |rs|, op) && (isCommit ==> Bound(v, v', rs, |rs|, op))
  {
    hide *;
    ghost var rs, v0 := ReplicasOf(leader, op.key), Views(net.followers);
    NoVotesYet(v0, rs, op);
    var pri, p := leader.GetPrimary(op.key);
    PrimaryVisits(leader, op.key, p);
    var visited := 0;
    ghost var now, failed := up, 0;
    PassEnds(up, net.script, rs, false, 0);
    isCommit, net' := true, net;
    while pri != null && visited < leader.redundancy
      invariant 0 <= visited <= leader.redundancy && Visiting(leader, op.key, pri, visited)
      invariant AllSound(net'.followers) && net'.followers.Keys == net.followers.Keys && AreUp(net'.followers, now)
      invariant PassOver(up, net.script, rs, 0, false) == Plus(PassOver(now, net'.script, rs, visited, false), failed)
      invariant Voting(v0, Views(net'.followers), rs, visited, op)
      invariant isCommit ==> Bound(v0, Views(net'.followers), rs, visited, op)
      invariant isCommit <==> Willing(v0, rs, visited, op) && failed == 0
      decreases leader.redundancy - visited
    {
      VisitedReplica(leader, op.key, pri, visited, net.followers);
      VoteStep(v0, net', rs, visited, op);
      LuckDecides(net', now, AddrOf(pri.peer), ReqOf(op));
      PassStep(now, net'.script, rs, visited, false, failed);
      var (next, reply) := Exchange(net', AddrOf(pri.peer), ReqOf(op));
      if !(reply.Got? && reply.res.body == Some(MSG_COMMIT)) {
        isCommit := false;
      }
      if !reply.Got? {
        failed := failed + 1;
      }
      now := LuckOf(now, net'.script, AddrOf(pri.peer)).up;
      net' := next;
      SuccessorVisits(leader, op.key, pri, visited);
      pri := leader.GetSuccessor(pri);
      visited := visited + 1;
    }
    VisitedReplica(leader, op.key, pri, visited, net.followers);
    PassEnds(now, net'.script, rs, false, failed);
    ServedMeans(up, net.script, rs);
  }

  lemma ServedMeans(up: set<Addr>, script: seq<Step>, rs: seq<Peer>)
    ensures PollServed(up, script, rs) <==> PassOver(up, script, rs, 0, false).failed == 0
  {
  }

  /** One pass of the second phase. A follower that cannot be reached ends the pass. */
  method SendDecision(leader: TpcLeader, op: Op, commit: bool, net: Net, ghost v0: map<Addr, Disk>, ghost up: set<Addr>)
    returns (allAcked: bool, net': Net)
    requires leader.Valid() && |leader.Peers()| == leader.capacity && Placed(leader.Peers(), net.followers)
    requires AllSound(net.followers) && Quiet(v0) && AreUp(net.followers, up)
    requires Deciding(v0, Views(net.followers), ReplicasOf(leader, op.key), op, commit)
    ensures AllSound(net'.followers) && net'.followers.Keys == net.followers.Keys
    ensures var rs, v' := ReplicasOf(leader, op.key), Views(net'.followers);
            var pass := PassOver(up, net.script, rs, 0, true);
            && net'.script == pass.script && AreUp(net'.followers, pass.up) && (allAcked <==> pass.failed == 0)
            && Deciding(v0, v', rs, op, commit) && (allAcked ==> DoneUpTo(v0, v', rs, |rs|, op, commit))
  {
    hide *;
    ghost var rs := ReplicasOf(leader, op.key);
    assert DoneUpTo(v0, Views(net.followers), rs, 0, op, commit) by { NothingDone(v0, Views(net.followers), rs, op, commit); }
    allAcked, net' := true, net;
    ghost var now, failed := up, 0;
    PassEnds(up, net.script, rs, true, 0);
    var visited := 0;
    var pri, p := leader.GetPrimary(op.key);
    PrimaryVisits(leader, op.key, p);
    while pri != null && visited < leader.redundancy
      invariant 0 <= visited <= leader.redundancy && Visiting(leader, op.key, pri, visited)
      invariant AllSound(net'.followers) && net'.followers.Keys == net.followers.Keys && AreUp(net'.followers, now)
      invariant PassOver(up, net.script, rs, 0, true) == Plus(PassOver(now, net'.script, rs, visited, true), failed)
      invariant allAcked <==> failed == 0
      invariant Deciding(v0, Views(net'.followers), rs, op, commit)
      invariant allAcked ==> DoneUpTo(v0, Views(net'.followers), rs, visited, op, commit)
      decreases leader.redundancy - visited
    {
      VisitedReplica(leader, op.key, pri, visited, net.followers);
      DecideStep(v0, net', rs, visited, op, commit);
      LuckDecides(net', now, AddrOf(pri.peer), if commit then Commit else Abort);
      PassStep(now, net'.script, rs, visited, true, failed);
      var (next, reply) := Exchange(net', AddrOf(pri.peer), if commit then Commit else Abort);
      now := LuckOf(now, net'.script, AddrOf(pri.peer)).up;
      net' := next;
      if reply.NotConnected? {
        return false, net';
      }
      if !(reply.Got? && reply.res.typ == ACK) {
        allAcked, failed := false, failed + 1;
      }
      SuccessorVisits(leader, op.key, pri, visited);
      pri := leader.GetSuccessor(pri);
      visited := visited + 1;
    }
    VisitedReplica(leader, op.key, pri, visited, net.followers);
    PassEnds(now, net'.script, rs, true, failed);
  }

  lemma NothingDone(v0: map<Addr, Disk>, v: map<Addr, Disk>, rs: seq<Peer>, op: Op, commit: bool)
    ensures DoneUpTo(v0, v, rs, 0, op, commit)
  {
  }

  /**
   * tpcleader_handle_tpc for a PUT or DELETE. Whatever the network does, once it returns either
   * every replica has carried the operation out, or none has; no other follower has changed and
   * nobody is left prepared. It succeeds iff every replica could carry the operation out and every
   * contact of the poll was answered. The second phase takes at most one pass more than contacts
   * of it fail, and which contacts fail is a matter of who is up and of the script alone.
   */
  method Transact(leader: TpcLeader, op: Op, net: Net, ghost up: set<Addr>)
    returns (res: Response, net': Net, ghost passes: nat)
    requires leader.Valid() && |leader.Peers()| == leader.capacity && Placed(leader.Peers(), net.followers)
    requires AllSound(net.followers) && Quiet(Views(net.followers)) && AreUp(net.followers, up)
    ensures AllSound(net'.followers) && net'.followers.Keys == net.followers.Keys
    ensures var rs, v := ReplicasOf(leader, op.key), Views(net.followers);
            && res == (if Willing(v, rs, |rs|, op) && PollServed(up, net.script, rs) then Response(SUCCESS, None)
                       else Response(ERROR, Some("abort the command")))
            && Views(net'.followers) == Decided(v, rs, op, res.typ == SUCCESS)
            && Quiet(Views(net'.followers))
    ensures var course := Course(up, net.script, ReplicasOf(leader, op.key));
            && net'.script == course.script && AreUp(net'.followers, course.up)
            && passes == course.passes <= course.failures + 1
  {
    hide *;
    ghost var rs, v0 := ReplicasOf(leader, op.key), Views(net.followers);
    CourseIs(up, net.script, rs);
    ghost var now := PassOver(up, net.script, rs, 0, false).up;
    var commit;
    commit, net' := CollectVotes(leader, op, net, up);
    res := if commit then Response(SUCCESS, None) else Response(ERROR, Some("abort the command"));
    VotesAllowDecision(v0, Views(net'.followers), rs, op, commit);
    SamePlaces(leader.Peers(), net.followers, net'.followers);
    var allAcked := false;
    passes := 0;
    while !allAcked
      invariant AllSound(net'.followers) && net'.followers.Keys == net.followers.Keys && AreUp(net'.followers, now)
      invariant Placed(leader.Peers(), net'.followers)
      invariant Deciding(v0, Views(net'.followers), rs, op, commit)
      invariant allAcked ==> DoneUpTo(v0, Views(net'.followers), rs, |rs|, op, commit)
      invariant var course := Course(up, net.script, rs);
                if allAcked then course.script == net'.script && course.up == now && course.passes == passes
                else var rest := SecondPhase(now, net'.script, rs);
                     course.script == rest.script && course.up == rest.up && course.passes == passes + rest.passes
      decreases !allAcked, |net'.script|
    {
      SecondPhaseStep(now, net'.script, rs);
      ghost var pass := PassOver(now, net'.script, rs, 0, true);
      allAcked, net' := SendDecision(leader, op, commit, net', v0, now);
      now := pass.up;
      SamePlaces(leader.Peers(), net.followers, net'.followers);
      passes := passes + 1;
    }
    AllDone(v0, Views(net'.followers), rs, op, commit);
    DecidedIsQuiet(v0, rs, op, commit);
  }

  lemma CourseIs(up: set<Addr>, script: seq<Step>, rs: seq<Peer>)
    ensures var poll := PassOver(up, script, rs, 0, false); Course(up, script, rs) == SecondPhase(poll.up, poll.script, rs)
    ensures Course(up, script, rs).passes <= Course(up, script, rs).failures + 1
  {
    hide PassOver, SecondPhase;
    var poll := PassOver(up, script, rs, 0, false);
    PassesBound(poll.up, poll.script, rs);
  }
}
