/**
 * A follower as a state machine over its durable state: what each handler of kvserver.c
 * does to the disk, one durable write at a time, and what recovery makes of any disk a
 * crash can leave behind.
 */
module FollowerProtocol {
  import opened Common
  import opened KvMap
  import opened Messages

  /** A log entry with its data decoded. */
  datatype Record = Prepared(op: Op) | Committed | Aborted

  datatype Disk = Disk(log: seq<Record>, store: Store)

  datatype TpcState = TPC_INIT | TPC_WAIT | TPC_READY | TPC_ABORT | TPC_COMMIT

  /** `steps` lists the disk after each durable write, in order; a crash leaves one of them. */
  datatype Handled = Handled(disk: Disk, state: TpcState, reply: Response, steps: seq<Disk>)
  datatype Recovered = Recovered(disk: Disk, state: TpcState, steps: seq<Disk>)

  // ----- do_log

  function ApplyRecord(r: Record, m: Store): Store {
    if r.Prepared? then Apply(r.op, m) else m
  }

  /** The store after do_log has run over `log`. */
  function Replay(log: seq<Record>, m: Store): Store {
    if log == [] then m
    else ApplyRecord(log[|log| - 1], Replay(log[..|log| - 1], m))
  }

  /** The disks do_log passes through in its first `n` iterations. */
  function ReplaySteps(log: seq<Record>, m: Store, n: nat): seq<Disk>
    requires n <= |log|
  {
    if n == 0 then []
    else ReplaySteps(log, m, n - 1) + if log[n - 1].Prepared? then [Disk(log, Replay(log[..n], m))] else []
  }

  // ----- kvserver_handle_tpc

  function Prepare(disk: Disk, state: TpcState, op: Op): Handled {
    if state != TPC_INIT && state != TPC_WAIT then
      Handled(disk, state, Response(ERROR, Some(ERRMSG_INVALID_REQUEST)), [])
    else if Check(op, disk.store) != 0 then
      Handled(disk, state, Response(VOTE, Some(ErrorMessage(Check(op, disk.store)))), [])
    else
      var logged := disk.(log := disk.log + [Prepared(op)]);
      Handled(logged, TPC_READY, Response(VOTE, Some(MSG_COMMIT)), [logged])
  }

  function HandleCommit(disk: Disk, state: TpcState): Handled {
    if state != TPC_READY then Handled(disk, state, Response(ACK, None), [])
    else
      var log := disk.log + [Committed];
      var done := Disk([], Replay(log, disk.store));
      Handled(done, TPC_WAIT, Response(ACK, None),
              [Disk(log, disk.store)] + ReplaySteps(log, disk.store, |log|) + [done])
  }

  function HandleAbort(disk: Disk, state: TpcState): Handled {
    if state != TPC_READY then Handled(disk, state, Response(ACK, None), [])
    else
      var done := disk.(log := []);
      Handled(done, TPC_WAIT, Response(ACK, None), [disk.(log := disk.log + [Aborted]), done])
  }

  function HandleGet(disk: Disk, state: TpcState, key: string): Handled {
    var reply :=
      if |key| > MAX_KEYLEN then Response(ERROR, Some(ErrorMessage(ERRKEYLEN)))
      else if key in disk.store then Response(GETRESP, Some(disk.store[key]))
      else Response(ERROR, Some(ErrorMessage(ERRNOKEY)));
    Handled(disk, state, reply, [])
  }

  /** A message the handler knows nothing of leaves the zeroed response, which is never sent. */
  function Handle(disk: Disk, state: TpcState, req: Request): Handled {
    match req
    case Put(k, v) => Prepare(disk, state, PutOp(k, v))
    case Del(k) => Prepare(disk, state, DelOp(k))
    case Commit => HandleCommit(disk, state)
    case Abort => HandleAbort(disk, state)
    case Get(k) => HandleGet(disk, state, k)
    case _ => Handled(disk, state, Response(INDEX, None), [])
  }

  // ----- kvserver_rebuild_state, started by kvserver_init in TPC_INIT

  function Recover(disk: Disk): Recovered {
    if disk.log == [] then Recovered(disk, TPC_INIT, [])
    else match disk.log[|disk.log| - 1]
      case Prepared(_) => Recovered(disk, TPC_READY, [])
      case Committed =>
        var done := Disk([], Replay(disk.log, disk.store));
        Recovered(done, TPC_WAIT, ReplaySteps(disk.log, disk.store, |disk.log|) + [done])
      case Aborted =>
        Recovered(disk.(log := []), TPC_WAIT, [disk.(log := [])])
  }

  /** The disk a restart reaches when nothing interrupts it. */
  function Settled(disk: Disk): Disk {
    Recover(disk).disk
  }

  // ----- replaying a log

  /** What a log's records, replayed in order, last did to key `k`; None if they left it alone. */
  function LastEffect(log: seq<Record>, k: string): Option<Option<string>> {
    if log == [] then None
    else
      var r := log[|log| - 1];
      if r.Prepared? && r.op.key == k && (r.op.PutOp? ==> Check(r.op, map[]) == 0)
         && 0 < |k| <= MAX_KEYLEN
      then Some(if r.op.PutOp? then Some(r.op.value) else None)
      else LastEffect(log[..|log| - 1], k)
  }

  lemma {:induction false} ReplayAt(log: seq<Record>, m: Store, k: string)
    ensures Lookup(Replay(log, m), k) == match LastEffect(log, k) case None => Lookup(m, k) case Some(v) => v
  {
    if log != [] {
      ReplayAt(log[..|log| - 1], m, k);
    }
  }

  lemma SameStore(m: Store, n: Store)
    requires forall k :: Lookup(m, k) == Lookup(n, k)
    ensures m == n
  {
    forall k ensures k in m <==> k in n { assert Lookup(m, k) == Lookup(n, k); }
    forall k | k in m ensures m[k] == n[k] { assert Lookup(m, k) == Lookup(n, k); }
  }

  /** A prefix of a log has no effect the whole log does not overwrite. */
  lemma {:induction false} PrefixEffect(log: seq<Record>, n: nat, k: string)
    requires n <= |log|
    ensures LastEffect(log, k) == None ==> LastEffect(log[..n], k) == None
    decreases |log|
  {
    if n < |log| {
      PrefixEffect(log[..|log| - 1], n, k);
      assert log[..|log| - 1][..n] == log[..n];
    } else {
      assert log[..n] == log;
    }
  }

  /**
   * Replaying from the start after any part of the log was already replayed changes nothing,
   * for every log: also when a second delete of the same key finds it gone.
   */
  lemma ReplayIsIdempotent(log: seq<Record>, n: nat, m: Store)
    requires n <= |log|
    ensures Replay(log, Replay(log[..n], m)) == Replay(log, m)
  {
    forall k ensures Lookup(Replay(log, Replay(log[..n], m)), k) == Lookup(Replay(log, m), k) {
      ReplayAt(log, Replay(log[..n], m), k);
      ReplayAt(log[..n], m, k);
      ReplayAt(log, m, k);
      PrefixEffect(log, n, k);
    }
    SameStore(Replay(log, Replay(log[..n], m)), Replay(log, m));
  }

  // ----- recovery after recovery

  /** Two recoveries a leader cannot tell apart: TPC_INIT and TPC_WAIT are treated alike everywhere. */
  predicate SameRecovery(disk1: Disk, state1: TpcState, disk2: Disk, state2: TpcState) {
    disk1 == disk2 && (state1 == state2 || (state1 in {TPC_INIT, TPC_WAIT} && state2 in {TPC_INIT, TPC_WAIT}))
  }

  predicate RecoversTo(d: Disk, disk: Disk, state: TpcState) {
    SameRecovery(Recover(d).disk, Recover(d).state, disk, state)
  }

  /** The disk a crash leaves once `k` of the durable writes `steps` have been made. */
  function AfterWrites(disk: Disk, steps: seq<Disk>, k: nat): Disk {
    if k == 0 || steps == [] then disk
    else steps[(if k < |steps| then k else |steps|) - 1]
  }

  lemma {:induction false} ReplayStepsAre(log: seq<Record>, m: Store, n: nat)
    requires n <= |log|
    ensures forall d :: d in ReplaySteps(log, m, n) ==>
              exists i :: 0 <= i <= |log| && d == Disk(log, Replay(log[..i], m))
  {
    if n > 0 {
      ReplayStepsAre(log, m, n - 1);
    }
  }

  /** Interrupting recovery after any write and recovering again ends where the first recovery would. */
  lemma RecoveryRestarts(disk: Disk, k: nat)
    ensures RecoversTo(AfterWrites(disk, Recover(disk).steps, k), Recover(disk).disk, Recover(disk).state)
  {
    var log, m := disk.log, disk.store;
    var d := AfterWrites(disk, Recover(disk).steps, k);
    if d in ReplaySteps(log, m, |log|) && log != [] && log[|log| - 1] == Committed {
      ReplayStepsAre(log, m, |log|);
      var i :| 0 <= i <= |log| && d == Disk(log, Replay(log[..i], m));
      ReplayIsIdempotent(log, i, m);
    }
  }

  /** A restart that crashes after `ks[0]` writes, then one that crashes after `ks[1]`, and so on. */
  function CrashedRecoveries(disk: Disk, ks: seq<nat>): Disk
    decreases |ks|
  {
    if ks == [] then disk
    else CrashedRecoveries(AfterWrites(disk, Recover(disk).steps, ks[0]), ks[1..])
  }

  lemma {:induction false} RecoveryConverges(disk: Disk, ks: seq<nat>)
    ensures RecoversTo(CrashedRecoveries(disk, ks), Recover(disk).disk, Recover(disk).state)
    decreases |ks|
  {
    if ks != [] {
      RecoveryRestarts(disk, ks[0]);
      RecoveryConverges(AfterWrites(disk, Recover(disk).steps, ks[0]), ks[1..]);
    }
  }

  /** Once a COMMIT is logged it is always finished, and an operation with no logged COMMIT is never applied. */
  lemma LoggedCommitDecides(disk: Disk, ks: seq<nat>)
    ensures disk.log != [] && disk.log[|disk.log| - 1] == Committed ==>
              Settled(CrashedRecoveries(disk, ks)) == Disk([], Replay(disk.log, disk.store))
    ensures disk.log == [] || disk.log[|disk.log| - 1] != Committed ==>
              Settled(CrashedRecoveries(disk, ks)).store == disk.store
  {
    RecoveryConverges(disk, ks);
  }

  // ----- what holds between two requests

  /** A yes vote is a promise: READY holds exactly one operation that can still be carried out. */
  predicate AtRest(disk: Disk, state: TpcState) {
    match state
    case TPC_READY => |disk.log| == 1 && disk.log[0].Prepared? && Check(disk.log[0].op, disk.store) == 0
    case TPC_INIT => disk.log == []
    case TPC_WAIT => disk.log == []
    case _ => false
  }

  lemma HandlersKeepAtRest(disk: Disk, state: TpcState, req: Request)
    requires AtRest(disk, state)
    ensures AtRest(Handle(disk, state, req).disk, Handle(disk, state, req).state)
    ensures req != Commit ==> Handle(disk, state, req).disk.store == disk.store
    ensures state == TPC_READY && req != Commit && req != Abort ==>
              Handle(disk, state, req).disk == disk && Handle(disk, state, req).state == TPC_READY
  {
  }

  /** A vote to commit is given exactly when the operation has been promised, from an empty log. */
  lemma VoteIsPromise(disk: Disk, state: TpcState, req: Request)
    requires AtRest(disk, state) && (req.Put? || req.Del?)
    ensures var h := Handle(disk, state, req);
            var op := if req.Put? then PutOp(req.key, req.value) else DelOp(req.key);
            && (h.reply == Response(VOTE, Some("commit")) <==>
                  disk.log == [] && h.state == TPC_READY && h.disk == Disk([Prepared(op)], disk.store))
            && (h.reply != Response(VOTE, Some("commit")) ==> h.disk == disk && h.state == state)
  {
    hide ErrorMessage;
    if state != TPC_READY {
      RefusalIsNoCommitVote(Check(if req.Put? then PutOp(req.key, req.value) else DelOp(req.key), disk.store));
      assert disk.log + [Prepared(PutOp("", ""))] == [Prepared(PutOp("", ""))];
    }
  }

  /** The answer to every PUT, refusals spelled out. */
  lemma PutReplies(disk: Disk, state: TpcState, key: string, value: string)
    requires AtRest(disk, state)
    ensures Handle(disk, state, Put(key, value)).reply ==
              if state == TPC_READY then Response(ERROR, Some("error: invalid request"))
              else if key == "" || |key| > 1024 then Response(VOTE, Some("error: improper key length"))
              else if |value| > 1024 then Response(VOTE, Some("error: value too long"))
              else Response(VOTE, Some("commit"))
  {
  }

  lemma DelReplies(disk: Disk, state: TpcState, key: string)
    requires AtRest(disk, state)
    ensures Handle(disk, state, Del(key)).reply ==
              if state == TPC_READY then Response(ERROR, Some("error: invalid request"))
              else if key == "" || |key| > 1024 then Response(VOTE, Some("error: improper key length"))
              else if key !in disk.store then Response(VOTE, Some("error: no key"))
              else Response(VOTE, Some("commit"))
  {
  }

  /** A read is answered in every state and changes nothing. */
  lemma GetReplies(disk: Disk, state: TpcState, key: string)
    ensures var h := Handle(disk, state, Get(key));
            && h.disk == disk && h.state == state && h.steps == []
            && h.reply == if |key| > 1024 then Response(ERROR, Some("error: improper key length"))
                          else if key in disk.store then Response(GETRESP, Some(disk.store[key]))
                          else Response(ERROR, Some("error: no key"))
  {
  }

  /** Both decisions are acknowledged in every state and leave no promise behind; only a COMMIT that finds one changes the store. */
  lemma DecisionReplies(disk: Disk, state: TpcState, req: Request)
    requires AtRest(disk, state) && (req == Commit || req == Abort)
    ensures var h := Handle(disk, state, req);
            && h.reply == Response(ACK, None) && h.disk.log == []
            && h.state == (if state == TPC_READY then TPC_WAIT else state)
            && h.disk.store == if state == TPC_READY && req == Commit then Apply(disk.log[0].op, disk.store) else disk.store
  {
    if state == TPC_READY && req == Commit {
      CommitPerforms(disk, state);
    }
  }

  /** A commit in READY performs the promised operation: the replayed checks cannot fail. */
  lemma CommitPerforms(disk: Disk, state: TpcState)
    requires AtRest(disk, state) && state == TPC_READY
    ensures Handle(disk, state, Commit).disk.log == []
    ensures Handle(disk, state, Commit).disk.store ==
              match disk.log[0].op
              case PutOp(k, v) => disk.store[k := v]
              case DelOp(k) => disk.store - {k}
  {
    var log := disk.log + [Committed];
    assert log[..1] == disk.log && disk.log[..0] == [];
    assert Replay(disk.log, disk.store) == ApplyRecord(disk.log[0], Replay([], disk.store));
  }

  /** A resent COMMIT or ABORT finds nothing to do. */
  lemma ResendIsHarmless(disk: Disk, state: TpcState, req: Request)
    requires AtRest(disk, state) && (req == Commit || req == Abort)
    ensures var h := Handle(disk, state, req);
            Handle(h.disk, h.state, Commit).disk == h.disk && Handle(h.disk, h.state, Abort).disk == h.disk
            && Handle(h.disk, h.state, Commit).reply.typ == ACK && Handle(h.disk, h.state, Abort).reply.typ == ACK
  {
  }

  /** What a restart makes of each log a handler can leave: nothing, a promise, or a decision to be finished. */
  lemma RestartSpelledOut(op: Op, m: Store)
    ensures Recover(Disk([], m)) == Recovered(Disk([], m), TPC_INIT, [])
    ensures Recover(Disk([Prepared(op)], m)) == Recovered(Disk([Prepared(op)], m), TPC_READY, [])
    ensures Recover(Disk([Prepared(op), Aborted], m)) == Recovered(Disk([], m), TPC_WAIT, [Disk([], m)])
    ensures var r := Recover(Disk([Prepared(op), Committed], m));
            && r.state == TPC_WAIT && r.disk == Disk([], Apply(op, m))
            && r.steps == [Disk([Prepared(op), Committed], Apply(op, m)), Disk([], Apply(op, m))]
  {
    hide Apply;
    var log := [Prepared(op), Committed];
    assert log[..1] == [Prepared(op)] && log[..0] == [] && log[..2] == log && [Prepared(op)][..0] == [];
    assert Replay([Prepared(op)], m) == Apply(op, m);
    assert Replay(log, m) == Apply(op, m);
    assert ReplaySteps(log, m, 1) == [Disk(log, Apply(op, m))];
    assert ReplaySteps(log, m, 2) == ReplaySteps(log, m, 1) + [];
  }

  lemma AfterWritesIs(disk: Disk, steps: seq<Disk>, k: nat)
    ensures if k == 0 || steps == [] then AfterWrites(disk, steps, k) == disk else AfterWrites(disk, steps, k) in steps
  {
  }

  /** A restart finds a follower at rest as it was. */
  lemma RestSurvivesRestart(disk: Disk, state: TpcState)
    requires AtRest(disk, state)
    ensures RecoversTo(disk, disk, state)
  {
  }

  /** Whichever write of a commit was the last, recovery finishes the commit. */
  lemma CrashedCommitFinishes(disk: Disk, d: Disk)
    requires d in HandleCommit(disk, TPC_READY).steps
    ensures RecoversTo(d, HandleCommit(disk, TPC_READY).disk, TPC_WAIT)
  {
    var log := disk.log + [Committed];
    if d in ReplaySteps(log, disk.store, |log|) {
      ReplayStepsAre(log, disk.store, |log|);
      var i :| 0 <= i <= |log| && d == Disk(log, Replay(log[..i], disk.store));
      hide ReplaySteps, Replay;
      ReplayIsIdempotent(log, i, disk.store);
    }
  }

  lemma CrashedOtherFinishes(disk: Disk, state: TpcState, req: Request, d: Disk)
    requires AtRest(disk, state) && (req != Commit || state != TPC_READY) && d in Handle(disk, state, req).steps
    ensures RecoversTo(d, Handle(disk, state, req).disk, Handle(disk, state, req).state)
  {
    hide ReplaySteps, Replay, Check, ErrorMessage;
  }

  lemma NoWriteNoChange(disk: Disk, state: TpcState, req: Request)
    requires Handle(disk, state, req).steps == []
    ensures Handle(disk, state, req).disk == disk && Handle(disk, state, req).state == state
  {
    hide ReplaySteps, Replay, Check, ErrorMessage;
  }

  /**
   * A handler cut short by a crash is all or nothing: before its first durable write recovery
   * gives back the state it started from, and from then on the state it would have ended in.
   */
  lemma CrashedHandlerIsAtomic(disk: Disk, state: TpcState, req: Request, k: nat)
    requires AtRest(disk, state)
    ensures var h := Handle(disk, state, req);
            if k == 0 then RecoversTo(AfterWrites(disk, h.steps, k), disk, state)
            else RecoversTo(AfterWrites(disk, h.steps, k), h.disk, h.state)
  {
    var h := Handle(disk, state, req);
    assert req == Commit ==> h == HandleCommit(disk, state);
    assert state == TPC_READY ==> HandleCommit(disk, state).state == TPC_WAIT;
    hide *;
    AfterWritesIs(disk, h.steps, k);
    RestSurvivesRestart(disk, state);
    if k > 0 && h.steps != [] {
      if req == Commit && state == TPC_READY {
        CrashedCommitFinishes(disk, AfterWrites(disk, h.steps, k));
      } else {
        CrashedOtherFinishes(disk, state, req, AfterWrites(disk, h.steps, k));
      }
    } else if h.steps == [] {
      NoWriteNoChange(disk, state, req);
    }
  }

  // ----- a crash inside tpclog_clear_log, which the durable steps above do not split

  /** `log` is what a restart reads: tpclog_init and the iterator stop at the first missing file. */
  ghost predicate ReadsAs(files: map<nat, Record>, log: seq<Record>) {
    |log| !in files && forall i :: 0 <= i < |log| ==> i in files && files[i] == log[i]
  }

  ghost function LeftAfter(log: seq<Record>, removed: nat): map<nat, Record> {
    map i: nat | removed <= i < |log| :: log[i]
  }

  /**
   * Files go oldest first. Once the first is gone a restart reads an empty log, as it should;
   * but the next record to be logged is read back alone iff no file 1.log was left behind.
   */
  lemma InterruptedClear(log: seq<Record>, removed: nat, later: Record)
    requires 0 < removed <= |log|
    ensures ReadsAs(LeftAfter(log, removed), [])
    ensures ReadsAs(LeftAfter(log, removed)[0 := later], [later]) <==> !(removed == 1 && |log| > 1)
    ensures removed == 1 ==> ReadsAs(LeftAfter(log, removed)[0 := later], [later] + log[1..])
  {
  }

  /** So a follower that crashes between the two removals after a COMMIT applies its next vote uncommitted. */
  lemma StaleCommitAppliesVote(done: Op, later: Op, m: Store)
    requires Check(later, m) == 0
    ensures ReadsAs(LeftAfter([Prepared(done), Committed], 1)[0 := Prepared(later)], [Prepared(later), Committed])
    ensures Settled(Disk([Prepared(later), Committed], m)) == Disk([], Apply(later, m))
    ensures Settled(Disk([Prepared(later)], m)) == Disk([Prepared(later)], m)
  {
    InterruptedClear([Prepared(done), Committed], 1, Prepared(later));
    CommitPerforms(Disk([Prepared(later)], m), TPC_READY);
    assert [Prepared(later)] + [Committed] == [Prepared(later), Committed];
  }

  /** After an ABORT it forgets its next vote instead, and acknowledges the COMMIT that it then does not carry out. */
  lemma StaleAbortDropsVote(done: Op, later: Op, m: Store)
    ensures ReadsAs(LeftAfter([Prepared(done), Aborted], 1)[0 := Prepared(later)], [Prepared(later), Aborted])
    ensures var restarted := Recover(Disk([Prepared(later), Aborted], m));
            && restarted.disk == Disk([], m)
            && Handle(restarted.disk, restarted.state, Commit).disk == Disk([], m)
            && Handle(restarted.disk, restarted.state, Commit).reply == Response(ACK, None)
    ensures Recover(Disk([Prepared(later)], m)) == Recovered(Disk([Prepared(later)], m), TPC_READY, [])
  {
    InterruptedClear([Prepared(done), Aborted], 1, Prepared(later));
  }
}
