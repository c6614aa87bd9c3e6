/** kvserver.c: one follower process over its store directory and its log. */
module KvServer {
  import opened Common
  import opened KvMap
  import opened Messages
  import opened FollowerProtocol
  import CS = ChainStore
  import TL = TpcLog

  /** How a record is written in the log. */
  function EntryOf(r: Record): TL.LogEntry {
    match r
    case Prepared(PutOp(k, v)) => TL.EntryFor(PUTREQ, k, v)
    case Prepared(DelOp(k)) => TL.EntryFor(DELREQ, k, "")
    case Committed => TL.EntryFor(COMMIT, "", "")
    case Aborted => TL.EntryFor(ABORT, "", "")
  }

  ghost predicate OnDisk(entries: seq<TL.LogEntry>, records: seq<Record>) {
    && |entries| == |records|
    && (forall i :: 0 <= i < |records| ==> entries[i] == EntryOf(records[i]) && CleanRecord(records[i]))
  }

  ghost predicate LogFiles(files: map<nat, TL.LogEntry>, records: seq<Record>) {
    && (forall i: nat :: i in files <==> i < |records|)
    && (forall i: nat :: i in files ==> files[i] == EntryOf(records[i]) && CleanRecord(records[i]))
  }

  predicate CleanRecord(r: Record) {
    r.Prepared? ==> IsCString(r.op.key) && (r.op.PutOp? ==> IsCString(r.op.value))
  }

  predicate CleanRequest(req: Request) {
    match req
    case Get(k) => IsCString(k)
    case Put(k, v) => IsCString(k) && IsCString(v)
    case Del(k) => IsCString(k)
    case _ => true
  }

  /** The offset just after the first NUL, where a PUT entry keeps its value; None stands for NULL. */
  method ParseLog(data: string) returns (r: Option<nat>)
    ensures r == if StrLen(data, 0) < |data| then Some(StrLen(data, 0) + 1) else None
  {
    var i := 0;
    while i < |data|
      invariant 0 <= i <= |data| && StrLen(data, 0) == i + StrLen(data, i)
    {
      if data[i] == NUL {
        return Some(i + 1);
      }
      i := i + 1;
    }
    r := None;
  }

  /** A logged operation is decoded to itself. */
  lemma RecordRoundTrip(r: Record)
    requires r.Prepared? && CleanRecord(r)
    ensures CStrAt(EntryOf(r).data, 0) == r.op.key
    ensures r.op.PutOp? ==>
              StrLen(EntryOf(r).data, 0) == |r.op.key| < |EntryOf(r).data|
              && CStrAt(EntryOf(r).data, |r.op.key| + 1) == r.op.value
  {
    var data := EntryOf(r).data;
    CStrRoundTrip(data, 0, r.op.key);
    if r.op.PutOp? {
      CStrRoundTrip(data, |r.op.key| + 1, r.op.value);
    }
  }

  lemma ReplayEnds(log: seq<Record>, m: Store)
    ensures Replay(log[..0], m) == m && ReplaySteps(log, m, 0) == [] && log[..|log|] == log
  {
  }

  lemma ReplayNext(log: seq<Record>, m: Store, n: nat)
    requires n < |log|
    ensures Replay(log[..n + 1], m) == ApplyRecord(log[n], Replay(log[..n], m))
    ensures ReplaySteps(log, m, n + 1) ==
            ReplaySteps(log, m, n) + if log[n].Prepared? then [Disk(log, Replay(log[..n + 1], m))] else []
  {
    assert log[..n + 1][..n] == log[..n];
  }

  /** A directory that holds a log is read as that log. */
  lemma FilesAreLog(files: map<nat, TL.LogEntry>, records: seq<Record>, nextid: nat)
    requires LogFiles(files, records) && nextid !in files && forall i: nat :: i < nextid ==> i in files
    ensures nextid == |records| && TL.Contiguous(files)
  {
    assert |records| !in files;
  }

  class KvServer {
    const store: CS.KvStore
    const log: TL.TpcLog
    var state: TpcState
    ghost var records: seq<Record>
    /** Every disk this process has left behind it, one per durable write. */
    ghost var writes: seq<Disk>

    ghost predicate Valid()
      reads `records, store, log`files, log`nextid
    {
      store.Valid() && log.Valid() && OnDisk(log.Entries(), records)
    }

    ghost function Disk(): Disk
      requires Valid()
      reads `records, store, log`files, log`nextid
    {
      FollowerProtocol.Disk(records, store.Map())
    }

    lemma Parts()
      requires Valid()
      ensures store.Valid() && log.Valid() && |log.Entries()| == |records|
      ensures Disk() == FollowerProtocol.Disk(records, store.Map())
    {
    }

    lemma Started()
      requires store.Valid() && log.Valid() && log.nextid == |records| && LogFiles(log.files, records)
      ensures Valid()
    {
      hide CS.KvStore.Valid, EntryOf, CleanRecord;
    }

    /** kvserver_init after a start or a restart on the files of an earlier run. */
    constructor (store: CS.KvStore, files: map<nat, TL.LogEntry>, ghost records: seq<Record>)
      requires store.Valid() && LogFiles(files, records)
      modifies store
      ensures Valid() && this.store == store && fresh(log)
      ensures var r := Recover(FollowerProtocol.Disk(records, old(store.Map())));
              Disk() == r.disk && state == r.state && writes == r.steps
    {
      hide *;
      this.store := store;
      log := new TL.TpcLog(files);
      state := TPC_INIT;
      this.records, writes := records, [];
      new;
      FilesAreLog(files, records, log.nextid);
      Started();
      Parts();
      RebuildState();
    }

    method Get(key: string) returns (r: int, value: string)
      requires Valid() && IsCString(key)
      ensures r == if |key| > MAX_KEYLEN then ERRKEYLEN else if key in Disk().store then 0 else ERRNOKEY
      ensures r == 0 ==> value == Disk().store[key]
    {
      if |key| > MAX_KEYLEN {
        return ERRKEYLEN, "";
      }
      r, value := store.Get(key);
    }

    method PutCheck(key: string, value: string) returns (r: int)
      requires Valid() && IsCString(key)
      ensures r == Check(PutOp(key, value), Disk().store)
    {
      if |key| > MAX_KEYLEN || |key| == 0 {
        return ERRKEYLEN;
      }
      if |value| > MAX_VALLEN {
        return ERRVALLEN;
      }
      r := store.PutCheck(key, value);
    }

    method DelCheck(key: string) returns (r: int)
      requires Valid() && IsCString(key)
      ensures r == Check(DelOp(key), Disk().store)
    {
      if |key| > MAX_KEYLEN || |key| == 0 {
        return ERRKEYLEN;
      }
      r := store.DelCheck(key);
    }

    method Put(key: string, value: string) returns (r: int)
      requires Valid() && IsCString(key) && IsCString(value)
      modifies store
      ensures Valid()
      ensures r == Check(PutOp(key, value), old(Disk().store))
      ensures Disk().store == Apply(PutOp(key, value), old(Disk().store))
    {
      hide CS.KvStore.Valid, CS.Contents, TL.TpcLog.Valid, TL.TpcLog.Entries;
      r := PutCheck(key, value);
      if r < 0 {
        return;
      }
      r := store.Put(key, value);
    }

    method Del(key: string) returns (r: int)
      requires Valid() && IsCString(key)
      modifies store
      ensures Valid()
      ensures r == Check(DelOp(key), old(Disk().store))
      ensures Disk().store == Apply(DelOp(key), old(Disk().store))
    {
      hide CS.KvStore.Valid, CS.Contents, TL.TpcLog.Valid, TL.TpcLog.Entries;
      r := DelCheck(key);
      if r < 0 {
        return;
      }
      r := store.Del(key);
    }

    /** tpclog_log, with the disk it leaves. */
    method LogRecord(ghost record: Record, typ: MsgType, key: string, value: string)
      requires Valid() && EntryOf(record) == TL.EntryFor(typ, key, value) && CleanRecord(record)
      requires TL.Loggable(typ)
      modifies log, `records, `writes
      ensures Valid()
      ensures Disk() == old(Disk()).(log := old(records) + [record])
      ensures writes == old(writes) + [Disk()]
    {
      var _ := log.Log(typ, key, value);
      records := records + [record];
      writes := writes + [Disk()];
    }

    method ClearLog()
      requires Valid()
      modifies log, `records, `writes
      ensures Valid()
      ensures Disk() == old(Disk()).(log := [])
      ensures writes == old(writes) + [Disk()]
    {
      log.ClearLog();
      records := [];
      writes := writes + [Disk()];
    }

    /** The body of the loop of do_log: carry out the next entry. */
    method DoNext()
      requires Valid() && log.iterpos < |records|
      modifies store, log`iterpos, `writes
      ensures Valid() && log.iterpos == old(log.iterpos) + 1
      ensures store.Map() == ApplyRecord(records[old(log.iterpos)], old(store.Map()))
      ensures writes == old(writes) + if records[old(log.iterpos)].Prepared? then [Disk()] else []
    {
      hide CS.KvStore.Valid, CS.Contents, TL.TpcLog.Valid, TL.TpcLog.Entries, Check, Apply, StrLen;
      ghost var record := records[log.iterpos];
      var next := log.IterateNext();
      var entry := next.value;
      assert entry == EntryOf(record) && CleanRecord(record);
      if record.Prepared? {
        RecordRoundTrip(record);
      }
      if entry.typ == PUTREQ {
        var value := ParseLog(entry.data);
        var _ := Put(CStrAt(entry.data, 0), CStrAt(entry.data, value.value));
        writes := writes + [Disk()];
      } else if entry.typ == DELREQ {
        var _ := Del(CStrAt(entry.data, 0));
        writes := writes + [Disk()];
      }
    }

    /** Do all the commands of the log. */
    method DoLog()
      requires Valid()
      modifies store, log`iterpos, `writes
      ensures Valid()
      ensures Disk() == old(Disk()).(store := Replay(records, old(store.Map())))
      ensures writes == old(writes) + ReplaySteps(records, old(store.Map()), |records|)
    {
      hide *;
      Parts();
      ghost var m := store.Map();
      ReplayEnds(records, m);
      log.IterateBegin();
      var more := log.IterateHasNext();
      while more
        invariant Valid() && store.Valid() && 0 <= log.iterpos <= |records|
        invariant more <==> log.iterpos < |records|
        invariant store.Map() == Replay(records[..log.iterpos], m)
        invariant writes == old(writes) + ReplaySteps(records, m, log.iterpos)
        decreases |records| - log.iterpos
      {
        ReplayNext(records, m, log.iterpos);
        DoNext();
        Parts();
        more := log.IterateHasNext();
      }
      Parts();
    }

    method HandlePut(key: string, value: string) returns (res: Response)
      requires Valid() && IsCString(key) && IsCString(value)
      modifies this, store, log
      ensures Valid()
      ensures var h := Prepare(old(Disk()), old(state), PutOp(key, value));
              Disk() == h.disk && state == h.state && res == h.reply && writes == old(writes) + h.steps
    {
      hide CS.KvStore.Valid, CS.Contents, TL.TpcLog.Valid, TL.TpcLog.Entries, OnDisk, Replay, ReplaySteps, Check, ErrorMessage;
      if state == TPC_INIT || state == TPC_WAIT {
        var check := PutCheck(key, value);
        if check == 0 {
          LogRecord(Prepared(PutOp(key, value)), PUTREQ, key, value);
          res := Response(VOTE, Some(MSG_COMMIT));
          state := TPC_READY;
        } else {
          res := Response(VOTE, Some(ErrorMessage(check)));
        }
      } else {
        res := Response(ERROR, Some(ERRMSG_INVALID_REQUEST));
      }
    }

    method HandleDel(key: string) returns (res: Response)
      requires Valid() && IsCString(key)
      modifies this, store, log
      ensures Valid()
      ensures var h := Prepare(old(Disk()), old(state), DelOp(key));
              Disk() == h.disk && state == h.state && res == h.reply && writes == old(writes) + h.steps
    {
      hide CS.KvStore.Valid, CS.Contents, TL.TpcLog.Valid, TL.TpcLog.Entries, OnDisk, Replay, ReplaySteps, Check, ErrorMessage;
      if state == TPC_INIT || state == TPC_WAIT {
        var check := DelCheck(key);
        if check == 0 {
          LogRecord(Prepared(DelOp(key)), DELREQ, key, "");
          res := Response(VOTE, Some(MSG_COMMIT));
          state := TPC_READY;
        } else {
          res := Response(VOTE, Some(ErrorMessage(check)));
        }
      } else {
        res := Response(ERROR, Some(ERRMSG_INVALID_REQUEST));
      }
    }

    method HandleDecision(commit: bool) returns (res: Response)
      requires Valid()
      modifies this, store, log
      ensures Valid()
      ensures var h := Handle(old(Disk()), old(state), if commit then Commit else Abort);
              Disk() == h.disk && state == h.state && res == h.reply && writes == old(writes) + h.steps
    {
      hide CS.KvStore.Valid, CS.Contents, TL.TpcLog.Valid, TL.TpcLog.Entries, OnDisk, Replay, ReplaySteps, Check, ErrorMessage;
      res := Response(ACK, None);
      if state == TPC_READY {
        if commit {
          LogRecord(Committed, COMMIT, "", "");
          state := TPC_COMMIT;
          DoLog();
        } else {
          LogRecord(Aborted, ABORT, "", "");
          state := TPC_ABORT;
        }
        ClearLog();
        state := TPC_WAIT;
      }
    }

    method HandleTpc(req: Request) returns (res: Response)
      requires Valid() && CleanRequest(req)
      modifies this, store, log
      ensures Valid()
      ensures var h := Handle(old(Disk()), old(state), req);
              Disk() == h.disk && state == h.state && res == h.reply && writes == old(writes) + h.steps
    {
      hide CS.KvStore.Valid, CS.Contents, TL.TpcLog.Valid, TL.TpcLog.Entries, OnDisk, Prepare, HandleCommit, HandleAbort;
      match req
      case Put(key, value) => res := HandlePut(key, value);
      case Del(key) => res := HandleDel(key);
      case Commit => res := HandleDecision(true);
      case Abort => res := HandleDecision(false);
      case Get(key) =>
        var r, value := Get(key);
        res := if r != 0 then Response(ERROR, Some(ErrorMessage(r))) else Response(GETRESP, Some(value));
      case _ => res := Response(INDEX, None);
    }

    /** The loop of kvserver_rebuild_state: run through the log and keep its last entry. */
    method LastEntry() returns (last: Option<TL.LogEntry>)
      requires Valid()
      modifies log`iterpos
      ensures last == if records == [] then None else Some(EntryOf(records[|records| - 1]))
    {
      hide CS.KvStore.Valid, CS.Contents, TL.TpcLog.Valid, TL.TpcLog.Entries, EntryOf, CleanRecord;
      last := None;
      log.IterateBegin();
      var more := log.IterateHasNext();
      while more
        invariant Valid() && 0 <= log.iterpos <= |records| && (more <==> log.iterpos < |records|)
        invariant last == if log.iterpos == 0 then None else Some(EntryOf(records[log.iterpos - 1]))
        decreases |records| - log.iterpos
      {
        last := log.IterateNext();
        more := log.IterateHasNext();
      }
    }

    method RebuildState()
      requires Valid() && state == TPC_INIT
      modifies this, store, log
      ensures Valid()
      ensures var r := Recover(old(Disk()));
              Disk() == r.disk && state == r.state && writes == old(writes) + r.steps
    {
      hide CS.KvStore.Valid, CS.Contents, TL.TpcLog.Valid, TL.TpcLog.Entries, OnDisk, Replay, ReplaySteps;
      var last := LastEntry();
      if last.Some? {
        if last.value.typ == PUTREQ || last.value.typ == DELREQ {
          state := TPC_READY;
        } else if last.value.typ == COMMIT {
          DoLog();
          ClearLog();
          state := TPC_WAIT;
        } else if last.value.typ == ABORT {
          ClearLog();
          state := TPC_WAIT;
        }
      }
    }
  }
}
