/** tpclog.c: a follower's log, one file per entry, named by consecutive ids from 0. */
module TpcLog {
  import opened Common
  import opened Messages

  /** logentry_t; its length field is `|data|`. */
  datatype LogEntry = LogEntry(typ: MsgType, data: string)

  predicate Loggable(typ: MsgType) {
    typ == PUTREQ || typ == DELREQ || typ == COMMIT || typ == ABORT
  }

  /** What tpclog_log writes for a message. */
  function EntryFor(typ: MsgType, key: string, value: string): LogEntry {
    LogEntry(typ, (if typ == PUTREQ || typ == DELREQ then key + [NUL] else "")
                  + (if typ == PUTREQ then value + [NUL] else ""))
  }

  /** There is never a file n.log without a file (n-1).log. */
  ghost predicate Contiguous(files: map<nat, LogEntry>) {
    forall i: nat, j: nat :: i < j && j in files ==> i in files
  }

  class TpcLog {
    var files: map<nat, LogEntry>
    var nextid: nat
    var iterpos: nat

    ghost predicate Valid()
      reads `files, `nextid
    {
      forall i: nat :: i in files <==> i < nextid
    }

    /** What was logged, in logging order. */
    ghost function Entries(): (s: seq<LogEntry>)
      requires Valid()
      reads `files, `nextid
      ensures |s| == nextid
    {
      var fs, n := files, nextid;
      seq(n, i requires 0 <= i < n => fs[i])
    }

    /** tpclog_init: take over whatever files a previous run left behind. */
    constructor (files: map<nat, LogEntry>)
      ensures this.files == files && nextid !in files
      ensures forall i: nat :: i < nextid ==> i in files
      ensures Contiguous(files) ==> Valid()
    {
      var id: nat := 0;
      while id in files
        invariant forall i: nat :: i < id ==> i in files
        decreases |files| - id
      {
        PrefixFits(files.Keys, (i: nat) => i, id + 1);
        assert |files.Keys| == |files|;
        id := id + 1;
      }
      this.files, nextid, iterpos := files, id, 0;
    }

    method Log(typ: MsgType, key: string, value: string) returns (r: int)
      requires Valid()
      modifies `files, `nextid
      ensures Valid()
      ensures r == if Loggable(typ) then 0 else ERRINVLDMSG
      ensures Entries() == old(Entries()) + if Loggable(typ) then [EntryFor(typ, key, value)] else []
    {
      if typ != PUTREQ && typ != DELREQ && typ != ABORT && typ != COMMIT {
        return ERRINVLDMSG;
      }
      var id := nextid;
      nextid := nextid + 1;
      var data := "";
      if typ == PUTREQ || typ == DELREQ {
        data := key + [NUL];
      }
      if typ == PUTREQ {
        data := data + (value + [NUL]);
      }
      files := files[id := LogEntry(typ, data)];
      assert data == EntryFor(typ, key, value).data;
      assert Entries() == old(Entries()) + [EntryFor(typ, key, value)];
      r := 0;
    }

    method IterateBegin()
      modifies `iterpos
      ensures iterpos == 0
    {
      iterpos := 0;
    }

    method IterateHasNext() returns (b: bool)
      requires Valid()
      ensures b <==> iterpos < |Entries()|
    {
      b := iterpos in files;
    }

    method IterateNext() returns (entry: Option<LogEntry>)
      requires Valid()
      modifies `iterpos
      ensures old(iterpos) < |Entries()| ==>
                entry == Some(Entries()[old(iterpos)]) && iterpos == old(iterpos) + 1
      ensures old(iterpos) >= |Entries()| ==> entry == None && iterpos == old(iterpos)
    {
      var more := IterateHasNext();
      if !more {
        return None;
      }
      iterpos := iterpos + 1;
      entry := Some(files[iterpos - 1]);
    }

    /** Files are removed oldest first. */
    method ClearLog()
      requires Valid()
      modifies `files, `nextid
      ensures Valid() && Entries() == []
    {
      var count: nat := 0;
      while count in files
        invariant count <= nextid == old(nextid)
        invariant forall i: nat :: i in files <==> count <= i < nextid
        decreases nextid - count
      {
        files := files - {count};
        count := count + 1;
      }
      nextid := 0;
    }
  }
}
