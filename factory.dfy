/**
 `ServerFactory`: the object that owns the transaction log and acts on
 parsed messages. Its methods update the log, the id counter and the
 working directory in place; each one's postcondition says that the new
 state and the answer are those the corresponding function of TxnLog
 gives for the old state, and that the log invariant is kept.
 */
module Factory {
  import opened PyText
  import opened TxnLog

  class ServerFactory {
    /** The `txn_list` records, keyed by transaction id. */
    var log: map<int, Txn>
    /** `txn_list['next_id']`. */
    var nextId: int
    /** The regular files of the working directory and their contents. */
    var files: map<string, string>
    /** The names that are directories in the working directory. */
    var dirs: set<string>

    function Abs(): Store
      reads this
    {
      Store(log, nextId, files, dirs)
    }

    ghost predicate Valid()
      reads this
    {
      TxnLog.Valid(Abs())
    }

    /** A server started on a directory that holds no log yet. */
    constructor (files0: map<string, string>, dirs0: set<string>)
      requires files0.Keys !! dirs0
      ensures Valid() && Abs() == Fresh(files0, dirs0)
      ensures log == map[] && nextId == 1
    {
      log := map[];
      nextId := 1;
      files := files0;
      dirs := dirs0;
    }

    /** A server restarted on a directory whose log survives from an
        earlier run: it carries on from the stored records and counter. */
    constructor Reopen(s: Store)
      requires TxnLog.Valid(s)
      ensures Valid() && Abs() == s
    {
      log := s.log;
      nextId := s.nextId;
      files := s.files;
      dirs := s.dirs;
    }

    method StartNewTxn(name: string, now: int) returns (id: int, reply: Reply)
      requires Valid() && |name| > 0
      modifies this
      ensures Valid()
      ensures Step(Abs(), (id, reply)) == TxnLog.StartNewTxn(old(Abs()), name, now)
      ensures reply.Ok? ==> id == old(nextId) && nextId == id + 1 && id !in old(log)
      ensures reply.Fail? ==> id == 0 && reply.code == FileIoError && unchanged(this)
    {
      var refusal := NameError(name, dirs);
      if refusal.Some? {
        return 0, Fail(FileIoError, refusal.value);
      }
      id := nextId;
      var t := Txn(name, NewTxn, map[], -1, now);
      nextId := id + 1;
      log := log[id := t];
      reply := Ok;
    }

    method SaveWrite(id: int, seqNo: int, buf: string) returns (reply: Reply)
      requires Valid()
      modifies this
      ensures Valid()
      ensures Step(Abs(), reply) == TxnLog.SaveWrite(old(Abs()), id, seqNo, buf)
      ensures nextId == old(nextId) && files == old(files) && log.Keys == old(log).Keys
    {
      if id !in log {
        return Fail(UnknownTxn, "Unknown transaction id.");
      }
      var t := log[id];
      if t.status == Abort {
        return Fail(InvalidOperation, "Transaction has been aborted.");
      } else if t.status == Commit {
        return Fail(InvalidOperation, "Transaction has been comitted already.");
      }
      t := t.(writes := t.writes[seqNo := buf]);
      log := log[id := t];
      reply := Ok;
    }

    method AbortTxn(id: int) returns (reply: Reply)
      requires Valid()
      modifies this
      ensures Valid()
      ensures Step(Abs(), reply) == TxnLog.AbortTxn(old(Abs()), id)
      ensures nextId == old(nextId) && files == old(files) && log.Keys == old(log).Keys
    {
      if id !in log {
        return Fail(UnknownTxn, "Unknown transaction id.");
      }
      var t := log[id];
      if t.status == Commit {
        return Fail(InvalidOperation, "Transaction has been comitted already.");
      }
      t := t.(status := Abort);
      log := log[id := t];
      reply := Ok;
    }

    /** `order` is the iteration order of the record's chunk dictionary and
        `ioFails` says whether copying, appending, syncing or moving the
        staged file raises. */
    method CommitTxn(id: int, seqNo: int, order: seq<int>, ioFails: bool) returns (decision: Decision)
      requires Valid()
      modifies this
      ensures Valid()
      ensures Step(Abs(), decision) == TxnLog.CommitTxn(old(Abs()), id, seqNo, order, ioFails)
      ensures nextId == old(nextId) && log.Keys == old(log).Keys
      ensures decision != Ack || id !in old(log) || old(log)[id].status != NewTxn ==> unchanged(this)
    {
      if id !in log {
        return Error(UnknownTxn, "Unknown transaction id.");
      }
      var t := log[id];
      if t.status == Abort {
        return Error(InvalidOperation, "Transaction has been aborted already.");
      } else if t.status == Commit {
        return Ack;
      }
      var unsent := MissingChunks(t.writes, seqNo);
      if |unsent| != 0 {
        return AskResend(unsent);
      }
      var data := Joined(t.writes, order, seqNo);
      if ioFails {
        return Error(FileIoError, "File IO error.  Check server settings and permissions.");
      }
      var previous := if t.file in files then files[t.file] else "";
      files := files[t.file := previous + data];
      t := t.(status := Commit, writesCommitted := seqNo - 1);
      log := log[id := t];
      decision := Ack;
    }

    /** readFile, with `io` standing for what opening and reading the file does. */
    method ReadFile(name: string, io: ReadIo) returns (err: int, buf: string)
      ensures (err, buf) == TxnLog.ReadFile(Abs(), name, io)
      ensures err == 0 ==> name in files && buf <= files[name] && |buf| <= ReadLimit
    {
      if name !in files {
        return FileNotFound, "File not found.";
      }
      if io == OpenFails {
        return FileIoError, "Unable to open file.  Check server settings.";
      }
      if io == ReadFails {
        return FileIoError, "File IO error.  Check server settings and permissions.";
      }
      var content := files[name];
      err := 0;
      buf := if |content| <= ReadLimit then content else content[..ReadLimit];
    }

    /** The sweep `__del__` runs at shutdown: walk the records in the
        order `items()` lists them (`ids`) and abort those still NEW_TXN
        after five minutes. */
    method Sweep(ids: seq<int>, now: int)
      requires Valid()
      requires forall i :: 0 <= i < |ids| ==> ids[i] in log
      requires forall k :: k in log ==> k in ids
      modifies this
      ensures Valid()
      ensures Abs() == TxnLog.Sweep(old(Abs()), now)
    {
      ghost var before := Abs();
      for i := 0 to |ids|
        invariant log.Keys == before.log.Keys
        invariant nextId == before.nextId && files == before.files && dirs == before.dirs
        invariant forall k :: k in log ==>
                    log[k] == if k in ids[..i] then Swept(before.log, now)[k] else before.log[k]
      {
        var id := ids[i];
        var t := log[id];
        if Expired(t, now) {
          log := log[id := t.(status := Abort)];
        }
        assert ids[..i + 1] == ids[..i] + [id];
      }
      assert ids[..|ids|] == ids;
      forall k | k in log ensures log[k] == Swept(before.log, now)[k] {
        assert k in ids[..|ids|];
      }
      assert log.Keys == Swept(before.log, now).Keys;
      assert log == Swept(before.log, now);
      StepEvolves(before, SweepOp(now));
    }
  }

  /** Start a transaction on a new file, write "hello" as chunk 0, commit
      with seq 1 and read the file back. */
  method RoundTripScenario() returns (err: int, content: string)
    ensures err == 0 && content == "hello"
  {
    var f := new ServerFactory(map[], {});
    WriteCommitReadRoundTrip(f.Abs(), "f.txt", 0, "hello");
    var id, started := f.StartNewTxn("f.txt", 0);
    var written := f.SaveWrite(id, 0, "hello");
    var decision := f.CommitTxn(id, 1, [0], false);
    err, content := f.ReadFile("f.txt", ReadOk);
  }
}
