/**
 The transaction log of the file server as values: the records that
 `ServerFactory` keeps in its `txn_list`, the `next_id` counter, and the
 working directory it writes committed files into. Each operation of the
 factory is a function from the old store to the new store and its answer;
 the class in module Factory performs the same updates in place.
 */
module TxnLog {
  import opened PyText

  // Error codes of the wire protocol.
  const UnknownTxn := 201
  const InvalidOperation := 202
  const BadRequest := 204
  const FileIoError := 205
  const FileNotFound := 206

  /** A NEW_TXN record older than this many seconds is aborted by the sweep. */
  const ExpireSeconds := 5 * 60
  /** READ returns at most this many bytes of a file (100 KiB). */
  const ReadLimit := 102400

  datatype Status = NewTxn | Commit | Abort

  /** One log record: target file, status, uploaded chunks by sequence
      number, the last committed sequence number, and the creation time. */
  datatype Txn = Txn(
    file: string,
    status: Status,
    writes: map<int, string>,
    writesCommitted: int,
    startTime: int)

  /** The log, the next unused id, the regular files of the working
      directory with their contents, and the names of its directories. */
  datatype Store = Store(
    log: map<int, Txn>,
    nextId: int,
    files: map<string, string>,
    dirs: set<string>)

  /** The `(error, reason)` pair of saveWrite, abortTxn and startNewTxn. */
  datatype Reply = Ok | Fail(code: int, reason: string)

  /** The `(decision, error, details)` triple of commitTxn. */
  datatype Decision = Ack | Error(code: int, reason: string) | AskResend(missing: seq<int>)

  /** How the file system behaves when readFile opens and reads a file. */
  datatype ReadIo = ReadOk | OpenFails | ReadFails

  /** The store after an operation, and what the operation returned. */
  datatype Step<A> = Step(after: Store, answer: A)

  predicate AcceptableName(name: string) {
    |name| > 0 && name[0] != '.' && '/' !in name
  }

  predicate RecordOk(t: Txn, files: map<string, string>, dirs: set<string>) {
    && AcceptableName(t.file)
    && t.file !in dirs
    && (t.status != Commit ==> t.writesCommitted == -1)
    && (t.status == Commit ==> t.file in files)
  }

  /** Ids lie in 1..nextId-1, every record names a plain file of the working
      directory, and only a committed record has a committed count and has
      its file on disk. */
  ghost predicate Valid(s: Store) {
    && s.nextId >= 1
    && s.files.Keys !! s.dirs
    && forall id :: id in s.log ==> 1 <= id < s.nextId && RecordOk(s.log[id], s.files, s.dirs)
  }

  /** The store a freshly initialised server starts from: an empty log whose
      next id is 1. */
  function Fresh(files: map<string, string>, dirs: set<string>): (s: Store)
    requires files.Keys !! dirs
    ensures Valid(s) && s.log == map[] && s.nextId == 1
  {
    Store(map[], 1, files, dirs)
  }

  // ---------------------------------------------------------------- startNewTxn

  /** The reason startNewTxn refuses a file name, checked in the source's order. */
  function NameError(name: string, dirs: set<string>): (r: Option<string>)
    requires |name| > 0
    ensures r.None? <==> AcceptableName(name) && name !in dirs
    ensures name in dirs ==> r == Some("A directory with that name already exists.")
    ensures name !in dirs && name[0] == '.' ==> r == Some("Creating hidden files is forbidden.")
    ensures name !in dirs && name[0] != '.' && '/' in name ==>
              r == Some("Creating directories (or files in subdirectories) is forbidden.")
  {
    if name in dirs then Some("A directory with that name already exists.")
    else if name[0] == '.' then Some("Creating hidden files is forbidden.")
    else if '/' in name then Some("Creating directories (or files in subdirectories) is forbidden.")
    else None
  }

  /** startNewTxn: a refused name gets id 0 and a 205 carrying the refusal
      reason, with nothing changed; an accepted one is given the current
      counter as its id, the counter moves on, and a NEW_TXN record with no
      chunks is filed under that id. The files are never touched. */
  function StartNewTxn(s: Store, name: string, now: int): (r: Step<(int, Reply)>)
    requires |name| > 0
    ensures r.answer.1.Fail? ==>
              NameError(name, s.dirs).Some? && r == Step(s, (0, Fail(FileIoError, NameError(name, s.dirs).value)))
    ensures r.answer.1.Ok? ==>
              && r.answer.0 == s.nextId && r.after.nextId == s.nextId + 1
              && r.after.log.Keys == s.log.Keys + {s.nextId}
              && r.after.log[s.nextId].status == NewTxn && r.after.log[s.nextId].writes == map[]
    ensures r.after.files == s.files && r.after.dirs == s.dirs
  {
    match NameError(name, s.dirs)
    case Some(reason) => Step(s, (0, Fail(FileIoError, reason)))
    case None =>
      var id := s.nextId;
      Step(s.(log := s.log[id := Txn(name, NewTxn, map[], -1, now)], nextId := id + 1), (id, Ok))
  }

  /** A refused name gets (0, 205) and nothing changes; an accepted one gets
      the old next id, which no record holds and which exceeds every id in
      the log, and a new empty NEW_TXN record under it. */
  lemma StartNewTxnOutcome(s: Store, name: string, now: int)
    requires Valid(s) && |name| > 0
    ensures var r := StartNewTxn(s, name, now);
      var (id, reply) := r.answer;
      && (reply.Fail? <==> !AcceptableName(name) || name in s.dirs)
      && (reply.Fail? ==> id == 0 && reply.code == FileIoError && r.after == s)
      && (reply.Ok? ==>
            && id == s.nextId && id !in s.log
            && (forall j :: j in s.log ==> j < id)
            && r.after.nextId == id + 1
            && r.after.log == s.log[id := Txn(name, NewTxn, map[], -1, now)]
            && r.after.files == s.files && r.after.dirs == s.dirs)
  {
  }

  // ------------------------------------------------------------------ saveWrite

  /** saveWrite: refused exactly when the id is unknown or its record is
      finished, and then nothing changes; a write never adds or removes a
      record and never touches the counter or the files. */
  function SaveWrite(s: Store, id: int, seqNo: int, buf: string): (r: Step<Reply>)
    ensures r.answer.Fail? <==> id !in s.log || !s.log[id].status.NewTxn?
    ensures r.answer.Fail? ==> r.after == s
    ensures r.after.log.Keys == s.log.Keys
    ensures r.after.nextId == s.nextId && r.after.files == s.files && r.after.dirs == s.dirs
  {
    if id !in s.log then Step(s, Fail(UnknownTxn, "Unknown transaction id."))
    else
      var t := s.log[id];
      if t.status == Abort then Step(s, Fail(InvalidOperation, "Transaction has been aborted."))
      else if t.status == Commit then Step(s, Fail(InvalidOperation, "Transaction has been comitted already."))
      else Step(s.(log := s.log[id := t.(writes := t.writes[seqNo := buf])]), Ok)
  }

  /** saveWrite fails with 201 on an unknown id and 202 on a finished
      transaction, changing nothing; otherwise it stores `buf` under `seqNo`,
      replacing any earlier chunk, and touches nothing else. */
  lemma SaveWriteOutcome(s: Store, id: int, seqNo: int, buf: string)
    ensures var r := SaveWrite(s, id, seqNo, buf);
      && (id !in s.log ==> r == Step(s, Fail(UnknownTxn, "Unknown transaction id.")))
      && (id in s.log && s.log[id].status != NewTxn ==>
            r.answer.Fail? && r.answer.code == InvalidOperation && r.after == s)
      && (id in s.log && s.log[id].status == NewTxn ==>
            && r.answer == Ok
            && r.after.log.Keys == s.log.Keys
            && r.after.log[id].writes[seqNo] == buf
            && (forall k :: k in s.log[id].writes && k != seqNo ==>
                  r.after.log[id].writes[k] == s.log[id].writes[k])
            && r.after.log[id].writes.Keys == s.log[id].writes.Keys + {seqNo}
            && r.after.log[id].(writes := s.log[id].writes) == s.log[id]
            && (forall j :: j in s.log && j != id ==> r.after.log[j] == s.log[j])
            && r.after.nextId == s.nextId && r.after.files == s.files)
  {
  }

  // ------------------------------------------------------------------- abortTxn

  /** abortTxn: refused exactly when the id is unknown or its record is
      committed, and then nothing changes; an abort never adds or removes a
      record and never touches the counter or the files. */
  function AbortTxn(s: Store, id: int): (r: Step<Reply>)
    ensures r.answer.Fail? <==> id !in s.log || s.log[id].status == Commit
    ensures r.answer.Fail? ==> r.after == s
    ensures r.after.log.Keys == s.log.Keys
    ensures r.after.nextId == s.nextId && r.after.files == s.files && r.after.dirs == s.dirs
  {
    if id !in s.log then Step(s, Fail(UnknownTxn, "Unknown transaction id."))
    else
      var t := s.log[id];
      if t.status == Commit then Step(s, Fail(InvalidOperation, "Transaction has been comitted already."))
      else Step(s.(log := s.log[id := t.(status := Abort)]), Ok)
  }

  /** An unknown id gets 201 and a committed record 202, with nothing
      changed; any other record becomes ABORT and nothing else changes: not
      its file, chunks or start time, not the other records, the counter,
      the files or the directories. */
  lemma AbortTxnOutcome(s: Store, id: int)
    ensures var r := AbortTxn(s, id);
      && (id !in s.log ==> r == Step(s, Fail(UnknownTxn, "Unknown transaction id.")))
      && (id in s.log && s.log[id].status == Commit ==>
            r == Step(s, Fail(InvalidOperation, "Transaction has been comitted already.")))
      && (id in s.log && s.log[id].status != Commit ==>
            && r.answer == Ok
            && r.after.log == s.log[id := s.log[id].(status := Abort)]
            && r.after.nextId == s.nextId && r.after.files == s.files && r.after.dirs == s.dirs)
  {
  }

  /** Aborting twice answers the same and leaves the store as the first
      abort left it; a committed transaction cannot be aborted. */
  lemma AbortIdempotent(s: Store, id: int)
    ensures var r := AbortTxn(s, id);
      && AbortTxn(r.after, id) == Step(r.after, r.answer)
      && (id in s.log && s.log[id].status == Commit ==> r.answer.Fail? && r.answer.code == InvalidOperation && r.after == s)
      && (id in s.log && s.log[id].status != Commit ==> r.answer == Ok && r.after.log[id].status == Abort)
  {
  }

  // ------------------------------------------------------------------ commitTxn

  /** `[k for k in range(lo, hi) if k not in writes]`. */
  function MissingFrom(writes: map<int, string>, lo: int, hi: int): seq<int>
    decreases hi - lo
  {
    if lo >= hi then []
    else (if lo in writes then [] else [lo]) + MissingFrom(writes, lo + 1, hi)
  }

  /** The chunks commitTxn asks the client to resend. The source scans
      `range(1, seqNo)`, so chunk 0 is never asked for. */
  function MissingChunks(writes: map<int, string>, seqNo: int): seq<int> {
    MissingFrom(writes, 1, seqNo)
  }

  predicate Increasing(ks: seq<int>) {
    forall i, j :: 0 <= i < j < |ks| ==> ks[i] < ks[j]
  }

  predicate Distinct(ks: seq<int>) {
    forall i, j :: 0 <= i < j < |ks| ==> ks[i] != ks[j]
  }

  /** The missing list holds exactly the absent numbers of the range, in
      ascending order. */
  lemma {:induction false} MissingFromExactly(writes: map<int, string>, lo: int, hi: int)
    ensures forall k :: k in MissingFrom(writes, lo, hi) <==> lo <= k < hi && k !in writes
    ensures Increasing(MissingFrom(writes, lo, hi))
    decreases hi - lo
  {
    if lo < hi {
      MissingFromExactly(writes, lo + 1, hi);
      var head: seq<int> := if lo in writes then [] else [lo];
      var rest := MissingFrom(writes, lo + 1, hi);
      assert MissingFrom(writes, lo, hi) == head + rest;
      forall i, j | 0 <= i < j < |head + rest| ensures (head + rest)[i] < (head + rest)[j] {
        if i < |head| {
          assert (head + rest)[j] in rest;
        }
      }
    }
  }

  /** `order` is an iteration order of the chunk dictionary: every key
      exactly once. */
  predicate IsKeyOrder(order: seq<int>, writes: map<int, string>) {
    && (forall i :: 0 <= i < |order| ==> order[i] in writes)
    && (forall k :: k in writes ==> k in order)
    && Distinct(order)
  }

  /** The keys the join at commit time takes, in iteration order: those below `seqNo`. */
  function Selected(order: seq<int>, writes: map<int, string>, seqNo: int): (ks: seq<int>)
    ensures forall i :: 0 <= i < |ks| ==> ks[i] in writes && ks[i] < seqNo
  {
    if order == [] then []
    else (if order[0] in writes && order[0] < seqNo then [order[0]] else []) + Selected(order[1..], writes, seqNo)
  }

  function Concat(writes: map<int, string>, ks: seq<int>): string
    requires forall i :: 0 <= i < |ks| ==> ks[i] in writes
  {
    if ks == [] then "" else writes[ks[0]] + Concat(writes, ks[1..])
  }

  /** `"".join([writes[k] for k in writes if k < seqNo])`, the dictionary
      being iterated in `order`. */
  function Joined(writes: map<int, string>, order: seq<int>, seqNo: int): string {
    Concat(writes, Selected(order, writes, seqNo))
  }

  lemma {:induction false} SelectedFromDistinct(order: seq<int>, writes: map<int, string>, seqNo: int)
    requires Distinct(order)
    ensures forall k :: k in Selected(order, writes, seqNo) <==> k in order && k in writes && k < seqNo
    ensures Distinct(Selected(order, writes, seqNo))
  {
    if order != [] {
      SelectedFromDistinct(order[1..], writes, seqNo);
      var rest := Selected(order[1..], writes, seqNo);
      assert order[0] !in order[1..];
      assert order[0] !in rest;
    }
  }

  /** Whatever the iteration order, the join takes every chunk numbered
      below `seqNo` exactly once and no other chunk. */
  lemma JoinedTakesEachChunkOnce(order: seq<int>, writes: map<int, string>, seqNo: int)
    requires IsKeyOrder(order, writes)
    ensures forall k :: k in Selected(order, writes, seqNo) <==> k in writes && k < seqNo
    ensures Distinct(Selected(order, writes, seqNo))
  {
    SelectedFromDistinct(order, writes, seqNo);
  }

  /** The chunks numbered lo..hi-1 that are present, in ascending order. */
  function InAscending(writes: map<int, string>, lo: int, hi: int): string
    decreases hi - lo
  {
    if lo >= hi then ""
    else (if lo in writes then writes[lo] else "") + InAscending(writes, lo + 1, hi)
  }

  lemma {:induction false} SelectedAllAbove(order: seq<int>, writes: map<int, string>, seqNo: int)
    requires forall i :: 0 <= i < |order| ==> order[i] >= seqNo
    ensures Selected(order, writes, seqNo) == []
  {
    if order != [] {
      SelectedAllAbove(order[1..], writes, seqNo);
    }
  }

  lemma {:induction false} JoinedAscendingFrom(order: seq<int>, writes: map<int, string>, lo: int, hi: int)
    requires Increasing(order)
    requires forall i :: 0 <= i < |order| ==> order[i] in writes && order[i] >= lo
    requires forall k :: k in writes && k >= lo ==> k in order
    ensures Joined(writes, order, hi) == InAscending(writes, lo, hi)
    decreases hi - lo
  {
    if lo >= hi {
      SelectedAllAbove(order, writes, hi);
    } else if lo in writes {
      assert order[0] == lo by {
        var i :| 0 <= i < |order| && order[i] == lo;
        assert order[0] <= order[i];
      }
      forall k | k in writes && k >= lo + 1 ensures k in order[1..] {
        var i :| 0 <= i < |order| && order[i] == k;
        assert i != 0;
      }
      JoinedAscendingFrom(order[1..], writes, lo + 1, hi);
    } else {
      forall i | 0 <= i < |order| ensures order[i] >= lo + 1 {
        assert order[i] != lo;
      }
      JoinedAscendingFrom(order, writes, lo + 1, hi);
    }
  }

  /** When the dictionary happens to iterate its (non-negative) keys in
      ascending order, the committed data is the chunks 0..seqNo-1 in
      numeric order. */
  lemma JoinedAscending(order: seq<int>, writes: map<int, string>, seqNo: int)
    requires IsKeyOrder(order, writes) && Increasing(order)
    requires forall k :: k in writes ==> k >= 0
    ensures Joined(writes, order, seqNo) == InAscending(writes, 0, seqNo)
  {
    JoinedAscendingFrom(order, writes, 0, seqNo);
  }

  /** The content a file has before a commit appends to it. */
  function Content(files: map<string, string>, name: string): string {
    if name in files then files[name] else ""
  }

  /** commitTxn: only a first successful ACK changes anything, and then
      only the committing record (now COMMIT) and its file; a resend request
      is never empty. No record is added or removed and the counter stays. */
  function CommitTxn(s: Store, id: int, seqNo: int, order: seq<int>, ioFails: bool): (r: Step<Decision>)
    ensures r.answer != Ack ==> r.after == s
    ensures r.after != s ==>
              id in s.log && s.log[id].status.NewTxn? && id in r.after.log && r.after.log[id].status == Commit
    ensures r.answer.AskResend? ==> |r.answer.missing| > 0
    ensures r.after.log.Keys == s.log.Keys
    ensures r.after.nextId == s.nextId && r.after.dirs == s.dirs
  {
    if id !in s.log then Step(s, Error(UnknownTxn, "Unknown transaction id."))
    else
      var t := s.log[id];
      if t.status == Abort then Step(s, Error(InvalidOperation, "Transaction has been aborted already."))
      else if t.status == Commit then Step(s, Ack)
      else
        var unsent := MissingChunks(t.writes, seqNo);
        if |unsent| != 0 then Step(s, AskResend(unsent))
        else if ioFails then Step(s, Error(FileIoError, "File IO error.  Check server settings and permissions."))
        else
          var data := Joined(t.writes, order, seqNo);
          Step(s.(files := s.files[t.file := Content(s.files, t.file) + data],
                  log := s.log[id := t.(status := Commit, writesCommitted := seqNo - 1)]),
               Ack)
  }

  /** 201 for an unknown id and 202 for an aborted one, and a plain ACK for
      a committed one, each with nothing changed. For an open transaction:
      ASK_RESEND exactly when some chunk in 1..seqNo-1 is absent, listing
      those and only those in ascending order, with nothing changed;
      otherwise a 205 with nothing changed when the file system fails, or
      ACK with the file extended by the joined chunks and the record marked
      committed, everything else untouched. */
  lemma CommitTxnOutcome(s: Store, id: int, seqNo: int, order: seq<int>, ioFails: bool)
    ensures var r := CommitTxn(s, id, seqNo, order, ioFails);
      && (id !in s.log ==> r == Step(s, Error(UnknownTxn, "Unknown transaction id.")))
      && (id in s.log && s.log[id].status == Abort ==>
            r == Step(s, Error(InvalidOperation, "Transaction has been aborted already.")))
      && (id in s.log && s.log[id].status == Commit ==> r == Step(s, Ack))
      && (id in s.log && s.log[id].status == NewTxn ==>
        var t := s.log[id];
        && (r.answer.AskResend? <==> exists k :: 1 <= k < seqNo && k !in t.writes)
        && (r.answer.AskResend? ==>
              && r.after == s
              && (forall k :: k in r.answer.missing <==> 1 <= k < seqNo && k !in t.writes)
              && Increasing(r.answer.missing))
        && (r.answer.Error? <==> (forall k :: 1 <= k < seqNo ==> k in t.writes) && ioFails)
        && (r.answer.Error? ==> r.answer.code == FileIoError && r.after == s)
        && (r.answer == Ack ==>
              && r.after.files == s.files[t.file := Content(s.files, t.file) + Joined(t.writes, order, seqNo)]
              && r.after.log == s.log[id := t.(status := Commit, writesCommitted := seqNo - 1)]
              && r.after.nextId == s.nextId && r.after.dirs == s.dirs))
  {
    if id !in s.log || s.log[id].status != NewTxn {
      return;
    }
    var w := s.log[id].writes;
    MissingFromExactly(w, 1, seqNo);
    var m := MissingChunks(w, seqNo);
    if |m| != 0 {
      assert m[0] in m;
    }
    if exists k :: 1 <= k < seqNo && k !in w {
      var k :| 1 <= k < seqNo && k !in w;
      assert k in m;
    }
  }

  /** Once committed, COMMIT answers ACK and changes nothing, whatever
      sequence number, chunk order or file-system behaviour comes with it. */
  lemma CommitIdempotent(s: Store, id: int, seqNo: int, order: seq<int>, ioFails: bool,
                         seqNo': int, order': seq<int>, ioFails': bool)
    requires CommitTxn(s, id, seqNo, order, ioFails).answer == Ack
    ensures var after := CommitTxn(s, id, seqNo, order, ioFails).after;
      CommitTxn(after, id, seqNo', order', ioFails') == Step(after, Ack)
  {
  }

  /** Chunks 0 and 2 written, COMMIT with seqNo 3: the server asks for chunk 1 only. */
  lemma AskResendListsTheGap(s: Store, id: int, order: seq<int>, ioFails: bool)
    requires id in s.log && s.log[id].status == NewTxn
    requires s.log[id].writes.Keys == {0, 2}
    ensures CommitTxn(s, id, 3, order, ioFails) == Step(s, AskResend([1]))
  {
    var w := s.log[id].writes;
    assert 1 !in w && 2 in w;
    assert MissingFrom(w, 3, 3) == [];
    assert MissingFrom(w, 2, 3) == [];
    assert MissingChunks(w, 3) == [1];
  }

  /** Because the scan starts at 1, a commit succeeds without chunk 0. */
  lemma ChunkZeroNeverRequired(s: Store, id: int, chunk: string)
    requires id in s.log && s.log[id].status == NewTxn
    requires s.log[id].writes == map[1 := chunk]
    ensures var r := CommitTxn(s, id, 2, [1], false);
      var name := s.log[id].file;
      r.answer == Ack && r.after.files[name] == Content(s.files, name) + chunk
  {
    var w := s.log[id].writes;
    assert MissingFrom(w, 2, 2) == [];
    assert MissingChunks(w, 2) == [];
    assert Selected([1], w, 2) == [1] by {
      assert [1][1..] == [];
    }
    assert Concat(w, [1]) == w[1] + Concat(w, []);
  }

  // ------------------------------------------------------------------- readFile

  /** readFile: the answer is 0, 206 or 205; a success returns a prefix
      of the file of at most 100 KiB, a failure a non-empty reason. */
  function ReadFile(s: Store, name: string, io: ReadIo): (r: (int, string))
    ensures r.0 == 0 || r.0 == FileNotFound || r.0 == FileIoError
    ensures r.0 == 0 ==> name in s.files && r.1 <= s.files[name] && |r.1| <= ReadLimit
    ensures r.0 != 0 ==> |r.1| > 0
  {
    if name !in s.files then (FileNotFound, "File not found.")
    else if io == OpenFails then (FileIoError, "Unable to open file.  Check server settings.")
    else if io == ReadFails then (FileIoError, "File IO error.  Check server settings and permissions.")
    else
      var content := s.files[name];
      (0, if |content| <= ReadLimit then content else content[..ReadLimit])
  }

  /** 206 exactly for a name that is not a file; on success the first
      100 KiB of the file, so the whole file when it is no longer. */
  lemma ReadFileOutcome(s: Store, name: string, io: ReadIo)
    ensures var (err, buf) := ReadFile(s, name, io);
      && (err == FileNotFound <==> name !in s.files)
      && (err == 0 <==> name in s.files && io == ReadOk)
      && (err == 0 ==>
            && buf <= s.files[name]
            && |buf| == if |s.files[name]| < ReadLimit then |s.files[name]| else ReadLimit)
  {
  }

  // ---------------------------------------------------------------------- sweep

  /** A NEW_TXN record started more than five minutes before `now`. */
  predicate Expired(t: Txn, now: int) {
    t.status == NewTxn && now > t.startTime + ExpireSeconds
  }

  function Swept(log: map<int, Txn>, now: int): map<int, Txn> {
    map id | id in log :: if Expired(log[id], now) then log[id].(status := Abort) else log[id]
  }

  /** The shutdown sweep aborts exactly the expired records and leaves
      every other record, the id counter and the files alone. */
  function Sweep(s: Store, now: int): (r: Store)
    ensures r.log.Keys == s.log.Keys
    ensures forall id :: id in s.log && Expired(s.log[id], now) ==>
              r.log[id] == s.log[id].(status := Abort)
    ensures forall id :: id in s.log && !Expired(s.log[id], now) ==> r.log[id] == s.log[id]
    ensures forall id :: id in r.log ==> !Expired(r.log[id], now)
    ensures r.nextId == s.nextId && r.files == s.files && r.dirs == s.dirs
  {
    s.(log := Swept(s.log, now))
  }

  // ---------------------------------------------------- the log over many steps

  /** One call into the factory, with its environment inputs. */
  datatype Op =
    | StartOp(name: string, now: int)
    | WriteOp(id: int, seqNo: int, buf: string)
    | AbortOp(id: int)
    | CommitOp(id: int, seqNo: int, order: seq<int>, ioFails: bool)
    | SweepOp(now: int)

  /** startNewTxn is only ever given a non-empty name (an empty one raises). */
  predicate WellFormed(op: Op) {
    op.StartOp? ==> |op.name| > 0
  }

  function Apply(s: Store, op: Op): Store
    requires WellFormed(op)
  {
    match op
    case StartOp(name, now) => StartNewTxn(s, name, now).after
    case WriteOp(id, seqNo, buf) => SaveWrite(s, id, seqNo, buf).after
    case AbortOp(id) => AbortTxn(s, id).after
    case CommitOp(id, seqNo, order, ioFails) => CommitTxn(s, id, seqNo, order, ioFails).after
    case SweepOp(now) => Sweep(s, now)
  }

  function Run(s: Store, ops: seq<Op>): Store
    requires forall i :: 0 <= i < |ops| ==> WellFormed(ops[i])
    decreases |ops|
  {
    if ops == [] then s else Run(Apply(s, ops[0]), ops[1..])
  }

  /** A later version of a record: same file and start time, and a record
      that was committed or aborted is left exactly as it was. */
  predicate Succeeds(t: Txn, u: Txn) {
    && u.file == t.file
    && u.startTime == t.startTime
    && (t.status != NewTxn ==> u == t)
  }

  /** What every operation keeps: no record is lost, finished records never
      change (so ABORT never becomes COMMIT), the id counter never goes back,
      no file disappears and the directories stay as they are. */
  ghost predicate Evolves(a: Store, b: Store) {
    && a.log.Keys <= b.log.Keys
    && (forall id :: id in a.log ==> Succeeds(a.log[id], b.log[id]))
    && a.nextId <= b.nextId
    && a.files.Keys <= b.files.Keys
    && a.dirs == b.dirs
  }

  lemma StartEvolves(s: Store, name: string, now: int)
    requires Valid(s) && |name| > 0
    ensures Valid(StartNewTxn(s, name, now).after) && Evolves(s, StartNewTxn(s, name, now).after)
  {
  }

  lemma WriteEvolves(s: Store, id: int, seqNo: int, buf: string)
    requires Valid(s)
    ensures Valid(SaveWrite(s, id, seqNo, buf).after) && Evolves(s, SaveWrite(s, id, seqNo, buf).after)
  {
  }

  lemma AbortEvolves(s: Store, id: int)
    requires Valid(s)
    ensures Valid(AbortTxn(s, id).after) && Evolves(s, AbortTxn(s, id).after)
  {
  }

  lemma CommitEvolves(s: Store, id: int, seqNo: int, order: seq<int>, ioFails: bool)
    requires Valid(s)
    ensures var after := CommitTxn(s, id, seqNo, order, ioFails).after;
      Valid(after) && Evolves(s, after)
  {
  }

  lemma StepEvolves(s: Store, op: Op)
    requires Valid(s) && WellFormed(op)
    ensures Valid(Apply(s, op)) && Evolves(s, Apply(s, op))
  {
    match op
    case StartOp(name, now) => StartEvolves(s, name, now);
    case WriteOp(id, seqNo, buf) => WriteEvolves(s, id, seqNo, buf);
    case AbortOp(id) => AbortEvolves(s, id);
    case CommitOp(id, seqNo, order, ioFails) => CommitEvolves(s, id, seqNo, order, ioFails);
    case SweepOp(now) =>
  }


  lemma EvolvesTransitive(a: Store, b: Store, c: Store)
    requires Evolves(a, b) && Evolves(b, c)
    ensures Evolves(a, c)
  {
  }

  /** Over any sequence of operations the store stays valid and only evolves. */
  lemma {:induction false} RunEvolves(s: Store, ops: seq<Op>)
    requires Valid(s)
    requires forall i :: 0 <= i < |ops| ==> WellFormed(ops[i])
    ensures Valid(Run(s, ops)) && Evolves(s, Run(s, ops))
    decreases |ops|
  {
    if ops != [] {
      StepEvolves(s, ops[0]);
      RunEvolves(Apply(s, ops[0]), ops[1..]);
      EvolvesTransitive(s, Apply(s, ops[0]), Run(s, ops));
    }
  }

  /** Ids handed out by two successful NEW_TXN calls, whatever happens in
      between, are distinct and increasing, and both are at least 1. */
  lemma IdsStrictlyIncrease(s: Store, name1: string, now1: int, ops: seq<Op>, name2: string, now2: int)
    requires Valid(s) && |name1| > 0 && |name2| > 0
    requires forall i :: 0 <= i < |ops| ==> WellFormed(ops[i])
    ensures var r1 := StartNewTxn(s, name1, now1);
      var mid := Run(r1.after, ops);
      var r2 := StartNewTxn(mid, name2, now2);
      r1.answer.1.Ok? && r2.answer.1.Ok? ==>
        && 1 <= r1.answer.0 < r2.answer.0
        && r1.answer.0 in mid.log && r2.answer.0 !in mid.log
  {
    var r1 := StartNewTxn(s, name1, now1);
    StepEvolves(s, StartOp(name1, now1));
    assert r1.after == Apply(s, StartOp(name1, now1));
    RunEvolves(r1.after, ops);
  }

  /** The round trip NEW_TXN, WRITE chunk 0, COMMIT with seqNo 1, READ on a
      file that did not exist returns what was written. */
  lemma WriteCommitReadRoundTrip(s: Store, name: string, now: int, data: string)
    requires Valid(s) && AcceptableName(name) && name !in s.dirs && name !in s.files
    requires |data| <= ReadLimit
    ensures var r1 := StartNewTxn(s, name, now);
      var id := r1.answer.0;
      var r2 := SaveWrite(r1.after, id, 0, data);
      var r3 := CommitTxn(r2.after, id, 1, [0], false);
      && r1.answer.1 == Ok && r2.answer == Ok && r3.answer == Ack
      && ReadFile(r3.after, name, ReadOk) == (0, data)
  {
    var r1 := StartNewTxn(s, name, now);
    var id := r1.answer.0;
    var w := SaveWrite(r1.after, id, 0, data).after.log[id].writes;
    assert w == map[0 := data];
    assert MissingChunks(w, 1) == [];
    assert Selected([0], w, 1) == [0] by {
      assert [0][1..] == [];
    }
    assert Concat(w, [0]) == w[0] + Concat(w, []);
    var s2 := SaveWrite(r1.after, id, 0, data).after;
    var r3 := CommitTxn(s2, id, 1, [0], false);
    assert r3.answer == Ack;
    assert Content(s2.files, name) == "";
    assert r3.after.files[name] == "" + data == data;
  }

  /** Chunks "AB" and "CD" as 0 and 1, committed with seqNo 2 onto a new file,
      give the file "ABCD". */
  lemma TwoChunkCommit(s: Store, id: int)
    requires id in s.log && s.log[id].status == NewTxn
    requires s.log[id].writes == map[0 := "AB", 1 := "CD"]
    requires s.log[id].file !in s.files
    ensures var r := CommitTxn(s, id, 2, [0, 1], false);
      r.answer == Ack && r.after.files[s.log[id].file] == "ABCD"
  {
    var w := s.log[id].writes;
    assert MissingChunks(w, 2) == [] by {
      assert MissingFrom(w, 2, 2) == [];
    }
    assert Selected([0, 1], w, 2) == [0, 1] by {
      assert [0, 1][1..] == [1];
      assert [1][1..] == [];
      assert Selected([1], w, 2) == [1];
    }
    assert Concat(w, [1]) == w[1] + Concat(w, []);
    assert Concat(w, [0, 1]) == w[0] + Concat(w, [1]);
    assert Joined(w, [0, 1], 2) == "AB" + "CD";
    assert Content(s.files, s.log[id].file) + ("AB" + "CD") == "ABCD";
  }
}
