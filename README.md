# A transactional file server, modelled in Dafny

The server stores files in one working directory. A client opens a
transaction on a file name (NEW_TXN) and uploads numbered chunks (WRITE).
It then either commits them (COMMIT), which appends the chunks to the file,
or abandons them (ABORT). It can also read the first 100 KiB of a file
(READ).

Every request arrives on a fresh TCP connection in this form:

- a header line `METHOD txn seq length`;
- a blank line;
- `length` bytes of body.

The server writes its answer and closes the connection:

- an error is one `ERROR` frame, and a successful NEW_TXN, ABORT or COMMIT
  one `ACK` frame;
- a COMMIT with chunks missing gets one `ASK_RESEND` frame per missing chunk;
- a successful WRITE gets nothing at all;
- a successful READ gets the raw bytes of the file.

The model has two parts, each a class that updates its fields in place:

- `Factory.ServerFactory` owns the transaction log.
  - The log maps transaction ids to records (file, status, chunks, last
    committed sequence number, start time).
  - It also holds the `next_id` counter, the regular files of the working
    directory and the names of its directories.
  - Each method is proved equal to a function of module `TxnLog` applied to
    the old state. The properties of the log are lemmas about those
    functions.
- `Protocol.Server` is one connection's parser.
  - Its fields `firstLine`, `data`, `rawMode`, `length` and `buf` follow
    the header, the blank line and the body bytes as they arrive.
  - `out` records what was written to the transport, and `closed` whether
    the connection was dropped.
  - Dispatch is proved equal to the function `Protocol.Respond` applied to
    the assembled request and the log.

Module `PyText` models the pieces of Python 2 string behaviour the server
depends on: `str.split()`, `int()`, `"%d"` and `data[:n]`.

Where the code departs from the protocol as the project documents it, the
model follows the code:

- COMMIT asks for resends of the chunks `range(1, seq)`, so chunk 0 is
  never asked for (server.py:313).
- A successful WRITE gets no reply at all. The connection is simply closed
  (server.py:137-141).
- The tests in test/test_server.py expect other reason texts than the
  code writes. test/test_server.py:29 expects "Header is wrong length" where
  server.py:45 writes "Header has the wrong number of fields.", and
  test/test_server.py:35 drops the final period of server.py:53. The tests
  also end an error frame with a single CRLF after the reason
  (test/test_server.py:11), where server.py:89 writes two. The model uses
  the strings server.py writes. The tests are used only for which
  transaction id an error echoes.

## Model

| member | source | states |
|---|---|---|
| PyText.Split | server.py:43 | `line.split()` returns fields that are each non-empty and free of blanks. |
| PyText.ParseInt | server.py:48-54 | `int()` accepts every non-empty run of digits. A value comes back only for text starting with a sign or a digit, and its sign follows the leading '-'. |
| PyText.FormatInt | server.py:89-90 | `"%d"` writes a minus sign exactly for a negative number, followed only by digits. |
| PyText.SplitJoinWords | server.py:43 | Splitting fields that were joined by single spaces gives the same fields back. |
| PyText.ParseFormatInt | server.py:49-51 | `int()` reads back exactly the number `"%d"` wrote, negative numbers included. |
| PyText.Slice | server.py:75 | `data[:n]` is a prefix of `data`. For n >= 0 its length is n capped at `len(data)`; for negative n it is `len(data)+n` floored at 0. |
| TxnLog.Fresh | server.py:193-198 | A server started without a log has an empty log, `next_id` 1, and satisfies the log invariant. |
| TxnLog.NameError | server.py:237-242 | A name is refused exactly when it is a directory, starts with '.', or contains '/'. The reason given is that of the first failed check, in that order: the directory reason, then the hidden-file reason, then the subdirectory reason. |
| TxnLog.StartNewTxn | server.py:235-261 | A refused name gets id 0 and a 205 carrying the `NameError` reason, with nothing changed. An accepted name gets the current `next_id` as its id, `next_id` moves on by one, and a NEW_TXN record with no chunks is filed under the id. The files and directories are never touched. |
| TxnLog.StartNewTxnOutcome | server.py:235-261 | A refused name gets id 0 and error 205, with nothing changed. An accepted name gets the old `next_id`, which no record holds and which exceeds every id in the log. `next_id` goes up by exactly 1, and a NEW_TXN record with no chunks and committed count -1 is added. |
| TxnLog.SaveWrite | server.py:263-280 | A write is refused exactly when the id is unknown or its record is not NEW_TXN, and then nothing changes. No write adds or removes a record, or touches `next_id`, the files or the directories. |
| TxnLog.SaveWriteOutcome | server.py:263-280 | An unknown id gets 201. An aborted or committed record gets 202, with nothing changed. Otherwise the chunk is stored under its sequence number, replacing any earlier one. All other chunks, all other records, `next_id` and the files stay as they were. |
| TxnLog.AbortTxn | server.py:282-299 | An abort is refused exactly when the id is unknown or its record is committed, and then nothing changes. No abort adds or removes a record, or touches `next_id`, the files or the directories. |
| TxnLog.AbortTxnOutcome | server.py:282-299 | An unknown id gets 201 and a committed record 202, with nothing changed. Any other record becomes ABORT and nothing else changes: not its file, chunks, committed count or start time, not the other records, `next_id`, the files or the directories. |
| TxnLog.AbortIdempotent | server.py:282-299 | Repeating an abort gives the same answer as the first and changes nothing more. |
| TxnLog.MissingFromExactly | server.py:313 | The resend list holds exactly the numbers of the range that have no chunk, in strictly ascending order. |
| TxnLog.JoinedTakesEachChunkOnce | server.py:321-322 | Whatever order the dictionary is iterated in, the commit join takes every chunk numbered below `seq` exactly once, and no other chunk. |
| TxnLog.JoinedAscending | server.py:321-322 | When the dictionary iterates its non-negative keys in ascending order, the committed data is chunks 0..seq-1 in numeric order. |
| TxnLog.CommitTxn | server.py:301-361 | Only a first successful ACK changes anything, and then only for an open record, which becomes COMMIT. An ASK_RESEND never has an empty list. No commit adds or removes a record, or touches `next_id` or the directories. |
| TxnLog.CommitTxnOutcome | server.py:301-361 | Every branch of commitTxn, as follows. An unknown id gets 201 and an aborted record gets 202, with nothing changed. A committed record gets ACK, with nothing changed. For an open record, ASK_RESEND comes back exactly when some chunk in 1..seq-1 is absent; it lists exactly those chunks, ascending, and nothing changes. Failed file I/O gets 205, with nothing changed. Otherwise the answer is ACK: the file becomes its old content (empty if it was absent) followed by the joined chunks, and the record becomes COMMIT with committed count `seq-1`. |
| TxnLog.CommitIdempotent | server.py:309-310 | Once committed, any later COMMIT gets ACK and changes nothing, whatever its sequence number, chunk order or file-system behaviour. |
| TxnLog.AskResendListsTheGap | server.py:313-315 | With chunks 0 and 2 written, COMMIT with seq 3 gets exactly ASK_RESEND [1]. |
| TxnLog.ChunkZeroNeverRequired | server.py:313 | A commit with seq 2 succeeds with only chunk 1 written, and appends just that chunk. |
| TxnLog.TwoChunkCommit | server.py:319-322 | Chunks "AB" (0) and "CD" (1), committed with seq 2 onto a new file, give the file "ABCD". |
| TxnLog.ReadFile | server.py:216-233 | The answer is 0, 206 or 205. A success returns a prefix of the file of at most 102400 bytes; a failure returns a non-empty reason. |
| TxnLog.ReadFileOutcome | server.py:216-233 | 206 exactly when the name is not a file. Success exactly when the file opens and reads. The bytes returned are a prefix of the file, of length min(file length, 102400). |
| TxnLog.Sweep | server.py:201-214 | Exactly the NEW_TXN records older than 5 minutes become ABORT, and no record is left expired. Every other record, the set of ids, `next_id` and the files are unchanged. |
| TxnLog.StepEvolves | server.py:235-361 | Every log operation keeps the invariant. It never removes a record or changes a record's file or start time, and never changes a committed or aborted record (so ABORT never becomes COMMIT). `next_id` never decreases, no file disappears, and the directories stay the same. |
| TxnLog.RunEvolves | server.py:235-361 | The same holds across any sequence of operations. |
| TxnLog.IdsStrictlyIncrease | server.py:245-254 | Ids returned by two successful NEW_TXN calls, with any operations in between, are at least 1 and strictly increasing. The first id is still in the log when the second is issued, and the second is new. |
| TxnLog.WriteCommitReadRoundTrip | server.py:216-361 | NEW_TXN on a new name, WRITE chunk 0, COMMIT with seq 1, then READ returns the data written (up to 100 KiB). |
| Factory.ServerFactory.constructor | server.py:193-198 | Starting without a log gives the fresh store: empty log, `next_id` 1. |
| Factory.ServerFactory.Reopen | server.py:193-194 | Starting on a directory whose log exists carries on from the stored records and counter. |
| Factory.ServerFactory.StartNewTxn | server.py:235-261 | The in-place update gives the state and answer of `TxnLog.StartNewTxn`. On success the id is the old counter and the counter moves on by one. On refusal the answer is 205 and the object is unchanged. |
| Factory.ServerFactory.SaveWrite | server.py:263-280 | The in-place update gives the state and answer of `TxnLog.SaveWrite`, and keeps the invariant. |
| Factory.ServerFactory.AbortTxn | server.py:282-299 | The in-place update gives the state and answer of `TxnLog.AbortTxn`, and keeps the invariant. |
| Factory.ServerFactory.CommitTxn | server.py:301-361 | The in-place update gives the state and decision of `TxnLog.CommitTxn`. Every answer except a first successful ACK leaves the object unchanged. |
| Factory.ServerFactory.ReadFile | server.py:216-233 | Reading changes nothing. It answers as `TxnLog.ReadFile` does, and a successful read returns a prefix of at most 102400 bytes. |
| Factory.ServerFactory.Sweep | server.py:201-214 | The loop over the records, in the order `items()` lists them, leaves the state `TxnLog.Sweep` describes. |
| Factory.RoundTripScenario | server.py:216-361 | NEW_TXN "f.txt", WRITE 0 "hello", COMMIT 1, then READ gives (0, "hello") on the class. |
| Protocol.ParseHeader | server.py:41-59 | An accepted header has a one-field method and a non-negative seq. A refusal blames the field count exactly when the line does not have 4 fields. |
| Protocol.ParseHeaderRejects | server.py:41-59 | A header line is refused exactly when: it does not have 4 fields; txn, seq or length is not an integer; or seq is negative. The error echoes the id if `int(txn)` succeeded, and -1 otherwise. |
| Protocol.ParseHeaderRoundTrip | server.py:43-59 | A header written as single-spaced fields with `%d` numbers and a non-negative seq is accepted with exactly those values. |
| Protocol.AcceptedHeaderReprints | server.py:43-59 | An accepted header, written back out with single spaces and `%d` numbers, is accepted again with the same values. |
| Protocol.ShortHeaderEchoesMinusOne | server.py:43-46 | "WRITE 1" is refused for its field count and echoes -1. |
| Protocol.BadTxnEchoesMinusOne | server.py:47-53 | "WRITE a 1 0" is refused as non-numeric and echoes -1. |
| Protocol.BadSeqEchoesTxn | server.py:47-53 | "WRITE 1 [5] 0" is refused as non-numeric and echoes 1, because the id had already been parsed. |
| Protocol.ErrorFrame | server.py:86-92 | An error frame starts with "ERROR " and ends with the reason followed by a blank line. |
| Protocol.AckFrame | server.py:94-97 | An ACK frame starts with "ACK ". |
| Protocol.ResendFrame | server.py:99-102 | A resend frame starts with "ASK_RESEND ". |
| Protocol.ResendFrames | server.py:99-104 | The resend reply is empty exactly when no chunk is missing. |
| Protocol.FrameLineReadsBack | server.py:86-104 | A client splitting a reply's first line and reading its numbers recovers the kind and the numbers the server formatted. |
| Protocol.ErrorFrameReadsBack | server.py:86-92 | An ERROR frame is the line "ERROR txn 0 code len", a blank line, exactly `len` reason bytes, and a blank line. Its first line reads back as those numbers. |
| Protocol.AckFrameReadsBack | server.py:94-97 | An ACK frame is "ACK txn 0 0 0" followed by blank lines, and reads back as those numbers. |
| Protocol.ResendFrameReadsBack | server.py:99-104 | An ASK_RESEND frame is "ASK_RESEND txn k 0 0" followed by blank lines, and reads back as those numbers. |
| Protocol.ResendFramesSplit | server.py:99-104 | The resend reply is one frame per missing chunk, concatenated in list order. |
| Protocol.Respond | server.py:106-157 | Dispatch as a function of the log. READ and unknown methods change nothing. Only NEW_TXN moves `next_id`, only COMMIT touches the files, no record is ever dropped and the directories never change. A WRITE goes unanswered exactly when its transaction is open. |
| Protocol.WriteWithoutBody | server.py:137-141 | A WRITE whose header announced length 0 still reaches saveWrite. An unknown id gets the 201 frame and an aborted or committed record the 202 frame; only an open record's request goes unanswered. The log never changes. |
| Protocol.UnknownVerbRejected | server.py:106-119 | A method other than READ, NEW_TXN, WRITE, COMMIT or ABORT gets a 204 "Method does not exist." error echoing the header's id, and the log is unchanged. |
| Protocol.RespondEvolves | server.py:106-157 | Dispatching any request keeps the log invariant and only lets the log evolve as in StepEvolves. |
| Protocol.CommitRetryAcks | server.py:150-157 | Once a COMMIT has been acknowledged, a repeated COMMIT for that id writes the same ACK frame and changes nothing. |
| Protocol.Collect | server.py:73-79 | The body only grows. For a non-negative announced length, the count still expected stays between 0 and that length, and the bytes collected plus the count still expected always add up to it. |
| Protocol.CollectTakesPrefix | server.py:73-79 | For a non-negative announced length, the body assembled from any stream of chunks is exactly the stream's first `length` bytes (all of them if the stream is shorter). The bytes still expected are the announced length minus what was taken. So the message is dispatched exactly when `length` bytes have arrived, and surplus bytes are dropped. |
| Protocol.NegativeLengthNeverDispatches | server.py:73-79 | For a negative announced length, the count of bytes still expected never reaches 0, so the message is never dispatched. |
| Protocol.NewTxnOnFreshStore | server.py:129-135 | NEW_TXN "f.txt" on an empty log gets ACK with id 1. |
| Protocol.Server.constructor | server.py:23-34 | A new connection expects its first line, has no id and no body, and has written nothing. |
| Protocol.Server.SendError | server.py:86-92 | Writes the ERROR frame echoing the id, or -1 if there is none, then closes. |
| Protocol.Server.SendAck | server.py:94-97 | Writes the ACK frame and closes. |
| Protocol.Server.SendAskResend | server.py:99-104 | Writes one ASK_RESEND frame per missing chunk, then closes. |
| Protocol.Server.Drop | server.py:121-135 | A handler that raises writes nothing, and the connection is dropped. |
| Protocol.Server.ProcessRead | server.py:121-127 | Writes what `Respond` gives for READ: the error frame or the file's bytes. A READ with no body raises, so nothing is written. |
| Protocol.Server.ProcessNewTxn | server.py:129-135 | Performs startNewTxn and writes the ACK carrying the new id, or the error frame. A missing or empty name raises, so nothing is written. |
| Protocol.Server.ProcessWrite | server.py:137-141 | Writes what `Respond` gives for WRITE: the error frame when saveWrite refuses, with or without a body, and nothing otherwise; then closes. |
| Protocol.Server.ProcessAbort | server.py:143-148 | Performs abortTxn and writes the ACK or the error frame. |
| Protocol.Server.ProcessCommit | server.py:150-157 | Performs commitTxn and writes the ACK, the error frame, or the resend frames. |
| Protocol.Server.ProcessMessage | server.py:106-119 | Dispatches on the method, and keeps the log invariant. The new log and the bytes written are those `Respond` gives for the assembled request. |
| Protocol.Server.ReadHeader | server.py:41-61 | For the first line, either a 204 error frame with the echo `ParseHeader` computes (then closes), or the header's method, id, seq and length are stored and nothing is written. |
| Protocol.Server.LineReceived | server.py:39-71 | The first line is read as a header. On a length-0 message the blank line only clears `data`, and the next line dispatches. On other messages the blank line switches to raw mode with an empty body. Any other line changes nothing. |
| Protocol.Server.RawDataReceived | server.py:73-79 | One step of `Collect`. `len(buf) + remaining` equals the announced length throughout, and `buf` never exceeds a positive announced length. The message is dispatched, through `Respond`, exactly when `remaining` reaches 0, and never for a negative length. |
| Protocol.Server.TimeoutConnection | server.py:81-84 | Writes a 204 timeout error echoing the id or -1, closes, and leaves the log alone. |
| Protocol.NonNumericSeqScenario | server.py:39-59 | On a fresh connection, the line "WRITE 1 [5] 0" produces the error frame echoing id 1. |
| Protocol.NewTxnHeaderThenBlank | server.py:39-71 | On a new connection, the header "NEW_TXN 0 0 5" and a blank line store the header's fields, write nothing, leave the log alone, and switch to raw mode expecting 5 body bytes. |
| Protocol.NewTxnOverTheWire | server.py:39-135 | Header "NEW_TXN 0 0 5", a blank line and the raw bytes "f.txt" on a fresh server produce the ACK frame for id 1. |

## Left out

- The Twisted transport, reactor and `LineReceiver` buffering are not modelled. Lines and raw chunks are method calls, and `out`/`closed` stand for the transport.
  - Methods require an open connection, because `LineReceiver` stops delivering once the transport is disconnecting.
- The 3-second timer (server.py:33-37) is not modelled. A timeout is the call `TimeoutConnection`, allowed whenever the connection is open.
- File-system work is abstract: `chdir`, `makedirs`, lock-file cleanup at start-up, `shutil.copy2`/`move`, `fsync`, and the `open`/`read` calls.
  - The working directory is a map from names to contents plus a set of directory names.
  - A failing commit is the flag `ioFails`; the outcome of a read is `ReadIo`.
  - A commit whose I/O fails leaves the file unchanged.
- The busy-wait on the lock file (server.py:325-327) exists only for concurrent commits. The model takes the lock to be free.
- `shelve` persistence and `sync()` are not modelled. The log is an in-memory value, and a restart with an existing log is `Reopen`.
- `time.time()` is a float in the source. The model passes `now` and the start time as integers.
- `print` logging and `runserver` (command-line parsing, `listenTCP`) are not modelled. remote.py is not part of this model: it delegates to a module that is not available.
- TxnLog.StartNewTxn: requires a non-empty name. An empty name raises at `new_file[0]` in the source; at the protocol level that request writes nothing and changes nothing.
- Protocol.Respond: a WRITE whose header announced length 0 has body `None`. When its transaction is open, the source stores `None` as that chunk, and a later COMMIT covering it raises inside the join. The model sends no reply to such a WRITE, as the source does, but leaves the log unchanged. Unknown and finished transactions get their 201/202 frames as in the source.
- Protocol.Server.ProcessWrite: the same `None` chunk is not stored, for the same reason.
- Factory.ServerFactory.CommitTxn: the order in which the chunk dictionary is iterated is the parameter `order`. The lemmas assume it lists every key once.
- Factory.ServerFactory.Sweep: the order of `items()` is the parameter `ids`, which must list every record's id. The sweep runs when the factory is destroyed, at a time `now` passed in.
- Python 2 `str` values are byte strings. The model uses `string`, with each character standing for one byte; nothing bounds the characters below 256. Lengths (`len(reason)`, `data[:n]`, the body count) count bytes only under that reading.
- TxnLog.Sweep: `__del__` calls `time.time()` afresh for every record (server.py:208). The model uses one `now` for the whole sweep, so a sweep that straddles the five-minute mark of a record may differ.
- TxnLog.NameError: `os.path.isdir` is true of "." and ".." in the source (server.py:237), so those names get the directory reason. The model reports the directory reason only for names listed in `dirs`, and its scenarios use an empty `dirs`; "." there gets the hidden-file reason instead. Both are refusals with 205.
- Python 2 distinguishes `long` from `int` in `isinstance(self.txn, int)`. Ids that large are not modelled: any parsed id is echoed.
