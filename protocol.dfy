/**
 `Server`: one connection's side of the wire protocol. A request is a
 header line `METHOD txn seq length`, a blank line, and `length` raw bytes
 (nothing at all when `length` is 0, in which case the line after the blank
 one triggers dispatch). The parser keeps its progress in the fields
 `firstLine`, `data`, `length` and `buf`; every reply closes the connection.
 */
module Protocol {
  import opened PyText
  import opened TxnLog
  import opened Factory

  // ---------------------------------------------------------------- the header

  /** A header that passed validation. */
  datatype Header = Header(verb: string, txn: int, seqNo: int, length: int)

  /** The outcome of reading a header line: a request header, or a 204 error
      whose frame echoes `echo` as the transaction id. */
  datatype Parsed = Accepted(header: Header) | Rejected(echo: int, reason: string)

  const WrongFieldCount := "Header has the wrong number of fields."
  const NonNumeric := "Header has non-numeric value."
  const NegativeSeq := "Sequence number has to be a positive integer."

  /** The validation `lineReceived` performs on the first line's fields.
      The id is echoed once `int(txn)` has succeeded, -1 before. */
  function CheckFields(fields: seq<string>): Parsed
  {
    if |fields| != 4 then Rejected(-1, WrongFieldCount)
    else
      var txn := ParseInt(fields[1]);
      var seqNo := ParseInt(fields[2]);
      var length := ParseInt(fields[3]);
      if txn.None? then Rejected(-1, NonNumeric)
      else if seqNo.None? || length.None? then Rejected(txn.value, NonNumeric)
      else if seqNo.value < 0 then Rejected(txn.value, NegativeSeq)
      else Accepted(Header(fields[0], txn.value, seqNo.value, length.value))
  }

  /** The header of an accepted line is one the client could have written:
      its method is a single field and its sequence number is not negative.
      A refusal blames the field count exactly when that count is wrong. */
  function ParseHeader(line: string): (p: Parsed)
    ensures p.Accepted? ==> IsWord(p.header.verb) && p.header.seqNo >= 0
    ensures p.Rejected? ==> (p.reason == WrongFieldCount <==> |Split(line)| != 4)
  {
    CheckFields(Split(line))
  }

  /** A line is refused exactly when it does not have four fields, one of
      the three numbers is not an integer, or the sequence number is
      negative; the refusal echoes the id when the id itself parsed, and -1
      otherwise. */
  lemma ParseHeaderRejects(line: string)
    ensures var fields := Split(line);
      var p := ParseHeader(line);
      && (p.Rejected? <==>
            || |fields| != 4
            || ParseInt(fields[1]).None? || ParseInt(fields[2]).None? || ParseInt(fields[3]).None?
            || ParseInt(fields[2]).value < 0)
      && (p.Rejected? ==>
            p.echo == if |fields| == 4 && ParseInt(fields[1]).Some? then ParseInt(fields[1]).value else -1)
  {
  }

  /** A header written with single spaces and `%d` numbers parses back to
      what was written, whenever the sequence number is not negative. */
  lemma ParseHeaderRoundTrip(h: Header)
    requires IsWord(h.verb) && h.seqNo >= 0
    ensures ParseHeader(JoinWords([h.verb, FormatInt(h.txn), FormatInt(h.seqNo), FormatInt(h.length)])) == Accepted(h)
  {
    var ws := [h.verb, FormatInt(h.txn), FormatInt(h.seqNo), FormatInt(h.length)];
    FormatIntIsWord(h.txn);
    FormatIntIsWord(h.seqNo);
    FormatIntIsWord(h.length);
    SplitJoinWords(ws);
    ParseFormatInt(h.txn);
    ParseFormatInt(h.seqNo);
    ParseFormatInt(h.length);
  }

  /** Writing an accepted header back out in canonical form (single
      spaces, `%d` numbers) gives a line that is accepted with the same
      header: parsing forgets only spacing, signs and leading zeros. */
  lemma AcceptedHeaderReprints(line: string)
    requires ParseHeader(line).Accepted?
    ensures var h := ParseHeader(line).header;
      ParseHeader(JoinWords([h.verb, FormatInt(h.txn), FormatInt(h.seqNo), FormatInt(h.length)])) == Accepted(h)
  {
    ParseHeaderRoundTrip(ParseHeader(line).header);
  }

  lemma JoinFour(a: string, b: string, c: string, d: string)
    ensures JoinWords([a, b, c, d]) == a + " " + b + " " + c + " " + d
  {
    assert [a, b, c, d][1..] == [b, c, d];
    assert [b, c, d][1..] == [c, d];
    assert [c, d][1..] == [d];
    assert JoinWords([c, d]) == c + " " + d;
    assert JoinWords([b, c, d]) == b + " " + (c + " " + d);
    assert JoinWords([a, b, c, d]) == a + " " + (b + " " + (c + " " + d));
  }

  lemma SplitFour(a: string, b: string, c: string, d: string)
    requires IsWord(a) && IsWord(b) && IsWord(c) && IsWord(d)
    ensures Split(a + " " + b + " " + c + " " + d) == [a, b, c, d]
  {
    JoinFour(a, b, c, d);
    SplitJoinWords([a, b, c, d]);
  }

  lemma ParseHeaderOfFields(line: string, fields: seq<string>)
    requires Split(line) == fields
    ensures ParseHeader(line) == CheckFields(fields)
  {
  }

  /** "WRITE 1" has two fields: the error echoes -1. */
  lemma ShortHeaderEchoesMinusOne()
    ensures ParseHeader("WRITE 1") == Rejected(-1, WrongFieldCount)
  {
    assert Split("WRITE 1") == ["WRITE", "1"] by {
      assert IsWord("WRITE") && IsWord("1");
      assert ["WRITE", "1"][1..] == ["1"];
      assert "WRITE 1" == JoinWords(["WRITE", "1"]);
      SplitJoinWords(["WRITE", "1"]);
    }
    ParseHeaderOfFields("WRITE 1", ["WRITE", "1"]);
  }

  /** "WRITE a 1 0": the id is not a number, so -1 is echoed. */
  lemma BadTxnEchoesMinusOne()
    ensures ParseHeader("WRITE a 1 0") == Rejected(-1, NonNumeric)
  {
    var fields := ["WRITE", "a", "1", "0"];
    assert Split("WRITE a 1 0") == fields by {
      assert IsWord("WRITE") && IsWord("a") && IsWord("1") && IsWord("0");
      SplitFour("WRITE", "a", "1", "0");
      assert "WRITE a 1 0" == "WRITE" + " " + "a" + " " + "1" + " " + "0";
    }
    ParseHeaderOfFields("WRITE a 1 0", fields);
    assert !IsDigit("a"[0]);
  }

  lemma SplitBadSeqHeader()
    ensures Split("WRITE 1 [5] 0") == ["WRITE", "1", "[5]", "0"]
  {
    assert IsWord("WRITE") && IsWord("1") && IsWord("[5]") && IsWord("0");
    SplitFour("WRITE", "1", "[5]", "0");
    assert "WRITE 1 [5] 0" == "WRITE" + " " + "1" + " " + "[5]" + " " + "0";
  }

  lemma CheckBadSeqFields()
    ensures CheckFields(["WRITE", "1", "[5]", "0"]) == Rejected(1, NonNumeric)
  {
    assert ParseInt("1") == Some(1) by {
      assert "1"[..0] == "";
    }
    assert ParseInt("[5]").None? by {
      assert !IsDigit("[5]"[0]);
    }
  }

  /** "WRITE 1 [5] 0": the id parsed before the sequence number failed, so
      the error echoes 1. */
  lemma BadSeqEchoesTxn()
    ensures ParseHeader("WRITE 1 [5] 0") == Rejected(1, NonNumeric)
  {
    SplitBadSeqHeader();
    CheckBadSeqFields();
    ParseHeaderOfFields("WRITE 1 [5] 0", ["WRITE", "1", "[5]", "0"]);
  }

  // ---------------------------------------------------------------- the replies

  /** `"ERROR %d 0 %d %d\r\n\r\n%s\r\n\r\n" % (txn, err_num, len(reason), reason)`. */
  function ErrorFrame(txn: int, code: int, reason: string): (f: string)
    ensures "ERROR " <= f
    ensures |f| >= |reason| + 4 && f[|f| - |reason| - 4..] == reason + "\r\n\r\n"
  {
    "ERROR " + FormatInt(txn) + " 0 " + FormatInt(code) + " " + FormatInt(|reason|)
      + "\r\n\r\n" + reason + "\r\n\r\n"
  }

  /** `"ACK %d 0 0 0\r\n\r\n\r\n" % txn`. */
  function AckFrame(txn: int): (f: string)
    ensures "ACK " <= f
  {
    "ACK " + FormatInt(txn) + " 0 0 0\r\n\r\n\r\n"
  }

  /** `"ASK_RESEND %d %d 0 0\r\n\r\n\r\n" % (txn, write)`. */
  function ResendFrame(txn: int, write: int): (f: string)
    ensures "ASK_RESEND " <= f
  {
    "ASK_RESEND " + FormatInt(txn) + " " + FormatInt(write) + " 0 0\r\n\r\n\r\n"
  }

  /** One ASK_RESEND frame per missing chunk, in the order given: nothing at
      all exactly when no chunk is missing. */
  function ResendFrames(txn: int, missing: seq<int>): (f: string)
    ensures f == [] <==> missing == []
  {
    if missing == [] then "" else ResendFrame(txn, missing[0]) + ResendFrames(txn, missing[1..])
  }

  function Formatted(nums: seq<int>): (ws: seq<string>)
    ensures |ws| == |nums|
  {
    if nums == [] then [] else [FormatInt(nums[0])] + Formatted(nums[1..])
  }

  /** A reply's first line: its kind and its numbers, single-spaced. */
  function FrameLine(kind: string, nums: seq<int>): string {
    JoinWords([kind] + Formatted(nums))
  }

  function ParseAll(fields: seq<string>): Option<seq<int>> {
    if fields == [] then Some([])
    else match (ParseInt(fields[0]), ParseAll(fields[1..]))
      case (Some(n), Some(ns)) => Some([n] + ns)
      case _ => None
  }

  /** How a client reads a reply's first line: the kind, then integers. */
  function ReadReplyLine(line: string): Option<(string, seq<int>)> {
    var fields := Split(line);
    if fields == [] then None
    else match ParseAll(fields[1..])
      case Some(ns) => Some((fields[0], ns))
      case None => None
  }

  lemma {:induction false} ParseAllFormatted(nums: seq<int>)
    ensures ParseAll(Formatted(nums)) == Some(nums)
    ensures forall i :: 0 <= i < |nums| ==> IsWord(Formatted(nums)[i])
  {
    if nums != [] {
      var fs := Formatted(nums);
      assert fs == [FormatInt(nums[0])] + Formatted(nums[1..]);
      assert fs[1..] == Formatted(nums[1..]);
      ParseFormatInt(nums[0]);
      FormatIntIsWord(nums[0]);
      ParseAllFormatted(nums[1..]);
      assert nums == [nums[0]] + nums[1..];
    }
  }

  /** A client reading a frame line gets back the kind and numbers the
      server wrote into it. */
  lemma FrameLineReadsBack(kind: string, nums: seq<int>)
    requires IsWord(kind)
    ensures ReadReplyLine(FrameLine(kind, nums)) == Some((kind, nums))
  {
    ParseAllFormatted(nums);
    var ws := [kind] + Formatted(nums);
    SplitJoinWords(ws);
    assert ws[1..] == Formatted(nums);
  }

  lemma FrameLineOfFour(kind: string, a: int, b: int, c: int, d: int)
    ensures FrameLine(kind, [a, b, c, d])
         == kind + " " + FormatInt(a) + " " + FormatInt(b) + " " + FormatInt(c) + " " + FormatInt(d)
  {
    assert [d][1..] == [];
    assert Formatted([d]) == [FormatInt(d)];
    assert [c, d][1..] == [d];
    assert Formatted([c, d]) == [FormatInt(c), FormatInt(d)];
    assert [b, c, d][1..] == [c, d];
    assert Formatted([b, c, d]) == [FormatInt(b), FormatInt(c), FormatInt(d)];
    assert [a, b, c, d][1..] == [b, c, d];
    assert Formatted([a, b, c, d]) == [FormatInt(a), FormatInt(b), FormatInt(c), FormatInt(d)];
    var ws := [kind, FormatInt(a), FormatInt(b), FormatInt(c), FormatInt(d)];
    assert ws[1..] == [FormatInt(a), FormatInt(b), FormatInt(c), FormatInt(d)];
    JoinFour(FormatInt(a), FormatInt(b), FormatInt(c), FormatInt(d));
  }

  /** Appending `a` then `b` is appending the single piece `ab`. */
  lemma AppendPieces(x: string, a: string, b: string, ab: string)
    requires a + b == ab
    ensures x + a + b == x + ab
  {
  }

  lemma ErrorFrameLayout(txn: int, code: int, reason: string)
    ensures ErrorFrame(txn, code, reason)
         == FrameLine("ERROR", [txn, 0, code, |reason|]) + "\r\n\r\n" + reason + "\r\n\r\n"
  {
    var t := FormatInt(txn);
    FrameLineOfFour("ERROR", txn, 0, code, |reason|);
    assert FormatInt(0) == "0";
    assert "ERROR" + " " == "ERROR ";
    AppendPieces("ERROR " + t, " ", "0", " 0");
    AppendPieces("ERROR " + t, " 0", " ", " 0 ");
  }

  lemma AckFrameLayout(txn: int)
    ensures AckFrame(txn) == FrameLine("ACK", [txn, 0, 0, 0]) + "\r\n\r\n\r\n"
  {
    var x := "ACK " + FormatInt(txn);
    FrameLineOfFour("ACK", txn, 0, 0, 0);
    assert FormatInt(0) == "0";
    assert "ACK" + " " == "ACK ";
    AppendPieces(x, " ", "0", " 0");
    AppendPieces(x, " 0", " ", " 0 ");
    AppendPieces(x, " 0 ", "0", " 0 0");
    AppendPieces(x, " 0 0", " ", " 0 0 ");
    AppendPieces(x, " 0 0 ", "0", " 0 0 0");
    AppendPieces(x, " 0 0 0", "\r\n\r\n\r\n", " 0 0 0\r\n\r\n\r\n");
  }

  lemma ResendFrameLayout(txn: int, write: int)
    ensures ResendFrame(txn, write) == FrameLine("ASK_RESEND", [txn, write, 0, 0]) + "\r\n\r\n\r\n"
  {
    var x := "ASK_RESEND " + FormatInt(txn) + " " + FormatInt(write);
    FrameLineOfFour("ASK_RESEND", txn, write, 0, 0);
    assert FormatInt(0) == "0";
    assert "ASK_RESEND" + " " == "ASK_RESEND ";
    AppendPieces(x, " ", "0", " 0");
    AppendPieces(x, " 0", " ", " 0 ");
    AppendPieces(x, " 0 ", "0", " 0 0");
    AppendPieces(x, " 0 0", "\r\n\r\n\r\n", " 0 0\r\n\r\n\r\n");
  }

  /** An error frame is a frame line "ERROR txn 0 code len" that reads back
      as such, a blank line, and then exactly the announced number of
      reason bytes. */
  lemma ErrorFrameReadsBack(txn: int, code: int, reason: string)
    ensures var line := FrameLine("ERROR", [txn, 0, code, |reason|]);
      && ErrorFrame(txn, code, reason) == line + "\r\n\r\n" + reason + "\r\n\r\n"
      && ReadReplyLine(line) == Some(("ERROR", [txn, 0, code, |reason|]))
  {
    ErrorFrameLayout(txn, code, reason);
    FrameLineReadsBack("ERROR", [txn, 0, code, |reason|]);
  }

  /** An ACK frame's line reads back as "ACK txn 0 0 0". */
  lemma AckFrameReadsBack(txn: int)
    ensures var line := FrameLine("ACK", [txn, 0, 0, 0]);
      && AckFrame(txn) == line + "\r\n\r\n\r\n"
      && ReadReplyLine(line) == Some(("ACK", [txn, 0, 0, 0]))
  {
    AckFrameLayout(txn);
    FrameLineReadsBack("ACK", [txn, 0, 0, 0]);
  }

  /** An ASK_RESEND frame's line reads back as "ASK_RESEND txn write 0 0". */
  lemma ResendFrameReadsBack(txn: int, write: int)
    ensures var line := FrameLine("ASK_RESEND", [txn, write, 0, 0]);
      && ResendFrame(txn, write) == line + "\r\n\r\n\r\n"
      && ReadReplyLine(line) == Some(("ASK_RESEND", [txn, write, 0, 0]))
  {
    ResendFrameLayout(txn, write);
    FrameLineReadsBack("ASK_RESEND", [txn, write, 0, 0]);
  }

  /** The frames for `missing` are the frames for any split of it, one
      after the other: the client sees one request per missing chunk, in
      the order listed. */
  lemma {:induction false} ResendFramesSplit(txn: int, front: seq<int>, back: seq<int>)
    ensures ResendFrames(txn, front + back) == ResendFrames(txn, front) + ResendFrames(txn, back)
  {
    if front != [] {
      assert (front + back)[1..] == front[1..] + back;
      ResendFramesSplit(txn, front[1..], back);
    } else {
      assert front + back == back;
    }
  }

  // -------------------------------------------------------- dispatch on the verb

  /** The message `processMessage` acts on. `body` is None when the header
      announced length 0: `buf` was then never assigned. */
  datatype Request = Request(verb: string, txn: int, seqNo: int, body: Option<string>)

  /** What the outside world contributes to one dispatch: the clock, the
      iteration order of the committing record's chunks, whether file I/O
      during a commit fails, and how reading a file goes. */
  datatype Env = Env(now: int, order: seq<int>, ioFails: bool, readIo: ReadIo)

  const UnknownMethod := "Method does not exist."

  /** `processMessage` as a function of the log: the new store and the
      bytes written before the connection is closed. A request whose handler
      raises (a READ or NEW_TXN without a body, an empty NEW_TXN name) writes
      nothing and changes nothing. Only NEW_TXN moves the id counter, only
      COMMIT touches the files, READ and unknown methods change nothing, no
      record is ever dropped, and a WRITE goes unanswered exactly when its
      transaction is open. */
  function Respond(s: Store, req: Request, env: Env): (r: Step<string>)
    ensures req.verb == "READ" || !KnownVerb(req.verb) ==> r.after == s
    ensures req.verb != "NEW_TXN" ==> r.after.nextId == s.nextId
    ensures req.verb != "COMMIT" ==> r.after.files == s.files
    ensures s.log.Keys <= r.after.log.Keys && r.after.dirs == s.dirs
    ensures req.verb == "WRITE" ==>
              (r.answer == [] <==> req.txn in s.log && s.log[req.txn].status.NewTxn?)
  {
    if req.verb == "READ" then
      if req.body.None? then Step(s, "")
      else
        var (err, buf) := ReadFile(s, req.body.value, env.readIo);
        Step(s, if err != 0 then ErrorFrame(req.txn, err, buf) else buf)
    else if req.verb == "NEW_TXN" then
      if req.body.None? || req.body.value == [] then Step(s, "")
      else
        var r := StartNewTxn(s, req.body.value, env.now);
        var (id, reply) := r.answer;
        Step(r.after, if reply.Fail? then ErrorFrame(req.txn, reply.code, reply.reason) else AckFrame(id))
    else if req.verb == "WRITE" then
      var r := SaveWrite(s, req.txn, req.seqNo, if req.body.Some? then req.body.value else "");
      if r.answer.Fail? then Step(r.after, ErrorFrame(req.txn, r.answer.code, r.answer.reason))
      else if req.body.None? then Step(s, "")
      else Step(r.after, "")
    else if req.verb == "COMMIT" then
      var r := CommitTxn(s, req.txn, req.seqNo, env.order, env.ioFails);
      Step(r.after,
           match r.answer
           case Ack => AckFrame(req.txn)
           case Error(code, reason) => ErrorFrame(req.txn, code, reason)
           case AskResend(missing) => ResendFrames(req.txn, missing))
    else if req.verb == "ABORT" then
      var r := AbortTxn(s, req.txn);
      Step(r.after, if r.answer.Fail? then ErrorFrame(req.txn, r.answer.code, r.answer.reason) else AckFrame(req.txn))
    else Step(s, ErrorFrame(req.txn, BadRequest, UnknownMethod))
  }

  predicate KnownVerb(verb: string) {
    verb in {"READ", "NEW_TXN", "WRITE", "COMMIT", "ABORT"}
  }

  /** A WRITE whose header announced length 0 still reaches saveWrite: an
      unknown id gets 201 and a finished transaction 202. Only for an open
      transaction is the request dropped without a reply. The log never
      changes. */
  lemma WriteWithoutBody(s: Store, txn: int, seqNo: int, env: Env)
    ensures var r := Respond(s, Request("WRITE", txn, seqNo, None), env);
      && r.after == s
      && (txn !in s.log ==> r.answer == ErrorFrame(txn, UnknownTxn, "Unknown transaction id."))
      && (txn in s.log && s.log[txn].status == Abort ==>
            r.answer == ErrorFrame(txn, InvalidOperation, "Transaction has been aborted."))
      && (txn in s.log && s.log[txn].status == Commit ==>
            r.answer == ErrorFrame(txn, InvalidOperation, "Transaction has been comitted already."))
      && (txn in s.log && s.log[txn].status == NewTxn ==> r.answer == "")
  {
  }

  /** Any other verb gets a 204 error and leaves the log alone. */
  lemma UnknownVerbRejected(s: Store, req: Request, env: Env)
    requires !KnownVerb(req.verb)
    ensures Respond(s, req, env) == Step(s, ErrorFrame(req.txn, BadRequest, UnknownMethod))
  {
  }

  /** Dispatching a request keeps the log invariant and only lets the store
      evolve: finished transactions are never touched, ids never reused. */
  lemma RespondEvolves(s: Store, req: Request, env: Env)
    requires Valid(s)
    ensures Valid(Respond(s, req, env).after) && Evolves(s, Respond(s, req, env).after)
  {
    var r := Respond(s, req, env);
    var b := if req.body.Some? then req.body.value else "";
    if req.verb == "READ" || !KnownVerb(req.verb) {
      assert r.after == s;
    } else if req.verb == "NEW_TXN" {
      if req.body.Some? && b != [] {
        StartEvolves(s, b, env.now);
      } else {
        assert r.after == s;
      }
    } else if req.verb == "WRITE" {
      WriteEvolves(s, req.txn, req.seqNo, b);
    } else if req.verb == "COMMIT" {
      CommitEvolves(s, req.txn, req.seqNo, env.order, env.ioFails);
    } else {
      AbortEvolves(s, req.txn);
    }
  }



  /** A second COMMIT of a committed transaction writes the same ACK and
      changes nothing. */
  lemma CommitRetryAcks(s: Store, txn: int, seqNo: int, seqNo': int, env: Env, env': Env)
    requires CommitTxn(s, txn, seqNo, env.order, env.ioFails).answer == Ack
    ensures var first := Respond(s, Request("COMMIT", txn, seqNo, None), env);
      && first.answer == AckFrame(txn)
      && Respond(first.after, Request("COMMIT", txn, seqNo', None), env') == Step(first.after, AckFrame(txn))
  {
    CommitIdempotent(s, txn, seqNo, env.order, env.ioFails, seqNo', env'.order, env'.ioFails);
  }

  // ------------------------------------------------------------ body framing

  function Flatten(chunks: seq<string>): string {
    if chunks == [] then "" else chunks[0] + Flatten(chunks[1..])
  }

  /** The body countdown of `rawDataReceived` over a stream of chunks: each
      chunk is cut to the bytes still expected and appended to `buf`; once
      nothing is expected the message is dispatched and no chunk is read. */
  function Collect(buf: string, remaining: int, chunks: seq<string>): (r: (string, int))
    ensures buf <= r.0
    ensures remaining >= 0 ==> 0 <= r.1 <= remaining && |r.0| + r.1 == |buf| + remaining
    decreases |chunks|
  {
    if chunks == [] || remaining == 0 then (buf, remaining)
    else
      var piece := Slice(chunks[0], remaining);
      Collect(buf + piece, remaining - |piece|, chunks[1..])
  }

  function Min(a: int, b: int): int {
    if a < b then a else b
  }

  /** Taking `n` bytes from `c + rest`, cut at the first chunk. */
  lemma TakeAcross(c: string, rest: string, n: int)
    requires 0 <= n <= |c| + |rest|
    ensures n <= |c| ==> (c + rest)[..n] == c[..n]
    ensures n > |c| ==> (c + rest)[..n] == c + rest[..n - |c|]
  {
  }

  /** With a non-negative announced length, the body collected is exactly
      the first `remaining` bytes of the stream (all of it if shorter), and
      the countdown is what is left: so the message is dispatched exactly
      when the stream has delivered the announced length, and surplus bytes
      are dropped. */
  lemma {:induction false} CollectTakesPrefix(buf: string, remaining: int, chunks: seq<string>)
    requires remaining >= 0
    ensures var (b, r) := Collect(buf, remaining, chunks);
      var n := Min(remaining, |Flatten(chunks)|);
      b == buf + Flatten(chunks)[..n] && r == remaining - n
    decreases |chunks|
  {
    if chunks == [] || remaining == 0 {
      assert Flatten(chunks)[..0] == [];
    } else {
      var c := chunks[0];
      var rest := Flatten(chunks[1..]);
      assert Flatten(chunks) == c + rest;
      var piece := Slice(c, remaining);
      var r' := remaining - |piece|;
      assert Collect(buf, remaining, chunks) == Collect(buf + piece, r', chunks[1..]);
      CollectTakesPrefix(buf + piece, r', chunks[1..]);
      var n' := Min(r', |rest|);
      if remaining <= |c| {
        TakeAcross(c, rest, remaining);
        assert piece == c[..remaining] && r' == 0 && n' == 0;
      } else {
        TakeAcross(c, rest, |c| + n');
        assert piece == c;
      }
    }
  }


  /** A negative announced length only grows more negative: the message is
      never dispatched and the connection waits for the timeout. */
  lemma {:induction false} NegativeLengthNeverDispatches(buf: string, remaining: int, chunks: seq<string>)
    requires remaining < 0
    ensures Collect(buf, remaining, chunks).1 <= remaining < 0
    decreases |chunks|
  {
    if chunks != [] {
      var piece := Slice(chunks[0], remaining);
      NegativeLengthNeverDispatches(buf + piece, remaining - |piece|, chunks[1..]);
    }
  }

  // ------------------------------------------------------- the connection state

  class Server {
    const factory: ServerFactory
    /** No line has arrived yet. */
    var firstLine: bool
    /** Cleared by the blank line of a length-0 message: the next line dispatches. */
    var data: bool
    /** Twisted's raw mode: bytes go to RawDataReceived instead of lines. */
    var rawMode: bool
    /** A reply has been written and the transport asked to close. */
    var closed: bool
    var verb: string
    /** `self.txn` when it holds an int; None while it is unset or a string. */
    var txn: Option<int>
    var seqNo: int
    /** The body bytes still expected. */
    var length: int
    /** The body received so far; None until the blank line of a message with a body. */
    var buf: Option<string>
    /** The length announced in the header. */
    ghost var declared: int
    /** Everything written to the transport. */
    var out: string

    ghost predicate Valid()
      reads this, factory
    {
      && factory.Valid()
      && (firstLine && !closed ==> !rawMode && data && buf.None? && txn.None?)
      && (!firstLine && !closed ==> txn.Some? && seqNo >= 0)
      && (!closed && !rawMode ==> buf.None? && length == declared)
      && (!closed && !data ==> length == 0 && !rawMode)
      && (!closed && rawMode ==>
            && !firstLine && buf.Some? && length != 0
            && |buf.value| + length == declared
            && (declared > 0 ==> length > 0))
    }

    constructor (f: ServerFactory)
      requires f.Valid()
      ensures Valid() && factory == f
      ensures firstLine && data && !rawMode && !closed && txn.None? && buf.None? && out == []
    {
      factory := f;
      firstLine, data, rawMode, closed := true, true, false, false;
      verb, txn, seqNo, length, buf := "", None, 0, 0, None;
      declared := 0;
      out := [];
    }

    /** `sendError`: an id that is not an int is echoed as -1. */
    method SendError(code: int, reason: string)
      modifies this`txn, this`out, this`closed
      ensures closed && txn.Some?
      ensures txn == if old(txn).Some? then old(txn) else Some(-1)
      ensures out == old(out) + ErrorFrame(txn.value, code, reason)
    {
      if txn.None? {
        txn := Some(-1);
      }
      out := out + ErrorFrame(txn.value, code, reason);
      closed := true;
    }

    method SendAck()
      requires txn.Some?
      modifies this`out, this`closed
      ensures closed && out == old(out) + AckFrame(txn.value)
    {
      out := out + AckFrame(txn.value);
      closed := true;
    }

    method SendAskResend(missing: seq<int>)
      requires txn.Some?
      modifies this`out, this`closed
      ensures closed && out == old(out) + ResendFrames(txn.value, missing)
    {
      out := out + ResendFrames(txn.value, missing);
      closed := true;
    }

    /** The store and the transport are what `Respond` gives for the request
        this connection assembled, from store `before` and output `out0`,
        with `t` as the header's id. */
    ghost predicate Answered(before: Store, out0: string, t: int, env: Env)
      reads this, factory
    {
      var step := Respond(before, Request(verb, t, seqNo, buf), env);
      factory.Abs() == step.after && out == out0 + step.answer
    }

    /** A request whose handler raises: nothing is written, the connection drops. */
    method Drop()
      modifies this`closed
      ensures closed
    {
      closed := true;
    }

    method ProcessRead(env: Env)
      requires factory.Valid() && !firstLine && txn.Some? && verb == "READ"
      modifies this`txn, this`out, this`closed
      ensures Valid() && closed && Answered(old(factory.Abs()), old(out), old(txn).value, env)
    {
      if buf.None? {
        Drop();
        return;
      }
      var err, content := factory.ReadFile(buf.value, env.readIo);
      if err != 0 {
        SendError(err, content);
      } else {
        out := out + content;
        closed := true;
      }
    }

    method ProcessNewTxn(env: Env)
      requires factory.Valid() && !firstLine && txn.Some? && verb == "NEW_TXN"
      modifies this`txn, this`out, this`closed, factory
      ensures Valid() && closed && Answered(old(factory.Abs()), old(out), old(txn).value, env)
    {
      if buf.None? || buf.value == [] {
        Drop();
        return;
      }
      ghost var step := StartNewTxn(factory.Abs(), buf.value, env.now);
      var id, reply := factory.StartNewTxn(buf.value, env.now);
      assert factory.Abs() == step.after && (id, reply) == step.answer;
      if reply.Fail? {
        SendError(reply.code, reply.reason);
      } else {
        txn := Some(id);
        SendAck();
      }
    }

    method ProcessWrite(env: Env)
      requires factory.Valid() && !firstLine && txn.Some? && verb == "WRITE"
      modifies this`txn, this`out, this`closed, factory
      ensures Valid() && closed && Answered(old(factory.Abs()), old(out), old(txn).value, env)
    {
      if buf.None? && txn.value in factory.log && factory.log[txn.value].status == NewTxn {
        Drop();
        return;
      }
      var reply := factory.SaveWrite(txn.value, seqNo, if buf.Some? then buf.value else "");
      if reply.Fail? {
        SendError(reply.code, reply.reason);
      }
      closed := true;
    }

    method ProcessAbort(env: Env)
      requires factory.Valid() && !firstLine && txn.Some? && verb == "ABORT"
      modifies this`txn, this`out, this`closed, factory
      ensures Valid() && closed && Answered(old(factory.Abs()), old(out), old(txn).value, env)
    {
      var reply := factory.AbortTxn(txn.value);
      if reply.Fail? {
        SendError(reply.code, reply.reason);
      } else {
        SendAck();
      }
    }

    method ProcessCommit(env: Env)
      requires factory.Valid() && !firstLine && txn.Some? && verb == "COMMIT"
      modifies this`txn, this`out, this`closed, factory
      ensures Valid() && closed && Answered(old(factory.Abs()), old(out), old(txn).value, env)
    {
      var decision := factory.CommitTxn(txn.value, seqNo, env.order, env.ioFails);
      match decision
      case Ack => SendAck();
      case Error(code, reason) => SendError(code, reason);
      case AskResend(missing) => SendAskResend(missing);
    }

    /** `processMessage`: hand the assembled request to the handler for its
        verb, which writes the reply and closes the connection. */
    method ProcessMessage(env: Env)
      requires factory.Valid() && !firstLine && txn.Some?
      modifies this`txn, this`out, this`closed, factory
      ensures Valid() && closed && Answered(old(factory.Abs()), old(out), old(txn).value, env)
    {
      if verb == "READ" {
        ProcessRead(env);
      } else if verb == "NEW_TXN" {
        ProcessNewTxn(env);
      } else if verb == "WRITE" {
        ProcessWrite(env);
      } else if verb == "COMMIT" {
        ProcessCommit(env);
      } else if verb == "ABORT" {
        ProcessAbort(env);
      } else {
        SendError(BadRequest, UnknownMethod);
      }
    }

    /** The first line of a connection: the header. */
    method ReadHeader(line: string)
      requires Valid() && !closed && firstLine
      modifies this`firstLine, this`verb, this`txn, this`seqNo, this`length, this`declared, this`out, this`closed
      ensures Valid() && !firstLine && factory.Abs() == old(factory.Abs())
      ensures var p := ParseHeader(line);
        && (p.Rejected? ==> closed && out == old(out) + ErrorFrame(p.echo, BadRequest, p.reason))
        && (p.Accepted? ==>
              && !closed && out == old(out) && !rawMode && data && buf.None?
              && verb == p.header.verb && txn == Some(p.header.txn)
              && seqNo == p.header.seqNo && length == p.header.length && declared == length)
    {
      firstLine := false;
      match ParseHeader(line)
      case Rejected(echo, reason) =>
        // `self.txn` already holds `int(txn)` when that much parsed; the
        // frame echoes -1 otherwise.
        txn := Some(echo);
        SendError(BadRequest, reason);
      case Accepted(h) =>
        verb, txn, seqNo, length := h.verb, Some(h.txn), h.seqNo, h.length;
        declared := length;
    }

    /** `lineReceived`, delivered while the connection is in line mode. */
    method LineReceived(line: string, env: Env)
      requires Valid() && !closed && !rawMode
      modifies this, factory
      ensures Valid()
      ensures old(firstLine) ==>
        var p := ParseHeader(line);
        && !firstLine && factory.Abs() == old(factory.Abs())
        && (p.Rejected? ==> closed && out == old(out) + ErrorFrame(p.echo, BadRequest, p.reason))
        && (p.Accepted? ==>
              && !closed && out == old(out) && !rawMode && data
              && verb == p.header.verb && txn == Some(p.header.txn)
              && seqNo == p.header.seqNo && length == p.header.length)
      ensures !old(firstLine) && !old(data) ==>
        closed && Answered(old(factory.Abs()), old(out), old(txn).value, env)
      ensures !old(firstLine) && old(data) ==>
        && !closed && out == old(out) && factory.Abs() == old(factory.Abs())
        && verb == old(verb) && txn == old(txn) && seqNo == old(seqNo) && length == old(length)
        && (line == [] && length == 0 ==> !data && !rawMode)
        && (line == [] && length != 0 ==> data && rawMode && buf == Some([]))
        && (line != [] ==> data && !rawMode && buf == old(buf))
    {
      if firstLine {
        ReadHeader(line);
        return;
      }
      if !data {
        // The rest of lineReceived only clears `data` again for a blank line.
        ProcessMessage(env);
        return;
      }
      if line == [] {
        if length == 0 {
          data := false;
          return;
        }
        buf := Some([]);
        rawMode := true;
      }
    }

    /** `rawDataReceived`: take at most the bytes still expected, and
        dispatch as soon as none are. */
    method RawDataReceived(chunk: string, env: Env)
      requires Valid() && !closed && rawMode
      modifies this`buf, this`length, this`txn, this`out, this`closed, factory
      ensures Valid()
      ensures buf.Some? && (buf.value, length) == Collect(old(buf).value, old(length), [chunk])
      ensures declared == old(declared) && |buf.value| + length == declared
      ensures declared > 0 ==> 0 <= length && |buf.value| <= declared
      ensures closed <==> length == 0
      ensures declared < 0 ==> !closed
      ensures length == 0 ==> Answered(old(factory.Abs()), old(out), old(txn).value, env)
      ensures length != 0 ==> out == old(out) && factory.Abs() == old(factory.Abs())
    {
      var piece := Slice(chunk, length);
      buf := Some(buf.value + piece);
      length := length - |piece|;
      if length == 0 {
        ProcessMessage(env);
      }
    }

    /** The 3-second timer fired before a whole message arrived. */
    method TimeoutConnection()
      requires Valid() && !closed
      modifies this
      ensures Valid() && closed
      ensures out == old(out) + ErrorFrame(if old(txn).Some? then old(txn).value else -1, BadRequest,
                                           "Connection timed out (is length longer than data?)")
      ensures factory.Abs() == old(factory.Abs())
    {
      SendError(BadRequest, "Connection timed out (is length longer than data?)");
    }
  }

  /** The header "WRITE 1 [5] 0" on a fresh connection: an error frame
      echoing id 1, and the connection closed. */
  method NonNumericSeqScenario() returns (reply: string)
    ensures reply == ErrorFrame(1, BadRequest, NonNumeric)
  {
    var f := new ServerFactory(map[], {});
    var conn := new Server(f);
    BadSeqEchoesTxn();
    conn.LineReceived("WRITE 1 [5] 0", Env(0, [], false, ReadOk));
    reply := conn.out;
  }

  lemma SplitNewTxnHeader()
    ensures Split("NEW_TXN 0 0 5") == ["NEW_TXN", "0", "0", "5"]
  {
    assert IsWord("NEW_TXN") && IsWord("0") && IsWord("5");
    SplitFour("NEW_TXN", "0", "0", "5");
    assert "NEW_TXN 0 0 5" == "NEW_TXN" + " " + "0" + " " + "0" + " " + "5";
  }

  lemma CheckNewTxnFields()
    ensures CheckFields(["NEW_TXN", "0", "0", "5"]) == Accepted(Header("NEW_TXN", 0, 0, 5))
  {
    assert ParseInt("0") == Some(0) by {
      assert "0"[..0] == "";
    }
    assert ParseInt("5") == Some(5) by {
      assert "5"[..0] == "";
    }
  }

  lemma NewTxnHeaderAccepted()
    ensures ParseHeader("NEW_TXN 0 0 5") == Accepted(Header("NEW_TXN", 0, 0, 5))
  {
    SplitNewTxnHeader();
    CheckNewTxnFields();
    ParseHeaderOfFields("NEW_TXN 0 0 5", ["NEW_TXN", "0", "0", "5"]);
  }

  /** NEW_TXN for "f.txt" on a server with an empty log and no files gets an
      ACK carrying id 1. */
  lemma NewTxnOnFreshStore(env: Env)
    ensures Respond(Fresh(map[], {}), Request("NEW_TXN", 0, 0, Some("f.txt")), env).answer == AckFrame(1)
  {
    assert NameError("f.txt", {}) == None by {
      assert "f.txt"[0] != '.';
      assert '/' !in "f.txt";
    }
  }

  /** The header "NEW_TXN 0 0 5" and the blank line on a new connection:
      the header's fields are stored, nothing is written, and the
      connection waits in raw mode for five body bytes. */
  method NewTxnHeaderThenBlank(conn: Server, env: Env)
    requires conn.Valid() && conn.firstLine && !conn.closed && conn.out == []
    modifies conn, conn.factory
    ensures conn.Valid() && !conn.closed && conn.rawMode && conn.buf == Some([]) && conn.length == 5
    ensures conn.verb == "NEW_TXN" && conn.txn == Some(0) && conn.seqNo == 0 && conn.out == []
    ensures conn.factory.Abs() == old(conn.factory.Abs())
  {
    NewTxnHeaderAccepted();
    conn.LineReceived("NEW_TXN 0 0 5", env);
    conn.LineReceived("", env);
  }

  /** A whole NEW_TXN request on a fresh server: header "NEW_TXN 0 0 5",
      the blank line, then the five bytes "f.txt" as raw data. The server
      answers with an ACK carrying the first id, 1. */
  method NewTxnOverTheWire() returns (reply: string)
    ensures reply == AckFrame(1)
  {
    var f := new ServerFactory(map[], {});
    var conn := new Server(f);
    var env := Env(0, [], false, ReadOk);
    NewTxnHeaderThenBlank(conn, env);
    assert Slice("f.txt", 5) == "f.txt";
    assert [] + "f.txt" == "f.txt";
    conn.RawDataReceived("f.txt", env);
    assert conn.buf == Some("f.txt") && conn.length == 0;
    assert conn.out == Respond(Fresh(map[], {}), Request("NEW_TXN", 0, 0, Some("f.txt")), env).answer;
    NewTxnOnFreshStore(env);
    reply := conn.out;
  }
}
