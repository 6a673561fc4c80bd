/**
 The lazy-reply session reader of src/snell/client.rs over a stream of server
 records. A physical connection carries many sessions; a zero record ends each.
 What a read may return is stated on the bytes of the session, so it cannot
 depend on how the server cut them into records.
 */
module SnellReader {
  import opened Prelude

  /** One outcome of RecordReader.read_frame_into. */
  datatype Record =
    | Data(payload: Octets)
    | End
    | Broken

  datatype ReaderError = ReadFailed | Truncated | Rejected(code: byte) | UnexpectedStatus | NotReady | WriteFailed

  // ----- Sessions in a record stream -----

  /** The payload bytes up to the first zero record, failure or end of input. */
  function SessionBytes(rs: seq<Record>): Octets {
    if rs == [] || !rs[0].Data? then [] else rs[0].payload + SessionBytes(rs[1..])
  }

  /** Whether a zero record ends the first session. */
  predicate Terminated(rs: seq<Record>) {
    rs != [] && match rs[0]
                case Data(_) => Terminated(rs[1..])
                case End => true
                case Broken => false
  }

  /** The stream after the first session's zero record. */
  function AfterEnd(rs: seq<Record>): seq<Record> {
    if rs == [] then []
    else if rs[0].End? then rs[1..]
    else AfterEnd(rs[1..])
  }

  /** The stream that the k-th session (from 0) starts with. */
  function SessionStart(rs: seq<Record>, k: nat): seq<Record>
    decreases k
  {
    if k == 0 then rs else AfterEnd(SessionStart(rs, k - 1))
  }

  // ----- The reply in front of the application bytes -----

  datatype Reply = Accepted | Refused(error: ReaderError)

  function ReplyOf(s: Octets): Reply {
    if s == [] then Refused(Truncated)
    else if s[0] == 0 then Accepted
    else if s[0] == 2 then
      if |s| >= 3 && |s| - 3 >= s[2] then Refused(Rejected(s[1])) else Refused(Truncated)
    else Refused(UnexpectedStatus)
  }

  /** What a session may deliver: its bytes without the reply, and nothing unless it was accepted. */
  function Application(s: Octets): Octets {
    if ReplyOf(s).Accepted? then s[1..] else []
  }

  /** A caller's read: into a buffer of some size, or the rest of the current record. */
  datatype ReadOp = Into(size: nat) | Chunk

  datatype Status = Fine | AtEnd | Failed

  class SnellReader {
    var records: seq<Record>
    var buffered: Octets
    var bufferedOffset: nat
    var serverEof: bool
    var replyPending: bool
    var replyError: Option<ReaderError>

    ghost predicate Valid()
      reads this
    {
      bufferedOffset <= |buffered|
    }

    function BufferedRemaining(): nat
      requires Valid()
      reads this
    {
      |buffered| - bufferedOffset
    }

    /** What is left of the current session. */
    ghost function Remaining(): Octets
      requires Valid()
      reads this
    {
      buffered[bufferedOffset..] + SessionBytes(records)
    }

    /** No error yet. Nothing in the reader asks whether the session has ended. */
    ghost predicate Live()
      reads this
    {
      Valid() && replyError.None?
    }

    /** Between the CONNECT and the server's zero record, with no error yet. */
    ghost predicate InSession()
      reads this
    {
      Live() && !serverEof
    }

    /** Reading moves along one session: its end and what follows it stay where they are. */
    twostate predicate SameSession()
      reads this
    {
      Terminated(records) == old(Terminated(records)) && AfterEnd(records) == old(AfterEnd(records))
    }

    constructor (records: seq<Record>)
      ensures InSession() && replyPending && buffered == [] && this.records == records
    {
      this.records, buffered, bufferedOffset := records, [], 0;
      serverEof, replyPending, replyError := false, true, None;
    }

    /** A failed read leaves the frame buffer holding whatever was read so far. */
    method FillBuffer() returns (r: Option<Record>)
      requires Valid()
      modifies this`records, this`buffered, this`bufferedOffset
      ensures Valid() && bufferedOffset == 0
      ensures r.None? <==> old(records) == [] || old(records[0]).Broken?
      ensures r.Some? ==> r.value == old(records[0]) && records == old(records)[1..]
      ensures r.Some? ==> buffered == if r.value.Data? then r.value.payload else []
    {
      bufferedOffset := 0;
      r := ReadRecord();
      if r.None? {
        buffered := *;
      } else {
        buffered := if r.value.Data? then r.value.payload else [];
      }
    }

    method ReadRecord() returns (r: Option<Record>)
      modifies this`records
      ensures r.None? <==> old(records) == [] || old(records[0]).Broken?
      ensures r.Some? ==> r.value == old(records[0]) && records == old(records)[1..]
    {
      if records == [] || records[0].Broken? {
        records := [];
        return None;
      }
      r := Some(records[0]);
      records := records[1..];
    }

    method TakeBuffered(length: nat) returns (content: Octets)
      requires Valid() && length <= BufferedRemaining()
      modifies this`bufferedOffset
      ensures Valid() && |content| == length && old(Remaining()) == content + Remaining()
    {
      content := buffered[bufferedOffset..bufferedOffset + length];
      ghost var rest := buffered[bufferedOffset + length..];
      assert buffered[bufferedOffset..] == content + rest;
      Regroup(content, rest, SessionBytes(records));
      bufferedOffset := bufferedOffset + length;
    }

    method ReadExactPayload(length: nat) returns (r: Result<Octets, ReaderError>)
      requires Live()
      modifies this`records, this`buffered, this`bufferedOffset
      ensures Valid()
      ensures r.Ok? <==> |old(Remaining())| >= length
      ensures r.Ok? ==> r.value == old(Remaining())[..length] && Remaining() == old(Remaining())[length..] && SameSession()
      ensures r.Err? ==> r.error == Truncated
    {
      while BufferedRemaining() < length
        invariant Valid() && Remaining() == old(Remaining()) && SameSession()
        decreases |records|
      {
        ghost var before := records;
        if BufferedRemaining() == 0 {
          var kind := FillBuffer();
          if kind.None? || kind.value.End? {
            assert SessionBytes(before) == [];
            return Err(Truncated);
          }
        } else {
          ghost var held := buffered[bufferedOffset..];
          var payload := ReadRecord();
          if payload.None? || payload.value.End? {
            assert SessionBytes(before) == [];
            return Err(Truncated);
          }
          buffered := buffered + payload.value.payload;
          assert buffered[bufferedOffset..] == held + payload.value.payload;
        }
      }
      var content := TakeBuffered(length);
      r := Ok(content);
    }

    method ReadReply() returns (r: Result<(), ReaderError>)
      requires Live()
      modifies this`records, this`buffered, this`bufferedOffset
      ensures Valid()
      ensures ReplyOf(old(Remaining())).Accepted? <==> r.Ok?
      ensures r.Ok? ==> Remaining() == old(Remaining())[1..] && SameSession()
      ensures r.Err? ==> ReplyOf(old(Remaining())) == Refused(r.error)
    {
      var status := ReadExactPayload(1);
      if status.Err? {
        return Err(status.error);
      }
      if status.value[0] == 0 {
        return Ok(());
      }
      if status.value[0] != 2 {
        return Err(UnexpectedStatus);
      }
      var detail := ReadExactPayload(2);
      if detail.Err? {
        return Err(detail.error);
      }
      var message := ReadExactPayload(detail.value[1]);
      if message.Err? {
        return Err(message.error);
      }
      return Err(Rejected(detail.value[0]));
    }

    /** The session's bytes as the caller will see them, whether or not the reply has been read. */
    ghost function Deliverable(): Octets
      requires Valid()
      reads this
    {
      if replyPending then Application(Remaining()) else Remaining()
    }

    /** How a read ends, decided by the bytes of the session alone. */
    ghost function Outcome(op: ReadOp): Status
      requires Valid()
      reads this
    {
      if replyError.Some? || (replyPending && ReplyOf(Remaining()).Refused?) then Failed
      else if op == Into(0) || Deliverable() != [] then Fine
      else if Terminated(records) then AtEnd
      else Failed
    }

    method EnsureReply() returns (r: Result<(), ReaderError>)
      requires Valid() && (replyError.Some? ==> !replyPending)
      modifies this`records, this`buffered, this`bufferedOffset, this`replyPending, this`replyError
      ensures Valid() && !replyPending
      ensures old(replyError).Some? ==> r == Err(old(replyError).value) && replyError == old(replyError)
      ensures old(replyError).None? && !old(replyPending) ==> r.Ok? && unchanged(this)
      ensures old(replyError).None? && old(replyPending) ==>
        && replyError == (if r.Err? then Some(r.error) else None)
        && ReplyOf(old(Remaining())) == (if r.Err? then Refused(r.error) else Accepted)
      ensures r.Ok? ==> Live() && Remaining() == old(Deliverable()) && SameSession()
    {
      if replyError.Some? {
        return Err(replyError.value);
      }
      if !replyPending {
        return Ok(());
      }
      replyPending := false;
      r := ReadReply();
      if r.Err? {
        replyError := Some(r.error);
      }
    }

    /** True: payload is buffered. False: the server's zero record was read. */
    method WaitPayload() returns (r: Result<bool, ReaderError>)
      requires Live()
      modifies this`records, this`buffered, this`bufferedOffset, this`serverEof
      ensures Valid()
      ensures r == if old(Remaining()) != [] then Ok(true) else if old(Terminated(records)) then Ok(false) else Err(ReadFailed)
      ensures r == Ok(true) ==> Live() && Remaining() == old(Remaining()) && BufferedRemaining() > 0 && SameSession()
      ensures r != Ok(false) ==> serverEof == old(serverEof)
      ensures r == Ok(false) ==> serverEof && buffered == [] && records == old(AfterEnd(records))
    {
      while BufferedRemaining() == 0
        invariant Live() && Remaining() == old(Remaining()) && SameSession() && serverEof == old(serverEof)
        decreases |records|
      {
        var kind := FillBuffer();
        if kind.None? {
          return Err(ReadFailed);
        }
        if kind.value.End? {
          serverEof := true;
          return Ok(false);
        }
      }
      return Ok(true);
    }

    /** read_application and read_application_chunk: a prefix of what the session still holds. */
    method Read(op: ReadOp) returns (status: Status, content: Octets)
      requires Valid() && (replyError.Some? ==> !replyPending)
      modifies this
      ensures Valid() && !replyPending
      ensures status == old(Outcome(op))
      ensures !status.AtEnd? ==> serverEof == old(serverEof)
      ensures status.Fine? ==> Live() && SameSession() && old(Deliverable()) == content + Remaining()
      ensures replyError == if old(replyError).None? && old(replyPending) && ReplyOf(old(Remaining())).Refused?
                            then Some(ReplyOf(old(Remaining())).error) else old(replyError)
      ensures status.Fine? && op != Into(0) ==> content != []
      ensures op.Into? ==> |content| <= op.size
      ensures status.AtEnd? ==> serverEof && buffered == [] && replyError.None? && records == old(AfterEnd(records))
      ensures !status.Fine? ==> content == []
    {
      hide SessionBytes, Terminated, AfterEnd, ReplyOf;
      var reply := EnsureReply();
      if reply.Err? {
        return Failed, [];
      }
      if op == Into(0) {
        return Fine, [];
      }
      label waited:
      var waited := WaitPayload();
      if waited.Err? {
        return Failed, [];
      }
      if !waited.value {
        return AtEnd, [];
      }
      var length := if op.Into? && op.size < BufferedRemaining() then op.size else BufferedRemaining();
      content := TakeBuffered(length);
      status := Fine;
    }

    /** How a close ends. It discards what is buffered, so a pending reply is looked for in the records. */
    ghost function CloseOutcome(): Result<(), ReaderError>
      reads this
    {
      if replyError.Some? then Err(replyError.value)
      else if serverEof then Ok(())
      else if replyPending && ReplyOf(SessionBytes(records)).Refused? then Err(ReplyOf(SessionBytes(records)).error)
      else if Terminated(records) then Ok(())
      else Err(ReadFailed)
    }

    /** Discards what is left of the session, reading up to its zero record. */
    method CompleteReuseClose() returns (r: Result<(), ReaderError>)
      requires Valid() && (replyError.Some? ==> !replyPending) && (serverEof ==> !replyPending)
      modifies this
      ensures Valid() && r == old(CloseOutcome())
      ensures r.Ok? ==> serverEof && !replyPending && replyError.None? && BufferedRemaining() == 0
      ensures r.Ok? && !old(serverEof) ==> old(Terminated(records)) && records == old(AfterEnd(records))
      ensures r.Ok? && old(serverEof) ==> records == old(records)
    {
      buffered := [];
      bufferedOffset := 0;
      var reply := EnsureReply();
      if reply.Err? {
        return Err(reply.error);
      }
      while !serverEof
        invariant Valid() && replyError.None? && !replyPending && (old(serverEof) ==> serverEof)
        invariant !serverEof ==> SameSession()
        invariant serverEof ==> BufferedRemaining() == 0
        invariant serverEof && !old(serverEof) ==> old(Terminated(records)) && records == old(AfterEnd(records))
        invariant serverEof && old(serverEof) ==> records == old(records)
        decreases |records|, !serverEof
      {
        var kind := FillBuffer();
        if kind.None? {
          return Err(ReadFailed);
        }
        if kind.value.End? {
          serverEof := true;
        }
      }
      return Ok(());
    }

    /** `quiet`: the input probe saw nothing. `sent`: the CONNECT was written in time. */
    method StartReuse(quiet: bool, sent: bool) returns (r: Result<(), ReaderError>)
      requires Valid()
      modifies this`serverEof, this`replyPending, this`replyError
      ensures r.Ok? <==> old(BufferedRemaining() == 0 && serverEof) && quiet && sent
      ensures r.Ok? ==> InSession() && replyPending && Remaining() == SessionBytes(records)
    {
      if BufferedRemaining() != 0 || !serverEof {
        return Err(NotReady);
      }
      if !quiet {
        return Err(NotReady);
      }
      serverEof := false;
      replyPending := false;
      replyError := None;
      if !sent {
        return Err(WriteFailed);
      }
      replyPending := true;
      return Ok(());
    }

    /** Part of a session whose bytes were `session` has been delivered, the rest is still to come. */
    ghost predicate Reading(session: Octets, delivered: Octets)
      reads this
    {
      && InSession() && Application(session) == delivered + Deliverable()
      && if replyPending then Remaining() == session && delivered == [] else ReplyOf(session).Accepted?
    }

    method ReadNext(op: ReadOp, ghost session: Octets, delivered: Octets) returns (status: Status, content: Octets)
      requires Reading(session, delivered)
      modifies this
      ensures Valid() && !replyPending
      ensures !status.Fine? ==> content == []
      ensures status == StatusAfter(session, old(Terminated(records)), delivered, op)
      ensures replyError == ErrorOf(session)
      ensures status.Fine? ==> Reading(session, delivered + content) && SameSession() && Answers(op, content)
      ensures status.AtEnd? ==> delivered == Application(session) && ReplyOf(session).Accepted? && old(Terminated(records))
      ensures status.AtEnd? ==> serverEof && replyError.None? && BufferedRemaining() == 0 && records == old(AfterEnd(records))
    {
      hide SessionBytes, Terminated, AfterEnd, Application, ReplyOf;
      status, content := Read(op);
      if status.Fine? {
        Regroup(delivered, content, Remaining());
      }
    }

    /**
     One session: reads of any kind until the first empty chunk, a failure, or
     the caller's choice to stop.
     */
    method RunSession(ops: seq<ReadOp>) returns (ran: Ran)
      requires InSession() && replyPending
      modifies this
      ensures Valid() && (replyError.Some? ==> !replyPending) && (serverEof ==> !replyPending)
      ensures SessionRan(old(Remaining()), old(Terminated(records)), ops, ran)
      ensures ran.status.Fine? ==> InSession() && SameSession()
                                   && if replyPending then unchanged(this) else ReplyOf(old(Remaining())).Accepted?
      ensures ran.status.AtEnd? ==> serverEof && replyError.None? && BufferedRemaining() == 0
                                    && ReplyOf(old(Remaining())).Accepted?
                                    && old(Terminated(records)) && records == old(AfterEnd(records))
    {
      hide StatusAfter, Answers, SessionBytes, Terminated, AfterEnd, ReplyOf, Application, WentOn, Joined;
      NothingRead(Remaining(), Terminated(records), ops);
      ghost var session, ends := Remaining(), Terminated(records);
      var got: seq<Octets>, delivered: Octets := [], [];
      while |got| < |ops|
        invariant WentOn(session, ends, ops, got) && |got| <= |ops| && delivered == Joined(got)
        invariant Reading(session, delivered) && SameSession()
        invariant if got == [] then unchanged(this) else !replyPending
        decreases |ops| - |got|
      {
        var status, content := ReadNext(ops[|got|], session, delivered);
        if !status.Fine? {
          return Ran(status, got, replyError);
        }
        OneMoreRead(session, ends, ops, got, content);
        got, delivered := got + [content], delivered + content;
      }
      return Ran(Fine, got, replyError);
    }
  }

  function Joined(got: seq<Octets>): Octets {
    if got == [] then [] else Joined(got[..|got| - 1]) + got[|got| - 1]
  }

  /** What a session's reads gave, one content each, how the first other one ended, and the refusal stored. */
  datatype Ran = Ran(status: Status, got: seq<Octets>, error: Option<ReaderError>)

  /** The error a reader stores once it has looked for a session's reply. */
  function ErrorOf(session: Octets): Option<ReaderError> {
    if ReplyOf(session).Refused? then Some(ReplyOf(session).error) else None
  }

  /** A read that does not end the session gives something, and no more than was asked for. */
  predicate Answers(op: ReadOp, content: Octets) {
    (op != Into(0) ==> content != []) && (op.Into? ==> |content| <= op.size)
  }

  /** How a read ends once some bytes of a session have been delivered. */
  function StatusAfter(session: Octets, ends: bool, delivered: Octets, op: ReadOp): Status {
    if ReplyOf(session).Refused? then Failed
    else if op == Into(0) || delivered != Application(session) then Fine
    else if ends then AtEnd
    else Failed
  }

  /** Some reads of a session, each with something left to read. */
  predicate WentOn(session: Octets, ends: bool, ops: seq<ReadOp>, got: seq<Octets>) {
    |got| <= |ops|
    && (got == []
        || var last := |got| - 1;
           && WentOn(session, ends, ops, got[..last])
           && Answers(ops[last], got[last]) && StatusAfter(session, ends, Joined(got[..last]), ops[last]).Fine?)
  }

  lemma NothingRead(session: Octets, ends: bool, ops: seq<ReadOp>)
    ensures WentOn(session, ends, ops, []) && Joined([]) == []
  {
  }

  lemma OneMoreRead(session: Octets, ends: bool, ops: seq<ReadOp>, got: seq<Octets>, content: Octets)
    requires WentOn(session, ends, ops, got) && |got| < |ops|
    requires Answers(ops[|got|], content) && StatusAfter(session, ends, Joined(got), ops[|got|]).Fine?
    ensures WentOn(session, ends, ops, got + [content]) && Joined(got + [content]) == Joined(got) + content
  {
    hide Answers, StatusAfter;
    assert (got + [content])[..|got|] == got;
  }

  /**
   The reads of a session: in order they deliver its application bytes, each
   goes on exactly while something is left, and the first that does not says
   whether the session ended or failed.
   */
  ghost predicate SessionRan(session: Octets, ends: bool, ops: seq<ReadOp>, ran: Ran) {
    && WentOn(session, ends, ops, ran.got) && Joined(ran.got) <= Application(session)
    && ran.error == (if ops == [] then None else ErrorOf(session))
    && (ran.status.Fine? <==> |ran.got| == |ops|)
    && (|ran.got| < |ops| ==> ran.status == StatusAfter(session, ends, Joined(ran.got), ops[|ran.got|]))
  }

  /** The reader stands at the beginning of the k-th session of the stream. */
  ghost predicate AtSession(reader: SnellReader, all: seq<Record>, k: nat)
    reads reader
  {
    reader.InSession() && reader.replyPending
    && reader.records == SessionStart(all, k) && reader.Remaining() == SessionBytes(SessionStart(all, k))
  }

  /** A session's reads, what the input probe sees afterwards, and whether the next CONNECT is written in time. */
  datatype Plan = Plan(ops: seq<ReadOp>, quiet: bool, sent: bool)

  /** The k-th session of a stream ran as its own bytes say. */
  ghost predicate DeliveredBy(all: seq<Record>, k: nat, plan: Plan, ran: Ran) {
    SessionRan(SessionBytes(SessionStart(all, k)), Terminated(SessionStart(all, k)), plan.ops, ran)
  }

  // ----- The same, read off the bytes -----

  /** A session that gives its caller nothing but an error. */
  ghost predicate Silent(ops: seq<ReadOp>, ran: Ran, e: ReaderError) {
    ran.got == [] && if ops == [] then ran.status.Fine? else ran.status.Failed? && ran.error == Some(e)
  }

  /** A session that gives its caller some bytes, piece by piece, and then says whether it ended. */
  ghost predicate Delivers(app: Octets, ends: bool, ops: seq<ReadOp>, ran: Ran) {
    && ran.error.None? && |ran.got| <= |ops| && Joined(ran.got) <= app
    && (forall i :: 0 <= i < |ran.got| ==>
          (ops[i] != Into(0) ==> ran.got[i] != []) && (ops[i].Into? ==> |ran.got[i]| <= ops[i].size))
    && (if |ran.got| == |ops| then ran.status.Fine?
        else ops[|ran.got|] != Into(0) && Joined(ran.got) == app && ran.status == if ends then AtEnd else Failed)
  }

  /**
   docs/protocol.md in bytes: 0 and then application data; 2, a code, the length
   of a message and the message; anything else is no reply.
   */
  ghost predicate ByTheBytes(session: Octets, ends: bool, ops: seq<ReadOp>, ran: Ran) {
    if session == [] then Silent(ops, ran, Truncated)
    else if session[0] == 0 then Delivers(session[1..], ends, ops, ran)
    else if session[0] != 2 then Silent(ops, ran, UnexpectedStatus)
    else if |session| < 3 || |session| - 3 < session[2] then Silent(ops, ran, Truncated)
    else Silent(ops, ran, Rejected(session[1]))
  }

  lemma {:induction false} WentOnAnswers(session: Octets, ends: bool, ops: seq<ReadOp>, got: seq<Octets>)
    requires WentOn(session, ends, ops, got)
    ensures |got| <= |ops| && forall i :: 0 <= i < |got| ==> Answers(ops[i], got[i])
    ensures got != [] ==> ReplyOf(session).Accepted?
  {
    hide Answers;
    if got != [] {
      WentOnAnswers(session, ends, ops, got[..|got| - 1]);
    }
  }

  lemma RanByTheBytes(session: Octets, ends: bool, ops: seq<ReadOp>, ran: Ran)
    requires SessionRan(session, ends, ops, ran)
    ensures ByTheBytes(session, ends, ops, ran)
  {
    hide WentOn, Joined;
    WentOnAnswers(session, ends, ops, ran.got);
  }

  /** A refusal as a server writes it: the caller gets nothing but its code, and the connection no successor. */
  lemma RefusedSession(code: byte, message: Octets, rest: Octets, ends: bool, plan: Plan, ran: Ran)
    requires |message| < 256
    requires SessionRan([2, code, |message|] + message + rest, ends, plan.ops, ran)
    ensures Silent(plan.ops, ran, Rejected(code))
    ensures !MayFollow([2, code, |message|] + message + rest, ends, plan, ran)
  {
    RanByTheBytes([2, code, |message|] + message + rest, ends, plan.ops, ran);
  }

  /** An accepted session as a server writes it. */
  lemma AcceptedSession(app: Octets, ends: bool, ops: seq<ReadOp>, ran: Ran)
    requires SessionRan([0] + app, ends, ops, ran)
    ensures Delivers(app, ends, ops, ran)
  {
    RanByTheBytes([0] + app, ends, ops, ran);
    assert ([0] + app)[1..] == app;
  }

  /** A session may be followed by another: its first byte is 0, it ends, no read failed, probe and CONNECT allow it. */
  ghost predicate MayFollow(session: Octets, ends: bool, plan: Plan, ran: Ran) {
    session != [] && session[0] == 0 && ends && !ran.status.Failed? && plan.quiet && plan.sent
  }

  lemma GoesOnByTheBytes(all: seq<Record>, k: nat, plan: Plan, ran: Ran)
    ensures GoesOn(all, k, plan, ran)
       <==> MayFollow(SessionBytes(SessionStart(all, k)), Terminated(SessionStart(all, k)), plan, ran)
  {
  }

  /** The connection is reused: no read failed, the session was accepted and ends, the probe and the CONNECT allow it. */
  ghost predicate GoesOn(all: seq<Record>, k: nat, plan: Plan, ran: Ran) {
    && !ran.status.Failed? && plan.quiet && plan.sent
    && ReplyOf(SessionBytes(SessionStart(all, k))).Accepted? && Terminated(SessionStart(all, k))
  }

  /** One session from its first read to the point where the connection may carry the next. */
  method NextSession(reader: SnellReader, ghost all: seq<Record>, ghost k: nat, plan: Plan) returns (ready: bool, ran: Ran)
    requires AtSession(reader, all, k)
    modifies reader
    ensures DeliveredBy(all, k, plan, ran)
    ensures ready <==> GoesOn(all, k, plan, ran)
    ensures ready ==> AtSession(reader, all, k + 1)
  {
    hide SessionRan, SessionBytes, Terminated, AfterEnd, ReplyOf;
    ran := reader.RunSession(plan.ops);
    ready := false;
    if ran.status.Failed? {
      return;
    }
    var closed := reader.CompleteReuseClose();
    if closed.Err? {
      return;
    }
    assert reader.records == SessionStart(all, k + 1);
    var reused := reader.StartReuse(plan.quiet, plan.sent);
    ready := reused.Ok?;
  }

  /**
   A whole physical connection: one session after another, each read as its
   caller likes, closed, and reused while the probe and the CONNECT allow it.
   The k-th session delivers its own application bytes in order, all of them
   when it sees its end, and never a byte of another session or of a reply;
   the connection stops early exactly where a session failed, could not be
   closed, or was not allowed a successor.
   */
  method RunConnection(records: seq<Record>, plans: seq<Plan>) returns (rans: seq<Ran>)
    ensures |rans| <= |plans|
    ensures forall k :: 0 <= k < |rans| ==> DeliveredBy(records, k, plans[k], rans[k])
    ensures forall k :: 0 <= k < |rans| - 1 ==> GoesOn(records, k, plans[k], rans[k])
    ensures |rans| < |plans| ==> rans != [] && !GoesOn(records, |rans| - 1, plans[|rans| - 1], rans[|rans| - 1])
    ensures forall k :: 0 <= k < |rans| ==>
      var start := SessionStart(records, k);
      && ByTheBytes(SessionBytes(start), Terminated(start), plans[k].ops, rans[k])
      && (k < |rans| - 1 ==> MayFollow(SessionBytes(start), Terminated(start), plans[k], rans[k]))
      && (k == |rans| - 1 && |rans| < |plans| ==> !MayFollow(SessionBytes(start), Terminated(start), plans[k], rans[k]))
  {
    hide SessionStart, DeliveredBy, GoesOn, ByTheBytes, MayFollow;
    FirstSession(records);
    var reader := new SnellReader(records);
    rans := [];
    var ready := true;
    while ready && |rans| < |plans|
      invariant |rans| <= |plans|
      invariant ready ==> AtSession(reader, records, |rans|)
      invariant forall k :: 0 <= k < |rans| ==> DeliveredBy(records, k, plans[k], rans[k])
      invariant forall k :: 0 <= k < |rans| - 1 ==> GoesOn(records, k, plans[k], rans[k])
      invariant rans == [] ==> ready
      invariant rans != [] ==> (ready <==> GoesOn(records, |rans| - 1, plans[|rans| - 1], rans[|rans| - 1]))
      decreases |plans| - |rans|
    {
      var ran: Ran;
      ready, ran := NextSession(reader, records, |rans|, plans[|rans|]);
      rans := rans + [ran];
    }
    forall k | 0 <= k < |rans|
      ensures var start := SessionStart(records, k); ByTheBytes(SessionBytes(start), Terminated(start), plans[k].ops, rans[k])
      ensures var start := SessionStart(records, k);
        GoesOn(records, k, plans[k], rans[k]) <==> MayFollow(SessionBytes(start), Terminated(start), plans[k], rans[k])
    {
      DeliveredByTheBytes(records, k, plans[k], rans[k]);
      GoesOnByTheBytes(records, k, plans[k], rans[k]);
    }
  }

  lemma DeliveredByTheBytes(all: seq<Record>, k: nat, plan: Plan, ran: Ran)
    requires DeliveredBy(all, k, plan, ran)
    ensures ByTheBytes(SessionBytes(SessionStart(all, k)), Terminated(SessionStart(all, k)), plan.ops, ran)
  {
    hide SessionRan, ByTheBytes;
    RanByTheBytes(SessionBytes(SessionStart(all, k)), Terminated(SessionStart(all, k)), plan.ops, ran);
  }

  lemma FirstSession(all: seq<Record>)
    ensures SessionStart(all, 0) == all
  {
  }

  /** Two sessions of one byte each. */
  const TWO_SESSIONS: seq<Record> := [Data([0, 65]), End, Data([0, 66])]

  lemma TwoSessions()
    ensures SessionBytes(TWO_SESSIONS) == [0, 65] && Application([0, 65]) == [65] && ReplyOf([0, 65]).Accepted?
    ensures Terminated(TWO_SESSIONS) && AfterEnd(TWO_SESSIONS) == [Data([0, 66])]
    ensures SessionBytes([Data([0, 66])]) == [0, 66]
  {
    assert TWO_SESSIONS[1..] == [End, Data([0, 66])] && TWO_SESSIONS[1..][1..] == [Data([0, 66])];
    assert SessionBytes([Data([0, 66])]) == [0, 66] + [];
  }

  /** Why callers must stop at the first empty chunk: the next read crosses into the following session, reply and all. */
  method ReadPastEnd() returns (first: Octets, second: Octets)
    ensures first == [65] == Application(SessionBytes(TWO_SESSIONS)) && second == [0]
  {
    hide SessionBytes, Application, ReplyOf, Terminated, AfterEnd;
    TwoSessions();
    var reader := new SnellReader(TWO_SESSIONS);
    assert reader.Remaining() == [] + [0, 65] == [0, 65];
    var status: Status;
    status, first := reader.Read(Into(1));
    assert first + reader.Remaining() == [65] && |first| == 1;
    var end, nothing := reader.Read(Into(1));
    assert reader.Remaining() == [] + [0, 66] == [0, 66];
    status, second := reader.Read(Into(1));
    assert second + reader.Remaining() == [0, 66] && |second| == 1;
    assert second == [0, 66][..1] == [0];
  }
}
