/**
 One request through the proxy (src/http_proxy.rs): the rewritten head and the
 forwarded body together are one request to the origin, with nothing left over.
 */
module HttpOneRequest {
  import opened Prelude
  import opened HttpBody
  import opened HttpChunkedGrammar
  import opened HttpRequestHead

  datatype Request = Request(lines: seq<string>, body: string, rest: string)

  function Cut(lines: seq<string>, s: string, n: nat): Option<Request> {
    if n > |s| then None else Some(Request(lines, s[..n], s[n..]))
  }

  /** How an origin takes a request off a connection: the head by its empty line, the body by section 6.3. */
  function ReadRequest(s: string): Option<Request> {
    var lines, after := ReadLines(s), AfterHead(s);
    match FramingOf(lines)
    case Faulty => None
    case Sized(n) => Cut(lines, after, n)
    case ChunkCoded => if ChunkedLength(after).Ok? then Cut(lines, after, ChunkedLength(after).value) else None
  }

  /** A body is taken as itself, whatever follows it. */
  lemma BodyIsTaken(framing: BodyFraming, input: string, more: string)
    requires BodyLength(framing, input).Ok?
    ensures var body := input[..BodyLength(framing, input).value];
      BodyLength(framing, body + more) == Ok(|body|)
  {
    hide ChunkedLength, WellFormed, Write;
    if framing.Chunked? {
      var b := TakenIsWrittenBody(input);
      WrittenBodyIsTaken(b, more);
    }
  }

  lemma RequestIsTaken(s: string, lines: seq<string>, framing: BodyFraming, body: string, more: string)
    requires ReadLines(s) == lines && AfterHead(s) == body + more
    requires FramingOf(lines) == BodyOf(framing) && BodyLength(framing, body + more) == Ok(|body|)
    ensures ReadRequest(s) == Some(Request(lines, body, more))
  {
    hide ChunkedLength, FramingOf, ReadLines, AfterHead;
    assert (body + more)[..|body|] == body && (body + more)[|body|..] == more;
  }

  lemma HeadThenTail(r: RequestLine, origin: string, fields: seq<Field>, line: string, headers: seq<string>, tail: string)
    requires SplitRequestLine(line) == Some(r) && NoCrlf(line)
    requires forall i :: 0 <= i < |headers| ==> NoCrlf(headers[i])
    requires forall i :: 0 <= i < |origin| ==> origin[i] > ' '
    requires forall i :: 0 <= i < |fields| ==> GoodField(fields[i]) && fields[i].line in headers
    ensures var head := RewrittenHead(r, origin, fields);
      ReadLines(head + tail) == ReadLines(head) && AfterHead(head + tail) == tail
  {
    hide HeadLines, WriteLines, WriteFront, ReadLines, AfterHead, SplitRequestLine, NoCrlf, GoodField;
    var lines := HeadLines(r, origin, fields);
    NoCrlfParts(r, line, origin);
    HeadLinesAreGood(r, origin, fields, headers);
    HeadReadsBack(r, origin, fields, headers);
    Regroup(WriteLines(lines), CRLF, tail);
    FrontIsSame(lines, CRLF + tail);
    HeadIsTaken(lines, tail);
  }

  /**
   Whatever is on the connection after it, the origin takes exactly the
   forwarded request off it: the proxy's head, and as its body the client's.
   */
  lemma OriginReadsOneRequest(line: string, headers: seq<string>, parse: UrlParser, input: string, more: string)
    requires EncodesBlanks(parse)
    requires NoCrlf(line) && forall i :: 0 <= i < |headers| ==> NoCrlf(headers[i])
    requires Rewrite(line, headers, parse).Ok? && !Rewrite(line, headers, parse).value.upgrade
    requires BodyLength(Rewrite(line, headers, parse).value.framing, input).Ok?
    ensures var sent := Rewrite(line, headers, parse).value;
      var body := input[..BodyLength(sent.framing, input).value];
      ReadRequest(sent.head + (body + more)) == Some(Request(ReadLines(sent.head), body, more))
  {
    hide Rewrite, ReadRequest, ReadLines, AfterHead, BodyLength, EncodesBlanks, NoCrlf, FramingOf;
    var sent := Rewrite(line, headers, parse).value;
    var body := input[..BodyLength(sent.framing, input).value];
    var r, origin, fields := AcceptedParts(line, headers, parse);
    HeadThenTail(r, origin, fields, line, headers, body + more);
    ForwardedFramingAgrees(line, headers, parse);
    StrictFraming(sent.head);
    BodyIsTaken(sent.framing, input, more);
    RequestIsTaken(sent.head + (body + more), ReadLines(sent.head), sent.framing, body, more);
  }

  /**
   The upload of one request over a session that has carried nothing yet. Unless
   a send failed it succeeds exactly if the client sends a whole body; the
   origin then reads this one request and nothing more, and the proxy leaves
   every later byte of the client unread.
   */
  method ForwardOneRequest(line: string, headers: seq<string>, parse: UrlParser, sent: Forwarded, reader: BodyReader, sink: BodySink)
    returns (r: Result<(), BodyError>)
    requires EncodesBlanks(parse)
    requires NoCrlf(line) && forall i :: 0 <= i < |headers| ==> NoCrlf(headers[i])
    requires Rewrite(line, headers, parse) == Ok(sent) && !sent.upgrade && sink.sent == ""
    modifies reader, sink
    ensures sink.failed == (old(sink.failed) || r == Err(SinkFailed))
    ensures r != Err(SinkFailed) ==> (r.Ok? <==> BodyLength(sent.framing, old(reader.Input())).Ok?)
    ensures r.Ok? ==> var n := BodyLength(sent.framing, old(reader.Input())).value;
      && ReadRequest(sink.sent) == Some(Request(ReadLines(sent.head), old(reader.Input())[..n], ""))
      && reader.Input() == old(reader.Input())[n..]
  {
    hide Rewrite, ReadRequest, ReadLines, BodyLength, EncodesBlanks, NoCrlf;
    ghost var input := reader.Input();
    r := ForwardBody(reader, sink, sent.framing, sent.head);
    if r.Ok? {
      OriginReadsOneRequest(line, headers, parse, input, "");
      ghost var body := input[..BodyLength(sent.framing, input).value];
      assert "" + sent.head + body == sent.head + (body + "");
    }
  }
}
