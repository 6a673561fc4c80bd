/**
 Forwarding one request body (src/http_proxy.rs). Texts are byte strings, one
 `char` a byte. The body of an input is defined by the framing rules of section
 6.3 and the chunked coding of section 7.1 of RFC 9112, with the limits of the
 source; the forwarding loops are proved to send exactly it.
 */
module HttpBody {
  import opened Prelude

  const BODY_BATCH_SIZE := 32768
  const CHUNK_LINE_LIMIT := 4096
  const TRAILER_LIMIT := 8192
  const CRLF := "\r\n"

  datatype BodyFraming = Empty | Length(length: nat) | Chunked

  datatype BodyError =
    | InputEnded | LineTooLong | LineMalformed | BadChunkSize | TrailersTooLarge | ChunkMalformed | SinkFailed

  // ----- Lines -----

  function IndexOf(s: string, c: char): (i: nat)
    ensures i <= |s| && (forall j :: 0 <= j < i ==> s[j] != c) && (i < |s| ==> s[i] == c)
  {
    if s == "" || s[0] == c then 0 else 1 + IndexOf(s[1..], c)
  }

  lemma FirstIndex(s: string, c: char, i: nat)
    requires i < |s| && s[i] == c && forall j :: 0 <= j < i ==> s[j] != c
    ensures IndexOf(s, c) == i
  {
    if IndexOf(s, c) < i {
      assert s[IndexOf(s, c)] == c;
    }
  }

  predicate EndsWithCrlf(s: string) {
    |s| >= 2 && s[|s| - 2] == '\r' && s[|s| - 1] == '\n'
  }

  /** The length of the line at the start of the input, its LF included. */
  function LineLength(input: string, limit: nat): (r: Result<nat, BodyError>)
    ensures r.Ok? ==> 2 <= r.value <= |input| && r.value <= limit && EndsWithCrlf(input[..r.value])
    ensures r != Err(SinkFailed)
  {
    var i := IndexOf(input, '\n');
    if i == |input| then (if |input| > limit then Err(LineTooLong) else Err(InputEnded))
    else if i + 1 > limit then Err(LineTooLong)
    else if !EndsWithCrlf(input[..i + 1]) then Err(LineMalformed)
    else Ok(i + 1)
  }

  // ----- Chunk sizes -----

  predicate IsHexDigit(c: char) {
    '0' <= c <= '9' || 'a' <= c <= 'f' || 'A' <= c <= 'F'
  }

  function HexDigitValue(c: char): (v: nat)
    requires IsHexDigit(c)
    ensures v < 16
  {
    if c <= '9' then (c - '0') as int
    else if c <= 'F' then (c - 'A') as int + 10
    else (c - 'a') as int + 10
  }

  predicate AllHex(s: string) { forall i :: 0 <= i < |s| ==> IsHexDigit(s[i]) }

  function HexValue(s: string): nat
    requires AllHex(s)
  {
    if s == "" then 0 else 16 * HexValue(s[..|s| - 1]) + HexDigitValue(s[|s| - 1])
  }

  /** The hexadecimal digits. */
  lemma HexDigits(c: char)
    ensures IsHexDigit(c) <==> c in "0123456789abcdef" || c in "ABCDEF"
  {
    if '0' <= c <= '9' {
      assert c == "0123456789abcdef"[c as int - '0' as int];
    } else if 'a' <= c <= 'f' {
      assert c == "0123456789abcdef"[c as int - 'a' as int + 10];
    } else if 'A' <= c <= 'F' {
      assert c == "ABCDEF"[c as int - 'A' as int];
    }
  }

  /** Capitals count as their small letters. */
  lemma HexCapitals(v: nat)
    requires 10 <= v < 16
    ensures IsHexDigit("ABCDEF"[v - 10]) && HexDigitValue("ABCDEF"[v - 10]) == v
  {
  }

  function Hex(n: nat): string {
    if n < 16 then ["0123456789abcdef"[n]] else Hex(n / 16) + ["0123456789abcdef"[n % 16]]
  }

  /** A number written in hexadecimal reads back. */
  lemma {:induction false} HexReadsBack(n: nat)
    ensures AllHex(Hex(n)) && HexValue(Hex(n)) == n
  {
    hide HexDigitValue, IsHexDigit;
    HexDigitReadsBack(n % 16);
    if n < 16 {
      assert Hex(n)[..0] == "";
    } else {
      HexReadsBack(n / 16);
      assert Hex(n)[..|Hex(n)| - 1] == Hex(n / 16);
    }
  }

  lemma HexDigitReadsBack(v: nat)
    requires v < 16
    ensures IsHexDigit("0123456789abcdef"[v]) && HexDigitValue("0123456789abcdef"[v]) == v
  {
  }

  predicate IsBlank(c: char) { c == ' ' || c == '\t' }

  /** Without its trailing spaces and tabs. */
  function TrimEnd(s: string): (t: string)
    ensures t <= s && (t != "" ==> !IsBlank(t[|t| - 1])) && forall i :: |t| <= i < |s| ==> IsBlank(s[i])
  {
    if s != "" && IsBlank(s[|s| - 1]) then TrimEnd(s[..|s| - 1]) else s
  }

  function ParseChunkSize(line: string): (r: Result<nat, BodyError>)
    requires |line| >= 2
    ensures r != Err(SinkFailed)
  {
    var text := line[..|line| - 2];
    var size := TrimEnd(text[..IndexOf(text, ';')]);
    if size == "" || |size| > 15 || !AllHex(size) then Err(BadChunkSize) else Ok(HexValue(size))
  }

  // ----- The length of a message body at the start of an input -----

  function TrailerLength(input: string, used: nat): (r: Result<nat, BodyError>)
    ensures r.Ok? ==> r.value <= |input|
    ensures r != Err(SinkFailed)
    decreases |input|
  {
    var line :- LineLength(input, TRAILER_LIMIT);
    if used + line > TRAILER_LIMIT then Err(TrailersTooLarge)
    else if input[..line] == CRLF then Ok(line)
    else
      var more :- TrailerLength(input[line..], used + line);
      Ok(line + more)
  }

  /** The data of a chunk and the CRLF after it. */
  function ChunkDataLength(input: string, size: nat): (r: Result<nat, BodyError>)
    ensures r.Ok? ==> r.value <= |input|
    ensures r != Err(SinkFailed)
  {
    if |input| < size then Err(InputEnded)
    else
      var end :- LineLength(input[size..], 2);
      if input[size..][..end] != CRLF then Err(ChunkMalformed) else Ok(size + end)
  }

  /** One chunk: its length on the wire, and whether it was the last, which takes the trailers with it. */
  function OneChunk(input: string): (r: Result<(nat, bool), BodyError>)
    ensures r.Ok? ==> 0 < r.value.0 <= |input|
    ensures r != Err(SinkFailed)
  {
    var line :- LineLength(input, CHUNK_LINE_LIMIT);
    var size :- ParseChunkSize(input[..line]);
    if size == 0 then
      var trailers :- TrailerLength(input[line..], 0);
      Ok((line + trailers, true))
    else
      var data :- ChunkDataLength(input[line..], size);
      Ok((line + data, false))
  }

  function ChunkedLength(input: string): (r: Result<nat, BodyError>)
    ensures r.Ok? ==> r.value <= |input|
    ensures r != Err(SinkFailed)
    decreases |input|
  {
    var (chunk, last) :- OneChunk(input);
    if last then Ok(chunk)
    else
      var more :- ChunkedLength(input[chunk..]);
      Ok(chunk + more)
  }

  function BodyLength(framing: BodyFraming, input: string): (r: Result<nat, BodyError>)
    ensures r.Ok? ==> r.value <= |input|
    ensures r != Err(SinkFailed)
  {
    match framing
    case Empty => Ok(0)
    case Length(n) => if |input| < n then Err(InputEnded) else Ok(n)
    case Chunked => ChunkedLength(input)
  }

  /** A body of a stated length is that many bytes, or cut off. */
  lemma SizedBody(n: nat, input: string)
    ensures BodyLength(Empty, input) == Ok(0)
    ensures BodyLength(Length(n), input) == if n <= |input| then Ok(n) else Err(InputEnded)
  {
  }

  /** What is no line: one without an end, one that ends beyond the limit, one that ends in a bare LF. */
  lemma NoLine(l: string, rest: string, limit: nat)
    requires '\n' !in l
    ensures LineLength(l, limit) == if |l| > limit then Err(LineTooLong) else Err(InputEnded)
    ensures |l| + 1 > limit ==> LineLength(l + "\n" + rest, limit) == Err(LineTooLong)
    ensures |l| + 1 <= limit && (l == "" || l[|l| - 1] != '\r') ==> LineLength(l + "\n" + rest, limit) == Err(LineMalformed)
  {
    var s := l + "\n" + rest;
    FirstIndex(s, '\n', |l|);
    assert IndexOf(l, '\n') == |l|;
    assert s[..|l| + 1] == l + "\n";
  }

  // ----- Reader and sink -----

  type Read = s: string | s != "" witness "."

  function Flatten(pieces: seq<Read>): string {
    if pieces == [] then "" else pieces[0] + Flatten(pieces[1..])
  }

  /** A buffered reader over whatever pieces the client's bytes arrive in. */
  class BodyReader {
    var buffer: string
    var pieces: seq<Read>

    constructor (pieces: seq<Read>)
      ensures buffer == "" && this.pieces == pieces
    {
      buffer, this.pieces := "", pieces;
    }

    /** Everything not yet consumed. */
    ghost function Input(): string
      reads this
    {
      buffer + Flatten(pieces)
    }

    method FillBuf()
      modifies this
      ensures Input() == old(Input())
      ensures buffer == "" <==> Input() == ""
      ensures old(buffer) != "" ==> buffer == old(buffer)
    {
      if buffer == "" && pieces != [] {
        buffer := pieces[0];
        pieces := pieces[1..];
      }
    }

    method Consume(n: nat)
      requires n <= |buffer|
      modifies this`buffer
      ensures n <= |old(Input())| && Input() == old(Input())[n..] && buffer == old(buffer)[n..]
    {
      assert Input() == buffer + Flatten(pieces);
      buffer := buffer[n..];
    }
  }

  /** The upstream writer: a failed send may have sent any part. */
  class BodySink {
    var sent: string
    /** Whether a send has failed. */
    ghost var failed: bool

    method Send(content: string) returns (ok: bool)
      modifies this
      ensures failed == (old(failed) || !ok)
      ensures ok ==> sent == old(sent) + content
      ensures old(sent) <= sent <= old(sent) + content
    {
      var accepted: nat :| accepted <= |content|;
      sent := sent + content[..accepted];
      ok := *;
      if accepted < |content| {
        ok := false;
      }
      failed := failed || !ok;
    }
  }

  /** Nothing is lost, duplicated or reordered: sent, held back and unread bytes are all there is. */
  ghost predicate Accounts(reader: BodyReader, sink: BodySink, held: string, all: string)
    reads reader, sink
  {
    sink.sent + held + reader.Input() == all
  }

  // ----- The forwarding loops -----

  lemma SentWithin(sent: string, before: string, content: string, line: string, rest: string, all: string)
    requires before <= sent <= before + content && before + (content + line) + rest == all
    ensures sent <= all
  {
  }

  /** Sends what is held back when the next read has to wait for the client. */
  method FillBody(reader: BodyReader, sink: BodySink, output: string, ghost line: string, ghost all: string)
    returns (r: Result<string, BodyError>)
    requires Accounts(reader, sink, output + line, all)
    modifies reader, sink
    ensures sink.sent <= all
    ensures sink.failed == (old(sink.failed) || r == Err(SinkFailed))
    ensures r.Ok? ==> reader.Input() == old(reader.Input()) && reader.buffer != "" && Accounts(reader, sink, r.value + line, all)
    ensures r.Ok? ==> r.value == if old(reader.buffer) == "" then "" else output
    ensures r.Err? ==> r.error == SinkFailed || (r.error == InputEnded && old(reader.Input()) == "")
  {
    var kept := output;
    if reader.buffer == "" && output != "" {
      var ok := sink.Send(output);
      SentWithin(sink.sent, old(sink.sent), output, line, old(reader.Input()), all);
      if !ok {
        return Err(SinkFailed);
      }
      assert old(sink.sent) + (output + line) == sink.sent + ("" + line);
      kept := "";
    }
    reader.FillBuf();
    if reader.buffer == "" {
      return Err(InputEnded);
    }
    return Ok(kept);
  }

  /** Moves a piece of the reader's buffer behind what is held back. */
  method TakePiece(reader: BodyReader, sink: BodySink, held: string, piece: string, ghost all: string)
    returns (more: string)
    requires piece <= reader.buffer && Accounts(reader, sink, held, all)
    modifies reader
    ensures more == held + piece && Accounts(reader, sink, more, all)
    ensures |piece| <= |old(reader.Input())| && reader.Input() == old(reader.Input())[|piece|..]
    ensures piece == old(reader.Input())[..|piece|]
  {
    reader.Consume(|piece|);
    more := held + piece;
    assert old(reader.Input()) == piece + reader.Input();
  }

  /** Sends what is held back once it is a batch. */
  method SendFullBatch(reader: BodyReader, sink: BodySink, held: string, ghost all: string) returns (r: Result<string, BodyError>)
    requires Accounts(reader, sink, held, all)
    modifies sink
    ensures sink.sent <= all && sink.failed == (old(sink.failed) || r == Err(SinkFailed))
    ensures r.Ok? ==> Accounts(reader, sink, r.value, all) && |r.value| < BODY_BATCH_SIZE
    ensures r.Err? ==> r.error == SinkFailed
  {
    if |held| < BODY_BATCH_SIZE {
      return Ok(held);
    }
    var ok := sink.Send(held);
    return if ok then Ok("") else Err(SinkFailed);
  }

  /** One turn of copy_body_bytes. */
  method CopyOnce(reader: BodyReader, sink: BodySink, output: string, limit: nat, ghost all: string)
    returns (r: Result<string, BodyError>, take: nat)
    requires limit > 0 && Accounts(reader, sink, output, all)
    modifies reader, sink
    ensures sink.sent <= all
    ensures sink.failed == (old(sink.failed) || r == Err(SinkFailed))
    ensures r.Ok? ==> 0 < take <= limit && take <= |old(reader.Input())| && reader.Input() == old(reader.Input())[take..]
                      && Accounts(reader, sink, r.value, all)
    ensures r.Err? ==> r.error == SinkFailed || (r.error == InputEnded && old(reader.Input()) == "")
  {
    hide Accounts;
    take := 0;
    assert output + "" == output;
    var filled := FillBody(reader, sink, output, "", all);
    if filled.Err? {
      return Err(filled.error), 0;
    }
    assert filled.value + "" == filled.value;
    take := if |reader.buffer| < limit then |reader.buffer| else limit;
    var kept := TakePiece(reader, sink, filled.value, reader.buffer[..take], all);
    r := SendFullBatch(reader, sink, kept, all);
  }

  method CopyBodyBytes(reader: BodyReader, sink: BodySink, output: string, length: nat, ghost all: string)
    returns (r: Result<string, BodyError>)
    requires Accounts(reader, sink, output, all)
    modifies reader, sink
    ensures sink.sent <= all
    ensures sink.failed == (old(sink.failed) || r == Err(SinkFailed))
    ensures r.Ok? ==> length <= |old(reader.Input())| && reader.Input() == old(reader.Input())[length..]
                      && Accounts(reader, sink, r.value, all)
    ensures r.Err? ==> r.error == SinkFailed || (r.error == InputEnded && |old(reader.Input())| < length)
  {
    hide Accounts;
    var kept := output;
    var remaining: nat := length;
    ghost var input := reader.Input();
    SentSoFar(reader, sink, kept, all);
    while remaining != 0
      invariant remaining <= length && length - remaining <= |input| && reader.Input() == input[length - remaining..]
      invariant Accounts(reader, sink, kept, all) && sink.sent <= all && sink.failed == old(sink.failed)
      decreases remaining
    {
      var copied, take := CopyOnce(reader, sink, kept, remaining, all);
      if copied.Err? {
        return Err(copied.error);
      }
      assert input[length - remaining..][take..] == input[length - (remaining - take)..];
      kept := copied.value;
      remaining := remaining - take;
    }
    return Ok(kept);
  }

  lemma SentSoFar(reader: BodyReader, sink: BodySink, held: string, all: string)
    requires Accounts(reader, sink, held, all)
    ensures sink.sent <= all
  {
  }

  /** Searching only the buffered bytes finds the same line end as searching the whole input. */
  lemma BufferedIndex(input: string, n: nat, buffer: string)
    requires n <= IndexOf(input, '\n') && buffer <= input[n..]
    ensures var i := IndexOf(buffer, '\n');
      if i < |buffer| then IndexOf(input, '\n') == n + i else IndexOf(input, '\n') >= n + |buffer|
  {
    var i := IndexOf(buffer, '\n');
    var at := IndexOf(input, '\n');
    assert forall j :: n <= j < n + |buffer| ==> input[j] == input[n..][j - n] == buffer[j - n];
    if at < n + |buffer| {
      assert buffer[at - n] == '\n';
    }
  }

  /** How the search for a line ends, from what has been seen of the input. */
  lemma LineOutcome(input: string, limit: nat, seen: nat)
    requires seen <= |input|
    ensures seen == |input| && seen <= IndexOf(input, '\n') && seen <= limit ==> LineLength(input, limit) == Err(InputEnded)
    ensures seen <= IndexOf(input, '\n') + 1 && seen > limit ==> LineLength(input, limit) == Err(LineTooLong)
    ensures seen == IndexOf(input, '\n') + 1 <= limit ==>
      LineLength(input, limit) == if EndsWithCrlf(input[..seen]) then Ok(seen) else Err(LineMalformed)
  {
  }

  /** Moves the next bytes of the buffer behind the line read so far. */
  method TakeLinePiece(reader: BodyReader, sink: BodySink, kept: string, line: string, take: nat, ghost input: string, ghost all: string)
    returns (longer: string)
    requires take <= |reader.buffer| && |line| <= |input| && line == input[..|line|] && reader.Input() == input[|line|..]
    requires Accounts(reader, sink, kept + line, all)
    modifies reader
    ensures |longer| == |line| + take <= |input| && longer == input[..|longer|] && reader.Input() == input[|longer|..]
    ensures Accounts(reader, sink, kept + longer, all)
  {
    hide Accounts;
    var piece := reader.buffer[..take];
    var more := TakePiece(reader, sink, kept + line, piece, all);
    assert more == kept + (line + piece);
    ExtendLine(input, line, piece);
    longer := line + piece;
  }

  /** Part of the first line of an input has been read. */
  ghost predicate InLine(input: string, line: string, limit: nat) {
    |line| <= IndexOf(input, '\n') && |line| <= limit && line == input[..|line|]
  }

  /** One turn of read_body_line: true once the line's LF has been read. */
  method LineTurn(reader: BodyReader, sink: BodySink, output: string, line: string, limit: nat, ghost input: string, ghost all: string)
    returns (r: Result<bool, BodyError>, kept: string, longer: string)
    requires InLine(input, line, limit) && reader.Input() == input[|line|..] && Accounts(reader, sink, output + line, all)
    modifies reader, sink
    ensures sink.sent <= all
    ensures sink.failed == (old(sink.failed) || r == Err(SinkFailed))
    ensures r.Ok? ==> |line| < |longer| <= |input| && longer == input[..|longer|] && reader.Input() == input[|longer|..]
                      && Accounts(reader, sink, kept + longer, all)
    ensures r == Ok(true) ==> |longer| == IndexOf(input, '\n') + 1 <= limit
    ensures r == Ok(false) ==> InLine(input, longer, limit)
    ensures r.Err? ==> r.error == SinkFailed || LineLength(input, limit) == Err(r.error)
  {
    hide Accounts, LineLength, IndexOf, EndsWithCrlf;
    kept, longer := output, line;
    var filled := FillBody(reader, sink, output, line, all);
    if filled.Err? {
      LineOutcome(input, limit, |line|);
      return Err(filled.error), kept, longer;
    }
    kept := filled.value;
    BufferedIndex(input, |line|, reader.buffer);
    var index := IndexOf(reader.buffer, '\n');
    var done := index < |reader.buffer|;
    var take := if done then index + 1 else index;
    if |line| + take > limit {
      LineOutcome(input, limit, |line| + take);
      return Err(LineTooLong), kept, longer;
    }
    longer := TakeLinePiece(reader, sink, kept, line, take, input, all);
    r := Ok(done);
  }

  method ReadBodyLine(reader: BodyReader, sink: BodySink, output: string, limit: nat, ghost all: string)
    returns (r: Result<string, BodyError>, kept: string)
    requires Accounts(reader, sink, output, all)
    modifies reader, sink
    ensures sink.sent <= all
    ensures sink.failed == (old(sink.failed) || r == Err(SinkFailed))
    ensures r.Ok? ==> LineLength(old(reader.Input()), limit) == Ok(|r.value|) && r.value == old(reader.Input())[..|r.value|]
                      && reader.Input() == old(reader.Input())[|r.value|..] && Accounts(reader, sink, kept + r.value, all)
    ensures r.Err? ==> r.error == SinkFailed || LineLength(old(reader.Input()), limit) == Err(r.error)
  {
    hide Accounts, LineLength, IndexOf, EndsWithCrlf, InLine;
    kept := output;
    var line := "";
    ghost var input := reader.Input();
    assert output + "" == output;
    LineStarts(input, limit);
    var done := false;
    while !done
      invariant |line| <= |input| && reader.Input() == input[|line|..] && Accounts(reader, sink, kept + line, all)
      invariant sink.failed == old(sink.failed)
      invariant if done then |line| == IndexOf(input, '\n') + 1 <= limit && line == input[..|line|] else InLine(input, line, limit)
      decreases !done, |input| - |line|
    {
      var turn: Result<bool, BodyError>;
      turn, kept, line := LineTurn(reader, sink, kept, line, limit, input, all);
      if turn.Err? {
        return Err(turn.error), kept;
      }
      done := turn.value;
    }
    SentSoFar(reader, sink, kept + line, all);
    LineOutcome(input, limit, |line|);
    r := if EndsWithCrlf(line) then Ok(line) else Err(LineMalformed);
  }

  lemma LineStarts(input: string, limit: nat)
    ensures InLine(input, "", limit)
  {
  }

  lemma ExtendLine(input: string, line: string, piece: string)
    requires |line| <= |input| && line == input[..|line|] && |piece| <= |input| - |line| && piece == input[|line|..][..|piece|]
    ensures line + piece == input[..|line| + |piece|] && input[|line|..][|piece|..] == input[|line| + |piece|..]
  {
  }

  function Plus(n: nat, r: Result<nat, BodyError>): Result<nat, BodyError> {
    if r.Ok? then Ok(n + r.value) else r
  }

  /** Reads a line and holds it back behind the output. */
  method ForwardLine(reader: BodyReader, sink: BodySink, output: string, limit: nat, ghost all: string)
    returns (r: Result<string, BodyError>, kept: string)
    requires Accounts(reader, sink, output, all)
    modifies reader, sink
    ensures sink.sent <= all
    ensures sink.failed == (old(sink.failed) || r == Err(SinkFailed))
    ensures r.Ok? ==> LineLength(old(reader.Input()), limit) == Ok(|r.value|) && r.value == old(reader.Input())[..|r.value|]
                      && |r.value| <= |old(reader.Input())|
                      && reader.Input() == old(reader.Input())[|r.value|..] && Accounts(reader, sink, kept, all)
    ensures r.Err? ==> r.error == SinkFailed || LineLength(old(reader.Input()), limit) == Err(r.error)
  {
    r, kept := ReadBodyLine(reader, sink, output, limit, all);
    if r.Ok? {
      kept := kept + r.value;
    }
  }

  lemma TrailerStep(input: string, used: nat, line: nat)
    requires LineLength(input, TRAILER_LIMIT) == Ok(line) && line <= |input|
    ensures TrailerLength(input, used) ==
      if used + line > TRAILER_LIMIT then Err(TrailersTooLarge)
      else if input[..line] == CRLF then Ok(line)
      else Plus(line, TrailerLength(input[line..], used + line))
  {
    hide LineLength;
  }

  method ForwardTrailers(reader: BodyReader, sink: BodySink, output: string, ghost all: string)
    returns (r: Result<string, BodyError>)
    requires Accounts(reader, sink, output, all)
    modifies reader, sink
    ensures sink.sent <= all
    ensures sink.failed == (old(sink.failed) || r == Err(SinkFailed))
    ensures r.Ok? ==> var n := TrailerLength(old(reader.Input()), 0);
                      n.Ok? && reader.Input() == old(reader.Input())[n.value..] && Accounts(reader, sink, r.value, all)
    ensures r.Err? ==> r.error == SinkFailed || TrailerLength(old(reader.Input()), 0) == Err(r.error)
  {
    hide Accounts, TrailerLength, LineLength;
    ghost var input := reader.Input();
    var trailerBytes := 0;
    var kept := output;
    while true
      invariant trailerBytes <= |input| && reader.Input() == input[trailerBytes..] && Accounts(reader, sink, kept, all)
      invariant sink.failed == old(sink.failed)
      invariant TrailerLength(input, 0) == Plus(trailerBytes, TrailerLength(input[trailerBytes..], trailerBytes))
      decreases |input| - trailerBytes
    {
      ghost var rest := reader.Input();
      var line: Result<string, BodyError>;
      line, kept := ForwardLine(reader, sink, kept, TRAILER_LIMIT, all);
      if line.Err? {
        TrailerFails(rest, trailerBytes);
        return Err(line.error);
      }
      TrailerStep(rest, trailerBytes, |line.value|);
      trailerBytes := trailerBytes + |line.value|;
      assert rest[|line.value|..] == input[trailerBytes..];
      if trailerBytes > TRAILER_LIMIT {
        return Err(TrailersTooLarge);
      }
      if line.value == CRLF {
        return Ok(kept);
      }
    }
  }

  lemma TrailerFails(input: string, used: nat)
    ensures LineLength(input, TRAILER_LIMIT).Err? ==> TrailerLength(input, used) == LineLength(input, TRAILER_LIMIT)
  {
  }

  method ForwardChunkData(reader: BodyReader, sink: BodySink, output: string, size: nat, ghost all: string)
    returns (r: Result<string, BodyError>)
    requires Accounts(reader, sink, output, all)
    modifies reader, sink
    ensures sink.sent <= all
    ensures sink.failed == (old(sink.failed) || r == Err(SinkFailed))
    ensures r.Ok? ==> var n := ChunkDataLength(old(reader.Input()), size);
                      n.Ok? && reader.Input() == old(reader.Input())[n.value..] && Accounts(reader, sink, r.value, all)
    ensures r.Err? ==> r.error == SinkFailed || ChunkDataLength(old(reader.Input()), size) == Err(r.error)
  {
    hide Accounts, LineLength;
    ghost var input := reader.Input();
    var copied := CopyBodyBytes(reader, sink, output, size, all);
    if copied.Err? {
      return Err(copied.error);
    }
    var line, kept := ForwardLine(reader, sink, copied.value, 2, all);
    if line.Err? {
      return Err(line.error);
    }
    if line.value != CRLF {
      return Err(ChunkMalformed);
    }
    assert input[size..][2..] == input[size + 2..];
    return Ok(kept);
  }

  method ForwardChunk(reader: BodyReader, sink: BodySink, output: string, ghost all: string)
    returns (r: Result<bool, BodyError>, kept: string)
    requires Accounts(reader, sink, output, all)
    modifies reader, sink
    ensures sink.sent <= all
    ensures sink.failed == (old(sink.failed) || r == Err(SinkFailed))
    ensures r.Ok? ==> OneChunk(old(reader.Input())).Ok? && OneChunk(old(reader.Input())).value.1 == r.value
                      && reader.Input() == old(reader.Input())[OneChunk(old(reader.Input())).value.0..]
                      && Accounts(reader, sink, kept, all)
    ensures r.Err? ==> r.error == SinkFailed || OneChunk(old(reader.Input())) == Err(r.error)
  {
    hide Accounts, TrailerLength, ChunkDataLength, LineLength, ParseChunkSize;
    ghost var input := reader.Input();
    var line: Result<string, BodyError>;
    line, kept := ForwardLine(reader, sink, output, CHUNK_LINE_LIMIT, all);
    if line.Err? {
      return Err(line.error), kept;
    }
    var size := ParseChunkSize(line.value);
    if size.Err? {
      return Err(size.error), kept;
    }
    ghost var n := |line.value|;
    if size.value == 0 {
      var trailers := ForwardTrailers(reader, sink, kept, all);
      if trailers.Err? {
        return Err(trailers.error), kept;
      }
      CutLater(input, n, TrailerLength(input[n..], 0).value);
      return Ok(true), trailers.value;
    }
    var data := ForwardChunkData(reader, sink, kept, size.value, all);
    if data.Err? {
      return Err(data.error), kept;
    }
    CutLater(input, n, ChunkDataLength(input[n..], size.value).value);
    return Ok(false), data.value;
  }

  lemma CutLater(s: string, n: nat, m: nat)
    requires n + m <= |s|
    ensures s[n..][m..] == s[n + m..]
  {
  }

  lemma ChunkStep(input: string)
    ensures var chunk := OneChunk(input);
      ChunkedLength(input) == if chunk.Err? then Err(chunk.error)
                              else if chunk.value.1 then Ok(chunk.value.0)
                              else Plus(chunk.value.0, ChunkedLength(input[chunk.value.0..]))
  {
    hide OneChunk;
    var chunk := OneChunk(input);
    if chunk.Ok? {
      var rest := input[chunk.value.0..];
      assert !chunk.value.1 ==> ChunkedLength(input) == Plus(chunk.value.0, ChunkedLength(rest));
    }
  }

  method ForwardChunks(reader: BodyReader, sink: BodySink, output: string, ghost all: string)
    returns (r: Result<string, BodyError>)
    requires Accounts(reader, sink, output, all)
    modifies reader, sink
    ensures sink.sent <= all
    ensures sink.failed == (old(sink.failed) || r == Err(SinkFailed))
    ensures r.Ok? ==> var n := ChunkedLength(old(reader.Input()));
                      n.Ok? && reader.Input() == old(reader.Input())[n.value..] && Accounts(reader, sink, r.value, all)
    ensures r.Err? ==> r.error == SinkFailed || ChunkedLength(old(reader.Input())) == Err(r.error)
  {
    hide Accounts, ChunkedLength, OneChunk;
    ghost var input := reader.Input();
    ghost var taken := 0;
    var kept := output;
    while true
      invariant taken <= |input| && reader.Input() == input[taken..] && Accounts(reader, sink, kept, all)
      invariant sink.failed == old(sink.failed)
      invariant ChunkedLength(input) == Plus(taken, ChunkedLength(input[taken..]))
      decreases |input| - taken
    {
      ghost var rest := reader.Input();
      ChunkStep(rest);
      var last: Result<bool, BodyError>;
      last, kept := ForwardChunk(reader, sink, kept, all);
      if last.Err? {
        return Err(last.error);
      }
      taken := taken + OneChunk(rest).value.0;
      assert input[taken..] == reader.Input();
      if last.value {
        return Ok(kept);
      }
    }
  }

  /**
   Sends `head` and exactly one message body, and leaves the rest of the input
   unread, however the input is split. Whatever happens, what was sent is a
   prefix of head and input.
   */
  method ForwardBody(reader: BodyReader, sink: BodySink, framing: BodyFraming, head: string)
    returns (r: Result<(), BodyError>)
    modifies reader, sink
    ensures sink.sent <= old(sink.sent) + head + old(reader.Input())
    ensures sink.failed == (old(sink.failed) || r == Err(SinkFailed))
    ensures r != Err(SinkFailed) ==> (r.Ok? <==> BodyLength(framing, old(reader.Input())).Ok?)
    ensures r.Ok? ==> var n := BodyLength(framing, old(reader.Input()));
                      && n.Ok? && sink.sent == old(sink.sent) + head + old(reader.Input())[..n.value]
                      && reader.Input() == old(reader.Input())[n.value..]
    ensures r.Err? ==> r.error == SinkFailed || BodyLength(framing, old(reader.Input())) == Err(r.error)
  {
    hide ChunkedLength;
    ghost var all := sink.sent + head + reader.Input();
    ghost var input, start := reader.Input(), sink.sent;
    var output := Ok(head);
    match framing {
      case Empty =>
      case Length(length) => output := CopyBodyBytes(reader, sink, head, length, all);
      case Chunked => output := ForwardChunks(reader, sink, head, all);
    }
    if output.Err? {
      return Err(output.error);
    }
    ghost var n := BodyLength(framing, input).value;
    assert reader.Input() == input[n..];
    CutSame(sink.sent + output.value, start + head, input, n);
    if output.value != "" {
      var ok := sink.Send(output.value);
      if !ok {
        return Err(SinkFailed);
      }
    }
    return Ok(());
  }

  lemma CutSame(sent: string, start: string, input: string, n: nat)
    requires n <= |input| && sent + input[n..] == start + input
    ensures sent == start + input[..n]
  {
    assert start + input == (start + input[..n]) + input[n..];
    assert |sent| == |start + input[..n]|;
    assert sent == (sent + input[n..])[..|sent|];
  }
}
