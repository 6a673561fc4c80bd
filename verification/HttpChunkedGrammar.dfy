/**
 The chunked coding of section 7.1 of RFC 9112 as a writer of bodies, and the
 proof that the forwarder takes exactly what that writer can produce. The
 source leaves chunk extensions and trailer fields uninterpreted, accepts
 blanks after a size, and bounds lines, sizes and trailers.
 */
module HttpChunkedGrammar {
  import opened Prelude
  import opened HttpBody

  /** A chunk: its size line without CRLF, and its data. */
  datatype Chunk = Chunk(line: string, data: string)

  datatype ChunkedBody = ChunkedBody(chunks: seq<Chunk>, last: string, trailers: seq<string>)

  predicate IsLine(l: string, limit: nat) {
    |l| + 2 <= limit && forall i :: 0 <= i < |l| ==> l[i] != '\n'
  }

  predicate AllBlank(s: string) { forall i :: 0 <= i < |s| ==> IsBlank(s[i]) }

  /** A size in at most 15 hexadecimal digits, blanks, and an extension that starts with a semicolon. */
  predicate IsSizeLine(l: string, digits: string, blanks: string, extension: string) {
    && l == digits + blanks + extension
    && 1 <= |digits| <= 15 && AllHex(digits) && AllBlank(blanks)
    && (extension == "" || extension[0] == ';')
  }

  ghost predicate SizeLine(l: string, n: nat) {
    exists digits, blanks, extension :: IsSizeLine(l, digits, blanks, extension) && HexValue(digits) == n
  }

  function TrailersSize(ts: seq<string>): nat {
    if ts == [] then 0 else |ts[0]| + 2 + TrailersSize(ts[1..])
  }

  ghost predicate GoodTrailers(ts: seq<string>, used: nat) {
    && used + TrailersSize(ts) + 2 <= 8192
    && forall i :: 0 <= i < |ts| ==> ts[i] != "" && IsLine(ts[i], 8192)
  }

  ghost predicate GoodChunk(c: Chunk) {
    c.data != "" && IsLine(c.line, 4096) && SizeLine(c.line, |c.data|)
  }

  ghost predicate WellFormed(b: ChunkedBody) {
    && (forall i :: 0 <= i < |b.chunks| ==> GoodChunk(b.chunks[i]))
    && IsLine(b.last, 4096) && SizeLine(b.last, 0)
    && GoodTrailers(b.trailers, 0)
  }

  function WriteTrailers(ts: seq<string>): string {
    if ts == [] then CRLF else ts[0] + CRLF + WriteTrailers(ts[1..])
  }

  function WriteChunks(cs: seq<Chunk>, tail: string): string {
    if cs == [] then tail else cs[0].line + CRLF + (cs[0].data + CRLF + WriteChunks(cs[1..], tail))
  }

  function Write(b: ChunkedBody): string {
    WriteChunks(b.chunks, b.last + CRLF + WriteTrailers(b.trailers))
  }

  // ----- Lines -----

  lemma CutTwice(s: string, n: nat, m: nat)
    requires n <= |s| && m <= |s| - n
    ensures s[..n + m] == s[..n] + s[n..][..m] && s[n..][m..] == s[n + m..]
  {
  }

  lemma LineWritten(l: string, limit: nat, rest: string)
    requires IsLine(l, limit)
    ensures var input := l + CRLF + rest;
      LineLength(input, limit) == Ok(|l| + 2) && input[..|l| + 2] == l + CRLF && input[|l| + 2..] == rest
  {
    var input := l + CRLF + rest;
    FirstIndex(input, '\n', |l| + 1);
  }

  lemma LineAccepted(input: string, limit: nat) returns (l: string)
    requires LineLength(input, limit).Ok?
    ensures var n := LineLength(input, limit).value; IsLine(l, limit) && n == |l| + 2 && input[..n] == l + CRLF
  {
    var n := LineLength(input, limit).value;
    l := input[..n - 2];
    assert input[..n] == l + [input[n - 2], input[n - 1]];
  }

  // ----- Size lines -----

  lemma {:induction false} TrimEndIs(s: string, blanks: string)
    requires AllBlank(blanks) && s != "" && !IsBlank(s[|s| - 1])
    ensures TrimEnd(s + blanks) == s
  {
    if blanks == "" {
      assert s + blanks == s;
    } else {
      TrimEndIs(s, blanks[..|blanks| - 1]);
      assert (s + blanks)[..|s + blanks| - 1] == s + blanks[..|blanks| - 1];
    }
  }

  lemma BeforeSemicolon(front: string, extension: string)
    requires forall i :: 0 <= i < |front| ==> front[i] != ';'
    requires extension == "" || extension[0] == ';'
    ensures (front + extension)[..IndexOf(front + extension, ';')] == front
  {
    var l := front + extension;
    if extension != "" {
      FirstIndex(l, ';', |front|);
    } else {
      assert IndexOf(l, ';') == |l|;
    }
  }

  lemma SizeLineParses(l: string, n: nat)
    requires SizeLine(l, n)
    ensures ParseChunkSize(l + CRLF) == Ok(n)
  {
    var digits, blanks, extension :| IsSizeLine(l, digits, blanks, extension) && HexValue(digits) == n;
    assert (l + CRLF)[..|l + CRLF| - 2] == l;
    assert l == digits + blanks + extension;
    BeforeSemicolon(digits + blanks, extension);
    TrimEndIs(digits, blanks);
  }

  lemma ParsedSizeLine(l: string)
    requires ParseChunkSize(l + CRLF).Ok?
    ensures SizeLine(l, ParseChunkSize(l + CRLF).value)
  {
    assert (l + CRLF)[..|l + CRLF| - 2] == l;
    var i := IndexOf(l, ';');
    var digits := TrimEnd(l[..i]);
    var blanks := l[..i][|digits|..];
    assert l[..i] == digits + blanks && l == l[..i] + l[i..];
    assert IsSizeLine(l, digits, blanks, l[i..]);
  }

  // ----- Trailers -----

  lemma {:induction false} TrailersWritten(ts: seq<string>, used: nat, rest: string)
    requires GoodTrailers(ts, used)
    ensures TrailerLength(WriteTrailers(ts) + rest, used) == Ok(|WriteTrailers(ts)|)
    decreases |ts|
  {
    hide LineLength, TrailerLength;
    if ts == [] {
      LineWritten("", TRAILER_LIMIT, rest);
      assert "" + CRLF == CRLF;
      TrailerStep(CRLF + rest, used, 2);
    } else {
      var more := WriteTrailers(ts[1..]);
      var input := ts[0] + CRLF + (more + rest);
      Regroup(ts[0] + CRLF, more, rest);
      LineWritten(ts[0], TRAILER_LIMIT, more + rest);
      TrailerStep(input, used, |ts[0]| + 2);
      assert |input[..|ts[0]| + 2]| > 2;
      TrailersWritten(ts[1..], used + |ts[0]| + 2, rest);
    }
  }

  lemma {:induction false} TrailersAccepted(input: string, used: nat) returns (ts: seq<string>)
    requires TrailerLength(input, used).Ok?
    ensures GoodTrailers(ts, used) && input[..TrailerLength(input, used).value] == WriteTrailers(ts)
    decreases |input|
  {
    hide LineLength, TrailerLength;
    TrailerFails(input, used);
    var l := LineAccepted(input, TRAILER_LIMIT);
    var n := |l| + 2;
    TrailerStep(input, used, n);
    if l == "" {
      ts := [];
    } else {
      var more := TrailersAccepted(input[n..], used + n);
      ts := [l] + more;
      assert ts[1..] == more;
      CutTwice(input, n, TrailerLength(input[n..], used + n).value);
    }
  }

  // ----- Bodies -----

  lemma DataWritten(data: string, rest: string)
    ensures ChunkDataLength(data + CRLF + rest, |data|) == Ok(|data| + 2)
    ensures (data + CRLF + rest)[|data| + 2..] == rest
  {
    var input := data + CRLF + rest;
    assert input[|data|..] == "" + CRLF + rest;
    LineWritten("", 2, rest);
  }

  lemma ChunkWritten(c: Chunk, rest: string)
    requires GoodChunk(c)
    ensures var input := c.line + CRLF + (c.data + CRLF + rest);
      OneChunk(input) == Ok((|c.line| + |c.data| + 4, false)) && input[|c.line| + |c.data| + 4..] == rest
  {
    hide LineLength, ChunkDataLength, ParseChunkSize, TrailerLength, SizeLine, IsLine;
    LineWritten(c.line, CHUNK_LINE_LIMIT, c.data + CRLF + rest);
    SizeLineParses(c.line, |c.data|);
    DataWritten(c.data, rest);
    CutTwice(c.line + CRLF + (c.data + CRLF + rest), |c.line| + 2, |c.data| + 2);
  }

  lemma LastWritten(last: string, trailers: seq<string>, rest: string)
    requires IsLine(last, CHUNK_LINE_LIMIT) && SizeLine(last, 0) && GoodTrailers(trailers, 0)
    ensures var tail := last + CRLF + WriteTrailers(trailers);
      OneChunk(tail + rest) == Ok((|tail|, true))
  {
    hide LineLength, ParseChunkSize, TrailerLength, SizeLine, IsLine, GoodTrailers;
    var after := WriteTrailers(trailers) + rest;
    Regroup(last + CRLF, WriteTrailers(trailers), rest);
    LineWritten(last, CHUNK_LINE_LIMIT, after);
    SizeLineParses(last, 0);
    TrailersWritten(trailers, 0, rest);
  }

  lemma {:induction false} ChunksWritten(cs: seq<Chunk>, tail: string, rest: string)
    requires forall i :: 0 <= i < |cs| ==> GoodChunk(cs[i])
    requires OneChunk(tail + rest) == Ok((|tail|, true))
    ensures ChunkedLength(WriteChunks(cs, tail) + rest) == Ok(|WriteChunks(cs, tail)|)
    decreases |cs|
  {
    hide OneChunk, GoodChunk;
    if cs == [] {
      ChunkStep(tail + rest);
    } else {
      var more := WriteChunks(cs[1..], tail);
      var input := cs[0].line + CRLF + (cs[0].data + CRLF + (more + rest));
      assert WriteChunks(cs, tail) + rest == input;
      ChunkWritten(cs[0], more + rest);
      ChunkStep(input);
      ChunksWritten(cs[1..], tail, rest);
    }
  }

  /** Every body the coding can write, within the limits, is taken whole whatever follows it. */
  lemma WrittenBodyIsTaken(b: ChunkedBody, rest: string)
    requires WellFormed(b)
    ensures BodyLength(Chunked, Write(b) + rest) == Ok(|Write(b)|)
  {
    LastWritten(b.last, b.trailers, rest);
    ChunksWritten(b.chunks, b.last + CRLF + WriteTrailers(b.trailers), rest);
  }

  lemma DataAccepted(input: string, size: nat)
    requires ChunkDataLength(input, size).Ok?
    ensures ChunkDataLength(input, size).value == size + 2 <= |input| && input[..size + 2] == input[..size] + CRLF
  {
    var end := LineLength(input[size..], 2).value;
    assert input[..size + end] == input[..size] + input[size..][..end];
  }

  /** What an accepted chunk is made of. */
  lemma ChunkAccepted(input: string) returns (c: Chunk, trailers: seq<string>)
    requires OneChunk(input).Ok?
    ensures OneChunk(input).value.1 ==> IsLine(c.line, CHUNK_LINE_LIMIT) && SizeLine(c.line, 0) && GoodTrailers(trailers, 0)
                                        && input[..OneChunk(input).value.0] == c.line + CRLF + WriteTrailers(trailers)
    ensures !OneChunk(input).value.1 ==> GoodChunk(c) && input[..OneChunk(input).value.0] == c.line + CRLF + (c.data + CRLF)
  {
    hide LineLength, ParseChunkSize, TrailerLength, ChunkDataLength, SizeLine, IsLine, GoodTrailers;
    var l := LineAccepted(input, CHUNK_LINE_LIMIT);
    var n := |l| + 2;
    ParsedSizeLine(l);
    var size := ParseChunkSize(input[..n]).value;
    trailers := [];
    if size == 0 {
      c := Chunk(l, "");
      trailers := TrailersAccepted(input[n..], 0);
      CutTwice(input, n, TrailerLength(input[n..], 0).value);
    } else {
      DataAccepted(input[n..], size);
      c := Chunk(l, input[n..][..size]);
      CutTwice(input, n, size + 2);
    }
  }

  /** Everything taken is a body the coding can write. */
  lemma {:induction false} TakenIsWrittenBody(input: string) returns (b: ChunkedBody)
    requires ChunkedLength(input).Ok?
    ensures WellFormed(b) && input[..ChunkedLength(input).value] == Write(b)
    decreases |input|
  {
    hide OneChunk, ChunkedLength, GoodChunk, IsLine, SizeLine, GoodTrailers;
    ChunkStep(input);
    var c, trailers := ChunkAccepted(input);
    var (n, last) := OneChunk(input).value;
    if last {
      b := ChunkedBody([], c.line, trailers);
    } else {
      var more := TakenIsWrittenBody(input[n..]);
      b := more.(chunks := [c] + more.chunks);
      assert b.chunks[1..] == more.chunks;
      CutTwice(input, n, ChunkedLength(input[n..]).value);
      Regroup(c.line + CRLF, c.data + CRLF, Write(more));
    }
  }
}
