/**
 Forwarding a response head (src/http_proxy.rs): interim heads as they are, the
 final one rewritten to close the connection, then the body. Texts are byte
 strings, one `char` a byte.
 */
module HttpResponseHead {
  import opened Prelude
  import opened HttpBody
  import opened HttpRequestHead

  const RESPONSE_HEAD_LIMIT := 65536

  datatype Fault = BadStatus | EndedInHead | TooLarge

  // ----- The end of a head -----

  /** Where the head ends if the LF at an index is followed by an empty line. */
  function EndAt(s: string, i: nat): (e: Option<nat>)
    requires i < |s|
    ensures e.Some? ==> i < e.value <= |s|
  {
    if s[i] != '\n' then None
    else if i + 1 < |s| && s[i + 1] == '\n' then Some(i + 2)
    else if i + 2 < |s| && s[i + 1] == '\r' && s[i + 2] == '\n' then Some(i + 3)
    else None
  }

  function FindHeadEnd(s: string, from: nat): (e: Option<nat>)
    ensures e.Some? ==> from < e.value <= |s|
    decreases |s| - from
  {
    if from >= |s| then None
    else if EndAt(s, from).Some? then EndAt(s, from)
    else FindHeadEnd(s, from + 1)
  }

  /** The text up to a position ends in an empty line. */
  predicate EndsHead(s: string, e: nat)
    requires e <= |s|
  {
    e >= 2 && s[e - 1] == '\n' && (s[e - 2] == '\n' || (e >= 3 && s[e - 2] == '\r' && s[e - 3] == '\n'))
  }

  lemma {:induction false} SkipNothing(s: string, from: nat, to: nat)
    requires from <= to <= |s| && forall i :: from <= i < to ==> EndAt(s, i).None?
    ensures FindHeadEnd(s, from) == FindHeadEnd(s, to)
    decreases |s| - from
  {
    if from < to {
      SkipNothing(s, from + 1, to);
    }
  }

  lemma {:induction false} FoundAt(s: string, from: nat) returns (i: nat)
    ensures from <= i
    ensures forall k :: from <= k < i && k < |s| ==> EndAt(s, k).None?
    ensures if i < |s| then EndAt(s, i).Some? && FindHeadEnd(s, from) == EndAt(s, i) else FindHeadEnd(s, from) == None
    decreases |s| - from
  {
    if from >= |s| || EndAt(s, from).Some? {
      i := from;
    } else {
      i := FoundAt(s, from + 1);
    }
  }

  /** The search finds the least position at which the text ends in an empty line. */
  lemma FirstHeadEnd(s: string, e: nat)
    ensures FindHeadEnd(s, 0) == Some(e)
       <==> e <= |s| && EndsHead(s, e) && forall k :: 0 <= k < e ==> !EndsHead(s, k)
  {
    var i := FoundAt(s, 0);
    if i < |s| {
      assert EndsHead(s, EndAt(s, i).value);
    }
    forall k | 0 <= k <= |s| && EndsHead(s, k) ensures i < |s| && EndAt(s, i).value <= k {
      EndHasLineFeed(s, k);
    }
  }

  lemma EndHasLineFeed(s: string, e: nat)
    requires e <= |s| && EndsHead(s, e)
    ensures EndAt(s, e - 2) == Some(e) || (e >= 3 && EndAt(s, e - 3) == Some(e))
  {
  }

  lemma MoreInputKeepsEnd(s: string, t: string)
    requires FindHeadEnd(s, 0).Some?
    ensures FindHeadEnd(s + t, 0) == FindHeadEnd(s, 0)
  {
    var i := FoundAt(s, 0);
    assert forall k :: 0 <= k < i ==> EndAt(s + t, k) == EndAt(s, k);
    assert EndAt(s + t, i) == EndAt(s, i);
    SkipNothing(s + t, 0, i);
  }

  function Resume(length: nat): nat { if length < 2 then 0 else length - 2 }

  /** Resuming two bytes before the old end loses nothing. */
  lemma ResumedSearch(s: string, t: string)
    requires FindHeadEnd(s, 0).None?
    ensures FindHeadEnd(s + t, Resume(|s|)) == FindHeadEnd(s + t, 0)
  {
    var i := FoundAt(s, 0);
    assert forall k :: 0 <= k < Resume(|s|) ==> EndAt(s + t, k) == EndAt(s, k);
    SkipNothing(s + t, 0, Resume(|s|));
  }

  // ----- Status lines -----

  function IsInterim(head: string): Result<bool, Fault> {
    if |head| < 12 || head[..5] != "HTTP/" || !IsDigit(head[5]) || head[6] != '.' || !IsDigit(head[7]) || head[8] != ' '
       || !IsDigit(head[9]) || !IsDigit(head[10]) || !IsDigit(head[11]) then Err(BadStatus)
    else Ok(head[9] == '1' && head[9..12] != "101")
  }

  /** A status line as it is written: interim are the 1xx codes but 101; without three digits in place it is refused. */
  lemma StatusForm(major: char, minor: char, a: char, b: char, c: char, rest: string)
    ensures var head := "HTTP/" + [major, '.', minor, ' ', a, b, c] + rest;
      IsInterim(head)
        == if major in "0123456789" && minor in "0123456789" && a in "0123456789" && b in "0123456789" && c in "0123456789"
           then Ok(a == '1' && !(b == '0' && c == '1')) else Err(BadStatus)
  {
    var head := "HTTP/" + [major, '.', minor, ' ', a, b, c] + rest;
    DigitsAre(major);
    DigitsAre(minor);
    DigitsAre(a);
    DigitsAre(b);
    DigitsAre(c);
    assert head[..5] == "HTTP/";
    assert head[5] == major && head[6] == '.' && head[7] == minor && head[8] == ' ' && head[9] == a && head[10] == b && head[11] == c;
    assert head[9..12] == [a, b, c];
    assert "101" == ['1', '0', '1'];
  }

  lemma DigitsAre(c: char)
    ensures IsDigit(c) <==> c in "0123456789"
  {
    if IsDigit(c) {
      assert "0123456789"[c as int - '0' as int] == c;
    }
  }

  /** Nothing else is a status line. */
  lemma StatusIsForm(head: string)
    requires IsInterim(head).Ok?
    ensures |head| >= 12 && head == "HTTP/" + [head[5], '.', head[7], ' ', head[9], head[10], head[11]] + head[12..]
  {
    assert head == head[..5] + head[5..12] + head[12..];
    assert head[5..12] == [head[5], '.', head[7], ' ', head[9], head[10], head[11]];
  }

  // ----- Closing a head -----

  predicate IsAsciiBlank(c: char) { c == ' ' || c == '\t' || c == '\n' || c == '\r' || c == '\U{0C}' }

  function TrimAsciiEnd(s: string): string {
    if s != "" && IsAsciiBlank(s[|s| - 1]) then TrimAsciiEnd(s[..|s| - 1]) else s
  }

  function TrimAscii(s: string): string {
    if s != "" && IsAsciiBlank(s[0]) then TrimAscii(s[1..]) else TrimAsciiEnd(s)
  }

  /** The non-empty lines, without their endings. */
  function Stripped(parts: seq<string>): seq<string> {
    if parts == [] then []
    else
      var line := StripCr(parts[0]);
      (if line == "" then [] else [line]) + Stripped(parts[1..])
  }

  function HeadText(head: string): seq<string> { Stripped(Split(head, '\n')) }

  function LowerName(line: string): Option<string> {
    var colon := IndexOf(line, ':');
    if colon == |line| then None else Some(Lower(line[..colon]))
  }

  function LowerOptions(parts: seq<string>): seq<string> {
    seq(|parts|, i requires 0 <= i < |parts| => Lower(TrimAscii(parts[i])))
  }

  function ConnectionOptions(lines: seq<string>): seq<string> {
    if lines == [] then []
    else
      var last := lines[|lines| - 1];
      ConnectionOptions(lines[..|lines| - 1])
      + if LowerName(last) == Some("connection") && |last| >= 11 then LowerOptions(Split(last[11..], ',')) else []
  }

  predicate Dropped(options: seq<string>, name: string) {
    name == "connection" || name == "keep-alive" || name == "proxy-connection"
    || (name != "content-length" && name != "transfer-encoding" && name in options)
  }

  predicate Folded(line: string) { line != "" && IsBlank(line[0]) }

  /** Whether the field the last line belongs to is kept. */
  predicate KeepsLast(lines: seq<string>, options: seq<string>) {
    lines == []
    || var last := lines[|lines| - 1];
       if Folded(last) then KeepsLast(lines[..|lines| - 1], options)
       else LowerName(last).None? || !Dropped(options, LowerName(last).value)
  }

  function KeptOf(lines: seq<string>, options: seq<string>): seq<string> {
    if lines == [] then []
    else KeptOf(lines[..|lines| - 1], options) + if KeepsLast(lines, options) then [lines[|lines| - 1]] else []
  }

  function ClosedLines(lines: seq<string>): seq<string> {
    if lines == [] then [] else [lines[0]] + KeptOf(lines[1..], ConnectionOptions(lines[1..])) + [CLOSE]
  }

  function CloseHead(head: string): string { WriteLines(ClosedLines(HeadText(head))) + CRLF }

  /** The loop that fills the closed head. */
  method CloseResponseHead(head: string) returns (output: string)
    requires HeadText(head) != []
    ensures output == CloseHead(head)
  {
    hide HeadText, KeptOf, KeepsLast, ConnectionOptions, Dropped, LowerName, WriteLines;
    var lines := HeadText(head);
    var rest := lines[1..];
    var options := ConnectionOptions(rest);
    WriteSnoc([], lines[0]);
    WriteNothing();
    KeptNone(options);
    output := lines[0] + CRLF;
    assert [] + [lines[0]] == [lines[0]] == [lines[0]] + KeptOf(rest[..0], options);
    var keep := true;
    for i := 0 to |rest|
      invariant keep == KeepsLast(rest[..i], options)
      invariant output == WriteLines([lines[0]] + KeptOf(rest[..i], options))
    {
      KeptNext(rest, i, options);
      if !Folded(rest[i]) {
        keep := LowerName(rest[i]).None? || !Dropped(options, LowerName(rest[i]).value);
      }
      ghost var before := [lines[0]] + KeptOf(rest[..i], options);
      if keep {
        output := output + rest[i];
        output := output + CRLF;
        WriteSnoc(before, rest[i]);
        assert before + [rest[i]] == [lines[0]] + KeptOf(rest[..i + 1], options);
      }
    }
    assert rest[..|rest|] == rest;
    WriteSnoc([lines[0]] + KeptOf(rest, options), CLOSE);
    output := output + CLOSE + CRLF + CRLF;
  }

  lemma WriteNothing()
    ensures WriteLines([]) == ""
  {
  }

  lemma KeptNone(options: seq<string>)
    ensures KeptOf([], options) == [] && KeepsLast([], options)
  {
  }

  lemma KeptNext(lines: seq<string>, i: nat, options: seq<string>)
    requires i < |lines|
    ensures KeepsLast(lines[..i + 1], options)
        == if Folded(lines[i]) then KeepsLast(lines[..i], options)
           else LowerName(lines[i]).None? || !Dropped(options, LowerName(lines[i]).value)
    ensures KeptOf(lines[..i + 1], options)
         == if KeepsLast(lines[..i + 1], options) then KeptOf(lines[..i], options) + [lines[i]] else KeptOf(lines[..i], options)
  {
    hide LowerName, Dropped;
    assert lines[..i + 1][..i] == lines[..i];
  }

  // ----- The whole path, on the whole input -----

  datatype Response = Response(interim: string, final: string, body: string)

  /** The interim heads, the final head and what follows it. */
  function Parse(s: string): Result<Response, Fault>
    decreases |s|
  {
    var end := FindHeadEnd(s, 0);
    if end.None? then Err(EndedInHead)
    else
      var head := s[..end.value];
      var interim :- IsInterim(head);
      if !interim then Ok(Response("", head, s[end.value..]))
      else
        var rest :- Parse(s[end.value..]);
        Ok(Response(head + rest.interim, rest.final, rest.body))
  }

  /** What the client receives, whatever the split. */
  function Respond(s: string): Result<string, Fault> {
    var r :- Parse(s);
    Ok(r.interim + CloseHead(r.final) + r.body)
  }

  // ----- The loop over chunks -----

  /** What reading chunks until the first empty one gives. */
  function Input(chunks: seq<string>): string {
    if chunks == [] || chunks[0] == "" then "" else chunks[0] + Input(chunks[1..])
  }

  datatype Outcome = Outcome(sent: string, fault: Option<Fault>, rest: seq<string>)

  /** The path with every search from the start: what is sent, the fault, the chunks left for the body. */
  function Drive(buffer: string, chunks: seq<string>): Outcome
    decreases |chunks|, |buffer|
  {
    var end := FindHeadEnd(buffer, 0);
    if end.None? then
      if |buffer| > RESPONSE_HEAD_LIMIT then Outcome("", Some(TooLarge), chunks)
      else if chunks == [] then Outcome("", Some(EndedInHead), [])
      else if chunks[0] == "" then Outcome("", Some(EndedInHead), chunks[1..])
      else Drive(buffer + chunks[0], chunks[1..])
    else
      var head := buffer[..end.value];
      var interim := IsInterim(head);
      if interim.Err? then Outcome("", Some(interim.error), chunks)
      else if interim.value then
        var more := Drive(buffer[end.value..], chunks);
        more.(sent := head + more.sent)
      else Outcome(CloseHead(head) + buffer[end.value..], None, chunks)
  }

  class ChunkSource {
    var chunks: seq<string>

    method ReadChunk() returns (chunk: string)
      modifies this
      ensures chunk == if old(chunks) == [] then "" else old(chunks)[0]
      ensures chunks == if old(chunks) == [] then [] else old(chunks)[1..]
    {
      if chunks == [] {
        chunk := "";
      } else {
        chunk, chunks := chunks[0], chunks[1..];
      }
    }
  }

  class Client {
    var sent: string

    method WriteAll(data: string)
      modifies this
      ensures sent == old(sent) + data
    {
      sent := sent + data;
    }
  }

  /** The source's loop, which resumes each search where the last one stopped. */
  method ForwardResponseHead(source: ChunkSource, client: Client) returns (fault: Option<Fault>)
    modifies source, client
    ensures var run := Drive("", old(source.chunks));
      fault == run.fault && source.chunks == run.rest && client.sent == old(client.sent) + run.sent
  {
    hide FindHeadEnd, CloseHead, IsInterim, HeadText, Drive;
    var buffer, searched := "", 0;
    NoEndInNothing();
    ghost var all := Drive("", source.chunks);
    ghost var done := "";
    assert done + all.sent == all.sent;
    while true
      invariant FindHeadEnd(buffer, searched) == FindHeadEnd(buffer, 0)
      invariant client.sent == old(client.sent) + done
      invariant all.sent == done + Drive(buffer, source.chunks).sent
      invariant all.fault == Drive(buffer, source.chunks).fault && all.rest == Drive(buffer, source.chunks).rest
      decreases |source.chunks|, |buffer|
    {
      var end := FindHeadEnd(buffer, searched);
      if end.None? {
        DriveReads(buffer, source.chunks);
        if |buffer| > RESPONSE_HEAD_LIMIT {
          return Some(TooLarge);
        }
        searched := Resume(|buffer|);
        var chunk := source.ReadChunk();
        if chunk == "" {
          return Some(EndedInHead);
        }
        ResumedSearch(buffer, chunk);
        buffer := buffer + chunk;
        continue;
      }
      var head := buffer[..end.value];
      var interim := IsInterim(head);
      DriveSends(buffer, source.chunks);
      if interim.Err? {
        return Some(interim.error);
      }
      if interim.value {
        client.WriteAll(head);
        Regroup(old(client.sent), done, head);
        Regroup(done, head, Drive(buffer[end.value..], source.chunks).sent);
        done := done + head;
        buffer := buffer[end.value..];
        searched := 0;
        continue;
      }
      StatusLineIsThere(buffer, end.value);
      var closed := CloseResponseHead(head);
      client.WriteAll(closed);
      client.WriteAll(buffer[end.value..]);
      Regroup(old(client.sent) + done, closed, buffer[end.value..]);
      Regroup(old(client.sent), done, closed + buffer[end.value..]);
      return None;
    }
  }

  lemma DriveReads(buffer: string, chunks: seq<string>)
    requires FindHeadEnd(buffer, 0).None?
    ensures Drive(buffer, chunks)
         == if |buffer| > RESPONSE_HEAD_LIMIT then Outcome("", Some(TooLarge), chunks)
            else if chunks == [] then Outcome("", Some(EndedInHead), [])
            else if chunks[0] == "" then Outcome("", Some(EndedInHead), chunks[1..])
            else Drive(buffer + chunks[0], chunks[1..])
  {
    hide FindHeadEnd, IsInterim, CloseHead;
  }

  lemma DriveSends(buffer: string, chunks: seq<string>)
    requires FindHeadEnd(buffer, 0).Some?
    ensures var end := FindHeadEnd(buffer, 0).value;
      var interim := IsInterim(buffer[..end]);
      Drive(buffer, chunks)
        == if interim.Err? then Outcome("", Some(interim.error), chunks)
           else if interim.value then
             var more := Drive(buffer[end..], chunks);
             more.(sent := buffer[..end] + more.sent)
           else Outcome(CloseHead(buffer[..end]) + buffer[end..], None, chunks)
  {
    hide FindHeadEnd, IsInterim, CloseHead;
  }

  lemma NoEndInNothing()
    ensures FindHeadEnd("", 0) == None
  {
  }

  lemma StatusLineIsThere(buffer: string, end: nat)
    requires end <= |buffer| && IsInterim(buffer[..end]).Ok?
    ensures HeadText(buffer[..end]) != []
  {
    hide TrimAscii, IndexOf;
    var head := buffer[..end];
    assert IndexOf(head, '\n') >= 12;
  }

  // ----- No split changes what the client receives -----

  /** No head is longer than a reader of single bytes would wait for. */
  predicate HeadsFit(s: string)
    decreases |s|
  {
    var end := FindHeadEnd(s, 0);
    if end.None? then |s| <= RESPONSE_HEAD_LIMIT
    else
      end.value <= RESPONSE_HEAD_LIMIT + 1
      && (IsInterim(s[..end.value]) == Ok(true) ==> HeadsFit(s[end.value..]))
  }

  lemma RespondStep(s: string, end: nat)
    requires FindHeadEnd(s, 0) == Some(end)
    ensures var interim := IsInterim(s[..end]);
      Respond(s) == if interim.Err? then Err(interim.error)
                    else if !interim.value then Ok(CloseHead(s[..end]) + s[end..])
                    else if Respond(s[end..]).Err? then Respond(s[end..])
                    else Ok(s[..end] + Respond(s[end..]).value)
  {
    hide FindHeadEnd, IsInterim, CloseHead;
    assert "" + CloseHead(s[..end]) == CloseHead(s[..end]);
    if IsInterim(s[..end]) == Ok(true) && Parse(s[end..]).Ok? {
      var r := Parse(s[end..]).value;
      Regroup(s[..end], r.interim, CloseHead(r.final));
      Regroup(s[..end], r.interim + CloseHead(r.final), r.body);
    }
  }

  lemma NoEndNoResponse(s: string)
    requires FindHeadEnd(s, 0).None?
    ensures Respond(s) == Err(EndedInHead)
  {
  }

  ghost predicate Explains(run: Outcome, s: string) {
    match run.fault
    case None => Respond(s) == Ok(run.sent + Input(run.rest))
    case Some(TooLarge) => !HeadsFit(s) && run.sent <= s
    case Some(f) => Respond(s) == Err(f) && run.sent <= s
  }

  /** Success sends what the whole input alone decides, and so does every failure but an overlong head. */
  lemma {:induction false} SplitsDoNotMatter(buffer: string, chunks: seq<string>)
    ensures Explains(Drive(buffer, chunks), buffer + Input(chunks))
    decreases |chunks|, |buffer|
  {
    hide FindHeadEnd, IsInterim, CloseHead, Drive, Respond, HeadsFit;
    var all := buffer + Input(chunks);
    if FindHeadEnd(buffer, 0).None? {
      DriveReads(buffer, chunks);
      if |buffer| > RESPONSE_HEAD_LIMIT {
        LongHead(buffer, Input(chunks));
      } else if chunks == [] || chunks[0] == "" {
        assert all == buffer;
        NoEndNoResponse(buffer);
      } else {
        Regroup(buffer, chunks[0], Input(chunks[1..]));
        SplitsDoNotMatter(buffer + chunks[0], chunks[1..]);
      }
    } else {
      var end := FindHeadEnd(buffer, 0).value;
      DriveSends(buffer, chunks);
      MoreInputKeepsEnd(buffer, Input(chunks));
      CutJoined(buffer, Input(chunks), end);
      RespondStep(all, end);
      if IsInterim(buffer[..end]) == Ok(true) {
        SplitsDoNotMatter(buffer[end..], chunks);
        InterimStep(buffer[..end], Drive(buffer[end..], chunks), all);
      } else if IsInterim(buffer[..end]) == Ok(false) {
        Regroup(CloseHead(buffer[..end]), buffer[end..], Input(chunks));
      } else {
        InterimFault(buffer[..end]);
      }
    }
  }

  lemma InterimFault(head: string)
    ensures IsInterim(head).Err? ==> IsInterim(head).error == BadStatus
  {
  }

  lemma CutJoined(a: string, b: string, end: nat)
    requires end <= |a|
    ensures (a + b)[..end] == a[..end] && (a + b)[end..] == a[end..] + b
  {
  }

  lemma InterimStep(head: string, more: Outcome, all: string)
    requires FindHeadEnd(all, 0) == Some(|head|) && head == all[..|head|] && IsInterim(head) == Ok(true)
    requires Explains(more, all[|head|..])
    ensures Explains(more.(sent := head + more.sent), all)
  {
    hide FindHeadEnd, IsInterim, CloseHead, Respond;
    RespondStep(all, |head|);
    Regroup(head, more.sent, Input(more.rest));
    assert all == head + all[|head|..];
  }

  lemma LongHead(buffer: string, more: string)
    requires FindHeadEnd(buffer, 0).None? && |buffer| > RESPONSE_HEAD_LIMIT
    ensures !HeadsFit(buffer + more)
  {
    var all := buffer + more;
    var end := FindHeadEnd(all, 0);
    if end.Some? {
      FirstHeadEnd(all, end.value);
      if end.value <= |buffer| {
        assert EndsHead(buffer, end.value);
        assert forall k :: 0 <= k < end.value ==> EndsHead(buffer, k) == EndsHead(all, k);
        FirstHeadEnd(buffer, end.value);
      }
    }
  }

  // ----- When a head is too large -----

  function SingleBytes(s: string): (chunks: seq<string>)
    ensures Input(chunks) == s
  {
    if s == "" then [] else [[s[0]]] + SingleBytes(s[1..])
  }

  lemma {:induction false} SingleBytesOverflow(buffer: string, rest: string)
    requires FindHeadEnd(buffer, 0).None? || FindHeadEnd(buffer, 0) == Some(|buffer|)
    requires |buffer| <= RESPONSE_HEAD_LIMIT + 1 && !HeadsFit(buffer + rest)
    ensures Drive(buffer, SingleBytes(rest)).fault == Some(TooLarge)
    decreases |rest|, |buffer|
  {
    hide FindHeadEnd, IsInterim, Drive, CloseHead, HeadsFit;
    if FindHeadEnd(buffer, 0).None? {
      DriveReads(buffer, SingleBytes(rest));
      if |buffer| <= RESPONSE_HEAD_LIMIT {
        if rest == "" {
          assert buffer + rest == buffer;
          ShortFits(buffer);
        } else {
          OneMoreByte(buffer, rest[0]);
          assert buffer + rest == buffer + [rest[0]] + rest[1..];
          SingleBytesOverflow(buffer + [rest[0]], rest[1..]);
        }
      }
    } else {
      DriveSends(buffer, SingleBytes(rest));
      MoreInputKeepsEnd(buffer, rest);
      assert (buffer + rest)[..|buffer|] == buffer == buffer[..|buffer|] && (buffer + rest)[|buffer|..] == rest == buffer[|buffer|..] + rest;
      UnfitRest(buffer + rest, |buffer|);
      NoEndInNothing();
      SingleBytesOverflow("", rest);
    }
  }

  lemma UnfitRest(s: string, end: nat)
    requires FindHeadEnd(s, 0) == Some(end) && end <= RESPONSE_HEAD_LIMIT + 1 && !HeadsFit(s)
    ensures IsInterim(s[..end]) == Ok(true) && !HeadsFit(s[end..])
  {
  }

  lemma ShortFits(s: string)
    requires FindHeadEnd(s, 0).None? && |s| <= RESPONSE_HEAD_LIMIT
    ensures HeadsFit(s)
  {
  }

  lemma OneMoreByte(s: string, c: char)
    requires FindHeadEnd(s, 0).None?
    ensures FindHeadEnd(s + [c], 0).None? || FindHeadEnd(s + [c], 0) == Some(|s| + 1)
  {
    var end := FindHeadEnd(s + [c], 0);
    if end.Some? && end.value <= |s| {
      FirstHeadEnd(s + [c], end.value);
      assert EndsHead(s, end.value);
      assert forall k :: 0 <= k < end.value ==> EndsHead(s, k) == EndsHead(s + [c], k);
      FirstHeadEnd(s, end.value);
    }
  }

  /** An input is refused as too large under some split exactly when one of its heads does not fit. */
  lemma TooLargeExactly(s: string)
    ensures HeadsFit(s) <==> forall chunks :: Input(chunks) == s ==> Drive("", chunks).fault != Some(TooLarge)
  {
    hide HeadsFit, Drive, FindHeadEnd;
    NoEndInNothing();
    assert "" + s == s;
    if HeadsFit(s) {
      forall chunks | Input(chunks) == s ensures Drive("", chunks).fault != Some(TooLarge) {
        SplitsDoNotMatter("", chunks);
      }
    } else {
      SingleBytesOverflow("", s);
      assert Input(SingleBytes(s)) == s;
    }
  }

  /** What follows the last interim head is a head that ends, or is no longer than the limit. */
  predicate TailFits(s: string)
    decreases |s|
  {
    var end := FindHeadEnd(s, 0);
    if end.None? then |s| <= RESPONSE_HEAD_LIMIT
    else IsInterim(s[..end.value]) == Ok(true) ==> TailFits(s[end.value..])
  }

  lemma TailStep(s: string, end: nat)
    requires FindHeadEnd(s, 0) == Some(end)
    ensures TailFits(s) <==> (IsInterim(s[..end]) == Ok(true) ==> TailFits(s[end..]))
  {
    hide FindHeadEnd, IsInterim;
  }

  lemma TailAlone(s: string)
    requires FindHeadEnd(s, 0).None?
    ensures TailFits(s) <==> |s| <= RESPONSE_HEAD_LIMIT
  {
  }

  lemma {:induction false} LongTailIsRefused(buffer: string, chunks: seq<string>)
    requires !TailFits(buffer + Input(chunks))
    ensures Drive(buffer, chunks).fault == Some(TooLarge)
    decreases |chunks|, |buffer|
  {
    hide FindHeadEnd, IsInterim, CloseHead, Drive, TailFits;
    var all := buffer + Input(chunks);
    if FindHeadEnd(buffer, 0).None? {
      DriveReads(buffer, chunks);
      if |buffer| <= RESPONSE_HEAD_LIMIT {
        if chunks == [] || chunks[0] == "" {
          assert all == buffer;
          TailAlone(buffer);
        } else {
          Regroup(buffer, chunks[0], Input(chunks[1..]));
          LongTailIsRefused(buffer + chunks[0], chunks[1..]);
        }
      }
    } else {
      var end := FindHeadEnd(buffer, 0).value;
      DriveSends(buffer, chunks);
      MoreInputKeepsEnd(buffer, Input(chunks));
      CutJoined(buffer, Input(chunks), end);
      TailStep(all, end);
      LongTailIsRefused(buffer[end..], chunks);
    }
  }

  lemma {:induction false} WholeInputFits(s: string)
    requires TailFits(s)
    ensures Drive(s, []).fault != Some(TooLarge)
    decreases |s|
  {
    hide FindHeadEnd, IsInterim, CloseHead, Drive, TailFits;
    if FindHeadEnd(s, 0).None? {
      TailAlone(s);
      DriveReads(s, []);
    } else {
      var end := FindHeadEnd(s, 0).value;
      TailStep(s, end);
      DriveSends(s, []);
      InterimFault(s[..end]);
      if IsInterim(s[..end]) == Ok(true) {
        WholeInputFits(s[end..]);
      }
    }
  }

  function InOneChunk(s: string): (chunks: seq<string>)
    ensures Input(chunks) == s
  {
    if s == "" then [] else [s]
  }

  /** Some split of an input is not refused as too large exactly if what it leaves unended is short enough. */
  lemma SomeSplitFitsExactly(s: string)
    ensures TailFits(s) <==> exists chunks :: Input(chunks) == s && Drive("", chunks).fault != Some(TooLarge)
  {
    hide FindHeadEnd, Drive, TailFits;
    assert "" + s == s;
    if TailFits(s) {
      WholeInputFits(s);
      NoEndInNothing();
      DriveReads("", InOneChunk(s));
      assert [s][1..] == [];
      assert Drive("", InOneChunk(s)).fault != Some(TooLarge);
    } else {
      forall chunks | Input(chunks) == s ensures Drive("", chunks).fault == Some(TooLarge) {
        LongTailIsRefused("", chunks);
      }
    }
  }

  /** The refusal depends on the split exactly for inputs with a head over the limit that ends after all. */
  lemma SplitDecidesExactly(s: string)
    ensures (exists a, b :: Input(a) == s && Input(b) == s && Drive("", a).fault == Some(TooLarge) && Drive("", b).fault != Some(TooLarge))
       <==> !HeadsFit(s) && TailFits(s)
  {
    hide Input, Drive, HeadsFit, TailFits;
    TooLargeExactly(s);
    SomeSplitFitsExactly(s);
  }

  // ----- What the client reads back -----

  predicate PlainLine(line: string) { line != "" && '\n' !in line }

  lemma {:induction false} SplitHasNoSeparator(s: string, c: char)
    ensures forall part :: part in Split(s, c) ==> c !in part
    decreases |s|
  {
    var i := IndexOf(s, c);
    if i < |s| {
      SplitHasNoSeparator(s[i + 1..], c);
    }
  }

  lemma {:induction false} StrippedArePlain(parts: seq<string>)
    requires forall part :: part in parts ==> '\n' !in part
    ensures forall i :: 0 <= i < |Stripped(parts)| ==> PlainLine(Stripped(parts)[i])
  {
    if parts != [] {
      StrippedArePlain(parts[1..]);
      assert parts[0] in parts;
      assert forall c :: c in StripCr(parts[0]) ==> c in parts[0];
    }
  }

  lemma {:induction false} KeptComeFromLines(lines: seq<string>, options: seq<string>)
    ensures forall l :: l in KeptOf(lines, options) ==> l in lines
  {
    hide KeepsLast;
    if lines != [] {
      KeptComeFromLines(lines[..|lines| - 1], options);
    }
  }

  lemma ClosedArePlain(head: string)
    ensures forall i :: 0 <= i < |ClosedLines(HeadText(head))| ==> PlainLine(ClosedLines(HeadText(head))[i])
  {
    hide Split, Stripped, KeptOf, ConnectionOptions;
    SplitHasNoSeparator(head, '\n');
    StrippedArePlain(Split(head, '\n'));
    var lines := HeadText(head);
    if lines != [] {
      KeptComeFromLines(lines[1..], ConnectionOptions(lines[1..]));
      forall l | l in KeptOf(lines[1..], ConnectionOptions(lines[1..])) ensures PlainLine(l) {
        var i :| 0 <= i < |lines[1..]| && lines[1..][i] == l;
        assert lines[i + 1] == l;
      }
      assert PlainLine(CLOSE);
    }
  }

  /** The closed head read line by line: the status line, what is kept, and the close option. */
  lemma ClosedReadsBack(head: string)
    ensures ReadLines(CloseHead(head)) == ClosedLines(HeadText(head))
  {
    hide HeadText, ClosedLines, ReadLines, WriteLines;
    var lines := ClosedLines(HeadText(head));
    ClosedArePlain(head);
    FrontIsSame(lines, CRLF);
    LinesReadBack(lines);
  }

  lemma {:induction false} Shifted(a: string, b: string, k: nat)
    requires k <= |b|
    ensures FindHeadEnd(a + b, |a| + k) == if FindHeadEnd(b, k).None? then None else Some(|a| + FindHeadEnd(b, k).value)
    decreases |b| - k
  {
    if k < |b| {
      assert (a + b)[|a| + k] == b[k];
      assert k + 1 < |b| ==> (a + b)[|a| + k + 1] == b[k + 1];
      assert k + 2 < |b| ==> (a + b)[|a| + k + 2] == b[k + 2];
      Shifted(a, b, k + 1);
    }
  }

  lemma LineGoesOn(line: string, rest: string)
    requires PlainLine(line) && |rest| >= 1 && rest[0] != '\n' && (rest[0] == '\r' && |rest| >= 2 ==> rest[1] != '\n')
    ensures FindHeadEnd(line + CRLF + rest, 0)
         == if FindHeadEnd(rest, 0).None? then None else Some(|line| + 2 + FindHeadEnd(rest, 0).value)
  {
    hide FindHeadEnd, EndAt, PlainLine;
    NoEndInLine(line, rest);
    SkipNothing(line + CRLF + rest, 0, |line| + 2);
    Shifted(line + CRLF, rest, 0);
  }

  lemma NoEndInLine(line: string, rest: string)
    requires PlainLine(line) && |rest| >= 1 && rest[0] != '\n' && (rest[0] == '\r' && |rest| >= 2 ==> rest[1] != '\n')
    ensures forall i :: 0 <= i < |line| + 2 ==> EndAt(line + CRLF + rest, i).None?
  {
    var s := line + CRLF + rest;
    forall i | 0 <= i < |line| + 2 ensures EndAt(s, i).None? {
      if i < |line| {
        assert s[i] == line[i];
      } else if i == |line| + 1 {
        assert s[i + 1] == rest[0];
        assert i + 2 < |s| ==> s[i + 2] == rest[1];
      }
    }
  }

  lemma LineStops(line: string, tail: string)
    requires PlainLine(line)
    ensures FindHeadEnd(line + CRLF + (CRLF + tail), 0) == Some(|line| + 4)
  {
    hide FindHeadEnd;
    var s := line + CRLF + (CRLF + tail);
    forall i | 0 <= i < |line| + 1 ensures EndAt(s, i).None? {
      assert i < |line| ==> s[i] == line[i];
    }
    SkipNothing(s, 0, |line| + 1);
    assert EndAt(s, |line| + 1) == Some(|line| + 4);
    EndHere(s, |line| + 1);
  }

  lemma EndHere(s: string, i: nat)
    requires i < |s| && EndAt(s, i).Some?
    ensures FindHeadEnd(s, i) == EndAt(s, i)
  {
  }

  lemma {:induction false} WrittenEnds(lines: seq<string>, tail: string)
    requires lines != [] && forall i :: 0 <= i < |lines| ==> PlainLine(lines[i])
    ensures FindHeadEnd(WriteFront(lines, CRLF + tail), 0) == Some(|WriteFront(lines, CRLF)|)
    decreases |lines|
  {
    hide FindHeadEnd;
    if |lines| == 1 {
      assert lines[1..] == [];
      LineStops(lines[0], tail);
    } else {
      WrittenEnds(lines[1..], tail);
      var next := WriteFront(lines[1..], CRLF + tail);
      assert next[0] == lines[1][0];
      assert |lines[1]| > 1 ==> next[1] == lines[1][1];
      assert |lines[1]| == 1 ==> next[1] == '\r';
      LineGoesOn(lines[0], next);
    }
  }

  /** The closed head ends where the proxy ended it, whatever follows. */
  lemma ClosedHeadEnds(head: string, body: string)
    requires HeadText(head) != []
    ensures FindHeadEnd(CloseHead(head) + body, 0) == Some(|CloseHead(head)|)
  {
    hide HeadText, ClosedLines, FindHeadEnd, WriteLines, WriteFront;
    var lines := ClosedLines(HeadText(head));
    ClosedArePlain(head);
    ClosedNotEmpty(HeadText(head));
    FrontIsSame(lines, CRLF);
    FrontIsSame(lines, CRLF + body);
    assert WriteLines(lines) + (CRLF + body) == CloseHead(head) + body;
    WrittenEnds(lines, body);
  }

  lemma ClosedNotEmpty(lines: seq<string>)
    requires lines != []
    ensures ClosedLines(lines) != []
  {
  }

  /** The status survives. */
  lemma ClosedStatus(head: string)
    requires IsInterim(head).Ok?
    ensures HeadText(head) != [] && IsInterim(CloseHead(head)) == IsInterim(head)
  {
    hide TrimAscii, IndexOf, KeptOf, ConnectionOptions, WriteLines, Split;
    StatusLineIsThere(head, |head|);
    assert head[..|head|] == head;
    var lines := ClosedLines(HeadText(head));
    var first := FirstLine(head);
    FrontIsSame(lines, CRLF);
    SameStatus(head, CloseHead(head));
  }

  lemma FirstLine(head: string) returns (first: string)
    requires IsInterim(head).Ok?
    ensures HeadText(head) != [] && HeadText(head)[0] == first
    ensures |first| >= 12 && first[..12] == head[..12]
  {
    hide TrimAscii, IndexOf;
    var i := IndexOf(head, '\n');
    assert i >= 12;
    first := StripCr(head[..i]);
  }

  lemma SameStatus(a: string, b: string)
    requires |a| >= 12 && |b| >= 12 && a[..12] == b[..12]
    ensures IsInterim(a) == IsInterim(b)
  {
    assert forall i :: 0 <= i < 12 ==> a[..12][i] == a[i] && b[..12][i] == b[i];
    assert a[..5] == a[..12][..5] && b[..5] == b[..12][..5];
    assert a[9..12] == a[..12][9..12] && b[9..12] == b[..12][9..12];
  }

  /** The client finds the origin's interim heads and body, and the closed final head, in what it receives. */
  lemma {:induction false} ClientReadsBack(s: string)
    requires Parse(s).Ok?
    ensures Parse(Respond(s).value) == Ok(Parse(s).value.(final := CloseHead(Parse(s).value.final)))
    decreases |s|
  {
    hide FindHeadEnd, IsInterim, CloseHead, HeadText;
    var r := Parse(s).value;
    var end := FindHeadEnd(s, 0).value;
    var head := s[..end];
    RespondStep(s, end);
    if IsInterim(head) == Ok(true) {
      ClientReadsBack(s[end..]);
      HeadAlone(s, end);
      MoreInputKeepsEnd(head, Respond(s[end..]).value);
      ParseInterim(head, Respond(s[end..]).value);
    } else {
      ClosedStatus(head);
      ClosedHeadEnds(head, s[end..]);
      ParseFinal(CloseHead(head), s[end..]);
    }
  }

  lemma HeadAlone(s: string, end: nat)
    requires FindHeadEnd(s, 0) == Some(end)
    ensures FindHeadEnd(s[..end], 0) == Some(end)
  {
    FirstHeadEnd(s, end);
    assert forall k :: 0 <= k <= end ==> EndsHead(s[..end], k) == EndsHead(s, k);
    FirstHeadEnd(s[..end], end);
  }

  lemma ParseInterim(head: string, rest: string)
    requires FindHeadEnd(head + rest, 0) == Some(|head|) && IsInterim(head) == Ok(true) && Parse(rest).Ok?
    ensures Parse(head + rest) == Ok(Parse(rest).value.(interim := head + Parse(rest).value.interim))
  {
    hide FindHeadEnd, IsInterim;
    CutJoined(head, rest, |head|);
    assert head[..|head|] == head && head[|head|..] + rest == rest;
  }

  lemma ParseFinal(head: string, body: string)
    requires FindHeadEnd(head + body, 0) == Some(|head|) && IsInterim(head) == Ok(false)
    ensures Parse(head + body) == Ok(Response("", head, body))
  {
    hide FindHeadEnd, IsInterim;
    CutJoined(head, body, |head|);
    assert head[..|head|] == head && head[|head|..] + body == body;
  }

  // ----- Which fields the client sees -----

  /** The name of the field the last line belongs to, its own or the one it continues. */
  function Owner(lines: seq<string>): Option<string> {
    if lines == [] then None
    else if Folded(lines[|lines| - 1]) then Owner(lines[..|lines| - 1])
    else LowerName(lines[|lines| - 1])
  }

  /** The lines of every field with a name, continuations included. */
  function Owned(lines: seq<string>, name: string): seq<string> {
    if lines == [] then []
    else Owned(lines[..|lines| - 1], name) + if Owner(lines) == Some(name) then [lines[|lines| - 1]] else []
  }

  lemma {:induction false} KeptByOwner(lines: seq<string>, options: seq<string>)
    ensures KeepsLast(lines, options) <==> Owner(lines).None? || !Dropped(options, Owner(lines).value)
  {
    hide Dropped, LowerName;
    if lines != [] {
      KeptByOwner(lines[..|lines| - 1], options);
    }
  }

  lemma {:induction false} OwnerIsKept(lines: seq<string>, options: seq<string>)
    ensures KeepsLast(lines, options) ==> Owner(KeptOf(lines, options)) == Owner(lines)
  {
    hide Dropped, LowerName;
    if lines != [] {
      OwnerIsKept(lines[..|lines| - 1], options);
      if KeepsLast(lines, options) {
        var before := KeptOf(lines[..|lines| - 1], options);
        assert (before + [lines[|lines| - 1]])[..|before|] == before;
      }
    }
  }

  lemma {:induction false} OwnedKept(lines: seq<string>, options: seq<string>, name: string)
    ensures Owned(KeptOf(lines, options), name) == if Dropped(options, name) then [] else Owned(lines, name)
  {
    hide Dropped, LowerName, Owner, KeepsLast;
    if lines != [] {
      OwnedKept(lines[..|lines| - 1], options, name);
      KeptByOwner(lines, options);
      OwnerIsKept(lines, options);
      if KeepsLast(lines, options) {
        var before := KeptOf(lines[..|lines| - 1], options);
        assert (before + [lines[|lines| - 1]])[..|before|] == before;
      } else {
        assert KeptOf(lines, options) == KeptOf(lines[..|lines| - 1], options);
      }
    }
  }

  lemma CloseOwned(lines: seq<string>, name: string)
    ensures Owned(lines + [CLOSE], name) == Owned(lines, name) + if name == "connection" then [CLOSE] else []
  {
    hide IndexOf;
    CloseParts();
    assert (lines + [CLOSE])[..|lines|] == lines;
    assert Lower("Connection") == "connection";
  }

  /**
   The client sees the origin's status line, every line of every field that is
   not dropped, none of one that is, and one close option.
   */
  lemma ClosedFields(head: string, name: string)
    requires HeadText(head) != []
    ensures var lines := HeadText(head);
      ReadLines(CloseHead(head)) != [] && ReadLines(CloseHead(head))[0] == lines[0]
      && Owned(FieldLines(CloseHead(head)), name)
         == (if Dropped(ConnectionOptions(lines[1..]), name) then [] else Owned(lines[1..], name))
          + (if name == "connection" then [CLOSE] else [])
  {
    hide HeadText, ReadLines, CloseHead, Owned, KeptOf, ConnectionOptions, Dropped;
    var lines := HeadText(head);
    var options := ConnectionOptions(lines[1..]);
    ClosedReadsBack(head);
    OwnedKept(lines[1..], options, name);
    CloseOwned(KeptOf(lines[1..], options), name);
    assert ClosedLines(lines)[1..] == KeptOf(lines[1..], options) + [CLOSE];
  }

  // ----- Options on folded lines -----

  /** The options a Connection field names on folded lines, which the code does not look at. */
  function ContinuedOptions(lines: seq<string>): seq<string> {
    if lines == [] then []
    else
      var last := lines[|lines| - 1];
      ContinuedOptions(lines[..|lines| - 1])
      + if Folded(last) && Owner(lines) == Some("connection") then LowerOptions(Split(last, ',')) else []
  }

  predicate FramesBody(name: string) { name == "content-length" || name == "transfer-encoding" }

  /** A header a Connection field names, on its first line or a folded one, framing headers and itself apart. */
  predicate NamedByConnection(lines: seq<string>, name: string) {
    (name in ConnectionOptions(lines) || name in ContinuedOptions(lines)) && !FramesBody(name) && name != "connection"
  }

  /**
   Every header the origin's Connection fields name is gone exactly if the head
   has no line of one that only a folded line names; such a header reaches the
   client whole.
   */
  lemma NamedAreDroppedExactly(head: string)
    requires HeadText(head) != []
    ensures var lines := HeadText(head)[1..];
      (forall name :: NamedByConnection(lines, name) ==> Owned(FieldLines(CloseHead(head)), name) == []) <==>
      (forall name :: NamedOnlyFolded(lines, name) ==> Owned(lines, name) == [])
    ensures var lines := HeadText(head)[1..];
      forall name :: NamedOnlyFolded(lines, name) ==> Owned(FieldLines(CloseHead(head)), name) == Owned(lines, name)
  {
    hide HeadText, CloseHead, Owned, FieldLines, NamedByConnection, NamedOnlyFolded, Dropped;
    var lines := HeadText(head)[1..];
    forall name | NamedByConnection(lines, name)
      ensures Owned(FieldLines(CloseHead(head)), name) == if NamedOnlyFolded(lines, name) then Owned(lines, name) else []
    {
      NamedEitherWay(lines, name);
      ClosedFields(head, name);
    }
    forall name | NamedOnlyFolded(lines, name) ensures NamedByConnection(lines, name) {
      FoldedIsNamed(lines, name);
    }
  }

  /** A header only a folded line names. */
  predicate NamedOnlyFolded(lines: seq<string>, name: string) {
    name in ContinuedOptions(lines) && !FramesBody(name) && !Dropped(ConnectionOptions(lines), name)
  }

  lemma NamedEitherWay(lines: seq<string>, name: string)
    requires NamedByConnection(lines, name)
    ensures name != "connection" && (NamedOnlyFolded(lines, name) <==> !Dropped(ConnectionOptions(lines), name))
  {
  }

  lemma FoldedIsNamed(lines: seq<string>, name: string)
    requires NamedOnlyFolded(lines, name)
    ensures NamedByConnection(lines, name)
  {
  }

  /** No Connection field goes on over a folded line. */
  predicate NoneContinued(lines: seq<string>) {
    lines == []
    || (NoneContinued(lines[..|lines| - 1]) && !(Folded(lines[|lines| - 1]) && Owner(lines) == Some("connection")))
  }

  lemma {:induction false} NothingContinued(lines: seq<string>)
    requires NoneContinued(lines)
    ensures ContinuedOptions(lines) == []
  {
    hide Owner, Folded, LowerOptions;
    if lines != [] {
      NothingContinued(lines[..|lines| - 1]);
    }
  }

  /** So a head whose Connection fields are not folded loses every header they name. */
  lemma UnfoldedNamedAreDropped(head: string, name: string)
    requires HeadText(head) != [] && NoneContinued(HeadText(head)[1..]) && NamedByConnection(HeadText(head)[1..], name)
    ensures Owned(FieldLines(CloseHead(head)), name) == []
  {
    hide HeadText, CloseHead, Owned, FieldLines, ConnectionOptions, ContinuedOptions;
    NothingContinued(HeadText(head)[1..]);
    ClosedFields(head, name);
  }

  // ----- A header that only a folded line names -----

  predicate PlainWord(s: string) {
    s != "" && Lower(s) == s && forall i :: 0 <= i < |s| ==> s[i] != ',' && s[i] != ':' && !IsAsciiBlank(s[i])
  }

  lemma OneOption(word: string)
    requires PlainWord(word)
    ensures LowerOptions(Split(" " + word, ',')) == [word]
  {
    var s := " " + word;
    assert forall i :: 0 < i < |s| ==> s[i] == word[i - 1];
    assert IndexOf(s, ',') == |s|;
    assert Split(s, ',') == [s];
    assert s[1..] == word && s[0] == ' ';
    assert TrimAsciiEnd(word) == word;
    assert TrimAscii(word) == word;
    assert TrimAscii(s) == word;
  }

  lemma CloseLine()
    ensures LowerName(CLOSE) == Some("connection") && !Folded(CLOSE) && CLOSE[11..] == " " + "close" && |CLOSE| == 17
  {
    hide IndexOf;
    CloseParts();
    assert Lower("Connection") == "connection";
  }

  lemma CloseIsPlain()
    ensures PlainWord("close")
  {
    assert Lower("close") == "close";
  }

  lemma NamesField(word: string)
    requires PlainWord(word)
    ensures LowerName(word + ":" + " 1") == Some(word) && !Folded(word + ":" + " 1") && LowerName(" " + word) == None && Folded(" " + word)
  {
    hide IndexOf;
    SplitAt(word, ':', " 1");
    assert word + ":" + " 1" == word + [':'] + " 1";
    var s := " " + word;
    assert forall i :: 0 < i < |s| ==> s[i] == word[i - 1];
    assert (word + ":" + " 1")[0] == word[0];
  }

  lemma OneMoreOwned(lines: seq<string>, l: string, name: string)
    ensures Owner(lines + [l]) == if Folded(l) then Owner(lines) else LowerName(l)
    ensures Owned(lines + [l], name) == Owned(lines, name) + if Owner(lines + [l]) == Some(name) then [l] else []
  {
    hide Folded, LowerName;
    assert (lines + [l])[..|lines|] == lines;
  }

  lemma OneMoreOptions(lines: seq<string>, l: string)
    ensures ConnectionOptions(lines + [l]) == ConnectionOptions(lines)
         + if LowerName(l) == Some("connection") && |l| >= 11 then LowerOptions(Split(l[11..], ',')) else []
    ensures ContinuedOptions(lines + [l]) == ContinuedOptions(lines)
         + if Folded(l) && Owner(lines + [l]) == Some("connection") then LowerOptions(Split(l, ',')) else []
  {
    hide Folded, LowerName, LowerOptions, Split, Owner;
    assert (lines + [l])[..|lines|] == lines;
  }

  lemma NoLines(name: string)
    ensures Owner([]) == None && Owned([], name) == [] && ConnectionOptions([]) == [] && ContinuedOptions([]) == []
  {
  }

  /** Of these three header lines, only the folded second one names the third. */
  lemma FoldedLines(word: string)
    requires PlainWord(word) && !FramesBody(word) && !Dropped(["close"], word)
    ensures var lines := [CLOSE, " " + word, word + ":" + " 1"];
      && NamedOnlyFolded(lines, word) && Owned(lines, word) == [word + ":" + " 1"]
  {
    hide LowerName, Folded, LowerOptions, Split, PlainWord, Owner, Owned, ConnectionOptions, ContinuedOptions;
    var fold, field := " " + word, word + ":" + " 1";
    CloseLine();
    CloseIsPlain();
    NamesField(word);
    OneOption("close");
    OneOption(word);
    NoLines(word);
    OneMoreOwned([], CLOSE, word);
    OneMoreOptions([], CLOSE);
    OneMoreOwned([CLOSE], fold, word);
    OneMoreOptions([CLOSE], fold);
    OneMoreOwned([CLOSE, fold], field, word);
    OneMoreOptions([CLOSE, fold], field);
    assert [] + [CLOSE] == [CLOSE] && [CLOSE] + [fold] == [CLOSE, fold] && [CLOSE, fold] + [field] == [CLOSE, fold, field];
    assert word != "connection";
  }

  lemma {:induction false} WrittenText(lines: seq<string>)
    requires forall i :: 0 <= i < |lines| ==> PlainLine(lines[i])
    ensures HeadText(WriteFront(lines, CRLF)) == lines
    decreases |lines|
  {
    hide Split;
    if lines == [] {
      OnePart("", "");
      assert "" + CRLF + "" == CRLF;
      NoParts();
      assert ["\r"] + [""] == ["\r", ""] && ["\r", ""][1..] == [""] && [""][1..] == [];
    } else {
      var rest := WriteFront(lines[1..], CRLF);
      OnePart(lines[0], rest);
      WrittenText(lines[1..]);
      assert ([lines[0] + "\r"] + Split(rest, '\n'))[1..] == Split(rest, '\n');
      assert StripCr(lines[0] + "\r") == lines[0];
    }
  }

  lemma OnePart(l: string, rest: string)
    requires '\n' !in l
    ensures Split(l + CRLF + rest, '\n') == [l + "\r"] + Split(rest, '\n')
  {
    var s := l + CRLF + rest;
    FirstIndex(s, '\n', |l| + 1);
    assert s[..|l| + 1] == l + "\r" && s[|l| + 2..] == rest;
  }

  lemma NoParts()
    ensures Split("", '\n') == [""]
  {
  }

  const STATUS := "HTTP/1.1 200 OK"

  lemma WrittenStatus(rest: string)
    ensures IsInterim(STATUS + rest) == Ok(false)
  {
    var head := STATUS + rest;
    assert head[..5] == STATUS[..5] == "HTTP/";
    assert head[9] == '2';
  }

  /**
   A final head, ended where the code ends it, whose Connection field names a
   header on a folded line only: the client still gets that header.
   */
  lemma FoldedOptionSurvives(word: string)
    requires PlainWord(word) && !FramesBody(word) && !Dropped(["close"], word)
    ensures var field := word + ":" + " 1";
      var head := WriteFront([STATUS, CLOSE, " " + word, field], CRLF);
      && FindHeadEnd(head, 0) == Some(|head|) && IsInterim(head) == Ok(false)
      && HeadText(head) == [STATUS, CLOSE, " " + word, field] && NamedByConnection(HeadText(head)[1..], word)
      && Owned(FieldLines(CloseHead(head)), word) == [field]
  {
    hide *;
    var field := word + ":" + " 1";
    var lines := [STATUS, CLOSE, " " + word, field];
    var head := WriteFront(lines, CRLF);
    FoldedArePlain(word);
    WrittenText(lines);
    WrittenEnds(lines, "");
    assert CRLF + "" == CRLF;
    HeadStarts(lines);
    FoldedLines(word);
    assert lines[1..] == [CLOSE, " " + word, field];
    FoldedIsNamed(lines[1..], word);
    NamedAreDroppedExactly(head);
  }

  lemma FoldedArePlain(word: string)
    requires PlainWord(word)
    ensures var lines := [STATUS, CLOSE, " " + word, word + ":" + " 1"];
      forall i :: 0 <= i < |lines| ==> PlainLine(lines[i])
  {
    assert '\n' !in word;
    assert '\n' !in STATUS && '\n' !in CLOSE && '\n' !in " " && '\n' !in ":" && '\n' !in " 1";
  }

  lemma HeadStarts(lines: seq<string>)
    requires lines != [] && lines[0] == STATUS
    ensures IsInterim(WriteFront(lines, CRLF)) == Ok(false)
  {
    hide IsInterim;
    var rest := WriteFront(lines[1..], CRLF);
    Regroup(STATUS, CRLF, rest);
    WrittenStatus(CRLF + rest);
  }

  // ----- The same laws with names and forms written out -----

  /** Which fields of a final head go through to the client. */
  predicate GoesThrough(options: seq<string>, name: Option<string>) {
    name == None
    || (name.value !in ["connection", "keep-alive", "proxy-connection"]
        && (name.value in ["content-length", "transfer-encoding"] || name.value !in options))
  }

  /** The lines that go through, each with the field it belongs to, in order. */
  function LinesThrough(lines: seq<string>, options: seq<string>): seq<string> {
    if lines == [] then []
    else LinesThrough(lines[..|lines| - 1], options) + if GoesThrough(options, Owner(lines)) then [lines[|lines| - 1]] else []
  }

  lemma {:induction false} KeptGoThrough(lines: seq<string>, options: seq<string>)
    ensures KeptOf(lines, options) == LinesThrough(lines, options)
  {
    hide KeepsLast, Owner;
    if lines != [] {
      KeptGoThrough(lines[..|lines| - 1], options);
      KeptByOwner(lines, options);
    }
  }

  /** The client's header: the origin's status line, the lines that go through, in order, and the closing line. */
  lemma ClosedInOrder(head: string)
    requires HeadText(head) != []
    ensures var lines := HeadText(head);
      ReadLines(CloseHead(head)) == [lines[0]] + LinesThrough(lines[1..], ConnectionOptions(lines[1..])) + ["Connection: close"]
  {
    hide HeadText, CloseHead, ReadLines, KeptOf, LinesThrough, ConnectionOptions;
    ClosedReadsBack(head);
    KeptGoThrough(HeadText(head)[1..], ConnectionOptions(HeadText(head)[1..]));
  }

  predicate Spaces(s: string) { forall i :: 0 <= i < |s| ==> s[i] in " \t\r\n\U{0C}" }

  predicate Bare(s: string) { s == "" || (s[0] !in " \t\r\n\U{0C}" && s[|s| - 1] !in " \t\r\n\U{0C}") }

  lemma {:induction false} TrimAsciiEndOf(s: string, spaces: string)
    requires Spaces(spaces) && (s == "" || s[|s| - 1] !in " \t\r\n\U{0C}")
    ensures TrimAsciiEnd(s + spaces) == s
  {
    var all := s + spaces;
    if spaces == "" {
      assert all == s;
    } else {
      assert all[|all| - 1] == spaces[|spaces| - 1] && all[..|all| - 1] == s + spaces[..|spaces| - 1];
      TrimAsciiEndOf(s, spaces[..|spaces| - 1]);
    }
  }

  lemma {:induction false} TrimAsciiOf(front: string, s: string, back: string)
    requires Spaces(front) && Spaces(back) && Bare(s)
    ensures TrimAscii(front + s + back) == s
  {
    var all := front + s + back;
    if front != "" {
      assert all[0] == front[0] && all[1..] == front[1..] + s + back;
      TrimAsciiOf(front[1..], s, back);
    } else if s != "" {
      assert all == s + back && all[0] == s[0];
      TrimAsciiEndOf(s, back);
    } else if back != "" {
      assert all == back && back[1..] == "" + "" + back[1..];
      TrimAsciiOf("", "", back[1..]);
    } else {
      assert all == "";
    }
  }

  /** A Connection line, in any case, with any blanks around its elements, names those elements in lower case. */
  lemma OptionsForm(name: string, words: seq<string>, fronts: seq<string>, backs: seq<string>)
    requires Lower(name) == "connection" && words != [] && |fronts| == |words| == |backs|
    requires forall i :: 0 <= i < |words| ==> Bare(words[i]) && ',' !in words[i] && Spaces(fronts[i]) && Spaces(backs[i])
    ensures var line := name + ":" + JoinWith(seq(|words|, i requires 0 <= i < |words| => fronts[i] + words[i] + backs[i]), ',');
      ConnectionOptions([line]) == seq(|words|, i requires 0 <= i < |words| => Lower(words[i]))
  {
    hide Split, TrimAscii, JoinWith, IndexOf;
    var parts := seq(|words|, i requires 0 <= i < |words| => fronts[i] + words[i] + backs[i]);
    var list := JoinWith(parts, ',');
    var line := name + ":" + list;
    forall i | 0 <= i < |parts| ensures ',' !in parts[i] && TrimAscii(parts[i]) == words[i] {
      assert ',' !in fronts[i] && ',' !in backs[i];
      TrimAsciiOf(fronts[i], words[i], backs[i]);
    }
    SplitOfJoin(parts, ',');
    NoColonInName(name);
    SplitAt(name, ':', list);
    assert line == name + [':'] + list && line[11..] == list;
    OneMoreOptions([], line);
    NoLines("");
    assert [] + [line] == [line];
  }

  lemma NoColonInName(name: string)
    requires Lower(name) == "connection"
    ensures |name| == 10 && forall i :: 0 <= i < |name| ==> name[i] != ':'
  {
    var lower := Lower(name);
    assert |"connection"| == 10 && ':' !in "connection";
    assert forall i :: 0 <= i < |name| ==> lower[i] == LowerChar(name[i]) && lower[i] != ':';
  }

  /** The options of several lines are those of each, in order. */
  lemma {:induction false} OptionsInOrder(a: seq<string>, b: seq<string>)
    ensures ConnectionOptions(a + b) == ConnectionOptions(a) + ConnectionOptions(b)
  {
    hide LowerName, LowerOptions, Split;
    if b == [] {
      assert a + b == a;
    } else {
      OptionsInOrder(a, b[..|b| - 1]);
      assert (a + b)[..|a + b| - 1] == a + b[..|b| - 1];
    }
  }

  /** A line is named by what comes before its colon, in lower case; a line without one has no name. */
  lemma NameForm(name: string, rest: string, line: string)
    ensures ':' !in name ==> LowerName(name + ":" + rest) == Some(Lower(name))
    ensures ':' !in line ==> LowerName(line) == None
  {
    hide IndexOf;
    if ':' !in name {
      SplitAt(name, ':', rest);
      assert name + ":" + rest == name + [':'] + rest;
    }
    if ':' !in line {
      NoSeparator(line, ':');
    }
  }

  /** The lines of a head written with CRLF or with a bare LF, line by line. */
  function WriteMixed(lines: seq<string>, crs: seq<bool>): string
    requires |crs| == |lines|
  {
    if lines == [] then "" else lines[0] + (if crs[0] then "\r\n" else "\n") + WriteMixed(lines[1..], crs[1..])
  }

  lemma {:induction false} MixedText(lines: seq<string>, crs: seq<bool>)
    requires |crs| == |lines|
    requires forall i :: 0 <= i < |lines| ==> '\n' !in lines[i] && (lines[i] == "" || lines[i][|lines[i]| - 1] != '\r')
    ensures HeadText(WriteMixed(lines, crs)) == DropEmpty(lines)
    decreases |lines|
  {
    hide Split, WriteMixed, DropEmpty, HeadText;
    if lines == [] {
      NothingMixed();
    } else {
      var rest := WriteMixed(lines[1..], crs[1..]);
      var l := lines[0] + if crs[0] then "\r" else "";
      MixedStep(lines, crs);
      MixedText(lines[1..], crs[1..]);
      FirstPart(l, lines[0], rest);
      DropFirst(lines);
    }
  }

  lemma NothingMixed()
    ensures HeadText(WriteMixed([], [])) == [] && DropEmpty([]) == []
  {
    assert Stripped([""]) == [] + Stripped([""][1..]);
    NoParts();
  }

  lemma MixedStep(lines: seq<string>, crs: seq<bool>)
    requires |crs| == |lines| && lines != []
    ensures WriteMixed(lines, crs) == lines[0] + (if crs[0] then "\r" else "") + "\n" + WriteMixed(lines[1..], crs[1..])
  {
  }

  lemma FirstPart(l: string, stripped: string, rest: string)
    requires '\n' !in stripped && (stripped == "" || stripped[|stripped| - 1] != '\r') && (l == stripped || l == stripped + "\r")
    ensures HeadText(l + "\n" + rest) == (if stripped == "" then [] else [stripped]) + HeadText(rest)
  {
    hide Split;
    PartAtLf(l, rest);
    assert StripCr(l) == stripped;
    assert ([l] + Split(rest, '\n'))[1..] == Split(rest, '\n');
  }

  lemma DropFirst(lines: seq<string>)
    requires lines != []
    ensures DropEmpty(lines) == (if lines[0] == "" then [] else [lines[0]]) + DropEmpty(lines[1..])
  {
    DropEmptyConcat([lines[0]], lines[1..]);
    assert [lines[0]] + lines[1..] == lines;
    OneDropped(lines[0]);
  }

  lemma OneDropped(l: string)
    ensures DropEmpty([l]) == if l == "" then [] else [l]
  {
    assert [l][..0] == [];
  }

  lemma PartAtLf(l: string, rest: string)
    requires '\n' !in l
    ensures Split(l + "\n" + rest, '\n') == [l] + Split(rest, '\n')
  {
    var s := l + "\n" + rest;
    FirstIndex(s, '\n', |l|);
    assert s[..|l|] == l && s[|l| + 1..] == rest;
  }
}
