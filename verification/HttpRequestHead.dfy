/**
 Rewriting an absolute-form request for the origin (src/http_proxy.rs), and
 reading the result back by section 6.3 of RFC 9112. Texts are byte strings,
 one `char` a byte. URL parsing is a parameter.
 */
module HttpRequestHead {
  import opened Prelude
  import opened HttpBody

  datatype HeadError =
    | BadRequestLine | BadUrl | Folding | BadFieldName
    | BothFramings | TransferEncodingVersion | BadTransferEncoding | UnsupportedCoding | BadContentLength

  // ----- Text -----

  function LowerChar(c: char): char { if 'A' <= c <= 'Z' then c + 32 as char else c }

  function Lower(s: string): (t: string)
    ensures |t| == |s|
  {
    seq(|s|, i requires 0 <= i < |s| => LowerChar(s[i]))
  }

  predicate Same(a: string, b: string) { Lower(a) == Lower(b) }

  function TrimStart(s: string): string {
    if s != "" && IsBlank(s[0]) then TrimStart(s[1..]) else s
  }

  function Trim(s: string): string { TrimStart(TrimEnd(s)) }

  /** The parts between separators: always one more than there are separators. */
  function Split(s: string, c: char): (parts: seq<string>)
    ensures |parts| >= 1
  {
    var i := IndexOf(s, c);
    if i == |s| then [s] else [s[..i]] + Split(s[i + 1..], c)
  }

  function TrimAll(parts: seq<string>): (t: seq<string>)
    ensures |t| == |parts|
  {
    seq(|parts|, i requires 0 <= i < |parts| => Trim(parts[i]))
  }

  /** The comma-separated elements of a field value, empty ones included. */
  function Tokens(value: string): (t: seq<string>)
    ensures |t| >= 1
  {
    TrimAll(Split(value, ','))
  }

  predicate NoCrlf(s: string) { forall i :: 0 <= i < |s| - 1 ==> !(s[i] == '\r' && s[i + 1] == '\n') }

  predicate IsDecimal(s: string) { s != "" && AllDigits(s) }

  // ----- The source -----

  /** `Url::parse` with the scheme, host and port checks that follow it: the origin-form target, host and port. */
  datatype Target = Target(origin: string, host: string, port: nat)

  type UrlParser = string -> Option<Target>

  /** The URL library percent-encodes blanks and control bytes in a path or query. */
  ghost predicate EncodesBlanks(parse: UrlParser) {
    forall t: string :: parse(t).Some? ==>
      parse(t).value.origin != "" && forall i :: 0 <= i < |parse(t).value.origin| ==> parse(t).value.origin[i] > ' '
  }

  datatype RequestLine = RequestLine(verb: string, target: string, version: string)

  /** splitn(3, ' '): a missing version reads as HTTP/1.1. */
  function SplitRequestLine(line: string): Option<RequestLine> {
    var i := IndexOf(line, ' ');
    if i == |line| then None
    else
      var rest := line[i + 1..];
      var j := IndexOf(rest, ' ');
      Some(RequestLine(line[..i], rest[..j], if j == |rest| then "HTTP/1.1" else rest[j + 1..]))
  }

  datatype Field = Field(line: string, name: string, value: string)

  /** A header line: a field, nothing (no colon), or a refusal. */
  function ParseField(header: string): Result<Option<Field>, HeadError> {
    var colon := IndexOf(header, ':');
    if header != "" && IsBlank(header[0]) then Err(Folding)
    else if colon == |header| then Ok(None)
    else if colon == 0 || IsBlank(header[colon - 1]) then Err(BadFieldName)
    else Ok(Some(Field(header, header[..colon], Trim(header[colon + 1..]))))
  }

  function ParseFields(headers: seq<string>): Result<seq<Field>, HeadError> {
    if headers == [] then Ok([])
    else
      var before :- ParseFields(headers[..|headers| - 1]);
      var field :- ParseField(headers[|headers| - 1]);
      Ok(if field.Some? then before + [field.value] else before)
  }

  /** The elements of every field with a name, in order. */
  function Named(fields: seq<Field>, wanted: string): seq<string> {
    if fields == [] then []
    else
      var last := fields[|fields| - 1];
      Named(fields[..|fields| - 1], wanted) + if Same(last.name, wanted) then Tokens(last.value) else []
  }

  predicate Contains(list: seq<string>, wanted: string) {
    exists i :: 0 <= i < |list| && Same(list[i], wanted)
  }

  function CountSame(list: seq<string>, wanted: string): nat {
    if list == [] then 0
    else CountSame(list[..|list| - 1], wanted) + if Same(list[|list| - 1], wanted) then 1 else 0
  }

  function RequestFraming(version: string, contentLengths: seq<string>, codings: seq<string>): Result<BodyFraming, HeadError> {
    if codings != [] then
      if contentLengths != [] then Err(BothFramings)
      else if !Same(version, "HTTP/1.1") then Err(TransferEncodingVersion)
      else if "" in codings then Err(BadTransferEncoding)
      else if CountSame(codings, "chunked") != 1 || !Same(codings[|codings| - 1], "chunked") then Err(UnsupportedCoding)
      else Ok(Chunked)
    else if contentLengths == [] then Ok(Empty)
    else if !IsDecimal(contentLengths[0])
            || (exists i :: 0 <= i < |contentLengths| && contentLengths[i] != contentLengths[0]) then
      Err(BadContentLength)
    else if DecimalValue(contentLengths[0]) >= U64_LIMIT then Err(BadContentLength)
    else if DecimalValue(contentLengths[0]) == 0 then Ok(Empty)
    else Ok(Length(DecimalValue(contentLengths[0])))
  }

  predicate IsHopByHop(name: string, upgrade: bool) {
    Same(name, "connection") || Same(name, "keep-alive") || Same(name, "proxy-connection")
    || Same(name, "proxy-authorization") || Same(name, "te") || (!upgrade && Same(name, "upgrade"))
  }

  predicate IsFramingHeader(name: string) {
    Same(name, "host") || Same(name, "content-length") || Same(name, "transfer-encoding")
  }

  predicate Keeps(options: seq<string>, upgrade: bool, name: string) {
    !IsHopByHop(name, upgrade)
    && ((upgrade && Same(name, "upgrade")) || IsFramingHeader(name) || !Contains(options, name))
  }

  function KeptLines(fields: seq<Field>, options: seq<string>, upgrade: bool): seq<string> {
    if fields == [] then []
    else
      var last := fields[|fields| - 1];
      KeptLines(fields[..|fields| - 1], options, upgrade) + if Keeps(options, upgrade, last.name) then [last.line] else []
  }

  function WriteLines(lines: seq<string>): string {
    if lines == [] then "" else WriteLines(lines[..|lines| - 1]) + lines[|lines| - 1] + CRLF
  }

  predicate IsUpgrade(fields: seq<Field>, options: seq<string>) {
    Contains(options, "upgrade") && exists i :: 0 <= i < |fields| && Same(fields[i].name, "upgrade")
  }

  datatype Forwarded = Forwarded(head: string, framing: BodyFraming, upgrade: bool, host: string, port: nat)

  function HeadLines(r: RequestLine, origin: string, fields: seq<Field>): seq<string> {
    var options := Named(fields, "connection");
    var upgrade := IsUpgrade(fields, options);
    [r.verb + " " + origin + " " + r.version] + KeptLines(fields, options, upgrade)
    + [if upgrade then "Connection: Upgrade, close" else "Connection: close"]
  }

  function RewrittenHead(r: RequestLine, origin: string, fields: seq<Field>): string {
    WriteLines(HeadLines(r, origin, fields)) + CRLF
  }

  function Rewrite(line: string, headers: seq<string>, parse: UrlParser): Result<Forwarded, HeadError> {
    var request := SplitRequestLine(line);
    if request.None? then Err(BadRequestLine)
    else
      var r := request.value;
      var target := parse(r.target);
      if target.None? then Err(BadUrl)
      else
        var fields :- ParseFields(headers);
        var framing :- RequestFraming(r.version, Named(fields, "content-length"), Named(fields, "transfer-encoding"));
        Ok(Forwarded(RewrittenHead(r, target.value.origin, fields), framing,
                     IsUpgrade(fields, Named(fields, "connection")), target.value.host, target.value.port))
  }

  method CollectFields(headers: seq<string>) returns (r: Result<seq<Field>, HeadError>)
    ensures r == ParseFields(headers)
  {
    hide ParseField;
    var fields: seq<Field> := [];
    for i := 0 to |headers|
      invariant ParseFields(headers[..i]) == Ok(fields)
    {
      assert headers[..i + 1][..i] == headers[..i];
      var field := ParseField(headers[i]);
      if field.Err? {
        ParseFails(headers, i);
        return Err(field.error);
      }
      if field.value.Some? {
        fields := fields + [field.value.value];
      }
    }
    assert headers[..|headers|] == headers;
    return Ok(fields);
  }

  lemma KeptStep(fields: seq<Field>, i: nat, options: seq<string>, upgrade: bool)
    requires i < |fields|
    ensures KeptLines(fields[..i + 1], options, upgrade)
         == if Keeps(options, upgrade, fields[i].name) then KeptLines(fields[..i], options, upgrade) + [fields[i].line]
            else KeptLines(fields[..i], options, upgrade)
  {
    assert fields[..i + 1][..i] == fields[..i];
  }

  lemma KeptNothing(options: seq<string>, upgrade: bool)
    ensures KeptLines([], options, upgrade) == [] && WriteLines([]) == ""
  {
  }

  method FillHead(request: RequestLine, origin: string, fields: seq<Field>) returns (head: string)
    ensures head == RewrittenHead(request, origin, fields)
  {
    hide Keeps, IsUpgrade, KeptLines, WriteLines, Named;
    KeptNothing([], false);
    var options := Named(fields, "connection");
    var upgrade := IsUpgrade(fields, options);
    var first := request.verb + " " + origin + " " + request.version;
    head := first + CRLF;
    WriteSnoc([], first);
    KeptNothing(options, upgrade);
    assert [] + [first] == [first] == [first] + KeptLines(fields[..0], options, upgrade);
    for i := 0 to |fields|
      invariant head == WriteLines([first] + KeptLines(fields[..i], options, upgrade))
    {
      KeptStep(fields, i, options, upgrade);
      ghost var kept := [first] + KeptLines(fields[..i], options, upgrade);
      if Keeps(options, upgrade, fields[i].name) {
        head := head + fields[i].line;
        head := head + CRLF;
        WriteSnoc(kept, fields[i].line);
        assert kept + [fields[i].line] == [first] + KeptLines(fields[..i + 1], options, upgrade);
      }
    }
    assert fields[..|fields|] == fields;
    var last := if upgrade then "Connection: Upgrade, close" else "Connection: close";
    WriteSnoc([first] + KeptLines(fields, options, upgrade), last);
    head := head + last + CRLF + CRLF;
  }

  /** The source's two loops: collect the fields, then fill the head. */
  method RewriteAbsoluteRequest(line: string, headers: seq<string>, parse: UrlParser) returns (r: Result<Forwarded, HeadError>)
    ensures r == Rewrite(line, headers, parse)
  {
    hide ParseFields, RewrittenHead, RequestFraming, Named, IsUpgrade;
    var request := SplitRequestLine(line);
    if request.None? {
      return Err(BadRequestLine);
    }
    var target := parse(request.value.target);
    if target.None? {
      return Err(BadUrl);
    }
    var fields := CollectFields(headers);
    if fields.Err? {
      return Err(fields.error);
    }
    var framing := RequestFraming(request.value.version, Named(fields.value, "content-length"), Named(fields.value, "transfer-encoding"));
    if framing.Err? {
      return Err(framing.error);
    }
    var upgrade := IsUpgrade(fields.value, Named(fields.value, "connection"));
    var head := FillHead(request.value, target.value.origin, fields.value);
    return Ok(Forwarded(head, framing.value, upgrade, target.value.host, target.value.port));
  }

  lemma WriteSnoc(lines: seq<string>, line: string)
    ensures WriteLines(lines + [line]) == WriteLines(lines) + line + CRLF
  {
    assert (lines + [line])[..|lines|] == lines;
  }

  lemma {:induction false} ParseFails(headers: seq<string>, i: nat)
    requires i < |headers| && ParseFields(headers[..i]).Ok? && ParseField(headers[i]).Err?
    ensures ParseFields(headers) == Err(ParseField(headers[i]).error)
    decreases |headers|
  {
    if i == |headers| - 1 {
      assert headers[..|headers| - 1] == headers[..i];
    } else {
      assert headers[..|headers| - 1][..i] == headers[..i];
      ParseFails(headers[..|headers| - 1], i);
    }
  }

  // ----- Section 6.3, applied to the bytes the origin receives -----

  function CrlfIndex(s: string): (i: nat)
    ensures i <= |s|
    ensures i < |s| ==> i + 1 < |s| && s[i] == '\r' && s[i + 1] == '\n'
  {
    if |s| < 2 then |s|
    else if s[0] == '\r' && s[1] == '\n' then 0
    else 1 + CrlfIndex(s[1..])
  }

  /** The lines of a head up to the empty one. */
  function ReadLines(s: string): seq<string>
    decreases |s|
  {
    var i := CrlfIndex(s);
    if i == 0 || i == |s| then [] else [s[..i]] + ReadLines(s[i + 2..])
  }

  /** What follows the empty line. */
  function AfterHead(s: string): string
    decreases |s|
  {
    var i := CrlfIndex(s);
    if i == |s| then "" else if i == 0 then s[2..] else AfterHead(s[i + 2..])
  }

  function DropEmpty(list: seq<string>): seq<string> {
    if list == [] then [] else DropEmpty(list[..|list| - 1]) + if list[|list| - 1] == "" then [] else [list[|list| - 1]]
  }

  /** The non-empty elements of every field line with a name (section 5.6.1 of RFC 9110). */
  function Elements(lines: seq<string>, wanted: string): seq<string> {
    if lines == [] then []
    else
      var line := lines[|lines| - 1];
      var colon := IndexOf(line, ':');
      Elements(lines[..|lines| - 1], wanted)
      + if colon < |line| && Same(line[..colon], wanted) then DropEmpty(Tokens(Trim(line[colon + 1..]))) else []
  }

  datatype MessageBody = Sized(length: nat) | ChunkCoded | Faulty

  /** Section 6.3 for a request, from its version and the elements of the two framing fields. */
  function BodyRule(version: string, lengths: seq<string>, codings: seq<string>): MessageBody {
    if codings != [] then
      if lengths == [] && Same(version, "HTTP/1.1") && Same(codings[|codings| - 1], "chunked")
         && !Contains(codings[..|codings| - 1], "chunked") then ChunkCoded
      else Faulty
    else if lengths == [] then Sized(0)
    else if IsDecimal(lengths[0]) && forall i :: 0 <= i < |lengths| ==> lengths[i] == lengths[0] then Sized(DecimalValue(lengths[0]))
    else Faulty
  }

  function FramingOf(lines: seq<string>): MessageBody {
    if lines == [] then Faulty
    else
      var request := SplitRequestLine(lines[0]);
      if request.None? then Faulty
      else BodyRule(request.value.version, Elements(lines[1..], "content-length"), Elements(lines[1..], "transfer-encoding"))
  }

  function ReadFraming(head: string): MessageBody { FramingOf(ReadLines(head)) }

  /** What the proxy forwards as the body for a framing it chose. */
  function BodyOf(framing: BodyFraming): MessageBody {
    match framing
    case Empty => Sized(0)
    case Length(n) => Sized(n)
    case Chunked => ChunkCoded
  }

  function StripCr(line: string): string {
    if line != "" && line[|line| - 1] == '\r' then line[..|line| - 1] else line
  }

  /** The lines a reader finds that takes a bare LF as a line end too (section 2.2 of RFC 9112). */
  function LenientLines(s: string): seq<string>
    decreases |s|
  {
    var i := IndexOf(s, '\n');
    if i == |s| || StripCr(s[..i]) == "" then [] else [StripCr(s[..i])] + LenientLines(s[i + 1..])
  }

  // ----- The head reads back line by line -----

  lemma {:induction false} CrlfAfterLine(l: string, rest: string)
    requires NoCrlf(l)
    ensures CrlfIndex(l + CRLF + rest) == |l|
  {
    var s := l + CRLF + rest;
    if l != "" {
      assert s[1..] == l[1..] + CRLF + rest;
      CrlfAfterLine(l[1..], rest);
    }
  }

  /** The same lines, written from the front. */
  function WriteFront(lines: seq<string>, tail: string): string {
    if lines == [] then tail else lines[0] + CRLF + WriteFront(lines[1..], tail)
  }

  lemma {:induction false} FrontIsSame(lines: seq<string>, tail: string)
    ensures WriteLines(lines) + tail == WriteFront(lines, tail)
    decreases |lines|
  {
    if lines == [] {
      assert WriteLines(lines) + tail == tail;
    } else {
      var last := lines[|lines| - 1];
      FrontIsSame(lines[..|lines| - 1], last + CRLF + tail);
      FrontSnoc(lines[..|lines| - 1], last, tail);
      assert lines[..|lines| - 1] + [last] == lines;
      assert WriteLines(lines) + tail == WriteLines(lines[..|lines| - 1]) + (last + CRLF + tail);
    }
  }

  lemma {:induction false} FrontSnoc(lines: seq<string>, line: string, tail: string)
    ensures WriteFront(lines + [line], tail) == WriteFront(lines, line + CRLF + tail)
    decreases |lines|
  {
    if lines == [] {
      assert lines + [line] == [line];
      assert WriteFront([line][1..], tail) == tail;
    } else {
      assert (lines + [line])[1..] == lines[1..] + [line];
      FrontSnoc(lines[1..], line, tail);
    }
  }

  /** The lines of a head are found, and what follows its empty line, whatever that is. */
  lemma {:induction false} HeadIsTaken(lines: seq<string>, tail: string)
    requires forall i :: 0 <= i < |lines| ==> lines[i] != "" && NoCrlf(lines[i])
    ensures var s := WriteFront(lines, CRLF + tail);
      ReadLines(s) == lines && AfterHead(s) == tail
    decreases |lines|
  {
    hide CrlfIndex;
    if lines == [] {
      CrlfAfterLine("", tail);
      assert "" + CRLF + tail == CRLF + tail;
      assert (CRLF + tail)[2..] == tail;
    } else {
      var rest := WriteFront(lines[1..], CRLF + tail);
      var s := lines[0] + CRLF + rest;
      CrlfAfterLine(lines[0], rest);
      assert s[..|lines[0]|] == lines[0] && s[|lines[0]| + 2..] == rest;
      HeadIsTaken(lines[1..], tail);
    }
  }

  lemma LinesReadBack(lines: seq<string>)
    requires forall i :: 0 <= i < |lines| ==> lines[i] != "" && NoCrlf(lines[i])
    ensures ReadLines(WriteFront(lines, CRLF)) == lines
  {
    hide ReadLines, WriteFront;
    HeadIsTaken(lines, "");
    assert CRLF + "" == CRLF;
  }

  // ----- The kept fields carry the same framing -----

  ghost predicate GoodField(f: Field) {
    ParseField(f.line) == Ok(Some(f))
  }

  lemma {:induction false} FieldsAreGood(headers: seq<string>, fields: seq<Field>)
    requires ParseFields(headers) == Ok(fields)
    ensures forall i :: 0 <= i < |fields| ==> GoodField(fields[i]) && fields[i].line in headers
  {
    hide ParseField;
    if headers != [] {
      var before := ParseFields(headers[..|headers| - 1]).value;
      FieldsAreGood(headers[..|headers| - 1], before);
      FieldKeepsLine(headers[|headers| - 1]);
    }
  }

  lemma FieldKeepsLine(header: string)
    ensures ParseField(header).Ok? && ParseField(header).value.Some? ==>
      ParseField(header).value.value.line == header && GoodField(ParseField(header).value.value)
  {
  }

  lemma FramingFieldsAreKept(options: seq<string>, name: string)
    requires Same(name, "content-length") || Same(name, "transfer-encoding")
    ensures Keeps(options, false, name)
  {
    assert |Lower("content-length")| == 14 && |Lower("transfer-encoding")| == 17;
    assert |Lower("connection")| == 10 && |Lower("keep-alive")| == 10 && |Lower("proxy-connection")| == 16;
    assert |Lower("proxy-authorization")| == 19 && |Lower("te")| == 2 && |Lower("upgrade")| == 7;
  }

  lemma {:induction false} DropEmptyConcat(a: seq<string>, b: seq<string>)
    ensures DropEmpty(a + b) == DropEmpty(a) + DropEmpty(b)
  {
    if b == [] {
      assert a + b == a;
    } else {
      DropEmptyConcat(a, b[..|b| - 1]);
      assert (a + b)[..|a + b| - 1] == a + b[..|b| - 1];
    }
  }

  lemma {:induction false} DropEmptyNothing(a: seq<string>)
    requires forall i :: 0 <= i < |a| ==> a[i] != ""
    ensures DropEmpty(a) == a
  {
    if a != [] {
      DropEmptyNothing(a[..|a| - 1]);
    }
  }

  lemma ElementsSnoc(lines: seq<string>, f: Field, wanted: string)
    requires GoodField(f)
    ensures Elements(lines + [f.line], wanted)
         == Elements(lines, wanted) + if Same(f.name, wanted) then DropEmpty(Tokens(f.value)) else []
  {
    hide Tokens, Trim, DropEmpty, Same;
    assert (lines + [f.line])[..|lines|] == lines;
    assert (lines + [f.line])[|lines|] == f.line;
    FieldParts(f);
  }

  lemma FieldParts(f: Field)
    requires GoodField(f)
    ensures var colon := IndexOf(f.line, ':');
      0 < colon < |f.line| && f.name == f.line[..colon] && f.value == Trim(f.line[colon + 1..])
  {
  }

  lemma NoElements(wanted: string)
    ensures Elements([], wanted) == [] && DropEmpty([]) == []
  {
  }

  /** Whatever the Connection options name, the kept lines hold every element of the framing fields. */
  lemma {:induction false} KeptElements(fields: seq<Field>, options: seq<string>, wanted: string)
    requires wanted == "content-length" || wanted == "transfer-encoding"
    requires forall i :: 0 <= i < |fields| ==> GoodField(fields[i])
    ensures Elements(KeptLines(fields, options, false), wanted) == DropEmpty(Named(fields, wanted))
  {
    hide Tokens, Keeps, GoodField, Elements, DropEmpty, Same;
    NoElements(wanted);
    if fields != [] {
      var before, last := fields[..|fields| - 1], fields[|fields| - 1];
      KeptElements(before, options, wanted);
      DropEmptyConcat(Named(before, wanted), if Same(last.name, wanted) then Tokens(last.value) else []);
      if Same(last.name, wanted) {
        FramingFieldsAreKept(options, last.name);
      }
      if Keeps(options, false, last.name) {
        ElementsSnoc(KeptLines(before, options, false), last, wanted);
      } else {
        assert KeptLines(before, options, false) + [] == KeptLines(before, options, false);
      }
    }
  }

  const CLOSE := "Connection: close"

  lemma CloseAddsNothing(lines: seq<string>, wanted: string)
    requires wanted == "content-length" || wanted == "transfer-encoding"
    ensures Elements(lines + [CLOSE], wanted) == Elements(lines, wanted)
  {
    hide Tokens, Trim, DropEmpty, Same, IndexOf;
    CloseParts();
    assert (lines + [CLOSE])[..|lines|] == lines && (lines + [CLOSE])[|lines|] == CLOSE;
    OtherLength("Connection", wanted);
  }

  lemma CloseParts()
    ensures IndexOf(CLOSE, ':') == 10 && CLOSE[..10] == "Connection"
  {
    hide IndexOf;
    SplitAt("Connection", ':', " close");
    assert CLOSE == "Connection" + [':'] + " close";
  }

  lemma OtherLength(a: string, b: string)
    requires |a| != |b|
    ensures !Same(a, b)
  {
  }

  /** Accepted framing is the section 6.3 framing of the same elements, empty ones dropped or not. */
  lemma AcceptedFramingIsTheRule(version: string, lengths: seq<string>, codings: seq<string>, framing: BodyFraming)
    requires RequestFraming(version, lengths, codings) == Ok(framing)
    ensures BodyRule(version, DropEmpty(lengths), DropEmpty(codings)) == BodyOf(framing)
  {
    if codings != [] {
      assert forall i :: 0 <= i < |codings| ==> codings[i] in codings;
      DropEmptyNothing(codings);
      assert DropEmpty(lengths) == [];
      OnlyLastIsChunked(codings);
    } else if lengths != [] {
      DropEmptyNothing(lengths);
    }
  }

  lemma ContainsSnoc(list: seq<string>, x: string, wanted: string)
    ensures Contains(list + [x], wanted) <==> Contains(list, wanted) || Same(x, wanted)
  {
    hide Same;
    var more := list + [x];
    if Contains(list, wanted) {
      var i :| 0 <= i < |list| && Same(list[i], wanted);
      assert Same(more[i], wanted);
    } else if Same(x, wanted) {
      assert Same(more[|list|], wanted);
    }
  }

  lemma {:induction false} NoneCounted(list: seq<string>, wanted: string)
    ensures CountSame(list, wanted) == 0 <==> !Contains(list, wanted)
  {
    hide Contains, Same;
    if list != [] {
      NoneCounted(list[..|list| - 1], wanted);
      ContainsSnoc(list[..|list| - 1], list[|list| - 1], wanted);
      assert list[..|list| - 1] + [list[|list| - 1]] == list;
    } else {
      NothingContained(wanted);
    }
  }

  lemma NothingContained(wanted: string)
    ensures !Contains([], wanted)
  {
  }

  lemma OnlyLastIsChunked(codings: seq<string>)
    requires codings != [] && CountSame(codings, "chunked") == 1 && Same(codings[|codings| - 1], "chunked")
    ensures !Contains(codings[..|codings| - 1], "chunked")
  {
    NoneCounted(codings[..|codings| - 1], "chunked");
  }

  // ----- Every forwarded head -----

  lemma SplitAt(front: string, c: char, rest: string)
    requires forall i :: 0 <= i < |front| ==> front[i] != c
    ensures var s := front + [c] + rest;
      IndexOf(s, c) == |front| && s[..|front|] == front && s[|front| + 1..] == rest
  {
    FirstIndex(front + [c] + rest, c, |front|);
  }

  function RequestText(verb: string, origin: string, version: string): string {
    verb + " " + (origin + " " + version)
  }

  lemma RequestTextIs(verb: string, origin: string, version: string)
    ensures verb + " " + origin + " " + version == RequestText(verb, origin, version)
  {
  }

  lemma RequestLineReadsBack(r: RequestLine, origin: string)
    requires forall i :: 0 <= i < |r.verb| ==> r.verb[i] != ' '
    requires forall i :: 0 <= i < |origin| ==> origin[i] > ' '
    ensures SplitRequestLine(r.verb + " " + origin + " " + r.version) == Some(RequestLine(r.verb, origin, r.version))
  {
    hide IndexOf;
    RequestTextIs(r.verb, origin, r.version);
    SplitAt(r.verb, ' ', origin + " " + r.version);
    SplitAt(origin, ' ', r.version);
  }

  lemma NoCrlfConcat(a: string, b: string)
    requires NoCrlf(a) && NoCrlf(b) && (a != "" && b != "" ==> a[|a| - 1] != '\r' || b[0] != '\n')
    ensures NoCrlf(a + b)
  {
    var s := a + b;
    forall i | 0 <= i < |s| - 1 ensures !(s[i] == '\r' && s[i + 1] == '\n') {
      if i >= |a| {
        assert s[i] == b[i - |a|] && s[i + 1] == b[i - |a| + 1];
      }
    }
  }

  lemma NoCrlfParts(r: RequestLine, line: string, origin: string)
    requires NoCrlf(line) && SplitRequestLine(line) == Some(r)
    requires forall i :: 0 <= i < |origin| ==> origin[i] > ' '
    ensures NoCrlf(r.verb + " " + origin + " " + r.version)
    ensures forall i :: 0 <= i < |r.verb| ==> r.verb[i] != ' '
  {
    hide IndexOf;
    RequestLineParts(r, line);
    NoCrlfConcat(r.verb, " ");
    NoCrlfConcat(r.verb + " ", origin);
    NoCrlfConcat(r.verb + " " + origin, " ");
    NoCrlfConcat(r.verb + " " + origin + " ", r.version);
  }

  lemma RequestLineParts(r: RequestLine, line: string)
    requires NoCrlf(line) && SplitRequestLine(line) == Some(r)
    ensures NoCrlf(r.verb) && NoCrlf(r.version)
    ensures forall i :: 0 <= i < |r.verb| ==> r.verb[i] != ' '
  {
    hide IndexOf, NoCrlf;
    var i := IndexOf(line, ' ');
    var rest := line[i + 1..];
    var j := IndexOf(rest, ' ');
    assert r.verb == line[0..i];
    NoCrlfSlice(line, 0, i);
    DefaultVersion();
    if j < |rest| {
      NoCrlfSlice(line, i + 1 + j + 1, |line|);
      SuffixTwice(line, i + 1, j + 1);
    }
  }

  lemma DefaultVersion()
    ensures NoCrlf("HTTP/1.1")
  {
  }

  lemma SuffixTwice(s: string, i: nat, j: nat)
    requires i + j <= |s|
    ensures s[i..][j..] == s[i + j..|s|]
  {
  }

  lemma NoCrlfSlice(s: string, from: nat, to: nat)
    requires NoCrlf(s) && from <= to <= |s|
    ensures NoCrlf(s[from..to])
  {
  }

  ghost predicate KeptField(fields: seq<Field>, options: seq<string>, upgrade: bool, i: int, l: string) {
    0 <= i < |fields| && fields[i].line == l && Keeps(options, upgrade, fields[i].name)
  }

  lemma {:induction false} KeptLinesComeFromFields(fields: seq<Field>, options: seq<string>, upgrade: bool)
    ensures forall l :: l in KeptLines(fields, options, upgrade) ==> exists i :: KeptField(fields, options, upgrade, i, l)
  {
    hide Keeps;
    if fields != [] {
      var before := fields[..|fields| - 1];
      KeptLinesComeFromFields(before, options, upgrade);
      forall l | l in KeptLines(fields, options, upgrade) ensures exists i :: KeptField(fields, options, upgrade, i, l) {
        if l in KeptLines(before, options, upgrade) {
          var i :| KeptField(before, options, upgrade, i, l);
          assert KeptField(fields, options, upgrade, i, l);
        } else {
          assert KeptField(fields, options, upgrade, |fields| - 1, l);
        }
      }
    }
  }

  /** The origin and the proxy agree on where the body of every accepted non-upgrade request ends. */
  lemma ForwardedFramingAgrees(line: string, headers: seq<string>, parse: UrlParser)
    requires EncodesBlanks(parse)
    requires NoCrlf(line) && forall i :: 0 <= i < |headers| ==> NoCrlf(headers[i])
    requires Rewrite(line, headers, parse).Ok? && !Rewrite(line, headers, parse).value.upgrade
    ensures ReadFraming(Rewrite(line, headers, parse).value.head) == BodyOf(Rewrite(line, headers, parse).value.framing)
  {
    hide *;
    var r, origin, fields := AcceptedParts(line, headers, parse);
    var options := Named(fields, "connection");
    AcceptedReadsBack(r, origin, fields, line, headers);
    RequestLineReadsBack(r, origin);
    PlainHeadLines(r, origin, fields);
    ReadsAsRule(Rewrite(line, headers, parse).value.head, RequestLine(r.verb, origin, r.version),
                r.verb + " " + origin + " " + r.version, KeptLines(fields, options, false) + [CLOSE]);
    CloseAddsNothing(KeptLines(fields, options, false), "content-length");
    CloseAddsNothing(KeptLines(fields, options, false), "transfer-encoding");
    KeptElements(fields, options, "content-length");
    KeptElements(fields, options, "transfer-encoding");
    AcceptedFramingIsTheRule(r.version, Named(fields, "content-length"), Named(fields, "transfer-encoding"),
                             Rewrite(line, headers, parse).value.framing);
  }

  /** What an accepted request is made of. */
  lemma AcceptedParts(line: string, headers: seq<string>, parse: UrlParser) returns (r: RequestLine, origin: string, fields: seq<Field>)
    requires EncodesBlanks(parse) && Rewrite(line, headers, parse).Ok?
    ensures SplitRequestLine(line) == Some(r) && ParseFields(headers) == Ok(fields)
    ensures parse(r.target).Some? && origin == parse(r.target).value.origin
    ensures Rewrite(line, headers, parse).value.host == parse(r.target).value.host
    ensures Rewrite(line, headers, parse).value.port == parse(r.target).value.port
    ensures forall i :: 0 <= i < |origin| ==> origin[i] > ' '
    ensures Rewrite(line, headers, parse).value.head == RewrittenHead(r, origin, fields)
    ensures Rewrite(line, headers, parse).value.upgrade == IsUpgrade(fields, Named(fields, "connection"))
    ensures RequestFraming(r.version, Named(fields, "content-length"), Named(fields, "transfer-encoding"))
         == Ok(Rewrite(line, headers, parse).value.framing)
    ensures forall i :: 0 <= i < |fields| ==> GoodField(fields[i]) && fields[i].line in headers
  {
    hide ParseFields, RequestFraming, Named, IsUpgrade, SplitRequestLine, RewrittenHead, GoodField;
    r := SplitRequestLine(line).value;
    origin := parse(r.target).value.origin;
    fields := ParseFields(headers).value;
    FieldsAreGood(headers, fields);
  }

  lemma AcceptedReadsBack(r: RequestLine, origin: string, fields: seq<Field>, line: string, headers: seq<string>)
    requires SplitRequestLine(line) == Some(r) && NoCrlf(line)
    requires forall i :: 0 <= i < |headers| ==> NoCrlf(headers[i])
    requires forall i :: 0 <= i < |origin| ==> origin[i] > ' '
    requires forall i :: 0 <= i < |fields| ==> GoodField(fields[i]) && fields[i].line in headers
    ensures ReadLines(RewrittenHead(r, origin, fields)) == HeadLines(r, origin, fields)
    ensures forall i :: 0 <= i < |r.verb| ==> r.verb[i] != ' '
  {
    hide *;
    NoCrlfParts(r, line, origin);
    HeadReadsBack(r, origin, fields, headers);
  }

  lemma ReadsAsRule(head: string, r: RequestLine, first: string, rest: seq<string>)
    requires ReadLines(head) == [first] + rest && SplitRequestLine(first) == Some(r)
    ensures ReadFraming(head) == BodyRule(r.version, Elements(rest, "content-length"), Elements(rest, "transfer-encoding"))
  {
    hide ReadLines, SplitRequestLine, BodyRule, Elements;
    FramingFrom(first, rest, r);
  }

  lemma HeadReadsBack(r: RequestLine, origin: string, fields: seq<Field>, headers: seq<string>)
    requires NoCrlf(r.verb + " " + origin + " " + r.version)
    requires forall i :: 0 <= i < |headers| ==> NoCrlf(headers[i])
    requires forall i :: 0 <= i < |fields| ==> GoodField(fields[i]) && fields[i].line in headers
    ensures ReadLines(RewrittenHead(r, origin, fields)) == HeadLines(r, origin, fields)
  {
    hide HeadLines, GoodField, NoCrlf;
    HeadLinesAreGood(r, origin, fields, headers);
    FrontIsSame(HeadLines(r, origin, fields), CRLF);
    LinesReadBack(HeadLines(r, origin, fields));
  }

  lemma HeadLinesAreGood(r: RequestLine, origin: string, fields: seq<Field>, headers: seq<string>)
    requires NoCrlf(r.verb + " " + origin + " " + r.version)
    requires forall i :: 0 <= i < |headers| ==> NoCrlf(headers[i])
    requires forall i :: 0 <= i < |fields| ==> GoodField(fields[i]) && fields[i].line in headers
    ensures var lines := HeadLines(r, origin, fields);
      forall i :: 0 <= i < |lines| ==> lines[i] != "" && NoCrlf(lines[i])
  {
    hide Named, Keeps, IsUpgrade, GoodField;
    var options := Named(fields, "connection");
    var upgrade := IsUpgrade(fields, options);
    var lines := HeadLines(r, origin, fields);
    HeadLinesNotEmpty(r, origin, fields);
    KeptLinesComeFromFields(fields, options, upgrade);
    assert NoCrlf("Connection: close") && NoCrlf("Connection: Upgrade, close");
    forall i | 0 <= i < |lines| ensures NoCrlf(lines[i]) {
      if 0 < i < |lines| - 1 {
        assert lines[i] in KeptLines(fields, options, upgrade);
        var k :| KeptField(fields, options, upgrade, k, lines[i]);
      }
    }
  }

  lemma FieldLineNotEmpty(f: Field)
    requires GoodField(f)
    ensures f.line != ""
  {
  }

  function NameOf(line: string): string { line[..IndexOf(line, ':')] }

  function FieldLines(head: string): seq<string> {
    var lines := ReadLines(head);
    if lines == [] then [] else lines[1..]
  }

  lemma PlainHeadLines(r: RequestLine, origin: string, fields: seq<Field>)
    requires !IsUpgrade(fields, Named(fields, "connection"))
    ensures HeadLines(r, origin, fields)
         == [r.verb + " " + origin + " " + r.version] + (KeptLines(fields, Named(fields, "connection"), false) + [CLOSE])
  {
    hide IsUpgrade, Named, KeptLines;
  }

  lemma SameOption(options: seq<string>, name: string, other: string)
    requires Contains(options, name) && Same(other, name)
    ensures Contains(options, other) && IsFramingHeader(other) == IsFramingHeader(name)
  {
    var i :| 0 <= i < |options| && Same(options[i], name);
    assert Same(options[i], other);
  }

  // ----- Which requests are accepted -----

  /**
   A request is accepted exactly if section 6.3 settles its framing, no element
   of its framing fields is empty and its length fits 64 bits.
   */
  lemma FramingAcceptedExactly(version: string, lengths: seq<string>, codings: seq<string>)
    ensures var rule := BodyRule(version, DropEmpty(lengths), DropEmpty(codings));
      RequestFraming(version, lengths, codings).Ok? <==>
        "" !in lengths && "" !in codings && !rule.Faulty? && (rule.Sized? ==> rule.length < U64_LIMIT)
  {
    hide Same, Contains, DecimalValue, DropEmpty;
    if "" !in lengths && "" !in codings {
      assert forall i :: 0 <= i < |lengths| ==> lengths[i] in lengths;
      assert forall i :: 0 <= i < |codings| ==> codings[i] in codings;
      DropEmptyNothing(lengths);
      DropEmptyNothing(codings);
      if codings != [] {
        CountsLast(codings);
      }
    }
  }

  lemma CountsLast(codings: seq<string>)
    requires codings != []
    ensures var last := codings[|codings| - 1];
      CountSame(codings, "chunked") == 1 && Same(last, "chunked") <==>
        Same(last, "chunked") && !Contains(codings[..|codings| - 1], "chunked")
  {
    hide Same, Contains;
    NoneCounted(codings[..|codings| - 1], "chunked");
  }

  // ----- Which header lines reach the origin -----

  /** The lines of every field with a name, in order. */
  function LinesNamed(lines: seq<string>, name: string): seq<string> {
    if lines == [] then []
    else
      var last := lines[|lines| - 1];
      LinesNamed(lines[..|lines| - 1], name) + if IndexOf(last, ':') < |last| && Same(NameOf(last), name) then [last] else []
  }

  function FieldsNamed(fields: seq<Field>, name: string): seq<string> {
    if fields == [] then []
    else
      var last := fields[|fields| - 1];
      FieldsNamed(fields[..|fields| - 1], name) + if Same(last.name, name) then [last.line] else []
  }

  lemma LinesSnoc(lines: seq<string>, f: Field, name: string)
    requires GoodField(f)
    ensures LinesNamed(lines + [f.line], name) == LinesNamed(lines, name) + if Same(f.name, name) then [f.line] else []
  {
    hide Same, GoodField;
    assert (lines + [f.line])[..|lines|] == lines;
    FieldParts(f);
  }

  lemma {:induction false} NamedInHeaders(headers: seq<string>, fields: seq<Field>, name: string)
    requires ParseFields(headers) == Ok(fields)
    ensures LinesNamed(headers, name) == FieldsNamed(fields, name)
  {
    hide Same, ParseField;
    if headers != [] {
      var front, last := headers[..|headers| - 1], headers[|headers| - 1];
      var before := ParseFields(front).value;
      NamedInHeaders(front, before, name);
      assert front + [last] == headers;
      FieldKeepsLine(last);
      if ParseField(last).value.Some? {
        LinesSnoc(front, ParseField(last).value.value, name);
        assert fields[..|fields| - 1] == before;
      } else {
        NoColon(last);
        assert LinesNamed(headers, name) == LinesNamed(front, name);
      }
    }
  }

  lemma NoColon(header: string)
    requires ParseField(header) == Ok(None)
    ensures IndexOf(header, ':') == |header|
  {
  }

  lemma SameKeeps(options: seq<string>, upgrade: bool, a: string, b: string)
    requires Same(a, b)
    ensures Keeps(options, upgrade, a) == Keeps(options, upgrade, b)
  {
    if Contains(options, a) {
      SameOption(options, a, b);
    }
    if Contains(options, b) {
      SameOption(options, b, a);
    }
  }

  lemma {:induction false} NamedInKept(fields: seq<Field>, options: seq<string>, upgrade: bool, name: string)
    requires forall i :: 0 <= i < |fields| ==> GoodField(fields[i])
    ensures LinesNamed(KeptLines(fields, options, upgrade), name)
         == if Keeps(options, upgrade, name) then FieldsNamed(fields, name) else []
  {
    hide Same, Keeps, GoodField, LinesNamed;
    NothingNamed(name);
    if fields != [] {
      var before, last := fields[..|fields| - 1], fields[|fields| - 1];
      NamedInKept(before, options, upgrade, name);
      if Same(last.name, name) {
        SameKeeps(options, upgrade, last.name, name);
      }
      if Keeps(options, upgrade, last.name) {
        LinesSnoc(KeptLines(before, options, upgrade), last, name);
      } else {
        assert KeptLines(fields, options, upgrade) == KeptLines(before, options, upgrade);
      }
    }
  }

  lemma NothingNamed(name: string)
    ensures LinesNamed([], name) == []
  {
  }

  const CLOSE_UPGRADE := "Connection: Upgrade, close"

  lemma ClosingName(closing: string, name: string)
    requires closing == CLOSE || closing == CLOSE_UPGRADE
    ensures IndexOf(closing, ':') == 10 < |closing| && NameOf(closing) == "Connection"
    ensures Same("Connection", name) <==> Same(name, "connection")
  {
    hide IndexOf, Same;
    CloseParts();
    UpgradeParts();
    ConnectionIsSame(name);
  }

  lemma UpgradeParts()
    ensures IndexOf(CLOSE_UPGRADE, ':') == 10 && CLOSE_UPGRADE[..10] == "Connection"
  {
    hide IndexOf;
    SplitAt("Connection", ':', " Upgrade, close");
    assert CLOSE_UPGRADE == "Connection" + [':'] + " Upgrade, close";
  }

  lemma ConnectionIsSame(name: string)
    ensures Same("Connection", name) <==> Same(name, "connection")
  {
    assert Lower("Connection") == Lower("connection");
  }

  lemma NamedClosing(lines: seq<string>, closing: string, name: string)
    requires closing == CLOSE || closing == CLOSE_UPGRADE
    ensures LinesNamed(lines + [closing], name) == LinesNamed(lines, name) + if Same(name, "connection") then [closing] else []
  {
    hide Same, IndexOf, NameOf;
    assert (lines + [closing])[..|lines|] == lines;
    ClosingName(closing, name);
  }

  /**
   What the origin sees of each header of every accepted request: all of its
   lines, in order, or none, as the hop-by-hop rules say; and one closing line.
   */
  lemma ForwardedHeaders(line: string, headers: seq<string>, parse: UrlParser, name: string)
    requires EncodesBlanks(parse)
    requires NoCrlf(line) && forall i :: 0 <= i < |headers| ==> NoCrlf(headers[i])
    requires Rewrite(line, headers, parse).Ok?
    ensures var sent := Rewrite(line, headers, parse).value;
      var options := Named(ParseFields(headers).value, "connection");
      LinesNamed(FieldLines(sent.head), name)
        == (if Keeps(options, sent.upgrade, name) then LinesNamed(headers, name) else [])
         + (if Same(name, "connection") then [if sent.upgrade then CLOSE_UPGRADE else CLOSE] else [])
  {
    hide *;
    var r, origin, fields := AcceptedParts(line, headers, parse);
    var options := Named(fields, "connection");
    var sent := Rewrite(line, headers, parse).value;
    var closing := if sent.upgrade then CLOSE_UPGRADE else CLOSE;
    AcceptedReadsBack(r, origin, fields, line, headers);
    FieldLinesAre(sent.head, r, origin, fields);
    NamedClosing(KeptLines(fields, options, sent.upgrade), closing, name);
    NamedInKept(fields, options, sent.upgrade, name);
    NamedInHeaders(headers, fields, name);
  }

  /** No hop-by-hop header reaches the origin, nor one the Connection options name unless framing or an upgrade depends on it. */
  lemma NamedHeadersAreRemoved(line: string, headers: seq<string>, parse: UrlParser, name: string)
    requires EncodesBlanks(parse)
    requires NoCrlf(line) && forall i :: 0 <= i < |headers| ==> NoCrlf(headers[i])
    requires Rewrite(line, headers, parse).Ok? && !Same(name, "connection")
    requires var upgrade := Rewrite(line, headers, parse).value.upgrade;
      IsHopByHop(name, upgrade)
      || (Contains(Named(ParseFields(headers).value, "connection"), name) && !IsFramingHeader(name) && !(upgrade && Same(name, "upgrade")))
    ensures LinesNamed(FieldLines(Rewrite(line, headers, parse).value.head), name) == []
  {
    hide Rewrite, FieldLines, LinesNamed, IsHopByHop, Contains, IsFramingHeader, Same, EncodesBlanks, NoCrlf, Named, ParseFields;
    ForwardedHeaders(line, headers, parse, name);
  }

  lemma FieldLinesAre(head: string, r: RequestLine, origin: string, fields: seq<Field>)
    requires ReadLines(head) == HeadLines(r, origin, fields)
    ensures var options := Named(fields, "connection");
      var upgrade := IsUpgrade(fields, options);
      FieldLines(head) == KeptLines(fields, options, upgrade) + [if upgrade then CLOSE_UPGRADE else CLOSE]
  {
    hide Named, IsUpgrade, KeptLines, ReadLines;
  }

  // ----- A reader that takes a bare LF as a line end -----

  predicate LfFree(lines: seq<string>) { forall i :: 0 <= i < |lines| ==> '\n' !in lines[i] }

  lemma LenientStep(l: string, rest: string)
    requires '\n' !in l
    ensures LenientLines(l + CRLF + rest) == if l == "" then [] else [l] + LenientLines(rest)
  {
    hide LenientLines;
    var s := l + CRLF + rest;
    FirstIndex(s, '\n', |l| + 1);
    assert s[..|l| + 1] == l + "\r" && s[|l| + 2..] == rest;
    assert StripCr(l + "\r") == l;
    LenientFirst(s);
  }

  lemma LenientFirst(s: string)
    ensures var i := IndexOf(s, '\n');
      LenientLines(s) == if i == |s| || StripCr(s[..i]) == "" then [] else [StripCr(s[..i])] + LenientLines(s[i + 1..])
  {
    hide IndexOf;
  }

  lemma {:induction false} LenientReadsBack(lines: seq<string>)
    requires LfFree(lines) && forall i :: 0 <= i < |lines| ==> lines[i] != ""
    ensures LenientLines(WriteFront(lines, CRLF)) == lines
    decreases |lines|
  {
    hide LenientLines;
    if lines == [] {
      LenientStep("", "");
      assert "" + CRLF + "" == CRLF;
    } else {
      LenientStep(lines[0], WriteFront(lines[1..], CRLF));
      LenientReadsBack(lines[1..]);
    }
  }

  lemma {:induction false} LenientIsLfFree(s: string)
    ensures LfFree(LenientLines(s))
    decreases |s|
  {
    var i := IndexOf(s, '\n');
    if i < |s| && StripCr(s[..i]) != "" {
      LenientIsLfFree(s[i + 1..]);
      assert '\n' !in s[..i];
    }
  }

  /** The forwarded lines hold no LF: neither the method and version nor any kept header line does. */
  ghost predicate SendsNoLf(r: RequestLine, fields: seq<Field>) {
    var options := Named(fields, "connection");
    '\n' !in r.verb && '\n' !in r.version && LfFree(KeptLines(fields, options, IsUpgrade(fields, options)))
  }

  lemma LfFreeHead(r: RequestLine, origin: string, fields: seq<Field>)
    requires forall i :: 0 <= i < |origin| ==> origin[i] > ' '
    ensures LfFree(HeadLines(r, origin, fields)) <==> SendsNoLf(r, fields)
  {
    hide Named, KeptLines, IsUpgrade;
    var options := Named(fields, "connection");
    var upgrade := IsUpgrade(fields, options);
    var kept := KeptLines(fields, options, upgrade);
    var lines := HeadLines(r, origin, fields);
    assert '\n' !in origin && '\n' !in "Connection: close" && '\n' !in "Connection: Upgrade, close";
    FirstLineHolds(r.verb, origin, r.version);
    assert lines[0] == r.verb + " " + origin + " " + r.version;
    assert forall i :: 0 <= i < |kept| ==> kept[i] == lines[i + 1];
    if SendsNoLf(r, fields) {
      forall i | 0 <= i < |lines| ensures '\n' !in lines[i] {
        if 0 < i < |lines| - 1 {
          assert lines[i] == kept[i - 1];
        }
      }
    }
  }

  lemma FirstLineHolds(verb: string, origin: string, version: string)
    requires '\n' !in origin
    ensures '\n' in verb + " " + origin + " " + version <==> '\n' in verb || '\n' in version
  {
  }

  lemma HeadLinesNotEmpty(r: RequestLine, origin: string, fields: seq<Field>)
    requires forall i :: 0 <= i < |fields| ==> GoodField(fields[i])
    ensures forall i :: 0 <= i < |HeadLines(r, origin, fields)| ==> HeadLines(r, origin, fields)[i] != ""
  {
    hide Named, Keeps, IsUpgrade, GoodField;
    var options := Named(fields, "connection");
    var upgrade := IsUpgrade(fields, options);
    var lines := HeadLines(r, origin, fields);
    KeptLinesComeFromFields(fields, options, upgrade);
    forall i | 0 <= i < |lines| ensures lines[i] != "" {
      if 0 < i < |lines| - 1 {
        assert lines[i] in KeptLines(fields, options, upgrade);
        var k :| KeptField(fields, options, upgrade, k, lines[i]);
        FieldLineNotEmpty(fields[k]);
      }
    }
  }

  /**
   A reader that takes a bare LF as a line end finds the lines a strict one
   finds exactly if no forwarded line holds an LF; it then frames the body as
   the proxy does.
   */
  lemma LenientReaderAgreesExactly(line: string, headers: seq<string>, parse: UrlParser)
    requires EncodesBlanks(parse)
    requires NoCrlf(line) && forall i :: 0 <= i < |headers| ==> NoCrlf(headers[i])
    requires Rewrite(line, headers, parse).Ok?
    ensures var sent := Rewrite(line, headers, parse).value;
      var clean := SendsNoLf(SplitRequestLine(line).value, ParseFields(headers).value);
      && (LenientLines(sent.head) == ReadLines(sent.head) <==> clean)
      && (clean && !sent.upgrade ==> FramingOf(LenientLines(sent.head)) == BodyOf(sent.framing))
  {
    hide *;
    var r, origin, fields := AcceptedParts(line, headers, parse);
    var head := Rewrite(line, headers, parse).value.head;
    AcceptedReadsBack(r, origin, fields, line, headers);
    LfFreeHead(r, origin, fields);
    LenientIsLfFree(head);
    HeadLinesNotEmpty(r, origin, fields);
    if SendsNoLf(r, fields) {
      LenientHead(r, origin, fields);
      if !Rewrite(line, headers, parse).value.upgrade {
        ForwardedFramingAgrees(line, headers, parse);
        StrictFraming(head);
      }
    }
  }

  lemma LenientHead(r: RequestLine, origin: string, fields: seq<Field>)
    requires LfFree(HeadLines(r, origin, fields))
    requires forall i :: 0 <= i < |HeadLines(r, origin, fields)| ==> HeadLines(r, origin, fields)[i] != ""
    ensures LenientLines(RewrittenHead(r, origin, fields)) == HeadLines(r, origin, fields)
  {
    hide HeadLines, LenientLines;
    var lines := HeadLines(r, origin, fields);
    FrontIsSame(lines, CRLF);
    LenientReadsBack(lines);
  }

  lemma StrictFraming(head: string)
    ensures ReadFraming(head) == FramingOf(ReadLines(head))
  {
  }

  // ----- A header that such a reader frames differently -----

  const FIRST_LINE := "X" + ":" + " a"
  const SECOND_LINE := "Transfer-Encoding" + ":" + (" " + "chunked")
  const TWO_LINES := FIRST_LINE + "\n" + SECOND_LINE

  lemma TwoLinesField()
    ensures ParseField(TWO_LINES).Ok? && ParseField(TWO_LINES).value.Some?
    ensures var f := ParseField(TWO_LINES).value.value; f.line == TWO_LINES && f.name == "X"
  {
    hide IndexOf, Trim;
    var rest := " a" + "\n" + SECOND_LINE;
    SplitAt("X", ':', rest);
    assert TWO_LINES == "X" + [':'] + rest;
  }

  lemma TwoLinesHaveNoCr()
    ensures NoCrlf(TWO_LINES)
  {
    assert '\r' !in "X" && '\r' !in ":" && '\r' !in " a" && '\r' !in "\n" && '\r' !in "Transfer-Encoding" && '\r' !in " " && '\r' !in "chunked";
    assert '\r' !in FIRST_LINE && '\r' !in SECOND_LINE;
    NoCrNoCrlf(TWO_LINES);
  }

  lemma NoCrNoCrlf(s: string)
    requires '\r' !in s
    ensures NoCrlf(s)
  {
    assert forall i :: 0 <= i < |s| ==> s[i] in s;
  }

  lemma KeepsX()
    ensures Keeps([], false, "X")
    ensures !Same("X", "content-length") && !Same("X", "transfer-encoding") && !Same("X", "connection") && !Same("X", "upgrade")
  {
    assert |Lower("X")| == 1;
    assert |Lower("content-length")| == 14 && |Lower("transfer-encoding")| == 17 && |Lower("upgrade")| == 7;
    assert |Lower("connection")| == 10 && |Lower("keep-alive")| == 10 && |Lower("proxy-connection")| == 16;
    assert |Lower("proxy-authorization")| == 19 && |Lower("te")| == 2;
  }

  lemma NoField(f: Field, wanted: string)
    requires !Same(f.name, wanted)
    ensures Named([f], wanted) == []
  {
    assert [f][..0] == [];
  }

  lemma OneField(header: string, f: Field)
    requires ParseField(header) == Ok(Some(f))
    ensures ParseFields([header]) == Ok([f])
  {
    hide ParseField;
    assert [header][..0] == [];
    assert ParseFields([header]) == Ok([] + [f]);
    assert [] + [f] == [f];
  }

  lemma OneKept(f: Field)
    requires Keeps([], false, f.name)
    ensures KeptLines([f], [], false) == [f.line] && !IsUpgrade([f], [])
  {
    hide Keeps;
    assert [f][..0] == [];
    assert KeptLines([f], [], false) == [] + [f.line];
  }

  lemma TwoLinesFields() returns (fields: seq<Field>)
    ensures ParseFields([TWO_LINES]) == Ok(fields) && KeptLines(fields, [], false) == [TWO_LINES]
    ensures Named(fields, "content-length") == [] && Named(fields, "transfer-encoding") == [] && Named(fields, "connection") == []
    ensures !IsUpgrade(fields, [])
  {
    hide *;
    TwoLinesField();
    KeepsX();
    var f := ParseField(TWO_LINES).value.value;
    fields := [f];
    OneField(TWO_LINES, f);
    OneKept(f);
    NoField(f, "content-length");
    NoField(f, "transfer-encoding");
    NoField(f, "connection");
  }

  lemma TwoLinesHead(line: string, parse: UrlParser)
    requires SplitRequestLine(line).Some? && parse(SplitRequestLine(line).value.target).Some?
    ensures var r, target := SplitRequestLine(line).value, parse(SplitRequestLine(line).value.target).value;
      Rewrite(line, [TWO_LINES], parse)
        == Ok(Forwarded(WriteFront([r.verb + " " + target.origin + " " + r.version, TWO_LINES, CLOSE], CRLF), Empty, false, target.host, target.port))
  {
    hide ParseFields, Named, KeptLines, IsUpgrade, SplitRequestLine, WriteFront, WriteLines;
    var r, target := SplitRequestLine(line).value, parse(SplitRequestLine(line).value.target).value;
    var fields := TwoLinesFields();
    var lines := [r.verb + " " + target.origin + " " + r.version, TWO_LINES, CLOSE];
    PlainHeadLines(r, target.origin, fields);
    assert [r.verb + " " + target.origin + " " + r.version] + ([TWO_LINES] + [CLOSE]) == lines;
    FrontIsSame(lines, CRLF);
  }

  lemma TwoLinesRead(first: string)
    requires first != "" && '\n' !in first
    ensures LenientLines(WriteFront([first, TWO_LINES, CLOSE], CRLF)) == [first, FIRST_LINE, SECOND_LINE, CLOSE]
  {
    hide LenientLines, IndexOf, StripCr;
    var tail := WriteFront([CLOSE], CRLF);
    assert [first, TWO_LINES, CLOSE][1..] == [TWO_LINES, CLOSE] && [TWO_LINES, CLOSE][1..] == [CLOSE];
    LfInParts();
    LenientStep(first, TWO_LINES + CRLF + tail);
    SplitLenient(FIRST_LINE, SECOND_LINE + CRLF + tail);
    assert TWO_LINES + CRLF + tail == FIRST_LINE + ['\n'] + (SECOND_LINE + CRLF + tail);
    LenientStep(SECOND_LINE, tail);
    LenientReadsBack([CLOSE]);
  }

  lemma LfInParts()
    ensures '\n' !in FIRST_LINE && '\n' !in SECOND_LINE && '\n' !in CLOSE && FIRST_LINE != "" && SECOND_LINE != "" && FIRST_LINE[|FIRST_LINE| - 1] != '\r'
  {
    assert '\n' !in "X" && '\n' !in ":" && '\n' !in " a" && '\n' !in "Transfer-Encoding" && '\n' !in " " && '\n' !in "chunked";
  }

  /** Such a reader ends a line at a bare LF. */
  lemma SplitLenient(l: string, rest: string)
    requires l != "" && '\n' !in l && l[|l| - 1] != '\r'
    ensures LenientLines(l + ['\n'] + rest) == [l] + LenientLines(rest)
  {
    hide LenientLines, IndexOf;
    SplitAt(l, '\n', rest);
    LenientFirst(l + ['\n'] + rest);
  }

  lemma OneWord(word: string)
    requires word != "" && forall i :: 0 <= i < |word| ==> word[i] != ',' && !IsBlank(word[i])
    ensures Tokens(word) == [word] && Trim(" " + word) == word && DropEmpty([word]) == [word]
  {
    assert Split(word, ',') == [word];
    TrimWord(word);
    assert [word][..0] == [];
  }

  lemma TrimWord(word: string)
    requires word != "" && !IsBlank(word[0]) && !IsBlank(word[|word| - 1])
    ensures Trim(word) == word && Trim(" " + word) == word
  {
    var s := " " + word;
    assert s[|s| - 1] == word[|word| - 1];
    assert TrimEnd(s) == s && TrimEnd(word) == word;
    assert s[1..] == word;
    assert TrimStart(word) == word;
  }

  lemma OneMoreLine(lines: seq<string>, name: string, rest: string, wanted: string)
    requires forall i :: 0 <= i < |name| ==> name[i] != ':'
    ensures Elements(lines + [name + ":" + rest], wanted)
         == Elements(lines, wanted) + if Same(name, wanted) then DropEmpty(Tokens(Trim(rest))) else []
  {
    hide IndexOf, Same, Tokens, Trim, DropEmpty;
    var line := name + [':'] + rest;
    SplitAt(name, ':', rest);
    assert (lines + [line])[..|lines|] == lines && (lines + [line])[|lines|] == line;
  }

  lemma TwoLinesElements(wanted: string)
    requires wanted == "content-length" || wanted == "transfer-encoding"
    ensures Elements([FIRST_LINE, SECOND_LINE, CLOSE], wanted) == if wanted == "transfer-encoding" then ["chunked"] else []
  {
    hide IndexOf, Same, Tokens, Trim, DropEmpty, Elements;
    assert [FIRST_LINE, SECOND_LINE] + [CLOSE] == [FIRST_LINE, SECOND_LINE, CLOSE] && [] + [FIRST_LINE] == [FIRST_LINE] && [FIRST_LINE] + [SECOND_LINE] == [FIRST_LINE, SECOND_LINE];
    CloseAddsNothing([FIRST_LINE, SECOND_LINE], wanted);
    OneMoreLine([], "X", " a", wanted);
    OneMoreLine([FIRST_LINE], "Transfer-Encoding", " " + "chunked", wanted);
    NoElements(wanted);
    OtherLength("X", wanted);
    OneWord("chunked");
    TransferEncodingIsSame();
    OtherLength("Transfer-Encoding", "content-length");
  }

  lemma TransferEncodingIsSame()
    ensures Same("Transfer-Encoding", "transfer-encoding")
  {
    var a, b := Lower("Transfer-Encoding"), Lower("transfer-encoding");
    assert forall i :: 0 <= i < 17 ==> a[i] == b[i];
  }

  /** With a bare LF in a header value the proxy sends no body, and such a reader waits for a chunked one. */
  lemma BareLfReframes(line: string, parse: UrlParser)
    requires EncodesBlanks(parse) && NoCrlf(line) && '\n' !in line
    requires SplitRequestLine(line).Some? && parse(SplitRequestLine(line).value.target).Some?
    requires Same(SplitRequestLine(line).value.version, "HTTP/1.1")
    ensures var sent := Rewrite(line, [TWO_LINES], parse);
      && sent.Ok? && sent.value.framing == Empty && ReadFraming(sent.value.head) == Sized(0)
      && FramingOf(LenientLines(sent.value.head)) == ChunkCoded
  {
    hide Rewrite, SplitRequestLine, LenientLines, WriteFront, Elements, Same, ReadLines, NoCrlf, FramingOf;
    var r := SplitRequestLine(line).value;
    var origin := parse(r.target).value.origin;
    TwoLinesHead(line, parse);
    TwoLinesHaveNoCr();
    ForwardedFramingAgrees(line, [TWO_LINES], parse);
    NoCrlfParts(r, line, origin);
    RequestLineReadsBack(r, origin);
    RequestPartsLf(r, line);
    assert '\n' !in origin;
    FirstLineHolds(r.verb, origin, r.version);
    var first := r.verb + " " + origin + " " + r.version;
    TwoLinesRead(first);
    TwoLinesElements("content-length");
    TwoLinesElements("transfer-encoding");
    ChunkedRule(r.version);
    FramingFrom(first, [FIRST_LINE, SECOND_LINE, CLOSE], RequestLine(r.verb, origin, r.version));
    assert [first] + [FIRST_LINE, SECOND_LINE, CLOSE] == [first, FIRST_LINE, SECOND_LINE, CLOSE];
  }

  lemma RequestPartsLf(r: RequestLine, line: string)
    requires SplitRequestLine(line) == Some(r) && '\n' !in line
    ensures '\n' !in r.verb && '\n' !in r.version
  {
    hide IndexOf;
  }

  lemma ChunkedRule(version: string)
    requires Same(version, "HTTP/1.1")
    ensures BodyRule(version, [], ["chunked"]) == ChunkCoded
  {
    assert ["chunked"][..0] == [];
  }

  lemma FramingFrom(first: string, rest: seq<string>, r: RequestLine)
    requires SplitRequestLine(first) == Some(r)
    ensures FramingOf([first] + rest) == BodyRule(r.version, Elements(rest, "content-length"), Elements(rest, "transfer-encoding"))
  {
    hide SplitRequestLine, Elements, BodyRule;
    assert ([first] + rest)[1..] == rest;
  }

  // ----- The same laws with the names and forms written out -----

  lemma LowerIsSelf(s: string)
    requires forall i :: 0 <= i < |s| ==> !('A' <= s[i] <= 'Z')
    ensures Lower(s) == s
  {
  }

  /** Case folding is that of ASCII letters. */
  lemma LowerLetters(s: string)
    requires forall i :: 0 <= i < |s| ==> 'A' <= s[i] <= 'Z'
    ensures forall i :: 0 <= i < |s| ==> Lower(s)[i] as int - 'a' as int == s[i] as int - 'A' as int
  {
  }

  lemma LowerNames()
    ensures Lower("connection") == "connection" && Lower("keep-alive") == "keep-alive" && Lower("proxy-connection") == "proxy-connection"
    ensures Lower("proxy-authorization") == "proxy-authorization" && Lower("te") == "te" && Lower("upgrade") == "upgrade"
    ensures Lower("host") == "host" && Lower("content-length") == "content-length" && Lower("transfer-encoding") == "transfer-encoding"
  {
    hide Lower;
    LowerIsSelf("connection");
    LowerIsSelf("keep-alive");
    LowerIsSelf("proxy-connection");
    LowerIsSelf("proxy-authorization");
    LowerIsSelf("te");
    LowerIsSelf("upgrade");
    LowerIsSelf("host");
    LowerIsSelf("content-length");
    LowerIsSelf("transfer-encoding");
  }

  /** Some Connection option of a request names a header. */
  predicate NamedByOption(headers: seq<string>, name: string) {
    ParseFields(headers).Ok?
    && var options := Named(ParseFields(headers).value, "connection");
       exists i :: 0 <= i < |options| && Lower(options[i]) == Lower(name)
  }

  /** Which headers of a request reach the origin, by their names in lower case. */
  predicate Reaches(headers: seq<string>, name: string, upgrade: bool) {
    var lower := Lower(name);
    if lower in ["connection", "keep-alive", "proxy-connection", "proxy-authorization", "te"] then false
    else if lower == "upgrade" then upgrade
    else lower in ["host", "content-length", "transfer-encoding"] || !NamedByOption(headers, name)
  }

  lemma KeepsByName(headers: seq<string>, fields: seq<Field>, upgrade: bool, name: string)
    requires ParseFields(headers) == Ok(fields)
    ensures Keeps(Named(fields, "connection"), upgrade, name) <==> Reaches(headers, name, upgrade)
  {
    hide Lower, Named, ParseFields;
    LowerNames();
    assert Contains(Named(fields, "connection"), name) <==> NamedByOption(headers, name);
  }

  /**
   For every accepted request and every name: the origin gets all lines of the
   header in order or none of them, by the lists of names written out; of
   Connection it gets one closing line; and an upgrade is one the client's
   Upgrade header and its Connection options both ask for.
   */
  lemma ForwardedByName(line: string, headers: seq<string>, parse: UrlParser, name: string)
    requires EncodesBlanks(parse)
    requires NoCrlf(line) && forall i :: 0 <= i < |headers| ==> NoCrlf(headers[i])
    requires Rewrite(line, headers, parse).Ok?
    ensures var sent := Rewrite(line, headers, parse).value;
      LinesNamed(FieldLines(sent.head), name)
        == (if Reaches(headers, name, sent.upgrade) then LinesNamed(headers, name) else [])
         + (if Lower(name) == "connection" then ["Connection: " + if sent.upgrade then "Upgrade, close" else "close"] else [])
    ensures Rewrite(line, headers, parse).value.upgrade <==> LinesNamed(headers, "upgrade") != [] && NamedByOption(headers, "upgrade")
  {
    hide Rewrite, EncodesBlanks, NoCrlf, FieldLines, LinesNamed, Keeps, Reaches, Named, ParseFields, Lower, IsUpgrade, RewrittenHead, NamedByOption;
    var r, origin, fields := AcceptedParts(line, headers, parse);
    ForwardedHeaders(line, headers, parse, name);
    KeepsByName(headers, fields, Rewrite(line, headers, parse).value.upgrade, name);
    UpgradeByName(headers, fields);
    LowerNames();
    assert "Connection: " + "Upgrade, close" == CLOSE_UPGRADE && "Connection: " + "close" == CLOSE;
  }

  lemma UpgradeByName(headers: seq<string>, fields: seq<Field>)
    requires ParseFields(headers) == Ok(fields)
    ensures IsUpgrade(fields, Named(fields, "connection")) <==> LinesNamed(headers, "upgrade") != [] && NamedByOption(headers, "upgrade")
  {
    hide Lower, Named, ParseFields, LinesNamed;
    NamedInHeaders(headers, fields, "upgrade");
    AnyNamed(fields, "upgrade");
    assert Contains(Named(fields, "connection"), "upgrade") <==> NamedByOption(headers, "upgrade");
  }

  lemma {:induction false} AnyNamed(fields: seq<Field>, name: string)
    ensures FieldsNamed(fields, name) != [] <==> exists i :: 0 <= i < |fields| && Same(fields[i].name, name)
  {
    hide Same;
    if fields != [] {
      var front, last := fields[..|fields| - 1], fields[|fields| - 1];
      AnyNamed(front, name);
      if FieldsNamed(front, name) != [] {
        var i :| 0 <= i < |front| && Same(front[i].name, name);
        assert Same(fields[i].name, name);
      }
      if exists i :: 0 <= i < |fields| && Same(fields[i].name, name) {
        var i :| 0 <= i < |fields| && Same(fields[i].name, name);
        assert i < |front| ==> Same(front[i].name, name);
      }
    }
  }

  /** The header lines of a request that reach the origin, in order. */
  function LinesReaching(lines: seq<string>, headers: seq<string>, upgrade: bool): seq<string> {
    if lines == [] then []
    else
      var last := lines[|lines| - 1];
      LinesReaching(lines[..|lines| - 1], headers, upgrade) + if ':' in last && Reaches(headers, NameOf(last), upgrade) then [last] else []
  }

  lemma {:induction false} KeptAreReaching(lines: seq<string>, kept: seq<Field>, headers: seq<string>, fields: seq<Field>, upgrade: bool)
    requires ParseFields(lines) == Ok(kept) && ParseFields(headers) == Ok(fields)
    ensures KeptLines(kept, Named(fields, "connection"), upgrade) == LinesReaching(lines, headers, upgrade)
  {
    hide Keeps, Reaches, Named, ParseField, NameOf;
    if lines != [] {
      var front, last := lines[..|lines| - 1], lines[|lines| - 1];
      KeptAreReaching(front, ParseFields(front).value, headers, fields, upgrade);
      FieldKeepsLine(last);
      if ParseField(last).value.Some? {
        var f := ParseField(last).value.value;
        ColonOf(f);
        KeepsByName(headers, fields, upgrade, f.name);
        assert kept[..|kept| - 1] == ParseFields(front).value;
      } else {
        NoColon(last);
        ColonAbsent(last);
      }
    }
  }

  lemma ColonOf(f: Field)
    requires GoodField(f)
    ensures ':' in f.line && NameOf(f.line) == f.name
  {
    FieldParts(f);
    assert f.line[IndexOf(f.line, ':')] == ':';
  }

  lemma ColonAbsent(s: string)
    requires IndexOf(s, ':') == |s|
    ensures ':' !in s
  {
  }

  /** The header lines the origin gets: exactly those that reach it, in the client's order, and the closing line. */
  lemma ForwardedInOrder(line: string, headers: seq<string>, parse: UrlParser)
    requires EncodesBlanks(parse)
    requires NoCrlf(line) && forall i :: 0 <= i < |headers| ==> NoCrlf(headers[i])
    requires Rewrite(line, headers, parse).Ok?
    ensures var sent := Rewrite(line, headers, parse).value;
      FieldLines(sent.head)
        == LinesReaching(headers, headers, sent.upgrade) + ["Connection: " + if sent.upgrade then "Upgrade, close" else "close"]
  {
    hide *;
    var r, origin, fields := AcceptedParts(line, headers, parse);
    var sent := Rewrite(line, headers, parse).value;
    AcceptedReadsBack(r, origin, fields, line, headers);
    FieldLinesAre(sent.head, r, origin, fields);
    KeptAreReaching(headers, fields, headers, fields, sent.upgrade);
    ClosingText();
  }

  lemma ClosingText()
    ensures "Connection: " + "Upgrade, close" == CLOSE_UPGRADE && "Connection: " + "close" == CLOSE
  {
  }

  // ----- Lists, fields and request lines as they are written -----

  function JoinWith(parts: seq<string>, c: char): string
    requires parts != []
  {
    if |parts| == 1 then parts[0] else parts[0] + [c] + JoinWith(parts[1..], c)
  }

  /** Splitting undoes joining, and joining splitting. */
  lemma {:induction false} SplitOfJoin(parts: seq<string>, c: char)
    requires parts != [] && forall i :: 0 <= i < |parts| ==> c !in parts[i]
    ensures Split(JoinWith(parts, c), c) == parts
    decreases |parts|
  {
    hide IndexOf;
    if |parts| == 1 {
      assert parts == [parts[0]];
      NoSeparator(parts[0], c);
    } else {
      var rest := JoinWith(parts[1..], c);
      SplitAt(parts[0], c, rest);
      SplitOfJoin(parts[1..], c);
      assert parts == [parts[0]] + parts[1..];
    }
  }

  lemma NoSeparator(s: string, c: char)
    requires c !in s
    ensures IndexOf(s, c) == |s|
  {
  }

  lemma {:induction false} JoinOfSplit(s: string, c: char)
    ensures JoinWith(Split(s, c), c) == s
    decreases |s|
  {
    hide IndexOf, JoinWith;
    var i := IndexOf(s, c);
    OneJoined(s, c);
    if i < |s| {
      JoinOfSplit(s[i + 1..], c);
      JoinFront(s[..i], Split(s[i + 1..], c), c);
      assert s == s[..i] + [c] + s[i + 1..];
    }
  }

  lemma OneJoined(s: string, c: char)
    ensures JoinWith([s], c) == s
  {
  }

  lemma JoinFront(first: string, rest: seq<string>, c: char)
    requires rest != []
    ensures JoinWith([first] + rest, c) == first + [c] + JoinWith(rest, c)
  {
    assert ([first] + rest)[1..] == rest;
  }

  predicate AllBlanks(s: string) { forall i :: 0 <= i < |s| ==> s[i] == ' ' || s[i] == '\t' }

  predicate Trimmed(s: string) { s == "" || (s[0] !in " \t" && s[|s| - 1] !in " \t") }

  lemma {:induction false} TrimEndOf(s: string, blanks: string)
    requires AllBlanks(blanks) && (s == "" || s[|s| - 1] !in " \t")
    ensures TrimEnd(s + blanks) == s
  {
    var all := s + blanks;
    if blanks == "" {
      assert all == s;
    } else {
      assert all[|all| - 1] == blanks[|blanks| - 1];
      assert all[..|all| - 1] == s + blanks[..|blanks| - 1];
      TrimEndOf(s, blanks[..|blanks| - 1]);
    }
  }

  lemma {:induction false} TrimStartOf(blanks: string, s: string)
    requires AllBlanks(blanks) && (s == "" || s[0] !in " \t")
    ensures TrimStart(blanks + s) == s
  {
    var all := blanks + s;
    if blanks == "" {
      assert all == s;
    } else {
      assert all[0] == blanks[0] && all[1..] == blanks[1..] + s;
      TrimStartOf(blanks[1..], s);
    }
  }

  /** Trimming takes off exactly the spaces and tabs around a text. */
  lemma TrimOf(front: string, s: string, back: string)
    requires AllBlanks(front) && AllBlanks(back) && Trimmed(s)
    ensures Trim(front + s + back) == s
  {
    hide TrimStart, TrimEnd;
    if s == "" {
      assert front + s + back == "" + (front + back);
      TrimEndOf("", front + back);
      TrimStartOf("", "");
      assert "" + "" == "";
    } else {
      TrimEndOf(front + s, back);
      TrimStartOf(front, s);
    }
  }

  /** A comma-separated list, with any blanks around its elements, has those elements. */
  lemma TokensOf(words: seq<string>, fronts: seq<string>, backs: seq<string>)
    requires words != [] && |fronts| == |words| == |backs|
    requires forall i :: 0 <= i < |words| ==> Trimmed(words[i]) && ',' !in words[i] && AllBlanks(fronts[i]) && AllBlanks(backs[i])
    ensures Tokens(JoinWith(seq(|words|, i requires 0 <= i < |words| => fronts[i] + words[i] + backs[i]), ',')) == words
  {
    hide Split, Trim, JoinWith;
    var parts := seq(|words|, i requires 0 <= i < |words| => fronts[i] + words[i] + backs[i]);
    forall i | 0 <= i < |parts| ensures ',' !in parts[i] && Trim(parts[i]) == words[i] {
      NoComma(fronts[i]);
      NoComma(backs[i]);
      TrimOf(fronts[i], words[i], backs[i]);
    }
    SplitOfJoin(parts, ',');
  }

  lemma NoComma(s: string)
    requires AllBlanks(s)
    ensures ',' !in s
  {
  }

  /** A header line as it is written: its name up to the colon, its value without the blanks around it. */
  lemma FieldForm(name: string, front: string, value: string, back: string)
    requires name != "" && ':' !in name && name[0] !in " \t" && name[|name| - 1] !in " \t"
    requires AllBlanks(front) && AllBlanks(back) && Trimmed(value)
    ensures var header := name + ":" + (front + value + back);
      ParseField(header) == Ok(Some(Field(header, name, value)))
  {
    hide Trim, IndexOf;
    SplitAt(name, ':', front + value + back);
    TrimOf(front, value, back);
  }

  /** What is no field: a folded line, a name that is empty or ends in a blank are refused; a line without a colon is skipped. */
  lemma NoFieldForm(header: string, name: string, rest: string)
    ensures header != "" && header[0] in " \t" ==> ParseField(header) == Err(Folding)
    ensures ':' !in header && (header == "" || header[0] !in " \t") ==> ParseField(header) == Ok(None)
    ensures ':' !in name && (name == "" || (name[0] !in " \t" && name[|name| - 1] in " \t")) ==>
      ParseField(name + ":" + rest) == Err(BadFieldName)
  {
    hide Trim, IndexOf;
    if ':' !in header {
      NoSeparator(header, ':');
    }
    if ':' !in name {
      SplitAt(name, ':', rest);
      assert name + ":" + rest == name + [':'] + rest;
    }
  }

  /** A request line as it is written, with and without a version, and one without a target. */
  lemma RequestLineForm(verb: string, target: string, version: string)
    requires ' ' !in verb && ' ' !in target
    ensures SplitRequestLine(verb + " " + target + " " + version) == Some(RequestLine(verb, target, version))
    ensures SplitRequestLine(verb + " " + target) == Some(RequestLine(verb, target, "HTTP/1.1"))
    ensures SplitRequestLine(verb) == None
  {
    hide SplitRequestLine;
    WithVersion(verb, target, version);
    WithoutVersion(verb, target);
    NoTarget(verb);
  }

  lemma WithVersion(verb: string, target: string, version: string)
    requires ' ' !in verb && ' ' !in target
    ensures SplitRequestLine(verb + " " + target + " " + version) == Some(RequestLine(verb, target, version))
  {
    hide IndexOf;
    RequestTextIs(verb, target, version);
    SplitAt(verb, ' ', target + " " + version);
    SplitAt(target, ' ', version);
  }

  lemma WithoutVersion(verb: string, target: string)
    requires ' ' !in verb && ' ' !in target
    ensures SplitRequestLine(verb + " " + target) == Some(RequestLine(verb, target, "HTTP/1.1"))
  {
    hide IndexOf;
    NoSeparator(target, ' ');
    SplitAt(verb, ' ', target);
    assert target[..|target|] == target;
  }

  lemma NoTarget(verb: string)
    requires ' ' !in verb
    ensures SplitRequestLine(verb) == None
  {
    hide IndexOf;
    NoSeparator(verb, ' ');
  }

  /** The forwarded request keeps the client's method and version, and goes to the parsed target. */
  lemma ForwardedTarget(verb: string, target: string, version: string, headers: seq<string>, parse: UrlParser)
    requires ' ' !in verb && ' ' !in target && EncodesBlanks(parse)
    requires NoCrlf(verb + " " + target + " " + version) && forall i :: 0 <= i < |headers| ==> NoCrlf(headers[i])
    requires Rewrite(verb + " " + target + " " + version, headers, parse).Ok?
    ensures parse(target).Some?
    ensures var sent := Rewrite(verb + " " + target + " " + version, headers, parse).value;
      && sent.host == parse(target).value.host && sent.port == parse(target).value.port
      && ReadLines(sent.head) != [] && ReadLines(sent.head)[0] == verb + " " + parse(target).value.origin + " " + version
  {
    hide Rewrite, ParseFields, RequestFraming, Named, IsUpgrade, SplitRequestLine, RewrittenHead, GoodField, ReadLines, NoCrlf, KeptLines, EncodesBlanks;
    var line := verb + " " + target + " " + version;
    RequestLineForm(verb, target, version);
    var r, origin, fields := AcceptedParts(line, headers, parse);
    AcceptedReadsBack(r, origin, fields, line, headers);
  }

  // ----- Framing as section 6.3 has it -----

  /** Every outcome of the framing rule, with its refusal. */
  lemma FramingForm(version: string, lengths: seq<string>, codings: seq<string>)
    ensures codings != [] && lengths != [] ==> RequestFraming(version, lengths, codings) == Err(BothFramings)
    ensures codings != [] && lengths == [] && Lower(version) != "http/1.1" ==>
      RequestFraming(version, lengths, codings) == Err(TransferEncodingVersion)
    ensures codings != [] && lengths == [] && Lower(version) == "http/1.1" && "" in codings ==>
      RequestFraming(version, lengths, codings) == Err(BadTransferEncoding)
    ensures codings != [] && lengths == [] && Lower(version) == "http/1.1" && "" !in codings ==>
      RequestFraming(version, lengths, codings)
        == if Lower(codings[|codings| - 1]) == "chunked" && (forall i :: 0 <= i < |codings| - 1 ==> Lower(codings[i]) != "chunked")
           then Ok(Chunked) else Err(UnsupportedCoding)
    ensures codings == [] && lengths == [] ==> RequestFraming(version, lengths, codings) == Ok(Empty)
    ensures codings == [] && lengths != [] ==>
      RequestFraming(version, lengths, codings)
        == if lengths[0] != "" && AllDigits(lengths[0]) && (forall i :: 0 <= i < |lengths| ==> lengths[i] == lengths[0])
              && DecimalValue(lengths[0]) < 0x1_0000_0000_0000_0000
           then (if DecimalValue(lengths[0]) == 0 then Ok(Empty) else Ok(Length(DecimalValue(lengths[0]))))
           else Err(BadContentLength)
  {
    hide Lower, DecimalValue, CountSame;
    LowerProtocol();
    if codings != [] {
      CountsLast(codings);
      var front := codings[..|codings| - 1];
      assert Contains(front, "chunked") <==> exists i :: 0 <= i < |front| && Lower(front[i]) == "chunked";
      assert forall i :: 0 <= i < |front| ==> front[i] == codings[i];
    }
  }

  lemma LowerProtocol()
    ensures Lower("HTTP/1.1") == "http/1.1" && Lower("chunked") == "chunked"
  {
    assert Lower("HTTP/1.1") == "http/1.1";
    LowerIsSelf("chunked");
  }
}
