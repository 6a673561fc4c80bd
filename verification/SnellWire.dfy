/**
 The record layer under the session reader: what src/snell/record.rs reads from
 the bytes of a connection is what src/snell/client.rs runs its sessions on.
 */
module SnellWire {
  import opened Prelude
  import opened SnellRecord
  import Session = SnellReader
  import Pool = SnellPool

  function RecordOf(kind: Kind, payload: Octets): Session.Record {
    if kind.Zero? then Session.End else Session.Data(payload)
  }

  function RecordsOf(fs: seq<Frame>): seq<Session.Record> {
    if fs == [] then [] else [RecordOf(KindOf(fs[0]), fs[0].payload)] + RecordsOf(fs[1..])
  }

  lemma ReadConsumes(c: Cipher, k: nat, input: Octets)
    ensures ReadFrame(c, k, input).Ok? ==> |ReadFrame(c, k, input).value.rest| < |input|
  {
  }

  /** Everything a reader yields from an input, down to the failure that ends it. */
  function RecordsIn(c: Cipher, k: nat, input: Octets): seq<Session.Record>
    decreases |input|
  {
    ReadConsumes(c, k, input);
    var r := ReadFrame(c, k, input);
    if r.Err? then [Session.Broken]
    else [RecordOf(r.value.kind, r.value.payload)] + RecordsIn(c, r.value.opens, r.value.rest)
  }

  /** Reads frames until one fails. */
  method ReadRecords(reader: RecordReader) returns (records: seq<Session.Record>)
    requires reader.Valid()
    modifies reader, reader.nonce
    ensures old(reader.Session()).None? ==> records == [Session.Broken]
    ensures old(reader.Session()).Some? ==>
      records == RecordsIn(old(reader.Session()).value.0, old(reader.opens), old(reader.Session()).value.1)
  {
    hide ReadFrame, RecordOf;
    records := [];
    ghost var start := reader.Session();
    if reader.Session().None? {
      return [Session.Broken];
    }
    ghost var cipher := start.value.0;
    ghost var all := RecordsIn(cipher, reader.opens, start.value.1);
    while true
      invariant reader.Valid() && reader.Session().Some? && reader.Session().value.0 == cipher
      invariant records + RecordsIn(cipher, reader.opens, reader.Session().value.1) == all
      decreases |reader.Session().value.1|
    {
      ghost var opens, input := reader.opens, reader.Session().value.1;
      ReadConsumes(cipher, opens, input);
      var r, frame := reader.ReadFrameInto();
      if r.Err? {
        return records + [Session.Broken];
      }
      Regroup(records, [RecordOf(r.value, frame)], RecordsIn(cipher, reader.opens, reader.input));
      records := records + [RecordOf(r.value, frame)];
    }
  }

  /** The records of any legal frames, with any padding, and of what follows them. */
  lemma {:induction false} WireRecords(c: Cipher, k: nat, fs: seq<Frame>, tail: Octets)
    requires Lawful(c) && forall i :: 0 <= i < |fs| ==> LegalFrame(fs[i])
    ensures RecordsIn(c, k, StreamBytes(c, k, fs) + tail) == RecordsOf(fs) + RecordsIn(c, k + TotalSeals(fs), tail)
    decreases |fs|
  {
    hide ReadFrame, FrameBytes, RecordOf, LegalFrame, Lawful;
    if fs == [] {
      assert StreamBytes(c, k, fs) + tail == tail;
      assert RecordsOf(fs) + RecordsIn(c, k, tail) == RecordsIn(c, k, tail);
    } else {
      var next := k + Seals(fs[0]);
      var rest := StreamBytes(c, next, fs[1..]) + tail;
      WireRecords(c, next, fs[1..], tail);
      FrameRoundTrip(c, k, fs[0], rest);
      Regroup(FrameBytes(c, k, fs[0]), StreamBytes(c, next, fs[1..]), tail);
      Regroup([RecordOf(KindOf(fs[0]), fs[0].payload)], RecordsOf(fs[1..]), RecordsIn(c, next + TotalSeals(fs[1..]), tail));
    }
  }

  // ----- What a server writes -----

  const ZERO_FRAME := Frame([], [])

  predicate IsDataFrame(f: Frame) { LegalFrame(f) && f.payload != [] }

  ghost predicate DataOnly(fs: seq<Frame>) { forall i :: 0 <= i < |fs| ==> IsDataFrame(fs[i]) }

  /** Sessions of data frames, a zero frame after each. */
  function Served(sessions: seq<seq<Frame>>): seq<Frame> {
    if sessions == [] then [] else sessions[0] + [ZERO_FRAME] + Served(sessions[1..])
  }

  lemma {:induction false} ServedIsLegal(sessions: seq<seq<Frame>>)
    requires forall k :: 0 <= k < |sessions| ==> DataOnly(sessions[k])
    ensures forall f :: f in Served(sessions) ==> LegalFrame(f)
  {
    if sessions != [] {
      ServedIsLegal(sessions[1..]);
      assert DataOnly(sessions[0]);
    }
  }

  lemma {:induction false} RecordsConcat(a: seq<Frame>, b: seq<Frame>)
    ensures RecordsOf(a + b) == RecordsOf(a) + RecordsOf(b)
    decreases |a|
  {
    hide RecordOf;
    if a == [] {
      assert a + b == b;
    } else {
      assert (a + b)[1..] == a[1..] + b;
      RecordsConcat(a[1..], b);
    }
  }

  /** In front of a zero record, data frames make one session of their payloads. */
  lemma {:induction false} FirstSession(fs: seq<Frame>, rest: seq<Session.Record>)
    requires DataOnly(fs)
    ensures var stream := RecordsOf(fs) + [Session.End] + rest;
      && Session.SessionBytes(stream) == Payloads(fs) && Session.Terminated(stream) && Session.AfterEnd(stream) == rest
    decreases |fs|
  {
    var stream := RecordsOf(fs) + [Session.End] + rest;
    if fs == [] {
      assert stream[1..] == rest;
    } else {
      assert IsDataFrame(fs[0]);
      FirstSession(fs[1..], rest);
      assert stream[1..] == RecordsOf(fs[1..]) + [Session.End] + rest;
    }
  }

  /** The stream in front of the k-th session. */
  lemma {:induction false} SessionOnWire(sessions: seq<seq<Frame>>, tail: seq<Session.Record>, k: nat)
    requires k <= |sessions| && forall j :: 0 <= j < |sessions| ==> DataOnly(sessions[j])
    ensures Session.SessionStart(RecordsOf(Served(sessions)) + tail, k) == RecordsOf(Served(sessions[k..])) + tail
    decreases k
  {
    hide RecordsOf, Served, DataOnly;
    if k == 0 {
      assert sessions[0..] == sessions;
    } else {
      SessionOnWire(sessions, tail, k - 1);
      var rest := sessions[k - 1..];
      assert rest[0] == sessions[k - 1] && rest[1..] == sessions[k..];
      OneServed(rest, tail);
      FirstSession(rest[0], RecordsOf(Served(rest[1..])) + tail);
    }
  }

  lemma OneServed(sessions: seq<seq<Frame>>, tail: seq<Session.Record>)
    requires sessions != []
    ensures RecordsOf(Served(sessions)) + tail
         == RecordsOf(sessions[0]) + [Session.End] + (RecordsOf(Served(sessions[1..])) + tail)
  {
    hide RecordsOf;
    var rest := Served(sessions[1..]);
    RecordsConcat(sessions[0] + [ZERO_FRAME], rest);
    RecordsConcat(sessions[0], [ZERO_FRAME]);
    ZeroFrameEnds();
    Regroup(RecordsOf(sessions[0]) + [Session.End], RecordsOf(rest), tail);
  }

  lemma ZeroFrameEnds()
    ensures RecordsOf([ZERO_FRAME]) == [Session.End]
  {
  }

  /** The k-th session of the stream is the server's k-th, to the byte. */
  lemma SessionFromWire(sessions: seq<seq<Frame>>, tail: seq<Session.Record>, k: nat)
    requires k < |sessions| && forall j :: 0 <= j < |sessions| ==> DataOnly(sessions[j])
    ensures var start := Session.SessionStart(RecordsOf(Served(sessions)) + tail, k);
      Session.SessionBytes(start) == Payloads(sessions[k]) && Session.Terminated(start)
  {
    hide RecordsOf, Served, DataOnly;
    SessionOnWire(sessions, tail, k);
    OneServed(sessions[k..], tail);
    FirstSession(sessions[k], RecordsOf(Served(sessions[k..][1..])) + tail);
  }

  /**
   A client reads a connection's bytes: the server's salt, its sessions in legal
   frames with any padding, and anything after them. The k-th session delivers
   the payloads of the server's k-th, for every way of cutting them into frames.
   */
  method RunWire(derive: KeyDerivation, salt: Octets, ghost sessions: seq<seq<Frame>>, input: Octets, ghost tail: Octets, plans: seq<Session.Plan>)
    returns (rans: seq<Session.Ran>)
    requires |salt| == 16 && Lawful(derive(salt)) && forall k :: 0 <= k < |sessions| ==> DataOnly(sessions[k])
    requires input == salt + (StreamBytes(derive(salt), 0, Served(sessions)) + tail)
    ensures |rans| <= |plans|
    ensures forall k :: 0 <= k < |rans| && k < |sessions| ==>
      && Session.SessionRan(Payloads(sessions[k]), true, plans[k].ops, rans[k])
      && Session.ByTheBytes(Payloads(sessions[k]), true, plans[k].ops, rans[k])
      && (k < |rans| - 1 ==> Session.MayFollow(Payloads(sessions[k]), true, plans[k], rans[k]))
      && (k == |rans| - 1 && |rans| < |plans| ==> !Session.MayFollow(Payloads(sessions[k]), true, plans[k], rans[k]))
    ensures rans == [] ==> plans == []
  {
    hide StreamBytes, Served, RecordsOf, RecordsIn, Lawful, DataOnly, Session.SessionRan, Session.ByTheBytes, Session.MayFollow;
    var reader := new RecordReader(derive, input);
    ghost var cipher, body := derive(salt), StreamBytes(derive(salt), 0, Served(sessions)) + tail;
    assert input[..16] == salt && input[16..] == body;
    var records := ReadRecords(reader);
    ServedIsLegal(sessions);
    WireRecords(cipher, 0, Served(sessions), tail);
    ghost var more := RecordsIn(cipher, 0 + TotalSeals(Served(sessions)), tail);
    assert records == RecordsOf(Served(sessions)) + more;
    rans := Session.RunConnection(records, plans);
    forall k | 0 <= k < |rans| && k < |sessions|
      ensures Session.SessionRan(Payloads(sessions[k]), true, plans[k].ops, rans[k])
      ensures var start := Session.SessionStart(records, k);
        Session.SessionBytes(start) == Payloads(sessions[k]) && Session.Terminated(start)
    {
      SessionFromWire(sessions, more, k);
      assert Session.DeliveredBy(records, k, plans[k], rans[k]);
    }
  }

  // ----- What a client writes -----

  function AllFrames(contents: seq<Octets>): seq<Frame> {
    if contents == [] then [] else AllFrames(contents[..|contents| - 1]) + DataFrames(contents[|contents| - 1])
  }

  lemma {:induction false} PayloadsConcat(a: seq<Frame>, b: seq<Frame>)
    ensures Payloads(a + b) == Payloads(a) + Payloads(b)
    decreases |a|
  {
    if a == [] {
      assert a + b == b;
    } else {
      assert (a + b)[1..] == a[1..] + b;
      PayloadsConcat(a[1..], b);
    }
  }

  lemma {:induction false} AllFramesCarryContents(contents: seq<Octets>)
    ensures Payloads(AllFrames(contents)) == Session.Joined(contents)
    ensures DataOnly(AllFrames(contents))
  {
    hide DataFrames;
    if contents != [] {
      var last := contents[|contents| - 1];
      AllFramesCarryContents(contents[..|contents| - 1]);
      DataFramesCarryContent(last);
      PayloadsConcat(AllFrames(contents[..|contents| - 1]), DataFrames(last));
    }
  }

  /** The writer has put exactly these frames on the wire, after a salt sent before. */
  ghost predicate Wrote(writer: RecordWriter, fs: seq<Frame>)
    reads writer, writer.nonce
  {
    && writer.Valid() && writer.saltSent && !writer.failed
    && writer.wire == StreamBytes(writer.cipher, 0, fs) && |writer.sealed| == TotalSeals(fs)
  }

  lemma NoFrames(c: Cipher)
    ensures AllFrames([]) == [] && StreamBytes(c, 0, []) == [] && TotalSeals([]) == 0
  {
  }

  lemma MoreFrames(c: Cipher, before: seq<Frame>, more: seq<Frame>)
    ensures StreamBytes(c, 0, before + more) == StreamBytes(c, 0, before) + StreamBytes(c, TotalSeals(before), more)
    ensures TotalSeals(before + more) == TotalSeals(before) + TotalSeals(more)
  {
    hide StreamBytes, TotalSeals;
    StreamConcat(c, 0, before, more);
  }

  lemma OneFrame(c: Cipher, k: nat, f: Frame)
    ensures StreamBytes(c, k, [f]) == FrameBytes(c, k, f) && TotalSeals([f]) == Seals(f)
  {
    hide FrameBytes;
    assert [f][1..] == [];
    assert FrameBytes(c, k, f) + [] == FrameBytes(c, k, f);
  }

  method WriteOne(writer: RecordWriter, payload: Octets, padding: Octets, ghost before: seq<Frame>) returns (ok: bool)
    requires Wrote(writer, before) && LegalFrame(Frame(payload, padding))
    modifies writer, writer.nonce
    ensures writer.Valid() && ok == !writer.failed
    ensures ok ==> Wrote(writer, before + [Frame(payload, padding)])
  {
    hide StreamBytes, TotalSeals, FrameBytes;
    var r := writer.WriteFrame(payload, |padding|, Some(padding));
    ok := r.Ok?;
    if ok {
      ghost var f := Frame(payload, padding);
      MoreFrames(writer.cipher, before, [f]);
      OneFrame(writer.cipher, TotalSeals(before), f);
      assert old(writer.wire) + [] == old(writer.wire);
    }
  }

  method WriteContents(writer: RecordWriter, contents: seq<Octets>, ghost before: seq<Frame>) returns (ok: bool)
    requires Wrote(writer, before)
    modifies writer, writer.nonce
    ensures writer.Valid() && ok == !writer.failed
    ensures ok ==> Wrote(writer, before + AllFrames(contents))
  {
    hide StreamBytes, DataFrames, TotalSeals, AllFrames;
    NoFrames(writer.cipher);
    assert before + [] == before;
    for i := 0 to |contents|
      invariant Wrote(writer, before + AllFrames(contents[..i]))
    {
      ghost var done := before + AllFrames(contents[..i]);
      var r := writer.WritePayload(contents[i]);
      if r.Err? {
        return false;
      }
      MoreFrames(writer.cipher, done, DataFrames(contents[i]));
      OneMoreContent(before, contents, i);
    }
    assert contents[..|contents|] == contents;
    return true;
  }

  lemma OneMoreContent(before: seq<Frame>, contents: seq<Octets>, i: nat)
    requires i < |contents|
    ensures before + AllFrames(contents[..i + 1]) == before + AllFrames(contents[..i]) + DataFrames(contents[i])
  {
    hide DataFrames;
    assert contents[..i + 1][..i] == contents[..i];
  }

  /** What a server that knows the salt reads from what was written. */
  method ReadBack(derive: KeyDerivation, writer: RecordWriter, ghost fs: seq<Frame>) returns (records: seq<Session.Record>)
    requires writer.cipher == derive(writer.salt) && Lawful(writer.cipher) && Wrote(writer, fs)
    requires forall i :: 0 <= i < |fs| ==> LegalFrame(fs[i])
    ensures records == RecordsOf(fs) + [Session.Broken]
  {
    hide StreamBytes, TotalSeals, RecordsOf, RecordsIn, Lawful, LegalFrame;
    var reader := new RecordReader.WithSalt(derive, writer.salt, writer.wire);
    records := ReadRecords(reader);
    WireRecords(writer.cipher, 0, fs, []);
    assert StreamBytes(writer.cipher, 0, fs) + [] == StreamBytes(writer.cipher, 0, fs);
    NothingIn(writer.cipher, TotalSeals(fs));
  }

  /**
   A client writes some contents; its identity message has carried the salt.
   Unless the transport failed, the server reads exactly those bytes, as data
   records only.
   */
  method WriteAndRead(derive: KeyDerivation, writer: RecordWriter, contents: seq<Octets>) returns (records: seq<Session.Record>)
    requires writer.Valid() && writer.cipher == derive(writer.salt) && Lawful(writer.cipher)
    requires writer.wire == [] && writer.sealed == [] && !writer.failed
    modifies writer, writer.nonce
    ensures !writer.failed ==>
      && records == RecordsOf(AllFrames(contents)) + [Session.Broken]
      && Session.SessionBytes(records) == Session.Joined(contents) && !Session.Terminated(records)
  {
    hide StreamBytes, TotalSeals, RecordsOf, AllFrames, Lawful, DataOnly;
    writer.MarkSaltSent();
    NoFrames(writer.cipher);
    var ok := WriteContents(writer, contents, []);
    if !ok {
      return [];
    }
    ghost var fs := AllFrames(contents);
    assert [] + fs == fs;
    AllFramesCarryContents(contents);
    DataIsLegal(fs);
    records := ReadBack(derive, writer, fs);
    Unended(fs);
  }

  lemma DataIsLegal(fs: seq<Frame>)
    requires DataOnly(fs)
    ensures forall i :: 0 <= i < |fs| ==> LegalFrame(fs[i])
  {
    assert forall i :: 0 <= i < |fs| ==> IsDataFrame(fs[i]);
  }

  lemma NothingIn(c: Cipher, k: nat)
    ensures RecordsIn(c, k, []) == [Session.Broken]
  {
  }

  lemma {:induction false} Unended(fs: seq<Frame>)
    requires DataOnly(fs)
    ensures var stream := RecordsOf(fs) + [Session.Broken];
      Session.SessionBytes(stream) == Payloads(fs) && !Session.Terminated(stream)
    decreases |fs|
  {
    var stream := RecordsOf(fs) + [Session.Broken];
    if fs != [] {
      assert IsDataFrame(fs[0]);
      Unended(fs[1..]);
      assert stream[1..] == RecordsOf(fs[1..]) + [Session.Broken];
    }
  }

  // ----- A client's whole sessions, and the trace they leave -----

  /** One session of a client: its CONNECT with the padding it drew, and its writes. */
  datatype ClientSession = ClientSession(request: Octets, padding: Octets, contents: seq<Octets>)

  predicate Writable(s: ClientSession) { IsDataFrame(Frame(s.request, s.padding)) }

  /** The frames of a session but its zero frame. */
  function SessionFrames(s: ClientSession): seq<Frame> { [Frame(s.request, s.padding)] + AllFrames(s.contents) }

  function ClientFrames(sessions: seq<ClientSession>): (fs: seq<seq<Frame>>)
    ensures |fs| == |sessions|
  {
    seq(|sessions|, i requires 0 <= i < |sessions| => SessionFrames(sessions[i]))
  }

  /** How many data records each session has. */
  function DataCounts(sessions: seq<ClientSession>): (counts: seq<nat>)
    ensures |counts| == |sessions|
  {
    seq(|sessions|, i requires 0 <= i < |sessions| => |AllFrames(sessions[i].contents)|)
  }

  /** The records of a connection as its server takes them: the first of a session is its CONNECT. */
  function TraceOf(records: seq<Session.Record>, open: bool): seq<Pool.ClientRecord> {
    if records == [] || records[0].Broken? then []
    else if records[0].End? then [Pool.ZeroRecord] + TraceOf(records[1..], false)
    else [if open then Pool.DataRecord else Pool.Connect] + TraceOf(records[1..], true)
  }

  lemma {:induction false} DataTrace(fs: seq<Frame>, rest: seq<Session.Record>)
    requires DataOnly(fs)
    ensures TraceOf(RecordsOf(fs) + rest, true) == Pool.Repeat(|fs|) + TraceOf(rest, true)
    decreases |fs|
  {
    hide DataOnly;
    if fs == [] {
      assert RecordsOf(fs) + rest == rest;
      assert Pool.Repeat(0) == [];
    } else {
      FirstIsData(fs);
      DataTrace(fs[1..], rest);
      assert (RecordsOf(fs) + rest)[1..] == RecordsOf(fs[1..]) + rest;
      assert Pool.Repeat(|fs|) == [Pool.DataRecord] + Pool.Repeat(|fs| - 1);
      Regroup([Pool.DataRecord], Pool.Repeat(|fs| - 1), TraceOf(rest, true));
    }
  }

  lemma FirstIsData(fs: seq<Frame>)
    requires DataOnly(fs) && fs != []
    ensures DataOnly(fs[1..]) && RecordOf(KindOf(fs[0]), fs[0].payload).Data?
  {
    assert IsDataFrame(fs[0]);
    forall i | 0 <= i < |fs[1..]| ensures IsDataFrame(fs[1..][i]) {
      assert fs[1..][i] == fs[i + 1];
    }
  }

  /** One session: a CONNECT, its data records and one zero record. */
  lemma SessionTrace(s: ClientSession, rest: seq<Session.Record>)
    requires Writable(s)
    ensures TraceOf(RecordsOf(SessionFrames(s)) + [Session.End] + rest, false)
         == [Pool.Connect] + Pool.Repeat(|AllFrames(s.contents)|) + [Pool.ZeroRecord] + TraceOf(rest, false)
  {
    hide AllFrames, DataOnly, RecordsOf, Pool.Repeat;
    var first, data := Frame(s.request, s.padding), AllFrames(s.contents);
    var more := [Session.End] + rest;
    AllFramesCarryContents(s.contents);
    RecordsConcat([first], data);
    OneRecord(first);
    DataTrace(data, more);
    assert more[1..] == rest;
    var head := [RecordOf(KindOf(first), first.payload)];
    Regroup(head, RecordsOf(data), more);
    Regroup(head + RecordsOf(data), [Session.End], rest);
    assert (head + (RecordsOf(data) + more))[1..] == RecordsOf(data) + more;
    Regroup([Pool.Connect], Pool.Repeat(|data|), [Pool.ZeroRecord] + TraceOf(rest, false));
    Regroup([Pool.Connect] + Pool.Repeat(|data|), [Pool.ZeroRecord], TraceOf(rest, false));
  }

  lemma OneRecord(f: Frame)
    ensures RecordsOf([f]) == [RecordOf(KindOf(f), f.payload)]
  {
    assert [f][1..] == [];
  }

  /** The trace of whole sessions, counted from the front. */
  function TraceFrom(sessions: seq<ClientSession>): seq<Pool.ClientRecord> {
    if sessions == [] then []
    else [Pool.Connect] + Pool.Repeat(|AllFrames(sessions[0].contents)|) + [Pool.ZeroRecord] + TraceFrom(sessions[1..])
  }

  lemma {:induction false} ServedTrace(sessions: seq<ClientSession>, rest: seq<Session.Record>)
    requires forall i :: 0 <= i < |sessions| ==> Writable(sessions[i])
    ensures TraceOf(RecordsOf(Served(ClientFrames(sessions))) + rest, false) == TraceFrom(sessions) + TraceOf(rest, false)
    decreases |sessions|
  {
    hide RecordsOf, TraceOf, AllFrames, SessionFrames, Writable;
    if sessions == [] {
      NoRecords();
      assert RecordsOf(Served(ClientFrames(sessions))) + rest == rest;
    } else {
      var frames := ClientFrames(sessions);
      assert frames[1..] == ClientFrames(sessions[1..]);
      OneServed(frames, rest);
      SessionTrace(sessions[0], RecordsOf(Served(frames[1..])) + rest);
      ServedTrace(sessions[1..], rest);
    }
  }

  lemma NoRecords()
    ensures RecordsOf([]) == []
  {
  }

  lemma {:induction false} TraceFromSnoc(sessions: seq<ClientSession>, s: ClientSession)
    ensures TraceFrom(sessions + [s])
         == TraceFrom(sessions) + [Pool.Connect] + Pool.Repeat(|AllFrames(s.contents)|) + [Pool.ZeroRecord]
    decreases |sessions|
  {
    hide AllFrames, Pool.Repeat;
    var last := [Pool.Connect] + Pool.Repeat(|AllFrames(s.contents)|) + [Pool.ZeroRecord];
    if sessions == [] {
      assert sessions + [s] == [s] && [s][1..] == [];
      assert TraceFrom([s]) == last + [] == [] + last;
    } else {
      var first := [Pool.Connect] + Pool.Repeat(|AllFrames(sessions[0].contents)|) + [Pool.ZeroRecord];
      assert (sessions + [s])[1..] == sessions[1..] + [s] && (sessions + [s])[0] == sessions[0];
      TraceFromSnoc(sessions[1..], s);
      Regroup(first, TraceFrom(sessions[1..]), last);
    }
    Regroup(TraceFrom(sessions), [Pool.Connect], Pool.Repeat(|AllFrames(s.contents)|));
    Regroup(TraceFrom(sessions), [Pool.Connect] + Pool.Repeat(|AllFrames(s.contents)|), [Pool.ZeroRecord]);
  }

  /** Both counts of the trace agree. */
  lemma {:induction false} TraceIsSessions(sessions: seq<ClientSession>)
    ensures TraceFrom(sessions) == Pool.Sessions(DataCounts(sessions))
    decreases |sessions|
  {
    hide AllFrames, TraceFrom;
    if sessions == [] {
      NoTrace();
      assert DataCounts(sessions) == [];
    } else {
      var front, last := sessions[..|sessions| - 1], sessions[|sessions| - 1];
      TraceIsSessions(front);
      TraceFromSnoc(front, last);
      assert front + [last] == sessions;
      assert DataCounts(sessions)[..|sessions| - 1] == DataCounts(front);
    }
  }

  lemma NoTrace()
    ensures TraceFrom([]) == [] && Pool.Sessions([]) == []
  {
  }

  method WriteSession(writer: RecordWriter, s: ClientSession, ghost before: seq<Frame>) returns (ok: bool)
    requires Wrote(writer, before) && Writable(s)
    modifies writer, writer.nonce
    ensures writer.Valid() && ok == !writer.failed
    ensures ok ==> Wrote(writer, before + SessionFrames(s) + [ZERO_FRAME])
  {
    hide Wrote, AllFrames;
    ok := WriteOne(writer, s.request, s.padding, before);
    if !ok {
      return;
    }
    ghost var connected := before + [Frame(s.request, s.padding)];
    ok := WriteContents(writer, s.contents, connected);
    if !ok {
      return;
    }
    Regroup(before, [Frame(s.request, s.padding)], AllFrames(s.contents));
    ok := WriteOne(writer, [], [], connected + AllFrames(s.contents));
  }

  lemma {:induction false} ServedSnoc(sessions: seq<seq<Frame>>, fs: seq<Frame>)
    ensures Served(sessions + [fs]) == Served(sessions) + fs + [ZERO_FRAME]
    decreases |sessions|
  {
    if sessions == [] {
      assert sessions + [fs] == [fs] && [fs][1..] == [];
    } else {
      assert (sessions + [fs])[1..] == sessions[1..] + [fs];
      ServedSnoc(sessions[1..], fs);
    }
  }

  method WriteAllSessions(writer: RecordWriter, sessions: seq<ClientSession>) returns (ok: bool)
    requires Wrote(writer, []) && forall i :: 0 <= i < |sessions| ==> Writable(sessions[i])
    modifies writer, writer.nonce
    ensures writer.Valid() && ok == !writer.failed
    ensures ok ==> Wrote(writer, Served(ClientFrames(sessions)))
  {
    hide Wrote, Served, SessionFrames, Writable;
    NothingServed();
    for i := 0 to |sessions|
      invariant Wrote(writer, Served(ClientFrames(sessions[..i])))
    {
      ok := WriteSession(writer, sessions[i], Served(ClientFrames(sessions[..i])));
      if !ok {
        return;
      }
      assert ClientFrames(sessions[..i + 1]) == ClientFrames(sessions[..i]) + [SessionFrames(sessions[i])];
      ServedSnoc(ClientFrames(sessions[..i]), SessionFrames(sessions[i]));
    }
    assert sessions[..|sessions|] == sessions;
    ok := true;
    WroteMeans(writer, Served(ClientFrames(sessions)));
  }

  lemma WroteMeans(writer: RecordWriter, fs: seq<Frame>)
    requires Wrote(writer, fs)
    ensures writer.Valid() && !writer.failed
  {
  }

  /** The k-th session of a stream is this session's request and contents. */
  ghost predicate Carries(records: seq<Session.Record>, k: nat, s: ClientSession) {
    var start := Session.SessionStart(records, k);
    Session.SessionBytes(start) == s.request + Session.Joined(s.contents) && Session.Terminated(start)
  }

  lemma SessionsReadBack(sessions: seq<ClientSession>)
    requires forall i :: 0 <= i < |sessions| ==> Writable(sessions[i])
    ensures var records := RecordsOf(Served(ClientFrames(sessions))) + [Session.Broken];
      && TraceOf(records, false) == Pool.Sessions(DataCounts(sessions))
      && forall k :: 0 <= k < |sessions| ==> Carries(records, k, sessions[k])
    ensures forall f :: f in Served(ClientFrames(sessions)) ==> LegalFrame(f)
  {
    hide RecordsOf, Served, DataOnly, TraceOf, SessionFrames, Writable, LegalFrame;
    var frames := ClientFrames(sessions);
    forall k | 0 <= k < |sessions|
      ensures DataOnly(frames[k]) && Payloads(frames[k]) == sessions[k].request + Session.Joined(sessions[k].contents)
    {
      SessionData(sessions[k]);
    }
    ServedIsLegal(frames);
    ServedTrace(sessions, [Session.Broken]);
    TraceIsSessions(sessions);
    BrokenTrace();
    assert TraceFrom(sessions) + [] == TraceFrom(sessions);
    forall k | 0 <= k < |sessions| ensures Carries(RecordsOf(Served(frames)) + [Session.Broken], k, sessions[k]) {
      SessionFromWire(frames, [Session.Broken], k);
    }
  }

  /**
   A client writes whole sessions over one connection. Unless the transport
   failed, the server reads exactly the trace of CONNECTs, data records and
   zero records that the pool accounts for, and the k-th session's bytes are
   its request and its contents.
   */
  method WriteSessions(derive: KeyDerivation, writer: RecordWriter, sessions: seq<ClientSession>) returns (records: seq<Session.Record>)
    requires writer.Valid() && writer.cipher == derive(writer.salt) && Lawful(writer.cipher)
    requires writer.wire == [] && writer.sealed == [] && !writer.failed
    requires forall i :: 0 <= i < |sessions| ==> Writable(sessions[i])
    modifies writer, writer.nonce
    ensures !writer.failed ==>
      && TraceOf(records, false) == Pool.Sessions(DataCounts(sessions))
      && forall k :: 0 <= k < |sessions| ==> Carries(records, k, sessions[k])
  {
    hide StreamBytes, TotalSeals, RecordsOf, Lawful, Served, TraceOf, Writable, Carries, LegalFrame, ClientFrames, DataCounts;
    writer.MarkSaltSent();
    NoFrames(writer.cipher);
    var ok := WriteAllSessions(writer, sessions);
    if !ok {
      return [];
    }
    SessionsReadBack(sessions);
    records := ReadBack(derive, writer, Served(ClientFrames(sessions)));
  }

  lemma NothingServed()
    ensures Served(ClientFrames([])) == []
  {
  }

  lemma BrokenTrace()
    ensures TraceOf([Session.Broken], false) == []
  {
  }

  lemma SessionData(s: ClientSession)
    requires Writable(s)
    ensures DataOnly(SessionFrames(s)) && Payloads(SessionFrames(s)) == s.request + Session.Joined(s.contents)
  {
    hide AllFrames;
    var first := Frame(s.request, s.padding);
    AllFramesCarryContents(s.contents);
    PayloadsConcat([first], AllFrames(s.contents));
    assert [first][1..] == [];
    assert Payloads([first]) == s.request + [];
  }
}
