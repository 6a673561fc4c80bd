/**
 Summing the journal over a time window (src/traffic.rs): the scan line by line
 against the records the file holds.
 */
module TrafficQuery {
  import opened Prelude
  import opened TrafficJournal
  import opened TrafficRecorder

  datatype QueryError = BadWindow | Oversized(index: nat) | BadRecord(index: nat) | Overflow

  datatype Report = Report(samples: nat, first: Option<nat>, last: Option<nat>, bytes: Bytes,
                           extended: nat, reversals: nat, incomplete: bool)

  datatype Totals = Totals(report: Report, upload: nat, download: nat, total: nat)

  predicate InWindow(t: nat, from: Option<nat>, to: Option<nat>) {
    (from.Some? ==> from.value <= t) && (to.Some? ==> t < to.value)
  }

  /** A report with one more sample, its sums unbounded. */
  function Note(r: Report, s: Sample): Report {
    Report(r.samples + 1,
           Some(if r.first.Some? && r.first.value <= s.timestamp then r.first.value else s.timestamp),
           Some(if r.last.Some? && r.last.value >= s.timestamp then r.last.value else s.timestamp),
           Plus(r.bytes, s.bytes),
           r.extended + (if s.timestamp > s.since + 65 then 1 else 0),
           r.reversals + (if s.timestamp < s.since then 1 else 0),
           r.incomplete)
  }

  const EMPTY := Report(0, None, None, ZERO, 0, 0, false)

  /** The scan from one line on. */
  function Scan(file: string, decode: Decoder, from: Option<nat>, to: Option<nat>, index: nat, r: Report): Result<Report, QueryError>
    decreases |file|
  {
    var line := ReadUntilLf(file, MAX_LINE + 1);
    if line == "" then Ok(r)
    else if |line| > MAX_LINE then Err(Oversized(index + 1))
    else if line[|line| - 1] != '\n' then Ok(r.(incomplete := true))
    else
      var s := decode(line);
      if s.None? then Err(BadRecord(index + 1))
      else if !InWindow(s.value.timestamp, from, to) then Scan(file[|line|..], decode, from, to, index + 1, r)
      else if !FitsU64(Plus(r.bytes, s.value.bytes)) then Err(Overflow)
      else Scan(file[|line|..], decode, from, to, index + 1, Note(r, s.value))
  }

  function Finish(r: Report): Result<Totals, QueryError> {
    var upload := r.bytes.tcpUpload + r.bytes.udpUpload;
    var download := r.bytes.tcpDownload + r.bytes.udpDownload;
    if upload >= U64_LIMIT || download >= U64_LIMIT || upload + download >= U64_LIMIT then Err(Overflow)
    else Ok(Totals(r, upload, download, upload + download))
  }

  function QueryResult(file: string, decode: Decoder, from: Option<nat>, to: Option<nat>): Result<Totals, QueryError> {
    if from.Some? && to.Some? && from.value >= to.value then Err(BadWindow)
    else
      var r :- Scan(file, decode, from, to, 0, EMPTY);
      Finish(r)
  }

  method Query(file: string, decode: Decoder, from: Option<nat>, to: Option<nat>) returns (r: Result<Totals, QueryError>)
    ensures r == QueryResult(file, decode, from, to)
  {
    hide ReadUntilLf, Note, InWindow, FitsU64;
    if from.Some? && to.Some? && from.value >= to.value {
      return Err(BadWindow);
    }
    var rest, index, report := file, 0, EMPTY;
    while true
      invariant Scan(file, decode, from, to, 0, EMPTY) == Scan(rest, decode, from, to, index, report)
      decreases |rest|
    {
      var line := ReadUntilLf(rest, MAX_LINE + 1);
      if line == "" {
        break;
      }
      index := index + 1;
      if |line| > MAX_LINE {
        return Err(Oversized(index));
      }
      if line[|line| - 1] != '\n' {
        report := report.(incomplete := true);
        rest := "";
        break;
      }
      var sample := decode(line);
      if sample.None? {
        return Err(BadRecord(index));
      }
      rest := rest[|line|..];
      if !InWindow(sample.value.timestamp, from, to) {
        continue;
      }
      if !FitsU64(Plus(report.bytes, sample.value.bytes)) {
        return Err(Overflow);
      }
      report := Note(report, sample.value);
    }
    r := Finish(report);
  }

  // ----- On a journal -----

  /** The records of a window. */
  function Selected(records: seq<Sample>, from: Option<nat>, to: Option<nat>): seq<Sample> {
    if records == [] then []
    else
      var last := records[|records| - 1];
      Selected(records[..|records| - 1], from, to) + if InWindow(last.timestamp, from, to) then [last] else []
  }

  function Noted(records: seq<Sample>): Report {
    if records == [] then EMPTY else Note(Noted(records[..|records| - 1]), records[|records| - 1])
  }

  lemma {:induction false} LinesFront(records: seq<Sample>)
    requires records != []
    ensures Lines(records) == Line(records[0]) + Lines(records[1..])
  {
    hide Line;
    if |records| == 1 {
      assert records[..0] == [] == records[1..];
    } else {
      var front, last := records[..|records| - 1], records[|records| - 1];
      LinesFront(front);
      assert front[1..] == records[1..][..|records| - 2];
      assert Line(records[0]) + Lines(front[1..]) + Line(last) == Line(records[0]) + (Lines(front[1..]) + Line(last));
    }
  }

  lemma {:induction false} SelectedConcat(a: seq<Sample>, b: seq<Sample>, from: Option<nat>, to: Option<nat>)
    ensures Selected(a + b, from, to) == Selected(a, from, to) + Selected(b, from, to)
  {
    hide InWindow;
    if b == [] {
      assert a + b == a;
    } else {
      SelectedConcat(a, b[..|b| - 1], from, to);
      assert (a + b)[..|a + b| - 1] == a + b[..|b| - 1];
    }
  }

  /** A window selects exactly the samples from its start on and before its end, in order. */
  lemma {:induction false} SelectedExactly(records: seq<Sample>, from: Option<nat>, to: Option<nat>)
    ensures forall s :: s in Selected(records, from, to) <==>
      s in records && (from == None || from.value <= s.timestamp) && (to == None || s.timestamp < to.value)
  {
    if records != [] {
      SelectedExactly(records[..|records| - 1], from, to);
      assert records == records[..|records| - 1] + [records[|records| - 1]];
    }
  }

  lemma {:induction false} NotedBytes(records: seq<Sample>)
    ensures Noted(records).bytes == Total(records) && Noted(records).incomplete == false
  {
    hide Plus;
    if records != [] {
      NotedBytes(records[..|records| - 1]);
    }
  }

  lemma FitsMonotone(a: Bytes, b: Bytes)
    requires FitsU64(Plus(a, b))
    ensures FitsU64(a)
  {
  }

  /** Through complete records the scan adds what the window selects, and overflows exactly if that does. */
  lemma {:induction false} ScanRecords(done: seq<Sample>, records: seq<Sample>, rest: string, decode: Decoder,
                                       from: Option<nat>, to: Option<nat>, index: nat)
    requires Faithful(decode) && AllFit(records) && FitsU64(Total(done))
    ensures var chosen := done + Selected(records, from, to);
      Scan(Lines(records) + rest, decode, from, to, index, Noted(done))
        == if FitsU64(Total(chosen)) then Scan(rest, decode, from, to, index + |records|, Noted(chosen)) else Err(Overflow)
    decreases |records|
  {
    hide Line, Lines, ReadUntilLf, Faithful, Noted, InWindow, FitsU64, Plus, Total, Scan;
    var chosen := done + Selected(records, from, to);
    if records == [] {
      assert chosen == done;
      NoLines();
      assert Lines(records) + rest == rest;
    } else {
      var s, more := records[0], records[1..];
      LinesFront(records);
      assert Lines(records) + rest == Line(s) + (Lines(more) + rest);
      ScanRecord(s, Lines(more) + rest, decode, from, to, index, Noted(done));
      assert [s] + more == records;
      SelectedConcat([s], more, from, to);
      assert [s][..0] == [];
      NotedBytes(done);
      if InWindow(s.timestamp, from, to) {
        assert Selected([s], from, to) == [s];
        assert done + ([s] + Selected(more, from, to)) == (done + [s]) + Selected(more, from, to);
        NotedSnoc(done, s);
        TotalConcat(done + [s], Selected(more, from, to));
        if FitsU64(Total(done + [s])) {
          ScanRecords(done + [s], more, rest, decode, from, to, index + 1);
        } else if FitsU64(Total(chosen)) {
          FitsMonotone(Total(done + [s]), Total(Selected(more, from, to)));
        }
      } else {
        assert Selected([s], from, to) == [];
        assert done + ([] + Selected(more, from, to)) == done + Selected(more, from, to);
        ScanRecords(done, more, rest, decode, from, to, index + 1);
      }
    }
  }

  lemma NotedSnoc(done: seq<Sample>, s: Sample)
    ensures Noted(done + [s]) == Note(Noted(done), s) && Total(done + [s]) == Plus(Total(done), s.bytes)
  {
    assert (done + [s])[..|done|] == done;
  }

  lemma ScanTail(tail: string, decode: Decoder, from: Option<nat>, to: Option<nat>, index: nat, r: Report)
    requires NoLf(tail) && |tail| <= MAX_LINE
    ensures Scan(tail, decode, from, to, index, r) == Ok(if tail == "" then r else r.(incomplete := true))
  {
    hide ReadUntilLf;
    ReadsAll(tail, MAX_LINE + 1);
  }

  lemma ScanRecord(s: Sample, rest: string, decode: Decoder, from: Option<nat>, to: Option<nat>, index: nat, r: Report)
    requires Faithful(decode) && Fits(s)
    ensures Scan(Line(s) + rest, decode, from, to, index, r)
         == if !InWindow(s.timestamp, from, to) then Scan(rest, decode, from, to, index + 1, r)
            else if !FitsU64(Plus(r.bytes, s.bytes)) then Err(Overflow)
            else Scan(rest, decode, from, to, index + 1, Note(r, s))
  {
    hide ReadUntilLf, Line, Note, InWindow, FitsU64, Plus;
    LineIsRecord(s);
    ReadsLine(Line(s), rest, MAX_LINE + 1);
    assert (Line(s) + rest)[|Line(s)|..] == rest;
  }

  function Everything(b: Bytes): nat { b.tcpUpload + b.tcpDownload + b.udpUpload + b.udpDownload }

  /** On complete records and a torn one, a query sums the window exactly, or overflows exactly when the sum does. */
  lemma QuerySumsWindow(records: seq<Sample>, tail: string, next: Sample, decode: Decoder, from: Option<nat>, to: Option<nat>)
    requires Faithful(decode) && AllFit(records) && Fits(next) && Torn(tail, next)
    requires from.Some? && to.Some? ==> from.value < to.value
    ensures var chosen := Selected(records, from, to);
      var r := QueryResult(Lines(records) + tail, decode, from, to);
      if Everything(Total(chosen)) < U64_LIMIT then
        r.Ok? && r.value.report == Noted(chosen).(incomplete := tail != "")
        && r.value.report.bytes == Total(chosen) && r.value.total == Everything(Total(chosen))
        && r.value.upload == Total(chosen).tcpUpload + Total(chosen).udpUpload
        && r.value.download == Total(chosen).tcpDownload + Total(chosen).udpDownload
      else r == Err(Overflow)
  {
    hide Lines, Scan, Noted, Faithful, Torn, Total, Selected;
    var chosen := Selected(records, from, to);
    TornIsShort(tail, next);
    NothingNoted();
    ScanRecords([], records, tail, decode, from, to, 0);
    assert [] + chosen == chosen;
    ScanTail(tail, decode, from, to, |records|, Noted(chosen));
    NotedBytes(chosen);
  }

  lemma ScanBadLine(bad: string, rest: string, decode: Decoder, from: Option<nat>, to: Option<nat>, index: nat, r: Report)
    requires NoLf(bad) && |bad| < MAX_LINE && decode(bad + "\n").None?
    ensures Scan(bad + "\n" + rest, decode, from, to, index, r) == Err(BadRecord(index + 1))
  {
    hide ReadUntilLf;
    ReadsLine(bad + "\n", rest, MAX_LINE + 1);
  }

  /** A corrupt complete line is never skipped: the query names its position, unless the sum overflows before it. */
  lemma QueryNamesBadRecord(records: seq<Sample>, bad: string, rest: string, decode: Decoder, from: Option<nat>, to: Option<nat>)
    requires Faithful(decode) && AllFit(records) && NoLf(bad) && |bad| < MAX_LINE && decode(bad + "\n").None?
    requires from.Some? && to.Some? ==> from.value < to.value
    ensures QueryResult(Lines(records) + (bad + "\n" + rest), decode, from, to)
         == if FitsU64(Total(Selected(records, from, to))) then Err(BadRecord(|records| + 1)) else Err(Overflow)
  {
    hide Lines, Scan, Noted, Faithful, Total, Selected, FitsU64;
    NothingNoted();
    NothingFits();
    ScanRecords([], records, bad + "\n" + rest, decode, from, to, 0);
    assert [] + Selected(records, from, to) == Selected(records, from, to);
    ScanBadLine(bad, rest, decode, from, to, |records|, Noted(Selected(records, from, to)));
  }

  lemma ScanLongLine(long: string, rest: string, decode: Decoder, from: Option<nat>, to: Option<nat>, index: nat, r: Report)
    requires NoLf(long) && |long| > 1024
    ensures Scan(long + rest, decode, from, to, index, r) == Err(Oversized(index + 1))
  {
    hide ReadUntilLf;
    var file := long + rest;
    var line := ReadUntilLf(file, MAX_LINE + 1);
    assert line == file[..|line|];
    assert forall i :: 0 <= i < 1025 ==> file[i] == long[i];
    if line != "" {
      assert file[|line| - 1] == line[|line| - 1];
    }
  }

  /** Neither is a line of over 1024 bytes. */
  lemma QueryNamesLongRecord(records: seq<Sample>, long: string, rest: string, decode: Decoder, from: Option<nat>, to: Option<nat>)
    requires Faithful(decode) && AllFit(records) && NoLf(long) && |long| > 1024
    requires from.Some? && to.Some? ==> from.value < to.value
    ensures QueryResult(Lines(records) + (long + rest), decode, from, to)
         == if FitsU64(Total(Selected(records, from, to))) then Err(Oversized(|records| + 1)) else Err(Overflow)
  {
    hide Lines, Scan, Noted, Faithful, Total, Selected, FitsU64;
    NothingNoted();
    NothingFits();
    ScanRecords([], records, long + rest, decode, from, to, 0);
    assert [] + Selected(records, from, to) == Selected(records, from, to);
    ScanLongLine(long, rest, decode, from, to, |records|, Noted(Selected(records, from, to)));
  }

  /** A window that ends where it starts, or before, is refused. */
  lemma EmptyWindow(file: string, decode: Decoder, from: nat, to: nat)
    ensures from >= to <==> QueryResult(file, decode, Some(from), Some(to)) == Err(BadWindow)
  {
    hide Scan;
    ScanNeverBadWindow(file, decode, Some(from), Some(to), 0, EMPTY);
  }

  lemma {:induction false} ScanNeverBadWindow(file: string, decode: Decoder, from: Option<nat>, to: Option<nat>, index: nat, r: Report)
    ensures Scan(file, decode, from, to, index, r) != Err(BadWindow)
    decreases |file|
  {
    hide ReadUntilLf, InWindow, Note;
    var line := ReadUntilLf(file, MAX_LINE + 1);
    if line != "" && |line| <= MAX_LINE && decode(line).Some? {
      ScanNeverBadWindow(file[|line|..], decode, from, to, index + 1, r);
      ScanNeverBadWindow(file[|line|..], decode, from, to, index + 1, Note(r, decode(line).value));
    }
  }

  lemma NothingFits()
    ensures FitsU64(ZERO)
  {
  }

  lemma NothingNoted()
    ensures Noted([]) == EMPTY && Total([]) == ZERO
  {
  }

  /** What the other figures of a report mean. */
  ghost predicate Describes(r: Report, records: seq<Sample>) {
    && r.samples == |records|
    && (records == [] ==> r.first.None? && r.last.None?)
    && (records != [] ==>
        && r.first.Some? && r.last.Some?
        && (exists i :: 0 <= i < |records| && records[i].timestamp == r.first.value)
        && (exists i :: 0 <= i < |records| && records[i].timestamp == r.last.value))
    && (forall i :: 0 <= i < |records| && r.first.Some? && r.last.Some? ==> r.first.value <= records[i].timestamp <= r.last.value)
  }

  lemma {:induction false} NotedDescribes(records: seq<Sample>)
    ensures Describes(Noted(records), records)
  {
    if records != [] {
      var front := records[..|records| - 1];
      NotedDescribes(front);
      if front != [] {
        var i :| 0 <= i < |front| && front[i].timestamp == Noted(front).first.value;
        var j :| 0 <= j < |front| && front[j].timestamp == Noted(front).last.value;
        assert records[i].timestamp == Noted(front).first.value && records[j].timestamp == Noted(front).last.value;
      }
    }
  }

  /** The samples taken late, and those whose clock ran backwards. */
  function Late(records: seq<Sample>): set<nat> {
    set i: nat | i < |records| && records[i].timestamp > records[i].since + 65
  }

  function Reversed(records: seq<Sample>): set<nat> {
    set i: nat | i < |records| && records[i].timestamp < records[i].since
  }

  lemma {:induction false} NotedCounts(records: seq<Sample>)
    ensures Noted(records).extended == |Late(records)| && Noted(records).reversals == |Reversed(records)|
  {
    hide Late, Reversed, Plus;
    if records == [] {
      NoneLate();
    } else {
      NotedCounts(records[..|records| - 1]);
      OneMoreLate(records);
      OneMoreReversed(records);
    }
  }

  lemma NoneLate()
    ensures Late([]) == {} && Reversed([]) == {}
  {
  }

  lemma OneMoreLate(records: seq<Sample>)
    requires records != []
    ensures var front, last := records[..|records| - 1], records[|records| - 1];
      |Late(records)| == |Late(front)| + if last.timestamp > last.since + 65 then 1 else 0
  {
    var front, last := records[..|records| - 1], records[|records| - 1];
    assert Late(records) == Late(front) + if last.timestamp > last.since + 65 then {|front|} else {};
  }

  lemma OneMoreReversed(records: seq<Sample>)
    requires records != []
    ensures var front, last := records[..|records| - 1], records[|records| - 1];
      |Reversed(records)| == |Reversed(front)| + if last.timestamp < last.since then 1 else 0
  {
    var front, last := records[..|records| - 1], records[|records| - 1];
    assert Reversed(records) == Reversed(front) + if last.timestamp < last.since then {|front|} else {};
  }

  /** Adjoining windows share nothing and miss nothing. */
  lemma {:induction false} WindowsAdjoin(records: seq<Sample>, from: Option<nat>, mid: nat, to: Option<nat>)
    requires from.Some? ==> from.value <= mid
    requires to.Some? ==> mid <= to.value
    ensures Total(Selected(records, from, to))
         == Plus(Total(Selected(records, from, Some(mid))), Total(Selected(records, Some(mid), to)))
  {
    hide Selected, Total, Plus, InWindow;
    if records == [] {
      NothingSelected(from, to);
      NothingSelected(from, Some(mid));
      NothingSelected(Some(mid), to);
      PlusAssociates(ZERO, ZERO, ZERO);
    } else {
      var front, last := records[..|records| - 1], records[|records| - 1];
      WindowsAdjoin(front, from, mid, to);
      SelectLast(records, from, to);
      SelectLast(records, from, Some(mid));
      SelectLast(records, Some(mid), to);
      OneOfBoth(last.timestamp, from, mid, to);
      PlusReorders(Total(Selected(front, from, Some(mid))), Total(Selected(front, Some(mid), to)), last.bytes);
    }
  }

  lemma OneOfBoth(t: nat, from: Option<nat>, mid: nat, to: Option<nat>)
    requires from.Some? ==> from.value <= mid
    requires to.Some? ==> mid <= to.value
    ensures InWindow(t, from, to) <==> InWindow(t, from, Some(mid)) || InWindow(t, Some(mid), to)
    ensures !(InWindow(t, from, Some(mid)) && InWindow(t, Some(mid), to))
  {
  }

  lemma PlusReorders(a: Bytes, b: Bytes, c: Bytes)
    ensures Plus(Plus(a, b), c) == Plus(Plus(a, c), b) == Plus(a, Plus(b, c))
  {
  }

  lemma NothingSelected(from: Option<nat>, to: Option<nat>)
    ensures Total(Selected([], from, to)) == ZERO
  {
  }

  lemma SelectLast(records: seq<Sample>, from: Option<nat>, to: Option<nat>)
    requires records != []
    ensures var front, last := records[..|records| - 1], records[|records| - 1];
      Total(Selected(records, from, to))
        == if InWindow(last.timestamp, from, to) then Plus(Total(Selected(front, from, to)), last.bytes)
           else Total(Selected(front, from, to))
  {
    hide InWindow;
    var front, last := records[..|records| - 1], records[|records| - 1];
    if InWindow(last.timestamp, from, to) {
      NotedSnoc(Selected(front, from, to), last);
    } else {
      assert Selected(records, from, to) == Selected(front, from, to);
    }
  }

  lemma {:induction false} SelectedIsPart(records: seq<Sample>, from: Option<nat>, to: Option<nat>)
    ensures AtMost(Total(Selected(records, from, to)), Total(records))
  {
    if records != [] {
      SelectedIsPart(records[..|records| - 1], from, to);
      SelectLast(records, from, to);
    }
  }

  /** After any run, a query of any window reports at most what was counted. */
  lemma QueryNeverOvercounts(worlds: seq<World>, decode: Decoder, from: Option<nat>, to: Option<nat>)
    requires Run(worlds, decode) && Faithful(decode)
    requires from.Some? && to.Some? ==> from.value < to.value
    ensures var w := worlds[|worlds| - 1];
      var r := QueryResult(w.file, decode, from, to);
      if r.Ok? then AtMost(r.value.report.bytes, Plus(w.earlier, w.counted)) else r == Err(Overflow)
  {
    hide Faithful, QueryResult, Lines, Total, Selected, Torn, Noted, Step;
    var h := RunKeeps(worlds, decode);
    var records := h.before + h.added;
    QuerySumsWindow(records, h.tail, h.next, decode, from, to);
    SelectedIsPart(records, from, to);
  }
}
