/**
 The traffic journal (src/traffic.rs): one JSON record a line, an append that
 rolls back, and an open that recovers the tail through a fixed window. A file
 is its bytes, one `char` a byte; which I/O calls fail is an input. Reading JSON
 is a parameter that must accept what this module writes.
 */
module TrafficJournal {
  import opened Prelude

  const MAX_LINE := 1024
  const PREFIX := "{\"version\":1,"

  datatype Bytes = Bytes(tcpUpload: nat, tcpDownload: nat, udpUpload: nat, udpDownload: nat)

  datatype Sample = Sample(timestamp: nat, since: nat, bytes: Bytes)

  predicate FitsU64(b: Bytes) {
    b.tcpUpload < U64_LIMIT && b.tcpDownload < U64_LIMIT && b.udpUpload < U64_LIMIT && b.udpDownload < U64_LIMIT
  }

  predicate Fits(s: Sample) { s.timestamp < U64_LIMIT && s.since < U64_LIMIT && FitsU64(s.bytes) }

  // ----- Records -----

  function Decimal(n: nat): string {
    if n < 10 then [Digit(n)] else Decimal(n / 10) + [Digit(n % 10)]
  }

  function Member(key: string, n: nat): string { key + Decimal(n) }

  function Line(s: Sample): string { PREFIX + (Members(s) + "}}") + "\n" }

  function Members(s: Sample): string {
    Member("\"timestamp\":", s.timestamp) + Member(",\"since\":", s.since)
    + (Member(",\"bytes\":{\"tcp_upload\":", s.bytes.tcpUpload) + Member(",\"tcp_download\":", s.bytes.tcpDownload))
    + (Member(",\"udp_upload\":", s.bytes.udpUpload) + Member(",\"udp_download\":", s.bytes.udpDownload))
  }

  function Lines(records: seq<Sample>): string {
    if records == [] then "" else Lines(records[..|records| - 1]) + Line(records[|records| - 1])
  }

  predicate AllFit(records: seq<Sample>) { forall i :: 0 <= i < |records| ==> Fits(records[i]) }

  /** What reading a line as a record gives, if it is one of version 1. */
  type Decoder = string -> Option<Sample>

  ghost predicate Faithful(decode: Decoder) {
    forall s: Sample :: Fits(s) ==> decode(Line(s)) == Some(s)
  }

  predicate NoLf(s: string) { forall i :: 0 <= i < |s| ==> s[i] != '\n' }

  function Power(k: nat): nat { if k == 0 then 1 else 10 * Power(k - 1) }

  lemma {:induction false} DecimalLength(n: nat, k: nat)
    requires 1 <= k && n < Power(k)
    ensures |Decimal(n)| <= k && NoLf(Decimal(n))
  {
    if n >= 10 {
      assert k >= 2 by {
        assert Power(0) == 1;
      }
      DecimalLength(n / 10, k - 1);
    }
  }

  lemma U64Digits(n: nat)
    requires n < U64_LIMIT
    ensures |Decimal(n)| <= 20 && NoLf(Decimal(n))
  {
    assert Power(5) == 100_000;
    assert Power(10) == 100_000 * Power(5);
    assert Power(15) == 100_000 * Power(10);
    assert Power(20) == 100_000 * Power(15);
    DecimalLength(n, 20);
  }

  /** One line's worth of text. */
  predicate Inline(s: string, length: nat) { |s| <= length && NoLf(s) }

  lemma InlineConcat(a: string, b: string, m: nat, n: nat)
    requires Inline(a, m) && Inline(b, n)
    ensures Inline(a + b, m + n)
  {
  }

  lemma MemberIsInline(key: string, n: nat)
    requires Inline(key, 30) && n < U64_LIMIT
    ensures Inline(Member(key, n), 50)
  {
    hide Decimal;
    U64Digits(n);
    InlineConcat(key, Decimal(n), 30, 20);
  }

  lemma PairIsInline(key: string, n: nat, other: string, m: nat)
    requires Inline(key, 30) && Inline(other, 30) && n < U64_LIMIT && m < U64_LIMIT
    ensures Inline(Member(key, n) + Member(other, m), 100)
  {
    hide Member, Inline;
    MemberIsInline(key, n);
    MemberIsInline(other, m);
    InlineConcat(Member(key, n), Member(other, m), 50, 50);
  }

  lemma MembersAreInline(s: Sample)
    requires Fits(s)
    ensures Inline(Members(s), 300)
  {
    hide Member;
    PairIsInline("\"timestamp\":", s.timestamp, ",\"since\":", s.since);
    PairIsInline(",\"bytes\":{\"tcp_upload\":", s.bytes.tcpUpload, ",\"tcp_download\":", s.bytes.tcpDownload);
    PairIsInline(",\"udp_upload\":", s.bytes.udpUpload, ",\"udp_download\":", s.bytes.udpDownload);
  }

  /** One line, recognisable by its first bytes and short enough for the window. */
  lemma LineIsRecord(s: Sample)
    requires Fits(s)
    ensures 13 < |Line(s)| <= MAX_LINE && PREFIX <= Line(s)
    ensures Line(s)[|Line(s)| - 1] == '\n' && forall i :: 0 <= i < |Line(s)| - 1 ==> Line(s)[i] != '\n'
  {
    hide Members;
    MembersAreInline(s);
    InlineConcat(Members(s), "}}", 300, 2);
    InlineConcat(PREFIX, Members(s) + "}}", 13, 302);
    assert Line(s) == (PREFIX + (Members(s) + "}}")) + "\n";
  }

  // ----- No two samples share a line -----

  lemma {:induction false} DecimalReadsBack(n: nat)
    ensures AllDigits(Decimal(n)) && DecimalValue(Decimal(n)) == n
  {
    if n < 10 {
      assert [Digit(n)][..0] == "";
    } else {
      DecimalReadsBack(n / 10);
      assert Decimal(n)[..|Decimal(n)| - 1] == Decimal(n / 10);
    }
  }

  predicate Stops(s: string) { s != "" && !IsDigit(s[0]) }

  lemma DecimalStops(a: nat, x: string, b: nat, y: string)
    requires Decimal(a) + x == Decimal(b) + y && Stops(x) && Stops(y)
    ensures a == b && x == y
  {
    hide Decimal, DecimalValue;
    DecimalReadsBack(a);
    DecimalReadsBack(b);
    var s, t := Decimal(a) + x, Decimal(b) + y;
    assert s[|Decimal(a)|] == x[0] && t[|Decimal(b)|] == y[0];
    assert forall i :: 0 <= i < |Decimal(a)| ==> s[i] == Decimal(a)[i];
    assert forall i :: 0 <= i < |Decimal(b)| ==> t[i] == Decimal(b)[i];
    assert |Decimal(a)| == |Decimal(b)|;
    assert Decimal(a) == s[..|Decimal(a)|] && Decimal(b) == t[..|Decimal(b)|];
    assert x == s[|Decimal(a)|..] && y == t[|Decimal(b)|..];
  }

  lemma MemberStops(key: string, a: nat, x: string, b: nat, y: string)
    requires Member(key, a) + x == Member(key, b) + y && Stops(x) && Stops(y)
    ensures a == b && x == y
  {
    hide Decimal;
    assert (Member(key, a) + x)[|key|..] == Decimal(a) + x;
    assert (Member(key, b) + y)[|key|..] == Decimal(b) + y;
    DecimalStops(a, x, b, y);
  }

  /** The bytes of a line after the first few members. */
  function After(s: Sample, k: nat): string
    decreases 6 - k
  {
    if k == 0 then Member("\"timestamp\":", s.timestamp) + After(s, 1)
    else if k == 1 then Member(",\"since\":", s.since) + After(s, 2)
    else if k == 2 then Member(",\"bytes\":{\"tcp_upload\":", s.bytes.tcpUpload) + After(s, 3)
    else if k == 3 then Member(",\"tcp_download\":", s.bytes.tcpDownload) + After(s, 4)
    else if k == 4 then Member(",\"udp_upload\":", s.bytes.udpUpload) + After(s, 5)
    else if k == 5 then Member(",\"udp_download\":", s.bytes.udpDownload) + After(s, 6)
    else "}}\n"
  }

  lemma AfterStops(s: Sample, k: nat)
    requires 1 <= k
    ensures Stops(After(s, k))
  {
    hide Decimal;
  }

  lemma LineIsAfter(s: Sample)
    ensures Line(s) == PREFIX + After(s, 0)
  {
    hide Member;
    assert After(s, 6) == "}}" + "\n";
    assert After(s, 4) == Member(",\"udp_upload\":", s.bytes.udpUpload) + (Member(",\"udp_download\":", s.bytes.udpDownload) + After(s, 6));
    assert After(s, 2) == Member(",\"bytes\":{\"tcp_upload\":", s.bytes.tcpUpload) + (Member(",\"tcp_download\":", s.bytes.tcpDownload) + After(s, 4));
    assert After(s, 0) == Members(s) + After(s, 6);
  }

  /** The text of a record. */
  lemma LineText(s: Sample)
    ensures Line(s) == "{\"version\":1," + ("\"timestamp\":" + Decimal(s.timestamp) + (",\"since\":" + Decimal(s.since)
      + (",\"bytes\":{\"tcp_upload\":" + Decimal(s.bytes.tcpUpload) + (",\"tcp_download\":" + Decimal(s.bytes.tcpDownload)
      + (",\"udp_upload\":" + Decimal(s.bytes.udpUpload) + (",\"udp_download\":" + Decimal(s.bytes.udpDownload) + "}}\n"))))))
  {
    hide Decimal, Line;
    LineIsAfter(s);
    assert After(s, 6) == "}}\n";
    assert After(s, 5) == ",\"udp_download\":" + Decimal(s.bytes.udpDownload) + After(s, 6);
    assert After(s, 4) == ",\"udp_upload\":" + Decimal(s.bytes.udpUpload) + After(s, 5);
    assert After(s, 3) == ",\"tcp_download\":" + Decimal(s.bytes.tcpDownload) + After(s, 4);
    assert After(s, 2) == ",\"bytes\":{\"tcp_upload\":" + Decimal(s.bytes.tcpUpload) + After(s, 3);
    assert After(s, 1) == ",\"since\":" + Decimal(s.since) + After(s, 2);
    assert After(s, 0) == "\"timestamp\":" + Decimal(s.timestamp) + After(s, 1);
  }

  /** A line determines its sample, so a reader can be faithful. */
  lemma LineDeterminesSample(s: Sample, t: Sample)
    requires Line(s) == Line(t)
    ensures s == t
  {
    hide Member, Line, Stops;
    LineIsAfter(s);
    LineIsAfter(t);
    assert (PREFIX + After(s, 0))[|PREFIX|..] == After(s, 0) && (PREFIX + After(t, 0))[|PREFIX|..] == After(t, 0);
    forall k: nat | 1 <= k ensures Stops(After(s, k)) && Stops(After(t, k)) {
      AfterStops(s, k);
      AfterStops(t, k);
    }
    MemberStops("\"timestamp\":", s.timestamp, After(s, 1), t.timestamp, After(t, 1));
    MemberStops(",\"since\":", s.since, After(s, 2), t.since, After(t, 2));
    MemberStops(",\"bytes\":{\"tcp_upload\":", s.bytes.tcpUpload, After(s, 3), t.bytes.tcpUpload, After(t, 3));
    MemberStops(",\"tcp_download\":", s.bytes.tcpDownload, After(s, 4), t.bytes.tcpDownload, After(t, 4));
    MemberStops(",\"udp_upload\":", s.bytes.udpUpload, After(s, 5), t.bytes.udpUpload, After(t, 5));
    MemberStops(",\"udp_download\":", s.bytes.udpDownload, After(s, 6), t.bytes.udpDownload, After(t, 6));
  }

  // ----- Reading lines -----

  /** The position after the last LF, or 0: where a scan of the whole text cuts it. */
  function Cut(s: string): (c: nat)
    ensures c <= |s| && (c > 0 ==> s[c - 1] == '\n') && forall i :: c <= i < |s| ==> s[i] != '\n'
  {
    if s == "" || s[|s| - 1] == '\n' then |s| else Cut(s[..|s| - 1])
  }

  /** The last record of a text that ends in one. */
  function LastStart(s: string): (c: nat)
    ensures c <= |s|
  {
    if s == "" then 0 else Cut(s[..|s| - 1])
  }

  /** read_until(LF) over the first bytes of a text. */
  function ReadUntilLf(s: string, limit: nat): (line: string)
    ensures line <= s && |line| <= limit
    ensures |line| == |s| || |line| == limit || (line != "" && line[|line| - 1] == '\n')
    ensures forall i :: 0 <= i < |line| - 1 ==> line[i] != '\n'
  {
    if s == "" || limit == 0 then ""
    else if s[0] == '\n' then [s[0]]
    else [s[0]] + ReadUntilLf(s[1..], limit - 1)
  }

  // ----- Open -----

  datatype OpenError = OversizedFirst | BadFirst | NotAJournal | OversizedTail | Io | BadLast

  /** The test of the first line, which keeps unrelated files untouched. */
  function FirstFault(file: string, decode: Decoder): Option<OpenError> {
    var first := ReadUntilLf(file, MAX_LINE + 1);
    if |first| > MAX_LINE then Some(OversizedFirst)
    else if first != "" && first[|first| - 1] == '\n' then (if decode(first).None? then Some(BadFirst) else None)
    else if first != "" && !(PREFIX <= first) then Some(NotAJournal)
    else None
  }

  function Last(s: string, n: nat): (t: string)
    ensures |t| <= n
  {
    if |s| <= n then s else s[|s| - n..]
  }

  datatype Opened = Opened(file: string, fault: Option<OpenError>)

  /** What opening does, by a scan of the whole file. */
  function Recover(file: string, decode: Decoder, truncates: bool, syncs: bool): Opened {
    var fault := FirstFault(file, decode);
    var kept := file[..Cut(file)];
    if fault.Some? then Opened(file, fault)
    else if |file| > MAX_LINE && |file| - Cut(file) >= MAX_LINE then Opened(file, Some(OversizedTail))
    else if kept != file && !truncates then Opened(file, Some(Io))
    else if kept != file && !syncs then Opened(kept, Some(Io))
    else if kept != "" && decode(Last(kept[LastStart(kept)..], MAX_LINE)).None? then Opened(kept, Some(BadLast))
    else Opened(kept, None)
  }

  lemma WindowCut(file: string, start: nat)
    requires start <= |file|
    ensures Cut(file[start..]) > 0 ==> start + Cut(file[start..]) == Cut(file)
    ensures Cut(file[start..]) == 0 ==> Cut(file) <= start
  {
  }

  lemma WindowLast(file: string)
    requires file != ""
    ensures var tail := Last(file, MAX_LINE);
      tail[Cut(tail[..|tail| - 1])..] == Last(file[LastStart(file)..], MAX_LINE)
  {
    hide Cut;
    if |file| > MAX_LINE {
      var start := |file| - MAX_LINE;
      var tail, front := file[start..], file[..|file| - 1];
      assert tail[..|tail| - 1] == front[start..];
      WindowCut(front, start);
      SuffixOfSuffix(file, start, Cut(front));
    } else {
      assert |file[LastStart(file)..]| <= MAX_LINE;
    }
  }

  lemma SuffixOfSuffix(file: string, start: nat, cut: nat)
    requires start <= |file| && |file| - start == MAX_LINE && cut <= |file|
    ensures cut >= start ==> file[start..][cut - start..] == Last(file[cut..], MAX_LINE)
    ensures cut <= start ==> file[start..] == Last(file[cut..], MAX_LINE)
  {
  }

  lemma LastNotEmpty(s: string, n: nat)
    requires s != "" && n > 0
    ensures Last(s, n) != ""
  {
  }

  lemma CutMeans(file: string)
    ensures file[..Cut(file)] == file <==> file == "" || file[|file| - 1] == '\n'
  {
  }

  // ----- Append -----

  /** Which calls of one append succeed; `written` is how far a failing write got. */
  datatype Luck = Luck(lock: bool, seek: bool, write: bool, written: nat, sync: bool,
                       truncate: bool, resync: bool, unlock: bool)

  class Journal {
    var file: string
    var poisoned: bool

    /** The window of the source finds what the whole-file scan finds. */
    method Open(decode: Decoder, truncates: bool, syncs: bool) returns (fault: Option<OpenError>)
      modifies this
      ensures Opened(file, fault) == Recover(old(file), decode, truncates, syncs)
      ensures poisoned == (fault.Some? && old(poisoned))
    {
      hide Cut, FirstFault, LastStart, Last;
      fault := FirstFault(file, decode);
      if fault.Some? {
        return;
      }
      CutMeans(file);
      if file != "" && file[|file| - 1] != '\n' {
        var start := if |file| <= MAX_LINE then 0 else |file| - MAX_LINE;
        var index := Cut(file[start..]);
        WindowCut(file, start);
        if index == 0 && start > 0 {
          return Some(OversizedTail);
        }
        if !truncates {
          return Some(Io);
        }
        file := file[..start + index];
        if !syncs {
          return Some(Io);
        }
      }
      if file != "" {
        var tail := Last(file, MAX_LINE);
        WindowLast(file);
        LastNotEmpty(file, MAX_LINE);
        if decode(tail[Cut(tail[..|tail| - 1])..]).None? {
          return Some(BadLast);
        }
      }
      poisoned := false;
    }

    method Append(sample: Sample, luck: Luck) returns (ok: bool)
      modifies this
      ensures old(poisoned) ==> !ok && poisoned && file == old(file)
      ensures !old(poisoned) ==> Appends(old(file), Line(sample), file, poisoned, ok, luck.unlock)
      ensures ok <==> !old(poisoned) && luck.lock && luck.seek && luck.write && luck.sync && luck.unlock
      ensures !old(poisoned) ==>
        (poisoned <==> luck.lock && luck.seek && !(luck.write && luck.sync) && !(luck.truncate && luck.resync))
    {
      hide Line;
      if poisoned {
        return false;
      }
      var bytes := Line(sample);
      if !luck.lock {
        return false;
      }
      if !luck.seek {
        return false;
      }
      var offset := |file|;
      var written := if luck.write || luck.written > |bytes| then |bytes| else luck.written;
      file := file + bytes[..written];
      assert bytes[..|bytes|] == bytes;
      if !luck.write || !luck.sync {
        if !luck.truncate {
          poisoned := true;
          return false;
        }
        file := file[..offset];
        assert file == old(file) == old(file) + bytes[..0];
        if !luck.resync {
          poisoned := true;
        }
        return false;
      }
      return luck.unlock;
    }
  }

  /**
   What an append may leave: all of the line, none of it, or, and then no later
   append writes, a part of it. Only a failed unlock keeps a line it reports as lost.
   */
  ghost predicate Appends(before: string, line: string, after: string, poisoned: bool, ok: bool, unlocks: bool) {
    if ok then !poisoned && after == before + line
    else if poisoned then exists k :: 0 <= k <= |line| && after == before + line[..k]
    else after == before || (!unlocks && after == before + line)
  }

  // ----- Recovery is exact -----

  lemma {:induction false} LinesEnd(records: seq<Sample>)
    requires AllFit(records) && records != []
    ensures Lines(records) != "" && Lines(records)[|Lines(records)| - 1] == '\n'
    ensures |Lines(records)| >= |Line(records[|records| - 1])|
    ensures Lines(records)[|Lines(records)| - |Line(records[|records| - 1])|..] == Line(records[|records| - 1])
  {
    hide Line;
    LineIsRecord(records[|records| - 1]);
  }

  /** A cut append: what a write that stopped after some bytes left. */
  ghost predicate Torn(tail: string, next: Sample) {
    tail < Line(next)
  }

  lemma CutAfterRecords(records: seq<Sample>, tail: string)
    requires AllFit(records) && NoLf(tail)
    ensures Cut(Lines(records) + tail) == |Lines(records)|
  {
    hide Cut, Lines, Line, NoLf;
    if records == [] {
      NoLines();
      assert Lines(records) + tail == tail;
      NoCut(tail);
    } else {
      LinesEnd(records);
      CutBefore(Lines(records), tail);
    }
  }

  lemma NoCut(tail: string)
    requires NoLf(tail)
    ensures Cut(tail) == 0
  {
    hide Cut;
  }

  lemma LastIsRecord(records: seq<Sample>)
    requires AllFit(records) && records != []
    ensures var file := Lines(records);
      file[LastStart(file)..] == Line(records[|records| - 1])
  {
    hide Line, Cut;
    var before, last := records[..|records| - 1], records[|records| - 1];
    var line := Line(last);
    LineIsRecord(last);
    CutAfterRecords(before, line[..|line| - 1]);
    LastPart(Lines(before), line);
  }

  lemma LastPart(before: string, line: string)
    requires line != "" && Cut(before + line[..|line| - 1]) == |before|
    ensures (before + line)[LastStart(before + line)..] == line
  {
    hide Cut;
    assert (before + line)[..|before + line| - 1] == before + line[..|line| - 1];
  }

  lemma {:induction false} FirstIsRecord(records: seq<Sample>, tail: string)
    requires AllFit(records) && records != []
    ensures ReadUntilLf(Lines(records) + tail, MAX_LINE + 1) == Line(records[0])
  {
    hide Line, ReadUntilLf;
    if |records| == 1 {
      assert records[..0] == [];
      assert Lines(records) == "" + Line(records[0]) == Line(records[0]);
      LineIsRecord(records[0]);
      ReadsLine(Line(records[0]), tail, MAX_LINE + 1);
    } else {
      var before, last := records[..|records| - 1], records[|records| - 1];
      assert Lines(records) + tail == Lines(before) + (Line(last) + tail);
      FirstIsRecord(before, Line(last) + tail);
    }
  }

  lemma ReadsLine(line: string, rest: string, limit: nat)
    requires line != "" && line[|line| - 1] == '\n' && |line| <= limit && forall i :: 0 <= i < |line| - 1 ==> line[i] != '\n'
    ensures ReadUntilLf(line + rest, limit) == line
  {
    hide ReadUntilLf;
    var s := line + rest;
    var r := ReadUntilLf(s, limit);
    assert r == s[..|r|];
    assert s[|line| - 1] == '\n' && forall i :: 0 <= i < |line| - 1 ==> s[i] != '\n';
    assert |r| == |line|;
  }

  lemma ReadsAll(s: string, limit: nat)
    requires NoLf(s) && |s| <= limit
    ensures ReadUntilLf(s, limit) == s
  {
    hide ReadUntilLf;
    var r := ReadUntilLf(s, limit);
    assert r == s[..|r|];
    assert s[..|s|] == s;
  }

  lemma TornIsShort(tail: string, next: Sample)
    requires Fits(next) && Torn(tail, next)
    ensures |tail| < MAX_LINE && NoLf(tail) && (|tail| < 13 <==> !(PREFIX <= tail))
  {
    hide Line;
    LineIsRecord(next);
    assert forall i :: 0 <= i < |tail| ==> tail[i] == Line(next)[i];
  }

  /**
   Whatever the records and wherever an append was cut, opening leaves exactly
   the complete records, or, when the cut left only 1 to 12 bytes of the very
   first record, refuses and leaves the file as it is.
   */
  lemma RecoveryIsExact(records: seq<Sample>, tail: string, next: Sample, decode: Decoder)
    requires Faithful(decode) && AllFit(records) && Fits(next) && Torn(tail, next)
    ensures Recover(Lines(records) + tail, decode, true, true)
         == if records == [] && 1 <= |tail| <= 12 then Opened(tail, Some(NotAJournal)) else Opened(Lines(records), None)
  {
    hide Line, Cut, FirstFault, NoLf, LastStart, Lines, Torn, Recover, Faithful;
    TornIsShort(tail, next);
    CutAfterRecords(records, tail);
    if records == [] {
      NoLines();
      assert Lines(records) + tail == tail;
      FirstOfTorn(tail, decode);
      if 1 <= |tail| <= 12 {
        RecoverRefuses(tail, decode);
      } else {
        RecoverKeeps(Lines(records), tail, decode);
      }
    } else {
      FirstOfRecords(records, tail, decode);
      LastDecodes(records, decode);
      RecoverKeeps(Lines(records), tail, decode);
    }
  }

  lemma FirstOfTorn(tail: string, decode: Decoder)
    requires NoLf(tail) && |tail| < MAX_LINE && (|tail| < 13 <==> !(PREFIX <= tail))
    ensures FirstFault(tail, decode) == if 1 <= |tail| <= 12 then Some(NotAJournal) else None
  {
    hide ReadUntilLf;
    ReadsAll(tail, MAX_LINE + 1);
  }

  lemma FirstOfRecords(records: seq<Sample>, tail: string, decode: Decoder)
    requires Faithful(decode) && AllFit(records) && records != []
    ensures FirstFault(Lines(records) + tail, decode) == None
  {
    hide ReadUntilLf, Line, Lines;
    FirstIsRecord(records, tail);
    LineIsRecord(records[0]);
  }

  lemma LastDecodes(records: seq<Sample>, decode: Decoder)
    requires Faithful(decode) && AllFit(records) && records != []
    ensures var file := Lines(records);
      decode(Last(file[LastStart(file)..], MAX_LINE)).Some?
  {
    hide Line, Lines, LastStart;
    LastIsRecord(records);
    LineIsRecord(records[|records| - 1]);
  }

  lemma RecoverKeeps(kept: string, tail: string, decode: Decoder)
    requires FirstFault(kept + tail, decode).None? && Cut(kept + tail) == |kept| && |tail| < MAX_LINE
    requires kept != "" ==> decode(Last(kept[LastStart(kept)..], MAX_LINE)).Some?
    ensures Recover(kept + tail, decode, true, true) == Opened(kept, None)
  {
    hide FirstFault, Cut, LastStart;
    assert (kept + tail)[..|kept|] == kept;
  }

  lemma RecoverRefuses(file: string, decode: Decoder)
    requires FirstFault(file, decode).Some?
    ensures Recover(file, decode, true, true) == Opened(file, FirstFault(file, decode))
  {
  }

  lemma NoLines()
    ensures Lines([]) == ""
  {
  }

  /** On any file and under any failure, every complete line stays. */
  lemma CompleteLinesStay(file: string, decode: Decoder, truncates: bool, syncs: bool)
    ensures var after := Recover(file, decode, truncates, syncs);
      after.file == file || (after.file == file[..Cut(file)] && after.file < file)
  {
    hide FirstFault, LastStart;
    var after := Recover(file, decode, truncates, syncs);
    assert after.file == file || after.file == file[..Cut(file)];
    assert file[..Cut(file)] <= file;
  }

  /**
   Files that are no journal are refused and left alone: a first line of over
   1024 bytes, a complete first line that is no record, or an incomplete one
   that does not start like one. So is a long file whose last line is longer
   than the window.
   */
  lemma ForeignFiles(file: string, line: string, rest: string, decode: Decoder, truncates: bool, syncs: bool)
    ensures NoLf(file) && |file| > 1024 ==> Recover(file, decode, truncates, syncs) == Opened(file, Some(OversizedFirst))
    ensures NoLf(file) && 0 < |file| <= 1024 && !("{\"version\":1," <= file) ==>
      Recover(file, decode, truncates, syncs) == Opened(file, Some(NotAJournal))
    ensures NoLf(line) && |line| < 1024 && decode(line + "\n").None? ==>
      Recover(line + "\n" + rest, decode, truncates, syncs) == Opened(line + "\n" + rest, Some(BadFirst))
    ensures FirstFault(file, decode).None? && |file| > 1024 && NoLf(file[|file| - 1024..]) ==>
      Recover(file, decode, truncates, syncs) == Opened(file, Some(OversizedTail))
  {
    hide ReadUntilLf, Cut, LastStart, NoLf;
    if NoLf(file) && |file| > 1024 {
      LongFirst(file);
    }
    if NoLf(file) && 0 < |file| <= 1024 {
      ReadsAll(file, MAX_LINE + 1);
      NoLfLast(file);
    }
    if NoLf(line) && |line| < 1024 {
      LineEndsIt(line);
      ReadsLine(line + "\n", rest, MAX_LINE + 1);
    }
    if |file| > 1024 && NoLf(file[|file| - 1024..]) {
      NoCut(file[|file| - 1024..]);
      WindowCut(file, |file| - 1024);
    }
  }

  lemma NoLfLast(s: string)
    requires NoLf(s) && s != ""
    ensures s[|s| - 1] != '\n'
  {
  }

  lemma LineEndsIt(line: string)
    requires NoLf(line)
    ensures (line + "\n")[|line|] == '\n' && forall i :: 0 <= i < |line| ==> (line + "\n")[i] != '\n'
  {
  }

  lemma LongFirst(file: string)
    requires NoLf(file) && |file| > 1024
    ensures |ReadUntilLf(file, MAX_LINE + 1)| == 1025
  {
    hide ReadUntilLf;
    var r := ReadUntilLf(file, MAX_LINE + 1);
    assert r == file[..|r|];
    if r != "" {
      assert file[|r| - 1] == r[|r| - 1];
    }
  }

  /** The first line passes, and an incomplete last one lies within the window. */
  predicate HasTornTail(file: string, decode: Decoder) {
    && FirstFault(file, decode).None? && file != "" && file[|file| - 1] != '\n'
    && (|file| <= MAX_LINE || |file| - Cut(file) < MAX_LINE)
  }

  /** The last complete line, as much of it as the window holds, is not a record. */
  predicate HasBadLast(kept: string, decode: Decoder) {
    kept != "" && decode(Last(kept[LastStart(kept)..], MAX_LINE)).None?
  }

  /**
   Exactly when opening changes a file, and exactly when it refuses one it has
   changed: a torn tail is cut off, and then syncing fails or the last complete
   line is corrupt. In every other refusal the file is as it was.
   */
  lemma RefusalTouchesExactly(file: string, decode: Decoder, truncates: bool, syncs: bool)
    ensures var after := Recover(file, decode, truncates, syncs);
      && (after.file != file <==> HasTornTail(file, decode) && truncates)
      && (after.file != file && after.fault.Some? <==>
          HasTornTail(file, decode) && truncates && (!syncs || HasBadLast(file[..Cut(file)], decode)))
  {
    hide FirstFault, Cut, LastStart, Last;
    CutMeans(file);
  }

  /** A torn tail that cannot be cut off, or not for sure, is an I/O failure. */
  lemma TailFaults(file: string, decode: Decoder, syncs: bool)
    requires HasTornTail(file, decode)
    ensures Recover(file, decode, false, syncs) == Opened(file, Some(Io))
    ensures Recover(file, decode, true, false) == Opened(file[..Cut(file)], Some(Io))
  {
    hide FirstFault, Cut, LastStart, Last;
    CutMeans(file);
  }

  /** Such files exist for every journal: any torn tail after any corrupt complete line is cut off, and the file refused. */
  lemma RefusesAfterTruncating(records: seq<Sample>, bad: string, tail: string, decode: Decoder)
    requires Faithful(decode) && AllFit(records) && records != []
    requires NoLf(bad) && |bad| < MAX_LINE && decode(bad + "\n").None?
    requires NoLf(tail) && 0 < |tail| < MAX_LINE
    ensures var kept := Lines(records) + (bad + "\n");
      Recover(kept + tail, decode, true, true) == Opened(kept, Some(BadLast))
  {
    hide Line, Lines, FirstFault, Cut, LastStart, Recover, Last, Faithful;
    var kept := Lines(records) + (bad + "\n");
    FirstOfRecords(records, bad + "\n" + tail, decode);
    assert Lines(records) + (bad + "\n" + tail) == kept + tail;
    CutAfterRecords(records, bad);
    assert (bad + "\n")[..|bad|] == bad;
    LastPart(Lines(records), bad + "\n");
    ShortLast(bad + "\n");
    CutBefore(kept, tail);
    RecoverRefusesLast(kept, tail, decode);
  }

  lemma ShortLast(s: string)
    requires |s| <= MAX_LINE
    ensures Last(s, MAX_LINE) == s
  {
  }

  lemma RecoverRefusesLast(kept: string, tail: string, decode: Decoder)
    requires FirstFault(kept + tail, decode).None? && Cut(kept + tail) == |kept| && 0 < |tail| < MAX_LINE
    requires kept != "" && decode(Last(kept[LastStart(kept)..], MAX_LINE)).None?
    ensures Recover(kept + tail, decode, true, true) == Opened(kept, Some(BadLast))
  {
    hide FirstFault, Cut, LastStart, Last;
    assert (kept + tail)[..|kept|] == kept;
  }

  lemma CutBefore(kept: string, tail: string)
    requires kept != "" && kept[|kept| - 1] == '\n' && NoLf(tail)
    ensures Cut(kept + tail) == |kept|
  {
    hide Cut;
    var file := kept + tail;
    assert file[|kept| - 1] == '\n';
    assert forall i :: |kept| <= i < |file| ==> file[i] == tail[i - |kept|];
  }
}
