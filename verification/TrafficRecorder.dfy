/**
 Sampling the counters into the journal (src/traffic.rs): what is persisted
 against what was counted, through every failed append, poisoning, crash and
 restart. Counts are kept without bound; the program sees them modulo 2^64.
 */
module TrafficRecorder {
  import opened Prelude
  import opened TrafficJournal

  const ZERO := Bytes(0, 0, 0, 0)

  function Wrap(n: nat): (r: nat)
    ensures r < U64_LIMIT
  {
    n % U64_LIMIT
  }

  function WrappingSub(a: nat, b: nat): (r: nat)
    ensures r < U64_LIMIT
  {
    (a - b) % U64_LIMIT
  }

  function WrapBytes(b: Bytes): (r: Bytes)
    ensures FitsU64(r)
  {
    Bytes(Wrap(b.tcpUpload), Wrap(b.tcpDownload), Wrap(b.udpUpload), Wrap(b.udpDownload))
  }

  function Delta(current: Bytes, previous: Bytes): (r: Bytes)
    ensures FitsU64(r)
  {
    Bytes(WrappingSub(current.tcpUpload, previous.tcpUpload), WrappingSub(current.tcpDownload, previous.tcpDownload),
          WrappingSub(current.udpUpload, previous.udpUpload), WrappingSub(current.udpDownload, previous.udpDownload))
  }

  function Plus(a: Bytes, b: Bytes): Bytes {
    Bytes(a.tcpUpload + b.tcpUpload, a.tcpDownload + b.tcpDownload, a.udpUpload + b.udpUpload, a.udpDownload + b.udpDownload)
  }

  predicate AtMost(a: Bytes, b: Bytes) {
    a.tcpUpload <= b.tcpUpload && a.tcpDownload <= b.tcpDownload && a.udpUpload <= b.udpUpload && a.udpDownload <= b.udpDownload
  }

  /** Everything a list of records accounts for. */
  function Total(records: seq<Sample>): Bytes {
    if records == [] then ZERO else Plus(Total(records[..|records| - 1]), records[|records| - 1].bytes)
  }

  lemma {:induction false} TotalConcat(a: seq<Sample>, b: seq<Sample>)
    ensures Total(a + b) == Plus(Total(a), Total(b))
  {
    hide Plus;
    if b == [] {
      assert a + b == a;
      PlusAssociates(Total(a), ZERO, ZERO);
    } else {
      TotalConcat(a, b[..|b| - 1]);
      assert (a + b)[..|a + b| - 1] == a + b[..|b| - 1];
      PlusAssociates(Total(a), Total(b[..|b| - 1]), b[|b| - 1].bytes);
    }
  }

  lemma PlusAssociates(a: Bytes, b: Bytes, c: Bytes)
    ensures Plus(Plus(a, b), c) == Plus(a, Plus(b, c)) && Plus(a, ZERO) == a
  {
  }

  // ----- One flush -----

  class Sampler {
    var previous: Bytes
    var since: nat

    method Flush(journal: Journal, counters: Bytes, timestamp: nat, luck: Luck) returns (ok: bool)
      modifies this, journal
      ensures old(journal.poisoned) ==> !ok && journal.poisoned && journal.file == old(journal.file)
      ensures !old(journal.poisoned) ==>
        Appends(old(journal.file), Line(Sample(timestamp, old(since), Delta(counters, old(previous)))),
                journal.file, journal.poisoned, ok, luck.unlock)
      ensures ok <==> !old(journal.poisoned) && luck.lock && luck.seek && luck.write && luck.sync && luck.unlock
      ensures !old(journal.poisoned) ==>
        (journal.poisoned <==> luck.lock && luck.seek && !(luck.write && luck.sync) && !(luck.truncate && luck.resync))
      ensures if ok then previous == counters && since == timestamp else previous == old(previous) && since == old(since)
    {
      hide Appends, Line;
      var sample := Sample(timestamp, since, Delta(counters, previous));
      ok := journal.Append(sample, luck);
      if ok {
        previous := counters;
        since := timestamp;
      }
    }
  }

  // ----- Runs -----

  /**
   A recorder: its file, the sampler's fields, what this process counted, what
   it had counted at its last persisted sample, what earlier processes
   counted, and the file it started from.
   */
  datatype World = World(file: string, poisoned: bool, previous: Bytes, since: nat,
                         counted: Bytes, earlier: Bytes, start: string)

  ghost predicate Counts(w: World, v: World) {
    exists n: Bytes :: v == w.(counted := Plus(w.counted, n))
  }

  /** The sample the next flush writes, and its line. */
  function NextSample(w: World, timestamp: nat): Sample {
    Sample(timestamp, w.since, Delta(WrapBytes(w.counted), w.previous))
  }

  function NextLine(w: World, timestamp: nat): string { Line(NextSample(w, timestamp)) }

  ghost predicate Flushes(w: World, v: World, timestamp: nat, ok: bool, unlocks: bool) {
    timestamp < U64_LIMIT
    && (if w.poisoned then !ok && v.poisoned && v.file == w.file
        else Appends(w.file, NextLine(w, timestamp), v.file, v.poisoned, ok, unlocks))
    && (if ok then v.previous == WrapBytes(w.counted) && v.since == timestamp else v.previous == w.previous && v.since == w.since)
    && v.counted == w.counted && v.earlier == w.earlier && v.start == w.start
  }

  /** The sampler's flush is a step of the relation, whatever fails. */
  method FlushStep(sampler: Sampler, journal: Journal, counted: Bytes, timestamp: nat, luck: Luck, ghost earlier: Bytes, ghost start: string)
    returns (ok: bool)
    requires timestamp < U64_LIMIT
    modifies sampler, journal
    ensures Flushes(World(old(journal.file), old(journal.poisoned), old(sampler.previous), old(sampler.since), counted, earlier, start),
                    World(journal.file, journal.poisoned, sampler.previous, sampler.since, counted, earlier, start),
                    timestamp, ok, luck.unlock)
  {
    hide Appends, Line, Delta, WrapBytes;
    ok := sampler.Flush(journal, WrapBytes(counted), timestamp, luck);
  }

  /** What a process that dies may leave: its file, or, had it been appending, a part of the next line more. */
  ghost predicate Leaves(w: World, file: string, timestamp: nat) {
    file == w.file
    || (!w.poisoned && timestamp < U64_LIMIT && exists k :: 0 <= k <= |NextLine(w, timestamp)| && file == w.file + NextLine(w, timestamp)[..k])
  }

  /** A later process opens the file; if it refuses, nothing is appended until one accepts. */
  ghost predicate Reopens(w: World, v: World, file: string, decode: Decoder, truncates: bool, syncs: bool, now: nat) {
    now < U64_LIMIT
    && var after := Recover(file, decode, truncates, syncs);
       v == World(after.file, after.fault.Some?, ZERO, now, ZERO, Plus(w.earlier, w.counted), after.file)
  }

  /** An unlock may fail on an all-zero sample; the file then holds a record that counts nothing. */
  ghost predicate Safely(w: World, timestamp: nat, unlocks: bool) {
    unlocks || NextSample(w, timestamp).bytes == ZERO
  }

  ghost predicate Step(w: World, v: World, decode: Decoder) {
    Counts(w, v)
    || (exists timestamp, ok, unlocks :: Flushes(w, v, timestamp, ok, unlocks) && Safely(w, timestamp, unlocks))
    || (exists file, died, truncates, syncs, now :: Leaves(w, file, died) && Reopens(w, v, file, decode, truncates, syncs, now))
  }

  ghost predicate Started(w: World) {
    w.since < U64_LIMIT && w == World("", false, ZERO, w.since, ZERO, ZERO, "")
  }

  ghost predicate Run(worlds: seq<World>, decode: Decoder) {
    worlds != [] && Started(worlds[0]) && forall i :: 0 <= i < |worlds| - 1 ==> Step(worlds[i], worlds[i + 1], decode)
  }

  // ----- Conservation -----

  predicate Congruent(a: nat, b: nat) { a % U64_LIMIT == b % U64_LIMIT }

  predicate CongruentBytes(a: Bytes, b: Bytes) {
    Congruent(a.tcpUpload, b.tcpUpload) && Congruent(a.tcpDownload, b.tcpDownload)
    && Congruent(a.udpUpload, b.udpUpload) && Congruent(a.udpDownload, b.udpDownload)
  }

  /** How a world came about: the records it started from and added, its count at the last of them, a torn sample. */
  datatype History = History(before: seq<Sample>, added: seq<Sample>, flushed: Bytes, next: Sample, tail: string)

  ghost predicate Inv(w: World, h: History) {
    && AllFit(h.before) && AllFit(h.added) && Fits(h.next) && Torn(h.tail, h.next) && w.since < U64_LIMIT
    && w.file == Lines(h.before + h.added) + h.tail
    && AtMost(Total(h.before + h.added), Plus(w.earlier, w.counted))
    && (!w.poisoned ==>
        && h.tail == "" && w.start == Lines(h.before)
        && w.previous == WrapBytes(h.flushed) && AtMost(h.flushed, w.counted)
        && AtMost(Total(h.before), w.earlier) && AtMost(Total(h.added), h.flushed) && CongruentBytes(Total(h.added), h.flushed))
  }

  lemma Unwrapped(n: nat) returns (q: nat, r: nat)
    ensures n == U64_LIMIT * q + r && r == Wrap(n) < U64_LIMIT
  {
    q, r := n / U64_LIMIT, n % U64_LIMIT;
  }

  lemma WrapUnique(q: nat, r: nat)
    requires r < U64_LIMIT
    ensures (U64_LIMIT * q + r) % U64_LIMIT == r
  {
  }

  /** Adding the wrapped difference catches up with the count, modulo 2^64 and without overtaking it. */
  lemma Accrues(sum: nat, flushed: nat, counted: nat)
    requires sum <= flushed <= counted && Congruent(sum, flushed)
    ensures var more := sum + WrappingSub(Wrap(counted), Wrap(flushed));
      more <= counted && Congruent(more, counted)
  {
    var qc, rc := Unwrapped(counted);
    var qf, rf := Unwrapped(flushed);
    var qs, rs := Unwrapped(sum);
    WrapUnique(qs, rc);
    WrapUnique(qs + 1, rc);
  }

  lemma AccruesBytes(sum: Bytes, flushed: Bytes, counted: Bytes)
    requires AtMost(sum, flushed) && AtMost(flushed, counted) && CongruentBytes(sum, flushed)
    ensures var more := Plus(sum, Delta(WrapBytes(counted), WrapBytes(flushed)));
      AtMost(more, counted) && CongruentBytes(more, counted)
  {
    hide WrappingSub, Wrap, Congruent;
    Accrues(sum.tcpUpload, flushed.tcpUpload, counted.tcpUpload);
    Accrues(sum.tcpDownload, flushed.tcpDownload, counted.tcpDownload);
    Accrues(sum.udpUpload, flushed.udpUpload, counted.udpUpload);
    Accrues(sum.udpDownload, flushed.udpDownload, counted.udpDownload);
  }

  // ----- Every step keeps the invariant -----

  lemma CountKeeps(w: World, h: History, v: World)
    requires Inv(w, h) && Counts(w, v)
    ensures Inv(v, h)
  {
    hide Torn, Lines, Total, Fits, WrapBytes, CongruentBytes, AllFit;
  }

  lemma LinesSnoc(records: seq<Sample>, s: Sample)
    ensures Lines(records + [s]) == Lines(records) + Line(s)
  {
    hide Line;
    assert (records + [s])[..|records|] == records;
  }

  /** The records with the next one accounted for. */
  lemma WithNext(w: World, h: History, timestamp: nat)
    requires Inv(w, h) && !w.poisoned && timestamp < U64_LIMIT
    ensures var s := NextSample(w, timestamp);
      && Fits(s) && Line(s) == NextLine(w, timestamp)
      && Lines(h.before + (h.added + [s])) == w.file + Line(s)
      && AllFit(h.added + [s])
      && AtMost(Total(h.added + [s]), w.counted) && CongruentBytes(Total(h.added + [s]), w.counted)
      && AtMost(Total(h.before + (h.added + [s])), Plus(w.earlier, w.counted))
  {
    hide Torn, Lines, Line, Delta, WrapBytes, CongruentBytes;
    var s := NextSample(w, timestamp);
    var more := h.added + [s];
    assert h.before + more == (h.before + h.added) + [s];
    LinesSnoc(h.before + h.added, s);
    assert w.file == Lines(h.before + h.added);
    assert more[..|h.added|] == h.added && more[|h.added|] == s;
    AccruesBytes(Total(h.added), h.flushed, w.counted);
    TotalConcat(h.before, more);
  }

  lemma EmptyIsTorn(s: Sample)
    ensures Torn("", s)
  {
    assert |Line(s)| > 0;
  }

  lemma FlushKeeps(w: World, h: History, v: World, timestamp: nat, ok: bool, unlocks: bool) returns (g: History)
    requires Inv(w, h) && Flushes(w, v, timestamp, ok, unlocks) && Safely(w, timestamp, unlocks)
    ensures Inv(v, g)
  {
    hide Lines, Line, Delta, WrapBytes, CongruentBytes, Torn, NextLine, AtMost, Fits, Plus;
    if w.poisoned || (!ok && !v.poisoned && v.file == w.file) {
      g := h;
    } else {
      WithNext(w, h, timestamp);
      var s := NextSample(w, timestamp);
      if ok {
        g := History(h.before, h.added + [s], w.counted, h.next, "");
        assert v.file == Lines(h.before + g.added) + "";
        AtMostItself(w.counted);
      } else if v.poisoned {
        var k :| 0 <= k <= |Line(s)| && v.file == w.file + Line(s)[..k];
        g := Partly(w, h, s, k);
      } else {
        g := History(h.before, h.added + [s], h.flushed, h.next, "");
        assert v.file == Lines(h.before + g.added) + "";
        ZeroCounts(h.added, s);
      }
    }
  }

  lemma ZeroCounts(records: seq<Sample>, s: Sample)
    requires s.bytes == ZERO
    ensures Total(records + [s]) == Total(records)
  {
    hide Plus, Total;
    TotalSnoc(records, s);
    PlusAssociates(Total(records), ZERO, ZERO);
  }

  lemma AtMostItself(b: Bytes)
    ensures AtMost(b, b)
  {
  }

  /** The history of a file that got part of a line, or all of it. */
  lemma Partly(w: World, h: History, s: Sample, k: nat) returns (g: History)
    requires AllFit(h.before) && AllFit(h.added) && Fits(s) && k <= |Line(s)| && w.file == Lines(h.before + h.added)
    requires AtMost(Total(h.before + h.added), Plus(w.earlier, w.counted))
    requires Lines(h.before + (h.added + [s])) == w.file + Line(s)
    requires AtMost(Total(h.before + (h.added + [s])), Plus(w.earlier, w.counted))
    ensures AllFit(g.before) && AllFit(g.added) && Fits(g.next) && Torn(g.tail, g.next)
    ensures w.file + Line(s)[..k] == Lines(g.before + g.added) + g.tail
    ensures AtMost(Total(g.before + g.added), Plus(w.earlier, w.counted))
  {
    hide Lines, Line, AtMost, Fits, Plus, Torn;
    if k == |Line(s)| {
      g := History(h.before, h.added + [s], ZERO, s, "");
      EmptyIsTorn(s);
      assert Line(s)[..k] == Line(s);
      assert w.file + Line(s) == Lines(g.before + g.added) + "";
    } else {
      g := History(h.before, h.added, ZERO, s, Line(s)[..k]);
      PartIsTorn(s, k);
    }
  }

  lemma PartIsTorn(s: Sample, k: nat)
    requires k < |Line(s)|
    ensures Torn(Line(s)[..k], s)
  {
    hide Line;
  }

  lemma LeftHistory(w: World, h: History, file: string, timestamp: nat) returns (g: History)
    requires Inv(w, h) && Leaves(w, file, timestamp)
    ensures AllFit(g.before) && AllFit(g.added) && Fits(g.next) && Torn(g.tail, g.next)
    ensures file == Lines(g.before + g.added) + g.tail
    ensures AtMost(Total(g.before + g.added), Plus(w.earlier, w.counted))
  {
    hide Lines, Line, Delta, WrapBytes, CongruentBytes, Torn, NextLine, AtMost, Fits, Plus;
    if file == w.file {
      g := h;
    } else {
      WithNext(w, h, timestamp);
      var k :| 0 <= k <= |NextLine(w, timestamp)| && file == w.file + NextLine(w, timestamp)[..k];
      assert w.file == Lines(h.before + h.added);
      g := Partly(w, h, NextSample(w, timestamp), k);
    }
  }

  lemma RecoveredForm(records: seq<Sample>, tail: string, next: Sample, decode: Decoder, truncates: bool, syncs: bool)
    requires AllFit(records) && Fits(next) && Torn(tail, next)
    ensures var after := Recover(Lines(records) + tail, decode, truncates, syncs);
      if after.fault.None? then after.file == Lines(records)
      else after.file == Lines(records) || after.file == Lines(records) + tail
  {
    hide Lines, FirstFault, Cut, LastStart, Torn;
    TornIsShort(tail, next);
    CutAfterRecords(records, tail);
    assert (Lines(records) + tail)[..|Lines(records)|] == Lines(records);
  }

  lemma ReopenKeeps(w: World, h: History, v: World, file: string, died: nat, decode: Decoder, truncates: bool, syncs: bool, now: nat)
      returns (g: History)
    requires Inv(w, h) && Leaves(w, file, died) && Reopens(w, v, file, decode, truncates, syncs, now)
    ensures Inv(v, g)
  {
    hide Lines, Recover, Torn, Leaves, Fits, CongruentBytes, Total;
    var l := LeftHistory(w, h, file, died);
    var all := l.before + l.added;
    RecoveredForm(all, l.tail, l.next, decode, truncates, syncs);
    EmptyIsTorn(l.next);
    g := History(all, [], ZERO, l.next, if v.file == Lines(all) then "" else l.tail);
    assert all + [] == all && Lines(all) + "" == Lines(all);
    NothingTotal();
  }

  lemma NothingTotal()
    ensures Total([]) == ZERO && CongruentBytes(ZERO, ZERO) && WrapBytes(ZERO) == ZERO
  {
  }

  lemma StepKeeps(w: World, h: History, v: World, decode: Decoder) returns (g: History)
    requires Inv(w, h) && Step(w, v, decode)
    ensures Inv(v, g)
  {
    hide Inv, Counts, Flushes, Safely, Leaves, Reopens;
    if Counts(w, v) {
      CountKeeps(w, h, v);
      g := h;
    } else if exists timestamp, ok, unlocks :: Flushes(w, v, timestamp, ok, unlocks) && Safely(w, timestamp, unlocks) {
      var timestamp, ok, unlocks :| Flushes(w, v, timestamp, ok, unlocks) && Safely(w, timestamp, unlocks);
      g := FlushKeeps(w, h, v, timestamp, ok, unlocks);
    } else {
      var file, died, truncates, syncs, now :|
        Leaves(w, file, died) && Reopens(w, v, file, decode, truncates, syncs, now);
      g := ReopenKeeps(w, h, v, file, died, decode, truncates, syncs, now);
    }
  }

  lemma StartedInv(w: World) returns (h: History)
    requires Started(w)
    ensures Inv(w, h)
  {
    var s := Sample(0, 0, ZERO);
    h := History([], [], ZERO, s, "");
    hide Line;
    NothingTotal();
    EmptyIsTorn(s);
    assert [] + h.added == [];
  }

  lemma {:induction false} RunKeeps(worlds: seq<World>, decode: Decoder) returns (h: History)
    requires Run(worlds, decode)
    ensures Inv(worlds[|worlds| - 1], h)
  {
    hide Inv, Started, Step;
    if |worlds| == 1 {
      h := StartedInv(worlds[0]);
    } else {
      var before := worlds[..|worlds| - 1];
      forall i | 0 <= i < |before| - 1 ensures Step(before[i], before[i + 1], decode) {
        assert before[i] == worlds[i] && before[i + 1] == worlds[i + 1];
      }
      var g := RunKeeps(before, decode);
      assert Step(worlds[|worlds| - 2], worlds[|worlds| - 2 + 1], decode);
      h := StepKeeps(before[|before| - 1], g, worlds[|worlds| - 1], decode);
    }
  }

  /**
   After any run of counting, flushes with any failures but an unlock that fails
   on a sample of some bytes, deaths in the middle of an append and reopenings with any failures: the file
   is complete records and at most one torn one; the records account for at most
   what was ever counted; and while appends go on, what this process persisted
   plus what its next sample holds equals what it counted, modulo 2^64.
   */
  lemma BytesAreConserved(worlds: seq<World>, decode: Decoder) returns (before: seq<Sample>, added: seq<Sample>, tail: string)
    requires Run(worlds, decode)
    ensures var w := worlds[|worlds| - 1];
      && w.file == Lines(before + added) + tail && NoLf(tail)
      && AtMost(Total(before + added), Plus(w.earlier, w.counted))
      && (!w.poisoned ==>
          && tail == "" && w.start == Lines(before)
          && AtMost(Plus(Total(added), Delta(WrapBytes(w.counted), w.previous)), w.counted)
          && CongruentBytes(Plus(Total(added), Delta(WrapBytes(w.counted), w.previous)), w.counted))
  {
    hide Lines, Total, Delta, WrapBytes, CongruentBytes, AtMost, Plus, Torn;
    var h := RunKeeps(worlds, decode);
    var w := worlds[|worlds| - 1];
    before, added, tail := h.before, h.added, h.tail;
    TornIsShort(h.tail, h.next);
    if !w.poisoned {
      AccruesBytes(Total(h.added), h.flushed, w.counted);
    }
  }

  /** After any run with a faithful reader, opening accepts again unless only a few bytes of a first record exist. */
  lemma RestartSucceeds(worlds: seq<World>, decode: Decoder) returns (records: seq<Sample>, tail: string)
    requires Run(worlds, decode) && Faithful(decode)
    ensures var w := worlds[|worlds| - 1];
      && w.file == Lines(records) + tail
      && Recover(w.file, decode, true, true)
         == if records == [] && 1 <= |tail| <= 12 then Opened(w.file, Some(NotAJournal)) else Opened(Lines(records), None)
  {
    hide Lines, Recover, Torn, Faithful;
    var h := RunKeeps(worlds, decode);
    records, tail := h.before + h.added, h.tail;
    RecoveryIsExact(records, tail, h.next, decode);
    NoLines();
    assert records == [] ==> Lines(records) + tail == tail;
  }

  // ----- Exactly when a failed unlock breaks conservation -----

  lemma AddKeeps(a: nat, d: nat)
    requires d < U64_LIMIT
    ensures (a + d) % U64_LIMIT == a % U64_LIMIT <==> d == 0
  {
    var q, r := Unwrapped(a);
    if r + d < U64_LIMIT {
      WrapUnique(q, r + d);
    } else {
      WrapUnique(q + 1, r + d - U64_LIMIT);
    }
  }

  /** A difference counted twice catches up with the count only if it is zero. */
  lemma CountedTwice(sum: nat, flushed: nat, lost: nat, counted: nat)
    requires sum <= flushed <= counted && Congruent(sum, flushed) && lost < U64_LIMIT
    ensures Congruent(sum + lost + WrappingSub(Wrap(counted), Wrap(flushed)), counted) <==> lost == 0
  {
    hide WrappingSub, Wrap;
    Accrues(sum, flushed, counted);
    AddKeeps(sum + WrappingSub(Wrap(counted), Wrap(flushed)), lost);
  }

  lemma CountedTwiceBytes(sum: Bytes, flushed: Bytes, lost: Bytes, counted: Bytes)
    requires AtMost(sum, flushed) && AtMost(flushed, counted) && CongruentBytes(sum, flushed) && FitsU64(lost)
    ensures CongruentBytes(Plus(Plus(sum, lost), Delta(WrapBytes(counted), WrapBytes(flushed))), counted) <==> lost == ZERO
  {
    hide WrappingSub, Wrap, Congruent;
    CountedTwice(sum.tcpUpload, flushed.tcpUpload, lost.tcpUpload, counted.tcpUpload);
    CountedTwice(sum.tcpDownload, flushed.tcpDownload, lost.tcpDownload, counted.tcpDownload);
    CountedTwice(sum.udpUpload, flushed.udpUpload, lost.udpUpload, counted.udpUpload);
    CountedTwice(sum.udpDownload, flushed.udpDownload, lost.udpDownload, counted.udpDownload);
  }

  lemma NothingUnflushed(b: Bytes, sum: Bytes)
    ensures Plus(sum, Delta(WrapBytes(b), WrapBytes(b))) == sum
  {
  }

  lemma TotalSnoc(records: seq<Sample>, s: Sample)
    ensures Total(records + [s]) == Plus(Total(records), s.bytes)
  {
    hide Plus;
    assert (records + [s])[..|records|] == records;
  }

  /**
   From every invariant world: an append whose only failure is the unlock, any
   counting, then a flush that succeeds. What is persisted and unflushed equals
   what was counted, right after the first and for good after the second,
   exactly if the sample reported as lost was all zero.
   */
  lemma UnlockFailureCountsTwice(w: World, h: History, v: World, x: World, u: World, t1: nat, t2: nat)
    requires Inv(w, h) && !w.poisoned
    requires Flushes(w, v, t1, false, false) && !v.poisoned && v.file == w.file + NextLine(w, t1)
    requires Counts(v, x) && Flushes(x, u, t2, true, true)
    ensures var lost := NextSample(w, t1);
      var kept, added := h.added + [lost], h.added + [lost] + [NextSample(x, t2)];
      && v.file == Lines(h.before + kept) && u.file == Lines(h.before + added)
      && (CongruentBytes(Plus(Total(kept), Delta(WrapBytes(v.counted), v.previous)), v.counted) <==> lost.bytes == ZERO)
      && (CongruentBytes(Plus(Total(added), Delta(WrapBytes(u.counted), u.previous)), u.counted) <==> lost.bytes == ZERO)
  {
    hide Lines, Line, Delta, WrapBytes, CongruentBytes, Torn, Fits, Total, AllFit;
    var lost, next := NextSample(w, t1), NextSample(x, t2);
    var kept := h.added + [lost];
    WithNext(w, h, t1);
    assert h.before + (kept + [next]) == (h.before + kept) + [next];
    LinesSnoc(h.before + kept, next);
    TotalSnoc(h.added, lost);
    TotalSnoc(kept, next);
    CountedTwiceBytes(Total(h.added), h.flushed, lost.bytes, w.counted);
    CountedTwiceBytes(Total(h.added), h.flushed, lost.bytes, x.counted);
    NothingUnflushed(x.counted, Total(kept + [next]));
  }

  /** From an empty journal: what was counted once is persisted twice. */
  lemma UnlockFailureExample(n: nat, t: nat) returns (w: World, v: World, u: World)
    requires 0 < n < U64_LIMIT && t < U64_LIMIT
    ensures w.file == "" && !w.poisoned && w.counted == Bytes(n, 0, 0, 0)
    ensures Flushes(w, v, t, false, false) && Flushes(v, u, t, true, true)
    ensures exists records :: u.file == Lines(records) && Total(records).tcpUpload == 2 * n > u.counted.tcpUpload
  {
    hide Line, Lines, Total;
    var s := Sample(t, 0, Bytes(n, 0, 0, 0));
    w := World("", false, ZERO, 0, s.bytes, ZERO, "");
    assert Delta(WrapBytes(w.counted), w.previous) == s.bytes;
    v := w.(file := w.file + Line(s));
    u := v.(file := v.file + Line(s), previous := WrapBytes(w.counted), since := t);
    TwiceWritten(s);
    assert u.file == Lines([s, s]);
  }

  lemma TwiceWritten(s: Sample)
    ensures Lines([s, s]) == "" + Line(s) + Line(s) && Total([s, s]) == Plus(s.bytes, s.bytes)
  {
    hide Line, Lines, Total;
    NoLines();
    NothingTotal();
    LinesSnoc([], s);
    LinesSnoc([s], s);
    TotalSnoc([], s);
    TotalSnoc([s], s);
    assert [] + [s] == [s] && [s] + [s] == [s, s];
  }
}
