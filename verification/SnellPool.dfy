/**
 The reuse pool of src/snell/client.rs with the relay driver of
 src/socks5.rs, as a step relation: any number of dials, relays, releases and
 closes interleave, one event at a time. Every connection carries the trace of
 records its client side has written.
 */
module SnellPool {
  import opened Prelude

  // ----- Client record traces -----

  datatype ClientRecord = Connect | DataRecord | ZeroRecord

  /** Where a trace stands after n CONNECTs: between sessions, inside one, or outside the protocol. */
  datatype Scan = Between(sessions: nat) | Open(sessions: nat) | Bad

  function ScanTrace(t: seq<ClientRecord>): Scan {
    if t == [] then Between(0)
    else
      match (ScanTrace(t[..|t| - 1]), t[|t| - 1])
      case (Between(n), Connect) => Open(n + 1)
      case (Open(n), DataRecord) => Open(n)
      case (Open(n), ZeroRecord) => Between(n)
      case _ => Bad
  }

  function Repeat(n: nat): seq<ClientRecord> { seq(n, _ => DataRecord) }

  /** The trace of whole sessions that wrote the given numbers of data records. */
  function Sessions(data: seq<nat>): seq<ClientRecord> {
    if data == [] then []
    else
      var last := |data| - 1;
      Sessions(data[..last]) + [Connect] + Repeat(data[last]) + [ZeroRecord]
  }

  lemma ScanSnoc(t: seq<ClientRecord>, r: ClientRecord)
    ensures ScanTrace(t + [r]) == match (ScanTrace(t), r)
                                  case (Between(n), Connect) => Open(n + 1)
                                  case (Open(n), DataRecord) => Open(n)
                                  case (Open(n), ZeroRecord) => Between(n)
                                  case _ => Bad
  {
    assert (t + [r])[..|t|] == t;
  }

  lemma {:induction false} ScanData(t: seq<ClientRecord>, n: nat)
    requires ScanTrace(t).Open?
    ensures ScanTrace(t + Repeat(n)) == ScanTrace(t)
  {
    if n == 0 {
      assert t + Repeat(0) == t;
    } else {
      ScanData(t, n - 1);
      ScanSnoc(t + Repeat(n - 1), DataRecord);
      assert t + Repeat(n) == t + Repeat(n - 1) + [DataRecord];
    }
  }

  /** Whole sessions scan as that many sessions. */
  lemma {:induction false} SessionsScan(data: seq<nat>)
    ensures ScanTrace(Sessions(data)) == Between(|data|)
  {
    if data != [] {
      var last := |data| - 1;
      var before := Sessions(data[..last]);
      SessionsScan(data[..last]);
      ScanSnoc(before, Connect);
      ScanData(before + [Connect], data[last]);
      ScanSnoc(before + [Connect] + Repeat(data[last]), ZeroRecord);
    }
  }

  /** A trace that scans between sessions is a repetition of CONNECT, data records and one zero record. */
  lemma {:induction false} ScanIsSessions(t: seq<ClientRecord>) returns (data: seq<nat>, open: nat)
    requires !ScanTrace(t).Bad?
    ensures ScanTrace(t) == Between(|data|) || ScanTrace(t) == Open(|data| + 1)
    ensures ScanTrace(t).Between? ==> t == Sessions(data)
    ensures ScanTrace(t).Open? ==> t == Sessions(data) + [Connect] + Repeat(open)
  {
    data, open := [], 0;
    if t != [] {
      var last := |t| - 1;
      assert t == t[..last] + [t[last]];
      ScanSnoc(t[..last], t[last]);
      data, open := ScanIsSessions(t[..last]);
      match t[last]
      case Connect => open := 0;
      case DataRecord =>
        assert Repeat(open) + [DataRecord] == Repeat(open + 1);
        open := open + 1;
      case ZeroRecord =>
        assert (data + [open])[..|data|] == data;
        data := data + [open];
    }
  }

  function Connects(t: seq<ClientRecord>): nat {
    if t == [] then 0 else Connects(t[..|t| - 1]) + if t[|t| - 1].Connect? then 1 else 0
  }

  lemma ConnectsSnoc(t: seq<ClientRecord>, r: ClientRecord)
    ensures Connects(t + [r]) == Connects(t) + if r.Connect? then 1 else 0
  {
    assert (t + [r])[..|t|] == t;
  }

  lemma {:induction false} ConnectsData(t: seq<ClientRecord>, n: nat)
    ensures Connects(t + Repeat(n)) == Connects(t)
  {
    if n == 0 {
      assert t + Repeat(0) == t;
    } else {
      ConnectsData(t, n - 1);
      ConnectsSnoc(t + Repeat(n - 1), DataRecord);
      assert t + Repeat(n) == t + Repeat(n - 1) + [DataRecord];
    }
  }

  // ----- The state -----

  datatype Options = Options(reuse: bool, maxIdle: nat, maxUses: nat)

  /** What SnellClient::new accepts. */
  predicate ValidOptions(o: Options) {
    o.reuse ==> 1 <= o.maxIdle <= 128 && 1 <= o.maxUses <= 1024
  }

  /** A CONNECT or SOCKS tunnel, or one forwarded HTTP request whose body never half-closes the session. */
  datatype Kind = Tunnel | OneRequest

  datatype Upload = Writing | ClientEof | Stopped | BodySent

  datatype Phase =
    | Reusing
    | Relay(kind: Kind, upload: Upload, downloaded: bool)
    | Finish(clean: bool, closeSent: bool)
    | Closing
    | Release
    | AwaitLock
    | Pushing

  datatype Place = Leased(phase: Phase) | Idle | Retired

  /** `spoiled`: a write failed or was cut, so the trace may end inside a record. */
  datatype Conn = Conn(trace: seq<ClientRecord>, uses: nat, serverEof: bool, spoiled: bool, place: Place)

  type Id = nat

  datatype State = State(conns: map<Id, Conn>, idle: seq<Id>, lock: Option<Id>, closed: bool, drained: bool)

  const INIT := State(map[], [], None, false, false)

  // ----- One connection -----

  function Write(c: Conn, r: ClientRecord): Conn { c.(trace := c.trace + [r]) }

  /** What the holder of a leased connection, its relay and its server can do to it. */
  datatype LocalEvent =
    | StartReuse(next: Kind, written: bool, ok: bool)
    | WriteData(records: nat)
    | UploadEnds(ok: bool)
    | UploadStops
    | UploadFails
    | DownloadEnds(ok: bool)
    | RelayAborted(cut: bool)
    | FinishSession(ok: bool)
    | ServerCloses(ok: bool)
    | DropSession

  /** drive_relay and relay_one_request: what the relay returns once a direction has ended. */
  function Settle(kind: Kind, upload: Upload, downloaded: bool): Phase {
    match (kind, upload, downloaded)
    case (Tunnel, ClientEof, true) => Finish(true, true)
    case (Tunnel, Stopped, true) => Finish(true, false)
    case (OneRequest, BodySent, true) => Finish(true, false)
    case (OneRequest, Writing, true) => Finish(false, false)
    case _ => Relay(kind, upload, downloaded)
  }

  function ReuseStep(c: Conn, next: Kind, written: bool, ok: bool): Conn {
    if ok then
      Write(c, Connect).(uses := c.uses + 1, serverEof := false, place := Leased(Relay(next, Writing, false)))
    else
      (if written then Write(c, Connect) else c).(spoiled := true, place := Retired)
  }

  /** A client half-close: a zero record on a reusable session, a transport shutdown otherwise. */
  function UploadEndsStep(o: Options, c: Conn, kind: Kind, downloaded: bool, ok: bool): Conn {
    if !ok then c.(spoiled := true, place := Leased(Finish(false, false)))
    else if kind.OneRequest? then c.(place := Leased(Settle(kind, BodySent, downloaded)))
    else (if o.reuse then Write(c, ZeroRecord) else c).(place := Leased(Settle(kind, ClientEof, downloaded)))
  }

  function RelayStep(o: Options, c: Conn, kind: Kind, upload: Upload, downloaded: bool, e: LocalEvent): Conn {
    match e
    case WriteData(records) => if upload.Writing? then c.(trace := c.trace + Repeat(records)) else c
    case UploadEnds(ok) => if upload.Writing? then UploadEndsStep(o, c, kind, downloaded, ok) else c
    case UploadStops =>
      if kind.Tunnel? && upload.Writing? && downloaded then c.(place := Leased(Settle(kind, Stopped, true))) else c
    case UploadFails =>
      if upload.Writing? then c.(spoiled := true, place := Leased(Finish(false, false))) else c
    case DownloadEnds(ok) =>
      if downloaded then c
      else if ok then c.(serverEof := true, place := Leased(Settle(kind, upload, true)))
      else c.(place := Leased(Finish(false, false)))
    case RelayAborted(cut) => c.(spoiled := cut, place := Leased(Finish(false, false)))
    case _ => c
  }

  function FinishStep(o: Options, c: Conn, clean: bool, closeSent: bool, ok: bool): Conn {
    if !o.reuse || !clean then c.(place := Retired)
    else if closeSent then c.(place := Leased(Closing))
    else if ok then Write(c, ZeroRecord).(place := Leased(Closing))
    else c.(spoiled := true, place := Retired)
  }

  /** One event on a leased connection. An event that is not enabled changes nothing. */
  function ConnStep(o: Options, c: Conn, e: LocalEvent): Conn
    requires c.place.Leased?
  {
    match (c.place.phase, e)
    case (Pushing, _) => c
    case (_, DropSession) => c.(place := Retired)
    case (Reusing, StartReuse(next, written, ok)) => ReuseStep(c, next, written, ok)
    case (Relay(kind, upload, downloaded), _) => RelayStep(o, c, kind, upload, downloaded, e)
    case (Finish(clean, closeSent), FinishSession(ok)) => FinishStep(o, c, clean, closeSent, ok)
    case (Closing, ServerCloses(ok)) =>
      if ok then c.(serverEof := true, place := Leased(Release)) else c.(place := Retired)
    case _ => c
  }

  // ----- The pool -----

  datatype Event =
    | DialNew(id: Id, kind: Kind)
    | TakeIdle(usable: bool)
    | Local(id: Id, event: LocalEvent)
    | CheckRelease(id: Id)
    | LockPool(id: Id)
    | PushIdle(id: Id)
    | CloseFlag
    | CloseDrain

  predicate InPhase(s: State, id: Id, phase: Phase) {
    id in s.conns && s.conns[id].place == Leased(phase)
  }

  function Put(s: State, id: Id, c: Conn): State { s.(conns := s.conns[id := c]) }

  function Move(s: State, id: Id, p: Place): State
    requires id in s.conns
  {
    Put(s, id, s.conns[id].(place := p))
  }

  /** Pops from the back, as Vec::pop does. Stale entries are retired. */
  function TakeIdleStep(s: State, usable: bool): State {
    if s.lock.Some? || s.idle == [] || s.idle[|s.idle| - 1] !in s.conns then s
    else
      var id := s.idle[|s.idle| - 1];
      Move(s, id, if usable then Leased(Reusing) else Retired).(idle := s.idle[..|s.idle| - 1])
  }

  /** SnellClient.release before it takes the lock. */
  function CheckReleaseStep(o: Options, s: State, id: Id): State {
    if !InPhase(s, id, Release) then s
    else Move(s, id, if s.closed || s.conns[id].uses >= o.maxUses then Retired else Leased(AwaitLock))
  }

  /** SnellClient.release under the pool lock: the flag and the size are looked at again. */
  function LockStep(o: Options, s: State, id: Id): State {
    if !InPhase(s, id, AwaitLock) || s.lock.Some? then s
    else if s.closed || |s.idle| >= o.maxIdle then Move(s, id, Retired)
    else Move(s, id, Leased(Pushing)).(lock := Some(id))
  }

  function PushStep(s: State, id: Id): State {
    if !InPhase(s, id, Pushing) then s
    else Move(s, id, Idle).(idle := s.idle + [id], lock := None)
  }

  function DrainStep(s: State): State {
    if !s.closed || s.drained || s.lock.Some? then s
    else
      var conns := map id | id in s.conns :: if id in s.idle then s.conns[id].(place := Retired) else s.conns[id];
      s.(conns := conns, idle := [], drained := true)
  }

  function Step(o: Options, s: State, e: Event): State {
    match e
    // A dial that passed its closed check may still complete after close, so the flag is not asked here.
    case DialNew(id, kind) =>
      if id in s.conns then s
      else Put(s, id, Conn([Connect], 1, false, false, Leased(Relay(kind, Writing, false))))
    case TakeIdle(usable) => TakeIdleStep(s, usable)
    case Local(id, event) =>
      if id in s.conns && s.conns[id].place.Leased? then Put(s, id, ConnStep(o, s.conns[id], event)) else s
    case CheckRelease(id) => CheckReleaseStep(o, s, id)
    case LockPool(id) => LockStep(o, s, id)
    case PushIdle(id) => PushStep(s, id)
    case CloseFlag => s.(closed := true)
    case CloseDrain => DrainStep(s)
  }

  function Run(o: Options, events: seq<Event>): State {
    if events == [] then INIT else Step(o, Run(o, events[..|events| - 1]), events[|events| - 1])
  }

  // ----- What every interleaving keeps -----

  /** Where the trace of a leased connection stands in each phase. */
  predicate TraceFits(o: Options, c: Conn)
    requires c.place.Leased?
  {
    var scan := ScanTrace(c.trace);
    match c.place.phase
    case Reusing => scan == Between(c.uses) && c.uses < o.maxUses
    case Relay(_, upload, _) => scan == if o.reuse && upload.ClientEof? then Between(c.uses) else Open(c.uses)
    case Finish(clean, closeSent) => clean ==> scan == if o.reuse && closeSent then Between(c.uses) else Open(c.uses)
    case Closing | Release => scan == Between(c.uses)
    case AwaitLock | Pushing => scan == Between(c.uses) && c.uses < o.maxUses
  }

  predicate Settled(c: Conn)
    requires c.place.Leased?
  {
    match c.place.phase
    case Relay(kind, upload, downloaded) =>
      Settle(kind, upload, downloaded) == c.place.phase && (upload.BodySent? ==> kind.OneRequest?)
      && (downloaded ==> c.serverEof)
    case Finish(clean, _) => clean ==> c.serverEof
    case Release | AwaitLock | Pushing => c.serverEof
    case _ => true
  }

  predicate ConnOk(o: Options, c: Conn) {
    && 1 <= c.uses && Connects(c.trace) <= c.uses + (if c.place.Retired? && c.spoiled then 1 else 0)
    && (o.reuse ==> c.uses <= o.maxUses && Connects(c.trace) <= o.maxUses)
    && (!o.reuse ==> c.uses == 1 && Connects(c.trace) <= 1 && !c.place.Idle?)
    && match c.place
       case Retired => true
       case Idle => !c.spoiled && c.serverEof && c.uses < o.maxUses && ScanTrace(c.trace) == Between(c.uses)
       case Leased(phase) =>
         && (c.spoiled ==> phase.Finish? && !phase.clean)
         && TraceFits(o, c) && Settled(c)
         && (!o.reuse ==> phase.Relay? || phase.Finish?)
  }

  ghost predicate NoDuplicates(ids: seq<Id>) {
    forall i, j :: 0 <= i < j < |ids| ==> ids[i] != ids[j]
  }

  ghost predicate Inv(o: Options, s: State) {
    && (forall id :: id in s.conns ==> ConnOk(o, s.conns[id]))
    && (forall id :: id in s.idle ==> id in s.conns && s.conns[id].place.Idle?)
    && (forall id :: id in s.conns && s.conns[id].place.Idle? ==> id in s.idle)
    && NoDuplicates(s.idle) && |s.idle| <= o.maxIdle
    && (forall id :: id in s.conns && s.conns[id].place == Leased(Pushing) ==> s.lock == Some(id))
    && (s.lock.Some? ==> s.lock.value in s.conns && s.conns[s.lock.value].place == Leased(Pushing)
                         && |s.idle| < o.maxIdle && !s.drained)
    && (s.drained ==> s.closed && s.idle == [])
  }

  // ----- One connection keeps its invariant -----

  lemma WriteKeeps(c: Conn, r: ClientRecord)
    ensures Connects(Write(c, r).trace) == Connects(c.trace) + if r.Connect? then 1 else 0
    ensures ScanTrace(c.trace) == Between(c.uses) && r.Connect? ==> ScanTrace(Write(c, r).trace) == Open(c.uses + 1)
    ensures ScanTrace(c.trace) == Open(c.uses) && r.ZeroRecord? ==> ScanTrace(Write(c, r).trace) == Between(c.uses)
  {
    ScanSnoc(c.trace, r);
    ConnectsSnoc(c.trace, r);
  }

  /** Neither pooled nor about to be. */
  predicate InUse(c: Conn) { !c.place.Idle? && c.place != Leased(Pushing) }

  lemma UploadEndsKeeps(o: Options, c: Conn, ok: bool)
    requires ConnOk(o, c) && c.place.Leased? && c.place.phase.Relay? && c.place.phase.upload.Writing?
    ensures var p := c.place.phase; ConnOk(o, UploadEndsStep(o, c, p.kind, p.downloaded, ok)) && InUse(UploadEndsStep(o, c, p.kind, p.downloaded, ok))
  {
    hide ScanTrace, Connects;
    WriteKeeps(c, ZeroRecord);
  }

  lemma RelayKeeps(o: Options, c: Conn, e: LocalEvent)
    requires ConnOk(o, c) && c.place.Leased? && c.place.phase.Relay?
    ensures var p := c.place.phase; ConnOk(o, RelayStep(o, c, p.kind, p.upload, p.downloaded, e)) && InUse(RelayStep(o, c, p.kind, p.upload, p.downloaded, e))
  {
    hide ScanTrace, Connects, UploadEndsStep, Repeat;
    if e.WriteData? && c.place.phase.upload.Writing? {
      ScanData(c.trace, e.records);
      ConnectsData(c.trace, e.records);
    } else if e.UploadEnds? && c.place.phase.upload.Writing? {
      UploadEndsKeeps(o, c, e.ok);
    }
  }

  lemma ReuseKeeps(o: Options, c: Conn, next: Kind, written: bool, ok: bool)
    requires ConnOk(o, c) && c.place == Leased(Reusing)
    ensures ConnOk(o, ReuseStep(c, next, written, ok)) && InUse(ReuseStep(c, next, written, ok))
  {
    hide ScanTrace, Connects;
    WriteKeeps(c, Connect);
  }

  lemma FinishKeeps(o: Options, c: Conn, ok: bool)
    requires ConnOk(o, c) && c.place.Leased? && c.place.phase.Finish?
    ensures var p := c.place.phase; ConnOk(o, FinishStep(o, c, p.clean, p.closeSent, ok)) && InUse(FinishStep(o, c, p.clean, p.closeSent, ok))
  {
    hide ScanTrace, Connects;
    WriteKeeps(c, ZeroRecord);
  }

  /** Dropping a session, and the server's end of one. */
  lemma OtherKeeps(o: Options, c: Conn, ok: bool)
    requires ConnOk(o, c) && c.place.Leased?
    ensures ConnOk(o, c.(place := Retired))
    ensures c.place.phase.Closing? ==> ConnOk(o, if ok then c.(serverEof := true, place := Leased(Release)) else c.(place := Retired))
  {
    hide ScanTrace, Connects;
  }

  lemma LocalKeeps(o: Options, c: Conn, e: LocalEvent)
    requires ConnOk(o, c) && c.place.Leased?
    ensures ConnOk(o, ConnStep(o, c, e))
    ensures InUse(ConnStep(o, c, e)) || ConnStep(o, c, e) == c
    ensures c.place == Leased(Pushing) ==> ConnStep(o, c, e) == c
  {
    hide ReuseStep, RelayStep, FinishStep, ConnOk;
    OtherKeeps(o, c, e.ServerCloses? && e.ok);
    match (c.place.phase, e)
    case (Reusing, StartReuse(next, written, ok)) => ReuseKeeps(o, c, next, written, ok);
    case (Relay(_, _, _), _) => RelayKeeps(o, c, e);
    case (Finish(_, _), FinishSession(ok)) => FinishKeeps(o, c, ok);
    case _ =>
  }

  // ----- The pool keeps its invariant -----

  lemma PutKeeps(o: Options, s: State, id: Id, c: Conn)
    requires Inv(o, s) && ConnOk(o, c) && !c.place.Idle? && c.place != Leased(Pushing)
    requires id in s.conns ==> !s.conns[id].place.Idle? && s.conns[id].place != Leased(Pushing)
    ensures Inv(o, Put(s, id, c))
  {
  }

  lemma TakeIdleKeeps(o: Options, s: State, usable: bool)
    requires Inv(o, s)
    ensures Inv(o, TakeIdleStep(s, usable))
  {
    hide ConnOk;
    if s.idle != [] && s.idle[|s.idle| - 1] in s.conns {
      IdleLeaves(o, s.conns[s.idle[|s.idle| - 1]]);
    }
  }

  lemma IdleLeaves(o: Options, c: Conn)
    requires ConnOk(o, c)
    ensures c.place.Idle? ==> ConnOk(o, c.(place := Leased(Reusing))) && ConnOk(o, c.(place := Retired))
  {
    hide ScanTrace, Connects;
  }

  lemma PushKeeps(o: Options, s: State, id: Id)
    requires Inv(o, s)
    ensures Inv(o, PushStep(s, id))
  {
  }

  lemma CheckReleaseKeeps(o: Options, s: State, id: Id)
    requires Inv(o, s)
    ensures Inv(o, CheckReleaseStep(o, s, id))
  {
    if InPhase(s, id, Release) {
      PutKeeps(o, s, id, s.conns[id].(place := if s.closed || s.conns[id].uses >= o.maxUses then Retired else Leased(AwaitLock)));
    }
  }

  lemma LockKeeps(o: Options, s: State, id: Id)
    requires Inv(o, s)
    ensures Inv(o, LockStep(o, s, id))
  {
    if InPhase(s, id, AwaitLock) && s.lock.None? && (s.closed || |s.idle| >= o.maxIdle) {
      PutKeeps(o, s, id, s.conns[id].(place := Retired));
    }
  }

  lemma DrainKeeps(o: Options, s: State)
    requires Inv(o, s)
    ensures Inv(o, DrainStep(s))
  {
  }

  lemma StepKeeps(o: Options, s: State, e: Event)
    requires ValidOptions(o) && Inv(o, s)
    ensures Inv(o, Step(o, s, e))
  {
    hide ConnStep, TakeIdleStep, CheckReleaseStep, LockStep, PushStep, DrainStep;
    match e
    case DialNew(id, kind) =>
      ScanSnoc([], Connect);
      ConnectsSnoc([], Connect);
      if id !in s.conns {
        PutKeeps(o, s, id, Conn([Connect], 1, false, false, Leased(Relay(kind, Writing, false))));
      }
    case TakeIdle(usable) => TakeIdleKeeps(o, s, usable);
    case Local(id, event) =>
      if id in s.conns && s.conns[id].place.Leased? {
        LocalKeeps(o, s.conns[id], event);
        if s.conns[id].place == Leased(Pushing) {
          assert s.conns[id := s.conns[id]] == s.conns;
        } else {
          PutKeeps(o, s, id, ConnStep(o, s.conns[id], event));
        }
      }
    case CheckRelease(id) => CheckReleaseKeeps(o, s, id);
    case LockPool(id) => LockKeeps(o, s, id);
    case PushIdle(id) => PushKeeps(o, s, id);
    case CloseFlag =>
    case CloseDrain => DrainKeeps(o, s);
  }

  lemma {:induction false} RunKeeps(o: Options, events: seq<Event>)
    requires ValidOptions(o)
    ensures Inv(o, Run(o, events))
  {
    if events != [] {
      RunKeeps(o, events[..|events| - 1]);
      StepKeeps(o, Run(o, events[..|events| - 1]), events[|events| - 1]);
    }
  }

  // ----- What the invariant says about every run -----

  /** No interleaving overfills the pool, pools a dirty or worn connection, or writes outside whole sessions. */
  lemma EveryIdleConnectionIsClean(o: Options, events: seq<Event>, id: Id) returns (data: seq<nat>)
    requires ValidOptions(o) && id in Run(o, events).idle
    ensures var s := Run(o, events);
      && id in s.conns && s.conns[id].place == Idle && |s.idle| <= o.maxIdle && NoDuplicates(s.idle)
      && s.conns[id].serverEof && !s.conns[id].spoiled
      && 1 <= s.conns[id].uses < o.maxUses && |data| == s.conns[id].uses
      && s.conns[id].trace == Sessions(data)
  {
    RunKeeps(o, events);
    var open: nat;
    data, open := ScanIsSessions(Run(o, events).conns[id].trace);
  }

  /** Every connection is leased, idle or retired, and idle exactly when the pool lists it; none outlives its uses. */
  lemma EveryConnectionHasOnePlace(o: Options, events: seq<Event>, id: Id)
    requires ValidOptions(o) && id in Run(o, events).conns
    ensures var s := Run(o, events); id in s.idle <==> s.conns[id].place.Idle?
    ensures o.reuse ==> Connects(Run(o, events).conns[id].trace) <= o.maxUses
    ensures !o.reuse ==> Connects(Run(o, events).conns[id].trace) <= 1 && id !in Run(o, events).idle
  {
    RunKeeps(o, events);
  }

  /** A relay that ended cleanly has written one zero record, or leaves exactly one for `finish` to write. */
  lemma CleanEndSendsOneZero(o: Options, events: seq<Event>, id: Id) returns (data: seq<nat>, open: nat)
    requires ValidOptions(o) && o.reuse
    requires InPhase(Run(o, events), id, Finish(true, false)) || InPhase(Run(o, events), id, Finish(true, true))
    ensures var c := Run(o, events).conns[id];
      && (c.place.phase.closeSent ==> |data| == c.uses && c.trace == Sessions(data))
      && (!c.place.phase.closeSent ==> |data| == c.uses - 1 && c.trace == Sessions(data) + [Connect] + Repeat(open)
                                       && FinishStep(o, c, true, false, true).trace == Sessions(data + [open]))
  {
    RunKeeps(o, events);
    var c := Run(o, events).conns[id];
    data, open := ScanIsSessions(c.trace);
    assert (data + [open])[..|data|] == data;
  }

  lemma StepLeavesRetired(o: Options, s: State, e: Event, id: Id)
    requires ValidOptions(o) && Inv(o, s) && id in s.conns && s.conns[id].place.Retired?
    ensures id in Step(o, s, e).conns && Step(o, s, e).conns[id] == s.conns[id]
  {
  }

  /** Connections never come back from retirement, and nothing more is written on them, whatever follows. */
  lemma {:induction false} RetiredStays(o: Options, events: seq<Event>, more: seq<Event>, id: Id)
    requires ValidOptions(o) && id in Run(o, events).conns && Run(o, events).conns[id].place.Retired?
    ensures id in Run(o, events + more).conns && Run(o, events + more).conns[id] == Run(o, events).conns[id]
    decreases |more|
  {
    hide Step;
    if more == [] {
      assert events + more == events;
    } else {
      var last := |more| - 1;
      RetiredStays(o, events, more[..last], id);
      RunKeeps(o, events + more[..last]);
      StepLeavesRetired(o, Run(o, events + more[..last]), more[last], id);
      assert (events + more)[..|events + more| - 1] == events + more[..last];
    }
  }

  /** Once close has drained the pool, every continuation leaves it empty. */
  lemma {:induction false} DrainedStaysEmpty(o: Options, events: seq<Event>, more: seq<Event>)
    requires ValidOptions(o) && Run(o, events).drained
    ensures Run(o, events + more).drained && Run(o, events + more).idle == []
  {
    hide Step;
    RunKeeps(o, events + more);
    if more == [] {
      assert events + more == events;
    } else {
      var last := |more| - 1;
      DrainedStaysEmpty(o, events, more[..last]);
      StepKeepsDrained(o, Run(o, events + more[..last]), more[last]);
      assert (events + more)[..|events + more| - 1] == events + more[..last];
    }
  }

  lemma StepKeepsDrained(o: Options, s: State, e: Event)
    requires s.drained
    ensures Step(o, s, e).drained
  {
  }

  // ----- What each way through the pool comes to -----

  lemma OneEvent(o: Options, events: seq<Event>, e: Event)
    ensures Run(o, events + [e]) == Step(o, Run(o, events), e)
  {
    hide Step;
    assert (events + [e])[..|events|] == events;
  }

  function RunFrom(o: Options, s: State, events: seq<Event>): State
    decreases |events|
  {
    if events == [] then s else RunFrom(o, Step(o, s, events[0]), events[1..])
  }

  lemma {:induction false} RunOn(o: Options, events: seq<Event>, more: seq<Event>)
    ensures Run(o, events + more) == RunFrom(o, Run(o, events), more)
    decreases |more|
  {
    hide Step;
    if more == [] {
      assert events + more == events;
    } else {
      OneEvent(o, events, more[0]);
      RunOn(o, events + [more[0]], more[1..]);
      assert events + [more[0]] + more[1..] == events + more;
    }
  }

  lemma InARow(o: Options, s: State, a: Event, b: Event, c: Event)
    ensures RunFrom(o, s, [a, b]) == Step(o, Step(o, s, a), b)
    ensures RunFrom(o, s, [a, b, c]) == Step(o, Step(o, Step(o, s, a), b), c)
  {
    hide Step;
    assert [a, b, c][1..] == [b, c] && [b, c][1..] == [c] && [c][1..] == [] && [a, b][1..] == [b] && [b][1..] == [];
    var next := Step(o, s, a);
    assert RunFrom(o, Step(o, next, b), [c]) == RunFrom(o, Step(o, Step(o, next, b), c), []);
    assert RunFrom(o, next, [b]) == RunFrom(o, Step(o, next, b), []);
    assert RunFrom(o, next, [b, c]) == RunFrom(o, Step(o, next, b), [c]);
  }

  /** What a release is: the pool takes the connection, or it is retired. */
  predicate Pools(o: Options, s: State, id: Id)
    requires id in s.conns
  {
    !s.closed && s.conns[id].uses < o.maxUses && |s.idle| < o.maxIdle
  }

  /** The state after a release: the connection is at the end of the pool, or retired. */
  function AfterRelease(o: Options, s: State, id: Id): State
    requires id in s.conns
  {
    if Pools(o, s, id) then s.(conns := s.conns[id := s.conns[id].(place := Idle)], idle := s.idle + [id])
    else s.(conns := s.conns[id := s.conns[id].(place := Retired)])
  }

  /** A release with nobody else at the pool: exactly an open, unworn, not full pool takes the connection, at its end. */
  lemma ReleaseOutcome(o: Options, events: seq<Event>, id: Id)
    requires InPhase(Run(o, events), id, Release) && Run(o, events).lock.None?
    ensures Run(o, events + [CheckRelease(id), LockPool(id), PushIdle(id)]) == AfterRelease(o, Run(o, events), id)
  {
    hide Run, Step, AfterRelease;
    RunOn(o, events, [CheckRelease(id), LockPool(id), PushIdle(id)]);
    ReleaseSteps(o, Run(o, events), id);
  }

  lemma ReleaseSteps(o: Options, s: State, id: Id)
    requires InPhase(s, id, Release) && s.lock.None?
    ensures RunFrom(o, s, [CheckRelease(id), LockPool(id), PushIdle(id)]) == AfterRelease(o, s, id)
  {
    var c := s.conns[id];
    var a := Step(o, s, CheckRelease(id));
    var b := Step(o, a, LockPool(id));
    var d := Step(o, b, PushIdle(id));
    InARow(o, s, CheckRelease(id), LockPool(id), PushIdle(id));
    if s.closed || c.uses >= o.maxUses {
      assert d == a;
    } else if |s.idle| >= o.maxIdle {
      assert d == b;
      assert b.conns == s.conns[id := c.(place := Retired)];
    } else {
      assert d.conns == s.conns[id := c.(place := Idle)];
    }
  }

  predicate HasLast(s: State) { s.idle != [] && s.idle[|s.idle| - 1] in s.conns }

  /** The last entry has left the pool and written its next CONNECT. */
  function AfterReuse(s: State, kind: Kind): State
    requires HasLast(s)
  {
    var id := s.idle[|s.idle| - 1];
    var c := s.conns[id];
    s.(idle := s.idle[..|s.idle| - 1],
       conns := s.conns[id := Conn(c.trace + [Connect], c.uses + 1, false, false, Leased(Relay(kind, Writing, false)))])
  }

  /** The last entry has left the pool for good. */
  function AfterStale(s: State): State
    requires HasLast(s)
  {
    var id := s.idle[|s.idle| - 1];
    s.(idle := s.idle[..|s.idle| - 1], conns := s.conns[id := s.conns[id].(place := Retired)])
  }

  /** A dial with the pool to itself takes the last entry: it is reused if it is still usable, and retired if not. */
  lemma DialOutcome(o: Options, events: seq<Event>, kind: Kind)
    requires ValidOptions(o) && Run(o, events).idle != [] && Run(o, events).lock.None?
    ensures var s := Run(o, events);
      var id := s.idle[|s.idle| - 1];
      && HasLast(s)
      && Run(o, events + [TakeIdle(true), Local(id, StartReuse(kind, true, true))]) == AfterReuse(s, kind)
      && Run(o, events + [TakeIdle(false)]) == AfterStale(s)
  {
    hide *;
    var s := Run(o, events);
    LastIsIdle(o, events);
    DialSteps(o, s, kind);
    OneEvent(o, events, TakeIdle(false));
    RunOn(o, events, [TakeIdle(true), Local(s.idle[|s.idle| - 1], StartReuse(kind, true, true))]);
  }

  lemma LastIsIdle(o: Options, events: seq<Event>)
    requires ValidOptions(o) && Run(o, events).idle != []
    ensures var s := Run(o, events);
      var id := s.idle[|s.idle| - 1];
      HasLast(s) && !s.conns[id].spoiled
  {
    hide ConnOk, Step;
    RunKeeps(o, events);
    var s := Run(o, events);
    IdleIsWhole(o, s.conns[s.idle[|s.idle| - 1]]);
  }

  lemma DialSteps(o: Options, s: State, kind: Kind)
    requires HasLast(s) && s.lock.None? && !s.conns[s.idle[|s.idle| - 1]].spoiled
    ensures var id := s.idle[|s.idle| - 1];
      && RunFrom(o, s, [TakeIdle(true), Local(id, StartReuse(kind, true, true))]) == AfterReuse(s, kind)
      && Step(o, s, TakeIdle(false)) == AfterStale(s)
  {
    hide Step, RunFrom;
    var id := s.idle[|s.idle| - 1];
    var c := s.conns[id].(place := Leased(Reusing));
    var d := Conn(s.conns[id].trace + [Connect], s.conns[id].uses + 1, false, false, Leased(Relay(kind, Writing, false)));
    InARow(o, s, TakeIdle(true), Local(id, StartReuse(kind, true, true)), CloseFlag);
    TakeOutcome(o, s);
    ReuseOutcome(o, Step(o, s, TakeIdle(true)), id, kind);
    assert s.conns[id := c][id := d] == s.conns[id := d];
  }

  lemma TakeOutcome(o: Options, s: State)
    requires s.idle != [] && s.lock.None? && s.idle[|s.idle| - 1] in s.conns
    ensures var id := s.idle[|s.idle| - 1];
      && Step(o, s, TakeIdle(true)) == s.(idle := s.idle[..|s.idle| - 1], conns := s.conns[id := s.conns[id].(place := Leased(Reusing))])
      && Step(o, s, TakeIdle(false)) == s.(idle := s.idle[..|s.idle| - 1], conns := s.conns[id := s.conns[id].(place := Retired)])
  {
  }

  lemma ReuseOutcome(o: Options, s: State, id: Id, kind: Kind)
    requires InPhase(s, id, Reusing)
    ensures Step(o, s, Local(id, StartReuse(kind, true, true)))
         == s.(conns := s.conns[id := Conn(s.conns[id].trace + [Connect], s.conns[id].uses + 1, false, s.conns[id].spoiled,
                                           Leased(Relay(kind, Writing, false)))])
  {
  }

  lemma IdleIsWhole(o: Options, c: Conn)
    requires ConnOk(o, c) && c.place.Idle?
    ensures !c.spoiled
  {
  }

  /** Reusing fails: the connection is retired, whether or not its CONNECT was written. */
  lemma FailedReuseOutcome(o: Options, c: Conn, kind: Kind, written: bool)
    requires c.place == Leased(Reusing)
    ensures ConnStep(o, c, StartReuse(kind, written, false)).place == Retired
  {
  }

  /** A new connection starts with one CONNECT. */
  lemma NewOutcome(o: Options, s: State, id: Id, kind: Kind)
    requires id !in s.conns
    ensures Step(o, s, DialNew(id, kind))
         == s.(conns := s.conns[id := Conn([Connect], 1, false, false, Leased(Relay(kind, Writing, false)))])
  {
  }

  /** Closing retires exactly the pooled connections. */
  lemma CloseOutcome(o: Options, s: State)
    requires s.lock.None? && !s.drained
    ensures var t := RunFrom(o, s, [CloseFlag, CloseDrain]);
      && t.closed && t.drained && t.idle == [] && t.conns.Keys == s.conns.Keys
      && forall id :: id in s.conns ==> t.conns[id] == if id in s.idle then s.conns[id].(place := Retired) else s.conns[id]
  {
    InARow(o, s, CloseFlag, CloseDrain, CloseDrain);
  }

  /** Events on one leased connection, in a row. */
  function ConnRun(o: Options, c: Conn, events: seq<LocalEvent>): Conn
    decreases |events|
  {
    if events == [] || !c.place.Leased? then c else ConnRun(o, ConnStep(o, c, events[0]), events[1..])
  }

  /** What a clean session leaves on its connection: the data records written, one zero record, ready for release. */
  function AfterClean(c: Conn, n: nat): Conn {
    c.(trace := c.trace + Repeat(n) + [ZeroRecord], serverEof := true, place := Leased(Release))
  }

  lemma FiveEvents(o: Options, c: Conn, a: LocalEvent, b: LocalEvent, d: LocalEvent, e: LocalEvent, f: LocalEvent)
    requires c.place.Leased? && ConnStep(o, c, a).place.Leased? && ConnStep(o, ConnStep(o, c, a), b).place.Leased?
    requires var x := ConnStep(o, ConnStep(o, c, a), b); ConnStep(o, x, d).place.Leased? && ConnStep(o, ConnStep(o, x, d), e).place.Leased?
    ensures ConnRun(o, c, [a, b, d, e, f])
         == ConnStep(o, ConnStep(o, ConnStep(o, ConnStep(o, ConnStep(o, c, a), b), d), e), f)
  {
    hide ConnStep;
    var s := [a, b, d, e, f];
    assert s[1..] == [b, d, e, f] && s[1..][1..] == [d, e, f] && s[1..][1..][1..] == [e, f];
    assert s[1..][1..][1..][1..] == [f] && s[1..][1..][1..][1..][1..] == [];
    var c1 := ConnStep(o, c, a);
    var c2 := ConnStep(o, c1, b);
    var c3 := ConnStep(o, c2, d);
    var c4 := ConnStep(o, c3, e);
    assert ConnRun(o, c4, [f]) == ConnRun(o, ConnStep(o, c4, f), []);
    assert ConnRun(o, c3, [e, f]) == ConnRun(o, c4, [f]);
    assert ConnRun(o, c2, [d, e, f]) == ConnRun(o, c3, [e, f]);
    assert ConnRun(o, c1, [b, d, e, f]) == ConnRun(o, c2, [d, e, f]);
  }

  /** How a session ends once its relay has settled as clean. */
  lemma CleanEnd(o: Options, c: Conn, closeSent: bool)
    requires o.reuse && c.place == Leased(Finish(true, closeSent))
    ensures var x := ConnStep(o, c, FinishSession(true));
      && x == c.(trace := if closeSent then c.trace else c.trace + [ZeroRecord], place := Leased(Closing))
      && ConnStep(o, x, ServerCloses(true)) == x.(serverEof := true, place := Leased(Release))
  {
  }

  lemma DataWrites(o: Options, c: Conn, kind: Kind, n: nat)
    requires c.place == Leased(Relay(kind, Writing, false))
    ensures ConnStep(o, c, WriteData(n)) == c.(trace := c.trace + Repeat(n))
  {
  }

  lemma ClientEndsFirst(o: Options, c: Conn, kind: Kind)
    requires o.reuse && c.place == Leased(Relay(kind, Writing, false))
    ensures var x := ConnStep(o, c, UploadEnds(true));
      && x.place.Leased?
      && ConnStep(o, x, DownloadEnds(true))
         == if kind.Tunnel? then c.(trace := c.trace + [ZeroRecord], serverEof := true, place := Leased(Finish(true, true)))
            else c.(serverEof := true, place := Leased(Finish(true, false)))
  {
  }

  lemma ServerEndsFirst(o: Options, c: Conn)
    requires o.reuse && c.place == Leased(Relay(Tunnel, Writing, false))
    ensures var x := ConnStep(o, c, DownloadEnds(true));
      && x.place.Leased?
      && ConnStep(o, x, UploadStops) == c.(serverEof := true, place := Leased(Finish(true, false)))
      && ConnStep(o, x, UploadEnds(true)) == c.(trace := c.trace + [ZeroRecord], serverEof := true, place := Leased(Finish(true, true)))
  {
  }

  /** The client ends first, the server does, or one request is answered: each clean way writes one zero record, and all come to the same. */
  lemma CleanSession(o: Options, c: Conn, kind: Kind, n: nat)
    requires o.reuse && c.place == Leased(Relay(kind, Writing, false)) && !c.spoiled
    ensures ConnRun(o, c, [WriteData(n), UploadEnds(true), DownloadEnds(true), FinishSession(true), ServerCloses(true)]) == AfterClean(c, n)
    ensures kind.Tunnel? ==>
      ConnRun(o, c, [WriteData(n), DownloadEnds(true), UploadStops, FinishSession(true), ServerCloses(true)]) == AfterClean(c, n)
    ensures kind.Tunnel? ==>
      ConnRun(o, c, [WriteData(n), DownloadEnds(true), UploadEnds(true), FinishSession(true), ServerCloses(true)]) == AfterClean(c, n)
  {
    hide ConnStep, ConnRun, Repeat;
    DataWrites(o, c, kind, n);
    var w := ConnStep(o, c, WriteData(n));
    ClientEndsFirst(o, w, kind);
    CleanEnd(o, ConnStep(o, ConnStep(o, w, UploadEnds(true)), DownloadEnds(true)), kind.Tunnel?);
    FiveEvents(o, c, WriteData(n), UploadEnds(true), DownloadEnds(true), FinishSession(true), ServerCloses(true));
    if kind.Tunnel? {
      ServerEndsFirst(o, w);
      var x := ConnStep(o, w, DownloadEnds(true));
      CleanEnd(o, ConnStep(o, x, UploadStops), false);
      CleanEnd(o, ConnStep(o, x, UploadEnds(true)), true);
      FiveEvents(o, c, WriteData(n), DownloadEnds(true), UploadStops, FinishSession(true), ServerCloses(true));
      FiveEvents(o, c, WriteData(n), DownloadEnds(true), UploadEnds(true), FinishSession(true), ServerCloses(true));
    }
  }

  /** Every other end of a relay retires the connection, and writes nothing on it. */
  lemma UncleanSession(o: Options, c: Conn, kind: Kind, downloaded: bool, e: LocalEvent, ok: bool)
    requires c.place == Leased(Relay(kind, Writing, downloaded))
    requires e == UploadFails || e == UploadEnds(false) || e.RelayAborted? || (e == DownloadEnds(false) && !downloaded)
             || (e == DownloadEnds(true) && !downloaded && kind.OneRequest?)
    ensures var t := ConnRun(o, c, [e, FinishSession(ok)]); t.place == Retired && t.trace == c.trace
  {
    var x := ConnStep(o, c, e);
    assert [e, FinishSession(ok)][1..] == [FinishSession(ok)] && [FinishSession(ok)][1..] == [];
    assert x.place == Leased(Finish(false, false));
    assert ConnRun(o, x, [FinishSession(ok)]) == ConnRun(o, ConnStep(o, x, FinishSession(ok)), []);
  }

  /** Without reuse nothing is written at the end, and the connection is retired. */
  lemma NoReuseSession(o: Options, c: Conn, n: nat)
    requires !o.reuse && c.place == Leased(Relay(Tunnel, Writing, false))
    ensures var t := ConnRun(o, c, [WriteData(n), UploadEnds(true), DownloadEnds(true), FinishSession(true), ServerCloses(true)]);
      t.place == Retired && t.trace == c.trace + Repeat(n)
  {
    var c1 := ConnStep(o, c, WriteData(n));
    var c2 := ConnStep(o, c1, UploadEnds(true));
    var c3 := ConnStep(o, c2, DownloadEnds(true));
    FiveEventsEarly(o, c, WriteData(n), UploadEnds(true), DownloadEnds(true), FinishSession(true), ServerCloses(true));
  }

  lemma FiveEventsEarly(o: Options, c: Conn, a: LocalEvent, b: LocalEvent, d: LocalEvent, e: LocalEvent, f: LocalEvent)
    requires c.place.Leased? && ConnStep(o, c, a).place.Leased? && ConnStep(o, ConnStep(o, c, a), b).place.Leased?
    requires var x := ConnStep(o, ConnStep(o, c, a), b); ConnStep(o, x, d).place.Leased? && !ConnStep(o, ConnStep(o, x, d), e).place.Leased?
    ensures ConnRun(o, c, [a, b, d, e, f]) == ConnStep(o, ConnStep(o, ConnStep(o, ConnStep(o, c, a), b), d), e)
  {
    hide ConnStep;
    var s := [a, b, d, e, f];
    assert s[1..] == [b, d, e, f] && s[1..][1..] == [d, e, f] && s[1..][1..][1..] == [e, f] && [e, f][1..] == [f];
    var c1 := ConnStep(o, c, a);
    var c2 := ConnStep(o, c1, b);
    var c3 := ConnStep(o, c2, d);
    assert ConnRun(o, c3, [e, f]) == ConnRun(o, ConnStep(o, c3, e), [f]);
    assert ConnRun(o, c2, [d, e, f]) == ConnRun(o, c3, [e, f]);
    assert ConnRun(o, c1, [b, d, e, f]) == ConnRun(o, c2, [d, e, f]);
  }

  function OnConn(id: Id, events: seq<LocalEvent>): seq<Event> {
    if events == [] then [] else [Local(id, events[0])] + OnConn(id, events[1..])
  }

  /** Events on one connection change that connection only. */
  lemma {:induction false} LocalOutcome(o: Options, s: State, id: Id, events: seq<LocalEvent>)
    requires id in s.conns
    ensures RunFrom(o, s, OnConn(id, events)) == s.(conns := s.conns[id := ConnRun(o, s.conns[id], events)])
    decreases |events|
  {
    hide ConnStep;
    if events == [] {
      assert s.conns[id := s.conns[id]] == s.conns;
    } else {
      var next := Step(o, s, Local(id, events[0]));
      assert OnConn(id, events)[1..] == OnConn(id, events[1..]);
      assert s.conns[id := s.conns[id]] == s.conns;
      LocalOutcome(o, next, id, events[1..]);
      if s.conns[id].place.Leased? {
        var c := ConnRun(o, s.conns[id], events);
        assert next.conns[id := c] == s.conns[id := c];
      } else {
        ParkedRun(o, s.conns[id], events[1..]);
      }
    }
  }

  lemma ParkedRun(o: Options, c: Conn, events: seq<LocalEvent>)
    requires !c.place.Leased?
    ensures ConnRun(o, c, events) == c
  {
  }

  /**
   From every reachable state: a tunnel that ends cleanly with nobody else at
   the pool is pooled exactly if the pool is open, not full and the connection
   not worn out, and carries one more whole session in its trace.
   */
  lemma CleanSessionIsPooled(o: Options, events: seq<Event>, id: Id, n: nat)
    requires ValidOptions(o) && o.reuse && InPhase(Run(o, events), id, Relay(Tunnel, Writing, false)) && Run(o, events).lock.None?
    ensures var s := Run(o, events);
      var c := s.conns[id];
      var session := OnConn(id, [WriteData(n), UploadEnds(true), DownloadEnds(true), FinishSession(true), ServerCloses(true)]);
      var t := Run(o, events + session + [CheckRelease(id), LockPool(id), PushIdle(id)]);
      && t == AfterRelease(o, s.(conns := s.conns[id := AfterClean(c, n)]), id)
  {
    hide Step, ConnRun, OnConn, ConnOk, AfterRelease, AfterClean;
    var s := Run(o, events);
    var locals := [WriteData(n), UploadEnds(true), DownloadEnds(true), FinishSession(true), ServerCloses(true)];
    RunKeeps(o, events);
    RelayIsWhole(o, s.conns[id]);
    CleanSession(o, s.conns[id], Tunnel, n);
    LocalOutcome(o, s, id, locals);
    RunOn(o, events, OnConn(id, locals));
    CleanIsReleased(s.conns[id], n);
    ReleaseOutcome(o, events + OnConn(id, locals), id);
  }

  lemma CleanIsReleased(c: Conn, n: nat)
    ensures AfterClean(c, n).place == Leased(Release)
  {
  }

  lemma RelayIsWhole(o: Options, c: Conn)
    requires ConnOk(o, c) && c.place.Leased? && c.place.phase.Relay?
    ensures !c.spoiled
  {
  }
}
