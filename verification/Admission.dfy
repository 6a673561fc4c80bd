/**
 Admitting connections under a limit that can change (src/cli.rs): one accept
 loop, any number of connections ending, and limit changes, interleaved at every
 atomic operation. The watched limit has a version that grows with each change;
 a notification with no waiter is kept, and further ones add nothing.
 */
module Admission {
  import opened Prelude

  /** Where the accept loop is; it remembers the limit and version it borrowed. */
  datatype Place =
    | Elsewhere
    | Deciding(limit: nat, version: nat)
    | Admitting(limit: nat, version: nat)
    | Waiting(version: nat)

  type Id = nat

  /**
   `count` is the atomic counter; `live` holds the permits handed out, `ending`
   those being dropped that have given their count back and not yet notified.
   `next` names the next permit. The last two fields record history: the
   largest limit so far, and how many connections were admitted since the last
   limit change with the count not below the limit in force.
   */
  datatype State = State(limit: nat, version: nat, count: int, live: set<Id>, ending: set<Id>, next: Id,
                         notified: bool, place: Place, largest: nat, over: nat)

  datatype Event = Borrow | Load | Add | WakeByLimit | WakeByEnd | GiveBack(id: Id) | Notify(id: Id) | SetLimit(limit: nat)

  function Next(s: State, e: Event): Option<State> {
    match e
    case Borrow => if s.place.Elsewhere? then Some(s.(place := Deciding(s.limit, s.version))) else None
    case Load =>
      if !s.place.Deciding? then None
      else if s.count < s.place.limit then Some(s.(place := Admitting(s.place.limit, s.place.version)))
      else Some(s.(place := Waiting(s.place.version)))
    case Add =>
      if !s.place.Admitting? then None
      else Some(s.(count := s.count + 1, live := s.live + {s.next}, next := s.next + 1, place := Elsewhere,
                   over := if s.count < s.limit then s.over else s.over + 1))
    case WakeByLimit => if s.place.Waiting? && s.place.version != s.version then Some(s.(place := Elsewhere)) else None
    case WakeByEnd => if s.place.Waiting? && s.notified then Some(s.(place := Elsewhere, notified := false)) else None
    case GiveBack(id) =>
      if id in s.live then Some(s.(count := s.count - 1, live := s.live - {id}, ending := s.ending + {id})) else None
    case Notify(id) => if id in s.ending then Some(s.(ending := s.ending - {id}, notified := true)) else None
    case SetLimit(n) =>
      Some(s.(limit := n, version := s.version + 1, largest := if n > s.largest then n else s.largest, over := 0))
  }

  /** The state after a run of events, if each can happen. */
  function Exec(s: State, events: seq<Event>): Option<State> {
    if events == [] then Some(s)
    else
      var before := Exec(s, events[..|events| - 1]);
      if before.None? then None else Next(before.value, events[|events| - 1])
  }

  function Initial(limit: nat): State { State(limit, 0, 0, {}, {}, 0, false, Elsewhere, limit, 0) }

  ghost predicate Reachable(s: State) { exists limit, events :: Exec(Initial(limit), events) == Some(s) }

  ghost predicate Inv(s: State) {
    && s.count == |s.live| && s.count <= s.largest && s.limit <= s.largest && s.over <= 1
    && (forall id :: id in s.live || id in s.ending ==> id < s.next)
    && match s.place {
         case Elsewhere => true
         case Deciding(l, v) => Borrowed(s, l, v)
         case Admitting(l, v) => Borrowed(s, l, v) && s.count < l
         case Waiting(v) => v <= s.version
                            && (s.count < s.limit ==> s.version != v || s.notified || s.ending != {})
       }
  }

  /** A borrowed limit is the one in force unless the version moved; and a stale one has not been used yet. */
  ghost predicate Borrowed(s: State, limit: nat, version: nat) {
    version <= s.version && limit <= s.largest && (version == s.version ==> limit == s.limit) && (version < s.version ==> s.over == 0)
  }

  lemma StepKeeps(s: State, e: Event)
    requires Inv(s) && Next(s, e).Some?
    ensures Inv(Next(s, e).value)
  {
    match e
    case Add =>
      assert |s.live + {s.next}| == |s.live| + 1;
    case GiveBack(id) =>
      assert |s.live - {id}| == |s.live| - 1;
      assert id in s.ending + {id};
    case _ =>
  }

  lemma {:induction false} RunKeeps(limit: nat, events: seq<Event>)
    requires Exec(Initial(limit), events).Some?
    ensures Inv(Exec(Initial(limit), events).value)
  {
    hide Inv, Next;
    if events == [] {
      InitialInv(limit);
    } else {
      RunKeeps(limit, events[..|events| - 1]);
      StepKeeps(Exec(Initial(limit), events[..|events| - 1]).value, events[|events| - 1]);
    }
  }

  lemma InitialInv(limit: nat)
    ensures Inv(Initial(limit))
  {
  }

  lemma ReachableInv(s: State)
    requires Reachable(s)
    ensures Inv(s)
  {
    hide Inv, Exec;
    var limit, events :| Exec(Initial(limit), events) == Some(s);
    RunKeeps(limit, events);
  }

  function Adds(events: seq<Event>): nat {
    if events == [] then 0 else Adds(events[..|events| - 1]) + if events[|events| - 1].Add? then 1 else 0
  }

  /** The permits that a run handed out and that were not given back in it. */
  ghost predicate LiveAfter(events: seq<Event>, s: State) {
    && s.next == Adds(events) && (forall id: Id :: GiveBack(id) in events ==> id < Adds(events))
    && (forall id: Id :: id in s.live <==> id < Adds(events) && GiveBack(id) !in events)
  }

  lemma {:induction false} LiveIsHistory(limit: nat, events: seq<Event>)
    requires Exec(Initial(limit), events).Some?
    ensures LiveAfter(events, Exec(Initial(limit), events).value)
  {
    if events != [] {
      var before, last := events[..|events| - 1], events[|events| - 1];
      LiveIsHistory(limit, before);
      OneMoreLive(Exec(Initial(limit), before).value, before, last);
      assert before + [last] == events;
    }
  }

  lemma OneMoreLive(s: State, events: seq<Event>, e: Event)
    requires LiveAfter(events, s) && Next(s, e).Some?
    ensures LiveAfter(events + [e], Next(s, e).value)
  {
    assert (events + [e])[..|events|] == events;
  }

  lemma {:induction false} PrefixRuns(s: State, events: seq<Event>, j: nat)
    requires Exec(s, events).Some? && j < |events|
    ensures Exec(s, events[..j]).Some? && Next(Exec(s, events[..j]).value, events[j]).Some?
    decreases |events|
  {
    hide Next;
    if j < |events| - 1 {
      var before := events[..|events| - 1];
      PrefixRuns(s, before, j);
      assert before[..j] == events[..j];
    }
  }

  /**
   After every run the counter is the number of permits handed out and not given
   back, each given back at most once, and never more than the largest limit.
   */
  lemma CountIsLive(limit: nat, events: seq<Event>)
    requires Exec(Initial(limit), events).Some?
    ensures var s := Exec(Initial(limit), events).value;
      && LiveAfter(events, s) && s.count == |s.live| <= s.largest
    ensures forall i, j :: 0 <= i < j < |events| && events[i].GiveBack? ==> events[i] != events[j]
  {
    LiveIsHistory(limit, events);
    RunKeeps(limit, events);
    forall i, j | 0 <= i < j < |events| && events[i].GiveBack? ensures events[i] != events[j] {
      PrefixRuns(Initial(limit), events, j);
      LiveIsHistory(limit, events[..j]);
      assert events[i] == events[..j][i];
    }
  }

  /**
   An admission sees a count below the limit it borrowed, which is the limit in
   force unless that changed in between; and between two changes at most one
   admission finds the limit in force reached.
   */
  lemma AdmissionRespectsLimit(s: State)
    requires Reachable(s) && Next(s, Add).Some?
    ensures s.count < s.place.limit
    ensures s.place.version == s.version ==> s.count < s.limit
    ensures s.count >= s.limit ==> s.over == 0 && s.place.version < s.version
    ensures Next(s, Add).value.over <= 1
  {
    ReachableInv(s);
  }

  // ----- Exactly when the limit in force can be overshot -----

  /** No change of the run lowers the limit. */
  predicate NeverLowers(s: State, events: seq<Event>) {
    events == []
    || (NeverLowers(s, events[..|events| - 1])
        && var before := Exec(s, events[..|events| - 1]);
           var last := events[|events| - 1];
           before.Some? && last.SetLimit? ==> before.value.limit <= last.limit)
  }

  ghost predicate BorrowedInForce(s: State) {
    s.over == 0 && (s.place.Deciding? || s.place.Admitting? ==> s.place.limit <= s.limit)
  }

  lemma StepStaysInForce(s: State, e: Event)
    requires Inv(s) && BorrowedInForce(s) && Next(s, e).Some? && (e.SetLimit? ==> s.limit <= e.limit)
    ensures BorrowedInForce(Next(s, e).value)
  {
  }

  /** While the limit is never lowered, every admission finds the count below the limit in force. */
  lemma {:induction false} NoLoweringNoOvershoot(limit: nat, events: seq<Event>)
    requires Exec(Initial(limit), events).Some? && NeverLowers(Initial(limit), events)
    ensures BorrowedInForce(Exec(Initial(limit), events).value)
    ensures var s := Exec(Initial(limit), events).value;
      Next(s, Add).Some? ==> s.count < s.limit
  {
    hide Next;
    RunKeeps(limit, events);
    if events != [] {
      var before := events[..|events| - 1];
      NoLoweringNoOvershoot(limit, before);
      RunKeeps(limit, before);
      StepStaysInForce(Exec(Initial(limit), before).value, events[|events| - 1]);
    }
    AddPlace(Exec(Initial(limit), events).value);
  }

  lemma AddPlace(s: State)
    ensures Next(s, Add).Some? <==> s.place.Admitting?
  {
  }

  // ----- Any lowering can be overshot -----

  lemma {:induction false} Then(s: State, events: seq<Event>, more: seq<Event>)
    requires Exec(s, events).Some?
    ensures Exec(s, events + more) == Exec(Exec(s, events).value, more)
    decreases |more|
  {
    hide Next;
    if more == [] {
      assert events + more == events;
    } else {
      Then(s, events, more[..|more| - 1]);
      assert (events + more)[..|events + more| - 1] == events + more[..|more| - 1];
    }
  }

  lemma One(s: State, e: Event)
    ensures Exec(s, [e]) == Next(s, e)
  {
    assert [e][..0] == [];
  }

  /** The limit does not change in a run. */
  predicate Unchanging(events: seq<Event>) { forall i :: 0 <= i < |events| ==> !events[i].SetLimit? }

  /** A run that keeps the limit leads from one state to another. */
  ghost predicate Leads(s: State, events: seq<Event>, t: State) {
    Unchanging(events) && Exec(s, events) == Some(t) && t.limit == s.limit && Inv(t)
  }

  lemma LeadsOn(s: State, e: Event, t: State, events: seq<Event>, u: State)
    requires Inv(s) && !e.SetLimit? && Next(s, e) == Some(t) && Leads(t, events, u)
    ensures Leads(s, [e] + events, u) && Inv(t)
  {
    hide Exec, Inv;
    StepKeeps(s, e);
    One(s, e);
    Then(s, [e], events);
  }

  lemma LeadsThrough(s: State, events: seq<Event>, t: State, more: seq<Event>, u: State)
    requires Leads(s, events, t) && Leads(t, more, u)
    ensures Leads(s, events + more, u)
  {
    hide Exec, Next, Inv;
    Then(s, events, more);
  }

  lemma Stays(s: State)
    requires Inv(s)
    ensures Leads(s, [], s)
  {
  }

  /** Every connection can end. */
  lemma {:induction false} Drained(s: State) returns (events: seq<Event>, t: State)
    requires Inv(s)
    ensures Leads(s, events, t) && t.place == s.place && t.count == 0 && t.live == {} && t.ending == {}
    decreases 2 * |s.live| + |s.ending|
  {
    hide Inv, Leads, Exec;
    LiveCount(s);
    if s.ending != {} {
      var id :| id in s.ending;
      var next := Next(s, Notify(id)).value;
      StepKeeps(s, Notify(id));
      events, t := Drained(next);
      LeadsOn(s, Notify(id), next, events, t);
      events := [Notify(id)] + events;
    } else if s.live != {} {
      var id :| id in s.live;
      var next := Next(s, GiveBack(id)).value;
      StepKeeps(s, GiveBack(id));
      assert |next.ending| == |{id}| && |next.live| == |s.live| - 1;
      events, t := Drained(next);
      LeadsOn(s, GiveBack(id), next, events, t);
      events := [GiveBack(id)] + events;
    } else {
      Stays(s);
      events, t := [], s;
    }
  }

  lemma LiveCount(s: State)
    requires Inv(s)
    ensures s.count == |s.live|
  {
  }

  function Rank(p: Place): nat {
    match p
    case Elsewhere => 0
    case Deciding(_, _) => 2
    case _ => 1
  }

  /** With no connection left and some room, the accept loop gets to its next round. */
  lemma {:induction false} Settled(s: State) returns (events: seq<Event>, t: State)
    requires Inv(s) && s.limit > 0 && s.ending == {} && (s.count == 0 || s.place.Elsewhere?)
    ensures Leads(s, events, t) && t.place.Elsewhere?
    decreases Rank(s.place)
  {
    hide Leads, Exec;
    if s.place.Elsewhere? {
      Stays(s);
      events, t := [], s;
    } else {
      var e := if s.place.Deciding? then Load
               else if s.place.Admitting? then Add
               else if s.place.version != s.version then WakeByLimit else WakeByEnd;
      var next := Next(s, e).value;
      StepKeeps(s, e);
      events, t := Settled(next);
      LeadsOn(s, e, next, events, t);
      events := [e] + events;
    }
  }

  /** One round of the accept loop while there is room. */
  lemma Admitted(s: State) returns (t: State)
    requires Inv(s) && s.place.Elsewhere? && s.count < s.limit
    ensures Leads(s, [Borrow, Load, Add], t) && t.place.Elsewhere? && t.count == s.count + 1
    ensures Leads(s, [Borrow, Load], s.(place := Admitting(s.limit, s.version)))
  {
    hide Exec;
    var a := Next(s, Borrow).value;
    StepKeeps(s, Borrow);
    var b := Next(a, Load).value;
    StepKeeps(a, Load);
    t := Next(b, Add).value;
    StepKeeps(b, Add);
    Stays(t);
    LeadsOn(b, Add, t, [], t);
    LeadsOn(a, Load, b, [Add] + [], t);
    LeadsOn(s, Borrow, a, [Load] + ([Add] + []), t);
    assert [Borrow] + ([Load] + ([Add] + [])) == [Borrow, Load, Add];
    Stays(b);
    LeadsOn(a, Load, b, [], b);
    LeadsOn(s, Borrow, a, [Load] + [], b);
    assert [Borrow] + ([Load] + []) == [Borrow, Load];
  }

  lemma {:induction false} AdmittedUpTo(s: State, n: nat) returns (events: seq<Event>, t: State)
    requires Inv(s) && s.place.Elsewhere? && s.count <= n <= s.limit
    ensures Leads(s, events, t) && t.place.Elsewhere? && t.count == n
    decreases n - s.count
  {
    hide Inv, Leads, Exec;
    if s.count == n {
      Stays(s);
      events, t := [], s;
    } else {
      var next := Admitted(s);
      LeadsKeep(s, [Borrow, Load, Add], next);
      events, t := AdmittedUpTo(next, n);
      LeadsThrough(s, [Borrow, Load, Add], next, events, t);
      events := [Borrow, Load, Add] + events;
    }
  }

  lemma LeadsKeep(s: State, events: seq<Event>, t: State)
    requires Leads(s, events, t)
    ensures Inv(t) && t.limit == s.limit
  {
  }

  /**
   From every reachable state, and for every limit lower than the one in force,
   some run in which the only change is to that limit ends with an admission at
   or above it: the change comes between the decision to admit and the count.
   */
  lemma LoweringCanOvershoot(s: State, lower: nat) returns (events: seq<Event>, t: State)
    requires Reachable(s) && lower < s.limit
    ensures Unchanging(events) && Exec(s, events + [SetLimit(lower)]) == Some(t)
    ensures Next(t, Add).Some? && t.limit == lower <= t.count
  {
    hide Inv, Leads, Exec;
    ReachableInv(s);
    var e1, s1 := Drained(s);
    LeadsKeep(s, e1, s1);
    var e2, s2 := Settled(s1);
    LeadsKeep(s1, e2, s2);
    var e3, s3 := Drained(s2);
    LeadsKeep(s2, e3, s3);
    var e4, s4 := AdmittedUpTo(s3, lower);
    LeadsKeep(s3, e4, s4);
    var s6 := Admitted(s4);
    var s5 := s4.(place := Admitting(s4.limit, s4.version));
    LeadsThrough(s, e1, s1, e2, s2);
    LeadsThrough(s, e1 + e2, s2, e3, s3);
    LeadsThrough(s, e1 + e2 + e3, s3, e4, s4);
    LeadsThrough(s, e1 + e2 + e3 + e4, s4, [Borrow, Load], s5);
    events := e1 + e2 + e3 + e4 + [Borrow, Load];
    t := Next(s5, SetLimit(lower)).value;
    LeadsThere(s, events, s5);
    Then(s, events, [SetLimit(lower)]);
    One(s5, SetLimit(lower));
  }

  lemma LeadsThere(s: State, events: seq<Event>, t: State)
    requires Leads(s, events, t)
    ensures Unchanging(events) && Exec(s, events) == Some(t)
  {
  }

  /** A loop that waits although there is room can wake now, or as soon as a connection that has ended notifies. */
  lemma WakeupIsPending(s: State)
    requires Reachable(s) && s.place.Waiting? && s.count < s.limit
    ensures Next(s, WakeByLimit).Some? || Next(s, WakeByEnd).Some?
         || exists id :: Next(s, Notify(id)).Some? && Next(Next(s, Notify(id)).value, WakeByEnd).Some?
  {
    ReachableInv(s);
    if s.version == s.place.version && !s.notified {
      var id :| id in s.ending;
      assert Next(s, Notify(id)).Some?;
    }
  }

  /** With room and nothing else happening, a woken loop admits. */
  lemma WokenLoopAdmits(s: State)
    requires Reachable(s) && s.place.Elsewhere? && s.count < s.limit
    ensures var t := Exec(s, [Borrow, Load, Add]);
      t.Some? && t.value.count == s.count + 1 && t.value.count <= t.value.limit && t.value.place.Elsewhere?
  {
    hide Exec;
    ReachableInv(s);
    var t := Admitted(s);
  }
}
