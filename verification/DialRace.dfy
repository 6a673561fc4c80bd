/**
 Dialing a node's addresses (src/transport/ech.rs), after sections 4 and 5 of
 RFC 8305: the order of attempts and the race between them. The delay between
 attempts firing, the order in which attempts end and how each ends are inputs;
 every attempt ends.
 */
module DialRace {
  import opened Prelude

  datatype Address = Address(v4: bool, host: nat)

  // ----- Ordering -----

  predicate Distinct(s: seq<Address>) { forall i, j :: 0 <= i < j < |s| ==> s[i] != s[j] }

  /** The addresses of one family, in order. */
  function Family(s: seq<Address>, v4: bool): (f: seq<Address>)
    ensures forall a :: a in f <==> a in s && a.v4 == v4
  {
    if s == [] then [] else (if s[0].v4 == v4 then [s[0]] else []) + Family(s[1..], v4)
  }

  /** First occurrences only. */
  function Unique(s: seq<Address>): (u: seq<Address>)
    ensures forall a :: a in u <==> a in s
  {
    if s == [] then []
    else
      var u := Unique(s[..|s| - 1]);
      if s[|s| - 1] in u then u else u + [s[|s| - 1]]
  }

  function Without(s: seq<Address>, a: Address): (r: seq<Address>)
    ensures forall b :: b in r <==> b in s && b != a
  {
    if s == [] then [] else (if s[0] == a then [] else [s[0]]) + Without(s[1..], a)
  }

  function Fronted(s: seq<Address>, preferred: Option<Address>): seq<Address> {
    if preferred.Some? && preferred.value in s then [preferred.value] + Without(s, preferred.value) else s
  }

  /** One of each in turn, then what is left. */
  function Alternate(a: seq<Address>, b: seq<Address>, takeA: bool): (r: seq<Address>)
    decreases |a| + |b|
  {
    if a == [] then b
    else if b == [] then a
    else if takeA then [a[0]] + Alternate(a[1..], b, false)
    else [b[0]] + Alternate(a, b[1..], true)
  }

  function StartsV4(s: seq<Address>): bool { s == [] || s[0].v4 }

  function Interleaved(addresses: seq<Address>, preferred: Option<Address>): seq<Address> {
    var s := Fronted(Unique(addresses), preferred);
    Alternate(Family(s, true), Family(s, false), StartsV4(s))
  }

  method UniqueAddresses(addresses: seq<Address>) returns (unique: seq<Address>)
    ensures unique == Unique(addresses)
  {
    var seen: set<Address> := {};
    unique := [];
    for i := 0 to |addresses|
      invariant unique == Unique(addresses[..i])
      invariant forall a :: a in seen <==> a in unique
    {
      assert addresses[..i + 1][..i] == addresses[..i];
      if addresses[i] !in seen {
        seen := seen + {addresses[i]};
        unique := unique + [addresses[i]];
      }
    }
    assert addresses[..|addresses|] == addresses;
  }

  /** The source's loop over the two queues. */
  method InterleaveAddresses(addresses: seq<Address>, preferred: Option<Address>) returns (ordered: seq<Address>)
    ensures ordered == Interleaved(addresses, preferred)
  {
    hide Alternate, Family, Fronted, Unique, StartsV4;
    var unique := UniqueAddresses(addresses);
    var s := Fronted(unique, preferred);
    var ipv4, ipv6 := Family(s, true), Family(s, false);
    var takeV4 := StartsV4(s);
    ordered := [];
    ghost var all := Alternate(ipv4, ipv6, takeV4);
    while ipv4 != [] || ipv6 != []
      invariant ordered + Alternate(ipv4, ipv6, takeV4) == all
      decreases |ipv4| + |ipv6|
    {
      AlternateStep(ipv4, ipv6, takeV4);
      if (takeV4 && ipv4 != []) || ipv6 == [] {
        Regroup(ordered, [ipv4[0]], Alternate(ipv4[1..], ipv6, !takeV4));
        ordered, ipv4 := ordered + [ipv4[0]], ipv4[1..];
      } else {
        Regroup(ordered, [ipv6[0]], Alternate(ipv4, ipv6[1..], !takeV4));
        ordered, ipv6 := ordered + [ipv6[0]], ipv6[1..];
      }
      takeV4 := !takeV4;
    }
    NothingAlternates(takeV4);
    assert ordered + [] == ordered;
  }

  lemma NothingAlternates(takeA: bool)
    ensures Alternate([], [], takeA) == []
  {
  }

  lemma AlternateStep(a: seq<Address>, b: seq<Address>, takeA: bool)
    requires a != [] || b != []
    ensures Alternate(a, b, takeA)
         == if (takeA && a != []) || b == [] then [a[0]] + Alternate(a[1..], b, !takeA)
            else [b[0]] + Alternate(a, b[1..], !takeA)
  {
    assert a != [] ==> [a[0]] + a[1..] == a;
    assert b != [] ==> [b[0]] + b[1..] == b;
  }

  // ----- What the order promises -----

  lemma {:induction false} UniqueIsDistinct(s: seq<Address>)
    ensures Distinct(Unique(s)) && (s != [] ==> Unique(s) != [] && Unique(s)[0] == s[0])
  {
    if s != [] {
      UniqueIsDistinct(s[..|s| - 1]);
    }
  }

  lemma {:induction false} WithoutIsDistinct(s: seq<Address>, a: Address)
    requires Distinct(s)
    ensures Distinct(Without(s, a))
  {
    if s != [] {
      assert s[0] !in s[1..];
      WithoutIsDistinct(s[1..], a);
      var rest := Without(s[1..], a);
      assert forall i :: 0 <= i < |rest| ==> rest[i] in rest;
    }
  }

  lemma FrontedIsDistinct(s: seq<Address>, preferred: Option<Address>)
    requires Distinct(s)
    ensures Distinct(Fronted(s, preferred)) && forall a :: a in Fronted(s, preferred) <==> a in s
  {
    if preferred.Some? && preferred.value in s {
      var rest := Without(s, preferred.value);
      WithoutIsDistinct(s, preferred.value);
      assert forall i :: 0 <= i < |rest| ==> rest[i] in rest;
    }
  }

  lemma {:induction false} FamilyOfOne(s: seq<Address>, v4: bool)
    requires forall a :: a in s ==> a.v4 == v4
    ensures Family(s, v4) == s && Family(s, !v4) == []
  {
    if s != [] {
      assert s[0] in s && forall a :: a in s[1..] ==> a in s;
      FamilyOfOne(s[1..], v4);
    }
  }

  /** Interleaving keeps each family whole and in order. */
  lemma {:induction false} AlternateKeepsFamilies(a: seq<Address>, b: seq<Address>, takeA: bool)
    requires forall x :: x in a ==> x.v4
    requires forall x :: x in b ==> !x.v4
    ensures Family(Alternate(a, b, takeA), true) == a && Family(Alternate(a, b, takeA), false) == b
    decreases |a| + |b|
  {
    hide Family;
    if a == [] {
      FamilyOfOne(b, false);
    } else if b == [] {
      FamilyOfOne(a, true);
    } else if takeA {
      AlternateKeepsFamilies(a[1..], b, false);
      FamilyFront(a[0], Alternate(a[1..], b, false));
      assert a[0] in a && [a[0]] + a[1..] == a;
    } else {
      AlternateKeepsFamilies(a, b[1..], true);
      FamilyFront(b[0], Alternate(a, b[1..], true));
      assert b[0] in b && [b[0]] + b[1..] == b;
    }
  }

  lemma FamilyFront(first: Address, rest: seq<Address>)
    ensures Family([first] + rest, first.v4) == [first] + Family(rest, first.v4)
    ensures Family([first] + rest, !first.v4) == Family(rest, !first.v4)
  {
    assert ([first] + rest)[1..] == rest;
  }

  /** Two neighbours of one family only where nothing of the other is left. */
  ghost predicate Alternates(s: seq<Address>) {
    forall i, j :: 0 <= i && i + 1 < j < |s| && s[i].v4 == s[i + 1].v4 ==> s[j].v4 == s[i].v4
  }

  lemma {:induction false} AlternateAlternates(a: seq<Address>, b: seq<Address>, takeA: bool)
    requires forall x :: x in a ==> x.v4
    requires forall x :: x in b ==> !x.v4
    ensures Alternates(Alternate(a, b, takeA))
    ensures Alternate(a, b, takeA) != [] && a != [] && b != [] ==> Alternate(a, b, takeA)[0].v4 == takeA
    decreases |a| + |b|
  {
    var s := Alternate(a, b, takeA);
    if a != [] && b != [] {
      assert a[0] in a && b[0] in b;
      var rest := s[1..];
      if takeA {
        AlternateAlternates(a[1..], b, false);
        assert rest == Alternate(a[1..], b, false);
      } else {
        AlternateAlternates(a, b[1..], true);
        assert rest == Alternate(a, b[1..], true);
      }
      OneInFront(s);
    } else {
      assert forall i :: 0 <= i < |s| ==> s[i] in s;
    }
  }

  lemma OneInFront(s: seq<Address>)
    requires s != [] && Alternates(s[1..]) && (|s| > 1 ==> s[1].v4 != s[0].v4)
    ensures Alternates(s)
  {
    var rest := s[1..];
    forall i, j | 0 <= i && i + 1 < j < |s| && s[i].v4 == s[i + 1].v4 ensures s[j].v4 == s[i].v4 {
      assert rest[i - 1] == s[i] && rest[i] == s[i + 1] && rest[j - 1] == s[j];
    }
  }

  lemma {:induction false} FamilyIsDistinct(s: seq<Address>, v4: bool)
    requires Distinct(s)
    ensures Distinct(Family(s, v4))
  {
    if s != [] {
      assert s[0] !in s[1..];
      FamilyIsDistinct(s[1..], v4);
      var rest := Family(s[1..], v4);
      assert forall i :: 0 <= i < |rest| ==> rest[i] in rest;
    }
  }

  lemma {:induction false} DistinctByFamilies(s: seq<Address>)
    requires Distinct(Family(s, true)) && Distinct(Family(s, false))
    ensures Distinct(s)
  {
    if s != [] {
      DistinctRest(Family(s, true), Family(s[1..], true), s[0], s[0].v4);
      DistinctRest(Family(s, false), Family(s[1..], false), s[0], !s[0].v4);
      DistinctByFamilies(s[1..]);
      assert s[0] !in s[1..];
    }
  }

  lemma DistinctRest(whole: seq<Address>, rest: seq<Address>, first: Address, holds: bool)
    requires Distinct(whole) && whole == (if holds then [first] else []) + rest
    ensures Distinct(rest) && (holds ==> first !in rest)
  {
    if holds {
      assert whole[0] == first;
      assert forall i :: 0 <= i < |rest| ==> rest[i] == whole[i + 1];
    } else {
      assert whole == rest;
    }
  }

  /**
   The order of attempts: every address once, the preferred or else the first
   given in front, the families alternating while both last, each in the order
   it was given but for the preferred address.
   */
  lemma InterleavedOrder(addresses: seq<Address>, preferred: Option<Address>)
    ensures var ordered := Interleaved(addresses, preferred);
      var s := Fronted(Unique(addresses), preferred);
      && Distinct(ordered) && (forall a :: a in ordered <==> a in addresses)
      && (addresses != [] ==>
          ordered != [] && ordered[0] == if preferred.Some? && preferred.value in addresses then preferred.value else addresses[0])
      && Alternates(ordered)
      && Family(ordered, true) == Family(s, true) && Family(ordered, false) == Family(s, false)
  {
    hide Alternate, Fronted, Unique, Alternates, Family;
    var unique := Unique(addresses);
    var s := Fronted(unique, preferred);
    var ordered := Interleaved(addresses, preferred);
    UniqueIsDistinct(addresses);
    FrontedIsDistinct(unique, preferred);
    AlternateKeepsFamilies(Family(s, true), Family(s, false), StartsV4(s));
    AlternateAlternates(Family(s, true), Family(s, false), StartsV4(s));
    FamilyIsDistinct(s, true);
    FamilyIsDistinct(s, false);
    DistinctByFamilies(ordered);
    forall a ensures a in ordered <==> a in addresses {
      assert a in Family(ordered, a.v4) <==> a in ordered;
      assert a in Family(s, a.v4) <==> a in s;
    }
    if addresses != [] {
      FrontedFirst(unique, preferred);
      FamilyFirst(s);
      AlternateFirst(Family(s, true), Family(s, false), StartsV4(s));
    }
  }

  lemma FrontedFirst(s: seq<Address>, preferred: Option<Address>)
    requires s != []
    ensures Fronted(s, preferred) != []
    ensures Fronted(s, preferred)[0] == if preferred.Some? && preferred.value in s then preferred.value else s[0]
  {
  }

  lemma FamilyFirst(s: seq<Address>)
    requires s != []
    ensures Family(s, s[0].v4) != [] && Family(s, s[0].v4)[0] == s[0]
  {
  }

  lemma AlternateFirst(a: seq<Address>, b: seq<Address>, takeA: bool)
    requires if takeA then a != [] else b != []
    ensures Alternate(a, b, takeA) != [] && Alternate(a, b, takeA)[0] == if takeA then a[0] else b[0]
  {
  }

  /** One address comes before another. */
  ghost predicate Before(s: seq<Address>, a: Address, b: Address) {
    exists i, j :: 0 <= i < j < |s| && s[i] == a && s[j] == b
  }

  /** The first of two addresses to be given is given before the other. */
  ghost predicate GivenFirst(s: seq<Address>, a: Address, b: Address) {
    exists i :: 0 <= i < |s| && s[i] == a && b !in s[..i + 1] && b in s
  }

  lemma {:induction false} UniqueKeepsOrder(s: seq<Address>, a: Address, b: Address)
    requires GivenFirst(s, a, b)
    ensures Before(Unique(s), a, b)
  {
    var i :| 0 <= i < |s| && s[i] == a && b !in s[..i + 1] && b in s;
    var front, last := s[..|s| - 1], s[|s| - 1];
    var u := Unique(front);
    if b in front {
      assert front[..i + 1] == s[..i + 1];
      assert front[i] == a;
      UniqueKeepsOrder(front, a, b);
      var p, q :| 0 <= p < q < |u| && u[p] == a && u[q] == b;
      assert Unique(s)[p] == a && Unique(s)[q] == b;
    } else {
      assert s == front + [last];
      assert last == b && i < |front| && front[i] == a;
      assert a in u && b !in u;
      var p :| 0 <= p < |u| && u[p] == a;
      assert Unique(s) == u + [b];
      assert Unique(s)[p] == a && Unique(s)[|u|] == b;
    }
  }

  lemma BeforeFront(first: Address, rest: seq<Address>, a: Address, b: Address)
    ensures Before([first] + rest, a, b) <==> Before(rest, a, b) || (first == a && b in rest)
  {
    var s := [first] + rest;
    if Before(rest, a, b) {
      var i, j :| 0 <= i < j < |rest| && rest[i] == a && rest[j] == b;
      assert s[i + 1] == a && s[j + 1] == b;
    }
    if first == a && b in rest {
      var j :| 0 <= j < |rest| && rest[j] == b;
      assert s[0] == a && s[j + 1] == b;
    }
    if Before(s, a, b) {
      var i, j :| 0 <= i < j < |s| && s[i] == a && s[j] == b;
      assert rest[j - 1] == b;
      if i > 0 {
        assert rest[i - 1] == a;
      }
    }
  }

  lemma {:induction false} WithoutKeepsOrder(s: seq<Address>, x: Address, a: Address, b: Address)
    requires Before(s, a, b) && a != x && b != x
    ensures Before(Without(s, x), a, b)
  {
    hide Before;
    if s == [] {
      NothingBefore(a, b);
    } else {
      assert [s[0]] + s[1..] == s;
      BeforeFront(s[0], s[1..], a, b);
      if Before(s[1..], a, b) {
        WithoutKeepsOrder(s[1..], x, a, b);
      }
      BeforeFront(s[0], Without(s[1..], x), a, b);
      assert [] + Without(s[1..], x) == Without(s[1..], x);
    }
  }

  lemma NothingBefore(a: Address, b: Address)
    ensures !Before([], a, b)
  {
  }

  lemma {:induction false} FamilyKeepsOrder(s: seq<Address>, a: Address, b: Address)
    requires a.v4 == b.v4
    ensures Before(s, a, b) <==> Before(Family(s, a.v4), a, b)
  {
    hide Before;
    if s != [] {
      assert [s[0]] + s[1..] == s;
      BeforeFront(s[0], s[1..], a, b);
      FamilyKeepsOrder(s[1..], a, b);
      BeforeFront(s[0], Family(s[1..], a.v4), a, b);
      assert [] + Family(s[1..], a.v4) == Family(s[1..], a.v4);
    }
  }

  /** Within a family, addresses are tried in the order they were first given, the preferred one apart. */
  lemma OrderWithinFamily(addresses: seq<Address>, preferred: Option<Address>, a: Address, b: Address)
    requires GivenFirst(addresses, a, b) && a.v4 == b.v4 && preferred != Some(a) && preferred != Some(b)
    ensures Before(Interleaved(addresses, preferred), a, b)
  {
    hide Before, GivenFirst, Alternate, Family, Alternates, Unique;
    var u := Unique(addresses);
    var s := Fronted(u, preferred);
    UniqueKeepsOrder(addresses, a, b);
    if preferred.Some? && preferred.value in u {
      WithoutKeepsOrder(u, preferred.value, a, b);
      BeforeFront(preferred.value, Without(u, preferred.value), a, b);
    }
    InterleavedOrder(addresses, preferred);
    FamilyKeepsOrder(s, a, b);
    FamilyKeepsOrder(Interleaved(addresses, preferred), a, b);
  }

  // ----- Racing -----

  /** What a wait yields: the delay firing, or the end of one of the running attempts. */
  datatype Choice = Delay | Ended(which: nat)

  function Removed(s: seq<Address>, i: nat): (r: seq<Address>)
    requires i < |s|
    ensures |r| == |s| - 1 && (forall a :: a in r ==> a in s) && (forall a :: a in s ==> a in r || a == s[i])
  {
    s[..i] + s[i + 1..]
  }

  /**
   The race, for every schedule: it ends after at most 2n + 1 waits, always
   waits on a running attempt, starts the addresses in order, each at most
   once, succeeds with a started address that connects, and fails only after
   every address was started and failed.
   */
  method RaceConnects(addresses: seq<Address>, connects: Address -> bool, schedule: nat -> Choice)
    returns (r: Option<Address>, started: seq<Address>, running: seq<nat>)
    ensures started <= addresses
    ensures r.Some? ==> r.value in started && connects(r.value)
    ensures r.None? ==> started == addresses
    ensures r.None? <==> forall a :: a in addresses ==> !connects(a)
    ensures addresses != [] ==> 1 <= |started| && 1 <= |running| <= 2 * |addresses| + 1
    ensures forall i :: 0 <= i < |running| ==> running[i] >= 1
  {
    started, running := [], [];
    if addresses == [] {
      return None, started, running;
    }
    var pending, attempts := addresses[1..], [addresses[0]];
    started := [addresses[0]];
    var exhausted := false;
    while true
      invariant started + pending == addresses && attempts != []
      invariant forall a :: a in attempts ==> a in started
      invariant forall a :: a in started ==> a in attempts || !connects(a)
      invariant exhausted ==> pending == []
      invariant |running| + 2 * |pending| + |attempts| + (if exhausted then 0 else 1) <= 2 * |addresses|
      invariant forall i :: 0 <= i < |running| ==> running[i] >= 1
      invariant started != []
      decreases 2 * |pending| + |attempts| + if exhausted then 0 else 1
    {
      var choice := schedule(|running|);
      running := running + [|attempts|];
      if choice.Delay? && !exhausted {
        exhausted := pending == [];
      } else {
        var which := if choice.Ended? then choice.which % |attempts| else 0;
        var address := attempts[which];
        if connects(address) {
          return Some(address), started, running;
        }
        attempts := Removed(attempts, which);
        exhausted := pending == [];
        if exhausted && attempts == [] {
          return None, started, running;
        }
      }
      if !exhausted {
        assert started + [pending[0]] + pending[1..] == addresses;
        attempts, started, pending := attempts + [pending[0]], started + [pending[0]], pending[1..];
      }
    }
  }

  /** Ordering, then racing: the dial of a node fails only if every one of its addresses does. */
  method ConnectHappyEyeballs(addresses: seq<Address>, preferred: Option<Address>, connects: Address -> bool, schedule: nat -> Choice)
    returns (r: Option<Address>, started: seq<Address>)
    ensures r.None? <==> forall a :: a in addresses ==> !connects(a)
    ensures r.Some? ==> r.value in started && connects(r.value)
    ensures r.None? ==> forall a :: a in addresses ==> a in started
    ensures Distinct(started) && forall a :: a in started ==> a in addresses
    ensures addresses != [] ==>
      started != [] && started[0] == if preferred.Some? && preferred.value in addresses then preferred.value else addresses[0]
  {
    hide Interleaved, Alternates, Family, Fronted, Unique;
    var ordered := InterleaveAddresses(addresses, preferred);
    InterleavedOrder(addresses, preferred);
    var running;
    r, started, running := RaceConnects(ordered, connects, schedule);
    assert forall i :: 0 <= i < |started| ==> started[i] == ordered[i];
  }
}
