/**
 Routers and their replacement (src/gateway.rs). A client is a number, fresh for
 every client built; a node's other fields are one opaque profile. Whether
 documents render and a dialer can be set up are inputs.
 */
module Gateway {
  import opened Prelude
  import opened Selector

  type ClientId = nat

  datatype Proxy = Proxy(name: Name, profile: string)

  /** The settings a client is built from, as far as reuse depends on them. */
  datatype ClientSettings = ClientSettings(
    accessToken: string, requestTimeout: nat, dialConcurrency: nat, perNodeDialConcurrency: nat,
    reuseMaxIdle: nat, reuseMaxUses: nat, reuseIdleTimeout: nat)

  /** The secret of published usernames, and which shared dial limit clients draw on. */
  datatype Context = Context(secret: string, dialLimit: nat)

  datatype NodeRuntime = NodeRuntime(proxy: Proxy, client: ClientId, settings: ClientSettings, dialLimit: nat)

  datatype Router = Router(
    routes: map<string, ClientId>, runtimes: map<Name, NodeRuntime>, filtered: seq<Proxy>, all: seq<Proxy>, secret: string)

  datatype Luck = Luck(renders: seq<Proxy> -> bool, dials: Proxy -> bool)

  // ----- What a router of a catalog is -----

  function NamesOf(proxies: seq<Proxy>, n: nat): set<Name>
    requires n <= |proxies|
  {
    set i | 0 <= i < n :: proxies[i].name
  }

  function SelectorsOf(proxies: seq<Proxy>, n: nat): set<Option<string>>
    requires n <= |proxies|
  {
    set i | 0 <= i < n :: NodeSelector(proxies[i].name)
  }

  /** A node has its runtime, and its selector routes to it. */
  predicate Serves(routes: map<string, ClientId>, runtimes: map<Name, NodeRuntime>, p: Proxy) {
    && p.name in runtimes && runtimes[p.name].proxy == p
    && NodeSelector(p.name).Some? && NodeSelector(p.name).value in routes
    && routes[NodeSelector(p.name).value] == runtimes[p.name].client
  }

  function SomeKeys(routes: map<string, ClientId>): set<Option<string>> { set s | s in routes :: Some(s) }

  ghost predicate IsBuilt(r: Router, proxies: seq<Proxy>, published: seq<Proxy>, secret: string) {
    && r.filtered == published && r.all == proxies && r.secret == secret
    && (forall i :: 0 <= i < |proxies| ==> Serves(r.routes, r.runtimes, proxies[i]))
    && r.runtimes.Keys == NamesOf(proxies, |proxies|)
    && SomeKeys(r.routes) == SelectorsOf(proxies, |proxies|)
  }

  function Active(r: Router): set<ClientId> { set name | name in r.runtimes :: r.runtimes[name].client }

  predicate ClientsDiffer(runtimes: map<Name, NodeRuntime>) {
    forall a, b :: a in runtimes && b in runtimes && a != b ==> runtimes[a].client != runtimes[b].client
  }

  predicate Reusable(previous: Option<Router>, p: Proxy) {
    previous.Some? && p.name in previous.value.runtimes && previous.value.runtimes[p.name].proxy == p
  }

  /** Where a runtime comes from: the previous router if the profile is unchanged, else new. */
  predicate Sourced(n: NodeRuntime, previous: Option<Router>, settings: ClientSettings, context: Context, from: nat, to: nat) {
    if Reusable(previous, n.proxy) then n == previous.value.runtimes[n.proxy.name]
    else from <= n.client < to && n.settings == settings && n.dialLimit == context.dialLimit
  }

  predicate AllSourced(runtimes: map<Name, NodeRuntime>, previous: Option<Router>, settings: ClientSettings, context: Context, from: nat, to: nat) {
    forall name :: name in runtimes ==>
      runtimes[name].proxy.name == name && Sourced(runtimes[name], previous, settings, context, from, to)
  }

  predicate GoodNames(proxies: seq<Proxy>, n: nat)
    requires n <= |proxies|
  {
    && (forall i :: 0 <= i < n ==> ValidName(proxies[i].name))
    && (forall i, j :: 0 <= i < j < n ==> proxies[i].name != proxies[j].name)
  }

  predicate CanDial(proxies: seq<Proxy>, n: nat, previous: Option<Router>, luck: Luck)
    requires n <= |proxies|
  {
    forall i :: 0 <= i < n ==> Reusable(previous, proxies[i]) || luck.dials(proxies[i])
  }

  predicate CanBuild(proxies: seq<Proxy>, published: seq<Proxy>, previous: Option<Router>, luck: Luck) {
    luck.renders(published) && luck.renders(proxies)
    && GoodNames(proxies, |proxies|) && CanDial(proxies, |proxies|, previous, luck)
  }

  predicate Below(r: Option<Router>, next: nat) {
    r.Some? ==> forall name :: name in r.value.runtimes ==> r.value.runtimes[name].client < next
  }

  lemma OneMoreKey(routes: map<string, ClientId>, selector: string, client: ClientId)
    ensures SomeKeys(routes[selector := client]) == SomeKeys(routes) + {Some(selector)}
  {
    var more := routes[selector := client];
    forall s | s in more || s in routes ensures Some(s) in SomeKeys(more) <==> s in more {
    }
  }

  lemma OneMoreSelector(proxies: seq<Proxy>, n: nat)
    requires n < |proxies|
    ensures SelectorsOf(proxies, n + 1) == SelectorsOf(proxies, n) + {NodeSelector(proxies[n].name)}
  {
    hide NodeSelector;
  }

  /** The maps hold exactly the first nodes. */
  ghost predicate Holds(routes: map<string, ClientId>, runtimes: map<Name, NodeRuntime>, proxies: seq<Proxy>, n: nat) {
    && n <= |proxies| && GoodNames(proxies, n)
    && (forall i :: 0 <= i < n ==> Serves(routes, runtimes, proxies[i]))
    && runtimes.Keys == NamesOf(proxies, n) && SomeKeys(routes) == SelectorsOf(proxies, n)
  }

  lemma Collides(routes: map<string, ClientId>, runtimes: map<Name, NodeRuntime>, proxies: seq<Proxy>, n: nat)
    requires n < |proxies| && Holds(routes, runtimes, proxies, n)
    requires NodeSelector(proxies[n].name).Some?
    ensures NodeSelector(proxies[n].name).value in routes <==> proxies[n].name in runtimes
    ensures proxies[n].name in runtimes ==> !GoodNames(proxies, |proxies|)
  {
    hide NodeSelector, ValidName;
    var selector := NodeSelector(proxies[n].name);
    if selector.value in routes {
      assert Some(selector.value) in SomeKeys(routes);
      var i :| 0 <= i < n && NodeSelector(proxies[i].name) == selector;
      SelectorsDiffer(proxies[i].name, proxies[n].name);
    }
  }

  lemma OneMoreNode(routes: map<string, ClientId>, runtimes: map<Name, NodeRuntime>, proxies: seq<Proxy>, n: nat, node: NodeRuntime)
    requires n < |proxies| && Holds(routes, runtimes, proxies, n) && node.proxy == proxies[n]
    requires NodeSelector(proxies[n].name).Some? && proxies[n].name !in runtimes
    ensures Holds(routes[NodeSelector(proxies[n].name).value := node.client], runtimes[proxies[n].name := node], proxies, n + 1)
  {
    hide NodeSelector, ValidName;
    var name := proxies[n].name;
    SelectorExists(name);
    OneMoreKey(routes, NodeSelector(name).value, node.client);
    OneMoreSelector(proxies, n);
    forall i | 0 <= i < n
      ensures Serves(routes[NodeSelector(name).value := node.client], runtimes[name := node], proxies[i])
    {
      assert proxies[i].name in runtimes;
      if NodeSelector(proxies[i].name) == NodeSelector(name) {
        SelectorsDiffer(proxies[i].name, name);
      }
    }
  }

  /** Distinct clients, each from its source. */
  ghost predicate Sound(runtimes: map<Name, NodeRuntime>, previous: Option<Router>, settings: ClientSettings, context: Context, from: nat, to: nat) {
    from <= to && ClientsDiffer(runtimes) && AllSourced(runtimes, previous, settings, context, from, to)
  }

  lemma OneMoreSound(runtimes: map<Name, NodeRuntime>, previous: Option<Router>, settings: ClientSettings, context: Context,
                     from: nat, to: nat, node: NodeRuntime, more: nat)
    requires Below(previous, from) && (previous.Some? ==> ClientsDiffer(previous.value.runtimes))
    requires Sound(runtimes, previous, settings, context, from, to) && node.proxy.name !in runtimes
    requires if Reusable(previous, node.proxy) then more == to && node == previous.value.runtimes[node.proxy.name]
             else more == to + 1 && node == NodeRuntime(node.proxy, to, settings, context.dialLimit)
    ensures Sound(runtimes[node.proxy.name := node], previous, settings, context, from, more)
  {
    forall name | name in runtimes ensures runtimes[name].client != node.client && Sourced(runtimes[name], previous, settings, context, from, more) {
      assert Sourced(runtimes[name], previous, settings, context, from, to);
    }
  }

  method BuildRouter(proxies: seq<Proxy>, published: seq<Proxy>, settings: ClientSettings, context: Context,
                     previous: Option<Router>, luck: Luck, next: nat) returns (r: Option<Router>, after: nat)
    requires Below(previous, next)
    requires previous.Some? ==> ClientsDiffer(previous.value.runtimes)
    ensures next <= after
    ensures r.Some? <==> CanBuild(proxies, published, previous, luck)
    ensures r.Some? ==>
      && IsBuilt(r.value, proxies, published, context.secret) && ClientsDiffer(r.value.runtimes)
      && AllSourced(r.value.runtimes, previous, settings, context, next, after)
  {
    hide NodeSelector, ValidName, Reusable, AllSourced, ClientsDiffer, Below, NamesOf, SelectorsOf, Serves, SomeKeys;
    after := next;
    if !luck.renders(published) || (proxies != published && !luck.renders(proxies)) {
      return None, after;
    }
    var routes: map<string, ClientId> := map[];
    var runtimes: map<Name, NodeRuntime> := map[];
    NothingYet(proxies, previous, settings, context, next);
    for k := 0 to |proxies|
      invariant Holds(routes, runtimes, proxies, k) && CanDial(proxies, k, previous, luck)
      invariant Sound(runtimes, previous, settings, context, next, after)
    {
      var proxy := proxies[k];
      var node, more := NodeRuntime(proxy, after, settings, context.dialLimit), after + 1;
      if Reusable(previous, proxy) {
        ReusedNode(previous, proxy);
        node, more := previous.value.runtimes[proxy.name], after;
      } else if !luck.dials(proxy) {
        return None, more;
      }
      SelectorExists(proxy.name);
      var selector := NodeSelector(proxy.name);
      if selector.None? {
        return None, more;
      }
      Collides(routes, runtimes, proxies, k);
      if selector.value in routes {
        return None, more;
      }
      OneMoreNode(routes, runtimes, proxies, k, node);
      OneMoreSound(runtimes, previous, settings, context, next, after, node, more);
      routes := routes[selector.value := node.client];
      runtimes := runtimes[proxy.name := node];
      after := more;
    }
    r := Some(Router(routes, runtimes, published, proxies, context.secret));
  }

  lemma NothingYet(proxies: seq<Proxy>, previous: Option<Router>, settings: ClientSettings, context: Context, next: nat)
    ensures Holds(map[], map[], proxies, 0) && Sound(map[], previous, settings, context, next, next)
  {
  }

  lemma ReusedNode(previous: Option<Router>, p: Proxy)
    requires Reusable(previous, p)
    ensures previous.Some? && p.name in previous.value.runtimes && previous.value.runtimes[p.name].proxy == p
  {
  }

  // ----- Routing -----

  function Authenticate(r: Router, selector: string, secret: string): Option<ClientId> {
    if secret != r.secret || selector !in r.routes then None else Some(r.routes[selector])
  }

  /** Exactly the selectors of the catalog, with the secret, route, each to its own node's client. */
  lemma RoutesToOwnNode(r: Router, proxies: seq<Proxy>, published: seq<Proxy>, secret: string, selector: string, given: string)
    requires IsBuilt(r, proxies, published, secret)
    ensures Authenticate(r, selector, given).Some?
       <==> given == secret && exists i :: 0 <= i < |proxies| && NodeSelector(proxies[i].name) == Some(selector)
    ensures forall i :: 0 <= i < |proxies| && NodeSelector(proxies[i].name) == Some(selector) && given == secret ==>
      r.runtimes[proxies[i].name].proxy == proxies[i]
      && Authenticate(r, selector, given) == Some(r.runtimes[proxies[i].name].client)
  {
    hide NodeSelector;
    assert selector in r.routes <==> Some(selector) in SomeKeys(r.routes);
    assert forall i :: 0 <= i < |proxies| ==> Serves(r.routes, r.runtimes, proxies[i]);
  }

  /** Two nodes never share a route. */
  lemma RoutesDiffer(r: Router, proxies: seq<Proxy>, published: seq<Proxy>, secret: string, i: nat, j: nat)
    requires IsBuilt(r, proxies, published, secret) && ClientsDiffer(r.runtimes)
    requires i < |proxies| && j < |proxies| && proxies[i].name != proxies[j].name
    ensures NodeSelector(proxies[i].name).Some? && NodeSelector(proxies[j].name).Some?
    ensures Authenticate(r, NodeSelector(proxies[i].name).value, secret) != Authenticate(r, NodeSelector(proxies[j].name).value, secret)
  {
    hide NodeSelector;
    assert Serves(r.routes, r.runtimes, proxies[i]) && Serves(r.routes, r.runtimes, proxies[j]);
  }

  // ----- Replacement -----

  predicate Shared(name: Name, n: NodeRuntime, replacement: Option<Router>) {
    replacement.Some? && name in replacement.value.runtimes && replacement.value.runtimes[name].client == n.client
  }

  /** The clients of some names that the replacement does not share. */
  function Exclusive(r: Router, names: set<Name>, replacement: Option<Router>): set<ClientId> {
    set name | name in names && name in r.runtimes && !Shared(name, r.runtimes[name], replacement) :: r.runtimes[name].client
  }

  function ActiveOf(r: Option<Router>): set<ClientId> { if r.None? then {} else Active(r.value) }

  lemma OneMoreExclusive(r: Router, names: set<Name>, name: Name, replacement: Option<Router>)
    requires ClientsDiffer(r.runtimes) && name in r.runtimes && name !in names
    ensures Exclusive(r, names + {name}, replacement)
         == Exclusive(r, names, replacement) + (if Shared(name, r.runtimes[name], replacement) then {} else {r.runtimes[name].client})
    ensures r.runtimes[name].client !in Exclusive(r, names, replacement)
  {
    var more := Exclusive(r, names + {name}, replacement);
    var one: set<ClientId> := if Shared(name, r.runtimes[name], replacement) then {} else {r.runtimes[name].client};
    forall c ensures c in more <==> c in Exclusive(r, names, replacement) + one {
      if c in Exclusive(r, names, replacement) {
        var n :| n in names && n in r.runtimes && !Shared(n, r.runtimes[n], replacement) && r.runtimes[n].client == c;
        assert n in names + {name};
      }
      if c in one {
        assert name in names + {name};
      }
    }
  }

  /** A client of the replacement that is active already is the same node's. */
  ghost predicate Succeeds(replacement: Router, r: Router) {
    forall name :: name in replacement.runtimes && replacement.runtimes[name].client in Active(r) ==>
      name in r.runtimes && r.runtimes[name].client == replacement.runtimes[name].client
  }

  lemma ExclusiveIsDropped(r: Router, replacement: Router)
    requires ClientsDiffer(r.runtimes) && ClientsDiffer(replacement.runtimes) && Succeeds(replacement, r)
    ensures Exclusive(r, r.runtimes.Keys, Some(replacement)) == Active(r) - Active(replacement)
  {
    forall name | name in r.runtimes
      ensures Shared(name, r.runtimes[name], Some(replacement)) <==> r.runtimes[name].client in Active(replacement)
    {
      var c := r.runtimes[name].client;
      if c in Active(replacement) {
        var other :| other in replacement.runtimes && replacement.runtimes[other].client == c;
        assert c in Active(r);
      }
    }
  }

  lemma ExclusiveOfNone(r: Router)
    ensures Exclusive(r, r.runtimes.Keys, None) == Active(r)
  {
  }

  class GatewayManager {
    var router: Option<Router>
    /** How often each client was closed. */
    var closed: multiset<ClientId>
    /** Every client that was ever reachable. */
    ghost var installed: set<ClientId>

    /** Every client that was reachable and no longer is was closed once, and no other ever. */
    ghost predicate Tidy()
      reads this
    {
      && (router.Some? ==> ClientsDiffer(router.value.runtimes))
      && ActiveOf(router) <= installed
      && closed == multiset(installed - ActiveOf(router))
    }

    constructor (first: Router)
      requires ClientsDiffer(first.runtimes)
      ensures Tidy() && router == Some(first) && installed == Active(first) && closed == multiset{}
    {
      router := Some(first);
      closed := multiset{};
      installed := Active(first);
    }

    method RetireExclusive(r: Router, replacement: Option<Router>)
      requires ClientsDiffer(r.runtimes)
      modifies this`closed
      ensures closed == old(closed) + multiset(Exclusive(r, r.runtimes.Keys, replacement))
    {
      hide ClientsDiffer, Exclusive, Shared;
      var left := r.runtimes.Keys;
      ghost var done: set<Name> := {};
      NoneExclusive(r, replacement);
      while left != {}
        invariant done == r.runtimes.Keys - left && left <= r.runtimes.Keys
        invariant closed == old(closed) + multiset(Exclusive(r, done, replacement))
        decreases left
      {
        var name :| name in left;
        OneMoreExclusive(r, done, name, replacement);
        var gone: set<ClientId> := if Shared(name, r.runtimes[name], replacement) then {} else {r.runtimes[name].client};
        AddNew(Exclusive(r, done, replacement), gone);
        closed := closed + multiset(gone);
        left, done := left - {name}, done + {name};
      }
      assert done == r.runtimes.Keys;
    }

    /** On a closed gateway the replacement is installed although the call fails. */
    method Replace(replacement: Router) returns (ok: bool)
      requires Tidy() && ClientsDiffer(replacement.runtimes)
      requires router.Some? ==> Succeeds(replacement, router.value) && Active(replacement) * installed <= Active(router.value)
      modifies this
      ensures ok <==> old(router).Some?
      ensures router == Some(replacement)
      ensures ok ==> Tidy() && installed == old(installed) + Active(replacement)
      ensures !ok ==> closed == old(closed) && installed == old(installed)
    {
      var previous := router;
      router := Some(replacement);
      if previous.None? {
        return false;
      }
      RetireExclusive(previous.value, Some(replacement));
      ExclusiveIsDropped(previous.value, replacement);
      Dropped(installed, Active(previous.value), Active(replacement));
      installed := installed + Active(replacement);
      return true;
    }

    method Close()
      requires Tidy()
      modifies this
      ensures Tidy() && router.None? && installed == old(installed)
      ensures closed == multiset(installed)
    {
      hide ClientsDiffer, Exclusive, Active;
      var previous := router;
      router := None;
      if previous.Some? {
        RetireExclusive(previous.value, None);
        ExclusiveOfNone(previous.value);
        Dropped(installed, Active(previous.value), {});
        assert installed + {} == installed;
      }
      assert installed - {} == installed;
    }
  }

  lemma NoneExclusive(r: Router, replacement: Option<Router>)
    ensures Exclusive(r, {}, replacement) == {}
  {
  }

  lemma AddNew(s: set<ClientId>, more: set<ClientId>)
    requires s !! more
    ensures multiset(s + more) == multiset(s) + multiset(more)
  {
  }

  lemma Dropped(installed: set<ClientId>, before: set<ClientId>, after: set<ClientId>)
    requires before <= installed && after * installed <= before
    ensures multiset(installed - before) + multiset(before - after) == multiset(installed + after - after)
  {
    assert installed + after - after == (installed - before) + (before - after);
    assert (installed - before) !! (before - after);
  }

  /** What being tidy says of each client. */
  lemma TidyMeans(m: GatewayManager, c: ClientId)
    requires m.Tidy()
    ensures c in ActiveOf(m.router) ==> m.closed[c] == 0
    ensures c in m.installed && c !in ActiveOf(m.router) ==> m.closed[c] == 1
    ensures c !in m.installed ==> m.closed[c] == 0
  {
  }
}
