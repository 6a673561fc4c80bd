/**
 The catalog service (src/cli.rs): reload and refresh move the catalog in memory,
 the router, the cache and the clients together or not at all. What is fetched,
 whether a cache write succeeds and whether a router can be built are inputs; a
 cache write is atomic. The service handles one request at a time.
 */
module CatalogService {
  import opened Prelude
  import opened Selector
  import opened Gateway

  type FilterId = nat

  type Matcher = (FilterId, Name) -> bool

  type SecretOf = string -> Option<string>

  datatype Runtime = Runtime(client: ClientSettings, apiBaseUrl: string, apiFallbackUrls: seq<string>, appSecret: string, filter: FilterId)

  /** `bindings` is every listener, egress and UDP setting. */
  datatype Config = Config(bindings: string, runtime: Runtime)

  datatype Snapshot = Snapshot(managed: seq<Proxy>, userinfo: Option<string>, fetchedAt: Option<nat>)

  /** The cache file: a snapshot and the account it belongs to. */
  datatype Envelope = Envelope(account: string, snapshot: Snapshot)

  function LoadSnapshot(disk: Option<Envelope>, account: string): Option<Snapshot> {
    if disk.Some? && disk.value.account == account then Some(disk.value.snapshot) else None
  }

  function SubscriptionOf(s: Snapshot): Option<(string, Option<nat>)> {
    if s.userinfo.None? then None else Some((s.userinfo.value, s.fetchedAt))
  }

  datatype FetchError = FetchError(authentication: bool)

  // ----- The published part of a catalog -----

  function Matching(matches: Matcher, filter: FilterId, proxies: seq<Proxy>): seq<Proxy> {
    if proxies == [] then []
    else
      (if matches(filter, proxies[0].name) then [proxies[0]] else []) + Matching(matches, filter, proxies[1..])
  }

  function Published(matches: Matcher, includeAll: bool, filter: FilterId, proxies: seq<Proxy>): Option<seq<Proxy>> {
    if includeAll then Some(proxies)
    else if Matching(matches, filter, proxies) == [] then None
    else Some(Matching(matches, filter, proxies))
  }

  lemma {:induction false} PublishedIsPart(matches: Matcher, filter: FilterId, proxies: seq<Proxy>)
    ensures forall p :: p in Matching(matches, filter, proxies) <==> p in proxies && matches(filter, p.name)
  {
    if proxies != [] {
      PublishedIsPart(matches, filter, proxies[1..]);
      assert proxies == [proxies[0]] + proxies[1..];
    }
  }

  /** What is published: everything on request, else the matching nodes, and never nothing. */
  lemma PublishedForm(matches: Matcher, filter: FilterId, proxies: seq<Proxy>)
    ensures Published(matches, true, filter, proxies) == Some(proxies)
    ensures (exists p :: p in proxies && matches(filter, p.name)) ==>
      Published(matches, false, filter, proxies) == Some(Matching(matches, filter, proxies))
    ensures (forall p :: p in proxies ==> !matches(filter, p.name)) ==> Published(matches, false, filter, proxies) == None
  {
    PublishedIsPart(matches, filter, proxies);
    if Matching(matches, filter, proxies) != [] {
      assert Matching(matches, filter, proxies)[0] in Matching(matches, filter, proxies);
    }
  }

  /** Publishing keeps the catalog's order. */
  lemma {:induction false} PublishedInOrder(matches: Matcher, filter: FilterId, a: seq<Proxy>, b: seq<Proxy>)
    ensures Matching(matches, filter, a + b) == Matching(matches, filter, a) + Matching(matches, filter, b)
    decreases |a|
  {
    if a == [] {
      assert a + b == b;
    } else {
      assert (a + b)[1..] == a[1..] + b && (a + b)[0] == a[0];
      PublishedInOrder(matches, filter, a[1..], b);
      var first := if matches(filter, a[0].name) then [a[0]] else [];
      Regroup(first, Matching(matches, filter, a[1..]), Matching(matches, filter, b));
    }
  }

  predicate NeedsFetch(now: Runtime, next: Runtime) {
    next.client.accessToken != now.client.accessToken || next.apiBaseUrl != now.apiBaseUrl
    || next.apiFallbackUrls != now.apiFallbackUrls || next.appSecret != now.appSecret
  }

  /** Every client draws on the active settings and the active dial limit. */
  ghost predicate Configured(r: Router, settings: ClientSettings, dialLimit: nat) {
    forall name :: name in r.runtimes ==> r.runtimes[name].settings == settings && r.runtimes[name].dialLimit == dialLimit
  }

  /** What stays of the clients: those of unchanged profiles, and no other. */
  ghost predicate KeepsClients(before: Router, after: Router) {
    forall name :: name in after.runtimes ==>
      if name in before.runtimes && before.runtimes[name].proxy == after.runtimes[name].proxy
      then after.runtimes[name] == before.runtimes[name]
      else after.runtimes[name].client !in Active(before)
  }

  ghost predicate Bounded(clients: set<ClientId>, next: nat) { forall c :: c in clients ==> c < next }

  lemma ReplacementIsSound(before: Router, after: Router, settings: ClientSettings, context: Context,
                           installed: set<ClientId>, next: nat, more: nat, reuse: bool)
    requires ClientsDiffer(before.runtimes) && Active(before) <= installed && Bounded(installed, next)
    requires next <= more && AllSourced(after.runtimes, if reuse then Some(before) else None, settings, context, next, more)
    requires reuse ==> Configured(before, settings, context.dialLimit)
    ensures Succeeds(after, before) && Active(after) * installed <= Active(before)
    ensures Bounded(installed + Active(after), more) && Configured(after, settings, context.dialLimit)
    ensures if reuse then KeepsClients(before, after) else Active(after) !! Active(before)
  {
    var previous := if reuse then Some(before) else None;
    forall name | name in after.runtimes
      ensures after.runtimes[name].client < more
      ensures after.runtimes[name].client in installed ==>
        reuse && name in before.runtimes && before.runtimes[name] == after.runtimes[name]
      ensures Reusable(previous, after.runtimes[name].proxy) ==> after.runtimes[name] == before.runtimes[name]
      ensures after.runtimes[name].settings == settings && after.runtimes[name].dialLimit == context.dialLimit
    {
      assert Sourced(after.runtimes[name], previous, settings, context, next, more);
      if Reusable(previous, after.runtimes[name].proxy) {
        assert before.runtimes[name].client in Active(before);
      }
    }
  }

  // ----- The service -----

  /**
   Everything the service holds, the cache file and the gateway included, and
   the account its catalog was fetched for.
   */
  datatype View = View(service: Config, managed: seq<Proxy>, fetchedAt: Option<nat>, account: string, disk: Option<Envelope>,
                       context: Context, subscription: Option<(string, Option<nat>)>, router: Option<Router>, closed: multiset<ClientId>,
                       owner: string)

  datatype Rules = Rules(matches: Matcher, secretOf: SecretOf, includeAll: bool)

  function PublishedBy(rules: Rules, runtime: Runtime, proxies: seq<Proxy>): Option<seq<Proxy>> {
    Published(rules.matches, rules.includeAll, runtime.filter, proxies)
  }

  /** The catalog in memory is the active account's, and the router is that of the catalog under the active filter and settings. */
  ghost predicate Consistent(v: View, rules: Rules) {
    var published := PublishedBy(rules, v.service.runtime, v.managed);
    && v.router.Some? && published.Some?
    && IsBuilt(v.router.value, v.managed, published.value, v.context.secret)
    && Configured(v.router.value, v.service.runtime.client, v.context.dialLimit)
    && rules.secretOf(v.service.runtime.client.accessToken) == Some(v.context.secret)
    && v.account == v.service.runtime.client.accessToken
    && v.owner == v.service.runtime.client.accessToken
  }

  function Reuse(v: View, next: Runtime): Option<Router> {
    if v.service.runtime.client == next.client then v.router else None
  }

  function CatalogAfter(v: View, next: Config, fetch: Option<Snapshot>): seq<Proxy> {
    if NeedsFetch(v.service.runtime, next.runtime) && fetch.Some? then fetch.value.managed else v.managed
  }

  predicate CanReload(v: View, rules: Rules, next: Option<Config>, fetch: Option<Snapshot>, luck: Luck) {
    next.Some? && next.value.bindings == v.service.bindings
    && (NeedsFetch(v.service.runtime, next.value.runtime) ==> fetch.Some?)
    && var managed := CatalogAfter(v, next.value, fetch);
       var published := PublishedBy(rules, next.value.runtime, managed);
       published.Some? && rules.secretOf(next.value.runtime.client.accessToken).Some?
       && CanBuild(managed, published.value, Reuse(v, next.value.runtime), luck)
  }

  predicate CanApply(v: View, rules: Rules, got: Snapshot, luck: Luck) {
    got.managed == v.managed
    || var published := PublishedBy(rules, v.service.runtime, got.managed);
       published.Some? && CanBuild(got.managed, published.value, v.router, luck)
  }

  ghost predicate Continues(before: Option<Router>, after: Option<Router>) {
    before.Some? && after.Some? && KeepsClients(before.value, after.value)
  }

  lemma ContinuesItself(r: Router)
    ensures KeepsClients(r, r)
  {
  }

  class Service {
    const rules: Rules
    const manager: GatewayManager
    var service: Config
    var managed: seq<Proxy>
    var fetchedAt: Option<nat>
    var account: string
    var disk: Option<Envelope>
    var context: Context
    var subscription: Option<(string, Option<nat>)>
    var nextClient: ClientId
    var nextLimit: nat
    /** The account the catalog in memory was fetched for. */
    ghost var owner: string

    ghost function Seen(): View
      reads this, manager
    {
      View(service, managed, fetchedAt, account, disk, context, subscription, manager.router, manager.closed, owner)
    }

    ghost predicate Valid()
      reads this, manager
    {
      manager.Tidy() && Consistent(Seen(), rules) && Bounded(manager.installed, nextClient) && context.dialLimit < nextLimit
    }

    constructor (rules: Rules, config: Config, initial: Snapshot, disk: Option<Envelope>, context: Context, first: Router, next: ClientId)
      requires ClientsDiffer(first.runtimes) && Bounded(Active(first), next)
      requires Consistent(View(config, initial.managed, initial.fetchedAt, config.runtime.client.accessToken, disk, context, None,
                               Some(first), multiset{}, config.runtime.client.accessToken), rules)
      ensures Valid() && fresh(manager)
      ensures this.rules == rules && service == config && managed == initial.managed && this.disk == disk && manager.closed == multiset{}
      ensures fetchedAt == initial.fetchedAt && subscription == SubscriptionOf(initial)
    {
      this.rules := rules;
      manager := new GatewayManager(first);
      service, managed, fetchedAt := config, initial.managed, initial.fetchedAt;
      account, this.disk, this.context := config.runtime.client.accessToken, disk, context;
      subscription := SubscriptionOf(initial);
      nextClient, nextLimit := next, context.dialLimit + 1;
      owner := config.runtime.client.accessToken;
    }

    method StoreSnapshot(snapshot: Snapshot, stores: bool)
      modifies this`disk
      ensures disk == if stores then Some(Envelope(account, snapshot)) else old(disk)
    {
      if stores {
        disk := Some(Envelope(account, snapshot));
      }
    }

    /** Build a replacement and install it; nothing moves if it cannot be built. */
    method Rebuild(proxies: seq<Proxy>, published: seq<Proxy>, settings: ClientSettings, target: Context, reuse: bool, luck: Luck)
      returns (r: Option<Router>)
      requires manager.Tidy() && manager.router.Some? && Bounded(manager.installed, nextClient)
      requires reuse ==> Configured(manager.router.value, settings, target.dialLimit)
      modifies this`nextClient
      ensures r.Some? <==> CanBuild(proxies, published, if reuse then manager.router else None, luck)
      ensures old(nextClient) <= nextClient && Bounded(manager.installed, nextClient)
      ensures r.Some? ==>
        && IsBuilt(r.value, proxies, published, target.secret) && ClientsDiffer(r.value.runtimes)
        && Configured(r.value, settings, target.dialLimit)
        && Succeeds(r.value, manager.router.value) && Active(r.value) * manager.installed <= Active(manager.router.value)
        && Bounded(manager.installed + Active(r.value), nextClient)
        && (if reuse then KeepsClients(manager.router.value, r.value) else Active(r.value) !! Active(manager.router.value))
    {
      hide IsBuilt, CanBuild, Configured, KeepsClients, ClientsDiffer, AllSourced, Succeeds;
      var more;
      ActiveBelow(manager.router.value, manager.installed, nextClient);
      r, more := BuildRouter(proxies, published, settings, target, if reuse then manager.router else None, luck, nextClient);
      if r.Some? {
        ReplacementIsSound(manager.router.value, r.value, settings, target, manager.installed, nextClient, more, reuse);
      }
      nextClient := more;
    }

    method Reload(next: Option<Config>, fetch: Option<Snapshot>, luck: Luck, stores: bool) returns (ok: bool)
      requires Valid()
      modifies this, manager
      ensures Valid()
      ensures ok <==> CanReload(old(Seen()), rules, next, fetch, luck)
      ensures !ok ==> Seen() == old(Seen())
      ensures ok ==>
        && service == next.value && managed == CatalogAfter(old(Seen()), next.value, fetch)
        && (if old(service).runtime.client == next.value.runtime.client then Continues(old(manager.router), manager.router)
            else Active(manager.router.value) !! Active(old(manager.router).value))
        && (if NeedsFetch(old(service).runtime, next.value.runtime)
            then disk == (if stores then Some(Envelope(account, fetch.value)) else old(disk))
                 && fetchedAt == fetch.value.fetchedAt && subscription == SubscriptionOf(fetch.value)
            else disk == old(disk) && fetchedAt == old(fetchedAt) && subscription == old(subscription))
        && (if next.value.runtime.client.accessToken != old(service).runtime.client.accessToken
               || next.value.runtime.apiBaseUrl != old(service).runtime.apiBaseUrl
               || next.value.runtime.apiFallbackUrls != old(service).runtime.apiFallbackUrls
               || next.value.runtime.appSecret != old(service).runtime.appSecret
            then fetch.Some? && managed == fetch.value.managed && fetchedAt == fetch.value.fetchedAt
                 && subscription == SubscriptionOf(fetch.value)
                 && (stores ==> disk == Some(Envelope(next.value.runtime.client.accessToken, fetch.value)))
            else managed == old(managed) && fetchedAt == old(fetchedAt) && subscription == old(subscription) && disk == old(disk))
        && (context.dialLimit == old(context).dialLimit
            <==> next.value.runtime.client.dialConcurrency == old(service).runtime.client.dialConcurrency)
      ensures old(manager.installed) <= manager.installed
    {
      hide IsBuilt, CanBuild, Configured, KeepsClients, ClientsDiffer, Succeeds, Published, Active, Bounded;
      if next.None? || next.value.bindings != service.bindings {
        return false;
      }
      var runtime := next.value.runtime;
      var needed := NeedsFetch(service.runtime, runtime);
      if needed && fetch.None? {
        return false;
      }
      var catalog := if needed then fetch.value.managed else managed;
      var published := PublishedBy(rules, runtime, catalog);
      if published.None? {
        return false;
      }
      var secret := rules.secretOf(runtime.client.accessToken);
      if secret.None? {
        return false;
      }
      var sameLimit := service.runtime.client.dialConcurrency == runtime.client.dialConcurrency;
      var target := Context(secret.value, if sameLimit then context.dialLimit else nextLimit);
      var reusable := service.runtime.client == runtime.client;
      var replacement := Rebuild(catalog, published.value, runtime.client, target, reusable, luck);
      if replacement.None? {
        return false;
      }
      Commit(next.value, if needed then fetch else None, target, replacement.value, stores);
      return true;
    }

    /** Take over a catalog fetched for an account; the cache follows if it can be written. */
    method Adopt(got: Snapshot, stores: bool, ghost token: string)
      modifies this`subscription, this`disk, this`fetchedAt, this`managed, this`owner
      ensures owner == token
      ensures subscription == SubscriptionOf(got) && fetchedAt == got.fetchedAt && managed == got.managed
      ensures disk == if stores then Some(Envelope(account, got)) else old(disk)
    {
      hide *;
      subscription := SubscriptionOf(got);
      StoreSnapshot(got, stores);
      fetchedAt := got.fetchedAt;
      managed := got.managed;
      owner := token;
    }

    /** The part of a reload that cannot fail. */
    method Commit(next: Config, fetched: Option<Snapshot>, target: Context, replacement: Router, stores: bool)
      requires manager.Tidy() && manager.router.Some? && ClientsDiffer(replacement.runtimes)
      requires Succeeds(replacement, manager.router.value) && Active(replacement) * manager.installed <= Active(manager.router.value)
      modifies this, manager
      ensures manager.Tidy() && manager.router == Some(replacement) && manager.installed == old(manager.installed) + Active(replacement)
      ensures service == next && context == target && account == next.runtime.client.accessToken
      ensures managed == (if fetched.Some? then fetched.value.managed else old(managed))
      ensures owner == if fetched.Some? then next.runtime.client.accessToken else old(owner)
      ensures fetchedAt == (if fetched.Some? then fetched.value.fetchedAt else old(fetchedAt))
      ensures disk == if fetched.Some? && stores then Some(Envelope(account, fetched.value)) else old(disk)
      ensures subscription == if fetched.Some? then SubscriptionOf(fetched.value) else old(subscription)
      ensures nextClient == old(nextClient) && nextLimit == old(nextLimit) + 1
    {
      hide *;
      var replaced := manager.Replace(replacement);
      account := next.runtime.client.accessToken;
      if fetched.Some? {
        Adopt(fetched.value, stores, next.runtime.client.accessToken);
      }
      context := target;
      nextLimit := nextLimit + 1;
      service := next;
    }

    method ApplyRefreshed(got: Snapshot, requireWrite: bool, luck: Luck, stores: bool) returns (ok: bool)
      requires Valid()
      modifies this, manager
      ensures Valid()
      ensures ok <==> CanApply(old(Seen()), rules, got, luck) && (requireWrite ==> stores)
      ensures !ok ==> Seen() == old(Seen())
      ensures ok ==>
        && managed == got.managed && fetchedAt == got.fetchedAt && subscription == SubscriptionOf(got)
        && disk == (if stores then Some(Envelope(account, got)) else old(disk))
        && Continues(old(manager.router), manager.router)
      ensures service == old(service) && context == old(context) && account == old(account)
      ensures old(manager.installed) <= manager.installed
    {
      hide IsBuilt, CanBuild, Configured, KeepsClients, ClientsDiffer, Succeeds, Published, Active, Bounded;
      var replacement: Option<Router> := None;
      if got.managed != managed {
        var published := PublishedBy(rules, service.runtime, got.managed);
        if published.None? {
          return false;
        }
        replacement := Rebuild(got.managed, published.value, service.runtime.client, context, true, luck);
        if replacement.None? {
          return false;
        }
      }
      if requireWrite {
        if !stores {
          return false;
        }
        StoreSnapshot(got, true);
      }
      ContinuesItself(manager.router.value);
      if replacement.Some? {
        var replaced := manager.Replace(replacement.value);
      }
      subscription := SubscriptionOf(got);
      fetchedAt := got.fetchedAt;
      if !requireWrite {
        StoreSnapshot(got, stores);
      }
      managed := got.managed;
      owner := service.runtime.client.accessToken;
      return true;
    }

    /** A forced refresh fails without a trace; an ordinary one that is refused drops the account's metadata only. */
    method FinishRefresh(fetched: Result<Snapshot, FetchError>, forced: bool, luck: Luck, stores: bool) returns (ok: bool)
      requires Valid()
      modifies this, manager
      ensures Valid()
      ensures ok <==> fetched.Ok? && CanApply(old(Seen()), rules, fetched.value, luck) && (forced ==> stores)
      ensures ok ==>
        && managed == fetched.value.managed && fetchedAt == fetched.value.fetchedAt && subscription == SubscriptionOf(fetched.value)
        && Continues(old(manager.router), manager.router)
        && (if stores then LoadSnapshot(disk, service.runtime.client.accessToken) == Some(fetched.value) else disk == old(disk))
      ensures !ok && (forced || fetched.Ok? || !fetched.error.authentication) ==> Seen() == old(Seen())
      ensures !ok && !forced && fetched.Err? && fetched.error.authentication ==>
        Seen() == old(Seen()).(subscription := None,
                               disk := if stores then Some(Envelope(account, Snapshot(managed, None, fetchedAt))) else old(disk))
      ensures service == old(service) && context == old(context)
      ensures old(manager.installed) <= manager.installed
    {
      hide Consistent, CanApply, KeepsClients;
      assert account == service.runtime.client.accessToken by {
        AccountIsActive(Seen(), rules);
      }
      ok := false;
      if fetched.Ok? {
        ok := ApplyRefreshed(fetched.value, forced, luck, stores);
      } else if !forced && fetched.error.authentication {
        subscription := None;
        StoreSnapshot(Snapshot(managed, None, fetchedAt), stores);
        SameRouting(old(Seen()), Seen(), rules);
      }
    }
  }

  lemma AccountIsActive(v: View, rules: Rules)
    requires Consistent(v, rules)
    ensures v.account == v.service.runtime.client.accessToken
  {
  }

  lemma SameRouting(v: View, w: View, rules: Rules)
    requires Consistent(v, rules) && w == v.(subscription := w.subscription, disk := w.disk)
    ensures Consistent(w, rules)
  {
  }

  // ----- Runs -----

  datatype Command =
    | Reload(next: Option<Config>, fetch: Option<Snapshot>, luck: Luck, stores: bool)
    | Refresh(fetched: Result<Snapshot, FetchError>, forced: bool, luck: Luck, stores: bool)

  /** What a run is about, without clients: configuration, catalog, cache file and subscription. */
  datatype Core = Core(service: Config, managed: seq<Proxy>, fetchedAt: Option<nat>, disk: Option<Envelope>,
                       subscription: Option<(string, Option<nat>)>)

  function CoreOf(v: View): Core { Core(v.service, v.managed, v.fetchedAt, v.disk, v.subscription) }

  /** A dialer is needed exactly for the nodes that are new or changed. */
  predicate Buildable(known: seq<Proxy>, proxies: seq<Proxy>, published: seq<Proxy>, luck: Luck) {
    luck.renders(published) && luck.renders(proxies) && GoodNames(proxies, |proxies|)
    && forall i :: 0 <= i < |proxies| ==> proxies[i] in known || luck.dials(proxies[i])
  }

  predicate Reloadable(c: Core, rules: Rules, next: Config, fetch: Option<Snapshot>, luck: Luck) {
    var managed := if NeedsFetch(c.service.runtime, next.runtime) && fetch.Some? then fetch.value.managed else c.managed;
    var published := PublishedBy(rules, next.runtime, managed);
    && next.bindings == c.service.bindings && (NeedsFetch(c.service.runtime, next.runtime) ==> fetch.Some?)
    && published.Some? && rules.secretOf(next.runtime.client.accessToken).Some?
    && Buildable(if c.service.runtime.client == next.runtime.client then c.managed else [], managed, published.value, luck)
  }

  predicate Refreshable(c: Core, rules: Rules, got: Snapshot, luck: Luck) {
    got.managed == c.managed
    || var published := PublishedBy(rules, c.service.runtime, got.managed);
       published.Some? && Buildable(c.managed, got.managed, published.value, luck)
  }

  function Cached(c: Core, got: Snapshot, stores: bool): Core {
    if stores then c.(disk := Some(Envelope(c.service.runtime.client.accessToken, got))) else c
  }

  function Adopted(c: Core, got: Snapshot, stores: bool): Core {
    Cached(c.(managed := got.managed, fetchedAt := got.fetchedAt, subscription := SubscriptionOf(got)), got, stores)
  }

  /** One command: it applies whole, or leaves everything but a refused account's metadata as it was. */
  function Apply(c: Core, rules: Rules, command: Command): Core {
    match command
    case Reload(next, fetch, luck, stores) =>
      if next.None? || !Reloadable(c, rules, next.value, fetch, luck) then c
      else if NeedsFetch(c.service.runtime, next.value.runtime) then Adopted(c.(service := next.value), fetch.value, stores)
      else c.(service := next.value)
    case Refresh(Ok(got), forced, luck, stores) =>
      if Refreshable(c, rules, got, luck) && (forced ==> stores) then Adopted(c, got, stores) else c
    case Refresh(Err(error), forced, _, stores) =>
      if forced || !error.authentication then c
      else Cached(c.(subscription := None), Snapshot(c.managed, None, c.fetchedAt), stores)
  }

  function ApplyAll(c: Core, rules: Rules, commands: seq<Command>): Core {
    if commands == [] then c else Apply(ApplyAll(c, rules, commands[..|commands| - 1]), rules, commands[|commands| - 1])
  }

  /** A reload by its fields: it fetches exactly if the account or the way to the API changed. */
  lemma ReloadByFields(c: Core, rules: Rules, next: Config, fetch: Option<Snapshot>, luck: Luck, stores: bool)
    ensures var d := Apply(c, rules, Reload(Some(next), fetch, luck, stores));
      var now := c.service.runtime;
      d == c
      || (&& d.service == next && next.bindings == c.service.bindings
          && if next.runtime.client.accessToken != now.client.accessToken || next.runtime.apiBaseUrl != now.apiBaseUrl
                || next.runtime.apiFallbackUrls != now.apiFallbackUrls || next.runtime.appSecret != now.appSecret
             then fetch.Some? && d.managed == fetch.value.managed && d.fetchedAt == fetch.value.fetchedAt
                  && d.subscription == SubscriptionOf(fetch.value)
                  && d.disk == (if stores then Some(Envelope(next.runtime.client.accessToken, fetch.value)) else c.disk)
             else d == c.(service := next))
  {
    hide Buildable, PublishedBy;
  }

  /** A refresh by its fields. */
  lemma RefreshByFields(c: Core, rules: Rules, fetched: Result<Snapshot, FetchError>, forced: bool, luck: Luck, stores: bool)
    ensures var d := Apply(c, rules, Refresh(fetched, forced, luck, stores));
      && d.service == c.service
      && (fetched.Ok? ==>
          d == c
          || (d.managed == fetched.value.managed && d.fetchedAt == fetched.value.fetchedAt && d.subscription == SubscriptionOf(fetched.value)
              && d.disk == if stores then Some(Envelope(c.service.runtime.client.accessToken, fetched.value)) else c.disk))
      && (fetched.Ok? && forced && !stores ==> d == c)
      && (fetched.Ok? && fetched.value.managed == c.managed && (forced ==> stores) ==> d.fetchedAt == fetched.value.fetchedAt)
      && (fetched.Err? ==> d.managed == c.managed && d.fetchedAt == c.fetchedAt)
      && (fetched.Err? && (forced || !fetched.error.authentication) ==> d == c)
      && (fetched.Err? && !forced && fetched.error.authentication ==>
          d.subscription == None
          && d.disk == if stores then Some(Envelope(c.service.runtime.client.accessToken, Snapshot(c.managed, None, c.fetchedAt))) else c.disk)
  {
    hide Buildable, PublishedBy;
  }

  /** A subscription is the account's information with the time it was fetched. */
  lemma SubscriptionForm(managed: seq<Proxy>, info: string, at: Option<nat>)
    ensures SubscriptionOf(Snapshot(managed, Some(info), at)) == Some((info, at)) && SubscriptionOf(Snapshot(managed, None, at)) == None
  {
  }

  /** Reuse depends on the catalog alone: the router of a catalog knows exactly its nodes. */
  lemma ReusableIsKnown(v: View, rules: Rules, p: Proxy)
    requires Consistent(v, rules)
    ensures Reusable(v.router, p) <==> p in v.managed
  {
    hide Configured, NodeSelector, Published;
    var r := v.router.value;
    if p in v.managed {
      var i :| 0 <= i < |v.managed| && v.managed[i] == p;
      assert Serves(r.routes, r.runtimes, v.managed[i]);
    }
    if p.name in r.runtimes {
      var i :| 0 <= i < |v.managed| && v.managed[i].name == p.name;
      assert Serves(r.routes, r.runtimes, v.managed[i]);
    }
  }

  lemma BuildableExactly(v: View, rules: Rules, reuse: bool, proxies: seq<Proxy>, published: seq<Proxy>, luck: Luck)
    requires Consistent(v, rules)
    ensures CanBuild(proxies, published, if reuse then v.router else None, luck)
       <==> Buildable(if reuse then v.managed else [], proxies, published, luck)
  {
    hide Consistent, GoodNames;
    forall p ensures Reusable(v.router, p) <==> p in v.managed {
      ReusableIsKnown(v, rules, p);
    }
  }

  lemma ReloadableExactly(v: View, rules: Rules, next: Option<Config>, fetch: Option<Snapshot>, luck: Luck)
    requires Consistent(v, rules)
    ensures CanReload(v, rules, next, fetch, luck) <==> next.Some? && Reloadable(CoreOf(v), rules, next.value, fetch, luck)
    ensures CanReload(v, rules, next, fetch, luck) && NeedsFetch(v.service.runtime, next.value.runtime) ==> fetch.Some?
  {
    hide Consistent, CanBuild, Buildable, PublishedBy;
    if next.Some? {
      var managed := CatalogAfter(v, next.value, fetch);
      var published := PublishedBy(rules, next.value.runtime, managed);
      if published.Some? {
        BuildableExactly(v, rules, v.service.runtime.client == next.value.runtime.client, managed, published.value, luck);
      }
    }
  }

  lemma RefreshableExactly(v: View, rules: Rules, got: Snapshot, luck: Luck)
    requires Consistent(v, rules)
    ensures CanApply(v, rules, got, luck) <==> Refreshable(CoreOf(v), rules, got, luck)
  {
    hide Consistent, CanBuild, Buildable, PublishedBy;
    var published := PublishedBy(rules, v.service.runtime, got.managed);
    if published.Some? {
      BuildableExactly(v, rules, true, got.managed, published.value, luck);
    }
  }

  /** One command on the service is one on its core. */
  method Handle(s: Service, command: Command)
    requires s.Valid()
    modifies s, s.manager
    ensures s.Valid() && old(s.manager.installed) <= s.manager.installed
    ensures CoreOf(s.Seen()) == Apply(CoreOf(old(s.Seen())), s.rules, command)
  {
    hide Consistent, CanReload, CanApply, Reloadable, Refreshable, KeepsClients, Active, Bounded;
    AccountIsActive(s.Seen(), s.rules);
    match command {
      case Reload(next, fetch, luck, stores) =>
        ReloadableExactly(s.Seen(), s.rules, next, fetch, luck);
        var ok := s.Reload(next, fetch, luck, stores);
        AccountIsActive(s.Seen(), s.rules);
      case Refresh(fetched, forced, luck, stores) =>
        if fetched.Ok? {
          RefreshableExactly(s.Seen(), s.rules, fetched.value, luck);
        }
        var ok := s.FinishRefresh(fetched, forced, luck, stores);
    }
  }

  /**
   Any run of commands, one at a time: each applies whole or not at all, the
   router stays the catalog's, no active client was closed, and every client
   that was ever active and no longer is was closed once.
   */
  method Serve(s: Service, commands: seq<Command>)
    requires s.Valid()
    modifies s, s.manager
    ensures s.Valid() && old(s.manager.installed) <= s.manager.installed
    ensures Consistent(s.Seen(), s.rules)
    ensures CoreOf(s.Seen()) == ApplyAll(CoreOf(old(s.Seen())), s.rules, commands)
    ensures forall c :: c in s.manager.installed ==>
      s.manager.closed[c] == if c in ActiveOf(s.manager.router) then 0 else 1
  {
    hide Consistent, Apply;
    for i := 0 to |commands|
      invariant s.Valid() && old(s.manager.installed) <= s.manager.installed
      invariant CoreOf(s.Seen()) == ApplyAll(CoreOf(old(s.Seen())), s.rules, commands[..i])
    {
      assert commands[..i + 1][..i] == commands[..i];
      Handle(s, commands[i]);
    }
    assert commands[..|commands|] == commands;
    forall c | c in s.manager.installed
      ensures s.manager.closed[c] == if c in ActiveOf(s.manager.router) then 0 else 1
    {
      TidyMeans(s.manager, c);
    }
  }

  predicate CanStart(rules: Rules, config: Config, initial: Option<Snapshot>, luck: Luck) {
    initial.Some? && rules.secretOf(config.runtime.client.accessToken).Some?
    && var published := PublishedBy(rules, config.runtime, initial.value.managed);
       published.Some? && CanBuild(initial.value.managed, published.value, None, luck)
  }

  /** Starting: from the account's cache, or from a fetched catalog that is then cached. */
  method Start(rules: Rules, config: Config, disk: Option<Envelope>, fetch: Option<Snapshot>, luck: Luck, stores: bool)
    returns (s: Option<Service>)
    ensures var cached := LoadSnapshot(disk, config.runtime.client.accessToken);
      s.Some? <==> CanStart(rules, config, if cached.Some? then cached else fetch, luck)
    ensures s.Some? ==>
      && fresh(s.value) && fresh(s.value.manager) && s.value.Valid() && s.value.rules == rules && s.value.service == config
      && var cached := LoadSnapshot(disk, config.runtime.client.accessToken);
         && (cached.Some? || fetch.Some?)
         && (cached.Some? <==> disk.Some? && disk.value.account == config.runtime.client.accessToken)
         && s.value.fetchedAt == (if cached.Some? then cached else fetch).value.fetchedAt
         && s.value.subscription == SubscriptionOf((if cached.Some? then cached else fetch).value)
         && if cached.Some? then s.value.managed == disk.value.snapshot.managed && s.value.disk == disk
         else fetch.Some? && s.value.managed == fetch.value.managed
              && s.value.disk == if stores then Some(Envelope(config.runtime.client.accessToken, fetch.value)) else disk
  {
    hide IsBuilt, CanBuild, Published, AllSourced, ClientsDiffer;
    var token := config.runtime.client.accessToken;
    var file := disk;
    var initial := LoadSnapshot(disk, token);
    if initial.None? {
      initial := fetch;
      if fetch.None? {
        return None;
      }
      if stores {
        file := Some(Envelope(token, fetch.value));
      }
    }
    var published := PublishedBy(rules, config.runtime, initial.value.managed);
    var secret := rules.secretOf(token);
    if published.None? || secret.None? {
      return None;
    }
    var context := Context(secret.value, 0);
    var router, next := BuildRouter(initial.value.managed, published.value, config.runtime.client, context, None, luck, 0);
    if router.None? {
      return None;
    }
    FirstIsSound(router.value, config.runtime.client, context, next);
    var service := new Service(rules, config, initial.value, file, context, router.value, next);
    return Some(service);
  }

  lemma FirstIsSound(r: Router, settings: ClientSettings, context: Context, next: nat)
    requires AllSourced(r.runtimes, None, settings, context, 0, next)
    ensures Bounded(Active(r), next) && Configured(r, settings, context.dialLimit)
  {
    forall name | name in r.runtimes ensures Sourced(r.runtimes[name], None, settings, context, 0, next) {
    }
  }

  lemma ActiveBelow(r: Router, installed: set<ClientId>, next: nat)
    requires Active(r) <= installed && Bounded(installed, next)
    ensures Below(Some(r), next)
  {
    forall name | name in r.runtimes ensures r.runtimes[name].client < next {
      assert r.runtimes[name].client in Active(r);
    }
  }

  /** In every consistent state each published username, with the active secret, reaches its own node's client. */
  lemma PublishedRoute(v: View, rules: Rules, k: nat)
    requires Consistent(v, rules) && k < |v.router.value.filtered|
    ensures var p := v.router.value.filtered[k];
      && p in v.managed && p.name in v.router.value.runtimes && v.router.value.runtimes[p.name].proxy == p
      && NodeSelector(p.name).Some?
      && Authenticate(v.router.value, NodeSelector(p.name).value, v.context.secret) == Some(v.router.value.runtimes[p.name].client)
  {
    hide NodeSelector, Configured, Matching;
    var p := v.router.value.filtered[k];
    PublishedIsPart(rules.matches, v.service.runtime.filter, v.managed);
    var i :| 0 <= i < |v.managed| && v.managed[i] == p;
    assert Serves(v.router.value.routes, v.router.value.runtimes, v.managed[i]);
  }
}
