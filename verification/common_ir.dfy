/**
 The conversion of ingresses as a whole (pkg/i2gw/providers/common/converter.go): when it succeeds,
 what it conserves, and the routes that are there to be found.
 */
module CommonIR {
  import opened CommonConservation
  import opened CommonConverter
  import opened CommonIngress
  import opened CommonListeners
  import opened CommonNames
  import opened CommonRoutes
  import opened CommonRuleGroups
  import opened Gateway
  import opened Grouping
  import opened Optional
  import opened Strings

  // ---- When it succeeds -------------------------------------------------------------------------------

  predicate Complete(r: Routing) {
    r.on.Some? && r.to.Some?
  }

  /** Rules of the HTTP protocol with the path types that exist. */
  ghost predicate AllKnown(es: seq<Entry>) {
    forall e :: e in es ==> e.protocol == HTTP && forall p :: p in PathsOfEntry(e) ==> KnownType(p)
  }

  lemma {:induction false} PathsInKnown(start: seq<PlacedPath>, e: Entry, i: nat, n: nat)
    requires KnownTypes(start) && n <= |PathsOfEntry(e)| && forall p :: p in PathsOfEntry(e) ==> KnownType(p)
    ensures KnownTypes(PathsIn(start, e, i, n))
    decreases n
  {
    if n > 0 {
      PathsInKnown(start, e, i, n - 1);
    }
  }

  lemma {:induction false} PathsKnown(es: seq<Entry>, n: nat)
    requires AllKnown(es) && n <= |es|
    ensures KnownTypes(PathsOf(es, n))
    decreases n
  {
    if n > 0 {
      PathsKnown(es, n - 1);
      assert es[n - 1] in es;
      PathsInKnown(PathsOf(es, n - 1), es[n - 1], n - 1, |PathsOfEntry(es[n - 1])|);
    }
  }

  lemma {:induction false} GroupIsKnown(es: seq<Entry>, k: string)
    requires AllKnown(es) && OfKey(es, AggregatorKey, k) != []
    ensures GroupKnown(GroupOf(OfKey(es, AggregatorKey, k)))
  {
    OfKeyIs(es, AggregatorKey, k);
    PathsKnown(OfKey(es, AggregatorKey, k), |OfKey(es, AggregatorKey, k)|);
  }

  lemma {:induction false} AllConvertIff(g: RuleGroup, ports: ServicePorts, convert: PathConverter, ps: seq<PlacedPath>)
    requires KnownTypes(ps)
    ensures AllConvert(g.namespace, ports, convert, ps) <==>
            forall r :: r in Map(ps, p => GroupAsks(g, ports, convert, p)) ==> Complete(r)
  {
    var rs := Map(ps, p => GroupAsks(g, ports, convert, p));
    forall i | 0 <= i < |ps|
      ensures rs[i] in rs && ps[i] in ps
      ensures Converts(g.namespace, ports, convert, ps[i]) <==> Complete(rs[i])
    {
      assert ps[i] in ps;
    }
  }

  /** A group converts exactly when everything that its rules ask for is complete. */
  lemma {:induction false} GroupConvertsIff(es: seq<Entry>, k: string, ports: ServicePorts, convert: PathConverter)
    requires (forall e :: e in es ==> SlashFree(e)) && AllKnown(es) && OfKey(es, AggregatorKey, k) != []
    ensures GroupConverts(GroupOf(OfKey(es, AggregatorKey, k)), ports, convert) <==>
            forall r :: r in EntriesAsk(ports, convert, OfKey(es, AggregatorKey, k)) ==> Complete(r)
  {
    var group := OfKey(es, AggregatorKey, k);
    var g := GroupOf(group);
    GroupIsKnown(es, k);
    GroupIsOfOne(es, k);
    PathsOfAsk(g, ports, convert, group, |group|);
    assert group[..|group|] == group;
    AllConvertIff(g, ports, convert, AllPaths(group));
  }

  ghost predicate AllComplete(ports: ServicePorts, convert: PathConverter, es: seq<Entry>) {
    forall r :: r in EntriesAsk(ports, convert, es) ==> Complete(r)
  }

  lemma {:induction false} CompleteByKey(es: seq<Entry>, ks: seq<string>, ports: ServicePorts, convert: PathConverter)
    requires forall k :: k in ks <==> k in FirstKeys(es, AggregatorKey)
    ensures AllComplete(ports, convert, es) <==>
            forall i :: 0 <= i < |ks| ==> AllComplete(ports, convert, OfKey(es, AggregatorKey, ks[i]))
  {
    FirstKeysAreDistinct(es, AggregatorKey);
    forall e | e in es
      ensures AggregatorKey(e) in ks && e in OfKey(es, AggregatorKey, AggregatorKey(e))
    {
      OfKeyIs(es, AggregatorKey, AggregatorKey(e));
    }
    if forall i :: 0 <= i < |ks| ==> AllComplete(ports, convert, OfKey(es, AggregatorKey, ks[i])) {
      forall r | r in EntriesAsk(ports, convert, es)
        ensures Complete(r)
      {
        FlatMapHas(es, e => EntryAsks(ports, convert, e), r);
        var e :| e in es && r in EntryAsks(ports, convert, e);
        assert AggregatorKey(e) in ks;
        var i :| 0 <= i < |ks| && ks[i] == AggregatorKey(e);
        assert AllComplete(ports, convert, OfKey(es, AggregatorKey, ks[i]));
        FlatMapHas(OfKey(es, AggregatorKey, AggregatorKey(e)), e => EntryAsks(ports, convert, e), r);
      }
    }
    if AllComplete(ports, convert, es) {
      forall i, r | 0 <= i < |ks| && r in EntriesAsk(ports, convert, OfKey(es, AggregatorKey, ks[i]))
        ensures Complete(r)
      {
        FlatMapHas(OfKey(es, AggregatorKey, ks[i]), e => EntryAsks(ports, convert, e), r);
        var e :| e in OfKey(es, AggregatorKey, ks[i]) && r in EntryAsks(ports, convert, e);
        OfKeyIs(es, AggregatorKey, ks[i]);
        FlatMapHas(es, e => EntryAsks(ports, convert, e), r);
      }
    }
  }

  // ---- As a whole -------------------------------------------------------------------------------------

  ghost predicate DefaultsComplete(ports: ServicePorts, ds: seq<DefaultBackend>) {
    forall r :: r in DefaultsAsk(ports, ds) ==> r.to.Some?
  }

  /** No class, from a field or an annotation, contains a slash. */
  predicate ClassesSlashFree(es: seq<Entry>) {
    forall e :: e in es ==> '/' !in GetIngressClass(e.ingress)
  }

  /** The groups of the rules, in the order of their keys. */
  ghost predicate AreGroups(groups: seq<RuleGroup>, es: seq<Entry>, ks: seq<string>) {
    && NoDuplicates(ks) && (forall k :: k in ks <==> k in FirstKeys(es, AggregatorKey)) && |groups| == |ks|
    && forall i :: 0 <= i < |ks| ==>
      OfKey(es, AggregatorKey, ks[i]) != [] && groups[i] == GroupOf(OfKey(es, AggregatorKey, ks[i]))
  }

  method GroupsInOrder(a: IngressAggregator) returns (groups: seq<RuleGroup>, ks: seq<string>)
    requires a.Valid()
    ensures AreGroups(groups, a.entries, ks)
  {
    var keys := SortedKeys(a.ruleGroups);
    ks := keys;
    groups := [];
    for i := 0 to |keys|
      invariant |groups| == i && forall j :: 0 <= j < i ==> groups[j] == a.ruleGroups[keys[j]]
    {
      groups := groups + [a.ruleGroups[keys[i]]];
    }
    forall k
      ensures k in ks <==> k in FirstKeys(a.entries, AggregatorKey)
      ensures k in ks ==>
        var group := OfKey(a.entries, AggregatorKey, k); group != [] && a.ruleGroups[k] == GroupOf(group)
    {
      GroupMapHas(a.entries, AggregatorKey, k);
    }
  }

  lemma {:induction false} GroupsFailIff(groups: seq<RuleGroup>, es: seq<Entry>, ks: seq<string>, ports: ServicePorts,
                                         convert: PathConverter)
    requires AreGroups(groups, es, ks) && AllKnown(es) && forall e :: e in es ==> SlashFree(e)
    ensures (forall i :: 0 <= i < |groups| ==> GroupConverts(groups[i], ports, convert)) <==>
      AllComplete(ports, convert, es)
  {
    CompleteByKey(es, ks, ports, convert);
    forall i | 0 <= i < |ks|
      ensures GroupConverts(groups[i], ports, convert) <==> AllComplete(ports, convert, OfKey(es, AggregatorKey, ks[i]))
    {
      GroupConvertsIff(es, ks[i], ports, convert);
    }
  }

  lemma {:induction false} MadeRoutesAre(routes: seq<RouteWithSources>, fails: seq<bool>, groups: seq<RuleGroup>,
                                         es: seq<Entry>, ks: seq<string>,
                                         ports: ServicePorts, convert: PathConverter)
    requires AreGroups(groups, es, ks) && AllMade(routes, fails, groups, |groups|, ports, convert)
    ensures true in fails <==> exists i :: 0 <= i < |groups| && !GroupConverts(groups[i], ports, convert)
    ensures true !in fails ==> AreRoutesOf(routes, es, ks, ports, convert)
  {
    forall i | 0 <= i < |groups|
      ensures fails[i] <==> !GroupConverts(groups[i], ports, convert)
      ensures !fails[i] ==> IsRouteOf(routes[i].route, groups[i], ports, convert)
    {
      assert Made(routes[i], fails[i], groups[i], ports, convert);
    }
    if true !in fails {
      forall i | 0 <= i < |ks|
        ensures IsRouteOf(routes[i].route, GroupOf(OfKey(es, AggregatorKey, ks[i])), ports, convert)
      {
        assert fails[i] in fails;
      }
    }
  }

  /** The group of a rule: of its namespace, class and host. */
  lemma {:induction false} GroupOfEntry(groups: seq<RuleGroup>, es: seq<Entry>, ks: seq<string>, e: Entry)
      returns (i: nat)
    requires AreGroups(groups, es, ks) && e in es && forall e :: e in es ==> SlashFree(e) && e.protocol == HTTP
    ensures i < |groups| && ks[i] == AggregatorKey(e) && e in OfKey(es, AggregatorKey, ks[i])
    ensures groups[i].namespace == e.ingress.namespace && groups[i].ingressClass == GetIngressClass(e.ingress)
    ensures groups[i].host == e.rule.host
  {
    FirstKeysAreDistinct(es, AggregatorKey);
    var k := AggregatorKey(e);
    assert k in ks;
    i :| 0 <= i < |ks| && ks[i] == k;
    OfKeyIs(es, AggregatorKey, k);
    GroupIsOfOne(es, k);
  }

  /** A rule that a group has: of its namespace and class. */
  lemma {:induction false} EntryOfGroup(groups: seq<RuleGroup>, es: seq<Entry>, ks: seq<string>, i: nat)
      returns (e: Entry)
    requires AreGroups(groups, es, ks) && i < |groups|
    ensures e in es && e.ingress.namespace == groups[i].namespace
    ensures GetIngressClass(e.ingress) == groups[i].ingressClass
  {
    OfKeyIs(es, AggregatorKey, ks[i]);
    e := OfKey(es, AggregatorKey, ks[i])[0];
    assert e in OfKey(es, AggregatorKey, ks[i]);
  }

  /** There are listeners for exactly the namespaces and classes of the rules. */
  lemma {:induction false} ListenersAreForEntries(asks: seq<GroupAsk>, listeners: map<string, seq<GroupListener>>,
                                                  groups: seq<RuleGroup>,
                                                  es: seq<Entry>, ks: seq<string>, k: string)
    requires AreGroups(groups, es, ks) && AllKnown(es) && forall e :: e in es ==> SlashFree(e)
    requires |asks| == |groups| && Collected(asks, listeners)
    requires forall i :: 0 <= i < |groups| ==> asks[i].group == groups[i]
    ensures k in listeners <==> exists e :: e in es && EntryGateway(e) == k
  {
    FirstKeysAreDistinct(asks, GatewayKeyOf);
    if k in listeners {
      var a :| a in asks && GatewayKeyOf(a) == k;
      var i :| 0 <= i < |asks| && asks[i] == a;
      var e := EntryOfGroup(groups, es, ks, i);
      assert EntryGateway(e) == k;
    }
    forall e | e in es && EntryGateway(e) == k
      ensures k in listeners
    {
      var i := GroupOfEntry(groups, es, ks, e);
      assert asks[i] in asks && GatewayKeyOf(asks[i]) == k;
    }
  }

  function EntryGateway(e: Entry): string {
    e.ingress.namespace + "/" + GetIngressClass(e.ingress)
  }

  lemma {:induction false} GatewayKeysSplitIff(asks: seq<GroupAsk>, listeners: map<string, seq<GroupListener>>,
                                               groups: seq<RuleGroup>,
                                               es: seq<Entry>, ks: seq<string>)
    requires AreGroups(groups, es, ks) && AllKnown(es) && forall e :: e in es ==> SlashFree(e)
    requires |asks| == |groups| && Collected(asks, listeners)
    requires forall i :: 0 <= i < |groups| ==> asks[i].group == groups[i]
    ensures (forall k :: k in listeners ==> SplitsInTwo(k)) <==> ClassesSlashFree(es)
  {
    forall e | e in es
      ensures EntryGateway(e) in listeners && (SplitsInTwo(EntryGateway(e)) <==> '/' !in GetIngressClass(e.ingress))
    {
      ListenersAreForEntries(asks, listeners, groups, es, ks, EntryGateway(e));
      GatewayKeySplitsIff(e.ingress.namespace, GetIngressClass(e.ingress));
    }
    forall k | k in listeners
      ensures exists e :: e in es && EntryGateway(e) == k
    {
      ListenersAreForEntries(asks, listeners, groups, es, ks, k);
    }
  }

  predicate AllSlashFree(es: seq<Entry>) {
    forall e :: e in es ==> SlashFree(e)
  }

  /** What the conversion needs: types and backends that translate, and classes without slashes. */
  ghost predicate Convertible(es: seq<Entry>, ds: seq<DefaultBackend>, ports: ServicePorts, convert: PathConverter) {
    AllComplete(ports, convert, es) && DefaultsComplete(ports, ds) && ClassesSlashFree(es)
  }

  /** The routes give what the rules and default backends ask for, each as often. */
  ghost predicate Conserves(routes: seq<RouteWithSources>, es: seq<Entry>, ds: seq<DefaultBackend>,
                            ports: ServicePorts, convert: PathConverter)
  {
    multiset(FlatMap(routes, Gives)) == multiset(EntriesAsk(ports, convert, es)) + multiset(DefaultsAsk(ports, ds))
  }

  /** The name of the route of the group with key `k`. */
  function GroupRouteKey(es: seq<Entry>, k: string): Key {
    var group := OfKey(es, AggregatorKey, k);
    if group == [] then Key("", "") else RouteKey(GroupOf(group))
  }

  /** The routes of the groups come first, under the names that their groups give them, and then those
      of the default backends, under theirs. */
  ghost predicate Named(routes: seq<RouteWithSources>, es: seq<Entry>, ks: seq<string>, ds: seq<DefaultBackend>) {
    && NoDuplicates(ks) && (forall k :: k in ks <==> k in FirstKeys(es, AggregatorKey))
    && |routes| == |ks| + |ds|
    && (forall i :: 0 <= i < |ks| ==>
      OfKey(es, AggregatorKey, ks[i]) != [] && routes[i].route.key == GroupRouteKey(es, ks[i]))
    && (forall i :: 0 <= i < |ds| ==> routes[|ks| + i].route.key == DefaultKey(ds[i]))
  }

  /** The sources of the groups' routes are those of their paths, and a default backend's route has its own. */
  ghost predicate Sourced(routes: seq<RouteWithSources>, es: seq<Entry>, ks: seq<string>, ds: seq<DefaultBackend>,
                          ports: ServicePorts)
  {
    && |routes| == |ks| + |ds|
    && SourcedByGroups(routes[..|ks|], es, ks, ports)
    && (forall i :: 0 <= i < |ds| ==> IsDefaultRoute(routes[|ks| + i], ds[i], ports))
  }

  ghost predicate SourcedByGroups(routes: seq<RouteWithSources>, es: seq<Entry>, ks: seq<string>, ports: ServicePorts) {
    |routes| == |ks| && forall i :: 0 <= i < |ks| ==> SourcedByGroup(routes[i], OfKey(es, AggregatorKey, ks[i]), ports)
  }

  ghost predicate SourcedByGroup(r: RouteWithSources, group: seq<Entry>, ports: ServicePorts) {
    group != [] && IsSourcedBy(r, GroupOf(group), ports)
  }

  lemma {:induction false} AllRoutesConserve(routes: seq<RouteWithSources>, defaults: seq<RouteWithSources>,
                                             es: seq<Entry>, ds: seq<DefaultBackend>,
                                             ks: seq<string>, ports: ServicePorts, convert: PathConverter)
    requires AllKnown(es) && AllSlashFree(es) && AreRoutesOf(routes, es, ks, ports, convert)
    requires NoDuplicates(ks) && forall k :: k in ks <==> k in FirstKeys(es, AggregatorKey)
    requires |defaults| == |ds| && forall i :: 0 <= i < |ds| ==> IsDefaultRoute(defaults[i], ds[i], ports)
    ensures Conserves(routes + defaults, es, ds, ports, convert)
  {
    FirstKeysAreDistinct(es, AggregatorKey);
    AggregationConserves(routes, es, ks, ports, convert);
    DefaultsGive(defaults, ds, ports);
    FlatMapAppend(routes, defaults, Gives);
  }

  lemma {:induction false} DefaultsCompleteIff(ports: ServicePorts, ds: seq<DefaultBackend>)
    ensures DefaultsComplete(ports, ds) <==> DefaultsResolve(ports, ds)
  {
    var rs := DefaultsAsk(ports, ds);
    forall i | 0 <= i < |ds|
      ensures rs[i] in rs && ds[i] in ds && rs[i].to == Meant(ds[i].namespace, ds[i].backend, ports)
    {
      assert rs[i] == DefaultAsks(ds[i], ports);
    }
  }

  /** The gateway of a rule's namespace and class, with the listeners that its groups ask for. */
  ghost predicate HasGateway(gateways: map<Key, seq<Listener>>, listeners: map<string, seq<GroupListener>>, e: Entry) {
    var key := Key(e.ingress.namespace, GetIngressClass(e.ingress));
    EntryGateway(e) in listeners && key in gateways && gateways[key] == MergedListeners(listeners[EntryGateway(e)])
  }

  /** Everything that the conversion promises about rules whose namespaces and hosts have no slashes. */
  ghost predicate Promised(routes: seq<RouteWithSources>, gateways: map<Key, seq<Listener>>, failed: bool,
                           es: seq<Entry>, ds: seq<DefaultBackend>, ports: ServicePorts, convert: PathConverter,
                           listeners: map<string, seq<GroupListener>>) {
    && (failed <==> !Convertible(es, ds, ports, convert))
    && (!failed ==> Conserves(routes, es, ds, ports, convert))
    && (!failed ==> forall r :: r in routes ==> FreshRoute(r))
    && (!failed ==> forall e :: e in es ==> HasGateway(gateways, listeners, e))
  }

  method ToRoutesAndGateways(a: IngressAggregator, convert: PathConverter)
    returns (routes: seq<RouteWithSources>, gateways: map<Key, seq<Listener>>, failed: bool,
             ks: seq<string>, asks: seq<GroupAsk>, listeners: map<string, seq<GroupListener>>)
    requires a.Valid() && AllKnown(a.entries)
    ensures Named(routes, a.entries, ks, a.defaultBackends)
    ensures !failed ==> Sourced(routes, a.entries, ks, a.defaultBackends, a.servicePorts)
    ensures Collected(asks, listeners) && forall i :: 0 <= i < |asks| ==> IsAsk(asks[i])
    ensures AllSlashFree(a.entries) ==>
      Promised(routes, gateways, failed, a.entries, a.defaultBackends, a.servicePorts, convert, listeners)
  {
    var groups, keys := GroupsInOrder(a);
    ks := keys;
    forall g | g in groups
      ensures GroupKnown(g)
    {
      var i :| 0 <= i < |groups| && groups[i] == g;
      GroupIsKnown(a.entries, ks[i]);
    }
    var byGateway, gathered := ToGroupListeners(groups);
    listeners, asks := byGateway, gathered;
    var groupRoutes, groupsFailed, fails := ToRoutes(groups, a.servicePorts, convert);
    var defaultRoutes, defaultsFailed := ToDefaultRoutes(a.defaultBackends, a.servicePorts);
    var gatewaysFailed;
    gateways, gatewaysFailed := ToGateways(byGateway);
    routes := groupRoutes + defaultRoutes;
    failed := groupsFailed || defaultsFailed || gatewaysFailed;
    AllNamed(groupRoutes, defaultRoutes, fails, groups, a.entries, ks, a.defaultBackends, a.servicePorts, convert);
    if !failed {
      GroupsAreSourced(groupRoutes, fails, groups, a.entries, ks, a.servicePorts, convert);
      AllSourced(groupRoutes, defaultRoutes, a.entries, ks, a.defaultBackends, a.servicePorts);
    }
    if AllSlashFree(a.entries) {
      KeepsPromise(groupRoutes, fails, defaultRoutes, gateways, asks, listeners, groups, ks, a.entries,
        a.defaultBackends, a.servicePorts, convert);
    }
  }

  lemma {:induction false} AllNamed(routes: seq<RouteWithSources>, defaults: seq<RouteWithSources>, fails: seq<bool>,
                                    groups: seq<RuleGroup>,
                                    es: seq<Entry>, ks: seq<string>, ds: seq<DefaultBackend>, ports: ServicePorts,
                                      convert: PathConverter)
    requires AreGroups(groups, es, ks) && AllMade(routes, fails, groups, |groups|, ports, convert)
    requires |defaults| == |ds| && forall i :: 0 <= i < |ds| ==> defaults[i].route.key == DefaultKey(ds[i])
    ensures Named(routes + defaults, es, ks, ds)
  {
    forall i | 0 <= i < |ks|
      ensures (routes + defaults)[i].route.key == GroupRouteKey(es, ks[i])
    {
      assert Made(routes[i], fails[i], groups[i], ports, convert);
    }
  }

  lemma {:induction false} GroupsAreSourced(routes: seq<RouteWithSources>, fails: seq<bool>, groups: seq<RuleGroup>,
                                            es: seq<Entry>, ks: seq<string>, ports: ServicePorts,
                                              convert: PathConverter)
    requires AreGroups(groups, es, ks) && AllMade(routes, fails, groups, |groups|, ports, convert) && true !in fails
    ensures SourcedByGroups(routes, es, ks, ports)
  {
    forall i | 0 <= i < |ks|
      ensures SourcedByGroup(routes[i], OfKey(es, AggregatorKey, ks[i]), ports)
    {
      MadeIsSourced(routes, fails, groups, ports, convert, i);
    }
  }

  lemma {:induction false} AllSourced(routes: seq<RouteWithSources>, defaults: seq<RouteWithSources>,
                                      es: seq<Entry>, ks: seq<string>, ds: seq<DefaultBackend>, ports: ServicePorts)
    requires SourcedByGroups(routes, es, ks, ports)
    requires |defaults| == |ds| && forall i :: 0 <= i < |ds| ==> IsDefaultRoute(defaults[i], ds[i], ports)
    ensures Sourced(routes + defaults, es, ks, ds, ports)
  {
    assert (routes + defaults)[..|ks|] == routes;
  }

  lemma {:induction false} MadeIsSourced(routes: seq<RouteWithSources>, fails: seq<bool>, groups: seq<RuleGroup>,
                                         ports: ServicePorts, convert: PathConverter, i: nat)
    requires AllMade(routes, fails, groups, |groups|, ports, convert) && true !in fails && i < |groups|
    ensures IsSourcedBy(routes[i], groups[i], ports)
  {
    assert Made(routes[i], fails[i], groups[i], ports, convert);
    assert fails[i] in fails;
  }

  lemma {:induction false} KeepsPromise(routes: seq<RouteWithSources>, fails: seq<bool>,
                                        defaults: seq<RouteWithSources>, gateways: map<Key, seq<Listener>>,
                                        asks: seq<GroupAsk>, listeners: map<string, seq<GroupListener>>,
                                          groups: seq<RuleGroup>, ks: seq<string>,
                                        es: seq<Entry>, ds: seq<DefaultBackend>, ports: ServicePorts,
                                          convert: PathConverter)
    requires AllKnown(es) && AllSlashFree(es) && AreGroups(groups, es, ks)
    requires AllMade(routes, fails, groups, |groups|, ports, convert)
    requires |asks| == |groups| && Collected(asks, listeners)
    requires forall i :: 0 <= i < |groups| ==> asks[i].group == groups[i]
    requires |defaults| == |ds|
    requires (DefaultsResolve(ports, ds) ==> forall i :: 0 <= i < |ds| ==> IsDefaultRoute(defaults[i], ds[i], ports))
    requires forall k :: k in listeners && SplitsInTwo(k) ==>
      var key := Key(Split(k, '/')[0], Split(k, '/')[1]);
        key in gateways && gateways[key] == MergedListeners(listeners[k])
    ensures Promised(routes + defaults, gateways,
              true in fails || !DefaultsResolve(ports, ds) || exists k :: k in listeners && !SplitsInTwo(k),
              es, ds, ports, convert, listeners)
  {
    MadeRoutesAre(routes, fails, groups, es, ks, ports, convert);
    GroupsFailIff(groups, es, ks, ports, convert);
    DefaultsCompleteIff(ports, ds);
    GatewayKeysSplitIff(asks, listeners, groups, es, ks);
    if Convertible(es, ds, ports, convert) {
      AllRoutesConserve(routes, defaults, es, ds, ks, ports, convert);
      forall r | r in routes + defaults
        ensures FreshRoute(r)
      {
        if r in routes {
          var i :| 0 <= i < |routes| && routes[i] == r;
          assert Made(routes[i], fails[i], groups[i], ports, convert);
        } else {
          var i :| 0 <= i < |defaults| && defaults[i] == r;
          assert IsDefaultRoute(defaults[i], ds[i], ports);
        }
      }
      forall e | e in es
        ensures HasGateway(gateways, listeners, e)
      {
        ListenersAreForEntries(asks, listeners, groups, es, ks, EntryGateway(e));
        GatewayKeySplitsIff(e.ingress.namespace, GetIngressClass(e.ingress));
      }
    }
  }

  // ---- What the ingresses themselves ask for ------------------------------------------------------------

  /** A path of an ingress sends the requests that it matches, of the ingress's class and for the rule's
      host, to its backend. */
  function PathAsks(x: Ingress, host: string, ports: ServicePorts, convert: PathConverter, p: IngressPath): Routing {
    Routing(x.namespace, GetIngressClass(x), host, if KnownType(p) then ToHTTPRouteMatch(p, convert) else None,
      Meant(x.namespace, p.backend, ports))
  }

  function RuleAsks(x: Ingress, ports: ServicePorts, convert: PathConverter, rule: IngressRule): seq<Routing> {
    match rule.paths
    case Some(paths) => Map(paths, p => PathAsks(x, rule.host, ports, convert, p))
    case None => []
  }

  function RulesAsk(x: Ingress, ports: ServicePorts, convert: PathConverter, rules: seq<IngressRule>): seq<Routing> {
    FlatMap(rules, rule => RuleAsks(x, ports, convert, rule))
  }

  /** All rules of an ingress. */
  function IngressAsks(ports: ServicePorts, convert: PathConverter, x: Ingress): seq<Routing> {
    RulesAsk(x, ports, convert, x.rules)
  }

  /** Its default backend: no host, no match. */
  function DefaultAsked(ports: ServicePorts, x: Ingress): seq<Routing> {
    match x.defaultBackend
    case Some(b) => [Routing(x.namespace, GetIngressClass(x), "", None, Meant(x.namespace, b, ports))]
    case None => []
  }

  lemma {:induction false} OneMore<A, B>(xs: seq<A>, x: A, f: A -> seq<B>)
    ensures FlatMap(xs + [x], f) == FlatMap(xs, f) + f(x)
  {
    FlatMapAround(xs, x, [], f);
    assert xs + [x] + [] == xs + [x];
  }

  lemma {:induction false} OneMoreEntry(ports: ServicePorts, convert: PathConverter, es: seq<Entry>, x: Ingress,
                                        rule: IngressRule)
    ensures EntriesAsk(ports, convert, es + [Entry(x, rule, HTTP)])
         == EntriesAsk(ports, convert, es) + RuleAsks(x, ports, convert, rule)
  {
    OneMore(es, Entry(x, rule, HTTP), e => EntryAsks(ports, convert, e));
    assert EntryAsks(ports, convert, Entry(x, rule, HTTP)) == RuleAsks(x, ports, convert, rule);
  }

  lemma {:induction false} OneMoreRuleAsks(x: Ingress, ports: ServicePorts, convert: PathConverter,
                                           rules: seq<IngressRule>, rule: IngressRule)
    ensures RulesAsk(x, ports, convert, rules + [rule])
         == RulesAsk(x, ports, convert, rules) + RuleAsks(x, ports, convert, rule)
  {
    OneMore(rules, rule, rule => RuleAsks(x, ports, convert, rule));
  }

  lemma {:induction false} EntriesInAsk(ports: ServicePorts, convert: PathConverter, start: seq<Entry>, x: Ingress,
                                        n: nat)
    requires n <= |x.rules|
    ensures EntriesAsk(ports, convert, EntriesIn(start, x, HTTP, n))
         == EntriesAsk(ports, convert, start) + RulesAsk(x, ports, convert, x.rules[..n])
    decreases n
  {
    if n == 0 {
      assert x.rules[..n] == [];
    } else {
      EntriesInAsk(ports, convert, start, x, n - 1);
      OneMoreEntry(ports, convert, EntriesIn(start, x, HTTP, n - 1), x, x.rules[n - 1]);
      OneMoreRuleAsks(x, ports, convert, x.rules[..n - 1], x.rules[n - 1]);
      assert x.rules[..n] == x.rules[..n - 1] + [x.rules[n - 1]];
      AppendTwice(EntriesAsk(ports, convert, start), RulesAsk(x, ports, convert, x.rules[..n - 1]),
        RuleAsks(x, ports, convert, x.rules[n - 1]));
    }
  }

  lemma {:induction false} AppendTwice(a: seq<Routing>, b: seq<Routing>, c: seq<Routing>)
    ensures (a + b) + c == a + (b + c)
  {
  }

  /** What a list of ingresses asks for with their rules, and with their default backends. */
  function IngressesAsk(ports: ServicePorts, convert: PathConverter, xs: seq<Ingress>): seq<Routing> {
    FlatMap(xs, x => IngressAsks(ports, convert, x))
  }

  function DefaultsAsked(ports: ServicePorts, xs: seq<Ingress>): seq<Routing> {
    FlatMap(xs, x => DefaultAsked(ports, x))
  }

  lemma {:induction false} OneMoreIngress(ports: ServicePorts, convert: PathConverter, xs: seq<Ingress>, x: Ingress)
    ensures IngressesAsk(ports, convert, xs + [x]) == IngressesAsk(ports, convert, xs) + IngressAsks(ports, convert, x)
    ensures DefaultsAsked(ports, xs + [x]) == DefaultsAsked(ports, xs) + DefaultAsked(ports, x)
  {
    OneMore(xs, x, x => IngressAsks(ports, convert, x));
    OneMore(xs, x, x => DefaultAsked(ports, x));
  }

  lemma {:induction false} NextIngressAsks(ports: ServicePorts, convert: PathConverter, before: seq<Entry>,
                                           xs: seq<Ingress>, x: Ingress)
    requires EntriesAsk(ports, convert, before) == IngressesAsk(ports, convert, xs)
    ensures EntriesAsk(ports, convert, EntriesIn(before, x, HTTP, |x.rules|)) == IngressesAsk(ports, convert, xs + [x])
  {
    EntriesInAsk(ports, convert, before, x, |x.rules|);
    assert x.rules[..|x.rules|] == x.rules;
    OneMoreIngress(ports, convert, xs, x);
  }

  /** The rules of the first `n` ingresses ask for what these ask for. */
  ghost predicate CollectedAsk(ports: ServicePorts, convert: PathConverter, xs: seq<Ingress>, n: nat)
    requires n <= |xs|
  {
    EntriesAsk(ports, convert, EntriesOf([], xs, HTTP, n)) == IngressesAsk(ports, convert, xs[..n])
  }

  lemma {:induction false} OneMoreCollected(ports: ServicePorts, convert: PathConverter, xs: seq<Ingress>, n: nat)
    requires n < |xs| && CollectedAsk(ports, convert, xs, n)
    ensures CollectedAsk(ports, convert, xs, n + 1)
  {
    NextIngressAsks(ports, convert, EntriesOf([], xs, HTTP, n), xs[..n], xs[n]);
    assert xs[..n + 1] == xs[..n] + [xs[n]];
  }

  lemma {:induction false} EntriesOfAsk(ports: ServicePorts, convert: PathConverter, xs: seq<Ingress>, n: nat)
    requires n <= |xs|
    ensures CollectedAsk(ports, convert, xs, n)
    decreases n
  {
    if n == 0 {
      assert xs[..n] == [];
    } else {
      EntriesOfAsk(ports, convert, xs, n - 1);
      OneMoreCollected(ports, convert, xs, n - 1);
    }
  }

  lemma {:induction false} OneMoreDefault(ports: ServicePorts, ds: seq<DefaultBackend>, x: Ingress)
    ensures DefaultsAsk(ports, ds + DefaultOf(x)) == DefaultsAsk(ports, ds) + DefaultAsked(ports, x)
  {
    MapAppend(ds, DefaultOf(x), d => DefaultAsks(d, ports));
    assert Map(DefaultOf(x), d => DefaultAsks(d, ports)) == DefaultAsked(ports, x);
  }

  lemma {:induction false} DefaultsOfAsk(ports: ServicePorts, convert: PathConverter, xs: seq<Ingress>, n: nat)
    requires n <= |xs|
    ensures DefaultsAsk(ports, DefaultsOf([], xs, n)) == DefaultsAsked(ports, xs[..n])
    decreases n
  {
    if n > 0 {
      DefaultsOfAsk(ports, convert, xs, n - 1);
      OneMoreDefault(ports, DefaultsOf([], xs, n - 1), xs[n - 1]);
      OneMoreIngress(ports, convert, xs[..n - 1], xs[n - 1]);
      assert xs[..n - 1] + [xs[n - 1]] == xs[..n];
    }
  }

  /** The rules and default backends that the aggregator collects ask for what the ingresses ask for, in order. */
  lemma {:induction false} CollectingKeepsAsks(ports: ServicePorts, convert: PathConverter, xs: seq<Ingress>)
    ensures EntriesAsk(ports, convert, AllEntries(xs)) == IngressesAsk(ports, convert, xs)
    ensures DefaultsAsk(ports, AllDefaults(xs)) == DefaultsAsked(ports, xs)
  {
    EntriesOfAsk(ports, convert, xs, |xs|);
    DefaultsOfAsk(ports, convert, xs, |xs|);
    assert xs[..|xs|] == xs;
  }

  /** The routes give what the ingresses ask for, each as often. */
  ghost predicate ConservesIngresses(routes: seq<RouteWithSources>, xs: seq<Ingress>, ports: ServicePorts,
                                     convert: PathConverter)
  {
    multiset(FlatMap(routes, Gives)) == multiset(IngressesAsk(ports, convert, xs)) + multiset(DefaultsAsked(ports, xs))
  }

  lemma {:induction false} ConservesIngressesIff(routes: seq<RouteWithSources>, xs: seq<Ingress>, ports: ServicePorts,
                                                 convert: PathConverter)
    ensures ConservesIngresses(routes, xs, ports, convert) <==>
            Conserves(routes, AllEntries(xs), AllDefaults(xs), ports, convert)
  {
    CollectingKeepsAsks(ports, convert, xs);
  }

  lemma {:induction false} EntriesInAre(start: seq<Entry>, x: Ingress, n: nat, e: Entry)
    requires n <= |x.rules|
    ensures e in EntriesIn(start, x, HTTP, n) <==>
            e in start || (e.ingress == x && e.protocol == HTTP && e.rule in x.rules[..n])
    decreases n
  {
    if n > 0 {
      EntriesInAre(start, x, n - 1, e);
      assert x.rules[..n] == x.rules[..n - 1] + [x.rules[n - 1]];
    }
  }

  /** The rules collected are the rules of the ingresses. */
  lemma {:induction false} EntriesAre(xs: seq<Ingress>, n: nat, e: Entry)
    requires n <= |xs|
    ensures e in EntriesOf([], xs, HTTP, n) <==> e.ingress in xs[..n] && e.protocol == HTTP && e.rule in e.ingress.rules
    decreases n
  {
    if n > 0 {
      var x := xs[n - 1];
      EntriesAre(xs, n - 1, e);
      EntriesInAre(EntriesOf([], xs, HTTP, n - 1), x, |x.rules|, e);
      assert x.rules[..|x.rules|] == x.rules;
      assert xs[..n] == xs[..n - 1] + [x];
    }
  }

  /** What an ingress needs: every path has a match and a backend that resolves, its default backend
      resolves, and its class has no slash, unless it has no rules. */
  ghost predicate IngressConverts(ports: ServicePorts, convert: PathConverter, x: Ingress) {
    RulesConvert(ports, convert, x) && DefaultConverts(ports, x) && (x.rules != [] ==> '/' !in GetIngressClass(x))
  }

  ghost predicate RulesConvert(ports: ServicePorts, convert: PathConverter, x: Ingress) {
    forall r :: r in IngressAsks(ports, convert, x) ==> Complete(r)
  }

  ghost predicate DefaultConverts(ports: ServicePorts, x: Ingress) {
    forall r :: r in DefaultAsked(ports, x) ==> Resolved(r)
  }

  predicate Resolved(r: Routing) {
    r.to.Some?
  }

  lemma {:induction false} AllCompleteIff(xs: seq<Ingress>, ports: ServicePorts, convert: PathConverter)
    ensures AllComplete(ports, convert, AllEntries(xs)) <==> forall x :: x in xs ==> RulesConvert(ports, convert, x)
  {
    CollectingKeepsAsks(ports, convert, xs);
    InAll(xs, x => IngressAsks(ports, convert, x), Complete);
  }

  lemma {:induction false} AllDefaultsResolveIff(xs: seq<Ingress>, ports: ServicePorts, convert: PathConverter)
    ensures DefaultsComplete(ports, AllDefaults(xs)) <==> forall x :: x in xs ==> DefaultConverts(ports, x)
  {
    CollectingKeepsAsks(ports, convert, xs);
    InAll(xs, x => DefaultAsked(ports, x), Resolved);
  }

  lemma {:induction false} InAll<A, B(!new)>(xs: seq<A>, f: A -> seq<B>, p: B -> bool)
    ensures (forall y :: y in FlatMap(xs, f) ==> p(y)) <==> forall x :: x in xs ==> forall y :: y in f(x) ==> p(y)
  {
    forall y
      ensures y in FlatMap(xs, f) <==> exists x :: x in xs && y in f(x)
    {
      FlatMapHas(xs, f, y);
    }
  }

  lemma {:induction false} ConvertibleIff(xs: seq<Ingress>, ports: ServicePorts, convert: PathConverter)
    ensures Convertible(AllEntries(xs), AllDefaults(xs), ports, convert) <==>
            forall x :: x in xs ==> IngressConverts(ports, convert, x)
  {
    AllCompleteIff(xs, ports, convert);
    AllDefaultsResolveIff(xs, ports, convert);
    ClassesSlashFreeIff(xs);
  }

  lemma {:induction false} ClassesSlashFreeIff(xs: seq<Ingress>)
    ensures ClassesSlashFree(AllEntries(xs)) <==> forall x :: x in xs && x.rules != [] ==> '/' !in GetIngressClass(x)
  {
    assert xs[..|xs|] == xs;
    forall e
      ensures e in AllEntries(xs) <==> e.ingress in xs && e.protocol == HTTP && e.rule in e.ingress.rules
    {
      EntriesAre(xs, |xs|, e);
    }
    if ClassesSlashFree(AllEntries(xs)) {
      forall x | x in xs && x.rules != []
        ensures '/' !in GetIngressClass(x)
      {
        assert Entry(x, x.rules[0], HTTP) in AllEntries(xs);
      }
    }
  }

  // ---- The representation -----------------------------------------------------------------------------

  datatype ProviderIR = ProviderIR(httpRoutes: map<Key, RouteWithSources>, gateways: map<Key, seq<Listener>>)

  function KeyOf(r: RouteWithSources): Key {
    r.route.key
  }

  /** The routes under their names; a route replaces an earlier one of the same name. */
  function ByKey(routes: seq<RouteWithSources>): map<Key, RouteWithSources> {
    if routes == [] then map[]
    else
      var last := routes[|routes| - 1];
      ByKey(routes[..|routes| - 1])[last.route.key := last]
  }

  lemma {:induction false} ByKeyHas(routes: seq<RouteWithSources>, k: Key)
    ensures k in ByKey(routes) <==> k in Map(routes, KeyOf)
    ensures k in ByKey(routes) ==> ByKey(routes)[k] in routes && ByKey(routes)[k].route.key == k
  {
    if routes != [] {
      var n := |routes| - 1;
      ByKeyHas(routes[..n], k);
      assert routes == routes[..n] + [routes[n]];
      MapAppend(routes[..n], [routes[n]], KeyOf);
      assert Map([routes[n]], KeyOf) == [KeyOf(routes[n])];
    }
  }

  /** Of several routes with one name the last one stays. */
  lemma {:induction false} LastRouteStays(routes: seq<RouteWithSources>, i: nat)
    requires i < |routes| && forall j :: i < j < |routes| ==> routes[j].route.key != routes[i].route.key
    ensures routes[i].route.key in ByKey(routes) && ByKey(routes)[routes[i].route.key] == routes[i]
  {
    var n := |routes| - 1;
    if i < n {
      LastRouteStays(routes[..n], i);
      assert routes[n].route.key != routes[i].route.key;
    }
  }

  lemma {:induction false} KeysOfInit(routes: seq<RouteWithSources>)
    requires routes != []
    ensures var n := |routes| - 1; Map(routes, KeyOf) == Map(routes[..n], KeyOf) + [KeyOf(routes[n])]
  {
  }

  lemma {:induction false} KeptIffKeysAreDistinct(routes: seq<RouteWithSources>)
    ensures |ByKey(routes)| <= |routes|
    ensures |ByKey(routes)| == |routes| <==> NoDuplicates(Map(routes, KeyOf))
  {
    if routes != [] {
      var n := |routes| - 1;
      var was, k := ByKey(routes[..n]), routes[n].route.key;
      KeptIffKeysAreDistinct(routes[..n]);
      ByKeyHas(routes[..n], k);
      KeysOfInit(routes);
      NoDuplicatesAppend(Map(routes[..n], KeyOf), k);
      assert ByKey(routes).Keys == was.Keys + {k};
    }
  }

  /** The groups and default backends of the ingresses give their routes different names. */
  ghost predicate NamesAreDistinct(es: seq<Entry>, ds: seq<DefaultBackend>) {
    && (forall k, l :: k in FirstKeys(es, AggregatorKey) && l in FirstKeys(es, AggregatorKey) && k != l ==>
          GroupRouteKey(es, k) != GroupRouteKey(es, l))
    && (forall i, j :: 0 <= i < j < |ds| ==> DefaultKey(ds[i]) != DefaultKey(ds[j]))
    && (forall k, i :: k in FirstKeys(es, AggregatorKey) && 0 <= i < |ds| ==> GroupRouteKey(es, k) != DefaultKey(ds[i]))
  }

  lemma {:induction false} DistinctRoutesIff(routes: seq<RouteWithSources>, es: seq<Entry>, ks: seq<string>,
                                             ds: seq<DefaultBackend>)
    requires Named(routes, es, ks, ds)
    ensures NoDuplicates(Map(routes, KeyOf)) <==> NamesAreDistinct(es, ds)
  {
    var names := Map(routes, KeyOf);
    forall i | 0 <= i < |ks|
      ensures names[i] == GroupRouteKey(es, ks[i]) && ks[i] in FirstKeys(es, AggregatorKey)
    {
      assert ks[i] in ks;
    }
    assert forall i :: 0 <= i < |ds| ==> names[|ks| + i] == DefaultKey(ds[i]);
    if NoDuplicates(names) {
      DistinctNames(names, es, ks, ds);
    }
    if NamesAreDistinct(es, ds) {
      forall i, j | 0 <= i < j < |names|
        ensures names[i] != names[j]
      {
        if |ks| <= i {
          assert DefaultKey(ds[i - |ks|]) != DefaultKey(ds[j - |ks|]);
        } else if |ks| <= j {
          assert GroupRouteKey(es, ks[i]) != DefaultKey(ds[j - |ks|]);
        } else {
          assert ks[i] != ks[j];
        }
      }
    }
  }

  lemma {:induction false} DistinctNames(names: seq<Key>, es: seq<Entry>, ks: seq<string>, ds: seq<DefaultBackend>)
    requires |names| == |ks| + |ds| && NoDuplicates(names) && forall k :: k in ks <==> k in FirstKeys(es, AggregatorKey)
    requires forall i :: 0 <= i < |ks| ==> names[i] == GroupRouteKey(es, ks[i])
    requires forall i :: 0 <= i < |ds| ==> names[|ks| + i] == DefaultKey(ds[i])
    ensures NamesAreDistinct(es, ds)
  {
    forall k, l | k in FirstKeys(es, AggregatorKey) && l in FirstKeys(es, AggregatorKey) && k != l
      ensures GroupRouteKey(es, k) != GroupRouteKey(es, l)
    {
      assert k in ks && l in ks;
      var i :| 0 <= i < |ks| && ks[i] == k;
      var j :| 0 <= j < |ks| && ks[j] == l;
      assert names[i] != names[j];
    }
    forall k, j | k in FirstKeys(es, AggregatorKey) && 0 <= j < |ds|
      ensures GroupRouteKey(es, k) != DefaultKey(ds[j])
    {
      assert k in ks;
      var i :| 0 <= i < |ks| && ks[i] == k;
      assert names[i] != names[|ks| + j];
    }
    forall i, j | 0 <= i < j < |ds|
      ensures DefaultKey(ds[i]) != DefaultKey(ds[j])
    {
      assert names[|ks| + i] != names[|ks| + j];
    }
  }

  /** No route is lost if and only if the groups and default backends give different names. */
  lemma {:induction false} NoRouteIsLostIff(routes: seq<RouteWithSources>, es: seq<Entry>, ks: seq<string>,
                                            ds: seq<DefaultBackend>)
    requires Named(routes, es, ks, ds)
    ensures |ByKey(routes)| == |routes| <==> NamesAreDistinct(es, ds)
  {
    KeptIffKeysAreDistinct(routes);
    DistinctRoutesIff(routes, es, ks, ds);
  }

  /** An ingress whose hosts differ in a dot and a dash. */
  const TWO_HOSTS := Ingress("n", "web", None, map[], [], [IngressRule("a.b", None), IngressRule("a-b", None)], None)

  lemma {:induction false} EntriesOfTwoHosts()
    ensures AllEntries([TWO_HOSTS]) ==
      [Entry(TWO_HOSTS, TWO_HOSTS.rules[0], HTTP), Entry(TWO_HOSTS, TWO_HOSTS.rules[1], HTTP)]
    ensures AllDefaults([TWO_HOSTS]) == []
  {
    var xs := [TWO_HOSTS];
    assert EntriesOf([], xs, HTTP, 0) == [] && DefaultsOf([], xs, 0) == [];
    assert EntriesIn([], TWO_HOSTS, HTTP, 1) == [Entry(TWO_HOSTS, TWO_HOSTS.rules[0], HTTP)];
    assert EntriesIn([], TWO_HOSTS, HTTP, 2) ==
      EntriesIn([], TWO_HOSTS, HTTP, 1) + [Entry(TWO_HOSTS, TWO_HOSTS.rules[1], HTTP)];
  }

  /** Of its two routes one is lost. */
  lemma {:induction false} DotAndDashLoseARoute(routes: seq<RouteWithSources>, ks: seq<string>)
    requires Named(routes, AllEntries([TWO_HOSTS]), ks, AllDefaults([TWO_HOSTS]))
    ensures |routes| == 2 && |ByKey(routes)| == 1
  {
    EntriesOfTwoHosts();
    var es := AllEntries([TWO_HOSTS]);
    TwoHostsDiffer(es);
    ExactlyTwo(ks, AggregatorKey(es[0]), AggregatorKey(es[1]));
    NoRouteIsLostIff(routes, es, ks, []);
    KeptIffKeysAreDistinct(routes);
    SomeRouteIsKept(routes);
  }

  lemma {:induction false} SomeRouteIsKept(routes: seq<RouteWithSources>)
    requires routes != []
    ensures |ByKey(routes)| > 0
  {
    ByKeyHas(routes, routes[0].route.key);
    assert Map(routes, KeyOf)[0] == routes[0].route.key;
    assert routes[0].route.key in ByKey(routes).Keys;
  }

  lemma {:induction false} ExactlyTwo(ks: seq<string>, k: string, l: string)
    requires NoDuplicates(ks) && k != l && forall x :: x in ks <==> x == k || x == l
    ensures |ks| == 2
  {
    SameElementsSameLength(ks, [k, l]);
  }

  lemma {:induction false} TwoHostsDiffer(es: seq<Entry>)
    requires es == [Entry(TWO_HOSTS, TWO_HOSTS.rules[0], HTTP), Entry(TWO_HOSTS, TWO_HOSTS.rules[1], HTTP)]
    ensures AggregatorKey(es[0]) != AggregatorKey(es[1])
    ensures AggregatorKey(es[0]) in FirstKeys(es, AggregatorKey) && AggregatorKey(es[1]) in FirstKeys(es, AggregatorKey)
    ensures forall k :: k in FirstKeys(es, AggregatorKey) ==> k == AggregatorKey(es[0]) || k == AggregatorKey(es[1])
    ensures GroupRouteKey(es, AggregatorKey(es[0])) == GroupRouteKey(es, AggregatorKey(es[1]))
  {
    FirstKeysAreDistinct(es, AggregatorKey);
    var k, l := AggregatorKey(es[0]), AggregatorKey(es[1]);
    assert es[0].rule.host[1] != es[1].rule.host[1];
    KeyTellsApart(es[0], es[1]);
    KeysAgree(es[0], es[1]);
    OfKeyIs(es, AggregatorKey, k);
    OfKeyIs(es, AggregatorKey, l);
    assert es[0] in es && es[1] in es;
    var a, b := OfKey(es, AggregatorKey, k), OfKey(es, AggregatorKey, l);
    assert es[0] in a && es[1] in b && a[0] in a && b[0] in b;
    assert a[0] == es[0] && b[0] == es[1];
    DotAndDashShareAName();
  }

  /** The routes of a map, in any order. */
  ghost predicate IsListing(rs: seq<RouteWithSources>, byKey: map<Key, RouteWithSources>) {
    && NoDuplicates(rs)
    && (forall r :: r in rs <==> r.route.key in byKey && byKey[r.route.key] == r)
  }

  /** Then the map conserves routing: its routes, in any order, give what was asked for, each as often. */
  lemma {:induction false} MapConserves(routes: seq<RouteWithSources>, es: seq<Entry>, ks: seq<string>,
                                        ds: seq<DefaultBackend>,
                                        ports: ServicePorts, convert: PathConverter, rs: seq<RouteWithSources>)
    requires Named(routes, es, ks, ds) && NamesAreDistinct(es, ds) && Conserves(routes, es, ds, ports, convert)
    requires IsListing(rs, ByKey(routes))
    ensures Conserves(rs, es, ds, ports, convert)
  {
    DistinctRoutesIff(routes, es, ks, ds);
    DistinctKeysDistinctRoutes(routes);
    forall r
      ensures r in rs <==> r in routes
    {
      if r in routes {
        DistinctRoutesAreFound(routes, r);
      }
      if r in rs {
        ByKeyHas(routes, r.route.key);
      }
    }
    SameElementsSameLength(rs, routes);
    FlatMapOfPermutation(rs, routes, Gives);
  }

  /** The same in terms of the ingresses: each of their paths and default backends is served by one route of
      the map, as it asks, and nothing else is. */
  lemma {:induction false} RepresentationConserves(routes: seq<RouteWithSources>, xs: seq<Ingress>, ks: seq<string>,
                                                   ports: ServicePorts, convert: PathConverter,
                                                   rs: seq<RouteWithSources>)
    requires Named(routes, AllEntries(xs), ks, AllDefaults(xs)) && NamesAreDistinct(AllEntries(xs), AllDefaults(xs))
    requires ConservesIngresses(routes, xs, ports, convert) && IsListing(rs, ByKey(routes))
    ensures ConservesIngresses(rs, xs, ports, convert)
  {
    ConservesIngressesIff(routes, xs, ports, convert);
    MapConserves(routes, AllEntries(xs), ks, AllDefaults(xs), ports, convert, rs);
    ConservesIngressesIff(rs, xs, ports, convert);
  }

  lemma {:induction false} DistinctKeysDistinctRoutes(routes: seq<RouteWithSources>)
    requires NoDuplicates(Map(routes, KeyOf))
    ensures NoDuplicates(routes)
  {
    forall i, j | 0 <= i < j < |routes|
      ensures routes[i] != routes[j]
    {
      assert Map(routes, KeyOf)[i] != Map(routes, KeyOf)[j];
    }
  }

  /** Routes with distinct names are all found under them. */
  lemma {:induction false} DistinctRoutesAreFound(routes: seq<RouteWithSources>, r: RouteWithSources)
    requires NoDuplicates(Map(routes, KeyOf)) && r in routes
    ensures r.route.key in ByKey(routes) && ByKey(routes)[r.route.key] == r
  {
    var n := |routes| - 1;
    KeysOfInit(routes);
    NoDuplicatesAppend(Map(routes[..n], KeyOf), KeyOf(routes[n]));
    if r in routes[..n] {
      DistinctRoutesAreFound(routes[..n], r);
      var i :| 0 <= i < n && routes[..n][i] == r;
      assert Map(routes[..n], KeyOf)[i] == KeyOf(r);
    }
  }

  method ToIR(httpIngresses: seq<Ingress>, ports: ServicePorts, convert: PathConverter)
    returns (ir: Option<ProviderIR>, routes: seq<RouteWithSources>, ks: seq<string>,
             listeners: map<string, seq<GroupListener>>)
    requires AllKnown(AllEntries(httpIngresses))
    ensures Named(routes, AllEntries(httpIngresses), ks, AllDefaults(httpIngresses))
    ensures ir.Some? ==> Sourced(routes, AllEntries(httpIngresses), ks, AllDefaults(httpIngresses), ports)
    ensures ir.Some? ==> ir.value.httpRoutes == ByKey(routes)
    ensures var es, ds := AllEntries(httpIngresses), AllDefaults(httpIngresses);
            AllSlashFree(es) ==>
              && (ir.None? <==> !Convertible(es, ds, ports, convert))
              && (ir.Some? ==> Conserves(routes, es, ds, ports, convert))
              && (ir.Some? ==> forall r :: r in routes ==> FreshRoute(r))
              && (ir.Some? ==> forall e :: e in es ==> HasGateway(ir.value.gateways, listeners, e))
    ensures AllSlashFree(AllEntries(httpIngresses)) ==>
              && (ir.Some? <==> forall x :: x in httpIngresses ==> IngressConverts(ports, convert, x))
              && (ir.Some? ==> ConservesIngresses(routes, httpIngresses, ports, convert))
  {
    ConvertibleIff(httpIngresses, ports, convert);
    var aggregator := new IngressAggregator(ports);
    aggregator.AddIngresses(httpIngresses, HTTP);
    var all, gateways, failed, keys, asks, byGateway := ToRoutesAndGateways(aggregator, convert);
    routes, ks, listeners := all, keys, byGateway;
    if failed {
      return None, routes, ks, listeners;
    }
    var httpRouteByKey: map<Key, RouteWithSources> := map[];
    for i := 0 to |all|
      invariant httpRouteByKey == ByKey(all[..i])
    {
      assert all[..i + 1][..i] == all[..i];
      httpRouteByKey := httpRouteByKey[all[i].route.key := all[i]];
    }
    assert all[..|all|] == all;
    ConservesIngressesIff(all, httpIngresses, ports, convert);
    ir := Some(ProviderIR(httpRouteByKey, gateways));
  }

  // ---- Looking routes up again ------------------------------------------------------------------------

  /** The key under which header matching looks for the route of a rule, from the groups that it makes
      itself. */
  function LookupKey(es: seq<Entry>, e: Entry): Key
    requires RuleGroupKey(e) in GroupMap(es, RuleGroupKey)
  {
    var rg := GroupMap(es, RuleGroupKey)[RuleGroupKey(e)];
    Key(e.ingress.namespace, RouteName(rg.name, rg.host))
  }

  /** The route is always there: the branch that reports it missing is dead. */
  lemma {:induction false} LookedUpRouteExists(routes: seq<RouteWithSources>, es: seq<Entry>, ks: seq<string>,
                                               ds: seq<DefaultBackend>, e: Entry)
    requires Named(routes, es, ks, ds) && AllKnown(es) && AllSlashFree(es) && e in es
    ensures RuleGroupKey(e) in GroupMap(es, RuleGroupKey) && LookupKey(es, e) in ByKey(routes)
  {
    var k := AggregatorKey(e);
    GroupingsAgree(es, e);
    GroupMapHas(es, AggregatorKey, k);
    FirstKeysAreDistinct(es, AggregatorKey);
    assert k in ks;
    var i :| 0 <= i < |ks| && ks[i] == k;
    OfKeyIs(es, AggregatorKey, k);
    GroupIsOfOne(es, k);
    assert e in OfKey(es, AggregatorKey, k);
    assert routes[i].route.key == LookupKey(es, e);
    ByKeyHas(routes, LookupKey(es, e));
    assert Map(routes, KeyOf)[i] == LookupKey(es, e);
  }
}
