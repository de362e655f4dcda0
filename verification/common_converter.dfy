module CommonConverter {
  /** The conversion of ingresses as a whole (pkg/i2gw/providers/common/converter.go), for ingresses of
      the HTTP protocol. */

  import opened CommonConservation
  import opened CommonIngress
  import opened CommonListeners
  import opened CommonRoutes
  import opened CommonRuleGroups
  import opened Gateway
  import opened Grouping
  import opened Optional
  import opened Sorting
  import opened Strings
  import BackendSources

  type Sources = seq<seq<BackendSources.BackendSource>>

  datatype RouteWithSources = RouteWithSources(route: HTTPRoute, sources: Sources)

  // ---- Conservation -----------------------------------------------------------------------------------

  ghost predicate IsRouteOf(route: HTTPRoute, g: RuleGroup, ports: ServicePorts, convert: PathConverter) {
    var ps := AllPaths(g.rules);
    && KnownTypes(ps) && AreRulesOf(route.rules, g.namespace, ports, convert, ps, FirstKeys(ps, GetPathMatchKey))
    && route.key == RouteKey(g) && route.parentRefs == ListOf(g.ingressClass) && route.hostnames == ListOf(g.host)
  }

  /** Beside each rule, for each of its backends the ingress that asked for it. */
  ghost predicate IsSourcedBy(r: RouteWithSources, g: RuleGroup, ports: ServicePorts) {
    var ps := AllPaths(g.rules);
    AreSourcesOf(r.sources, g.namespace, ports, ps, FirstKeys(ps, GetPathMatchKey))
  }

  function Gives(r: RouteWithSources): seq<Routing> {
    RouteGives(r.route)
  }

  lemma {:induction false} GroupIsOfOne(es: seq<Entry>, k: string)
    requires (forall e :: e in es ==> SlashFree(e) && e.protocol == HTTP) && OfKey(es, AggregatorKey, k) != []
    ensures OfOneGroup(GroupOf(OfKey(es, AggregatorKey, k)), OfKey(es, AggregatorKey, k))
  {
    var group := OfKey(es, AggregatorKey, k);
    OfKeyIs(es, AggregatorKey, k);
    assert group[0] in group;
    forall e | e in group
      ensures e.ingress.namespace == group[0].ingress.namespace
      ensures GetIngressClass(e.ingress) == GetIngressClass(group[0].ingress) && e.rule.host == group[0].rule.host
    {
      KeysAgree(e, group[0]);
      KeyTellsApart(e, group[0]);
    }
  }

  /** The route of a group gives what the rules of the group ask for. */
  lemma {:induction false} GroupConserves(es: seq<Entry>, k: string, ports: ServicePorts, convert: PathConverter,
                                          route: HTTPRoute)
    requires (forall e :: e in es ==> SlashFree(e) && e.protocol == HTTP) && OfKey(es, AggregatorKey, k) != []
    requires IsRouteOf(route, GroupOf(OfKey(es, AggregatorKey, k)), ports, convert)
    ensures multiset(RouteGives(route)) == multiset(EntriesAsk(ports, convert, OfKey(es, AggregatorKey, k)))
  {
    var group := OfKey(es, AggregatorKey, k);
    var g := GroupOf(group);
    GroupIsOfOne(es, k);
    RouteConserves(g, ports, convert, route, AllPaths(group));
    PathsOfAsk(g, ports, convert, group, |group|);
    assert group[..|group|] == group;
  }

  ghost predicate AreRoutesOf(routes: seq<RouteWithSources>, es: seq<Entry>, ks: seq<string>, ports: ServicePorts,
                              convert: PathConverter)
  {
    |routes| == |ks| && forall i :: 0 <= i < |ks| ==>
      OfKey(es, AggregatorKey, ks[i]) != []
        && IsRouteOf(routes[i].route, GroupOf(OfKey(es, AggregatorKey, ks[i])), ports, convert)
  }

  lemma {:induction false} RoutesGiveGroups(routes: seq<RouteWithSources>, es: seq<Entry>, ks: seq<string>,
                                            ports: ServicePorts, convert: PathConverter)
    requires (forall e :: e in es ==> SlashFree(e) && e.protocol == HTTP) && AreRoutesOf(routes, es, ks, ports, convert)
    ensures multiset(FlatMap(routes, Gives)) == multiset(EntriesAsk(ports, convert, Flatten(es, AggregatorKey, ks)))
    decreases |ks|
  {
    if ks != [] {
      var n := |ks| - 1;
      RoutesGiveGroups(routes[..n], es, ks[..n], ports, convert);
      GroupConserves(es, ks[n], ports, convert, routes[n].route);
      FlatMapAppend(Flatten(es, AggregatorKey, ks[..n]), OfKey(es, AggregatorKey, ks[n]),
        e => EntryAsks(ports, convert, e));
    }
  }

  /** Whatever the order of the groups, the routes give exactly what the rules ask for, with multiplicity. */
  lemma {:induction false} AggregationConserves(routes: seq<RouteWithSources>, es: seq<Entry>, ks: seq<string>,
                                                ports: ServicePorts, convert: PathConverter)
    requires forall e :: e in es ==> SlashFree(e) && e.protocol == HTTP
    requires NoDuplicates(ks) && (forall e :: e in es ==> AggregatorKey(e) in ks)
    requires AreRoutesOf(routes, es, ks, ports, convert)
    ensures multiset(FlatMap(routes, Gives)) == multiset(EntriesAsk(ports, convert, es))
  {
    RoutesGiveGroups(routes, es, ks, ports, convert);
    FlattenIsPermutation(es, AggregatorKey, ks);
    FlatMapOfPermutation(Flatten(es, AggregatorKey, ks), es, e => EntryAsks(ports, convert, e));
  }

  // ---- Default backends -------------------------------------------------------------------------------

  function DefaultAsks(d: DefaultBackend, ports: ServicePorts): Routing {
    Routing(d.namespace, d.ingressClass, "", None, Meant(d.namespace, d.backend, ports))
  }

  function DefaultsAsk(ports: ServicePorts, ds: seq<DefaultBackend>): seq<Routing> {
    Map(ds, d => DefaultAsks(d, ports))
  }

  ghost predicate DefaultsResolve(ports: ServicePorts, ds: seq<DefaultBackend>) {
    forall d :: d in ds ==> ToBackendRef(d.namespace, d.backend, ports).Some?
  }

  lemma {:induction false} OneRuleGives(route: HTTPRoute)
    requires |route.rules| == 1
    ensures RouteGives(route) == RuleGives(route.key.namespace, Head(route.parentRefs), Head(route.hostnames),
      route.rules[0])
  {
    var f := r => RuleGives(route.key.namespace, Head(route.parentRefs), Head(route.hostnames), r);
    assert FlatMap(route.rules[..0], f) == [];
    assert FlatMap(route.rules, f) == f(route.rules[0]);
  }

  function DefaultKey(d: DefaultBackend): Key {
    Key(d.namespace, d.name + "-default-backend")
  }

  /** The route of a default backend that resolves: its single rule asks for no match. */
  ghost predicate IsDefaultRoute(r: RouteWithSources, d: DefaultBackend, ports: ServicePorts) {
    && Gives(r) == [DefaultAsks(d, ports)]
    && (forall rule :: rule in r.route.rules ==> rule.matches == [] && rule.filters == [])
    && ToBackendRef(d.namespace, d.backend, ports).Some?
    && r.sources == [[SourceOf(d.ingress, ToBackendRef(d.namespace, d.backend, ports).value)]]
    && BackendSources.FreshlyAligned(r.route.rules, r.sources)
  }

  /** A default backend that does not resolve leaves a source without a rule; the conversion fails then. */
  method ToDefaultRoute(d: DefaultBackend, ports: ServicePorts) returns (r: RouteWithSources, failed: bool)
    ensures failed <==> ToBackendRef(d.namespace, d.backend, ports).None?
    ensures r.route.key == DefaultKey(d)
    ensures r.route.key.namespace == d.namespace && r.route.key.name == d.name + "-default-backend"
    ensures r.route.parentRefs == [d.ingressClass] && r.route.hostnames == []
    ensures !failed ==> IsDefaultRoute(r, d, ports)
  {
    var backendRef := ToBackendRef(d.namespace, d.backend, ports);
    if backendRef.None? {
      return RouteWithSources(HTTPRoute(DefaultKey(d), [d.ingressClass], [], []), [[]]), true;
    }
    var rule := Rule([], [], [backendRef.value]);
    r := RouteWithSources(HTTPRoute(DefaultKey(d), [d.ingressClass], [], [rule]),
      [[SourceOf(d.ingress, backendRef.value)]]);
    failed := false;
    OneRuleGives(r.route);
  }

  method ToDefaultRoutes(ds: seq<DefaultBackend>, ports: ServicePorts)
      returns (routes: seq<RouteWithSources>, failed: bool)
    ensures failed <==> !DefaultsResolve(ports, ds)
    ensures |routes| == |ds| && forall i :: 0 <= i < |ds| ==> routes[i].route.key == DefaultKey(ds[i])
    ensures !failed ==> forall i :: 0 <= i < |ds| ==> IsDefaultRoute(routes[i], ds[i], ports)
  {
    routes, failed := [], false;
    for i := 0 to |ds|
      invariant failed <==> exists j :: 0 <= j < i && ToBackendRef(ds[j].namespace, ds[j].backend, ports).None?
      invariant |routes| == i && forall j :: 0 <= j < i ==> routes[j].route.key == DefaultKey(ds[j])
      invariant !failed ==> forall j :: 0 <= j < i ==> IsDefaultRoute(routes[j], ds[j], ports)
    {
      var r, oneFailed := ToDefaultRoute(ds[i], ports);
      failed := failed || oneFailed;
      routes := routes + [r];
    }
  }

  lemma {:induction false} DefaultsGive(routes: seq<RouteWithSources>, ds: seq<DefaultBackend>, ports: ServicePorts)
    requires |routes| == |ds| && forall i :: 0 <= i < |ds| ==> IsDefaultRoute(routes[i], ds[i], ports)
    ensures FlatMap(routes, Gives) == DefaultsAsk(ports, ds)
  {
    FlatMapOfOnes(routes, ds, Gives, d => DefaultAsks(d, ports));
  }

  // ---- Gateways ---------------------------------------------------------------------------------------

  function GatewayKey(g: RuleGroup): string {
    g.namespace + "/" + g.ingressClass
  }

  /** The key of a gateway splits into a namespace and a name. */
  predicate SplitsInTwo(gwKey: string) {
    |Split(gwKey, '/')| == 2
  }

  /** For a namespace without slashes: exactly when the class has none either. */
  lemma {:induction false} GatewayKeySplitsIff(namespace: string, ingressClass: string)
    requires '/' !in namespace
    ensures var k := namespace + "/" + ingressClass;
            && (SplitsInTwo(k) <==> '/' !in ingressClass)
            && (SplitsInTwo(k) ==> Split(k, '/') == [namespace, ingressClass])
  {
    SplitAtSeparator(namespace, '/', ingressClass);
    SplitWithoutSeparator(namespace, '/');
    if '/' !in ingressClass {
      SplitWithoutSeparator(ingressClass, '/');
    } else {
      JoinSplit(ingressClass, '/');
    }
  }

  /** One gateway for each namespace and class, with the merged listeners of their groups. */
  method ToGateways(asked: map<string, seq<GroupListener>>) returns (gateways: map<Key, seq<Listener>>, failed: bool)
    ensures failed <==> exists k :: k in asked && !SplitsInTwo(k)
    ensures forall k :: k in asked && SplitsInTwo(k) ==>
      var key := Key(Split(k, '/')[0], Split(k, '/')[1]); key in gateways && gateways[key] == MergedListeners(asked[k])
    ensures forall key :: key in gateways ==> exists k :: k in asked && Split(k, '/') == [key.namespace, key.name]
  {
    gateways, failed := map[], false;
    var todo := asked.Keys;
    while todo != {}
      invariant todo <= asked.Keys
      invariant failed <==> exists k :: k in asked && k !in todo && !SplitsInTwo(k)
      invariant forall k :: k in asked && k !in todo && SplitsInTwo(k) ==>
        var key := Key(Split(k, '/')[0], Split(k, '/')[1]);
          key in gateways && gateways[key] == MergedListeners(asked[k])
      invariant forall key :: key in gateways ==>
        exists k :: k in asked && k !in todo && Split(k, '/') == [key.namespace, key.name]
      decreases todo
    {
      var gwKey :| gwKey in todo;
      todo := todo - {gwKey};
      var parts := Split(gwKey, '/');
      if |parts| != 2 {
        failed := true;
        continue;
      }
      var listeners := MergeListeners(asked[gwKey]);
      SplitIsInjective(gwKey, asked.Keys);
      gateways := gateways[Key(parts[0], parts[1]) := listeners];
      assert parts == [parts[0], parts[1]];
    }
  }

  lemma {:induction false} SplitIsInjective(k: string, ks: set<string>)
    ensures forall l :: l in ks && Split(l, '/') == Split(k, '/') ==> l == k
  {
    forall l | l in ks && Split(l, '/') == Split(k, '/')
      ensures l == k
    {
      JoinSplit(l, '/');
      JoinSplit(k, '/');
    }
  }

  // ---- The conversion ---------------------------------------------------------------------------------

  method SortedKeys(groups: map<string, RuleGroup>) returns (ks: seq<string>)
    ensures NoDuplicates(ks) && Sorted(ks, AtMost) && forall k :: k in ks <==> k in groups
  {
    var unsorted: seq<string> := [];
    var todo := groups.Keys;
    while todo != {}
      invariant todo <= groups.Keys && NoDuplicates(unsorted) && forall k :: k in unsorted <==> k in groups.Keys - todo
      decreases todo
    {
      var k :| k in todo;
      assert k !in unsorted;
      unsorted := unsorted + [k];
      todo := todo - {k};
    }
    ks := SortStrings(unsorted);
    SortStringsSorts(unsorted);
    PermutationHasNoDuplicates(unsorted, ks);
  }

  ghost predicate GroupKnown(g: RuleGroup) {
    KnownTypes(AllPaths(g.rules))
  }

  ghost predicate GroupConverts(g: RuleGroup, ports: ServicePorts, convert: PathConverter) {
    GroupKnown(g) && AllConvert(g.namespace, ports, convert, AllPaths(g.rules))
  }

  /** A group and the listener that it asks of its gateway. */
  datatype GroupAsk = GroupAsk(group: RuleGroup, listener: GroupListener)

  ghost predicate IsAsk(a: GroupAsk) {
    IsListenerOf(a.listener, a.group)
  }

  function GatewayKeyOf(a: GroupAsk): string {
    GatewayKey(a.group)
  }

  function ListenerOf(a: GroupAsk): GroupListener {
    a.listener
  }

  /** Under each gateway key the listeners of its groups, in order. */
  ghost predicate Collected(asks: seq<GroupAsk>, listeners: map<string, seq<GroupListener>>) {
    && (forall k :: k in listeners <==> k in FirstKeys(asks, GatewayKeyOf))
    && (forall k :: k in listeners ==> listeners[k] == Map(OfKey(asks, GatewayKeyOf, k), ListenerOf))
  }

  lemma {:induction false} OneMoreAsk(asks: seq<GroupAsk>, listeners: map<string, seq<GroupListener>>, a: GroupAsk)
    requires Collected(asks, listeners)
    ensures var k := GatewayKeyOf(a);
            Collected(asks + [a], listeners[k := (if k in listeners then listeners[k] else []) + [a.listener]])
  {
    var key := GatewayKeyOf(a);
    OfKeyIs(asks, GatewayKeyOf, key);
    OfKeyGrows(asks, a, GatewayKeyOf, key);
    MapAppend(OfKey(asks, GatewayKeyOf, key), [a], ListenerOf);
    assert Map([a], ListenerOf) == [a.listener];
    forall k | k != key
      ensures OfKey(asks + [a], GatewayKeyOf, k) == OfKey(asks, GatewayKeyOf, k)
    {
      OfKeyGrows(asks, a, GatewayKeyOf, k);
    }
  }

  ghost predicate FreshRoute(r: RouteWithSources) {
    BackendSources.FreshlyAligned(r.route.rules, r.sources)
  }

  /** The loop over the groups, as far as the listeners are concerned. */
  method ToGroupListeners(groups: seq<RuleGroup>)
    returns (listeners: map<string, seq<GroupListener>>, asks: seq<GroupAsk>)
    ensures |asks| == |groups| && Collected(asks, listeners)
    ensures forall i :: 0 <= i < |groups| ==> asks[i].group == groups[i] && IsAsk(asks[i])
  {
    listeners, asks := map[], [];
    for i := 0 to |groups|
      invariant |asks| == i && Collected(asks, listeners)
      invariant forall j :: 0 <= j < i ==> asks[j].group == groups[j]
      invariant forall j :: 0 <= j < i ==> IsAsk(asks[j])
    {
      var listener := ToGroupListener(groups[i]);
      var gwKey := GatewayKey(groups[i]);
      var ask := GroupAsk(groups[i], listener);
      OneMoreAsk(asks, listeners, ask);
      var known := if gwKey in listeners then listeners[gwKey] else [];
      listeners := listeners[gwKey := known + [listener]];
      asks := asks + [ask];
    }
  }

  /** What the conversion of a group makes, and whether it fails. */
  ghost predicate Made(r: RouteWithSources, failed: bool, g: RuleGroup, ports: ServicePorts, convert: PathConverter) {
    && FreshRoute(r) && r.route.key == RouteKey(g)
    && (failed <==> !GroupConverts(g, ports, convert))
    && (!failed ==> IsRouteOf(r.route, g, ports, convert) && IsSourcedBy(r, g, ports))
  }

  /** The turn of one group. */
  method ToRoute(g: RuleGroup, ports: ServicePorts, convert: PathConverter) returns (r: RouteWithSources, failed: bool)
    requires GroupKnown(g)
    ensures Made(r, failed, g, ports, convert)
  {
    var route, sources, oneFailed := ToHTTPRoute(g, ports, convert);
    r, failed := RouteWithSources(route, sources), oneFailed;
  }

  /** The first `n` groups have been converted. */
  ghost predicate AllMade(routes: seq<RouteWithSources>, fails: seq<bool>, groups: seq<RuleGroup>, n: nat,
                          ports: ServicePorts, convert: PathConverter)
  {
    |routes| == |fails| == n <= |groups| && forall i :: 0 <= i < n ==>
      Made(routes[i], fails[i], groups[i], ports, convert)
  }

  lemma {:induction false} OneMoreMade(routes: seq<RouteWithSources>, fails: seq<bool>, groups: seq<RuleGroup>,
                                       n: nat, ports: ServicePorts,
                                       convert: PathConverter, r: RouteWithSources, failed: bool)
    requires AllMade(routes, fails, groups, n, ports, convert) && n < |groups|
    requires Made(r, failed, groups[n], ports, convert)
    ensures AllMade(routes + [r], fails + [failed], groups, n + 1, ports, convert)
  {
    forall i | 0 <= i < n + 1
      ensures Made((routes + [r])[i], (fails + [failed])[i], groups[i], ports, convert)
    {
      assert i < n ==> Made(routes[i], fails[i], groups[i], ports, convert);
    }
  }

  /** The loop over the groups, as far as the routes are concerned. */
  method ToRoutes(groups: seq<RuleGroup>, ports: ServicePorts, convert: PathConverter)
    returns (routes: seq<RouteWithSources>, failed: bool, fails: seq<bool>)
    requires forall g :: g in groups ==> GroupKnown(g)
    ensures AllMade(routes, fails, groups, |groups|, ports, convert) && (failed <==> true in fails)
  {
    routes, failed, fails := [], false, [];
    for i := 0 to |groups|
      invariant AllMade(routes, fails, groups, i, ports, convert) && (failed <==> true in fails)
    {
      var r, oneFailed := ToRoute(groups[i], ports, convert);
      OneMoreMade(routes, fails, groups, i, ports, convert, r, oneFailed);
      failed := failed || oneFailed;
      routes, fails := routes + [r], fails + [oneFailed];
    }
  }
}
