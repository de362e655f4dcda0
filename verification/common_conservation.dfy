module CommonConservation {
  /**
   Aggregation conserves routing: what the ingresses ask for is, with multiplicity, what the routes give
   (pkg/i2gw/providers/common/converter.go).
   */

  import opened CommonIngress
  import opened CommonRoutes
  import opened CommonRuleGroups
  import opened Gateway
  import opened Grouping
  import opened Optional

  /** Requests of a class for a host that match go to a destination. `on` is absent in a default
      backend's route, `to` when the backend does not resolve. */
  datatype Routing = Routing(namespace: string, ingressClass: string, host: string, on: Option<RouteMatch>,
                             to: Option<Destination>)

  function Asked(namespace: string, ingressClass: string, host: string, ports: ServicePorts, convert: PathConverter,
                 p: IngressPath): Routing
  {
    Routing(namespace, ingressClass, host, if KnownType(p) then ToHTTPRouteMatch(p, convert) else None,
      Meant(namespace, p.backend, ports))
  }

  function EntryAsks(ports: ServicePorts, convert: PathConverter, e: Entry): seq<Routing> {
    Map(PathsOfEntry(e), p => Asked(e.ingress.namespace, GetIngressClass(e.ingress), e.rule.host, ports, convert, p))
  }

  /** What a list of ingress rules asks for. */
  function EntriesAsk(ports: ServicePorts, convert: PathConverter, es: seq<Entry>): seq<Routing> {
    FlatMap(es, e => EntryAsks(ports, convert, e))
  }

  function RuleGives(namespace: string, ingressClass: string, host: string, rule: Rule): seq<Routing> {
    var on := if rule.matches == [] then None else Some(rule.matches[0]);
    Map(rule.backends, b => Routing(namespace, ingressClass, host, on, LeadsTo(b)))
  }

  function Head(names: seq<string>): string {
    if names == [] then "" else names[0]
  }

  /** What a route gives to its parent's class and its host. */
  function RouteGives(route: HTTPRoute): seq<Routing> {
    FlatMap(route.rules, r => RuleGives(route.key.namespace, Head(route.parentRefs), Head(route.hostnames), r))
  }

  function GroupAsks(g: RuleGroup, ports: ServicePorts, convert: PathConverter, p: PlacedPath): Routing {
    Asked(g.namespace, g.ingressClass, g.host, ports, convert, p.path)
  }

  lemma {:induction false} RuleGivesGroup(g: RuleGroup, ports: ServicePorts, convert: PathConverter, rule: Rule,
                                          paths: seq<PlacedPath>)
    requires IsRuleOf(rule, g.namespace, ports, convert, paths)
    requires forall p :: p in paths ==> p.path.pathType == paths[0].path.pathType && p.path.path == paths[0].path.path
    ensures RuleGives(g.namespace, g.ingressClass, g.host, rule) == Map(paths, p => GroupAsks(g, ports, convert, p))
  {
    forall i | 0 <= i < |paths|
      ensures RuleGives(g.namespace, g.ingressClass, g.host, rule)[i] == GroupAsks(g, ports, convert, paths[i])
    {
      assert paths[i] in paths;
      assert Resolve(g.namespace, ports, paths[i]) == Some(rule.backends[i]);
      SameMatch(paths[i].path, paths[0].path, convert);
    }
  }

  lemma {:induction false} SameMatch(p: IngressPath, q: IngressPath, convert: PathConverter)
    requires p.pathType == q.pathType && p.path == q.path && KnownType(q)
    ensures KnownType(p) && ToHTTPRouteMatch(p, convert) == ToHTTPRouteMatch(q, convert)
  {
  }

  lemma {:induction false} RuleGivesKey(g: RuleGroup, ports: ServicePorts, convert: PathConverter, rules: seq<Rule>,
                                        ps: seq<PlacedPath>, keys: seq<string>, n: nat)
    requires n < |keys| && KnownTypes(ps) && AreRulesOf(rules, g.namespace, ports, convert, ps, keys)
    requires keys[n] in FirstKeys(ps, GetPathMatchKey)
    ensures RuleGives(g.namespace, g.ingressClass, g.host, rules[n])
         == Map(OfKey(ps, GetPathMatchKey, keys[n]), p => GroupAsks(g, ports, convert, p))
  {
    KeyHasPaths(ps, keys[n]);
    RuleGivesGroup(g, ports, convert, rules[n], OfKey(ps, GetPathMatchKey, keys[n]));
  }

  lemma {:induction false} RulesGiveGroups(g: RuleGroup, ports: ServicePorts, convert: PathConverter,
                                           rules: seq<Rule>, ps: seq<PlacedPath>, keys: seq<string>)
    requires KnownTypes(ps) && AreRulesOf(rules, g.namespace, ports, convert, ps, keys)
    requires forall k :: k in keys ==> k in FirstKeys(ps, GetPathMatchKey)
    ensures FlatMap(rules, r => RuleGives(g.namespace, g.ingressClass, g.host, r))
         == Map(Flatten(ps, GetPathMatchKey, keys), p => GroupAsks(g, ports, convert, p))
  {
    var give := (r: Rule) => RuleGives(g.namespace, g.ingressClass, g.host, r);
    var ask := (p: PlacedPath) => GroupAsks(g, ports, convert, p);
    forall i | 0 <= i < |keys|
      ensures give(rules[i]) == Map(OfKey(ps, GetPathMatchKey, keys[i]), ask)
    {
      RuleGivesKey(g, ports, convert, rules, ps, keys, i);
    }
    FlatMapOfGroups(rules, ps, GetPathMatchKey, keys, give, ask);
  }

  /** The route of a group gives what its paths ask for, each as often. */
  lemma {:induction false} RouteConserves(g: RuleGroup, ports: ServicePorts, convert: PathConverter, route: HTTPRoute,
                                          ps: seq<PlacedPath>)
    requires KnownTypes(ps) && AreRulesOf(route.rules, g.namespace, ports, convert, ps, FirstKeys(ps, GetPathMatchKey))
    requires route.key == RouteKey(g) && route.parentRefs == ListOf(g.ingressClass) && route.hostnames == ListOf(g.host)
    ensures multiset(RouteGives(route)) == multiset(Map(ps, p => GroupAsks(g, ports, convert, p)))
  {
    var keys := FirstKeys(ps, GetPathMatchKey);
    var ask := (p: PlacedPath) => GroupAsks(g, ports, convert, p);
    RulesGiveGroups(g, ports, convert, route.rules, ps, keys);
    FirstKeysAreDistinct(ps, GetPathMatchKey);
    FlattenIsPermutation(ps, GetPathMatchKey, keys);
    MapOfPermutation(Flatten(ps, GetPathMatchKey, keys), ps, ask);
  }

  /** All rules of a group are for its namespace, class and host. */
  ghost predicate OfOneGroup(g: RuleGroup, es: seq<Entry>) {
    forall e :: e in es ==>
      e.ingress.namespace == g.namespace && GetIngressClass(e.ingress) == g.ingressClass && e.rule.host == g.host
  }

  lemma {:induction false} PathsInAsk(g: RuleGroup, ports: ServicePorts, convert: PathConverter,
                                      start: seq<PlacedPath>, e: Entry, i: nat, n: nat)
    requires n <= |PathsOfEntry(e)| && OfOneGroup(g, [e])
    ensures Map(PathsIn(start, e, i, n), p => GroupAsks(g, ports, convert, p))
         == Map(start, p => GroupAsks(g, ports, convert, p)) + EntryAsks(ports, convert, e)[..n]
    decreases n
  {
    if n > 0 {
      PathsInAsk(g, ports, convert, start, e, i, n - 1);
      assert e in [e];
    }
  }

  lemma {:induction false} PathsOfAsk(g: RuleGroup, ports: ServicePorts, convert: PathConverter, es: seq<Entry>, n: nat)
    requires n <= |es| && OfOneGroup(g, es)
    ensures Map(PathsOf(es, n), p => GroupAsks(g, ports, convert, p)) == EntriesAsk(ports, convert, es[..n])
    decreases n
  {
    if n > 0 {
      var e := es[n - 1];
      PathsOfAsk(g, ports, convert, es, n - 1);
      PathsInAsk(g, ports, convert, PathsOf(es, n - 1), e, n - 1, |PathsOfEntry(e)|);
      assert es[..n][..n - 1] == es[..n - 1];
      assert EntryAsks(ports, convert, e)[..|PathsOfEntry(e)|] == EntryAsks(ports, convert, e);
    }
  }
}
