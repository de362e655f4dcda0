/**
 Why rule groups need route names of their own when a canary is chosen by header: two ingresses whose
 hosts a.b and a-b give one name, for which the canary pass indexes a backend that is not there.
 */
module NginxSharedRoutes {
  import opened CommonConverter
  import opened CommonIngress
  import opened CommonIR
  import opened CommonNames
  import opened CommonRoutes
  import opened CommonRuleGroups
  import opened Gateway
  import opened Grouping
  import opened NginxCanary
  import opened NginxConverter
  import opened NginxPipeline
  import opened Optional
  import BackendSources
  import NginxSources

  function RuleFor(host: string, service: string): IngressRule {
    IngressRule(host, Some([IngressPath("/", Some("Prefix"), Service(service, "", 80))]))
  }

  const WEB := Ingress("n", "web", None, map[], [], [RuleFor("a.b", "s"), RuleFor("a-b", "s")], None)

  const CANARY := Ingress("n", "canary", None,
    map[NginxSources.CANARY_ANNOTATION := "true", CANARY_BY_HEADER := "h"], [],
    [RuleFor("a.b", "t"), RuleFor("a-b", "t")], None)

  const SHARED_KEY := Key("n", RouteName("web", "a.b"))

  lemma {:induction false} EntriesOfTwo()
    ensures AllEntries([WEB, CANARY]) ==
      [Entry(WEB, WEB.rules[0], HTTP), Entry(WEB, WEB.rules[1], HTTP),
       Entry(CANARY, CANARY.rules[0], HTTP), Entry(CANARY, CANARY.rules[1], HTTP)]
    ensures AllDefaults([WEB, CANARY]) == []
  {
    var xs := [WEB, CANARY];
    var web := EntriesIn([], WEB, HTTP, 2);
    assert EntriesOf([], xs, HTTP, 0) == [];
    assert EntriesIn([], WEB, HTTP, 1) == [Entry(WEB, WEB.rules[0], HTTP)];
    assert EntriesOf([], xs, HTTP, 1) == web;
    assert EntriesIn(web, CANARY, HTTP, 1) == web + [Entry(CANARY, CANARY.rules[0], HTTP)];
    assert DefaultsOf([], xs, 1) == [];
  }

  function Pick(x: Entry, key: Entry -> string, k: string): seq<Entry> {
    if key(x) == k then [x] else []
  }

  lemma {:induction false} OfKeySnoc(xs: seq<Entry>, x: Entry, key: Entry -> string, k: string)
    ensures OfKey(xs + [x], key, k) == OfKey(xs, key, k) + Pick(x, key, k)
  {
    OfKeyGrows(xs, x, key, k);
  }

  lemma {:induction false} OfKeyOfFour(a: Entry, b: Entry, c: Entry, d: Entry, key: Entry -> string, k: string)
    ensures OfKey([a, b, c, d], key, k) == Pick(a, key, k) + Pick(b, key, k) + Pick(c, key, k) + Pick(d, key, k)
  {
    OfKeySnoc([], a, key, k);
    OfKeySnoc([a], b, key, k);
    OfKeySnoc([a, b], c, key, k);
    OfKeySnoc([a, b, c], d, key, k);
    assert [] + [a] == [a] && [a] + [b] == [a, b] && [a, b] + [c] == [a, b, c] && [a, b, c] + [d] == [a, b, c, d];
  }

  /** The two groups of the example, by either key. */
  lemma {:induction false} GroupsOfTwo(key: Entry -> string)
    requires key == AggregatorKey || key == RuleGroupKey
    ensures var es := AllEntries([WEB, CANARY]);
      |es| == 4 && key(es[0]) != key(es[1])
      && OfKey(es, key, key(es[0])) == [es[0], es[2]] && OfKey(es, key, key(es[1])) == [es[1], es[3]]
      && forall k :: k in FirstKeys(es, key) <==> k == key(es[0]) || k == key(es[1])
  {
    EntriesOfTwo();
    var es := AllEntries([WEB, CANARY]);
    KeysOfTwo(es[0], es[1], es[2], es[3], key);
    Alternating(es[0], es[1], es[2], es[3], key);
  }

  lemma {:induction false} KeysOfTwo(a: Entry, b: Entry, c: Entry, d: Entry, key: Entry -> string)
    requires key == AggregatorKey || key == RuleGroupKey
    requires a == Entry(WEB, WEB.rules[0], HTTP) && b == Entry(WEB, WEB.rules[1], HTTP)
    requires c == Entry(CANARY, CANARY.rules[0], HTTP) && d == Entry(CANARY, CANARY.rules[1], HTTP)
    ensures key(a) == key(c) && key(b) == key(d) && key(a) != key(b)
  {
    assert WEB.rules[0].host[1] != WEB.rules[1].host[1];
    KeyTellsApart(a, b);
    KeyTellsApart(a, c);
    KeyTellsApart(b, d);
    KeysAgree(a, b);
    KeysAgree(a, c);
    KeysAgree(b, d);
  }

  lemma {:induction false} Alternating(a: Entry, b: Entry, c: Entry, d: Entry, key: Entry -> string)
    requires key(a) == key(c) && key(b) == key(d) && key(a) != key(b)
    ensures OfKey([a, b, c, d], key, key(a)) == [a, c] && OfKey([a, b, c, d], key, key(b)) == [b, d]
    ensures forall k :: k in FirstKeys([a, b, c, d], key) <==> k == key(a) || k == key(b)
  {
    OfKeyOfFour(a, b, c, d, key, key(a));
    OfKeyOfFour(a, b, c, d, key, key(b));
    FirstKeysAreDistinct([a, b, c, d], key);
    assert a in [a, b, c, d] && b in [a, b, c, d];
  }

  /** Both groups give their routes one name. */
  lemma {:induction false} GroupsShareAName(key: Entry -> string)
    requires key == AggregatorKey || key == RuleGroupKey
    ensures var es := AllEntries([WEB, CANARY]);
      && |es| == 4 && key(es[0]) != key(es[1])
      && (forall k :: k in GroupMap(es, key) <==> k == key(es[0]) || k == key(es[1]))
      && forall k :: k in GroupMap(es, key) ==> RouteKey(GroupMap(es, key)[k]) == SHARED_KEY
  {
    var es := AllEntries([WEB, CANARY]);
    GroupsOfTwo(key);
    forall k
      ensures k in GroupMap(es, key) <==> k == key(es[0]) || k == key(es[1])
      ensures k in GroupMap(es, key) ==> RouteKey(GroupMap(es, key)[k]) == SHARED_KEY
    {
      GroupMapHas(es, key, k);
      if k in GroupMap(es, key) {
        NameOfGroup(key, k);
      }
    }
  }

  lemma {:induction false} NameOfGroup(key: Entry -> string, k: string)
    requires (key == AggregatorKey || key == RuleGroupKey) && k in FirstKeys(AllEntries([WEB, CANARY]), key)
    ensures var group := OfKey(AllEntries([WEB, CANARY]), key, k); group != [] && RouteKey(GroupOf(group)) == SHARED_KEY
  {
    GroupsOfTwo(key);
    EntriesOfTwo();
    SharedName(OfKey(AllEntries([WEB, CANARY]), key, k));
  }

  lemma {:induction false} SharedName(group: seq<Entry>)
    requires group != [] && group[0] in [Entry(WEB, WEB.rules[0], HTTP), Entry(WEB, WEB.rules[1], HTTP)]
    ensures RouteKey(GroupOf(group)) == SHARED_KEY
  {
    DotAndDashShareAName();
  }

  // ---- Its sources ----------------------------------------------------------------------------------

  lemma {:induction false} PathsOfPair(e: Entry, f: Entry)
    requires |PathsOfEntry(e)| == 1 && |PathsOfEntry(f)| == 1
    ensures AllPaths([e, f]) == [PlacedPath(0, 0, PathsOfEntry(e)[0], e.ingress),
      PlacedPath(1, 0, PathsOfEntry(f)[0], f.ingress)]
  {
    var es := [e, f];
    assert PathsOf(es, 0) == [];
    assert PathsIn([], e, 0, 1) == PathsIn([], e, 0, 0) + [PlacedPath(0, 0, PathsOfEntry(e)[0], e.ingress)];
    var one := PathsOf(es, 1);
    assert PathsIn(one, f, 1, 1) == PathsIn(one, f, 1, 0) + [PlacedPath(1, 0, PathsOfEntry(f)[0], f.ingress)];
  }

  lemma {:induction false} PairHasOneKey(p: PlacedPath, q: PlacedPath)
    requires GetPathMatchKey(p) == GetPathMatchKey(q)
    ensures FirstKeys([p, q], GetPathMatchKey) == [GetPathMatchKey(p)]
    ensures OfKey([p, q], GetPathMatchKey, GetPathMatchKey(p)) == [p, q]
  {
    var k := GetPathMatchKey(p);
    OfKeyGrows([], p, GetPathMatchKey, k);
    OfKeyGrows([p], q, GetPathMatchKey, k);
    assert [] + [p] == [p] && [p] + [q] == [p, q];
  }

  lemma {:induction false} PairIsHeaderPaired(s: BackendSources.BackendSource, c: BackendSources.BackendSource)
    requires s.ingress == Some(Plain(WEB)) && c.ingress == Some(Plain(CANARY))
    ensures HeaderPaired([s, c])
  {
    assert Unmarked(s) && !MarkedCanary(s) && MarkedCanary(c);
    FirstsAreFirst([s, c]);
    assert [s, c][..1] == [s] && [s][..0] == [];
    assert FirstMarked([s]) == -1 && FirstUnmarked([s]) == 0;
    assert CANARY_BY_HEADER != NginxSources.CANARY_ANNOTATION;
  }

  lemma {:induction false} PairOfSources(sources: Sources, namespace: string, ports: ServicePorts, ps: seq<PlacedPath>)
    requires |ps| == 2 && ps[0].ingress == WEB && ps[1].ingress == CANARY
    requires GetPathMatchKey(ps[0]) == GetPathMatchKey(ps[1])
    requires AreSourcesOf(sources, namespace, ports, ps, FirstKeys(ps, GetPathMatchKey))
    ensures AnyHeaderPaired(sources)
  {
    assert ps == [ps[0], ps[1]];
    PairHasOneKey(ps[0], ps[1]);
    assert AreSourcesOfPaths(sources[0], namespace, ports, ps);
    PairIsHeaderPaired(sources[0][0], sources[0][1]);
    assert sources[0] == [sources[0][0], sources[0][1]];
  }

  /** The route of either group has the canary beside the other backend. */
  lemma {:induction false} GroupIsHeaderPaired(r: RouteWithSources, k: string, ports: ServicePorts)
    requires k in FirstKeys(AllEntries([WEB, CANARY]), AggregatorKey)
    requires OfKey(AllEntries([WEB, CANARY]), AggregatorKey, k) != []
    requires IsSourcedBy(r, GroupOf(OfKey(AllEntries([WEB, CANARY]), AggregatorKey, k)), ports)
    ensures AnyHeaderPaired(r.sources)
  {
    GroupsOfTwo(AggregatorKey);
    EntriesOfTwo();
    var group := OfKey(AllEntries([WEB, CANARY]), AggregatorKey, k);
    PathsOfPair(group[0], group[1]);
    assert group == [group[0], group[1]];
    PairOfSources(r.sources, GroupOf(group).namespace, ports, AllPaths(group));
  }

  lemma {:induction false} TwoGroupsOneName()
    ensures var groups := GroupMap(AllEntries([WEB, CANARY]), RuleGroupKey);
      |groups| == 2 && forall k :: k in groups ==> RouteKey(groups[k]) == SHARED_KEY
  {
    GroupsShareAName(RuleGroupKey);
    var es := AllEntries([WEB, CANARY]);
    var groups := GroupMap(es, RuleGroupKey);
    assert groups.Keys == {RuleGroupKey(es[0]), RuleGroupKey(es[1])};
  }

  lemma {:induction false} ContextsAreFresh(routes: seq<RouteWithSources>)
    requires forall r :: r in routes ==> FreshRoute(r)
    ensures AllFresh(Contexts(ByKey(routes)))
  {
    var contexts := Contexts(ByKey(routes));
    forall k | k in contexts
      ensures BackendSources.FreshlyAligned(contexts[k].rules, contexts[k].sources)
    {
      ByKeyHas(routes, k);
    }
  }

  /** Whatever the plain conversion makes of the two ingresses, the canary pass, going through both
      groups, runs out of range. */
  lemma {:induction false} SharedRouteKeyBreaksCanary(routes: seq<RouteWithSources>, ks: seq<string>,
                                                      ports: ServicePorts)
    requires Named(routes, AllEntries([WEB, CANARY]), ks, [])
    requires Sourced(routes, AllEntries([WEB, CANARY]), ks, [], ports)
    requires forall r :: r in routes ==> FreshRoute(r)
    ensures var groups := GroupMap(AllEntries([WEB, CANARY]), RuleGroupKey);
      |groups| == 2 && forall k :: k in groups ==> RouteKey(groups[k]) == SHARED_KEY
    ensures !InRange(Contexts(ByKey(routes)), [SHARED_KEY, SHARED_KEY])
  {
    TwoGroupsOneName();
    SharedRouteIsHeaderPaired(routes, ks, ports);
    RepeatedKeyIsOutOfRange(routes, SHARED_KEY);
  }

  lemma {:induction false} RepeatedKeyIsOutOfRange(routes: seq<RouteWithSources>, key: Key)
    requires forall r :: r in routes ==> FreshRoute(r)
    requires key in ByKey(routes) && AnyHeaderPaired(ByKey(routes)[key].sources)
    ensures !InRange(Contexts(ByKey(routes)), [key, key])
  {
    ContextsAreFresh(routes);
    CanaryIsInRangeIff(Contexts(ByKey(routes)), [key, key]);
    assert [key, key][0] == [key, key][1] == key;
  }

  lemma {:induction false} SharedRouteIsHeaderPaired(routes: seq<RouteWithSources>, ks: seq<string>,
                                                     ports: ServicePorts)
    requires Named(routes, AllEntries([WEB, CANARY]), ks, [])
    requires Sourced(routes, AllEntries([WEB, CANARY]), ks, [], ports)
    ensures SHARED_KEY in ByKey(routes) && AnyHeaderPaired(ByKey(routes)[SHARED_KEY].sources)
  {
    var es := AllEntries([WEB, CANARY]);
    GroupsShareAName(AggregatorKey);
    forall i | 0 <= i < |routes|
      ensures routes[i].route.key == SHARED_KEY && AnyHeaderPaired(routes[i].sources)
    {
      assert ks[i] in ks;
      GroupMapHas(es, AggregatorKey, ks[i]);
      GroupIsHeaderPaired(routes[i], ks[i], ports);
    }
    GroupMapHas(es, AggregatorKey, AggregatorKey(es[0]));
    assert AggregatorKey(es[0]) in ks;
    ByKeyHas(routes, SHARED_KEY);
    assert routes[0].route.key in Map(routes, KeyOf) by { assert Map(routes, KeyOf)[0] == SHARED_KEY; }
  }
}
