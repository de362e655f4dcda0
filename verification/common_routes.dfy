module CommonRoutes {
  /** From a group of ingress rules to an HTTPRoute (pkg/i2gw/providers/common/converter.go and utils.go). */

  import opened CommonIngress
  import opened CommonNames
  import opened CommonRuleGroups
  import opened Gateway
  import opened Grouping
  import opened Optional
  import BackendSources

  // ---- Paths by match key -----------------------------------------------------------------------------

  function PathsOfEntry(e: Entry): seq<IngressPath> {
    match e.rule.paths
    case Some(paths) => paths
    case None => []
  }

  /** `start` and the first `n` paths of rule `i`. */
  function PathsIn(start: seq<PlacedPath>, e: Entry, i: nat, n: nat): seq<PlacedPath>
    requires n <= |PathsOfEntry(e)|
    decreases n
  {
    if n == 0 then start
    else PathsIn(start, e, i, n - 1) + [PlacedPath(i, n - 1, PathsOfEntry(e)[n - 1], e.ingress)]
  }

  /** The paths of the first `n` rules, in order. */
  function PathsOf(rules: seq<Entry>, n: nat): seq<PlacedPath>
    requires n <= |rules|
    decreases n
  {
    if n == 0 then []
    else PathsIn(PathsOf(rules, n - 1), rules[n - 1], n - 1, |PathsOfEntry(rules[n - 1])|)
  }

  function AllPaths(rules: seq<Entry>): seq<PlacedPath> {
    PathsOf(rules, |rules|)
  }

  /** The keys in order of first occurrence, and under each the paths that have it. */
  ghost predicate GroupedByKey(ps: seq<PlacedPath>, keys: seq<string>, data: map<string, seq<PlacedPath>>) {
    && keys == FirstKeys(ps, GetPathMatchKey)
    && (forall k :: k in data <==> k in keys)
    && (forall k :: k in data ==> data[k] == OfKey(ps, GetPathMatchKey, k))
  }

  lemma {:induction false} OneMorePath(ps: seq<PlacedPath>, keys: seq<string>, data: map<string, seq<PlacedPath>>,
                                       p: PlacedPath)
    requires GroupedByKey(ps, keys, data)
    ensures var k := GetPathMatchKey(p);
            GroupedByKey(ps + [p], if k in data then keys else keys + [k],
              data[k := (if k in data then data[k] else []) + [p]])
  {
    var key := GetPathMatchKey(p);
    OfKeyIs(ps, GetPathMatchKey, key);
    OfKeyGrows(ps, p, GetPathMatchKey, key);
    forall k | k != key
      ensures OfKey(ps + [p], GetPathMatchKey, k) == OfKey(ps, GetPathMatchKey, k)
    {
      OfKeyGrows(ps, p, GetPathMatchKey, k);
    }
  }

  method AddPath(ghost ps: seq<PlacedPath>, keys: seq<string>, data: map<string, seq<PlacedPath>>, ip: PlacedPath)
    returns (newKeys: seq<string>, newData: map<string, seq<PlacedPath>>)
    requires GroupedByKey(ps, keys, data)
    ensures GroupedByKey(ps + [ip], newKeys, newData)
  {
    OneMorePath(ps, keys, data, ip);
    var pmKey := GetPathMatchKey(ip);
    var known := [];
    newKeys := keys;
    if pmKey in data {
      known := data[pmKey];
    } else {
      newKeys := newKeys + [pmKey];
    }
    newData := data[pmKey := known + [ip]];
  }

  method GroupIngressPathsByMatchKey(rules: seq<Entry>) returns (keys: seq<string>, data: map<string, seq<PlacedPath>>)
    ensures keys == FirstKeys(AllPaths(rules), GetPathMatchKey)
    ensures forall k :: k in data <==> k in keys
    ensures forall k :: k in data ==> data[k] == OfKey(AllPaths(rules), GetPathMatchKey, k)
  {
    keys, data := [], map[];
    ghost var ps: seq<PlacedPath> := [];
    for i := 0 to |rules|
      invariant ps == PathsOf(rules, i) && GroupedByKey(ps, keys, data)
    {
      if rules[i].rule.paths.None? {
        continue;
      }
      var paths := rules[i].rule.paths.value;
      ghost var before := ps;
      for j := 0 to |paths|
        invariant ps == PathsIn(before, rules[i], i, j) && GroupedByKey(ps, keys, data)
      {
        var ip := PlacedPath(i, j, paths[j], rules[i].ingress);
        keys, data := AddPath(ps, keys, data, ip);
        ps := ps + [ip];
      }
    }
  }

  // ---- Backends ---------------------------------------------------------------------------------------

  function SourceOf(ingress: Ingress, b: BackendRef): BackendSources.BackendSource {
    BackendSources.BackendSource(Some(BackendSources.Ingress(ingress.namespace, ingress.name, ingress.annotations)), b)
  }

  function Resolve(namespace: string, ports: ServicePorts, p: PlacedPath): Option<BackendRef> {
    ToBackendRef(namespace, p.path.backend, ports)
  }

  /** The source keeps the ingress's namespace, name and annotations, and the backend. */
  lemma {:induction false} SourceInFull(ingress: Ingress, b: BackendRef)
    ensures var s := SourceOf(ingress, b);
      && s.backend == b && s.ingress.Some?
      && s.ingress.value.namespace == ingress.namespace && s.ingress.value.name == ingress.name
      && s.ingress.value.annotations == ingress.annotations
  {
  }

  /** Backend `i` with the source it came from; paths whose backend does not resolve are skipped. */
  method ConfigureBackendRef(namespace: string, ports: ServicePorts, paths: seq<PlacedPath>)
    returns (backends: seq<BackendRef>, sources: seq<BackendSources.BackendSource>, failed: bool)
    ensures failed <==> exists p :: p in paths && Resolve(namespace, ports, p).None?
    ensures |backends| == |sources| && forall i :: 0 <= i < |backends| ==>
      sources[i].ingress.Some? && sources[i].backend == backends[i] && backends[i].weight == None
    ensures !failed ==> |backends| == |paths|
    ensures !failed ==> forall i :: 0 <= i < |paths| ==>
      Resolve(namespace, ports, paths[i]) == Some(backends[i]) && sources[i] == SourceOf(paths[i].ingress, backends[i])
  {
    backends, sources, failed := [], [], false;
    for i := 0 to |paths|
      invariant failed <==> exists j :: 0 <= j < i && Resolve(namespace, ports, paths[j]).None?
      invariant |backends| == |sources| && forall j :: 0 <= j < |backends| ==>
        sources[j].ingress.Some? && sources[j].backend == backends[j] && backends[j].weight == None
      invariant !failed ==> |backends| == i
      invariant !failed ==> forall j :: 0 <= j < i ==>
        Resolve(namespace, ports, paths[j]) == Some(backends[j])
          && sources[j] == SourceOf(paths[j].ingress, backends[j])
    {
      var backendRef := ToBackendRef(namespace, paths[i].path.backend, ports);
      if backendRef.None? {
        assert Resolve(namespace, ports, paths[i]).None?;
        failed := true;
        continue;
      }
      backends := backends + [backendRef.value];
      sources := sources + [SourceOf(paths[i].ingress, backendRef.value)];
    }
  }

  // ---- Routes -----------------------------------------------------------------------------------------

  datatype HTTPRoute = HTTPRoute(key: Key, parentRefs: seq<string>, hostnames: seq<string>, rules: seq<Rule>)

  function ListOf(s: string): (r: seq<string>)
    ensures forall x :: x in r <==> x == s && s != ""
    ensures |r| <= 1
  {
    if s != "" then [s] else []
  }

  function RouteKey(g: RuleGroup): Key {
    Key(g.namespace, RouteName(g.name, g.host))
  }

  ghost predicate KnownTypes(ps: seq<PlacedPath>) {
    forall p :: p in ps ==> KnownType(p.path)
  }

  /** The path can be translated: its type and its backend. */
  predicate Converts(namespace: string, ports: ServicePorts, convert: PathConverter, p: PlacedPath)
    requires KnownType(p.path)
  {
    ToHTTPRouteMatch(p.path, convert).Some? && Resolve(namespace, ports, p).Some?
  }

  /** The rule made of the paths of one key. */
  ghost predicate IsRuleOf(rule: Rule, namespace: string, ports: ServicePorts, convert: PathConverter,
                           paths: seq<PlacedPath>)
  {
    && paths != [] && KnownType(paths[0].path)
    && ToHTTPRouteMatch(paths[0].path, convert).Some?
    && rule.matches == [ToHTTPRouteMatch(paths[0].path, convert).value]
    && rule.filters == []
    && |rule.backends| == |paths|
    && forall i :: 0 <= i < |paths| ==> Resolve(namespace, ports, paths[i]) == Some(rule.backends[i])
  }

  /** The rules are those of the keys, in order. */
  ghost predicate AreRulesOf(rules: seq<Rule>, namespace: string, ports: ServicePorts, convert: PathConverter,
                             ps: seq<PlacedPath>, keys: seq<string>) {
    |rules| == |keys| && forall i :: 0 <= i < |keys| ==>
      IsRuleOf(rules[i], namespace, ports, convert, OfKey(ps, GetPathMatchKey, keys[i]))
  }

  /** The sources of a rule: for each path its ingress, with the backend that it resolves to. */
  ghost predicate AreSourcesOfPaths(sources: seq<BackendSources.BackendSource>, namespace: string,
                                    ports: ServicePorts, paths: seq<PlacedPath>)
  {
    |sources| == |paths| && forall i :: 0 <= i < |paths| ==>
      Resolve(namespace, ports, paths[i]).Some? &&
      sources[i] == SourceOf(paths[i].ingress, Resolve(namespace, ports, paths[i]).value)
  }

  ghost predicate AreSourcesOf(sources: seq<seq<BackendSources.BackendSource>>, namespace: string, ports: ServicePorts,
                               ps: seq<PlacedPath>, keys: seq<string>) {
    |sources| == |keys| && forall i :: 0 <= i < |keys| ==>
      AreSourcesOfPaths(sources[i], namespace, ports, OfKey(ps, GetPathMatchKey, keys[i]))
  }

  ghost predicate AllConvert(namespace: string, ports: ServicePorts, convert: PathConverter, ps: seq<PlacedPath>)
    requires KnownTypes(ps)
  {
    forall p :: p in ps ==> Converts(namespace, ports, convert, p)
  }

  ghost predicate KeyConverts(namespace: string, ports: ServicePorts, convert: PathConverter, group: seq<PlacedPath>) {
    && group != [] && KnownType(group[0].path) && ToHTTPRouteMatch(group[0].path, convert).Some?
    && forall p :: p in group ==> Resolve(namespace, ports, p).Some?
  }

  /** The paths of these keys convert. */
  ghost predicate FirstConvert(namespace: string, ports: ServicePorts, convert: PathConverter, ps: seq<PlacedPath>,
                               keys: seq<string>)
  {
    forall k :: k in keys ==> KeyConverts(namespace, ports, convert, OfKey(ps, GetPathMatchKey, k))
  }

  lemma {:induction false} KeyHasPaths(ps: seq<PlacedPath>, k: string)
    requires KnownTypes(ps) && k in FirstKeys(ps, GetPathMatchKey)
    ensures var group := OfKey(ps, GetPathMatchKey, k);
            && group != [] && group[0] in ps && KnownType(group[0].path)
            && forall p :: p in group ==>
              p in ps && p.path.pathType == group[0].path.pathType && p.path.path == group[0].path.path
  {
    OfKeyIs(ps, GetPathMatchKey, k);
    var group := OfKey(ps, GetPathMatchKey, k);
    assert group[0] in group;
    forall p | p in group
      ensures p.path.pathType == group[0].path.pathType && p.path.path == group[0].path.path
    {
      MatchKeyTellsApart(p, group[0]);
    }
  }

  lemma {:induction false} PathIsInGroup(ps: seq<PlacedPath>, p: PlacedPath)
    requires p in ps
    ensures GetPathMatchKey(p) in FirstKeys(ps, GetPathMatchKey) && p in OfKey(ps, GetPathMatchKey, GetPathMatchKey(p))
  {
    FirstKeysAreDistinct(ps, GetPathMatchKey);
    OfKeyIs(ps, GetPathMatchKey, GetPathMatchKey(p));
  }

  /** All paths convert if those of every key do: the first speaks for the type of all. */
  lemma {:induction false} AllConvertByKey(namespace: string, ports: ServicePorts, convert: PathConverter,
                                           ps: seq<PlacedPath>)
    requires KnownTypes(ps)
    ensures AllConvert(namespace, ports, convert, ps) <==>
            FirstConvert(namespace, ports, convert, ps, FirstKeys(ps, GetPathMatchKey))
  {
    var keys := FirstKeys(ps, GetPathMatchKey);
    if AllConvert(namespace, ports, convert, ps) {
      forall k | k in keys
        ensures KeyConverts(namespace, ports, convert, OfKey(ps, GetPathMatchKey, k))
      {
        KeyHasPaths(ps, k);
      }
    }
    if FirstConvert(namespace, ports, convert, ps, keys) {
      forall p | p in ps
        ensures Converts(namespace, ports, convert, p)
      {
        PathIsInGroup(ps, p);
        KeyHasPaths(ps, GetPathMatchKey(p));
        assert KeyConverts(namespace, ports, convert, OfKey(ps, GetPathMatchKey, GetPathMatchKey(p)));
      }
    }
  }

  /** The rule of one key and the sources of its backends; none if its match cannot be made. */
  method ToRule(namespace: string, ports: ServicePorts, convert: PathConverter, paths: seq<PlacedPath>)
    returns (rule: Option<Rule>, sources: seq<BackendSources.BackendSource>, failed: bool)
    requires paths != [] && KnownType(paths[0].path)
    ensures failed <==> ToHTTPRouteMatch(paths[0].path, convert).None? || exists p ::
      p in paths && Resolve(namespace, ports, p).None?
    ensures !failed ==> rule.Some? && IsRuleOf(rule.value, namespace, ports, convert, paths)
    ensures !failed ==> AreSourcesOfPaths(sources, namespace, ports, paths)
    ensures rule.Some? ==> BackendSources.FreshlyAligned([rule.value], [sources])
  {
    sources := [];
    var m := ToHTTPRouteMatch(paths[0].path, convert);
    if m.None? {
      return None, [], true;
    }
    var backends;
    backends, sources, failed := ConfigureBackendRef(namespace, ports, paths);
    rule := Some(Rule([m.value], [], backends));
  }

  lemma {:induction false} OneMoreRule(rules: seq<Rule>, sources: seq<seq<BackendSources.BackendSource>>, rule: Rule,
                                       source: seq<BackendSources.BackendSource>)
    requires BackendSources.FreshlyAligned(rules, sources) && BackendSources.FreshlyAligned([rule], [source])
    ensures BackendSources.FreshlyAligned(rules + [rule], sources + [source])
  {
    assert BackendSources.AlignedRule([rule][0], [source][0]) && |[rule][0].backends| == |[source][0]|;
  }

  /** The route of a group. Rules and sources stay side by side even when something fails. */
  method ToHTTPRoute(g: RuleGroup, ports: ServicePorts, convert: PathConverter)
    returns (route: HTTPRoute, sources: seq<seq<BackendSources.BackendSource>>, failed: bool)
    requires KnownTypes(AllPaths(g.rules))
    ensures failed <==> !AllConvert(g.namespace, ports, convert, AllPaths(g.rules))
    ensures BackendSources.FreshlyAligned(route.rules, sources)
    ensures route.key == RouteKey(g) && route.parentRefs == ListOf(g.ingressClass) && route.hostnames == ListOf(g.host)
    ensures route.key.namespace == g.namespace && route.key.name == RouteName(g.name, g.host)
    ensures !failed ==> var ps := AllPaths(g.rules);
      && AreRulesOf(route.rules, g.namespace, ports, convert, ps, FirstKeys(ps, GetPathMatchKey))
      && AreSourcesOf(sources, g.namespace, ports, ps, FirstKeys(ps, GetPathMatchKey))
  {
    var keys: seq<string>, data: map<string, seq<PlacedPath>> := GroupIngressPathsByMatchKey(g.rules);
    ghost var ps := AllPaths(g.rules);
    AllConvertByKey(g.namespace, ports, convert, ps);
    forall k: string | k in keys
      ensures data[k] != [] && KnownType(data[k][0].path)
    {
      KeyHasPaths(ps, k);
    }
    var rules;
    rules, sources, failed := ToRules(g.namespace, ports, convert, keys, data);
    assert failed <==> !FirstConvert(g.namespace, ports, convert, ps, keys);
    route := HTTPRoute(RouteKey(g), ListOf(g.ingressClass), ListOf(g.host), rules);
  }

  /** The loop of toHTTPRoute over the keys. */
  method ToRules(namespace: string, ports: ServicePorts, convert: PathConverter, keys: seq<string>,
                 data: map<string, seq<PlacedPath>>)
    returns (rules: seq<Rule>, sources: seq<seq<BackendSources.BackendSource>>, failed: bool)
    requires forall k :: k in keys ==> k in data && data[k] != [] && KnownType(data[k][0].path)
    ensures BackendSources.FreshlyAligned(rules, sources)
    ensures failed <==> exists j :: 0 <= j < |keys| && !KeyConverts(namespace, ports, convert, data[keys[j]])
    ensures !failed ==> |rules| == |sources| == |keys|
    ensures !failed ==> forall j :: 0 <= j < |keys| ==>
      && IsRuleOf(rules[j], namespace, ports, convert, data[keys[j]])
      && AreSourcesOfPaths(sources[j], namespace, ports, data[keys[j]])
  {
    rules, sources, failed := [], [], false;
    for i := 0 to |keys|
      invariant BackendSources.FreshlyAligned(rules, sources)
      invariant failed <==> exists j :: 0 <= j < i && !KeyConverts(namespace, ports, convert, data[keys[j]])
      invariant !failed ==> |rules| == |sources| == i
      invariant !failed ==> forall j :: 0 <= j < i ==>
        && IsRuleOf(rules[j], namespace, ports, convert, data[keys[j]])
        && AreSourcesOfPaths(sources[j], namespace, ports, data[keys[j]])
    {
      var rule, ruleSources, ruleFailed := ToRule(namespace, ports, convert, data[keys[i]]);
      assert ruleFailed <==> !KeyConverts(namespace, ports, convert, data[keys[i]]);
      failed := failed || ruleFailed;
      if rule.Some? {
        OneMoreRule(rules, sources, rule.value, ruleSources);
        rules, sources := rules + [rule.value], sources + [ruleSources];
      }
    }
  }
}
