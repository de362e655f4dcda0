/**
 The ingress-nginx conversion as a whole (pkg/i2gw/providers/ingressnginx/converter.go): plain
 conversion, then the chain of passes. What it needs of the ingresses, and what it then leaves.
 */
module NginxConverter {
  import opened CommonConverter
  import opened CommonIngress
  import opened CommonNames
  import opened CommonRoutes
  import opened CommonRuleGroups
  import opened Gateway
  import opened Grouping
  import opened NginxCanary
  import opened NginxPipeline
  import opened NginxProviderIR
  import opened NginxRedirects
  import opened NginxSslPassthrough
  import opened NginxWeights
  import opened Optional
  import opened CommonIR
  import BackendSources
  import NginxSources

  const BACKEND_PROTOCOL := "nginx.ingress.kubernetes.io/backend-protocol"

  // ---- Which ingresses ------------------------------------------------------------------------------

  function UpperChar(c: char): char {
    if 'a' <= c <= 'z' then c - 'a' + 'A' else c
  }

  function ToUpper(s: string): (r: string)
    ensures |r| == |s|
  {
    seq(|s|, i requires 0 <= i < |s| => UpperChar(s[i]))
  }

  /** The others are gRPC ingresses, and those whose protocol is not supported. */
  predicate IsHTTP(ingress: Ingress) {
    BACKEND_PROTOCOL in ingress.annotations ==>
      ToUpper(ingress.annotations[BACKEND_PROTOCOL]) in {"HTTP", "HTTPS", "AUTO_HTTP"}
  }

  function HTTPOnly(ingresses: seq<Ingress>): (r: seq<Ingress>)
    ensures forall i :: i in r <==> i in ingresses && IsHTTP(i)
  {
    if ingresses == [] then []
    else
      var n := |ingresses| - 1;
      assert ingresses == ingresses[..n] + [ingresses[n]];
      HTTPOnly(ingresses[..n]) + if IsHTTP(ingresses[n]) then [ingresses[n]] else []
  }

  method FilterHTTP(ingresses: seq<Ingress>) returns (http: seq<Ingress>)
    ensures http == HTTPOnly(ingresses)
  {
    http := [];
    for i := 0 to |ingresses|
      invariant http == HTTPOnly(ingresses[..i])
    {
      assert ingresses[..i + 1][..i] == ingresses[..i];
      if BACKEND_PROTOCOL in ingresses[i].annotations {
        var protocol := ToUpper(ingresses[i].annotations[BACKEND_PROTOCOL]);
        if protocol in {"HTTP", "HTTPS", "AUTO_HTTP"} {
          http := http + [ingresses[i]];
        }
      } else {
        http := http + [ingresses[i]];
      }
    }
    assert ingresses[..|ingresses|] == ingresses;
  }

  /** ImplementationSpecific paths are prefixes. */
  const PREFIXES: PathConverter := Some((m: PathMatch) => m.(kind := Some(PathPrefix)))

  /** An ingress as the passes see it. */
  function Plain(ingress: Ingress): BackendSources.Ingress {
    BackendSources.Ingress(ingress.namespace, ingress.name, ingress.annotations)
  }

  // ---- What the passes need -------------------------------------------------------------------------

  /** A canary that is chosen by header. */
  predicate IsHeaderCanary(ingress: Ingress) {
    && NginxSources.CANARY_ANNOTATION in ingress.annotations
    && ingress.annotations[NginxSources.CANARY_ANNOTATION] == "true"
    && CANARY_BY_HEADER in ingress.annotations && ingress.annotations[CANARY_BY_HEADER] != ""
  }

  /** The rule groups have route names of their own. */
  ghost predicate GroupNamesAreDistinct(es: seq<Entry>) {
    var groups := GroupMap(es, RuleGroupKey);
    forall k, l :: k in groups && l in groups && k != l ==> RouteKey(groups[k]) != RouteKey(groups[l])
  }

  /** The backends that an ingress asks for are services. */
  predicate AsksForServices(ingress: Ingress) {
    && (ingress.defaultBackend.Some? ==> ingress.defaultBackend.value.Service?)
    && (forall r :: r in ingress.rules && r.paths.Some? ==> forall p :: p in r.paths.value ==> p.backend.Service?)
  }

  /** What the passes need of the ingresses in order not to index out of range or read a missing port. */
  ghost predicate FitForPasses(ingresses: seq<Ingress>) {
    && (GroupNamesAreDistinct(AllEntries(ingresses)) || forall i :: i in ingresses ==> !IsHeaderCanary(i))
    && (forall i :: i in ingresses && NginxSslPassthrough.KeyOf(Plain(i)) in PassthroughKeys(Map(ingresses, Plain)) ==>
      AsksForServices(i))
  }

  // ---- Where sources come from ------------------------------------------------------------------------

  lemma {:induction false} DefaultsAre(ingresses: seq<Ingress>, n: nat, d: DefaultBackend)
    requires n <= |ingresses| && d in DefaultsOf([], ingresses, n)
    ensures d.ingress in ingresses && d.ingress.defaultBackend == Some(d.backend)
    decreases n
  {
    if d in DefaultsOf([], ingresses, n - 1) {
      DefaultsAre(ingresses, n - 1, d);
    }
  }

  lemma {:induction false} PathsInAre(start: seq<PlacedPath>, e: Entry, i: nat, n: nat, p: PlacedPath)
    requires n <= |PathsOfEntry(e)| && p in PathsIn(start, e, i, n)
    ensures p in start || (p.ingress == e.ingress && p.path in PathsOfEntry(e))
    decreases n
  {
    if n > 0 {
      if p in PathsIn(start, e, i, n - 1) {
        PathsInAre(start, e, i, n - 1, p);
      }
    }
  }

  lemma {:induction false} PathsAre(es: seq<Entry>, n: nat, p: PlacedPath)
    requires n <= |es| && p in PathsOf(es, n)
    ensures exists e :: e in es && p.ingress == e.ingress && p.path in PathsOfEntry(e)
    decreases n
  {
    var e := es[n - 1];
    PathsInAre(PathsOf(es, n - 1), e, n - 1, |PathsOfEntry(e)|, p);
    if p in PathsOf(es, n - 1) {
      PathsAre(es, n - 1, p);
    } else {
      assert e in es;
    }
  }

  /** A source of an ingress of the list, with a port if that asks for services only. */
  ghost predicate FromList(s: BackendSources.BackendSource, ingresses: seq<Ingress>) {
    exists i :: i in ingresses && s.ingress == Some(Plain(i)) && (AsksForServices(i) ==> HasPort(s.backend))
  }

  lemma {:induction false} GroupPathIsFromList(ingresses: seq<Ingress>, k: string, p: PlacedPath)
    requires p in AllPaths(OfKey(AllEntries(ingresses), AggregatorKey, k))
    ensures p.ingress in ingresses && (AsksForServices(p.ingress) ==> p.path.backend.Service?)
  {
    var es := AllEntries(ingresses);
    var group := OfKey(es, AggregatorKey, k);
    PathsAre(group, |group|, p);
    var e :| e in group && p.ingress == e.ingress && p.path in PathsOfEntry(e);
    OfKeyIs(es, AggregatorKey, k);
    EntriesAre(ingresses, |ingresses|, e);
    assert ingresses[..|ingresses|] == ingresses;
    assert e.rule in e.ingress.rules && p.path in e.rule.paths.value;
  }

  lemma {:induction false} PathSourceIsFromList(s: BackendSources.BackendSource, ingresses: seq<Ingress>,
                                                namespace: string, ports: ServicePorts, p: PlacedPath)
    requires p.ingress in ingresses && (AsksForServices(p.ingress) ==> p.path.backend.Service?)
    requires Resolve(namespace, ports, p).Some? && s == SourceOf(p.ingress, Resolve(namespace, ports, p).value)
    ensures FromList(s, ingresses)
  {
    assert s.ingress == Some(Plain(p.ingress));
  }

  ghost predicate AllFromList(sources: Sources, ingresses: seq<Ingress>) {
    forall i, j :: 0 <= i < |sources| && 0 <= j < |sources[i]| ==> FromList(sources[i][j], ingresses)
  }

  lemma {:induction false} GroupSourcesAreFromList(r: RouteWithSources, ingresses: seq<Ingress>, k: string,
                                                   ports: ServicePorts)
    requires OfKey(AllEntries(ingresses), AggregatorKey, k) != []
    requires IsSourcedBy(r, GroupOf(OfKey(AllEntries(ingresses), AggregatorKey, k)), ports)
    ensures AllFromList(r.sources, ingresses)
  {
    var group := OfKey(AllEntries(ingresses), AggregatorKey, k);
    var ps := AllPaths(group);
    forall i, j | 0 <= i < |r.sources| && 0 <= j < |r.sources[i]|
      ensures FromList(r.sources[i][j], ingresses)
    {
      var key := FirstKeys(ps, GetPathMatchKey)[i];
      assert AreSourcesOfPaths(r.sources[i], GroupOf(group).namespace, ports, OfKey(ps, GetPathMatchKey, key));
      var p := OfKey(ps, GetPathMatchKey, key)[j];
      OfKeyIs(ps, GetPathMatchKey, key);
      assert p in OfKey(ps, GetPathMatchKey, key);
      GroupPathIsFromList(ingresses, k, p);
      PathSourceIsFromList(r.sources[i][j], ingresses, GroupOf(group).namespace, ports, p);
    }
  }

  lemma {:induction false} DefaultSourcesAreFromList(r: RouteWithSources, ingresses: seq<Ingress>, d: DefaultBackend,
                                                     ports: ServicePorts)
    requires d in AllDefaults(ingresses) && IsDefaultRoute(r, d, ports)
    ensures AllFromList(r.sources, ingresses)
  {
    DefaultsAre(ingresses, |ingresses|, d);
    assert r.sources[0][0].ingress == Some(Plain(d.ingress));
    assert FromList(r.sources[0][0], ingresses);
  }

  /** Every source that the plain conversion leaves is of an ingress of the list. */
  lemma {:induction false} SourcesAreFromList(routes: seq<RouteWithSources>, ingresses: seq<Ingress>, ks: seq<string>,
                                              ports: ServicePorts)
    requires CommonIR.Sourced(routes, AllEntries(ingresses), ks, AllDefaults(ingresses), ports)
    ensures forall r :: r in routes ==> AllFromList(r.sources, ingresses)
  {
    var ds := AllDefaults(ingresses);
    forall r | r in routes
      ensures AllFromList(r.sources, ingresses)
    {
      var i :| 0 <= i < |routes| && routes[i] == r;
      if i < |ks| {
        GroupSourcesAreFromList(r, ingresses, ks[i], ports);
      } else {
        assert ds[i - |ks|] in ds && routes[|ks| + (i - |ks|)] == r;
        DefaultSourcesAreFromList(r, ingresses, ds[i - |ks|], ports);
      }
    }
  }

  // ---- From the plain conversion to the passes --------------------------------------------------------

  /** The routes of the plain conversion, as the passes see them. */
  function Contexts(routes: map<Key, RouteWithSources>): Routes {
    map k | k in routes :: RouteContext(routes[k].route.rules, routes[k].sources)
  }

  lemma {:induction false} ContextsAreFit(routes: seq<RouteWithSources>, http: seq<Ingress>, ingresses: seq<Ingress>,
                                          ks: seq<string>,
                                          ports: ServicePorts, groups: seq<Key>)
    requires CommonIR.Sourced(routes, AllEntries(http), ks, AllDefaults(http), ports)
    requires (forall r :: r in routes ==> FreshRoute(r)) && (forall i :: i in http ==> i in ingresses)
    requires FitForPasses(ingresses)
    requires GroupNamesAreDistinct(AllEntries(ingresses)) ==> NoDuplicates(groups)
    ensures var contexts := Contexts(ByKey(routes));
      && AllFresh(contexts) && AllPorted(contexts, PassthroughKeys(Map(ingresses, Plain)))
      && OnceOrHeaderless(contexts, groups)
  {
    var contexts := Contexts(ByKey(routes));
    SourcesAreFromList(routes, http, ks, ports);
    forall k | k in contexts
      ensures BackendSources.FreshlyAligned(contexts[k].rules, contexts[k].sources)
      ensures AllFromList(contexts[k].sources, ingresses)
    {
      ByKeyHas(routes, k);
      FromLongerList(contexts[k].sources, http, ingresses);
    }
    forall k | k in contexts
      ensures Ported(contexts[k].sources, PassthroughKeys(Map(ingresses, Plain)))
    {
      SourcesArePorted(contexts[k].sources, ingresses);
    }
    if forall i :: i in ingresses ==> !IsHeaderCanary(i) {
      forall k | k in contexts
        ensures !AnyHeaderPaired(contexts[k].sources)
      {
        NoHeaderCanaryPaired(contexts[k].sources, ingresses);
      }
    }
  }

  lemma {:induction false} FromLongerList(sources: Sources, http: seq<Ingress>, ingresses: seq<Ingress>)
    requires AllFromList(sources, http) && forall i :: i in http ==> i in ingresses
    ensures AllFromList(sources, ingresses)
  {
    forall i, j | 0 <= i < |sources| && 0 <= j < |sources[i]|
      ensures FromList(sources[i][j], ingresses)
    {
      assert FromList(sources[i][j], http);
    }
  }

  lemma {:induction false} SourcesArePorted(sources: Sources, ingresses: seq<Ingress>)
    requires AllFromList(sources, ingresses) && FitForPasses(ingresses)
    ensures Ported(sources, PassthroughKeys(Map(ingresses, Plain)))
  {
    var keys := PassthroughKeys(Map(ingresses, Plain));
    forall i, j | 0 <= i < |sources| && 0 <= j < |sources[i]| && FromPassthrough(sources[i][j], keys)
      ensures HasPort(sources[i][j].backend)
    {
      assert FromList(sources[i][j], ingresses);
    }
  }

  lemma {:induction false} NoHeaderCanaryPaired(sources: Sources, ingresses: seq<Ingress>)
    requires AllFromList(sources, ingresses) && forall i :: i in ingresses ==> !IsHeaderCanary(i)
    ensures !AnyHeaderPaired(sources)
  {
    forall i | 0 <= i < |sources|
      ensures !HeaderPaired(sources[i])
    {
      if Paired(sources[i]) {
        var c := FirstMarked(sources[i]);
        assert FromList(sources[i][c], ingresses);
        MarkedWithoutHeader(sources[i][c], ingresses);
      }
    }
  }

  lemma {:induction false} MarkedWithoutHeader(s: BackendSources.BackendSource, ingresses: seq<Ingress>)
    requires FromList(s, ingresses) && MarkedCanary(s) && forall i :: i in ingresses ==> !IsHeaderCanary(i)
    ensures !ConfigOf(s.ingress.value).isHeader
  {
    var i :| i in ingresses && s.ingress == Some(Plain(i)) && (AsksForServices(i) ==> HasPort(s.backend));
    assert !IsHeaderCanary(i);
  }

  // ---- The conversion -----------------------------------------------------------------------------------

  /** The route keys of the rule groups, in the order of a map. */
  method RouteKeysOf(groups: map<string, RuleGroup>) returns (keys: seq<Key>, ghost ks: seq<string>)
    ensures NoDuplicates(ks) && (forall k :: k in ks <==> k in groups)
    ensures |keys| == |ks| && forall i :: 0 <= i < |ks| ==> keys[i] == RouteKey(groups[ks[i]])
  {
    keys, ks := [], [];
    var todo := groups.Keys;
    while todo != {}
      invariant todo <= groups.Keys && NoDuplicates(ks) && forall k :: k in ks <==> k in groups && k !in todo
      invariant |keys| == |ks| && forall i :: 0 <= i < |ks| ==> keys[i] == RouteKey(groups[ks[i]])
      decreases todo
    {
      var k :| k in todo;
      todo := todo - {k};
      keys, ks := keys + [RouteKey(groups[k])], ks + [k];
    }
  }

  /** How a conversion went: the routes of the plain one and the keys of their groups, the route keys of
      the rule groups in the order in which the canary pass takes them, and the routes after each pass but
      the last. */
  datatype Course = Course(routes: seq<RouteWithSources>, ks: seq<string>, groups: seq<Key>,
                           s1: Routes, s2: Routes, s3: Routes, s4: Routes, s5: Routes)

  /** The route keys of all rule groups. */
  ghost predicate AreRouteKeys(groups: seq<Key>, ingresses: seq<Ingress>) {
    var all := GroupMap(AllEntries(ingresses), RuleGroupKey);
    && |groups| == |all|
    && (forall key :: key in groups <==> exists k :: k in all && RouteKey(all[k]) == key)
  }

  /** The routes of the plain conversion, under their names, with sources; they give what the ingresses ask for. */
  ghost predicate ConvertedPlainly(routes: seq<RouteWithSources>, ks: seq<string>, http: seq<Ingress>,
                                   ports: ServicePorts)
  {
    && Named(routes, AllEntries(http), ks, AllDefaults(http))
    && CommonIR.Sourced(routes, AllEntries(http), ks, AllDefaults(http), ports)
    && ConservesIngresses(routes, http, ports, PREFIXES)
    && (forall r :: r in routes ==> FreshRoute(r))
  }

  /** The plain conversion of the HTTP ingresses. */
  method ConvertPlainly(ingresses: seq<Ingress>, ports: ServicePorts)
    returns (contexts: Option<Routes>, ghost routes: seq<RouteWithSources>, ghost ks: seq<string>)
    requires CommonIR.AllKnown(AllEntries(HTTPOnly(ingresses))) && AllSlashFree(AllEntries(HTTPOnly(ingresses)))
    ensures contexts.None? <==>
      !Convertible(AllEntries(HTTPOnly(ingresses)), AllDefaults(HTTPOnly(ingresses)), ports, PREFIXES)
    ensures contexts.None? <==> exists i :: i in HTTPOnly(ingresses) && !IngressConverts(ports, PREFIXES, i)
    ensures contexts.Some? ==> contexts.value == Contexts(ByKey(routes))
    ensures contexts.Some? ==> ConvertedPlainly(routes, ks, HTTPOnly(ingresses), ports)
  {
    var http := FilterHTTP(ingresses);
    var plain, all, keys, _ := ToIR(http, ports, PREFIXES);
    routes, ks := all, keys;
    contexts := match plain case Some(ir) => Some(Contexts(ir.httpRoutes)) case None => None;
  }

  /** The route keys of the rule groups of all ingresses. */
  method GroupKeys(ingresses: seq<Ingress>) returns (groups: seq<Key>)
    ensures AreRouteKeys(groups, ingresses)
    ensures GroupNamesAreDistinct(AllEntries(ingresses)) ==> NoDuplicates(groups)
  {
    var ruleGroups := GetRuleGroups(ingresses);
    ghost var ks;
    groups, ks := RouteKeysOf(ruleGroups);
    SameSize(ks, ruleGroups);
  }

  /** The plain conversion gave the routes what the HTTP ingresses ask for, and the passes have run on
      them, in their order, as far as `result` and `tls`. */
  ghost predicate IsCourse(c: Course, result: Routes, tls: map<Key, seq<BackendRef>>, ingresses: seq<Ingress>,
                      ports: ServicePorts, parse: UrlParser, isAbsolute: string -> bool, change1: RuleChange,
                      change2: RuleChange) {
    && ConvertedPlainly(c.routes, c.ks, HTTPOnly(ingresses), ports)
    && AreRouteKeys(c.groups, ingresses)
    && NginxPipeline.Ran(Contexts(ByKey(c.routes)), c.s1, c.s2, c.s3, c.s4, c.s5, result, tls,
                         Map(ingresses, Plain), c.groups, parse, isAbsolute, change1, change2)
  }

  lemma {:induction false} SameSize(ks: seq<string>, all: map<string, RuleGroup>)
    requires NoDuplicates(ks) && forall k :: k in ks <==> k in all
    ensures |ks| == |all|
  {
    var keys := all.Keys;
    DistinctCount(ks, keys);
  }

  lemma {:induction false} DistinctCount(ks: seq<string>, keys: set<string>)
    requires NoDuplicates(ks) && forall k :: k in ks <==> k in keys
    ensures |ks| == |keys|
  {
    if ks != [] {
      var n := |ks| - 1;
      NoDuplicatesAppend(ks[..n], ks[n]);
      assert ks == ks[..n] + [ks[n]];
      DistinctCount(ks[..n], keys - {ks[n]});
    } else {
      assert keys == {};
    }
  }

  /** The passes on the routes of the plain conversion. */
  method RunPasses(routes: Routes, ingresses: seq<Ingress>, groups: seq<Key>, parse: UrlParser,
                   isAbsolute: string -> bool, change1: RuleChange, change2: RuleChange)
    returns (result: Routes, tls: map<Key, seq<BackendRef>>,
             ghost s1: Routes, ghost s2: Routes, ghost s3: Routes, ghost s4: Routes, ghost s5: Routes)
    requires AllFresh(routes) && AllPorted(routes, PassthroughKeys(Map(ingresses, Plain)))
    requires OnceOrHeaderless(routes, groups) && LeavesBackends(change1) && LeavesBackends(change2)
    ensures Ran(routes, s1, s2, s3, s4, s5, result, tls, Map(ingresses, Plain), groups, parse, isAbsolute, change1,
              change2)
    ensures AllAligned(result)
    ensures forall key, i :: key in result && 0 <= i < |result[key].rules| ==>
      MergesSafely(result[key].rules[i].backends)
  {
    var ir := new NginxProviderIR.ProviderIR(routes);
    var failed;
    failed, s1, s2, s3, s4, s5 := RunFeatures(Map(ingresses, Plain), groups, parse, isAbsolute, change1, change2, ir);
    FeaturesMergeSafely(routes, s1, s2, s3, s4, s5, ir.httpRoutes, ir.tlsRoutes, Map(ingresses, Plain), groups, parse,
                        isAbsolute, change1, change2);
    result, tls := ir.httpRoutes, ir.tlsRoutes;
  }

  /**
   For ingresses that `FitForPasses`, nothing in the conversion indexes out of range or reads what is
   not there: it fails exactly when the plain conversion does, and otherwise leaves routes whose source
   lists still name the origin of every backend, and whose weights can be added up.
   */
  method Convert(ingresses: seq<Ingress>, ports: ServicePorts, parse: UrlParser, isAbsolute: string -> bool,
                 change1: RuleChange, change2: RuleChange)
    returns (result: Option<Routes>, tls: map<Key, seq<BackendRef>>, ghost course: Course)
    requires CommonIR.AllKnown(AllEntries(HTTPOnly(ingresses))) && AllSlashFree(AllEntries(HTTPOnly(ingresses)))
    requires FitForPasses(ingresses) && LeavesBackends(change1) && LeavesBackends(change2)
    ensures result.None? <==>
      !Convertible(AllEntries(HTTPOnly(ingresses)), AllDefaults(HTTPOnly(ingresses)), ports, PREFIXES)
    ensures result.None? <==> exists i :: i in HTTPOnly(ingresses) && !IngressConverts(ports, PREFIXES, i)
    ensures result.Some? ==>
      IsCourse(course, result.value, tls, ingresses, ports, parse, isAbsolute, change1, change2)
    ensures result.Some? ==> AllAligned(result.value)
    ensures result.Some? ==> forall key, i :: key in result.value && 0 <= i < |result.value[key].rules| ==>
      MergesSafely(result.value[key].rules[i].backends)
  {
    var contexts, routes, ks := ConvertPlainly(ingresses, ports);
    course := Course(routes, ks, [], map[], map[], map[], map[], map[]);
    if contexts.None? {
      return None, map[], course;
    }
    var groups := GroupKeys(ingresses);
    ContextsAreFit(routes, HTTPOnly(ingresses), ingresses, ks, ports, groups);
    var after, tlsRoutes, s1, s2, s3, s4, s5 :=
      RunPasses(contexts.value, ingresses, groups, parse, isAbsolute, change1, change2);
    course := Course(routes, ks, groups, s1, s2, s3, s4, s5);
    result, tls := Some(after), tlsRoutes;
  }
}
