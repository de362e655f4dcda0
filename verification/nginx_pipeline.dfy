/**
 The chain of ingress-nginx passes over converted routes
 (pkg/i2gw/providers/ingressnginx/converter.go): in which order they run, and what they all keep.
 */
module NginxPipeline {
  import opened Optional
  import opened Gateway
  import opened BackendSources
  import opened NginxSources
  import opened NginxProviderIR
  import opened NginxCanary
  import opened NginxRedirects
  import opened NginxSslPassthrough
  import NginxSslRedirect

  type Routes = map<Key, RouteContext>

  ghost predicate AllAligned(routes: Routes) {
    forall k :: k in routes ==> Aligned(routes[k].rules, routes[k].sources)
  }

  ghost predicate AllFresh(routes: Routes) {
    forall k :: k in routes ==> FreshlyAligned(routes[k].rules, routes[k].sources)
  }

  /** Every source of a passthrough ingress asks for a service port, as all but resource backends do. */
  predicate PortedRule(sources: seq<BackendSource>, keys: set<Key>) {
    forall j :: 0 <= j < |sources| && FromPassthrough(sources[j], keys) ==> HasPort(sources[j].backend)
  }

  predicate Ported(sources: seq<seq<BackendSource>>, keys: set<Key>) {
    forall i :: 0 <= i < |sources| ==> PortedRule(sources[i], keys)
  }

  ghost predicate AllPorted(routes: Routes, keys: set<Key>) {
    forall k :: k in routes ==> Ported(routes[k].sources, keys)
  }

  // ---- The passes, each over all routes -----------------------------------------------------------

  function AfterCanary(ctx: RouteContext): RouteContext
    requires AllIndexable(ctx.rules, ctx.sources) && |ctx.sources| == |ctx.rules|
  {
    var r := CanaryRoute(ctx.rules, ctx.sources);
    RouteContext(r.rules + r.newRules, r.sources + r.newSources)
  }

  method CanaryOneRoute(ctx: RouteContext) returns (r: RouteContext, failed: bool)
    requires AllIndexable(ctx.rules, ctx.sources) && |ctx.sources| == |ctx.rules|
    ensures r == AfterCanary(ctx)
  {
    failed := false;
    var rules, sources, newRules, newSources := [], [], [], [];
    for i := 0 to |ctx.rules|
      invariant RouteOutcome(rules, sources, newRules, newSources) == CanaryRoute(ctx.rules[..i], ctx.sources[..i])
    {
      assert ctx.rules[..i + 1][..i] == ctx.rules[..i] && ctx.sources[..i + 1][..i] == ctx.sources[..i];
      var o, f := CanaryOneRule(ctx.rules[i], ctx.sources[i]);
      failed := failed || f;
      rules, sources := rules + [o.rule], sources + [o.sources];
      newRules, newSources := newRules + o.newRules, newSources + o.newSources;
    }
    assert ctx.rules[..|ctx.rules|] == ctx.rules && ctx.sources[..|ctx.sources|] == ctx.sources;
    r := RouteContext(rules + newRules, sources + newSources);
  }

  /** The canary pass has run, once, on every route of a rule group. */
  ghost predicate CanariedAll(was: Routes, now: Routes, groups: seq<Key>) {
    && now.Keys == was.Keys
    && forall k :: k in was ==>
         && |was[k].rules| == |was[k].sources| && AllIndexable(was[k].rules, was[k].sources)
         && now[k] == if k in groups then AfterCanary(was[k]) else was[k]
  }

  /** A key that several rule groups have is that of a route without header canaries. */
  ghost predicate OnceOrHeaderless(routes: Routes, groups: seq<Key>) {
    forall i, j :: 0 <= i < j < |groups| && groups[i] == groups[j] && groups[i] in routes ==>
      !AnyHeaderPaired(routes[groups[i]].sources)
  }

  /** A second run is in range exactly without a header canary, and then changes nothing. */
  lemma {:induction false} SecondRunIsInRangeIff(ctx: RouteContext)
    requires AllIndexable(ctx.rules, ctx.sources) && |ctx.sources| == |ctx.rules|
    ensures var r := AfterCanary(ctx);
      && (AllIndexable(r.rules, r.sources) <==> !AnyHeaderPaired(ctx.sources))
      && (AllIndexable(r.rules, r.sources) ==> AfterCanary(r) == r)
  {
    var r := CanaryRoute(ctx.rules, ctx.sources);
    if AnyHeaderPaired(ctx.sources) {
      HeaderRunsOutOfRange(ctx.rules, ctx.sources);
      AppendedIsOutOfRange(r.rules, r.sources, r.newRules, r.newSources);
    } else {
      CanaryRouteAgain(ctx.rules, ctx.sources);
      assert r.rules + r.newRules == r.rules && r.sources + r.newSources == r.sources;
    }
  }

  lemma {:induction false} AppendedIsOutOfRange(rules: seq<Rule>, sources: seq<seq<BackendSource>>,
                                                newRules: seq<Rule>, newSources: seq<seq<BackendSource>>)
    requires |rules| == |sources| && |newRules| == |newSources| && !AllIndexable(newRules, newSources)
    ensures !AllIndexable(rules + newRules, sources + newSources)
  {
    var i :| 0 <= i < |newRules| && !Indexable(newRules[i], newSources[i]);
    var k := |rules| + i;
    assert (rules + newRules)[k] == newRules[i] && (sources + newSources)[k] == newSources[i];
  }

  /** `groups` are the route keys of the rule groups, in the order of a map. */
  method CanaryFeature(groups: seq<Key>, ir: ProviderIR) returns (failed: bool)
    requires AllFresh(ir.httpRoutes) && OnceOrHeaderless(ir.httpRoutes, groups)
    modifies ir
    ensures CanariedAll(old(ir.httpRoutes), ir.httpRoutes, groups) && ir.tlsRoutes == old(ir.tlsRoutes)
  {
    failed := false;
    ghost var was := ir.httpRoutes;
    FreshIsIndexable(was);
    for i := 0 to |groups|
      invariant CanariedAll(was, ir.httpRoutes, groups[..i]) && ir.tlsRoutes == old(ir.tlsRoutes)
    {
      var key := groups[i];
      ghost var before := ir.httpRoutes;
      if key in ir.httpRoutes {
        if key in groups[..i] {
          SecondRunIsInRangeIff(was[key]);
        }
        var ctx, f := CanaryOneRoute(ir.httpRoutes[key]);
        failed := failed || f;
        ir.httpRoutes := ir.httpRoutes[key := ctx];
      }
      OneMoreCanaried(was, before, ir.httpRoutes, groups, i);
    }
    assert groups[..|groups|] == groups;
  }

  lemma {:induction false} OneMoreCanaried(was: Routes, before: Routes, now: Routes, groups: seq<Key>, i: nat)
    requires i < |groups| && CanariedAll(was, before, groups[..i])
    requires if groups[i] in was then now == before[groups[i] := AfterCanary(was[groups[i]])] else now == before
    ensures CanariedAll(was, now, groups[..i + 1])
  {
    assert groups[..i + 1] == groups[..i] + [groups[i]];
  }

  lemma {:induction false} FreshIsIndexable(routes: Routes)
    requires AllFresh(routes)
    ensures forall k :: k in routes ==>
      |routes[k].rules| == |routes[k].sources| && AllIndexable(routes[k].rules, routes[k].sources)
  {
    forall k | k in routes
      ensures |routes[k].rules| == |routes[k].sources| && AllIndexable(routes[k].rules, routes[k].sources)
    {
      CanaryKeepsAlignment(routes[k].rules, routes[k].sources);
    }
  }

  // ---- When the canary pass is in range -----------------------------------------------------------

  ghost predicate RunnableOn(routes: Routes, key: Key) {
    key in routes ==>
      |routes[key].rules| == |routes[key].sources| && AllIndexable(routes[key].rules, routes[key].sources)
  }

  /** Each group in turn finds a route, if any, on which every index is in range. */
  ghost predicate InRange(routes: Routes, groups: seq<Key>)
    decreases |groups|, 0
  {
    groups == [] ||
      var n := |groups| - 1;
      InRange(routes, groups[..n]) && RunnableOn(AfterGroups(routes, groups[..n]), groups[n])
  }

  ghost function AfterGroups(routes: Routes, groups: seq<Key>): (r: Routes)
    requires InRange(routes, groups)
    ensures r.Keys == routes.Keys
    decreases |groups|, 1
  {
    if groups == [] then routes
    else
      var n := |groups| - 1;
      var before := AfterGroups(routes, groups[..n]);
      if groups[n] in before then before[groups[n] := AfterCanary(before[groups[n]])] else before
  }

  /** On freshly converted routes: exactly if keys are distinct where there is a header canary. */
  lemma {:induction false} CanaryIsInRangeIff(routes: Routes, groups: seq<Key>)
    requires AllFresh(routes)
    ensures InRange(routes, groups) <==> OnceOrHeaderless(routes, groups)
    ensures InRange(routes, groups) ==> CanariedAll(routes, AfterGroups(routes, groups), groups)
    decreases |groups|
  {
    FreshIsIndexable(routes);
    if groups != [] {
      var n := |groups| - 1;
      var k := groups[n];
      CanaryIsInRangeIff(routes, groups[..n]);
      OneMoreOnce(routes, groups);
      if InRange(routes, groups[..n]) {
        if k in routes && k in groups[..n] {
          SecondRunIsInRangeIff(routes[k]);
        }
        if RunnableOn(AfterGroups(routes, groups[..n]), k) {
          OneMoreCanaried(routes, AfterGroups(routes, groups[..n]), AfterGroups(routes, groups), groups, n);
          assert groups[..n + 1] == groups;
        }
      }
    }
  }

  lemma {:induction false} OneMoreOnce(routes: Routes, groups: seq<Key>)
    requires groups != []
    ensures var n := |groups| - 1;
      OnceOrHeaderless(routes, groups) <==>
        && OnceOrHeaderless(routes, groups[..n])
        && (groups[n] in routes && groups[n] in groups[..n] ==> !AnyHeaderPaired(routes[groups[n]].sources))
  {
    var n := |groups| - 1;
    if groups[n] in groups[..n] {
      var i :| 0 <= i < n && groups[..n][i] == groups[n];
      assert groups[i] == groups[n];
    }
  }

  // ---- The other passes -----------------------------------------------------------------------------

  ghost predicate RedirectedRoute(was: RouteContext, now: RouteContext, parse: UrlParser)
    requires forall s :: s in was.sources ==> Known(s)
  {
    && now.sources == was.sources && |now.rules| == |was.rules|
    && forall i :: 0 <= i < |was.rules| ==>
         now.rules[i] == if i < |was.sources| then AfterRedirect(was.rules[i], was.sources[i], parse) else was.rules[i]
  }

  lemma {:induction false} AlignedIsKnown(routes: Routes, k: Key)
    requires AllAligned(routes) && k in routes
    ensures NginxRedirects.AllKnown(routes[k].sources) && forall s :: s in routes[k].sources ==> Known(s)
  {
    assert Aligned(routes[k].rules, routes[k].sources);
  }

  ghost predicate RedirectedAll(was: Routes, now: Routes, parse: UrlParser) {
    now.Keys == was.Keys && forall k :: k in was ==>
      (forall s :: s in was[k].sources ==> Known(s)) && RedirectedRoute(was[k], now[k], parse)
  }

  method RedirectFeature(parse: UrlParser, ir: ProviderIR)
    requires AllAligned(ir.httpRoutes)
    modifies ir
    ensures AllAligned(ir.httpRoutes) && ir.tlsRoutes == old(ir.tlsRoutes)
    ensures RedirectedAll(old(ir.httpRoutes), ir.httpRoutes, parse)
  {
    ghost var was := ir.httpRoutes;
    var todo := ir.httpRoutes.Keys;
    while todo != {}
      invariant todo <= was.Keys && ir.httpRoutes.Keys == was.Keys && ir.tlsRoutes == old(ir.tlsRoutes)
      invariant AllAligned(ir.httpRoutes)
      invariant forall k :: k in todo ==> ir.httpRoutes[k] == was[k]
      invariant forall k :: k in was && k !in todo ==>
        (forall s :: s in was[k].sources ==> Known(s)) && RedirectedRoute(was[k], ir.httpRoutes[k], parse)
      decreases todo
    {
      var key :| key in todo;
      todo := todo - {key};
      var ctx := ir.httpRoutes[key];
      AlignedIsKnown(ir.httpRoutes, key);
      var rules := RedirectRules(ctx.rules, ctx.sources, parse);
      RedirectsKeepAlignment(ctx.rules, rules, ctx.sources, parse);
      ir.httpRoutes := ir.httpRoutes[key := RouteContext(rules, ctx.sources)];
    }
  }

  /** What a pass makes of a rule may depend on its route, on its place there and on all sources. */
  type RuleChange = (Key, RouteContext, nat) -> Rule

  ghost predicate LeavesBackends(change: RuleChange) {
    forall key: Key, ctx: RouteContext, i: nat :: i < |ctx.rules| ==>
      change(key, ctx, i).backends == ctx.rules[i].backends
  }

  /** The rules changed one by one, the sources left. */
  ghost predicate ChangedRoute(key: Key, was: RouteContext, now: RouteContext, change: RuleChange) {
    && now.sources == was.sources && |now.rules| == |was.rules|
    && forall i :: 0 <= i < |was.rules| ==> now.rules[i] == change(key, was, i)
  }

  ghost predicate ChangedAll(was: Routes, now: Routes, change: RuleChange) {
    now.Keys == was.Keys && forall k :: k in was ==> ChangedRoute(k, was[k], now[k], change)
  }

  /** The passes that leave backends alone: header modifiers, regular-expression paths and the like. */
  method OtherFeature(change: RuleChange, ir: ProviderIR)
    requires AllAligned(ir.httpRoutes) && LeavesBackends(change)
    modifies ir
    ensures AllAligned(ir.httpRoutes) && ir.tlsRoutes == old(ir.tlsRoutes)
    ensures ChangedAll(old(ir.httpRoutes), ir.httpRoutes, change)
  {
    ghost var was := ir.httpRoutes;
    var todo := ir.httpRoutes.Keys;
    while todo != {}
      invariant todo <= was.Keys && ir.httpRoutes.Keys == was.Keys && ir.tlsRoutes == old(ir.tlsRoutes)
      invariant AllAligned(ir.httpRoutes)
      invariant forall k :: k in todo ==> ir.httpRoutes[k] == was[k]
      invariant forall k :: k in was && k !in todo ==> ChangedRoute(k, was[k], ir.httpRoutes[k], change)
      decreases todo
    {
      var key :| key in todo;
      todo := todo - {key};
      var ctx := ir.httpRoutes[key];
      var rules := seq(|ctx.rules|, i requires 0 <= i < |ctx.rules| => change(key, ctx, i));
      SameBackendsKeepAlignment(ctx.rules, rules, ctx.sources);
      ir.httpRoutes := ir.httpRoutes[key := RouteContext(rules, ctx.sources)];
    }
  }

  /** The first rule with a usable app root becomes its redirect if it matches "/" exactly; otherwise
      a rule for that is added, without a source. */
  ghost predicate AppRooted(was: RouteContext, now: RouteContext, isAbsolute: string -> bool) {
    NginxRedirects.AllKnown(was.sources) &&
    var i := AppRootIndex(was.rules, was.sources, isAbsolute);
    if i == |was.rules| then now == was
    else
      var path := Annotation(GetNonCanaryIngress(was.sources[i]).value, "nginx.ingress.kubernetes.io/app-root");
      var redirect := Redirect(None, None, None, Some(302), Some(path));
      if MatchesExactRoot(was.rules[i])
      then now == RouteContext(was.rules[i := Redirected(was.rules[i], redirect)], was.sources)
      else
        var rule := Rule([NewRouteMatch(Exact, "/")], [RequestRedirect(redirect)], []);
        now == RouteContext(was.rules + [rule], was.sources + [[]])
  }

  ghost predicate AppRootedAll(was: Routes, now: Routes, isAbsolute: string -> bool) {
    now.Keys == was.Keys && forall k :: k in was ==> AppRooted(was[k], now[k], isAbsolute)
  }

  method AppRootFeature(isAbsolute: string -> bool, ir: ProviderIR)
    requires AllAligned(ir.httpRoutes)
    modifies ir
    ensures AllAligned(ir.httpRoutes) && ir.tlsRoutes == old(ir.tlsRoutes)
    ensures AppRootedAll(old(ir.httpRoutes), ir.httpRoutes, isAbsolute)
  {
    ghost var was := ir.httpRoutes;
    var todo := ir.httpRoutes.Keys;
    while todo != {}
      invariant todo <= was.Keys && ir.httpRoutes.Keys == was.Keys && ir.tlsRoutes == old(ir.tlsRoutes)
      invariant AllAligned(ir.httpRoutes)
      invariant forall k :: k in todo ==> ir.httpRoutes[k] == was[k]
      invariant forall k :: k in was && k !in todo ==> AppRooted(was[k], ir.httpRoutes[k], isAbsolute)
      decreases todo
    {
      var key :| key in todo;
      todo := todo - {key};
      var ctx := ir.httpRoutes[key];
      var rooted := AppRootOneRoute(ctx, isAbsolute);
      ir.httpRoutes := ir.httpRoutes[key := rooted];
    }
  }

  /** The turn of one route. */
  method AppRootOneRoute(ctx: RouteContext, isAbsolute: string -> bool) returns (r: RouteContext)
    requires Aligned(ctx.rules, ctx.sources)
    ensures AppRooted(ctx, r, isAbsolute) && Aligned(r.rules, r.sources)
  {
    assert forall i :: 0 <= i < |ctx.sources| ==> AlignedRule(ctx.rules[i], ctx.sources[i]) && Known(ctx.sources[i]);
    var rules, sources := AppRoot(ctx.rules, ctx.sources, isAbsolute);
    r := RouteContext(rules, sources);
  }

  // ---- The chain ------------------------------------------------------------------------------------

  lemma {:induction false} CanaryKeepsAll(was: Routes, now: Routes, groups: seq<Key>, keys: set<Key>)
    requires AllFresh(was) && CanariedAll(was, now, groups)
    ensures AllAligned(now) && (AllPorted(was, keys) ==> AllPorted(now, keys))
  {
    forall k | k in now
      ensures Aligned(now[k].rules, now[k].sources)
      ensures Ported(was[k].sources, keys) ==> Ported(now[k].sources, keys)
    {
      assert FreshlyAligned(was[k].rules, was[k].sources);
      CanaryKeepsAlignment(was[k].rules, was[k].sources);
      if Ported(was[k].sources, keys) {
        CanaryKeepsPorted(was[k].rules, was[k].sources, keys);
      }
    }
  }

  lemma {:induction false} OutcomePorted(rule: Rule, sources: seq<BackendSource>, keys: set<Key>)
    requires Indexable(rule, sources) && PortedRule(sources, keys)
    ensures var o := CanaryOutcome(rule, sources); PortedRule(o.sources, keys) && Ported(o.newSources, keys)
  {
    if Paired(sources) {
      var c := FirstMarked(sources);
      var most := sources[..|rule.backends|];
      assert forall k :: 0 <= k < |Without(most, c)| ==>
        Without(most, c)[k] == sources[if k < c then k else k + 1];
    }
  }

  lemma {:induction false} CanaryKeepsPorted(rules: seq<Rule>, sources: seq<seq<BackendSource>>, keys: set<Key>)
    requires AllIndexable(rules, sources) && |rules| == |sources| && Ported(sources, keys)
    ensures var r := CanaryRoute(rules, sources); Ported(r.sources, keys) && Ported(r.newSources, keys)
  {
    if rules != [] {
      var n := |rules| - 1;
      CanaryKeepsPorted(rules[..n], sources[..n], keys);
      OutcomePorted(rules[n], sources[n], keys);
    }
  }

  lemma {:induction false} AlignedHavePorts(routes: Routes, keys: set<Key>)
    requires AllAligned(routes) && AllPorted(routes, keys)
    ensures PortsKnown(routes, keys)
  {
    forall k | k in routes
      ensures AllPassingHavePorts(Pairs(routes[k].rules, routes[k].sources), keys)
    {
      assert Aligned(routes[k].rules, routes[k].sources) && Ported(routes[k].sources, keys);
      PairsHavePorts(routes[k].rules, routes[k].sources, keys);
    }
  }

  lemma {:induction false} PairsHavePorts(rules: seq<Rule>, sources: seq<seq<BackendSource>>, keys: set<Key>)
    requires |rules| <= |sources| && Ported(sources, keys)
    requires forall i :: 0 <= i < |rules| ==> AlignedRule(rules[i], sources[i]) && Known(sources[i])
    ensures AllPassingHavePorts(Pairs(rules, sources), keys)
  {
    if rules != [] {
      var n := |rules| - 1;
      PairsHavePorts(rules[..n], sources, keys);
      forall p | p in RulePairs(rules[n].backends, sources[n]) && Passes(p, keys)
        ensures HasPort(p.backend)
      {
        var j :| 0 <= j < |rules[n].backends| && p == RulePairs(rules[n].backends, sources[n])[j];
        assert PortedRule(sources[n], keys) && Unweighted(rules[n].backends[j]) == sources[n][j].backend;
        assert sources[n][j] in sources[n];
      }
    }
  }

  lemma {:induction false} PassthroughKeepsAll(was: Routes, now: Routes, tls: map<Key, seq<BackendRef>>, keys: set<Key>)
    requires AllAligned(was) && PortsKnown(was, keys) && now.Keys <= was.Keys
    requires forall k :: k in was ==> Handled(k, was, now, tls, keys)
    ensures AllAligned(now)
  {
    forall k | k in now
      ensures Aligned(now[k].rules, now[k].sources)
    {
      assert Handled(k, was, now, tls, keys) && Aligned(was[k].rules, was[k].sources);
      StripKeepsOrderAndSources(was[k].rules, was[k].sources, keys);
    }
  }

  /** Passthrough has been sorted out: `tls` has the routes that it made. */
  ghost predicate PassedAll(was: Routes, now: Routes, tls: map<Key, seq<BackendRef>>, keys: set<Key>) {
    && PortsKnown(was, keys) && now.Keys <= was.Keys
    && forall k :: k in was ==> Handled(k, was, now, tls, keys)
  }

  /** The passes before passthrough, with the routes after each. */
  method RunUntilPassthrough(groups: seq<Key>, parse: UrlParser, change1: RuleChange, change2: RuleChange,
                             ghost keys: set<Key>, ir: ProviderIR)
      returns (failed: bool, ghost s1: Routes, ghost s2: Routes, ghost s3: Routes)
    requires AllFresh(ir.httpRoutes) && AllPorted(ir.httpRoutes, keys) && OnceOrHeaderless(ir.httpRoutes, groups)
    requires LeavesBackends(change1) && LeavesBackends(change2)
    modifies ir
    ensures CanariedAll(old(ir.httpRoutes), s1, groups) && ChangedAll(s1, s2, change1)
    ensures RedirectedAll(s2, s3, parse) && ChangedAll(s3, ir.httpRoutes, change2)
    ensures AllAligned(ir.httpRoutes) && AllPorted(ir.httpRoutes, keys)
  {
    ghost var s0 := ir.httpRoutes;
    failed := CanaryFeature(groups, ir);
    s1 := ir.httpRoutes;
    CanaryKeepsAll(s0, s1, groups, keys);
    OtherFeature(change1, ir);
    s2 := ir.httpRoutes;
    RedirectFeature(parse, ir);
    s3 := ir.httpRoutes;
    OtherFeature(change2, ir);
    StagesKeepPorts(s1, s2, s3, ir.httpRoutes, parse, change1, change2, keys);
  }

  /** `s1` to `s5` are the routes after each pass but the last. */
  ghost predicate Ran(was: Routes, s1: Routes, s2: Routes, s3: Routes, s4: Routes, s5: Routes, now: Routes,
                      tls: map<Key, seq<BackendRef>>, ingresses: seq<Ingress>, groups: seq<Key>, parse: UrlParser,
                      isAbsolute: string -> bool, change1: RuleChange, change2: RuleChange) {
    && CanariedAll(was, s1, groups)
    && ChangedAll(s1, s2, change1)
    && RedirectedAll(s2, s3, parse)
    && ChangedAll(s3, s4, change2)
    && PassedAll(s4, s5, tls, PassthroughKeys(ingresses))
    && AppRootedAll(s5, now, isAbsolute)
  }

  /**
   All passes in their order, on routes as the conversion of plain ingresses leaves them. When rule
   groups share a route key only without header canaries, no pass indexes out of range, and in the end
   every rule still has a source list whose positions name the origin of its backends.
   */
  method RunFeatures(ingresses: seq<Ingress>, groups: seq<Key>, parse: UrlParser, isAbsolute: string -> bool,
                     change1: RuleChange, change2: RuleChange, ir: ProviderIR)
      returns (failed: bool, ghost s1: Routes, ghost s2: Routes, ghost s3: Routes, ghost s4: Routes, ghost s5: Routes)
    requires AllFresh(ir.httpRoutes) && AllPorted(ir.httpRoutes, PassthroughKeys(ingresses))
    requires OnceOrHeaderless(ir.httpRoutes, groups)
    requires LeavesBackends(change1) && LeavesBackends(change2)
    modifies ir
    ensures Ran(old(ir.httpRoutes), s1, s2, s3, s4, s5, ir.httpRoutes,
              ir.tlsRoutes, ingresses, groups, parse, isAbsolute, change1, change2)
    ensures AllAligned(ir.httpRoutes)
  {
    ghost var keys := PassthroughKeys(ingresses);
    failed, s1, s2, s3 := RunUntilPassthrough(groups, parse, change1, change2, keys, ir);
    s4 := ir.httpRoutes;
    AlignedHavePorts(s4, keys);
    SslPassthroughFeature(ingresses, ir);
    s5 := ir.httpRoutes;
    PassthroughKeepsAll(s4, s5, ir.tlsRoutes, keys);
    AppRootFeature(isAbsolute, ir);
  }

  lemma {:induction false} StagesKeepPorts(a: Routes, b: Routes, c: Routes, d: Routes, parse: UrlParser,
                                           change1: RuleChange, change2: RuleChange, keys: set<Key>)
    requires AllPorted(a, keys) && ChangedAll(a, b, change1) && RedirectedAll(b, c, parse) && ChangedAll(c, d, change2)
    ensures AllPorted(d, keys)
  {
    forall k | k in d
      ensures d[k].sources == a[k].sources
    {
      assert ChangedRoute(k, a[k], b[k], change1) && ChangedRoute(k, c[k], d[k], change2);
      assert RedirectedRoute(b[k], c[k], parse);
    }
  }

  // ---- Where the passes meet --------------------------------------------------------------------------

  /** An app root that needs a rule of its own gets one without a source, and such a rule has no
      counterpart on port 80. */
  lemma {:induction false} NewAppRootIsMissingOnPortEighty(p: NginxSslRedirect.ProviderRoute,
                                                           route: NginxSslRedirect.Route,
                                        sources: seq<seq<BackendSource>>)
    requires p.sources == sources + [[]] && |p.sources| == |route.rules|
    requires NginxSslRedirect.AllKnown(p.sources)
    ensures NginxSslRedirect.MatchLists(NginxSslRedirect.HttpRoute(p, route).rules)
         != NginxSslRedirect.MatchLists(NginxSslRedirect.MainRules(route))
  {
    assert |p.sources[|sources|]| == 0;
    NginxSslRedirect.PortsSelectAlikeIffSourced(p, route);
  }
}
