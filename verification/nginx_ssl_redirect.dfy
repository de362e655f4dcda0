module NginxSslRedirect {
  /**
   The split of a route into one for port 80 and one for port 443
   (pkg/i2gw/providers/ingressnginx/redirect.go, addSSLAndTrailingSlashRedirects).
   */

  import opened BackendSources
  import opened Gateway
  import opened Grouping
  import opened NginxSources
  import opened NginxTrailingSlash
  import opened Optional

  const SSL_REDIRECT_ANNOTATION := "nginx.ingress.kubernetes.io/ssl-redirect"

  datatype ParentRef = ParentRef(name: string, port: Option<int>, section: Option<string>)

  /** An HTTPRoute of the emitter's representation, without its name, which is its key. */
  datatype Route = Route(hostnames: seq<string>, parents: seq<ParentRef>, rules: seq<Rule>)

  /** What the provider's representation adds: `RuleBackendSources`. Routes are kept by their name. */
  datatype ProviderRoute = ProviderRoute(hostnames: seq<string>, parents: seq<ParentRef>,
                                         sources: seq<seq<BackendSource>>)

  datatype TLSBlock = TLSBlock(hosts: seq<string>)

  datatype IngressSpec = IngressSpec(tls: seq<TLSBlock>, ruleHosts: seq<string>)

  // ---- Hosts with TLS -----------------------------------------------------------------------------

  function NonEmpty(hosts: seq<string>): set<string> {
    set h | h in hosts && h != ""
  }

  /** TLS blocks are read up to the first that names no host, which stands for all rule hosts. */
  function TLSHostsOf(tls: seq<TLSBlock>, ruleHosts: seq<string>): set<string> {
    if tls == [] then {}
    else if |tls[0].hosts| > 0 then (set h | h in tls[0].hosts) + TLSHostsOf(tls[1..], ruleHosts)
    else NonEmpty(ruleHosts)
  }

  ghost function TLSHosts(ingresses: seq<IngressSpec>): set<string> {
    set i: nat, h | i < |ingresses| && h in TLSHostsOf(ingresses[i].tls, ingresses[i].ruleHosts) :: h
  }

  method CollectTLSHosts(ingresses: seq<IngressSpec>) returns (hosts: set<string>)
    ensures hosts == TLSHosts(ingresses)
  {
    hosts := {};
    for i := 0 to |ingresses|
      invariant hosts == TLSHosts(ingresses[..i])
    {
      var ing := ingresses[i];
      ghost var before := hosts;
      var j := 0;
      while j < |ing.tls|
        invariant 0 <= j <= |ing.tls|
        invariant hosts + TLSHostsOf(ing.tls[j..], ing.ruleHosts) == before + TLSHostsOf(ing.tls, ing.ruleHosts)
        decreases |ing.tls| - j
      {
        var tls := ing.tls[j];
        assert ing.tls[j..][1..] == ing.tls[j + 1..];
        if |tls.hosts| > 0 {
          hosts := hosts + set h | h in tls.hosts;
          j := j + 1;
        } else {
          hosts := hosts + NonEmpty(ing.ruleHosts);
          break;
        }
      }
      assert hosts == before + TLSHostsOf(ing.tls, ing.ruleHosts);
      TLSHostsGrow(ingresses, i);
    }
    assert ingresses[..|ingresses|] == ingresses;
  }

  lemma {:induction false} TLSHostsGrow(ingresses: seq<IngressSpec>, i: nat)
    requires i < |ingresses|
    ensures TLSHosts(ingresses[..i + 1]) ==
      TLSHosts(ingresses[..i]) + TLSHostsOf(ingresses[i].tls, ingresses[i].ruleHosts)
  {
    var last := TLSHostsOf(ingresses[i].tls, ingresses[i].ruleHosts);
    forall h | h in last
      ensures h in TLSHosts(ingresses[..i + 1])
    {
      assert ingresses[..i + 1][i] == ingresses[i];
    }
    forall h | h in TLSHosts(ingresses[..i])
      ensures h in TLSHosts(ingresses[..i + 1])
    {
      var k: nat :| k < i && h in TLSHostsOf(ingresses[..i][k].tls, ingresses[..i][k].ruleHosts);
      assert ingresses[..i + 1][k] == ingresses[k];
    }
    forall h | h in TLSHosts(ingresses[..i + 1])
      ensures h in TLSHosts(ingresses[..i]) || h in last
    {
      var k: nat :| k < i + 1 && h in TLSHostsOf(ingresses[..i + 1][k].tls, ingresses[..i + 1][k].ruleHosts);
      if k < i {
        assert ingresses[..i][k] == ingresses[k];
      }
    }
  }

  /** Block `j` names the host, or names none and stands for the hosts of the rules; no block before it
      does that, for the reading ends there. */
  predicate BlockCovers(ingress: IngressSpec, j: nat, host: string)
    requires j < |ingress.tls|
  {
    && (forall k :: 0 <= k < j ==> ingress.tls[k].hosts != [])
    && if ingress.tls[j].hosts != [] then host in ingress.tls[j].hosts else host in ingress.ruleHosts && host != ""
  }

  lemma {:induction false} TLSHostsOfIs(ingress: IngressSpec, from: nat, host: string)
    requires from <= |ingress.tls| && forall k :: 0 <= k < from ==> ingress.tls[k].hosts != []
    ensures host in TLSHostsOf(ingress.tls[from..], ingress.ruleHosts) <==>
      exists j :: from <= j < |ingress.tls| && BlockCovers(ingress, j, host)
    decreases |ingress.tls| - from
  {
    if from < |ingress.tls| {
      assert ingress.tls[from..][1..] == ingress.tls[from + 1..];
      if ingress.tls[from].hosts != [] {
        TLSHostsOfIs(ingress, from + 1, host);
        assert BlockCovers(ingress, from, host) <==> host in ingress.tls[from].hosts;
      } else {
        assert BlockCovers(ingress, from, host) <==> host in NonEmpty(ingress.ruleHosts);
      }
    }
  }

  /** A host has TLS if and only if a TLS block of some ingress covers it. */
  lemma {:induction false} HostHasTLSIff(ingresses: seq<IngressSpec>, host: string)
    ensures host in TLSHosts(ingresses) <==>
      exists i, j :: 0 <= i < |ingresses| && 0 <= j < |ingresses[i].tls| && BlockCovers(ingresses[i], j, host)
  {
    forall i | 0 <= i < |ingresses|
      ensures host in TLSHostsOf(ingresses[i].tls, ingresses[i].ruleHosts) <==>
        exists j :: 0 <= j < |ingresses[i].tls| && BlockCovers(ingresses[i], j, host)
    {
      TLSHostsOfIs(ingresses[i], 0, host);
      assert ingresses[i].tls[0..] == ingresses[i].tls;
    }
  }

  // ---- One route ------------------------------------------------------------------------------------

  /** The redirect is on unless the annotation is there and does not parse as true. */
  predicate RedirectEnabled(ingress: Ingress) {
    SSL_REDIRECT_ANNOTATION in ingress.annotations ==> ParseBool(ingress.annotations[SSL_REDIRECT_ANNOTATION])
  }

  const HTTPS_REDIRECT := RequestRedirect(Redirect(Some("https"), None, None, Some(308), None))

  function HttpRule(rule: Rule, primary: Ingress): Rule {
    if RedirectEnabled(primary) then Rule(rule.matches, [HTTPS_REDIRECT], []) else rule
  }

  predicate AllKnown(sources: seq<seq<BackendSource>>) {
    forall s :: s in sources ==> Known(s)
  }

  predicate Sourced(sources: seq<seq<BackendSource>>) {
    forall i :: 0 <= i < |sources| ==> |sources[i]| > 0
  }

  /** Does position `i` of the sources give port 80 a rule, and is that rule a redirect? */
  predicate GivesRule(sources: seq<seq<BackendSource>>, rules: seq<Rule>, i: nat)
    requires i < |sources|
  {
    sources[i] != [] && i < |rules|
  }

  predicate GivesRedirect(sources: seq<seq<BackendSource>>, rules: seq<Rule>, i: nat)
    requires i < |sources| && Known(sources[i])
  {
    GivesRule(sources, rules, i) && RedirectEnabled(GetNonCanaryIngress(sources[i]).value)
  }

  /** The rules of the port-80 route before the trailing-slash redirects. */
  function HttpRules(sources: seq<seq<BackendSource>>, rules: seq<Rule>): seq<Rule>
    requires AllKnown(sources)
  {
    if sources == [] then []
    else
      var n := |sources| - 1;
      HttpRules(sources[..n], rules) +
        if GivesRule(sources, rules, n) then [HttpRule(rules[n], GetNonCanaryIngress(sources[n]).value)] else []
  }

  predicate HasRedirect(sources: seq<seq<BackendSource>>, rules: seq<Rule>)
    requires AllKnown(sources)
  {
    exists i: nat :: i < |sources| && GivesRedirect(sources, rules, i)
  }

  /** A trailing-slash redirect that also upgrades to https. */
  function Combined(target: string): Rule
    requires IsSlashed(target)
  {
    Rule([NewRouteMatch(Exact, SourceOf(target))],
         [RequestRedirect(Redirect(Some("https"), None, None, Some(301), Some(target)))],
         [])
  }

  function Pin(parents: seq<ParentRef>, port: int): (r: seq<ParentRef>)
    ensures |r| == |parents| && forall i :: 0 <= i < |r| ==> r[i] == parents[i].(port := Some(port))
  {
    seq(|parents|, i requires 0 <= i < |parents| => parents[i].(port := Some(port)))
  }

  /** `HttpsSection` is the name of a host's https listener. */
  function PinHttps(parents: seq<ParentRef>, section: Option<string>): (r: seq<ParentRef>)
    ensures |r| == |parents|
    ensures forall i :: 0 <= i < |r| ==>
      r[i] == ParentRef(parents[i].name, Some(443), if section.Some? then section else parents[i].section)
  {
    seq(|parents|, i requires 0 <= i < |parents| =>
      ParentRef(parents[i].name, Some(443), if section.Some? then section else parents[i].section))
  }

  ghost function MainRules(route: Route): seq<Rule> {
    route.rules + TrailingSlashRules(route.rules)
  }

  ghost predicate Splits(p: ProviderRoute, route: Route, tls: set<string>)
    requires AllKnown(p.sources)
  {
    (exists h :: h in p.hostnames && h in tls) && HasRedirect(p.sources, MainRules(route))
  }

  ghost function CombinedRules(rules: seq<Rule>): (r: seq<Rule>)
    ensures |r| == |TrailingSlashRules(rules)|
  {
    var targets := Targets(Paths(rules), Paths(rules));
    seq(|targets|, i requires 0 <= i < |targets| => Combined(targets[i]))
  }

  ghost function HttpRoute(p: ProviderRoute, route: Route): Route
    requires AllKnown(p.sources)
  {
    Route(p.hostnames, Pin(p.parents, 80), HttpRules(p.sources, MainRules(route)) + CombinedRules(route.rules))
  }

  ghost function MainRoute(p: ProviderRoute, route: Route, tls: set<string>, section: string -> string): Route
    requires AllKnown(p.sources)
  {
    var main := route.(rules := MainRules(route));
    if Splits(p, route, tls) then
      main.(parents := PinHttps(route.parents,
        if |route.hostnames| > 0 then Some(section(route.hostnames[0])) else None))
    else main
  }

  /** The loop over the rule sources. */
  method BuildHttpRules(sources: seq<seq<BackendSource>>, rules: seq<Rule>)
      returns (httpRules: seq<Rule>, hasRedirect: bool)
    requires AllKnown(sources)
    ensures httpRules == HttpRules(sources, rules)
    ensures hasRedirect <==> HasRedirect(sources, rules)
  {
    httpRules, hasRedirect := [], false;
    for i := 0 to |sources|
      invariant httpRules == HttpRules(sources[..i], rules)
      invariant hasRedirect <==> exists k: nat :: k < i && GivesRedirect(sources, rules, k)
    {
      assert sources[..i + 1][..i] == sources[..i] && sources[i] in sources;
      var ingress := GetNonCanaryIngress(sources[i]);
      if ingress.None? {
        continue;
      }
      if i >= |rules| {
        continue;
      }
      var enableRedirect := true;
      if SSL_REDIRECT_ANNOTATION in ingress.value.annotations {
        enableRedirect := ParseBool(ingress.value.annotations[SSL_REDIRECT_ANNOTATION]);
      }
      if enableRedirect {
        hasRedirect := true;
        assert GivesRedirect(sources, rules, i);
        httpRules := httpRules + [Rule(rules[i].matches, [HTTPS_REDIRECT], [])];
      } else {
        httpRules := httpRules + [rules[i]];
      }
    }
    assert sources[..|sources|] == sources;
  }

  /** What one round of the loop over the routes computes. */
  method SplitRoute(p: ProviderRoute, route: Route, tls: set<string>, section: string -> string)
      returns (main: Route, http: Option<Route>)
    requires AllKnown(p.sources) && InBounds(Paths(route.rules))
    ensures main == MainRoute(p, route, tls, section)
    ensures http == if Splits(p, route, tls) then Some(HttpRoute(p, route)) else None
  {
    var redirects := BuildTrailingSlashRedirectRules(route.rules);
    main := route.(rules := route.rules + redirects);
    http := None;
    var hostHasTLS := false;
    for i := 0 to |p.hostnames|
      invariant hostHasTLS <==> exists h :: h in p.hostnames[..i] && h in tls
    {
      if p.hostnames[i] in tls {
        hostHasTLS := true;
      }
    }
    if !hostHasTLS {
      return;
    }
    var httpRules, hasRedirect := BuildHttpRules(p.sources, main.rules);
    if !hasRedirect {
      return;
    }
    assert Splits(p, route, tls);
    ghost var combined := CombinedRules(route.rules);
    for i := 0 to |redirects|
      invariant httpRules == HttpRules(p.sources, main.rules) + combined[..i]
    {
      assert combined[..i + 1] == combined[..i] + [combined[i]];
      var redirect := redirects[i].filters[0].redirect;
      httpRules := httpRules + [redirects[i].(filters := [RequestRedirect(redirect.(scheme := Some("https")))])];
    }
    assert combined[..|redirects|] == combined;
    http := Some(Route(p.hostnames, Pin(p.parents, 80), httpRules));
    main := main.(parents := PinHttps(main.parents,
      if |main.hostnames| > 0 then Some(section(main.hostnames[0])) else None));
  }

  // ---- All routes -----------------------------------------------------------------------------------

  function HttpKey(key: Key): Key {
    Key(key.namespace, key.name + "-http")
  }

  lemma {:induction false} HttpKeyInjective(k: Key, k': Key)
    ensures HttpKey(k) == HttpKey(k') <==> k == k'
    ensures HttpKey(k) != k && HttpKey(k).namespace == k.namespace && HttpKey(k).name == k.name + "-http"
  {
    assert HttpKey(k).name[..|k.name|] == k.name;
    assert HttpKey(k').name[..|k'.name|] == k'.name;
  }

  ghost predicate SplitsIn(k: Key, p: ProviderRoute, routes: map<Key, Route>, tls: set<string>)
    requires AllKnown(p.sources)
  {
    k in routes && Splits(p, routes[k], tls)
  }

  ghost predicate SourcesKnown(pir: map<Key, ProviderRoute>) {
    forall k :: k in pir ==> AllKnown(pir[k].sources)
  }

  /** No route that splits would give its port-80 half the name of another. */
  ghost predicate NamesAreFree(pir: map<Key, ProviderRoute>, was: map<Key, Route>, tls: set<string>)
    requires SourcesKnown(pir)
  {
    forall k :: k in pir && SplitsIn(k, pir[k], was, tls) ==> HttpKey(k) !in pir
  }

  /** One round of the loop. */
  ghost function AfterRoute(key: Key, p: ProviderRoute, was: map<Key, Route>,
                            tls: set<string>, section: string -> string): map<Key, Route>
    requires AllKnown(p.sources)
  {
    if key !in was then was
    else
      var split := if Splits(p, was[key], tls) then was[HttpKey(key) := HttpRoute(p, was[key])] else was;
      split[key := MainRoute(p, was[key], tls, section)]
  }

  /** The rounds for these keys of the map, one after the other. */
  ghost function AfterAll(order: seq<Key>, pir: map<Key, ProviderRoute>, was: map<Key, Route>,
                          tls: set<string>, section: string -> string): map<Key, Route>
    requires SourcesKnown(pir)
    decreases |order|
  {
    if order == [] then was
    else
      var n := |order| - 1;
      var before := AfterAll(order[..n], pir, was, tls, section);
      if order[n] in pir then AfterRoute(order[n], pir[order[n]], before, tls, section) else before
  }

  /** The keys of the map, in the order in which the loop takes them. */
  ghost predicate IsOrderOf(order: seq<Key>, pir: map<Key, ProviderRoute>) {
    NoDuplicates(order) && forall k :: k in order <==> k in pir
  }

  /** What the source needs in order not to fail: known sources, and routes whose prefixes can be tested.
      A route may be replaced by the port-80 half of another, which can be tested if there is no empty
      prefix at all. */
  ghost predicate SafeToSplit(pir: map<Key, ProviderRoute>, was: map<Key, Route>, tls: set<string>) {
    && SourcesKnown(pir)
    && (forall k :: k in pir && k in was ==> InBounds(Paths(was[k].rules)))
    && (NamesAreFree(pir, was, tls) || AllWithoutEmptyPrefix(pir, was))
  }

  ghost predicate AllWithoutEmptyPrefix(pir: map<Key, ProviderRoute>, routes: map<Key, Route>) {
    forall k :: k in pir && k in routes ==> NoEmptyPrefix(Paths(routes[k].rules))
  }

  /** The HTTPRoutes of the emitter's representation, which the pass updates in place. */
  class EmitterIR {
    var httpRoutes: map<Key, Route>

    constructor (httpRoutes: map<Key, Route>)
      ensures this.httpRoutes == httpRoutes
    {
      this.httpRoutes := httpRoutes;
    }

    /** One round of the loop. */
    method ProcessRoute(key: Key, p: ProviderRoute, tls: set<string>, section: string -> string)
      requires AllKnown(p.sources) && (key in httpRoutes ==> InBounds(Paths(httpRoutes[key].rules)))
      modifies this
      ensures httpRoutes == AfterRoute(key, p, old(httpRoutes), tls, section)
    {
      if key in httpRoutes {
        var main, http := SplitRoute(p, httpRoutes[key], tls, section);
        if http.Some? {
          httpRoutes := httpRoutes[HttpKey(key) := http.value];
        }
        httpRoutes := httpRoutes[key := main];
      }
    }

    /** The pass: one round for each route, in some order. */
    method AddSSLAndTrailingSlashRedirects(ingresses: seq<IngressSpec>, pir: map<Key, ProviderRoute>,
                                           section: string -> string)
      returns (ghost order: seq<Key>)
      requires SafeToSplit(pir, httpRoutes, TLSHosts(ingresses))
      modifies this
      ensures IsOrderOf(order, pir)
      ensures httpRoutes == AfterAll(order, pir, old(httpRoutes), TLSHosts(ingresses), section)
    {
      ghost var was := httpRoutes;
      var tls := CollectTLSHosts(ingresses);
      order := [];
      var todo := pir.Keys;
      while todo != {}
        invariant todo <= pir.Keys && NoDuplicates(order) && forall k :: k in order <==> k in pir && k !in todo
        invariant httpRoutes == AfterAll(order, pir, was, tls, section)
        decreases todo
      {
        var key :| key in todo;
        todo := todo - {key};
        NextIsInBounds(order, key, pir, was, tls, section);
        ProcessRoute(key, pir[key], tls, section);
        assert (order + [key])[..|order|] == order;
        order := order + [key];
      }
    }
  }

  lemma {:induction false} NextIsInBounds(order: seq<Key>, key: Key, pir: map<Key, ProviderRoute>, was: map<Key, Route>,
                                          tls: set<string>, section: string -> string)
    requires SafeToSplit(pir, was, tls) && NoDuplicates(order + [key]) && forall k :: k in order + [key] ==> k in pir
    ensures var now := AfterAll(order, pir, was, tls, section);
      key in now ==> InBounds(Paths(now[key].rules))
  {
    assert key in order + [key] && key !in order by { NoDuplicatesAppend(order, key); }
    assert forall k :: k in order ==> k in order + [key];
    if NamesAreFree(pir, was, tls) {
      NoDuplicatesAppend(order, key);
      RoundsKeepOthers(order, pir, was, tls, section, key);
    } else {
      RoundsKeepOutEmptyPrefixes(order, key, pir, was, tls, section);
      var now := AfterAll(order, pir, was, tls, section);
      if key in now {
        NoEmptyPrefixIsInBounds(Paths(now[key].rules));
      }
    }
  }

  // ---- Without empty prefixes -------------------------------------------------------------------------

  lemma {:induction false} RoundsKeepOutEmptyPrefixes(order: seq<Key>, key: Key, pir: map<Key, ProviderRoute>,
                                                      was: map<Key, Route>,
                                                      tls: set<string>, section: string -> string)
    requires SourcesKnown(pir) && AllWithoutEmptyPrefix(pir, was) && forall k :: k in order ==> k in pir
    ensures AllWithoutEmptyPrefix(pir, AfterAll(order, pir, was, tls, section))
  {
    if order != [] {
      var n := |order| - 1;
      var k := order[n];
      RoundsKeepOutEmptyPrefixes(order[..n], key, pir, was, tls, section);
      var before := AfterAll(order[..n], pir, was, tls, section);
      if k in before {
        SplitIsWithoutEmptyPrefix(pir[k], before[k], tls, section);
      }
    }
  }

  /** Both halves match nothing by an empty prefix if the route does not. */
  lemma {:induction false} SplitIsWithoutEmptyPrefix(p: ProviderRoute, route: Route, tls: set<string>,
                                                     section: string -> string)
    requires AllKnown(p.sources) && NoEmptyPrefix(Paths(route.rules))
    ensures NoEmptyPrefix(Paths(HttpRoute(p, route).rules))
    ensures NoEmptyPrefix(Paths(MainRoute(p, route, tls, section).rules))
  {
    NoEmptyPrefixIff(route.rules);
    HttpRulesComeFromMain(p.sources, MainRules(route));
    forall r | r in HttpRoute(p, route).rules
      ensures SafeMatches(r.matches)
    {
      RuleIsSafe(p, route, r);
    }
    NoEmptyPrefixIff(HttpRoute(p, route).rules);
    NoEmptyPrefixIff(MainRules(route));
  }

  lemma {:induction false} RuleIsSafe(p: ProviderRoute, route: Route, rule: Rule)
    requires AllKnown(p.sources)
    requires forall r :: r in route.rules ==> SafeMatches(r.matches)
    requires rule in HttpRoute(p, route).rules
    ensures SafeMatches(rule.matches)
  {
    if rule !in CombinedRules(route.rules) {
      HttpRulesComeFromMain(p.sources, MainRules(route));
      var main :| main in MainRules(route) && main.matches == rule.matches;
      assert main in route.rules || main in TrailingSlashRules(route.rules);
    }
  }

  lemma {:induction false} HttpRulesComeFromMain(sources: seq<seq<BackendSource>>, rules: seq<Rule>)
    requires AllKnown(sources)
    ensures forall r :: r in HttpRules(sources, rules) ==> exists m :: m in rules && m.matches == r.matches
  {
    if sources != [] {
      HttpRulesComeFromMain(sources[..|sources| - 1], rules);
    }
  }

  // ---- What the rounds amount to ----------------------------------------------------------------------

  ghost predicate Kept(k: Key, was: map<Key, Route>, now: map<Key, Route>) {
    (k in was <==> k in now) && (k in was ==> was[k] == now[k])
  }

  /** The route of key `k` has been split as it should. */
  ghost predicate Processed(k: Key, p: ProviderRoute, was: map<Key, Route>, now: map<Key, Route>,
                            tls: set<string>, section: string -> string)
    requires AllKnown(p.sources)
  {
    && (k in was <==> k in now)
    && (k in was ==> now[k] == MainRoute(p, was[k], tls, section))
    && (SplitsIn(k, p, was, tls) ==> HttpKey(k) in now && now[HttpKey(k)] == HttpRoute(p, was[k]))
  }

  /** Key `k` is the port-80 half of a route of the list that splits. */
  ghost predicate Gained(k: Key, order: seq<Key>, pir: map<Key, ProviderRoute>, was: map<Key, Route>, tls: set<string>)
    requires SourcesKnown(pir) && forall k :: k in order ==> k in pir
  {
    exists k0 :: k0 in order && k == HttpKey(k0) && SplitsIn(k0, pir[k0], was, tls)
  }

  /** Rounds for other keys leave a route alone, with free names. */
  lemma {:induction false} RoundsKeepOthers(order: seq<Key>, pir: map<Key, ProviderRoute>, was: map<Key, Route>,
                                            tls: set<string>, section: string -> string, key: Key)
    requires SourcesKnown(pir) && NamesAreFree(pir, was, tls)
    requires NoDuplicates(order) && (forall k :: k in order ==> k in pir) && key !in order
    ensures Gained(key, order, pir, was, tls) || Kept(key, was, AfterAll(order, pir, was, tls, section))
    ensures key in pir ==> Kept(key, was, AfterAll(order, pir, was, tls, section))
  {
    if order != [] {
      var n := |order| - 1;
      var k := order[n];
      NoDuplicatesAppend(order[..n], k);
      assert order == order[..n] + [k];
      RoundsKeepOthers(order[..n], pir, was, tls, section, key);
      RoundsKeepOthers(order[..n], pir, was, tls, section, k);
      if SplitsIn(k, pir[k], was, tls) && key == HttpKey(k) {
        assert Gained(key, order, pir, was, tls);
      }
      if Gained(key, order[..n], pir, was, tls) {
        var k0 :| k0 in order[..n] && key == HttpKey(k0) && SplitsIn(k0, pir[k0], was, tls);
        assert k0 in order;
      }
    }
  }

  lemma {:induction false} RoundsProcess(order: seq<Key>, pir: map<Key, ProviderRoute>, was: map<Key, Route>,
                                         tls: set<string>, section: string -> string, key: Key)
    requires SourcesKnown(pir) && NamesAreFree(pir, was, tls)
    requires NoDuplicates(order) && (forall k :: k in order ==> k in pir) && key in order
    ensures Processed(key, pir[key], was, AfterAll(order, pir, was, tls, section), tls, section)
  {
    var n := |order| - 1;
    var k := order[n];
    NoDuplicatesAppend(order[..n], k);
    assert order == order[..n] + [k];
    RoundsKeepOthers(order[..n], pir, was, tls, section, k);
    HttpKeyInjective(k, key);
    HttpKeyInjective(key, k);
    if key != k {
      RoundsProcess(order[..n], pir, was, tls, section, key);
    }
  }

  /** With free names, whatever the order, every route is split as it should, and nothing else is touched. */
  lemma {:induction false} FreeNamesSplitAlone(order: seq<Key>, pir: map<Key, ProviderRoute>, was: map<Key, Route>,
                                               tls: set<string>, section: string -> string)
    requires SourcesKnown(pir) && NamesAreFree(pir, was, tls) && IsOrderOf(order, pir)
    ensures var now := AfterAll(order, pir, was, tls, section);
      && (forall k :: k in pir ==> Processed(k, pir[k], was, now, tls, section))
      && (forall k :: k !in pir ==> Gained(k, order, pir, was, tls) || Kept(k, was, now))
  {
    var now := AfterAll(order, pir, was, tls, section);
    forall k | k in pir
      ensures Processed(k, pir[k], was, now, tls, section)
    {
      RoundsProcess(order, pir, was, tls, section, k);
    }
    forall k | k !in pir
      ensures Gained(k, order, pir, was, tls) || Kept(k, was, now)
    {
      RoundsKeepOthers(order, pir, was, tls, section, k);
    }
  }

  // ---- When names are taken ---------------------------------------------------------------------------

  ghost predicate Takes80(order: seq<Key>, i: nat, pir: map<Key, ProviderRoute>, was: map<Key, Route>,
                          tls: set<string>, section: string -> string)
    requires SourcesKnown(pir) && IsOrderOf(order, pir) && i < |order|
  {
    SplitsIn(order[i], pir[order[i]], AfterAll(order[..i], pir, was, tls, section), tls) && HttpKey(order[i]) in pir
  }

  /** Some round gives the port-80 half of its route the name of another route. */
  ghost predicate Clashes(order: seq<Key>, pir: map<Key, ProviderRoute>, was: map<Key, Route>,
                          tls: set<string>, section: string -> string)
    requires SourcesKnown(pir) && IsOrderOf(order, pir)
  {
    exists i :: 0 <= i < |order| && Takes80(order, i, pir, was, tls, section)
  }

  /** In whatever order, that happens if and only if names are not free. */
  lemma {:induction false} ClashesIff(order: seq<Key>, pir: map<Key, ProviderRoute>, was: map<Key, Route>,
                                      tls: set<string>, section: string -> string)
    requires SourcesKnown(pir) && IsOrderOf(order, pir)
    ensures Clashes(order, pir, was, tls, section) <==> !NamesAreFree(pir, was, tls)
  {
    if NamesAreFree(pir, was, tls) {
      forall i | 0 <= i < |order|
        ensures !Takes80(order, i, pir, was, tls, section)
      {
        assert order[i] !in order[..i];
        RoundsKeepOthers(order[..i], pir, was, tls, section, order[i]);
      }
    } else if !Clashes(order, pir, was, tls, section) {
      var k :| k in pir && SplitsIn(k, pir[k], was, tls) && HttpKey(k) in pir;
      var i :| 0 <= i < |order| && order[i] == k;
      NoClashKeeps(order, i, i, pir, was, tls, section);
      assert Takes80(order, i, pir, was, tls, section);
    }
  }

  lemma {:induction false} NoClashKeeps(order: seq<Key>, i: nat, j: nat, pir: map<Key, ProviderRoute>,
                                        was: map<Key, Route>,
                                        tls: set<string>, section: string -> string)
    requires SourcesKnown(pir) && IsOrderOf(order, pir) && !Clashes(order, pir, was, tls, section) && j <= i < |order|
    ensures Kept(order[i], was, AfterAll(order[..j], pir, was, tls, section))
    decreases j
  {
    if j > 0 {
      NoClashKeeps(order, i, j - 1, pir, was, tls, section);
      assert order[..j][..j - 1] == order[..j - 1];
      assert !Takes80(order, j - 1, pir, was, tls, section);
      assert order[i] != order[j - 1] && order[i] in order;
    } else {
      assert order[..0] == [];
    }
  }

  /** Then the other route is lost: in its place there is in the end the port-80 half of the first, as it
      is if that one's turn comes later, and gone through the pass itself if it comes earlier. */
  lemma {:induction false} TakenNameLosesRoute(order: seq<Key>, i: nat, pir: map<Key, ProviderRoute>,
                                               was: map<Key, Route>,
                                               tls: set<string>, section: string -> string)
    requires SourcesKnown(pir) && IsOrderOf(order, pir) && i < |order| && Takes80(order, i, pir, was, tls, section)
    ensures var before, now, taken := AfterAll(order[..i], pir, was, tls, section),
      AfterAll(order, pir, was, tls, section), HttpKey(order[i]);
      var half := HttpRoute(pir[order[i]], before[order[i]]);
      taken in now && now[taken] == if taken in order[..i] then half else MainRoute(pir[taken], half, tls, section)
  {
    assert order[..|order|] == order;
    HttpKeyInjective(order[i], order[i]);
    TakenNameStays(order, i, |order|, pir, was, tls, section);
    var taken := HttpKey(order[i]);
    if taken !in order[..i] {
      assert taken in order;
    }
  }

  lemma {:induction false} TakenNameStays(order: seq<Key>, i: nat, j: nat, pir: map<Key, ProviderRoute>,
                                          was: map<Key, Route>,
                                          tls: set<string>, section: string -> string)
    requires SourcesKnown(pir) && IsOrderOf(order, pir) && i < j <= |order| && Takes80(order, i, pir, was, tls, section)
    ensures var before, now, taken := AfterAll(order[..i], pir, was, tls, section),
      AfterAll(order[..j], pir, was, tls, section), HttpKey(order[i]);
      var half := HttpRoute(pir[order[i]], before[order[i]]);
      taken in now && now[taken] == if taken in order[i..j] then MainRoute(pir[taken], half, tls, section) else half
    decreases j
  {
    var n := j - 1;
    assert order[..j][..n] == order[..n] && order[..j][n] == order[n];
    HttpKeyInjective(order[i], order[i]);
    if n == i {
      assert order[i..j] == [order[i]];
    } else {
      TakenNameStays(order, i, n, pir, was, tls, section);
      assert order[i..j] == order[i..n] + [order[n]];
      var before := AfterAll(order[..n], pir, was, tls, section);
      assert order[n] in order && order[n] != order[i];
      RoundAt(order[n], pir[order[n]], before, tls, section, order[i]);
      assert order[n] !in order[i..n];
    }
  }

  lemma {:induction false} RoundAt(key: Key, p: ProviderRoute, was: map<Key, Route>, tls: set<string>,
                                   section: string -> string, k: Key)
    requires AllKnown(p.sources) && key != k && HttpKey(k) in was
    ensures var now := AfterRoute(key, p, was, tls, section);
      && HttpKey(k) in now
      && now[HttpKey(k)] == if key == HttpKey(k) then MainRoute(p, was[key], tls, section) else was[HttpKey(k)]
  {
    HttpKeyInjective(key, k);
    HttpKeyInjective(key, key);
  }

  // ---- What the split is worth ------------------------------------------------------------------------

  function MatchLists(rules: seq<Rule>): (r: seq<seq<RouteMatch>>)
    ensures |r| == |rules|
  {
    seq(|rules|, i requires 0 <= i < |rules| => rules[i].matches)
  }

  lemma {:induction false} HttpRulesAligned(sources: seq<seq<BackendSource>>, rules: seq<Rule>)
    requires AllKnown(sources) && |sources| <= |rules| && Sourced(sources)
    ensures |HttpRules(sources, rules)| == |sources|
    ensures forall i :: 0 <= i < |sources| ==>
      HttpRules(sources, rules)[i] == HttpRule(rules[i], GetNonCanaryIngress(sources[i]).value)
  {
    if sources != [] {
      HttpRulesAligned(sources[..|sources| - 1], rules);
    }
  }

  lemma {:induction false} HttpRulesCount(sources: seq<seq<BackendSource>>, rules: seq<Rule>)
    requires AllKnown(sources) && |sources| <= |rules|
    ensures |HttpRules(sources, rules)| <= |sources|
    ensures |HttpRules(sources, rules)| == |sources| <==> Sourced(sources)
  {
    if sources != [] {
      HttpRulesCount(sources[..|sources| - 1], rules);
      assert sources == sources[..|sources| - 1] + [sources[|sources| - 1]];
    }
  }

  /**
   Port 80 and port 443 have the same matches at the same positions, so that whatever a Gateway
   decides by matches it decides alike on both, if and only if every rule has a source.
   */
  lemma {:induction false} PortsSelectAlikeIffSourced(p: ProviderRoute, route: Route)
    requires AllKnown(p.sources) && |p.sources| == |route.rules|
    ensures MatchLists(HttpRoute(p, route).rules) == MatchLists(MainRules(route)) <==> Sourced(p.sources)
  {
    HttpRulesCount(p.sources, MainRules(route));
    var http, main := HttpRoute(p, route).rules, MainRules(route);
    if Sourced(p.sources) {
      HttpRulesAligned(p.sources, main);
      forall i | 0 <= i < |main|
        ensures http[i].matches == main[i].matches
      {
        if i < |route.rules| {
          assert http[i] == HttpRule(main[i], GetNonCanaryIngress(p.sources[i]).value);
        }
      }
      assert MatchLists(http) == MatchLists(main);
    } else {
      assert |MatchLists(http)| < |MatchLists(main)|;
    }
  }

  /** The ingress leaves the redirect to https on: it does not speak of it, or says so in one of the
      spellings of true that Go knows. */
  predicate LeavesRedirectOn(ingress: Ingress) {
    var key := "nginx.ingress.kubernetes.io/ssl-redirect";
    key !in ingress.annotations || ingress.annotations[key] in ["1", "t", "T", "TRUE", "true", "True"]
  }

  /** The source of the first ingress that is no canary, or the first of all if all are. */
  predicate IsPrimary(sources: seq<BackendSource>, i: nat)
    requires Known(sources)
  {
    && i < |sources|
    && if exists j :: 0 <= j < |sources| && !IsCanary(sources[j].ingress.value) then
         !IsCanary(sources[i].ingress.value) && forall j :: 0 <= j < i ==> IsCanary(sources[j].ingress.value)
       else i == 0
  }

  /** The primary ingress of these sources leaves the redirect on. */
  predicate PrimaryLeavesRedirectOn(sources: seq<BackendSource>)
    requires Known(sources)
  {
    exists i :: 0 <= i < |sources| && IsPrimary(sources, i) && LeavesRedirectOn(sources[i].ingress.value)
  }

  lemma {:induction false} PrimaryIs(sources: seq<BackendSource>, i: nat)
    requires Known(sources) && IsPrimary(sources, i)
    ensures GetNonCanaryIngress(sources) == sources[i].ingress
  {
  }

  lemma {:induction false} RedirectIsOnIff(sources: seq<BackendSource>)
    requires Known(sources) && sources != []
    ensures RedirectEnabled(GetNonCanaryIngress(sources).value) <==> PrimaryLeavesRedirectOn(sources)
  {
    var i := FirstNonCanary(sources);
    var primary := if i < |sources| then i else 0;
    assert IsPrimary(sources, primary);
    PrimaryIs(sources, primary);
    forall j | 0 <= j < |sources| && IsPrimary(sources, j)
      ensures j == primary
    {
    }
  }

  /** What port 80 does with each original rule: a 308 to https exactly when its primary ingress leaves
      the redirect on; otherwise the rule itself. */
  lemma {:induction false} PortEightyServes(p: ProviderRoute, route: Route, i: nat)
    requires AllKnown(p.sources) && |p.sources| == |route.rules|
    requires Sourced(p.sources) && i < |route.rules|
    ensures i < |HttpRoute(p, route).rules|
    ensures var rule := HttpRoute(p, route).rules[i];
      if PrimaryLeavesRedirectOn(p.sources[i]) then
        && rule.matches == route.rules[i].matches && rule.backends == []
        && rule.filters == [RequestRedirect(Redirect(Some("https"), None, None, Some(308), None))]
      else rule == route.rules[i]
  {
    RedirectIsOnIff(p.sources[i]);
    HttpRulesAligned(p.sources, MainRules(route));
    assert MainRules(route)[i] == route.rules[i];
    assert HttpRoute(p, route).rules[i] == HttpRule(route.rules[i], GetNonCanaryIngress(p.sources[i]).value);
  }

  /** After the rules for the original ones port 80 has one for each trailing-slash redirect, which goes to
      https in the same hop. */
  lemma {:induction false} SlashRedirectsUpgrade(p: ProviderRoute, route: Route, i: nat)
    requires AllKnown(p.sources) && i < |TrailingSlashRules(route.rules)|
    ensures var rules, redirects := HttpRoute(p, route).rules, TrailingSlashRules(route.rules);
      && |redirects| <= |rules|
      && var rule, redirect := rules[|rules| - |redirects| + i], redirects[i];
         && rule.matches == redirect.matches && rule.backends == []
         && exists source ::
              && redirect.filters == [RequestRedirect(Redirect(None, None, None, Some(301), Some(source + "/")))]
              && rule.filters == [RequestRedirect(Redirect(Some("https"), None, None, Some(301), Some(source + "/")))]
  {
    var target := Targets(Paths(route.rules), Paths(route.rules))[i];
    assert target in Targets(Paths(route.rules), Paths(route.rules));
    assert target == SourceOf(target) + "/";
    assert CombinedRules(route.rules)[i] == Combined(target);
  }

  /** A route splits exactly when one of its hosts has TLS and some rule that it has on port 443 comes from
      a primary ingress that leaves the redirect on. */
  lemma {:induction false} SplitsIff(p: ProviderRoute, route: Route, tls: set<string>)
    requires AllKnown(p.sources)
    ensures Splits(p, route, tls) <==>
      && (exists h :: h in p.hostnames && h in tls)
      && exists i :: 0 <= i < |p.sources| && i < |route.rules| + |TrailingSlashRules(route.rules)|
                     && PrimaryLeavesRedirectOn(p.sources[i])
  {
    var rules := MainRules(route);
    forall i | 0 <= i < |p.sources|
      ensures GivesRedirect(p.sources, rules, i) <==> i < |rules| && PrimaryLeavesRedirectOn(p.sources[i])
    {
      assert p.sources[i] in p.sources;
      if p.sources[i] != [] {
        RedirectIsOnIff(p.sources[i]);
      }
    }
  }

  /** The port-80 route is for the same hosts and the same parents, at port 80; the main route that is
      left keeps its hosts and gets the trailing-slash redirects; if it splits, all its parents are at port
      443, at the https listener of its first host if it has one. */
  lemma {:induction false} HalvesAreBound(p: ProviderRoute, route: Route, tls: set<string>, section: string -> string)
    requires AllKnown(p.sources)
    ensures var http := HttpRoute(p, route);
      && http.hostnames == p.hostnames && |http.parents| == |p.parents|
      && forall i :: 0 <= i < |p.parents| ==>
           http.parents[i] == ParentRef(p.parents[i].name, Some(80), p.parents[i].section)
    ensures var main := MainRoute(p, route, tls, section);
      && main.hostnames == route.hostnames && main.rules == route.rules + TrailingSlashRules(route.rules)
      && |main.parents| == |route.parents|
      && forall i :: 0 <= i < |route.parents| ==>
           var was := route.parents[i];
           && (!Splits(p, route, tls) ==> main.parents[i] == was)
           && (Splits(p, route, tls) && route.hostnames == [] ==>
                 main.parents[i] == ParentRef(was.name, Some(443), was.section))
           && (Splits(p, route, tls) && route.hostnames != [] ==>
                 main.parents[i] == ParentRef(was.name, Some(443), Some(section(route.hostnames[0]))))
  {
  }

  /** The main route is bound to port 443 exactly when a port-80 route takes over the plain traffic. */
  lemma {:induction false} PinnedIffSplit(p: ProviderRoute, route: Route, tls: set<string>, section: string -> string)
    requires AllKnown(p.sources)
    requires |route.parents| > 0 && forall r :: r in route.parents ==> r.port.None?
    ensures (forall r :: r in MainRoute(p, route, tls, section).parents ==> r.port == Some(443)) <==>
      Splits(p, route, tls)
    ensures MainRoute(p, route, tls, section).rules == MainRules(route)
  {
    var main := MainRoute(p, route, tls, section);
    if !Splits(p, route, tls) {
      assert route.parents[0] in main.parents;
    }
  }
}
