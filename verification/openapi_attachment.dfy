/**
 Which listeners the routes of the OpenAPI 3.x provider are attached to
 (pkg/i2gw/providers/openapi3/converter.go), and so over which schemes they serve: a route without a
 section is attached to every listener of its gateway.
 */
module OpenAPIAttachment {
  import opened CommonNames
  import opened Grouping
  import opened OpenAPIOperations
  import opened OpenAPIRoutes
  import opened OpenAPIRouting
  import opened Optional
  import opened Strings

  /** A host as a listener or a route writes it: the wildcard alone covers all hosts. */
  predicate Covers(pattern: string, host: string) {
    pattern == "*" || pattern == host
  }

  predicate IsScheme(scheme: string) {
    scheme == "http" || scheme == "https"
  }

  ghost predicate Attaches(route: Route, groups: seq<string>, listener: string) {
    listener in Declared(groups) && (route.section.None? || route.section == Some(ListenerName(listener)))
  }

  /** A request over a scheme for a host comes in through a listener of that scheme that covers the host, and
      is served by a route that is attached to it, covers the host too and has the match. */
  ghost predicate Serves(routes: seq<Route>, groups: seq<string>, scheme: string, host: string, m: Match) {
    exists route, lhost, rhost ::
      && route in routes && Attaches(route, groups, scheme + "://" + lhost) && Covers(lhost, host)
      && rhost in Served(route) && Covers(rhost, host) && HasMatch(route, m)
  }

  ghost predicate AsksFor(matchers: seq<Matcher>, scheme: string, host: string, m: Match) {
    exists x :: x in matchers && x.protocol == scheme && Covers(x.host, host) && MatchOf(x.rule) == m
  }

  // ---- When schemes are kept ----------------------------------------------------------------------------

  predicate Overlap(a: string, b: string) {
    a == "*" || b == "*" || a == b
  }

  /** The narrower of two patterns that overlap. */
  function Meet(a: string, b: string): string {
    if a == "*" then b else a
  }

  /** Matches that ask for several listeners: wherever one of their hosts overlaps with the host of any
      other listener, they ask for its scheme there too. */
  ghost predicate SchemesAgree(matchers: seq<Matcher>) {
    forall x, y ::
      && x in matchers && y in matchers
      && |ListenersOf(matchers, x.rule)| > 1 && Overlap(x.host, y.host) ==>
        AsksOver(matchers, x.rule, y.protocol, Meet(x.host, y.host))
  }

  ghost predicate AsksOver(matchers: seq<Matcher>, rule: RuleMatcher, scheme: string, host: string) {
    exists z :: z in matchers && z.rule == rule && z.protocol == scheme && Covers(z.host, host)
  }

  lemma {:induction false} SchemeOfListener(scheme: string, host: string, m: Matcher)
    requires Valid(m) && IsScheme(scheme) && ListenerOf(m) == scheme + "://" + host
    ensures m.protocol == scheme && m.host == host
  {
    var l, s := ListenerOf(m), scheme + "://" + host;
    assert l[4] == if m.protocol == "http" then ':' else 's';
    assert s[4] == if scheme == "http" then ':' else 's';
    assert l[|scheme| + 3..] == m.host && s[|scheme| + 3..] == host;
  }

  /** Listeners of one name have one scheme. */
  lemma {:induction false} NameTellsScheme(a: Matcher, b: Matcher)
    requires Valid(a) && Valid(b) && ListenerName(ListenerOf(a)) == ListenerName(ListenerOf(b))
    ensures a.protocol == b.protocol
  {
    EndsInScheme(a);
    EndsInScheme(b);
  }

  lemma {:induction false} EndsInScheme(m: Matcher)
    requires Valid(m)
    ensures var name := ListenerName(ListenerOf(m)); name != "" && (name[|name| - 1] == 's' <==> m.protocol == "https")
  {
    var uri, name := ListenerOf(m), ListenerName(ListenerOf(m));
    assert uri[|m.protocol| + 3..] == m.host;
    assert uri[..|m.protocol| + 3] == m.protocol + "://";
    if m.protocol == "http" {
      assert uri[4] == ':' && "https://"[4] == 's';
    }
    assert HostIn(m.host) == Some(m.host) by {
      var k := Find(m.host, '/');
      assert m.host[..k] == m.host;
    }
    assert AuthorityOf(uri) == Some(Authority(m.protocol, m.host));
    assert name[|name| - 1] == m.protocol[|m.protocol| - 1];
  }

  // ---- Listeners of a match -------------------------------------------------------------------------------

  /** The parts of a group are the listeners of each of its matches. */
  lemma {:induction false} PartsAre(matchers: seq<Matcher>, r: RuleMatcher)
    requires CommaFree(matchers) && r in RulesIn(matchers) && forall x :: x in matchers ==> Valid(x)
    ensures Split(GroupOf(matchers, r), HOST_SEPARATOR) == ListenersOf(matchers, r)
  {
    var key := (m: Matcher) => m.rule;
    var xs, listeners := OfKey(matchers, key, r), ListenersOf(matchers, r);
    OfKeyIs(matchers, key, r);
    forall i | 0 <= i < |xs|
      ensures HOST_SEPARATOR !in listeners[i]
    {
      assert xs[i] in xs;
    }
    SplitJoin(listeners, HOST_SEPARATOR);
  }

  lemma {:induction false} ListenerIsThere(matchers: seq<Matcher>, x: Matcher)
    requires x in matchers
    ensures ListenerOf(x) in ListenersOf(matchers, x.rule) && x.rule in RulesIn(matchers)
  {
    var key := (m: Matcher) => m.rule;
    var xs := OfKey(matchers, key, x.rule);
    OfKeyIs(matchers, key, x.rule);
    FirstKeysAreDistinct(matchers, key);
    assert x in xs;
    var i :| 0 <= i < |xs| && xs[i] == x;
    assert ListenersOf(matchers, x.rule)[i] == ListenerOf(x);
  }

  // ---- The route of a match ---------------------------------------------------------------------------------

  /** A route that has the match of `r` is one of the routes of `r`'s group. */
  ghost predicate IsRouteOf(route: Route, groups: seq<string>, matchers: seq<Matcher>, r: RuleMatcher) {
    && r in RulesIn(matchers)
    && route.section == SectionOf(groups, GroupOf(matchers, r))
    && Served(route) == ServedBy(HostnamesOf(HostsOf(GroupOf(matchers, r))))
  }

  lemma {:induction false} GroupRouteIs(c: Config, groups: seq<string>, at: nat, ms: seq<RuleMatcher>, j: nat)
    requires at < |groups| && j < RoutesFor(|ms|)
    ensures var route := GroupRoute(c, |groups|, at, TargetOf(groups, groups[at]), ms, j);
      route.section == SectionOf(groups, groups[at]) && Served(route) == ServedBy(HostnamesOf(HostsOf(groups[at])))
  {
  }

  lemma {:induction false} MemberOfGroup(matchers: seq<Matcher>, groups: seq<string>,
                                         byGroup: map<string, seq<RuleMatcher>>, g: nat, k: nat)
    requires IsGrouping(matchers, groups, byGroup) && g < |groups| && k < |byGroup[groups[g]]|
    ensures byGroup[groups[g]][k] in RulesIn(matchers) && GroupOf(matchers, byGroup[groups[g]][k]) == groups[g]
  {
    GroupingIs(matchers, groups, byGroup);
    assert groups[g] in groups && byGroup[groups[g]][k] in byGroup[groups[g]];
  }

  lemma {:induction false} RuleOfRoute(c: Config, matchers: seq<Matcher>, groups: seq<string>,
                                       byGroup: map<string, seq<RuleMatcher>>, route: Route, m: Match)
    returns (r: RuleMatcher)
    requires IsGrouping(matchers, groups, byGroup) && route in RoutesOf(c, groups, byGroup, |groups|)
    requires HasMatch(route, m)
    ensures MatchOf(r) == m && IsRouteOf(route, groups, matchers, r)
  {
    var i, p :| 0 <= i < |route.rules| && 0 <= p < |route.rules[i].matches| && route.rules[i].matches[p] == m;
    var g, j := MatcherBehind(c, groups, byGroup, route, i, p);
    GroupRouteIs(c, groups, g, byGroup[groups[g]], j);
    MemberOfGroup(matchers, groups, byGroup, g, 128 * j + 8 * i + p);
    r := byGroup[groups[g]][128 * j + 8 * i + p];
  }

  lemma {:induction false} RouteOfRule(c: Config, matchers: seq<Matcher>, groups: seq<string>,
                                       byGroup: map<string, seq<RuleMatcher>>, r: RuleMatcher)
    returns (route: Route)
    requires IsGrouping(matchers, groups, byGroup) && r in RulesIn(matchers)
    ensures route in RoutesOf(c, groups, byGroup, |groups|) && HasMatch(route, MatchOf(r))
    ensures IsRouteOf(route, groups, matchers, r)
  {
    GroupingIs(matchers, groups, byGroup);
    var g := GroupOf(matchers, r);
    assert g in byGroup && g in groups && r in byGroup[g];
    var at :| 0 <= at < |groups| && groups[at] == g;
    var k :| 0 <= k < |byGroup[g]| && byGroup[g][k] == r;
    MatchIsServed(c, |groups|, at, TargetOf(groups, g), byGroup[g], k);
    RouteOfOrigin(c, groups, byGroup, |groups|, at, k / 128);
    route := GroupRoute(c, |groups|, at, TargetOf(groups, g), byGroup[g], k / 128);
  }

  /** The hosts of a match's routes are those of its matchers. */
  lemma {:induction false} HostsOfRule(matchers: seq<Matcher>, r: RuleMatcher, host: string)
    requires CommaFree(matchers) && r in RulesIn(matchers) && forall x :: x in matchers ==> Valid(x)
    ensures host in ServedBy(HostnamesOf(HostsOf(GroupOf(matchers, r)))) <==>
            exists x :: x in matchers && x.rule == r && x.host == host
  {
    ServedHosts(GroupOf(matchers, r), host);
    HostsOfGroup(matchers, r, host);
  }

  lemma {:induction false} OnlyOne(s: seq<string>, a: string, b: string)
    requires |s| <= 1 && a in s && b in s
    ensures a == b
  {
  }

  /** A section that the routes of a match name is that of the one listener of its matchers. */
  lemma {:induction false} SectionOfRule(matchers: seq<Matcher>, groups: seq<string>, x: Matcher)
    requires CommaFree(matchers) && (forall x :: x in matchers ==> Valid(x)) && x in matchers
    ensures var section := SectionOf(groups, GroupOf(matchers, x.rule));
      && (section.Some? ==> section == Some(ListenerName(ListenerOf(x))))
      && (section.None? <==> |Declared(groups)| <= 1 || |ListenersOf(matchers, x.rule)| > 1)
  {
    ListenerIsThere(matchers, x);
    PartsAre(matchers, x.rule);
    if |ListenersOf(matchers, x.rule)| == 1 {
      OnlyOne(ListenersOf(matchers, x.rule), ListenersOf(matchers, x.rule)[0], ListenerOf(x));
    }
  }

  /** Everything that is asked for is served over the scheme that it is asked for. */
  lemma {:induction false} AskedIsServed(c: Config, matchers: seq<Matcher>, groups: seq<string>,
                                         byGroup: map<string, seq<RuleMatcher>>, scheme: string, host: string, m: Match)
    requires IsGrouping(matchers, groups, byGroup) && CommaFree(matchers) && forall x :: x in matchers ==> Valid(x)
    requires AsksFor(matchers, scheme, host, m)
    ensures Serves(RoutesOf(c, groups, byGroup, |groups|), groups, scheme, host, m)
  {
    var x :| x in matchers && x.protocol == scheme && Covers(x.host, host) && MatchOf(x.rule) == m;
    ListenerIsThere(matchers, x);
    DeclaredAreAsked(matchers, groups, byGroup);
    var route := RouteOfRule(c, matchers, groups, byGroup, x.rule);
    HostsOfRule(matchers, x.rule, x.host);
    SectionOfRule(matchers, groups, x);
    assert Attaches(route, groups, scheme + "://" + x.host);
  }

  /** A route with a section is attached to listeners of one scheme only; one without is attached to all, which
      is harmless if schemes agree. */
  lemma {:induction false} SchemeIsAsked(matchers: seq<Matcher>, groups: seq<string>, x: Matcher, y: Matcher,
                                         host: string)
    requires CommaFree(matchers) && (forall x :: x in matchers ==> Valid(x)) && SchemesAgree(matchers)
    requires x in matchers && y in matchers && host != "*" && Covers(x.host, host) && Covers(y.host, host)
    requires ListenerOf(x) in Declared(groups) && ListenerOf(y) in Declared(groups)
    ensures SectionOf(groups, GroupOf(matchers, x.rule)) in {None, Some(ListenerName(ListenerOf(y)))} ==>
      AsksFor(matchers, y.protocol, host, MatchOf(x.rule))
  {
    SectionOfRule(matchers, groups, x);
    if |ListenersOf(matchers, x.rule)| > 1 {
      assert AsksOver(matchers, x.rule, y.protocol, Meet(x.host, y.host));
      var z :| z in matchers && z.rule == x.rule && z.protocol == y.protocol && Covers(z.host, Meet(x.host, y.host));
      assert Covers(z.host, host);
    } else if |Declared(groups)| > 1 {
      if ListenerName(ListenerOf(x)) == ListenerName(ListenerOf(y)) {
        NameTellsScheme(x, y);
      }
    } else {
      OnlyOne(Declared(groups), ListenerOf(x), ListenerOf(y));
      SchemeOfListener(x.protocol, x.host, y);
    }
  }

  lemma {:induction false} ServedIsAsked(c: Config, matchers: seq<Matcher>, groups: seq<string>,
                                         byGroup: map<string, seq<RuleMatcher>>, scheme: string, host: string, m: Match)
    requires IsGrouping(matchers, groups, byGroup) && CommaFree(matchers) && forall x :: x in matchers ==> Valid(x)
    requires SchemesAgree(matchers) && IsScheme(scheme) && host != "*"
    requires Serves(RoutesOf(c, groups, byGroup, |groups|), groups, scheme, host, m)
    ensures AsksFor(matchers, scheme, host, m)
  {
    var route, lhost, rhost :|
      && route in RoutesOf(c, groups, byGroup, |groups|) && Attaches(route, groups, scheme + "://" + lhost)
      && Covers(lhost, host) && rhost in Served(route) && Covers(rhost, host) && HasMatch(route, m);
    var r := RuleOfRoute(c, matchers, groups, byGroup, route, m);
    HostsOfRule(matchers, r, rhost);
    var x :| x in matchers && x.rule == r && x.host == rhost;
    DeclaredAreAsked(matchers, groups, byGroup);
    var y :| y in matchers && ListenerOf(y) == scheme + "://" + lhost;
    SchemeOfListener(scheme, lhost, y);
    SchemeIsAsked(matchers, groups, x, y, host);
  }

  /** A host that no matcher has. */
  lemma {:induction false} FreshHost(matchers: seq<Matcher>) returns (host: string)
    ensures |host| > 1 && forall x :: x in matchers ==> |x.host| < |host|
  {
    if matchers == [] {
      host := "aa";
    } else {
      var n := |matchers| - 1;
      var other := FreshHost(matchers[..n]);
      host := other + matchers[n].host + "a";
      assert matchers == matchers[..n] + [matchers[n]];
    }
  }

  /** Where schemes do not agree a request is served over a scheme that nothing asks for. */
  lemma {:induction false} DisagreementIsServed(c: Config, matchers: seq<Matcher>, groups: seq<string>,
                                                byGroup: map<string, seq<RuleMatcher>>)
    returns (scheme: string, host: string, m: Match)
    requires IsGrouping(matchers, groups, byGroup) && CommaFree(matchers) && forall x :: x in matchers ==> Valid(x)
    requires !SchemesAgree(matchers)
    ensures IsScheme(scheme) && host != "*"
    ensures Serves(RoutesOf(c, groups, byGroup, |groups|), groups, scheme, host, m)
    ensures !AsksFor(matchers, scheme, host, m)
  {
    var x, y :| x in matchers && y in matchers && |ListenersOf(matchers, x.rule)| > 1 && Overlap(x.host, y.host)
      && !AsksOver(matchers, x.rule, y.protocol, Meet(x.host, y.host));
    var other := FreshHost(matchers);
    var meet := Meet(x.host, y.host);
    scheme, host, m := y.protocol, if meet == "*" then other else meet, MatchOf(x.rule);
    forall z | z in matchers && z.protocol == scheme && Covers(z.host, host)
      ensures MatchOf(z.rule) != m
    {
      MatchOfInjective(z.rule, x.rule);
      assert Covers(z.host, meet);
    }
    var route := AttachedToAll(c, matchers, groups, byGroup, x);
    DeclaredAreAsked(matchers, groups, byGroup);
    assert ListenerOf(y) in Declared(groups);
    assert Attaches(route, groups, scheme + "://" + y.host) && Covers(y.host, host) && Covers(x.host, host);
  }

  /** A match with several listeners has a route that is attached to all. */
  lemma {:induction false} AttachedToAll(c: Config, matchers: seq<Matcher>, groups: seq<string>,
                                         byGroup: map<string, seq<RuleMatcher>>, x: Matcher)
    returns (route: Route)
    requires IsGrouping(matchers, groups, byGroup) && CommaFree(matchers) && forall x :: x in matchers ==> Valid(x)
    requires x in matchers && |ListenersOf(matchers, x.rule)| > 1
    ensures route in RoutesOf(c, groups, byGroup, |groups|) && HasMatch(route, MatchOf(x.rule))
    ensures route.section == None && x.host in Served(route)
  {
    ListenerIsThere(matchers, x);
    PartsAre(matchers, x.rule);
    route := RouteOfRule(c, matchers, groups, byGroup, x.rule);
    HostsOfRule(matchers, x.rule, x.host);
    SectionOfRule(matchers, groups, x);
  }

  /**
   Over each scheme the routes serve exactly the requests that the spec asks to serve over it if and only
   if schemes agree.
   */
  lemma {:induction false} SchemesAreKeptIff(c: Config, matchers: seq<Matcher>, groups: seq<string>,
                                             byGroup: map<string, seq<RuleMatcher>>)
    requires IsGrouping(matchers, groups, byGroup) && CommaFree(matchers) && forall x :: x in matchers ==> Valid(x)
    ensures (forall scheme, host, m :: IsScheme(scheme) && host != "*" ==>
              (Serves(RoutesOf(c, groups, byGroup, |groups|), groups, scheme, host, m) <==>
               AsksFor(matchers, scheme, host, m)))
            <==> SchemesAgree(matchers)
  {
    var rs := RoutesOf(c, groups, byGroup, |groups|);
    if SchemesAgree(matchers) {
      forall scheme, host, m | IsScheme(scheme) && host != "*"
        ensures Serves(rs, groups, scheme, host, m) <==> AsksFor(matchers, scheme, host, m)
      {
        if Serves(rs, groups, scheme, host, m) {
          ServedIsAsked(c, matchers, groups, byGroup, scheme, host, m);
        }
        if AsksFor(matchers, scheme, host, m) {
          AskedIsServed(c, matchers, groups, byGroup, scheme, host, m);
        }
      }
    } else {
      var scheme, host, m := DisagreementIsServed(c, matchers, groups, byGroup);
    }
  }

  // ---- In terms of operations -----------------------------------------------------------------------------

  /** Some operation asks for that match over the scheme, at a server for the host. */
  ghost predicate OperationAsksOver(ops: seq<Operation>, scheme: string, host: string, m: Match) {
    exists o, pattern :: o in ops && AsksServer(o.uri, scheme, pattern) && Covers(pattern, host) && AsksMatch(o, m)
  }

  lemma {:induction false} AskedOverByOperations(ops: seq<Operation>, scheme: string, host: string, m: Match)
    requires NamesArePlainIn(ops)
    ensures OperationAsksOver(ops, scheme, host, m) <==> AsksFor(MatchersFor(ops), scheme, host, m)
  {
    MatcherIsThere(ops);
    forall o | o in ops
      ensures AsksMatch(o, m) <==> MatchOf(MatcherFor(o).rule) == m
      ensures AsksServer(o.uri, MatcherFor(o).protocol, MatcherFor(o).host)
      ensures forall pattern :: AsksServer(o.uri, scheme, pattern) ==>
        MatcherFor(o).protocol == scheme && MatcherFor(o).host == pattern
    {
      MatchAsked(o, m);
      MatcherSaysWhatIsAsked(o);
    }
  }

  /** From operations to requests: for hosts and names without commas the routes serve over each scheme exactly
      what the operations ask to serve over it, if and only if schemes agree. */
  lemma {:induction false} OperationsAreServedOverSchemesIff(c: Config, ops: seq<Operation>, groups: seq<string>,
                                                             byGroup: map<string, seq<RuleMatcher>>)
    requires IsGrouping(MatchersFor(ops), groups, byGroup) && HostsAreCommaFree(ops) && NamesArePlainIn(ops)
    ensures (forall scheme, host, m :: IsScheme(scheme) && host != "*" ==>
              (Serves(RoutesOf(c, groups, byGroup, |groups|), groups, scheme, host, m) <==>
               OperationAsksOver(ops, scheme, host, m)))
            <==> SchemesAgree(MatchersFor(ops))
  {
    MatcherIsThere(ops);
    CommaFreeOperations(ops);
    SchemesAreKeptIff(c, MatchersFor(ops), groups, byGroup);
    forall scheme, host, m
      ensures OperationAsksOver(ops, scheme, host, m) <==> AsksFor(MatchersFor(ops), scheme, host, m)
    {
      AskedOverByOperations(ops, scheme, host, m);
    }
  }

  lemma {:induction false} OnlyOverHttp(matchers: seq<Matcher>, x: Matcher, w: Matcher, y: Matcher)
    requires matchers == [x, w, y] && x.protocol == w.protocol == "http" && y.protocol == "https"
    requires y.rule != x.rule && x.host == y.host && |ListenersOf(matchers, x.rule)| > 1
    ensures !SchemesAgree(matchers)
  {
    assert x in matchers && y in matchers && |"http"| != |"https"|;
    forall z | z in matchers && z.rule == x.rule
      ensures z.protocol == "http"
    {
    }
    assert !AsksOver(matchers, x.rule, y.protocol, Meet(x.host, y.host));
  }

  /** GET at two servers over http, and POST at one of their hosts over https. */
  const MIXED := [Operation("http://a", "", "/x", "GET", [], []), Operation("http://b", "", "/x", "GET", [], []),
                  Operation("https://a", "", "/y", "POST", [], [])]

  lemma {:induction false} MixedMatchers()
    ensures var get, post := RuleMatcher("/x", "GET", "", ""), RuleMatcher("/y", "POST", "", "");
      MatchersFor(MIXED) == [Matcher("http", "a", get), Matcher("http", "b", get), Matcher("https", "a", post)]
  {
    MixedServer(MIXED[0], "http", "a");
    MixedServer(MIXED[1], "http", "b");
    MixedServer(MIXED[2], "https", "a");
  }

  lemma {:induction false} MixedServer(o: Operation, scheme: string, host: string)
    requires Names(o.uri, scheme, host, "")
    ensures MatcherFor(o).protocol == scheme && MatcherFor(o).host == host
    ensures o.basePath == "" ==> MatcherFor(o).rule.path == o.relativePath
    ensures o.headers == [] && o.params == [] ==> MatcherFor(o).rule.headers == "" && MatcherFor(o).rule.params == ""
  {
    MatcherSaysWhatIsAsked(o);
    assert NamesServer(o.uri, scheme, host);
    assert AsksServer(o.uri, scheme, host);
    assert "" + o.relativePath == o.relativePath;
  }

  lemma {:induction false} TwoListeners(matchers: seq<Matcher>, x: Matcher, w: Matcher)
    requires x in matchers && w in matchers && x.rule == w.rule && x.host != w.host && Valid(x) && Valid(w)
    ensures |ListenersOf(matchers, x.rule)| > 1
  {
    ListenerIsThere(matchers, x);
    ListenerIsThere(matchers, w);
    if ListenerOf(x) == ListenerOf(w) {
      SchemeOfListener(x.protocol, x.host, w);
    }
  }

  /** The GET is then also served over https, which nobody asks for. */
  lemma {:induction false} MixedSchemesDisagree()
    ensures !SchemesAgree(MatchersFor(MIXED))
  {
    MixedMatchers();
    MatcherIsThere(MIXED);
    var ms := MatchersFor(MIXED);
    var x, w, y := ms[0], ms[1], ms[2];
    assert x in ms && w in ms && y in ms && "a"[0] != "b"[0];
    TwoListeners(ms, x, w);
    OnlyOverHttp(ms, x, w, y);
  }
}
