module OpenAPIRouting {
  /** What the routes of the OpenAPI 3.x provider do: the limits of the API, names, and the routing. */

  import opened Grouping
  import opened Numerals
  import opened OpenAPIRoutes
  import opened Optional
  import opened Sorting
  import opened Strings

  // ---- Names and limits -------------------------------------------------------------------------------

  lemma {:induction false} RouteNamesDiffer(prefix: string, groups: nat, g: nat, routes: nat, j: nat, g': nat,
                                            routes': nat, j': nat)
    requires g < groups && g' < groups && j < routes && j' < routes' && (g == g' ==> routes == routes')
    requires RouteName(prefix, groups, g, routes, j) == RouteName(prefix, groups, g', routes', j')
    ensures g == g' && j == j'
  {
    var base := prefix + "-route";
    var a, b := Counted(base, groups, g), Counted(base, groups, g');
    assert groups > 1 ==> |a| > |base| && |b| > |base|;
    if routes > 1 && routes' > 1 {
      SplitAtLast(a, Format(j + 1), b, Format(j' + 1), '-');
      FormatInjective(j + 1, j' + 1);
    }
    if groups > 1 {
      if routes <= 1 && routes' > 1 {
        SplitAtLast(base, Format(g + 1), b, Format(j' + 1), '-');
      } else if routes > 1 && routes' <= 1 {
        SplitAtLast(a, Format(j + 1), base, Format(g' + 1), '-');
      } else {
        SplitAtLast(base, Format(g + 1), base, Format(g' + 1), '-');
        FormatInjective(g + 1, g' + 1);
      }
    }
  }

  /** Where a route comes from: group `g`, cut `j`. */
  lemma {:induction false} OriginOfRoute(c: Config, groups: seq<string>, byGroup: map<string, seq<RuleMatcher>>,
                                         k: nat, route: Route)
    returns (g: nat, j: nat)
    requires k <= |groups| && (forall g :: g in groups ==> g in byGroup) && route in RoutesOf(c, groups, byGroup, k)
    ensures g < k && j < RoutesFor(|byGroup[groups[g]]|)
    ensures route == GroupRoute(c, |groups|, g, TargetOf(groups, groups[g]), byGroup[groups[g]], j)
  {
    g := PartOfRoute(ByGroups(c, groups, byGroup, k), route);
    j := CutOfRoute(c, |groups|, g, TargetOf(groups, groups[g]), byGroup[groups[g]], route);
  }

  lemma {:induction false} PartOfRoute(parts: seq<seq<Route>>, route: Route) returns (g: nat)
    requires route in FlatMap(parts, Whole)
    ensures g < |parts| && route in parts[g]
  {
    FlatMapHas(parts, Whole, route);
    var part :| part in parts && route in Whole(part);
    g :| 0 <= g < |parts| && parts[g] == part;
  }

  lemma {:induction false} CutOfRoute(c: Config, groups: nat, g: nat, t: Target, ms: seq<RuleMatcher>, route: Route)
      returns (j: nat)
    requires route in GroupRoutes(c, groups, g, t, ms)
    ensures j < RoutesFor(|ms|) && route == GroupRoute(c, groups, g, t, ms, j)
  {
    var rs := GroupRoutes(c, groups, g, t, ms);
    j :| 0 <= j < |rs| && rs[j] == route;
  }

  lemma {:induction false} CutIsThere(c: Config, groups: nat, g: nat, t: Target, ms: seq<RuleMatcher>, j: nat)
    requires j < RoutesFor(|ms|)
    ensures GroupRoute(c, groups, g, t, ms, j) in GroupRoutes(c, groups, g, t, ms)
  {
    var rs := GroupRoutes(c, groups, g, t, ms);
    assert rs[j] == GroupRoute(c, groups, g, t, ms, j);
  }

  lemma {:induction false} PartIsThere(parts: seq<seq<Route>>, g: nat, route: Route)
    requires g < |parts| && route in parts[g]
    ensures route in FlatMap(parts, Whole)
  {
    FlatMapHas(parts, Whole, route);
    assert parts[g] in parts && route in Whole(parts[g]);
  }

  lemma {:induction false} RouteOfOrigin(c: Config, groups: seq<string>, byGroup: map<string, seq<RuleMatcher>>,
                                         k: nat, g: nat, j: nat)
    requires g < k <= |groups| && (forall g :: g in groups ==> g in byGroup) && j < RoutesFor(|byGroup[groups[g]]|)
    ensures GroupRoute(c, |groups|, g, TargetOf(groups, groups[g]), byGroup[groups[g]], j)
              in RoutesOf(c, groups, byGroup, k)
  {
    var route := GroupRoute(c, |groups|, g, TargetOf(groups, groups[g]), byGroup[groups[g]], j);
    CutIsThere(c, |groups|, g, TargetOf(groups, groups[g]), byGroup[groups[g]], j);
    PartIsThere(ByGroups(c, groups, byGroup, k), g, route);
  }

  ghost predicate DistinctNames(rs: seq<Route>) {
    forall a, b :: 0 <= a < b < |rs| ==> rs[a].name != rs[b].name
  }

  /** The routes of a spec have pairwise distinct names. */
  lemma {:induction false} RouteNamesAreDistinct(c: Config, groups: seq<string>,
                                                 byGroup: map<string, seq<RuleMatcher>>, k: nat)
    requires k <= |groups| && forall g :: g in groups ==> g in byGroup
    ensures DistinctNames(RoutesOf(c, groups, byGroup, k))
    decreases k
  {
    if k > 0 {
      RouteNamesAreDistinct(c, groups, byGroup, k - 1);
      RoutesGrow(c, groups, byGroup, k - 1);
      var before := RoutesOf(c, groups, byGroup, k - 1);
      var last := RoutesOfGroup(c, groups, byGroup, k - 1);
      forall a, b | 0 <= a < |before| && 0 <= b < |last|
        ensures before[a].name != last[b].name
      {
        GroupNamesDiffer(c, groups, byGroup, k - 1, before[a], b);
      }
      GroupNamesAreDistinct(c, |groups|, k - 1, TargetOf(groups, groups[k - 1]), byGroup[groups[k - 1]]);
      DistinctNamesAppend(before, last);
    }
  }

  lemma {:induction false} DistinctNamesAppend(a: seq<Route>, b: seq<Route>)
    requires DistinctNames(a) && DistinctNames(b)
    requires forall i, j :: 0 <= i < |a| && 0 <= j < |b| ==> a[i].name != b[j].name
    ensures DistinctNames(a + b)
  {
  }

  lemma {:induction false} GroupNamesAreDistinct(c: Config, groups: nat, g: nat, t: Target, ms: seq<RuleMatcher>)
    requires g < groups
    ensures DistinctNames(GroupRoutes(c, groups, g, t, ms))
  {
    var rs := GroupRoutes(c, groups, g, t, ms);
    forall a, b | 0 <= a < b < |rs|
      ensures rs[a].name != rs[b].name
    {
      if rs[a].name == rs[b].name {
        RouteNamesDiffer(c.prefix, groups, g, |rs|, a, g, |rs|, b);
      }
    }
  }

  lemma {:induction false} GroupNamesDiffer(c: Config, groups: seq<string>, byGroup: map<string, seq<RuleMatcher>>,
                                            k: nat, route: Route, b: nat)
    requires k < |groups| && (forall g :: g in groups ==> g in byGroup) && route in RoutesOf(c, groups, byGroup, k)
    requires b < RoutesFor(|byGroup[groups[k]]|)
    ensures route.name != GroupRoute(c, |groups|, k, TargetOf(groups, groups[k]), byGroup[groups[k]], b).name
  {
    var g, j := OriginOfRoute(c, groups, byGroup, k, route);
    var n, n' := RoutesFor(|byGroup[groups[g]]|), RoutesFor(|byGroup[groups[k]]|);
    if RouteName(c.prefix, |groups|, g, n, j) == RouteName(c.prefix, |groups|, k, n', b) {
      RouteNamesDiffer(c.prefix, |groups|, g, n, j, k, n', b);
    }
  }

  /** No route has more than 16 rules, no rule more than 8 matches, and none is empty. */
  lemma {:induction false} RoutesKeepLimits(c: Config, groups: seq<string>, byGroup: map<string, seq<RuleMatcher>>,
                                            route: Route)
    requires (forall g :: g in groups ==> g in byGroup) && route in RoutesOf(c, groups, byGroup, |groups|)
    ensures 1 <= |route.rules| <= 16
    ensures forall i :: 0 <= i < |route.rules| ==> 1 <= |route.rules[i].matches| <= 8
  {
    var g, j := OriginOfRoute(c, groups, byGroup, |groups|, route);
    var cut := Cut(byGroup[groups[g]], j);
    assert 1 <= |cut| <= 128 && route.rules == RulesOf(cut, c);
    forall i | 0 <= i < |route.rules|
      ensures 1 <= |route.rules[i].matches| <= 8
    {
      assert route.rules[i] == RuleOf(cut, c, i);
    }
  }

  /** What all routes of a spec have in common: they belong to its gateway, in its namespace, are named
      after it, and every rule leads to the one backend. */
  lemma {:induction false} RoutesBelongToSpec(c: Config, groups: seq<string>, byGroup: map<string, seq<RuleMatcher>>,
                                              route: Route)
    requires (forall g :: g in groups ==> g in byGroup) && route in RoutesOf(c, groups, byGroup, |groups|)
    ensures route.namespace == c.namespace && route.gateway == c.prefix + "-gateway"
    ensures HasPrefix(route.name, c.prefix + "-route")
    ensures forall rule :: rule in route.rules ==> rule.backends == [c.backend]
  {
    var g, j := OriginOfRoute(c, groups, byGroup, |groups|, route);
    var cut := Cut(byGroup[groups[g]], j);
    forall i | 0 <= i < |route.rules|
      ensures route.rules[i].backends == [c.backend]
    {
      assert route.rules[i] == RuleOf(cut, c, i);
    }
  }

  // ---- Cutting keeps the matchers ---------------------------------------------------------------------

  predicate HasMatch(route: Route, m: Match) {
    exists i, p :: 0 <= i < |route.rules| && 0 <= p < |route.rules[i].matches| && route.rules[i].matches[p] == m
  }

  lemma {:induction false} RulesHave(ms: seq<RuleMatcher>, c: Config, k: nat)
    requires k < |ms|
    ensures k / 8 < |RulesOf(ms, c)| && k % 8 < |RulesOf(ms, c)[k / 8].matches|
    ensures RulesOf(ms, c)[k / 8].matches[k % 8] == MatchOf(ms[k])
  {
    var i := k / 8;
    assert RulesOf(ms, c)[i] == RuleOf(ms, c, i);
    assert ms[i * 8..Least(i * 8 + 8, |ms|)][k % 8] == ms[k];
  }

  lemma {:induction false} MatchIsServed(c: Config, groups: nat, g: nat, t: Target, ms: seq<RuleMatcher>, k: nat)
    requires k < |ms|
    ensures k / 128 < RoutesFor(|ms|) && HasMatch(GroupRoute(c, groups, g, t, ms, k / 128), MatchOf(ms[k]))
  {
    var cut := Cut(ms, k / 128);
    assert cut[k % 128] == ms[k];
    RulesHave(cut, c, k % 128);
  }

  /** Match `p` of rule `i` of route `j` is that of one matcher of the group. */
  lemma {:induction false} ServedIsMatch(c: Config, groups: nat, g: nat, t: Target, ms: seq<RuleMatcher>, j: nat,
                                         i: nat, p: nat)
    requires j < RoutesFor(|ms|)
    requires var rules := GroupRoute(c, groups, g, t, ms, j).rules; i < |rules| && p < |rules[i].matches|
    ensures i < 16 && p < 8 && 128 * j + 8 * i + p < |ms|
    ensures GroupRoute(c, groups, g, t, ms, j).rules[i].matches[p] == MatchOf(ms[128 * j + 8 * i + p])
  {
    var cut := Cut(ms, j);
    assert cut[8 * i + p] == ms[128 * j + 8 * i + p];
  }

  /** The matcher behind a match: number `k` of group `g`. */
  lemma {:induction false} MatcherBehind(c: Config, groups: seq<string>, byGroup: map<string, seq<RuleMatcher>>,
                                         route: Route, i: nat, p: nat)
    returns (g: nat, j: nat)
    requires (forall g :: g in groups ==> g in byGroup) && route in RoutesOf(c, groups, byGroup, |groups|)
    requires i < |route.rules| && p < |route.rules[i].matches|
    ensures g < |groups| && j < RoutesFor(|byGroup[groups[g]]|) && i < 16 && p < 8
    ensures route == GroupRoute(c, |groups|, g, TargetOf(groups, groups[g]), byGroup[groups[g]], j)
    ensures 128 * j + 8 * i + p < |byGroup[groups[g]]|
    ensures route.rules[i].matches[p] == MatchOf(byGroup[groups[g]][128 * j + 8 * i + p])
  {
    g, j := OriginOfRoute(c, groups, byGroup, |groups|, route);
    ServedIsMatch(c, |groups|, g, TargetOf(groups, groups[g]), byGroup[groups[g]], j, i, p);
  }

  lemma {:induction false} EachMatcherOnce(matchers: seq<Matcher>, groups: seq<string>,
                                           byGroup: map<string, seq<RuleMatcher>>, g: nat, k: nat, g': nat, k': nat)
    requires IsGrouping(matchers, groups, byGroup) && g < |groups| && g' < |groups|
    requires k < |byGroup[groups[g]]| && k' < |byGroup[groups[g']]|
    requires MatchOf(byGroup[groups[g]][k]) == MatchOf(byGroup[groups[g']][k'])
    ensures g == g' && k == k'
  {
    var a, b, r := groups[g], groups[g'], byGroup[groups[g]][k];
    MatchOfInjective(r, byGroup[b][k']);
    GroupingIs(matchers, groups, byGroup);
    assert a in groups && b in groups;
    assert r in byGroup[a] && r in byGroup[b];
    assert a == GroupOf(matchers, r) && b == GroupOf(matchers, r);
    assert NoDuplicates(byGroup[a]);
  }

  lemma {:induction false} SamePlace(j: nat, i: nat, p: nat, j': nat, i': nat, p': nat)
    requires 128 * j + 8 * i + p == 128 * j' + 8 * i' + p' && i < 16 && p < 8 && i' < 16 && p' < 8
    ensures j == j' && i == i' && p == p'
  {
  }

  /** The number of the matcher behind a match, and the name of the route it is in. */
  lemma {:induction false} NumberBehind(c: Config, groups: seq<string>, byGroup: map<string, seq<RuleMatcher>>,
                                        route: Route, i: nat, p: nat)
    returns (g: nat, j: nat)
    requires (forall g :: g in groups ==> g in byGroup) && route in RoutesOf(c, groups, byGroup, |groups|)
    requires i < |route.rules| && p < |route.rules[i].matches|
    ensures g < |groups| && 128 * j + 8 * i + p < |byGroup[groups[g]]| && i < 16 && p < 8
    ensures route.rules[i].matches[p] == MatchOf(byGroup[groups[g]][128 * j + 8 * i + p])
    ensures route.name == RouteName(c.prefix, |groups|, g, RoutesFor(|byGroup[groups[g]]|), j)
  {
    g, j := MatcherBehind(c, groups, byGroup, route, i, p);
  }

  lemma {:induction false} SameMatchSameNumber(matchers: seq<Matcher>, groups: seq<string>,
                                               byGroup: map<string, seq<RuleMatcher>>,
                            g: nat, j: nat, i: nat, p: nat, g': nat, j': nat, i': nat, p': nat)
    requires IsGrouping(matchers, groups, byGroup) && i < 16 && p < 8 && i' < 16 && p' < 8
    requires g < |groups| && 128 * j + 8 * i + p < |byGroup[groups[g]]|
    requires g' < |groups| && 128 * j' + 8 * i' + p' < |byGroup[groups[g']]|
    requires MatchOf(byGroup[groups[g]][128 * j + 8 * i + p]) == MatchOf(byGroup[groups[g']][128 * j' + 8 * i' + p'])
    ensures g == g' && j == j' && i == i' && p == p'
  {
    EachMatcherOnce(matchers, groups, byGroup, g, 128 * j + 8 * i + p, g', 128 * j' + 8 * i' + p');
    SamePlace(j, i, p, j', i', p');
  }

  /** A match sits in one place of one route only. */
  lemma {:induction false} EachMatchOnce(c: Config, matchers: seq<Matcher>, groups: seq<string>,
                                         byGroup: map<string, seq<RuleMatcher>>,
                      rs: seq<Route>, r: nat, i: nat, p: nat, r': nat, i': nat, p': nat)
    requires IsGrouping(matchers, groups, byGroup) && rs == RoutesOf(c, groups, byGroup, |groups|)
    requires r < |rs| && i < |rs[r].rules| && p < |rs[r].rules[i].matches|
    requires r' < |rs| && i' < |rs[r'].rules| && p' < |rs[r'].rules[i'].matches|
    requires rs[r].rules[i].matches[p] == rs[r'].rules[i'].matches[p']
    ensures r == r' && i == i' && p == p'
  {
    var g, j := NumberBehind(c, groups, byGroup, rs[r], i, p);
    var g', j' := NumberBehind(c, groups, byGroup, rs[r'], i', p');
    SameMatchSameNumber(matchers, groups, byGroup, g, j, i, p, g', j', i', p');
    RouteNamesAreDistinct(c, groups, byGroup, |groups|);
    assert rs[r].name == rs[r'].name;
  }

  /** By path, and on one path by method. */
  ghost predicate InPathOrder(m: Match, m': Match) {
    if m.path == m'.path then ComesBefore(m.verb, m'.verb) else ComesBefore(m.path, m'.path)
  }

  lemma {:induction false} SortedInPathOrder(ms: seq<RuleMatcher>, k: nat, k': nat)
    requires Sorted(ms, RuleAtMost) && k < k' < |ms|
    ensures InPathOrder(MatchOf(ms[k]), MatchOf(ms[k']))
  {
    SortedAt(ms, RuleAtMost, k, k');
    AtMostIff(ms[k].path, ms[k'].path);
    AtMostIff(ms[k].verb, ms[k'].verb);
  }

  /** Match `p` of rule `i` is that of number 128j + 8i + p. */
  predicate IsCutOf(rules: seq<RouteRule>, ms: seq<RuleMatcher>, j: nat) {
    forall i, p :: 0 <= i < |rules| && 0 <= p < |rules[i].matches| ==>
      p < 8 && 128 * j + 8 * i + p < |ms| && rules[i].matches[p] == MatchOf(ms[128 * j + 8 * i + p])
  }

  lemma {:induction false} RouteIsCut(c: Config, groups: nat, g: nat, t: Target, ms: seq<RuleMatcher>, j: nat)
    requires j < RoutesFor(|ms|)
    ensures IsCutOf(GroupRoute(c, groups, g, t, ms, j).rules, ms, j)
  {
    var rules := GroupRoute(c, groups, g, t, ms, j).rules;
    forall i, p | 0 <= i < |rules| && 0 <= p < |rules[i].matches|
      ensures p < 8 && 128 * j + 8 * i + p < |ms| && rules[i].matches[p] == MatchOf(ms[128 * j + 8 * i + p])
    {
      ServedIsMatch(c, groups, g, t, ms, j, i, p);
    }
  }

  lemma {:induction false} CutIsInPathOrder(ms: seq<RuleMatcher>, j: nat, rules: seq<RouteRule>, i: nat, p: nat,
                                            i': nat, p': nat)
    requires Sorted(ms, RuleAtMost) && IsCutOf(rules, ms, j)
    requires i < |rules| && p < |rules[i].matches| && i' < |rules| && p' < |rules[i'].matches|
    requires i < i' || (i == i' && p < p')
    ensures InPathOrder(rules[i].matches[p], rules[i'].matches[p'])
  {
    var m, m' := rules[i].matches[p], rules[i'].matches[p'];
    assert m == MatchOf(ms[128 * j + 8 * i + p]) && m' == MatchOf(ms[128 * j + 8 * i' + p']);
    SortedInPathOrder(ms, 128 * j + 8 * i + p, 128 * j + 8 * i' + p');
  }

  /** The order of matches in a route, from rule to rule. */
  lemma {:induction false} MatchesAreInPathOrder(c: Config, groups: seq<string>, byGroup: map<string, seq<RuleMatcher>>,
                                                 route: Route, i: nat, p: nat, i': nat, p': nat)
    requires (forall g :: g in groups ==> g in byGroup) && SortedGrouping(groups, byGroup)
    requires route in RoutesOf(c, groups, byGroup, |groups|)
    requires i < |route.rules| && p < |route.rules[i].matches|
    requires i' < |route.rules| && p' < |route.rules[i'].matches|
    requires i < i' || (i == i' && p < p')
    ensures InPathOrder(route.rules[i].matches[p], route.rules[i'].matches[p'])
  {
    var g, j := OriginOfRoute(c, groups, byGroup, |groups|, route);
    RouteIsCut(c, |groups|, g, TargetOf(groups, groups[g]), byGroup[groups[g]], j);
    CutIsInPathOrder(byGroup[groups[g]], j, route.rules, i, p, i', p');
  }

  // ---- Routing ----------------------------------------------------------------------------------------

  /** A route without hostnames serves the wildcard host. */
  function ServedBy(hostnames: seq<string>): seq<string> {
    if hostnames == [] then [HOST_WILDCARD] else hostnames
  }

  function Served(route: Route): seq<string> {
    ServedBy(route.hostnames)
  }

  ghost predicate Routed(routes: seq<Route>, host: string, m: Match) {
    exists route :: route in routes && host in Served(route) && HasMatch(route, m)
  }

  ghost predicate Asked(matchers: seq<Matcher>, host: string, m: Match) {
    exists x :: x in matchers && x.host == host && MatchOf(x.rule) == m
  }

  lemma {:induction false} ServedHosts(group: string, host: string)
    ensures host in ServedBy(HostnamesOf(HostsOf(group))) <==> host in RawHosts(group)
  {
    var raw := RawHosts(group);
    assert raw[0] in raw;
    SortStringsSorts(raw);
    assert raw[0] in HostsOf(group);
    LoneWildcard(HostsOf(group), host);
  }

  lemma {:induction false} LoneWildcard(hosts: seq<string>, host: string)
    requires hosts != []
    ensures host in ServedBy(HostnamesOf(hosts)) <==> host in hosts
  {
    if HOST_WILDCARD in hosts && |hosts| <= 1 {
      assert hosts == [HOST_WILDCARD];
    }
  }

  /** Some matcher of a group with that host has that match. */
  ghost predicate Grouped(byGroup: map<string, seq<RuleMatcher>>, host: string, m: Match) {
    exists g, r :: g in byGroup && r in byGroup[g] && MatchOf(r) == m && host in RawHosts(g)
  }

  lemma {:induction false} RoutedIsGrouped(c: Config, groups: seq<string>, byGroup: map<string, seq<RuleMatcher>>,
                                           host: string, m: Match)
    requires (forall g :: g in groups <==> g in byGroup) && Routed(RoutesOf(c, groups, byGroup, |groups|), host, m)
    ensures Grouped(byGroup, host, m)
  {
    var rs := RoutesOf(c, groups, byGroup, |groups|);
    var route :| route in rs && host in Served(route) && HasMatch(route, m);
    var i, p :| 0 <= i < |route.rules| && 0 <= p < |route.rules[i].matches| && route.rules[i].matches[p] == m;
    var g, j := MatcherBehind(c, groups, byGroup, route, i, p);
    ServedHosts(groups[g], host);
    assert groups[g] in byGroup && byGroup[groups[g]][128 * j + 8 * i + p] in byGroup[groups[g]];
  }

  lemma {:induction false} GroupedIsRouted(c: Config, groups: seq<string>, byGroup: map<string, seq<RuleMatcher>>,
                                           host: string, m: Match)
    requires (forall g :: g in groups <==> g in byGroup) && Grouped(byGroup, host, m)
    ensures Routed(RoutesOf(c, groups, byGroup, |groups|), host, m)
  {
    var g, r :| g in byGroup && r in byGroup[g] && MatchOf(r) == m && host in RawHosts(g);
    var at :| 0 <= at < |groups| && groups[at] == g;
    var k :| 0 <= k < |byGroup[g]| && byGroup[g][k] == r;
    MatchIsServed(c, |groups|, at, TargetOf(groups, g), byGroup[g], k);
    RouteOfOrigin(c, groups, byGroup, |groups|, at, k / 128);
    ServedHosts(g, host);
    var route := GroupRoute(c, |groups|, at, TargetOf(groups, g), byGroup[g], k / 128);
    assert route in RoutesOf(c, groups, byGroup, |groups|) && HasMatch(route, m) && host in Served(route);
  }

  predicate CommaFree(matchers: seq<Matcher>) {
    forall x :: x in matchers ==> HOST_SEPARATOR !in x.host
  }

  lemma {:induction false} HostsOfGroup(matchers: seq<Matcher>, r: RuleMatcher, host: string)
    requires CommaFree(matchers) && r in RulesIn(matchers) && forall x :: x in matchers ==> Valid(x)
    ensures host in RawHosts(GroupOf(matchers, r)) <==>
            exists x :: x in matchers && x.rule == r && x.host == host
  {
    var key := (m: Matcher) => m.rule;
    var xs := OfKey(matchers, key, r);
    var listeners := ListenersOf(matchers, r);
    OfKeyIs(matchers, key, r);
    forall l | l in listeners
      ensures HOST_SEPARATOR !in l
    {
      var i :| 0 <= i < |xs| && l == ListenerOf(xs[i]);
      assert xs[i] in xs;
    }
    SplitJoin(listeners, HOST_SEPARATOR);
    var hosts := Map(listeners, UriToHostname);
    forall i | 0 <= i < |xs|
      ensures hosts[i] == xs[i].host
    {
      assert xs[i] in xs;
      HostOfListener(xs[i]);
    }
    if host in hosts {
      var i :| 0 <= i < |hosts| && hosts[i] == host;
      assert xs[i] in xs;
    }
    forall x | x in matchers && x.rule == r && x.host == host
      ensures host in hosts
    {
      assert x in xs;
      var i :| 0 <= i < |xs| && xs[i] == x;
      assert hosts[i] in hosts;
    }
  }

  /** Whatever orders Go's maps were walked in, the routes serve exactly the pairs of host and match
      that the spec asks for if and only if no host contains the separator. */
  lemma {:induction false} RoutingIsKeptIffHostsAreCommaFree(c: Config, matchers: seq<Matcher>, groups: seq<string>,
          byGroup: map<string, seq<RuleMatcher>>)
    requires IsGrouping(matchers, groups, byGroup) && forall x :: x in matchers ==> Valid(x)
    ensures (forall host, m :: Routed(RoutesOf(c, groups, byGroup, |groups|), host, m) <==> Asked(matchers, host, m))
            <==> CommaFree(matchers)
  {
    var rs := RoutesOf(c, groups, byGroup, |groups|);
    FirstKeysAreDistinct(matchers, (m: Matcher) => m.rule);
    if CommaFree(matchers) {
      forall host, m
        ensures Routed(rs, host, m) <==> Asked(matchers, host, m)
      {
        if Routed(rs, host, m) {
          RoutedIsGrouped(c, groups, byGroup, host, m);
        }
        if Grouped(byGroup, host, m) {
          GroupedIsRouted(c, groups, byGroup, host, m);
        }
        GroupedIsAsked(matchers, groups, byGroup, host, m);
      }
    } else {
      var x :| x in matchers && HOST_SEPARATOR in x.host;
      var m := MatchOf(x.rule);
      if Routed(rs, x.host, m) {
        RoutedIsGrouped(c, groups, byGroup, x.host, m);
        GroupedHostsAreCommaFree(byGroup, x.host, m);
      }
      assert Asked(matchers, x.host, m) && !Routed(rs, x.host, m);
    }
  }

  lemma {:induction false} GroupedHostsAreCommaFree(byGroup: map<string, seq<RuleMatcher>>, host: string, m: Match)
    requires Grouped(byGroup, host, m)
    ensures HOST_SEPARATOR !in host
  {
    var g, r :| g in byGroup && r in byGroup[g] && MatchOf(r) == m && host in RawHosts(g);
    var parts := Split(g, HOST_SEPARATOR);
    var i :| 0 <= i < |parts| && host == UriToHostname(parts[i]);
    assert parts[i] in parts;
  }

  lemma {:induction false} GroupedIsAsked(matchers: seq<Matcher>, groups: seq<string>,
                                          byGroup: map<string, seq<RuleMatcher>>, host: string, m: Match)
    requires IsGrouping(matchers, groups, byGroup) && CommaFree(matchers) && forall x :: x in matchers ==> Valid(x)
    ensures Asked(matchers, host, m) <==> Grouped(byGroup, host, m)
  {
    GroupingIs(matchers, groups, byGroup);
    FirstKeysAreDistinct(matchers, (m: Matcher) => m.rule);
    forall g, r | g in byGroup && r in byGroup[g] && MatchOf(r) == m && host in RawHosts(g)
      ensures Asked(matchers, host, m)
    {
      HostsOfGroup(matchers, r, host);
    }
    if Asked(matchers, host, m) {
      var x :| x in matchers && x.host == host && MatchOf(x.rule) == m;
      assert x.rule in RulesIn(matchers);
      HostsOfGroup(matchers, x.rule, host);
      assert GroupOf(matchers, x.rule) in byGroup && x.rule in byGroup[GroupOf(matchers, x.rule)];
    }
  }

  lemma {:induction false} GroupsAre(matchers: seq<Matcher>, groups: seq<string>,
                                     byGroup: map<string, seq<RuleMatcher>>, g: string)
    requires IsGrouping(matchers, groups, byGroup)
    ensures g in groups <==> exists r :: r in RulesIn(matchers) && GroupOf(matchers, r) == g
    ensures g in byGroup ==> forall r :: r in byGroup[g] <==> r in RulesIn(matchers) && GroupOf(matchers, r) == g
  {
    GroupingIs(matchers, groups, byGroup);
    if g in byGroup {
      var r := byGroup[g][0];
      assert r in byGroup[g];
      assert r in RulesIn(matchers) && GroupOf(matchers, r) == g;
    }
  }

  // ---- Listeners --------------------------------------------------------------------------------------

  lemma {:induction false} PartsOfGroup(matchers: seq<Matcher>, r: RuleMatcher, l: string)
    requires CommaFree(matchers) && r in RulesIn(matchers) && forall x :: x in matchers ==> Valid(x)
    ensures l in Split(GroupOf(matchers, r), HOST_SEPARATOR) <==>
      exists x :: x in matchers && x.rule == r && ListenerOf(x) == l
  {
    var key := (m: Matcher) => m.rule;
    var xs := OfKey(matchers, key, r);
    var listeners := ListenersOf(matchers, r);
    OfKeyIs(matchers, key, r);
    forall i | 0 <= i < |xs|
      ensures HOST_SEPARATOR !in listeners[i] && xs[i] in xs
    {
      assert xs[i] in xs;
    }
    SplitJoin(listeners, HOST_SEPARATOR);
    forall x | x in matchers && x.rule == r && ListenerOf(x) == l
      ensures l in listeners
    {
      assert x in xs;
      var i :| 0 <= i < |xs| && xs[i] == x;
      assert listeners[i] == l;
    }
  }

  /** The gateway declares one listener for each protocol and host that some matcher has, and no other. */
  lemma {:induction false} DeclaredAreAsked(matchers: seq<Matcher>, groups: seq<string>,
                                            byGroup: map<string, seq<RuleMatcher>>)
    requires IsGrouping(matchers, groups, byGroup) && CommaFree(matchers) && forall x :: x in matchers ==> Valid(x)
    ensures NoDuplicates(Declared(groups))
    ensures forall l :: l in Declared(groups) <==> exists x :: x in matchers && ListenerOf(x) == l
  {
    GroupingIs(matchers, groups, byGroup);
    FirstKeysAreDistinct(ListenersIn(groups), Same);
    FirstKeysAreDistinct(matchers, (m: Matcher) => m.rule);
    forall l
      ensures l in Declared(groups) <==> exists x :: x in matchers && ListenerOf(x) == l
    {
      FlatMapHas(groups, g => Split(g, HOST_SEPARATOR), l);
      if l in Declared(groups) {
        var g :| g in groups && l in Split(g, HOST_SEPARATOR);
        GroupsAre(matchers, groups, byGroup, g);
        var r :| r in RulesIn(matchers) && GroupOf(matchers, r) == g;
        PartsOfGroup(matchers, r, l);
      }
      forall x | x in matchers && ListenerOf(x) == l
        ensures l in Declared(groups)
      {
        PartsOfGroup(matchers, x.rule, l);
        assert GroupOf(matchers, x.rule) in groups;
      }
    }
  }

  lemma {:induction false} PartIsDeclared(groups: seq<string>, g: string, l: string)
    requires g in groups && l in Split(g, HOST_SEPARATOR)
    ensures l in Declared(groups)
  {
    FirstKeysAreDistinct(ListenersIn(groups), Same);
    FlatMapHas(groups, g => Split(g, HOST_SEPARATOR), l);
  }

  lemma {:induction false} SectionIsDeclared(groups: seq<string>, g: string)
    requires g in groups && SectionOf(groups, g).Some?
    ensures var l := Split(g, HOST_SEPARATOR)[0];
      l in Declared(groups) && SectionOf(groups, g) == Some(ListenerName(l)) && HostsOf(g) == [UriToHostname(l)]
  {
    var parts := Split(g, HOST_SEPARATOR);
    PartIsDeclared(groups, g, parts[0]);
    assert parts == [parts[0]];
    OneHost(parts[0]);
  }

  /** A route that attaches to a section attaches to a listener of its gateway, the only one of its group. */
  lemma {:induction false} SectionsAreDeclared(c: Config, groups: seq<string>, byGroup: map<string, seq<RuleMatcher>>,
                                               route: Route)
    requires (forall g :: g in groups ==> g in byGroup) && route in RoutesOf(c, groups, byGroup, |groups|)
    ensures route.section.Some? ==> exists l ::
      l in Declared(groups) && route.section == Some(ListenerName(l)) && Served(route) == [UriToHostname(l)]
  {
    var g, j := OriginOfRoute(c, groups, byGroup, |groups|, route);
    if route.section.Some? {
      SectionIsDeclared(groups, groups[g]);
      var l := Split(groups[g], HOST_SEPARATOR)[0];
      assert route.section == Some(ListenerName(l)) && Served(route) == [UriToHostname(l)];
    }
  }

  lemma {:induction false} OneHost(l: string)
    ensures Compact(SortStrings(Map([l], UriToHostname))) == [UriToHostname(l)]
  {
    var hosts := Map([l], UriToHostname);
    assert hosts == [UriToHostname(l)] && hosts[1..] == [];
    assert Sort(hosts[1..], AtMost) == [];
  }

  // ---- Determinism ------------------------------------------------------------------------------------

  /** No two matchers of a group agree on path and method, all that the sort looks at. */
  ghost predicate NoTies(byGroup: map<string, seq<RuleMatcher>>) {
    forall g, r, s :: g in byGroup && r in byGroup[g] && s in byGroup[g] && r.path == s.path && r.verb == s.verb ==>
      r == s
  }

  /** A result of grouping and sorting, for some order of the maps. */
  ghost predicate IsResult(matchers: seq<Matcher>, groups: seq<string>, byGroup: map<string, seq<RuleMatcher>>) {
    IsGrouping(matchers, groups, byGroup) && SortedGrouping(groups, byGroup)
  }

  lemma {:induction false} SameResult(matchers: seq<Matcher>, groups: seq<string>,
                                      byGroup: map<string, seq<RuleMatcher>>,
                                      groups': seq<string>, byGroup': map<string, seq<RuleMatcher>>)
    requires IsResult(matchers, groups, byGroup) && IsResult(matchers, groups', byGroup') && NoTies(byGroup)
    ensures groups == groups' && byGroup == byGroup'
  {
    forall g
      ensures g in groups <==> g in groups'
      ensures g in byGroup ==> forall r :: r in byGroup[g] <==> r in byGroup'[g]
    {
      GroupsAre(matchers, groups, byGroup, g);
      GroupsAre(matchers, groups', byGroup', g);
    }
    SameElementsSameLength(groups, groups');
    forall x, y | AtMost(x, y) && AtMost(y, x)
      ensures x == y
    {
      AtMostTotal(x, y);
    }
    SortedIsUnique(groups, groups', AtMost);
    forall g | g in byGroup
      ensures byGroup[g] == byGroup'[g]
    {
      SameElementsSameLength(byGroup[g], byGroup'[g]);
      SortedIsUnique(byGroup[g], byGroup'[g], RuleAtMost);
    }
  }

  /** Matchers that agree on path and method can change places in a sorted list. */
  lemma {:induction false} SwapKeepsSorted(ms: seq<RuleMatcher>, i: nat, j: nat)
    requires Sorted(ms, RuleAtMost) && i < j < |ms| && ms[i].path == ms[j].path && ms[i].verb == ms[j].verb
    ensures Sorted(ms[i := ms[j]][j := ms[i]], RuleAtMost)
    ensures multiset(ms[i := ms[j]][j := ms[i]]) == multiset(ms)
  {
    SameOrderSorted(ms, ms[i := ms[j]][j := ms[i]]);
  }

  lemma {:induction false} SameOrderSorted(a: seq<RuleMatcher>, b: seq<RuleMatcher>)
    requires Sorted(a, RuleAtMost) && |a| == |b|
    requires forall k :: 0 <= k < |a| ==> a[k].path == b[k].path && a[k].verb == b[k].verb
    ensures Sorted(b, RuleAtMost)
  {
    if a != [] {
      SameOrderSorted(a[1..], b[1..]);
      forall x | x in b[1..]
        ensures RuleAtMost(b[0], x)
      {
        var k :| 0 <= k < |b[1..]| && b[1..][k] == x;
        assert a[1..][k] in a[1..] && RuleAtMost(a[0], a[1..][k]);
      }
    }
  }

  lemma {:induction false} TieGivesAnother(matchers: seq<Matcher>, groups: seq<string>,
                                           byGroup: map<string, seq<RuleMatcher>>)
    returns (other: map<string, seq<RuleMatcher>>)
    requires IsResult(matchers, groups, byGroup) && !NoTies(byGroup)
    ensures IsResult(matchers, groups, other) && other != byGroup
  {
    var g, r, s :| g in byGroup && r in byGroup[g] && s in byGroup[g] && r.path == s.path && r.verb == s.verb && r != s;
    var ms := byGroup[g];
    var i :| 0 <= i < |ms| && ms[i] == r;
    var j :| 0 <= j < |ms| && ms[j] == s;
    var lo, hi := if i < j then i else j, if i < j then j else i;
    SwapKeepsSorted(ms, lo, hi);
    var swapped := ms[lo := ms[hi]][hi := ms[lo]];
    PermutingAGroup(GroupsOf(matchers), groups, byGroup, g, swapped);
    other := byGroup[g := swapped];
    assert other[g][lo] != byGroup[g][lo];
  }

  /** No two matchers with the same listeners agree on path and method. */
  ghost predicate TieFree(matchers: seq<Matcher>) {
    forall r, s :: r in RulesIn(matchers) && s in RulesIn(matchers) ==>
      GroupOf(matchers, r) == GroupOf(matchers, s) && r.path == s.path && r.verb == s.verb ==> r == s
  }

  lemma {:induction false} TieFreeIff(matchers: seq<Matcher>, groups: seq<string>,
                                      byGroup: map<string, seq<RuleMatcher>>)
    requires IsGrouping(matchers, groups, byGroup)
    ensures TieFree(matchers) <==> NoTies(byGroup)
  {
    GroupingIs(matchers, groups, byGroup);
  }

  /** The output is the same for every order of the maps if and only if there are no ties; the sort does
      not look at headers and parameters. */
  lemma {:induction false} OutputIsDeterministicIff(matchers: seq<Matcher>, groups: seq<string>,
                                                    byGroup: map<string, seq<RuleMatcher>>)
    requires IsResult(matchers, groups, byGroup)
    ensures (forall gs, bs :: IsResult(matchers, gs, bs) ==> gs == groups && bs == byGroup) <==> TieFree(matchers)
  {
    TieFreeIff(matchers, groups, byGroup);
    if NoTies(byGroup) {
      forall gs, bs | IsResult(matchers, gs, bs)
        ensures gs == groups && bs == byGroup
      {
        SameResult(matchers, groups, byGroup, gs, bs);
      }
    } else {
      var other := TieGivesAnother(matchers, groups, byGroup);
    }
  }
}
