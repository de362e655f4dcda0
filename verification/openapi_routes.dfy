module OpenAPIRoutes {
  /**
   From matchers to HTTPRoutes in the OpenAPI 3.x provider (pkg/i2gw/providers/openapi3/converter.go):
   matchers are grouped by the listeners that they share, and each group is cut into routes and rules
   of limited size.
   */

  import opened CommonNames
  import opened Grouping
  import opened Numerals
  import opened Optional
  import opened Sorting
  import opened Strings
  import Gateway

  const HOST_WILDCARD := "*"
  const HOST_SEPARATOR := ','
  const PARAM_SEPARATOR := ','

  datatype RuleMatcher = RuleMatcher(path: string, verb: string, headers: string, params: string)

  datatype Matcher = Matcher(protocol: string, host: string, rule: RuleMatcher)

  /** An HTTPRouteMatch on an exact path, a method, and the names of exact headers and parameters. */
  datatype Match = Match(path: string, verb: string, headers: seq<string>, params: seq<string>)

  datatype RouteRule = RouteRule(matches: seq<Match>, backends: seq<Gateway.BackendRef>)

  /** An HTTPRoute with its one parent. No hostnames stand for every host, no section for all listeners. */
  datatype Route = Route(namespace: string, name: string, gateway: string, section: Option<string>,
                         hostnames: seq<string>, rules: seq<RouteRule>)

  /** What all routes of a spec share. */
  datatype Config = Config(prefix: string, namespace: string, backend: Gateway.BackendRef)

  /** What all routes of a group share. */
  datatype Target = Target(hosts: seq<string>, section: Option<string>)

  // ---- Hosts ------------------------------------------------------------------------------------------

  datatype Authority = Authority(scheme: string, host: string)

  /** The host after the scheme: up to the first slash, after which a path may follow on one line. */
  function HostIn(rest: string): Option<string> {
    var k := Find(rest, '/');
    if k > 0 && '\n' !in rest[k..] then Some(rest[..k]) else None
  }

  /** The second and third submatch of uriRegexp, when the URI has them. */
  function AuthorityOf(uri: string): Option<Authority> {
    var scheme := if HasPrefix(uri, "https://") then "https" else "http";
    if HasPrefix(uri, scheme + "://") then
      match HostIn(uri[|scheme| + 3..])
      case Some(host) => Some(Authority(scheme, host))
      case None => None
    else None
  }

  function UriToHostname(uri: string): (host: string)
    ensures host != "" && '/' !in host && forall c :: c in host ==> c in uri || host == HOST_WILDCARD
  {
    match AuthorityOf(uri)
    case Some(a) => a.host
    case None => HOST_WILDCARD
  }

  predicate Valid(m: Matcher) {
    m.protocol in {"http", "https"} && m.host != "" && '/' !in m.host
  }

  /** `basePath` is the path that url.Parse finds in the URI. */
  function ToHTTPMatcher(uri: string, basePath: string, relativePath: string, verb: string,
                         headers: seq<string>, params: seq<string>): (m: Matcher)
    ensures Valid(m)
  {
    var protocol := match AuthorityOf(uri) case Some(a) => a.scheme case None => "http";
    var base := if basePath == "/" then "" else basePath;
    Matcher(protocol, UriToHostname(uri),
      RuleMatcher(base + relativePath, verb, Join(headers, PARAM_SEPARATOR), Join(params, PARAM_SEPARATOR)))
  }

  function ListenerOf(m: Matcher): string {
    m.protocol + "://" + m.host
  }

  lemma {:induction false} HostOfListener(m: Matcher)
    requires Valid(m)
    ensures UriToHostname(ListenerOf(m)) == m.host
  {
    var uri := ListenerOf(m);
    assert uri[|m.protocol| + 3..] == m.host;
    assert uri[..|m.protocol| + 3] == m.protocol + "://";
    if m.protocol == "http" {
      assert uri[4] == ':' && "https://"[4] == 's';
    }
    var k := Find(m.host, '/');
    assert m.host[..k] == m.host;
  }

  // ---- Matches ----------------------------------------------------------------------------------------

  function NamesOf(joined: string): seq<string> {
    if joined != "" then Split(joined, PARAM_SEPARATOR) else []
  }

  function MatchOf(m: RuleMatcher): Match {
    Match(m.path, m.verb, NamesOf(m.headers), NamesOf(m.params))
  }

  lemma {:induction false} NamesOfInjective(a: string, b: string)
    requires NamesOf(a) == NamesOf(b)
    ensures a == b
  {
    if a != "" && b != "" {
      JoinSplit(a, PARAM_SEPARATOR);
      JoinSplit(b, PARAM_SEPARATOR);
    }
  }

  lemma {:induction false} MatchOfInjective(a: RuleMatcher, b: RuleMatcher)
    ensures MatchOf(a) == MatchOf(b) <==> a == b
  {
    if MatchOf(a) == MatchOf(b) {
      NamesOfInjective(a.headers, b.headers);
      NamesOfInjective(a.params, b.params);
    }
  }

  /** The order in which the matchers of a route are sorted: headers and parameters do not count. */
  predicate RuleAtMost(a: RuleMatcher, b: RuleMatcher) {
    if a.path == b.path then AtMost(a.verb, b.verb) else AtMost(a.path, b.path)
  }

  lemma {:induction false} RuleAtMostIsPreorder()
    ensures Preorder(RuleAtMost)
  {
    AtMostIsPreorder();
    forall x, y, z | RuleAtMost(x, y) && RuleAtMost(y, z)
      ensures RuleAtMost(x, z)
    {
      AtMostTotal(x.path, y.path);
      AtMostTransitive(x.path, y.path, z.path);
    }
  }

  // ---- Grouping ---------------------------------------------------------------------------------------

  function ListenersOf(matchers: seq<Matcher>, rule: RuleMatcher): seq<string> {
    Map(OfKey(matchers, (m: Matcher) => m.rule, rule), ListenerOf)
  }

  function GroupOf(matchers: seq<Matcher>, rule: RuleMatcher): string {
    Join(ListenersOf(matchers, rule), HOST_SEPARATOR)
  }

  function RulesIn(matchers: seq<Matcher>): seq<RuleMatcher> {
    FirstKeys(matchers, (m: Matcher) => m.rule)
  }

  /** `groups` are the values of `groupOf`, `byGroup` their keys, without repetition. */
  ghost predicate Inverse(groupOf: map<RuleMatcher, string>, groups: seq<string>,
                          byGroup: map<string, seq<RuleMatcher>>)
  {
    && NoDuplicates(groups)
    && (forall g :: g in groups <==> g in byGroup)
    && (forall g :: g in byGroup ==> byGroup[g] != [] && NoDuplicates(byGroup[g]))
    && (forall g, r :: g in byGroup && r in byGroup[g] ==> r in groupOf && groupOf[r] == g)
    && (forall r :: r in groupOf ==> groupOf[r] in byGroup && r in byGroup[groupOf[r]])
  }

  function GroupsOf(matchers: seq<Matcher>): map<RuleMatcher, string> {
    map r | r in RulesIn(matchers) :: GroupOf(matchers, r)
  }

  /** The listener groups, and the matchers of each. */
  ghost predicate IsGrouping(matchers: seq<Matcher>, groups: seq<string>, byGroup: map<string, seq<RuleMatcher>>) {
    Inverse(GroupsOf(matchers), groups, byGroup)
  }

  lemma {:induction false} GroupingIs(matchers: seq<Matcher>, groups: seq<string>,
                                      byGroup: map<string, seq<RuleMatcher>>)
    requires IsGrouping(matchers, groups, byGroup)
    ensures forall g, r :: g in byGroup && r in byGroup[g] ==> r in RulesIn(matchers) && GroupOf(matchers, r) == g
    ensures forall r :: r in RulesIn(matchers) ==> GroupOf(matchers, r) in byGroup && r in byGroup[GroupOf(matchers, r)]
  {
    var groupOf := GroupsOf(matchers);
    forall g, r | g in byGroup && r in byGroup[g]
      ensures r in RulesIn(matchers) && GroupOf(matchers, r) == g
    {
      assert r in groupOf && groupOf[r] == g;
    }
    forall r | r in RulesIn(matchers)
      ensures GroupOf(matchers, r) in byGroup && r in byGroup[GroupOf(matchers, r)]
    {
      assert groupOf[r] == GroupOf(matchers, r);
    }
  }

  ghost predicate SortedGrouping(groups: seq<string>, byGroup: map<string, seq<RuleMatcher>>) {
    Sorted(groups, AtMost) && forall g :: g in byGroup ==> Sorted(byGroup[g], RuleAtMost)
  }

  method ListenersByMatcher(matchers: seq<Matcher>) returns (m: map<RuleMatcher, seq<string>>)
    ensures forall r :: r in m <==> r in RulesIn(matchers)
    ensures forall r :: r in m ==> m[r] == ListenersOf(matchers, r)
  {
    m := map[];
    for i := 0 to |matchers|
      invariant forall r :: r in m <==> r in RulesIn(matchers[..i])
      invariant forall r :: r in m ==> m[r] == ListenersOf(matchers[..i], r)
    {
      var matcher := matchers[i];
      var known := if matcher.rule in m then m[matcher.rule] else [];
      GroupsGrow(matchers, i);
      m := m[matcher.rule := known + [ListenerOf(matcher)]];
    }
    assert matchers[..|matchers|] == matchers;
  }

  lemma {:induction false} GroupsGrow(matchers: seq<Matcher>, i: nat)
    requires i < |matchers|
    ensures var was, now, m := matchers[..i], matchers[..i + 1], matchers[i];
            && (forall r :: r in RulesIn(now) <==> r in RulesIn(was) || r == m.rule)
            && (forall r :: ListenersOf(now, r) == ListenersOf(was, r) + if r == m.rule then [ListenerOf(m)] else [])
            && (m.rule !in RulesIn(was) ==> ListenersOf(was, m.rule) == [])
  {
    var was, m := matchers[..i], matchers[i];
    var key := (m: Matcher) => m.rule;
    assert matchers[..i + 1] == was + [m];
    forall r
      ensures ListenersOf(was + [m], r) == ListenersOf(was, r) + if r == m.rule then [ListenerOf(m)] else []
      ensures r in RulesIn(was + [m]) <==> r in RulesIn(was) || r == m.rule
    {
      OfKeyGrows(was, m, key, r);
    }
    OfKeyIs(was, key, m.rule);
  }

  lemma {:induction false} InvertOne(groupOf: map<RuleMatcher, string>, groups: seq<string>,
                                     byGroup: map<string, seq<RuleMatcher>>,
                  r: RuleMatcher, g: string)
    requires r !in groupOf && Inverse(groupOf, groups, byGroup)
    ensures Inverse(groupOf[r := g], if g in byGroup then groups else groups + [g],
              byGroup[g := (if g in byGroup then byGroup[g] else []) + [r]])
  {
    var members := if g in byGroup then byGroup[g] else [];
    assert r !in members;
    assert NoDuplicates(members + [r]);
  }

  /** Inverts the map in an order of Go's choosing. */
  method Invert(ghost groupOf: map<RuleMatcher, string>, m: map<RuleMatcher, seq<string>>)
    returns (groups: seq<string>, byGroup: map<string, seq<RuleMatcher>>)
    requires groupOf == map r | r in m :: Join(m[r], HOST_SEPARATOR)
    ensures Inverse(groupOf, groups, byGroup)
  {
    groups, byGroup := [], map[];
    var todo := m.Keys;
    while todo != {}
      invariant todo <= m.Keys && Inverse(groupOf - todo, groups, byGroup)
      decreases todo
    {
      var matcher :| matcher in todo;
      var group := Join(m[matcher], HOST_SEPARATOR);
      InvertOne(groupOf - todo, groups, byGroup, matcher, group);
      assert (groupOf - todo)[matcher := group] == groupOf - (todo - {matcher});
      todo := todo - {matcher};
      if group !in byGroup {
        groups := groups + [group];
        byGroup := byGroup[group := []];
      }
      byGroup := byGroup[group := byGroup[group] + [matcher]];
    }
    assert groupOf - todo == groupOf;
  }

  // ---- Cutting ----------------------------------------------------------------------------------------

  function Least(a: nat, b: nat): nat {
    if a <= b then a else b
  }

  // HTTPRouteMatchesMax is 8 and HTTPRouteMatchesMaxMax 128; the literals keep the arithmetic linear.

  function RulesFor(n: nat): nat {
    (n + 7) / 8
  }

  function RoutesFor(n: nat): nat {
    (n + 127) / 128
  }

  function RuleOf(ms: seq<RuleMatcher>, c: Config, i: nat): RouteRule
    requires i < RulesFor(|ms|)
  {
    RouteRule(Map(ms[i * 8..Least(i * 8 + 8, |ms|)], MatchOf), [c.backend])
  }

  function RulesOf(ms: seq<RuleMatcher>, c: Config): (rules: seq<RouteRule>)
    ensures |rules| == RulesFor(|ms|) && forall i :: 0 <= i < |rules| ==> rules[i] == RuleOf(ms, c, i)
  {
    seq(RulesFor(|ms|), i requires 0 <= i < RulesFor(|ms|) => RuleOf(ms, c, i))
  }

  /** The inner loop. */
  method ToMatches(ms: seq<RuleMatcher>, i: nat) returns (matches: seq<Match>)
    requires i < RulesFor(|ms|)
    ensures matches == Map(ms[i * 8..Least(i * 8 + 8, |ms|)], MatchOf)
  {
    matches := [];
    var offset := i * 8;
    var j := 0;
    while j < 8 && offset + j < |ms|
      invariant 0 <= j <= 8 && offset + j <= |ms|
      invariant |matches| == j && forall k :: 0 <= k < j ==> matches[k] == MatchOf(ms[offset + k])
    {
      matches := matches + [MatchOf(ms[offset + j])];
      j := j + 1;
    }
  }

  method ToHTTPRouteRules(ms: seq<RuleMatcher>, c: Config) returns (rules: seq<RouteRule>)
    ensures rules == RulesOf(ms, c)
  {
    rules := [];
    var nRules := |ms| / 8;
    if |ms| % 8 != 0 {
      nRules := nRules + 1;
    }
    for i := 0 to nRules
      invariant |rules| == i && forall k :: 0 <= k < i ==> rules[k] == RuleOf(ms, c, k)
    {
      var matches := ToMatches(ms, i);
      rules := rules + [RouteRule(matches, [c.backend])];
    }
  }

  function RawHosts(group: string): seq<string> {
    Map(Split(group, HOST_SEPARATOR), UriToHostname)
  }

  function HostsOf(group: string): seq<string> {
    Compact(SortStrings(RawHosts(group)))
  }

  function HostnamesOf(hosts: seq<string>): seq<string> {
    if |hosts| > 1 || HOST_WILDCARD !in hosts then hosts else []
  }

  /** The name with a counter, from 1, if there is more than one to tell apart. */
  function Counted(name: string, n: nat, i: nat): string {
    if n > 1 then name + "-" + Format(i + 1) else name
  }

  /** The name of route `j` of group `i`. */
  function RouteName(prefix: string, groups: nat, i: nat, routes: nat, j: nat): string {
    Counted(Counted(prefix + "-route", groups, i), routes, j)
  }

  function Cut(ms: seq<RuleMatcher>, j: nat): (r: seq<RuleMatcher>)
    requires j < RoutesFor(|ms|)
  {
    ms[j * 128..Least(j * 128 + 128, |ms|)]
  }

  function NewRoute(c: Config, name: string, t: Target, ms: seq<RuleMatcher>): Route {
    Route(c.namespace, name, c.prefix + "-gateway", t.section, HostnamesOf(t.hosts), RulesOf(ms, c))
  }

  function GroupRoute(c: Config, groups: nat, i: nat, t: Target, ms: seq<RuleMatcher>, j: nat): Route
    requires j < RoutesFor(|ms|)
  {
    NewRoute(c, RouteName(c.prefix, groups, i, RoutesFor(|ms|), j), t, Cut(ms, j))
  }

  function GroupRoutes(c: Config, groups: nat, i: nat, t: Target, ms: seq<RuleMatcher>): (rs: seq<Route>)
    ensures |rs| == RoutesFor(|ms|) && forall j :: 0 <= j < |rs| ==> rs[j] == GroupRoute(c, groups, i, t, ms, j)
  {
    seq(RoutesFor(|ms|), j requires 0 <= j < RoutesFor(|ms|) => GroupRoute(c, groups, i, t, ms, j))
  }

  // ---- Listeners --------------------------------------------------------------------------------------

  /** The name of a listener, from its protocol and host. */
  function ListenerName(listener: string): string {
    var a := match AuthorityOf(listener) case Some(a) => a case None => Authority("http", HOST_WILDCARD);
    (if a.host != HOST_WILDCARD then NameFromHost(a.host) + "-" else "") + a.scheme
  }

  /** The listeners of all groups, one after the other. */
  function ListenersIn(groups: seq<string>): seq<string> {
    FlatMap(groups, g => Split(g, HOST_SEPARATOR))
  }

  function Same(s: string): string {
    s
  }

  /** The gateway's listeners: each at its first occurrence. */
  function Declared(groups: seq<string>): seq<string> {
    FirstKeys(ListenersIn(groups), Same)
  }

  /** The loop that declares the listeners of the gateway. */
  method DeclareListeners(groups: seq<string>) returns (listeners: seq<string>, unique: set<string>)
    ensures listeners == Declared(groups) && forall l :: l in unique <==> l in listeners
  {
    listeners, unique := [], {};
    for i := 0 to |groups|
      invariant listeners == Declared(groups[..i]) && forall l :: l in unique <==> l in listeners
    {
      assert groups[..i + 1][..i] == groups[..i];
      listeners, unique := AddListeners(ListenersIn(groups[..i]), Split(groups[i], HOST_SEPARATOR), listeners, unique);
    }
    assert groups[..|groups|] == groups;
  }

  lemma {:induction false} OneMoreListener(before: seq<string>, l: string)
    ensures var was := FirstKeys(before, Same); FirstKeys(before + [l], Same) == if l in was then was else was + [l]
  {
    OfKeyGrows(before, l, Same, l);
  }

  method AddListeners(ghost before: seq<string>, parts: seq<string>, listeners0: seq<string>, unique0: set<string>)
    returns (listeners: seq<string>, unique: set<string>)
    requires listeners0 == FirstKeys(before, Same) && forall l :: l in unique0 <==> l in listeners0
    ensures listeners == FirstKeys(before + parts, Same) && forall l :: l in unique <==> l in listeners
  {
    listeners, unique := listeners0, unique0;
    assert before + parts[..0] == before;
    for j := 0 to |parts|
      invariant listeners == FirstKeys(before + parts[..j], Same) && forall l :: l in unique <==> l in listeners
    {
      assert before + parts[..j + 1] == before + parts[..j] + [parts[j]];
      OneMoreListener(before + parts[..j], parts[j]);
      if parts[j] !in unique {
        listeners := listeners + [parts[j]];
        unique := unique + {parts[j]};
      }
    }
    assert parts[..|parts|] == parts;
  }

  /** A group of one listener attaches to that listener, if the gateway has others. */
  function SectionOf(groups: seq<string>, group: string): Option<string> {
    var listeners := Split(group, HOST_SEPARATOR);
    if |Declared(groups)| > 1 && |listeners| == 1 then Some(ListenerName(listeners[0])) else None
  }

  function TargetOf(groups: seq<string>, group: string): Target {
    Target(HostsOf(group), SectionOf(groups, group))
  }

  // ---- Routes -----------------------------------------------------------------------------------------

  function RoutesOfGroup(c: Config, groups: seq<string>, byGroup: map<string, seq<RuleMatcher>>, i: nat): seq<Route>
    requires i < |groups| && groups[i] in byGroup
  {
    GroupRoutes(c, |groups|, i, TargetOf(groups, groups[i]), byGroup[groups[i]])
  }

  /** The routes of the first `k` groups, group by group. */
  function ByGroups(c: Config, groups: seq<string>, byGroup: map<string, seq<RuleMatcher>>,
                    k: nat): (parts: seq<seq<Route>>)
    requires k <= |groups| && forall g :: g in groups ==> g in byGroup
    ensures |parts| == k && forall i :: 0 <= i < k ==> parts[i] == RoutesOfGroup(c, groups, byGroup, i)
  {
    seq(k, i requires 0 <= i < k => RoutesOfGroup(c, groups, byGroup, i))
  }

  function Whole(part: seq<Route>): seq<Route> {
    part
  }

  function RoutesOf(c: Config, groups: seq<string>, byGroup: map<string, seq<RuleMatcher>>, k: nat): seq<Route>
    requires k <= |groups| && forall g :: g in groups ==> g in byGroup
  {
    FlatMap(ByGroups(c, groups, byGroup, k), Whole)
  }

  lemma {:induction false} RoutesGrow(c: Config, groups: seq<string>, byGroup: map<string, seq<RuleMatcher>>, k: nat)
    requires k < |groups| && forall g :: g in groups ==> g in byGroup
    ensures RoutesOf(c, groups, byGroup, k + 1) == RoutesOf(c, groups, byGroup, k) + RoutesOfGroup(c, groups,
      byGroup, k)
  {
    assert ByGroups(c, groups, byGroup, k + 1)[..k] == ByGroups(c, groups, byGroup, k);
  }

  method SortGroups(byGroup: map<string, seq<RuleMatcher>>, group: string) returns (ms: seq<RuleMatcher>)
    requires group in byGroup
    ensures Sorted(ms, RuleAtMost) && multiset(ms) == multiset(byGroup[group])
  {
    RuleAtMostIsPreorder();
    ms := SortBy(byGroup[group], RuleAtMost);
  }

  method ToHTTPRoute(c: Config, name: string, t: Target, ms: seq<RuleMatcher>) returns (route: Route)
    ensures route == NewRoute(c, name, t, ms)
  {
    var rules := ToHTTPRouteRules(ms, c);
    route := Route(c.namespace, name, c.prefix + "-gateway", t.section, [], rules);
    if |t.hosts| > 1 || HOST_WILDCARD !in t.hosts {
      route := route.(hostnames := t.hosts);
    }
  }

  method NameRoute(prefix: string, groups: nat, i: nat, routes: nat, j: nat) returns (name: string)
    ensures name == RouteName(prefix, groups, i, routes, j)
  {
    name := prefix + "-route";
    if groups > 1 {
      name := name + "-" + Format(i + 1);
    }
    if routes > 1 {
      name := name + "-" + Format(j + 1);
    }
  }

  /** The routes of group `i`. */
  method CutGroup(c: Config, groups: nat, i: nat, t: Target, ms: seq<RuleMatcher>) returns (routes: seq<Route>)
    ensures routes == GroupRoutes(c, groups, i, t, ms)
  {
    var nRoutes := |ms| / 128;
    if |ms| % 128 != 0 {
      nRoutes := nRoutes + 1;
    }
    routes := [];
    assert nRoutes == RoutesFor(|ms|);
    for j := 0 to nRoutes
      invariant |routes| == j
      invariant forall k :: 0 <= k < j ==> routes[k] == GroupRoute(c, groups, i, t, ms, k)
    {
      var routeName := NameRoute(c.prefix, groups, i, nRoutes, j);
      var last := (j + 1) * 128;
      if last > |ms| {
        last := |ms|;
      }
      var route := ToHTTPRoute(c, routeName, t, ms[j * 128..last]);
      routes := routes + [route];
    }
  }

  /** From the matchers of a spec to its routes and the listeners of its gateway; `groups` and `sorted`
      show how the matchers were grouped. */
  method ToHTTPRoutes(c: Config, matchers: seq<Matcher>)
    returns (routes: seq<Route>, listeners: seq<string>, groups: seq<string>, sorted: map<string, seq<RuleMatcher>>)
    ensures IsGrouping(matchers, groups, sorted) && SortedGrouping(groups, sorted)
    ensures routes == RoutesOf(c, groups, sorted, |groups|)
    ensures listeners == Declared(groups)
  {
    var byMatcher := ListenersByMatcher(matchers);
    assert GroupsOf(matchers) == map r | r in byMatcher :: Join(byMatcher[r], HOST_SEPARATOR);
    var unsorted, byGroup := Invert(GroupsOf(matchers), byMatcher);
    groups := SortStrings(unsorted);
    SortingGroups(GroupsOf(matchers), unsorted, byGroup);
    var unique;
    listeners, unique := DeclareListeners(groups);
    FirstKeysAreDistinct(ListenersIn(groups), Same);
    CountDistinct(listeners, unique);
    routes, sorted := [], byGroup;
    for i := 0 to |groups|
      invariant IsGrouping(matchers, groups, sorted)
      invariant SortedBefore(groups, sorted, i)
      invariant routes == RoutesOf(c, groups, sorted, i)
    {
      var t := ToTarget(groups, groups[i], unique);
      var ms := SortGroups(sorted, groups[i]);
      ghost var was := sorted;
      sorted := sorted[groups[i] := ms];
      PermutingAGroup(GroupsOf(matchers), groups, was, groups[i], ms);
      SortingAGroup(c, groups, was, i, ms);
      RoutesGrow(c, groups, sorted, i);
      var ofGroup := CutGroup(c, |groups|, i, t, ms);
      routes := routes + ofGroup;
    }
  }

  /** The hosts and the section of a group. */
  method ToTarget(ghost groups: seq<string>, group: string, unique: set<string>) returns (t: Target)
    requires |unique| == |Declared(groups)|
    ensures t == TargetOf(groups, group)
  {
    var listeners := Split(group, HOST_SEPARATOR);
    var section := None;
    if |unique| > 1 && |listeners| == 1 {
      section := Some(ListenerName(listeners[0]));
    }
    t := Target(Compact(SortStrings(Map(listeners, UriToHostname))), section);
  }

  lemma {:induction false} CountDistinct(s: seq<string>, u: set<string>)
    requires NoDuplicates(s) && forall x :: x in u <==> x in s
    ensures |u| == |s|
  {
    if s == [] {
      assert u == {};
    } else {
      var n := |s| - 1;
      assert s == s[..n] + [s[n]];
      NoDuplicatesAppend(s[..n], s[n]);
      CountDistinct(s[..n], u - {s[n]});
    }
  }

  lemma {:induction false} SortingGroups(groupOf: map<RuleMatcher, string>, unsorted: seq<string>,
                                         byGroup: map<string, seq<RuleMatcher>>)
    requires Inverse(groupOf, unsorted, byGroup)
    ensures Inverse(groupOf, SortStrings(unsorted), byGroup) && Sorted(SortStrings(unsorted), AtMost)
  {
    SortStringsSorts(unsorted);
    PermutationHasNoDuplicates(unsorted, SortStrings(unsorted));
  }

  ghost predicate SortedBefore(groups: seq<string>, byGroup: map<string, seq<RuleMatcher>>, i: nat) {
    i <= |groups| && forall k :: 0 <= k < i ==> groups[k] in byGroup && Sorted(byGroup[groups[k]], RuleAtMost)
  }

  lemma {:induction false} PermutingAGroup(groupOf: map<RuleMatcher, string>, groups: seq<string>,
                                           byGroup: map<string, seq<RuleMatcher>>,
                        g: string, ms: seq<RuleMatcher>)
    requires Inverse(groupOf, groups, byGroup) && g in byGroup && multiset(ms) == multiset(byGroup[g])
    ensures Inverse(groupOf, groups, byGroup[g := ms])
  {
    var was := byGroup[g];
    PermutationHasNoDuplicates(was, ms);
    forall r
      ensures r in ms <==> r in was
    {
      assert r in multiset(ms) <==> r in multiset(was);
    }
    assert |multiset(ms)| == |ms|;
  }

  lemma {:induction false} SortingAGroup(c: Config, groups: seq<string>, byGroup: map<string, seq<RuleMatcher>>,
                                         i: nat, ms: seq<RuleMatcher>)
    requires NoDuplicates(groups) && i < |groups| && forall g :: g in groups ==> g in byGroup
    requires SortedBefore(groups, byGroup, i) && Sorted(ms, RuleAtMost)
    ensures SortedBefore(groups, byGroup[groups[i] := ms], i + 1)
    ensures RoutesOf(c, groups, byGroup, i) == RoutesOf(c, groups, byGroup[groups[i] := ms], i)
  {
    SameRoutesBefore(c, groups, byGroup, byGroup[groups[i] := ms], i);
  }

  lemma {:induction false} SameRoutesBefore(c: Config, groups: seq<string>, a: map<string, seq<RuleMatcher>>,
                                            b: map<string, seq<RuleMatcher>>, k: nat)
    requires k <= |groups| && forall g :: g in groups ==> g in a && g in b
    requires forall j :: 0 <= j < k ==> a[groups[j]] == b[groups[j]]
    ensures RoutesOf(c, groups, a, k) == RoutesOf(c, groups, b, k)
  {
    forall i | 0 <= i < k
      ensures RoutesOfGroup(c, groups, a, i) == RoutesOfGroup(c, groups, b, i)
    {
    }
    assert ByGroups(c, groups, a, k) == ByGroups(c, groups, b, k);
  }
}
