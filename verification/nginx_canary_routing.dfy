module NginxCanaryRouting {
  /** What the canary pass means for requests (pkg/i2gw/providers/ingressnginx/canary.go): which requests
      the rules that it adds select, where they go, and what share of the others the canary gets. */

  import opened BackendSources
  import opened Gateway
  import opened NginxCanary
  import opened NginxSources
  import opened Numerals
  import opened Optional

  /** A request, by the path matches that it meets and its headers. */
  datatype Request = Request(meets: iset<PathMatch>, headers: map<string, string>)

  ghost predicate MeetsPath(path: Option<PathMatch>, request: Request) {
    path.Some? ==> path.value in request.meets
  }

  predicate Carries(request: Request, header: string, value: string) {
    header in request.headers && request.headers[header] == value
  }

  ghost predicate Selects(m: RouteMatch, request: Request) {
    MeetsPath(m.path, request) && forall h :: h in m.headers ==> Carries(request, h.name, h.value)
  }

  /** A rule selects what one of its matches selects, and everything if it has none. */
  ghost predicate RuleSelects(rule: Rule, request: Request) {
    rule.matches == [] || exists m :: m in rule.matches && Selects(m, request)
  }

  /** The path of the first match; all requests have it if there is no match or no path in it. */
  function FirstPath(rule: Rule): Option<PathMatch> {
    if rule.matches == [] then None else rule.matches[0].path
  }

  /** The ingress of the canary. */
  function CanaryIngress(sources: seq<BackendSource>): Ingress
    requires Paired(sources)
  {
    sources[FirstMarked(sources)].ingress.value
  }

  /** The header that chooses the canary, and its value; empty if not configured. */
  function ByHeader(sources: seq<BackendSource>): string
    requires Paired(sources)
  {
    Annotation(CanaryIngress(sources), "nginx.ingress.kubernetes.io/canary-by-header")
  }

  function ByHeaderValue(sources: seq<BackendSource>): string
    requires Paired(sources)
  {
    Annotation(CanaryIngress(sources), "nginx.ingress.kubernetes.io/canary-by-header-value")
  }

  /** A rule for the requests with the path of `rule` and one header, that go to one backend. */
  ghost predicate SendsHeaderTo(added: Rule, rule: Rule, header: string, value: string, backend: BackendRef) {
    && (forall request ::
          RuleSelects(added, request) <==> MeetsPath(FirstPath(rule), request) && Carries(request, header, value))
    && added.backends == [Unweighted(backend)]
    && added.filters == []
  }

  lemma {:induction false} OneHeaderSelects(added: Rule, path: Option<PathMatch>, header: string, value: string,
                                            request: Request)
    requires added.matches == [RouteMatch(path, [HeaderMatch(header, value)])]
    ensures RuleSelects(added, request) <==> MeetsPath(path, request) && Carries(request, header, value)
  {
    var m := added.matches[0];
    assert m in added.matches && m.headers[0] in m.headers;
  }

  lemma {:induction false} HeaderRuleSends(added: Rule, rule: Rule, header: string, value: string, backend: BackendRef)
    requires added == HeaderMatchRule(header, value, rule.matches, Unweighted(backend))
    ensures SendsHeaderTo(added, rule, header, value, backend)
  {
    forall request
      ensures RuleSelects(added, request) <==> MeetsPath(FirstPath(rule), request) && Carries(request, header, value)
    {
      OneHeaderSelects(added, FirstPath(rule), header, value, request);
    }
  }

  /** The rules that are added: with a configured value one, for that value, to the canary; without one
      two, for "always" to the canary and for "never" to the other backend; and none without a header. */
  lemma {:induction false} AddedRulesSend(rule: Rule, sources: seq<BackendSource>)
    requires Indexable(rule, sources) && Paired(sources)
    ensures var added, c, n := CanaryOutcome(rule, sources).newRules, FirstMarked(sources), FirstUnmarked(sources);
      var header, value := ByHeader(sources), ByHeaderValue(sources);
      && (header == "" ==> added == [])
      && (header != "" && value != "" ==>
        |added| == 1 && SendsHeaderTo(added[0], rule, header, value, rule.backends[c]))
      && (header != "" && value == "" ==>
            && |added| == 2
            && SendsHeaderTo(added[0], rule, header, "always", rule.backends[c])
            && SendsHeaderTo(added[1], rule, header, "never", rule.backends[n]))
  {
    var added, c, n := CanaryOutcome(rule, sources).newRules, FirstMarked(sources), FirstUnmarked(sources);
    var header, value := ByHeader(sources), ByHeaderValue(sources);
    if header != "" {
      HeaderRuleSends(added[0], rule, header, if value != "" then value else "always", rule.backends[c]);
      if value == "" {
        HeaderRuleSends(added[1], rule, header, "never", rule.backends[n]);
      }
    }
  }

  /** For the rules of a converted ingress, which have one match and no headers: the added rules select
      part of what the rule selects, by the header alone. */
  lemma {:induction false} AddedRulesSplitRule(rule: Rule, sources: seq<BackendSource>, request: Request)
    requires Indexable(rule, sources) && Paired(sources) && ByHeader(sources) != ""
    requires |rule.matches| == 1 && rule.matches[0].headers == []
    ensures var added := CanaryOutcome(rule, sources).newRules;
      var header, value := ByHeader(sources), ByHeaderValue(sources);
      && |added| > 0
      && (RuleSelects(added[0], request) <==>
            RuleSelects(rule, request) && Carries(request, header, if value != "" then value else "always"))
      && (|added| > 1 ==>
            (RuleSelects(added[1], request) <==> RuleSelects(rule, request) && Carries(request, header, "never")))
  {
    AddedRulesSend(rule, sources);
    var m := rule.matches[0];
    assert m in rule.matches;
    assert RuleSelects(rule, request) <==> MeetsPath(m.path, request);
  }

  // ---- Shares -------------------------------------------------------------------------------------------

  /** The total that the canary's weight is out of: 100, unless the annotation gives a positive number. */
  function Total(ingress: Ingress): int {
    var parsed := ParseInt32(Annotation(ingress, "nginx.ingress.kubernetes.io/canary-weight-total"));
    if parsed.value > 0 then parsed.value else 100
  }

  /** The canary's share of it: nothing, unless the annotation gives a number that is not negative; at
      most everything. */
  function Share(ingress: Ingress): int {
    var parsed := ParseInt32(Annotation(ingress, "nginx.ingress.kubernetes.io/canary-weight"));
    if !parsed.ok || parsed.value < 0 then 0
    else if parsed.value > Total(ingress) then Total(ingress)
    else parsed.value
  }

  /** A weight that counts was configured. */
  predicate HasShare(ingress: Ingress) {
    var parsed := ParseInt32(Annotation(ingress, "nginx.ingress.kubernetes.io/canary-weight"));
    parsed.ok && parsed.value >= 0
  }

  /** The canary says so itself, the other one does not. */
  lemma {:induction false} CanaryIsMarked(sources: seq<BackendSource>)
    requires Paired(sources)
    ensures Annotation(CanaryIngress(sources), "nginx.ingress.kubernetes.io/canary") == "true"
    ensures var other := sources[FirstUnmarked(sources)].ingress;
      other.Some? && Annotation(other.value, "nginx.ingress.kubernetes.io/canary") != "true"
  {
  }

  /** The rule itself: the canary gets its share and the other backend the rest, unless it is chosen by
      header alone; then it is gone from the rule, whose other backends keep their order. */
  lemma {:induction false} RuleSharesOut(rule: Rule, sources: seq<BackendSource>)
    requires Indexable(rule, sources) && Paired(sources)
    ensures var left, c, n := CanaryOutcome(rule, sources).rule, FirstMarked(sources), FirstUnmarked(sources);
      var ingress := CanaryIngress(sources);
      && left.matches == rule.matches && left.filters == rule.filters
      && (HasShare(ingress) || ByHeader(sources) == "" ==>
            && |left.backends| == |rule.backends|
            && left.backends[c] == rule.backends[c].(weight := Some(Share(ingress)))
            && left.backends[n] == rule.backends[n].(weight := Some(Total(ingress) - Share(ingress)))
            && forall k | 0 <= k < |rule.backends| :: k != c && k != n ==> left.backends[k] == rule.backends[k])
      && (!HasShare(ingress) && ByHeader(sources) != "" ==>
            left.backends == rule.backends[..c] + rule.backends[c + 1..])
  {
    var c, n := FirstMarked(sources), FirstUnmarked(sources);
    assert c != n;
    assert ParseInt32("") == Parsed(0, false);
  }

  // ---- The whole decision ---------------------------------------------------------------------------------

  /** The backends that a request goes to: those of an added rule that selects it, since a Gateway prefers
      the match with more headers, and otherwise those of the rule itself. */
  ghost predicate GoesTo(o: Outcome, request: Request, backends: seq<BackendRef>) {
    || (exists i :: 0 <= i < |o.newRules| && RuleSelects(o.newRules[i], request) && backends == o.newRules[i].backends)
    || ((forall i :: 0 <= i < |o.newRules| ==> !RuleSelects(o.newRules[i], request)) && backends == o.rule.backends)
  }

  /** The header decides first: "always" or the configured value means the canary, "never" the other
      backend. All other requests are shared out by weight, or leave the canary out. */
  function Decided(rule: Rule, sources: seq<BackendSource>, request: Request): seq<BackendRef>
    requires Indexable(rule, sources) && Paired(sources)
  {
    var c, n := FirstMarked(sources), FirstUnmarked(sources);
    var ingress, header, value := CanaryIngress(sources), ByHeader(sources), ByHeaderValue(sources);
    if header != "" && Carries(request, header, if value != "" then value else "always") then
      [rule.backends[c].(weight := None)]
    else if header != "" && value == "" && Carries(request, header, "never") then
      [rule.backends[n].(weight := None)]
    else if header == "" || HasShare(ingress) then
      rule.backends[c := rule.backends[c].(weight := Some(Share(ingress)))]
                   [n := rule.backends[n].(weight := Some(Total(ingress) - Share(ingress)))]
    else
      rule.backends[..c] + rule.backends[c + 1..]
  }

  lemma {:induction false} AddedRulesDecide(rule: Rule, sources: seq<BackendSource>, request: Request, i: nat)
    requires Indexable(rule, sources) && Paired(sources) && RuleSelects(rule, request)
    requires |rule.matches| == 1 && rule.matches[0].headers == []
    requires i < |CanaryOutcome(rule, sources).newRules|
    requires RuleSelects(CanaryOutcome(rule, sources).newRules[i], request)
    ensures CanaryOutcome(rule, sources).newRules[i].backends == Decided(rule, sources, request)
  {
    AddedRulesSend(rule, sources);
    if ByHeader(sources) != "" {
      AddedRulesSplitRule(rule, sources, request);
    }
  }

  lemma {:induction false} RestIsShared(rule: Rule, sources: seq<BackendSource>, request: Request)
    requires Indexable(rule, sources) && Paired(sources) && RuleSelects(rule, request)
    requires |rule.matches| == 1 && rule.matches[0].headers == []
    requires var added := CanaryOutcome(rule, sources).newRules;
      forall i :: 0 <= i < |added| ==> !RuleSelects(added[i], request)
    ensures CanaryOutcome(rule, sources).rule.backends == Decided(rule, sources, request)
  {
    RuleSharesOut(rule, sources);
    AddedRulesSend(rule, sources);
    if ByHeader(sources) != "" {
      AddedRulesSplitRule(rule, sources, request);
    }
  }

  /** For a rule with one match and no headers in it: of the requests that it selects each goes where the
      header or the weights decide, and nowhere else. */
  lemma {:induction false} CanaryDecides(rule: Rule, sources: seq<BackendSource>, request: Request,
                                         backends: seq<BackendRef>)
    requires Indexable(rule, sources) && Paired(sources) && RuleSelects(rule, request)
    requires |rule.matches| == 1 && rule.matches[0].headers == []
    ensures GoesTo(CanaryOutcome(rule, sources), request, backends) <==> backends == Decided(rule, sources, request)
  {
    var o := CanaryOutcome(rule, sources);
    forall i | 0 <= i < |o.newRules| && RuleSelects(o.newRules[i], request)
      ensures o.newRules[i].backends == Decided(rule, sources, request)
    {
      AddedRulesDecide(rule, sources, request, i);
    }
    if forall i :: 0 <= i < |o.newRules| ==> !RuleSelects(o.newRules[i], request) {
      RestIsShared(rule, sources, request);
    }
  }
}
