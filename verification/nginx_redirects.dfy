module NginxRedirects {
  /**
   The explicit redirects of ingress-nginx: temporal and permanent ones
   (pkg/i2gw/providers/ingressnginx/redirect.go, redirectFeature) and app roots (approot.go).
   */

  import opened Optional
  import opened Gateway
  import opened Numerals
  import opened BackendSources
  import opened NginxSources

  const TEMPORAL_REDIRECT := "nginx.ingress.kubernetes.io/temporal-redirect"
  const TEMPORAL_REDIRECT_CODE := "nginx.ingress.kubernetes.io/temporal-redirect-code"
  const PERMANENT_REDIRECT := "nginx.ingress.kubernetes.io/permanent-redirect"
  const PERMANENT_REDIRECT_CODE := "nginx.ingress.kubernetes.io/permanent-redirect-code"
  const APP_ROOT := "nginx.ingress.kubernetes.io/app-root"

  /** What url.Parse makes of a redirect URL, None when it or its port does not parse. */
  datatype Target = Target(scheme: Option<string>, hostname: Option<string>, port: Option<int>, path: string)

  type UrlParser = string -> Option<Target>

  predicate IsValidTemporalRedirectCode(code: int) {
    code == 301 || code == 302 || code == 303 || code == 307
  }

  predicate IsValidPermanentRedirectCode(code: int) {
    code == 301 || code == 302 || code == 303 || code == 307 || code == 308
  }

  /** The status code of an annotation, or the default. Valid codes fit 32 bits, so reading the
      number as strconv.Atoi does, in 64, makes no difference. */
  function CodeOr(s: string, valid: int -> bool, default: int): int {
    if s != "" && ParseInt32(s).ok && valid(ParseInt32(s).value) then ParseInt32(s).value else default
  }

  /** The redirect that an ingress asks for. */
  function RedirectOf(ingress: Ingress, parse: UrlParser): Option<Redirect> {
    var hasTemporal := TEMPORAL_REDIRECT in ingress.annotations;
    var hasPermanent := PERMANENT_REDIRECT in ingress.annotations;
    if !hasPermanent && !hasTemporal then None
    else
      var url := Annotation(ingress, if hasTemporal then TEMPORAL_REDIRECT else PERMANENT_REDIRECT);
      var code := if hasTemporal
        then CodeOr(Annotation(ingress, TEMPORAL_REDIRECT_CODE), IsValidTemporalRedirectCode, 302)
        else CodeOr(Annotation(ingress, PERMANENT_REDIRECT_CODE), IsValidPermanentRedirectCode, 301);
      if url == "" || parse(url).None? then None
      else
        var t := parse(url).value;
        Some(Redirect(t.scheme, t.hostname, t.port, Some(code), Some(if t.path == "" then "/" else t.path)))
  }

  /** Temporal redirects take precedence, even with an empty URL, and status codes are ones that a
      Gateway accepts. */
  lemma {:induction false} TemporalTakesPrecedence(ingress: Ingress, parse: UrlParser)
    ensures var r := RedirectOf(ingress, parse);
      && (r.Some? ==> r.value.statusCode.Some? && IsValidPermanentRedirectCode(r.value.statusCode.value))
      && (r.Some? && TEMPORAL_REDIRECT in ingress.annotations ==> r.value.statusCode != Some(308))
      && (TEMPORAL_REDIRECT in ingress.annotations ==>
            r == RedirectOf(ingress.(annotations := ingress.annotations - {PERMANENT_REDIRECT}), parse))
  {
    var without := ingress.(annotations := ingress.annotations - {PERMANENT_REDIRECT});
    assert TEMPORAL_REDIRECT != PERMANENT_REDIRECT by { assert TEMPORAL_REDIRECT[28] != PERMANENT_REDIRECT[28]; }
    assert TEMPORAL_REDIRECT_CODE != PERMANENT_REDIRECT by {
      assert TEMPORAL_REDIRECT_CODE[28] != PERMANENT_REDIRECT[28];
    }
    assert Annotation(without, TEMPORAL_REDIRECT) == Annotation(ingress, TEMPORAL_REDIRECT);
    assert Annotation(without, TEMPORAL_REDIRECT_CODE) == Annotation(ingress, TEMPORAL_REDIRECT_CODE);
  }

  /** The number that the annotation gives, if it is one of these, or the default. */
  function ConfiguredCode(s: string, allowed: set<int>, default: int): int {
    if ParseInt32(s).ok && ParseInt32(s).value in allowed then ParseInt32(s).value else default
  }

  /** A redirect to the URL, with its parts, "/" for an absent path, and this status; none if the URL is
      empty or does not parse. */
  predicate RedirectsTo(r: Option<Redirect>, url: string, parse: UrlParser, code: int) {
    if url == "" || parse(url).None? then r.None?
    else
      var t := parse(url).value;
      && r.Some? && r.value.scheme == t.scheme && r.value.hostname == t.hostname && r.value.port == t.port
      && r.value.statusCode == Some(code)
      && r.value.replaceFullPath == Some(if t.path == "" then "/" else t.path)
  }

  /** Which annotation a redirect comes from, and what its status may be. */
  lemma {:induction false} RedirectInFull(ingress: Ingress, parse: UrlParser)
    ensures var temporal, permanent :=
        "nginx.ingress.kubernetes.io/temporal-redirect", "nginx.ingress.kubernetes.io/permanent-redirect";
      var r := RedirectOf(ingress, parse);
      if temporal in ingress.annotations then
        RedirectsTo(r, ingress.annotations[temporal], parse,
          ConfiguredCode(Annotation(ingress, temporal + "-code"), {301, 302, 303, 307}, 302))
      else if permanent in ingress.annotations then
        RedirectsTo(r, ingress.annotations[permanent], parse,
          ConfiguredCode(Annotation(ingress, permanent + "-code"), {301, 302, 303, 307, 308}, 301))
      else r.None?
  {
    assert TEMPORAL_REDIRECT + "-code" == TEMPORAL_REDIRECT_CODE;
    assert PERMANENT_REDIRECT + "-code" == PERMANENT_REDIRECT_CODE;
  }

  function Redirected(rule: Rule, redirect: Redirect): Rule {
    rule.(filters := rule.filters + [RequestRedirect(redirect)], backends := [])
  }

  function AfterRedirect(rule: Rule, sources: seq<BackendSource>, parse: UrlParser): Rule
    requires Known(sources)
  {
    var primary := GetNonCanaryIngress(sources);
    if primary.Some? && RedirectOf(primary.value, parse).Some?
    then Redirected(rule, RedirectOf(primary.value, parse).value)
    else rule
  }

  /** A redirected rule keeps its matches, gets the redirect as its last filter and loses its backends. */
  lemma {:induction false} AfterRedirectInFull(rule: Rule, sources: seq<BackendSource>, parse: UrlParser)
    requires Known(sources)
    ensures var after := AfterRedirect(rule, sources, parse);
      && after.matches == rule.matches
      && (sources == [] ==> after == rule)
      && (sources != [] ==>
            match RedirectOf(GetNonCanaryIngress(sources).value, parse)
            case Some(r) => after.filters == rule.filters + [RequestRedirect(r)] && after.backends == []
            case None => after == rule)
  {
  }

  method RedirectRules(rules: seq<Rule>, sources: seq<seq<BackendSource>>, parse: UrlParser) returns (r: seq<Rule>)
    requires forall s :: s in sources ==> Known(s)
    ensures |r| == |rules|
    ensures forall i :: 0 <= i < |rules| ==>
      r[i] == if i < |sources| then AfterRedirect(rules[i], sources[i], parse) else rules[i]
  {
    r := rules;
    for i := 0 to |r|
      invariant |r| == |rules|
      invariant forall k :: 0 <= k < i ==>
        r[k] == if k < |sources| then AfterRedirect(rules[k], sources[k], parse) else rules[k]
      invariant forall k :: i <= k < |r| ==> r[k] == rules[k]
    {
      if i >= |sources| {
        continue;
      }
      var ingress := GetNonCanaryIngress(sources[i]);
      if ingress.None? {
        continue;
      }
      var redirect := RedirectOf(ingress.value, parse);
      if redirect.None? {
        continue;
      }
      r := r[i := r[i].(filters := r[i].filters + [RequestRedirect(redirect.value)])];
      r := r[i := r[i].(backends := [])];
    }
  }

  /** Backends are either kept or cleared, so they stay aligned; cleared exactly when redirected. */
  lemma {:induction false} RedirectsKeepAlignment(rules: seq<Rule>, r: seq<Rule>, sources: seq<seq<BackendSource>>,
                                                  parse: UrlParser)
    requires Aligned(rules, sources) && |r| == |rules|
    requires forall i :: 0 <= i < |rules| ==> r[i] == AfterRedirect(rules[i], sources[i], parse)
    ensures Aligned(r, sources)
    ensures forall i :: 0 <= i < |r| ==> r[i].filters != rules[i].filters ==> r[i].backends == []
    ensures forall i :: 0 <= i < |r| ==> r[i].filters == rules[i].filters ==> r[i] == rules[i]
  {
    forall i | 0 <= i < |r|
      ensures AlignedRule(r[i], sources[i])
      ensures r[i].filters != rules[i].filters ==> r[i].backends == []
      ensures r[i].filters == rules[i].filters ==> r[i] == rules[i]
    {
      assert AlignedRule(rules[i], sources[i]) && Known(sources[i]);
    }
  }

  // ---- App roots ------------------------------------------------------------------------------------

  /** `isAbsolute` is url.Parse's IsAbs. */
  predicate HasAppRoot(sources: seq<BackendSource>, isAbsolute: string -> bool)
    requires Known(sources)
  {
    var primary := GetNonCanaryIngress(sources);
    primary.Some? && Annotation(primary.value, APP_ROOT) != "" && !isAbsolute(Annotation(primary.value, APP_ROOT))
  }

  predicate IsExactRoot(m: RouteMatch) {
    m.path == Some(PathMatch(Some(Exact), Some("/")))
  }

  predicate MatchesExactRoot(rule: Rule) {
    exists m :: m in rule.matches && IsExactRoot(m)
  }

  function AppRootRedirect(path: string): Redirect {
    Redirect(None, None, None, Some(302), Some(path))
  }

  predicate AllKnown(sources: seq<seq<BackendSource>>) {
    forall i :: 0 <= i < |sources| ==> Known(sources[i])
  }

  /** The first rule with a usable app root, or the number of rules. */
  function AppRootIndex(rules: seq<Rule>, sources: seq<seq<BackendSource>>, isAbsolute: string -> bool): (i: nat)
    requires AllKnown(sources)
    ensures i <= |rules|
    ensures i < |rules| ==> i < |sources| && HasAppRoot(sources[i], isAbsolute)
    ensures forall k :: 0 <= k < i && k < |sources| ==> !HasAppRoot(sources[k], isAbsolute)
  {
    if rules == [] || sources == [] then |rules|
    else if HasAppRoot(sources[0], isAbsolute) then 0
    else 1 + AppRootIndex(rules[1..], sources[1..], isAbsolute)
  }

  /** The search for an app root: its path, and the index of its rule if that matches "/" exactly. */
  method FindAppRoot(rules: seq<Rule>, sources: seq<seq<BackendSource>>, isAbsolute: string -> bool)
      returns (appRootPath: string, exactRoot: int)
    requires AllKnown(sources)
    ensures var i := AppRootIndex(rules, sources, isAbsolute);
      if i == |rules| then appRootPath == "" && exactRoot == -1
      else
        && appRootPath == Annotation(GetNonCanaryIngress(sources[i]).value, APP_ROOT) != ""
        && exactRoot == if MatchesExactRoot(rules[i]) then i else -1
  {
    appRootPath, exactRoot := "", -1;
    ghost var first := AppRootIndex(rules, sources, isAbsolute);
    for i := 0 to |rules|
      invariant i <= first && appRootPath == "" && exactRoot == -1
    {
      if i >= |sources| {
        continue;
      }
      var ingress := GetNonCanaryIngress(sources[i]);
      if ingress.Some? && Annotation(ingress.value, APP_ROOT) != ""
        && !isAbsolute(Annotation(ingress.value, APP_ROOT)) {
        appRootPath := Annotation(ingress.value, APP_ROOT);
        for j := 0 to |rules[i].matches|
          invariant exactRoot == -1 && forall k :: 0 <= k < j ==> !IsExactRoot(rules[i].matches[k])
        {
          if IsExactRoot(rules[i].matches[j]) {
            exactRoot := i;
            break;
          }
        }
        break;
      }
    }
  }

  method AppRoot(rules: seq<Rule>, sources: seq<seq<BackendSource>>, isAbsolute: string -> bool)
      returns (r: seq<Rule>, s: seq<seq<BackendSource>>)
    requires AllKnown(sources)
    ensures var i := AppRootIndex(rules, sources, isAbsolute);
      if i == |rules| then r == rules && s == sources
      else
        var path := Annotation(GetNonCanaryIngress(sources[i]).value, "nginx.ingress.kubernetes.io/app-root");
        var redirect := Redirect(None, None, None, Some(302), Some(path));
        if MatchesExactRoot(rules[i]) then r == rules[i := Redirected(rules[i], redirect)] && s == sources
        else r == rules + [Rule([NewRouteMatch(Exact, "/")], [RequestRedirect(redirect)], [])] && s == sources + [[]]
  {
    r, s := rules, sources;
    var appRootPath, exactRoot := FindAppRoot(rules, sources, isAbsolute);
    if appRootPath == "" {
      return;
    }
    var redirect := AppRootRedirect(appRootPath);
    if exactRoot >= 0 {
      r := r[exactRoot := r[exactRoot].(filters := r[exactRoot].filters + [RequestRedirect(redirect)])];
      r := r[exactRoot := r[exactRoot].(backends := [])];
    } else {
      r := r + [Rule([NewRouteMatch(Exact, "/")], [RequestRedirect(redirect)], [])];
      s := s + [[]];
    }
  }
}
