module NginxCanary {
  /** Canary backends (pkg/i2gw/providers/ingressnginx/canary.go). */

  import opened Optional
  import opened Gateway
  import opened Numerals
  import opened BackendSources
  import opened NginxSources

  const CANARY_WEIGHT := "nginx.ingress.kubernetes.io/canary-weight"
  const CANARY_WEIGHT_TOTAL := "nginx.ingress.kubernetes.io/canary-weight-total"
  const CANARY_BY_HEADER := "nginx.ingress.kubernetes.io/canary-by-header"
  const CANARY_BY_HEADER_VALUE := "nginx.ingress.kubernetes.io/canary-by-header-value"

  datatype CanaryConfig = CanaryConfig(
    isHeader: bool, header: string, headerValue: string,
    isWeight: bool, weight: int, weightTotal: int)

  const NO_CONFIG := CanaryConfig(false, "", "", false, 0, 0)

  // ---- Weights --------------------------------------------------------------------------------------

  predicate ValidWeight(s: string) {
    s != "" && ParseInt32(s).ok && ParseInt32(s).value >= 0
  }

  /** The total that an annotation stands for; overflow does not fall back to 100. */
  function TotalOf(s: string): (total: int)
    ensures 1 <= total <= MAX_INT32
  {
    if s != "" && ParseInt32(s).value > 0 then ParseInt32(s).value else 100
  }

  function Min(x: int, y: int): int {
    if x <= y then x else y
  }

  method ParseCanaryConfig(ingress: Ingress) returns (config: CanaryConfig)
    ensures config == ConfigOf(ingress)
  {
    config := CanaryConfig(false, "", "", false, 0, 100);
    if Annotation(ingress, CANARY_BY_HEADER) != "" {
      config := config.(isHeader := true);
    }
    config := config.(header := Annotation(ingress, CANARY_BY_HEADER),
                      headerValue := Annotation(ingress, CANARY_BY_HEADER_VALUE));
    var weight := Annotation(ingress, CANARY_WEIGHT);
    if weight != "" {
      config := config.(isWeight := true);
      var w := ParseInt32(weight);
      if !w.ok {
        config := config.(isWeight := false);
      } else if w.value < 0 {
        config := config.(isWeight := false);
      } else {
        config := config.(weight := w.value);
      }
    }
    var total := Annotation(ingress, CANARY_WEIGHT_TOTAL);
    if total != "" {
      var wt := ParseInt32(total);
      if wt.value > 0 {
        config := config.(weightTotal := wt.value);
      }
    }
    if config.weight > config.weightTotal {
      config := config.(weight := config.weightTotal);
    }
  }

  function ConfigOf(ingress: Ingress): CanaryConfig {
    var header, weight := Annotation(ingress, CANARY_BY_HEADER), Annotation(ingress, CANARY_WEIGHT);
    var total := TotalOf(Annotation(ingress, CANARY_WEIGHT_TOTAL));
    CanaryConfig(header != "", header, Annotation(ingress, CANARY_BY_HEADER_VALUE),
                 ValidWeight(weight),
                 if ValidWeight(weight) then Min(ParseInt32(weight).value, total) else 0,
                 total)
  }

  /** Whatever the annotations say, the two weights are shares of a positive 32-bit total. */
  lemma {:induction false} WeightsAreShares(ingress: Ingress)
    ensures var c := ConfigOf(ingress);
      && 0 <= c.weight <= c.weightTotal && 1 <= c.weightTotal <= MAX_INT32
      && 0 <= c.weightTotal - c.weight <= MAX_INT32
  {
  }

  /** The default of 100 replaces a total that cannot be read, except when it is too large: then the
      largest 32-bit integer is taken, although the notification announces 100. */
  lemma {:induction false} UnreadableTotalIsHundredUnlessTooLarge(s: string)
    requires s != "" && !ParseInt32(s).ok
    ensures TotalOf(s) == 100 <==> ParseInt32(s).value != MAX_INT32
    ensures TotalOf(s) != 100 ==> TotalOf(s) == MAX_INT32 && s[0] != '-'
  {
  }

  // ---- Which backends -------------------------------------------------------------------------------

  /** The canary test of this file: the annotation is exactly "true". */
  predicate MarkedCanary(source: BackendSource) {
    source.ingress.Some? && Annotation(source.ingress.value, CANARY_ANNOTATION) == "true"
  }

  predicate Unmarked(source: BackendSource) {
    source.ingress.Some? && Annotation(source.ingress.value, CANARY_ANNOTATION) != "true"
  }

  function FirstMarked(sources: seq<BackendSource>): (i: int)
    ensures -1 <= i < |sources|
    ensures i >= 0 ==> MarkedCanary(sources[i])
  {
    if sources == [] then -1
    else
      var i := FirstMarked(sources[..|sources| - 1]);
      if i == -1 && MarkedCanary(sources[|sources| - 1]) then |sources| - 1 else i
  }

  function FirstUnmarked(sources: seq<BackendSource>): (i: int)
    ensures -1 <= i < |sources|
    ensures i >= 0 ==> Unmarked(sources[i])
  {
    if sources == [] then -1
    else
      var i := FirstUnmarked(sources[..|sources| - 1]);
      if i == -1 && Unmarked(sources[|sources| - 1]) then |sources| - 1 else i
  }

  lemma {:induction false} FirstsAreFirst(sources: seq<BackendSource>)
    ensures var i := FirstMarked(sources);
      forall k :: 0 <= k < (if i == -1 then |sources| else i) ==> !MarkedCanary(sources[k])
    ensures var i := FirstUnmarked(sources);
      forall k :: 0 <= k < (if i == -1 then |sources| else i) ==> !Unmarked(sources[k])
  {
    if sources != [] {
      FirstsAreFirst(sources[..|sources| - 1]);
    }
  }

  predicate Paired(sources: seq<BackendSource>) {
    FirstMarked(sources) != -1 && FirstUnmarked(sources) != -1
  }

  /** Source `c` is the only canary, and `n` the only other source of a known ingress. */
  predicate AtMostOneOfEach(sources: seq<BackendSource>, c: int, n: int) {
    forall j :: 0 <= j < |sources| ==> (MarkedCanary(sources[j]) ==> j == c) && (Unmarked(sources[j]) ==> j == n)
  }

  lemma {:induction false} FirstsGrow(sources: seq<BackendSource>, i: nat)
    requires i < |sources|
    ensures FirstMarked(sources[..i + 1]) ==
      if FirstMarked(sources[..i]) == -1 && MarkedCanary(sources[i]) then i else FirstMarked(sources[..i])
    ensures FirstUnmarked(sources[..i + 1]) ==
      if FirstUnmarked(sources[..i]) == -1 && Unmarked(sources[i]) then i else FirstUnmarked(sources[..i])
  {
    assert sources[..i + 1][..i] == sources[..i];
  }

  /** One more source is one too many exactly when one of its kind has come before. */
  lemma {:induction false} OneOfEachGrows(sources: seq<BackendSource>, i: nat)
    requires i < |sources|
    ensures AtMostOneOfEach(sources[..i + 1], FirstMarked(sources[..i + 1]), FirstUnmarked(sources[..i + 1])) <==>
      && AtMostOneOfEach(sources[..i], FirstMarked(sources[..i]), FirstUnmarked(sources[..i]))
      && (MarkedCanary(sources[i]) ==> FirstMarked(sources[..i]) == -1)
      && (Unmarked(sources[i]) ==> FirstUnmarked(sources[..i]) == -1)
  {
    FirstsAreFirst(sources[..i]);
    FirstsGrow(sources, i);
    assert sources[..i + 1] == sources[..i] + [sources[i]];
    forall j | 0 <= j < i
      ensures sources[..i + 1][j] == sources[..i][j]
    {
    }
    assert sources[..i + 1][i] == sources[i];
  }

  method FindBackends(sources: seq<BackendSource>)
      returns (config: CanaryConfig, canaryIdx: int, nonCanaryIdx: int, failed: bool)
    ensures canaryIdx == FirstMarked(sources) && nonCanaryIdx == FirstUnmarked(sources)
    ensures canaryIdx != -1 ==> config == ConfigOf(sources[canaryIdx].ingress.value)
    ensures failed <==> !AtMostOneOfEach(sources, canaryIdx, nonCanaryIdx)
  {
    canaryIdx, nonCanaryIdx, config, failed := -1, -1, NO_CONFIG, false;
    for i := 0 to |sources|
      invariant canaryIdx == FirstMarked(sources[..i]) && nonCanaryIdx == FirstUnmarked(sources[..i])
      invariant canaryIdx != -1 ==> config == ConfigOf(sources[canaryIdx].ingress.value)
      invariant failed <==> !AtMostOneOfEach(sources[..i], canaryIdx, nonCanaryIdx)
    {
      FirstsGrow(sources, i);
      OneOfEachGrows(sources, i);
      var source := sources[i];
      if source.ingress.None? {
        continue;
      }
      if Annotation(source.ingress.value, CANARY_ANNOTATION) == "true" {
        if canaryIdx != -1 {
          failed := true;
          continue;
        }
        config := ParseCanaryConfig(source.ingress.value);
        canaryIdx := i;
      } else {
        if nonCanaryIdx != -1 {
          failed := true;
          continue;
        }
        nonCanaryIdx := i;
      }
    }
    assert sources[..|sources|] == sources;
  }

  method GetCanaryInfo(sources: seq<BackendSource>)
      returns (canaryWeight: int, nonCanaryWeight: int, config: CanaryConfig, canaryIdx: int, nonCanaryIdx: int,
               failed: bool)
    ensures Paired(sources) ==>
      && canaryIdx == FirstMarked(sources) && nonCanaryIdx == FirstUnmarked(sources)
      && config == ConfigOf(sources[canaryIdx].ingress.value)
      && canaryWeight == config.weight && nonCanaryWeight == config.weightTotal - config.weight
    ensures !Paired(sources) ==> canaryIdx == -1 && nonCanaryIdx == -1
    ensures failed <==>
      || !AtMostOneOfEach(sources, FirstMarked(sources), FirstUnmarked(sources))
      || (FirstMarked(sources) != -1 && FirstUnmarked(sources) == -1)
  {
    config, canaryIdx, nonCanaryIdx, failed := FindBackends(sources);
    if canaryIdx != -1 {
      if nonCanaryIdx == -1 {
        return 0, 0, config, -1, -1, true;
      }
      return config.weight, config.weightTotal - config.weight, config, canaryIdx, nonCanaryIdx, failed;
    }
    return 0, 0, config, -1, -1, failed;
  }

  // ---- One rule ---------------------------------------------------------------------------------------

  /** What one rule becomes, and the header rules that it adds. */
  datatype Outcome = Outcome(rule: Rule, sources: seq<BackendSource>, newRules: seq<Rule>,
                             newSources: seq<seq<BackendSource>>)

  function HeaderMatchRule(header: string, value: string, existing: seq<RouteMatch>, backend: BackendRef): Rule {
    var path := if |existing| > 0 && existing[0].path.Some? then existing[0].path else None;
    Rule([RouteMatch(path, [HeaderMatch(header, value)])], [], [backend])
  }

  function Weigh(rule: Rule, c: nat, n: nat, config: CanaryConfig): Rule
    requires c < |rule.backends| && n < |rule.backends|
  {
    if config.isWeight || !config.isHeader then
      rule.(backends := rule.backends[c := rule.backends[c].(weight := Some(config.weight))]
                          [n := rule.backends[n].(weight := Some(config.weightTotal - config.weight))])
    else rule
  }

  function Without<T>(s: seq<T>, i: nat): seq<T>
    requires i < |s|
  {
    s[..i] + s[i + 1..]
  }

  /** The source indexes the rule's backends by positions found among its sources. */
  predicate Indexable(rule: Rule, sources: seq<BackendSource>) {
    Paired(sources) ==> FirstMarked(sources) < |rule.backends| <= |sources| && FirstUnmarked(sources) < |rule.backends|
  }

  function CanaryOutcome(rule: Rule, sources: seq<BackendSource>): Outcome
    requires Indexable(rule, sources)
  {
    if !Paired(sources) then Outcome(rule, sources, [], [])
    else
      var c, n := FirstMarked(sources), FirstUnmarked(sources);
      var config := ConfigOf(sources[c].ingress.value);
      var weighed := Weigh(rule, c, n, config);
      if !config.isHeader then Outcome(weighed, sources, [], [])
      else
        var value := if config.headerValue != "" then config.headerValue else "always";
        var always := HeaderMatchRule(config.header, value, rule.matches, Unweighted(weighed.backends[c]));
        var never := HeaderMatchRule(config.header, "never", rule.matches, Unweighted(weighed.backends[n]));
        var newRules := if config.headerValue == "" then [always, never] else [always];
        var both := [sources[c], sources[n]];
        var newSources := if config.headerValue == "" then [both, [sources[n]]] else [both];
        if config.isWeight then Outcome(weighed, sources, newRules, newSources)
        else
          Outcome(weighed.(backends := Without(weighed.backends, c)),
                  Without(sources[..|rule.backends|], c), newRules, newSources)
  }

  function Dropped<T>(s: seq<T>, c: nat): seq<T> {
    if c < |s| then Without(s, c) else s
  }

  lemma {:induction false} DroppedGrows<T>(s: seq<T>, i: nat, c: nat)
    requires i < |s|
    ensures Dropped(s[..i + 1], c) == Dropped(s[..i], c) + if i == c then [] else [s[i]]
  {
    assert s[..i + 1] == s[..i] + [s[i]];
    if c < i {
      assert s[..i + 1][c + 1..] == s[..i][c + 1..] + [s[i]];
    }
  }

  /** The loop that drops the canary from a header-only rule. */
  method DropBackend(backends: seq<BackendRef>, sources: seq<BackendSource>, c: nat)
      returns (keptBackends: seq<BackendRef>, keptSources: seq<BackendSource>)
    requires c < |backends| <= |sources|
    ensures keptBackends == Without(backends, c) && keptSources == Without(sources[..|backends|], c)
  {
    keptBackends, keptSources := [], [];
    for i := 0 to |backends|
      invariant keptBackends == Dropped(backends[..i], c) && keptSources == Dropped(sources[..i], c)
    {
      DroppedGrows(backends, i, c);
      DroppedGrows(sources, i, c);
      if i != c {
        keptBackends := keptBackends + [backends[i]];
        keptSources := keptSources + [sources[i]];
      }
    }
    assert backends[..|backends|] == backends;
  }

  method CanaryOneRule(rule: Rule, sources: seq<BackendSource>) returns (o: Outcome, failed: bool)
    requires Indexable(rule, sources)
    ensures o == CanaryOutcome(rule, sources)
  {
    var canaryWeight, nonCanaryWeight, config, canaryIdx, nonCanaryIdx, f := GetCanaryInfo(sources);
    failed := f;
    o := Outcome(rule, sources, [], []);
    if canaryIdx == -1 || nonCanaryIdx == -1 {
      return;
    }
    var backends := rule.backends;
    if config.isWeight || !config.isHeader {
      backends := backends[canaryIdx := backends[canaryIdx].(weight := Some(canaryWeight))];
      backends := backends[nonCanaryIdx := backends[nonCanaryIdx].(weight := Some(nonCanaryWeight))];
    }
    o := o.(rule := rule.(backends := backends));
    if config.isHeader {
      var value := "always";
      if config.headerValue != "" {
        value := config.headerValue;
      }
      var always := HeaderMatchRule(config.header, value, rule.matches, Unweighted(backends[canaryIdx]));
      o := o.(newRules := o.newRules + [always],
        newSources := o.newSources + [[sources[canaryIdx], sources[nonCanaryIdx]]]);
      if config.headerValue == "" {
        var never := HeaderMatchRule(config.header, "never", rule.matches, Unweighted(backends[nonCanaryIdx]));
        o := o.(newRules := o.newRules + [never], newSources := o.newSources + [[sources[nonCanaryIdx]]]);
      }
      if !config.isWeight {
        var kept, keptSources := DropBackend(backends, sources, canaryIdx);
        o := o.(rule := o.rule.(backends := kept), sources := keptSources);
      }
    }
  }

  // ---- The whole route ------------------------------------------------------------------------------

  /** Outcomes of the first rules, in order, and the header rules they add, also in order. */
  datatype RouteOutcome = RouteOutcome(rules: seq<Rule>, sources: seq<seq<BackendSource>>,
                                       newRules: seq<Rule>, newSources: seq<seq<BackendSource>>)

  predicate AllIndexable(rules: seq<Rule>, sources: seq<seq<BackendSource>>) {
    |rules| <= |sources| && forall i :: 0 <= i < |rules| ==> Indexable(rules[i], sources[i])
  }

  function CanaryRoute(rules: seq<Rule>, sources: seq<seq<BackendSource>>): (r: RouteOutcome)
    requires AllIndexable(rules, sources)
    ensures |r.rules| == |rules| == |r.sources| && |r.newRules| == |r.newSources|
  {
    if rules == [] then RouteOutcome([], [], [], [])
    else
      var n := |rules| - 1;
      var r, o := CanaryRoute(rules[..n], sources[..n]), CanaryOutcome(rules[n], sources[n]);
      RouteOutcome(r.rules + [o.rule], r.sources + [o.sources], r.newRules + o.newRules, r.newSources + o.newSources)
  }

  // ---- What the pass keeps ----------------------------------------------------------------------------

  lemma {:induction false} WeighedAligned(rule: Rule, sources: seq<BackendSource>, c: nat, n: nat, config: CanaryConfig)
    requires AlignedRule(rule, sources) && c < |rule.backends| && n < |rule.backends|
    ensures AlignedRule(Weigh(rule, c, n, config), sources)
  {
  }

  lemma {:induction false} WithoutAligned(rule: Rule, sources: seq<BackendSource>, c: nat)
    requires AlignedRule(rule, sources) && |rule.backends| == |sources| && Known(sources) && c < |sources|
    ensures AlignedRule(rule.(backends := Without(rule.backends, c)), Without(sources, c)) && Known(Without(sources, c))
  {
    var kept, keptSources := Without(rule.backends, c), Without(sources, c);
    forall k | 0 <= k < |kept|
      ensures Unweighted(kept[k]) == keptSources[k].backend
    {
      var j := if k < c then k else k + 1;
      assert kept[k] == rule.backends[j] && keptSources[k] == sources[j];
    }
  }

  lemma {:induction false} OneBackendAligned(rule: Rule, source: BackendSource, more: seq<BackendSource>)
    requires |rule.backends| == 1 && Unweighted(rule.backends[0]) == source.backend
    requires Known([source] + more)
    ensures Aligned([rule], [[source] + more])
  {
  }

  lemma {:induction false} OutcomeAligned(rule: Rule, sources: seq<BackendSource>)
    requires AlignedRule(rule, sources) && |rule.backends| == |sources| && Known(sources)
    ensures Indexable(rule, sources)
    ensures var o := CanaryOutcome(rule, sources); AlignedRule(o.rule, o.sources) && Known(o.sources)
    ensures var o := CanaryOutcome(rule, sources); Aligned(o.newRules, o.newSources)
  {
    if Paired(sources) {
      var c, n := FirstMarked(sources), FirstUnmarked(sources);
      var config := ConfigOf(sources[c].ingress.value);
      var weighed := Weigh(rule, c, n, config);
      WeighedAligned(rule, sources, c, n, config);
      WithoutAligned(weighed, sources, c);
      assert sources[..|rule.backends|] == sources;
      if config.isHeader {
        var o := CanaryOutcome(rule, sources);
        OneBackendAligned(o.newRules[0], sources[c], [sources[n]]);
        if config.headerValue == "" {
          OneBackendAligned(o.newRules[1], sources[n], []);
          assert [sources[n]] + [] == [sources[n]];
        }
      }
    }
  }

  /** On a freshly converted route every index of the pass is in range, and afterwards rules and
      sources are aligned again, the added ones included. */
  lemma {:induction false} CanaryKeepsAlignment(rules: seq<Rule>, sources: seq<seq<BackendSource>>)
    requires FreshlyAligned(rules, sources)
    ensures AllIndexable(rules, sources)
    ensures var r := CanaryRoute(rules, sources); Aligned(r.rules + r.newRules, r.sources + r.newSources)
  {
    forall i | 0 <= i < |rules|
      ensures Indexable(rules[i], sources[i])
    {
      OutcomeAligned(rules[i], sources[i]);
    }
    CanaryRouteAligned(rules, sources);
  }

  lemma {:induction false} AlignedConcat(r: seq<Rule>, s: seq<seq<BackendSource>>, r': seq<Rule>,
                                         s': seq<seq<BackendSource>>)
    requires Aligned(r, s) && Aligned(r', s')
    ensures Aligned(r + r', s + s')
  {
  }

  lemma {:induction false} CanaryRouteAligned(rules: seq<Rule>, sources: seq<seq<BackendSource>>)
    requires FreshlyAligned(rules, sources) && AllIndexable(rules, sources)
    ensures var r := CanaryRoute(rules, sources); Aligned(r.rules, r.sources) && Aligned(r.newRules, r.newSources)
  {
    if rules != [] {
      var n := |rules| - 1;
      assert FreshlyAligned(rules[..n], sources[..n]);
      CanaryRouteAligned(rules[..n], sources[..n]);
      OutcomeAligned(rules[n], sources[n]);
      var r, o := CanaryRoute(rules[..n], sources[..n]), CanaryOutcome(rules[n], sources[n]);
      AlignedConcat(r.rules, r.sources, [o.rule], [o.sources]);
      AlignedConcat(r.newRules, r.newSources, o.newRules, o.newSources);
    }
  }

  /** The weights given out are those of the configuration, and add up to its total; apart from
      weights the backends stay what they were. */
  lemma {:induction false} WeighedRuleSplitsTotal(rule: Rule, sources: seq<BackendSource>)
    requires Indexable(rule, sources) && Paired(sources)
    requires var config := ConfigOf(sources[FirstMarked(sources)].ingress.value); config.isWeight || !config.isHeader
    ensures var o, c, n := CanaryOutcome(rule, sources), FirstMarked(sources), FirstUnmarked(sources);
      var total := ConfigOf(sources[c].ingress.value).weightTotal;
      && o.rule.matches == rule.matches && o.rule.filters == rule.filters
      && |o.rule.backends| == |rule.backends| && c != n
      && o.rule.backends[c].weight.Some? && o.rule.backends[n].weight.Some?
      && 0 <= o.rule.backends[c].weight.value && 0 <= o.rule.backends[n].weight.value
      && o.rule.backends[c].weight.value + o.rule.backends[n].weight.value == total <= MAX_INT32
      && forall k :: 0 <= k < |rule.backends| ==> Unweighted(o.rule.backends[k]) == Unweighted(rule.backends[k])
  {
    WeightsAreShares(sources[FirstMarked(sources)].ingress.value);
  }

  /** No backend is lost to header matching: what a header-only rule no longer sends to its canary,
      the added rule for the header does; the rest keeps its order. */
  lemma {:induction false} HeaderOnlyRuleMovesCanary(rule: Rule, sources: seq<BackendSource>)
    requires Indexable(rule, sources) && Paired(sources)
    requires var config := ConfigOf(sources[FirstMarked(sources)].ingress.value); !config.isWeight && config.isHeader
    ensures var o, c := CanaryOutcome(rule, sources), FirstMarked(sources);
      && o.rule.matches == rule.matches && o.rule.filters == rule.filters
      && |o.newRules| > 0 && o.newRules[0].backends == [Unweighted(rule.backends[c])]
      && o.rule.backends[..c] + [rule.backends[c]] + o.rule.backends[c..] == rule.backends
  {
  }

  // ---- A second run -----------------------------------------------------------------------------------

  /** A pair of a canary and another backend, with a canary that is chosen by header. */
  predicate HeaderPaired(sources: seq<BackendSource>) {
    Paired(sources) && ConfigOf(sources[FirstMarked(sources)].ingress.value).isHeader
  }

  predicate AnyHeaderPaired(sources: seq<seq<BackendSource>>) {
    exists i :: 0 <= i < |sources| && HeaderPaired(sources[i])
  }

  /** Run again on what it made of a rule, the pass finds everything as it was; unless it added a rule
      for a header, whose second source then has no backend. */
  lemma {:induction false} OutcomeAgain(rule: Rule, sources: seq<BackendSource>)
    requires Indexable(rule, sources)
    ensures var o := CanaryOutcome(rule, sources);
      if HeaderPaired(sources) then |o.newRules| > 0 && !Indexable(o.newRules[0], o.newSources[0])
      else Indexable(o.rule, o.sources) && CanaryOutcome(o.rule, o.sources) == o
  {
    var o := CanaryOutcome(rule, sources);
    if HeaderPaired(sources) {
      var pair := o.newSources[0];
      FirstsAreFirst(pair);
      assert MarkedCanary(pair[0]) && Unmarked(pair[1]);
    }
  }

  lemma {:induction false} HeaderRunsOutOfRange(rules: seq<Rule>, sources: seq<seq<BackendSource>>)
    requires AllIndexable(rules, sources) && |rules| == |sources| && AnyHeaderPaired(sources)
    ensures var r := CanaryRoute(rules, sources); !AllIndexable(r.newRules, r.newSources)
  {
    var n := |rules| - 1;
    var r, o := CanaryRoute(rules[..n], sources[..n]), CanaryOutcome(rules[n], sources[n]);
    if HeaderPaired(sources[n]) {
      OutcomeAgain(rules[n], sources[n]);
      var k := |r.newRules|;
      assert (r.newRules + o.newRules)[k] == o.newRules[0] && (r.newSources + o.newSources)[k] == o.newSources[0];
    } else {
      HeaderRunsOutOfRange(rules[..n], sources[..n]);
      var i :| 0 <= i < |r.newRules| && !Indexable(r.newRules[i], r.newSources[i]);
      assert (r.newRules + o.newRules)[i] == r.newRules[i] && (r.newSources + o.newSources)[i] == r.newSources[i];
    }
  }

  lemma {:induction false} CanaryRouteGrows(rules: seq<Rule>, sources: seq<seq<BackendSource>>, rule: Rule,
                                            more: seq<BackendSource>)
    requires AllIndexable(rules, sources) && |rules| == |sources| && Indexable(rule, more)
    ensures AllIndexable(rules + [rule], sources + [more])
    ensures var r, o := CanaryRoute(rules, sources), CanaryOutcome(rule, more);
      CanaryRoute(rules + [rule], sources + [more]) ==
        RouteOutcome(r.rules + [o.rule], r.sources + [o.sources], r.newRules + o.newRules, r.newSources + o.newSources)
  {
    var n := |rules|;
    assert (rules + [rule])[..n] == rules && (sources + [more])[..n] == sources;
  }

  lemma {:induction false} CanaryRouteAgain(rules: seq<Rule>, sources: seq<seq<BackendSource>>)
    requires AllIndexable(rules, sources) && |rules| == |sources| && !AnyHeaderPaired(sources)
    ensures var r := CanaryRoute(rules, sources);
      r.newRules == [] && AllIndexable(r.rules, r.sources) && CanaryRoute(r.rules, r.sources) == r
  {
    if rules != [] {
      var n := |rules| - 1;
      var r, o := CanaryRoute(rules[..n], sources[..n]), CanaryOutcome(rules[n], sources[n]);
      CanaryRouteAgain(rules[..n], sources[..n]);
      OutcomeAgain(rules[n], sources[n]);
      CanaryRouteGrows(r.rules, r.sources, o.rule, o.sources);
    }
  }
}
