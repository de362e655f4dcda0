/**
 Canary weights on their way to the merge of duplicate backends: set by the canary pass
 (pkg/i2gw/providers/ingressnginx/canary.go), carried through the other passes, and added up as 32-bit
 integers in the end (pkg/i2gw/emitters/utils/utils.go).
 */
module NginxWeights {
  import opened BackendDedup
  import opened BackendSources
  import opened Gateway
  import opened Numerals
  import opened Optional
  import opened NginxCanary
  import opened NginxPipeline
  import opened NginxProviderIR
  import opened NginxRedirects
  import opened NginxSslPassthrough

  // ---- One rule -------------------------------------------------------------------------------------

  lemma {:induction false} SetWeight(refs: seq<BackendRef>, i: nat, w: int)
    requires i < |refs| && refs[i].weight.None?
    ensures Given(refs[i := refs[i].(weight := Some(w))]) == Given(refs) + w
  {
    var n := |refs| - 1;
    var now := refs[i := refs[i].(weight := Some(w))];
    if i < n {
      SetWeight(refs[..n], i, w);
      assert now[..n] == refs[..n][i := refs[i].(weight := Some(w))];
    } else {
      assert now[..n] == refs[..n];
    }
  }

  lemma {:induction false} NoWeightsGiveNothing(refs: seq<BackendRef>)
    requires NoWeights(refs)
    ensures Given(refs) == 0 && AddUpTo(refs, 0)
  {
    if refs != [] {
      NoWeightsGiveNothing(refs[..|refs| - 1]);
      assert refs == refs[..|refs| - 1] + [refs[|refs| - 1]];
    }
  }

  lemma {:induction false} WeighedAddsUp(rule: Rule, c: nat, n: nat, config: CanaryConfig)
    requires c < |rule.backends| && n < |rule.backends| && c != n && NoWeights(rule.backends)
    requires 0 <= config.weight <= config.weightTotal
    ensures var now := Weigh(rule, c, n, config).backends;
      && AddUpTo(now, config.weightTotal)
      && Given(now) == if config.isWeight || !config.isHeader then config.weightTotal else 0
  {
    NoWeightsGiveNothing(rule.backends);
    if config.isWeight || !config.isHeader {
      var one := rule.backends[c := rule.backends[c].(weight := Some(config.weight))];
      SetWeight(rule.backends, c, config.weight);
      SetWeight(one, n, config.weightTotal - config.weight);
    }
  }

  /** The total that the canary of a rule sets for its backends, 0 where there is none. */
  function TotalFor(sources: seq<BackendSource>): (total: int)
    ensures 0 <= total <= MAX_INT32
  {
    if Paired(sources) then ConfigOf(sources[FirstMarked(sources)].ingress.value).weightTotal else 0
  }

  /** The weights that the pass gives out in a rule add up to the configured total; the rules that it
      adds have none. */
  lemma {:induction false} OutcomeAddsUp(rule: Rule, sources: seq<BackendSource>)
    requires Indexable(rule, sources) && NoWeights(rule.backends)
    ensures var o := CanaryOutcome(rule, sources);
      && AddUpTo(o.rule.backends, TotalFor(sources))
      && forall r :: r in o.newRules ==> NoWeights(r.backends)
  {
    NoWeightsGiveNothing(rule.backends);
    if Paired(sources) {
      var c, n := FirstMarked(sources), FirstUnmarked(sources);
      var config := ConfigOf(sources[c].ingress.value);
      WeightsAreShares(sources[c].ingress.value);
      WeighedAddsUp(rule, c, n, config);
      if config.isHeader && !config.isWeight {
        assert NoWeights(NginxCanary.Without(rule.backends, c));
        NoWeightsGiveNothing(NginxCanary.Without(rule.backends, c));
      }
    }
  }

  /** For each key of the merge, the weights of a canary rule add up to at most its total, which fits 32
      bits: the merge never wraps around, in the rule itself or in those that the pass adds. */
  lemma {:induction false} CanaryWeightsNeverWrap(rule: Rule, sources: seq<BackendSource>, k: RefKey)
    requires Indexable(rule, sources) && Paired(sources) && NoWeights(rule.backends)
    ensures var o, total := CanaryOutcome(rule, sources),
      ConfigOf(sources[FirstMarked(sources)].ingress.value).weightTotal;
      && 0 <= Given(Group(o.rule.backends, k)) <= total <= MAX_INT32
      && Wrap32(Given(Group(o.rule.backends, k))) == Given(Group(o.rule.backends, k))
      && forall r :: r in o.newRules ==> Given(Group(r.backends, k)) == 0
  {
    var o := CanaryOutcome(rule, sources);
    OutcomeAddsUp(rule, sources);
    MergeNeverWraps(o.rule.backends, k, TotalFor(sources));
    forall r | r in o.newRules
      ensures Given(Group(r.backends, k)) == 0
    {
      NoWeightsGiveNothing(r.backends);
      GroupAddsUp(r.backends, k, 0);
    }
  }

  // ---- Through all passes -----------------------------------------------------------------------------

  ghost predicate RulesAddUp(rules: seq<Rule>) {
    forall i :: 0 <= i < |rules| ==> AddUpTo(rules[i].backends, MAX_INT32)
  }

  ghost predicate AllAddUp(routes: Routes) {
    forall k :: k in routes ==> RulesAddUp(routes[k].rules)
  }

  lemma {:induction false} CanaryRouteAddsUp(rules: seq<Rule>, sources: seq<seq<BackendSource>>)
    requires AllIndexable(rules, sources) && |rules| == |sources|
    requires forall i :: 0 <= i < |rules| ==> NoWeights(rules[i].backends)
    ensures var r := CanaryRoute(rules, sources); RulesAddUp(r.rules) && RulesAddUp(r.newRules)
  {
    if rules != [] {
      var n := |rules| - 1;
      var o := CanaryOutcome(rules[n], sources[n]);
      CanaryRouteAddsUp(rules[..n], sources[..n]);
      OutcomeAddsUp(rules[n], sources[n]);
      forall i | 0 <= i < |o.newRules|
        ensures AddUpTo(o.newRules[i].backends, MAX_INT32)
      {
        assert o.newRules[i] in o.newRules;
        NoWeightsGiveNothing(o.newRules[i].backends);
      }
    }
  }

  lemma {:induction false} CanariedAddUp(was: Routes, now: Routes, groups: seq<Key>)
    requires AllFresh(was) && CanariedAll(was, now, groups)
    ensures AllAddUp(now)
  {
    forall k | k in now
      ensures RulesAddUp(now[k].rules)
    {
      assert FreshlyAligned(was[k].rules, was[k].sources);
      CanaryRouteAddsUp(was[k].rules, was[k].sources);
      forall i | 0 <= i < |was[k].rules|
        ensures AddUpTo(was[k].rules[i].backends, MAX_INT32)
      {
        NoWeightsGiveNothing(was[k].rules[i].backends);
      }
    }
  }

  /** Every rule has the backends that it had, or none. */
  ghost predicate KeptOrCleared(was: seq<Rule>, now: seq<Rule>) {
    && |was| <= |now|
    && (forall i :: 0 <= i < |was| ==> now[i].backends == was[i].backends || now[i].backends == [])
    && (forall i :: |was| <= i < |now| ==> now[i].backends == [])
  }

  lemma {:induction false} KeptOrClearedAddUp(was: seq<Rule>, now: seq<Rule>)
    requires RulesAddUp(was) && KeptOrCleared(was, now)
    ensures RulesAddUp(now)
  {
  }

  lemma {:induction false} StripAddsUp(rules: seq<Rule>, sources: seq<seq<BackendSource>>, keys: set<Key>)
    requires RulesAddUp(rules)
    ensures RulesAddUp(Strip(rules, sources, keys).rules)
  {
    if rules != [] {
      var n := |rules| - 1;
      StripAddsUp(rules[..n], sources, keys);
      assert Backends(RulePairs(rules[n].backends, SourcesAt(sources, n))) == rules[n].backends;
      KeptAddUp(RulePairs(rules[n].backends, SourcesAt(sources, n)), p => Stays(p, keys));
    }
  }

  lemma {:induction false} KeptAddUp(ps: seq<Sourced>, keep: Sourced -> bool)
    requires AddUpTo(Backends(ps), MAX_INT32)
    ensures AddUpTo(Backends(NginxSslPassthrough.Filter(ps, keep)), MAX_INT32)
    ensures Given(Backends(NginxSslPassthrough.Filter(ps, keep))) <= Given(Backends(ps))
  {
    if ps != [] {
      var n := |ps| - 1;
      var init, last := NginxSslPassthrough.Filter(ps[..n], keep), ps[n];
      assert Backends(ps)[..n] == Backends(ps[..n]);
      assert Backends(ps) == Backends(ps)[..n] + [last.backend];
      KeptAddUp(ps[..n], keep);
      KeptGrow(init, last);
      assert (Backends(init) + [last.backend])[..|init|] == Backends(init);
    }
  }

  lemma {:induction false} ChangedAddUp(was: Routes, now: Routes, change: RuleChange)
    requires AllAddUp(was) && LeavesBackends(change) && ChangedAll(was, now, change)
    ensures AllAddUp(now)
  {
    forall k | k in now
      ensures RulesAddUp(now[k].rules)
    {
      assert ChangedRoute(k, was[k], now[k], change);
      forall i | 0 <= i < |was[k].rules|
        ensures now[k].rules[i].backends == was[k].rules[i].backends
      {
        assert change(k, was[k], i).backends == was[k].rules[i].backends;
      }
      KeptOrClearedAddUp(was[k].rules, now[k].rules);
    }
  }

  lemma {:induction false} RedirectedAddUp(was: Routes, now: Routes, parse: UrlParser)
    requires AllAddUp(was) && RedirectedAll(was, now, parse)
    ensures AllAddUp(now)
  {
    forall k | k in now
      ensures RulesAddUp(now[k].rules)
    {
      assert RedirectedRoute(was[k], now[k], parse);
      KeptOrClearedAddUp(was[k].rules, now[k].rules);
    }
  }

  lemma {:induction false} PassedAddUp(was: Routes, now: Routes, tls: map<Key, seq<BackendRef>>, keys: set<Key>)
    requires AllAddUp(was) && PassedAll(was, now, tls, keys)
    ensures AllAddUp(now)
  {
    forall k | k in now
      ensures RulesAddUp(now[k].rules)
    {
      assert Handled(k, was, now, tls, keys);
      StripAddsUp(was[k].rules, was[k].sources, keys);
    }
  }

  lemma {:induction false} AppRootedAddUp(was: Routes, now: Routes, isAbsolute: string -> bool)
    requires AllAddUp(was) && AppRootedAll(was, now, isAbsolute)
    ensures AllAddUp(now)
  {
    forall k | k in now
      ensures RulesAddUp(now[k].rules)
    {
      assert AppRooted(was[k], now[k], isAbsolute);
      RootedKeptOrCleared(was[k], now[k], isAbsolute);
      KeptOrClearedAddUp(was[k].rules, now[k].rules);
    }
  }

  lemma {:induction false} RootedKeptOrCleared(was: RouteContext, now: RouteContext, isAbsolute: string -> bool)
    requires AppRooted(was, now, isAbsolute)
    ensures KeptOrCleared(was.rules, now.rules)
  {
  }

  /** No merge of these backends wraps around. */
  ghost predicate MergesSafely(refs: seq<BackendRef>) {
    && Int32Weights(refs)
    && forall k :: var sum := Given(Group(refs, k)); 0 <= sum <= MAX_INT32 && Wrap32(sum) == sum
  }

  lemma {:induction false} AddingUpMergesSafely(refs: seq<BackendRef>)
    requires AddUpTo(refs, MAX_INT32)
    ensures MergesSafely(refs)
  {
    AddingUpFits(refs, MAX_INT32);
    forall k
      ensures 0 <= Given(Group(refs, k)) <= MAX_INT32
    {
      MergeNeverWraps(refs, k, MAX_INT32);
    }
  }

  /** At the end of the chain, the weights of every rule add up without leaving 32 bits. */
  lemma {:induction false} FeaturesMergeSafely(
      was: Routes, s1: Routes, s2: Routes, s3: Routes, s4: Routes, s5: Routes, now: Routes,
      tls: map<Key, seq<BackendRef>>, ingresses: seq<Ingress>, groups: seq<Key>, parse: UrlParser,
      isAbsolute: string -> bool, change1: RuleChange, change2: RuleChange)
    requires AllFresh(was) && LeavesBackends(change1) && LeavesBackends(change2)
    requires Ran(was, s1, s2, s3, s4, s5, now, tls, ingresses, groups, parse, isAbsolute, change1, change2)
    ensures forall key, i :: key in now && 0 <= i < |now[key].rules| ==> MergesSafely(now[key].rules[i].backends)
  {
    CanariedAddUp(was, s1, groups);
    ChangedAddUp(s1, s2, change1);
    RedirectedAddUp(s2, s3, parse);
    ChangedAddUp(s3, s4, change2);
    PassedAddUp(s4, s5, tls, PassthroughKeys(ingresses));
    AppRootedAddUp(s5, now, isAbsolute);
    forall key, i | key in now && 0 <= i < |now[key].rules|
      ensures MergesSafely(now[key].rules[i].backends)
    {
      assert RulesAddUp(now[key].rules);
      AddingUpMergesSafely(now[key].rules[i].backends);
    }
  }
}
