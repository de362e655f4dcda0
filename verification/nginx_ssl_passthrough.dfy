module NginxSslPassthrough {
  /** TLS passthrough (pkg/i2gw/providers/ingressnginx/ssl_passthrough.go). */

  import opened Optional
  import opened Gateway
  import opened NginxProviderIR
  import opened BackendSources
  import opened NginxSources

  const SSL_PASSTHROUGH := "nginx.ingress.kubernetes.io/ssl-passthrough"

  // ---- Passthrough ingresses ------------------------------------------------------------------------

  predicate WantsPassthrough(ingress: Ingress) {
    SSL_PASSTHROUGH in ingress.annotations && ParseBool(ingress.annotations[SSL_PASSTHROUGH])
  }

  function KeyOf(ingress: Ingress): Key {
    Key(ingress.namespace, ingress.name)
  }

  ghost function PassthroughKeys(ingresses: seq<Ingress>): set<Key> {
    set i | i in ingresses && WantsPassthrough(i) :: KeyOf(i)
  }

  method CollectPassthrough(ingresses: seq<Ingress>) returns (keys: set<Key>)
    ensures keys == PassthroughKeys(ingresses)
  {
    keys := {};
    for i := 0 to |ingresses|
      invariant keys == PassthroughKeys(ingresses[..i])
    {
      assert ingresses[..i + 1] == ingresses[..i] + [ingresses[i]];
      if SSL_PASSTHROUGH !in ingresses[i].annotations {
        continue;
      }
      if !ParseBool(ingresses[i].annotations[SSL_PASSTHROUGH]) {
        continue;
      }
      keys := keys + {KeyOf(ingresses[i])};
    }
    assert ingresses[..|ingresses|] == ingresses;
  }

  predicate FromPassthrough(source: BackendSource, keys: set<Key>) {
    source.ingress.Some? && KeyOf(source.ingress.value) in keys
  }

  // ---- Backends with their sources --------------------------------------------------------------------

  /** A backend and, where there is one, the source at its position. */
  datatype Sourced = Sourced(backend: BackendRef, source: Option<BackendSource>)

  function RulePairs(backends: seq<BackendRef>, sources: seq<BackendSource>): seq<Sourced> {
    seq(|backends|, j requires 0 <= j < |backends| =>
      Sourced(backends[j], if j < |sources| then Some(sources[j]) else None))
  }

  function SourcesAt(sources: seq<seq<BackendSource>>, i: nat): seq<BackendSource> {
    if i < |sources| then sources[i] else []
  }

  /** All backends of a route with their sources, in order. */
  function Pairs(rules: seq<Rule>, sources: seq<seq<BackendSource>>): seq<Sourced> {
    if rules == [] then []
    else
      var n := |rules| - 1;
      Pairs(rules[..n], sources) + RulePairs(rules[n].backends, SourcesAt(sources, n))
  }

  /** Kept for HTTP: everything not known to come from a passthrough ingress. */
  predicate Stays(p: Sourced, keys: set<Key>) {
    p.source.Some? ==> !FromPassthrough(p.source.value, keys)
  }

  /** Taken into the TLSRoute: what comes from a passthrough ingress, and what has no known source. */
  predicate Passes(p: Sourced, keys: set<Key>) {
    p.source.Some? && p.source.value.ingress.Some? ==> FromPassthrough(p.source.value, keys)
  }

  /** Some ingress of the list has this namespace and name and says, in one of the spellings of true that Go
      knows, that it passes TLS through. */
  predicate IsPassthrough(ingresses: seq<Ingress>, namespace: string, name: string) {
    exists i :: i in ingresses && i.namespace == namespace && i.name == name
      && "nginx.ingress.kubernetes.io/ssl-passthrough" in i.annotations
      && i.annotations["nginx.ingress.kubernetes.io/ssl-passthrough"] in ["1", "t", "T", "TRUE", "true", "True"]
  }

  /** A backend of a known ingress goes one way exactly when that ingress passes TLS through; one without a
      source, or with a source without an ingress, is kept and taken. */
  lemma {:induction false} WaysInFull(ingresses: seq<Ingress>, p: Sourced)
    ensures var keys := PassthroughKeys(ingresses);
      if p.source.Some? && p.source.value.ingress.Some? then
        var i := p.source.value.ingress.value;
        && (Stays(p, keys) <==> !IsPassthrough(ingresses, i.namespace, i.name))
        && (Passes(p, keys) <==> IsPassthrough(ingresses, i.namespace, i.name))
      else Stays(p, keys) && Passes(p, keys)
  {
    forall i | i in ingresses && WantsPassthrough(i)
      ensures IsPassthrough(ingresses, i.namespace, i.name)
    {
    }
  }

  function Filter(ps: seq<Sourced>, keep: Sourced -> bool): (r: seq<Sourced>)
    ensures forall p :: p in r <==> p in ps && keep(p)
  {
    if ps == [] then []
    else
      var init, last := Filter(ps[..|ps| - 1], keep), ps[|ps| - 1];
      assert ps == ps[..|ps| - 1] + [last];
      if keep(last) then init + [last] else init
  }

  lemma {:induction false} FilterConcat(a: seq<Sourced>, b: seq<Sourced>, keep: Sourced -> bool)
    ensures Filter(a + b, keep) == Filter(a, keep) + Filter(b, keep)
    decreases |b|
  {
    if b == [] {
      assert a + b == a;
    } else {
      assert (a + b)[..|a + b| - 1] == a + b[..|b| - 1];
      FilterConcat(a, b[..|b| - 1], keep);
    }
  }

  function Backends(ps: seq<Sourced>): (r: seq<BackendRef>)
    ensures |r| == |ps|
  {
    seq(|ps|, i requires 0 <= i < |ps| => ps[i].backend)
  }

  /** The sources of those that have one. */
  function SourcesOf(ps: seq<Sourced>): (r: seq<BackendSource>)
    ensures (forall p :: p in ps ==> p.source.Some?) ==>
      |r| == |ps| && forall i :: 0 <= i < |ps| ==> Some(r[i]) == ps[i].source
  {
    if ps == [] then []
    else
      assert ps == ps[..|ps| - 1] + [ps[|ps| - 1]];
      SourcesOf(ps[..|ps| - 1]) + if ps[|ps| - 1].source.Some? then [ps[|ps| - 1].source.value] else []
  }

  // ---- Stripping ---------------------------------------------------------------------------------------

  function KeptPairs(rule: Rule, sources: seq<BackendSource>, keys: set<Key>): seq<Sourced> {
    Filter(RulePairs(rule.backends, sources), p => Stays(p, keys))
  }

  datatype Stripped = Stripped(rules: seq<Rule>, sources: seq<seq<BackendSource>>)

  /** Rules keep the backends that stay; those left with none disappear. */
  function Strip(rules: seq<Rule>, sources: seq<seq<BackendSource>>, keys: set<Key>): Stripped {
    if rules == [] then Stripped([], [])
    else
      var n := |rules| - 1;
      var rest, kept := Strip(rules[..n], sources, keys), KeptPairs(rules[n], SourcesAt(sources, n), keys);
      if kept == [] then rest
      else Stripped(rest.rules + [rules[n].(backends := Backends(kept))], rest.sources + [SourcesOf(kept)])
  }

  lemma {:induction false} KeptGrow(kept: seq<Sourced>, p: Sourced)
    ensures Backends(kept + [p]) == Backends(kept) + [p.backend]
    ensures SourcesOf(kept + [p]) == SourcesOf(kept) + if p.source.Some? then [p.source.value] else []
  {
    assert (kept + [p])[..|kept|] == kept;
  }

  lemma {:induction false} FilterGrows(ps: seq<Sourced>, j: nat, keep: Sourced -> bool)
    requires j < |ps|
    ensures Filter(ps[..j + 1], keep) == Filter(ps[..j], keep) + if keep(ps[j]) then [ps[j]] else []
  {
    assert ps[..j + 1][..j] == ps[..j];
  }

  method StripRule(backends: seq<BackendRef>, sources: seq<seq<BackendSource>>, ruleIdx: nat, keys: set<Key>)
      returns (keptBackends: seq<BackendRef>, keptSources: seq<BackendSource>)
    ensures var kept := Filter(RulePairs(backends, SourcesAt(sources, ruleIdx)), p => Stays(p, keys));
      keptBackends == Backends(kept) && keptSources == SourcesOf(kept)
  {
    keptBackends, keptSources := [], [];
    ghost var pairs := RulePairs(backends, SourcesAt(sources, ruleIdx));
    ghost var keep := p => Stays(p, keys);
    ghost var kept: seq<Sourced> := [];
    for j := 0 to |backends|
      invariant kept == Filter(pairs[..j], keep)
      invariant keptBackends == Backends(kept) && keptSources == SourcesOf(kept)
    {
      FilterGrows(pairs, j, keep);
      KeptGrow(kept, pairs[j]);
      var isPassthrough := false;
      if ruleIdx < |sources| && j < |sources[ruleIdx]| {
        if FromPassthrough(sources[ruleIdx][j], keys) {
          isPassthrough := true;
        }
      }
      if !isPassthrough {
        kept := kept + [pairs[j]];
        keptBackends := keptBackends + [backends[j]];
        if ruleIdx < |sources| && j < |sources[ruleIdx]| {
          keptSources := keptSources + [sources[ruleIdx][j]];
        }
      }
    }
    assert pairs[..|backends|] == pairs;
  }

  method StripPassthroughRules(rules: seq<Rule>, sources: seq<seq<BackendSource>>, keys: set<Key>)
      returns (newRules: seq<Rule>, newSources: seq<seq<BackendSource>>)
    ensures Stripped(newRules, newSources) == Strip(rules, sources, keys)
  {
    newRules, newSources := [], [];
    for i := 0 to |rules|
      invariant Stripped(newRules, newSources) == Strip(rules[..i], sources, keys)
    {
      assert rules[..i + 1][..i] == rules[..i];
      var keptBackends, keptSources := StripRule(rules[i].backends, sources, i, keys);
      if |keptBackends| > 0 {
        newRules := newRules + [rules[i].(backends := keptBackends)];
        newSources := newSources + [keptSources];
      }
    }
    assert rules[..|rules|] == rules;
  }

  // ---- The TLSRoute --------------------------------------------------------------------------------------

  /** The source names a backend by "name/port"; digits hold no slash, so the pair is as good. */
  datatype BackendKey = BackendKey(name: string, port: int)

  /** A backend without a port makes the source dereference nil. */
  predicate HasPort(b: BackendRef) {
    b.port.Some?
  }

  function BackendKeyOf(b: BackendRef): BackendKey
    requires HasPort(b)
  {
    BackendKey(b.name, b.port.value)
  }

  ghost predicate AllPassingHavePorts(ps: seq<Sourced>, keys: set<Key>) {
    forall p :: p in ps && Passes(p, keys) ==> HasPort(p.backend)
  }

  ghost function BackendKeys(bs: seq<BackendRef>): set<BackendKey>
    requires forall b :: b in bs ==> HasPort(b)
  {
    set b | b in bs :: BackendKeyOf(b)
  }

  /** The first backend of each name and port among those that pass. */
  ghost function TLSBackends(ps: seq<Sourced>, keys: set<Key>): (r: seq<BackendRef>)
    requires AllPassingHavePorts(ps, keys)
    ensures forall b :: b in r ==> HasPort(b)
  {
    if ps == [] then []
    else
      var init, p := TLSBackends(ps[..|ps| - 1], keys), ps[|ps| - 1];
      assert p in ps;
      if Passes(p, keys) && BackendKeyOf(p.backend) !in BackendKeys(init) then init + [p.backend] else init
  }

  method AddTLSBackends(backends: seq<BackendRef>, sources: seq<seq<BackendSource>>, ruleIdx: nat, keys: set<Key>,
                        refs0: seq<BackendRef>, seen0: set<BackendKey>, ghost before: seq<Sourced>)
      returns (refs: seq<BackendRef>, seen: set<BackendKey>)
    requires AllPassingHavePorts(before + RulePairs(backends, SourcesAt(sources, ruleIdx)), keys)
    requires AllPassingHavePorts(before, keys)
    requires refs0 == TLSBackends(before, keys) && seen0 == BackendKeys(refs0)
    ensures refs == TLSBackends(before + RulePairs(backends, SourcesAt(sources, ruleIdx)), keys)
    ensures seen == BackendKeys(refs)
  {
    refs, seen := refs0, seen0;
    ghost var pairs := RulePairs(backends, SourcesAt(sources, ruleIdx));
    assert before + pairs[..0] == before;
    for j := 0 to |backends|
      invariant AllPassingHavePorts(before + pairs[..j], keys)
      invariant refs == TLSBackends(before + pairs[..j], keys) && seen == BackendKeys(refs)
    {
      assert before + pairs[..j + 1] == before + pairs[..j] + [pairs[j]];
      assert (before + pairs[..j + 1])[..|before| + j] == before + pairs[..j];
      forall p | p in before + pairs[..j + 1] && Passes(p, keys)
        ensures HasPort(p.backend)
      {
        assert p in before + pairs;
      }
      if ruleIdx < |sources| && j < |sources[ruleIdx]| {
        var src := sources[ruleIdx][j];
        if src.ingress.Some? && KeyOf(src.ingress.value) !in keys {
          continue;
        }
      }
      assert pairs[j] in before + pairs && Passes(pairs[j], keys);
      var key := BackendKeyOf(backends[j]);
      if key in seen {
        continue;
      }
      seen := seen + {key};
      refs := refs + [backends[j]];
    }
    assert pairs[..|backends|] == pairs;
  }

  lemma {:induction false} PairsPrefix(rules: seq<Rule>, sources: seq<seq<BackendSource>>, i: nat)
    requires i <= |rules|
    ensures forall p :: p in Pairs(rules[..i], sources) ==> p in Pairs(rules, sources)
    decreases |rules| - i
  {
    if i < |rules| {
      PairsPrefix(rules, sources, i + 1);
      assert rules[..i + 1][..i] == rules[..i];
    } else {
      assert rules[..i] == rules;
    }
  }

  method BuildTLSRoute(rules: seq<Rule>, sources: seq<seq<BackendSource>>, keys: set<Key>)
      returns (refs: seq<BackendRef>)
    requires AllPassingHavePorts(Pairs(rules, sources), keys)
    ensures refs == TLSBackends(Pairs(rules, sources), keys)
  {
    refs := [];
    var seen: set<BackendKey> := {};
    for i := 0 to |rules|
      invariant AllPassingHavePorts(Pairs(rules[..i], sources), keys)
      invariant refs == TLSBackends(Pairs(rules[..i], sources), keys) && seen == BackendKeys(refs)
    {
      assert rules[..i + 1][..i] == rules[..i];
      PairsPrefix(rules, sources, i + 1);
      refs, seen := AddTLSBackends(rules[i].backends, sources, i, keys, refs, seen, Pairs(rules[..i], sources));
    }
    assert rules[..|rules|] == rules;
  }

  // ---- The partition -------------------------------------------------------------------------------------

  /** With known sources, one for every backend, each backend goes one way and not the other. */
  lemma {:induction false} StaysXorPasses(p: Sourced, keys: set<Key>)
    requires p.source.Some? && p.source.value.ingress.Some?
    ensures Stays(p, keys) <==> !Passes(p, keys)
  {
  }

  lemma {:induction false} RulePairsOfKept(kept: seq<Sourced>)
    requires forall p :: p in kept ==> p.source.Some?
    ensures RulePairs(Backends(kept), SourcesOf(kept)) == kept
  {
  }

  lemma {:induction false} PairsIgnoreMoreSources(rules: seq<Rule>, s: seq<seq<BackendSource>>,
                                                  t: seq<seq<BackendSource>>)
    requires |rules| <= |s| <= |t| && s == t[..|s|]
    ensures Pairs(rules, s) == Pairs(rules, t)
  {
    if rules != [] {
      PairsIgnoreMoreSources(rules[..|rules| - 1], s, t);
    }
  }

  lemma {:induction false} RulePairsKnown(rule: Rule, sources: seq<BackendSource>)
    requires AlignedRule(rule, sources) && Known(sources)
    ensures forall p :: p in RulePairs(rule.backends, sources) ==>
      p.source.Some? && p.source.value.ingress.Some? && Unweighted(p.backend) == p.source.value.backend
  {
    forall p | p in RulePairs(rule.backends, sources)
      ensures p.source.Some? && p.source.value.ingress.Some? && Unweighted(p.backend) == p.source.value.backend
    {
      var j :| 0 <= j < |rule.backends| && p == RulePairs(rule.backends, sources)[j];
      assert sources[j] in sources;
    }
  }

  /** Aligned one to one, and every rule still has a backend. */
  predicate Tidy(r: Stripped) {
    && Aligned(r.rules, r.sources)
    && forall i :: 0 <= i < |r.rules| ==> |r.rules[i].backends| == |r.sources[i]| > 0
  }

  lemma {:induction false} AppendTidy(rest: Stripped, rule: Rule, sources: seq<BackendSource>)
    requires Tidy(rest) && AlignedRule(rule, sources) && Known(sources) && |rule.backends| == |sources| > 0
    ensures var r := Stripped(rest.rules + [rule], rest.sources + [sources]);
      Tidy(r) && Pairs(r.rules, r.sources) == Pairs(rest.rules, rest.sources) + RulePairs(rule.backends, sources)
  {
    assert (rest.rules + [rule])[..|rest.rules|] == rest.rules;
    PairsIgnoreMoreSources(rest.rules, rest.sources, rest.sources + [sources]);
  }

  /** What remains for HTTP is exactly the backends that stay, in their order and with their own
      sources; the stripped route is aligned again, and no rule of it is empty. */
  lemma {:induction false} StripKeepsOrderAndSources(rules: seq<Rule>, sources: seq<seq<BackendSource>>, keys: set<Key>)
    requires Aligned(rules, sources)
    ensures var r := Strip(rules, sources, keys);
      Tidy(r) && Pairs(r.rules, r.sources) == Filter(Pairs(rules, sources), p => Stays(p, keys))
  {
    if rules != [] {
      var n := |rules| - 1;
      assert Aligned(rules[..n], sources[..n]);
      StripKeepsOrderAndSources(rules[..n], sources[..n], keys);
      StripIgnoresMoreSources(rules[..n], sources[..n], sources, keys);
      PairsIgnoreMoreSources(rules[..n], sources[..n], sources);
      StripLast(Strip(rules[..n], sources, keys), rules[n], sources[n], keys);
      FilterConcat(Pairs(rules[..n], sources), RulePairs(rules[n].backends, sources[n]), p => Stays(p, keys));
    }
  }

  lemma {:induction false} StripLast(rest: Stripped, rule: Rule, sources: seq<BackendSource>, keys: set<Key>)
    requires Tidy(rest) && AlignedRule(rule, sources) && Known(sources)
    ensures var kept := KeptPairs(rule, sources, keys);
      var r := if kept == [] then rest
               else Stripped(rest.rules + [rule.(backends := Backends(kept))], rest.sources + [SourcesOf(kept)]);
      Tidy(r) && Pairs(r.rules, r.sources) == Pairs(rest.rules, rest.sources) + kept
  {
    RulePairsKnown(rule, sources);
    var kept := KeptPairs(rule, sources, keys);
    if kept != [] {
      KeptSourcesKnown(rule, sources, keys);
      RulePairsOfKept(kept);
      AppendTidy(rest, rule.(backends := Backends(kept)), SourcesOf(kept));
    }
  }

  lemma {:induction false} KeptSourcesKnown(rule: Rule, sources: seq<BackendSource>, keys: set<Key>)
    requires Known(sources)
    requires forall p :: p in RulePairs(rule.backends, sources) ==>
      p.source.Some? && Unweighted(p.backend) == p.source.value.backend
    ensures var kept := KeptPairs(rule, sources, keys);
      AlignedRule(rule.(backends := Backends(kept)), SourcesOf(kept)) && Known(SourcesOf(kept))
  {
    var kept := KeptPairs(rule, sources, keys);
    forall i | 0 <= i < |kept|
      ensures Some(SourcesOf(kept)[i]) == kept[i].source && kept[i].source.value in sources
    {
      assert kept[i] in RulePairs(rule.backends, sources);
    }
  }

  lemma {:induction false} StripIgnoresMoreSources(rules: seq<Rule>, s: seq<seq<BackendSource>>,
                                                   t: seq<seq<BackendSource>>, keys: set<Key>)
    requires |rules| <= |s| <= |t| && s == t[..|s|]
    ensures Strip(rules, s, keys) == Strip(rules, t, keys)
  {
    if rules != [] {
      StripIgnoresMoreSources(rules[..|rules| - 1], s, t, keys);
    }
  }

  /** The TLSRoute has every backend that passes, once per name and port, and nothing else. */
  lemma {:induction false} TLSBackendsAreThosePassing(ps: seq<Sourced>, keys: set<Key>)
    requires AllPassingHavePorts(ps, keys)
    ensures forall b :: b in TLSBackends(ps, keys) ==> exists p :: p in ps && Passes(p, keys) && p.backend == b
    ensures forall p :: p in ps && Passes(p, keys) ==> BackendKeyOf(p.backend) in BackendKeys(TLSBackends(ps, keys))
    ensures forall i, j :: 0 <= i < j < |TLSBackends(ps, keys)| ==>
      BackendKeyOf(TLSBackends(ps, keys)[i]) != BackendKeyOf(TLSBackends(ps, keys)[j])
  {
    if ps != [] {
      TLSBackendsAreThosePassing(ps[..|ps| - 1], keys);
      assert ps == ps[..|ps| - 1] + [ps[|ps| - 1]];
    }
  }

  // ---- The feature ---------------------------------------------------------------------------------------

  ghost predicate AnyPassthrough(sources: seq<seq<BackendSource>>, keys: set<Key>) {
    exists i, j | 0 <= i < |sources| && 0 <= j < |sources[i]| :: FromPassthrough(sources[i][j], keys)
  }

  ghost predicate AnyOther(sources: seq<seq<BackendSource>>, keys: set<Key>) {
    exists i, j | 0 <= i < |sources| && 0 <= j < |sources[i]| :: !FromPassthrough(sources[i][j], keys)
  }

  method Classify(sources: seq<seq<BackendSource>>, keys: set<Key>)
      returns (hasPassthrough: bool, hasNonPassthrough: bool)
    ensures hasPassthrough <==> AnyPassthrough(sources, keys)
    ensures hasNonPassthrough <==> AnyOther(sources, keys)
  {
    hasPassthrough, hasNonPassthrough := false, false;
    for i := 0 to |sources|
      invariant hasPassthrough <==>
        exists k, j | 0 <= k < i && 0 <= j < |sources[k]| :: FromPassthrough(sources[k][j], keys)
      invariant hasNonPassthrough <==>
        exists k, j | 0 <= k < i && 0 <= j < |sources[k]| :: !FromPassthrough(sources[k][j], keys)
    {
      var p, o := false, false;
      for j := 0 to |sources[i]|
        invariant p <==> exists k | 0 <= k < j :: FromPassthrough(sources[i][k], keys)
        invariant o <==> exists k | 0 <= k < j :: !FromPassthrough(sources[i][k], keys)
      {
        if FromPassthrough(sources[i][j], keys) {
          p := true;
        } else {
          o := true;
        }
      }
      hasPassthrough, hasNonPassthrough := hasPassthrough || p, hasNonPassthrough || o;
    }
  }

  function TLSKey(key: Key): Key {
    Key(key.namespace, key.name + "-tls-passthrough")
  }

  lemma {:induction false} TLSKeyInjective(k: Key, k': Key)
    ensures TLSKey(k) == TLSKey(k') <==> k == k'
    ensures TLSKey(k).namespace == k.namespace && TLSKey(k).name == k.name + "-tls-passthrough"
  {
    assert TLSKey(k).name[..|k.name|] == k.name;
    assert TLSKey(k').name[..|k'.name|] == k'.name;
  }

  ghost predicate PortsKnown(routes: map<Key, RouteContext>, keys: set<Key>) {
    forall k :: k in routes ==> AllPassingHavePorts(Pairs(routes[k].rules, routes[k].sources), keys)
  }

  /** What happens to the route of key `k`. */
  ghost predicate Handled(k: Key, was: map<Key, RouteContext>, now: map<Key, RouteContext>,
                          tls: map<Key, seq<BackendRef>>, keys: set<Key>)
    requires k in was && PortsKnown(was, keys)
  {
    var ctx := was[k];
    && (AnyPassthrough(ctx.sources, keys) ==>
          TLSKey(k) in tls && tls[TLSKey(k)] == TLSBackends(Pairs(ctx.rules, ctx.sources), keys))
    && (k in now <==> !AnyPassthrough(ctx.sources, keys) || AnyOther(ctx.sources, keys))
    && (k in now ==>
          now[k] == if !AnyPassthrough(ctx.sources, keys) then ctx
                    else var r := Strip(ctx.rules, ctx.sources, keys); RouteContext(r.rules, r.sources))
  }

  /** What has been done for one route stays when only another one and its TLSRoute change. */
  lemma {:induction false} HandledStays(k: Key, key: Key, was: map<Key, RouteContext>, now: map<Key, RouteContext>,
                                        later: map<Key, RouteContext>, tls: map<Key, seq<BackendRef>>,
                                        laterTls: map<Key, seq<BackendRef>>, keys: set<Key>)
    requires k in was && k != key && PortsKnown(was, keys) && Handled(k, was, now, tls, keys)
    requires (k in now <==> k in later) && (k in now ==> now[k] == later[k])
    requires forall t :: t != TLSKey(key) && t in tls ==> t in laterTls && laterTls[t] == tls[t]
    ensures Handled(k, was, later, laterTls, keys)
  {
    TLSKeyInjective(k, key);
  }

  /** For any order of the routes; those served by passthrough alone are deleted at the end. */
  method SslPassthroughFeature(ingresses: seq<Ingress>, ir: ProviderIR)
    requires PortsKnown(ir.httpRoutes, PassthroughKeys(ingresses))
    modifies ir
    ensures ir.httpRoutes.Keys <= old(ir.httpRoutes).Keys
    ensures forall k :: k in old(ir.httpRoutes) ==>
      Handled(k, old(ir.httpRoutes), ir.httpRoutes, ir.tlsRoutes, PassthroughKeys(ingresses))
    ensures forall k :: k in ir.tlsRoutes && k !in old(ir.tlsRoutes) ==>
      exists k0 :: k0 in old(ir.httpRoutes) && k == TLSKey(k0)
        && AnyPassthrough(old(ir.httpRoutes)[k0].sources, PassthroughKeys(ingresses))
  {
    ghost var was, tls0 := ir.httpRoutes, ir.tlsRoutes;
    var keys := CollectPassthrough(ingresses);
    if keys == {} {
      return;
    }
    var toDelete := {};
    var todo := ir.httpRoutes.Keys;
    while todo != {}
      invariant todo <= was.Keys && toDelete <= was.Keys - todo && ir.httpRoutes.Keys == was.Keys
      invariant forall k :: k in todo ==> ir.httpRoutes[k] == was[k]
      invariant forall k :: k in was && k !in todo ==> Handled(k, was, ir.httpRoutes - toDelete, ir.tlsRoutes, keys)
      invariant forall k :: k in ir.tlsRoutes && k !in tls0 ==>
        exists k0 :: k0 in was && k == TLSKey(k0) && AnyPassthrough(was[k0].sources, keys)
      decreases todo
    {
      var key :| key in todo;
      todo := todo - {key};
      var ctx := ir.httpRoutes[key];
      ghost var httpBefore, tlsBefore, deleteBefore := ir.httpRoutes, ir.tlsRoutes, toDelete;
      var hasPassthrough, hasNonPassthrough := Classify(ctx.sources, keys);
      if hasPassthrough {
        var refs := BuildTLSRoute(ctx.rules, ctx.sources, keys);
        ir.tlsRoutes := ir.tlsRoutes[TLSKey(key) := refs];
        if hasNonPassthrough {
          var newRules, newSources := StripPassthroughRules(ctx.rules, ctx.sources, keys);
          ir.httpRoutes := ir.httpRoutes[key := RouteContext(newRules, newSources)];
        } else {
          toDelete := toDelete + {key};
        }
      }
      forall k | k in was && k !in todo
        ensures Handled(k, was, ir.httpRoutes - toDelete, ir.tlsRoutes, keys)
      {
        if k != key {
          HandledStays(k, key, was, httpBefore - deleteBefore, ir.httpRoutes - toDelete, tlsBefore, ir.tlsRoutes, keys);
        }
      }
    }
    ir.httpRoutes := ir.httpRoutes - toDelete;
  }

  /** The route is deleted exactly when all its sources are passthrough ones. */
  lemma {:induction false} DeletedIffAllPassthrough(k: Key, was: map<Key, RouteContext>, now: map<Key, RouteContext>,
                                 tls: map<Key, seq<BackendRef>>, keys: set<Key>)
    requires k in was && PortsKnown(was, keys) && Handled(k, was, now, tls, keys)
    requires exists i :: 0 <= i < |was[k].sources| && was[k].sources[i] != []
    ensures k !in now <==> forall i, j | 0 <= i < |was[k].sources| && 0 <= j < |was[k].sources[i]| ::
      FromPassthrough(was[k].sources[i][j], keys)
  {
    var sources := was[k].sources;
    var i :| 0 <= i < |sources| && sources[i] != [];
    if !AnyOther(sources, keys) {
      assert FromPassthrough(sources[i][0], keys);
    }
  }
}
