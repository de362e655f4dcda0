module CommonRuleGroups {
  /** The two groupings of ingress rules: GetRuleGroups (pkg/i2gw/providers/common/utils.go) and the
      aggregator (.../common/converter.go). */

  import opened CommonIngress
  import opened Gateway
  import opened Grouping
  import opened Optional

  datatype RuleGroup = RuleGroup(
    namespace: string,
    name: string,
    ingressClass: string,
    host: string,
    tls: seq<TLS>,
    rules: seq<Entry>,
    protocol: Protocol)

  /** `start` and the first `n` rules of an ingress. */
  function EntriesIn(start: seq<Entry>, ingress: Ingress, p: Protocol, n: nat): seq<Entry>
    requires n <= |ingress.rules|
    decreases n
  {
    if n == 0 then start else EntriesIn(start, ingress, p, n - 1) + [Entry(ingress, ingress.rules[n - 1], p)]
  }

  /** `start` and the rules of the first `n` ingresses. */
  function EntriesOf(start: seq<Entry>, ingresses: seq<Ingress>, p: Protocol, n: nat): seq<Entry>
    requires n <= |ingresses|
    decreases n
  {
    if n == 0 then start
    else EntriesIn(EntriesOf(start, ingresses, p, n - 1), ingresses[n - 1], p, |ingresses[n - 1].rules|)
  }

  /** The rules of all ingresses of the HTTP protocol. */
  function AllEntries(ingresses: seq<Ingress>): seq<Entry> {
    EntriesOf([], ingresses, HTTP, |ingresses|)
  }

  function AllTLS(es: seq<Entry>): seq<TLS> {
    if es == [] then [] else AllTLS(es[..|es| - 1]) + es[|es| - 1].ingress.tls
  }

  /** The group of a non-empty list of rules: the first one names it. */
  function GroupOf(es: seq<Entry>): RuleGroup
    requires es != []
  {
    var first := es[0];
    RuleGroup(first.ingress.namespace, first.ingress.name, GetIngressClass(first.ingress), first.rule.host,
      AllTLS(es), es, first.protocol)
  }

  lemma {:induction false} AllTLSHas(es: seq<Entry>, t: TLS)
    ensures t in AllTLS(es) <==> exists e :: e in es && t in e.ingress.tls
  {
    if es != [] {
      var n := |es| - 1;
      AllTLSHas(es[..n], t);
      assert es == es[..n] + [es[n]];
    }
  }

  /** A group has the namespace, the class and the host of its first rule, the name of that rule's ingress,
      all its rules in order, and the TLS blocks of all their ingresses. */
  lemma {:induction false} GroupInFull(es: seq<Entry>, t: TLS)
    requires es != []
    ensures var g, first := GroupOf(es), es[0];
      && g.namespace == first.ingress.namespace && g.ingressClass == GetIngressClass(first.ingress)
      && g.host == first.rule.host && g.name == first.ingress.name && g.protocol == first.protocol
      && g.rules == es
      && (t in g.tls <==> exists e :: e in es && t in e.ingress.tls)
  {
    AllTLSHas(es, t);
  }

  function NewGroup(e: Entry): RuleGroup {
    RuleGroup(e.ingress.namespace, e.ingress.name, GetIngressClass(e.ingress), e.rule.host, [], [], e.protocol)
  }

  function Extended(g: RuleGroup, e: Entry): RuleGroup {
    g.(tls := g.tls + e.ingress.tls, rules := g.rules + [e])
  }

  lemma {:induction false} GroupGrows(es: seq<Entry>, e: Entry)
    ensures GroupOf(es + [e]) == Extended(if es == [] then NewGroup(e) else GroupOf(es), e)
  {
    var now := es + [e];
    assert now[..|es|] == es;
    if es == [] {
      assert now == [e] && AllTLS(now) == AllTLS(now[..0]) + e.ingress.tls;
    } else {
      assert now[0] == es[0];
    }
  }

  /** The groups once `e` has been added under key `k`. */
  function Added(groups: map<string, RuleGroup>, k: string, e: Entry): map<string, RuleGroup> {
    groups[k := Extended(if k in groups then groups[k] else NewGroup(e), e)]
  }

  function GroupMap(es: seq<Entry>, key: Entry -> string): map<string, RuleGroup> {
    if es == [] then map[]
    else
      var last := es[|es| - 1];
      Added(GroupMap(es[..|es| - 1], key), key(last), last)
  }

  /** Adding rules one by one makes the groups of all: their keys, and under each its rules. */
  lemma {:induction false} GroupMapHas(es: seq<Entry>, key: Entry -> string, k: string)
    ensures k in GroupMap(es, key) <==> k in FirstKeys(es, key)
    ensures k in GroupMap(es, key) ==> OfKey(es, key, k) != [] && GroupMap(es, key)[k] == GroupOf(OfKey(es, key, k))
  {
    if es != [] {
      var was, last := es[..|es| - 1], es[|es| - 1];
      assert es == was + [last];
      GroupMapHas(was, key, k);
      OfKeyGrows(was, last, key, k);
      OfKeyIs(was, key, k);
      if key(last) == k {
        GroupGrows(OfKey(was, key, k), last);
      }
    }
  }

  lemma {:induction false} GroupMapGrows(es: seq<Entry>, e: Entry, key: Entry -> string)
    ensures GroupMap(es + [e], key) == Added(GroupMap(es, key), key(e), e)
  {
    assert (es + [e])[..|es|] == es;
  }

  method GetRuleGroups(ingresses: seq<Ingress>) returns (groups: map<string, RuleGroup>)
    ensures groups == GroupMap(AllEntries(ingresses), RuleGroupKey)
  {
    groups := map[];
    ghost var entries: seq<Entry> := [];
    for i := 0 to |ingresses|
      invariant entries == EntriesOf([], ingresses, HTTP, i) && groups == GroupMap(entries, RuleGroupKey)
    {
      var ingress := ingresses[i];
      ghost var before := entries;
      for j := 0 to |ingress.rules|
        invariant entries == EntriesIn(before, ingress, HTTP, j)
        invariant groups == GroupMap(entries, RuleGroupKey)
      {
        var e := Entry(ingress, ingress.rules[j], HTTP);
        var key := RuleGroupKey(e);
        var rg := if key in groups then groups[key] else NewGroup(e);
        GroupMapGrows(entries, e, RuleGroupKey);
        rg := rg.(tls := rg.tls + ingress.tls, rules := rg.rules + [e]);
        groups := groups[key := rg];
        assert groups == Added(GroupMap(entries, RuleGroupKey), key, e);
        entries := entries + [e];
      }
    }
  }

  datatype DefaultBackend = DefaultBackend(
    name: string,
    namespace: string,
    ingressClass: string,
    backend: IngressBackend,
    ingress: Ingress)

  function DefaultOf(ingress: Ingress): seq<DefaultBackend> {
    match ingress.defaultBackend
    case Some(b) => [DefaultBackend(ingress.name, ingress.namespace, GetIngressClass(ingress), b, ingress)]
    case None => []
  }

  /** `start` and the default backends of the first `n` ingresses. */
  function DefaultsOf(start: seq<DefaultBackend>, ingresses: seq<Ingress>, n: nat): seq<DefaultBackend>
    requires n <= |ingresses|
    decreases n
  {
    if n == 0 then start else DefaultsOf(start, ingresses, n - 1) + DefaultOf(ingresses[n - 1])
  }

  function AllDefaults(ingresses: seq<Ingress>): seq<DefaultBackend> {
    DefaultsOf([], ingresses, |ingresses|)
  }

  class IngressAggregator {
    var ruleGroups: map<string, RuleGroup>
    var defaultBackends: seq<DefaultBackend>
    const servicePorts: ServicePorts
    /** The rules added so far, in order. */
    ghost var entries: seq<Entry>

    ghost predicate Valid()
      reads this
    {
      ruleGroups == GroupMap(entries, AggregatorKey)
    }

    constructor (servicePorts: ServicePorts)
      ensures Valid() && entries == [] && defaultBackends == [] && this.servicePorts == servicePorts
    {
      this.servicePorts := servicePorts;
      ruleGroups, defaultBackends, entries := map[], [], [];
    }

    method AddIngressRule(ingress: Ingress, ingressClass: string, rule: IngressRule, protocol: Protocol)
      requires Valid() && ingressClass == GetIngressClass(ingress)
      modifies this`ruleGroups, this`entries
      ensures Valid() && entries == old(entries) + [Entry(ingress, rule, protocol)]
    {
      var e := Entry(ingress, rule, protocol);
      var key := AggregatorKey(e);
      var rg := RuleGroup(ingress.namespace, ingress.name, ingressClass, rule.host, [], [], protocol);
      if key in ruleGroups {
        rg := ruleGroups[key];
      }
      ghost var extended := Extended(rg, e);
      GroupMapGrows(entries, e, AggregatorKey);
      if |ingress.tls| > 0 {
        rg := rg.(tls := rg.tls + ingress.tls);
      }
      rg := rg.(rules := rg.rules + [e]);
      assert rg == extended;
      ruleGroups := ruleGroups[key := rg];
      entries := entries + [e];
    }

    method AddIngress(ingress: Ingress, protocol: Protocol)
      requires Valid()
      modifies this
      ensures Valid() && entries == EntriesIn(old(entries), ingress, protocol, |ingress.rules|)
      ensures defaultBackends == old(defaultBackends) + DefaultOf(ingress)
    {
      var ingressClass := GetIngressClass(ingress);
      for i := 0 to |ingress.rules|
        invariant Valid() && defaultBackends == old(defaultBackends)
        invariant entries == EntriesIn(old(entries), ingress, protocol, i)
      {
        AddIngressRule(ingress, ingressClass, ingress.rules[i], protocol);
      }
      if ingress.defaultBackend.Some? {
        defaultBackends := defaultBackends
          + [DefaultBackend(ingress.name, ingress.namespace, ingressClass, ingress.defaultBackend.value, ingress)];
      }
    }

    method AddIngresses(ingresses: seq<Ingress>, protocol: Protocol)
      requires Valid()
      modifies this
      ensures Valid() && entries == EntriesOf(old(entries), ingresses, protocol, |ingresses|)
      ensures defaultBackends == DefaultsOf(old(defaultBackends), ingresses, |ingresses|)
    {
      for i := 0 to |ingresses|
        invariant Valid() && entries == EntriesOf(old(entries), ingresses, protocol, i)
        invariant defaultBackends == DefaultsOf(old(defaultBackends), ingresses, i)
      {
        AddIngress(ingresses[i], protocol);
      }
    }
  }

  /** On rules of one protocol the two groupings agree: same first ingress, host, rules and order. */
  lemma {:induction false} GroupingsAgree(es: seq<Entry>, e: Entry)
    requires e in es && forall f :: f in es ==> f.protocol == e.protocol
    ensures RuleGroupKey(e) in GroupMap(es, RuleGroupKey) && AggregatorKey(e) in GroupMap(es, AggregatorKey)
    ensures GroupMap(es, RuleGroupKey)[RuleGroupKey(e)] == GroupMap(es, AggregatorKey)[AggregatorKey(e)]
  {
    forall f | f in es
      ensures RuleGroupKey(f) == RuleGroupKey(e) <==> AggregatorKey(f) == AggregatorKey(e)
    {
      KeysAgree(f, e);
    }
    SameKernelSameGroups(es, RuleGroupKey, AggregatorKey, e);
    FirstKeysAreDistinct(es, RuleGroupKey);
    FirstKeysAreDistinct(es, AggregatorKey);
    GroupMapHas(es, RuleGroupKey, RuleGroupKey(e));
    GroupMapHas(es, AggregatorKey, AggregatorKey(e));
  }
}
