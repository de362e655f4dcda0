module BackendSources {
  /** Where the backends of a rule come from (pkg/i2gw/provider_intermediate), rule by rule beside an
      HTTPRoute. */

  import opened Gateway
  import opened Optional

  datatype Ingress = Ingress(namespace: string, name: string, annotations: map<string, string>)

  function Annotation(ingress: Ingress, key: string): string {
    if key in ingress.annotations then ingress.annotations[key] else ""
  }

  /** A BackendSource: the ingress that contributed a backend, nil if unknown, and the backend that
      its path or default backend asks for. */
  datatype BackendSource = BackendSource(ingress: Option<Ingress>, backend: BackendRef)

  predicate Known(sources: seq<BackendSource>) {
    forall s :: s in sources ==> s.ingress.Some?
  }

  function Unweighted(b: BackendRef): BackendRef {
    b.(weight := None)
  }

  /** Backend `j` comes from source `j`, up to its weight; there may be more sources than backends. */
  predicate AlignedRule(rule: Rule, sources: seq<BackendSource>) {
    && |rule.backends| <= |sources|
    && forall j :: 0 <= j < |rule.backends| ==> Unweighted(rule.backends[j]) == sources[j].backend
  }

  predicate Aligned(rules: seq<Rule>, sources: seq<seq<BackendSource>>) {
    && |rules| == |sources|
    && forall i :: 0 <= i < |rules| ==> AlignedRule(rules[i], sources[i]) && Known(sources[i])
  }

  predicate NoWeights(backends: seq<BackendRef>) {
    forall b :: b in backends ==> b.weight.None?
  }

  /** As the conversion of plain ingresses leaves them: one source per backend, no weights yet. */
  predicate FreshlyAligned(rules: seq<Rule>, sources: seq<seq<BackendSource>>) {
    && Aligned(rules, sources)
    && forall i :: 0 <= i < |rules| ==> |rules[i].backends| == |sources[i]| && NoWeights(rules[i].backends)
  }

  /** A pass that leaves every rule's backends alone keeps the alignment. */
  lemma {:induction false} SameBackendsKeepAlignment(rules: seq<Rule>, rules': seq<Rule>,
                                                     sources: seq<seq<BackendSource>>)
    requires Aligned(rules, sources) && |rules'| == |rules|
    requires forall i :: 0 <= i < |rules| ==> rules'[i].backends == rules[i].backends
    ensures Aligned(rules', sources)
  {
    forall i | 0 <= i < |rules'|
      ensures AlignedRule(rules'[i], sources[i])
    {
      assert AlignedRule(rules[i], sources[i]);
    }
  }
}
