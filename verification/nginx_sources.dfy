module NginxSources {
  /** Which ingress speaks for a rule (pkg/i2gw/providers/ingressnginx/utils.go). */

  import opened BackendSources
  import opened Optional

  const CANARY_ANNOTATION := "nginx.ingress.kubernetes.io/canary"

  /** The value of strconv.ParseBool, which is false when it also returns an error. */
  predicate ParseBool(s: string) {
    s == "1" || s == "t" || s == "T" || s == "TRUE" || s == "true" || s == "True"
  }

  predicate IsCanary(ingress: Ingress) {
    ParseBool(Annotation(ingress, CANARY_ANNOTATION))
  }

  /** The ingress whose annotations speak for a rule: the first that is not a canary, else the first.
      The search reads through every ingress pointer that it meets. */
  function GetNonCanaryIngress(sources: seq<BackendSource>): (r: Option<Ingress>)
    requires Known(sources)
    ensures r.None? <==> sources == []
    ensures r.Some? && IsCanary(r.value) ==>
      r == sources[0].ingress && forall j :: 0 <= j < |sources| ==> IsCanary(sources[j].ingress.value)
    ensures r.Some? && !IsCanary(r.value) ==>
      exists i | 0 <= i < |sources| :: sources[i].ingress == r && forall j :: 0 <= j < i ==>
        IsCanary(sources[j].ingress.value)
  {
    var i := FirstNonCanary(sources);
    if i < |sources| then sources[i].ingress
    else if |sources| > 0 then sources[0].ingress
    else None
  }

  function FirstNonCanary(sources: seq<BackendSource>): (i: nat)
    requires Known(sources)
    ensures i <= |sources|
    ensures forall j :: 0 <= j < i ==> IsCanary(sources[j].ingress.value)
    ensures i < |sources| ==> !IsCanary(sources[i].ingress.value)
  {
    if sources == [] || !IsCanary(sources[0].ingress.value) then 0
    else 1 + FirstNonCanary(sources[1..])
  }
}
