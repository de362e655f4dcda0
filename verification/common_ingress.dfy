module CommonIngress {
  /** Ingresses, the keys by which they are grouped, and the translation of their parts
      (pkg/i2gw/providers/common/converter.go and utils.go). */

  import opened Gateway
  import opened Optional
  import opened Strings

  const INGRESS_CLASS_ANNOTATION := "kubernetes.io/ingress.class"

  datatype IngressBackend =
    | Service(service: string, portName: string, portNumber: int)
    | Resource(apiGroup: Option<string>, kind: string, resource: string)

  datatype IngressPath = IngressPath(path: string, pathType: Option<string>, backend: IngressBackend)

  /** No HTTP part, no paths. */
  datatype IngressRule = IngressRule(host: string, paths: Option<seq<IngressPath>>)

  datatype TLS = TLS(hosts: seq<string>, secretName: string)

  datatype Ingress = Ingress(
    namespace: string,
    name: string,
    className: Option<string>,
    annotations: map<string, string>,
    tls: seq<TLS>,
    rules: seq<IngressRule>,
    defaultBackend: Option<IngressBackend>)

  datatype Protocol = HTTP | GRPC

  /** The class field, unless it is absent or empty; then the annotation, if there is one. */
  function GetIngressClass(ingress: Ingress): (c: string)
    ensures forall name :: ingress.className == Some(name) && name != "" ==> c == name
    ensures ingress.className == None || ingress.className == Some("") ==>
      if INGRESS_CLASS_ANNOTATION in ingress.annotations then c == ingress.annotations[INGRESS_CLASS_ANNOTATION]
      else c == ""
  {
    if ingress.className.Some? && ingress.className.value != "" then ingress.className.value
    else if INGRESS_CLASS_ANNOTATION in ingress.annotations then ingress.annotations[INGRESS_CLASS_ANNOTATION]
    else ""
  }

  /** A rule and the ingress that it is part of. */
  datatype Entry = Entry(ingress: Ingress, rule: IngressRule, protocol: Protocol)

  function ProtocolName(p: Protocol): string {
    match p
    case HTTP => "http"
    case GRPC => "grpc"
  }

  // ---- Keys -------------------------------------------------------------------------------------------

  /** The key of GetRuleGroups. */
  function RuleGroupKey(e: Entry): string {
    e.ingress.namespace + "/" + GetIngressClass(e.ingress) + "/" + e.rule.host
  }

  /** The key of the aggregator. */
  function AggregatorKey(e: Entry): string {
    RuleGroupKey(e) + "/" + ProtocolName(e.protocol)
  }

  /** On rules of one protocol both keys tell the same rules apart. */
  lemma {:induction false} KeysAgree(e: Entry, f: Entry)
    requires e.protocol == f.protocol
    ensures AggregatorKey(e) == AggregatorKey(f) <==> RuleGroupKey(e) == RuleGroupKey(f)
  {
    var a, b, n := AggregatorKey(e), AggregatorKey(f), |ProtocolName(e.protocol)| + 1;
    assert a[..|a| - n] == RuleGroupKey(e) && b[..|b| - n] == RuleGroupKey(f);
  }

  /** No slash in the namespace and the host, as in every ingress that Kubernetes accepts; the class
      may come from an annotation, which can hold anything. */
  predicate SlashFree(e: Entry) {
    '/' !in e.ingress.namespace && '/' !in e.rule.host
  }

  lemma {:induction false} SplitAtFirst(a: string, x: string, b: string, y: string, sep: char)
    requires sep !in a && sep !in b && a + [sep] + x == b + [sep] + y
    ensures a == b && x == y
  {
    FindAt(a, sep, x);
    FindAt(b, sep, y);
    var s, t := a + [sep] + x, b + [sep] + y;
    assert s[..|a|] == a && t[..|b|] == b;
    assert s[|a| + 1..] == x && t[|b| + 1..] == y;
  }

  /** Rules with one key have one namespace, class and host. */
  lemma {:induction false} KeyTellsApart(e: Entry, f: Entry)
    requires SlashFree(e) && SlashFree(f)
    ensures RuleGroupKey(e) == RuleGroupKey(f) <==>
            && e.ingress.namespace == f.ingress.namespace
            && GetIngressClass(e.ingress) == GetIngressClass(f.ingress)
            && e.rule.host == f.rule.host
  {
    if RuleGroupKey(e) == RuleGroupKey(f) {
      var ns, ns' := e.ingress.namespace, f.ingress.namespace;
      var class', class'' := GetIngressClass(e.ingress), GetIngressClass(f.ingress);
      SplitAtLast(ns + "/" + class', e.rule.host, ns' + "/" + class'', f.rule.host, '/');
      SplitAtFirst(ns, class', ns', class'', '/');
    }
  }

  /** Slashes do confuse classes and hosts. */
  lemma {:induction false} SlashesConfuse()
    ensures var of := n => Ingress("ns", "name", Some(n), map[], [], [], None);
            RuleGroupKey(Entry(of("a/b"), IngressRule("c", None), HTTP)) ==
              RuleGroupKey(Entry(of("a"), IngressRule("b/c", None), HTTP))
  {
    assert "ns/a/b/c" == "ns" + "/" + "a/b" + "/" + "c" == "ns" + "/" + "a" + "/" + "b/c";
  }

  // ---- Paths ------------------------------------------------------------------------------------------

  /** A path in its place; places only serve to report errors. */
  datatype PlacedPath = PlacedPath(ruleIdx: nat, pathIdx: nat, path: IngressPath, ingress: Ingress)

  function TypeName(t: Option<string>): string {
    match t
    case Some(name) => name
    case None => ""
  }

  function GetPathMatchKey(p: PlacedPath): string {
    TypeName(p.path.pathType) + "/" + p.path.path
  }

  /** The types that exist; the translation reads through a nil pointer on any other. */
  predicate KnownType(p: IngressPath) {
    p.pathType.None? || p.pathType.value in {"Prefix", "Exact", "ImplementationSpecific"}
  }

  /** One key, one type and path: any path of a group may speak for all. */
  lemma {:induction false} MatchKeyTellsApart(p: PlacedPath, q: PlacedPath)
    requires KnownType(p.path) && KnownType(q.path)
    ensures GetPathMatchKey(p) == GetPathMatchKey(q) <==>
      p.path.pathType == q.path.pathType && p.path.path == q.path.path
  {
    if GetPathMatchKey(p) == GetPathMatchKey(q) {
      SplitAtFirst(TypeName(p.path.pathType), p.path.path, TypeName(q.path.pathType), q.path.path, '/');
    }
  }

  /** A provider's translation of ImplementationSpecific paths. */
  type PathConverter = Option<PathMatch -> PathMatch>

  function ToHTTPRouteMatch(p: IngressPath, convert: PathConverter): (r: Option<RouteMatch>)
    requires KnownType(p)
    ensures r.None? <==> p.pathType.None? || (p.pathType.value == "ImplementationSpecific" && convert.None?)
    ensures p.pathType == Some("Prefix") ==> r == Some(NewRouteMatch(PathPrefix, p.path))
    ensures p.pathType == Some("Exact") ==> r == Some(NewRouteMatch(Exact, p.path))
    ensures p.pathType == Some("ImplementationSpecific") && convert.Some? ==>
      r.value.headers == [] && r.value.path == Some(convert.value(PathMatch(None, Some(p.path))))
  {
    if p.pathType.None? then None
    else if p.pathType.value == "Prefix" then Some(NewRouteMatch(PathPrefix, p.path))
    else if p.pathType.value == "Exact" then Some(NewRouteMatch(Exact, p.path))
    else if convert.Some? then Some(RouteMatch(Some(convert.value(PathMatch(None, Some(p.path)))), []))
    else None
  }

  /** The number of each service's named ports. */
  type ServicePorts = map<Key, map<string, int>>

  /** Where a request ends up: at a port of a service of the namespace, or at some other object. */
  datatype Destination = ServicePort(service: string, port: int) | Object(group: Option<string>, kind: string,
                                                                          object: string)

  /** The destination that an ingress of the namespace means by a backend; none if it names a port that
      its service does not have. */
  function Meant(namespace: string, b: IngressBackend, ports: ServicePorts): Option<Destination> {
    match b
    case Service(service, "", number) => Some(ServicePort(service, number))
    case Service(service, portName, _) =>
      if Key(namespace, service) in ports && portName in ports[Key(namespace, service)]
      then Some(ServicePort(service, ports[Key(namespace, service)][portName]))
      else None
    case Resource(group, kind, name) => Some(Object(group, kind, name))
  }

  /** The destination of a reference as a Gateway reads it: without a kind it is a service, and then the
      port is needed. */
  function LeadsTo(b: BackendRef): Option<Destination> {
    if b.namespace.Some? then None
    else if b.kind.Some? && b.port.None? then Some(Object(b.group, b.kind.value, b.name))
    else if b.kind.None? && b.group.None? && b.port.Some? then Some(ServicePort(b.name, b.port.value))
    else None
  }

  /** The reference leads where the ingress means, with no weight; none exactly when a named port is not
      in the table of the service. */
  function ToBackendRef(namespace: string, b: IngressBackend, ports: ServicePorts): (r: Option<BackendRef>)
    ensures r.None? <==>
      && b.Service? && b.portName != ""
      && !(Key(namespace, b.service) in ports && b.portName in ports[Key(namespace, b.service)])
    ensures r.Some? && b.Service? ==>
      && r.value.name == b.service
      && r.value.port == Some(if b.portName == "" then b.portNumber
                              else ports[Key(namespace, b.service)][b.portName])
      && r.value.group == None && r.value.kind == None
    ensures b.Resource? ==>
      r.Some? && r.value.name == b.resource && r.value.group == b.apiGroup && r.value.kind == Some(b.kind)
      && r.value.port == None
    ensures r.Some? ==> r.value.weight == None && LeadsTo(r.value) == Meant(namespace, b, ports)
    ensures r.Some? <==> Meant(namespace, b, ports).Some?
  {
    match b
    case Service(name, portName, number) =>
      if portName == "" then Some(BackendRef(name, None, None, None, Some(number), None))
      else
        var key := Key(namespace, name);
        if key in ports && portName in ports[key]
        then Some(BackendRef(name, None, None, None, Some(ports[key][portName]), None))
        else None
    case Resource(group, kind, name) => Some(BackendRef(name, None, group, Some(kind), None, None))
  }
}
