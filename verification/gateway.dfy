/** The Gateway API values that the Ingress-style providers fill in. */
module Gateway {
  import opened Optional

  datatype PathType = Exact | PathPrefix | RegularExpression

  datatype PathMatch = PathMatch(kind: Option<PathType>, value: Option<string>)

  datatype HeaderMatch = HeaderMatch(name: string, value: string)

  datatype RouteMatch = RouteMatch(path: Option<PathMatch>, headers: seq<HeaderMatch>)

  datatype Redirect = Redirect(
    scheme: Option<string>,
    hostname: Option<string>,
    port: Option<int>,
    statusCode: Option<int>,
    replaceFullPath: Option<string>)

  datatype Filter = RequestRedirect(redirect: Redirect) | OtherFilter(id: string)

  datatype BackendRef = BackendRef(
    name: string,
    namespace: Option<string>,
    group: Option<string>,
    kind: Option<string>,
    port: Option<int>,
    weight: Option<int>)

  datatype Rule = Rule(matches: seq<RouteMatch>, filters: seq<Filter>, backends: seq<BackendRef>)

  /** A types.NamespacedName. */
  datatype Key = Key(namespace: string, name: string)

  function NewRouteMatch(kind: PathType, value: string): RouteMatch {
    RouteMatch(Some(PathMatch(Some(kind), Some(value))), [])
  }
}
