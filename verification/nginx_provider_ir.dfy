module NginxProviderIR {
  /** The part of the provider's representation that the ingress-nginx passes update in place. */

  import opened Gateway
  import opened BackendSources

  /** The rules of an HTTPRoute and their RuleBackendSources. */
  datatype RouteContext = RouteContext(rules: seq<Rule>, sources: seq<seq<BackendSource>>)

  class ProviderIR {
    var httpRoutes: map<Key, RouteContext>
    var tlsRoutes: map<Key, seq<BackendRef>>

    constructor (httpRoutes: map<Key, RouteContext>)
      ensures this.httpRoutes == httpRoutes && tlsRoutes == map[]
    {
      this.httpRoutes, tlsRoutes := httpRoutes, map[];
    }
  }
}
