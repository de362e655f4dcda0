module OpenAPIOperations {
  /**
   What the operations of an OpenAPI 3.x spec ask for, and what the routes built for them serve. An
   operation is taken at one of its expanded servers; what it asks for is said in its own terms, not
   through the matchers that the provider makes of it.
   */

  import opened CommonNames
  import opened Grouping
  import opened OpenAPIRoutes
  import opened OpenAPIRouting
  import opened Optional
  import opened Strings

  /** An operation at the server `uri`, whose path is `basePath`; `headers` and `params` are the names of
      its required parameters. */
  datatype Operation = Operation(uri: string, basePath: string, relativePath: string, verb: string,
                                 headers: seq<string>, params: seq<string>)

  function MatcherFor(o: Operation): Matcher {
    ToHTTPMatcher(o.uri, o.basePath, o.relativePath, o.verb, o.headers, o.params)
  }

  function MatchersFor(ops: seq<Operation>): seq<Matcher> {
    Map(ops, MatcherFor)
  }

  // ---- Hosts ------------------------------------------------------------------------------------------

  /** The URI is a scheme and a host, maybe with a path on one line after them. */
  predicate Names(uri: string, scheme: string, host: string, path: string) {
    && (scheme == "http" || scheme == "https")
    && uri == scheme + "://" + host + path
    && host != "" && '/' !in host
    && (path == "" || (path[0] == '/' && '\n' !in path))
  }

  ghost predicate NamesServer(uri: string, scheme: string, host: string) {
    exists path :: Names(uri, scheme, host, path)
  }

  /** The scheme and the host that the URI asks for: its own, or any host over http. */
  ghost predicate AsksServer(uri: string, scheme: string, host: string) {
    || NamesServer(uri, scheme, host)
    || (scheme == "http" && host == "*" && forall s, h :: !NamesServer(uri, s, h))
  }

  lemma {:induction false} HostInIs(rest: string, host: string, path: string)
    requires rest == host + path && '/' !in host && (path == "" || path[0] == '/')
    ensures Find(rest, '/') == |host| && rest[..|host|] == host && rest[|host|..] == path
  {
    if path == "" {
      assert rest == host && '/' !in rest;
    } else {
      FindAt(host, '/', path[1..]);
      assert rest == host + ['/'] + path[1..];
    }
  }

  lemma {:induction false} NamedServerIsFound(uri: string, scheme: string, host: string, path: string)
    requires Names(uri, scheme, host, path)
    ensures AuthorityOf(uri) == Some(Authority(scheme, host))
  {
    assert uri[..|scheme| + 3] == scheme + "://";
    if scheme == "http" {
      assert uri[4] == ':' && "https://"[4] == 's';
    }
    HostInIs(uri[|scheme| + 3..], host, path);
  }

  lemma {:induction false} FoundServerIsNamed(uri: string)
    requires AuthorityOf(uri).Some?
    ensures var a := AuthorityOf(uri).value; NamesServer(uri, a.scheme, a.host)
  {
    var a := AuthorityOf(uri).value;
    var rest := uri[|a.scheme| + 3..];
    var k := Find(rest, '/');
    assert uri == a.scheme + "://" + rest[..k] + rest[k..];
    assert Names(uri, a.scheme, a.host, rest[k..]);
  }

  /** The matcher of an operation, field by field: the scheme and host that its URI asks for, the base
      path, unless it is only a slash, before its own path, its method, and its names, joined. */
  lemma {:induction false} MatcherSaysWhatIsAsked(o: Operation)
    ensures var m := MatcherFor(o);
      && (forall scheme, host :: AsksServer(o.uri, scheme, host) <==> m.protocol == scheme && m.host == host)
      && m.rule.path == (if o.basePath == "/" then o.relativePath else o.basePath + o.relativePath)
      && m.rule.verb == o.verb
      && m.rule.headers == Join(o.headers, ',') && m.rule.params == Join(o.params, ',')
  {
    var m := MatcherFor(o);
    if AuthorityOf(o.uri).Some? {
      FoundServerIsNamed(o.uri);
    }
    forall scheme, host
      ensures AsksServer(o.uri, scheme, host) <==> m.protocol == scheme && m.host == host
    {
      if NamesServer(o.uri, scheme, host) {
        var path :| Names(o.uri, scheme, host, path);
        NamedServerIsFound(o.uri, scheme, host, path);
      }
      if AuthorityOf(o.uri).None? {
        forall s, h
          ensures !NamesServer(o.uri, s, h)
        {
          if NamesServer(o.uri, s, h) {
            var path :| Names(o.uri, s, h, path);
            NamedServerIsFound(o.uri, s, h, path);
          }
        }
      }
    }
    assert "" + o.relativePath == o.relativePath;
  }

  // ---- Names ------------------------------------------------------------------------------------------

  /** The names can be told from each other once they are joined by commas. */
  predicate Plain(names: seq<string>) {
    names != [""] && forall n :: n in names ==> ',' !in n
  }

  lemma {:induction false} NamesComeBackIff(names: seq<string>)
    ensures NamesOf(Join(names, ',')) == names <==> Plain(names)
  {
    if names != [] {
      SplitJoin(names, ',');
    }
  }

  /** What comes out of a joined list is plain. */
  lemma {:induction false} NamesArePlain(joined: string)
    ensures Plain(NamesOf(joined))
  {
    if joined != "" {
      JoinSplit(joined, ',');
    }
  }

  // ---- What is asked and what is served -----------------------------------------------------------------

  ghost predicate AsksMatch(o: Operation, m: Match) {
    && m.path == (if o.basePath == "/" then o.relativePath else o.basePath + o.relativePath)
    && m.verb == o.verb
    && m.headers == o.headers
    && m.params == o.params
  }

  ghost predicate AsksHost(o: Operation, host: string) {
    exists scheme :: AsksServer(o.uri, scheme, host)
  }

  /** Some operation asks for that match on that host. */
  ghost predicate OperationAsks(ops: seq<Operation>, host: string, m: Match) {
    exists o :: o in ops && AsksHost(o, host) && AsksMatch(o, m)
  }

  ghost predicate HostsAreCommaFree(ops: seq<Operation>) {
    forall o, host :: o in ops && AsksHost(o, host) ==> ',' !in host
  }

  predicate NamesArePlainIn(ops: seq<Operation>) {
    forall o :: o in ops ==> Plain(o.headers) && Plain(o.params)
  }

  lemma {:induction false} HostAsked(o: Operation, host: string)
    ensures AsksHost(o, host) <==> MatcherFor(o).host == host
  {
    MatcherSaysWhatIsAsked(o);
    var m := MatcherFor(o);
    assert AsksServer(o.uri, m.protocol, m.host);
  }

  lemma {:induction false} MatchAsked(o: Operation, m: Match)
    requires Plain(o.headers) && Plain(o.params)
    ensures AsksMatch(o, m) <==> MatchOf(MatcherFor(o).rule) == m
  {
    MatcherSaysWhatIsAsked(o);
    NamesComeBackIff(o.headers);
    NamesComeBackIff(o.params);
  }

  lemma {:induction false} MatcherIsThere(ops: seq<Operation>)
    ensures forall o :: o in ops ==> MatcherFor(o) in MatchersFor(ops)
    ensures forall x :: x in MatchersFor(ops) ==> Valid(x) && exists o :: o in ops && MatcherFor(o) == x
  {
    forall o | o in ops
      ensures MatcherFor(o) in MatchersFor(ops)
    {
      var i :| 0 <= i < |ops| && ops[i] == o;
      assert MatchersFor(ops)[i] == MatcherFor(o);
    }
    forall x | x in MatchersFor(ops)
      ensures Valid(x) && exists o :: o in ops && MatcherFor(o) == x
    {
      var i :| 0 <= i < |ops| && MatchersFor(ops)[i] == x;
      assert ops[i] in ops;
    }
  }

  lemma {:induction false} AskedByOperations(ops: seq<Operation>, host: string, m: Match)
    requires NamesArePlainIn(ops)
    ensures OperationAsks(ops, host, m) <==> Asked(MatchersFor(ops), host, m)
  {
    MatcherIsThere(ops);
    forall o | o in ops
      ensures AsksHost(o, host) && AsksMatch(o, m) <==> MatcherFor(o).host == host && MatchOf(MatcherFor(o).rule) == m
    {
      HostAsked(o, host);
      MatchAsked(o, m);
    }
  }

  lemma {:induction false} CommaFreeOperations(ops: seq<Operation>)
    ensures HostsAreCommaFree(ops) <==> CommaFree(MatchersFor(ops))
  {
    MatcherIsThere(ops);
    forall o, host | o in ops
      ensures AsksHost(o, host) <==> MatcherFor(o).host == host
    {
      HostAsked(o, host);
    }
    if HostsAreCommaFree(ops) {
      forall x | x in MatchersFor(ops)
        ensures HOST_SEPARATOR !in x.host
      {
        var o :| o in ops && MatcherFor(o) == x;
        assert AsksHost(o, x.host);
      }
    }
  }

  /**
   Whatever orders Go's maps were walked in: on every host the routes serve exactly the paths, methods,
   headers and parameters that the operations ask for there, if and only if no host and no name contains
   a comma and no operation has a single, empty, name.
   */
  lemma {:induction false} OperationsAreServedIff(c: Config, ops: seq<Operation>, groups: seq<string>,
                                                  byGroup: map<string, seq<RuleMatcher>>)
    requires IsGrouping(MatchersFor(ops), groups, byGroup)
    ensures (forall host, m ::
              Routed(RoutesOf(c, groups, byGroup, |groups|), host, m) <==> OperationAsks(ops, host, m))
            <==> HostsAreCommaFree(ops) && NamesArePlainIn(ops)
  {
    var rs := RoutesOf(c, groups, byGroup, |groups|);
    var matchers := MatchersFor(ops);
    MatcherIsThere(ops);
    if NamesArePlainIn(ops) {
      forall host, m
        ensures OperationAsks(ops, host, m) <==> Asked(matchers, host, m)
      {
        AskedByOperations(ops, host, m);
      }
      CommaFreeOperations(ops);
      RoutingIsKeptIffHostsAreCommaFree(c, matchers, groups, byGroup);
    } else {
      var host, m := NamesAreLost(c, ops, groups, byGroup);
    }
  }

  /** An operation with names that do not come back asks for a match that no route has. */
  lemma {:induction false} NamesAreLost(c: Config, ops: seq<Operation>, groups: seq<string>,
                                        byGroup: map<string, seq<RuleMatcher>>)
    returns (host: string, m: Match)
    requires IsGrouping(MatchersFor(ops), groups, byGroup) && !NamesArePlainIn(ops)
    ensures OperationAsks(ops, host, m) && !Routed(RoutesOf(c, groups, byGroup, |groups|), host, m)
  {
    var o :| o in ops && !(Plain(o.headers) && Plain(o.params));
    host := MatcherFor(o).host;
    m := Match(if o.basePath == "/" then o.relativePath else o.basePath + o.relativePath, o.verb, o.headers, o.params);
    HostAsked(o, host);
    assert AsksMatch(o, m);
    if Routed(RoutesOf(c, groups, byGroup, |groups|), host, m) {
      RoutedIsGrouped(c, groups, byGroup, host, m);
      var g, r :| g in byGroup && r in byGroup[g] && MatchOf(r) == m && host in RawHosts(g);
      NamesArePlain(r.headers);
      NamesArePlain(r.params);
      assert false;
    }
  }

  /** The operation asks for a scheme and a host of that listener. */
  ghost predicate AsksListener(o: Operation, listener: string) {
    exists scheme, host :: AsksServer(o.uri, scheme, host) && listener == scheme + "://" + host
  }

  lemma {:induction false} ListenerAsked(o: Operation, listener: string)
    ensures AsksListener(o, listener) <==> ListenerOf(MatcherFor(o)) == listener
  {
    MatcherSaysWhatIsAsked(o);
    var m := MatcherFor(o);
    assert AsksServer(o.uri, m.protocol, m.host);
  }

  /** The gateway has a listener for each scheme and host that an operation asks for, once, and no other. */
  lemma {:induction false} ListenersAreAsked(ops: seq<Operation>, groups: seq<string>,
                                             byGroup: map<string, seq<RuleMatcher>>)
    requires IsGrouping(MatchersFor(ops), groups, byGroup) && HostsAreCommaFree(ops)
    ensures NoDuplicates(Declared(groups))
    ensures forall listener :: listener in Declared(groups) <==> exists o :: o in ops && AsksListener(o, listener)
  {
    MatcherIsThere(ops);
    CommaFreeOperations(ops);
    DeclaredAreAsked(MatchersFor(ops), groups, byGroup);
    forall listener
      ensures listener in Declared(groups) <==> exists o :: o in ops && AsksListener(o, listener)
    {
      forall o | o in ops
        ensures AsksListener(o, listener) <==> ListenerOf(MatcherFor(o)) == listener
      {
        ListenerAsked(o, listener);
      }
      if listener in Declared(groups) {
        var x :| x in MatchersFor(ops) && ListenerOf(x) == listener;
        var o :| o in ops && MatcherFor(o) == x;
        assert AsksListener(o, listener);
      }
    }
  }

  // ---- The rest of a route --------------------------------------------------------------------------------

  /** A listener is named after its host and its scheme, or its scheme alone when it is for all hosts. */
  lemma {:induction false} ListenerIsNamed(scheme: string, host: string)
    requires Names(scheme + "://" + host, scheme, host, "")
    ensures ListenerName(scheme + "://" + host) == if host == "*" then scheme else NameFromHost(host) + "-" + scheme
  {
    NamedServerIsFound(scheme + "://" + host, scheme, host, "");
    assert "" + scheme == scheme;
  }
}
