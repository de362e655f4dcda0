module CommonListeners {
  /** The listeners of a Gateway, merged from those of its rule groups
      (pkg/i2gw/providers/common/converter.go). */

  import opened CommonIngress
  import opened CommonNames
  import opened CommonRuleGroups
  import opened Grouping
  import opened Optional

  /** What one rule group asks of its gateway: a hostname, and certificates if it has TLS. */
  datatype GroupListener = GroupListener(hostname: Option<string>, certificates: Option<seq<string>>)

  datatype Listener = Listener(name: string, hostname: Option<string>, port: int, protocol: string,
                               certificates: Option<seq<string>>)

  function HostnameOf(g: RuleGroup): Option<string> {
    if g.host != "" then Some(g.host)
    else if |g.tls| == 1 && |g.tls[0].hosts| == 1 then Some(g.tls[0].hosts[0])
    else None
  }

  function SecretNames(g: RuleGroup): set<string> {
    set t | t in g.tls :: t.secretName
  }

  /** The listener that a group asks for: with TLS it names every secret once. */
  ghost predicate IsListenerOf(l: GroupListener, g: RuleGroup) {
    && l.hostname == HostnameOf(g) && (l.certificates.Some? <==> g.tls != [])
    && (l.certificates.Some? ==>
          && NoDuplicates(l.certificates.value)
          && forall c :: c in l.certificates.value <==> c in SecretNames(g))
  }

  /** The secrets are listed in an order of Go's choosing. */
  method ToGroupListener(g: RuleGroup) returns (l: GroupListener)
    ensures IsListenerOf(l, g)
    ensures l.hostname == if g.host != "" then Some(g.host)
                          else if |g.tls| == 1 && |g.tls[0].hosts| == 1 then Some(g.tls[0].hosts[0])
                          else None
    ensures forall c :: (l.certificates.Some? && c in l.certificates.value) <==>
      exists t :: t in g.tls && t.secretName == c
  {
    if g.tls == [] {
      return GroupListener(HostnameOf(g), None);
    }
    var certNames := SecretNames(g);
    var refs := [];
    var todo := certNames;
    while todo != {}
      invariant todo <= certNames && NoDuplicates(refs) && forall c :: c in refs <==> c in certNames - todo
      decreases todo
    {
      var certName :| certName in todo;
      assert certName !in refs;
      refs := refs + [certName];
      todo := todo - {certName};
    }
    l := GroupListener(HostnameOf(g), Some(refs));
  }

  // ---- Offers -----------------------------------------------------------------------------------------

  function Prefix(hostname: Option<string>): string {
    if hostname.Some? && hostname.value != "" then NameFromHost(hostname.value) + "-" else ""
  }

  function HttpOffer(l: GroupListener): Listener {
    Listener(Prefix(l.hostname) + "http", l.hostname, 80, "HTTP", None)
  }

  function HttpsOffer(l: GroupListener): Listener
    requires l.certificates.Some?
  {
    Listener(Prefix(l.hostname) + "https", l.hostname, 443, "HTTPS", l.certificates)
  }

  function OffersOf(l: GroupListener): seq<Listener> {
    [HttpOffer(l)] + if l.certificates.Some? then [HttpsOffer(l)] else []
  }

  /** Every group offers an HTTP listener and, with TLS, an HTTPS one. */
  function Offers(ls: seq<GroupListener>): seq<Listener> {
    if ls == [] then [] else Offers(ls[..|ls| - 1]) + OffersOf(ls[|ls| - 1])
  }

  function NameOf(l: Listener): string {
    l.name
  }

  lemma {:induction false} OffersAre(ls: seq<GroupListener>, o: Listener)
    ensures o in Offers(ls) <==>
            exists l :: l in ls && (o == HttpOffer(l) || (l.certificates.Some? && o == HttpsOffer(l)))
  {
    if ls != [] {
      var n := |ls| - 1;
      OffersAre(ls[..n], o);
      assert ls == ls[..n] + [ls[n]];
    }
  }

  /** The name tells whether an offer has TLS. */
  predicate WellNamed(o: Listener) {
    |o.name| > 0 && (o.certificates.Some? <==> o.name[|o.name| - 1] == 's')
  }

  lemma {:induction false} OffersAreWellNamed(l: GroupListener)
    ensures WellNamed(HttpOffer(l)) && (l.certificates.Some? ==> WellNamed(HttpsOffer(l)))
  {
    var name := Prefix(l.hostname) + "http";
    assert name[|name| - 1] == "http"[3];
    var name' := Prefix(l.hostname) + "https";
    assert name'[|name'| - 1] == "https"[4];
  }

  function CertificatesOf(o: Listener): seq<string> {
    match o.certificates
    case Some(cs) => cs
    case None => []
  }

  function AllCertificates(os: seq<Listener>): seq<string> {
    FlatMap(os, CertificatesOf)
  }

  /** The offers of one name together: the first, with the certificates of all. */
  function Together(os: seq<Listener>): Listener
    requires os != []
  {
    if os[0].certificates.None? then os[0] else os[0].(certificates := Some(AllCertificates(os)))
  }

  function Self(s: string): string {
    s
  }

  /** The final deduplication. */
  function Deduplicated(l: Listener): Listener {
    match l.certificates
    case Some(cs) => l.(certificates := Some(FirstKeys(cs, Self)))
    case None => l
  }

  /** The listeners under their names, in order of first offer. */
  ghost predicate Holds(os: seq<Listener>, names: seq<string>, unique: map<string, Listener>) {
    && names == FirstKeys(os, NameOf)
    && (forall k :: k in unique <==> k in names)
    && (forall k :: k in unique ==> OfKey(os, NameOf, k) != [] && unique[k] == Together(OfKey(os, NameOf, k)))
    && (forall o :: o in os ==> WellNamed(o))
  }

  function Joined(l: Listener, o: Listener): Listener {
    if o.certificates.None? then l else l.(certificates := Some(CertificatesOf(l) + o.certificates.value))
  }

  lemma {:induction false} TogetherGrows(os: seq<Listener>, o: Listener)
    requires forall p :: p in os ==> (p.certificates.Some? <==> o.certificates.Some?)
    ensures Together(os + [o]) == if os == [] then o else Joined(Together(os), o)
  {
    FlatMapAppend(os, [o], CertificatesOf);
    assert [o][..0] == [];
    assert FlatMap([o], CertificatesOf) == CertificatesOf(o);
    if os == [] {
      assert os + [o] == [o];
    } else {
      assert os[0] in os && (os + [o])[0] == os[0];
    }
  }

  lemma {:induction false} NameGroupGrows(os: seq<Listener>, o: Listener)
    requires (forall p :: p in os ==> WellNamed(p)) && WellNamed(o)
    ensures var was, now := OfKey(os, NameOf, o.name), OfKey(os + [o], NameOf, o.name);
            && (was == [] <==> o.name !in FirstKeys(os, NameOf))
            && now != [] && Together(now) == if was == [] then o else Joined(Together(was), o)
  {
    OfKeyIs(os, NameOf, o.name);
    OfKeyGrows(os, o, NameOf, o.name);
    TogetherGrows(OfKey(os, NameOf, o.name), o);
  }

  /** The listeners once an offer has been added. */
  function WithOffer(unique: map<string, Listener>, o: Listener): map<string, Listener> {
    unique[o.name := if o.name in unique then Joined(unique[o.name], o) else o]
  }

  lemma {:induction false} OneMoreOffer(os: seq<Listener>, names: seq<string>, unique: map<string, Listener>,
                                        o: Listener)
    requires Holds(os, names, unique) && WellNamed(o)
    ensures Holds(os + [o], if o.name in unique then names else names + [o.name], WithOffer(unique, o))
  {
    NameGroupGrows(os, o);
    OfKeyGrows(os, o, NameOf, o.name);
    OtherNamesStay(os, o);
    var now := WithOffer(unique, o);
    forall k | k in now
      ensures OfKey(os + [o], NameOf, k) != [] && now[k] == Together(OfKey(os + [o], NameOf, k))
    {
      assert k != o.name ==> k in unique && now[k] == unique[k];
    }
  }

  lemma {:induction false} OtherNamesStay(os: seq<Listener>, o: Listener)
    ensures forall k :: k != o.name ==> OfKey(os + [o], NameOf, k) == OfKey(os, NameOf, k)
  {
    forall k | k != o.name
      ensures OfKey(os + [o], NameOf, k) == OfKey(os, NameOf, k)
    {
      OfKeyGrows(os, o, NameOf, k);
    }
  }

  function Merged(os: seq<Listener>, k: string): Listener {
    if OfKey(os, NameOf, k) == [] then Listener(k, None, 0, "", None) else Deduplicated(Together(OfKey(os, NameOf, k)))
  }

  /** The listeners of a gateway: one for each name, in order of first offer. */
  function MergedListeners(ls: seq<GroupListener>): seq<Listener> {
    Map(FirstKeys(Offers(ls), NameOf), k => Merged(Offers(ls), k))
  }

  /** Adds or updates the listener of one offer. */
  method Add(ghost os: seq<Listener>, names: seq<string>, unique: map<string, Listener>, o: Listener)
    returns (newNames: seq<string>, newUnique: map<string, Listener>)
    requires Holds(os, names, unique) && WellNamed(o)
    ensures Holds(os + [o], newNames, newUnique)
  {
    newNames := names;
    newUnique := AddToMap(os, names, unique, o);
    OneMoreOffer(os, names, unique, o);
    if o.name !in unique {
      newNames := newNames + [o.name];
    }
  }

  /** What it does to the map. */
  method AddToMap(ghost os: seq<Listener>, ghost names: seq<string>, unique: map<string, Listener>, o: Listener)
    returns (newUnique: map<string, Listener>)
    requires Holds(os, names, unique) && WellNamed(o)
    ensures newUnique == WithOffer(unique, o)
  {
    newUnique := unique;
    KnownHaveSameKind(os, names, unique, o);
    if o.name !in unique {
      newUnique := newUnique[o.name := if o.certificates.Some? then o.(certificates := Some([])) else o];
    }
    if o.certificates.Some? {
      var l := newUnique[o.name];
      newUnique := newUnique[o.name := l.(certificates := Some(l.certificates.value + o.certificates.value))];
      assert [] + o.certificates.value == o.certificates.value;
    }
  }

  lemma {:induction false} KnownHaveSameKind(os: seq<Listener>, names: seq<string>, unique: map<string, Listener>,
                                             o: Listener)
    requires Holds(os, names, unique) && WellNamed(o)
    ensures o.name in unique ==> (unique[o.name].certificates.Some? <==> o.certificates.Some?)
  {
    OfKeyIs(os, NameOf, o.name);
    if o.name in unique {
      var group := OfKey(os, NameOf, o.name);
      assert group[0] in group;
    }
  }

  /** The loop over the groups. */
  method CollectListeners(ls: seq<GroupListener>) returns (names: seq<string>, unique: map<string, Listener>)
    ensures Holds(Offers(ls), names, unique)
  {
    unique, names := map[], [];
    ghost var os: seq<Listener> := [];
    for i := 0 to |ls|
      invariant os == Offers(ls[..i]) && Holds(os, names, unique)
    {
      assert ls[..i + 1][..i] == ls[..i];
      names, unique := AddOffers(os, names, unique, ls[i]);
      os := os + OffersOf(ls[i]);
    }
    assert ls[..|ls|] == ls;
  }

  /** The turn of one group. */
  method AddOffers(ghost os: seq<Listener>, names: seq<string>, unique: map<string, Listener>, l: GroupListener)
    returns (newNames: seq<string>, newUnique: map<string, Listener>)
    requires Holds(os, names, unique)
    ensures Holds(os + OffersOf(l), newNames, newUnique)
  {
    OffersAreWellNamed(l);
    newNames, newUnique := Add(os, names, unique, HttpOffer(l));
    assert l.certificates.None? ==> OffersOf(l) == [HttpOffer(l)];
    if l.certificates.Some? {
      newNames, newUnique := Add(os + [HttpOffer(l)], newNames, newUnique, HttpsOffer(l));
      assert os + OffersOf(l) == os + [HttpOffer(l)] + [HttpsOffer(l)];
    }
  }

  method MergeListeners(ls: seq<GroupListener>) returns (merged: seq<Listener>)
    ensures merged == MergedListeners(ls)
  {
    var names, unique := CollectListeners(ls);
    merged := DeduplicateAll(names, unique);
    AllMerged(Offers(ls), names, unique, merged);
  }

  /** The final loop over the names. */
  method DeduplicateAll(names: seq<string>, unique: map<string, Listener>) returns (merged: seq<Listener>)
    requires forall k :: k in names ==> k in unique
    ensures |merged| == |names| && forall j :: 0 <= j < |names| ==> merged[j] == Deduplicated(unique[names[j]])
  {
    merged := [];
    for i := 0 to |names|
      invariant |merged| == i && forall j :: 0 <= j < i ==> merged[j] == Deduplicated(unique[names[j]])
    {
      var l := Deduplicate(unique[names[i]]);
      merged := merged + [l];
    }
  }

  lemma {:induction false} AllMerged(os: seq<Listener>, names: seq<string>, unique: map<string, Listener>,
                                     merged: seq<Listener>)
    requires Holds(os, names, unique) && |merged| == |names|
    requires forall j :: 0 <= j < |names| ==> merged[j] == Deduplicated(unique[names[j]])
    ensures merged == Map(FirstKeys(os, NameOf), k => Merged(os, k))
  {
    forall j | 0 <= j < |names|
      ensures merged[j] == Merged(os, names[j])
    {
      assert names[j] in unique;
    }
  }

  method Deduplicate(l: Listener) returns (r: Listener)
    ensures r == Deduplicated(l)
  {
    r := l;
    if l.certificates.Some? && |l.certificates.value| > 0 {
      var certificates := UniqueRefs(l.certificates.value);
      r := l.(certificates := Some(certificates));
    }
  }

  method UniqueRefs(refs: seq<string>) returns (certificates: seq<string>)
    ensures certificates == FirstKeys(refs, Self)
  {
    certificates := [];
    var seen: set<string> := {};
    for i := 0 to |refs|
      invariant certificates == FirstKeys(refs[..i], Self) && forall c :: c in seen <==> c in certificates
    {
      assert refs[..i + 1][..i] == refs[..i];
      if refs[i] !in seen {
        certificates := certificates + [refs[i]];
        seen := seen + {refs[i]};
      }
    }
    assert refs[..|refs|] == refs;
  }

  // ---- What the gateway listens to ---------------------------------------------------------------------

  /** A listener is the first offer of its name, with the certificates of all. */
  lemma {:induction false} ListenerIs(ls: seq<GroupListener>, k: string)
    requires k in FirstKeys(Offers(ls), NameOf)
    ensures var m, group := Merged(Offers(ls), k), OfKey(Offers(ls), NameOf, k);
            && group != [] && m.name == k == group[0].name && m.hostname == group[0].hostname
            && m.port == group[0].port && m.protocol == group[0].protocol
            && (m.certificates.Some? <==> group[0].certificates.Some?)
            && group[0] in Offers(ls)
  {
    var group := OfKey(Offers(ls), NameOf, k);
    OfKeyIs(Offers(ls), NameOf, k);
    assert group[0] in group;
  }

  /** No two listeners of a gateway share a name. */
  lemma {:induction false} ListenerNamesAreDistinct(ls: seq<GroupListener>)
    ensures NoDuplicates(Map(MergedListeners(ls), NameOf))
  {
    var keys := FirstKeys(Offers(ls), NameOf);
    var ms := MergedListeners(ls);
    FirstKeysAreDistinct(Offers(ls), NameOf);
    forall i | 0 <= i < |ms|
      ensures ms[i].name == keys[i]
    {
      ListenerIs(ls, keys[i]);
    }
  }

  /** Which group a listener comes from, and that its name follows from its hostname and protocol. */
  lemma {:induction false} ListenerComesFrom(ls: seq<GroupListener>, m: Listener) returns (l: GroupListener)
    requires m in MergedListeners(ls)
    ensures l in ls && m.hostname == l.hostname
    ensures m.protocol == "HTTP" ==> m.name == Prefix(l.hostname) + "http"
    ensures m.protocol != "HTTP" ==>
      m.protocol == "HTTPS" && m.name == Prefix(l.hostname) + "https" && l.certificates.Some?
    ensures m.certificates.Some? <==> m.protocol == "HTTPS"
    ensures m.name in FirstKeys(Offers(ls), NameOf) && m == Merged(Offers(ls), m.name)
  {
    var keys := FirstKeys(Offers(ls), NameOf);
    var i :| 0 <= i < |MergedListeners(ls)| && MergedListeners(ls)[i] == m;
    ListenerIs(ls, keys[i]);
    var o := OfKey(Offers(ls), NameOf, keys[i])[0];
    OffersAre(ls, o);
    l :| l in ls && (o == HttpOffer(l) || (l.certificates.Some? && o == HttpsOffer(l)));
  }

  /** Plain HTTP on port 80 or, with certificates, HTTPS on port 443, under the name of its hostname;
      without a hostname the name is the protocol alone. */
  predicate ListensInFull(m: Listener) {
    var host := if m.hostname.Some? then m.hostname.value else "";
    || (m.protocol == "HTTP" && m.port == 80 && m.certificates.None?
        && m.name == if host == "" then "http" else NameFromHost(host) + "-http")
    || (m.protocol == "HTTPS" && m.port == 443 && m.certificates.Some?
        && m.name == if host == "" then "https" else NameFromHost(host) + "-https")
  }

  lemma {:induction false} OffersInFull(l: GroupListener)
    ensures ListensInFull(HttpOffer(l)) && (l.certificates.Some? ==> ListensInFull(HttpsOffer(l)))
  {
    PrefixedName(l.hostname, "http");
    PrefixedName(l.hostname, "https");
    assert "-" + "http" == "-http" && "-" + "https" == "-https";
  }

  lemma {:induction false} PrefixedName(hostname: Option<string>, protocol: string)
    ensures Prefix(hostname) + protocol ==
      if hostname.None? || hostname.value == "" then protocol else NameFromHost(hostname.value) + ("-" + protocol)
  {
    assert "" + protocol == protocol;
  }

  /** That is what a gateway listens to, for the hostname of one of its groups. */
  lemma {:induction false} ListenerInFull(ls: seq<GroupListener>, m: Listener)
    requires m in MergedListeners(ls)
    ensures ListensInFull(m) && exists l :: l in ls && l.hostname == m.hostname
  {
    var keys := FirstKeys(Offers(ls), NameOf);
    var i :| 0 <= i < |MergedListeners(ls)| && MergedListeners(ls)[i] == m;
    ListenerIs(ls, keys[i]);
    var o := OfKey(Offers(ls), NameOf, keys[i])[0];
    OffersAre(ls, o);
    var l :| l in ls && (o == HttpOffer(l) || (l.certificates.Some? && o == HttpsOffer(l)));
    OffersInFull(l);
  }

  lemma {:induction false} OfferHasListener(ls: seq<GroupListener>, o: Listener) returns (m: Listener)
    requires o in Offers(ls)
    ensures m in MergedListeners(ls) && m.name == o.name && m == Merged(Offers(ls), o.name)
  {
    var keys := FirstKeys(Offers(ls), NameOf);
    FirstKeysAreDistinct(Offers(ls), NameOf);
    assert NameOf(o) in keys;
    var i :| 0 <= i < |keys| && keys[i] == o.name;
    m := MergedListeners(ls)[i];
    ListenerIs(ls, keys[i]);
  }

  lemma {:induction false} HttpIsNotHttps(a: string, b: string)
    ensures a + "http" != b + "https"
    ensures a + "http" == b + "http" ==> a == b
    ensures a + "https" == b + "https" ==> a == b
  {
    var x, y, z, w := a + "http", b + "https", b + "http", a + "https";
    assert x[|x| - 1] == "http"[3] && y[|y| - 1] == "https"[4];
    assert x[..|x| - 4] == a && z[..|z| - 4] == b && y[..|y| - 5] == b && w[..|w| - 5] == a;
  }

  /** One hostname and protocol, one listener. */
  lemma {:induction false} OneListenerPerHostname(ls: seq<GroupListener>, m: Listener, n: Listener)
    requires m in MergedListeners(ls) && n in MergedListeners(ls) && m.hostname == n.hostname
    requires m.protocol == n.protocol
    ensures m == n
  {
    var l := ListenerComesFrom(ls, m);
    var l' := ListenerComesFrom(ls, n);
  }

  /** The groups' hostnames are told apart by the names made from them. */
  ghost predicate NamesTellApart(ls: seq<GroupListener>) {
    forall a, b :: a in ls && b in ls && Prefix(a.hostname) == Prefix(b.hostname) ==> a.hostname == b.hostname
  }

  ghost predicate Listens(ls: seq<GroupListener>, hostname: Option<string>, protocol: string) {
    exists m :: m in MergedListeners(ls) && m.hostname == hostname && m.protocol == protocol
  }

  /** Every hostname has its HTTP listener if and only if the names tell the hostnames apart. */
  lemma {:induction false} HttpListenersAreCompleteIff(ls: seq<GroupListener>)
    ensures (forall l :: l in ls ==> Listens(ls, l.hostname, "HTTP")) <==> NamesTellApart(ls)
  {
    if NamesTellApart(ls) {
      forall l | l in ls
        ensures Listens(ls, l.hostname, "HTTP")
      {
        OffersAre(ls, HttpOffer(l));
        var m := OfferHasListener(ls, HttpOffer(l));
        var from := ListenerComesFrom(ls, m);
        HttpIsNotHttps(Prefix(l.hostname), Prefix(from.hostname));
      }
    }
    if forall l :: l in ls ==> Listens(ls, l.hostname, "HTTP") {
      forall a, b | a in ls && b in ls && Prefix(a.hostname) == Prefix(b.hostname)
        ensures a.hostname == b.hostname
      {
        var m :| m in MergedListeners(ls) && m.hostname == a.hostname && m.protocol == "HTTP";
        var n :| n in MergedListeners(ls) && n.hostname == b.hostname && n.protocol == "HTTP";
        var l := ListenerComesFrom(ls, m);
        var l' := ListenerComesFrom(ls, n);
      }
    }
  }

  /** A hostname has an HTTPS listener exactly when some group for it has TLS. */
  lemma {:induction false} HttpsListensIffTLS(ls: seq<GroupListener>, hostname: Option<string>)
    requires NamesTellApart(ls)
    ensures Listens(ls, hostname, "HTTPS") <==> exists l :: l in ls && l.hostname == hostname && l.certificates.Some?
  {
    if Listens(ls, hostname, "HTTPS") {
      var m :| m in MergedListeners(ls) && m.hostname == hostname && m.protocol == "HTTPS";
      var l := ListenerComesFrom(ls, m);
    }
    forall l | l in ls && l.hostname == hostname && l.certificates.Some?
      ensures Listens(ls, hostname, "HTTPS")
    {
      OffersAre(ls, HttpsOffer(l));
      var m := OfferHasListener(ls, HttpsOffer(l));
      var from := ListenerComesFrom(ls, m);
      HttpIsNotHttps(Prefix(from.hostname), Prefix(l.hostname));
      HttpIsNotHttps(Prefix(l.hostname), Prefix(from.hostname));
    }
  }

  lemma {:induction false} CertificatesByName(os: seq<Listener>, k: string, c: string)
    requires OfKey(os, NameOf, k) != [] && Merged(os, k).certificates.Some?
    ensures NoDuplicates(Merged(os, k).certificates.value)
    ensures c in Merged(os, k).certificates.value <==> exists o :: o in os && o.name == k && c in CertificatesOf(o)
  {
    var group := OfKey(os, NameOf, k);
    OfKeyIs(os, NameOf, k);
    FirstKeysAreDistinct(AllCertificates(group), Self);
    FlatMapHas(group, CertificatesOf, c);
    assert Merged(os, k).certificates.value == FirstKeys(AllCertificates(group), Self);
  }

  lemma {:induction false} HttpsOffersOf(ls: seq<GroupListener>, from: GroupListener, c: string)
    requires NamesTellApart(ls) && from in ls
    ensures (exists o :: o in Offers(ls) && o.name == Prefix(from.hostname) + "https" && c in CertificatesOf(o)) <==>
            exists l :: l in ls && l.hostname == from.hostname && l.certificates.Some? && c in l.certificates.value
  {
    forall o | o in Offers(ls) && o.name == Prefix(from.hostname) + "https" && c in CertificatesOf(o)
      ensures exists l :: l in ls && l.hostname == from.hostname && l.certificates.Some? && c in l.certificates.value
    {
      OffersAre(ls, o);
      var l :| l in ls && (o == HttpOffer(l) || (l.certificates.Some? && o == HttpsOffer(l)));
      HttpIsNotHttps(Prefix(from.hostname), Prefix(l.hostname));
    }
    forall l | l in ls && l.hostname == from.hostname && l.certificates.Some? && c in l.certificates.value
      ensures exists o :: o in Offers(ls) && o.name == Prefix(from.hostname) + "https" && c in CertificatesOf(o)
    {
      OffersAre(ls, HttpsOffer(l));
    }
  }

  /** Its certificates are those of all the hostname's groups, each once. */
  lemma {:induction false} CertificatesAreTheUnion(ls: seq<GroupListener>, m: Listener, c: string)
    requires NamesTellApart(ls) && m in MergedListeners(ls) && m.protocol == "HTTPS"
    ensures m.certificates.Some? && NoDuplicates(m.certificates.value)
    ensures c in m.certificates.value <==>
            exists l :: l in ls && l.hostname == m.hostname && l.certificates.Some? && c in l.certificates.value
  {
    var from := ListenerComesFrom(ls, m);
    OfKeyIs(Offers(ls), NameOf, m.name);
    CertificatesByName(Offers(ls), m.name, c);
    HttpsOffersOf(ls, from, c);
  }
}
