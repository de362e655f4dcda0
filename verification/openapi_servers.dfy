/**
 Server templates of the OpenAPI 3.x provider (pkg/i2gw/providers/openapi3/converter.go): each variable
 with an enumeration is expanded into one server per value, a round at a time, in whatever order Go's
 maps offer the variables.
 */
module OpenAPIServers {
  import opened Grouping
  import opened Strings

  datatype Variable = Variable(enum: seq<string>, default': string)

  datatype Server = Server(url: string, variables: map<string, Variable>)

  // ---- Text -------------------------------------------------------------------------------------------

  /** strings.ReplaceAll of a non-empty `pattern`. */
  function ReplaceAll(s: string, pattern: string, value: string): string
    requires pattern != ""
    decreases |s|
  {
    if |s| < |pattern| then s
    else if s[..|pattern|] == pattern then value + ReplaceAll(s[|pattern|..], pattern, value)
    else [s[0]] + ReplaceAll(s[1..], pattern, value)
  }

  function Placeholder(name: string): string {
    "{" + name + "}"
  }

  /** The meaning of a template: every placeholder with a value is replaced at once. */
  function Subst(s: string, env: map<string, string>): string
    decreases |s|
  {
    if s == "" then ""
    else if s[0] != '{' then [s[0]] + Subst(s[1..], env)
    else
      var k := Find(s[1..], '}');
      if k == |s| - 1 then s
      else
        var name := s[1..][..k];
        (if name in env then env[name] else Placeholder(name)) + Subst(s[k + 2..], env)
  }

  /** No brace opens within another. */
  predicate Flat(s: string)
    decreases |s|
  {
    if s == "" then true
    else if s[0] != '{' then Flat(s[1..])
    else
      var k := Find(s[1..], '}');
      '{' !in s[1..][..k] && (k < |s| - 1 ==> Flat(s[k + 2..]))
  }

  predicate BraceFree(s: string) {
    '{' !in s && '}' !in s
  }

  lemma {:induction false} AfterChar(c: char, s: string, env: map<string, string>)
    requires c != '{'
    ensures Subst([c] + s, env) == [c] + Subst(s, env)
    ensures Flat([c] + s) <==> Flat(s)
  {
    assert ([c] + s)[1..] == s;
  }

  lemma {:induction false} AfterText(v: string, s: string, env: map<string, string>)
    requires '{' !in v
    ensures Subst(v + s, env) == v + Subst(s, env)
    ensures Flat(v + s) <==> Flat(s)
    decreases |v|
  {
    if v == "" {
      assert v + s == s;
    } else {
      AfterText(v[1..], s, env);
      AfterChar(v[0], v[1..] + s, env);
      Cons(v, s);
      Cons(v, Subst(s, env));
    }
  }

  lemma {:induction false} Cons(v: string, s: string)
    requires v != ""
    ensures v + s == [v[0]] + (v[1..] + s)
  {
  }

  lemma {:induction false} AfterPlaceholder(name: string, s: string, env: map<string, string>)
    requires BraceFree(name)
    ensures Subst(Placeholder(name) + s, env) == (if name in env then env[name] else Placeholder(name)) + Subst(s, env)
    ensures Flat(Placeholder(name) + s) <==> Flat(s)
  {
    var t := Placeholder(name) + s;
    FindAt(name, '}', s);
    assert t[1..] == name + "}" + s;
    assert t[1..][..|name|] == name && t[|name| + 2..] == s;
  }

  /** On a flat template, replacing the text of one placeholder is substituting for its name. */
  lemma {:induction false} ReplaceIsSubst(s: string, n: string, v: string)
    requires Flat(s) && '}' !in n
    ensures ReplaceAll(s, Placeholder(n), v) == Subst(s, map[n := v])
    decreases |s|
  {
    var p := Placeholder(n);
    if s == "" {
    } else if s[0] != '{' {
      ReplaceIsSubst(s[1..], n, v);
      if |s| < |p| {
        ReplaceNothing(s[1..], p, v);
        assert [s[0]] + s[1..] == s;
      }
    } else {
      var k := Find(s[1..], '}');
      if k == |s| - 1 {
        assert '}' !in s[1..][..k] && s[1..][..k] == s[1..];
        assert '}' !in s;
        ReplaceAbsent(s, p, v);
      } else {
        var name := s[1..][..k];
        assert s == Placeholder(name) + s[k + 2..];
        ReplaceIsSubst(s[k + 2..], n, v);
        if name == n {
          assert s[..|p|] == p && s[|p|..] == s[k + 2..];
        } else {
          OtherPlaceholderStays(name, s[k + 2..], n, v);
        }
      }
    }
  }

  lemma {:induction false} ReplaceNothing(s: string, p: string, v: string)
    requires |s| < |p|
    ensures ReplaceAll(s, p, v) == s
  {}

  /** Text without '}' holds no placeholder. */
  lemma {:induction false} ReplaceAbsent(s: string, p: string, v: string)
    requires '}' !in s && p != "" && p[|p| - 1] == '}'
    ensures ReplaceAll(s, p, v) == s
  {
    if |s| >= |p| {
      assert s[|p| - 1] in s;
      assert s[..|p|] != p by {
        assert s[..|p|][|p| - 1] != p[|p| - 1];
      }
      ReplaceAbsent(s[1..], p, v);
    }
  }

  /** Text that opens no brace passes through. */
  lemma {:induction false} ReplaceAfterText(t: string, s: string, p: string, v: string)
    requires '{' !in t && p != "" && p[0] == '{'
    ensures ReplaceAll(t + s, p, v) == t + ReplaceAll(s, p, v)
  {
    if t == "" {
      assert t + s == s;
    } else {
      ReplaceAfterText(t[1..], s, p, v);
      assert (t + s)[1..] == t[1..] + s;
      if |t + s| < |p| {
        ReplaceNothing(s, p, v);
      } else {
        assert (t + s)[..|p|][0] != p[0];
        assert t + ReplaceAll(s, p, v) == [t[0]] + (t[1..] + ReplaceAll(s, p, v));
      }
    }
  }

  lemma {:induction false} SamePlaceholder(m: string, s: string, n: string, t: string)
    requires '}' !in m && '}' !in n && Placeholder(m) + s == Placeholder(n) + t
    ensures m == n
  {
    var text := (Placeholder(m) + s)[1..];
    assert text == m + "}" + s && text == n + "}" + t;
    FindAt(m, '}', s);
    FindAt(n, '}', t);
    assert text[..|m|] == m && text[..|n|] == n;
  }

  lemma {:induction false} OtherPlaceholderStays(name: string, s: string, n: string, v: string)
    requires BraceFree(name) && '}' !in n && name != n
    ensures ReplaceAll(Placeholder(name) + s, Placeholder(n), v) == Placeholder(name) + ReplaceAll(s, Placeholder(n), v)
  {
    var p, t := Placeholder(n), Placeholder(name) + s;
    var tail := name + "}";
    assert t[0] == '{' && t[1..] == tail + s;
    ReplaceAfterText(tail, s, p, v);
    if |t| < |p| {
      ReplaceNothing(t, p, v);
      ReplaceNothing(s, p, v);
    } else {
      if t[..|p|] == p {
        assert t == p + t[|p|..];
        SamePlaceholder(name, s, n, t[|p|..]);
      }
      assert ReplaceAll(t, p, v) == ['{'] + (tail + ReplaceAll(s, p, v));
    }
  }

  /** Substituting in two steps is substituting at once: values without braces make no placeholder. */
  lemma {:induction false} SubstTwice(s: string, first: map<string, string>, second: map<string, string>)
    requires Flat(s) && forall n :: n in first ==> BraceFree(first[n])
    ensures Subst(Subst(s, first), second) == Subst(s, second + first)
    ensures Flat(Subst(s, first))
    decreases |s|
  {
    if s == "" {
    } else if s[0] != '{' {
      SubstTwice(s[1..], first, second);
      AfterChar(s[0], Subst(s[1..], first), second);
    } else {
      var k := Find(s[1..], '}');
      if k == |s| - 1 {
      } else {
        var name := s[1..][..k];
        var rest := s[k + 2..];
        SubstTwice(rest, first, second);
        if name in first {
          AfterText(first[name], Subst(rest, first), second);
        } else {
          AfterPlaceholder(name, Subst(rest, first), second);
        }
      }
    }
  }

  /** What the expansion takes for granted about a server. */
  predicate WellFormed(server: Server) {
    Flat(server.url) && forall n :: n in server.variables ==>
      var v := server.variables[n];
      '}' !in n && (v.enum == [] ==> BraceFree(v.default')) && forall e :: e in v.enum ==> BraceFree(e)
  }

  // ---- Assignments ------------------------------------------------------------------------------------

  /** A choice of an enumeration index for some of the variables. */
  type Choice = map<string, nat>

  type Variables = map<string, Variable>

  predicate Fits(c: Choice, vs: Variables) {
    c.Keys <= vs.Keys && forall n :: n in c ==> c[n] < |vs[n].enum|
  }

  predicate Total(c: Choice, vs: Variables) {
    c.Keys == vs.Keys && Fits(c, vs)
  }

  predicate Extends(c: Choice, part: Choice) {
    forall n :: n in part ==> n in c && c[n] == part[n]
  }

  predicate Conflict(c: Choice, d: Choice) {
    exists n :: n in c && n in d && c[n] != d[n]
  }

  /** Every total choice extends exactly one of the list. */
  ghost predicate Cover(cs: seq<Choice>, vs: Variables) {
    && (forall i :: 0 <= i < |cs| ==> Fits(cs[i], vs))
    && (forall i, j :: 0 <= i < j < |cs| ==> Conflict(cs[i], cs[j]))
    && (forall f :: Total(f, vs) ==> exists i :: 0 <= i < |cs| && Extends(f, cs[i]))
  }

  /** The list that has each total choice exactly once. */
  ghost predicate AllChoices(cs: seq<Choice>, vs: Variables) {
    NoDuplicates(cs) && forall f :: f in cs <==> Total(f, vs)
  }

  function Branches(c: Choice, n: string, size: nat): (cs: seq<Choice>)
    ensures |cs| == size && forall i :: 0 <= i < size ==> cs[i] == c[n := i]
    decreases size
  {
    if size == 0 then [] else Branches(c, n, size - 1) + [c[n := size - 1]]
  }

  /** The list in which entry `k` is replaced by its branches on variable `n`. */
  function Branched(cs: seq<Choice>, k: nat, n: string, size: nat): seq<Choice>
    requires k < |cs|
  {
    cs[..k] + Branches(cs[k], n, size) + cs[k + 1..]
  }

  /** The entry from which entry `i` of the branched list comes. */
  function Origin(i: nat, k: nat, size: nat): nat {
    if i < k then i else if i < k + size then k else i - size + 1
  }

  lemma {:induction false} BranchedAt(cs: seq<Choice>, k: nat, n: string, size: nat, i: nat)
    requires k < |cs| && n !in cs[k] && i < |Branched(cs, k, n, size)|
    ensures |Branched(cs, k, n, size)| == |cs| - 1 + size && Origin(i, k, size) < |cs|
    ensures Branched(cs, k, n, size)[i] == if k <= i < k + size then cs[k][n := i - k] else cs[Origin(i, k, size)]
    ensures Extends(Branched(cs, k, n, size)[i], cs[Origin(i, k, size)])
  {
  }

  lemma {:induction false} BranchesConflict(cs: seq<Choice>, k: nat, n: string, size: nat, i: nat, j: nat)
    requires k < |cs| && n !in cs[k] && i < j < |Branched(cs, k, n, size)|
    requires forall i, j :: 0 <= i < j < |cs| ==> Conflict(cs[i], cs[j])
    ensures Conflict(Branched(cs, k, n, size)[i], Branched(cs, k, n, size)[j])
  {
    BranchedAt(cs, k, n, size, i);
    BranchedAt(cs, k, n, size, j);
    var c, d := Branched(cs, k, n, size)[i], Branched(cs, k, n, size)[j];
    var oi, oj := Origin(i, k, size), Origin(j, k, size);
    if oi == oj {
      assert c[n] != d[n];
    } else {
      assert Conflict(cs[oi], cs[oj]);
      var x :| x in cs[oi] && x in cs[oj] && cs[oi][x] != cs[oj][x];
      assert c[x] == cs[oi][x] && d[x] == cs[oj][x];
    }
  }

  lemma {:induction false} BranchesExtend(cs: seq<Choice>, k: nat, n: string, vs: Variables, f: Choice, at: nat)
      returns (i: nat)
    requires k < |cs| && n in vs && n !in cs[k] && Total(f, vs) && at < |cs| && Extends(f, cs[at])
    ensures i < |Branched(cs, k, n, |vs[n].enum|)| && Extends(f, Branched(cs, k, n, |vs[n].enum|)[i])
  {
    var size := |vs[n].enum|;
    i := if at < k then at else if at == k then k + f[n] else at + size - 1;
    BranchedAt(cs, k, n, size, i);
  }

  /** Deciding one more variable in one place keeps a cover. */
  lemma {:induction false} BranchingKeepsCover(cs: seq<Choice>, k: nat, n: string, vs: Variables)
    requires Cover(cs, vs) && k < |cs| && n in vs && n !in cs[k]
    ensures Cover(Branched(cs, k, n, |vs[n].enum|), vs)
  {
    var size := |vs[n].enum|;
    var ds := Branched(cs, k, n, size);
    forall i | 0 <= i < |ds|
      ensures Fits(ds[i], vs)
    {
      BranchedAt(cs, k, n, size, i);
    }
    forall i, j | 0 <= i < j < |ds|
      ensures Conflict(ds[i], ds[j])
    {
      BranchesConflict(cs, k, n, size, i, j);
    }
    forall f | Total(f, vs)
      ensures exists i :: 0 <= i < |ds| && Extends(f, ds[i])
    {
      var at :| 0 <= at < |cs| && Extends(f, cs[at]);
      var i := BranchesExtend(cs, k, n, vs, f, at);
    }
  }

  /** A cover of total choices lists them all, once each. */
  lemma {:induction false} TotalCoverIsAll(cs: seq<Choice>, vs: Variables)
    requires Cover(cs, vs) && forall c :: c in cs ==> Total(c, vs)
    ensures AllChoices(cs, vs)
  {
    forall f | Total(f, vs)
      ensures f in cs
    {
      var i :| 0 <= i < |cs| && Extends(f, cs[i]);
      assert cs[i] in cs && f == cs[i];
    }
    forall i, j | 0 <= i < j < |cs|
      ensures cs[i] != cs[j]
    {
      assert Conflict(cs[i], cs[j]);
    }
  }

  // ---- How many there are -----------------------------------------------------------------------------

  function Product(names: seq<string>, vs: Variables): nat
    requires forall n :: n in names ==> n in vs
  {
    if names == [] then 1 else Product(names[..|names| - 1], vs) * |vs[names[|names| - 1]].enum|
  }

  function BranchEach(cs: seq<Choice>, n: string, size: nat): (r: seq<Choice>)
    ensures |r| == |cs| * size
  {
    if cs == [] then []
    else BranchEach(cs[..|cs| - 1], n, size) + Branches(cs[|cs| - 1], n, size)
  }

  lemma {:induction false} BranchEachHas(cs: seq<Choice>, n: string, size: nat, f: Choice)
    requires forall c :: c in cs ==> n !in c
    ensures f in BranchEach(cs, n, size) <==> n in f && f[n] < size && f - {n} in cs
  {
    if cs != [] {
      var last := |cs| - 1;
      var c := cs[last];
      BranchEachHas(cs[..last], n, size, f);
      assert cs == cs[..last] + [c];
      if n in f && f[n] < size && f - {n} == c {
        assert f == c[n := f[n]] && f == Branches(c, n, size)[f[n]];
      }
      if f in Branches(c, n, size) {
        var i :| 0 <= i < size && f == c[n := i];
        assert f - {n} == c;
      }
    }
  }

  lemma {:induction false} BranchEachDistinct(cs: seq<Choice>, n: string, size: nat)
    requires NoDuplicates(cs) && forall c :: c in cs ==> n !in c
    ensures NoDuplicates(BranchEach(cs, n, size))
  {
    if cs != [] {
      var last := |cs| - 1;
      var a, b := BranchEach(cs[..last], n, size), Branches(cs[last], n, size);
      BranchEachDistinct(cs[..last], n, size);
      forall i, j | 0 <= i < j < |a + b|
        ensures (a + b)[i] != (a + b)[j]
      {
        if |a| <= i {
          assert b[i - |a|][n] != b[j - |a|][n];
        } else if |a| <= j {
          var f := b[j - |a|];
          BranchEachHas(cs[..last], n, size, f);
          assert f - {n} == cs[last];
        }
      }
    }
  }

  lemma {:induction false} Enumerate(names: seq<string>, vs: Variables) returns (cs: seq<Choice>)
    requires NoDuplicates(names) && forall n :: n in names <==> n in vs
    ensures AllChoices(cs, vs) && |cs| == Product(names, vs)
  {
    if names == [] {
      cs := [map[]];
      assert forall f :: Total(f, vs) <==> f == map[];
    } else {
      var last := |names| - 1;
      var n := names[last];
      var fewer := vs - {n};
      assert names == names[..last] + [n];
      var ds := Enumerate(names[..last], fewer);
      ProductOfFewer(names[..last], vs, n);
      cs := BranchEach(ds, n, |vs[n].enum|);
      assert forall d :: d in ds ==> Total(d, fewer);
      BranchEachDistinct(ds, n, |vs[n].enum|);
      forall f
        ensures f in cs <==> Total(f, vs)
      {
        BranchEachHas(ds, n, |vs[n].enum|, f);
        if n in f {
          RestIsTotal(f, vs, n);
        }
      }
    }
  }

  lemma {:induction false} RestIsTotal(f: Choice, vs: Variables, n: string)
    requires n in vs && n in f
    ensures Total(f, vs) <==> f[n] < |vs[n].enum| && Total(f - {n}, vs - {n})
  {
    var g, fewer := f - {n}, vs - {n};
    assert g.Keys == f.Keys - {n} && fewer.Keys == vs.Keys - {n};
    if Total(g, fewer) {
      assert f.Keys == g.Keys + {n} && vs.Keys == fewer.Keys + {n};
      assert forall m :: m in g ==> g[m] == f[m];
    }
  }

  lemma {:induction false} ProductOfFewer(names: seq<string>, vs: Variables, n: string)
    requires n !in names && forall m :: m in names ==> m in vs
    ensures Product(names, vs - {n}) == Product(names, vs)
  {
    if names != [] {
      ProductOfFewer(names[..|names| - 1], vs, n);
    }
  }

  /** There are as many results as the product of the sizes, in whatever order it is taken. */
  lemma {:induction false} ChoicesAreProduct(cs: seq<Choice>, vs: Variables, names: seq<string>)
    requires AllChoices(cs, vs) && NoDuplicates(names) && forall n :: n in names <==> n in vs
    ensures |cs| == Product(names, vs)
  {
    var ds := Enumerate(names, vs);
    SameElementsSameLength(cs, ds);
  }

  // ---- Expansion --------------------------------------------------------------------------------------

  function Enumerated(variables: Variables): Variables {
    map n | n in variables && |variables[n].enum| > 0 :: variables[n]
  }

  /** The values of the variables that are settled once `c` is chosen. */
  function Env(variables: Variables, c: Choice): map<string, string> {
    map n | n in variables && (|variables[n].enum| == 0 || (n in c && c[n] < |variables[n].enum|)) ::
      if |variables[n].enum| == 0 then variables[n].default' else variables[n].enum[c[n]]
  }

  lemma {:induction false} ReplaceSettles(url: string, env: map<string, string>, n: string, v: string)
    requires Flat(url) && (forall m :: m in env ==> BraceFree(env[m])) && n !in env && '}' !in n
    ensures ReplaceAll(Subst(url, env), Placeholder(n), v) == Subst(url, env[n := v])
  {
    SubstTwice(url, env, map[n := v]);
    ReplaceIsSubst(Subst(url, env), n, v);
    assert map[n := v] + env == env[n := v];
  }

  lemma {:induction false} SubstNothing(s: string)
    ensures Subst(s, map[]) == s
    decreases |s|
  {
    if s == "" {
    } else if s[0] != '{' {
      SubstNothing(s[1..]);
    } else {
      var k := Find(s[1..], '}');
      if k < |s| - 1 {
        SubstNothing(s[k + 2..]);
        assert s == Placeholder(s[1..][..k]) + s[k + 2..];
      }
    }
  }

  /** The defaults replaced one after the other, in the order in which a map offers the variables. */
  function DefaultsInOrder(url: string, variables: Variables, order: seq<string>): string
    requires forall n :: n in order ==> n in variables
    decreases |order|
  {
    if order == [] then url
    else
      var n := |order| - 1;
      var before := DefaultsInOrder(url, variables, order[..n]);
      if |variables[order[n]].enum| > 0 then before
      else ReplaceAll(before, Placeholder(order[n]), variables[order[n]].default')
  }

  /** An order in which a map may offer its keys. */
  ghost predicate IsOrderOf(order: seq<string>, variables: Variables) {
    NoDuplicates(order) && forall n :: n in order <==> n in variables
  }

  /** The defaults of these variables. */
  function Defaults(variables: Variables, names: seq<string>): map<string, string> {
    map n | n in variables && n in names && |variables[n].enum| == 0 :: variables[n].default'
  }

  /** On a flat template the order does not matter. */
  lemma {:induction false} DefaultsSettle(server: Server, order: seq<string>)
    requires WellFormed(server) && NoDuplicates(order) && forall n :: n in order ==> n in server.variables
    ensures DefaultsInOrder(server.url, server.variables, order) == Subst(server.url, Defaults(server.variables, order))
    decreases |order|
  {
    var vs := server.variables;
    if order == [] {
      SubstNothing(server.url);
      assert Defaults(vs, order) == map[];
    } else {
      var last := |order| - 1;
      var n := order[last];
      assert order == order[..last] + [n];
      DefaultsSettle(server, order[..last]);
      var env := Defaults(vs, order[..last]);
      if |vs[n].enum| == 0 {
        ReplaceSettles(server.url, env, n, vs[n].default');
        assert env[n := vs[n].default'] == Defaults(vs, order);
      } else {
        assert env == Defaults(vs, order);
      }
    }
  }

  method ExpandNonEnumServerVariables(server: Server) returns (r: Server, ghost order: seq<string>)
    ensures r.variables == Enumerated(server.variables)
    ensures IsOrderOf(order, server.variables) && r.url == DefaultsInOrder(server.url, server.variables, order)
    ensures WellFormed(server) ==> r.url == Subst(server.url, Env(server.variables, map[]))
  {
    if server.variables == map[] {
      order := [];
      r := server;
    } else {
      r, order := ReplaceDefaults(server);
    }
    if WellFormed(server) {
      DefaultsSettle(server, order);
      assert Defaults(server.variables, order) == Env(server.variables, map[]);
    }
  }

  /** Its loop. */
  method ReplaceDefaults(server: Server) returns (r: Server, ghost order: seq<string>)
    ensures r.variables == Enumerated(server.variables)
    ensures IsOrderOf(order, server.variables) && r.url == DefaultsInOrder(server.url, server.variables, order)
  {
    var uri := server.url;
    var variables: Variables := map[];
    order := [];
    var todo := server.variables.Keys;
    while todo != {}
      invariant todo <= server.variables.Keys
      invariant NoDuplicates(order) && forall n :: n in order <==> n in server.variables && n !in todo
      invariant uri == DefaultsInOrder(server.url, server.variables, order)
      invariant variables == Enumerated(server.variables) - todo
      decreases todo
    {
      var name :| name in todo;
      var svar := server.variables[name];
      todo := todo - {name};
      assert (order + [name])[..|order|] == order;
      order := order + [name];
      if |svar.enum| > 0 {
        variables := variables[name := svar];
        continue;
      }
      uri := ReplaceAll(uri, Placeholder(name), svar.default');
    }
    r := Server(uri, variables);
  }

  /** Without flatness the result depends on the order: of one server, with nothing but defaults, the map
      may make two URLs. */
  lemma {:induction false} OrderMattersWhenNested()
    ensures var variables := map["n" := Variable([], "x"), "axb" := Variable([], "y")];
      && IsOrderOf(["n", "axb"], variables) && IsOrderOf(["axb", "n"], variables)
      && DefaultsInOrder("{a{n}b}", variables, ["n", "axb"]) == "y"
      && DefaultsInOrder("{a{n}b}", variables, ["axb", "n"]) == "{axb}"
  {
    var variables := map["n" := Variable([], "x"), "axb" := Variable([], "y")];
    var url := "{a{n}b}";
    NestedInner();
    NestedOuter();
    TwoDefaults(url, variables, "n", "axb");
    TwoDefaults(url, variables, "axb", "n");
  }

  lemma {:induction false} ReplaceAtStart(p: string, rest: string, v: string)
    requires p != ""
    ensures ReplaceAll(p + rest, p, v) == v + ReplaceAll(rest, p, v)
  {
    assert (p + rest)[..|p|] == p && (p + rest)[|p|..] == rest;
  }

  lemma {:induction false} ReplaceSkips(c: char, rest: string, p: string, v: string)
    requires 0 < |p| <= |rest| + 1 && ([c] + rest)[..|p|] != p
    ensures ReplaceAll([c] + rest, p, v) == [c] + ReplaceAll(rest, p, v)
  {
    assert ([c] + rest)[1..] == rest;
  }

  /** The inner placeholder first makes the outer one. */
  lemma {:induction false} NestedInner()
    ensures ReplaceAll(ReplaceAll("{a{n}b}", Placeholder("n"), "x"), Placeholder("axb"), "y") == "y"
  {
    var q := Placeholder("axb");
    NestedInnerAlone();
    ReplaceAtStart(q, "", "y");
    assert q + "" == q == "{axb}";
  }

  /** The outer one is not there before. */
  lemma {:induction false} NestedOuter()
    ensures ReplaceAll(ReplaceAll("{a{n}b}", Placeholder("axb"), "y"), Placeholder("n"), "x") == "{axb}"
  {
    var q := Placeholder("axb");
    ReplaceNothing("n}b}", q, "y");
    assert (['{'] + "n}b}")[1] != q[1];
    ReplaceSkips('{', "n}b}", q, "y");
    assert ['{'] + "n}b}" == "{n}b}";
    ReplaceAfterText("a", "{n}b}", q, "y");
    assert "a" + "{n}b}" == "a{n}b}";
    assert (['{'] + "a{n}b}")[2] != q[2];
    ReplaceSkips('{', "a{n}b}", q, "y");
    assert ['{'] + "a{n}b}" == "{a{n}b}";
    NestedInnerAlone();
  }

  lemma {:induction false} NestedInnerAlone()
    ensures ReplaceAll("{a{n}b}", Placeholder("n"), "x") == "{axb}"
  {
    var p := Placeholder("n");
    ReplaceAtStart(p, "b}", "x");
    ReplaceNothing("b}", p, "x");
    assert p + "b}" == "{n}b}";
    ReplaceAfterText("a", "{n}b}", p, "x");
    assert "a" + "{n}b}" == "a{n}b}" && "a" + "xb}" == "axb}";
    assert (['{'] + "a{n}b}")[1] != p[1];
    ReplaceSkips('{', "a{n}b}", p, "x");
    assert ['{'] + "a{n}b}" == "{a{n}b}" && ['{'] + "axb}" == "{axb}";
  }

  lemma {:induction false} TwoDefaults(url: string, variables: Variables, m: string, n: string)
    requires m in variables && n in variables && variables[m].enum == [] && variables[n].enum == []
    ensures DefaultsInOrder(url, variables, [m, n]) ==
      ReplaceAll(ReplaceAll(url, Placeholder(m), variables[m].default'), Placeholder(n), variables[n].default')
  {
    assert [m, n][..1] == [m] && [m][..0] == [];
    assert DefaultsInOrder(url, variables, [m]) == ReplaceAll(url, Placeholder(m), variables[m].default');
  }

  /** `s` is `server` with the variables of `c` replaced. */
  ghost predicate Partial(server: Server, s: Server, c: Choice) {
    var vs := Enumerated(server.variables);
    && Fits(c, vs) && s.variables == vs - c.Keys
    && (WellFormed(server) ==> s.url == Subst(server.url, Env(server.variables, c)))
  }

  /** `s` with variable `n` replaced by its value number `i`. */
  function Replaced(s: Server, n: string, i: nat): Server
    requires n in s.variables && i < |s.variables[n].enum|
  {
    Server(ReplaceAll(s.url, Placeholder(n), s.variables[n].enum[i]), s.variables - {n})
  }

  lemma {:induction false} ValueSettles(origin: Server, s: Server, c: Choice, n: string, i: nat)
    requires Partial(origin, s, c) && n in s.variables && i < |s.variables[n].enum|
    ensures Partial(origin, Replaced(s, n, i), c[n := i])
  {
    var value := s.variables[n].enum[i];
    var vs := Enumerated(origin.variables);
    assert n !in c && s.variables[n] == origin.variables[n];
    assert s.variables - {n} == vs - c[n := i].Keys;
    if WellFormed(origin) {
      var env := Env(origin.variables, c);
      assert Env(origin.variables, c[n := i]) == env[n := value];
      forall m | m in env
        ensures BraceFree(env[m])
      {
        if |origin.variables[m].enum| > 0 {
          assert env[m] in origin.variables[m].enum;
        }
      }
      ReplaceSettles(origin.url, env, n, value);
    }
  }

  /** One round for one server: any variable is picked and replaced by each of its values. */
  method ExpandOne(server: Server) returns (servers: seq<Server>, name: string)
    requires server.variables != map[]
    ensures name in server.variables && |servers| == |server.variables[name].enum|
    ensures forall i :: 0 <= i < |servers| ==> servers[i] == Replaced(server, name, i)
  {
    var picked :| picked in server.variables.Keys;
    name := picked;
    var svar := server.variables[picked];
    var variables := map n | n in server.variables && n != picked :: server.variables[n];
    assert variables == server.variables - {picked};
    servers := [];
    for i := 0 to |svar.enum|
      invariant |servers| == i && forall j :: 0 <= j < i ==> servers[j] == Replaced(server, picked, j)
    {
      servers := servers + [Server(ReplaceAll(server.url, Placeholder(picked), svar.enum[i]), variables)];
    }
  }

  /** Server `k` is what choice `k` makes of the origin, with `left` variables to go. */
  ghost predicate Tracks(origin: Server, servers: seq<Server>, choices: seq<Choice>, left: nat) {
    && |servers| == |choices|
    && forall k :: 0 <= k < |servers| ==> Partial(origin, servers[k], choices[k]) && |servers[k].variables| == left
  }

  lemma {:induction false} BranchesTrack(origin: Server, s: Server, c: Choice, n: string, expanded: seq<Server>)
    requires Partial(origin, s, c) && n in s.variables && |expanded| == |s.variables[n].enum|
    requires forall i :: 0 <= i < |expanded| ==> expanded[i] == Replaced(s, n, i)
    ensures Tracks(origin, expanded, Branches(c, n, |expanded|), |s.variables| - 1)
  {
    assert (s.variables - {n}).Keys == s.variables.Keys - {n};
    forall i | 0 <= i < |expanded|
      ensures Partial(origin, expanded[i], Branches(c, n, |expanded|)[i])
    {
      ValueSettles(origin, s, c, n, i);
    }
  }

  lemma {:induction false} TracksAppend(origin: Server, a: seq<Server>, ca: seq<Choice>, b: seq<Server>,
                                        cb: seq<Choice>, left: nat)
    requires Tracks(origin, a, ca, left) && Tracks(origin, b, cb, left)
    ensures Tracks(origin, a + b, ca + cb, left)
  {
  }

  /** The turn of one server in a round: `servers` and `choices` are what the round has made so far,
      `rest` are the choices yet to come. */
  method Turn(ghost origin: Server, server: Server, ghost c: Choice, ghost left: nat,
              servers: seq<Server>, ghost choices: seq<Choice>, ghost rest: seq<Choice>)
    returns (newServers: seq<Server>, ghost newChoices: seq<Choice>)
    requires Partial(origin, server, c) && |server.variables| == left
    requires Tracks(origin, servers, choices, Fewer(left))
    requires Cover(choices + [c] + rest, Enumerated(origin.variables))
    ensures Tracks(origin, newServers, newChoices, Fewer(left))
    ensures Cover(newChoices + rest, Enumerated(origin.variables))
  {
    if |server.variables| == 0 {
      TracksAppend(origin, servers, choices, [server], [c], 0);
      return servers + [server], choices + [c];
    }
    var expanded, name := ExpandOne(server);
    BranchesTrack(origin, server, c, name, expanded);
    CoverStep(origin, choices, c, rest, server, name);
    TracksAppend(origin, servers, choices, expanded, Branches(c, name, |expanded|), left - 1);
    newServers, newChoices := servers + expanded, choices + Branches(c, name, |expanded|);
  }

  function Fewer(left: nat): nat {
    if left == 0 then 0 else left - 1
  }

  lemma {:induction false} CoverStep(origin: Server, done: seq<Choice>, c: Choice, rest: seq<Choice>, s: Server,
                                     n: string)
    requires Cover(done + [c] + rest, Enumerated(origin.variables))
    requires Partial(origin, s, c) && n in s.variables
    ensures Cover(done + Branches(c, n, |s.variables[n].enum|) + rest, Enumerated(origin.variables))
  {
    var vs := Enumerated(origin.variables);
    var all := done + [c] + rest;
    assert all[|done|] == c && all[..|done|] == done && all[|done| + 1..] == rest;
    BranchingKeepsCover(all, |done|, n, vs);
  }

  /** One round of the worklist. */
  method Round(ghost origin: Server, servers: seq<Server>, ghost choices: seq<Choice>, ghost left: nat)
    returns (newServers: seq<Server>, ghost newChoices: seq<Choice>)
    requires Tracks(origin, servers, choices, left) && Cover(choices, Enumerated(origin.variables))
    ensures Tracks(origin, newServers, newChoices, Fewer(left))
    ensures Cover(newChoices, Enumerated(origin.variables))
  {
    newServers, newChoices := [], [];
    assert newChoices + choices[0..] == choices;
    for i := 0 to |servers|
      invariant Tracks(origin, newServers, newChoices, Fewer(left))
      invariant Cover(newChoices + choices[i..], Enumerated(origin.variables))
    {
      assert newChoices + choices[i..] == newChoices + [choices[i]] + choices[i + 1..];
      newServers, newChoices := Turn(origin, servers[i], choices[i], left, newServers, newChoices, choices[i + 1..]);
    }
    assert newChoices + choices[|servers|..] == newChoices;
  }

  lemma {:induction false} NothingChosenCovers(vs: Variables)
    ensures Cover([map[]], vs)
  {
    var cs: seq<Choice> := [map[]];
    assert forall f :: Total(f, vs) ==> Extends(f, cs[0]);
  }

  lemma {:induction false} AllSettled(origin: Server, servers: seq<Server>, choices: seq<Choice>)
    requires Tracks(origin, servers, choices, 0) && Cover(choices, Enumerated(origin.variables))
    ensures AllChoices(choices, Enumerated(origin.variables))
  {
    var vs := Enumerated(origin.variables);
    forall c | c in choices
      ensures Total(c, vs)
    {
      var k :| 0 <= k < |choices| && choices[k] == c;
      assert (vs - c.Keys).Keys == vs.Keys - c.Keys;
    }
    TotalCoverIsAll(choices, vs);
  }

  /** What a run of the expansion promises: server `k` is for choice `k`, each total choice of values is
      there once, and URLs are the template with all its variables replaced at once. */
  ghost predicate IsExpansion(server: Server, servers: seq<Server>, choices: seq<Choice>) {
    && |servers| == |choices| && AllChoices(choices, Enumerated(server.variables))
    && (forall k :: 0 <= k < |servers| ==> servers[k].variables == map[])
    && (WellFormed(server) ==>
          forall k :: 0 <= k < |servers| ==> servers[k].url == Subst(server.url, Env(server.variables, choices[k])))
  }

  /** Whatever variables the rounds pick. */
  method ExpandServerVariables(server: Server) returns (servers: seq<Server>, ghost choices: seq<Choice>)
    ensures IsExpansion(server, servers, choices)
  {
    var first, _ := ExpandNonEnumServerVariables(server);
    servers, choices := [first], [map[]];
    ghost var left: nat := |first.variables|;
    NothingChosenCovers(Enumerated(server.variables));
    assert Enumerated(server.variables) - choices[0].Keys == Enumerated(server.variables);
    var more := true;
    while more
      invariant Tracks(server, servers, choices, left) && Cover(choices, Enumerated(server.variables))
      invariant !more ==> servers == [] || left == 0
      decreases left, more
    {
      servers, choices := Round(server, servers, choices, left);
      left := Fewer(left);
      more := exists k :: 0 <= k < |servers| && |servers[k].variables| > 0;
      assert servers != [] && left > 0 ==> |servers[0].variables| > 0;
    }
    assert Tracks(server, servers, choices, 0);
    AllSettled(server, servers, choices);
  }

  // ---- Confluence -------------------------------------------------------------------------------------

  function URLOf(s: Server): string {
    s.url
  }

  /** Two runs, with whatever picks, yield the same URLs, each as often. */
  lemma {:induction false} ExpansionIsConfluent(server: Server, ss: seq<Server>, cs: seq<Choice>, ts: seq<Server>,
                                                ds: seq<Choice>)
    requires WellFormed(server) && IsExpansion(server, ss, cs) && IsExpansion(server, ts, ds)
    ensures multiset(Map(ss, URLOf)) == multiset(Map(ts, URLOf))
  {
    var url := (c: Choice) => Subst(server.url, Env(server.variables, c));
    assert Map(ss, URLOf) == Map(cs, url);
    assert Map(ts, URLOf) == Map(ds, url);
    SameElementsSameLength(cs, ds);
    MapOfPermutation(cs, ds, url);
  }
}
