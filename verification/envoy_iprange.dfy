module EnvoyIPRange {
  /**
   IP-range control in the Envoy Gateway emitter: collapsing per-rule controls (utils.go), the policy
   cache (builder.go) and the emission (iprange.go), all of pkg/i2gw/emitters/envoygateway.
   */

  import opened Optional
  import opened Strings
  import opened Gateway
  import opened Grouping
  import opened Numerals

  const ROUTE_RULE_ALL_INDEX := -1

  datatype IPRangeControl = IPRangeControl(allow: seq<string>, deny: seq<string>, metadata: string)

  type Controls = map<int, IPRangeControl>

  // ---- Collapsing ---------------------------------------------------------------------------------

  /** All entries are deeply equal, and there are as many as rules. */
  ghost predicate Collapses(controls: Controls, n: nat) {
    |controls| == n && forall i, j :: i in controls && j in controls ==> controls[i] == controls[j]
  }

  lemma {:induction false} Member<T>(s: set<T>) returns (x: T)
    requires s != {}
    ensures x in s
  {
    x :| x in s;
  }

  lemma {:induction false} SomeIndex(controls: Controls)
    requires controls != map[]
    ensures exists i :: i in controls.Keys
  {
    var i := Member(controls.Keys);
  }

  ghost function Merged(controls: Controls, n: nat): Controls
    requires controls != map[] || n != 0
  {
    if Collapses(controls, n) then
      SomeIndex(controls);
      var i :| i in controls.Keys;
      map[ROUTE_RULE_ALL_INDEX := controls[i]]
    else controls
  }

  /** With neither a rule nor an entry the source stores a nil control, which the emission would then
      dereference. */
  method MergeIPRangeControlIR(controls: Controls, n: nat) returns (merged: Controls)
    requires controls != map[] || n != 0
    ensures merged == Merged(controls, n)
    ensures |controls| == n && (forall i, j :: i in controls && j in controls ==> controls[i] == controls[j]) ==>
      exists i :: i in controls && merged == map[-1 := controls[i]]
    ensures !(|controls| == n && forall i, j :: i in controls && j in controls ==> controls[i] == controls[j]) ==>
      merged == controls
  {
    if |controls| != n {
      return controls;
    }
    var first: Option<IPRangeControl> := None;
    ghost var k0 := 0;
    var todo: set<int> := controls.Keys;
    while todo != {}
      invariant todo <= controls.Keys
      invariant first.None? ==> todo == controls.Keys
      invariant first.Some? ==> k0 in controls && first.value == controls[k0]
      invariant forall i :: i in controls && i !in todo ==> first == Some(controls[i])
      decreases todo
    {
      ghost var member := Member(todo);
      var i: int :| i in todo;
      todo := todo - {i};
      if first.None? {
        first := Some(controls[i]);
        k0 := i;
        continue;
      }
      if first.value != controls[i] {
        return controls;
      }
    }
    merged := map[ROUTE_RULE_ALL_INDEX := first.value];
  }

  /** The control that holds for rule `i`: its own, or the route's. */
  function Effective(controls: Controls, i: nat): Option<IPRangeControl> {
    if i in controls then Some(controls[i])
    else if ROUTE_RULE_ALL_INDEX in controls then Some(controls[ROUTE_RULE_ALL_INDEX])
    else None
  }

  ghost predicate InRange(controls: Controls, n: nat) {
    forall i :: i in controls ==> 0 <= i < n
  }

  function Below(n: nat): (s: set<int>)
    ensures |s| == n && forall i :: i in s <==> 0 <= i < n
  {
    if n == 0 then {} else Below(n - 1) + {n - 1}
  }

  lemma {:induction false} SubsetOfSameSize(a: set<int>, b: set<int>)
    requires a <= b && |a| == |b|
    ensures a == b
  {
    assert |b - a| == 0;
    assert b == a + (b - a);
  }

  /** Collapsing changes no rule's control if and only if every entry is for a rule that exists:
      as many entries in range as there are rules means one for each. */
  lemma {:induction false} CollapsingKeepsControlsIffInRange(controls: Controls, n: nat)
    requires controls != map[] && ROUTE_RULE_ALL_INDEX !in controls && Collapses(controls, n)
    ensures (forall i: nat :: i < n ==> Effective(Merged(controls, n), i) == Effective(controls, i)) <==>
      InRange(controls, n)
  {
    var merged := Merged(controls, n);
    if InRange(controls, n) {
      SubsetOfSameSize(controls.Keys, Below(n));
    } else if forall i: nat :: i < n ==> Effective(merged, i) == Effective(controls, i) {
      forall i | i in Below(n)
        ensures i in controls.Keys
      {
        assert Effective(merged, i) == Effective(controls, i);
      }
      SubsetOfSameSize(Below(n), controls.Keys);
    }
  }

  // ---- Policies -----------------------------------------------------------------------------------

  datatype Action = Allow | Deny

  datatype AuthorizationRule = AuthorizationRule(action: Action, cidrs: seq<string>)

  datatype Authorization = Authorization(defaultAction: Action, rules: seq<AuthorizationRule>)

  method Authorize(c: IPRangeControl) returns (a: Authorization)
    ensures a == AuthorizationFor(c)
  {
    var rules := [];
    var defaultAction := Allow;
    if |c.allow| > 0 {
      defaultAction := Deny;
    }
    if |c.deny| > 0 {
      rules := rules + [AuthorizationRule(Deny, c.deny)];
    }
    if |c.allow| > 0 {
      rules := rules + [AuthorizationRule(Allow, c.allow)];
    }
    a := Authorization(defaultAction, rules);
  }

  function AuthorizationFor(c: IPRangeControl): Authorization {
    Authorization(
      if |c.allow| > 0 then Deny else Allow,
      (if |c.deny| > 0 then [AuthorizationRule(Deny, c.deny)] else []) +
      (if |c.allow| > 0 then [AuthorizationRule(Allow, c.allow)] else []))
  }

  /** `within` says which CIDRs contain the client. */
  predicate InSome(cidrs: seq<string>, within: string -> bool) {
    exists i :: 0 <= i < |cidrs| && within(cidrs[i])
  }

  /** How a Gateway reads an authorization: the first rule for the client decides, else the default. */
  function Decide(rules: seq<AuthorizationRule>, default': Action, within: string -> bool): Action {
    if rules == [] then default'
    else if InSome(rules[0].cidrs, within) then rules[0].action
    else Decide(rules[1..], default', within)
  }

  predicate Allows(c: Option<IPRangeControl>, within: string -> bool) {
    c.Some? ==> !InSome(c.value.deny, within) && (c.value.allow == [] || InSome(c.value.allow, within))
  }

  /** The emitted list lets a client in exactly when it is not denied and, if anybody is listed as
      allowed, it is. */
  lemma {:induction false} FirstMatchMeansControl(c: IPRangeControl, within: string -> bool)
    ensures var a := AuthorizationFor(c); Decide(a.rules, a.defaultAction, within) == Allow <==> Allows(Some(c), within)
  {
    var a := AuthorizationFor(c);
    var allow := if |c.allow| > 0 then [AuthorizationRule(Allow, c.allow)] else [];
    assert Decide(allow, a.defaultAction, within) == Allow <==> c.allow == [] || InSome(c.allow, within) by {
      assert allow != [] ==> allow[1..] == [];
    }
    if |c.deny| > 0 {
      assert a.rules[1..] == allow;
    } else {
      assert a.rules == allow && !InSome(c.deny, within);
    }
  }

  // ---- The cache ------------------------------------------------------------------------------------

  /** What a policy says: its target route, the section of it, and the authorization. */
  datatype Policy = Policy(target: Key, section: Option<string>, authorization: Option<Authorization>)

  type Policies = map<Key, Policy>

  class SecurityPolicy {
    const target: Key
    const section: Option<string>
    var authorization: Option<Authorization>

    constructor (target: Key, section: Option<string>)
      ensures View() == Policy(target, section, None)
    {
      this.target, this.section, authorization := target, section, None;
    }

    ghost function View(): Policy
      reads this
    {
      Policy(target, section, authorization)
    }
  }

  predicate RuleIndex(idx: int) {
    idx >= ROUTE_RULE_ALL_INDEX
  }

  function PolicyKey(route: Key, idx: int): Key
    requires RuleIndex(idx)
  {
    if idx == ROUTE_RULE_ALL_INDEX then route else Key(route.namespace, route.name + "-" + Format(idx))
  }

  /** The name that AddHTTPRouteRuleNames gives to rule `idx`. */
  function RuleName(idx: nat): string {
    "rule-" + Format(idx)
  }

  function SectionOf(idx: int, n: nat): Option<string>
    requires RuleIndex(idx)
  {
    if idx != ROUTE_RULE_ALL_INDEX && idx < n then Some(RuleName(idx)) else None
  }

  datatype RouteContext = RouteContext(rules: nat, controls: Controls)

  class EmitterIR {
    var httpRoutes: map<Key, RouteContext>
  }

  /** One round of the inner loop. */
  datatype Emission = Emission(route: Key, rules: nat, idx: int, control: IPRangeControl) {
    predicate Indexed() {
      RuleIndex(idx)
    }

    function CacheKey(): Key
      requires Indexed()
    {
      PolicyKey(route, idx)
    }

    /** The policy that the round is meant to leave. */
    function Intended(): Policy
      requires Indexed()
    {
      Policy(route, SectionOf(idx, rules), Some(AuthorizationFor(control)))
    }
  }

  /** For the whole route the policy has the route's name; for one rule it also has the number of the rule,
      and is for the section of that name if the rule exists. */
  lemma {:induction false} EmissionInFull(e: Emission)
    requires e.Indexed()
    ensures e.idx == -1 ==> e.CacheKey() == e.route && e.Intended().section == None
    ensures e.idx >= 0 ==>
      && e.CacheKey().namespace == e.route.namespace && e.CacheKey().name == e.route.name + "-" + Format(e.idx)
      && e.Intended().section == if e.idx < e.rules then Some("rule-" + Format(e.idx)) else None
    ensures e.Intended().target == e.route
  {
  }

  /** The policies after a round: a policy that is already there keeps its target. */
  function AfterEmission(was: Policies, e: Emission): Policies
    requires e.Indexed()
  {
    if e.CacheKey() in was then was[e.CacheKey() := was[e.CacheKey()].(authorization := e.Intended().authorization)]
    else was[e.CacheKey() := e.Intended()]
  }

  predicate AllIndexed(es: seq<Emission>) {
    forall e :: e in es ==> e.Indexed()
  }

  function AfterEmissions(was: Policies, es: seq<Emission>): Policies
    requires AllIndexed(es)
    decreases |es|
  {
    if es == [] then was else AfterEmission(AfterEmissions(was, es[..|es| - 1]), es[|es| - 1])
  }

  ghost predicate Indexed(routes: map<Key, RouteContext>) {
    forall r, i :: r in routes && i in routes[r].controls ==> RuleIndex(i)
  }

  /** The emission is due for one of the routes. An absent table of controls is an empty one here. */
  ghost predicate Due(routes: map<Key, RouteContext>, e: Emission) {
    e.route in routes && e.rules == routes[e.route].rules && routes[e.route].controls != map[] &&
    var merged := Merged(routes[e.route].controls, e.rules);
    e.idx in merged && e.control == merged[e.idx]
  }

  /** `order` lists, once each, the emissions due for the routes not in `todo`. */
  ghost predicate Emitted(routes: map<Key, RouteContext>, todo: set<Key>, order: seq<Emission>) {
    NoDuplicates(order) && forall e: Emission :: e in order <==> Due(routes, e) && e.route !in todo
  }

  ghost function Cleared(routes: map<Key, RouteContext>, todo: set<Key>): map<Key, RouteContext> {
    map r | r in routes :: if r in todo then routes[r] else routes[r].(controls := map[])
  }

  lemma {:induction false} ClearedStep(routes: map<Key, RouteContext>, todo: set<Key>, r: Key)
    requires r in routes && r !in todo
    ensures Cleared(routes, todo + {r})[r := routes[r].(controls := map[])] == Cleared(routes, todo)
    ensures routes[r].controls == map[] ==> Cleared(routes, todo + {r}) == Cleared(routes, todo)
  {
  }

  class Emitter {
    var securityPolicies: map<Key, SecurityPolicy>

    ghost predicate Valid()
      reads this
    {
      forall k, k' :: k in securityPolicies && k' in securityPolicies && k != k' ==>
        securityPolicies[k] != securityPolicies[k']
    }

    ghost function View(): Policies
      reads this, securityPolicies.Values
    {
      map k | k in securityPolicies :: securityPolicies[k].View()
    }

    constructor ()
      ensures Valid() && View() == map[]
    {
      securityPolicies := map[];
    }

    method GetOrBuildSecurityPolicy(route: Key, section: Option<string>, idx: int) returns (policy: SecurityPolicy)
      requires Valid() && RuleIndex(idx)
      modifies this
      ensures Valid() && PolicyKey(route, idx) in securityPolicies && policy == securityPolicies[PolicyKey(route, idx)]
      ensures securityPolicies.Values == old(securityPolicies).Values + {policy}
      ensures policy in old(securityPolicies).Values || fresh(policy)
      ensures View() == if PolicyKey(route, idx) in old(View()) then old(View())
                        else old(View())[PolicyKey(route, idx) := Policy(route, section, None)]
    {
      var key := PolicyKey(route, idx);
      if key in securityPolicies {
        return securityPolicies[key];
      }
      ghost var before := View();
      policy := new SecurityPolicy(route, section);
      forall k | k in securityPolicies
        ensures securityPolicies[k] != policy
      {
        assert securityPolicies[k] in securityPolicies.Values;
      }
      ghost var was := securityPolicies;
      securityPolicies := securityPolicies[key := policy];
      assert View() == before[key := Policy(route, section, None)];
      assert securityPolicies.Values == was.Values + {policy} by {
        assert securityPolicies[key] == policy;
        assert forall k :: k in was ==> was[k] == securityPolicies[k];
      }
    }

    method EmitOne(ghost e: Emission, route: Key, n: nat, idx: int, c: IPRangeControl)
      requires Valid() && RuleIndex(idx) && e == Emission(route, n, idx, c)
      modifies this, securityPolicies.Values
      ensures Valid() && View() == AfterEmission(old(View()), e)
      ensures fresh(securityPolicies.Values - old(securityPolicies).Values)
    {
      var policy := GetOrBuildSecurityPolicy(route, SectionOf(idx, n), idx);
      ghost var between := View();
      var authorization := Authorize(c);
      policy.authorization := Some(authorization);
      ghost var key := PolicyKey(route, idx);
      assert View() == between[key := between[key].(authorization := Some(AuthorizationFor(c)))];
    }

    /** Both maps are walked in an order of Go's choosing; `order` records it. */
    method EmitIPRangeControl(ir: EmitterIR) returns (ghost order: seq<Emission>)
      requires Valid() && Indexed(ir.httpRoutes)
      modifies this, securityPolicies.Values, ir
      ensures Valid() && Emitted(old(ir.httpRoutes), {}, order)
      ensures AllIndexed(order) && View() == AfterEmissions(old(View()), order)
      ensures ir.httpRoutes == Cleared(old(ir.httpRoutes), {})
      ensures ir.httpRoutes.Keys == old(ir.httpRoutes).Keys
      ensures forall r :: r in ir.httpRoutes ==>
        ir.httpRoutes[r].controls == map[] && ir.httpRoutes[r].rules == old(ir.httpRoutes)[r].rules
    {
      order := [];
      var todo := ir.httpRoutes.Keys;
      ghost var routes := ir.httpRoutes;
      ghost var was := View();
      while todo != {}
        invariant Valid() && fresh(securityPolicies.Values - old(securityPolicies.Values))
        invariant todo <= routes.Keys && ir.httpRoutes == Cleared(routes, todo)
        invariant Emitted(routes, todo, order)
        invariant AllIndexed(order) && View() == AfterEmissions(was, order)
        decreases todo
      {
        var r :| r in todo;
        ghost var rest := todo;
        todo := todo - {r};
        assert rest == todo + {r};
        order := EmitRoute(ir, r, routes, todo, order, was);
      }
    }

    /** The turn of route `r`, whose table is cleared once it has been emitted. */
    method EmitRoute(ir: EmitterIR, r: Key, ghost routes: map<Key, RouteContext>, ghost todo: set<Key>,
                     ghost done: seq<Emission>,
                     ghost was: Policies)
      returns (ghost order: seq<Emission>)
      requires Valid() && Indexed(routes) && r in routes && r !in todo && ir.httpRoutes == Cleared(routes, todo + {r})
      requires Emitted(routes, todo + {r}, done) && AllIndexed(done) && View() == AfterEmissions(was, done)
      modifies this, securityPolicies.Values, ir
      ensures Valid() && fresh(securityPolicies.Values - old(securityPolicies.Values))
      ensures ir.httpRoutes == Cleared(routes, todo)
      ensures Emitted(routes, todo, order) && AllIndexed(order) && View() == AfterEmissions(was, order)
    {
      ClearedStep(routes, todo, r);
      var ctx := ir.httpRoutes[r];
      if ctx.controls == map[] {
        return done;
      }
      var merged := MergeIPRangeControlIR(ctx.controls, ctx.rules);
      order := EmitControls(routes, todo, done, r, ctx.rules, merged, was);
      ir.httpRoutes := ir.httpRoutes[r := ctx.(controls := map[])];
    }

    /** The inner loop, over the controls of route `r`. */
    method EmitControls(ghost routes: map<Key, RouteContext>, ghost todo: set<Key>, ghost done: seq<Emission>,
                        r: Key, n: nat, controls: Controls, ghost was: Policies)
      returns (ghost order: seq<Emission>)
      requires Valid() && Indexed(routes) && r in routes && r !in todo
      requires routes[r].rules == n && routes[r].controls != map[] && controls == Merged(routes[r].controls, n)
      requires Emitted(routes, todo + {r}, done) && AllIndexed(done) && View() == AfterEmissions(was, done)
      modifies this, securityPolicies.Values
      ensures Valid() && fresh(securityPolicies.Values - old(securityPolicies.Values))
      ensures Emitted(routes, todo, order) && AllIndexed(order) && View() == AfterEmissions(was, order)
    {
      order := done;
      var todoIdx: set<int> := controls.Keys;
      while todoIdx != {}
        invariant Valid() && fresh(securityPolicies.Values - old(securityPolicies.Values))
        invariant todoIdx <= controls.Keys
        invariant NoDuplicates(order) && forall e :: e in order <==>
          Due(routes, e) && e.route !in todo && (e.route == r ==> e.idx !in todoIdx)
        invariant AllIndexed(order) && View() == AfterEmissions(was, order)
        decreases todoIdx
      {
        ghost var member := Member(todoIdx);
        var idx: int :| idx in todoIdx;
        ghost var e := Emission(r, n, idx, controls[idx]);
        EmitOne(e, r, n, idx, controls[idx]);
        assert (order + [e])[..|order|] == order;
        order := order + [e];
        todoIdx := todoIdx - {idx};
      }
    }
  }

  // ---- What the emitted policies say ------------------------------------------------------------------

  /** Two controls share a policy only if one route is named like another plus "-" and a rule index. */
  lemma {:induction false} PolicyKeysMeetIff(r: Key, i: int, s: Key, j: int)
    requires RuleIndex(i) && RuleIndex(j)
    ensures PolicyKey(r, i) == PolicyKey(s, j) <==>
            (r == s && i == j)
            || (i == ROUTE_RULE_ALL_INDEX && j >= 0 && r == Key(s.namespace, s.name + "-" + Format(j)))
            || (j == ROUTE_RULE_ALL_INDEX && i >= 0 && s == Key(r.namespace, r.name + "-" + Format(i)))
  {
    if i >= 0 && j >= 0 && PolicyKey(r, i) == PolicyKey(s, j) {
      SplitAtLast(r.name, Format(i), s.name, Format(j), '-');
      FormatInjective(i, j);
    } else if i == j == ROUTE_RULE_ALL_INDEX {
    } else if PolicyKey(r, i) == PolicyKey(s, j) && r == s {
      assert |PolicyKey(r, i).name| == |PolicyKey(s, j).name|;
    }
  }

  /** No route that gets a policy for itself is named like the policy of another route's rule. */
  ghost predicate NamesAreFree(routes: map<Key, RouteContext>) {
    forall e, f :: Due(routes, e) && Due(routes, f) && e.idx == ROUTE_RULE_ALL_INDEX && f.idx >= 0 ==>
      e.route != Key(f.route.namespace, f.route.name + "-" + Format(f.idx))
  }

  ghost predicate OwnKeys(es: seq<Emission>)
    requires AllIndexed(es)
  {
    forall e, f :: e in es && f in es && e.CacheKey() == f.CacheKey() ==> e == f
  }

  lemma {:induction false} NamesAreFreeMeansOwnKeys(routes: map<Key, RouteContext>, order: seq<Emission>)
    requires AllIndexed(order) && Emitted(routes, {}, order)
    ensures NamesAreFree(routes) <==> OwnKeys(order)
  {
    forall e, f | e in order && f in order
      ensures e.CacheKey() == f.CacheKey() && NamesAreFree(routes) ==> e == f
    {
      PolicyKeysMeetIff(e.route, e.idx, f.route, f.idx);
    }
    forall e, f | Due(routes, e) && Due(routes, f) && e.idx == ROUTE_RULE_ALL_INDEX && f.idx >= 0 && OwnKeys(order)
      ensures e.route != Key(f.route.namespace, f.route.name + "-" + Format(f.idx))
    {
      assert e in order && f in order;
      PolicyKeysMeetIff(e.route, e.idx, f.route, f.idx);
    }
  }

  /** A cached policy keeps the target of the first emission under its key and the authorization of
      the last. */
  lemma {:induction false} KeysOfEmissions(es: seq<Emission>, e: Emission)
    requires AllIndexed(es) && e in es
    ensures e.CacheKey() in AfterEmissions(map[], es)
    ensures OwnKeys(es) ==> AfterEmissions(map[], es)[e.CacheKey()] == e.Intended()
  {
    var n := |es| - 1;
    assert es == es[..n] + [es[n]];
    if e in es[..n] {
      KeysOfEmissions(es[..n], e);
    }
    if OwnKeys(es) && e == es[n] && e.CacheKey() in AfterEmissions(map[], es[..n]) {
      OnlyKeysOfEmissions(es[..n], e.CacheKey());
      KeysOfEmissions(es[..n], e);
    }
  }

  lemma {:induction false} OnlyKeysOfEmissions(es: seq<Emission>, k: Key)
    requires AllIndexed(es) && k in AfterEmissions(map[], es)
    ensures exists e :: e in es && e.CacheKey() == k
  {
    var n := |es| - 1;
    if k != es[n].CacheKey() {
      OnlyKeysOfEmissions(es[..n], k);
      var e :| e in es[..n] && e.CacheKey() == k;
      assert e in es;
    }
  }

  /** In whatever order the maps are walked, every control ends up in the policy meant for it if and
      only if the names are free. */
  lemma {:induction false} PoliciesAreIntendedIffNamesAreFree(routes: map<Key, RouteContext>, order: seq<Emission>)
    requires AllIndexed(order) && Emitted(routes, {}, order)
    ensures var ps := AfterEmissions(map[], order);
            (forall e :: e in order ==> e.CacheKey() in ps && ps[e.CacheKey()] == e.Intended()) <==>
              NamesAreFree(routes)
  {
    var ps := AfterEmissions(map[], order);
    NamesAreFreeMeansOwnKeys(routes, order);
    if OwnKeys(order) {
      forall e | e in order
        ensures e.CacheKey() in ps && ps[e.CacheKey()] == e.Intended()
      {
        KeysOfEmissions(order, e);
      }
    } else if forall e :: e in order ==> e.CacheKey() in ps && ps[e.CacheKey()] == e.Intended() {
      forall e, f | e in order && f in order && e.CacheKey() == f.CacheKey()
        ensures e == f
      {
        assert ps[e.CacheKey()] == e.Intended() && ps[f.CacheKey()] == f.Intended();
        assert e.route == f.route;
        PolicyKeysMeetIff(e.route, e.idx, f.route, f.idx);
      }
    }
  }

  /** The policy applies to rule `i` of route `r`: it targets the rule, or the route as a whole. */
  predicate Governs(p: Policy, r: Key, i: nat) {
    p.target == r && (p.section == None || p.section == Some(RuleName(i)))
  }

  ghost predicate ControlsInRange(routes: map<Key, RouteContext>) {
    forall r :: r in routes ==> InRange(routes[r].controls, routes[r].rules)
  }

  /** From the merged tables to the clients: with free names and controls of rules that exist, a rule
      has a policy exactly when it had a control, and every policy that governs it lets in exactly
      the clients the control does. */
  lemma {:induction false} EmittedPoliciesMeanControls(routes: map<Key, RouteContext>, order: seq<Emission>, r: Key,
                                                       i: nat, within: string -> bool)
    requires AllIndexed(order) && Emitted(routes, {}, order) && NamesAreFree(routes) && ControlsInRange(routes)
    requires r in routes && i < routes[r].rules
    ensures var ps := AfterEmissions(map[], order); var c := Effective(routes[r].controls, i);
            && (c.Some? <==> exists k :: k in ps && Governs(ps[k], r, i))
            && forall k :: k in ps && Governs(ps[k], r, i) ==>
                 && ps[k].authorization.Some?
                 && var a := ps[k].authorization.value;
                    Decide(a.rules, a.defaultAction, within) == Allow <==> Allows(c, within)
  {
    var ps := AfterEmissions(map[], order);
    var ctx := routes[r];
    var c := Effective(ctx.controls, i);
    PoliciesAreIntendedIffNamesAreFree(routes, order);
    if ctx.controls != map[] && Collapses(ctx.controls, ctx.rules) {
      CollapsingKeepsControlsIffInRange(ctx.controls, ctx.rules);
      assert Effective(Merged(ctx.controls, ctx.rules), i) == c;
    }
    forall k | k in ps && Governs(ps[k], r, i)
      ensures ps[k].authorization.Some? && c.Some? && ps[k].authorization.value == AuthorizationFor(c.value)
    {
      OnlyKeysOfEmissions(order, k);
      var e :| e in order && e.CacheKey() == k;
      assert ps[k] == e.Intended() && Due(routes, e) && e.route == r;
      GovernsIts(e, i);
    }
    if c.Some? {
      var merged := Merged(ctx.controls, ctx.rules);
      var idx := if i in merged then i else ROUTE_RULE_ALL_INDEX;
      var e := Emission(r, ctx.rules, idx, merged[idx]);
      assert Due(routes, e) && e in order;
      assert Governs(ps[e.CacheKey()], r, i);
      FirstMatchMeansControl(c.value, within);
    }
  }

  lemma {:induction false} GovernsIts(e: Emission, i: nat)
    requires e.Indexed() && e.idx < e.rules && Governs(e.Intended(), e.route, i)
    ensures e.idx == i || e.idx == ROUTE_RULE_ALL_INDEX
  {
    if e.idx >= 0 {
      assert RuleName(e.idx)[5..] == Format(e.idx) && RuleName(i)[5..] == Format(i);
      FormatInjective(e.idx, i);
    }
  }
}
