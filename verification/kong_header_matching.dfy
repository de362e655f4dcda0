module KongHeaderMatching {
  /**
   Kong's header annotations (pkg/i2gw/providers/kong/header_matching.go). Each annotation names a
   header and lists values; values are meant to be ORed and headers ANDed. Every match of a rule is
   copied once per combination, and rotating indices pick the values of each copy.
   */

  import opened Numbers

  datatype HeaderMatch = HeaderMatch(name: string, value: string)

  /** An HTTPRouteMatch; `rest` stands for its path, method and query parameters. */
  datatype RouteMatch = RouteMatch(rest: string, headers: seq<HeaderMatch>)

  /** The header annotations of one ingress, as parseHeadersAnnotations returns them: the order of
      the names is whatever order Go ranged over the map in. */
  datatype Annotations = Annotations(names: seq<string>, values: seq<seq<string>>)

  ghost predicate WellFormed(a: Annotations) {
    |a.values| == |a.names|
  }

  function Lengths(a: Annotations): seq<nat> {
    seq(|a.values|, k requires 0 <= k < |a.values| => |a.values[k]|)
  }

  // ---- What copy number t gets ------------------------------------------------------------------

  ghost predicate HasValues(a: Annotations) {
    AllPositive(Lengths(a))
  }

  function HeadersAt(a: Annotations, t: nat): seq<HeaderMatch>
    requires WellFormed(a) && HasValues(a)
  {
    seq(|a.names|, k requires 0 <= k < |a.names| =>
      (assert Lengths(a)[k] > 0; HeaderMatch(a.names[k], a.values[k][t % |a.values[k]|])))
  }

  /** The copies of one match, in order. */
  ghost function Copies(m: RouteMatch, a: Annotations): (r: seq<RouteMatch>)
    requires WellFormed(a)
    ensures |r| == Product(Lengths(a))
  {
    ProductPositive(Lengths(a));
    seq(Product(Lengths(a)), t requires 0 <= t < Product(Lengths(a)) => m.(headers := HeadersAt(a, t)))
  }

  /** The matches that replace `ms`: a block of copies for each. */
  ghost function Patched(ms: seq<RouteMatch>, a: Annotations): (r: seq<RouteMatch>)
    requires WellFormed(a)
    ensures |r| == |ms| * Product(Lengths(a))
  {
    if ms == [] then []
    else Patched(ms[..|ms| - 1], a) + Copies(ms[|ms| - 1], a)
  }

  /** Copy `t` of a match: everything but the headers is kept, and every list gives its value number
      `t`, counted round and round. */
  ghost predicate IsCopy(m: RouteMatch, a: Annotations, t: nat, copy: RouteMatch)
    requires WellFormed(a)
  {
    && copy.rest == m.rest
    && |copy.headers| == |a.names|
    && forall k :: 0 <= k < |a.names| ==>
         |a.values[k]| > 0 && copy.headers[k] == HeaderMatch(a.names[k], a.values[k][t % |a.values[k]|])
  }

  function Position(i: nat, n: nat, t: nat): nat {
    i * n + t
  }

  /** Block `i` of `r` holds the copies of match `i`. */
  ghost predicate IsPatched(ms: seq<RouteMatch>, a: Annotations, r: seq<RouteMatch>)
    requires WellFormed(a)
  {
    var n := Product(Lengths(a));
    && |r| == |ms| * n
    && forall i: nat, t: nat :: i < |ms| && t < n ==>
         Position(i, n, t) < |r| && IsCopy(ms[i], a, t, r[Position(i, n, t)])
  }

  lemma {:induction false} CopiesAreCopies(m: RouteMatch, a: Annotations, t: nat)
    requires WellFormed(a) && t < Product(Lengths(a))
    ensures IsCopy(m, a, t, Copies(m, a)[t])
  {
    ProductPositive(Lengths(a));
    forall k | 0 <= k < |a.names|
      ensures |a.values[k]| > 0
    {
      assert Lengths(a)[k] > 0;
    }
  }

  lemma {:induction false} PatchedIsPatched(ms: seq<RouteMatch>, a: Annotations)
    requires WellFormed(a)
    ensures IsPatched(ms, a, Patched(ms, a))
  {
    var n := Product(Lengths(a));
    var r := Patched(ms, a);
    if ms != [] {
      var b := |ms| - 1;
      PatchedIsPatched(ms[..b], a);
      forall i: nat, t: nat | i < |ms| && t < n
        ensures Position(i, n, t) < |r| && IsCopy(ms[i], a, t, r[Position(i, n, t)])
      {
        if i < b {
          assert IsCopy(ms[..b][i], a, t, Patched(ms[..b], a)[Position(i, n, t)]);
        } else {
          CopiesAreCopies(ms[b], a, t);
        }
      }
    }
  }

  /** A rotating index has come back to its start after each block. */
  lemma {:induction false} HeadersRepeat(a: Annotations, b: nat, t: nat)
    requires WellFormed(a) && HasValues(a)
    ensures b * Product(Lengths(a)) + t >= 0
    ensures HeadersAt(a, b * Product(Lengths(a)) + t) == HeadersAt(a, t)
  {
    var n := Product(Lengths(a));
    EachDividesProduct(Lengths(a));
    assert b * n >= 0;
    forall k | 0 <= k < |a.names|
      ensures HeadersAt(a, b * n + t)[k] == HeadersAt(a, t)[k]
    {
      var l := Lengths(a)[k];
      assert n % l == 0;
      DividesMultiple(l, n, b);
      SameRemainder(b * n + t, t, l);
    }
  }

  /** Position `j` of the whole list carries the headers of number `j`, in whichever block it is. */
  lemma {:induction false} PatchedHeaders(ms: seq<RouteMatch>, a: Annotations, j: nat)
    requires WellFormed(a) && j < |Patched(ms, a)|
    ensures HasValues(a) && Patched(ms, a)[j].headers == HeadersAt(a, j)
  {
    var n := Product(Lengths(a));
    PositiveFactors(|ms|, n);
    ProductPositive(Lengths(a));
    var b := |ms| - 1;
    assert |ms| * n == b * n + n by { Distribute(n, b, 1); }
    if j < b * n {
      PatchedHeaders(ms[..b], a, j);
    } else {
      HeadersRepeat(a, b, j - b * n);
    }
  }

  // ---- The code -----------------------------------------------------------------------------

  method GetNumberOfMatches(a: Annotations) returns (n: nat)
    requires WellFormed(a)
    ensures n == Product(Lengths(a))
  {
    n := 1;
    var i := 0;
    while i < |a.names|
      invariant 0 <= i <= |a.names|
      invariant n == Product(Lengths(a)[..i])
    {
      ProductSnoc(Lengths(a)[..i], Lengths(a)[i]);
      assert Lengths(a)[..i + 1] == Lengths(a)[..i] + [Lengths(a)[i]];
      n := n * |a.values[i]|;
      i := i + 1;
    }
    assert Lengths(a)[..i] == Lengths(a);
  }

  lemma {:induction false} ProductSnoc(ls: seq<nat>, l: nat)
    ensures Product(ls + [l]) == Product(ls) * l
  {
    if ls != [] {
      assert (ls + [l])[1..] == ls[1..] + [l];
      ProductSnoc(ls[1..], l);
      Regroup(ls[0], Product(ls[1..]), l);
    }
  }

  /** One visit of the inner loop: the headers at the current indices, and the indices advanced. */
  method FillHeaders(a: Annotations, ghost j: nat, indexes: seq<nat>)
      returns (headers: seq<HeaderMatch>, advanced: seq<nat>)
    requires WellFormed(a) && HasValues(a) && |indexes| == |a.names|
    requires forall k :: 0 <= k < |indexes| ==> indexes[k] == j % Lengths(a)[k]
    ensures headers == HeadersAt(a, j)
    ensures |advanced| == |a.names| && forall k :: 0 <= k < |advanced| ==> advanced[k] == (j + 1) % Lengths(a)[k]
  {
    headers := [];
    advanced := indexes;
    for k := 0 to |a.names|
      invariant headers == HeadersAt(a, j)[..k]
      invariant |advanced| == |a.names|
      invariant forall i :: 0 <= i < k ==> advanced[i] == (j + 1) % Lengths(a)[i]
      invariant forall i :: k <= i < |advanced| ==> advanced[i] == j % Lengths(a)[i]
    {
      assert Lengths(a)[k] == |a.values[k]| > 0;
      var index := advanced[k];
      headers := headers + [HeaderMatch(a.names[k], a.values[k][index])];
      assert headers == HeadersAt(a, j)[..k + 1];
      NextRemainder(j, |a.values[k]|);
      index := index + 1;
      if index >= |a.values[k]| {
        index := 0;
      }
      advanced := advanced[k := index];
    }
  }

  /** The inner loop over `newMatches`: it starts from the front every time, so it also rewrites the
      blocks of earlier matches. */
  method PopulateAll(matches: seq<RouteMatch>, a: Annotations) returns (r: seq<RouteMatch>)
    requires WellFormed(a) && (matches != [] ==> HasValues(a))
    ensures |r| == |matches|
    ensures forall j :: 0 <= j < |r| ==> HasValues(a) && r[j] == matches[j].(headers := HeadersAt(a, j))
  {
    r := matches;
    var indexes := seq(|a.names|, _ => 0);
    for j := 0 to |r|
      invariant |r| == |matches| && |indexes| == |a.names|
      invariant matches != [] ==> forall k :: 0 <= k < |indexes| ==>
        Lengths(a)[k] > 0 && indexes[k] == j % Lengths(a)[k]
      invariant forall i :: 0 <= i < j ==> r[i] == matches[i].(headers := HeadersAt(a, i))
      invariant forall i :: j <= i < |r| ==> r[i] == matches[i]
    {
      var headers;
      headers, indexes := FillHeaders(a, j, indexes);
      r := r[j := r[j].(headers := headers)];
    }
  }

  /** The patch of one rule's matches, as the nested loops compute it. */
  method PatchMatches(matches: seq<RouteMatch>, a: Annotations) returns (newMatches: seq<RouteMatch>)
    requires WellFormed(a)
    ensures newMatches == Patched(matches, a)
    ensures IsPatched(matches, a, newMatches)
  {
    newMatches := [];
    for i := 0 to |matches|
      invariant newMatches == Patched(matches[..i], a)
    {
      var n := GetNumberOfMatches(a);
      ProductPositive(Lengths(a));
      var j := 0;
      ghost var before := newMatches;
      while j < n
        invariant 0 <= j <= n && newMatches == before + seq(j, _ => matches[i])
      {
        newMatches := newMatches + [matches[i]];
        j := j + 1;
      }
      assert |before| == i * n;
      ghost var copied := newMatches;
      if n == 0 { assert i * n == 0; }
      newMatches := PopulateAll(newMatches, a);
      BlocksAgree(matches[..i], matches[i], a, copied, newMatches);
      assert matches[..i + 1][..i] == matches[..i];
    }
    assert matches[..|matches|] == matches;
    PatchedIsPatched(matches, a);
  }

  lemma {:induction false} BlocksAgree(ms: seq<RouteMatch>, m: RouteMatch, a: Annotations, copied: seq<RouteMatch>,
                                       r: seq<RouteMatch>)
    requires WellFormed(a)
    requires copied == Patched(ms, a) + seq(Product(Lengths(a)), _ => m)
    requires |r| == |copied|
    requires forall j :: 0 <= j < |r| ==> HasValues(a) && r[j] == copied[j].(headers := HeadersAt(a, j))
    ensures r == Patched(ms, a) + Copies(m, a)
  {
    var n := Product(Lengths(a));
    forall j | 0 <= j < |r|
      ensures r[j] == (Patched(ms, a) + Copies(m, a))[j]
    {
      if j < |ms| * n {
        PatchedHeaders(ms, a, j);
      } else {
        assert r[j] == copied[j].(headers := HeadersAt(a, j));
        HeadersRepeat(a, |ms|, j - |ms| * n);
      }
    }
  }

  /** The rules of an HTTPRoute, which patchHTTPRouteHeaderMatching updates in place. */
  class HTTPRoute {
    var rules: seq<seq<RouteMatch>>

    constructor (rules: seq<seq<RouteMatch>>)
      ensures this.rules == rules
    {
      this.rules := rules;
    }

    method PatchHeaderMatching(a: Annotations)
      requires WellFormed(a)
      modifies this
      ensures |rules| == |old(rules)|
      ensures forall i :: 0 <= i < |rules| ==>
        rules[i] == Patched(old(rules)[i], a) && IsPatched(old(rules)[i], a, rules[i])
    {
      for i := 0 to |rules|
        invariant |rules| == |old(rules)|
        invariant forall k :: 0 <= k < i ==>
          rules[k] == Patched(old(rules)[k], a) && IsPatched(old(rules)[k], a, rules[k])
        invariant forall k :: i <= k < |rules| ==> rules[k] == old(rules)[k]
      {
        var patched := PatchMatches(rules[i], a);
        rules := rules[i := patched];
      }
    }
  }

  // ---- What the copies amount to -----------------------------------------------------------------

  /** A choice of one value index per header. */
  ghost predicate IsCombination(c: seq<nat>, a: Annotations) {
    |c| == |a.values| && forall k :: 0 <= k < |c| ==> c[k] < |a.values[k]|
  }

  function Wrap(t: nat, l: nat): (r: nat)
    requires l > 0
    ensures r < l
  {
    t % l
  }

  /** The combination that copy `t` carries. */
  ghost function CombinationAt(a: Annotations, t: nat): (c: seq<nat>)
    requires HasValues(a)
    ensures IsCombination(c, a)
  {
    seq(|a.values|, k requires 0 <= k < |a.values| => (assert Lengths(a)[k] > 0; Wrap(t, |a.values[k]|)))
  }

  ghost predicate Emitted(a: Annotations, c: seq<nat>)
    requires HasValues(a)
  {
    exists t: nat :: t < Product(Lengths(a)) && CombinationAt(a, t) == c
  }

  lemma {:induction false} SameCombination(a: Annotations, t: nat, u: nat)
    requires HasValues(a)
    ensures CombinationAt(a, t) == CombinationAt(a, u) <==> (t - u) % LcmAll(Lengths(a)) == 0
  {
    var ls := Lengths(a);
    LcmAllDivides(ls, t - u);
    forall k | 0 <= k < |ls|
      ensures CombinationAt(a, t)[k] == CombinationAt(a, u)[k] <==> (t - u) % ls[k] == 0
    {
      SameRemainder(t, u, ls[k]);
    }
    if DividedByAll(t - u, ls) {
      assert CombinationAt(a, t) == CombinationAt(a, u);
    } else {
      var k :| 0 <= k < |ls| && (t - u) % ls[k] != 0;
      assert CombinationAt(a, t)[k] != CombinationAt(a, u)[k];
    }
  }

  /**
   All combinations are emitted exactly when the list lengths are pairwise coprime.
   */
  lemma {:induction false} AllCombinationsIffCoprime(a: Annotations)
    requires HasValues(a)
    ensures (forall c: seq<nat> :: IsCombination(c, a) ==> Emitted(a, c)) <==> PairwiseCoprime(Lengths(a))
  {
    var ls := Lengths(a);
    if PairwiseCoprime(ls) {
      forall c: seq<nat> | IsCombination(c, a)
        ensures Emitted(a, c)
      {
        var t := ChineseRemainder(ls, c);
        forall k | 0 <= k < |c|
          ensures CombinationAt(a, t)[k] == c[k]
        {
          assert ls[k] == |a.values[k]|;
        }
        assert CombinationAt(a, t) == c;
      }
    } else {
      var i, j :| 0 <= i < j < |ls| && !Coprime(ls[i], ls[j]);
      var c := MissingCombination(a, i, j);
    }
  }

  /** Two lists with a common factor: no copy pairs the first value of one with the second of the other. */
  lemma {:induction false} MissingCombination(a: Annotations, i: nat, j: nat) returns (c: seq<nat>)
    requires HasValues(a) && i < j < |a.values| && !Coprime(|a.values[i]|, |a.values[j]|)
    ensures IsCombination(c, a) && !Emitted(a, c)
  {
    var li, lj := Lengths(a)[i], Lengths(a)[j];
    GcdDivides(li, lj);
    var g := Gcd(li, lj);
    assert g > 1;
    assert lj > 1 by { if lj == 1 { QuotientUnique(1, g, 0, 1); } }
    c := seq(|a.values|, k => if k == j then 1 else 0);
    forall k | 0 <= k < |c|
      ensures c[k] < |a.values[k]|
    {
      assert Lengths(a)[k] > 0;
    }
    forall t: nat | CombinationAt(a, t) == c
      ensures false
    {
      assert t % li == c[i] && t % lj == c[j];
      DividesTransitive(g, li, t);
      SameRemainder(t, 1, lj);
      QuotientUnique(1, lj, 0, 1);
      DividesTransitive(g, lj, t - 1);
      DividesSum(g, t, t - 1);
      QuotientUnique(1, g, 0, 1);
    }
  }

  lemma {:induction false} CombinationIsOne(a: Annotations, t: nat)
    requires HasValues(a)
    ensures IsCombination(CombinationAt(a, t), a)
  {
    forall k | 0 <= k < |a.values|
      ensures CombinationAt(a, t)[k] < |a.values[k]|
    {
      assert Lengths(a)[k] > 0;
    }
  }

  /** A combination is emitted exactly if its places agree modulo the common divisors of the lengths. */
  lemma {:induction false} EmittedIffCompatible(a: Annotations, c: seq<nat>)
    requires HasValues(a) && IsCombination(c, a)
    ensures Emitted(a, c) <==> Compatible(c, Lengths(a))
  {
    var ls := Lengths(a);
    if Emitted(a, c) {
      var t: nat :| t < Product(ls) && CombinationAt(a, t) == c;
      forall i, j | 0 <= i < j < |ls|
        ensures SameModGcd(c[i], c[j], ls[i], ls[j])
      {
        assert c[i] == t % ls[i] && c[j] == t % ls[j];
        RemaindersAgree(t, ls[i], ls[j]);
      }
    }
    if Compatible(c, ls) {
      var u := GeneralRemainder(ls, c);
      var t := BelowProduct(ls, u);
      assert CombinationAt(a, t) == c;
    }
  }

  /** With pairwise coprime lengths no combination is emitted twice. */
  lemma {:induction false} EachCombinationOnce(a: Annotations, t: nat, u: nat)
    requires HasValues(a) && PairwiseCoprime(Lengths(a))
    requires t < Product(Lengths(a)) && u < Product(Lengths(a))
    requires CombinationAt(a, t) == CombinationAt(a, u)
    ensures t == u
  {
    var m := LcmAll(Lengths(a));
    LcmOfCoprimes(Lengths(a));
    SameCombination(a, t, u);
    SmallMultipleIsZero(m, t - u);
  }

  ghost function EmittedSet(a: Annotations, n: nat): set<seq<nat>>
    requires HasValues(a)
  {
    set t: nat | t < n :: CombinationAt(a, t)
  }

  /** In general the number of distinct combinations emitted is the least common multiple. */
  lemma {:induction false} DistinctCombinationsAreLcm(a: Annotations)
    requires HasValues(a)
    ensures |EmittedSet(a, Product(Lengths(a)))| == LcmAll(Lengths(a))
  {
    var m, n := LcmAll(Lengths(a)), Product(Lengths(a));
    EachDividesProduct(Lengths(a));
    LcmAllDivides(Lengths(a), n);
    MultipleIsNotSmaller(m, n);
    forall t: nat | t < n
      ensures CombinationAt(a, t) in EmittedSet(a, m)
    {
      CombinationBelowLcm(a, t);
    }
    assert EmittedSet(a, n) == EmittedSet(a, m);
    DistinctBelowLcm(a, m);
  }

  lemma {:induction false} MultipleIsNotSmaller(m: nat, n: nat)
    requires m > 0 && n > 0 && n % m == 0
    ensures m <= n
  {
    if n < m {
      QuotientUnique(n, m, 0, n);
    }
  }

  lemma {:induction false} CombinationBelowLcm(a: Annotations, t: nat)
    requires HasValues(a)
    ensures CombinationAt(a, t) in EmittedSet(a, LcmAll(Lengths(a)))
  {
    var m := LcmAll(Lengths(a));
    var u: nat := t % m;
    MinusRemainder(t, m);
    SameCombination(a, t, u);
  }

  lemma {:induction false} DifferentBelowLcm(a: Annotations, t: nat, u: nat)
    requires HasValues(a) && t < u < LcmAll(Lengths(a))
    ensures CombinationAt(a, t) != CombinationAt(a, u)
  {
    SameCombination(a, t, u);
    if CombinationAt(a, t) == CombinationAt(a, u) {
      SmallMultipleIsZero(LcmAll(Lengths(a)), t - u);
    }
  }

  lemma {:induction false} EmittedSetGrows(a: Annotations, n: nat)
    requires HasValues(a)
    ensures EmittedSet(a, n + 1) == EmittedSet(a, n) + {CombinationAt(a, n)}
  {
  }

  lemma {:induction false} NotYetEmitted(a: Annotations, n: nat)
    requires HasValues(a) && n < LcmAll(Lengths(a))
    ensures CombinationAt(a, n) !in EmittedSet(a, n)
  {
    if CombinationAt(a, n) in EmittedSet(a, n) {
      var t: nat :| t < n && CombinationAt(a, t) == CombinationAt(a, n);
      DifferentBelowLcm(a, t, n);
    }
  }

  lemma {:induction false} DistinctBelowLcm(a: Annotations, n: nat)
    requires HasValues(a) && n <= LcmAll(Lengths(a))
    ensures |EmittedSet(a, n)| == n
    decreases n
  {
    if n == 0 {
      assert EmittedSet(a, n) == {};
    } else {
      DistinctBelowLcm(a, n - 1);
      EmittedSetGrows(a, n - 1);
      NotYetEmitted(a, n - 1);
    }
  }

  // ---- Meaning on requests ------------------------------------------------------------------------

  type RequestHeaders = map<string, string>

  predicate HeaderHolds(h: HeaderMatch, request: RequestHeaders) {
    h.name in request && request[h.name] == h.value
  }

  ghost predicate Accepts(headers: seq<HeaderMatch>, request: RequestHeaders) {
    forall k :: 0 <= k < |headers| ==> HeaderHolds(headers[k], request)
  }

  /** What the annotations ask for: every header present with one of its values. */
  ghost predicate Intended(a: Annotations, request: RequestHeaders)
    requires WellFormed(a)
  {
    forall k :: 0 <= k < |a.names| ==> a.names[k] in request && request[a.names[k]] in a.values[k]
  }

  ghost predicate SomeCopyAccepts(a: Annotations, request: RequestHeaders)
    requires WellFormed(a) && HasValues(a)
  {
    exists t: nat :: t < Product(Lengths(a)) && Accepts(HeadersAt(a, t), request)
  }

  /** Every emitted copy is sound: what it accepts was asked for. */
  lemma {:induction false} CopiesAreSound(a: Annotations, request: RequestHeaders)
    requires WellFormed(a) && HasValues(a) && SomeCopyAccepts(a, request)
    ensures Intended(a, request)
  {
    var t: nat :| t < Product(Lengths(a)) && Accepts(HeadersAt(a, t), request);
    forall k | 0 <= k < |a.names|
      ensures a.names[k] in request && request[a.names[k]] in a.values[k]
    {
      assert HeaderHolds(HeadersAt(a, t)[k], request);
      assert Lengths(a)[k] > 0;
    }
  }

  /** The keys of a map, as the names of the annotations are. */
  ghost predicate NoDuplicates<T>(s: seq<T>) {
    forall i, j :: 0 <= i < j < |s| ==> s[i] != s[j]
  }

  /** Both choices pick the same values, if at different places. */
  ghost predicate SameValues(a: Annotations, c: seq<nat>, d: seq<nat>)
    requires IsCombination(c, a) && IsCombination(d, a)
  {
    forall k :: 0 <= k < |a.values| ==> a.values[k][c[k]] == a.values[k][d[k]]
  }

  /** The values can be picked at places that agree modulo the common divisors of the list lengths. */
  ghost predicate Reachable(a: Annotations, c: seq<nat>)
    requires HasValues(a) && IsCombination(c, a)
  {
    exists d: seq<nat> :: IsCombination(d, a) && SameValues(a, c, d) && Compatible(d, Lengths(a))
  }

  ghost predicate IsExact(a: Annotations)
    requires WellFormed(a) && HasValues(a)
  {
    forall request :: SomeCopyAccepts(a, request) <==> Intended(a, request)
  }

  /**
   The patched matches accept exactly the requests that the annotations ask for, if and only if all
   choices of values are reachable.
   */
  lemma {:induction false} MeaningIsExactIff(a: Annotations)
    requires WellFormed(a) && HasValues(a) && NoDuplicates(a.names)
    ensures IsExact(a) <==> forall c: seq<nat> :: IsCombination(c, a) ==> Reachable(a, c)
  {
    if IsExact(a) {
      forall c: seq<nat> | IsCombination(c, a)
        ensures Reachable(a, c)
      {
        ChoiceIsIntended(a, c);
        AcceptedIsReachable(a, c);
      }
    }
    if forall c: seq<nat> :: IsCombination(c, a) ==> Reachable(a, c) {
      forall request
        ensures SomeCopyAccepts(a, request) <==> Intended(a, request)
      {
        if Intended(a, request) {
          var c := ChoiceOf(a, request);
          ReachableIsAccepted(a, c, request);
        } else if SomeCopyAccepts(a, request) {
          CopiesAreSound(a, request);
        }
      }
    }
  }

  /** Where each header lists its values once: if and only if the numbers of values are pairwise coprime. */
  lemma {:induction false} MeaningIsExactIffCoprime(a: Annotations)
    requires WellFormed(a) && HasValues(a) && NoDuplicates(a.names)
    requires forall k :: 0 <= k < |a.values| ==> NoDuplicates(a.values[k])
    ensures IsExact(a) <==> PairwiseCoprime(Lengths(a))
  {
    MeaningIsExactIff(a);
    AllCombinationsIffCoprime(a);
    forall c: seq<nat> | IsCombination(c, a)
      ensures Reachable(a, c) <==> Emitted(a, c)
    {
      ReachableIffEmitted(a, c);
    }
  }

  lemma {:induction false} ReachableIffEmitted(a: Annotations, c: seq<nat>)
    requires HasValues(a) && IsCombination(c, a)
    requires forall k :: 0 <= k < |a.values| ==> NoDuplicates(a.values[k])
    ensures Reachable(a, c) <==> Emitted(a, c)
  {
    EmittedIffCompatible(a, c);
    if Reachable(a, c) {
      var d: seq<nat> :| IsCombination(d, a) && SameValues(a, c, d) && Compatible(d, Lengths(a));
      forall k | 0 <= k < |c|
        ensures c[k] == d[k]
      {
        assert NoDuplicates(a.values[k]) && a.values[k][c[k]] == a.values[k][d[k]];
      }
      assert c == d;
    }
    assert SameValues(a, c, c);
  }

  /** In general coprime numbers are enough. */
  lemma {:induction false} CoprimeIsComplete(a: Annotations, request: RequestHeaders)
    requires WellFormed(a) && HasValues(a) && PairwiseCoprime(Lengths(a)) && Intended(a, request)
    ensures SomeCopyAccepts(a, request)
  {
    var c := ChoiceOf(a, request);
    AllCombinationsIffCoprime(a);
    EmittedIffCompatible(a, c);
    ReachableIsAccepted(a, c, request);
  }

  /** They are not necessary: a repeated value makes up for a common factor. */
  lemma {:induction false} RepeatedValueHelps()
    ensures var a := Annotations(["x", "y"], [["v", "v"], ["b", "c"]]);
      HasValues(a) && !PairwiseCoprime(Lengths(a)) && IsExact(a)
  {
    var a := Annotations(["x", "y"], [["v", "v"], ["b", "c"]]);
    assert Lengths(a) == [2, 2];
    assert !Coprime(Lengths(a)[0], Lengths(a)[1]) by { assert Gcd(2, 2) == Gcd(2, 0); }
    forall c: seq<nat> | IsCombination(c, a)
      ensures Reachable(a, c)
    {
      var d := [c[1], c[1]];
      assert IsCombination(d, a) && SameValues(a, c, d) && Compatible(d, Lengths(a));
    }
    MeaningIsExactIff(a);
  }

  /** Places at which the header lists have the values of a request. */
  lemma {:induction false} ChoiceOf(a: Annotations, request: RequestHeaders) returns (c: seq<nat>)
    requires WellFormed(a) && HasValues(a) && Intended(a, request)
    ensures IsCombination(c, a)
    ensures forall k :: 0 <= k < |a.names| ==> a.values[k][c[k]] == request[a.names[k]]
  {
    forall k | 0 <= k < |a.names|
      ensures exists i: nat :: i < |a.values[k]| && a.values[k][i] == request[a.names[k]]
    {
      assert request[a.names[k]] in a.values[k];
    }
    c := seq(|a.names|, k requires 0 <= k < |a.names| =>
      var i: nat :| i < |a.values[k]| && a.values[k][i] == request[a.names[k]]; i);
  }

  lemma {:induction false} ReachableIsAccepted(a: Annotations, c: seq<nat>, request: RequestHeaders)
    requires WellFormed(a) && HasValues(a) && Intended(a, request) && IsCombination(c, a) && Reachable(a, c)
    requires forall k :: 0 <= k < |a.names| ==> a.values[k][c[k]] == request[a.names[k]]
    ensures SomeCopyAccepts(a, request)
  {
    var d: seq<nat> :| IsCombination(d, a) && SameValues(a, c, d) && Compatible(d, Lengths(a));
    EmittedIffCompatible(a, d);
    var t: nat :| t < Product(Lengths(a)) && CombinationAt(a, t) == d;
    forall k | 0 <= k < |a.names|
      ensures HeaderHolds(HeadersAt(a, t)[k], request)
    {
      assert CombinationAt(a, t)[k] == d[k] && a.values[k][d[k]] == a.values[k][c[k]];
    }
    assert Accepts(HeadersAt(a, t), request);
  }

  /** The request that carries exactly the chosen values. */
  ghost function RequestFor(a: Annotations, c: seq<nat>): RequestHeaders
    requires WellFormed(a) && IsCombination(c, a)
  {
    map name | name in a.names :: var k: nat :| k < |a.names| && a.names[k] == name; a.values[k][c[k]]
  }

  lemma {:induction false} RequestCarriesChoice(a: Annotations, c: seq<nat>, k: nat)
    requires WellFormed(a) && NoDuplicates(a.names) && IsCombination(c, a) && k < |a.names|
    ensures a.names[k] in RequestFor(a, c) && RequestFor(a, c)[a.names[k]] == a.values[k][c[k]]
  {
    assert a.names[k] in a.names;
  }

  lemma {:induction false} ChoiceIsIntended(a: Annotations, c: seq<nat>)
    requires WellFormed(a) && NoDuplicates(a.names) && IsCombination(c, a)
    ensures Intended(a, RequestFor(a, c))
  {
    forall k: nat | k < |a.names|
      ensures a.names[k] in RequestFor(a, c) && RequestFor(a, c)[a.names[k]] in a.values[k]
    {
      RequestCarriesChoice(a, c, k);
    }
  }

  lemma {:induction false} AcceptedIsReachable(a: Annotations, c: seq<nat>)
    requires WellFormed(a) && HasValues(a) && NoDuplicates(a.names) && IsCombination(c, a)
    requires SomeCopyAccepts(a, RequestFor(a, c))
    ensures Reachable(a, c)
  {
    var t: nat :| t < Product(Lengths(a)) && Accepts(HeadersAt(a, t), RequestFor(a, c));
    var d := CombinationAt(a, t);
    CombinationIsOne(a, t);
    EmittedIffCompatible(a, d);
    forall k | 0 <= k < |a.values|
      ensures a.values[k][c[k]] == a.values[k][d[k]]
    {
      RequestCarriesChoice(a, c, k);
      assert HeaderHolds(HeadersAt(a, t)[k], RequestFor(a, c));
    }
    assert SameValues(a, c, d);
  }

  // ---- The patched rule as a whole ------------------------------------------------------------------

  /** A request: the paths, methods and queries of matches that it meets, and its headers. */
  datatype Request = Request(meets: iset<string>, headers: RequestHeaders)

  ghost predicate MatchAccepts(m: RouteMatch, request: Request) {
    m.rest in request.meets && Accepts(m.headers, request.headers)
  }

  /** In a Gateway a rule without matches takes every request. */
  ghost predicate RuleAccepts(ms: seq<RouteMatch>, request: Request) {
    ms == [] || exists i :: 0 <= i < |ms| && MatchAccepts(ms[i], request)
  }

  /** What the ingress asks of the rule: the requests of its matches that the annotations allow. */
  ghost predicate RuleAsks(ms: seq<RouteMatch>, a: Annotations, request: Request)
    requires WellFormed(a)
  {
    && (ms == [] || exists i :: 0 <= i < |ms| && ms[i].rest in request.meets)
    && Intended(a, request.headers)
  }

  ghost predicate PatchIsExact(ms: seq<RouteMatch>, a: Annotations, r: seq<RouteMatch>)
    requires WellFormed(a)
  {
    forall request :: RuleAccepts(r, request) <==> RuleAsks(ms, a, request)
  }

  /**
   The rule that the patch leaves takes exactly the requests that its matches and the annotations ask
   for, if and only if: it had matches, every header has a value and all choices of values are
   reachable; or it had none, and there are no annotations.
   */
  lemma {:induction false} PatchIsExactIff(ms: seq<RouteMatch>, a: Annotations, r: seq<RouteMatch>)
    requires WellFormed(a) && NoDuplicates(a.names) && IsPatched(ms, a, r)
    ensures PatchIsExact(ms, a, r) <==>
      if ms == [] then a.names == []
      else HasValues(a) && forall c: seq<nat> :: IsCombination(c, a) ==> Reachable(a, c)
  {
    if HasValues(a) && ms != [] {
      MeaningIsExactIff(a);
      forall request
        ensures RuleAccepts(r, request) <==>
          (exists i :: 0 <= i < |ms| && ms[i].rest in request.meets) && SomeCopyAccepts(a, request.headers)
      {
        RuleAcceptsIff(ms, a, r, request);
      }
      if PatchIsExact(ms, a, r) {
        forall headers
          ensures SomeCopyAccepts(a, headers) <==> Intended(a, headers)
        {
          var request := Request(iset{ms[0].rest}, headers);
          assert ms[0].rest in request.meets;
          assert RuleAccepts(r, request) <==> RuleAsks(ms, a, request);
        }
      }
    } else {
      EmptyPatchIsExactIff(ms, a, r);
    }
  }

  lemma {:induction false} RuleAcceptsIff(ms: seq<RouteMatch>, a: Annotations, r: seq<RouteMatch>, request: Request)
    requires WellFormed(a) && HasValues(a) && ms != [] && IsPatched(ms, a, r)
    ensures RuleAccepts(r, request) <==>
      (exists i :: 0 <= i < |ms| && ms[i].rest in request.meets) && SomeCopyAccepts(a, request.headers)
  {
    var n := Product(Lengths(a));
    ProductPositive(Lengths(a));
    assert Position(0, n, 0) < |r|;
    if RuleAccepts(r, request) {
      var j :| 0 <= j < |r| && MatchAccepts(r[j], request);
      var i, t := BlockOf(j, n, |ms|);
      CopyHasHeaders(ms[i], a, t, r[Position(i, n, t)]);
    }
    if (exists i :: 0 <= i < |ms| && ms[i].rest in request.meets) && SomeCopyAccepts(a, request.headers) {
      var i: nat :| i < |ms| && ms[i].rest in request.meets;
      var t: nat :| t < n && Accepts(HeadersAt(a, t), request.headers);
      CopyHasHeaders(ms[i], a, t, r[Position(i, n, t)]);
      assert MatchAccepts(r[Position(i, n, t)], request);
    }
  }

  lemma {:induction false} CopyHasHeaders(m: RouteMatch, a: Annotations, t: nat, copy: RouteMatch)
    requires WellFormed(a) && HasValues(a) && IsCopy(m, a, t, copy)
    ensures copy.rest == m.rest && copy.headers == HeadersAt(a, t)
  {
  }

  /** Every position is in one of the blocks. */
  lemma {:induction false} BlockOf(j: nat, n: nat, blocks: nat) returns (i: nat, t: nat)
    requires n > 0 && j < blocks * n
    ensures i < blocks && t < n && Position(i, n, t) == j
    decreases blocks
  {
    var b := blocks - 1;
    assert blocks * n == b * n + n by { Distribute(n, b, 1); }
    if j < b * n {
      i, t := BlockOf(j, n, b);
    } else {
      i, t := b, j - b * n;
    }
  }

  /** A rule that has or gets no matches takes everything. */
  lemma {:induction false} EmptyPatchIsExactIff(ms: seq<RouteMatch>, a: Annotations, r: seq<RouteMatch>)
    requires WellFormed(a) && IsPatched(ms, a, r) && (ms == [] || !HasValues(a))
    ensures PatchIsExact(ms, a, r) <==> ms == [] && a.names == []
  {
    ProductPositive(Lengths(a));
    assert r == [];
    var request := Request(iset{}, map[]);
    assert RuleAccepts(r, request);
    if !HasValues(a) {
      var k :| 0 <= k < |Lengths(a)| && Lengths(a)[k] == 0;
      assert a.values[k] == [];
      assert !RuleAsks(ms, a, request);
    } else if a.names != [] {
      assert a.names[0] !in request.headers;
      assert !RuleAsks(ms, a, request);
    }
  }

  // ---- Two findings about the patch as a whole ------------------------------------------------------

  /** A header with no value left (its annotation was only commas) wipes out all matches of the rule,
      which a Gateway then reads as matching every request. */
  lemma {:induction false} NoMatchesIffSomeHeaderHasNoValue(ms: seq<RouteMatch>, a: Annotations)
    requires WellFormed(a) && ms != []
    ensures Patched(ms, a) == [] <==> !HasValues(a)
  {
    ProductPositive(Lengths(a));
    var n := Product(Lengths(a));
    if n > 0 {
      ScaledBound(|ms| + 1, n, |ms|);
      Distribute(n, |ms| - 1, 1);
    } else {
      assert |ms| * n == 0;
    }
  }

  /** The feature patches the whole route once per ingress rule of its group, so the annotations of
      the last one replace everybody else's; the others only multiply the copies. */
  lemma {:induction false} LastPatchWins(ms: seq<RouteMatch>, a: Annotations, b: Annotations, j: nat)
    requires WellFormed(a) && WellFormed(b) && j < |ms| * Product(Lengths(a)) * Product(Lengths(b))
    ensures |Patched(Patched(ms, a), b)| == |ms| * Product(Lengths(a)) * Product(Lengths(b))
    ensures HasValues(b) && Patched(Patched(ms, a), b)[j].headers == HeadersAt(b, j)
  {
    PatchedHeaders(Patched(ms, a), b, j);
  }
}
