/**
 Divisibility, as the rotating indices of Kong's header matching need it.

 The Euclidean algorithm gives Bezout's identity; from that come Euclid's lemma, the least common
 multiple of a list, and the Chinese remainder theorem, first for moduli that are pairwise coprime and
 then for any moduli, where the remainders have to agree modulo the common divisors. Dafny's solver knows
 little about products of two variables, so the small facts about them are lemmas of their own.
 */
module Numbers {

  // ---- Remainders -----------------------------------------------------------------------------

  lemma {:induction false} Distribute(a: int, b: int, c: int)
    ensures a * (b + c) == a * b + a * c && a * (b - c) == a * b - a * c
  {
  }

  lemma {:induction false} Regroup(a: int, b: int, c: int)
    ensures (a * b) * c == a * (b * c) && (a * b) * c == b * (a * c)
  {
  }

  lemma {:induction false} MultipleInRange(d: int, k: int)
    requires d > 0 && -d < d * k < d
    ensures k == 0
  {
    if k > 0 {
      Distribute(d, 1, k - 1);
    } else if k < 0 {
      Distribute(d, -1, k + 1);
    }
  }

  lemma {:induction false} PositiveFactors(x: nat, n: nat)
    requires x * n > 0
    ensures x > 0 && n > 0
  {
  }

  lemma {:induction false} QuotientUnique(n: int, d: int, q: int, r: int)
    requires d > 0 && n == d * q + r && 0 <= r < d
    ensures n / d == q && n % d == r
  {
    Distribute(d, q, n / d);
    MultipleInRange(d, q - n / d);
  }

  lemma {:induction false} MulModZero(d: int, k: int)
    requires d > 0
    ensures (d * k) % d == 0
  {
    QuotientUnique(d * k, d, k, 0);
  }

  lemma {:induction false} SmallMultipleIsZero(m: int, d: int)
    requires 0 < m
    requires -m < d < m && d % m == 0
    ensures d == 0
  {
    MultipleInRange(m, d / m);
  }

  lemma {:induction false} MinusRemainder(t: int, m: nat)
    requires m > 0
    ensures (t - t % m) % m == 0
  {
    MulModZero(m, t / m);
  }

  /** Equal remainders are the same thing as a difference that divides. */
  lemma {:induction false} SameRemainder(x: int, y: int, d: int)
    requires d > 0
    ensures x % d == y % d <==> (x - y) % d == 0
  {
    var qx, qy := x / d, y / d;
    assert x == d * qx + x % d && y == d * qy + y % d;
    if x % d == y % d {
      assert x - y == d * (qx - qy);
      MulModZero(d, qx - qy);
    }
    if (x - y) % d == 0 {
      var q := (x - y) / d;
      assert x == d * (q + qy) + y % d;
      QuotientUnique(x, d, q + qy, y % d);
    }
  }

  lemma {:induction false} DividesSum(d: int, x: int, y: int)
    requires d > 0 && x % d == 0 && y % d == 0
    ensures (x + y) % d == 0 && (x - y) % d == 0
  {
    assert x + y == d * (x / d + y / d) && x - y == d * (x / d - y / d);
    MulModZero(d, x / d + y / d);
    MulModZero(d, x / d - y / d);
  }

  lemma {:induction false} DividesMultiple(d: int, x: int, k: int)
    requires d > 0 && x % d == 0
    ensures (x * k) % d == 0 && (k * x) % d == 0
  {
    assert x * k == d * ((x / d) * k) && k * x == x * k;
    MulModZero(d, (x / d) * k);
  }

  lemma {:induction false} DividesTransitive(d: int, e: int, x: int)
    requires d > 0 && e > 0 && e % d == 0 && x % e == 0
    ensures x % d == 0
  {
    assert x == e * (x / e);
    DividesMultiple(d, e, x / e);
  }

  lemma {:induction false} NextRemainder(j: nat, n: nat)
    requires n > 0
    ensures (j + 1) % n == if j % n + 1 >= n then 0 else j % n + 1
  {
    if j % n + 1 >= n {
      QuotientUnique(j + 1, n, j / n + 1, 0);
    } else {
      QuotientUnique(j + 1, n, j / n, j % n + 1);
    }
  }

  // ---- Greatest common divisors -----------------------------------------------------------------

  function Gcd(a: nat, b: nat): nat
    decreases b
  {
    if b == 0 then a else Gcd(b, a % b)
  }

  lemma {:induction false} GcdDivides(a: nat, b: nat)
    requires a > 0 || b > 0
    ensures Gcd(a, b) > 0 && a % Gcd(a, b) == 0 && b % Gcd(a, b) == 0
    decreases b
  {
    if b != 0 {
      GcdDivides(b, a % b);
      var g := Gcd(a, b);
      assert a == b * (a / b) + a % b;
      DividesMultiple(g, b, a / b);
      DividesSum(g, b * (a / b), a % b);
    }
  }

  lemma {:induction false} Bezout(a: nat, b: nat) returns (x: int, y: int)
    ensures x * a + y * b == Gcd(a, b)
    decreases b
  {
    if b == 0 {
      return 1, 0;
    }
    var x', y' := Bezout(b, a % b);
    x, y := y', x' - y' * (a / b);
    BezoutStep(b, a / b, a % b, x', y');
  }

  lemma {:induction false} BezoutStep(b: int, q: int, r: int, x: int, y: int)
    ensures y * (b * q + r) + (x - y * q) * b == x * b + y * r
  {
    Distribute(y, b * q, r);
    Distribute(b, x, y * q);
    Regroup(y, q, b);
    assert q * b == b * q;
  }

  predicate Coprime(a: nat, b: nat) {
    Gcd(a, b) == 1
  }

  /** A combination that gives 1 is a certificate of coprimality. */
  lemma {:induction false} CombinationIsCoprime(a: nat, b: nat, x: int, y: int)
    requires a > 0 && b > 0 && x * a + y * b == 1
    ensures Coprime(a, b)
  {
    GcdDivides(a, b);
    var g := Gcd(a, b);
    DividesMultiple(g, a, x);
    DividesMultiple(g, b, y);
    DividesSum(g, x * a, y * b);
  }

  lemma {:induction false} Combine(x: int, a: int, y: int, b: int, q: int)
    requires x * a + y * b == 1
    ensures q == a * (x * q) + (b * q) * y
  {
    Distribute(q, x * a, y * b);
    Regroup(a, x, q);
    Regroup(b, q, y);
  }

  /** Euclid's lemma: a divisor of `a` and of `b * q` divides `q`, when `a` and `b` are coprime. */
  lemma {:induction false} Euclid(g: nat, a: nat, b: nat, q: int)
    requires g > 0 && a % g == 0 && (b * q) % g == 0 && Coprime(a, b)
    ensures q % g == 0
  {
    var x, y := Bezout(a, b);
    Combine(x, a, y, b, q);
    DividesMultiple(g, a, x * q);
    DividesMultiple(g, b * q, y);
    DividesSum(g, a * (x * q), (b * q) * y);
  }

  lemma {:induction false} CoprimeProduct(a: nat, b: nat, c: nat)
    requires a > 0 && b > 0 && c > 0 && Coprime(a, b) && Coprime(a, c)
    ensures b * c > 0 && Coprime(a, b * c)
  {
    assert b * c > 0;
    GcdDivides(a, b * c);
    var g := Gcd(a, b * c);
    Euclid(g, a, b, c);
    Euclid(g, a, c, 1);
  }

  // ---- Least common multiples -------------------------------------------------------------------

  function Lcm(a: nat, b: nat): nat
    requires a > 0 && b > 0
  {
    GcdDivides(a, b);
    (a / Gcd(a, b)) * b
  }

  lemma {:induction false} PositiveProduct(a: int, b: int)
    requires a > 0 && b > 0
    ensures a * b > 0
  {
  }

  lemma {:induction false} SharedMultiple(a: nat, b: nat, g: nat, a': nat, b': nat)
    requires a > 0 && b > 0 && a == g * a' && b == g * b' && a' > 0
    ensures a' * b > 0 && (a' * b) % a == 0 && (a' * b) % b == 0
  {
    PositiveProduct(a', b);
    MulModZero(b, a');
    Regroup(a', g, b');
    assert a' * b == a * b' by { assert a' * g == g * a'; }
    MulModZero(a, b');
  }

  lemma {:induction false} LcmIsMultiple(a: nat, b: nat)
    requires a > 0 && b > 0
    ensures Lcm(a, b) > 0 && Lcm(a, b) % a == 0 && Lcm(a, b) % b == 0
  {
    var a', b' := ReducedAreCoprime(a, b);
    SharedMultiple(a, b, Gcd(a, b), a', b');
  }

  /** The multiples of `Lcm(a, b)` are exactly the common multiples of `a` and `b`. */
  lemma {:induction false} LcmDivides(a: nat, b: nat, d: int)
    requires a > 0 && b > 0
    ensures Lcm(a, b) > 0
    ensures d % Lcm(a, b) == 0 <==> d % a == 0 && d % b == 0
  {
    LcmIsMultiple(a, b);
    if d % Lcm(a, b) == 0 {
      DividesTransitive(a, Lcm(a, b), d);
      DividesTransitive(b, Lcm(a, b), d);
    }
    if d % a == 0 && d % b == 0 {
      CommonMultiple(a, b, d);
    }
  }

  lemma {:induction false} CommonMultiple(a: nat, b: nat, d: int)
    requires a > 0 && b > 0 && d % a == 0 && d % b == 0
    ensures Lcm(a, b) > 0 && d % Lcm(a, b) == 0
  {
    var a', b' := ReducedAreCoprime(a, b);
    var q := d / b;
    assert q % a' == 0 by {
      SharedFactor(Gcd(a, b), a', b', d / a, q);
    }
    var k := q / a';
    assert d == b * (a' * k);
    LiftMultiple(a', b, k);
  }

  lemma {:induction false} SharedFactor(g: nat, a: nat, b: nat, p: int, q: int)
    requires g > 0 && a > 0 && Coprime(a, b) && (g * a) * p == (g * b) * q
    ensures q % a == 0
  {
    CrossMultiples(g, a, b, p, q);
    MulModZero(a, p);
    Euclid(a, a, b, q);
  }

  lemma {:induction false} LiftMultiple(a: nat, b: nat, k: int)
    requires a > 0 && b > 0
    ensures a * b > 0 && (b * (a * k)) % (a * b) == 0
  {
    assert a * b > 0;
    Regroup(a, b, k);
    MulModZero(a * b, k);
  }

  lemma {:induction false} CrossMultiples(g: nat, a: nat, b: nat, p: int, q: int)
    requires g > 0 && (g * a) * p == (g * b) * q
    ensures a * p == b * q
  {
    Regroup(g, a, p);
    Regroup(g, b, q);
    CancelFactor(g, a * p, b * q);
  }

  lemma {:induction false} ReducedAreCoprime(a: nat, b: nat) returns (a': nat, b': nat)
    requires a > 0 && b > 0
    ensures Gcd(a, b) > 0 && a' > 0 && b' > 0 && a' == a / Gcd(a, b)
    ensures a == Gcd(a, b) * a' && b == Gcd(a, b) * b'
    ensures Coprime(a', b')
  {
    GcdDivides(a, b);
    var g := Gcd(a, b);
    a', b' := a / g, b / g;
    var x, y := Bezout(a, b);
    ReducedCombination(g, a', b', x, y);
    CombinationIsCoprime(a', b', x, y);
  }

  lemma {:induction false} ReducedCombination(g: nat, a: nat, b: nat, x: int, y: int)
    requires g > 0 && x * (g * a) + y * (g * b) == g
    ensures x * a + y * b == 1
  {
    Regroup(x, g, a);
    Regroup(g, x, a);
    Regroup(g, y, b);
    Regroup(y, g, b);
    Distribute(g, x * a, y * b);
    CancelFactor(g, x * a + y * b, 1);
  }

  lemma {:induction false} CancelFactor(g: int, x: int, y: int)
    requires g > 0 && g * x == g * y
    ensures x == y
  {
    assert g * (x - y) == 0;
  }

  // ---- Lists ----------------------------------------------------------------------------------

  ghost predicate AllPositive(ls: seq<nat>) {
    forall k :: 0 <= k < |ls| ==> ls[k] > 0
  }

  ghost predicate PairwiseCoprime(ls: seq<nat>) {
    forall i, j :: 0 <= i < j < |ls| ==> Coprime(ls[i], ls[j])
  }

  function Product(ls: seq<nat>): nat {
    if ls == [] then 1 else ls[0] * Product(ls[1..])
  }

  ghost function LcmAll(ls: seq<nat>): (m: nat)
    requires AllPositive(ls)
    ensures m > 0
  {
    if ls == [] then 1
    else
      LcmDivides(ls[0], LcmAll(ls[1..]), 0);
      Lcm(ls[0], LcmAll(ls[1..]))
  }

  ghost predicate DividedByAll(d: int, ls: seq<nat>)
    requires AllPositive(ls)
  {
    forall k :: 0 <= k < |ls| ==> d % ls[k] == 0
  }

  lemma {:induction false} LcmAllDivides(ls: seq<nat>, d: int)
    requires AllPositive(ls)
    ensures d % LcmAll(ls) == 0 <==> DividedByAll(d, ls)
  {
    if ls != [] {
      LcmAllDivides(ls[1..], d);
      LcmDivides(ls[0], LcmAll(ls[1..]), d);
      assert forall k :: 0 <= k < |ls| ==> ls[k] == if k == 0 then ls[0] else ls[1..][k - 1];
      if DividedByAll(d, ls) {
        assert forall k :: 0 <= k < |ls[1..]| ==> d % ls[1..][k] == 0;
      }
    }
  }

  lemma {:induction false} ProductPositive(ls: seq<nat>)
    ensures Product(ls) > 0 <==> AllPositive(ls)
  {
    if ls != [] {
      ProductPositive(ls[1..]);
      if AllPositive(ls) {
        assert AllPositive(ls[1..]);
        assert ls[0] * Product(ls[1..]) > 0;
      } else if ls[0] > 0 {
        var k :| 0 <= k < |ls| && ls[k] == 0;
        assert ls[1..][k - 1] == 0;
        assert ls[0] * Product(ls[1..]) == 0;
      }
    }
  }

  lemma {:induction false} EachDividesProduct(ls: seq<nat>)
    requires AllPositive(ls)
    ensures Product(ls) > 0 && DividedByAll(Product(ls), ls)
  {
    ProductPositive(ls);
    if ls != [] {
      EachDividesProduct(ls[1..]);
      MulModZero(ls[0], Product(ls[1..]));
      forall k | 0 < k < |ls|
        ensures Product(ls) % ls[k] == 0
      {
        assert Product(ls[1..]) % ls[1..][k - 1] == 0;
        DividesMultiple(ls[k], Product(ls[1..]), ls[0]);
      }
    }
  }

  lemma {:induction false} CoprimeToProduct(a: nat, ls: seq<nat>)
    requires a > 0 && AllPositive(ls)
    requires forall k :: 0 <= k < |ls| ==> Coprime(a, ls[k])
    ensures Product(ls) > 0 && Coprime(a, Product(ls))
    decreases |ls|
  {
    ProductPositive(ls);
    if ls == [] {
      CombinationIsCoprime(a, 1, 0, 1);
    } else {
      CoprimeToProduct(a, ls[1..]);
      CoprimeProduct(a, ls[0], Product(ls[1..]));
    }
  }

  lemma {:induction false} LcmOfCoprimes(ls: seq<nat>)
    requires AllPositive(ls) && PairwiseCoprime(ls)
    ensures LcmAll(ls) == Product(ls)
  {
    if ls != [] {
      LcmOfCoprimes(ls[1..]);
      CoprimeToProduct(ls[0], ls[1..]);
      assert ls[0] / 1 == ls[0];
    }
  }

  // ---- The Chinese remainder theorem ------------------------------------------------------------

  /** Residues that agree modulo the common divisors of their moduli. */
  ghost predicate Compatible(cs: seq<nat>, ls: seq<nat>)
    requires AllPositive(ls) && |cs| == |ls|
  {
    forall i, j :: 0 <= i < j < |ls| ==> SameModGcd(cs[i], cs[j], ls[i], ls[j])
  }

  predicate SameModGcd(c: int, d: int, a: nat, b: nat)
    requires a > 0 && b > 0
  {
    GcdDivides(a, b);
    (c - d) % Gcd(a, b) == 0
  }

  lemma {:induction false} RemaindersAgree(t: nat, a: nat, b: nat)
    requires a > 0 && b > 0
    ensures SameModGcd(t % a, t % b, a, b)
  {
    var g := Gcd(a, b);
    GcdDivides(a, b);
    MinusRemainder(t, a);
    MinusRemainder(t, b);
    DividesTransitive(g, a, t - t % a);
    DividesTransitive(g, b, t - t % b);
    DividesSum(g, t - t % b, t - t % a);
  }

  lemma {:induction false} DividesGcd(d: nat, a: nat, b: nat)
    requires d > 0 && (a > 0 || b > 0) && a % d == 0 && b % d == 0
    ensures Gcd(a, b) % d == 0
  {
    var x, y := Bezout(a, b);
    DividesMultiple(d, a, x);
    DividesMultiple(d, b, y);
    DividesSum(d, x * a, y * b);
  }

  lemma {:induction false} DividesCombination(d: int, x: int, y: int, i: int, j: int)
    requires d > 0 && x % d == 0 && y % d == 0
    ensures (i * x + j * y) % d == 0
  {
    DividesMultiple(d, x, i);
    DividesMultiple(d, y, j);
    DividesSum(d, i * x, j * y);
  }

  lemma {:induction false} Expand(k: int, p: int, d: int, q: int, b: int, t: int)
    ensures k * ((p * d + q * b) * t) == (k * t * p) * d + (t * q) * (k * b)
  {
  }

  lemma {:induction false} Halves(u: int, a: int, v: int, b: int, x: int)
    requires u * a + v * b == 1
    ensures u * (a * x) + v * (b * x) == x
  {
    assert u * (a * x) + v * (b * x) == (u * a + v * b) * x;
  }

  /** If `k * b` is a multiple of `d`, a multiple of the common part of `d` and `b` is one when taken `k` times. */
  lemma {:induction false} HalfSplit(d: nat, b: nat, x: int, k: int)
    requires d > 0 && b > 0 && (k * b) % d == 0 && Gcd(d, b) > 0 && x % Gcd(d, b) == 0
    ensures (k * x) % d == 0
  {
    var p, q := Bezout(d, b);
    var t := x / Gcd(d, b);
    Expand(k, p, d, q, b, t);
    DividesItself(d);
    DividesCombination(d, d, k * b, k * t * p, t * q);
    assert x == Gcd(d, b) * t;
  }

  lemma {:induction false} DividesItself(d: int)
    requires d > 0
    ensures d % d == 0
  {
    MulModZero(d, 1);
  }

  lemma {:induction false} CrossProducts(a: int, b: int, g: int, a': int, b': int)
    requires a == g * a' && b == g * b'
    ensures a' * b == b' * a
  {
    assert a' * (g * b') == b' * (g * a');
  }

  /** A divisor of the least common multiple is made of its common parts with either side. */
  lemma {:induction false} LcmSplit(d: nat, a: nat, b: nat, x: int)
    requires d > 0 && a > 0 && b > 0 && Lcm(a, b) % d == 0
    requires Gcd(d, a) > 0 && x % Gcd(d, a) == 0 && Gcd(d, b) > 0 && x % Gcd(d, b) == 0
    ensures x % d == 0
  {
    var a', b' := ReducedAreCoprime(a, b);
    CrossProducts(a, b, Gcd(a, b), a', b');
    JoinHalves(d, a, b, a', b', x);
  }

  lemma {:induction false} JoinHalves(d: nat, a: nat, b: nat, a': nat, b': nat, x: int)
    requires d > 0 && a > 0 && b > 0 && Coprime(a', b') && a' * b == b' * a && (a' * b) % d == 0
    requires Gcd(d, a) > 0 && x % Gcd(d, a) == 0 && Gcd(d, b) > 0 && x % Gcd(d, b) == 0
    ensures x % d == 0
  {
    HalfSplit(d, b, x, a');
    HalfSplit(d, a, x, b');
    var u, v := Bezout(a', b');
    DividesCombination(d, a' * x, b' * x, u, v);
    Halves(u, a', v, b', x);
  }

  /** A multiple of what `a` has in common with each of the list. */
  ghost predicate MultipleOfCommon(x: int, a: nat, ls: seq<nat>)
    requires a > 0 && AllPositive(ls)
  {
    forall k :: 0 <= k < |ls| ==> SameModGcd(x, 0, a, ls[k])
  }

  lemma {:induction false} SplitOverAll(d: nat, a: nat, ls: seq<nat>, x: int)
    requires d > 0 && a > 0 && AllPositive(ls) && a % d == 0 && LcmAll(ls) % d == 0
    requires MultipleOfCommon(x, a, ls)
    ensures x % d == 0
    decreases |ls|
  {
    if ls == [] {
      SmallDivisor(d);
    } else {
      var m := LcmAll(ls[1..]);
      CommonPart(d, m, a);
      SplitOverAll(Gcd(d, m), a, ls[1..], x);
      SplitFirst(d, a, ls[0], m, x);
    }
  }

  lemma {:induction false} CommonPart(d: nat, m: nat, a: nat)
    requires d > 0 && a % d == 0
    ensures Gcd(d, m) > 0 && d % Gcd(d, m) == 0 && m % Gcd(d, m) == 0 && a % Gcd(d, m) == 0
  {
    GcdDivides(d, m);
    DividesTransitive(Gcd(d, m), d, a);
  }

  lemma {:induction false} SplitFirst(d: nat, a: nat, b: nat, m: nat, x: int)
    requires d > 0 && a > 0 && b > 0 && m > 0 && a % d == 0 && Lcm(b, m) % d == 0
    requires SameModGcd(x, 0, a, b) && Gcd(d, m) > 0 && x % Gcd(d, m) == 0
    ensures x % d == 0
  {
    CommonPart(d, b, a);
    GcdDivides(a, b);
    DividesGcd(Gcd(d, b), a, b);
    DividesTransitive(Gcd(d, b), Gcd(a, b), x);
    LcmSplit(d, b, m, x);
  }

  lemma {:induction false} SmallDivisor(d: nat)
    requires d > 0 && 1 % d == 0
    ensures d == 1
  {
  }

  /** The Chinese remainder theorem for any moduli: compatible residues have a common number. */
  lemma {:induction false} GeneralRemainder(ls: seq<nat>, cs: seq<nat>) returns (t: nat)
    requires AllPositive(ls) && |cs| == |ls| && Compatible(cs, ls)
    requires forall k :: 0 <= k < |ls| ==> cs[k] < ls[k]
    ensures forall k :: 0 <= k < |ls| ==> t % ls[k] == cs[k]
  {
    if ls == [] {
      return 0;
    }
    var a, m := ls[0], LcmAll(ls[1..]);
    var t0 := GeneralRemainder(ls[1..], cs[1..]);
    MeetsFirst(ls, cs, t0);
    t := Solve(a, m, t0, cs[0]);
    LcmAllDivides(ls[1..], t - t0);
    forall k | 0 < k < |ls|
      ensures t % ls[k] == cs[k]
    {
      assert (t - t0) % ls[1..][k - 1] == 0 && t0 % ls[1..][k - 1] == cs[1..][k - 1];
      SameRemainder(t, t0, ls[k]);
    }
  }

  lemma {:induction false} MeetsFirst(ls: seq<nat>, cs: seq<nat>, t0: nat)
    requires ls != [] && AllPositive(ls) && |cs| == |ls| && Compatible(cs, ls)
    requires forall k :: 0 < k < |ls| ==> t0 % ls[k] == cs[k] < ls[k]
    ensures SameModGcd(t0, cs[0], ls[0], LcmAll(ls[1..]))
  {
    var a, m := ls[0], LcmAll(ls[1..]);
    GcdDivides(a, m);
    forall k | 0 <= k < |ls[1..]|
      ensures SameModGcd(t0 - cs[0], 0, a, ls[1..][k])
    {
      MeetsOne(a, ls[k + 1], t0, cs[0], cs[k + 1]);
    }
    assert MultipleOfCommon(t0 - cs[0], a, ls[1..]);
    SplitOverAll(Gcd(a, m), a, ls[1..], t0 - cs[0]);
  }

  lemma {:induction false} MeetsOne(a: nat, b: nat, t: nat, c: int, e: int)
    requires a > 0 && b > 0 && t % b == e && SameModGcd(c, e, a, b)
    ensures SameModGcd(t - c, 0, a, b)
  {
    GcdDivides(a, b);
    MinusRemainder(t, b);
    DividesTransitive(Gcd(a, b), b, t - e);
    DividesSum(Gcd(a, b), t - e, c - e);
  }

  /** One step of it: a number that differs from `t0` by a multiple of `m` and is `c` modulo `a`. */
  lemma {:induction false} Solve(a: nat, m: nat, t0: nat, c: nat) returns (t: nat)
    requires a > 0 && m > 0 && c < a && SameModGcd(t0, c, a, m)
    ensures t % a == c && (t - t0) % m == 0
  {
    var g := Gcd(a, m);
    GcdDivides(a, m);
    var e := (c - t0) / g;
    DividesSum(g, 0, t0 - c);
    var s := Scale(a, m, e);
    t := t0 + m * s;
    MulModZero(m, s);
    Land(a, m * s, t0, c, g * e);
  }

  lemma {:induction false} Land(a: nat, step: nat, t0: nat, c: nat, e: int)
    requires a > 0 && c < a && (step - e) % a == 0 && e == c - t0
    ensures (t0 + step) % a == c
  {
    SameRemainder(t0 + step, c, a);
    QuotientUnique(c, a, 0, c);
  }

  lemma {:induction false} Scale(a: nat, m: nat, e: int) returns (s: nat)
    requires a > 0 && m > 0
    ensures (m * s - Gcd(a, m) * e) % a == 0
  {
    var x, y := Bezout(a, m);
    s := (y * e) % a;
    MinusRemainder(y * e, a);
    DividesItself(a);
    Shift(a, m, x, y, e, s);
    DividesCombination(a, y * e - s, a, 0 - m, 0 - x * e);
  }

  lemma {:induction false} Shift(a: int, m: int, x: int, y: int, e: int, s: int)
    ensures (0 - m) * (y * e - s) + (0 - x * e) * a == m * s - (x * a + y * m) * e
  {
  }

  /** The usual form: pairwise coprime moduli, any residues. */
  lemma {:induction false} ChineseRemainder(ls: seq<nat>, cs: seq<nat>) returns (t: nat)
    requires AllPositive(ls) && PairwiseCoprime(ls)
    requires |cs| == |ls| && forall k :: 0 <= k < |ls| ==> cs[k] < ls[k]
    ensures t < Product(ls)
    ensures forall k :: 0 <= k < |ls| ==> t % ls[k] == cs[k]
  {
    var u := GeneralRemainder(ls, cs);
    t := BelowProduct(ls, u);
  }

  lemma {:induction false} BelowProduct(ls: seq<nat>, u: nat) returns (t: nat)
    requires AllPositive(ls)
    ensures t < Product(ls)
    ensures forall k :: 0 <= k < |ls| ==> t % ls[k] == u % ls[k]
  {
    EachDividesProduct(ls);
    t := u % Product(ls);
    MinusRemainder(u, Product(ls));
    forall k | 0 <= k < |ls|
      ensures t % ls[k] == u % ls[k]
    {
      DividesTransitive(ls[k], Product(ls), u - t);
      SameRemainder(u, t, ls[k]);
    }
  }

  lemma {:induction false} ScaledBound(a: nat, m: nat, s: nat)
    requires s < a
    ensures 0 <= m * s <= a * m - m
    decreases a
  {
    if s + 1 < a {
      ScaledBound(a - 1, m, s);
    }
    assert a * m == (a - 1) * m + m;
  }
}
