/**
 Grouping a list by a key, as the converters do with a Go map from keys to slices: what each group
 holds, in which order keys first occur, and that no order of the keys loses or repeats anything.
 */
module Grouping {

  /** The elements with key `k`, in their order. */
  function OfKey<K(==), V>(xs: seq<V>, key: V -> K, k: K): seq<V> {
    if xs == [] then []
    else
      var n := |xs| - 1;
      if key(xs[n]) == k then OfKey(xs[..n], key, k) + [xs[n]] else OfKey(xs[..n], key, k)
  }

  /** The keys in order of first occurrence. */
  function FirstKeys<K(==), V>(xs: seq<V>, key: V -> K): seq<K> {
    if xs == [] then []
    else
      var n := |xs| - 1;
      var ks := FirstKeys(xs[..n], key);
      if key(xs[n]) in ks then ks else ks + [key(xs[n])]
  }

  ghost predicate NoDuplicates<T>(s: seq<T>) {
    forall i, j :: 0 <= i < j < |s| ==> s[i] != s[j]
  }

  lemma {:induction false} NoDuplicatesAppend<T>(s: seq<T>, x: T)
    ensures NoDuplicates(s + [x]) <==> NoDuplicates(s) && x !in s
  {
    var t := s + [x];
    assert forall i :: 0 <= i < |s| ==> t[i] == s[i];
    if NoDuplicates(t) {
      assert forall i :: 0 <= i < |s| ==> t[i] != t[|s|];
    }
  }

  /** Lists without duplicates and with the same elements are permutations of each other. */
  lemma {:induction false} SameElementsSameLength<T>(a: seq<T>, b: seq<T>)
    requires NoDuplicates(a) && NoDuplicates(b) && forall x :: x in a <==> x in b
    ensures multiset(a) == multiset(b) && |a| == |b|
  {
    assert multiset(a) == multiset(b) by {
      forall x: T
        ensures multiset(a)[x] == multiset(b)[x]
      {
        CountOfDistinct(a, x);
        CountOfDistinct(b, x);
      }
    }
    assert |multiset(a)| == |multiset(b)|;
  }

  lemma {:induction false} CountOfDistinct<T>(s: seq<T>, x: T)
    requires NoDuplicates(s)
    ensures multiset(s)[x] == if x in s then 1 else 0
  {
    if s != [] {
      CountOfDistinct(s[..|s| - 1], x);
      assert s == s[..|s| - 1] + [s[|s| - 1]];
    }
  }

  lemma {:induction false} PermutationHasNoDuplicates<T>(a: seq<T>, b: seq<T>)
    requires NoDuplicates(a) && multiset(a) == multiset(b)
    ensures NoDuplicates(b)
  {
    forall i, j | 0 <= i < j < |b|
      ensures b[i] != b[j]
    {
      CountOfDistinct(a, b[i]);
      assert b == b[..i] + [b[i]] + b[i + 1..j] + [b[j]] + b[j + 1..];
      assert b[i] == b[j] ==> multiset(b)[b[i]] >= 2;
    }
  }

  lemma {:induction false} OfKeyGrows<K, V>(xs: seq<V>, x: V, key: V -> K, k: K)
    ensures OfKey(xs + [x], key, k) == if key(x) == k then OfKey(xs, key, k) + [x] else OfKey(xs, key, k)
    ensures var ks := FirstKeys(xs, key); FirstKeys(xs + [x], key) == if key(x) in ks then ks else ks + [key(x)]
  {
    assert (xs + [x])[..|xs|] == xs;
  }

  lemma {:induction false} OfKeyIs<K, V>(xs: seq<V>, key: V -> K, k: K)
    ensures forall x :: x in OfKey(xs, key, k) <==> x in xs && key(x) == k
    ensures OfKey(xs, key, k) != [] <==> k in FirstKeys(xs, key)
  {
    if xs != [] {
      var n := |xs| - 1;
      OfKeyIs(xs[..n], key, k);
      assert xs == xs[..n] + [xs[n]];
    }
  }

  lemma {:induction false} FirstKeysAreDistinct<K, V>(xs: seq<V>, key: V -> K)
    ensures NoDuplicates(FirstKeys(xs, key))
    ensures forall k :: k in FirstKeys(xs, key) <==> exists x :: x in xs && key(x) == k
  {
    if xs != [] {
      var n := |xs| - 1;
      FirstKeysAreDistinct(xs[..n], key);
      assert xs == xs[..n] + [xs[n]];
    }
  }

  lemma {:induction false} FirstKeysMonotone<K, V>(xs: seq<V>, i: nat, key: V -> K)
    requires i <= |xs|
    ensures FirstKeys(xs[..i], key) <= FirstKeys(xs, key)
  {
    if i == |xs| {
      assert xs[..i] == xs;
    } else {
      var n := |xs| - 1;
      assert xs[..n][..i] == xs[..i];
      FirstKeysMonotone(xs[..n], i, key);
    }
  }

  /** The groups of the keys `ks`, one after the other. */
  function Flatten<K(==), V>(xs: seq<V>, key: V -> K, ks: seq<K>): seq<V> {
    if ks == [] then [] else Flatten(xs, key, ks[..|ks| - 1]) + OfKey(xs, key, ks[|ks| - 1])
  }

  lemma {:induction false} FlattenSplits<K, V>(xs: seq<V>, key: V -> K, ks: seq<K>)
    requires ks != []
    ensures var n := |ks| - 1;
      multiset(Flatten(xs, key, ks)) == multiset(Flatten(xs, key, ks[..n])) + multiset(OfKey(xs, key, ks[n]))
  {
  }

  lemma {:induction false} LastIsNew<K>(ks: seq<K>, k: K)
    requires NoDuplicates(ks) && ks != []
    ensures var n := |ks| - 1; NoDuplicates(ks[..n]) && (k in ks <==> k in ks[..n] || k == ks[n])
    ensures ks[|ks| - 1] !in ks[..|ks| - 1]
  {
    var n := |ks| - 1;
    assert ks == ks[..n] + [ks[n]];
    NoDuplicatesAppend(ks[..n], ks[n]);
  }

  /** A new element enters the groups once, if its key is among those taken. */
  lemma {:induction false} FlattenGrows<K, V>(xs: seq<V>, x: V, key: V -> K, ks: seq<K>)
    requires NoDuplicates(ks)
    ensures multiset(Flatten(xs + [x], key, ks))
         == multiset(Flatten(xs, key, ks)) + if key(x) in ks then multiset{x} else multiset{}
    decreases |ks|
  {
    if ks != [] {
      var n := |ks| - 1;
      FlattenGrows(xs, x, key, ks[..n]);
      OfKeyGrows(xs, x, key, ks[n]);
      FlattenSplits(xs, key, ks);
      FlattenSplits(xs + [x], key, ks);
      LastIsNew(ks, key(x));
    }
  }

  lemma {:induction false} FlattenNothing<K, V>(key: V -> K, ks: seq<K>)
    ensures Flatten([], key, ks) == []
    decreases |ks|
  {
    if ks != [] {
      FlattenNothing(key, ks[..|ks| - 1]);
    }
  }

  /** Grouping conserves: the groups of all keys, in any order, are a permutation of the list. */
  lemma {:induction false} FlattenIsPermutation<K, V>(xs: seq<V>, key: V -> K, ks: seq<K>)
    requires NoDuplicates(ks) && forall x :: x in xs ==> key(x) in ks
    ensures multiset(Flatten(xs, key, ks)) == multiset(xs)
  {
    if xs == [] {
      FlattenNothing(key, ks);
    } else {
      var n := |xs| - 1;
      assert xs == xs[..n] + [xs[n]];
      FlattenIsPermutation(xs[..n], key, ks);
      FlattenGrows(xs[..n], xs[n], key, ks);
    }
  }

  /** Two keys that tell the same elements apart make the same groups. */
  lemma {:induction false} SameKernelSameGroups<K, L, V>(xs: seq<V>, key: V -> K, key': V -> L, x: V)
    requires forall y :: y in xs ==> (key(y) == key(x) <==> key'(y) == key'(x))
    ensures OfKey(xs, key, key(x)) == OfKey(xs, key', key'(x))
  {
    if xs != [] {
      SameKernelSameGroups(xs[..|xs| - 1], key, key', x);
    }
  }

  function Map<A, B>(xs: seq<A>, f: A -> B): (r: seq<B>)
    ensures |r| == |xs| && forall i :: 0 <= i < |xs| ==> r[i] == f(xs[i])
  {
    seq(|xs|, i requires 0 <= i < |xs| => f(xs[i]))
  }

  lemma {:induction false} MapAppend<A, B>(xs: seq<A>, ys: seq<A>, f: A -> B)
    ensures Map(xs + ys, f) == Map(xs, f) + Map(ys, f)
  {
  }

  function Without<A>(xs: seq<A>, k: nat): (r: seq<A>)
    requires k < |xs|
    ensures |r| == |xs| - 1
  {
    xs[..k] + xs[k + 1..]
  }

  lemma {:induction false} WithoutOne<A>(xs: seq<A>, k: nat)
    requires k < |xs|
    ensures multiset(xs) == multiset(Without(xs, k)) + multiset{xs[k]}
    ensures multiset(Without(xs, k)) == multiset(xs) - multiset{xs[k]}
  {
    assert xs == xs[..k] + [xs[k]] + xs[k + 1..];
  }

  lemma {:induction false} MapWithout<A, B>(xs: seq<A>, k: nat, f: A -> B)
    requires k < |xs|
    ensures Map(Without(xs, k), f) == Without(Map(xs, f), k)
  {
  }

  /** A permutation of the arguments is a permutation of the values. */
  lemma {:induction false} MapOfPermutation<A, B>(xs: seq<A>, ys: seq<A>, f: A -> B)
    requires multiset(xs) == multiset(ys)
    ensures multiset(Map(xs, f)) == multiset(Map(ys, f))
  {
    if xs == [] {
      assert |multiset(ys)| == 0;
    } else {
      assert xs[0] in multiset(ys);
      var k :| 0 <= k < |ys| && ys[k] == xs[0];
      WithoutOne(xs, 0);
      WithoutOne(ys, k);
      MapOfPermutation(Without(xs, 0), Without(ys, k), f);
      MapWithout(xs, 0, f);
      MapWithout(ys, k, f);
      WithoutOne(Map(xs, f), 0);
      WithoutOne(Map(ys, f), k);
    }
  }

  function FlatMap<A, B>(xs: seq<A>, f: A -> seq<B>): seq<B> {
    if xs == [] then [] else FlatMap(xs[..|xs| - 1], f) + f(xs[|xs| - 1])
  }

  lemma {:induction false} FlatMapAppend<A, B>(xs: seq<A>, ys: seq<A>, f: A -> seq<B>)
    ensures FlatMap(xs + ys, f) == FlatMap(xs, f) + FlatMap(ys, f)
    decreases |ys|
  {
    if ys == [] {
      assert xs + ys == xs;
    } else {
      var n := |ys| - 1;
      FlatMapAppend(xs, ys[..n], f);
      assert (xs + ys)[..|xs + ys| - 1] == xs + ys[..n];
    }
  }

  lemma {:induction false} FlatMapAround<A, B>(a: seq<A>, x: A, b: seq<A>, f: A -> seq<B>)
    ensures FlatMap(a + [x] + b, f) == FlatMap(a, f) + f(x) + FlatMap(b, f)
  {
    FlatMapAppend(a + [x], b, f);
    assert (a + [x])[..|a|] == a;
  }

  lemma {:induction false} FlatMapWithout<A, B>(xs: seq<A>, k: nat, f: A -> seq<B>)
    requires k < |xs|
    ensures multiset(FlatMap(xs, f)) == multiset(FlatMap(Without(xs, k), f)) + multiset(f(xs[k]))
  {
    var a, b := xs[..k], xs[k + 1..];
    assert xs == a + [xs[k]] + b;
    FlatMapAround(a, xs[k], b, f);
    FlatMapAppend(a, b, f);
    var before, here, after := FlatMap(a, f), f(xs[k]), FlatMap(b, f);
    assert multiset(before + here + after) == multiset(before) + multiset(here) + multiset(after);
    assert multiset(before + after) == multiset(before) + multiset(after);
  }

  lemma {:induction false} FlatMapOfPermutation<A, B>(xs: seq<A>, ys: seq<A>, f: A -> seq<B>)
    requires multiset(xs) == multiset(ys)
    ensures multiset(FlatMap(xs, f)) == multiset(FlatMap(ys, f))
  {
    if xs == [] {
      assert |multiset(ys)| == 0;
    } else {
      assert xs[0] in multiset(ys);
      var k :| 0 <= k < |ys| && ys[k] == xs[0];
      WithoutOne(xs, 0);
      WithoutOne(ys, k);
      FlatMapOfPermutation(Without(xs, 0), Without(ys, k), f);
      FlatMapWithout(xs, 0, f);
      FlatMapWithout(ys, k, f);
    }
  }

  lemma {:induction false} FlatMapHas<A, B(!new)>(xs: seq<A>, f: A -> seq<B>, y: B)
    ensures y in FlatMap(xs, f) <==> exists x :: x in xs && y in f(x)
  {
    if xs != [] {
      var n := |xs| - 1;
      FlatMapHas(xs[..n], f, y);
      assert xs == xs[..n] + [xs[n]];
    }
  }

  /** If each element gives one thing, all together give these things. */
  lemma {:induction false} FlatMapOfOnes<A, B, C>(xs: seq<A>, ys: seq<C>, give: A -> seq<B>, ask: C -> B)
    requires |xs| == |ys| && forall i :: 0 <= i < |ys| ==> give(xs[i]) == [ask(ys[i])]
    ensures FlatMap(xs, give) == Map(ys, ask)
  {
    if ys != [] {
      var n := |ys| - 1;
      FlatMapOfOnes(xs[..n], ys[..n], give, ask);
      assert FlatMap(xs, give) == Map(ys[..n], ask) + [ask(ys[n])];
    }
  }

  /** If each element gives what one group holds, all together give what the groups hold. */
  lemma {:induction false} FlatMapOfGroups<A, K, V, B>(xs: seq<A>, vs: seq<V>, key: V -> K, ks: seq<K>,
                                                       give: A -> seq<B>, ask: V -> B)
    requires |xs| == |ks|
    requires forall i :: 0 <= i < |ks| ==> give(xs[i]) == Map(OfKey(vs, key, ks[i]), ask)
    ensures FlatMap(xs, give) == Map(Flatten(vs, key, ks), ask)
  {
    if ks != [] {
      var n := |ks| - 1;
      FlatMapOfGroups(xs[..n], vs, key, ks[..n], give, ask);
      MapAppend(Flatten(vs, key, ks[..n]), OfKey(vs, key, ks[n]), ask);
    }
  }
}
