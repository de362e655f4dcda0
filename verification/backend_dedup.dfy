module BackendDedup {
  /** Merging of duplicate backend references (pkg/i2gw/emitters/utils/utils.go). */

  import opened Gateway
  import opened Grouping
  import opened Optional

  /** The source's key also has a namespace, which it never fills in. */
  datatype RefKey = RefKey(name: string, port: int, group: string, kind: string)

  function KeyOf(r: BackendRef): RefKey {
    RefKey(r.name,
           if r.port.Some? then r.port.value else 0,
           if r.group.Some? && r.group.value != "core" then r.group.value else "",
           if r.kind.Some? then r.kind.value else "Service")
  }

  /** Two references are merged exactly when they have the same name, port, group and kind, where an absent
      port counts as 0, an absent group and "core" as the empty one, and an absent kind as Service. */
  lemma {:induction false} SameKeyIff(r: BackendRef, s: BackendRef)
    ensures KeyOf(r) == KeyOf(s) <==>
      && r.name == s.name
      && (r.port == s.port || {r.port, s.port} <= {None, Some(0)})
      && (r.group == s.group || {r.group, s.group} <= {None, Some(""), Some("core")})
      && (r.kind == s.kind || {r.kind, s.kind} <= {None, Some("Service")})
  {
  }

  const TWO_31 := 0x8000_0000
  const TWO_32 := 0x1_0000_0000

  /** The value of an int32 after an addition that may have wrapped around. */
  function Wrap32(x: int): (r: int)
    ensures -TWO_31 <= r < TWO_31
    ensures r == x <==> -TWO_31 <= x < TWO_31
    ensures (r - x) % TWO_32 == 0
  {
    (x + TWO_31) % TWO_32 - TWO_31
  }

  lemma {:induction false} WrapAdd(x: int, y: int)
    ensures Wrap32(Wrap32(x) + y) == Wrap32(x + y)
  {
  }

  // ---- What each key amounts to --------------------------------------------------------------------

  /** The weights that are given, added up. */
  function Given(refs: seq<BackendRef>): int {
    if refs == [] then 0
    else Given(refs[..|refs| - 1]) + if refs[|refs| - 1].weight.Some? then refs[|refs| - 1].weight.value else 0
  }

  /** The first reference of a key, with the weights of the later ones added to its own, if any. */
  function Merged(refs: seq<BackendRef>): BackendRef
    requires refs != []
  {
    if refs[0].weight.None? then refs[0] else refs[0].(weight := Some(Wrap32(Given(refs))))
  }

  /** Everything but the weight is that of the first reference; so is an absent weight. */
  lemma {:induction false} MergedInFull(refs: seq<BackendRef>)
    requires refs != []
    ensures var m := Merged(refs);
      && m.name == refs[0].name && m.namespace == refs[0].namespace && m.port == refs[0].port
      && m.group == refs[0].group && m.kind == refs[0].kind
      && (m.weight.None? <==> refs[0].weight.None?)
      && (m.weight.Some? ==> (m.weight.value - Given(refs)) % TWO_32 == 0 && -TWO_31 <= m.weight.value < TWO_31)
  {
  }

  lemma {:induction false} MergedGrows(refs: seq<BackendRef>, r: BackendRef)
    requires refs != [] && forall x :: x in refs ==> x.weight.Some? ==> -TWO_31 <= x.weight.value < TWO_31
    ensures var m := Merged(refs);
      Merged(refs + [r]) ==
        if m.weight.Some? && r.weight.Some? then m.(weight := Some(Wrap32(m.weight.value + r.weight.value))) else m
  {
    assert (refs + [r])[..|refs|] == refs;
    if r.weight.Some? {
      WrapAdd(Given(refs), r.weight.value);
    }
  }

  predicate Int32Weights(refs: seq<BackendRef>) {
    forall r :: r in refs && r.weight.Some? ==> -TWO_31 <= r.weight.value < TWO_31
  }

  lemma {:induction false} MergedSingle(r: BackendRef)
    requires Int32Weights([r])
    ensures Merged([r]) == r
  {
    assert [r][..0] == [];
    assert r in [r];
    assert Given([r]) == Given([r][..0]) + if r.weight.Some? then r.weight.value else 0;
  }

  /** The references of one key. */
  ghost function Group(refs: seq<BackendRef>, k: RefKey): seq<BackendRef> {
    OfKey(refs, KeyOf, k)
  }

  /** The map of unique references is right for the references read so far. */
  ghost predicate Unique(unique: map<RefKey, BackendRef>, refs: seq<BackendRef>, key: BackendRef -> RefKey) {
    && (forall k :: k in unique <==> k in FirstKeys(refs, key))
    && (forall k :: k in unique ==> OfKey(refs, key, k) != [] && unique[k] == Merged(OfKey(refs, key, k)))
  }

  lemma {:induction false} UniqueStep(unique: map<RefKey, BackendRef>, refs: seq<BackendRef>, r: BackendRef,
                                      key: BackendRef -> RefKey, now: map<RefKey, BackendRef>)
    requires Int32Weights(refs) && Int32Weights([r]) && Unique(unique, refs, key)
    requires var k := key(r);
      if k !in unique then now == unique[k := r]
      else if unique[k].weight.Some? && r.weight.Some? then
        now == unique[k := unique[k].(weight := Some(Wrap32(unique[k].weight.value + r.weight.value)))]
      else now == unique
    ensures Unique(now, refs + [r], key)
  {
    forall k | k in now
      ensures OfKey(refs + [r], key, k) != [] && now[k] == Merged(OfKey(refs + [r], key, k))
    {
      OfKeyGrows(refs, r, key, k);
      OfKeyIs(refs, key, k);
      if k == key(r) {
        if k in unique {
          MergedGrows(OfKey(refs, key, k), r);
        } else {
          MergedSingle(r);
        }
      }
    }
    OfKeyGrows(refs, r, key, key(r));
  }

  /** The loop that fills the map. */
  method CollectUnique(refs: seq<BackendRef>) returns (unique: map<RefKey, BackendRef>)
    requires Int32Weights(refs)
    ensures Unique(unique, refs, KeyOf)
  {
    unique := map[];
    for i := 0 to |refs|
      invariant Unique(unique, refs[..i], KeyOf)
    {
      assert refs[i] in refs && refs[..i + 1] == refs[..i] + [refs[i]];
      unique := AddUnique(refs[..i], unique, refs[i]);
    }
    assert refs[..|refs|] == refs;
  }

  /** The turn of one reference. */
  method AddUnique(ghost before: seq<BackendRef>, unique: map<RefKey, BackendRef>, r: BackendRef)
      returns (now: map<RefKey, BackendRef>)
    requires Int32Weights(before) && Int32Weights([r]) && Unique(unique, before, KeyOf)
    ensures Unique(now, before + [r], KeyOf)
  {
    now := unique;
    var k := KeyOf(r);
    if k in unique {
      var oldRef := unique[k];
      if oldRef.weight.Some? && r.weight.Some? {
        now := unique[k := oldRef.(weight := Some(Wrap32(oldRef.weight.value + r.weight.value)))];
      }
    } else {
      now := unique[k := r];
    }
    UniqueStep(unique, before, r, KeyOf, now);
  }

  /** One reference per key comes back, in whatever order the map is read. */
  method RemoveBackendRefsDuplicates(refs: seq<BackendRef>) returns (result: seq<BackendRef>)
    requires Int32Weights(refs)
    ensures NoDuplicates(seq(|result|, i requires 0 <= i < |result| => KeyOf(result[i])))
    ensures |result| == |FirstKeys(refs, KeyOf)|
    ensures forall k :: k in FirstKeys(refs, KeyOf) ==> Group(refs, k) != [] && Merged(Group(refs, k)) in result
    ensures forall r :: r in result ==> Group(refs, KeyOf(r)) != [] && r == Merged(Group(refs, KeyOf(r)))
  {
    var unique := CollectUnique(refs);
    result := [];
    ghost var keys: seq<RefKey> := [];
    var todo := unique.Keys;
    FirstKeysAreDistinct(refs, KeyOf);
    while todo != {}
      invariant todo <= unique.Keys && |keys| == |result| && NoDuplicates(keys)
      invariant forall k :: k in keys <==> k in unique && k !in todo
      invariant forall i :: 0 <= i < |result| ==> result[i] == unique[keys[i]]
      decreases todo
    {
      var k :| k in todo;
      todo := todo - {k};
      keys := keys + [k];
      result := result + [unique[k]];
    }
    forall i | 0 <= i < |result|
      ensures KeyOf(result[i]) == keys[i] && result[i] == Merged(Group(refs, keys[i]))
    {
      assert keys[i] in keys;
      MergedHasKey(refs, keys[i]);
    }
    assert seq(|result|, i requires 0 <= i < |result| => KeyOf(result[i])) == keys;
    SameElementsSameLength(keys, FirstKeys(refs, KeyOf));
    forall k | k in FirstKeys(refs, KeyOf)
      ensures Merged(Group(refs, k)) in result
    {
      var i :| 0 <= i < |keys| && keys[i] == k;
      assert result[i] == Merged(Group(refs, k));
    }
  }

  lemma {:induction false} MergedHasKey(refs: seq<BackendRef>, k: RefKey)
    requires Group(refs, k) != []
    ensures KeyOf(Merged(Group(refs, k))) == k
  {
    OfKeyIs(refs, KeyOf, k);
    var r := Group(refs, k)[0];
    assert r in Group(refs, k);
    KeyIgnoresWeight(r, Merged(Group(refs, k)).weight);
  }

  lemma {:induction false} KeyIgnoresWeight(r: BackendRef, weight: Option<int>)
    ensures KeyOf(r.(weight := weight)) == KeyOf(r)
  {
  }

  // ---- Conservation -----------------------------------------------------------------------------------

  /** A Gateway counts a reference without weight as 1. */
  function Effective(r: BackendRef): int {
    if r.weight.Some? then r.weight.value else 1
  }

  function EffectiveSum(refs: seq<BackendRef>): int {
    if refs == [] then 0 else EffectiveSum(refs[..|refs| - 1]) + Effective(refs[|refs| - 1])
  }

  predicate AllWeighted(refs: seq<BackendRef>) {
    forall r :: r in refs ==> r.weight.Some?
  }

  function CountUnweighted(refs: seq<BackendRef>): nat {
    if refs == [] then 0 else CountUnweighted(refs[..|refs| - 1]) + if refs[|refs| - 1].weight.None? then 1 else 0
  }

  lemma {:induction false} SumSplits(refs: seq<BackendRef>)
    ensures EffectiveSum(refs) == Given(refs) + CountUnweighted(refs)
    ensures AllWeighted(refs) <==> CountUnweighted(refs) == 0
  {
    if refs != [] {
      SumSplits(refs[..|refs| - 1]);
      assert refs == refs[..|refs| - 1] + [refs[|refs| - 1]];
    }
  }

  lemma {:induction false} GivenNonNegative(refs: seq<BackendRef>)
    requires forall r :: r in refs && r.weight.Some? ==> r.weight.value >= 0
    ensures Given(refs) >= 0
    ensures Given(refs) == 0 <==> forall r :: r in refs && r.weight.Some? ==> r.weight.value == 0
  {
    if refs != [] {
      GivenNonNegative(refs[..|refs| - 1]);
      assert refs == refs[..|refs| - 1] + [refs[|refs| - 1]];
    }
  }

  lemma {:induction false} UnweightedHead(refs: seq<BackendRef>)
    requires refs != []
    ensures CountUnweighted(refs) == (if refs[0].weight.None? then 1 else 0) + CountUnweighted(refs[1..])
  {
    if |refs| > 1 {
      UnweightedHead(refs[..|refs| - 1]);
      assert refs[..|refs| - 1][1..] == refs[1..][..|refs| - 2];
    } else {
      assert refs[..0] == [];
    }
  }

  /** The share of traffic of a key survives the merge if and only if all its references carry a
      weight and the sum fits 32 bits, or the first carries none and the others carry weights of zero. */
  lemma {:induction false} ShareIsKeptIff(refs: seq<BackendRef>)
    requires refs != [] && forall r :: r in refs && r.weight.Some? ==> r.weight.value >= 0
    ensures Effective(Merged(refs)) == EffectiveSum(refs) <==>
      || (AllWeighted(refs) && EffectiveSum(refs) < TWO_31)
      || (refs[0].weight.None? && forall i :: 0 < i < |refs| ==> refs[i].weight == Some(0))
  {
    SumSplits(refs);
    SumSplits(refs[1..]);
    GivenNonNegative(refs);
    UnweightedHead(refs);
    if refs[0].weight.None? {
      if Given(refs) == 0 && CountUnweighted(refs) == 1 {
        forall i | 0 < i < |refs|
          ensures refs[i].weight == Some(0)
        {
          assert refs[i] in refs && refs[1..][i - 1] in refs[1..];
        }
      }
      if forall i :: 0 < i < |refs| ==> refs[i].weight == Some(0) {
        assert AllWeighted(refs[1..]);
        forall r | r in refs && r.weight.Some?
          ensures r.weight.value == 0
        {
          var i :| 0 <= i < |refs| && refs[i] == r;
        }
      }
    } else {
      assert refs[0] in refs;
      WrapNeverGrows(Given(refs));
    }
  }

  lemma {:induction false} WrapNeverGrows(x: int)
    requires x >= 0
    ensures Wrap32(x) <= x
  {
  }

  // ---- Sums that fit ----------------------------------------------------------------------------------

  /** The weights given are not negative, and add up to at most `total`. */
  ghost predicate AddUpTo(refs: seq<BackendRef>, total: int) {
    Given(refs) <= total && forall r :: r in refs && r.weight.Some? ==> r.weight.value >= 0
  }

  lemma {:induction false} GroupAddsUp(refs: seq<BackendRef>, k: RefKey, total: int)
    requires AddUpTo(refs, total)
    ensures 0 <= Given(Group(refs, k)) <= Given(refs) && AddUpTo(Group(refs, k), total)
  {
    OfKeyIs(refs, KeyOf, k);
    GivenNonNegative(Group(refs, k));
    GroupGivesLess(refs, k);
  }

  lemma {:induction false} GroupGivesLess(refs: seq<BackendRef>, k: RefKey)
    requires forall r :: r in refs && r.weight.Some? ==> r.weight.value >= 0
    ensures Given(Group(refs, k)) <= Given(refs)
  {
    if refs != [] {
      var n := |refs| - 1;
      var r := refs[n];
      assert refs == refs[..n] + [r];
      GroupGivesLess(refs[..n], k);
      OfKeyGrows(refs[..n], r, KeyOf, k);
      if KeyOf(r) == k {
        assert (Group(refs[..n], k) + [r])[..|Group(refs[..n], k)|] == Group(refs[..n], k);
      }
    }
  }

  /** Such references can be merged: nothing wraps around, and a key keeps the sum of its weights
      whenever its first reference has one. */
  lemma {:induction false} MergeNeverWraps(refs: seq<BackendRef>, k: RefKey, total: int)
    requires AddUpTo(refs, total) && total < TWO_31
    ensures var group := Group(refs, k);
      && 0 <= Given(group) <= total
      && (group != [] ==>
            Merged(group).weight == if group[0].weight.None? then None else Some(Given(group)))
  {
    GroupAddsUp(refs, k, total);
  }

  lemma {:induction false} AddingUpFits(refs: seq<BackendRef>, total: int)
    requires AddUpTo(refs, total) && total < TWO_31
    ensures Int32Weights(refs)
  {
    forall r | r in refs && r.weight.Some?
      ensures 0 <= r.weight.value < TWO_31
    {
      OneIsAtMostAll(refs, r);
    }
  }

  lemma {:induction false} OneIsAtMostAll(refs: seq<BackendRef>, r: BackendRef)
    requires r in refs && r.weight.Some? && forall x :: x in refs && x.weight.Some? ==> x.weight.value >= 0
    ensures r.weight.value <= Given(refs)
  {
    var n := |refs| - 1;
    assert refs == refs[..n] + [refs[n]];
    GivenNonNegative(refs[..n]);
    if r in refs[..n] {
      OneIsAtMostAll(refs[..n], r);
    }
  }

  /** A reference's namespace plays no part: two that differ in nothing else become one, and the
      second one's weight goes to the first one's namespace. */
  lemma {:induction false} NamespacesAreMerged(r: BackendRef, namespace: Option<string>)
    requires r.weight.Some? && 0 <= r.weight.value < TWO_31 / 2
    ensures var s := r.(namespace := namespace);
      KeyOf(s) == KeyOf(r) && Merged([r, s]) == r.(weight := Some(2 * r.weight.value))
  {
    var s := r.(namespace := namespace);
    assert [r, s] == [r] + [s] && r in [r];
    MergedSingle(r);
    MergedGrows([r], s);
  }
}
