module IstioRewrite {
  /**
   The rewrite split of Istio routes (pkg/i2gw/providers/istio/converter.go): one route for prefix
   matches and one for the others. Both filter lists are appended to the same Go slice, so slices are
   modelled with their backing arrays.
   */

  datatype PathType = Unset | PathPrefix | Exact | RegularExpression

  // HTTPRouteMatch: `NoPath` is a match whose Path is nil, `Unset` a path whose Type is nil.
  datatype Match = NoPath(rest: string) | WithPath(kind: PathType, value: string, rest: string)

  datatype Filter = Original(id: string) | RewriteFullPath(uri: string) | RewritePrefixMatch(uri: string)

  /** A Go slice: the first `len` elements of `arr`, whose length is the slice's capacity. */
  datatype Slice = Slice(arr: array<Filter>, len: nat)

  datatype Route = Route(name: string, matches: seq<Match>, filters: Slice)

  ghost predicate ValidSlice(s: Slice) {
    s.len <= s.arr.Length
  }

  ghost predicate HasSpare(s: Slice) {
    s.len < s.arr.Length
  }

  ghost function Contents(s: Slice): seq<Filter>
    requires ValidSlice(s)
    reads s.arr
  {
    s.arr[..s.len]
  }

  /** Go's append of one element: in place when there is room, to a larger copy otherwise. */
  method Append(s: Slice, f: Filter) returns (r: Slice)
    requires ValidSlice(s)
    modifies s.arr
    ensures ValidSlice(r) && Contents(r) == old(Contents(s)) + [f]
    ensures HasSpare(s) ==> r.arr == s.arr && s.arr[..] == old(s.arr[..])[s.len := f]
    ensures !HasSpare(s) ==> fresh(r.arr) && s.arr[..] == old(s.arr[..])
  {
    if s.len < s.arr.Length {
      s.arr[s.len] := f;
      r := Slice(s.arr, s.len + 1);
    } else {
      var grown := new Filter[2 * s.len + 1];
      forall i | 0 <= i < s.len {
        grown[i] := s.arr[i];
      }
      grown[s.len] := f;
      r := Slice(grown, s.len + 1);
    }
  }

  predicate IsPrefix(m: Match) {
    m.NoPath? || m.kind.Unset? || m.kind.PathPrefix?
  }

  /** The matches of one kind, in their order. */
  function OfKind(ms: seq<Match>, prefix: bool): (r: seq<Match>)
    ensures forall m :: m in r ==> m in ms && IsPrefix(m) == prefix
  {
    if ms == [] then []
    else
      var init, last := OfKind(ms[..|ms| - 1], prefix), ms[|ms| - 1];
      if IsPrefix(last) == prefix then init + [last] else init
  }

  /** The split loses and repeats nothing. */
  lemma {:induction false} SplitIsPartition(ms: seq<Match>)
    ensures multiset(OfKind(ms, true)) + multiset(OfKind(ms, false)) == multiset(ms)
  {
    if ms != [] {
      var init, last := ms[..|ms| - 1], ms[|ms| - 1];
      SplitIsPartition(init);
      OfKindGrows(init, last);
      assert ms == init + [last];
    }
  }

  lemma {:induction false} OfKindGrows(ms: seq<Match>, m: Match)
    ensures OfKind(ms + [m], true) == OfKind(ms, true) + if IsPrefix(m) then [m] else []
    ensures OfKind(ms + [m], false) == OfKind(ms, false) + if IsPrefix(m) then [] else [m]
  {
    assert (ms + [m])[..|ms|] == ms;
  }

  /** A match goes to the prefix route if it has no path, a path of no type or a prefix; an exact path or a
      regular expression goes to the other. */
  lemma {:induction false} KindsAre(ms: seq<Match>, m: Match)
    ensures m in OfKind(ms, true) <==> m in ms && (m.NoPath? || m.kind in {Unset, PathPrefix})
    ensures m in OfKind(ms, false) <==> m in ms && m.WithPath? && m.kind in {Exact, RegularExpression}
  {
    if ms != [] {
      var init, last := ms[..|ms| - 1], ms[|ms| - 1];
      KindsAre(init, m);
      assert ms == init + [last];
    }
  }

  method SplitMatches(ms: seq<Match>) returns (prefix: seq<Match>, nonPrefix: seq<Match>)
    ensures prefix == OfKind(ms, true) && nonPrefix == OfKind(ms, false)
    ensures forall m :: m in prefix <==> m in ms && (m.NoPath? || m.kind in {Unset, PathPrefix})
    ensures forall m :: m in nonPrefix <==> m in ms && m.WithPath? && m.kind in {Exact, RegularExpression}
  {
    prefix, nonPrefix := [], [];
    for i := 0 to |ms|
      invariant prefix == OfKind(ms[..i], true) && nonPrefix == OfKind(ms[..i], false)
    {
      assert ms[..i + 1][..i] == ms[..i];
      if ms[i].NoPath? {
        prefix := prefix + [ms[i]];
      } else if ms[i].kind.Unset? || ms[i].kind.PathPrefix? {
        prefix := prefix + [ms[i]];
      } else {
        nonPrefix := nonPrefix + [ms[i]];
      }
    }
    assert ms[..|ms|] == ms;
    forall m
      ensures m in prefix <==> m in ms && (m.NoPath? || m.kind in {Unset, PathPrefix})
      ensures m in nonPrefix <==> m in ms && m.WithPath? && m.kind in {Exact, RegularExpression}
    {
      KindsAre(ms, m);
    }
  }

  /**
   The whole split. `full` and `prefix` are the two routes, when emitted. Each is meant to carry the
   original filters plus its own rewrite. The prefix route always does; the full-path route does if
   and only if it is alone or the incoming slice has no spare capacity. Otherwise the second append
   has overwritten its rewrite.
   */
  method CreateRoutesWithRewrite(name: string, ms: seq<Match>, filters: Slice, uri: string)
      returns (routes: seq<Route>)
    requires ValidSlice(filters)
    modifies filters.arr
    ensures forall i :: 0 <= i < |routes| ==> ValidSlice(routes[i].filters)
    ensures ValidSlice(filters) && Contents(filters) == old(Contents(filters))
    ensures var full, pre := OfKind(ms, false), OfKind(ms, true);
      && |routes| == (if full != [] then 1 else 0) + (if ms == [] || pre != [] then 1 else 0)
      && (full != [] ==>
            && routes[0].name == name && routes[0].matches == full
            && (Contents(routes[0].filters) == old(Contents(filters)) + [RewriteFullPath(uri)]
                <==> |routes| == 1 || !HasSpare(filters))
            && (|routes| == 2 && HasSpare(filters) ==>
                  Contents(routes[0].filters) == old(Contents(filters)) + [RewritePrefixMatch(uri)]))
      && (ms == [] || pre != [] ==>
            var r := routes[|routes| - 1];
            && r.name == name + "-prefix-match" && r.matches == pre
            && Contents(r.filters) == old(Contents(filters)) + [RewritePrefixMatch(uri)])
  {
    var prefix, nonPrefix := SplitMatches(ms);
    var matches := ms;
    ghost var orig := Contents(filters);
    routes := [];
    if |nonPrefix| > 0 {
      var fs := Append(filters, RewriteFullPath(uri));
      assert Contents(filters) == orig;
      matches := nonPrefix;
      routes := routes + [Route(name, matches, fs)];
    }
    if |matches| == 0 || |prefix| > 0 {
      var fs := Append(filters, RewritePrefixMatch(uri));
      assert Contents(filters) == orig;
      matches := prefix;
      routes := routes + [Route(name + "-prefix-match", matches, fs)];
      if |routes| == 2 && HasSpare(filters) {
        assert routes[0].filters == fs;
        assert (orig + [RewritePrefixMatch(uri)])[|orig|] != (orig + [RewriteFullPath(uri)])[|orig|];
      }
    }
  }
}
