module IstioHosts {
  /** Overlap of Istio host names (pkg/i2gw/providers/istio/converter.go). */

  predicate HasSuffix(s: string, suffix: string) {
    |suffix| <= |s| && s[|s| - |suffix|..] == suffix
  }

  predicate IsWildCarded(hostname: string) {
    |hostname| > 0 && hostname[0] == '*'
  }

  predicate Matches(h1: string, h2: string) {
    if IsWildCarded(h1) then
      if IsWildCarded(h2) then
        if |h1| < |h2| then HasSuffix(h2[1..], h1[1..]) else HasSuffix(h1[1..], h2[1..])
      else HasSuffix(h2, h1[1..])
    else if IsWildCarded(h2) then HasSuffix(h1, h2[1..])
    else h1 == h2
  }

  /** The host names that a pattern stands for: one name, or all that end as the wildcard says. */
  predicate Denotes(pattern: string, name: string) {
    if IsWildCarded(pattern) then HasSuffix(name, pattern[1..]) else name == pattern
  }

  ghost predicate Overlap(h1: string, h2: string) {
    exists name :: Denotes(h1, name) && Denotes(h2, name)
  }

  lemma {:induction false} SuffixOfSuffix(s: string, t: string, u: string)
    requires HasSuffix(s, t) && HasSuffix(t, u)
    ensures HasSuffix(s, u)
  {
    assert s[|s| - |u|..] == t[|t| - |u|..];
  }

  /** Two suffixes of one string: the shorter is a suffix of the longer. */
  lemma {:induction false} SuffixesNest(s: string, t: string, u: string)
    requires HasSuffix(s, t) && HasSuffix(s, u) && |u| <= |t|
    ensures HasSuffix(t, u)
  {
    assert t[|t| - |u|..] == s[|s| - |u|..];
  }

  /** The test is exact: it holds when, and only when, some host name is denoted by both patterns. */
  lemma {:induction false} MatchesIffOverlap(h1: string, h2: string)
    ensures Matches(h1, h2) <==> Overlap(h1, h2)
  {
    if Matches(h1, h2) {
      var name := if !IsWildCarded(h1) then h1 else if !IsWildCarded(h2) then h2
                  else if |h1| < |h2| then h2[1..] else h1[1..];
      assert Denotes(h1, name) && Denotes(h2, name);
    }
    if Overlap(h1, h2) && IsWildCarded(h1) && IsWildCarded(h2) {
      var name :| Denotes(h1, name) && Denotes(h2, name);
      if |h1| < |h2| {
        SuffixesNest(name, h2[1..], h1[1..]);
      } else {
        SuffixesNest(name, h1[1..], h2[1..]);
      }
    }
  }

  lemma {:induction false} MatchesIsSymmetric(h1: string, h2: string)
    ensures Matches(h1, h2) <==> Matches(h2, h1)
  {
    MatchesIffOverlap(h1, h2);
    MatchesIffOverlap(h2, h1);
  }

  /** A narrower pattern overlaps with nothing that the wider one does not. */
  lemma {:induction false} MatchesIsMonotone(narrow: string, wide: string, h: string)
    requires IsWildCarded(narrow) && IsWildCarded(wide) && HasSuffix(narrow[1..], wide[1..])
    requires Matches(narrow, h)
    ensures Matches(wide, h)
  {
    MatchesIffOverlap(narrow, h);
    var name :| Denotes(narrow, name) && Denotes(h, name);
    SuffixOfSuffix(name, narrow[1..], wide[1..]);
    assert Denotes(wide, name);
    MatchesIffOverlap(wide, h);
  }

  /** Does `host` overlap with one of `hosts`? In terms of names, so in no way of the list's order. */
  method MatchAny(hosts: seq<string>, host: string) returns (found: bool)
    ensures found <==> exists h :: h in hosts && Overlap(host, h)
  {
    for i := 0 to |hosts|
      invariant forall h :: h in hosts[..i] ==> !Overlap(host, h)
    {
      MatchesIffOverlap(host, hosts[i]);
      if Matches(host, hosts[i]) {
        return true;
      }
    }
    return false;
  }
}
