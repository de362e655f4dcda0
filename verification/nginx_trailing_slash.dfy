module NginxTrailingSlash {
  /**
   NGINX's implicit redirect from /path to /path/
   (pkg/i2gw/providers/ingressnginx/redirect.go, buildTrailingSlashRedirectRules).
   */

  import opened Optional
  import opened Strings
  import opened Gateway

  // ---- Segment-wise prefixes ------------------------------------------------------------------

  /** An empty prefix makes the source index before its start, unless the path is empty too. */
  predicate PathPrefixCovers(prefix: string, path: string)
    requires prefix != "" || path == ""
  {
    if !HasPrefix(path, prefix) then false
    else if |path| == |prefix| then true
    else prefix[|prefix| - 1] == '/' || path[|prefix|] == '/'
  }

  /** In terms of '/'-separated segments: a prefix covers the paths that its segments start; if it
      ends in a slash, those that go on after them. */
  lemma {:induction false} CoversIffSegmentsStart(prefix: string, path: string)
    requires prefix != ""
    ensures PathPrefixCovers(prefix, path) <==>
      if EndsWith(prefix, '/') then Split(TrimLast(prefix, '/'), '/') < Split(path, '/')
      else Split(prefix, '/') <= Split(path, '/')
  {
    var stem := TrimLast(prefix, '/');
    var n := |stem|;
    if EndsWith(prefix, '/') {
      assert prefix == stem + ['/'];
    }
    if PathPrefixCovers(prefix, path) && path != prefix {
      assert path[..n] == prefix[..n] && path == stem + ['/'] + path[n + 1..];
    }
    if |path| > n && path == stem + ['/'] + path[n + 1..] {
      SplitAtSeparator(stem, '/', path[n + 1..]);
    }
    if Split(stem, '/') < Split(path, '/') {
      SegmentsStartPath(stem, path);
      assert path[..n + 1] == stem + ['/'];
    } else if Split(stem, '/') == Split(path, '/') {
      JoinSplit(stem, '/');
      JoinSplit(path, '/');
    }
  }

  lemma {:induction false} SegmentsStartPath(stem: string, path: string)
    requires Split(stem, '/') < Split(path, '/')
    ensures |path| > |stem| && HasPrefix(path, stem) && path[|stem|] == '/'
  {
    var a := Split(stem, '/');
    var b := Split(path, '/')[|a|..];
    assert Split(path, '/') == a + b;
    JoinAppend(a, b, '/');
    JoinSplit(stem, '/');
    JoinSplit(path, '/');
    assert path == stem + ['/'] + Join(b, '/');
  }

  // ---- What the rules match ---------------------------------------------------------------------

  /** An Exact or PathPrefix path of some match. Matches of other types, or without a path, take no
      part in the redirects. */
  datatype Path = Path(kind: PathType, value: string)

  predicate Takes(m: RouteMatch) {
    && m.path.Some? && m.path.value.kind.Some? && m.path.value.value.Some?
    && (m.path.value.kind.value.Exact? || m.path.value.kind.value.PathPrefix?)
  }

  function PathOf(m: RouteMatch): Path
    requires Takes(m)
  {
    Path(m.path.value.kind.value, m.path.value.value.value)
  }

  function PathsOfMatches(ms: seq<RouteMatch>): seq<Path> {
    if ms == [] then []
    else PathsOfMatches(ms[..|ms| - 1]) + if Takes(ms[|ms| - 1]) then [PathOf(ms[|ms| - 1])] else []
  }

  /** All of them, in order. */
  function Paths(rules: seq<Rule>): seq<Path> {
    if rules == [] then []
    else Paths(rules[..|rules| - 1]) + PathsOfMatches(rules[|rules| - 1].matches)
  }

  /** Every prefix that the source may test is nonempty. */
  predicate NoEmptyPrefix(paths: seq<Path>) {
    forall p :: p in paths && p.kind.PathPrefix? ==> p.value != ""
  }

  predicate SafeMatches(ms: seq<RouteMatch>) {
    forall m :: m in ms && Takes(m) && PathOf(m).kind.PathPrefix? ==> PathOf(m).value != ""
  }

  lemma {:induction false} SafeMatchesIff(ms: seq<RouteMatch>)
    ensures NoEmptyPrefix(PathsOfMatches(ms)) <==> SafeMatches(ms)
  {
    if ms != [] {
      SafeMatchesIff(ms[..|ms| - 1]);
      assert ms == ms[..|ms| - 1] + [ms[|ms| - 1]];
    }
  }

  lemma {:induction false} NoEmptyPrefixIff(rules: seq<Rule>)
    ensures NoEmptyPrefix(Paths(rules)) <==> forall r :: r in rules ==> SafeMatches(r.matches)
  {
    if rules != [] {
      NoEmptyPrefixIff(rules[..|rules| - 1]);
      SafeMatchesIff(rules[|rules| - 1].matches);
      assert rules == rules[..|rules| - 1] + [rules[|rules| - 1]];
    }
  }

  /** Does the path of some existing match select request path `path`? The empty prefix selects all. */
  predicate Selects(p: Path, path: string) {
    p.value == path || (p.kind.PathPrefix? && (p.value == "" || PathPrefixCovers(p.value, path)))
  }

  predicate Selected(paths: seq<Path>, path: string) {
    exists p :: p in paths && Selects(p, path)
  }

  // ---- What is to be redirected -----------------------------------------------------------------

  predicate IsSlashed(value: string) {
    |value| > 1 && EndsWith(value, '/')
  }

  function SourceOf(target: string): string
    requires IsSlashed(target)
  {
    target[..|target| - 1]
  }

  /** A path ending in a slash whose slash-less variant nothing answers. */
  predicate NeedsRedirect(p: Path, all: seq<Path>) {
    IsSlashed(p.value) && !Selected(all, SourceOf(p.value))
  }

  /** The targets, each at its first occurrence. */
  function Targets(paths: seq<Path>, all: seq<Path>): (ts: seq<string>)
    ensures forall t :: t in ts ==> IsSlashed(t)
  {
    if paths == [] then []
    else
      var ts, p := Targets(paths[..|paths| - 1], all), paths[|paths| - 1];
      if NeedsRedirect(p, all) && p.value !in ts then ts + [p.value] else ts
  }

  function RedirectRule(target: string): Rule
    requires IsSlashed(target)
  {
    Rule([NewRouteMatch(Exact, SourceOf(target))],
         [RequestRedirect(Redirect(None, None, None, Some(301), Some(target)))],
         [])
  }

  ghost function RedirectRules(targets: seq<string>): (rules: seq<Rule>)
    requires forall t :: t in targets ==> IsSlashed(t)
    ensures |rules| == |targets|
  {
    seq(|targets|, i requires 0 <= i < |targets| => RedirectRule(targets[i]))
  }

  ghost function TrailingSlashRules(rules: seq<Rule>): seq<Rule> {
    RedirectRules(Targets(Paths(rules), Paths(rules)))
  }

  // ---- The code ---------------------------------------------------------------------------------

  function Values(paths: seq<Path>): set<string> {
    set p | p in paths :: p.value
  }

  function Prefixes(paths: seq<Path>): seq<string> {
    if paths == [] then []
    else Prefixes(paths[..|paths| - 1]) + if paths[|paths| - 1].kind.PathPrefix? then [paths[|paths| - 1].value] else []
  }

  lemma {:induction false} PrefixesAre(paths: seq<Path>)
    ensures forall v :: v in Prefixes(paths) <==> Path(PathPrefix, v) in paths
  {
    if paths != [] {
      PrefixesAre(paths[..|paths| - 1]);
      assert paths == paths[..|paths| - 1] + [paths[|paths| - 1]];
    }
  }

  /** Every empty prefix comes after one that settles the test. */
  predicate Testable(prefixes: seq<string>, path: string) {
    forall i :: 0 <= i < |prefixes| && prefixes[i] == "" && path != "" ==>
      exists j :: 0 <= j < i && prefixes[j] != "" && PathPrefixCovers(prefixes[j], path)
  }

  /** The test as the code evaluates it, None once it reads before the start of a prefix. */
  function Evaluated(prefixes: seq<string>, path: string): Option<bool> {
    if prefixes == [] then Some(false)
    else if prefixes[0] == "" && path != "" then None
    else if PathPrefixCovers(prefixes[0], path) then Some(true)
    else Evaluated(prefixes[1..], path)
  }

  lemma {:induction false} TestFailsIff(prefixes: seq<string>, path: string)
    ensures Evaluated(prefixes, path).None? <==> !Testable(prefixes, path)
  {
    if prefixes != [] && !(prefixes[0] == "" && path != "") {
      TestFailsIff(prefixes[1..], path);
      if PathPrefixCovers(prefixes[0], path) {
        assert path != "" ==> prefixes[0] != "";
      } else {
        TestableTail(prefixes, path);
      }
    }
  }

  lemma {:induction false} TestableTail(prefixes: seq<string>, path: string)
    requires prefixes != [] && (prefixes[0] != "" || path == "") && !PathPrefixCovers(prefixes[0], path)
    ensures Testable(prefixes, path) <==> Testable(prefixes[1..], path)
  {
    if Testable(prefixes, path) {
      forall i | 0 <= i < |prefixes[1..]| && prefixes[1..][i] == "" && path != ""
        ensures exists j :: 0 <= j < i && prefixes[1..][j] != "" && PathPrefixCovers(prefixes[1..][j], path)
      {
        var j :| 0 <= j < i + 1 && prefixes[j] != "" && PathPrefixCovers(prefixes[j], path);
        assert prefixes[1..][j - 1] == prefixes[j];
      }
    }
    if Testable(prefixes[1..], path) {
      forall i | 0 <= i < |prefixes| && prefixes[i] == "" && path != ""
        ensures exists j :: 0 <= j < i && prefixes[j] != "" && PathPrefixCovers(prefixes[j], path)
      {
        var j :| 0 <= j < i - 1 && prefixes[1..][j] != "" && PathPrefixCovers(prefixes[1..][j], path);
        assert prefixes[j + 1] == prefixes[1..][j];
      }
    }
  }

  method PathPrefixCoveredByAny(prefixes: seq<string>, path: string) returns (covered: bool)
    requires Testable(prefixes, path)
    ensures covered <==> exists v :: v in prefixes && (v == "" || PathPrefixCovers(v, path))
    ensures Evaluated(prefixes, path) == Some(covered)
  {
    for i := 0 to |prefixes|
      invariant forall v :: v in prefixes[..i] ==> v != "" && !PathPrefixCovers(v, path)
      invariant Evaluated(prefixes, path) == Evaluated(prefixes[i..], path)
    {
      assert prefixes[i] == "" ==> path == "" by {
        assert forall j :: 0 <= j < i ==> prefixes[j] in prefixes[..i];
      }
      if PathPrefixCovers(prefixes[i], path) {
        assert prefixes[i] in prefixes;
        return true;
      }
      assert prefixes[i..][1..] == prefixes[i + 1..];
      assert prefixes[..i + 1] == prefixes[..i] + [prefixes[i]];
    }
    assert prefixes[..|prefixes|] == prefixes;
    return false;
  }

  /** The pass reads no prefix before its start: the source of each path that ends in a slash is matched
      already, or can be tested. */
  ghost predicate InBounds(all: seq<Path>) {
    forall p :: p in all && IsSlashed(p.value) ==>
      SourceOf(p.value) in Values(all) || Testable(Prefixes(all), SourceOf(p.value))
  }

  /** Some path that the pass gets to test makes it read before the start of a prefix. */
  ghost predicate ReadsOutOfRange(all: seq<Path>) {
    exists p :: p in all && IsSlashed(p.value) && SourceOf(p.value) !in Values(all)
      && Evaluated(Prefixes(all), SourceOf(p.value)).None?
  }

  lemma {:induction false} ReadsOutOfRangeIff(all: seq<Path>)
    ensures ReadsOutOfRange(all) <==> !InBounds(all)
  {
    forall p | p in all && IsSlashed(p.value)
      ensures Evaluated(Prefixes(all), SourceOf(p.value)).None? <==> !Testable(Prefixes(all), SourceOf(p.value))
    {
      TestFailsIff(Prefixes(all), SourceOf(p.value));
    }
  }

  lemma {:induction false} NoEmptyPrefixIsInBounds(all: seq<Path>)
    requires NoEmptyPrefix(all)
    ensures InBounds(all)
  {
    PrefixesAre(all);
    forall i | 0 <= i < |Prefixes(all)|
      ensures Prefixes(all)[i] != ""
    {
      assert Prefixes(all)[i] in Prefixes(all);
    }
  }

  /** An ImplementationSpecific path may be empty, and is then an empty prefix. For a source such as "/a"
      it is fatal on its own; behind a prefix that covers that source it is not. */
  lemma {:induction false} EmptyPrefixMayFail(path: string)
    requires HasPrefix(path, "/")
    ensures Evaluated([""], path).None? && Evaluated(["/", ""], path) == Some(true)
  {
    assert ["/", ""][0] == "/" && PathPrefixCovers("/", path);
    assert [""][0] == "";
  }

  lemma {:induction false} PrefixesGrow(before: seq<Path>, p: Path)
    ensures Prefixes(before + [p]) == Prefixes(before) + if p.kind.PathPrefix? then [p.value] else []
  {
    assert (before + [p])[..|before|] == before;
  }

  lemma {:induction false} CollectedGrow(before: seq<Path>, p: Path)
    ensures Values(before + [p]) == Values(before) + {p.value}
    ensures Prefixes(before + [p]) == Prefixes(before) + if p.kind.PathPrefix? then [p.value] else []
  {
    PrefixesGrow(before, p);
  }

  lemma {:induction false} PathsGrow(before: seq<Path>, ms: seq<RouteMatch>, j: nat)
    requires j < |ms|
    ensures var was := before + PathsOfMatches(ms[..j]);
      before + PathsOfMatches(ms[..j + 1]) == if Takes(ms[j]) then was + [PathOf(ms[j])] else was
  {
    assert ms[..j + 1][..j] == ms[..j];
  }

  /** The first pass: what is matched already, and by which prefixes. */
  method CollectPaths(rules: seq<Rule>) returns (matched: set<string>, prefixes: seq<string>)
    ensures matched == Values(Paths(rules)) && prefixes == Prefixes(Paths(rules))
  {
    matched, prefixes := {}, [];
    for i := 0 to |rules|
      invariant matched == Values(Paths(rules[..i])) && prefixes == Prefixes(Paths(rules[..i]))
    {
      assert rules[..i + 1][..i] == rules[..i];
      matched, prefixes := CollectMatches(rules[i].matches, matched, prefixes, Paths(rules[..i]));
    }
    assert rules[..|rules|] == rules;
  }

  method CollectMatches(ms: seq<RouteMatch>, matched0: set<string>, prefixes0: seq<string>, ghost before: seq<Path>)
      returns (matched: set<string>, prefixes: seq<string>)
    requires matched0 == Values(before) && prefixes0 == Prefixes(before)
    ensures matched == Values(before + PathsOfMatches(ms)) && prefixes == Prefixes(before + PathsOfMatches(ms))
  {
    matched, prefixes := matched0, prefixes0;
    assert before + PathsOfMatches(ms[..0]) == before;
    for j := 0 to |ms|
      invariant matched == Values(before + PathsOfMatches(ms[..j]))
      invariant prefixes == Prefixes(before + PathsOfMatches(ms[..j]))
    {
      PathsGrow(before, ms, j);
      if ms[j].path.None? || ms[j].path.value.kind.None? || ms[j].path.value.value.None? {
        continue;
      }
      var kind, value := ms[j].path.value.kind.value, ms[j].path.value.value.value;
      CollectedGrow(before + PathsOfMatches(ms[..j]), Path(kind, value));
      if kind.Exact? || kind.PathPrefix? {
        matched := matched + {value};
      }
      if kind.PathPrefix? {
        prefixes := prefixes + [value];
      }
    }
    assert ms[..|ms|] == ms;
  }

  lemma {:induction false} RedirectRulesGrow(ts: seq<string>, t: string)
    requires (forall u :: u in ts ==> IsSlashed(u)) && IsSlashed(t)
    ensures RedirectRules(ts + [t]) == RedirectRules(ts) + [RedirectRule(t)]
  {
  }

  method BuildTrailingSlashRedirectRules(rules: seq<Rule>) returns (redirects: seq<Rule>)
    requires InBounds(Paths(rules))
    ensures redirects == TrailingSlashRules(rules)
  {
    ghost var all := Paths(rules);
    var matched, prefixes := CollectPaths(rules);
    redirects := [];
    assert Paths(rules[..0]) == [];
    var added: set<string> := {};
    for i := 0 to |rules|
      invariant redirects == RedirectRules(Targets(Paths(rules[..i]), all))
      invariant added == Sources(Targets(Paths(rules[..i]), all))
    {
      assert rules[..i + 1][..i] == rules[..i];
      PathsAreIn(rules, i);
      redirects, added := AddRedirects(rules[i].matches, matched, prefixes, redirects, added, Paths(rules[..i]), all);
    }
    assert rules[..|rules|] == rules;
  }

  lemma {:induction false} PathsAreIn(rules: seq<Rule>, i: nat)
    requires i < |rules|
    ensures forall m :: m in rules[i].matches && Takes(m) ==> PathOf(m) in Paths(rules)
  {
    var n := |rules| - 1;
    if i < n {
      PathsAreIn(rules[..n], i);
    } else {
      MatchPathsAreIn(rules[n].matches);
    }
  }

  lemma {:induction false} MatchPathsAreIn(ms: seq<RouteMatch>)
    ensures forall m :: m in ms && Takes(m) ==> PathOf(m) in PathsOfMatches(ms)
  {
    if ms != [] {
      MatchPathsAreIn(ms[..|ms| - 1]);
      assert ms == ms[..|ms| - 1] + [ms[|ms| - 1]];
    }
  }

  ghost function Sources(targets: seq<string>): set<string>
    requires forall t :: t in targets ==> IsSlashed(t)
  {
    set t | t in targets :: SourceOf(t)
  }

  /** The second pass, over the matches of one rule. */
  method AddRedirects(ms: seq<RouteMatch>, matched: set<string>, prefixes: seq<string>,
                      redirects0: seq<Rule>, added0: set<string>, ghost before: seq<Path>, ghost all: seq<Path>)
      returns (redirects: seq<Rule>, added: set<string>)
    requires InBounds(all) && matched == Values(all) && prefixes == Prefixes(all)
    requires forall m :: m in ms && Takes(m) ==> PathOf(m) in all
    requires redirects0 == RedirectRules(Targets(before, all)) && added0 == Sources(Targets(before, all))
    ensures redirects == RedirectRules(Targets(before + PathsOfMatches(ms), all))
    ensures added == Sources(Targets(before + PathsOfMatches(ms), all))
  {
    PrefixesAre(all);
    redirects, added := redirects0, added0;
    assert before + PathsOfMatches(ms[..0]) == before;
    for j := 0 to |ms|
      invariant redirects == RedirectRules(Targets(before + PathsOfMatches(ms[..j]), all))
      invariant added == Sources(Targets(before + PathsOfMatches(ms[..j]), all))
    {
      PathsGrow(before, ms, j);
      if !Takes(ms[j]) {
        continue;
      }
      TargetsGrow(before + PathsOfMatches(ms[..j]), PathOf(ms[j]), all);
      var target := PathOf(ms[j]).value;
      if target == "/" || !EndsWith(target, '/') {
        continue;
      }
      var source := TrimLast(target, '/');
      if source == "" {
        continue;
      }
      if source in matched {
        continue;
      }
      var covered := PathPrefixCoveredByAny(prefixes, source);
      SelectedIff(all, source);
      if covered {
        continue;
      }
      if source in added {
        continue;
      }
      redirects := redirects + [RedirectRule(target)];
      added := added + {source};
    }
    assert ms[..|ms|] == ms;
  }

  lemma {:induction false} TargetsGrow(paths: seq<Path>, p: Path, all: seq<Path>)
    ensures var ts, ts' := Targets(paths, all), Targets(paths + [p], all);
      if NeedsRedirect(p, all) && SourceOf(p.value) !in Sources(ts)
      then RedirectRules(ts') == RedirectRules(ts) + [RedirectRule(p.value)]
           && Sources(ts') == Sources(ts) + {SourceOf(p.value)}
      else ts' == ts
  {
    assert (paths + [p])[..|paths|] == paths;
    if NeedsRedirect(p, all) {
      forall t | t in Targets(paths, all)
        ensures SourceOf(t) == SourceOf(p.value) <==> t == p.value
      {
        SourceDetermines(t, p.value);
      }
      if p.value in Targets(paths, all) {
        assert SourceOf(p.value) in Sources(Targets(paths, all));
      } else {
        RedirectRulesGrow(Targets(paths, all), p.value);
      }
    }
  }

  lemma {:induction false} SelectedIff(all: seq<Path>, path: string)
    ensures Selected(all, path) <==>
      path in Values(all) || exists v :: v in Prefixes(all) && (v == "" || PathPrefixCovers(v, path))
  {
    PrefixesAre(all);
    if Selected(all, path) {
      var p :| p in all && Selects(p, path);
      if p.value == path {
        assert path in Values(all);
      } else {
        assert p == Path(PathPrefix, p.value) && p.value in Prefixes(all);
      }
    }
    if path in Values(all) {
      var p :| p in all && p.value == path;
      assert Selects(p, path);
    }
    forall v | v in Prefixes(all) && (v == "" || PathPrefixCovers(v, path))
      ensures Selected(all, path)
    {
      assert Selects(Path(PathPrefix, v), path);
    }
  }

  lemma {:induction false} SourceDetermines(t: string, u: string)
    requires IsSlashed(t) && IsSlashed(u)
    ensures SourceOf(t) == SourceOf(u) <==> t == u
  {
    assert t == SourceOf(t) + ['/'] && u == SourceOf(u) + ['/'];
  }

  // ---- What the redirects are worth ---------------------------------------------------------------

  /** Complete and exact: one redirect for every path that needs one, and no other. */
  lemma {:induction false} TargetsAreExact(paths: seq<Path>, all: seq<Path>)
    ensures forall t :: t in Targets(paths, all) <==> exists p :: p in paths && p.value == t && NeedsRedirect(p, all)
    ensures forall i, j :: 0 <= i < j < |Targets(paths, all)| ==> Targets(paths, all)[i] != Targets(paths, all)[j]
  {
    if paths != [] {
      TargetsAreExact(paths[..|paths| - 1], all);
      assert paths == paths[..|paths| - 1] + [paths[|paths| - 1]];
    }
  }

  predicate RedirectsFrom(rule: Rule, path: string) {
    |rule.matches| == 1 && rule.matches[0] == NewRouteMatch(Exact, path)
  }

  /** Never in the way: no path that an existing match selects is the source of a redirect. */
  lemma {:induction false} RedirectsShadowNothing(rules: seq<Rule>, path: string, r: Rule)
    requires r in TrailingSlashRules(rules)
    requires Selected(Paths(rules), path)
    ensures !RedirectsFrom(r, path)
  {
    var all := Paths(rules);
    TargetsAreExact(all, all);
    var i :| 0 <= i < |TrailingSlashRules(rules)| && r == TrailingSlashRules(rules)[i];
    var target := Targets(all, all)[i];
    assert target in Targets(all, all);
    assert r.matches[0].path.value.value.value == SourceOf(target);
  }

  lemma {:induction false} TargetOfRedirect(rules: seq<Rule>, r: Rule) returns (target: string)
    requires r in TrailingSlashRules(rules)
    ensures IsSlashed(target) && r == RedirectRule(target) && Selected(Paths(rules), target)
  {
    var all := Paths(rules);
    TargetsAreExact(all, all);
    var i :| 0 <= i < |TrailingSlashRules(rules)| && r == TrailingSlashRules(rules)[i];
    target := Targets(all, all)[i];
    assert target in Targets(all, all);
    var p :| p in all && p.value == target && NeedsRedirect(p, all);
    assert Selects(p, target);
  }

  /** Never a chain: a redirect leads to a path that an existing match selects, and that no redirect
      leaves from. */
  lemma {:induction false} RedirectsDoNotChain(rules: seq<Rule>, r: Rule)
    requires r in TrailingSlashRules(rules)
    ensures exists target: string, source: string ::
      && RedirectsFrom(r, source) && target == source + "/"
      && r.filters == [RequestRedirect(Redirect(None, None, None, Some(301), Some(target)))]
      && Selected(Paths(rules), target)
      && forall r' :: r' in TrailingSlashRules(rules) ==> !RedirectsFrom(r', target)
  {
    var target := TargetOfRedirect(rules, r);
    assert RedirectsFrom(r, SourceOf(target)) && target == SourceOf(target) + "/";
    forall r' | r' in TrailingSlashRules(rules)
      ensures !RedirectsFrom(r', target)
    {
      RedirectsShadowNothing(rules, target, r');
    }
  }

  /** Every eligible path has its redirect, and exactly one rule leaves from its source. */
  lemma {:induction false} OneRedirectPerPath(rules: seq<Rule>, p: Path)
    requires p in Paths(rules) && NeedsRedirect(p, Paths(rules))
    ensures var redirects := TrailingSlashRules(rules);
      exists i | 0 <= i < |redirects| ::
        && redirects[i] == RedirectRule(p.value)
        && (forall j | 0 <= j < |redirects| && j != i :: !RedirectsFrom(redirects[j], SourceOf(p.value)))
  {
    var all := Paths(rules);
    var ts := Targets(all, all);
    TargetsAreExact(all, all);
    assert p.value in ts;
    var i :| 0 <= i < |ts| && ts[i] == p.value;
    assert TrailingSlashRules(rules)[i] == RedirectRule(p.value);
    forall j | 0 <= j < |ts| && j != i
      ensures !RedirectsFrom(TrailingSlashRules(rules)[j], SourceOf(p.value))
    {
      assert ts[j] in ts && ts[j] != ts[i];
      SourceDetermines(ts[j], p.value);
      assert TrailingSlashRules(rules)[j] == RedirectRule(ts[j]);
    }
  }
}
