module CommonNames {
  /** Names made from hosts (pkg/i2gw/providers/common/utils.go). */

  predicate IsAlphanumeric(c: char) {
    'a' <= c <= 'z' || 'A' <= c <= 'Z' || '0' <= c <= '9'
  }

  /** Every run of other characters becomes one dash; `inRun` tells that one is under way. */
  function DashRuns(s: string, inRun: bool): string {
    if s == "" then ""
    else if IsAlphanumeric(s[0]) then [s[0]] + DashRuns(s[1..], false)
    else (if inRun then "" else "-") + DashRuns(s[1..], true)
  }

  function TrimStart(s: string): string {
    if s != "" && !IsAlphanumeric(s[0]) then TrimStart(s[1..]) else s
  }

  function NameFromHost(host: string): string {
    if host == "" || host == "*" then "all-hosts" else TrimStart(DashRuns(host, false))
  }

  function RouteName(ingressName: string, host: string): string {
    ingressName + "-" + NameFromHost(host)
  }

  /** Letters, digits and single dots, starting with a letter or digit: no dash and no wildcard. */
  predicate IsPlain(host: string) {
    && host != "" && IsAlphanumeric(host[0]) && SingleDots(host)
  }

  predicate SingleDots(s: string) {
    s == "" || ((IsAlphanumeric(s[0]) || (s[0] == '.' && (|s| > 1 ==> IsAlphanumeric(s[1])))) && SingleDots(s[1..]))
  }

  lemma {:induction false} DashRunsInjective(a: string, b: string)
    requires SingleDots(a) && SingleDots(b) && DashRuns(a, false) == DashRuns(b, false)
    ensures a == b
  {
    if a == "" || b == "" {
      assert a != "" ==> |DashRuns(a, false)| > 0;
      assert b != "" ==> |DashRuns(b, false)| > 0;
    } else {
      AfterDot(a);
      AfterDot(b);
      var da, db := DashRuns(a, false), DashRuns(b, false);
      assert da[1..] == DashRuns(a[1..], false) && db[1..] == DashRuns(b[1..], false);
      DashRunsInjective(a[1..], b[1..]);
      assert a == [a[0]] + a[1..] && b == [b[0]] + b[1..];
    }
  }

  lemma {:induction false} AfterDot(s: string)
    requires s != "" && SingleDots(s)
    ensures DashRuns(s, false) == [if s[0] == '.' then '-' else s[0]] + DashRuns(s[1..], false)
  {
  }

  /** The host with a dash for every dot. */
  ghost predicate DotsToDashes(host: string, name: string) {
    |name| == |host| && forall i :: 0 <= i < |host| ==> name[i] == if host[i] == '.' then '-' else host[i]
  }

  lemma {:induction false} DashRunsOfDots(s: string)
    requires SingleDots(s)
    ensures DotsToDashes(s, DashRuns(s, false))
  {
    if s != "" {
      AfterDot(s);
      DashRunsOfDots(s[1..]);
      var rest := DashRuns(s[1..], false);
      forall i | 0 < i < |s|
        ensures DashRuns(s, false)[i] == if s[i] == '.' then '-' else s[i]
      {
        assert rest[i - 1] == if s[1..][i - 1] == '.' then '-' else s[1..][i - 1];
      }
    }
  }

  /** The name of a route: that of its ingress and, after a dash, that of its host: "all-hosts" for none and
      for the wildcard alone, and for a plain host the host with its dots replaced. */
  lemma {:induction false} NamesInFull(ingressName: string, host: string)
    ensures RouteName(ingressName, host) == ingressName + "-" + NameFromHost(host)
    ensures host == "" || host == "*" ==> NameFromHost(host) == "all-hosts"
    ensures IsPlain(host) ==> DotsToDashes(host, NameFromHost(host))
  {
    if IsPlain(host) {
      DashRunsOfDots(host);
    }
  }

  /** Plain hosts have different names. */
  lemma {:induction false} PlainHostsHaveTheirNames(a: string, b: string)
    requires IsPlain(a) && IsPlain(b)
    ensures NameFromHost(a) == NameFromHost(b) <==> a == b
  {
    if NameFromHost(a) == NameFromHost(b) {
      DashRunsInjective(a, b);
    }
  }

  lemma {:induction false} NameOfOne(c: char, inRun: bool)
    requires IsAlphanumeric(c)
    ensures DashRuns([c], inRun) == [c]
  {
    assert [c][1..] == "";
  }

  /** In general they do not: the dash is also what a dot becomes. */
  lemma {:induction false} DotAndDashShareAName()
    ensures NameFromHost("a.b") == NameFromHost("a-b")
  {
    NameOfOne('b', true);
    assert ".b"[1..] == "b" && "-b"[1..] == "b";
    assert DashRuns(".b", false) == "-b" && DashRuns("-b", false) == "-b";
    assert "a.b"[1..] == ".b" && "a-b"[1..] == "-b";
  }

  /** Nor is a wildcard told from its domain. */
  lemma {:induction false} WildcardSharesAName()
    ensures NameFromHost("*.a") == NameFromHost("a")
  {
    NameOfOne('a', true);
    NameOfOne('a', false);
    assert ".a"[1..] == "a" && "*.a"[1..] == ".a";
    assert DashRuns(".a", true) == "a" && DashRuns("*.a", false) == "-a";
    assert "-a"[1..] == "a";
  }
}
