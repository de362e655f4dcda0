/** Go's sorts: sort.Strings by the byte order of strings, slices.Compact, and sort.Sort, which is not stable. */
module Sorting {
  import opened Grouping

  /** The order of Go's strings, here by characters. */
  predicate AtMost(a: string, b: string) {
    a == "" || (b != "" && (a[0] < b[0] || (a[0] == b[0] && AtMost(a[1..], b[1..]))))
  }

  /** At the first place where two strings differ, the smaller character decides; a string comes before what
      it starts. */
  ghost predicate ComesBefore(a: string, b: string) {
    a <= b || exists k: nat :: k < |a| && k < |b| && a[..k] == b[..k] && a[k] < b[k]
  }

  lemma {:induction false} AtMostIff(a: string, b: string)
    ensures AtMost(a, b) <==> ComesBefore(a, b)
  {
    if a != "" && b != "" {
      AtMostIff(a[1..], b[1..]);
      forall k: nat | 0 < k <= |a| && k <= |b| && a[..k] == b[..k]
        ensures a[0] == b[0]
      {
        assert a[..k][0] == a[0] && b[..k][0] == b[0];
      }
      if a[0] == b[0] {
        if k: nat :| k < |a[1..]| && k < |b[1..]| && a[1..][..k] == b[1..][..k] && a[1..][k] < b[1..][k] {
          assert a[..k + 1] == [a[0]] + a[1..][..k] && b[..k + 1] == [b[0]] + b[1..][..k];
          assert a[k + 1] < b[k + 1];
        }
        if k: nat :| k < |a| && k < |b| && a[..k] == b[..k] && a[k] < b[k] {
          assert a[1..][..k - 1] == a[..k][1..] && b[1..][..k - 1] == b[..k][1..];
          assert a[1..][k - 1] < b[1..][k - 1];
        }
      } else {
        assert a[..0] == b[..0];
      }
    }
  }

  ghost predicate Preorder<T(!new)>(le: (T, T) -> bool) {
    (forall x, y :: le(x, y) || le(y, x)) && forall x, y, z :: le(x, y) && le(y, z) ==> le(x, z)
  }

  lemma {:induction false} AtMostTotal(a: string, b: string)
    ensures AtMost(a, b) || AtMost(b, a)
    ensures AtMost(a, b) && AtMost(b, a) ==> a == b
  {
    if a != "" && b != "" && a[0] == b[0] {
      AtMostTotal(a[1..], b[1..]);
      assert a == [a[0]] + a[1..] && b == [b[0]] + b[1..];
    }
  }

  lemma {:induction false} AtMostTransitive(a: string, b: string, c: string)
    requires AtMost(a, b) && AtMost(b, c)
    ensures AtMost(a, c)
  {
    if a != "" && a[0] == b[0] == c[0] {
      AtMostTransitive(a[1..], b[1..], c[1..]);
    }
  }

  lemma {:induction false} AtMostIsPreorder()
    ensures Preorder(AtMost)
  {
    forall x, y
      ensures AtMost(x, y) || AtMost(y, x)
    {
      AtMostTotal(x, y);
    }
    forall x, y, z | AtMost(x, y) && AtMost(y, z)
      ensures AtMost(x, z)
    {
      AtMostTransitive(x, y, z);
    }
  }

  ghost predicate Sorted<T>(s: seq<T>, le: (T, T) -> bool) {
    s == [] || ((forall x :: x in s[1..] ==> le(s[0], x)) && Sorted(s[1..], le))
  }

  function Insert<T>(x: T, s: seq<T>, le: (T, T) -> bool): seq<T>
    decreases |s|
  {
    if s == [] then [x]
    else if le(x, s[0]) then [x] + s
    else [s[0]] + Insert(x, s[1..], le)
  }

  function Sort<T>(s: seq<T>, le: (T, T) -> bool): seq<T> {
    if s == [] then [] else Insert(s[0], Sort(s[1..], le), le)
  }

  lemma {:induction false} InsertPermutes<T>(x: T, s: seq<T>, le: (T, T) -> bool)
    ensures multiset(Insert(x, s, le)) == multiset{x} + multiset(s)
    decreases |s|
  {
    if s != [] {
      assert s == [s[0]] + s[1..];
      InsertPermutes(x, s[1..], le);
    }
  }

  lemma {:induction false} InsertSorts<T(!new)>(x: T, s: seq<T>, le: (T, T) -> bool)
    requires Preorder(le) && Sorted(s, le)
    ensures Sorted(Insert(x, s, le), le)
  {
    if s != [] && le(x, s[0]) {
      assert ([x] + s)[1..] == s;
      assert forall y :: y in s ==> y == s[0] || y in s[1..];
    } else if s != [] {
      InsertSorts(x, s[1..], le);
      var r := Insert(x, s[1..], le);
      assert ([s[0]] + r)[1..] == r;
      forall y | y in r
        ensures le(s[0], y)
      {
        InsertPermutes(x, s[1..], le);
        assert y in multiset(r);
      }
    }
  }

  lemma {:induction false} SortSorts<T(!new)>(s: seq<T>, le: (T, T) -> bool)
    requires Preorder(le)
    ensures Sorted(Sort(s, le), le) && multiset(Sort(s, le)) == multiset(s)
  {
    if s != [] {
      SortSorts(s[1..], le);
      InsertSorts(s[0], Sort(s[1..], le), le);
      InsertPermutes(s[0], Sort(s[1..], le), le);
      assert s == [s[0]] + s[1..];
    }
  }

  /** Earlier elements of a sorted list are at most later ones. */
  lemma {:induction false} SortedAt<T>(s: seq<T>, le: (T, T) -> bool, i: nat, j: nat)
    requires Sorted(s, le) && i < j < |s|
    ensures le(s[i], s[j])
  {
    if i == 0 {
      assert s[j] == s[1..][j - 1];
    } else {
      SortedAt(s[1..], le, i - 1, j - 1);
    }
  }

  /** sort.Strings: strings that compare equal are equal, so that there is one result. */
  function SortStrings(s: seq<string>): seq<string> {
    Sort(s, AtMost)
  }

  lemma {:induction false} SortStringsSorts(s: seq<string>)
    ensures Sorted(SortStrings(s), AtMost) && multiset(SortStrings(s)) == multiset(s)
    ensures forall x :: x in SortStrings(s) <==> x in s
  {
    AtMostIsPreorder();
    SortSorts(s, AtMost);
    forall x
      ensures x in SortStrings(s) <==> x in s
    {
      assert x in multiset(SortStrings(s)) <==> x in multiset(s);
    }
  }

  /** sort.Sort, of which callers know no more than this. */
  method SortBy<T(!new)>(s: seq<T>, le: (T, T) -> bool) returns (r: seq<T>)
    requires Preorder(le)
    ensures Sorted(r, le) && multiset(r) == multiset(s)
  {
    SortSorts(s, le);
    r := Sort(s, le);
  }

  /** slices.Compact: one of each run of equal elements. */
  function Compact<T(==, !new)>(s: seq<T>): (r: seq<T>)
    ensures forall x :: x in r <==> x in s
  {
    if |s| <= 1 then s
    else
      assert s == [s[0]] + s[1..];
      if s[0] == s[1] then Compact(s[1..]) else [s[0]] + Compact(s[1..])
  }

  /** Of a sorted list nothing is left twice. */
  lemma {:induction false} CompactSorted(s: seq<string>)
    requires Sorted(s, AtMost)
    ensures NoDuplicates(Compact(s))
  {
    if |s| > 1 {
      CompactSorted(s[1..]);
      if s[0] != s[1] {
        var r := Compact(s[1..]);
        assert s[0] !in r by {
          AtMostTotal(s[0], s[1]);
          assert s[1..][0] == s[1] && AtMost(s[0], s[1]);
          assert forall x :: x in s[1..] ==> x == s[1] || x in s[1..][1..];
        }
        assert forall j :: 0 <= j < |r| ==> r[j] in r;
      }
    }
  }

  lemma {:induction false} FirstIsLeast<T>(s: seq<T>, x: T, le: (T, T) -> bool)
    requires Sorted(s, le) && x in s
    ensures x == s[0] || le(s[0], x)
  {
    assert s == [s[0]] + s[1..];
  }

  lemma {:induction false} SameFirst<T(!new)>(a: seq<T>, b: seq<T>, le: (T, T) -> bool)
    requires Sorted(a, le) && Sorted(b, le) && multiset(a) == multiset(b) && a != [] && b != []
    requires forall x, y :: x in a && y in a && le(x, y) && le(y, x) ==> x == y
    ensures a[0] == b[0]
  {
    assert a[0] in multiset(b) && b[0] in multiset(a);
    FirstIsLeast(b, a[0], le);
    FirstIsLeast(a, b[0], le);
  }

  /** Strictly sorted lists with the same elements are one list. */
  lemma {:induction false} SortedIsUnique<T(!new)>(a: seq<T>, b: seq<T>, le: (T, T) -> bool)
    requires Sorted(a, le) && Sorted(b, le) && multiset(a) == multiset(b)
    requires forall x, y :: x in a && y in a && le(x, y) && le(y, x) ==> x == y
    ensures a == b
  {
    assert |multiset(a)| == |a| && |multiset(b)| == |b|;
    if a != [] {
      SameFirst(a, b, le);
      WithoutOne(a, 0);
      WithoutOne(b, 0);
      assert Without(a, 0) == a[1..] && Without(b, 0) == b[1..];
      SortedIsUnique(a[1..], b[1..], le);
      assert a == [a[0]] + a[1..] && b == [b[0]] + b[1..];
    }
  }
}
