/** Optional values and duplicate-free lists, which several components share. */
module Basics {

  datatype Option<+T> = None | Some(value: T)

  /** Position of the first element with the property, or -1. */
  function FirstIndex<T>(s: seq<T>, p: T -> bool): (i: int)
    ensures -1 <= i < |s|
    ensures i >= 0 ==> p(s[i]) && forall j :: 0 <= j < i ==> !p(s[j])
    ensures i == -1 ==> forall j :: 0 <= j < |s| ==> !p(s[j])
  {
    if s == [] then -1
    else if p(s[0]) then 0
    else
      var rest := FirstIndex(s[1..], p);
      if rest == -1 then -1 else rest + 1
  }

  predicate Distinct(s: seq<string>) {
    forall i, j :: 0 <= i < j < |s| ==> s[i] != s[j]
  }

  /** Deleting an element from an insertion-ordered set. */
  function Without(s: seq<string>, x: string): (r: seq<string>)
    ensures x !in r && forall y :: y in r <==> y in s && y != x
    ensures |r| <= |s|
  {
    if s == [] then []
    else if s[0] == x then Without(s[1..], x)
    else [s[0]] + Without(s[1..], x)
  }

  lemma {:induction false} WithoutAbsent(s: seq<string>, x: string)
    requires x !in s
    ensures Without(s, x) == s
  {
    if s == [] {
    } else {
      WithoutAbsent(s[1..], x);
    }
  }

  lemma {:induction false} WithoutDistinct(s: seq<string>, x: string)
    requires Distinct(s)
    ensures Distinct(Without(s, x))
  {
    if s == [] {
    } else {
      WithoutDistinct(s[1..], x);
      assert s[0] !in s[1..];
    }
  }

  /** `[...new Set(list)]`: first occurrences, in order. */
  function Unique(s: seq<string>): (r: seq<string>)
    ensures Distinct(r) && forall x :: x in r <==> x in s
  {
    if s == [] then []
    else
      var init := Unique(s[..|s| - 1]);
      assert s == s[..|s| - 1] + [s[|s| - 1]];
      if s[|s| - 1] in init then init else init + [s[|s| - 1]]
  }

  lemma {:induction false} UniqueExtends(a: seq<string>, b: seq<string>)
    requires Distinct(a)
    ensures a <= Unique(a + b)
  {
    if b == [] {
      assert a + b == a;
      UniqueOfDistinct(a);
    } else {
      assert (a + b)[..|a + b| - 1] == a + b[..|b| - 1];
      UniqueExtends(a, b[..|b| - 1]);
    }
  }

  lemma {:induction false} UniqueOfDistinct(a: seq<string>)
    requires Distinct(a)
    ensures Unique(a) == a
  {
    if a == [] {
    } else {
      UniqueOfDistinct(a[..|a| - 1]);
      assert a == a[..|a| - 1] + [a[|a| - 1]];
    }
  }

  /** The distinct elements seen so far keep their places as the list goes on. */
  lemma {:induction false} UniqueGrows(s: seq<string>, k: nat)
    requires k <= |s|
    ensures Unique(s[..k]) <= Unique(s)
  {
    if k == |s| {
      assert s[..k] == s;
    } else {
      var init := s[..|s| - 1];
      assert init[..k] == s[..k];
      UniqueGrows(init, k);
    }
  }

  lemma {:induction false} UniqueSnoc(s: seq<string>, x: string)
    ensures Unique(s + [x]) == if x in s then Unique(s) else Unique(s) + [x]
  {
    assert (s + [x])[..|s|] == s;
  }
}
