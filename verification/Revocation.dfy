/** Cascading revocation of delegated permissions: everything derived, directly or through other
    permissions, from the revoked one. */
module Revocation {
  import opened Basics

  datatype Permission = Permission(permissionId: string, derivedFrom: Option<string>)

  // ----- specification: chains of derivations -------------------------------

  predicate Derives(permissions: seq<Permission>, parent: string, child: string) {
    Permission(child, Some(parent)) in permissions
  }

  predicate Chain(permissions: seq<Permission>, c: seq<string>) {
    c != [] && forall i :: 0 <= i < |c| - 1 ==> Derives(permissions, c[i], c[i + 1])
  }

  predicate ChainTo(permissions: seq<Permission>, c: seq<string>, root: string, id: string) {
    Chain(permissions, c) && c[0] == root && c[|c| - 1] == id
  }

  /** `id` is the revoked permission or derives from it through some chain. */
  ghost predicate DerivedFrom(permissions: seq<Permission>, root: string, id: string) {
    exists c :: ChainTo(permissions, c, root, id)
  }

  lemma {:induction false} ChainExtends(permissions: seq<Permission>, root: string, parent: string, child: string)
    requires DerivedFrom(permissions, root, parent) && Derives(permissions, parent, child)
    ensures DerivedFrom(permissions, root, child)
  {
    var c :| ChainTo(permissions, c, root, parent);
    var longer := c + [child];
    forall i | 0 <= i < |longer| - 1
      ensures Derives(permissions, longer[i], longer[i + 1])
    {
      if i < |c| - 1 {
        assert Derives(permissions, c[i], c[i + 1]);
      }
    }
    assert ChainTo(permissions, longer, root, child);
  }

  ghost predicate Closed(permissions: seq<Permission>, revoked: seq<string>) {
    forall p :: p in permissions && p.derivedFrom.Some? && p.derivedFrom.value in revoked ==> p.permissionId in revoked
  }

  lemma {:induction false} ClosedHoldsChain(permissions: seq<Permission>, revoked: seq<string>, c: seq<string>)
    requires Closed(permissions, revoked) && Chain(permissions, c) && c[0] in revoked
    ensures c[|c| - 1] in revoked
  {
    if |c| > 1 {
      var shorter := c[..|c| - 1];
      assert Chain(permissions, shorter);
      ClosedHoldsChain(permissions, revoked, shorter);
      assert Derives(permissions, c[|c| - 2], c[|c| - 1]);
    }
  }

  // ----- the default sort order of strings ----------------------------------

  predicate Less(a: string, b: string) {
    b != [] && (a == [] || a[0] < b[0] || (a[0] == b[0] && Less(a[1..], b[1..])))
  }

  /** Dictionary order: a proper prefix, or the smaller character at the first difference. */
  lemma {:induction false} LessMeans(a: string, b: string)
    ensures Less(a, b) <==>
            || (|a| < |b| && a == b[..|a|])
            || exists k :: 0 <= k < |a| && k < |b| && a[..k] == b[..k] && a[k] < b[k]
  {
    if a == [] || b == [] {
    } else if a[0] != b[0] {
      assert a[..0] == b[..0];
      forall k | 0 < k < |a| && k < |b|
        ensures a[..k] != b[..k]
      {
        assert a[..k][0] == a[0] && b[..k][0] == b[0];
      }
    } else {
      LessMeans(a[1..], b[1..]);
      LessTails(a, b);
    }
  }

  lemma {:induction false} LessTails(a: string, b: string)
    requires a != [] && b != [] && a[0] == b[0]
    ensures |a| < |b| && a == b[..|a|] <==> |a[1..]| < |b[1..]| && a[1..] == b[1..][..|a[1..]|]
    ensures (exists k :: 0 <= k < |a| && k < |b| && a[..k] == b[..k] && a[k] < b[k]) <==>
            (exists k :: 0 <= k < |a[1..]| && k < |b[1..]| && a[1..][..k] == b[1..][..k] && a[1..][k] < b[1..][k])
  {
    var x, y := a[1..], b[1..];
    assert a == [a[0]] + x && b == [b[0]] + y;
    if |a| < |b| {
      assert b[..|a|] == [b[0]] + y[..|x|];
    }
    forall k | 0 <= k < |x| && k < |y|
      ensures a[..k + 1] == b[..k + 1] <==> x[..k] == y[..k]
      ensures x[k] == a[k + 1] && y[k] == b[k + 1]
    {
      assert a[..k + 1] == [a[0]] + x[..k] && b[..k + 1] == [b[0]] + y[..k];
      assert a[..k + 1][1..] == x[..k] && b[..k + 1][1..] == y[..k];
    }
    if k :| 0 <= k < |a| && k < |b| && a[..k] == b[..k] && a[k] < b[k] {
      assert k > 0 && x[..k - 1] == y[..k - 1] && x[k - 1] < y[k - 1];
    }
    if k :| 0 <= k < |x| && k < |y| && x[..k] == y[..k] && x[k] < y[k] {
      assert a[..k + 1] == b[..k + 1] && a[k + 1] < b[k + 1];
    }
  }

  lemma {:induction false} LessTransitive(a: string, b: string, c: string)
    requires Less(a, b) && Less(b, c)
    ensures Less(a, c)
  {
    if a != [] && a[0] == b[0] == c[0] {
      LessTransitive(a[1..], b[1..], c[1..]);
    }
  }

  lemma {:induction false} LessTotal(a: string, b: string)
    ensures a == b || Less(a, b) || Less(b, a)
    ensures !(Less(a, b) && Less(b, a)) && !Less(a, a)
  {
    if a != [] && b != [] && a[0] == b[0] {
      LessTotal(a[1..], b[1..]);
      assert a == [a[0]] + a[1..] && b == [b[0]] + b[1..];
    }
    if a == [] {
    } else {
      LessTotal(a[1..], a[1..]);
    }
  }

  /** Ascending and without duplicates. */
  predicate StrictlySorted(s: seq<string>) {
    forall i, j :: 0 <= i < j < |s| ==> Less(s[i], s[j])
  }

  function Insert(id: string, s: seq<string>): seq<string> {
    if s == [] || Less(id, s[0]) then [id] + s
    else if id == s[0] then s
    else [s[0]] + Insert(id, s[1..])
  }

  lemma {:induction false} InsertSorts(id: string, s: seq<string>)
    requires StrictlySorted(s)
    ensures StrictlySorted(Insert(id, s))
    ensures forall x :: x in Insert(id, s) <==> x == id || x in s
  {
    if s == [] {
    } else if Less(id, s[0]) {
      forall j | 0 < j < |s|
        ensures Less(id, s[j])
      {
        LessTransitive(id, s[0], s[j]);
      }
    } else if id != s[0] {
      LessTotal(id, s[0]);
      assert s == [s[0]] + s[1..];
      InsertSorts(id, s[1..]);
      assert forall x :: x in s[1..] ==> Less(s[0], x);
    }
  }

  /** A strictly sorted sequence is determined by its elements. */
  lemma {:induction false} SortedUnique(s: seq<string>, t: seq<string>)
    requires StrictlySorted(s) && StrictlySorted(t)
    requires forall x :: x in s <==> x in t
    ensures s == t
  {
    assert t != [] ==> t[0] in t;
    if s == [] {
    } else {
      assert s[0] in t && t != [] && t[0] in s;
      LessTotal(s[0], t[0]);
      LessTotal(s[0], s[0]);
      LessTotal(t[0], t[0]);
      assert s[0] == t[0];
      assert s == [s[0]] + s[1..] && t == [t[0]] + t[1..];
      assert forall x :: x in s[1..] ==> Less(s[0], x);
      assert forall x :: x in t[1..] ==> Less(t[0], x);
      assert forall x :: x in s[1..] <==> x in s && x != s[0];
      assert forall x :: x in t[1..] <==> x in t && x != t[0];
      SortedUnique(s[1..], t[1..]);
    }
  }

  // ----- the fixpoint loop --------------------------------------------------

  function Ids(permissions: seq<Permission>): set<string> {
    set p | p in permissions :: p.permissionId
  }

  /** Returns exactly the permissions derived from the revoked one, sorted, each once. */
  method CascadeRevokePermission(permissionId: string, permissions: seq<Permission>) returns (result: seq<string>)
    ensures StrictlySorted(result)
    ensures forall id :: id in result <==> DerivedFrom(permissions, permissionId, id)
  {
    var revoked := [permissionId];
    assert ChainTo(permissions, [permissionId], permissionId, permissionId);
    var changed := true;
    while changed
      invariant permissionId in revoked
      invariant forall id :: id in revoked ==> DerivedFrom(permissions, permissionId, id)
      invariant !changed ==> Closed(permissions, revoked)
      decreases Ids(permissions) - (set id | id in revoked), changed
    {
      changed := false;
      ghost var before := revoked;
      for i := 0 to |permissions|
        invariant forall id :: id in before ==> id in revoked
        invariant permissionId in revoked
        invariant forall id :: id in revoked ==> DerivedFrom(permissions, permissionId, id)
        invariant !changed ==> revoked == before && Closed(permissions[..i], revoked)
        invariant changed ==> exists id :: id in Ids(permissions) && id in revoked && id !in before
      {
        var p := permissions[i];
        if p.derivedFrom.Some? && p.derivedFrom.value in revoked && p.permissionId !in revoked {
          ChainExtends(permissions, permissionId, p.derivedFrom.value, p.permissionId);
          revoked := revoked + [p.permissionId];
          changed := true;
          assert p.permissionId in Ids(permissions);
        }
      }
      assert permissions[..|permissions|] == permissions;
      if changed {
        ghost var id :| id in Ids(permissions) && id in revoked && id !in before;
        assert id in Ids(permissions) - (set x | x in before);
      }
    }
    result := SortIds(revoked);
    forall id | DerivedFrom(permissions, permissionId, id)
      ensures id in result
    {
      var c :| ChainTo(permissions, c, permissionId, id);
      ClosedHoldsChain(permissions, revoked, c);
    }
  }

  method SortIds(ids: seq<string>) returns (sorted: seq<string>)
    ensures StrictlySorted(sorted)
    ensures forall id :: id in sorted <==> id in ids
  {
    sorted := [];
    for i := 0 to |ids|
      invariant StrictlySorted(sorted)
      invariant forall id :: id in sorted <==> id in ids[..i]
    {
      InsertSorts(ids[i], sorted);
      sorted := Insert(ids[i], sorted);
    }
    assert ids[..|ids|] == ids;
  }

  /** The answer does not depend on the order or repetition of the permission list. */
  lemma {:induction false} OrderIndependent(permissionId: string, ps: seq<Permission>, qs: seq<Permission>, r: seq<string>, s: seq<string>)
    requires forall p :: p in ps <==> p in qs
    requires StrictlySorted(r) && forall id :: id in r <==> DerivedFrom(ps, permissionId, id)
    requires StrictlySorted(s) && forall id :: id in s <==> DerivedFrom(qs, permissionId, id)
    ensures r == s
  {
    forall c, id
      ensures ChainTo(ps, c, permissionId, id) <==> ChainTo(qs, c, permissionId, id)
    {
    }
    forall id
      ensures id in r <==> id in s
    {
      if DerivedFrom(ps, permissionId, id) {
        var c :| ChainTo(ps, c, permissionId, id);
        assert ChainTo(qs, c, permissionId, id);
      }
      if DerivedFrom(qs, permissionId, id) {
        var c :| ChainTo(qs, c, permissionId, id);
        assert ChainTo(ps, c, permissionId, id);
      }
    }
    SortedUnique(r, s);
  }
}
