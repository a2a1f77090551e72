// Strict total orders and the one sorted listing of a finite set.
module Ordering {
  ghost predicate StrictTotalOrder<K(!new)>(lt: (K, K) -> bool) {
    && (forall x :: !lt(x, x))
    && (forall x, y, z :: lt(x, y) && lt(y, z) ==> lt(x, z))
    && (forall x, y :: x == y || lt(x, y) || lt(y, x))
  }

  ghost predicate Sorted<K>(s: seq<K>, lt: (K, K) -> bool) {
    forall i, j :: 0 <= i < j < |s| ==> lt(s[i], s[j])
  }

  ghost function Elements<K>(s: seq<K>): set<K> {
    set x | x in s
  }

  predicate IsLeast<K(==)>(x: K, s: set<K>, lt: (K, K) -> bool) {
    x in s && forall y :: y in s && y != x ==> lt(x, y)
  }

  lemma {:induction false} LeastExists<K(!new)>(s: set<K>, lt: (K, K) -> bool) returns (least: K)
    requires StrictTotalOrder(lt) && s != {}
    ensures IsLeast(least, s, lt)
  {
    least :| least in s;
    if s != {least} {
      assert s - {least} != {};
      var other := LeastExists(s - {least}, lt);
      if lt(other, least) {
        least := other;
      }
    }
  }

  lemma ConsSorted<K(!new)>(least: K, rest: seq<K>, s: set<K>, lt: (K, K) -> bool)
    requires StrictTotalOrder(lt) && IsLeast(least, s, lt)
    requires Sorted(rest, lt) && Elements(rest) == s - {least}
    ensures Sorted([least] + rest, lt) && Elements([least] + rest) == s
  {
    forall j | 0 <= j < |rest|
      ensures lt(least, rest[j])
    {
      assert rest[j] in Elements(rest);
    }
    assert forall x :: x in rest <==> x in Elements(rest);
    assert forall x :: x in [least] + rest <==> x == least || x in rest;
  }

  // ORDER BY: the elements of s, each once, in increasing order.
  function Sort<K(!new, ==)>(s: set<K>, lt: (K, K) -> bool): (r: seq<K>)
    requires StrictTotalOrder(lt)
    ensures Sorted(r, lt) && Elements(r) == s && |r| == |s|
    decreases |s|
  {
    if s == {} then []
    else
      assert exists x :: x in s && IsLeast(x, s, lt) by { var _ := LeastExists(s, lt); }
      var least :| least in s && IsLeast(least, s, lt);
      var rest := Sort(s - {least}, lt);
      ConsSorted(least, rest, s, lt);
      [least] + rest
  }

  lemma TailElements<K(!new)>(a: seq<K>, lt: (K, K) -> bool)
    requires StrictTotalOrder(lt) && Sorted(a, lt) && |a| > 0
    ensures Elements(a[1..]) == Elements(a) - {a[0]}
  {
    forall x | x in a[1..]
      ensures x in a && x != a[0]
    {
      var i :| 0 <= i < |a[1..]| && a[1..][i] == x;
      assert x == a[i + 1] && lt(a[0], a[i + 1]);
    }
    forall x | x in a && x != a[0]
      ensures x in a[1..]
    {
      var i :| 0 <= i < |a| && a[i] == x;
      assert a[1..][i - 1] == x;
    }
  }

  lemma {:induction false} SortedSize<K(!new)>(a: seq<K>, lt: (K, K) -> bool)
    requires StrictTotalOrder(lt) && Sorted(a, lt)
    ensures |Elements(a)| == |a|
  {
    if |a| == 0 {
      assert Elements(a) == {};
    } else {
      assert a[0] in Elements(a);
      TailElements(a, lt);
      SortedSize(a[1..], lt);
    }
  }

  lemma {:induction false} SortedIsUnique<K(!new)>(a: seq<K>, b: seq<K>, lt: (K, K) -> bool)
    requires StrictTotalOrder(lt) && Sorted(a, lt) && Sorted(b, lt)
    requires Elements(a) == Elements(b)
    ensures a == b
  {
    SortedSize(a, lt);
    SortedSize(b, lt);
    if |a| == 0 {
    } else {
      assert a[0] in Elements(a) && a[0] in b;
      assert b[0] in Elements(b) && b[0] in a;
      assert a[0] == b[0];
      TailElements(a, lt);
      TailElements(b, lt);
      SortedIsUnique(a[1..], b[1..], lt);
      assert a == [a[0]] + a[1..] && b == [b[0]] + b[1..];
    }
  }

  // A sorted list of exactly the elements of s is Sort(s).
  lemma SortIsOnly<K(!new)>(r: seq<K>, s: set<K>, lt: (K, K) -> bool)
    requires StrictTotalOrder(lt) && Sorted(r, lt) && Elements(r) == s
    ensures r == Sort(s, lt)
  {
    SortedIsUnique(r, Sort(s, lt), lt);
  }
}
