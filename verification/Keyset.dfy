// Keyset pagination over any strict total order: the "fetch limit + 1, drop the extra row,
// resume strictly after the last row returned" scheme of MediaRepo.List and TagRepo.List.
module Keyset {
  import opened Common
  import opened Ordering

  // The rows strictly after the cursor in listing order.
  function Beyond<K>(keys: set<K>, cursor: Option<K>, lt: (K, K) -> bool): set<K> {
    set k | k in keys && (cursor.None? || lt(cursor.value, k))
  }

  // One page: up to limit keys, and the next cursor if the query saw one row more.
  ghost function PageOf<K(!new)>(keys: set<K>, cursor: Option<K>, limit: nat, lt: (K, K) -> bool)
    : (page: (seq<K>, Option<K>))
    requires StrictTotalOrder(lt) && limit > 0
  {
    var rest := Sort(Beyond(keys, cursor, lt), lt);
    if |rest| > limit then (rest[..limit], Some(rest[limit - 1])) else (rest, None)
  }

  // ---- An unchanging table ----

  // What is left after a full page is exactly the rest of the listing.
  lemma NextPageResumes<K(!new)>(keys: set<K>, cursor: Option<K>, limit: nat, lt: (K, K) -> bool)
    requires StrictTotalOrder(lt) && limit > 0
    requires PageOf(keys, cursor, limit, lt).1.Some?
    ensures var rest := Sort(Beyond(keys, cursor, lt), lt);
            Sort(Beyond(keys, PageOf(keys, cursor, limit, lt).1, lt), lt) == rest[limit..]
  {
    var rest := Sort(Beyond(keys, cursor, lt), lt);
    var next := Some(rest[limit - 1]);
    assert forall i :: 0 <= i < limit - 1 ==> lt(rest[i], rest[limit - 1]);
    forall k | k in Beyond(keys, next, lt)
      ensures k in rest[limit..]
    {
      assert rest[limit - 1] in Elements(rest);
      assert k in Elements(rest);
      var i :| 0 <= i < |rest| && rest[i] == k;
      assert rest[limit..][i - limit] == k;
    }
    forall k | k in rest[limit..]
      ensures k in Beyond(keys, next, lt)
    {
      var i :| 0 <= i < |rest[limit..]| && rest[limit..][i] == k;
      assert rest[limit + i] == k && k in Elements(rest);
      assert lt(rest[limit - 1], rest[limit + i]);
    }
    SortIsOnly(rest[limit..], Beyond(keys, next, lt), lt);
  }

  // The pages a client collects by following the next cursor until there is none.
  ghost function Walk<K(!new)>(keys: set<K>, cursor: Option<K>, limit: nat, lt: (K, K) -> bool): seq<seq<K>>
    requires StrictTotalOrder(lt) && limit > 0
    decreases |Beyond(keys, cursor, lt)|
  {
    var (page, next) := PageOf(keys, cursor, limit, lt);
    if next.None? then [page]
    else
      NextPageResumes(keys, cursor, limit, lt);
      [page] + Walk(keys, next, limit, lt)
  }

  ghost function Concat<K>(pages: seq<seq<K>>): seq<K> {
    if |pages| == 0 then [] else pages[0] + Concat(pages[1..])
  }

  lemma ConcatCons<K>(page: seq<K>, pages: seq<seq<K>>)
    ensures Concat([page] + pages) == page + Concat(pages)
  {
    assert ([page] + pages)[1..] == pages;
  }

  // n == max(1, ceil(rows / limit))
  ghost predicate IsPageCount(n: nat, rows: nat, limit: nat) {
    && n >= 1
    && rows <= n * limit
    && (n > 1 ==> (n - 1) * limit < rows)
  }

  lemma OneMorePage(n: nat, rows: nat, limit: nat)
    requires rows > limit > 0 && IsPageCount(n, rows - limit, limit)
    ensures IsPageCount(n + 1, rows, limit)
  {
    assert (n + 1) * limit == n * limit + limit;
    assert n * limit == (n - 1) * limit + limit;
    if n == 1 {
      assert n * limit == limit;
    }
  }

  // The pages make up the listing, in max(1, ceil(N / limit)) of them, all full but the last.
  ghost predicate Paginates<K>(pages: seq<seq<K>>, listing: seq<K>, limit: nat) {
    && Concat(pages) == listing
    && IsPageCount(|pages|, |listing|, limit)
    && (forall i :: 0 <= i < |pages| - 1 ==> |pages[i]| == limit)
  }

  lemma PrependPage<K>(listing: seq<K>, tail: seq<seq<K>>, limit: nat)
    requires 0 < limit < |listing| && Paginates(tail, listing[limit..], limit)
    ensures Paginates([listing[..limit]] + tail, listing, limit)
  {
    ConcatCons(listing[..limit], tail);
    OneMorePage(|tail|, |listing|, limit);
    assert listing[..limit] + listing[limit..] == listing;
  }

  // From an empty cursor, or any other, the walk returns what is left of the listing.
  lemma {:induction false} WalkIsComplete<K(!new)>(keys: set<K>, cursor: Option<K>, limit: nat, lt: (K, K) -> bool)
    requires StrictTotalOrder(lt) && limit > 0
    ensures Paginates(Walk(keys, cursor, limit, lt), Sort(Beyond(keys, cursor, lt), lt), limit)
    decreases |Beyond(keys, cursor, lt)|
  {
    var rest := Sort(Beyond(keys, cursor, lt), lt);
    var (page, next) := PageOf(keys, cursor, limit, lt);
    if next.None? {
      ConcatCons(page, []);
      assert [page] + [] == [page];
    } else {
      NextPageResumes(keys, cursor, limit, lt);
      WalkIsComplete(keys, next, limit, lt);
      PrependPage(rest, Walk(keys, next, limit, lt), limit);
    }
  }

  // ---- A table that changes between calls ----

  // One call of a client following the next cursor: the keys present at that moment, and the
  // limit asked for.
  datatype Call<K> = Call(keys: set<K>, limit: nat)

  ghost predicate Valid<K>(calls: seq<Call<K>>) {
    forall i :: 0 <= i < |calls| ==> calls[i].limit > 0
  }

  // Everything returned, up to the call that reports no next cursor.
  ghost function Returned<K(!new)>(calls: seq<Call<K>>, cursor: Option<K>, lt: (K, K) -> bool): seq<K>
    requires StrictTotalOrder(lt) && Valid(calls)
  {
    if |calls| == 0 then []
    else
      var (page, next) := PageOf(calls[0].keys, cursor, calls[0].limit, lt);
      page + if next.None? then [] else Returned(calls[1..], next, lt)
  }

  // Where the walk stands after the calls: None once a call has reported no next cursor.
  ghost function Position<K(!new)>(calls: seq<Call<K>>, cursor: Option<K>, lt: (K, K) -> bool): Option<K>
    requires StrictTotalOrder(lt) && Valid(calls)
  {
    if |calls| == 0 then cursor
    else
      var (page, next) := PageOf(calls[0].keys, cursor, calls[0].limit, lt);
      if next.None? then None else Position(calls[1..], next, lt)
  }

  lemma PageFacts<K(!new)>(keys: set<K>, cursor: Option<K>, limit: nat, lt: (K, K) -> bool)
    requires StrictTotalOrder(lt) && limit > 0
    ensures var (page, next) := PageOf(keys, cursor, limit, lt);
            && Sorted(page, lt)
            && |page| <= limit
            && (forall k :: k in page ==> k in keys && (cursor.Some? ==> lt(cursor.value, k)))
            && (next.Some? ==> |page| == limit && next.value == page[limit - 1])
            && (forall k :: k in keys && (cursor.Some? ==> lt(cursor.value, k)) ==>
                  k in page || (next.Some? && lt(next.value, k)))
  {
    var rest := Sort(Beyond(keys, cursor, lt), lt);
    var (page, next) := PageOf(keys, cursor, limit, lt);
    forall k | k in page
      ensures k in keys && (cursor.Some? ==> lt(cursor.value, k))
    {
      assert k in Elements(rest);
    }
    forall k | k in keys && (cursor.Some? ==> lt(cursor.value, k))
      ensures k in page || (next.Some? && lt(next.value, k))
    {
      assert k in Beyond(keys, cursor, lt) && k in Elements(rest);
      var i :| 0 <= i < |rest| && rest[i] == k;
      if next.Some? {
        if i < limit {
          assert page[i] == k;
        } else {
          assert lt(rest[limit - 1], rest[i]);
        }
      }
    }
  }

  // Whatever happens to the table between calls, the walk returns strictly increasing keys, so
  // never one twice, and only keys present at one of the calls.
  lemma {:induction false} NeverTwice<K(!new)>(calls: seq<Call<K>>, cursor: Option<K>, lt: (K, K) -> bool)
    requires StrictTotalOrder(lt) && Valid(calls)
    ensures Sorted(Returned(calls, cursor, lt), lt)
    ensures forall k :: k in Returned(calls, cursor, lt) ==>
              && (cursor.Some? ==> lt(cursor.value, k))
              && exists i :: 0 <= i < |calls| && k in calls[i].keys
  {
    if |calls| > 0 {
      var (page, next) := PageOf(calls[0].keys, cursor, calls[0].limit, lt);
      PageFacts(calls[0].keys, cursor, calls[0].limit, lt);
      if next.Some? {
        var tail := Returned(calls[1..], next, lt);
        NeverTwice(calls[1..], next, lt);
        var all := page + tail;
        forall i, j | 0 <= i < j < |all|
          ensures lt(all[i], all[j])
        {
          if i < |page| <= j {
            assert all[j] == tail[j - |page|] && all[j] in tail;
            assert lt(next.value, all[j]);
            assert i == |page| - 1 || lt(page[i], page[|page| - 1]);
          }
        }
        forall k | k in tail
          ensures (cursor.Some? ==> lt(cursor.value, k)) && exists i :: 0 <= i < |calls| && k in calls[i].keys
        {
          assert next.value in page;
          var i :| 0 <= i < |calls[1..]| && k in calls[1..][i].keys;
          assert k in calls[i + 1].keys;
        }
      }
    }
  }

  // A key present at every call is returned, unless the walk has not got to it yet. The row the
  // cursor came from plays no part: it may have been deleted.
  lemma {:induction false} NothingMissed<K(!new)>(calls: seq<Call<K>>, cursor: Option<K>, lt: (K, K) -> bool, k: K)
    requires StrictTotalOrder(lt) && Valid(calls) && |calls| > 0
    requires forall i :: 0 <= i < |calls| ==> k in calls[i].keys
    requires cursor.Some? ==> lt(cursor.value, k)
    ensures var position := Position(calls, cursor, lt);
            k in Returned(calls, cursor, lt) || (position.Some? && lt(position.value, k))
  {
    var (page, next) := PageOf(calls[0].keys, cursor, calls[0].limit, lt);
    PageFacts(calls[0].keys, cursor, calls[0].limit, lt);
    if k !in page && |calls| > 1 {
      NothingMissed(calls[1..], next, lt, k);
    }
  }

  // A finished walk returns every key present throughout exactly once.
  lemma ExactlyOnce<K(!new)>(calls: seq<Call<K>>, lt: (K, K) -> bool, k: K)
    requires StrictTotalOrder(lt) && Valid(calls) && |calls| > 0
    requires Position(calls, None, lt).None?
    requires forall i :: 0 <= i < |calls| ==> k in calls[i].keys
    ensures exists i :: 0 <= i < |Returned(calls, None, lt)| && Returned(calls, None, lt)[i] == k
                        && forall j :: 0 <= j < |Returned(calls, None, lt)| && j != i ==>
                            Returned(calls, None, lt)[j] != k
  {
    var returned := Returned(calls, None, lt);
    NothingMissed(calls, None, lt, k);
    NeverTwice(calls, None, lt);
    var i :| 0 <= i < |returned| && returned[i] == k;
    forall j | 0 <= j < |returned| && j != i
      ensures returned[j] != k
    {
      assert lt(returned[i], returned[j]) || lt(returned[j], returned[i]);
    }
  }

  // ---- Calls against an unchanging table ----

  function Repeat<T>(x: T, n: nat): (r: seq<T>)
    ensures |r| == n && forall i :: 0 <= i < n ==> r[i] == x
  {
    seq(n, _ => x)
  }

  lemma WalkUnfolds<K(!new)>(keys: set<K>, cursor: Option<K>, limit: nat, lt: (K, K) -> bool)
    requires StrictTotalOrder(lt) && limit > 0
    ensures var (page, next) := PageOf(keys, cursor, limit, lt);
            Walk(keys, cursor, limit, lt) == if next.None? then [page] else [page] + Walk(keys, next, limit, lt)
    ensures |Walk(keys, cursor, limit, lt)| >= 1
  {
    if PageOf(keys, cursor, limit, lt).1.Some? {
      NextPageResumes(keys, cursor, limit, lt);
    }
  }

  lemma FirstPages<K>(page: seq<K>, tail: seq<seq<K>>, n: nat)
    requires 1 <= n <= 1 + |tail|
    ensures Concat(([page] + tail)[..n]) == page + Concat(tail[..n - 1])
  {
    assert ([page] + tail)[..n] == [page] + tail[..n - 1];
    ConcatCons(page, tail[..n - 1]);
  }

  lemma RepeatedCall<K(!new)>(keys: set<K>, cursor: Option<K>, limit: nat, lt: (K, K) -> bool, n: nat)
    requires StrictTotalOrder(lt) && limit > 0 && n >= 1
    ensures var (page, next) := PageOf(keys, cursor, limit, lt);
            var calls, rest := Repeat(Call(keys, limit), n), Repeat(Call(keys, limit), n - 1);
            && Returned(calls, cursor, lt) == page + (if next.None? then [] else Returned(rest, next, lt))
            && Position(calls, cursor, lt) == (if next.None? then None else Position(rest, next, lt))
  {
    var calls, rest := Repeat(Call(keys, limit), n), Repeat(Call(keys, limit), n - 1);
    assert calls[1..] == rest && calls[0] == Call(keys, limit);
  }

  // The first n calls return the first n pages, and the walk ends with the last of them.
  lemma {:induction false} RepeatedCalls<K(!new)>(keys: set<K>, cursor: Option<K>, limit: nat, lt: (K, K) -> bool,
                                                  n: nat)
    requires StrictTotalOrder(lt) && limit > 0
    requires n <= |Walk(keys, cursor, limit, lt)|
    ensures Returned(Repeat(Call(keys, limit), n), cursor, lt) == Concat(Walk(keys, cursor, limit, lt)[..n])
    ensures n > 0 ==> (Position(Repeat(Call(keys, limit), n), cursor, lt).None?
                       <==> n == |Walk(keys, cursor, limit, lt)|)
    decreases n
  {
    if n > 0 {
      var (page, next) := PageOf(keys, cursor, limit, lt);
      WalkUnfolds(keys, cursor, limit, lt);
      RepeatedCall(keys, cursor, limit, lt, n);
      if next.None? {
        assert [page] == [page] + [];
        FirstPages(page, [], n);
      } else {
        var tail := Walk(keys, next, limit, lt);
        WalkUnfolds(keys, next, limit, lt);
        FirstPages(page, tail, n);
        RepeatedCalls(keys, next, limit, lt, n - 1);
      }
    }
  }
}
