// A client walks a listing by passing each next cursor back, while other requests of any tenant
// change the tables between its calls.
module Walks {
  import opened Common
  import opened Ordering
  import opened Keyset
  import opened Cursor
  import opened Sanitize
  import opened Catalog
  import opened TenantStore
  import opened TenantIsolation
  import opened MediaService

  // ---- The client's side ----

  // The tenant's rows when a call reads its page, when it then reads the tags of the page's items, and
  // the limit asked for: any integer.
  datatype Visit = Visit(store: Store, tagStore: Store, limit: int)

  datatype Query = Query(coll: Collation, nfc: Normalizer, codec: Codec<MediaKey>, filter: RawFilter)

  ghost predicate QueryOk(q: Query) {
    StrictTotalOrder(q.coll) && RoundTrips(q.codec) && FilterOk(q.nfc, q.filter)
  }

  // The items received, and the cursor held afterwards: empty once a call has answered that there
  // are no more pages.
  ghost function Collected(q: Query, visits: seq<Visit>, cursor: string): (seq<Media>, string)
    requires QueryOk(q)
    decreases |visits|
  {
    if |visits| == 0 then ([], cursor)
    else
      match ReplyAsRead(visits[0].store, visits[0].tagStore, q.coll, q.nfc, q.codec, visits[0].limit, cursor, q.filter)
      case Err(_) => ([], cursor)
      case Ok(reply) =>
        if reply.1 == "" then reply
        else
          var (items, last) := Collected(q, visits[1..], reply.1);
          (reply.0 + items, last)
  }

  ghost function CallsOf(q: Query, visits: seq<Visit>): seq<Call<MediaKey>> {
    seq(|visits|, i requires 0 <= i < |visits| =>
      Call(WantedKeys(visits[i].store, q.nfc, q.filter), ClampLimit(visits[i].limit)))
  }

  lemma KeysOfItems(st: Store, later: Store, coll: Collation, page: seq<MediaKey>)
    requires StrictTotalOrder(coll)
    requires forall k :: k in page ==> k.id in st.media && k.createdAt == st.media[k.id].createdAt
    ensures KeysOf(ItemsAsRead(st, later, coll, page)) == page
  {
    forall i | 0 <= i < |page|
      ensures KeysOf(ItemsAsRead(st, later, coll, page))[i] == page[i]
    {
      assert page[i] in page;
    }
  }

  lemma OnePage(q: Query, v: Visit, cursor: string)
    requires QueryOk(q) && DecodeCursor(q.codec, cursor).Ok?
    ensures StrictTotalOrder(MediaOrder())
    ensures var (page, next) := PageOf(WantedKeys(v.store, q.nfc, q.filter), DecodeCursor(q.codec, cursor).value,
                                       ClampLimit(v.limit), MediaOrder());
            var reply := ReplyAsRead(v.store, v.tagStore, q.coll, q.nfc, q.codec, v.limit, cursor, q.filter);
            reply.Ok? && KeysOf(reply.value.0) == page && reply.value.1 == EncodeCursor(q.codec, next)
  {
    MediaOrderIsTotal();
    var keys := WantedKeys(v.store, q.nfc, q.filter);
    var page := PageOf(keys, DecodeCursor(q.codec, cursor).value, ClampLimit(v.limit), MediaOrder()).0;
    PageFacts(keys, DecodeCursor(q.codec, cursor).value, ClampLimit(v.limit), MediaOrder());
    WantedKeysAreRows(v.store, q.nfc, q.filter);
    KeysOfItems(v.store, v.tagStore, q.coll, page);
  }

  lemma KeysOfAppend(a: seq<Media>, b: seq<Media>)
    ensures KeysOf(a + b) == KeysOf(a) + KeysOf(b)
  {
  }

  lemma CollectedGoesOn(q: Query, visits: seq<Visit>, cursor: string, reply: (seq<Media>, string))
    requires QueryOk(q) && |visits| > 0
    requires ReplyAsRead(visits[0].store, visits[0].tagStore, q.coll, q.nfc, q.codec, visits[0].limit, cursor,
                         q.filter) == Ok(reply)
    ensures Collected(q, visits, cursor)
            == if reply.1 == "" then reply
               else (reply.0 + Collected(q, visits[1..], reply.1).0, Collected(q, visits[1..], reply.1).1)
  {
  }

  lemma OneCollected(q: Query, visits: seq<Visit>, cursor: string) returns (reply: (seq<Media>, string))
    requires QueryOk(q) && |visits| > 0 && DecodeCursor(q.codec, cursor).Ok? && StrictTotalOrder(MediaOrder())
    ensures Collected(q, visits, cursor)
            == if reply.1 == "" then reply
               else (reply.0 + Collected(q, visits[1..], reply.1).0, Collected(q, visits[1..], reply.1).1)
    ensures var (page, next) := PageOf(CallsOf(q, visits)[0].keys, DecodeCursor(q.codec, cursor).value,
                                       CallsOf(q, visits)[0].limit, MediaOrder());
            KeysOf(reply.0) == page && reply.1 == EncodeCursor(q.codec, next)
  {
    var v := visits[0];
    OnePage(q, v, cursor);
    reply := ReplyAsRead(v.store, v.tagStore, q.coll, q.nfc, q.codec, v.limit, cursor, q.filter).value;
    CollectedGoesOn(q, visits, cursor, reply);
  }

  lemma LaterCalls(q: Query, visits: seq<Visit>)
    requires QueryOk(q)
    ensures Valid(CallsOf(q, visits))
    ensures |visits| > 0 ==> CallsOf(q, visits)[1..] == CallsOf(q, visits[1..])
  {
  }

  lemma {:induction false} CollectedIsFollowed(q: Query, visits: seq<Visit>, cursor: string)
    requires QueryOk(q)
    ensures StrictTotalOrder(MediaOrder()) && Valid(CallsOf(q, visits))
    ensures KeysOf(Collected(q, visits, cursor).0) == Followed(q.codec, CallsOf(q, visits), cursor, MediaOrder())
    ensures Collected(q, visits, cursor).1 == CursorAfter(q.codec, CallsOf(q, visits), cursor, MediaOrder())
    decreases |visits|
  {
    MediaOrderIsTotal();
    LaterCalls(q, visits);
    if |visits| > 0 && DecodeCursor(q.codec, cursor).Ok? {
      var reply := OneCollected(q, visits, cursor);
      FollowedUnfolds(q.codec, CallsOf(q, visits), cursor, MediaOrder());
      if reply.1 != "" {
        CollectedIsFollowed(q, visits[1..], reply.1);
        KeysOfAppend(reply.0, Collected(q, visits[1..], reply.1).0);
      }
    } else {
      assert Collected(q, visits, cursor) == ([], cursor);
    }
  }

  // ---- What happens to the tables between the calls ----

  // The transactions others commit before the client's next call reads its page, and before it reads
  // the tags.
  datatype Turn = Turn(changes: seq<Request>, between: seq<Request>, limit: int)

  ghost predicate Possible(db: Tables, rls: bool, coll: Collation, turns: seq<Turn>)
    requires StrictTotalOrder(coll)
    decreases |turns|
  {
    |turns| == 0 ||
    (&& IsHistory(db, rls, coll, turns[0].changes)
     && var db1 := ExecAll(db, rls, coll, turns[0].changes).0;
        && IsHistory(db1, rls, coll, turns[0].between)
        && Possible(ExecAll(db1, rls, coll, turns[0].between).0, rls, coll, turns[1..]))
  }

  // What the client of tenant t finds at each call.
  ghost function Visits(db: Tables, rls: bool, coll: Collation, turns: seq<Turn>, t: Uuid): (visits: seq<Visit>)
    requires StrictTotalOrder(coll) && Possible(db, rls, coll, turns)
    ensures |visits| == |turns|
    decreases |turns|
  {
    if |turns| == 0 then []
    else
      var db1 := ExecAll(db, rls, coll, turns[0].changes).0;
      var db2 := ExecAll(db1, rls, coll, turns[0].between).0;
      [Visit(Project(db1, t), Project(db2, t), turns[0].limit)] + Visits(db2, rls, coll, turns[1..], t)
  }

  // No operation but its deletion touches a media row; none but rename and delete a tag row.
  predicate Touches(op: Op, id: Uuid) {
    op == DeleteTag(id) || (op.RenameTag? && op.tagId == id)
  }

  lemma MediaRowStays(st: Store, coll: Collation, op: Op, m: Uuid)
    requires StrictTotalOrder(coll) && (op.ListTags? || op.ListMedia? ==> op.limit > 0)
    requires m in st.media && op != DeleteMedia(m) && (op.CreateMedia? ==> op.freshId != m)
    ensures var st' := Run(st, coll, op).0; m in st'.media && st'.media[m] == st.media[m]
  {
  }

  lemma TagRowStays(st: Store, coll: Collation, op: Op, id: Uuid)
    requires StrictTotalOrder(coll) && (op.ListTags? || op.ListMedia? ==> op.limit > 0)
    requires id in st.tags && !Touches(op, id) && (op.CreateOrGet? ==> op.freshId != id)
    ensures var st' := Run(st, coll, op).0; id in st'.tags && st'.tags[id] == st.tags[id]
  {
  }

  lemma ExecKeepsMedia(db: Tables, ses: Session, coll: Collation, op: Op, t: Uuid, m: Uuid)
    requires Inv(db) && StrictTotalOrder(coll) && Admissible(db, op)
    requires m in Project(db, t).media && op != DeleteMedia(m)
    ensures var db' := Exec(db, ses, coll, op).0;
            Inv(db') && m in Project(db', t).media && Project(db', t).media[m] == Project(db, t).media[m]
  {
    ExecSimulates(db, ses, coll, op);
    if ses.tenant == t {
      MediaRowStays(Project(db, t), coll, op, m);
    }
  }

  lemma ExecKeepsTag(db: Tables, ses: Session, coll: Collation, op: Op, t: Uuid, id: Uuid)
    requires Inv(db) && StrictTotalOrder(coll) && Admissible(db, op)
    requires id in Project(db, t).tags && !Touches(op, id)
    ensures var db' := Exec(db, ses, coll, op).0;
            Inv(db') && id in Project(db', t).tags && Project(db', t).tags[id] == Project(db, t).tags[id]
  {
    ExecSimulates(db, ses, coll, op);
    if ses.tenant == t {
      TagRowStays(Project(db, t), coll, op, id);
    }
  }

  lemma {:induction false} HistoryKeepsMedia(db: Tables, rls: bool, coll: Collation, reqs: seq<Request>, t: Uuid,
                                             m: Uuid)
    requires Inv(db) && StrictTotalOrder(coll) && IsHistory(db, rls, coll, reqs)
    requires m in Project(db, t).media && forall r :: r in reqs ==> r.op != DeleteMedia(m)
    ensures var db' := ExecAll(db, rls, coll, reqs).0;
            Inv(db') && m in Project(db', t).media && Project(db', t).media[m] == Project(db, t).media[m]
    decreases |reqs|
  {
    if |reqs| > 0 {
      assert reqs[0] in reqs;
      ExecKeepsMedia(db, Session(reqs[0].tenant, rls), coll, reqs[0].op, t, m);
      HistoryKeepsMedia(Exec(db, Session(reqs[0].tenant, rls), coll, reqs[0].op).0, rls, coll, reqs[1..], t, m);
    }
  }

  lemma {:induction false} HistoryKeepsTag(db: Tables, rls: bool, coll: Collation, reqs: seq<Request>, t: Uuid,
                                           id: Uuid)
    requires Inv(db) && StrictTotalOrder(coll) && IsHistory(db, rls, coll, reqs)
    requires id in Project(db, t).tags && forall r :: r in reqs ==> !Touches(r.op, id)
    ensures var db' := ExecAll(db, rls, coll, reqs).0;
            Inv(db') && id in Project(db', t).tags && Project(db', t).tags[id] == Project(db, t).tags[id]
    decreases |reqs|
  {
    if |reqs| > 0 {
      assert reqs[0] in reqs;
      ExecKeepsTag(db, Session(reqs[0].tenant, rls), coll, reqs[0].op, t, id);
      HistoryKeepsTag(Exec(db, Session(reqs[0].tenant, rls), coll, reqs[0].op).0, rls, coll, reqs[1..], t, id);
    }
  }

  // A request that comes before the last page is read.
  ghost predicate Precedes(turns: seq<Turn>, r: Request) {
    exists i :: 0 <= i < |turns| && (r in turns[i].changes || (i < |turns| - 1 && r in turns[i].between))
  }

  ghost predicate SparesMedia(turns: seq<Turn>, m: Uuid) {
    forall r :: Precedes(turns, r) ==> r.op != DeleteMedia(m)
  }

  ghost predicate SparesTag(turns: seq<Turn>, id: Uuid) {
    forall r :: Precedes(turns, r) ==> !Touches(r.op, id)
  }

  lemma PrecedesParts(turns: seq<Turn>)
    requires |turns| > 0
    ensures forall r :: r in turns[0].changes ==> Precedes(turns, r)
    ensures |turns| > 1 ==> forall r :: r in turns[0].between ==> Precedes(turns, r)
    ensures forall r :: Precedes(turns[1..], r) ==> Precedes(turns, r)
  {
    forall r | Precedes(turns[1..], r)
      ensures Precedes(turns, r)
    {
      var i :| 0 <= i < |turns[1..]|
               && (r in turns[1..][i].changes || (i < |turns[1..]| - 1 && r in turns[1..][i].between));
      assert turns[i + 1] == turns[1..][i];
    }
  }

  ghost function AfterTurn(db: Tables, rls: bool, coll: Collation, turns: seq<Turn>): Tables
    requires StrictTotalOrder(coll) && |turns| > 0 && Possible(db, rls, coll, turns)
  {
    ExecAll(ExecAll(db, rls, coll, turns[0].changes).0, rls, coll, turns[0].between).0
  }

  lemma VisitsUnfold(db: Tables, rls: bool, coll: Collation, turns: seq<Turn>, t: Uuid, i: nat)
    requires StrictTotalOrder(coll) && Possible(db, rls, coll, turns) && i < |turns|
    ensures Visits(db, rls, coll, turns, t)[0].store == Project(ExecAll(db, rls, coll, turns[0].changes).0, t)
    ensures Possible(AfterTurn(db, rls, coll, turns), rls, coll, turns[1..])
    ensures var later := Visits(AfterTurn(db, rls, coll, turns), rls, coll, turns[1..], t);
            i > 0 ==> Visits(db, rls, coll, turns, t)[i] == later[i - 1]
  {
  }

  lemma TurnKeepsMedia(db: Tables, rls: bool, coll: Collation, turns: seq<Turn>, t: Uuid, m: Uuid)
    requires Inv(db) && StrictTotalOrder(coll) && |turns| > 1 && Possible(db, rls, coll, turns)
    requires m in Project(db, t).media && SparesMedia(turns, m)
    ensures var db' := AfterTurn(db, rls, coll, turns);
            Inv(db') && m in Project(db', t).media && Project(db', t).media[m] == Project(db, t).media[m]
  {
    PrecedesParts(turns);
    HistoryKeepsMedia(db, rls, coll, turns[0].changes, t, m);
    HistoryKeepsMedia(ExecAll(db, rls, coll, turns[0].changes).0, rls, coll, turns[0].between, t, m);
  }

  lemma TurnKeepsTag(db: Tables, rls: bool, coll: Collation, turns: seq<Turn>, t: Uuid, id: Uuid)
    requires Inv(db) && StrictTotalOrder(coll) && |turns| > 1 && Possible(db, rls, coll, turns)
    requires id in Project(db, t).tags && SparesTag(turns, id)
    ensures var db' := AfterTurn(db, rls, coll, turns);
            Inv(db') && id in Project(db', t).tags && Project(db', t).tags[id] == Project(db, t).tags[id]
  {
    PrecedesParts(turns);
    HistoryKeepsTag(db, rls, coll, turns[0].changes, t, id);
    HistoryKeepsTag(ExecAll(db, rls, coll, turns[0].changes).0, rls, coll, turns[0].between, t, id);
  }

  lemma {:induction false} MediaThroughout(db: Tables, rls: bool, coll: Collation, turns: seq<Turn>, t: Uuid, m: Uuid,
                                           i: nat)
    requires Inv(db) && StrictTotalOrder(coll) && Possible(db, rls, coll, turns) && i < |turns|
    requires m in Project(db, t).media && SparesMedia(turns, m)
    ensures var st := Visits(db, rls, coll, turns, t)[i].store;
            m in st.media && st.media[m] == Project(db, t).media[m]
    decreases |turns|
  {
    PrecedesParts(turns);
    VisitsUnfold(db, rls, coll, turns, t, i);
    if i == 0 {
      HistoryKeepsMedia(db, rls, coll, turns[0].changes, t, m);
    } else {
      TurnKeepsMedia(db, rls, coll, turns, t, m);
      MediaThroughout(AfterTurn(db, rls, coll, turns), rls, coll, turns[1..], t, m, i - 1);
    }
  }

  lemma {:induction false} TagThroughout(db: Tables, rls: bool, coll: Collation, turns: seq<Turn>, t: Uuid, id: Uuid,
                                         i: nat)
    requires Inv(db) && StrictTotalOrder(coll) && Possible(db, rls, coll, turns) && i < |turns|
    requires id in Project(db, t).tags && SparesTag(turns, id)
    ensures var st := Visits(db, rls, coll, turns, t)[i].store;
            id in st.tags && st.tags[id] == Project(db, t).tags[id]
    decreases |turns|
  {
    PrecedesParts(turns);
    VisitsUnfold(db, rls, coll, turns, t, i);
    if i == 0 {
      HistoryKeepsTag(db, rls, coll, turns[0].changes, t, id);
    } else {
      TurnKeepsTag(db, rls, coll, turns, t, id);
      TagThroughout(AfterTurn(db, rls, coll, turns), rls, coll, turns[1..], t, id, i - 1);
    }
  }

  // ---- The theorems, for media ----

  ghost predicate OnceIn<K(!new)>(s: seq<K>, k: K) {
    exists i :: 0 <= i < |s| && s[i] == k && forall j :: 0 <= j < |s| && j != i ==> s[j] != k
  }

  lemma DescendsByColumns(items: seq<Media>)
    requires Sorted(KeysOf(items), MediaOrder())
    ensures forall i, j :: 0 <= i < j < |items| ==>
              items[i].createdAt > items[j].createdAt
              || (items[i].createdAt == items[j].createdAt && items[i].id > items[j].id)
  {
    forall i, j | 0 <= i < j < |items|
      ensures items[i].createdAt > items[j].createdAt
              || (items[i].createdAt == items[j].createdAt && items[i].id > items[j].id)
    {
      assert MediaOrder()(KeysOf(items)[i], KeysOf(items)[j]);
    }
  }

  // Whatever others do meanwhile, the client sees strictly decreasing (created_at, id), so no row twice.
  lemma MediaWalkDescends(db: Tables, rls: bool, turns: seq<Turn>, t: Uuid, q: Query)
    requires Inv(db) && QueryOk(q) && Possible(db, rls, q.coll, turns)
    ensures var items := Collected(q, Visits(db, rls, q.coll, turns, t), "").0;
            forall i, j :: 0 <= i < j < |items| ==>
              items[i].createdAt > items[j].createdAt
              || (items[i].createdAt == items[j].createdAt && items[i].id > items[j].id)
  {
    var visits := Visits(db, rls, q.coll, turns, t);
    CollectedIsFollowed(q, visits, "");
    FollowedIsReturned(q.codec, CallsOf(q, visits), None, MediaOrder());
    NeverTwice(CallsOf(q, visits), None, MediaOrder());
    DescendsByColumns(Collected(q, visits, "").0);
  }

  // A walk that has run to its end has returned exactly once every item that was there and wanted
  // throughout, whatever became of the rows the cursors came from.
  lemma MediaWalkIsExact(db: Tables, rls: bool, turns: seq<Turn>, t: Uuid, q: Query, m: Uuid)
    requires Inv(db) && QueryOk(q) && Possible(db, rls, q.coll, turns) && |turns| > 0
    requires m in Project(db, t).media && SparesMedia(turns, m)
    requires forall i :: 0 <= i < |turns| ==> Wanted(Visits(db, rls, q.coll, turns, t)[i].store, q.nfc, q.filter, m)
    requires Collected(q, Visits(db, rls, q.coll, turns, t), "").1 == ""
    ensures OnceIn(KeysOf(Collected(q, Visits(db, rls, q.coll, turns, t), "").0),
                   MediaKey(Project(db, t).media[m].createdAt, m))
  {
    var visits := Visits(db, rls, q.coll, turns, t);
    var calls := CallsOf(q, visits);
    var k := MediaKey(Project(db, t).media[m].createdAt, m);
    CollectedIsFollowed(q, visits, "");
    FollowedIsReturned(q.codec, calls, None, MediaOrder());
    DecodeEncode(q.codec, Position(calls, None, MediaOrder()));
    forall i | 0 <= i < |calls|
      ensures k in calls[i].keys
    {
      MediaThroughout(db, rls, q.coll, turns, t, m, i);
    }
    ExactlyOnce(calls, MediaOrder(), k);
  }

  // Every item received was, when some call read its page, a wanted item of the tenant with these
  // columns, and its tags are those it had when that call read them.
  ghost predicate ShownAt(q: Query, v: Visit, item: Media)
    requires QueryOk(q)
  {
    && item.id in v.store.media && Wanted(v.store, q.nfc, q.filter, item.id)
    && item.info == v.store.media[item.id].info && item.createdAt == v.store.media[item.id].createdAt
    && item.tags == Attached(v.tagStore, q.coll, item.id)
  }

  lemma OnePageIsShown(q: Query, v: Visit, cursor: string, item: Media)
    requires QueryOk(q)
    requires var reply := ReplyAsRead(v.store, v.tagStore, q.coll, q.nfc, q.codec, v.limit, cursor,
                                      q.filter); reply.Ok? && item in reply.value.0
    ensures ShownAt(q, v, item)
  {
    MediaOrderIsTotal();
    var keys := WantedKeys(v.store, q.nfc, q.filter);
    var page := PageOf(keys, DecodeCursor(q.codec, cursor).value, ClampLimit(v.limit), MediaOrder()).0;
    PageFacts(keys, DecodeCursor(q.codec, cursor).value, ClampLimit(v.limit), MediaOrder());
    WantedKeysAreRows(v.store, q.nfc, q.filter);
    var items := ItemsAsRead(v.store, v.tagStore, q.coll, page);
    var i :| 0 <= i < |items| && items[i] == item;
    assert page[i] in page;
  }

  lemma {:induction false} MediaWalkIsSound(q: Query, visits: seq<Visit>, cursor: string, item: Media)
    requires QueryOk(q) && item in Collected(q, visits, cursor).0
    ensures exists i :: 0 <= i < |visits| && ShownAt(q, visits[i], item)
    decreases |visits|
  {
    var reply := ReplyAsRead(visits[0].store, visits[0].tagStore, q.coll, q.nfc, q.codec, visits[0].limit, cursor,
                             q.filter).value;
    CollectedGoesOn(q, visits, cursor, reply);
    if item in reply.0 {
      OnePageIsShown(q, visits[0], cursor, item);
    } else {
      MediaWalkIsSound(q, visits[1..], reply.1, item);
      var i :| 0 <= i < |visits[1..]| && ShownAt(q, visits[1..][i], item);
      assert ShownAt(q, visits[i + 1], item);
    }
  }

  ghost function Listing(q: Query, st: Store): seq<MediaKey>
    requires QueryOk(q) && StrictTotalOrder(MediaOrder())
  {
    Sort(WantedKeys(st, q.nfc, q.filter), MediaOrder())
  }

  ghost function Pages(q: Query, st: Store, limit: int): seq<seq<MediaKey>>
    requires QueryOk(q) && StrictTotalOrder(MediaOrder())
  {
    Walk(WantedKeys(st, q.nfc, q.filter), None, ClampLimit(limit), MediaOrder())
  }

  // On an unchanging store, for any raw limit, the pages are the listing of all wanted items, cut
  // into max(1, ceil(N / limit)) pages,
  lemma UnchangingMediaPages(q: Query, st: Store, limit: int)
    requires QueryOk(q)
    ensures StrictTotalOrder(MediaOrder())
    ensures Paginates(Pages(q, st, limit), Listing(q, st), ClampLimit(limit))
  {
    MediaOrderIsTotal();
    var keys := WantedKeys(st, q.nfc, q.filter);
    assert Beyond(keys, None, MediaOrder()) == keys;
    WalkIsComplete(keys, None, ClampLimit(limit), MediaOrder());
  }

  lemma RepeatedVisits(q: Query, st: Store, limit: int, n: nat)
    requires QueryOk(q)
    ensures CallsOf(q, Repeat(Visit(st, st, limit), n))
            == Repeat(Call(WantedKeys(st, q.nfc, q.filter), ClampLimit(limit)), n)
  {
  }

  // and n calls return the first n of them; the next cursor is empty exactly on the last.
  lemma UnchangingMedia(q: Query, st: Store, limit: int, n: nat)
    requires QueryOk(q) && StrictTotalOrder(MediaOrder()) && 1 <= n <= |Pages(q, st, limit)|
    ensures var (items, last) := Collected(q, Repeat(Visit(st, st, limit), n), "");
            KeysOf(items) == Concat(Pages(q, st, limit)[..n]) && (last == "" <==> n == |Pages(q, st, limit)|)
  {
    var keys := WantedKeys(st, q.nfc, q.filter);
    var calls := Repeat(Call(keys, ClampLimit(limit)), n);
    RepeatedCalls(keys, None, ClampLimit(limit), MediaOrder(), n);
    RepeatedVisits(q, st, limit, n);
    CollectedIsFollowed(q, Repeat(Visit(st, st, limit), n), "");
    FollowedIsReturned(q.codec, calls, None, MediaOrder());
    DecodeEncode(q.codec, Position(calls, None, MediaOrder()));
  }
}
