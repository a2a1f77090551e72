// The same for the tag listing, ordered by (name, id).
module TagWalks {
  import opened Common
  import opened Ordering
  import opened Keyset
  import opened Cursor
  import opened Catalog
  import opened TenantStore
  import opened TenantIsolation
  import opened Walks
  import MediaService
  import TagService

  datatype TagQuery = TagQuery(coll: Collation, codec: Codec<TagKey>)

  ghost predicate TagQueryOk(q: TagQuery) {
    StrictTotalOrder(q.coll) && RoundTrips(q.codec)
  }

  ghost function CollectedTags(q: TagQuery, visits: seq<Visit>, cursor: string): (seq<Tag>, string)
    requires TagQueryOk(q)
    decreases |visits|
  {
    if |visits| == 0 then ([], cursor)
    else
      match TagService.ListReply(visits[0].store, q.coll, q.codec, visits[0].limit, cursor)
      case Err(_) => ([], cursor)
      case Ok(reply) =>
        if reply.1 == "" then reply
        else
          var (tags, last) := CollectedTags(q, visits[1..], reply.1);
          (reply.0 + tags, last)
  }

  ghost function TagKeysOf(tags: seq<Tag>): seq<TagKey> {
    seq(|tags|, i requires 0 <= i < |tags| => TagKey(tags[i].name, tags[i].id))
  }

  ghost function TagCallsOf(visits: seq<Visit>): seq<Call<TagKey>> {
    seq(|visits|, i requires 0 <= i < |visits| =>
      Call(OwnTagKeys(visits[i].store), MediaService.ClampLimit(visits[i].limit)))
  }

  lemma TagKeysOfTags(st: Store, page: seq<TagKey>)
    requires forall k :: k in page ==> k.id in st.tags && k.name == st.tags[k.id].name
    ensures TagKeysOf(OwnTags(st, page)) == page
  {
    forall i | 0 <= i < |page|
      ensures TagKeysOf(OwnTags(st, page))[i] == page[i]
    {
      assert page[i] in page;
    }
  }

  lemma OneTagPage(q: TagQuery, v: Visit, cursor: string)
    requires TagQueryOk(q) && DecodeCursor(q.codec, cursor).Ok?
    ensures StrictTotalOrder(TagOrder(q.coll))
    ensures var (page, next) := PageOf(OwnTagKeys(v.store), DecodeCursor(q.codec, cursor).value,
                                       MediaService.ClampLimit(v.limit), TagOrder(q.coll));
            var reply := TagService.ListReply(v.store, q.coll, q.codec, v.limit, cursor);
            reply.Ok? && TagKeysOf(reply.value.0) == page && reply.value.1 == EncodeCursor(q.codec, next)
  {
    TagOrderIsTotal(q.coll);
    var keys := OwnTagKeys(v.store);
    var page := PageOf(keys, DecodeCursor(q.codec, cursor).value, MediaService.ClampLimit(v.limit), TagOrder(q.coll)).0;
    PageFacts(keys, DecodeCursor(q.codec, cursor).value, MediaService.ClampLimit(v.limit), TagOrder(q.coll));
    assert forall k :: k in keys ==> k.id in v.store.tags && k.name == v.store.tags[k.id].name;
    TagKeysOfTags(v.store, page);
  }

  lemma TagKeysOfAppend(a: seq<Tag>, b: seq<Tag>)
    ensures TagKeysOf(a + b) == TagKeysOf(a) + TagKeysOf(b)
  {
  }

  lemma CollectedTagsGoOn(q: TagQuery, visits: seq<Visit>, cursor: string, reply: (seq<Tag>, string))
    requires TagQueryOk(q) && |visits| > 0
    requires TagService.ListReply(visits[0].store, q.coll, q.codec, visits[0].limit, cursor) == Ok(reply)
    ensures CollectedTags(q, visits, cursor)
            == if reply.1 == "" then reply
               else (reply.0 + CollectedTags(q, visits[1..], reply.1).0, CollectedTags(q, visits[1..], reply.1).1)
  {
  }

  lemma {:induction false} CollectedTagsAreFollowed(q: TagQuery, visits: seq<Visit>, cursor: string)
    requires TagQueryOk(q)
    ensures StrictTotalOrder(TagOrder(q.coll)) && Valid(TagCallsOf(visits))
    ensures TagKeysOf(CollectedTags(q, visits, cursor).0)
            == Followed(q.codec, TagCallsOf(visits), cursor, TagOrder(q.coll))
    ensures CollectedTags(q, visits, cursor).1 == CursorAfter(q.codec, TagCallsOf(visits), cursor, TagOrder(q.coll))
    decreases |visits|
  {
    TagOrderIsTotal(q.coll);
    if |visits| > 0 && DecodeCursor(q.codec, cursor).Ok? {
      OneTagPage(q, visits[0], cursor);
      var reply := TagService.ListReply(visits[0].store, q.coll, q.codec, visits[0].limit, cursor).value;
      CollectedTagsGoOn(q, visits, cursor, reply);
      FollowedUnfolds(q.codec, TagCallsOf(visits), cursor, TagOrder(q.coll));
      assert TagCallsOf(visits)[1..] == TagCallsOf(visits[1..]);
      if reply.1 != "" {
        CollectedTagsAreFollowed(q, visits[1..], reply.1);
        TagKeysOfAppend(reply.0, CollectedTags(q, visits[1..], reply.1).0);
      }
    } else {
      assert CollectedTags(q, visits, cursor) == ([], cursor);
    }
  }

  lemma AscendsByColumns(coll: Collation, tags: seq<Tag>)
    requires Sorted(TagKeysOf(tags), TagOrder(coll))
    ensures forall i, j :: 0 <= i < j < |tags| ==>
              coll(tags[i].name, tags[j].name) || (tags[i].name == tags[j].name && tags[i].id < tags[j].id)
  {
    forall i, j | 0 <= i < j < |tags|
      ensures coll(tags[i].name, tags[j].name) || (tags[i].name == tags[j].name && tags[i].id < tags[j].id)
    {
      assert TagOrder(coll)(TagKeysOf(tags)[i], TagKeysOf(tags)[j]);
    }
  }

  // (name, id) strictly increases through any walk.
  lemma TagWalkAscends(db: Tables, rls: bool, turns: seq<Turn>, t: Uuid, q: TagQuery)
    requires Inv(db) && TagQueryOk(q) && Possible(db, rls, q.coll, turns)
    ensures var tags := CollectedTags(q, Visits(db, rls, q.coll, turns, t), "").0;
            forall i, j :: 0 <= i < j < |tags| ==>
              q.coll(tags[i].name, tags[j].name) || (tags[i].name == tags[j].name && tags[i].id < tags[j].id)
  {
    var visits := Visits(db, rls, q.coll, turns, t);
    CollectedTagsAreFollowed(q, visits, "");
    FollowedIsReturned(q.codec, TagCallsOf(visits), None, TagOrder(q.coll));
    NeverTwice(TagCallsOf(visits), None, TagOrder(q.coll));
    AscendsByColumns(q.coll, CollectedTags(q, visits, "").0);
  }

  // A finished walk has returned exactly once every tag that nobody renamed or deleted meanwhile.
  lemma TagWalkIsExact(db: Tables, rls: bool, turns: seq<Turn>, t: Uuid, q: TagQuery, id: Uuid)
    requires Inv(db) && TagQueryOk(q) && Possible(db, rls, q.coll, turns) && |turns| > 0
    requires id in Project(db, t).tags && SparesTag(turns, id)
    requires CollectedTags(q, Visits(db, rls, q.coll, turns, t), "").1 == ""
    ensures OnceIn(TagKeysOf(CollectedTags(q, Visits(db, rls, q.coll, turns, t), "").0),
                   TagKey(Project(db, t).tags[id].name, id))
  {
    var visits := Visits(db, rls, q.coll, turns, t);
    var calls := TagCallsOf(visits);
    var k := TagKey(Project(db, t).tags[id].name, id);
    CollectedTagsAreFollowed(q, visits, "");
    FollowedIsReturned(q.codec, calls, None, TagOrder(q.coll));
    DecodeEncode(q.codec, Position(calls, None, TagOrder(q.coll)));
    forall i | 0 <= i < |calls|
      ensures k in calls[i].keys
    {
      TagThroughout(db, rls, q.coll, turns, t, id, i);
    }
    ExactlyOnce(calls, TagOrder(q.coll), k);
  }

  ghost function TagPages(q: TagQuery, st: Store, limit: int): seq<seq<TagKey>>
    requires TagQueryOk(q) && StrictTotalOrder(TagOrder(q.coll))
  {
    Walk(OwnTagKeys(st), None, MediaService.ClampLimit(limit), TagOrder(q.coll))
  }

  // On an unchanging store the pages make up the listing, for any raw limit,
  lemma UnchangingTagPages(q: TagQuery, st: Store, limit: int)
    requires TagQueryOk(q)
    ensures StrictTotalOrder(TagOrder(q.coll))
    ensures Paginates(TagPages(q, st, limit), Sort(OwnTagKeys(st), TagOrder(q.coll)), MediaService.ClampLimit(limit))
  {
    TagOrderIsTotal(q.coll);
    var keys := OwnTagKeys(st);
    assert Beyond(keys, None, TagOrder(q.coll)) == keys;
    WalkIsComplete(keys, None, MediaService.ClampLimit(limit), TagOrder(q.coll));
  }

  lemma RepeatedTagVisits(st: Store, limit: int, n: nat)
    ensures TagCallsOf(Repeat(Visit(st, st, limit), n))
            == Repeat(Call(OwnTagKeys(st), MediaService.ClampLimit(limit)), n)
  {
  }

  // n calls return the first n of them, and the next cursor is empty exactly on the last.
  lemma UnchangingTags(q: TagQuery, st: Store, limit: int, n: nat)
    requires TagQueryOk(q) && StrictTotalOrder(TagOrder(q.coll)) && 1 <= n <= |TagPages(q, st, limit)|
    ensures var (tags, last) := CollectedTags(q, Repeat(Visit(st, st, limit), n), "");
            TagKeysOf(tags) == Concat(TagPages(q, st, limit)[..n]) && (last == "" <==> n == |TagPages(q, st, limit)|)
  {
    var keys := OwnTagKeys(st);
    var calls := Repeat(Call(keys, MediaService.ClampLimit(limit)), n);
    RepeatedCalls(keys, None, MediaService.ClampLimit(limit), TagOrder(q.coll), n);
    RepeatedTagVisits(st, limit, n);
    CollectedTagsAreFollowed(q, Repeat(Visit(st, st, limit), n), "");
    FollowedIsReturned(q.codec, calls, None, TagOrder(q.coll));
    DecodeEncode(q.codec, Position(calls, None, TagOrder(q.coll)));
  }
}
