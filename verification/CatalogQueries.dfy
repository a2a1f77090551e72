// What PostgreSQL may answer to the repositories' queries. A query that orders by name alone
// leaves rows of equal name in any order; under the invariant that freedom disappears.
module CatalogQueries {
  import opened Common
  import opened Ordering
  import opened Keyset
  import opened Catalog
  import opened TenantStore

  // ORDER BY ... LIMIT n
  function OrderByLimit<K(!new, ==)>(keys: set<K>, lt: (K, K) -> bool, n: nat): (rows: seq<K>)
    requires StrictTotalOrder(lt)
  {
    var all := Sort(keys, lt);
    if |all| > n then all[..n] else all
  }

  // ORDER BY t.name ASC: names never decrease; rows of equal name come in any order.
  predicate NameSorted(tags: seq<Tag>, coll: Collation) {
    forall i, j :: 0 <= i < j < |tags| ==> !coll(tags[j].name, tags[i].name)
  }

  predicate Joined(db: Tables, ses: Session, mediaId: Uuid, tag: Tag) {
    && tag.id in db.tags && Sees(ses, db.tags[tag.id].tenant) && tag == TagAt(db, tag.id)
    && Link(mediaId, tag.id) in db.links && db.links[Link(mediaId, tag.id)] == ses.tenant
  }

  function JoinedTags(db: Tables, ses: Session, mediaId: Uuid): set<Tag> {
    set id | id in db.tags && Joined(db, ses, mediaId, TagAt(db, id)) :: TagAt(db, id)
  }

  lemma JoinedTagsHas(db: Tables, ses: Session, mediaId: Uuid, tag: Tag)
    ensures tag in JoinedTags(db, ses, mediaId) <==> Joined(db, ses, mediaId, tag)
  {
    if Joined(db, ses, mediaId, tag) {
      assert tag == TagAt(db, tag.id);
    }
  }

  // The rows of queryMediaTags.
  predicate AnswersTagQuery(db: Tables, ses: Session, coll: Collation, mediaId: Uuid, rows: seq<Tag>) {
    NameSorted(rows, coll) && NoDuplicates(rows) && (set tag | tag in rows) == JoinedTags(db, ses, mediaId)
  }

  lemma AnswerIsJoined(db: Tables, ses: Session, coll: Collation, mediaId: Uuid, rows: seq<Tag>)
    requires AnswersTagQuery(db, ses, coll, mediaId, rows)
    ensures forall tag :: tag in rows <==> Joined(db, ses, mediaId, tag)
  {
    forall tag
      ensures tag in rows <==> Joined(db, ses, mediaId, tag)
    {
      JoinedTagsHas(db, ses, mediaId, tag);
      assert tag in rows <==> tag in set t | t in rows;
    }
  }

  ghost function KeysOfRows(rows: seq<Tag>): seq<TagKey> {
    seq(|rows|, i requires 0 <= i < |rows| => TagKey(rows[i].name, rows[i].id))
  }

  lemma RowKeysSorted(db: Tables, ses: Session, coll: Collation, mediaId: Uuid, rows: seq<Tag>)
    requires Inv(db) && StrictTotalOrder(coll) && NameSorted(rows, coll) && NoDuplicates(rows)
    requires forall tag :: tag in rows ==> Joined(db, ses, mediaId, tag)
    ensures Sorted(KeysOfRows(rows), TagOrder(coll))
  {
    forall i, j | 0 <= i < j < |rows|
      ensures TagOrder(coll)(KeysOfRows(rows)[i], KeysOfRows(rows)[j])
    {
      assert rows[i] in rows && rows[j] in rows;
      assert rows[i] != rows[j] && rows[i].id != rows[j].id;
      assert rows[i].name != rows[j].name;
    }
  }

  lemma RowKeysComplete(db: Tables, ses: Session, mediaId: Uuid, rows: seq<Tag>)
    requires forall tag :: tag in rows <==> Joined(db, ses, mediaId, tag)
    ensures Elements(KeysOfRows(rows)) == JoinedTagKeys(db, ses, mediaId)
  {
    var keys := KeysOfRows(rows);
    forall k | k in JoinedTagKeys(db, ses, mediaId)
      ensures k in Elements(keys)
    {
      assert Joined(db, ses, mediaId, TagAt(db, k.id));
      var i :| 0 <= i < |rows| && rows[i] == TagAt(db, k.id);
      assert keys[i] == k;
    }
    forall k | k in Elements(keys)
      ensures k in JoinedTagKeys(db, ses, mediaId)
    {
      var i :| 0 <= i < |keys| && keys[i] == k;
      assert rows[i] in rows && Joined(db, ses, mediaId, rows[i]);
    }
  }

  lemma RowsReadBack(db: Tables, ses: Session, mediaId: Uuid, rows: seq<Tag>)
    requires forall tag :: tag in rows ==> Joined(db, ses, mediaId, tag)
    ensures forall k :: k in KeysOfRows(rows) ==> k.id in db.tags
    ensures LoadTags(db, KeysOfRows(rows)) == rows
  {
    forall i | 0 <= i < |rows|
      ensures rows[i].id in db.tags && rows[i] == TagAt(db, rows[i].id)
    {
      assert rows[i] in rows && Joined(db, ses, mediaId, rows[i]);
    }
  }

  // One media item's tags have distinct names, so the name alone fixes their order.
  lemma NameOrderDecides(db: Tables, ses: Session, coll: Collation, mediaId: Uuid, rows: seq<Tag>)
    requires Inv(db) && StrictTotalOrder(coll) && AnswersTagQuery(db, ses, coll, mediaId, rows)
    ensures rows == MediaTags(db, ses, coll, mediaId)
  {
    TagOrderIsTotal(coll);
    AnswerIsJoined(db, ses, coll, mediaId, rows);
    RowKeysSorted(db, ses, coll, mediaId, rows);
    RowKeysComplete(db, ses, mediaId, rows);
    SortIsOnly(KeysOfRows(rows), JoinedTagKeys(db, ses, mediaId), TagOrder(coll));
    RowsReadBack(db, ses, mediaId, rows);
  }

  predicate StreamSorted(rows: seq<(Uuid, Tag)>, coll: Collation) {
    forall i, j :: 0 <= i < j < |rows| ==> !coll(rows[j].1.name, rows[i].1.name)
  }

  function JoinedRows(db: Tables, ses: Session, ids: set<Uuid>): set<(Uuid, Tag)> {
    set m, id | m in ids && id in db.tags && Joined(db, ses, m, TagAt(db, id)) :: (m, TagAt(db, id))
  }

  lemma JoinedRowsHas(db: Tables, ses: Session, ids: set<Uuid>, m: Uuid, tag: Tag)
    ensures (m, tag) in JoinedRows(db, ses, ids) <==> m in ids && Joined(db, ses, m, tag)
  {
    if m in ids && Joined(db, ses, m, tag) {
      assert tag == TagAt(db, tag.id);
    }
  }

  // The rows (media_id, tag) of the batch query of listInTx.
  predicate AnswersBatchQuery(db: Tables, ses: Session, coll: Collation, ids: set<Uuid>, rows: seq<(Uuid, Tag)>) {
    StreamSorted(rows, coll) && NoDuplicates(rows) && (set row | row in rows) == JoinedRows(db, ses, ids)
  }

  function RowsFor(rows: seq<(Uuid, Tag)>, m: Uuid): seq<Tag> {
    if |rows| == 0 then []
    else
      var init := RowsFor(rows[..|rows| - 1], m);
      var last := rows[|rows| - 1];
      if last.0 == m then init + [last.1] else init
  }

  lemma {:induction false} RowsForFacts(rows: seq<(Uuid, Tag)>, coll: Collation, m: Uuid)
    requires StreamSorted(rows, coll) && NoDuplicates(rows)
    ensures NameSorted(RowsFor(rows, m), coll) && NoDuplicates(RowsFor(rows, m))
    ensures forall tag :: tag in RowsFor(rows, m) <==> (m, tag) in rows
  {
    if |rows| > 0 {
      var n := |rows| - 1;
      var init, last := rows[..n], rows[n];
      RowsForFacts(init, coll, m);
      assert rows == init + [last];
      var mine := RowsFor(init, m);
      forall i | 0 <= i < |mine|
        ensures last.0 == m ==> mine[i] != last.1 && !coll(last.1.name, mine[i].name)
      {
        assert mine[i] in mine && (m, mine[i]) in init;
        var k :| 0 <= k < n && rows[k] == (m, mine[i]);
      }
    }
  }

  // For every item of a page, its rows of the batch stream are the tag list GetByID returns.
  lemma BatchAgrees(db: Tables, ses: Session, coll: Collation, ids: set<Uuid>, rows: seq<(Uuid, Tag)>, m: Uuid)
    requires Inv(db) && StrictTotalOrder(coll) && AnswersBatchQuery(db, ses, coll, ids, rows) && m in ids
    ensures RowsFor(rows, m) == MediaTags(db, ses, coll, m)
  {
    RowsForFacts(rows, coll, m);
    var mine := RowsFor(rows, m);
    forall tag
      ensures tag in mine <==> tag in JoinedTags(db, ses, m)
    {
      JoinedTagsHas(db, ses, m, tag);
      JoinedRowsHas(db, ses, ids, m, tag);
      assert (m, tag) in rows <==> (m, tag) in set row | row in rows;
    }
    assert (set tag | tag in mine) == JoinedTags(db, ses, m);
    NameOrderDecides(db, ses, coll, m, mine);
  }

  lemma MediaTagsElements(db: Tables, ses: Session, coll: Collation, mediaId: Uuid, tag: Tag)
    requires StrictTotalOrder(coll)
    ensures tag in MediaTags(db, ses, coll, mediaId) <==> Joined(db, ses, mediaId, tag)
  {
    TagOrderIsTotal(coll);
    var keys := Sort(JoinedTagKeys(db, ses, mediaId), TagOrder(coll));
    var rows := MediaTags(db, ses, coll, mediaId);
    assert forall k :: k in keys <==> k in Elements(keys);
    if tag in rows {
      var i :| 0 <= i < |rows| && rows[i] == tag;
      assert keys[i] in Elements(keys);
    }
    if Joined(db, ses, mediaId, tag) {
      assert TagKey(db.tags[tag.id].name, tag.id) in JoinedTagKeys(db, ses, mediaId);
      var i :| 0 <= i < |keys| && keys[i] == TagKey(tag.name, tag.id);
      assert rows[i] == tag;
    }
  }

  lemma MediaTagsOrdered(db: Tables, ses: Session, coll: Collation, mediaId: Uuid)
    requires StrictTotalOrder(coll)
    ensures NameSorted(MediaTags(db, ses, coll, mediaId), coll) && NoDuplicates(MediaTags(db, ses, coll, mediaId))
  {
    TagOrderIsTotal(coll);
    var keys := Sort(JoinedTagKeys(db, ses, mediaId), TagOrder(coll));
    var rows := MediaTags(db, ses, coll, mediaId);
    forall i | 0 <= i < |rows|
      ensures keys[i] == TagKey(rows[i].name, rows[i].id)
    {
      assert keys[i] in Elements(keys);
    }
    forall i, j | 0 <= i < j < |rows|
      ensures rows[i] != rows[j] && !coll(rows[j].name, rows[i].name)
    {
      assert TagOrder(coll)(keys[i], keys[j]) && !TagOrder(coll)(keys[j], keys[i]);
    }
  }

  lemma TagAnswerExists(db: Tables, ses: Session, coll: Collation, mediaId: Uuid)
    requires StrictTotalOrder(coll)
    ensures exists rows :: AnswersTagQuery(db, ses, coll, mediaId, rows)
  {
    var rows := MediaTags(db, ses, coll, mediaId);
    MediaTagsOrdered(db, ses, coll, mediaId);
    forall tag
      ensures tag in rows <==> tag in JoinedTags(db, ses, mediaId)
    {
      MediaTagsElements(db, ses, coll, mediaId, tag);
      JoinedTagsHas(db, ses, mediaId, tag);
    }
    assert (set tag | tag in rows) == JoinedTags(db, ses, mediaId);
    assert AnswersTagQuery(db, ses, coll, mediaId, rows);
  }

  // ---- The batch query has an answer: order by (name, tag, media) ----

  datatype BatchKey = BatchKey(tag: TagKey, media: Uuid)

  function BatchOrder(coll: Collation): (BatchKey, BatchKey) -> bool {
    (a: BatchKey, b: BatchKey) => TagOrder(coll)(a.tag, b.tag) || (a.tag == b.tag && a.media < b.media)
  }

  lemma BatchOrderIsTotal(coll: Collation)
    requires StrictTotalOrder(coll)
    ensures StrictTotalOrder(BatchOrder(coll))
  {
    TagOrderIsTotal(coll);
    var lt, inner := BatchOrder(coll), TagOrder(coll);
    forall x: BatchKey
      ensures !lt(x, x)
    {
      assert !inner(x.tag, x.tag);
    }
    forall x, y, z | lt(x, y) && lt(y, z)
      ensures lt(x, z)
    {
      assert inner(x.tag, y.tag) && inner(y.tag, z.tag) ==> inner(x.tag, z.tag);
    }
    forall x, y | x != y
      ensures lt(x, y) || lt(y, x)
    {
      assert x.tag == y.tag || inner(x.tag, y.tag) || inner(y.tag, x.tag);
    }
  }

  function BatchKeys(db: Tables, ses: Session, ids: set<Uuid>): set<BatchKey> {
    set m, id | m in ids && id in db.tags
      && Joined(db, ses, m, TagAt(db, id)) :: BatchKey(TagKey(db.tags[id].name, id), m)
  }

  predicate Reads(db: Tables, keys: seq<BatchKey>, rows: seq<(Uuid, Tag)>) {
    |rows| == |keys| &&
    forall i :: 0 <= i < |keys| ==>
      keys[i].tag.id in db.tags && rows[i] == (keys[i].media, TagAt(db, keys[i].tag.id))
        && rows[i].1.name == keys[i].tag.name
  }

  lemma BatchRowsOrdered(db: Tables, coll: Collation, keys: seq<BatchKey>, rows: seq<(Uuid, Tag)>)
    requires StrictTotalOrder(coll) && Sorted(keys, BatchOrder(coll)) && Reads(db, keys, rows)
    ensures StreamSorted(rows, coll) && NoDuplicates(rows)
  {
    BatchOrderIsTotal(coll);
    forall i, j | 0 <= i < j < |rows|
      ensures rows[i] != rows[j] && !coll(rows[j].1.name, rows[i].1.name)
    {
      assert BatchOrder(coll)(keys[i], keys[j]) && !BatchOrder(coll)(keys[j], keys[i]);
      assert !TagOrder(coll)(keys[j].tag, keys[i].tag);
      assert keys[i] == BatchKey(TagKey(rows[i].1.name, keys[i].tag.id), rows[i].0);
      assert keys[j] == BatchKey(TagKey(rows[j].1.name, keys[j].tag.id), rows[j].0);
    }
  }

  lemma BatchRowsComplete(db: Tables, ses: Session, ids: set<Uuid>, keys: seq<BatchKey>, rows: seq<(Uuid, Tag)>)
    requires Elements(keys) == BatchKeys(db, ses, ids) && Reads(db, keys, rows)
    ensures (set row | row in rows) == JoinedRows(db, ses, ids)
  {
    forall row | row in rows
      ensures row in JoinedRows(db, ses, ids)
    {
      var i :| 0 <= i < |rows| && rows[i] == row;
      assert keys[i] in Elements(keys);
    }
    forall row | row in JoinedRows(db, ses, ids)
      ensures row in rows
    {
      var m, id :| m in ids && id in db.tags && Joined(db, ses, m, TagAt(db, id)) && row == (m, TagAt(db, id));
      var k := BatchKey(TagKey(db.tags[id].name, id), m);
      assert k in BatchKeys(db, ses, ids) && k in Elements(keys);
      var i :| 0 <= i < |keys| && keys[i] == k;
      assert rows[i] == row;
    }
  }

  lemma BatchAnswerExists(db: Tables, ses: Session, coll: Collation, ids: set<Uuid>)
    requires StrictTotalOrder(coll)
    ensures exists rows :: AnswersBatchQuery(db, ses, coll, ids, rows)
  {
    BatchOrderIsTotal(coll);
    var keys := Sort(BatchKeys(db, ses, ids), BatchOrder(coll));
    forall i | 0 <= i < |keys|
      ensures keys[i].tag.id in db.tags && keys[i].tag.name == db.tags[keys[i].tag.id].name
    {
      assert keys[i] in Elements(keys);
    }
    var rows := seq(|keys|, i requires 0 <= i < |keys| => (keys[i].media, TagAt(db, keys[i].tag.id)));
    BatchRowsOrdered(db, coll, keys, rows);
    BatchRowsComplete(db, ses, ids, keys, rows);
    assert AnswersBatchQuery(db, ses, coll, ids, rows);
  }
}
