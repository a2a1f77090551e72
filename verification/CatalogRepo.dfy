// internal/adapter/postgres/tag_repo.go and media_repo.go: the repositories' methods. Each is one
// transaction (withTenantTx) on the shared tables and is proved against Catalog's function for it.
module CatalogRepo {
  import opened Common
  import opened Ordering
  import opened Keyset
  import opened Catalog
  import opened CatalogQueries
  import TenantIsolation

  class Database {
    var tags: map<Uuid, TagRow>
    var media: map<Uuid, MediaRow>
    var links: map<Link, Uuid>

    function Contents(): Tables
      reads this
    {
      Tables(tags, media, links)
    }
  }

  function TagResult(r: Result<(Tag, bool), Error>): Reply {
    match r
    case Ok(found) => TagReply(found.0, found.1)
    case Err(error) => Failed(error)
  }

  function DoneOr(error: Option<Error>): Reply {
    if error.None? then Done else Failed(error.value)
  }

  lemma CutPage<K(!new)>(keys: set<K>, cursor: Option<K>, limit: nat, lt: (K, K) -> bool, rows: seq<K>)
    requires limit > 0 && StrictTotalOrder(lt)
    requires rows == OrderByLimit(Beyond(keys, cursor, lt), lt, limit + 1)
    ensures PageOf(keys, cursor, limit, lt) == if |rows| > limit
            then (rows[..limit], Some(rows[limit - 1])) else (rows, None)
    ensures forall k :: k in rows ==> k in keys
  {
    var all := Sort(Beyond(keys, cursor, lt), lt);
    forall k | k in rows
      ensures k in keys
    {
      assert k in Elements(all);
    }
    if |rows| > limit {
      assert rows[..limit] == all[..limit];
    }
  }

  // What TagRepo.List makes of the rows of its query.
  lemma TagPageRows(db: Tables, ses: Session, coll: Collation, cursor: Option<TagKey>, limit: nat, rows: seq<TagKey>)
    requires limit > 0 && StrictTotalOrder(coll) && StrictTotalOrder(TagOrder(coll))
    requires rows == OrderByLimit(Beyond(TagKeys(db, ses), cursor, TagOrder(coll)), TagOrder(coll), limit + 1)
    ensures forall k :: k in rows ==> k.id in db.tags && k.name == db.tags[k.id].name
    ensures |LoadTags(db, rows)| == |rows|
    ensures DoListTags(db, ses, coll, limit, cursor)
            == if |rows| > limit then TagPage(LoadTags(db, rows)[..limit], Some(rows[limit - 1]))
               else TagPage(LoadTags(db, rows), None)
  {
    CutPage(TagKeys(db, ses), cursor, limit, TagOrder(coll), rows);
    TagPageOf(db, ses, coll, cursor, limit);
    if |rows| > limit {
      CutTags(db, rows, limit);
    }
  }

  lemma CutTags(db: Tables, rows: seq<TagKey>, limit: nat)
    requires limit <= |rows| && forall k :: k in rows ==> k.id in db.tags
    ensures forall k :: k in rows[..limit] ==> k.id in db.tags
    ensures LoadTags(db, rows[..limit]) == LoadTags(db, rows)[..limit]
  {
    assert forall k :: k in rows[..limit] ==> k in rows;
  }

  lemma TagPageOf(db: Tables, ses: Session, coll: Collation, cursor: Option<TagKey>, limit: nat)
    requires limit > 0 && StrictTotalOrder(coll) && StrictTotalOrder(TagOrder(coll))
    ensures var (page, next) := PageOf(TagKeys(db, ses), cursor, limit, TagOrder(coll));
            && (forall k :: k in page ==> k.id in db.tags)
            && DoListTags(db, ses, coll, limit, cursor) == TagPage(LoadTags(db, page), next)
  {
    PageFacts(TagKeys(db, ses), cursor, limit, TagOrder(coll));
  }

  // The rows a page of tags was read from.
  lemma TagPageKeys(db: Tables, ses: Session, coll: Collation, cursor: Option<TagKey>, limit: nat, tags: seq<Tag>)
    returns (keys: seq<TagKey>)
    requires limit > 0 && StrictTotalOrder(coll) && DoListTags(db, ses, coll, limit, cursor).TagPage?
    requires tags == DoListTags(db, ses, coll, limit, cursor).tags
    ensures StrictTotalOrder(TagOrder(coll)) && keys == PageOf(TagKeys(db, ses), cursor, limit, TagOrder(coll)).0
    ensures |keys| == |tags|
    ensures forall i :: 0 <= i < |tags| ==>
              keys[i] == TagKey(tags[i].name, tags[i].id) && keys[i].id in db.tags && tags[i] == TagAt(db, keys[i].id)
  {
    TagOrderIsTotal(coll);
    PageFacts(TagKeys(db, ses), cursor, limit, TagOrder(coll));
    TagPageOf(db, ses, coll, cursor, limit);
    keys := PageOf(TagKeys(db, ses), cursor, limit, TagOrder(coll)).0;
    forall i | 0 <= i < |keys|
      ensures keys[i] == TagKey(tags[i].name, tags[i].id) && keys[i].id in db.tags
      ensures tags[i] == TagAt(db, keys[i].id)
    {
      assert keys[i] in keys && keys[i] in TagKeys(db, ses);
    }
  }

  lemma TagPageAscends(db: Tables, ses: Session, coll: Collation, cursor: Option<TagKey>, limit: nat, tags: seq<Tag>)
    requires limit > 0 && StrictTotalOrder(coll) && DoListTags(db, ses, coll, limit, cursor).TagPage?
    requires tags == DoListTags(db, ses, coll, limit, cursor).tags
    ensures forall i, j :: 0 <= i < j < |tags| ==>
              coll(tags[i].name, tags[j].name) || (tags[i].name == tags[j].name && tags[i].id < tags[j].id)
    ensures cursor.Some? ==> forall i :: 0 <= i < |tags| ==>
              coll(cursor.value.name, tags[i].name)
              || (cursor.value.name == tags[i].name && cursor.value.id < tags[i].id)
  {
    var keys := TagPageKeys(db, ses, coll, cursor, limit, tags);
    NamesAscend(coll, TagKeys(db, ses), cursor, limit);
  }

  // A tag of the tenant that the first page leaves out comes after every tag on it.
  lemma TagPageLeavesLaterOut(db: Tables, ses: Session, coll: Collation, cursor: Option<TagKey>, limit: nat,
                              tags: seq<Tag>)
    requires limit > 0 && StrictTotalOrder(coll) && DoListTags(db, ses, coll, limit, cursor).TagPage?
    requires tags == DoListTags(db, ses, coll, limit, cursor).tags && cursor.None?
    ensures forall id, i | id in db.tags && OwnsTag(db, ses, id) && 0 <= i < |tags| ::
              TagAt(db, id) in tags
              || (|tags| == limit
                  && (coll(tags[i].name, db.tags[id].name) || (tags[i].name == db.tags[id].name && tags[i].id < id)))
  {
    var keys := TagPageKeys(db, ses, coll, cursor, limit, tags);
    forall id, i | id in db.tags && OwnsTag(db, ses, id) && 0 <= i < |tags| && TagAt(db, id) !in tags
      ensures |tags| == limit
              && (coll(tags[i].name, db.tags[id].name) || (tags[i].name == db.tags[id].name && tags[i].id < id))
    {
      var k := TagKey(db.tags[id].name, id);
      assert k in TagKeys(db, ses);
      LaterStaysOut(coll, TagKeys(db, ses), cursor, limit, k, i);
    }
  }

  class TagRepo {
    const db: Database

    constructor (db: Database)
      ensures this.db == db
    {
      this.db := db;
    }

    // INSERT ... ON CONFLICT (tenant_id, name) DO NOTHING, then SELECT if nothing was inserted.
    method CreateOrGet(ses: Session, name: string, freshId: Uuid, now: Time) returns (r: (Tag, bool))
      requires Inv(db.Contents()) && freshId !in db.tags
      modifies db
      ensures Inv(db.Contents())
      ensures (db.Contents(), TagReply(r.0, r.1)) == DoCreateOrGet(old(db.Contents()), ses, name, freshId, now)
    {
      if !NameTaken(db.Contents(), ses.tenant, name, {}) {
        db.tags := db.tags[freshId := TagRow(ses.tenant, name, now)];
        return (Tag(freshId, name, now), true);
      }
      TakenIsNamed(db.Contents(), ses, name);
      var id :| id in Named(db.Contents(), ses, name);
      return (TagAt(db.Contents(), id), false);
    }

    method List(ses: Session, coll: Collation, limit: nat, cursor: Option<TagKey>)
      returns (tags: seq<Tag>, next: Option<TagKey>)
      requires StrictTotalOrder(coll) && limit > 0
      ensures TagPage(tags, next) == DoListTags(db.Contents(), ses, coll, limit, cursor)
      // From the first name to the last, from the cursor on.
      ensures forall i, j :: 0 <= i < j < |tags| ==>
                coll(tags[i].name, tags[j].name) || (tags[i].name == tags[j].name && tags[i].id < tags[j].id)
      ensures cursor.Some? ==> forall i :: 0 <= i < |tags| ==>
                coll(cursor.value.name, tags[i].name)
                || (cursor.value.name == tags[i].name && cursor.value.id < tags[i].id)
    {
      TagOrderIsTotal(coll);
      var rows := OrderByLimit(Beyond(TagKeys(db.Contents(), ses), cursor, TagOrder(coll)), TagOrder(coll), limit + 1);
      TagPageRows(db.Contents(), ses, coll, cursor, limit, rows);
      tags := ScanTags(rows);
      next := None;
      if |tags| > limit {
        var last := tags[limit - 1];
        next := Some(TagKey(last.name, last.id));
        tags := tags[..limit];
      }
      TagPageAscends(db.Contents(), ses, coll, cursor, limit, tags);
    }

    method ScanTags(rows: seq<TagKey>) returns (tags: seq<Tag>)
      requires forall k :: k in rows ==> k.id in db.tags
      ensures tags == LoadTags(db.Contents(), rows)
    {
      tags := [];
      for i := 0 to |rows|
        invariant |tags| == i && forall j :: 0 <= j < i ==> tags[j] == TagAt(db.Contents(), rows[j].id)
      {
        tags := tags + [TagAt(db.Contents(), rows[i].id)];
      }
    }

    // UPDATE ... RETURNING; a unique violation is mapped to ErrConflict.
    method Rename(ses: Session, id: Uuid, name: string) returns (r: Result<(Tag, bool), Error>)
      requires Inv(db.Contents())
      modifies db
      ensures Inv(db.Contents())
      ensures (db.Contents(), TagResult(r)) == DoRenameTag(old(db.Contents()), ses, id, name)
    {
      if !OwnsTag(db.Contents(), ses, id) {
        return Err(ErrNotFound);
      }
      if NameTaken(db.Contents(), ses.tenant, name, {id}) {
        return Err(ErrConflict);
      }
      TenantIsolation.RenameKeepsInv(db.Contents(), ses, id, name);
      db.tags := db.tags[id := db.tags[id].(name := name)];
      return Ok((TagAt(db.Contents(), id), false));
    }

    method Delete(ses: Session, id: Uuid) returns (error: Option<Error>)
      requires Inv(db.Contents())
      modifies db
      ensures Inv(db.Contents())
      ensures (db.Contents(), DoneOr(error)) == DoDeleteTag(old(db.Contents()), ses, id)
    {
      if !OwnsTag(db.Contents(), ses, id) {
        return Some(ErrNotFound);
      }
      TenantIsolation.ProjectDropTag(db.Contents(), id, ses.tenant);
      db.tags := db.tags - {id};
      db.links := map l | l in db.links && l.tag != id :: db.links[l];
      return None;
    }
  }

  // domain.Media as listInTx builds it: the same object is in the page and in the map the tag
  // loop looks it up in, and Tags grows in place.
  class MediaItem {
    const id: Uuid
    const info: MediaInfo
    const createdAt: Time
    var tags: seq<Tag>

    constructor (id: Uuid, row: MediaRow)
      ensures this.id == id && info == row.info && createdAt == row.createdAt && tags == []
    {
      this.id := id;
      this.info := row.info;
      this.createdAt := row.createdAt;
      this.tags := [];
    }

    function Value(): Media
      reads this
    {
      Media(id, info, createdAt, tags)
    }
  }

  function Values(items: seq<MediaItem>): seq<Media>
    reads items
  {
    seq(|items|, i requires 0 <= i < |items| reads items => items[i].Value())
  }

  // The columns of the page order, as the items show them.
  ghost function KeysShown(items: seq<MediaItem>): seq<MediaKey> {
    seq(|items|, i requires 0 <= i < |items| => MediaKey(items[i].createdAt, items[i].id))
  }

  // The items hold the rows of keys, in order, and no two share an id or an object.
  ghost predicate Holds(db: Tables, items: seq<MediaItem>, keys: seq<MediaKey>) {
    && |items| == |keys|
    && (forall i :: 0 <= i < |keys| ==>
          && keys[i].id in db.media
          && items[i].id == keys[i].id
          && items[i].info == db.media[keys[i].id].info
          && items[i].createdAt == db.media[keys[i].id].createdAt)
    && (forall i, j :: 0 <= i < j < |keys| ==> keys[i].id != keys[j].id)
  }

  // The rows of the page query carry the key columns their items will show.
  lemma RowsInTable(db: Tables, ses: Session, filter: Filter, cursor: Option<MediaKey>, n: nat, rows: seq<MediaKey>)
    requires StrictTotalOrder(MediaOrder())
    requires rows == OrderByLimit(Beyond(MediaKeys(db, ses, filter), cursor, MediaOrder()), MediaOrder(), n)
    ensures forall i :: 0 <= i < |rows| ==>
              rows[i].id in db.media && rows[i].createdAt == db.media[rows[i].id].createdAt
    ensures forall i, j :: 0 <= i < j < |rows| ==> rows[i].id != rows[j].id
  {
    var keys := Sort(Beyond(MediaKeys(db, ses, filter), cursor, MediaOrder()), MediaOrder());
    forall i | 0 <= i < |keys|
      ensures keys[i].id in db.media && keys[i].createdAt == db.media[keys[i].id].createdAt
    {
      assert keys[i] in Elements(keys);
    }
    forall i, j | 0 <= i < j < |keys|
      ensures keys[i].id != keys[j].id
    {
      assert MediaOrder()(keys[i], keys[j]);
    }
  }

  lemma MediaPageOf(db: Tables, ses: Session, coll: Collation, cursor: Option<MediaKey>, limit: nat, filter: Filter)
    requires limit > 0 && StrictTotalOrder(coll) && StrictTotalOrder(MediaOrder())
    ensures var (page, next) := PageOf(MediaKeys(db, ses, filter), cursor, limit, MediaOrder());
            && (forall k :: k in page ==> k.id in db.media)
            && DoListMedia(db, ses, coll, limit, cursor, filter) == MediaPage(LoadMedia(db, ses, coll, page), next)
  {
    PageFacts(MediaKeys(db, ses, filter), cursor, limit, MediaOrder());
  }

  ghost predicate HoldsPage(db: Tables, ses: Session, filter: Filter, cursor: Option<MediaKey>, limit: nat,
                            items: seq<MediaItem>, keys: seq<MediaKey>)
  {
    && limit > 0 && StrictTotalOrder(MediaOrder())
    && keys == PageOf(MediaKeys(db, ses, filter), cursor, limit, MediaOrder()).0
    && Holds(db, items, keys)
  }

  lemma HeldKeys(db: Tables, ses: Session, filter: Filter, cursor: Option<MediaKey>, limit: nat,
                 items: seq<MediaItem>, keys: seq<MediaKey>)
    requires HoldsPage(db, ses, filter, cursor, limit, items, keys)
    ensures keys == KeysShown(items)
  {
    PageFacts(MediaKeys(db, ses, filter), cursor, limit, MediaOrder());
    forall i | 0 <= i < |keys|
      ensures keys[i] == MediaKey(items[i].createdAt, items[i].id)
    {
      assert keys[i] in keys;
    }
  }

  lemma HeldNewestFirst(db: Tables, ses: Session, filter: Filter, cursor: Option<MediaKey>, limit: nat,
                        items: seq<MediaItem>, keys: seq<MediaKey>)
    requires HoldsPage(db, ses, filter, cursor, limit, items, keys)
    ensures forall i, j :: 0 <= i < j < |items| ==>
              items[i].createdAt > items[j].createdAt
              || (items[i].createdAt == items[j].createdAt && items[i].id > items[j].id)
    ensures cursor.Some? ==> forall i :: 0 <= i < |items| ==>
              items[i].createdAt < cursor.value.createdAt
              || (items[i].createdAt == cursor.value.createdAt && items[i].id < cursor.value.id)
  {
    HeldKeys(db, ses, filter, cursor, limit, items, keys);
    NewestFirst(MediaKeys(db, ses, filter), cursor, limit);
    assert forall i :: 0 <= i < |items| ==> keys[i] == MediaKey(items[i].createdAt, items[i].id);
  }

  lemma HeldLeaveOlderOut(db: Tables, ses: Session, filter: Filter, cursor: Option<MediaKey>, limit: nat,
                          items: seq<MediaItem>, keys: seq<MediaKey>)
    requires HoldsPage(db, ses, filter, cursor, limit, items, keys) && cursor.None?
    ensures forall k, i | k in MediaKeys(db, ses, filter) && 0 <= i < |items| ::
              k in KeysShown(items)
              || (|items| == limit
                  && (items[i].createdAt > k.createdAt || (items[i].createdAt == k.createdAt && items[i].id > k.id)))
  {
    HeldKeys(db, ses, filter, cursor, limit, items, keys);
    forall k, i | k in MediaKeys(db, ses, filter) && 0 <= i < |items| && k !in KeysShown(items)
      ensures |items| == limit
              && (items[i].createdAt > k.createdAt || (items[i].createdAt == k.createdAt && items[i].id > k.id))
    {
      assert keys[i] == MediaKey(items[i].createdAt, items[i].id);
      OlderStaysOut(MediaKeys(db, ses, filter), cursor, limit, k, i);
    }
  }

  class MediaRepo {
    const db: Database

    constructor (db: Database)
      ensures this.db == db
    {
      this.db := db;
    }

    // A failed INSERT rolls the whole transaction back.
    method Create(ses: Session, coll: Collation, info: MediaInfo, tagIds: seq<Uuid>, freshId: Uuid, now: Time)
      returns (r: Result<Media, Error>)
      requires Inv(db.Contents()) && StrictTotalOrder(coll) && freshId !in db.media
      modifies db
      ensures Inv(db.Contents())
      ensures (db.Contents(), if r.Ok? then MediaReply(r.value) else Failed(r.error))
              == DoCreateMedia(old(db.Contents()), ses, coll, info, tagIds, freshId, now)
    {
      TenantIsolation.CreateMediaSimulates(db.Contents(), ses, coll, info, tagIds, freshId, now);
      var media0, links0 := db.media, db.links;
      db.media := db.media[freshId := MediaRow(ses.tenant, info, now)];
      ghost var db1 := db.Contents();
      for i := 0 to |tagIds|
        invariant db.tags == db1.tags && db.media == db1.media
        invariant AddLinks(db1, ses, freshId, tagIds) == AddLinks(db.Contents(), ses, freshId, tagIds[i..])
      {
        assert tagIds[i..][1..] == tagIds[i + 1..];
        if OwnsTag(db.Contents(), ses, tagIds[i]) {
          var link := Link(freshId, tagIds[i]);
          if link in db.links {
            db.media, db.links := media0, links0;
            return Err(ErrInternal);
          }
          db.links := db.links[link := ses.tenant];
        }
      }
      var tags := QueryMediaTags(ses, coll, freshId);
      return Ok(Media(freshId, info, now, tags));
    }

    method QueryMediaTags(ses: Session, coll: Collation, mediaId: Uuid) returns (tags: seq<Tag>)
      requires Inv(db.Contents()) && StrictTotalOrder(coll)
      ensures tags == MediaTags(db.Contents(), ses, coll, mediaId)
    {
      TagAnswerExists(db.Contents(), ses, coll, mediaId);
      var rows :| AnswersTagQuery(db.Contents(), ses, coll, mediaId, rows);
      NameOrderDecides(db.Contents(), ses, coll, mediaId, rows);
      tags := rows;
    }

    method GetByID(ses: Session, coll: Collation, id: Uuid) returns (r: Result<Media, Error>)
      requires Inv(db.Contents()) && StrictTotalOrder(coll)
      ensures (if r.Ok? then MediaReply(r.value) else Failed(r.error)) == DoGetMedia(db.Contents(), ses, coll, id)
    {
      if !OwnsMedia(db.Contents(), ses, id) {
        return Err(ErrNotFound);
      }
      var tags := QueryMediaTags(ses, coll, id);
      return Ok(Media(id, db.media[id].info, db.media[id].createdAt, tags));
    }

    method Delete(ses: Session, id: Uuid) returns (r: Result<string, Error>)
      requires Inv(db.Contents())
      modifies db
      ensures Inv(db.Contents())
      ensures (db.Contents(), if r.Ok? then PathReply(r.value) else Failed(r.error))
              == DoDeleteMedia(old(db.Contents()), ses, id)
    {
      if !OwnsMedia(db.Contents(), ses, id) {
        return Err(ErrNotFound);
      }
      TenantIsolation.ProjectDropMedia(db.Contents(), id, ses.tenant);
      var filePath := db.media[id].info.filePath;
      db.media := db.media - {id};
      db.links := map l | l in db.links && l.media != id :: db.links[l];
      return Ok(filePath);
    }

    // The INSERT has run when the validation count rejects the call, so that path rolls back.
    method AttachTags(ses: Session, mediaId: Uuid, tagIds: seq<Uuid>) returns (error: Option<Error>)
      requires Inv(db.Contents())
      modifies db
      ensures Inv(db.Contents())
      ensures (db.Contents(), DoneOr(error)) == DoAttachTags(old(db.Contents()), ses, mediaId, tagIds)
    {
      if !OwnsMedia(db.Contents(), ses, mediaId) {
        return Some(ErrNotFound);
      }
      if |tagIds| == 0 {
        return None;
      }
      TenantIsolation.LinkingKeepsInv(db.Contents(), ses, mediaId, tagIds);
      var links0 := db.links;
      var inserted := NewLinks(db.Contents(), mediaId, KnownIds(db.Contents(), ses, tagIds));
      db.links := db.links + LinkRows(inserted, ses.tenant);
      if |inserted| < |tagIds| {
        var validCount := |KnownIds(db.Contents(), ses, tagIds)|;
        assert KnownIds(db.Contents(), ses, tagIds) == KnownIds(old(db.Contents()), ses, tagIds);
        if validCount < |tagIds| {
          db.links := links0;
          return Some(ErrValidation);
        }
      }
      return None;
    }

    method DetachTag(ses: Session, mediaId: Uuid, tagId: Uuid) returns (error: Option<Error>)
      requires Inv(db.Contents())
      modifies db
      ensures Inv(db.Contents())
      ensures (db.Contents(), DoneOr(error)) == DoDetachTag(old(db.Contents()), ses, mediaId, tagId)
    {
      if !OwnsMedia(db.Contents(), ses, mediaId) {
        return Some(ErrNotFound);
      }
      var link := Link(mediaId, tagId);
      if link in db.links && db.links[link] == ses.tenant {
        db.links := db.links - {link};
      }
      return None;
    }

    // listInTx: the page, then every item's tags from one stream.
    method List(ses: Session, coll: Collation, limit: nat, cursor: Option<MediaKey>, filter: Filter)
      returns (items: seq<MediaItem>, next: Option<MediaKey>)
      requires Inv(db.Contents()) && StrictTotalOrder(coll) && limit > 0
      ensures fresh(items)
      ensures MediaPage(Values(items), next) == DoListMedia(db.Contents(), ses, coll, limit, cursor, filter)
      // From newer to older, from the cursor on,
      ensures forall i, j :: 0 <= i < j < |items| ==>
                items[i].createdAt > items[j].createdAt
                || (items[i].createdAt == items[j].createdAt && items[i].id > items[j].id)
      ensures cursor.Some? ==> forall i :: 0 <= i < |items| ==>
                items[i].createdAt < cursor.value.createdAt
                || (items[i].createdAt == cursor.value.createdAt && items[i].id < cursor.value.id)
      // and a selected item that the first page leaves out is older than all of it.
      ensures cursor.None? ==>
                forall k, i | k in MediaKeys(db.Contents(), ses, filter) && 0 <= i < |items| ::
                  k in KeysShown(items)
                  || (|items| == limit
                      && (items[i].createdAt > k.createdAt
                          || (items[i].createdAt == k.createdAt && items[i].id > k.id)))
    {
      ghost var keys;
      items, next, keys := PageQuery(ses, limit, cursor, filter);
      LoadTagsInto(ses, coll, items);
      MediaPageOf(db.Contents(), ses, coll, cursor, limit, filter);
      assert Values(items) == LoadMedia(db.Contents(), ses, coll, keys);
    }

    // The first statement: fetch limit + 1 rows, cut the page.
    method PageQuery(ses: Session, limit: nat, cursor: Option<MediaKey>, filter: Filter)
      returns (items: seq<MediaItem>, next: Option<MediaKey>, ghost keys: seq<MediaKey>)
      requires limit > 0
      ensures StrictTotalOrder(MediaOrder())
      ensures (keys, next) == PageOf(MediaKeys(db.Contents(), ses, filter), cursor, limit, MediaOrder())
      ensures fresh(items) && Holds(db.Contents(), items, keys)
      // From newer to older, from the cursor on,
      ensures forall i, j :: 0 <= i < j < |items| ==>
                items[i].createdAt > items[j].createdAt
                || (items[i].createdAt == items[j].createdAt && items[i].id > items[j].id)
      ensures cursor.Some? ==> forall i :: 0 <= i < |items| ==>
                items[i].createdAt < cursor.value.createdAt
                || (items[i].createdAt == cursor.value.createdAt && items[i].id < cursor.value.id)
      // and a selected item that the first page leaves out is older than all of it.
      ensures cursor.None? ==>
                forall k, i | k in MediaKeys(db.Contents(), ses, filter) && 0 <= i < |items| ::
                  k in KeysShown(items)
                  || (|items| == limit
                      && (items[i].createdAt > k.createdAt
                          || (items[i].createdAt == k.createdAt && items[i].id > k.id)))
    {
      MediaOrderIsTotal();
      var rows := OrderByLimit(Beyond(MediaKeys(db.Contents(), ses, filter), cursor, MediaOrder()), MediaOrder(),
                               limit + 1);
      RowsInTable(db.Contents(), ses, filter, cursor, limit + 1, rows);
      CutPage(MediaKeys(db.Contents(), ses, filter), cursor, limit, MediaOrder(), rows);
      items := ScanRows(rows);
      next := None;
      keys := rows;
      if |items| > limit {
        var last := items[limit - 1];
        next := Some(MediaKey(last.createdAt, last.id));
        items := items[..limit];
        keys := rows[..limit];
      }
      HeldNewestFirst(db.Contents(), ses, filter, cursor, limit, items, keys);
      if cursor.None? {
        HeldLeaveOlderOut(db.Contents(), ses, filter, cursor, limit, items, keys);
      }
    }

    method ScanRows(rows: seq<MediaKey>) returns (items: seq<MediaItem>)
      requires forall i :: 0 <= i < |rows| ==> rows[i].id in db.media
      requires forall i, j :: 0 <= i < j < |rows| ==> rows[i].id != rows[j].id
      ensures fresh(items) && Holds(db.Contents(), items, rows)
    {
      items := [];
      for i := 0 to |rows|
        invariant fresh(items) && Holds(db.Contents(), items, rows[..i])
      {
        var item := new MediaItem(rows[i].id, db.media[rows[i].id]);
        items := items + [item];
      }
      assert rows[..|rows|] == rows;
    }

    // The second statement. It asks for the items' ids only: their rows may be gone by now.
    method LoadTagsInto(ses: Session, coll: Collation, items: seq<MediaItem>)
      requires Inv(db.Contents()) && StrictTotalOrder(coll)
      requires forall i, j :: 0 <= i < j < |items| ==> items[i].id != items[j].id
      modifies items
      ensures forall i :: 0 <= i < |items| ==> items[i].tags == MediaTags(db.Contents(), ses, coll, items[i].id)
    {
      var mediaMap: map<Uuid, MediaItem> := map[];
      for i := 0 to |items|
        invariant mediaMap.Keys == set j | 0 <= j < i :: items[j].id
        invariant forall j :: 0 <= j < i ==> mediaMap[items[j].id] == items[j] && items[j].tags == []
      {
        mediaMap := mediaMap[items[i].id := items[i]];
        items[i].tags := [];
      }
      BatchAnswerExists(db.Contents(), ses, coll, mediaMap.Keys);
      var stream :| AnswersBatchQuery(db.Contents(), ses, coll, mediaMap.Keys, stream);
      for k := 0 to |stream|
        invariant forall i :: 0 <= i < |items| ==> items[i].tags == RowsFor(stream[..k], items[i].id)
      {
        var (mediaId, tag) := stream[k];
        assert stream[..k + 1][..k] == stream[..k];
        if mediaId in mediaMap {
          var item := mediaMap[mediaId];
          item.tags := item.tags + [tag];
        }
      }
      assert stream[..|stream|] == stream;
      forall i | 0 <= i < |items|
        ensures RowsFor(stream, items[i].id) == MediaTags(db.Contents(), ses, coll, items[i].id)
      {
        BatchAgrees(db.Contents(), ses, coll, mediaMap.Keys, stream, items[i].id);
      }
    }
  }
}
