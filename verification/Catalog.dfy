// The tables tags, media and media_tags, and what each transaction of tag_repo.go and
// media_repo.go does to them. Every query carries the WHERE clauses of the source; a session
// may in addition have the row-level-security policies in force.
module Catalog {
  import opened Common
  import opened Ordering
  import opened Keyset

  // ---- Rows and replies ----

  datatype TagRow = TagRow(tenant: Uuid, name: string, createdAt: Time)
  datatype MediaInfo = MediaInfo(name: string, mediaType: string, filePath: string, originalName: string, fileSize: int)
  datatype MediaRow = MediaRow(tenant: Uuid, info: MediaInfo, createdAt: Time)

  // media_tags: primary key (media_id, tag_id); the map gives the row's tenant_id.
  datatype Link = Link(media: Uuid, tag: Uuid)

  datatype Tables = Tables(tags: map<Uuid, TagRow>, media: map<Uuid, MediaRow>, links: map<Link, Uuid>)

  datatype Tag = Tag(id: Uuid, name: string, createdAt: Time)
  datatype Media = Media(id: Uuid, info: MediaInfo, createdAt: Time, tags: seq<Tag>)

  datatype Filter = Filter(tagIds: seq<Uuid>, tagNames: seq<string>)

  datatype Op =
    | CreateOrGet(name: string, freshId: Uuid, now: Time)
    | ListTags(limit: nat, tagCursor: Option<TagKey>)
    | RenameTag(tagId: Uuid, newName: string)
    | DeleteTag(tagId: Uuid)
    | CreateMedia(info: MediaInfo, tagIds: seq<Uuid>, freshId: Uuid, now: Time)
    | GetMedia(mediaId: Uuid)
    | ListMedia(limit: nat, mediaCursor: Option<MediaKey>, filter: Filter)
    | DeleteMedia(mediaId: Uuid)
    | AttachTags(mediaId: Uuid, tagIds: seq<Uuid>)
    | DetachTag(mediaId: Uuid, tagId: Uuid)

  datatype Reply =
    | TagReply(tag: Tag, created: bool)
    | TagPage(tags: seq<Tag>, nextTag: Option<TagKey>)
    | MediaReply(media: Media)
    | MediaPage(items: seq<Media>, nextMedia: Option<MediaKey>)
    | PathReply(path: string)
    | Done
    | Failed(error: Error)

  // ---- Listing orders ----

  // How the database compares names: any strict total order.
  type Collation = (string, string) -> bool

  // ORDER BY name ASC, id ASC
  datatype TagKey = TagKey(name: string, id: Uuid)

  function TagOrder(coll: Collation): (TagKey, TagKey) -> bool {
    (a: TagKey, b: TagKey) => coll(a.name, b.name) || (a.name == b.name && a.id < b.id)
  }

  lemma TagOrderIsTotal(coll: Collation)
    requires StrictTotalOrder(coll)
    ensures StrictTotalOrder(TagOrder(coll))
  {
    var lt := TagOrder(coll);
    forall x: TagKey
      ensures !lt(x, x)
    {
      assert !coll(x.name, x.name);
    }
    forall x, y, z | lt(x, y) && lt(y, z)
      ensures lt(x, z)
    {
      assert coll(x.name, y.name) && coll(y.name, z.name) ==> coll(x.name, z.name);
    }
    forall x, y | x != y
      ensures lt(x, y) || lt(y, x)
    {
      assert x.name == y.name || coll(x.name, y.name) || coll(y.name, x.name);
    }
  }

  // ORDER BY created_at DESC, id DESC
  datatype MediaKey = MediaKey(createdAt: Time, id: Uuid)

  function MediaOrder(): (MediaKey, MediaKey) -> bool {
    (a: MediaKey, b: MediaKey) => a.createdAt > b.createdAt || (a.createdAt == b.createdAt && a.id > b.id)
  }

  lemma MediaOrderIsTotal()
    ensures StrictTotalOrder(MediaOrder())
  {
  }

  // In the rows' own columns: a page goes from newer to older, all of it older than the cursor, and
  // whatever it leaves out of the rest is older still; at the same moment the larger id comes first.
  lemma NewestFirst(keys: set<MediaKey>, cursor: Option<MediaKey>, limit: nat)
    requires limit > 0
    ensures StrictTotalOrder(MediaOrder())
    ensures var (page, next) := PageOf(keys, cursor, limit, MediaOrder());
            && (forall i, j :: 0 <= i < j < |page| ==>
                  page[i].createdAt > page[j].createdAt
                  || (page[i].createdAt == page[j].createdAt && page[i].id > page[j].id))
            && (cursor.Some? ==> forall i :: 0 <= i < |page| ==>
                  page[i].createdAt < cursor.value.createdAt
                  || (page[i].createdAt == cursor.value.createdAt && page[i].id < cursor.value.id))
  {
    MediaOrderIsTotal();
    PageFacts(keys, cursor, limit, MediaOrder());
  }

  lemma OlderStaysOut(keys: set<MediaKey>, cursor: Option<MediaKey>, limit: nat, k: MediaKey, i: nat)
    requires limit > 0 && StrictTotalOrder(MediaOrder())
    requires k in keys && k !in PageOf(keys, cursor, limit, MediaOrder()).0
    requires i < |PageOf(keys, cursor, limit, MediaOrder()).0|
    requires cursor.Some? ==> k.createdAt < cursor.value.createdAt
                              || (k.createdAt == cursor.value.createdAt && k.id < cursor.value.id)
    ensures var page := PageOf(keys, cursor, limit, MediaOrder()).0;
            && |page| == limit
            && (page[i].createdAt > k.createdAt || (page[i].createdAt == k.createdAt && page[i].id > k.id))
  {
    PageFacts(keys, cursor, limit, MediaOrder());
    var (page, next) := PageOf(keys, cursor, limit, MediaOrder());
    assert next.value == page[limit - 1] && MediaOrder()(page[limit - 1], k);
    assert i == limit - 1 || MediaOrder()(page[i], page[limit - 1]);
  }

  // The tag listing, likewise, from the first name to the last.
  lemma NamesAscend(coll: Collation, keys: set<TagKey>, cursor: Option<TagKey>, limit: nat)
    requires limit > 0 && StrictTotalOrder(coll)
    ensures StrictTotalOrder(TagOrder(coll))
    ensures var (page, next) := PageOf(keys, cursor, limit, TagOrder(coll));
            && (forall i, j :: 0 <= i < j < |page| ==>
                  coll(page[i].name, page[j].name) || (page[i].name == page[j].name && page[i].id < page[j].id))
            && (cursor.Some? ==> forall i :: 0 <= i < |page| ==>
                  coll(cursor.value.name, page[i].name)
                  || (cursor.value.name == page[i].name && cursor.value.id < page[i].id))
  {
    TagOrderIsTotal(coll);
    PageFacts(keys, cursor, limit, TagOrder(coll));
  }

  lemma LaterStaysOut(coll: Collation, keys: set<TagKey>, cursor: Option<TagKey>, limit: nat, k: TagKey, i: nat)
    requires limit > 0 && StrictTotalOrder(coll) && StrictTotalOrder(TagOrder(coll))
    requires k in keys && k !in PageOf(keys, cursor, limit, TagOrder(coll)).0
    requires i < |PageOf(keys, cursor, limit, TagOrder(coll)).0|
    requires cursor.Some? ==> coll(cursor.value.name, k.name)
                              || (cursor.value.name == k.name && cursor.value.id < k.id)
    ensures var page := PageOf(keys, cursor, limit, TagOrder(coll)).0;
            && |page| == limit
            && (coll(page[i].name, k.name) || (page[i].name == k.name && page[i].id < k.id))
  {
    PageFacts(keys, cursor, limit, TagOrder(coll));
    var (page, next) := PageOf(keys, cursor, limit, TagOrder(coll));
    assert next.value == page[limit - 1] && TagOrder(coll)(page[limit - 1], k);
    assert i == limit - 1 || TagOrder(coll)(page[i], page[limit - 1]);
  }

  // ---- Sessions ----

  // withTenantTx: the tenant of the request, and whether the policies of 006_rls.up.sql filter
  // the rows a statement sees. Unique indexes and cascades always act on the whole table.
  datatype Session = Session(tenant: Uuid, rls: bool)

  predicate Sees(ses: Session, rowTenant: Uuid) {
    ses.rls ==> rowTenant == ses.tenant
  }

  // ... WHERE id = $1 AND tenant_id = $2
  predicate OwnsTag(db: Tables, ses: Session, id: Uuid) {
    id in db.tags && Sees(ses, db.tags[id].tenant) && db.tags[id].tenant == ses.tenant
  }

  predicate OwnsMedia(db: Tables, ses: Session, id: Uuid) {
    id in db.media && Sees(ses, db.media[id].tenant) && db.media[id].tenant == ses.tenant
  }

  // ---- The invariant the constraints and the code keep together ----

  // Foreign keys, and the tenant agreement that no foreign key enforces.
  ghost predicate LinksOk(db: Tables) {
    forall l :: l in db.links ==>
      && l.media in db.media && l.tag in db.tags
      && db.media[l.media].tenant == db.links[l] && db.tags[l.tag].tenant == db.links[l]
  }

  // UNIQUE (tenant_id, name)
  ghost predicate NamesUnique(db: Tables) {
    forall a, b :: a in db.tags && b in db.tags && a != b && db.tags[a].tenant == db.tags[b].tenant ==>
      db.tags[a].name != db.tags[b].name
  }

  ghost predicate Inv(db: Tables) {
    LinksOk(db) && NamesUnique(db)
  }

  // gen_random_uuid() returns an id not in use, and the services pass limits of at least 1.
  ghost predicate Admissible(db: Tables, op: Op) {
    match op
    case CreateOrGet(_, id, _) => id !in db.tags
    case CreateMedia(_, _, id, _) => id !in db.media
    case ListTags(limit, _) => limit > 0
    case ListMedia(limit, _, _) => limit > 0
    case _ => true
  }

  // ---- Tag queries ----

  function TagAt(db: Tables, id: Uuid): Tag
    requires id in db.tags
  {
    Tag(id, db.tags[id].name, db.tags[id].createdAt)
  }

  // The tags joined to a media item by queryMediaTags, by (name, id).
  ghost function JoinedTagKeys(db: Tables, ses: Session, mediaId: Uuid): set<TagKey> {
    set id | id in db.tags && Sees(ses, db.tags[id].tenant)
             && Link(mediaId, id) in db.links && db.links[Link(mediaId, id)] == ses.tenant
      :: TagKey(db.tags[id].name, id)
  }

  // A key list read back as rows.
  ghost function LoadTags(db: Tables, keys: seq<TagKey>): seq<Tag>
    requires forall k :: k in keys ==> k.id in db.tags
  {
    seq(|keys|, i requires 0 <= i < |keys| => TagAt(db, keys[i].id))
  }

  // queryMediaTags: ORDER BY t.name ASC. Under the invariant the names are distinct, so the id
  // never decides.
  ghost function MediaTags(db: Tables, ses: Session, coll: Collation, mediaId: Uuid): seq<Tag>
    requires StrictTotalOrder(coll)
  {
    TagOrderIsTotal(coll);
    var keys := Sort(JoinedTagKeys(db, ses, mediaId), TagOrder(coll));
    assert forall k :: k in keys ==> k in Elements(keys);
    LoadTags(db, keys)
  }

  ghost function MediaAt(db: Tables, ses: Session, coll: Collation, id: Uuid): Media
    requires StrictTotalOrder(coll) && id in db.media
  {
    Media(id, db.media[id].info, db.media[id].createdAt, MediaTags(db, ses, coll, id))
  }

  // ---- Tag transactions ----

  // The unique index consulted by ON CONFLICT (tenant_id, name).
  predicate NameTaken(db: Tables, tenant: Uuid, name: string, except: set<Uuid>) {
    exists id :: id in db.tags && id !in except && db.tags[id].tenant == tenant && db.tags[id].name == name
  }

  // SELECT ... WHERE tenant_id = $1 AND name = $2
  function Named(db: Tables, ses: Session, name: string): set<Uuid> {
    set id | id in db.tags && OwnsTag(db, ses, id) && db.tags[id].name == name
  }

  lemma TakenIsNamed(db: Tables, ses: Session, name: string)
    ensures NameTaken(db, ses.tenant, name, {}) <==> Named(db, ses, name) != {}
  {
    if id :| id in db.tags && db.tags[id].tenant == ses.tenant && db.tags[id].name == name {
      assert id in Named(db, ses, name);
    }
  }

  ghost function DoCreateOrGet(db: Tables, ses: Session, name: string, freshId: Uuid, now: Time): (Tables, Reply) {
    if !NameTaken(db, ses.tenant, name, {}) then
      (db.(tags := db.tags[freshId := TagRow(ses.tenant, name, now)]), TagReply(Tag(freshId, name, now), true))
    else
      TakenIsNamed(db, ses, name);
      var id :| id in Named(db, ses, name);
      (db, TagReply(TagAt(db, id), false))
  }

  function TagKeys(db: Tables, ses: Session): set<TagKey> {
    set id | id in db.tags && OwnsTag(db, ses, id) :: TagKey(db.tags[id].name, id)
  }

  ghost function DoListTags(db: Tables, ses: Session, coll: Collation, limit: nat, cursor: Option<TagKey>): Reply
    requires StrictTotalOrder(coll) && limit > 0
  {
    TagOrderIsTotal(coll);
    var (page, next) := PageOf(TagKeys(db, ses), cursor, limit, TagOrder(coll));
    PageFacts(TagKeys(db, ses), cursor, limit, TagOrder(coll));
    TagPage(LoadTags(db, page), next)
  }

  ghost function DoRenameTag(db: Tables, ses: Session, id: Uuid, name: string): (Tables, Reply) {
    if !OwnsTag(db, ses, id) then (db, Failed(ErrNotFound))
    else if NameTaken(db, ses.tenant, name, {id}) then (db, Failed(ErrConflict))
    else
      (db.(tags := db.tags[id := db.tags[id].(name := name)]),
       TagReply(Tag(id, name, db.tags[id].createdAt), false))
  }

  // ON DELETE CASCADE on media_tags.tag_id
  ghost function DoDeleteTag(db: Tables, ses: Session, id: Uuid): (Tables, Reply) {
    if !OwnsTag(db, ses, id) then (db, Failed(ErrNotFound))
    else
      (db.(tags := db.tags - {id}, links := map l | l in db.links && l.tag != id :: db.links[l]), Done)
  }

  // ---- Media transactions ----

  // The INSERT per tag id of MediaRepo.Create. None: the primary key was violated.
  ghost function AddLinks(db: Tables, ses: Session, mediaId: Uuid, tagIds: seq<Uuid>): Option<Tables>
    decreases |tagIds|
  {
    if |tagIds| == 0 then Some(db)
    else if !OwnsTag(db, ses, tagIds[0]) then AddLinks(db, ses, mediaId, tagIds[1..])
    else if Link(mediaId, tagIds[0]) in db.links then None
    else AddLinks(db.(links := db.links[Link(mediaId, tagIds[0]) := ses.tenant]), ses, mediaId, tagIds[1..])
  }

  ghost function DoCreateMedia(db: Tables, ses: Session, coll: Collation, info: MediaInfo, tagIds: seq<Uuid>,
                               freshId: Uuid, now: Time): (Tables, Reply)
    requires StrictTotalOrder(coll)
  {
    var db1 := db.(media := db.media[freshId := MediaRow(ses.tenant, info, now)]);
    match AddLinks(db1, ses, freshId, tagIds)
    case None => (db, Failed(ErrInternal))
    case Some(db2) => (db2, MediaReply(Media(freshId, info, now, MediaTags(db2, ses, coll, freshId))))
  }

  ghost function DoGetMedia(db: Tables, ses: Session, coll: Collation, id: Uuid): Reply
    requires StrictTotalOrder(coll)
  {
    if OwnsMedia(db, ses, id) then MediaReply(MediaAt(db, ses, coll, id)) else Failed(ErrNotFound)
  }

  // The tag ids the INNER JOINs of listInTx leave in the group of media item m.
  function GroupByIds(db: Tables, ses: Session, m: Uuid, tagIds: seq<Uuid>): set<Uuid> {
    set l | l in db.links && Sees(ses, db.links[l]) && l.media == m && l.tag in tagIds :: l.tag
  }

  function GroupByNames(db: Tables, ses: Session, m: Uuid, names: seq<string>): set<Uuid> {
    set l | l in db.links && Sees(ses, db.links[l]) && l.media == m
            && l.tag in db.tags && Sees(ses, db.tags[l.tag].tenant) && db.tags[l.tag].name in names
      :: l.tag
  }

  // WHERE m.tenant_id = ... GROUP BY m.id HAVING COUNT(DISTINCT ...) = N
  predicate Selected(db: Tables, ses: Session, filter: Filter, m: Uuid) {
    && OwnsMedia(db, ses, m)
    && if |filter.tagIds| > 0 then |GroupByIds(db, ses, m, filter.tagIds)| == |filter.tagIds|
       else if |filter.tagNames| > 0 then |GroupByNames(db, ses, m, filter.tagNames)| == |filter.tagNames|
       else true
  }

  function MediaKeys(db: Tables, ses: Session, filter: Filter): set<MediaKey> {
    set m | m in db.media && Selected(db, ses, filter, m) :: MediaKey(db.media[m].createdAt, m)
  }

  ghost function LoadMedia(db: Tables, ses: Session, coll: Collation, keys: seq<MediaKey>): seq<Media>
    requires StrictTotalOrder(coll)
    requires forall k :: k in keys ==> k.id in db.media
  {
    seq(|keys|, i requires 0 <= i < |keys| => MediaAt(db, ses, coll, keys[i].id))
  }

  ghost function DoListMedia(db: Tables, ses: Session, coll: Collation, limit: nat, cursor: Option<MediaKey>,
                             filter: Filter): Reply
    requires StrictTotalOrder(coll) && limit > 0
  {
    MediaOrderIsTotal();
    var (page, next) := PageOf(MediaKeys(db, ses, filter), cursor, limit, MediaOrder());
    PageFacts(MediaKeys(db, ses, filter), cursor, limit, MediaOrder());
    MediaPage(LoadMedia(db, ses, coll, page), next)
  }

  // DELETE ... RETURNING file_path, cascading to media_tags.media_id
  ghost function DoDeleteMedia(db: Tables, ses: Session, id: Uuid): (Tables, Reply) {
    if !OwnsMedia(db, ses, id) then (db, Failed(ErrNotFound))
    else
      (db.(media := db.media - {id}, links := map l | l in db.links && l.media != id :: db.links[l]),
       PathReply(db.media[id].info.filePath))
  }

  // The rows of the SELECT in AttachTags.
  function KnownIds(db: Tables, ses: Session, tagIds: seq<Uuid>): set<Uuid> {
    set id | id in tagIds && OwnsTag(db, ses, id)
  }

  // Those ON CONFLICT (media_id, tag_id) DO NOTHING leaves to insert.
  function NewLinks(db: Tables, mediaId: Uuid, ids: set<Uuid>): set<Link> {
    set id | id in ids && Link(mediaId, id) !in db.links :: Link(mediaId, id)
  }

  function LinkRows(links: set<Link>, tenant: Uuid): map<Link, Uuid> {
    map l | l in links :: tenant
  }

  ghost function DoAttachTags(db: Tables, ses: Session, mediaId: Uuid, tagIds: seq<Uuid>): (Tables, Reply) {
    if !OwnsMedia(db, ses, mediaId) then (db, Failed(ErrNotFound))
    else if |tagIds| == 0 then (db, Done)
    else
      var known := KnownIds(db, ses, tagIds);
      var inserted := NewLinks(db, mediaId, known);
      if |inserted| < |tagIds| && |known| < |tagIds| then (db, Failed(ErrValidation))
      else (db.(links := db.links + LinkRows(inserted, ses.tenant)), Done)
  }

  ghost function DoDetachTag(db: Tables, ses: Session, mediaId: Uuid, tagId: Uuid): (Tables, Reply) {
    if !OwnsMedia(db, ses, mediaId) then (db, Failed(ErrNotFound))
    else if Link(mediaId, tagId) in db.links && db.links[Link(mediaId, tagId)] == ses.tenant then
      (db.(links := db.links - {Link(mediaId, tagId)}), Done)
    else (db, Done)
  }

  ghost function Exec(db: Tables, ses: Session, coll: Collation, op: Op): (Tables, Reply)
    requires StrictTotalOrder(coll) && Admissible(db, op)
  {
    match op
    case CreateOrGet(name, freshId, now) => DoCreateOrGet(db, ses, name, freshId, now)
    case ListTags(limit, cursor) => (db, DoListTags(db, ses, coll, limit, cursor))
    case RenameTag(id, name) => DoRenameTag(db, ses, id, name)
    case DeleteTag(id) => DoDeleteTag(db, ses, id)
    case CreateMedia(info, tagIds, freshId, now) => DoCreateMedia(db, ses, coll, info, tagIds, freshId, now)
    case GetMedia(id) => (db, DoGetMedia(db, ses, coll, id))
    case ListMedia(limit, cursor, filter) => (db, DoListMedia(db, ses, coll, limit, cursor, filter))
    case DeleteMedia(id) => DoDeleteMedia(db, ses, id)
    case AttachTags(mediaId, tagIds) => DoAttachTags(db, ses, mediaId, tagIds)
    case DetachTag(mediaId, tagId) => DoDetachTag(db, ses, mediaId, tagId)
  }
}
