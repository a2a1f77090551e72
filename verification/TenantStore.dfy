// The reference: what each operation means to a tenant that has a database of its own. No
// tenant column, no counting, no batch queries; filters and attachments are plain containment.
module TenantStore {
  import opened Common
  import opened Ordering
  import opened Keyset
  import opened Catalog

  datatype OwnTag = OwnTag(name: string, createdAt: Time)
  datatype OwnMedia = OwnMedia(info: MediaInfo, createdAt: Time)
  datatype Store = Store(tags: map<Uuid, OwnTag>, media: map<Uuid, OwnMedia>, links: set<Link>)

  predicate NoDuplicates<T(==)>(s: seq<T>) {
    forall i, j :: 0 <= i < j < |s| ==> s[i] != s[j]
  }

  ghost function TagsNamed(st: Store, name: string): set<Uuid> {
    set id | id in st.tags && st.tags[id].name == name
  }

  ghost function OwnTagKeys(st: Store): set<TagKey> {
    set id | id in st.tags :: TagKey(st.tags[id].name, id)
  }

  ghost function AttachedKeys(st: Store, m: Uuid): set<TagKey> {
    set id | id in st.tags && Link(m, id) in st.links :: TagKey(st.tags[id].name, id)
  }

  ghost function OwnTags(st: Store, keys: seq<TagKey>): seq<Tag>
    requires forall k :: k in keys ==> k.id in st.tags
  {
    seq(|keys|, i requires 0 <= i < |keys| => Tag(keys[i].id, st.tags[keys[i].id].name, st.tags[keys[i].id].createdAt))
  }

  ghost function Attached(st: Store, coll: Collation, m: Uuid): seq<Tag>
    requires StrictTotalOrder(coll)
  {
    TagOrderIsTotal(coll);
    var keys := Sort(AttachedKeys(st, m), TagOrder(coll));
    assert forall k :: k in keys ==> k in Elements(keys);
    OwnTags(st, keys)
  }

  ghost function OwnMediaAt(st: Store, coll: Collation, m: Uuid): Media
    requires StrictTotalOrder(coll) && m in st.media
  {
    Media(m, st.media[m].info, st.media[m].createdAt, Attached(st, coll, m))
  }

  // AND semantics: the item carries every requested tag. A list with a repeated entry matches
  // nothing.
  ghost predicate CarriesIds(st: Store, m: Uuid, tagIds: seq<Uuid>) {
    NoDuplicates(tagIds) && forall id :: id in tagIds ==> Link(m, id) in st.links
  }

  ghost predicate CarriesNames(st: Store, m: Uuid, names: seq<string>) {
    NoDuplicates(names) && forall n :: n in names ==> exists id :: id in TagsNamed(st, n) && Link(m, id) in st.links
  }

  ghost predicate Matches(st: Store, filter: Filter, m: Uuid) {
    && m in st.media
    && (if |filter.tagIds| > 0 then CarriesIds(st, m, filter.tagIds)
        else |filter.tagNames| > 0 ==> CarriesNames(st, m, filter.tagNames))
  }

  ghost function MatchingKeys(st: Store, filter: Filter): set<MediaKey> {
    set m | m in st.media && Matches(st, filter, m) :: MediaKey(st.media[m].createdAt, m)
  }

  ghost function OwnItems(st: Store, coll: Collation, keys: seq<MediaKey>): seq<Media>
    requires StrictTotalOrder(coll) && forall k :: k in keys ==> k.id in st.media
  {
    seq(|keys|, i requires 0 <= i < |keys| => OwnMediaAt(st, coll, keys[i].id))
  }

  // A known tag requested twice makes MediaRepo.Create violate the primary key.
  ghost predicate RepeatsKnown(known: set<Uuid>, tagIds: seq<Uuid>) {
    exists i, j :: 0 <= i < j < |tagIds| && tagIds[i] == tagIds[j] && tagIds[i] in known
  }

  ghost function LinksFor(st: Store, m: Uuid, tagIds: seq<Uuid>): set<Link> {
    set id | id in tagIds && id in st.tags :: Link(m, id)
  }

  ghost function Run(st: Store, coll: Collation, op: Op): (Store, Reply)
    requires StrictTotalOrder(coll)
    requires op.ListTags? || op.ListMedia? ==> op.limit > 0
  {
    match op
    case CreateOrGet(name, freshId, now) =>
      if TagsNamed(st, name) == {} then
        (st.(tags := st.tags[freshId := OwnTag(name, now)]), TagReply(Tag(freshId, name, now), true))
      else
        var id :| id in TagsNamed(st, name);
        (st, TagReply(Tag(id, name, st.tags[id].createdAt), false))
    case ListTags(limit, cursor) =>
      TagOrderIsTotal(coll);
      var (page, next) := PageOf(OwnTagKeys(st), cursor, limit, TagOrder(coll));
      PageFacts(OwnTagKeys(st), cursor, limit, TagOrder(coll));
      (st, TagPage(OwnTags(st, page), next))
    case RenameTag(id, name) =>
      if id !in st.tags then (st, Failed(ErrNotFound))
      else if TagsNamed(st, name) - {id} != {} then (st, Failed(ErrConflict))
      else (st.(tags := st.tags[id := OwnTag(name, st.tags[id].createdAt)]),
            TagReply(Tag(id, name, st.tags[id].createdAt), false))
    case DeleteTag(id) =>
      if id !in st.tags then (st, Failed(ErrNotFound))
      else (st.(tags := st.tags - {id}, links := set l | l in st.links && l.tag != id), Done)
    case CreateMedia(info, tagIds, freshId, now) =>
      if RepeatsKnown(st.tags.Keys, tagIds) then (st, Failed(ErrInternal))
      else
        var st' := st.(media := st.media[freshId := OwnMedia(info, now)],
                       links := st.links + LinksFor(st, freshId, tagIds));
        (st', MediaReply(OwnMediaAt(st', coll, freshId)))
    case GetMedia(id) =>
      (st, if id in st.media then MediaReply(OwnMediaAt(st, coll, id)) else Failed(ErrNotFound))
    case ListMedia(limit, cursor, filter) =>
      MediaOrderIsTotal();
      var (page, next) := PageOf(MatchingKeys(st, filter), cursor, limit, MediaOrder());
      PageFacts(MatchingKeys(st, filter), cursor, limit, MediaOrder());
      (st, MediaPage(OwnItems(st, coll, page), next))
    case DeleteMedia(id) =>
      if id !in st.media then (st, Failed(ErrNotFound))
      else (st.(media := st.media - {id}, links := set l | l in st.links && l.media != id),
            PathReply(st.media[id].info.filePath))
    case AttachTags(m, tagIds) =>
      if m !in st.media then (st, Failed(ErrNotFound))
      else if NoDuplicates(tagIds) && forall id :: id in tagIds ==> id in st.tags then
        (st.(links := st.links + LinksFor(st, m, tagIds)), Done)
      else (st, Failed(ErrValidation))
    case DetachTag(m, id) =>
      if m !in st.media then (st, Failed(ErrNotFound)) else (st.(links := st.links - {Link(m, id)}), Done)
  }
}
