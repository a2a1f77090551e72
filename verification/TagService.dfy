// internal/service/tag_service.go: the bounds and cursors around TagRepo.List.
module TagService {
  import opened Common
  import opened Ordering
  import opened Keyset
  import opened Cursor
  import opened Sanitize
  import opened Catalog
  import opened TenantStore
  import opened TenantIsolation
  import opened CatalogRepo
  import MediaService

  // The name as sanitized becomes one tag of the tenant, created only if it had none of that name.
  method Create(repo: TagRepo, ses: Session, nfc: Normalizer, raw: Raw, freshId: Uuid, now: Time)
    returns (r: Result<(Tag, bool), Error>)
    requires Inv(repo.db.Contents()) && freshId !in repo.db.tags
    modifies repo.db
    ensures Inv(repo.db.Contents())
    ensures r.Ok? <==> Sanitized(nfc, raw).Ok?
    ensures r.Err? ==> r.error == ErrValidation && repo.db.Contents() == old(repo.db.Contents())
    ensures r.Ok? ==>
              && Ok(r.value.0.name) == Sanitized(nfc, raw)
              && (r.value.1 <==> Named(old(repo.db.Contents()), ses, r.value.0.name) == {})
              && Named(repo.db.Contents(), ses, r.value.0.name) == {r.value.0.id}
              && repo.db.Contents()
                 == old(repo.db.Contents()).(tags := if r.value.1
                       then old(repo.db.tags)[freshId := TagRow(ses.tenant, r.value.0.name, now)]
                       else old(repo.db.tags))
  {
    var name := SanitizeName(nfc, raw);
    if name.Err? {
      return Err(name.error);
    }
    TakenIsNamed(repo.db.Contents(), ses, name.value);
    var found := repo.CreateOrGet(ses, name.value, freshId, now);
    OneOfThatName(repo.db.Contents(), ses, name.value, found.0.id);
    return Ok(found);
  }

  lemma OneOfThatName(db: Tables, ses: Session, name: string, id: Uuid)
    requires Inv(db) && id in Named(db, ses, name)
    ensures Named(db, ses, name) == {id}
  {
  }

  // The tag gets the name as sanitized, unless it is unknown or another tag of the tenant has that name.
  method Rename(repo: TagRepo, ses: Session, nfc: Normalizer, id: Uuid, raw: Raw) returns (r: Result<Tag, Error>)
    requires Inv(repo.db.Contents())
    modifies repo.db
    ensures Inv(repo.db.Contents())
    ensures Sanitized(nfc, raw).Err? ==> r == Err(ErrValidation)
    ensures Sanitized(nfc, raw).Ok? ==>
              var name := Sanitized(nfc, raw).value;
              && (!old(OwnsTag(repo.db.Contents(), ses, id)) ==> r == Err(ErrNotFound))
              && (old(OwnsTag(repo.db.Contents(), ses, id)) ==>
                    if Named(old(repo.db.Contents()), ses, name) <= {id} then
                      && r == Ok(Tag(id, name, old(repo.db.tags[id].createdAt)))
                      && repo.db.Contents() == old(repo.db.Contents()).(
                           tags := old(repo.db.tags)[id := old(repo.db.tags[id]).(name := name)])
                    else r == Err(ErrConflict))
    ensures r.Err? ==> repo.db.Contents() == old(repo.db.Contents())
  {
    var name := SanitizeName(nfc, raw);
    if name.Err? {
      return Err(name.error);
    }
    var renamed := repo.Rename(ses, id, name.value);
    if renamed.Err? {
      return Err(renamed.error);
    }
    return Ok(renamed.value.0);
  }

  // GET /tags against the tenant's own store.
  ghost function ListReply(st: Store, coll: Collation, codec: Codec<TagKey>, limit: int, cursor: string)
    : Result<(seq<Tag>, string), Error>
    requires StrictTotalOrder(coll)
  {
    if DecodeCursor(codec, cursor).Err? then Err(ErrValidation)
    else
      TagOrderIsTotal(coll);
      var n := MediaService.ClampLimit(limit);
      var (page, next) := PageOf(OwnTagKeys(st), DecodeCursor(codec, cursor).value, n, TagOrder(coll));
      PageFacts(OwnTagKeys(st), DecodeCursor(codec, cursor).value, n, TagOrder(coll));
      Ok((OwnTags(st, page), EncodeCursor(codec, next)))
  }

  lemma ListReplyFromTables(db: Tables, ses: Session, coll: Collation, codec: Codec<TagKey>, limit: int,
                            cursor: string, tags: seq<Tag>, next: Option<TagKey>)
    requires Inv(db) && StrictTotalOrder(coll) && DecodeCursor(codec, cursor).Ok?
    requires TagPage(tags, next)
             == DoListTags(db, ses, coll, MediaService.ClampLimit(limit), DecodeCursor(codec, cursor).value)
    ensures ListReply(Project(db, ses.tenant), coll, codec, limit, cursor) == Ok((tags, EncodeCursor(codec, next)))
  {
    ListTagsSimulates(db, ses, coll, MediaService.ClampLimit(limit), DecodeCursor(codec, cursor).value);
  }

  method List(repo: TagRepo, ses: Session, coll: Collation, codec: Codec<TagKey>, limit: int, cursor: string)
    returns (r: Result<(seq<Tag>, string), Error>)
    requires Inv(repo.db.Contents()) && StrictTotalOrder(coll)
    ensures r == ListReply(Project(repo.db.Contents(), ses.tenant), coll, codec, limit, cursor)
    ensures r.Err? <==> cursor != "" && codec.decode(cursor).None?
    ensures r.Err? ==> r.error == ErrValidation
    // From the first name to the last, from the cursor on.
    ensures r.Ok? ==> forall i, j :: 0 <= i < j < |r.value.0| ==>
              coll(r.value.0[i].name, r.value.0[j].name)
              || (r.value.0[i].name == r.value.0[j].name && r.value.0[i].id < r.value.0[j].id)
    ensures r.Ok? && cursor != "" ==> forall i :: 0 <= i < |r.value.0| ==>
              coll(codec.decode(cursor).value.name, r.value.0[i].name)
              || (codec.decode(cursor).value.name == r.value.0[i].name
                  && codec.decode(cursor).value.id < r.value.0[i].id)
  {
    var bounded := limit;
    if bounded <= 0 {
      bounded := 50;
    }
    if bounded > 100 {
      bounded := 100;
    }
    var c := DecodeCursor(codec, cursor);
    if c.Err? {
      return Err(c.error);
    }
    var tags, next := repo.List(ses, coll, bounded, c.value);
    ListReplyFromTables(repo.db.Contents(), ses, coll, codec, limit, cursor, tags, next);
    return Ok((tags, EncodeCursor(codec, next)));
  }
}
