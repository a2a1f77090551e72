// internal/service/media_service.go: Create, AttachTags and Delete, call by call, over the
// repositories and the file storage. Each repository call is its own transaction.
module MediaCommands {
  import opened Common
  import opened Ordering
  import opened Sanitize
  import opened Catalog
  import opened TenantStore
  import opened TenantIsolation
  import opened CatalogRepo
  import opened MediaService
  import MediaSaga

  // port.FileStorage: a failed Save leaves nothing behind; Delete is idempotent.
  class FileStorage {
    var files: set<string>

    method Save(path: string, ok: bool) returns (r: Result<string, Error>)
      modifies this
      ensures r == if ok then Ok(path) else Err(ErrInternal)
      ensures files == if ok then old(files) + {path} else old(files)
    {
      if !ok {
        return Err(ErrInternal);
      }
      files := files + {path};
      return Ok(path);
    }

    method Delete(path: string, ok: bool) returns (error: Option<Error>)
      modifies this
      ensures error == if ok then None else Some(ErrInternal)
      ensures files == if ok then old(files) - {path} else old(files)
    {
      if !ok {
        return Some(ErrInternal);
      }
      files := files - {path};
      return None;
    }
  }

  // ---- Resolving tag names ----

  // Some requested spelling sanitizes to this name.
  ghost predicate Spelled(nfc: Normalizer, raws: seq<Raw>, name: string) {
    exists i :: 0 <= i < |raws| && Sanitized(nfc, raws[i]) == Ok(name)
  }

  // Tags were only added, and only tags of requested names the tenant did not have yet.
  ghost predicate TagsAdded(st: Store, st': Store, nfc: Normalizer, raws: seq<Raw>) {
    && (forall id :: id in st.tags ==> id in st'.tags && st'.tags[id] == st.tags[id])
    && (forall id :: id in st'.tags && id !in st.tags ==>
          Spelled(nfc, raws, st'.tags[id].name) && TagsNamed(st, st'.tags[id].name) == {})
  }

  // The ids are the tenant's tags of those names, one for one.
  ghost predicate NamesResolved(st: Store, nfc: Normalizer, raws: seq<Raw>, ids: seq<Uuid>) {
    |ids| == |raws| && forall i :: 0 <= i < |ids| ==>
        ids[i] in st.tags && Ok(st.tags[ids[i]].name) == Sanitized(nfc, raws[i])
  }

  ghost predicate FreshTagIds(db: Tables, freshIds: seq<Uuid>) {
    NoDuplicates(freshIds) && forall i :: 0 <= i < |freshIds| ==> freshIds[i] !in db.tags
  }

  lemma ResolveOne(db: Tables, ses: Session, coll: Collation, name: string, freshId: Uuid, now: Time)
    requires Inv(db) && StrictTotalOrder(coll) && freshId !in db.tags
    ensures var (db', reply) := DoCreateOrGet(db, ses, name, freshId, now);
            var st, st' := Project(db, ses.tenant), Project(db', ses.tenant);
            && OthersUntouched(db, db', ses.tenant)
            && db'.tags.Keys <= db.tags.Keys + {freshId} && db'.media == db.media
            && st'.media == st.media && st'.links == st.links
            && (forall id :: id in st.tags ==> id in st'.tags && st'.tags[id] == st.tags[id])
            && (forall id :: id in st'.tags && id !in st.tags ==>
                  st'.tags[id].name == name && TagsNamed(st, name) == {})
            && reply.TagReply? && reply.tag.id in st'.tags && st'.tags[reply.tag.id].name == name
  {
    CreateOrGetSimulates(db, ses, coll, name, freshId, now);
    TakenIsNamed(db, ses, name);
  }

  lemma TagsAddedSnoc(st: Store, st1: Store, st2: Store, nfc: Normalizer, raws: seq<Raw>, i: nat, name: string)
    requires i < |raws| && Sanitized(nfc, raws[i]) == Ok(name)
    requires TagsAdded(st, st1, nfc, raws[..i])
    requires forall id :: id in st1.tags ==> id in st2.tags && st2.tags[id] == st1.tags[id]
    requires forall id :: id in st2.tags && id !in st1.tags ==> st2.tags[id].name == name && TagsNamed(st1, name) == {}
    ensures TagsAdded(st, st2, nfc, raws[..i + 1])
  {
    forall id | id in st2.tags && id !in st.tags
      ensures Spelled(nfc, raws[..i + 1], st2.tags[id].name) && TagsNamed(st, st2.tags[id].name) == {}
    {
      if id in st1.tags {
        var j :| 0 <= j < i && Sanitized(nfc, raws[..i][j]) == Ok(st2.tags[id].name);
        assert raws[..i + 1][j] == raws[..i][j];
      } else {
        assert raws[..i + 1][i] == raws[i];
        assert TagsNamed(st, name) <= TagsNamed(st1, name);
      }
    }
  }

  // All that has happened since db0 is that tags of names in raws were added.
  ghost predicate OnlyTagsAdded(db0: Tables, db: Tables, ses: Session, nfc: Normalizer, raws: seq<Raw>) {
    var st, st' := Project(db0, ses.tenant), Project(db, ses.tenant);
    && Inv(db) && OthersUntouched(db0, db, ses.tenant)
    && TagsAdded(st, st', nfc, raws) && st'.media == st.media && st'.links == st.links
    && db.media == db0.media
  }

  ghost predicate ResolvedSoFar(db0: Tables, db: Tables, ses: Session, nfc: Normalizer, raws: seq<Raw>,
                                ids: seq<Uuid>) {
    OnlyTagsAdded(db0, db, ses, nfc, raws) && NamesResolved(Project(db, ses.tenant), nfc, raws, ids)
  }

  // Every name becomes a tag of the tenant, or the first bad name ends the call.
  ghost predicate Resolution(db0: Tables, db: Tables, ses: Session, nfc: Normalizer, raws: seq<Raw>,
                             r: Result<seq<Uuid>, Error>) {
    match r
    case Ok(ids) => Names(nfc, raws).Ok? && ResolvedSoFar(db0, db, ses, nfc, raws, ids)
    case Err(error) => error == ErrValidation && Names(nfc, raws).Err? && OnlyTagsAdded(db0, db, ses, nfc, raws)
  }

  lemma ResolveNext(db0: Tables, db: Tables, ses: Session, coll: Collation, nfc: Normalizer, raws: seq<Raw>, i: nat,
                    ids: seq<Uuid>, name: string, freshId: Uuid, now: Time)
    requires StrictTotalOrder(coll) && freshId !in db.tags
    requires i < |raws| && ResolvedSoFar(db0, db, ses, nfc, raws[..i], ids) && Sanitized(nfc, raws[i]) == Ok(name)
    ensures var (db', reply) := DoCreateOrGet(db, ses, name, freshId, now);
            && reply.TagReply? && db'.tags.Keys <= db.tags.Keys + {freshId}
            && (Inv(db') ==> ResolvedSoFar(db0, db', ses, nfc, raws[..i + 1], ids + [reply.tag.id]))
  {
    var (db', reply) := DoCreateOrGet(db, ses, name, freshId, now);
    ResolveOne(db, ses, coll, name, freshId, now);
    var st, st1, st2 := Project(db0, ses.tenant), Project(db, ses.tenant), Project(db', ses.tenant);
    TagsAddedSnoc(st, st1, st2, nfc, raws, i, name);
    NamesResolvedSnoc(st1, st2, nfc, raws, i, ids, name, reply.tag.id);
  }

  lemma NamesResolvedSnoc(st1: Store, st2: Store, nfc: Normalizer, raws: seq<Raw>, i: nat, ids: seq<Uuid>,
                          name: string, id: Uuid)
    requires i < |raws| && NamesResolved(st1, nfc, raws[..i], ids) && Sanitized(nfc, raws[i]) == Ok(name)
    requires forall id :: id in st1.tags ==> id in st2.tags && st2.tags[id] == st1.tags[id]
    requires id in st2.tags && st2.tags[id].name == name
    ensures NamesResolved(st2, nfc, raws[..i + 1], ids + [id])
  {
    assert forall j :: 0 <= j < i ==> raws[..i + 1][j] == raws[..i][j];
  }

  lemma ResolutionFails(db0: Tables, db: Tables, ses: Session, nfc: Normalizer, raws: seq<Raw>, i: nat, ids: seq<Uuid>)
    requires i < |raws| && ResolvedSoFar(db0, db, ses, nfc, raws[..i], ids) && Sanitized(nfc, raws[i]).Err?
    ensures Resolution(db0, db, ses, nfc, raws, Err(ErrValidation))
  {
    NamesFail(nfc, raws, i);
    AddedMore(Project(db0, ses.tenant), Project(db, ses.tenant), nfc, raws, i);
  }

  lemma ResolutionStarts(db: Tables, ses: Session, nfc: Normalizer)
    requires Inv(db)
    ensures ResolvedSoFar(db, db, ses, nfc, [], [])
  {
  }

  lemma ResolutionSucceeds(db0: Tables, db: Tables, ses: Session, nfc: Normalizer, raws: seq<Raw>, ids: seq<Uuid>)
    requires ResolvedSoFar(db0, db, ses, nfc, raws, ids)
    ensures Resolution(db0, db, ses, nfc, raws, Ok(ids))
  {
    forall i | 0 <= i < |raws|
      ensures Sanitized(nfc, raws[i]).Ok?
    {
      assert Ok(Project(db, ses.tenant).tags[ids[i]].name) == Sanitized(nfc, raws[i]);
    }
  }

  method ResolveTagNames(tags: TagRepo, ses: Session, coll: Collation, nfc: Normalizer, raws: seq<Raw>,
                         freshIds: seq<Uuid>, now: Time)
    returns (r: Result<seq<Uuid>, Error>)
    requires Inv(tags.db.Contents()) && StrictTotalOrder(coll)
    requires |freshIds| == |raws| && FreshTagIds(tags.db.Contents(), freshIds)
    modifies tags.db
    ensures Resolution(old(tags.db.Contents()), tags.db.Contents(), ses, nfc, raws, r)
  {
    ghost var db0 := tags.db.Contents();
    var ids := [];
    ResolutionStarts(db0, ses, nfc);
    assert raws[..0] == [];
    for i := 0 to |raws|
      invariant forall j :: i <= j < |freshIds| ==> freshIds[j] !in tags.db.tags
      invariant ResolvedSoFar(db0, tags.db.Contents(), ses, nfc, raws[..i], ids)
    {
      var name := SanitizeName(nfc, raws[i]);
      if name.Err? {
        ResolutionFails(db0, tags.db.Contents(), ses, nfc, raws, i, ids);
        return Err(ErrValidation);
      }
      ResolveNext(db0, tags.db.Contents(), ses, coll, nfc, raws, i, ids, name.value, freshIds[i], now);
      var found := tags.CreateOrGet(ses, name.value, freshIds[i], now);
      ids := ids + [found.0.id];
    }
    assert raws[..|raws|] == raws;
    ResolutionSucceeds(db0, tags.db.Contents(), ses, nfc, raws, ids);
    return Ok(ids);
  }

  lemma AddedMore(st: Store, st': Store, nfc: Normalizer, raws: seq<Raw>, i: nat)
    requires i <= |raws| && TagsAdded(st, st', nfc, raws[..i])
    ensures TagsAdded(st, st', nfc, raws)
  {
    forall id | id in st'.tags && id !in st.tags
      ensures Spelled(nfc, raws, st'.tags[id].name)
    {
      var j :| 0 <= j < i && Sanitized(nfc, raws[..i][j]) == Ok(st'.tags[id].name);
      assert raws[j] == raws[..i][j];
    }
  }

  // ---- AttachTags ----

  ghost function Asked(st: Store, nfc: Normalizer, m: Uuid, tagIds: seq<Uuid>, raws: seq<Raw>): set<Link> {
    set id | id in st.tags && (id in tagIds || Spelled(nfc, raws, st.tags[id].name)) :: Link(m, id)
  }

  // What one call does to the tenant's store and answers.
  ghost predicate AttachEffect(st: Store, st': Store, coll: Collation, nfc: Normalizer, m: Uuid,
                               tagIds: seq<Uuid>, raws: seq<Raw>, r: Result<Media, Error>)
    requires StrictTotalOrder(coll)
  {
    && TagsAdded(st, st', nfc, raws) && st'.media == st.media
    && (r.Ok? <==> |tagIds| + |raws| <= MAX_TAGS && Names(nfc, raws).Ok? && m in st.media
                   && forall id :: id in tagIds ==> id in st'.tags)
    && (r.Err? ==>
          && st'.links == st.links
          && r.error == if |tagIds| + |raws| <= MAX_TAGS && Names(nfc, raws).Ok? && m !in st.media
                        then ErrNotFound else ErrValidation)
    && (r.Ok? ==>
          && (forall i :: 0 <= i < |raws| ==> TagsNamed(st', Names(nfc, raws).value[i]) != {})
          && st'.links == st.links + Asked(st', nfc, m, tagIds, raws)
          && r.value == OwnMediaAt(st', coll, m))
  }

  lemma DedupLinks(st: Store, m: Uuid, ids: seq<Uuid>)
    ensures LinksFor(st, m, Dedup(ids)) == LinksFor(st, m, ids)
  {
    assert forall id :: id in Dedup(ids) <==> id in Elements(ids);
    assert forall l :: l in LinksFor(st, m, Dedup(ids)) <==> l in LinksFor(st, m, ids);
  }

  // The repository call on deduplicated ids: all or nothing.
  lemma AttachDeduped(st: Store, coll: Collation, m: Uuid, ids: seq<Uuid>)
    requires StrictTotalOrder(coll)
    ensures var (st', reply) := Run(st, coll, AttachTags(m, Dedup(ids)));
            && (reply == Done <==> m in st.media && forall id :: id in ids ==> id in st.tags)
            && (reply != Done ==> reply == Failed(if m in st.media then ErrValidation else ErrNotFound))
            && st' == if reply == Done then st.(links := st.links + LinksFor(st, m, ids)) else st
  {
    assert forall id :: id in Dedup(ids) <==> id in Elements(ids);
    assert forall id :: id in Elements(ids) <==> id in ids;
    DedupLinks(st, m, ids);
  }

  // Repeating it changes nothing.
  lemma AttachAgain(st: Store, coll: Collation, m: Uuid, ids: seq<Uuid>)
    requires StrictTotalOrder(coll)
    ensures var (st', reply) := Run(st, coll, AttachTags(m, Dedup(ids)));
            Run(st', coll, AttachTags(m, Dedup(ids))) == (st', reply)
  {
    AttachDeduped(st, coll, m, ids);
    var st' := Run(st, coll, AttachTags(m, Dedup(ids))).0;
    AttachDeduped(st', coll, m, ids);
    assert st'.links + LinksFor(st, m, ids) == st'.links || st' == st;
  }

  // No two tags of the tenant share a name.
  ghost predicate NamesUniqueIn(st: Store) {
    forall a, b :: a in st.tags && b in st.tags && a != b ==> st.tags[a].name != st.tags[b].name
  }

  // Unknown ids aside, the deduplicated ids are the tags asked for.
  lemma CombinedIdsAreAsked(st: Store, nfc: Normalizer, m: Uuid, tagIds: seq<Uuid>, raws: seq<Raw>, resolved: seq<Uuid>)
    requires NamesUniqueIn(st) && NamesResolved(st, nfc, raws, resolved)
    ensures LinksFor(st, m, tagIds + resolved) == Asked(st, nfc, m, tagIds, raws)
  {
    forall id | id in st.tags
      ensures id in tagIds + resolved <==> id in tagIds || Spelled(nfc, raws, st.tags[id].name)
    {
      if id in resolved {
        var i :| 0 <= i < |resolved| && resolved[i] == id;
        assert Sanitized(nfc, raws[i]) == Ok(st.tags[id].name);
      }
      if Spelled(nfc, raws, st.tags[id].name) {
        var i :| 0 <= i < |raws| && Sanitized(nfc, raws[i]) == Ok(st.tags[id].name);
        assert resolved[i] in resolved && resolved[i] == id;
      }
    }
  }

  lemma AllKnown(st: Store, nfc: Normalizer, tagIds: seq<Uuid>, raws: seq<Raw>, resolved: seq<Uuid>)
    requires NamesResolved(st, nfc, raws, resolved)
    ensures (forall id :: id in tagIds + resolved ==> id in st.tags) <==> (forall id :: id in tagIds ==> id in st.tags)
  {
    assert forall id :: id in resolved ==> id in st.tags;
    assert forall id :: id in tagIds + resolved <==> id in tagIds || id in resolved;
  }

  lemma NamesStay(st1: Store, st2: Store, nfc: Normalizer, raws: seq<Raw>, resolved: seq<Uuid>)
    requires NamesResolved(st1, nfc, raws, resolved) && Names(nfc, raws).Ok? && st2.tags == st1.tags
    ensures forall i :: 0 <= i < |raws| ==> TagsNamed(st2, Names(nfc, raws).value[i]) != {}
  {
    forall i | 0 <= i < |raws|
      ensures TagsNamed(st2, Names(nfc, raws).value[i]) != {}
    {
      assert resolved[i] in TagsNamed(st2, Names(nfc, raws).value[i]);
    }
  }

  // Once the names are resolved: what of the tenant's store the rest of the call builds on.
  ghost predicate ReadyToLink(st: Store, st1: Store, nfc: Normalizer, raws: seq<Raw>, resolved: seq<Uuid>) {
    && TagsAdded(st, st1, nfc, raws) && st1.media == st.media && st1.links == st.links
    && NamesUniqueIn(st1) && NamesResolved(st1, nfc, raws, resolved)
  }

  lemma ResolutionIsReady(db0: Tables, db: Tables, ses: Session, nfc: Normalizer, raws: seq<Raw>, resolved: seq<Uuid>)
    requires Resolution(db0, db, ses, nfc, raws, Ok(resolved))
    ensures ReadyToLink(Project(db0, ses.tenant), Project(db, ses.tenant), nfc, raws, resolved)
  {
  }

  lemma LinksAreAsked(st: Store, st1: Store, st2: Store, nfc: Normalizer, m: Uuid, tagIds: seq<Uuid>,
                      raws: seq<Raw>, resolved: seq<Uuid>)
    requires ReadyToLink(st, st1, nfc, raws, resolved) && st2.tags == st1.tags
    ensures TagsAdded(st, st2, nfc, raws)
    ensures LinksFor(st1, m, Dedup(tagIds + resolved)) == Asked(st2, nfc, m, tagIds, raws)
  {
    DedupLinks(st1, m, tagIds + resolved);
    CombinedIdsAreAsked(st1, nfc, m, tagIds, raws, resolved);
    assert Asked(st2, nfc, m, tagIds, raws) == Asked(st1, nfc, m, tagIds, raws);
  }

  lemma AttachSucceeds(st: Store, st1: Store, coll: Collation, nfc: Normalizer, m: Uuid, tagIds: seq<Uuid>,
                       raws: seq<Raw>, resolved: seq<Uuid>)
    requires StrictTotalOrder(coll) && |tagIds| + |raws| <= MAX_TAGS && Names(nfc, raws).Ok?
    requires ReadyToLink(st, st1, nfc, raws, resolved)
    requires m in st.media && forall id :: id in tagIds ==> id in st1.tags
    ensures var st2 := st1.(links := st1.links + LinksFor(st1, m, tagIds + resolved));
            && m in st2.media
            && AttachEffect(st, st2, coll, nfc, m, tagIds, raws, Ok(OwnMediaAt(st2, coll, m)))
  {
    var st2 := st1.(links := st1.links + LinksFor(st1, m, tagIds + resolved));
    DedupLinks(st1, m, tagIds + resolved);
    LinksAreAsked(st, st1, st2, nfc, m, tagIds, raws, resolved);
    NamesStay(st1, st2, nfc, raws, resolved);
  }

  // What the repository's AttachTags makes of the resolved ids is what the call promises.
  lemma AttachOutcome(st: Store, st1: Store, coll: Collation, nfc: Normalizer, m: Uuid, tagIds: seq<Uuid>,
                      raws: seq<Raw>, resolved: seq<Uuid>)
    requires StrictTotalOrder(coll) && |tagIds| + |raws| <= MAX_TAGS && Names(nfc, raws).Ok?
    requires ReadyToLink(st, st1, nfc, raws, resolved)
    ensures var (st2, reply) := Run(st1, coll, AttachTags(m, Dedup(tagIds + resolved)));
            if reply == Done then
              m in st2.media && AttachEffect(st, st2, coll, nfc, m, tagIds, raws, Ok(OwnMediaAt(st2, coll, m)))
            else
              reply.Failed? && AttachEffect(st, st2, coll, nfc, m, tagIds, raws, Err(reply.error))
  {
    AttachDeduped(st1, coll, m, tagIds + resolved);
    AllKnown(st1, nfc, tagIds, raws, resolved);
    if m in st.media && forall id :: id in tagIds ==> id in st1.tags {
      AttachSucceeds(st, st1, coll, nfc, m, tagIds, raws, resolved);
    }
  }

  lemma AttachRefused(db0: Tables, db: Tables, ses: Session, coll: Collation, nfc: Normalizer, m: Uuid,
                      tagIds: seq<Uuid>, raws: seq<Raw>)
    requires StrictTotalOrder(coll) && OnlyTagsAdded(db0, db, ses, nfc, raws)
    requires |tagIds| + |raws| > MAX_TAGS || Names(nfc, raws).Err?
    ensures AttachEffect(Project(db0, ses.tenant), Project(db, ses.tenant), coll, nfc, m, tagIds, raws,
                         Err(ErrValidation))
  {
  }

  lemma AttachCompletes(db0: Tables, db: Tables, ses: Session, coll: Collation, nfc: Normalizer, m: Uuid,
                        tagIds: seq<Uuid>, raws: seq<Raw>, resolved: seq<Uuid>)
    requires StrictTotalOrder(coll) && |tagIds| + |raws| <= MAX_TAGS
             && Resolution(db0, db, ses, nfc, raws, Ok(resolved))
    ensures var (db', reply) := DoAttachTags(db, ses, m, Dedup(tagIds + resolved));
            var st, st' := Project(db0, ses.tenant), Project(db', ses.tenant);
            && Inv(db') && OthersUntouched(db0, db', ses.tenant)
            && (if reply == Done then
                  && OwnsMedia(db', ses, m)
                  && AttachEffect(st, st', coll, nfc, m, tagIds, raws, Ok(MediaAt(db', ses, coll, m)))
                else reply.Failed? && AttachEffect(st, st', coll, nfc, m, tagIds, raws, Err(reply.error)))
  {
    var (db', reply) := DoAttachTags(db, ses, m, Dedup(tagIds + resolved));
    AttachTagsSimulates(db, ses, coll, m, Dedup(tagIds + resolved));
    ResolutionIsReady(db0, db, ses, nfc, raws, resolved);
    AttachOutcome(Project(db0, ses.tenant), Project(db, ses.tenant), coll, nfc, m, tagIds, raws, resolved);
    if reply == Done {
      assert m in Project(db', ses.tenant).media;
      MediaAtProjects(db', ses, coll, m);
    }
  }

  method AttachTagsTo(tags: TagRepo, repo: MediaRepo, ses: Session, coll: Collation, nfc: Normalizer, mediaId: Uuid,
                      tagIds: seq<Uuid>, tagNames: seq<Raw>, freshIds: seq<Uuid>, now: Time)
    returns (r: Result<Media, Error>)
    requires repo.db == tags.db && Inv(tags.db.Contents()) && StrictTotalOrder(coll)
    requires |freshIds| == |tagNames| && FreshTagIds(tags.db.Contents(), freshIds)
    modifies tags.db
    ensures Inv(tags.db.Contents()) && OthersUntouched(old(tags.db.Contents()), tags.db.Contents(), ses.tenant)
    ensures AttachEffect(old(Project(tags.db.Contents(), ses.tenant)), Project(tags.db.Contents(), ses.tenant),
                         coll, nfc,
                         mediaId, tagIds, tagNames, r)
  {
    ghost var db0 := tags.db.Contents();
    if |tagIds| + |tagNames| > MAX_TAGS {
      AttachRefused(db0, db0, ses, coll, nfc, mediaId, tagIds, tagNames);
      return Err(ErrValidation);
    }
    var resolved := ResolveTagNames(tags, ses, coll, nfc, tagNames, freshIds, now);
    if resolved.Err? {
      AttachRefused(db0, tags.db.Contents(), ses, coll, nfc, mediaId, tagIds, tagNames);
      return Err(resolved.error);
    }
    var combined := Deduplicate(tagIds + resolved.value);
    AttachCompletes(db0, tags.db.Contents(), ses, coll, nfc, mediaId, tagIds, tagNames, resolved.value);
    var error := repo.AttachTags(ses, mediaId, combined);
    if error.Some? {
      return Err(error.value);
    }
    r := repo.GetByID(ses, coll, mediaId);
  }

  lemma NoneAdded(st: Store, st': Store, nfc: Normalizer, raws: seq<Raw>)
    requires TagsAdded(st, st', nfc, raws)
    requires forall name :: Spelled(nfc, raws, name) ==> TagsNamed(st, name) != {}
    ensures st'.tags == st.tags
  {
    assert forall id :: id in st'.tags ==> id in st.tags || TagsNamed(st, st'.tags[id].name) != {};
    assert st'.tags.Keys == st.tags.Keys;
  }

  // A client may retry: after a success the same call changes nothing and answers the same.
  lemma RetryChangesNothing(st: Store, st1: Store, st2: Store, coll: Collation, nfc: Normalizer, m: Uuid,
                            tagIds: seq<Uuid>, raws: seq<Raw>, r1: Result<Media, Error>, r2: Result<Media, Error>)
    requires StrictTotalOrder(coll)
    requires AttachEffect(st, st1, coll, nfc, m, tagIds, raws, r1) && r1.Ok?
    requires AttachEffect(st1, st2, coll, nfc, m, tagIds, raws, r2)
    ensures st2 == st1 && r2 == r1
  {
    assert forall name :: Spelled(nfc, raws, name) ==> TagsNamed(st1, name) != {} by {
      forall name | Spelled(nfc, raws, name)
        ensures TagsNamed(st1, name) != {}
      {
        var i :| 0 <= i < |raws| && Sanitized(nfc, raws[i]) == Ok(name);
        assert TagsNamed(st1, Names(nfc, raws).value[i]) != {};
      }
    }
    NoneAdded(st1, st2, nfc, raws);
    assert Asked(st2, nfc, m, tagIds, raws) == Asked(st1, nfc, m, tagIds, raws);
    assert st2.links == st1.links;
  }

  // ---- Create and Delete, against the saga of MediaSaga ----

  function RowPaths(db: Tables): map<Uuid, string> {
    map id | id in db.media :: db.media[id].info.filePath
  }

  // The saga's view of the table and the storage.
  ghost predicate Mirrors(s: MediaSaga.System, db: Tables, files: set<string>) {
    s.rows == RowPaths(db) && s.files == files
  }

  // What an upload the database accepts does to the tenant's store and answers. Tag ids the tenant
  // does not have are dropped without an error.
  ghost predicate CreateEffect(st: Store, st': Store, coll: Collation, nfc: Normalizer, m: Uuid, info: MediaInfo,
                               now: Time, tagIds: seq<Uuid>, raws: seq<Raw>, media: Media)
    requires StrictTotalOrder(coll)
  {
    && TagsAdded(st, st', nfc, raws)
    && st'.media == st.media[m := OwnMedia(info, now)]
    && st'.links == st.links + Asked(st', nfc, m, tagIds, raws)
    && media == OwnMediaAt(st', coll, m)
  }

  lemma NoRepeats(st: Store, ids: seq<Uuid>)
    ensures !RepeatsKnown(st.tags.Keys, Dedup(ids))
  {
  }

  lemma CreateOutcome(st: Store, st1: Store, coll: Collation, nfc: Normalizer, m: Uuid, info: MediaInfo, now: Time,
                      tagIds: seq<Uuid>, raws: seq<Raw>, resolved: seq<Uuid>)
    requires StrictTotalOrder(coll) && ReadyToLink(st, st1, nfc, raws, resolved)
    ensures var (st2, reply) := Run(st1, coll, CreateMedia(info, Dedup(tagIds + resolved), m, now));
            reply.MediaReply? && CreateEffect(st, st2, coll, nfc, m, info, now, tagIds, raws, reply.media)
  {
    NoRepeats(st1, tagIds + resolved);
    var st2 := Run(st1, coll, CreateMedia(info, Dedup(tagIds + resolved), m, now)).0;
    LinksAreAsked(st, st1, st2, nfc, m, tagIds, raws, resolved);
  }

  // Inserting touches no other path.
  lemma InsertedPath(db: Tables, ses: Session, coll: Collation, info: MediaInfo, tagIds: seq<Uuid>, m: Uuid, now: Time)
    requires StrictTotalOrder(coll) && m !in db.media
    ensures var (db', reply) := DoCreateMedia(db, ses, coll, info, tagIds, m, now);
            reply.MediaReply? ==> RowPaths(db') == RowPaths(db)[m := info.filePath]
  {
    AddLinksOutcome(db.(media := db.media[m := MediaRow(ses.tenant, info, now)]), ses, m, tagIds);
  }

  lemma CreateCompletes(db0: Tables, db: Tables, ses: Session, coll: Collation, nfc: Normalizer, m: Uuid,
                        info: MediaInfo, now: Time, tagIds: seq<Uuid>, raws: seq<Raw>, resolved: seq<Uuid>)
    requires StrictTotalOrder(coll) && Resolution(db0, db, ses, nfc, raws, Ok(resolved)) && m !in db.media
    ensures var (db', reply) := DoCreateMedia(db, ses, coll, info, Dedup(tagIds + resolved), m, now);
            var st, st' := Project(db0, ses.tenant), Project(db', ses.tenant);
            && Inv(db') && OthersUntouched(db0, db', ses.tenant)
            && reply.MediaReply? && CreateEffect(st, st', coll, nfc, m, info, now, tagIds, raws, reply.media)
            && reply.media.info == info && reply.media.id == m && reply.media.createdAt == now
            && RowPaths(db') == RowPaths(db0)[m := info.filePath]
  {
    CreateMediaSimulates(db, ses, coll, info, Dedup(tagIds + resolved), m, now);
    ResolutionIsReady(db0, db, ses, nfc, raws, resolved);
    CreateOutcome(Project(db0, ses.tenant), Project(db, ses.tenant), coll, nfc, m, info, now, tagIds, raws, resolved);
    InsertedPath(db, ses, coll, info, Dedup(tagIds + resolved), m, now);
  }

  // How storage and database answer, where the answer is theirs to give.
  datatype Faults = Faults(saveOk: bool, insertOk: bool, deleteOk: bool)

  // The upload as the client sent it; classifyContentType has given kind, or rejected the file.
  datatype Upload = Upload(name: Raw, kind: Option<string>, originalName: string, fileSize: int,
                           tagIds: seq<Uuid>, tagNames: seq<Raw>)

  predicate Acceptable(nfc: Normalizer, u: Upload) {
    && Sanitized(nfc, u.name).Ok? && |u.tagIds| + |u.tagNames| <= MAX_TAGS
    && Names(nfc, u.tagNames).Ok? && u.kind.Some?
  }

  // Save the file, insert the row, delete the file again if the insert fails.
  method StoreAndInsert(repo: MediaRepo, storage: FileStorage, ses: Session, coll: Collation, info: MediaInfo,
                        tagIds: seq<Uuid>, freshId: Uuid, now: Time, faults: Faults)
    returns (r: Result<Media, Error>)
    requires Inv(repo.db.Contents()) && StrictTotalOrder(coll)
    requires freshId !in repo.db.media && info.filePath !in storage.files
    modifies repo.db, storage
    ensures Inv(repo.db.Contents())
    ensures if faults.saveOk && faults.insertOk then
              (repo.db.Contents(), if r.Ok? then MediaReply(r.value) else Failed(r.error))
              == DoCreateMedia(old(repo.db.Contents()), ses, coll, info, tagIds, freshId, now)
            else r == Err(ErrInternal) && repo.db.Contents() == old(repo.db.Contents())
    ensures storage.files
            == old(storage.files)
               + if faults.saveOk && (faults.insertOk || !faults.deleteOk) then {info.filePath} else {}
  {
    var stored := storage.Save(info.filePath, faults.saveOk);
    if stored.Err? {
      return Err(stored.error);
    }
    if !faults.insertOk {
      var _ := storage.Delete(stored.value, faults.deleteOk);
      return Err(ErrInternal);
    }
    r := repo.Create(ses, coll, info.(filePath := stored.value), tagIds, freshId, now);
  }

  method Create(tags: TagRepo, repo: MediaRepo, storage: FileStorage, ses: Session, coll: Collation, nfc: Normalizer,
                u: Upload, path: string, freshTagIds: seq<Uuid>, freshId: Uuid, now: Time, faults: Faults,
                ghost s: MediaSaga.System, ghost request: nat)
    returns (r: Result<Media, Error>)
    requires repo.db == tags.db && Inv(tags.db.Contents()) && StrictTotalOrder(coll)
    requires |freshTagIds| == |u.tagNames| && FreshTagIds(tags.db.Contents(), freshTagIds) && freshId !in tags.db.media
    requires MediaSaga.Inv(s) && Mirrors(s, tags.db.Contents(), storage.files) && request !in s.requests
             && path !in s.seen
    modifies tags.db, storage
    ensures Inv(tags.db.Contents()) && OthersUntouched(old(tags.db.Contents()), tags.db.Contents(), ses.tenant)
    // It succeeds when the name and every tag name can be sanitized, there are at most fifty tags, the
    // file's kind is known and storage and database work;
    ensures r.Ok? <==>
            && Sanitized(nfc, u.name).Ok? && |u.tagIds| + |u.tagNames| <= 50 && u.kind.Some?
            && (forall i :: 0 <= i < |u.tagNames| ==> Sanitized(nfc, u.tagNames[i]).Ok?)
            && faults.saveOk && faults.insertOk
    // the item then shows the sanitized name and the file's own,
    ensures r.Ok? ==>
              && r.value.id == freshId && r.value.createdAt == now
              && Ok(r.value.info.name) == Sanitized(nfc, u.name) && Some(r.value.info.mediaType) == u.kind
              && r.value.info.originalName == u.originalName && r.value.info.fileSize == u.fileSize
              && r.value.info.filePath == path && path in storage.files
    ensures r.Ok? ==> CreateEffect(old(Project(tags.db.Contents(), ses.tenant)),
                                   Project(tags.db.Contents(), ses.tenant), coll, nfc,
                                   freshId, r.value.info, now, u.tagIds, u.tagNames, r.value)
    ensures r.Err? ==> OnlyTagsAdded(old(tags.db.Contents()), tags.db.Contents(), ses, nfc, u.tagNames)
    // Storage and database failures are internal; anything else is the upload's own fault.
    ensures r.Err? ==>
              r.error == if Sanitized(nfc, u.name).Err? || |u.tagIds| + |u.tagNames| > 50
                            || (exists i :: 0 <= i < |u.tagNames| && Sanitized(nfc, u.tagNames[i]).Err?)
                         then ErrValidation
                         else if u.kind.None? then ErrUnsupportedMediaType else ErrInternal
    ensures var steps := if Acceptable(nfc, u) then
                           MediaSaga.CreateSteps(request, path, freshId, faults.saveOk, faults.insertOk,
                                                 faults.deleteOk)
                         else [];
            MediaSaga.IsRun(s, steps) && Mirrors(MediaSaga.After(s, steps), tags.db.Contents(), storage.files)
  {
    ghost var db0 := tags.db.Contents();
    ResolutionStarts(db0, ses, nfc);
    AddedMore(Project(db0, ses.tenant), Project(db0, ses.tenant), nfc, u.tagNames, 0);
    var name := SanitizeName(nfc, u.name);
    if name.Err? {
      return Err(name.error);
    }
    if |u.tagIds| + |u.tagNames| > MAX_TAGS {
      return Err(ErrValidation);
    }
    var resolved := ResolveTagNames(tags, ses, coll, nfc, u.tagNames, freshTagIds, now);
    if resolved.Err? {
      return Err(resolved.error);
    }
    var tagIds := Deduplicate(u.tagIds + resolved.value);
    if u.kind.None? {
      return Err(ErrUnsupportedMediaType);
    }
    MediaSaga.CreateIsARun(s, request, path, freshId, faults.saveOk, faults.insertOk, faults.deleteOk);
    var info := MediaInfo(name.value, u.kind.value, path, u.originalName, u.fileSize);
    CreateCompletes(db0, tags.db.Contents(), ses, coll, nfc, freshId, info, now, u.tagIds, u.tagNames, resolved.value);
    r := StoreAndInsert(repo, storage, ses, coll, info, tagIds, freshId, now, faults);
  }

  method Delete(repo: MediaRepo, storage: FileStorage, ses: Session, coll: Collation, id: Uuid, deleteOk: bool,
                ghost s: MediaSaga.System, ghost request: nat)
    returns (error: Option<Error>)
    requires Inv(repo.db.Contents()) && StrictTotalOrder(coll)
    requires MediaSaga.Inv(s) && Mirrors(s, repo.db.Contents(), storage.files) && request !in s.requests
    modifies repo.db, storage
    ensures Inv(repo.db.Contents())
    ensures error == if old(OwnsMedia(repo.db.Contents(), ses, id)) then None else Some(ErrNotFound)
    ensures repo.db.Contents() == DoDeleteMedia(old(repo.db.Contents()), ses, id).0
    ensures error.None? ==>
              var steps := MediaSaga.DeleteSteps(request, id, true, deleteOk);
              MediaSaga.IsRun(s, steps) && Mirrors(MediaSaga.After(s, steps), repo.db.Contents(), storage.files)
    ensures error.Some? ==> storage.files == old(storage.files)
  {
    MediaSaga.DeleteIsARun(s, request, id, deleteOk);
    var filePath := repo.Delete(ses, id);
    if filePath.Err? {
      return Some(filePath.error);
    }
    var _ := storage.Delete(filePath.value, deleteOk);
    return None;
  }
}
