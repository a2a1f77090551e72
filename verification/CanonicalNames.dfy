// Every name in the tables is in the normal form that SanitizeName produces, whatever the services of
// internal/service do, and every reply shows it.
module CanonicalNames {
  import opened Common
  import opened Ordering
  import opened Keyset
  import opened Sanitize
  import opened Catalog
  import opened CatalogQueries
  import opened TenantStore
  import opened TenantIsolation
  import opened MediaService
  import opened MediaCommands
  import opened Walks

  ghost predicate NamesCanonical(db: Tables, nfc: Normalizer) {
    && (forall id :: id in db.tags ==> Canonical(nfc, db.tags[id].name))
    && (forall m :: m in db.media ==> Canonical(nfc, db.media[m].info.name))
  }

  ghost predicate OwnNamesCanonical(st: Store, nfc: Normalizer) {
    && (forall id :: id in st.tags ==> Canonical(nfc, st.tags[id].name))
    && (forall m :: m in st.media ==> Canonical(nfc, st.media[m].info.name))
  }

  lemma CanonicalByTenant(db: Tables, nfc: Normalizer)
    ensures NamesCanonical(db, nfc) <==> forall t :: OwnNamesCanonical(Project(db, t), nfc)
  {
    if forall t :: OwnNamesCanonical(Project(db, t), nfc) {
      forall id | id in db.tags
        ensures Canonical(nfc, db.tags[id].name)
      {
        assert id in Project(db, db.tags[id].tenant).tags;
      }
      forall m | m in db.media
        ensures Canonical(nfc, db.media[m].info.name)
      {
        assert m in Project(db, db.media[m].tenant).media;
      }
    }
  }

  // ---- The services' writes ----

  lemma OneTenantWrites(db: Tables, db': Tables, t: Uuid, nfc: Normalizer)
    requires NamesCanonical(db, nfc) && OthersUntouched(db, db', t) && OwnNamesCanonical(Project(db', t), nfc)
    ensures NamesCanonical(db', nfc)
  {
    CanonicalByTenant(db, nfc);
    forall u
      ensures OwnNamesCanonical(Project(db', u), nfc)
    {
      assert u != t ==> Project(db', u) == Project(db, u);
    }
    CanonicalByTenant(db', nfc);
  }

  lemma AddedTagsAreCanonical(st: Store, st': Store, nfc: Normalizer, raws: seq<Raw>)
    requires NormalizerOk(nfc) && OwnNamesCanonical(st, nfc) && TagsAdded(st, st', nfc, raws)
    ensures forall id :: id in st'.tags ==> Canonical(nfc, st'.tags[id].name)
  {
    forall id | id in st'.tags
      ensures Canonical(nfc, st'.tags[id].name)
    {
      if id !in st.tags {
        var i :| 0 <= i < |raws| && Sanitized(nfc, raws[i]) == Ok(st'.tags[id].name);
        AcceptedIsCanonical(nfc, raws[i]);
      }
    }
  }

  // MediaService.Create, when it succeeds,
  lemma CreateKeepsCanonical(db: Tables, db': Tables, ses: Session, coll: Collation, nfc: Normalizer, m: Uuid,
                             name: Raw, info: MediaInfo, now: Time, tagIds: seq<Uuid>, raws: seq<Raw>, media: Media)
    requires NormalizerOk(nfc) && StrictTotalOrder(coll) && NamesCanonical(db, nfc)
    requires OthersUntouched(db, db', ses.tenant)
    requires CreateEffect(Project(db, ses.tenant), Project(db', ses.tenant), coll, nfc, m, info, now, tagIds, raws,
                          media)
    requires Ok(info.name) == Sanitized(nfc, name)
    ensures NamesCanonical(db', nfc)
    ensures m in db'.media && db'.media[m].info.name == info.name && Canonical(nfc, info.name)
  {
    AcceptedIsCanonical(nfc, name);
    CanonicalByTenant(db, nfc);
    AddedTagsAreCanonical(Project(db, ses.tenant), Project(db', ses.tenant), nfc, raws);
    OneTenantWrites(db, db', ses.tenant, nfc);
    assert m in Project(db', ses.tenant).media;
  }

  // when it fails, which may leave new tags behind,
  lemma FailureKeepsCanonical(db: Tables, db': Tables, ses: Session, nfc: Normalizer, raws: seq<Raw>)
    requires NormalizerOk(nfc) && NamesCanonical(db, nfc) && OnlyTagsAdded(db, db', ses, nfc, raws)
    ensures NamesCanonical(db', nfc)
  {
    CanonicalByTenant(db, nfc);
    AddedTagsAreCanonical(Project(db, ses.tenant), Project(db', ses.tenant), nfc, raws);
    OneTenantWrites(db, db', ses.tenant, nfc);
  }

  // and AttachTags keep every name canonical.
  lemma AttachKeepsCanonical(db: Tables, db': Tables, ses: Session, coll: Collation, nfc: Normalizer, m: Uuid,
                             tagIds: seq<Uuid>, raws: seq<Raw>, r: Result<Media, Error>)
    requires NormalizerOk(nfc) && StrictTotalOrder(coll) && NamesCanonical(db, nfc)
    requires OthersUntouched(db, db', ses.tenant)
    requires AttachEffect(Project(db, ses.tenant), Project(db', ses.tenant), coll, nfc, m, tagIds, raws, r)
    ensures NamesCanonical(db', nfc)
  {
    CanonicalByTenant(db, nfc);
    AddedTagsAreCanonical(Project(db, ses.tenant), Project(db', ses.tenant), nfc, raws);
    OneTenantWrites(db, db', ses.tenant, nfc);
  }

  // ---- Whole histories ----

  // The services hand the repositories sanitized names only.
  ghost predicate Sanitary(nfc: Normalizer, op: Op) {
    match op
    case CreateOrGet(name, _, _) => exists raw :: Sanitized(nfc, raw) == Ok(name)
    case RenameTag(_, name) => exists raw :: Sanitized(nfc, raw) == Ok(name)
    case CreateMedia(info, _, _, _) => exists raw :: Sanitized(nfc, raw) == Ok(info.name)
    case _ => true
  }

  // The name an operation brings, if it brings one.
  lemma BroughtIsCanonical(nfc: Normalizer, op: Op)
    requires NormalizerOk(nfc) && Sanitary(nfc, op)
    ensures op.CreateOrGet? ==> Canonical(nfc, op.name)
    ensures op.RenameTag? ==> Canonical(nfc, op.newName)
    ensures op.CreateMedia? ==> Canonical(nfc, op.info.name)
  {
    match op
    case CreateOrGet(name, _, _) =>
      var raw :| Sanitized(nfc, raw) == Ok(name);
      AcceptedIsCanonical(nfc, raw);
    case RenameTag(_, name) =>
      var raw :| Sanitized(nfc, raw) == Ok(name);
      AcceptedIsCanonical(nfc, raw);
    case CreateMedia(info, _, _, _) =>
      var raw :| Sanitized(nfc, raw) == Ok(info.name);
      AcceptedIsCanonical(nfc, raw);
    case _ =>
  }

  // A name in the store after an operation was there before it, or is the one it brought.
  lemma NamesAfter(st: Store, coll: Collation, op: Op)
    requires StrictTotalOrder(coll) && (op.ListTags? || op.ListMedia? ==> op.limit > 0)
    ensures var st' := Run(st, coll, op).0;
            && (forall id :: id in st'.tags ==>
                  || (id in st.tags && st'.tags[id].name == st.tags[id].name)
                  || (op.CreateOrGet? && st'.tags[id].name == op.name)
                  || (op.RenameTag? && st'.tags[id].name == op.newName))
            && (forall m :: m in st'.media ==>
                  (m in st.media && st'.media[m] == st.media[m]) || (op.CreateMedia? && st'.media[m].info == op.info))
  {
  }

  lemma RunKeepsCanonical(st: Store, coll: Collation, nfc: Normalizer, op: Op)
    requires NormalizerOk(nfc) && StrictTotalOrder(coll) && (op.ListTags? || op.ListMedia? ==> op.limit > 0)
    requires OwnNamesCanonical(st, nfc) && Sanitary(nfc, op)
    ensures OwnNamesCanonical(Run(st, coll, op).0, nfc)
  {
    BroughtIsCanonical(nfc, op);
    NamesAfter(st, coll, op);
  }

  lemma ExecKeepsCanonical(db: Tables, ses: Session, coll: Collation, nfc: Normalizer, op: Op)
    requires Inv(db) && NormalizerOk(nfc) && StrictTotalOrder(coll) && Admissible(db, op)
    requires NamesCanonical(db, nfc) && Sanitary(nfc, op)
    ensures var db' := Exec(db, ses, coll, op).0; Inv(db') && NamesCanonical(db', nfc)
  {
    ExecSimulates(db, ses, coll, op);
    CanonicalByTenant(db, nfc);
    RunKeepsCanonical(Project(db, ses.tenant), coll, nfc, op);
    OneTenantWrites(db, Exec(db, ses, coll, op).0, ses.tenant, nfc);
  }

  // Whatever the tenants do, every name stored stays canonical.
  lemma {:induction false} HistoryKeepsCanonical(db: Tables, rls: bool, coll: Collation, nfc: Normalizer,
                                                 reqs: seq<Request>)
    requires Inv(db) && NormalizerOk(nfc) && StrictTotalOrder(coll) && IsHistory(db, rls, coll, reqs)
    requires NamesCanonical(db, nfc) && forall r :: r in reqs ==> Sanitary(nfc, r.op)
    ensures Inv(ExecAll(db, rls, coll, reqs).0) && NamesCanonical(ExecAll(db, rls, coll, reqs).0, nfc)
    decreases |reqs|
  {
    if |reqs| > 0 {
      var ses := Session(reqs[0].tenant, rls);
      assert reqs[0] in reqs;
      ExecKeepsCanonical(db, ses, coll, nfc, reqs[0].op);
      HistoryKeepsCanonical(Exec(db, ses, coll, reqs[0].op).0, rls, coll, nfc, reqs[1..]);
    }
  }

  // ---- What the clients see ----

  // The name an upload was stored under is what GetByID shows, until the item is deleted,
  lemma NameIsShown(db: Tables, rls: bool, coll: Collation, reqs: seq<Request>, t: Uuid, m: Uuid)
    requires Inv(db) && StrictTotalOrder(coll) && IsHistory(db, rls, coll, reqs)
    requires m in db.media && db.media[m].tenant == t && forall r :: r in reqs ==> r.op != DeleteMedia(m)
    ensures var reply := DoGetMedia(ExecAll(db, rls, coll, reqs).0, Session(t, rls), coll, m);
            reply.MediaReply? && reply.media.id == m && reply.media.info == db.media[m].info
            && reply.media.createdAt == db.media[m].createdAt
  {
    assert m in Project(db, t).media;
    HistoryKeepsMedia(db, rls, coll, reqs, t, m);
    var end := ExecAll(db, rls, coll, reqs).0;
    assert m in Project(end, t).media;
    assert OwnsMedia(end, Session(t, rls), m);
  }

  // and what every page shows: the stored names, all canonical.
  lemma PagesShowNames(db: Tables, later: Tables, ses: Session, q: Query, limit: int, cursor: string, item: Media)
    requires QueryOk(q) && NamesCanonical(db, q.nfc)
    requires var reply := ReplyAsRead(Project(db, ses.tenant), Project(later, ses.tenant), q.coll, q.nfc, q.codec,
                                      limit, cursor, q.filter);
             reply.Ok? && item in reply.value.0
    ensures item.id in db.media && item.info == db.media[item.id].info && Canonical(q.nfc, item.info.name)
  {
    OnePageIsShown(q, Visit(Project(db, ses.tenant), Project(later, ses.tenant), limit), cursor, item);
  }

  lemma TagsShownAreCanonical(db: Tables, ses: Session, coll: Collation, nfc: Normalizer, m: Uuid, tag: Tag)
    requires StrictTotalOrder(coll) && NamesCanonical(db, nfc) && tag in MediaTags(db, ses, coll, m)
    ensures Canonical(nfc, tag.name)
  {
    MediaTagsElements(db, ses, coll, m, tag);
  }
}
