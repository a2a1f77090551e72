// MediaRepo.AttachTags (internal/adapter/postgres/media_repo.go) statement by statement. Under READ
// COMMITTED its three statements see three states of the tables: the media check, the INSERT, and
// the COUNT that follows when fewer rows were inserted than asked for.
module AttachStatements {
  import opened Common
  import opened Catalog
  import opened TenantStore
  import opened TenantIsolation
  import Counting
  import Ordering

  // The links the call leaves, and its answer. A link to a media item that is gone by the INSERT
  // violates the foreign key. A validation error rolls the INSERT back.
  ghost function AttachAsRead(checked: Tables, inserting: Tables, counted: Tables, ses: Session, m: Uuid,
                              ids: seq<Uuid>): (set<Link>, Reply)
  {
    if !OwnsMedia(checked, ses, m) then ({}, Failed(ErrNotFound))
    else if |ids| == 0 then ({}, Done)
    else
      var inserted := NewLinks(inserting, m, KnownIds(inserting, ses, ids));
      if inserted != {} && m !in inserting.media then ({}, Failed(ErrInternal))
      else if |inserted| < |ids| && |KnownIds(counted, ses, ids)| < |ids| then ({}, Failed(ErrValidation))
      else (inserted, Done)
  }

  // With nothing in between it is the transaction of one moment.
  lemma AttachAtOneMoment(db: Tables, ses: Session, m: Uuid, ids: seq<Uuid>)
    ensures var (inserted, reply) := AttachAsRead(db, db, db, ses, m, ids);
            DoAttachTags(db, ses, m, ids) == (db.(links := db.links + LinkRows(inserted, ses.tenant)), reply)
  {
    assert LinkRows({}, ses.tenant) == map[] && db.links + map[] == db.links;
  }

  ghost predicate AllOwned(db: Tables, ses: Session, ids: seq<Uuid>) {
    forall id :: id in ids ==> OwnsTag(db, ses, id)
  }

  ghost predicate AllNew(db: Tables, m: Uuid, ids: seq<Uuid>) {
    forall id :: id in ids ==> Link(m, id) !in db.links
  }

  lemma CountsAll(db: Tables, ses: Session, ids: seq<Uuid>)
    requires NoDuplicates(ids)
    ensures |KnownIds(db, ses, ids)| <= |ids|
    ensures |KnownIds(db, ses, ids)| == |ids| <==> AllOwned(db, ses, ids)
  {
    CountEqualsContainment(KnownIds(db, ses, ids), ids);
    DistinctCount(ids);
    assert forall id :: id in ids <==> id in Ordering.Elements(ids);
    Counting.SubsetCount(KnownIds(db, ses, ids), Ordering.Elements(ids));
  }

  lemma InsertsAll(db: Tables, ses: Session, m: Uuid, ids: seq<Uuid>)
    requires NoDuplicates(ids)
    ensures |NewLinks(db, m, KnownIds(db, ses, ids))| <= |ids|
    ensures |NewLinks(db, m, KnownIds(db, ses, ids))| == |ids| <==> AllOwned(db, ses, ids) && AllNew(db, m, ids)
  {
    var known := KnownIds(db, ses, ids);
    var unlinked := set id | id in known && Link(m, id) !in db.links;
    LinkCount(db, m, unlinked);
    assert NewLinks(db, m, known) == NewLinks(db, m, unlinked);
    Counting.SubsetCount(unlinked, known);
    CountsAll(db, ses, ids);
    assert unlinked == known && AllOwned(db, ses, ids) ==> AllNew(db, m, ids) by {
      assert AllOwned(db, ses, ids) ==> forall id :: id in ids ==> id in known;
    }
    assert AllNew(db, m, ids) ==> unlinked == known;
  }

  // What can be said of the answer: the call succeeds iff the item was there at the check, what there
  // is to insert can be inserted, and either every tag is the tenant's and new at the INSERT, or every
  // tag is the tenant's at the COUNT.
  lemma SucceedsIff(checked: Tables, inserting: Tables, counted: Tables, ses: Session, m: Uuid, ids: seq<Uuid>)
    requires NoDuplicates(ids) && |ids| > 0
    ensures AttachAsRead(checked, inserting, counted, ses, m, ids).1 == Done <==>
            && OwnsMedia(checked, ses, m)
            && (NewLinks(inserting, m, KnownIds(inserting, ses, ids)) != {} ==> m in inserting.media)
            && ((AllOwned(inserting, ses, ids) && AllNew(inserting, m, ids)) || AllOwned(counted, ses, ids))
  {
    CountsAll(counted, ses, ids);
    InsertsAll(inserting, ses, m, ids);
  }

  // A success links every requested tag iff every one was the tenant's at the INSERT: the COUNT comes
  // later, and accepts a tag created meanwhile, which is then not linked.
  lemma LinksAllIff(checked: Tables, inserting: Tables, counted: Tables, ses: Session, m: Uuid, ids: seq<Uuid>)
    requires Inv(inserting) && NoDuplicates(ids)
    requires AttachAsRead(checked, inserting, counted, ses, m, ids).1 == Done
    ensures var inserted := AttachAsRead(checked, inserting, counted, ses, m, ids).0;
            var after := inserting.(links := inserting.links + LinkRows(inserted, ses.tenant));
            (forall id :: id in ids ==> Link(m, id) in after.links && after.links[Link(m, id)] == ses.tenant)
            <==> AllOwned(inserting, ses, ids)
  {
    var known := KnownIds(inserting, ses, ids);
    var inserted := AttachAsRead(checked, inserting, counted, ses, m, ids).0;
    forall id | id in ids
      ensures Link(m, id) in inserting.links + LinkRows(inserted, ses.tenant)
              && (inserting.links + LinkRows(inserted, ses.tenant))[Link(m, id)] == ses.tenant
              <==> OwnsTag(inserting, ses, id)
    {
      assert Link(m, id) in inserted ==> id in known;
      assert OwnsTag(inserting, ses, id) ==> id in known;
    }
  }
}
