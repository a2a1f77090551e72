// The shared tables behave as one separate store per tenant, with or without row-level security.
module TenantIsolation {
  import opened Common
  import opened Counting
  import opened Ordering
  import opened Keyset
  import opened Catalog
  import opened TenantStore

  // A tenant's rows, without the tenant column.
  ghost function Project(db: Tables, t: Uuid): Store {
    Store(map id | id in db.tags && db.tags[id].tenant == t :: OwnTag(db.tags[id].name, db.tags[id].createdAt),
          map id | id in db.media && db.media[id].tenant == t :: OwnMedia(db.media[id].info, db.media[id].createdAt),
          set l | l in db.links && db.links[l] == t)
  }

  ghost predicate OthersUntouched(db: Tables, db': Tables, t: Uuid) {
    forall u :: u != t ==> Project(db', u) == Project(db, u)
  }

  // The transaction does to its tenant's projection what Run does to that tenant's own store,
  // gives the same reply, and leaves every other projection and the invariant as they were.
  ghost predicate Simulates(db: Tables, ses: Session, coll: Collation, op: Op, result: (Tables, Reply))
    requires StrictTotalOrder(coll) && Admissible(db, op)
  {
    && Inv(result.0)
    && (Project(result.0, ses.tenant), result.1) == Run(Project(db, ses.tenant), coll, op)
    && OthersUntouched(db, result.0, ses.tenant)
  }

  // ---- Counting ----

  lemma {:induction false} DistinctCount<T>(s: seq<T>)
    ensures |Elements(s)| <= |s|
    ensures |Elements(s)| == |s| <==> NoDuplicates(s)
  {
    if |s| == 0 {
      assert Elements(s) == {};
    } else {
      var n := |s| - 1;
      var init := s[..n];
      DistinctCount(init);
      assert s == init + [s[n]];
      assert Elements(s) == Elements(init) + {s[n]};
      assert s[n] in Elements(init) <==> s[n] in init;
      if s[n] !in init {
        assert NoDuplicates(init) ==> NoDuplicates(s);
        assert |Elements(s)| == |Elements(init)| + 1;
      } else {
        var i :| 0 <= i < n && init[i] == s[n];
        assert s[i] == s[n];
        assert Elements(s) == Elements(init);
      }
      assert NoDuplicates(s) ==> NoDuplicates(init);
    }
  }

  // COUNT(DISTINCT x) = N, for rows x drawn from a list of N entries, holds iff the list has no
  // repeated entry and every entry has a row.
  lemma CountEqualsContainment<T>(found: set<T>, wanted: seq<T>)
    requires forall x :: x in found ==> x in wanted
    ensures |found| == |wanted| <==> NoDuplicates(wanted) && forall x :: x in wanted ==> x in found
  {
    DistinctCount(wanted);
    assert found <= Elements(wanted);
    SubsetCount(found, Elements(wanted));
    if forall x :: x in wanted ==> x in found {
      assert found == Elements(wanted);
    }
  }

  // ---- Row changes, seen through a projection ----

  lemma ProjectSetTag(db: Tables, id: Uuid, row: TagRow, u: Uuid)
    requires id in db.tags ==> db.tags[id].tenant == row.tenant
    ensures var db' := db.(tags := db.tags[id := row]);
            var st := Project(db, u);
            Project(db', u) == if u == row.tenant
              then st.(tags := st.tags[id := OwnTag(row.name, row.createdAt)]) else st
  {
    var db' := db.(tags := db.tags[id := row]);
    var st := Project(db, u);
    var tags' := if u == row.tenant then st.tags[id := OwnTag(row.name, row.createdAt)] else st.tags;
    assert Project(db', u).tags == tags';
  }

  lemma ProjectSetMedia(db: Tables, id: Uuid, row: MediaRow, u: Uuid)
    requires id !in db.media
    ensures var db' := db.(media := db.media[id := row]);
            var st := Project(db, u);
            Project(db', u) == if u == row.tenant
              then st.(media := st.media[id := OwnMedia(row.info, row.createdAt)]) else st
  {
    var db' := db.(media := db.media[id := row]);
    var st := Project(db, u);
    var media' := if u == row.tenant then st.media[id := OwnMedia(row.info, row.createdAt)] else st.media;
    assert Project(db', u).media == media';
  }

  lemma ProjectAddLinks(db: Tables, t: Uuid, added: set<Link>, u: Uuid)
    requires forall l :: l in added && l in db.links ==> db.links[l] == t
    ensures var db' := db.(links := db.links + LinkRows(added, t));
            var st := Project(db, u);
            Project(db', u) == if u == t then st.(links := st.links + added) else st
  {
    var db' := db.(links := db.links + LinkRows(added, t));
    var st := Project(db, u);
    assert Project(db', u).links == if u == t then st.links + added else st.links;
  }

  // Deleting a tag, with its links.
  ghost function WithoutTag(db: Tables, id: Uuid): Tables {
    db.(tags := db.tags - {id}, links := map l | l in db.links && l.tag != id :: db.links[l])
  }

  ghost function WithoutMedia(db: Tables, id: Uuid): Tables {
    db.(media := db.media - {id}, links := map l | l in db.links && l.media != id :: db.links[l])
  }

  lemma DropsKeepInv(db: Tables, id: Uuid)
    requires Inv(db)
    ensures Inv(WithoutTag(db, id)) && Inv(WithoutMedia(db, id))
  {
  }

  // The links of a dropped tag all belong to its tenant.
  lemma DroppedTagLinks(db: Tables, id: Uuid, u: Uuid)
    requires Inv(db) && id in db.tags
    ensures var links := Project(db, u).links;
            Project(WithoutTag(db, id), u).links
            == if u == db.tags[id].tenant then set l | l in links && l.tag != id else links
  {
  }

  lemma DroppedTagRow(db: Tables, id: Uuid, u: Uuid)
    requires id in db.tags
    ensures var tags := Project(db, u).tags;
            Project(WithoutTag(db, id), u).tags == if u == db.tags[id].tenant then tags - {id} else tags
    ensures Project(WithoutTag(db, id), u).media == Project(db, u).media
  {
  }

  lemma ProjectDropTag(db: Tables, id: Uuid, u: Uuid)
    requires Inv(db) && id in db.tags
    ensures Inv(WithoutTag(db, id))
    ensures var st := Project(db, u);
            Project(WithoutTag(db, id), u)
            == if u == db.tags[id].tenant
              then st.(tags := st.tags - {id}, links := set l | l in st.links && l.tag != id) else st
  {
    DropsKeepInv(db, id);
    DroppedTagLinks(db, id, u);
    DroppedTagRow(db, id, u);
  }

  lemma DroppedMediaLinks(db: Tables, id: Uuid, u: Uuid)
    requires Inv(db) && id in db.media
    ensures var links := Project(db, u).links;
            Project(WithoutMedia(db, id), u).links
            == if u == db.media[id].tenant then set l | l in links && l.media != id else links
  {
  }

  lemma DroppedMediaRow(db: Tables, id: Uuid, u: Uuid)
    requires id in db.media
    ensures var media := Project(db, u).media;
            Project(WithoutMedia(db, id), u).media == if u == db.media[id].tenant then media - {id} else media
    ensures Project(WithoutMedia(db, id), u).tags == Project(db, u).tags
  {
  }

  lemma ProjectDropMedia(db: Tables, id: Uuid, u: Uuid)
    requires Inv(db) && id in db.media
    ensures Inv(WithoutMedia(db, id))
    ensures var st := Project(db, u);
            Project(WithoutMedia(db, id), u)
            == if u == db.media[id].tenant
              then st.(media := st.media - {id}, links := set l | l in st.links && l.media != id) else st
  {
    DropsKeepInv(db, id);
    DroppedMediaLinks(db, id, u);
    DroppedMediaRow(db, id, u);
  }

  // ---- Tag lists and media rows ----

  lemma JoinedKeysProject(db: Tables, ses: Session, m: Uuid)
    requires Inv(db)
    ensures JoinedTagKeys(db, ses, m) == AttachedKeys(Project(db, ses.tenant), m)
  {
    var st := Project(db, ses.tenant);
    forall id | id in db.tags && Link(m, id) in db.links && db.links[Link(m, id)] == ses.tenant
      ensures id in st.tags && st.tags[id].name == db.tags[id].name && Sees(ses, db.tags[id].tenant)
    {
    }
    forall k | k in JoinedTagKeys(db, ses, m)
      ensures k in AttachedKeys(st, m)
    {
      assert k.id in st.tags && Link(m, k.id) in st.links;
    }
    forall k | k in AttachedKeys(st, m)
      ensures k in JoinedTagKeys(db, ses, m)
    {
      assert k.id in db.tags && Link(m, k.id) in db.links;
    }
  }

  // queryMediaTags filters on the link's tenant only; tenant agreement makes that enough.
  lemma MediaTagsProject(db: Tables, ses: Session, coll: Collation, m: Uuid)
    requires Inv(db) && StrictTotalOrder(coll)
    ensures MediaTags(db, ses, coll, m) == Attached(Project(db, ses.tenant), coll, m)
  {
    var st := Project(db, ses.tenant);
    JoinedKeysProject(db, ses, m);
    TagOrderIsTotal(coll);
    var keys := Sort(AttachedKeys(st, m), TagOrder(coll));
    LoadedTagsProject(db, ses, keys, AttachedKeys(st, m));
  }

  lemma LoadedTagsProject(db: Tables, ses: Session, keys: seq<TagKey>, within: set<TagKey>)
    requires forall k :: k in within ==> k.id in Project(db, ses.tenant).tags
    requires forall k :: k in Elements(keys) ==> k in within
    ensures forall k :: k in keys ==> k.id in db.tags && k.id in Project(db, ses.tenant).tags
    ensures LoadTags(db, keys) == OwnTags(Project(db, ses.tenant), keys)
  {
    forall k | k in keys
      ensures k.id in Project(db, ses.tenant).tags
    {
      assert k in Elements(keys);
    }
  }

  lemma MediaAtProjects(db: Tables, ses: Session, coll: Collation, m: Uuid)
    requires Inv(db) && StrictTotalOrder(coll) && OwnsMedia(db, ses, m)
    ensures m in Project(db, ses.tenant).media
    ensures MediaAt(db, ses, coll, m) == OwnMediaAt(Project(db, ses.tenant), coll, m)
  {
    MediaTagsProject(db, ses, coll, m);
  }

  // ---- Tag transactions ----

  lemma NamedProject(db: Tables, ses: Session, name: string, except: set<Uuid>)
    ensures NameTaken(db, ses.tenant, name, except) <==> TagsNamed(Project(db, ses.tenant), name) - except != {}
  {
    var named := TagsNamed(Project(db, ses.tenant), name) - except;
    if NameTaken(db, ses.tenant, name, except) {
      var id :| id in db.tags && id !in except && db.tags[id].tenant == ses.tenant && db.tags[id].name == name;
      assert id in named;
    }
    if named != {} {
      var id :| id in named;
      assert db.tags[id].tenant == ses.tenant;
    }
  }

  lemma InsertKeepsInv(db: Tables, t: Uuid, name: string, id: Uuid, now: Time)
    requires Inv(db) && id !in db.tags && !NameTaken(db, t, name, {})
    ensures Inv(db.(tags := db.tags[id := TagRow(t, name, now)]))
  {
  }

  lemma CreateOrGetSimulates(db: Tables, ses: Session, coll: Collation, name: string, freshId: Uuid, now: Time)
    requires Inv(db) && StrictTotalOrder(coll) && freshId !in db.tags
    ensures Simulates(db, ses, coll, CreateOrGet(name, freshId, now), DoCreateOrGet(db, ses, name, freshId, now))
  {
    var st := Project(db, ses.tenant);
    NamedProject(db, ses, name, {});
    assert TagsNamed(st, name) - {} == TagsNamed(st, name);
    if !NameTaken(db, ses.tenant, name, {}) {
      InsertKeepsInv(db, ses.tenant, name, freshId, now);
      forall u {
        ProjectSetTag(db, freshId, TagRow(ses.tenant, name, now), u);
      }
    } else {
      assert Named(db, ses, name) == TagsNamed(st, name);
      var id :| id in TagsNamed(st, name);
      assert TagsNamed(st, name) == {id};
    }
  }

  lemma TagKeysProject(db: Tables, ses: Session)
    ensures TagKeys(db, ses) == OwnTagKeys(Project(db, ses.tenant))
  {
    var st := Project(db, ses.tenant);
    forall k | k in TagKeys(db, ses)
      ensures k in OwnTagKeys(st)
    {
      assert k.id in st.tags;
    }
    forall k | k in OwnTagKeys(st)
      ensures k in TagKeys(db, ses)
    {
      assert OwnsTag(db, ses, k.id);
    }
  }

  lemma ListTagsSimulates(db: Tables, ses: Session, coll: Collation, limit: nat, cursor: Option<TagKey>)
    requires Inv(db) && StrictTotalOrder(coll) && limit > 0
    ensures Simulates(db, ses, coll, ListTags(limit, cursor), (db, DoListTags(db, ses, coll, limit, cursor)))
  {
    var st := Project(db, ses.tenant);
    TagKeysProject(db, ses);
    TagOrderIsTotal(coll);
    PageFacts(OwnTagKeys(st), cursor, limit, TagOrder(coll));
    var (page, next) := PageOf(OwnTagKeys(st), cursor, limit, TagOrder(coll));
    LoadedTagsProject(db, ses, page, OwnTagKeys(st));
  }

  lemma RenameKeepsInv(db: Tables, ses: Session, id: Uuid, name: string)
    requires Inv(db) && OwnsTag(db, ses, id) && !NameTaken(db, ses.tenant, name, {id})
    ensures Inv(db.(tags := db.tags[id := db.tags[id].(name := name)]))
  {
  }

  lemma RenameTagSimulates(db: Tables, ses: Session, coll: Collation, id: Uuid, name: string)
    requires Inv(db) && StrictTotalOrder(coll)
    ensures Simulates(db, ses, coll, RenameTag(id, name), DoRenameTag(db, ses, id, name))
  {
    NamedProject(db, ses, name, {id});
    if OwnsTag(db, ses, id) && !NameTaken(db, ses.tenant, name, {id}) {
      RenameKeepsInv(db, ses, id, name);
      forall u {
        ProjectSetTag(db, id, db.tags[id].(name := name), u);
      }
    }
  }

  lemma DeleteTagSimulates(db: Tables, ses: Session, coll: Collation, id: Uuid)
    requires Inv(db) && StrictTotalOrder(coll)
    ensures Simulates(db, ses, coll, DeleteTag(id), DoDeleteTag(db, ses, id))
  {
    if OwnsTag(db, ses, id) {
      forall u {
        ProjectDropTag(db, id, u);
      }
    }
  }

  // ---- Media transactions ----

  ghost function OwnedTags(db: Tables, ses: Session): set<Uuid> {
    set id | id in db.tags && OwnsTag(db, ses, id)
  }

  lemma RepeatsTail(known: set<Uuid>, tagIds: seq<Uuid>)
    requires |tagIds| > 0
    ensures RepeatsKnown(known, tagIds) <==>
            RepeatsKnown(known, tagIds[1..]) || (tagIds[0] in tagIds[1..] && tagIds[0] in known)
  {
    var rest := tagIds[1..];
    if RepeatsKnown(known, tagIds) {
      var i, j :| 0 <= i < j < |tagIds| && tagIds[i] == tagIds[j] && tagIds[i] in known;
      assert rest[j - 1] == tagIds[j];
      if i > 0 {
        assert rest[i - 1] == tagIds[i];
      }
    }
    if RepeatsKnown(known, rest) {
      var i, j :| 0 <= i < j < |rest| && rest[i] == rest[j] && rest[i] in known;
      assert tagIds[i + 1] == tagIds[j + 1];
    }
    if tagIds[0] in rest && tagIds[0] in known {
      var j :| 0 <= j < |rest| && rest[j] == tagIds[0];
      assert tagIds[j + 1] == tagIds[0];
    }
  }

  ghost predicate AlreadyLinked(db: Tables, m: Uuid, ids: set<Uuid>) {
    exists id :: id in ids && Link(m, id) in db.links
  }

  lemma FirstLink(db: Tables, ses: Session, m: Uuid, tagIds: seq<Uuid>)
    requires |tagIds| > 0 && OwnsTag(db, ses, tagIds[0]) && Link(m, tagIds[0]) !in db.links
    ensures var first, rest := tagIds[0], tagIds[1..];
            var db1 := db.(links := db.links[Link(m, first) := ses.tenant]);
            && KnownIds(db, ses, tagIds) == KnownIds(db, ses, rest) + {first}
            && KnownIds(db1, ses, rest) == KnownIds(db, ses, rest)
            && OwnedTags(db1, ses) == OwnedTags(db, ses)
            && (AlreadyLinked(db1, m, KnownIds(db, ses, rest)) <==>
                  AlreadyLinked(db, m, KnownIds(db, ses, tagIds)) || first in rest)
  {
    var first, rest := tagIds[0], tagIds[1..];
    assert tagIds == [first] + rest;
    var db1 := db.(links := db.links[Link(m, first) := ses.tenant]);
    var rest1 := KnownIds(db, ses, rest);
    assert first in rest ==> first in rest1 && Link(m, first) in db1.links;
    if AlreadyLinked(db, m, KnownIds(db, ses, tagIds)) {
      var id :| id in KnownIds(db, ses, tagIds) && Link(m, id) in db.links;
      assert id in rest1 && Link(m, id) in db1.links;
    }
  }

  lemma FirstLinkMerges(db: Tables, m: Uuid, t: Uuid, first: Uuid, ids: set<Uuid>)
    requires Link(m, first) !in db.links && first !in ids
    ensures var db1 := db.(links := db.links[Link(m, first) := t]);
            db1.links + LinkRows(NewLinks(db1, m, ids), t)
            == db.links + LinkRows(NewLinks(db, m, ids + {first}), t)
  {
    var db1 := db.(links := db.links[Link(m, first) := t]);
    assert NewLinks(db1, m, ids) + {Link(m, first)} == NewLinks(db, m, ids + {first});
  }

  // The insert loop of MediaRepo.Create fails iff a known tag is listed twice or linked already;
  // otherwise it links every known tag and drops the others.
  lemma {:induction false} AddLinksOutcome(db: Tables, ses: Session, m: Uuid, tagIds: seq<Uuid>)
    ensures var known := KnownIds(db, ses, tagIds);
            && (AddLinks(db, ses, m, tagIds).None? <==>
                  AlreadyLinked(db, m, known) || RepeatsKnown(OwnedTags(db, ses), tagIds))
            && (AddLinks(db, ses, m, tagIds).Some? ==>
                  AddLinks(db, ses, m, tagIds).value
                  == db.(links := db.links + LinkRows(NewLinks(db, m, known), ses.tenant)))
    decreases |tagIds|
  {
    var known := KnownIds(db, ses, tagIds);
    if |tagIds| == 0 {
      assert NewLinks(db, m, known) == {};
    } else {
      var first, rest := tagIds[0], tagIds[1..];
      RepeatsTail(OwnedTags(db, ses), tagIds);
      if !OwnsTag(db, ses, first) {
        AddLinksOutcome(db, ses, m, rest);
        assert tagIds == [first] + rest;
        assert KnownIds(db, ses, rest) == known;
      } else if Link(m, first) in db.links {
        assert first in known;
      } else {
        var db1 := db.(links := db.links[Link(m, first) := ses.tenant]);
        FirstLink(db, ses, m, tagIds);
        AddLinksOutcome(db1, ses, m, rest);
        if first !in rest {
          FirstLinkMerges(db, m, ses.tenant, first, KnownIds(db, ses, rest));
        }
      }
    }
  }

  lemma KnownLinksProject(db: Tables, ses: Session, m: Uuid, tagIds: seq<Uuid>)
    requires Inv(db)
    ensures var known := KnownIds(db, ses, tagIds);
            && known == set id | id in tagIds && id in Project(db, ses.tenant).tags
            && db.links + LinkRows(NewLinks(db, m, known), ses.tenant)
               == db.links + LinkRows(LinksFor(Project(db, ses.tenant), m, tagIds), ses.tenant)
            && forall l :: l in LinksFor(Project(db, ses.tenant), m, tagIds) && l in db.links ==>
                db.links[l] == ses.tenant
  {
    var known := KnownIds(db, ses, tagIds);
    var st := Project(db, ses.tenant);
    assert known == set id | id in tagIds && id in st.tags;
    forall l | l in LinksFor(st, m, tagIds)
      ensures l in NewLinks(db, m, known) || (l in db.links && db.links[l] == ses.tenant)
    {
      assert l.tag in known && l == Link(m, l.tag);
    }
    forall l | l in NewLinks(db, m, known)
      ensures l in LinksFor(st, m, tagIds)
    {
      assert l.tag in st.tags;
    }
  }

  // Linking known tags of its own to a media item of its own keeps the tenants in agreement.
  lemma LinkingKeepsInv(db: Tables, ses: Session, m: Uuid, tagIds: seq<Uuid>)
    requires Inv(db) && OwnsMedia(db, ses, m)
    ensures Inv(db.(links := db.links + LinkRows(NewLinks(db, m, KnownIds(db, ses, tagIds)), ses.tenant)))
  {
  }

  ghost function WithKnownLinks(db: Tables, ses: Session, m: Uuid, tagIds: seq<Uuid>): Tables {
    db.(links := db.links + LinkRows(NewLinks(db, m, KnownIds(db, ses, tagIds)), ses.tenant))
  }

  lemma KnownLinksProjections(db: Tables, ses: Session, m: Uuid, tagIds: seq<Uuid>, u: Uuid)
    requires Inv(db)
    ensures var st := Project(db, u);
            Project(WithKnownLinks(db, ses, m, tagIds), u)
            == if u == ses.tenant then st.(links := st.links + LinksFor(st, m, tagIds)) else st
  {
    KnownLinksProject(db, ses, m, tagIds);
    ProjectAddLinks(db, ses.tenant, LinksFor(Project(db, ses.tenant), m, tagIds), u);
  }

  lemma LinkKnownTags(db: Tables, ses: Session, coll: Collation, m: Uuid, tagIds: seq<Uuid>)
    requires Inv(db) && StrictTotalOrder(coll) && OwnsMedia(db, ses, m)
    ensures var db' := WithKnownLinks(db, ses, m, tagIds);
            var st := Project(db, ses.tenant);
            var st' := st.(links := st.links + LinksFor(st, m, tagIds));
            && Inv(db')
            && Project(db', ses.tenant) == st'
            && OthersUntouched(db, db', ses.tenant)
            && MediaTags(db', ses, coll, m) == Attached(st', coll, m)
  {
    LinkingKeepsInv(db, ses, m, tagIds);
    forall u {
      KnownLinksProjections(db, ses, m, tagIds, u);
    }
    MediaTagsProject(WithKnownLinks(db, ses, m, tagIds), ses, coll, m);
  }

  lemma InsertedMediaProjects(db: Tables, ses: Session, info: MediaInfo, id: Uuid, now: Time)
    requires Inv(db) && id !in db.media
    ensures var db1 := db.(media := db.media[id := MediaRow(ses.tenant, info, now)]);
            var st := Project(db, ses.tenant);
            && Inv(db1) && OwnsMedia(db1, ses, id)
            && Project(db1, ses.tenant) == st.(media := st.media[id := OwnMedia(info, now)])
            && OthersUntouched(db, db1, ses.tenant)
            && OwnedTags(db1, ses) == st.tags.Keys
  {
    forall u {
      ProjectSetMedia(db, id, MediaRow(ses.tenant, info, now), u);
    }
    assert OwnedTags(db.(media := db.media[id := MediaRow(ses.tenant, info, now)]), ses)
      == Project(db, ses.tenant).tags.Keys;
  }

  // The tables after a CreateMedia whose tag ids raise no conflict.
  lemma CreatedMediaProjects(db: Tables, ses: Session, coll: Collation, info: MediaInfo, tagIds: seq<Uuid>,
                             id: Uuid, now: Time)
    requires Inv(db) && StrictTotalOrder(coll) && id !in db.media
             && !RepeatsKnown(Project(db, ses.tenant).tags.Keys, tagIds)
    ensures var (db', reply) := DoCreateMedia(db, ses, coll, info, tagIds, id, now);
            var st := Project(db, ses.tenant);
            var st' := st.(media := st.media[id := OwnMedia(info, now)], links := st.links + LinksFor(st, id, tagIds));
            && Inv(db') && Project(db', ses.tenant) == st' && OthersUntouched(db, db', ses.tenant)
            && reply == MediaReply(OwnMediaAt(st', coll, id))
  {
    var db1 := db.(media := db.media[id := MediaRow(ses.tenant, info, now)]);
    InsertedMediaProjects(db, ses, info, id, now);
    AddLinksOutcome(db1, ses, id, tagIds);
    LinkKnownTags(db1, ses, coll, id, tagIds);
    assert LinksFor(Project(db1, ses.tenant), id, tagIds) == LinksFor(Project(db, ses.tenant), id, tagIds);
  }

  lemma RepeatedIdConflicts(db: Tables, ses: Session, coll: Collation, info: MediaInfo, tagIds: seq<Uuid>,
                            id: Uuid, now: Time)
    requires Inv(db) && StrictTotalOrder(coll) && id !in db.media
             && RepeatsKnown(Project(db, ses.tenant).tags.Keys, tagIds)
    ensures DoCreateMedia(db, ses, coll, info, tagIds, id, now) == (db, Failed(ErrInternal))
  {
    InsertedMediaProjects(db, ses, info, id, now);
    AddLinksOutcome(db.(media := db.media[id := MediaRow(ses.tenant, info, now)]), ses, id, tagIds);
  }

  // The port asks Create for ErrNotFound when a tag id does not exist.
  ghost predicate MeetsPort(st: Store, tagIds: seq<Uuid>, reply: Reply) {
    (exists id :: id in tagIds && id !in st.tags) ==> reply == Failed(ErrNotFound)
  }

  // It is met exactly when the tenant has all the tags.
  lemma CreateMeetsPortIff(db: Tables, ses: Session, coll: Collation, info: MediaInfo, tagIds: seq<Uuid>, id: Uuid,
                           now: Time)
    requires Inv(db) && StrictTotalOrder(coll) && id !in db.media
    ensures MeetsPort(Project(db, ses.tenant), tagIds, DoCreateMedia(db, ses, coll, info, tagIds, id, now).1)
            <==> forall tagId :: tagId in tagIds ==> OwnsTag(db, ses, tagId)
  {
    if RepeatsKnown(Project(db, ses.tenant).tags.Keys, tagIds) {
      RepeatedIdConflicts(db, ses, coll, info, tagIds, id, now);
    } else {
      CreatedMediaProjects(db, ses, coll, info, tagIds, id, now);
    }
  }

  lemma CreateMediaSimulates(db: Tables, ses: Session, coll: Collation, info: MediaInfo, tagIds: seq<Uuid>,
                             freshId: Uuid, now: Time)
    requires Inv(db) && StrictTotalOrder(coll) && freshId !in db.media
    ensures Simulates(db, ses, coll, CreateMedia(info, tagIds, freshId, now),
                      DoCreateMedia(db, ses, coll, info, tagIds, freshId, now))
  {
    if RepeatsKnown(Project(db, ses.tenant).tags.Keys, tagIds) {
      RepeatedIdConflicts(db, ses, coll, info, tagIds, freshId, now);
    } else {
      CreatedMediaProjects(db, ses, coll, info, tagIds, freshId, now);
    }
  }

  lemma DeleteMediaSimulates(db: Tables, ses: Session, coll: Collation, id: Uuid)
    requires Inv(db) && StrictTotalOrder(coll)
    ensures Simulates(db, ses, coll, DeleteMedia(id), DoDeleteMedia(db, ses, id))
  {
    if OwnsMedia(db, ses, id) {
      forall u {
        ProjectDropMedia(db, id, u);
      }
    }
  }

  // The rows-affected shortcut never decides: the outcome is "every id known, none repeated".
  lemma AttachDecision(db: Tables, ses: Session, m: Uuid, tagIds: seq<Uuid>)
    ensures var known := KnownIds(db, ses, tagIds);
            && (|NewLinks(db, m, known)| < |tagIds| && |known| < |tagIds| <==> |known| < |tagIds|)
            && (|known| < |tagIds| <==> !(NoDuplicates(tagIds) && forall id :: id in tagIds ==> OwnsTag(db, ses, id)))
  {
    var known := KnownIds(db, ses, tagIds);
    CountEqualsContainment(known, tagIds);
    DistinctCount(tagIds);
    assert known <= Elements(tagIds);
    SubsetCount(known, Elements(tagIds));
    var unlinked := set id | id in known && Link(m, id) !in db.links;
    SubsetCount(unlinked, known);
    LinkCount(db, m, unlinked);
    assert NewLinks(db, m, known) == NewLinks(db, m, unlinked);
  }

  lemma {:induction false} LinkCount(db: Tables, m: Uuid, ids: set<Uuid>)
    requires forall id :: id in ids ==> Link(m, id) !in db.links
    ensures |NewLinks(db, m, ids)| == |ids|
  {
    if ids != {} {
      var id :| id in ids;
      LinkCount(db, m, ids - {id});
      assert NewLinks(db, m, ids) == NewLinks(db, m, ids - {id}) + {Link(m, id)};
    }
  }

  lemma AttachTagsSimulates(db: Tables, ses: Session, coll: Collation, m: Uuid, tagIds: seq<Uuid>)
    requires Inv(db) && StrictTotalOrder(coll)
    ensures Simulates(db, ses, coll, AttachTags(m, tagIds), DoAttachTags(db, ses, m, tagIds))
  {
    var st := Project(db, ses.tenant);
    if OwnsMedia(db, ses, m) {
      AttachDecision(db, ses, m, tagIds);
      assert (forall id :: id in tagIds ==> OwnsTag(db, ses, id)) <==> forall id :: id in tagIds ==> id in st.tags;
      if |tagIds| == 0 {
        assert st.links + LinksFor(st, m, tagIds) == st.links;
      } else {
        LinkKnownTags(db, ses, coll, m, tagIds);
      }
    }
  }

  lemma DetachTagSimulates(db: Tables, ses: Session, coll: Collation, m: Uuid, id: Uuid)
    requires Inv(db) && StrictTotalOrder(coll)
    ensures Simulates(db, ses, coll, DetachTag(m, id), DoDetachTag(db, ses, m, id))
  {
    var (db', r) := DoDetachTag(db, ses, m, id);
    forall u
      ensures Project(db', u) == if u == ses.tenant && OwnsMedia(db, ses, m) then
                                   Project(db, u).(links := Project(db, u).links - {Link(m, id)}) else Project(db, u)
    {
      assert Project(db', u).links == if u == ses.tenant && OwnsMedia(db, ses, m) then
                                        Project(db, u).links - {Link(m, id)} else Project(db, u).links;
    }
  }

  // ---- Filtered listings ----

  lemma IdsFilterProjects(db: Tables, ses: Session, m: Uuid, tagIds: seq<Uuid>)
    requires Inv(db) && OwnsMedia(db, ses, m)
    ensures |GroupByIds(db, ses, m, tagIds)| == |tagIds| <==> CarriesIds(Project(db, ses.tenant), m, tagIds)
  {
    var st := Project(db, ses.tenant);
    var found := GroupByIds(db, ses, m, tagIds);
    CountEqualsContainment(found, tagIds);
    forall id | id in tagIds
      ensures id in found <==> Link(m, id) in st.links
    {
      if id in found {
        var l :| l in db.links && Sees(ses, db.links[l]) && l.media == m && l.tag in tagIds && l.tag == id;
        assert l == Link(m, id);
      }
    }
  }

  lemma GroupByNamesProjects(db: Tables, ses: Session, m: Uuid, names: seq<string>, id: Uuid)
    requires Inv(db) && OwnsMedia(db, ses, m)
    ensures var st := Project(db, ses.tenant);
            id in GroupByNames(db, ses, m, names) <==>
              id in st.tags && Link(m, id) in st.links && st.tags[id].name in names
  {
    var st := Project(db, ses.tenant);
    if id in GroupByNames(db, ses, m, names) {
      var l :| l in db.links && Sees(ses, db.links[l]) && l.media == m
               && l.tag in db.tags && Sees(ses, db.tags[l.tag].tenant) && db.tags[l.tag].name in names && l.tag == id;
      assert l == Link(m, id);
    }
    if id in st.tags && Link(m, id) in st.links && st.tags[id].name in names {
      assert Link(m, id) in db.links;
    }
  }

  lemma FoundByName(st: Store, m: Uuid, ids: set<Uuid>, names: seq<string>, n: string)
    requires n in names
    requires forall id :: id in ids <==> id in st.tags && Link(m, id) in st.links && st.tags[id].name in names
    ensures (exists id :: id in ids && st.tags[id].name == n)
            <==> exists id :: id in TagsNamed(st, n) && Link(m, id) in st.links
  {
    if id :| id in ids && st.tags[id].name == n {
      assert id in TagsNamed(st, n) && Link(m, id) in st.links;
    }
    if id :| id in TagsNamed(st, n) && Link(m, id) in st.links {
      assert id in ids && st.tags[id].name == n;
    }
  }

  // Distinct tags carried with a requested name are as many as distinct requested names carried,
  // because a tenant's names are unique.
  lemma NamesCount(st: Store, m: Uuid, ids: set<Uuid>, names: seq<string>)
    requires forall id :: id in ids <==> id in st.tags && Link(m, id) in st.links && st.tags[id].name in names
    requires forall a, b :: a in st.tags && b in st.tags && a != b ==> st.tags[a].name != st.tags[b].name
    ensures |ids| == |names| <==> CarriesNames(st, m, names)
  {
    var nameOf := map id | id in ids :: st.tags[id].name;
    var found := nameOf.Values;
    ImageSize(nameOf);
    assert nameOf.Keys == ids;
    CountEqualsContainment(found, names);
    forall n | n in names
      ensures n in found <==> exists id :: id in TagsNamed(st, n) && Link(m, id) in st.links
    {
      FoundByName(st, m, ids, names, n);
    }
  }

  lemma NamesFilterProjects(db: Tables, ses: Session, m: Uuid, names: seq<string>)
    requires Inv(db) && OwnsMedia(db, ses, m)
    ensures |GroupByNames(db, ses, m, names)| == |names| <==> CarriesNames(Project(db, ses.tenant), m, names)
  {
    forall id {
      GroupByNamesProjects(db, ses, m, names, id);
    }
    NamesCount(Project(db, ses.tenant), m, GroupByNames(db, ses, m, names), names);
  }

  lemma SelectionProjects(db: Tables, ses: Session, filter: Filter, m: Uuid)
    requires Inv(db)
    ensures Selected(db, ses, filter, m) <==> Matches(Project(db, ses.tenant), filter, m)
  {
    if OwnsMedia(db, ses, m) {
      IdsFilterProjects(db, ses, m, filter.tagIds);
      NamesFilterProjects(db, ses, m, filter.tagNames);
    }
  }

  lemma MediaKeysProject(db: Tables, ses: Session, filter: Filter)
    requires Inv(db)
    ensures MediaKeys(db, ses, filter) == MatchingKeys(Project(db, ses.tenant), filter)
  {
    var st := Project(db, ses.tenant);
    forall k | k in MediaKeys(db, ses, filter)
      ensures k in MatchingKeys(st, filter)
    {
      SelectionProjects(db, ses, filter, k.id);
    }
    forall k | k in MatchingKeys(st, filter)
      ensures k in MediaKeys(db, ses, filter)
    {
      SelectionProjects(db, ses, filter, k.id);
    }
  }

  lemma LoadedMediaProjects(db: Tables, ses: Session, coll: Collation, keys: seq<MediaKey>)
    requires Inv(db) && StrictTotalOrder(coll)
    requires forall k :: k in keys ==> OwnsMedia(db, ses, k.id)
    ensures forall k :: k in keys ==> k.id in db.media && k.id in Project(db, ses.tenant).media
    ensures LoadMedia(db, ses, coll, keys) == OwnItems(Project(db, ses.tenant), coll, keys)
  {
    forall i | 0 <= i < |keys|
      ensures OwnsMedia(db, ses, keys[i].id)
              && MediaAt(db, ses, coll, keys[i].id) == OwnMediaAt(Project(db, ses.tenant), coll, keys[i].id)
    {
      assert keys[i] in keys;
      MediaAtProjects(db, ses, coll, keys[i].id);
    }
  }

  lemma ListMediaSimulates(db: Tables, ses: Session, coll: Collation, limit: nat, cursor: Option<MediaKey>,
                           filter: Filter)
    requires Inv(db) && StrictTotalOrder(coll) && limit > 0
    ensures Simulates(db, ses, coll, ListMedia(limit, cursor, filter),
                      (db, DoListMedia(db, ses, coll, limit, cursor, filter)))
  {
    MediaKeysProject(db, ses, filter);
    MediaOrderIsTotal();
    PageFacts(MediaKeys(db, ses, filter), cursor, limit, MediaOrder());
    var (page, next) := PageOf(MediaKeys(db, ses, filter), cursor, limit, MediaOrder());
    LoadedMediaProjects(db, ses, coll, page);
  }

  // ---- The simulation ----

  lemma ExecSimulates(db: Tables, ses: Session, coll: Collation, op: Op)
    requires Inv(db) && StrictTotalOrder(coll) && Admissible(db, op)
    ensures Simulates(db, ses, coll, op, Exec(db, ses, coll, op))
  {
    match op
    case CreateOrGet(name, freshId, now) => CreateOrGetSimulates(db, ses, coll, name, freshId, now);
    case ListTags(limit, cursor) => ListTagsSimulates(db, ses, coll, limit, cursor);
    case RenameTag(id, name) => RenameTagSimulates(db, ses, coll, id, name);
    case DeleteTag(id) => DeleteTagSimulates(db, ses, coll, id);
    case CreateMedia(info, tagIds, freshId, now) => CreateMediaSimulates(db, ses, coll, info, tagIds, freshId, now);
    case GetMedia(id) =>
      if OwnsMedia(db, ses, id) {
        MediaAtProjects(db, ses, coll, id);
      }
    case ListMedia(limit, cursor, filter) => ListMediaSimulates(db, ses, coll, limit, cursor, filter);
    case DeleteMedia(id) => DeleteMediaSimulates(db, ses, coll, id);
    case AttachTags(m, tagIds) => AttachTagsSimulates(db, ses, coll, m, tagIds);
    case DetachTag(m, id) => DetachTagSimulates(db, ses, coll, m, id);
  }

  // Every row belongs to some tenant, so the projections determine the tables.
  lemma ProjectionsDetermine(a: Tables, b: Tables)
    requires forall u :: Project(a, u) == Project(b, u)
    ensures a == b
  {
    forall id | id in a.tags || id in b.tags
      ensures id in a.tags && id in b.tags && a.tags[id] == b.tags[id]
    {
      var u := if id in a.tags then a.tags[id].tenant else b.tags[id].tenant;
      assert Project(a, u).tags == Project(b, u).tags;
      assert id in Project(a, u).tags;
    }
    forall id | id in a.media || id in b.media
      ensures id in a.media && id in b.media && a.media[id] == b.media[id]
    {
      var u := if id in a.media then a.media[id].tenant else b.media[id].tenant;
      assert Project(a, u).media == Project(b, u).media;
      assert id in Project(a, u).media;
    }
    forall l | l in a.links || l in b.links
      ensures l in a.links && l in b.links && a.links[l] == b.links[l]
    {
      var u := if l in a.links then a.links[l] else b.links[l];
      assert l in Project(a, u).links && l in Project(b, u).links;
    }
    assert a.tags == b.tags && a.media == b.media && a.links == b.links;
  }

  // WITH CHECK (tenant_id = app_current_tenant()): every row written carries the session's tenant.
  ghost predicate WritesOwnRows(db: Tables, db': Tables, t: Uuid) {
    && (forall id :: id in db'.tags && (id !in db.tags || db'.tags[id] != db.tags[id]) ==> db'.tags[id].tenant == t)
    && (forall id :: id in db'.media && (id !in db.media || db'.media[id] != db.media[id]) ==>
          db'.media[id].tenant == t)
    && (forall l :: l in db'.links && (l !in db.links || db'.links[l] != db.links[l]) ==> db'.links[l] == t)
  }

  lemma OthersUntouchedMeansOwnWrites(db: Tables, db': Tables, t: Uuid)
    requires OthersUntouched(db, db', t)
    ensures WritesOwnRows(db, db', t)
  {
    forall id | id in db'.tags && db'.tags[id].tenant != t
      ensures id in db.tags && db'.tags[id] == db.tags[id]
    {
      var u := db'.tags[id].tenant;
      assert id in Project(db', u).tags && Project(db', u) == Project(db, u);
    }
    forall id | id in db'.media && db'.media[id].tenant != t
      ensures id in db.media && db'.media[id] == db.media[id]
    {
      var u := db'.media[id].tenant;
      assert id in Project(db', u).media && Project(db', u) == Project(db, u);
    }
    forall l | l in db'.links && db'.links[l] != t
      ensures l in db.links && db'.links[l] == db.links[l]
    {
      assert l in Project(db', db'.links[l]).links;
    }
  }

  // Turning the row-level-security policies on changes no reply and no table: the rows they hide are
  // not looked for, and the rows they would reject are not written.
  lemma RowLevelSecurityIsInvisible(db: Tables, tenant: Uuid, coll: Collation, op: Op)
    requires Inv(db) && StrictTotalOrder(coll) && Admissible(db, op)
    ensures Exec(db, Session(tenant, true), coll, op) == Exec(db, Session(tenant, false), coll, op)
    ensures WritesOwnRows(db, Exec(db, Session(tenant, true), coll, op).0, tenant)
  {
    ExecSimulates(db, Session(tenant, true), coll, op);
    ExecSimulates(db, Session(tenant, false), coll, op);
    var with, without := Exec(db, Session(tenant, true), coll, op).0, Exec(db, Session(tenant, false), coll, op).0;
    forall u
      ensures Project(with, u) == Project(without, u)
    {
      if u != tenant {
        assert Project(with, u) == Project(db, u);
        assert Project(without, u) == Project(db, u);
      }
    }
    ProjectionsDetermine(with, without);
    OthersUntouchedMeansOwnWrites(db, with, tenant);
  }

  // ---- Whole histories ----

  datatype Request = Request(tenant: Uuid, op: Op)

  ghost predicate IsHistory(db: Tables, rls: bool, coll: Collation, reqs: seq<Request>)
    requires StrictTotalOrder(coll)
    decreases |reqs|
  {
    |reqs| == 0 ||
    (&& Admissible(db, reqs[0].op)
     && IsHistory(Exec(db, Session(reqs[0].tenant, rls), coll, reqs[0].op).0, rls, coll, reqs[1..]))
  }

  ghost function ExecAll(db: Tables, rls: bool, coll: Collation, reqs: seq<Request>): (Tables, seq<Reply>)
    requires StrictTotalOrder(coll) && IsHistory(db, rls, coll, reqs)
    decreases |reqs|
  {
    if |reqs| == 0 then (db, [])
    else
      var (db1, reply) := Exec(db, Session(reqs[0].tenant, rls), coll, reqs[0].op);
      var (db2, replies) := ExecAll(db1, rls, coll, reqs[1..]);
      (db2, [reply] + replies)
  }

  // The same operations of one tenant, on a store of its own.
  ghost function RunOwn(st: Store, coll: Collation, reqs: seq<Request>, t: Uuid): (Store, seq<Reply>)
    requires StrictTotalOrder(coll)
    requires forall r :: r in reqs && (r.op.ListTags? || r.op.ListMedia?) ==> r.op.limit > 0
    decreases |reqs|
  {
    if |reqs| == 0 then (st, [])
    else if reqs[0].tenant != t then RunOwn(st, coll, reqs[1..], t)
    else
      assert reqs[0] in reqs;
      var (st1, reply) := Run(st, coll, reqs[0].op);
      var (st2, replies) := RunOwn(st1, coll, reqs[1..], t);
      (st2, [reply] + replies)
  }

  ghost function RepliesTo(reqs: seq<Request>, replies: seq<Reply>, t: Uuid): seq<Reply>
    requires |reqs| == |replies|
    decreases |reqs|
  {
    if |reqs| == 0 then []
    else (if reqs[0].tenant == t then [replies[0]] else []) + RepliesTo(reqs[1..], replies[1..], t)
  }

  lemma {:induction false} LimitsArePositive(db: Tables, rls: bool, coll: Collation, reqs: seq<Request>)
    requires StrictTotalOrder(coll) && IsHistory(db, rls, coll, reqs)
    ensures forall r :: r in reqs && (r.op.ListTags? || r.op.ListMedia?) ==> r.op.limit > 0
    decreases |reqs|
  {
    if |reqs| > 0 {
      LimitsArePositive(Exec(db, Session(reqs[0].tenant, rls), coll, reqs[0].op).0, rls, coll, reqs[1..]);
      assert reqs == [reqs[0]] + reqs[1..];
    }
  }

  // In any interleaving of any tenants' requests, each tenant sees exactly the replies and ends
  // with exactly the rows it would have had with the database to itself.
  lemma {:induction false} EachTenantAlone(db: Tables, rls: bool, coll: Collation, reqs: seq<Request>, t: Uuid)
    requires Inv(db) && StrictTotalOrder(coll) && IsHistory(db, rls, coll, reqs)
    ensures forall r :: r in reqs && (r.op.ListTags? || r.op.ListMedia?) ==> r.op.limit > 0
    ensures Inv(ExecAll(db, rls, coll, reqs).0)
    ensures |ExecAll(db, rls, coll, reqs).1| == |reqs|
    ensures var (end, replies) := ExecAll(db, rls, coll, reqs);
            (Project(end, t), RepliesTo(reqs, replies, t)) == RunOwn(Project(db, t), coll, reqs, t)
    decreases |reqs|
  {
    LimitsArePositive(db, rls, coll, reqs);
    if |reqs| > 0 {
      var ses := Session(reqs[0].tenant, rls);
      var (db1, reply) := Exec(db, ses, coll, reqs[0].op);
      ExecSimulates(db, ses, coll, reqs[0].op);
      EachTenantAlone(db1, rls, coll, reqs[1..], t);
      var (end, replies) := ExecAll(db1, rls, coll, reqs[1..]);
      assert ([reply] + replies)[1..] == replies;
      if reqs[0].tenant != t {
        assert Project(db1, t) == Project(db, t);
        assert RepliesTo(reqs, [reply] + replies, t) == RepliesTo(reqs[1..], replies, t);
      }
    }
  }
}
